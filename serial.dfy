/**
 * The serial link to the touch controller: the bus wires, the bit-by-bit
 * shifting loops of the software transport, and the decoding of a 12-bit
 * conversion result from what the controller clocks out.
 */
module Serial {
  import opened Bits

  /**
   * The wires between the host and the touch controller, seen as streams.
   * `miso(k)` is the level of the data-in line during the k-th clock pulse,
   * `penIrq(k)` the level of the pen-interrupt line at its k-th reading
   * (high means no touch); `clock` and `polls` count what was consumed so far.
   * `sent` holds the bytes the controller has received, each assembled from
   * the eight bits driven on the data-out line during one byte transfer,
   * most significant bit first.
   */
  class Bus {
    const miso: nat -> bool
    const penIrq: nat -> bool
    var clock: nat
    var polls: nat
    var sent: seq<uint8>

    constructor (miso: nat -> bool, penIrq: nat -> bool)
      ensures this.miso == miso && this.penIrq == penIrq
      ensures clock == 0 && polls == 0 && sent == []
    {
      this.miso := miso;
      this.penIrq := penIrq;
      clock, polls, sent := 0, 0, [];
    }

    /**
     * A byte transfer: eight clock pulses, each driving one bit of `out` on
     * data-out while data-in is sampled.
     */
    method Transfer(out: seq<bool>) returns (received: seq<bool>)
      requires |out| == 8
      modifies this
      ensures received == Window(miso, old(clock), 8)
      ensures clock == old(clock) + 8 && sent == old(sent) + [BitsValue(out)] && polls == old(polls)
    {
      assert Pow2(8) == 0x100;
      received := Window(miso, clock, 8);
      clock := clock + 8;
      sent := sent + [BitsValue(out)];
    }

    /** `n` clock pulses with data-out left alone, sampling data-in at each. */
    method Clock(n: nat) returns (received: seq<bool>)
      modifies this
      ensures received == Window(miso, old(clock), n)
      ensures clock == old(clock) + n && sent == old(sent) && polls == old(polls)
    {
      received := Window(miso, clock, n);
      clock := clock + n;
    }

    /** One reading of the pen-interrupt line. */
    method ReadIrq() returns (high: bool)
      modifies this
      ensures high == penIrq(old(polls))
      ensures polls == old(polls) + 1 && clock == old(clock) && sent == old(sent)
    {
      high := penIrq(polls);
      polls := polls + 1;
    }
  }

  /** The levels of `line` during the `len` pulses starting at pulse `start`. */
  function Window(line: nat -> bool, start: nat, len: nat): seq<bool>
  {
    seq(len, k requires 0 <= k < len => line(start + k))
  }

  /**
   * The number whose binary digits, most significant first, are the levels
   * of `line` during the `len` pulses starting at pulse `start`:
   * `BitsValue(Window(line, start, len))` (LineValueWindow), written on the
   * stream itself so that the conversion result needs no sequence built.
   */
  function LineValue(line: nat -> bool, start: nat, len: nat): (v: nat)
    ensures v < Pow2(len)
  {
    if len == 0 then 0 else 2 * LineValue(line, start, len - 1) + (if line(start + len - 1) then 1 else 0)
  }

  lemma {:induction false} LineValueWindow(line: nat -> bool, start: nat, len: nat)
    ensures LineValue(line, start, len) == BitsValue(Window(line, start, len))
  {
    if len > 0 {
      LineValueWindow(line, start, len - 1);
      assert Window(line, start, len)[..len - 1] == Window(line, start, len - 1);
    }
  }

  /**
   * Software transmit loop: presents bit 7 of `temp` on data-out, shifts
   * `temp` left within its 8 bits, pulses the clock; eight times.
   */
  method ShiftOut(data: uint8) returns (line: seq<bool>)
    ensures line == BitsOf(data, 8)
    ensures BitsValue(line) == data
  {
    ghost var bits := BitsOf(data, 8);
    BitsValueRoundTrip(bits);
    BitsOfRoundTrip(data, 8);
    var temp: uint8 := data;
    line := [];
    var count := 0;
    while count < 8
      invariant 0 <= count <= 8
      invariant line == bits[..count]
      invariant temp == BitsValue(bits[count..]) * Pow2(count)
    {
      ShiftOutStep(bits[count..], count, temp);
      assert bits[count..][1..] == bits[count + 1..];
      line := line + [temp >= 0x80];
      temp := (temp * 2) % 0x100;
      count := count + 1;
    }
    assert bits[8..] == [];
  }

  /** What one step of the transmit loop does to the unsent bits held in `temp`. */
  lemma {:induction false} ShiftOutStep(rest: seq<bool>, sent: nat, temp: nat)
    requires rest != [] && sent + |rest| == 8
    requires temp == BitsValue(rest) * Pow2(sent)
    ensures temp < 0x100 && (temp >= 0x80 <==> rest[0])
    ensures (temp * 2) % 0x100 == BitsValue(rest[1..]) * Pow2(sent + 1)
  {
    var tail, p := BitsValue(rest[1..]), Pow2(sent);
    UnsentSplit(rest, sent);
    UnsentTailBound(rest, sent);
    TopBitStep(temp, tail * p, rest[0]);
    assert Pow2(sent + 1) == 2 * p;
    DoubleFactor(tail, p);
  }

  lemma {:induction false} UnsentSplit(rest: seq<bool>, sent: nat)
    requires rest != [] && sent + |rest| == 8
    ensures BitsValue(rest) * Pow2(sent) == (if rest[0] then 0x80 else 0) + BitsValue(rest[1..]) * Pow2(sent)
  {
    LeadingBit(rest);
    Pow2Add(7 - sent, sent);
    assert Pow2(7) == 0x80;
    AddFactor(if rest[0] then Pow2(7 - sent) else 0, BitsValue(rest[1..]), Pow2(sent));
  }

  lemma {:induction false} UnsentTailBound(rest: seq<bool>, sent: nat)
    requires rest != [] && sent + |rest| == 8
    ensures BitsValue(rest[1..]) * Pow2(sent) < 0x80
  {
    Pow2Add(7 - sent, sent);
    assert Pow2(7) == 0x80;
    MulStrict(BitsValue(rest[1..]), Pow2(7 - sent), Pow2(sent));
  }

  /** An 8-bit value whose top bit is `top` and whose other bits are `u`, and its double modulo 256. */
  lemma TopBitStep(t: nat, u: nat, top: bool)
    requires t == (if top then 0x80 else 0) + u && u < 0x80
    ensures t < 0x100 && (t >= 0x80 <==> top)
    ensures (t * 2) % 0x100 == u * 2
  {
  }

  lemma MulStrict(x: nat, y: nat, z: nat)
    requires x < y && z >= 1
    ensures x * z < y * z
  {
  }

  /** `temp |= bit` for a one-bit operand. */
  function OrLowBit(temp: uint8, bit: bool): uint8
  {
    if bit && temp % 2 == 0 then temp + 1 else temp
  }

  /**
   * Software receive loop: pulses the clock, shifts `temp` left within its 8
   * bits and ORs in the level sampled on data-in; eight times.
   */
  method ShiftIn(line: seq<bool>) returns (temp: uint8)
    requires |line| == 8
    ensures temp == BitsValue(line)
  {
    temp := 0;
    var count := 0;
    while count < 8
      invariant 0 <= count <= 8
      invariant temp == PrefixValue(line, count)
    {
      Pow2Monotonic(count, 7);
      assert Pow2(7) == 0x80;
      SmallMod(temp * 2, 0x100);
      temp := (temp * 2) % 0x100;
      temp := OrLowBit(temp, line[count]);
      count := count + 1;
    }
    PrefixValueIsBitsValue(line, 8);
    assert line[..8] == line;
  }

  /**
   * Bit-banged conversion read: twelve times, shift `value` left within its
   * 16 bits, pulse the clock and add one when data-in is high.
   */
  method ReadBits12(line: seq<bool>) returns (value: uint16)
    requires |line| == 12
    ensures value == BitsValue(line)
    ensures value <= 0xFFF
  {
    value := 0;
    var count := 0;
    while count < 12
      invariant 0 <= count <= 12
      invariant value == PrefixValue(line, count)
    {
      Pow2Monotonic(count, 11);
      assert Pow2(11) == 0x800;
      SmallMod(value * 2, 0x1_0000);
      value := (value * 2) % 0x1_0000;
      if line[count] {
        SmallMod(value + 1, 0x1_0000);
        value := (value + 1) % 0x1_0000;
      }
      count := count + 1;
    }
    PrefixValueIsBitsValue(line, 12);
    assert line[..12] == line;
    assert Pow2(12) == 0x1000;
  }

  lemma SmallMod(x: nat, m: nat)
    requires x < m
    ensures x % m == x
  {
  }

  /**
   * Decoding of the two bytes a hardware transfer returns after a conversion
   * command: `hi` shifted into the upper byte, `lo` ORed into the lower
   * byte, the 16-bit word shifted right by three and masked to 12 bits.
   */
  function ByteDecode(hi: uint8, lo: uint8): (value: uint16)
    ensures value <= 0xFFF
  {
    var word := (hi * 0x100) % 0x1_0000;
    var word := word + lo;
    var word := word / 8;
    word % 0x1000
  }

  /**
   * The two bytes of a 16-pulse window decode to the 12 bits clocked in on
   * pulses 1 to 12 of the window: the leading busy pulse and the three
   * trailing pulses are dropped.
   */
  lemma {:induction false} ByteDecodeWindow(window: seq<bool>)
    requires |window| == 16
    ensures ByteDecode(BitsValue(window[..8]), BitsValue(window[8..])) == BitsValue(window[1..13])
  {
    var hi, lo := BitsValue(window[..8]), BitsValue(window[8..]);
    assert Pow2(8) == 0x100;
    HighByte(hi);
    BytesWord(window);
    WordShift(window);
    var top := window[..13];
    LeadingBit(top);
    assert top[1..] == window[1..13];
    assert Pow2(12) == 0x1000;
    DropLeading(BitsValue(top), top[0], BitsValue(window[1..13]));
  }

  lemma HighByte(hi: nat)
    requires hi < 0x100
    ensures (hi * 0x100) % 0x1_0000 == hi * 0x100
  {
  }

  lemma DropLeading(v: nat, lead: bool, low: nat)
    requires low < 0x1000 && v == (if lead then 0x1000 else 0) + low
    ensures v % 0x1000 == low
  {
  }

  /** The two bytes of a 16-bit window, high byte first, make up its value. */
  lemma BytesWord(window: seq<bool>)
    requires |window| == 16
    ensures BitsValue(window) == BitsValue(window[..8]) * 0x100 + BitsValue(window[8..])
  {
    assert window == window[..8] + window[8..];
    BitsValueAppend(window[..8], window[8..]);
    assert Pow2(8) == 0x100;
  }

  /** Dropping the last three bits of a 16-bit window divides its value by eight. */
  lemma WordShift(window: seq<bool>)
    requires |window| == 16
    ensures BitsValue(window) / 8 == BitsValue(window[..13])
  {
    assert window == window[..13] + window[13..];
    BitsValueAppend(window[..13], window[13..]);
    assert Pow2(3) == 8;
    DivExact(BitsValue(window[..13]), BitsValue(window[13..]));
  }

  lemma DivExact(q: nat, r: nat)
    requires r < 8
    ensures (q * 8 + r) / 8 == q
  {
  }
}
