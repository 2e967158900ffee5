/**
 * The touch controller driver: the configuration fixed at construction, the
 * conversion read over either transport, touch detection, and the two-stage
 * noise filter (the mean of the samples of a measurement, then the median of
 * the measurements).
 *
 * The wires are a `Bus`; every raw reading the driver takes is also appended
 * to the ghost log `samples`, so that the filters can be specified in terms
 * of the readings they consumed.
 */
module Touch {
  import opened Bits
  import opened Serial
  import opened Filter

  /** The most measurements one filtered reading is built from. */
  const Measurements: nat := 10

  /** Samples per measurement until SetPrecision changes it. */
  const DefaultPrecision: uint8 := 3

  /** Conversion commands of the controller for the X and the Y channel. */
  const XCommand: uint8 := 0xD0
  const YCommand: uint8 := 0x90

  /** Converted display coordinates above this are implausible. */
  const CoordinateLimit: nat := 60000

  datatype Display = Tft28_103 | Tft24_104 | Tft28_105 | Tft35_107 | OtherDisplay

  datatype SpiMode = Hardware | Software | Auto

  datatype Pin = A0 | A1 | D2 | D4 | D8 | D9 | D10 | D11 | D12 | D13

  datatype Option<T> = None | Some(value: T)

  /** Six affine coefficients mapping sensor space to display space. */
  datatype CalibrationMatrix = CalibrationMatrix(a: real, b: real, c: real, d: real, e: real, f: real)

  /** One raw reading: the X and the Y conversion result. */
  datatype RawSample = RawSample(x: uint16, y: uint16)

  /** The displays wired through the adapter board with the 40-pin connector on top. */
  predicate AdapterBoard(disp: Display)
  {
    disp == Tft28_103 || disp == Tft24_104
  }

  /** Whether a raw reading lies strictly inside the converter's range on both axes. */
  predicate SampleInRange(s: RawSample)
  {
    0 < s.x < 4095 && 0 < s.y < 4095
  }

  /**
   * The conversion result the controller clocks out after a command whose
   * last pulse precedes pulse `start`: pulse `start` is the busy pulse, the
   * twelve following pulses carry the result, most significant bit first.
   */
  function Conversion(line: nat -> bool, start: nat): (value: uint16)
    ensures value <= 0xFFF
  {
    LineValue(line, start + 1, 12)
  }

  /**
   * The two bytes received over the 16 pulses that follow a command decode
   * to the same result that the bit-banged read samples on the same pulses.
   */
  lemma HardwareMatchesBitBang(line: nat -> bool, start: nat, hi: uint8, lo: uint8)
    requires hi == BitsValue(Window(line, start, 8)) && lo == BitsValue(Window(line, start + 8, 8))
    ensures ByteDecode(hi, lo) == Conversion(line, start)
  {
    var window := Window(line, start, 16);
    assert window[..8] == Window(line, start, 8);
    assert window[8..] == Window(line, start + 8, 8);
    assert window[1..13] == Window(line, start + 1, 12);
    ByteDecodeWindow(window);
    LineValueWindow(line, start + 1, 12);
  }

  /** Clock pulses one conversion read takes: three byte transfers, or a byte, a busy pulse and twelve bits. */
  function ReadPulses(hardwareSpi: bool): nat
  {
    if hardwareSpi then 24 else 21
  }

  /** The bytes one conversion read writes: the command, then two zero bytes to clock the result in. */
  function CommandBytes(command: uint8, hardwareSpi: bool): seq<uint8>
  {
    [command] + if hardwareSpi then [0, 0] else []
  }

  /** Clock pulses of `count` raw readings, each an X and a Y conversion read. */
  function PulsesOf(count: nat, hardwareSpi: bool): nat
  {
    if hardwareSpi then 48 * count else 42 * count
  }

  /** The bytes one raw reading writes: the X conversion, then the Y conversion. */
  function RawReadBytes(hardwareSpi: bool): seq<uint8>
  {
    CommandBytes(XCommand, hardwareSpi) + CommandBytes(YCommand, hardwareSpi)
  }

  /** The raw reading taken by a transaction that starts at pulse `start`. */
  function RawAt(line: nat -> bool, start: nat, hardwareSpi: bool): RawSample
  {
    RawSample(Conversion(line, start + 8), Conversion(line, start + ReadPulses(hardwareSpi) + 8))
  }

  function Xs(log: seq<RawSample>): (xs: seq<int>)
    ensures |xs| == |log| && forall k :: 0 <= k < |log| ==> xs[k] == log[k].x
  {
    seq(|log|, k requires 0 <= k < |log| => log[k].x)
  }

  function Ys(log: seq<RawSample>): (ys: seq<int>)
    ensures |ys| == |log| && forall k :: 0 <= k < |log| ==> ys[k] == log[k].y
  {
    seq(|log|, k requires 0 <= k < |log| => log[k].y)
  }

  /**
   * The plausibility clamp on a converted display coordinate: a value above
   * the limit, whether from a wild calibration or from wrap-around in the
   * conversion, is replaced by 0; any other value passes unchanged.
   */
  function ClampCoordinate(converted: uint16): (d: uint16)
    ensures d <= CoordinateLimit
    ensures d == converted || d == 0
    ensures converted <= CoordinateLimit ==> d == converted
  {
    if converted > CoordinateLimit then 0 else converted
  }

  /** Raw readings a measurement of `n` samples takes, counting the touch check that follows it. */
  function ReadsPerMeasurement(n: nat, noIrq: bool): nat
  {
    1 + n + if noIrq then 1 else 0
  }

  /** The `n` samples a measurement starting at log position `at` averages: the first reading is dropped. */
  ghost function Block(log: seq<RawSample>, at: nat, n: nat): seq<RawSample>
    requires at + 1 + n <= |log|
  {
    log[at + 1..at + 1 + n]
  }

  /** Reading `k` of `log` is the one the wire `line` carried after `k` readings' worth of pulses from `clock0`. */
  ghost predicate ReadingAt(line: nat -> bool, clock0: nat, hardwareSpi: bool, log: seq<RawSample>, k: nat)
  {
    k < |log| && log[k] == RawAt(line, clock0 + PulsesOf(k, hardwareSpi), hardwareSpi)
  }

  /**
   * The readings `log` are the ones the wire `line` carried, taken one after
   * the other from pulse `clock0` on, and they leave the clock at `clock`.
   */
  ghost predicate Logged(line: nat -> bool, clock0: nat, hardwareSpi: bool, log: seq<RawSample>, clock: nat)
  {
    clock == clock0 + PulsesOf(|log|, hardwareSpi) &&
    forall k :: 0 <= k < |log| ==> ReadingAt(line, clock0, hardwareSpi, log, k)
  }

  /** The reading taken where the log left the clock extends the log. */
  lemma LoggedStep(line: nat -> bool, clock0: nat, hardwareSpi: bool, log: seq<RawSample>, clock: nat, s: RawSample)
    requires Logged(line, clock0, hardwareSpi, log, clock)
    requires s == RawAt(line, clock, hardwareSpi)
    ensures Logged(line, clock0, hardwareSpi, log + [s], clock + PulsesOf(1, hardwareSpi))
  {
    var log1 := log + [s];
    forall k | 0 <= k < |log1|
      ensures ReadingAt(line, clock0, hardwareSpi, log1, k)
    {
      if k < |log| {
        assert ReadingAt(line, clock0, hardwareSpi, log, k);
      }
    }
  }

  /** Every logged reading is a 12-bit result on both axes. */
  lemma LoggedBounded(line: nat -> bool, clock0: nat, hardwareSpi: bool, log: seq<RawSample>, clock: nat)
    requires Logged(line, clock0, hardwareSpi, log, clock)
    ensures forall k :: 0 <= k < |log| ==> log[k].x <= 0xFFF && log[k].y <= 0xFFF
  {
    forall k | 0 <= k < |log|
      ensures log[k].x <= 0xFFF && log[k].y <= 0xFFF
    {
      assert ReadingAt(line, clock0, hardwareSpi, log, k);
    }
  }

  /**
   * The samples a measurement at log position `at` averages are the readings
   * the wire carried right after the dropped first one, in order.
   */
  lemma BlockOnWire(line: nat -> bool, clock0: nat, hardwareSpi: bool, log: seq<RawSample>, clock: nat, at: nat, n: nat)
    requires Logged(line, clock0, hardwareSpi, log, clock) && at + 1 + n <= |log|
    ensures forall q :: 0 <= q < n ==>
      Block(log, at, n)[q] == RawAt(line, clock0 + PulsesOf(at + 1 + q, hardwareSpi), hardwareSpi)
  {
    forall q | 0 <= q < n
      ensures Block(log, at, n)[q] == RawAt(line, clock0 + PulsesOf(at + 1 + q, hardwareSpi), hardwareSpi)
    {
      assert ReadingAt(line, clock0, hardwareSpi, log, at + 1 + q);
    }
  }

  /** A value cut to the 32 bits of an unsigned accumulator. */
  function Wrap32(v: nat): (r: uint32)
    ensures v < 0x1_0000_0000 ==> r == v
  {
    v % 0x1_0000_0000
  }

  /** One more reading summed into a 32-bit accumulator: the sum of at most 255 12-bit readings never wraps. */
  lemma AccumulateStep(before: seq<RawSample>, s: RawSample, after: seq<RawSample>, sumX: int, sumY: int)
    requires after == before + [s] && |after| <= 0xFF
    requires forall k :: 0 <= k < |after| ==> after[k].x <= 0xFFF && after[k].y <= 0xFFF
    requires sumX == Sum(Xs(before)) && sumY == Sum(Ys(before))
    ensures sumX + s.x == Sum(Xs(after)) < 0x1_0000_0000
    ensures sumY + s.y == Sum(Ys(after)) < 0x1_0000_0000
  {
    assert Xs(after)[..|after| - 1] == Xs(before);
    assert Ys(after)[..|after| - 1] == Ys(before);
    AccumulatorFits(Xs(after));
    AccumulatorFits(Ys(after));
  }

  /** A reading appended after the ones of a measurement in progress joins its block, and all of them are 12-bit. */
  lemma BlockBounded(log0: seq<RawSample>, first: RawSample, block: seq<RawSample>, s: RawSample, log1: seq<RawSample>)
    requires log1 == log0 + [first] + block + [s]
    requires forall k :: 0 <= k < |log1| ==> log1[k].x <= 0xFFF && log1[k].y <= 0xFFF
    ensures log1 == log0 + [first] + (block + [s])
    ensures forall k :: 0 <= k < |block| + 1 ==> (block + [s])[k].x <= 0xFFF && (block + [s])[k].y <= 0xFFF
  {
    forall k | 0 <= k < |block| + 1
      ensures (block + [s])[k] == log1[|log0| + 1 + k]
    {
    }
  }

  /** The accumulated sum divided by the sample count and cut to 16 bits is the mean of the samples. */
  lemma TruncatedMean(xs: seq<int>, sum: int, n: nat)
    requires 0 < n <= 0xFF && |xs| == n && sum == Sum(xs)
    requires forall k :: 0 <= k < |xs| ==> 0 <= xs[k] <= 0xFFF
    ensures (sum / n) % 0x1_0000 == Mean(xs)
  {
    MeanFits(xs);
    DivIsQuotient(sum, n);
  }

  /**
   * The measurement taken at log position `at` gave `ax` and `ay`: the means
   * of the block after the dropped first reading; without an interrupt line
   * the touch answer `t` is the range check of the reading that follows.
   */
  ghost predicate MeasuredAt(log: seq<RawSample>, at: nat, n: nat, ax: int, ay: int, t: bool, noIrq: bool)
  {
    n > 0 && at + 1 + n + (if noIrq then 1 else 0) <= |log| &&
    ax == Mean(Xs(Block(log, at, n))) && ay == Mean(Ys(Block(log, at, n))) &&
    (noIrq ==> t == SampleInRange(log[at + 1 + n]))
  }

  /** A measurement stays described by the log when the log grows at its end. */
  lemma MeasuredAtExtend(log0: seq<RawSample>, log1: seq<RawSample>, at: nat, n: nat, ax: int, ay: int, t: bool, noIrq: bool)
    requires MeasuredAt(log0, at, n, ax, ay, t, noIrq)
    requires |log0| <= |log1| && log1[..|log0|] == log0
    ensures MeasuredAt(log1, at, n, ax, ay, t, noIrq)
  {
    assert Block(log1, at, n) == Block(log0, at, n);
    if noIrq {
      assert log1[at + 1 + n] == log1[..|log0|][at + 1 + n];
    }
  }

  /** Measurement k of a median filter run was taken at log position `starts[k]`. */
  ghost predicate MeasurementsLogged(log: seq<RawSample>, starts: seq<nat>, n: nat,
                                     mx: seq<int>, my: seq<int>, touched: seq<bool>, noIrq: bool)
    decreases |starts|
  {
    |mx| == |starts| && |my| == |starts| && |touched| == |starts| &&
    (starts != [] ==>
      var j := |starts| - 1;
      MeasurementsLogged(log, starts[..j], n, mx[..j], my[..j], touched[..j], noIrq) &&
      MeasuredAt(log, starts[j], n, mx[j], my[j], touched[j], noIrq))
  }

  /** Each logged measurement is described by the log. */
  lemma {:induction false} LoggedAt(log: seq<RawSample>, starts: seq<nat>, n: nat,
                                    mx: seq<int>, my: seq<int>, touched: seq<bool>, noIrq: bool, k: nat)
    requires MeasurementsLogged(log, starts, n, mx, my, touched, noIrq) && k < |starts|
    ensures MeasuredAt(log, starts[k], n, mx[k], my[k], touched[k], noIrq)
    decreases |starts|
  {
    var j := |starts| - 1;
    if k < j {
      LoggedAt(log, starts[..j], n, mx[..j], my[..j], touched[..j], noIrq, k);
    }
  }

  /** Logged measurements stay described by the log when the log grows at its end. */
  lemma {:induction false} LoggedExtend(log0: seq<RawSample>, log1: seq<RawSample>, starts: seq<nat>, n: nat,
                                        mx: seq<int>, my: seq<int>, touched: seq<bool>, noIrq: bool)
    requires MeasurementsLogged(log0, starts, n, mx, my, touched, noIrq)
    requires |log0| <= |log1| && log1[..|log0|] == log0
    ensures MeasurementsLogged(log1, starts, n, mx, my, touched, noIrq)
    decreases |starts|
  {
    if starts != [] {
      var j := |starts| - 1;
      LoggedExtend(log0, log1, starts[..j], n, mx[..j], my[..j], touched[..j], noIrq);
      MeasuredAtExtend(log0, log1, starts[j], n, mx[j], my[j], touched[j], noIrq);
    }
  }

  /** Appending a measurement taken at the end of the log keeps the earlier ones described. */
  lemma MeasurementStep(log0: seq<RawSample>, log1: seq<RawSample>, starts: seq<nat>, n: nat,
                        mx: seq<int>, my: seq<int>, touched: seq<bool>, ax: int, ay: int, t: bool, noIrq: bool)
    requires MeasurementsLogged(log0, starts, n, mx, my, touched, noIrq)
    requires |log0| <= |log1| && log1[..|log0|] == log0
    requires MeasuredAt(log1, |log0|, n, ax, ay, t, noIrq)
    ensures MeasurementsLogged(log1, starts + [|log0|], n, mx + [ax], my + [ay], touched + [t], noIrq)
  {
    LoggedExtend(log0, log1, starts, n, mx, my, touched, noIrq);
    var j := |starts|;
    assert (starts + [|log0|])[..j] == starts && (mx + [ax])[..j] == mx;
    assert (my + [ay])[..j] == my && (touched + [t])[..j] == touched;
  }

  /** The touch answers read off the interrupt line from its reading `from` on: low means touched. */
  ghost predicate PolledAnswers(touched: seq<bool>, penIrq: nat -> bool, from: nat)
  {
    forall k :: 0 <= k < |touched| ==> touched[k] == !penIrq(from + k)
  }

  /**
   * The interrupt line, when there is one, was read once per answer from its
   * reading `from` up to `polls`, each answer being the inverted level;
   * without one it was not read at all.
   */
  ghost predicate Polled(touched: seq<bool>, penIrq: nat -> bool, from: nat, polls: nat, wired: bool)
  {
    if wired then polls == from + |touched| && PolledAnswers(touched, penIrq, from) else polls == from
  }

  /** One more touch answer, read off the line when there is one, extends the answers. */
  lemma PolledStep(touched: seq<bool>, penIrq: nat -> bool, from: nat, polls: nat, wired: bool, t: bool)
    requires Polled(touched, penIrq, from, polls, wired)
    requires wired ==> t == !penIrq(polls)
    ensures Polled(touched + [t], penIrq, from, polls + (if wired then 1 else 0), wired)
  {
  }

  /** Measurements start at `base` and follow each other every `per` readings. */
  ghost predicate Consecutive(starts: seq<nat>, base: nat, per: nat)
  {
    (starts != [] ==> starts[0] == base) &&
    forall k :: 0 <= k < |starts| - 1 ==> starts[k + 1] == starts[k] + per
  }

  /** The readings of one averaging followed by one touch check describe the measurement taken. */
  lemma MeasurementTaken(log0: seq<RawSample>, mid: seq<RawSample>, log1: seq<RawSample>, n: nat,
                         ax: int, ay: int, t: bool, noIrq: bool)
    requires n > 0 && |mid| == |log0| + 1 + n && mid[..|log0|] == log0
    requires ax == Mean(Xs(Block(mid, |log0|, n))) && ay == Mean(Ys(Block(mid, |log0|, n)))
    requires |log1| == |mid| + (if noIrq then 1 else 0) && log1[..|mid|] == mid
    requires noIrq ==> t == SampleInRange(log1[|mid|])
    ensures |log0| <= |log1| && log1[..|log0|] == log0
    ensures MeasuredAt(log1, |log0|, n, ax, ay, t, noIrq)
  {
    assert Block(log1, |log0|, n) == Block(mid, |log0|, n);
  }

  /**
   * A median filter run that began at log position `base` has taken the
   * measurements `mx`, `my` with touch answers `touched`, one after the
   * other, every `per` readings, and the log ends with the last of them.
   */
  ghost predicate RunSoFar(log: seq<RawSample>, base: nat, n: nat, per: nat, noIrq: bool,
                           starts: seq<nat>, mx: seq<int>, my: seq<int>, touched: seq<bool>)
  {
    base <= |log| &&
    MeasurementsLogged(log, starts, n, mx, my, touched, noIrq) &&
    Consecutive(starts, base, per) &&
    |log| == (if starts == [] then base else starts[|starts| - 1] + per)
  }

  /**
   * Where the measuring loop stands: the log still starts with `prefix`, the
   * readings taken before the loop; the measurements and touch answers so
   * far form a run laid end to end from there; and the interrupt line, when
   * there is one, was read once per answer from its reading `polls0` on.
   */
  ghost predicate Progress(log: seq<RawSample>, prefix: seq<RawSample>, n: nat, noIrq: bool,
                           starts: seq<nat>, mx: seq<int>, my: seq<int>, touched: seq<bool>,
                           penIrq: nat -> bool, polls0: nat, polls: nat)
  {
    |prefix| <= |log| && log[..|prefix|] == prefix &&
    RunSoFar(log, |prefix|, n, ReadsPerMeasurement(n, noIrq), noIrq, starts, mx, my, touched) &&
    Polled(touched, penIrq, polls0, polls, !noIrq)
  }

  /**
   * One more measurement at the end of the log (`mid`), then one more touch
   * answer (a reading appended to the log, or a reading of the interrupt
   * line), continues the loop's progress.
   */
  lemma ProgressStep(log0: seq<RawSample>, mid: seq<RawSample>, log1: seq<RawSample>, prefix: seq<RawSample>,
                     n: nat, noIrq: bool, starts: seq<nat>, mx: seq<int>, my: seq<int>, touched: seq<bool>,
                     penIrq: nat -> bool, polls0: nat, polls: nat, ax: int, ay: int, t: bool)
    requires Progress(log0, prefix, n, noIrq, starts, mx, my, touched, penIrq, polls0, polls)
    requires n > 0 && |mid| == |log0| + 1 + n && mid[..|log0|] == log0
    requires ax == Mean(Xs(Block(mid, |log0|, n))) && ay == Mean(Ys(Block(mid, |log0|, n)))
    requires |log1| == |mid| + (if noIrq then 1 else 0) && log1[..|mid|] == mid
    requires noIrq ==> t == SampleInRange(log1[|mid|])
    requires !noIrq ==> t == !penIrq(polls)
    ensures Progress(log1, prefix, n, noIrq, starts + [|log0|], mx + [ax], my + [ay], touched + [t],
                     penIrq, polls0, polls + if noIrq then 0 else 1)
  {
    MeasurementTaken(log0, mid, log1, n, ax, ay, t, noIrq);
    MeasurementStep(log0, log1, starts, n, mx, my, touched, ax, ay, t, noIrq);
    PolledStep(touched, penIrq, polls0, polls, !noIrq, t);
    assert log1[..|prefix|] == log1[..|log0|][..|prefix|];
  }

  /** Every touch answer but the last one is touched. */
  ghost predicate TouchedUntilLast(touched: seq<bool>)
  {
    forall k :: 0 <= k < |touched| - 1 ==> touched[k]
  }

  /** An answer following a touched one keeps every answer but the last touched. */
  lemma TouchedStep(touched: seq<bool>, t: bool)
    requires TouchedUntilLast(touched) && (touched != [] ==> touched[|touched| - 1])
    ensures TouchedUntilLast(touched + [t])
  {
    forall k | 0 <= k < |touched|
      ensures (touched + [t])[k]
    {
    }
  }

  class DmTouch {
    const bus: Bus
    const cs: Pin
    const irq: Option<Pin>
    const clk: Pin
    const mosi: Pin
    const miso: Pin
    const hardwareSpi: bool
    var samplesPerMeasurement: uint8
    var calibrationMatrix: Option<CalibrationMatrix>
    /** Every raw reading taken so far, in order. */
    ghost var samples: seq<RawSample>
    /** The clock pulse count when this driver was created. */
    ghost const clockBefore: nat

    /**
     * Between raw readings the bus has been clocked exactly for the readings
     * logged, and each of them is the reading data-in carried at its place.
     */
    ghost predicate Valid()
      reads this`samples, bus
    {
      Logged(bus.miso, clockBefore, hardwareSpi, samples, bus.clock)
    }

    /**
     * Picks the pins of the display's preset, lets an explicit transport mode
     * override the preset's, drops the interrupt line when it is not to be
     * used, and starts with three samples per measurement.
     */
    constructor (disp: Display, spiMode: SpiMode, useIrq: bool, bus: Bus)
      ensures this.bus == bus
      ensures AdapterBoard(disp) ==> cs == D8 && clk == A1 && mosi == A0 && miso == D9
      ensures !AdapterBoard(disp) ==> cs == D4 && clk == D13 && mosi == D11 && miso == D12
      ensures !useIrq ==> irq == None
      ensures useIrq ==> irq == Some(if AdapterBoard(disp) then D10 else D2)
      ensures spiMode == Hardware ==> hardwareSpi
      ensures spiMode == Software ==> !hardwareSpi
      ensures spiMode == Auto ==> (hardwareSpi <==> !AdapterBoard(disp))
      ensures samplesPerMeasurement == DefaultPrecision
      ensures calibrationMatrix == None
      ensures samples == [] && clockBefore == bus.clock && Valid()
    {
      this.bus := bus;
      clockBefore := bus.clock;
      var presetIrq: Pin;
      var presetHardware: bool;
      match disp {
        case Tft28_103 | Tft24_104 =>
          cs, presetIrq, clk, mosi, miso := D8, D10, A1, A0, D9;
          presetHardware := false;
        case Tft28_105 =>
          cs, presetIrq, clk, mosi, miso := D4, D2, D13, D11, D12;
          presetHardware := true;
        case Tft35_107 | OtherDisplay =>
          cs, presetIrq, clk, mosi, miso := D4, D2, D13, D11, D12;
          presetHardware := true;
      }
      if spiMode == Hardware {
        hardwareSpi := true;
      } else if spiMode == Software {
        hardwareSpi := false;
      } else {
        hardwareSpi := presetHardware;
      }
      irq := if useIrq then Some(presetIrq) else None;
      samplesPerMeasurement := DefaultPrecision;
      calibrationMatrix := None;
      samples := [];
    }

    method SetPrecision(samplesPerMeasurement: uint8)
      modifies this`samplesPerMeasurement
      ensures this.samplesPerMeasurement == samplesPerMeasurement
    {
      this.samplesPerMeasurement := samplesPerMeasurement;
    }

    method SetCalibrationMatrix(calibrationMatrix: CalibrationMatrix)
      modifies this`calibrationMatrix
      ensures this.calibrationMatrix == Some(calibrationMatrix)
    {
      this.calibrationMatrix := Some(calibrationMatrix);
    }

    /**
     * Sends one byte, most significant bit first: through the hardware
     * transfer, or bit by bit by the software loop; both drive the same
     * eight bits.
     */
    method SpiWrite(data: uint8)
      modifies bus
      ensures bus.sent == old(bus.sent) + [data]
      ensures bus.clock == old(bus.clock) + 8 && bus.polls == old(bus.polls)
    {
      if hardwareSpi {
        BitsOfRoundTrip(data, 8);
        var ignored := bus.Transfer(BitsOf(data, 8));
      } else {
        var line := ShiftOut(data);
        var ignored := bus.Transfer(line);
      }
    }

    /**
     * Receives one byte, most significant bit first, while data-out is held
     * low: a hardware exchange of a zero byte, or the software loop that
     * pulses the clock and shifts in the sampled level.
     */
    method SpiRead() returns (data: uint8)
      modifies bus
      ensures data == BitsValue(Window(bus.miso, old(bus.clock), 8))
      ensures bus.sent == old(bus.sent) + [0]
      ensures bus.clock == old(bus.clock) + 8 && bus.polls == old(bus.polls)
    {
      BitsOfRoundTrip(0, 8);
      var received := bus.Transfer(BitsOf(0, 8));
      if hardwareSpi {
        assert Pow2(8) == 0x100;
        data := BitsValue(received);
      } else {
        data := ShiftIn(received);
      }
    }

    /**
     * Sends a conversion command and reads the 12-bit result: from two
     * received bytes by the byte decode, or by clocking one busy pulse and
     * then twelve sampled pulses. Both transports yield the same result.
     */
    method ReadData12(command: uint8) returns (value: uint16)
      modifies bus
      ensures value == Conversion(bus.miso, old(bus.clock) + 8)
      ensures bus.clock == old(bus.clock) + ReadPulses(hardwareSpi)
      ensures bus.sent == old(bus.sent) + CommandBytes(command, hardwareSpi)
      ensures bus.polls == old(bus.polls)
    {
      SpiWrite(command);
      if hardwareSpi {
        ghost var start := bus.clock;
        var hi := SpiRead();
        var lo := SpiRead();
        value := ByteDecode(hi, lo);
        HardwareMatchesBitBang(bus.miso, start, hi, lo);
      } else {
        var busy := bus.Clock(1);
        var line := bus.Clock(12);
        value := ReadBits12(line);
        LineValueWindow(bus.miso, old(bus.clock) + 9, 12);
      }
    }

    /**
     * One raw reading: the X conversion, then the Y conversion, in one
     * transaction; it joins the log as the reading the wire carried there.
     */
    method ReadRawData() returns (x: uint16, y: uint16)
      requires Valid()
      modifies this`samples, bus
      ensures RawSample(x, y) == RawAt(bus.miso, old(bus.clock), hardwareSpi)
      ensures samples == old(samples) + [RawSample(x, y)] && Valid()
      ensures bus.clock == old(bus.clock) + PulsesOf(1, hardwareSpi)
      ensures bus.sent == old(bus.sent) + RawReadBytes(hardwareSpi)
      ensures bus.polls == old(bus.polls)
    {
      x := ReadData12(XCommand);
      y := ReadData12(YCommand);
      LoggedStep(bus.miso, clockBefore, hardwareSpi, samples, old(bus.clock), RawSample(x, y));
      samples := samples + [RawSample(x, y)];
    }

    /** Takes a raw reading and tells whether both axes are strictly inside (0, 4095). */
    method IsSampleValid() returns (valid: bool)
      requires Valid()
      modifies this`samples, bus
      ensures samples == old(samples) + [RawAt(bus.miso, old(bus.clock), hardwareSpi)] && Valid()
      ensures valid <==> 0 < samples[|samples| - 1].x < 4095 && 0 < samples[|samples| - 1].y < 4095
      ensures bus.polls == old(bus.polls)
    {
      var x, y := ReadRawData();
      valid := x > 0 && x < 4095 && y > 0 && y < 4095;
    }

    /**
     * Touch detection: without an interrupt line, a raw reading in range
     * means touched; with one, a low level on the line means touched.
     */
    method IsTouched() returns (touched: bool)
      requires Valid()
      modifies this`samples, bus
      ensures Valid()
      ensures irq.None? ==>
        samples == old(samples) + [RawAt(bus.miso, old(bus.clock), hardwareSpi)] &&
        touched == SampleInRange(samples[|samples| - 1]) &&
        bus.polls == old(bus.polls)
      ensures irq.Some? ==>
        samples == old(samples) && touched == !bus.penIrq(old(bus.polls)) &&
        bus.polls == old(bus.polls) + 1
    {
      if irq.None? {
        touched := IsSampleValid();
      } else {
        var high := bus.ReadIrq();
        touched := !high;
      }
    }

    /**
     * One measurement: a first raw reading that is dropped, then
     * `samplesPerMeasurement` readings summed in 32-bit accumulators and
     * divided by their number. The accumulators never wrap, so each result
     * is the exact integer mean of the readings and lies between the
     * smallest and the largest of them.
     */
    method GetAverageXY() returns (x: uint16, y: uint16)
      requires Valid() && samplesPerMeasurement > 0
      modifies this`samples, bus
      ensures Valid()
      ensures |samples| == |old(samples)| + 1 + samplesPerMeasurement
      ensures samples[..|old(samples)|] == old(samples)
      ensures x == Mean(Xs(Block(samples, |old(samples)|, samplesPerMeasurement as nat)))
      ensures y == Mean(Ys(Block(samples, |old(samples)|, samplesPerMeasurement as nat)))
      ensures bus.polls == old(bus.polls)
    {
      var n := samplesPerMeasurement;
      var sumX: uint32 := 0;
      var sumY: uint32 := 0;
      var sampleX, sampleY := ReadRawData();
      ghost var first := RawSample(sampleX, sampleY);
      ghost var block: seq<RawSample> := [];
      var i: int := 0;
      while i < n
        invariant 0 <= i <= n && |block| == i as int
        invariant Valid() && samples == old(samples) + [first] + block
        invariant forall k :: 0 <= k < |block| ==> block[k].x <= 0xFFF && block[k].y <= 0xFFF
        invariant sumX == Sum(Xs(block)) && sumY == Sum(Ys(block))
        invariant bus.polls == old(bus.polls)
      {
        sampleX, sampleY := ReadRawData();
        ghost var s := RawSample(sampleX, sampleY);
        LoggedBounded(bus.miso, clockBefore, hardwareSpi, samples, bus.clock);
        BlockBounded(old(samples), first, block, s, samples);
        AccumulateStep(block, s, block + [s], sumX, sumY);
        sumX := Wrap32(sumX + sampleX);
        sumY := Wrap32(sumY + sampleY);
        block := block + [s];
        i := i + 1;
      }
      assert block == Block(samples, |old(samples)|, n as nat);
      x := (sumX / n as int) % 0x1_0000;
      y := (sumY / n as int) % 0x1_0000;
      TruncatedMean(Xs(block), sumX, n as nat);
      TruncatedMean(Ys(block), sumY, n as nat);
    }

    /**
     * The measuring loop of the median filter: up to ten measurements into
     * `valuesX` and `valuesY`, stopping right after the first one that is
     * followed by a not-touched answer. Measurement k starts at log position
     * `starts[k]`; `haveAll` tells whether touch lasted through all ten.
     */
    method Measure(valuesX: array<uint16>, valuesY: array<uint16>)
      returns (count: uint8, haveAll: bool,
               ghost mx: seq<int>, ghost my: seq<int>, ghost touched: seq<bool>, ghost starts: seq<nat>)
      requires Valid() && samplesPerMeasurement > 0
      requires valuesX.Length == Measurements && valuesY.Length == Measurements && valuesX != valuesY
      modifies this`samples, bus, valuesX, valuesY
      ensures Valid()
      ensures 1 <= count as int <= Measurements && |touched| == count as int
      ensures valuesX[..count] == mx && valuesY[..count] == my
      ensures forall k :: 0 <= k < |touched| - 1 ==> touched[k]
      ensures |touched| < Measurements ==> !touched[|touched| - 1]
      ensures haveAll == touched[|touched| - 1]
      ensures Progress(samples, old(samples), samplesPerMeasurement as nat, irq.None?,
                       starts, mx, my, touched, bus.penIrq, old(bus.polls), bus.polls)
    {
      haveAll := true;
      count := 0;
      mx, my, touched, starts := [], [], [], [];
      var i := 0;
      while i < Measurements && haveAll
        invariant 0 <= i <= Measurements && count as int == i && |touched| == i && |mx| == i && |my| == i
        invariant TouchedUntilLast(touched)
        invariant haveAll == (i == 0 || touched[i - 1])
        invariant valuesX[..i] == mx && valuesY[..i] == my
        invariant Valid()
        invariant Progress(samples, old(samples), samplesPerMeasurement as nat, irq.None?,
                           starts, mx, my, touched, bus.penIrq, old(bus.polls), bus.polls)
      {
        ghost var ax, ay, start;
        haveAll, ax, ay, start := MeasureStep(valuesX, valuesY, i, old(samples), old(bus.polls), starts, mx, my, touched);
        count := count + 1;
        TouchedStep(touched, haveAll);
        mx, my, touched, starts := mx + [ax], my + [ay], touched + [haveAll], starts + [start];
        i := i + 1;
      }
    }

    /**
     * One pass of the measuring loop: measurement number `i` into
     * `valuesX[i]` and `valuesY[i]`, then the touch check.
     */
    method MeasureStep(valuesX: array<uint16>, valuesY: array<uint16>, i: nat,
                       ghost prefix: seq<RawSample>, ghost polls0: nat,
                       ghost starts: seq<nat>, ghost mx: seq<int>, ghost my: seq<int>, ghost touched: seq<bool>)
      returns (t: bool, ghost ax: int, ghost ay: int, ghost start: nat)
      requires Valid() && samplesPerMeasurement > 0
      requires valuesX.Length == Measurements && valuesY.Length == Measurements && valuesX != valuesY
      requires i < Measurements && |mx| == i && |my| == i
      requires valuesX[..i] == mx && valuesY[..i] == my
      requires Progress(samples, prefix, samplesPerMeasurement as nat, irq.None?,
                        starts, mx, my, touched, bus.penIrq, polls0, bus.polls)
      modifies this`samples, bus, valuesX, valuesY
      ensures Valid()
      ensures valuesX[..i + 1] == mx + [ax] && valuesY[..i + 1] == my + [ay]
      ensures Progress(samples, prefix, samplesPerMeasurement as nat, irq.None?,
                       starts + [start], mx + [ax], my + [ay], touched + [t], bus.penIrq, polls0, bus.polls)
    {
      ghost var log0 := samples;
      var x, y := GetAverageXY();
      ghost var mid := samples;
      valuesX[i], valuesY[i] := x, y;
      t := IsTouched();
      ax, ay, start := x, y, |log0|;
      assert valuesX[..i + 1] == valuesX[..i] + [ax] && valuesY[..i + 1] == valuesY[..i] + [ay];
      ProgressStep(log0, mid, samples, prefix, samplesPerMeasurement as nat, irq.None?, starts, mx, my, touched,
                   bus.penIrq, polls0, old(bus.polls), ax, ay, t);
    }

    /**
     * The median filter: the measuring loop, then each axis is the median
     * of its measurements.
     */
    method GetMiddleXY() returns (x: uint16, y: uint16, haveAll: bool,
                                  ghost mx: seq<int>, ghost my: seq<int>, ghost touched: seq<bool>,
                                  ghost starts: seq<nat>)
      requires Valid() && samplesPerMeasurement > 0
      modifies this`samples, bus
      ensures Valid()
      ensures 1 <= |touched| <= Measurements && |mx| == |touched| && |my| == |touched|
      ensures forall k :: 0 <= k < |touched| - 1 ==> touched[k]
      ensures |touched| < Measurements ==> !touched[|touched| - 1]
      ensures haveAll == touched[|touched| - 1]
      ensures x == Median(mx) && y == Median(my)
      ensures Progress(samples, old(samples), samplesPerMeasurement as nat, irq.None?,
                       starts, mx, my, touched, bus.penIrq, old(bus.polls), bus.polls)
    {
      var valuesX := new uint16[Measurements];
      var valuesY := new uint16[Measurements];
      var count: uint8;
      count, haveAll, mx, my, touched, starts := Measure(valuesX, valuesY);
      x := CalculateMiddleValue(valuesX, count);
      y := CalculateMiddleValue(valuesY, count);
    }
  }
}
