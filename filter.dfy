/**
 * The two noise filters of the touch pipeline: the integer mean of the
 * samples of one measurement, and the median of the measurements of one
 * reading, computed by sorting the values in place.
 */
module Filter {
  import opened Bits

  function Sum(xs: seq<int>): int
  {
    if xs == [] then 0 else Sum(xs[..|xs| - 1]) + xs[|xs| - 1]
  }

  function Min(xs: seq<int>): int
    requires xs != []
  {
    if |xs| == 1 then xs[0]
    else
      var m := Min(xs[..|xs| - 1]);
      if xs[|xs| - 1] < m then xs[|xs| - 1] else m
  }

  function Max(xs: seq<int>): int
    requires xs != []
  {
    if |xs| == 1 then xs[0]
    else
      var m := Max(xs[..|xs| - 1]);
      if xs[|xs| - 1] > m then xs[|xs| - 1] else m
  }

  /** Min and Max are the smallest and the largest element. */
  lemma {:induction false} MinMaxAreExtremes(xs: seq<int>)
    requires xs != []
    ensures Min(xs) in xs && Max(xs) in xs
    ensures forall k :: 0 <= k < |xs| ==> Min(xs) <= xs[k] <= Max(xs)
  {
    if |xs| > 1 {
      var front := xs[..|xs| - 1];
      MinMaxAreExtremes(front);
      assert forall k :: 0 <= k < |xs| - 1 ==> xs[k] == front[k];
    }
  }

  /** A sum of n values lies between n times the smallest and n times the largest. */
  lemma {:induction false} SumBetween(xs: seq<int>)
    requires xs != []
    ensures |xs| * Min(xs) <= Sum(xs) <= |xs| * Max(xs)
  {
    if |xs| > 1 {
      var front := xs[..|xs| - 1];
      SumBetween(front);
      SumStep(|front|, Sum(front), Min(front), Max(front), Min(xs), Max(xs), xs[|xs| - 1]);
    }
  }

  lemma SumStep(n: nat, s: int, lo: int, hi: int, lo': int, hi': int, last: int)
    requires n * lo <= s <= n * hi
    requires lo' <= lo && lo' <= last && hi <= hi' && last <= hi'
    ensures (n + 1) * lo' <= s + last <= (n + 1) * hi'
  {
    MulMonotonic(n, lo', lo);
    MulMonotonic(n, hi, hi');
    AddFactor(n, 1, lo');
    AddFactor(n, 1, hi');
  }

  lemma MulMonotonic(n: nat, a: int, b: int)
    requires a <= b
    ensures n * a <= n * b
  {
  }

  /** The integer mean of a non-empty sequence lies between its smallest and its largest value. */
  lemma MeanBetween(xs: seq<int>)
    requires xs != []
    ensures Min(xs) <= Div(Sum(xs), |xs|) <= Max(xs)
  {
    SumBetween(xs);
    DivIsQuotient(Sum(xs), |xs|);
    DivBetween(Sum(xs), |xs|, Min(xs), Max(xs));
  }

  /**
   * Integer division by repeated subtraction, rounding toward negative
   * infinity like `/`; DivIsQuotient shows the two agree. The mean is
   * specified with it so that proofs about sums and means stay linear.
   */
  function Div(a: int, b: nat): int
    requires b > 0
    decreases if a < 0 then 1 else 0, if a < 0 then -a else a
  {
    if a < 0 then Div(a + b, b) - 1
    else if a < b then 0
    else 1 + Div(a - b, b)
  }

  /** `Div` leaves a remainder between 0 and the divisor. */
  lemma {:induction false} DivBounds(a: int, b: nat)
    requires b > 0
    ensures b * Div(a, b) <= a < b * Div(a, b) + b
    decreases if a < 0 then 1 else 0, if a < 0 then -a else a
  {
    if a < 0 {
      DivBounds(a + b, b);
      MulSucc(b, Div(a, b));
    } else if a >= b {
      DivBounds(a - b, b);
      MulSucc(b, Div(a - b, b));
    }
  }

  /** `Div` is Dafny's own integer division, which for a positive divisor rounds down. */
  lemma DivIsQuotient(a: int, b: nat)
    requires b > 0
    ensures Div(a, b) == a / b
  {
    DivBounds(a, b);
    UniqueQuotient(b, Div(a, b), a - b * Div(a, b), a / b, a % b);
  }

  lemma MulSucc(b: int, d: int)
    ensures b * (d + 1) == b * d + b
  {
  }

  lemma UniqueQuotient(b: nat, q1: int, r1: int, q2: int, r2: int)
    requires b > 0 && 0 <= r1 < b && 0 <= r2 < b && b * q1 + r1 == b * q2 + r2
    ensures q1 == q2
  {
    if q1 < q2 {
      MulMonotonic(b, q1 + 1, q2);
      MulSucc(b, q1);
    } else if q2 < q1 {
      MulMonotonic(b, q2 + 1, q1);
      MulSucc(b, q2);
    }
  }

  /** The integer mean of a non-empty sequence: its sum divided by its length, rounded down. */
  function Mean(xs: seq<int>): (m: int)
    requires xs != []
    ensures Min(xs) <= m <= Max(xs)
  {
    MeanBetween(xs);
    Div(Sum(xs), |xs|)
  }

  /** The mean of at most 255 12-bit values is itself a 12-bit value. */
  lemma MeanFits(xs: seq<int>)
    requires 0 < |xs| <= 0xFF
    requires forall k :: 0 <= k < |xs| ==> 0 <= xs[k] <= 0xFFF
    ensures 0 <= Mean(xs) <= 0xFFF
  {
    AccumulatorFits(xs);
    DivIsQuotient(Sum(xs), |xs|);
    DivBetween(Sum(xs), |xs|, 0, 0xFFF);
  }

  lemma DivBetween(s: int, n: int, lo: int, hi: int)
    requires n > 0 && n * lo <= s <= n * hi
    ensures lo <= s / n <= hi
  {
    var q := s / n;
    assert s == n * q + s % n;
    if q < lo {
      MulMonotonic(n, q + 1, lo);
      assert false;
    }
    if q > hi {
      MulMonotonic(n, hi + 1, q);
      assert false;
    }
  }

  /**
   * At most 255 samples of at most 4095 add up to less than 2^32: a 32-bit
   * accumulator never wraps while one measurement is averaged.
   */
  lemma {:induction false} AccumulatorFits(xs: seq<int>)
    requires |xs| <= 0xFF
    requires forall k :: 0 <= k < |xs| ==> 0 <= xs[k] <= 0xFFF
    ensures 0 <= Sum(xs) <= |xs| * 0xFFF < 0x1_0000_0000
  {
    if xs != [] {
      var front := xs[..|xs| - 1];
      assert forall k :: 0 <= k < |front| ==> front[k] == xs[k];
      AccumulatorFits(front);
    }
  }

  predicate Sorted(s: seq<int>)
  {
    forall i, j :: 0 <= i < j < |s| ==> s[i] <= s[j]
  }

  /** Insertion of `x` into a sorted sequence. */
  function Insert(x: int, s: seq<int>): (r: seq<int>)
    requires Sorted(s)
    ensures Sorted(r)
    ensures multiset(r) == multiset(s) + multiset{x}
    ensures r[0] == if s == [] || x <= s[0] then x else s[0]
  {
    if s == [] || x <= s[0] then
      ConsSorted(x, s);
      [x] + s
    else
      assert s == [s[0]] + s[1..];
      var t := Insert(x, s[1..]);
      ConsSorted(s[0], t);
      [s[0]] + t
  }

  /** A value no larger than the head of a sorted sequence can be put in front of it. */
  lemma ConsSorted(h: int, t: seq<int>)
    requires Sorted(t) && (t == [] || h <= t[0])
    ensures Sorted([h] + t)
  {
  }

  /** Insertion sort: the reference ordering that the in-place exchange sort is held to. */
  function Sort(s: seq<int>): (r: seq<int>)
    ensures Sorted(r)
    ensures multiset(r) == multiset(s)
  {
    if s == [] then []
    else
      assert s == [s[0]] + s[1..];
      Insert(s[0], Sort(s[1..]))
  }

  /** Two sorted sequences holding the same values are the same sequence. */
  lemma {:induction false} SortedUnique(a: seq<int>, b: seq<int>)
    requires Sorted(a) && Sorted(b)
    requires multiset(a) == multiset(b)
    ensures a == b
  {
    assert |a| == |multiset(a)| == |multiset(b)| == |b|;
    if a != [] {
      assert a[0] in multiset(b);
      assert b[0] in multiset(a);
      assert a[0] == b[0];
      assert a == [a[0]] + a[1..];
      assert b == [b[0]] + b[1..];
      assert multiset(a[1..]) == multiset(a) - multiset{a[0]};
      assert multiset(b[1..]) == multiset(b) - multiset{b[0]};
      SortedUnique(a[1..], b[1..]);
    }
  }

  /**
   * The middle of a sorted run: the middle element for an odd length, the
   * mean of the two middle elements rounded down for an even one.
   */
  function MiddleOf(t: seq<int>): (m: int)
    requires t != []
    ensures Sorted(t) ==> t[0] <= m <= t[|t| - 1]
  {
    if |t| % 2 == 0 then (t[|t| / 2] + t[|t| / 2 - 1]) / 2 else t[|t| / 2]
  }

  /** The median of a non-empty sequence. */
  function Median(s: seq<int>): int
    requires s != []
  {
    assert |Sort(s)| == |multiset(s)| == |s|;
    MiddleOf(Sort(s))
  }

  /** The median lies between the smallest and the largest value; for an odd count it is one of them. */
  lemma MedianBetween(s: seq<int>)
    requires s != []
    ensures Min(s) <= Median(s) <= Max(s)
    ensures |s| % 2 == 1 ==> Median(s) in s
  {
    var t := Sort(s);
    assert |t| == |multiset(s)| == |s|;
    MinMaxAreExtremes(s);
    forall i | 0 <= i < |t|
      ensures t[i] in s && Min(s) <= t[i] <= Max(s)
    {
      assert t[i] in multiset(t);
    }
    var n := |t|;
    if n % 2 == 0 {
      assert Min(s) <= t[n / 2 - 1] && t[n / 2] <= Max(s);
    }
  }

  /** The median depends only on which values there are, not on their order. */
  lemma MedianOfPermutation(s: seq<int>, s': seq<int>)
    requires s != [] && multiset(s) == multiset(s')
    ensures s' != [] && Median(s) == Median(s')
  {
    assert |s| == |multiset(s)| == |multiset(s')| == |s'|;
    SortedUnique(Sort(s), Sort(s'));
  }

  /** Each of the first `i` positions holds a value no larger than any value after it. */
  ghost predicate SettledBefore(s: seq<int>, i: nat)
  {
    forall p, q :: 0 <= p < q < |s| && p < i ==> s[p] <= s[q]
  }

  /** A sorted rearrangement of `input` is its sorted order, and its middle is the median of `input`. */
  lemma SortedIsSort(t: seq<int>, input: seq<int>)
    requires t != [] && SettledBefore(t, |t| - 1) && multiset(t) == multiset(input)
    ensures Sorted(t) && t == Sort(input) && input != [] && MiddleOf(t) == Median(input)
  {
    assert |input| == |multiset(input)| == |t|;
    SortedUnique(t, Sort(input));
  }

  /**
   * Median of the first `count` values: sorts them in place with a nested
   * exchange loop, then picks the middle element, or the mean of the two
   * middle elements truncated to an integer.
   */
  method CalculateMiddleValue(values: array<uint16>, count: uint8) returns (middle: uint16)
    requires 1 <= count <= values.Length
    modifies values
    ensures values[..count] == Sort(old(values[..count]))
    ensures values[count..] == old(values[count..])
    ensures middle == Median(old(values[..count]))
  {
    var n := count as int;
    ghost var input := values[..n];
    var i := 0;
    while i < n - 1
      invariant 0 <= i <= n - 1
      invariant SettledBefore(values[..n], i)
      invariant multiset(values[..n]) == multiset(input)
      invariant values[n..] == old(values[n..])
    {
      ExchangePass(values, i, n);
      i := i + 1;
    }
    SortedIsSort(values[..n], input);
    middle := MiddleOf(values[..n]);
  }

  /** Position `i` holds a value no larger than any of positions `i + 1` to `j - 1`. */
  ghost predicate HeadSmallest(s: seq<int>, i: nat, j: nat)
    requires i < |s|
  {
    forall q :: i < q < j && q < |s| ==> s[i] <= s[q]
  }

  /** One compare-and-exchange: the values at `i` and `j` trade places when the one at `j` is smaller. */
  function Exchange(s: seq<int>, i: nat, j: nat): seq<int>
    requires i < j < |s|
  {
    if s[j] < s[i] then s[i := s[j]][j := s[i]] else s
  }

  /** What the inner loop leaves once it has compared position `i` with positions `j` to `n - 1`. */
  function PassFrom(s: seq<int>, i: nat, j: nat, n: nat): (r: seq<int>)
    requires i < j <= n <= |s|
    ensures |r| == |s|
    decreases n - j
  {
    if j == n then s else PassFrom(Exchange(s, i, j), i, j + 1, n)
  }

  /**
   * The inner loop of the exchange sort: every later value smaller than the
   * one at position `i` is swapped into position `i`, so that position `i`
   * ends up holding the smallest of positions `i` to `n - 1`.
   */
  method ExchangePass(values: array<uint16>, i: nat, n: nat)
    requires i < n <= values.Length
    requires SettledBefore(values[..n], i)
    modifies values
    ensures values[..] == PassFrom(old(values[..]), i, i + 1, n)
    ensures SettledBefore(values[..n], i + 1)
    ensures values[..i] == old(values[..i])
    ensures multiset(values[i..n]) == multiset(old(values[i..n]))
    ensures multiset(values[..n]) == multiset(old(values[..n]))
    ensures values[n..] == old(values[n..])
  {
    var j := i + 1;
    while j < n
      invariant i + 1 <= j <= n
      invariant PassFrom(values[..], i, j, n) == PassFrom(old(values[..]), i, i + 1, n)
      invariant SettledBefore(values[..n], i) && HeadSmallest(values[..n], i, j)
      invariant values[..i] == old(values[..i])
      invariant multiset(values[i..n]) == multiset(old(values[i..n]))
      invariant multiset(values[..n]) == multiset(old(values[..n]))
      invariant values[n..] == old(values[n..])
    {
      CompareAndSwap(values, i, j, n);
      j := j + 1;
    }
  }

  /** One step of the inner loop: the values at `i` and `j` are exchanged when the one at `j` is smaller. */
  method CompareAndSwap(values: array<uint16>, i: nat, j: nat, n: nat)
    requires i < j < n <= values.Length
    requires SettledBefore(values[..n], i) && HeadSmallest(values[..n], i, j)
    modifies values
    ensures values[..] == Exchange(old(values[..]), i, j)
    ensures SettledBefore(values[..n], i) && HeadSmallest(values[..n], i, j + 1)
    ensures values[..i] == old(values[..i])
    ensures multiset(values[i..n]) == multiset(old(values[i..n]))
    ensures multiset(values[..n]) == multiset(old(values[..n]))
    ensures values[n..] == old(values[n..])
  {
    if values[j] < values[i] {
      ghost var before := values[..];
      values[i], values[j] := values[j], values[i];
      assert values[..] == before[i := before[j]][j := before[i]];
      SwapStep(before, i, j, n);
      SwapKeeps(before, i, j, n);
    } else {
      assert values[..n][i] <= values[..n][j];
    }
  }

  /** Swapping a smaller value at `j` into position `i` keeps what the pass has established so far. */
  lemma SwapStep(s: seq<int>, i: nat, j: nat, n: nat)
    requires i < j < n <= |s|
    requires SettledBefore(s[..n], i) && HeadSmallest(s[..n], i, j) && s[j] < s[i]
    ensures var t := s[i := s[j]][j := s[i]];
      SettledBefore(t[..n], i) && HeadSmallest(t[..n], i, j + 1)
  {
    var t := s[i := s[j]][j := s[i]];
    assert t[..n] == s[..n][i := s[j]][j := s[i]];
  }

  /** A swap of positions `i` and `j` below `n` rearranges only positions `i` to `n - 1`. */
  lemma SwapKeeps(s: seq<int>, i: nat, j: nat, n: nat)
    requires i < j < n <= |s|
    ensures var t := s[i := s[j]][j := s[i]];
      t[..i] == s[..i] && multiset(t[i..n]) == multiset(s[i..n]) &&
      multiset(t[..n]) == multiset(s[..n]) && t[n..] == s[n..]
  {
    var t := s[i := s[j]][j := s[i]];
    assert t[i..n] == s[i..n][0 := s[j]][j - i := s[i]];
    assert t[..n] == s[..n][i := s[j]][j := s[i]];
  }
}
