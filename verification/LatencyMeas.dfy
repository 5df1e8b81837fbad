/** Latency measurements: the ten best samples of a reporting window, kept by overwriting slot 0
    of an eleven-entry array and sorting it again. */
module LatencyMeas {
  import opened Options

  const INT_MAX: nat := 0x7FFF_FFFF
  const U32: nat := 0x1_0000_0000
  const U64: nat := 0x1_0000_0000_0000_0000

  /** cmpint: the difference of two uint64, truncated to int. */
  function Cmp(a: nat, b: nat): int {
    var low := (a - b) % U64 % U32;
    if low <= INT_MAX then low else low - U32
  }

  /** The comparator has the sign of the difference. */
  ghost predicate Orders(lo: nat, hi: nat) {
    forall a, b :: lo <= a <= hi && lo <= b <= hi ==> (Cmp(a, b) < 0 <==> a < b) && (Cmp(a, b) > 0 <==> a > b)
  }

  /** Two values that the truncation does not confuse. */
  predicate Comparable(a: nat, b: nat) {
    var d := if a >= b then a - b else b - a;
    d == 0 || 0 < d % U32 <= INT_MAX
  }

  lemma CmpOfLarger(a: nat, b: nat)
    requires b < a < U64
    ensures Cmp(a, b) > 0 <==> 0 < (a - b) % U32 <= INT_MAX
    ensures 0 < (a - b) % U32 <= INT_MAX ==> Cmp(b, a) < 0
  {
    var d := a - b;
    assert (b - a) % U64 == U64 - d;
    assert d == d / U32 * U32 + d % U32;
    assert U64 - d == (U32 - 1 - d / U32) * U32 + (U32 - d % U32);
  }

  /** The comparator has the right sign on two values, both ways, if and only if they differ by
      nothing, or by 1 to 2^31 - 1 modulo 2^32. */
  lemma PairOrdersIff(a: nat, b: nat)
    requires a < U64 && b < U64
    ensures (Cmp(a, b) < 0 <==> a < b) && (Cmp(a, b) > 0 <==> a > b) && (Cmp(b, a) < 0 <==> b < a) && (Cmp(b, a) > 0 <==> b > a)
       <==> Comparable(a, b)
  {
    if b < a {
      CmpOfLarger(a, b);
    } else if a < b {
      CmpOfLarger(b, a);
    }
  }

  /** The truncation is harmless exactly on ranges of 2^31 values. */
  lemma ComparatorOrdersIff(lo: nat, hi: nat)
    requires lo <= hi < U64
    ensures Orders(lo, hi) <==> hi - lo <= INT_MAX
  {
    if hi - lo <= INT_MAX {
      forall a, b | lo <= a <= hi && lo <= b <= hi
        ensures (Cmp(a, b) < 0 <==> a < b) && (Cmp(a, b) > 0 <==> a > b)
      {
        PairOrdersIff(a, b);
      }
    } else {
      PairOrdersIff(lo + INT_MAX + 1, lo);
      assert !Comparable(lo + INT_MAX + 1, lo);
    }
  }

  // Sorting.

  /** Ascending for the ten largest, descending for the ten smallest. */
  predicate Le(up: bool, x: nat, y: nat) { if up then x <= y else y <= x }

  ghost predicate Sorted(up: bool, s: seq<nat>) {
    forall i, j :: 0 <= i < j < |s| ==> Le(up, s[i], s[j])
  }

  /** All values of a bag can be compared with each other. */
  ghost predicate AllComparable(m: multiset<nat>) {
    forall x, y :: x in m && y in m ==> Comparable(x, y)
  }

  /** cmpint or cmpintRev. */
  method IsBefore(up: bool, x: nat, y: nat) returns (b: bool)
    requires x < U64 && y < U64
    ensures Comparable(x, y) ==> (b <==> x != y && Le(up, x, y))
  {
    PairOrdersIff(x, y);
    b := if up then Cmp(x, y) < 0 else Cmp(y, x) < 0;
  }

  ghost predicate AllU64(a: array<nat>)
    reads a
  {
    forall k :: 0 <= k < a.Length ==> a[k] < U64
  }

  /** The entry that comes first by the comparator, from i on. */
  method FindFirst(a: array<nat>, up: bool, i: nat) returns (m: nat)
    requires i < a.Length && AllU64(a)
    ensures i <= m < a.Length
    ensures AllComparable(multiset(a[..])) ==> forall k :: i <= k < a.Length ==> Le(up, a[m], a[k])
  {
    m := i;
    for j := i + 1 to a.Length
      invariant i <= m < a.Length
      invariant AllComparable(multiset(a[..])) ==> forall k :: i <= k < j ==> Le(up, a[m], a[k])
    {
      assert a[j] in multiset(a[..]) && a[m] in multiset(a[..]);
      var b := IsBefore(up, a[j], a[m]);
      if b {
        m := j;
      }
    }
  }

  method Swap(a: array<nat>, i: nat, m: nat)
    requires i < a.Length && m < a.Length
    modifies a
    ensures a[i] == old(a[m]) && a[m] == old(a[i])
    ensures forall k :: 0 <= k < a.Length && k != i && k != m ==> a[k] == old(a[k])
    ensures multiset(a[..]) == multiset(old(a[..]))
  {
    a[i], a[m] := a[m], a[i];
  }

  /** qsort with one of the comparators: always a permutation, and sorted when the entries can be
      compared. */
  method Qsort(a: array<nat>, up: bool)
    requires AllU64(a)
    modifies a
    ensures AllU64(a) && multiset(a[..]) == multiset(old(a[..]))
    ensures AllComparable(multiset(a[..])) ==> Sorted(up, a[..])
  {
    ghost var ok := AllComparable(multiset(a[..]));
    for i := 0 to a.Length
      invariant AllU64(a) && multiset(a[..]) == multiset(old(a[..]))
      invariant ok ==> forall j, k :: 0 <= j < k < a.Length && j < i ==> Le(up, a[j], a[k])
    {
      var m := FindFirst(a, up, i);
      Swap(a, i, m);
    }
  }

  // The ten best.

  function Pads(pad: nat): multiset<nat> { multiset{}[pad := 10] }

  /** Nothing gets lost: ten entries and the dropped ones are the samples and the padding. */
  ghost predicate IsKept(best: seq<nat>, dropped: multiset<nat>, samples: seq<nat>, pad: nat) {
    |best| == 10 && multiset(best) + dropped == multiset(samples) + Pads(pad)
  }

  /** Ten samples such that none of the others, the padding included, goes before them. */
  ghost predicate IsBest(up: bool, best: seq<nat>, dropped: multiset<nat>, samples: seq<nat>, pad: nat) {
    IsKept(best, dropped, samples, pad) && Sorted(up, best) && forall d :: d in dropped ==> Le(up, d, best[0])
  }

  lemma OnlyTheNewOne(up: bool, best: seq<nat>, x: nat, y: nat)
    requires |best| == 10 && Sorted(up, best) && y in multiset([x] + best) && !Le(up, best[0], y)
    ensures y == x && y !in best
  {
    assert forall k :: 0 <= k < 10 ==> Le(up, best[0], best[k]);
    assert y in [x] + best;
  }

  /** Of an entry put in front of ten sorted ones and sorted in, at least the old first one is left
      after the first. */
  lemma SecondIsLater(up: bool, best: seq<nat>, x: nat, all: seq<nat>)
    requires |best| == 10 && |all| == 11 && Sorted(up, best) && Sorted(up, all)
    requires multiset(all) == multiset([x] + best)
    ensures Le(up, best[0], all[1])
  {
    assert Le(up, all[0], all[1]);
    assert all[0] in multiset(all) && all[1] in multiset(all);
    assert all == [all[0], all[1]] + all[2..];
    assert x !in best ==> multiset([x] + best)[x] == 1;
    if !Le(up, best[0], all[1]) {
      OnlyTheNewOne(up, best, x, all[0]);
      OnlyTheNewOne(up, best, x, all[1]);
    }
  }

  lemma StillKept(best: seq<nat>, dropped: multiset<nat>, samples: seq<nat>, pad: nat, x: nat, all: seq<nat>)
    requires IsKept(best, dropped, samples, pad) && |all| == 11 && multiset(all) == multiset([x] + best)
    ensures IsKept(all[1..], dropped + multiset{all[0]}, samples + [x], pad)
  {
    assert all == [all[0]] + all[1..];
    calc {
      multiset(all[1..]) + (dropped + multiset{all[0]});
      multiset(all) + dropped;
      multiset{x} + (multiset(best) + dropped);
      multiset{x} + (multiset(samples) + Pads(pad));
      multiset(samples + [x]) + Pads(pad);
    }
  }

  lemma StillBest(up: bool, best: seq<nat>, dropped: multiset<nat>, samples: seq<nat>, pad: nat, x: nat, all: seq<nat>)
    requires IsBest(up, best, dropped, samples, pad) && |all| == 11 && Sorted(up, all)
    requires multiset(all) == multiset([x] + best)
    ensures IsBest(up, all[1..], dropped + multiset{all[0]}, samples + [x], pad)
  {
    StillKept(best, dropped, samples, pad, x, all);
    SecondIsLater(up, best, x, all);
    assert Le(up, all[0], all[1]);
  }

  /** Everything the array has seen since the reset. */
  ghost predicate Settled(up: bool, best: seq<nat>, dropped: multiset<nat>, samples: seq<nat>, pad: nat) {
    && IsKept(best, dropped, samples, pad)
    && (AllComparable(multiset(samples) + Pads(pad)) ==> IsBest(up, best, dropped, samples, pad))
  }

  lemma SmallIsComparable(x: nat, y: nat)
    requires x <= INT_MAX && y <= INT_MAX
    ensures Comparable(x, y)
  {
    var d := if x >= y then x - y else y - x;
    assert d % U32 == d;
  }

  /** With samples up to INT_MAX the ten are the best. */
  lemma SmallSamplesAreBest(up: bool, best: seq<nat>, dropped: multiset<nat>, samples: seq<nat>, pad: nat)
    requires Settled(up, best, dropped, samples, pad) && pad <= INT_MAX
    requires forall k :: 0 <= k < |samples| ==> samples[k] <= INT_MAX
    ensures IsBest(up, best, dropped, samples, pad)
  {
    var whole := multiset(samples) + Pads(pad);
    assert forall z :: z in whole ==> z in samples || z == pad;
    assert forall z :: z in whole ==> z <= INT_MAX;
    forall x, y | x in whole && y in whole
      ensures Comparable(x, y)
    {
      SmallIsComparable(x, y);
    }
  }

  /** Overwriting slot 0 and sorting, for any sample. */
  lemma StillSettled(up: bool, best: seq<nat>, dropped: multiset<nat>, samples: seq<nat>, pad: nat, x: nat, all: seq<nat>)
    requires Settled(up, best, dropped, samples, pad) && |all| == 11 && multiset(all) == multiset([x] + best)
    requires AllComparable(multiset(all)) ==> Sorted(up, all)
    ensures Settled(up, all[1..], dropped + multiset{all[0]}, samples + [x], pad)
  {
    StillKept(best, dropped, samples, pad, x, all);
    var whole := multiset(samples) + Pads(pad);
    assert multiset(samples + [x]) + Pads(pad) == whole + multiset{x};
    if AllComparable(whole + multiset{x}) {
      forall y | y in whole
        ensures y in whole + multiset{x}
      {
      }
      assert multiset(all) <= whole + multiset{x} by {
        assert multiset([x] + best) == multiset{x} + multiset(best) && multiset(best) <= whole;
      }
      StillBest(up, best, dropped, samples, pad, x, all);
    }
  }

  /** Samples after the first of the ten are all kept, samples before it all dropped. */
  lemma KeptCount(up: bool, best: seq<nat>, dropped: multiset<nat>, samples: seq<nat>, pad: nat, y: nat)
    requires IsBest(up, best, dropped, samples, pad) && y != best[0]
    ensures Le(up, best[0], y) ==> multiset(best)[y] == (multiset(samples) + Pads(pad))[y]
    ensures !Le(up, best[0], y) ==> multiset(best)[y] == 0
  {
    assert forall k :: 0 <= k < 10 ==> Le(up, best[0], best[k]);
    assert (multiset(best) + dropped)[y] == multiset(best)[y] + dropped[y];
  }

  lemma FirstIsUnique(up: bool, best: seq<nat>, dropped: multiset<nat>, best': seq<nat>, dropped': multiset<nat>,
          samples: seq<nat>, pad: nat)
    requires IsBest(up, best, dropped, samples, pad) && IsBest(up, best', dropped', samples, pad)
    ensures Le(up, best[0], best'[0])
  {
    assert best'[0] in multiset(best');
    if !Le(up, best[0], best'[0]) {
      forall y
        ensures multiset(best)[y] <= multiset(best')[y]
      {
        assert (multiset(best) + dropped)[y] == multiset(best)[y] + dropped[y];
        assert y in best ==> exists k :: 0 <= k < 10 && best[k] == y && Le(up, best[0], best[k]);
        if y >= 0 && y != best'[0] {
          KeptCount(up, best', dropped', samples, pad, y);
        }
      }
      assert multiset(best) <= multiset(best');
      SameSize(multiset(best), multiset(best'));
    }
  }

  lemma SameSize(m: multiset<nat>, m': multiset<nat>)
    requires m <= m' && |m| == |m'|
    ensures m == m'
  {
    assert m' == m + (m' - m);
    assert |m' - m| == 0;
  }

  lemma FirstOfSorted(up: bool, s: seq<nat>, y: nat)
    requires Sorted(up, s) && y in multiset(s)
    ensures Le(up, s[0], y)
  {
    var k :| 0 <= k < |s| && s[k] == y;
  }

  lemma RestOfBag(s: seq<nat>)
    requires s != []
    ensures multiset(s[1..]) == multiset(s) - multiset{s[0]}
  {
    assert s == [s[0]] + s[1..];
  }

  lemma SameFirst(up: bool, s: seq<nat>, t: seq<nat>)
    requires Sorted(up, s) && Sorted(up, t) && multiset(s) == multiset(t) && s != [] && t != []
    ensures s[0] == t[0]
  {
    assert s[0] in multiset(s) && t[0] in multiset(t);
    FirstOfSorted(up, s, t[0]);
    FirstOfSorted(up, t, s[0]);
  }

  lemma {:induction false} SortedIsUnique(up: bool, s: seq<nat>, t: seq<nat>)
    requires Sorted(up, s) && Sorted(up, t) && multiset(s) == multiset(t)
    ensures s == t
    decreases |s|
  {
    assert |s| == |multiset(s)| == |multiset(t)| == |t|;
    if s != [] {
      SameFirst(up, s, t);
      RestOfBag(s);
      RestOfBag(t);
      SortedIsUnique(up, s[1..], t[1..]);
      assert s == [s[0]] + s[1..] && t == [t[0]] + t[1..];
    }
  }

  /** The samples determine the ten best. */
  lemma BestIsUnique(up: bool, best: seq<nat>, dropped: multiset<nat>, best': seq<nat>, dropped': multiset<nat>,
          samples: seq<nat>, pad: nat)
    requires IsBest(up, best, dropped, samples, pad) && IsBest(up, best', dropped', samples, pad)
    ensures best == best'
  {
    FirstIsUnique(up, best, dropped, best', dropped', samples, pad);
    FirstIsUnique(up, best', dropped', best, dropped, samples, pad);
    var v, m, m' := best[0], multiset(best), multiset(best');
    assert best'[0] == v;
    forall y: nat | y != v
      ensures m[y] == m'[y]
    {
      KeptCount(up, best, dropped, samples, pad, y);
      KeptCount(up, best', dropped', samples, pad, y);
    }
    assert m[v := 0] == m'[v := 0];
    assert |m| == |m[v := 0]| + m[v] && |m'| == |m'[v := 0]| + m'[v];
    assert m == m';
    SortedIsUnique(up, best, best');
  }

  function Sum(samples: seq<nat>): nat {
    if samples == [] then 0 else Sum(samples[..|samples| - 1]) + samples[|samples| - 1]
  }

  /** A printed line: average, number of samples, the ten best. */
  datatype Report = Report(avg: nat, iterations: nat, best: seq<nat>)

  /** The line is about these samples. */
  ghost predicate Describes(r: Report, up: bool, samples: seq<nat>, pad: nat) {
    && samples != [] && r.iterations == |samples| && r.avg == Sum(samples) % U64 / |samples|
    && exists dropped :: Settled(up, r.best, dropped, samples, pad)
  }

  /** What the unused entries hold: zeros in the first window, later the sort's neutral value. */
  function PadAfterReset(maxMin: bool): nat { if maxMin then 0 else INT_MAX }

  class Meas {
    var iterations: nat
    var sum: nat
    const maxArray: array<nat>
    const maxMin: bool
    const period: nat
    ghost var samples: seq<nat>
    ghost var pad: nat
    ghost var dropped: multiset<nat>

    /** The counters are about the samples of the window. */
    ghost predicate Counts()
      reads this
    {
      iterations == |samples| && sum == Sum(samples) % U64
    }

    /** So is the array. */
    ghost predicate Keeps()
      reads this, maxArray
    {
      maxArray.Length == 11 && AllU64(maxArray) && Settled(maxMin, maxArray[1..], dropped, samples, pad)
    }

    ghost predicate Valid()
      reads this, maxArray
    {
      Counts() && Keeps() && |samples| < period
    }

    /** initRefTimes: a static object is zeroed, for minima too. */
    constructor (maxMin: bool, period: nat)
      requires 0 < period
      ensures Valid() && fresh(maxArray) && samples == [] && pad == 0 && this.maxMin == maxMin && this.period == period
    {
      maxArray := new nat[11](_ => 0);
      this.maxMin := maxMin;
      this.period := period;
      iterations, sum := 0, 0;
      samples, pad, dropped := [], 0, multiset{};
      new;
      TenPads(maxArray[1..], 0);
    }

    /** updateTimesReset. The sample, in microseconds, comes from the clock; `start` is 0 as long as
        the measured interval has no beginning. */
    method UpdateTimesReset(start: nat, diff: nat) returns (printed: Option<Report>)
      requires Valid() && diff < U64
      modifies this, maxArray
      ensures Valid()
      ensures start == 0 ==> printed == None && samples == old(samples) && pad == old(pad)
      ensures printed.Some? <==> start != 0 && |old(samples)| + 1 == period
      ensures start != 0 && printed == None ==> samples == old(samples) + [diff] && pad == old(pad)
      ensures printed.Some? ==> Describes(printed.value, maxMin, old(samples) + [diff], old(pad))
      ensures printed.Some? ==> samples == [] && pad == PadAfterReset(maxMin)
    {
      printed := None;
      if start != 0 {
        Record(diff);
        printed := FinishPeriod();
      }
    }

    /** Print and reset at the end of a period. */
    method FinishPeriod() returns (printed: Option<Report>)
      requires Counts() && Keeps() && 0 < |samples| <= period
      modifies this, maxArray
      ensures Valid()
      ensures printed.Some? <==> |old(samples)| == period
      ensures printed == None ==> samples == old(samples) && pad == old(pad)
      ensures printed.Some? ==> Describes(printed.value, maxMin, old(samples), old(pad))
      ensures printed.Some? ==> samples == [] && pad == PadAfterReset(maxMin)
    {
      EndOfPeriod(iterations, period);
      if iterations % period == 0 {
        printed := Some(MakeReport());
        Reset();
      } else {
        printed := None;
      }
    }

    function MakeReport(): (r: Report)
      requires Counts() && Keeps() && samples != []
      reads this, maxArray
      ensures Describes(r, maxMin, samples, pad)
    {
      Report(sum / iterations, iterations, maxArray[1..])
    }

    /** The part before the report: the window may now be complete. */
    method Record(diff: nat)
      requires Valid() && diff < U64
      modifies this, maxArray
      ensures Counts() && Keeps() && samples == old(samples) + [diff] && pad == old(pad)
    {
      Insert(diff);
      Advance(diff);
    }

    method Advance(diff: nat)
      requires |samples| > 0 && samples[|samples| - 1] == diff
      requires iterations == |samples| - 1 && sum == Sum(samples[..|samples| - 1]) % U64
      modifies this`iterations, this`sum
      ensures Counts()
    {
      sum := (sum + diff) % U64;
      iterations := iterations + 1;
    }

    /** Overwrite slot 0 and sort. */
    method Insert(diff: nat)
      requires Keeps() && diff < U64
      modifies maxArray, `dropped, `samples
      ensures Keeps() && samples == old(samples) + [diff]
    {
      ghost var best := maxArray[1..];
      maxArray[0] := diff;
      assert maxArray[..] == [diff] + best;
      Qsort(maxArray, maxMin);
      StillSettled(maxMin, best, dropped, samples, pad, diff, maxArray[..]);
      assert maxArray[..][1..] == maxArray[1..];
      dropped, samples := dropped + multiset{maxArray[0]}, samples + [diff];
    }

    method Reset()
      requires maxArray.Length == 11 && 0 < period
      modifies this, maxArray
      ensures Valid() && samples == [] && pad == PadAfterReset(maxMin)
    {
      iterations, sum := 0, 0;
      var fill := if maxMin then 0 else INT_MAX;
      for i := 0 to 11
        invariant iterations == sum == 0
        invariant forall k :: 0 <= k < i ==> maxArray[k] == fill
      {
        maxArray[i] := fill;
      }
      samples, pad, dropped := [], fill, multiset{};
      TenPads(maxArray[1..], fill);
    }
  }

  lemma EndOfPeriod(n: nat, period: nat)
    requires 0 < n <= period
    ensures n % period == 0 <==> n == period
  {
  }

  lemma TenPads(s: seq<nat>, pad: nat)
    requires |s| == 10 && forall k :: 0 <= k < 10 ==> s[k] == pad
    ensures multiset(s) == Pads(pad)
  {
    assert s == [pad, pad, pad, pad, pad, pad, pad, pad, pad, pad];
  }
}
