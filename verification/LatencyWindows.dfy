/** Windows of latency samples under any sort with the truncating comparators: when they are reported
    rightly, and what happens otherwise. */
module LatencyWindows {
  import opened LatencyMeas

  /** A sorted array by the comparator's own word. Where the comparator contradicts itself, more than
      one order of the same entries may be, or none. */
  ghost predicate InComparatorOrder(up: bool, all: seq<nat>) {
    forall i, j :: 0 <= i < j < |all| ==> if up then Cmp(all[i], all[j]) <= 0 else Cmp(all[j], all[i]) <= 0
  }

  function Same(n: nat, v: nat): (s: seq<nat>)
    ensures |s| == n && forall k :: 0 <= k < n ==> s[k] == v
  {
    seq(n, _ => v)
  }

  /** The array overwritten in slot 0 with x and sorted. */
  ghost predicate SortedIn(up: bool, best: seq<nat>, x: nat, all: seq<nat>) {
    |all| == 11 && multiset(all) == multiset([x] + best) && InComparatorOrder(up, all)
  }

  ghost predicate IsNext(up: bool, before: seq<nat>, x: nat, best: seq<nat>) {
    exists all :: SortedIn(up, before, x, all) && best == all[1..]
  }

  /** The ten entries may be these after the samples of a window. */
  ghost predicate MayHold(up: bool, best: seq<nat>, samples: seq<nat>, pad: nat)
    decreases |samples|
  {
    if samples == [] then best == Same(10, pad)
    else
      var n := |samples| - 1;
      exists before :: MayHold(up, before, samples[..n], pad) && IsNext(up, before, samples[n], best)
  }

  lemma MayHoldNext(up: bool, before: seq<nat>, samples: seq<nat>, pad: nat, x: nat, all: seq<nat>)
    requires MayHold(up, before, samples, pad) && SortedIn(up, before, x, all)
    ensures MayHold(up, all[1..], samples + [x], pad)
  {
    assert (samples + [x])[..|samples|] == samples;
    assert IsNext(up, before, x, all[1..]);
  }

  lemma LastStep(up: bool, best: seq<nat>, samples: seq<nat>, pad: nat) returns (before: seq<nat>, all: seq<nat>)
    requires samples != [] && MayHold(up, best, samples, pad)
    ensures var n := |samples| - 1;
            MayHold(up, before, samples[..n], pad) && SortedIn(up, before, samples[n], all) && best == all[1..]
  {
    var n := |samples| - 1;
    before :| MayHold(up, before, samples[..n], pad) && IsNext(up, before, samples[n], best);
    all :| SortedIn(up, before, samples[n], all) && best == all[1..];
  }

  ghost predicate AllUpTo(s: seq<nat>, hi: nat) { forall k :: 0 <= k < |s| ==> s[k] <= hi }

  /** Comparable entries in the comparator's order are in order. */
  lemma OrderIsOrder(up: bool, all: seq<nat>)
    requires InComparatorOrder(up, all) && AllUpTo(all, U64 - 1) && AllComparable(multiset(all))
    ensures Sorted(up, all)
  {
    forall i, j | 0 <= i < j < |all|
      ensures Le(up, all[i], all[j])
    {
      assert all[i] in multiset(all) && all[j] in multiset(all);
      PairOrdersIff(all[i], all[j]);
    }
  }

  lemma StillUpTo(best: seq<nat>, x: nat, all: seq<nat>, hi: nat)
    requires |best| == 10 && AllUpTo(best, hi) && x <= hi && multiset(all) == multiset([x] + best)
    ensures AllUpTo(all, hi)
  {
    forall k | 0 <= k < |all|
      ensures all[k] <= hi
    {
      assert all[k] in multiset(all);
      assert all[k] in [x] + best;
    }
  }

  ghost predicate IsSettled(up: bool, best: seq<nat>, samples: seq<nat>, pad: nat) {
    AllUpTo(best, U64 - 1) && exists dropped :: Settled(up, best, dropped, samples, pad)
  }

  lemma KeepsItsOrder(up: bool, before: seq<nat>, x: nat, all: seq<nat>)
    requires |before| == 10 && AllUpTo(before, U64 - 1) && x < U64 && SortedIn(up, before, x, all)
    ensures AllUpTo(all, U64 - 1) && (AllComparable(multiset(all)) ==> Sorted(up, all))
  {
    StillUpTo(before, x, all, U64 - 1);
    if AllComparable(multiset(all)) {
      OrderIsOrder(up, all);
    }
  }

  lemma SettledNext(up: bool, before: seq<nat>, samples: seq<nat>, pad: nat, all: seq<nat>)
    requires samples != [] && samples[|samples| - 1] < U64 && IsSettled(up, before, samples[..|samples| - 1], pad)
    requires SortedIn(up, before, samples[|samples| - 1], all)
    ensures IsSettled(up, all[1..], samples, pad)
  {
    var n := |samples| - 1;
    var dropped :| Settled(up, before, dropped, samples[..n], pad);
    KeepsItsOrder(up, before, samples[n], all);
    assert samples == samples[..n] + [samples[n]];
    StillSettled(up, before, dropped, samples[..n], pad, samples[n], all);
    assert Settled(up, all[1..], dropped + multiset{all[0]}, samples, pad);
  }

  lemma SettledLast(up: bool, best: seq<nat>, samples: seq<nat>, pad: nat)
    requires samples != [] && MayHold(up, best, samples, pad) && AllUpTo(samples, U64 - 1)
    requires var n := |samples| - 1;
             forall before :: MayHold(up, before, samples[..n], pad) ==> IsSettled(up, before, samples[..n], pad)
    ensures IsSettled(up, best, samples, pad)
  {
    var before, all := LastStep(up, best, samples, pad);
    SettledNext(up, before, samples, pad, all);
  }

  lemma NothingYet(up: bool, best: seq<nat>, pad: nat)
    requires best == Same(10, pad) && pad < U64
    ensures IsSettled(up, best, [], pad)
  {
    TenPads(best, pad);
    assert Settled(up, best, multiset{}, [], pad);
  }

  /** Any sort does what the model's sort does. */
  lemma {:induction false} AnySortSettles(up: bool, best: seq<nat>, samples: seq<nat>, pad: nat)
    requires MayHold(up, best, samples, pad) && AllUpTo(samples, U64 - 1) && pad < U64
    ensures IsSettled(up, best, samples, pad)
    decreases |samples|
  {
    if samples == [] {
      NothingYet(up, best, pad);
    } else {
      var n := |samples| - 1;
      forall before | MayHold(up, before, samples[..n], pad)
        ensures IsSettled(up, before, samples[..n], pad)
      {
        AnySortSettles(up, before, samples[..n], pad);
      }
      SettledLast(up, best, samples, pad);
    }
  }

  /** The ten are the best of the window. */
  ghost predicate IsRight(up: bool, best: seq<nat>, samples: seq<nat>, pad: nat) {
    exists dropped :: IsBest(up, best, dropped, samples, pad)
  }

  /** Every window with samples up to hi is reported rightly. */
  ghost predicate RightUpTo(up: bool, pad: nat, hi: nat) {
    forall samples, best :: AllUpTo(samples, hi) && MayHold(up, best, samples, pad) ==> IsRight(up, best, samples, pad)
  }

  lemma SmallWindowIsRight(up: bool, best: seq<nat>, samples: seq<nat>, pad: nat)
    requires AllUpTo(samples, INT_MAX) && pad <= INT_MAX && MayHold(up, best, samples, pad)
    ensures IsRight(up, best, samples, pad)
  {
    AnySortSettles(up, best, samples, pad);
    var dropped :| Settled(up, best, dropped, samples, pad);
    SmallSamplesAreBest(up, best, dropped, samples, pad);
  }

  /** The padding, then k zeros, as the sort leaves them. */
  function Zeros(pad: nat, k: nat): (s: seq<nat>)
    requires k <= 10
    ensures |s| == 10
  {
    Same(10 - k, pad) + Same(k, 0)
  }

  lemma CmpWithZero(x: nat)
    requires x <= INT_MAX
    ensures Cmp(0, 0) == 0 && Cmp(x, x) == 0 && Cmp(0, x) <= 0 <= Cmp(x, 0)
  {
    SmallIsComparable(x, 0);
    PairOrdersIff(x, 0);
    PairOrdersIff(x, x);
    PairOrdersIff(0, 0);
  }

  lemma ZerosSortIn(up: bool, pad: nat, k: nat, all: seq<nat>)
    requires k < 10 && pad <= INT_MAX && (up ==> pad == 0) && all == Same(10 - k, pad) + Same(k + 1, 0)
    ensures SortedIn(up, Zeros(pad, k), 0, all) && all[1..] == Zeros(pad, k + 1)
  {
    CmpWithZero(pad);
    assert all == Zeros(pad, k) + [0];
    assert multiset(all) == multiset([0] + Zeros(pad, k));
    assert all[1..] == Same(9 - k, pad) + Same(k + 1, 0);
  }

  lemma {:induction false} ZerosAreHeld(up: bool, pad: nat, k: nat)
    requires k <= 10 && pad <= INT_MAX && (up ==> pad == 0)
    ensures MayHold(up, Zeros(pad, k), Same(k, 0), pad)
  {
    if k == 0 {
      assert Zeros(pad, 0) == Same(10, pad);
    } else {
      ZerosAreHeld(up, pad, k - 1);
      ZerosSortIn(up, pad, k - 1, Same(11 - k, pad) + Same(k, 0));
      MayHoldNext(up, Zeros(pad, k - 1), Same(k - 1, 0), pad, 0, Same(11 - k, pad) + Same(k, 0));
      assert Same(k - 1, 0) + [0] == Same(k, 0);
    }
  }

  /** A sample the comparator takes for a negative number, sorted in with ten zeros. */
  function LargeWithZeros(up: bool, x: nat): seq<nat> { if up then [x] + Same(10, 0) else Same(10, 0) + [x] }

  lemma LargeSortsIn(up: bool, x: nat)
    requires Cmp(x, 0) < 0
    ensures SortedIn(up, Same(10, 0), x, LargeWithZeros(up, x))
  {
    CmpWithZero(0);
    assert multiset(Same(10, 0) + [x]) == multiset([x] + Same(10, 0));
  }

  /** The largest sample is dropped, or kept as the smallest. */
  lemma LargeIsWrong(up: bool, pad: nat, x: nat, dropped: multiset<nat>)
    requires 0 < x
    ensures !IsBest(up, LargeWithZeros(up, x)[1..], dropped, Same(10, 0) + [x], pad)
  {
    var best, samples := LargeWithZeros(up, x)[1..], Same(10, 0) + [x];
    if up {
      assert best == Same(10, 0);
      assert x in multiset(samples) + Pads(pad);
      assert IsKept(best, dropped, samples, pad) ==> x in multiset(best) + dropped;
    } else {
      assert best[8] == 0 && best[9] == x;
    }
  }

  /** A window of ten zeros and such a sample is reported wrongly. */
  lemma LargeAfterZeros(up: bool, pad: nat, x: nat)
    requires pad <= INT_MAX && (up ==> pad == 0) && 0 < x && Cmp(x, 0) < 0
    ensures var best, samples := LargeWithZeros(up, x)[1..], Same(10, 0) + [x];
            MayHold(up, best, samples, pad) && !IsRight(up, best, samples, pad)
  {
    ZerosAreHeld(up, pad, 10);
    assert Zeros(pad, 10) == Same(10, 0);
    LargeSortsIn(up, x);
    MayHoldNext(up, Same(10, 0), Same(10, 0), pad, x, LargeWithZeros(up, x));
    forall dropped
      ensures !IsBest(up, LargeWithZeros(up, x)[1..], dropped, Same(10, 0) + [x], pad)
    {
      LargeIsWrong(up, pad, x, dropped);
    }
  }

  lemma JustTooLarge(x: nat)
    requires x == INT_MAX + 1 || x == INT_MAX + 2
    ensures Cmp(x, 0) < 0
  {
  }

  /** Whatever the mode and the padding, every window with samples up to hi is reported rightly, if and
      only if hi is at most INT_MAX. */
  lemma RightUpToIff(up: bool, pad: nat, hi: nat)
    requires pad <= INT_MAX && (up ==> pad == 0)
    ensures RightUpTo(up, pad, hi) <==> hi <= INT_MAX
  {
    if hi <= INT_MAX {
      forall samples, best | AllUpTo(samples, hi) && MayHold(up, best, samples, pad)
        ensures IsRight(up, best, samples, pad)
      {
        SmallWindowIsRight(up, best, samples, pad);
      }
    } else {
      var x := if hi == INT_MAX + 1 then hi else INT_MAX + 2;
      JustTooLarge(x);
      LargeAfterZeros(up, pad, x);
      assert AllUpTo(Same(10, 0) + [x], hi);
    }
  }

  // The first window.

  /** Minima before the first reset: the padding of zeros hides every sample of a comparable
      window. */
  lemma FirstMinimaAreZero(best: seq<nat>, dropped: multiset<nat>, samples: seq<nat>)
    requires Settled(false, best, dropped, samples, 0) && AllComparable(multiset(samples) + Pads(0))
    ensures best == Same(10, 0)
  {
    assert best == [best[0]] + best[1..];
    var tail := multiset(best[1..]);
    assert tail[0] <= |tail| == 9;
    assert (multiset(best) + dropped)[0] >= 10;
    assert forall k :: 0 < k < 10 ==> Le(false, best[0], best[k]);
  }

  /** The ten largest, or smallest, of the samples themselves. */
  ghost predicate IsOwn(up: bool, best: seq<nat>, samples: seq<nat>) {
    && |best| == 10 && Sorted(up, best)
    && exists rest: multiset<nat> :: multiset(best) + rest == multiset(samples) && forall d :: d in rest ==> Le(up, d, best[0])
  }

  lemma CountSame(n: nat, v: nat)
    ensures multiset(Same(n, v)) == multiset{}[v := n]
    decreases n
  {
    if n > 0 {
      CountSame(n - 1, v);
      assert Same(n, v) == Same(n - 1, v) + [v];
    } else {
      assert Same(0, v) == [];
    }
  }

  /** Ten zeros are the window's own ten minima if and only if ten samples are zero. */
  lemma ZerosAreOwnIff(samples: seq<nat>)
    ensures IsOwn(false, Same(10, 0), samples) <==> multiset(samples)[0] >= 10
  {
    CountSame(10, 0);
    var zeros := multiset(Same(10, 0));
    if multiset(samples)[0] >= 10 {
      assert zeros + (multiset(samples) - zeros) == multiset(samples);
    }
    forall rest: multiset<nat> | zeros + rest == multiset(samples)
      ensures multiset(samples)[0] >= 10
    {
      assert (zeros + rest)[0] == zeros[0] + rest[0];
    }
  }

  lemma Cancel(a: multiset<nat>, b: multiset<nat>, c: multiset<nat>)
    requires a + c == b + c
    ensures a == b
  {
    assert a == (a + c) - c && b == (b + c) - c;
  }

  lemma AllOfThem(m: multiset<nat>, v: nat)
    requires forall d :: d in m ==> d == v
    ensures |m| == m[v]
  {
    assert m == multiset{}[v := m[v]];
  }

  /** The padding of a reset is dropped first. */
  lemma PadsAreDropped(up: bool, best: seq<nat>, dropped: multiset<nat>, samples: seq<nat>)
    requires IsBest(up, best, dropped, samples, PadAfterReset(up)) && AllUpTo(samples, INT_MAX) && 10 <= |samples|
    ensures Pads(PadAfterReset(up)) <= dropped
  {
    var pad := PadAfterReset(up);
    var whole := multiset(samples) + Pads(pad);
    assert forall z :: z in whole ==> z in samples || z == pad;
    assert multiset(best) + dropped == whole && |whole| == |samples| + 10;
    if pad in multiset(best) {
      assert pad in best;
      assert Le(up, best[0], pad);
      assert best[0] in multiset(best) && best[0] in whole;
      assert best[0] == pad;
      forall d | d in dropped
        ensures d == pad
      {
        assert d in whole;
      }
      AllOfThem(dropped, pad);
    } else {
      assert whole[pad] == multiset(best)[pad] + dropped[pad];
    }
  }

  /** After a reset, a window of at least ten samples up to INT_MAX is reported by its own ten largest, or
      smallest. */
  lemma FullWindowIsOwn(up: bool, best: seq<nat>, dropped: multiset<nat>, samples: seq<nat>)
    requires Settled(up, best, dropped, samples, PadAfterReset(up)) && AllUpTo(samples, INT_MAX) && 10 <= |samples|
    ensures IsOwn(up, best, samples)
  {
    var pads := Pads(PadAfterReset(up));
    SmallSamplesAreBest(up, best, dropped, samples, PadAfterReset(up));
    PadsAreDropped(up, best, dropped, samples);
    var rest := dropped - pads;
    assert rest + pads == dropped;
    assert multiset(best) + rest + pads == multiset(samples) + pads;
    Cancel(multiset(best) + rest, multiset(samples), pads);
  }

  lemma ComparableWithZero(x: nat)
    requires x < U64
    ensures Comparable(x, 0) ==> Cmp(0, 0) == 0 && Cmp(0, x) <= 0 && (x > 0 ==> Cmp(x, 0) > 0)
    ensures !Comparable(x, 0) ==> Cmp(0, 0) == 0 && Cmp(x, 0) <= 0 && x > 0
  {
    PairOrdersIff(x, 0);
    PairOrdersIff(0, 0);
    if x > 0 {
      CmpOfLarger(x, 0);
    }
  }

  /** A sample that can be compared with zero is dropped, one that cannot may be kept. */
  lemma ZerosStayIff(x: nat)
    requires x < U64
    ensures Comparable(x, 0) ==> SortedIn(false, Same(10, 0), x, [x] + Same(10, 0))
    ensures !Comparable(x, 0) ==> SortedIn(false, Same(10, 0), x, Same(10, 0) + [x]) && x > 0
  {
    ComparableWithZero(x);
    assert multiset(Same(10, 0) + [x]) == multiset([x] + Same(10, 0));
  }

  lemma ZeroStays(x: nat, all: seq<nat>)
    requires x < U64 && Comparable(x, 0) && SortedIn(false, Same(10, 0), x, all)
    ensures all[1..] == Same(10, 0)
  {
    ComparableWithZero(x);
    CountSame(10, 0);
    assert multiset([x] + Same(10, 0)) == multiset{x} + multiset(Same(10, 0));
    forall k | 1 <= k < 11
      ensures all[k] == 0
    {
      assert all[0] in multiset(all) && all[k] in multiset(all);
      if all[k] != 0 {
        assert all[k] == x && multiset(all)[x] == 1;
        if all[0] == x {
          TwoOfThem(all, 0, k);
        }
      }
    }
  }

  lemma {:induction false} ZerosStay(samples: seq<nat>, best: seq<nat>)
    requires AllUpTo(samples, U64 - 1) && forall i :: 0 <= i < |samples| ==> Comparable(samples[i], 0)
    ensures MayHold(false, best, samples, 0) <==> best == Same(10, 0)
    decreases |samples|
  {
    if samples != [] {
      var n := |samples| - 1;
      var zeros, x := Same(10, 0), samples[n];
      ZerosStay(samples[..n], zeros);
      ZerosStayIff(x);
      MayHoldNext(false, zeros, samples[..n], 0, x, [x] + zeros);
      assert ([x] + zeros)[1..] == zeros && samples[..n] + [x] == samples;
      if MayHold(false, best, samples, 0) {
        var before, all := LastStep(false, best, samples, 0);
        ZerosStay(samples[..n], before);
        ZeroStays(x, all);
      }
    }
  }

  /** After the samples so far, ten zeros are all that the first window's minima can be. */
  ghost predicate OnlyZerosAfter(samples: seq<nat>, n: nat)
    requires n <= |samples|
  {
    forall best :: MayHold(false, best, samples[..n], 0) ==> best == Same(10, 0)
  }

  lemma NotOnlyZeros(samples: seq<nat>, i: nat)
    requires AllUpTo(samples, U64 - 1) && i < |samples| && !Comparable(samples[i], 0)
    requires forall j :: 0 <= j < i ==> Comparable(samples[j], 0)
    ensures !OnlyZerosAfter(samples, i + 1)
  {
    var zeros, x := Same(10, 0), samples[i];
    ZerosStay(samples[..i], zeros);
    ZerosStayIff(x);
    MayHoldNext(false, zeros, samples[..i], 0, x, zeros + [x]);
    assert samples[..i + 1] == samples[..i] + [x] && (zeros + [x])[1..][9] == x;
  }

  /** All through the first window the ten minima are zeros, whatever sort is used, if and only if the
      comparator can compare every sample with zero. */
  lemma FirstMinimaAreZeroIff(samples: seq<nat>)
    requires AllUpTo(samples, U64 - 1)
    ensures (forall n :: 0 <= n <= |samples| ==> OnlyZerosAfter(samples, n))
       <==> (forall i :: 0 <= i < |samples| ==> Comparable(samples[i], 0))
  {
    if forall i :: 0 <= i < |samples| ==> Comparable(samples[i], 0) {
      forall n, best | 0 <= n <= |samples| && MayHold(false, best, samples[..n], 0)
        ensures best == Same(10, 0)
      {
        ZerosStay(samples[..n], best);
      }
    } else {
      var i := FirstNotComparable(samples);
      NotOnlyZeros(samples, i);
    }
  }

  lemma {:induction false} FirstNotComparable(samples: seq<nat>) returns (i: nat)
    requires exists i :: 0 <= i < |samples| && !Comparable(samples[i], 0)
    ensures i < |samples| && !Comparable(samples[i], 0) && forall j :: 0 <= j < i ==> Comparable(samples[j], 0)
  {
    i := 0;
    while Comparable(samples[i], 0)
      decreases |samples| - i
      invariant i < |samples| && forall j :: 0 <= j < i ==> Comparable(samples[j], 0)
    {
      i := i + 1;
    }
  }

  lemma TwoOfThem(s: seq<nat>, i: nat, j: nat)
    requires i < j < |s| && s[i] == s[j]
    ensures multiset(s)[s[i]] >= 2
  {
    assert s == s[..j] + [s[j]] + s[j + 1..];
    assert s[i] in s[..j];
  }

  // One large sample.

  lemma ZerosAreNotBest(x: nat, best: seq<nat>, dropped: multiset<nat>)
    requires 0 < x && |best| == 10 && forall k :: 0 <= k < 10 ==> best[k] == 0
    ensures !IsBest(true, best, dropped, [x], 0)
  {
    assert x !in best;
    assert IsKept(best, dropped, [x], 0) ==> (multiset(best) + dropped)[x] == (multiset([x]) + Pads(0))[x];
    assert IsKept(best, dropped, [x], 0) ==> x in dropped;
  }

  lemma LowPart(y: nat, q: nat, r: nat)
    requires r < U32 && y == q * U32 + r
    ensures y % U32 == r
  {
  }

  lemma LowOfNegative(x: nat)
    requires x < U64 && 0 < x % U32
    ensures (0 - x) % U64 % U32 == U32 - x % U32
  {
    var q, r := x / U32, x % U32;
    assert (0 - x) % U64 == U64 - x;
    LowPart(U64 - x, U32 - 1 - q, U32 - r);
  }

  /** Such a sample is taken for a negative number, consistently. */
  lemma ZeroIsLarger(x: nat)
    requires x < U64 && x % U32 > INT_MAX + 1
    ensures Cmp(0, x) > 0 > Cmp(x, 0)
  {
    LowOfNegative(x);
    assert x % U64 == x;
  }

  /** Any sort puts it at its end of the array: first for the maxima, last for the minima. */
  lemma LargeSampleIsOutside(up: bool, x: nat, all: seq<nat>, k: nat)
    requires x < U64 && x % U32 > INT_MAX + 1 && k < 11
    requires |all| == 11 && multiset(all) == multiset{x} + Pads(0) && InComparatorOrder(up, all)
    ensures all[k] == if k == (if up then 0 else 10) then x else 0
  {
    ZeroIsLarger(x);
    var e := if up then 0 else 10;
    assert multiset(all)[x] == 1;
    assert all[k] in multiset(all) && all[e] in multiset(all);
    if k != e && all[k] == x {
      if all[e] == x {
        TwoOfThem(all, if up then 0 else k, if up then k else 10);
      }
    }
    if all[e] == 0 {
      OnlyZeros(all, x, e);
    }
  }

  lemma OnlyZeros(all: seq<nat>, x: nat, e: nat)
    requires e < |all| && multiset(all) == multiset{x} + Pads(0) && x > 0 && all[e] == 0
    ensures exists k :: 0 <= k < |all| && k != e && all[k] == x
  {
    assert x in multiset(all);
    assert x in all;
  }

  /** A sample above INT_MAX whose truncation is negative is dropped from the maxima, and the report
      of the window is ten zeros. */
  lemma LargeSampleIsLost(x: nat, all: seq<nat>, dropped: multiset<nat>)
    requires x < U64 && x % U32 > INT_MAX + 1
    requires |all| == 11 && multiset(all) == multiset{x} + Pads(0) && InComparatorOrder(true, all)
    ensures all == [x] + Same(10, 0) && !IsBest(true, all[1..], dropped, [x], 0)
  {
    forall k | 0 <= k < 11
      ensures all[k] == ([x] + Same(10, 0))[k]
    {
      LargeSampleIsOutside(true, x, all, k);
    }
    ZerosAreNotBest(x, all[1..], dropped);
  }

  /** Among the minima it is kept, and reported as the smallest. */
  lemma LargeSampleIsKept(x: nat, all: seq<nat>, dropped: multiset<nat>)
    requires x < U64 && x % U32 > INT_MAX + 1
    requires |all| == 11 && multiset(all) == multiset{x} + Pads(0) && InComparatorOrder(false, all)
    ensures all == Same(10, 0) + [x] && !IsBest(false, all[1..], dropped, [x], 0)
  {
    forall k | 0 <= k < 11
      ensures all[k] == (Same(10, 0) + [x])[k]
    {
      LargeSampleIsOutside(false, x, all, k);
    }
    assert all[1..][8] == 0 && all[1..][9] == x;
  }
}
