/** The hypotheses of the transmit pipeline theorems, derived from how rx_func is driven: one
    call for every consecutive slot. */
module TxSchedule {
  import opened Options
  import Arith
  import opened SlotSchedule
  import opened TxPipeline
  import TxSafety
  import TxLiveness

  /** The numbers from lo up to hi that satisfy a predicate. */
  function Select(p: nat -> bool, lo: nat, hi: nat): (r: seq<nat>)
    ensures forall i :: 0 <= i < |r| ==> lo <= r[i] < hi && p(r[i])
  {
    if hi <= lo then [] else Select(p, lo, hi - 1) + if p(hi - 1) then [hi - 1] else []
  }

  lemma {:induction false} NoneAfterLast(p: nat -> bool, lo: nat, hi: nat, m: nat)
    requires m < hi && var r := Select(p, lo, hi); r != [] && r[|r| - 1] < m
    ensures !p(m)
  {
    var r, before := Select(p, lo, hi), Select(p, lo, hi - 1);
    assert p(hi - 1) ==> r == before + [hi - 1];
    assert r == before;
    if m < hi - 1 {
      NoneAfterLast(p, lo, hi - 1, m);
    }
  }

  /** The selection up to hi is that up to hi - 1, or that and hi - 1. */
  lemma SelectStep(p: nat -> bool, lo: nat, hi: nat)
    requires lo < hi
    ensures Select(p, lo, hi) == if p(hi - 1) then Select(p, lo, hi - 1) + [hi - 1] else Select(p, lo, hi - 1)
  {
  }

  lemma {:induction false} NoneBetween(p: nat -> bool, lo: nat, hi: nat, i: nat, m: nat)
    requires i + 1 < |Select(p, lo, hi)|
    ensures var r := Select(p, lo, hi); r[i] < r[i + 1] && (r[i] < m < r[i + 1] ==> !p(m))
    decreases hi
  {
    var before := Select(p, lo, hi - 1);
    SelectStep(p, lo, hi);
    if i + 1 < |before| {
      NoneBetween(p, lo, hi - 1, i, m);
    } else if before[i] < m < hi - 1 {
      NoneAfterLast(p, lo, hi - 1, m);
    }
  }

  /** Neighbours in the selection have no selected number between them. */
  lemma SelectIsAdjacent(p: nat -> bool, lo: nat, hi: nat)
    ensures var r := Select(p, lo, hi);
            && (forall i :: 0 <= i < |r| - 1 ==> r[i] < r[i + 1])
            && (forall i, m :: 0 <= i < |r| - 1 && r[i] < m < r[i + 1] ==> !p(m))
  {
    var r := Select(p, lo, hi);
    forall i | 0 <= i < |r| - 1
      ensures r[i] < r[i + 1]
    {
      NoneBetween(p, lo, hi, i, 0);
    }
    forall i, m | 0 <= i < |r| - 1 && r[i] < m < r[i + 1]
      ensures !p(m)
    {
      NoneBetween(p, lo, hi, i, m);
    }
  }

  /** Whether rx_func hands a job over at a tick. */
  predicate HandsOver(t: Tdd, continuous: bool, n: nat)
    requires t.Valid()
  {
    continuous || t.DownlinkTick(n)
  }

  /** The ticks at which rx_func hands a job over. */
  function Ticks(t: Tdd, continuous: bool, lo: nat, hi: nat): (r: seq<nat>)
    requires t.Valid()
  {
    Select((n: nat) => t.Valid() && HandsOver(t, continuous, n), lo, hi)
  }

  lemma TicksAreAdjacent(t: Tdd, continuous: bool, lo: nat, hi: nat)
    requires t.Valid()
    ensures var r := Ticks(t, continuous, lo, hi);
            && (forall i :: 0 <= i < |r| ==> HandsOver(t, continuous, r[i]))
            && (forall i :: 0 <= i < |r| - 1 ==> r[i] < r[i + 1])
            && (forall i, m :: 0 <= i < |r| - 1 && r[i] < m < r[i + 1] ==> !HandsOver(t, continuous, m))
  {
    var p := (n: nat) => t.Valid() && HandsOver(t, continuous, n);
    SelectIsAdjacent(p, lo, hi);
    assert forall n: nat :: p(n) == HandsOver(t, continuous, n);
    assert Ticks(t, continuous, lo, hi) == Select(p, lo, hi);
  }

  lemma {:induction false} SelectIff(p: nat -> bool, lo: nat, hi: nat, n: nat)
    ensures n in Select(p, lo, hi) <==> lo <= n < hi && p(n)
  {
    if lo < hi {
      SelectIff(p, lo, hi - 1, n);
      SelectStep(p, lo, hi);
    }
  }

  /** Every tick with a downlink slot is among them, with continuous transmission every tick, and no
      other. */
  lemma TickIff(t: Tdd, continuous: bool, lo: nat, hi: nat, n: nat)
    requires t.Valid()
    ensures n in Ticks(t, continuous, lo, hi) <==> lo <= n < hi && (continuous || t.DownlinkTick(n))
  {
    SelectIff((n: nat) => t.Valid() && HandsOver(t, continuous, n), lo, hi, n);
  }

  /** A job handed over at tick `a` is followed by the one at tick `b`. */
  lemma NextTick(t: Tdd, continuous: bool, a: nat, b: nat)
    requires t.Valid() && a < b && HandsOver(t, continuous, a) && HandsOver(t, continuous, b)
    requires forall m :: a < m < b ==> !HandsOver(t, continuous, m)
    ensures if continuous then b == a + 1 else FirstAfter(t, a, b)
  {
    assert a + 1 < b ==> !HandsOver(t, continuous, a + 1);
    if !continuous {
      forall m | a < m < b
        ensures !t.DownlinkTick(m)
      {
        assert !HandsOver(t, continuous, m);
      }
    }
  }

  /** The frame counter wraps at 1024; the time stamp does not. */
  function JobAt(t: Tdd, stamp: nat -> nat, n: nat): (j: Job)
    requires t.Valid()
  {
    Job(n / t.spf % 1024, n % t.spf, stamp(n))
  }

  /** A job says its tick modulo the 1024 frames. */
  lemma JobIsTick(t: Tdd, stamp: nat -> nat, n: nat)
    requires t.Valid()
    ensures var j := JobAt(t, stamp, n);
            && j.frame < 1024 && j.slot < t.spf && j.timestamp == stamp(n)
            && n == Arith.Times(n / t.spf, t.spf) + j.slot && j.frame == n / t.spf % 1024
  {
    Arith.DivModTimes(n, t.spf);
  }

  /** What rx_func hands over when it is called for the ticks lo up to hi. */
  function ConfigOf(t: Tdd, continuous: bool, stamp: nat -> nat, lo: nat, hi: nat): (c: Config)
    requires t.Valid()
    ensures |c.plan| == |Ticks(t, continuous, lo, hi)|
  {
    var ticks := Ticks(t, continuous, lo, hi);
    Config(t, continuous,
           seq(|ticks|, i requires 0 <= i < |ticks| => Entry(JobAt(t, stamp, ticks[i]), t.DownlinkTick(ticks[i]))))
  }

  /** With a parity-free table the search does not depend on the frame. */
  lemma {:induction false} SearchIgnoresFrame(t: Tdd, f: nat, g: nat, slot: nat, a: nat, b: nat)
    requires t.Valid() && t.ParityFree() && slot < t.spf && a - f == b - g
    ensures SearchFrom(t, f, slot, a) == SearchFrom(t, g, slot, b)
    decreases a - f, t.spf - slot
  {
    assert t.IsDownlink(f, slot) == t.IsDownlink(g, slot);
    if !t.IsDownlink(f, slot) && f < a {
      if slot + 1 == t.spf {
        SearchIgnoresFrame(t, f + 1, g + 1, 0, a, b);
      } else {
        SearchIgnoresFrame(t, f, g, slot + 1, a, b);
      }
    }
  }

  lemma NextIgnoresFrame(t: Tdd, f: nat, g: nat, slot: nat)
    requires t.Valid() && t.ParityFree() && slot < t.spf
    ensures NextDownlinkSlot(t, f, slot) == NextDownlinkSlot(t, g, slot)
  {
    if slot + 1 == t.spf {
      SearchIgnoresFrame(t, f + 1, g + 1, 0, f + 2, g + 2);
    } else {
      SearchIgnoresFrame(t, f, g, slot + 1, f + 2, g + 2);
    }
  }

  lemma NextTickSlot(n: nat, spf: nat)
    requires 1 < spf
    ensures (n % spf + 1) % spf == (n + 1) % spf
  {
    var q, r := n / spf, n % spf;
    Arith.DivModTimes(n, spf);
    if r + 1 < spf {
      Arith.TimesDivMod(q, spf, r + 1);
      Arith.TimesDivMod(0, spf, r + 1);
    } else {
      Arith.TimesDivMod(q + 1, spf, 0);
      Arith.TimesDivMod(1, spf, 0);
    }
  }

  /** The first downlink tick after n, within two frames. */
  lemma SomeFirstAfter(t: Tdd, n: nat) returns (k: nat)
    requires t.Valid() && t.ParityFree() && t.HasDownlink()
    ensures FirstAfter(t, n, k)
  {
    Arith.DivModTimes(n, t.spf);
    var m := DownlinkTickIn(t, n / t.spf + 1);
    k := n + 1;
    while !t.DownlinkTick(k)
      invariant n < k <= m && forall j :: n < j < k ==> !t.DownlinkTick(j)
      decreases m - k
    {
      k := k + 1;
    }
  }

  lemma NextAfterTick(t: Tdd, stamp: nat -> nat, n: nat, k: nat)
    requires t.Valid() && t.ParityFree() && t.HasDownlink() && FirstAfter(t, n, k)
    ensures NextDownlinkSlot(t, JobAt(t, stamp, n).frame, JobAt(t, stamp, n).slot) == Some(k % t.spf)
  {
    Arith.DivModTimes(n, t.spf);
    NextIsFirstAfter(t, n / t.spf, n % t.spf, k);
    NextIgnoresFrame(t, n / t.spf, n / t.spf % 1024, n % t.spf);
  }

  lemma NextSlotAfter(c: Config, stamp: nat -> nat, a: nat, b: nat)
    requires c.tdd.Valid() && c.tdd.ParityFree() && c.tdd.HasDownlink()
    requires if c.continuous then b == a + 1 else FirstAfter(c.tdd, a, b)
    ensures c.NextSlot(JobAt(c.tdd, stamp, a)) == Some(b % c.tdd.spf)
  {
    if c.continuous {
      NextTickSlot(a, c.tdd.spf);
    } else {
      NextAfterTick(c.tdd, stamp, a, b);
    }
  }

  /** Driving rx_func slot by slot makes the thread's next_tx_slot right for every job, whatever
      the first slot and however long the run. */
  lemma ScheduleIsChained(t: Tdd, continuous: bool, stamp: nat -> nat, lo: nat, hi: nat)
    requires t.Valid() && t.ParityFree() && t.HasDownlink()
    ensures var c := ConfigOf(t, continuous, stamp, lo, hi); c.Valid() && Chained(c) && Continues(c)
  {
    var c := ConfigOf(t, continuous, stamp, lo, hi);
    var ticks := Ticks(t, continuous, lo, hi);
    TicksAreAdjacent(t, continuous, lo, hi);
    forall i | 0 <= i < |c.plan| - 1
      ensures c.NextSlot(c.plan[i].job) == Some(c.plan[i + 1].job.slot)
    {
      NextTick(t, continuous, ticks[i], ticks[i + 1]);
      NextSlotAfter(c, stamp, ticks[i], ticks[i + 1]);
    }
    forall i | 0 <= i < |c.plan|
      ensures c.NextSlot(c.plan[i].job).Some?
    {
      var k := SomeFirstAfter(t, ticks[i]);
      NextSlotAfter(c, stamp, ticks[i], if continuous then ticks[i] + 1 else k);
    }
  }

  /** A frame has at least two downlink slots. */
  ghost predicate TwoDownlinkSlots(t: Tdd)
    requires t.Valid()
  {
    exists a, b :: 0 <= a < b < t.spf && t.downlink[a] && t.downlink[b]
  }

  /** The next downlink tick has the same slot number exactly when the frame has one downlink
      slot only. */
  lemma SameSlotIff(t: Tdd, n: nat, k: nat)
    requires t.Valid() && t.ParityFree() && t.DownlinkTick(n) && FirstAfter(t, n, k)
    ensures n % t.spf == k % t.spf <==> !TwoDownlinkSlots(t)
  {
    var s := n % t.spf;
    if TwoDownlinkSlots(t) {
      var a, b :| 0 <= a < b < t.spf && t.downlink[a] && t.downlink[b];
      var m := OtherSlot(t, n, if a == s then b else a);
      assert n < k <= m && m < n + t.spf;
      CloseTicksDiffer(t.spf, n, k);
    } else {
      var o := k % t.spf;
      assert t.downlink[o] && t.downlink[s];
    }
  }

  /** The next tick of another downlink slot is less than a frame away. */
  lemma OtherSlot(t: Tdd, n: nat, o: nat) returns (m: nat)
    requires t.Valid() && t.ParityFree() && o < t.spf && t.downlink[o] && o != n % t.spf
    ensures t.DownlinkTick(m) && n < m < n + t.spf
  {
    var f, s := n / t.spf, n % t.spf;
    Arith.DivModTimes(n, t.spf);
    m := if s < o then Arith.Times(f, t.spf) + o else Arith.Times(f + 1, t.spf) + o;
    Arith.TimesDivMod(if s < o then f else f + 1, t.spf, o);
  }

  lemma CloseTicksDiffer(spf: nat, n: nat, k: nat)
    requires 1 < spf && n < k < n + spf
    ensures n % spf != k % spf
  {
    Arith.DivModTimes(n, spf);
    var f, s := n / spf, n % spf;
    if s + (k - n) < spf {
      Arith.TimesDivMod(f, spf, s + (k - n));
    } else {
      Arith.TimesDivMod(f + 1, spf, s + (k - n) - spf);
    }
  }

  /** Neighbouring jobs have different slot numbers exactly when the frame has two downlink
      slots or transmission is continuous (or fewer than three jobs are handed over). */
  lemma NeighboursDifferIff(t: Tdd, continuous: bool, stamp: nat -> nat, lo: nat, hi: nat)
    requires t.Valid() && t.ParityFree() && t.HasDownlink()
    ensures var c := ConfigOf(t, continuous, stamp, lo, hi);
            NeighboursDiffer(c) <==> (continuous || TwoDownlinkSlots(t) || |c.plan| < 3)
  {
    var c := ConfigOf(t, continuous, stamp, lo, hi);
    var ticks := Ticks(t, continuous, lo, hi);
    TicksAreAdjacent(t, continuous, lo, hi);
    forall i | 1 <= i < |c.plan| - 1
      ensures c.plan[i].job.slot != c.plan[i + 1].job.slot <==> (continuous || TwoDownlinkSlots(t))
    {
      NextTick(t, continuous, ticks[i], ticks[i + 1]);
      if continuous {
        CloseTicksDiffer(t.spf, ticks[i], ticks[i + 1]);
      } else {
        SameSlotIff(t, ticks[i], ticks[i + 1]);
      }
    }
    if !continuous && !TwoDownlinkSlots(t) && 3 <= |c.plan| {
      assert c.plan[1].job.slot == c.plan[2].job.slot;
    }
  }

  /** The monolithic gNB with two downlink slots a frame, or transmitting continuously: in every
      run whose first pulled job is the first one handed over, the radio gets the slots in order,
      and a run that cannot go on has sent them all. */
  lemma RadioGetsEverySlot(t: Tdd, continuous: bool, stamp: nat -> nat, lo: nat, hi: nat, steps: seq<Step>)
    requires t.Valid() && t.ParityFree() && t.HasDownlink() && (continuous || TwoDownlinkSlots(t))
    requires ConfigOf(t, continuous, stamp, lo, hi).Valid()
    requires IsRun(ConfigOf(t, continuous, stamp, lo, hi), steps)
    requires var c := ConfigOf(t, continuous, stamp, lo, hi); StartsInOrder(c, After(c, steps))
    ensures var c := ConfigOf(t, continuous, stamp, lo, hi);
            var s := After(c, steps);
            && s.sent <= c.Jobs() && s.faults == []
            && (TxLiveness.Stuck(c, s) ==> s.sent == c.Jobs())
  {
    var c := ConfigOf(t, continuous, stamp, lo, hi);
    ScheduleIsChained(t, continuous, stamp, lo, hi);
    NeighboursDifferIff(t, continuous, stamp, lo, hi);
    TxSafety.RunKeepsInv(c, steps);
    if TxLiveness.Stuck(c, After(c, steps)) {
      TxLiveness.AllSentWhenStuck(c, steps);
    }
  }
}
