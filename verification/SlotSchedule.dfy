/** Downlink slot schedule of the gNB: the two-frame TDD table, the search for the next
    downlink slot, and the transmit opportunities that consecutive `rx_func` ticks produce.

    A tick is an absolute slot number: tick n is slot n % spf of frame n / spf. */
module SlotSchedule {
  import opened Options
  import Arith

  /** `downlink[k]` says whether table entry k (two frames of `spf` slots) is a downlink or a
      mixed slot. FDD is the table that is true everywhere. */
  datatype Tdd = Tdd(spf: nat, downlink: seq<bool>) {
    predicate Valid() {
      1 < spf && |downlink| == 2 * spf
    }

    /** nr_slot_select, reduced to the question both callers ask. */
    predicate IsDownlink(frame: nat, slot: nat)
      requires Valid() && slot < spf
    {
      var base := if frame % 2 == 0 then 0 else spf;
      downlink[base + slot]
    }

    predicate DownlinkTick(n: nat)
      requires Valid()
    {
      IsDownlink(n / spf, n % spf)
    }

    /** The table does not depend on the parity of the frame. */
    ghost predicate ParityFree()
      requires Valid()
    {
      forall s :: 0 <= s < spf ==> downlink[s] == downlink[spf + s]
    }

    ghost predicate HasDownlink()
      requires Valid()
    {
      exists s :: 0 <= s < spf && downlink[s]
    }
  }

  /** k is the first downlink tick after n. */
  ghost predicate FirstAfter(t: Tdd, n: nat, k: nat)
    requires t.Valid()
  {
    n < k && t.DownlinkTick(k) && forall m :: n < m < k ==> !t.DownlinkTick(m)
  }

  /** The value get_next_downlink_slot returns. The search goes from the slot after `frame, slot`
      up to and including slot 0 of frame + 2, where the function's AssertFatal stops the
      program (None). */
  function NextDownlinkSlot(t: Tdd, frame: nat, slot: nat): (r: Option<nat>)
    requires t.Valid() && slot < t.spf
    ensures r.Some? ==> r.value < t.spf
  {
    if slot + 1 == t.spf then SearchFrom(t, frame + 1, 0, frame + 2) else SearchFrom(t, frame, slot + 1, frame + 2)
  }

  function SearchFrom(t: Tdd, frame: nat, slot: nat, limit: nat): (r: Option<nat>)
    requires t.Valid() && slot < t.spf
    ensures r.Some? ==> r.value < t.spf
    decreases limit - frame, t.spf - slot
  {
    if t.IsDownlink(frame, slot) then Some(slot)
    else if limit <= frame then None
    else if slot + 1 == t.spf then SearchFrom(t, frame + 1, 0, limit)
    else SearchFrom(t, frame, slot + 1, limit)
  }

  /** The search loop of get_next_downlink_slot, with its frame and slot counters. */
  method GetNextDownlinkSlot(t: Tdd, nrFrame: nat, nrSlot: nat) returns (r: Option<nat>)
    requires t.Valid() && nrSlot < t.spf
    ensures r == NextDownlinkSlot(t, nrFrame, nrSlot)
  {
    var slot: nat, frame: nat := nrSlot, nrFrame;
    while true
      invariant slot < t.spf && frame < nrFrame + 2
      invariant NextDownlinkSlot(t, nrFrame, nrSlot)
             == if slot + 1 == t.spf then SearchFrom(t, frame + 1, 0, nrFrame + 2)
                else SearchFrom(t, frame, slot + 1, nrFrame + 2)
      decreases nrFrame + 2 - frame, t.spf - slot
    {
      slot := slot + 1;
      Arith.DivModUnique(slot, t.spf, if slot == t.spf then 1 else 0, if slot == t.spf then 0 else slot);
      if slot / t.spf != 0 {
        frame := frame + 1;
      }
      slot := slot % t.spf;
      if t.IsDownlink(frame, slot) {
        return Some(slot);
      }
      if !(frame < nrFrame + 2) {
        return None;
      }
    }
  }

  /** A found slot is the slot of the first downlink tick of the window. */
  lemma {:induction false} SearchFinds(t: Tdd, frame: nat, slot: nat, limit: nat, k: nat)
    requires t.Valid() && slot < t.spf && frame <= limit
    requires Arith.Times(frame, t.spf) + slot <= k <= Arith.Times(limit, t.spf)
    requires t.DownlinkTick(k)
    requires forall m :: Arith.Times(frame, t.spf) + slot <= m < k ==> !t.DownlinkTick(m)
    ensures SearchFrom(t, frame, slot, limit) == Some(k % t.spf)
    decreases limit - frame, t.spf - slot
  {
    Arith.TimesDivMod(frame, t.spf, slot);
    var n := Arith.Times(frame, t.spf) + slot;
    if k != n {
      assert !t.DownlinkTick(n);
      if slot + 1 == t.spf {
        SearchFinds(t, frame + 1, 0, limit, k);
      } else {
        SearchFinds(t, frame, slot + 1, limit, k);
      }
    }
  }

  lemma {:induction false} SearchFails(t: Tdd, frame: nat, slot: nat, limit: nat)
    requires t.Valid() && slot < t.spf && frame <= limit && (frame == limit ==> slot == 0)
    requires forall m :: Arith.Times(frame, t.spf) + slot <= m <= Arith.Times(limit, t.spf) ==> !t.DownlinkTick(m)
    ensures SearchFrom(t, frame, slot, limit) == None
    decreases limit - frame, t.spf - slot
  {
    Arith.TimesDivMod(frame, t.spf, slot);
    var n := Arith.Times(frame, t.spf) + slot;
    assert frame < limit ==> Arith.Times(frame + 1, t.spf) <= Arith.Times(limit, t.spf) by {
      TimesGrows(frame + 1, limit, t.spf);
    }
    assert !t.DownlinkTick(n);
    if frame < limit {
      if slot + 1 == t.spf {
        SearchFails(t, frame + 1, 0, limit);
      } else {
        SearchFails(t, frame, slot + 1, limit);
      }
    }
  }

  lemma {:induction false} TimesGrows(a: nat, b: nat, n: nat)
    ensures a <= b ==> Arith.Times(a, n) <= Arith.Times(b, n)
    decreases b
  {
    if a < b {
      TimesGrows(a, b - 1, n);
    }
  }

  /** The search starts at the tick after the given one. */
  lemma SearchStart(t: Tdd, frame: nat, slot: nat) returns (f: nat, s: nat)
    requires t.Valid() && slot < t.spf
    ensures s < t.spf && f <= frame + 1 && Arith.Times(f, t.spf) + s == Arith.Times(frame, t.spf) + slot + 1
    ensures NextDownlinkSlot(t, frame, slot) == SearchFrom(t, f, s, frame + 2)
  {
    f, s := if slot + 1 == t.spf then frame + 1 else frame, if slot + 1 == t.spf then 0 else slot + 1;
    assert Arith.Times(frame + 1, t.spf) == Arith.Times(frame, t.spf) + t.spf;
  }

  /** For any table: the search gives the slot of the first downlink tick after the given one, if it comes
      no later than slot 0 of the frame after next. */
  lemma NextIsFirstInWindow(t: Tdd, frame: nat, slot: nat, k: nat)
    requires t.Valid() && slot < t.spf && FirstAfter(t, Arith.Times(frame, t.spf) + slot, k)
    requires k <= Arith.Times(frame + 2, t.spf)
    ensures NextDownlinkSlot(t, frame, slot) == Some(k % t.spf)
  {
    var f, s := SearchStart(t, frame, slot);
    SearchFinds(t, f, s, frame + 2, k);
  }

  /** Without a downlink tick up to there it stops the program. */
  lemma NoneInWindow(t: Tdd, frame: nat, slot: nat)
    requires t.Valid() && slot < t.spf
    requires forall k :: Arith.Times(frame, t.spf) + slot < k <= Arith.Times(frame + 2, t.spf) ==> !t.DownlinkTick(k)
    ensures NextDownlinkSlot(t, frame, slot) == None
  {
    var f, s := SearchStart(t, frame, slot);
    SearchFails(t, f, s, frame + 2);
  }

  /** For a parity-free table with a downlink slot the search always ends, and gives the slot of
      the first downlink tick after the given one. */
  lemma NextIsFirstAfter(t: Tdd, frame: nat, slot: nat, k: nat)
    requires t.Valid() && t.ParityFree() && t.HasDownlink()
    requires slot < t.spf && FirstAfter(t, Arith.Times(frame, t.spf) + slot, k)
    ensures NextDownlinkSlot(t, frame, slot) == Some(k % t.spf)
  {
    var m := DownlinkTickIn(t, frame + 1);
    assert k <= m;
    assert Arith.Times(frame + 2, t.spf) == Arith.Times(frame + 1, t.spf) + t.spf;
    NextIsFirstInWindow(t, frame, slot, k);
  }

  lemma DownlinkTickIn(t: Tdd, frame: nat) returns (m: nat)
    requires t.Valid() && t.ParityFree() && t.HasDownlink()
    ensures Arith.Times(frame, t.spf) <= m < Arith.Times(frame, t.spf) + t.spf
    ensures t.DownlinkTick(m)
  {
    var s :| 0 <= s < t.spf && t.downlink[s];
    m := Arith.Times(frame, t.spf) + s;
    Arith.TimesDivMod(frame, t.spf, s);
    assert t.downlink[t.spf + s];
  }

  /** rx_func asks for the type of slot_tx with the frame number of the received slot, while
      the scheduler asks with the transmit frame, `ahead` slots later. */
  predicate RxSaysDownlink(t: Tdd, ahead: nat, n: nat)
    requires t.Valid() && ahead <= n
  {
    t.IsDownlink((n - ahead) / t.spf, n % t.spf)
  }

  /** The two questions have the same answer on every tick exactly when the table agrees with
      itself on the first `ahead` slots of even and odd frames. */
  lemma RxAgreesWithScheduler(t: Tdd, ahead: nat)
    requires t.Valid() && ahead <= t.spf
    ensures (forall n: nat :: ahead <= n ==> (RxSaysDownlink(t, ahead, n) == t.DownlinkTick(n)))
       <==> (forall s :: 0 <= s < ahead ==> t.downlink[s] == t.downlink[t.spf + s])
  {
    if forall s :: 0 <= s < ahead ==> t.downlink[s] == t.downlink[t.spf + s] {
      forall n: nat | ahead <= n
        ensures RxSaysDownlink(t, ahead, n) == t.DownlinkTick(n)
      {
        RxAgreesAt(t, ahead, n);
      }
    }
    if forall n: nat :: ahead <= n ==> RxSaysDownlink(t, ahead, n) == t.DownlinkTick(n) {
      forall s | 0 <= s < ahead
        ensures t.downlink[s] == t.downlink[t.spf + s]
      {
        SlotOfOddFrame(t, ahead, s);
        assert RxSaysDownlink(t, ahead, t.spf + s) == t.DownlinkTick(t.spf + s);
      }
    }
  }

  lemma RxAgreesAt(t: Tdd, ahead: nat, n: nat)
    requires t.Valid() && ahead <= t.spf && ahead <= n
    requires n % t.spf < ahead ==> t.downlink[n % t.spf] == t.downlink[t.spf + n % t.spf]
    ensures RxSaysDownlink(t, ahead, n) == t.DownlinkTick(n)
  {
    RxFrame(t.spf, ahead, n);
  }

  /** On the first slots of frame 1 the two questions read the two halves of the table. */
  lemma SlotOfOddFrame(t: Tdd, ahead: nat, s: nat)
    requires t.Valid() && s < ahead <= t.spf
    ensures RxSaysDownlink(t, ahead, t.spf + s) == t.downlink[s] && t.DownlinkTick(t.spf + s) == t.downlink[t.spf + s]
  {
    Arith.TimesDivMod(1, t.spf, s);
    RxFrame(t.spf, ahead, t.spf + s);
  }

  /** The receive frame is the transmit frame, or the one before on the first `ahead` slots. */
  lemma RxFrame(spf: nat, ahead: nat, n: nat)
    requires 0 < spf && ahead <= spf && ahead <= n
    ensures n % spf < ahead ==> 0 < n / spf
    ensures (n - ahead) / spf == if n % spf < ahead then n / spf - 1 else n / spf
  {
    var f, s := n / spf, n % spf;
    Arith.DivModTimes(n, spf);
    if s < ahead {
      Arith.TimesDivMod(f - 1, spf, spf + s - ahead);
    } else {
      Arith.TimesDivMod(f, spf, s - ahead);
    }
  }
}
