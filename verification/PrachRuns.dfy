/** What the PRACH procedures promise over whole runs: when they indicate and what, which measurement
    feeds the noise floor, and which counters move. */
module PrachRuns {
  import opened Prach

  lemma OneCallMore(cfg: Config, st: State, calls: seq<Call>, c: Call)
    requires cfg.Valid() && st.Valid() && AllValid(calls) && c.Valid()
    ensures AllValid(calls + [c]) && Monolithic(cfg, st, calls + [c]) == Step(cfg, Monolithic(cfg, st, calls), c)
    ensures Legacy(calls + [c]) == Legacy(calls) + if c.br then [] else [c]
  {
    assert (calls + [c])[..|calls|] == calls;
  }

  // Indications.

  /** The frame that began the latest group of n receptions; before any reception, what was there. */
  function LatestGroup(frames: seq<nat>, n: nat, before: nat): nat
    requires 0 < n
  {
    if frames == [] then before else frames[(|frames| - 1) / n * n]
  }

  /** Enough legacy calls were made, and the energy is above the floor by more than the threshold. */
  predicate IsHeard(st: State, calls: seq<Call>, m: Measurement, threshold: int) {
    WARM_UP <= |Legacy(calls)| && st.i0 + threshold < m.energy
  }

  lemma {:induction false} UnreceivedIsKept(cfg: Config, st: State, calls: seq<Call>, i: nat)
    requires cfg.Valid() && st.Valid() && AllValid(calls) && i < LEVELS && Received(cfg, calls, i) == []
    ensures var r := Monolithic(cfg, st, calls);
            r.repetition[i] == st.repetition[i] && r.firstFrame[i] == st.firstFrame[i]
  {
    if calls != [] {
      var n := |calls| - 1;
      UnreceivedIsKept(cfg, st, calls[..n], i);
    }
  }

  lemma {:induction false} DisabledReceivesNothing(cfg: Config, calls: seq<Call>, i: nat)
    requires cfg.Valid() && AllValid(calls) && i < LEVELS && !cfg.enabled[i]
    ensures Received(cfg, calls, i) == []
  {
    if calls != [] {
      DisabledReceivesNothing(cfg, calls[..|calls| - 1], i);
    }
  }

  /** A level that is not enabled never counts. */
  lemma DisabledIsKept(cfg: Config, st: State, calls: seq<Call>, i: nat)
    requires cfg.Valid() && st.Valid() && AllValid(calls) && i < LEVELS && !cfg.enabled[i]
    ensures var r := Monolithic(cfg, st, calls);
            r.repetition[i] == st.repetition[i] && r.firstFrame[i] == st.firstFrame[i]
  {
    DisabledReceivesNothing(cfg, calls, i);
    UnreceivedIsKept(cfg, st, calls, i);
  }

  /** The first frame of level 0, over any run. */
  lemma FirstFrameIs(cfg: Config, st: State, calls: seq<Call>)
    requires cfg.Valid() && st.Valid() && AllValid(calls) && cfg.enabled[0] && st.repetition[0] == 0
    ensures Monolithic(cfg, st, calls).firstFrame[0] ==
              LatestGroup(Received(cfg, calls, 0), cfg.repetitions[0], st.firstFrame[0])
  {
    RepetitionsAreGrouped(cfg, st, calls, 0);
    if Received(cfg, calls, 0) == [] {
      UnreceivedIsKept(cfg, st, calls, 0);
    }
  }

  /** After any run an eMTC call indicates once, with the RA-RNTI of the group that this call belongs to,
      if and only if 100 legacy calls were made, level 0 is enabled and the energy is above the floor by
      more than the threshold; floor and warm-up counter stay. */
  lemma BrIndicatesIff(cfg: Config, st: State, calls: seq<Call>, c: Call)
    requires cfg.Valid() && st.Valid() && st.counter == 0 && st.repetition[0] == 0 && AllValid(calls) && c.Valid() && c.br
    ensures AllValid(calls + [c])
    ensures var s, r := Monolithic(cfg, st, calls), Monolithic(cfg, st, calls + [c]);
            var first := LatestGroup(Received(cfg, calls + [c], 0), if cfg.enabled[0] then cfg.repetitions[0] else 1, st.firstFrame[0]);
            && r.i0 == s.i0 && r.counter == s.counter
            && r.events == s.events +
                 if cfg.enabled[0] && IsHeard(s, calls, c.m, cfg.thresholdBr)
                 then [RachBr(c.m.preamble, c.m.delay, 1 + c.subframe + 60 * (first % 40))]
                 else []
  {
    OneCallMore(cfg, st, calls, c);
    WarmUp(cfg, st, calls);
    var s := Monolithic(cfg, st, calls);
    assert s.events + [] == s.events;
    if cfg.enabled[0] {
      FirstFrameIs(cfg, st, calls + [c]);
    }
  }

  /** After any run a legacy call indicates once and leaves the floor, or updates the floor with its
      average and indicates nothing: the former if and only if 100 legacy calls were made and the energy is
      above the floor by more than the threshold. The eMTC counters stay. */
  lemma LegacyIndicatesIff(cfg: Config, st: State, calls: seq<Call>, c: Call)
    requires cfg.Valid() && st.Valid() && st.counter == 0 && AllValid(calls) && c.Valid() && !c.br
    ensures AllValid(calls + [c])
    ensures var s, r := Monolithic(cfg, st, calls), Monolithic(cfg, st, calls + [c]);
            && r.repetition == s.repetition && r.firstFrame == s.firstFrame
            && if IsHeard(s, calls, c.m, cfg.threshold)
               then r.i0 == s.i0 && r.events == s.events + [Rach(16 * c.frame + c.subframe, c.m.preamble, c.m.delay, 1 + c.subframe)]
               else r.i0 == Filter(s.i0, c.m.avg) && r.events == s.events
  {
    OneCallMore(cfg, st, calls, c);
    WarmUp(cfg, st, calls);
  }

  // The noise floor.

  ghost predicate AverageIs(calls: seq<Call>, a: nat) {
    forall j :: 0 <= j < |calls| && !calls[j].br ==> calls[j].m.avg == a
  }

  /** Legacy indications of a run. */
  function NewRach(st: State, r: State): int { |RachEvents(r.events)| - |RachEvents(st.events)| }

  lemma StepCounts(cfg: Config, s: State, c: Call)
    requires cfg.Valid() && s.Valid() && c.Valid()
    ensures var r := Step(cfg, s, c);
            && 0 <= NewRach(s, r) <= (if c.br then 0 else 1)
            && r.i0 == if c.br || NewRach(s, r) == 1 then s.i0 else Filter(s.i0, c.m.avg)
  {
    if c.br {
      BrKeepsSame(cfg, s, c);
    } else {
      OneMoreEvent(s.events, Rach(c.frame * 16 + c.subframe, c.m.preamble, c.m.delay, 1 + c.subframe));
    }
  }

  /** The floor after k updates and one call more. */
  lemma FloorOfStep(cfg: Config, x: nat, s: State, c: Call, a: nat, k: nat)
    requires cfg.Valid() && s.Valid() && c.Valid() && (!c.br ==> c.m.avg == a) && s.i0 == Filtered(x, a, k)
    ensures var r := Step(cfg, s, c); r.i0 == Filtered(x, a, k + (if c.br then 0 else 1) - NewRach(s, r))
  {
    StepCounts(cfg, s, c);
  }

  /** Legacy calls of a run that indicated nothing. */
  function Quiet(cfg: Config, st: State, calls: seq<Call>): int
    requires cfg.Valid() && st.Valid() && AllValid(calls)
  {
    |Legacy(calls)| - NewRach(st, Monolithic(cfg, st, calls))
  }

  lemma QuietOneMore(cfg: Config, st: State, calls: seq<Call>)
    requires cfg.Valid() && st.Valid() && AllValid(calls) && calls != []
    ensures var n := |calls| - 1;
            var s, c := Monolithic(cfg, st, calls[..n]), calls[n];
            && Monolithic(cfg, st, calls) == Step(cfg, s, c)
            && Quiet(cfg, st, calls) ==
                 Quiet(cfg, st, calls[..n]) + (if c.br then 0 else 1) - NewRach(s, Step(cfg, s, c)) >= Quiet(cfg, st, calls[..n])
            && NewRach(st, Step(cfg, s, c)) >= NewRach(st, s)
  {
    var n := |calls| - 1;
    StepCounts(cfg, Monolithic(cfg, st, calls[..n]), calls[n]);
  }

  /** Over any run whose legacy calls have one average, whatever their energies and however eMTC calls are
      mixed in: every legacy call that indicates nothing is one update of the floor with that average, and
      nothing else changes it. */
  lemma {:induction false} FloorIsFiltered(cfg: Config, st: State, calls: seq<Call>, a: nat)
    requires cfg.Valid() && st.Valid() && AllValid(calls) && AverageIs(calls, a)
    ensures 0 <= NewRach(st, Monolithic(cfg, st, calls)) && 0 <= Quiet(cfg, st, calls)
    ensures Monolithic(cfg, st, calls).i0 == Filtered(st.i0, a, Quiet(cfg, st, calls))
    decreases |calls|
  {
    if calls != [] {
      var n := |calls| - 1;
      FloorIsFiltered(cfg, st, calls[..n], a);
      QuietOneMore(cfg, st, calls);
      FloorOfStep(cfg, st.i0, Monolithic(cfg, st, calls[..n]), calls[n], a, Quiet(cfg, st, calls[..n]));
    }
  }

  /** The floor is in the band below the average once as many legacy calls indicated nothing as it was
      away, and stays there. */
  lemma FloorSettles(cfg: Config, st: State, calls: seq<Call>, a: nat)
    requires cfg.Valid() && st.Valid() && AllValid(calls) && AverageIs(calls, a)
    requires Distance(st.i0, a) <= Quiet(cfg, st, calls)
    ensures InBand(Monolithic(cfg, st, calls).i0, a)
  {
    FloorIsFiltered(cfg, st, calls, a);
    FilterSettles(st.i0, a, Quiet(cfg, st, calls));
  }
}
