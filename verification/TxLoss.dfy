/** When the transmit pipeline loses an element, exactly, over every run of every configuration. */
module TxLoss {
  import opened Options
  import opened TxPipeline
  import opened TxSafety
  import TxLiveness

  /** Elements in the six places. */
  function Elements(s: State): nat {
    |s.free| + |s.filled| + |s.pool| + |s.out| + |Held(s)| + |InHand(s)|
  }

  /** How often the thread took the branch of its first error message. */
  function Mistakes(faults: seq<Fault>): nat {
    if faults == [] then 0 else Mistakes(faults[..|faults| - 1]) + if faults[|faults| - 1] == OrderMistake then 1 else 0
  }

  lemma MoreFaults(faults: seq<Fault>, f: Fault)
    ensures Mistakes(faults + [f]) == Mistakes(faults) + if f == OrderMistake then 1 else 0
  {
    assert (faults + [f])[..|faults|] == faults;
  }

  lemma {:induction false} NoMistakes(faults: seq<Fault>)
    ensures Mistakes(faults) == 0 <==> OrderMistake !in faults
  {
    if faults != [] {
      NoMistakes(faults[..|faults| - 1]);
      assert faults == faults[..|faults| - 1] + [faults[|faults| - 1]];
    }
  }

  /** No element is in two places, and there are no others than the two. */
  ghost predicate Unique(s: State) {
    Places(s, 0) <= 1 && Places(s, 1) <= 1 && Places(s, 0) + Places(s, 1) == Elements(s)
  }

  /** Where the reserve is empty, and where it is not. */
  predicate ReserveFits(s: State) {
    match s.pc
    case Start => s.reserve.None?
    case PullFirst => s.reserve.None?
    case PullAfterMistake => s.reserve.None?
    case PullSecond => s.reserve.Some?
    case _ => true
  }

  ghost predicate Accounted(s: State) {
    s.pc.Aborted? || (ReserveFits(s) && Unique(s) && Elements(s) + Mistakes(s.faults) == 2)
  }

  /** Every element of every place is one of the two. */
  lemma OneOfTheTwo(s: State, t: Token)
    requires Unique(s) && (t in s.out || t in Held(s))
    ensures t.id <= 1
  {
    CountAtMostLength(s.free);
    CountAtMostLength(s.filled);
    CountAtMostLength(s.pool);
    CountAtMostLength(s.out);
    CountAtMostLength(Held(s));
    CountAtMostLength(InHand(s));
  }

  lemma OtherThreads(cfg: Config, s: State, step: Step)
    requires cfg.Valid() && Enabled(cfg, s, step) && !step.Reorder? && Accounted(s)
    ensures Accounted(Apply(cfg, s, step))
  {
    var s' := Apply(cfg, s, step);
    assert SameThread(s, s');
    assert Held(s') == Held(s) && InHand(s') == InHand(s);
    match step
    case Fill =>
      FillPlaces(cfg, s, 0);
      FillPlaces(cfg, s, 1);
    case Rx =>
      RxPlaces(cfg, s, 0);
      RxPlaces(cfg, s, 1);
    case Complete(k) =>
      CompleteMoves(cfg, s, k, 0, s.pool[k].job);
      CompleteMoves(cfg, s, k, 1, s.pool[k].job);
  }

  /** A pull into the reserve or into the hand. */
  lemma Pulls(s: State, s': State)
    requires Unique(s) && s.out != [] && s'.out == s.out[1..]
    requires s'.free == s.free && s'.filled == s.filled && s'.pool == s.pool
    requires || (Held(s') == Held(s) && InHand(s) == [] && InHand(s') == [s.out[0]])
             || (Held(s) == [] && Held(s') == [s.out[0]] && InHand(s') == InHand(s))
    ensures Unique(s') && Elements(s') == Elements(s)
  {
    PullMoves(s, s', 0, s.out[0].job);
    PullMoves(s, s', 1, s.out[0].job);
  }

  lemma CountOfOne(t: Token, id: nat)
    ensures Count([t], id) == One(t, id)
  {
    assert [t][1..] == [];
  }

  /** The reserve is sent: it moves from the reserve to the hand. */
  lemma TakesReserve(s: State, s': State)
    requires Unique(s) && s.pc.Head? && s.reserve.Some? && s' == s.(pc := Hand(s.reserve.value))
    ensures Unique(s') && Elements(s') == Elements(s)
  {
    var r := s.reserve.value;
    assert Held(s) == [r] && InHand(s) == [] && Held(s') == [] && InHand(s') == [r];
    assert Places(s', 0) == Places(s, 0) && Places(s', 1) == Places(s, 1);
  }

  /** The reserve is taken for a mistake: its element is dropped. */
  lemma DropsReserve(s: State, s': State)
    requires Unique(s) && s.pc.Head? && s.reserve.Some?
    requires s' == s.(reserve := None, pc := PullAfterMistake, faults := s'.faults)
    ensures Unique(s') && Elements(s') == Elements(s) - 1
  {
    var r := s.reserve.value;
    assert Held(s) == [r] && InHand(s) == [] && Held(s') == [] && InHand(s') == [];
    OneOfTheTwo(s, r);
    CountOfOne(r, 0);
    CountOfOne(r, 1);
    assert Places(s, 0) == Places(s', 0) + One(r, 0) && Places(s, 1) == Places(s', 1) + One(r, 1);
  }

  lemma HeadAccounted(cfg: Config, s: State)
    requires cfg.Valid() && s.pc.Head? && Accounted(s)
    ensures Accounted(ApplyReorder(cfg, s))
  {
    var s' := ApplyReorder(cfg, s);
    if s.reserve.None? {
      assert Held(s') == Held(s) && InHand(s') == InHand(s);
    } else if s.reserve.value.job.slot == s.expected {
      TakesReserve(s, s');
    } else {
      DropsReserve(s, s');
      MoreFaults(s.faults, OrderMistake);
    }
  }

  lemma StartAccounted(cfg: Config, s: State)
    requires cfg.Valid() && (s.pc.Start? || s.pc.PullAfterMistake?) && s.out != [] && Accounted(s)
    ensures Accounted(ApplyReorder(cfg, s))
  {
    Pulls(s, ApplyReorder(cfg, s));
  }

  lemma PullFirstAccounted(cfg: Config, s: State)
    requires cfg.Valid() && s.pc.PullFirst? && s.out != [] && Accounted(s)
    ensures Accounted(ApplyReorder(cfg, s))
  {
    Pulls(s, ApplyReorder(cfg, s));
    assert s.faults + [] == s.faults;
  }

  /** The reserve and what is pulled are different elements. */
  lemma PullsTheOther(s: State)
    requires Unique(s) && s.pc.PullSecond? && s.reserve.Some? && s.out != []
    ensures s.out[0].id != s.reserve.value.id
  {
    var t, r := s.out[0], s.reserve.value;
    assert Held(s) == [r];
    CountOfOne(r, t.id);
    OneOfTheTwo(s, t);
    assert Count(s.out, t.id) >= 1;
    assert Places(s, t.id) <= 1;
  }

  lemma HeldBeside(s: State, s': State)
    requires s.pc.PullSecond? && s.reserve.Some? && s.out != [] && s.out[0].id != s.reserve.value.id
    requires s'.reserve == s.reserve && s'.pc == Hand(s.out[0])
    ensures Held(s') == Held(s) && InHand(s) == [] && InHand(s') == [s.out[0]]
  {
  }

  /** What is pulled beside the reserve goes to the hand, with or without a complaint. */
  lemma SecondPulled(s: State, s': State, complaint: seq<Fault>)
    requires s.pc.PullSecond? && s.out != [] && Accounted(s) && (complaint == [] || complaint == [NoneIsGood])
    requires s' == s.(out := s.out[1..], pc := Hand(s.out[0]), faults := s.faults + complaint)
    ensures Accounted(s')
  {
    PullsTheOther(s);
    HeldBeside(s, s');
    Pulls(s, s');
    MoreFaults(s.faults, NoneIsGood);
    assert s.faults + [] == s.faults;
  }

  lemma PullSecondAccounted(cfg: Config, s: State)
    requires cfg.Valid() && s.pc.PullSecond? && s.out != [] && Accounted(s)
    ensures Accounted(ApplyReorder(cfg, s))
  {
    SecondPulled(s, ApplyReorder(cfg, s), if s.out[0].job.slot != s.expected then [NoneIsGood] else []);
  }

  lemma HandAccounted(cfg: Config, s: State)
    requires cfg.Valid() && s.pc.Hand? && Accounted(s)
    ensures Accounted(ApplyReorder(cfg, s))
  {
    if cfg.NextSlot(s.pc.token.job).Some? {
      ReleasePlaces(cfg, s, 0);
      ReleasePlaces(cfg, s, 1);
    }
  }

  lemma StepAccounted(cfg: Config, s: State, step: Step)
    requires cfg.Valid() && Enabled(cfg, s, step) && Accounted(s)
    ensures Accounted(Apply(cfg, s, step))
  {
    if !step.Reorder? {
      OtherThreads(cfg, s, step);
    } else {
      match s.pc
      case Start => StartAccounted(cfg, s);
      case Head => HeadAccounted(cfg, s);
      case PullFirst => PullFirstAccounted(cfg, s);
      case PullSecond => PullSecondAccounted(cfg, s);
      case PullAfterMistake => StartAccounted(cfg, s);
      case Hand(_) => HandAccounted(cfg, s);
      case Sending(_) =>
        var s' := ApplyReorder(cfg, s);
        assert Held(s') == Held(s) && InHand(s') == InHand(s);
    }
  }

  lemma {:induction false} RunAccounted(cfg: Config, steps: seq<Step>)
    requires cfg.Valid() && IsRun(cfg, steps)
    ensures Accounted(After(cfg, steps))
  {
    if steps != [] {
      var before := steps[..|steps| - 1];
      RunAccounted(cfg, before);
      StepAccounted(cfg, After(cfg, before), steps[|steps| - 1]);
    } else {
      InitAccounted();
    }
  }

  lemma InitAccounted()
    ensures Accounted(Init())
  {
    var free := Init().free;
    assert free[1..] == [free[1]] && free[1..][1..] == [];
    assert Count(free, 0) == 1 && Count(free, 1) == 1;
  }

  /** In every run of every configuration that the program survives, elements and mistakes add up to
      two: an element is lost if and only if the thread took its reserve for a mistake. */
  lemma LostIffMistake(cfg: Config, steps: seq<Step>)
    requires cfg.Valid() && IsRun(cfg, steps) && !After(cfg, steps).pc.Aborted?
    ensures var s := After(cfg, steps);
            Elements(s) + Mistakes(s.faults) == 2 && (Elements(s) < 2 <==> OrderMistake in s.faults)
  {
    RunAccounted(cfg, steps);
    NoMistakes(After(cfg, steps).faults);
  }

  /** What is lost stays lost. */
  lemma {:induction false} LostForGood(cfg: Config, steps: seq<Step>, more: seq<Step>)
    requires cfg.Valid() && IsRun(cfg, steps) && IsRun(cfg, steps + more) && !After(cfg, steps + more).pc.Aborted?
    ensures Elements(After(cfg, steps + more)) <= Elements(After(cfg, steps))
    decreases |more|
  {
    FaultsStay(cfg, steps, more);
    RunAccounted(cfg, steps);
    RunAccounted(cfg, steps + more);
  }

  lemma {:induction false} FaultsStay(cfg: Config, steps: seq<Step>, more: seq<Step>)
    requires cfg.Valid() && IsRun(cfg, steps + more)
    ensures IsRun(cfg, steps) && Mistakes(After(cfg, steps).faults) <= Mistakes(After(cfg, steps + more).faults)
    ensures After(cfg, steps).pc.Aborted? ==> After(cfg, steps + more).pc.Aborted?
    decreases |more|
  {
    if more == [] {
      assert steps + more == steps;
    } else {
      var n := |more| - 1;
      assert (steps + more)[..|steps + more| - 1] == steps + more[..n];
      FaultsStay(cfg, steps, more[..n]);
      FaultsGrow(cfg, After(cfg, steps + more[..n]), more[n]);
    }
  }

  lemma FaultsGrow(cfg: Config, s: State, step: Step)
    requires cfg.Valid() && Enabled(cfg, s, step)
    ensures Mistakes(s.faults) <= Mistakes(Apply(cfg, s, step).faults)
    ensures s.pc.Aborted? ==> Apply(cfg, s, step).pc.Aborted?
  {
    MoreFaults(s.faults, OrderMistake);
    MoreFaults(s.faults, StoredThenSecond);
    MoreFaults(s.faults, NoneIsGood);
    assert s.faults + [] == s.faults;
  }

  // The job that went with the element.

  /** Nothing on its way to the radio has this timestamp. */
  predicate Gone(s: State, timestamp: nat) {
    && s.rxAt > 0
    && (forall i :: 0 <= i < |s.pool| ==> s.pool[i].job.timestamp != timestamp)
    && (forall i :: 0 <= i < |s.out| ==> s.out[i].job.timestamp != timestamp)
    && (s.reserve.Some? ==> s.reserve.value.job.timestamp != timestamp)
    && (s.pc.Hand? ==> s.pc.token.job.timestamp != timestamp)
    && (s.pc.Sending? ==> s.pc.job.timestamp != timestamp)
    && (forall i :: 0 <= i < |s.sent| ==> s.sent[i].timestamp != timestamp)
  }

  /** Only the first job has the first timestamp. */
  predicate FirstIsUnique(cfg: Config) {
    forall i :: 0 < i < |cfg.plan| ==> cfg.plan[i].job.timestamp != cfg.plan[0].job.timestamp
  }

  lemma RxKeepsGone(cfg: Config, s: State)
    requires cfg.Valid() && Enabled(cfg, s, Rx) && FirstIsUnique(cfg) && cfg.plan != []
    requires Gone(s, cfg.plan[0].job.timestamp)
    ensures Gone(Apply(cfg, s, Rx), cfg.plan[0].job.timestamp)
  {
  }

  lemma ReorderKeepsGone(cfg: Config, s: State, timestamp: nat)
    requires cfg.Valid() && Enabled(cfg, s, Reorder) && Gone(s, timestamp)
    ensures Gone(ApplyReorder(cfg, s), timestamp)
  {
  }

  lemma StepKeepsGone(cfg: Config, s: State, step: Step)
    requires cfg.Valid() && Enabled(cfg, s, step) && FirstIsUnique(cfg) && cfg.plan != []
    requires Gone(s, cfg.plan[0].job.timestamp)
    ensures Gone(Apply(cfg, s, step), cfg.plan[0].job.timestamp)
  {
    match step
    case Rx => RxKeepsGone(cfg, s);
    case Reorder => ReorderKeepsGone(cfg, s, cfg.plan[0].job.timestamp);
    case _ =>
  }

  lemma {:induction false} GoneIsNeverSent(cfg: Config, steps: seq<Step>, more: seq<Step>)
    requires cfg.Valid() && FirstIsUnique(cfg) && cfg.plan != [] && IsRun(cfg, steps) && IsRun(cfg, steps + more)
    requires Gone(After(cfg, steps), cfg.plan[0].job.timestamp)
    ensures Gone(After(cfg, steps + more), cfg.plan[0].job.timestamp)
    decreases |more|
  {
    if more == [] {
      assert steps + more == steps;
    } else {
      var n := |more| - 1;
      assert (steps + more)[..|steps + more| - 1] == steps + more[..n];
      GoneIsNeverSent(cfg, steps, more[..n]);
      StepKeepsGone(cfg, After(cfg, steps + more[..n]), more[n]);
    }
  }

  /** A crossed start: from the run of TxLiveness on, however it goes on, the first job is never sent
      and the pipeline has one element. */
  lemma CrossedStartIsForGood(cfg: Config) returns (steps: seq<Step>)
    requires cfg.Valid() && Chained(cfg) && Continues(cfg) && !cfg.continuous && 4 <= |cfg.plan| && FirstIsUnique(cfg)
    requires cfg.plan[0].job.slot != cfg.plan[2].job.slot && cfg.plan[0].job.slot != cfg.plan[3].job.slot
    ensures IsRun(cfg, steps)
    ensures forall more :: IsRun(cfg, steps + more) ==> cfg.plan[0].job !in After(cfg, steps + more).sent
    ensures forall more :: IsRun(cfg, steps + more) && !After(cfg, steps + more).pc.Aborted? ==>
              Elements(After(cfg, steps + more)) <= 1
  {
    steps := TxLiveness.CrossedStartLosesElement(cfg);
    assert Gone(After(cfg, steps), cfg.plan[0].job.timestamp);
    forall more | IsRun(cfg, steps + more)
      ensures cfg.plan[0].job !in After(cfg, steps + more).sent
      ensures !After(cfg, steps + more).pc.Aborted? ==> Elements(After(cfg, steps + more)) <= 1
    {
      GoneIsNeverSent(cfg, steps, more);
      if !After(cfg, steps + more).pc.Aborted? {
        LostForGood(cfg, steps, more);
      }
    }
  }
}
