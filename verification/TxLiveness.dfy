/** Progress of the transmit pipeline: every run is finite, and the exact conditions under which
    no run can get stuck before everything dispatched was sent, and under which no run can send
    out of order. */
module TxLiveness {
  import opened Options
  import opened TxPipeline
  import opened TxSafety

  function PcWeight(pc: Pc): nat {
    match pc
    case Hand(_) => 3
    case Sending(_) => 2
    case Head => 1
    case Start => 1
    case _ => 0
  }

  /** Work left: what every step makes smaller. */
  function Work(cfg: Config, s: State): int {
    |cfg.plan| - s.fillAt + 6 * (|cfg.plan| - s.rxAt) + 5 * |s.pool| + 4 * |s.out| + 3 * |Held(s)| + PcWeight(s.pc)
  }

  lemma StepDecreasesWork(cfg: Config, s: State, step: Step)
    requires cfg.Valid() && Enabled(cfg, s, step)
    ensures Work(cfg, Apply(cfg, s, step)) < Work(cfg, s)
  {
  }

  lemma {:induction false} InBounds(cfg: Config, steps: seq<Step>)
    requires cfg.Valid() && IsRun(cfg, steps)
    ensures After(cfg, steps).fillAt <= |cfg.plan| && After(cfg, steps).rxAt <= |cfg.plan|
    ensures After(cfg, steps).rxAt <= After(cfg, steps).fillAt <= After(cfg, steps).rxAt + 1
  {
    if steps != [] {
      InBounds(cfg, steps[..|steps| - 1]);
    }
  }

  /** Every run is finite: seven steps a job, and one to start. No assumption on the run. */
  lemma {:induction false} RunsAreBounded(cfg: Config, steps: seq<Step>)
    requires cfg.Valid() && IsRun(cfg, steps)
    ensures |steps| <= 7 * |cfg.plan| + 1
  {
    WorkBound(cfg, steps);
    InBounds(cfg, steps);
  }

  lemma {:induction false} WorkBound(cfg: Config, steps: seq<Step>)
    requires cfg.Valid() && IsRun(cfg, steps)
    ensures |steps| + Work(cfg, After(cfg, steps)) <= 7 * |cfg.plan| + 1
  {
    if steps != [] {
      var before := steps[..|steps| - 1];
      WorkBound(cfg, before);
      StepDecreasesWork(cfg, After(cfg, before), steps[|steps| - 1]);
    }
  }

  /** No step is possible. */
  ghost predicate Stuck(cfg: Config, s: State) {
    !Enabled(cfg, s, Fill) && !Enabled(cfg, s, Rx) && !Enabled(cfg, s, Reorder) && s.pool == []
  }

  lemma StuckIsFinal(cfg: Config, s: State)
    ensures Stuck(cfg, s) <==> forall step :: !Enabled(cfg, s, step)
  {
    if s.pool != [] {
      assert Enabled(cfg, s, Complete(0));
    }
  }

  lemma {:induction false} NeverAborts(cfg: Config, steps: seq<Step>)
    requires cfg.Valid() && Chained(cfg) && NeighboursDiffer(cfg) && Continues(cfg)
    requires IsRun(cfg, steps) && StartsInOrder(cfg, After(cfg, steps))
    ensures !After(cfg, steps).pc.Aborted?
  {
    if steps != [] {
      var before := steps[..|steps| - 1];
      FirstPulledOnce(cfg, before);
      FirstPulledStays(cfg, After(cfg, before), steps[|steps| - 1]);
      NeverAborts(cfg, before);
      RunKeepsInv(cfg, before);
      HandIsPlanned(cfg, After(cfg, before));
      StepNeverAborts(cfg, After(cfg, before), steps[|steps| - 1]);
    }
  }

  lemma StepNeverAborts(cfg: Config, s: State, step: Step)
    requires cfg.Valid() && Enabled(cfg, s, step) && !s.pc.Aborted?
    requires s.pc.Hand? ==> cfg.NextSlot(s.pc.token.job).Some?
    ensures !Apply(cfg, s, step).pc.Aborted?
  {
  }

  lemma HandIsPlanned(cfg: Config, s: State)
    requires cfg.Valid() && Continues(cfg) && Inv(cfg, s)
    ensures s.pc.Hand? ==> cfg.NextSlot(s.pc.token.job).Some?
  {
  }

  lemma {:induction false} LoadedSomewhere(ts: seq<Token>, j: Job) returns (t: Token)
    requires Load(ts, j) >= 1
    ensures t in ts && t.job == j
  {
    if ts[0].job == j {
      t := ts[0];
    } else {
      t := LoadedSomewhere(ts[1..], j);
    }
  }

  lemma NextIsLoaded(cfg: Config, s: State)
    requires FlightOk(cfg, s) && ThreadOk(cfg, s) && s.pc.PullSecond?
    ensures Load(s.pool, cfg.plan[Chosen(s)].job) + Load(s.out, cfg.plan[Chosen(s)].job) >= 1
  {
    var k, r := Chosen(s), s.reserve.value;
    var j := cfg.plan[k].job;
    assert Held(s) == [r] && [r][1..] == [];
    assert Load(Held(s), j) == Carries(r, j) + Load([], j);
    DueAtFront(cfg.plan, k, k + 2, j);
    DueAtFront(cfg.plan, k + 1, k + 2, j);
  }

  /** Whenever the thread waits with a job in reserve, the job it waits for, the next to send, is in
      the pool or in L1_tx_out. */
  lemma AwaitedIsUnderWay(cfg: Config, steps: seq<Step>) returns (t: Token)
    requires cfg.Valid() && Chained(cfg) && NeighboursDiffer(cfg)
    requires IsRun(cfg, steps) && StartsInOrder(cfg, After(cfg, steps)) && After(cfg, steps).pc.PullSecond?
    ensures var s := After(cfg, steps);
            && t in s.pool + s.out && |s.sent| < |cfg.plan|
            && t.job == cfg.plan[|s.sent|].job && t.job.slot == s.expected
  {
    RunKeepsInv(cfg, steps);
    t := AwaitedIn(cfg, After(cfg, steps));
  }

  lemma AwaitedIn(cfg: Config, s: State) returns (t: Token)
    requires FlightOk(cfg, s) && ThreadOk(cfg, s) && s.pc.PullSecond?
    ensures t in s.pool + s.out && |s.sent| < |cfg.plan|
    ensures t.job == cfg.plan[|s.sent|].job && t.job.slot == s.expected
  {
    NextIsLoaded(cfg, s);
    var j := cfg.plan[Chosen(s)].job;
    if Load(s.pool, j) >= 1 {
      t := LoadedSomewhere(s.pool, j);
    } else {
      t := LoadedSomewhere(s.out, j);
    }
  }

  /** A blocked reorder thread with an empty pool has sent everything dispatched. */
  lemma BlockedMeansDrained(cfg: Config, s: State)
    requires Inv(cfg, s) && !s.pc.Aborted? && s.pool == [] && !Enabled(cfg, s, Reorder)
    ensures s.rxAt == |s.sent| && s.sent == cfg.Jobs()[..s.rxAt]
    ensures |s.free| + |s.filled| == 2
  {
    assert s.out == [];
    assert s.pc.PullSecond? ==> |Held(s)| == 1 && s.rxAt - Chosen(s) == 2;
  }

  /** With something unsent, some step is possible. */
  lemma UnsentIsNotStuck(cfg: Config, s: State)
    requires Inv(cfg, s) && !s.pc.Aborted? && |s.sent| < |cfg.plan| && s.rxAt <= s.fillAt <= s.rxAt + 1
    ensures !Stuck(cfg, s)
  {
    if Stuck(cfg, s) {
      BlockedMeansDrained(cfg, s);
      if s.rxAt < s.fillAt {
        PendingFront(cfg.plan, s.rxAt, s.fillAt);
      }
    }
  }

  // Construction of runs that serve one job at a time.

  /** Everything up to entry i was sent, nothing is in flight, the thread waits. */
  ghost predicate Quiet(cfg: Config, s: State, i: nat) {
    && i <= |cfg.plan|
    && s.sent == cfg.Jobs()[..i] && s.fillAt == i && s.rxAt == i
    && |s.free| == 2 && s.filled == [] && s.pool == [] && s.out == [] && s.reserve.None?
    && (i == 0 ==> s.pc.Start? && s.firstPulled.None?)
    && (0 < i ==> s.pc.PullFirst? && s.firstPulled == Some(cfg.plan[0].job))
    && (0 < i < |cfg.plan| ==> s.expected == cfg.plan[i].job.slot)
  }

  /** Entry i is in L1_tx_out and nothing else is under way. */
  ghost predicate Offered(cfg: Config, s: State, i: nat) {
    && i < |cfg.plan|
    && s.sent == cfg.Jobs()[..i] && s.fillAt == i + 1 && s.rxAt == i + 1
    && |s.free| == 1 && s.filled == [] && s.pool == [] && s.reserve.None?
    && |s.out| == 1 && s.out[0].job == cfg.plan[i].job
    && (i == 0 ==> s.pc.Start?)
    && (0 < i ==> s.pc.PullFirst? && s.firstPulled == Some(cfg.plan[0].job) && s.expected == cfg.plan[i].job.slot)
  }

  lemma Offer(cfg: Config, steps: seq<Step>, i: nat) returns (more: seq<Step>)
    requires cfg.Valid() && IsRun(cfg, steps) && Quiet(cfg, After(cfg, steps), i) && i < |cfg.plan|
    ensures IsRun(cfg, more) && Offered(cfg, After(cfg, more), i)
  {
    ExtendRun(cfg, steps, Fill);
    more := steps + [Fill];
    ExtendRun(cfg, more, Rx);
    more := more + [Rx];
    if cfg.plan[i].downlink {
      ExtendRun(cfg, more, Complete(0));
      more := more + [Complete(0)];
    }
  }

  /** Entry i is in the thread's hand. */
  ghost predicate Handed(cfg: Config, s: State, i: nat) {
    && i < |cfg.plan|
    && s.sent == cfg.Jobs()[..i] && s.fillAt == i + 1 && s.rxAt == i + 1
    && |s.free| == 1 && s.filled == [] && s.pool == [] && s.out == []
    && s.pc.Hand? && s.pc.token.job == cfg.plan[i].job && s.firstPulled == Some(cfg.plan[0].job)
    && (s.reserve.None? || s.reserve == Some(s.pc.token))
  }

  lemma Choose(cfg: Config, steps: seq<Step>, i: nat) returns (more: seq<Step>)
    requires cfg.Valid() && IsRun(cfg, steps) && Offered(cfg, After(cfg, steps), i)
    ensures IsRun(cfg, more) && Handed(cfg, After(cfg, more), i)
  {
    ExtendRun(cfg, steps, Reorder);
    more := steps + [Reorder];
    if i == 0 {
      ExtendRun(cfg, more, Reorder);
      more := more + [Reorder];
    }
  }

  lemma Finish(cfg: Config, steps: seq<Step>, i: nat) returns (more: seq<Step>)
    requires cfg.Valid() && Chained(cfg) && Continues(cfg) && IsRun(cfg, steps) && Handed(cfg, After(cfg, steps), i)
    ensures IsRun(cfg, more) && Quiet(cfg, After(cfg, more), i + 1)
  {
    ExtendRun(cfg, steps, Reorder);
    more := steps + [Reorder];
    ExtendRun(cfg, more, Reorder);
    more := more + [Reorder];
    assert After(cfg, more).sent == cfg.Jobs()[..i + 1];
    ExtendRun(cfg, more, Reorder);
    more := more + [Reorder];
  }

  /** Any number of jobs can be served one after the other. */
  lemma {:induction false} ServeUpTo(cfg: Config, n: nat) returns (steps: seq<Step>)
    requires cfg.Valid() && Chained(cfg) && Continues(cfg) && n <= |cfg.plan|
    ensures IsRun(cfg, steps) && Quiet(cfg, After(cfg, steps), n)
  {
    steps := [];
    var i := 0;
    while i < n
      invariant 0 <= i <= n && IsRun(cfg, steps) && Quiet(cfg, After(cfg, steps), i)
    {
      steps := Offer(cfg, steps, i);
      steps := Choose(cfg, steps, i);
      steps := Finish(cfg, steps, i);
      i := i + 1;
    }
  }

  // Progress.

  /** A run that starts in order and cannot go on has handed the whole plan to the radio. */
  lemma AllSentWhenStuck(cfg: Config, steps: seq<Step>)
    requires cfg.Valid() && Chained(cfg) && NeighboursDiffer(cfg) && Continues(cfg)
    requires IsRun(cfg, steps) && StartsInOrder(cfg, After(cfg, steps)) && Stuck(cfg, After(cfg, steps))
    ensures After(cfg, steps).sent == cfg.Jobs()
  {
    var s := After(cfg, steps);
    RunKeepsInv(cfg, steps);
    NeverAborts(cfg, steps);
    InBounds(cfg, steps);
    if |s.sent| < |cfg.plan| {
      UnsentIsNotStuck(cfg, s);
    }
  }

  /** The gNB never deadlocks: in every run that starts in order, some step is possible or the whole
      plan was sent. */
  lemma NeverDeadlocks(cfg: Config, steps: seq<Step>)
    requires cfg.Valid() && Chained(cfg) && NeighboursDiffer(cfg) && Continues(cfg)
    requires IsRun(cfg, steps) && StartsInOrder(cfg, After(cfg, steps))
    ensures (exists step :: Enabled(cfg, After(cfg, steps), step)) || After(cfg, steps).sent == cfg.Jobs()
  {
    StuckIsFinal(cfg, After(cfg, steps));
    if Stuck(cfg, After(cfg, steps)) {
      AllSentWhenStuck(cfg, steps);
    }
  }

  // Order, exactly.

  /** Two jobs with the same slot number, the later one finished first. */
  ghost predicate Crossed(cfg: Config, s: State, i: nat) {
    && 0 < i && i + 1 < |cfg.plan|
    && s.sent == cfg.Jobs()[..i] && s.pc.PullFirst? && s.expected == cfg.plan[i].job.slot
    && |s.out| == 2 && s.out[0].job == cfg.plan[i + 1].job && StartsInOrder(cfg, s)
  }

  lemma Cross(cfg: Config, i: nat) returns (steps: seq<Step>)
    requires cfg.Valid() && Chained(cfg) && Continues(cfg) && !cfg.continuous
    requires 0 < i && i + 1 < |cfg.plan|
    ensures IsRun(cfg, steps) && Crossed(cfg, After(cfg, steps), i)
  {
    steps := ServeUpTo(cfg, i);
    ExtendRun(cfg, steps, Fill);
    steps := steps + [Fill];
    ExtendRun(cfg, steps, Rx);
    steps := steps + [Rx];
    ExtendRun(cfg, steps, Fill);
    steps := steps + [Fill];
    ExtendRun(cfg, steps, Rx);
    steps := steps + [Rx];
    ExtendRun(cfg, steps, Complete(1));
    steps := steps + [Complete(1)];
    ExtendRun(cfg, steps, Complete(0));
    steps := steps + [Complete(0)];
  }

  lemma SendsLaterFirst(cfg: Config, i: nat) returns (steps: seq<Step>)
    requires cfg.Valid() && Chained(cfg) && Continues(cfg) && !cfg.continuous
    requires 0 < i && i + 1 < |cfg.plan| && cfg.plan[i].job.slot == cfg.plan[i + 1].job.slot
    ensures IsRun(cfg, steps) && StartsInOrder(cfg, After(cfg, steps))
    ensures After(cfg, steps).sent == cfg.Jobs()[..i] + [cfg.plan[i + 1].job]
  {
    steps := Cross(cfg, i);
    ExtendRun(cfg, steps, Reorder);
    steps := steps + [Reorder];
    ExtendRun(cfg, steps, Reorder);
    steps := steps + [Reorder];
    ExtendRun(cfg, steps, Reorder);
    steps := steps + [Reorder];
  }

  /** With continuous transmission neighbours always have different slot numbers. */
  lemma ContinuousNeighboursDiffer(cfg: Config)
    requires cfg.Valid() && Chained(cfg) && cfg.continuous
    ensures NeighboursDiffer(cfg)
  {
    forall i | 1 <= i < |cfg.plan| - 1
      ensures cfg.plan[i].job.slot != cfg.plan[i + 1].job.slot
    {
      assert cfg.NextSlot(cfg.plan[i].job) == Some(cfg.plan[i + 1].job.slot);
      SuccessorDiffers(cfg.plan[i].job.slot, cfg.tdd.spf);
    }
  }

  lemma SuccessorDiffers(slot: nat, spf: nat)
    requires slot < spf && 1 < spf
    ensures (slot + 1) % spf != slot
  {
    if slot + 1 < spf {
      assert (slot + 1) % spf == slot + 1;
    } else {
      assert spf % spf == 0;
    }
  }

  /** Every run that starts in order sends in dispatch order, if and only if neighbouring
      dispatched jobs have different slot numbers, for the thread compares slots and not frames. */
  lemma InOrderIffNeighboursDiffer(cfg: Config)
    requires cfg.Valid() && Chained(cfg) && Continues(cfg)
    requires forall i :: 0 <= i < |cfg.plan| - 1 ==> cfg.plan[i].job != cfg.plan[i + 1].job
    ensures (forall steps :: IsRun(cfg, steps) && StartsInOrder(cfg, After(cfg, steps)) ==> After(cfg, steps).sent <= cfg.Jobs())
       <==> NeighboursDiffer(cfg)
  {
    if NeighboursDiffer(cfg) {
      forall steps | IsRun(cfg, steps) && StartsInOrder(cfg, After(cfg, steps))
        ensures After(cfg, steps).sent <= cfg.Jobs()
      {
        RunKeepsInv(cfg, steps);
      }
    } else {
      if cfg.continuous {
        ContinuousNeighboursDiffer(cfg);
      }
      var i :| 1 <= i < |cfg.plan| - 1 && cfg.plan[i].job.slot == cfg.plan[i + 1].job.slot;
      var steps := SendsLaterFirst(cfg, i);
      assert After(cfg, steps).sent[i] != cfg.Jobs()[i];
    }
  }

  /** If the first two jobs cross before the thread's first pull, the first job is later taken
      for a mistake and its element is dropped: one element is left, and the first job is never
      sent. */
  lemma CrossedStartLosesElement(cfg: Config) returns (steps: seq<Step>)
    requires cfg.Valid() && Chained(cfg) && Continues(cfg) && !cfg.continuous && 4 <= |cfg.plan|
    requires cfg.plan[0].job.slot != cfg.plan[2].job.slot && cfg.plan[0].job.slot != cfg.plan[3].job.slot
    ensures IsRun(cfg, steps)
    ensures var s := After(cfg, steps);
            && s.sent == [cfg.plan[1].job, cfg.plan[2].job]
            && s.faults == [OrderMistake]
            && |s.free| + |s.filled| + |s.pool| + |s.out| + |Held(s)| + |InHand(s)| == 1
            && s.pool == [] && s.out == [] && s.reserve.None? && s.pc.PullAfterMistake? && s.rxAt == 3
  {
    steps := CrossAtStart(cfg);
    steps := StoreFirst(cfg, steps);
    ExtendRun(cfg, steps, Fill);
    steps := steps + [Fill];
    ExtendRun(cfg, steps, Rx);
    steps := steps + [Rx];
    ExtendRun(cfg, steps, Complete(0));
    steps := steps + [Complete(0)];
    assert After(cfg, steps).out[0].job == cfg.plan[2].job;
    steps := Repeat(cfg, steps);
    steps := Repeat(cfg, steps);
    steps := Repeat(cfg, steps);
    assert After(cfg, steps).sent == [cfg.plan[1].job, cfg.plan[2].job];
    steps := Repeat(cfg, steps);
  }

  /** One more step of the reorder thread. */
  lemma Repeat(cfg: Config, steps: seq<Step>) returns (more: seq<Step>)
    requires cfg.Valid() && IsRun(cfg, steps) && Enabled(cfg, After(cfg, steps), Reorder)
    ensures IsRun(cfg, more) && After(cfg, more) == ApplyReorder(cfg, After(cfg, steps))
  {
    ExtendRun(cfg, steps, Reorder);
    more := steps + [Reorder];
  }

  lemma CrossAtStart(cfg: Config) returns (steps: seq<Step>)
    requires cfg.Valid() && !cfg.continuous && 4 <= |cfg.plan|
    ensures IsRun(cfg, steps)
    ensures var s := After(cfg, steps);
            && s.free == [] && s.filled == [] && s.pool == [] && s.fillAt == s.rxAt == 2 && s.sent == [] && s.faults == []
            && s.reserve.None? && s.pc.Start? && |s.out| == 2 && s.out[0].id != s.out[1].id
            && s.out[0].job == cfg.plan[1].job && s.out[1].job == cfg.plan[0].job
  {
    steps := [];
    ExtendRun(cfg, steps, Fill);
    steps := steps + [Fill];
    ExtendRun(cfg, steps, Rx);
    steps := steps + [Rx];
    ExtendRun(cfg, steps, Fill);
    steps := steps + [Fill];
    ExtendRun(cfg, steps, Rx);
    steps := steps + [Rx];
    ExtendRun(cfg, steps, Complete(1));
    steps := steps + [Complete(1)];
    ExtendRun(cfg, steps, Complete(0));
    steps := steps + [Complete(0)];
  }

  lemma StoreFirst(cfg: Config, steps: seq<Step>) returns (more: seq<Step>)
    requires cfg.Valid() && Chained(cfg) && !cfg.continuous && 4 <= |cfg.plan|
    requires cfg.plan[0].job.slot != cfg.plan[2].job.slot
    requires IsRun(cfg, steps)
    requires var s := After(cfg, steps);
             && s.free == [] && s.filled == [] && s.pool == [] && s.fillAt == s.rxAt == 2 && s.sent == [] && s.faults == []
             && s.reserve.None? && s.pc.Start? && |s.out| == 2 && s.out[0].id != s.out[1].id
             && s.out[0].job == cfg.plan[1].job && s.out[1].job == cfg.plan[0].job
    ensures IsRun(cfg, more)
    ensures var s := After(cfg, more);
            && |s.free| == 1 && s.filled == [] && s.pool == [] && s.out == [] && s.fillAt == s.rxAt == 2
            && s.sent == [cfg.plan[1].job] && s.faults == [] && s.expected == cfg.plan[2].job.slot
            && s.pc.PullSecond? && s.reserve.Some? && s.reserve.value.job == cfg.plan[0].job && s.reserve.value.id != s.free[0].id
  {
    more := Repeat(cfg, steps);
    more := Repeat(cfg, more);
    more := Repeat(cfg, more);
    more := Repeat(cfg, more);
    more := Repeat(cfg, more);
    more := Repeat(cfg, more);
  }
}
