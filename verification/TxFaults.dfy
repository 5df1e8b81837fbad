/** What the messages of the reorder thread mean, and what the other threads leave alone, over all runs of
    all configurations. */
module TxFaults {
  import opened Options
  import opened TxPipeline

  function Number(faults: seq<Fault>, f: Fault): nat {
    if faults == [] then 0 else Number(faults[..|faults| - 1], f) + if faults[|faults| - 1] == f then 1 else 0
  }

  lemma NumberOneMore(faults: seq<Fault>, more: seq<Fault>, f: Fault)
    requires |more| <= 1
    ensures Number(faults + more, f) == Number(faults, f) + if more == [f] then 1 else 0
  {
    if more == [] {
      assert faults + more == faults;
    } else {
      assert (faults + more)[..|faults|] == faults;
    }
  }

  /** Jobs that are not of the slot the thread expected after the one before. */
  function Misplaced(cfg: Config, js: seq<Job>): nat
    requires cfg.Valid()
  {
    if |js| <= 1 then 0
    else
      var n := |js| - 1;
      Misplaced(cfg, js[..n]) + if cfg.NextSlot(js[n - 1]) == Some(js[n].slot) then 0 else 1
  }

  lemma MisplacedOneMore(cfg: Config, js: seq<Job>, j: Job)
    requires cfg.Valid()
    ensures Misplaced(cfg, js + [j]) ==
              Misplaced(cfg, js) + if js == [] || cfg.NextSlot(js[|js| - 1]) == Some(j.slot) then 0 else 1
  {
    assert (js + [j])[..|js|] == js;
  }

  /** The jobs sent and the one about to be. */
  function ChosenJobs(s: State): seq<Job> {
    s.sent + match s.pc { case Hand(t) => [t.job] case Sending(j) => [j] case _ => [] }
  }

  /** What the thread expects, and where its reserve is empty. */
  ghost predicate Expects(cfg: Config, s: State)
    requires cfg.Valid()
  {
    match s.pc
    case Start => s.sent == [] && s.reserve.None?
    case Head => IsNext(cfg, s) && (s.sent == [] ==> s.reserve.Some? && s.reserve.value.job.slot == s.expected)
    case PullFirst => IsNext(cfg, s) && s.sent != [] && s.reserve.None?
    case PullSecond => IsNext(cfg, s) && s.sent != []
    case PullAfterMistake => IsNext(cfg, s) && s.sent != []
    case Hand(_) => true
    case Sending(j) => cfg.NextSlot(j) == Some(s.expected)
    case Aborted => true
  }

  ghost predicate IsNext(cfg: Config, s: State)
    requires cfg.Valid()
  {
    s.sent != [] ==> cfg.NextSlot(s.sent[|s.sent| - 1]) == Some(s.expected)
  }

  /** Every job out of place was announced by a message, and every "none is good" announced one. */
  ghost predicate Announced(cfg: Config, s: State)
    requires cfg.Valid()
  {
    var none, mistakes, misplaced := Number(s.faults, NoneIsGood), Number(s.faults, OrderMistake), Misplaced(cfg, ChosenJobs(s));
    s.pc.Aborted? || none <= misplaced <= none + mistakes - if s.pc.PullAfterMistake? then 1 else 0
  }

  ghost predicate Honest(cfg: Config, s: State)
    requires cfg.Valid()
  {
    Expects(cfg, s) && Number(s.faults, StoredThenSecond) == 0 && Announced(cfg, s)
  }

  lemma SameFaults(s: State, s': State, more: seq<Fault>)
    requires |more| <= 1 && s'.faults == s.faults + more
    ensures forall f :: Number(s'.faults, f) == Number(s.faults, f) + if more == [f] then 1 else 0
  {
    forall f
      ensures Number(s'.faults, f) == Number(s.faults, f) + if more == [f] then 1 else 0
    {
      NumberOneMore(s.faults, more, f);
    }
  }

  /** The other threads do not touch what the reorder thread has. */
  lemma OthersKeepHonest(cfg: Config, s: State, step: Step)
    requires cfg.Valid() && Enabled(cfg, s, step) && !step.Reorder? && Honest(cfg, s)
    ensures Honest(cfg, Apply(cfg, s, step))
  {
    var s' := Apply(cfg, s, step);
    assert s'.pc == s.pc && s'.sent == s.sent && s'.reserve == s.reserve && s'.expected == s.expected && s'.faults == s.faults;
  }

  lemma ChoosesOne(cfg: Config, s: State, s': State, t: Token, more: seq<Fault>)
    requires cfg.Valid() && Honest(cfg, s) && s'.pc == Hand(t) && s'.sent == s.sent && s'.faults == s.faults + more
    requires s.pc.Head? || s.pc.PullFirst? || s.pc.PullSecond? || s.pc.PullAfterMistake?
    requires (s.pc.PullAfterMistake? ==> more == []) && (s.sent == [] ==> t.job.slot == s.expected)
    requires !s.pc.PullAfterMistake? ==> more == if t.job.slot == s.expected then [] else [NoneIsGood]
    ensures Honest(cfg, s')
  {
    SameFaults(s, s', more);
    assert ChosenJobs(s) == s.sent && ChosenJobs(s') == s.sent + [t.job];
    MisplacedOneMore(cfg, s.sent, t.job);
  }

  lemma HeadKeepsHonest(cfg: Config, s: State)
    requires cfg.Valid() && s.pc.Head? && Honest(cfg, s)
    ensures Honest(cfg, ApplyReorder(cfg, s))
  {
    var s' := ApplyReorder(cfg, s);
    if s.reserve.Some? && s.reserve.value.job.slot == s.expected {
      assert s.faults + [] == s.faults;
      ChoosesOne(cfg, s, s', s.reserve.value, []);
    } else {
      SameFaults(s, s', if s.reserve.None? then [] else [OrderMistake]);
      assert ChosenJobs(s') == ChosenJobs(s);
    }
  }

  lemma PullKeepsHonest(cfg: Config, s: State)
    requires cfg.Valid() && Enabled(cfg, s, Reorder) && Honest(cfg, s)
    requires s.pc.PullFirst? || s.pc.PullSecond? || s.pc.PullAfterMistake?
    ensures Honest(cfg, ApplyReorder(cfg, s))
  {
    var s', t := ApplyReorder(cfg, s), s.out[0];
    assert s.faults + [] == s.faults;
    if s.pc.PullFirst? && t.job.slot != s.expected {
      assert ChosenJobs(s') == ChosenJobs(s);
    } else {
      ChoosesOne(cfg, s, s', t, if s.pc.PullSecond? && t.job.slot != s.expected then [NoneIsGood] else []);
    }
  }

  lemma RestKeepsHonest(cfg: Config, s: State)
    requires cfg.Valid() && Enabled(cfg, s, Reorder) && Honest(cfg, s) && (s.pc.Start? || s.pc.Hand? || s.pc.Sending?)
    ensures Honest(cfg, ApplyReorder(cfg, s))
  {
    var s' := ApplyReorder(cfg, s);
    assert !s'.pc.Aborted? ==> ChosenJobs(s') == ChosenJobs(s);
  }

  lemma StepKeepsHonest(cfg: Config, s: State, step: Step)
    requires cfg.Valid() && Enabled(cfg, s, step) && Honest(cfg, s)
    ensures Honest(cfg, Apply(cfg, s, step))
  {
    if !step.Reorder? {
      OthersKeepHonest(cfg, s, step);
    } else {
      match s.pc
      case Head => HeadKeepsHonest(cfg, s);
      case PullFirst => PullKeepsHonest(cfg, s);
      case PullSecond => PullKeepsHonest(cfg, s);
      case PullAfterMistake => PullKeepsHonest(cfg, s);
      case _ => RestKeepsHonest(cfg, s);
    }
  }

  /** In every run that the program survives: the number of jobs sent or about to be that are not of the slot
      expected is at least the number of "none is good" messages and at most that and the number of "order
      mistake" messages together; and the message about a stored packet and a second one is never logged. */
  lemma {:induction false} FaultsAreHonest(cfg: Config, steps: seq<Step>)
    requires cfg.Valid() && IsRun(cfg, steps)
    ensures Honest(cfg, After(cfg, steps))
  {
    if steps != [] {
      var before := steps[..|steps| - 1];
      FaultsAreHonest(cfg, before);
      StepKeepsHonest(cfg, After(cfg, before), steps[|steps| - 1]);
    }
  }

  // Timestamps.

  /** All elements, wherever they are. */
  function Elements(s: State): seq<Token> {
    s.free + s.filled + s.pool + s.out + (if s.reserve.Some? then [s.reserve.value] else []) +
    (if s.pc.Hand? then [s.pc.token] else [])
  }

  /** A fill leaves every element the timestamp it had. */
  lemma FillKeepsStamps(cfg: Config, s: State, t: Token)
    requires cfg.Valid() && Enabled(cfg, s, Fill) && t in Elements(Apply(cfg, s, Fill))
    ensures exists u :: u in Elements(s) && u.id == t.id && u.job.timestamp == t.job.timestamp
  {
    if cfg.plan[s.fillAt].downlink {
      var s', f := Apply(cfg, s, Fill), s.free[0];
      assert f in Elements(s);
      if t in Elements(s) {
      } else {
        assert t in s'.filled && t !in s.filled;
        assert t == s'.filled[|s.filled|];
      }
    } else {
      assert t in Elements(s);
    }
  }

  // The bypass.

  /** The element carries the job of a downlink slot that was handed over. */
  ghost predicate IsDownlinkJob(cfg: Config, n: nat, j: Job) {
    exists i :: 0 <= i < n && i < |cfg.plan| && cfg.plan[i].downlink && cfg.plan[i].job == j
  }

  /** At most the slot that rx_func is at is filled, and only if it is a downlink slot. */
  ghost predicate FilledIsNext(cfg: Config, s: State) {
    s.filled != [] ==>
      && |s.filled| == 1 && s.rxAt < |cfg.plan| && s.fillAt == s.rxAt + 1 && cfg.plan[s.rxAt].downlink
      && s.filled[0].job.frame == cfg.plan[s.rxAt].job.frame && s.filled[0].job.slot == cfg.plan[s.rxAt].job.slot
  }

  ghost predicate OnlyDownlink(cfg: Config, s: State) {
    FilledIsNext(cfg, s) && forall k :: 0 <= k < |s.pool| ==> IsDownlinkJob(cfg, s.rxAt, s.pool[k].job)
  }

  lemma RxKeepsDownlink(cfg: Config, s: State)
    requires cfg.Valid() && Enabled(cfg, s, Rx) && OnlyDownlink(cfg, s)
    ensures OnlyDownlink(cfg, Apply(cfg, s, Rx))
  {
    var s' := Apply(cfg, s, Rx);
    forall k | 0 <= k < |s'.pool|
      ensures IsDownlinkJob(cfg, s'.rxAt, s'.pool[k].job)
    {
      if k < |s.pool| {
        assert IsDownlinkJob(cfg, s.rxAt, s.pool[k].job);
      } else {
        assert s'.pool[k].job == cfg.plan[s.rxAt].job;
      }
    }
  }

  lemma StepKeepsDownlink(cfg: Config, s: State, step: Step)
    requires cfg.Valid() && Enabled(cfg, s, step) && OnlyDownlink(cfg, s)
    ensures OnlyDownlink(cfg, Apply(cfg, s, step))
  {
    var s' := Apply(cfg, s, step);
    match step
    case Rx => RxKeepsDownlink(cfg, s);
    case Complete(j) =>
      forall k | 0 <= k < |s'.pool|
        ensures IsDownlinkJob(cfg, s'.rxAt, s'.pool[k].job)
      {
        assert s'.pool[k] == s.pool[if k < j then k else k + 1];
      }
    case Fill =>
    case Reorder =>
  }

  /** In every run the thread pool works on downlink slots only: what continuous transmission adds goes past
      it. */
  lemma {:induction false} PoolIsDownlink(cfg: Config, steps: seq<Step>)
    requires cfg.Valid() && IsRun(cfg, steps)
    ensures OnlyDownlink(cfg, After(cfg, steps))
  {
    if steps != [] {
      var before := steps[..|steps| - 1];
      PoolIsDownlink(cfg, before);
      StepKeepsDownlink(cfg, After(cfg, before), steps[|steps| - 1]);
    }
  }
}
