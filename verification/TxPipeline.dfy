/** The gNB downlink transmit pipeline as a transition system.

    Two job elements circulate: L1_tx_free -> (MAC fill) -> L1_tx_filled -> (rx_func) -> thread
    pool -> (tx_func done) -> L1_tx_out -> tx_reorder_thread -> L1_tx_free. With continuous
    transmission rx_func moves an element straight from L1_tx_free to L1_tx_out for a slot that
    is not a downlink slot. Every lock-protected FIFO operation is one atomic step, and the
    reorder thread is cut at each blocking pull. */
module TxPipeline {
  import opened Options
  import opened SlotSchedule

  /** What the pipeline carries for one slot: the fields that reach ru_tx_func. */
  datatype Job = Job(frame: nat, slot: nat, timestamp: nat)

  /** One transmit opportunity, in the order rx_func meets them. `downlink` is false for the
      slots that only continuous transmission sends. */
  datatype Entry = Entry(job: Job, downlink: bool)

  datatype Config = Config(tdd: Tdd, continuous: bool, plan: seq<Entry>) {
    ghost predicate Valid() {
      && tdd.Valid()
      && (forall i :: 0 <= i < |plan| ==> plan[i].job.slot < tdd.spf)
      && (!continuous ==> forall i :: 0 <= i < |plan| ==> plan[i].downlink)
    }

    /** The jobs in the order rx_func hands them over. */
    function Jobs(): (r: seq<Job>)
      ensures |r| == |plan|
      ensures forall i :: 0 <= i < |r| ==> r[i] == plan[i].job
    {
      seq(|plan|, i requires 0 <= i < |plan| => plan[i].job)
    }

    /** The reorder thread's next_tx_slot after sending a job; None when the search for the next
        downlink slot stops the program. */
    function NextSlot(j: Job): Option<nat>
      requires tdd.Valid()
    {
      if continuous then Some((j.slot + 1) % tdd.spf)
      else if j.slot < tdd.spf then NextDownlinkSlot(tdd, j.frame, j.slot)
      else None
    }
  }

  /** A FIFO element: its identity and the payload it currently carries. */
  datatype Token = Token(id: nat, job: Job)

  /** Where tx_reorder_thread stands. `Hand` holds the element chosen for sending, `Sending` the
      copy made of it before the element went back to L1_tx_free. */
  datatype Pc =
    | Start
    | Head
    | PullFirst
    | PullSecond
    | PullAfterMistake
    | Hand(token: Token)
    | Sending(job: Job)
    | Aborted

  /** The three error messages of the thread. */
  datatype Fault = OrderMistake | StoredThenSecond | NoneIsGood

  datatype State = State(
    free: seq<Token>,
    filled: seq<Token>,
    pool: seq<Token>,
    out: seq<Token>,
    reserve: Option<Token>,
    expected: nat,
    pc: Pc,
    fillAt: nat,
    rxAt: nat,
    firstPulled: Option<Job>,
    sent: seq<Job>,
    faults: seq<Fault>)

  /** init_gNB_Tpool: two zeroed elements in L1_tx_free, nothing anywhere else. */
  function Init(): (s: State) {
    State([Token(0, Job(0, 0, 0)), Token(1, Job(0, 0, 0))], [], [], [], None, 0, Start, 0, 0, None, [], [])
  }

  /** `Complete(k)`: the pool finishes its k-th element; the pool keeps no order. */
  datatype Step = Fill | Rx | Complete(k: nat) | Reorder

  /** The scheduler runs inside rx_func: a slot is filled when rx_func has reached it, and handed over
      when it was filled. */
  predicate Enabled(cfg: Config, s: State, step: Step) {
    match step
    case Fill =>
      s.fillAt < |cfg.plan| && s.fillAt == s.rxAt && (cfg.plan[s.fillAt].downlink ==> s.free != [])
    case Rx =>
      s.rxAt < |cfg.plan| && s.fillAt == s.rxAt + 1 &&
      (if cfg.plan[s.rxAt].downlink then s.filled != [] else s.free != [])
    case Complete(k) => k < |s.pool|
    case Reorder =>
      match s.pc {
        case Start => s.out != []
        case PullFirst => s.out != []
        case PullSecond => s.out != []
        case PullAfterMistake => s.out != []
        case Aborted => false
        case _ => true
      }
  }

  function Apply(cfg: Config, s: State, step: Step): State
    requires cfg.Valid() && Enabled(cfg, s, step)
  {
    match step
    case Fill => ApplyFill(cfg, s)
    case Rx => ApplyRx(cfg, s)
    case Complete(k) => s.(pool := s.pool[..k] + s.pool[k + 1..], out := s.out + [s.pool[k]])
    case Reorder => ApplyReorder(cfg, s)
  }

  /** nr_schedule_response: a downlink slot takes a free element and writes frame and slot; the
      timestamp is still the one of the element's previous use. */
  function ApplyFill(cfg: Config, s: State): State
    requires Enabled(cfg, s, Fill)
  {
    var e := cfg.plan[s.fillAt];
    if e.downlink then
      var t := s.free[0];
      s.(free := s.free[1..],
         filled := s.filled + [t.(job := Job(e.job.frame, e.job.slot, t.job.timestamp))],
         fillAt := s.fillAt + 1)
    else
      s.(fillAt := s.fillAt + 1)
  }

  /** The dispatch tail of rx_func. */
  function ApplyRx(cfg: Config, s: State): State
    requires Enabled(cfg, s, Rx)
  {
    var e := cfg.plan[s.rxAt];
    if e.downlink then
      var t := s.filled[0];
      s.(filled := s.filled[1..],
         pool := s.pool + [t.(job := t.job.(timestamp := e.job.timestamp))],
         rxAt := s.rxAt + 1)
    else
      var t := s.free[0];
      s.(free := s.free[1..], out := s.out + [t.(job := e.job)], rxAt := s.rxAt + 1)
  }

  /** One segment of tx_reorder_thread. */
  function ApplyReorder(cfg: Config, s: State): State
    requires cfg.Valid() && Enabled(cfg, s, Reorder)
  {
    match s.pc
    case Start =>
      var t := s.out[0];
      s.(out := s.out[1..], reserve := Some(t), expected := t.job.slot, pc := Head, firstPulled := Some(t.job))
    case Head =>
      if s.reserve.None? then s.(pc := PullFirst)
      else if s.reserve.value.job.slot == s.expected then s.(pc := Hand(s.reserve.value))
      else s.(reserve := None, pc := PullAfterMistake, faults := s.faults + [OrderMistake])
    case PullFirst =>
      var t := s.out[0];
      if t.job.slot == s.expected then s.(out := s.out[1..], pc := Hand(t))
      else
        s.(out := s.out[1..], reserve := Some(t), pc := PullSecond,
           faults := s.faults + if s.reserve.Some? then [StoredThenSecond] else [])
    case PullSecond =>
      var t := s.out[0];
      s.(out := s.out[1..], pc := Hand(t),
         faults := s.faults + if t.job.slot != s.expected then [NoneIsGood] else [])
    case PullAfterMistake =>
      s.(out := s.out[1..], pc := Hand(s.out[0]))
    case Hand(t) =>
      (match cfg.NextSlot(t.job)
       case None => s.(pc := Aborted)
       case Some(next) =>
         s.(expected := next, free := s.free + [t], pc := Sending(t.job),
            reserve := if s.reserve.Some? && s.reserve.value.id == t.id then None else s.reserve))
    case Sending(job) =>
      s.(sent := s.sent + [job], pc := Head)
  }

  /** A run is a sequence of steps, each enabled in the state the earlier ones lead to. */
  ghost function Exec(cfg: Config, steps: seq<Step>): Option<State>
    requires cfg.Valid()
  {
    if steps == [] then Some(Init())
    else
      var before := Exec(cfg, steps[..|steps| - 1]);
      var step := steps[|steps| - 1];
      if before.Some? && Enabled(cfg, before.value, step) then Some(Apply(cfg, before.value, step)) else None
  }

  ghost predicate IsRun(cfg: Config, steps: seq<Step>)
    requires cfg.Valid()
  {
    Exec(cfg, steps).Some?
  }

  ghost function After(cfg: Config, steps: seq<Step>): State
    requires cfg.Valid() && IsRun(cfg, steps)
  {
    Exec(cfg, steps).value
  }

  /** The state after `steps` extended by one more enabled step. */
  lemma ExtendRun(cfg: Config, steps: seq<Step>, step: Step)
    requires cfg.Valid() && IsRun(cfg, steps) && Enabled(cfg, After(cfg, steps), step)
    ensures IsRun(cfg, steps + [step])
    ensures After(cfg, steps + [step]) == Apply(cfg, After(cfg, steps), step)
  {
    assert (steps + [step])[..|steps + [step]| - 1] == steps;
  }

  // Hypotheses on the plan and on the run.

  /** What the thread computes as next_tx_slot after a job is the slot of the job that follows. */
  ghost predicate Chained(cfg: Config)
    requires cfg.Valid()
  {
    forall i :: 0 <= i < |cfg.plan| - 1 ==> cfg.NextSlot(cfg.plan[i].job) == Some(cfg.plan[i + 1].job.slot)
  }

  /** Neighbouring jobs have different slot numbers (the first pair excepted). */
  ghost predicate NeighboursDiffer(cfg: Config) {
    forall i :: 1 <= i < |cfg.plan| - 1 ==> cfg.plan[i].job.slot != cfg.plan[i + 1].job.slot
  }

  /** The search for the next slot never stops the program on a job of the plan. */
  ghost predicate Continues(cfg: Config)
    requires cfg.Valid()
  {
    forall i :: 0 <= i < |cfg.plan| ==> cfg.NextSlot(cfg.plan[i].job).Some?
  }

  /** The element the thread pulls first, if it has pulled one, carries the first job. */
  ghost predicate StartsInOrder(cfg: Config, s: State) {
    s.firstPulled.Some? ==> cfg.plan != [] && s.firstPulled.value == cfg.plan[0].job
  }
}
