/** Safety of the transmit pipeline: in every run the jobs handed to the radio are a prefix of
    the dispatch sequence, no element is lost, and the thread's error branches are dead, exactly
    when the thread starts on the first job. */
module TxSafety {
  import opened Options
  import opened TxPipeline

  // Counts and bags of elements: every step moves one element, so sums carry the invariant.

  function One(t: Token, id: nat): nat { if t.id == id then 1 else 0 }

  function Carries(t: Token, j: Job): nat { if t.job == j then 1 else 0 }

  /** How many elements of a place have the given identity. */
  function Count(ts: seq<Token>, id: nat): nat {
    if ts == [] then 0 else One(ts[0], id) + Count(ts[1..], id)
  }

  /** How many elements of a place carry the given job. */
  function Load(ts: seq<Token>, j: Job): nat {
    if ts == [] then 0 else Carries(ts[0], j) + Load(ts[1..], j)
  }

  /** How many of the entries from `lo` up to `hi` are the given job. */
  function Due(plan: seq<Entry>, lo: nat, hi: nat, j: Job): nat
    requires hi <= |plan|
  {
    if hi <= lo then 0 else Due(plan, lo, hi - 1, j) + (if plan[hi - 1].job == j then 1 else 0)
  }

  lemma {:induction false} DueAtFront(plan: seq<Entry>, lo: nat, hi: nat, j: Job)
    requires lo < hi <= |plan|
    ensures Due(plan, lo, hi, j) == (if plan[lo].job == j then 1 else 0) + Due(plan, lo + 1, hi, j)
  {
    if lo + 1 < hi {
      DueAtFront(plan, lo, hi - 1, j);
    }
  }

  lemma {:induction false} CountConcat(a: seq<Token>, b: seq<Token>, id: nat)
    ensures Count(a + b, id) == Count(a, id) + Count(b, id)
  {
    if a == [] {
      assert a + b == b;
    } else {
      CountConcat(a[1..], b, id);
      assert (a + b)[1..] == a[1..] + b;
    }
  }

  lemma {:induction false} LoadConcat(a: seq<Token>, b: seq<Token>, j: Job)
    ensures Load(a + b, j) == Load(a, j) + Load(b, j)
  {
    if a == [] {
      assert a + b == b;
    } else {
      LoadConcat(a[1..], b, j);
      assert (a + b)[1..] == a[1..] + b;
    }
  }

  lemma Push(ts: seq<Token>, t: Token, id: nat, j: Job)
    ensures Count(ts + [t], id) == Count(ts, id) + One(t, id)
    ensures Load(ts + [t], j) == Load(ts, j) + Carries(t, j)
  {
    CountConcat(ts, [t], id);
    LoadConcat(ts, [t], j);
  }

  lemma Remove(ts: seq<Token>, k: nat, id: nat, j: Job)
    requires k < |ts|
    ensures Count(ts, id) == Count(ts[..k] + ts[k + 1..], id) + One(ts[k], id)
    ensures Load(ts, j) == Load(ts[..k] + ts[k + 1..], j) + Carries(ts[k], j)
  {
    var a, b := ts[..k], ts[k + 1..];
    assert ts == a + ([ts[k]] + b);
    assert ([ts[k]] + b)[1..] == b;
    CountConcat(a, [ts[k]] + b, id);
    CountConcat(a, b, id);
    LoadConcat(a, [ts[k]] + b, j);
    LoadConcat(a, b, j);
  }

  /** The reserve entry of a running thread, unless it is the very element in hand. */
  function Held(s: State): seq<Token> {
    if s.reserve.Some? && !s.pc.Aborted? && !(s.pc.Hand? && s.pc.token.id == s.reserve.value.id) then [s.reserve.value] else []
  }

  function InHand(s: State): seq<Token> {
    if s.pc.Hand? then [s.pc.token] else []
  }

  /** Number of jobs the reorder thread has chosen for sending. */
  function Chosen(s: State): nat {
    |s.sent| + if s.pc.Hand? || s.pc.Sending? then 1 else 0
  }

  /** How many of the six places hold the element. */
  function Places(s: State, id: nat): nat {
    Count(s.free, id) + Count(s.filled, id) + Count(s.pool, id) + Count(s.out, id) +
    Count(Held(s), id) + Count(InHand(s), id)
  }

  /** Each of the two elements is in exactly one of the six places, and there is no third. */
  ghost predicate Conserved(s: State) {
    && |s.free| + |s.filled| + |s.pool| + |s.out| + |Held(s)| + |InHand(s)| == 2
    && Places(s, 0) == 1
    && Places(s, 1) == 1
  }

  function InFlight(s: State, j: Job): nat {
    Load(s.pool, j) + Load(s.out, j) + Load(Held(s), j)
  }

  /** The elements in the pool, in L1_tx_out and in reserve carry exactly the jobs dispatched and
      not yet chosen. */
  ghost predicate FlightOk(cfg: Config, s: State) {
    && Chosen(s) <= s.rxAt <= |cfg.plan|
    && |s.pool| + |s.out| + |Held(s)| == s.rxAt - Chosen(s)
    && forall j :: InFlight(s, j) == Due(cfg.plan, Chosen(s), s.rxAt, j)
  }

  /** Jobs of the downlink entries plan[i..j], in order. */
  function Pending(plan: seq<Entry>, i: nat, j: nat): seq<Job>
    requires j <= |plan|
  {
    if j <= i then []
    else Pending(plan, i, j - 1) + if plan[j - 1].downlink then [plan[j - 1].job] else []
  }

  lemma {:induction false} PendingFront(plan: seq<Entry>, i: nat, j: nat)
    requires i < j <= |plan|
    ensures Pending(plan, i, j) == (if plan[i].downlink then [plan[i].job] else []) + Pending(plan, i + 1, j)
  {
    if i + 1 < j {
      PendingFront(plan, i, j - 1);
    }
  }

  /** L1_tx_filled holds, in order, the downlink slots filled and not yet dispatched. */
  ghost predicate FilledOk(cfg: Config, s: State) {
    && s.fillAt <= |cfg.plan|
    && s.rxAt <= |cfg.plan|
    && (forall j :: s.fillAt <= j < s.rxAt ==> !cfg.plan[j].downlink)
    && (var p := Pending(cfg.plan, s.rxAt, s.fillAt);
        && |s.filled| == |p|
        && forall i :: 0 <= i < |p| ==> s.filled[i].job.frame == p[i].frame && s.filled[i].job.slot == p[i].slot)
  }

  predicate ExpectsNext(cfg: Config, s: State) {
    var k := Chosen(s);
    1 <= k && (k < |cfg.plan| ==> s.expected == cfg.plan[k].job.slot)
  }

  /** The reserve, when it is not in hand, is the next job to send. */
  predicate ReserveIsNext(cfg: Config, s: State) {
    Held(s) != [] ==> Chosen(s) < |cfg.plan| && Held(s)[0].job == cfg.plan[Chosen(s)].job
  }

  predicate ThreadOk(cfg: Config, s: State) {
    var k, plan := Chosen(s), cfg.plan;
    k <= |plan| &&
    match s.pc
    case Start => s.firstPulled.None? && s.reserve.None? && k == 0
    case Head =>
      ReserveIsNext(cfg, s) &&
      (k == 0 ==> s.reserve.Some? && s.expected == s.reserve.value.job.slot) && (1 <= k ==> ExpectsNext(cfg, s))
    case PullFirst => s.reserve.None? && ExpectsNext(cfg, s)
    case PullSecond =>
      s.reserve.Some? && ExpectsNext(cfg, s) && s.rxAt == k + 2 <= |plan| && s.reserve.value.job == plan[k + 1].job
    case PullAfterMistake => false
    case Hand(t) =>
      t.job == plan[k - 1].job && ReserveIsNext(cfg, s) && (Held(s) == [] && s.reserve.Some? ==> s.reserve.value == t)
    case Sending(j) => j == plan[k - 1].job && ReserveIsNext(cfg, s) && ExpectsNext(cfg, s)
    case Aborted => false
  }

  predicate SentOk(cfg: Config, s: State) {
    s.sent <= cfg.Jobs() && s.faults == []
  }

  ghost predicate Inv(cfg: Config, s: State) {
    && SentOk(cfg, s)
    && (s.pc.Aborted? || (Conserved(s) && FilledOk(cfg, s) && FlightOk(cfg, s) && ThreadOk(cfg, s)))
  }

  // Steps outside the reorder thread. They leave the thread's own variables alone.

  ghost predicate SameThread(s: State, s': State) {
    s'.pc == s.pc && s'.reserve == s.reserve && s'.expected == s.expected && s'.sent == s.sent &&
    s'.faults == s.faults && s'.firstPulled == s.firstPulled
  }

  lemma FillPlaces(cfg: Config, s: State, id: nat)
    requires Enabled(cfg, s, Fill)
    ensures Places(ApplyFill(cfg, s), id) == Places(s, id)
  {
    var s', e := ApplyFill(cfg, s), cfg.plan[s.fillAt];
    assert Held(s') == Held(s) && InHand(s') == InHand(s);
    if e.downlink {
      var t := s.free[0];
      Push(s.filled, t.(job := Job(e.job.frame, e.job.slot, t.job.timestamp)), id, e.job);
    }
  }

  lemma FillFilled(cfg: Config, s: State)
    requires FilledOk(cfg, s) && Enabled(cfg, s, Fill)
    ensures FilledOk(cfg, ApplyFill(cfg, s))
  {
  }

  lemma FillFlight(cfg: Config, s: State)
    requires Enabled(cfg, s, Fill) && FlightOk(cfg, s)
    ensures FlightOk(cfg, ApplyFill(cfg, s))
  {
    var s' := ApplyFill(cfg, s);
    assert s'.pool == s.pool && s'.out == s.out && Held(s') == Held(s) && Chosen(s') == Chosen(s);
    assert forall j :: InFlight(s', j) == InFlight(s, j);
  }

  lemma FillThread(cfg: Config, s: State)
    requires Enabled(cfg, s, Fill) && Conserved(s) && ThreadOk(cfg, s)
    ensures Conserved(ApplyFill(cfg, s)) && ThreadOk(cfg, ApplyFill(cfg, s))
  {
    var s' := ApplyFill(cfg, s);
    FillPlaces(cfg, s, 0);
    FillPlaces(cfg, s, 1);
    assert SameThread(s, s');
    assert Held(s') == Held(s) && InHand(s') == InHand(s);
  }

  lemma FillKeepsInv(cfg: Config, s: State)
    requires cfg.Valid() && Inv(cfg, s) && Enabled(cfg, s, Fill)
    ensures Inv(cfg, ApplyFill(cfg, s))
  {
    assert SameThread(s, ApplyFill(cfg, s));
    if !s.pc.Aborted? {
      FillFlight(cfg, s);
      FillThread(cfg, s);
      FillFilled(cfg, s);
    }
  }

  lemma RxPlaces(cfg: Config, s: State, id: nat)
    requires Enabled(cfg, s, Rx)
    ensures Places(ApplyRx(cfg, s), id) == Places(s, id)
  {
    var s', e := ApplyRx(cfg, s), cfg.plan[s.rxAt];
    assert Held(s') == Held(s) && InHand(s') == InHand(s);
    if e.downlink {
      Push(s.pool, s.filled[0].(job := s.filled[0].job.(timestamp := e.job.timestamp)), id, e.job);
    } else {
      Push(s.out, s.free[0].(job := e.job), id, e.job);
    }
  }

  /** The element taken from L1_tx_filled is the one for the slot rx_func is at. */
  lemma FilledHead(cfg: Config, s: State)
    requires FilledOk(cfg, s) && Enabled(cfg, s, Rx)
    ensures FilledOk(cfg, ApplyRx(cfg, s))
    ensures cfg.plan[s.rxAt].downlink ==>
              s.filled[0].job.frame == cfg.plan[s.rxAt].job.frame && s.filled[0].job.slot == cfg.plan[s.rxAt].job.slot
  {
    if s.rxAt < s.fillAt {
      PendingFront(cfg.plan, s.rxAt, s.fillAt);
    }
  }

  lemma RxInFlight(cfg: Config, s: State, j: Job)
    requires FilledOk(cfg, s) && Enabled(cfg, s, Rx)
    ensures InFlight(ApplyRx(cfg, s), j) == InFlight(s, j) + if cfg.plan[s.rxAt].job == j then 1 else 0
  {
    var s', e := ApplyRx(cfg, s), cfg.plan[s.rxAt];
    assert Held(s') == Held(s);
    FilledHead(cfg, s);
    if e.downlink {
      Push(s.pool, s.filled[0].(job := e.job), 0, j);
    } else {
      Push(s.out, s.free[0].(job := e.job), 0, j);
    }
  }

  lemma RxFlight(cfg: Config, s: State)
    requires FilledOk(cfg, s) && FlightOk(cfg, s) && Enabled(cfg, s, Rx)
    ensures FlightOk(cfg, ApplyRx(cfg, s))
  {
    var s' := ApplyRx(cfg, s);
    assert Held(s') == Held(s) && Chosen(s') == Chosen(s);
    forall j
      ensures InFlight(s', j) == Due(cfg.plan, Chosen(s'), s'.rxAt, j)
    {
      RxInFlight(cfg, s, j);
    }
  }

  lemma RxThread(cfg: Config, s: State)
    requires Enabled(cfg, s, Rx) && Conserved(s) && FlightOk(cfg, s) && ThreadOk(cfg, s)
    ensures Conserved(ApplyRx(cfg, s)) && ThreadOk(cfg, ApplyRx(cfg, s))
  {
    var s' := ApplyRx(cfg, s);
    assert SameThread(s, s');
    assert Held(s') == Held(s) && InHand(s') == InHand(s);
    RxPlaces(cfg, s, 0);
    RxPlaces(cfg, s, 1);
  }

  lemma RxKeepsInv(cfg: Config, s: State)
    requires cfg.Valid() && Inv(cfg, s) && Enabled(cfg, s, Rx)
    ensures Inv(cfg, ApplyRx(cfg, s))
  {
    assert SameThread(s, ApplyRx(cfg, s));
    if !s.pc.Aborted? {
      RxThread(cfg, s);
      FilledHead(cfg, s);
      RxFlight(cfg, s);
    }
  }

  lemma CompleteMoves(cfg: Config, s: State, k: nat, id: nat, j: Job)
    requires cfg.Valid() && Enabled(cfg, s, Complete(k))
    ensures Places(Apply(cfg, s, Complete(k)), id) == Places(s, id)
    ensures InFlight(Apply(cfg, s, Complete(k)), j) == InFlight(s, j)
  {
    var s' := Apply(cfg, s, Complete(k));
    assert Held(s') == Held(s) && InHand(s') == InHand(s);
    Remove(s.pool, k, id, j);
    Push(s.out, s.pool[k], id, j);
  }

  lemma CompleteFlight(cfg: Config, s: State, k: nat)
    requires cfg.Valid() && Enabled(cfg, s, Complete(k)) && FlightOk(cfg, s)
    ensures FlightOk(cfg, Apply(cfg, s, Complete(k)))
  {
    var s' := Apply(cfg, s, Complete(k));
    assert Held(s') == Held(s) && Chosen(s') == Chosen(s);
    forall j
      ensures InFlight(s', j) == Due(cfg.plan, Chosen(s'), s'.rxAt, j)
    {
      CompleteMoves(cfg, s, k, 0, j);
    }
  }

  lemma CompleteThread(cfg: Config, s: State, k: nat)
    requires cfg.Valid() && Enabled(cfg, s, Complete(k)) && Conserved(s) && ThreadOk(cfg, s)
    ensures var s' := Apply(cfg, s, Complete(k)); Conserved(s') && ThreadOk(cfg, s')
  {
    var s' := Apply(cfg, s, Complete(k));
    assert SameThread(s, s');
    assert Held(s') == Held(s) && InHand(s') == InHand(s);
    CompleteMoves(cfg, s, k, 0, s.pool[k].job);
    CompleteMoves(cfg, s, k, 1, s.pool[k].job);
  }

  lemma CompleteKeepsInv(cfg: Config, s: State, k: nat)
    requires cfg.Valid() && Inv(cfg, s) && Enabled(cfg, s, Complete(k))
    ensures Inv(cfg, Apply(cfg, s, Complete(k)))
  {
    assert SameThread(s, Apply(cfg, s, Complete(k)));
    if !s.pc.Aborted? {
      CompleteFlight(cfg, s, k);
      CompleteThread(cfg, s, k);
      assert FilledOk(cfg, Apply(cfg, s, Complete(k)));
    }
  }

  // Steps of the reorder thread.

  /** What the thread can pull is the next job or, with two in flight, the one after it. */
  lemma PulledJob(cfg: Config, s: State)
    requires Conserved(s) && FlightOk(cfg, s) && s.out != []
    ensures var k, j := Chosen(s), s.out[0].job;
            && k < s.rxAt <= k + 2
            && (j == cfg.plan[k].job || (s.rxAt == k + 2 && j == cfg.plan[k + 1].job))
  {
    var j := s.out[0].job;
    var k := Chosen(s);
    assert InFlight(s, j) >= 1;
    assert Due(cfg.plan, k, s.rxAt, j) >= 1;
    if s.rxAt == k + 2 {
      assert Due(cfg.plan, k, k + 2, j) == Due(cfg.plan, k, k + 1, j) + (if cfg.plan[k + 1].job == j then 1 else 0);
    }
  }

  /** Pulling the head of L1_tx_out into the reserve or the hand keeps every element counted. */
  lemma PullMoves(s: State, s': State, id: nat, j: Job)
    requires s.out != [] && s'.out == s.out[1..]
    requires s'.free == s.free && s'.filled == s.filled && s'.pool == s.pool
    ensures Held(s') == Held(s) && InHand(s) == [] && InHand(s') == [s.out[0]] ==>
              Places(s', id) == Places(s, id) && InFlight(s', j) == InFlight(s, j) - Carries(s.out[0], j)
    ensures Held(s) == [] && Held(s') == [s.out[0]] && InHand(s') == InHand(s) ==>
              Places(s', id) == Places(s, id) && InFlight(s', j) == InFlight(s, j)
  {
    var t := s.out[0];
    assert [t][1..] == [];
    assert Count([t], id) == One(t, id) && Load([t], j) == Carries(t, j);
  }

  /** Two elements held in different places are different elements. */
  lemma HeldIsNotPulled(s: State)
    requires Conserved(s) && s.out != [] && s.reserve.Some? && !s.pc.Hand? && !s.pc.Aborted?
    ensures s.out[0].id != s.reserve.value.id
  {
    var t, r := s.out[0], s.reserve.value;
    assert Held(s) == [r];
    if t.id == r.id {
      assert Count(s.out, t.id) >= 1 && Count(Held(s), t.id) == 1;
      IdIsSmall(s, t.id);
    }
  }

  lemma {:induction false} CountAtMostLength(ts: seq<Token>)
    ensures Count(ts, 0) + Count(ts, 1) <= |ts|
    ensures forall i :: 0 <= i < |ts| && ts[i].id > 1 ==> Count(ts, 0) + Count(ts, 1) < |ts|
  {
    if ts != [] {
      CountAtMostLength(ts[1..]);
    }
  }

  /** With both elements counted, there is no third identity. */
  lemma IdIsSmall(s: State, id: nat)
    requires Conserved(s) && Count(s.out, id) >= 1
    ensures Places(s, id) == 1
  {
    if 1 < id {
      OccursWhenCounted(s.out, id);
      CountAtMostLength(s.free);
      CountAtMostLength(s.filled);
      CountAtMostLength(s.pool);
      CountAtMostLength(s.out);
      CountAtMostLength(Held(s));
      CountAtMostLength(InHand(s));
    }
  }

  lemma {:induction false} OccursWhenCounted(ts: seq<Token>, id: nat)
    requires Count(ts, id) >= 1
    ensures exists i :: 0 <= i < |ts| && ts[i].id == id
  {
    if ts[0].id != id {
      OccursWhenCounted(ts[1..], id);
      var i :| 0 <= i < |ts[1..]| && ts[1..][i].id == id;
      assert ts[i + 1].id == id;
    }
  }

  lemma StartKeepsInv(cfg: Config, s: State)
    requires cfg.Valid() && Inv(cfg, s) && s.pc.Start? && Enabled(cfg, s, Reorder)
    requires StartsInOrder(cfg, ApplyReorder(cfg, s))
    ensures Inv(cfg, ApplyReorder(cfg, s))
  {
    var s' := ApplyReorder(cfg, s);
    PulledJob(cfg, s);
    assert Held(s) == [] && Held(s') == [s.out[0]] && InHand(s') == InHand(s) == [];
    PullMoves(s, s', 0, s.out[0].job);
    PullMoves(s, s', 1, s.out[0].job);
    forall j
      ensures InFlight(s', j) == Due(cfg.plan, Chosen(s'), s'.rxAt, j)
    {
      PullMoves(s, s', 0, j);
    }
  }

  /** The reserve moves into the hand. */
  lemma TakeReserveKeepsInv(cfg: Config, s: State)
    requires cfg.Valid() && Inv(cfg, s) && s.pc.Head? && s.reserve.Some?
    ensures s.reserve.value.job.slot == s.expected
    ensures Inv(cfg, ApplyReorder(cfg, s))
  {
    var s', r, k := ApplyReorder(cfg, s), s.reserve.value, Chosen(s);
    assert Held(s) == [r] && InHand(s) == [] && r.job == cfg.plan[k].job;
    assert Held(s') == [] && InHand(s') == [r] && Chosen(s') == k + 1;
    forall j
      ensures InFlight(s', j) == Due(cfg.plan, k + 1, s'.rxAt, j)
    {
      DueAtFront(cfg.plan, k, s.rxAt, j);
      assert [r][1..] == [];
      assert Load([r], j) == Carries(r, j);
    }
  }

  lemma HeadKeepsInv(cfg: Config, s: State)
    requires cfg.Valid() && Inv(cfg, s) && s.pc.Head?
    ensures Inv(cfg, ApplyReorder(cfg, s))
  {
    if s.reserve.Some? {
      TakeReserveKeepsInv(cfg, s);
    } else {
      var s' := ApplyReorder(cfg, s);
      assert Held(s') == Held(s) && InHand(s') == InHand(s);
      assert forall j :: InFlight(s', j) == InFlight(s, j);
    }
  }

  /** Choosing the pulled element, when it is the next job. */
  lemma ChooseFlight(cfg: Config, s: State, s': State)
    requires Conserved(s) && FlightOk(cfg, s) && s.out != [] && s'.out == s.out[1..]
    requires s'.free == s.free && s'.filled == s.filled && s'.pool == s.pool && s'.rxAt == s.rxAt
    requires Held(s') == Held(s) && InHand(s) == [] && InHand(s') == [s.out[0]]
    requires Chosen(s') == Chosen(s) + 1 && Chosen(s) < |cfg.plan| && s.out[0].job == cfg.plan[Chosen(s)].job
    ensures Conserved(s') && FlightOk(cfg, s')
  {
    PulledJob(cfg, s);
    PullMoves(s, s', 0, s.out[0].job);
    PullMoves(s, s', 1, s.out[0].job);
    forall j
      ensures InFlight(s', j) == Due(cfg.plan, Chosen(s'), s'.rxAt, j)
    {
      DueAtFront(cfg.plan, Chosen(s), s.rxAt, j);
      PullMoves(s, s', 0, j);
    }
  }

  /** Storing the pulled element. */
  lemma StoreFlight(cfg: Config, s: State, s': State)
    requires Conserved(s) && FlightOk(cfg, s) && s.out != [] && s'.out == s.out[1..]
    requires s'.free == s.free && s'.filled == s.filled && s'.pool == s.pool && s'.rxAt == s.rxAt
    requires Held(s) == [] && Held(s') == [s.out[0]] && InHand(s) == InHand(s') == []
    requires Chosen(s') == Chosen(s)
    ensures Conserved(s') && FlightOk(cfg, s')
  {
    PullMoves(s, s', 0, s.out[0].job);
    PullMoves(s, s', 1, s.out[0].job);
    forall j
      ensures InFlight(s', j) == Due(cfg.plan, Chosen(s'), s'.rxAt, j)
    {
      PullMoves(s, s', 0, j);
    }
  }

  lemma PullGoodKeepsInv(cfg: Config, s: State)
    requires cfg.Valid() && NeighboursDiffer(cfg) && Inv(cfg, s) && s.pc.PullFirst? && Enabled(cfg, s, Reorder)
    requires s.out[0].job.slot == s.expected
    ensures Inv(cfg, ApplyReorder(cfg, s))
  {
    var s', t := ApplyReorder(cfg, s), s.out[0];
    PulledJob(cfg, s);
    assert Held(s) == [] && InHand(s) == [] && Held(s') == [] && InHand(s') == [t];
    assert t.job == cfg.plan[Chosen(s)].job;
    ChooseFlight(cfg, s, s');
  }

  lemma PullEarlyKeepsInv(cfg: Config, s: State)
    requires cfg.Valid() && Inv(cfg, s) && s.pc.PullFirst? && Enabled(cfg, s, Reorder)
    requires s.out[0].job.slot != s.expected
    ensures Inv(cfg, ApplyReorder(cfg, s))
  {
    var s', t := ApplyReorder(cfg, s), s.out[0];
    PulledJob(cfg, s);
    assert Held(s) == [] && InHand(s) == [] && Held(s') == [t] && InHand(s') == [];
    assert t.job == cfg.plan[Chosen(s) + 1].job;
    StoreFlight(cfg, s, s');
  }

  /** With the later job in reserve, the other element in flight carries the next one. */
  lemma SecondIsNext(cfg: Config, s: State)
    requires Conserved(s) && FlightOk(cfg, s) && ThreadOk(cfg, s) && s.pc.PullSecond? && s.out != []
    ensures s.out[0].job == cfg.plan[Chosen(s)].job
  {
    var t, k := s.out[0], Chosen(s);
    PulledJob(cfg, s);
    if t.job == cfg.plan[k + 1].job {
      assert InFlight(s, t.job) >= 2;
      assert Due(cfg.plan, k, k + 2, t.job) == Due(cfg.plan, k, k + 1, t.job) + 1;
    }
  }

  lemma PullSecondKeepsInv(cfg: Config, s: State)
    requires cfg.Valid() && NeighboursDiffer(cfg) && Inv(cfg, s) && s.pc.PullSecond? && Enabled(cfg, s, Reorder)
    ensures Inv(cfg, ApplyReorder(cfg, s))
  {
    var s', r := ApplyReorder(cfg, s), s.reserve.value;
    PulledJob(cfg, s);
    HeldIsNotPulled(s);
    SecondIsNext(cfg, s);
    assert Held(s) == [r] && Held(s') == [r] && InHand(s) == [] && InHand(s') == [s.out[0]];
    ChooseFlight(cfg, s, s');
    assert ThreadOk(cfg, s');
  }

  lemma ReleasePlaces(cfg: Config, s: State, id: nat)
    requires cfg.Valid() && s.pc.Hand? && cfg.NextSlot(s.pc.token.job).Some?
    ensures Held(ApplyReorder(cfg, s)) == Held(s) && InHand(ApplyReorder(cfg, s)) == []
    ensures Places(ApplyReorder(cfg, s), id) == Places(s, id)
  {
    var t := s.pc.token;
    assert [t][1..] == [];
    assert Count([t], id) == One(t, id);
    Push(s.free, t, id, t.job);
  }

  lemma ReleaseFlight(cfg: Config, s: State)
    requires cfg.Valid() && s.pc.Hand? && cfg.NextSlot(s.pc.token.job).Some?
    requires Conserved(s) && FlightOk(cfg, s)
    ensures Conserved(ApplyReorder(cfg, s)) && FlightOk(cfg, ApplyReorder(cfg, s))
  {
    ReleasePlaces(cfg, s, 0);
    ReleasePlaces(cfg, s, 1);
    var s' := ApplyReorder(cfg, s);
    assert forall j :: InFlight(s', j) == InFlight(s, j);
  }

  lemma ReleaseThread(cfg: Config, s: State)
    requires cfg.Valid() && Chained(cfg) && s.pc.Hand? && cfg.NextSlot(s.pc.token.job).Some? && ThreadOk(cfg, s)
    ensures ThreadOk(cfg, ApplyReorder(cfg, s))
  {
    var k := Chosen(s);
    assert k < |cfg.plan| ==> cfg.NextSlot(cfg.plan[k - 1].job) == Some(cfg.plan[k - 1 + 1].job.slot);
  }

  lemma ReleaseKeepsInv(cfg: Config, s: State)
    requires cfg.Valid() && Chained(cfg) && Inv(cfg, s) && s.pc.Hand?
    ensures Inv(cfg, ApplyReorder(cfg, s))
  {
    var s' := ApplyReorder(cfg, s);
    assert s'.sent == s.sent && s'.filled == s.filled && s'.fillAt == s.fillAt && s'.rxAt == s.rxAt;
    if cfg.NextSlot(s.pc.token.job).Some? {
      ReleaseFlight(cfg, s);
      ReleaseThread(cfg, s);
    }
  }

  lemma SendKeepsInv(cfg: Config, s: State)
    requires cfg.Valid() && Inv(cfg, s) && s.pc.Sending?
    ensures Inv(cfg, ApplyReorder(cfg, s))
  {
    var s' := ApplyReorder(cfg, s);
    assert Held(s') == Held(s) && InHand(s') == InHand(s) && Chosen(s') == Chosen(s);
    assert forall j :: InFlight(s', j) == InFlight(s, j);
  }

  lemma StepKeepsInv(cfg: Config, s: State, step: Step)
    requires cfg.Valid() && Chained(cfg) && NeighboursDiffer(cfg) && Inv(cfg, s) && Enabled(cfg, s, step)
    requires StartsInOrder(cfg, Apply(cfg, s, step))
    ensures Inv(cfg, Apply(cfg, s, step))
  {
    match step
    case Fill => FillKeepsInv(cfg, s);
    case Rx => RxKeepsInv(cfg, s);
    case Complete(k) => CompleteKeepsInv(cfg, s, k);
    case Reorder =>
      match s.pc {
        case Start => StartKeepsInv(cfg, s);
        case Head => HeadKeepsInv(cfg, s);
        case PullFirst =>
          if s.out[0].job.slot == s.expected {
            PullGoodKeepsInv(cfg, s);
          } else {
            PullEarlyKeepsInv(cfg, s);
          }
        case PullSecond => PullSecondKeepsInv(cfg, s);
        case Hand(_) => ReleaseKeepsInv(cfg, s);
        case Sending(_) => SendKeepsInv(cfg, s);
      }
  }

  // Whole runs.

  lemma FirstPulledStays(cfg: Config, s: State, step: Step)
    requires cfg.Valid() && Enabled(cfg, s, step)
    ensures !s.pc.Start? ==> Apply(cfg, s, step).firstPulled == s.firstPulled
  {
  }

  /** Once pulled, the first job stays recorded; before that there is none. */
  lemma {:induction false} FirstPulledOnce(cfg: Config, steps: seq<Step>)
    requires cfg.Valid() && IsRun(cfg, steps)
    ensures After(cfg, steps).pc.Start? <==> After(cfg, steps).firstPulled.None?
  {
    if steps != [] {
      FirstPulledOnce(cfg, steps[..|steps| - 1]);
    }
  }

  lemma {:induction false} RunKeepsInv(cfg: Config, steps: seq<Step>)
    requires cfg.Valid() && Chained(cfg) && NeighboursDiffer(cfg)
    requires IsRun(cfg, steps) && StartsInOrder(cfg, After(cfg, steps))
    ensures Inv(cfg, After(cfg, steps))
  {
    if steps == [] {
      InitInv(cfg);
    } else {
      var before, step := steps[..|steps| - 1], steps[|steps| - 1];
      FirstPulledOnce(cfg, before);
      FirstPulledStays(cfg, After(cfg, before), step);
      RunKeepsInv(cfg, before);
      StepKeepsInv(cfg, After(cfg, before), step);
    }
  }

  lemma InitInv(cfg: Config)
    ensures Inv(cfg, Init())
  {
    var s := Init();
    assert s.free[1..] == [s.free[1]] && s.free[1..][1..] == [];
    assert Count(s.free, 0) == 1 && Count(s.free, 1) == 1;
  }

  /** The first job sent is the first job pulled, in every run. */
  ghost predicate FirstOk(s: State) {
    && (s.sent != [] ==> s.firstPulled == Some(s.sent[0]) && !s.pc.Start?)
    && (s.sent == [] ==>
          match s.pc
          case Start => s.firstPulled.None?
          case Head => s.reserve.Some? && s.firstPulled == Some(s.reserve.value.job) && s.expected == s.reserve.value.job.slot
          case Hand(t) => s.firstPulled == Some(t.job)
          case Sending(j) => s.firstPulled == Some(j)
          case Aborted => true
          case _ => false)
  }

  lemma StepKeepsFirst(cfg: Config, s: State, step: Step)
    requires cfg.Valid() && FirstOk(s) && Enabled(cfg, s, step)
    ensures FirstOk(Apply(cfg, s, step))
  {
  }

  lemma {:induction false} FirstSentIsFirstPulled(cfg: Config, steps: seq<Step>)
    requires cfg.Valid() && IsRun(cfg, steps)
    ensures FirstOk(After(cfg, steps))
  {
    if steps != [] {
      var before := steps[..|steps| - 1];
      FirstSentIsFirstPulled(cfg, before);
      StepKeepsFirst(cfg, After(cfg, before), steps[|steps| - 1]);
    }
  }

  /** In every run the jobs handed to the radio are a prefix of the dispatch sequence, in order,
      none lost and none twice, if and only if nothing was sent yet or the first element pulled
      at start-up carried the first job. */
  lemma InOrderIffStartsInOrder(cfg: Config, steps: seq<Step>)
    requires cfg.Valid() && Chained(cfg) && NeighboursDiffer(cfg) && IsRun(cfg, steps)
    ensures var s := After(cfg, steps);
            s.sent <= cfg.Jobs() <==> (s.sent == [] || (cfg.plan != [] && s.firstPulled == Some(cfg.plan[0].job)))
  {
    var s := After(cfg, steps);
    FirstSentIsFirstPulled(cfg, steps);
    FirstPulledOnce(cfg, steps);
    if s.sent != [] && cfg.plan != [] && s.firstPulled == Some(cfg.plan[0].job) {
      RunKeepsInv(cfg, steps);
    }
  }

  /** In every run that starts in order, unless the program was stopped: each element is in
      exactly one place, no error branch was taken, at most two dispatched jobs are not chosen
      yet and at most three are not transmitted yet. */
  lemma NothingLost(cfg: Config, steps: seq<Step>)
    requires cfg.Valid() && Chained(cfg) && NeighboursDiffer(cfg)
    requires IsRun(cfg, steps) && StartsInOrder(cfg, After(cfg, steps))
    ensures var s := After(cfg, steps);
            && s.faults == []
            && (!s.pc.Aborted? ==>
                  && Places(s, 0) == 1 && Places(s, 1) == 1
                  && |s.free| + |s.filled| + |s.pool| + |s.out| + |Held(s)| + |InHand(s)| == 2
                  && Chosen(s) <= s.rxAt <= Chosen(s) + 2
                  && s.rxAt <= |s.sent| + 3
                  && (s.rxAt == |s.sent| + 3 ==> s.pc.Sending?))
  {
    RunKeepsInv(cfg, steps);
  }
}
