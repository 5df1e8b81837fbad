/** Counting X2 handovers in an eNB log: one automaton for both directions, fed line by line. */
module X2Handover {
  /** What the patterns find in a line. */
  datatype Mark =
    | HandoverReq | HandoverReqAck | ReconfigurationComplete | PathSwitchReq | PathSwitchAck | ContextRelease
  type Line = set<Mark>

  datatype Phase =
    | Idle | TargetReceivesReq | TargetRrcRecfgComplete | TargetSendsSwitchReq | SourceReceivesReqAck

  datatype State = State(phase: Phase, inNb: nat, outNb: nat)

  // The tests of one line, one after the other: each sees the state the one before it left.

  function AtIdle(p: Phase, l: Line): Phase {
    if p != Idle then p
    else if HandoverReqAck in l then SourceReceivesReqAck
    else if HandoverReq in l then TargetReceivesReq
    else Idle
  }

  function AtReq(p: Phase, l: Line): Phase {
    if p == TargetReceivesReq && ReconfigurationComplete in l then TargetRrcRecfgComplete else p
  }

  function AtRecfg(p: Phase, l: Line): Phase {
    if p == TargetRrcRecfgComplete && PathSwitchReq in l then TargetSendsSwitchReq else p
  }

  function Step(s: State, l: Line): State {
    var p := AtRecfg(AtReq(AtIdle(s.phase, l), l), l);
    if p == TargetSendsSwitchReq && PathSwitchAck in l then State(Idle, s.inNb + 1, s.outNb)
    else if p == SourceReceivesReqAck && ContextRelease in l then State(Idle, s.inNb, s.outNb + 1)
    else s.(phase := p)
  }

  function Run(s: State, log: seq<Line>): State {
    if log == [] then s else Step(Run(s, log[..|log| - 1]), log[|log| - 1])
  }

  /** The loop of the log analysis. */
  method Count(log: seq<Line>) returns (inNb: nat, outNb: nat, phase: Phase)
    ensures State(phase, inNb, outNb) == Run(State(Idle, 0, 0), log)
  {
    inNb, outNb, phase := 0, 0, Idle;
    for i := 0 to |log|
      invariant State(phase, inNb, outNb) == Run(State(Idle, 0, 0), log[..i])
    {
      var line := log[i];
      assert log[..i + 1][..i] == log[..i];
      if phase == Idle {
        if HandoverReq in line {
          phase := TargetReceivesReq;
        }
        if HandoverReqAck in line {
          phase := SourceReceivesReqAck;
        }
      }
      if phase == TargetReceivesReq {
        if ReconfigurationComplete in line {
          phase := TargetRrcRecfgComplete;
        }
      }
      if phase == TargetRrcRecfgComplete {
        if PathSwitchReq in line {
          phase := TargetSendsSwitchReq;
        }
      }
      if phase == TargetSendsSwitchReq {
        if PathSwitchAck in line {
          phase, inNb := Idle, inNb + 1;
        }
      }
      if phase == SourceReceivesReqAck {
        if ContextRelease in line {
          phase, outNb := Idle, outNb + 1;
        }
      }
    }
    assert log[..|log|] == log;
  }

  // Witnesses.

  /** The lines of a handover's messages. */
  datatype Handover =
    | Incoming(req: nat, complete: nat, switchReq: nat, ack: nat)
    | Outgoing(reqAck: nat, release: nat)
  {
    function First(): nat { if Incoming? then req else reqAck }

    function Last(): nat { if Incoming? then ack else release }
  }

  predicate Has(log: seq<Line>, i: nat, m: Mark) { i < |log| && m in log[i] }

  /** All messages are in the log, none before an earlier one. */
  predicate IsIn(log: seq<Line>, h: Handover) {
    match h
    case Incoming(r, c, s, a) =>
      && Has(log, r, HandoverReq) && Has(log, c, ReconfigurationComplete) && Has(log, s, PathSwitchReq)
      && Has(log, a, PathSwitchAck) && r <= c <= s <= a
    case Outgoing(r, c) => Has(log, r, HandoverReqAck) && Has(log, c, ContextRelease) && r <= c
  }

  /** A handover that has begun: the lines of the messages seen. */
  datatype Begun = Nothing | Req(req: nat) | Recfg(req: nat, complete: nat) | Switch(req: nat, complete: nat, switchReq: nat)
    | Ack(reqAck: nat)
  {
    function Phase(): Phase {
      match this
      case Nothing => Idle
      case Req(_) => TargetReceivesReq
      case Recfg(_, _) => TargetRrcRecfgComplete
      case Switch(_, _, _) => TargetSendsSwitchReq
      case Ack(_) => SourceReceivesReqAck
    }

    /** Not before line i. */
    predicate From(i: nat) {
      match this
      case Nothing => true
      case Req(r) => i <= r
      case Recfg(r, _) => i <= r
      case Switch(r, _, _) => i <= r
      case Ack(r) => i <= r
    }
  }

  predicate HasBegun(log: seq<Line>, b: Begun) {
    match b
    case Nothing => true
    case Req(r) => Has(log, r, HandoverReq)
    case Recfg(r, c) => Has(log, r, HandoverReq) && Has(log, c, ReconfigurationComplete) && r <= c
    case Switch(r, c, s) =>
      Has(log, r, HandoverReq) && Has(log, c, ReconfigurationComplete) && Has(log, s, PathSwitchReq) && r <= c <= s
    case Ack(r) => Has(log, r, HandoverReqAck)
  }

  function InCount(hs: seq<Handover>): nat {
    if hs == [] then 0 else InCount(hs[..|hs| - 1]) + if hs[|hs| - 1].Incoming? then 1 else 0
  }

  /** The line after the last handover. */
  function End(hs: seq<Handover>): nat { if hs == [] then 0 else hs[|hs| - 1].Last() + 1 }

  /** Handovers of the log, each after the one before. */
  predicate Apart(log: seq<Line>, hs: seq<Handover>) {
    hs != [] ==>
      && IsIn(log, hs[|hs| - 1]) && End(hs[..|hs| - 1]) <= hs[|hs| - 1].First()
      && Apart(log, hs[..|hs| - 1])
  }

  /** The counts are those of handovers in the log that do not overlap, and what the automaton is
      in the middle of is one more that does not overlap them. */
  predicate Explains(log: seq<Line>, s: State, hs: seq<Handover>, b: Begun) {
    && Apart(log, hs) && InCount(hs) == s.inNb && |hs| == s.inNb + s.outNb
    && HasBegun(log, b) && b.Phase() == s.phase && b.From(End(hs))
  }

  lemma {:induction false} ApartInMore(log: seq<Line>, l: Line, hs: seq<Handover>)
    requires Apart(log, hs)
    ensures Apart(log + [l], hs) && End(hs) <= |log|
  {
    if hs != [] {
      ApartInMore(log, l, hs[..|hs| - 1]);
    }
  }

  /** What has begun after the first three tests of a line, line number n. */
  function Advance(b: Begun, l: Line, n: nat): Begun {
    var b1 := if b != Nothing then b else if HandoverReqAck in l then Ack(n) else if HandoverReq in l then Req(n) else b;
    var b2 := if b1.Req? && ReconfigurationComplete in l then Recfg(b1.req, n) else b1;
    if b2.Recfg? && PathSwitchReq in l then Switch(b2.req, b2.complete, n) else b2
  }

  lemma AdvanceHasBegun(log: seq<Line>, l: Line, b: Begun, from: nat)
    requires HasBegun(log, b) && b.From(from) && from <= |log|
    ensures var b' := Advance(b, l, |log|);
            HasBegun(log + [l], b') && b'.From(from) && b'.Phase() == AtRecfg(AtReq(AtIdle(b.Phase(), l), l), l)
  {
    assert (log + [l])[|log|] == l;
  }

  lemma OneMoreHandover(log: seq<Line>, hs: seq<Handover>, h: Handover)
    requires Apart(log, hs) && IsIn(log, h) && End(hs) <= h.First()
    ensures Apart(log, hs + [h]) && InCount(hs + [h]) == InCount(hs) + if h.Incoming? then 1 else 0
  {
    assert (hs + [h])[..|hs|] == hs;
  }

  lemma StepExplained(log: seq<Line>, l: Line, s: State, hs: seq<Handover>, b: Begun)
    returns (hs': seq<Handover>, b': Begun)
    requires Explains(log, s, hs, b)
    ensures Explains(log + [l], Step(s, l), hs', b')
  {
    ApartInMore(log, l, hs);
    AdvanceHasBegun(log, l, b, End(hs));
    var n, log' := |log|, log + [l];
    assert log'[n] == l;
    b' := Advance(b, l, n);
    hs' := hs;
    if b'.Switch? && PathSwitchAck in l {
      var h := Incoming(b'.req, b'.complete, b'.switchReq, n);
      OneMoreHandover(log', hs, h);
      hs', b' := hs + [h], Nothing;
    } else if b'.Ack? && ContextRelease in l {
      var h := Outgoing(b'.reqAck, n);
      OneMoreHandover(log', hs, h);
      hs', b' := hs + [h], Nothing;
    }
  }

  /** For every log, the counted handovers are in it, pairwise without overlap, each with its
      messages in order; and at most one more has begun. */
  lemma {:induction false} CountsHaveWitnesses(log: seq<Line>) returns (hs: seq<Handover>, b: Begun)
    ensures Explains(log, Run(State(Idle, 0, 0), log), hs, b)
  {
    if log == [] {
      hs, b := [], Nothing;
    } else {
      var n := |log| - 1;
      hs, b := CountsHaveWitnesses(log[..n]);
      hs, b := StepExplained(log[..n], log[n], Run(State(Idle, 0, 0), log[..n]), hs, b);
      assert log[..n] + [log[n]] == log;
    }
  }

  // Completeness.

  /** A handover as it is logged: lines that say nothing yet, then the next message. */
  datatype Logged =
    | In(before: seq<Line>, req: Line, wait1: seq<Line>, complete: Line, wait2: seq<Line>, switchReq: Line,
         wait3: seq<Line>, ack: Line)
    | Out(before: seq<Line>, reqAck: Line, wait1: seq<Line>, release: Line)

  predicate Lacks(lines: seq<Line>, ms: set<Mark>) {
    forall i :: 0 <= i < |lines| ==> lines[i] !! ms
  }

  /** The messages come on lines of their own; while the automaton waits for one, the others may
      come as they like. */
  predicate IsLogged(g: Logged) {
    match g
    case In(before, req, w1, complete, w2, sw, w3, ack) =>
      && Lacks(before, {HandoverReq, HandoverReqAck}) && HandoverReq in req
      && HandoverReqAck !in req && ReconfigurationComplete !in req
      && Lacks(w1, {ReconfigurationComplete}) && ReconfigurationComplete in complete && PathSwitchReq !in complete
      && Lacks(w2, {PathSwitchReq}) && PathSwitchReq in sw && PathSwitchAck !in sw
      && Lacks(w3, {PathSwitchAck}) && PathSwitchAck in ack
    case Out(before, reqAck, w1, release) =>
      && Lacks(before, {HandoverReq, HandoverReqAck}) && HandoverReqAck in reqAck && ContextRelease !in reqAck
      && Lacks(w1, {ContextRelease}) && ContextRelease in release
  }

  function Lines(g: Logged): seq<Line> {
    match g
    case In(before, req, w1, complete, w2, sw, w3, ack) =>
      before + [req] + w1 + [complete] + w2 + [sw] + w3 + [ack]
    case Out(before, reqAck, w1, release) => before + [reqAck] + w1 + [release]
  }

  function AllLines(gs: seq<Logged>): seq<Line> {
    if gs == [] then [] else AllLines(gs[..|gs| - 1]) + Lines(gs[|gs| - 1])
  }

  lemma {:induction false} RunOfTwo(s: State, a: seq<Line>, b: seq<Line>)
    ensures Run(s, a + b) == Run(Run(s, a), b)
    decreases |b|
  {
    if b == [] {
      assert a + b == a;
    } else {
      var n := |b| - 1;
      RunOfTwo(s, a, b[..n]);
      assert (a + b)[..|a + b| - 1] == a + b[..n];
    }
  }

  lemma RunOfOne(s: State, l: Line)
    ensures Run(s, [l]) == Step(s, l)
  {
    assert [l][..0] == [];
    assert Run(s, []) == s;
  }

  /** What each phase waits for. */
  function Awaited(p: Phase): set<Mark> {
    match p
    case Idle => {HandoverReq, HandoverReqAck}
    case TargetReceivesReq => {ReconfigurationComplete}
    case TargetRrcRecfgComplete => {PathSwitchReq}
    case TargetSendsSwitchReq => {PathSwitchAck}
    case SourceReceivesReqAck => {ContextRelease}
  }

  lemma StepWaits(s: State, l: Line)
    requires l !! Awaited(s.phase)
    ensures Step(s, l) == s
  {
    assert forall m :: m in Awaited(s.phase) ==> m !in l;
  }

  lemma {:induction false} RunWaits(s: State, lines: seq<Line>)
    requires Lacks(lines, Awaited(s.phase))
    ensures Run(s, lines) == s
  {
    if lines != [] {
      RunWaits(s, lines[..|lines| - 1]);
      StepWaits(s, lines[|lines| - 1]);
    }
  }

  /** Wait, then one message. */
  lemma RunFirst(s: State, wait: seq<Line>, l: Line)
    requires Lacks(wait, Awaited(s.phase))
    ensures Run(s, wait + [l]) == Step(s, l)
  {
    RunWaits(s, wait);
    RunOfTwo(s, wait, [l]);
    RunOfOne(s, l);
  }

  lemma RunNext(s: State, log: seq<Line>, s': State, wait: seq<Line>, l: Line)
    requires Run(s, log) == s' && Lacks(wait, Awaited(s'.phase))
    ensures Run(s, log + wait + [l]) == Step(s', l)
  {
    RunFirst(s', wait, l);
    RunOfTwo(s, log, wait + [l]);
    assert log + (wait + [l]) == log + wait + [l];
  }

  lemma InCounted(s: State, g: Logged)
    requires s.phase == Idle && g.In? && IsLogged(g)
    ensures Run(s, Lines(g)) == State(Idle, s.inNb + 1, s.outNb)
  {
    RunFirst(s, g.before, g.req);
    var l1, s1 := g.before + [g.req], s.(phase := TargetReceivesReq);
    RunNext(s, l1, s1, g.wait1, g.complete);
    var l2, s2 := l1 + g.wait1 + [g.complete], s.(phase := TargetRrcRecfgComplete);
    RunNext(s, l2, s2, g.wait2, g.switchReq);
    var l3, s3 := l2 + g.wait2 + [g.switchReq], s.(phase := TargetSendsSwitchReq);
    RunNext(s, l3, s3, g.wait3, g.ack);
  }

  lemma OutCounted(s: State, g: Logged)
    requires s.phase == Idle && g.Out? && IsLogged(g)
    ensures Run(s, Lines(g)) == State(Idle, s.inNb, s.outNb + 1)
  {
    RunFirst(s, g.before, g.reqAck);
    RunNext(s, g.before + [g.reqAck], s.(phase := SourceReceivesReqAck), g.wait1, g.release);
  }

  function Ins(gs: seq<Logged>): nat {
    if gs == [] then 0 else Ins(gs[..|gs| - 1]) + if gs[|gs| - 1].In? then 1 else 0
  }

  /** A log of complete handovers, one after the other, is counted exactly. */
  lemma {:induction false} CompleteLogIsCounted(gs: seq<Logged>)
    requires forall i :: 0 <= i < |gs| ==> IsLogged(gs[i])
    ensures Ins(gs) <= |gs|
    ensures Run(State(Idle, 0, 0), AllLines(gs)) == State(Idle, Ins(gs), |gs| - Ins(gs))
  {
    if gs != [] {
      var n := |gs| - 1;
      CompleteLogIsCounted(gs[..n]);
      RunOfTwo(State(Idle, 0, 0), AllLines(gs[..n]), Lines(gs[n]));
      var s := Run(State(Idle, 0, 0), AllLines(gs[..n]));
      if gs[n].In? {
        InCounted(s, gs[n]);
      } else {
        OutCounted(s, gs[n]);
      }
    }
  }
}
