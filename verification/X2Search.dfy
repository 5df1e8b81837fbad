/** The handover automaton does a plain search: message by message, the first line that has it. */
module X2Search {
  import opened X2Handover

  /** The first line from i on that has one of the marks, or the end of the log. */
  function FirstWith(log: seq<Line>, i: nat, ms: set<Mark>): (j: nat)
    requires i <= |log|
    ensures i <= j <= |log| && (j < |log| ==> !(log[j] !! ms)) && forall k :: i <= k < j ==> log[k] !! ms
    decreases |log| - i
  {
    if i == |log| || !(log[i] !! ms) then i else FirstWith(log, i + 1, ms)
  }

  /** How far a handover gets that began on some line: it ends in a phase, or before line `next`. */
  datatype Found = Stopped(phase: Phase) | Done(next: nat)

  /** An outgoing handover from its acknowledged request on. A message may be on the line of the one
      before. */
  function FindOut(log: seq<Line>, r: nat): (f: Found)
    requires r < |log|
    ensures f.Done? ==> r < f.next <= |log|
  {
    var c := FirstWith(log, r, {ContextRelease});
    if c == |log| then Stopped(SourceReceivesReqAck) else Done(c + 1)
  }

  /** An incoming handover from its request on. */
  function FindIn(log: seq<Line>, r: nat): (f: Found)
    requires r < |log|
    ensures f.Done? ==> r < f.next <= |log|
  {
    var c := FirstWith(log, r, {ReconfigurationComplete});
    if c == |log| then Stopped(TargetReceivesReq)
    else
      var s := FirstWith(log, c, {PathSwitchReq});
      if s == |log| then Stopped(TargetRrcRecfgComplete)
      else
        var a := FirstWith(log, s, {PathSwitchAck});
        if a == |log| then Stopped(TargetSendsSwitchReq) else Done(a + 1)
  }

  /** The next handover from line i on. */
  datatype Next = NoneLeft | Unfinished(phase: Phase) | CameIn(next: nat) | WentOut(next: nat)

  function NextHandover(log: seq<Line>, i: nat): (h: Next)
    requires i <= |log|
    ensures h.CameIn? || h.WentOut? ==> i < h.next <= |log|
  {
    var r := FirstWith(log, i, {HandoverReq, HandoverReqAck});
    if r == |log| then NoneLeft
    else if HandoverReqAck in log[r] then
      match FindOut(log, r)
      case Stopped(phase) => Unfinished(phase)
      case Done(next) => WentOut(next)
    else
      match FindIn(log, r)
      case Stopped(phase) => Unfinished(phase)
      case Done(next) => CameIn(next)
  }

  /** What is found from line i on: handovers in and out, and how far the last one got. */
  function Search(log: seq<Line>, i: nat): State
    requires i <= |log|
    decreases |log| - i
  {
    match NextHandover(log, i)
    case NoneLeft => State(Idle, 0, 0)
    case Unfinished(phase) => State(phase, 0, 0)
    case CameIn(next) => Plus(Search(log, next), 1, 0)
    case WentOut(next) => Plus(Search(log, next), 0, 1)
  }

  function Plus(s: State, p: nat, q: nat): State { State(s.phase, s.inNb + p, s.outNb + q) }

  lemma RunFront(s: State, log: seq<Line>, j: nat)
    requires j < |log|
    ensures Run(s, log[j..]) == Run(Step(s, log[j]), log[j + 1..])
  {
    assert log[j..] == [log[j]] + log[j + 1..];
    RunOfTwo(s, [log[j]], log[j + 1..]);
    RunOfOne(s, log[j]);
  }

  /** The automaton waits from line i to the line j it waits for. */
  lemma WaitsUntil(s: State, log: seq<Line>, i: nat, j: nat)
    requires i <= j <= |log| && forall k :: i <= k < j ==> log[k] !! Awaited(s.phase)
    ensures Run(s, log[i..]) == Run(s, log[j..])
  {
    RunWaits(s, log[i..j]);
    assert log[i..] == log[i..j] + log[j..];
    RunOfTwo(s, log[i..j], log[j..]);
  }

  /** On the line it waits for it goes on as if it had waited for the next message already. */
  lemma GoesOn(s: State, p: Phase, log: seq<Line>, j: nat)
    requires j < |log| && Step(s, log[j]) == Step(s.(phase := p), log[j])
    ensures Run(s, log[j..]) == Run(s.(phase := p), log[j..])
  {
    RunFront(s, log, j);
    RunFront(s.(phase := p), log, j);
  }

  lemma AtTheEnd(s: State, log: seq<Line>)
    ensures Run(s, log[|log|..]) == s
  {
    assert log[|log|..] == [];
  }

  /** From an acknowledged request on. */
  lemma {:induction false} OutSearched(log: seq<Line>, r: nat, p: nat, q: nat)
    requires r < |log|
    ensures var c := FirstWith(log, r, {ContextRelease});
            Run(State(SourceReceivesReqAck, p, q), log[r..]) ==
              if c == |log| then State(SourceReceivesReqAck, p, q) else Run(State(Idle, p, q + 1), log[c + 1..])
  {
    var s, c := State(SourceReceivesReqAck, p, q), FirstWith(log, r, {ContextRelease});
    WaitsUntil(s, log, r, c);
    if c == |log| {
      AtTheEnd(s, log);
    } else {
      RunFront(s, log, c);
    }
  }

  lemma {:induction false} AckSearched(log: seq<Line>, s: nat, p: nat, q: nat)
    requires s < |log|
    ensures var a := FirstWith(log, s, {PathSwitchAck});
            Run(State(TargetSendsSwitchReq, p, q), log[s..]) ==
              if a == |log| then State(TargetSendsSwitchReq, p, q) else Run(State(Idle, p + 1, q), log[a + 1..])
  {
    var st, a := State(TargetSendsSwitchReq, p, q), FirstWith(log, s, {PathSwitchAck});
    WaitsUntil(st, log, s, a);
    if a == |log| {
      AtTheEnd(st, log);
    } else {
      RunFront(st, log, a);
    }
  }

  lemma {:induction false} SwitchSearched(log: seq<Line>, c: nat, p: nat, q: nat)
    requires c < |log|
    ensures var s := FirstWith(log, c, {PathSwitchReq});
            Run(State(TargetRrcRecfgComplete, p, q), log[c..]) ==
              if s == |log| then State(TargetRrcRecfgComplete, p, q) else Run(State(TargetSendsSwitchReq, p, q), log[s..])
  {
    var st, s := State(TargetRrcRecfgComplete, p, q), FirstWith(log, c, {PathSwitchReq});
    WaitsUntil(st, log, c, s);
    if s == |log| {
      AtTheEnd(st, log);
    } else {
      GoesOn(st, TargetSendsSwitchReq, log, s);
    }
  }

  lemma {:induction false} RecfgSearched(log: seq<Line>, r: nat, p: nat, q: nat)
    requires r < |log|
    ensures var c := FirstWith(log, r, {ReconfigurationComplete});
            Run(State(TargetReceivesReq, p, q), log[r..]) ==
              if c == |log| then State(TargetReceivesReq, p, q) else Run(State(TargetRrcRecfgComplete, p, q), log[c..])
  {
    var st, c := State(TargetReceivesReq, p, q), FirstWith(log, r, {ReconfigurationComplete});
    WaitsUntil(st, log, r, c);
    if c == |log| {
      AtTheEnd(st, log);
    } else {
      GoesOn(st, TargetRrcRecfgComplete, log, c);
    }
  }

  lemma {:induction false} IdleSearched(log: seq<Line>, i: nat, p: nat, q: nat)
    requires i <= |log|
    ensures var r := FirstWith(log, i, {HandoverReq, HandoverReqAck});
            Run(State(Idle, p, q), log[i..]) ==
              if r == |log| then State(Idle, p, q)
              else Run(State(if HandoverReqAck in log[r] then SourceReceivesReqAck else TargetReceivesReq, p, q), log[r..])
  {
    var st, r := State(Idle, p, q), FirstWith(log, i, {HandoverReq, HandoverReqAck});
    WaitsUntil(st, log, i, r);
    if r == |log| {
      AtTheEnd(st, log);
    } else {
      GoesOn(st, if HandoverReqAck in log[r] then SourceReceivesReqAck else TargetReceivesReq, log, r);
    }
  }

  lemma InSearched(log: seq<Line>, r: nat, p: nat, q: nat)
    requires r < |log|
    ensures Run(State(TargetReceivesReq, p, q), log[r..]) ==
              match FindIn(log, r)
              case Stopped(phase) => State(phase, p, q)
              case Done(next) => Run(State(Idle, p + 1, q), log[next..])
  {
    RecfgSearched(log, r, p, q);
    var c := FirstWith(log, r, {ReconfigurationComplete});
    if c < |log| {
      SwitchSearched(log, c, p, q);
      var s := FirstWith(log, c, {PathSwitchReq});
      if s < |log| {
        AckSearched(log, s, p, q);
      }
    }
  }

  lemma HandoverSearched(log: seq<Line>, i: nat, p: nat, q: nat)
    requires i <= |log|
    ensures Run(State(Idle, p, q), log[i..]) ==
              match NextHandover(log, i)
              case NoneLeft => State(Idle, p, q)
              case Unfinished(phase) => State(phase, p, q)
              case CameIn(next) => Run(State(Idle, p + 1, q), log[next..])
              case WentOut(next) => Run(State(Idle, p, q + 1), log[next..])
  {
    IdleSearched(log, i, p, q);
    var r := FirstWith(log, i, {HandoverReq, HandoverReqAck});
    if r < |log| {
      if HandoverReqAck in log[r] {
        OutSearched(log, r, p, q);
      } else {
        InSearched(log, r, p, q);
      }
    }
  }

  ghost predicate Agrees(log: seq<Line>, i: nat, p: nat, q: nat)
    requires i <= |log|
  {
    Run(State(Idle, p, q), log[i..]) == Plus(Search(log, i), p, q)
  }

  lemma AgreesIfNext(log: seq<Line>, i: nat, p: nat, q: nat)
    requires i <= |log|
    requires NextHandover(log, i).CameIn? ==> Agrees(log, NextHandover(log, i).next, p + 1, q)
    requires NextHandover(log, i).WentOut? ==> Agrees(log, NextHandover(log, i).next, p, q + 1)
    ensures Agrees(log, i, p, q)
  {
    HandoverSearched(log, i, p, q);
  }

  lemma {:induction false} SearchFrom(log: seq<Line>, i: nat, p: nat, q: nat)
    requires i <= |log|
    ensures Agrees(log, i, p, q)
    decreases |log| - i
  {
    var h := NextHandover(log, i);
    if h.CameIn? {
      SearchFrom(log, h.next, p + 1, q);
    } else if h.WentOut? {
      SearchFrom(log, h.next, p, q + 1);
    }
    AgreesIfNext(log, i, p, q);
  }

  /** For every log the automaton counts what the search finds. */
  lemma RunIsSearch(log: seq<Line>)
    ensures Run(State(Idle, 0, 0), log) == Search(log, 0)
  {
    SearchFrom(log, 0, 0, 0);
    assert log[0..] == log;
  }
}
