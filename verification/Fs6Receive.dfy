/** receiveSubFrame: the packets of one timestamp are gathered; a packet of a later one ends the call
    and is kept for the next, a packet of an earlier one is dropped. */
module Fs6Receive {
  import opened Options
  import opened Bytes

  /** A packet: the group it belongs to, the format and the number of blocks it announces, and its
      bytes. */
  datatype Packet = Packet(ts: nat, ct: nat, nb: nat, bytes: seq<byte>)

  /** What the socket gives: a packet, or one of the errors of recv. */
  datatype Event = Arrival(p: Packet) | Timeout | Failure

  /** How a call ends: all blocks came, a packet of a later group came, the two errors, a packet of
      another format stops the program, or it still waits for the socket. */
  datatype End = Complete | Overtaken | TimedOut | Broken | Stopped | Waiting

  /** A call: the packets it returns, the ones it drops as late, the one it keeps for the next call,
      and what is left in the socket. */
  datatype Call = Call(group: seq<Packet>, late: seq<Packet>, cross: Option<Packet>, rest: seq<Event>, end: End)

  /** The loop's condition. */
  predicate Wants(group: seq<Packet>) { group == [] || |group| < group[0].nb }

  /** A packet of a group that another one overtook. */
  predicate IsLate(group: seq<Packet>, p: Packet) { group != [] && p.ts < group[0].ts }

  predicate IsAhead(group: seq<Packet>, p: Packet) { group != [] && group[0].ts < p.ts }

  /** The loop, from a recv on. */
  function Loop(group: seq<Packet>, late: seq<Packet>, net: seq<Event>, ct: nat): (c: Call)
    ensures net != [] ==> |c.rest| < |net|
    ensures net == [] ==> c.end == Waiting
    decreases |net|, 0
  {
    if net == [] then Call(group, late, None, [], Waiting)
    else
      match net[0]
      case Timeout => Call(group, late, None, net[1..], TimedOut)
      case Failure => Call(group, late, None, net[1..], Broken)
      case Arrival(p) =>
        if p.ct != ct then Call(group, late, None, net[1..], Stopped)
        else if IsAhead(group, p) then Call(group, late, Some(p), net[1..], Overtaken)
        else if IsLate(group, p) then Next(group, late + [p], net[1..], ct)
        else Next(group + [p], late, net[1..], ct)
  }

  /** The end of a pass. */
  function Next(group: seq<Packet>, late: seq<Packet>, net: seq<Event>, ct: nat): (c: Call)
    ensures |c.rest| <= |net|
    decreases |net|, 1
  {
    if Wants(group) then Loop(group, late, net, ct) else Call(group, late, None, net, Complete)
  }

  function Kept(cross: Option<Packet>): seq<Packet> { if cross.Some? then [cross.value] else [] }

  /** A call of receiveSubFrame with what the last one kept. */
  function Receive(cross: Option<Packet>, net: seq<Event>, ct: nat): (c: Call)
    ensures net != [] ==> |c.rest| < |net|
    ensures net == [] ==> c.end == Waiting
  {
    Loop(Kept(cross), [], net, ct)
  }

  // What every call keeps.

  /** How often a packet is among these. */
  function Count(ps: seq<Packet>, q: Packet): nat {
    if ps == [] then 0 else Count(ps[..|ps| - 1], q) + if ps[|ps| - 1] == q then 1 else 0
  }

  lemma CountOneMore(ps: seq<Packet>, p: Packet, q: Packet)
    ensures Count(ps + [p], q) == Count(ps, q) + if p == q then 1 else 0
  {
    assert (ps + [p])[..|ps|] == ps;
  }

  /** How often it is still to come. */
  function ToCome(net: seq<Event>, q: Packet): nat {
    if net == [] then 0 else (if net[0] == Arrival(q) then 1 else 0) + ToCome(net[1..], q)
  }

  /** How often it is anywhere in a call. */
  function InCall(c: Call, q: Packet): nat {
    Count(c.group, q) + Count(c.late, q) + (if c.cross == Some(q) then 1 else 0) + ToCome(c.rest, q)
  }

  /** No packet is lost: each is returned, dropped as late, kept for the next call or not yet read. */
  lemma {:induction false} LoopConserves(group: seq<Packet>, late: seq<Packet>, net: seq<Event>, ct: nat, q: Packet)
    ensures var c := Loop(group, late, net, ct);
            c.end != Stopped ==> InCall(c, q) == Count(group, q) + Count(late, q) + ToCome(net, q)
    decreases |net|
  {
    if net != [] && net[0].Arrival? {
      var p, rest := net[0].p, net[1..];
      if IsLate(group, p) {
        CountOneMore(late, p, q);
        LoopConserves(group, late + [p], rest, ct, q);
      } else {
        CountOneMore(group, p, q);
        LoopConserves(group + [p], late, rest, ct, q);
      }
    }
  }

  ghost predicate OneGroup(group: seq<Packet>) {
    forall i :: 0 <= i < |group| ==> group[i].ts == group[0].ts
  }

  /** Late packets belong to earlier groups. */
  ghost predicate AreLate(late: seq<Packet>, group: seq<Packet>) {
    forall i :: 0 <= i < |late| ==> IsLate(group, late[i])
  }

  /** What a call returns is of one group, what it drops of earlier ones, what it keeps of a later
      one. */
  ghost predicate IsSorted(c: Call) {
    OneGroup(c.group) && AreLate(c.late, c.group) && (c.cross.Some? ==> IsAhead(c.group, c.cross.value))
  }

  lemma {:induction false} LoopSorts(group: seq<Packet>, late: seq<Packet>, net: seq<Event>, ct: nat)
    requires OneGroup(group) && AreLate(late, group)
    ensures IsSorted(Loop(group, late, net, ct))
    decreases |net|
  {
    if net != [] && net[0].Arrival? {
      var p, rest := net[0].p, net[1..];
      if IsLate(group, p) {
        LoopSorts(group, late + [p], rest, ct);
      } else if !IsAhead(group, p) {
        LoopSorts(group + [p], late, rest, ct);
      }
    }
  }

  // Whole runs.

  /** The calls of a thread that receives one subframe after the other. */
  function Calls(cross: Option<Packet>, net: seq<Event>, ct: nat): (cs: seq<Call>)
    decreases |net|
  {
    if net == [] && cross.None? then []
    else
      var c := Receive(cross, net, ct);
      [c] + if c.end.Waiting? || c.end.Stopped? then [] else Calls(c.cross, c.rest, ct)
  }

  /** How often a packet is returned or dropped. */
  function Handled(cs: seq<Call>, q: Packet): nat {
    if cs == [] then 0 else Count(cs[0].group, q) + Count(cs[0].late, q) + Handled(cs[1..], q)
  }

  ghost predicate AllTyped(net: seq<Event>, ct: nat) {
    forall i :: 0 <= i < |net| && net[i].Arrival? ==> net[i].p.ct == ct
  }

  lemma {:induction false} NeverStops(group: seq<Packet>, late: seq<Packet>, net: seq<Event>, ct: nat)
    requires AllTyped(net, ct)
    ensures var c := Loop(group, late, net, ct);
            c.end != Stopped && AllTyped(c.rest, ct) && (c.end == Waiting ==> c.rest == [] && c.cross.None?)
    decreases |net|
  {
    if net != [] && net[0].Arrival? {
      var p, rest := net[0].p, net[1..];
      if IsLate(group, p) {
        NeverStops(group, late + [p], rest, ct);
      } else {
        NeverStops(group + [p], late, rest, ct);
      }
    }
  }

  lemma OneCall(c: Call, cs: seq<Call>, q: Packet)
    ensures Handled([c] + cs, q) == Count(c.group, q) + Count(c.late, q) + Handled(cs, q)
  {
    assert ([c] + cs)[1..] == cs;
  }

  /** Over any run, whatever is lost or late or interrupted on the way: every packet that comes is
      returned by one call, or dropped by one call as late. */
  lemma {:induction false} RunConserves(cross: Option<Packet>, net: seq<Event>, ct: nat, q: Packet)
    requires AllTyped(net, ct)
    ensures Handled(Calls(cross, net, ct), q) == Count(Kept(cross), q) + ToCome(net, q)
    decreases |net|
  {
    if net != [] || cross.Some? {
      var c := Receive(cross, net, ct);
      LoopConserves(Kept(cross), [], net, ct, q);
      NeverStops(Kept(cross), [], net, ct);
      if c.end.Waiting? {
        OneCall(c, [], q);
      } else {
        RunConserves(c.cross, c.rest, ct, q);
        KeptCount(c.cross, q);
        OneCall(c, Calls(c.cross, c.rest, ct), q);
      }
    }
  }

  lemma KeptCount(cross: Option<Packet>, q: Packet)
    ensures Count(Kept(cross), q) == if cross == Some(q) then 1 else 0
  {
    if cross.Some? {
      assert [cross.value][..0] == [];
    }
  }

  /** Every result of a run is of one group, later than what its call drops, earlier than what it
      keeps. */
  lemma {:induction false} RunSorts(cross: Option<Packet>, net: seq<Event>, ct: nat, i: nat)
    requires i < |Calls(cross, net, ct)|
    ensures IsSorted(Calls(cross, net, ct)[i])
    decreases |net|
  {
    var c := Receive(cross, net, ct);
    if i == 0 {
      LoopSorts(Kept(cross), [], net, ct);
    } else {
      RunSorts(c.cross, c.rest, ct, i - 1);
    }
  }

  /** The first packet of a call is taken, whatever its group. */
  lemma FirstPacket(net: seq<Event>, ct: nat)
    requires net != [] && net[0].Arrival? && net[0].p.ct == ct
    ensures Receive(None, net, ct) == Next([net[0].p], [], net[1..], ct)
  {
    assert [] + [net[0].p] == [net[0].p];
  }

  /** A packet of an earlier group is dropped only if another came first in the same call: as the
      first of a call it is taken for the next subframe. */
  lemma LateFirstIsTaken(a: Packet, b: Packet, ct: nat)
    requires a.ct == b.ct == ct && a.ts < b.ts && b.nb == 1
    ensures var cs := Calls(None, [Arrival(b), Arrival(a)], ct);
            |cs| == 2 && cs[0].group == [b] && cs[1].group == [a] && cs[1].late == []
  {
    var net := [Arrival(b), Arrival(a)];
    assert net[1..] == [Arrival(a)] && [Arrival(a)][1..] == [];
    assert [] + [b] == [b] && [] + [a] == [a];
    FirstPacket(net, ct);
    FirstPacket([Arrival(a)], ct);
    assert Receive(None, net, ct) == Call([b], [], None, [Arrival(a)], Complete);
    var second := Receive(None, [Arrival(a)], ct);
    assert second.group == [a] && second.late == [] && second.cross.None? && second.rest == [];
    assert Calls(None, [], ct) == [];
    assert Calls(None, [Arrival(a)], ct) == [second];
  }

  // Subframes that arrive one after the other.

  function AsEvents(ps: seq<Packet>): (net: seq<Event>)
    ensures |net| == |ps| && forall i :: 0 <= i < |ps| ==> net[i] == Arrival(ps[i])
  {
    seq(|ps|, i requires 0 <= i < |ps| => Arrival(ps[i]))
  }

  function Concat(gs: seq<seq<Packet>>): seq<Packet> {
    if gs == [] then [] else gs[0] + Concat(gs[1..])
  }

  /** Packets of one subframe, not more than it has blocks. */
  ghost predicate IsPart(g: seq<Packet>, ct: nat) {
    && g != [] && |g| <= g[0].nb && OneGroup(g) && forall k :: 0 <= k < |g| ==> g[k].ct == ct
  }

  /** Of each subframe some packets arrive, all before those of the next. */
  ghost predicate IsStream(gs: seq<seq<Packet>>, ct: nat) {
    && (forall i :: 0 <= i < |gs| ==> IsPart(gs[i], ct))
    && (forall i :: 0 <= i < |gs| - 1 ==> gs[i][0].ts < gs[i + 1][0].ts)
  }

  /** What a call leaves is the stream without its first subframe. */
  ghost predicate IsLeft(c: Call, gs: seq<seq<Packet>>) {
    && AsEvents(Kept(c.cross)) + c.rest == AsEvents(Concat(gs))
    && (c.cross.Some? ==> gs != [] && gs[0] != [] && c.cross.value == gs[0][0])
  }

  lemma AheadOf(gs: seq<seq<Packet>>, net: seq<Event>, ct: nat)
    requires IsStream(gs, ct) && gs != [] && net == AsEvents(Concat(gs[1..])) && net != []
    ensures |gs| > 1 && net[0] == Arrival(gs[1][0]) && IsAhead(gs[0], gs[1][0]) && gs[1][0].ct == ct
    ensures AsEvents([gs[1][0]]) + net[1..] == net
  {
    assert gs[1..] != [] && gs[1..][0] == gs[1] && gs[0][0].ts < gs[0 + 1][0].ts;
    assert Concat(gs[1..]) == gs[1] + Concat(gs[1..][1..]);
    assert IsPart(gs[1], ct);
  }

  /** A call returns what is there of the first subframe, and leaves the others as they are. */
  lemma {:induction false} CallTakesFirst(group: seq<Packet>, gs: seq<seq<Packet>>, net: seq<Event>, ct: nat)
    requires IsStream(gs, ct) && gs != [] && group <= gs[0]
    requires net == AsEvents(gs[0][|group|..] + Concat(gs[1..]))
    ensures var c := Loop(group, [], net, ct);
            && c.group == gs[0] && c.late == [] && IsLeft(c, gs[1..])
            && (c.end.Complete? || c.end.Overtaken? || (c.end.Waiting? && |gs| == 1))
            && (group < gs[0] && |gs[0]| == gs[0][0].nb ==> c.end.Complete?)
    decreases |net|
  {
    var g, more := gs[0], Concat(gs[1..]);
    assert IsPart(g, ct);
    if group == g {
      assert g[|group|..] + more == more;
      if net != [] {
        AheadOf(gs, net, ct);
      } else if |gs| > 1 {
        MoreToCome(gs, ct);
      }
    } else {
      var n := |group|;
      var p := g[n];
      assert net[0] == Arrival(p) && net[1..] == AsEvents(g[n + 1..] + more);
      assert group + [p] == g[..n + 1];
      assert n > 0 ==> group[0] == g[0];
      if Wants(group + [p]) {
        CallTakesFirst(group + [p], gs, net[1..], ct);
      } else {
        assert n + 1 == |g|;
        assert g[n + 1..] + more == more;
      }
    }
  }

  lemma MoreToCome(gs: seq<seq<Packet>>, ct: nat)
    requires IsStream(gs, ct) && |gs| > 1
    ensures Concat(gs[1..]) != []
  {
    assert IsPart(gs[1], ct) && gs[1..][0] == gs[1];
  }

  /** What the socket has, when the first packet of the stream was kept. */
  lemma BehindKept(cross: Option<Packet>, gs: seq<seq<Packet>>, net: seq<Event>)
    requires gs != [] && gs[0] != [] && (cross.Some? ==> cross.value == gs[0][0])
    requires AsEvents(Kept(cross)) + net == AsEvents(Concat(gs))
    ensures Kept(cross) <= gs[0] && net == AsEvents(gs[0][|Kept(cross)|..] + Concat(gs[1..]))
  {
    var group := Kept(cross);
    assert Concat(gs) == group + (gs[0][|group|..] + Concat(gs[1..]));
    assert net == (AsEvents(group) + net)[|group|..];
  }

  /** Whatever packets are lost, as long as those of a subframe arrive before those of the next: every
      call returns what arrived of one subframe, in order of arrival, and nothing is dropped. */
  lemma {:induction false} SubframesStayApart(cross: Option<Packet>, gs: seq<seq<Packet>>, net: seq<Event>, ct: nat)
    requires IsStream(gs, ct) && AsEvents(Kept(cross)) + net == AsEvents(Concat(gs))
    requires cross.Some? ==> gs != [] && cross.value == gs[0][0]
    ensures var cs := Calls(cross, net, ct);
            |cs| == |gs| && forall i :: 0 <= i < |gs| ==> cs[i].group == gs[i] && cs[i].late == []
    decreases |gs|
  {
    if gs == [] {
      assert net == [];
    } else {
      assert IsPart(gs[0], ct);
      BehindKept(cross, gs, net);
      CallTakesFirst(Kept(cross), gs, net, ct);
      var c := Receive(cross, net, ct);
      if !c.end.Waiting? {
        SubframesStayApart(c.cross, gs[1..], c.rest, ct);
      }
    }
  }
}
