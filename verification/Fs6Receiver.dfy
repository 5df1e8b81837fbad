/** receiveSubFrame on the bytes of packets, with the packet it keeps from one call to the next. */
module Fs6Receiver {
  import opened Options
  import opened Bytes
  import opened Fs6Zone
  import opened Fs6Transport
  import opened Fs6Receive

  /** A packet as its header describes it. */
  function PacketFrom(p: seq<byte>): Packet
    requires IsPacket(p)
  {
    Packet(TsOf(p), TypeOf(p), NbOf(p), p)
  }

  ghost predicate IsReal(p: Packet) { IsPacket(p.bytes) && p == PacketFrom(p.bytes) }

  ghost predicate AllReal(ps: seq<Packet>) { forall i :: 0 <= i < |ps| ==> IsReal(ps[i]) }

  ghost predicate RealEvents(net: seq<Event>) {
    forall i :: 0 <= i < |net| && net[i].Arrival? ==> IsReal(net[i].p)
  }

  function BytesOf(ps: seq<Packet>): (r: seq<seq<byte>>)
    ensures |r| == |ps| && forall i :: 0 <= i < |ps| ==> r[i] == ps[i].bytes
  {
    seq(|ps|, i requires 0 <= i < |ps| => ps[i].bytes)
  }

  /** Bytes of all that may come. */
  function SizeOfAll(net: seq<Event>): nat {
    if net == [] then 0 else (if net[0].Arrival? then |net[0].p.bytes| else 0) + SizeOfAll(net[1..])
  }

  /** The packets lie back to back in the first bytes. */
  ghost predicate Stored(m: seq<byte>, at: nat, group: seq<Packet>) {
    AllReal(group) && at == |Join(BytesOf(group))| && Join(BytesOf(group)) <= m
  }

  lemma StoredMore(m: seq<byte>, m': seq<byte>, at: nat, group: seq<Packet>, p: Packet)
    requires Stored(m, at, group) && IsReal(p) && at + |p.bytes| <= |m| == |m'|
    requires (forall k :: 0 <= k < at ==> m'[k] == m[k]) && m'[at..at + |p.bytes|] == p.bytes
    ensures Stored(m', at, group) && Stored(m', at + |p.bytes|, group + [p])
  {
    var ps := BytesOf(group);
    assert BytesOf(group + [p])[..|group|] == ps;
    assert m'[..at] == m[..at] == Join(ps);
    assert m'[..at + |p.bytes|] == m'[..at] + m'[at..at + |p.bytes|];
  }

  /** The fields of the header at an offset. */
  lemma HeaderAt(m: seq<byte>, at: nat, p: seq<byte>)
    requires IsPacket(p) && at + |p| <= |m| && m[at..at + |p|] == p
    ensures Get(m, at, STAMP) == TsOf(p) && U16(m, at + NB_BLOCKS) == NbOf(p) && U16(m, at + CONTENT_TYPE) == TypeOf(p)
  {
    assert p[NB_BLOCKS] == m[at + NB_BLOCKS] && p[NB_BLOCKS + 1] == m[at + NB_BLOCKS + 1];
    assert p[CONTENT_TYPE] == m[at + CONTENT_TYPE] && p[CONTENT_TYPE + 1] == m[at + CONTENT_TYPE + 1];
    SliceOfSlice(m, at, |p|, 0, STAMP);
    SameStamp(m, at, p, 0);
  }

  /** bufOrigin is the header of the first packet. */
  lemma OriginIsFirst(m: seq<byte>, at: nat, group: seq<Packet>)
    requires Stored(m, at, group) && group != []
    ensures HEADER <= |m| && Get(m, 0, STAMP) == group[0].ts && U16(m, NB_BLOCKS) == group[0].nb
  {
    PacketAt(m, BytesOf(group), 0);
    assert Join(BytesOf(group)[..0]) == [];
    HeaderAt(m, 0, group[0].bytes);
  }

  /** What the loop does with a packet. */
  datatype Verdict = Foreign | Ahead | Late | Ours

  function VerdictOn(group: seq<Packet>, p: Packet, ct: nat): Verdict {
    if p.ct != ct then Foreign else if IsAhead(group, p) then Ahead else if IsLate(group, p) then Late else Ours
  }

  /** recv into the buffer. */
  method Recv(buf: array<byte>, at: nat, p: Packet, ghost group: seq<Packet>)
    requires Stored(buf[..], at, group) && IsReal(p) && at + |p.bytes| <= buf.Length
    modifies buf
    ensures Stored(buf[..], at, group) && Stored(buf[..], at + |p.bytes|, group + [p])
    ensures buf[at..at + |p.bytes|] == p.bytes
  {
    ghost var m := buf[..];
    CopyIn(buf, at, p.bytes);
    assert buf[..][at..at + |p.bytes|] == buf[at..at + |p.bytes|];
    StoredMore(m, buf[..], at, group, p);
  }

  /** The comparisons of the header received with the first one. */
  method Judge(buf: array<byte>, at: nat, rcved: nat, ct: nat, ghost p: Packet, ghost group: seq<Packet>) returns (v: Verdict)
    requires Stored(buf[..], at, group) && rcved == |group|
    requires IsReal(p) && at + |p.bytes| <= buf.Length && buf[at..at + |p.bytes|] == p.bytes
    ensures v == VerdictOn(group, p, ct)
  {
    assert buf[..][at..at + |p.bytes|] == buf[at..at + |p.bytes|];
    HeaderAt(buf[..], at, p.bytes);
    var contentType := ReadU16(buf, at + CONTENT_TYPE);
    if contentType != ct {
      return Foreign;
    }
    if rcved == 0 {
      return Ours;
    }
    var origin, ts := ReadStamps(buf, at, group);
    v := if ts == origin then Ours else if ts > origin then Ahead else Late;
  }

  method ReadStamps(buf: array<byte>, at: nat, ghost group: seq<Packet>) returns (origin: nat, ts: nat)
    requires Stored(buf[..], at, group) && group != [] && at + STAMP <= buf.Length
    ensures origin == group[0].ts && ts == Get(buf[..], at, STAMP)
  {
    OriginIsFirst(buf[..], at, group);
    origin := ReadStamp(buf, 0);
    ts := ReadStamp(buf, at);
  }

  /** The condition at the end of a pass. */
  method IsWanting(buf: array<byte>, rcved: nat, ghost at: nat, ghost group: seq<Packet>) returns (more: bool)
    requires Stored(buf[..], at, group) && rcved == |group|
    ensures more == Wants(group)
  {
    more := rcved == 0;
    if !more {
      OriginIsFirst(buf[..], at, group);
      var nbBlocks := ReadU16(buf, NB_BLOCKS);
      more := rcved < nbBlocks;
    }
  }

  /** The group after a packet. */
  ghost function After(group: seq<Packet>, p: Packet, v: Verdict): seq<Packet> {
    if v == Ours then group + [p] else group
  }

  /** A pass of the loop: recv, the comparisons, and the condition at its end. */
  method Pass(buf: array<byte>, at: nat, rcved: nat, p: Packet, ct: nat, ghost group: seq<Packet>)
    returns (v: Verdict, n: nat, next: nat, more: bool)
    requires Stored(buf[..], at, group) && rcved == |group| && IsReal(p) && at + |p.bytes| <= buf.Length
    modifies buf
    ensures v == VerdictOn(group, p, ct) && n == |After(group, p, v)| && at <= next <= at + |p.bytes|
    ensures Stored(buf[..], next, After(group, p, v)) && more == Wants(After(group, p, v))
  {
    Recv(buf, at, p, group);
    v := Judge(buf, at, rcved, ct, p, group);
    n, next := rcved, at;
    if v == Ours {
      n, next := n + 1, next + |p.bytes|;
    }
    more := IsWanting(buf, n, next, After(group, p, v));
  }

  /** A recv of the loop, by what it gives. */
  lemma LoopCase(group: seq<Packet>, late: seq<Packet>, net: seq<Event>, ct: nat)
    requires net != []
    ensures var c, rest := Loop(group, late, net, ct), net[1..];
            match net[0] {
              case Timeout => c == Call(group, late, None, rest, TimedOut)
              case Failure => c == Call(group, late, None, rest, Broken)
              case Arrival(p) =>
                match VerdictOn(group, p, ct) {
                  case Foreign => c == Call(group, late, None, rest, Stopped)
                  case Ahead => c == Call(group, late, Some(p), rest, Overtaken)
                  case Late => c == Next(group, late + [p], rest, ct)
                  case Ours => c == Next(group + [p], late, rest, ct)
                }
            }
  {
  }

  class Receiver {
    /** crossData; empty when crossDataSize is 0. */
    var crossData: seq<byte>

    ghost predicate Valid()
      reads this
    {
      crossData == [] || IsPacket(crossData)
    }

    ghost function Cross(): (r: Option<Packet>)
      requires Valid()
      reads this
    {
      if crossData == [] then None else Some(PacketFrom(crossData))
    }

    constructor ()
      ensures Valid() && Cross() == None
    {
      crossData := [];
    }

    /** What the last call kept is the first packet of this one. */
    method TakeKept(buf: array<byte>) returns (rcved: nat, at: nat)
      requires Valid() && |crossData| <= buf.Length
      modifies this, buf
      ensures Valid() && Cross() == None && at == |old(crossData)|
      ensures Stored(buf[..], at, Kept(old(Cross()))) && rcved == |Kept(old(Cross()))|
    {
      rcved, at := 0, 0;
      assert Join(BytesOf([])) == [];
      if crossData != [] {
        ghost var p := PacketFrom(crossData);
        CopyIn(buf, 0, crossData);
        assert buf[..][0..|crossData|] == crossData;
        StoredMore(buf[..], buf[..], 0, [], p);
        assert [] + [p] == [p];
        rcved, at, crossData := 1, |crossData|, [];
      }
    }

    /** A call, on what the socket gives: the packets it is to return are in the buffer, the one it is
        to keep is kept. */
    method ReceiveSubFrame(buf: array<byte>, net: seq<Event>, ct: nat) returns (rcved: int, left: seq<Event>, end: End)
      requires Valid() && RealEvents(net) && |crossData| + SizeOfAll(net) <= buf.Length
      modifies this, buf
      ensures var c := Receive(old(Cross()), net, ct);
              && Valid() && Cross() == c.cross && left == c.rest && end == c.end
              && rcved == (if c.end == Broken then -1 else |c.group|)
              && Holds(buf[..], BytesOf(c.group))
    {
      ghost var c := Receive(Cross(), net, ct);
      ghost var group, late := Kept(Cross()), [];
      var n: nat, at: nat := TakeKept(buf);
      left := net;
      var more := true;
      while more
        invariant Valid() && Cross() == None && Stored(buf[..], at, group) && n == |group|
        invariant RealEvents(left) && at + SizeOfAll(left) <= buf.Length
        invariant c == if more then Loop(group, late, left, ct) else Call(group, late, None, left, Complete)
        decreases |left|, more
      {
        if left == [] {
          return n, left, Waiting;
        }
        var e := left[0];
        LoopCase(group, late, left, ct);
        left := left[1..];
        match e
        case Timeout => return n, left, TimedOut;
        case Failure => return -1, left, Broken;
        case Arrival(p) =>
          var v;
          v, n, at, more := Pass(buf, at, n, p, ct, group);
          if v == Foreign {
            return n, left, Stopped;
          }
          if v == Ahead {
            crossData := p.bytes;
            return n, left, Overtaken;
          }
          late := if v == Late then late + [p] else late;
          group := After(group, p, v);
      }
      rcved, end := n, Complete;
    }
  }
}
