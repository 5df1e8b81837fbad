/** The blocks of a subframe cross the network and arrive in any order. */
module Fs6Arrival {
  import opened Options
  import opened Bytes
  import opened Fs6Zone
  import opened Fs6Transport
  import opened Fs6Receive
  import opened Fs6Receiver

  /** An order of arrival of n packets, none lost, none twice. */
  ghost predicate IsOrder(order: seq<nat>, n: nat) {
    && |order| == n
    && (forall i :: 0 <= i < n ==> order[i] < n)
    && (forall i, j :: 0 <= i < j < n ==> order[i] != order[j])
    && (forall k :: 0 <= k < n ==> k in order)
  }

  function Arrange<T>(xs: seq<T>, order: seq<nat>): (ys: seq<T>)
    requires forall i :: 0 <= i < |order| ==> order[i] < |xs|
    ensures |ys| == |order| && forall i :: 0 <= i < |order| ==> ys[i] == xs[order[i]]
  {
    seq(|order|, i requires 0 <= i < |order| => xs[order[i]])
  }

  lemma {:induction false} SizeOfInserted(a: seq<seq<byte>>, x: seq<byte>, b: seq<seq<byte>>)
    ensures SizeOf(a + [x] + b) == SizeOf(a + b) + Aligned(|x|)
  {
    if b == [] {
      assert a + [x] + b == a + [x] && a + b == a && (a + [x])[..|a|] == a;
    } else {
      var n := |b| - 1;
      assert (a + [x] + b)[..|a| + 1 + n] == a + [x] + b[..n] && (a + b)[..|a| + n] == a + b[..n];
      SizeOfInserted(a, x, b[..n]);
    }
  }

  /** An order of one packet less, without the last block. */
  lemma OrderWithoutLast(order: seq<nat>, n: nat, p: nat)
    requires 0 < n && IsOrder(order, n) && p < n && order[p] == n - 1
    ensures IsOrder(order[..p] + order[p + 1..], n - 1)
  {
    var less := order[..p] + order[p + 1..];
    assert forall i :: 0 <= i < n - 1 ==> less[i] == order[if i < p then i else i + 1];
    forall k | 0 <= k < n - 1
      ensures k in less
    {
      assert k in order;
      var i :| 0 <= i < n && order[i] == k;
      assert less[if i < p then i else i - 1] == k;
    }
  }

  /** The order without the last block, and where that one was. */
  lemma ArrangedWithoutLast<T>(xs: seq<T>, order: seq<nat>, p: nat)
    requires xs != [] && IsOrder(order, |xs|) && p < |xs| && order[p] == |xs| - 1
    ensures IsOrder(order[..p] + order[p + 1..], |xs| - 1)
    ensures var came := Arrange(xs, order);
            && Arrange(xs[..|xs| - 1], order[..p] + order[p + 1..]) == came[..p] + came[p + 1..]
            && came == came[..p] + [xs[|xs| - 1]] + came[p + 1..]
  {
    OrderWithoutLast(order, |xs|, p);
    var n, less, came := |xs| - 1, order[..p] + order[p + 1..], Arrange(xs, order);
    forall i | 0 <= i < n
      ensures Arrange(xs[..n], less)[i] == (came[..p] + came[p + 1..])[i]
    {
      assert less[i] == order[if i < p then i else i + 1];
    }
  }

  /** The receiver needs the room the sender needs. */
  lemma {:induction false} SizeOfArranged(cs: seq<seq<byte>>, order: seq<nat>)
    requires IsOrder(order, |cs|)
    ensures SizeOf(Arrange(cs, order)) == SizeOf(cs)
    decreases |cs|
  {
    var came := Arrange(cs, order);
    if cs == [] {
      assert came == [];
    } else {
      var n := |cs| - 1;
      assert n in order;
      var p :| 0 <= p < |order| && order[p] == n;
      ArrangedWithoutLast(cs, order, p);
      SizeOfArranged(cs[..n], order[..p] + order[p + 1..]);
      SizeOfInserted(came[..p], cs[n], came[p + 1..]);
    }
  }

  /** The packets of a subframe, in order of arrival. */
  ghost predicate CameAs(came: seq<Packet>, cs: seq<seq<byte>>, ts: nat, ct: nat) {
    && |came| == |cs| && AllReal(came)
    && forall i :: 0 <= i < |came| ==>
         came[i].ts == ts && came[i].ct == ct && came[i].nb == |cs| && ContentOf(came[i].bytes) == cs[i]
  }

  /** What the network makes of the packets sent. */
  method Deliver(packets: seq<seq<byte>>, order: seq<nat>, ghost cs: seq<seq<byte>>, ghost ts: nat, ghost ct: nat)
    returns (came: seq<Packet>)
    requires |packets| == |cs| && IsOrder(order, |cs|)
    requires forall i :: 0 <= i < |packets| ==> IsSent(packets[i], i, cs[i], ts, |packets|, ct)
    ensures CameAs(came, Arrange(cs, order), ts, ct)
  {
    came := [];
    for i := 0 to |order|
      invariant |came| == i && AllReal(came)
      invariant forall k :: 0 <= k < i ==>
                  came[k].ts == ts && came[k].ct == ct && came[k].nb == |cs| && ContentOf(came[k].bytes) == cs[order[k]]
    {
      assert IsSent(packets[order[i]], order[i], cs[order[i]], ts, |packets|, ct);
      came := came + [PacketFrom(packets[order[i]])];
    }
  }

  lemma SizeOfFront(cs: seq<seq<byte>>)
    requires cs != []
    ensures SizeOf(cs) == Aligned(|cs[0]|) + SizeOf(cs[1..])
  {
    SizeOfInserted([], cs[0], cs[1..]);
    assert cs == [] + [cs[0]] + cs[1..] && cs[1..] == [] + cs[1..];
  }

  lemma {:induction false} SizeOfCame(came: seq<Packet>, cs: seq<seq<byte>>)
    requires |came| == |cs| && forall i :: 0 <= i < |came| ==> |came[i].bytes| == Aligned(|cs[i]|)
    ensures SizeOfAll(AsEvents(came)) == SizeOf(cs)
    decreases |came|
  {
    if came != [] {
      SizeOfCame(came[1..], cs[1..]);
      SizeOfFront(cs);
      assert AsEvents(came)[1..] == AsEvents(came[1..]);
    }
  }

  lemma RoomOfCame(came: seq<Packet>, cs: seq<seq<byte>>, ts: nat, ct: nat)
    requires CameAs(came, cs, ts, ct)
    ensures SizeOfAll(AsEvents(came)) == SizeOf(cs)
  {
    forall i | 0 <= i < |came|
      ensures |came[i].bytes| == Aligned(|cs[i]|)
    {
      assert IsReal(came[i]);
    }
    SizeOfCame(came, cs);
  }

  /** A call that gets all packets of a subframe returns them. */
  lemma WholeSubframe(came: seq<Packet>, cs: seq<seq<byte>>, ts: nat, ct: nat)
    requires CameAs(came, cs, ts, ct) && cs != []
    ensures var c := Receive(None, AsEvents(came), ct); c.end == Complete && c.group == came && c.cross == None && c.rest == []
  {
    var gs := [came];
    assert IsPart(came, ct);
    assert gs[1..] == [] && Concat(gs[1..]) == [] && came[0..] + [] == came;
    CallTakesFirst([], gs, AsEvents(came), ct);
  }

  /** The content at the front of what was received, where the receiver looks for the second
      header. */
  ghost predicate StartsWith(m: seq<byte>, c: seq<byte>) {
    HEADER + |c| <= |m| && m[HEADER..HEADER + |c|] == c
  }

  lemma FirstContent(m: seq<byte>, ps: seq<seq<byte>>)
    requires Holds(m, ps) && ps != []
    ensures StartsWith(m, ContentOf(ps[0]))
  {
    PacketAt(m, ps, 0);
    var p := ps[0];
    assert Join(ps[..0]) == [] && m[0..|p|] == p;
    SliceOfSlice(m, 0, |p|, HEADER, HEADER + U16(p, CONTENT_BYTES));
  }

  /** sendSubFrame, the network, receiveSubFrame: the receiver's walk meets the sender's blocks,
      complete, in the order of arrival; the second header it reads is that of the first arrival. */
  method Exchange(zone: BufferZone, contentType: nat, buf: array<byte>, order: seq<nat>)
    returns (rcved: nat, ghost arrivals: seq<seq<byte>>)
    requires zone.Valid() && contentType < 65536 && buf != zone.buf
    requires zone.blocks != [] && IsOrder(order, |zone.blocks|)
    requires SizeOf(zone.blocks) <= buf.Length
    modifies zone.buf, buf
    ensures rcved == |arrivals| && Holds(buf[..], arrivals) && Contents(arrivals) == Arrange(zone.blocks, order)
    ensures StartsWith(buf[..], zone.blocks[order[0]])
  {
    ghost var ts := TsOf(zone.buf[..]);
    var packets := SendSubFrame(zone, contentType);
    ghost var cs := Arrange(zone.blocks, order);
    var came := Deliver(packets, order, zone.blocks, ts, contentType);
    RoomOfCame(came, cs, ts, contentType);
    SizeOfArranged(zone.blocks, order);
    WholeSubframe(came, cs, ts, contentType);
    var rx := new Receiver();
    var n, left, end := rx.ReceiveSubFrame(buf, AsEvents(came), contentType);
    rcved, arrivals := n, BytesOf(came);
    FirstContent(buf[..], arrivals);
  }

  // The second header. sendSubFrame leaves every block its own, and only the first block's is filled.

  /** All contents start with a second header. */
  ghost predicate AllLed(cs: seq<seq<byte>>, second: nat) {
    forall i :: 0 <= i < |cs| ==> second <= |cs[i]|
  }

  /** The receiver reads the second header the sender filled. */
  ghost predicate SameHeader(cs: seq<seq<byte>>, order: seq<nat>, second: nat)
    requires IsOrder(order, |cs|) && cs != [] && AllLed(cs, second)
  {
    Arrange(cs, order)[0][..second] == cs[0][..second]
  }

  /** Blocks whose second headers all differ from the first one's. */
  function Marked(n: nat, second: nat): (cs: seq<seq<byte>>)
    ensures |cs| == n && forall i :: 0 <= i < n ==> |cs[i]| == second
    ensures forall i, k :: 0 <= i < n && 0 <= k < second ==> cs[i][k] == if i == 0 then 0 else 1
  {
    seq(n, i requires 0 <= i < n => seq(second, _ => if i == 0 then 0 else 1))
  }

  /** Whatever the blocks hold, the receiver has the sender's second header, if and only if the first
      block arrives first. */
  lemma HeaderArrivesIff(order: seq<nat>, n: nat, second: nat)
    requires 0 < n && 0 < second && IsOrder(order, n)
    ensures (forall cs: seq<seq<byte>> :: |cs| == n && AllLed(cs, second) ==> SameHeader(cs, order, second)) <==> order[0] == 0
  {
    if order[0] != 0 {
      var cs := Marked(n, second);
      assert AllLed(cs, second);
      assert Arrange(cs, order)[0][..second][0] != cs[0][..second][0];
      assert !SameHeader(cs, order, second);
    }
  }

  lemma SwapIsOrder()
    ensures IsOrder([1, 0], 2)
  {
    var order: seq<nat> := [1, 0];
    assert order[0] == 1 && order[1] == 0;
  }

  /** Two blocks that arrive swapped: the receiver reads the bytes that lay under the second one. */
  lemma SwappedHeader(filled: seq<byte>, left: seq<byte>, c0: seq<byte>, c1: seq<byte>)
    requires |filled| == |left| && filled != left
    ensures var cs, order := [filled + c0, left + c1], [1, 0];
            && IsOrder(order, 2) && AllLed(cs, |filled|) && !SameHeader(cs, order, |filled|)
            && Arrange(cs, order)[0][..|filled|] == left
  {
    var cs, order: seq<nat> := [filled + c0, left + c1], [1, 0];
    SwapIsOrder();
    assert cs[1][..|filled|] == left && cs[0][..|filled|] == filled;
  }
}
