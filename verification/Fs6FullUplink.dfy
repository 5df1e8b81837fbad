/** A whole uplink subframe: what the DU has to send is what the CU does, in any order of arrival. */
module Fs6FullUplink {
  import opened Bytes
  import opened Fs6Zone
  import opened Fs6Arrival
  import opened Fs6Sender
  import Segments = Fs6Segments
  import Subframe = Fs6Subframe
  import Rach = Fs6Rach
  import Ul = Fs6Uplink
  import Prach

  lemma {:induction false} CanSendAt(b: Segments.Block, eUL: seq<byte>, i: nat, r: nat)
    requires b.Valid() && Segments.CanSendFrom(b, eUL, i) && i <= r < b.c
    ensures Segments.CanSend(b, eUL, r)
    decreases r - i
  {
    if i < r {
      CanSendAt(b, eUL, i + 1, r);
    }
  }

  lemma CanSendAll(b: Segments.Block, eUL: seq<byte>)
    requires b.Valid() && Segments.CanSendFrom(b, eUL, 0)
    ensures forall r :: 0 <= r < b.c ==> Segments.CanSend(b, eUL, r)
    ensures 2 * Segments.Offset(b, b.c) <= |eUL|
  {
    forall r | 0 <= r < b.c
      ensures Segments.CanSend(b, eUL, r)
    {
      CanSendAt(b, eUL, 0, r);
    }
    assert Segments.CanSend(b, eUL, b.c - 1);
  }

  /** What a job has to tell the CU. */
  ghost function MessagesOf(j: Job, bits: seq<seq<byte>>): (msgs: seq<Ul.Message>)
    requires CanDo(j, bits)
    ensures |msgs| == BlocksOf(j)
  {
    match j
    case Decode(b, k) =>
      CanSendAll(b, bits[k]);
      seq(b.c, r requires 0 <= r < b.c => assert Segments.CanSend(b, bits[k], r); Ul.Seg(Segments.SegmentAt(b, bits[k], r)))
    case Indicate(x) => [Ul.Ind(x)]
  }

  ghost function AllMessages(jobs: seq<Job>, bits: seq<seq<byte>>): (msgs: seq<Ul.Message>)
    requires CanDoAll(jobs, bits)
    ensures |msgs| == BlocksOfAll(jobs)
    decreases |jobs|
  {
    if jobs == [] then [] else AllMessages(jobs[..|jobs| - 1], bits) + MessagesOf(jobs[|jobs| - 1], bits)
  }

  /** The CU knows the UE and has room for its soft bits. */
  ghost predicate IsKnown(j: Job, sh: Ul.Shape) {
    match j
    case Decode(b, _) => b.Valid() && b.ueId < sh.ues && b.harqId < 8 && 2 * Segments.Offset(b, b.c) <= sh.capacity
    case Indicate(x) => x.ueId < sh.ucis && Ul.IsCall(x)
  }

  lemma JobStands(cs: seq<seq<byte>>, n: nat, j: Job, bits: seq<seq<byte>>, sh: Ul.Shape)
    requires CanDo(j, bits) && HoldsJob(cs, n, j, bits) && IsKnown(j, sh)
    ensures |cs| == n + BlocksOf(j) && Ul.AllStand(cs[n..], sh, MessagesOf(j, bits))
  {
    if j.Decode? {
      CanSendAll(j.b, bits[j.buffer]);
      forall r | 0 <= r < j.b.c
        ensures Ul.Stands(cs[n..][r], sh, MessagesOf(j, bits)[r])
      {
        Segments.SegmentHeld(cs, n, j.b, bits[j.buffer], j.b.c, r);
        Segments.OffsetMonotone(j.b, r + 1, j.b.c);
      }
    }
  }

  lemma StandTogether(cs: seq<seq<byte>>, n: nat, sh: Ul.Shape, a: seq<Ul.Message>, b: seq<Ul.Message>)
    requires n <= |cs| && Ul.AllStand(cs[..n], sh, a) && Ul.AllStand(cs[n..], sh, b)
    ensures Ul.AllStand(cs, sh, a + b)
  {
    forall i | 0 <= i < |cs|
      ensures Ul.Stands(cs[i], sh, (a + b)[i])
    {
      if i < n {
        assert cs[i] == cs[..n][i];
      } else {
        assert cs[i] == cs[n..][i - n];
      }
    }
  }

  lemma {:induction false} JobsStand(cs: seq<seq<byte>>, jobs: seq<Job>, bits: seq<seq<byte>>, sh: Ul.Shape)
    requires CanDoAll(jobs, bits) && HoldsJobs(cs, jobs, bits)
    requires forall i :: 0 <= i < |jobs| ==> IsKnown(jobs[i], sh)
    ensures Ul.AllStand(cs, sh, AllMessages(jobs, bits))
    decreases |jobs|
  {
    if jobs != [] {
      var less, j := jobs[..|jobs| - 1], jobs[|jobs| - 1];
      var n := BlocksOfAll(less);
      JobsStand(cs[..n], less, bits, sh);
      JobStands(cs, n, j, bits, sh);
      StandTogether(cs, n, sh, AllMessages(less, bits), MessagesOf(j, bits));
    }
  }

  /** Every UE sends at most one transport block a subframe. */
  ghost predicate OneEach(jobs: seq<Job>) {
    forall i, j :: 0 <= i < j < |jobs| && jobs[i].Decode? && jobs[j].Decode? ==> jobs[i].b.ueId != jobs[j].b.ueId
  }

  ghost predicate Sends(jobs: seq<Job>, ue: nat) {
    exists i :: 0 <= i < |jobs| && jobs[i].Decode? && jobs[i].b.ueId == ue
  }

  lemma JobIsClean(j: Job, bits: seq<seq<byte>>)
    requires CanDo(j, bits)
    ensures Ul.Disjoint(MessagesOf(j, bits)) && Ul.Consistent(MessagesOf(j, bits))
  {
    if j.Decode? {
      CanSendAll(j.b, bits[j.buffer]);
      forall p, q | 0 <= p < q < j.b.c
        ensures var msgs := MessagesOf(j, bits); Ul.Apart(msgs[p].s, msgs[q].s) && Ul.Agree(msgs[p].s, msgs[q].s)
      {
        Segments.SegmentsAreApart(j.b, bits[j.buffer], p, q);
      }
    }
  }

  /** Messages about different UEs do not get in each other's way. */
  lemma CleanTogether(a: seq<Ul.Message>, b: seq<Ul.Message>)
    requires Ul.Disjoint(a) && Ul.Consistent(a) && Ul.Disjoint(b) && Ul.Consistent(b)
    requires forall i, k :: 0 <= i < |a| && 0 <= k < |b| && a[i].Seg? && b[k].Seg? ==> a[i].s.ueId != b[k].s.ueId
    ensures Ul.Disjoint(a + b) && Ul.Consistent(a + b)
  {
    var msgs := a + b;
    forall i, k | 0 <= i < k < |msgs| && msgs[i].Seg? && msgs[k].Seg?
      ensures Ul.Apart(msgs[i].s, msgs[k].s) && Ul.Agree(msgs[i].s, msgs[k].s)
    {
      if i < |a| <= k {
        assert msgs[i] == a[i] && msgs[k] == b[k - |a|];
      }
    }
  }

  lemma {:induction false} SentBySomeJob(jobs: seq<Job>, bits: seq<seq<byte>>, i: nat)
    requires CanDoAll(jobs, bits) && i < BlocksOfAll(jobs) && AllMessages(jobs, bits)[i].Seg?
    ensures Sends(jobs, AllMessages(jobs, bits)[i].s.ueId)
    decreases |jobs|
  {
    var less, j := jobs[..|jobs| - 1], jobs[|jobs| - 1];
    var ue := AllMessages(jobs, bits)[i].s.ueId;
    if i < BlocksOfAll(less) {
      SentBySomeJob(less, bits, i);
      var k :| 0 <= k < |less| && less[k].Decode? && less[k].b.ueId == ue;
      assert jobs[k] == less[k];
    } else {
      assert AllMessages(jobs, bits)[i] == MessagesOf(j, bits)[i - BlocksOfAll(less)];
      assert j.Decode? && j.b.ueId == ue;
    }
  }

  /** No two segments of a subframe get in each other's way. */
  lemma {:induction false} JobsAreClean(jobs: seq<Job>, bits: seq<seq<byte>>)
    requires CanDoAll(jobs, bits) && OneEach(jobs)
    ensures Ul.Disjoint(AllMessages(jobs, bits)) && Ul.Consistent(AllMessages(jobs, bits))
    decreases |jobs|
  {
    if jobs != [] {
      var less, j := jobs[..|jobs| - 1], jobs[|jobs| - 1];
      var a, b := AllMessages(less, bits), MessagesOf(j, bits);
      JobsAreClean(less, bits);
      JobIsClean(j, bits);
      forall i | 0 <= i < |a| && a[i].Seg?
        ensures j.Decode? ==> a[i].s.ueId != j.b.ueId
      {
        SentBySomeJob(less, bits, i);
      }
      CleanTogether(a, b);
    }
  }

  lemma {:induction false} MessagesAreSent(jobs: seq<Job>, bits: seq<seq<byte>>, i: nat, msg: Ul.Message)
    requires CanDoAll(jobs, bits) && i < |jobs| && msg in MessagesOf(jobs[i], bits)
    ensures msg in AllMessages(jobs, bits)
    decreases |jobs|
  {
    var less := jobs[..|jobs| - 1];
    if i < |less| {
      MessagesAreSent(less, bits, i, msg);
    }
  }

  /** The messages of the blocks that are sent; without jobs, that of the header's own block. */
  ghost function SentMessages(jobs: seq<Job>, bits: seq<seq<byte>>): (msgs: seq<Ul.Message>)
    requires CanDoAll(jobs, bits)
    ensures |msgs| == NumBlocks(jobs)
  {
    if jobs == [] then [Ul.Other] else AllMessages(jobs, bits)
  }

  ghost function NumBlocks(jobs: seq<Job>): nat { if jobs == [] then 1 else BlocksOfAll(jobs) }

  lemma SentIsReceivable(cs: seq<seq<byte>>, jobs: seq<Job>, bits: seq<seq<byte>>, sh: Ul.Shape)
    requires CanDoAll(jobs, bits) && OneEach(jobs) && forall i :: 0 <= i < |jobs| ==> IsKnown(jobs[i], sh)
    requires if jobs == [] then |cs| == 1 && |cs[0]| == Ul.SECOND else HoldsJobs(cs, jobs, bits)
    ensures var msgs := SentMessages(jobs, bits);
            Ul.AllStand(cs, sh, msgs) && AllLed(cs, Ul.SECOND) && Ul.Disjoint(msgs) && Ul.Consistent(msgs)
  {
    if jobs != [] {
      JobsStand(cs, jobs, bits, sh);
      JobsAreClean(jobs, bits);
      forall i | 0 <= i < |cs|
        ensures Ul.SECOND <= |cs[i]|
      {
        JobContent(jobs, bits, i);
        assert Ul.Stands(cs[i], sh, AllMessages(jobs, bits)[i]);
      }
    }
  }

  lemma {:induction false} JobContent(jobs: seq<Job>, bits: seq<seq<byte>>, i: nat)
    requires CanDoAll(jobs, bits) && i < BlocksOfAll(jobs)
    ensures !AllMessages(jobs, bits)[i].Other?
    decreases |jobs|
  {
    var less := jobs[..|jobs| - 1];
    if i < BlocksOfAll(less) {
      JobContent(less, bits, i);
    } else {
      assert AllMessages(jobs, bits)[i] == MessagesOf(jobs[|jobs| - 1], bits)[i - BlocksOfAll(less)];
    }
  }

  lemma JobIsDecodable(st: Ul.CuState, sh: Ul.Shape, jobs: seq<Job>, bits: seq<seq<byte>>, i: nat)
    requires Ul.IsCu(st, sh) && CanDoAll(jobs, bits) && i < |jobs| && jobs[i].Decode? && IsKnown(jobs[i], sh)
    requires forall msg :: msg in SentMessages(jobs, bits) && msg.Seg? ==>
               Ul.HasRoom(sh, msg.s) && Ul.Delivered(st, sh, msg.s)
    ensures Segments.CanDecode(st, sh, jobs[i].b, bits[jobs[i].buffer])
  {
    var b, eUL := jobs[i].b, bits[jobs[i].buffer];
    CanSendAll(b, eUL);
    forall r | 0 <= r < b.c
      ensures Segments.Arrived(st, sh, b, eUL, r)
    {
      assert Segments.CanSend(b, eUL, r);
      assert MessagesOf(jobs[i], bits)[r] == Ul.Seg(Segments.SegmentAt(b, eUL, r));
      MessagesAreSent(jobs, bits, i, Ul.Seg(Segments.SegmentAt(b, eUL, r)));
    }
    Segments.ArrivedIsDecodable(st, sh, b, eUL);
  }

  /** Every transport block can be decoded by the CU. */
  ghost predicate AllDecodable(st: Ul.CuState, sh: Ul.Shape, jobs: seq<Job>, bits: seq<seq<byte>>) {
    && Ul.IsCu(st, sh) && CanDoAll(jobs, bits)
    && forall i :: 0 <= i < |jobs| && jobs[i].Decode? ==>
         IsKnown(jobs[i], sh) && Segments.CanDecode(st, sh, jobs[i].b, bits[jobs[i].buffer])
  }

  lemma JobsAreDecodable(st: Ul.CuState, sh: Ul.Shape, jobs: seq<Job>, bits: seq<seq<byte>>)
    requires Ul.IsCu(st, sh) && CanDoAll(jobs, bits) && forall i :: 0 <= i < |jobs| ==> IsKnown(jobs[i], sh)
    requires forall msg :: msg in SentMessages(jobs, bits) && msg.Seg? ==>
               Ul.HasRoom(sh, msg.s) && Ul.Delivered(st, sh, msg.s)
    ensures AllDecodable(st, sh, jobs, bits)
  {
    forall i | 0 <= i < |jobs| && jobs[i].Decode?
      ensures Segments.CanDecode(st, sh, jobs[i].b, bits[jobs[i].buffer])
    {
      JobIsDecodable(st, sh, jobs, bits, i);
    }
  }

  /** The indications are made, in the order in which their blocks arrive. */
  ghost predicate AllIndicated(before: seq<Ul.Event>, after: seq<Ul.Event>, msgs: seq<Ul.Message>, order: seq<nat>)
    requires IsOrder(order, |msgs|)
  {
    var came := Arrange(msgs, order);
    && (forall i :: 0 <= i < |came| && came[i].Ind? ==> Ul.IsCall(came[i].x))
    && after == before + Ul.Calls(came)
  }

  /** The control entries are those of the messages, and whatever no message is about is as it was. */
  ghost predicate LeavesRest(st: Ul.CuState, r: Ul.CuState, sh: Ul.Shape, msgs: seq<Ul.Message>, order: seq<nat>)
    requires IsOrder(order, |msgs|) && Ul.IsCu(st, sh) && Ul.IsCu(r, sh)
  {
    var came := Arrange(msgs, order);
    Ul.Fit(sh, came) && Ul.HasControl(r, sh, came) && Ul.IsKept(st, r, sh, came)
  }

  /** Blocks from which the CU can take the jobs and the measurement. */
  ghost predicate Receivable(cs: seq<seq<byte>>, sh: Ul.Shape, msgs: seq<Ul.Message>, prach: bool, m: Prach.Measurement) {
    && cs != [] && Ul.AllStand(cs, sh, msgs) && AllLed(cs, Ul.SECOND) && Ul.Disjoint(msgs) && Ul.Consistent(msgs)
    && m.Valid() && (prach ==> Rach.HoldsRach(cs[0][..Ul.SECOND], m))
  }

  /** The DU's half. */
  method Send(zone: BufferZone, prach: bool, m: Prach.Measurement, jobs: seq<Job>, softs: seq<array<byte>>,
              ghost bits: seq<seq<byte>>, ghost sh: Ul.Shape)
    requires zone.Valid() && zone.blocks == [] && Aligned(Ul.SECOND) <= zone.buf.Length && m.Valid()
    requires (forall k :: 0 <= k < |softs| ==> softs[k] != zone.buf) && bits == BitsOf(softs)
    requires CanDoAll(jobs, bits) && BlocksOfAll(jobs) < 65536 && RoomFrom(jobs, bits, 0) <= zone.buf.Length
    requires OneEach(jobs) && forall i :: 0 <= i < |jobs| ==> IsKnown(jobs[i], sh)
    modifies zone.buf, zone`blocks
    ensures zone.Valid() && SizeOf(zone.blocks) <= zone.buf.Length
    ensures Receivable(zone.blocks, sh, SentMessages(jobs, bits), prach, m)
  {
    UlDuFs6(zone, prach, m, jobs, softs, bits);
    ChainFits(zone.buf[..], zone.blocks);
    SentIsReceivable(zone.blocks, jobs, bits, sh);
  }

  /** The network and the CU's half. */
  method Receive(zone: BufferZone, cu: Ul.Cu, enb: Prach.Enb, buf: array<byte>, contentType: nat, order: seq<nat>,
                 prach: bool, frame: nat, subframe: nat, ghost m: Prach.Measurement, ghost jobs: seq<Job>,
                 ghost bits: seq<seq<byte>>)
    requires zone.Valid() && SizeOf(zone.blocks) <= zone.buf.Length <= buf.Length && buf != zone.buf
    requires CanDoAll(jobs, bits) && Receivable(zone.blocks, cu.shape, SentMessages(jobs, bits), prach, m)
    requires cu.Valid() && enb.Valid() && contentType < 65536 && subframe < 10 && IsOrder(order, NumBlocks(jobs))
    requires forall i :: 0 <= i < |jobs| ==> IsKnown(jobs[i], cu.shape)
    modifies zone.buf, buf, cu, enb
    ensures cu.Valid() && enb.Valid()
    ensures AllDecodable(cu.View(), cu.shape, jobs, bits)
    ensures AllIndicated(old(cu.events), cu.events, SentMessages(jobs, bits), order)
    ensures LeavesRest(old(cu.View()), cu.View(), cu.shape, SentMessages(jobs, bits), order)
    ensures order[0] == 0 ==> Rach.DecidesAlone(enb.cfg, old(enb.View()), enb.View(), prach, frame, subframe, m)
  {
    ghost var msgs := SentMessages(jobs, bits);
    Subframe.UplinkSubframe(zone, cu, enb, buf, contentType, order, prach, frame, subframe, msgs, m);
    JobsAreDecodable(cu.View(), cu.shape, jobs, bits);
  }

  /** A subframe from the DU's measurements, soft bits and indications to the CU: in any order of
      arrival every transport block can be decoded and every indication is made; the random access
      is decided as in a monolithic eNB if the first block arrives first. */
  method Uplink(zone: BufferZone, prach: bool, m: Prach.Measurement, jobs: seq<Job>, softs: seq<array<byte>>, cu: Ul.Cu,
                enb: Prach.Enb, buf: array<byte>, contentType: nat, order: seq<nat>, frame: nat, subframe: nat,
                ghost bits: seq<seq<byte>>)
    requires zone.Valid() && zone.blocks == [] && Aligned(Ul.SECOND) <= zone.buf.Length && m.Valid()
    requires (forall k :: 0 <= k < |softs| ==> softs[k] != zone.buf) && bits == BitsOf(softs)
    requires CanDoAll(jobs, bits) && BlocksOfAll(jobs) < 65536 && RoomFrom(jobs, bits, 0) <= zone.buf.Length
    requires cu.Valid() && enb.Valid() && buf != zone.buf && zone.buf.Length <= buf.Length
    requires contentType < 65536 && subframe < 10 && IsOrder(order, NumBlocks(jobs))
    requires OneEach(jobs) && forall i :: 0 <= i < |jobs| ==> IsKnown(jobs[i], cu.shape)
    modifies zone.buf, zone`blocks, buf, cu, enb
    ensures cu.Valid() && enb.Valid()
    ensures AllDecodable(cu.View(), cu.shape, jobs, bits)
    ensures AllIndicated(old(cu.events), cu.events, SentMessages(jobs, bits), order)
    ensures LeavesRest(old(cu.View()), cu.View(), cu.shape, SentMessages(jobs, bits), order)
    ensures order[0] == 0 ==> Rach.DecidesAlone(enb.cfg, old(enb.View()), enb.View(), prach, frame, subframe, m)
  {
    Send(zone, prach, m, jobs, softs, bits, cu.shape);
    Receive(zone, cu, enb, buf, contentType, order, prach, frame, subframe, m, jobs, bits);
  }
}
