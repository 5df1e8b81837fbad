/** One subframe over the split interface, from the sender's bytes to what the receiver does. */
module Fs6Subframe {
  import opened Bytes
  import opened Fs6Zone
  import opened Fs6Arrival
  import Dl = Fs6Downlink
  import Du = Fs6Du
  import Header = Fs6DlHeader
  import Rach = Fs6Rach
  import Ul = Fs6Uplink
  import Prach

  lemma DlNamed(msgs: seq<Dl.Message>, order: seq<nat>, ue: nat)
    requires IsOrder(order, |msgs|)
    ensures Dl.Named(Arrange(msgs, order), ue) <==> Dl.Named(msgs, ue)
  {
    var came := Arrange(msgs, order);
    if Dl.Named(msgs, ue) {
      var k :| 0 <= k < |msgs| && msgs[k].Ue? && msgs[k].u.ueId == ue;
      assert k in order;
      var i :| 0 <= i < |order| && order[i] == k;
      assert came[i] == msgs[k];
    }
    if Dl.Named(came, ue) {
      var i :| 0 <= i < |came| && came[i].Ue? && came[i].u.ueId == ue;
      assert msgs[order[i]] == came[i];
    }
  }

  lemma DlCarried(d: seq<Dl.Dlsch>, key: nat, msgs: seq<Dl.Message>, order: seq<nat>)
    requires IsOrder(order, |msgs|) && Dl.AllCarried(d, key, Arrange(msgs, order))
    ensures Dl.AllCarried(d, key, msgs)
  {
    forall k | 0 <= k < |msgs| && msgs[k].Ue?
      ensures msgs[k].u.ueId < |d| && Dl.Carries(d[msgs[k].u.ueId], key, msgs[k].u, msgs[k].bits)
    {
      assert k in order;
      var i :| 0 <= i < |order| && order[i] == k;
      assert Arrange(msgs, order)[i] == msgs[k];
    }
  }

  lemma DlKept(d: seq<Dl.Dlsch>, r: seq<Dl.Dlsch>, key: nat, msgs: seq<Dl.Message>, order: seq<nat>)
    requires IsOrder(order, |msgs|) && Dl.AllKeepRest(d, r, key, Arrange(msgs, order))
    ensures Dl.AllKeepRest(d, r, key, msgs)
  {
    forall k | 0 <= k < |msgs| && msgs[k].Ue?
      ensures msgs[k].u.ueId < |d| && Dl.KeepsRest(d[msgs[k].u.ueId], r[msgs[k].u.ueId], key, msgs[k].u)
    {
      assert k in order;
      var i :| 0 <= i < |order| && order[i] == k;
      assert Arrange(msgs, order)[i] == msgs[k];
    }
  }

  lemma DlDistinct(msgs: seq<Dl.Message>, order: seq<nat>)
    requires IsOrder(order, |msgs|) && Dl.Distinct(msgs)
    ensures Dl.Distinct(Arrange(msgs, order))
  {
    var came := Arrange(msgs, order);
    forall i, j | 0 <= i < j < |came| && came[i].Ue? && came[j].Ue?
      ensures came[i].u.ueId != came[j].u.ueId
    {
      assert came[i] == msgs[order[i]] && came[j] == msgs[order[j]] && order[i] != order[j];
    }
  }

  /** DownlinkIsTransparent for blocks that arrive in some order. */
  lemma DlInAnyOrder(d: seq<Dl.Dlsch>, capacity: nat, key: nat, second: nat, cs: seq<seq<byte>>,
          msgs: seq<Dl.Message>, order: seq<nat>)
    requires Dl.IsTable(d, capacity) && key < 20 && |cs| == |msgs| && Dl.Distinct(msgs) && IsOrder(order, |cs|)
    requires forall i :: 0 <= i < |cs| ==> Dl.Stands(d, capacity, second, cs[i], msgs[i])
    ensures Dl.IsTable(Dl.Clear(d), capacity)
    ensures var r := Dl.Replay(Dl.Clear(d), capacity, key, second, Arrange(cs, order));
            && (forall ue :: 0 <= ue < |d| ==> (Dl.Transmits(r[ue]) <==> Dl.Named(msgs, ue)))
            && Dl.AllCarried(r, key, msgs) && Dl.AllKeepRest(d, r, key, msgs)
            && (forall ue :: 0 <= ue < |d| && !Dl.Named(msgs, ue) ==> Dl.IsCleared(d[ue], r[ue]))
  {
    var cs', msgs' := Arrange(cs, order), Arrange(msgs, order);
    forall i | 0 <= i < |cs'|
      ensures Dl.Stands(d, capacity, second, cs'[i], msgs'[i])
    {
      assert Dl.Stands(d, capacity, second, cs[order[i]], msgs[order[i]]);
    }
    DlDistinct(msgs, order);
    Dl.DownlinkIsTransparent(d, capacity, key, second, cs', msgs');
    var r := Dl.Replay(Dl.Clear(d), capacity, key, second, cs');
    DlCarried(r, key, msgs, order);
    DlKept(d, r, key, msgs, order);
    forall ue | 0 <= ue < |d|
      ensures Dl.Transmits(r[ue]) <==> Dl.Named(msgs, ue)
      ensures !Dl.Named(msgs, ue) ==> Dl.IsCleared(d[ue], r[ue])
    {
      DlNamed(msgs, order, ue);
    }
  }

  lemma AllUnderstood(t: Du.Tables, capacity: nat, cs: seq<seq<byte>>, order: seq<nat>)
    requires IsOrder(order, |cs|) && Du.AreTables(t, capacity) && Dl.IsTable(Dl.Clear(t.dlsch), capacity)
    requires forall i :: 0 <= i < |cs| ==> Du.Understood(t, capacity, Header.SECOND, cs[i])
    ensures forall i :: 0 <= i < |cs| ==>
              Du.Understood(t.(dlsch := Dl.Clear(t.dlsch)), capacity, Header.SECOND, Arrange(cs, order)[i])
  {
    forall i | 0 <= i < |cs|
      ensures Du.Understood(t.(dlsch := Dl.Clear(t.dlsch)), capacity, Header.SECOND, Arrange(cs, order)[i])
    {
      assert Du.Understood(t, capacity, Header.SECOND, cs[order[i]]);
      Du.StillUnderstood(t, t.(dlsch := Dl.Clear(t.dlsch)), capacity, Header.SECOND, cs[order[i]]);
    }
  }

  /** The second header the DU takes is that of the first arrival; one that counts too many DCI
      entries is refused. */
  ghost predicate HeardFirst(ok: bool, cm: Header.Common, cm': Header.Common, subframe: nat, c: seq<byte>) {
    && cm.Valid() && Header.SECOND <= |c| && (ok <==> Header.NumDci(c[..Header.SECOND]) <= Header.DCI_MAX)
    && cm' == if ok then Header.TakeHeader(cm, subframe % 2, c[..Header.SECOND]) else cm
  }

  lemma OwnHeaderIsHeard(cm: Header.Common, cm': Header.Common, ok: bool, subframe: nat, c: seq<byte>, h: Header.CuSubframe)
    requires HeardFirst(ok, cm, cm', subframe, c) && Header.IsHeader(c[..Header.SECOND], h)
    requires h.symbols < 256 && h.numMdci < 256
    ensures ok && cm'.Valid() && Header.Agrees(cm', subframe % 2, h)
  {
    Header.HeaderArrives(cm, subframe % 2, c[..Header.SECOND], h);
  }

  /** A downlink subframe from the CU's zone to the DU's transmitters. The UEs, decodes and control
      channels do not depend on the order of arrival; the second header is that of the block that
      arrives first, unless it counts too many DCI entries. */
  method DownlinkSubframe(zone: BufferZone, du: Du.Du, buf: array<byte>, contentType: nat, order: seq<nat>, frame: nat,
                          subframe: nat, ghost msgs: seq<Dl.Message>, ghost h: Header.CuSubframe)
    returns (ok: bool)
    requires zone.Valid() && contentType < 65536 && buf != zone.buf && du.Valid() && subframe < 10
    requires zone.blocks != [] && IsOrder(order, |zone.blocks|) && AllLed(zone.blocks, Header.SECOND)
    requires SizeOf(zone.blocks) <= buf.Length
    requires |zone.blocks| == |msgs| && Dl.Distinct(msgs)
    requires forall i :: 0 <= i < |msgs| ==> Dl.Stands(du.dlsch, du.capacity, Header.SECOND, zone.blocks[i], msgs[i])
    requires forall i :: 0 <= i < |msgs| ==> Du.Understood(du.View(), du.capacity, Header.SECOND, zone.blocks[i])
    requires Header.IsHeader(zone.blocks[0][..Header.SECOND], h) && h.symbols < 256 && h.numMdci < 256
    modifies zone.buf, buf, du
    ensures du.Valid() && |du.dlsch| == |old(du.dlsch)|
    ensures forall ue :: 0 <= ue < |du.dlsch| ==> (Dl.Transmits(du.dlsch[ue]) <==> Dl.Named(msgs, ue))
    ensures Dl.AllCarried(du.dlsch, 10 * (frame % 2) + subframe, msgs)
    ensures Dl.AllKeepRest(old(du.dlsch), du.dlsch, 10 * (frame % 2) + subframe, msgs)
    ensures forall ue :: 0 <= ue < |du.dlsch| && !Dl.Named(msgs, ue) ==> Dl.IsCleared(old(du.dlsch)[ue], du.dlsch[ue])
    ensures du.ulsch == Du.ReplayUl(old(du.ulsch), Header.SECOND, Arrange(zone.blocks, order), frame, subframe)
    ensures du.uciVars == Du.ReplayCch(old(du.uciVars), Header.SECOND, Arrange(zone.blocks, order))
    ensures HeardFirst(ok, old(du.common), du.common, subframe, zone.blocks[order[0]])
    ensures order[0] == 0 ==> ok && Header.Agrees(du.common, subframe % 2, h)
  {
    ghost var cs, cm := zone.blocks, du.common;
    var rcved, arrivals := Exchange(zone, contentType, buf, order);
    FrontOf(buf[..], cs[order[0]], Header.SECOND);
    assert buf[..][HEADER..HEADER + Header.SECOND] == buf[HEADER..HEADER + Header.SECOND];
    TakeDownlink(du, buf, rcved, frame, subframe, cs, msgs, order, arrivals);
    ok := du.ReadHeader(buf, subframe);
    if order[0] == 0 {
      OwnHeaderIsHeard(cm, du.common, ok, subframe, cs[0], h);
    }
  }

  /** The walk over the blocks. */
  method TakeDownlink(du: Du.Du, buf: array<byte>, rcved: nat, frame: nat, subframe: nat, ghost cs: seq<seq<byte>>,
                      ghost msgs: seq<Dl.Message>, ghost order: seq<nat>, ghost arrivals: seq<seq<byte>>)
    requires du.Valid() && subframe < 10 && |cs| == |msgs| && IsOrder(order, |cs|) && Dl.Distinct(msgs)
    requires rcved == |arrivals| && Holds(buf[..], arrivals) && Contents(arrivals) == Arrange(cs, order)
    requires forall i :: 0 <= i < |msgs| ==> Dl.Stands(du.dlsch, du.capacity, Header.SECOND, cs[i], msgs[i])
    requires forall i :: 0 <= i < |msgs| ==> Du.Understood(du.View(), du.capacity, Header.SECOND, cs[i])
    modifies du`dlsch, du`ulsch, du`uciVars
    ensures du.Valid() && |du.dlsch| == |old(du.dlsch)|
    ensures forall ue :: 0 <= ue < |du.dlsch| ==> (Dl.Transmits(du.dlsch[ue]) <==> Dl.Named(msgs, ue))
    ensures Dl.AllCarried(du.dlsch, 10 * (frame % 2) + subframe, msgs)
    ensures Dl.AllKeepRest(old(du.dlsch), du.dlsch, 10 * (frame % 2) + subframe, msgs)
    ensures forall ue :: 0 <= ue < |du.dlsch| && !Dl.Named(msgs, ue) ==> Dl.IsCleared(old(du.dlsch)[ue], du.dlsch[ue])
    ensures du.ulsch == Du.ReplayUl(old(du.ulsch), Header.SECOND, Arrange(cs, order), frame, subframe)
    ensures du.uciVars == Du.ReplayCch(old(du.uciVars), Header.SECOND, Arrange(cs, order))
  {
    ghost var t, key := du.View(), 10 * (frame % 2) + subframe;
    du.RemoveScheduled();
    DlInAnyOrder(t.dlsch, du.capacity, key, Header.SECOND, cs, msgs, order);
    AllUnderstood(t, du.capacity, cs, order);
    ghost var cleared := du.View();
    du.RcvFs6DL(buf, Header.SECOND, rcved, frame, subframe, arrivals);
    Du.ReplayParts(cleared, du.capacity, Header.SECOND, Arrange(cs, order), frame, subframe);
  }

  /** The second header of the first arrival lies at the front. */
  lemma FrontOf(m: seq<byte>, c: seq<byte>, second: nat)
    requires StartsWith(m, c) && second <= |c|
    ensures HEADER + second <= |m| && m[HEADER..HEADER + second] == c[..second]
  {
    SliceOfSlice(m, HEADER, |c|, 0, second);
  }

  lemma UlArranged(sh: Ul.Shape, cs: seq<seq<byte>>, msgs: seq<Ul.Message>, order: seq<nat>)
    requires Ul.AllStand(cs, sh, msgs) && Ul.Disjoint(msgs) && Ul.Consistent(msgs) && IsOrder(order, |cs|)
    ensures var came := Arrange(msgs, order);
            && Ul.AllStand(Arrange(cs, order), sh, came) && Ul.Disjoint(came) && Ul.Consistent(came)
            && forall msg :: msg in msgs ==> msg in came
  {
    var cs', came := Arrange(cs, order), Arrange(msgs, order);
    forall i | 0 <= i < |cs'|
      ensures Ul.Stands(cs'[i], sh, came[i])
    {
      assert Ul.Stands(cs[order[i]], sh, msgs[order[i]]);
    }
    forall i, j | 0 <= i < j < |came| && came[i].Seg? && came[j].Seg?
      ensures Ul.Apart(came[i].s, came[j].s) && Ul.Agree(came[i].s, came[j].s)
    {
      assert came[i] == msgs[order[i]] && came[j] == msgs[order[j]] && order[i] != order[j];
    }
    forall msg | msg in msgs
      ensures msg in came
    {
      var k :| 0 <= k < |msgs| && msgs[k] == msg;
      assert k in order;
      var i :| 0 <= i < |order| && order[i] == k;
      assert came[i] == msg;
    }
  }

  /** An uplink subframe from the DU's zone to the CU's soft bits, indications and RACH detection. The
      measurement the CU uses is that of the block that arrives first. */
  method UplinkSubframe(zone: BufferZone, cu: Ul.Cu, enb: Prach.Enb, buf: array<byte>, contentType: nat, order: seq<nat>,
                        prach: bool, frame: nat, subframe: nat, ghost msgs: seq<Ul.Message>, ghost m: Prach.Measurement)
    requires zone.Valid() && contentType < 65536 && buf != zone.buf && cu.Valid() && enb.Valid() && subframe < 10
    requires zone.blocks != [] && IsOrder(order, |zone.blocks|) && AllLed(zone.blocks, Ul.SECOND)
    requires SizeOf(zone.blocks) <= buf.Length
    requires Ul.AllStand(zone.blocks, cu.shape, msgs) && Ul.Disjoint(msgs) && Ul.Consistent(msgs)
    requires m.Valid() && (prach ==> Rach.HoldsRach(zone.blocks[0][..Ul.SECOND], m))
    modifies zone.buf, buf, cu, enb
    ensures cu.Valid() && enb.Valid()
    ensures forall msg :: msg in msgs && msg.Seg? ==>
              Ul.HasRoom(cu.shape, msg.s) && Ul.Delivered(cu.View(), cu.shape, msg.s)
    ensures forall msg :: msg in Arrange(msgs, order) && msg.Ind? ==> Ul.IsCall(msg.x)
    ensures cu.events == old(cu.events) + Ul.Calls(Arrange(msgs, order))
    ensures Ul.Fit(cu.shape, Arrange(msgs, order)) && Ul.HasControl(cu.View(), cu.shape, Arrange(msgs, order))
    ensures Ul.IsKept(old(cu.View()), cu.View(), cu.shape, Arrange(msgs, order))
    ensures Rach.Decides(enb.cfg, old(enb.View()), enb.View(), prach, frame, subframe, zone.blocks[order[0]][..Ul.SECOND])
    ensures order[0] == 0 ==> Rach.DecidesAlone(enb.cfg, old(enb.View()), enb.View(), prach, frame, subframe, m)
  {
    ghost var cs := zone.blocks;
    var rcved, arrivals := HearUplink(zone, enb, buf, contentType, order, prach, frame, subframe, m);
    TakeUplink(cu, buf, rcved, cs, msgs, order, arrivals);
  }

  /** The exchange and the RACH detection. */
  method HearUplink(zone: BufferZone, enb: Prach.Enb, buf: array<byte>, contentType: nat, order: seq<nat>, prach: bool,
                    frame: nat, subframe: nat, ghost m: Prach.Measurement)
    returns (rcved: nat, ghost arrivals: seq<seq<byte>>)
    requires zone.Valid() && contentType < 65536 && buf != zone.buf && enb.Valid() && subframe < 10
    requires zone.blocks != [] && IsOrder(order, |zone.blocks|) && AllLed(zone.blocks, Ul.SECOND)
    requires SizeOf(zone.blocks) <= buf.Length
    requires m.Valid() && (prach ==> Rach.HoldsRach(zone.blocks[0][..Ul.SECOND], m))
    modifies zone.buf, buf, enb
    ensures rcved == |arrivals| && Holds(buf[..], arrivals) && Contents(arrivals) == Arrange(zone.blocks, order)
    ensures enb.Valid()
    ensures Rach.Decides(enb.cfg, old(enb.View()), enb.View(), prach, frame, subframe, zone.blocks[order[0]][..Ul.SECOND])
    ensures order[0] == 0 ==> Rach.DecidesAlone(enb.cfg, old(enb.View()), enb.View(), prach, frame, subframe, m)
  {
    ghost var cs, rach := zone.blocks, enb.View();
    rcved, arrivals := Exchange(zone, contentType, buf, order);
    FrontOf(buf[..], cs[order[0]], Ul.SECOND);
    assert buf[..][HEADER..HEADER + Ul.SECOND] == buf[HEADER..HEADER + Ul.SECOND];
    Rach.DecideRach(enb, buf, prach, frame, subframe);
    if order[0] == 0 {
      Rach.DecidesTheSame(enb.cfg, rach, enb.View(), prach, frame, subframe, cs[0][..Ul.SECOND], m);
    }
  }

  /** The part behind the header. */
  method TakeUplink(cu: Ul.Cu, buf: array<byte>, rcved: nat, ghost cs: seq<seq<byte>>, ghost msgs: seq<Ul.Message>,
                    ghost order: seq<nat>, ghost arrivals: seq<seq<byte>>)
    requires cu.Valid() && cs != [] && IsOrder(order, |cs|)
    requires rcved == |arrivals| && Holds(buf[..], arrivals) && Contents(arrivals) == Arrange(cs, order)
    requires Ul.AllStand(cs, cu.shape, msgs) && Ul.Disjoint(msgs) && Ul.Consistent(msgs)
    modifies cu
    ensures cu.Valid()
    ensures forall msg :: msg in msgs && msg.Seg? ==>
              Ul.HasRoom(cu.shape, msg.s) && Ul.Delivered(cu.View(), cu.shape, msg.s)
    ensures forall msg :: msg in Arrange(msgs, order) && msg.Ind? ==> Ul.IsCall(msg.x)
    ensures cu.events == old(cu.events) + Ul.Calls(Arrange(msgs, order))
    ensures Ul.Fit(cu.shape, Arrange(msgs, order)) && Ul.HasControl(cu.View(), cu.shape, Arrange(msgs, order))
    ensures Ul.IsKept(old(cu.View()), cu.View(), cu.shape, Arrange(msgs, order))
  {
    ghost var st, came := cu.View(), Arrange(msgs, order);
    UlArranged(cu.shape, cs, msgs, order);
    Ul.UplinkIsTransparent(st, cu.shape, Arrange(cs, order), came);
    cu.RecvFs6Ul(buf, rcved, arrivals);
    forall msg | msg in msgs && msg.Seg?
      ensures Ul.HasRoom(cu.shape, msg.s) && Ul.Delivered(cu.View(), cu.shape, msg.s)
    {
      assert msg in came;
    }
  }
}
