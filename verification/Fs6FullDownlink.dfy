/** A whole downlink subframe: what the CU has to send is what the DU does. */
module Fs6FullDownlink {
  import opened Bytes
  import opened Fs6Bits
  import opened Fs6Zone
  import opened Fs6Arrival
  import opened Fs6Sender
  import Config = Fs6Config
  import Dl = Fs6Downlink
  import Du = Fs6Du
  import Header = Fs6DlHeader
  import Subframe = Fs6Subframe

  lemma SamePart(c: seq<byte>, c': seq<byte>, second: nat, at: nat, n: nat)
    requires second <= |c| == |c'| && c[second..] == c'[second..] && second + at + n <= |c|
    ensures c[second + at..second + at + n] == c'[second + at..second + at + n]
  {
    SliceOfSlice(c, second, |c| - second, at, at + n);
    SliceOfSlice(c', second, |c| - second, at, at + n);
    assert c[second..|c|] == c[second..] && c'[second..|c|] == c'[second..];
  }

  lemma SameTakes(c: seq<byte>, c': seq<byte>, second: nat, d: seq<Dl.Dlsch>, capacity: nat)
    requires second <= |c| == |c'| && c[second..] == c'[second..]
    ensures Dl.Takes(d, capacity, second, c) ==> Dl.Takes(d, capacity, second, c')
  {
    if second + Dl.SIZE <= |c| {
      SamePart(c, c', second, 0, Dl.SIZE);
    }
  }

  lemma SameTakesUl(c: seq<byte>, c': seq<byte>, second: nat, d: seq<Config.Ulsch>)
    requires second <= |c| == |c'| && c[second..] == c'[second..]
    ensures Config.TakesUl(d, second, c) ==> Config.TakesUl(d, second, c')
  {
    if second + Config.ULSCHED_SIZE <= |c| {
      SamePart(c, c', second, 0, Config.ULSCHED_SIZE);
    }
  }

  lemma SameField(c: seq<byte>, c': seq<byte>, second: nat, at: nat, w: nat)
    requires second <= |c| == |c'| && c[second..] == c'[second..] && second + at + w <= |c|
    ensures Get(c, second + at, w) == Get(c', second + at, w)
  {
    SamePart(c, c', second, at, w);
    GetFrame(c, c', second + at, second + at, w);
  }

  lemma SameTakesCch(c: seq<byte>, c': seq<byte>, second: nat, d: seq<nat>)
    requires second <= |c| == |c'| && c[second..] == c'[second..]
    ensures Config.TakesCch(d, second, c) ==> Config.TakesCch(d, second, c')
  {
    if second + 4 <= |c| {
      SameField(c, c', second, 2, 2);
    }
    if second + 4 + Config.ELEMENT <= |c| {
      SameField(c, c', second, 4, 2);
    }
  }

  /** Filling the second header of a block does not change what the DU makes of the block. */
  lemma SameBehindHeader(c: seq<byte>, c': seq<byte>, second: nat, t: Du.Tables, capacity: nat)
    requires second <= |c| && second <= |c'| && c[second..] == c'[second..] && Du.Understood(t, capacity, second, c)
    ensures |c'| == |c| && (Dl.IsDl(c', second) <==> Dl.IsDl(c, second)) && Du.Understood(t, capacity, second, c')
  {
    assert |c[second..]| == |c'[second..]|;
    assert second < |c| ==> c[second] == c[second..][0] && c'[second] == c'[second..][0];
    SameTakes(c, c', second, t.dlsch, capacity);
    SameTakesUl(c, c', second, t.ulsch);
    SameTakesCch(c, c', second, t.uci);
  }

  /** The DU knows the UE and has room for its bits. */
  ghost predicate IsKnown(u: Dl.DlUe, ues: nat, capacity: nat) {
    u.ueId < ues && u.harqPid < 8 && 0 < u.rnti && 16 * Groups(u.dataLen) <= capacity
  }

  lemma UeIsUnderstood(c: seq<byte>, u: Dl.DlUe, bits: seq<byte>, t: Du.Tables, capacity: nat)
    requires Dl.IsDlContent(c, Header.SECOND, u, bits) && IsKnown(u, |t.dlsch|, capacity)
    ensures Du.Understood(t, capacity, Header.SECOND, c)
    ensures Dl.Stands(t.dlsch, capacity, Header.SECOND, c, Dl.Ue(u, bits)) && Header.SECOND <= |c|
  {
    Dl.DecodeOfContent(c, Header.SECOND, u, bits);
  }

  /** The messages of the blocks: n that are not about UEs, then the UEs, or the header's own. */
  ghost function SentMessages(n: nat, us: seq<Dl.DlUe>, bits: seq<seq<byte>>): (msgs: seq<Dl.Message>)
    requires |us| == |bits|
    ensures |msgs| == NumBlocks(n, us)
    ensures forall i :: 0 <= i < |us| ==> msgs[n + i] == Dl.Ue(us[i], bits[i])
    ensures forall i :: 0 <= i < |msgs| && msgs[i].Ue? ==> n <= i < n + |us| && msgs[i].u == us[i - n]
  {
    if n == 0 && us == [] then [Dl.Other]
    else seq(n, _ => Dl.Other) + seq(|us|, i requires 0 <= i < |us| => Dl.Ue(us[i], bits[i]))
  }

  ghost function NumBlocks(n: nat, us: seq<Dl.DlUe>): nat { if n == 0 && us == [] then 1 else n + |us| }

  /** The CU schedules a UE at most once a subframe. */
  ghost predicate OneEach(us: seq<Dl.DlUe>) {
    forall i, j :: 0 <= i < j < |us| ==> us[i].ueId != us[j].ueId
  }

  /** A block of another kind, before and after the header is filled. */
  ghost predicate IsOther(c: seq<byte>, t: Du.Tables, capacity: nat) {
    Header.SECOND <= |c| && !Dl.IsDl(c, Header.SECOND) && Du.Understood(t, capacity, Header.SECOND, c)
  }

  /** A block that the DU can take in as this message. */
  ghost predicate IsReceivable(c: seq<byte>, t: Du.Tables, capacity: nat, msg: Dl.Message) {
    && Header.SECOND <= |c| && Dl.Stands(t.dlsch, capacity, Header.SECOND, c, msg)
    && Du.Understood(t, capacity, Header.SECOND, c)
  }

  lemma OtherIsReceivable(before: seq<seq<byte>>, cs: seq<seq<byte>>, t: Du.Tables, capacity: nat, i: nat)
    requires Refilled(before, cs, Header.SECOND) && i < |before| && IsOther(before[i], t, capacity)
    ensures IsReceivable(cs[i], t, capacity, Dl.Other)
  {
    SameBehindHeader(before[i], cs[i], Header.SECOND, t, capacity);
  }

  lemma UeIsReceivable(cs: seq<seq<byte>>, n: nat, us: seq<Dl.DlUe>, bits: seq<seq<byte>>, t: Du.Tables, capacity: nat,
          i: nat)
    requires |us| == |bits| && HoldsUes(cs, n, us, bits, |us|) && i < |us| && IsKnown(us[i], |t.dlsch|, capacity)
    ensures IsReceivable(cs[n + i], t, capacity, Dl.Ue(us[i], bits[i]))
  {
    UeHeld(cs, n, us, bits, |us|, i);
    UeIsUnderstood(cs[n + i], us[i], bits[i], t, capacity);
  }

  /** The CU's blocks are these. */
  ghost predicate IsSent(before: seq<seq<byte>>, cs: seq<seq<byte>>, us: seq<Dl.DlUe>, bits: seq<seq<byte>>)
    requires |us| == |bits|
  {
    && Refilled(before, cs, Header.SECOND)
    && (us == [] && before == [] ==> |cs| == 1 && |cs[0]| == Header.SECOND)
    && (us != [] || before != [] ==> HoldsUes(cs, |before|, us, bits, |us|))
  }

  lemma NumSent(before: seq<seq<byte>>, cs: seq<seq<byte>>, us: seq<Dl.DlUe>, bits: seq<seq<byte>>)
    requires |us| == |bits| && IsSent(before, cs, us, bits)
    ensures |cs| == NumBlocks(|before|, us)
  {
  }

  /** Three kinds of blocks are all there are. */
  lemma AllKinds(before: nat, cs: seq<seq<byte>>, us: seq<Dl.DlUe>, bits: seq<seq<byte>>,
          ok: (seq<byte>, Dl.Message) -> bool)
    requires |us| == |bits| && |cs| == NumBlocks(before, us)
    requires forall i :: 0 <= i < before ==> ok(cs[i], Dl.Other)
    requires forall k :: 0 <= k < |us| ==> ok(cs[before + k], Dl.Ue(us[k], bits[k]))
    requires before == 0 && us == [] ==> ok(cs[0], Dl.Other)
    ensures forall i :: 0 <= i < |cs| ==> ok(cs[i], SentMessages(before, us, bits)[i])
  {
    forall i | 0 <= i < |cs|
      ensures ok(cs[i], SentMessages(before, us, bits)[i])
    {
      if before <= i && us != [] {
        assert cs[i] == cs[before + (i - before)];
      }
    }
  }

  lemma SentIsReceivable(before: seq<seq<byte>>, cs: seq<seq<byte>>, us: seq<Dl.DlUe>, bits: seq<seq<byte>>,
          t: Du.Tables, capacity: nat)
    requires |us| == |bits| && IsSent(before, cs, us, bits) && NumBlocks(|before|, us) == |cs|
    requires forall k :: 0 <= k < |before| ==> IsOther(before[k], t, capacity)
    requires forall k :: 0 <= k < |us| ==> IsKnown(us[k], |t.dlsch|, capacity)
    ensures forall i :: 0 <= i < |cs| ==> IsReceivable(cs[i], t, capacity, SentMessages(|before|, us, bits)[i])
  {
    forall i | 0 <= i < |before|
      ensures IsReceivable(cs[i], t, capacity, Dl.Other)
    {
      OtherIsReceivable(before, cs, t, capacity, i);
    }
    forall k | 0 <= k < |us|
      ensures IsReceivable(cs[|before| + k], t, capacity, Dl.Ue(us[k], bits[k]))
    {
      UeIsReceivable(cs, |before|, us, bits, t, capacity, k);
    }
    AllKinds(|before|, cs, us, bits, (c, msg) => IsReceivable(c, t, capacity, msg));
  }

  lemma AllReceivable(before: seq<seq<byte>>, cs: seq<seq<byte>>, us: seq<Dl.DlUe>, bits: seq<seq<byte>>,
          t: Du.Tables, capacity: nat)
    requires |us| == |bits| && IsSent(before, cs, us, bits) && NumBlocks(|before|, us) == |cs|
    requires forall k :: 0 <= k < |before| ==> IsOther(before[k], t, capacity)
    requires forall k :: 0 <= k < |us| ==> IsKnown(us[k], |t.dlsch|, capacity)
    ensures AllLed(cs, Header.SECOND)
    ensures var msgs := SentMessages(|before|, us, bits);
            forall i :: 0 <= i < |msgs| ==> Dl.Stands(t.dlsch, capacity, Header.SECOND, cs[i], msgs[i])
    ensures forall i :: 0 <= i < |cs| ==> Du.Understood(t, capacity, Header.SECOND, cs[i])
  {
    SentIsReceivable(before, cs, us, bits, t, capacity);
    var msgs := SentMessages(|before|, us, bits);
    assert forall i :: 0 <= i < |cs| ==> IsReceivable(cs[i], t, capacity, msgs[i]);
  }

  /** The DU transmits for exactly these UEs, with their parameters and bits. */
  ghost predicate TransmitsThese(d: seq<Dl.Dlsch>, key: nat, us: seq<Dl.DlUe>, bits: seq<seq<byte>>)
    requires |us| == |bits|
  {
    && (forall ue :: 0 <= ue < |d| ==> (Dl.Transmits(d[ue]) <==> exists i :: 0 <= i < |us| && us[i].ueId == ue))
    && (forall i :: 0 <= i < |us| ==> us[i].ueId < |d| && Dl.Carries(d[us[i].ueId], key, us[i], bits[i]))
  }

  /** Whatever the blocks are not about is as it was: other UEs only lose their flag, these keep their other
      processes and HARQ ids. */
  ghost predicate LeavesRest(d: seq<Dl.Dlsch>, r: seq<Dl.Dlsch>, key: nat, us: seq<Dl.DlUe>) {
    && |r| == |d|
    && (forall ue :: 0 <= ue < |d| && (forall i :: 0 <= i < |us| ==> us[i].ueId != ue) ==> Dl.IsCleared(d[ue], r[ue]))
    && (forall i :: 0 <= i < |us| ==>
          us[i].ueId < |d| && Dl.KeepsRest(d[us[i].ueId], r[us[i].ueId], key, us[i]))
  }

  lemma RestIsLeft(d: seq<Dl.Dlsch>, r: seq<Dl.Dlsch>, key: nat, n: nat, us: seq<Dl.DlUe>, bits: seq<seq<byte>>)
    requires |us| == |bits|
    requires var msgs := SentMessages(n, us, bits);
             && Dl.AllKeepRest(d, r, key, msgs)
             && forall ue :: 0 <= ue < |d| && !Dl.Named(msgs, ue) ==> Dl.IsCleared(d[ue], r[ue])
    ensures LeavesRest(d, r, key, us)
  {
    var msgs := SentMessages(n, us, bits);
    forall i | 0 <= i < |us|
      ensures us[i].ueId < |d| && Dl.KeepsRest(d[us[i].ueId], r[us[i].ueId], key, us[i])
    {
      assert msgs[n + i] == Dl.Ue(us[i], bits[i]);
    }
  }

  lemma TheseTransmit(d: seq<Dl.Dlsch>, key: nat, n: nat, us: seq<Dl.DlUe>, bits: seq<seq<byte>>)
    requires |us| == |bits|
    requires var msgs := SentMessages(n, us, bits);
             && Dl.AllCarried(d, key, msgs)
             && forall ue :: 0 <= ue < |d| ==> (Dl.Transmits(d[ue]) <==> Dl.Named(msgs, ue))
    ensures TransmitsThese(d, key, us, bits)
  {
    var msgs := SentMessages(n, us, bits);
    forall ue | 0 <= ue < |d|
      ensures Dl.Named(msgs, ue) <==> exists i :: 0 <= i < |us| && us[i].ueId == ue
    {
      if i :| 0 <= i < |us| && us[i].ueId == ue {
        assert msgs[n + i].u.ueId == ue;
      }
    }
    forall i | 0 <= i < |us|
      ensures us[i].ueId < |d| && Dl.Carries(d[us[i].ueId], key, us[i], bits[i])
    {
      assert msgs[n + i] == Dl.Ue(us[i], bits[i]);
    }
  }

  lemma SentIsDistinct(n: nat, us: seq<Dl.DlUe>, bits: seq<seq<byte>>)
    requires |us| == |bits| && OneEach(us)
    ensures Dl.Distinct(SentMessages(n, us, bits))
  {
  }

  /** The CU's half. */
  method Send(zone: BufferZone, h: Header.CuSubframe, us: seq<Dl.DlUe>, arrays: seq<array<byte>>,
              ghost bits: seq<seq<byte>>)
    returns (ok: bool)
    requires zone.Valid() && zone.Leads(Header.SECOND) && Aligned(Header.SECOND) <= zone.buf.Length
    requires Fits(Header.HeaderFields(h.Sent()), Header.HeaderValues(h)) && |us| == |arrays| && bits == BitsOf(arrays)
    requires |zone.blocks| + |us| < 65536 && SizeOf(zone.blocks) + RoomFor(us, 0) <= zone.buf.Length
    requires forall k :: 0 <= k < |us| ==> arrays[k] != zone.buf && CanAppend(us[k], arrays[k][..])
    modifies zone.buf, zone`blocks
    ensures zone.Valid() && SizeOf(zone.blocks) <= zone.buf.Length && (ok <==> h.numMdci == 0)
    ensures |zone.blocks| == NumBlocks(|old(zone.blocks)|, us) && IsSent(old(zone.blocks), zone.blocks, us, bits)
    ensures zone.blocks != [] && Header.SECOND <= |zone.blocks[0]|
    ensures Header.IsHeader(zone.blocks[0][..Header.SECOND], h)
  {
    ok := DlCuFs6(zone, h, us, arrays, bits);
    ChainFits(zone.buf[..], zone.blocks);
    NumSent(old(zone.blocks), zone.blocks, us, bits);
  }

  /** The network and the DU's half. */
  method Receive(zone: BufferZone, du: Du.Du, buf: array<byte>, contentType: nat, order: seq<nat>, frame: nat,
                 subframe: nat, ghost before: seq<seq<byte>>, ghost h: Header.CuSubframe, ghost us: seq<Dl.DlUe>,
                 ghost bits: seq<seq<byte>>)
    returns (ok: bool)
    requires zone.Valid() && SizeOf(zone.blocks) <= zone.buf.Length <= buf.Length && buf != zone.buf && du.Valid()
    requires zone.blocks != [] && Header.SECOND <= |zone.blocks[0]| && contentType < 65536 && subframe < 10
    requires Header.IsHeader(zone.blocks[0][..Header.SECOND], h) && h.symbols < 256 && h.numMdci == 0
    requires |us| == |bits| && |zone.blocks| == NumBlocks(|before|, us) && IsSent(before, zone.blocks, us, bits)
    requires IsOrder(order, |zone.blocks|)
    requires forall k :: 0 <= k < |before| ==> IsOther(before[k], du.View(), du.capacity)
    requires OneEach(us) && forall k :: 0 <= k < |us| ==> IsKnown(us[k], |du.dlsch|, du.capacity)
    modifies zone.buf, buf, du
    ensures du.Valid() && TransmitsThese(du.dlsch, 10 * (frame % 2) + subframe, us, bits)
    ensures LeavesRest(old(du.dlsch), du.dlsch, 10 * (frame % 2) + subframe, us)
    ensures du.ulsch == Du.ReplayUl(old(du.ulsch), Header.SECOND, Arrange(zone.blocks, order), frame, subframe)
    ensures du.uciVars == Du.ReplayCch(old(du.uciVars), Header.SECOND, Arrange(zone.blocks, order))
    ensures Subframe.HeardFirst(ok, old(du.common), du.common, subframe, zone.blocks[order[0]])
    ensures order[0] == 0 ==> ok && Header.Agrees(du.common, subframe % 2, h)
  {
    ghost var msgs := SentMessages(|before|, us, bits);
    AllReceivable(before, zone.blocks, us, bits, du.View(), du.capacity);
    SentIsDistinct(|before|, us, bits);
    ok := Subframe.DownlinkSubframe(zone, du, buf, contentType, order, frame, subframe, msgs, h);
    TheseTransmit(du.dlsch, 10 * (frame % 2) + subframe, |before|, us, bits);
    RestIsLeft(old(du.dlsch), du.dlsch, 10 * (frame % 2) + subframe, |before|, us, bits);
  }

  /** A subframe from the CU's header and scheduled UEs, behind blocks with uplink decodes and control
      channels, to the DU: in any order of arrival it transmits for exactly these UEs, and when the
      first block arrives first it has the CU's header. With MBMS entries the program aborts before
      anything is sent. */
  method Downlink(zone: BufferZone, h: Header.CuSubframe, us: seq<Dl.DlUe>, arrays: seq<array<byte>>, du: Du.Du,
                  buf: array<byte>, contentType: nat, order: seq<nat>, frame: nat, subframe: nat,
                  ghost bits: seq<seq<byte>>)
    returns (sent: bool, ok: bool)
    requires zone.Valid() && zone.Leads(Header.SECOND) && Aligned(Header.SECOND) <= zone.buf.Length
    requires Fits(Header.HeaderFields(h.Sent()), Header.HeaderValues(h)) && |us| == |arrays| && bits == BitsOf(arrays)
    requires |zone.blocks| + |us| < 65536 && SizeOf(zone.blocks) + RoomFor(us, 0) <= zone.buf.Length
    requires forall k :: 0 <= k < |us| ==> arrays[k] != zone.buf && CanAppend(us[k], arrays[k][..])
    requires zone.buf.Length <= buf.Length && buf != zone.buf && du.Valid() && contentType < 65536 && subframe < 10
    requires h.symbols < 256 && IsOrder(order, NumBlocks(|zone.blocks|, us))
    requires forall k :: 0 <= k < |zone.blocks| ==> IsOther(zone.blocks[k], du.View(), du.capacity)
    requires OneEach(us) && forall k :: 0 <= k < |us| ==> IsKnown(us[k], |du.dlsch|, du.capacity)
    modifies zone.buf, zone`blocks, buf, du
    ensures (sent <==> h.numMdci == 0) && du.Valid() && IsSent(old(zone.blocks), zone.blocks, us, bits)
    ensures |zone.blocks| == |order| > 0
    ensures sent ==> TransmitsThese(du.dlsch, 10 * (frame % 2) + subframe, us, bits)
    ensures sent ==> LeavesRest(old(du.dlsch), du.dlsch, 10 * (frame % 2) + subframe, us)
    ensures sent ==> du.ulsch == Du.ReplayUl(old(du.ulsch), Header.SECOND, Arrange(zone.blocks, order), frame, subframe)
    ensures sent ==> du.uciVars == Du.ReplayCch(old(du.uciVars), Header.SECOND, Arrange(zone.blocks, order))
    ensures sent ==> Subframe.HeardFirst(ok, old(du.common), du.common, subframe, zone.blocks[order[0]])
    ensures sent && order[0] == 0 ==> ok && Header.Agrees(du.common, subframe % 2, h)
    ensures !sent ==> du.View() == old(du.View()) && du.common == old(du.common)
  {
    ghost var before := zone.blocks;
    sent := Send(zone, h, us, arrays, bits);
    ok := false;
    if sent {
      ok := Receive(zone, du, buf, contentType, order, frame, subframe, before, h, us, bits);
    }
  }
}
