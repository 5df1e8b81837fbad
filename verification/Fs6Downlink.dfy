/** Downlink of the CU/DU split: the CU appends one block a scheduled UE, the DU clears its
    schedule, walks the received blocks and transmits for the UEs they name. */
module Fs6Downlink {
  import opened Bytes
  import opened Fs6Bits
  import opened Fs6Zone

  /** enum pckType: fs6DlConfig. */
  const DL_CONFIG: nat := 26

  /** fs6_dl_uespec_t on a 64-bit target: type, UE_id, harq_pid, rnti, sqrt_rho_a, sqrt_rho_b,
      nb_rb, Qm, Nl, pdsch_start, sib1_br_flag, i0, rb_alloc[4], dataLen. CEmode, at 16, is not
      sent without PHY_TX_THREAD. */
  const FIELDS: seq<Field> :=
    [Field(0, 1), Field(4, 4), Field(8, 1), Field(10, 2), Field(12, 2), Field(14, 2), Field(18, 2), Field(20, 1),
     Field(21, 1), Field(22, 1), Field(23, 1), Field(24, 2), Field(28, 4), Field(32, 4), Field(36, 4), Field(40, 4),
     Field(44, 4)]
  const SIZE: nat := 48

  /** What the CU sends for one UE. Signed C fields are carried as their unsigned bit patterns. */
  datatype DlUe = DlUe(
    ueId: nat, harqPid: nat, rnti: nat, rhoA: nat, rhoB: nat, nbRb: nat, qm: nat, nl: nat, pdschStart: nat,
    sib1: nat, i0: nat, rbAlloc: (nat, nat, nat, nat), dataLen: nat)

  function Values(u: DlUe): (vs: seq<nat>)
    ensures |vs| == |FIELDS|
  {
    [DL_CONFIG, u.ueId, u.harqPid, u.rnti, u.rhoA, u.rhoB, u.nbRb, u.qm, u.nl, u.pdschStart, u.sib1, u.i0,
     u.rbAlloc.0, u.rbAlloc.1, u.rbAlloc.2, u.rbAlloc.3, u.dataLen]
  }

  function FromValues(vs: seq<nat>): (u: DlUe)
    requires |vs| == |FIELDS|
    ensures vs[0] == DL_CONFIG ==> Values(u) == vs
  {
    DlUe(vs[1], vs[2], vs[3], vs[4], vs[5], vs[6], vs[7], vs[8], vs[9], vs[10], vs[11],
         (vs[12], vs[13], vs[14], vs[15]), vs[16])
  }

  lemma FieldsAreLayout()
    ensures IsLayout(FIELDS, SIZE)
  {
  }

  /** The block content for a UE: a second header of `second` bytes that the append functions
      leave alone, the structure, the packed bits. */
  ghost predicate IsDlContent(c: seq<byte>, second: nat, u: DlUe, bits: seq<byte>) {
    && 16 * Groups(u.dataLen) <= |bits|
    && |c| == second + SIZE + 2 * Groups(u.dataLen)
    && IsLayout(FIELDS, SIZE) && Fetch(c[second..second + SIZE], FIELDS) == Values(u)
    && c[second + SIZE..] == Packed(bits, u.dataLen)
  }

  /** A structure and the packed bits behind it are a content. */
  lemma ContentIn(m: seq<byte>, at: nat, second: nat, u: DlUe, bits: seq<byte>)
    requires 16 * Groups(u.dataLen) <= |bits| && IsLayout(FIELDS, SIZE)
    requires at + second + SIZE + 2 * Groups(u.dataLen) <= |m|
    requires var base := at + second;
             && Fetch(m[base..base + SIZE], FIELDS) == Values(u)
             && m[base + SIZE..base + SIZE + 2 * Groups(u.dataLen)] == Packed(bits, u.dataLen)
    ensures IsDlContent(m[at..at + second + SIZE + 2 * Groups(u.dataLen)], second, u, bits)
  {
    var n := second + SIZE + 2 * Groups(u.dataLen);
    SliceOfSlice(m, at, n, second, second + SIZE);
    SliceOfSlice(m, at, n, second + SIZE, n);
    assert m[at..at + n][second + SIZE..] == m[at..at + n][second + SIZE..n];
  }

  /** Fill an opened block. */
  method WriteDlContent(buf: array<byte>, at: nat, second: nat, u: DlUe, bits: array<byte>)
    requires bits != buf && Fits(FIELDS, Values(u)) && 16 * Groups(u.dataLen) <= bits.Length
    requires at + second + SIZE + 2 * Groups(u.dataLen) <= buf.Length
    modifies buf
    ensures IsDlContent(buf[at..at + second + SIZE + 2 * Groups(u.dataLen)], second, u, bits[..])
    ensures forall k :: 0 <= k < buf.Length && !(at + second <= k < at + second + SIZE + 2 * Groups(u.dataLen)) ==>
              buf[k] == old(buf[k])
  {
    FieldsAreLayout();
    var base := at + second;
    StoreFields(buf, base, SIZE, FIELDS, Values(u));
    ghost var stored := buf[base..base + SIZE];
    PackBits(buf, base + SIZE, bits, u.dataLen);
    assert buf[..][base..base + SIZE] == stored;
    ContentIn(buf[..], at, second, u, bits[..]);
  }

  /** The packed bits, and nothing else. */
  method PackBits(buf: array<byte>, at: nat, bits: array<byte>, n: nat)
    requires bits != buf && 16 * Groups(n) <= bits.Length && at + 2 * Groups(n) <= buf.Length
    modifies buf
    ensures buf[..][at..at + 2 * Groups(n)] == Packed(bits[..], n)
    ensures forall k :: 0 <= k < buf.Length && !(at <= k < at + 2 * Groups(n)) ==> buf[k] == old(buf[k])
  {
    ghost var m := buf[..];
    Fs6DlPack(buf, at, bits, n);
    assert forall k :: 0 <= k < buf.Length ==> buf[k] == buf[..][k] && m[k] == old(buf[k]);
  }

  /** appendFs6DLUE: a block for one UE behind the existing ones. `bits` is the UE's eDL array and
      u.dataLen what get_G computed for it. */
  method AppendFs6DLUE(zone: BufferZone, second: nat, u: DlUe, bits: array<byte>)
    requires zone.Valid() && zone.Leads(second) && bits != zone.buf && |zone.blocks| < 65535
    requires Fits(FIELDS, Values(u)) && 16 * Groups(u.dataLen) <= bits.Length
    requires second + SIZE + 2 * Groups(u.dataLen) < 65536
    requires SizeOf(zone.blocks) + Aligned(second + SIZE + 2 * Groups(u.dataLen)) <= zone.buf.Length
    modifies zone.buf, zone`blocks
    ensures zone.Valid() && |zone.blocks| == |old(zone.blocks)| + 1 && old(zone.blocks) <= zone.blocks
    ensures IsDlContent(zone.blocks[|old(zone.blocks)|], second, u, bits[..])
    ensures zone.Leads(second) && zone.Front(second) == old(zone.Front(second))
  {
    var n := second + SIZE + 2 * Groups(u.dataLen);
    var at := OpenLed(zone, second, n);
    ghost var m := zone.buf[..];
    WriteDlContent(zone.buf, at, second, u, bits);
    ghost var c := zone.buf[at..at + n];
    SettleLed(zone, second, at, n, m);
    assert zone.blocks[|old(zone.blocks)|] == c;
  }

  // The DU side.

  /** LTE_DL_eNB_HARQ_t, the fields a block carries. */
  datatype Harq = Harq(nbRb: nat, rbAlloc: (nat, nat, nat, nat), qm: nat, nl: nat, pdschStart: nat, eDL: seq<byte>)

  /** LTE_eNB_DLSCH_t. harqIds is indexed by 10 * (frame % 2) + subframe. */
  datatype Dlsch = Dlsch(
    active: bool, rnti: nat, rhoA: nat, rhoB: nat, i0: nat, sib1: nat, harqIds: seq<nat>, harqs: seq<Harq>)

  /** The DU's table: eight HARQ processes a UE, bit arrays of one capacity. */
  ghost predicate IsTable(d: seq<Dlsch>, capacity: nat) {
    forall ue :: 0 <= ue < |d| ==>
      |d[ue].harqIds| == 20 && |d[ue].harqs| == 8 && forall p :: 0 <= p < 8 ==> |d[ue].harqs[p].eDL| == capacity
  }

  /** The UEs pdsch_procedures is called for. */
  predicate Transmits(x: Dlsch) { 0 < x.rnti && x.active }

  /** Remove all scheduled downlink; entries without an RNTI keep their flag. */
  function Clear(d: seq<Dlsch>): (r: seq<Dlsch>)
    ensures |r| == |d|
  {
    seq(|d|, ue requires 0 <= ue < |d| => if 0 < d[ue].rnti then d[ue].(active := false) else d[ue])
  }

  /** Nothing is scheduled for an entry with an RNTI any more, and nothing else changed. */
  predicate IsCleared(x: Dlsch, y: Dlsch) {
    && (0 < x.rnti ==> !y.active) && (x.rnti == 0 ==> y.active == x.active)
    && y.rnti == x.rnti && y.rhoA == x.rhoA && y.rhoB == x.rhoB && y.i0 == x.i0 && y.sib1 == x.sib1
    && y.harqIds == x.harqIds && y.harqs == x.harqs
  }

  predicate IsDl(c: seq<byte>, second: nat) {
    second < |c| && c[second] == DL_CONFIG
  }

  function Decode(c: seq<byte>, second: nat): DlUe
    requires second + SIZE <= |c|
  {
    FieldsAreLayout();
    FromValues(Fetch(c[second..second + SIZE], FIELDS))
  }

  /** A downlink block that the DU can take. */
  ghost predicate Takes(d: seq<Dlsch>, capacity: nat, second: nat, c: seq<byte>) {
    && second + SIZE <= |c|
    && (var u := Decode(c, second);
        && u.ueId < |d| && u.harqPid < 8
        && second + SIZE + 2 * Groups(u.dataLen) <= |c| && 16 * Groups(u.dataLen) <= capacity)
  }

  /** One UE's entry after its block. */
  function Activate(x: Dlsch, key: nat, u: DlUe, packed: seq<byte>): Dlsch
    requires key < |x.harqIds| && u.harqPid < |x.harqs|
    requires 2 * Groups(u.dataLen) <= |packed| && 16 * Groups(u.dataLen) <= |x.harqs[u.harqPid].eDL|
  {
    var e := x.harqs[u.harqPid].eDL;
    var bits := Unpacked(packed[..2 * Groups(u.dataLen)]) + e[16 * Groups(u.dataLen)..];
    Dlsch(true, u.rnti, u.rhoA, u.rhoB, u.i0, u.sib1, x.harqIds[key := u.harqPid],
          x.harqs[u.harqPid := Harq(u.nbRb, u.rbAlloc, u.qm, u.nl, u.pdschStart, bits)])
  }

  /** One pass of the loop of rcvFs6DL, on the block content. */
  ghost function Accept(d: seq<Dlsch>, capacity: nat, key: nat, second: nat, c: seq<byte>): (r: seq<Dlsch>)
    requires IsTable(d, capacity) && key < 20
    ensures |r| == |d| && IsTable(r, capacity)
  {
    if IsDl(c, second) && Takes(d, capacity, second, c) then
      var u := Decode(c, second);
      d[u.ueId := Activate(d[u.ueId], key, u, c[second + SIZE..])]
    else d
  }

  ghost function Replay(d: seq<Dlsch>, capacity: nat, key: nat, second: nat, cs: seq<seq<byte>>): (r: seq<Dlsch>)
    requires IsTable(d, capacity) && key < 20
    ensures |r| == |d| && IsTable(r, capacity)
  {
    if cs == [] then d
    else Accept(Replay(d, capacity, key, second, cs[..|cs| - 1]), capacity, key, second, cs[|cs| - 1])
  }

  // Transparency.

  /** What a block stands for. */
  datatype Message = Ue(u: DlUe, bits: seq<byte>) | Other

  ghost predicate Stands(d: seq<Dlsch>, capacity: nat, second: nat, c: seq<byte>, msg: Message) {
    match msg
    case Ue(u, bits) =>
      IsDlContent(c, second, u, bits) && u.ueId < |d| && u.harqPid < 8 && 0 < u.rnti && 16 * Groups(u.dataLen) <= capacity
    case Other => !IsDl(c, second)
  }

  ghost predicate Named(msgs: seq<Message>, ue: nat) {
    exists i :: 0 <= i < |msgs| && msgs[i].Ue? && msgs[i].u.ueId == ue
  }

  ghost predicate Distinct(msgs: seq<Message>) {
    forall i, j :: 0 <= i < j < |msgs| && msgs[i].Ue? && msgs[j].Ue? ==> msgs[i].u.ueId != msgs[j].u.ueId
  }

  /** The DU's entry says what the CU sent: every parameter, and a one exactly where the CU's bit
      array had a set byte. */
  ghost predicate Carries(x: Dlsch, key: nat, u: DlUe, bits: seq<byte>) {
    && x.active && x.rnti == u.rnti && x.rhoA == u.rhoA && x.rhoB == u.rhoB && x.i0 == u.i0 && x.sib1 == u.sib1
    && key < |x.harqIds| && x.harqIds[key] == u.harqPid && u.harqPid < |x.harqs|
    && (var h := x.harqs[u.harqPid];
        && h.nbRb == u.nbRb && h.rbAlloc == u.rbAlloc && h.qm == u.qm && h.nl == u.nl && h.pdschStart == u.pdschStart
        && u.dataLen <= |h.eDL| && u.dataLen <= |bits|
        && forall k :: 0 <= k < u.dataLen ==> h.eDL[k] == Bit(bits[k]))
  }

  /** What a UE's block is not about is as it was: the HARQ ids of other subframes, the other processes,
      and the bits behind the last group of sixteen. */
  ghost predicate KeepsRest(x: Dlsch, y: Dlsch, key: nat, u: DlUe) {
    && |y.harqIds| == |x.harqIds| && (forall k :: 0 <= k < |x.harqIds| && k != key ==> y.harqIds[k] == x.harqIds[k])
    && |y.harqs| == |x.harqs| && (forall p :: 0 <= p < |x.harqs| && p != u.harqPid ==> y.harqs[p] == x.harqs[p])
    && u.harqPid < |x.harqs| && |y.harqs[u.harqPid].eDL| == |x.harqs[u.harqPid].eDL|
    && forall k :: 16 * Groups(u.dataLen) <= k < |x.harqs[u.harqPid].eDL| ==>
         y.harqs[u.harqPid].eDL[k] == x.harqs[u.harqPid].eDL[k]
  }

  ghost predicate AllKeepRest(d: seq<Dlsch>, r: seq<Dlsch>, key: nat, msgs: seq<Message>) {
    |r| == |d| && forall i :: 0 <= i < |msgs| && msgs[i].Ue? ==>
      msgs[i].u.ueId < |d| && KeepsRest(d[msgs[i].u.ueId], r[msgs[i].u.ueId], key, msgs[i].u)
  }

  ghost predicate AllCarried(d: seq<Dlsch>, key: nat, msgs: seq<Message>) {
    forall i :: 0 <= i < |msgs| && msgs[i].Ue? ==>
      msgs[i].u.ueId < |d| && Carries(d[msgs[i].u.ueId], key, msgs[i].u, msgs[i].bits)
  }

  /** A block is decoded to what was encoded. */
  lemma DecodeOfContent(c: seq<byte>, second: nat, u: DlUe, bits: seq<byte>)
    requires IsDlContent(c, second, u, bits)
    ensures IsDl(c, second) && Decode(c, second) == u
  {
    var s := c[second..second + SIZE];
    var vs := Fetch(s, FIELDS);
    assert Get(s, 1, 0) == 0;
    assert vs[0] == Get(s, 0, 1) == s[0] as int;
  }

  lemma ActivateCarries(x: Dlsch, key: nat, u: DlUe, packed: seq<byte>, bits: seq<byte>)
    requires key < |x.harqIds| && u.harqPid < |x.harqs|
    requires 16 * Groups(u.dataLen) <= |bits| && packed == Packed(bits, u.dataLen)
    requires 16 * Groups(u.dataLen) <= |x.harqs[u.harqPid].eDL|
    ensures Carries(Activate(x, key, u, packed), key, u, bits) && KeepsRest(x, Activate(x, key, u, packed), key, u)
  {
    assert packed[..2 * Groups(u.dataLen)] == packed;
    UnpackedOfPacked(bits, u.dataLen);
  }

  lemma AcceptUe(d: seq<Dlsch>, capacity: nat, key: nat, second: nat, c: seq<byte>, u: DlUe, bits: seq<byte>)
    requires IsTable(d, capacity) && key < 20 && Stands(d, capacity, second, c, Ue(u, bits))
    ensures var r := Accept(d, capacity, key, second, c);
            && Carries(r[u.ueId], key, u, bits) && KeepsRest(d[u.ueId], r[u.ueId], key, u)
            && forall ue :: 0 <= ue < |d| && ue != u.ueId ==> r[ue] == d[ue]
  {
    DecodeOfContent(c, second, u, bits);
    ActivateCarries(d[u.ueId], key, u, c[second + SIZE..], bits);
  }

  /** One more block: the UEs named before keep what they carry, the last one gets its own. */
  lemma StepCarries(d: seq<Dlsch>, r: seq<Dlsch>, capacity: nat, key: nat, second: nat, c: seq<byte>,
          msgs: seq<Message>)
    requires IsTable(r, capacity) && key < 20 && |r| == |d| && msgs != [] && Distinct(msgs)
    requires Stands(d, capacity, second, c, msgs[|msgs| - 1])
    requires AllCarried(r, key, msgs[..|msgs| - 1])
    ensures AllCarried(Accept(r, capacity, key, second, c), key, msgs)
  {
    var n := |msgs| - 1;
    if msgs[n].Ue? {
      AcceptUe(r, capacity, key, second, c, msgs[n].u, msgs[n].bits);
    }
    forall i | 0 <= i < n && msgs[i].Ue?
      ensures msgs[i].u.ueId < |r|
      ensures Carries(Accept(r, capacity, key, second, c)[msgs[i].u.ueId], key, msgs[i].u, msgs[i].bits)
    {
      assert msgs[..n][i] == msgs[i];
    }
  }

  lemma StepKeepsRest(d: seq<Dlsch>, r: seq<Dlsch>, capacity: nat, key: nat, second: nat, c: seq<byte>,
          msgs: seq<Message>)
    requires IsTable(r, capacity) && key < 20 && |r| == |d| && msgs != [] && Distinct(msgs)
    requires Stands(d, capacity, second, c, msgs[|msgs| - 1]) && AllKeepRest(d, r, key, msgs[..|msgs| - 1])
    requires forall ue :: 0 <= ue < |d| && !Named(msgs[..|msgs| - 1], ue) ==> r[ue] == d[ue]
    ensures AllKeepRest(d, Accept(r, capacity, key, second, c), key, msgs)
  {
    var n := |msgs| - 1;
    if msgs[n].Ue? {
      AcceptUe(r, capacity, key, second, c, msgs[n].u, msgs[n].bits);
      assert !Named(msgs[..n], msgs[n].u.ueId);
    }
    forall i | 0 <= i < n && msgs[i].Ue?
      ensures msgs[i].u.ueId < |d|
      ensures KeepsRest(d[msgs[i].u.ueId], Accept(r, capacity, key, second, c)[msgs[i].u.ueId], key, msgs[i].u)
    {
      assert msgs[..n][i] == msgs[i];
    }
  }

  lemma StepKeeps(d: seq<Dlsch>, r: seq<Dlsch>, capacity: nat, key: nat, second: nat, c: seq<byte>, msg: Message,
          ue: nat)
    requires IsTable(r, capacity) && key < 20 && |r| == |d| && Stands(d, capacity, second, c, msg)
    requires ue < |d| && !(msg.Ue? && msg.u.ueId == ue)
    ensures Accept(r, capacity, key, second, c)[ue] == r[ue]
  {
    if msg.Ue? {
      AcceptUe(r, capacity, key, second, c, msg.u, msg.bits);
    }
  }

  /** After any prefix of the walk: the UEs named so far carry their blocks, the others are as the
      clearing left them. */
  lemma {:induction false} ReplayCarries(d: seq<Dlsch>, capacity: nat, key: nat, second: nat, cs: seq<seq<byte>>,
          msgs: seq<Message>)
    requires IsTable(d, capacity) && key < 20 && |cs| == |msgs| && Distinct(msgs)
    requires forall i :: 0 <= i < |cs| ==> Stands(d, capacity, second, cs[i], msgs[i])
    ensures var r := Replay(d, capacity, key, second, cs);
            && AllCarried(r, key, msgs) && AllKeepRest(d, r, key, msgs)
            && (forall ue :: 0 <= ue < |d| && !Named(msgs, ue) ==> r[ue] == d[ue])
  {
    if cs != [] {
      var n := |cs| - 1;
      var r := Replay(d, capacity, key, second, cs[..n]);
      ReplayCarries(d, capacity, key, second, cs[..n], msgs[..n]);
      assert Stands(d, capacity, second, cs[n], msgs[n]);
      StepCarries(d, r, capacity, key, second, cs[n], msgs);
      StepKeepsRest(d, r, capacity, key, second, cs[n], msgs);
      forall ue | 0 <= ue < |d| && !Named(msgs, ue)
        ensures Accept(r, capacity, key, second, cs[n])[ue] == d[ue]
      {
        assert !Named(msgs[..n], ue);
        StepKeeps(d, r, capacity, key, second, cs[n], msgs[n], ue);
      }
    }
  }

  lemma RestOfCleared(d: seq<Dlsch>, r: seq<Dlsch>, key: nat, msgs: seq<Message>)
    requires AllKeepRest(Clear(d), r, key, msgs)
    ensures AllKeepRest(d, r, key, msgs)
  {
    var e := Clear(d);
    forall i | 0 <= i < |msgs| && msgs[i].Ue?
      ensures msgs[i].u.ueId < |d| && KeepsRest(d[msgs[i].u.ueId], r[msgs[i].u.ueId], key, msgs[i].u)
    {
      var ue := msgs[i].u.ueId;
      assert KeepsRest(e[ue], r[ue], key, msgs[i].u);
      assert e[ue].harqIds == d[ue].harqIds && e[ue].harqs == d[ue].harqs;
    }
  }

  /** The split is transparent: whatever the DU's table was and in whatever order the blocks
      arrived, the UEs it transmits for are exactly those the CU named, each with the CU's
      parameters and the CU's coded bits and otherwise as it was; the others only lose their flag. */
  lemma DownlinkIsTransparent(d: seq<Dlsch>, capacity: nat, key: nat, second: nat, cs: seq<seq<byte>>,
          msgs: seq<Message>)
    requires IsTable(d, capacity) && key < 20 && |cs| == |msgs| && Distinct(msgs)
    requires forall i :: 0 <= i < |cs| ==> Stands(d, capacity, second, cs[i], msgs[i])
    ensures IsTable(Clear(d), capacity)
    ensures var r := Replay(Clear(d), capacity, key, second, cs);
            && (forall ue :: 0 <= ue < |d| ==> (Transmits(r[ue]) <==> Named(msgs, ue)))
            && AllCarried(r, key, msgs) && AllKeepRest(d, r, key, msgs)
            && (forall ue :: 0 <= ue < |d| && !Named(msgs, ue) ==> IsCleared(d[ue], r[ue]))
  {
    var e := Clear(d);
    forall i | 0 <= i < |cs|
      ensures Stands(e, capacity, second, cs[i], msgs[i])
    {
      assert Stands(d, capacity, second, cs[i], msgs[i]);
    }
    ReplayCarries(e, capacity, key, second, cs, msgs);
    var r := Replay(e, capacity, key, second, cs);
    RestOfCleared(d, r, key, msgs);
    forall ue | 0 <= ue < |d|
      ensures Transmits(r[ue]) <==> Named(msgs, ue)
    {
      if Named(msgs, ue) {
        var i :| 0 <= i < |msgs| && msgs[i].Ue? && msgs[i].u.ueId == ue;
        assert Stands(d, capacity, second, cs[i], msgs[i]);
      } else {
        assert r[ue] == e[ue];
      }
    }
  }
}
