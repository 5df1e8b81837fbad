/** Uplink of the CU/DU split: the DU appends one block a received code segment and one block a
    control indication, the CU walks them, puts every segment at its own offset and replays the
    indications. */
module Fs6Uplink {
  import opened Options
  import opened Bytes
  import opened Fs6Zone

  /** sizeof(fs6_ul_t): the RACH measurements that head every uplink block. */
  const SECOND: nat := 32

  /** enum pckType. */
  const UL_SCH: nat := 28
  const UL_CCH: nat := 29
  const INDICATION_HARQ: nat := 40
  const INDICATION_SR: nat := 41

  /** fs6_ul_uespec_t on a 64-bit target: type, UE_id, harq_id, segment, segLen, r_offset, G,
      ulsch_power[2], o_ACK[4], O_ACK, ta, o[8], cqi_crc_status. */
  const SEG_FIELDS: seq<Field> :=
    [Field(0, 1), Field(2, 2), Field(4, 1), Field(5, 1), Field(8, 4), Field(12, 4), Field(16, 4), Field(20, 4),
     Field(24, 4), Field(28, 4), Field(32, 1), Field(36, 4), Field(40, 8), Field(48, 1)]
  const SEG_SIZE: nat := 52

  /** One code segment. `data` are the bytes of the soft bits, `rOffset` counts 16-bit samples. */
  datatype Segment = Segment(
    ueId: nat, harqId: nat, segment: nat, rOffset: nat, g: nat, power: (nat, nat), oAck: nat, bigOAck: nat, ta: nat,
    o: nat, cqiCrc: nat, data: seq<byte>)

  function SegValues(s: Segment): (vs: seq<nat>)
    ensures |vs| == |SEG_FIELDS|
  {
    [UL_SCH, s.ueId, s.harqId, s.segment, |s.data|, s.rOffset, s.g, s.power.0, s.power.1, s.oAck, s.bigOAck, s.ta,
     s.o, s.cqiCrc]
  }

  lemma SegFieldsAreLayout()
    ensures IsLayout(SEG_FIELDS, SEG_SIZE)
  {
  }

  /** LTE_eNB_UCI: the bytes before, at and behind ue_id. */
  datatype Uci = Uci(head: nat, ueId: nat, rest: nat)

  /** fs6_ul_uespec_uci_t, then one fs6_ul_uespec_uci_element_t: type, nb_active_ue; then, four
      bytes on, type, UEid, frame, subframe, uci (three parts), harq_ack[4], tdd_mapping_mode,
      tdd_multiplexing_mask, n0_subband_power_dB, rnti, stat. */
  const UCI_FIELDS: seq<Field> :=
    [Field(0, 1), Field(2, 2), Field(4, 1), Field(8, 4), Field(12, 4), Field(16, 4), Field(20, 8), Field(28, 2),
     Field(30, UCI_REST), Field(96, 4), Field(100, 1), Field(102, 2), Field(104, 2), Field(106, 2), Field(108, 4)]
  const UCI_SIZE: nat := 112
  const UCI_REST: nat := 66

  /** One HARQ or SR indication, as the DU hands it over; `uci` and `harqAck` may be absent. */
  datatype Indication = Indication(
    kind: nat, ueId: nat, frame: nat, subframe: nat, uci: Option<Uci>, harqAck: Option<nat>, mapping: nat, mask: nat,
    n0: nat, rnti: nat, stat: nat)

  lemma UciFieldsAreLayout()
    ensures IsLayout(UCI_FIELDS, UCI_SIZE)
  {
  }

  /** The values of a control block. Without a UCI only its ue_id is set, to 0xFFFF; the parts
      that are not set keep the memory they lie on (`left`). */
  function UciValues(x: Indication, left: (nat, nat, nat)): (vs: seq<nat>)
    ensures |vs| == |UCI_FIELDS|
  {
    [UL_CCH, 1, x.kind, x.ueId, x.frame, x.subframe,
     if x.uci.Some? then x.uci.value.head else left.0,
     if x.uci.Some? then x.uci.value.ueId else 0xFFFF,
     if x.uci.Some? then x.uci.value.rest else left.1,
     if x.harqAck.Some? then x.harqAck.value else left.2,
     x.mapping, x.mask, x.n0, x.rnti, x.stat]
  }

  ghost predicate IsSegContent(c: seq<byte>, s: Segment) {
    IsLayout(SEG_FIELDS, SEG_SIZE) && IsStruct(c, SECOND, SEG_SIZE, SEG_FIELDS, SegValues(s), s.data)
  }

  ghost predicate IsUci(c: seq<byte>, vs: seq<nat>) {
    IsLayout(UCI_FIELDS, UCI_SIZE) && IsStruct(c, SECOND, UCI_SIZE, UCI_FIELDS, vs, [])
  }

  ghost predicate IsUciContent(c: seq<byte>, x: Indication) {
    exists left :: IsUci(c, UciValues(x, left))
  }

  /** sendFs6Ul: a block for one code segment. */
  method SendFs6Ul(zone: BufferZone, s: Segment)
    requires zone.Valid() && zone.Leads(SECOND) && |zone.blocks| < 65535 && Fits(SEG_FIELDS, SegValues(s))
    requires SECOND + SEG_SIZE + |s.data| < 65536
    requires SizeOf(zone.blocks) + Aligned(SECOND + SEG_SIZE + |s.data|) <= zone.buf.Length
    modifies zone.buf, zone`blocks
    ensures zone.Valid() && |zone.blocks| == |old(zone.blocks)| + 1 && old(zone.blocks) <= zone.blocks
    ensures IsSegContent(zone.blocks[|old(zone.blocks)|], s)
    ensures zone.Leads(SECOND) && zone.Front(SECOND) == old(zone.Front(SECOND))
  {
    SegFieldsAreLayout();
    AppendStruct(zone, SECOND, SEG_SIZE, SEG_FIELDS, SegValues(s), s.data);
  }

  lemma LeftoversFitIn(fs: seq<Field>, x: Indication, left: (nat, nat, nat))
    requires |fs| == 15 && Fits(fs, UciValues(x, (0, 0, 0)))
    requires left.0 < Pow256(fs[6].width) && left.1 < Pow256(fs[8].width) && left.2 < Pow256(fs[9].width)
    ensures Fits(fs, UciValues(x, left))
  {
    var vs := UciValues(x, left);
    forall i | 0 <= i < 15
      ensures vs[i] < Pow256(fs[i].width)
    {
      assert UciValues(x, (0, 0, 0))[i] < Pow256(fs[i].width);
    }
  }

  lemma LeftoversFit(x: Indication, left: (nat, nat, nat))
    requires Fits(UCI_FIELDS, UciValues(x, (0, 0, 0)))
    requires left.0 < Pow256(8) && left.1 < Pow256(UCI_REST) && left.2 < Pow256(4)
    ensures Fits(UCI_FIELDS, UciValues(x, left))
  {
    LeftoversFitIn(UCI_FIELDS, x, left);
  }

  /** What the memory holds where a UCI and the acknowledgements will lie. */
  method Leftovers(buf: array<byte>, base: nat) returns (left: (nat, nat, nat))
    requires base + UCI_SIZE <= buf.Length
    ensures left.0 < Pow256(8) && left.1 < Pow256(UCI_REST) && left.2 < Pow256(4)
  {
    var head := GetInt(buf, base + 20, 8);
    var rest := GetInt(buf, base + 30, UCI_REST);
    var ack := GetInt(buf, base + 96, 4);
    left := (head, rest, ack);
  }

  /** sendFs6Ulharq: current_fsf is never assigned, so every call opens a block of its own, with
      one element in it. */
  method SendFs6Ulharq(zone: BufferZone, x: Indication)
    requires zone.Valid() && zone.Leads(SECOND) && |zone.blocks| < 65535
    requires Fits(UCI_FIELDS, UciValues(x, (0, 0, 0)))
    requires SizeOf(zone.blocks) + Aligned(SECOND + UCI_SIZE) <= zone.buf.Length
    modifies zone.buf, zone`blocks
    ensures zone.Valid() && |zone.blocks| == |old(zone.blocks)| + 1 && old(zone.blocks) <= zone.blocks
    ensures IsUciContent(zone.blocks[|old(zone.blocks)|], x)
    ensures zone.Leads(SECOND) && zone.Front(SECOND) == old(zone.Front(SECOND))
  {
    UciFieldsAreLayout();
    var firstFreeByte, _ := zone.MoveToEnd();
    var left := Leftovers(zone.buf, firstFreeByte + HEADER + SECOND);
    LeftoversFit(x, left);
    AppendStruct(zone, SECOND, UCI_SIZE, UCI_FIELDS, UciValues(x, left), []);
    assert IsUci(zone.blocks[|old(zone.blocks)|], UciValues(x, left));
  }

  // The CU side.

  /** LTE_UL_eNB_HARQ_t, the fields a segment block carries; eUL byte by byte. */
  datatype UlHarq = UlHarq(eUL: seq<byte>, g: nat, cqiCrc: nat, oAck: nat, o: nat)

  /** The calls of fill_uci_harq_indication and fill_sr_indication. */
  datatype Event =
    | HarqIndication(ueId: nat, uci: Uci, frame: nat, subframe: nat, harqAck: nat, mapping: nat, mask: nat)
    | SrIndication(ueId: nat, rnti: nat, frame: nat, subframe: nat, stat: nat)

  datatype CuState = CuState(
    ulsch: seq<seq<UlHarq>>, power: seq<(nat, nat)>, ta: seq<nat>, uci: seq<Uci>, n0: nat, events: seq<Event>)

  /** The sizes of the CU's tables. */
  datatype Shape = Shape(ues: nat, ucis: nat, capacity: nat)

  /** Eight HARQ processes a UE, soft bit arrays of one capacity. */
  ghost predicate IsCu(st: CuState, sh: Shape) {
    && |st.power| == |st.ta| == |st.ulsch| == sh.ues && |st.uci| == sh.ucis
    && forall ue :: 0 <= ue < sh.ues ==>
         |st.ulsch[ue]| == 8 && forall h :: 0 <= h < 8 ==> |st.ulsch[ue][h].eUL| == sh.capacity
  }

  function Overwrite(e: seq<byte>, at: nat, data: seq<byte>): (r: seq<byte>)
    requires at + |data| <= |e|
    ensures |r| == |e|
  {
    e[..at] + data + e[at + |data|..]
  }

  /** The CU's tables have room for a segment. */
  predicate HasRoom(sh: Shape, s: Segment) {
    s.ueId < sh.ues && s.harqId < 8 && 2 * s.rOffset + |s.data| <= sh.capacity
  }

  /** A segment taken in. O_ACK is sent and not read. */
  ghost function PutSegment(st: CuState, sh: Shape, s: Segment): (r: CuState)
    requires IsCu(st, sh) && HasRoom(sh, s)
    ensures IsCu(r, sh)
  {
    var h := st.ulsch[s.ueId][s.harqId];
    var h' := UlHarq(Overwrite(h.eUL, 2 * s.rOffset, s.data), s.g, s.cqiCrc, s.oAck, s.o);
    st.(ulsch := st.ulsch[s.ueId := st.ulsch[s.ueId][s.harqId := h']],
        power := st.power[s.ueId := s.power], ta := st.ta[s.ueId := s.ta])
  }

  /** What the CU reads in a segment block. */
  function SegOf(c: seq<byte>): Segment
    requires SECOND + SEG_SIZE <= |c|
  {
    SegFieldsAreLayout();
    var vs := Fetch(c[SECOND..SECOND + SEG_SIZE], SEG_FIELDS);
    var end := SECOND + SEG_SIZE + vs[4];
    Segment(vs[1], vs[2], vs[3], vs[5], vs[6], (vs[7], vs[8]), vs[9], vs[10], vs[11], vs[12], vs[13],
            if end <= |c| then c[SECOND + SEG_SIZE..end] else [])
  }

  /** The bytes of a segment lie in its block. */
  predicate HasData(c: seq<byte>)
    requires SECOND + SEG_SIZE <= |c|
  {
    SECOND + SEG_SIZE + Get(c, SECOND + 8, 4) <= |c|
  }

  /** fs6_ul_uespec_uci_element_t, as it is in a block. */
  datatype Element = Element(
    kind: nat, ueId: nat, frame: nat, subframe: nat, uci: Uci, harqAck: nat, mapping: nat, mask: nat, n0: nat, rnti: nat,
    stat: nat)

  const ELEMENT_SIZE: nat := 108

  /** Element j behind the block's type and count. */
  function ElementAt(c: seq<byte>, j: nat): Element
    requires SECOND + 4 + ELEMENT_SIZE * (j + 1) <= |c|
  {
    var at := SECOND + 4 + ELEMENT_SIZE * j;
    Element(Get(c, at, 1), Get(c, at + 4, 4), Get(c, at + 8, 4), Get(c, at + 12, 4),
            Uci(Get(c, at + 16, 8), Get(c, at + 24, 2), Get(c, at + 26, UCI_REST)), Get(c, at + 92, 4), Get(c, at + 96, 1),
            Get(c, at + 98, 2), Get(c, at + 100, 2), Get(c, at + 102, 2), Get(c, at + 104, 4))
  }

  function Count(c: seq<byte>): nat
    requires SECOND + 4 <= |c|
  {
    Get(c, SECOND + 2, 2)
  }

  /** One control element taken in. */
  ghost function PutElement(st: CuState, sh: Shape, e: Element): (r: CuState)
    requires IsCu(st, sh) && e.ueId < sh.ucis
    ensures IsCu(r, sh) && r.ulsch == st.ulsch && r.power == st.power && r.ta == st.ta
  {
    var uci := if e.uci.ueId != 0xFFFF then st.uci[e.ueId := e.uci] else st.uci;
    var calls :=
      if e.kind == INDICATION_HARQ then
        [HarqIndication(e.ueId, uci[e.ueId], e.frame, e.subframe, e.harqAck, e.mapping, e.mask)]
      else if e.kind == INDICATION_SR then [SrIndication(e.ueId, e.rnti, e.frame, e.subframe, e.stat)]
      else [];
    st.(n0 := e.n0, uci := uci, events := st.events + calls)
  }

  /** The elements of a control block lie in it and name known entries. */
  ghost predicate HasElements(c: seq<byte>, sh: Shape, n: nat) {
    && SECOND + 4 + ELEMENT_SIZE * n <= |c|
    && forall j :: 0 <= j < n ==> ElementAt(c, j).ueId < sh.ucis
  }

  ghost function PutElements(st: CuState, sh: Shape, c: seq<byte>, n: nat): (r: CuState)
    requires IsCu(st, sh) && HasElements(c, sh, n)
    ensures IsCu(r, sh) && r.ulsch == st.ulsch && r.power == st.power && r.ta == st.ta
  {
    if n == 0 then st else PutElement(PutElements(st, sh, c, n - 1), sh, ElementAt(c, n - 1))
  }

  /** A block that is long enough for what it announces and names known entries. */
  ghost predicate Takes(c: seq<byte>, sh: Shape) {
    && (SECOND < |c| && c[SECOND] == UL_SCH ==> SECOND + SEG_SIZE <= |c| && HasData(c) && HasRoom(sh, SegOf(c)))
    && (SECOND < |c| && c[SECOND] == UL_CCH ==> SECOND + 4 <= |c| && HasElements(c, sh, Count(c)))
  }

  /** One pass of the loop of recvFs6Ul, on the block content. */
  ghost function Accept(st: CuState, sh: Shape, c: seq<byte>): (r: CuState)
    requires IsCu(st, sh) && Takes(c, sh)
    ensures IsCu(r, sh)
  {
    if |c| <= SECOND then st
    else if c[SECOND] == UL_SCH then PutSegment(st, sh, SegOf(c))
    else if c[SECOND] == UL_CCH then PutElements(st, sh, c, Count(c))
    else st
  }

  ghost predicate AllTaken(cs: seq<seq<byte>>, sh: Shape) {
    forall i :: 0 <= i < |cs| ==> Takes(cs[i], sh)
  }

  ghost function Replay(st: CuState, sh: Shape, cs: seq<seq<byte>>): (r: CuState)
    requires IsCu(st, sh) && AllTaken(cs, sh)
    ensures IsCu(r, sh)
  {
    if cs == [] then st else Accept(Replay(st, sh, cs[..|cs| - 1]), sh, cs[|cs| - 1])
  }

  // What the DU sent arrives.

  /** What a block stands for. */
  datatype Message = Seg(s: Segment) | Ind(x: Indication) | Other

  /** The two calls that are forwarded: HARQ with a UCI entry and its acknowledgements, SR
      without. */
  ghost predicate IsCall(x: Indication) {
    || (x.kind == INDICATION_HARQ && x.uci.Some? && x.uci.value.ueId != 0xFFFF && x.harqAck.Some?)
    || (x.kind == INDICATION_SR && x.uci.None? && x.harqAck.None?)
  }

  /** The call that the DU was asked to make. */
  ghost function CallOf(x: Indication): Event
    requires IsCall(x)
  {
    if x.kind == INDICATION_HARQ then
      HarqIndication(x.ueId, x.uci.value, x.frame, x.subframe, x.harqAck.value, x.mapping, x.mask)
    else SrIndication(x.ueId, x.rnti, x.frame, x.subframe, x.stat)
  }

  ghost predicate Stands(c: seq<byte>, sh: Shape, msg: Message) {
    match msg
    case Seg(s) => IsSegContent(c, s) && HasRoom(sh, s)
    case Ind(x) => IsUciContent(c, x) && x.ueId < sh.ucis && IsCall(x)
    case Other => |c| <= SECOND || (c[SECOND] != UL_SCH && c[SECOND] != UL_CCH)
  }

  ghost predicate AllStand(cs: seq<seq<byte>>, sh: Shape, msgs: seq<Message>) {
    |cs| == |msgs| && forall i :: 0 <= i < |cs| ==> Stands(cs[i], sh, msgs[i])
  }

  /** The forwarded calls, in the order of the blocks. */
  ghost function Calls(msgs: seq<Message>): seq<Event>
    requires forall i :: 0 <= i < |msgs| && msgs[i].Ind? ==> IsCall(msgs[i].x)
  {
    if msgs == [] then []
    else
      var n := |msgs| - 1;
      Calls(msgs[..n]) + if msgs[n].Ind? then [CallOf(msgs[n].x)] else []
  }

  lemma SegmentArrives(c: seq<byte>, sh: Shape, s: Segment)
    requires IsSegContent(c, s) && HasRoom(sh, s)
    ensures SECOND < |c| && c[SECOND] == UL_SCH && Takes(c, sh) && SegOf(c) == s
  {
    StructType(c, SECOND, SEG_SIZE, SEG_FIELDS, SegValues(s), s.data);
    FieldOf(c, SECOND, SEG_SIZE, SEG_FIELDS, SegValues(s), s.data, 4);
    assert c[SECOND + SEG_SIZE..SECOND + SEG_SIZE + |s.data|] == s.data;
  }

  /** The element that stands for an indication. */
  ghost function ElementOf(x: Indication, left: (nat, nat, nat)): Element {
    var vs := UciValues(x, left);
    Element(x.kind, x.ueId, x.frame, x.subframe, Uci(vs[6], vs[7], vs[8]), vs[9], x.mapping, x.mask, x.n0, x.rnti, x.stat)
  }

  lemma UciField(c: seq<byte>, vs: seq<nat>, i: nat, at: nat, width: nat)
    requires IsUci(c, vs) && i < |UCI_FIELDS| && UCI_FIELDS[i] == Field(at, width)
    ensures |vs| == |UCI_FIELDS| && SECOND + at + width <= |c| && Get(c, SECOND + at, width) == vs[i]
  {
    FieldOf(c, SECOND, UCI_SIZE, UCI_FIELDS, vs, [], i);
  }

  /** The block starts with its type and a count of one. */
  lemma HeadArrives(c: seq<byte>, x: Indication, left: (nat, nat, nat))
    requires IsUci(c, UciValues(x, left))
    ensures SECOND < |c| && c[SECOND] == UL_CCH && Count(c) == 1
  {
    StructType(c, SECOND, UCI_SIZE, UCI_FIELDS, UciValues(x, left), []);
    UciField(c, UciValues(x, left), 1, 2, 2);
  }

  lemma WhoAndWhen(c: seq<byte>, vs: seq<nat>)
    requires IsUci(c, vs)
    ensures |vs| == |UCI_FIELDS| && |c| == SECOND + UCI_SIZE
    ensures var e := ElementAt(c, 0); e.kind == vs[2] && e.ueId == vs[3] && e.frame == vs[4] && e.subframe == vs[5]
  {
    UciField(c, vs, 2, 4, 1);
    UciField(c, vs, 3, 8, 4);
    UciField(c, vs, 4, 12, 4);
    UciField(c, vs, 5, 16, 4);
  }

  lemma UciAndAck(c: seq<byte>, vs: seq<nat>)
    requires IsUci(c, vs)
    ensures |vs| == |UCI_FIELDS| && |c| == SECOND + UCI_SIZE
    ensures var e := ElementAt(c, 0); e.uci == Uci(vs[6], vs[7], vs[8]) && e.harqAck == vs[9]
  {
    UciField(c, vs, 6, 20, 8);
    UciField(c, vs, 7, 28, 2);
    UciField(c, vs, 8, 30, UCI_REST);
    UciField(c, vs, 9, 96, 4);
  }

  lemma Remainder(c: seq<byte>, vs: seq<nat>)
    requires IsUci(c, vs)
    ensures |vs| == |UCI_FIELDS| && |c| == SECOND + UCI_SIZE
    ensures var e := ElementAt(c, 0);
            e.mapping == vs[10] && e.mask == vs[11] && e.n0 == vs[12] && e.rnti == vs[13] && e.stat == vs[14]
  {
    UciField(c, vs, 10, 100, 1);
    UciField(c, vs, 11, 102, 2);
    UciField(c, vs, 12, 104, 2);
    UciField(c, vs, 13, 106, 2);
    UciField(c, vs, 14, 108, 4);
  }

  lemma ElementArrives(c: seq<byte>, x: Indication, left: (nat, nat, nat))
    requires IsUci(c, UciValues(x, left))
    ensures |c| == SECOND + UCI_SIZE && ElementAt(c, 0) == ElementOf(x, left)
  {
    WhoAndWhen(c, UciValues(x, left));
    UciAndAck(c, UciValues(x, left));
    Remainder(c, UciValues(x, left));
  }

  /** An indication taken in: the call, the noise level, and for HARQ the UCI in the CU's table. */
  ghost function Indicate(st: CuState, sh: Shape, x: Indication): (r: CuState)
    requires IsCu(st, sh) && x.ueId < sh.ucis && IsCall(x)
    ensures IsCu(r, sh)
  {
    st.(events := st.events + [CallOf(x)], n0 := x.n0,
        uci := if x.kind == INDICATION_HARQ then st.uci[x.ueId := x.uci.value] else st.uci)
  }

  lemma ElementCalls(st: CuState, sh: Shape, x: Indication, left: (nat, nat, nat))
    requires IsCu(st, sh) && x.ueId < sh.ucis && IsCall(x)
    ensures PutElement(st, sh, ElementOf(x, left)) == Indicate(st, sh, x)
  {
  }

  lemma OneElement(st: CuState, sh: Shape, c: seq<byte>, e: Element)
    requires IsCu(st, sh) && e.ueId < sh.ucis
    requires SECOND + 4 + ELEMENT_SIZE <= |c| && c[SECOND] == UL_CCH && Count(c) == 1 && ElementAt(c, 0) == e
    ensures Takes(c, sh) && Accept(st, sh, c) == PutElement(st, sh, e)
  {
    assert HasElements(c, sh, 1);
    assert PutElements(st, sh, c, 0) == st;
  }

  /** A control block makes the forwarded call, once; a HARQ call's UCI is then in the CU's table, and
      nothing else changes but the noise level. */
  lemma IndicationArrives(st: CuState, sh: Shape, c: seq<byte>, x: Indication)
    requires IsCu(st, sh) && IsUciContent(c, x) && x.ueId < sh.ucis && IsCall(x)
    ensures Takes(c, sh)
    ensures var r := Accept(st, sh, c);
            && r.events == st.events + [CallOf(x)] && r.n0 == x.n0
            && (x.kind == INDICATION_HARQ ==> r.uci == st.uci[x.ueId := x.uci.value])
            && (x.kind == INDICATION_SR ==> r.uci == st.uci)
            && r.ulsch == st.ulsch && r.power == st.power && r.ta == st.ta && r == Indicate(st, sh, x)
  {
    var left :| IsUci(c, UciValues(x, left));
    HeadArrives(c, x, left);
    ElementArrives(c, x, left);
    OneElement(st, sh, c, ElementOf(x, left));
    ElementCalls(st, sh, x, left);
  }

  /** Byte k of the soft bits of HARQ process h of a UE belongs to the message. */
  ghost predicate Covers(msg: Message, ue: nat, h: nat, k: nat) {
    msg.Seg? && msg.s.ueId == ue && msg.s.harqId == h && 2 * msg.s.rOffset <= k < 2 * msg.s.rOffset + |msg.s.data|
  }

  lemma StandsIsTaken(st: CuState, sh: Shape, c: seq<byte>, msg: Message)
    requires IsCu(st, sh) && Stands(c, sh, msg)
    ensures Takes(c, sh) && FitsIn(sh, msg) && Accept(st, sh, c) == Deliver(st, sh, msg)
  {
    match msg
    case Seg(s) => SegmentArrives(c, sh, s);
    case Ind(x) => IndicationArrives(st, sh, c, x);
    case Other =>
  }

  lemma AllStandTaken(st: CuState, sh: Shape, cs: seq<seq<byte>>, msgs: seq<Message>)
    requires IsCu(st, sh) && AllStand(cs, sh, msgs)
    ensures AllTaken(cs, sh) && Fit(sh, msgs)
  {
    forall i | 0 <= i < |cs|
      ensures Takes(cs[i], sh) && FitsIn(sh, msgs[i])
    {
      StandsIsTaken(st, sh, cs[i], msgs[i]);
    }
  }

  // The same without the bytes.

  ghost predicate FitsIn(sh: Shape, msg: Message) {
    (msg.Seg? ==> HasRoom(sh, msg.s)) && (msg.Ind? ==> msg.x.ueId < sh.ucis && IsCall(msg.x))
  }

  ghost predicate Fit(sh: Shape, msgs: seq<Message>) {
    forall i :: 0 <= i < |msgs| ==> FitsIn(sh, msgs[i])
  }

  /** What a message does. */
  ghost function Deliver(st: CuState, sh: Shape, msg: Message): (r: CuState)
    requires IsCu(st, sh) && FitsIn(sh, msg)
    ensures IsCu(r, sh)
  {
    match msg
    case Seg(s) => PutSegment(st, sh, s)
    case Ind(x) => Indicate(st, sh, x)
    case Other => st
  }

  ghost function DeliverAll(st: CuState, sh: Shape, msgs: seq<Message>): (r: CuState)
    requires IsCu(st, sh) && Fit(sh, msgs)
    ensures IsCu(r, sh)
  {
    if msgs == [] then st else Deliver(DeliverAll(st, sh, msgs[..|msgs| - 1]), sh, msgs[|msgs| - 1])
  }

  /** The walk over the bytes delivers the messages. */
  lemma {:induction false} ReplayIsDelivery(st: CuState, sh: Shape, cs: seq<seq<byte>>, msgs: seq<Message>)
    requires IsCu(st, sh) && AllStand(cs, sh, msgs) && AllTaken(cs, sh) && Fit(sh, msgs)
    ensures Replay(st, sh, cs) == DeliverAll(st, sh, msgs)
    decreases |cs|
  {
    if cs != [] {
      var n := |cs| - 1;
      ReplayIsDelivery(st, sh, cs[..n], msgs[..n]);
      StandsIsTaken(Replay(st, sh, cs[..n]), sh, cs[n], msgs[n]);
    }
  }

  lemma DeliverByte(st: CuState, sh: Shape, msg: Message, ue: nat, h: nat, k: nat)
    requires IsCu(st, sh) && FitsIn(sh, msg) && ue < sh.ues && h < 8 && k < sh.capacity
    ensures Deliver(st, sh, msg).ulsch[ue][h].eUL[k] ==
              if Covers(msg, ue, h, k) then msg.s.data[k - 2 * msg.s.rOffset] else st.ulsch[ue][h].eUL[k]
  {
  }

  /** Whatever the segments are, the last one to cover a byte decides it. */
  lemma {:induction false} LastWriterWins(st: CuState, sh: Shape, msgs: seq<Message>, ue: nat, h: nat, k: nat, i: nat)
    requires IsCu(st, sh) && Fit(sh, msgs) && ue < sh.ues && h < 8 && k < sh.capacity
    requires i < |msgs| && Covers(msgs[i], ue, h, k)
    requires forall j :: i < j < |msgs| ==> !Covers(msgs[j], ue, h, k)
    ensures DeliverAll(st, sh, msgs).ulsch[ue][h].eUL[k] == msgs[i].s.data[k - 2 * msgs[i].s.rOffset]
    decreases |msgs|
  {
    var n := |msgs| - 1;
    DeliverByte(DeliverAll(st, sh, msgs[..n]), sh, msgs[n], ue, h, k);
    if i < n {
      LastWriterWins(st, sh, msgs[..n], ue, h, k, i);
    }
  }

  /** A byte that no segment covers keeps its value. */
  lemma {:induction false} UncoveredIsKept(st: CuState, sh: Shape, msgs: seq<Message>, ue: nat, h: nat, k: nat)
    requires IsCu(st, sh) && Fit(sh, msgs) && ue < sh.ues && h < 8 && k < sh.capacity
    requires forall j :: 0 <= j < |msgs| ==> !Covers(msgs[j], ue, h, k)
    ensures DeliverAll(st, sh, msgs).ulsch[ue][h].eUL[k] == st.ulsch[ue][h].eUL[k]
    decreases |msgs|
  {
    if msgs != [] {
      var n := |msgs| - 1;
      DeliverByte(DeliverAll(st, sh, msgs[..n]), sh, msgs[n], ue, h, k);
      UncoveredIsKept(st, sh, msgs[..n], ue, h, k);
    }
  }

  /** Two segments of different processes, or of different stretches of one. */
  predicate Apart(s: Segment, t: Segment) {
    || s.ueId != t.ueId || s.harqId != t.harqId
    || 2 * s.rOffset + |s.data| <= 2 * t.rOffset || 2 * t.rOffset + |t.data| <= 2 * s.rOffset
  }

  predicate Disjoint(msgs: seq<Message>) {
    forall i, j :: 0 <= i < j < |msgs| && msgs[i].Seg? && msgs[j].Seg? ==> Apart(msgs[i].s, msgs[j].s)
  }

  /** The segments of a HARQ process, and of a UE, are sent with the same parameters. */
  predicate Agree(s: Segment, t: Segment) {
    && (s.ueId == t.ueId && s.harqId == t.harqId ==>
          s.g == t.g && s.cqiCrc == t.cqiCrc && s.oAck == t.oAck && s.o == t.o)
    && (s.ueId == t.ueId ==> s.power == t.power && s.ta == t.ta)
  }

  predicate Consistent(msgs: seq<Message>) {
    forall i, j :: 0 <= i < j < |msgs| && msgs[i].Seg? && msgs[j].Seg? ==> Agree(msgs[i].s, msgs[j].s)
  }

  ghost predicate HasParameters(st: CuState, sh: Shape, s: Segment)
    requires IsCu(st, sh) && HasRoom(sh, s)
  {
    && (var h := st.ulsch[s.ueId][s.harqId]; h.g == s.g && h.cqiCrc == s.cqiCrc && h.oAck == s.oAck && h.o == s.o)
    && st.power[s.ueId] == s.power && st.ta[s.ueId] == s.ta
  }

  lemma {:induction false} ParametersArrive(st: CuState, sh: Shape, msgs: seq<Message>, i: nat)
    requires IsCu(st, sh) && Fit(sh, msgs) && Consistent(msgs)
    requires i < |msgs| && msgs[i].Seg? && HasRoom(sh, msgs[i].s)
    ensures HasParameters(DeliverAll(st, sh, msgs), sh, msgs[i].s)
    decreases |msgs|
  {
    var n := |msgs| - 1;
    if i < n {
      ParametersArrive(st, sh, msgs[..n], i);
    }
  }

  lemma {:induction false} CallsArrive(st: CuState, sh: Shape, msgs: seq<Message>)
    requires IsCu(st, sh) && Fit(sh, msgs)
    ensures forall i :: 0 <= i < |msgs| && msgs[i].Ind? ==> IsCall(msgs[i].x)
    ensures DeliverAll(st, sh, msgs).events == st.events + Calls(msgs)
    decreases |msgs|
  {
    assert forall i :: 0 <= i < |msgs| && msgs[i].Ind? ==> FitsIn(sh, msgs[i]);
    if msgs != [] {
      CallsArrive(st, sh, msgs[..|msgs| - 1]);
    }
  }

  // What stays, and the control entries.

  /** The message is a segment for this process. */
  predicate IsFor(msg: Message, ue: nat, h: nat) { msg.Seg? && msg.s.ueId == ue && msg.s.harqId == h }

  predicate IsForUe(msg: Message, ue: nat) { msg.Seg? && msg.s.ueId == ue }

  /** The message is a HARQ indication for this entry. */
  predicate IsHarqFor(msg: Message, u: nat) { msg.Ind? && msg.x.kind == INDICATION_HARQ && msg.x.ueId == u }

  /** A process without a segment keeps its soft bits and parameters. */
  lemma {:induction false} OtherProcessIsKept(st: CuState, sh: Shape, msgs: seq<Message>, ue: nat, h: nat)
    requires IsCu(st, sh) && Fit(sh, msgs) && ue < sh.ues && h < 8
    requires forall j :: 0 <= j < |msgs| ==> !IsFor(msgs[j], ue, h)
    ensures DeliverAll(st, sh, msgs).ulsch[ue][h] == st.ulsch[ue][h]
    decreases |msgs|
  {
    if msgs != [] {
      OtherProcessIsKept(st, sh, msgs[..|msgs| - 1], ue, h);
    }
  }

  /** A UE without a segment keeps its power and timing advance. */
  lemma {:induction false} OtherUeIsKept(st: CuState, sh: Shape, msgs: seq<Message>, ue: nat)
    requires IsCu(st, sh) && Fit(sh, msgs) && ue < sh.ues && forall j :: 0 <= j < |msgs| ==> !IsForUe(msgs[j], ue)
    ensures DeliverAll(st, sh, msgs).power[ue] == st.power[ue] && DeliverAll(st, sh, msgs).ta[ue] == st.ta[ue]
    decreases |msgs|
  {
    if msgs != [] {
      OtherUeIsKept(st, sh, msgs[..|msgs| - 1], ue);
    }
  }

  predicate IsLastHarq(msgs: seq<Message>, u: nat, i: nat)
    requires i < |msgs|
  {
    IsHarqFor(msgs[i], u) && forall j :: i < j < |msgs| ==> !IsHarqFor(msgs[j], u)
  }

  /** The last HARQ indication for an entry decides it. */
  lemma {:induction false} LastUciWins(st: CuState, sh: Shape, msgs: seq<Message>, u: nat, i: nat)
    requires IsCu(st, sh) && Fit(sh, msgs) && u < sh.ucis && i < |msgs| && IsLastHarq(msgs, u, i)
    ensures msgs[i].x.uci.Some? && DeliverAll(st, sh, msgs).uci[u] == msgs[i].x.uci.value
    decreases |msgs|
  {
    assert FitsIn(sh, msgs[i]);
    if i < |msgs| - 1 {
      LastUciWins(st, sh, msgs[..|msgs| - 1], u, i);
    }
  }

  /** An entry without one is kept. */
  lemma {:induction false} OtherUciIsKept(st: CuState, sh: Shape, msgs: seq<Message>, u: nat)
    requires IsCu(st, sh) && Fit(sh, msgs) && u < sh.ucis && forall j :: 0 <= j < |msgs| ==> !IsHarqFor(msgs[j], u)
    ensures DeliverAll(st, sh, msgs).uci[u] == st.uci[u]
    decreases |msgs|
  {
    if msgs != [] {
      assert FitsIn(sh, msgs[|msgs| - 1]);
      OtherUciIsKept(st, sh, msgs[..|msgs| - 1], u);
    }
  }

  /** The noise level is that of the last indication. */
  lemma {:induction false} LastNoiseWins(st: CuState, sh: Shape, msgs: seq<Message>)
    requires IsCu(st, sh) && Fit(sh, msgs)
    ensures forall i :: 0 <= i < |msgs| && msgs[i].Ind? && (forall j :: i < j < |msgs| ==> !msgs[j].Ind?) ==>
              DeliverAll(st, sh, msgs).n0 == msgs[i].x.n0
    ensures (forall j :: 0 <= j < |msgs| ==> !msgs[j].Ind?) ==> DeliverAll(st, sh, msgs).n0 == st.n0
    decreases |msgs|
  {
    if msgs != [] {
      LastNoiseWins(st, sh, msgs[..|msgs| - 1]);
    }
  }

  /** The state after the messages, entry by entry: whatever no message is about is as it was. */
  ghost predicate IsKept(st: CuState, r: CuState, sh: Shape, msgs: seq<Message>)
    requires IsCu(st, sh) && IsCu(r, sh)
  {
    && (forall ue, h :: 0 <= ue < sh.ues && 0 <= h < 8 && (forall j :: 0 <= j < |msgs| ==> !IsFor(msgs[j], ue, h)) ==>
          r.ulsch[ue][h] == st.ulsch[ue][h])
    && (forall ue :: 0 <= ue < sh.ues && (forall j :: 0 <= j < |msgs| ==> !IsForUe(msgs[j], ue)) ==>
          r.power[ue] == st.power[ue] && r.ta[ue] == st.ta[ue])
    && (forall u :: 0 <= u < sh.ucis && (forall j :: 0 <= j < |msgs| ==> !IsHarqFor(msgs[j], u)) ==> r.uci[u] == st.uci[u])
    && ((forall j :: 0 <= j < |msgs| ==> !msgs[j].Ind?) ==> r.n0 == st.n0)
  }

  lemma RestIsKept(st: CuState, sh: Shape, msgs: seq<Message>)
    requires IsCu(st, sh) && Fit(sh, msgs)
    ensures IsKept(st, DeliverAll(st, sh, msgs), sh, msgs)
  {
    var r := DeliverAll(st, sh, msgs);
    forall ue, h | 0 <= ue < sh.ues && 0 <= h < 8 && (forall j :: 0 <= j < |msgs| ==> !IsFor(msgs[j], ue, h))
      ensures r.ulsch[ue][h] == st.ulsch[ue][h]
    {
      OtherProcessIsKept(st, sh, msgs, ue, h);
    }
    forall ue | 0 <= ue < sh.ues && (forall j :: 0 <= j < |msgs| ==> !IsForUe(msgs[j], ue))
      ensures r.power[ue] == st.power[ue] && r.ta[ue] == st.ta[ue]
    {
      OtherUeIsKept(st, sh, msgs, ue);
    }
    forall u | 0 <= u < sh.ucis && (forall j :: 0 <= j < |msgs| ==> !IsHarqFor(msgs[j], u))
      ensures r.uci[u] == st.uci[u]
    {
      OtherUciIsKept(st, sh, msgs, u);
    }
    LastNoiseWins(st, sh, msgs);
  }

  /** The control entries after the messages: the UCI of the last HARQ indication for each, and the noise
      level of the last indication. */
  ghost predicate HasControl(r: CuState, sh: Shape, msgs: seq<Message>)
    requires IsCu(r, sh) && Fit(sh, msgs)
  {
    && (forall u, i :: 0 <= u < sh.ucis && 0 <= i < |msgs| && IsLastHarq(msgs, u, i) ==> msgs[i].x.uci == Some(r.uci[u]))
    && (forall i :: 0 <= i < |msgs| && msgs[i].Ind? && (forall j :: i < j < |msgs| ==> !msgs[j].Ind?) ==>
          r.n0 == msgs[i].x.n0)
  }

  lemma ControlArrives(st: CuState, sh: Shape, msgs: seq<Message>)
    requires IsCu(st, sh) && Fit(sh, msgs)
    ensures HasControl(DeliverAll(st, sh, msgs), sh, msgs)
  {
    forall u, i | 0 <= u < sh.ucis && 0 <= i < |msgs| && IsLastHarq(msgs, u, i)
      ensures msgs[i].x.uci == Some(DeliverAll(st, sh, msgs).uci[u])
    {
      LastUciWins(st, sh, msgs, u, i);
    }
    LastNoiseWins(st, sh, msgs);
  }

  /** A segment lies complete at its own offset. */
  ghost predicate Delivered(st: CuState, sh: Shape, s: Segment)
    requires IsCu(st, sh) && HasRoom(sh, s)
  {
    && st.ulsch[s.ueId][s.harqId].eUL[2 * s.rOffset..2 * s.rOffset + |s.data|] == s.data
    && HasParameters(st, sh, s)
  }

  lemma SegmentByte(st: CuState, sh: Shape, msgs: seq<Message>, i: nat, k: nat)
    requires IsCu(st, sh) && Fit(sh, msgs) && Disjoint(msgs)
    requires i < |msgs| && msgs[i].Seg? && HasRoom(sh, msgs[i].s) && k < |msgs[i].s.data|
    ensures var s := msgs[i].s;
            DeliverAll(st, sh, msgs).ulsch[s.ueId][s.harqId].eUL[2 * s.rOffset + k] == s.data[k]
  {
    var s := msgs[i].s;
    LastWriterWins(st, sh, msgs, s.ueId, s.harqId, 2 * s.rOffset + k, i);
  }

  lemma StretchIs(e: seq<byte>, at: nat, data: seq<byte>)
    requires at + |data| <= |e| && forall k :: 0 <= k < |data| ==> e[at + k] == data[k]
    ensures e[at..at + |data|] == data
  {
  }

  lemma SegmentDelivered(st: CuState, sh: Shape, msgs: seq<Message>, i: nat)
    requires IsCu(st, sh) && Fit(sh, msgs) && Disjoint(msgs) && Consistent(msgs)
    requires i < |msgs| && msgs[i].Seg? && HasRoom(sh, msgs[i].s)
    ensures Delivered(DeliverAll(st, sh, msgs), sh, msgs[i].s)
  {
    var s := msgs[i].s;
    var e, at := DeliverAll(st, sh, msgs).ulsch[s.ueId][s.harqId].eUL, 2 * s.rOffset;
    forall k | 0 <= k < |s.data|
      ensures e[at + k] == s.data[k]
    {
      SegmentByte(st, sh, msgs, i, k);
    }
    StretchIs(e, at, s.data);
    ParametersArrive(st, sh, msgs, i);
  }

  /** The split is transparent on the uplink: from blocks in any order, the CU has every code
      segment complete at its own offset with its parameters, has the UCI of the last HARQ indication
      for each entry, keeps every other soft bit, parameter and entry, and makes exactly the calls the
      DU forwarded, once each, in the order of the blocks. */
  lemma UplinkIsTransparent(st: CuState, sh: Shape, cs: seq<seq<byte>>, msgs: seq<Message>)
    requires IsCu(st, sh) && AllStand(cs, sh, msgs) && Disjoint(msgs) && Consistent(msgs)
    ensures AllTaken(cs, sh) && Fit(sh, msgs)
    ensures forall i :: 0 <= i < |msgs| && msgs[i].Seg? ==>
              HasRoom(sh, msgs[i].s) && Delivered(Replay(st, sh, cs), sh, msgs[i].s)
    ensures forall ue, h, k :: 0 <= ue < sh.ues && 0 <= h < 8 && 0 <= k < sh.capacity ==>
              (forall j :: 0 <= j < |msgs| ==> !Covers(msgs[j], ue, h, k)) ==>
              Replay(st, sh, cs).ulsch[ue][h].eUL[k] == st.ulsch[ue][h].eUL[k]
    ensures forall i :: 0 <= i < |msgs| && msgs[i].Ind? ==> IsCall(msgs[i].x)
    ensures Replay(st, sh, cs).events == st.events + Calls(msgs)
    ensures HasControl(Replay(st, sh, cs), sh, msgs) && IsKept(st, Replay(st, sh, cs), sh, msgs)
  {
    AllStandTaken(st, sh, cs, msgs);
    ReplayIsDelivery(st, sh, cs, msgs);
    ControlArrives(st, sh, msgs);
    RestIsKept(st, sh, msgs);
    forall i | 0 <= i < |msgs| && msgs[i].Seg?
      ensures HasRoom(sh, msgs[i].s) && Delivered(Replay(st, sh, cs), sh, msgs[i].s)
    {
      assert FitsIn(sh, msgs[i]);
      SegmentDelivered(st, sh, msgs, i);
    }
    forall ue, h, k | 0 <= ue < sh.ues && 0 <= h < 8 && 0 <= k < sh.capacity && (forall j :: 0 <= j < |msgs| ==> !Covers(msgs[j], ue, h, k))
      ensures Replay(st, sh, cs).ulsch[ue][h].eUL[k] == st.ulsch[ue][h].eUL[k]
    {
      UncoveredIsKept(st, sh, msgs, ue, h, k);
    }
    CallsArrive(st, sh, msgs);
  }

  lemma SameByte(st: CuState, sh: Shape, msgs: seq<Message>, msgs': seq<Message>, ue: nat, h: nat, k: nat)
    requires IsCu(st, sh) && Fit(sh, msgs) && Disjoint(msgs) && Fit(sh, msgs') && Disjoint(msgs')
    requires ue < sh.ues && h < 8 && k < sh.capacity && forall msg :: msg in msgs <==> msg in msgs'
    ensures DeliverAll(st, sh, msgs).ulsch[ue][h].eUL[k] == DeliverAll(st, sh, msgs').ulsch[ue][h].eUL[k]
  {
    if i :| 0 <= i < |msgs| && Covers(msgs[i], ue, h, k) {
      assert msgs[i] in msgs';
      var j :| 0 <= j < |msgs'| && msgs'[j] == msgs[i];
      LastWriterWins(st, sh, msgs, ue, h, k, i);
      LastWriterWins(st, sh, msgs', ue, h, k, j);
    } else {
      forall j | 0 <= j < |msgs'|
        ensures !Covers(msgs'[j], ue, h, k)
      {
        assert msgs'[j] in msgs;
      }
      UncoveredIsKept(st, sh, msgs, ue, h, k);
      UncoveredIsKept(st, sh, msgs', ue, h, k);
    }
  }

  /** The soft bits do not depend on the order in which the segments arrive. */
  lemma OrderDoesNotMatter(st: CuState, sh: Shape, cs: seq<seq<byte>>, msgs: seq<Message>, cs': seq<seq<byte>>,
          msgs': seq<Message>, ue: nat, h: nat)
    requires IsCu(st, sh) && AllStand(cs, sh, msgs) && Disjoint(msgs) && AllStand(cs', sh, msgs') && Disjoint(msgs')
    requires AllTaken(cs, sh) && AllTaken(cs', sh) && ue < sh.ues && h < 8
    requires forall msg :: msg in msgs <==> msg in msgs'
    ensures Replay(st, sh, cs).ulsch[ue][h].eUL == Replay(st, sh, cs').ulsch[ue][h].eUL
  {
    AllStandTaken(st, sh, cs, msgs);
    AllStandTaken(st, sh, cs', msgs');
    ReplayIsDelivery(st, sh, cs, msgs);
    ReplayIsDelivery(st, sh, cs', msgs');
    forall k | 0 <= k < sh.capacity
      ensures DeliverAll(st, sh, msgs).ulsch[ue][h].eUL[k] == DeliverAll(st, sh, msgs').ulsch[ue][h].eUL[k]
    {
      SameByte(st, sh, msgs, msgs', ue, h, k);
    }
  }

  /** The CU. */
  class Cu {
    var ulsch: seq<seq<UlHarq>>
    var power: seq<(nat, nat)>
    var ta: seq<nat>
    var uciVars: seq<Uci>
    var n0: nat
    var events: seq<Event>
    ghost const shape: Shape

    ghost function View(): CuState
      reads this
    {
      CuState(ulsch, power, ta, uciVars, n0, events)
    }

    ghost predicate Valid()
      reads this
    {
      IsCu(View(), shape)
    }

    constructor (st: CuState, ghost shape: Shape)
      requires IsCu(st, shape)
      ensures Valid() && View() == st && this.shape == shape
    {
      ulsch, power, ta, uciVars, n0, events := st.ulsch, st.power, st.ta, st.uci, st.n0, st.events;
      this.shape := shape;
    }

    /** recvFs6Ul: walk the received blocks. */
    method RecvFs6Ul(buf: array<byte>, nbBlocks: nat, ghost ps: seq<seq<byte>>)
      requires Valid() && Holds(buf[..], ps) && nbBlocks == |ps| && AllTaken(Contents(ps), shape)
      modifies this
      ensures Valid() && View() == Replay(old(View()), shape, Contents(ps))
    {
      var bufPtr := 0;
      ghost var cs := Contents(ps);
      for i := 0 to nbBlocks
        invariant Valid() && bufPtr == |Join(ps[..i])|
        invariant View() == Replay(old(View()), shape, cs[..i])
      {
        PacketAt(buf[..], ps, i);
        var c, next := ContentAt(buf, bufPtr, ps[i]);
        assert cs[..i + 1][..i] == cs[..i];
        TakeBlock(c);
        bufPtr := next;
      }
      assert cs[..nbBlocks] == cs;
    }

    /** The body of the loop, on one block content. */
    method TakeBlock(c: seq<byte>)
      requires Valid() && Takes(c, shape)
      modifies this
      ensures Valid() && View() == Accept(old(View()), shape, c)
    {
      if |c| > SECOND {
        if c[SECOND] == UL_SCH {
          TakeSegment(SegOf(c));
        } else if c[SECOND] == UL_CCH {
          var nbUci := Count(c);
          for j := 0 to nbUci
            invariant Valid() && View() == PutElements(old(View()), shape, c, j)
          {
            TakeElement(ElementAt(c, j));
          }
        }
      }
    }

    method TakeSegment(s: Segment)
      requires Valid() && HasRoom(shape, s)
      modifies this
      ensures Valid() && View() == PutSegment(old(View()), shape, s)
    {
      var h := ulsch[s.ueId][s.harqId];
      var eUL := new byte[|h.eUL|](i requires 0 <= i < |h.eUL| => h.eUL[i]);
      CopyIn(eUL, 2 * s.rOffset, s.data);
      assert eUL[..] == Overwrite(h.eUL, 2 * s.rOffset, s.data);
      h := UlHarq(eUL[..], s.g, s.cqiCrc, s.oAck, s.o);
      ulsch := ulsch[s.ueId := ulsch[s.ueId][s.harqId := h]];
      power := power[s.ueId := s.power];
      ta := ta[s.ueId := s.ta];
    }

    method TakeElement(e: Element)
      requires Valid() && e.ueId < shape.ucis
      modifies this
      ensures Valid() && View() == PutElement(old(View()), shape, e)
    {
      n0 := e.n0;
      if e.uci.ueId != 0xFFFF {
        uciVars := uciVars[e.ueId := e.uci];
      }
      if e.kind == INDICATION_HARQ {
        events := events +
          [HarqIndication(e.ueId, uciVars[e.ueId], e.frame, e.subframe, e.harqAck, e.mapping, e.mask)];
      } else if e.kind == INDICATION_SR {
        events := events + [SrIndication(e.ueId, e.rnti, e.frame, e.subframe, e.stat)];
      }
    }
  }
}
