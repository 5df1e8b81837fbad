/** Configuration blocks of the downlink: the uplink decodes a CU orders for a UE, and the list of
    control channels the DU has to look for. */
module Fs6Config {
  import opened Bytes
  import opened Fs6Zone

  /** enum pckType: fs6UlConfig, fs6ULConfigCCH. */
  const UL_CONFIG: nat := 25
  const CCH_CONFIG: nat := 27

  // Uplink decodes.

  /** fs6_dl_ulsched_t on a 64-bit target, the fields the CU sets (frame, subframe and handled are
      not): type, UE_id, harq_pid, ue_type, dci_alloc, rar_alloc, status, Msg3_flag, phich_active,
      phich_ACK, previous_first_rb, B, G, uci_format. */
  const ORDER_FIELDS: seq<Field> :=
    [Field(0, 1), Field(2, 2), Field(4, 1), Field(8, 4), Field(12, 1), Field(13, 1), Field(16, 4), Field(20, 1),
     Field(29, 1), Field(30, 1), Field(32, 2), Field(36, 4), Field(40, 4), Field(44, 4)]

  /** Or2, o_RI[2], o_ACK[4], O_ACK, o_RCC, q_ACK[18], q_RI[6], RTC[13], ndi, round, rvidx, Nl, n_DMRS,
      previous_n_DMRS. */
  const CODING_FIELDS: seq<Field> :=
    [Field(48, 1), Field(49, 2), Field(51, 4), Field(55, 1), Field(56, 1), Field(58, 36), Field(94, 12), Field(108, 52),
     Field(160, 1), Field(161, 1), Field(162, 1), Field(163, 1), Field(164, 1), Field(165, 1)]

  /** n_DMRS2, delta_TF, repetition_number, total_number_of_repetitions, harq_mask, nb_rb, Qm,
      first_rb, O_RI, Or1, Msc_initial, Nsymb_initial, V_UL_DAI, srs_active. */
  const GRANT_FIELDS: seq<Field> :=
    [Field(166, 1), Field(168, 4), Field(172, 4), Field(176, 4), Field(180, 2), Field(182, 2), Field(184, 1),
     Field(186, 2), Field(188, 1), Field(189, 1), Field(190, 2), Field(192, 1), Field(193, 1), Field(194, 1)]

  /** TBS, Nsymb_pusch, Mlimit, max_turbo_iterations, bundling, beta_offset_cqi_times8,
      beta_offset_ri_times8, beta_offset_harqack_times8, Msg3_active, rnti, cyclicShift,
      cooperation_flag, num_active_cba_groups, cba_rnti[4]. */
  const UE_FIELDS: seq<Field> :=
    [Field(196, 4), Field(200, 1), Field(201, 1), Field(202, 1), Field(203, 1), Field(204, 2), Field(206, 2),
     Field(208, 2), Field(210, 1), Field(212, 2), Field(214, 1), Field(215, 1), Field(216, 1), Field(218, 8)]

  const ULSCHED_SIZE: nat := 228
  const ULSCHED_FIELDS: seq<Field> := ORDER_FIELDS + CODING_FIELDS + (GRANT_FIELDS + UE_FIELDS)

  lemma OrderFieldsLie()
    ensures LiesIn(ORDER_FIELDS, 0, 48)
  {
  }

  lemma CodingFieldsLie()
    ensures LiesIn(CODING_FIELDS, 48, 166)
  {
  }

  lemma GrantFieldsLie()
    ensures LiesIn(GRANT_FIELDS, 166, 196)
  {
  }

  lemma UeFieldsLie()
    ensures LiesIn(UE_FIELDS, 196, ULSCHED_SIZE)
  {
  }

  lemma UlschedIsLayout()
    ensures IsLayout(ULSCHED_FIELDS, ULSCHED_SIZE) && |ULSCHED_FIELDS| == 56
  {
    OrderFieldsLie();
    CodingFieldsLie();
    Stretches(ORDER_FIELDS, CODING_FIELDS, 0, 48, 166);
    GrantFieldsLie();
    UeFieldsLie();
    Stretches(GRANT_FIELDS, UE_FIELDS, 166, 196, ULSCHED_SIZE);
    Stretches(ORDER_FIELDS + CODING_FIELDS, GRANT_FIELDS + UE_FIELDS, 0, 166, ULSCHED_SIZE);
  }

  /** What the CU orders for a UE: the values of its LTE_eNB_ULSCH_t and of one HARQ process, each in
      the order of the structure. The first two of the former are ue_type and harq_mask. */
  datatype UlConfig = UlConfig(ueId: nat, harqPid: nat, common: seq<nat>, harq: seq<nat>)
  {
    predicate Valid() { |common| == 14 && |harq| == 39 }
  }

  function UlValues(u: UlConfig): (vs: seq<nat>)
    requires u.Valid()
    ensures |vs| == 56
  {
    [UL_CONFIG, u.ueId, u.harqPid, u.common[0]] + u.harq[..28] + [u.common[1]] + u.harq[28..] + u.common[2..]
  }

  /** The receiver's assignments: to the ULSCH, and to the HARQ process. */
  function FromUlValues(vs: seq<nat>): (u: UlConfig)
    requires |vs| == 56
    ensures u.Valid()
  {
    UlConfig(vs[1], vs[2], [vs[3], vs[32]] + vs[44..], vs[4..32] + vs[33..44])
  }

  lemma UlValuesBack(u: UlConfig)
    requires u.Valid()
    ensures FromUlValues(UlValues(u)) == u
  {
    var r := FromUlValues(UlValues(u));
    assert r.common == u.common;
    assert r.harq == u.harq;
  }

  ghost predicate IsUlContent(c: seq<byte>, second: nat, u: UlConfig) {
    && u.Valid() && IsLayout(ULSCHED_FIELDS, ULSCHED_SIZE)
    && IsStruct(c, second, ULSCHED_SIZE, ULSCHED_FIELDS, UlValues(u), [])
  }

  /** appendFs6TxULUE. */
  method AppendFs6TxULUE(zone: BufferZone, second: nat, u: UlConfig)
    requires zone.Valid() && zone.Leads(second) && |zone.blocks| < 65535 && u.Valid() && Fits(ULSCHED_FIELDS, UlValues(u))
    requires second + ULSCHED_SIZE < 65536
    requires SizeOf(zone.blocks) + Aligned(second + ULSCHED_SIZE) <= zone.buf.Length
    modifies zone.buf, zone`blocks
    ensures zone.Valid() && |zone.blocks| == |old(zone.blocks)| + 1 && old(zone.blocks) <= zone.blocks
    ensures IsUlContent(zone.blocks[|old(zone.blocks)|], second, u)
    ensures zone.Leads(second) && zone.Front(second) == old(zone.Front(second))
  {
    UlschedIsLayout();
    AppendStruct(zone, second, ULSCHED_SIZE, ULSCHED_FIELDS, UlValues(u), []);
  }

  /** A HARQ process of the DU and the subframe it is to be decoded in. */
  datatype UlHarq = UlHarq(values: seq<nat>, frame: nat, subframe: nat, handled: bool)
  datatype Ulsch = Ulsch(common: seq<nat>, harqs: seq<UlHarq>)

  predicate IsUl(c: seq<byte>, second: nat) { second < |c| && c[second] == UL_CONFIG }

  function DecodeUl(c: seq<byte>, second: nat): (u: UlConfig)
    requires second + ULSCHED_SIZE <= |c|
    ensures u.Valid()
  {
    UlschedIsLayout();
    FromUlValues(Fetch(c[second..second + ULSCHED_SIZE], ULSCHED_FIELDS))
  }

  /** The block names a known UE and process. A block too short for a structure has no effect. */
  predicate TakesUl(d: seq<Ulsch>, second: nat, c: seq<byte>) {
    second + ULSCHED_SIZE <= |c| ==>
      var u := DecodeUl(c, second); u.ueId < |d| && u.harqPid < |d[u.ueId].harqs|
  }

  /** The branch for fs6UlConfig. The loop runs over as many structures as the block could hold, but
      its pointer stays at the first. */
  function AcceptUl(d: seq<Ulsch>, second: nat, c: seq<byte>, frame: nat, subframe: nat): (r: seq<Ulsch>)
    ensures |r| == |d|
  {
    if IsUl(c, second) && second + ULSCHED_SIZE <= |c| && TakesUl(d, second, c) then
      var u := DecodeUl(c, second);
      d[u.ueId := Ulsch(u.common, d[u.ueId].harqs[u.harqPid := UlHarq(u.harq, frame, subframe, false)])]
    else d
  }

  /** A configuration block is recognised, and the DU's entry is the CU's, due in this subframe. */
  lemma UlConfigArrives(d: seq<Ulsch>, second: nat, c: seq<byte>, u: UlConfig, frame: nat, subframe: nat)
    requires IsUlContent(c, second, u) && u.ueId < |d| && u.harqPid < |d[u.ueId].harqs|
    ensures IsUl(c, second) && TakesUl(d, second, c)
    ensures var r := AcceptUl(d, second, c, frame, subframe);
            && r[u.ueId].common == u.common
            && r[u.ueId].harqs == d[u.ueId].harqs[u.harqPid := UlHarq(u.harq, frame, subframe, false)]
            && forall ue :: 0 <= ue < |d| && ue != u.ueId ==> r[ue] == d[ue]
  {
    StructType(c, second, ULSCHED_SIZE, ULSCHED_FIELDS, UlValues(u), []);
    UlValuesBack(u);
  }

  // Control channels.

  /** An entry of the CU's uci_vars: whether and when it is active, and its bytes. */
  datatype UciEntry = UciEntry(active: bool, frame: nat, subframe: nat, uci: nat)

  /** The control channels to look for, with the index of each. */
  function Due(table: seq<UciEntry>, frame: nat, subframe: nat): seq<(nat, nat)> {
    if table == [] then []
    else
      var n := |table| - 1;
      var e := table[n];
      Due(table[..n], frame, subframe) +
      if e.active && e.frame == frame && e.subframe == subframe then [(n, e.uci)] else []
  }

  /** The entry is active in this subframe. */
  predicate IsDueAt(table: seq<UciEntry>, frame: nat, subframe: nat, i: nat) {
    i < |table| && table[i].active && table[i].frame == frame && table[i].subframe == subframe
  }

  lemma OneEntryMore(table: seq<UciEntry>, frame: nat, subframe: nat)
    requires table != []
    ensures var n := |table| - 1;
            Due(table, frame, subframe) ==
              if IsDueAt(table, frame, subframe, n) then Due(table[..n], frame, subframe) + [(n, table[n].uci)]
              else Due(table[..n], frame, subframe)
  {
  }

  /** Due entries have increasing indices. */
  lemma {:induction false} DueIsSorted(table: seq<UciEntry>, frame: nat, subframe: nat)
    ensures var due := Due(table, frame, subframe);
            && (forall i :: 0 <= i < |due| ==> due[i].0 < |table|)
            && (forall i, j :: 0 <= i < j < |due| ==> due[i].0 < due[j].0)
  {
    if table != [] {
      DueIsSorted(table[..|table| - 1], frame, subframe);
      OneEntryMore(table, frame, subframe);
    }
  }

  /** The list holds the entries that are active in this subframe, and no others. */
  lemma {:induction false} InDueIff(table: seq<UciEntry>, frame: nat, subframe: nat, i: nat, v: nat)
    ensures (i, v) in Due(table, frame, subframe) <==> IsDueAt(table, frame, subframe, i) && v == table[i].uci
  {
    if table != [] {
      InDueIff(table[..|table| - 1], frame, subframe, i, v);
      OneEntryMore(table, frame, subframe);
    }
  }

  /** fs6_dl_uespec_ulcch_t, type and nb_active_ue, then n times fs6_dl_uespec_ulcch_element_t, UE_id
      and the UCI of 76 bytes. */
  const ELEMENT: nat := 80
  const UCI_BYTES: nat := 76

  function ElementFields(n: nat): (fs: seq<Field>)
    ensures |fs| == 2 * n
    ensures forall k :: 0 <= k < 2 * n ==>
              fs[k] == if k % 2 == 0 then Field(4 + 40 * k, 2) else Field(8 + 40 * (k - 1), UCI_BYTES)
  {
    seq(2 * n, k requires 0 <= k < 2 * n => if k % 2 == 0 then Field(4 + 40 * k, 2) else Field(8 + 40 * (k - 1), UCI_BYTES))
  }

  function CchFields(n: nat): seq<Field> { [Field(0, 1), Field(2, 2)] + ElementFields(n) }

  lemma CchIsLayout(n: nat)
    ensures IsLayout(CchFields(n), 4 + ELEMENT * n)
  {
    assert LiesIn([Field(0, 1), Field(2, 2)], 0, 4);
    assert LiesIn(ElementFields(n), 4, 4 + ELEMENT * n);
    Stretches([Field(0, 1), Field(2, 2)], ElementFields(n), 0, 4, 4 + ELEMENT * n);
  }

  function ElementValues(due: seq<(nat, nat)>): (vs: seq<nat>)
    ensures |vs| == 2 * |due|
    ensures forall k :: 0 <= k < |vs| ==> vs[k] == if k % 2 == 0 then due[k / 2].0 else due[k / 2].1
  {
    seq(2 * |due|, k requires 0 <= k < 2 * |due| => if k % 2 == 0 then due[k / 2].0 else due[k / 2].1)
  }

  function CchValues(due: seq<(nat, nat)>): seq<nat> { [CCH_CONFIG, |due|] + ElementValues(due) }

  ghost predicate IsCchContent(c: seq<byte>, second: nat, due: seq<(nat, nat)>) {
    && IsLayout(CchFields(|due|), 4 + ELEMENT * |due|)
    && IsStruct(c, second, 4 + ELEMENT * |due|, CchFields(|due|), CchValues(due), [])
  }

  method CollectDue(table: seq<UciEntry>, frame: nat, subframe: nat) returns (due: seq<(nat, nat)>)
    ensures due == Due(table, frame, subframe)
  {
    due := [];
    for i := 0 to |table|
      invariant due == Due(table[..i], frame, subframe)
    {
      assert table[..i + 1][..i] == table[..i];
      if table[i].active && table[i].frame == frame && table[i].subframe == subframe {
        due := due + [(i, table[i].uci)];
      }
    }
    assert table[..|table|] == table;
  }

  /** appendFs6DLUEcch: a block with all control channels that are due, none if there are none. */
  method AppendFs6DLUEcch(zone: BufferZone, second: nat, table: seq<UciEntry>, frame: nat, subframe: nat)
    requires zone.Valid() && zone.Leads(second) && |zone.blocks| < 65535
    requires var due := Due(table, frame, subframe);
             && Fits(CchFields(|due|), CchValues(due)) && second + 4 + ELEMENT * |due| < 65536
             && SizeOf(zone.blocks) + Aligned(second + 4 + ELEMENT * |due|) <= zone.buf.Length
    modifies zone.buf, zone`blocks
    ensures zone.Valid() && zone.Leads(second) && zone.Front(second) == old(zone.Front(second))
    ensures var due := Due(table, frame, subframe);
            && (due == [] ==> zone.blocks == old(zone.blocks))
            && (due != [] ==> |zone.blocks| == |old(zone.blocks)| + 1 && old(zone.blocks) <= zone.blocks)
            && (due != [] ==> IsCchContent(zone.blocks[|old(zone.blocks)|], second, due))
  {
    var due := CollectDue(table, frame, subframe);
    if due != [] {
      CchIsLayout(|due|);
      AppendStruct(zone, second, 4 + ELEMENT * |due|, CchFields(|due|), CchValues(due), []);
    }
  }

  predicate IsCch(c: seq<byte>, second: nat) { second < |c| && c[second] == CCH_CONFIG }

  function CchCount(c: seq<byte>, second: nat): nat
    requires second + 4 <= |c|
  {
    Get(c, second + 2, 2)
  }

  /** The element at the front of the list, when there is one. */
  predicate TakesCch(d: seq<nat>, second: nat, c: seq<byte>) {
    && second + 4 <= |c|
    && (CchCount(c, second) > 0 ==> second + 4 + ELEMENT <= |c| && Get(c, second + 4, 2) < |d|)
  }

  /** The branch for fs6ULConfigCCH. The pointer is never advanced, so the loop copies the first
      element as often as there are elements. */
  function AcceptCch(d: seq<nat>, second: nat, c: seq<byte>): (r: seq<nat>)
    ensures |r| == |d|
  {
    if IsCch(c, second) && TakesCch(d, second, c) && CchCount(c, second) > 0 then
      d[Get(c, second + 4, 2) := Get(c, second + 8, UCI_BYTES)]
    else d
  }

  /** Of a list the DU gets the first element. */
  lemma FirstCchArrives(d: seq<nat>, second: nat, c: seq<byte>, due: seq<(nat, nat)>)
    requires IsCchContent(c, second, due) && due != [] && due[0].0 < |d|
    ensures IsCch(c, second) && TakesCch(d, second, c) && AcceptCch(d, second, c) == d[due[0].0 := due[0].1]
  {
    var size, fs, vs := 4 + ELEMENT * |due|, CchFields(|due|), CchValues(due);
    StructType(c, second, size, fs, vs, []);
    FieldOf(c, second, size, fs, vs, [], 1);
    FieldOf(c, second, size, fs, vs, [], 2);
    FieldOf(c, second, size, fs, vs, [], 3);
    assert fs[2] == ElementFields(|due|)[0] && fs[3] == ElementFields(|due|)[1];
    assert vs[2] == ElementValues(due)[0] && vs[3] == ElementValues(due)[1];
  }

  /** Every entry that is active at the CU in this subframe is at the DU. */
  ghost predicate AllThere(d: seq<nat>, table: seq<UciEntry>, frame: nat, subframe: nat) {
    forall i: nat :: IsDueAt(table, frame, subframe, i) ==> i < |d| && d[i] == table[i].uci
  }

  /** Exactly one entry is. */
  ghost predicate OneIsDue(table: seq<UciEntry>, frame: nat, subframe: nat) {
    exists i: nat :: IsDueAt(table, frame, subframe, i) && forall j: nat :: IsDueAt(table, frame, subframe, j) ==> j == i
  }

  /** The first of the list is the lowest index that is active. */
  lemma FirstOfDue(table: seq<UciEntry>, frame: nat, subframe: nat)
    requires Due(table, frame, subframe) != []
    ensures var (i, v) := Due(table, frame, subframe)[0];
            && IsDueAt(table, frame, subframe, i) && v == table[i].uci
            && forall j: nat :: IsDueAt(table, frame, subframe, j) ==> i <= j
  {
    var due := Due(table, frame, subframe);
    InDueIff(table, frame, subframe, due[0].0, due[0].1);
    assert due[0] in due;
    DueIsSorted(table, frame, subframe);
    forall j: nat | IsDueAt(table, frame, subframe, j)
      ensures due[0].0 <= j
    {
      InDueIff(table, frame, subframe, j, table[j].uci);
      var k :| 0 <= k < |due| && due[k] == (j, table[j].uci);
    }
  }

  /** A table of n entries in which only the first due one is set. */
  lemma OneArrives(d: seq<nat>, table: seq<UciEntry>, frame: nat, subframe: nat, first: nat)
    requires IsDueAt(table, frame, subframe, first) && |table| <= |d|
    requires OneIsDue(table, frame, subframe)
    ensures AllThere(d[first := table[first].uci], table, frame, subframe)
  {
  }

  lemma AnotherDoesNot(n: nat, table: seq<UciEntry>, frame: nat, subframe: nat, first: nat) returns (d: seq<nat>)
    requires IsDueAt(table, frame, subframe, first) && |table| <= n && !OneIsDue(table, frame, subframe)
    ensures |d| == n && !AllThere(d[first := table[first].uci], table, frame, subframe)
  {
    var j: nat :| IsDueAt(table, frame, subframe, j) && j != first;
    d := seq(n, _ => table[j].uci + 1);
    assert d[first := table[first].uci][j] != table[j].uci;
  }

  /** Whatever the DU's table was, it gets the CU's control channels of the subframe, if and only if
      exactly one entry of the CU's table is active. */
  lemma CchListArrivesIff(n: nat, second: nat, c: seq<byte>, table: seq<UciEntry>, frame: nat, subframe: nat)
    requires var due := Due(table, frame, subframe); IsCchContent(c, second, due) && due != [] && |table| <= n
    ensures (forall d: seq<nat> :: |d| == n ==> AllThere(AcceptCch(d, second, c), table, frame, subframe))
       <==> OneIsDue(table, frame, subframe)
  {
    var due := Due(table, frame, subframe);
    var first := due[0].0;
    FirstOfDue(table, frame, subframe);
    forall d: seq<nat> | |d| == n
      ensures AcceptCch(d, second, c) == d[first := table[first].uci]
    {
      FirstCchArrives(d, second, c, due);
    }
    if OneIsDue(table, frame, subframe) {
      forall d: seq<nat> | |d| == n
        ensures AllThere(AcceptCch(d, second, c), table, frame, subframe)
      {
        OneArrives(d, table, frame, subframe, first);
      }
    } else {
      var d := AnotherDoesNot(n, table, frame, subframe, first);
      assert !AllThere(AcceptCch(d, second, c), table, frame, subframe);
    }
  }
}
