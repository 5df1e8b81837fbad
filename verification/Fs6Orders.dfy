/** The uplink decodes that the CU orders for a subframe. */
module Fs6Orders {
  import opened Options
  import opened Bytes
  import opened Fs6Zone
  import opened Fs6Config
  import Du = Fs6Du

  /** A HARQ process of the CU. */
  datatype CuHarq = CuHarq(values: seq<nat>, active: bool, frame: nat, subframe: nat, handled: bool)

  /** A UE of the CU. `named` is the process of subframe2harq_pid, or 0 for LTE-M. */
  datatype CuUlsch = CuUlsch(rnti: nat, common: seq<nat>, harqs: seq<Option<CuHarq>>, named: nat)

  /** The test of the loop over processes. */
  predicate IsDue(u: CuUlsch, k: nat, frame: nat, subframe: nat)
    requires k < |u.harqs|
  {
    && u.harqs[k].Some?
    && var h := u.harqs[k].value; 0 < u.rnti && h.active && h.frame == frame && h.subframe == subframe && !h.handled
  }

  predicate HasDue(u: CuUlsch, frame: nat, subframe: nat) {
    exists k :: 0 <= k < |u.harqs| && IsDue(u, k, frame, subframe)
  }

  /** The process that is sent is there. */
  predicate CanOrder(u: CuUlsch) {
    |u.harqs| == 8 && u.named < 8 && u.harqs[u.named].Some? && |u.common| == 14 && |u.harqs[u.named].value.values| == 39
  }

  /** appendFs6TxULUE looks the process up again, whichever is due. */
  function OrderOf(u: CuUlsch, ue: nat): (o: UlConfig)
    requires CanOrder(u)
    ensures o.Valid() && o.ueId == ue
  {
    UlConfig(ue, u.named, u.common, u.harqs[u.named].value.values)
  }

  /** The orders of the first k processes of a UE: the same one for each that is due. */
  function UeOrders(u: CuUlsch, ue: nat, frame: nat, subframe: nat, k: nat): (os: seq<UlConfig>)
    requires CanOrder(u) && k <= 8
    ensures |os| <= k && forall i :: 0 <= i < |os| ==> os[i] == OrderOf(u, ue)
  {
    if k == 0 then []
    else UeOrders(u, ue, frame, subframe, k - 1) + if IsDue(u, k - 1, frame, subframe) then [OrderOf(u, ue)] else []
  }

  /** The CU's table; entries may be missing. */
  predicate CanOrderAll(table: seq<Option<CuUlsch>>) {
    forall i :: 0 <= i < |table| && table[i].Some? ==> CanOrder(table[i].value)
  }

  function AllOrders(table: seq<Option<CuUlsch>>, frame: nat, subframe: nat, n: nat): (os: seq<UlConfig>)
    requires CanOrderAll(table) && n <= |table|
    ensures |os| <= 8 * n
  {
    if n == 0 then []
    else
      AllOrders(table, frame, subframe, n - 1) +
      if table[n - 1].Some? then UeOrders(table[n - 1].value, n - 1, frame, subframe, 8) else []
  }

  lemma {:induction false} UeOrdered(u: CuUlsch, ue: nat, frame: nat, subframe: nat, k: nat)
    requires CanOrder(u) && k <= 8
    ensures OrderOf(u, ue) in UeOrders(u, ue, frame, subframe, k) <==>
              exists j :: 0 <= j < k && IsDue(u, j, frame, subframe)
  {
    if k > 0 {
      UeOrdered(u, ue, frame, subframe, k - 1);
    }
  }

  /** The one order of a UE with a due process. */
  predicate IsOrdered(table: seq<Option<CuUlsch>>, frame: nat, subframe: nat, v: UlConfig)
    requires CanOrderAll(table)
  {
    && v.ueId < |table| && table[v.ueId].Some? && HasDue(table[v.ueId].value, frame, subframe)
    && v == OrderOf(table[v.ueId].value, v.ueId)
  }

  lemma UeOrderedIff(table: seq<Option<CuUlsch>>, frame: nat, subframe: nat, ue: nat, v: UlConfig)
    requires CanOrderAll(table) && ue < |table| && table[ue].Some?
    ensures v in UeOrders(table[ue].value, ue, frame, subframe, 8) <==> v.ueId == ue && IsOrdered(table, frame, subframe, v)
  {
    UeOrdered(table[ue].value, ue, frame, subframe, 8);
  }

  /** What is ordered: for each UE with a due process its one order, and nothing else. */
  lemma {:induction false} OrderedIff(table: seq<Option<CuUlsch>>, frame: nat, subframe: nat, n: nat, v: UlConfig)
    requires CanOrderAll(table) && n <= |table|
    ensures v in AllOrders(table, frame, subframe, n) <==> v.ueId < n && IsOrdered(table, frame, subframe, v)
  {
    if n > 0 {
      OrderedIff(table, frame, subframe, n - 1, v);
      if table[n - 1].Some? {
        UeOrderedIff(table, frame, subframe, n - 1, v);
      }
    }
  }

  /** The blocks from n on are these orders. */
  ghost predicate HoldsOrders(cs: seq<seq<byte>>, second: nat, n: nat, os: seq<UlConfig>) {
    |cs| == n + |os| && forall i :: 0 <= i < |os| ==> IsUlContent(cs[n + i], second, os[i])
  }

  /** Room for k more orders. */
  function RoomFor(second: nat, k: nat): nat { k * Aligned(second + ULSCHED_SIZE) }

  /** The state of the loops: the blocks there were, the orders so far, and room for the others. */
  ghost predicate Progress(zone: BufferZone, second: nat, before: seq<seq<byte>>, os: seq<UlConfig>, left: nat)
    reads zone, zone.buf
  {
    && zone.Valid() && zone.Leads(second) && second + ULSCHED_SIZE < 65536 && |zone.blocks| + left < 65536
    && before <= zone.blocks && HoldsOrders(zone.blocks, second, |before|, os)
    && SizeOf(zone.blocks) + RoomFor(second, left) <= zone.buf.Length
  }

  lemma LessRoom(second: nat, k: nat)
    ensures RoomFor(second, k + 1) == RoomFor(second, k) + Aligned(second + ULSCHED_SIZE)
    ensures RoomFor(second, k) <= RoomFor(second, k + 8)
  {
  }

  /** One order behind the others. */
  method AppendOrder(zone: BufferZone, second: nat, u: UlConfig, ghost before: seq<seq<byte>>, ghost os: seq<UlConfig>,
                     ghost left: nat)
    requires u.Valid() && Fits(ULSCHED_FIELDS, UlValues(u)) && Progress(zone, second, before, os, left + 1)
    modifies zone.buf, zone`blocks
    ensures Progress(zone, second, before, os + [u], left) && zone.Front(second) == old(zone.Front(second))
  {
    ghost var cs := zone.blocks;
    LessRoom(second, left);
    AppendFs6TxULUE(zone, second, u);
    assert zone.blocks[..|cs|] == cs;
    assert SizeOf(zone.blocks) == SizeOf(cs) + Aligned(second + ULSCHED_SIZE);
  }

  /** A UE whose order can be stored. */
  ghost predicate CanSend(u: CuUlsch, ue: nat) { CanOrder(u) && Fits(ULSCHED_FIELDS, UlValues(OrderOf(u, ue))) }

  /** One pass of the loop over processes. */
  method NextProcess(zone: BufferZone, second: nat, u: CuUlsch, ue: nat, frame: nat, subframe: nat, k: nat,
                     ghost before: seq<seq<byte>>, ghost os: seq<UlConfig>, ghost left: nat)
    requires k < 8 && CanSend(u, ue) && Progress(zone, second, before, os + UeOrders(u, ue, frame, subframe, k), left + 1)
    modifies zone.buf, zone`blocks
    ensures Progress(zone, second, before, os + UeOrders(u, ue, frame, subframe, k + 1), left)
    ensures zone.Front(second) == old(zone.Front(second))
  {
    ghost var so := os + UeOrders(u, ue, frame, subframe, k);
    if IsDue(u, k, frame, subframe) {
      AppendOrder(zone, second, OrderOf(u, ue), before, so, left);
      assert so + [OrderOf(u, ue)] == os + UeOrders(u, ue, frame, subframe, k + 1);
    } else {
      LessRoom(second, left);
      assert so == os + UeOrders(u, ue, frame, subframe, k + 1);
    }
  }

  /** The loop over the processes of a UE. */
  method AppendUeOrders(zone: BufferZone, second: nat, u: CuUlsch, ue: nat, frame: nat, subframe: nat,
                        ghost before: seq<seq<byte>>, ghost os: seq<UlConfig>, ghost left: nat)
    requires CanSend(u, ue) && Progress(zone, second, before, os, left + 8)
    modifies zone.buf, zone`blocks
    ensures Progress(zone, second, before, os + UeOrders(u, ue, frame, subframe, 8), left)
    ensures zone.Front(second) == old(zone.Front(second))
  {
    assert os + [] == os;
    for k := 0 to 8
      invariant Progress(zone, second, before, os + UeOrders(u, ue, frame, subframe, k), left + 8 - k)
      invariant zone.Front(second) == old(zone.Front(second))
    {
      NextProcess(zone, second, u, ue, frame, subframe, k, before, os, left + 7 - k);
    }
  }

  ghost predicate CanSendAll(table: seq<Option<CuUlsch>>) {
    forall i :: 0 <= i < |table| && table[i].Some? ==> CanSend(table[i].value, i)
  }

  /** One pass of the loop over UEs. */
  method NextUe(zone: BufferZone, second: nat, table: seq<Option<CuUlsch>>, frame: nat, subframe: nat, i: nat,
                ghost before: seq<seq<byte>>, ghost left: nat)
    requires CanOrderAll(table) && CanSendAll(table) && i < |table|
    requires Progress(zone, second, before, AllOrders(table, frame, subframe, i), left + 8)
    modifies zone.buf, zone`blocks
    ensures Progress(zone, second, before, AllOrders(table, frame, subframe, i + 1), left)
    ensures zone.Front(second) == old(zone.Front(second))
  {
    ghost var os := AllOrders(table, frame, subframe, i);
    if table[i].Some? {
      AppendUeOrders(zone, second, table[i].value, i, frame, subframe, before, os, left);
    } else {
      LessRoom(second, left);
      assert os + [] == os;
    }
  }

  /** The loop over UEs at the start of phy_procedures_eNB_TX_tosplit. */
  method AppendAllOrders(zone: BufferZone, second: nat, table: seq<Option<CuUlsch>>, frame: nat, subframe: nat)
    requires CanOrderAll(table) && CanSendAll(table)
    requires zone.Valid() && zone.Leads(second) && second + ULSCHED_SIZE < 65536
    requires |zone.blocks| + 8 * |table| < 65536 && SizeOf(zone.blocks) + RoomFor(second, 8 * |table|) <= zone.buf.Length
    modifies zone.buf, zone`blocks
    ensures zone.Valid() && zone.Leads(second) && zone.Front(second) == old(zone.Front(second))
    ensures old(zone.blocks) <= zone.blocks
    ensures HoldsOrders(zone.blocks, second, |old(zone.blocks)|, AllOrders(table, frame, subframe, |table|))
  {
    ghost var before := zone.blocks;
    for i := 0 to |table|
      invariant Progress(zone, second, before, AllOrders(table, frame, subframe, i), 8 * (|table| - i))
      invariant zone.Front(second) == old(zone.Front(second))
    {
      NextUe(zone, second, table, frame, subframe, i, before, 8 * (|table| - i - 1));
    }
  }

  // What the DU makes of the orders.

  /** The blocks are of other kinds, or these orders, each at least once and in any order. */
  ghost predicate BlocksAre(d: seq<Ulsch>, second: nat, cs: seq<seq<byte>>, orders: seq<Option<UlConfig>>,
                            table: seq<Option<CuUlsch>>, frame: nat, subframe: nat)
    requires CanOrderAll(table)
  {
    && |cs| == |orders| && (forall i :: 0 <= i < |cs| ==> Du.Orders(d, second, cs[i], orders[i]))
    && forall v :: Some(v) in orders <==> IsOrdered(table, frame, subframe, v)
  }

  lemma TheyAgree(d: seq<Ulsch>, second: nat, cs: seq<seq<byte>>, orders: seq<Option<UlConfig>>,
          table: seq<Option<CuUlsch>>, frame: nat, subframe: nat)
    requires CanOrderAll(table) && BlocksAre(d, second, cs, orders, table, frame, subframe)
    ensures Du.OrdersAgree(orders)
  {
    forall i, j | 0 <= i < j < |orders| && orders[i].Some? && orders[j].Some?
      ensures orders[i].value.ueId == orders[j].value.ueId ==> orders[i] == orders[j]
    {
      assert Some(orders[i].value) in orders && Some(orders[j].value) in orders;
    }
  }

  /** A UE with a due process gets its order, a UE without keeps its entry. */
  lemma TableArrives(d: seq<Ulsch>, second: nat, cs: seq<seq<byte>>, orders: seq<Option<UlConfig>>,
          table: seq<Option<CuUlsch>>, frame: nat, subframe: nat, ue: nat)
    requires CanOrderAll(table) && BlocksAre(d, second, cs, orders, table, frame, subframe)
    requires Du.EightEach(d) && ue < |table| <= |d|
    ensures Du.ReplayUl(d, second, cs, frame, subframe)[ue] ==
              if table[ue].Some? && HasDue(table[ue].value, frame, subframe)
              then Du.Ordered(d[ue], OrderOf(table[ue].value, ue), frame, subframe)
              else d[ue]
  {
    if table[ue].Some? && HasDue(table[ue].value, frame, subframe) {
      var v := OrderOf(table[ue].value, ue);
      assert Some(v) in orders;
      var k :| 0 <= k < |orders| && orders[k] == Some(v);
      TheyAgree(d, second, cs, orders, table, frame, subframe);
      Du.OrdersArrive(d, second, cs, orders, frame, subframe, k);
    } else {
      forall i | 0 <= i < |cs| && orders[i].Some?
        ensures orders[i].value.ueId != ue
      {
        assert Some(orders[i].value) in orders;
      }
      Du.UnorderedIsKept(d, second, cs, orders, frame, subframe, ue);
    }
  }

  /** The DU's process is the CU's, due in this subframe. */
  predicate Follows(x: Ulsch, u: CuUlsch, k: nat, frame: nat, subframe: nat)
    requires k < |x.harqs| && k < |u.harqs| && u.harqs[k].Some?
  {
    x.harqs[k] == UlHarq(u.harqs[k].value.values, frame, subframe, false)
  }

  /** A process that is due at the CU is due at the DU, if and only if it is the one subframe2harq_pid
      names, or the DU had it so before. */
  lemma DueArrivesIff(d: seq<Ulsch>, second: nat, cs: seq<seq<byte>>, orders: seq<Option<UlConfig>>,
          table: seq<Option<CuUlsch>>, frame: nat, subframe: nat, ue: nat, k: nat)
    requires CanOrderAll(table) && BlocksAre(d, second, cs, orders, table, frame, subframe)
    requires Du.EightEach(d) && ue < |table| <= |d| && k < 8 && table[ue].Some? && IsDue(table[ue].value, k, frame, subframe)
    ensures var r := Du.ReplayUl(d, second, cs, frame, subframe);
            && |r[ue].harqs| == 8
            && (Follows(r[ue], table[ue].value, k, frame, subframe) <==>
                k == table[ue].value.named || Follows(d[ue], table[ue].value, k, frame, subframe))
  {
    TableArrives(d, second, cs, orders, table, frame, subframe, ue);
  }
}
