/** The DU's downlink: read the second header, clear the schedule, walk the blocks. */
module Fs6Du {
  import opened Options
  import opened Bytes
  import opened Fs6Bits
  import opened Fs6Zone
  import opened Fs6Downlink
  import Config = Fs6Config
  import Header = Fs6DlHeader

  function ReplayUl(d: seq<Config.Ulsch>, second: nat, cs: seq<seq<byte>>, frame: nat, subframe: nat): (r: seq<Config.Ulsch>)
    ensures |r| == |d|
  {
    if cs == [] then d
    else
      var n := |cs| - 1;
      Config.AcceptUl(ReplayUl(d, second, cs[..n], frame, subframe), second, cs[n], frame, subframe)
  }

  function ReplayCch(d: seq<nat>, second: nat, cs: seq<seq<byte>>): (r: seq<nat>)
    ensures |r| == |d|
  {
    if cs == [] then d
    else
      var n := |cs| - 1;
      Config.AcceptCch(ReplayCch(d, second, cs[..n]), second, cs[n])
  }

  /** The tables the blocks go to. */
  datatype Tables = Tables(dlsch: seq<Dlsch>, ulsch: seq<Config.Ulsch>, uci: seq<nat>)

  /** Eight HARQ processes a UE. */
  predicate EightEach(ul: seq<Config.Ulsch>) {
    forall ue :: 0 <= ue < |ul| ==> |ul[ue].harqs| == 8
  }

  ghost predicate AreTables(t: Tables, capacity: nat) { IsTable(t.dlsch, capacity) && EightEach(t.ulsch) }

  /** One pass of the loop: each kind of block goes to its own table. */
  ghost function AcceptBlock(t: Tables, capacity: nat, second: nat, c: seq<byte>, frame: nat, subframe: nat): (r: Tables)
    requires AreTables(t, capacity) && subframe < 10
    ensures AreTables(r, capacity) && |r.dlsch| == |t.dlsch| && |r.ulsch| == |t.ulsch| && |r.uci| == |t.uci|
  {
    Tables(Accept(t.dlsch, capacity, 10 * (frame % 2) + subframe, second, c),
           Config.AcceptUl(t.ulsch, second, c, frame, subframe), Config.AcceptCch(t.uci, second, c))
  }

  ghost function ReplayAll(t: Tables, capacity: nat, second: nat, cs: seq<seq<byte>>, frame: nat, subframe: nat): (r: Tables)
    requires AreTables(t, capacity) && subframe < 10
    ensures AreTables(r, capacity) && |r.dlsch| == |t.dlsch| && |r.ulsch| == |t.ulsch| && |r.uci| == |t.uci|
  {
    if cs == [] then t
    else
      var n := |cs| - 1;
      AcceptBlock(ReplayAll(t, capacity, second, cs[..n], frame, subframe), capacity, second, cs[n], frame, subframe)
  }

  /** The tables do not depend on each other. */
  lemma {:induction false} ReplayParts(t: Tables, capacity: nat, second: nat, cs: seq<seq<byte>>, frame: nat, subframe: nat)
    requires AreTables(t, capacity) && subframe < 10
    ensures var r := ReplayAll(t, capacity, second, cs, frame, subframe);
            && r.dlsch == Replay(t.dlsch, capacity, 10 * (frame % 2) + subframe, second, cs)
            && r.ulsch == ReplayUl(t.ulsch, second, cs, frame, subframe) && r.uci == ReplayCch(t.uci, second, cs)
  {
    if cs != [] {
      ReplayParts(t, capacity, second, cs[..|cs| - 1], frame, subframe);
    }
  }

  // What configuration blocks do to their tables.

  /** The block orders this decode, or is of another kind. */
  ghost predicate Orders(d: seq<Config.Ulsch>, second: nat, c: seq<byte>, order: Option<Config.UlConfig>) {
    match order
    case Some(u) => Config.IsUlContent(c, second, u) && u.ueId < |d| && u.harqPid < |d[u.ueId].harqs|
    case None => !Config.IsUl(c, second)
  }

  /** All orders for a UE are the same. */
  ghost predicate OrdersAgree(orders: seq<Option<Config.UlConfig>>) {
    forall i, j :: 0 <= i < j < |orders| && orders[i].Some? && orders[j].Some? ==>
      orders[i].value.ueId == orders[j].value.ueId ==> orders[i] == orders[j]
  }

  /** The entry after an order. */
  function Ordered(x: Config.Ulsch, u: Config.UlConfig, frame: nat, subframe: nat): Config.Ulsch
    requires u.harqPid < |x.harqs|
  {
    Config.Ulsch(u.common, x.harqs[u.harqPid := Config.UlHarq(u.harq, frame, subframe, false)])
  }

  /** UEs without an order keep their entry. */
  lemma {:induction false} UnorderedIsKept(d: seq<Config.Ulsch>, second: nat, cs: seq<seq<byte>>, orders: seq<Option<Config.UlConfig>>,
          frame: nat, subframe: nat, ue: nat)
    requires |cs| == |orders| && ue < |d| && EightEach(d)
    requires forall i :: 0 <= i < |cs| ==> Orders(d, second, cs[i], orders[i])
    requires forall i :: 0 <= i < |cs| && orders[i].Some? ==> orders[i].value.ueId != ue
    ensures EightEach(ReplayUl(d, second, cs, frame, subframe)) && ReplayUl(d, second, cs, frame, subframe)[ue] == d[ue]
  {
    if cs != [] {
      var n := |cs| - 1;
      UnorderedIsKept(d, second, cs[..n], orders[..n], frame, subframe, ue);
      var r := ReplayUl(d, second, cs[..n], frame, subframe);
      assert Orders(d, second, cs[n], orders[n]);
      if orders[n].Some? {
        Config.UlConfigArrives(r, second, cs[n], orders[n].value, frame, subframe);
      }
    }
  }

  /** An order is carried out, and a repeated one changes nothing more. */
  lemma OrderAgain(r: seq<Config.Ulsch>, x: Config.Ulsch, second: nat, c: seq<byte>, u: Config.UlConfig, frame: nat, subframe: nat)
    requires Config.IsUlContent(c, second, u) && u.ueId < |r| && u.harqPid < |x.harqs| && EightEach(r)
    requires r[u.ueId] == x || r[u.ueId] == Ordered(x, u, frame, subframe)
    ensures Config.AcceptUl(r, second, c, frame, subframe)[u.ueId] == Ordered(x, u, frame, subframe)
    ensures forall ue :: 0 <= ue < |r| && ue != u.ueId ==> Config.AcceptUl(r, second, c, frame, subframe)[ue] == r[ue]
  {
    Config.UlConfigArrives(r, second, c, u, frame, subframe);
  }

  lemma {:induction false} StillEight(d: seq<Config.Ulsch>, second: nat, cs: seq<seq<byte>>, frame: nat, subframe: nat)
    requires EightEach(d)
    ensures EightEach(ReplayUl(d, second, cs, frame, subframe))
  {
    if cs != [] {
      StillEight(d, second, cs[..|cs| - 1], frame, subframe);
    }
  }

  /** Before the only order for its UE, the UE's entry is as it was. */
  lemma NotYetOrdered(d: seq<Config.Ulsch>, second: nat, cs: seq<seq<byte>>, orders: seq<Option<Config.UlConfig>>,
          frame: nat, subframe: nat)
    requires cs != [] && |cs| == |orders| && EightEach(d) && OrdersAgree(orders)
    requires forall i :: 0 <= i < |cs| ==> Orders(d, second, cs[i], orders[i])
    requires orders[|cs| - 1].Some? && orders[|cs| - 1] !in orders[..|cs| - 1]
    ensures var n := |cs| - 1; var ue := orders[n].value.ueId;
            ue < |d| && ReplayUl(d, second, cs[..n], frame, subframe)[ue] == d[ue]
  {
    var n := |cs| - 1;
    var before, ue := orders[..n], orders[n].value.ueId;
    assert Orders(d, second, cs[n], orders[n]);
    forall i | 0 <= i < n && before[i].Some?
      ensures before[i].value.ueId != ue
    {
      assert before[i] in before;
    }
    UnorderedIsKept(d, second, cs[..n], before, frame, subframe, ue);
  }

  predicate IsKnown(d: seq<Config.Ulsch>, u: Config.UlConfig) { u.ueId < |d| && u.harqPid < |d[u.ueId].harqs| }

  lemma OrderIsKnown(d: seq<Config.Ulsch>, second: nat, c: seq<byte>, u: Config.UlConfig)
    requires Orders(d, second, c, Some(u))
    ensures IsKnown(d, u)
  {
  }

  /** The last block: the order, another UE's, or of another kind. */
  lemma LastOrder(r: seq<Config.Ulsch>, d: seq<Config.Ulsch>, second: nat, c: seq<byte>, order: Option<Config.UlConfig>,
          u: Config.UlConfig, frame: nat, subframe: nat)
    requires |r| == |d| && EightEach(r) && EightEach(d) && Orders(d, second, c, order) && IsKnown(d, u)
    requires order.Some? && order.value.ueId == u.ueId ==> order.value == u
    requires r[u.ueId] == Ordered(d[u.ueId], u, frame, subframe) || (order == Some(u) && r[u.ueId] == d[u.ueId])
    ensures Config.AcceptUl(r, second, c, frame, subframe)[u.ueId] == Ordered(d[u.ueId], u, frame, subframe)
  {
    if order == Some(u) {
      OrderAgain(r, d[u.ueId], second, c, u, frame, subframe);
    } else if order.Some? {
      Config.UlConfigArrives(r, second, c, order.value, frame, subframe);
    }
  }

  /** Every decode the CU ordered, once or more and in any order, is in the DU's table, due in this
      subframe and not handled; the UE's other processes are untouched. */
  lemma {:induction false} OrdersArrive(d: seq<Config.Ulsch>, second: nat, cs: seq<seq<byte>>, orders: seq<Option<Config.UlConfig>>,
          frame: nat, subframe: nat, k: nat)
    requires |cs| == |orders| && EightEach(d) && OrdersAgree(orders) && k < |cs| && orders[k].Some?
    requires forall i :: 0 <= i < |cs| ==> Orders(d, second, cs[i], orders[i])
    ensures var u := orders[k].value;
            IsKnown(d, u) && ReplayUl(d, second, cs, frame, subframe)[u.ueId] == Ordered(d[u.ueId], u, frame, subframe)
    decreases |cs|
  {
    var n, u := |cs| - 1, orders[k].value;
    OrderIsKnown(d, second, cs[k], u);
    var r, before := ReplayUl(d, second, cs[..n], frame, subframe), orders[..n];
    StillEight(d, second, cs[..n], frame, subframe);
    if orders[k] in before {
      var j :| 0 <= j < n && before[j] == orders[k];
      OrdersArrive(d, second, cs[..n], before, frame, subframe, j);
    } else {
      NotYetOrdered(d, second, cs, orders, frame, subframe);
    }
    LastOrder(r, d, second, cs[n], orders[n], u, frame, subframe);
  }

  /** With one list of control channels among the blocks, that list decides. */
  lemma {:induction false} OneCchList(d: seq<nat>, second: nat, cs: seq<seq<byte>>, k: nat)
    requires k < |cs| && forall i :: 0 <= i < |cs| && i != k ==> !Config.IsCch(cs[i], second)
    ensures ReplayCch(d, second, cs) == Config.AcceptCch(d, second, cs[k])
    decreases |cs|
  {
    var n := |cs| - 1;
    if k < n {
      OneCchList(d, second, cs[..n], k);
    } else {
      NoCchList(d, second, cs[..n]);
    }
  }

  lemma {:induction false} NoCchList(d: seq<nat>, second: nat, cs: seq<seq<byte>>)
    requires forall i :: 0 <= i < |cs| ==> !Config.IsCch(cs[i], second)
    ensures ReplayCch(d, second, cs) == d
  {
    if cs != [] {
      NoCchList(d, second, cs[..|cs| - 1]);
    }
  }

  /** The tables have room for what a block names. */
  ghost predicate Understood(t: Tables, capacity: nat, second: nat, c: seq<byte>) {
    && (IsDl(c, second) ==> Takes(t.dlsch, capacity, second, c))
    && (Config.IsUl(c, second) ==> Config.TakesUl(t.ulsch, second, c))
    && (Config.IsCch(c, second) ==> Config.TakesCch(t.uci, second, c))
  }

  /** What blocks name is looked up in tables that keep their sizes. */
  lemma StillUnderstood(t: Tables, t': Tables, capacity: nat, second: nat, c: seq<byte>)
    requires Understood(t, capacity, second, c) && EightEach(t.ulsch) && EightEach(t'.ulsch)
    requires |t'.dlsch| == |t.dlsch| && |t'.ulsch| == |t.ulsch| && |t'.uci| == |t.uci|
    ensures Understood(t', capacity, second, c)
  {
  }

  class Du {
    var dlsch: seq<Dlsch>
    var ulsch: seq<Config.Ulsch>
    var uciVars: seq<nat>
    var common: Header.Common
    ghost const capacity: nat

    ghost function View(): Tables
      reads this
    {
      Tables(dlsch, ulsch, uciVars)
    }

    ghost predicate Valid()
      reads this
    {
      AreTables(View(), capacity) && common.Valid()
    }

    constructor (dlsch: seq<Dlsch>, ulsch: seq<Config.Ulsch>, uciVars: seq<nat>, common: Header.Common, ghost capacity: nat)
      requires IsTable(dlsch, capacity) && EightEach(ulsch) && common.Valid()
      ensures Valid() && this.dlsch == dlsch && this.ulsch == ulsch && this.uciVars == uciVars && this.common == common
      ensures this.capacity == capacity
    {
      this.dlsch, this.ulsch, this.uciVars, this.common := dlsch, ulsch, uciVars, common;
      this.capacity := capacity;
    }

    /** The reads of the second header in phy_procedures_eNB_TX_fromsplit. A header that counts more
        than 8 entries sends the loop behind its list: it is refused here. */
    method ReadHeader(buf: array<byte>, subframe: nat) returns (ok: bool)
      requires Valid() && HEADER + Header.SECOND <= buf.Length
      modifies this`common
      ensures Valid() && (ok <==> Header.NumDci(buf[HEADER..HEADER + Header.SECOND]) <= Header.DCI_MAX)
      ensures ok ==> common == Header.TakeHeader(old(common), subframe % 2, buf[HEADER..HEADER + Header.SECOND])
      ensures ok ==> Header.KeepsRest(old(common), common, subframe % 2, buf[HEADER..HEADER + Header.SECOND])
      ensures !ok ==> common == old(common)
    {
      var s := buf[HEADER..HEADER + Header.SECOND];
      var k := subframe % 2;
      ok := Header.NumDci(s) <= Header.DCI_MAX;
      if !ok {
        return;
      }
      var numDci := if Header.NumDci(s) < 0 then 0 else Header.NumDci(s);
      var dcis := common.pdcch[k].dcis;
      for i := 0 to numDci
        invariant |dcis| == 32 && numDci <= Header.DCI_MAX
        invariant forall j :: 0 <= j < 32 ==> dcis[j] == if j < i then Header.DciAt(s, j) else old(common).pdcch[k].dcis[j]
      {
        dcis := dcis[i := Header.DciAt(s, i)];
      }
      assert dcis == Header.CopyDcis(old(common).pdcch[k].dcis, s);
      var r := Header.ReadOf(s);
      common := common.(pbch := r.pbch, amp := r.amp, phich := common.phich[k := r.phich],
                        pdcch := common.pdcch[k := Header.Pdcch(r.symbols % 256, r.numDci % 256, dcis)],
                        numMdci := common.numMdci[k := r.numMdci % 256]);
      Header.RestIsKept(old(common), k, s);
    }

    /** The clearing loop of phy_procedures_eNB_TX_fromsplit. */
    method RemoveScheduled()
      requires Valid()
      modifies this`dlsch
      ensures Valid() && dlsch == Clear(old(dlsch))
      ensures forall ue :: 0 <= ue < |dlsch| ==> IsCleared(old(dlsch)[ue], dlsch[ue])
    {
      for ue := 0 to |dlsch|
        invariant |dlsch| == |old(dlsch)|
        invariant forall k :: 0 <= k < ue ==> dlsch[k] == Clear(old(dlsch))[k]
        invariant forall k :: ue <= k < |dlsch| ==> dlsch[k] == old(dlsch)[k]
      {
        if 0 < dlsch[ue].rnti {
          dlsch := dlsch[ue := dlsch[ue].(active := false)];
        }
      }
    }

    /** rcvFs6DL: walk the received blocks. */
    method RcvFs6DL(buf: array<byte>, second: nat, nbBlocks: nat, frame: nat, subframe: nat, ghost ps: seq<seq<byte>>)
      requires Valid() && subframe < 10 && Holds(buf[..], ps) && nbBlocks == |ps|
      requires forall i :: 0 <= i < |ps| ==> Understood(View(), capacity, second, ContentOf(ps[i]))
      modifies this`dlsch, this`ulsch, this`uciVars
      ensures Valid() && View() == ReplayAll(old(View()), capacity, second, Contents(ps), frame, subframe)
    {
      var bufPtr := 0;
      ghost var cs, t := Contents(ps), View();
      for i := 0 to nbBlocks
        invariant Valid() && bufPtr == |Join(ps[..i])|
        invariant View() == ReplayAll(t, capacity, second, cs[..i], frame, subframe)
      {
        PacketAt(buf[..], ps, i);
        var c, next := ContentAt(buf, bufPtr, ps[i]);
        assert cs[..i + 1][..i] == cs[..i];
        StillUnderstood(t, View(), capacity, second, c);
        TakeBlock(c, second, frame, subframe);
        bufPtr := next;
      }
      assert cs[..nbBlocks] == cs;
    }

    /** The body of the loop, on one block content. */
    method TakeBlock(c: seq<byte>, second: nat, frame: nat, subframe: nat)
      requires Valid() && subframe < 10 && Understood(View(), capacity, second, c)
      modifies this`dlsch, this`ulsch, this`uciVars
      ensures Valid() && View() == AcceptBlock(old(View()), capacity, second, c, frame, subframe)
    {
      if second < |c| {
        if c[second] == DL_CONFIG {
          TakeUe(c, second, 10 * (frame % 2) + subframe);
        } else if c[second] == Config.UL_CONFIG {
          TakeUl(c, second, frame, subframe);
        } else if c[second] == Config.CCH_CONFIG {
          TakeCch(c, second);
        }
      }
    }

    method TakeUe(c: seq<byte>, second: nat, key: nat)
      requires Valid() && key < 20 && IsDl(c, second) && Takes(dlsch, capacity, second, c)
      modifies this`dlsch
      ensures Valid() && dlsch == Accept(old(dlsch), capacity, key, second, c)
    {
      var u := Decode(c, second);
      var x := dlsch[u.ueId];
      var h := x.harqs[u.harqPid];
      var eDL := new byte[|h.eDL|](i requires 0 <= i < |h.eDL| => h.eDL[i]);
      assert eDL[..] == h.eDL;
      Fs6DlUnpack(eDL, c[second + SIZE..], u.dataLen);
      h := Harq(u.nbRb, u.rbAlloc, u.qm, u.nl, u.pdschStart, eDL[..]);
      x := Dlsch(true, u.rnti, u.rhoA, u.rhoB, u.i0, u.sib1, x.harqIds[key := u.harqPid], x.harqs[u.harqPid := h]);
      dlsch := dlsch[u.ueId := x];
    }

    /** fs6UlConfig. */
    method TakeUl(c: seq<byte>, second: nat, frame: nat, subframe: nat)
      requires Valid() && Config.IsUl(c, second) && Config.TakesUl(ulsch, second, c)
      modifies this`ulsch
      ensures Valid() && |ulsch| == |old(ulsch)|
      ensures ulsch == Config.AcceptUl(old(ulsch), second, c, frame, subframe)
    {
      var nbUe := (|c| - second) / Config.ULSCHED_SIZE;
      for i := 0 to nbUe
        invariant Valid() && |ulsch| == |old(ulsch)|
        invariant ulsch == if i == 0 then old(ulsch) else Config.AcceptUl(old(ulsch), second, c, frame, subframe)
      {
        var u := Config.DecodeUl(c, second);
        ghost var once := Config.AcceptUl(old(ulsch), second, c, frame, subframe);
        assert once[u.ueId].harqs[u.harqPid := once[u.ueId].harqs[u.harqPid]] == once[u.ueId].harqs;
        assert once[u.ueId := once[u.ueId]] == once;
        var harqs := ulsch[u.ueId].harqs[u.harqPid := Config.UlHarq(u.harq, frame, subframe, false)];
        ulsch := ulsch[u.ueId := Config.Ulsch(u.common, harqs)];
      }
    }

    /** fs6ULConfigCCH. */
    method TakeCch(c: seq<byte>, second: nat)
      requires Config.IsCch(c, second) && Config.TakesCch(uciVars, second, c)
      modifies this`uciVars
      ensures uciVars == Config.AcceptCch(old(uciVars), second, c)
    {
      var n := Config.CchCount(c, second);
      for i := 0 to n
        invariant |uciVars| == |old(uciVars)|
        invariant uciVars == if i == 0 then old(uciVars) else Config.AcceptCch(old(uciVars), second, c)
      {
        uciVars := uciVars[Get(c, second + 4, 2) := Get(c, second + 8, Config.UCI_BYTES)];
      }
    }
  }
}
