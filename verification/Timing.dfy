/** Frame and subframe numbers from a sample timestamp, and the DU's way back from the CU's
    transmit timestamp. */
module Timing {
  import Arith

  const U64: nat := 0x1_0000_0000_0000_0000

  /** L1_rxtx_proc_t, the fields setAllfromTS assigns. */
  datatype Proc = Proc(
    timestampRx: nat, timestampTx: nat, subframeRx: nat, subframePrach: nat, subframePrachBr: nat, frameRx: nat,
    framePrach: nat, framePrachBr: nat, frameTx: nat, subframeTx: nat)

  /** TTIs since timestamp 0; 10240 of them are a hyper period of 1024 frames. */
  function Tti(ts: nat, spt: nat): nat
    requires 0 < spt
  {
    ts / spt
  }

  /** Frame and subframe of a timestamp, as one number. */
  function Number(frame: nat, subframe: nat): nat { frame * 10 + subframe }

  function FrameOf(ts: nat, spt: nat): nat
    requires 0 < spt
  {
    ts / (spt * 10) % 1024
  }

  function SubframeOf(ts: nat, spt: nat): nat
    requires 0 < spt
  {
    ts / spt % 10
  }

  /** The assignments for one component carrier. uint64 sums wrap. */
  function FromTs(ts: nat, sfAhead: nat, spt: nat): Proc
    requires 0 < spt
  {
    var tx := (ts + sfAhead * spt) % U64;
    Proc(ts, tx, SubframeOf(ts, spt), SubframeOf(ts, spt), SubframeOf(ts, spt), FrameOf(ts, spt), FrameOf(ts, spt),
         FrameOf(ts, spt), FrameOf(tx, spt), SubframeOf(tx, spt))
  }

  lemma DivTwice(ts: nat, spt: nat)
    requires 0 < spt
    ensures ts / (spt * 10) == ts / spt / 10
  {
    var q, r := ts / spt, ts % spt;
    assert ts == q * spt + r;
    TwoDigits(q, spt, r);
    Arith.DivModUnique(ts, spt * 10, q / 10, q % 10 * spt + r);
  }

  lemma TwoDigits(q: nat, spt: nat, r: nat)
    requires r < spt
    ensures q * spt + r == q / 10 * (spt * 10) + (q % 10 * spt + r)
    ensures q % 10 * spt + r < spt * 10
  {
    var a, b := q / 10, q % 10;
    assert q == a * 10 + b;
    Arith.TimesIsProduct(b, spt);
    assert b * spt <= 9 * spt;
    calc {
      q * spt;
      (a * 10 + b) * spt;
      (a * 10) * spt + b * spt;
      a * (spt * 10) + b * spt;
    }
  }

  lemma NumberOfTti(t: nat)
    ensures Number(t / 10 % 1024, t % 10) == t % 10240
  {
  }

  /** The two numbers are the digits of the TTI number modulo the hyper period. */
  lemma FrameAndSubframe(ts: nat, spt: nat)
    requires 0 < spt
    ensures Number(FrameOf(ts, spt), SubframeOf(ts, spt)) == Tti(ts, spt) % 10240
  {
    DivTwice(ts, spt);
    NumberOfTti(ts / spt);
  }

  /** Reception and both kinds of PRACH are in the TTI of the timestamp, transmission in the TTI of the
      transmit timestamp. */
  ghost predicate IsTimed(p: Proc, ts: nat, sfAhead: nat, spt: nat)
    requires 0 < spt
  {
    && p.timestampRx == ts && p.timestampTx == (ts + sfAhead * spt) % U64
    && Number(p.frameRx, p.subframeRx) == Tti(ts, spt) % 10240
    && Number(p.framePrach, p.subframePrach) == Tti(ts, spt) % 10240
    && Number(p.framePrachBr, p.subframePrachBr) == Tti(ts, spt) % 10240
    && Number(p.frameTx, p.subframeTx) == Tti(p.timestampTx, spt) % 10240
    && p.frameRx < 1024 && p.framePrach < 1024 && p.framePrachBr < 1024 && p.frameTx < 1024
    && p.subframeRx < 10 && p.subframePrach < 10 && p.subframePrachBr < 10 && p.subframeTx < 10
  }

  lemma AllAreTimed(ts: nat, sfAhead: nat, spt: nat)
    requires 0 < spt
    ensures IsTimed(FromTs(ts, sfAhead, spt), ts, sfAhead, spt)
  {
    FrameAndSubframe(ts, spt);
    FrameAndSubframe((ts + sfAhead * spt) % U64, spt);
  }

  /** The numbers leave no choice. */
  lemma TimedIsUnique(p: Proc, q: Proc, ts: nat, sfAhead: nat, spt: nat)
    requires 0 < spt && IsTimed(p, ts, sfAhead, spt) && IsTimed(q, ts, sfAhead, spt)
    ensures p == q
  {
    NumberIsUnique(p.frameRx, p.subframeRx, q.frameRx, q.subframeRx);
    NumberIsUnique(p.framePrach, p.subframePrach, q.framePrach, q.subframePrach);
    NumberIsUnique(p.framePrachBr, p.subframePrachBr, q.framePrachBr, q.subframePrachBr);
    NumberIsUnique(p.frameTx, p.subframeTx, q.frameTx, q.subframeTx);
  }

  lemma NumberIsUnique(f: nat, s: nat, f': nat, s': nat)
    requires s < 10 && s' < 10 && Number(f, s) == Number(f', s')
    ensures f == f' && s == s'
  {
  }

  lemma TtiShift(ts: nat, k: nat, spt: nat)
    requires 0 < spt
    ensures Tti(ts + k * spt, spt) == Tti(ts, spt) + k
  {
    var q, r := ts / spt, ts % spt;
    assert ts + k * spt == (q + k) * spt + r;
    Arith.DivModUnique(ts + k * spt, spt, q + k, r);
  }

  lemma Advance(t: nat, k: nat, n: nat, n': nat)
    requires n == t % 10240 && n' == (t + k) % 10240
    ensures n' == (n + k) % 10240
  {
  }

  /** k TTIs later the number is k further on, modulo the hyper period; so one TTI advances it by
      one, and transmission leads reception by sf_ahead. */
  lemma NumberAdvances(ts: nat, k: nat, spt: nat)
    requires 0 < spt
    ensures var ts' := ts + k * spt;
            Number(FrameOf(ts', spt), SubframeOf(ts', spt)) == (Number(FrameOf(ts, spt), SubframeOf(ts, spt)) + k) % 10240
  {
    FrameAndSubframe(ts, spt);
    FrameAndSubframe(ts + k * spt, spt);
    TtiShift(ts, k, spt);
    var ts' := ts + k * spt;
    Advance(Tti(ts, spt), k, Number(FrameOf(ts, spt), SubframeOf(ts, spt)), Number(FrameOf(ts', spt), SubframeOf(ts', spt)));
  }

  lemma TxLeadsRx(ts: nat, sfAhead: nat, spt: nat)
    requires 0 < spt && ts + sfAhead * spt < U64
    ensures var p := FromTs(ts, sfAhead, spt);
            Number(p.frameTx, p.subframeTx) == (Number(p.frameRx, p.subframeRx) + sfAhead) % 10240
  {
    NoWrap(ts + sfAhead * spt);
    NumberAdvances(ts, sfAhead, spt);
  }

  lemma NoWrap(sum: nat)
    requires sum < U64
    ensures sum % U64 == sum
  {
  }

  /** The TTIs that a wrap of the timestamp takes away. */
  function Skipped(ts: nat, spt: nat): nat
    requires 0 < spt
  {
    U64 / spt + if ts % spt < U64 % spt then 1 else 0
  }

  lemma TtiBeforeWrap(sum: nat, spt: nat)
    requires 0 < spt && U64 <= sum
    ensures Tti(sum, spt) == Tti(sum - U64, spt) + Skipped(sum, spt)
  {
    var q, r, uq, ur := sum / spt, sum % spt, U64 / spt, U64 % spt;
    assert sum == q * spt + r && U64 == uq * spt + ur;
    if r < ur {
      assert sum - U64 == (q - uq - 1) * spt + (r - ur + spt);
      Arith.DivModUnique(sum - U64, spt, q - uq - 1, r - ur + spt);
    } else {
      assert sum - U64 == (q - uq) * spt + (r - ur);
      Arith.DivModUnique(sum - U64, spt, q - uq, r - ur);
    }
  }

  lemma SamePhase(ts: nat, k: nat, spt: nat)
    requires 0 < spt
    ensures (ts + k * spt) % spt == ts % spt
  {
    Arith.DivModUnique(ts + k * spt, spt, ts / spt + k, ts % spt);
  }

  lemma SkipShows(t: nat, skipped: nat)
    ensures t % 10240 == (t + skipped) % 10240 <==> skipped % 10240 == 0
  {
  }

  lemma WrappedNumber(ts: nat, sfAhead: nat, spt: nat)
    requires 0 < spt && ts < U64 <= ts + sfAhead * spt < 2 * U64
    ensures var p, sum := FromTs(ts, sfAhead, spt), ts + sfAhead * spt;
            Number(p.frameTx, p.subframeTx) == Tti(sum - U64, spt) % 10240
  {
    var sum := ts + sfAhead * spt;
    assert sum % U64 == sum - U64;
    FrameAndSubframe(sum - U64, spt);
  }

  lemma ExpectedNumber(ts: nat, sfAhead: nat, spt: nat)
    requires 0 < spt
    ensures (Number(FrameOf(ts, spt), SubframeOf(ts, spt)) + sfAhead) % 10240 == Tti(ts + sfAhead * spt, spt) % 10240
  {
    NumberAdvances(ts, sfAhead, spt);
    FrameAndSubframe(ts + sfAhead * spt, spt);
  }

  /** Transmission leads reception by sf_ahead if and only if the 64-bit sum does not wrap, or the TTIs
      lost in the wrap are a multiple of the hyper period. */
  lemma TxLeadsRxIff(ts: nat, sfAhead: nat, spt: nat)
    requires 0 < spt && ts < U64 && ts + sfAhead * spt < 2 * U64
    ensures var p := FromTs(ts, sfAhead, spt);
            Number(p.frameTx, p.subframeTx) == (Number(p.frameRx, p.subframeRx) + sfAhead) % 10240 <==>
            ts + sfAhead * spt < U64 || Skipped(ts, spt) % 10240 == 0
  {
    var sum := ts + sfAhead * spt;
    if sum < U64 {
      TxLeadsRx(ts, sfAhead, spt);
    } else {
      WrappedNumber(ts, sfAhead, spt);
      ExpectedNumber(ts, sfAhead, spt);
      TtiBeforeWrap(sum, spt);
      SamePhase(ts, sfAhead, spt);
      SkipShows(Tti(sum - U64, spt), Skipped(ts, spt));
    }
  }

  /** Samples per TTI of the LTE bandwidths of 6, 15, 25, 50, 75 and 100 resource blocks. */
  predicate IsLte(spt: nat) { spt in {1920, 3840, 7680, 15360, 23040, 30720} }

  /** For LTE a wrap always shows: the lead is right if and only if the sum does not wrap. */
  lemma LteLeadIff(ts: nat, sfAhead: nat, spt: nat)
    requires IsLte(spt) && ts < U64 && ts + sfAhead * spt < 2 * U64
    ensures var p := FromTs(ts, sfAhead, spt);
            Number(p.frameTx, p.subframeTx) == (Number(p.frameRx, p.subframeRx) + sfAhead) % 10240 <==>
            ts + sfAhead * spt < U64
  {
    TxLeadsRxIff(ts, sfAhead, spt);
    LteSkips(ts, spt);
  }

  lemma LteSkips(ts: nat, spt: nat)
    requires IsLte(spt)
    ensures Skipped(ts, spt) % 10240 != 0
  {
    assert U64 / 1920 % 10240 == 8738 && U64 / 3840 % 10240 == 4369 && U64 / 7680 % 10240 == 2184;
    assert U64 / 15360 % 10240 == 1092 && U64 / 23040 % 10240 == 7554 && U64 / 30720 % 10240 == 546;
  }

  /** The DU derives all numbers of a subframe from the CU's transmit timestamp, wrap or not. */
  lemma DuRederivesAll(ts: nat, sfAhead: nat, spt: nat)
    requires 0 < spt && ts < U64
    ensures var cu := FromTs(ts, sfAhead, spt);
            FromTs((cu.timestampTx - sfAhead * spt) % U64, sfAhead, spt) == cu
  {
    var lead := sfAhead * spt;
    var sum := ts + lead;
    var tx := sum % U64;
    assert sum == sum / U64 * U64 + tx;
    assert tx - lead == ts - sum / U64 * U64;
    Arith.DivModUnique(tx - lead, U64, -(sum / U64), ts);
  }

  /** The proc fields. */
  class L1RxtxProc {
    var fields: Proc

    constructor ()
    {
      fields := Proc(0, 0, 0, 0, 0, 0, 0, 0, 0, 0);
    }

    /** setAllfromTS over the carriers' samples per TTI: every carrier assigns the same object, so
        the last one stands. */
    method SetAllFromTs(ts: nat, sfAhead: nat, carriers: seq<nat>)
      requires forall i :: 0 <= i < |carriers| ==> 0 < carriers[i]
      modifies this
      ensures carriers != [] ==> fields == FromTs(ts, sfAhead, carriers[|carriers| - 1])
      ensures carriers != [] ==> IsTimed(fields, ts, sfAhead, carriers[|carriers| - 1])
      ensures carriers == [] ==> fields == old(fields)
    {
      for i := 0 to |carriers|
        invariant i == 0 ==> fields == old(fields)
        invariant i > 0 ==> fields == FromTs(ts, sfAhead, carriers[i - 1])
      {
        var spt := carriers[i];
        var tx := (ts + sfAhead * spt) % U64;
        fields := fields.(timestampRx := ts, timestampTx := tx);
        fields := fields.(subframeRx := ts / spt % 10, subframePrach := ts / spt % 10, subframePrachBr := ts / spt % 10);
        fields := fields.(frameRx := ts / (spt * 10) % 1024, framePrach := ts / (spt * 10) % 1024);
        fields := fields.(framePrachBr := ts / (spt * 10) % 1024);
        fields := fields.(frameTx := tx / (spt * 10) % 1024, subframeTx := tx / spt % 10);
      }
      if carriers != [] {
        AllAreTimed(ts, sfAhead, carriers[|carriers| - 1]);
      }
    }
  }
}
