/** Code segments of one uplink transport block: the DU sends each with the offset it has among
    the soft bits, the CU ends up with the DU's soft bits. */
module Fs6Segments {
  import opened Bytes
  import opened Fs6Zone
  import opened Fs6Uplink

  /** What ulsch_decoding_data reads of the HARQ process: G coded bits, Qm bits a symbol, C code
      segments; the other fields travel with every segment. */
  datatype Block = Block(
    ueId: nat, harqId: nat, g: nat, qm: nat, c: nat, power: (nat, nat), oAck: nat, bigOAck: nat, ta: nat, o: nat,
    cqiCrc: nat)
  {
    predicate Valid() { 0 < qm && 0 < c }
  }

  /** Soft bits of segment r, in modulation symbols. */
  function Symbols(b: Block, r: nat): nat
    requires b.Valid()
  {
    var gp := b.g / b.qm;
    if r < b.c - gp % b.c then gp / b.c else (if gp % b.c == 0 then 0 else 1) + gp / b.c
  }

  function E(b: Block, r: nat): nat
    requires b.Valid()
  {
    b.qm * Symbols(b, r)
  }

  /** The symbols are shared out evenly, the larger shares last. */
  lemma SharesAreEven(b: Block, i: nat, j: nat)
    requires b.Valid() && i <= j < b.c
    ensures Symbols(b, i) <= Symbols(b, j) <= Symbols(b, i) + 1
  {
  }

  /** r_offset when the loop reaches segment r. */
  function Offset(b: Block, r: nat): nat
    requires b.Valid()
  {
    if r == 0 then 0 else Offset(b, r - 1) + E(b, r - 1)
  }

  function SymbolOffset(b: Block, r: nat): nat
    requires b.Valid()
  {
    if r == 0 then 0 else SymbolOffset(b, r - 1) + Symbols(b, r - 1)
  }

  lemma {:induction false} OffsetInSymbols(b: Block, r: nat)
    requires b.Valid()
    ensures Offset(b, r) == b.qm * SymbolOffset(b, r)
  {
    if r > 0 {
      OffsetInSymbols(b, r - 1);
      Distribute(b.qm, SymbolOffset(b, r - 1), Symbols(b, r - 1));
    }
  }

  lemma Distribute(k: nat, x: nat, y: nat)
    ensures k * (x + y) == k * x + k * y
  {
  }

  lemma {:induction false} SymbolOffsetClosed(b: Block, r: nat)
    requires b.Valid() && r <= b.c
    ensures var gp := b.g / b.qm; var long := gp % b.c;
            SymbolOffset(b, r) == r * (gp / b.c) + if r <= b.c - long then 0 else r - (b.c - long)
  {
    if r > 0 {
      SymbolOffsetClosed(b, r - 1);
      var q := b.g / b.qm / b.c;
      assert r * q == (r - 1) * q + q;
    }
  }

  /** The segments use up the coded bits: all of them, but for a last incomplete symbol. */
  lemma SegmentsUseAllBits(b: Block)
    requires b.Valid()
    ensures Offset(b, b.c) == b.qm * (b.g / b.qm)
  {
    OffsetInSymbols(b, b.c);
    SymbolOffsetClosed(b, b.c);
  }

  lemma {:induction false} OffsetMonotone(b: Block, i: nat, j: nat)
    requires b.Valid() && i <= j
    ensures Offset(b, i) <= Offset(b, j)
    decreases j
  {
    if i < j {
      OffsetMonotone(b, i, j - 1);
    }
  }

  /** Every byte below an offset lies in one of the segments before it. */
  lemma {:induction false} SegmentOf(b: Block, n: nat, k: nat) returns (r: nat)
    requires b.Valid() && k < 2 * Offset(b, n)
    ensures r < n && 2 * Offset(b, r) <= k < 2 * Offset(b, r + 1)
    decreases n
  {
    if k < 2 * Offset(b, n - 1) {
      r := SegmentOf(b, n - 1, k);
    } else {
      r := n - 1;
    }
  }

  function SegmentAt(b: Block, eUL: seq<byte>, r: nat): Segment
    requires b.Valid() && 2 * Offset(b, r + 1) <= |eUL|
  {
    Segment(b.ueId, b.harqId, r, Offset(b, r), b.g, b.power, b.oAck, b.bigOAck, b.ta, b.o, b.cqiCrc,
            eUL[2 * Offset(b, r)..2 * Offset(b, r + 1)])
  }

  /** The segments of a transport block neither overlap nor contradict each other. */
  lemma SegmentsAreApart(b: Block, eUL: seq<byte>, i: nat, j: nat)
    requires b.Valid() && i < j < b.c && 2 * Offset(b, b.c) <= |eUL|
    ensures 2 * Offset(b, i + 1) <= |eUL| && 2 * Offset(b, j + 1) <= |eUL|
    ensures Apart(SegmentAt(b, eUL, i), SegmentAt(b, eUL, j)) && Agree(SegmentAt(b, eUL, i), SegmentAt(b, eUL, j))
  {
    OffsetMonotone(b, i + 1, j);
    OffsetMonotone(b, j + 1, b.c);
  }

  ghost predicate SegmentSent(b: Block, eUL: seq<byte>, r: nat, msgs: seq<Message>)
    requires b.Valid()
  {
    2 * Offset(b, r + 1) <= |eUL| && Seg(SegmentAt(b, eUL, r)) in msgs
  }

  /** All segments of the block are among the messages. */
  ghost predicate Sent(b: Block, eUL: seq<byte>, msgs: seq<Message>) {
    b.Valid() && forall r :: 0 <= r < b.c ==> SegmentSent(b, eUL, r, msgs)
  }

  /** Segment r is in its place. */
  ghost predicate Arrived(st: CuState, sh: Shape, b: Block, eUL: seq<byte>, r: nat)
    requires IsCu(st, sh) && b.Valid()
  {
    2 * Offset(b, r + 1) <= |eUL| && var s := SegmentAt(b, eUL, r); HasRoom(sh, s) && Delivered(st, sh, s)
  }

  lemma SoftByteArrives(st: CuState, sh: Shape, b: Block, eUL: seq<byte>, k: nat)
    requires IsCu(st, sh) && b.Valid() && 2 * Offset(b, b.c) <= |eUL| && k < 2 * Offset(b, b.c)
    requires forall r :: 0 <= r < b.c ==> Arrived(st, sh, b, eUL, r)
    ensures b.ueId < sh.ues && b.harqId < 8 && k < sh.capacity && st.ulsch[b.ueId][b.harqId].eUL[k] == eUL[k]
  {
    var r := SegmentOf(b, b.c, k);
    assert Arrived(st, sh, b, eUL, r);
    var s := SegmentAt(b, eUL, r);
    var e, at := st.ulsch[b.ueId][b.harqId].eUL, 2 * s.rOffset;
    assert e[k] == e[at..at + |s.data|][k - at] == s.data[k - at] == eUL[k];
  }

  /** The CU can decode the transport block: the DU's soft bits up to the last whole symbol and the
      parameters. */
  ghost predicate CanDecode(st: CuState, sh: Shape, b: Block, eUL: seq<byte>)
    requires IsCu(st, sh) && b.Valid() && b.ueId < sh.ues && b.harqId < 8
  {
    var n, h := 2 * (b.qm * (b.g / b.qm)), st.ulsch[b.ueId][b.harqId];
    && n <= |eUL| && n <= |h.eUL| && h.eUL[..n] == eUL[..n]
    && h.g == b.g && h.cqiCrc == b.cqiCrc && h.oAck == b.oAck && h.o == b.o
    && st.power[b.ueId] == b.power && st.ta[b.ueId] == b.ta
  }

  lemma ArrivedIsDecodable(st: CuState, sh: Shape, b: Block, eUL: seq<byte>)
    requires IsCu(st, sh) && b.Valid() && b.ueId < sh.ues && b.harqId < 8
    requires forall r :: 0 <= r < b.c ==> Arrived(st, sh, b, eUL, r)
    ensures CanDecode(st, sh, b, eUL)
  {
    SegmentsUseAllBits(b);
    assert Arrived(st, sh, b, eUL, 0) && Arrived(st, sh, b, eUL, b.c - 1);
    assert 2 * Offset(b, b.c) <= sh.capacity;
    forall k | 0 <= k < 2 * Offset(b, b.c)
      ensures st.ulsch[b.ueId][b.harqId].eUL[k] == eUL[k]
    {
      SoftByteArrives(st, sh, b, eUL, k);
    }
  }

  /** Whatever else was sent in the subframe and in whatever order the blocks came, the CU decodes
      the DU's soft bits. */
  lemma SoftBitsArrive(st: CuState, sh: Shape, cs: seq<seq<byte>>, msgs: seq<Message>, b: Block, eUL: seq<byte>)
    requires IsCu(st, sh) && AllStand(cs, sh, msgs) && AllTaken(cs, sh) && Disjoint(msgs) && Consistent(msgs)
    requires Sent(b, eUL, msgs) && b.ueId < sh.ues && b.harqId < 8
    ensures CanDecode(Replay(st, sh, cs), sh, b, eUL)
  {
    UplinkIsTransparent(st, sh, cs, msgs);
    forall r | 0 <= r < b.c
      ensures Arrived(Replay(st, sh, cs), sh, b, eUL, r)
    {
      assert SegmentSent(b, eUL, r, msgs);
      var i :| 0 <= i < |msgs| && msgs[i] == Seg(SegmentAt(b, eUL, r));
    }
    ArrivedIsDecodable(Replay(st, sh, cs), sh, b, eUL);
  }

  /** Room for the blocks of segments r and up. */
  function RoomFor(b: Block, r: nat): nat
    requires b.Valid()
    decreases b.c - r
  {
    if r >= b.c then 0 else Aligned(SECOND + SEG_SIZE + 2 * E(b, r)) + RoomFor(b, r + 1)
  }

  /** A segment that a block and the fields of its structure can hold. */
  ghost predicate CanSend(b: Block, eUL: seq<byte>, r: nat)
    requires b.Valid()
  {
    && SECOND + SEG_SIZE + 2 * E(b, r) < 65536 && 2 * Offset(b, r + 1) <= |eUL|
    && Fits(SEG_FIELDS, SegValues(SegmentAt(b, eUL, r)))
  }

  /** Segments r and up can be sent. */
  ghost predicate CanSendFrom(b: Block, eUL: seq<byte>, r: nat)
    requires b.Valid()
    decreases b.c - r
  {
    r >= b.c || (CanSend(b, eUL, r) && CanSendFrom(b, eUL, r + 1))
  }

  ghost predicate IsSegment(c: seq<byte>, b: Block, eUL: seq<byte>, r: nat)
    requires b.Valid()
  {
    2 * Offset(b, r + 1) <= |eUL| && IsSegContent(c, SegmentAt(b, eUL, r))
  }

  /** The blocks from n on are the first r segments. */
  ghost predicate HoldsSegments(cs: seq<seq<byte>>, n: nat, b: Block, eUL: seq<byte>, r: nat)
    requires b.Valid()
  {
    && |cs| == n + r
    && (r > 0 ==> IsSegment(cs[n + r - 1], b, eUL, r - 1) && HoldsSegments(cs[..n + r - 1], n, b, eUL, r - 1))
  }

  lemma {:induction false} SegmentHeld(cs: seq<seq<byte>>, n: nat, b: Block, eUL: seq<byte>, r: nat, i: nat)
    requires b.Valid() && HoldsSegments(cs, n, b, eUL, r) && i < r
    ensures IsSegment(cs[n + i], b, eUL, i)
    decreases r
  {
    if i < r - 1 {
      SegmentHeld(cs[..n + r - 1], n, b, eUL, r - 1, i);
    }
  }

  lemma SizeOfSegment(cs: seq<seq<byte>>, cs': seq<seq<byte>>, b: Block, eUL: seq<byte>, r: nat)
    requires b.Valid() && cs <= cs' && |cs'| == |cs| + 1 && IsSegment(cs'[|cs|], b, eUL, r)
    ensures SizeOf(cs') == SizeOf(cs) + Aligned(SECOND + SEG_SIZE + 2 * E(b, r))
  {
    assert cs'[..|cs|] == cs;
    assert Offset(b, r + 1) == Offset(b, r) + E(b, r);
  }

  /** The room that the blocks of the first r segments took. */
  lemma {:induction false} SizeOfSegments(cs: seq<seq<byte>>, n: nat, b: Block, eUL: seq<byte>, r: nat)
    requires b.Valid() && r <= b.c && HoldsSegments(cs, n, b, eUL, r)
    ensures SizeOf(cs) + RoomFor(b, r) == SizeOf(cs[..n]) + RoomFor(b, 0)
    decreases r
  {
    if r == 0 {
      assert cs[..n] == cs;
    } else {
      var less := cs[..n + r - 1];
      SizeOfSegments(less, n, b, eUL, r - 1);
      SizeOfSegment(less, cs, b, eUL, r - 1);
      assert less[..n] == cs[..n];
    }
  }

  /** One pass of the loop. */
  method SendSegment(zone: BufferZone, b: Block, eUL: array<byte>, r: nat, rOffset: nat) returns (e: nat)
    requires zone.Valid() && zone.Leads(SECOND) && eUL != zone.buf && b.Valid() && |zone.blocks| < 65535
    requires r < b.c && rOffset == Offset(b, r) && CanSend(b, eUL[..], r)
    requires SizeOf(zone.blocks) + Aligned(SECOND + SEG_SIZE + 2 * E(b, r)) <= zone.buf.Length
    modifies zone.buf, zone`blocks
    ensures e == E(b, r)
    ensures zone.Valid() && |zone.blocks| == |old(zone.blocks)| + 1 && old(zone.blocks) <= zone.blocks
    ensures IsSegment(zone.blocks[|old(zone.blocks)|], b, eUL[..], r)
    ensures zone.Leads(SECOND) && zone.Front(SECOND) == old(zone.Front(SECOND))
  {
    var gp := b.g / b.qm;
    var gpModC := gp % b.c;
    e := if r < b.c - gpModC then b.qm * (gp / b.c) else b.qm * ((if gpModC == 0 then 0 else 1) + gp / b.c);
    assert Offset(b, r + 1) == rOffset + e;
    var s := Segment(b.ueId, b.harqId, r, rOffset, b.g, b.power, b.oAck, b.bigOAck, b.ta, b.o, b.cqiCrc,
                     eUL[2 * rOffset..2 * (rOffset + e)]);
    assert s.data == eUL[..][2 * rOffset..2 * Offset(b, r + 1)];
    SendFs6Ul(zone, s);
  }

  /** The state of the loop before segment r: the blocks there were, then the segments so far, and
      room for the others. */
  ghost predicate Progress(zone: BufferZone, b: Block, eUL: seq<byte>, before: seq<seq<byte>>, r: nat)
    requires b.Valid()
    reads zone, zone.buf
  {
    && zone.Valid() && before <= zone.blocks && |before| + b.c < 65536 && CanSendFrom(b, eUL, r)
    && SizeOf(zone.blocks) + RoomFor(b, r) <= zone.buf.Length && HoldsSegments(zone.blocks, |before|, b, eUL, r)
    && zone.Leads(SECOND)
  }

  /** A pass keeps what the next one needs. */
  method NextSegment(zone: BufferZone, b: Block, eUL: array<byte>, r: nat, rOffset: nat, ghost before: seq<seq<byte>>)
    returns (next: nat)
    requires eUL != zone.buf && b.Valid() && r < b.c && rOffset == Offset(b, r) && Progress(zone, b, eUL[..], before, r)
    modifies zone.buf, zone`blocks
    ensures next == Offset(b, r + 1) && Progress(zone, b, eUL[..], before, r + 1)
    ensures zone.Front(SECOND) == old(zone.Front(SECOND))
  {
    ghost var blocks, soft := zone.blocks, eUL[..];
    var e := SendSegment(zone, b, eUL, r, rOffset);
    assert eUL[..] == soft;
    assert zone.blocks[..|before| + r] == blocks;
    SizeOfSegment(blocks, zone.blocks, b, soft, r);
    next := rOffset + e;
  }

  /** ulsch_decoding_data in a DU: one block a code segment. */
  method UlschDecodingData(zone: BufferZone, b: Block, eUL: array<byte>)
    requires zone.Valid() && zone.Leads(SECOND) && eUL != zone.buf && b.Valid() && |zone.blocks| + b.c < 65536
    requires SizeOf(zone.blocks) + RoomFor(b, 0) <= zone.buf.Length && CanSendFrom(b, eUL[..], 0)
    modifies zone.buf, zone`blocks
    ensures zone.Valid() && old(zone.blocks) <= zone.blocks
    ensures HoldsSegments(zone.blocks, |old(zone.blocks)|, b, eUL[..], b.c)
    ensures zone.Leads(SECOND) && zone.Front(SECOND) == old(zone.Front(SECOND))
  {
    var rOffset := 0;
    ghost var before := zone.blocks;
    for r := 0 to b.c
      invariant rOffset == Offset(b, r) && Progress(zone, b, eUL[..], before, r)
      invariant zone.Front(SECOND) == old(zone.Front(SECOND))
    {
      rOffset := NextSegment(zone, b, eUL, r, rOffset, before);
    }
  }
}
