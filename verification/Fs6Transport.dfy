/** sendSubFrame: one packet a block, grouped by timestamp. */
module Fs6Transport {
  import opened Bytes
  import opened Fs6Zone

  /** The group a packet belongs to, and the format it announces. */
  const STAMP: nat := 8

  function TsOf(p: seq<byte>): nat
    requires HEADER <= |p|
  {
    Get(p, 0, STAMP)
  }

  function TypeOf(p: seq<byte>): nat
    requires HEADER <= |p|
  {
    U16(p, CONTENT_TYPE)
  }

  function NbOf(p: seq<byte>): nat
    requires HEADER <= |p|
  {
    U16(p, NB_BLOCKS)
  }

  lemma SameStamp(m: seq<byte>, at: nat, m': seq<byte>, at': nat)
    requires at + STAMP <= |m| && at' + STAMP <= |m'| && m[at..at + STAMP] == m'[at'..at' + STAMP]
    ensures Get(m, at, STAMP) == Get(m', at', STAMP)
  {
    GetFrame(m, m', at, at', STAMP);
  }

  method ReadStamp(buf: array<byte>, at: nat) returns (ts: nat)
    requires at + STAMP <= buf.Length
    ensures ts == Get(buf[..], at, STAMP)
  {
    ts := GetInt(buf, at, STAMP);
  }

  // Sending.

  /** A packet carries block i of n. */
  ghost predicate PacketOf(p: seq<byte>, i: nat, n: nat, c: seq<byte>) {
    IsPacket(p) && ContentOf(p) == c && U16(p, NB_BLOCKS) == n && U16(p, BLOCK_ID) == i
  }

  /** A change of the group fields of block b's header, its number kept, keeps the chain. */
  lemma ChainRetyped(m: seq<byte>, m': seq<byte>, cs: seq<seq<byte>>, b: nat)
    requires |m'| == |m| && Chain(m, cs) && b < |cs|
    requires var at := SizeOf(cs[..b]);
             && (forall k :: 0 <= k < |m| && !(at <= k < at + CONTENT_BYTES) ==> m'[k] == m[k])
             && at + HEADER <= |m| && U16(m', at + BLOCK_ID) == b
    ensures Chain(m', cs)
  {
    forall i | 0 <= i < |cs|
      ensures InChain(m', cs, i)
    {
      assert InChain(m, cs, i);
      if i < b {
        SizeOfMonotone(cs, i, b);
        BlockFrame(m, m', SizeOf(cs[..i]), i, cs[i]);
      } else if b < i {
        SizeOfMonotone(cs, b, i);
        BlockFrame(m, m', SizeOf(cs[..i]), i, cs[i]);
      } else {
        var at := SizeOf(cs[..i]);
        assert m'[at + HEADER..at + HEADER + |cs[i]|] == m[at + HEADER..at + HEADER + |cs[i]|];
      }
    }
  }

  /** The header at an offset is of this group: timestamp, number of blocks, content type. */
  ghost predicate IsGroup(m: seq<byte>, at: nat, ts: nat, n: nat, ct: nat) {
    && at + HEADER <= |m| && Get(m, at, STAMP) == ts && U16(m, at + NB_BLOCKS) == n && U16(m, at + CONTENT_TYPE) == ct
  }

  /** Bytes 0 to 7 of the first header, copied to another. */
  method CopyStamp(buf: array<byte>, at: nat)
    requires HEADER <= at && at + HEADER <= buf.Length
    modifies buf
    ensures Get(buf[..], at, STAMP) == old(Get(buf[..], 0, STAMP))
    ensures forall j :: 0 <= j < buf.Length && !(at <= j < at + STAMP) ==> buf[j] == old(buf[j])
  {
    ghost var m := buf[..];
    for k := 0 to STAMP
      invariant forall j :: 0 <= j < k ==> buf[at + j] == m[j]
      invariant forall j :: 0 <= j < buf.Length && !(at <= j < at + k) ==> buf[j] == m[j]
    {
      buf[at + k] := buf[k];
    }
    SameStamp(buf[..], at, m, 0);
  }

  /** Fields behind the timestamp are still those. */
  lemma StampKept(m: seq<byte>, m': seq<byte>, at: nat)
    requires |m| == |m'| && at + STAMP <= |m| && forall k :: at <= k < at + STAMP ==> m[k] == m'[k]
    ensures Get(m, at, STAMP) == Get(m', at, STAMP)
  {
    assert m[at..at + STAMP] == m'[at..at + STAMP];
    SameStamp(m, at, m', at);
  }

  /** Header of block `blockId`: the first header's timestamp, count and type, its own number. */
  method RepeatHeader(zone: BufferZone, at: nat, blockId: nat, ghost ts: nat, ghost ct: nat)
    requires zone.Valid() && 0 < blockId < |zone.blocks| && at == SizeOf(zone.blocks[..blockId])
    requires IsGroup(zone.buf[..], 0, ts, |zone.blocks|, ct)
    modifies zone.buf
    ensures zone.Valid() && IsGroup(zone.buf[..], at, ts, |zone.blocks|, ct)
    ensures IsGroup(zone.buf[..], 0, ts, |zone.blocks|, ct)
  {
    ghost var m, cs := zone.buf[..], zone.blocks;
    assert InChain(m, cs, blockId);
    SizeOfMonotone(cs, 0, blockId);
    assert HEADER <= at;
    CopyStamp(zone.buf, at);
    ghost var stamped := zone.buf[..];
    var nbBlocks := ReadU16(zone.buf, NB_BLOCKS);
    WriteU16(zone.buf, at + NB_BLOCKS, nbBlocks);
    WriteU16(zone.buf, at + BLOCK_ID, blockId);
    var contentType := ReadU16(zone.buf, CONTENT_TYPE);
    WriteU16(zone.buf, at + CONTENT_TYPE, contentType);
    StampKept(stamped, zone.buf[..], at);
    StampKept(m, zone.buf[..], 0);
    ChainRetyped(m, zone.buf[..], cs, blockId);
  }

  /** A packet of block i of a group. */
  ghost predicate IsSent(p: seq<byte>, i: nat, c: seq<byte>, ts: nat, n: nat, ct: nat) {
    PacketOf(p, i, n, c) && TsOf(p) == ts && TypeOf(p) == ct
  }

  method CutPacket(buf: array<byte>, at: nat, ghost i: nat, ghost c: seq<byte>, ghost ts: nat, ghost n: nat, ghost ct: nat)
    returns (p: seq<byte>)
    requires HasBlock(buf[..], at, i, c) && IsGroup(buf[..], at, ts, n, ct)
    ensures IsSent(p, i, c, ts, n, ct) && |p| == Aligned(|c|)
  {
    ghost var m := buf[..];
    var contentBytes := ReadU16(buf, at + CONTENT_BYTES);
    p := buf[at..at + Aligned(contentBytes)];
    assert p == m[at..at + Aligned(|c|)];
    BlockIsPacket(m, at, i, n, c);
    assert p[0..STAMP] == m[at..at + STAMP];
    SameStamp(p, 0, m, at);
  }

  lemma BlockIsPacket(m: seq<byte>, at: nat, i: nat, n: nat, c: seq<byte>)
    requires HasBlock(m, at, i, c) && U16(m, at + NB_BLOCKS) == n
    ensures PacketOf(m[at..at + Aligned(|c|)], i, n, c)
  {
    var p := m[at..at + Aligned(|c|)];
    assert U16(p, CONTENT_BYTES) == U16(m, at + CONTENT_BYTES);
    assert p[HEADER..HEADER + |c|] == m[at + HEADER..at + HEADER + |c|];
  }

  /** One pass of the loop. */
  method SendBlock(zone: BufferZone, at: nat, blockId: nat, ghost ts: nat, ghost ct: nat) returns (p: seq<byte>, next: nat)
    requires zone.Valid() && blockId < |zone.blocks| && at == SizeOf(zone.blocks[..blockId])
    requires IsGroup(zone.buf[..], 0, ts, |zone.blocks|, ct)
    modifies zone.buf
    ensures zone.Valid() && IsGroup(zone.buf[..], 0, ts, |zone.blocks|, ct)
    ensures IsSent(p, blockId, zone.blocks[blockId], ts, |zone.blocks|, ct) && next == SizeOf(zone.blocks[..blockId + 1])
  {
    if blockId > 0 {
      RepeatHeader(zone, at, blockId, ts, ct);
    }
    assert InChain(zone.buf[..], zone.blocks, blockId);
    p := CutPacket(zone.buf, at, blockId, zone.blocks[blockId], ts, |zone.blocks|, ct);
    SizeOfPrefix(zone.blocks, blockId);
    next := at + |p|;
  }

  /** sendSubFrame: number the blocks, repeat the first header's group fields, and cut. The copy
      of the second header goes from the block to itself, so contents are sent as they are. */
  method SendSubFrame(zone: BufferZone, contentType: nat) returns (packets: seq<seq<byte>>)
    requires zone.Valid() && contentType < 65536
    modifies zone.buf
    ensures zone.Valid() && |packets| == |zone.blocks|
    ensures forall i :: 0 <= i < |packets| ==>
              IsSent(packets[i], i, zone.blocks[i], old(TsOf(zone.buf[..])), |packets|, contentType)
  {
    packets := [];
    var nbBlocks := ReadU16(zone.buf, NB_BLOCKS);
    if nbBlocks == 0 {
      return;
    }
    ghost var ts := TsOf(zone.buf[..]);
    SetContentType(zone, contentType);
    var at := 0;
    for blockId := 0 to nbBlocks
      invariant zone.Valid() && nbBlocks == |zone.blocks| && at == SizeOf(zone.blocks[..blockId]) && |packets| == blockId
      invariant IsGroup(zone.buf[..], 0, ts, nbBlocks, contentType)
      invariant forall i :: 0 <= i < blockId ==> IsSent(packets[i], i, zone.blocks[i], ts, nbBlocks, contentType)
    {
      var p, next := SendBlock(zone, at, blockId, ts, contentType);
      packets, at := packets + [p], next;
    }
  }

  method SetContentType(zone: BufferZone, contentType: nat)
    requires zone.Valid() && zone.blocks != [] && contentType < 65536
    modifies zone.buf
    ensures zone.Valid() && IsGroup(zone.buf[..], 0, old(TsOf(zone.buf[..])), |zone.blocks|, contentType)
  {
    ghost var m := zone.buf[..];
    assert InChain(m, zone.blocks, 0);
    WriteU16(zone.buf, CONTENT_TYPE, contentType);
    StampKept(m, zone.buf[..], 0);
    ChainRetyped(m, zone.buf[..], zone.blocks, 0);
  }
}
