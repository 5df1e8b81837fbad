/** The FS6 buffer zone: variable-length blocks, each behind a commonUDP header, appended to one
    byte buffer, sent as one packet a block, and walked by the receiver. */
module Fs6Zone {
  import opened Bytes

  /** commonUDP_t: timestamp at 0, nbBlocks at 8, blockID at 10, contentType at 12, contentBytes
      at 14, senderClock at 16. */
  const HEADER: nat := 24
  const NB_BLOCKS: nat := 8
  const BLOCK_ID: nat := 10
  const CONTENT_TYPE: nat := 12
  const CONTENT_BYTES: nat := 14

  /** alignedSize: header and content, rounded up to 32 bytes. */
  function Aligned(contentBytes: nat): (r: nat)
    ensures contentBytes + HEADER <= r < contentBytes + HEADER + 32
  {
    (contentBytes + HEADER + 31) / 32 * 32
  }

  /** Blocks start at multiples of blockAlign: this is the least one that has room. */
  lemma AlignedIsLeast(contentBytes: nat, n: nat)
    requires n % 32 == 0 && contentBytes + HEADER <= n
    ensures Aligned(contentBytes) % 32 == 0 && Aligned(contentBytes) <= n
  {
  }

  /** Bytes taken by blocks with these contents. */
  function SizeOf(cs: seq<seq<byte>>): nat {
    if cs == [] then 0 else SizeOf(cs[..|cs| - 1]) + Aligned(|cs[|cs| - 1]|)
  }

  /** A block with this identity and content lies at this offset. */
  ghost predicate HasBlock(m: seq<byte>, at: nat, id: nat, c: seq<byte>) {
    && |c| < 65536 && at + Aligned(|c|) <= |m|
    && U16(m, at + BLOCK_ID) == id && U16(m, at + CONTENT_BYTES) == |c|
    && m[at + HEADER..at + HEADER + |c|] == c
  }

  /** Block i lies behind the ones before it. */
  ghost predicate InChain(m: seq<byte>, cs: seq<seq<byte>>, i: nat)
    requires i < |cs|
  {
    HasBlock(m, SizeOf(cs[..i]), i, cs[i])
  }

  /** The blocks lie one after the other, numbered from 0. */
  ghost predicate Chain(m: seq<byte>, cs: seq<seq<byte>>) {
    forall i :: 0 <= i < |cs| ==> InChain(m, cs, i)
  }

  lemma SizeOfPrefix(cs: seq<seq<byte>>, i: nat)
    requires i < |cs|
    ensures SizeOf(cs[..i + 1]) == SizeOf(cs[..i]) + Aligned(|cs[i]|)
  {
    assert cs[..i + 1][..i] == cs[..i];
  }

  lemma {:induction false} SizeOfMonotone(cs: seq<seq<byte>>, i: nat, j: nat)
    requires i <= j <= |cs|
    ensures SizeOf(cs[..i]) <= SizeOf(cs[..j])
    ensures i < j ==> SizeOf(cs[..i]) + Aligned(|cs[i]|) <= SizeOf(cs[..j])
    decreases j
  {
    if i < j {
      SizeOfPrefix(cs, j - 1);
      SizeOfMonotone(cs, i, j - 1);
    }
  }

  lemma ChainFits(m: seq<byte>, cs: seq<seq<byte>>)
    requires Chain(m, cs)
    ensures SizeOf(cs) <= |m|
  {
    if cs != [] {
      assert InChain(m, cs, |cs| - 1);
    }
  }

  /** A block survives any change before its identity and behind its end. */
  lemma BlockFrame(m: seq<byte>, m': seq<byte>, at: nat, id: nat, c: seq<byte>)
    requires |m'| == |m| && HasBlock(m, at, id, c)
    requires forall k :: at + BLOCK_ID <= k < at + Aligned(|c|) ==> m'[k] == m[k]
    ensures HasBlock(m', at, id, c)
  {
    assert m'[at + HEADER..at + HEADER + |c|] == m[at + HEADER..at + HEADER + |c|];
  }

  /** Every block but the ones behind `end` survives a change from `end` on, and one of the
      block count. */
  lemma EarlierBlock(m: seq<byte>, m': seq<byte>, cs: seq<seq<byte>>, i: nat, end: nat)
    requires i < end <= |cs| && |m'| == |m| && Chain(m, cs)
    requires forall k :: BLOCK_ID <= k < SizeOf(cs[..end]) && k < |m| ==> m'[k] == m[k]
    ensures HasBlock(m', SizeOf(cs[..i]), i, cs[i])
  {
    assert InChain(m, cs, i);
    SizeOfMonotone(cs, i, end);
    BlockFrame(m, m', SizeOf(cs[..i]), i, cs[i]);
  }

  /** The buffer zone object. `blocks` are the contents behind the headers. */
  class BufferZone {
    const buf: array<byte>
    ghost var blocks: seq<seq<byte>>

    ghost predicate Valid()
      reads this, buf
    {
      HEADER <= buf.Length && U16(buf[..], NB_BLOCKS) == |blocks| && Chain(buf[..], blocks)
    }

    /** The second header at the front of the zone, block or no block. */
    ghost function Front(second: nat): seq<byte>
      requires HEADER + second <= buf.Length
      reads buf
    {
      buf[HEADER..HEADER + second]
    }

    /** The first block, if there is one, starts with a second header. */
    ghost predicate Leads(second: nat)
      reads this, buf
    {
      HEADER + second <= buf.Length && (blocks != [] ==> second <= |blocks[0]|)
    }

    /** initBufferZone: only the block count is set. */
    constructor (size: nat)
      requires HEADER <= size
      ensures Valid() && fresh(buf) && buf.Length == size && blocks == []
    {
      buf := new byte[size];
      blocks := [];
      new;
      buf[NB_BLOCKS], buf[NB_BLOCKS + 1] := 0, 0;
    }

    /** Walk to the end of the chain. The walk is the one at the head of every append function;
        its AssertFatal never fires. */
    method MoveToEnd() returns (firstFreeByte: nat, curBlock: nat)
      requires Valid()
      ensures firstFreeByte == SizeOf(blocks) && curBlock == |blocks|
    {
      firstFreeByte, curBlock := 0, 0;
      var nbBlocks := ReadU16(buf, NB_BLOCKS);
      for i := 0 to nbBlocks
        invariant curBlock == i && firstFreeByte == SizeOf(blocks[..i])
      {
        assert InChain(buf[..], blocks, i);
        var blockID := ReadU16(buf, firstFreeByte + BLOCK_ID);
        assert blockID == curBlock;
        var contentBytes := ReadU16(buf, firstFreeByte + CONTENT_BYTES);
        SizeOfPrefix(blocks, i);
        firstFreeByte := firstFreeByte + Aligned(contentBytes);
        curBlock := curBlock + 1;
      }
      assert blocks[..nbBlocks] == blocks;
    }

    /** Open a block behind the existing ones. Its content is whatever the memory holds; earlier
        blocks keep theirs, and nothing but the block count and the new header is written. */
    method OpenBlock(contentBytes: nat) returns (at: nat)
      requires Valid() && contentBytes < 65536 && |blocks| < 65535
      requires SizeOf(blocks) + Aligned(contentBytes) <= buf.Length
      modifies buf, `blocks
      ensures Valid()
      ensures at == SizeOf(old(blocks)) + HEADER
      ensures blocks == old(blocks) + [buf[at..at + contentBytes]]
      ensures forall k :: 0 <= k < buf.Length && k != NB_BLOCKS && k != NB_BLOCKS + 1 && !(at - HEADER <= k < at) ==>
                buf[k] == old(buf[k])
    {
      var firstFreeByte, curBlock := MoveToEnd();
      ghost var m := buf[..];
      at := firstFreeByte + HEADER;
      WriteHeader(firstFreeByte, curBlock, contentBytes);
      ghost var c := buf[at..at + contentBytes];
      assert blocks[..|blocks|] == blocks;
      assert HasBlock(buf[..], firstFreeByte, curBlock, c);
      ChainWithLast(m, buf[..], blocks, |blocks|, c);
      blocks := blocks + [c];
    }

    method WriteHeader(firstFreeByte: nat, curBlock: nat, contentBytes: nat)
      requires firstFreeByte + HEADER <= buf.Length && contentBytes < 65536 && curBlock < 65535
      requires firstFreeByte == 0 || HEADER <= firstFreeByte
      modifies buf
      ensures U16(buf[..], NB_BLOCKS) == curBlock + 1
      ensures U16(buf[..], firstFreeByte + BLOCK_ID) == curBlock
      ensures U16(buf[..], firstFreeByte + CONTENT_BYTES) == contentBytes
      ensures forall k :: 0 <= k < buf.Length && k != NB_BLOCKS && k != NB_BLOCKS + 1 && !(firstFreeByte <= k < firstFreeByte + HEADER) ==>
                buf[k] == old(buf[k])
    {
      WriteU16(buf, NB_BLOCKS, curBlock + 1);
      WriteU16(buf, firstFreeByte + BLOCK_ID, curBlock);
      WriteU16(buf, firstFreeByte + CONTENT_BYTES, contentBytes);
    }

    /** Take note of content written into the last block since it was opened. */
    ghost method Settle(at: nat, before: seq<byte>)
      requires blocks != [] && at == SizeOf(blocks[..|blocks| - 1]) + HEADER
      requires HEADER <= buf.Length && |before| == buf.Length
      requires U16(before, NB_BLOCKS) == |blocks| && Chain(before, blocks)
      requires forall k :: 0 <= k < buf.Length && !(at <= k < at + |blocks[|blocks| - 1]|) ==> buf[k] == before[k]
      modifies `blocks
      ensures Valid()
      ensures at + |old(blocks)[|old(blocks)| - 1]| <= buf.Length
      ensures blocks == old(blocks)[..|old(blocks)| - 1] + [buf[at..at + |old(blocks)[|old(blocks)| - 1]|]]
    {
      var n := |blocks| - 1;
      assert InChain(before, blocks, n);
      var c := buf[at..at + |blocks[n]|];
      assert HasBlock(buf[..], SizeOf(blocks[..n]), n, c);
      ChainWithLast(before, buf[..], blocks, n, c);
      blocks := blocks[..n] + [c];
    }
  }

  /** A block written behind the first `n` blocks of a chain makes a chain with them. */
  lemma ChainWithLast(m: seq<byte>, m': seq<byte>, cs: seq<seq<byte>>, n: nat, c: seq<byte>)
    requires |m'| == |m| && Chain(m, cs) && n <= |cs|
    requires HasBlock(m', SizeOf(cs[..n]), n, c)
    requires forall k :: BLOCK_ID <= k < SizeOf(cs[..n]) && k < |m| ==> m'[k] == m[k]
    ensures Chain(m', cs[..n] + [c])
  {
    var cs' := cs[..n] + [c];
    forall i | 0 <= i < |cs'|
      ensures InChain(m', cs', i)
    {
      assert cs'[..i] == cs[..i];
      if i < n {
        EarlierBlock(m, m', cs, i, n);
      }
    }
  }

  // Transport: one packet a block.

  /** A packet is self-describing: header, content and padding of one block. */
  predicate IsPacket(p: seq<byte>) {
    HEADER <= |p| && |p| == Aligned(U16(p, CONTENT_BYTES))
  }

  function ContentOf(p: seq<byte>): seq<byte>
    requires IsPacket(p)
  {
    p[HEADER..HEADER + U16(p, CONTENT_BYTES)]
  }

  function Join(ps: seq<seq<byte>>): seq<byte> {
    if ps == [] then [] else Join(ps[..|ps| - 1]) + ps[|ps| - 1]
  }

  /** The received packets lie one after the other at the start of the buffer. */
  ghost predicate Holds(m: seq<byte>, ps: seq<seq<byte>>) {
    Join(ps) <= m && forall i :: 0 <= i < |ps| ==> IsPacket(ps[i])
  }

  /** The walk meets packet i at the end of the ones before it. */
  lemma {:induction false} PacketAt(m: seq<byte>, ps: seq<seq<byte>>, i: nat)
    requires Join(ps) <= m && i < |ps|
    ensures var at := |Join(ps[..i])|;
            at + |ps[i]| <= |m| && m[at..at + |ps[i]|] == ps[i] && |Join(ps[..i + 1])| == at + |ps[i]|
    decreases |ps|
  {
    var n := |ps| - 1;
    var front := ps[..n];
    assert ps[..i + 1][..i] == ps[..i];
    if i < n {
      PacketAt(m, front, i);
      assert front[..i] == ps[..i] && front[..i + 1] == ps[..i + 1];
    }
  }

  /** memcpy into a buffer. */
  method CopyIn(buf: array<byte>, at: nat, data: seq<byte>)
    requires at + |data| <= buf.Length
    modifies buf
    ensures buf[at..at + |data|] == data
    ensures forall k :: 0 <= k < buf.Length && !(at <= k < at + |data|) ==> buf[k] == old(buf[k])
  {
    for i := 0 to |data|
      invariant buf[at..at + i] == data[..i]
      invariant forall k :: 0 <= k < buf.Length && !(at <= k < at + i) ==> buf[k] == old(buf[k])
    {
      buf[at + i] := data[i];
    }
  }

  // The receiver's walk.

  function Contents(ps: seq<seq<byte>>): (cs: seq<seq<byte>>)
    requires forall i :: 0 <= i < |ps| ==> IsPacket(ps[i])
    ensures |cs| == |ps| && forall i :: 0 <= i < |ps| ==> cs[i] == ContentOf(ps[i])
  {
    seq(|ps|, i requires 0 <= i < |ps| => ContentOf(ps[i]))
  }

  /** The content of the packet the walk is at, and the step to the next one. */
  method ContentAt(buf: array<byte>, at: nat, ghost expected: seq<byte>) returns (c: seq<byte>, next: nat)
    requires at + |expected| <= buf.Length && buf[..][at..at + |expected|] == expected && IsPacket(expected)
    ensures c == ContentOf(expected) && next == at + |expected|
  {
    var contentBytes := ReadU16(buf, at + CONTENT_BYTES);
    ghost var m := buf[..];
    assert contentBytes == U16(m[at..at + |expected|], CONTENT_BYTES);
    c := buf[at + HEADER..at + HEADER + contentBytes];
    SliceOfSlice(m, at, |expected|, HEADER, HEADER + contentBytes);
    next := at + Aligned(contentBytes);
  }

  // Blocks that are a structure and some data behind it.

  /** The content is `second` bytes of anything, a structure with these values, and the data. */
  ghost predicate IsStruct(c: seq<byte>, second: nat, size: nat, fs: seq<Field>, vs: seq<nat>, data: seq<byte>)
    requires IsLayout(fs, size)
  {
    |c| == second + size + |data| && Fetch(c[second..second + size], fs) == vs && c[second + size..] == data
  }

  /** A field of a block's structure, read where it lies in the block. */
  lemma FieldOf(c: seq<byte>, second: nat, size: nat, fs: seq<Field>, vs: seq<nat>, data: seq<byte>, i: nat)
    requires IsLayout(fs, size) && IsStruct(c, second, size, fs, vs, data) && i < |fs|
    ensures |vs| == |fs| && second + fs[i].at + fs[i].width <= |c| && Get(c, second + fs[i].at, fs[i].width) == vs[i]
  {
    SliceOfSlice(c, second, size, fs[i].at, fs[i].at + fs[i].width);
    GetFrame(c[second..second + size], c, fs[i].at, second + fs[i].at, fs[i].width);
    assert Fetch(c[second..second + size], fs)[i] == vs[i];
  }

  /** The first byte of a structure whose first field is its type. */
  lemma StructType(c: seq<byte>, second: nat, size: nat, fs: seq<Field>, vs: seq<nat>, data: seq<byte>)
    requires IsLayout(fs, size) && IsStruct(c, second, size, fs, vs, data) && fs != [] && fs[0] == Field(0, 1)
    ensures |vs| == |fs| && second < |c| && c[second] as int == vs[0]
  {
    var s := c[second..second + size];
    assert Get(s, 1, 0) == 0;
    assert Fetch(s, fs)[0] == Get(s, 0, 1);
  }

  method WriteStruct(buf: array<byte>, at: nat, second: nat, size: nat, fs: seq<Field>, vs: seq<nat>, data: seq<byte>)
    requires IsLayout(fs, size) && Fits(fs, vs) && at + second + size + |data| <= buf.Length
    modifies buf
    ensures IsStruct(buf[at..at + second + size + |data|], second, size, fs, vs, data)
    ensures forall k :: 0 <= k < buf.Length && !(at + second <= k < at + second + size + |data|) ==> buf[k] == old(buf[k])
  {
    var base := at + second;
    StoreFields(buf, base, size, fs, vs);
    ghost var stored := buf[base..base + size];
    CopyIn(buf, base + size, data);
    ghost var m, n := buf[..], second + size + |data|;
    assert m[base..base + size] == stored;
    SliceOfSlice(m, at, n, second, second + size);
    SliceOfSlice(m, at, n, second + size, n);
    assert buf[at..at + n] == m[at..at + n];
    assert m[at..at + n][second + size..] == m[at..at + n][second + size..n];
  }

  // The second header, which the receiver reads in front of everything else.

  /** An append changes the block count, a header and what lies behind the second header of the
      block it opens, so the one at the front stays. */
  lemma FrontKept(m: seq<byte>, m': seq<byte>, cs: seq<seq<byte>>, second: nat)
    requires |m'| == |m| && HEADER + second <= |m| && (cs != [] ==> second <= |cs[0]|)
    requires forall k :: HEADER <= k < |m| && k < SizeOf(cs) ==> m'[k] == m[k]
    requires forall k :: SizeOf(cs) + HEADER <= k < SizeOf(cs) + HEADER + second && k < |m| ==> m'[k] == m[k]
    ensures m'[HEADER..HEADER + second] == m[HEADER..HEADER + second]
  {
    if cs != [] {
      SizeOfMonotone(cs, 0, |cs|);
      assert cs[..|cs|] == cs;
    }
  }

  /** OpenBlock for a content with a second header. */
  method OpenLed(zone: BufferZone, second: nat, contentBytes: nat) returns (at: nat)
    requires zone.Valid() && zone.Leads(second) && second <= contentBytes < 65536 && |zone.blocks| < 65535
    requires SizeOf(zone.blocks) + Aligned(contentBytes) <= zone.buf.Length
    modifies zone.buf, zone`blocks
    ensures zone.Valid() && at == SizeOf(old(zone.blocks)) + HEADER && at + contentBytes <= zone.buf.Length
    ensures |zone.blocks| == |old(zone.blocks)| + 1 && zone.blocks[..|old(zone.blocks)|] == old(zone.blocks)
    ensures zone.blocks[|old(zone.blocks)|] == zone.buf[at..at + contentBytes]
    ensures zone.Leads(second) && zone.Front(second) == old(zone.Front(second))
  {
    ghost var m := zone.buf[..];
    at := zone.OpenBlock(contentBytes);
    FrontKept(m, zone.buf[..], old(zone.blocks), second);
    ghost var m' := zone.buf[..];
    assert zone.Front(second) == m'[HEADER..HEADER + second];
    assert m[HEADER..HEADER + second] == old(zone.Front(second));
  }

  method AppendStruct(zone: BufferZone, second: nat, size: nat, fs: seq<Field>, vs: seq<nat>, data: seq<byte>)
    requires zone.Valid() && |zone.blocks| < 65535 && IsLayout(fs, size) && Fits(fs, vs)
    requires zone.Leads(second) && second + size + |data| < 65536
    requires SizeOf(zone.blocks) + Aligned(second + size + |data|) <= zone.buf.Length
    modifies zone.buf, zone`blocks
    ensures zone.Valid() && |zone.blocks| == |old(zone.blocks)| + 1 && old(zone.blocks) <= zone.blocks
    ensures IsStruct(zone.blocks[|old(zone.blocks)|], second, size, fs, vs, data)
    ensures zone.Leads(second) && zone.Front(second) == old(zone.Front(second))
  {
    var n := second + size + |data|;
    var at := OpenLed(zone, second, n);
    ghost var m := zone.buf[..];
    WriteStruct(zone.buf, at, second, size, fs, vs, data);
    ghost var c := zone.buf[at..at + n];
    SettleLed(zone, second, at, n, m);
    assert zone.blocks[|old(zone.blocks)|] == c;
  }

  /** Take note of content written behind the second header of the last block. */
  ghost method SettleLed(zone: BufferZone, second: nat, at: nat, n: nat, before: seq<byte>)
    requires zone.blocks != [] && at == SizeOf(zone.blocks[..|zone.blocks| - 1]) + HEADER
    requires HEADER <= zone.buf.Length && |before| == zone.buf.Length && second <= n
    requires |zone.blocks[|zone.blocks| - 1]| == n && zone.Leads(second)
    requires U16(before, NB_BLOCKS) == |zone.blocks| && Chain(before, zone.blocks)
    requires forall k :: 0 <= k < zone.buf.Length && !(at + second <= k < at + n) ==> zone.buf[k] == before[k]
    modifies zone`blocks
    ensures zone.Valid() && zone.Leads(second) && zone.Front(second) == before[HEADER..HEADER + second]
    ensures at + n <= zone.buf.Length
    ensures |zone.blocks| == |old(zone.blocks)|
    ensures zone.blocks[..|zone.blocks| - 1] == old(zone.blocks)[..|zone.blocks| - 1]
    ensures zone.blocks[|zone.blocks| - 1] == zone.buf[at..at + n]
  {
    zone.Settle(at, before);
    assert forall k :: HEADER <= k < HEADER + second ==> zone.buf[k] == before[k];
  }

  /** Every subframe is sent, without any block as a second header alone. */
  method SendAnyway(zone: BufferZone, second: nat)
    requires zone.Valid() && zone.Leads(second) && second < 65536 && Aligned(second) <= zone.buf.Length
    modifies zone.buf, zone`blocks
    ensures zone.Valid() && zone.Leads(second) && zone.Front(second) == old(zone.Front(second))
    ensures zone.blocks == if old(zone.blocks) == [] then [zone.Front(second)] else old(zone.blocks)
    ensures zone.blocks[0][..second] == zone.Front(second)
  {
    var nbBlocks := ReadU16(zone.buf, NB_BLOCKS);
    if nbBlocks == 0 {
      var _ := OpenLed(zone, second, second);
    }
    FrontIsFirst(zone.buf[..], zone.blocks, second);
  }

  lemma FrontIsFirst(m: seq<byte>, cs: seq<seq<byte>>, second: nat)
    requires Chain(m, cs) && cs != [] && second <= |cs[0]|
    ensures HEADER + second <= |m| && cs[0][..second] == m[HEADER..HEADER + second]
  {
    assert InChain(m, cs, 0);
  }

  lemma {:induction false} SizeOfSame(cs: seq<seq<byte>>, cs': seq<seq<byte>>)
    requires |cs| == |cs'| && forall i :: 0 <= i < |cs| ==> |cs[i]| == |cs'[i]|
    ensures SizeOf(cs) == SizeOf(cs')
  {
    if cs != [] {
      SizeOfSame(cs[..|cs| - 1], cs'[..|cs| - 1]);
    }
  }

  /** A change inside the first block's content makes a chain with the new content. */
  lemma ChainWithFirst(m: seq<byte>, m': seq<byte>, cs: seq<seq<byte>>, c: seq<byte>)
    requires |m'| == |m| && Chain(m, cs) && cs != [] && |c| == |cs[0]| && HEADER + |c| <= |m|
    requires m'[HEADER..HEADER + |c|] == c
    requires forall k :: 0 <= k < |m| && !(HEADER <= k < HEADER + |c|) ==> m'[k] == m[k]
    ensures Chain(m', cs[0 := c])
  {
    var cs' := cs[0 := c];
    forall i | 0 <= i < |cs'|
      ensures InChain(m', cs', i)
    {
      assert InChain(m, cs, i);
      SizeOfSame(cs[..i], cs'[..i]);
      if i > 0 {
        SizeOfMonotone(cs, 0, i);
        BlockFrame(m, m', SizeOf(cs[..i]), i, cs[i]);
      }
    }
  }

  /** Assign fields of the second header at the front, before or after blocks are there. */
  method StoreFront(zone: BufferZone, second: nat, fs: seq<Field>, vs: seq<nat>)
    requires zone.Valid() && zone.Leads(second) && IsLayout(fs, second) && |vs| == |fs|
    modifies zone.buf, zone`blocks
    ensures zone.Valid() && zone.Leads(second)
    ensures zone.Front(second) == Assign(old(zone.Front(second)), fs, vs)
    ensures |zone.blocks| == |old(zone.blocks)|
    ensures forall i :: 0 < i < |zone.blocks| ==> zone.blocks[i] == old(zone.blocks)[i]
    ensures zone.blocks != [] ==> zone.blocks[0][second..] == old(zone.blocks)[0][second..]
  {
    ghost var m := zone.buf[..];
    StoreFields(zone.buf, HEADER, second, fs, vs);
    if zone.blocks != [] {
      assert InChain(m, zone.blocks, 0);
      ghost var n := |zone.blocks[0]|;
      ghost var c := zone.buf[HEADER..HEADER + n];
      ChainWithFirst(m, zone.buf[..], zone.blocks, c);
      assert c[second..] == m[HEADER..HEADER + n][second..];
      zone.blocks := zone.blocks[0 := c];
    }
  }
}
