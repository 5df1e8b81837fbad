/** A whole subframe on the sender's side: the second header is filled at the front of the zone, blocks
    are appended before and after, and at least the header is sent. */
module Fs6Sender {
  import opened Bytes
  import opened Fs6Bits
  import opened Fs6Zone
  import opened Fs6Downlink
  import Header = Fs6DlHeader
  import Rach = Fs6Rach
  import Segments = Fs6Segments
  import Ul = Fs6Uplink
  import Prach

  /** The contents of buffers. */
  ghost function BitsOf(arrays: seq<array<byte>>): (r: seq<seq<byte>>)
    reads arrays
    ensures |r| == |arrays| && forall i :: 0 <= i < |arrays| ==> r[i] == arrays[i][..]
  {
    seq(|arrays|, i requires 0 <= i < |arrays| reads arrays => arrays[i][..])
  }

  // Uplink.

  /** What a DU does for a UE: split a transport block, whose soft bits are in one of the buffers,
      or forward a control indication. */
  datatype Job = Decode(b: Segments.Block, buffer: nat) | Indicate(x: Ul.Indication)

  ghost predicate CanDo(j: Job, bits: seq<seq<byte>>) {
    match j
    case Decode(b, k) => b.Valid() && k < |bits| && Segments.CanSendFrom(b, bits[k], 0)
    case Indicate(x) => Fits(Ul.UCI_FIELDS, Ul.UciValues(x, (0, 0, 0)))
  }

  ghost predicate CanDoAll(jobs: seq<Job>, bits: seq<seq<byte>>) {
    forall i :: 0 <= i < |jobs| ==> CanDo(jobs[i], bits)
  }

  /** Blocks and bytes a job needs. */
  ghost function BlocksOf(j: Job): nat { if j.Decode? then j.b.c else 1 }

  ghost function RoomOf(j: Job, bits: seq<seq<byte>>): nat
    requires CanDo(j, bits)
  {
    if j.Decode? then Segments.RoomFor(j.b, 0) else Aligned(Ul.SECOND + Ul.UCI_SIZE)
  }

  ghost function BlocksOfAll(jobs: seq<Job>): nat {
    if jobs == [] then 0 else BlocksOfAll(jobs[..|jobs| - 1]) + BlocksOf(jobs[|jobs| - 1])
  }

  /** Room for job i and up. */
  ghost function RoomFrom(jobs: seq<Job>, bits: seq<seq<byte>>, i: nat): nat
    requires CanDoAll(jobs, bits)
    decreases |jobs| - i
  {
    if i >= |jobs| then 0 else RoomOf(jobs[i], bits) + RoomFrom(jobs, bits, i + 1)
  }

  /** The blocks from n on are those of a job. */
  ghost predicate HoldsJob(cs: seq<seq<byte>>, n: nat, j: Job, bits: seq<seq<byte>>)
    requires CanDo(j, bits)
  {
    match j
    case Decode(b, k) => Segments.HoldsSegments(cs, n, b, bits[k], b.c)
    case Indicate(x) => |cs| == n + 1 && Ul.IsUciContent(cs[n], x)
  }

  /** The blocks are those of the jobs, one job after the other. */
  ghost predicate HoldsJobs(cs: seq<seq<byte>>, jobs: seq<Job>, bits: seq<seq<byte>>)
    requires CanDoAll(jobs, bits)
    decreases |jobs|
  {
    if jobs == [] then cs == []
    else
      var less := jobs[..|jobs| - 1];
      var n := BlocksOfAll(less);
      n <= |cs| && HoldsJobs(cs[..n], less, bits) && HoldsJob(cs, n, jobs[|jobs| - 1], bits)
  }

  lemma SizeOfJob(cs: seq<seq<byte>>, cs': seq<seq<byte>>, j: Job, bits: seq<seq<byte>>)
    requires CanDo(j, bits) && cs <= cs' && HoldsJob(cs', |cs|, j, bits)
    ensures SizeOf(cs') == SizeOf(cs) + RoomOf(j, bits) && |cs'| == |cs| + BlocksOf(j)
  {
    assert cs'[..|cs|] == cs;
    if j.Decode? {
      Segments.SizeOfSegments(cs', |cs|, j.b, bits[j.buffer], j.b.c);
    }
  }

  method DoJob(zone: BufferZone, j: Job, softs: seq<array<byte>>)
    requires zone.Valid() && zone.Leads(Ul.SECOND) && CanDo(j, BitsOf(softs))
    requires forall k :: 0 <= k < |softs| ==> softs[k] != zone.buf
    requires |zone.blocks| + BlocksOf(j) < 65536 && SizeOf(zone.blocks) + RoomOf(j, BitsOf(softs)) <= zone.buf.Length
    modifies zone.buf, zone`blocks
    ensures zone.Valid() && zone.Leads(Ul.SECOND) && zone.Front(Ul.SECOND) == old(zone.Front(Ul.SECOND))
    ensures BitsOf(softs) == old(BitsOf(softs)) && old(zone.blocks) <= zone.blocks
    ensures HoldsJob(zone.blocks, |old(zone.blocks)|, j, BitsOf(softs))
  {
    ghost var bits := BitsOf(softs);
    match j
    case Decode(b, k) =>
      Segments.UlschDecodingData(zone, b, softs[k]);
      assert BitsOf(softs) == bits;
    case Indicate(x) =>
      Ul.SendFs6Ulharq(zone, x);
      assert BitsOf(softs) == bits;
  }

  lemma HoldsOneMore(cs: seq<seq<byte>>, cs': seq<seq<byte>>, jobs: seq<Job>, bits: seq<seq<byte>>, i: nat)
    requires i < |jobs| && CanDoAll(jobs, bits) && CanDoAll(jobs[..i], bits) && CanDoAll(jobs[..i + 1], bits)
    requires cs <= cs' && |cs| == BlocksOfAll(jobs[..i]) && HoldsJobs(cs, jobs[..i], bits)
    requires HoldsJob(cs', |cs|, jobs[i], bits)
    ensures HoldsJobs(cs', jobs[..i + 1], bits)
  {
    assert jobs[..i + 1][..i] == jobs[..i];
    assert cs'[..|cs|] == cs;
  }

  lemma {:induction false} BlocksOfSome(jobs: seq<Job>, i: nat)
    requires i <= |jobs|
    ensures BlocksOfAll(jobs[..i]) <= BlocksOfAll(jobs)
    ensures i < |jobs| ==> BlocksOfAll(jobs[..i + 1]) == BlocksOfAll(jobs[..i]) + BlocksOf(jobs[i]) <= BlocksOfAll(jobs)
    decreases |jobs| - i
  {
    if i == |jobs| {
      assert jobs[..i] == jobs;
    } else {
      assert jobs[..i + 1][..i] == jobs[..i];
      BlocksOfSome(jobs, i + 1);
    }
  }

  /** The state of the loop before job i. */
  ghost predicate Progress(zone: BufferZone, jobs: seq<Job>, bits: seq<seq<byte>>, i: nat)
    requires CanDoAll(jobs, bits) && i <= |jobs|
    reads zone, zone.buf
  {
    && zone.Valid() && zone.Leads(Ul.SECOND) && SizeOf(zone.blocks) + RoomFrom(jobs, bits, i) <= zone.buf.Length
    && |zone.blocks| == BlocksOfAll(jobs[..i]) && HoldsJobs(zone.blocks, jobs[..i], bits)
  }

  /** One pass of the loop. */
  method NextJob(zone: BufferZone, jobs: seq<Job>, softs: seq<array<byte>>, i: nat)
    requires i < |jobs| && CanDoAll(jobs, BitsOf(softs)) && Progress(zone, jobs, BitsOf(softs), i)
    requires (forall k :: 0 <= k < |softs| ==> softs[k] != zone.buf) && BlocksOfAll(jobs) < 65536
    modifies zone.buf, zone`blocks
    ensures BitsOf(softs) == old(BitsOf(softs)) && Progress(zone, jobs, BitsOf(softs), i + 1)
    ensures zone.Front(Ul.SECOND) == old(zone.Front(Ul.SECOND))
  {
    ghost var cs, bits := zone.blocks, BitsOf(softs);
    BlocksOfSome(jobs, i);
    DoJob(zone, jobs[i], softs);
    SizeOfJob(cs, zone.blocks, jobs[i], bits);
    HoldsOneMore(cs, zone.blocks, jobs, bits, i);
  }

  /** The loop of phy_procedures_eNB_uespec_RX_tosplit over UEs. */
  method DoJobs(zone: BufferZone, jobs: seq<Job>, softs: seq<array<byte>>)
    requires zone.Valid() && zone.Leads(Ul.SECOND) && zone.blocks == [] && CanDoAll(jobs, BitsOf(softs))
    requires forall k :: 0 <= k < |softs| ==> softs[k] != zone.buf
    requires BlocksOfAll(jobs) < 65536 && RoomFrom(jobs, BitsOf(softs), 0) <= zone.buf.Length
    modifies zone.buf, zone`blocks
    ensures zone.Valid() && zone.Leads(Ul.SECOND) && zone.Front(Ul.SECOND) == old(zone.Front(Ul.SECOND))
    ensures BitsOf(softs) == old(BitsOf(softs)) && HoldsJobs(zone.blocks, jobs, BitsOf(softs))
  {
    ghost var bits := BitsOf(softs);
    for i := 0 to |jobs|
      invariant BitsOf(softs) == bits && Progress(zone, jobs, bits, i)
      invariant zone.Front(Ul.SECOND) == old(zone.Front(Ul.SECOND))
    {
      NextJob(zone, jobs, softs, i);
    }
    assert jobs[..|jobs|] == jobs;
  }

  /** UL_du_fs6: measure, split transport blocks and forward indications, send. */
  method UlDuFs6(zone: BufferZone, prach: bool, m: Prach.Measurement, jobs: seq<Job>, softs: seq<array<byte>>,
                 ghost bits: seq<seq<byte>>)
    requires zone.Valid() && zone.blocks == [] && Aligned(Ul.SECOND) <= zone.buf.Length && m.Valid()
    requires (forall k :: 0 <= k < |softs| ==> softs[k] != zone.buf) && bits == BitsOf(softs)
    requires CanDoAll(jobs, bits) && BlocksOfAll(jobs) < 65536 && RoomFrom(jobs, bits, 0) <= zone.buf.Length
    modifies zone.buf, zone`blocks
    ensures zone.Valid() && zone.blocks != [] && Ul.SECOND <= |zone.blocks[0]|
    ensures prach ==> Rach.HoldsRach(zone.blocks[0][..Ul.SECOND], m)
    ensures jobs != [] ==> HoldsJobs(zone.blocks, jobs, bits)
    ensures jobs == [] ==> |zone.blocks| == 1 && |zone.blocks[0]| == Ul.SECOND
  {
    Rach.PrachToSplit(zone, prach, m);
    assert zone.blocks == [] && BitsOf(softs) == bits;
    DoJobs(zone, jobs, softs);
    JobsHaveBlocks(zone.blocks, jobs, bits);
    SendAnyway(zone, Ul.SECOND);
  }

  lemma JobsHaveBlocks(cs: seq<seq<byte>>, jobs: seq<Job>, bits: seq<seq<byte>>)
    requires CanDoAll(jobs, bits) && HoldsJobs(cs, jobs, bits)
    ensures cs == [] <==> jobs == []
  {
  }

  // Downlink.

  /** What the CU has for a UE and what its block needs. */
  ghost predicate CanAppend(u: DlUe, bits: seq<byte>) {
    && Fits(FIELDS, Values(u)) && 16 * Groups(u.dataLen) <= |bits|
    && Header.SECOND + SIZE + 2 * Groups(u.dataLen) < 65536
  }

  /** Room for the blocks of UE i and up. */
  function RoomFor(us: seq<DlUe>, i: nat): nat
    decreases |us| - i
  {
    if i >= |us| then 0 else Aligned(Header.SECOND + SIZE + 2 * Groups(us[i].dataLen)) + RoomFor(us, i + 1)
  }

  /** The blocks from n on are those of the first r UEs. */
  ghost predicate HoldsUes(cs: seq<seq<byte>>, n: nat, us: seq<DlUe>, bits: seq<seq<byte>>, r: nat)
    requires r <= |us| == |bits|
  {
    && |cs| == n + r
    && (r > 0 ==> IsDlContent(cs[n + r - 1], Header.SECOND, us[r - 1], bits[r - 1]) && HoldsUes(cs[..n + r - 1], n, us, bits, r - 1))
  }

  lemma {:induction false} UeHeld(cs: seq<seq<byte>>, n: nat, us: seq<DlUe>, bits: seq<seq<byte>>, r: nat, i: nat)
    requires i < r <= |us| == |bits| && HoldsUes(cs, n, us, bits, r)
    ensures IsDlContent(cs[n + i], Header.SECOND, us[i], bits[i])
    decreases r
  {
    if i < r - 1 {
      UeHeld(cs[..n + r - 1], n, us, bits, r - 1, i);
    }
  }

  /** One UE behind the blocks there are. */
  method AppendUe(zone: BufferZone, us: seq<DlUe>, arrays: seq<array<byte>>, i: nat, ghost before: seq<seq<byte>>)
    requires zone.Valid() && zone.Leads(Header.SECOND) && i < |us| == |arrays| && |before| + |us| < 65536
    requires forall k :: 0 <= k < |arrays| ==> arrays[k] != zone.buf
    requires CanAppend(us[i], arrays[i][..]) && SizeOf(zone.blocks) + RoomFor(us, i) <= zone.buf.Length
    requires before <= zone.blocks && HoldsUes(zone.blocks, |before|, us, BitsOf(arrays), i)
    modifies zone.buf, zone`blocks
    ensures zone.Valid() && zone.Leads(Header.SECOND) && zone.Front(Header.SECOND) == old(zone.Front(Header.SECOND))
    ensures BitsOf(arrays) == old(BitsOf(arrays))
    ensures SizeOf(zone.blocks) + RoomFor(us, i + 1) <= zone.buf.Length
    ensures before <= zone.blocks && HoldsUes(zone.blocks, |before|, us, BitsOf(arrays), i + 1)
  {
    ghost var blocks, bits := zone.blocks, BitsOf(arrays);
    AppendFs6DLUE(zone, Header.SECOND, us[i], arrays[i]);
    assert BitsOf(arrays) == bits;
    assert zone.blocks[..|before| + i] == blocks;
  }

  method AppendUes(zone: BufferZone, us: seq<DlUe>, arrays: seq<array<byte>>)
    requires zone.Valid() && zone.Leads(Header.SECOND) && |us| == |arrays|
    requires |zone.blocks| + |us| < 65536 && SizeOf(zone.blocks) + RoomFor(us, 0) <= zone.buf.Length
    requires forall k :: 0 <= k < |us| ==> arrays[k] != zone.buf && CanAppend(us[k], arrays[k][..])
    modifies zone.buf, zone`blocks
    ensures zone.Valid() && zone.Leads(Header.SECOND) && zone.Front(Header.SECOND) == old(zone.Front(Header.SECOND))
    ensures BitsOf(arrays) == old(BitsOf(arrays)) && old(zone.blocks) <= zone.blocks
    ensures HoldsUes(zone.blocks, |old(zone.blocks)|, us, BitsOf(arrays), |us|)
  {
    ghost var before, bits := zone.blocks, BitsOf(arrays);
    for i := 0 to |us|
      invariant zone.Valid() && zone.Leads(Header.SECOND) && zone.Front(Header.SECOND) == old(zone.Front(Header.SECOND))
      invariant BitsOf(arrays) == bits && SizeOf(zone.blocks) + RoomFor(us, i) <= zone.buf.Length
      invariant before <= zone.blocks && HoldsUes(zone.blocks, |before|, us, bits, i)
    {
      assert arrays[i][..] == bits[i];
      AppendUe(zone, us, arrays, i, before);
    }
  }

  /** Blocks as they were, but for the second header at the front. */
  ghost predicate Refilled(cs: seq<seq<byte>>, cs': seq<seq<byte>>, second: nat) {
    && |cs| <= |cs'| && (forall i :: 0 < i < |cs| ==> cs'[i] == cs[i])
    && (cs != [] ==> second <= |cs[0]| && second <= |cs'[0]| && cs'[0][second..] == cs[0][second..])
  }

  /** Fill the header and append the scheduled UEs behind the blocks there are. */
  method FillAndAppend(zone: BufferZone, h: Header.CuSubframe, us: seq<DlUe>, arrays: seq<array<byte>>) returns (ok: bool)
    requires zone.Valid() && zone.Leads(Header.SECOND)
    requires Fits(Header.HeaderFields(h.Sent()), Header.HeaderValues(h)) && |us| == |arrays|
    requires |zone.blocks| + |us| < 65536 && SizeOf(zone.blocks) + RoomFor(us, 0) <= zone.buf.Length
    requires forall k :: 0 <= k < |us| ==> arrays[k] != zone.buf && CanAppend(us[k], arrays[k][..])
    modifies zone.buf, zone`blocks
    ensures zone.Valid() && zone.Leads(Header.SECOND) && Header.IsHeader(zone.Front(Header.SECOND), h)
    ensures ok <==> h.numMdci == 0
    ensures Refilled(old(zone.blocks), zone.blocks, Header.SECOND)
    ensures HoldsUes(zone.blocks, |old(zone.blocks)|, us, BitsOf(arrays), |us|)
  {
    ok := Header.FillHeader(zone, h);
    SizeOfFilled(old(zone.blocks), zone.blocks, Header.SECOND);
    AppendUes(zone, us, arrays);
  }

  /** The end of DL_cu_fs6: header and UEs, and a block of its own for the header if there is no
      other. */
  method DlCuFs6(zone: BufferZone, h: Header.CuSubframe, us: seq<DlUe>, arrays: seq<array<byte>>,
                 ghost bits: seq<seq<byte>>)
    returns (ok: bool)
    requires zone.Valid() && zone.Leads(Header.SECOND) && Aligned(Header.SECOND) <= zone.buf.Length
    requires Fits(Header.HeaderFields(h.Sent()), Header.HeaderValues(h)) && |us| == |arrays| && bits == BitsOf(arrays)
    requires |zone.blocks| + |us| < 65536 && SizeOf(zone.blocks) + RoomFor(us, 0) <= zone.buf.Length
    requires forall k :: 0 <= k < |us| ==> arrays[k] != zone.buf && CanAppend(us[k], arrays[k][..])
    modifies zone.buf, zone`blocks
    ensures zone.Valid() && (ok <==> h.numMdci == 0)
    ensures zone.blocks != [] && Header.SECOND <= |zone.blocks[0]|
    ensures Header.IsHeader(zone.blocks[0][..Header.SECOND], h) && Refilled(old(zone.blocks), zone.blocks, Header.SECOND)
    ensures us != [] || old(zone.blocks) != [] ==> HoldsUes(zone.blocks, |old(zone.blocks)|, us, bits, |us|)
    ensures us == [] && old(zone.blocks) == [] ==> |zone.blocks| == 1 && |zone.blocks[0]| == Header.SECOND
  {
    ok := FillAndAppend(zone, h, us, arrays);
    assert BitsOf(arrays) == bits;
    ghost var cs := zone.blocks;
    SendAnyway(zone, Header.SECOND);
    assert cs != [] ==> zone.blocks == cs;
  }

  /** Filling the header changes no size. */
  lemma SizeOfFilled(cs: seq<seq<byte>>, cs': seq<seq<byte>>, second: nat)
    requires |cs| == |cs'| && (forall i :: 0 < i < |cs| ==> cs'[i] == cs[i])
    requires cs != [] ==> second <= |cs[0]| && second <= |cs'[0]| && cs'[0][second..] == cs[0][second..]
    ensures SizeOf(cs') == SizeOf(cs)
  {
    if cs != [] {
      assert |cs'[0][second..]| == |cs[0][second..]|;
    }
    SizeOfSame(cs, cs');
  }
}
