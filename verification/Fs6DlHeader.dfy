/** The second header of the downlink: PBCH, PDCCH, PHICH and clocks of the subframe, which the DU
    reads at the front of what it received. */
module Fs6DlHeader {
  import opened Bytes
  import opened Fs6Zone

  /** sizeof(fs6_dl_t) on a 64-bit target, and the DCI entries it has room for. */
  const SECOND: nat := 360
  const DCI_MAX: nat := 8
  const AMP: nat := 512
  const DCI_BYTES: nat := 28
  const PHICH_BYTES: nat := 97

  /** pbch_pdu, num_pdcch_symbols, num_dci; then dci_alloc[8] of 28 bytes each; then num_mdci, amp,
      phich_vars, DuClock, CuSpentMicroSec. */
  const LEAD_FIELDS: seq<Field> := [Field(0, 4), Field(4, 4), Field(8, 4)]
  const TAIL_FIELDS: seq<Field> := [Field(236, 4), Field(240, 4), Field(244, PHICH_BYTES), Field(344, 8), Field(352, 8)]

  function DciFields(n: nat): (fs: seq<Field>)
    ensures |fs| == n && forall i :: 0 <= i < n ==> fs[i] == Field(12 + 28 * i, DCI_BYTES)
  {
    seq(n, i requires 0 <= i < n => Field(12 + 28 * i, DCI_BYTES))
  }

  /** The fields assigned for n DCI entries. */
  function HeaderFields(n: nat): (fs: seq<Field>)
    ensures |fs| == n + 8
  {
    LEAD_FIELDS + DciFields(n) + TAIL_FIELDS
  }

  lemma HeaderIsLayout(n: nat)
    requires n <= DCI_MAX
    ensures IsLayout(HeaderFields(n), SECOND)
  {
    assert LiesIn(LEAD_FIELDS, 0, 12) && LiesIn(DciFields(n), 12, 236) && LiesIn(TAIL_FIELDS, 236, SECOND);
    Stretches(LEAD_FIELDS, DciFields(n), 0, 12, 236);
    Stretches(LEAD_FIELDS + DciFields(n), TAIL_FIELDS, 0, 236, SECOND);
  }

  /** The CU's side: what it transmits in the subframe. `dcis` are the entries of pdcch_vars. */
  datatype CuSubframe = CuSubframe(
    pbch: nat, symbols: nat, dcis: seq<nat>, numMdci: nat, phich: nat, duClock: nat, spent: nat)
  {
    /** num_dci, reduced to 8 when it is too large. */
    function Sent(): (n: nat)
      ensures n <= DCI_MAX && n <= |dcis|
    {
      if |dcis| <= DCI_MAX then |dcis| else DCI_MAX
    }
  }

  function HeaderValues(h: CuSubframe): (vs: seq<nat>)
    ensures |vs| == h.Sent() + 8
  {
    [h.pbch, h.symbols, h.Sent()] + h.dcis[..h.Sent()] + [h.numMdci, AMP, h.phich, h.duClock, h.spent]
  }

  /** The bytes are the header of this subframe. */
  ghost predicate IsHeader(s: seq<byte>, h: CuSubframe) {
    |s| == SECOND && IsLayout(HeaderFields(h.Sent()), SECOND) && Fetch(s, HeaderFields(h.Sent())) == HeaderValues(h)
  }

  /** The CU fills the header at the front of its zone. With MBMS entries the program aborts. */
  method FillHeader(zone: BufferZone, h: CuSubframe) returns (ok: bool)
    requires zone.Valid() && zone.Leads(SECOND) && Fits(HeaderFields(h.Sent()), HeaderValues(h))
    modifies zone.buf, zone`blocks
    ensures ok <==> h.numMdci == 0
    ensures zone.Valid() && zone.Leads(SECOND) && IsHeader(zone.Front(SECOND), h)
    ensures |zone.blocks| == |old(zone.blocks)|
    ensures forall i :: 0 < i < |zone.blocks| ==> zone.blocks[i] == old(zone.blocks)[i]
    ensures zone.blocks != [] ==> zone.blocks[0][SECOND..] == old(zone.blocks)[0][SECOND..]
  {
    HeaderIsLayout(h.Sent());
    FetchOfAssign(zone.Front(SECOND), HeaderFields(h.Sent()), HeaderValues(h));
    StoreFront(zone, SECOND, HeaderFields(h.Sent()), HeaderValues(h));
    ok := h.numMdci == 0;
  }

  // The DU's side.

  /** pdcch_vars: counters of one byte, 32 entries. */
  datatype Pdcch = Pdcch(symbols: nat, numDci: nat, dcis: seq<nat>)

  /** pbch_pdu, and per parity of the subframe pdcch_vars, mpdcch_vars.num_dci and phich_vars; `amp`
      goes to the DCI generator. */
  datatype Common = Common(pbch: nat, pdcch: seq<Pdcch>, numMdci: seq<nat>, phich: seq<nat>, amp: nat)
  {
    predicate Valid() {
      |pdcch| == |numMdci| == |phich| == 2 && |pdcch[0].dcis| == |pdcch[1].dcis| == 32
    }
  }

  /** The number of entries the DU copies, an int; beyond 8 it would read behind the list. */
  function NumDci(s: seq<byte>): int
    requires |s| == SECOND
  {
    Signed32(Get(s, 8, 4))
  }

  function Signed32(v: nat): int { if v < 0x8000_0000 then v else v - 0x1_0000_0000 }

  function DciAt(s: seq<byte>, i: nat): nat
    requires |s| == SECOND && i < DCI_MAX
  {
    Get(s, 12 + 28 * i, DCI_BYTES)
  }

  /** The entries of the header over the DU's. */
  function CopyDcis(before: seq<nat>, s: seq<byte>): (r: seq<nat>)
    requires |before| == 32 && |s| == SECOND && NumDci(s) <= DCI_MAX
    ensures |r| == 32
    ensures forall i :: 0 <= i < 32 ==> r[i] == if i < NumDci(s) then DciAt(s, i) else before[i]
  {
    seq(32, i requires 0 <= i < 32 => if i < NumDci(s) then DciAt(s, i) else before[i])
  }

  /** The other values the DU reads. */
  datatype Read = Read(pbch: nat, symbols: nat, numDci: int, numMdci: nat, amp: nat, phich: nat)

  function ReadOf(s: seq<byte>): (r: Read)
    requires |s| == SECOND
    ensures r.numDci == NumDci(s)
  {
    Read(Get(s, 0, 4), Get(s, 4, 4), NumDci(s), Get(s, 236, 4), Get(s, 240, 4), Get(s, 244, PHICH_BYTES))
  }

  /** The assignments, with their truncation to uint8_t. */
  function Install(cm: Common, k: nat, r: Read, dcis: seq<nat>): (cm': Common)
    requires cm.Valid() && k < 2 && |dcis| == 32
    ensures cm'.Valid()
  {
    Common(r.pbch, cm.pdcch[k := Pdcch(r.symbols % 256, r.numDci % 256, dcis)], cm.numMdci[k := r.numMdci % 256],
           cm.phich[k := r.phich], r.amp)
  }

  function TakeHeader(cm: Common, k: nat, s: seq<byte>): (r: Common)
    requires cm.Valid() && k < 2 && |s| == SECOND && NumDci(s) <= DCI_MAX
    ensures r.Valid()
  {
    Install(cm, k, ReadOf(s), CopyDcis(cm.pdcch[k].dcis, s))
  }

  /** What a header is not about is as it was: the other parity, and the DCI entries behind those it
      counts. */
  ghost predicate KeepsRest(cm: Common, r: Common, k: nat, s: seq<byte>)
    requires cm.Valid() && r.Valid() && k < 2 && |s| == SECOND
  {
    && r.pdcch[1 - k] == cm.pdcch[1 - k] && r.numMdci[1 - k] == cm.numMdci[1 - k] && r.phich[1 - k] == cm.phich[1 - k]
    && forall i :: 0 <= i < 32 && NumDci(s) <= i ==> r.pdcch[k].dcis[i] == cm.pdcch[k].dcis[i]
  }

  lemma RestIsKept(cm: Common, k: nat, s: seq<byte>)
    requires cm.Valid() && k < 2 && |s| == SECOND && NumDci(s) <= DCI_MAX
    ensures KeepsRest(cm, TakeHeader(cm, k, s), k, s)
  {
  }

  lemma HeaderField(s: seq<byte>, h: CuSubframe, i: nat)
    requires IsHeader(s, h) && i < h.Sent() + 8
    ensures var f := HeaderFields(h.Sent())[i]; f.at + f.width <= SECOND && Get(s, f.at, f.width) == HeaderValues(h)[i]
  {
    assert Fetch(s, HeaderFields(h.Sent()))[i] == HeaderValues(h)[i];
  }

  lemma LeadArrives(s: seq<byte>, h: CuSubframe)
    requires IsHeader(s, h)
    ensures Get(s, 0, 4) == h.pbch && Get(s, 4, 4) == h.symbols && NumDci(s) == h.Sent()
  {
    HeaderField(s, h, 0);
    HeaderField(s, h, 1);
    HeaderField(s, h, 2);
  }

  lemma TailArrives(s: seq<byte>, h: CuSubframe)
    requires IsHeader(s, h)
    ensures Get(s, 236, 4) == h.numMdci && Get(s, 240, 4) == AMP && Get(s, 244, PHICH_BYTES) == h.phich
  {
    var n, fs, vs := h.Sent(), HeaderFields(h.Sent()), HeaderValues(h);
    assert fs[n + 3..] == TAIL_FIELDS && vs[n + 3..] == [h.numMdci, AMP, h.phich, h.duClock, h.spent];
    HeaderField(s, h, n + 3);
    HeaderField(s, h, n + 4);
    HeaderField(s, h, n + 5);
    assert fs[n + 3] == fs[n + 3..][0] && fs[n + 4] == fs[n + 3..][1] && fs[n + 5] == fs[n + 3..][2];
    assert vs[n + 3] == vs[n + 3..][0] && vs[n + 4] == vs[n + 3..][1] && vs[n + 5] == vs[n + 3..][2];
  }

  /** DuClock and CuSpentMicroSec, as DL_du_fs6 reads them for the transport time. */
  function ClocksOf(s: seq<byte>): (nat, nat)
    requires |s| == SECOND
  {
    (Get(s, 344, 8), Get(s, 352, 8))
  }

  lemma ClocksArrive(s: seq<byte>, h: CuSubframe)
    requires IsHeader(s, h)
    ensures ClocksOf(s) == (h.duClock, h.spent)
  {
    var n, fs, vs := h.Sent(), HeaderFields(h.Sent()), HeaderValues(h);
    assert fs[n + 3..] == TAIL_FIELDS && vs[n + 3..] == [h.numMdci, AMP, h.phich, h.duClock, h.spent];
    HeaderField(s, h, n + 6);
    HeaderField(s, h, n + 7);
    assert fs[n + 6] == fs[n + 3..][3] && fs[n + 7] == fs[n + 3..][4];
    assert vs[n + 6] == vs[n + 3..][3] && vs[n + 7] == vs[n + 3..][4];
  }

  lemma DciArrives(s: seq<byte>, h: CuSubframe, i: nat)
    requires IsHeader(s, h) && i < h.Sent()
    ensures DciAt(s, i) == h.dcis[i]
  {
    HeaderField(s, h, 3 + i);
    assert HeaderFields(h.Sent())[3 + i] == DciFields(h.Sent())[i];
  }

  /** What the DU has to transmit is what the CU said: its own header, read back. */
  ghost predicate Agrees(cm: Common, k: nat, h: CuSubframe)
    requires cm.Valid() && k < 2
  {
    && cm.pbch == h.pbch && cm.pdcch[k].symbols == h.symbols && cm.pdcch[k].numDci == h.Sent()
    && cm.pdcch[k].dcis[..h.Sent()] == h.dcis[..h.Sent()]
    && cm.numMdci[k] == h.numMdci && cm.phich[k] == h.phich && cm.amp == AMP
  }

  lemma HeaderArrives(cm: Common, k: nat, s: seq<byte>, h: CuSubframe)
    requires cm.Valid() && k < 2 && IsHeader(s, h) && h.symbols < 256 && h.numMdci < 256
    ensures NumDci(s) <= DCI_MAX && Agrees(TakeHeader(cm, k, s), k, h)
  {
    LeadArrives(s, h);
    TailArrives(s, h);
    DcisArrive(cm.pdcch[k].dcis, s, h);
    InstallAgrees(cm, k, h, CopyDcis(cm.pdcch[k].dcis, s));
  }

  lemma InstallAgrees(cm: Common, k: nat, h: CuSubframe, dcis: seq<nat>)
    requires cm.Valid() && k < 2 && h.symbols < 256 && h.numMdci < 256
    requires |dcis| == 32 && dcis[..h.Sent()] == h.dcis[..h.Sent()]
    ensures Agrees(Install(cm, k, Read(h.pbch, h.symbols, h.Sent(), h.numMdci, AMP, h.phich), dcis), k, h)
  {
  }

  lemma DcisArrive(before: seq<nat>, s: seq<byte>, h: CuSubframe)
    requires |before| == 32 && IsHeader(s, h) && NumDci(s) == h.Sent()
    ensures CopyDcis(before, s)[..h.Sent()] == h.dcis[..h.Sent()]
  {
    var r := CopyDcis(before, s);
    forall i | 0 <= i < h.Sent()
      ensures r[i] == h.dcis[i]
    {
      DciArrives(s, h, i);
    }
  }

  /** The DU has the CU's whole DCI list if and only if the list has at most 8 entries. */
  lemma WholeDciListIff(cm: Common, k: nat, h: CuSubframe)
    requires cm.Valid() && k < 2 && Agrees(cm, k, h)
    ensures cm.pdcch[k].numDci <= 32
    ensures cm.pdcch[k].dcis[..cm.pdcch[k].numDci] == h.dcis <==> |h.dcis| <= DCI_MAX
  {
    if |h.dcis| <= DCI_MAX {
      assert h.dcis[..h.Sent()] == h.dcis;
    } else {
      assert |cm.pdcch[k].dcis[..h.Sent()]| != |h.dcis|;
    }
  }
}
