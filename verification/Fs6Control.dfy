/** Control blocks of the uplink with any number of elements, element by element. */
module Fs6Control {
  import opened Options
  import opened Bytes
  import opened Fs6Uplink

  /** The control elements of a block. */
  ghost function ElementsIn(c: seq<byte>, sh: Shape): (es: seq<Element>)
    requires Takes(c, sh)
    ensures forall j :: 0 <= j < |es| ==> es[j].ueId < sh.ucis
  {
    if SECOND < |c| && c[SECOND] == UL_CCH then FirstElements(c, sh, Count(c)) else []
  }

  ghost function FirstElements(c: seq<byte>, sh: Shape, n: nat): (es: seq<Element>)
    requires HasElements(c, sh, n)
    ensures |es| == n && forall j :: 0 <= j < n ==> es[j] == ElementAt(c, j) && es[j].ueId < sh.ucis
  {
    if n == 0 then [] else FirstElements(c, sh, n - 1) + [ElementAt(c, n - 1)]
  }

  /** The control elements of all blocks, in order. */
  ghost function ElementsOf(cs: seq<seq<byte>>, sh: Shape): (es: seq<Element>)
    requires AllTaken(cs, sh)
    ensures forall j :: 0 <= j < |es| ==> es[j].ueId < sh.ucis
  {
    if cs == [] then [] else ElementsOf(cs[..|cs| - 1], sh) + ElementsIn(cs[|cs| - 1], sh)
  }

  /** The element brings a UCI for this entry. */
  predicate Brings(e: Element, u: nat) { e.ueId == u && e.uci.ueId != 0xFFFF }

  /** The UCI of the last element that brings one for the entry, else what was there. */
  ghost predicate IsStored(es: seq<Element>, u: nat, before: Uci, after: Uci) {
    || (after == before && forall j :: 0 <= j < |es| ==> !Brings(es[j], u))
    || (exists k :: 0 <= k < |es| && Brings(es[k], u) && es[k].uci == after && forall j :: k < j < |es| ==> !Brings(es[j], u))
  }

  lemma StoredOneMore(es: seq<Element>, u: nat, before: Uci, mid: Uci, e: Element)
    requires IsStored(es, u, before, mid)
    ensures IsStored(es + [e], u, before, if Brings(e, u) then e.uci else mid)
  {
    var es' := es + [e];
    if Brings(e, u) {
      assert Brings(es'[|es|], u) && es'[|es|].uci == e.uci;
    } else if k :| 0 <= k < |es| && Brings(es[k], u) && es[k].uci == mid && forall j :: k < j < |es| ==> !Brings(es[j], u) {
      assert es'[k] == es[k];
    }
  }

  /** The call of an element, with the UCI that is stored when it is made. */
  predicate IsCallOf(ev: Event, e: Element, stored: Uci) {
    match ev
    case HarqIndication(ue, uci, frame, subframe, ack, mapping, mask) =>
      && e.kind == INDICATION_HARQ && ue == e.ueId && uci == stored && frame == e.frame && subframe == e.subframe
      && ack == e.harqAck && mapping == e.mapping && mask == e.mask
    case SrIndication(ue, rnti, frame, subframe, stat) =>
      && e.kind == INDICATION_SR && ue == e.ueId && rnti == e.rnti && frame == e.frame && subframe == e.subframe
      && stat == e.stat
  }

  predicate Calls(e: Element) { e.kind == INDICATION_HARQ || e.kind == INDICATION_SR }

  /** One event for each element that calls, in order; a HARQ event has the UCI stored for its entry after
      its own element. */
  ghost predicate AreCalls(evs: seq<Event>, es: seq<Element>, before: seq<Uci>)
    requires forall j :: 0 <= j < |es| ==> es[j].ueId < |before|
    decreases |es|
  {
    if es == [] then evs == []
    else
      var n := |es| - 1;
      if Calls(es[n]) then
        && evs != [] && AreCalls(evs[..|evs| - 1], es[..n], before)
        && exists stored :: IsStored(es, es[n].ueId, before[es[n].ueId], stored) && IsCallOf(evs[|evs| - 1], es[n], stored)
      else AreCalls(evs, es[..n], before)
  }

  /** What the elements did: entries, noise level and calls. */
  ghost predicate IsTaken(st: CuState, r: CuState, sh: Shape, es: seq<Element>)
    requires IsCu(st, sh) && IsCu(r, sh) && forall j :: 0 <= j < |es| ==> es[j].ueId < sh.ucis
  {
    && (forall u :: 0 <= u < sh.ucis ==> IsStored(es, u, st.uci[u], r.uci[u]))
    && r.n0 == (if es == [] then st.n0 else es[|es| - 1].n0)
    && st.events <= r.events && AreCalls(r.events[|st.events|..], es, st.uci)
  }

  lemma CallsOneMore(evs: seq<Event>, es: seq<Element>, before: seq<Uci>, e: Element, more: seq<Event>, stored: Uci)
    requires e.ueId < |before| && (forall j :: 0 <= j < |es| ==> es[j].ueId < |before|) && AreCalls(evs, es, before)
    requires IsStored(es + [e], e.ueId, before[e.ueId], stored)
    requires if Calls(e) then |more| == 1 && IsCallOf(more[0], e, stored) else more == []
    ensures AreCalls(evs + more, es + [e], before)
  {
    assert (es + [e])[..|es|] == es;
    if Calls(e) {
      assert (evs + more)[..|evs|] == evs;
    } else {
      assert evs + more == evs;
    }
  }

  lemma ElementIsTaken(st: CuState, s: CuState, sh: Shape, es: seq<Element>, e: Element)
    requires IsCu(st, sh) && IsCu(s, sh) && e.ueId < sh.ucis && (forall j :: 0 <= j < |es| ==> es[j].ueId < sh.ucis)
    requires IsTaken(st, s, sh, es)
    ensures IsTaken(st, PutElement(s, sh, e), sh, es + [e])
  {
    var r := PutElement(s, sh, e);
    forall u | 0 <= u < sh.ucis
      ensures IsStored(es + [e], u, st.uci[u], r.uci[u])
    {
      StoredOneMore(es, u, st.uci[u], s.uci[u], e);
    }
    var evs, more := s.events[|st.events|..], r.events[|s.events|..];
    assert r.events[|st.events|..] == evs + more;
    CallsOneMore(evs, es, st.uci, e, more, r.uci[e.ueId]);
  }

  lemma NextIsTaken(st: CuState, s: CuState, r: CuState, sh: Shape, es: seq<Element>, es': seq<Element>, e: Element)
    requires IsCu(st, sh) && IsCu(s, sh) && e.ueId < sh.ucis && AllKnown(es, sh)
    requires IsTaken(st, s, sh, es) && r == PutElement(s, sh, e) && es' == es + [e]
    ensures AllKnown(es', sh) && IsTaken(st, r, sh, es')
  {
    ElementIsTaken(st, s, sh, es, e);
  }

  ghost predicate AllKnown(es: seq<Element>, sh: Shape) { forall j :: 0 <= j < |es| ==> es[j].ueId < sh.ucis }

  /** Elements one after the other. */
  ghost function PutAll(st: CuState, sh: Shape, es: seq<Element>): (r: CuState)
    requires IsCu(st, sh) && AllKnown(es, sh)
    ensures IsCu(r, sh)
  {
    if es == [] then st else PutElement(PutAll(st, sh, es[..|es| - 1]), sh, es[|es| - 1])
  }

  lemma PutAllOneMore(st: CuState, sh: Shape, es: seq<Element>, e: Element)
    requires IsCu(st, sh) && AllKnown(es, sh) && e.ueId < sh.ucis
    ensures AllKnown(es + [e], sh) && PutAll(st, sh, es + [e]) == PutElement(PutAll(st, sh, es), sh, e)
  {
    assert (es + [e])[..|es|] == es;
  }

  lemma LastElement(st: CuState, sh: Shape, c: seq<byte>, n: nat, e: Element)
    requires 0 < n && IsCu(st, sh) && HasElements(c, sh, n) && e == ElementAt(c, n - 1)
    ensures HasElements(c, sh, n - 1) && e.ueId < sh.ucis && FirstElements(c, sh, n) == FirstElements(c, sh, n - 1) + [e]
    ensures PutElements(st, sh, c, n) == PutElement(PutElements(st, sh, c, n - 1), sh, e)
  {
  }

  lemma {:induction false} PutAllOfBlock(st: CuState, sh: Shape, c: seq<byte>, n: nat)
    requires IsCu(st, sh) && HasElements(c, sh, n)
    ensures PutElements(st, sh, c, n) == PutAll(st, sh, FirstElements(c, sh, n))
    decreases n
  {
    if n > 0 {
      PutAllOfBlock(st, sh, c, n - 1);
      LastElement(st, sh, c, n, ElementAt(c, n - 1));
      PutAllOneMore(st, sh, FirstElements(c, sh, n - 1), ElementAt(c, n - 1));
    }
  }

  lemma {:induction false} BlockIsTaken(st: CuState, s: CuState, sh: Shape, es: seq<Element>, more: seq<Element>)
    requires IsCu(st, sh) && IsCu(s, sh) && AllKnown(es, sh) && AllKnown(more, sh) && IsTaken(st, s, sh, es)
    ensures AllKnown(es + more, sh) && IsTaken(st, PutAll(s, sh, more), sh, es + more)
    decreases |more|
  {
    if more == [] {
      assert es + [] == es;
    } else {
      var n := |more| - 1;
      BlockIsTaken(st, s, sh, es, more[..n]);
      assert es + more[..n] + [more[n]] == es + more;
      NextIsTaken(st, PutAll(s, sh, more[..n]), PutAll(s, sh, more), sh, es + more[..n], es + more, more[n]);
    }
  }

  lemma NothingTaken(st: CuState, sh: Shape)
    requires IsCu(st, sh)
    ensures IsTaken(st, st, sh, [])
  {
    assert st.events[|st.events|..] == [];
  }

  /** After any walk, whatever kinds of blocks and however many elements in each: every entry is the UCI of
      the last element that brings one for it, the noise level is the last element's, and the calls are
      those of the elements in order, each with the UCI stored at that time. */
  lemma {:induction false} WalkTakesElements(st: CuState, sh: Shape, cs: seq<seq<byte>>)
    requires IsCu(st, sh) && AllTaken(cs, sh)
    ensures IsTaken(st, Replay(st, sh, cs), sh, ElementsOf(cs, sh))
    decreases |cs|
  {
    if cs == [] {
      NothingTaken(st, sh);
    } else {
      var n := |cs| - 1;
      WalkTakesElements(st, sh, cs[..n]);
      var s, es, c := Replay(st, sh, cs[..n]), ElementsOf(cs[..n], sh), cs[n];
      assert Takes(c, sh);
      if SECOND < |c| && c[SECOND] == UL_CCH {
        PutAllOfBlock(s, sh, c, Count(c));
        BlockIsTaken(st, s, sh, es, FirstElements(c, sh, Count(c)));
      } else {
        assert es + [] == es;
      }
    }
  }
}
