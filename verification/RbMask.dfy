/** The mask of uplink resource blocks in use: four 32-bit words, cleared and then set for every
    UE scheduled in the subframe. */
module RbMask {
  const WORDS: nat := 4
  const BLOCKS: nat := 128

  predicate Bit(w: nat, k: nat)
    decreases k
  {
    if k == 0 then w % 2 == 1 else Bit(w / 2, k - 1)
  }

  /** w | (1 << b) */
  function SetBit(w: nat, b: nat): nat
    decreases b
  {
    if b == 0 then w / 2 * 2 + 1 else SetBit(w / 2, b - 1) * 2 + w % 2
  }

  lemma {:induction false} BitOfSetBit(w: nat, b: nat, k: nat)
    ensures Bit(SetBit(w, b), k) <==> k == b || Bit(w, k)
    decreases b
  {
    if b == 0 {
      assert (w / 2 * 2 + 1) / 2 == w / 2;
    } else {
      var r := SetBit(w / 2, b - 1);
      assert (r * 2 + w % 2) / 2 == r && (r * 2 + w % 2) % 2 == w % 2;
      if k > 0 {
        BitOfSetBit(w / 2, b - 1, k - 1);
      }
    }
  }

  lemma {:induction false} NoBitOfZero(k: nat)
    ensures !Bit(0, k)
  {
    if k > 0 {
      NoBitOfZero(k - 1);
    }
  }

  /** Block k is marked in the words. */
  predicate Marked(words: seq<nat>, k: nat)
    requires |words| == WORDS && k < BLOCKS
  {
    Bit(words[k / 32], k % 32)
  }

  /** What decides about a UE's uplink process and where it is in the band. */
  datatype Ulsch = Ulsch(
    rnti: nat, active: bool, frame: nat, subframe: nat, repetition: nat, handled: bool, firstRb: nat, nbRb: nat)

  predicate Scheduled(u: Ulsch, frame: nat, subframe: nat) {
    && u.rnti > 0 && u.active && !u.handled
    && (u.frame == frame || u.repetition > 1) && (u.subframe == subframe || u.repetition > 1)
  }

  /** The blocks the loop visits for a UE: one more than it has. */
  predicate Occupies(u: Ulsch, k: nat) { u.firstRb <= k <= u.firstRb + u.nbRb }

  ghost predicate InUse(ues: seq<Ulsch>, frame: nat, subframe: nat, k: nat) {
    exists i :: 0 <= i < |ues| && Scheduled(ues[i], frame, subframe) && Occupies(ues[i], k)
  }

  class Enb {
    const rbMaskUl: array<nat>

    ghost predicate Valid() { rbMaskUl.Length == WORDS }

    constructor ()
      ensures Valid() && fresh(rbMaskUl)
    {
      rbMaskUl := new nat[WORDS];
    }

    method Clear()
      requires Valid()
      modifies rbMaskUl
      ensures forall k :: 0 <= k < BLOCKS ==> !Marked(rbMaskUl[..], k)
    {
      rbMaskUl[0], rbMaskUl[1], rbMaskUl[2], rbMaskUl[3] := 0, 0, 0, 0;
      forall k | 0 <= k < BLOCKS
        ensures !Marked(rbMaskUl[..], k)
      {
        NoBitOfZero(k % 32);
      }
    }

    method MarkBlock(rb2: nat)
      requires Valid() && rb2 < BLOCKS
      modifies rbMaskUl
      ensures forall k :: 0 <= k < BLOCKS ==> (Marked(rbMaskUl[..], k) <==> k == rb2 || Marked(old(rbMaskUl[..]), k))
    {
      ghost var words := rbMaskUl[..];
      rbMaskUl[rb2 / 32] := SetBit(rbMaskUl[rb2 / 32], rb2 % 32);
      forall k | 0 <= k < BLOCKS
        ensures Marked(rbMaskUl[..], k) <==> k == rb2 || Marked(words, k)
      {
        BitOfSetBit(words[rb2 / 32], rb2 % 32, k % 32);
      }
    }

    method MarkUe(u: Ulsch)
      requires Valid() && u.firstRb + u.nbRb < BLOCKS
      modifies rbMaskUl
      ensures forall k :: 0 <= k < BLOCKS ==> (Marked(rbMaskUl[..], k) <==> Occupies(u, k) || Marked(old(rbMaskUl[..]), k))
    {
      for rb := 0 to u.nbRb + 1
        invariant forall k :: 0 <= k < BLOCKS ==>
                    (Marked(rbMaskUl[..], k) <==> u.firstRb <= k < u.firstRb + rb || Marked(old(rbMaskUl[..]), k))
      {
        MarkBlock(rb + u.firstRb);
      }
    }

    /** The mask after the UE-specific reception of a subframe: a block is marked just when some
        scheduled UE's range, as the loop runs over it, holds it. */
    method MarkScheduled(ues: seq<Ulsch>, frame: nat, subframe: nat)
      requires Valid()
      requires forall i :: 0 <= i < |ues| && Scheduled(ues[i], frame, subframe) ==> ues[i].firstRb + ues[i].nbRb < BLOCKS
      modifies rbMaskUl
      ensures forall k :: 0 <= k < BLOCKS ==> (Marked(rbMaskUl[..], k) <==> InUse(ues, frame, subframe, k))
    {
      Clear();
      for i := 0 to |ues|
        invariant forall k :: 0 <= k < BLOCKS ==> (Marked(rbMaskUl[..], k) <==> InUse(ues[..i], frame, subframe, k))
      {
        if Scheduled(ues[i], frame, subframe) {
          MarkUe(ues[i]);
        }
        assert ues[..i + 1][..i] == ues[..i] && ues[..i + 1][i] == ues[i];
        forall k: nat | k < BLOCKS
          ensures InUse(ues[..i + 1], frame, subframe, k) <==>
                  InUse(ues[..i], frame, subframe, k) || (Scheduled(ues[i], frame, subframe) && Occupies(ues[i], k))
        {
          OneMoreUe(ues, i, frame, subframe, k);
        }
      }
      assert ues[..|ues|] == ues;
    }
  }

  lemma OneMoreUe(ues: seq<Ulsch>, i: nat, frame: nat, subframe: nat, k: nat)
    requires i < |ues|
    ensures InUse(ues[..i + 1], frame, subframe, k) <==>
            InUse(ues[..i], frame, subframe, k) || (Scheduled(ues[i], frame, subframe) && Occupies(ues[i], k))
  {
    var more := ues[..i + 1];
    assert more[i] == ues[i] && forall j :: 0 <= j < i ==> more[j] == ues[..i][j];
  }
}
