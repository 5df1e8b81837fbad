/** Bytes, little-endian integers and structures with fixed field offsets. */
module Bytes {

  type byte = x: int | 0 <= x < 256

  /** The little-endian integer of w bytes at an offset. */
  function Get(m: seq<byte>, at: nat, w: nat): (v: nat)
    requires at + w <= |m|
    decreases w
  {
    if w == 0 then 0 else m[at] + 256 * Get(m, at + 1, w - 1)
  }

  /** Store the w low bytes of an integer at an offset. */
  function Put(m: seq<byte>, at: nat, w: nat, v: nat): (m': seq<byte>)
    requires at + w <= |m|
    ensures |m'| == |m|
    ensures forall i :: 0 <= i < |m| && !(at <= i < at + w) ==> m'[i] == m[i]
    decreases w
  {
    if w == 0 then m else Put(m[at := v % 256], at + 1, w - 1, v / 256)
  }

  function Pow256(w: nat): (r: nat)
    ensures 1 <= r
  {
    if w == 0 then 1 else 256 * Pow256(w - 1)
  }

  lemma SliceOfSlice(m: seq<byte>, at: nat, n: nat, i: nat, j: nat)
    requires at + n <= |m| && i <= j <= n
    ensures m[at..at + n][i..j] == m[at + i..at + j]
  {
    var inner, direct := m[at..at + n][i..j], m[at + i..at + j];
    assert forall k :: 0 <= k < j - i ==> inner[k] == direct[k];
  }

  /** Reading depends on the bytes read only. */
  lemma {:induction false} GetFrame(m: seq<byte>, m': seq<byte>, at: nat, at': nat, w: nat)
    requires at + w <= |m| && at' + w <= |m'| && m[at..at + w] == m'[at'..at' + w]
    ensures Get(m, at, w) == Get(m', at', w)
    decreases w
  {
    if 0 < w {
      assert m[at] == m[at..at + w][0] && m'[at'] == m'[at'..at' + w][0];
      assert m[at + 1..at + w] == m[at..at + w][1..] && m'[at' + 1..at' + w] == m'[at'..at' + w][1..];
      GetFrame(m, m', at + 1, at' + 1, w - 1);
    }
  }

  /** What was stored is read back, modulo the width. */
  lemma {:induction false} GetOfPut(m: seq<byte>, at: nat, w: nat, v: nat)
    requires at + w <= |m| && v < Pow256(w)
    ensures Get(Put(m, at, w, v), at, w) == v
    decreases w
  {
    if 0 < w {
      var m1 := m[at := v % 256];
      GetOfPut(m1, at + 1, w - 1, v / 256);
      assert Put(m, at, w, v)[at] == m1[at];
    }
  }

  /** A field of a C structure. */
  datatype Field = Field(at: nat, width: nat)

  /** Fields lie inside `size` bytes and do not overlap. */
  predicate IsLayout(fs: seq<Field>, size: nat) {
    && (forall i :: 0 <= i < |fs| ==> fs[i].at + fs[i].width <= size)
    && (forall i, j :: 0 <= i < j < |fs| ==> fs[i].at + fs[i].width <= fs[j].at || fs[j].at + fs[j].width <= fs[i].at)
  }

  /** Fields that lie in a stretch and do not overlap. */
  predicate LiesIn(fs: seq<Field>, lo: nat, hi: nat) {
    IsLayout(fs, hi) && forall i :: 0 <= i < |fs| ==> lo <= fs[i].at
  }

  lemma Stretches(a: seq<Field>, b: seq<Field>, lo: nat, mid: nat, hi: nat)
    requires LiesIn(a, lo, mid) && LiesIn(b, mid, hi) && lo <= mid <= hi
    ensures LiesIn(a + b, lo, hi)
  {
    var fs := a + b;
    forall i | 0 <= i < |fs|
      ensures lo <= fs[i].at && fs[i].at + fs[i].width <= hi
    {
      assert fs[i] == if i < |a| then a[i] else b[i - |a|];
    }
    forall i, j | 0 <= i < j < |fs|
      ensures fs[i].at + fs[i].width <= fs[j].at || fs[j].at + fs[j].width <= fs[i].at
    {
      assert fs[i] == (if i < |a| then a[i] else b[i - |a|]) && fs[j] == if j < |a| then a[j] else b[j - |a|];
    }
  }

  predicate Fits(fs: seq<Field>, vs: seq<nat>) {
    |vs| == |fs| && forall i :: 0 <= i < |fs| ==> vs[i] < Pow256(fs[i].width)
  }

  /** Assign the fields one after the other over some memory. */
  function Assign(m: seq<byte>, fs: seq<Field>, vs: seq<nat>): (m': seq<byte>)
    requires |vs| == |fs| && IsLayout(fs, |m|)
    ensures |m'| == |m|
  {
    if fs == [] then m
    else
      var n := |fs| - 1;
      Put(Assign(m, fs[..n], vs[..n]), fs[n].at, fs[n].width, vs[n])
  }

  /** The value of every field. */
  function Fetch(m: seq<byte>, fs: seq<Field>): (vs: seq<nat>)
    requires IsLayout(fs, |m|)
    ensures |vs| == |fs|
  {
    seq(|fs|, i requires 0 <= i < |fs| => Get(m, fs[i].at, fs[i].width))
  }

  lemma OtherField(m: seq<byte>, f: Field, g: Field, v: nat)
    requires f.at + f.width <= |m| && g.at + g.width <= |m|
    requires f.at + f.width <= g.at || g.at + g.width <= f.at
    ensures Get(Put(m, g.at, g.width, v), f.at, f.width) == Get(m, f.at, f.width)
  {
    GetFrame(Put(m, g.at, g.width, v), m, f.at, f.at, f.width);
  }

  /** A structure is read back as it was assigned, whatever memory lay under it. */
  lemma {:induction false} FetchOfAssign(m: seq<byte>, fs: seq<Field>, vs: seq<nat>)
    requires IsLayout(fs, |m|) && Fits(fs, vs)
    ensures Fetch(Assign(m, fs, vs), fs) == vs
  {
    if fs != [] {
      var n := |fs| - 1;
      var m1 := Assign(m, fs[..n], vs[..n]);
      FetchOfAssign(m, fs[..n], vs[..n]);
      GetOfPut(m1, fs[n].at, fs[n].width, vs[n]);
      forall i | 0 <= i < n
        ensures Get(Assign(m, fs, vs), fs[i].at, fs[i].width) == vs[i]
      {
        OtherField(m1, fs[i], fs[n], vs[n]);
        assert Fetch(m1, fs[..n])[i] == vs[i];
      }
    }
  }

  /** A store touches its field only. */
  lemma {:induction false} AssignFrame(m: seq<byte>, fs: seq<Field>, vs: seq<nat>, k: nat)
    requires |vs| == |fs| && IsLayout(fs, |m|) && k < |m|
    requires forall i :: 0 <= i < |fs| ==> !(fs[i].at <= k < fs[i].at + fs[i].width)
    ensures Assign(m, fs, vs)[k] == m[k]
  {
    if fs != [] {
      AssignFrame(m, fs[..|fs| - 1], vs[..|fs| - 1], k);
    }
  }

  /** Storing in a slice is storing in the whole. */
  lemma {:induction false} PutSlice(m: seq<byte>, base: nat, size: nat, at: nat, w: nat, v: nat)
    requires base + size <= |m| && at + w <= size
    ensures Put(m, base + at, w, v)[base..base + size] == Put(m[base..base + size], at, w, v)
    decreases w
  {
    if 0 < w {
      var m1 := m[base + at := v % 256];
      assert m1[base..base + size] == m[base..base + size][at := v % 256];
      PutSlice(m1, base, size, at + 1, w - 1, v / 256);
    }
  }

  /** Store one integer in place, byte by byte. */
  method PutInt(buf: array<byte>, at: nat, w: nat, v: nat)
    requires at + w <= buf.Length
    modifies buf
    ensures buf[..] == Put(old(buf[..]), at, w, v)
  {
    var rest := v;
    ghost var m := buf[..];
    for i := 0 to w
      invariant Put(m, at, w, v) == Put(buf[..], at + i, w - i, rest)
    {
      ghost var before := buf[..];
      buf[at + i] := rest % 256;
      assert buf[..] == before[at + i := rest % 256];
      rest := rest / 256;
    }
  }

  /** Fill a structure in place. */
  method StoreFields(buf: array<byte>, base: nat, size: nat, fs: seq<Field>, vs: seq<nat>)
    requires base + size <= buf.Length && IsLayout(fs, size) && |vs| == |fs|
    modifies buf
    ensures buf[base..base + size] == Assign(old(buf[base..base + size]), fs, vs)
    ensures Fits(fs, vs) ==> Fetch(buf[base..base + size], fs) == vs
    ensures forall k :: 0 <= k < buf.Length && !(base <= k < base + size) ==> buf[k] == old(buf[k])
  {
    ghost var m := buf[base..base + size];
    for i := 0 to |fs|
      invariant buf[base..base + size] == Assign(m, fs[..i], vs[..i])
      invariant forall k :: 0 <= k < buf.Length && !(base <= k < base + size) ==> buf[k] == old(buf[k])
    {
      ghost var before := buf[..];
      assert before[base..base + size] == buf[base..base + size];
      PutInt(buf, base + fs[i].at, fs[i].width, vs[i]);
      PutSlice(before, base, size, fs[i].at, fs[i].width, vs[i]);
      assert buf[..][base..base + size] == buf[base..base + size];
      assert fs[..i + 1][..i] == fs[..i] && vs[..i + 1][..i] == vs[..i];
    }
    assert fs[..|fs|] == fs && vs[..|fs|] == vs;
    if Fits(fs, vs) {
      FetchOfAssign(m, fs, vs);
    }
  }

  lemma {:induction false} GetFits(m: seq<byte>, at: nat, w: nat)
    requires at + w <= |m|
    ensures Get(m, at, w) < Pow256(w)
    decreases w
  {
    if 0 < w {
      GetFits(m, at + 1, w - 1);
    }
  }

  /** Load one integer. */
  method GetInt(buf: array<byte>, at: nat, w: nat) returns (v: nat)
    requires at + w <= buf.Length
    ensures v == Get(buf[..], at, w) && v < Pow256(w)
  {
    v := 0;
    var i := w;
    while 0 < i
      invariant 0 <= i <= w && v == Get(buf[..], at + i, w - i)
    {
      i := i - 1;
      v := buf[at + i] + 256 * v;
    }
    GetFits(buf[..], at, w);
  }

  /** The two bytes of a uint16 field. */
  function U16(m: seq<byte>, at: nat): (v: nat)
    requires at + 2 <= |m|
    ensures v == (m[at] as int) + 256 * (m[at + 1] as int)
  {
    assert Get(m, at + 1, 1) == (m[at + 1] as int) + 256 * Get(m, at + 2, 0);
    Get(m, at, 2)
  }

  method ReadU16(buf: array<byte>, at: nat) returns (v: nat)
    requires at + 2 <= buf.Length
    ensures v == U16(buf[..], at) && v < 65536
  {
    v := GetInt(buf, at, 2);
  }

  method WriteU16(buf: array<byte>, at: nat, v: nat)
    requires at + 2 <= buf.Length && v < 65536
    modifies buf
    ensures U16(buf[..], at) == v
    ensures forall k :: 0 <= k < buf.Length && !(at <= k < at + 2) ==> buf[k] == old(buf[k])
  {
    ghost var m := buf[..];
    PutInt(buf, at, 2, v);
    assert Pow256(2) == 65536;
    GetOfPut(m, at, 2, v);
    assert forall k :: 0 <= k < buf.Length ==> buf[k] == Put(m, at, 2, v)[k];
  }
}
