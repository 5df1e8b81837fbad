/** Packing of coded bits for the CU/DU split: one byte a bit on either side, one bit a bit on
    the wire. The sender packs sixteen bytes at a time with a compare, a shuffle and a mask; the
    receiver unpacks eight at a time with a lookup table. */
module Fs6Bits {
  import Arith
  import opened Bytes

  /** Number of sixteen-byte groups for a length; ceil16_bytes of it is twice that. */
  function Groups(n: int): (g: nat)
    ensures n <= 16 * g && (0 < n ==> 16 * (g - 1) < n) && (n <= 0 ==> g == 0)
  {
    if n <= 0 then 0 else (n + 15) / 16
  }

  /** The compare with zero is signed: 1 to 127 count as set. */
  function Bit(b: byte): (r: nat)
    ensures r <= 1
  {
    if 0 < b < 128 then 1 else 0
  }

  /** Eight bytes as one, most significant bit first. */
  function PackByte(x: seq<byte>, at: nat): (r: byte)
    requires at + 8 <= |x|
  {
    128 * Bit(x[at]) + 64 * Bit(x[at + 1]) + 32 * Bit(x[at + 2]) + 16 * Bit(x[at + 3]) +
    8 * Bit(x[at + 4]) + 4 * Bit(x[at + 5]) + 2 * Bit(x[at + 6]) + Bit(x[at + 7])
  }

  /** Plain packing. */
  function Packed(x: seq<byte>, n: int): (p: seq<byte>)
    requires 16 * Groups(n) <= |x|
    ensures |p| == 2 * Groups(n)
  {
    seq(2 * Groups(n), j requires 0 <= j < 2 * Groups(n) => PackByte(x, 8 * j))
  }

  function Shift(k: nat): (r: nat)
    ensures 1 <= r
  {
    if k == 0 then 1 else 2 * Shift(k - 1)
  }

  /** Entry `i` of the table, byte `k`. */
  function TableByte(i: byte, k: nat): (r: byte)
    requires k < 8
  {
    i / Shift(7 - k) % 2
  }

  /** Plain unpacking. */
  function Unpacked(p: seq<byte>): (x: seq<byte>)
    ensures |x| == 8 * |p|
  {
    seq(8 * |p|, k requires 0 <= k < 8 * |p| => TableByte(p[k / 8], k % 8))
  }

  /** Digit b of a number written (2a + b) d + c. */
  lemma Digit(d: nat, a: nat, b: nat, c: nat)
    requires b <= 1 && c < d
    ensures ((2 * a + b) * d + c) / d % 2 == b
  {
    Arith.DivModUnique((2 * a + b) * d + c, d, 2 * a + b, c);
  }

  /** The upper and the lower four digits of a byte. */
  lemma HighDigit(a: nat, b: nat, c: nat, d: nat, low: nat, k: nat)
    requires a <= 1 && b <= 1 && c <= 1 && d <= 1 && low < 16 && k < 4
    ensures (128 * a + 64 * b + 32 * c + 16 * d + low) / Shift(7 - k) % 2 == [a, b, c, d][k]
  {
    assert Shift(1) == 2 && Shift(3) == 8 && Shift(4) == 16 && Shift(5) == 32 && Shift(6) == 64 && Shift(7) == 128;
    match k
    case 0 => Digit(128, 0, a, 64 * b + 32 * c + 16 * d + low);
    case 1 => Digit(64, a, b, 32 * c + 16 * d + low);
    case 2 => Digit(32, 2 * a + b, c, 16 * d + low);
    case 3 => Digit(16, 4 * a + 2 * b + c, d, low);
  }

  lemma LowDigit(high: nat, e: nat, f: nat, g: nat, h: nat, k: nat)
    requires e <= 1 && f <= 1 && g <= 1 && h <= 1 && k < 4
    ensures (16 * high + 8 * e + 4 * f + 2 * g + h) / Shift(3 - k) % 2 == [e, f, g, h][k]
  {
    assert Shift(1) == 2 && Shift(2) == 4 && Shift(3) == 8;
    match k
    case 0 => Digit(8, high, e, 4 * f + 2 * g + h);
    case 1 => Digit(4, 2 * high + e, f, 2 * g + h);
    case 2 => Digit(2, 4 * high + 2 * e + f, g, h);
    case 3 => Digit(1, 8 * high + 4 * e + 2 * f + g, h, 0);
  }

  lemma PackedBit(x: seq<byte>, at: nat, k: nat)
    requires at + 8 <= |x| && k < 8
    ensures TableByte(PackByte(x, at), k) == Bit(x[at + k])
  {
    var a, b, c, d := Bit(x[at]), Bit(x[at + 1]), Bit(x[at + 2]), Bit(x[at + 3]);
    var e, f, g, h := Bit(x[at + 4]), Bit(x[at + 5]), Bit(x[at + 6]), Bit(x[at + 7]);
    if k < 4 {
      HighDigit(a, b, c, d, 8 * e + 4 * f + 2 * g + h, k);
    } else {
      LowDigit(8 * a + 4 * b + 2 * c + d, e, f, g, h, k - 4);
    }
  }

  /** Unpacking a packed array gives, for every position of every group, whether the byte was set. */
  lemma UnpackedOfPacked(x: seq<byte>, n: int)
    requires 16 * Groups(n) <= |x|
    ensures |Unpacked(Packed(x, n))| == 16 * Groups(n)
    ensures forall k :: 0 <= k < 16 * Groups(n) ==> Unpacked(Packed(x, n))[k] == Bit(x[k])
  {
    forall k | 0 <= k < 16 * Groups(n)
      ensures Unpacked(Packed(x, n))[k] == Bit(x[k])
    {
      PackedBit(x, 8 * (k / 8), k % 8);
    }
  }

  /** The round trip is the identity exactly on arrays of zeros and ones. */
  lemma RoundTripIff(x: seq<byte>, n: int)
    requires 16 * Groups(n) <= |x|
    ensures Unpacked(Packed(x, n)) == x[..16 * Groups(n)] <==> forall k :: 0 <= k < 16 * Groups(n) ==> x[k] <= 1
  {
    UnpackedOfPacked(x, n);
    SameIffBits(Unpacked(Packed(x, n)), x, 16 * Groups(n));
  }

  lemma SameIffBits(u: seq<byte>, x: seq<byte>, n: nat)
    requires |u| == n <= |x| && forall k :: 0 <= k < n ==> u[k] == Bit(x[k])
    ensures u == x[..n] <==> forall k :: 0 <= k < n ==> x[k] <= 1
  {
    if u == x[..n] {
      forall k | 0 <= k < n
        ensures x[k] <= 1
      {
        assert u[k] == x[..n][k];
      }
    }
  }

  // The vector instructions of the sender, on sixteen lanes of one byte.

  /** _mm_cmpgt_epi8 against zero: all ones where the signed lane is positive. */
  function CmpGtZero(v: seq<byte>): (r: seq<byte>)
    requires |v| == 16
    ensures |r| == 16
  {
    seq(16, i requires 0 <= i < 16 => if 0 < v[i] < 128 then 255 else 0)
  }

  /** _mm_shuffle_epi8: lane i is the lane the control names, or zero when its top bit is set. */
  function ShuffleEpi8(v: seq<byte>, control: seq<byte>): (r: seq<byte>)
    requires |v| == 16 && |control| == 16
    ensures |r| == 16
  {
    seq(16, i requires 0 <= i < 16 => if 128 <= control[i] then 0 else v[control[i] % 16])
  }

  /** The top bits of the lanes from lane i on, weighted from 2^0. */
  function TopBits(v: seq<byte>, i: nat): (r: nat)
    requires i <= |v|
    decreases |v| - i
  {
    if i == |v| then 0 else (if 128 <= v[i] then 1 else 0) + 2 * TopBits(v, i + 1)
  }

  /** _mm_movemask_epi8: bit i of the result is the top bit of lane i. */
  function MoveMask(v: seq<byte>): (r: nat)
    requires |v| == 16
  {
    TopBits(v, 0)
  }

  /** The control vector, lane 0 first: both halves reversed. */
  const REVERSE_HALVES: seq<byte> := [7, 6, 5, 4, 3, 2, 1, 0, 15, 14, 13, 12, 11, 10, 9, 8]

  /** The vector form computes two plainly packed bytes, the first in the low half. */
  lemma VectorFormIsPlain(x: seq<byte>, at: nat)
    requires at + 16 <= |x|
    ensures MoveMask(ShuffleEpi8(CmpGtZero(x[at..at + 16]), REVERSE_HALVES))
         == PackByte(x, at) + 256 * PackByte(x, at + 8)
  {
    var v := x[at..at + 16];
    var s := ShuffleEpi8(CmpGtZero(v), REVERSE_HALVES);
    forall i | 0 <= i < 16
      ensures s[i] == if i < 8 then 255 * Bit(x[at + 7 - i]) else 255 * Bit(x[at + 23 - i])
    {
      assert v[REVERSE_HALVES[i] % 16] == x[at + REVERSE_HALVES[i] % 16];
    }
    TopBitsOf(s, x, at);
  }

  lemma TopBitsOf(s: seq<byte>, x: seq<byte>, at: nat)
    requires |s| == 16 && at + 16 <= |x|
    requires forall i :: 0 <= i < 16 ==> s[i] == if i < 8 then 255 * Bit(x[at + 7 - i]) else 255 * Bit(x[at + 23 - i])
    ensures TopBits(s, 0) == PackByte(x, at) + 256 * PackByte(x, at + 8)
  {
    assert TopBits(s, 8) == PackByte(x, at + 8) by {
      assert TopBits(s, 16) == 0 && TopBits(s, 15) == Bit(x[at + 8]);
      assert TopBits(s, 14) == Bit(x[at + 9]) + 2 * Bit(x[at + 8]);
      assert TopBits(s, 12) == Bit(x[at + 11]) + 2 * Bit(x[at + 10]) + 4 * TopBits(s, 14);
      assert TopBits(s, 10) == Bit(x[at + 13]) + 2 * Bit(x[at + 12]) + 4 * TopBits(s, 12);
      assert TopBits(s, 8) == Bit(x[at + 15]) + 2 * Bit(x[at + 14]) + 4 * TopBits(s, 10);
    }
    assert TopBits(s, 6) == Bit(x[at + 1]) + 2 * Bit(x[at]) + 4 * TopBits(s, 8);
    assert TopBits(s, 4) == Bit(x[at + 3]) + 2 * Bit(x[at + 2]) + 4 * TopBits(s, 6);
    assert TopBits(s, 2) == Bit(x[at + 5]) + 2 * Bit(x[at + 4]) + 4 * TopBits(s, 4);
    assert TopBits(s, 0) == Bit(x[at + 7]) + 2 * Bit(x[at + 6]) + 4 * TopBits(s, 2);
  }

  /** The word computed from sixteen bytes. */
  method PackWord(iter: seq<byte>, ghost x: seq<byte>, ghost from: nat) returns (word: nat)
    requires from + 16 <= |x| && iter == x[from..from + 16]
    ensures word % 256 == PackByte(x, from) && word / 256 == PackByte(x, from + 8)
  {
    var tmp := ShuffleEpi8(CmpGtZero(iter), REVERSE_HALVES);
    word := MoveMask(tmp);
    VectorFormIsPlain(x, from);
    Arith.DivModUnique(word, 256, PackByte(x, from + 8), PackByte(x, from));
  }

  /** One pass of the loop of fs6Dlpack: sixteen bytes become one little-endian word. */
  method PackGroup(buf: array<byte>, at: nat, src: array<byte>, from: nat)
    requires buf != src && from + 16 <= src.Length && at + 2 <= buf.Length
    modifies buf
    ensures buf[at] == PackByte(src[..], from) && buf[at + 1] == PackByte(src[..], from + 8)
    ensures forall k :: 0 <= k < buf.Length && k != at && k != at + 1 ==> buf[k] == old(buf[k])
  {
    ghost var x := src[..];
    var iter := src[from..from + 16];
    assert iter == x[from..from + 16];
    var word := PackWord(iter, x, from);
    buf[at] := word % 256;
    buf[at + 1] := word / 256;
  }

  /** fs6Dlpack: writes the packed groups at an offset of the buffer. */
  method Fs6DlPack(buf: array<byte>, at: nat, src: array<byte>, szUnpacked: int)
    requires buf != src
    requires 16 * Groups(szUnpacked) <= src.Length && at + 2 * Groups(szUnpacked) <= buf.Length
    modifies buf
    ensures buf[..] == old(buf[..at]) + Packed(src[..], szUnpacked) + old(buf[at + 2 * Groups(szUnpacked)..])
  {
    var loop := Groups(szUnpacked);
    ghost var p := Packed(src[..], szUnpacked);
    for i := 0 to loop
      invariant forall k :: at <= k < at + 2 * i ==> buf[k] == p[k - at]
      invariant forall k :: 0 <= k < buf.Length && !(at <= k < at + 2 * i) ==> buf[k] == old(buf[k])
    {
      PackGroup(buf, at + 2 * i, src, 16 * i);
      assert p[2 * i] == PackByte(src[..], 16 * i) && p[2 * i + 1] == PackByte(src[..], 16 * i + 8);
    }
  }

  /** The static lookup table of fs6Dlunpack. */
  method BuildTable() returns (lut: array2<byte>)
    ensures fresh(lut) && lut.Length0 == 256 && lut.Length1 == 8
    ensures forall i, k :: 0 <= i < 256 && 0 <= k < 8 ==> lut[i, k] == TableByte(i, k)
  {
    lut := new byte[256, 8];
    for i: nat := 0 to 256
      invariant forall a, k :: 0 <= a < i && 0 <= k < 8 ==> lut[a, k] == TableByte(a, k)
    {
      for j: nat := 0 to 8
        invariant forall a, k :: 0 <= a < i && 0 <= k < 8 ==> lut[a, k] == TableByte(a, k)
        invariant forall k :: 8 - j <= k < 8 ==> lut[i, k] == TableByte(i, k)
      {
        lut[i, 7 - j] := i / Shift(j) % 2;
      }
    }
  }

  /** One 64-bit store of fs6Dlunpack: a table entry at an offset. */
  method StoreEntry(out: array<byte>, at: nat, lut: array2<byte>, b: byte)
    requires at + 8 <= out.Length && lut.Length0 == 256 && lut.Length1 == 8
    requires forall k :: 0 <= k < 8 ==> lut[b, k] == TableByte(b, k)
    modifies out
    ensures forall m :: at <= m < at + 8 ==> out[m] == TableByte(b, m - at)
    ensures forall m :: 0 <= m < out.Length && !(at <= m < at + 8) ==> out[m] == old(out[m])
  {
    for k := 0 to 8
      invariant forall m :: at <= m < at + k ==> out[m] == TableByte(b, m - at)
      invariant forall m :: 0 <= m < out.Length && !(at <= m < at + k) ==> out[m] == old(out[m])
    {
      out[at + k] := lut[b, k];
    }
  }

  lemma UnpackedAt(p: seq<byte>, i: nat, m: nat)
    requires i < |p| && 8 * i <= m < 8 * i + 8
    ensures Unpacked(p)[m] == TableByte(p[i], m - 8 * i)
  {
  }

  /** fs6Dlunpack: fills whole groups of the output and leaves the rest alone. */
  method Fs6DlUnpack(out: array<byte>, src: seq<byte>, szUnpacked: int)
    requires 16 * Groups(szUnpacked) <= out.Length && 2 * Groups(szUnpacked) <= |src|
    modifies out
    ensures out[..] == Unpacked(src[..2 * Groups(szUnpacked)]) + old(out[16 * Groups(szUnpacked)..])
  {
    var lut := BuildTable();
    var sz := 2 * Groups(szUnpacked);
    ghost var u := Unpacked(src[..sz]);
    for i := 0 to sz
      invariant forall a, k :: 0 <= a < 256 && 0 <= k < 8 ==> lut[a, k] == TableByte(a, k)
      invariant forall m :: 0 <= m < 8 * i ==> out[m] == u[m]
      invariant forall m :: 8 * i <= m < out.Length ==> out[m] == old(out[m])
    {
      StoreEntry(out, 8 * i, lut, src[i]);
      forall m | 8 * i <= m < 8 * i + 8
        ensures out[m] == u[m]
      {
        UnpackedAt(src[..sz], i, m);
      }
    }
  }
}
