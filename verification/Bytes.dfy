/** Bytes, little-endian numbers and the block moves of the C library. */
module Bytes {

  type byte = x: int | 0 <= x < 256

  const TWO16: int := 0x1_0000
  const TWO24: int := 0x100_0000
  const TWO32: int := 0x1_0000_0000
  const TWO64: int := 0x1_0000_0000_0000_0000

  /** The number stored little-endian in `s` (the `uint*korr` macros). */
  function LE(s: seq<byte>): nat
  {
    if s == [] then 0 else s[0] + 256 * LE(s[1..])
  }

  /** The `n` low bytes of `v`, lowest first (the `to_my_*` functions: an arithmetic shift and a truncation per byte). */
  function ToLE(v: int, n: nat): (s: seq<byte>)
    ensures |s| == n
    decreases n
  {
    if n == 0 then [] else [v % 256] + ToLE(v / 256, n - 1)
  }

  /** Which byte counts how much. */
  lemma LittleEndian(a: byte, b: byte, c: byte, d: byte, v: int)
    ensures LE([a, b, c, d]) == a + 0x100 * b + 0x1_0000 * c + 0x100_0000 * d
    ensures ToLE(v, 4) == [v % 256, v / 256 % 256, v / 256 / 256 % 256, v / 256 / 256 / 256 % 256]
  {
    var one: seq<byte>, two: seq<byte>, three: seq<byte>, four: seq<byte> := [d], [c, d], [b, c, d], [a, b, c, d];
    assert one[1..] == [] && two[1..] == one && three[1..] == two && four[1..] == three;
    assert LE(one) == d;
    assert LE(two) == c + 256 * d;
    assert LE(three) == b + 256 * LE(two);
    var x, y, z := v / 256, v / 256 / 256, v / 256 / 256 / 256;
    assert ToLE(z, 1) == [z % 256] + [];
    assert ToLE(y, 2) == [y % 256] + ToLE(z, 1);
    assert ToLE(x, 3) == [x % 256] + ToLE(y, 2);
  }

  function Pow256(n: nat): (r: nat)
    ensures r > 0
  {
    if n == 0 then 1 else 256 * Pow256(n - 1)
  }

  lemma Pow256Values()
    ensures Pow256(1) == 256 && Pow256(2) == TWO16 && Pow256(3) == TWO24 && Pow256(4) == TWO32 && Pow256(8) == TWO64
  {
    assert Pow256(3) == 256 * Pow256(2);
    assert Pow256(5) == 256 * Pow256(4);
    assert Pow256(7) == 256 * Pow256(6);
  }

  lemma {:induction false} LEBound(s: seq<byte>)
    ensures LE(s) < Pow256(|s|)
  {
    if s != [] { LEBound(s[1..]); }
  }

  /** Reading back `n` stored bytes gives the value modulo 256^n, for negative values too. */
  lemma {:induction false} LEToLE(v: int, n: nat)
    ensures LE(ToLE(v, n)) == v % Pow256(n)
    decreases n
  {
    if n != 0 {
      LEToLE(v / 256, n - 1);
      var p := Pow256(n - 1);
      assert ToLE(v, n)[1..] == ToLE(v / 256, n - 1);
      ModSplit(v, p);
    }
  }

  lemma ModSplit(v: int, p: nat)
    requires p > 0
    ensures v % (256 * p) == v % 256 + 256 * (v / 256 % p)
  {
    var q, r := v / 256, v % 256;
    var a, b := q / p, q % p;
    assert v == 256 * q + r;
    assert q == p * a + b;
    assert 256 * (p * a) == (256 * p) * a;
    assert v == (256 * p) * a + (256 * b + r);
    assert 0 <= 256 * b + r < 256 * p;
    DivModUnique(v, 256 * p, a, 256 * b + r);
  }

  lemma DivModUnique(v: int, m: int, a: int, r: int)
    requires m > 0 && 0 <= r < m && v == m * a + r
    ensures v % m == r && v / m == a
  {
    var x, y := v / m, v % m;
    var d := x - a;
    assert m * x == m * a + m * d;
    assert m * d == r - y;
    if d >= 1 { MulAtLeast(m, d); assert false; }
    if d <= -1 { MulAtLeast(m, -d); assert false; }
    assert m * x == m * a;
  }

  lemma MulAtLeast(m: int, d: int)
    requires m > 0 && d >= 1
    ensures m * d >= m
  {
    assert m * d == m + m * (d - 1);
  }

  /** Two's complement reading of a little-endian number (`sint*korr`). */
  function SLE(s: seq<byte>): int
    requires |s| > 0
  {
    if 2 * LE(s) < Pow256(|s|) then LE(s) else LE(s) - Pow256(|s|)
  }

  /** A stored integer that fits in `n` signed bytes is read back exactly. */
  lemma SLEToLE(v: int, n: nat)
    requires n > 0
    requires 0 <= 2 * v + Pow256(n) < 2 * Pow256(n)
    ensures SLE(ToLE(v, n)) == v
  {
    LEToLE(v, n);
    var p := Pow256(n);
    if v >= 0 { DivModUnique(v, p, 0, v); } else { DivModUnique(v, p, -1, v + p); }
  }

  /** A stored unsigned integer that fits in `n` bytes is read back exactly. */
  lemma LEToLEExact(v: int, n: nat)
    requires 0 <= v < Pow256(n)
    ensures LE(ToLE(v, n)) == v
  {
    LEToLE(v, n);
    DivModUnique(v, Pow256(n), 0, v);
  }

  /** A `char` (signed) widened to `unsigned int`. */
  function CharToUint(b: byte): nat
  {
    if b < 128 then b else b + TWO32 - 256
  }

  /** A `char` (signed) widened to `int`. */
  function CharToInt(b: byte): int
  {
    if b < 128 then b else b - 256
  }

  /** `a` and `b` hold the same bytes from `lo` to `hi`. */
  ghost predicate Agree(a: seq<byte>, b: seq<byte>, lo: nat, hi: nat)
  {
    lo <= hi <= |a| && hi <= |b| && forall k :: lo <= k < hi ==> a[k] == b[k]
  }

  lemma AgreeSlice(a: seq<byte>, b: seq<byte>, lo: nat, hi: nat)
    requires Agree(a, b, lo, hi)
    ensures a[lo..hi] == b[lo..hi]
  {}

  lemma AgreeSub(a: seq<byte>, b: seq<byte>, lo: nat, hi: nat, lo': nat, hi': nat)
    requires Agree(a, b, lo, hi) && lo <= lo' <= hi' <= hi
    ensures Agree(a, b, lo', hi')
  {}

  lemma AgreeLength(a: seq<byte>, b: seq<byte>, lo: nat, hi: nat)
    requires Agree(a, b, lo, hi)
    ensures lo <= hi <= |a| && hi <= |b|
  {}

  lemma AgreeTrans(a: seq<byte>, b: seq<byte>, c: seq<byte>, lo: nat, hi: nat, hi': nat)
    requires Agree(a, b, lo, hi') && Agree(b, c, lo, hi) && lo <= hi <= hi'
    ensures Agree(a, c, lo, hi)
  {}

  /** A stretch of the middle of three sequences. */
  lemma Middle<T>(a: seq<T>, b: seq<T>, c: seq<T>, x: nat, y: nat)
    requires x <= y <= |b|
    ensures (a + b + c)[|a| + x..|a| + y] == b[x..y]
  {
    var s := a + b + c;
    forall k | 0 <= k < y - x ensures s[|a| + x..|a| + y][k] == b[x..y][k] {
      assert s[|a| + x..|a| + y][k] == s[|a| + (x + k)] == b[x + k];
    }
  }

  lemma SubSlice<T>(s: seq<T>, a: nat, b: nat, c: nat, d: nat)
    requires a <= b <= |s| && c <= d <= b - a
    ensures s[a..b][c..d] == s[a + c..a + d]
  {
    var t := s[a..b];
    forall k | 0 <= k < d - c ensures t[c..d][k] == s[a + c..a + d][k] {
      assert t[c..d][k] == t[c + k] == s[a + (c + k)];
    }
  }

  /** `memmove` towards lower addresses: the copied bytes are the ones before the call, nothing else changes. */
  method Memmove(a: array<byte>, dst: nat, src: nat, n: nat)
    requires dst <= src && src + n <= a.Length
    modifies a
    ensures forall k :: dst <= k < dst + n ==> a[k] == old(a[src + (k - dst)])
    ensures forall k :: 0 <= k < a.Length && !(dst <= k < dst + n) ==> a[k] == old(a[k])
  {
    for i := 0 to n
      invariant forall k :: dst <= k < dst + i ==> a[k] == old(a[src + (k - dst)])
      invariant forall k :: 0 <= k < a.Length && !(dst <= k < dst + i) ==> a[k] == old(a[k])
    {
      a[dst + i] := a[src + i];
    }
  }

  /** Stores into C structures are kept as typed fields beside the buffer, so the
      bytes they occupy become arbitrary: whatever relies on bytes in `[lo, hi)` breaks here. */
  method Scribble(a: array<byte>, lo: nat, hi: nat)
    requires lo <= hi <= a.Length
    modifies a
    ensures forall k :: 0 <= k < a.Length && !(lo <= k < hi) ==> a[k] == old(a[k])
  {
    for i := lo to hi
      invariant forall k :: 0 <= k < a.Length && !(lo <= k < i) ==> a[k] == old(a[k])
    {
      a[i] := *;
    }
  }

  /** `memset` with zero. */
  method Zero(a: array<byte>, lo: nat, hi: nat)
    requires lo <= hi <= a.Length
    modifies a
    ensures forall k :: lo <= k < hi ==> a[k] == 0
    ensures forall k :: 0 <= k < a.Length && !(lo <= k < hi) ==> a[k] == old(a[k])
  {
    for i := lo to hi
      invariant forall k :: lo <= k < i ==> a[k] == 0
      invariant forall k :: 0 <= k < a.Length && !(lo <= k < i) ==> a[k] == old(a[k])
    {
      a[i] := 0;
    }
  }
}
