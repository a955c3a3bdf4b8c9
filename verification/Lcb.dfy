/** Length coded binary numbers: `my_lcb` and `set_my_lcb`. */
module Lcb {
  import opened Bytes

  datatype Lcb = BadLcb | Lcb(value: nat, isNull: bool, used: nat)

  /** `my_lcb` on the bytes from the read position to the end of the packet. */
  function MyLcb(s: seq<byte>): (r: Lcb)
    ensures r.Lcb? ==> 1 <= r.used <= |s| && r.used <= 9 && r.value < TWO64
    ensures r.Lcb? && r.isNull ==> r.value == 0 && r.used == 1
  {
    if |s| < 1 then BadLcb
    else if s[0] == 251 then Lcb(0, true, 1)
    else if s[0] == 252 then Number(s, 2)
    else if s[0] == 253 then Number(s, 3)
    else if s[0] == 254 then Number(s, 8)
    else Lcb(s[0], false, 1)
  }

  function Number(s: seq<byte>, n: nat): (r: Lcb)
    requires |s| > 0 && n in {2, 3, 8}
    ensures r.Lcb? ==> r.used == n + 1 <= |s| && r.value < TWO64 && !r.isNull
  {
    if |s| < n + 1 then BadLcb
    else
      LEBound(s[1..n + 1]); Pow256Values();
      Lcb(LE(s[1..n + 1]), false, n + 1)
  }

  /** Decoding looks at the bytes it uses and at no others, so concatenated encodings split in one way only. */
  lemma TrailingBytesIgnored(a: seq<byte>, b: seq<byte>)
    requires MyLcb(a).Lcb?
    ensures MyLcb(a + b) == MyLcb(a)
    ensures MyLcb(a[..MyLcb(a).used]) == MyLcb(a)
  {
    var n := MyLcb(a).used;
    var c := a[..n];
    assert (a + b)[0] == a[0] == c[0];
    assert (a + b)[1..n] == a[1..n] == c[1..n];
  }

  /** What the MySQL server sends as the length of a string (Protocol::LengthEncodedInteger), below 2^24. */
  function ServerLcb(v: nat): (s: seq<byte>)
    requires v < TWO24
    ensures 1 <= |s| <= 4 && s[0] != 251 && s[0] != 254 && s[0] != 255
  {
    if v <= 250 then [v]
    else if v < TWO16 then [252] + ToLE(v, 2)
    else [253] + ToLE(v, 3)
  }

  lemma ServerLcbDecodes(v: nat, rest: seq<byte>)
    requires v < TWO24
    ensures MyLcb(ServerLcb(v) + rest) == Lcb(v, false, |ServerLcb(v)|)
  {
    Pow256Values();
    var s := ServerLcb(v);
    if v > 250 {
      var n := if v < TWO16 then 2 else 3;
      LEToLEExact(v, n);
      assert (s + rest)[1..n + 1] == ToLE(v, n);
    }
  }

  /** What `set_my_lcb` stores for the number `v`, given the `outLen` bytes `out` it may write to: the new bytes
      and the length it claims to have written, or None for -1. */
  function SetLcb(v: nat, isNull: bool, out: seq<byte>): (r: (int, seq<byte>))
    requires v < TWO64
    ensures |r.1| == |out| && r.0 <= |out|
    ensures r.0 == -1 ==> r.1 == out
  {
    if isNull then if |out| < 1 then (-1, out) else (1, Put(out, [251]))
    else if v <= 250 then if |out| < 1 then (-1, out) else (1, Put(out, [v]))
    else if v < 0xffff then if |out| < 3 then (-1, out) else (3, Put(out, [252] + ToLE(v, 2)))
    else if 0xffff < v <= 0xff_ffff then if |out| < 4 then (-1, out) else (4, Put(out, [253] + ToLE(v, 3)))
    else if 0xff_ffff < v <= 0xffff_ffff then if |out| < 5 then (-1, out) else (5, Put(out, [254] + ToLE(v, 4)))
    else if 0xffff_ffff < v then if |out| < 9 then (-1, out) else (9, Put(out, [254] + ToLE(v, 4)))
    else (-1, out)
  }

  /** `out` with its first bytes replaced by `s`. */
  function Put(out: seq<byte>, s: seq<byte>): (r: seq<byte>)
    requires |s| <= |out|
    ensures |r| == |out| && r[..|s|] == s && r[|s|..] == out[|s|..]
  {
    s + out[|s|..]
  }

  /** Exactly when the decoder gives back the number that was encoded, and consumes what the encoder says it wrote:
      below 2^24 except 65535 (which the encoder refuses), and, in the nine-byte form, when the four bytes the encoder
      leaves alone happened to hold the upper half of the number already. */
  lemma EncodeDecodeExactly(v: nat, out: seq<byte>)
    requires v < TWO64 && |out| >= 9
    ensures var (n, now) := SetLcb(v, false, out);
            (n >= 0 && MyLcb(now) == Lcb(v, false, n)) <==>
            (v < TWO24 && v != 0xffff) || (v >= TWO32 && LE(out[5..9]) == v / TWO32)
  {
    hide LE, ToLE;
    Pow256Values();
    var (n, now) := SetLcb(v, false, out);
    if 250 < v < TWO24 && v != 0xffff {
      LEToLEExact(v, n - 1);
      assert now[1..n] == ToLE(v, n - 1);
    } else if v >= TWO32 {
      var low, high := ToLE(v, 4), out[5..9];
      assert now[1..5] == now[..5][1..5] == low && now[5..9] == now[5..][..4] == high;
      assert now[1..9] == now[1..5] + now[5..9];
      TwoHalves(v, high);
      var d := LE(now[1..9]);
      if d == v { DivModUnique(v, TWO32, LE(high), v % TWO32); }
    }
  }

  lemma TwoHalves(v: nat, high: seq<byte>)
    ensures LE(ToLE(v, 4) + high) == v % TWO32 + TWO32 * LE(high)
  {
    hide LE, ToLE;
    Pow256Values();
    LEToLE(v, 4);
    LEConcat(ToLE(v, 4), high);
  }

  lemma {:induction false} LEConcat(a: seq<byte>, b: seq<byte>)
    ensures LE(a + b) == LE(a) + Pow256(|a|) * LE(b)
  {
    if a == [] {
      assert a + b == b;
    } else {
      LEConcat(a[1..], b);
      assert (a + b)[1..] == a[1..] + b;
      var p, q, x := Pow256(|a| - 1), LE(b), LE(a[1..]);
      assert LE(a + b) == a[0] + 256 * (x + p * q);
      MulAssoc(256, p, q);
    }
  }

  lemma MulAssoc(x: int, y: int, z: int)
    ensures x * (y * z) == (x * y) * z
  {}

  /** Every form of a number, the shortest or not, is decoded whatever follows it, and refused when bytes are missing. */
  lemma EveryForm(tag: byte, w: nat, v: nat, k: nat, rest: seq<byte>)
    requires (tag == 252 && w == 2) || (tag == 253 && w == 3) || (tag == 254 && w == 8)
    requires v < Pow256(w) && k < w
    ensures MyLcb([tag] + ToLE(v, w) + rest) == Lcb(v, false, w + 1)
    ensures MyLcb([tag] + ToLE(v, w)[..k]) == BadLcb && MyLcb([]) == BadLcb
  {
    hide ToLE, LE, Pow256;
    LEToLEExact(v, w);
    assert ([tag] + ToLE(v, w) + rest)[1..w + 1] == ToLE(v, w);
  }

  /** And every other byte is a number of its own, or a null. */
  lemma OneByte(b: byte, rest: seq<byte>)
    requires b < 252 || b == 255
    ensures MyLcb([b] + rest) == if b == 251 then Lcb(0, true, 1) else Lcb(b, false, 1)
  {}

  /** A null is always encoded in one byte and decoded as a null. */
  lemma NullRoundTrip(v: nat, out: seq<byte>)
    requires v < TWO64 && |out| >= 1
    ensures var (n, now) := SetLcb(v, true, out); n == 1 && MyLcb(now) == Lcb(0, true, 1)
  {}

  /** `to_my_2`, `to_my_3`, `to_my_4` and `to_my_8`: highest byte first, each the value shifted and truncated. */
  method StoreLE(a: array<byte>, at: nat, v: int, n: nat)
    requires at + n <= a.Length
    modifies a
    ensures a[at..at + n] == ToLE(v, n)
    ensures forall k :: 0 <= k < a.Length && !(at <= k < at + n) ==> a[k] == old(a[k])
  {
    var i, w := 0, v;
    ghost var all := ToLE(v, n);
    assert ToLE(w, n - i) == all[i..];
    while i < n
      invariant 0 <= i <= n
      invariant ToLE(w, n - i) == all[i..]
      invariant forall k :: 0 <= k < i ==> a[at + k] == all[k]
      invariant forall k :: 0 <= k < a.Length && !(at <= k < at + i) ==> a[k] == old(a[k])
    {
      assert all[i] == all[i..][0];
      assert all[i + 1..] == all[i..][1..];
      a[at + i] := w % 256;
      w := w / 256;
      i := i + 1;
    }
  }

  /** `set_my_lcb` on the `outLen` bytes of `a` from `at`. */
  method SetMyLcb(v: nat, isNull: bool, a: array<byte>, at: nat, outLen: int) returns (r: int)
    requires v < TWO64 && 0 <= outLen && at + outLen <= a.Length
    modifies a
    ensures (r, a[at..at + outLen]) == SetLcb(v, isNull, old(a[at..at + outLen]))
    ensures forall k :: 0 <= k < a.Length && !(at <= k < at + outLen) ==> a[k] == old(a[k])
  {
    ghost var out := a[at..at + outLen];
    if isNull {
      if outLen < 1 { return -1; }
      a[at] := 251;
      assert a[at..at + outLen] == Put(out, [251]);
      return 1;
    }
    if v <= 250 {
      if outLen < 1 { return -1; }
      a[at] := v;
      assert a[at..at + outLen] == Put(out, [v]);
      return 1;
    }
    if v >= 251 && v < 0xffff {
      if outLen < 3 { return -1; }
      r := StoreTagged(252, v, 2, a, at, outLen);
      return r;
    }
    if v > 0xffff && v <= 0xff_ffff {
      if outLen < 4 { return -1; }
      r := StoreTagged(253, v, 3, a, at, outLen);
      return r;
    }
    if v > 0xff_ffff && v <= 0xffff_ffff {
      if outLen < 5 { return -1; }
      r := StoreTagged(254, v, 4, a, at, outLen);
      return r;
    }
    if v > 0xffff_ffff {
      if outLen < 9 { return -1; }
      r := StoreTagged(254, v, 4, a, at, outLen);
      return 9;
    }
    return -1;
  }

  method StoreTagged(tag: byte, v: int, n: nat, a: array<byte>, at: nat, outLen: nat) returns (r: int)
    requires n + 1 <= outLen && at + outLen <= a.Length
    modifies a
    ensures r == n + 1
    ensures a[at..at + outLen] == Put(old(a[at..at + outLen]), [tag] + ToLE(v, n))
    ensures forall k :: 0 <= k < a.Length && !(at <= k < at + outLen) ==> a[k] == old(a[k])
  {
    ghost var out := a[at..at + outLen];
    a[at] := tag;
    StoreLE(a, at + 1, v, n);
    var s := [tag] + ToLE(v, n);
    forall k | 0 <= k < outLen ensures a[at..at + outLen][k] == Put(out, s)[k] {
      if 1 <= k <= n { assert a[at + k] == a[at + 1..at + 1 + n][k - 1]; }
    }
    r := n + 1;
  }
}
