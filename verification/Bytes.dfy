/** Bytes, fixed-width integers and bitwise exclusive-or, as the file formats use them. */
module Bytes {

  type byte = i: int | 0 <= i < 256

  const U16_END := 0x1_0000
  const U32_END := 0x1_0000_0000
  const U64_END := 0x1_0000_0000_0000_0000
  const U64_MAX := U64_END - 1

  datatype Option<+T> = None | Some(value: T)

  datatype Result<+T, +E> = Ok(value: T) | Err(error: E)

  function Min(a: int, b: int): int { if a < b then a else b }

  /** Rounded-up quotient, Rust's `div_ceil`. */
  function DivCeil(n: nat, d: nat): (q: nat)
    requires d > 0
  {
    n / d + if n % d == 0 then 0 else 1
  }

  lemma DivCeilStep(n: nat, d: nat)
    requires 0 < d
    ensures n == 0 ==> DivCeil(n, d) == 0
    ensures 0 < n <= d ==> DivCeil(n, d) == 1
    ensures n > 0 ==> DivCeil(n, d) == 1 + DivCeil(n - Min(n, d), d)
  {
    if n >= d {
      assert n / d == 1 + (n - d) / d && n % d == (n - d) % d by {
        var q, r := (n - d) / d, (n - d) % d;
        assert n == (q + 1) * d + r;
        QuotientIs(n, d, q + 1, r);
      }
    } else {
      QuotientIs(n, d, 0, n);
    }
  }

  lemma QuotientIs(n: nat, d: nat, q: nat, r: nat)
    requires 0 <= r < d && n == q * d + r
    ensures n / d == q && n % d == r
  {
    assert (n / d - q) * d == r - n % d by {
      assert n == (n / d) * d + n % d;
    }
    OffByMultiple(n / d - q, d);
  }

  lemma OffByMultiple(e: int, d: nat)
    requires d > 0
    ensures e == 0 || e * d >= d || e * d + d <= 0
  {
    if e > 0 {
      assert (e - 1) * d >= 0;
    } else if e < 0 {
      assert (-1 - e) * d >= 0;
    }
  }

  /** The width of an integer field of `width` bytes: one more than its largest value. */
  function Pow256(width: nat): (p: nat)
    ensures p > 0
  {
    if width == 0 then 1 else 256 * Pow256(width - 1)
  }

  lemma Widths()
    ensures Pow256(1) == 256 && Pow256(2) == U16_END
    ensures Pow256(4) == U32_END && Pow256(8) == U64_END
  {
    assert Pow256(3) == 256 * Pow256(2);
    assert Pow256(4) == 256 * Pow256(3);
    assert Pow256(5) == 256 * Pow256(4);
    assert Pow256(6) == 256 * Pow256(5);
    assert Pow256(7) == 256 * Pow256(6);
  }

  /** Little-endian encoding in exactly `width` bytes (the value modulo the width). */
  function LE(n: nat, width: nat): (s: seq<byte>)
    ensures |s| == width
  {
    if width == 0 then [] else [n % 256] + LE(n / 256, width - 1)
  }

  function FromLE(s: seq<byte>): nat
  {
    if s == [] then 0 else s[0] + 256 * FromLE(s[1..])
  }

  lemma LowByte(b: byte, high: nat)
    ensures (b + 256 * high) % 256 == b && (b + 256 * high) / 256 == high
  {
  }

  lemma {:induction false} FromLEOfLE(n: nat, width: nat)
    requires n < Pow256(width)
    ensures FromLE(LE(n, width)) == n
  {
    if width > 0 {
      FromLEOfLE(n / 256, width - 1);
      assert LE(n, width)[1..] == LE(n / 256, width - 1);
    }
  }

  lemma {:induction false} LEOfFromLE(s: seq<byte>)
    ensures FromLE(s) < Pow256(|s|)
    ensures LE(FromLE(s), |s|) == s
  {
    if s != [] {
      LEOfFromLE(s[1..]);
      LowByte(s[0], FromLE(s[1..]));
      assert s == [s[0]] + s[1..];
    }
  }

  /** A field of `width` bytes holds `n` exactly when its bytes are the encoding of `n`. */
  lemma LEField(s: seq<byte>, n: nat, width: nat)
    requires |s| == width && n < Pow256(width)
    ensures FromLE(s) == n <==> s == LE(n, width)
  {
    LEOfFromLE(s);
    FromLEOfLE(n, width);
  }

  lemma LEInjective(m: nat, n: nat, width: nat)
    requires m < Pow256(width) && n < Pow256(width)
    requires LE(m, width) == LE(n, width)
    ensures m == n
  {
    FromLEOfLE(m, width);
    FromLEOfLE(n, width);
  }

  /** Big-endian encoding in exactly `width` bytes. */
  function BE(n: nat, width: nat): (s: seq<byte>)
    ensures |s| == width
  {
    if width == 0 then [] else BE(n / 256, width - 1) + [n % 256]
  }

  function FromBE(s: seq<byte>): nat
  {
    if s == [] then 0 else 256 * FromBE(s[..|s| - 1]) + s[|s| - 1]
  }

  lemma {:induction false} FromBEOfBE(n: nat, width: nat)
    requires n < Pow256(width)
    ensures FromBE(BE(n, width)) == n
  {
    if width > 0 {
      FromBEOfBE(n / 256, width - 1);
      assert BE(n, width)[..width - 1] == BE(n / 256, width - 1);
    }
  }

  lemma {:induction false} BEOfFromBE(s: seq<byte>)
    ensures FromBE(s) < Pow256(|s|)
    ensures BE(FromBE(s), |s|) == s
  {
    if s != [] {
      BEOfFromBE(s[..|s| - 1]);
      assert s == s[..|s| - 1] + [s[|s| - 1]];
    }
  }

  lemma BEField(s: seq<byte>, n: nat, width: nat)
    requires |s| == width && n < Pow256(width)
    ensures FromBE(s) == n <==> s == BE(n, width)
  {
    BEOfFromBE(s);
    FromBEOfBE(n, width);
  }

  lemma SubSlice(s: seq<byte>, a: nat, b: nat, c: nat, d: nat)
    requires a <= b <= |s| && c <= d <= b - a
    ensures s[a..b][c..d] == s[a + c..a + d]
  {
    var x, y := s[a..b][c..d], s[a + c..a + d];
    assert |x| == |y| && forall i :: 0 <= i < |x| ==> x[i] == y[i];
  }

  /** A string is a concatenation exactly when its two parts are the operands. */
  lemma Cut(s: seq<byte>, a: seq<byte>, b: seq<byte>)
    requires |s| == |a| + |b|
    ensures s == a + b <==> s[..|a|] == a && s[|a|..] == b
  {
    assert s == s[..|a|] + s[|a|..];
    assert (a + b)[..|a|] == a && (a + b)[|a|..] == b;
  }

  /** The slice `s[off..off + width]` is the next part of a concatenation that starts at `off`. */
  lemma CutAt(s: seq<byte>, off: nat, width: nat, a: seq<byte>, b: seq<byte>)
    requires off + width <= |s| && |a| == width && |s| - off == |a| + |b|
    ensures s[off..] == a + b <==> s[off..off + width] == a && s[off + width..] == b
  {
    Cut(s[off..], a, b);
    assert s[off..][..width] == s[off..off + width] && s[off..][width..] == s[off + width..];
  }

  /** A record of six fields: it is their concatenation exactly when every slice is its field. */
  lemma SixParts(s: seq<byte>, a: seq<byte>, b: seq<byte>, c: seq<byte>, d: seq<byte>, e: seq<byte>, f: seq<byte>)
    requires |s| == |a| + |b| + |c| + |d| + |e| + |f|
    ensures var o1 := |a|; var o2 := o1 + |b|; var o3 := o2 + |c|; var o4 := o3 + |d|; var o5 := o4 + |e|;
            s == a + (b + (c + (d + (e + f)))) <==>
            && s[0..o1] == a && s[o1..o2] == b && s[o2..o3] == c
            && s[o3..o4] == d && s[o4..o5] == e && s[o5..] == f
  {
    var o1 := |a|; var o2 := o1 + |b|; var o3 := o2 + |c|; var o4 := o3 + |d|; var o5 := o4 + |e|;
    assert s == s[0..];
    CutAt(s, 0, |a|, a, b + (c + (d + (e + f))));
    CutAt(s, o1, |b|, b, c + (d + (e + f)));
    CutAt(s, o2, |c|, c, d + (e + f));
    CutAt(s, o3, |d|, d, e + f);
    CutAt(s, o4, |e|, e, f);
  }

  function HexDigit(n: nat): char
    requires n < 16
  {
    "0123456789abcdef"[n]
  }

  function Hex(s: seq<byte>): string
  {
    if s == [] then "" else [HexDigit(s[0] / 16), HexDigit(s[0] % 16)] + Hex(s[1..])
  }

  /** Writing one more chunk, or part of it, keeps the output a prefix of the whole. */
  lemma StillPrefix(start: seq<byte>, before: seq<byte>, after: seq<byte>, chunk: seq<byte>, later: seq<byte>, whole: seq<byte>)
    requires start <= before <= after <= before + chunk && before + (chunk + later) == whole
    ensures start <= after <= whole && before + chunk + later == whole
  {
    assert whole == before + chunk + later;
  }

  function Without<K, V>(m: map<K, V>, k: K): map<K, V> { map x | x in m && x != k :: m[x] }

  predicate AllZero(s: seq<byte>) { forall i :: 0 <= i < |s| ==> s[i] == 0 }

  function Zeros(n: nat): (s: seq<byte>)
    ensures |s| == n && forall i :: 0 <= i < n ==> s[i] == 0
  {
    seq(n, _ => 0)
  }

  /** Exclusive-or of the low `bits` bits of `a` and `b`. */
  function XorBits(a: nat, b: nat, bits: nat): (x: nat)
    decreases bits
  {
    if bits == 0 then 0
    else (if a % 2 == b % 2 then 0 else 1) + 2 * XorBits(a / 2, b / 2, bits - 1)
  }

  function Pow2(bits: nat): (p: nat)
    ensures p > 0
  {
    if bits == 0 then 1 else 2 * Pow2(bits - 1)
  }

  lemma {:induction false} XorBitsLaws(a: nat, b: nat, bits: nat)
    requires a < Pow2(bits)
    ensures XorBits(a, b, bits) < Pow2(bits)
    ensures XorBits(XorBits(a, b, bits), b, bits) == a
    decreases bits
  {
    if bits > 0 {
      XorBitsLaws(a / 2, b / 2, bits - 1);
      var x := XorBits(a, b, bits);
      assert x / 2 == XorBits(a / 2, b / 2, bits - 1);
    }
  }

  lemma {:induction false} XorBitsCommutes(a: nat, b: nat, bits: nat)
    ensures XorBits(a, b, bits) == XorBits(b, a, bits)
    decreases bits
  {
    if bits > 0 { XorBitsCommutes(a / 2, b / 2, bits - 1); }
  }

  function Xor(a: byte, b: byte): (x: byte)
  {
    assert XorBits(a, b, 8) < 256 by {
      Pow2Of8();
      XorBitsLaws(a, b, 8);
    }
    XorBits(a, b, 8)
  }

  lemma Pow2Of8()
    ensures Pow2(8) == 256
  {
    assert Pow2(4) == 16;
    assert Pow2(8) == 16 * Pow2(4) by {
      assert Pow2(5) == 2 * Pow2(4) && Pow2(6) == 2 * Pow2(5) && Pow2(7) == 2 * Pow2(6);
    }
  }

  lemma XorLaws(a: byte, b: byte)
    ensures Xor(Xor(a, b), b) == a
    ensures Xor(Xor(b, a), b) == a
    ensures Xor(a, b) == Xor(b, a)
  {
    Pow2Of8();
    XorBitsLaws(a, b, 8);
    XorBitsCommutes(a, b, 8);
  }

  /** Bytewise exclusive-or of two equally long strings. */
  function XorSeq(a: seq<byte>, b: seq<byte>): (x: seq<byte>)
    requires |a| == |b|
    ensures |x| == |a|
  {
    seq(|a|, i requires 0 <= i < |a| => Xor(a[i], b[i]))
  }

  lemma XorSeqInvolution(a: seq<byte>, b: seq<byte>)
    requires |a| == |b|
    ensures XorSeq(XorSeq(a, b), b) == a
  {
    forall i | 0 <= i < |a|
      ensures XorSeq(XorSeq(a, b), b)[i] == a[i]
    {
      XorLaws(a[i], b[i]);
    }
  }

  lemma XorSeqInjective(a: seq<byte>, x: seq<byte>, y: seq<byte>)
    requires |a| == |x| == |y|
    requires XorSeq(a, x) == XorSeq(a, y)
    ensures x == y
  {
    forall i | 0 <= i < |a|
      ensures x[i] == y[i]
    {
      assert XorSeq(a, x)[i] == XorSeq(a, y)[i];
      XorLaws(x[i], a[i]);
      XorLaws(y[i], a[i]);
    }
  }

  lemma XorSeqConcat(a: seq<byte>, b: seq<byte>, x: seq<byte>, y: seq<byte>)
    requires |a| == |x| && |b| == |y|
    ensures XorSeq(a + b, x + y) == XorSeq(a, x) + XorSeq(b, y)
  {
  }

  /** `a[off..off + |src|].copy_from_slice(src)`. */
  method CopyInto(a: array<byte>, off: nat, src: seq<byte>)
    requires off + |src| <= a.Length
    modifies a
    ensures a[..off] == old(a[..off])
    ensures a[off..off + |src|] == src
    ensures a[off + |src|..] == old(a[off + |src|..])
    ensures forall i :: off + |src| <= i < a.Length ==> a[i] == old(a[i])
  {
    forall i | 0 <= i < |src| {
      a[off + i] := src[i];
    }
  }

  /** XOR `mask` into the front of a buffer, byte by byte. */
  method XorInto(a: array<byte>, off: nat, mask: seq<byte>)
    requires off + |mask| <= a.Length
    modifies a
    ensures a[..off] == old(a[..off])
    ensures a[off..off + |mask|] == XorSeq(old(a[off..off + |mask|]), mask)
    ensures a[off + |mask|..] == old(a[off + |mask|..])
  {
    hide Xor;
    for i := 0 to |mask|
      invariant forall k :: off <= k < off + i ==> a[k] == Xor(old(a[k]), mask[k - off])
      invariant forall k :: 0 <= k < a.Length && !(off <= k < off + i) ==> a[k] == old(a[k])
    {
      a[off + i] := Xor(a[off + i], mask[i]);
    }
  }
}
