/** Bytes, little-endian words, and records of words: the memory image of the wire structs. */
module Bytes {

  type Byte = n: nat | n < 256
  type U32 = n: nat | n < 0x1_0000_0000
  type U64 = n: nat | n < 0x1_0000_0000_0000_0000

  function Pow256(k: nat): (p: nat)
    ensures p > 0
  {
    if k == 0 then 1 else 256 * Pow256(k - 1)
  }

  lemma WordLimits()
    ensures Pow256(4) == 0x1_0000_0000
    ensures Pow256(8) == 0x1_0000_0000_0000_0000
  {
    assert Pow256(2) == 0x1_0000;
    assert Pow256(4) == 256 * (256 * Pow256(2));
    assert Pow256(6) == 256 * (256 * Pow256(4));
  }

  /** The low `width` bytes of `v`, least significant first. */
  function LE(width: nat, v: nat): (bs: seq<Byte>)
    ensures |bs| == width
  {
    if width == 0 then [] else [v % 256] + LE(width - 1, v / 256)
  }

  /** The byte order, spelled out: least significant byte first. */
  lemma LittleEndian(v: nat) returns (a: Byte, b: Byte, c: Byte, d: Byte)
    requires v < 0x1_0000_0000
    ensures LE(4, v) == [a, b, c, d] && v == a + 0x100 * b + 0x1_0000 * c + 0x100_0000 * d
  {
    var v1 := v / 256;
    var v2 := v1 / 256;
    var v3 := v2 / 256;
    a, b, c, d := v % 256, v1 % 256, v2 % 256, v3 % 256;
    assert LE(0, v3 / 256) == [];
    assert LE(1, v3) == [d];
    assert LE(2, v2) == [c, d];
    assert LE(3, v1) == [b, c, d];
  }

  function Value(bs: seq<Byte>): nat {
    if bs == [] then 0 else bs[0] + 256 * Value(bs[1..])
  }

  lemma {:induction false} ValueOfLE(width: nat, v: nat)
    requires v < Pow256(width)
    ensures Value(LE(width, v)) == v
  {
    if width > 0 {
      ValueOfLE(width - 1, v / 256);
      assert LE(width, v)[1..] == LE(width - 1, v / 256);
    }
  }

  lemma {:induction false} LEOfValue(bs: seq<Byte>)
    ensures Value(bs) < Pow256(|bs|)
    ensures LE(|bs|, Value(bs)) == bs
  {
    if bs != [] {
      LEOfValue(bs[1..]);
      assert Value(bs) % 256 == bs[0] && Value(bs) / 256 == Value(bs[1..]);
    }
  }

  function Total(widths: seq<nat>): nat {
    if widths == [] then 0 else widths[0] + Total(widths[1..])
  }

  ghost predicate Fits(widths: seq<nat>, vals: seq<nat>) {
    |widths| == |vals| && forall i :: 0 <= i < |vals| ==> vals[i] < Pow256(widths[i])
  }

  lemma FitsConcat(ws: seq<nat>, vs: seq<nat>, ws': seq<nat>, vs': seq<nat>)
    requires Fits(ws, vs) && Fits(ws', vs')
    ensures Fits(ws + ws', vs + vs')
  {
  }

  /** A packed record: each value in its own number of little-endian bytes. */
  function Pack(widths: seq<nat>, vals: seq<nat>): (bs: seq<Byte>)
    requires |widths| == |vals|
    ensures |bs| == Total(widths)
  {
    if widths == [] then [] else LE(widths[0], vals[0]) + Pack(widths[1..], vals[1..])
  }

  function Unpack(widths: seq<nat>, bs: seq<Byte>): (vals: seq<nat>)
    requires |bs| == Total(widths)
    ensures |vals| == |widths|
  {
    if widths == [] then [] else [Value(bs[..widths[0]])] + Unpack(widths[1..], bs[widths[0]..])
  }

  lemma {:induction false} UnpackOfPack(widths: seq<nat>, vals: seq<nat>)
    requires Fits(widths, vals)
    ensures Unpack(widths, Pack(widths, vals)) == vals
  {
    if widths != [] {
      var w := widths[0];
      ValueOfLE(w, vals[0]);
      UnpackOfPack(widths[1..], vals[1..]);
      assert Pack(widths, vals)[..w] == LE(w, vals[0]);
      assert Pack(widths, vals)[w..] == Pack(widths[1..], vals[1..]);
    }
  }

  lemma {:induction false} UnpackFits(widths: seq<nat>, bs: seq<Byte>)
    requires |bs| == Total(widths)
    ensures Fits(widths, Unpack(widths, bs))
  {
    if widths != [] {
      var w, rest := widths[0], Unpack(widths[1..], bs[widths[0]..]);
      LEOfValue(bs[..w]);
      UnpackFits(widths[1..], bs[w..]);
      forall i | 0 <= i < |widths|
        ensures ([Value(bs[..w])] + rest)[i] < Pow256(widths[i])
      {
        if i > 0 { assert widths[i] == widths[1..][i - 1]; }
      }
    }
  }

  lemma {:induction false} PackOfUnpack(widths: seq<nat>, bs: seq<Byte>)
    requires |bs| == Total(widths)
    ensures Pack(widths, Unpack(widths, bs)) == bs
  {
    if widths != [] {
      var w := widths[0];
      LEOfValue(bs[..w]);
      PackOfUnpack(widths[1..], bs[w..]);
      assert Unpack(widths, bs)[1..] == Unpack(widths[1..], bs[w..]);
      assert bs == bs[..w] + bs[w..];
    }
  }

  /** `n` words of `w` bytes each. */
  function Repeat(w: nat, n: nat): (ws: seq<nat>)
    ensures |ws| == n && forall i :: 0 <= i < n ==> ws[i] == w
    ensures Total(ws) == w * n
  {
    if n == 0 then [] else [w] + Repeat(w, n - 1)
  }

  lemma {:induction false} TotalOfConcat(a: seq<nat>, b: seq<nat>)
    ensures Total(a + b) == Total(a) + Total(b)
  {
    if a == [] {
      assert a + b == b;
    } else {
      TotalOfConcat(a[1..], b);
      assert (a + b)[1..] == a[1..] + b;
    }
  }
}

/**
 * IEEE 754 binary64. `Val` is the exact real value of a finite double, so comparisons are
 * exact; differences and quotients are taken over the reals (no rounding).
 */
module Doubles {
  import opened Bytes

  type Exponent = n: nat | n < 2048
  type Fraction = n: nat | n < 0x10_0000_0000_0000

  datatype Double = Double(negative: bool, exponent: Exponent, fraction: Fraction)

  const TWO52: nat := 0x10_0000_0000_0000

  /** The 64-bit pattern of a double. */
  function Word(d: Double): U64 {
    d.fraction + TWO52 * d.exponent + if d.negative then TWO52 * 2048 else 0
  }

  function OfWord(w: U64): Double {
    Double(w / (TWO52 * 2048) == 1, w / TWO52 % 2048, w % TWO52)
  }

  lemma WordBijection(d: Double, w: U64)
    ensures OfWord(w) == d <==> w == Word(d)
  {
    var q := d.exponent + if d.negative then 2048 else 0;
    assert Word(d) == d.fraction + TWO52 * q;
    assert Word(d) / TWO52 == q && Word(d) % TWO52 == d.fraction;
    assert Word(d) / (TWO52 * 2048) == q / 2048;
    assert w == w % TWO52 + TWO52 * (w / TWO52);
    assert w / (TWO52 * 2048) == (w / TWO52) / 2048;
  }

  /** False exactly for the infinities and NaNs. */
  predicate IsFinite(d: Double) { d.exponent != 2047 }

  function Scale(m: real, e: int): real
    decreases if e < 0 then -e else e
  {
    if e == 0 then m else if e > 0 then Scale(m * 2.0, e - 1) else Scale(m / 2.0, e + 1)
  }

  function Val(d: Double): real
    requires IsFinite(d)
  {
    var magnitude := if d.exponent == 0
                     then Scale(d.fraction as real, -1074)
                     else Scale((TWO52 + d.fraction) as real, d.exponent - 1075);
    if d.negative then -magnitude else magnitude
  }

  function Pow2(n: nat): (p: real)
    ensures p > 0.0
  {
    if n == 0 then 1.0 else 2.0 * Pow2(n - 1)
  }

  lemma {:induction false} ScaleExactly(m: real, n: nat)
    ensures Scale(m, n) == m * Pow2(n) && Scale(m, -(n as int)) * Pow2(n) == m
    decreases n
  {
    if n > 0 {
      ScaleExactly(m * 2.0, n - 1);
      ScaleExactly(m / 2.0, n - 1);
      var p := Pow2(n - 1);
      assert (m * 2.0) * p == m * (2.0 * p);
      assert Scale(m, -(n as int)) * (2.0 * p) == 2.0 * (Scale(m / 2.0, 1 - n) * p);
    }
  }

  /** The value of a finite double: its significand times a power of two, and the sign. */
  lemma ValExactly(d: Double)
    requires IsFinite(d)
    ensures var significand := (d.fraction + if d.exponent == 0 then 0 else 0x10_0000_0000_0000) as real;
            var power := if d.exponent == 0 then 1 else d.exponent;
            var signed := if d.negative then -significand else significand;
            if power >= 1075 then Val(d) == signed * Pow2(power - 1075) else Val(d) * Pow2(1075 - power) == signed
  {
    var power := if d.exponent == 0 then 1 else d.exponent;
    var significand := (d.fraction + if d.exponent == 0 then 0 else TWO52) as real;
    ScaleExactly(significand, if power >= 1075 then power - 1075 else 1075 - power);
  }

  const ZERO: Double := Double(false, 0, 0)

  lemma {:induction false} ScaleZero(e: int)
    ensures Scale(0.0, e) == 0.0
    decreases if e < 0 then -e else e
  {
    if e > 0 { ScaleZero(e - 1); } else if e < 0 { ScaleZero(e + 1); }
  }

  lemma ZeroIsZero()
    ensures IsFinite(ZERO) && Val(ZERO) == 0.0
  {
    ScaleZero(-1074);
  }

  ghost predicate Increasing(ts: seq<Double>) {
    && (forall i :: 0 <= i < |ts| ==> IsFinite(ts[i]))
    && (forall i :: 0 < i < |ts| ==> Val(ts[i - 1]) < Val(ts[i]))
  }
}
