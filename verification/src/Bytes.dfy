/** Byte strings, big-endian fields and the concatenation arguments that encoders
    built from fixed-width fields rest on. */
module Bytes {
  import opened Basics

  type Byte = b: int | 0 <= b < 256

  type Octets = seq<Byte>

  /** 256 to the n. */
  function Pow256(n: nat): (r: nat)
    ensures r > 0
  {
    if n == 0 then 1 else 256 * Pow256(n - 1)
  }

  /** The n low bytes of v, most significant first. */
  function BE(v: nat, n: nat): (r: Octets)
    ensures |r| == n
  {
    if n == 0 then [] else BE(v / 256, n - 1) + [v % 256]
  }

  function FromBE(s: Octets): nat {
    if s == [] then 0 else 256 * FromBE(s[..|s| - 1]) + s[|s| - 1]
  }

  /** The number the n low bytes of v spell. */
  function Low(v: nat, n: nat): nat {
    if n == 0 then 0 else 256 * Low(v / 256, n - 1) + v % 256
  }

  lemma {:induction false} BERoundTrip(v: nat, n: nat)
    ensures FromBE(BE(v, n)) == Low(v, n)
  {
    if n > 0 {
      BERoundTrip(v / 256, n - 1);
      assert BE(v, n)[..n - 1] == BE(v / 256, n - 1);
    }
  }

  /** Two numbers have the same n-byte field if and only if their low bytes agree. */
  lemma {:induction false} SameField(v: nat, w: nat, n: nat)
    ensures BE(v, n) == BE(w, n) <==> Low(v, n) == Low(w, n)
  {
    if n > 0 {
      SameField(v / 256, w / 256, n - 1);
      var x, y := BE(v / 256, n - 1), BE(w / 256, n - 1);
      assert (x + [v % 256])[..n - 1] == x && (y + [w % 256])[..n - 1] == y;
      assert (x + [v % 256])[n - 1] == v % 256 && (y + [w % 256])[n - 1] == w % 256;
    }
  }

  /** A number that fits its field. */
  predicate Fits(v: nat, n: nat) {
    v < Pow256(n)
  }

  lemma {:induction false} LowOfFitting(v: nat, n: nat)
    requires Fits(v, n)
    ensures Low(v, n) == v
  {
    if n > 0 {
      LowOfFitting(v / 256, n - 1);
    }
  }

  lemma FieldInjective(v: nat, w: nat, n: nat)
    requires Fits(v, n) && Fits(w, n) && BE(v, n) == BE(w, n)
    ensures v == w
  {
    SameField(v, w, n);
    LowOfFitting(v, n);
    LowOfFitting(w, n);
  }

  lemma FieldRecovers(v: nat, n: nat)
    requires Fits(v, n)
    ensures FromBE(BE(v, n)) == v
  {
    BERoundTrip(v, n);
    LowOfFitting(v, n);
  }

  lemma {:induction false} FromBEFits(s: Octets)
    ensures Fits(FromBE(s), |s|) && BE(FromBE(s), |s|) == s
  {
    if s != [] {
      var front, last := s[..|s| - 1], s[|s| - 1];
      FromBEFits(front);
      assert s == front + [last];
    }
  }

  /** Widths used by the wire formats. */
  lemma Widths()
    ensures Pow256(1) == 0x100 && Pow256(2) == 0x1_0000 && Pow256(4) == 0x1_0000_0000
    ensures Pow256(6) == 0x1_0000_0000_0000 && Pow256(8) == 0x1_0000_0000_0000_0000
  {
    assert Pow256(3) == 0x100_0000;
    assert Pow256(5) == 0x100_0000_0000 && Pow256(7) == 0x100_0000_0000_0000;
  }

  /** A string split at a known length splits in one way. */
  lemma SplitAt(a: Octets, b: Octets, c: Octets, d: Octets)
    requires |a| == |c| && a + b == c + d
    ensures a == c && b == d
  {
    assert a == (a + b)[..|a|] && c == (c + d)[..|a|];
    assert b == (a + b)[|a|..] && d == (c + d)[|a|..];
  }

  /** Byte strings one after another. */
  function Join(parts: seq<Octets>): Octets {
    if parts == [] then [] else parts[0] + Join(parts[1..])
  }

  ghost predicate SameWidths(xs: seq<Octets>, ys: seq<Octets>) {
    |xs| == |ys| && forall i | 0 <= i < |xs| :: |xs[i]| == |ys[i]|
  }

  /** Fields of fixed widths are cut apart in one way. */
  lemma {:induction false} FieldsSplit(xs: seq<Octets>, ys: seq<Octets>, s: Octets, t: Octets)
    requires SameWidths(xs, ys) && Join(xs) + s == Join(ys) + t
    ensures xs == ys && s == t
    decreases |xs|
  {
    if xs == [] {
      assert Join(xs) + s == s && Join(ys) + t == t;
    } else {
      assert Join(xs) + s == xs[0] + (Join(xs[1..]) + s);
      assert Join(ys) + t == ys[0] + (Join(ys[1..]) + t);
      SplitAt(xs[0], Join(xs[1..]) + s, ys[0], Join(ys[1..]) + t);
      FieldsSplit(xs[1..], ys[1..], s, t);
    }
  }

  /** Exclusive or of two bytes, bit by bit. */
  function XorBits(a: nat, b: nat, n: nat): (r: nat) {
    if n == 0 then 0 else (if a % 2 == b % 2 then 0 else 1) + 2 * XorBits(a / 2, b / 2, n - 1)
  }

  lemma {:induction false} XorBound(a: nat, b: nat, n: nat)
    ensures XorBits(a, b, n) < Pow2(n)
  {
    if n > 0 {
      XorBound(a / 2, b / 2, n - 1);
    }
  }

  function Xor(a: Byte, b: Byte): Byte {
    XorBound(a, b, 8);
    assert Pow2(8) == 256 by { assert Pow2(4) == 16; }
    XorBits(a, b, 8)
  }

  /** Xor with a fixed byte is injective. */
  lemma {:induction false} XorCancels(a: nat, p: nat, q: nat, n: nat)
    requires p < Pow2(n) && q < Pow2(n) && XorBits(a, p, n) == XorBits(a, q, n)
    ensures p == q
  {
    if n > 0 {
      assert p % 2 == q % 2;
      XorCancels(a / 2, p / 2, q / 2, n - 1);
    }
  }

  lemma XorInjective(a: Byte, p: Byte, q: Byte)
    requires Xor(a, p) == Xor(a, q)
    ensures p == q
  {
    assert Pow2(8) == 256 by { assert Pow2(4) == 16; }
    XorCancels(a, p, q, 8);
  }
}
