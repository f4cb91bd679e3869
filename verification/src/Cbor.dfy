/** Shortest-form CBOR as the encoders build it: heads, and the items made from them. */
module Cbor {
  import opened Basics
  import opened Bytes

  const LIMIT: nat := 0x1_0000_0000_0000_0000

  // ---- Heads -------------------------------------------------------------------------------

  /** The bytes that follow the first one, for a number in shortest form. */
  function Extra(n: nat): (w: nat)
  {
    if n < 24 then 0 else if n <= 0xFF then 1 else if n <= 0xFFFF then 2 else if n <= 0xFFFF_FFFF then 4 else 8
  }

  /** How the first byte says how many follow. */
  function Code(w: nat): (c: nat)
    requires w in {1, 2, 4, 8}
    ensures 24 <= c <= 27
  {
    if w == 1 then 24 else if w == 2 then 25 else if w == 4 then 26 else 27
  }

  function WidthOf(code: nat): (w: nat)
    requires 24 <= code <= 27
    ensures w in {1, 2, 4, 8} && Code(w) == code
  {
    if code == 24 then 1 else if code == 25 then 2 else if code == 26 then 4 else 8
  }

  /** cbor_head; with major type 0 it is cbor_uint. */
  function Head(major: nat, n: nat): (r: Octets)
    requires major < 8
    ensures |r| == 1 + Extra(n)
  {
    if n < 24 then [32 * major + n] else [32 * major + Code(Extra(n))] + BE(n, Extra(n))
  }

  datatype Read = Read(major: nat, n: nat, used: nat)

  /** Reading any head, shortest or not. */
  function ReadHead(s: Octets): (r: Option<Read>)
    ensures r.Some? ==> 1 <= r.value.used <= |s| && r.value.major < 8
  {
    if s == [] then None
    else
      var major, code := s[0] / 32, s[0] % 32;
      if code < 24 then Some(Read(major, code, 1))
      else if code > 27 || |s| < 1 + WidthOf(code) then None
      else Some(Read(major, FromBE(s[1..1 + WidthOf(code)]), 1 + WidthOf(code)))
  }

  lemma ExtraFits(n: nat)
    requires 24 <= n < LIMIT
    ensures Extra(n) in {1, 2, 4, 8} && Fits(n, Extra(n))
  {
    Widths();
  }

  /** A head is read back, whatever follows it. */
  lemma HeadRoundTrip(major: nat, n: nat, rest: Octets)
    requires major < 8 && n < LIMIT
    ensures ReadHead(Head(major, n) + rest) == Some(Read(major, n, |Head(major, n)|))
  {
    var s := Head(major, n) + rest;
    if n >= 24 {
      ExtraFits(n);
      assert s[0] / 32 == major && s[0] % 32 == Code(Extra(n));
      assert s[1..1 + Extra(n)] == BE(n, Extra(n));
      FieldRecovers(n, Extra(n));
    }
  }

  /** No head is the start of another. */
  lemma HeadPrefixFree(m: nat, a: nat, m': nat, b: nat, x: Octets, y: Octets)
    requires m < 8 && m' < 8 && a < LIMIT && b < LIMIT
    requires Head(m, a) + x == Head(m', b) + y
    ensures m == m' && a == b && x == y
  {
    HeadRoundTrip(m, a, x);
    HeadRoundTrip(m', b, y);
    SplitAt(Head(m, a), x, Head(m', b), y);
  }

  /** A field of w bytes is at least as wide as its number needs. */
  lemma FieldWideEnough(field: Octets)
    requires |field| in {1, 2, 4, 8}
    ensures FromBE(field) < LIMIT && Extra(FromBE(field)) <= |field|
  {
    FromBEFits(field);
    Widths();
  }

  lemma LongHead(s: Octets)
    requires ReadHead(s).Some? && s[0] % 32 >= 24
    ensures var r := ReadHead(s).value;
            r.n < LIMIT && |Head(r.major, r.n)| <= r.used
            && (|Head(r.major, r.n)| == r.used <==> s[..r.used] == Head(r.major, r.n))
  {
    var r := ReadHead(s).value;
    var w := WidthOf(s[0] % 32);
    var field := s[1..1 + w];
    FieldWideEnough(field);
    FromBEFits(field);
    assert s[..1 + w] == [s[0]] + field;
    if Extra(r.n) == w {
      assert Head(r.major, r.n) == [32 * r.major + Code(w)] + BE(r.n, w);
    }
  }

  /** Whatever reads as a number is at least as long as its shortest form, and as long
      only when it is that form. */
  lemma HeadShortest(s: Octets)
    requires ReadHead(s).Some?
    ensures var r := ReadHead(s).value;
            r.n < LIMIT && |Head(r.major, r.n)| <= r.used
            && (|Head(r.major, r.n)| == r.used <==> s[..r.used] == Head(r.major, r.n))
  {
    if s[0] % 32 >= 24 {
      LongHead(s);
    } else {
      assert s[..1] == [s[0]];
    }
  }

  // ---- Items ---------------------------------------------------------------------------------

  datatype Item = Uint(n: nat) | Bstr(data: Octets) | Text(data: Octets) | Array(items: seq<Item>)

  /** Numbers and sizes a head can carry. */
  ghost predicate Encodable(x: Item) {
    match x
    case Uint(n) => n < LIMIT
    case Bstr(data) => |data| < LIMIT
    case Text(data) => |data| < LIMIT
    case Array(items) => |items| < LIMIT && forall i | 0 <= i < |items| :: Encodable(items[i])
  }

  /** cbor_uint, cbor_bstr, cbor_text and cbor_array. */
  function Encode(x: Item): Octets
    decreases x
  {
    match x
    case Uint(n) => Head(0, n)
    case Bstr(data) => Head(2, |data|) + data
    case Text(data) => Head(3, |data|) + data
    case Array(items) => Head(4, |items|) + EncodeAll(items)
  }

  function EncodeAll(items: seq<Item>): Octets
    decreases items
  {
    if items == [] then [] else Encode(items[0]) + EncodeAll(items[1..])
  }

  function Major(x: Item): (m: nat)
    ensures m < 8
  {
    match x
    case Uint(_) => 0
    case Bstr(_) => 2
    case Text(_) => 3
    case Array(_) => 4
  }

  function Size(x: Item): nat {
    match x
    case Uint(n) => n
    case Bstr(data) => |data|
    case Text(data) => |data|
    case Array(items) => |items|
  }

  function Body(x: Item): Octets {
    match x
    case Uint(_) => []
    case Bstr(data) => data
    case Text(data) => data
    case Array(items) => EncodeAll(items)
  }

  lemma EncodeParts(x: Item, s: Octets)
    ensures Encode(x) + s == Head(Major(x), Size(x)) + (Body(x) + s)
  {
    if x.Uint? {
      assert Body(x) + s == s;
    }
  }

  /** No encoding is the start of another; in particular equal encodings are of equal items. */
  lemma {:induction false} PrefixFree(x: Item, y: Item, s: Octets, t: Octets)
    requires Encodable(x) && Encodable(y) && Encode(x) + s == Encode(y) + t
    ensures x == y && s == t
    decreases x
  {
    EncodeParts(x, s);
    EncodeParts(y, t);
    HeadPrefixFree(Major(x), Size(x), Major(y), Size(y), Body(x) + s, Body(y) + t);
    match x
    case Uint(_) => assert Body(x) + s == s && Body(y) + t == t;
    case Bstr(data) => SplitAt(data, s, y.data, t);
    case Text(data) => SplitAt(data, s, y.data, t);
    case Array(items) => AllPrefixFree(items, y.items, s, t);
  }

  lemma {:induction false} AllPrefixFree(xs: seq<Item>, ys: seq<Item>, s: Octets, t: Octets)
    requires |xs| == |ys| && (forall i | 0 <= i < |xs| :: Encodable(xs[i]))
    requires forall i | 0 <= i < |ys| :: Encodable(ys[i])
    requires EncodeAll(xs) + s == EncodeAll(ys) + t
    ensures xs == ys && s == t
    decreases xs
  {
    if xs == [] {
      assert EncodeAll(xs) + s == s && EncodeAll(ys) + t == t;
    } else {
      assert EncodeAll(xs) + s == Encode(xs[0]) + (EncodeAll(xs[1..]) + s);
      assert EncodeAll(ys) + t == Encode(ys[0]) + (EncodeAll(ys[1..]) + t);
      PrefixFree(xs[0], ys[0], EncodeAll(xs[1..]) + s, EncodeAll(ys[1..]) + t);
      AllPrefixFree(xs[1..], ys[1..], s, t);
    }
  }

  lemma Injective(x: Item, y: Item)
    requires Encodable(x) && Encodable(y) && Encode(x) == Encode(y)
    ensures x == y
  {
    assert Encode(x) + [] == Encode(x) && Encode(y) + [] == Encode(y);
    PrefixFree(x, y, [], []);
  }
}
