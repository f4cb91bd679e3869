/** The authority and exporter contexts: each names its fields without ambiguity and
    within its size bound. */
module Contexts {
  import opened Basics
  import opened Bytes
  import opened Cbor

  /** A Python integer that cbor_uint accepts. */
  predicate InRange(v: int) {
    0 <= v < LIMIT
  }

  /** "RouteLoom" */
  const NAME: Octets := [0x52, 0x6F, 0x75, 0x74, 0x65, 0x4C, 0x6F, 0x6F, 0x6D]

  // ---- dams_context ------------------------------------------------------------------------

  const CONTEXT_MAX := 108

  datatype Dams = Dams(purpose: int, network: int, node: int, site: int, device: Octets, sak: Octets)

  datatype Failure = BadNetwork | BadId | BadKid | OutOfRange | TooLong

  datatype Built = Context(bytes: Octets) | Refused(why: Failure)

  predicate ReservedId(v: int) {
    v == 0 || v == 0xFFFF_FFFF_FFFF_FFFF
  }

  predicate DamsInRange(d: Dams) {
    InRange(d.purpose) && InRange(d.network) && InRange(d.node) && InRange(d.site)
  }

  /** The bytes as the encoder concatenates them. */
  function DamsBytes(d: Dams): Octets
    requires DamsInRange(d)
  {
    [0x88] + (([0x69] + NAME + Head(0, 1)) + (Head(0, d.purpose) + Head(0, d.network)) + (Head(0, d.node) + Head(0, d.site))
              + (([0x58, 0x20] + d.device) + ([0x58, 0x20] + d.sak)))
  }

  function DamsContext(d: Dams): (r: Built) {
    if d.network == 0 || d.network % 0x1_0000_0000 == 0 then Refused(BadNetwork)
    else if ReservedId(d.node) || ReservedId(d.site) then Refused(BadId)
    else if |d.device| != 32 || |d.sak| != 32 then Refused(BadKid)
    else if !DamsInRange(d) then Refused(OutOfRange)
    else if |DamsBytes(d)| > CONTEXT_MAX then Refused(TooLong)
    else Context(DamsBytes(d))
  }

  /** The array the context is the encoding of. */
  function DamsItem(d: Dams): Item
    requires DamsInRange(d)
  {
    Array([Text(NAME), Uint(1)] + [Uint(d.purpose), Uint(d.network)] + [Uint(d.node), Uint(d.site)] + [Bstr(d.device), Bstr(d.sak)])
  }

  lemma EncodeTwo(x: Item, y: Item)
    ensures EncodeAll([x, y]) == Encode(x) + Encode(y)
  {
    assert [x, y][1..] == [y] && [y][1..] == [];
    assert EncodeAll([y]) == Encode(y) + [];
  }

  lemma {:induction false} EncodeAppend(a: seq<Item>, b: seq<Item>)
    ensures EncodeAll(a + b) == EncodeAll(a) + EncodeAll(b)
    decreases |a|
  {
    if a == [] {
      assert a + b == b;
    } else {
      assert (a + b)[0] == a[0] && (a + b)[1..] == a[1..] + b;
      EncodeAppend(a[1..], b);
    }
  }

  lemma EncodeEight(a: Item, b: Item, c: Item, d: Item, e: Item, f: Item, g: Item, h: Item)
    ensures Encode(Array([a, b] + [c, d] + [e, f] + [g, h])) ==
            Head(4, 8) + ((Encode(a) + Encode(b)) + (Encode(c) + Encode(d)) + (Encode(e) + Encode(f)) + (Encode(g) + Encode(h)))
  {
    EncodeTwo(a, b);
    EncodeTwo(c, d);
    EncodeTwo(e, f);
    EncodeTwo(g, h);
    EncodeAppend([a, b] + [c, d] + [e, f], [g, h]);
    EncodeAppend([a, b] + [c, d], [e, f]);
    EncodeAppend([a, b], [c, d]);
  }

  lemma FixedHeads()
    ensures Head(4, 8) == [0x88] && Head(3, 9) == [0x69] && Head(2, 32) == [0x58, 0x20]
  {
    assert BE(32, 1) == BE(0, 0) + [32];
  }

  /** The literal bytes are the canonical encoding of that array. */
  lemma DamsIsCbor(d: Dams)
    requires DamsInRange(d) && |d.device| == 32 && |d.sak| == 32
    ensures Encode(DamsItem(d)) == DamsBytes(d)
  {
    FixedHeads();
    EncodeEight(Text(NAME), Uint(1), Uint(d.purpose), Uint(d.network), Uint(d.node), Uint(d.site), Bstr(d.device), Bstr(d.sak));
  }

  /** Bytes the numbers take beyond one each. */
  function DamsExtra(d: Dams): nat
    requires DamsInRange(d)
  {
    Extra(d.purpose) + Extra(d.network) + Extra(d.node) + Extra(d.site)
  }

  /** The size assertion fires exactly when the numbers need more than 24 extra bytes. */
  lemma DamsBound(d: Dams)
    ensures DamsContext(d) == Refused(TooLong) <==>
            && d.network % 0x1_0000_0000 != 0 && !ReservedId(d.node) && !ReservedId(d.site)
            && |d.device| == 32 && |d.sak| == 32 && DamsInRange(d) && DamsExtra(d) > 24
    ensures 0 <= d.purpose < 24 ==> DamsContext(d) != Refused(TooLong)
  {
  }

  /** With a purpose of 24 or more it can fire. */
  lemma DamsTooLong(device: Octets, sak: Octets)
    requires |device| == 32 && |sak| == 32
    ensures DamsContext(Dams(24, 0x1_0000_0001, 0x1_0000_0001, 0x1_0000_0001, device, sak)) == Refused(TooLong)
  {
    DamsBound(Dams(24, 0x1_0000_0001, 0x1_0000_0001, 0x1_0000_0001, device, sak));
  }

  /** Different fields never share a context. */
  lemma DamsInjective(d: Dams, e: Dams)
    requires DamsContext(d).Context? && DamsContext(d) == DamsContext(e)
    ensures d == e
  {
    DamsIsCbor(d);
    DamsIsCbor(e);
    Injective(DamsItem(d), DamsItem(e));
    var xs, ys := DamsItem(d).items, DamsItem(e).items;
    assert xs[2] == ys[2] && xs[3] == ys[3] && xs[4] == ys[4] && xs[5] == ys[5] && xs[6] == ys[6] && xs[7] == ys[7];
  }

  // ---- exporter_context ----------------------------------------------------------------------

  datatype Exporter = Exporter(
    purpose: int, network: int, nodeI: int, nodeR: int, kidI: Octets, kidR: Octets,
    roleI: int, roleR: int, genI: int, genR: int, epoch: int, direction: int, capability: Octets)

  predicate ExporterInRange(x: Exporter) {
    && InRange(x.network) && InRange(x.nodeI) && InRange(x.nodeR) && InRange(x.roleI) && InRange(x.roleR)
    && InRange(x.genI) && InRange(x.genR) && InRange(x.epoch)
  }

  predicate ExporterAsserts(x: Exporter) {
    && 1 <= x.purpose <= 2 && x.network != 0 && x.nodeI != x.nodeR
    && |x.kidI| == 32 && |x.kidR| == 32
    && x.roleI != 0 && x.roleR != 0 && x.genI != 0 && x.genR != 0
    && 0 <= x.direction <= 2 && ((x.direction == 0) == (x.epoch == 0)) && |x.capability| == 32
  }

  function ExporterItem(x: Exporter): Item
    requires ExporterAsserts(x) && ExporterInRange(x)
  {
    Array([Text(NAME), Uint(1), Uint(x.purpose), Uint(x.network), Uint(x.nodeI), Uint(x.nodeR),
           Bstr(x.kidI), Bstr(x.kidR), Uint(x.roleI), Uint(x.roleR),
           Array([Uint(x.genI), Uint(x.genR)]), Array([Uint(2), Uint(0)]),
           Uint(x.epoch), Uint(x.direction), Bstr(x.capability)])
  }

  /** None where one of its assertions stops it. */
  function ExporterContext(x: Exporter): Option<Octets> {
    if !ExporterAsserts(x) || !ExporterInRange(x) then None
    else if |Encode(ExporterItem(x))| > 256 then None
    else Some(Encode(ExporterItem(x)))
  }

  function Sizes(items: seq<Item>): nat
    decreases |items|
  {
    if items == [] then 0 else |Encode(items[0])| + Sizes(items[1..])
  }

  lemma {:induction false} SizeOfAll(items: seq<Item>)
    ensures |EncodeAll(items)| == Sizes(items)
    decreases |items|
  {
    if items != [] {
      SizeOfAll(items[1..]);
    }
  }

  lemma {:induction false} SizeBound(items: seq<Item>, bounds: seq<nat>)
    requires |items| == |bounds| && forall i | 0 <= i < |items| :: |Encode(items[i])| <= bounds[i]
    ensures Sizes(items) <= Sum(bounds)
    decreases |items|
  {
    if items != [] {
      SizeBound(items[1..], bounds[1..]);
    }
  }

  function Sum(s: seq<nat>): nat {
    if s == [] then 0 else s[0] + Sum(s[1..])
  }

  lemma PairSize(a: nat, b: nat)
    requires a < LIMIT && b < LIMIT
    ensures |Encode(Array([Uint(a), Uint(b)]))| == 1 + (1 + Extra(a)) + (1 + Extra(b))
  {
    EncodeTwo(Uint(a), Uint(b));
    assert Encode(Array([Uint(a), Uint(b)])) == Head(4, 2) + EncodeAll([Uint(a), Uint(b)]);
  }

  function ExporterBounds(): seq<nat> {
    [10, 1, 1, 9, 9, 9, 34, 34, 9, 9, 19, 3, 9, 1, 34]
  }

  lemma ExporterParts(x: Exporter)
    requires ExporterAsserts(x) && ExporterInRange(x)
    ensures forall i | 0 <= i < 15 :: |Encode(ExporterItem(x).items[i])| <= ExporterBounds()[i]
  {
    PairSize(x.genI, x.genR);
    PairSize(2, 0);
  }

  /** No accepted context is longer than 192 bytes, so the size assertion cannot fire. */
  lemma ExporterBound(x: Exporter)
    requires ExporterAsserts(x) && ExporterInRange(x)
    ensures |Encode(ExporterItem(x))| <= 192 && ExporterContext(x).Some?
  {
    var items := ExporterItem(x).items;
    ExporterParts(x);
    SizeOfAll(items);
    SizeBound(items, ExporterBounds());
    SumsTo191();
  }

  lemma SumsTo191()
    ensures Sum(ExporterBounds()) == 191
  {
    assert Sum([9, 19, 3, 9, 1, 34]) == 75;
    assert Sum([9, 34, 34, 9, 9, 19, 3, 9, 1, 34]) == 161;
  }

  lemma ExporterInjective(x: Exporter, y: Exporter)
    requires ExporterContext(x).Some? && ExporterContext(x) == ExporterContext(y)
    ensures x == y
  {
    Injective(ExporterItem(x), ExporterItem(y));
  }

}
