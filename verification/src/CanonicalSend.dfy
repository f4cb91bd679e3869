/** The canonical bytes of a send request: equal exactly for requests that mean the same. */
module CanonicalSend {
  import opened Basics
  import opened Bytes

  datatype Error = InvalidArgument | Unsupported | PayloadTooLarge

  datatype Outcome = Bytes(value: Octets) | Refused(why: Error)

  // ---- Hex ------------------------------------------------------------------------------------

  function Digit(c: char): (d: Option<nat>)
    ensures d.Some? ==> d.value < 16
  {
    if '0' <= c <= '9' then Some(c as int - '0' as int)
    else if 'a' <= c <= 'f' then Some(c as int - 'a' as int + 10)
    else if 'A' <= c <= 'F' then Some(c as int - 'A' as int + 10)
    else None
  }

  function LowerChar(c: char): char {
    if 'A' <= c <= 'F' then (c as int + 32) as char else c
  }

  function Lower(s: string): (r: string)
  {
    seq(|s|, i requires 0 <= i < |s| => LowerChar(s[i]))
  }

  predicate IsHex(s: string) {
    forall i | 0 <= i < |s| :: Digit(s[i]).Some?
  }

  function Number(s: string): nat
    requires IsHex(s)
  {
    if s == "" then 0 else 16 * Number(s[..|s| - 1]) + Digit(s[|s| - 1]).value
  }

  /** hex_value */
  function HexValue(s: string, digits: nat): (r: Option<nat>)
  {
    if |s| == digits && IsHex(s) then Some(Number(s)) else None
  }

  /** Texts of one length have the same value exactly when they differ only in case. */
  lemma {:induction false} SameNumber(a: string, b: string)
    requires IsHex(a) && IsHex(b) && |a| == |b|
    ensures Number(a) == Number(b) <==> Lower(a) == Lower(b)
    decreases |a|
  {
    if a != "" {
      var x, y := a[..|a| - 1], b[..|b| - 1];
      SameNumber(x, y);
      assert Lower(a) == Lower(x) + [LowerChar(a[|a| - 1])] && Lower(b) == Lower(y) + [LowerChar(b[|b| - 1])];
      assert Lower(a)[..|a| - 1] == Lower(x) && Lower(b)[..|b| - 1] == Lower(y);
      assert Lower(a)[|a| - 1] == LowerChar(a[|a| - 1]) && Lower(b)[|b| - 1] == LowerChar(b[|b| - 1]);
    }
  }

  /** bytes.fromhex */
  function FromHex(s: string): (r: Octets)
    requires IsHex(s) && |s| % 2 == 0
    ensures |r| == |s| / 2
  {
    if s == "" then [] else FromHex(s[..|s| - 2]) + [Pair(s[|s| - 2], s[|s| - 1])]
  }

  function Pair(a: char, b: char): Byte
    requires Digit(a).Some? && Digit(b).Some?
  {
    16 * Digit(a).value + Digit(b).value
  }

  lemma SamePair(a: char, b: char, c: char, d: char)
    requires Digit(a).Some? && Digit(b).Some? && Digit(c).Some? && Digit(d).Some?
    ensures Pair(a, b) == Pair(c, d) <==> LowerChar(a) == LowerChar(c) && LowerChar(b) == LowerChar(d)
  {
  }

  lemma LowerTail(a: string)
    requires |a| >= 2
    ensures Lower(a) == Lower(a[..|a| - 2]) + [LowerChar(a[|a| - 2]), LowerChar(a[|a| - 1])]
  {
  }

  lemma SameEnds<T>(p: seq<T>, q: seq<T>, x: seq<T>, y: seq<T>)
    requires |p| == |q| && |x| == |y|
    ensures p + x == q + y <==> p == q && x == y
  {
    assert (p + x)[..|p|] == p && (q + y)[..|q|] == q && (p + x)[|p|..] == x && (q + y)[|q|..] == y;
  }

  lemma {:induction false} SamePayload(a: string, b: string)
    requires IsHex(a) && IsHex(b) && |a| % 2 == 0 && |a| == |b|
    ensures FromHex(a) == FromHex(b) <==> Lower(a) == Lower(b)
    decreases |a|
  {
    if a != "" {
      var n, x, y := |a|, a[..|a| - 2], b[..|a| - 2];
      SamePayload(x, y);
      SamePair(a[n - 2], a[n - 1], b[n - 2], b[n - 1]);
      LowerTail(a);
      LowerTail(b);
      SameEnds(FromHex(x), FromHex(y), [Pair(a[n - 2], a[n - 1])], [Pair(b[n - 2], b[n - 1])]);
      SameEnds(Lower(x), Lower(y), [LowerChar(a[n - 2]), LowerChar(a[n - 1])], [LowerChar(b[n - 2]), LowerChar(b[n - 1])]);
    }
  }

  // ---- The request ---------------------------------------------------------------------------------

  /** Options left out have defaults. */
  datatype Options = Options(
    delivery: Option<string>, priority: Option<string>, ttl: Option<int>, policy: Option<string>,
    storage: Option<string>, hop: Option<int>, persist: Option<bool>)

  datatype Request = Request(
    network: string, epoch: string, key: string, kind: string, id: string,
    length: int, payload: string, options: Options)

  function Or<T>(x: Option<T>, fallback: T): T {
    match x
    case None => fallback
    case Some(v) => v
  }

  function Delivery(o: Options): string { Or(o.delivery, "RELIABLE") }

  function Storage(o: Options): string { Or(o.storage, "HOST_DURABLE") }

  function Ttl(o: Options): int { Or(o.ttl, 5000) }

  function Hop(o: Options): int { Or(o.hop, 10) }

  predicate HexIn(s: string, digits: nat, low: nat, high: nat) {
    HexValue(s, digits).Some? && low <= HexValue(s, digits).value <= high
  }

  predicate Supported(o: Options) {
    && (Delivery(o) == "BEST_EFFORT" || Delivery(o) == "RELIABLE") && Or(o.priority, "NORMAL") == "NORMAL"
    && Or(o.policy, "WALL_ELAPSED_VALIDITY") == "WALL_ELAPSED_VALIDITY"
    && (Storage(o) == "RAM_ONLY" || Storage(o) == "HOST_DURABLE") && !Or(o.persist, false)
  }

  /** The checks in their order. */
  function Check(r: Request): Option<Error> {
    if !HexIn(r.network, 16, 1, 0xFFFF_FFFF) || !HexIn(r.epoch, 16, 1, 0xFFFF_FFFF_FFFF_FFFF) || HexValue(r.key, 32).None?
    then Some(InvalidArgument)
    else if r.kind != "node" && r.kind != "gateway" then Some(Unsupported)
    else if !HexIn(r.id, 16, 1, 0xFFFF_FFFF_FFFF_FFFE) || !(0 <= r.length <= 65535) || !IsHex(r.payload) || |r.payload| != 2 * r.length
    then Some(InvalidArgument)
    else if r.length > 128 then Some(PayloadTooLarge)
    else if !(1 <= Ttl(r.options) <= 30000) || !(1 <= Hop(r.options) <= 10) then Some(InvalidArgument)
    else if !Supported(r.options) then Some(Unsupported)
    else None
  }

  function Bit(b: bool): nat {
    if b then 1 else 0
  }

  /** What is packed before the payload. */
  datatype Header = Header(network: nat, gateway: bool, node: nat, reliable: bool, durable: bool, ttl: nat, hop: nat, length: nat)

  predicate HeaderOk(h: Header) {
    Fits(h.network, 4) && Fits(h.node, 8) && Fits(h.ttl, 4) && Fits(h.hop, 1) && Fits(h.length, 2)
  }

  function Fields(h: Header): seq<Octets> {
    [BE(1, 1), BE(h.network, 4), BE(Bit(h.gateway), 1), BE(h.node, 8), BE(Bit(h.reliable), 1), BE(1, 1), BE(0, 1),
     BE(Bit(h.durable), 1), BE(h.ttl, 4), BE(h.hop, 1), BE(0, 1), BE(h.length, 2)]
  }

  function HeaderOf(r: Request): (h: Header)
    requires Check(r).None?
    ensures HeaderOk(h)
  {
    Widths();
    Header(Number(r.network), r.kind == "gateway", Number(r.id), Delivery(r.options) == "RELIABLE",
           Storage(r.options) == "HOST_DURABLE", Ttl(r.options), Hop(r.options), r.length)
  }

  /** canonical_send */
  function Canonical(r: Request): Outcome {
    match Check(r)
    case Some(e) => Refused(e)
    case None => Bytes(Join(Fields(HeaderOf(r))) + FromHex(r.payload))
  }

  /** What a request says after case and defaults are normalised; the key and the admission
      epoch are not part of it. */
  datatype Meaning = Meaning(network: string, kind: string, id: string, length: int, payload: string,
                             delivery: string, storage: string, ttl: int, hop: int)

  function MeaningOf(r: Request): Meaning {
    Meaning(Lower(r.network), r.kind, Lower(r.id), r.length, Lower(r.payload),
            Delivery(r.options), Storage(r.options), Ttl(r.options), Hop(r.options))
  }

  /** The header is recovered from its fields. */
  lemma SameHeader(g: Header, h: Header)
    requires HeaderOk(g) && HeaderOk(h) && Fields(g) == Fields(h)
    ensures g == h
  {
    var x, y := Fields(g), Fields(h);
    assert x[1] == y[1] && x[2] == y[2] && x[3] == y[3] && x[4] == y[4] && x[7] == y[7];
    assert x[8] == y[8] && x[9] == y[9] && x[11] == y[11];
    Widths();
    FieldInjective(g.network, h.network, 4);
    FieldInjective(Bit(g.gateway), Bit(h.gateway), 1);
    FieldInjective(g.node, h.node, 8);
    FieldInjective(Bit(g.reliable), Bit(h.reliable), 1);
    FieldInjective(Bit(g.durable), Bit(h.durable), 1);
    FieldInjective(g.ttl, h.ttl, 4);
    FieldInjective(g.hop, h.hop, 1);
    FieldInjective(g.length, h.length, 2);
  }

  /** Headers agree exactly when everything but the payload does. */
  lemma HeaderMeans(r: Request, s: Request)
    requires Check(r).None? && Check(s).None?
    ensures HeaderOf(r) == HeaderOf(s) <==> MeaningOf(r).(payload := "") == MeaningOf(s).(payload := "")
  {
    SameNumber(r.network, s.network);
    SameNumber(r.id, s.id);
  }

  lemma HeaderThen(g: Header, h: Header, p: Octets, q: Octets)
    requires HeaderOk(g) && HeaderOk(h)
    ensures Join(Fields(g)) + p == Join(Fields(h)) + q <==> g == h && p == q
  {
    if Join(Fields(g)) + p == Join(Fields(h)) + q {
      FieldsSplit(Fields(g), Fields(h), p, q);
      SameHeader(g, h);
    }
  }

  lemma SameBytes(g: Header, h: Header, a: string, b: string)
    requires HeaderOk(g) && HeaderOk(h) && IsHex(a) && IsHex(b) && |a| == 2 * g.length && |b| == 2 * h.length
    ensures Join(Fields(g)) + FromHex(a) == Join(Fields(h)) + FromHex(b) <==> g == h && Lower(a) == Lower(b)
  {
    HeaderThen(g, h, FromHex(a), FromHex(b));
    if g == h {
      SamePayload(a, b);
    }
  }

  /** Two accepted requests have the same canonical bytes exactly when they mean the same. */
  lemma CanonicalExact(r: Request, s: Request)
    requires Check(r).None? && Check(s).None?
    ensures Canonical(r) == Canonical(s) <==> MeaningOf(r) == MeaningOf(s)
  {
    HeaderMeans(r, s);
    SameBytes(HeaderOf(r), HeaderOf(s), r.payload, s.payload);
  }
}
