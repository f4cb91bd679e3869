/** The inputs of every hash, MAC and key derivation in a resumed session: a label, a zero
    byte and fields. No two different inputs are the same bytes. */
module Transcript {
  import opened Bytes

  // ---- Labels ------------------------------------------------------------------------------

  datatype Label = Group | BcastLink | GroupEnd | DskMember | Rid | ResumeAuth | ResumeBinding | R1 | R2 | R3
                 | ResumeConfirm | ResumeKey | DevRam | DevRms | DevGroupKey | DevGroupIv | DevScope

  /** What follows "RouteLoom/v1/". */
  function Suffix(name: Label): string {
    match name
    case Group => "group"
    case BcastLink => "bcast-link"
    case GroupEnd => "group-end"
    case DskMember => "dsk-member"
    case Rid => "rid"
    case ResumeAuth => "resume-auth"
    case ResumeBinding => "resume-binding"
    case R1 => "R1"
    case R2 => "R2"
    case R3 => "R3"
    case ResumeConfirm => "resume-confirm"
    case ResumeKey => "resume-key"
    case DevRam => "dev-ram"
    case DevRms => "dev-rms"
    case DevGroupKey => "dev-group-key"
    case DevGroupIv => "dev-group-iv"
    case DevScope => "dev-scope"
  }

  function Ascii(s: string): (r: Octets)
    ensures |r| == |s| && forall i | 0 <= i < |s| :: r[i] == (if s[i] as int < 256 then s[i] as int else 0)
  {
    seq(|s|, i requires 0 <= i < |s| => if s[i] as int < 256 then s[i] as int else 0)
  }

  const PREFIX := "RouteLoom/v1/"

  function LabelBytes(name: Label): Octets {
    Ascii(PREFIX + Suffix(name))
  }

  /** Length and last letter already tell the labels apart. */
  function Mark(name: Label): (nat, char) {
    match name
    case Group => (5, 'p')
    case BcastLink => (10, 'k')
    case GroupEnd => (9, 'd')
    case DskMember => (10, 'r')
    case Rid => (3, 'd')
    case ResumeAuth => (11, 'h')
    case ResumeBinding => (14, 'g')
    case R1 => (2, '1')
    case R2 => (2, '2')
    case R3 => (2, '3')
    case ResumeConfirm => (14, 'm')
    case ResumeKey => (10, 'y')
    case DevRam => (7, 'm')
    case DevRms => (7, 's')
    case DevGroupKey => (13, 'y')
    case DevGroupIv => (12, 'v')
    case DevScope => (9, 'e')
  }

  lemma LabelsDiffer(a: Label, b: Label)
    requires LabelBytes(a) == LabelBytes(b)
    ensures a == b
  {
    var x, y := PREFIX + Suffix(a), PREFIX + Suffix(b);
    assert |x| == |Ascii(x)| == |Ascii(y)| == |y|;
    assert x[|x| - 1] == Mark(a).1 && y[|y| - 1] == Mark(b).1;
    assert Ascii(x)[|x| - 1] == Ascii(y)[|y| - 1];
  }

  predicate Visible(s: string) {
    forall i | 0 <= i < |s| :: 0 < s[i] as int < 256
  }

  lemma VisibleBytes(s: string, t: string)
    requires Visible(s) && Visible(t)
    ensures 0 !in Ascii(s + t)
  {
  }

  lemma LabelVisible(name: Label)
    ensures 0 !in LabelBytes(name)
  {
    VisibleBytes(PREFIX, Suffix(name));
  }

  // ---- info --------------------------------------------------------------------------------

  function Info(name: Octets, fields: Octets): Octets {
    name + [0] + fields
  }

  /** Labels without a zero byte end at the first one. */
  lemma InfoInjective(l: Octets, f: Octets, m: Octets, g: Octets)
    requires 0 !in l && 0 !in m
    ensures Info(l, f) == Info(m, g) <==> l == m && f == g
  {
    var x, y := Info(l, f), Info(m, g);
    if x == y {
      assert x[|l|] == 0 && y[|m|] == 0;
      assert forall i | 0 <= i < |l| :: x[i] == l[i] != 0;
      assert forall i | 0 <= i < |m| :: y[i] == m[i] != 0;
      assert |l| == |m|;
      SplitAt(l + [0], f, m + [0], g);
      SplitAt(l, [0], m, [0]);
    }
  }

  // ---- R1 and R2 -----------------------------------------------------------------------------

  datatype Epochs = Epochs(a: nat, b: nat, c: nat)

  predicate EpochsOk(e: Epochs) {
    Fits(e.a, 4) && Fits(e.b, 4) && Fits(e.c, 4)
  }

  const PENDING: nat := 5

  datatype Hello = Hello(purpose: nat, rid: Octets, nonce: Octets, cid: nat, epochs: Epochs, ticket: Octets)

  predicate HelloOk(h: Hello) {
    && Fits(h.purpose, 1) && |h.rid| == 8 && |h.nonce| == 16 && Fits(h.cid, 4) && EpochsOk(h.epochs)
    && |h.ticket| < 256
  }

  /** The ticket is sent for one purpose only. */
  function Sent(h: Hello): Hello {
    if h.purpose == PENDING then h else h.(ticket := [])
  }

  function HelloFields(h: Hello): seq<Octets> {
    [BE(h.purpose, 1), [0], [0, 0], h.rid, h.nonce, BE(h.cid, 4), BE(h.epochs.a, 4), BE(h.epochs.b, 4), BE(h.epochs.c, 4)]
  }

  function Ticket(h: Hello): Octets
    requires |h.ticket| < 256
  {
    if h.purpose == PENDING then [|h.ticket|] + h.ticket else []
  }

  /** r1_body */
  function R1Body(h: Hello): Octets
    requires |h.ticket| < 256
  {
    Join(HelloFields(h)) + Ticket(h)
  }

  datatype Answer = Answer(nonce: Octets, cid: nat, epochs: Epochs)

  predicate AnswerOk(a: Answer) {
    |a.nonce| == 16 && Fits(a.cid, 4) && EpochsOk(a.epochs)
  }

  function AnswerFields(a: Answer): seq<Octets> {
    [[0], [0], [0, 0], a.nonce, BE(a.cid, 4), BE(a.epochs.a, 4), BE(a.epochs.b, 4), BE(a.epochs.c, 4)]
  }

  /** r2_body */
  function R2Body(a: Answer): Octets {
    Join(AnswerFields(a))
  }

  lemma EpochsInjective(x: Epochs, y: Epochs)
    requires EpochsOk(x) && EpochsOk(y) && BE(x.a, 4) == BE(y.a, 4) && BE(x.b, 4) == BE(y.b, 4) && BE(x.c, 4) == BE(y.c, 4)
    ensures x == y
  {
    FieldInjective(x.a, y.a, 4);
    FieldInjective(x.b, y.b, 4);
    FieldInjective(x.c, y.c, 4);
  }

  /** An R1 body says where it ends, and carries every field that is sent. */
  lemma R1SelfDelimiting(x: Hello, y: Hello, s: Octets, t: Octets)
    requires HelloOk(x) && HelloOk(y) && R1Body(x) + s == R1Body(y) + t
    ensures Sent(x) == Sent(y) && R1Body(x) == R1Body(y) && s == t
  {
    assert R1Body(x) + s == Join(HelloFields(x)) + (Ticket(x) + s);
    assert R1Body(y) + t == Join(HelloFields(y)) + (Ticket(y) + t);
    FieldsSplit(HelloFields(x), HelloFields(y), Ticket(x) + s, Ticket(y) + t);
    HelloFieldsInjective(x, y);
    if x.purpose == PENDING {
      assert Ticket(x) + s == [|x.ticket|] + (x.ticket + s) && Ticket(y) + t == [|y.ticket|] + (y.ticket + t);
      SplitAt([|x.ticket|], x.ticket + s, [|y.ticket|], y.ticket + t);
      SplitAt(x.ticket, s, y.ticket, t);
    } else {
      assert Ticket(x) + s == s && Ticket(y) + t == t;
    }
  }

  lemma HelloFieldsInjective(x: Hello, y: Hello)
    requires HelloOk(x) && HelloOk(y) && HelloFields(x) == HelloFields(y)
    ensures x.(ticket := []) == y.(ticket := [])
  {
    var xs, ys := HelloFields(x), HelloFields(y);
    assert xs[0] == ys[0] && xs[3] == ys[3] && xs[4] == ys[4] && xs[5] == ys[5];
    assert xs[6] == ys[6] && xs[7] == ys[7] && xs[8] == ys[8];
    FieldInjective(x.purpose, y.purpose, 1);
    FieldInjective(x.cid, y.cid, 4);
    EpochsInjective(x.epochs, y.epochs);
  }

  lemma R2BodyInjective(x: Answer, y: Answer)
    requires AnswerOk(x) && AnswerOk(y) && R2Body(x) == R2Body(y)
    ensures x == y
  {
    assert R2Body(x) + [] == R2Body(y) + [];
    FieldsSplit(AnswerFields(x), AnswerFields(y), [], []);
    var xs, ys := AnswerFields(x), AnswerFields(y);
    assert xs[3] == ys[3] && xs[4] == ys[4] && xs[5] == ys[5] && xs[6] == ys[6] && xs[7] == ys[7];
    FieldInjective(x.cid, y.cid, 4);
    EpochsInjective(x.epochs, y.epochs);
  }

  function TotalWidth(parts: seq<Octets>): nat {
    if parts == [] then 0 else |parts[0]| + TotalWidth(parts[1..])
  }

  lemma {:induction false} JoinWidth(parts: seq<Octets>)
    ensures |Join(parts)| == TotalWidth(parts)
  {
    if parts != [] {
      JoinWidth(parts[1..]);
    }
  }

  /** The sizes the generator asserts: 60 bytes plus the ticket and its length, and 52. */
  lemma MessageSizes(h: Hello, a: Answer)
    requires HelloOk(h) && AnswerOk(a)
    ensures |R1Body(h)| + 16 == 60 + (if h.purpose == PENDING then 1 + |h.ticket| else 0)
    ensures |R2Body(a)| + 16 == 52
  {
    var hs, bs := HelloFields(h), AnswerFields(a);
    JoinWidth(hs);
    JoinWidth(bs);
    assert TotalWidth(hs[8..]) == 4 && TotalWidth(hs[7..]) == 8 && TotalWidth(hs[6..]) == 12 && TotalWidth(hs[5..]) == 16;
    assert TotalWidth(hs[4..]) == 32 && TotalWidth(hs[3..]) == 40 && TotalWidth(hs[2..]) == 42 && TotalWidth(hs[1..]) == 43;
    assert TotalWidth(bs[7..]) == 4 && TotalWidth(bs[6..]) == 8 && TotalWidth(bs[5..]) == 12 && TotalWidth(bs[4..]) == 16;
    assert TotalWidth(bs[3..]) == 32 && TotalWidth(bs[2..]) == 34 && TotalWidth(bs[1..]) == 35;
  }

  // ---- Every input of a resumed session ----------------------------------------------------------

  datatype Input =
    | RidInfo(purpose: nat)
    | AuthInfo(purpose: nat, network: nat, nodeI: nat, nodeR: nat)
    | RoutedBinding(purpose: nat, nodeI: nat, nodeR: nat)
    | LinkBinding(macI: Octets, macR: Octets, carrier: Octets)
    | R1Mac(binding: Octets, hello: Hello)
    | R2Mac(binding: Octets, hello: Hello, tag: Octets, answer: Answer)
    | ConfirmInfo(th: Octets)
    | R3Mac(th: Octets)
    | KeyInfo(purpose: nat, direction: nat, network: nat, nodeI: nat, nodeR: nat, cidI: nat, cidR: nat, th: Octets)

  /** Field widths that the encoders demand; hashes are 32 bytes and tags 16. */
  predicate InputOk(x: Input) {
    match x
    case RidInfo(p) => Fits(p, 1)
    case AuthInfo(p, n, i, r) => Fits(p, 1) && Fits(n, 8) && Fits(i, 8) && Fits(r, 8)
    case RoutedBinding(p, i, r) => Fits(p, 1) && Fits(i, 8) && Fits(r, 8)
    case LinkBinding(a, b, d) => |a| == 6 && |b| == 6 && |d| == 32
    case R1Mac(b, h) => |b| == 32 && HelloOk(h)
    case R2Mac(b, h, tag, a) => |b| == 32 && HelloOk(h) && |tag| == 16 && AnswerOk(a)
    case ConfirmInfo(th) => |th| == 32
    case R3Mac(th) => |th| == 32
    case KeyInfo(p, d, n, i, r, ci, cr, th) =>
      && Fits(p, 1) && Fits(d, 1) && Fits(n, 8) && Fits(i, 8) && Fits(r, 8) && Fits(ci, 4) && Fits(cr, 4)
      && |th| == 32
  }

  function LabelOf(x: Input): Label {
    match x
    case RidInfo(_) => Rid
    case AuthInfo(_, _, _, _) => ResumeAuth
    case RoutedBinding(_, _, _) => ResumeBinding
    case LinkBinding(_, _, _) => ResumeBinding
    case R1Mac(_, _) => R1
    case R2Mac(_, _, _, _) => R2
    case ConfirmInfo(_) => ResumeConfirm
    case R3Mac(_) => R3
    case KeyInfo(_, _, _, _, _, _, _, _) => ResumeKey
  }

  const LINK: nat := 1

  function FieldsOf(x: Input): Octets
    requires InputOk(x)
  {
    match x
    case RidInfo(p) => Join([BE(p, 1)])
    case AuthInfo(p, n, i, r) => Join([BE(p, 1), BE(n, 8), BE(i, 8), BE(r, 8)])
    case RoutedBinding(p, i, r) => Join([BE(p, 1), BE(i, 8), BE(r, 8)])
    case LinkBinding(a, b, d) => Join([BE(LINK, 1), a, b, d])
    case R1Mac(b, h) => b + R1Body(h)
    case R2Mac(b, h, tag, a) => b + (R1Body(h) + (tag + R2Body(a)))
    case ConfirmInfo(th) => th
    case R3Mac(th) => th
    case KeyInfo(p, d, n, i, r, ci, cr, th) =>
      Join([BE(p, 1), BE(d, 1), BE(n, 8), BE(i, 8), BE(r, 8), BE(ci, 4), BE(cr, 4), th])
  }

  function InputBytes(x: Input): Octets
    requires InputOk(x)
  {
    Info(LabelBytes(LabelOf(x)), FieldsOf(x))
  }

  /** A ticket that is not sent is no part of an input. */
  function Carried(x: Input): Input {
    match x
    case R1Mac(b, h) => R1Mac(b, Sent(h))
    case R2Mac(b, h, tag, a) => R2Mac(b, Sent(h), tag, a)
    case _ => x
  }

  lemma WholeFields(xs: seq<Octets>, ys: seq<Octets>)
    requires SameWidths(xs, ys) && Join(xs) == Join(ys)
    ensures xs == ys
  {
    assert Join(xs) + [] == Join(xs) && Join(ys) + [] == Join(ys);
    FieldsSplit(xs, ys, [], []);
  }

  lemma SameAuth(x: Input, y: Input)
    requires x.AuthInfo? && y.AuthInfo? && InputOk(x) && InputOk(y) && FieldsOf(x) == FieldsOf(y)
    ensures x == y
  {
    var xs := [BE(x.purpose, 1), BE(x.network, 8), BE(x.nodeI, 8), BE(x.nodeR, 8)];
    var ys := [BE(y.purpose, 1), BE(y.network, 8), BE(y.nodeI, 8), BE(y.nodeR, 8)];
    WholeFields(xs, ys);
    assert xs[0] == ys[0] && xs[1] == ys[1] && xs[2] == ys[2] && xs[3] == ys[3];
    FieldInjective(x.purpose, y.purpose, 1);
    FieldInjective(x.network, y.network, 8);
    FieldInjective(x.nodeI, y.nodeI, 8);
    FieldInjective(x.nodeR, y.nodeR, 8);
  }

  lemma SameRouted(x: Input, y: Input)
    requires x.RoutedBinding? && y.RoutedBinding? && InputOk(x) && InputOk(y) && FieldsOf(x) == FieldsOf(y)
    ensures x == y
  {
    var xs := [BE(x.purpose, 1), BE(x.nodeI, 8), BE(x.nodeR, 8)];
    var ys := [BE(y.purpose, 1), BE(y.nodeI, 8), BE(y.nodeR, 8)];
    WholeFields(xs, ys);
    assert xs[0] == ys[0] && xs[1] == ys[1] && xs[2] == ys[2];
    FieldInjective(x.purpose, y.purpose, 1);
    FieldInjective(x.nodeI, y.nodeI, 8);
    FieldInjective(x.nodeR, y.nodeR, 8);
  }

  lemma SameLink(x: Input, y: Input)
    requires x.LinkBinding? && y.LinkBinding? && InputOk(x) && InputOk(y) && FieldsOf(x) == FieldsOf(y)
    ensures x == y
  {
    var xs := [BE(LINK, 1), x.macI, x.macR, x.carrier];
    var ys := [BE(LINK, 1), y.macI, y.macR, y.carrier];
    WholeFields(xs, ys);
    assert xs[1] == ys[1] && xs[2] == ys[2] && xs[3] == ys[3];
  }

  /** The two bindings share a label; their lengths differ. */
  lemma RoutedIsNotLink(x: Input, y: Input)
    requires x.RoutedBinding? && y.LinkBinding? && InputOk(x) && InputOk(y)
    ensures FieldsOf(x) != FieldsOf(y)
  {
    var xs := [BE(x.purpose, 1), BE(x.nodeI, 8), BE(x.nodeR, 8)];
    var ys := [BE(LINK, 1), y.macI, y.macR, y.carrier];
    JoinWidth(xs);
    assert TotalWidth(xs[2..]) == 8 && TotalWidth(xs[1..]) == 16;
    JoinWidth(ys);
    assert TotalWidth(ys[3..]) == 32 && TotalWidth(ys[2..]) == 38 && TotalWidth(ys[1..]) == 44;
  }

  lemma SameKey(x: Input, y: Input)
    requires x.KeyInfo? && y.KeyInfo? && InputOk(x) && InputOk(y) && FieldsOf(x) == FieldsOf(y)
    ensures x == y
  {
    var xs := [BE(x.purpose, 1), BE(x.direction, 1), BE(x.network, 8), BE(x.nodeI, 8), BE(x.nodeR, 8), BE(x.cidI, 4), BE(x.cidR, 4), x.th];
    var ys := [BE(y.purpose, 1), BE(y.direction, 1), BE(y.network, 8), BE(y.nodeI, 8), BE(y.nodeR, 8), BE(y.cidI, 4), BE(y.cidR, 4), y.th];
    WholeFields(xs, ys);
    assert xs[0] == ys[0] && xs[1] == ys[1] && xs[2] == ys[2] && xs[3] == ys[3];
    assert xs[4] == ys[4] && xs[5] == ys[5] && xs[6] == ys[6] && xs[7] == ys[7];
    FieldInjective(x.purpose, y.purpose, 1);
    FieldInjective(x.direction, y.direction, 1);
    FieldInjective(x.network, y.network, 8);
    FieldInjective(x.nodeI, y.nodeI, 8);
    FieldInjective(x.nodeR, y.nodeR, 8);
    FieldInjective(x.cidI, y.cidI, 4);
    FieldInjective(x.cidR, y.cidR, 4);
  }

  lemma SameR1Mac(x: Input, y: Input)
    requires x.R1Mac? && y.R1Mac? && InputOk(x) && InputOk(y) && FieldsOf(x) == FieldsOf(y)
    ensures Carried(x) == Carried(y)
  {
    SplitAt(x.binding, R1Body(x.hello), y.binding, R1Body(y.hello));
    assert R1Body(x.hello) + [] == R1Body(y.hello) + [];
    R1SelfDelimiting(x.hello, y.hello, [], []);
  }

  lemma SameR2Mac(x: Input, y: Input)
    requires x.R2Mac? && y.R2Mac? && InputOk(x) && InputOk(y) && FieldsOf(x) == FieldsOf(y)
    ensures Carried(x) == Carried(y)
  {
    var s, t := x.tag + R2Body(x.answer), y.tag + R2Body(y.answer);
    SplitAt(x.binding, R1Body(x.hello) + s, y.binding, R1Body(y.hello) + t);
    R1SelfDelimiting(x.hello, y.hello, s, t);
    SplitAt(x.tag, R2Body(x.answer), y.tag, R2Body(y.answer));
    R2BodyInjective(x.answer, y.answer);
  }

  /** Any two inputs, of any kind and any exchange, are the same bytes exactly when they
      are the same input. */
  lemma Unambiguous(x: Input, y: Input)
    requires InputOk(x) && InputOk(y)
    ensures InputBytes(x) == InputBytes(y) <==> Carried(x) == Carried(y)
  {
    var l, m := LabelOf(x), LabelOf(y);
    LabelVisible(l);
    LabelVisible(m);
    InfoInjective(LabelBytes(l), FieldsOf(x), LabelBytes(m), FieldsOf(y));
    if InputBytes(x) == InputBytes(y) {
      LabelsDiffer(l, m);
      SameFields(x, y);
    }
  }

  lemma SameRid(x: Input, y: Input)
    requires x.RidInfo? && y.RidInfo? && InputOk(x) && InputOk(y) && FieldsOf(x) == FieldsOf(y)
    ensures x == y
  {
    WholeFields([BE(x.purpose, 1)], [BE(y.purpose, 1)]);
    assert [BE(x.purpose, 1)][0] == [BE(y.purpose, 1)][0];
    FieldInjective(x.purpose, y.purpose, 1);
  }

  lemma SameFields(x: Input, y: Input)
    requires InputOk(x) && InputOk(y) && LabelOf(x) == LabelOf(y) && FieldsOf(x) == FieldsOf(y)
    ensures Carried(x) == Carried(y)
  {
    match x
    case RidInfo(_) => SameRid(x, y);
    case AuthInfo(_, _, _, _) => SameAuth(x, y);
    case RoutedBinding(_, _, _) =>
      if y.LinkBinding? { RoutedIsNotLink(x, y); }
      SameRouted(x, y);
    case LinkBinding(_, _, _) =>
      if y.RoutedBinding? { RoutedIsNotLink(y, x); }
      SameLink(x, y);
    case R1Mac(_, _) => SameR1Mac(x, y);
    case R2Mac(_, _, _, _) => SameR2Mac(x, y);
    case ConfirmInfo(_) =>
    case R3Mac(_) =>
    case KeyInfo(_, _, _, _, _, _, _, _) => SameKey(x, y);
  }
}
