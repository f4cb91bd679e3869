/** The submit message to a gateway: the encoder, and the decoder that reads it. */
module GatewaySubmit {
  import opened Basics
  import opened Bytes

  const PREFIX: nat := 32
  const PAYLOAD_MAX: nat := 96

  datatype Submit = Submit(scope: nat, flags: nat, token: Octets, boot: nat, declared: nat, reserved: nat, payload: Octets)

  predicate InWidth(s: Submit) {
    Fits(s.scope, 1) && Fits(s.flags, 1) && |s.token| == 16 && Fits(s.boot, 8) && Fits(s.declared, 2) && Fits(s.reserved, 2)
  }

  /** service_submit */
  function Encode(s: Submit): Octets {
    [1, 3] + BE(s.scope, 1) + BE(s.flags, 1) + s.token + BE(s.boot, 8) + BE(s.declared, 2) + BE(s.reserved, 2) + s.payload
  }

  predicate AnySet(s: Octets) {
    exists i | 0 <= i < |s| :: s[i] != 0
  }

  /** The prefix by position. */
  function Read(data: Octets): Submit
    requires |data| >= PREFIX
  {
    Submit(FromBE(data[2..3]), FromBE(data[3..4]), data[4..20], FromBE(data[20..28]), FromBE(data[28..30]), FromBE(data[30..32]), data[32..])
  }

  /** A submit that a gateway takes. */
  predicate Acceptable(s: Submit) {
    && 1 <= s.scope <= 2 && s.flags == 0 && s.reserved == 0 && AnySet(s.token) && s.boot != 0
    && s.declared <= PAYLOAD_MAX && |s.payload| == s.declared
  }

  /** gateway_decode; None where it raises. */
  function GatewayDecode(data: Octets): Option<Octets> {
    if |data| < PREFIX || data[0] != 1 || data[1] != 3 || !Acceptable(Read(data)) then None
    else Some(data[PREFIX..])
  }

  lemma Positions(s: Submit)
    requires |s.token| == 16
    ensures var e := Encode(s);
            && |e| == PREFIX + |s.payload| && e[0] == 1 && e[1] == 3 && e[2..3] == BE(s.scope, 1) && e[3..4] == BE(s.flags, 1)
            && e[4..20] == s.token && e[20..28] == BE(s.boot, 8) && e[28..30] == BE(s.declared, 2) && e[30..32] == BE(s.reserved, 2)
            && e[32..] == s.payload
  {
  }

  /** Whatever fits the fields is read back; the gateway takes it exactly when it is acceptable,
      and then returns its payload. */
  lemma DecodeInvertsEncode(s: Submit)
    requires InWidth(s)
    ensures GatewayDecode(Encode(s)) == if Acceptable(s) then Some(s.payload) else None
  {
    Positions(s);
    FieldRecovers(s.scope, 1);
    FieldRecovers(s.flags, 1);
    FieldRecovers(s.boot, 8);
    FieldRecovers(s.declared, 2);
    FieldRecovers(s.reserved, 2);
    assert Read(Encode(s)) == s;
  }

  lemma Pieces(data: Octets)
    requires |data| >= PREFIX && data[0] == 1 && data[1] == 3
    ensures data == [1, 3] + data[2..3] + data[3..4] + data[4..20] + data[20..28] + data[28..30] + data[30..32] + data[32..]
  {
  }

  lemma ReadFits(data: Octets)
    requires |data| >= PREFIX
    ensures var s := Read(data);
            InWidth(s) && BE(s.scope, 1) == data[2..3] && BE(s.flags, 1) == data[3..4] && BE(s.boot, 8) == data[20..28]
            && BE(s.declared, 2) == data[28..30] && BE(s.reserved, 2) == data[30..32]
  {
    FromBEFits(data[2..3]);
    FromBEFits(data[3..4]);
    FromBEFits(data[20..28]);
    FromBEFits(data[28..30]);
    FromBEFits(data[30..32]);
  }

  /** Every byte string that is taken is the encoding of what was read from it. */
  lemma AcceptedReencodes(data: Octets)
    requires GatewayDecode(data).Some?
    ensures var s := Read(data);
            InWidth(s) && Acceptable(s) && GatewayDecode(data) == Some(s.payload) && Encode(s) == data
  {
    ReadFits(data);
    Pieces(data);
  }

  /** So two different submits that are taken never share bytes. */
  lemma SubmitsApart(s: Submit, t: Submit)
    requires InWidth(s) && InWidth(t) && Encode(s) == Encode(t)
    ensures s == t
  {
    Positions(s);
    Positions(t);
    FieldInjective(s.scope, t.scope, 1);
    FieldInjective(s.flags, t.flags, 1);
    FieldInjective(s.boot, t.boot, 8);
    FieldInjective(s.declared, t.declared, 2);
    FieldInjective(s.reserved, t.reserved, 2);
  }
}
