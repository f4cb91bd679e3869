/** A resumed session from both hellos to its keys. Hash and MAC are parameters; only their
    output lengths are used. */
module Resume {
  import opened Bytes
  import opened Transcript

  datatype Crypto = Crypto(mac: (Octets, Octets) -> Octets, sha: Octets -> Octets)

  ghost predicate CryptoOk(c: Crypto) {
    (forall k, m :: |c.mac(k, m)| == 32) && forall m :: |c.sha(m)| == 32
  }

  datatype Carrier = Routed | Link(macI: Octets, macR: Octets, digest: Octets)

  /** The arguments of resume_vector. */
  datatype Exchange = Exchange(
    purpose: nat, network: nat, nodeI: nat, nodeR: nat, rms: Octets, nonceI: Octets, nonceR: Octets,
    cidI: nat, cidR: nat, epochsI: Epochs, epochsR: Epochs, ticket: Octets, carrier: Carrier)

  predicate ExchangeOk(e: Exchange) {
    && Fits(e.purpose, 1) && Fits(e.network, 8) && Fits(e.nodeI, 8) && Fits(e.nodeR, 8)
    && |e.nonceI| == 16 && |e.nonceR| == 16 && Fits(e.cidI, 4) && Fits(e.cidR, 4)
    && EpochsOk(e.epochsI) && EpochsOk(e.epochsR) && |e.ticket| < 256
    && (e.carrier.Link? ==> |e.carrier.macI| == 6 && |e.carrier.macR| == 6 && |e.carrier.digest| == 32)
  }

  function HelloOf(c: Crypto, e: Exchange): (h: Hello)
    requires CryptoOk(c) && ExchangeOk(e)
    ensures HelloOk(h)
  {
    Hello(e.purpose, c.mac(e.rms, InputBytes(RidInfo(e.purpose)))[..8], e.nonceI, e.cidI, e.epochsI, e.ticket)
  }

  function AnswerOf(e: Exchange): Answer {
    Answer(e.nonceR, e.cidR, e.epochsR)
  }

  function Binding(c: Crypto, e: Exchange): (b: Octets)
    requires CryptoOk(c) && ExchangeOk(e)
    ensures |b| == 32
  {
    match e.carrier
    case Routed => c.sha(InputBytes(RoutedBinding(e.purpose, e.nodeI, e.nodeR)))
    case Link(a, b, d) => c.sha(InputBytes(LinkBinding(a, b, d)))
  }

  /** hkdf_expand of 32 bytes is its first block. */
  function AuthKey(c: Crypto, e: Exchange): Octets
    requires CryptoOk(c) && ExchangeOk(e)
  {
    c.mac(c.mac(LabelBytes(ResumeAuth), e.rms), InputBytes(AuthInfo(e.purpose, e.network, e.nodeI, e.nodeR)) + [1])
  }

  function R1Tag(c: Crypto, e: Exchange): (t: Octets)
    requires CryptoOk(c) && ExchangeOk(e)
    ensures |t| == 16
  {
    c.mac(AuthKey(c, e), InputBytes(R1Mac(Binding(c, e), HelloOf(c, e))))[..16]
  }

  function R1Message(c: Crypto, e: Exchange): Octets
    requires CryptoOk(c) && ExchangeOk(e)
  {
    R1Body(HelloOf(c, e)) + R1Tag(c, e)
  }

  function R2Tag(c: Crypto, e: Exchange): (t: Octets)
    requires CryptoOk(c) && ExchangeOk(e)
    ensures |t| == 16
  {
    c.mac(AuthKey(c, e), InputBytes(R2Mac(Binding(c, e), HelloOf(c, e), R1Tag(c, e), AnswerOf(e))))[..16]
  }

  function R2Message(c: Crypto, e: Exchange): Octets
    requires CryptoOk(c) && ExchangeOk(e)
  {
    R2Body(AnswerOf(e)) + R2Tag(c, e)
  }

  /** What the transcript hash is taken of. */
  function Messages(c: Crypto, e: Exchange): Octets
    requires CryptoOk(c) && ExchangeOk(e)
  {
    R1Message(c, e) + R2Message(c, e)
  }

  function KeyInput(c: Crypto, e: Exchange, direction: nat): (x: Input)
    requires CryptoOk(c) && ExchangeOk(e) && Fits(direction, 1)
  {
    KeyInfo(e.purpose, direction, e.network, e.nodeI, e.nodeR, e.cidI, e.cidR, c.sha(Messages(c, e)))
  }

  /** The fixed-length R2 and the self-delimiting R1 are found in their concatenation. */
  lemma MessagesSplit(c: Crypto, e: Exchange, f: Exchange)
    requires CryptoOk(c) && ExchangeOk(e) && ExchangeOk(f)
    ensures Messages(c, e) == Messages(c, f) <==>
            && Sent(HelloOf(c, e)) == Sent(HelloOf(c, f)) && R1Tag(c, e) == R1Tag(c, f)
            && AnswerOf(e) == AnswerOf(f) && R2Tag(c, e) == R2Tag(c, f)
  {
    var x, y := HelloOf(c, e), HelloOf(c, f);
    var s, t := R1Tag(c, e) + R2Message(c, e), R1Tag(c, f) + R2Message(c, f);
    assert Messages(c, e) == R1Body(x) + s && Messages(c, f) == R1Body(y) + t;
    if Messages(c, e) == Messages(c, f) {
      R1SelfDelimiting(x, y, s, t);
      SplitAt(R1Tag(c, e), R2Message(c, e), R1Tag(c, f), R2Message(c, f));
      MessageSizes(x, AnswerOf(e));
      MessageSizes(y, AnswerOf(f));
      SplitAt(R2Body(AnswerOf(e)), R2Tag(c, e), R2Body(AnswerOf(f)), R2Tag(c, f));
      R2BodyInjective(AnswerOf(e), AnswerOf(f));
    }
  }

  /** Unless the hash collides on the two transcripts, a key derivation input is shared only
      within one direction of one exchange: every field that was sent agrees. */
  lemma KeysBelongToOneExchange(c: Crypto, e: Exchange, d: nat, f: Exchange, d': nat)
    requires CryptoOk(c) && ExchangeOk(e) && ExchangeOk(f) && Fits(d, 1) && Fits(d', 1)
    requires c.sha(Messages(c, e)) == c.sha(Messages(c, f)) ==> Messages(c, e) == Messages(c, f)
    ensures InputBytes(KeyInput(c, e, d)) == InputBytes(KeyInput(c, f, d')) <==>
            && d == d' && e.network == f.network && e.nodeI == f.nodeI && e.nodeR == f.nodeR
            && Sent(HelloOf(c, e)) == Sent(HelloOf(c, f)) && R1Tag(c, e) == R1Tag(c, f)
            && AnswerOf(e) == AnswerOf(f) && R2Tag(c, e) == R2Tag(c, f)
  {
    Unambiguous(KeyInput(c, e, d), KeyInput(c, f, d'));
    MessagesSplit(c, e, f);
  }
}
