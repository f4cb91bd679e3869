/** CRC-32/ISO-HDLC as the firmware computes it, and what it detects. */
module Crc32 {
  // Bit by bit, in messages of any length. The 32-bit register is its bits, least
  // significant first.

  import opened Basics

  type Word = s: seq<bool> | |s| == 32 witness Filled(false)
  type Octet = s: seq<bool> | |s| == 8 witness [false, false, false, false, false, false, false, false]

  function Filled(b: bool): (r: seq<bool>)
  {
    seq(32, i => b)
  }

  function Xor(a: seq<bool>, b: seq<bool>): (r: seq<bool>)
    requires |a| == |b|
    ensures |r| == |a| && forall i | 0 <= i < |a| :: r[i] == (a[i] != b[i])
  {
    seq(|a|, i requires 0 <= i < |a| => a[i] != b[i])
  }

  function And(a: seq<bool>, b: seq<bool>): (r: seq<bool>)
    requires |a| == |b|
  {
    seq(|a|, i requires 0 <= i < |a| => a[i] && b[i])
  }

  function Not(a: seq<bool>): (r: seq<bool>)
    ensures |r| == |a| && forall i | 0 <= i < |a| :: r[i] == !a[i]
  {
    seq(|a|, i requires 0 <= i < |a| => !a[i])
  }

  /** The register shifted right by one. */
  function ShiftRight(w: Word): Word {
    w[1..] + [false]
  }

  /** The word whose low bits are the given ones. */
  function Pack(bits: seq<bool>): (r: Word)
    requires |bits| <= 32
    ensures forall i | 0 <= i < 32 :: r[i] == (i < |bits| && bits[i])
  {
    bits + seq(32 - |bits|, i => false)
  }

  // ---- The loop, for any generator --------------------------------------------------------

  /** One turn of the inner loop, for the generator g. */
  function Step(g: Word, crc: Word): Word {
    if crc[0] then Xor(ShiftRight(crc), g) else ShiftRight(crc)
  }

  function Steps(g: Word, crc: Word, n: nat): Word
    decreases n
  {
    if n == 0 then crc else Steps(g, Step(g, crc), n - 1)
  }

  /** One turn of the outer loop. */
  function ByteStep(g: Word, crc: Word, octet: Octet): Word {
    Steps(g, Xor(crc, Pack(octet)), 8)
  }

  function Feed(g: Word, crc: Word, data: seq<Octet>): Word
    decreases |data|
  {
    if data == [] then crc else Feed(g, ByteStep(g, crc, data[0]), data[1..])
  }

  lemma StepAt(g: Word, crc: Word, i: nat)
    requires i < 32
    ensures Step(g, crc)[i] == ((i < 31 && crc[i + 1]) != (crc[0] && g[i]))
  {
  }

  /** The firmware writes a turn without a branch. */
  lemma BranchFree(g: Word, crc: Word)
    ensures Xor(ShiftRight(crc), And(g, Filled(crc[0]))) == Step(g, crc)
  {
    forall i | 0 <= i < 32
      ensures Xor(ShiftRight(crc), And(g, Filled(crc[0])))[i] == Step(g, crc)[i]
    {
      StepAt(g, crc, i);
    }
  }

  lemma StepLinear(g: Word, a: Word, b: Word)
    ensures Step(g, Xor(a, b)) == Xor(Step(g, a), Step(g, b))
  {
    forall i | 0 <= i < 32
      ensures Step(g, Xor(a, b))[i] == Xor(Step(g, a), Step(g, b))[i]
    {
      StepAt(g, a, i);
      StepAt(g, b, i);
      StepAt(g, Xor(a, b), i);
    }
  }

  /** The bit shifted out comes back as the top bit of the generator. */
  lemma StepInjective(g: Word, a: Word, b: Word)
    requires g[31] && Step(g, a) == Step(g, b)
    ensures a == b
  {
    StepAt(g, a, 31);
    StepAt(g, b, 31);
    forall i | 0 <= i < 32
      ensures a[i] == b[i]
    {
      if i > 0 {
        StepAt(g, a, i - 1);
        StepAt(g, b, i - 1);
      }
    }
  }

  lemma {:induction false} StepsInjective(g: Word, a: Word, b: Word, n: nat)
    requires g[31]
    ensures Steps(g, a, n) == Steps(g, b, n) <==> a == b
    decreases n
  {
    if n > 0 {
      StepsInjective(g, Step(g, a), Step(g, b), n - 1);
      if Step(g, a) == Step(g, b) {
        StepInjective(g, a, b);
      }
    }
  }

  // ---- Bits ------------------------------------------------------------------------------------

  /** Feeding one message bit. */
  function BitStep(g: Word, crc: Word, b: bool): Word {
    Step(g, crc[0 := crc[0] != b])
  }

  function FeedBits(g: Word, crc: Word, bits: seq<bool>): Word
    decreases |bits|
  {
    if bits == [] then crc else FeedBits(g, BitStep(g, crc, bits[0]), bits[1..])
  }

  /** The bits of a message in the order they are fed. */
  function Bits(data: seq<Octet>): (r: seq<bool>)
    ensures |r| == 8 * |data|
  {
    if data == [] then [] else data[0] + Bits(data[1..])
  }

  lemma {:induction false} FeedAppend(g: Word, crc: Word, a: seq<bool>, b: seq<bool>)
    ensures FeedBits(g, crc, a + b) == FeedBits(g, FeedBits(g, crc, a), b)
    decreases |a|
  {
    if a == [] {
      assert a + b == b;
    } else {
      assert (a + b)[1..] == a[1..] + b;
      FeedAppend(g, BitStep(g, crc, a[0]), a[1..], b);
    }
  }

  /** Bits further up a word wait for their turn. */
  lemma Waits(g: Word, crc: Word, bits: seq<bool>)
    requires 0 < |bits| <= 32
    ensures Step(g, Xor(crc, Pack(bits))) == Xor(BitStep(g, crc, bits[0]), Pack(bits[1..]))
  {
    forall i | 0 <= i < 32
      ensures Step(g, Xor(crc, Pack(bits)))[i] == Xor(BitStep(g, crc, bits[0]), Pack(bits[1..]))[i]
    {
      StepAt(g, Xor(crc, Pack(bits)), i);
      StepAt(g, crc[0 := crc[0] != bits[0]], i);
    }
  }

  /** Feeding up to 32 bits one at a time is xoring the word they form and stepping. */
  lemma {:induction false} FeedPacks(g: Word, crc: Word, bits: seq<bool>)
    requires |bits| <= 32
    ensures FeedBits(g, crc, bits) == Steps(g, Xor(crc, Pack(bits)), |bits|)
    decreases |bits|
  {
    if bits == [] {
      assert Xor(crc, Pack(bits)) == crc;
    } else {
      FeedPacks(g, BitStep(g, crc, bits[0]), bits[1..]);
      Waits(g, crc, bits);
    }
  }

  /** The byte loop feeds the bits of the message one after another. */
  lemma {:induction false} BytesAreBits(g: Word, crc: Word, data: seq<Octet>)
    ensures Feed(g, crc, data) == FeedBits(g, crc, Bits(data))
    decreases |data|
  {
    if data != [] {
      FeedPacks(g, crc, data[0]);
      FeedAppend(g, crc, data[0], Bits(data[1..]));
      BytesAreBits(g, ByteStep(g, crc, data[0]), data[1..]);
    }
  }

  /** Different registers never meet again on the same bits. */
  lemma {:induction false} SuffixInjective(g: Word, a: Word, b: Word, bits: seq<bool>)
    requires g[31]
    ensures FeedBits(g, a, bits) == FeedBits(g, b, bits) <==> a == b
    decreases |bits|
  {
    if bits != [] {
      SuffixInjective(g, BitStep(g, a, bits[0]), BitStep(g, b, bits[0]), bits[1..]);
      BitStepInjective(g, a, b, bits[0]);
    }
  }

  lemma BitStepInjective(g: Word, a: Word, b: Word, bit: bool)
    requires g[31]
    ensures BitStep(g, a, bit) == BitStep(g, b, bit) <==> a == b
  {
    var x, y := a[0 := a[0] != bit], b[0 := b[0] != bit];
    if Step(g, x) == Step(g, y) {
      StepInjective(g, x, y);
      assert forall i | 0 <= i < 32 :: a[i] == if i == 0 then x[i] != bit else x[i];
      assert forall i | 0 <= i < 32 :: b[i] == if i == 0 then y[i] != bit else y[i];
      assert a == b;
    }
  }

  /** Feeding different words of up to 32 bits gives different registers. */
  lemma WindowInjective(g: Word, crc: Word, u: seq<bool>, v: seq<bool>)
    requires g[31] && |u| == |v| <= 32
    ensures FeedBits(g, crc, u) == FeedBits(g, crc, v) <==> u == v
  {
    FeedPacks(g, crc, u);
    FeedPacks(g, crc, v);
    StepsInjective(g, Xor(crc, Pack(u)), Xor(crc, Pack(v)), |u|);
  }

  /** Streams that differ only inside one window of 32 bits leave different registers. */
  lemma StreamBurst(g: Word, crc: Word, before: seq<bool>, u: seq<bool>, v: seq<bool>, after: seq<bool>)
    requires g[31] && |u| == |v| <= 32
    ensures FeedBits(g, crc, before + u + after) == FeedBits(g, crc, before + v + after) <==> u == v
  {
    FeedAppend(g, crc, before + u, after);
    FeedAppend(g, crc, before + v, after);
    FeedAppend(g, crc, before, u);
    FeedAppend(g, crc, before, v);
    var w := FeedBits(g, crc, before);
    WindowInjective(g, w, u, v);
    SuffixInjective(g, FeedBits(g, w, u), FeedBits(g, w, v), after);
  }

  // ---- Sums of messages ------------------------------------------------------------------------

  function XorBytes(a: seq<Octet>, b: seq<Octet>): (r: seq<Octet>)
    requires |a| == |b|
  {
    seq(|a|, i requires 0 <= i < |a| => Xor(a[i], b[i]))
  }

  lemma {:induction false} StepsLinear(g: Word, a: Word, b: Word, n: nat)
    ensures Steps(g, Xor(a, b), n) == Xor(Steps(g, a, n), Steps(g, b, n))
    decreases n
  {
    if n > 0 {
      StepLinear(g, a, b);
      StepsLinear(g, Step(g, a), Step(g, b), n - 1);
    }
  }

  lemma XorSwaps(a: Word, b: Word, x: Octet, y: Octet)
    ensures Xor(Xor(a, b), Pack(Xor(x, y))) == Xor(Xor(a, Pack(x)), Xor(b, Pack(y)))
  {
  }

  lemma ByteStepLinear(g: Word, a: Word, b: Word, x: Octet, y: Octet)
    ensures ByteStep(g, Xor(a, b), Xor(x, y)) == Xor(ByteStep(g, a, x), ByteStep(g, b, y))
  {
    XorSwaps(a, b, x, y);
    StepsLinear(g, Xor(a, Pack(x)), Xor(b, Pack(y)), 8);
  }

  lemma {:induction false} FeedLinear(g: Word, a: Word, b: Word, x: seq<Octet>, y: seq<Octet>)
    requires |x| == |y|
    ensures Feed(g, Xor(a, b), XorBytes(x, y)) == Xor(Feed(g, a, x), Feed(g, b, y))
    decreases |x|
  {
    if x != [] {
      ByteStepLinear(g, a, b, x[0], y[0]);
      assert XorBytes(x, y)[1..] == XorBytes(x[1..], y[1..]);
      FeedLinear(g, ByteStep(g, a, x[0]), ByteStep(g, b, y[0]), x[1..], y[1..]);
    }
  }

  // ---- The checksum of the firmware -------------------------------------------------------------

  /** The register that holds a number. */
  function WordOf(n: nat): Word {
    seq(32, i requires 0 <= i < 32 => n / Pow2(i) % 2 == 1)
  }

  lemma TopPower()
    ensures Pow2(31) == 0x8000_0000
  {
    assert Pow2(8) == 0x100;
    assert Pow2(16) == 0x1_0000;
    assert Pow2(24) == 0x100_0000;
  }

  function Polynomial(): (r: Word)
    ensures r[31]
  {
    TopPower();
    WordOf(0xEDB8_8320)
  }

  function Crc(data: seq<Octet>): Word {
    Not(Feed(Polynomial(), Filled(true), data))
  }

  /** crc32_iso_hdlc */
  method CrcIsoHdlc(data: array<Octet>) returns (r: Word)
    ensures r == Crc(data[..])
  {
    var crc := FeedAll(Polynomial(), data);
    r := Not(crc);
  }

  /** Its two loops. */
  method FeedAll(g: Word, data: array<Octet>) returns (crc: Word)
    ensures crc == Feed(g, Filled(true), data[..])
  {
    crc := Filled(true);
    for i := 0 to data.Length
      invariant Feed(g, crc, data[i..]) == Feed(g, Filled(true), data[..])
    {
      var next := FeedByte(g, crc, data[i]);
      assert data[i..][0] == data[i] && data[i..][1..] == data[i + 1..];
      crc := next;
    }
  }

  method FeedByte(g: Word, crc: Word, octet: Octet) returns (r: Word)
    ensures r == ByteStep(g, crc, octet)
  {
    r := Xor(crc, Pack(octet));
    for bit := 0 to 8
      invariant Steps(g, r, 8 - bit) == ByteStep(g, crc, octet)
    {
      BranchFree(g, r);
      r := Xor(ShiftRight(r), And(g, Filled(r[0])));
    }
  }

  /** Two messages of one length that differ only inside 32 consecutive bits, wherever
      those lie, have the same checksum only if they are the same message. */
  lemma BurstDetected(x: seq<Octet>, y: seq<Octet>, before: seq<bool>, u: seq<bool>, v: seq<bool>, after: seq<bool>)
    requires Bits(x) == before + u + after && Bits(y) == before + v + after
    requires |u| == |v| <= 32
    ensures Crc(x) == Crc(y) <==> u == v
  {
    var g, ones := Polynomial(), Filled(true);
    BytesAreBits(g, ones, x);
    BytesAreBits(g, ones, y);
    StreamBurst(g, ones, before, u, v, after);
  }

  /** The checksum of a sum of three messages of one length is the sum of their checksums. */
  lemma ChecksumAffine(x: seq<Octet>, y: seq<Octet>, z: seq<Octet>)
    requires |x| == |y| == |z|
    ensures Crc(XorBytes(XorBytes(x, y), z)) == Xor(Xor(Crc(x), Crc(y)), Crc(z))
  {
    var g, ones := Polynomial(), Filled(true);
    FeedLinear(g, ones, ones, x, y);
    FeedLinear(g, Xor(ones, ones), ones, XorBytes(x, y), z);
    assert Xor(Xor(ones, ones), ones) == ones;
  }

}
