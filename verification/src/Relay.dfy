/** Relay objects cut on the 110-byte grid, sent as frames, and put together again. */
module Relay {
  import opened Basics
  import opened Bytes
  import opened Assembler

  const WIRE_MAX: nat := 128
  const HEAD: nat := 18
  const GRID: nat := 110
  const OBJECT_MAX: nat := 1024
  const VERSION: Byte := 2

  // ---- One chunk -----------------------------------------------------------------------------

  datatype Chunk = Chunk(sub: nat, id: nat, offset: nat, total: nat, gateway: nat, proxy: nat, data: Octets)

  function Fields(c: Chunk): seq<Octets> {
    [[VERSION], BE(c.sub, 1), BE(c.id, 4), BE(c.offset, 2), BE(c.total, 2), BE(c.gateway, 4), BE(c.proxy, 4)]
  }

  /** chunk2 */
  function Encode(c: Chunk): Octets {
    Join(Fields(c)) + c.data
  }

  predicate InWidth(c: Chunk) {
    Fits(c.sub, 1) && Fits(c.id, 4) && Fits(c.offset, 2) && Fits(c.total, 2) && Fits(c.gateway, 4) && Fits(c.proxy, 4)
  }

  /** The checks a receiver makes; which sub codes are valid is a parameter. */
  predicate Acceptable(valid: nat -> bool, c: Chunk) {
    && valid(c.sub) && c.id != 0 && c.gateway != 0 && c.proxy != 0
    && WIRE_MAX < c.total <= OBJECT_MAX && c.offset % GRID == 0 && c.offset < c.total
    && |c.data| == if c.total - c.offset < GRID then c.total - c.offset else GRID
  }

  function ReadChunk(s: Octets): Chunk
    requires |s| >= HEAD
  {
    Chunk(FromBE(s[1..2]), FromBE(s[2..6]), FromBE(s[6..8]), FromBE(s[8..10]), FromBE(s[10..14]), FromBE(s[14..18]), s[18..])
  }

  /** join_chunk_decode for the relay carrier */
  function Decode(valid: nat -> bool, s: Octets): Option<Chunk> {
    if |s| <= HEAD || |s| > HEAD + GRID || s[0] != VERSION then None
    else if Acceptable(valid, ReadChunk(s)) then Some(ReadChunk(s)) else None
  }

  /** The head written out by position. */
  lemma HeadBytes(c: Chunk)
    ensures |Encode(c)| == HEAD + |c.data| && Encode(c)[0] == VERSION
    ensures Encode(c)[1..2] == BE(c.sub, 1) && Encode(c)[2..6] == BE(c.id, 4) && Encode(c)[6..8] == BE(c.offset, 2)
    ensures Encode(c)[8..10] == BE(c.total, 2) && Encode(c)[10..14] == BE(c.gateway, 4) && Encode(c)[14..18] == BE(c.proxy, 4)
    ensures Encode(c)[18..] == c.data
  {
    var s, f := Encode(c), Fields(c);
    JoinSeven(f);
    assert s == (f[0] + (f[1] + (f[2] + (f[3] + (f[4] + (f[5] + f[6])))))) + c.data;
  }

  lemma JoinTail(f: seq<Octets>, k: nat)
    requires k < |f|
    ensures Join(f[k..]) == f[k] + Join(f[k + 1..])
  {
    assert f[k..][1..] == f[k + 1..];
  }

  lemma JoinSeven(f: seq<Octets>)
    requires |f| == 7
    ensures Join(f) == f[0] + (f[1] + (f[2] + (f[3] + (f[4] + (f[5] + f[6])))))
  {
    JoinTail(f, 6);
    assert Join(f[6..]) == f[6];
    JoinTail(f, 5);
    JoinTail(f, 4);
    JoinTail(f, 3);
    JoinTail(f, 2);
    JoinTail(f, 1);
    JoinTail(f, 0);
    assert f[0..] == f;
  }

  lemma Pieces(s: Octets)
    requires |s| >= HEAD
    ensures s == ([s[0]] + (s[1..2] + (s[2..6] + (s[6..8] + (s[8..10] + (s[10..14] + s[14..18])))))) + s[18..]
  {
  }

  lemma ReadFits(s: Octets)
    requires |s| >= HEAD
    ensures var c := ReadChunk(s);
            BE(c.sub, 1) == s[1..2] && BE(c.id, 4) == s[2..6] && BE(c.offset, 2) == s[6..8] && BE(c.total, 2) == s[8..10]
            && BE(c.gateway, 4) == s[10..14] && BE(c.proxy, 4) == s[14..18]
  {
    FromBEFits(s[1..2]);
    FromBEFits(s[2..6]);
    FromBEFits(s[6..8]);
    FromBEFits(s[8..10]);
    FromBEFits(s[10..14]);
    FromBEFits(s[14..18]);
  }

  /** A chunk that fits its fields is read back. */
  lemma ReadBack(c: Chunk)
    requires InWidth(c)
    ensures |Encode(c)| >= HEAD && ReadChunk(Encode(c)) == c
  {
    HeadBytes(c);
    FieldRecovers(c.sub, 1);
    FieldRecovers(c.id, 4);
    FieldRecovers(c.offset, 2);
    FieldRecovers(c.total, 2);
    FieldRecovers(c.gateway, 4);
    FieldRecovers(c.proxy, 4);
  }

  /** An acceptable chunk is decoded as itself. */
  lemma WireRoundTrip(valid: nat -> bool, c: Chunk)
    requires InWidth(c) && Acceptable(valid, c)
    ensures Decode(valid, Encode(c)) == Some(c) && |Encode(c)| <= WIRE_MAX
  {
    ReadBack(c);
    HeadBytes(c);
  }

  /** What is decoded is the encoding of its chunk, byte for byte. */
  lemma DecodedIsEncoded(valid: nat -> bool, s: Octets)
    requires Decode(valid, s).Some?
    ensures Encode(Decode(valid, s).value) == s
  {
    ReadFits(s);
    JoinSeven(Fields(ReadChunk(s)));
    Pieces(s);
  }

  // ---- One object --------------------------------------------------------------------------------

  /** What every chunk of an exchange carries. */
  datatype Exchange = Exchange(sub: nat, id: nat, gateway: nat, proxy: nat)

  predicate ExchangeOk(valid: nat -> bool, e: Exchange) {
    && Fits(e.sub, 1) && Fits(e.id, 4) && Fits(e.gateway, 4) && Fits(e.proxy, 4)
    && valid(e.sub) && e.id != 0 && e.gateway != 0 && e.proxy != 0
  }

  /** Objects that need more than one frame. */
  predicate Sized(whole: Octets) {
    WIRE_MAX < |whole| <= OBJECT_MAX
  }

  function CountOf(whole: Octets): nat {
    (|whole| + GRID - 1) / GRID
  }

  function EndOf(whole: Octets, k: nat): nat {
    if |whole| - GRID * k < GRID then |whole| else GRID * k + GRID
  }

  /** The data of one chunk. */
  function Part(whole: Octets, k: nat): (r: Octets)
    requires k < CountOf(whole)
  {
    whole[GRID * k..EndOf(whole, k)]
  }

  function ChunkAt(e: Exchange, whole: Octets, k: nat): Chunk
    requires k < CountOf(whole)
  {
    Chunk(e.sub, e.id, GRID * k, |whole|, e.gateway, e.proxy, Part(whole, k))
  }

  /** chunks_of */
  function Frames(e: Exchange, whole: Octets): (r: seq<Octets>)
  {
    seq(CountOf(whole), k requires 0 <= k < CountOf(whole) => Encode(ChunkAt(e, whole, k)))
  }

  /** Every chunk lies on the grid, fits its frame and is accepted as sent. */
  lemma FramesDecode(valid: nat -> bool, e: Exchange, whole: Octets, k: nat)
    requires ExchangeOk(valid, e) && Sized(whole) && k < CountOf(whole)
    ensures |Frames(e, whole)[k]| <= WIRE_MAX && Decode(valid, Frames(e, whole)[k]) == Some(ChunkAt(e, whole, k))
    ensures OnGrid(|whole|, GRID, GRID * k, |ChunkAt(e, whole, k).data|)
  {
    var c := ChunkAt(e, whole, k);
    Widths();
    assert InWidth(c) && Acceptable(valid, c);
    WireRoundTrip(valid, c);
    GridAligned(k);
  }

  lemma {:induction false} GridAligned(k: nat)
    ensures Aligned(GRID * k, GRID)
  {
    if k > 0 {
      GridAligned(k - 1);
      assert GRID * k - GRID == GRID * (k - 1);
    }
  }

  // ---- Receipts -----------------------------------------------------------------------------------

  datatype Receipt = Receipt(received: nat, complete: bool)

  /** The receipt loop over the frames of one object: cumulative, strictly increasing, and only
      the last says complete. */
  method Receipts(e: Exchange, whole: Octets) returns (r: seq<Receipt>)
    requires Sized(whole)
    ensures |r| == CountOf(whole) >= 2
    ensures forall k | 0 <= k < |r| :: r[k].received == EndOf(whole, k) && r[k].complete == (k == |r| - 1)
    ensures forall i, k | 0 <= i < k < |r| :: r[i].received < r[k].received <= |whole|
  {
    r := [];
    var received, frames := 0, Frames(e, whole);
    for k := 0 to |frames|
      invariant |r| == k && received == if k == 0 then 0 else EndOf(whole, k - 1)
      invariant forall i | 0 <= i < k :: r[i] == Receipt(EndOf(whole, i), EndOf(whole, i) == |whole|)
    {
      HeadBytes(ChunkAt(e, whole, k));
      received := received + (|frames[k]| - HEAD);
      r := r + [Receipt(received, received == |whole|)];
    }
  }

  // ---- Any delivery -----------------------------------------------------------------------------------

  /** The frames arrive as the order says: any selection, any number of times. */
  ghost function Deliver(v: View, whole: Octets, order: seq<nat>, now: nat): (r: View)
    requires ViewOk(v) && v.total == |whole| && forall i | 0 <= i < |order| :: order[i] < CountOf(whole)
    ensures ViewOk(r) && r.total == v.total
    decreases |order|
  {
    if order == [] then v
    else
      assert order[0] < CountOf(whole);
      Deliver(Inserted(v, GRID * order[0], Part(whole, order[0]), now), whole, order[1..], now)
  }

  ghost predicate Ready(v: View, whole: Octets, now: nat) {
    Agrees(v, whole) && v.cell == GRID && (v.deadline == 0 || now < v.deadline)
  }

  /** Bytes whose chunk is in the order, or that were there before. */
  ghost predicate Arrived(v: View, order: seq<nat>, at: nat) {
    (at < |v.present| && v.present[at]) || at / GRID in order
  }

  lemma DeliverOne(v: View, whole: Octets, k: nat, now: nat)
    requires Ready(v, whole, now) && Sized(whole) && k < CountOf(whole)
    ensures var part := Part(whole, k);
            var r := Inserted(v, GRID * k, part, now);
            Verdict(v, GRID * k, part, now) == Ok && Ready(r, whole, now)
            && forall at | 0 <= at < |whole| :: r.present[at] <==> v.present[at] || at / GRID == k
  {
    GridAligned(k);
    assert OnGrid(|whole|, GRID, GRID * k, EndOf(whole, k) - GRID * k);
    PartAccepted(v, whole, GRID * k, EndOf(whole, k) - GRID * k, now);
  }

  lemma {:induction false} DeliverAll(v: View, whole: Octets, order: seq<nat>, now: nat)
    requires Ready(v, whole, now) && Sized(whole) && forall i | 0 <= i < |order| :: order[i] < CountOf(whole)
    ensures var r := Deliver(v, whole, order, now);
            Ready(r, whole, now) && forall at | 0 <= at < |whole| :: r.present[at] <==> Arrived(v, order, at)
    decreases |order|
  {
    if order != [] {
      DeliverOne(v, whole, order[0], now);
      var next := Inserted(v, GRID * order[0], Part(whole, order[0]), now);
      DeliverAll(next, whole, order[1..], now);
      forall at | 0 <= at < |whole|
        ensures Arrived(v, order, at) <==> Arrived(next, order[1..], at)
      {
        assert at / GRID in order <==> at / GRID == order[0] || at / GRID in order[1..];
      }
    }
  }

  /** From an empty assembly, any order with any repetition completes exactly when every chunk
      has come, and what is then held is the object. */
  lemma Reassembles(whole: Octets, buffer: Octets, order: seq<nat>, until: nat, now: nat)
    requires Sized(whole) && |buffer| == |whole| && (until == 0 || now < until)
    requires forall i | 0 <= i < |order| :: order[i] < CountOf(whole)
    ensures var r := Deliver(View(|whole|, GRID, until, buffer, Clear(|whole|)), whole, order, now);
            (Complete(r) <==> forall k | 0 <= k < CountOf(whole) :: k in order) && (Complete(r) ==> r.bytes == whole)
  {
    var v := View(|whole|, GRID, until, buffer, Clear(|whole|));
    DeliverAll(v, whole, order, now);
    var r := Deliver(v, whole, order, now);
    CountAll(r.present);
    if Complete(r) {
      CompleteIsObject(r, whole);
      forall k | 0 <= k < CountOf(whole)
        ensures k in order
      {
        assert r.present[GRID * k] && Arrived(v, order, GRID * k) && GRID * k / GRID == k;
      }
    }
    if forall k | 0 <= k < CountOf(whole) :: k in order {
      forall at | 0 <= at < |whole|
        ensures r.present[at]
      {
        assert at / GRID < CountOf(whole);
        assert Arrived(v, order, at);
      }
    }
  }

  /** The receiver: decode each frame, insert its data. */
  method Receive(asm: ObjectAssembler, valid: nat -> bool, e: Exchange, whole: Octets, order: seq<nat>, now: nat)
    requires asm.Valid() && Ready(asm.Now(), whole, now)
    requires ExchangeOk(valid, e) && Sized(whole) && forall i | 0 <= i < |order| :: order[i] < CountOf(whole)
    modifies asm, asm.storage, asm.bitmap
    ensures asm.Valid() && asm.Now() == Deliver(old(asm.Now()), whole, order, now)
  {
    var frames := Frames(e, whole);
    for i := 0 to |order|
      invariant asm.Valid() && asm.storage == old(asm.storage) && asm.bitmap == old(asm.bitmap)
      invariant Ready(asm.Now(), whole, now)
      invariant Deliver(asm.Now(), whole, order[i..], now) == Deliver(old(asm.Now()), whole, order, now)
    {
      var k := order[i];
      FramesDecode(valid, e, whole, k);
      DeliverOne(asm.Now(), whole, k, now);
      assert order[i..][0] == k && order[i..][1..] == order[i + 1..];
      var chunk := Decode(valid, frames[k]);
      var status := asm.Insert(chunk.value.offset, chunk.value.data, now);
    }
  }
}
