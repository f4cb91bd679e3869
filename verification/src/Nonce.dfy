/** AEAD nonces: the IV exclusive-or a 48-bit counter, and their uniqueness over every
    run of the two counter reservations. */
module Nonce {
  import opened Basics
  import opened Bytes
  import Reservation
  import CounterLease

  const COUNTERS: nat := 0x1_0000_0000_0000

  /** The 64-bit field without its two highest bytes; packing 64 bits raises above that. */
  function U48(v: nat): Octets
    requires Fits(v, 8)
  {
    BE(v, 8)[2..]
  }

  lemma {:induction false} DropHigh(v: nat, n: nat, k: nat)
    ensures BE(v, n + k)[k..] == BE(v, n)
    decreases n
  {
    if n > 0 {
      DropHigh(v / 256, n - 1, k);
      assert BE(v, n + k)[k..] == BE(v / 256, n + k - 1)[k..] + [v % 256];
    }
  }

  function ZipXor(a: Octets, b: Octets): (r: Octets)
    ensures |r| == if |a| < |b| then |a| else |b|
    ensures forall i | 0 <= i < |r| :: r[i] == Xor(a[i], b[i])
  {
    if a == [] || b == [] then [] else [Xor(a[0], b[0])] + ZipXor(a[1..], b[1..])
  }

  function AeadNonce(iv: Octets, counter: nat): Octets
    requires Fits(counter, 8)
  {
    ZipXor(iv, [0, 0, 0, 0, 0, 0] + U48(counter))
  }

  lemma ZipXorInjective(iv: Octets, p: Octets, q: Octets)
    requires |p| == |q| <= |iv| && ZipXor(iv, p) == ZipXor(iv, q)
    ensures p == q
  {
    forall i | 0 <= i < |p|
      ensures p[i] == q[i]
    {
      assert ZipXor(iv, p)[i] == ZipXor(iv, q)[i];
      XorInjective(iv[i], p[i], q[i]);
    }
  }

  /** Under one 12-byte IV two counters share a nonce if and only if they agree in
      their 48 low bits. */
  lemma SameNonce(iv: Octets, a: nat, b: nat)
    requires |iv| == 12 && Fits(a, 8) && Fits(b, 8)
    ensures AeadNonce(iv, a) == AeadNonce(iv, b) <==> Low(a, 6) == Low(b, 6)
  {
    DropHigh(a, 6, 2);
    DropHigh(b, 6, 2);
    SameField(a, b, 6);
    var p, q := [0, 0, 0, 0, 0, 0] + U48(a), [0, 0, 0, 0, 0, 0] + U48(b);
    if ZipXor(iv, p) == ZipXor(iv, q) {
      ZipXorInjective(iv, p, q);
      assert p[6..] == U48(a) && q[6..] == U48(b);
    }
  }

  lemma Fits64(a: nat)
    requires a < 0x1_0000_0000_0000_0000
    ensures Fits(a, 8) && (a < COUNTERS ==> Low(a, 6) == a)
  {
    Widths();
    if a < COUNTERS {
      LowOfFitting(a, 6);
    }
  }

  lemma SmallCountersDiffer(iv: Octets, a: nat, b: nat)
    requires |iv| == 12 && a < COUNTERS && b < COUNTERS && a != b
    ensures Fits(a, 8) && Fits(b, 8) && AeadNonce(iv, a) != AeadNonce(iv, b)
  {
    Fits64(a);
    Fits64(b);
    SameNonce(iv, a, b);
  }

  /** No nonce repeats under one slot and key epoch, over any run of the device's
      leases: every counter it hands out fits 48 bits. */
  lemma LeaseNoncesNeverRepeat(iv: Octets, steps: seq<CounterLease.Step>, i: nat, j: nat)
    requires |iv| == 12 && CounterLease.ValidRun(CounterLease.Start(), steps)
    requires var issued := CounterLease.Run(CounterLease.Start(), steps).issued;
             i < j < |issued| && issued[i].slot == issued[j].slot && issued[i].epoch == issued[j].epoch
    ensures var issued := CounterLease.Run(CounterLease.Start(), steps).issued;
            && Fits(issued[i].value, 8) && Fits(issued[j].value, 8)
            && AeadNonce(iv, issued[i].value) != AeadNonce(iv, issued[j].value)
  {
    CounterLease.CountersNeverRepeat(steps);
    var issued := CounterLease.Run(CounterLease.Start(), steps).issued;
    assert issued[i] in issued && issued[j] in issued && issued[i] != issued[j];
    SmallCountersDiffer(iv, issued[i].value, issued[j].value);
  }

  lemma Apart(iv: Octets, a: nat, b: nat)
    requires |iv| == 12 && a < 0x1_0000_0000_0000_0000 && b < 0x1_0000_0000_0000_0000 && a != b
    ensures Fits(a, 8) && Fits(b, 8)
    ensures AeadNonce(iv, a) == AeadNonce(iv, b) <==> Low(a, 6) == Low(b, 6)
    ensures a < COUNTERS && b < COUNTERS ==> AeadNonce(iv, a) != AeadNonce(iv, b)
  {
    Fits64(a);
    Fits64(b);
    SameNonce(iv, a, b);
    if a < COUNTERS && b < COUNTERS {
      SmallCountersDiffer(iv, a, b);
    }
  }

  /** The contract's reservation runs to 64 bits: two of its nonces are equal exactly
      when the values agree in their 48 low bits, so never while they stay below 2^48. */
  lemma ReservationNonces(iv: Octets, end: int, steps: seq<Reservation.Step>, i: nat, j: nat)
    requires |iv| == 12 && Integer(end) && Reservation.ValidRun(Reservation.First(end), steps)
    requires var issued := Reservation.Run(Reservation.First(end), steps).issued;
             i < j < |issued|
    ensures var issued := Reservation.Run(Reservation.First(end), steps).issued;
            && issued[i] >= 0 && issued[j] >= 0 && Fits(issued[i], 8) && Fits(issued[j], 8)
            && (AeadNonce(iv, issued[i]) == AeadNonce(iv, issued[j]) <==> Low(issued[i], 6) == Low(issued[j], 6))
            && (issued[i] < COUNTERS && issued[j] < COUNTERS ==> AeadNonce(iv, issued[i]) != AeadNonce(iv, issued[j]))
  {
    Reservation.IssuedOnce(end, steps);
    var issued := Reservation.Run(Reservation.First(end), steps).issued;
    Apart(iv, issued[i], issued[j]);
  }
}
