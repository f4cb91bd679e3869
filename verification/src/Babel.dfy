/** The Babel decision functions of the executable contract. */
module Babel {
  // The wrapping sequence order, feasibility, the feasibility distance and the
  // saturating metric. A sequence number is 16 bits wide on the wire. Here it is
  // carried as the unbounded number the origin counted to, and every decision looks
  // only at its residue, so the 16-bit state of a device is the residue of the state
  // modelled here.

  const SEQ_MOD: nat := 65536
  const SEQ_HALF: nat := 32768
  const INFINITE: nat := 65535

  datatype Result<+T> = Ok(value: T) | Raises(error: string)

  /** The value the 16-bit field holds. */
  function Wire(sequence: nat): (r: nat)
    ensures r < SEQ_MOD
  {
    sequence % SEQ_MOD
  }

  /** Forward distance on the 16-bit circle: the difference of the fields, masked to 16 bits. */
  function Delta(new_: nat, old_: nat): (r: nat)
    ensures r < SEQ_MOD
  {
    var d := Wire(new_) - Wire(old_);
    if d < 0 then d + SEQ_MOD else d
  }

  predicate Ambiguous(new_: nat, old_: nat) {
    Delta(new_, old_) == SEQ_HALF
  }

  predicate Newer(new_: nat, old_: nat) {
    0 < Delta(new_, old_) < SEQ_HALF
  }

  predicate SameSequence(a: nat, b: nat) {
    Wire(a) == Wire(b)
  }

  /** seq_newer of the contract: refuses fields that do not fit and the exact half turn. */
  function SeqNewer(new_: int, old_: int): (r: Result<bool>)
  {
    if !(0 <= new_ <= 65535 && 0 <= old_ <= 65535) then Raises("BAD_SEQUENCE")
    else if Ambiguous(new_, old_) then Raises("SEQUENCE_UNCERTAIN")
    else Ok(Newer(new_, old_))
  }

  /** A feasibility distance, or the absence of one. */
  datatype Distance = Unset | Distance(sequence: nat, metric: nat)

  /** feasible of the contract. */
  function ContractFeasible(sequence: int, metric: int, fd: Distance): (r: Result<bool>)
  {
    if !(0 <= metric <= 65535) then Raises("BAD_METRIC")
    else if metric == INFINITE then Ok(true)
    else if fd.Unset? then Ok(true)
    else
      var newer := SeqNewer(sequence, fd.sequence);
      if newer.Raises? then newer
      else Ok(newer.value || (sequence == fd.sequence && metric < fd.metric))
  }

  function Min(a: int, b: int): int {
    if a < b then a else b
  }

  /** advertise_fd of the contract. */
  function ContractAdvertise(sequence: nat, metric: nat, fd: Distance): (r: Result<Distance>)
  {
    if metric == INFINITE then Ok(fd)
    else if fd.Unset? then Ok(Distance(sequence, metric))
    else
      var newer := SeqNewer(sequence, fd.sequence);
      if newer.Raises? then Raises(newer.error)
      else if newer.value then Ok(Distance(sequence, metric))
      else if sequence == fd.sequence then Ok(Distance(sequence, Min(metric, fd.metric)))
      else Ok(fd)
  }

  /** metric_add of the contract. */
  function ContractMetricAdd(advertised: int, cost: int): (r: Result<int>)
  {
    if cost <= 0 then Raises("NONPOSITIVE_LINK_COST")
    else Ok(Min(INFINITE, advertised + cost))
  }

  // ---- The wrapping order ---------------------------------------------------

  /** The numbers a comparison meets are less than half the circle apart. */
  predicate Near(a: int, b: int) {
    b - SEQ_HALF < a < b + SEQ_HALF
  }

  lemma DeltaIsDifference(a: nat, b: nat)
    ensures Delta(a, b) == (a - b) % SEQ_MOD
  {
    var x, y := a / SEQ_MOD, b / SEQ_MOD;
    assert a == SEQ_MOD * x + Wire(a) && b == SEQ_MOD * y + Wire(b);
    assert a - b == (Wire(a) - Wire(b)) + SEQ_MOD * (x - y);
  }

  /** On numbers less than 32768 apart the 16-bit comparison is the true order,
      never ambiguous, and equality of the fields is equality of the numbers. */
  lemma WindowOrder(a: nat, b: nat)
    requires Near(a, b)
    ensures Newer(a, b) <==> a > b
    ensures SameSequence(a, b) <==> a == b
    ensures !Ambiguous(a, b)
  {
    DeltaIsDifference(a, b);
    if a >= b {
      assert Delta(a, b) == a - b;
    } else {
      assert Delta(a, b) == a - b + SEQ_MOD;
    }
    assert SameSequence(a, b) ==> Delta(a, b) == 0;
  }

  /** The window is exactly what the comparison needs: of two numbers less than
      one full turn apart, the later one compares newer if and only if they are
      less than half a turn apart, and the contract refuses exactly the half turn. */
  lemma WindowIsExact(a: nat, b: nat)
    requires b < a < b + SEQ_MOD
    ensures Newer(a, b) <==> a - b < SEQ_HALF
    ensures Newer(b, a) <==> a - b > SEQ_HALF
    ensures SeqNewer(Wire(a), Wire(b)).Raises? <==> a - b == SEQ_HALF
  {
    DeltaIsDifference(a, b);
    DeltaIsDifference(b, a);
    assert Delta(a, b) == a - b && Delta(b, a) == b - a + SEQ_MOD;
  }

  /** Within one window the comparison is a strict total order. */
  lemma WindowTotalOrder(base: nat, a: nat, b: nat, c: nat)
    requires base <= a < base + SEQ_HALF && base <= b < base + SEQ_HALF && base <= c < base + SEQ_HALF
    ensures !Newer(a, a)
    ensures Newer(a, b) && Newer(b, c) ==> Newer(a, c)
    ensures Newer(a, b) || Newer(b, a) || a == b
    ensures !(Newer(a, b) && Newer(b, a))
  {
    WindowOrder(a, a);
    WindowOrder(a, b);
    WindowOrder(b, a);
    WindowOrder(b, c);
    WindowOrder(a, c);
  }

  /** Outside a window the order is cyclic: three sequences, each newer than the next. */
  lemma NoOrderWithoutWindow()
    ensures Newer(20000, 0) && Newer(40000, 20000) && Newer(0, 40000)
  {
  }

  // ---- The feasibility distance ------------------------------------------------

  /** fd is at least as good as the distance (sequence, metric) in the true order. */
  predicate AtLeastAsGood(fd: Distance, sequence: nat, metric: nat) {
    fd.Distance? && (fd.sequence > sequence || (fd.sequence == sequence && fd.metric <= metric))
  }

  /** (sequence, metric) is strictly better than fd in the true order. */
  predicate StrictlyBetter(sequence: nat, metric: nat, fd: Distance) {
    fd.Unset? || sequence > fd.sequence || (sequence == fd.sequence && metric < fd.metric)
  }

  /** fd' is no worse than fd in the true order. */
  predicate NoWorse(fd': Distance, fd: Distance) {
    fd.Unset? || AtLeastAsGood(fd', fd.sequence, fd.metric)
  }

  /** The 16-bit image of a distance. */
  function OnWire(fd: Distance): Distance {
    if fd.Unset? then Unset else Distance(Wire(fd.sequence), fd.metric)
  }

  /** The reference update: the better of two distances in the true order. */
  function Tighten(sequence: nat, metric: nat, fd: Distance): Distance {
    if metric != INFINITE && StrictlyBetter(sequence, metric, fd) then Distance(sequence, metric) else fd
  }

  /** On the 16-bit fields the contract decides exactly as the true order does:
      feasible is strictly better, and the update keeps the better distance. */
  lemma ContractIsTrueOrder(sequence: nat, metric: nat, fd: Distance)
    requires metric <= INFINITE
    requires fd.Distance? ==> Near(sequence, fd.sequence)
    ensures ContractFeasible(Wire(sequence), metric, OnWire(fd))
            == Ok(metric == INFINITE || StrictlyBetter(sequence, metric, fd))
    ensures ContractAdvertise(Wire(sequence), metric, OnWire(fd)) == Ok(OnWire(Tighten(sequence, metric, fd)))
  {
    if fd.Distance? {
      WindowOrder(sequence, fd.sequence);
      assert Wire(Wire(sequence)) == Wire(sequence) && Wire(Wire(fd.sequence)) == Wire(fd.sequence);
    }
  }

  /** A run of advertisements folded into the distance by the contract. */
  function AdvertiseAll(ads: seq<(nat, nat)>, fd: Distance): Result<Distance>
  {
    if ads == [] then Ok(fd)
    else
      var r := ContractAdvertise(Wire(ads[0].0), ads[0].1, fd);
      if r.Raises? then r else AdvertiseAll(ads[1..], r.value)
  }

  /** Every advertisement and the starting distance lie in one window, which may
      straddle any number of wraps of the 16-bit field. */
  predicate InWindow(base: nat, ads: seq<(nat, nat)>, fd: Distance) {
    && (forall a | a in ads :: base <= a.0 < base + SEQ_HALF && a.1 <= INFINITE)
    && (fd.Distance? ==> base <= fd.sequence < base + SEQ_HALF)
  }

  /** Over a whole run inside one window the contract never raises, the distance
      it holds is the image of a true distance that is no worse than the first
      one and at least as good as every finite advertisement that left, and that
      true distance is one of those offered. */
  lemma {:induction false} AdvertiseRunTightens(base: nat, ads: seq<(nat, nat)>, fd: Distance)
    returns (best: Distance)
    requires InWindow(base, ads, fd)
    ensures AdvertiseAll(ads, OnWire(fd)) == Ok(OnWire(best))
    ensures NoWorse(best, fd)
    ensures forall a | a in ads && a.1 != INFINITE :: AtLeastAsGood(best, a.0, a.1)
    ensures best == fd || (best.sequence, best.metric) in ads
  {
    best := fd;
    if ads != [] {
      var (s, m) := ads[0];
      ContractIsTrueOrder(s, m, fd);
      best := AdvertiseRunTightens(base, ads[1..], Tighten(s, m, fd));
      forall a | a in ads && a.1 != INFINITE
        ensures AtLeastAsGood(best, a.0, a.1)
      {
        if a != ads[0] {
          assert a in ads[1..];
        }
      }
    }
  }
}
