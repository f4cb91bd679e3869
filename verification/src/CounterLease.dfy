/** The device's transmit counters. */
module CounterLease {
  // Blocks are leased from a flash slot that several leases, contexts and key epochs
  // may share; checkpoints of evicted leases are resumed at most once.

  import opened Basics

  const MAX_COUNTER: nat := 0xFFFF_FFFF_FFFF

  // ---- Data --------------------------------------------------------------------------

  /** What a lease is for. */
  datatype Identity = Identity(slot: nat, context: nat, epoch: nat, direction: nat)

  datatype Record = Record(context: nat, epoch: nat, direction: nat, highWater: nat, generation: nat)

  datatype Stored = Absent | Intact(record: Record) | Corrupt

  type Store = map<nat, Stored>

  function At(store: Store, slot: nat): Stored {
    if slot in store then store[slot] else Absent
  }

  /** [cursor, end) is reserved durably and still to be issued. */
  datatype Lease = Lease(id: Identity, block: nat, cursor: nat, end: nat, generation: nat)

  /** The remainder of a lease that was evicted from the cache. */
  datatype Checkpoint = Checkpoint(id: Identity, cursor: nat, end: nat, generation: nat)

  datatype Status = Success | InvalidArgument | InvalidState | StoreError | IntegrityError | Conflict | Exhausted

  datatype Fault = NoFault | LoadFails | CommitLost | CommitUnacked

  // ---- Operations --------------------------------------------------------------------

  /** initialize, on a lease in any state. A failure leaves the lease as it is. */
  function Initialized(store: Store, lease: Lease, fault: Fault): (Lease, Status) {
    if lease.block == 0 then (lease, InvalidArgument)
    else if fault.LoadFails? then (lease, StoreError)
    else match At(store, lease.id.slot)
      case Absent => (lease, Success)
      case Corrupt => (lease, IntegrityError)
      case Intact(r) =>
        if r.context != lease.id.context || r.direction != lease.id.direction || r.epoch > lease.id.epoch then
          (lease, Conflict)
        else if r.epoch == lease.id.epoch then
          (lease.(cursor := r.highWater, end := r.highWater, generation := r.generation), Success)
        else (lease.(generation := r.generation), Success)
  }

  /** resume: continues inside the checkpoint's block while that block is still the
      newest reservation, and is initialize otherwise. */
  function Resumed(store: Store, lease: Lease, cp: Checkpoint, fault: Fault): (Lease, Status) {
    var (l, status) := Initialized(store, lease, fault);
    if status == Success && cp.id == l.id && cp.cursor < cp.end && l.end != 0 && l.end == cp.end
       && l.generation == cp.generation then (l.(cursor := cp.cursor), Success)
    else (l, status)
  }

  /** A lease as it is constructed. */
  function New(id: Identity, block: nat): Lease {
    Lease(id, block, 0, 0, 0)
  }

  /** A lease resumed from the parked checkpoint of its identity, if there is one. */
  function Restored(store: Store, lease: Lease, parked: seq<Checkpoint>, fault: Fault): (Lease, Status) {
    var cps := Parked(parked, lease.id);
    if cps == [] then Initialized(store, lease, fault) else Resumed(store, lease, cps[0], fault)
  }

  /** The lease after it caught up with the record another lease of its epoch wrote. */
  function CatchUp(store: Store, lease: Lease): (Lease, Status) {
    match At(store, lease.id.slot)
    case Absent => (lease, Success)
    case Corrupt => (lease, IntegrityError)
    case Intact(r) =>
      if r.epoch > lease.id.epoch then (lease, Conflict)
      else if r.epoch == lease.id.epoch && r.highWater > lease.end then
        (lease.(cursor := r.highWater, end := r.highWater, generation := r.generation), Success)
      else if r.epoch == lease.id.epoch && r.highWater < lease.end then (lease, IntegrityError)
      else (lease, Success)
  }

  /** reserve_block. A lease that caught up keeps the newer mark even if the commit fails. */
  function Reserve(store: Store, lease: Lease, fault: Fault): (Store, Lease, Status) {
    if fault.LoadFails? then (store, lease, StoreError)
    else
      var (l, status) := CatchUp(store, lease);
      if status != Success then (store, l, status)
      else if l.end > MAX_COUNTER + 1 - l.block then (store, l, Exhausted)
      else if fault.CommitLost? then (store, l, StoreError)
      else
        var next := Record(l.id.context, l.id.epoch, l.id.direction, l.end + l.block, (l.generation + 1) % GENERATIONS);
        var store' := store[l.id.slot := Intact(next)];
        if fault.CommitUnacked? then (store', l, StoreError)
        else (store', l.(cursor := l.end, end := next.highWater, generation := next.generation), Success)
  }

  datatype Issue = Issue(store: Store, lease: Lease, status: Status, value: nat)

  /** next */
  function Next(store: Store, lease: Lease, fault: Fault): Issue {
    if lease.cursor == lease.end then
      var (store', l, status) := Reserve(store, lease, fault);
      if status != Success then Issue(store', l, status, 0)
      else Issue(store', l.(cursor := l.cursor + 1), Success, l.cursor)
    else Issue(store, lease.(cursor := lease.cursor + 1), Success, lease.cursor)
  }

  function Cut(lease: Lease): Checkpoint {
    Checkpoint(lease.id, lease.cursor, lease.end, lease.generation)
  }

  /** The checkpoints without the one of an identity. */
  function Without(parked: seq<Checkpoint>, id: Identity): (r: seq<Checkpoint>)
    ensures forall cp | cp in r :: cp in parked && cp.id != id
    ensures forall cp | cp in parked && cp.id != id :: cp in r
    ensures |r| <= |parked|
  {
    if parked == [] then []
    else if parked[0].id == id then Without(parked[1..], id)
    else [parked[0]] + Without(parked[1..], id)
  }

  /** CounterCheckpointCache::park, oldest first. */
  function Park(parked: seq<Checkpoint>, cp: Checkpoint, capacity: nat): seq<Checkpoint> {
    if cp.cursor >= cp.end || capacity == 0 then parked
    else
      var rest := Without(parked, cp.id);
      if |rest| >= capacity && rest != [] then rest[1..] + [cp] else rest + [cp]
  }

  function Parked(parked: seq<Checkpoint>, id: Identity): (r: seq<Checkpoint>)
    ensures |r| <= 1
    ensures forall cp | cp in r :: cp in parked && cp.id == id
  {
    if parked == [] then [] else if parked[0].id == id then [parked[0]] else Parked(parked[1..], id)
  }

  // ---- Runs ----------------------------------------------------------------------------

  datatype Issued = Issued(slot: nat, epoch: nat, value: nat)

  datatype World = World(store: Store, leases: map<nat, Lease>, parked: seq<Checkpoint>, issued: seq<Issued>)

  function Start(): World {
    World(map[], map[], [], [])
  }

  datatype Step =
    | Create(key: nat, id: Identity, block: nat, fault: Fault)   // take the parked checkpoint, if any, and resume
    | Renew(key: nat, fault: Fault)                              // the same on a lease already in use
    | Take(key: nat, fault: Fault)
    | Evict(key: nat, capacity: nat)                             // park its checkpoint and drop the lease
    | Drop(key: nat)
    | Reboot                                                     // RAM is gone
    | Damage(slot: nat)
    | Erase(slot: nat)                                           // the record is gone

  /** No counter was issued in this slot. */
  predicate Unused(w: World, slot: nat) {
    forall i | i in w.issued :: i.slot != slot
  }

  predicate Enabled(w: World, step: Step) {
    match step
    case Create(key, _, block, _) => key !in w.leases && block < 0x1_0000_0000
    case Renew(key, _) => key in w.leases
    case Take(key, _) => key in w.leases
    case Evict(key, _) => key in w.leases
    case Drop(key) => key in w.leases
    case Reboot => true
    case Damage(_) => true
    case Erase(slot) => Unused(w, slot)
  }

  function Apply(w: World, step: Step): World
    requires Enabled(w, step)
  {
    match step
    case Create(key, id, block, fault) =>
      var (lease, status) := Restored(w.store, New(id, block), w.parked, fault);
      var rest := Without(w.parked, id);
      if status == Success then w.(leases := w.leases[key := lease], parked := rest) else w.(parked := rest)
    case Renew(key, fault) =>
      var l := w.leases[key];
      w.(leases := w.leases[key := Restored(w.store, l, w.parked, fault).0], parked := Without(w.parked, l.id))
    case Take(key, fault) =>
      var r := Next(w.store, w.leases[key], fault);
      var w1 := w.(store := r.store, leases := w.leases[key := r.lease]);
      if r.status == Success then
        w1.(issued := w.issued + [Issued(r.lease.id.slot, r.lease.id.epoch, r.value)])
      else w1
    case Evict(key, capacity) =>
      w.(leases := w.leases - {key}, parked := Park(w.parked, Cut(w.leases[key]), capacity))
    case Drop(key) => w.(leases := w.leases - {key})
    case Reboot => w.(leases := map[], parked := [])
    case Damage(slot) => w.(store := w.store[slot := Corrupt])
    case Erase(slot) => w.(store := w.store - {slot})
  }

  ghost predicate ValidRun(w: World, steps: seq<Step>)
    decreases |steps|
  {
    steps != [] ==> Enabled(w, steps[0]) && ValidRun(Apply(w, steps[0]), steps[1..])
  }

  ghost function Run(w: World, steps: seq<Step>): World
    requires ValidRun(w, steps)
    decreases |steps|
  {
    if steps == [] then w else Run(Apply(w, steps[0]), steps[1..])
  }

  ghost predicate Distinct(s: seq<Issued>) {
    forall i, j | 0 <= i < j < |s| :: s[i] != s[j]
  }

  // ---- The invariant ---------------------------------------------------------------------

  /** A reserved remainder, wherever it is kept. */
  datatype Rest = Rest(slot: nat, epoch: nat, cursor: nat, end: nat)

  function LeaseRest(l: Lease): Rest {
    Rest(l.id.slot, l.id.epoch, l.cursor, l.end)
  }

  function CheckpointRest(cp: Checkpoint): Rest {
    Rest(cp.id.slot, cp.id.epoch, cp.cursor, cp.end)
  }

  predicate Apart(a: Rest, b: Rest) {
    a.slot != b.slot || a.epoch != b.epoch || a.end <= b.cursor || b.end <= a.cursor
    || a.cursor == a.end || b.cursor == b.end
  }

  predicate Clear(r: Rest, i: Issued) {
    !(r.slot == i.slot && r.epoch == i.epoch && r.cursor <= i.value < r.end)
  }

  /** A remainder lies below the durable mark of its epoch. */
  predicate Backed(store: Store, r: Rest) {
    && r.cursor <= r.end <= MAX_COUNTER + 1
    && (r.cursor < r.end ==>
          match At(store, r.slot)
          case Absent => false
          case Corrupt => true
          case Intact(rec) => r.epoch < rec.epoch || (r.epoch == rec.epoch && r.end <= rec.highWater))
  }

  /** The first counter of a block is issued when it is reserved. */
  predicate Started(w: World, r: Rest) {
    r.cursor < r.end ==> !Unused(w, r.slot)
  }

  predicate Recorded(store: Store, i: Issued) {
    && i.value <= MAX_COUNTER
    && match At(store, i.slot)
       case Absent => false
       case Corrupt => true
       case Intact(rec) => i.epoch < rec.epoch || (i.epoch == rec.epoch && i.value < rec.highWater)
  }

  predicate MarkBounded(store: Store, slot: nat) {
    At(store, slot).Intact? ==> At(store, slot).record.highWater <= MAX_COUNTER + 1
  }

  ghost predicate RestInv(w: World, r: Rest) {
    Backed(w.store, r) && Started(w, r) && forall i | i in w.issued :: Clear(r, i)
  }

  ghost predicate LeaseInv(w: World, k: nat)
    requires k in w.leases
  {
    RestInv(w, LeaseRest(w.leases[k])) && 0 < w.leases[k].block < 0x1_0000_0000
  }

  ghost predicate Inv(w: World) {
    && (forall k | k in w.leases :: LeaseInv(w, k))
    && (forall cp | cp in w.parked :: RestInv(w, CheckpointRest(cp)))
    && (forall a, b | a in w.leases && b in w.leases && a != b :: Apart(LeaseRest(w.leases[a]), LeaseRest(w.leases[b])))
    && (forall a, cp | a in w.leases && cp in w.parked :: Apart(LeaseRest(w.leases[a]), CheckpointRest(cp)))
    && (forall cp, cq | cp in w.parked && cq in w.parked && cp.id != cq.id :: Apart(CheckpointRest(cp), CheckpointRest(cq)))
    && (forall i | i in w.issued :: Recorded(w.store, i))
    && (forall slot :: MarkBounded(w.store, slot))
    && Distinct(w.issued)
  }

  // ---- Preservation --------------------------------------------------------------------------

  /** A remainder moves from the cache to a lease, or an empty lease is created. */
  lemma NewLeaseKeepsInv(w: World, key: nat, l: Lease)
    requires Inv(w) && key !in w.leases
    requires RestInv(w, LeaseRest(l)) && 0 < l.block < 0x1_0000_0000
    requires forall k | k in w.leases :: Apart(LeaseRest(l), LeaseRest(w.leases[k]))
    requires forall cp | cp in w.parked :: Apart(LeaseRest(l), CheckpointRest(cp))
    ensures Inv(w.(leases := w.leases[key := l]))
  {
    var w' := w.(leases := w.leases[key := l]);
    forall k | k in w'.leases
      ensures LeaseInv(w', k)
    {
      assert k != key ==> LeaseInv(w, k);
    }
    forall cp | cp in w'.parked
      ensures RestInv(w', CheckpointRest(cp))
    {
      assert RestInv(w, CheckpointRest(cp));
    }
  }

  /** A lease leaves and its remainder is parked. */
  lemma ParkKeepsInv(w: World, key: nat, capacity: nat)
    requires Inv(w) && key in w.leases
    ensures Inv(w.(leases := w.leases - {key}, parked := Park(w.parked, Cut(w.leases[key]), capacity)))
  {
    var cp := Cut(w.leases[key]);
    var rest := Without(w.parked, cp.id);
    assert LeaseInv(w, key);
    var w1 := w.(leases := w.leases - {key}, parked := rest);
    var w2 := w1.(parked := Park(w.parked, cp, capacity));
    assert CheckpointRest(cp) == LeaseRest(w.leases[key]);
    forall c | c in w2.parked
      ensures RestInv(w2, CheckpointRest(c))
      ensures c == cp || c in w.parked
    {
      assert c == cp || RestInv(w, CheckpointRest(c));
    }
    forall k | k in w2.leases
      ensures LeaseInv(w2, k)
    {
      assert LeaseInv(w, k);
    }
  }

  /** A restored lease has nothing left, what it had before, or what the cache kept. */
  lemma RestoredRest(w: World, l: Lease, fault: Fault)
    requires Inv(w) && RestInv(w, LeaseRest(l))
    ensures var l' := Restored(w.store, l, w.parked, fault).0;
            && l'.id == l.id && l'.block == l.block
            && RestInv(w, LeaseRest(l'))
            && (|| l'.cursor == l'.end
                || LeaseRest(l') == LeaseRest(l)
                || exists cp :: cp in w.parked && cp.id == l.id && LeaseRest(l') == CheckpointRest(cp))
  {
    var cps := Parked(w.parked, l.id);
    assert MarkBounded(w.store, l.id.slot);
    if cps != [] {
      assert cps[0] in w.parked && RestInv(w, CheckpointRest(cps[0]));
    }
  }

  lemma CreateKeepsInv(w: World, step: Step)
    requires Inv(w) && step.Create? && Enabled(w, step)
    ensures Inv(Apply(w, step))
  {
    var Create(key, id, block, fault) := step;
    var (lease, status) := Restored(w.store, New(id, block), w.parked, fault);
    RestoredRest(w, New(id, block), fault);
    if status == Success {
      NewLeaseKeepsInv(w.(parked := Without(w.parked, id)), key, lease);
    }
  }

  lemma RenewKeepsInv(w: World, key: nat, fault: Fault)
    requires Inv(w) && key in w.leases
    ensures Inv(Apply(w, Renew(key, fault)))
  {
    var l := w.leases[key];
    assert LeaseInv(w, key);
    RestoredRest(w, l, fault);
    var w1 := w.(leases := w.leases - {key}, parked := Without(w.parked, l.id));
    forall k | k in w1.leases
      ensures LeaseInv(w1, k)
    {
      assert LeaseInv(w, k);
    }
    var l' := Restored(w.store, l, w.parked, fault).0;
    NewLeaseKeepsInv(w1, key, l');
    assert w1.leases[key := l'] == w.leases[key := l'];
  }

  /** What a lease may do when it is asked for a value: the store only moves its own
      slot forward, and the new remainder is the old one or a block above the mark. */
  ghost predicate Forward(store: Store, store': Store, l: Lease, l': Lease) {
    && l'.id == l.id && l'.block == l.block
    && (forall slot | slot != l.id.slot :: At(store', slot) == At(store, slot))
    && (store' == store || (
          && (match At(store, l.id.slot)
              case Absent => true
              case Corrupt => false
              case Intact(r) => r.epoch < l.id.epoch || (r.epoch == l.id.epoch && r.highWater <= NewMark(store', l) - l.block))
          && At(store', l.id.slot).Intact? && At(store', l.id.slot).record.epoch == l.id.epoch
          && l.block <= NewMark(store', l) <= MAX_COUNTER + 1))
  }

  function NewMark(store: Store, l: Lease): int {
    match At(store, l.id.slot)
    case Intact(r) => r.highWater
    case _ => 0
  }

  /** Every remainder, counter and bound survives a forward move of the store. */
  lemma ForwardKeeps(w: World, store': Store, l: Lease, l': Lease)
    requires Inv(w) && Forward(w.store, store', l, l')
    ensures forall r: Rest | Backed(w.store, r) :: Backed(store', r)
    ensures forall i: Issued | Recorded(w.store, i) :: Recorded(store', i)
    ensures forall slot :: MarkBounded(store', slot)
  {
    forall slot
      ensures MarkBounded(store', slot)
    {
      assert MarkBounded(w.store, slot);
    }
  }

  /** The value handed out was never handed out and is in no other remainder. */
  lemma ValueIsNew(w: World, key: nat, fault: Fault)
    requires Inv(w) && key in w.leases
    requires Next(w.store, w.leases[key], fault).status == Success
    ensures var l, r := w.leases[key], Next(w.store, w.leases[key], fault);
            && r.value <= MAX_COUNTER
            && (forall i | i in w.issued && i.slot == l.id.slot && i.epoch == l.id.epoch :: i.value != r.value)
            && (forall i | i in w.issued :: Clear(LeaseRest(r.lease), i))
            && Clear(LeaseRest(r.lease), Issued(l.id.slot, l.id.epoch, r.value))
            && Recorded(r.store, Issued(l.id.slot, l.id.epoch, r.value))
            && Backed(r.store, LeaseRest(r.lease))
  {
    var l, r := w.leases[key], Next(w.store, w.leases[key], fault);
    assert LeaseInv(w, key) && MarkBounded(w.store, l.id.slot);
    forall i | i in w.issued && i.slot == l.id.slot && i.epoch == l.id.epoch
      ensures i.value != r.value && Clear(LeaseRest(r.lease), i)
    {
      assert Recorded(w.store, i) && Clear(LeaseRest(l), i);
    }
  }

  /** What holds of a world once lease key was asked for a value. */
  lemma TakeMoves(w: World, key: nat, fault: Fault)
    requires Inv(w) && key in w.leases
    ensures var r := Next(w.store, w.leases[key], fault);
            && (forall rest: Rest | Backed(w.store, rest) :: Backed(r.store, rest))
            && (forall i: Issued | Recorded(w.store, i) :: Recorded(r.store, i))
            && (forall slot :: MarkBounded(r.store, slot))
            && r.lease.id == w.leases[key].id && r.lease.block == w.leases[key].block
  {
    var l, r := w.leases[key], Next(w.store, w.leases[key], fault);
    assert LeaseInv(w, key) && MarkBounded(w.store, l.id.slot);
    ForwardKeeps(w, r.store, l, r.lease);
  }

  lemma TakeKeepsRest(w: World, key: nat, fault: Fault, other: Rest)
    requires Inv(w) && key in w.leases
    requires RestInv(w, other) && Apart(LeaseRest(w.leases[key]), other)
    ensures RestInv(Apply(w, Take(key, fault)), other)
    ensures Apart(LeaseRest(Next(w.store, w.leases[key], fault).lease), other)
  {
    TakeMoves(w, key, fault);
  }

  lemma TakeKeepsOwn(w: World, key: nat, fault: Fault)
    requires Inv(w) && key in w.leases
    ensures LeaseInv(Apply(w, Take(key, fault)), key)
  {
    var l := w.leases[key];
    assert LeaseInv(w, key) && MarkBounded(w.store, l.id.slot);
    TakeMoves(w, key, fault);
    if Next(w.store, l, fault).status == Success {
      ValueIsNew(w, key, fault);
    }
  }

  lemma TakeKeepsIssued(w: World, key: nat, fault: Fault)
    requires Inv(w) && key in w.leases
    ensures var w' := Apply(w, Take(key, fault));
            (forall i | i in w'.issued :: Recorded(w'.store, i)) && Distinct(w'.issued)
  {
    TakeMoves(w, key, fault);
    if Next(w.store, w.leases[key], fault).status == Success {
      ValueIsNew(w, key, fault);
    }
  }

  lemma ReplacedKeepsInv(w: World, w': World, key: nat)
    requires Inv(w) && key in w'.leases && w'.leases == w.leases[key := w'.leases[key]] && w'.parked == w.parked
    requires forall k | k in w'.leases ::
               LeaseInv(w', k) && (k != key ==> Apart(LeaseRest(w'.leases[key]), LeaseRest(w.leases[k])))
    requires forall cp | cp in w'.parked ::
               RestInv(w', CheckpointRest(cp)) && Apart(LeaseRest(w'.leases[key]), CheckpointRest(cp))
    requires forall i | i in w'.issued :: Recorded(w'.store, i)
    requires forall slot :: MarkBounded(w'.store, slot)
    requires Distinct(w'.issued)
    ensures Inv(w')
  {
  }

  lemma TakeKeepsInv(w: World, key: nat, fault: Fault)
    requires Inv(w) && key in w.leases
    ensures Inv(Apply(w, Take(key, fault)))
  {
    var w' := Apply(w, Take(key, fault));
    var l' := Next(w.store, w.leases[key], fault).lease;
    assert w'.leases[key] == l';
    forall k | k in w'.leases
      ensures LeaseInv(w', k) && (k != key ==> Apart(LeaseRest(l'), LeaseRest(w.leases[k])))
    {
      if k == key {
        TakeKeepsOwn(w, key, fault);
      } else {
        assert LeaseInv(w, k);
        TakeKeepsRest(w, key, fault, LeaseRest(w.leases[k]));
      }
    }
    forall cp | cp in w'.parked
      ensures RestInv(w', CheckpointRest(cp)) && Apart(LeaseRest(l'), CheckpointRest(cp))
    {
      TakeKeepsRest(w, key, fault, CheckpointRest(cp));
    }
    TakeMoves(w, key, fault);
    TakeKeepsIssued(w, key, fault);
    ReplacedKeepsInv(w, w', key);
  }

  lemma DamageKeepsInv(w: World, slot: nat)
    requires Inv(w)
    ensures Inv(w.(store := w.store[slot := Corrupt]))
  {
    var w' := w.(store := w.store[slot := Corrupt]);
    forall k | k in w'.leases
      ensures LeaseInv(w', k)
    {
      assert LeaseInv(w, k);
    }
    forall cp | cp in w'.parked
      ensures RestInv(w', CheckpointRest(cp))
    {
      assert RestInv(w, CheckpointRest(cp));
    }
    forall s
      ensures MarkBounded(w'.store, s)
    {
      assert MarkBounded(w.store, s);
    }
  }

  lemma EraseKeepsInv(w: World, slot: nat)
    requires Inv(w) && Unused(w, slot)
    ensures Inv(w.(store := w.store - {slot}))
  {
    var w' := w.(store := w.store - {slot});
    forall k | k in w'.leases
      ensures LeaseInv(w', k)
    {
      assert LeaseInv(w, k);
    }
    forall cp | cp in w'.parked
      ensures RestInv(w', CheckpointRest(cp))
    {
      assert RestInv(w, CheckpointRest(cp));
    }
    forall s
      ensures MarkBounded(w'.store, s)
    {
      assert MarkBounded(w.store, s);
    }
  }

  lemma StepKeepsInv(w: World, step: Step)
    requires Inv(w) && Enabled(w, step)
    ensures Inv(Apply(w, step))
  {
    match step
    case Create(_, _, _, _) => CreateKeepsInv(w, step);
    case Renew(key, fault) => RenewKeepsInv(w, key, fault);
    case Take(key, fault) => TakeKeepsInv(w, key, fault);
    case Evict(key, capacity) => ParkKeepsInv(w, key, capacity);
    case Drop(key) =>
    case Reboot =>
    case Damage(slot) => DamageKeepsInv(w, slot);
    case Erase(slot) => EraseKeepsInv(w, slot);
  }

  lemma {:induction false} RunKeepsInv(w: World, steps: seq<Step>)
    requires Inv(w) && ValidRun(w, steps)
    ensures Inv(Run(w, steps))
    decreases |steps|
  {
    if steps != [] {
      StepKeepsInv(w, steps[0]);
      RunKeepsInv(Apply(w, steps[0]), steps[1..]);
    }
  }

  /** Over every run of creating, resuming, evicting, rebooting, store faults and
      corruption, with any number of leases, contexts and epochs on a slot, no counter is
      issued twice in one slot and key epoch, and none passes 48 bits. */
  lemma CountersNeverRepeat(steps: seq<Step>)
    requires ValidRun(Start(), steps)
    ensures Distinct(Run(Start(), steps).issued)
    ensures forall i | i in Run(Start(), steps).issued :: i.value <= MAX_COUNTER
  {
    RunKeepsInv(Start(), steps);
    var w := Run(Start(), steps);
    forall i | i in w.issued
      ensures i.value <= MAX_COUNTER
    {
      assert Recorded(w.store, i);
    }
  }

  // ---- An erased slot --------------------------------------------------------------------

  /** A lease of block 1 that has issued every counter below n since the slot was erased. */
  predicate Counting(w: World, key: nat, id: Identity, n: nat) {
    && key in w.leases && w.leases[key].id == id && w.leases[key].block == 1
    && w.leases[key].cursor == w.leases[key].end == n
    && match At(w.store, id.slot)
       case Absent => n == 0
       case Corrupt => false
       case Intact(rec) => rec.epoch == id.epoch && rec.highWater == n
  }

  lemma Counts(w: World, key: nat, id: Identity, n: nat)
    requires Counting(w, key, id, n) && n <= MAX_COUNTER
    ensures var w' := Apply(w, Take(key, NoFault));
            Counting(w', key, id, n + 1) && w'.issued == w.issued + [Issued(id.slot, id.epoch, n)]
  {
  }

  lemma {:induction false} CountsTo(w: World, key: nat, id: Identity, n: nat, target: nat) returns (steps: seq<Step>)
    requires Counting(w, key, id, n) && n <= target <= MAX_COUNTER
    ensures ValidRun(w, steps)
    ensures var issued := Run(w, steps).issued;
            w.issued < issued && issued[|issued| - 1] == Issued(id.slot, id.epoch, target)
    decreases target - n
  {
    Counts(w, key, id, n);
    var w' := Apply(w, Take(key, NoFault));
    if n == target {
      steps := [Take(key, NoFault)];
      assert steps[1..] == [] && Run(w', []) == w';
    } else {
      var rest := CountsTo(w', key, id, n + 1, target);
      steps := [Take(key, NoFault)] + rest;
      assert steps[1..] == rest;
    }
  }

  /** A new lease of the epoch issues every counter of the slot again. */
  lemma ErasedRepeats(w: World, slot: nat, i: nat) returns (steps: seq<Step>)
    requires Inv(w) && i < |w.issued| && w.issued[i].slot == slot
    ensures var erased := w.(store := w.store - {slot});
            ValidRun(erased, steps) && !Distinct(Run(erased, steps).issued)
  {
    var erased := w.(store := w.store - {slot});
    var key := FreshKey(w.leases.Keys);
    var id := Identity(slot, 0, w.issued[i].epoch, 0);
    var create := Create(key, id, 1, NoFault);
    var w1 := Apply(erased, create);
    assert Recorded(w.store, w.issued[i]);
    assert Counting(w1, key, id, 0);
    var rest := CountsTo(w1, key, id, 0, w.issued[i].value);
    steps := [create] + rest;
    assert steps[1..] == rest;
    var issued := Run(erased, steps).issued;
    assert issued[i] == w.issued[i] == issued[|issued| - 1];
  }

  /** Erasing the record of a slot is safe in every future if and only if no counter was
      issued in it, in any epoch. */
  lemma EraseRule(w: World, slot: nat)
    requires Inv(w)
    ensures var erased := w.(store := w.store - {slot});
            (forall steps | ValidRun(erased, steps) :: Distinct(Run(erased, steps).issued)) <==> Unused(w, slot)
  {
    var erased := w.(store := w.store - {slot});
    if Unused(w, slot) {
      EraseKeepsInv(w, slot);
      forall steps | ValidRun(erased, steps)
        ensures Distinct(Run(erased, steps).issued)
      {
        RunKeepsInv(erased, steps);
      }
    } else {
      var issued :| issued in w.issued && issued.slot == slot;
      var i :| 0 <= i < |w.issued| && w.issued[i] == issued;
      var steps := ErasedRepeats(w, slot, i);
    }
  }

  // ---- A checkpoint of a lease that goes on ----------------------------------------------

  datatype Taken = Taken(store: Store, lease: Lease, values: seq<nat>)

  /** One request per fault, and the values handed out. */
  function Takes(store: Store, lease: Lease, faults: seq<Fault>): Taken
    decreases |faults|
  {
    if faults == [] then Taken(store, lease, [])
    else AskOnce(Takes(store, lease, faults[..|faults| - 1]), faults[|faults| - 1])
  }

  function AskOnce(t: Taken, fault: Fault): Taken {
    var r := Next(t.store, t.lease, fault);
    Taken(r.store, r.lease, if r.status == Success then t.values + [r.value] else t.values)
  }

  /** The record a lease wrote when it reserved its block. */
  function Mark(l: Lease): Record {
    Record(l.id.context, l.id.epoch, l.id.direction, l.end, l.generation)
  }

  /** A lease that went on from l0: its record is still the newest and it issued from
      that block only, or the mark moved on. */
  ghost predicate WentOn(l0: Lease, t: Taken) {
    && t.lease.id == l0.id && t.lease.block == l0.block
    && At(t.store, l0.id.slot).Intact?
    && var rec := At(t.store, l0.id.slot).record;
       && rec.context == l0.id.context && rec.epoch == l0.id.epoch && rec.direction == l0.id.direction
       && t.lease.cursor <= t.lease.end <= rec.highWater <= MAX_COUNTER + 1
       && (forall v | v in t.values :: v < rec.highWater)
       && (if rec == Mark(l0) then
             && t.lease.end == l0.end && t.lease.cursor == l0.cursor + |t.values|
             && (t.values != [] ==> t.values[0] == l0.cursor)
           else rec.highWater > l0.end)
  }

  lemma {:induction false} TakesWentOn(store: Store, l0: Lease, faults: seq<Fault>)
    requires 0 < l0.block && l0.cursor < l0.end <= MAX_COUNTER + 1 && At(store, l0.id.slot) == Intact(Mark(l0))
    ensures WentOn(l0, Takes(store, l0, faults))
    ensures var t := Takes(store, l0, faults);
            CommitUnacked !in faults && At(t.store, l0.id.slot) != Intact(Mark(l0)) ==> |t.values| > l0.end - l0.cursor
    decreases |faults|
  {
    if faults != [] {
      var before := faults[..|faults| - 1];
      TakesWentOn(store, l0, before);
    }
  }

  /** The rule that a checkpoint is cut only from a lease being dropped is needed, and
      what breaking it costs is exact. A checkpoint is cut from a lease whose block is
      the newest reservation, and the lease goes on: the resumed copy hands out a
      counter already issued if and only if one was issued since and the block is still
      the newest reservation. While every commit is acknowledged that is one to
      end - cursor counters. */
  lemma CopiedLeaseRepeats(store: Store, lease: Lease, faults: seq<Fault>)
    requires 0 < lease.block && lease.cursor < lease.end <= MAX_COUNTER + 1
    requires At(store, lease.id.slot) == Intact(Mark(lease))
    ensures var t := Takes(store, lease, faults);
            var resumed := Resumed(t.store, New(lease.id, lease.block), Cut(lease), NoFault);
            var copy := Next(t.store, resumed.0, NoFault);
            var repeats := copy.status == Success && copy.value in t.values;
            && resumed.1 == Success
            && (repeats <==> t.values != [] && At(t.store, lease.id.slot) == Intact(Mark(lease)))
            && (CommitUnacked !in faults ==> (repeats <==> 1 <= |t.values| <= lease.end - lease.cursor))
  {
    TakesWentOn(store, lease, faults);
  }
}
