/** No counter is accepted twice under one context. */
module ReplaySafety {
  // Over every run of opening, accepting, closing, restarting, store faults, loss and
  // corruption of records, with any number of windows open at once on colliding slots.

  import opened Basics
  import opened ReplayGuard

  /** A window a caller holds: its context, and the highest counter that was already
      out of reach when it was opened (-1 for a fresh context). */
  datatype Held = Held(win: Window, ctx: Context, low: int)

  /** What is in flash, what callers hold, and every counter accepted so far. */
  datatype World = World(store: Store, ram: map<nat, Held>, log: seq<(Context, nat)>)

  function Start(): World {
    World(Store(map[], map[]), map[], [])
  }

  datatype Step =
    | DoOpen(id: nat, ctx: Context, fault: Fault)
    | DoAccept(id: nat, counter: nat, fault: Fault)
    | DoClose(id: nat, fault: Fault)
    | DoCheckFloor(ctx: Context, fault: Fault)
    | Restart
    | LoseWindow(slot: nat)
    | CorruptWindow(slot: nat, fp: nat)
    | CorruptFloor(slot: nat)
    | LoseFloor(slot: nat)

  /** A window record is lost or corrupted. */
  predicate Damages(step: Step) {
    step.LoseWindow? || step.CorruptWindow?
  }

  function Damaged(store: Store, step: Step): Store
    requires Damages(step)
  {
    match step
    case LoseWindow(slot) => store.(windows := store.windows - {slot})
    case CorruptWindow(slot, fp) => store.(windows := store.windows[slot := Corrupt(fp)])
  }

  /** No window that never committed may commit under a live key that has accepted
      a counter. */
  ghost predicate Harmless(h: Prints, world: World, store: Store) {
    forall id | id in world.ram && Regains(world, store, world.ram[id].win) ::
      !Used(h, world, KeyOf(world.ram[id].win))
  }

  /** A window that never committed may commit its first ceiling to this store. */
  predicate Regains(world: World, store: Store, w: Window) {
    !w.established && Live(world.store, KeyOf(w)) && MayCommit(store, w)
  }

  /** No window of this slot is held. */
  predicate Unheld(world: World, slot: nat) {
    forall id | id in world.ram :: world.ram[id].win.slot != slot
  }

  /** No counter was accepted in this slot. */
  predicate Unaccepted(h: Prints, world: World, slot: nat) {
    forall i | 0 <= i < |world.log| :: h.slot(world.log[i].0.peer) != slot
  }

  function WithoutFloor(world: World, slot: nat): World {
    world.(store := world.store.(floors := world.store.floors - {slot}))
  }

  ghost predicate Enabled(h: Prints, world: World, step: Step) {
    match step
    case DoOpen(id, _, _) => id !in world.ram
    case DoAccept(id, counter, _) => id in world.ram && counter <= MAX64
    case DoClose(id, _) => id in world.ram
    case DoCheckFloor(_, _) => true
    case Restart => true
    case LoseWindow(_) => Harmless(h, world, Damaged(world.store, step))
    case CorruptWindow(_, _) => Harmless(h, world, Damaged(world.store, step))
    case CorruptFloor(_) => true
    case LoseFloor(slot) => Unheld(world, slot) && Unaccepted(h, world, slot)
  }

  ghost function Apply(h: Prints, ahead: nat, world: World, step: Step): World
    requires Enabled(h, world, step)
  {
    match step
    case DoOpen(id, ctx, fault) =>
      var (store, win, status) := Open(h, world.store, ctx, fault);
      if status == Success then
        var low := if win.established then win.record.ceiling else -1;
        world.(store := store, ram := world.ram[id := Held(win, ctx, low)])
      else world.(store := store)
    case DoAccept(id, counter, fault) =>
      var held := world.ram[id];
      var (store, win, status) := Accept(world.store, held.win, counter, ahead, fault);
      if status == Success then
        world.(store := store, ram := world.ram[id := held.(win := win)],
               log := world.log + [(held.ctx, counter)])
      else world.(store := store)
    case DoClose(id, fault) =>
      var (store, _) := Close(world.store, world.ram[id].win, fault);
      world.(store := store, ram := world.ram - {id})
    case DoCheckFloor(ctx, fault) => world.(store := CheckFloor(h, world.store, ctx, fault).0)
    case Restart => world.(ram := map[])
    case LoseWindow(_) => world.(store := Damaged(world.store, step))
    case CorruptWindow(_, _) => world.(store := Damaged(world.store, step))
    case CorruptFloor(slot) => world.(store := world.store.(floors := world.store.floors[slot := Corrupt(0)]))
    case LoseFloor(slot) => WithoutFloor(world, slot)
  }

  ghost predicate ValidRun(h: Prints, ahead: nat, world: World, steps: seq<Step>)
    decreases |steps|
  {
    steps != [] ==> Enabled(h, world, steps[0]) && ValidRun(h, ahead, Apply(h, ahead, world, steps[0]), steps[1..])
  }

  ghost function Run(h: Prints, ahead: nat, world: World, steps: seq<Step>): World
    requires ValidRun(h, ahead, world, steps)
    decreases |steps|
  {
    if steps == [] then world else Run(h, ahead, Apply(h, ahead, world, steps[0]), steps[1..])
  }

  // ---- The invariant -----------------------------------------------------------------

  /** Everything that shares one counter space: slot, epoch and fingerprint. */
  datatype Key = Key(slot: nat, epoch: nat, fp: nat)

  function KeyOf(w: Window): Key {
    Key(w.slot, w.epoch, w.record.fp)
  }

  function ContextKey(h: Prints, ctx: Context): Key {
    Key(h.slot(ctx.peer), ctx.epoch, h.context(ctx))
  }

  /** No counter occurs twice under one context, nor under two contexts whose keys
      collide. */
  ghost predicate NoReplay(h: Prints, log: seq<(Context, nat)>) {
    forall i, j | 0 <= i < j < |log| :: ContextKey(h, log[i].0) == ContextKey(h, log[j].0) ==> log[i].1 != log[j].1
  }

  ghost predicate Accepted(h: Prints, world: World, key: Key, counter: nat) {
    exists i | 0 <= i < |world.log| :: ContextKey(h, world.log[i].0) == key && world.log[i].1 == counter
  }

  ghost predicate Used(h: Prints, world: World, key: Key) {
    exists c: nat :: Accepted(h, world, key, c)
  }

  /** The floor still admits this epoch, and this epoch is the newest it admits. */
  predicate Live(store: Store, key: Key) {
    store.Floor(key.slot).Intact? && store.Floor(key.slot).record.minimumEpoch == key.epoch
  }

  /** The floor has seen this epoch of this peer. */
  predicate Seen(h: Prints, store: Store, ctx: Context) {
    match store.Floor(h.slot(ctx.peer))
    case Absent => false
    case Corrupt(_) => true
    case Intact(f) => f.fp == h.peer(ctx.peer) && ctx.epoch <= f.minimumEpoch
  }

  ghost predicate HeldInv(h: Prints, world: World, held: Held) {
    && held.win.open
    && KeyOf(held.win) == ContextKey(h, held.ctx)
    && held.win.peerFp == h.peer(held.ctx.peer)
    && Seen(h, world.store, held.ctx)
    && (held.win.established ==> held.win.live && -1 <= held.low <= held.win.maximum <= held.win.record.ceiling)
    && (held.win.established && held.win.maximum < held.win.record.ceiling ==> held.low < held.win.maximum)
    && (!held.win.established ==> !held.win.live && held.low == -1)
  }

  /** A counter this window may still be asked about without a commit. */
  predicate Covers(held: Held, counter: nat) {
    held.win.established && held.low < counter <= held.win.record.ceiling
  }

  /** Some counter is covered. */
  predicate Covering(held: Held) {
    held.win.established && held.low < held.win.record.ceiling
  }

  /** The bitmap refuses a counter. */
  predicate Refuses(w: Window, counter: nat) {
    counter <= w.maximum && (w.maximum - counter < 64 ==> w.bitmap[w.maximum - counter])
  }

  /** The window refuses everything below its start and every accepted counter it covers. */
  ghost predicate Tracks(h: Prints, world: World, held: Held) {
    held.win.established && Live(world.store, KeyOf(held.win)) ==>
      && (forall c: nat | c <= held.low :: Refuses(held.win, c))
      && (forall c: nat | Covers(held, c) && Accepted(h, world, KeyOf(held.win), c) :: Refuses(held.win, c))
  }

  /** Two windows on one key never cover the same counter. */
  ghost predicate Disjoint(world: World, a: Held, b: Held) {
    KeyOf(a.win) == KeyOf(b.win) && Live(world.store, KeyOf(a.win)) ==>
      forall c: nat :: !(Covers(a, c) && Covers(b, c))
  }

  predicate Holds(store: Store, w: Window) {
    w.established && store.Window(w.slot) == Intact(w.record)
  }

  /** What the persisted record of a live key says about a window on it. */
  ghost predicate Persisted(world: World, held: Held) {
    var stored := world.store.Window(held.win.slot);
    Live(world.store, KeyOf(held.win)) && stored.Intact? && stored.record.fp == held.win.record.fp && Covering(held) ==>
      held.win.record.ceiling <= stored.record.ceiling
  }

  /** Whoever may still commit starts above everything another window covers. */
  ghost predicate HolderAbove(world: World, holder: Held, other: Held) {
    KeyOf(holder.win) == KeyOf(other.win) && Live(world.store, KeyOf(holder.win)) && Holds(world.store, holder.win)
    && Covering(other) ==>
      other.win.record.ceiling <= holder.low
  }

  /** An uncommitted window is the only one of its epoch, and while it may still
      commit nothing was accepted under its key. */
  ghost predicate FreshAlone(h: Prints, world: World, id: nat)
    requires id in world.ram
  {
    var held := world.ram[id];
    !held.win.established && Live(world.store, KeyOf(held.win)) ==>
      && (forall other | other in world.ram && other != id && world.ram[other].win.slot == held.win.slot
                         && world.ram[other].win.epoch == held.win.epoch :: world.ram[other].win.established)
      && (MayCommit(world.store, held.win) ==> !Used(h, world, KeyOf(held.win)))
  }

  /** Everything accepted under the persisted record of a live key is below its ceiling. */
  ghost predicate SlotInv(h: Prints, world: World, slot: nat) {
    var stored, floor := world.store.Window(slot), world.store.Floor(slot);
    stored.Intact? && floor.Intact? ==>
      forall c: nat | Accepted(h, world, Key(slot, floor.record.minimumEpoch, stored.record.fp), c) ::
        c <= stored.record.ceiling
  }

  ghost predicate OneInv(h: Prints, world: World, id: nat)
    requires id in world.ram
  {
    && HeldInv(h, world, world.ram[id])
    && Tracks(h, world, world.ram[id])
    && Persisted(world, world.ram[id])
    && FreshAlone(h, world, id)
    && (Covering(world.ram[id]) ==> Used(h, world, KeyOf(world.ram[id].win)))
  }

  ghost predicate PairInv(world: World, a: nat, b: nat)
    requires a in world.ram && b in world.ram
  {
    Disjoint(world, world.ram[a], world.ram[b]) && HolderAbove(world, world.ram[a], world.ram[b])
  }

  ghost predicate LogInv(h: Prints, world: World) {
    && (forall i | 0 <= i < |world.log| :: Seen(h, world.store, world.log[i].0) && world.log[i].1 <= MAX64)
    && NoReplay(h, world.log)
  }

  ghost predicate Inv(h: Prints, world: World) {
    match world
    case World(_, ram, _) =>
      && (forall id | id in ram :: OneInv(h, world, id))
      && (forall a, b | a in ram && b in ram && a != b :: PairInv(world, a, b))
      && (forall slot :: SlotInv(h, world, slot))
      && LogInv(h, world)
  }

  // ---- The floor moves ---------------------------------------------------------------

  /** Nothing at this slot is as new as the epoch. */
  ghost predicate Unheard(h: Prints, world: World, slot: nat, epoch: nat) {
    && (forall id | id in world.ram && world.ram[id].win.slot == slot :: world.ram[id].win.epoch < epoch)
    && (forall i | 0 <= i < |world.log| && h.slot(world.log[i].0.peer) == slot :: world.log[i].0.epoch < epoch)
  }

  function RaiseFloor(world: World, slot: nat, peerFp: nat, epoch: nat, generation: nat): World {
    world.(store := world.store.(floors := world.store.floors[slot := Intact(FloorRecord(peerFp, epoch, generation))]))
  }

  predicate MayRaise(store: Store, slot: nat, peerFp: nat, epoch: nat) {
    match store.Floor(slot)
    case Absent => true
    case Corrupt(_) => false
    case Intact(f) => f.fp == peerFp && f.minimumEpoch < epoch
  }

  /** Raising the floor retires every window and every counter of the slot. */
  lemma RaiseKeepsInv(h: Prints, world: World, slot: nat, peerFp: nat, epoch: nat, generation: nat)
    requires Inv(h, world) && MayRaise(world.store, slot, peerFp, epoch)
    ensures Inv(h, RaiseFloor(world, slot, peerFp, epoch, generation))
  {
    var world' := RaiseFloor(world, slot, peerFp, epoch, generation);
    SameLog(h, world, world');
    forall id | id in world'.ram
      ensures OneInv(h, world', id)
    {
      assert OneInv(h, world, id);
    }
    forall a, b | a in world'.ram && b in world'.ram && a != b
      ensures PairInv(world', a, b)
    {
      assert OneInv(h, world, a) && OneInv(h, world, b) && PairInv(world, a, b);
    }
    forall s
      ensures SlotInv(h, world', s)
    {
      assert SlotInv(h, world, s);
    }
  }

  lemma SameLog(h: Prints, world: World, world': World)
    requires world'.log == world.log
    ensures forall key: Key, c: nat :: Accepted(h, world', key, c) <==> Accepted(h, world, key, c)
  {
  }

  // ---- A window is opened ---------------------------------------------------------------

  function WithHeld(world: World, id: nat, held: Held): World {
    world.(ram := world.ram[id := held])
  }

  /** A fresh window on an epoch nobody has heard of. */
  lemma FreshKeepsInv(h: Prints, world: World, id: nat, held: Held)
    requires Inv(h, world) && id !in world.ram
    requires HeldInv(h, world, held) && !held.win.established
    requires Unheard(h, world, held.win.slot, held.win.epoch)
    ensures Inv(h, WithHeld(world, id, held))
  {
    var world' := WithHeld(world, id, held);
    SameLog(h, world, world');
    forall a | a in world'.ram
      ensures OneInv(h, world', a)
    {
      if a == id {
        assert KeyOf(held.win) == ContextKey(h, held.ctx);
      } else {
        assert OneInv(h, world, a);
      }
    }
    forall a, b | a in world'.ram && b in world'.ram && a != b
      ensures PairInv(world', a, b)
    {
      if a != id && b != id {
        assert PairInv(world, a, b);
      }
    }
    forall s
      ensures SlotInv(h, world', s)
    {
      assert SlotInv(h, world, s);
    }
  }

  /** A resumed window covers nothing until it commits. */
  lemma ResumedKeepsInv(h: Prints, world: World, id: nat, held: Held)
    requires Inv(h, world) && id !in world.ram
    requires HeldInv(h, world, held) && Holds(world.store, held.win)
    requires held.low == held.win.maximum == held.win.record.ceiling && held.win.bitmap == Filled(true)
    ensures Inv(h, WithHeld(world, id, held))
  {
    var world' := WithHeld(world, id, held);
    SameLog(h, world, world');
    forall a | a in world'.ram
      ensures OneInv(h, world', a)
    {
      if a != id {
        assert OneInv(h, world, a);
      }
    }
    forall a, b | a in world'.ram && b in world'.ram && a != b
      ensures PairInv(world', a, b)
    {
      if a != id && b != id {
        assert PairInv(world, a, b);
      } else if a == id {
        assert OneInv(h, world, b);
      }
    }
    forall s
      ensures SlotInv(h, world', s)
    {
      assert SlotInv(h, world, s);
    }
  }

  // ---- A ceiling is committed -------------------------------------------------------------

  function Landed(world: World, w: Window, next: WindowRecord): World {
    world.(store := world.store.(windows := world.store.windows[w.slot := Intact(next)]))
  }

  /** A record with a ceiling at or above every accepted counter and above every range a
      window on the key covers, so no such window mistakes it for its own. */
  ghost predicate MayLand(h: Prints, world: World, key: Key, next: WindowRecord) {
    && Live(world.store, key) && next.fp == key.fp
    && (forall c: nat | Accepted(h, world, key, c) :: c <= next.ceiling)
    && (forall a | a in world.ram && KeyOf(world.ram[a].win) == key && Covering(world.ram[a]) ::
          world.ram[a].win.record.ceiling < next.ceiling)
    && (forall a | a in world.ram && world.ram[a].win.slot == key.slot && world.ram[a].win.epoch == key.epoch
                   && !world.ram[a].win.established && world.ram[a].win.record.fp != key.fp ::
          MayCommit(world.store, world.ram[a].win))
  }

  lemma LandKeepsInv(h: Prints, world: World, w: Window, next: WindowRecord)
    requires Inv(h, world) && MayLand(h, world, KeyOf(w), next)
    ensures Inv(h, Landed(world, w, next))
  {
    var world' := Landed(world, w, next);
    SameLog(h, world, world');
    forall a | a in world'.ram
      ensures OneInv(h, world', a)
    {
      assert OneInv(h, world, a);
    }
    forall a, b | a in world'.ram && b in world'.ram && a != b
      ensures PairInv(world', a, b)
    {
      assert PairInv(world, a, b) && OneInv(h, world, a);
    }
    forall s
      ensures SlotInv(h, world', s)
    {
      assert SlotInv(h, world, s);
    }
  }

  /** A ceiling at or above every accepted counter and above every range a window covers. */
  ghost predicate SafeCeiling(h: Prints, world: World, id: nat, ceiling: nat)
    requires id in world.ram
  {
    var w := world.ram[id].win;
    && (forall c: nat | Accepted(h, world, KeyOf(w), c) :: c <= ceiling)
    && (forall a | a in world.ram && KeyOf(world.ram[a].win) == KeyOf(w) && Covering(world.ram[a]) ::
          world.ram[a].win.record.ceiling < ceiling)
  }

  /** What may be committed: a raise by the window itself. */
  lemma RaisedCeilingIsSafe(h: Prints, world: World, id: nat, ceiling: nat)
    requires Inv(h, world) && id in world.ram
    requires Live(world.store, KeyOf(world.ram[id].win)) && MayCommit(world.store, world.ram[id].win)
    requires world.ram[id].win.established ==> world.ram[id].win.record.ceiling < ceiling
    ensures SafeCeiling(h, world, id, ceiling)
  {
    var w := world.ram[id].win;
    assert OneInv(h, world, id) && SlotInv(h, world, w.slot);
    forall a | a in world.ram && KeyOf(world.ram[a].win) == KeyOf(w) && Covering(world.ram[a])
      ensures world.ram[a].win.record.ceiling < ceiling
    {
      assert OneInv(h, world, a);
    }
  }

  /** The record lands but the window is not told: it can never commit again. */
  lemma LandedKeepsInv(h: Prints, world: World, id: nat, ceiling: nat)
    requires Inv(h, world) && id in world.ram
    requires Live(world.store, KeyOf(world.ram[id].win)) && MayCommit(world.store, world.ram[id].win)
    requires SafeCeiling(h, world, id, ceiling)
    ensures Inv(h, Landed(world, world.ram[id].win, NextRecord(world.ram[id].win, ceiling)))
  {
    var w := world.ram[id].win;
    assert OneInv(h, world, id);
    LandKeepsInv(h, world, w, NextRecord(w, ceiling));
  }

  // ---- A counter is accepted -----------------------------------------------------------------

  function Admitted(world: World, id: nat, held': Held, counter: nat): World {
    world.(ram := world.ram[id := held'], log := world.log + [(held'.ctx, counter)])
  }

  lemma AcceptedGrows(h: Prints, world: World, id: nat, held': Held, counter: nat)
    ensures forall key: Key, c: nat :: Accepted(h, Admitted(world, id, held', counter), key, c) <==>
              Accepted(h, world, key, c) || (key == ContextKey(h, held'.ctx) && c == counter)
  {
    var world' := Admitted(world, id, held', counter);
    assert world'.log[|world.log|] == (held'.ctx, counter);
    forall key: Key, c: nat | Accepted(h, world, key, c)
      ensures Accepted(h, world', key, c)
    {
      var i :| 0 <= i < |world.log| && ContextKey(h, world.log[i].0) == key && world.log[i].1 == c;
      assert world'.log[i] == world.log[i];
    }
  }

  /** The window after the move: where it stood, and what it refuses now. */
  ghost predicate MovedWindow(h: Prints, world: World, held: Held, held': Held, counter: nat) {
    && held'.ctx == held.ctx && held'.low == held.low
    && HeldInv(h, world, held') && held'.win.established
    && KeyOf(held'.win) == KeyOf(held.win)
    && held.low < counter <= held'.win.maximum
    && Refuses(held'.win, counter)
    && (forall c: nat | c <= held.low :: Refuses(held'.win, c))
    && (forall c: nat | Covers(held', c) && Accepted(h, world, KeyOf(held.win), c) :: Refuses(held'.win, c))
  }

  /** The new range collides with no other window and fits under the persisted record. */
  ghost predicate RangeFits(world: World, id: nat, held': Held) {
    && Persisted(world, held')
    && (forall a | a in world.ram && a != id ::
          && Disjoint(world, world.ram[a], held')
          && HolderAbove(world, world.ram[a], held')
          && HolderAbove(world, held', world.ram[a])
          && (KeyOf(world.ram[a].win) == KeyOf(held'.win) && !world.ram[a].win.established ==>
                !MayCommit(world.store, world.ram[a].win)))
  }

  lemma AdmitKeepsInv(h: Prints, world: World, id: nat, held': Held, counter: nat)
    requires Inv(h, world) && id in world.ram
    requires Live(world.store, KeyOf(world.ram[id].win))
    requires MovedWindow(h, world, world.ram[id], held', counter)
    requires RangeFits(world, id, held')
    requires !Accepted(h, world, KeyOf(held'.win), counter) && counter <= MAX64
    requires SlotInv(h, Admitted(world, id, held', counter), held'.win.slot)
    ensures Inv(h, Admitted(world, id, held', counter))
  {
    var world' := Admitted(world, id, held', counter);
    AcceptedGrows(h, world, id, held', counter);
    forall a | a in world'.ram
      ensures OneInv(h, world', a)
    {
      AdmitKeepsOne(h, world, id, held', counter, a);
    }
    forall a, b | a in world'.ram && b in world'.ram && a != b
      ensures PairInv(world', a, b)
    {
      if a != id && b != id {
        assert PairInv(world, a, b);
      }
    }
    forall s
      ensures SlotInv(h, world', s)
    {
      if s != held'.win.slot {
        assert SlotInv(h, world, s);
      }
    }
  }

  lemma AdmitKeepsOne(h: Prints, world: World, id: nat, held': Held, counter: nat, a: nat)
    requires Inv(h, world) && id in world.ram && a in world.ram
    requires Live(world.store, KeyOf(world.ram[id].win))
    requires MovedWindow(h, world, world.ram[id], held', counter)
    requires RangeFits(world, id, held')
    ensures OneInv(h, Admitted(world, id, held', counter), a)
  {
    var world' := Admitted(world, id, held', counter);
    AcceptedGrows(h, world, id, held', counter);
    assert OneInv(h, world, a) && OneInv(h, world, id);
    assert Used(h, world', KeyOf(held'.win)) by { assert Accepted(h, world', KeyOf(held'.win), counter); }
    assert forall key: Key | key != KeyOf(held'.win) :: Used(h, world', key) <==> Used(h, world, key);
    if a != id {
      assert Disjoint(world, world.ram[a], held');
      assert Covers(held', counter);
    }
  }

  /** Moving the window lets in exactly one more counter. */
  lemma MoveRefuses(w: Window, w': Window, counter: nat)
    requires w.live && Move(w, counter) == Moved(w'.maximum, w'.bitmap)
    ensures !Refuses(w, counter) && Refuses(w', counter)
    ensures forall c: nat | Refuses(w, c) :: Refuses(w', c)
    ensures w'.maximum == if counter > w.maximum then counter else w.maximum
  {
    forall c: nat | Refuses(w, c)
      ensures Refuses(w', c)
    {
      if counter > w.maximum && w'.maximum - c < 64 {
        assert w'.bitmap[w'.maximum - c] == w.bitmap[w.maximum - c];
      }
    }
  }

  /** The window as accept leaves it. */
  function MovedBy(w: Window, moved: Moved, record: WindowRecord): Window
    requires moved.Moved?
  {
    w.(maximum := moved.maximum, bitmap := moved.bitmap, live := true, record := record, established := true)
  }

  /** A counter below the ceiling: nothing is committed. */
  lemma AcceptInside(h: Prints, world: World, id: nat, counter: nat)
    requires Inv(h, world) && id in world.ram
    requires Live(world.store, KeyOf(world.ram[id].win)) && world.ram[id].win.established
    requires Move(world.ram[id].win, counter).Moved? && counter <= MAX64
    requires Move(world.ram[id].win, counter).maximum <= world.ram[id].win.record.ceiling
    ensures var held := world.ram[id];
            var held' := held.(win := MovedBy(held.win, Move(held.win, counter), held.win.record));
            Inv(h, Admitted(world, id, held', counter))
  {
    var held := world.ram[id];
    var held' := held.(win := MovedBy(held.win, Move(held.win, counter), held.win.record));
    assert OneInv(h, world, id) && SlotInv(h, world, held.win.slot);
    MoveRefuses(held.win, held'.win, counter);
    assert Covers(held', counter) && Covers(held, counter);
    forall a | a in world.ram && a != id
      ensures Disjoint(world, world.ram[a], held') && HolderAbove(world, world.ram[a], held')
              && HolderAbove(world, held', world.ram[a])
      ensures KeyOf(world.ram[a].win) == KeyOf(held'.win) && !world.ram[a].win.established ==>
                !MayCommit(world.store, world.ram[a].win)
    {
      assert OneInv(h, world, a);
      assert PairInv(world, a, id) && PairInv(world, id, a);
      assert forall c: nat :: Covers(held', c) <==> Covers(held, c);
    }
    AcceptedGrows(h, world, id, held', counter);
    AdmitKeepsInv(h, world, id, held', counter);
  }

  /** A counter above the ceiling, or the first one: a raised ceiling is durable first. */
  lemma AcceptBeyond(h: Prints, world: World, id: nat, counter: nat, ceiling: nat)
    requires Inv(h, world) && id in world.ram
    requires Live(world.store, KeyOf(world.ram[id].win)) && MayCommit(world.store, world.ram[id].win)
    requires Move(world.ram[id].win, counter).Moved? && counter <= MAX64
    requires Move(world.ram[id].win, counter).maximum <= ceiling
    requires world.ram[id].win.established ==> world.ram[id].win.record.ceiling < Move(world.ram[id].win, counter).maximum
    ensures var held := world.ram[id];
            var next := NextRecord(held.win, ceiling);
            var held' := held.(win := MovedBy(held.win, Move(held.win, counter), next));
            Inv(h, Admitted(Landed(world, held.win, next), id, held', counter))
  {
    var held := world.ram[id];
    var next := NextRecord(held.win, ceiling);
    var held' := held.(win := MovedBy(held.win, Move(held.win, counter), next));
    var world1 := Landed(world, held.win, next);
    RaisedCeilingIsSafe(h, world, id, ceiling);
    LandedKeepsInv(h, world, id, ceiling);
    BeyondMoves(h, world, id, counter, ceiling, held');
    BeyondFits(h, world, id, counter, ceiling, held');
    SameLog(h, world, world1);
    AdmitKeepsInv(h, world1, id, held', counter);
  }

  lemma BeyondFits(h: Prints, world: World, id: nat, counter: nat, ceiling: nat, held': Held)
    requires Inv(h, world) && id in world.ram
    requires Live(world.store, KeyOf(world.ram[id].win)) && MayCommit(world.store, world.ram[id].win)
    requires Move(world.ram[id].win, counter).Moved? && counter <= Move(world.ram[id].win, counter).maximum <= ceiling
    requires world.ram[id].win.established ==> world.ram[id].win.record.ceiling < ceiling
    requires var held := world.ram[id];
             held' == held.(win := MovedBy(held.win, Move(held.win, counter), NextRecord(held.win, ceiling)))
    ensures RangeFits(Landed(world, world.ram[id].win, held'.win.record), id, held')
    ensures SlotInv(h, Admitted(Landed(world, world.ram[id].win, held'.win.record), id, held', counter), held'.win.slot)
  {
    var held := world.ram[id];
    var world1 := Landed(world, held.win, held'.win.record);
    assert OneInv(h, world, id) && SlotInv(h, world, held.win.slot);
    RaisedCeilingIsSafe(h, world, id, ceiling);
    forall a | a in world.ram && a != id
      ensures Disjoint(world1, world.ram[a], held') && HolderAbove(world1, world.ram[a], held')
              && HolderAbove(world1, held', world.ram[a])
    {
      assert OneInv(h, world, a) && PairInv(world, id, a);
    }
    SameLog(h, world, world1);
    AcceptedGrows(h, world1, id, held', counter);
  }

  lemma BeyondMoves(h: Prints, world: World, id: nat, counter: nat, ceiling: nat, held': Held)
    requires Inv(h, world) && id in world.ram
    requires Live(world.store, KeyOf(world.ram[id].win)) && MayCommit(world.store, world.ram[id].win)
    requires Move(world.ram[id].win, counter).Moved? && Move(world.ram[id].win, counter).maximum <= ceiling
    requires world.ram[id].win.established ==> world.ram[id].win.record.ceiling < Move(world.ram[id].win, counter).maximum
    requires var held := world.ram[id];
             held' == held.(win := MovedBy(held.win, Move(held.win, counter), NextRecord(held.win, ceiling)))
    ensures MovedWindow(h, Landed(world, world.ram[id].win, held'.win.record), world.ram[id], held', counter)
    ensures !Accepted(h, world, KeyOf(held'.win), counter)
  {
    var held := world.ram[id];
    var world1 := Landed(world, held.win, held'.win.record);
    assert OneInv(h, world, id) && SlotInv(h, world, held.win.slot);
    SameLog(h, world, world1);
    if held.win.established {
      MoveRefuses(held.win, held'.win, counter);
      forall c: nat | Accepted(h, world, KeyOf(held.win), c)
        ensures Refuses(held'.win, c)
      {
        assert c <= held.low || Covers(held, c);
      }
    }
  }

  // ---- Windows are dropped, records are damaged ------------------------------------------------

  lemma DropKeepsInv(h: Prints, world: World, kept: map<nat, Held>)
    requires Inv(h, world)
    requires forall id | id in kept :: id in world.ram && kept[id] == world.ram[id]
    ensures Inv(h, world.(ram := kept))
  {
    var world' := world.(ram := kept);
    SameLog(h, world, world');
    forall a | a in world'.ram
      ensures OneInv(h, world', a)
    {
      assert OneInv(h, world, a);
    }
    forall a, b | a in world'.ram && b in world'.ram && a != b
      ensures PairInv(world', a, b)
    {
      assert PairInv(world, a, b);
    }
    forall s
      ensures SlotInv(h, world', s)
    {
      assert SlotInv(h, world, s);
    }
  }

  /** Closing may lower the ceiling: the live maximum is still above everything. */
  lemma CloseKeepsInv(h: Prints, world: World, id: nat)
    requires Inv(h, world) && id in world.ram
    requires Live(world.store, KeyOf(world.ram[id].win)) && Holds(world.store, world.ram[id].win)
    requires world.ram[id].win.maximum < world.ram[id].win.record.ceiling
    ensures var w := world.ram[id].win;
            Inv(h, Landed(world.(ram := world.ram - {id}), w, NextRecord(w, w.maximum)))
  {
    var held := world.ram[id];
    var w := held.win;
    var base := world.(ram := world.ram - {id});
    DropKeepsInv(h, world, base.ram);
    SameLog(h, world, base);
    assert OneInv(h, world, id) && SlotInv(h, world, w.slot);
    forall c: nat | Accepted(h, base, KeyOf(w), c)
      ensures c <= w.maximum
    {
      assert c <= held.low || Covers(held, c);
    }
    forall a | a in base.ram && KeyOf(base.ram[a].win) == KeyOf(w) && Covering(base.ram[a])
      ensures base.ram[a].win.record.ceiling < w.maximum
    {
      assert PairInv(world, id, a);
    }
    LandKeepsInv(h, base, w, NextRecord(w, w.maximum));
  }

  lemma DamageKeepsInv(h: Prints, world: World, step: Step)
    requires Inv(h, world) && Damages(step) && Harmless(h, world, Damaged(world.store, step))
    ensures Inv(h, world.(store := Damaged(world.store, step)))
  {
    var world' := world.(store := Damaged(world.store, step));
    assert forall s | s != step.slot :: world'.store.Window(s) == world.store.Window(s);
    SameLog(h, world, world');
    forall a | a in world'.ram
      ensures OneInv(h, world', a)
    {
      assert OneInv(h, world, a);
      assert Regains(world, world'.store, world.ram[a].win) ==> !Used(h, world, KeyOf(world.ram[a].win));
    }
    forall a, b | a in world'.ram && b in world'.ram && a != b
      ensures PairInv(world', a, b)
    {
      assert PairInv(world, a, b);
    }
    forall s
      ensures SlotInv(h, world', s)
    {
      assert SlotInv(h, world, s);
    }
  }

  /** A corrupted floor retires its slot for good. */
  lemma CorruptFloorKeepsInv(h: Prints, world: World, slot: nat)
    requires Inv(h, world)
    ensures Inv(h, world.(store := world.store.(floors := world.store.floors[slot := Corrupt(0)])))
  {
    var world' := world.(store := world.store.(floors := world.store.floors[slot := Corrupt(0)]));
    SameLog(h, world, world');
    forall a | a in world'.ram
      ensures OneInv(h, world', a)
    {
      assert OneInv(h, world, a);
    }
    forall a, b | a in world'.ram && b in world'.ram && a != b
      ensures PairInv(world', a, b)
    {
      assert PairInv(world, a, b);
    }
    forall s
      ensures SlotInv(h, world', s)
    {
      assert SlotInv(h, world, s);
    }
  }

  /** A slot that nothing holds or has used starts anew. */
  lemma LoseFloorKeepsInv(h: Prints, world: World, slot: nat)
    requires Inv(h, world) && Unheld(world, slot) && Unaccepted(h, world, slot)
    ensures Inv(h, WithoutFloor(world, slot))
  {
    var world' := WithoutFloor(world, slot);
    SameLog(h, world, world');
    forall a | a in world'.ram
      ensures OneInv(h, world', a)
    {
      assert OneInv(h, world, a);
    }
    forall a, b | a in world'.ram && b in world'.ram && a != b
      ensures PairInv(world', a, b)
    {
      assert PairInv(world, a, b);
    }
    forall s
      ensures SlotInv(h, world', s)
    {
      assert SlotInv(h, world, s);
    }
  }

  // ---- Steps and runs ----------------------------------------------------------------------------

  lemma RatchetKeepsInv(h: Prints, world: World, ctx: Context, fault: Fault)
    requires Inv(h, world)
    requires FloorStatus(world.store.Floor(h.slot(ctx.peer)), h.peer(ctx.peer), ctx.epoch) == Success
    ensures var (store, status) := Ratchet(world.store, h.slot(ctx.peer), h.peer(ctx.peer), ctx.epoch, fault);
            && Inv(h, world.(store := store))
            && (status == Success ==> store.Floor(h.slot(ctx.peer)).Intact?
                                      && store.Floor(h.slot(ctx.peer)).record.fp == h.peer(ctx.peer)
                                      && store.Floor(h.slot(ctx.peer)).record.minimumEpoch == ctx.epoch)
  {
    var slot, peerFp := h.slot(ctx.peer), h.peer(ctx.peer);
    var floor := world.store.Floor(slot);
    if !(floor.Intact? && ctx.epoch <= floor.record.minimumEpoch) && !fault.CommitLost? {
      var generation := if floor.Intact? then (floor.record.generation + 1) % GENERATIONS else 1;
      RaiseKeepsInv(h, world, slot, peerFp, ctx.epoch, generation);
    }
  }

  lemma OpenKeepsInv(h: Prints, ahead: nat, world: World, id: nat, ctx: Context, fault: Fault)
    requires Inv(h, world) && id !in world.ram
    ensures Inv(h, Apply(h, ahead, world, DoOpen(id, ctx, fault)))
  {
    var slot := h.slot(ctx.peer);
    var floor := world.store.Floor(slot);
    var (store, win, status) := Open(h, world.store, ctx, fault);
    if FloorStatus(floor, h.peer(ctx.peer), ctx.epoch) == Success {
      RatchetKeepsInv(h, world, ctx, fault);
    }
    if status == Success {
      var world1 := world.(store := store);
      var loaded := LoadWindow(world.store.Window(slot), floor, h.context(ctx), ctx.epoch);
      var held := Held(win, ctx, if win.established then win.record.ceiling else -1);
      if loaded.Resumed? {
        ResumedKeepsInv(h, world1, id, held);
      } else {
        assert Unheard(h, world1, slot, ctx.epoch);
        FreshKeepsInv(h, world1, id, held);
      }
    }
  }

  lemma AcceptKeepsInv(h: Prints, ahead: nat, world: World, id: nat, counter: nat, fault: Fault)
    requires Inv(h, world) && Enabled(h, world, DoAccept(id, counter, fault))
    ensures Inv(h, Apply(h, ahead, world, DoAccept(id, counter, fault)))
  {
    var held := world.ram[id];
    var w := held.win;
    var world' := Apply(h, ahead, world, DoAccept(id, counter, fault));
    assert OneInv(h, world, id) && SlotInv(h, world, w.slot);
    if fault.LoadFloorFails? || WindowFloorStatus(world.store, w) != Success || Move(w, counter).Rejected? {
      return;
    }
    var moved := Move(w, counter);
    if w.established && moved.maximum <= w.record.ceiling {
      AcceptInside(h, world, id, counter);
    } else if !fault.LoadWindowFails? && MayCommit(world.store, w) && !fault.CommitLost? {
      var ceiling := Ceiling(moved.maximum, ahead);
        if fault.CommitUnacked? {
        RaisedCeilingIsSafe(h, world, id, ceiling);
        LandedKeepsInv(h, world, id, ceiling);
      } else {
        AcceptBeyond(h, world, id, counter, ceiling);
      }
    }
  }

  /** A close changes nothing, or writes the next record. */
  ghost predicate ClosesTo(store: Store, w: Window, after: Store) {
    // The case keeps the definition folded in goals, so proofs use the lemmas about it.
    match after
    case Store(_, _) =>
      || after == store
      || (&& WindowFloorStatus(store, w) == Success && Holds(store, w) && w.maximum < w.record.ceiling
          && after == store.(windows := store.windows[w.slot := Intact(NextRecord(w, w.maximum))]))
  }

  ghost function AfterClose(world: World, id: nat, store: Store): World {
    world.(store := store, ram := world.ram - {id})
  }

  lemma ClosedKeepsInv(h: Prints, world: World, id: nat, store: Store)
    requires Inv(h, world) && id in world.ram
    requires ClosesTo(world.store, world.ram[id].win, store)
    ensures Inv(h, AfterClose(world, id, store))
  {
    if store == world.store {
      DropKeepsInv(h, world, world.ram - {id});
    } else {
      CloseKeepsInv(h, world, id);
    }
  }

  lemma CloseStepKeepsInv(h: Prints, ahead: nat, world: World, id: nat, fault: Fault)
    requires Inv(h, world) && Enabled(h, world, DoClose(id, fault))
    ensures Inv(h, Apply(h, ahead, world, DoClose(id, fault)))
  {
    ClosedKeepsInv(h, world, id, Close(world.store, world.ram[id].win, fault).0);
  }

  lemma StepKeepsInv(h: Prints, ahead: nat, world: World, step: Step)
    requires Inv(h, world) && Enabled(h, world, step)
    ensures Inv(h, Apply(h, ahead, world, step))
  {
    match step
    case DoOpen(id, ctx, fault) => OpenKeepsInv(h, ahead, world, id, ctx, fault);
    case DoAccept(id, counter, fault) => AcceptKeepsInv(h, ahead, world, id, counter, fault);
    case DoClose(id, fault) => CloseStepKeepsInv(h, ahead, world, id, fault);
    case DoCheckFloor(ctx, fault) =>
      if FloorStatus(world.store.Floor(h.slot(ctx.peer)), h.peer(ctx.peer), ctx.epoch) == Success {
        RatchetKeepsInv(h, world, ctx, fault);
      }
    case Restart => DropKeepsInv(h, world, map[]);
    case LoseWindow(_) => DamageKeepsInv(h, world, step);
    case CorruptWindow(_, _) => DamageKeepsInv(h, world, step);
    case CorruptFloor(slot) => CorruptFloorKeepsInv(h, world, slot);
    case LoseFloor(slot) => LoseFloorKeepsInv(h, world, slot);
  }

  lemma {:induction false} RunKeepsInv(h: Prints, ahead: nat, world: World, steps: seq<Step>)
    requires Inv(h, world) && ValidRun(h, ahead, world, steps)
    ensures Inv(h, Run(h, ahead, world, steps))
    decreases |steps|
  {
    if steps != [] {
      StepKeepsInv(h, ahead, world, steps[0]);
      RunKeepsInv(h, ahead, Apply(h, ahead, world, steps[0]), steps[1..]);
    }
  }

  /** Replay safety: for every fingerprint function and every run, no counter is
      accepted twice under one context. */
  lemma NeverAcceptsTwice(h: Prints, ahead: nat, steps: seq<Step>)
    requires ValidRun(h, ahead, Start(), steps)
    ensures var log := Run(h, ahead, Start(), steps).log;
            NoReplay(h, log) && forall i, j | 0 <= i < j < |log| :: log[i] != log[j]
  {
    assert Inv(h, Start());
    RunKeepsInv(h, ahead, Start(), steps);
  }

  /** Damage that lets such a window commit replays every counter its key accepted. */
  lemma RegainedReplays(h: Prints, ahead: nat, world: World, store: Store, id: nat, c: nat)
    requires Inv(h, world) && id in world.ram && store.floors == world.store.floors
    requires Regains(world, store, world.ram[id].win) && Accepted(h, world, KeyOf(world.ram[id].win), c)
    ensures var damaged := world.(store := store);
            && Enabled(h, damaged, DoAccept(id, c, NoFault))
            && var log := Apply(h, ahead, damaged, DoAccept(id, c, NoFault)).log;
               log == world.log + [(world.ram[id].ctx, c)] && !NoReplay(h, log)
  {
    var damaged := world.(store := store);
    var held := world.ram[id];
    assert OneInv(h, world, id);
    var i :| 0 <= i < |world.log| && ContextKey(h, world.log[i].0) == KeyOf(held.win) && world.log[i].1 == c;
    assert WindowFloorStatus(store, held.win) == Success;
    var log := Apply(h, ahead, damaged, DoAccept(id, c, NoFault)).log;
    assert log == world.log + [(held.ctx, c)];
    assert log[i] == world.log[i] && log[|world.log|] == (held.ctx, c);
  }

  lemma HarmReplays(h: Prints, ahead: nat, world: World, store: Store) returns (steps: seq<Step>)
    requires Inv(h, world) && store.floors == world.store.floors
    requires !Harmless(h, world, store)
    ensures var damaged := world.(store := store);
            ValidRun(h, ahead, damaged, steps) && !NoReplay(h, Run(h, ahead, damaged, steps).log)
  {
    var id :| id in world.ram && Regains(world, store, world.ram[id].win) && Used(h, world, KeyOf(world.ram[id].win));
    var c: nat :| Accepted(h, world, KeyOf(world.ram[id].win), c);
    RegainedReplays(h, ahead, world, store, id, c);
    steps := [DoAccept(id, c, NoFault)];
  }

  /** Losing or corrupting a window record is safe in every future if and only if it
      is harmless. */
  lemma DamageRule(h: Prints, ahead: nat, world: World, damage: Step)
    requires Inv(h, world) && Damages(damage)
    ensures var damaged := world.(store := Damaged(world.store, damage));
            (forall steps | ValidRun(h, ahead, damaged, steps) :: NoReplay(h, Run(h, ahead, damaged, steps).log))
            <==> Harmless(h, world, damaged.store)
  {
    var damaged := world.(store := Damaged(world.store, damage));
    if Harmless(h, world, damaged.store) {
      DamageKeepsInv(h, world, damage);
      forall steps | ValidRun(h, ahead, damaged, steps)
        ensures NoReplay(h, Run(h, ahead, damaged, steps).log)
      {
        RunKeepsInv(h, ahead, damaged, steps);
      }
    } else {
      var steps := HarmReplays(h, ahead, world, damaged.store);
    }
  }

  // ---- A lost floor ------------------------------------------------------------------------------

  lemma DamageWithoutFloor(h: Prints, world: World, slot: nat)
    requires Inv(h, world)
    ensures Enabled(h, WithoutFloor(world, slot), LoseWindow(slot))
  {
    var lost := WithoutFloor(world, slot);
    SameLog(h, world, lost);
    forall id | id in lost.ram && Regains(lost, Damaged(lost.store, LoseWindow(slot)), lost.ram[id].win)
      ensures !Used(h, lost, KeyOf(lost.ram[id].win))
    {
      assert OneInv(h, world, id) && lost.ram[id].win.slot != slot;
    }
  }

  /** Every counter accepted in the slot can be accepted again. */
  lemma LostFloorReplays(h: Prints, ahead: nat, world: World, i: nat) returns (steps: seq<Step>)
    requires Inv(h, world) && i < |world.log|
    ensures var lost := WithoutFloor(world, h.slot(world.log[i].0.peer));
            ValidRun(h, ahead, lost, steps) && Run(h, ahead, lost, steps).log == world.log + [world.log[i]]
  {
    var ctx, c := world.log[i].0, world.log[i].1;
    var slot := h.slot(ctx.peer);
    var lost := WithoutFloor(world, slot);
    var id := FreshKey(world.ram.Keys);
    DamageWithoutFloor(h, world, slot);
    var damaged := Apply(h, ahead, lost, LoseWindow(slot));
    var reopened := Apply(h, ahead, damaged, DoOpen(id, ctx, NoFault));
    OneMore(h, ahead, damaged, DoOpen(id, ctx, NoFault), [DoAccept(id, c, NoFault)]);
    OneMore(h, ahead, lost, LoseWindow(slot), [DoOpen(id, ctx, NoFault)] + [DoAccept(id, c, NoFault)]);
    steps := [LoseWindow(slot)] + ([DoOpen(id, ctx, NoFault)] + [DoAccept(id, c, NoFault)]);
  }

  lemma OneMore(h: Prints, ahead: nat, world: World, step: Step, rest: seq<Step>)
    requires Enabled(h, world, step) && ValidRun(h, ahead, Apply(h, ahead, world, step), rest)
    ensures ValidRun(h, ahead, world, [step] + rest)
    ensures Run(h, ahead, world, [step] + rest) == Run(h, ahead, Apply(h, ahead, world, step), rest)
  {
    assert ([step] + rest)[1..] == rest;
  }

  /** Losing the floor of a slot that no window is held on is safe in every future if and
      only if no counter was accepted in that slot. */
  lemma LostFloorRule(h: Prints, ahead: nat, world: World, slot: nat)
    requires Inv(h, world) && Unheld(world, slot)
    ensures var lost := WithoutFloor(world, slot);
            (forall steps | ValidRun(h, ahead, lost, steps) :: NoReplay(h, Run(h, ahead, lost, steps).log))
            <==> Unaccepted(h, world, slot)
  {
    var lost := WithoutFloor(world, slot);
    if Unaccepted(h, world, slot) {
      LoseFloorKeepsInv(h, world, slot);
      forall steps | ValidRun(h, ahead, lost, steps)
        ensures NoReplay(h, Run(h, ahead, lost, steps).log)
      {
        RunKeepsInv(h, ahead, lost, steps);
      }
    } else {
      var i :| 0 <= i < |world.log| && h.slot(world.log[i].0.peer) == slot;
      var steps := LostFloorReplays(h, ahead, world, i);
      var log := Run(h, ahead, lost, steps).log;
      assert log[i] == log[|world.log|];
    }
  }

  /** A reachable world with harmful damage. A first commit that landed unacknowledged leaves
      a window that believes it never committed; if the record then vanishes, that
      window accepts again what a second window accepted since. */
  lemma UnsettledLossReplays(h: Prints, ctx: Context)
    ensures var s0 := Store(map[], map[]);
            var (s1, w1, opened1) := Open(h, s0, ctx, NoFault);
            var (s2, _, unacked) := Accept(s1, w1, 5, 64, CommitUnacked);
            var (s3, w2, opened2) := Open(h, s2, ctx, NoFault);
            var (s4, _, accepted) := Accept(s3, w2, 70, 64, NoFault);
            var s5 := s4.(windows := s4.windows - {h.slot(ctx.peer)});
            var (_, _, again) := Accept(s5, w1, 70, 64, NoFault);
            opened1 == opened2 == Success && unacked == StoreError && accepted == Success && again == Success
  {
  }

  // ---- The window is exact -----------------------------------------------------------------------

  /** Within the last 64 counters the bitmap is exactly what was accepted. */
  ghost predicate Exact(w: Window, accepted: set<nat>) {
    if !w.live then accepted == {}
    else
      && w.maximum in accepted
      && (forall c | c in accepted :: c <= w.maximum)
      && (forall i | 0 <= i < 64 :: w.bitmap[i] <==> i <= w.maximum && w.maximum - i in accepted)
  }

  /** A fresh context's window refuses a counter if and only if it was accepted
      before or is 64 or more below the highest one. */
  lemma MoveIsExact(w: Window, accepted: set<nat>, counter: nat)
    requires Exact(w, accepted)
    ensures Move(w, counter).Rejected? <==> counter in accepted || (w.live && counter + 64 <= w.maximum)
    ensures Move(w, counter).Moved? ==> Exact(MovedBy(w, Move(w, counter), w.record), accepted + {counter})
  {
    if w.live && counter <= w.maximum && w.maximum - counter < 64 {
      assert w.bitmap[w.maximum - counter] <==> counter in accepted;
    }
    if Move(w, counter).Moved? {
      var w' := MovedBy(w, Move(w, counter), w.record);
      forall i | 0 <= i < 64
        ensures w'.bitmap[i] <==> i <= w'.maximum && w'.maximum - i in accepted + {counter}
      {
        if w.live && counter > w.maximum && counter - w.maximum < 64 && i >= counter - w.maximum {
          assert w'.bitmap[i] == w.bitmap[i - (counter - w.maximum)];
        }
      }
    }
  }
}
