/** Receive-side anti-replay state: a sliding window in RAM, and in flash a ceiling
    that is always at or above every counter accepted, plus an epoch floor per peer
    pair. Operations are given as functions of the flash contents and the window;
    the class at the end runs them in place. */
module ReplayGuard {
  import opened Basics

  // ---- Data ------------------------------------------------------------------------

  datatype Peer = Peer(scope: nat, network: nat, sender: nat, receiver: nat)

  datatype Context = Context(peer: Peer, epoch: nat)

  /** The fingerprints and the slot they fold to. Any functions at all: nothing below
      rests on them being free of collisions. */
  datatype Prints = Prints(slot: Peer -> nat, peer: Peer -> nat, context: Context -> nat)

  datatype WindowRecord = WindowRecord(fp: nat, ceiling: nat, generation: nat)

  datatype FloorRecord = FloorRecord(fp: nat, minimumEpoch: nat, generation: nat)

  /** What a slot of the store reads back as. A corrupt record fails its CRC. */
  datatype Stored<+R> = Absent | Intact(record: R) | Corrupt(fp: nat)

  datatype Store = Store(windows: map<nat, Stored<WindowRecord>>, floors: map<nat, Stored<FloorRecord>>) {
    function Window(slot: nat): Stored<WindowRecord> {
      if slot in windows then windows[slot] else Absent
    }

    function Floor(slot: nat): Stored<FloorRecord> {
      if slot in floors then floors[slot] else Absent
    }
  }

  /** The bits of a 64-bit word, least significant first. */
  type Bits = s: seq<bool> | |s| == 64 witness Filled(false)

  function Filled(bit: bool): (r: seq<bool>)
  {
    seq(64, i => bit)
  }

  /** The word with only its lowest bit set. */
  function One(): (r: Bits)
  {
    Filled(false)[0 := true]
  }

  /** established: some ceiling of this window is durable, or it was loaded. */
  datatype Window = Window(record: WindowRecord, established: bool, maximum: nat, bitmap: Bits, live: bool,
                           slot: nat, epoch: nat, peerFp: nat, open: bool)

  const CLOSED := Window(WindowRecord(0, 0, 0), false, 0, Filled(false), false, 0, 0, 0, false)

  datatype Status = Success | StoreError | IntegrityError | Stale | StateLost | Superseded | Replayed | NotOpen

  /** How the store misbehaves during one operation. A commit may fail without
      effect, or land and fail to be acknowledged. */
  datatype Fault = NoFault | LoadFloorFails | LoadWindowFails | CommitLost | CommitUnacked

  // ---- The floor -------------------------------------------------------------------

  /** floor_state, then the epoch test every caller makes. */
  function FloorStatus(floor: Stored<FloorRecord>, peerFp: nat, epoch: nat): Status {
    match floor
    case Absent => Success
    case Corrupt(_) => IntegrityError
    case Intact(f) =>
      if f.fp != peerFp then IntegrityError
      else if epoch < f.minimumEpoch then Stale
      else Success
  }

  /** ratchet_floor */
  function Ratchet(store: Store, slot: nat, peerFp: nat, epoch: nat, fault: Fault): (Store, Status) {
    var floor := store.Floor(slot);
    if floor.Intact? && epoch <= floor.record.minimumEpoch then (store, Success)
    else if fault.CommitLost? then (store, StoreError)
    else
      var generation := if floor.Intact? then (floor.record.generation + 1) % GENERATIONS else 1;
      (store.(floors := store.floors[slot := Intact(FloorRecord(peerFp, epoch, generation))]),
       if fault.CommitUnacked? then StoreError else Success)
  }

  /** check_floor */
  function CheckFloor(h: Prints, store: Store, ctx: Context, fault: Fault): (Store, Status) {
    var slot := h.slot(ctx.peer);
    if fault.LoadFloorFails? then (store, StoreError)
    else
      var status := FloorStatus(store.Floor(slot), h.peer(ctx.peer), ctx.epoch);
      if status != Success then (store, status)
      else Ratchet(store, slot, h.peer(ctx.peer), ctx.epoch, fault)
  }

  // ---- Opening a window --------------------------------------------------------------

  datatype Loaded = Refused(status: Status) | Fresh(fp: nat) | Resumed(record: WindowRecord)

  /** What the persisted window means for a context whose floor was read as given. */
  function LoadWindow(stored: Stored<WindowRecord>, floor: Stored<FloorRecord>, fp: nat, epoch: nat): Loaded {
    match stored
    case Corrupt(_) => Refused(IntegrityError)
    case Intact(r) =>
      if r.fp == fp then Resumed(r)
      else if floor.Intact? && epoch <= floor.record.minimumEpoch then Refused(StateLost)
      else Fresh(fp)
    case Absent =>
      if floor.Intact? && epoch == floor.record.minimumEpoch then Refused(StateLost)
      else Fresh(fp)
  }

  /** open_context */
  function Open(h: Prints, store: Store, ctx: Context, fault: Fault): (Store, Window, Status) {
    var slot, peerFp := h.slot(ctx.peer), h.peer(ctx.peer);
    var floor := store.Floor(slot);
    if fault.LoadFloorFails? then (store, CLOSED, StoreError)
    else
      var status := FloorStatus(floor, peerFp, ctx.epoch);
      if status != Success then (store, CLOSED, status)
      else if fault.LoadWindowFails? then (store, CLOSED, StoreError)
      else
        var loaded := LoadWindow(store.Window(slot), floor, h.context(ctx), ctx.epoch);
        if loaded.Refused? then (store, CLOSED, loaded.status)
        else
          var (store', ratcheted) := Ratchet(store, slot, peerFp, ctx.epoch, fault);
          if ratcheted != Success then (store', CLOSED, ratcheted)
          else (store', OpenedWindow(loaded, slot, ctx.epoch, peerFp), Success)
  }

  /** A resumed window starts at the ceiling with every bit set. */
  function OpenedWindow(loaded: Loaded, slot: nat, epoch: nat, peerFp: nat): Window
    requires !loaded.Refused?
  {
    match loaded
    case Fresh(fp) => Window(WindowRecord(fp, 0, 0), false, 0, Filled(false), false, slot, epoch, peerFp, true)
    case Resumed(r) => Window(r, true, r.ceiling, Filled(true), true, slot, epoch, peerFp, true)
  }

  // ---- Accepting a counter -----------------------------------------------------------

  /** check_window_floor: unlike at opening, a missing floor is a loss. */
  function WindowFloorStatus(store: Store, w: Window): Status {
    var floor := store.Floor(w.slot);
    if floor.Absent? then StateLost else FloorStatus(floor, w.peerFp, w.epoch)
  }

  /** The compare-and-swap of commit_ceiling. */
  predicate MayCommit(store: Store, w: Window) {
    var stored := store.Window(w.slot);
    if w.established then stored == Intact(w.record)
    else match stored
      case Absent => true
      case Intact(r) => r.fp != w.record.fp
      case Corrupt(fp) => fp != w.record.fp
  }

  function NextRecord(w: Window, ceiling: nat): WindowRecord {
    WindowRecord(w.record.fp, ceiling, (w.record.generation + 1) % GENERATIONS)
  }

  /** commit_ceiling */
  function CommitCeiling(store: Store, w: Window, ceiling: nat, fault: Fault): (Store, Window, Status) {
    if fault.LoadWindowFails? then (store, w, StoreError)
    else if !MayCommit(store, w) then (store, w, Superseded)
    else if fault.CommitLost? then (store, w, StoreError)
    else
      var next := NextRecord(w, ceiling);
      var store' := store.(windows := store.windows[w.slot := Intact(next)]);
      if fault.CommitUnacked? then (store', w, StoreError)
      else (store', w.(record := next, established := true), Success)
  }

  /** (bitmap << delta) | 1 */
  function Slide(bitmap: Bits, delta: nat): (r: Bits)
    requires delta < 64
    ensures forall i | 0 <= i < 64 :: r[i] <==> i == 0 || (i >= delta && bitmap[i - delta])
  {
    seq(64, i requires 0 <= i < 64 => i == 0 || (i >= delta && bitmap[i - delta]))
  }

  /** The window after a counter, before anything is durable. */
  datatype Moved = Moved(maximum: nat, bitmap: Bits) | Rejected

  function Move(w: Window, counter: nat): Moved {
    if !w.live then Moved(counter, One())
    else if counter > w.maximum then
      var delta := counter - w.maximum;
      Moved(counter, if delta >= 64 then One() else Slide(w.bitmap, delta))
    else
      var delta := w.maximum - counter;
      if delta >= 64 || w.bitmap[delta] then Rejected else Moved(w.maximum, w.bitmap[delta := true])
  }

  function Ceiling(maximum: nat, ahead: nat): nat {
    if maximum + ahead > MAX64 then MAX64 else maximum + ahead
  }

  /** accept */
  function Accept(store: Store, w: Window, counter: nat, ahead: nat, fault: Fault): (Store, Window, Status) {
    if !w.open then (store, w, NotOpen)
    else if fault.LoadFloorFails? then (store, w, StoreError)
    else
      var status := WindowFloorStatus(store, w);
      if status != Success then (store, w, status)
      else
        var moved := Move(w, counter);
        if moved.Rejected? then (store, w, Replayed)
        else if !w.established || moved.maximum > w.record.ceiling then
          var (store', w', committed) := CommitCeiling(store, w, Ceiling(moved.maximum, ahead), fault);
          if committed != Success then (store', w, committed)
          else (store', w'.(maximum := moved.maximum, bitmap := moved.bitmap, live := true), Success)
        else (store, w.(maximum := moved.maximum, bitmap := moved.bitmap, live := true), Success)
  }

  /** close_context: lowers the ceiling to the live maximum; the window is dropped
      either way. */
  function Close(store: Store, w: Window, fault: Fault): (Store, Status) {
    if !(w.open && w.live && w.established && w.maximum < w.record.ceiling) then (store, Success)
    else if fault.LoadFloorFails? then (store, StoreError)
    else
      var status := WindowFloorStatus(store, w);
      if status != Success then (store, status)
      else
        var (store', _, committed) := CommitCeiling(store, w, w.maximum, fault);
        (store', committed)
  }

  // ---- The guard in place ----------------------------------------------------------------

  /** The store is behind the guard; windows belong to the callers. */
  class Guard {
    const prints: Prints
    const ahead: nat
    var store: Store

    constructor (prints: Prints, store: Store, ahead: nat)
      ensures this.prints == prints && this.store == store && this.ahead == ahead
    {
      this.prints, this.store, this.ahead := prints, store, ahead;
    }

    method CommitFloor(slot: nat, record: FloorRecord, fault: Fault) returns (status: Status)
      modifies this`store
      ensures store == if fault.CommitLost? then old(store)
                       else old(store).(floors := old(store).floors[slot := Intact(record)])
      ensures status == if fault.CommitLost? || fault.CommitUnacked? then StoreError else Success
    {
      if !fault.CommitLost? {
        store := store.(floors := store.floors[slot := Intact(record)]);
      }
      status := if fault.CommitLost? || fault.CommitUnacked? then StoreError else Success;
    }

    method CommitWindow(slot: nat, record: WindowRecord, fault: Fault) returns (status: Status)
      modifies this`store
      ensures store == if fault.CommitLost? then old(store)
                       else old(store).(windows := old(store).windows[slot := Intact(record)])
      ensures status == if fault.CommitLost? || fault.CommitUnacked? then StoreError else Success
    {
      if !fault.CommitLost? {
        store := store.(windows := store.windows[slot := Intact(record)]);
      }
      status := if fault.CommitLost? || fault.CommitUnacked? then StoreError else Success;
    }

    method RatchetFloor(slot: nat, peerFp: nat, epoch: nat, fault: Fault) returns (status: Status)
      modifies this`store
      ensures (store, status) == Ratchet(old(store), slot, peerFp, epoch, fault)
    {
      var floor := store.Floor(slot);
      if floor.Intact? && epoch <= floor.record.minimumEpoch {
        return Success;
      }
      var generation := 1;
      if floor.Intact? {
        generation := (floor.record.generation + 1) % GENERATIONS;
      }
      status := CommitFloor(slot, FloorRecord(peerFp, epoch, generation), fault);
    }

    method CheckFloorOf(ctx: Context, fault: Fault) returns (status: Status)
      modifies this`store
      ensures (store, status) == CheckFloor(prints, old(store), ctx, fault)
    {
      var slot, peerFp := prints.slot(ctx.peer), prints.peer(ctx.peer);
      if fault.LoadFloorFails? {
        return StoreError;
      }
      status := FloorStatus(store.Floor(slot), peerFp, ctx.epoch);
      if status == Success {
        status := RatchetFloor(slot, peerFp, ctx.epoch, fault);
      }
    }

    method OpenContext(ctx: Context, fault: Fault) returns (w: Window, status: Status)
      modifies this`store
      ensures (store, w, status) == Open(prints, old(store), ctx, fault)
    {
      w := CLOSED;
      var slot, peerFp := prints.slot(ctx.peer), prints.peer(ctx.peer);
      if fault.LoadFloorFails? {
        return w, StoreError;
      }
      var floor := store.Floor(slot);
      status := FloorStatus(floor, peerFp, ctx.epoch);
      if status != Success {
        return;
      }
      if fault.LoadWindowFails? {
        return w, StoreError;
      }
      var loaded := LoadWindow(store.Window(slot), floor, prints.context(ctx), ctx.epoch);
      if loaded.Refused? {
        return w, loaded.status;
      }
      status := RatchetFloor(slot, peerFp, ctx.epoch, fault);
      if status == Success {
        w := OpenedWindow(loaded, slot, ctx.epoch, peerFp);
      }
    }

    method CommitCeilingOf(w0: Window, ceiling: nat, fault: Fault) returns (w: Window, status: Status)
      modifies this`store
      ensures (store, w, status) == CommitCeiling(old(store), w0, ceiling, fault)
    {
      w := w0;
      if fault.LoadWindowFails? {
        return w, StoreError;
      }
      if !MayCommit(store, w) {
        return w, Superseded;
      }
      var next := NextRecord(w, ceiling);
      status := CommitWindow(w.slot, next, fault);
      if status == Success {
        w := w.(record := next, established := true);
      }
    }

    method AcceptCounter(w0: Window, counter: nat, fault: Fault) returns (w: Window, status: Status)
      modifies this`store
      ensures (store, w, status) == Accept(old(store), w0, counter, ahead, fault)
    {
      w := w0;
      if !w.open {
        return w, NotOpen;
      }
      if fault.LoadFloorFails? {
        return w, StoreError;
      }
      status := WindowFloorStatus(store, w);
      if status != Success {
        return;
      }
      var moved := Move(w, counter);
      if moved.Rejected? {
        return w, Replayed;
      }
      if !w.established || moved.maximum > w.record.ceiling {
        w, status := CommitCeilingOf(w, Ceiling(moved.maximum, ahead), fault);
        if status != Success {
          return w0, status;
        }
      }
      w := w.(maximum := moved.maximum, bitmap := moved.bitmap, live := true);
    }

    method CloseContext(w: Window, fault: Fault) returns (status: Status)
      modifies this`store
      ensures (store, status) == Close(old(store), w, fault)
    {
      status := Success;
      if w.open && w.live && w.established && w.maximum < w.record.ceiling {
        if fault.LoadFloorFails? {
          return StoreError;
        }
        status := WindowFloorStatus(store, w);
        if status == Success {
          var dropped;
          dropped, status := CommitCeilingOf(w, w.maximum, fault);
        }
      }
    }
  }
}
