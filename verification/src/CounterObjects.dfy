/** The counter store and lease as objects: each method does what CounterLease says of the
    lease and the store, and writes the store only when it commits. */
module CounterObjects {
  import opened Basics
  import opened CounterLease

  /** Flash slots. A write may be lost, or take effect without being acknowledged. */
  class SlotStore {
    var slots: Store

    constructor ()
      ensures slots == map[]
    {
      slots := map[];
    }

    method Load(slot: nat, fault: Fault) returns (ok: bool, stored: Stored)
      ensures ok == !fault.LoadFails? && (ok ==> stored == At(slots, slot))
    {
      ok := !fault.LoadFails?;
      stored := if slot in slots then slots[slot] else Absent;
    }

    method Commit(slot: nat, record: Record, fault: Fault) returns (ok: bool)
      modifies this
      ensures ok == !(fault.CommitLost? || fault.CommitUnacked?)
      ensures slots == if fault.CommitLost? then old(slots) else old(slots)[slot := Intact(record)]
    {
      if !fault.CommitLost? {
        slots := slots[slot := Intact(record)];
      }
      ok := !(fault.CommitLost? || fault.CommitUnacked?);
    }
  }

  class LeaseObject {
    const store: SlotStore
    const id: Identity
    const block: nat
    var cursor: nat
    var end: nat
    var generation: nat
    var initialized: bool

    ghost function Now(): Lease
      reads this
    {
      Lease(id, block, cursor, end, generation)
    }

    constructor (store: SlotStore, id: Identity, block: nat)
      ensures this.store == store && Now() == New(id, block) && !initialized
    {
      this.store, this.id, this.block := store, id, block;
      cursor, end, generation, initialized := 0, 0, 0, false;
    }

    /** On a lease in any state; a failure changes nothing. */
    method Initialize(fault: Fault) returns (status: Status)
      modifies this
      ensures (Now(), status) == Initialized(store.slots, old(Now()), fault)
      ensures initialized == (old(initialized) || status == Success)
    {
      if block == 0 {
        return InvalidArgument;
      }
      var ok, stored := store.Load(id.slot, fault);
      if !ok {
        return StoreError;
      }
      match stored {
      case Absent =>
      case Corrupt => return IntegrityError;
      case Intact(record) =>
        if record.context != id.context || record.direction != id.direction || record.epoch > id.epoch {
          return Conflict;
        }
        if record.epoch == id.epoch {
          cursor, end := record.highWater, record.highWater;
        }
        generation := record.generation;
      }
      initialized := true;
      status := Success;
    }

    method Resume(checkpoint: Checkpoint, fault: Fault) returns (status: Status)
      modifies this
      ensures (Now(), status) == Resumed(store.slots, old(Now()), checkpoint, fault)
      ensures initialized == (old(initialized) || status == Success)
    {
      status := Initialize(fault);
      if status == Success && checkpoint.id == id && checkpoint.cursor < checkpoint.end
         && end != 0 && end == checkpoint.end && generation == checkpoint.generation {
        cursor := checkpoint.cursor;
      }
    }

    method Adopt(stored: Stored) returns (status: Status)
      requires stored == At(store.slots, id.slot)
      modifies this
      ensures (Now(), status) == CatchUp(store.slots, old(Now())) && initialized == old(initialized)
    {
      match stored
      case Absent => status := Success;
      case Corrupt => status := IntegrityError;
      case Intact(persisted) =>
        if persisted.epoch > id.epoch {
          return Conflict;
        }
        if persisted.epoch == id.epoch && persisted.highWater > end {
          cursor, end, generation := persisted.highWater, persisted.highWater, persisted.generation;
        } else if persisted.epoch == id.epoch && persisted.highWater < end {
          return IntegrityError;
        }
        status := Success;
    }

    /** A lease that was never initialized reserves nothing. */
    method ReserveBlock(fault: Fault) returns (status: Status)
      modifies this, store
      ensures !old(initialized) ==> status == InvalidState && Now() == old(Now()) && store.slots == old(store.slots)
      ensures old(initialized) ==> (store.slots, Now(), status) == Reserve(old(store.slots), old(Now()), fault)
      ensures initialized == old(initialized)
    {
      if !initialized {
        return InvalidState;
      }
      var ok, stored := store.Load(id.slot, fault);
      if !ok {
        return StoreError;
      }
      status := Adopt(stored);
      if status != Success {
        return;
      }
      if end > MAX_COUNTER + 1 - block {
        return Exhausted;
      }
      var next := Record(id.context, id.epoch, id.direction, end + block, (generation + 1) % GENERATIONS);
      var committed := store.Commit(id.slot, next, fault);
      if !committed {
        return StoreError;
      }
      cursor, end, generation := end, next.highWater, next.generation;
    }

    /** A lease that was never initialized issues nothing. */
    method Next(fault: Fault) returns (status: Status, value: nat)
      modifies this, store
      ensures !old(initialized) ==> status == InvalidState && Now() == old(Now()) && store.slots == old(store.slots)
      ensures old(initialized) ==>
              Issue(store.slots, Now(), status, value) == CounterLease.Next(old(store.slots), old(Now()), fault)
      ensures initialized == old(initialized)
    {
      if !initialized {
        return InvalidState, 0;
      }
      if cursor == end {
        status := ReserveBlock(fault);
        if status != Success {
          return status, 0;
        }
      }
      value, cursor := cursor, cursor + 1;
      status := Success;
    }
  }
}
