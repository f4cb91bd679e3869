/** The route table as the device runs it: a bounded pool of entries updated in
    place, with loops over the candidate slots. Each operation is proved to do
    exactly what RouteEntry says of one entry, and to leave the others alone. */
module RouteTable {
  import opened Babel
  import opened RouteEntry

  // ---- The scans over the candidate slots ----------------------------------------

  method ScanSelectable(e: Entry, hop: NodeId) returns (r: nat)
    ensures r == Selectable(e, hop)
  {
    if hop == INVALID_NODE {
      return SLOTS;
    }
    for i := 0 to SLOTS
      invariant Selectable(e, hop, i) == Selectable(e, hop)
    {
      if Usable(e, e.candidates[i]) && e.candidates[i].nextHop == hop {
        return i;
      }
    }
    r := SLOTS;
  }

  method ScanBest(e: Entry, exclude: NodeId) returns (chosen: nat)
    ensures chosen == Best(e, exclude)
  {
    chosen := SLOTS;
    for i := 0 to SLOTS
      invariant chosen <= SLOTS
      invariant chosen < SLOTS ==> Usable(e, e.candidates[chosen]) && e.candidates[chosen].nextHop != exclude
      invariant Best(e, exclude, i, chosen) == Best(e, exclude)
    {
      var c := e.candidates[i];
      if c.nextHop == exclude || !Usable(e, c) {
        continue;
      }
      if chosen == SLOTS || Preferred(c, e.candidates[chosen]) {
        chosen := i;
      }
    }
  }

  method ScanSlot(e: Entry, hop: NodeId) returns (r: nat)
    ensures r == Slot(e, hop)
  {
    var mine := (c: Candidate) => c.valid && c.nextHop == hop;
    for i := 0 to SLOTS
      invariant FirstSlot(e.candidates, mine, i) == FirstSlot(e.candidates, mine)
    {
      if e.candidates[i].valid && e.candidates[i].nextHop == hop {
        return i;
      }
    }
    var free := (c: Candidate) => !c.valid;
    for i := 0 to SLOTS
      invariant FirstSlot(e.candidates, free, i) == FirstSlot(e.candidates, free)
    {
      if !e.candidates[i].valid {
        return i;
      }
    }
    var stale := (c: Candidate) => !c.feasible || !Feasible(e.fd, c.sequence, c.advertised);
    for i := 0 to SLOTS
      invariant FirstSlot(e.candidates, stale, i) == FirstSlot(e.candidates, stale)
    {
      var c := e.candidates[i];
      if !c.feasible || !Feasible(e.fd, c.sequence, c.advertised) {
        return i;
      }
    }
    r := ScanWorst(e);
  }

  method ScanWorst(e: Entry) returns (worst: nat)
    ensures worst == Worst(e)
  {
    worst := 0;
    for i := 0 to SLOTS
      invariant worst < SLOTS && Worst(e, i, worst) == Worst(e)
    {
      if Displaces(e, i, worst) {
        worst := i;
      }
    }
  }

  method SelectSlot(e: Entry) returns (r: nat)
    ensures r == Select(e)
  {
    r := ScanSelectable(e, e.switch.committed);
    if r == SLOTS {
      r := ScanBest(e, INVALID_NODE);
    }
  }

  method EvaluateEntry(e: Entry, env: Env) returns (sw: Switch)
    ensures sw == Evaluate(e, env)
  {
    sw := e.switch;
    var current := ScanSelectable(e, sw.committed);
    if current == SLOTS {
      var wasCommitted := sw.committed != INVALID_NODE;
      var raw := ScanBest(e, INVALID_NODE);
      sw := sw.(committed := if raw < SLOTS then e.candidates[raw].nextHop else INVALID_NODE);
      if raw < SLOTS && wasCommitted {
        sw := sw.(holdUntil := env.now + SWITCH_HOLD_MS);
      }
      sw := sw.(improvementHop := INVALID_NODE);
      return;
    }
    if SeverelyBusy(env, sw.committed) {
      var alt := ScanBest(e, sw.committed);
      if alt < SLOTS && env.now >= sw.holdUntil && !SeverelyBusy(env, e.candidates[alt].nextHop) {
        sw := Commit(sw, e.candidates[alt].nextHop, env);
      }
      return;
    }
    var raw := ScanBest(e, INVALID_NODE);
    if raw == SLOTS || e.candidates[raw].nextHop == sw.committed {
      sw := sw.(improvementHop := INVALID_NODE);
      return;
    }
    var better, now := e.candidates[raw], e.candidates[current];
    if Newer(better.sequence, now.sequence) || Ambiguous(better.sequence, now.sequence) {
      sw := Commit(sw, better.nextHop, env);
    } else if better.advertised < now.advertised {
      if env.now >= sw.holdUntil {
        sw := Commit(sw, better.nextHop, env);
      }
    } else if !WorthSwitching(better, now) {
      sw := sw.(improvementHop := INVALID_NODE);
    } else if sw.improvementHop != better.nextHop {
      sw := sw.(improvementHop := better.nextHop, improvementSince := env.now);
    } else if Elapsed(env.now, sw.improvementSince) >= IMPROVEMENT_HOLD_MS + env.jitter && env.now >= sw.holdUntil {
      sw := Commit(sw, better.nextHop, env);
    }
  }

  // ---- The table -------------------------------------------------------------------

  /** What the switching discipline of one destination reads. */
  function EnvOf(busy: map<NodeId, nat>, self: NodeId, dest: NodeId, now: nat): Env {
    Env(now, busy, (self * 31 + dest * 17) % 0x1_0000_0000_0000_0000 % (IMPROVEMENT_JITTER_MS + 1))
  }

  /** Busy links remembered, one for each neighbour. */
  const BUSY_LINKS: nat := 32

  class RouteTable {
    const capacity: nat
    var entries: map<NodeId, Entry>
    var busy: map<NodeId, nat>
    var self: NodeId
    var dwell: nat

    ghost predicate Valid()
      reads this
    {
      |entries| <= capacity && INVALID_NODE !in entries
    }

    constructor (capacity: nat, self: NodeId)
      ensures Valid() && entries == map[] && busy == map[]
      ensures this.capacity == capacity && this.self == self && dwell == TOMBSTONE_DWELL_MS
    {
      this.capacity := capacity;
      entries, busy := map[], map[];
      this.self := self;
      dwell := TOMBSTONE_DWELL_MS;
    }

    method SetTombstoneDwell(lifetime: nat)
      modifies this`dwell
      ensures dwell == TombstoneDwell(lifetime) && dwell >= lifetime && dwell >= TOMBSTONE_DWELL_MS
    {
      dwell := if lifetime > TOMBSTONE_DWELL_MS then lifetime else TOMBSTONE_DWELL_MS;
    }

    method Consider(dest: NodeId, ad: Advert, hop: NodeId, cost: nat, now: nat, lifetime: nat) returns (r: Outcome)
      requires Valid()
      modifies this`entries
      ensures Valid()
      ensures dest == INVALID_NODE || hop == INVALID_NODE || cost == 0 || lifetime == 0
              || (dest !in old(entries) && ad.metric == INFINITE) ==>
                r == Ignored && entries == old(entries)
      ensures !(dest == INVALID_NODE || hop == INVALID_NODE || cost == 0 || lifetime == 0)
              && dest !in old(entries) && ad.metric != INFINITE && |old(entries)| >= capacity ==>
                r == NoCapacity && entries == old(entries)
      ensures !(dest == INVALID_NODE || hop == INVALID_NODE || cost == 0 || lifetime == 0)
              && (dest in old(entries) || (ad.metric != INFINITE && |old(entries)| < capacity)) ==>
                var e := if dest in old(entries) then old(entries)[dest] else NEW_ENTRY;
                var after := RouteEntry.Consider(e, ad, hop, cost, EnvOf(busy, self, dest, now), lifetime, dwell);
                entries == old(entries)[dest := after.0] && r == after.1
    {
      if dest == INVALID_NODE || hop == INVALID_NODE || cost == 0 || lifetime == 0 {
        return Ignored;
      }
      if dest !in entries {
        if ad.metric == INFINITE {
          return Ignored;
        }
        if |entries| >= capacity {
          return NoCapacity;
        }
      }
      var e := if dest in entries then entries[dest] else NEW_ENTRY;
      e, r := ConsiderEntry(e, ad, hop, cost, EnvOf(busy, self, dest, now), lifetime, dwell);
      assert entries[dest := e].Keys == entries.Keys + {dest};
      entries := entries[dest := e];
    }

    /** The part of consider that works on the entry found or allocated. */
    static method ConsiderEntry(e0: Entry, ad: Advert, hop: NodeId, cost: nat, env: Env, lifetime: nat, dwell: nat)
      returns (e: Entry, r: Outcome)
      ensures (e, r) == RouteEntry.Consider(e0, ad, hop, cost, env, lifetime, dwell)
    {
      e := e0;
      if ad.generation < e.generation {
        return e, StaleGeneration;
      }
      if ad.generation > e.generation {
        e := Restarted(e, ad.generation);
      }
      if ad.metric == INFINITE {
        e, r := WithdrawEntry(e, hop, env, dwell);
      } else if hop == e.holdNextHop && env.now < e.holdUntil {
        r := HeldDown;
      } else {
        e, r := LearnEntry(e, ad, hop, cost, env, lifetime);
      }
    }

    static method LearnEntry(e0: Entry, ad: Advert, hop: NodeId, cost: nat, env: Env, lifetime: nat)
      returns (e: Entry, r: Outcome)
      ensures (e, r) == Learn(e0, ad, hop, cost, env, lifetime)
    {
      var total := MetricAdd(ad.metric, cost);
      var feasible := total != INFINITE && Feasible(e0.fd, ad.sequence, ad.metric);
      var existed;
      e, existed := PlaceCandidate(e0, Candidate(hop, env.now + lifetime, ad.sequence, total, ad.metric, feasible, true));
      if feasible {
        e := e.(requestNeeded := false);
        r := if existed then Updated else Accepted;
      } else {
        var selected := SelectSlot(e);
        e := e.(requestNeeded := selected == SLOTS);
        r := Infeasible;
      }
      var sw := EvaluateEntry(e, env);
      e := e.(switch := sw);
    }

    /** The slot an update goes to, and whether its next hop was there before. */
    static method PlaceCandidate(e0: Entry, c: Candidate) returns (e: Entry, existed: bool)
      ensures e == e0.(candidates := e0.candidates[Slot(e0, c.nextHop) := c], tombstone := 0)
      ensures existed == (e0.candidates[Slot(e0, c.nextHop)].valid && e0.candidates[Slot(e0, c.nextHop)].nextHop == c.nextHop)
    {
      var slot := ScanSlot(e0, c.nextHop);
      existed := e0.candidates[slot].valid && e0.candidates[slot].nextHop == c.nextHop;
      e := e0.(candidates := e0.candidates[slot := c]);
      e := e.(tombstone := 0);
    }

    /** RouteTable::withdraw, with the outcome consider reports for it. */
    static method WithdrawEntry(e: Entry, hop: NodeId, env: Env, dwell: nat) returns (e': Entry, r: Outcome)
      ensures e' == RouteEntry.Withdraw(e, hop, env, dwell)
      ensures r == if Holds(e, hop) then Withdrawn else Ignored
    {
      e' := e;
      var removed := false;
      for i := 0 to SLOTS
        invariant e' == e.(candidates := e'.candidates)
        invariant forall j | 0 <= j < i :: e'.candidates[j] == Retract(e.candidates[j], hop)
        invariant forall j | i <= j < SLOTS :: e'.candidates[j] == e.candidates[j]
        invariant removed <==> exists j | 0 <= j < i :: e.candidates[j].valid && e.candidates[j].nextHop == hop
      {
        var c := e'.candidates[i];
        if c.valid && c.nextHop == hop {
          c := c.(feasible := false, metric := INFINITE, advertised := INFINITE);
          removed := true;
        }
        e' := e'.(candidates := e'.candidates[i := c]);
      }
      assert e'.candidates == RetractAll(e.candidates, hop);
      if !removed {
        assert e'.candidates == e.candidates;
        return e, Ignored;
      }
      e' := e'.(holdNextHop := hop, holdUntil := env.now + HOLD_DOWN_MS);
      e' := SettleEntry(e', env, dwell);
      r := Withdrawn;
    }

    static method SettleEntry(e: Entry, env: Env, dwell: nat) returns (e': Entry)
      ensures e' == Settle(e, env, dwell)
    {
      e' := e;
      var selected := SelectSlot(e);
      var armed := Armed(e, env.now, dwell);
      if selected == SLOTS {
        e' := e'.(requestNeeded := true);
      }
      e' := e'.(tombstone := armed);
      var sw := EvaluateEntry(e', env);
      e' := e'.(switch := sw);
    }

    method Withdraw(dest: NodeId, hop: NodeId, now: nat) returns (removed: bool)
      requires Valid()
      modifies this`entries
      ensures Valid()
      ensures removed <==> dest in old(entries) && Holds(old(entries)[dest], hop)
      ensures entries == if dest in old(entries)
                         then old(entries)[dest := RouteEntry.Withdraw(old(entries)[dest], hop, EnvOf(busy, self, dest, now), dwell)]
                         else old(entries)
    {
      if dest !in entries {
        return false;
      }
      var e, r := WithdrawEntry(entries[dest], hop, EnvOf(busy, self, dest, now), dwell);
      assert entries[dest := e].Keys == entries.Keys;
      entries := entries[dest := e];
      removed := r == Withdrawn;
    }

    /** Drops every candidate via a next hop, entry by entry. */
    method InvalidateNextHop(hop: NodeId, now: nat, hold: bool)
      requires Valid()
      modifies this`entries
      ensures Valid() && entries.Keys == old(entries).Keys
      ensures forall d | d in entries ::
                entries[d] == Invalidate(old(entries)[d], hop, hold, EnvOf(busy, self, d, now), dwell)
    {
      var todo := entries.Keys;
      while todo != {}
        invariant todo <= entries.Keys == old(entries).Keys
        invariant Valid()
        invariant forall d | d in todo :: entries[d] == old(entries)[d]
        invariant forall d | d in entries && d !in todo ::
                    entries[d] == Invalidate(old(entries)[d], hop, hold, EnvOf(busy, self, d, now), dwell)
        decreases todo
      {
        var d :| d in todo;
        var e := InvalidateEntry(entries[d], hop, hold, EnvOf(busy, self, d, now), dwell);
        assert entries[d := e].Keys == entries.Keys;
        entries := entries[d := e];
        todo := todo - {d};
      }
    }

    static method InvalidateEntry(e: Entry, hop: NodeId, hold: bool, env: Env, dwell: nat) returns (e': Entry)
      ensures e' == Invalidate(e, hop, hold, env, dwell)
    {
      e' := e;
      var removed := false;
      for i := 0 to SLOTS
        invariant e' == e.(candidates := e'.candidates)
        invariant forall j | 0 <= j < i :: e'.candidates[j] == Drop(e.candidates[j], hop)
        invariant forall j | i <= j < SLOTS :: e'.candidates[j] == e.candidates[j]
        invariant removed <==> exists j | 0 <= j < i :: e.candidates[j].valid && e.candidates[j].nextHop == hop
      {
        if e'.candidates[i].valid && e'.candidates[i].nextHop == hop {
          e' := e'.(candidates := e'.candidates[i := NO_CANDIDATE]);
          removed := true;
        }
      }
      assert e'.candidates == DropAll(e.candidates, hop);
      if !hold && e'.holdNextHop == hop {
        e' := e'.(holdNextHop := INVALID_NODE, holdUntil := 0);
      }
      if removed {
        if hold {
          e' := e'.(holdNextHop := hop, holdUntil := env.now + HOLD_DOWN_MS);
        }
        e' := SettleEntry(e', env, dwell);
      }
    }

    /** Forgets entries whose tombstone is due, then drops lapsed leases. */
    method Expire(now: nat)
      requires Valid()
      modifies this`entries
      ensures Valid()
      ensures entries.Keys == set d | d in old(entries) && !Dead(old(entries)[d], now)
      ensures forall d | d in entries :: entries[d] == RouteEntry.Expire(old(entries)[d], EnvOf(busy, self, d, now), dwell)
    {
      ForgetDead(now);
      LapseLeases(now);
    }

    method ForgetDead(now: nat)
      requires Valid()
      modifies this`entries
      ensures Valid()
      ensures entries == map d | d in old(entries) && !Dead(old(entries)[d], now) :: old(entries)[d]
    {
      var todo := entries.Keys;
      while todo != {}
        invariant todo <= entries.Keys <= old(entries).Keys
        invariant Valid()
        invariant forall d | d in entries :: entries[d] == old(entries)[d]
        invariant forall d | d in old(entries) && d !in todo :: d in entries <==> !Dead(old(entries)[d], now)
        decreases todo
      {
        var d :| d in todo;
        if Dead(entries[d], now) {
          KeysShrink(entries, entries - {d});
          entries := entries - {d};
        }
        todo := todo - {d};
      }
    }

    method LapseLeases(now: nat)
      requires Valid()
      modifies this`entries
      ensures Valid() && entries.Keys == old(entries).Keys
      ensures forall d | d in entries :: entries[d] == RouteEntry.Expire(old(entries)[d], EnvOf(busy, self, d, now), dwell)
    {
      var todo := entries.Keys;
      while todo != {}
        invariant todo <= entries.Keys == old(entries).Keys
        invariant Valid()
        invariant forall d | d in todo :: entries[d] == old(entries)[d]
        invariant forall d | d in entries && d !in todo ::
                    entries[d] == RouteEntry.Expire(old(entries)[d], EnvOf(busy, self, d, now), dwell)
        decreases todo
      {
        var d :| d in todo;
        var e := ExpireEntry(entries[d], EnvOf(busy, self, d, now), dwell);
        assert entries[d := e].Keys == entries.Keys;
        entries := entries[d := e];
        todo := todo - {d};
      }
    }

    static method ExpireEntry(e: Entry, env: Env, dwell: nat) returns (e': Entry)
      ensures e' == RouteEntry.Expire(e, env, dwell)
    {
      e' := e;
      var removed := false;
      for i := 0 to SLOTS
        invariant e' == e.(candidates := e'.candidates)
        invariant forall j | 0 <= j < i :: e'.candidates[j] == Lapse(e.candidates[j], env.now)
        invariant forall j | i <= j < SLOTS :: e'.candidates[j] == e.candidates[j]
        invariant removed <==> exists j | 0 <= j < i :: e.candidates[j].valid && e.candidates[j].expiresAt <= env.now
      {
        if e'.candidates[i].valid && e'.candidates[i].expiresAt <= env.now {
          e' := e'.(candidates := e'.candidates[i := NO_CANDIDATE]);
          removed := true;
        }
      }
      assert e'.candidates == LapseAll(e.candidates, env.now);
      if removed {
        e' := SettleEntry(e', env, dwell);
      } else {
        e' := e'.(tombstone := Armed(e', env.now, dwell));
      }
    }

    /** Recomputes every candidate via a next hop from its stored advertised metric. */
    method UpdateLinkCost(hop: NodeId, cost: nat, now: nat) returns (touched: bool)
      requires Valid()
      modifies this`entries
      ensures Valid() && entries.Keys == old(entries).Keys
      ensures hop == INVALID_NODE || cost == 0 ==> !touched && entries == old(entries)
      ensures hop != INVALID_NODE && cost != 0 ==>
                && (touched <==> exists d | d in old(entries) :: Holds(old(entries)[d], hop))
                && forall d | d in entries :: entries[d] == UpdateCost(old(entries)[d], hop, cost, EnvOf(busy, self, d, now))
    {
      touched := false;
      if hop == INVALID_NODE || cost == 0 {
        return;
      }
      var todo := entries.Keys;
      while todo != {}
        invariant todo <= entries.Keys == old(entries).Keys
        invariant Valid()
        invariant forall d | d in todo :: entries[d] == old(entries)[d]
        invariant forall d | d in entries && d !in todo ::
                    entries[d] == UpdateCost(old(entries)[d], hop, cost, EnvOf(busy, self, d, now))
        invariant touched <==> exists d | d in old(entries) && d !in todo :: Holds(old(entries)[d], hop)
        decreases todo
      {
        var d :| d in todo;
        var e, changed := RecostEntry(entries[d], hop, cost, EnvOf(busy, self, d, now));
        assert entries[d := e].Keys == entries.Keys;
        entries := entries[d := e];
        touched := touched || changed;
        todo := todo - {d};
      }
    }

    static method RecostEntry(e: Entry, hop: NodeId, cost: nat, env: Env) returns (e': Entry, changed: bool)
      ensures e' == UpdateCost(e, hop, cost, env)
      ensures changed <==> Holds(e, hop)
    {
      e' := e;
      changed := false;
      for i := 0 to SLOTS
        invariant e' == e.(candidates := e'.candidates)
        invariant forall j | 0 <= j < i :: e'.candidates[j] == Recost(e, e.candidates[j], hop, cost)
        invariant forall j | i <= j < SLOTS :: e'.candidates[j] == e.candidates[j]
        invariant changed <==> exists j | 0 <= j < i :: e.candidates[j].valid && e.candidates[j].nextHop == hop
      {
        var c := e'.candidates[i];
        if c.valid && c.nextHop == hop {
          c := c.(metric := MetricAdd(c.advertised, cost));
          c := c.(feasible := c.metric != INFINITE && Feasible(e'.fd, c.sequence, c.advertised));
          changed := true;
        }
        e' := e'.(candidates := e'.candidates[i := c]);
      }
      assert e'.candidates == RecostAll(e, hop, cost);
      if changed {
        var sw := EvaluateEntry(e', env);
        e' := e'.(switch := sw);
      } else {
        assert e'.candidates == e.candidates;
      }
    }

    /** Re-evaluates the switch policy of every entry. */
    method Evaluate(now: nat)
      requires Valid()
      modifies this`entries
      ensures Valid() && entries.Keys == old(entries).Keys
      ensures forall d | d in entries ::
                entries[d] == old(entries)[d].(switch := RouteEntry.Evaluate(old(entries)[d], EnvOf(busy, self, d, now)))
    {
      var todo := entries.Keys;
      while todo != {}
        invariant todo <= entries.Keys == old(entries).Keys
        invariant Valid()
        invariant forall d | d in todo :: entries[d] == old(entries)[d]
        invariant forall d | d in entries && d !in todo ::
                    entries[d] == old(entries)[d].(switch := RouteEntry.Evaluate(old(entries)[d], EnvOf(busy, self, d, now)))
        decreases todo
      {
        var d :| d in todo;
        var sw := EvaluateEntry(entries[d], EnvOf(busy, self, d, now));
        var e := entries[d].(switch := sw);
        assert entries[d := e].Keys == entries.Keys;
        entries := entries[d := e];
        todo := todo - {d};
      }
    }

    /** A bounded table of busy links: a report that finds it full is dropped. One that is
        kept makes this hop severely busy from two seconds after it began, for every
        destination, and concerns no other hop. */
    method NoteNextHopBusy(hop: NodeId, since: nat)
      requires Valid()
      modifies this`busy
      ensures Valid()
      ensures var kept := hop != INVALID_NODE && (hop in old(busy) || |old(busy)| < BUSY_LINKS);
              && busy == (if kept then old(busy)[hop := since] else old(busy))
              && forall h, d, now :: SeverelyBusy(EnvOf(busy, self, d, now), h) <==>
                   if h == hop && kept then Elapsed(now, since) >= SEVERE_BUSY_MS
                   else SeverelyBusy(EnvOf(old(busy), self, d, now), h)
    {
      if hop == INVALID_NODE || (hop !in busy && |busy| >= BUSY_LINKS) {
        return;
      }
      busy := busy[hop := since];
    }

    /** The hop is busy for no destination until it is reported again. */
    method ClearNextHopBusy(hop: NodeId)
      requires Valid()
      modifies this`busy
      ensures Valid() && busy == old(busy) - {hop}
      ensures forall h, d, now :: SeverelyBusy(EnvOf(busy, self, d, now), h) <==>
                h != hop && SeverelyBusy(EnvOf(old(busy), self, d, now), h)
    {
      busy := busy - {hop};
    }

    method MarkAdvertised(dest: NodeId) returns (advertised: bool)
      requires Valid()
      modifies this`entries
      ensures Valid()
      ensures advertised <==> dest in old(entries) && Select(old(entries)[dest]) < SLOTS
      ensures entries == if dest in old(entries) then old(entries)[dest := RouteEntry.MarkAdvertised(old(entries)[dest])]
                         else old(entries)
    {
      if dest !in entries {
        return false;
      }
      var e := entries[dest];
      var s := SelectSlot(e);
      if s == SLOTS {
        assert entries[dest := e] == entries;
        return false;
      }
      var c := e.candidates[s];
      if e.fd.Unset? {
        e := e.(fd := Distance(c.sequence, c.metric));
      } else if Newer(c.sequence, e.fd.sequence)
                || (!Ambiguous(c.sequence, e.fd.sequence) && SameSequence(c.sequence, e.fd.sequence)
                    && c.metric < e.fd.metric) {
        e := e.(fd := Distance(c.sequence, c.metric));
      }
      assert entries[dest := e].Keys == entries.Keys;
      entries := entries[dest := e];
      advertised := true;
    }

    /** Releases the entry whose tombstone is due soonest, dropping its distance early.
        Live entries are never victims. */
    method ReclaimTombstone() returns (released: bool)
      requires Valid()
      modifies this`entries
      ensures Valid()
      ensures released <==> exists d | d in old(entries) :: old(entries)[d].tombstone != 0
      ensures !released ==> entries == old(entries)
      ensures released ==> exists d | d in old(entries) && old(entries)[d].tombstone != 0 ::
                && entries == old(entries) - {d}
                && forall x | x in old(entries) && old(entries)[x].tombstone != 0 ::
                     old(entries)[d].tombstone <= old(entries)[x].tombstone
    {
      var todo := entries.Keys;
      var oldest := INVALID_NODE;
      while todo != {}
        invariant todo <= entries.Keys
        invariant oldest != INVALID_NODE ==> oldest in entries && entries[oldest].tombstone != 0
        invariant oldest == INVALID_NODE ==> forall d | d in entries && d !in todo :: entries[d].tombstone == 0
        invariant forall d | d in entries && d !in todo && entries[d].tombstone != 0 ::
                    oldest != INVALID_NODE && entries[oldest].tombstone <= entries[d].tombstone
        decreases todo
      {
        var d :| d in todo;
        if entries[d].tombstone != 0 && (oldest == INVALID_NODE || entries[d].tombstone < entries[oldest].tombstone) {
          oldest := d;
        }
        todo := todo - {d};
      }
      released := oldest != INVALID_NODE;
      if released {
        KeysShrink(entries, entries - {oldest});
        entries := entries - {oldest};
      }
    }

    method Best(dest: NodeId) returns (hop: NodeId)
      ensures hop == if dest in entries && Select(entries[dest]) < SLOTS
                     then entries[dest].candidates[Select(entries[dest])].nextHop else INVALID_NODE
    {
      if dest !in entries {
        return INVALID_NODE;
      }
      var s := SelectSlot(entries[dest]);
      hop := if s == SLOTS then INVALID_NODE else entries[dest].candidates[s].nextHop;
    }
  }

  lemma KeysShrink<K, V>(m: map<K, V>, m': map<K, V>)
    requires m'.Keys <= m.Keys
    ensures |m'| <= |m|
  {
    SubsetSize(m'.Keys, m.Keys);
  }

  lemma {:induction false} SubsetSize<K>(a: set<K>, b: set<K>)
    requires a <= b
    ensures |a| <= |b|
  {
    if a != {} {
      var x :| x in a;
      SubsetSize(a - {x}, b - {x});
    }
  }
}
