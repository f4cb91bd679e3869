/** What selection, eviction and the switching discipline promise. */
module RouteSelection {
  import opened Basics
  import opened Babel
  import opened RouteEntry

  // ---- Agreement with the executable contract -----------------------------------

  /** The device's feasibility, distance update and metric sum are the contract's, on
      every finite metric for which the contract does not raise. They differ on the
      infinite metric: the contract calls every retraction feasible and never lets one
      change a distance, the device judges it like any other record. */
  lemma DeviceMeetsContract(fd: Distance, sequence: nat, metric: nat, cost: nat)
    requires metric <= INFINITE && 0 < cost <= INFINITE && sequence < SEQ_MOD
    requires fd.Distance? ==> fd.sequence < SEQ_MOD && fd.metric <= INFINITE
    requires metric < INFINITE && fd.Distance? ==> !Ambiguous(sequence, fd.sequence)
    ensures ContractFeasible(sequence, metric, fd) == Ok(Feasible(fd, sequence, metric)) <==>
              metric < INFINITE || (fd.Distance? && Newer(sequence, fd.sequence))
    ensures ContractAdvertise(sequence, metric, fd) == Ok(Advertised(fd, sequence, metric)) <==>
              metric < INFINITE || (fd.Distance? && !Newer(sequence, fd.sequence))
    ensures ContractMetricAdd(metric, cost) == Ok(MetricAdd(metric, cost))
  {
    if fd.Distance? {
      DeltaIsDifference(sequence, fd.sequence);
    }
  }

  // ---- Selection -----------------------------------------------------------------

  /** Every two usable candidates can be ordered by their sequences. */
  ghost predicate Comparable(e: Entry) {
    forall i, j | 0 <= i < SLOTS && 0 <= j < SLOTS && Usable(e, e.candidates[i]) && Usable(e, e.candidates[j]) ::
      Near(e.candidates[i].sequence, e.candidates[j].sequence)
  }

  /** c is at least as good a route as d: newer, or as new and no dearer. */
  predicate Dominates(c: Candidate, d: Candidate) {
    c.sequence > d.sequence || (c.sequence == d.sequence && c.metric <= d.metric)
  }

  /** The scan ends on a usable candidate that dominates every other one, and ends
      empty-handed only when nothing is usable. */
  lemma BestDominates(e: Entry, exclude: NodeId)
    requires Comparable(e)
    ensures var b := Best(e, exclude);
            forall j | 0 <= j < SLOTS && Usable(e, e.candidates[j]) && e.candidates[j].nextHop != exclude ::
              b < SLOTS && Dominates(e.candidates[b], e.candidates[j])
  {
    BestDominatesFrom(e, exclude, 0, SLOTS);
  }

  /** Of two near candidates the scan keeps one that dominates the other. */
  lemma PreferredDominates(c: Candidate, d: Candidate)
    requires Near(c.sequence, d.sequence)
    ensures if Preferred(c, d) then Dominates(c, d) else Dominates(d, c)
  {
    WindowOrder(c.sequence, d.sequence);
  }

  lemma {:induction false} BestDominatesFrom(e: Entry, exclude: NodeId, i: nat, chosen: nat)
    requires Comparable(e) && i <= SLOTS && chosen <= SLOTS
    requires chosen < SLOTS ==> Usable(e, e.candidates[chosen]) && e.candidates[chosen].nextHop != exclude
    ensures var b := Best(e, exclude, i, chosen);
            && (chosen < SLOTS ==> b < SLOTS && Dominates(e.candidates[b], e.candidates[chosen]))
            && forall j | i <= j < SLOTS && Usable(e, e.candidates[j]) && e.candidates[j].nextHop != exclude ::
                 b < SLOTS && Dominates(e.candidates[b], e.candidates[j])
    decreases SLOTS - i
  {
    if i < SLOTS {
      var c := e.candidates[i];
      if c.nextHop == exclude || !Usable(e, c) {
        BestDominatesFrom(e, exclude, i + 1, chosen);
      } else {
        var next := if chosen == SLOTS || Preferred(c, e.candidates[chosen]) then i else chosen;
        if chosen < SLOTS {
          PreferredDominates(c, e.candidates[chosen]);
        }
        BestDominatesFrom(e, exclude, i + 1, next);
      }
    }
  }

  /** A settled entry forwards to its committed hop exactly when anything is usable. */
  predicate Settled(e: Entry) {
    if e.switch.committed == INVALID_NODE then Best(e, INVALID_NODE) == SLOTS
    else Selectable(e, e.switch.committed) < SLOTS
  }

  /** A candidate in use names its next hop; consider refuses the invalid id. */
  predicate HopsNamed(e: Entry) {
    forall i | 0 <= i < SLOTS && e.candidates[i].valid :: e.candidates[i].nextHop != INVALID_NODE
  }

  /** Every evaluation settles the entry: recovery is immediate, and nothing
      unusable is ever committed. */
  lemma EvaluateSettles(e: Entry, env: Env)
    requires HopsNamed(e)
    ensures Settled(Evaluated(e, env))
  {
    var e' := Evaluated(e, env);
    SameRoutesSelect(e, e', e'.switch.committed);
    CommitsFound(e, env);
  }

  /** An evaluation keeps a usable hop, takes the best one or the best other one, or finds none. */
  lemma EvaluateChoices(e: Entry, env: Env)
    ensures var hop, raw, alt := Evaluate(e, env).committed, Best(e, INVALID_NODE), Best(e, e.switch.committed);
            || (hop == e.switch.committed && Found(e, hop))
            || (raw < SLOTS && hop == e.candidates[raw].nextHop)
            || (alt < SLOTS && hop == e.candidates[alt].nextHop)
            || (raw == SLOTS && hop == INVALID_NODE)
  {
  }

  lemma CommitsFound(e: Entry, env: Env)
    requires HopsNamed(e)
    ensures var hop := Evaluate(e, env).committed;
            if hop == INVALID_NODE then Best(e, INVALID_NODE) == SLOTS else Found(e, hop)
  {
    EvaluateChoices(e, env);
    var raw, alt := Best(e, INVALID_NODE), Best(e, e.switch.committed);
    if raw < SLOTS {
      FoundAt(e, raw);
    }
    if alt < SLOTS {
      FoundAt(e, alt);
    }
  }

  predicate Found(e: Entry, hop: NodeId) {
    Selectable(e, hop) < SLOTS
  }

  lemma FoundAt(e: Entry, i: nat)
    requires i < SLOTS && Usable(e, e.candidates[i]) && e.candidates[i].nextHop != INVALID_NODE
    ensures Found(e, e.candidates[i].nextHop)
  {
    var hop := e.candidates[i].nextHop;
    assert exists j | 0 <= j < SLOTS :: Usable(e, e.candidates[j]) && e.candidates[j].nextHop == hop;
  }

  /** Selection reads the candidates and the distance, not the switch state. */
  lemma SameRoutesSelect(e: Entry, e': Entry, hop: NodeId)
    requires e' == e.(switch := e'.switch)
    ensures Selectable(e', hop) == Selectable(e, hop)
    ensures Best(e', INVALID_NODE) == Best(e, INVALID_NODE)
  {
    BestSame(e, e', INVALID_NODE, 0, SLOTS);
  }

  lemma {:induction false} BestSame(e: Entry, e': Entry, exclude: NodeId, i: nat, chosen: nat)
    requires e' == e.(switch := e'.switch) && i <= SLOTS && chosen <= SLOTS
    requires chosen < SLOTS ==> Usable(e, e.candidates[chosen]) && e.candidates[chosen].nextHop != exclude
    ensures Best(e', exclude, i, chosen) == Best(e, exclude, i, chosen)
    decreases SLOTS - i
  {
    if i < SLOTS {
      BestSame(e, e', exclude, i + 1, chosen);
      if e.candidates[i].nextHop != exclude && Usable(e, e.candidates[i]) {
        BestSame(e, e', exclude, i + 1, i);
      }
    }
  }

  /** Advertising a route never makes it infeasible: the route a settled entry
      advertised is the route it still forwards to. Positive link costs are what
      this rests on. */
  lemma AdvertiseKeepsRoute(e: Entry)
    requires Settled(e) && PositiveCosts(e) && Select(e) < SLOTS
    requires e.fd.Distance? ==> Near(e.candidates[Select(e)].sequence, e.fd.sequence)
    ensures Settled(MarkAdvertised(e))
    ensures MarkAdvertised(e).candidates[Select(MarkAdvertised(e))].nextHop == e.candidates[Select(e)].nextHop
  {
    var s := Select(e);
    var e' := MarkAdvertised(e);
    var c := e.candidates[s];
    WindowOrder(c.sequence, c.sequence);
    if e.fd.Distance? {
      WindowOrder(c.sequence, e.fd.sequence);
    }
    assert Usable(e', e'.candidates[s]);
    assert e.switch.committed == c.nextHop != INVALID_NODE;
    FoundAt(e', s);
  }

  // ---- Eviction --------------------------------------------------------------------

  /** The slot for a next hop: its own if it has one; otherwise a free one; otherwise
      an infeasible one; a feasible route is evicted only when all are feasible, and
      the committed one only when no other hop is held. */
  lemma SlotSparesRoutes(e: Entry, hop: NodeId)
    ensures var s := Slot(e, hop);
            && (Holds(e, hop) ==> e.candidates[s].valid && e.candidates[s].nextHop == hop)
            && (!Holds(e, hop) && (exists i | 0 <= i < SLOTS :: !e.candidates[i].valid) ==> !e.candidates[s].valid)
            && (!Holds(e, hop) && Usable(e, e.candidates[s]) ==> forall i | 0 <= i < SLOTS ::
                  e.candidates[i].valid && e.candidates[i].feasible
                  && Feasible(e.fd, e.candidates[i].sequence, e.candidates[i].advertised))
            && (!Holds(e, hop) && Usable(e, e.candidates[s]) && e.candidates[s].nextHop == e.switch.committed ==>
                  forall i | 0 <= i < SLOTS :: e.candidates[i].nextHop == e.switch.committed)
  {
    WorstSparesCommitted(e, 0, 0);
  }

  lemma {:induction false} WorstSparesCommitted(e: Entry, i: nat, worst: nat)
    requires i <= SLOTS && worst < SLOTS
    ensures e.candidates[Worst(e, i, worst)].nextHop == e.switch.committed ==>
              && e.candidates[worst].nextHop == e.switch.committed
              && forall j | i <= j < SLOTS :: e.candidates[j].nextHop == e.switch.committed
    decreases SLOTS - i
  {
    if i < SLOTS {
      WorstSparesCommitted(e, i + 1, if Displaces(e, i, worst) then i else worst);
    }
  }

  // ---- What the table does to a destination ------------------------------------------

  datatype Operation =
    | HearRecord(ad: Advert, from: NodeId, cost: nat, lifetime: nat)
    | RetractHop(hop: NodeId)
    | LoseHop(hop: NodeId, hold: bool)
    | Reprice(hop: NodeId, cost: nat)
    | Sweep
    | Reevaluate
    | MarkSent
    | Reclaim

  /** An entry that stays. */
  function Touch(e: Entry, op: Operation, env: Env, dwell: nat): Entry {
    match op
    case HearRecord(ad, from, cost, lifetime) => Consider(e, ad, from, cost, env, lifetime, dwell).0
    case RetractHop(hop) => Withdraw(e, hop, env, dwell)
    case LoseHop(hop, hold) => Invalidate(e, hop, hold, env, dwell)
    case Reprice(hop, cost) => UpdateCost(e, hop, cost, env)
    case Sweep => Expire(e, env, dwell)
    case Reevaluate => Evaluated(e, env)
    case MarkSent => MarkAdvertised(e)
    case Reclaim => e
  }

  /** What the table refuses to look at. */
  predicate Malformed(op: Operation) {
    || (op.HearRecord? && (op.from == INVALID_NODE || op.cost == 0 || op.lifetime == 0))
    || (op.Reprice? && (op.hop == INVALID_NODE || op.cost == 0))
  }

  /** A sweep finds the tombstone due, or a full table reclaims it. */
  predicate Forgets(e: Entry, op: Operation, now: nat) {
    (op.Sweep? && Dead(e, now)) || (op.Reclaim? && e.tombstone != 0)
  }

  /** The entry of a destination, if it has one: a finite record allocates it, a sweep of
      a due tombstone or a reclaim releases it. */
  function Act(cell: Option<Entry>, op: Operation, env: Env, dwell: nat): Option<Entry> {
    if Malformed(op) then cell
    else match cell
      case None => if op.HearRecord? && op.ad.metric != INFINITE then Some(Touch(NEW_ENTRY, op, env, dwell)) else None
      case Some(e) => if Forgets(e, op, env.now) then None else Some(Touch(e, op, env, dwell))
  }

  function ActAll(cell: Option<Entry>, ops: seq<(Operation, Env)>, dwell: nat): Option<Entry>
    decreases |ops|
  {
    if ops == [] then cell else ActAll(Act(cell, ops[0].0, ops[0].1, dwell), ops[1..], dwell)
  }

  // ---- Retraction ------------------------------------------------------------------

  /** No finite record of this neighbour is heard. */
  predicate Silent(op: Operation, hop: NodeId) {
    op.HearRecord? && op.from == hop ==> op.ad.metric == INFINITE
  }

  predicate Retracted(cs: Candidates, hop: NodeId) {
    forall i | 0 <= i < SLOTS && cs[i].valid && cs[i].nextHop == hop ::
      cs[i].metric == INFINITE && cs[i].advertised == INFINITE
  }

  lemma ThinningKeepsRetracted(e: Entry, other: NodeId, cost: nat, now: nat, hop: NodeId)
    requires Retracted(e.candidates, hop)
    ensures Retracted(RetractAll(e.candidates, other), hop) && Retracted(DropAll(e.candidates, other), hop)
    ensures Retracted(LapseAll(e.candidates, now), hop) && Retracted(RecostAll(e, other, cost), hop)
  {
  }

  lemma HearKeepsRetracted(e: Entry, ad: Advert, from: NodeId, cost: nat, env: Env, lifetime: nat, dwell: nat, hop: NodeId)
    requires Retracted(e.candidates, hop) && (from == hop ==> ad.metric == INFINITE)
    ensures Retracted(Consider(e, ad, from, cost, env, lifetime, dwell).0.candidates, hop)
  {
    var e1 := if ad.generation > e.generation then Restarted(e, ad.generation) else e;
    ThinningKeepsRetracted(e1, from, cost, env.now, hop);
  }

  lemma TouchKeepsRetracted(e: Entry, op: Operation, env: Env, dwell: nat, hop: NodeId)
    requires Retracted(e.candidates, hop) && Silent(op, hop)
    ensures Retracted(Touch(e, op, env, dwell).candidates, hop)
  {
    match op
    case HearRecord(ad, from, cost, lifetime) => HearKeepsRetracted(e, ad, from, cost, env, lifetime, dwell, hop);
    case RetractHop(other) => ThinningKeepsRetracted(e, other, 0, env.now, hop);
    case LoseHop(other, _) => ThinningKeepsRetracted(e, other, 0, env.now, hop);
    case Reprice(other, cost) => ThinningKeepsRetracted(e, other, cost, env.now, hop);
    case Sweep => ThinningKeepsRetracted(e, hop, 0, env.now, hop);
    case Reevaluate =>
    case MarkSent =>
    case Reclaim =>
  }

  lemma {:induction false} ActAllKeepsRetracted(cell: Option<Entry>, ops: seq<(Operation, Env)>, dwell: nat, hop: NodeId)
    requires cell.Some? ==> Retracted(cell.value.candidates, hop)
    requires forall op | op in ops :: Silent(op.0, hop)
    ensures var after := ActAll(cell, ops, dwell); after.Some? ==> Retracted(after.value.candidates, hop)
    decreases |ops|
  {
    if ops != [] {
      assert ops[0] in ops;
      TouchKeepsRetracted(if cell.Some? then cell.value else NEW_ENTRY, ops[0].0, ops[0].1, dwell, hop);
      ActAllKeepsRetracted(Act(cell, ops[0].0, ops[0].1, dwell), ops[1..], dwell, hop);
    }
  }

  /** A retracted neighbour stays retracted: whatever is refreshed, lost, swept,
      advertised, forgotten or heard from others afterwards, only a finite record of its
      own makes a candidate through it usable again. */
  lemma RetractionIsFinal(e: Entry, hop: NodeId, env: Env, dwell: nat, ops: seq<(Operation, Env)>)
    requires forall op | op in ops :: Silent(op.0, hop)
    ensures var cell := ActAll(Some(Withdraw(e, hop, env, dwell)), ops, dwell);
            cell.Some? ==> forall i | 0 <= i < SLOTS && cell.value.candidates[i].nextHop == hop ::
                             !Usable(cell.value, cell.value.candidates[i])
  {
    ActAllKeepsRetracted(Some(Withdraw(e, hop, env, dwell)), ops, dwell, hop);
  }

  // ---- Busy next hops ----------------------------------------------------------------

  /** Busy reports move a route off a severely busy hop, once the post-switch hold is
      over and the best other hop is not severely busy itself; that other hop is usable
      and dominates every candidate not through the busy one. */
  lemma BusyHopIsLeft(e: Entry, env: Env)
    requires Comparable(e) && Found(e, e.switch.committed) && SeverelyBusy(env, e.switch.committed)
    ensures var hop, b := Evaluate(e, env).committed, Best(e, e.switch.committed);
            && (hop != e.switch.committed <==>
                  env.now >= e.switch.holdUntil && b < SLOTS && !SeverelyBusy(env, e.candidates[b].nextHop))
            && (hop != e.switch.committed ==>
                  && !SeverelyBusy(env, hop)
                  && exists i | 0 <= i < SLOTS :: e.candidates[i].nextHop == hop && Usable(e, e.candidates[i])
                       && forall j | 0 <= j < SLOTS && Usable(e, e.candidates[j])
                                     && e.candidates[j].nextHop != e.switch.committed ::
                            Dominates(e.candidates[i], e.candidates[j]))
  {
    BestDominates(e, e.switch.committed);
  }

  /** No other report matters: what an evaluation does depends on the reports only
      through whether the committed hop and the best other hop are severely busy. */
  lemma OnlySevereReportsMatter(e: Entry, env: Env, env': Env)
    requires env' == env.(busy := env'.busy)
    requires SeverelyBusy(env', e.switch.committed) <==> SeverelyBusy(env, e.switch.committed)
    requires var b := Best(e, e.switch.committed);
             b < SLOTS ==> (SeverelyBusy(env', e.candidates[b].nextHop) <==> SeverelyBusy(env, e.candidates[b].nextHop))
    ensures Evaluate(e, env') == Evaluate(e, env)
  {
  }
}
