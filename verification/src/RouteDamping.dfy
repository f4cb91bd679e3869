/** How far load can move a route: the damping of the switching discipline. */
module RouteDamping {
  // Over every run of what the table does to one destination, from the record that
  // allocates its entry through forgetting and learning it again.

  import opened Basics
  import opened Babel
  import opened RouteEntry
  import opened RouteSelection

  // ---- Runs ------------------------------------------------------------------------

  datatype Event = Event(op: Operation, env: Env)

  type Cell = Option<Entry>

  /** What one event makes of the entry. */
  predicate Follows(was: Cell, event: Event, dwell: nat, now: Cell) {
    match event case Event(op, env) => now == Act(was, op, env, dwell)
  }

  /** cells are the entry before and after each event, none being there at first. */
  ghost predicate IsRun(events: seq<Event>, dwell: nat, cells: seq<Cell>) {
    && |cells| == |events| + 1 && cells[0] == None
    && (forall k | 0 <= k < |events| :: Follows(cells[k], events[k], dwell, cells[k + 1]))
    && (forall i, j | 0 <= i <= j < |events| :: events[i].env.now <= events[j].env.now)
  }

  /** The step from e to e' left a next hop that still works, for a route that is not
      fresher: a switch that repairs nothing. */
  predicate LoadSwitch(e: Entry, e': Entry) {
    match e'
    case Entry(_, candidates, _, _, _, _, switch, _) =>
      var current, best := Selectable(e', e.switch.committed), Best(e', INVALID_NODE);
      && current < SLOTS
      && switch.committed != e.switch.committed
      && !(best < SLOTS && (Newer(candidates[best].sequence, candidates[current].sequence)
                            || Ambiguous(candidates[best].sequence, candidates[current].sequence)))
  }

  predicate Switches(was: Cell, now: Cell) {
    was.Some? && now.Some? && LoadSwitch(was.value, now.value)
  }

  /** The origin started a newer generation. */
  predicate Restarts(was: Cell, now: Cell) {
    was.Some? && now.Some? && now.value.generation > was.value.generation
  }

  predicate Reclaims(was: Cell, event: Event, now: Cell) {
    event.op.Reclaim? && was.Some? && now.None?
  }

  /** Event k neither starts a newer generation nor reclaims the entry. */
  predicate Undisturbed(was: Cell, event: Event, now: Cell) {
    !Restarts(was, now) && !Reclaims(was, event, now)
  }

  // ---- Evaluations are all that moves the switch state --------------------------------

  /** The switch state of e' is that of e, or the evaluation of e' with that of e, or
      belongs to a newer generation. */
  predicate Carries(e: Entry, e': Entry, env: Env) {
    match e'
    case Entry(generation, _, _, _, _, _, switch, _) =>
      || generation > e.generation
      || (generation == e.generation && (switch == e.switch || switch == Evaluate(e'.(switch := e.switch), env)))
  }

  /** Every operation on an entry that stays leaves its switch state, evaluates it, or
      starts a newer generation. */
  lemma OperationsCarry(e: Entry, op: Operation, env: Env, dwell: nat)
    ensures Carries(e, Touch(e, op, env, dwell), env)
  {
  }

  // ---- The hold ------------------------------------------------------------------------

  lemma EvaluateWaits(was: Entry, env: Env)
    requires LoadSwitch(was, Evaluated(was, env))
    ensures env.now >= was.switch.holdUntil
    ensures Evaluate(was, env).holdUntil == env.now + SWITCH_HOLD_MS
  {
    SameRoutesSelect(was, Evaluated(was, env), was.switch.committed);
  }

  /** Such a switch waits for the hold of the last one and starts a new one. */
  lemma SwitchWaits(e: Entry, e': Entry, env: Env)
    requires Carries(e, e', env) && LoadSwitch(e, e') && e'.generation == e.generation
    ensures env.now >= e.switch.holdUntil && e'.switch.holdUntil == env.now + SWITCH_HOLD_MS
  {
    var was := e'.(switch := e.switch);
    assert Evaluated(was, env) == e';
    EvaluateWaits(was, env);
  }

  /** A tombstone stands only where no candidate is left. */
  predicate Tidy(e: Entry) {
    e.tombstone != 0 ==> !HasCandidates(e)
  }

  /** An operation leaves the tombstone, clears it, or arms it now. */
  lemma TouchTombstone(e: Entry, op: Operation, env: Env, dwell: nat)
    requires Tidy(e) && !Malformed(op)
    ensures var e' := Touch(e, op, env, dwell);
            && Tidy(e')
            && (e'.tombstone == e.tombstone || e'.tombstone == 0 || e'.tombstone == env.now + dwell)
  {
    match op
    case HearRecord(ad, from, cost, lifetime) => ConsiderSteps(e, ad, from, cost, env, lifetime, dwell, 0);
    case RetractHop(hop) => WithdrawLoses(e, hop, env, dwell, 0);
    case LoseHop(hop, hold) => InvalidateLoses(e, hop, hold, env, dwell, 0);
    case Reprice(hop, cost) => UpdateCostLoses(e, hop, cost, env, dwell, 0);
    case Sweep => ExpireLoses(e, env, dwell);
    case Reevaluate => EvaluatedLoses(e, env, dwell, 0);
    case MarkSent =>
    case Reclaim =>
  }

  lemma {:induction false} AlwaysTidy(events: seq<Event>, dwell: nat, cells: seq<Cell>, k: nat)
    requires IsRun(events, dwell, cells) && k <= |events|
    ensures cells[k].Some? ==> Tidy(cells[k].value)
    decreases k
  {
    if k > 0 {
      AlwaysTidy(events, dwell, cells, k - 1);
      StaysTidy(cells[k - 1], events[k - 1], dwell, cells[(k - 1) + 1]);
    }
  }

  lemma StaysTidy(was: Cell, event: Event, dwell: nat, now: Cell)
    requires Follows(was, event, dwell, now) && (was.Some? ==> Tidy(was.value))
    ensures now.Some? ==> Tidy(now.value)
  {
    if !Malformed(event.op) {
      TouchTombstone(if was.Some? then was.value else NEW_ENTRY, event.op, event.env, dwell);
    }
  }

  /** The hold set at time since is still in force at time now, or over. */
  predicate Holding(cell: Cell, since: nat, now: nat) {
    || now >= since + SWITCH_HOLD_MS
    || (&& cell.Some? && cell.value.switch.holdUntil >= since + SWITCH_HOLD_MS
        && (cell.value.tombstone == 0 || cell.value.tombstone >= since + SWITCH_HOLD_MS))
  }

  /** A switch waits for the hold that stood. It has something to forward to, so no
      tombstone stands, and starts a hold. */
  lemma SwitchHolds(was: Cell, event: Event, dwell: nat, now: Cell)
    requires Follows(was, event, dwell, now) && Switches(was, now) && !Restarts(was, now) && Tidy(now.value)
    ensures event.env.now >= was.value.switch.holdUntil
    ensures Holding(now, event.env.now, event.env.now)
  {
    var e, e' := was.value, now.value;
    OperationsCarry(e, event.op, event.env, dwell);
    SwitchWaits(e, e', event.env);
    assert e'.candidates[Selectable(e', e.switch.committed)].valid;
  }

  lemma TouchHolds(e: Entry, op: Operation, env: Env, dwell: nat, since: nat)
    requires Tidy(e) && Holding(Some(e), since, since) && since <= env.now && dwell >= SWITCH_HOLD_MS && !Malformed(op)
    requires Touch(e, op, env, dwell).generation == e.generation
    ensures Holding(Some(Touch(e, op, env, dwell)), since, env.now)
  {
    TouchTombstone(e, op, env, dwell);
    OperationsCarry(e, op, env, dwell);
  }

  /** Until it is over a hold is lost only with a newer generation or a reclaim: a sweep
      forgets an entry only after the dwell. */
  lemma HoldStays(was: Cell, event: Event, dwell: nat, now: Cell, since: nat, before: nat)
    requires Follows(was, event, dwell, now) && Undisturbed(was, event, now)
    requires Holding(was, since, before) && since <= before <= event.env.now && dwell >= SWITCH_HOLD_MS
    requires was.Some? ==> Tidy(was.value)
    ensures Holding(now, since, event.env.now)
  {
    if event.env.now < since + SWITCH_HOLD_MS && !Malformed(event.op) && !Forgets(was.value, event.op, event.env.now) {
      OperationsCarry(was.value, event.op, event.env, dwell);
      TouchHolds(was.value, event.op, event.env, dwell, since);
    }
  }

  ghost predicate Steady(events: seq<Event>, cells: seq<Cell>, i: nat, j: nat)
    requires |cells| == |events| + 1
  {
    forall k | i <= k <= j && k < |events| :: Undisturbed(cells[k], events[k], cells[k + 1])
  }

  lemma {:induction false} HoldCarries(events: seq<Event>, dwell: nat, cells: seq<Cell>, i: nat, k: nat)
    requires IsRun(events, dwell, cells) && i <= k < |events| && dwell >= SWITCH_HOLD_MS
    requires Switches(cells[i], cells[i + 1]) && Steady(events, cells, i, k)
    ensures Holding(cells[k + 1], events[i].env.now, events[k].env.now)
    decreases k
  {
    assert Follows(cells[k], events[k], dwell, cells[k + 1]) && Undisturbed(cells[k], events[k], cells[k + 1]);
    if k == i {
      AlwaysTidy(events, dwell, cells, k + 1);
      SwitchHolds(cells[k], events[k], dwell, cells[k + 1]);
    } else {
      HoldCarries(events, dwell, cells, i, k - 1);
      AlwaysTidy(events, dwell, cells, k);
      HoldStays(cells[k], events[k], dwell, cells[k + 1], events[i].env.now, events[k - 1].env.now);
    }
  }

  /** Whatever the table does to a destination, load moves its route at most once in
      five seconds, unless in between the origin starts a newer generation or the entry
      is reclaimed. */
  lemma LoadSwitchesAreDamped(events: seq<Event>, dwell: nat, cells: seq<Cell>, i: nat, j: nat)
    requires IsRun(events, dwell, cells) && i < j < |events| && dwell >= SWITCH_HOLD_MS
    requires Switches(cells[i], cells[i + 1]) && Switches(cells[j], cells[j + 1]) && Steady(events, cells, i, j)
    ensures events[j].env.now >= events[i].env.now + SWITCH_HOLD_MS
  {
    HoldCarries(events, dwell, cells, i, j - 1);
    AlwaysTidy(events, dwell, cells, j + 1);
    assert Undisturbed(cells[j], events[j], cells[j + 1]);
    SwitchHolds(cells[j], events[j], dwell, cells[j + 1]);
  }

  // ---- What lifts it -------------------------------------------------------------------

  const HOP1: NodeId := 1
  const HOP2: NodeId := 2

  /** A record of this generation, sequence 1 and lease 1 s, over a link of cost 1. */
  function Record(generation: nat, from: NodeId, metric: nat): Operation {
    HearRecord(Advert(generation, 1, metric), from, 1, 1000)
  }

  function Route(from: NodeId, metric: nat): Candidate {
    Candidate(from, 1000, 1, metric + 1, metric, true, true)
  }

  const QUIET := Env(0, map[], 0)

  /** Hop 1 is known at metric 5. */
  function First(generation: nat): Entry {
    NEW_ENTRY.(generation := generation, candidates := [Route(HOP1, 5), NO_CANDIDATE, NO_CANDIDATE],
               switch := Switch(HOP1, INVALID_NODE, 0, 0))
  }

  /** Then hop 2 is, at metric 3, and is switched to. */
  function Second(generation: nat): Entry {
    First(generation).(candidates := [Route(HOP1, 5), Route(HOP2, 3), NO_CANDIDATE],
                       switch := Switch(HOP2, INVALID_NODE, 0, SWITCH_HOLD_MS))
  }

  /** Hearing hop 1 commits it, from nothing or across a restart. */
  lemma HearsFirst(e: Entry, generation: nat, dwell: nat)
    requires generation > e.generation && e.switch.improvementSince == 0
    ensures Touch(e, Record(generation, HOP1, 5), QUIET, dwell) == First(generation)
  {
    var e1 := Restarted(e, generation);
    assert e1.candidates[0 := Route(HOP1, 5)] == First(generation).candidates;
    assert Evaluate(First(generation).(switch := NEW_ENTRY.switch), QUIET) == First(generation).switch;
  }

  /** Hearing hop 2 afterwards is a load switch. */
  lemma HearsSecond(generation: nat, dwell: nat)
    ensures Touch(First(generation), Record(generation, HOP2, 3), QUIET, dwell) == Second(generation)
    ensures LoadSwitch(First(generation), Second(generation))
  {
    var e := First(generation);
    assert e.candidates[1 := Route(HOP2, 3)] == Second(generation).candidates;
    assert Evaluate(Second(generation).(switch := e.switch), QUIET) == Second(generation).switch;
  }

  function Heard(generation: nat, from: NodeId, metric: nat): Event {
    Event(Record(generation, from, metric), QUIET)
  }

  lemma HearsBoth(cell: Cell, generation: nat, dwell: nat)
    requires generation > 0
    requires cell.Some? ==> generation > cell.value.generation && cell.value.switch.improvementSince == 0
    ensures Follows(cell, Heard(generation, HOP1, 5), dwell, Some(First(generation)))
    ensures Follows(Some(First(generation)), Heard(generation, HOP2, 3), dwell, Some(Second(generation)))
    ensures LoadSwitch(First(generation), Second(generation))
  {
    HearsFirst(if cell.Some? then cell.value else NEW_ENTRY, generation, dwell);
    HearsSecond(generation, dwell);
  }

  function RestartEvents(): seq<Event> {
    [Heard(1, HOP1, 5), Heard(1, HOP2, 3), Heard(2, HOP1, 5), Heard(2, HOP2, 3)]
  }

  function RestartCells(): seq<Cell> {
    [None, Some(First(1)), Some(Second(1)), Some(First(2)), Some(Second(2))]
  }

  lemma AllQuiet()
    ensures |RestartEvents()| == 4 && forall k | 0 <= k < 4 :: RestartEvents()[k].env == QUIET
    ensures |ReclaimEvents()| == 7 && forall k | 0 <= k < 7 :: ReclaimEvents()[k].env == QUIET
  {
  }

  lemma RestartHears(dwell: nat)
    ensures var events, cells := RestartEvents(), RestartCells();
            && |cells| == 5 && cells[0] == None
            && Follows(cells[0], events[0], dwell, cells[1]) && Follows(cells[1], events[1], dwell, cells[2])
            && Follows(cells[2], events[2], dwell, cells[3]) && Follows(cells[3], events[3], dwell, cells[4])
    ensures LoadSwitch(First(1), Second(1)) && LoadSwitch(First(2), Second(2))
  {
    HearsBoth(None, 1, dwell);
    HearsBoth(Some(Second(1)), 2, dwell);
  }

  lemma RestartIsRun(dwell: nat)
    ensures IsRun(RestartEvents(), dwell, RestartCells())
    ensures LoadSwitch(First(1), Second(1)) && LoadSwitch(First(2), Second(2))
  {
    RestartHears(dwell);
    AllQuiet();
  }

  /** A restart of the origin lifts the hold: two load switches at the same instant. */
  lemma RestartLiftsDamping(dwell: nat) returns (events: seq<Event>, cells: seq<Cell>)
    ensures IsRun(events, dwell, cells) && |events| == 4 && events[1].env.now == events[3].env.now
    ensures Switches(cells[1], cells[2]) && Switches(cells[3], cells[4])
    ensures forall k | 0 <= k < 4 :: (Restarts(cells[k], cells[k + 1]) <==> k == 2) && !Reclaims(cells[k], events[k], cells[k + 1])
  {
    events, cells := RestartEvents(), RestartCells();
    RestartIsRun(dwell);
  }

  /** Hop 2 is lost, then hop 1, and a tombstone is left. */
  function Fallen(): Entry {
    Second(1).(candidates := First(1).candidates, switch := Switch(HOP1, INVALID_NODE, 0, SWITCH_HOLD_MS))
  }

  function Buried(dwell: nat): Entry {
    NEW_ENTRY.(generation := 1, switch := Switch(INVALID_NODE, INVALID_NODE, 0, SWITCH_HOLD_MS), tombstone := dwell,
               requestNeeded := true)
  }

  lemma Loses(dwell: nat)
    requires dwell > 0
    ensures Touch(Second(1), LoseHop(HOP2, false), QUIET, dwell) == Fallen()
    ensures Touch(Fallen(), LoseHop(HOP1, false), QUIET, dwell) == Buried(dwell)
  {
    assert Second(1).candidates[1].valid && Fallen().candidates[0].valid;
    assert DropAll(Second(1).candidates, HOP2) == Fallen().candidates;
    assert DropAll(Fallen().candidates, HOP1) == NEW_ENTRY.candidates;
    assert Evaluate(Fallen().(switch := Second(1).switch), QUIET) == Fallen().switch;
    assert Evaluate(Buried(dwell).(switch := Fallen().switch), QUIET) == Buried(dwell).switch;
  }

  lemma Buries(dwell: nat)
    requires dwell > 0
    ensures Follows(Some(Second(1)), Event(LoseHop(HOP2, false), QUIET), dwell, Some(Fallen()))
    ensures Follows(Some(Fallen()), Event(LoseHop(HOP1, false), QUIET), dwell, Some(Buried(dwell)))
    ensures Follows(Some(Buried(dwell)), Event(Reclaim, QUIET), dwell, None)
  {
    Loses(dwell);
  }

  function ReclaimEvents(): seq<Event> {
    [Heard(1, HOP1, 5), Heard(1, HOP2, 3), Event(LoseHop(HOP2, false), QUIET), Event(LoseHop(HOP1, false), QUIET),
     Event(Reclaim, QUIET), Heard(1, HOP1, 5), Heard(1, HOP2, 3)]
  }

  function ReclaimCells(dwell: nat): seq<Cell> {
    [None, Some(First(1)), Some(Second(1)), Some(Fallen()), Some(Buried(dwell)), None, Some(First(1)), Some(Second(1))]
  }

  lemma ReclaimHears(dwell: nat)
    ensures var events, cells := ReclaimEvents(), ReclaimCells(dwell);
            && Follows(cells[0], events[0], dwell, cells[1]) && Follows(cells[1], events[1], dwell, cells[2])
            && Follows(cells[5], events[5], dwell, cells[6]) && Follows(cells[6], events[6], dwell, cells[7])
    ensures LoadSwitch(First(1), Second(1))
  {
    HearsBoth(None, 1, dwell);
  }

  lemma ReclaimBuries(dwell: nat)
    requires dwell > 0
    ensures var events, cells := ReclaimEvents(), ReclaimCells(dwell);
            && Follows(cells[2], events[2], dwell, cells[3]) && Follows(cells[3], events[3], dwell, cells[4])
            && Follows(cells[4], events[4], dwell, cells[5])
  {
    Buries(dwell);
  }

  lemma ReclaimIsRun(dwell: nat)
    requires dwell > 0
    ensures IsRun(ReclaimEvents(), dwell, ReclaimCells(dwell)) && LoadSwitch(First(1), Second(1))
  {
    ReclaimHears(dwell);
    ReclaimBuries(dwell);
    AllQuiet();
  }

  /** So does reclaiming the entry, within one generation. */
  lemma ReclaimLiftsDamping(dwell: nat) returns (events: seq<Event>, cells: seq<Cell>)
    requires dwell > 0
    ensures IsRun(events, dwell, cells) && |events| == 7 && events[1].env.now == events[6].env.now
    ensures Switches(cells[1], cells[2]) && Switches(cells[6], cells[7])
    ensures forall k | 0 <= k < 7 :: !Restarts(cells[k], cells[k + 1]) && (Reclaims(cells[k], events[k], cells[k + 1]) <==> k == 4)
  {
    events, cells := ReclaimEvents(), ReclaimCells(dwell);
    ReclaimIsRun(dwell);
  }

  // ---- The rule --------------------------------------------------------------------------

  /** Runs in which entries restart, or are reclaimed, only if the policy says so. */
  ghost predicate Allowed(events: seq<Event>, dwell: nat, cells: seq<Cell>, restarts: bool, reclaims: bool) {
    && IsRun(events, dwell, cells)
    && forall k | 0 <= k < |events| ::
         (Restarts(cells[k], cells[k + 1]) ==> restarts) && (Reclaims(cells[k], events[k], cells[k + 1]) ==> reclaims)
  }

  ghost predicate Damped(events: seq<Event>, cells: seq<Cell>)
    requires |cells| == |events| + 1
  {
    forall i, j | 0 <= i < j < |events| && Switches(cells[i], cells[i + 1]) && Switches(cells[j], cells[j + 1]) ::
      events[j].env.now >= events[i].env.now + SWITCH_HOLD_MS
  }

  lemma SteadyIsDamped(events: seq<Event>, dwell: nat, cells: seq<Cell>)
    requires Allowed(events, dwell, cells, false, false) && dwell >= SWITCH_HOLD_MS
    ensures Damped(events, cells)
  {
    forall i, j | 0 <= i < j < |events| && Switches(cells[i], cells[i + 1]) && Switches(cells[j], cells[j + 1])
      ensures events[j].env.now >= events[i].env.now + SWITCH_HOLD_MS
    {
      LoadSwitchesAreDamped(events, dwell, cells, i, j);
    }
  }

  /** Every run is damped if and only if no origin starts a newer generation and no
      entry is reclaimed. */
  lemma DampingRule(dwell: nat, restarts: bool, reclaims: bool)
    requires dwell >= SWITCH_HOLD_MS
    ensures (forall events, cells :: Allowed(events, dwell, cells, restarts, reclaims) ==> Damped(events, cells))
            <==> !restarts && !reclaims
  {
    if restarts {
      var events, cells := RestartLiftsDamping(dwell);
      assert Allowed(events, dwell, cells, restarts, reclaims) && !Damped(events, cells);
    } else if reclaims {
      var events, cells := ReclaimLiftsDamping(dwell);
      assert Allowed(events, dwell, cells, restarts, reclaims) && !Damped(events, cells);
    } else {
      forall events, cells | Allowed(events, dwell, cells, restarts, reclaims)
        ensures Damped(events, cells)
      {
        SteadyIsDamped(events, dwell, cells);
      }
    }
  }
}
