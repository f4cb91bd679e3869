/** One destination of the device's route table. */
module RouteEntry {
  // The candidates learned from neighbours, the feasibility distance, hold-down,
  // tombstone and the committed next hop with its switching discipline. Clock values
  // are milliseconds on the device's monotonic clock and unbounded here; the
  // differences the code takes as unsigned 64-bit values wrap.

  import opened Babel

  type NodeId = nat

  const INVALID_NODE: NodeId := 0
  const SLOTS: nat := 3
  const TOMBSTONE_DWELL_MS: nat := 60000
  const HOLD_DOWN_MS: nat := 500
  const IMPROVEMENT_HOLD_MS: nat := 10000
  const SWITCH_HOLD_MS: nat := 5000
  const SEVERE_BUSY_MS: nat := 2000
  const IMPROVEMENT_JITTER_MS: nat := 2000

  datatype Candidate = Candidate(
    nextHop: NodeId, expiresAt: nat, sequence: nat, metric: nat, advertised: nat,
    feasible: bool, valid: bool)

  const NO_CANDIDATE := Candidate(INVALID_NODE, 0, 0, INFINITE, INFINITE, false, false)

  type Candidates = s: seq<Candidate> | |s| == 3
    witness [NO_CANDIDATE, NO_CANDIDATE, NO_CANDIDATE]

  datatype Entry = Entry(
    generation: nat,
    candidates: Candidates,
    fd: Distance,
    holdNextHop: NodeId,
    holdUntil: nat,
    tombstone: nat,
    switch: Switch,
    requestNeeded: bool)

  /** The committed next hop, the pending improvement and the post-switch hold. */
  datatype Switch = Switch(committed: NodeId, improvementHop: NodeId, improvementSince: nat, holdUntil: nat)

  const NEW_ENTRY := Entry(0, [NO_CANDIDATE, NO_CANDIDATE, NO_CANDIDATE], Unset, INVALID_NODE, 0, 0,
                           Switch(INVALID_NODE, INVALID_NODE, 0, 0), false)

  /** What the switching discipline reads besides the entry: the clock, since when
      each busy next hop has been busy, and this node's jitter for the destination. */
  datatype Env = Env(now: nat, busy: map<NodeId, nat>, jitter: nat)

  /** A received route record. */
  datatype Advert = Advert(generation: nat, sequence: nat, metric: nat)

  datatype Outcome = Accepted | Updated | Withdrawn | Infeasible | StaleGeneration | HeldDown | Ignored | NoCapacity

  // ---- Metrics and feasibility -------------------------------------------------

  function MetricAdd(advertised: nat, cost: nat): (r: nat)
  {
    if advertised == INFINITE || cost == INFINITE then INFINITE
    else if advertised + cost >= INFINITE then INFINITE
    else advertised + cost
  }

  /** RouteTable::feasible */
  predicate Feasible(fd: Distance, sequence: nat, metric: nat) {
    if fd.Unset? then metric != INFINITE
    else if Newer(sequence, fd.sequence) then true
    else if Ambiguous(sequence, fd.sequence) then false
    else SameSequence(sequence, fd.sequence) && metric < fd.metric
  }

  /** A candidate DATA may be forwarded to: flagged, finite, and feasible
      against the current distance. */
  predicate Usable(e: Entry, c: Candidate) {
    c.valid && c.feasible && c.metric != INFINITE && Feasible(e.fd, c.sequence, c.advertised)
  }

  predicate HasCandidates(e: Entry) {
    exists i | 0 <= i < SLOTS :: e.candidates[i].valid
  }

  // ---- Selection ---------------------------------------------------------------

  /** RouteTable::selectable from slot i on: the first usable candidate via hop, or SLOTS. */
  function Selectable(e: Entry, hop: NodeId, i: nat := 0): (r: nat)
    requires i <= SLOTS
    ensures i <= r <= SLOTS
    ensures r < SLOTS ==> Usable(e, e.candidates[r]) && e.candidates[r].nextHop == hop && hop != INVALID_NODE
    ensures r == SLOTS && hop != INVALID_NODE ==>
              forall j | i <= j < SLOTS :: !(Usable(e, e.candidates[j]) && e.candidates[j].nextHop == hop)
    decreases SLOTS - i
  {
    if hop == INVALID_NODE || i == SLOTS then SLOTS
    else if e.candidates[i].nextHop == hop && Usable(e, e.candidates[i]) then i
    else Selectable(e, hop, i + 1)
  }

  /** The order best_candidate scans with. */
  predicate Preferred(c: Candidate, over: Candidate) {
    || Newer(c.sequence, over.sequence)
    || (!Ambiguous(c.sequence, over.sequence) && SameSequence(c.sequence, over.sequence) && c.metric < over.metric)
  }

  /** RouteTable::best_candidate from slot i on with the choice so far. */
  function Best(e: Entry, exclude: NodeId, i: nat := 0, chosen: nat := SLOTS): (r: nat)
    requires i <= SLOTS && chosen <= SLOTS
    requires chosen < SLOTS ==> Usable(e, e.candidates[chosen]) && e.candidates[chosen].nextHop != exclude
    ensures r <= SLOTS
    ensures r < SLOTS ==> Usable(e, e.candidates[r]) && e.candidates[r].nextHop != exclude
    ensures r == SLOTS ==> chosen == SLOTS
    ensures r == SLOTS ==>
              forall j | i <= j < SLOTS :: !Usable(e, e.candidates[j]) || e.candidates[j].nextHop == exclude
    decreases SLOTS - i
  {
    if i == SLOTS then chosen
    else
      var c := e.candidates[i];
      if c.nextHop == exclude || !Usable(e, c) then Best(e, exclude, i + 1, chosen)
      else if chosen == SLOTS || Preferred(c, e.candidates[chosen]) then Best(e, exclude, i + 1, i)
      else Best(e, exclude, i + 1, chosen)
  }

  /** RouteTable::select: the slot forwarding uses, or SLOTS. */
  function Select(e: Entry): (r: nat)
  {
    var committed := Selectable(e, e.switch.committed);
    if committed < SLOTS then committed else Best(e, INVALID_NODE)
  }

  // ---- Switching discipline ----------------------------------------------------

  /** Unsigned 64-bit difference of two clock readings. */
  function Elapsed(now: nat, since: nat): nat {
    (now - since) % 0x1_0000_0000_0000_0000
  }

  predicate SeverelyBusy(env: Env, hop: NodeId) {
    hop in env.busy && Elapsed(env.now, env.busy[hop]) >= SEVERE_BUSY_MS
  }

  function Commit(sw: Switch, hop: NodeId, env: Env): Switch {
    sw.(committed := hop, holdUntil := env.now + SWITCH_HOLD_MS, improvementHop := INVALID_NODE)
  }

  /** At least 20 percent and at least one unit of cost better. */
  predicate WorthSwitching(raw: Candidate, current: Candidate) {
    raw.metric * 5 <= current.metric * 4 && current.metric - raw.metric >= 1
  }

  /** RouteTable::evaluate_entry */
  function Evaluate(e: Entry, env: Env): Switch
  {
    var sw := e.switch;
    var current := Selectable(e, sw.committed);
    if current == SLOTS then Repair(e, env)
    else if SeverelyBusy(env, sw.committed) then
      var alt := Best(e, sw.committed);
      if alt < SLOTS && env.now >= sw.holdUntil && !SeverelyBusy(env, e.candidates[alt].nextHop)
      then Commit(sw, e.candidates[alt].nextHop, env)
      else sw
    else
      var raw := Best(e, INVALID_NODE);
      if raw == SLOTS || e.candidates[raw].nextHop == sw.committed then sw.(improvementHop := INVALID_NODE)
      else Improve(sw, env, e.candidates[raw], e.candidates[current])
  }

  /** The committed hop is gone: the best candidate is committed at once. */
  function Repair(e: Entry, env: Env): Switch
  {
    var raw := Best(e, INVALID_NODE);
    e.switch.(committed := if raw < SLOTS then e.candidates[raw].nextHop else INVALID_NODE,
              holdUntil := if raw < SLOTS && e.switch.committed != INVALID_NODE then env.now + SWITCH_HOLD_MS
                           else e.switch.holdUntil,
              improvementHop := INVALID_NODE)
  }

  /** The committed hop still works but raw scans better. */
  function Improve(sw: Switch, env: Env, raw: Candidate, current: Candidate): Switch
  {
    if Newer(raw.sequence, current.sequence) || Ambiguous(raw.sequence, current.sequence) then
      Commit(sw, raw.nextHop, env)
    else if raw.advertised < current.advertised then
      if env.now >= sw.holdUntil then Commit(sw, raw.nextHop, env) else sw
    else if !WorthSwitching(raw, current) then sw.(improvementHop := INVALID_NODE)
    else if sw.improvementHop != raw.nextHop then
      sw.(improvementHop := raw.nextHop, improvementSince := env.now)
    else if Elapsed(env.now, sw.improvementSince) >= IMPROVEMENT_HOLD_MS + env.jitter
            && env.now >= sw.holdUntil then
      Commit(sw, raw.nextHop, env)
    else sw
  }

  function Evaluated(e: Entry, env: Env): Entry {
    e.(switch := Evaluate(e, env))
  }

  // ---- Table operations on one entry -----------------------------------------

  /** arm_tombstone */
  function Armed(e: Entry, now: nat, dwell: nat): nat {
    if !HasCandidates(e) && e.tombstone == 0 then now + dwell else e.tombstone
  }

  /** First slot from i on satisfying p, or SLOTS. */
  function FirstSlot(cs: Candidates, p: Candidate -> bool, i: nat := 0): (r: nat)
    requires i <= SLOTS
    ensures i <= r <= SLOTS
    ensures r < SLOTS ==> p(cs[r])
    ensures forall j | i <= j < r :: !p(cs[j])
    decreases SLOTS - i
  {
    if i == SLOTS then SLOTS else if p(cs[i]) then i else FirstSlot(cs, p, i + 1)
  }

  /** The eviction scan when every candidate is feasible. */
  function Worst(e: Entry, i: nat := 0, worst: nat := 0): (r: nat)
    requires i <= SLOTS && worst < SLOTS
    ensures r < SLOTS
    decreases SLOTS - i
  {
    if i == SLOTS then worst
    else Worst(e, i + 1, if Displaces(e, i, worst) then i else worst)
  }

  predicate Displaces(e: Entry, i: nat, worst: nat)
    requires i < SLOTS && worst < SLOTS
  {
    var c, w := e.candidates[i], e.candidates[worst];
    if (c.nextHop == e.switch.committed) != (w.nextHop == e.switch.committed) then w.nextHop == e.switch.committed
    else !Newer(c.sequence, w.sequence) && (!SameSequence(c.sequence, w.sequence) || c.metric > w.metric)
  }

  /** RouteTable::candidate_slot */
  function Slot(e: Entry, hop: NodeId): (r: nat)
    ensures r < SLOTS
  {
    var known := FirstSlot(e.candidates, (c: Candidate) => c.valid && c.nextHop == hop);
    if known < SLOTS then known
    else
      var free := FirstSlot(e.candidates, (c: Candidate) => !c.valid);
      if free < SLOTS then free
      else
        var stale := FirstSlot(e.candidates, (c: Candidate) => !c.feasible || !Feasible(e.fd, c.sequence, c.advertised));
        if stale < SLOTS then stale else Worst(e)
  }

  /** A higher origin generation invalidates everything learned under the old one. */
  function Restarted(e: Entry, generation: nat): Entry {
    NEW_ENTRY.(generation := generation, switch := NEW_ENTRY.switch.(improvementSince := e.switch.improvementSince))
  }

  function Retract(c: Candidate, hop: NodeId): Candidate {
    if c.valid && c.nextHop == hop then c.(feasible := false, metric := INFINITE, advertised := INFINITE) else c
  }

  function Drop(c: Candidate, hop: NodeId): Candidate {
    if c.valid && c.nextHop == hop then NO_CANDIDATE else c
  }

  function Lapse(c: Candidate, now: nat): Candidate {
    if c.valid && c.expiresAt <= now then NO_CANDIDATE else c
  }

  function Recost(e: Entry, c: Candidate, hop: NodeId, cost: nat): Candidate {
    if c.valid && c.nextHop == hop then
      var metric := MetricAdd(c.advertised, cost);
      c.(metric := metric, feasible := metric != INFINITE && Feasible(e.fd, c.sequence, c.advertised))
    else c
  }

  function RetractAll(cs: Candidates, hop: NodeId): (r: Candidates)
  {
    [Retract(cs[0], hop), Retract(cs[1], hop), Retract(cs[2], hop)]
  }

  function DropAll(cs: Candidates, hop: NodeId): (r: Candidates)
  {
    [Drop(cs[0], hop), Drop(cs[1], hop), Drop(cs[2], hop)]
  }

  function LapseAll(cs: Candidates, now: nat): (r: Candidates)
  {
    [Lapse(cs[0], now), Lapse(cs[1], now), Lapse(cs[2], now)]
  }

  function RecostAll(e: Entry, hop: NodeId, cost: nat): (r: Candidates)
  {
    var cs := e.candidates;
    [Recost(e, cs[0], hop, cost), Recost(e, cs[1], hop, cost), Recost(e, cs[2], hop, cost)]
  }

  predicate Holds(e: Entry, hop: NodeId) {
    exists i | 0 <= i < SLOTS :: e.candidates[i].valid && e.candidates[i].nextHop == hop
  }

  /** RouteTable::withdraw on a present entry. */
  function Withdraw(e: Entry, hop: NodeId, env: Env, dwell: nat): Entry {
    if !Holds(e, hop) then e
    else
      var e1 := e.(candidates := RetractAll(e.candidates, hop),
                   holdNextHop := hop, holdUntil := env.now + HOLD_DOWN_MS);
      Settle(e1, env, dwell)
  }

  /** The tail every loss of candidates shares: ask for a newer sequence when no
      route is left, arm the tombstone when no candidate is left, re-evaluate. */
  function Settle(e: Entry, env: Env, dwell: nat): Entry {
    Evaluated(e.(requestNeeded := e.requestNeeded || Select(e) == SLOTS, tombstone := Armed(e, env.now, dwell)), env)
  }

  /** RouteTable::consider on the entry that was found or allocated. */
  function Consider(e: Entry, ad: Advert, hop: NodeId, cost: nat, env: Env, lifetime: nat, dwell: nat): (Entry, Outcome)
  {
    if ad.generation < e.generation then (e, StaleGeneration)
    else
      var e1 := if ad.generation > e.generation then Restarted(e, ad.generation) else e;
      if ad.metric == INFINITE then
        (Withdraw(e1, hop, env, dwell), if Holds(e1, hop) then Withdrawn else Ignored)
      else if hop == e1.holdNextHop && env.now < e1.holdUntil then (e1, HeldDown)
      else Learn(e1, ad, hop, cost, env, lifetime)
  }

  /** Recording a finite advertisement in its slot. */
  function Learn(e: Entry, ad: Advert, hop: NodeId, cost: nat, env: Env, lifetime: nat): (Entry, Outcome)
  {
    var total := MetricAdd(ad.metric, cost);
    var feasible := total != INFINITE && Feasible(e.fd, ad.sequence, ad.metric);
    var slot := Slot(e, hop);
    var known := e.candidates[slot].valid && e.candidates[slot].nextHop == hop;
    var e1 := e.(candidates := e.candidates[slot := Candidate(hop, env.now + lifetime, ad.sequence, total,
                                                               ad.metric, feasible, true)],
                 tombstone := 0);
    if feasible then (Evaluated(e1.(requestNeeded := false), env), if known then Updated else Accepted)
    else (Evaluated(e1.(requestNeeded := Select(e1) == SLOTS), env), Infeasible)
  }

  /** RouteTable::invalidate_next_hop on one entry. */
  function Invalidate(e: Entry, hop: NodeId, hold: bool, env: Env, dwell: nat): Entry {
    var e1 := e.(candidates := DropAll(e.candidates, hop));
    var e2 := if !hold && e.holdNextHop == hop then e1.(holdNextHop := INVALID_NODE, holdUntil := 0) else e1;
    if !Holds(e, hop) then e2
    else
      var e3 := if hold then e2.(holdNextHop := hop, holdUntil := env.now + HOLD_DOWN_MS) else e2;
      Settle(e3, env, dwell)
  }

  predicate Dead(e: Entry, now: nat) {
    e.tombstone != 0 && e.tombstone <= now
  }

  predicate Lapses(e: Entry, now: nat) {
    exists i | 0 <= i < SLOTS :: e.candidates[i].valid && e.candidates[i].expiresAt <= now
  }

  /** The lease pass of RouteTable::expire on an entry that stays. */
  function Expire(e: Entry, env: Env, dwell: nat): Entry {
    var e1 := e.(candidates := LapseAll(e.candidates, env.now));
    if Lapses(e, env.now) then Settle(e1, env, dwell)
    else e1.(tombstone := Armed(e1, env.now, dwell))
  }

  /** RouteTable::update_link_cost on one entry. */
  function UpdateCost(e: Entry, hop: NodeId, cost: nat, env: Env): Entry {
    if !Holds(e, hop) then e
    else Evaluated(e.(candidates := RecostAll(e, hop, cost)), env)
  }

  /** The distance update of RouteTable::mark_advertised. */
  function Advertised(fd: Distance, sequence: nat, metric: nat): Distance {
    if fd.Unset? then Distance(sequence, metric)
    else if Newer(sequence, fd.sequence)
            || (!Ambiguous(sequence, fd.sequence) && SameSequence(sequence, fd.sequence) && metric < fd.metric) then
      Distance(sequence, metric)
    else fd
  }

  /** RouteTable::mark_advertised on one entry; nothing selected changes nothing. */
  function MarkAdvertised(e: Entry): Entry {
    var s := Select(e);
    if s == SLOTS then e
    else e.(fd := Advertised(e.fd, e.candidates[s].sequence, e.candidates[s].metric))
  }

  /** set_tombstone_dwell */
  function TombstoneDwell(lifetime: nat): nat {
    if lifetime > TOMBSTONE_DWELL_MS then lifetime else TOMBSTONE_DWELL_MS
  }

  // ---- What the operations keep --------------------------------------------------

  /** Links cost something: a finite total is above the metric it was built from. */
  predicate PositiveCosts(e: Entry) {
    forall i | 0 <= i < SLOTS ::
      e.candidates[i].valid && e.candidates[i].metric != INFINITE ==>
        e.candidates[i].advertised < e.candidates[i].metric < INFINITE
  }

  /** c' is c, possibly at another link cost. */
  predicate Kept(c: Candidate, c': Candidate) {
    && c.valid
    && c'.nextHop == c.nextHop
    && c'.sequence == c.sequence
    && c'.advertised == c.advertised
    && c'.expiresAt == c.expiresAt
  }

  /** e' learned nothing: same generation and distance, and every candidate it can
      still use was there before. */
  predicate Inherits(e: Entry, e': Entry) {
    && e'.generation == e.generation
    && e'.fd == e.fd
    && (PositiveCosts(e) ==> PositiveCosts(e'))
    && (forall i | 0 <= i < SLOTS ::
          e'.candidates[i].valid && e'.candidates[i].advertised != INFINITE ==> Kept(e.candidates[i], e'.candidates[i]))
  }

  /** The tombstone is as it was, or was armed now because no candidate is left. */
  predicate TombstoneStep(e: Entry, e': Entry, now: nat, dwell: nat) {
    && (e'.tombstone == e.tombstone || (e'.tombstone == now + dwell && !HasCandidates(e')))
    && (!HasCandidates(e) ==> !HasCandidates(e'))
  }

  /** The generation and distance of e' are no worse than those of e. */
  predicate Succeeds(e: Entry, e': Entry) {
    e'.generation > e.generation || (e'.generation == e.generation && NoWorse(e'.fd, e.fd))
  }

  /** No lapsed lease is left. */
  predicate Current(e: Entry, now: nat) {
    forall i | 0 <= i < SLOTS && e.candidates[i].valid :: e.candidates[i].expiresAt > now
  }

  /** What an operation that learns nothing can do to an entry. */
  predicate LossStep(e: Entry, e': Entry, now: nat, dwell: nat, since: nat) {
    // The case keeps the definition folded in goals, so proofs use the lemmas about it.
    match e'
    case Entry(_, _, _, _, _, _, _, _) =>
      Inherits(e, e') && TombstoneStep(e, e', now, dwell) && (Current(e, since) ==> Current(e', since))
  }

  /** Slot by slot, a candidate is kept, re-priced, withdrawn or gone. */
  predicate Thinned(e: Entry, e': Entry) {
    && e'.generation == e.generation && e'.fd == e.fd
    && forall i | 0 <= i < SLOTS ::
         var c, c' := e.candidates[i], e'.candidates[i];
         || c' == c
         || !c'.valid
         || (c.valid && c'.expiresAt == c.expiresAt && c'.metric == INFINITE && c'.advertised == INFINITE)
         || (Kept(c, c') && (c'.metric == INFINITE || c'.advertised < c'.metric < INFINITE))
  }

  lemma ThinnedLoses(e: Entry, e': Entry, now: nat, dwell: nat, since: nat)
    requires Thinned(e, e')
    requires e'.tombstone == e.tombstone || (e'.tombstone == now + dwell && !HasCandidates(e'))
    ensures LossStep(e, e', now, dwell, since)
  {
    if HasCandidates(e') {
      var i :| 0 <= i < SLOTS && e'.candidates[i].valid;
      assert e.candidates[i].valid;
    }
  }

  lemma WithdrawLoses(e: Entry, hop: NodeId, env: Env, dwell: nat, since: nat)
    ensures LossStep(e, Withdraw(e, hop, env, dwell), env.now, dwell, since)
  {
    ThinnedLoses(e, Withdraw(e, hop, env, dwell), env.now, dwell, since);
  }

  lemma InvalidateLoses(e: Entry, hop: NodeId, hold: bool, env: Env, dwell: nat, since: nat)
    ensures LossStep(e, Invalidate(e, hop, hold, env, dwell), env.now, dwell, since)
  {
    ThinnedLoses(e, Invalidate(e, hop, hold, env, dwell), env.now, dwell, since);
  }

  lemma UpdateCostLoses(e: Entry, hop: NodeId, cost: nat, env: Env, dwell: nat, since: nat)
    requires cost > 0
    ensures LossStep(e, UpdateCost(e, hop, cost, env), env.now, dwell, since)
  {
    ThinnedLoses(e, UpdateCost(e, hop, cost, env), env.now, dwell, since);
  }

  lemma EvaluatedLoses(e: Entry, env: Env, dwell: nat, since: nat)
    ensures LossStep(e, Evaluated(e, env), env.now, dwell, since)
  {
    ThinnedLoses(e, Evaluated(e, env), env.now, dwell, since);
  }

  /** A sweep leaves no lapsed lease. */
  lemma ExpireLoses(e: Entry, env: Env, dwell: nat)
    ensures LossStep(e, Expire(e, env, dwell), env.now, dwell, env.now)
    ensures Current(Expire(e, env, dwell), env.now)
  {
    ThinnedLoses(e, Expire(e, env, dwell), env.now, dwell, env.now);
  }

  /** The candidate an advertisement becomes. */
  predicate LearnedFrom(c: Candidate, ad: Advert, hop: NodeId, expiresAt: nat) {
    c.nextHop == hop && c.sequence == ad.sequence && c.advertised == ad.metric && c.expiresAt == expiresAt
  }

  /** Recording an advertisement fills one slot and clears the tombstone. */
  predicate LearnStep(e: Entry, e': Entry, ad: Advert, hop: NodeId, cost: nat, expiresAt: nat) {
    match e'
    case Entry(generation, candidates, fd, _, _, tombstone, _, _) =>
      && generation == e.generation && fd == e.fd && tombstone == 0
      && exists i | 0 <= i < SLOTS ::
           && candidates == e.candidates[i := candidates[i]]
           && candidates[i].valid
           && candidates[i].metric == MetricAdd(ad.metric, cost)
           && LearnedFrom(candidates[i], ad, hop, expiresAt)
  }

  lemma LearnEffect(e: Entry, ad: Advert, hop: NodeId, cost: nat, env: Env, lifetime: nat)
    ensures LearnStep(e, Learn(e, ad, hop, cost, env, lifetime).0, ad, hop, cost, env.now + lifetime)
  {
    var i := Slot(e, hop);
    var candidates := Learn(e, ad, hop, cost, env, lifetime).0.candidates;
    assert candidates == e.candidates[i := candidates[i]];
  }

  /** Advertising the selected route keeps the distance in order: no worse than
      before, and covering what left. */
  lemma MarkAdvertisedTightens(e: Entry)
    requires Select(e) < SLOTS
    requires e.fd.Distance? ==> Near(e.candidates[Select(e)].sequence, e.fd.sequence)
    ensures Succeeds(e, MarkAdvertised(e))
    ensures AtLeastAsGood(MarkAdvertised(e).fd, e.candidates[Select(e)].sequence, e.candidates[Select(e)].metric)
    ensures MarkAdvertised(e) == e.(fd := MarkAdvertised(e).fd)
  {
    if e.fd.Distance? {
      WindowOrder(e.candidates[Select(e)].sequence, e.fd.sequence);
    }
  }

  /** What handling an advertisement can do to an entry. */
  predicate ConsiderStep(e: Entry, e': Entry, ad: Advert, hop: NodeId, now: nat, lifetime: nat, dwell: nat,
                         since: nat) {
    // The case keeps the definition folded in goals, so proofs use the lemmas about it.
    match e'
    case Entry(_, _, _, _, _, _, _, _) =>
      && Succeeds(e, e')
      && (PositiveCosts(e) ==> PositiveCosts(e'))
      && (e'.tombstone == 0 || TombstoneStep(e, e', now, dwell) || (e'.tombstone == now + dwell && !HasCandidates(e')))
      && (forall i | 0 <= i < SLOTS && e'.candidates[i].valid && e'.candidates[i].advertised != INFINITE ::
            || (e'.generation == e.generation && Kept(e.candidates[i], e'.candidates[i]))
            || (e'.generation == ad.generation && ad.metric != INFINITE
                && LearnedFrom(e'.candidates[i], ad, hop, now + lifetime)))
      && (since < now + lifetime && Current(e, since) ==> Current(e', since))
  }

  /** The two halves of consider: a restart of the origin, then the record itself. */
  lemma RestartSteps(e: Entry, e': Entry, ad: Advert, hop: NodeId, now: nat, lifetime: nat, dwell: nat, since: nat)
    requires ad.generation > e.generation
    requires ConsiderStep(Restarted(e, ad.generation), e', ad, hop, now, lifetime, dwell, since)
    ensures ConsiderStep(e, e', ad, hop, now, lifetime, dwell, since)
  {
  }

  lemma LearnConsiders(e: Entry, e': Entry, ad: Advert, hop: NodeId, cost: nat, now: nat, lifetime: nat, dwell: nat,
                       since: nat)
    requires cost > 0 && ad.metric != INFINITE && ad.generation == e.generation
    requires LearnStep(e, e', ad, hop, cost, now + lifetime)
    ensures ConsiderStep(e, e', ad, hop, now, lifetime, dwell, since)
  {
  }

  lemma ConsiderSteps(e: Entry, ad: Advert, hop: NodeId, cost: nat, env: Env, lifetime: nat, dwell: nat, since: nat)
    requires cost > 0
    ensures ConsiderStep(e, Consider(e, ad, hop, cost, env, lifetime, dwell).0, ad, hop, env.now, lifetime, dwell, since)
  {
    var e' := Consider(e, ad, hop, cost, env, lifetime, dwell).0;
    if ad.generation < e.generation {
      ThinnedLoses(e, e, env.now, dwell, since);
      return;
    }
    var e1 := if ad.generation > e.generation then Restarted(e, ad.generation) else e;
    if ad.metric == INFINITE {
      WithdrawLoses(e1, hop, env, dwell, since);
    } else if hop == e1.holdNextHop && env.now < e1.holdUntil {
      ThinnedLoses(e1, e1, env.now, dwell, since);
    } else {
      LearnEffect(e1, ad, hop, cost, env, lifetime);
      LearnConsiders(e1, e', ad, hop, cost, env.now, lifetime, dwell, since);
    }
    if ad.generation > e.generation {
      RestartSteps(e, e', ad, hop, env.now, lifetime, dwell, since);
    }
  }
}
