/** Crash-safe counter reservation: a durable high-water mark, blocks reserved above
    it, and volatile cursors that never survive a boot. */
module Reservation {
  import opened Basics

  /** When the power goes during a commit. */
  datatype Cut = NoCut | Before | After

  datatype Outcome = Issued(value: int) | Raised(error: string) | PowerLoss

  datatype Store = Store(end: int, valid: bool)

  /** A live reservation: [cursor, limit) is still to be issued. */
  datatype Cursor = Cursor(block: int, cursor: int, limit: int)

  /** CounterReservation.__init__: None when it raises. */
  function Boot(store: Store, block: int): Option<Cursor> {
    if !store.valid || !Integer(store.end) || !Integer(block) || block == 0 then None
    else Some(Cursor(block, store.end, store.end))
  }

  /** AtomicHighWater.commit: the new store and what is raised, if anything. */
  function Commit(store: Store, new_: int, cut: Cut): (Store, Option<Outcome>) {
    if !store.valid || !Integer(new_) || new_ <= store.end then (store, Some(Raised("STORE_UNSAFE")))
    else if cut.Before? then (store, Some(PowerLoss))
    else (store.(end := new_), if cut.After? then Some(PowerLoss) else None)
  }

  /** CounterReservation.next */
  function Next(store: Store, r: Cursor, cut: Cut): (Store, Cursor, Outcome) {
    if r.cursor == r.limit then
      if store.end > MAX64 - r.block then (store, r, Raised("COUNTER_EXHAUSTED"))
      else
        var (store', raised) := Commit(store, store.end + r.block, cut);
        if raised.Some? then (store', r, raised.value)
        else (store', Cursor(r.block, store.end + 1, store.end + r.block), Issued(store.end))
    else (store, r.(cursor := r.cursor + 1), Issued(r.cursor))
  }

  // ---- In place ------------------------------------------------------------------------

  class AtomicHighWater {
    var end: int
    var valid: bool

    constructor (end: int, valid: bool)
      ensures this.end == end && this.valid == valid
    {
      this.end, this.valid := end, valid;
    }

    function Value(): Store
      reads this
    {
      Store(end, valid)
    }

    method CommitMark(new_: int, cut: Cut) returns (raised: Option<Outcome>)
      modifies this`end
      ensures (Value(), raised) == Commit(old(Value()), new_, cut)
    {
      if !valid || !Integer(new_) || new_ <= end {
        return Some(Raised("STORE_UNSAFE"));
      }
      if cut.Before? {
        return Some(PowerLoss);
      }
      end := new_;
      raised := if cut.After? then Some(PowerLoss) else None;
    }
  }

  class CounterReservation {
    const store: AtomicHighWater
    const block: int
    var cursor: int
    var limit: int

    constructor (store: AtomicHighWater, block: int)
      requires Boot(store.Value(), block).Some?
      ensures this.store == store && Some(Value()) == Boot(store.Value(), block)
    {
      this.store, this.block := store, block;
      cursor, limit := store.end, store.end;
    }

    /** The whole constructor of the contract, which raises on an unsafe store. */
    static method Create(store: AtomicHighWater, block: int) returns (r: CounterReservation?)
      ensures (r == null) == Boot(store.Value(), block).None?
      ensures r != null ==> r.store == store && Some(r.Value()) == Boot(store.Value(), block)
    {
      if !store.valid || !Integer(store.end) || !Integer(block) || block == 0 {
        return null;
      }
      r := new CounterReservation(store, block);
    }

    function Value(): Cursor
      reads this
    {
      Cursor(block, cursor, limit)
    }

    method NextValue(cut: Cut) returns (outcome: Outcome)
      modifies this`cursor, this`limit, store`end
      ensures (store.Value(), Value(), outcome) == Next(old(store.Value()), old(Value()), cut)
    {
      if cursor == limit {
        var start := store.end;
        if start > MAX64 - block {
          return Raised("COUNTER_EXHAUSTED");
        }
        var raised := store.CommitMark(start + block, cut);
        if raised.Some? {
          return raised.value;
        }
        cursor, limit := start, start + block;
      }
      outcome := Issued(cursor);
      cursor := cursor + 1;
    }
  }

  // ---- Runs ----------------------------------------------------------------------------

  /** live: reservations sharing the store; issued: every value handed out, in order;
      burned: every value reserved by a commit that was cut after it landed, or left in an
      abandoned reservation; commits counts landed commits, losses what burned values. */
  datatype World = World(store: Store, live: map<nat, Cursor>, issued: seq<int>, burned: set<int>,
                         commits: nat, losses: nat)

  /** The values from one number up to another. */
  function Range(from: int, to: int): (r: set<int>)
    ensures forall v :: v in r <==> from <= v < to
    ensures |r| == if from < to then to - from else 0
    decreases if from < to then to - from else 0
  {
    if from < to then Range(from, to - 1) + {to - 1} else {}
  }

  datatype Step = Start(id: nat, block: int) | Take(id: nat, cut: Cut) | Abandon(id: nat)

  predicate Enabled(w: World, step: Step) {
    match step
    case Start(id, _) => id !in w.live
    case Take(id, _) => id in w.live
    case Abandon(id) => id in w.live
  }

  function Burn(w: World, from: int, to: int): World {
    w.(burned := w.burned + Range(from, to), losses := if from < to then w.losses + 1 else w.losses)
  }

  function Apply(w: World, step: Step): World
    requires Enabled(w, step)
  {
    match step
    case Start(id, block) =>
      var r := Boot(w.store, block);
      if r.None? then w else w.(live := w.live[id := r.value])
    case Take(id, cut) =>
      var (store, r, outcome) := Next(w.store, w.live[id], cut);
      var w1 := w.(store := store, live := w.live[id := r],
                   commits := if store.end == w.store.end then w.commits else w.commits + 1);
      match outcome {
        case Issued(v) => w1.(issued := w.issued + [v])
        case PowerLoss => Burn(w1, w.store.end, store.end)
        case Raised(_) => w1
      }
    case Abandon(id) => Burn(w.(live := w.live - {id}), w.live[id].cursor, w.live[id].limit)
  }

  function First(end: int): World {
    World(Store(end, true), map[], [], {}, 0, 0)
  }

  ghost predicate ValidRun(w: World, steps: seq<Step>)
    decreases |steps|
  {
    steps != [] ==> Enabled(w, steps[0]) && ValidRun(Apply(w, steps[0]), steps[1..])
  }

  ghost function Run(w: World, steps: seq<Step>): World
    requires ValidRun(w, steps)
    decreases |steps|
  {
    if steps == [] then w else Run(Apply(w, steps[0]), steps[1..])
  }

  // ---- Uniqueness ----------------------------------------------------------------------

  predicate Pending(r: Cursor, v: int) {
    r.cursor <= v < r.limit
  }

  ghost predicate Distinct(s: seq<int>) {
    forall i, j | 0 <= i < j < |s| :: s[i] != s[j]
  }

  ghost predicate Inv(w: World) {
    && Integer(w.store.end)
    && (forall id | id in w.live :: 0 < w.live[id].block && 0 <= w.live[id].cursor <= w.live[id].limit <= w.store.end)
    && (forall a, b, v | a in w.live && b in w.live && a != b :: !(Pending(w.live[a], v) && Pending(w.live[b], v)))
    && (forall i | 0 <= i < |w.issued| :: 0 <= w.issued[i] < w.store.end)
    && (forall i, id | 0 <= i < |w.issued| && id in w.live :: !Pending(w.live[id], w.issued[i]))
    && Distinct(w.issued)
  }

  /** Reservation id issues v: the next of what it holds, or the old mark. */
  ghost predicate Issues(w: World, w': World, id: nat, v: int) {
    match w'
    case World(store, live, issued, burned, commits, losses) =>
      && id in w.live && id in live && live == w.live[id := live[id]]
      && issued == w.issued + [v] && burned == w.burned && losses == w.losses
      && var r, r' := w.live[id], live[id];
         && r'.block == r.block
         && (if r.cursor != r.limit then
               v == r.cursor && r' == r.(cursor := v + 1) && store.end == w.store.end && commits == w.commits
             else
               v == w.store.end && r'.cursor == v + 1 && r'.limit == store.end == v + r.block <= MAX64
               && commits == if r.block == 0 then w.commits else w.commits + 1)
  }

  /** Reservation id issues nothing, and what a landed commit reserved is burned. */
  ghost predicate Fails(w: World, w': World, id: nat) {
    match w'
    case World(store, live, issued, burned, commits, losses) =>
      && live == w.live && issued == w.issued && burned == w.burned + Range(w.store.end, store.end)
      && (|| (store.end == w.store.end && commits == w.commits && losses == w.losses)
          || (&& id in w.live && w.store.end < store.end == w.store.end + w.live[id].block <= MAX64
              && commits == w.commits + 1 && losses == w.losses + 1 && w.live[id].cursor == w.live[id].limit))
  }

  lemma TakeIs(w: World, id: nat, cut: Cut)
    requires id in w.live
    ensures var w', outcome := Apply(w, Take(id, cut)), Next(w.store, w.live[id], cut).2;
            if outcome.Issued? then Issues(w, w', id, outcome.value) else Fails(w, w', id)
  {
    var (store, r, outcome) := Next(w.store, w.live[id], cut);
    if !outcome.Issued? {
      assert w.live[id := r] == w.live;
    }
  }

  lemma TakeKeepsInv(w: World, id: nat, cut: Cut)
    requires Inv(w) && id in w.live
    ensures Inv(Apply(w, Take(id, cut)))
  {
    TakeIs(w, id, cut);
    var outcome := Next(w.store, w.live[id], cut).2;
    if outcome.Issued? {
      IssueKeepsInv(w, Apply(w, Take(id, cut)), id, outcome.value);
    }
  }

  lemma IssueKeepsInv(w: World, w': World, id: nat, v: int)
    requires Inv(w) && Issues(w, w', id, v)
    ensures Inv(w')
  {
    forall i | 0 <= i < |w.issued|
      ensures w.issued[i] != v && !Pending(w'.live[id], w.issued[i])
    {
      assert !Pending(w.live[id], w.issued[i]);
    }
    forall other, u | other in w.live && other != id
      ensures !(Pending(w.live[other], u) && Pending(w'.live[id], u)) && !Pending(w.live[other], v)
    {
      assert !(Pending(w.live[other], u) && Pending(w.live[id], u));
      assert !(Pending(w.live[other], v) && Pending(w.live[id], v));
    }
  }

  lemma StepKeepsInv(w: World, step: Step)
    requires Inv(w) && Enabled(w, step)
    ensures Inv(Apply(w, step))
  {
    match step
    case Start(id, block) =>
    case Take(id, cut) => TakeKeepsInv(w, id, cut);
    case Abandon(id) =>
  }

  lemma {:induction false} RunKeepsInv(w: World, steps: seq<Step>)
    requires Inv(w) && ValidRun(w, steps)
    ensures Inv(Run(w, steps))
    decreases |steps|
  {
    if steps != [] {
      StepKeepsInv(w, steps[0]);
      RunKeepsInv(Apply(w, steps[0]), steps[1..]);
    }
  }

  /** Over every interleaving of boots, issues and power cuts, however many
      reservations share the store, no value is issued twice and every issued value is
      below a durable mark that never passes the 64-bit limit. */
  lemma IssuedOnce(end: int, steps: seq<Step>)
    requires Integer(end) && ValidRun(First(end), steps)
    ensures var w := Run(First(end), steps);
            && Distinct(w.issued)
            && w.store.end <= MAX64
            && forall i | 0 <= i < |w.issued| :: 0 <= w.issued[i] < w.store.end
  {
    RunKeepsInv(First(end), steps);
  }

  // ---- Conservation ----------------------------------------------------------------------

  ghost predicate IsPending(w: World, v: int) {
    exists id | id in w.live :: Pending(w.live[id], v)
  }

  /** Every value from the first mark to the durable one is issued, burned or pending, and
      only one of them. */
  ghost predicate Accounted(w: World, start: int) {
    match w
    case World(store, _, issued, burned, _, _) =>
      && (forall v :: start <= v < store.end <==> v in issued || v in burned || IsPending(w, v))
      && (forall v | v in burned :: v !in issued && !IsPending(w, v))
      && (forall v | v in issued :: !IsPending(w, v))
  }

  /** What is pending when one reservation moves. */
  lemma PendingMoves(w: World, w': World, id: nat, v: int)
    requires Inv(w) && id in w.live && id in w'.live && w'.live == w.live[id := w'.live[id]]
    ensures IsPending(w', v) <==> Pending(w'.live[id], v) || (IsPending(w, v) && !Pending(w.live[id], v))
  {
    if IsPending(w', v) && !Pending(w'.live[id], v) {
      var other :| other in w'.live && Pending(w'.live[other], v);
      assert Pending(w.live[other], v);
    }
    if IsPending(w, v) && !Pending(w.live[id], v) {
      var other :| other in w.live && Pending(w.live[other], v);
      assert Pending(w'.live[other], v);
    }
  }

  /** A value is issued, from what was pending or from a new block. */
  lemma IssueAccounts(w: World, w': World, start: int, id: nat, v: int)
    requires Inv(w) && Accounted(w, start) && start <= w.store.end && id in w.live
    requires Issues(w, w', id, v)
    ensures Accounted(w', start)
  {
    assert Pending(w.live[id], v) ==> IsPending(w, v);
    forall u
      ensures start <= u < w'.store.end <==> u in w'.issued || u in w'.burned || IsPending(w', u)
      ensures u in w'.burned ==> u !in w'.issued && !IsPending(w', u)
      ensures u in w'.issued ==> !IsPending(w', u)
    {
      PendingMoves(w, w', id, u);
      assert Pending(w.live[id], u) ==> IsPending(w, u);
      assert u in w'.issued <==> u in w.issued || u == v;
    }
  }

  /** A commit landed and the power was cut. */
  lemma BurnAccounts(w: World, w': World, start: int, id: nat)
    requires Inv(w) && Accounted(w, start) && start <= w.store.end && Fails(w, w', id)
    ensures Accounted(w', start)
  {
    forall u
      ensures start <= u < w'.store.end <==> u in w'.issued || u in w'.burned || IsPending(w', u)
      ensures u in w'.burned ==> u !in w'.issued && !IsPending(w', u)
      ensures u in w'.issued ==> !IsPending(w', u)
    {
      SamePending(w, w', u);
      assert u in w'.burned <==> u in w.burned || w.store.end <= u < w'.store.end;
    }
  }

  lemma SamePending(w: World, w': World, v: int)
    requires w'.live == w.live
    ensures IsPending(w', v) <==> IsPending(w, v)
  {
    if IsPending(w, v) {
      var other :| other in w.live && Pending(w.live[other], v);
      assert Pending(w'.live[other], v);
    }
  }

  lemma TakeAccounts(w: World, start: int, id: nat, cut: Cut)
    requires Inv(w) && Accounted(w, start) && start <= w.store.end && id in w.live
    ensures Accounted(Apply(w, Take(id, cut)), start)
  {
    TakeIs(w, id, cut);
    var outcome := Next(w.store, w.live[id], cut).2;
    if outcome.Issued? {
      IssueAccounts(w, Apply(w, Take(id, cut)), start, id, outcome.value);
    } else {
      BurnAccounts(w, Apply(w, Take(id, cut)), start, id);
    }
  }

  lemma AbandonAccounts(w: World, start: int, id: nat)
    requires Inv(w) && Accounted(w, start) && id in w.live
    ensures Accounted(Apply(w, Abandon(id)), start)
  {
    var w' := Apply(w, Abandon(id));
    forall v
      ensures IsPending(w', v) <==> IsPending(w, v) && !Pending(w.live[id], v)
    {
      if IsPending(w', v) {
        var other :| other in w'.live && Pending(w'.live[other], v);
        assert Pending(w.live[other], v);
      }
      if IsPending(w, v) && !Pending(w.live[id], v) {
        var other :| other in w.live && Pending(w.live[other], v);
        assert Pending(w'.live[other], v);
      }
    }
  }

  lemma StartAccounts(w: World, start: int, id: nat, block: int)
    requires Accounted(w, start) && id !in w.live
    ensures Accounted(Apply(w, Start(id, block)), start)
  {
    var w' := Apply(w, Start(id, block));
    forall v
      ensures IsPending(w', v) <==> IsPending(w, v)
    {
      if IsPending(w', v) {
        var other :| other in w'.live && Pending(w'.live[other], v);
        assert Pending(w.live[other], v);
      }
      if IsPending(w, v) {
        var other :| other in w.live && Pending(w.live[other], v);
        assert Pending(w'.live[other], v);
      }
    }
  }

  lemma {:induction false} RunAccounts(w: World, steps: seq<Step>, start: int)
    requires Inv(w) && Accounted(w, start) && start <= w.store.end && ValidRun(w, steps)
    ensures Accounted(Run(w, steps), start)
    decreases |steps|
  {
    if steps != [] {
      match steps[0] {
        case Start(id, block) => StartAccounts(w, start, id, block);
        case Take(id, cut) => TakeAccounts(w, start, id, cut);
        case Abandon(id) => AbandonAccounts(w, start, id);
      }
      StepKeepsInv(w, steps[0]);
      RunAccounts(Apply(w, steps[0]), steps[1..], start);
    }
  }

  /** Conservation: after any run, with any number of reservations and any blocks, every
      value below the mark was issued, burned by a cut after its commit or by an abandoned
      reservation, or is pending in a live one, and only one of these. */
  lemma Conservation(end: int, steps: seq<Step>)
    requires Integer(end) && ValidRun(First(end), steps)
    ensures Accounted(Run(First(end), steps), end)
  {
    RunAccounts(First(end), steps, end);
  }

  // ---- What is burned --------------------------------------------------------------------

  /** One reservation at a time, all with the same block. */
  ghost predicate Solo(w: World, steps: seq<Step>, block: int)
    requires ValidRun(w, steps)
    decreases |steps|
  {
    && (steps != [] && steps[0].Start? ==> steps[0].block == block && w.live == map[])
    && (steps != [] ==> Solo(Apply(w, steps[0]), steps[1..], block))
  }

  /** n blocks. */
  function Blocks(block: int, n: nat): int {
    if n == 0 then 0 else Blocks(block, n - 1) + block
  }

  lemma {:induction false} BlocksIsProduct(block: int, n: nat)
    ensures Blocks(block, n) == block * n
  {
    if n > 0 {
      BlocksIsProduct(block, n - 1);
    }
  }

  lemma BurnSize(w: World, from: int, to: int)
    requires from <= to && forall v | v in w.burned :: !(from <= v < to)
    ensures |Burn(w, from, to).burned| == |w.burned| + to - from
  {
    assert w.burned !! Range(from, to);
  }

  /** Reserved but not issued: exactly what the live reservation still holds and what was
      burned. */
  ghost predicate BurnInv(w: World, start: int, block: int) {
    match w
    case World(store, live, issued, burned, commits, losses) =>
      && store.end == start + Blocks(block, commits)
      && |burned| <= Blocks(block, losses)
      && (forall v | v in burned :: v < store.end)
      && (live == map[] ==> store.end - start - |issued| == |burned|)
      && (forall id | id in live ::
            live == map[id := live[id]] && Held(live[id], block, store.end, burned, store.end - start - |issued|))
  }

  ghost predicate Held(r: Cursor, block: int, mark: int, burned: set<int>, unissued: int) {
    match r
    case Cursor(b, cursor, limit) =>
      && b == block && 0 <= limit - cursor <= block && limit <= mark
      && (forall v | v in burned :: !Pending(r, v))
      && unissued == limit - cursor + |burned|
  }

  lemma BurnIssue(w: World, w': World, id: nat, v: int, start: int, block: int)
    requires BurnInv(w, start, block) && block > 0 && Issues(w, w', id, v)
    ensures BurnInv(w', start, block)
  {
    assert w'.live == map[id := w'.live[id]];
  }

  lemma BurnFail(w: World, w': World, id: nat, start: int, block: int)
    requires BurnInv(w, start, block) && block > 0 && id in w.live && Fails(w, w', id)
    ensures BurnInv(w', start, block)
  {
    BurnSize(w, w.store.end, w'.store.end);
  }

  lemma BurnTake(w: World, id: nat, cut: Cut, start: int, block: int)
    requires BurnInv(w, start, block) && block > 0 && id in w.live
    ensures BurnInv(Apply(w, Take(id, cut)), start, block)
  {
    TakeIs(w, id, cut);
    var outcome := Next(w.store, w.live[id], cut).2;
    if outcome.Issued? {
      BurnIssue(w, Apply(w, Take(id, cut)), id, outcome.value, start, block);
    } else {
      BurnFail(w, Apply(w, Take(id, cut)), id, start, block);
    }
  }

  lemma BurnStep(w: World, step: Step, start: int, block: int)
    requires BurnInv(w, start, block) && block > 0 && Enabled(w, step)
    requires step.Start? ==> step.block == block && w.live == map[]
    ensures BurnInv(Apply(w, step), start, block)
  {
    match step
    case Start(id, _) =>
    case Take(id, cut) => BurnTake(w, id, cut, start, block);
    case Abandon(id) =>
      BurnSize(w, w.live[id].cursor, w.live[id].limit);
      assert w.live - {id} == map[];
  }

  lemma {:induction false} BurnRun(w: World, steps: seq<Step>, start: int, block: int)
    requires BurnInv(w, start, block) && block > 0
    requires ValidRun(w, steps) && Solo(w, steps, block)
    ensures BurnInv(Run(w, steps), start, block)
    decreases |steps|
  {
    if steps != [] {
      BurnStep(w, steps[0], start, block);
      BurnRun(Apply(w, steps[0]), steps[1..], start, block);
    }
  }

  /** With one reservation at a time the durable mark is exactly its start plus one
      block per commit, and what was reserved but never issued is exactly the live
      remainder and what was burned, at most one block per commit cut after it landed or
      reservation abandoned with something left. */
  lemma BurnBound(end: int, steps: seq<Step>, block: int)
    requires block > 0 && ValidRun(First(end), steps) && Solo(First(end), steps, block)
    ensures var w := Run(First(end), steps);
            && w.store.end == end + block * w.commits
            && |w.burned| <= block * w.losses
            && (w.live == map[] ==> w.store.end - end - |w.issued| == |w.burned|)
            && (forall id | id in w.live ::
                  w.store.end - end - |w.issued| == w.live[id].limit - w.live[id].cursor + |w.burned|)
  {
    BurnRun(First(end), steps, end, block);
    BlocksIsProduct(block, Run(First(end), steps).commits);
    BlocksIsProduct(block, Run(First(end), steps).losses);
  }
}
