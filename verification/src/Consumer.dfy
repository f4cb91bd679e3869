/** The display consumer: records and cursor are committed together, so what is stored is
    always the newest part of the prefix the cursor names. */
module Consumer {
  import opened Basics
  import opened Runs

  const MAX_RECORDS: nat := 4096
  const POLL_LIMIT: nat := 32

  datatype Record = Record(network: string, origin: string, session: string, sequence: string, body: string)

  datatype Key = Key(network: string, origin: string, session: string, sequence: string)

  function KeyOf(r: Record): Key {
    Key(r.network, r.origin, r.session, r.sequence)
  }

  datatype Row = Row(id: nat, record: Record)

  // ---- The statements -----------------------------------------------------------------------

  predicate Stored(rows: seq<Row>, key: Key) {
    exists i | 0 <= i < |rows| :: KeyOf(rows[i].record) == key
  }

  function MaxId(rows: seq<Row>): (m: nat)
    ensures forall i | 0 <= i < |rows| :: rows[i].id <= m
  {
    if rows == [] then 0
    else
      var m := MaxId(rows[..|rows| - 1]);
      if rows[|rows| - 1].id > m then rows[|rows| - 1].id else m
  }

  /** INSERT OR IGNORE; a new row gets the id after the largest one. */
  function Insert(rows: seq<Row>, r: Record): seq<Row> {
    if Stored(rows, KeyOf(r)) then rows else rows + [Row(MaxId(rows) + 1, r)]
  }

  function InsertAll(rows: seq<Row>, records: seq<Record>): seq<Row>
    decreases |records|
  {
    if records == [] then rows else InsertAll(Insert(rows, records[0]), records[1..])
  }

  /** How many rows have a larger id. */
  function Above(rows: seq<Row>, id: nat): nat {
    if rows == [] then 0 else (if rows[0].id > id then 1 else 0) + Above(rows[1..], id)
  }

  /** DELETE of every row whose id is not among the 4096 largest, the rows of `all`. */
  function Newest(rows: seq<Row>, all: seq<Row>): seq<Row> {
    if rows == [] then []
    else (if Above(all, rows[0].id) < MAX_RECORDS then [rows[0]] else []) + Newest(rows[1..], all)
  }

  datatype Tables = Tables(rows: seq<Row>, cursors: map<string, nat>)

  /** The transaction of save_batch. */
  function Save(db: Tables, network: string, records: seq<Record>, next: nat): Tables {
    var rows := InsertAll(db.rows, records);
    Tables(Newest(rows, rows), db.cursors[network := next])
  }

  // ---- The table keeps the order of arrival -----------------------------------------------------

  ghost predicate Ascending(rows: seq<Row>) {
    forall i, j | 0 <= i < j < |rows| :: rows[i].id < rows[j].id
  }

  lemma {:induction false} AboveNone(rows: seq<Row>, id: nat)
    requires forall i | 0 <= i < |rows| :: rows[i].id <= id
    ensures Above(rows, id) == 0
  {
    if rows != [] {
      AboveNone(rows[1..], id);
    }
  }

  lemma {:induction false} AboveAll(rows: seq<Row>, id: nat)
    requires forall i | 0 <= i < |rows| :: rows[i].id > id
    ensures Above(rows, id) == |rows|
  {
    if rows != [] {
      AboveAll(rows[1..], id);
    }
  }

  lemma {:induction false} AboveAppend(a: seq<Row>, b: seq<Row>, id: nat)
    ensures Above(a + b, id) == Above(a, id) + Above(b, id)
    decreases |a|
  {
    if a == [] {
      assert a + b == b;
    } else {
      assert (a + b)[0] == a[0] && (a + b)[1..] == a[1..] + b;
      AboveAppend(a[1..], b, id);
    }
  }

  lemma AboveSplit(low: seq<Row>, high: seq<Row>, id: nat)
    requires forall i | 0 <= i < |low| :: low[i].id <= id
    requires forall i | 0 <= i < |high| :: high[i].id > id
    ensures Above(low + high, id) == |high|
  {
    AboveAppend(low, high, id);
    AboveNone(low, id);
    AboveAll(high, id);
  }

  lemma AboveAt(rows: seq<Row>, i: nat)
    requires Ascending(rows) && i < |rows|
    ensures Above(rows, rows[i].id) == |rows| - 1 - i
  {
    AboveSplit(rows[..i + 1], rows[i + 1..], rows[i].id);
    assert rows == rows[..i + 1] + rows[i + 1..];
  }

  lemma NewestStep(all: seq<Row>, i: nat)
    requires Ascending(all) && i < |all|
    ensures Newest(all[i..], all) == (if |all| - 1 - i < MAX_RECORDS then [all[i]] else []) + Newest(all[i + 1..], all)
  {
    AboveAt(all, i);
    assert all[i..][0] == all[i] && all[i..][1..] == all[i + 1..];
  }

  /** In a table in order of arrival the statement keeps the last 4096 rows. */
  lemma {:induction false} NewestFrom(all: seq<Row>, i: nat)
    requires Ascending(all) && i <= |all|
    ensures Newest(all[i..], all) == all[if i < |all| - MAX_RECORDS then |all| - MAX_RECORDS else i..]
    decreases |all| - i
  {
    if i < |all| {
      NewestStep(all, i);
      NewestFrom(all, i + 1);
      if i >= |all| - MAX_RECORDS {
        assert [all[i]] + all[i + 1..] == all[i..];
      }
    }
  }

  lemma NewestIsLast(rows: seq<Row>)
    requires Ascending(rows)
    ensures Newest(rows, rows) == Last(rows, MAX_RECORDS)
  {
    NewestFrom(rows, 0);
    assert rows[0..] == rows;
  }

  // ---- The object -----------------------------------------------------------------------------------

  class Database {
    var rows: seq<Row>
    var cursors: map<string, nat>

    constructor ()
      ensures rows == [] && cursors == map[]
    {
      rows, cursors := [], map[];
    }

    static method Holds(work: seq<Row>, key: Key) returns (b: bool)
      ensures b == Stored(work, key)
    {
      for i := 0 to |work|
        invariant forall j | 0 <= j < i :: KeyOf(work[j].record) != key
      {
        if KeyOf(work[i].record) == key {
          return true;
        }
      }
      b := false;
    }

    static method InsertMany(rows: seq<Row>, records: seq<Record>) returns (work: seq<Row>)
      ensures work == InsertAll(rows, records)
    {
      work := rows;
      for i := 0 to |records|
        invariant InsertAll(work, records[i..]) == InsertAll(rows, records)
      {
        assert records[i..][0] == records[i] && records[i..][1..] == records[i + 1..];
        var held := Holds(work, KeyOf(records[i]));
        if !held {
          work := work + [Row(MaxId(work) + 1, records[i])];
        }
      }
    }

    static method KeepNewest(work: seq<Row>) returns (kept: seq<Row>)
      ensures kept == Newest(work, work)
    {
      kept := [];
      for i := 0 to |work|
        invariant kept + Newest(work[i..], work) == Newest(work, work)
      {
        assert work[i..][0] == work[i] && work[i..][1..] == work[i + 1..];
        if Above(work, work[i].id) < MAX_RECORDS {
          kept := kept + [work[i]];
        }
      }
    }

    /** save_batch: all of it, or none of it when the process dies before the commit. */
    method SaveBatch(network: string, records: seq<Record>, next: nat, dies: bool) returns (saved: bool)
      modifies this
      ensures saved == !dies
      ensures Tables(rows, cursors) == if dies then old(Tables(rows, cursors)) else Save(old(Tables(rows, cursors)), network, records, next)
    {
      var work := InsertMany(rows, records);
      var kept := KeepNewest(work);
      if dies {
        return false;
      }
      rows, cursors := kept, cursors[network := next];
      saved := true;
    }

    /** One turn of the poll loop: read after the stored cursor, save. */
    method Turn(network: string, stream: seq<Record>, count: nat, dies: bool)
      requires CursorOf(cursors, network) + count <= |stream|
      modifies this
      ensures Tables(rows, cursors) == Polled(old(Tables(rows, cursors)), network, stream, count, dies)
    {
      var cursor := if network in cursors then cursors[network] else 0;
      var saved := SaveBatch(network, stream[cursor..cursor + count], cursor + count, dies);
    }
  }

  /** A consumer that has no cursor reads from the earliest record. */
  function CursorOf(cursors: map<string, nat>, network: string): nat {
    if network in cursors then cursors[network] else 0
  }

  function Polled(db: Tables, network: string, stream: seq<Record>, count: nat, dies: bool): Tables
    requires CursorOf(db.cursors, network) + count <= |stream|
  {
    var cursor := CursorOf(db.cursors, network);
    if dies then db else Save(db, network, stream[cursor..cursor + count], cursor + count)
  }

  // ---- Runs -------------------------------------------------------------------------------------------

  /** The server appends to one stream per network; consumers poll, or die on the way. */
  datatype Step = Append(r: Record) | Poll(network: string, count: nat, dies: bool)

  datatype World = World(db: Tables, streams: map<string, seq<Record>>)

  function StreamOf(w: World, network: string): seq<Record> {
    if network in w.streams then w.streams[network] else []
  }

  ghost predicate Fresh(s: seq<Record>, r: Record) {
    forall i | 0 <= i < |s| :: KeyOf(s[i]) != KeyOf(r)
  }

  ghost predicate Possible(w: World, step: Step) {
    match step
    case Append(r) => Fresh(StreamOf(w, r.network), r)
    case Poll(network, count, _) =>
      count <= POLL_LIMIT && CursorOf(w.db.cursors, network) + count <= |StreamOf(w, network)|
  }

  ghost function After(w: World, step: Step): World
    requires Possible(w, step)
  {
    match step
    case Append(r) => w.(streams := w.streams[r.network := StreamOf(w, r.network) + [r]])
    case Poll(network, count, dies) => w.(db := Polled(w.db, network, StreamOf(w, network), count, dies))
  }

  function Records(rows: seq<Row>): (r: seq<Record>)
  {
    seq(|rows|, i requires 0 <= i < |rows| => rows[i].record)
  }

  function Of(s: seq<Record>, network: string): seq<Record> {
    if s == [] then []
    else Of(s[..|s| - 1], network) + (if s[|s| - 1].network == network then [s[|s| - 1]] else [])
  }

  /** The table holds the newest of the records ever committed; of each network those are
      the prefix its cursor names, so none is duplicated, skipped or out of order. */
  ghost predicate Inv(w: World, committed: seq<Record>) {
    match w.db
    case Tables(rows, _) =>
      && Ascending(rows) && Records(rows) == Last(committed, MAX_RECORDS) && Distinct(committed)
      && forall n :: NetworkInv(w, committed, n)
  }

  ghost predicate Distinct(s: seq<Record>) {
    forall i, j | 0 <= i < j < |s| :: KeyOf(s[i]) != KeyOf(s[j])
  }

  ghost predicate NetworkInv(w: World, committed: seq<Record>, n: string) {
    Prefix(CursorOf(w.db.cursors, n), StreamOf(w, n), committed, n)
  }

  ghost predicate Prefix(cursor: nat, stream: seq<Record>, committed: seq<Record>, n: string) {
    && cursor <= |stream| && Of(committed, n) == stream[..cursor]
    && (forall i | 0 <= i < |stream| :: stream[i].network == n) && Distinct(stream)
  }

  // ---- One batch -----------------------------------------------------------------------------------

  ghost predicate Unrelated(a: seq<Record>, b: seq<Record>) {
    forall i, j | 0 <= i < |a| && 0 <= j < |b| :: KeyOf(a[i]) != KeyOf(b[j])
  }

  /** New records are appended, none ignored. */
  lemma {:induction false} InsertAllAppends(rows: seq<Row>, batch: seq<Record>)
    requires Ascending(rows) && Unrelated(Records(rows), batch) && Distinct(batch)
    ensures Ascending(InsertAll(rows, batch)) && Records(InsertAll(rows, batch)) == Records(rows) + batch
    decreases |batch|
  {
    if batch != [] {
      InsertNew(rows, batch[0]);
      var rows', rest := Insert(rows, batch[0]), batch[1..];
      InsertAllAppends(rows', rest);
    }
  }

  lemma InsertNew(rows: seq<Row>, r: Record)
    requires Ascending(rows) && forall i | 0 <= i < |rows| :: KeyOf(Records(rows)[i]) != KeyOf(r)
    ensures Ascending(Insert(rows, r)) && Records(Insert(rows, r)) == Records(rows) + [r]
  {
    assert forall i | 0 <= i < |rows| :: KeyOf(rows[i].record) == KeyOf(Records(rows)[i]);
  }

  lemma LastOfGrown(committed: seq<Record>, batch: seq<Record>)
    ensures Last(Last(committed, MAX_RECORDS) + batch, MAX_RECORDS) == Last(committed + batch, MAX_RECORDS)
  {
  }

  /** The table after a batch of new records. */
  lemma SavedTable(rows: seq<Row>, committed: seq<Record>, batch: seq<Record>)
    requires Ascending(rows) && Records(rows) == Last(committed, MAX_RECORDS)
    requires Unrelated(committed, batch) && Distinct(batch)
    ensures var all := InsertAll(rows, batch);
            Ascending(Newest(all, all)) && Records(Newest(all, all)) == Last(committed + batch, MAX_RECORDS)
  {
    assert Unrelated(Records(rows), batch) by {
      forall i, j | 0 <= i < |rows| && 0 <= j < |batch|
        ensures KeyOf(Records(rows)[i]) != KeyOf(batch[j])
      {
        assert Records(rows)[i] == committed[|committed| - |rows| + i];
      }
    }
    InsertAllAppends(rows, batch);
    var all := InsertAll(rows, batch);
    NewestIsLast(all);
    LastOfGrown(committed, batch);
  }

  // ---- Every step ---------------------------------------------------------------------------------------

  lemma {:induction false} OfHolds(s: seq<Record>, i: nat)
    requires i < |s|
    ensures s[i] in Of(s, s[i].network)
    decreases |s|
  {
    if i < |s| - 1 {
      OfHolds(s[..|s| - 1], i);
    }
  }

  lemma OfLast(s: seq<Record>, r: Record, m: string)
    ensures Of(s + [r], m) == Of(s, m) + (if r.network == m then [r] else [])
  {
    assert (s + [r])[..|s|] == s;
  }

  lemma Snoc(s: seq<Record>, front: seq<Record>, last: Record)
    ensures s + (front + [last]) == s + front + [last]
  {
  }

  lemma OfStep(s: seq<Record>, front: seq<Record>, last: Record, n: string)
    requires last.network == n && Of(s + front, n) == Of(s, n) + front
    ensures Of(s + (front + [last]), n) == Of(s, n) + (front + [last])
  {
    Snoc(s, front, last);
    OfLast(s + front, last, n);
    Snoc(Of(s, n), front, last);
  }

  lemma OfSkip(s: seq<Record>, front: seq<Record>, last: Record, m: string)
    requires last.network != m && Of(s + front, m) == Of(s, m)
    ensures Of(s + (front + [last]), m) == Of(s, m)
  {
    Snoc(s, front, last);
    OfLast(s + front, last, m);
  }

  lemma {:induction false} OfAppend(s: seq<Record>, batch: seq<Record>, n: string)
    requires forall i | 0 <= i < |batch| :: batch[i].network == n
    ensures Of(s + batch, n) == Of(s, n) + batch
    decreases |batch|
  {
    if batch == [] {
      assert s + batch == s && Of(s, n) + batch == Of(s, n);
    } else {
      var front, last := batch[..|batch| - 1], batch[|batch| - 1];
      assert batch == front + [last];
      OfAppend(s, front, n);
      OfStep(s, front, last, n);
    }
  }

  lemma {:induction false} OfOthers(s: seq<Record>, batch: seq<Record>, m: string)
    requires forall i | 0 <= i < |batch| :: batch[i].network != m
    ensures Of(s + batch, m) == Of(s, m)
    decreases |batch|
  {
    if batch == [] {
      assert s + batch == s;
    } else {
      var front, last := batch[..|batch| - 1], batch[|batch| - 1];
      assert batch == front + [last];
      OfOthers(s, front, m);
      OfSkip(s, front, last, m);
    }
  }

  /** What a poll returns has not been committed before. */
  lemma BatchIsNew(w: World, committed: seq<Record>, n: string, count: nat)
    requires NetworkInv(w, committed, n) && CursorOf(w.db.cursors, n) + count <= |StreamOf(w, n)|
    ensures var c := CursorOf(w.db.cursors, n);
            var batch := StreamOf(w, n)[c..c + count];
            Unrelated(committed, batch) && Distinct(batch) && forall i | 0 <= i < |batch| :: batch[i].network == n
  {
    var c, stream := CursorOf(w.db.cursors, n), StreamOf(w, n);
    var batch := stream[c..c + count];
    forall i, j | 0 <= i < |committed| && 0 <= j < |batch|
      ensures KeyOf(committed[i]) != KeyOf(batch[j])
    {
      assert batch[j] == stream[c + j];
      if committed[i].network == n {
        OfHolds(committed, i);
        var k :| 0 <= k < c && stream[..c][k] == committed[i];
        assert stream[k] == committed[i];
      }
    }
  }

  /** The records one step commits. */
  ghost function Commits(w: World, step: Step): seq<Record>
    requires Possible(w, step)
  {
    match step
    case Append(_) => []
    case Poll(n, count, dies) =>
      var c := CursorOf(w.db.cursors, n);
      if dies then [] else StreamOf(w, n)[c..c + count]
  }

  lemma PrefixGrows(c: nat, stream: seq<Record>, committed: seq<Record>, n: string, count: nat)
    requires Prefix(c, stream, committed, n) && c + count <= |stream|
    ensures Prefix(c + count, stream, committed + stream[c..c + count], n)
  {
    OfAppend(committed, stream[c..c + count], n);
    assert stream[..c] + stream[c..c + count] == stream[..c + count];
  }

  lemma PrefixStays(c: nat, stream: seq<Record>, committed: seq<Record>, m: string, batch: seq<Record>, n: string)
    requires Prefix(c, stream, committed, m) && m != n && forall i | 0 <= i < |batch| :: batch[i].network == n
    ensures Prefix(c, stream, committed + batch, m)
  {
    OfOthers(committed, batch, m);
  }

  /** A poll moves one cursor and no stream. */
  lemma PollMoves(w: World, n: string, count: nat, m: string)
    requires Possible(w, Poll(n, count, false))
    ensures var w' := After(w, Poll(n, count, false));
            && StreamOf(w', m) == StreamOf(w, m)
            && CursorOf(w'.db.cursors, m) == if m == n then CursorOf(w.db.cursors, n) + count else CursorOf(w.db.cursors, m)
  {
  }

  lemma PollKeepsNetwork(w: World, committed: seq<Record>, n: string, count: nat, m: string)
    requires NetworkInv(w, committed, n) && NetworkInv(w, committed, m) && Possible(w, Poll(n, count, false))
    ensures NetworkInv(After(w, Poll(n, count, false)), committed + Commits(w, Poll(n, count, false)), m)
  {
    PollMoves(w, n, count, m);
    if m == n {
      PrefixGrows(CursorOf(w.db.cursors, n), StreamOf(w, n), committed, n, count);
    } else {
      BatchIsNew(w, committed, n, count);
      PrefixStays(CursorOf(w.db.cursors, m), StreamOf(w, m), committed, m, Commits(w, Poll(n, count, false)), n);
    }
  }

  lemma PollKeepsInv(w: World, committed: seq<Record>, n: string, count: nat)
    requires Inv(w, committed) && Possible(w, Poll(n, count, false))
    ensures Inv(After(w, Poll(n, count, false)), committed + Commits(w, Poll(n, count, false)))
  {
    var batch := Commits(w, Poll(n, count, false));
    assert NetworkInv(w, committed, n);
    BatchIsNew(w, committed, n, count);
    SavedTable(w.db.rows, committed, batch);
    forall m ensures NetworkInv(After(w, Poll(n, count, false)), committed + batch, m) {
      assert NetworkInv(w, committed, m);
      PollKeepsNetwork(w, committed, n, count, m);
    }
  }

  lemma AppendKeepsInv(w: World, committed: seq<Record>, r: Record)
    requires Inv(w, committed) && Possible(w, Append(r))
    ensures Inv(After(w, Append(r)), committed)
  {
    forall m ensures NetworkInv(After(w, Append(r)), committed, m) {
      assert NetworkInv(w, committed, m);
    }
  }

  lemma StepKeepsInv(w: World, committed: seq<Record>, step: Step)
    requires Inv(w, committed) && Possible(w, step)
    ensures Inv(After(w, step), committed + Commits(w, step))
  {
    if step.Append? || step.dies {
      assert committed + Commits(w, step) == committed;
    }
    match step
    case Append(r) => AppendKeepsInv(w, committed, r);
    case Poll(n, count, dies) =>
      if !dies {
        PollKeepsInv(w, committed, n, count);
      }
  }

  /** The world and everything committed so far; what cannot happen changes nothing. */
  datatype History = History(w: World, committed: seq<Record>)

  ghost function Advance(h: History, step: Step): History {
    if Possible(h.w, step) then History(After(h.w, step), h.committed + Commits(h.w, step)) else h
  }

  ghost predicate Good(h: History) {
    Inv(h.w, h.committed)
  }

  ghost predicate Always(step: Step) {
    true
  }

  const BEGINNING := History(World(Tables([], map[]), map[]), [])

  lemma GoodBeginning()
    ensures Good(BEGINNING)
  {
    forall n ensures NetworkInv(BEGINNING.w, [], n) {
      assert StreamOf(BEGINNING.w, n)[..0] == [];
    }
  }

  /** After any polls, appends and crashes the table is the newest part of everything
      committed, and of each network that is exactly the prefix its cursor names. */
  lemma DurableConsumer(steps: seq<Step>)
    ensures Good(Fold(Advance, BEGINNING, steps))
  {
    GoodBeginning();
    forall h: History, step: Step | Good(h)
      ensures Good(Advance(h, step))
    {
      if Possible(h.w, step) {
        StepKeepsInv(h.w, h.committed, step);
      }
    }
    assert Kept(Good, Always, Advance);
    FoldKeeps(Good, Always, Advance, BEGINNING, steps);
  }

  ghost predicate GoodAlone(n: string, h: History) {
    Good(h) && Of(h.committed, n) == h.committed
  }

  predicate About(n: string, step: Step) {
    step.Poll? ==> step.network == n
  }

  lemma CommitsOne(w: World, committed: seq<Record>, step: Step, n: string)
    requires Inv(w, committed) && Possible(w, step) && About(n, step)
    ensures forall i | 0 <= i < |Commits(w, step)| :: Commits(w, step)[i].network == n
  {
    assert NetworkInv(w, committed, n);
    if step.Poll? {
      BatchIsNew(w, committed, n, step.count);
    }
  }

  lemma AloneGrows(committed: seq<Record>, batch: seq<Record>, n: string)
    requires Of(committed, n) == committed && forall i | 0 <= i < |batch| :: batch[i].network == n
    ensures Of(committed + batch, n) == committed + batch
  {
    OfAppend(committed, batch, n);
  }

  lemma StepAlone(n: string, h: History, step: Step)
    requires GoodAlone(n, h) && About(n, step)
    ensures GoodAlone(n, Advance(h, step))
  {
    if Possible(h.w, step) {
      StepKeepsInv(h.w, h.committed, step);
      CommitsOne(h.w, h.committed, step, n);
      AloneGrows(h.committed, Commits(h.w, step), n);
    }
  }

  /** With one network the table is the last 4096 records before the stored cursor. */
  lemma StoredIsNewestOfPrefix(steps: seq<Step>, n: string)
    requires forall i | 0 <= i < |steps| :: About(n, steps[i])
    ensures var w := Fold(Advance, BEGINNING, steps).w;
            var c := CursorOf(w.db.cursors, n);
            c <= |StreamOf(w, n)| && Records(w.db.rows) == Last(StreamOf(w, n)[..c], MAX_RECORDS)
  {
    GoodBeginning();
    var inv, ok := (h: History) => GoodAlone(n, h), (step: Step) => About(n, step);
    forall h: History, step: Step | inv(h) && ok(step)
      ensures inv(Advance(h, step))
    {
      StepAlone(n, h, step);
    }
    assert Kept(inv, ok, Advance);
    FoldKeeps(inv, ok, Advance, BEGINNING, steps);
    var h := Fold(Advance, BEGINNING, steps);
    assert NetworkInv(h.w, h.committed, n);
  }
}
