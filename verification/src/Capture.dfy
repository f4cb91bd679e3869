/** The line capture of the hardware rigs: an append-only log, and a ring of its last lines
    that marks and searches are answered from. */
module Capture {
  import opened Basics

  const RING_LINES: nat := 4000

  type Pattern = string -> bool

  // ---- Against the unbounded log -------------------------------------------------------------

  /** The first line still in the ring. */
  function Oldest(log: seq<string>): (i: nat)
    ensures i <= |log|
  {
    if |log| <= RING_LINES then 0 else |log| - RING_LINES
  }

  /** Where the lines after a mark begin that are still in the ring. */
  function Start(log: seq<string>, mark: int): (i: nat)
  {
    if mark > |log| then |log| else if mark > Oldest(log) then mark else Oldest(log)
  }

  function LinesAfter(log: seq<string>, mark: int): seq<string> {
    log[Start(log, mark)..]
  }

  /** The ring forgets nothing after a mark exactly while at most 4000 lines followed it. */
  lemma CompleteExactly(log: seq<string>, mark: nat)
    requires mark <= |log|
    ensures LinesAfter(log, mark) == log[mark..] <==> |log| - mark <= RING_LINES
  {
    if |log| - mark > RING_LINES {
      assert |LinesAfter(log, mark)| == RING_LINES != |log[mark..]|;
    }
  }

  /** The first matching line from a position on. */
  function First(log: seq<string>, rx: Pattern, from: nat): (r: Option<nat>)
    requires from <= |log|
    ensures r.Some? ==> from <= r.value < |log| && rx(log[r.value]) && forall i | from <= i < r.value :: !rx(log[i])
    ensures r.None? ==> forall i | from <= i < |log| :: !rx(log[i])
    decreases |log| - from
  {
    if from == |log| then None else if rx(log[from]) then Some(from) else First(log, rx, from + 1)
  }

  /** A search in the ring finds the first match after the mark exactly when that match,
      if there is one, has not been evicted. */
  lemma SearchExactly(log: seq<string>, rx: Pattern, mark: nat)
    requires mark <= |log|
    ensures First(log, rx, Start(log, mark)) == First(log, rx, mark) <==>
            (First(log, rx, mark).Some? ==> First(log, rx, mark).value >= Oldest(log))
  {
    var whole, ring := First(log, rx, mark), First(log, rx, Start(log, mark));
    assert whole.Some? ==> rx(log[whole.value]);
    assert ring.Some? ==> rx(log[ring.value]);
  }

  // ---- Runs ------------------------------------------------------------------------------------

  datatype Op = Feed(line: string) | Close

  datatype State = State(log: seq<string>, closed: bool)

  function Step(s: State, op: Op): State {
    match op
    case Feed(line) => if s.closed then s else s.(log := s.log + [line])
    case Close => s.(closed := true)
  }

  function Run(s: State, ops: seq<Op>): State
    decreases |ops|
  {
    if ops == [] then s else Run(Step(s, ops[0]), ops[1..])
  }

  /** The lines fed before the capture was closed. */
  function Accepted(ops: seq<Op>): seq<string> {
    if ops == [] || ops[0].Close? then [] else [ops[0].line] + Accepted(ops[1..])
  }

  lemma {:induction false} RunAppends(s: State, ops: seq<Op>)
    ensures Run(s, ops).log == s.log + (if s.closed then [] else Accepted(ops))
    decreases |ops|
  {
    if ops != [] {
      RunAppends(Step(s, ops[0]), ops[1..]);
    }
  }

  /** Whatever came before, the lines after a mark are the last 4000 fed since, in order. */
  lemma MarkThenLines(s: State, ops: seq<Op>)
    ensures LinesAfter(Run(s, ops).log, |s.log|) == Last(if s.closed then [] else Accepted(ops), RING_LINES)
  {
    RunAppends(s, ops);
    var fed := if s.closed then [] else Accepted(ops);
    var log := s.log + fed;
    if |fed| <= RING_LINES {
      CompleteExactly(log, |s.log|);
    } else {
      assert log[|log| - RING_LINES..] == fed[|fed| - RING_LINES..];
    }
  }

  // ---- The object ----------------------------------------------------------------------------------

  class Recorder {
    var file: seq<string>      // the lines written to the log file
    var ring: seq<string>      // a deque that keeps its last 4000 elements
    var lineCount: nat
    var closed: bool

    ghost predicate Valid()
      reads this
    {
      lineCount == |file| && ring == file[Oldest(file)..]
    }

    ghost function Now(): State
      reads this
    {
      State(file, closed)
    }

    constructor ()
      ensures Valid() && Now() == State([], false)
    {
      file, ring, lineCount, closed := [], [], 0, false;
    }

    method FeedLine(text: string)
      requires Valid()
      modifies this
      ensures Valid() && Now() == Step(old(Now()), Feed(text))
    {
      if closed {
        return;
      }
      file := file + [text];
      ring := ring + [text];
      if |ring| > RING_LINES {
        ring := ring[|ring| - RING_LINES..];
      }
      lineCount := lineCount + 1;
    }

    method CloseLog()
      requires Valid()
      modifies this
      ensures Valid() && Now() == Step(old(Now()), Close)
    {
      if !closed {
        closed := true;
      }
    }

    method Mark() returns (mark: nat)
      requires Valid()
      ensures mark == |file|
    {
      mark := lineCount;
    }

    /** A slice of the ring beyond its end is empty. */
    method LinesSince(mark: int) returns (lines: seq<string>)
      requires Valid()
      ensures lines == LinesAfter(file, mark)
    {
      var evicted := lineCount - |ring|;
      var skip := if mark - evicted > 0 then mark - evicted else 0;
      lines := if skip <= |ring| then ring[skip..] else [];
    }

    /** One scan of the ring. */
    method Find(rx: Pattern, since: int) returns (r: Option<string>)
      requires Valid()
      ensures var hit := First(file, rx, Start(file, since));
              r == if hit.Some? then Some(file[hit.value]) else None
    {
      var lines := LinesSince(since);
      ghost var from := Start(file, since);
      for i := 0 to |lines|
        invariant First(file, rx, from) == First(file, rx, from + i)
      {
        assert lines[i] == file[from + i];
        if rx(lines[i]) {
          return Some(lines[i]);
        }
      }
      r := None;
    }

    /** What other threads do while a wait sleeps. */
    method Meanwhile(ops: seq<Op>)
      requires Valid()
      modifies this
      ensures Valid() && Now() == Run(old(Now()), ops)
    {
      for i := 0 to |ops|
        invariant Valid() && Run(Now(), ops[i..]) == Run(old(Now()), ops)
      {
        assert ops[i..][0] == ops[i] && ops[i..][1..] == ops[i + 1..];
        match ops[i]
        case Feed(line) => FeedLine(line);
        case Close => CloseLog();
      }
    }

    /** A bounded wait: it wakes once for each batch of other threads' steps, then times out.
        If the mark is not older than the ring and no batch is longer than the ring, the
        answer is the first match of the whole log after the mark, and None means there is none. */
    method WaitFor(rx: Pattern, since: nat, wakes: seq<seq<Op>>) returns (r: Option<string>)
      requires Valid()
      modifies this
      ensures Valid() && old(file) <= file
      ensures var hit := First(file, rx, Start(file, since));
              r == if hit.Some? then Some(file[hit.value]) else None
      ensures Oldest(old(file)) <= since <= |old(file)| && (forall i | 0 <= i < |wakes| :: |Accepted(wakes[i])| <= RING_LINES)
              ==> First(file, rx, Start(file, since)) == First(file, rx, since)
    {
      ghost var kept := Oldest(file) <= since <= |file| && forall i | 0 <= i < |wakes| :: |Accepted(wakes[i])| <= RING_LINES;
      assert kept ==> Start(file, since) == since;
      for i := 0 to |wakes|
        invariant Valid() && old(file) <= file
        invariant kept ==> First(file, rx, Start(file, since)) == First(file, rx, since)
      {
        r := Find(rx, since);
        if r.Some? || closed {
          return;
        }
        ghost var before := Now();
        Meanwhile(wakes[i]);
        RunAppends(before, wakes[i]);
        if kept {
          NothingEvicted(before.log, file, rx, since);
        }
      }
      r := Find(rx, since);
    }
  }

  /** If nothing before a short batch matched, a match in it is still in the ring. */
  lemma NothingEvicted(before: seq<string>, after: seq<string>, rx: Pattern, mark: nat)
    requires before <= after && |after| - |before| <= RING_LINES && mark <= |before|
    requires First(before, rx, mark).None?
    ensures First(after, rx, Start(after, mark)) == First(after, rx, mark)
  {
    var hit := First(after, rx, mark);
    assert forall i | 0 <= i < |before| :: before[i] == after[i];
    assert hit.Some? ==> hit.value >= |before|;
    SearchExactly(after, rx, mark);
  }
}
