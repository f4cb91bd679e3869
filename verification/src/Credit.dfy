/** Write credit of one session: absolute grants that may arrive in any order, and writes
    that consume them. */
module Credit {
  import opened Basics
  import opened Runs

  function Max(a: nat, b: int): (r: nat)
    requires b >= 0
  {
    if b > a then b else a
  }

  datatype Error = SessionOrAuth | InvalidCredit | InvalidLength | NoCredit | UnknownPartialWrite

  datatype Reply = Done | Token(token: nat) | Refused(why: Error)

  datatype Op =
    | Grant(session: string, frames: int, octets: int, authenticated: bool)
    | Begin(size: int)
    | Continue(token: nat)
    | Finish(token: nat)

  datatype State = State(
    session: string, grantFrames: nat, grantBytes: nat, consumedFrames: nat, consumedBytes: nat,
    nextToken: nat, partial: set<nat>)

  /** What an operation answers. */
  function Answer(s: State, op: Op): Reply {
    match op
    case Grant(session, frames, octets, authenticated) =>
      if session != s.session || !authenticated then Refused(SessionOrAuth)
      else if !Integer(frames) || !Integer(octets) then Refused(InvalidCredit)
      else Done
    case Begin(size) =>
      if !Integer(size) || size == 0 then Refused(InvalidLength)
      else if s.consumedFrames + 1 > s.grantFrames || s.consumedBytes + size > s.grantBytes then Refused(NoCredit)
      else Token(s.nextToken)
    case Continue(token) => if token in s.partial then Done else Refused(UnknownPartialWrite)
    case Finish(token) => if token in s.partial then Done else Refused(UnknownPartialWrite)
  }

  /** What it changes; a refused operation changes nothing. */
  function Next(s: State, op: Op): State {
    if Answer(s, op).Refused? then s
    else
      match op
      case Grant(_, frames, octets, _) =>
        s.(grantFrames := Max(s.grantFrames, frames), grantBytes := Max(s.grantBytes, octets))
      case Begin(size) =>
        s.(consumedFrames := s.consumedFrames + 1, consumedBytes := s.consumedBytes + size,
           nextToken := s.nextToken + 1, partial := s.partial + {s.nextToken})
      case Continue(_) => s
      case Finish(token) => s.(partial := s.partial - {token})
  }

  function Fresh(session: string): State {
    State(session, 0, 0, 0, 0, 1, {})
  }

  class Account {
    const session: string
    var grantFrames: nat
    var grantBytes: nat
    var consumedFrames: nat
    var consumedBytes: nat
    var nextToken: nat
    var partial: set<nat>

    ghost function Now(): State
      reads this
    {
      State(session, grantFrames, grantBytes, consumedFrames, consumedBytes, nextToken, partial)
    }

    constructor (session: string)
      ensures Now() == Fresh(session)
    {
      this.session := session;
      grantFrames, grantBytes, consumedFrames, consumedBytes, nextToken, partial := 0, 0, 0, 0, 1, {};
    }

    method GrantCredit(from: string, frames: int, octets: int, authenticated: bool) returns (r: Reply)
      modifies this
      ensures r == Answer(old(Now()), Grant(from, frames, octets, authenticated))
      ensures Now() == Next(old(Now()), Grant(from, frames, octets, authenticated))
    {
      if from != session || !authenticated {
        return Refused(SessionOrAuth);
      }
      if !Integer(frames) || !Integer(octets) {
        return Refused(InvalidCredit);
      }
      grantFrames := Max(grantFrames, frames);
      grantBytes := Max(grantBytes, octets);
      r := Done;
    }

    method BeginWrite(size: int) returns (r: Reply)
      modifies this
      ensures r == Answer(old(Now()), Begin(size)) && Now() == Next(old(Now()), Begin(size))
    {
      if !Integer(size) || size == 0 {
        return Refused(InvalidLength);
      }
      if consumedFrames + 1 > grantFrames || consumedBytes + size > grantBytes {
        return Refused(NoCredit);
      }
      consumedFrames, consumedBytes := consumedFrames + 1, consumedBytes + size;
      r := Token(nextToken);
      partial := partial + {nextToken};
      nextToken := nextToken + 1;
    }

    method ContinueWrite(token: nat) returns (r: Reply)
      ensures r == Answer(Now(), Continue(token))
    {
      r := if token in partial then Done else Refused(UnknownPartialWrite);
    }

    method FinishWrite(token: nat) returns (r: Reply)
      modifies this
      ensures r == Answer(old(Now()), Finish(token)) && Now() == Next(old(Now()), Finish(token))
    {
      r := ContinueWrite(token);
      if r.Done? {
        partial := partial - {token};
      }
    }
  }

  // ---- Runs -----------------------------------------------------------------------------------

  /** The state with what led to it: sizes and tokens of the writes begun, tokens finished. */
  datatype History = History(s: State, sizes: seq<nat>, tokens: seq<nat>, finished: seq<nat>)

  function Advance(h: History, op: Op): History {
    var s := Next(h.s, op);
    if Answer(h.s, op).Refused? then h
    else
      match op
      case Begin(size) => History(s, h.sizes + [if size >= 0 then size else 0], h.tokens + [h.s.nextToken], h.finished)
      case Finish(token) => h.(s := s, finished := h.finished + [token])
      case _ => h.(s := s)
  }

  function Sum(s: seq<nat>): nat {
    if s == [] then 0 else Sum(s[..|s| - 1]) + s[|s| - 1]
  }

  ghost predicate Distinct(s: seq<nat>) {
    forall i, j | 0 <= i < j < |s| :: s[i] != s[j]
  }

  /** What was consumed is the writes begun and within the grant; tokens are new each time;
      the open writes are those begun and not finished, each finished at most once. */
  ghost predicate Safe(h: History) {
    match h.s
    case State(_, gf, gb, cf, cb, next, open) =>
      && cf == |h.sizes| == |h.tokens| && cb == Sum(h.sizes) && cf <= gf && cb <= gb
      && TokensNew(h.tokens, next) && OpenIs(open, h.tokens, h.finished)
  }

  ghost predicate TokensNew(tokens: seq<nat>, next: nat) {
    next >= 1 && Distinct(tokens) && forall i | 0 <= i < |tokens| :: 1 <= tokens[i] < next
  }

  ghost predicate OpenIs(open: set<nat>, tokens: seq<nat>, finished: seq<nat>) {
    && Distinct(finished) && (forall t :: t in open <==> t in tokens && t !in finished)
    && (forall t :: t in finished ==> t in tokens) && |open| + |finished| == |tokens|
  }

  lemma StepSafe(h: History, op: Op)
    requires Safe(h)
    ensures Safe(Advance(h, op))
  {
    match op
    case Begin(size) =>
      if Answer(h.s, op).Token? {
        BeginSafe(h, size);
      }
    case _ =>
  }

  lemma OpenGrows(open: set<nat>, tokens: seq<nat>, finished: seq<nat>, t: nat)
    requires OpenIs(open, tokens, finished) && t !in tokens
    ensures OpenIs(open + {t}, tokens + [t], finished)
  {
    forall u
      ensures u in tokens + [t] <==> u in tokens || u == t
    {
    }
  }

  lemma BeginSafe(h: History, size: int)
    requires Safe(h) && Answer(h.s, Begin(size)).Token?
    ensures Safe(Advance(h, Begin(size)))
  {
    assert Advance(h, Begin(size)).sizes[..|h.sizes|] == h.sizes;
    assert h.s.nextToken !in h.tokens;
    OpenGrows(h.s.partial, h.tokens, h.finished, h.s.nextToken);
  }

  predicate AnyOp(op: Op) {
    true
  }

  /** Over every run of grants, begins and finishes. */
  lemma CreditSafety(session: string, ops: seq<Op>)
    ensures Safe(Fold(Advance, History(Fresh(session), [], [], []), ops))
  {
    forall h: History, op: Op | Safe(h)
      ensures Safe(Advance(h, op))
    {
      StepSafe(h, op);
    }
    assert Kept(Safe, AnyOp, Advance);
    FoldKeeps(Safe, AnyOp, Advance, History(Fresh(session), [], [], []), ops);
  }

  // ---- Grants in any order ------------------------------------------------------------------------

  /** The grants a session accepts, whatever its state. */
  predicate Acceptable(session: string, op: Op) {
    op.Grant? && op.session == session && op.authenticated && Integer(op.frames) && Integer(op.octets)
  }

  ghost predicate Same(session: string, a: seq<Op>, b: seq<Op>) {
    forall op :: Acceptable(session, op) ==> (op in a <==> op in b)
  }

  /** The grant is the least that covers every accepted one. */
  ghost predicate Covers(session: string, ops: seq<Op>, s: State) {
    && s.session == session
    && (forall op | op in ops && Acceptable(session, op) :: op.frames <= s.grantFrames && op.octets <= s.grantBytes)
    && (s.grantFrames == 0 || exists op :: op in ops && Acceptable(session, op) && op.frames == s.grantFrames)
    && (s.grantBytes == 0 || exists op :: op in ops && Acceptable(session, op) && op.octets == s.grantBytes)
  }

  lemma {:induction false} CoversRun(session: string, done: seq<Op>, s: State, ops: seq<Op>)
    requires Covers(session, done, s)
    ensures Covers(session, done + ops, Fold(Next, s, ops))
    decreases |ops|
  {
    if ops == [] {
      assert done + ops == done;
    } else {
      CoversRun(session, done + [ops[0]], Next(s, ops[0]), ops[1..]);
      assert done + [ops[0]] + ops[1..] == done + ops;
    }
  }

  /** Runs that accepted the same grants end with the same grant, whatever the order and
      repetition, and whatever else happened between them. */
  lemma GrantsCommute(session: string, a: seq<Op>, b: seq<Op>)
    requires Same(session, a, b)
    ensures Fold(Next, Fresh(session), a).grantFrames == Fold(Next, Fresh(session), b).grantFrames
    ensures Fold(Next, Fresh(session), a).grantBytes == Fold(Next, Fresh(session), b).grantBytes
  {
    CoversRun(session, [], Fresh(session), a);
    CoversRun(session, [], Fresh(session), b);
    assert [] + a == a && [] + b == b;
    var x, y := Fold(Next, Fresh(session), a), Fold(Next, Fresh(session), b);
    SameCover(session, a, b, x, y);
    SameCover(session, b, a, y, x);
  }

  lemma SameCover(session: string, a: seq<Op>, b: seq<Op>, x: State, y: State)
    requires Same(session, a, b) && Covers(session, a, x) && Covers(session, b, y)
    ensures x.grantFrames <= y.grantFrames && x.grantBytes <= y.grantBytes
  {
    if x.grantFrames > 0 {
      var op :| op in a && Acceptable(session, op) && op.frames == x.grantFrames;
      assert op in b;
    }
    if x.grantBytes > 0 {
      var op :| op in a && Acceptable(session, op) && op.octets == x.grantBytes;
      assert op in b;
    }
  }
}
