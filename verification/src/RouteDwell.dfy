/** Exactly when loop freedom holds: dwell, reclaiming, restarts and marking. */
module RouteDwell {
  // Whenever a relay can forget its distance within the lease plus the age of a frame
  // plus a poll gap of its last finite record, or sends a record its distance does not
  // cover, three relays can close a loop: one accepts a route that leads back to itself
  // while a neighbour still forwards to it on an old record.

  import opened Babel
  import opened RouteEntry
  import opened RouteNetwork

  // ---- Reachability ------------------------------------------------------------

  ghost predicate Reaches(c: Config, net: Net, net': Net) {
    // The case keeps the definition folded in goals, so proofs use the lemmas about it.
    match net
    case Net(_, _, _, _, _, _) => exists steps :: ValidRun(c, net, steps) && Run(c, net, steps) == net'
  }

  lemma {:induction false} RunAppend(c: Config, net: Net, first: seq<Step>, second: seq<Step>)
    requires ValidRun(c, net, first) && ValidRun(c, Run(c, net, first), second)
    ensures ValidRun(c, net, first + second)
    ensures Run(c, net, first + second) == Run(c, Run(c, net, first), second)
    decreases |first|
  {
    if first == [] {
      assert first + second == second;
    } else {
      assert (first + second)[1..] == first[1..] + second;
      RunAppend(c, Apply(c, net, first[0]), first[1..], second);
    }
  }

  lemma ReachesTrans(c: Config, a: Net, b: Net, d: Net)
    requires Reaches(c, a, b) && Reaches(c, b, d)
    ensures Reaches(c, a, d)
  {
    var first :| ValidRun(c, a, first) && Run(c, a, first) == b;
    var second :| ValidRun(c, b, second) && Run(c, b, second) == d;
    RunAppend(c, a, first, second);
  }

  /** Every sequence in sight is 1, so all comparisons are in one window. */
  ghost predicate AllOnes(net: Net) {
    match net
    case Net(_, entries, _, _, _, _) => forall n | n in entries :: OnesEntry(entries[n])
  }

  predicate OnesEntry(e: Entry) {
    && (e.fd.Distance? ==> e.fd.sequence == 1)
    && forall i | 0 <= i < SLOTS && LiveCandidate(e.candidates[i]) :: e.candidates[i].sequence == 1
  }

  lemma Step1(c: Config, net: Net, step: Step, net': Net)
    requires AllOnes(net) && Enabled(c, net, step) && net' == Apply(c, net, step) && AllOnes(net')
    ensures Reaches(c, net, net')
  {
    var steps := [step];
    assert ValidRun(c, net', []);
    assert steps[1..] == [];
    assert ValidRun(c, net, steps) && Run(c, net, steps) == net';
  }

  lemma Then(c: Config, start: Net, net: Net, step: Step, net': Net)
    requires Reaches(c, start, net)
    requires AllOnes(net) && Enabled(c, net, step) && net' == Apply(c, net, step) && AllOnes(net')
    ensures Reaches(c, start, net')
  {
    Step1(c, net, step, net');
    ReachesTrans(c, start, net, net');
  }

  // ---- The entries of the run ----------------------------------------------------

  const QUIET := Env(0, map[], 0)

  function Only(c: Candidate): Candidates {
    [c, NO_CANDIDATE, NO_CANDIDATE]
  }

  /** An entry holding one route of generation 1 and sequence 1 at link cost 1. */
  function Routed(hop: NodeId, expiresAt: nat, metric: nat, fd: Distance): Entry {
    NEW_ENTRY.(generation := 1, candidates := Only(Candidate(hop, expiresAt, 1, metric + 1, metric, true, true)),
               fd := fd, switch := Switch(hop, INVALID_NODE, 0, 0))
  }

  /** The entry of a relay that advertised metric 1 and lost its only link. */
  function Lost(hop: NodeId, dwell: nat): Entry {
    NEW_ENTRY.(generation := 1, fd := Distance(1, 1), holdNextHop := hop, holdUntil := HOLD_DOWN_MS,
               tombstone := dwell, requestNeeded := true)
  }

  /** The entry of a relay that advertised nothing and lost its only link. */
  function Dropped(dwell: nat): Entry {
    NEW_ENTRY.(generation := 1, tombstone := dwell, requestNeeded := true)
  }

  /** The first advertisement heard is learned and committed. */
  lemma FirstRoute(hop: NodeId, metric: nat, now: nat, lifetime: nat, dwell: nat)
    requires hop != INVALID_NODE && metric < 10
    ensures Consider(NEW_ENTRY, Advert(1, 1, metric), hop, 1, QUIET.(now := now), lifetime, dwell).0
            == Routed(hop, now + lifetime, metric, Unset)
  {
    var env := QUIET.(now := now);
    var e1 := Restarted(NEW_ENTRY, 1);
    var cand := Candidate(hop, now + lifetime, 1, metric + 1, metric, true, true);
    var e2 := e1.(candidates := e1.candidates[0 := cand], tombstone := 0, requestNeeded := false);
    assert e2.candidates == Only(cand);
    assert Evaluate(e2, env) == Switch(hop, INVALID_NODE, 0, 0);
  }

  /** A relay that advertised nothing accepts any route after losing its own. */
  lemma NextRoute(hop: NodeId, metric: nat, lifetime: nat, dwell: nat)
    requires hop != INVALID_NODE && metric < 10
    ensures Consider(Dropped(dwell), Advert(1, 1, metric), hop, 1, QUIET, lifetime, dwell).0
            == Routed(hop, lifetime, metric, Unset)
  {
    var e1 := Dropped(dwell);
    var cand := Candidate(hop, lifetime, 1, metric + 1, metric, true, true);
    var e2 := e1.(candidates := e1.candidates[0 := cand], tombstone := 0, requestNeeded := false);
    assert e2.candidates == Only(cand);
    assert Evaluate(e2, QUIET) == Switch(hop, INVALID_NODE, 0, 0);
  }

  lemma DropsRoute(hop: NodeId, expiresAt: nat, dwell: nat)
    requires hop != INVALID_NODE && dwell > 0
    ensures Invalidate(Routed(hop, expiresAt, 0, Unset), hop, false, QUIET, dwell) == Dropped(dwell)
  {
    var e := Routed(hop, expiresAt, 0, Unset);
    assert Holds(e, hop) by { assert e.candidates[0].valid; }
    var e3 := e.(candidates := DropAll(e.candidates, hop));
    assert e3.candidates == NEW_ENTRY.candidates;
    var e4 := e3.(requestNeeded := true, tombstone := Armed(e3, 0, dwell));
  }

  /** Sweeping before a lease ends, or before a tombstone ends, changes nothing. */
  lemma SweepsIdle(e: Entry, now: nat, dwell: nat)
    requires Current(e, now) && (HasCandidates(e) || e.tombstone != 0)
    ensures Expire(e, QUIET.(now := now), dwell) == e
  {
    assert LapseAll(e.candidates, now) == e.candidates;
  }

  // ---- Idle time -----------------------------------------------------------------

  function AllAt(nodes: set<NodeId>, t: nat): map<NodeId, nat> {
    map n | n in nodes :: t
  }

  /** No sweep up to time t changes an entry. */
  ghost predicate IdleUntil(net: Net, t: nat) {
    && AllOnes(net)
    && net.swept.Keys == net.entries.Keys
    && forall n | n in net.entries :: IdleEntry(net.entries[n], t)
  }

  predicate IdleEntry(e: Entry, t: nat) {
    Current(e, t) && (HasCandidates(e) || e.tombstone > t) && !(0 < e.tombstone <= t)
  }

  lemma PollOne(c: Config, net: Net, n: NodeId)
    requires AllOnes(net) && n in net.entries && IdleEntry(net.entries[n], net.now)
    ensures Reaches(c, net, net.(swept := net.swept[n := net.now]))
  {
    SweepsIdle(net.entries[n], net.now, c.Dwell());
    assert WithEntry(net, n, net.entries[n]).entries == net.entries;
    Step1(c, net, Poll(n, QUIET), net.(swept := net.swept[n := net.now]));
  }

  lemma {:induction false} PollAll(c: Config, net: Net, todo: set<NodeId>)
    requires IdleUntil(net, net.now) && todo <= net.entries.Keys
    ensures Reaches(c, net, net.(swept := net.swept + AllAt(todo, net.now)))
    decreases todo
  {
    if todo == {} {
      assert net.swept + AllAt(todo, net.now) == net.swept;
      assert ValidRun(c, net, []) && Run(c, net, []) == net;
    } else {
      var n :| n in todo;
      var rest := todo - {n};
      PollAll(c, net, rest);
      var mid := net.(swept := net.swept + AllAt(rest, net.now));
      var done := net.(swept := net.swept + AllAt(todo, net.now));
      assert mid.swept[n := net.now] == done.swept;
      PollOne(c, mid, n);
      ReachesTrans(c, net, mid, done);
    }
  }

  lemma {:induction false} IdleTo(c: Config, net: Net, t: nat)
    requires c.Valid() && net.now <= t && IdleUntil(net, t)
    ensures Reaches(c, net, net.(now := t, swept := AllAt(net.entries.Keys, t)))
    decreases t - net.now
  {
    forall n | n in net.entries
      ensures IdleEntry(net.entries[n], net.now)
    {
      assert IdleEntry(net.entries[n], t);
    }
    PollAll(c, net, net.entries.Keys);
    var polled := net.(swept := AllAt(net.entries.Keys, net.now));
    assert net.swept + AllAt(net.entries.Keys, net.now) == polled.swept;
    if net.now < t {
      var next := polled.(now := net.now + 1);
      Then(c, net, polled, Tick(1), next);
      IdleTo(c, next, t);
      ReachesTrans(c, net, next, net.(now := t, swept := AllAt(net.entries.Keys, t)));
    }
  }

  // ---- The run ---------------------------------------------------------------------

  /** Three relays besides the destination. */
  function NodeA(c: Config): NodeId { c.dest + 1 }
  function NodeB(c: Config): NodeId { c.dest + 2 }
  function NodeC(c: Config): NodeId { c.dest + 3 }

  function FrameD(c: Config): Frame { Frame(c.dest, Advert(1, 1, 0), 0) }
  function FrameB(c: Config): Frame { Frame(NodeB(c), Advert(1, 1, 1), 0) }
  function FrameA(c: Config, at: nat): Frame { Frame(NodeA(c), Advert(1, 1, 2), at) }
  function FrameC(c: Config, at: nat): Frame { Frame(NodeC(c), Advert(1, 1, 3), at) }

  /** A node without an entry hears its first route. */
  function Heard(c: Config, net: Net, n: NodeId, f: Frame): Net {
    net.(entries := net.entries[n := Routed(f.sender, net.now + c.lifetime, f.ad.metric, Unset)],
         swept := net.swept[n := net.now])
  }

  /** A first record this node can hear now. */
  predicate Audible(c: Config, net: Net, n: NodeId, f: Frame) {
    && n !in net.entries && n != c.dest && n != INVALID_NODE
    && f in net.air && net.now <= f.sentAt + c.frameAge && f.sender != INVALID_NODE
    && f.ad.generation == 1 && f.ad.sequence == 1 && f.ad.metric < 10
  }

  lemma Hears(c: Config, start: Net, net: Net, n: NodeId, f: Frame)
    requires Reaches(c, start, net) && AllOnes(net) && Audible(c, net, n, f)
    ensures Reaches(c, start, Heard(c, net, n, f)) && AllOnes(Heard(c, net, n, f))
  {
    FirstRoute(f.sender, f.ad.metric, net.now, c.lifetime, c.Dwell());
    Then(c, start, net, Receive(n, f, 1, QUIET), Heard(c, net, n, f));
  }

  /** A node advertises the route it heard. */
  function Told(net: Net, n: NodeId, hop: NodeId, expiresAt: nat, metric: nat): Net {
    net.(entries := net.entries[n := Routed(hop, expiresAt, metric, Distance(1, metric + 1))],
         air := net.air + {Frame(n, Advert(1, 1, metric + 1), net.now)})
  }

  lemma Tells(c: Config, start: Net, net: Net, n: NodeId, hop: NodeId, expiresAt: nat, metric: nat)
    requires Reaches(c, start, net) && AllOnes(net)
    requires n in net.entries && net.entries[n] == Routed(hop, expiresAt, metric, Unset)
    requires hop != INVALID_NODE && metric < 10
    ensures Reaches(c, start, Told(net, n, hop, expiresAt, metric)) && AllOnes(Told(net, n, hop, expiresAt, metric))
  {
    Then(c, start, net, Advertise(n), Told(net, n, hop, expiresAt, metric));
  }

  /** The origin announced itself and B heard it; b is B's entry for it. */
  function Served(c: Config, b: Entry, air: set<Frame>): Net {
    Net(0, map[NodeB(c) := b], map[NodeB(c) := 0], air, 1, 1)
  }

  function Own(c: Config, fd: Distance): Entry {
    Routed(c.dest, c.lifetime, 0, fd)
  }

  lemma ReachesServed(c: Config)
    requires c.Valid()
    ensures Reaches(c, Start(), Served(c, Own(c, Unset), {FrameD(c)})) && AllOnes(Served(c, Own(c, Unset), {FrameD(c)}))
  {
    var n1 := Start().(air := {FrameD(c)});
    assert Start().air + {FrameD(c)} == {FrameD(c)};
    Step1(c, Start(), Announce, n1);
    Hears(c, Start(), n1, NodeB(c), FrameD(c));
    assert Heard(c, n1, NodeB(c), FrameD(c)) == Served(c, Own(c, Unset), {FrameD(c)});
  }

  /** B's record is in the air and its own entry is b. */
  function Bereft(c: Config, b: Entry, now: nat, sweptAt: nat): Net {
    Net(now, map[NodeB(c) := b], map[NodeB(c) := sweptAt], {FrameD(c), FrameB(c)}, 1, 1)
  }

  lemma ReachesAdvertising(c: Config)
    requires c.Valid()
    ensures var net := Bereft(c, Own(c, Distance(1, 1)), 0, 0); Reaches(c, Start(), net) && AllOnes(net)
  {
    var n1, n2 := Served(c, Own(c, Unset), {FrameD(c)}), Bereft(c, Own(c, Distance(1, 1)), 0, 0);
    ReachesServed(c);
    Tells(c, Start(), n1, NodeB(c), c.dest, c.lifetime, 0);
    assert n2.entries == n1.entries[NodeB(c) := Own(c, Distance(1, 1))] && n2.air == n1.air + {FrameB(c)};
  }

  /** B advertised its route, lost the link behind it and keeps only its distance. */
  lemma ReachesLoss(c: Config)
    requires c.Valid()
    ensures var net := Bereft(c, Lost(c.dest, c.Dwell()), 0, 0); Reaches(c, Start(), net) && AllOnes(net)
  {
    var n2, n3 := Bereft(c, Own(c, Distance(1, 1)), 0, 0), Bereft(c, Lost(c.dest, c.Dwell()), 0, 0);
    ReachesAdvertising(c);
    assert n3.entries == n2.entries[NodeB(c) := Lost(c.dest, c.Dwell())];
    Then(c, Start(), n2, LoseLink(NodeB(c), c.dest, true, QUIET), n3);
  }

  /** When A hears B's old record, if B forgets at time w. */
  function HeardAt(c: Config, w: nat): nat {
    if c.frameAge < w then c.frameAge else w
  }

  lemma ReachesHearing(c: Config, w: nat) returns (sweptAt: nat)
    requires c.Valid() && w <= c.Dwell()
    ensures var net := Bereft(c, Lost(c.dest, c.Dwell()), HeardAt(c, w), sweptAt);
            Reaches(c, Start(), net) && AllOnes(net)
  {
    var r, b := HeardAt(c, w), Lost(c.dest, c.Dwell());
    sweptAt := if r < c.Dwell() then r else r - 1;
    ReachesLoss(c);
    IdleTo(c, Bereft(c, b, 0, 0), sweptAt);
    assert Bereft(c, b, 0, 0).entries.Keys == {NodeB(c)};
    assert Bereft(c, b, sweptAt, sweptAt).swept == AllAt({NodeB(c)}, sweptAt);
    ReachesTrans(c, Start(), Bereft(c, b, 0, 0), Bereft(c, b, sweptAt, sweptAt));
    Then(c, Start(), Bereft(c, b, sweptAt, sweptAt), Tick(r - sweptAt), Bereft(c, b, r, sweptAt));
  }

  function RouteA(c: Config, r: nat, fd: Distance): Entry {
    Routed(NodeB(c), r + c.lifetime, 1, fd)
  }

  function RouteC(c: Config, r: nat, fd: Distance): Entry {
    Routed(NodeA(c), r + c.lifetime, 2, fd)
  }

  /** A forwards to B and C forwards to A, on records heard at time r. */
  function Chained(c: Config, b: Entry, r: nat, now: nat, swept: map<NodeId, nat>): Net {
    Net(now, map[NodeB(c) := b, NodeA(c) := RouteA(c, r, Distance(1, 2)), NodeC(c) := RouteC(c, r, Unset)],
        swept, {FrameD(c), FrameB(c), FrameA(c, r)}, 1, 1)
  }

  /** A hears B and passes the route on. */
  lemma ReachesHalf(c: Config, b: Entry, r: nat, sweptAt: nat)
    requires c.Valid() && r <= c.frameAge
    requires Reaches(c, Start(), Bereft(c, b, r, sweptAt)) && AllOnes(Bereft(c, b, r, sweptAt))
    ensures var half := Told(Heard(c, Bereft(c, b, r, sweptAt), NodeA(c), FrameB(c)), NodeA(c), NodeB(c), r + c.lifetime, 1);
            Reaches(c, Start(), half) && AllOnes(half)
  {
    var net := Bereft(c, b, r, sweptAt);
    Hears(c, Start(), net, NodeA(c), FrameB(c));
    Tells(c, Start(), Heard(c, net, NodeA(c), FrameB(c)), NodeA(c), NodeB(c), r + c.lifetime, 1);
  }

  lemma ReachesChain(c: Config, b: Entry, r: nat, sweptAt: nat) returns (swept: map<NodeId, nat>)
    requires c.Valid() && r <= c.frameAge
    requires Reaches(c, Start(), Bereft(c, b, r, sweptAt)) && AllOnes(Bereft(c, b, r, sweptAt))
    ensures Reaches(c, Start(), Chained(c, b, r, r, swept)) && AllOnes(Chained(c, b, r, r, swept))
    ensures swept.Keys == {NodeB(c), NodeA(c), NodeC(c)}
  {
    ReachesHalf(c, b, r, sweptAt);
    var half := Told(Heard(c, Bereft(c, b, r, sweptAt), NodeA(c), FrameB(c)), NodeA(c), NodeB(c), r + c.lifetime, 1);
    Hears(c, Start(), half, NodeC(c), FrameA(c, r));
    swept := half.swept[NodeC(c) := r];
    ChainedIs(c, b, r, sweptAt);
  }

  lemma ChainedIs(c: Config, b: Entry, r: nat, sweptAt: nat)
    ensures var half := Told(Heard(c, Bereft(c, b, r, sweptAt), NodeA(c), FrameB(c)), NodeA(c), NodeB(c), r + c.lifetime, 1);
            Heard(c, half, NodeC(c), FrameA(c, r)) == Chained(c, b, r, r, half.swept[NodeC(c) := r])
  {
    var half := Told(Heard(c, Bereft(c, b, r, sweptAt), NodeA(c), FrameB(c)), NodeA(c), NodeB(c), r + c.lifetime, 1);
    var chain := Chained(c, b, r, r, half.swept[NodeC(c) := r]);
    assert Heard(c, half, NodeC(c), FrameA(c, r)).entries == chain.entries;
    assert half.air == chain.air;
  }

  /** Time passes until w; the leases of A and C are not swept away. */
  lemma ReachesDue(c: Config, w: nat) returns (swept: map<NodeId, nat>)
    requires c.Valid() && w <= c.Dwell() && w < c.Horizon()
    ensures var net := Chained(c, Lost(c.dest, c.Dwell()), HeardAt(c, w), w, swept);
            Reaches(c, Start(), net) && AllOnes(net)
    ensures swept.Keys == {NodeB(c), NodeA(c), NodeC(c)}
  {
    var r, l, b := HeardAt(c, w), c.lifetime, Lost(c.dest, c.Dwell());
    var sweptAt := ReachesHearing(c, w);
    swept := ReachesChain(c, b, r, sweptAt);
    if r < w {
      var m := if r + l < w then r + l - 1 else w - 1;
      var net := Chained(c, b, r, r, swept);
      assert net.entries.Keys == swept.Keys;
      ChainIdles(c, r, m);
      IdleTo(c, net, m);
      swept := AllAt(swept.Keys, m);
      ReachesTrans(c, Start(), net, Chained(c, b, r, m, swept));
      Then(c, Start(), Chained(c, b, r, m, swept), Tick(w - m), Chained(c, b, r, w, swept));
    }
  }

  lemma ChainIdles(c: Config, r: nat, m: nat)
    requires c.Valid() && m < c.Dwell() && m < r + c.lifetime
    ensures IdleEntry(Lost(c.dest, c.Dwell()), m)
    ensures IdleEntry(RouteA(c, r, Distance(1, 2)), m) && IdleEntry(RouteC(c, r, Unset), m)
  {
    assert RouteA(c, r, Distance(1, 2)).candidates[0].valid && RouteC(c, r, Unset).candidates[0].valid;
  }

  /** B learned its own route back: a loop. */
  function Looped(c: Config, r: nat, w: nat, swept: map<NodeId, nat>): Net {
    Net(w,
        map[NodeB(c) := Routed(NodeC(c), w + c.lifetime, 3, Unset), NodeA(c) := RouteA(c, r, Distance(1, 2)),
            NodeC(c) := RouteC(c, r, Distance(1, 3))],
        swept, {FrameD(c), FrameB(c), FrameA(c, r), FrameC(c, w)}, 1, 1)
  }

  /** How B can forget its distance at time w. */
  predicate Forgets(c: Config, w: nat, step: Step) {
    match step
    case Poll(n, env) => n == NodeB(c) && env == QUIET && w == c.Dwell()
    case Reclaim(n) => n == NodeB(c) && w == c.reclaimAfter
    case Restart(n) => n == NodeB(c) && w == c.restartAfter
    case _ => false
  }

  lemma ReachesForgotten(c: Config, w: nat, step: Step) returns (net: Net)
    requires c.Valid() && w <= c.Dwell() && w < c.Horizon() && Forgets(c, w, step)
    ensures Reaches(c, Start(), net) && AllOnes(net)
    ensures exists swept :: net == Forget(Chained(c, Lost(c.dest, c.Dwell()), HeardAt(c, w), w, swept), NodeB(c))
  {
    var swept := ReachesDue(c, w);
    var chain := Chained(c, Lost(c.dest, c.Dwell()), HeardAt(c, w), w, swept);
    net := Forget(chain, NodeB(c));
    Then(c, Start(), chain, step, net);
  }

  /** C passes the route on to B, which forgot. */
  lemma ReachesLoop(c: Config, w: nat, step: Step) returns (net: Net)
    requires c.Valid() && w <= c.Dwell() && w < c.Horizon() && Forgets(c, w, step)
    ensures Reaches(c, Start(), net) && !LoopFree(c, net)
  {
    var r := HeardAt(c, w);
    var n2 := ReachesForgotten(c, w, step);
    Tells(c, Start(), n2, NodeC(c), NodeA(c), r + c.lifetime, 2);
    var n3 := Told(n2, NodeC(c), NodeA(c), r + c.lifetime, 2);
    Hears(c, Start(), n3, NodeB(c), FrameC(c, w));
    net := Heard(c, n3, NodeB(c), FrameC(c, w));
    assert net.entries == Looped(c, r, w, net.swept).entries;
    LoopedLoops(c, net, r, w);
  }

  lemma LoopedLoops(c: Config, net: Net, r: nat, w: nat)
    requires c.Valid() && net.entries == Looped(c, r, w, net.swept).entries
    ensures !LoopFree(c, net)
  {
    var path := [NodeA(c), NodeB(c), NodeC(c), NodeA(c)];
    assert ForwardingPath(c, net, path);
  }

  // ---- A record that leaves unmarked -----------------------------------------------

  /** B answers with its route, A and C pass it on, and B's distance stays unset. */
  lemma ReachesUnmarked(c: Config) returns (swept: map<NodeId, nat>)
    requires c.Valid() && !c.marks
    ensures Reaches(c, Start(), Chained(c, Own(c, Unset), 0, 0, swept)) && AllOnes(Chained(c, Own(c, Unset), 0, 0, swept))
  {
    var n1, b := Served(c, Own(c, Unset), {FrameD(c)}), NodeB(c);
    ReachesServed(c);
    var n2 := Bereft(c, Own(c, Unset), 0, 0);
    assert n2.air == n1.air + {FrameB(c)};
    Then(c, Start(), n1, Answer(b), n2);
    swept := ReachesChain(c, Own(c, Unset), 0, 0);
  }

  /** B loses its link before its distance was ever set, and C passes the route on. */
  lemma ReachesDropped(c: Config) returns (net: Net)
    requires c.Valid() && !c.marks
    ensures Reaches(c, Start(), net) && AllOnes(net) && FrameC(c, 0) in net.air && net.now == 0
    ensures net.entries == Looped(c, 0, 0, net.swept).entries[NodeB(c) := Dropped(c.Dwell())]
  {
    var swept := ReachesUnmarked(c);
    var n1 := Chained(c, Own(c, Unset), 0, 0, swept);
    var n2 := WithEntry(n1, NodeB(c), Dropped(c.Dwell()));
    DropsRoute(c.dest, c.lifetime, c.Dwell());
    Then(c, Start(), n1, LoseLink(NodeB(c), c.dest, false, QUIET), n2);
    Tells(c, Start(), n2, NodeC(c), NodeA(c), c.lifetime, 2);
    net := Told(n2, NodeC(c), NodeA(c), c.lifetime, 2);
  }

  /** B accepts its own route back, its distance being unset. */
  lemma UnmarkedLoop(c: Config) returns (net: Net)
    requires c.Valid() && !c.marks
    ensures Reaches(c, Start(), net) && !LoopFree(c, net)
  {
    var before := ReachesDropped(c);
    NextRoute(NodeC(c), 3, c.lifetime, c.Dwell());
    net := WithEntry(before, NodeB(c), Routed(NodeC(c), c.lifetime, 3, Unset));
    Then(c, Start(), before, Receive(NodeB(c), FrameC(c, 0), 1, QUIET), net);
    assert net.entries == Looped(c, 0, 0, net.swept).entries;
    LoopedLoops(c, net, 0, 0);
  }

  // ---- The rule ----------------------------------------------------------------------

  /** Some run ends in a loop whenever the configuration is not safe. */
  lemma UnsafeLoops(c: Config) returns (net: Net)
    requires c.Valid() && !Safe(c)
    ensures Reaches(c, Start(), net) && !LoopFree(c, net)
  {
    if !c.marks {
      net := UnmarkedLoop(c);
    } else if c.Dwell() < c.Horizon() {
      net := ReachesLoop(c, c.Dwell(), Poll(NodeB(c), QUIET));
    } else if c.reclaimAfter < c.Horizon() {
      net := ReachesLoop(c, c.reclaimAfter, Reclaim(NodeB(c)));
    } else {
      net := ReachesLoop(c, c.restartAfter, Restart(NodeB(c)));
    }
  }

  /** Loop freedom holds of every run if and only if every finite record leaves
      covered by its sender's distance, and that distance is kept, against sweeps,
      reclaiming and restarts alike, for the lease, the age of a frame and a poll gap
      together. */
  lemma DwellRule(c: Config)
    requires c.Valid()
    ensures (forall net :: Reaches(c, Start(), net) ==> LoopFree(c, net)) <==> Safe(c)
  {
    if Safe(c) {
      forall net | Reaches(c, Start(), net)
        ensures LoopFree(c, net)
      {
        var steps :| ValidRun(c, Start(), steps) && Run(c, Start(), steps) == net;
        LoopFreedom(c, steps);
      }
    } else {
      var net := UnsafeLoops(c);
    }
  }

  /** The default 15 s lease, with route records that live 1 s, is loop-free for
      every poll gap up to 44 s, provided records are marked and no distance is
      reclaimed or lost in a restart sooner than the horizon. */
  lemma DefaultLeaseLoopFree(c: Config, net: Net)
    requires c.Valid() && c.lifetime == 15000 && c.frameAge == 1000 && c.pollGap <= 44000
    requires c.marks && c.Horizon() <= c.reclaimAfter && c.Horizon() <= c.restartAfter
    requires Reaches(c, Start(), net)
    ensures LoopFree(c, net)
  {
    DwellRule(c);
  }

  /** The 90 s product lease is not, whatever else is configured: its dwell equals
      the lease, which leaves no time for the sweep, however fresh the frames are. */
  lemma ProductLeaseCanLoop(c: Config) returns (net: Net)
    requires c.Valid() && c.lifetime == 90000
    ensures Reaches(c, Start(), net) && !LoopFree(c, net)
  {
    net := UnsafeLoops(c);
  }
}
