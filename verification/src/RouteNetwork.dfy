/** Loop freedom of a network of route tables that serve one destination. */
module RouteNetwork {
  // Frames may be lost, duplicated, reordered and delayed, up to an age of frameAge
  // after they were queued. Nodes sweep their tables independently, at least once
  // every pollGap. Entries are forgotten exactly when the code forgets them: when a
  // sweep finds that their tombstone has dwelt long enough, when a full table reclaims
  // a tombstone, and when a relay restarts.

  import opened Babel
  import opened RouteEntry

  /** dest: the destination; lifetime: the route lease; frameAge: how long after it
      was queued a frame can still be handled by a receiver; pollGap: the longest
      time between two sweeps of a node; reclaimAfter and restartAfter: how long a
      relay has sent no finite record when its tombstone is reclaimed, or when it
      restarts; marks: whether every finite record is marked as advertised before it
      leaves, or was already covered by the sender's distance. */
  datatype Config = Config(dest: NodeId, lifetime: nat, frameAge: nat, pollGap: nat,
                           reclaimAfter: nat, restartAfter: nat, marks: bool) {
    function Dwell(): nat { TombstoneDwell(lifetime) }

    /** The longest time a finite record can have an effect somewhere. */
    function Horizon(): nat { lifetime + frameAge + pollGap }

    ghost predicate Valid() { lifetime > 0 && pollGap > 0 && dest != INVALID_NODE }
  }

  datatype Frame = Frame(sender: NodeId, ad: Advert, sentAt: nat)

  /** entries: each node's entry for the destination; swept: when that node last
      swept it; air: every frame ever sent; the origin advertises itself with its
      boot generation and its sequence. */
  datatype Net = Net(now: nat, entries: map<NodeId, Entry>, swept: map<NodeId, nat>, air: set<Frame>,
                     originGeneration: nat, originSequence: nat)

  function Start(): Net {
    Net(0, map[], map[], {}, 1, 1)
  }

  datatype Step =
    | Tick(ms: nat)
    | Poll(node: NodeId, env: Env)                              // a sweep
    | Announce                                                  // the origin's self record
    | BumpSequence                                              // seqno request, neighbour dropped
    | Reboot(generation: nat)                                   // the origin restarts
    | Receive(node: NodeId, frame: Frame, cost: nat, env: Env)
    | Seed(node: NodeId, generation: nat, cost: nat, env: Env)  // direct neighbour admission
    | Advertise(node: NodeId)                                   // marked, then sent
    | Answer(node: NodeId)                                      // sent without marking
    | Poison(node: NodeId)                                      // retraction or split horizon
    | LoseLink(node: NodeId, hop: NodeId, hold: bool, env: Env)
    | ChangeCost(node: NodeId, hop: NodeId, cost: nat, env: Env)
    | Withdraw(node: NodeId, hop: NodeId, env: Env)             // the destination is revoked
    | Reevaluate(node: NodeId, env: Env)
    | Reclaim(node: NodeId)                                     // a full table drops a tombstone
    | Restart(node: NodeId)                                     // a relay loses its table

  function EnvAt(net: Net, env: Env): Env {
    env.(now := net.now)
  }

  function WithEntry(net: Net, n: NodeId, e: Entry): Net {
    net.(entries := net.entries[n := e])
  }

  /** The table's answer to an advertisement: a retraction never allocates an entry. */
  function Handle(c: Config, net: Net, node: NodeId, ad: Advert, hop: NodeId, cost: nat, env: Env): Net {
    if node in net.entries then
      WithEntry(net, node, Consider(net.entries[node], ad, hop, cost, EnvAt(net, env), c.lifetime, c.Dwell()).0)
    else if ad.metric == INFINITE then net
    else
      WithEntry(net, node, Consider(NEW_ENTRY, ad, hop, cost, EnvAt(net, env), c.lifetime, c.Dwell()).0)
      .(swept := net.swept[node := net.now])
  }

  /** Every finite record of a node is at least this old. */
  predicate QuietFor(net: Net, n: NodeId, ms: nat) {
    forall f | f in net.air && f.sender == n && f.ad.metric != INFINITE :: f.sentAt + ms <= net.now
  }

  function Forget(net: Net, n: NodeId): Net {
    net.(entries := net.entries - {n}, swept := net.swept - {n})
  }

  /** The selected route of an entry, as a record. */
  function SelectedAd(e: Entry): Advert
    requires Select(e) < SLOTS
  {
    var s := e.candidates[Select(e)];
    Advert(e.generation, s.sequence, s.metric)
  }

  predicate Enabled(c: Config, net: Net, step: Step) {
    match step
    case Tick(ms) => forall n | n in net.swept :: net.now + ms <= net.swept[n] + c.pollGap
    case Poll(n, _) => n in net.entries
    case Announce => true
    case BumpSequence => true
    case Reboot(g) => g > net.originGeneration
    case Receive(n, f, cost, _) =>
      n != c.dest && n != INVALID_NODE && f in net.air && net.now <= f.sentAt + c.frameAge && 0 < cost <= INFINITE
    case Seed(n, g, cost, _) => n != c.dest && n != INVALID_NODE && g <= net.originGeneration && 0 < cost <= INFINITE
    case Advertise(n) => n in net.entries && Select(net.entries[n]) < SLOTS
    case Answer(n) =>
      n in net.entries && Select(net.entries[n]) < SLOTS
      && (c.marks ==> MarkAdvertised(net.entries[n]) == net.entries[n])
    case Poison(n) => n in net.entries
    case LoseLink(n, _, _, _) => n in net.entries
    case ChangeCost(n, _, cost, _) => n in net.entries && 0 < cost <= INFINITE
    case Withdraw(n, _, _) => n in net.entries
    case Reevaluate(n, _) => n in net.entries
    case Reclaim(n) => n in net.entries && net.entries[n].tombstone != 0 && QuietFor(net, n, c.reclaimAfter)
    case Restart(n) => n in net.entries && QuietFor(net, n, c.restartAfter)
  }

  function Apply(c: Config, net: Net, step: Step): Net
    requires Enabled(c, net, step)
  {
    match step
    case Tick(ms) => net.(now := net.now + ms)
    case Poll(n, env) =>
      if Dead(net.entries[n], net.now) then Forget(net, n)
      else WithEntry(net, n, Expire(net.entries[n], EnvAt(net, env), c.Dwell())).(swept := net.swept[n := net.now])
    case Announce =>
      net.(air := net.air + {Frame(c.dest, Advert(net.originGeneration, net.originSequence, 0), net.now)})
    case BumpSequence => net.(originSequence := net.originSequence + 1)
    case Reboot(g) => net.(originGeneration := g, originSequence := 1)
    case Receive(n, f, cost, env) => Handle(c, net, n, f.ad, f.sender, cost, env)
    case Seed(n, g, cost, env) => Handle(c, net, n, Advert(g, 0, 0), c.dest, cost, env)
    case Advertise(n) =>
      WithEntry(net, n, MarkAdvertised(net.entries[n]))
      .(air := net.air + {Frame(n, SelectedAd(net.entries[n]), net.now)})
    case Answer(n) => net.(air := net.air + {Frame(n, SelectedAd(net.entries[n]), net.now)})
    case Poison(n) =>
      var e := net.entries[n];
      net.(air := net.air + {Frame(n, Advert(e.generation, if e.fd.Unset? then 0 else e.fd.sequence, INFINITE), net.now)})
    case LoseLink(n, hop, hold, env) =>
      WithEntry(net, n, Invalidate(net.entries[n], hop, hold, EnvAt(net, env), c.Dwell()))
    case ChangeCost(n, hop, cost, env) => WithEntry(net, n, UpdateCost(net.entries[n], hop, cost, EnvAt(net, env)))
    case Withdraw(n, hop, env) => WithEntry(net, n, RouteEntry.Withdraw(net.entries[n], hop, EnvAt(net, env), c.Dwell()))
    case Reevaluate(n, env) => WithEntry(net, n, Evaluated(net.entries[n], EnvAt(net, env)))
    case Reclaim(n) => Forget(net, n)
    case Restart(n) => Forget(net, n)
  }

  // ---- Forwarding --------------------------------------------------------------

  /** The next hop DATA for the destination takes from a node. */
  function NextHop(c: Config, net: Net, n: NodeId): NodeId {
    if n == c.dest || n !in net.entries then INVALID_NODE
    else
      var s := Select(net.entries[n]);
      if s == SLOTS then INVALID_NODE else net.entries[n].candidates[s].nextHop
  }

  /** Consecutive nodes of the path forward to one another. */
  ghost predicate ForwardingPath(c: Config, net: Net, path: seq<NodeId>) {
    && |path| >= 2
    && (forall i | 0 <= i < |path| - 1 :: NextHop(c, net, path[i]) == path[i + 1])
    && (forall i | 0 <= i < |path| :: path[i] != INVALID_NODE)
  }

  ghost predicate LoopFree(c: Config, net: Net) {
    forall path :: ForwardingPath(c, net, path) ==> path[0] != path[|path| - 1]
  }

  // ---- Runs --------------------------------------------------------------------

  predicate LiveCandidate(c: Candidate) {
    c.valid && c.advertised != INFINITE
  }

  /** Every sequence a node compares with its distance is less than half the
      number circle away from it. */
  ghost predicate Windowed(net: Net) {
    forall n, i | n in net.entries && 0 <= i < SLOTS ::
      var e := net.entries[n];
      LiveCandidate(e.candidates[i]) && e.fd.Distance? ==> Near(e.candidates[i].sequence, e.fd.sequence)
  }

  ghost predicate ValidRun(c: Config, net: Net, steps: seq<Step>)
    decreases |steps|
  {
    && Windowed(net)
    && (steps != [] ==> Enabled(c, net, steps[0]) && ValidRun(c, Apply(c, net, steps[0]), steps[1..]))
  }

  ghost function Run(c: Config, net: Net, steps: seq<Step>): Net
    requires ValidRun(c, net, steps)
    decreases |steps|
  {
    if steps == [] then net else Run(c, Apply(c, net, steps[0]), steps[1..])
  }

  // ---- The invariant -----------------------------------------------------------

  /** The generation and distance of an entry cover an advertisement: the node
      will never again accept a route that is not strictly better. */
  predicate Covers(e: Entry, ad: Advert) {
    || e.generation > ad.generation
    || (e.generation == ad.generation && AtLeastAsGood(e.fd, ad.sequence, ad.metric))
  }

  predicate OriginCovers(net: Net, ad: Advert) {
    || net.originGeneration > ad.generation
    || (net.originGeneration == ad.generation && net.originSequence >= ad.sequence)
  }

  ghost predicate NodeCovers(c: Config, net: Net, n: NodeId, ad: Advert) {
    if n == c.dest then OriginCovers(net, ad) else n in net.entries && Covers(net.entries[n], ad)
  }

  function AdOf(e: Entry, i: nat): Advert
    requires i < SLOTS
  {
    Advert(e.generation, e.candidates[i].sequence, e.candidates[i].advertised)
  }

  /** A finite frame of a relay that accounts for a candidate's lease. */
  ghost predicate Backed(c: Config, net: Net, cand: Candidate) {
    cand.nextHop == c.dest
    || exists f :: f in net.air && f.sender == cand.nextHop && f.ad.metric != INFINITE
                   && cand.expiresAt <= f.sentAt + c.frameAge + c.lifetime
  }

  /** What a node holds was advertised, is still covered by its advertiser, and is
      not much older than its lease. */
  ghost predicate EntryInv(c: Config, net: Net, n: NodeId, e: Entry, sweptAt: nat) {
    && PositiveCosts(e)
    && Current(e, sweptAt)
    && (forall i | 0 <= i < SLOTS && LiveCandidate(e.candidates[i]) ::
          NodeCovers(c, net, e.candidates[i].nextHop, AdOf(e, i)) && Backed(c, net, e.candidates[i]))
    && (e.tombstone != 0 ==>
          && !HasCandidates(e)
          && forall f | f in net.air && f.sender == n && f.ad.metric != INFINITE :: f.sentAt + c.Dwell() <= e.tombstone)
  }

  ghost predicate NodeInv(c: Config, net: Net, n: NodeId)
    requires n in net.entries
  {
    && n in net.swept
    && net.swept[n] <= net.now <= net.swept[n] + c.pollGap
    && EntryInv(c, net, n, net.entries[n], net.swept[n])
  }

  ghost predicate FrameInv(c: Config, net: Net, f: Frame) {
    && f.sentAt <= net.now
    && (f.ad.metric != INFINITE && net.now <= f.sentAt + c.frameAge ==> NodeCovers(c, net, f.sender, f.ad))
  }

  ghost predicate Inv(c: Config, net: Net) {
    && c.dest !in net.entries
    && net.swept.Keys == net.entries.Keys
    && (forall n | n in net.entries :: NodeInv(c, net, n))
    && (forall f | f in net.air :: FrameInv(c, net, f))
  }

  /** Every frame and every lease granted on it is gone before its sender forgets
      the distance that covers it, and no record leaves that the distance does not
      cover. */
  predicate Safe(c: Config) {
    c.marks && c.Horizon() <= c.Dwell() && c.Horizon() <= c.reclaimAfter && c.Horizon() <= c.restartAfter
  }

  // ---- Loop freedom from the invariant -----------------------------------------

  predicate Better(m: Entry, n: Entry) {
    || m.generation > n.generation
    || (m.generation == n.generation && m.fd.Distance?
        && (n.fd.Unset? || m.fd.sequence > n.fd.sequence
            || (m.fd.sequence == n.fd.sequence && m.fd.metric < n.fd.metric)))
  }

  /** The distance of m is strictly better than that of n. */
  ghost predicate StrictlyCloser(c: Config, net: Net, n: NodeId, m: NodeId) {
    n in net.entries && (m == c.dest || (m in net.entries && Better(net.entries[m], net.entries[n])))
  }

  /** The feasibility distance of a node's next hop is strictly better than its own. */
  lemma HopImproves(c: Config, net: Net, n: NodeId)
    requires Inv(c, net) && Windowed(net)
    requires NextHop(c, net, n) != INVALID_NODE
    ensures StrictlyCloser(c, net, n, NextHop(c, net, n))
  {
    var e := net.entries[n];
    var s := Select(e);
    var cand := e.candidates[s];
    assert NodeInv(c, net, n);
    assert LiveCandidate(cand) && NodeCovers(c, net, cand.nextHop, AdOf(e, s));
    if e.fd.Distance? {
      WindowOrder(cand.sequence, e.fd.sequence);
    }
  }

  lemma {:induction false} PathImproves(c: Config, net: Net, path: seq<NodeId>)
    requires Inv(c, net) && Windowed(net)
    requires ForwardingPath(c, net, path)
    ensures StrictlyCloser(c, net, path[0], path[|path| - 1])
    decreases |path|
  {
    assert NextHop(c, net, path[0]) == path[1];
    HopImproves(c, net, path[0]);
    if |path| > 2 {
      var rest := path[1..];
      assert NextHop(c, net, path[1]) == path[2];
      assert ForwardingPath(c, net, rest);
      PathImproves(c, net, rest);
    }
  }

  lemma InvLoopFree(c: Config, net: Net)
    requires Inv(c, net) && Windowed(net)
    ensures LoopFree(c, net)
  {
    forall path | ForwardingPath(c, net, path)
      ensures path[0] != path[|path| - 1]
    {
      PathImproves(c, net, path);
      assert NextHop(c, net, path[0]) == path[1];
    }
  }

  // ---- Preservation ------------------------------------------------------------

  /** Only the entry of n changes, and its distance does not get worse. */
  ghost predicate Replaces(c: Config, net: Net, net': Net, n: NodeId) {
    && n != c.dest && n in net'.entries && n in net'.swept
    && net' == net.(entries := net.entries[n := net'.entries[n]], swept := net.swept[n := net'.swept[n]])
    && (n in net.entries ==> Succeeds(net.entries[n], net'.entries[n]))
    && net'.swept[n] <= net.now <= net'.swept[n] + c.pollGap
  }

  lemma ReplaceKeepsInv(c: Config, net: Net, net': Net, n: NodeId)
    requires Inv(c, net)
    requires Replaces(c, net, net', n)
    requires EntryInv(c, net, n, net'.entries[n], net'.swept[n])
    ensures Inv(c, net')
  {
    forall m, ad | NodeCovers(c, net, m, ad)
      ensures NodeCovers(c, net', m, ad)
    {
    }
    forall m | m in net'.entries
      ensures NodeInv(c, net', m)
    {
      if m != n {
        assert NodeInv(c, net, m);
      }
      assert EntryInv(c, net, m, net'.entries[m], net'.swept[m]);
    }
    forall f | f in net'.air
      ensures FrameInv(c, net', f)
    {
      assert FrameInv(c, net, f);
    }
  }

  lemma InheritKeepsInv(c: Config, net: Net, n: NodeId, e': Entry)
    requires Inv(c, net) && n in net.entries
    requires LossStep(net.entries[n], e', net.now, c.Dwell(), net.swept[n])
    ensures Inv(c, WithEntry(net, n, e'))
  {
    assert NodeInv(c, net, n);
    var net' := WithEntry(net, n, e');
    assert net'.swept == net.swept[n := net.swept[n]];
    ReplaceKeepsInv(c, net, net', n);
  }

  /** Handling an advertisement that its sender covers keeps an entry's invariant. */
  lemma ConsideredEntry(c: Config, net: Net, n: NodeId, ad: Advert, hop: NodeId, e: Entry, e': Entry, sweptAt: nat)
    requires Inv(c, net) && sweptAt <= net.now && c.Valid()
    requires EntryInv(c, net, n, e, sweptAt)
    requires ConsiderStep(e, e', ad, hop, net.now, c.lifetime, c.Dwell(), sweptAt)
    requires ad.metric != INFINITE ==>
               && NodeCovers(c, net, hop, ad)
               && forall cand | LearnedFrom(cand, ad, hop, net.now + c.lifetime) :: Backed(c, net, cand)
    ensures EntryInv(c, net, n, e', sweptAt)
  {
    forall i | 0 <= i < SLOTS && LiveCandidate(e'.candidates[i])
      ensures NodeCovers(c, net, e'.candidates[i].nextHop, AdOf(e', i)) && Backed(c, net, e'.candidates[i])
    {
      if LearnedFrom(e'.candidates[i], ad, hop, net.now + c.lifetime) && e'.generation == ad.generation && ad.metric != INFINITE {
        assert AdOf(e', i) == ad;
      } else {
        assert LiveCandidate(e.candidates[i]) && AdOf(e', i) == AdOf(e, i);
      }
    }
    forall f | f in net.air && f.sender == n && f.ad.metric != INFINITE && e'.tombstone != 0
      ensures f.sentAt + c.Dwell() <= e'.tombstone
    {
      assert FrameInv(c, net, f);
    }
  }

  lemma HandleKeepsInv(c: Config, net: Net, n: NodeId, ad: Advert, hop: NodeId, cost: nat, env: Env)
    requires Inv(c, net) && c.Valid() && n != c.dest && cost > 0
    requires ad.metric != INFINITE ==>
               && NodeCovers(c, net, hop, ad)
               && forall cand | LearnedFrom(cand, ad, hop, net.now + c.lifetime) :: Backed(c, net, cand)
    ensures Inv(c, Handle(c, net, n, ad, hop, cost, env))
  {
    if n in net.entries || ad.metric != INFINITE {
      var e := if n in net.entries then net.entries[n] else NEW_ENTRY;
      var sweptAt := if n in net.entries then net.swept[n] else net.now;
      assert n in net.entries ==> NodeInv(c, net, n);
      ConsiderSteps(e, ad, hop, cost, EnvAt(net, env), c.lifetime, c.Dwell(), sweptAt);
      var e' := Consider(e, ad, hop, cost, EnvAt(net, env), c.lifetime, c.Dwell()).0;
      ConsideredEntry(c, net, n, ad, hop, e, e', sweptAt);
      PlacedKeepsInv(c, net, n, e', sweptAt);
    }
  }

  lemma PlacedKeepsInv(c: Config, net: Net, n: NodeId, e': Entry, sweptAt: nat)
    requires Inv(c, net) && n != c.dest
    requires EntryInv(c, net, n, e', sweptAt)
    requires if n in net.entries then sweptAt == net.swept[n] && Succeeds(net.entries[n], e') else sweptAt == net.now
    ensures n in net.entries ==> Inv(c, WithEntry(net, n, e'))
    ensures n !in net.entries ==> Inv(c, WithEntry(net, n, e').(swept := net.swept[n := net.now]))
  {
    assert n in net.entries ==> NodeInv(c, net, n);
    var net' := WithEntry(net, n, e').(swept := net.swept[n := sweptAt]);
    ReplaceKeepsInv(c, net, net', n);
    assert n in net.entries ==> net.swept[n := sweptAt] == net.swept;
  }

  /** One more frame in the air, not a finite one from a node with a tombstone. */
  lemma SendKeepsInv(c: Config, net: Net, f: Frame)
    requires Inv(c, net)
    requires FrameInv(c, net, f)
    requires f.ad.metric != INFINITE && f.sender in net.entries ==> net.entries[f.sender].tombstone == 0
    ensures Inv(c, net.(air := net.air + {f}))
  {
    var net' := net.(air := net.air + {f});
    forall n | n in net'.entries
      ensures NodeInv(c, net', n)
    {
      assert NodeInv(c, net, n);
      var e := net.entries[n];
      forall i | 0 <= i < SLOTS && LiveCandidate(e.candidates[i])
        ensures NodeCovers(c, net', e.candidates[i].nextHop, AdOf(e, i)) && Backed(c, net', e.candidates[i])
      {
        assert NodeCovers(c, net, e.candidates[i].nextHop, AdOf(e, i)) && Backed(c, net, e.candidates[i]);
      }
    }
    forall g | g in net'.air
      ensures FrameInv(c, net', g)
    {
      assert FrameInv(c, net, g);
    }
  }

  /** An advertisement leaves together with the distance update. */
  lemma AdvertiseKeepsInv(c: Config, net: Net, n: NodeId)
    requires Inv(c, net) && Windowed(net)
    requires Enabled(c, net, Advertise(n))
    ensures Inv(c, Apply(c, net, Advertise(n)))
  {
    var e := net.entries[n];
    assert NodeInv(c, net, n);
    assert LiveCandidate(e.candidates[Select(e)]);
    MarkAdvertisedTightens(e);
    var e' := MarkAdvertised(e);
    var net' := WithEntry(net, n, e');
    assert net'.swept == net.swept[n := net.swept[n]];
    ReplaceKeepsInv(c, net, net', n);
    SendKeepsInv(c, net', Frame(n, SelectedAd(e), net.now));
  }

  /** A record that marking would not change may leave unmarked. */
  lemma AnswerKeepsInv(c: Config, net: Net, n: NodeId)
    requires Inv(c, net) && Windowed(net) && c.marks
    requires Enabled(c, net, Answer(n))
    ensures Inv(c, Apply(c, net, Answer(n)))
  {
    var e := net.entries[n];
    assert NodeInv(c, net, n);
    assert LiveCandidate(e.candidates[Select(e)]);
    MarkAdvertisedTightens(e);
    SendKeepsInv(c, net, Frame(n, SelectedAd(e), net.now));
  }

  /** Once a node was quiet for the horizon, no frame of its own can still arrive
      and no lease granted on one can still be in use anywhere. */
  lemma QuietUnused(c: Config, net: Net, n: NodeId)
    requires Inv(c, net) && c.Valid()
    requires n in net.entries && QuietFor(net, n, c.Horizon())
    ensures forall f | f in net.air && f.sender == n && f.ad.metric != INFINITE :: net.now > f.sentAt + c.frameAge
    ensures forall m, i | m in net.entries && 0 <= i < SLOTS && LiveCandidate(net.entries[m].candidates[i]) ::
              net.entries[m].candidates[i].nextHop != n
  {
    forall m, i | m in net.entries && 0 <= i < SLOTS && LiveCandidate(net.entries[m].candidates[i])
      ensures net.entries[m].candidates[i].nextHop != n
    {
      assert NodeInv(c, net, m);
      assert Backed(c, net, net.entries[m].candidates[i]);
    }
  }

  lemma ForgetKeepsInv(c: Config, net: Net, n: NodeId)
    requires Inv(c, net) && c.Valid()
    requires n in net.entries && QuietFor(net, n, c.Horizon())
    ensures Inv(c, Forget(net, n))
  {
    var net' := Forget(net, n);
    QuietUnused(c, net, n);
    forall m | m in net'.entries
      ensures NodeInv(c, net', m)
    {
      assert NodeInv(c, net, m);
    }
    forall f | f in net'.air
      ensures FrameInv(c, net', f)
    {
      assert FrameInv(c, net, f);
    }
  }

  lemma PollKeepsInv(c: Config, net: Net, n: NodeId, env: Env)
    requires Inv(c, net) && c.Valid() && Safe(c)
    requires n in net.entries
    ensures Inv(c, Apply(c, net, Poll(n, env)))
  {
    if Dead(net.entries[n], net.now) {
      assert NodeInv(c, net, n);
      ForgetKeepsInv(c, net, n);
    } else {
      assert NodeInv(c, net, n);
      var e' := Expire(net.entries[n], EnvAt(net, env), c.Dwell());
      ExpireLoses(net.entries[n], EnvAt(net, env), c.Dwell());
      ReplaceKeepsInv(c, net, WithEntry(net, n, e').(swept := net.swept[n := net.now]), n);
    }
  }

  /** Every enabled step keeps the invariant. */
  lemma StepKeepsInv(c: Config, net: Net, step: Step)
    requires Inv(c, net) && Windowed(net) && c.Valid() && Safe(c)
    requires Enabled(c, net, step)
    ensures Inv(c, Apply(c, net, step))
  {
    match step
    case Tick(ms) =>
    case Poll(n, env) => PollKeepsInv(c, net, n, env);
    case Announce => SendKeepsInv(c, net, Frame(c.dest, Advert(net.originGeneration, net.originSequence, 0), net.now));
    case BumpSequence =>
    case Reboot(g) =>
    case Receive(n, f, cost, env) =>
      assert FrameInv(c, net, f);
      HandleKeepsInv(c, net, n, f.ad, f.sender, cost, env);
    case Seed(n, g, cost, env) => HandleKeepsInv(c, net, n, Advert(g, 0, 0), c.dest, cost, env);
    case Advertise(n) => AdvertiseKeepsInv(c, net, n);
    case Answer(n) => AnswerKeepsInv(c, net, n);
    case Poison(n) =>
      var e := net.entries[n];
      SendKeepsInv(c, net, Frame(n, Advert(e.generation, if e.fd.Unset? then 0 else e.fd.sequence, INFINITE), net.now));
    case LoseLink(n, hop, hold, env) => LossKeepsInv(c, net, n, hop, hold, env);
    case ChangeCost(n, hop, cost, env) => CostKeepsInv(c, net, n, hop, cost, env);
    case Withdraw(n, hop, env) =>
      WithdrawLoses(net.entries[n], hop, EnvAt(net, env), c.Dwell(), net.swept[n]);
      InheritKeepsInv(c, net, n, RouteEntry.Withdraw(net.entries[n], hop, EnvAt(net, env), c.Dwell()));
    case Reclaim(n) => ForgetKeepsInv(c, net, n);
    case Restart(n) => ForgetKeepsInv(c, net, n);
    case Reevaluate(n, env) =>
      EvaluatedLoses(net.entries[n], EnvAt(net, env), c.Dwell(), net.swept[n]);
      InheritKeepsInv(c, net, n, Evaluated(net.entries[n], EnvAt(net, env)));
  }

  lemma LossKeepsInv(c: Config, net: Net, n: NodeId, hop: NodeId, hold: bool, env: Env)
    requires Inv(c, net) && n in net.entries
    ensures Inv(c, WithEntry(net, n, Invalidate(net.entries[n], hop, hold, EnvAt(net, env), c.Dwell())))
  {
    assert NodeInv(c, net, n);
    InvalidateLoses(net.entries[n], hop, hold, EnvAt(net, env), c.Dwell(), net.swept[n]);
    InheritKeepsInv(c, net, n, Invalidate(net.entries[n], hop, hold, EnvAt(net, env), c.Dwell()));
  }

  lemma CostKeepsInv(c: Config, net: Net, n: NodeId, hop: NodeId, cost: nat, env: Env)
    requires Inv(c, net) && n in net.entries && cost > 0
    ensures Inv(c, WithEntry(net, n, UpdateCost(net.entries[n], hop, cost, EnvAt(net, env))))
  {
    assert NodeInv(c, net, n);
    UpdateCostLoses(net.entries[n], hop, cost, EnvAt(net, env), c.Dwell(), net.swept[n]);
    InheritKeepsInv(c, net, n, UpdateCost(net.entries[n], hop, cost, EnvAt(net, env)));
  }

  lemma {:induction false} RunKeepsInv(c: Config, net: Net, steps: seq<Step>)
    requires Inv(c, net) && c.Valid() && Safe(c)
    requires ValidRun(c, net, steps)
    ensures Inv(c, Run(c, net, steps)) && Windowed(Run(c, net, steps))
    decreases |steps|
  {
    if steps != [] {
      StepKeepsInv(c, net, steps[0]);
      RunKeepsInv(c, Apply(c, net, steps[0]), steps[1..]);
    }
  }

  /** Loop freedom: whatever is lost, delayed, duplicated, reordered, withdrawn,
      re-priced, restarted or forgotten, no run reaches a forwarding loop. */
  lemma LoopFreedom(c: Config, steps: seq<Step>)
    requires c.Valid() && Safe(c)
    requires ValidRun(c, Start(), steps)
    ensures LoopFree(c, Run(c, Start(), steps))
  {
    RunKeepsInv(c, Start(), steps);
    InvLoopFree(c, Run(c, Start(), steps));
  }
}
