/** Loop freedom from the contract's decision functions alone. */
module ContractNetwork {
  // Nodes hold a distance and at most one route for one destination. Updates may be
  // lost, delayed without bound, duplicated or reordered; routes may be dropped at any
  // time; distances are kept.

  import opened Basics
  import opened Babel
  import opened Runs

  type NodeId = nat

  datatype Update = Update(sender: NodeId, sequence: nat, metric: nat)

  datatype Route = Route(hop: NodeId, sequence: nat, advertised: nat, metric: nat)

  datatype Node = Node(fd: Distance, route: Option<Route>)

  /** sent: every update ever sent; any of them may be heard by anyone at any later time. */
  datatype Net = Net(dest: NodeId, origin: nat, nodes: map<NodeId, Node>, sent: set<Update>)

  datatype Step =
    | BumpSequence
    | Announce
    | Receive(node: NodeId, update: Update, cost: int)
    | Advertise(node: NodeId)
    | Drop(node: NodeId)

  function NodeOf(net: Net, n: NodeId): Node {
    if n in net.nodes then net.nodes[n] else Node(Unset, None)
  }

  /** The numbers a decision compares lie in one window. */
  predicate InReach(sequence: nat, fd: Distance) {
    fd.Distance? ==> Near(sequence, fd.sequence)
  }

  /** A node takes an update the contract calls feasible and whose total stays finite. */
  predicate Takes(fd: Distance, u: Update, cost: int) {
    && u.metric < INFINITE && ContractFeasible(Wire(u.sequence), u.metric, OnWire(fd)) == Ok(true)
    && ContractMetricAdd(u.metric, cost).Ok? && ContractMetricAdd(u.metric, cost).value < INFINITE
  }

  predicate Possible(net: Net, step: Step) {
    match step
    case BumpSequence => true
    case Announce => true
    case Receive(n, u, cost) =>
      n != net.dest && u in net.sent && InReach(u.sequence, NodeOf(net, n).fd) && Takes(NodeOf(net, n).fd, u, cost)
    case Advertise(n) =>
      n in net.nodes && net.nodes[n].route.Some? && InReach(net.nodes[n].route.value.sequence, net.nodes[n].fd)
    case Drop(n) => n in net.nodes
  }

  /** The distance whose 16-bit image the contract computes when a route is advertised. */
  function Advertised(fd: Distance, r: Route): Distance {
    var image := ContractAdvertise(Wire(r.sequence), r.metric, OnWire(fd));
    if image.Raises? || image.value == OnWire(fd) || image.value.Unset? then fd
    else Distance(r.sequence, image.value.metric)
  }

  function Next(net: Net, step: Step): Net {
    if !Possible(net, step) then net
    else
      match step
      case BumpSequence => net.(origin := net.origin + 1)
      case Announce => net.(sent := net.sent + {Update(net.dest, net.origin, 0)})
      case Receive(n, u, cost) =>
        var total := ContractMetricAdd(u.metric, cost).value;
        var route := Route(u.sender, u.sequence, u.metric, if total >= 0 then total else 0);
        net.(nodes := net.nodes[n := NodeOf(net, n).(route := Some(route))])
      case Advertise(n) =>
        var r := net.nodes[n].route.value;
        net.(nodes := net.nodes[n := net.nodes[n].(fd := Advertised(net.nodes[n].fd, r))],
             sent := net.sent + {Update(n, r.sequence, r.metric)})
      case Drop(n) => net.(nodes := net.nodes[n := net.nodes[n].(route := None)])
  }

  // ---- The invariant -------------------------------------------------------------------------

  /** A sender's distance is at least as good as everything it sent. */
  ghost predicate SentOk(net: Net, u: Update) {
    u.metric < INFINITE
    && (u.sender != net.dest ==> u.sender in net.nodes && AtLeastAsGood(net.nodes[u.sender].fd, u.sequence, u.metric))
  }

  /** A node's route was sent by its next hop, and is strictly better than the node's distance. */
  ghost predicate NodeOk(net: Net, n: NodeId) {
    match NodeOf(net, n)
    case Node(fd, None) => true
    case Node(fd, Some(r)) =>
      && Update(r.hop, r.sequence, r.advertised) in net.sent && StrictlyBetter(r.sequence, r.advertised, fd)
      && r.advertised < r.metric < INFINITE
  }

  ghost predicate Inv(net: Net) {
    match net
    case Net(dest, _, nodes, sent) => dest !in nodes && (forall u | u in sent :: SentOk(net, u)) && forall n :: NodeOk(net, n)
  }

  /** What the contract computes is the better of the two distances. */
  lemma AdvertisedTightens(fd: Distance, r: Route)
    requires InReach(r.sequence, fd) && r.metric < INFINITE
    ensures Advertised(fd, r) == Tighten(r.sequence, r.metric, fd)
    ensures OnWire(Advertised(fd, r)) == ContractAdvertise(Wire(r.sequence), r.metric, OnWire(fd)).value
  {
    ContractIsTrueOrder(r.sequence, r.metric, fd);
    if fd.Distance? {
      WindowOrder(r.sequence, fd.sequence);
    }
  }

  lemma TakesBetter(fd: Distance, u: Update, cost: int)
    requires InReach(u.sequence, fd) && Takes(fd, u, cost)
    ensures StrictlyBetter(u.sequence, u.metric, fd) && ContractMetricAdd(u.metric, cost).value > u.metric
  {
    ContractIsTrueOrder(u.sequence, u.metric, fd);
  }

  lemma ReceiveKeepsInv(net: Net, n: NodeId, u: Update, cost: int)
    requires Inv(net) && Possible(net, Receive(n, u, cost))
    ensures Inv(Next(net, Receive(n, u, cost)))
  {
    TakesBetter(NodeOf(net, n).fd, u, cost);
    var net' := Next(net, Receive(n, u, cost));
    forall v | v in net'.sent ensures SentOk(net', v) {
      assert SentOk(net, v);
    }
    forall m ensures NodeOk(net', m) {
      assert NodeOk(net, m);
    }
  }

  lemma AdvertiseKeepsInv(net: Net, n: NodeId)
    requires Inv(net) && Possible(net, Advertise(n))
    ensures Inv(Next(net, Advertise(n)))
  {
    assert NodeOk(net, n);
    AdvertisedTightens(net.nodes[n].fd, net.nodes[n].route.value);
    var net' := Next(net, Advertise(n));
    forall v | v in net'.sent ensures SentOk(net', v) {
      assert v in net.sent ==> SentOk(net, v);
    }
    forall m ensures NodeOk(net', m) {
      assert NodeOk(net, m);
    }
  }

  lemma QuietKeepsInv(net: Net, net': Net)
    requires Inv(net) && net'.dest == net.dest && net.sent <= net'.sent
    requires net'.nodes.Keys == net.nodes.Keys
    requires forall n | n in net.nodes :: net'.nodes[n] == net.nodes[n] || net'.nodes[n] == net.nodes[n].(route := None)
    requires forall u | u in net'.sent && u !in net.sent :: u.sender == net.dest && u.metric == 0
    ensures Inv(net')
  {
    forall u | u in net'.sent ensures SentOk(net', u) {
      assert u in net.sent ==> SentOk(net, u);
    }
    forall n ensures NodeOk(net', n) {
      assert NodeOk(net, n);
    }
  }

  lemma StepKeepsInv(net: Net, step: Step)
    requires Inv(net)
    ensures Inv(Next(net, step))
  {
    if Possible(net, step) {
      match step
      case BumpSequence => QuietKeepsInv(net, Next(net, step));
      case Announce => QuietKeepsInv(net, Next(net, step));
      case Receive(n, u, cost) => ReceiveKeepsInv(net, n, u, cost);
      case Advertise(n) => AdvertiseKeepsInv(net, n);
      case Drop(n) => QuietKeepsInv(net, Next(net, step));
    }
  }

  // ---- Paths -----------------------------------------------------------------------------------

  /** h's distance is strictly better than n's; the destination is better than anything. */
  ghost predicate Closer(net: Net, h: NodeId, n: NodeId) {
    n != net.dest
    && (h == net.dest || (NodeOf(net, h).fd.Distance?
                          && StrictlyBetter(NodeOf(net, h).fd.sequence, NodeOf(net, h).fd.metric, NodeOf(net, n).fd)))
  }

  predicate Forwards(net: Net, n: NodeId, h: NodeId) {
    NodeOf(net, n).route.Some? && NodeOf(net, n).route.value.hop == h
  }

  predicate Path(net: Net, path: seq<NodeId>) {
    |path| >= 2 && forall i | 0 <= i < |path| - 1 :: Forwards(net, path[i], path[i + 1])
  }

  /** The distance strictly improves along every next hop. */
  lemma HopImproves(net: Net, n: NodeId, h: NodeId)
    requires Inv(net) && Forwards(net, n, h)
    ensures Closer(net, h, n)
  {
    assert NodeOk(net, n);
    var r := NodeOf(net, n).route.value;
    assert SentOk(net, Update(r.hop, r.sequence, r.advertised));
  }

  lemma {:induction false} PathImproves(net: Net, path: seq<NodeId>)
    requires Inv(net) && Path(net, path)
    ensures Closer(net, path[|path| - 1], path[0])
    decreases |path|
  {
    assert Forwards(net, path[0], path[1]);
    HopImproves(net, path[0], path[1]);
    if |path| > 2 {
      var rest := path[1..];
      forall i | 0 <= i < |rest| - 1 ensures Forwards(net, rest[i], rest[i + 1]) {
        assert Forwards(net, path[i + 1], path[i + 2]);
      }
      PathImproves(net, rest);
    }
  }

  function First(dest: NodeId): Net {
    Net(dest, 1, map[], {})
  }

  predicate AnyStep(step: Step) {
    true
  }

  /** In every reachable state the distance improves along every forwarding path, so no path
      comes back to where it began. */
  lemma ContractLoopFree(dest: NodeId, steps: seq<Step>, path: seq<NodeId>)
    requires Path(Fold(Next, First(dest), steps), path)
    ensures Closer(Fold(Next, First(dest), steps), path[|path| - 1], path[0])
    ensures path[0] != path[|path| - 1]
  {
    forall net: Net, step: Step | Inv(net)
      ensures Inv(Next(net, step))
    {
      StepKeepsInv(net, step);
    }
    assert Kept(Inv, AnyStep, Next);
    FoldKeeps(Inv, AnyStep, Next, First(dest), steps);
    PathImproves(Fold(Next, First(dest), steps), path);
  }
}
