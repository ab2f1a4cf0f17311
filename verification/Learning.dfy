/** What the tables are for: once an id has been heard everywhere, messages to it keep to the one path. */
module Learning {
  import opened Sequences
  import opened Types
  import opened Iteration
  import opened Routing
  import opened Topology
  import opened Network
  import opened Delivery
  import BridgeModel

  /** The bridge has the true route to the home of the id. */
  ghost predicate KnowsRoute(c: Config, s: Net, b: Site, id: byte) {
    b in s.tables && (b == HomeOf(c, id) || Lookup(s.tables[b], id) == Via(NextHop(c.graph, b, HomeOf(c, id))))
  }

  /** Whoever handled a message knows the way to its sender. */
  ghost predicate Learned(c: Config, s: Net) {
    forall b: Site, p | (b, p) in s.handled && Row(p.sender) < c.devices :: KnowsRoute(c, s, b, p.sender)
  }

  /** The step at one bridge: what it is processing, and from where. */
  ghost predicate StepAt(c: Config, s: Net, step: Step, b: Site, p: Packet, source: Source) {
    match step
    case Send(id, receiver) =>
      p == Packet(|s.sent|, id, receiver) && source == BridgeModel.Internal && id in c.home && b == c.home[id]
    case Deliver(f) => b == f.to && p == f.packet && source == BridgeModel.From(f.from)
  }

  lemma StepIsProcess(c: Config, s: Net, step: Step) returns (b: Site, p: Packet, source: Source)
    requires CanStep(c, s, step) && TablesSound(c, s) && FlightsOutbound(c, s)
    ensures StepAt(c, s, step, b, p, source)
    ensures b in s.tables && b in c.ports
    ensures var s' := Network.Next(c, s, step);
            && s'.tables == s.tables[b := Taught(BridgeAt(c, s, b), p, source).table]
            && s'.handled == s.handled + multiset{(b, p)}
            && s'.flights == s.flights - Taken(b, p, source) + Copies(b, p, Out(BridgeAt(c, s, b), p, source))
            && |s.sent| <= |s'.sent|
    ensures source.From? ==> source.port == Back(c, b, p) && b != HomeOf(c, p.sender) && Flight(source.port, b, p) in s.flights
    ensures source.Internal? ==> b == HomeOf(c, p.sender) && p.number == |s.sent|
  {
    hide Truthful, Back, Taught, Out, Copies;
    match step
    case Send(id, receiver) =>
      b, p, source := c.home[id], Packet(|s.sent|, id, receiver), BridgeModel.Internal;
      SameBridge(c, s, p, b);
    case Deliver(f) =>
      b, p, source := f.to, f.packet, BridgeModel.From(f.from);
      assert Outbound(c, s, f);
  }

  lemma SameBridge(c: Config, s: Net, p: Packet, b: Site)
    requires b in s.tables && b in c.ports
    ensures BridgeAt(c, s.(sent := s.sent + [p]), b) == BridgeAt(c, s, b)
  {}

  /** A route once known stays known. */
  lemma RouteStaysKnown(c: Config, s: Net, step: Step, x: Site, id: byte)
    requires CanStep(c, s, step) && TablesSound(c, s) && FlightsOutbound(c, s) && KnowsRoute(c, s, x, id)
    ensures KnowsRoute(c, Network.Next(c, s, step), x, id)
  {
    hide TablesSound, FlightsOutbound, Network.Next, CanStep, NextHop, Lookup, Taught, Out, Copies, StepAt, HomeOf;
    var b, p, source := StepIsProcess(c, s, step);
    TaughtLookup(BridgeAt(c, s, b), p, source, id);
  }

  /** The message at hand teaches the route to its sender. */
  lemma ArrivalTeaches(c: Config, s: Net, step: Step, b: Site, p: Packet, source: Source)
    requires CanStep(c, s, step) && TablesSound(c, s) && FlightsOutbound(c, s)
    requires StepAt(c, s, step, b, p, source) && p.sender in c.home && Row(p.sender) < c.devices
    ensures KnowsRoute(c, Network.Next(c, s, step), b, p.sender)
  {
    hide FlightsOutbound, Network.Next, CanStep, NextHop, Lookup, Taught, Out, Copies;
    var b', p', source' := StepIsProcess(c, s, step);
    TaughtLookup(BridgeAt(c, s, b), p, source, p.sender);
    assert Truthful(c, b, p.sender, Lookup(s.tables[b], p.sender));
  }

  lemma {:induction false} RunLearned(c: Config, steps: seq<Step>, states: seq<Net>, k: nat)
    requires Proper(c) && Run(c, steps, states) && k <= |steps|
    ensures Learned(c, states[k])
  {
    hide Proper, Start, Network.Next, CanStep, KnowsRoute, TablesSound, FlightsOutbound, PassedOn, StepAt, Out, Copies, Taught;
    if k == 0 {
      assert states[0].handled == multiset{} by { EmptyStart(c); }
    } else {
      RunLearned(c, steps, states, k - 1);
      RunInv(c, steps, states, k - 1);
      RunInv(c, steps, states, k);
      var s, step := states[k - 1], steps[k - 1];
      assert states[k - 1 + 1] == Network.Next(c, s, step) && CanStep(c, s, step);
      var b, p, source := StepIsProcess(c, s, step);
      forall x: Site, q | (x, q) in states[k].handled && Row(q.sender) < c.devices
        ensures KnowsRoute(c, states[k], x, q.sender)
      {
        assert InOrder(c, states[k], x, q);
        if (x, q) in s.handled {
          RouteStaysKnown(c, s, step, x, q.sender);
        } else {
          ArrivalTeaches(c, s, step, b, p, source);
        }
      }
    }
  }

  lemma EmptyStart(c: Config)
    ensures Start(c).handled == multiset{} && Start(c).flights == multiset{} && Start(c).sent == []
  {}

  /** Every bridge knows the way to this id. */
  ghost predicate KnownEverywhere(c: Config, s: Net, id: byte) {
    id in c.home && Row(id) < c.devices && forall b | b in c.graph.sites :: KnowsRoute(c, s, b, id)
  }

  /** A broadcast that has died out has taught every bridge the way to its sender. */
  lemma BroadcastTeaches(c: Config, steps: seq<Step>, states: seq<Net>, p: Packet)
    requires Proper(c) && Run(c, steps, states)
    requires p in states[|steps|].sent && Quiet(states[|steps|], p)
    requires p.receiver == BROADCAST && Row(p.sender) < c.devices
    ensures KnownEverywhere(c, states[|steps|], p.sender)
  {
    hide Tree, Run, KnowsRoute, Quiet, Inv;
    var s := LastState(c, steps, states);
    RunLearned(c, steps, states, |steps|);
    ReachableInv(c, s);
    SentFromHome(c, s, p);
    forall b | b in c.graph.sites ensures KnowsRoute(c, s, b, p.sender) {
      BroadcastExactlyOnce(c, s, p, b);
      assert (b, p) in s.handled;
    }
  }

  lemma LastState(c: Config, steps: seq<Step>, states: seq<Net>) returns (s: Net)
    requires Run(c, steps, states)
    ensures |states| == |steps| + 1 && s == states[|steps|] && Reachable(c, s)
  {
    s := states[|steps|];
  }

  // ---------------------------------------------------------------- keeping to the path

  /** From message number n on, messages to the id are only where the path from sender to id leads. */
  ghost predicate OnPath(c: Config, s: Net, n: nat, id: byte) {
    && (forall b: Site, p | (b, p) in s.handled && p.number >= n && p.receiver == id :: OnTheWay(c, p, b))
    && forall f | f in s.flights && f.packet.number >= n && f.packet.receiver == id :: OnTheWay(c, f.packet, f.to)
  }

  ghost predicate OnTheWay(c: Config, p: Packet, b: Site) {
    && Tree(c.graph) && HomeOf(c, p.sender) in c.graph.sites && HomeOf(c, p.receiver) in c.graph.sites
    && b in PathTo(c.graph, HomeOf(c, p.sender), HomeOf(c, p.receiver))
  }

  /** A bridge that knows the route writes to the next hop on the path, or, at home, to nobody. */
  lemma OutOnPath(c: Config, s: Net, b: Site, p: Packet, source: Source, x: Site)
    requires Proper(c) && TablesSound(c, s) && KnownEverywhere(c, s, p.receiver)
    requires b in s.tables && b in c.ports && OnTheWay(c, p, b)
    requires source.From? ==> source.port == Back(c, b, p) && b != HomeOf(c, p.sender)
    requires x in Out(BridgeAt(c, s, b), p, source)
    ensures OnTheWay(c, p, x)
  {
    hide Tree, Proper, Out, Taught, Lookup, NextHop;
    var h, t := HomeOf(c, p.sender), HomeOf(c, p.receiver);
    var path := PathTo(c.graph, h, t);
    PortIsLink(c, b, x);
    OutIn(BridgeAt(c, s, b), p, source, x);
    TaughtLookup(BridgeAt(c, s, b), p, source, p.receiver);
    assert KnowsRoute(c, s, b, p.receiver);
    assert Truthful(c, b, p.receiver, Lookup(s.tables[b], p.receiver));
    var i := IndexOf(path, b);
    RouteHop(c.graph, h, t, i);
    assert x == path[i + 1];
  }

  /** A message sent from home is on the path; so is what comes of processing one that is. */
  lemma StepKeepsPath(c: Config, s: Net, step: Step, n: nat, id: byte)
    requires Proper(c) && CanStep(c, s, step) && TablesSound(c, s) && FlightsOutbound(c, s)
    requires KnownEverywhere(c, s, id) && OnPath(c, s, n, id)
    ensures OnPath(c, Network.Next(c, s, step), n, id)
  {
    hide Proper, FlightsOutbound, TablesSound, Network.Next, CanStep, NextHop, Lookup, Taught, Out, Copies, KnownEverywhere, OnTheWay;
    var b, p, source := StepIsProcess(c, s, step);
    var s' := Network.Next(c, s, step);
    var out := Out(BridgeAt(c, s, b), p, source);
    if p.receiver == id && p.number >= n {
      AtHandOnPath(c, s, step, b, p, source, n, id);
      forall x | x in out ensures OnTheWay(c, p, x) {
        OutOnPath(c, s, b, p, source, x);
      }
    }
    forall f | f in s'.flights && f.packet.number >= n && f.packet.receiver == id
      ensures OnTheWay(c, f.packet, f.to)
    {
      CopiesCount(b, p, out, f);
    }
  }

  lemma AtHandOnPath(c: Config, s: Net, step: Step, b: Site, p: Packet, source: Source, n: nat, id: byte)
    requires Proper(c) && KnownEverywhere(c, s, id) && OnPath(c, s, n, id)
    requires CanStep(c, s, step) && StepAt(c, s, step, b, p, source) && p.receiver == id && p.number >= n
    ensures OnTheWay(c, p, b)
  {
    hide Proper, Tree, KnowsRoute;
    if step.Send? {
      HomeIsSite(c, p.sender);
      HomeIsSite(c, id);
      var path := PathTo(c.graph, HomeOf(c, p.sender), HomeOf(c, id));
      assert path[0] == b;
    }
  }

  lemma {:induction false} RunKeepsPath(c: Config, steps: seq<Step>, states: seq<Net>, j: nat, k: nat, id: byte)
    requires Proper(c) && Run(c, steps, states) && j <= k <= |steps|
    requires KnownEverywhere(c, states[j], id)
    ensures KnownEverywhere(c, states[k], id) && OnPath(c, states[k], |states[j].sent|, id)
    decreases k
  {
    hide Proper, Start, Network.Next, CanStep, KnowsRoute, TablesSound, FlightsOutbound, OnTheWay, PassedOn;
    RunInv(c, steps, states, k);
    if j == k {
      NoneYet(c, states[j], id);
    } else {
      RunKeepsPath(c, steps, states, j, k - 1, id);
      RunInv(c, steps, states, k - 1);
      var s, step := states[k - 1], steps[k - 1];
      assert states[k - 1 + 1] == Network.Next(c, s, step) && CanStep(c, s, step);
      StepKeepsPath(c, s, step, |states[j].sent|, id);
      forall b | b in c.graph.sites ensures KnowsRoute(c, states[k], b, id) {
        RouteStaysKnown(c, s, step, b, id);
      }
    }
  }

  lemma NoneYet(c: Config, s: Net, id: byte)
    requires Inv(c, s)
    ensures OnPath(c, s, |s.sent|, id)
  {
    hide TablesSound, PassedOn, OnTheWay, Back, HomeOf;
    forall b: Site, p | (b, p) in s.handled ensures p.number < |s.sent| { assert InOrder(c, s, b, p); }
    forall f | f in s.flights ensures f.packet.number < |s.sent| { assert Outbound(c, s, f); }
  }

  /**
   Once a node's broadcast has died out, every later message to that node is handled only on the
   one path from its sender to the node, in every continuation of the run.
   */
  lemma LaterMessagesKeepToThePath(c: Config, steps: seq<Step>, states: seq<Net>, j: nat, p: Packet, q: Packet, b: Site)
    requires Proper(c) && Run(c, steps, states) && j <= |steps|
    requires p in states[j].sent && Quiet(states[j], p)
    requires p.receiver == BROADCAST && Row(p.sender) < c.devices
    requires q.number >= |states[j].sent| && q.receiver == p.sender && (b, q) in states[|steps|].handled
    ensures OnTheWay(c, q, b)
  {
    hide Proper, KnownEverywhere, Quiet, OnTheWay, Start, Network.Next, CanStep;
    PrefixRun(c, steps, states, j);
    BroadcastTeaches(c, steps[..j], states[..j + 1], p);
    RunKeepsPath(c, steps, states, j, |steps|, p.sender);
  }

  lemma PrefixRun(c: Config, steps: seq<Step>, states: seq<Net>, j: nat)
    requires Run(c, steps, states) && j <= |steps|
    ensures Run(c, steps[..j], states[..j + 1]) && states[..j + 1][|steps[..j]|] == states[j]
  {
    hide Start, Network.Next, CanStep;
    forall i | 0 <= i < j
      ensures CanStep(c, states[..j + 1][i], steps[..j][i])
      ensures states[..j + 1][i + 1] == Network.Next(c, states[..j + 1][i], steps[..j][i])
    {
      assert CanStep(c, states[i], steps[i]) && states[i + 1] == Network.Next(c, states[i], steps[i]);
    }
  }
}
