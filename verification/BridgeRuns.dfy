/** What holds of a bridge's routing table over every sequence of the things that can happen to it. */
module BridgeRuns {
  import opened Sequences
  import opened Types
  import opened Routing
  import opened Iteration
  import opened BridgeModel

  datatype Event<I> =
    | Register(port: I)
    | Deregister(port: I)
    | Receive(port: I, sender: byte)
    | Mark(id: byte)
    | Clear(id: byte)
    | Route(id: byte, port: I)

  function Apply<I(==)>(b: State<I>, mirror: I -> bool, e: Event<I>): State<I> {
    match e
    case Register(p) => Registered(b, p)
    case Deregister(p) => Deregistered(b, p)
    case Receive(p, sender) => Learn(b, mirror, p, sender)
    case Mark(id) => b.(table := Updated(b.table, id, Self))
    case Clear(id) => b.(table := Updated(b.table, id, All))
    case Route(id, p) => b.(table := Updated(b.table, id, Via(p)))
  }

  /** The driver reads registered interfaces only, and a route is set through a registered interface only. */
  predicate Enabled<I(==)>(b: State<I>, e: Event<I>) {
    (e.Receive? || e.Route?) ==> e.port in b.ports
  }

  function Initial<I>(devices: nat): State<I> {
    State(seq(devices, i => All), [], true)
  }

  function Replay<I(==)>(devices: nat, mirror: I -> bool, events: seq<Event<I>>): State<I> {
    if events == [] then Initial(devices)
    else Apply(Replay(devices, mirror, events[..|events| - 1]), mirror, events[|events| - 1])
  }

  predicate Possible<I(==)>(devices: nat, mirror: I -> bool, events: seq<Event<I>>) {
    events != [] ==>
      var before := events[..|events| - 1];
      Possible(devices, mirror, before) && Enabled(Replay(devices, mirror, before), events[|events| - 1])
  }

  /** Runs go on with anything but bytes from, or routes to, an interface that is not registered. */
  lemma AnyEventIsPossible<I>(devices: nat, mirror: I -> bool, events: seq<Event<I>>, e: Event<I>)
    requires Possible(devices, mirror, events)
    requires e.Receive? || e.Route? ==> e.port in Replay(devices, mirror, events).ports
    ensures Possible(devices, mirror, events + [e])
    ensures Replay(devices, mirror, events + [e]) == Apply(Replay(devices, mirror, events), mirror, e)
  {
    hide Apply;
    Append(events, e);
  }

  // ---------------------------------------------------------------- no dangling routes

  /** Every entry is All, the bridge itself, or a registered interface. */
  ghost predicate Integrity<I>(b: State<I>) {
    && Distinct(b.ports)
    && forall i | 0 <= i < |b.table| :: b.table[i].Via? ==> b.table[i].port in b.ports
  }

  /** In every run, with any interleaving of registrations, traffic, marks and routes. */
  lemma {:induction false} IntegrityOverRuns<I>(devices: nat, mirror: I -> bool, events: seq<Event<I>>)
    requires Possible(devices, mirror, events)
    ensures Integrity(Replay(devices, mirror, events))
  {
    if events != [] {
      var n := |events| - 1;
      IntegrityOverRuns(devices, mirror, events[..n]);
      hide Integrity;
      StepKeepsIntegrity(Replay(devices, mirror, events[..n]), mirror, events[n]);
    } else {
      assert Replay(devices, mirror, events) == Initial(devices);
    }
  }

  lemma StepKeepsIntegrity<I>(b: State<I>, mirror: I -> bool, e: Event<I>)
    requires Integrity(b) && Enabled(b, e)
    ensures Integrity(Apply(b, mirror, e))
  {
    if e.Deregister? {
      WithoutDistinct(b.ports, [e.port]);
    }
  }

  /** Putting an interface into the table is harmless exactly when it is registered, or the id is beyond the table. */
  lemma RouteIsSafeExactly<I>(b: State<I>, id: byte, port: I)
    requires Integrity(b)
    ensures Integrity(b.(table := Updated(b.table, id, Via(port)))) <==> port in b.ports || Row(id) >= |b.table|
  {
    if port !in b.ports && Row(id) < |b.table| {
      assert Updated(b.table, id, Via(port))[Row(id)] == Via(port);
    }
  }

  /**
   Reading on from an interface that a handler has just deregistered would leave a dangling route,
   exactly when the interface is no mirror and the sender is an ordinary id of the table.
   */
  lemma ReadingOnDanglesExactly<I>(b: State<I>, mirror: I -> bool, port: I, sender: byte)
    requires Integrity(b)
    ensures var after := Learn(Deregistered(b, port), mirror, port, sender);
            !Integrity(after) <==> !mirror(port) && Lookup(b.table, sender) != Self && Row(sender) < |b.table|
  {
    var gone := Deregistered(b, port);
    if port in b.ports { WithoutDistinct(b.ports, [port]); }
    RouteIsSafeExactly(gone, sender, port);
  }

  // ---------------------------------------------------------------- broadcasts

  /** Something claims the id for one interface, or for the bridge. */
  predicate Claims<I>(e: Event<I>, id: byte) {
    match e
    case Receive(_, sender) => sender == id
    case Mark(x) => x == id
    case Route(x, _) => x == id
    case _ => false
  }

  /**
   In every run the broadcast id stays routed to everybody, if the table has no row for it or nothing
   ever claims it.
   */
  lemma {:induction false} BroadcastFloodsOverRuns<I>(devices: nat, mirror: I -> bool, events: seq<Event<I>>)
    requires devices <= 255 || forall i | 0 <= i < |events| :: !Claims(events[i], BROADCAST)
    ensures |Replay(devices, mirror, events).table| == devices
    ensures Lookup(Replay(devices, mirror, events).table, BROADCAST) == All
  {
    if events != [] {
      var n := |events| - 1;
      var b := Replay(devices, mirror, events[..n]);
      BroadcastFloodsOverRuns(devices, mirror, events[..n]);
      assert devices <= 255 || !Claims(events[n], BROADCAST);
      assert Row(BROADCAST) == 255;
      match events[n]
      case Register(_) =>
      case Deregister(p) => LookupInvalidated(b.table, p, BROADCAST);
      case Receive(p, sender) => LookupUpdated(b.table, sender, Via(p), BROADCAST);
      case Mark(id) => LookupUpdated(b.table, id, Self, BROADCAST);
      case Clear(id) => LookupUpdated(b.table, id, All, BROADCAST);
      case Route(id, p) => LookupUpdated(b.table, id, Via(p), BROADCAST);
    }
  }

  // ---------------------------------------------------------------- internal ids

  /** The registered nodes with their own ids. */
  datatype Host<I> = Host(bridge: State<I>, nodes: map<nat, byte>)

  datatype HostEvent<I> =
    | NodeRegister(node: nat, id: byte)
    | NodeDeregister(node: nat)
    | NodeSetOwnSenderId(node: nat, id: byte)
    | Elsewhere(event: Event<I>)

  ghost predicate Owned(nodes: map<nat, byte>, id: byte) {
    exists n :: n in nodes && nodes[n] == id
  }

  /** Owned by a node other than this one. */
  ghost predicate OwnedBesides(nodes: map<nat, byte>, node: nat, id: byte) {
    exists n :: n in nodes && n != node && nodes[n] == id
  }

  ghost predicate HostEnabled<I>(h: Host<I>, e: HostEvent<I>) {
    match e
    case NodeRegister(n, id) => n !in h.nodes && !Owned(h.nodes, id) && Row(id) < |h.bridge.table|
    case NodeDeregister(n) => n in h.nodes
    case NodeSetOwnSenderId(n, id) => n in h.nodes && !OwnedBesides(h.nodes, n, id) && Row(id) < |h.bridge.table|
    case Elsewhere(event) => !event.Mark? && !event.Clear? && (event.Route? ==> !Owned(h.nodes, event.id))
  }

  function HostApply<I(==)>(h: Host<I>, mirror: I -> bool, e: HostEvent<I>): Host<I>
    requires (e.NodeDeregister? || e.NodeSetOwnSenderId?) ==> e.node in h.nodes
  {
    match e
    case NodeRegister(n, id) => Host(Apply(h.bridge, mirror, Mark(id)), h.nodes[n := id])
    case NodeDeregister(n) => Host(Apply(h.bridge, mirror, Clear(h.nodes[n])), h.nodes - {n})
    case NodeSetOwnSenderId(n, id) =>
      Host(Apply(Apply(h.bridge, mirror, Clear(h.nodes[n])), mirror, Mark(id)), h.nodes[n := id])
    case Elsewhere(event) => h.(bridge := Apply(h.bridge, mirror, event))
  }

  /** The ids the bridge keeps for itself are exactly the own ids of its nodes. */
  ghost predicate SelfMeansOwned<I>(h: Host<I>) {
    forall id: byte :: Lookup(h.bridge.table, id) == Self <==> Owned(h.nodes, id)
  }

  /** Moreover no two nodes share an id. */
  ghost predicate InternalExactly<I>(h: Host<I>) {
    && SelfMeansOwned(h)
    && forall n, m | n in h.nodes && m in h.nodes :: n != m ==> h.nodes[n] != h.nodes[m]
  }

  /** Whatever arrives, whoever claims to be the sender: no step changes that. */
  lemma StepKeepsInternal<I>(h: Host<I>, mirror: I -> bool, e: HostEvent<I>)
    requires InternalExactly(h) && HostEnabled(h, e)
    ensures InternalExactly(HostApply(h, mirror, e))
  {
    var h' := HostApply(h, mirror, e);
    hide Row;
    forall id: byte ensures Lookup(h'.bridge.table, id) == Self <==> Owned(h'.nodes, id) {
      match e
      case NodeRegister(n, own) =>
        LookupUpdated(h.bridge.table, own, Self, id);
        OwnedAfterSet(h.nodes, n, own, id);
      case NodeDeregister(n) =>
        LookupUpdated(h.bridge.table, h.nodes[n], All, id);
        OwnedAfterRemoval(h.nodes, n, id);
      case NodeSetOwnSenderId(n, own) =>
        var cleared := Updated(h.bridge.table, h.nodes[n], All);
        LookupUpdated(h.bridge.table, h.nodes[n], All, id);
        LookupUpdated(cleared, own, Self, id);
        OwnedAfterSet(h.nodes, n, own, id);
      case Elsewhere(event) =>
        ElsewhereKeeps(h, mirror, event, id);
    }
  }

  lemma ElsewhereKeeps<I>(h: Host<I>, mirror: I -> bool, event: Event<I>, id: byte)
    requires InternalExactly(h) && HostEnabled(h, Elsewhere(event))
    ensures Lookup(Apply(h.bridge, mirror, event).table, id) == Self <==> Lookup(h.bridge.table, id) == Self
  {
    match event
    case Register(p) =>
    case Deregister(p) => LookupInvalidated(h.bridge.table, p, id);
    case Receive(p, sender) => LookupUpdated(h.bridge.table, sender, Via(p), id);
    case Route(d, p) => LookupUpdated(h.bridge.table, d, Via(p), id);
  }

  lemma OwnedAfterSet(nodes: map<nat, byte>, n: nat, own: byte, id: byte)
    ensures Owned(nodes[n := own], id) <==> id == own || OwnedBesides(nodes, n, id)
  {
    var after := nodes[n := own];
    if id == own { assert n in after && after[n] == id; }
    if OwnedBesides(nodes, n, id) {
      var k :| k in nodes && k != n && nodes[k] == id;
      assert k in after && after[k] == id;
    }
    if Owned(after, id) && id != own {
      var k :| k in after && after[k] == id;
      assert k in nodes && k != n && nodes[k] == id;
    }
  }

  lemma OwnedAfterRemoval(nodes: map<nat, byte>, n: nat, id: byte)
    ensures Owned(nodes - {n}, id) <==> OwnedBesides(nodes, n, id)
  {
    var after := nodes - {n};
    if OwnedBesides(nodes, n, id) {
      var k :| k in nodes && k != n && nodes[k] == id;
      assert k in after && after[k] == id;
    }
    if Owned(after, id) {
      var k :| k in after && after[k] == id;
      assert k in nodes && k != n && nodes[k] == id;
    }
  }

  /** Deregistering a node is safe exactly when no other node uses its id. */
  lemma DeregisterIsSafeExactly<I>(h: Host<I>, mirror: I -> bool, node: nat)
    requires node in h.nodes && Row(h.nodes[node]) < |h.bridge.table|
    requires SelfMeansOwned(h)
    ensures SelfMeansOwned(HostApply(h, mirror, NodeDeregister(node))) <==> !OwnedBesides(h.nodes, node, h.nodes[node])
  {
    var h', own := HostApply(h, mirror, NodeDeregister(node)), h.nodes[node];
    hide Row;
    forall id: byte
      ensures Lookup(h'.bridge.table, id) == Self <==> Owned(h.nodes, id) && id != own
      ensures Owned(h'.nodes, id) <==> OwnedBesides(h.nodes, node, id)
      ensures Owned(h.nodes, id) <==> id == own || OwnedBesides(h.nodes, node, id)
    {
      LookupUpdated(h.bridge.table, own, All, id);
      OwnedAfterRemoval(h.nodes, node, id);
      OwnedAfterSet(h.nodes, node, own, id);
      assert h.nodes[node := own] == h.nodes;
    }
  }

  /**
   In the runs of nodes and traffic everything may happen at any time, except a second node with the
   same id, an id without a row, and routes put onto the nodes' ids by hand.
   */
  lemma AnyHostEventIsPossible<I>(h: Host<I>, port: I, id: byte, n: nat)
    ensures HostEnabled(h, Elsewhere(Receive(port, id)))
    ensures HostEnabled(h, Elsewhere(Register(port))) && HostEnabled(h, Elsewhere(Deregister(port)))
    ensures (forall k | k in h.nodes :: h.nodes[k] != id) ==> HostEnabled(h, Elsewhere(Route(id, port)))
    ensures n in h.nodes ==> HostEnabled(h, NodeDeregister(n))
    ensures id as nat < |h.bridge.table| && n !in h.nodes && (forall k | k in h.nodes :: h.nodes[k] != id) ==>
              HostEnabled(h, NodeRegister(n, id))
    ensures id as nat < |h.bridge.table| && n in h.nodes && (forall k | k in h.nodes && k != n :: h.nodes[k] != id) ==>
              HostEnabled(h, NodeSetOwnSenderId(n, id))
  {}

  /** The states of a run, one more than there are events. */
  ghost predicate HostRun<I>(devices: nat, mirror: I -> bool, events: seq<HostEvent<I>>, states: seq<Host<I>>) {
    && |states| == |events| + 1
    && states[0] == Host(Initial(devices), map[])
    && forall i | 0 <= i < |events| ::
         HostEnabled(states[i], events[i]) && states[i + 1] == HostApply(states[i], mirror, events[i])
  }

  /** Over every run of nodes coming, going and renaming themselves amid arbitrary traffic. */
  lemma {:induction false} InternalOverRuns<I>(devices: nat, mirror: I -> bool, events: seq<HostEvent<I>>,
                                               states: seq<Host<I>>, k: nat)
    requires HostRun(devices, mirror, events, states) && k <= |events|
    ensures InternalExactly(states[k])
  {
    if k > 0 {
      InternalOverRuns(devices, mirror, events, states, k - 1);
      StepKeepsInternal(states[k - 1], mirror, events[k - 1]);
    }
  }
}
