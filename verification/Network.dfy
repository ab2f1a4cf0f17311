/**
 A network of bridges with messages in flight. Any home site may send at any time, and any copy in
 flight may be the next to arrive, so a run covers every interleaving and every delay. No copy is
 lost, all bridges forward, there are no mirrors.
 */
module Network {
  import opened Types
  import opened Iteration
  import opened Routing
  import opened Topology
  import BridgeModel

  type Bridge = BridgeModel.State<Site>
  type Source = BridgeModel.Origin<Site>

  /** Ids with their homes; the interfaces of each bridge, one for each neighbour, in some order. */
  datatype Config = Config(graph: Graph, ports: map<Site, seq<Site>>, home: map<byte, Site>, devices: nat)

  ghost predicate Proper(c: Config) {
    && Tree(c.graph)
    && c.ports.Keys == c.graph.sites
    && (forall b | b in c.graph.sites :: Distinct(c.ports[b]))
    && (forall b, x | b in c.graph.sites :: x in c.ports[b] <==> Linked(c.graph, b, x))
    && (forall id | id in c.home :: c.home[id] in c.graph.sites)
    && BROADCAST !in c.home
  }

  /** One message; the number only tells messages apart, no bridge looks at it. */
  datatype Packet = Packet(number: nat, sender: byte, receiver: byte)

  /** A copy on the link between two neighbours. */
  datatype Flight = Flight(from: Site, to: Site, packet: Packet)

  type Tables = map<Site, seq<Dest<Site>>>

  datatype Net = Net(
    tables: Tables,
    flights: multiset<Flight>,
    handled: multiset<(Site, Packet)>,
    sent: seq<Packet>)

  function NoMirror(p: Site): bool {
    false
  }

  // ---------------------------------------------------------------- steps

  function BridgeAt(c: Config, s: Net, b: Site): Bridge
    requires b in s.tables && b in c.ports
  {
    BridgeModel.State(s.tables[b], c.ports[b], true)
  }

  /** The bridge after it took note of where the message came from. */
  function Taught(bridge: Bridge, p: Packet, source: Source): Bridge {
    match source
    case Internal => bridge
    case From(u) => BridgeModel.Learn(bridge, NoMirror, u, p.sender)
  }

  function Out(bridge: Bridge, p: Packet, source: Source): seq<Site> {
    BridgeModel.Outgoing(Taught(bridge, p, source), NoMirror, p.receiver, source)
  }

  function Copies(b: Site, p: Packet, out: seq<Site>): multiset<Flight> {
    if out == [] then multiset{} else multiset{Flight(b, out[0], p)} + Copies(b, p, out[1..])
  }

  /** The copy that is used up. */
  function Taken(b: Site, p: Packet, source: Source): multiset<Flight> {
    match source
    case Internal => multiset{}
    case From(u) => multiset{Flight(u, b, p)}
  }

  /** A bridge learns, forwards and handles one message. */
  function Process(c: Config, s: Net, b: Site, p: Packet, source: Source): Net
    requires b in s.tables && b in c.ports
  {
    var bridge := BridgeAt(c, s, b);
    Forwarded(s, b, p, source, Out(bridge, p, source), s.tables[b := Taught(bridge, p, source).table])
  }

  /** One copy is used up, the message is handled, new copies leave. */
  function Forwarded(s: Net, b: Site, p: Packet, source: Source, out: seq<Site>, tables: Tables): Net {
    Net(tables,
        s.flights - Taken(b, p, source) + Copies(b, p, out),
        s.handled + multiset{(b, p)},
        s.sent)
  }

  datatype Step = Send(sender: byte, receiver: byte) | Deliver(flight: Flight)

  predicate CanStep(c: Config, s: Net, step: Step) {
    match step
    case Send(id, _) => id in c.home && c.home[id] in s.tables && c.home[id] in c.ports
    case Deliver(f) => f in s.flights && f.to in s.tables && f.to in c.ports
  }

  function Next(c: Config, s: Net, step: Step): Net
    requires CanStep(c, s, step)
  {
    match step
    case Send(id, receiver) =>
      var p := Packet(|s.sent|, id, receiver);
      Process(c, s.(sent := s.sent + [p]), c.home[id], p, BridgeModel.Internal)
    case Deliver(f) => Process(c, s, f.to, f.packet, BridgeModel.From(f.from))
  }

  /** Every bridge knows its own ids, and nothing else. */
  ghost function InitialTable(c: Config, b: Site): seq<Dest<Site>> {
    seq(c.devices, (i: nat) => if OwnsRow(c, b, i) then Self else All)
  }

  ghost predicate OwnsRow(c: Config, b: Site, row: nat) {
    exists id :: id in c.home && c.home[id] == b && Row(id) == row
  }

  ghost function Start(c: Config): Net {
    Net(map b | b in c.graph.sites :: InitialTable(c, b), multiset{}, multiset{}, [])
  }

  /** The states of a run, one more than there are steps. */
  ghost predicate Run(c: Config, steps: seq<Step>, states: seq<Net>) {
    && |states| == |steps| + 1
    && states[0] == Start(c)
    && forall i | 0 <= i < |steps| :: CanStep(c, states[i], steps[i]) && states[i + 1] == Next(c, states[i], steps[i])
  }

  // ---------------------------------------------------------------- the invariant

  ghost function HomeOf(c: Config, id: byte): Site {
    if id in c.home then c.home[id] else Site(0)
  }

  /** The hop towards the home of the sender. */
  ghost function Back(c: Config, b: Site, p: Packet): Site {
    NextHop(c.graph, b, HomeOf(c, p.sender))
  }

  /** What a table may say about an id: nothing, or the truth. */
  ghost predicate Truthful(c: Config, b: Site, id: byte, dest: Dest<Site>) {
    if id !in c.home then dest == All
    else if HomeOf(c, id) == b then dest == if Row(id) < c.devices then Self else All
    else dest == All || dest == Via(NextHop(c.graph, b, HomeOf(c, id)))
  }

  ghost predicate TablesSound(c: Config, s: Net) {
    && s.tables.Keys == c.graph.sites
    && (forall b | b in s.tables :: |s.tables[b]| == c.devices)
    && forall b, id: byte | b in s.tables :: Truthful(c, b, id, Lookup(s.tables[b], id))
  }

  ghost predicate WasSent(c: Config, s: Net, p: Packet) {
    p.number < |s.sent| && s.sent[p.number] == p && p.sender in c.home
  }

  /** The copy moves away from its sender's home, from a bridge that handled it to one that did not. */
  ghost predicate Outbound(c: Config, s: Net, f: Flight) {
    && s.flights[f] <= 1
    && WasSent(c, s, f.packet)
    && f.to in c.graph.sites
    && f.to != HomeOf(c, f.packet.sender)
    && f.from == Back(c, f.to, f.packet)
    && (f.from, f.packet) in s.handled
    && (f.to, f.packet) !in s.handled
  }

  ghost predicate FlightsOutbound(c: Config, s: Net) {
    forall f | f in s.flights :: Outbound(c, s, f)
  }

  /** Handled once, and before that by the next bridge towards the sender's home. */
  ghost predicate InOrder(c: Config, s: Net, b: Site, p: Packet) {
    s.handled[(b, p)] == 1 && WasSent(c, s, p) && b in c.graph.sites && (Back(c, b, p), p) in s.handled
  }

  ghost predicate HandledInOrder(c: Config, s: Net) {
    forall b, p | (b, p) in s.handled :: InOrder(c, s, b, p)
  }

  /** The neighbours a message has to be passed on to. */
  ghost predicate Wanted(c: Config, p: Packet, b: Site, x: Site) {
    && Linked(c.graph, b, x)
    && x != Back(c, b, p)
    && (p.receiver in c.home ==> x == NextHop(c.graph, b, HomeOf(c, p.receiver)))
  }

  /** Whoever handled a message has passed it on: it has been handled there, or is on its way. */
  ghost predicate PassedOn(c: Config, s: Net) {
    forall b: Site, p, x: Site | (b, p) in s.handled && Wanted(c, p, b, x) ::
      (x, p) in s.handled || Flight(b, x, p) in s.flights
  }

  /** Every message was handled where it was sent. */
  ghost predicate SentHandled(c: Config, s: Net) {
    forall i | 0 <= i < |s.sent| ::
      s.sent[i].number == i && s.sent[i].sender in c.home && (HomeOf(c, s.sent[i].sender), s.sent[i]) in s.handled
  }

  ghost predicate Inv(c: Config, s: Net) {
    TablesSound(c, s) && FlightsOutbound(c, s) && HandledInOrder(c, s) && PassedOn(c, s) && SentHandled(c, s)
  }

  // ---------------------------------------------------------------- what one bridge sends

  /** Membership among the interfaces written to: a mirrorless, forwarding bridge. */
  lemma OutIn(bridge: Bridge, p: Packet, source: Source, x: Site)
    requires bridge.forwarding && Distinct(bridge.ports)
    ensures var dest := Lookup(Taught(bridge, p, source).table, p.receiver);
            x in Out(bridge, p, source) <==>
              source != BridgeModel.From(x) && ((dest == All && x in bridge.ports) || dest == Via(x))
    ensures multiset(Out(bridge, p, source))[x] <= 1
  {
    var b := Taught(bridge, p, source);
    BridgeModel.FanOut(b, NoMirror, p.receiver, source, x);
    assert x in Out(bridge, p, source) <==> multiset(Out(bridge, p, source))[x] > 0;
  }

  lemma {:induction false} CopiesCount(b: Site, p: Packet, out: seq<Site>, f: Flight)
    ensures Copies(b, p, out)[f] == if f.from == b && f.packet == p then multiset(out)[f.to] else 0
  {
    if out != [] {
      CopiesCount(b, p, out[1..], f);
      assert out == [out[0]] + out[1..];
    }
  }

  /** Where a bridge may process a message, and from where it got it. */
  ghost predicate Ready(c: Config, s: Net, b: Site, p: Packet, source: Source) {
    && b in c.graph.sites && p.sender in c.home
    && (b, p) !in s.handled
    && match source
       case Internal => b == HomeOf(c, p.sender)
       case From(u) => b != HomeOf(c, p.sender) && u == Back(c, b, p)
  }

  lemma TaughtLookup(bridge: Bridge, p: Packet, source: Source, id: byte)
    ensures var t := Taught(bridge, p, source).table;
            && |t| == |bridge.table|
            && Lookup(t, id) == if source.From? && id == p.sender && Row(id) < |t| && Lookup(bridge.table, id) != Self
                                then Via(source.port) else Lookup(bridge.table, id)
  {
    if source.From? {
      LookupUpdated(bridge.table, p.sender, Via(source.port), id);
    }
  }

  lemma PortIsLink(c: Config, b: Site, x: Site)
    requires Proper(c) && b in c.graph.sites
    ensures Tree(c.graph) && b in c.ports && Distinct(c.ports[b]) && (x in c.ports[b] <==> Linked(c.graph, b, x))
  {}

  lemma HomeIsSite(c: Config, id: byte)
    requires Proper(c) && id in c.home
    ensures Tree(c.graph) && HomeOf(c, id) in c.graph.sites && id != BROADCAST
  {}

  /** Learning keeps a sound table sound. */
  lemma TaughtSound(c: Config, s: Net, b: Site, p: Packet, source: Source, id: byte)
    requires b in s.tables && b in c.ports && TablesSound(c, s) && Ready(c, s, b, p, source)
    ensures Truthful(c, b, id, Lookup(Taught(BridgeAt(c, s, b), p, source).table, id))
    ensures |Taught(BridgeAt(c, s, b), p, source).table| == c.devices
  {
    hide Taught, Lookup, NextHop;
    assert Truthful(c, b, id, Lookup(s.tables[b], id));
    TaughtLookup(BridgeAt(c, s, b), p, source, id);
  }

  /** A bridge writes to neighbours only, away from the sender's home, and to all that are wanted. */
  lemma OutAway(c: Config, s: Net, b: Site, p: Packet, source: Source, x: Site)
    requires Proper(c) && b in s.tables && b in c.ports && TablesSound(c, s) && Ready(c, s, b, p, source)
    ensures x in Out(BridgeAt(c, s, b), p, source) ==>
              Linked(c.graph, b, x) && x in c.graph.sites && x != HomeOf(c, p.sender) && Back(c, x, p) == b
    ensures Wanted(c, p, b, x) ==> x in Out(BridgeAt(c, s, b), p, source)
    ensures multiset(Out(BridgeAt(c, s, b), p, source))[x] <= 1
  {
    hide Proper, Tree, NextHop, Taught, Lookup, Out, TablesSound, Truthful, Wanted;
    var dest := Lookup(Taught(BridgeAt(c, s, b), p, source).table, p.receiver);
    PortIsLink(c, b, x);
    HomeIsSite(c, p.sender);
    TaughtSound(c, s, b, p, source, p.receiver);
    OutIn(BridgeAt(c, s, b), p, source, x);
    OutLinked(c, b, p, source, x, dest, s);
    if x in Out(BridgeAt(c, s, b), p, source) {
      HopAway(c.graph, b, x, HomeOf(c, p.sender));
    }
  }

  lemma OutLinked(c: Config, b: Site, p: Packet, source: Source, x: Site, dest: Dest<Site>, s: Net)
    requires Proper(c) && b in c.ports && Ready(c, s, b, p, source) && Truthful(c, b, p.receiver, dest)
    ensures var goes := source != BridgeModel.From(x) && ((dest == All && x in c.ports[b]) || dest == Via(x));
            && (goes ==> Linked(c.graph, b, x) && x != Back(c, b, p))
            && (Wanted(c, p, b, x) ==> goes)
  {
    hide Proper, Tree, NextHop;
    PortIsLink(c, b, x);
    NoHop(c.graph, b);
    if p.receiver in c.home && HomeOf(c, p.receiver) != b {
      HomeIsSite(c, p.receiver);
      HopIsLink(c.graph, b, HomeOf(c, p.receiver));
    }
    if Linked(c.graph, b, x) { LinkBothWays(c.graph, b, x); }
  }

  lemma NoHop(g: Graph, a: Site)
    ensures NextHop(g, a, a) == a
  {}

  // ---------------------------------------------------------------- one step keeps the invariant

  /** The parts of the invariant that speak of the links. */
  ghost predicate LinksInv(c: Config, s: Net) {
    FlightsOutbound(c, s) && HandledInOrder(c, s) && PassedOn(c, s)
  }

  /** A message that just arrived, or that is new. */
  ghost predicate AtHand(c: Config, s: Net, b: Site, p: Packet, source: Source) {
    && Ready(c, s, b, p, source) && WasSent(c, s, p)
    && match source
       case Internal =>
         (forall f | f in s.flights :: f.packet != p) && (forall x: Site :: (x, p) !in s.handled)
       case From(u) => Flight(u, b, p) in s.flights
  }

  /** What is known of the interfaces written to. */
  ghost predicate GoodOut(c: Config, b: Site, p: Packet, out: seq<Site>) {
    && (forall x | x in out :: Linked(c.graph, b, x) && x in c.graph.sites && x != b
                            && x != HomeOf(c, p.sender) && Back(c, x, p) == b)
    && (forall x: Site :: Wanted(c, p, b, x) ==> x in out)
    && forall x :: multiset(out)[x] <= 1
  }

  lemma FlightsAfter(s: Net, b: Site, p: Packet, source: Source, out: seq<Site>, tables: Tables, f: Flight)
    ensures Forwarded(s, b, p, source, out, tables).flights[f] ==
            (if f in Taken(b, p, source) && s.flights[f] > 0 then s.flights[f] - 1 else s.flights[f])
            + if f.from == b && f.packet == p then multiset(out)[f.to] else 0
  {
    CopiesCount(b, p, out, f);
  }

  lemma NewFlight(c: Config, s: Net, b: Site, p: Packet, source: Source, out: seq<Site>, tables: Tables, f: Flight)
    requires LinksInv(c, s) && AtHand(c, s, b, p, source) && GoodOut(c, b, p, out)
    requires f in Forwarded(s, b, p, source, out, tables).flights && f.from == b && f.packet == p
    ensures Outbound(c, Forwarded(s, b, p, source, out, tables), f)
  {
    hide Back, HomeOf, Copies, Linked, Wanted, LinksInv, Taken, Ready;
    NothingSentYet(c, s, b, p, source, f);
    FlightsAfter(s, b, p, source, out, tables, f);
  }

  /** A bridge has not passed on what is only now at hand, and nobody behind it has handled it. */
  lemma NothingSentYet(c: Config, s: Net, b: Site, p: Packet, source: Source, f: Flight)
    requires LinksInv(c, s) && AtHand(c, s, b, p, source) && f.from == b && f.packet == p
    ensures (b, p) !in s.handled && f !in s.flights
    ensures Back(c, f.to, p) == b ==> (f.to, p) !in s.handled
  {
    hide Back, HomeOf, Wanted, PassedOn, Ready;
    assert source.From? ==> Outbound(c, s, Flight(source.port, b, p));
    assert f in s.flights ==> Outbound(c, s, f);
    assert (f.to, p) in s.handled ==> InOrder(c, s, f.to, p);
  }

  lemma OldFlight(c: Config, s: Net, b: Site, p: Packet, source: Source, out: seq<Site>, tables: Tables, f: Flight)
    requires LinksInv(c, s) && AtHand(c, s, b, p, source)
    requires f in Forwarded(s, b, p, source, out, tables).flights && !(f.from == b && f.packet == p)
    ensures Outbound(c, Forwarded(s, b, p, source, out, tables), f)
  {
    hide Back, HomeOf, Copies, HandledInOrder, PassedOn;
    FlightsAfter(s, b, p, source, out, tables, f);
    assert Outbound(c, s, f);
  }

  lemma ForwardKeepsOrder(c: Config, s: Net, b: Site, p: Packet, source: Source, out: seq<Site>, tables: Tables, x: Site, q: Packet)
    requires LinksInv(c, s) && AtHand(c, s, b, p, source)
    requires (x, q) in Forwarded(s, b, p, source, out, tables).handled
    ensures InOrder(c, Forwarded(s, b, p, source, out, tables), x, q)
  {
    hide NextHop, HomeOf, Copies, PassedOn;
    NoHop(c.graph, b);
    if (x, q) == (b, p) {
      if source.From? { assert Outbound(c, s, Flight(source.port, b, p)); }
    } else {
      assert InOrder(c, s, x, q);
    }
  }

  lemma ForwardKeepsPassing(c: Config, s: Net, b: Site, p: Packet, source: Source, out: seq<Site>, tables: Tables,
                            y: Site, q: Packet, x: Site)
    requires LinksInv(c, s) && AtHand(c, s, b, p, source) && GoodOut(c, b, p, out)
    requires (y, q) in Forwarded(s, b, p, source, out, tables).handled && Wanted(c, q, y, x)
    ensures var s' := Forwarded(s, b, p, source, out, tables);
            (x, q) in s'.handled || Flight(y, x, q) in s'.flights
  {
    hide NextHop, HomeOf, Copies, Wanted, FlightsOutbound, HandledInOrder;
    FlightsAfter(s, b, p, source, out, tables, Flight(y, x, q));
  }

  lemma ForwardKeepsLinks(c: Config, s: Net, b: Site, p: Packet, source: Source, out: seq<Site>, tables: Tables)
    requires LinksInv(c, s) && AtHand(c, s, b, p, source) && GoodOut(c, b, p, out)
    ensures LinksInv(c, Forwarded(s, b, p, source, out, tables))
  {
    hide Outbound, InOrder, Wanted, AtHand, GoodOut;
    var s' := Forwarded(s, b, p, source, out, tables);
    forall f | f in s'.flights ensures Outbound(c, s', f) {
      if f.from == b && f.packet == p {
        NewFlight(c, s, b, p, source, out, tables, f);
      } else {
        OldFlight(c, s, b, p, source, out, tables, f);
      }
    }
    forall x: Site, q | (x, q) in s'.handled ensures InOrder(c, s', x, q) {
      ForwardKeepsOrder(c, s, b, p, source, out, tables, x, q);
    }
    forall y: Site, q, x: Site | (y, q) in s'.handled && Wanted(c, q, y, x)
      ensures (x, q) in s'.handled || Flight(y, x, q) in s'.flights
    {
      ForwardKeepsPassing(c, s, b, p, source, out, tables, y, q, x);
    }
  }

  lemma OutIsGood(c: Config, s: Net, b: Site, p: Packet, source: Source)
    requires Proper(c) && b in s.tables && b in c.ports && TablesSound(c, s) && Ready(c, s, b, p, source)
    ensures GoodOut(c, b, p, Out(BridgeAt(c, s, b), p, source))
  {
    hide Truthful, Proper, Out, Linked, Back, HomeOf, Wanted, TablesSound, Ready;
    var out := Out(BridgeAt(c, s, b), p, source);
    forall x: Site
      ensures x in out ==> Linked(c.graph, b, x) && x in c.graph.sites && x != b
                           && x != HomeOf(c, p.sender) && Back(c, x, p) == b
      ensures Wanted(c, p, b, x) ==> x in out
      ensures multiset(out)[x] <= 1
    {
      OutAway(c, s, b, p, source, x);
      LinkedApart(c, b, x);
    }
  }

  lemma TablesStaySound(c: Config, s: Net, b: Site, p: Packet, source: Source)
    requires b in s.tables && b in c.ports && TablesSound(c, s) && Ready(c, s, b, p, source)
    ensures TablesSound(c, Process(c, s, b, p, source))
  {
    hide Truthful, Ready, Out, Copies, Taught, Lookup;
    var s' := Process(c, s, b, p, source);
    forall x, id: byte | x in s'.tables ensures Truthful(c, x, id, Lookup(s'.tables[x], id)) {
      TaughtSound(c, s, b, p, source, id);
      assert Truthful(c, x, id, Lookup(s.tables[x], id));
    }
    TaughtSound(c, s, b, p, source, 0);
  }

  /** Learning, forwarding and handling one message keeps tables and links as they should be. */
  lemma ProcessKeeps(c: Config, s: Net, b: Site, p: Packet, source: Source)
    requires Proper(c) && b in s.tables && b in c.ports
    requires TablesSound(c, s) && LinksInv(c, s) && AtHand(c, s, b, p, source)
    ensures TablesSound(c, Process(c, s, b, p, source)) && LinksInv(c, Process(c, s, b, p, source))
  {
    hide Proper, Out, TablesSound, LinksInv, GoodOut, Forwarded, Ready;
    var bridge := BridgeAt(c, s, b);
    OutIsGood(c, s, b, p, source);
    TablesStaySound(c, s, b, p, source);
    ForwardKeepsLinks(c, s, b, p, source, Out(bridge, p, source), s.tables[b := Taught(bridge, p, source).table]);
  }

  lemma LinkedApart(c: Config, b: Site, x: Site)
    requires Proper(c)
    ensures Linked(c.graph, b, x) ==> x != b
  {}

  // ---------------------------------------------------------------- every reachable state

  lemma InitialTruthful(c: Config, b: Site, id: byte)
    requires b in c.graph.sites
    ensures Truthful(c, b, id, Lookup(InitialTable(c, b), id))
  {
    hide NextHop;
    if OwnsRow(c, b, Row(id)) {
      var k :| k in c.home && c.home[k] == b && Row(k) == Row(id);
      SameRow(k, id);
    }
  }

  lemma StartInv(c: Config)
    requires Proper(c)
    ensures Inv(c, Start(c))
  {
    hide Truthful, Proper;
    forall b, id: byte | b in c.graph.sites ensures Truthful(c, b, id, Lookup(InitialTable(c, b), id)) {
      InitialTruthful(c, b, id);
    }
  }

  lemma StepKeeps(c: Config, s: Net, step: Step)
    requires Proper(c) && Inv(c, s) && CanStep(c, s, step)
    ensures Inv(c, Next(c, s, step))
  {
    match step
    case Send(id, receiver) => SendKeeps(c, s, id, receiver);
    case Deliver(f) => DeliverKeeps(c, s, f);
  }

  lemma SendKeeps(c: Config, s: Net, id: byte, receiver: byte)
    requires Proper(c) && Inv(c, s) && CanStep(c, s, Send(id, receiver))
    ensures Inv(c, Next(c, s, Send(id, receiver)))
  {
    hide TablesSound, Proper, Out, Back, Copies, Taught, FlightsOutbound, HandledInOrder, PassedOn, AtHand, SentHandled;
    var p := Packet(|s.sent|, id, receiver);
    var t := s.(sent := s.sent + [p]);
    HomeIsSite(c, id);
    MoreSent(c, s, p);
    ProcessKeeps(c, t, c.home[id], p, BridgeModel.Internal);
    OneMoreSent(c, s, p, Next(c, s, Send(id, receiver)));
  }

  lemma OneMoreSent(c: Config, s: Net, p: Packet, t: Net)
    requires SentHandled(c, s) && p.number == |s.sent| && p.sender in c.home
    requires t.sent == s.sent + [p] && t.handled == s.handled + multiset{(HomeOf(c, p.sender), p)}
    ensures SentHandled(c, t)
  {}

  /** A new number is on no link and was handled nowhere. */
  lemma MoreSent(c: Config, s: Net, p: Packet)
    requires Inv(c, s) && p.number == |s.sent| && p.sender in c.home && HomeOf(c, p.sender) in c.graph.sites
    ensures var t := s.(sent := s.sent + [p]);
            TablesSound(c, t) && LinksInv(c, t) && AtHand(c, t, HomeOf(c, p.sender), p, BridgeModel.Internal)
  {
    hide Truthful, Back, Wanted, Outbound, InOrder;
    var t := s.(sent := s.sent + [p]);
    forall f | f in t.flights ensures Outbound(c, t, f) && f.packet != p {
      assert Outbound(c, s, f);
      FlightWithMore(c, s, p, f);
    }
    forall x: Site, q | (x, q) in t.handled ensures InOrder(c, t, x, q) && q != p {
      assert InOrder(c, s, x, q);
      OrderWithMore(c, s, p, x, q);
    }
  }

  lemma FlightWithMore(c: Config, s: Net, p: Packet, f: Flight)
    requires p.number == |s.sent| && Outbound(c, s, f)
    ensures Outbound(c, s.(sent := s.sent + [p]), f) && f.packet != p
  {}

  lemma OrderWithMore(c: Config, s: Net, p: Packet, x: Site, q: Packet)
    requires p.number == |s.sent| && InOrder(c, s, x, q)
    ensures InOrder(c, s.(sent := s.sent + [p]), x, q) && q != p
  {}

  lemma DeliverKeeps(c: Config, s: Net, f: Flight)
    requires Proper(c) && Inv(c, s) && CanStep(c, s, Deliver(f))
    ensures Inv(c, Next(c, s, Deliver(f)))
  {
    hide TablesSound, Proper, Out, Back, HomeOf, Copies, Wanted, Taught, HandledInOrder, PassedOn;
    assert Outbound(c, s, f);
    ProcessKeeps(c, s, f.to, f.packet, BridgeModel.From(f.from));
  }

  lemma {:induction false} RunInv(c: Config, steps: seq<Step>, states: seq<Net>, k: nat)
    requires Proper(c) && Run(c, steps, states) && k <= |steps|
    ensures Inv(c, states[k])
  {
    hide Proper, Inv, Next, CanStep, Start;
    if k == 0 {
      StartInv(c);
    } else {
      RunInv(c, steps, states, k - 1);
      StepKeeps(c, states[k - 1], steps[k - 1]);
    }
  }
}
