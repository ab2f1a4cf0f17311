/** What the network promises, over all runs: true routes, exactly-once delivery, an end to every flood. */
module Delivery {
  import opened Sequences
  import opened Types
  import opened Iteration
  import opened Routing
  import opened Topology
  import opened Network
  import BridgeModel

  /** The states that some run ends in. */
  ghost predicate Reachable(c: Config, s: Net) {
    exists steps, states :: Run(c, steps, states) && states[|steps|] == s
  }

  lemma ReachableInv(c: Config, s: Net)
    requires Proper(c) && Reachable(c, s)
    ensures Inv(c, s)
  {
    hide Proper, Inv;
    var steps, states :| Run(c, steps, states) && states[|steps|] == s;
    RunInv(c, steps, states, |steps|);
  }

  // ---------------------------------------------------------------- true routes

  /** In every reachable state a learned route points home, and one's own ids stay one's own. */
  lemma RoutesPointHome(c: Config, s: Net, b: Site, id: byte)
    requires Proper(c) && Reachable(c, s) && b in c.graph.sites
    ensures b in s.tables
    ensures var dest := Lookup(s.tables[b], id);
            && (id !in c.home ==> dest == All)
            && (id in c.home && b != c.home[id] ==> dest == All || dest == Via(NextHop(c.graph, b, c.home[id])))
            && (id in c.home && b == c.home[id] && Row(id) < c.devices ==> dest == Self)
  {
    hide NextHop, Proper, Reachable, Lookup, FlightsOutbound, HandledInOrder, PassedOn, SentHandled;
    ReachableInv(c, s);
    assert Truthful(c, b, id, Lookup(s.tables[b], id));
  }

  /** And every copy in flight moves away from its sender's home, over a link, and alone on it. */
  lemma CopiesMoveAway(c: Config, s: Net, f: Flight)
    requires Proper(c) && Reachable(c, s) && f in s.flights
    ensures f.packet.sender in c.home && f.to in c.graph.sites && s.flights[f] == 1
    ensures f.to != c.home[f.packet.sender] && f.from == NextHop(c.graph, f.to, c.home[f.packet.sender])
  {
    hide NextHop, Proper, Reachable, TablesSound, HandledInOrder, PassedOn, SentHandled;
    ReachableInv(c, s);
    assert Outbound(c, s, f);
  }

  // ---------------------------------------------------------------- exactly once

  /** No copy of the message is on any link. */
  ghost predicate Quiet(s: Net, p: Packet) {
    forall f | f in s.flights :: f.packet != p
  }

  /** A site on the way, up to a given distance from the sender, has handled the message once it is quiet. */
  lemma {:induction false} HandledAlong(c: Config, s: Net, p: Packet, t: Site, i: nat)
    requires Proper(c) && Inv(c, s) && p in s.sent && Quiet(s, p)
    requires p.sender in c.home && c.home[p.sender] in c.graph.sites && t in c.graph.sites
    requires p.receiver in c.home ==> c.home[p.receiver] == t
    requires i < |PathTo(c.graph, c.home[p.sender], t)|
    ensures (PathTo(c.graph, c.home[p.sender], t)[i], p) in s.handled
  {
    hide Tree, NextHop, TablesSound, FlightsOutbound, HandledInOrder;
    var h := c.home[p.sender];
    var path := PathTo(c.graph, h, t);
    if i == 0 {
      var n := IndexOf(s.sent, p);
      assert s.sent[n] == p;
    } else {
      HandledAlong(c, s, p, t, i - 1);
      RouteHop(c.graph, h, t, i - 1);
      assert i - 1 + 1 == i;
      assert Wanted(c, p, path[i - 1], path[i]);
    }
  }

  /** Nobody handles a message twice. */
  lemma AtMostOnce(c: Config, s: Net, b: Site, p: Packet)
    requires Proper(c) && Reachable(c, s)
    ensures s.handled[(b, p)] <= 1
  {
    hide Proper, Reachable, TablesSound, FlightsOutbound, PassedOn, SentHandled;
    ReachableInv(c, s);
    if (b, p) in s.handled { assert InOrder(c, s, b, p); }
  }

  /**
   When a message to a known id has died out, its home has handled it exactly once, whatever the
   tables knew or learned meanwhile.
   */
  lemma UnicastExactlyOnce(c: Config, s: Net, p: Packet)
    requires Proper(c) && Reachable(c, s)
    requires p in s.sent && Quiet(s, p) && p.receiver in c.home
    ensures s.handled[(c.home[p.receiver], p)] == 1
  {
    hide Inv, Tree, Reachable;
    ReachableInv(c, s);
    AtMostOnce(c, s, c.home[p.receiver], p);
    SentFromHome(c, s, p);
    var path := PathTo(c.graph, c.home[p.sender], c.home[p.receiver]);
    HandledAlong(c, s, p, c.home[p.receiver], |path| - 1);
  }

  /** When a broadcast, or a message to an unknown id, has died out, every site has handled it exactly once. */
  lemma BroadcastExactlyOnce(c: Config, s: Net, p: Packet, b: Site)
    requires Proper(c) && Reachable(c, s)
    requires p in s.sent && Quiet(s, p) && p.receiver !in c.home
    requires b in c.graph.sites
    ensures s.handled[(b, p)] == 1
  {
    hide Inv, Tree, Reachable;
    ReachableInv(c, s);
    AtMostOnce(c, s, b, p);
    SentFromHome(c, s, p);
    var path := PathTo(c.graph, c.home[p.sender], b);
    HandledAlong(c, s, p, b, |path| - 1);
  }

  lemma SentFromHome(c: Config, s: Net, p: Packet)
    requires Proper(c) && Inv(c, s) && p in s.sent
    ensures p.sender in c.home && c.home[p.sender] in c.graph.sites
  {
    hide Tree, TablesSound, FlightsOutbound, HandledInOrder, PassedOn;
    var n := IndexOf(s.sent, p);
    assert s.sent[n] == p;
  }

  // ---------------------------------------------------------------- floods end

  /** A copy in flight can always arrive. */
  lemma ArrivalAlwaysPossible(c: Config, s: Net, f: Flight)
    requires Proper(c) && Reachable(c, s) && f in s.flights
    ensures CanStep(c, s, Deliver(f))
  {
    hide Tree, Reachable, Proper, TablesSound;
    ReachableInv(c, s);
    assert Outbound(c, s, f);
    HaveTables(c, s, f.to);
  }

  lemma HaveTables(c: Config, s: Net, b: Site)
    requires Proper(c) && TablesSound(c, s) && b in c.graph.sites
    ensures b in s.tables && b in c.ports
  {
    hide Tree, Truthful;
  }

  function Sends(steps: seq<Step>): nat {
    if steps == [] then 0 else Sends(steps[..|steps| - 1]) + if steps[|steps| - 1].Send? then 1 else 0
  }

  lemma {:induction false} EveryStepHandles(c: Config, steps: seq<Step>, states: seq<Net>, k: nat)
    requires Run(c, steps, states) && k <= |steps|
    ensures |states[k].handled| == k && |states[k].sent| == Sends(steps[..k])
  {
    if k > 0 {
      hide Out, Copies, Taught, Start;
      EveryStepHandles(c, steps, states, k - 1);
      assert steps[..k][..k - 1] == steps[..k - 1];
      assert states[k - 1 + 1] == Network.Next(c, states[k - 1], steps[k - 1]);
    } else {
      assert states[0].handled == multiset{} && states[0].sent == [];
    }
  }

  function PairRow(sites: set<Site>, p: Packet): set<(Site, Packet)> {
    set b | b in sites :: (b, p)
  }

  /** All pairs of a site and a message. */
  function Pairs(sites: set<Site>, sent: seq<Packet>): set<(Site, Packet)> {
    if sent == [] then {} else Pairs(sites, sent[..|sent| - 1]) + PairRow(sites, sent[|sent| - 1])
  }

  lemma {:induction false} PairsCount(sites: set<Site>, sent: seq<Packet>)
    ensures |Pairs(sites, sent)| <= |sites| * |sent|
  {
    if sent != [] {
      var n := |sent| - 1;
      PairsCount(sites, sent[..n]);
      RowCount(sites, sent[n]);
      UnionCount(Pairs(sites, sent[..n]), PairRow(sites, sent[n]));
      OneRowMore(|sites|, n);
    }
  }

  lemma UnionCount<T>(a: set<T>, b: set<T>)
    ensures |a + b| <= |a| + |b|
  {
    assert a + b == a + (b - a);
  }

  lemma OneRowMore(k: nat, n: nat)
    ensures k * n + k == k * (n + 1)
  {}

  lemma {:induction false} RowCount(sites: set<Site>, p: Packet)
    ensures |PairRow(sites, p)| == |sites|
  {
    if sites == {} {
      assert PairRow(sites, p) == {};
    } else {
      var a :| a in sites;
      RowCount(sites - {a}, p);
      assert PairRow(sites, p) == PairRow(sites - {a}, p) + {(a, p)};
    }
  }

  lemma {:induction false} InPairs(sites: set<Site>, sent: seq<Packet>, b: Site, i: nat)
    requires b in sites && i < |sent|
    ensures (b, sent[i]) in Pairs(sites, sent)
  {
    if i < |sent| - 1 { InPairs(sites, sent[..|sent| - 1], b, i); }
  }

  lemma CountBounded(m: multiset<(Site, Packet)>, s: set<(Site, Packet)>)
    requires forall h :: m[h] <= 1
    requires forall h | h in m :: h in s
    ensures |m| <= |s|
  {
    var all := multiset(s);
    assert all == m + (all - m);
    assert |all| == |m| + |all - m| && |all| == |s|;
  }

  /**
   A run takes at most as many steps as there are pairs of a site and a message sent: after the last
   send everything dies out, and no message crosses more links than there are sites besides its home.
   */
  lemma FloodsEnd(c: Config, steps: seq<Step>, states: seq<Net>)
    requires Proper(c) && Run(c, steps, states)
    ensures |steps| <= |c.graph.sites| * Sends(steps)
  {
    hide Proper, Out, Pairs, TablesSound, FlightsOutbound, PassedOn, SentHandled, Start, Network.Next, CanStep;
    var s := states[|steps|];
    RunInv(c, steps, states, |steps|);
    EveryStepHandles(c, steps, states, |steps|);
    assert steps[..|steps|] == steps;
    forall h: (Site, Packet)
      ensures s.handled[h] <= 1
      ensures h in s.handled ==> h in Pairs(c.graph.sites, s.sent)
    {
      if h in s.handled {
        var (b, p) := h;
        assert (b, p) in s.handled;
        assert InOrder(c, s, b, p);
        InPairs(c.graph.sites, s.sent, b, p.number);
      }
    }
    CountBounded(s.handled, Pairs(c.graph.sites, s.sent));
    PairsCount(c.graph.sites, s.sent);
  }

  lemma {:induction false} HandledStays(c: Config, steps: seq<Step>, states: seq<Net>, i: nat, j: nat, h: (Site, Packet))
    requires Run(c, steps, states) && i <= j <= |steps| && h in states[i].handled
    ensures h in states[j].handled
    decreases j
  {
    if i < j {
      hide Out, Copies, Taught, Start;
      HandledStays(c, steps, states, i, j - 1, h);
      assert states[j - 1 + 1] == Network.Next(c, states[j - 1], steps[j - 1]);
    }
  }

  /** Two arrivals of one message are at different sites; so no link is crossed twice. */
  lemma ArrivalsDiffer(c: Config, steps: seq<Step>, states: seq<Net>, i: nat, j: nat)
    requires Proper(c) && Run(c, steps, states) && i < j < |steps|
    requires steps[i].Deliver? && steps[j].Deliver? && steps[i].flight.packet == steps[j].flight.packet
    ensures steps[i].flight.to != steps[j].flight.to
  {
    hide Proper, Out, Copies, Taught, Start, TablesSound, HandledInOrder, PassedOn, SentHandled;
    var f, g := steps[i].flight, steps[j].flight;
    assert states[i + 1] == Network.Next(c, states[i], steps[i]);
    HandledStays(c, steps, states, i + 1, j, (f.to, f.packet));
    RunInv(c, steps, states, j);
    assert CanStep(c, states[j], steps[j]);
    assert Outbound(c, states[j], g);
  }
}
