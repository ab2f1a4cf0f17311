/** Networks of sites in which every site is reachable from every other by a unique path. */
module Topology {
  import opened Sequences
  import opened Iteration

  datatype Site = Site(name: nat)

  datatype Graph = Graph(sites: set<Site>, links: set<(Site, Site)>)

  predicate Linked(g: Graph, a: Site, b: Site) {
    (a, b) in g.links
  }

  /** Sites in a row, each linked to the next, none visited twice. */
  ghost predicate SimplePath(g: Graph, p: seq<Site>, a: Site, b: Site) {
    && p != [] && p[0] == a && p[|p| - 1] == b
    && (forall i | 0 <= i < |p| :: p[i] in g.sites)
    && (forall i | 0 <= i < |p| - 1 :: Linked(g, p[i], p[i + 1]))
    && Distinct(p)
  }

  ghost predicate WellFormed(g: Graph) {
    forall a, b | Linked(g, a, b) :: a in g.sites && b in g.sites && a != b && Linked(g, b, a)
  }

  ghost predicate Connected(g: Graph, a: Site, b: Site) {
    exists p :: SimplePath(g, p, a, b)
  }

  /** The documented requirement on the network. */
  ghost predicate Tree(g: Graph) {
    && WellFormed(g)
    && (forall a, b {:trigger Connected(g, a, b)} | a in g.sites && b in g.sites :: Connected(g, a, b))
    && (forall a, b, p, q | SimplePath(g, p, a, b) && SimplePath(g, q, a, b) :: p == q)
  }

  ghost function PathTo(g: Graph, a: Site, b: Site): (p: seq<Site>)
    requires Tree(g) && a in g.sites && b in g.sites
    ensures SimplePath(g, p, a, b)
  {
    assert Connected(g, a, b);
    var p :| SimplePath(g, p, a, b);
    p
  }

  ghost function Distance(g: Graph, a: Site, b: Site): nat
    requires Tree(g) && a in g.sites && b in g.sites
  {
    |PathTo(g, a, b)| - 1
  }

  /** The neighbour of a in the direction of b; a itself when it is there already. */
  ghost function NextHop(g: Graph, a: Site, b: Site): Site {
    if Tree(g) && a in g.sites && b in g.sites && a != b then PathTo(g, a, b)[1] else a
  }

  lemma Unique(g: Graph, a: Site, b: Site, p: seq<Site>)
    requires Tree(g) && a in g.sites && b in g.sites && SimplePath(g, p, a, b)
    ensures PathTo(g, a, b) == p
  {}

  lemma SuffixPath(g: Graph, p: seq<Site>, a: Site, b: Site, i: nat)
    requires SimplePath(g, p, a, b) && i < |p|
    ensures SimplePath(g, p[i..], p[i], b)
  {
    var q := p[i..];
    forall k | 0 <= k < |q| - 1 ensures Linked(g, q[k], q[k + 1]) {
      assert q[k] == p[i + k] && q[k + 1] == p[i + k + 1];
      assert Linked(g, p[i + k], p[i + k + 1]);
    }
  }

  lemma PrependPath(g: Graph, p: seq<Site>, a: Site, b: Site, x: Site)
    requires SimplePath(g, p, a, b) && x in g.sites && Linked(g, x, a) && x !in p
    ensures SimplePath(g, [x] + p, x, b)
  {
    var q := [x] + p;
    forall k | 0 <= k < |q| - 1 ensures Linked(g, q[k], q[k + 1]) {
      if k > 0 {
        assert q[k] == p[k - 1] && q[k + 1] == p[k];
        assert Linked(g, p[k - 1], p[k - 1 + 1]);
      }
    }
  }

  /** One hop is a link, and one step closer. */
  lemma HopCloser(g: Graph, a: Site, b: Site)
    requires Tree(g) && a in g.sites && b in g.sites && a != b
    ensures var x := NextHop(g, a, b);
            && x in g.sites && Linked(g, a, x)
            && Distance(g, x, b) == Distance(g, a, b) - 1
            && PathTo(g, x, b) == PathTo(g, a, b)[1..]
  {
    var p := PathTo(g, a, b);
    assert Linked(g, p[0], p[0 + 1]);
    SuffixPath(g, p, a, b, 1);
    Unique(g, p[1], b, p[1..]);
  }

  lemma HopIsLink(g: Graph, a: Site, b: Site)
    requires Tree(g) && a in g.sites && b in g.sites && a != b
    ensures NextHop(g, a, b) in g.sites && Linked(g, a, NextHop(g, a, b))
  {
    HopCloser(g, a, b);
  }

  lemma LinkBothWays(g: Graph, a: Site, b: Site)
    requires Tree(g) && Linked(g, a, b)
    ensures a in g.sites && b in g.sites && a != b && Linked(g, b, a)
  {}

  /** From a path through a neighbour, a path that goes there at once. */
  lemma ShortCut(g: Graph, p: seq<Site>, c: Site, h: Site, x: Site) returns (q: seq<Site>)
    requires SimplePath(g, p, c, h) && x in p && x != c && Linked(g, c, x)
    ensures SimplePath(g, q, c, h) && |q| > 1 && q[1] == x
  {
    var i := IndexOf(p, x);
    SuffixPath(g, p, c, h, i);
    var tail := p[i..];
    assert c !in tail by {
      forall k | 0 <= k < |tail| ensures tail[k] != c { assert tail[k] == p[i + k]; }
    }
    PrependPath(g, tail, x, h, c);
    q := [c] + tail;
  }

  /** A neighbour that lies on the way is the next hop. */
  lemma NeighbourOnTheWay(g: Graph, c: Site, x: Site, h: Site)
    requires Tree(g) && Linked(g, c, x) && c in g.sites && h in g.sites && x in PathTo(g, c, h)
    ensures c != h && NextHop(g, c, h) == x
  {
    hide Tree, Linked;
    LinkBothWays(g, c, x);
    var q := ShortCut(g, PathTo(g, c, h), c, h, x);
    Unique(g, c, h, q);
    assert q[0] != q[|q| - 1];
  }

  /** Every other neighbour is further away, and leads back through here. */
  lemma HopAway(g: Graph, c: Site, x: Site, h: Site)
    requires Tree(g) && Linked(g, c, x) && h in g.sites
    requires c in g.sites && x != NextHop(g, c, h)
    ensures x in g.sites && x != h && NextHop(g, x, h) == c
  {
    hide Tree, Linked;
    LinkBothWays(g, c, x);
    var p := PathTo(g, c, h);
    if x in p {
      NeighbourOnTheWay(g, c, x, h);
      assert false;
    }
    PrependPath(g, p, c, h, x);
    Unique(g, x, h, [x] + p);
    assert h == p[|p| - 1];
    assert ([x] + p)[1] == c;
  }

  /** On the way from h to t, the way on and the way back are different hops. */
  lemma RouteHop(g: Graph, h: Site, t: Site, i: nat)
    requires Tree(g) && h in g.sites && t in g.sites
    requires i < |PathTo(g, h, t)| - 1
    ensures var p := PathTo(g, h, t);
            && p[i] != t && NextHop(g, p[i], t) == p[i + 1]
            && p[i + 1] != NextHop(g, p[i], h)
    ensures var p := PathTo(g, h, t);
            p[i + 1] != h && NextHop(g, p[i + 1], h) == p[i]
  {
    hide Tree;
    var p := PathTo(g, h, t);
    SuffixPath(g, p, h, t, i);
    Unique(g, p[i], t, p[i..]);
    assert p[i] != p[|p| - 1];
    if i > 0 {
      RouteHop(g, h, t, i - 1);
      assert p[i + 1] != p[i - 1] && p[i - 1 + 1] == p[i];
    }
    assert Linked(g, p[i], p[i + 1]);
    LinkBothWays(g, p[i], p[i + 1]);
    HopAway(g, p[i], p[i + 1], h);
  }
}
