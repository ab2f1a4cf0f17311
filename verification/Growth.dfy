/**
 Plugging a new site into one existing site keeps a network free of cycles; so every network built
 up that way is one the delivery theorems speak about.
 */
module Growth {
  import opened Sequences
  import opened Types
  import opened Iteration
  import opened Topology
  import Network

  function AddLeaf(g: Graph, a: Site, x: Site): Graph {
    Graph(g.sites + {x}, g.links + {(a, x), (x, a)})
  }

  /** Each new site with the site it is plugged into, the last one last. */
  function Grown(root: Site, plugs: seq<(Site, Site)>): Graph {
    if plugs == [] then Graph({root}, {})
    else
      var n := |plugs| - 1;
      AddLeaf(Grown(root, plugs[..n]), plugs[n].0, plugs[n].1)
  }

  predicate Pluggable(root: Site, plugs: seq<(Site, Site)>) {
    plugs != [] ==>
      var n := |plugs| - 1;
      var g := Grown(root, plugs[..n]);
      Pluggable(root, plugs[..n]) && plugs[n].0 in g.sites && plugs[n].1 !in g.sites
  }

  /** Any new site may be plugged into any site there is. */
  lemma AnySiteCanBePlugged(root: Site, plugs: seq<(Site, Site)>, a: Site, x: Site)
    requires Pluggable(root, plugs) && a in Grown(root, plugs).sites && x !in Grown(root, plugs).sites
    ensures Pluggable(root, plugs + [(a, x)])
    ensures Grown(root, plugs + [(a, x)]) ==
            Graph(Grown(root, plugs).sites + {x}, Grown(root, plugs).links + {(a, x), (x, a)})
  {
    Append(plugs, (a, x));
  }

  // ---------------------------------------------------------------- paths and the new site

  lemma NewLinks(g: Graph, a: Site, x: Site, u: Site, v: Site)
    requires WellFormed(g) && x !in g.sites && a in g.sites
    ensures Linked(AddLeaf(g, a, x), u, v) <==> Linked(g, u, v) || (u == a && v == x) || (u == x && v == a)
    ensures Linked(g, u, v) ==> u != x && v != x
  {}

  lemma OldPath(g: Graph, a: Site, x: Site, p: seq<Site>, b: Site, c: Site)
    requires WellFormed(g) && x !in g.sites && a in g.sites
    ensures SimplePath(g, p, b, c) <==> SimplePath(AddLeaf(g, a, x), p, b, c) && x !in p
  {
    hide Linked, WellFormed, Distinct;
    forall i | 0 <= i < |p| - 1 ensures p[i] != x && p[i + 1] != x ==> (Linked(g, p[i], p[i + 1]) <==> Linked(AddLeaf(g, a, x), p[i], p[i + 1])) {
      NewLinks(g, a, x, p[i], p[i + 1]);
    }
  }

  /** The new site is never in the middle of a path. */
  lemma LeafAtEnds(g: Graph, a: Site, x: Site, p: seq<Site>, b: Site, c: Site, i: nat)
    requires WellFormed(g) && x !in g.sites && a in g.sites
    requires SimplePath(AddLeaf(g, a, x), p, b, c) && 0 < i < |p| - 1
    ensures p[i] != x
  {
    hide Linked, WellFormed;
    var before := i - 1;
    assert Linked(AddLeaf(g, a, x), p[before], p[before + 1]) && Linked(AddLeaf(g, a, x), p[i], p[i + 1]);
    NewLinks(g, a, x, p[before], p[i]);
    NewLinks(g, a, x, p[i], p[i + 1]);
  }

  lemma AppendPath(g: Graph, p: seq<Site>, a: Site, b: Site, x: Site)
    requires SimplePath(g, p, a, b) && x in g.sites && Linked(g, b, x) && x !in p
    ensures SimplePath(g, p + [x], a, x)
  {
    var q := p + [x];
    forall k | 0 <= k < |q| - 1 ensures Linked(g, q[k], q[k + 1]) {
      if k < |p| - 1 { assert q[k] == p[k] && q[k + 1] == p[k + 1]; }
    }
  }

  lemma PrefixPath(g: Graph, p: seq<Site>, a: Site, b: Site)
    requires SimplePath(g, p, a, b) && |p| > 1
    ensures SimplePath(g, p[..|p| - 1], a, p[|p| - 2]) && Linked(g, p[|p| - 2], b)
  {
    var n := |p| - 2;
    assert Linked(g, p[n], p[n + 1]);
  }

  /** A path from the new site begins with its only link. */
  lemma FromLeaf(g: Graph, a: Site, x: Site, p: seq<Site>, c: Site)
    requires WellFormed(g) && x !in g.sites && a in g.sites
    requires SimplePath(AddLeaf(g, a, x), p, x, c) && c != x
    ensures SimplePath(g, p[1..], a, c) && p == [x] + p[1..]
  {
    hide Linked, WellFormed;
    var g' := AddLeaf(g, a, x);
    assert Linked(g', p[0], p[0 + 1]);
    NewLinks(g, a, x, p[0], p[1]);
    SuffixPath(g', p, x, c, 1);
    OldPath(g, a, x, p[1..], a, c);
  }

  lemma ToLeaf(g: Graph, a: Site, x: Site, p: seq<Site>, b: Site)
    requires WellFormed(g) && x !in g.sites && a in g.sites
    requires SimplePath(AddLeaf(g, a, x), p, b, x) && b != x
    ensures SimplePath(g, p[..|p| - 1], b, a) && p == p[..|p| - 1] + [x]
  {
    hide Linked, WellFormed;
    PrefixPath(AddLeaf(g, a, x), p, b, x);
    NewLinks(g, a, x, p[|p| - 2], x);
    OldPath(g, a, x, p[..|p| - 1], b, a);
  }

  lemma BetweenOld(g: Graph, a: Site, x: Site, p: seq<Site>, b: Site, c: Site)
    requires WellFormed(g) && x !in g.sites && a in g.sites
    requires SimplePath(AddLeaf(g, a, x), p, b, c) && b != x && c != x
    ensures SimplePath(g, p, b, c)
  {
    hide Linked, WellFormed, Distinct;
    forall i | 0 <= i < |p| ensures p[i] != x {
      if 0 < i < |p| - 1 { LeafAtEnds(g, a, x, p, b, c, i); }
    }
    OldPath(g, a, x, p, b, c);
  }

  // ---------------------------------------------------------------- the tree stays a tree

  lemma SamePath(g: Graph, a: Site, x: Site, p: seq<Site>, q: seq<Site>, b: Site, c: Site)
    requires Tree(g) && x !in g.sites && a in g.sites
    requires SimplePath(AddLeaf(g, a, x), p, b, c) && SimplePath(AddLeaf(g, a, x), q, b, c)
    ensures p == q
  {
    hide WellFormed;
    if b == x && c == x {
      assert p == [x] && q == [x];
    } else if b == x {
      FromLeaf(g, a, x, p, c);
      FromLeaf(g, a, x, q, c);
    } else if c == x {
      ToLeaf(g, a, x, p, b);
      ToLeaf(g, a, x, q, b);
    } else {
      BetweenOld(g, a, x, p, b, c);
      BetweenOld(g, a, x, q, b, c);
    }
  }

  lemma SomePath(g: Graph, a: Site, x: Site, b: Site, c: Site)
    requires Tree(g) && x !in g.sites && a in g.sites
    requires b in g.sites + {x} && c in g.sites + {x}
    ensures Connected(AddLeaf(g, a, x), b, c)
  {
    hide Tree;
    TreeIsWellFormed(g);
    var g' := AddLeaf(g, a, x);
    if b == x && c == x {
      assert SimplePath(g', [x], x, x);
    } else if b == x {
      OldPath(g, a, x, PathTo(g, a, c), a, c);
      PrependPath(g', PathTo(g, a, c), a, c, x);
    } else if c == x {
      OldPath(g, a, x, PathTo(g, b, a), b, a);
      AppendPath(g', PathTo(g, b, a), b, a, x);
    } else {
      OldPath(g, a, x, PathTo(g, b, c), b, c);
    }
  }

  lemma TreeIsWellFormed(g: Graph)
    requires Tree(g)
    ensures WellFormed(g)
  {}

  lemma LeafKeepsTree(g: Graph, a: Site, x: Site)
    requires Tree(g) && a in g.sites && x !in g.sites
    ensures Tree(AddLeaf(g, a, x))
  {
    hide SimplePath;
    var g' := AddLeaf(g, a, x);
    forall b, c | b in g'.sites && c in g'.sites ensures Connected(g', b, c) {
      SomePath(g, a, x, b, c);
    }
    forall b, c, p, q | SimplePath(g', p, b, c) && SimplePath(g', q, b, c) ensures p == q {
      SamePath(g, a, x, p, q, b, c);
    }
    LeafWellFormed(g, a, x);
  }

  lemma LeafWellFormed(g: Graph, a: Site, x: Site)
    requires WellFormed(g) && a in g.sites && x !in g.sites
    ensures WellFormed(AddLeaf(g, a, x))
  {
    var g' := AddLeaf(g, a, x);
    forall u, v | Linked(g', u, v) ensures u in g'.sites && v in g'.sites && u != v && Linked(g', v, u) {
      NewLinks(g, a, x, u, v);
      assert Linked(g, u, v) ==> Linked(g, v, u);
    }
  }

  /** Whatever is built up by plugging in one site after the other has no cycle. */
  lemma {:induction false} GrownIsTree(root: Site, plugs: seq<(Site, Site)>)
    requires Pluggable(root, plugs)
    ensures Tree(Grown(root, plugs))
  {
    if plugs == [] {
      var g := Grown(root, plugs);
      assert SimplePath(g, [root], root, root);
      forall a, b, p, q | SimplePath(g, p, a, b) && SimplePath(g, q, a, b) ensures p == q {
        assert p == [root] && q == [root];
      }
    } else {
      hide Tree;
      var n := |plugs| - 1;
      GrownIsTree(root, plugs[..n]);
      LeafKeepsTree(Grown(root, plugs[..n]), plugs[n].0, plugs[n].1);
    }
  }

  // ---------------------------------------------------------------- its networks

  ghost function InSomeOrder(s: set<Site>): (r: seq<Site>)
    ensures Distinct(r) && forall x :: x in r <==> x in s
    decreases s
  {
    if s == {} then [] else
      var x :| x in s;
      [x] + InSomeOrder(s - {x})
  }

  ghost function Neighbours(g: Graph, b: Site): set<Site> {
    set x | x in g.sites && Linked(g, b, x)
  }

  /** On every such graph, with ids wherever one likes, there is a network with all the required properties. */
  lemma ProperNetworksExist(root: Site, plugs: seq<(Site, Site)>, home: map<byte, Site>, devices: nat)
    returns (c: Network.Config)
    requires Pluggable(root, plugs) && BROADCAST !in home
    requires forall id | id in home :: home[id] in Grown(root, plugs).sites
    ensures Network.Proper(c) && c.graph == Grown(root, plugs) && c.home == home && c.devices == devices
  {
    hide Tree, Distinct, Grown, Pluggable, InSomeOrder, Neighbours, Linked;
    var g := Grown(root, plugs);
    GrownIsTree(root, plugs);
    c := Network.Config(g, map b | b in g.sites :: InSomeOrder(Neighbours(g, b)), home, devices);
    forall b, x ensures x in Neighbours(g, b) <==> Linked(g, b, x) {
      NeighboursAreLinked(g, b, x);
    }
  }

  lemma NeighboursAreLinked(g: Graph, b: Site, x: Site)
    requires Tree(g)
    ensures x in Neighbours(g, b) <==> Linked(g, b, x)
  {
    hide SimplePath;
  }
}
