/**
 Intrusive circular doubly linked lists. A list is a ring of nodes, the first being the list head;
 an entry that is on no list is a ring of its own.
 */
module LinkedList {
  import opened Sequences
  import opened Iteration

  class Node {
    var next: Node
    var prev: Node

    /** INIT_LIST_HEAD */
    constructor ()
      ensures Ring([this])
    {
      next := this;
      prev := this;
    }
  }

  function Successor(i: nat, n: nat): (j: nat)
    requires i < n
    ensures j < n
  {
    if i + 1 < n then i + 1 else 0
  }

  /** The nodes follow each other in a circle, in both directions. */
  ghost predicate Ring(nodes: seq<Node>)
    reads nodes
  {
    && nodes != []
    && Distinct(nodes)
    && forall i | 0 <= i < |nodes| ::
         && nodes[i].next == nodes[Successor(i, |nodes|)]
         && nodes[Successor(i, |nodes|)].prev == nodes[i]
  }

  /** An entry that is on no list is a ring of its own. */
  ghost predicate Loose(node: Node)
    reads node
  {
    node.next == node && node.prev == node
  }

  /** __list_add */
  method Insert(node: Node, prev: Node, next: Node)
    modifies node, prev, next
    ensures node != prev && node != next ==>
              && node.next == next && node.prev == prev && next.prev == node && prev.next == node
              && (prev != next ==> prev.prev == old(prev.prev) && next.next == old(next.next))
  {
    next.prev := node;
    node.next := next;
    node.prev := prev;
    prev.next := node;
  }

  /** list_add: behind the head. */
  method Add(node: Node, head: Node, ghost ring: seq<Node>)
    requires Ring(ring) && head == ring[0] && node !in ring
    modifies node, ring
    ensures Ring([head, node] + ring[1..])
  {
    var second := head.next;
    Insert(node, head, second);
    ghost var longer := [head, node] + ring[1..];
    assert forall i | 2 <= i < |longer| :: longer[i] == ring[i - 1];
    forall i | 0 <= i < |longer|
      ensures longer[i].next == longer[Successor(i, |longer|)] && longer[Successor(i, |longer|)].prev == longer[i]
    {
      if i >= 2 { assert ring[i - 1] == longer[i]; }
    }
  }

  /** list_del_init: the entry at position k leaves the ring and becomes a ring of its own. */
  method DelInit(entry: Node, ghost ring: seq<Node>, ghost k: nat)
    requires Ring(ring) && 0 < k < |ring| && entry == ring[k]
    modifies ring
    ensures Ring(ring[..k] + ring[k + 1..]) && Loose(entry)
  {
    ghost var n := |ring|;
    ghost var before, behind := k - 1, Successor(k, n);
    ghost var shorter := ring[..k] + ring[k + 1..];
    assert Successor(before, n) == k;
    var prev, next := entry.prev, entry.next;
    assert prev == ring[before] && next == ring[behind];
    next.prev := prev;
    prev.next := next;
    entry.next := entry;
    entry.prev := entry;
    forall i | 0 <= i < n - 1
      ensures shorter[i].next == shorter[Successor(i, n - 1)] && shorter[Successor(i, n - 1)].prev == shorter[i]
    {
      var j, j' := Kept(i, k), Kept(Successor(i, n - 1), k);
      assert old(ring[j].next == ring[Successor(j, n)] && ring[Successor(j, n)].prev == ring[j]);
      WithoutPosition(ring, k, i);
      WithoutPosition(ring, k, Successor(i, n - 1));
      SameNode(ring, j, k);
      SameNode(ring, j', k);
      SameNode(ring, j, before);
      SameNode(ring, j', behind);
    }
    ShorterDistinct(ring, k);
  }

  /** Where an entry was before the one at position k left. */
  function Kept(i: nat, k: nat): nat {
    if i < k then i else i + 1
  }

  lemma WithoutPosition(ring: seq<Node>, k: nat, i: nat)
    requires k < |ring| && i < |ring| - 1
    ensures Kept(i, k) < |ring| && Kept(i, k) != k
    ensures (ring[..k] + ring[k + 1..])[i] == ring[Kept(i, k)]
  {}

  lemma SameNode(ring: seq<Node>, i: nat, j: nat)
    requires Distinct(ring) && i < |ring| && j < |ring|
    ensures ring[i] == ring[j] <==> i == j
  {}

  lemma ShorterDistinct(ring: seq<Node>, k: nat)
    requires Distinct(ring) && k < |ring|
    ensures Distinct(ring[..k] + ring[k + 1..])
  {
    var shorter := ring[..k] + ring[k + 1..];
    forall i, j | 0 <= i < j < |shorter| ensures shorter[i] != shorter[j] {
      WithoutPosition(ring, k, i);
      WithoutPosition(ring, k, j);
    }
  }

  /** list_empty, of a head or of an entry. */
  predicate IsEmpty(node: Node)
    reads node
  {
    node.next == node
  }

  /** An entry knows whether it is on the list: it is, or it is a ring of its own. */
  lemma EmptyMeansUnlisted(ring: seq<Node>, entry: Node)
    requires Ring(ring)
    requires entry in ring[1..] || Loose(entry)
    ensures IsEmpty(entry) <==> entry !in ring[1..]
  {
    if entry in ring[1..] {
      var k :| 0 < k < |ring| && ring[k] == entry;
      assert ring[Successor(k, |ring|)] != ring[k];
    }
  }

  /** A head knows whether the list has entries. */
  lemma EmptyMeansNoEntries(ring: seq<Node>)
    requires Ring(ring)
    ensures IsEmpty(ring[0]) <==> ring[1..] == []
  {
    if |ring| > 1 { assert ring[Successor(0, |ring|)] == ring[1]; }
  }

  // ---------------------------------------------------------------- registration

  /** Walks the list; ndlcomBridgeCheckExternalInterface and ndlcomBridgeCheckBridgeHandler. */
  method Check(head: Node, entry: Node, ghost entries: seq<Node>) returns (found: bool)
    requires Ring([head] + entries)
    ensures found == (entry in entries)
  {
    ghost var ring := [head] + entries;
    assert ring[Successor(0, |ring|)] == head.next by { assert ring[0] == head; }
    var it := head.next;
    ghost var i := Successor(0, |ring|);
    while it != head
      invariant i < |ring| && it == ring[i]
      invariant i == 0 ==> entry !in entries
      invariant i > 0 ==> entry !in ring[1..i]
      decreases if i == 0 then 0 else |ring| - i
    {
      if it == entry {
        assert entries[i - 1] == entry;
        return true;
      }
      assert ring[1..i + 1] == ring[1..i] + [ring[i]];
      assert i + 1 == |ring| ==> entries == ring[1..i + 1];
      it := it.next;
      i := Successor(i, |ring|);
    }
    assert i == 0;
    return false;
  }

  /** Registering an entry: it goes to the front, unless it is on the list already. */
  method Register(head: Node, entry: Node, ghost entries: seq<Node>)
    requires Ring([head] + entries) && entry != head
    modifies entry, head, entries
    ensures Ring([head] + if entry in entries then entries else [entry] + entries)
    ensures entry in entries ==> forall x | x in [head] + entries :: x.next == old(x.next) && x.prev == old(x.prev)
  {
    ghost var ring := [head] + entries;
    var present := Check(head, entry, entries);
    if present {
      return;
    }
    assert ring[1..] == entries;
    Add(entry, head, ring);
    assert [head, entry] + entries == [head] + ([entry] + entries);
  }

  /** Entries that are on no list. */
  ghost predicate AllLoose(nodes: seq<Node>, except: seq<Node>)
    reads nodes
  {
    forall e | e in nodes :: e !in except ==> Loose(e)
  }

  /** Deregistering an entry: nothing happens unless it is on the list. */
  method Deregister(head: Node, entry: Node, ghost entries: seq<Node>)
    requires Ring([head] + entries)
    modifies head, entries
    ensures var left := Without(entries, [entry]);
            Ring([head] + left) && AllLoose(entries, left)
  {
    var present := Check(head, entry, entries);
    if !present {
      WithoutNothing(entries, [entry]);
      return;
    }
    ghost var k := RemovalIsWithout(head, entries, entry);
    hide Ring, Without;
    DelInit(entry, [head] + entries, k);
  }

  lemma RemovalIsWithout(head: Node, entries: seq<Node>, entry: Node) returns (k: nat)
    requires Distinct([head] + entries) && entry in entries
    ensures var ring := [head] + entries;
            && 0 < k < |ring| && ring[k] == entry
            && ring[..k] + ring[k + 1..] == [head] + Without(entries, [entry])
  {
    var ring := [head] + entries;
    assert ring[1..] == entries;
    assert Distinct(entries) by {
      forall i, j | 0 <= i < j < |entries| ensures entries[i] != entries[j] {
        assert ring[i + 1] == entries[i] && ring[j + 1] == entries[j];
      }
    }
    k := IndexOf(entries, entry) + 1;
    WithoutOne(entries, entry);
  }

  // ---------------------------------------------------------------- the walk over the ring

  ghost predicate AllFrom(some: seq<Node>, all: seq<Node>) {
    forall i | 0 <= i < |some| :: some[i] in all
  }

  /** One deregistration, seen from the list as it was in the beginning. */
  method DeregisterOne(head: Node, victim: Node, ghost left: seq<Node>, ghost entries: seq<Node>)
    requires Ring([head] + left) && AllLoose(entries, left) && AllFrom(left, entries) && head !in entries
    modifies head, left
    ensures var fewer := Without(left, [victim]);
            Ring([head] + fewer) && AllLoose(entries, fewer) && AllFrom(fewer, entries)
  {
    hide Ring, Without;
    Deregister(head, victim, left);
    ghost var fewer := Without(left, [victim]);
    forall i | 0 <= i < |fewer| ensures fewer[i] in entries {
      assert fewer[i] in left;
    }
  }

  /** All the deregistrations one callback makes. */
  method DeregisterAll(head: Node, victims: seq<Node>, ghost entries: seq<Node>)
    requires Ring([head] + entries)
    modifies head, entries
    ensures var left := Without(entries, victims);
            Ring([head] + left) && AllLoose(entries, left)
  {
    hide Ring, Without, AllLoose;
    WithoutNothing(entries, []);
    HeadIsNoEntry(head, entries);
    NoneLoose(entries);
    ghost var left := entries;
    var i := 0;
    while i < |victims|
      invariant 0 <= i <= |victims|
      invariant head !in entries && AllFrom(left, entries)
      invariant left == Without(entries, victims[..i])
      invariant Ring([head] + left) && AllLoose(entries, left)
    {
      WithoutMore(entries, victims[..i], victims[i]);
      assert victims[..i + 1] == victims[..i] + [victims[i]];
      DeregisterOne(head, victims[i], left, entries);
      left := Without(left, [victims[i]]);
      i := i + 1;
    }
    assert victims[..i] == victims;
  }

  lemma NoneLoose(entries: seq<Node>)
    ensures AllLoose(entries, entries) && AllFrom(entries, entries)
  {}

  lemma HeadIsNoEntry(head: Node, entries: seq<Node>)
    requires Ring([head] + entries)
    ensures head !in entries
  {
    forall i | 0 <= i < |entries| ensures entries[i] != head {
      assert ([head] + entries)[i + 1] == entries[i] && ([head] + entries)[0] == head;
    }
  }

  /** The node a place stands for. */
  function NodeAt(head: Node, p: Place<Node>): Node {
    if p.Head? then head else p.e
  }

  lemma NextPointer(head: Node, list: seq<Node>, p: Place<Node>)
    requires Ring([head] + list)
    requires p.Entry? ==> p.e in list || Loose(p.e)
    ensures NodeAt(head, p).next == NodeAt(head, Next(list, p))
  {
    var ring := [head] + list;
    if p.Head? {
      assert ring[0].next == ring[Successor(0, |ring|)];
    } else if p.e in list {
      var k := IndexOf(list, p.e) + 1;
      assert ring[k].next == ring[Successor(k, |ring|)];
    }
  }

  /** CHECK_LIST_IN_LOOP and the step of the loop, after the callback has run. */
  method StepCursor(head: Node, pos: Node, saved: Node, ghost w: Walk<Node>, ghost cb: Callback<Node>)
    returns (pos': Node, saved': Node)
    requires w.pos.Entry? && w.pos.e in w.list && !Hazard(w, cb)
    requires w.saved.Entry? ==> w.saved.e in w.list
    requires head !in w.list && pos == NodeAt(head, w.pos) && saved == NodeAt(head, w.saved)
    requires Ring([head] + Survivors(w, cb)) && AllLoose(w.list, Survivors(w, cb))
    ensures pos' == NodeAt(head, Turn(w, cb).pos)
    ensures saved' == NodeAt(head, Turn(w, cb).saved)
  {
    ghost var list := Survivors(w, cb);
    ghost var ring := [head] + list;
    assert ring[1..] == list;
    EmptyMeansUnlisted(ring, pos);
    if w.saved.Entry? { EmptyMeansUnlisted(ring, saved); } else { EmptyMeansNoEntries(ring); }
    hide Ring, Without, Next;
    pos', saved' := pos, saved;
    if IsEmpty(pos') {
      pos' := saved';
    } else if IsEmpty(saved') {
      saved' := pos';
    }
    pos' := saved';
    NextPointer(head, list, Turn(w, cb).pos);
    saved' := saved'.next;
  }

  /** The body of the loop: the callback for the entry at the cursor, and the step. */
  method VisitEntry(head: Node, pos: Node, saved: Node, victims: seq<Node>,
                    ghost entries: seq<Node>, ghost w: Walk<Node>, ghost cb: Callback<Node>)
    returns (pos': Node, saved': Node)
    requires w.pos.Entry? && w.pos.e in w.list && !Hazard(w, cb)
    requires w.saved.Entry? ==> w.saved.e in w.list
    requires pos == NodeAt(head, w.pos) && saved == NodeAt(head, w.saved) && victims == cb(w.visits + [pos])
    requires head !in entries && AllFrom(w.list, entries)
    requires Ring([head] + w.list) && AllLoose(entries, w.list)
    modifies head, entries
    ensures var w' := Turn(w, cb);
            && Ring([head] + w'.list) && AllLoose(entries, w'.list) && AllFrom(w'.list, entries)
            && pos' == NodeAt(head, w'.pos) && saved' == NodeAt(head, w'.saved)
  {
    hide Next, Ring, Without, Loose;
    ghost var left := Survivors(w, cb);
    DeregisterAll(head, victims, w.list);
    assert AllFrom(left, entries) by {
      forall i | 0 <= i < |left| ensures left[i] in entries { assert left[i] in w.list; }
    }
    pos', saved' := StepCursor(head, pos, saved, w, cb);
  }

  /**
   The list_for_each_entry_safe loop with its CHECK_LIST_IN_LOOP, on the pointers themselves: it
   makes exactly the visits of the walk, and leaves the entries the walk leaves.
   */
  method ForEachSafe(head: Node, ghost entries: seq<Node>, cb: Callback<Node>)
    returns (visits: seq<Node>)
    requires Ring([head] + entries) && HazardFree(entries, cb)
    modifies head, entries
    ensures var w := After(entries, cb, |entries|);
            visits == w.visits && Ring([head] + w.list) && AllLoose(entries, w.list)
  {
    visits := [];
    ghost var n: nat, w, before, rest := 0, Begin(entries), [], entries;
    StartOfWalk(head, entries);
    var pos := head.next;
    var saved := pos.next;
    hide Ring, AllLoose, AllFrom, Turn, After, HazardFree;
    while pos != head
      invariant InWalk(entries, cb, n, w, before, rest) && visits == w.visits
      invariant head !in entries && AllFrom(w.list, entries)
      invariant Ring([head] + w.list) && AllLoose(entries, w.list)
      invariant pos == NodeAt(head, w.pos) && saved == NodeAt(head, w.saved)
      decreases |rest|
    {
      hide InWalk;
      var before', rest' := NextTurn(entries, cb, n, w, before, rest);
      visits := visits + [pos];
      var victims := cb(visits);
      pos, saved := VisitEntry(head, pos, saved, victims, entries, w, cb);
      w, n, before, rest := Turn(w, cb), n + 1, before', rest';
    }
    AtHead(head, entries, cb, n, w, before, rest);
  }

  /** The walk after n turns, with what is behind and before it. */
  ghost predicate InWalk<E>(list: seq<E>, cb: Callback<E>, n: nat, w: Walk<E>, before: seq<E>, rest: seq<E>) {
    w == After(list, cb, n) && At(w, before, rest) && n + |rest| <= |list|
  }

  lemma NextTurn<E>(list: seq<E>, cb: Callback<E>, n: nat, w: Walk<E>, before: seq<E>, rest: seq<E>)
    returns (before': seq<E>, rest': seq<E>)
    requires InWalk(list, cb, n, w, before, rest) && HazardFree(list, cb) && w.pos != Head
    ensures InWalk(list, cb, n + 1, Turn(w, cb), before', rest') && |rest'| < |rest|
    ensures !Hazard(w, cb) && w.pos.e in w.list && (w.saved.Entry? ==> w.saved.e in w.list)
    ensures Turn(w, cb).visits == w.visits + [w.pos.e]
  {
    assert !Hazard(w, cb);
    Standing(w, before, rest);
    hide Hazard;
    before', rest' := TurnAt(w, cb, before, rest);
  }

  lemma AtHead(head: Node, entries: seq<Node>, cb: Callback<Node>, n: nat, w: Walk<Node>, before: seq<Node>, rest: seq<Node>)
    requires InWalk(entries, cb, n, w, before, rest) && head !in entries
    requires AllFrom(w.list, entries) && head == NodeAt(head, w.pos)
    ensures w == After(entries, cb, |entries|)
  {
    if w.pos.Entry? { Standing(w, before, rest); }
    RestsAtHead(entries, cb, n, |entries|);
  }

  lemma Standing<E>(w: Walk<E>, before: seq<E>, rest: seq<E>)
    requires At(w, before, rest) && rest != []
    ensures w.pos == Entry(rest[0]) && rest[0] in w.list
    ensures w.saved.Entry? ==> w.saved.e in w.list
  {
    assert rest[0] in before + rest;
    if |rest| > 1 { assert rest[1] in before + rest; }
  }

  lemma {:induction false} RestsAtHead<E>(list: seq<E>, cb: Callback<E>, k: nat, n: nat)
    requires k <= n && After(list, cb, k).pos == Head
    ensures After(list, cb, n) == After(list, cb, k)
    decreases n
  {
    if k < n { RestsAtHead(list, cb, k, n - 1); }
  }

  lemma StartOfWalk(head: Node, entries: seq<Node>)
    requires Ring([head] + entries)
    ensures Distinct(entries) && head !in entries && At(Begin(entries), [], entries)
    ensures head.next == NodeAt(head, First(entries))
    ensures head.next.next == NodeAt(head, Next(entries, First(entries)))
  {
    var ring := [head] + entries;
    forall i, j | 0 <= i < j < |entries| ensures entries[i] != entries[j] {
      assert ring[i + 1] == entries[i] && ring[j + 1] == entries[j];
    }
    HeadIsNoEntry(head, entries);
    BeginAt(entries);
    NextPointer(head, entries, Head);
    NextPointer(head, entries, First(entries));
  }
}
