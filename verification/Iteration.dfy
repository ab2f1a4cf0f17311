/**
 The list walk that tolerates removals from inside its callbacks. The walk keeps a cursor and the
 saved successor; an entry taken off the list is linked to itself, which is how the walk notices.
 */
module Iteration {
  import opened Sequences

  /** A place in the ring: the list head, or an entry. */
  datatype Place<E> = Head | Entry(e: E)

  ghost predicate Distinct<E>(list: seq<E>) {
    forall i, j :: 0 <= i < j < |list| ==> list[i] != list[j]
  }

  function IndexOf<E(==)>(list: seq<E>, e: E): (i: nat)
    requires e in list
    ensures i < |list| && list[i] == e && e !in list[..i]
  {
    if list[0] == e then 0 else 1 + IndexOf(list[1..], e)
  }

  /** Following the next pointer. An entry that is not on the list points to itself. */
  function Next<E(==)>(list: seq<E>, p: Place<E>): Place<E> {
    match p
    case Head => First(list)
    case Entry(e) => if e in list then First(list[IndexOf(list, e) + 1..]) else p
  }

  function First<E>(list: seq<E>): Place<E> {
    if list == [] then Head else Entry(list[0])
  }

  /** The list after some entries were deregistered. */
  function Without<E(==)>(list: seq<E>, victims: seq<E>): (r: seq<E>)
    ensures forall e | e in list :: e in r <==> e !in victims
    ensures forall e | e in r :: e in list
    ensures |r| <= |list|
  {
    if list == [] then []
    else if list[0] in victims then Without(list[1..], victims)
    else [list[0]] + Without(list[1..], victims)
  }

  /** What each callback deregisters may depend on everything visited before. */
  type Callback<!E> = seq<E> -> seq<E>

  datatype Walk<E> = Walk(list: seq<E>, pos: Place<E>, saved: Place<E>, visits: seq<E>)

  function Begin<E(==)>(list: seq<E>): Walk<E> {
    Walk(list, First(list), Next(list, First(list)), [])
  }

  /** The list after the callback for the current entry. */
  function Survivors<E(==)>(w: Walk<E>, cb: Callback<E>): seq<E>
    requires w.pos.Entry?
  {
    Without(w.list, cb(w.visits + [w.pos.e]))
  }

  /** One turn: the callback, the two emptiness checks, the step of the loop. */
  function Turn<E(==)>(w: Walk<E>, cb: Callback<E>): Walk<E>
    requires w.pos.Entry?
  {
    var visits := w.visits + [w.pos.e];
    var list := Survivors(w, cb);
    if w.pos.e !in list then Walk(list, w.saved, Next(list, w.saved), visits)
    else if w.saved.Entry? && w.saved.e !in list then Walk(list, w.pos, Next(list, w.pos), visits)
    else Walk(list, w.saved, Next(list, w.saved), visits)
  }

  /** The walk after n turns; it rests once it is back at the head. */
  function After<E(==)>(list: seq<E>, cb: Callback<E>, n: nat): Walk<E> {
    if n == 0 then Begin(list)
    else
      var w := After(list, cb, n - 1);
      if w.pos.Entry? then Turn(w, cb) else w
  }

  /** This callback deregisters both the current entry and the saved successor. */
  predicate Hazard<E(==)>(w: Walk<E>, cb: Callback<E>) {
    && w.pos.Entry? && w.saved.Entry?
    && w.pos.e !in Survivors(w, cb) && w.saved.e !in Survivors(w, cb)
  }

  // ---------------------------------------------------------------- lists

  lemma {:induction false} WithoutConcat<E>(a: seq<E>, b: seq<E>, victims: seq<E>)
    ensures Without(a + b, victims) == Without(a, victims) + Without(b, victims)
  {
    if a == [] {
      Empty(b);
      Empty(Without(b, victims));
    } else {
      PeelHead(a, b);
      WithoutConcat(a[1..], b, victims);
      Associative([a[0]], Without(a[1..], victims), Without(b, victims));
    }
  }

  lemma {:induction false} WithoutDistinct<E>(list: seq<E>, victims: seq<E>)
    requires Distinct(list)
    ensures Distinct(Without(list, victims))
  {
    if list != [] {
      WithoutDistinct(list[1..], victims);
    }
  }

  lemma {:induction false} WithoutNothing<E>(list: seq<E>, victims: seq<E>)
    requires forall e | e in victims :: e !in list
    ensures Without(list, victims) == list
  {
    if list != [] {
      assert list[0] in list;
      WithoutNothing(list[1..], victims);
    }
  }

  lemma {:induction false} WithoutOne<E>(list: seq<E>, e: E)
    requires e in list && Distinct(list)
    ensures var k := IndexOf(list, e);
            Without(list, [e]) == list[..k] + list[k + 1..]
  {
    if list[0] == e {
      assert e !in list[1..];
      WithoutNothing(list[1..], [e]);
    } else {
      WithoutOne(list[1..], e);
    }
  }

  lemma {:induction false} WithoutMore<E>(list: seq<E>, victims: seq<E>, e: E)
    ensures Without(Without(list, victims), [e]) == Without(list, victims + [e])
  {
    if list != [] {
      WithoutMore(list[1..], victims, e);
    }
  }

  lemma {:induction false} WithoutShorter<E>(list: seq<E>, e: E)
    requires e in list
    ensures |Without(list, [e])| < |list|
  {
    if list[0] != e {
      WithoutShorter(list[1..], e);
    }
  }

  lemma NextOf<E>(a: seq<E>, e: E, b: seq<E>)
    requires Distinct(a + [e] + b)
    ensures Next(a + [e] + b, Entry(e)) == First(b)
  {
    var list := a + [e] + b;
    assert list[|a|] == e;
    assert IndexOf(list, e) == |a|;
    assert list[|a| + 1..] == b;
  }

  // ---------------------------------------------------------------- a healthy walk

  /** The walk has dealt with `before`, stands at the first of `rest` and saved the second. */
  ghost predicate At<E>(w: Walk<E>, before: seq<E>, rest: seq<E>) {
    && w.list == before + rest
    && Distinct(w.list)
    && w.pos == First(rest)
    && (rest != [] ==> w.saved == First(rest[1..]))
    && forall e | e in before :: e in w.visits
  }

  lemma BeginAt<E>(list: seq<E>)
    requires Distinct(list)
    ensures At(Begin(list), [], list)
  {
    Empty(list);
    if list != [] {
      PeelHead(list, []);
      Empty(list);
      assert [] + [list[0]] + list[1..] == list;
      NextOf([], list[0], list[1..]);
    }
  }

  /** A turn without hazard leaves the walk healthy, with fewer entries to go. */
  lemma TurnAt<E>(w: Walk<E>, cb: Callback<E>, before: seq<E>, rest: seq<E>)
    returns (before': seq<E>, rest': seq<E>)
    requires At(w, before, rest) && rest != [] && !Hazard(w, cb)
    ensures At(Turn(w, cb), before', rest') && |rest'| < |rest|
    ensures forall e | e in before' :: e in before || e == rest[0]
  {
    var e, tail := rest[0], rest[1..];
    var victims := cb(w.visits + [e]);
    var w' := Turn(w, cb);
    WithoutConcat(before, rest, victims);
    WithoutDistinct(w.list, victims);
    PeelHead(rest, []);
    var b, t := Without(before, victims), Without(tail, victims);
    if e in victims {
      before', rest' := b, t;
      assert Without(rest, victims) == t;
      if tail != [] { SavedSurvives(tail, victims); NextInside(w'.list, b, t); }
    } else {
      assert Without(rest, victims) == [e] + t;
      Associative(b, [e], t);
      if tail != [] && tail[0] in victims {
        before', rest' := b, [e] + t;
        NextOf(b, e, t);
        assert ([e] + t)[1..] == t;
      } else {
        before', rest' := b + [e], t;
        if tail != [] { SavedSurvives(tail, victims); NextInside(w'.list, b + [e], t); }
      }
    }
    assert e in w'.visits;
  }

  lemma SavedSurvives<E>(tail: seq<E>, victims: seq<E>)
    requires tail != [] && tail[0] !in victims
    ensures Without(tail, victims) == [tail[0]] + Without(tail[1..], victims)
  {}

  lemma NextInside<E>(list: seq<E>, a: seq<E>, b: seq<E>)
    requires list == a + b && b != [] && Distinct(list)
    ensures Next(list, Entry(b[0])) == First(b[1..])
  {
    assert list == a + [b[0]] + b[1..];
    NextOf(a, b[0], b[1..]);
  }

  // ---------------------------------------------------------------- the whole walk

  ghost predicate Ends<E>(list: seq<E>, cb: Callback<E>) {
    exists n: nat :: After(list, cb, n).pos == Head
  }

  ghost predicate HazardFree<E>(list: seq<E>, cb: Callback<E>) {
    forall n: nat :: !Hazard(After(list, cb, n), cb)
  }

  lemma {:induction false} HealthyAfter<E>(list: seq<E>, cb: Callback<E>, n: nat)
    returns (before: seq<E>, rest: seq<E>)
    requires Distinct(list)
    requires forall k: nat | k < n :: !Hazard(After(list, cb, k), cb)
    ensures At(After(list, cb, n), before, rest)
    ensures rest == [] || n + |rest| <= |list|
  {
    if n == 0 {
      BeginAt(list);
      before, rest := [], list;
    } else {
      hide Hazard, Turn;
      before, rest := HealthyAfter(list, cb, n - 1);
      if rest != [] {
        before, rest := TurnAt(After(list, cb, n - 1), cb, before, rest);
      }
    }
  }

  /** After a hazard the walk calls one deregistered entry for ever. */
  lemma {:induction false} StuckAfter<E>(list: seq<E>, cb: Callback<E>, k: nat, n: nat)
    requires k < n && Hazard(After(list, cb, k), cb)
    ensures var w := After(list, cb, n);
            w.pos.Entry? && w.saved == w.pos && w.pos.e !in w.list
    decreases n
  {
    if n > k + 1 { StuckAfter(list, cb, k, n - 1); }
  }

  lemma {:induction false} HeadStays<E>(list: seq<E>, cb: Callback<E>, k: nat, n: nat)
    requires k <= n && After(list, cb, k).pos == Head
    ensures After(list, cb, n).pos == Head
    decreases n
  {
    if k < n { HeadStays(list, cb, k, n - 1); }
  }

  /** The walk comes to an end exactly when no callback takes away both the current and the saved entry. */
  lemma EndsExactly<E>(list: seq<E>, cb: Callback<E>)
    requires Distinct(list)
    ensures Ends(list, cb) <==> HazardFree(list, cb)
  {
    if HazardFree(list, cb) {
      var before, rest := HealthyAfter(list, cb, |list|);
    } else {
      var k: nat :| Hazard(After(list, cb, k), cb);
      forall n: nat ensures After(list, cb, n).pos != Head {
        if n <= k {
          if After(list, cb, n).pos == Head { HeadStays(list, cb, n, k); }
        } else {
          StuckAfter(list, cb, k, n);
        }
      }
    }
  }

  /** Without hazard only registered entries are called. */
  lemma VisitsRegistered<E>(list: seq<E>, cb: Callback<E>, n: nat)
    requires Distinct(list) && HazardFree(list, cb)
    ensures var w := After(list, cb, n);
            w.pos.Entry? ==> w.pos.e in w.list
  {
    hide Hazard, Turn;
    var before, rest := HealthyAfter(list, cb, n);
    if rest != [] { PeelHead(rest, []); }
  }

  lemma {:induction false} VisitsCounted<E>(list: seq<E>, cb: Callback<E>, n: nat)
    ensures |After(list, cb, n).visits| <= n
  {
    if n > 0 { VisitsCounted(list, cb, n - 1); }
  }

  /** It is over after at most as many calls as there were entries, and every entry that is left was called. */
  lemma CoversSurvivors<E>(list: seq<E>, cb: Callback<E>)
    requires Distinct(list) && HazardFree(list, cb)
    ensures var w := After(list, cb, |list|);
            && w.pos == Head
            && |w.visits| <= |list|
            && forall e | e in w.list :: e in w.visits
  {
    hide Hazard, Turn;
    var before, rest := HealthyAfter(list, cb, |list|);
    VisitsCounted(list, cb, |list|);
    Empty(before);
  }

  /** The current entry is called again exactly when its callback took away its successor and not itself. */
  lemma CalledAgainExactly<E>(w: Walk<E>, cb: Callback<E>, before: seq<E>, rest: seq<E>)
    requires At(w, before, rest) && rest != [] && !Hazard(w, cb)
    ensures Turn(w, cb).pos == w.pos <==>
              rest[0] in Survivors(w, cb) && |rest| > 1 && rest[1] !in Survivors(w, cb)
  {
    if |rest| > 1 {
      assert w.list[|before|] == rest[0] && w.list[|before| + 1] == rest[1];
    }
  }
}
