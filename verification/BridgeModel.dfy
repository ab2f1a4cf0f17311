/** One bridge as a value: what it knows, where it sends, what it learns. */
module BridgeModel {
  import opened Sequences
  import opened Types
  import opened Routing
  import opened Iteration

  /** Where a message came from: the internal side, or an interface. */
  datatype Origin<I> = Internal | From(port: I)

  datatype State<I> = State(table: seq<Dest<I>>, ports: seq<I>, forwarding: bool)

  // ---------------------------------------------------------------- sending

  function Select<I>(ports: seq<I>, keep: I -> bool): (r: seq<I>)
  {
    if ports == [] then []
    else if keep(ports[0]) then [ports[0]] + Select(ports[1..], keep)
    else Select(ports[1..], keep)
  }

  /** The interfaces that want every message, except the one it came from. */
  function MirrorCopies<I(==)>(ports: seq<I>, mirror: I -> bool, origin: Origin<I>): seq<I> {
    Select(ports, p => mirror(p) && origin != From(p))
  }

  /** The ordinary interfaces, except the one it came from. */
  function Flood<I(==)>(ports: seq<I>, mirror: I -> bool, origin: Origin<I>): seq<I> {
    Select(ports, p => !mirror(p) && origin != From(p))
  }

  /** Forwarding is off, and the message is neither from us nor for us. */
  predicate Suppressed<I(==)>(b: State<I>, dest: Dest<I>, origin: Origin<I>) {
    !b.forwarding && origin != Internal && dest != Self
  }

  /** The interfaces a message is written to on account of its route. */
  function Routed<I(==)>(b: State<I>, mirror: I -> bool, receiver: byte, origin: Origin<I>): seq<I> {
    var dest := Lookup(b.table, receiver);
    if Suppressed(b, dest, origin) then []
    else match dest
      case All => Flood(b.ports, mirror, origin)
      case Self => []
      case Via(p) => if origin == From(p) then [] else [p]
  }

  /** All the interfaces a message is written to, in order. */
  function Outgoing<I(==)>(b: State<I>, mirror: I -> bool, receiver: byte, origin: Origin<I>): seq<I> {
    MirrorCopies(b.ports, mirror, origin) + Routed(b, mirror, receiver, origin)
  }

  // ---------------------------------------------------------------- learning and registration

  /** A sender is behind the interface its message came from, unless that is a mirror or the sender is ours. */
  function Learn<I(==)>(b: State<I>, mirror: I -> bool, port: I, sender: byte): State<I> {
    if mirror(port) || Lookup(b.table, sender) == Self then b
    else b.(table := Updated(b.table, sender, Via(port)))
  }

  /** What an arrival changes: the sender's route, unless it came from a mirror, or the id is ours or has no row. */
  lemma LearnExactly<I>(b: State<I>, mirror: I -> bool, port: I, sender: byte, x: byte)
    ensures var after := Learn(b, mirror, port, sender);
            && after.ports == b.ports && after.forwarding == b.forwarding
            && Lookup(after.table, x) ==
               if x == sender && !mirror(port) && Lookup(b.table, sender) != Self && sender as nat < |b.table| then Via(port)
               else Lookup(b.table, x)
  {
    LookupUpdated(b.table, sender, Via(port), x);
  }

  function Registered<I(==)>(b: State<I>, port: I): State<I> {
    if port in b.ports then b else b.(ports := [port] + b.ports)
  }

  function Deregistered<I(==)>(b: State<I>, port: I): State<I> {
    if port !in b.ports then b
    else b.(table := Invalidated(b.table, port), ports := Without(b.ports, [port]))
  }

  // ---------------------------------------------------------------- fan-out

  lemma {:induction false} SelectAppend<I>(ports: seq<I>, x: I, keep: I -> bool)
    ensures Select(ports + [x], keep) == Select(ports, keep) + if keep(x) then [x] else []
  {
    if ports == [] {
      Empty([x]);
    } else {
      PeelHead(ports, [x]);
      SelectAppend(ports[1..], x, keep);
      Associative([ports[0]], Select(ports[1..], keep), if keep(x) then [x] else []);
    }
  }

  /** One more interface in the two loops over the list. */
  lemma CopiesAppend<I>(ports: seq<I>, x: I, mirror: I -> bool, origin: Origin<I>)
    ensures MirrorCopies(ports + [x], mirror, origin) ==
            MirrorCopies(ports, mirror, origin) + if mirror(x) && origin != From(x) then [x] else []
    ensures Flood(ports + [x], mirror, origin) ==
            Flood(ports, mirror, origin) + if !mirror(x) && origin != From(x) then [x] else []
  {
    SelectAppend(ports, x, p => mirror(p) && origin != From(p));
    SelectAppend(ports, x, p => !mirror(p) && origin != From(p));
  }

  function Count(b: bool): nat {
    if b then 1 else 0
  }

  lemma {:induction false} SelectCount<I>(ports: seq<I>, keep: I -> bool, p: I)
    requires Distinct(ports)
    ensures multiset(Select(ports, keep))[p] == Count(p in ports && keep(p))
  {
    if ports != [] {
      SelectCount(ports[1..], keep, p);
      assert ports == [ports[0]] + ports[1..];
    }
  }

  /**
   How many copies an interface gets: one as a mirror, one when the message is flooded, one when the
   route names it; never a copy for the interface it came from. Flooding and routes are off exactly
   when forwarding is, for messages that are neither from us nor for us.
   */
  lemma FanOut<I>(b: State<I>, mirror: I -> bool, receiver: byte, origin: Origin<I>, p: I)
    requires Distinct(b.ports)
    ensures var dest := Lookup(b.table, receiver);
            multiset(Outgoing(b, mirror, receiver, origin))[p] ==
            if origin == From(p) then 0
            else
              (if p in b.ports && mirror(p) then 1 else 0) +
              (if (b.forwarding || origin == Internal) && dest == All && p in b.ports && !mirror(p) then 1
               else if (b.forwarding || origin == Internal) && dest == Via(p) then 1
               else 0)
  {
    SelectCount(b.ports, q => mirror(q) && origin != From(q), p);
    SelectCount(b.ports, q => !mirror(q) && origin != From(q), p);
  }

  /** Switching forwarding off does not touch messages from us or for us; of all others only mirrors get copies. */
  lemma ForwardingExactly<I>(b: State<I>, mirror: I -> bool, receiver: byte, origin: Origin<I>)
    ensures origin == Internal || Lookup(b.table, receiver) == Self ==>
              Outgoing(b.(forwarding := false), mirror, receiver, origin) ==
              Outgoing(b.(forwarding := true), mirror, receiver, origin)
    ensures origin != Internal && Lookup(b.table, receiver) != Self ==>
              Outgoing(b.(forwarding := false), mirror, receiver, origin) == Select(b.ports, p => mirror(p) && origin != From(p))
  {}

  /** A route to a registered mirror, for a message that may go there. */
  predicate RouteNamesMirror<I(==)>(b: State<I>, mirror: I -> bool, dest: Dest<I>, origin: Origin<I>) {
    && dest.Via? && dest.port in b.ports && mirror(dest.port)
    && origin != From(dest.port) && !Suppressed(b, dest, origin)
  }

  /** No interface gets two copies, unless a route names a registered mirror and the message may go there. */
  lemma AtMostOneCopyExactly<I>(b: State<I>, mirror: I -> bool, receiver: byte, origin: Origin<I>)
    requires Distinct(b.ports)
    ensures (forall p | p in Outgoing(b, mirror, receiver, origin) ::
               multiset(Outgoing(b, mirror, receiver, origin))[p] <= 1)
       <==> !RouteNamesMirror(b, mirror, Lookup(b.table, receiver), origin)
  {
    var out, dest := Outgoing(b, mirror, receiver, origin), Lookup(b.table, receiver);
    forall p | p in out ensures multiset(out)[p] == CopiesOf(b, mirror, dest, origin, p) {
      FanOut(b, mirror, receiver, origin, p);
    }
    if dest.Via? {
      FanOut(b, mirror, receiver, origin, dest.port);
    }
  }

  function CopiesOf<I(==)>(b: State<I>, mirror: I -> bool, dest: Dest<I>, origin: Origin<I>, p: I): nat {
    if origin == From(p) then 0
    else
      Count(p in b.ports && mirror(p)) +
      Count(!Suppressed(b, dest, origin) && ((dest == All && p in b.ports && !mirror(p)) || dest == Via(p)))
  }
}
