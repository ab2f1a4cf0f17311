/** What one bridge writes to a link, and what the receiver at the other end makes of it. */
module Links {
  import opened Sequences
  import opened Types
  import opened BridgeModel
  import opened Traffic
  import Framing
  import Receiver
  import RoundTrip
  import Network
  import Topology

  /** A message the bridge deals with, and where it is from. */
  datatype Deed<I> = Deed(message: Message, origin: Origin<I>)

  function Transact<I(==)>(w: World<I>, setup: Setup<I>, d: Deed<I>): World<I> {
    match d.origin
    case Internal => Dispatch(w, setup, d.message, Internal)
    case From(port) => Arrive(w, setup, d.message, port)
  }

  function TransactAll<I(==)>(w: World<I>, setup: Setup<I>, ds: seq<Deed<I>>): World<I> {
    if ds == [] then w else Transact(TransactAll(w, setup, ds[..|ds| - 1]), setup, ds[|ds| - 1])
  }

  /** The bridge when it decides where the message goes. */
  function Deciding<I(==)>(b: BridgeModel.State<I>, setup: Setup<I>, d: Deed<I>): BridgeModel.State<I> {
    match d.origin
    case Internal => b
    case From(port) => Learn(b, setup.mirror, port, d.message.header.sender)
  }

  function Targets<I(==)>(w: World<I>, setup: Setup<I>, d: Deed<I>): seq<I> {
    Outgoing(Deciding(w.bridge, setup, d), setup.mirror, d.message.header.receiver, d.origin)
  }

  /** All bytes ever written to an interface. */
  function LineTo<I(==)>(wire: seq<(I, seq<byte>)>, port: I): seq<byte> {
    if wire == [] then []
    else
      var n := |wire| - 1;
      LineTo(wire[..n], port) + if wire[n].0 == port then wire[n].1 else []
  }

  /** One copy of the message for each time the interface is among the targets. */
  function CopiesFor<I(==)>(targets: seq<I>, port: I, m: Message): (r: seq<Message>)
    ensures |r| == multiset(targets)[port]
    ensures forall x | x in r :: x == m
  {
    if targets == [] then []
    else
      var n := |targets| - 1;
      assert targets == targets[..n] + [targets[n]];
      CopiesFor(targets[..n], port, m) + if targets[n] == port then [m] else []
  }

  /** The messages meant for an interface while the bridge deals with some messages. */
  function Meant<I(==)>(w: World<I>, setup: Setup<I>, ds: seq<Deed<I>>, port: I): seq<Message> {
    if ds == [] then []
    else
      var n := |ds| - 1;
      Meant(w, setup, ds[..n], port) + CopiesFor(Targets(TransactAll(w, setup, ds[..n]), setup, ds[n]), port, ds[n].message)
  }

  lemma {:induction false} LineWritten<I>(wire: seq<(I, seq<byte>)>, targets: seq<I>, m: Message, port: I)
    ensures LineTo(wire + Written(targets, Framing.Encode(m)), port) ==
            LineTo(wire, port) + Framing.EncodeAll(CopiesFor(targets, port, m))
  {
    hide Framing.Encode;
    if targets == [] {
      Empty(wire);
      Empty(LineTo(wire, port));
    } else {
      var n := |targets| - 1;
      var copies, frame := CopiesFor(targets[..n], port, m), Framing.Encode(m);
      LineWritten(wire, targets[..n], m, port);
      Associative(wire, Written(targets[..n], frame), [(targets[n], frame)]);
      Append(wire + Written(targets[..n], frame), (targets[n], frame));
      Framing.EncodeAllConcat(copies, [m]);
      Empty(frame);
      Associative(LineTo(wire, port), Framing.EncodeAll(copies), frame);
      Empty(copies);
      Empty(LineTo(wire, port) + Framing.EncodeAll(copies));
    }
  }

  lemma TransactWrites<I>(w: World<I>, setup: Setup<I>, d: Deed<I>)
    ensures Transact(w, setup, d).wire == w.wire + Written(Targets(w, setup, d), Framing.Encode(d.message))
  {
    hide Framing.Encode, Written, Outgoing, Learn;
  }

  /** The line holds the encodings of exactly the messages meant for it. */
  lemma {:induction false} LineCarries<I>(w: World<I>, setup: Setup<I>, ds: seq<Deed<I>>, port: I)
    ensures LineTo(TransactAll(w, setup, ds).wire, port) ==
            LineTo(w.wire, port) + Framing.EncodeAll(Meant(w, setup, ds, port))
  {
    hide Transact, Targets, LineTo, CopiesFor, Written;
    if ds == [] {
      Empty(LineTo(w.wire, port));
    } else {
      var n := |ds| - 1;
      var before := TransactAll(w, setup, ds[..n]);
      LineCarries(w, setup, ds[..n], port);
      TransactWrites(before, setup, ds[n]);
      LineWritten(before.wire, Targets(before, setup, ds[n]), ds[n].message, port);
      var more := CopiesFor(Targets(before, setup, ds[n]), port, ds[n].message);
      Framing.EncodeAllConcat(Meant(w, setup, ds[..n], port), more);
      Associative(LineTo(w.wire, port), Framing.EncodeAll(Meant(w, setup, ds[..n], port)), Framing.EncodeAll(more));
    }
  }

  lemma {:induction false} MeantAreDealtWith<I>(w: World<I>, setup: Setup<I>, ds: seq<Deed<I>>, port: I, max: nat)
    requires forall i | 0 <= i < |ds| :: ds[i].message.Valid() && |ds[i].message.payload| <= max
    ensures forall m | m in Meant(w, setup, ds, port) :: m.Valid() && |m.payload| <= max
  {
    hide Targets, TransactAll;
    if ds != [] {
      MeantAreDealtWith(w, setup, ds[..|ds| - 1], port, max);
    }
  }

  /**
   A link carries messages: whatever a bridge does, whatever state the receiver at the other end of
   a link was in, and in whatever pieces the bytes arrive there, it finds exactly the messages that
   were meant for this link meanwhile, in order.
   */
  lemma LinkDelivers<I>(w: World<I>, setup: Setup<I>, ds: seq<Deed<I>>, port: I, max: nat, s: Receiver.State, chunks: seq<seq<byte>>)
    requires forall i | 0 <= i < |ds| :: ds[i].message.Valid() && |ds[i].message.payload| <= max
    requires Receiver.Ready(max, s)
    requires LineTo(TransactAll(w, setup, ds).wire, port) == LineTo(w.wire, port) + Receiver.Join(chunks)
    ensures Receiver.DriveChunks(max, s, chunks).messages == Meant(w, setup, ds, port)
  {
    hide Meant, LineTo, TransactAll, Receiver.DriveChunks, Receiver.Drive, Receiver.Ready, Framing.EncodeAll;
    LineCarries(w, setup, ds, port);
    MeantAreDealtWith(w, setup, ds, port, max);
    SameTail(LineTo(w.wire, port), Receiver.Join(chunks), Framing.EncodeAll(Meant(w, setup, ds, port)));
    Receiver.ChunkingIrrelevant(max, s, chunks);
    RoundTrip.EncodeAllDelivers(max, s, Meant(w, setup, ds, port));
  }

  lemma SameTail(a: seq<byte>, b: seq<byte>, c: seq<byte>)
    requires a + b == a + c
    ensures b == c
  {
    assert (a + b)[|a|..] == b;
  }

  /**
   The network's steps are the bridge's: while handlers deregister nothing, a bridge without mirrors
   sends copies to the same interfaces, and knows the same afterwards.
   */
  lemma NetworkStepsAreTheBridges(w: World<Topology.Site>, expel: Verdict<Topology.Site>, d: Deed<Topology.Site>, p: Network.Packet)
    requires expel == Never && p.sender == d.message.header.sender && p.receiver == d.message.header.receiver
    ensures var setup := Setup(Network.NoMirror, Expelling(expel));
            && Targets(w, setup, d) == Network.Out(w.bridge, p, d.origin)
            && Transact(w, setup, d).bridge == Network.Taught(w.bridge, p, d.origin)
  {
    hide Outgoing, Learn, Written, Framing.Encode;
    var log := w.handled + [(d.origin, d.message)];
    assert expel(log) == Never(log);
    assert Expelling(expel)(log) == [];
  }
}
