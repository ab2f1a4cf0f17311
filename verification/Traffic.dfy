/** One bridge at work, as a value: bytes come in on an interface, messages go out and to the handlers. */
module Traffic {
  import opened Sequences
  import opened Types
  import opened Routing
  import opened Iteration
  import opened BridgeModel
  import opened BridgeRuns
  import Framing
  import Receiver

  /** The bridge, everything it ever wrote, and everything its handlers were shown. */
  datatype World<I> = World(bridge: BridgeModel.State<I>, wire: seq<(I, seq<byte>)>, handled: seq<(Origin<I>, Message)>)

  /** Which interfaces the handlers deregister may depend on everything they were ever shown. */
  type Reaction<!I> = seq<(Origin<I>, Message)> -> seq<I>

  /** What does not change: which interfaces are mirrors, and how the handlers react. */
  datatype Setup<!I> = Setup(mirror: I -> bool, react: Reaction<I>)

  function Written<I>(out: seq<I>, frame: seq<byte>): (w: seq<(I, seq<byte>)>)
    ensures |w| == |out|
    ensures forall i | 0 <= i < |out| :: w[i] == (out[i], frame)
  {
    if out == [] then [] else Written(out[..|out| - 1], frame) + [(out[|out| - 1], frame)]
  }

  lemma {:induction false} WrittenConcat<I>(a: seq<I>, b: seq<I>, frame: seq<byte>)
    ensures Written(a + b, frame) == Written(a, frame) + Written(b, frame)
  {
    if b == [] {
      Empty(a);
      Empty(Written(a, frame));
    } else {
      PeelLast(a, b);
      WrittenConcat(a, b[..|b| - 1], frame);
      Associative(Written(a, frame), Written(b[..|b| - 1], frame), [(b[|b| - 1], frame)]);
    }
  }

  /** The encoded message goes to every interface it should go to. */
  function Forward<I(==)>(w: World<I>, setup: Setup<I>, m: Message, origin: Origin<I>): World<I> {
    w.(wire := w.wire + Written(Outgoing(w.bridge, setup.mirror, m.header.receiver, origin), Framing.Encode(m)))
  }

  /** The log of a bridge that writes to the mirrors first, then along the route. */
  lemma ForwardInTwo<I>(w: World<I>, setup: Setup<I>, m: Message, origin: Origin<I>)
    ensures Forward(w, setup, m, origin).wire ==
            (w.wire + Written(MirrorCopies(w.bridge.ports, setup.mirror, origin), Framing.Encode(m)))
            + Written(Routed(w.bridge, setup.mirror, m.header.receiver, origin), Framing.Encode(m))
  {
    hide Framing.Encode, Written, MirrorCopies, Routed;
    var first := MirrorCopies(w.bridge.ports, setup.mirror, origin);
    var second := Routed(w.bridge, setup.mirror, m.header.receiver, origin);
    WrittenConcat(first, second, Framing.Encode(m));
    Associative(w.wire, Written(first, Framing.Encode(m)), Written(second, Framing.Encode(m)));
  }

  lemma WrittenNone<I>(wire: seq<(I, seq<byte>)>, frame: seq<byte>)
    ensures wire + Written([], frame) == wire
  {
    Empty(wire);
  }

  lemma WrittenFew<I>(wire: seq<(I, seq<byte>)>, port: I, frame: seq<byte>)
    ensures wire + Written([port], frame) == wire + [(port, frame)]
  {
    assert [port][..0] == [];
    Empty([(port, frame)]);
  }

  function DeregisterAll<I(==)>(b: BridgeModel.State<I>, victims: seq<I>): BridgeModel.State<I> {
    if victims == [] then b else Deregistered(DeregisterAll(b, victims[..|victims| - 1]), victims[|victims| - 1])
  }

  /** The handlers see the message, and may deregister interfaces. */
  function Handle<I(==)>(w: World<I>, setup: Setup<I>, m: Message, origin: Origin<I>): World<I> {
    var handled := w.handled + [(origin, m)];
    w.(handled := handled, bridge := DeregisterAll(w.bridge, setup.react(handled)))
  }

  /** A decoded message: outgoing side first, then the handlers. */
  function Dispatch<I(==)>(w: World<I>, setup: Setup<I>, m: Message, origin: Origin<I>): World<I> {
    Handle(Forward(w, setup, m, origin), setup, m, origin)
  }

  /** A route after some deregistrations: forgotten if it led to one of the registered victims, else as it was. */
  function Forgotten<I(==)>(dest: Dest<I>, ports: seq<I>, victims: seq<I>): Dest<I> {
    if dest.Via? && dest.port in ports && dest.port in victims then All else dest
  }

  lemma {:induction false} DeregisterAllExactly<I>(b: BridgeModel.State<I>, victims: seq<I>, x: byte)
    ensures var after := DeregisterAll(b, victims);
            && after.ports == Without(b.ports, victims) && after.forwarding == b.forwarding
            && Lookup(after.table, x) == Forgotten(Lookup(b.table, x), b.ports, victims)
  {
    if victims == [] {
      WithoutNothing(b.ports, []);
    } else {
      var n := |victims| - 1;
      var before := DeregisterAll(b, victims[..n]);
      DeregisterAllExactly(b, victims[..n], x);
      assert victims == victims[..n] + [victims[n]];
      WithoutMore(b.ports, victims[..n], victims[n]);
      if victims[n] in before.ports {
        LookupInvalidated(before.table, victims[n], x);
      } else {
        WithoutNothing(before.ports, [victims[n]]);
      }
    }
  }

  /**
   Every message is shown to the handlers, also one from inside; what they deregister is gone
   afterwards, with the routes to it, and nothing else is.
   */
  lemma HandlersExactly<I>(w: World<I>, setup: Setup<I>, m: Message, origin: Origin<I>, x: byte)
    ensures var after, victims := Dispatch(w, setup, m, origin), setup.react(w.handled + [(origin, m)]);
            && after.handled == w.handled + [(origin, m)]
            && after.bridge.ports == Without(w.bridge.ports, victims)
            && Lookup(after.bridge.table, x) == Forgotten(Lookup(w.bridge.table, x), w.bridge.ports, victims)
  {
    DeregisterAllExactly(w.bridge, setup.react(w.handled + [(origin, m)]), x);
  }

  /** A message decoded on an interface: the sender is learned before anything else. */
  function Arrive<I(==)>(w: World<I>, setup: Setup<I>, m: Message, port: I): World<I> {
    Dispatch(w.(bridge := Learn(w.bridge, setup.mirror, port, m.header.sender)), setup, m, From(port))
  }

  /** An arrival on a mirror teaches nothing: all routes stay, apart from those to what the handlers deregister. */
  lemma MirrorTeachesNothing<I>(w: World<I>, setup: Setup<I>, m: Message, port: I, x: byte)
    requires setup.mirror(port)
    ensures Lookup(Arrive(w, setup, m, port).bridge.table, x) ==
            Forgotten(Lookup(w.bridge.table, x), w.bridge.ports, setup.react(w.handled + [(From(port), m)]))
  {
    hide Dispatch;
    HandlersExactly(w, setup, m, From(port), x);
  }

  /** The world, the receiver of the interface, and the number of bytes dealt with. */
  datatype Progress<I> = Progress(world: World<I>, receiver: Receiver.State, count: nat)

  /** Bytes read from an interface: each message is dispatched at once; no byte is taken from a deregistered interface. */
  function Pump<I(==)>(w: World<I>, setup: Setup<I>, max: nat, port: I, s: Receiver.State, input: seq<byte>): Progress<I>
    decreases |input|
  {
    if input == [] then Progress(w, s, 0)
    else
      var t := Receiver.Collect(max, s, input[0]);
      if t.messages == [] then
        OneMore(Pump(w, setup, max, port, t.state, input[1..]))
      else
        var after := Arrive(w, setup, t.messages[0], port);
        if port !in after.bridge.ports then Progress(after, t.state, 1)
        else OneMore(Pump(after, setup, max, port, t.state, input[1..]))
  }

  function OneMore<I>(p: Progress<I>): Progress<I> {
    p.(count := p.count + 1)
  }

  function More<I>(p: Progress<I>, n: nat): Progress<I> {
    p.(count := p.count + n)
  }

  // ---------------------------------------------------------------- calls of the parser

  /** A call of the parser that finished no message only moved the receiver. */
  lemma {:induction false} PumpReceive<I>(w: World<I>, setup: Setup<I>, max: nat, port: I, s: Receiver.State,
                                          input: seq<byte>, read: nat)
    requires Receiver.Ready(max, s)
    ensures var (after, count) := Receiver.Receive(max, s, input, read);
            && read <= count <= read + |input|
            && Pump(w, setup, max, port, s, input) ==
               if Receiver.ModeOf(max, after.acc) != Receiver.Complete || |after.acc| < 6 then Progress(w, after, count - read)
               else
                 var next := Arrive(w, setup, Receiver.Finished(after), port);
                 if port !in next.bridge.ports then Progress(next, Receiver.Reset(after), count - read)
                 else More(Pump(next, setup, max, port, Receiver.Reset(after), input[count - read..]), count - read)
    decreases |input|
  {
    hide Receiver.Step, Receiver.Finished, Receiver.Reset, Receiver.Valid, Receiver.ModeOf, Arrive;
    Receiver.ReceiveProgress(max, s, input, read);
    if input != [] {
      Receiver.StepValid(max, s, input[0]);
      var next := Receiver.Step(max, s, input[0]);
      if Receiver.ModeOf(max, next.acc) == Receiver.Complete {
        Receiver.CompleteLength(max, next);
      } else {
        PumpReceive(w, setup, max, port, next, input[1..], read + 1);
        var count := Receiver.Receive(max, s, input, read).1;
        assert input[1..][count - read - 1..] == input[count - read..];
      }
    }
  }

  // ---------------------------------------------------------------- the bytes of one interface

  function ArriveAll<I(==)>(w: World<I>, setup: Setup<I>, ms: seq<Message>, port: I): World<I>
    decreases |ms|
  {
    if ms == [] then w else ArriveAll(Arrive(w, setup, ms[0], port), setup, ms[1..], port)
  }

  /**
   Whatever the handlers do: as long as they leave this interface alone, its bytes are its receiver's
   stream, none is skipped, and each message of the stream arrives.
   */
  lemma {:induction false} PumpIsDrive<I>(w: World<I>, setup: Setup<I>, max: nat, port: I, s: Receiver.State, input: seq<byte>)
    requires port in Pump(w, setup, max, port, s, input).world.bridge.ports
    ensures var t := Receiver.Drive(max, s, input);
            Pump(w, setup, max, port, s, input) == Progress(ArriveAll(w, setup, t.messages, port), t.state, |input|)
    decreases |input|
  {
    hide Receiver.Collect, Arrive;
    if input != [] {
      CollectAtMostOne(max, s, input[0]);
      var t := Receiver.Collect(max, s, input[0]);
      var rest := Receiver.Drive(max, t.state, input[1..]);
      if t.messages == [] {
        PumpIsDrive(w, setup, max, port, t.state, input[1..]);
        Empty(rest.messages);
      } else {
        PumpIsDrive(Arrive(w, setup, t.messages[0], port), setup, max, port, t.state, input[1..]);
        assert ([t.messages[0]] + rest.messages)[1..] == rest.messages;
      }
    }
  }

  lemma CollectAtMostOne(max: nat, s: Receiver.State, c: byte)
    ensures var ms := Receiver.Collect(max, s, c).messages; ms == [] || ms == [ms[0]]
  {}

  /** The messages some interface contributed to a log. */
  function FromPort<I(==)>(log: seq<(Origin<I>, Message)>, port: I): seq<Message> {
    if log == [] then []
    else
      var n := |log| - 1;
      FromPort(log[..n], port) + if log[n].0 == From(port) then [log[n].1] else []
  }

  lemma {:induction false} FromPortConcat<I>(a: seq<(Origin<I>, Message)>, b: seq<(Origin<I>, Message)>, port: I)
    ensures FromPort(a + b, port) == FromPort(a, port) + FromPort(b, port)
  {
    if b == [] {
      Empty(a);
      Empty(FromPort(a, port));
    } else {
      PeelLast(a, b);
      FromPortConcat(a, b[..|b| - 1], port);
    }
  }

  lemma ArriveLogs<I>(w: World<I>, setup: Setup<I>, m: Message, port: I, other: I)
    ensures FromPort(Arrive(w, setup, m, port).handled, other) ==
            FromPort(w.handled, other) + if other == port then [m] else []
  {
    OneFromPort(w.handled, port, m, other);
  }

  /** The handlers see all the messages its stream still holds, unless the interface has to leave before. */
  lemma {:induction false} PumpLogs<I>(w: World<I>, setup: Setup<I>, max: nat, port: I, s: Receiver.State, input: seq<byte>)
    ensures var t, r := Receiver.Drive(max, s, input), Pump(w, setup, max, port, s, input);
            && r.count <= |input| && (input != [] ==> r.count > 0)
            && FromPort(r.world.handled, port) <= FromPort(w.handled, port) + t.messages
            && (port in r.world.bridge.ports ==>
                  FromPort(r.world.handled, port) == FromPort(w.handled, port) + t.messages)
    decreases |input|
  {
    hide Receiver.Collect, Arrive, FromPort;
    Empty(FromPort(w.handled, port));
    if input != [] {
      CollectAtMostOne(max, s, input[0]);
      var t := Receiver.Collect(max, s, input[0]);
      var rest := Receiver.Drive(max, t.state, input[1..]);
      if t.messages == [] {
        PumpLogs(w, setup, max, port, t.state, input[1..]);
        Empty(rest.messages);
      } else {
        ArriveLogs(w, setup, t.messages[0], port, port);
        PumpLogs(Arrive(w, setup, t.messages[0], port), setup, max, port, t.state, input[1..]);
        Associative(FromPort(w.handled, port), t.messages, rest.messages);
      }
    }
  }

  /** And nothing that came from elsewhere. */
  lemma {:induction false} PumpLogsOthers<I>(w: World<I>, setup: Setup<I>, max: nat, port: I, s: Receiver.State,
                                             input: seq<byte>, other: I)
    requires other != port
    ensures FromPort(Pump(w, setup, max, port, s, input).world.handled, other) == FromPort(w.handled, other)
    decreases |input|
  {
    hide Receiver.Collect, Arrive, FromPort;
    if input != [] {
      var t := Receiver.Collect(max, s, input[0]);
      if t.messages == [] {
        PumpLogsOthers(w, setup, max, port, t.state, input[1..], other);
      } else {
        ArriveLogs(w, setup, t.messages[0], port, other);
        Empty(FromPort(w.handled, other));
        PumpLogsOthers(Arrive(w, setup, t.messages[0], port), setup, max, port, t.state, input[1..], other);
      }
    }
  }

  /** Which messages make the handlers deregister the interface they came from. */
  type Verdict<!I> = seq<(Origin<I>, Message)> -> bool

  /** Handlers that deregister nothing but the interface the last message came from. */
  function Expelling<I>(expel: Verdict<I>): Reaction<I> {
    (log: seq<(Origin<I>, Message)>) =>
      if log != [] && log[|log| - 1].0.From? && expel(log) then [log[|log| - 1].0.port] else []
  }

  /** For each such message they may decide as they like. */
  lemma ExpellingExactly<I>(expel: Verdict<I>, log: seq<(Origin<I>, Message)>, origin: Origin<I>, m: Message)
    ensures Expelling(expel)(log + [(origin, m)]) ==
            match origin
            case Internal => []
            case From(port) => if expel(log + [(origin, m)]) then [port] else []
  {
    Append(log, (origin, m));
  }

  function Never<I>(log: seq<(Origin<I>, Message)>): bool {
    false
  }

  /** Then it is all that can leave while its bytes are being read. */
  lemma {:induction false} PumpLeaves<I>(w: World<I>, setup: Setup<I>, max: nat, port: I, s: Receiver.State, input: seq<byte>,
                                         expel: Verdict<I>)
    requires setup.react == Expelling(expel)
    ensures var ports := Pump(w, setup, max, port, s, input).world.bridge.ports;
            && (ports == w.bridge.ports || ports == Without(w.bridge.ports, [port]))
            && (expel == Never ==> ports == w.bridge.ports)
    decreases |input|
  {
    hide Receiver.Collect;
    if input != [] {
      var t := Receiver.Collect(max, s, input[0]);
      if t.messages == [] {
        PumpLeaves(w, setup, max, port, t.state, input[1..], expel);
      } else {
        var after := Arrive(w, setup, t.messages[0], port);
        var log := w.handled + [(From(port), t.messages[0])];
        Append(w.handled, (From(port), t.messages[0]));
        assert setup.react(log) == Expelling(expel)(log);
        assert expel == Never ==> expel(log) == Never(log);
        OneLeaves(Learn(w.bridge, setup.mirror, port, t.messages[0].header.sender), setup.react(log), port);
        if port in after.bridge.ports {
          PumpLeaves(after, setup, max, port, t.state, input[1..], expel);
        }
      }
    }
  }

  lemma {:induction false} OneLeaves<I>(b: BridgeModel.State<I>, victims: seq<I>, port: I)
    requires forall i | 0 <= i < |victims| :: victims[i] == port
    ensures DeregisterAll(b, victims).ports == if victims == [] || port !in b.ports then b.ports else Without(b.ports, [port])
  {
    if victims != [] {
      OneLeaves(b, victims[..|victims| - 1], port);
    }
  }

  lemma OneFromPort<I>(log: seq<(Origin<I>, Message)>, port: I, m: Message, other: I)
    ensures FromPort(log + [(From(port), m)], other) == FromPort(log, other) + if other == port then [m] else []
  {
    Append(log, (From(port), m));
  }

  /** What an interface is due: the messages seen from it already, then those in the bytes to come. */
  function DueOf<I(==)>(log: seq<(Origin<I>, Message)>, max: nat, port: I, s: Receiver.State, input: seq<byte>): Receiver.Trace {
    var t := Receiver.Drive(max, s, input);
    Receiver.Trace(t.state, FromPort(log, port) + t.messages)
  }

  /** Working through some of the bytes does not change what is due, unless the interface has to leave. */
  lemma DueKept<I>(w: World<I>, setup: Setup<I>, max: nat, port: I, s: Receiver.State, chunk: seq<byte>, rest: seq<byte>)
    ensures var r, due := Pump(w, setup, max, port, s, chunk), DueOf(w.handled, max, port, s, chunk + rest);
            && r.count <= |chunk| && (chunk != [] ==> r.count > 0)
            && if port in r.world.bridge.ports
               then r.count == |chunk| && DueOf(r.world.handled, max, port, r.receiver, rest) == due
               else FromPort(r.world.handled, port) <= due.messages
  {
    hide Pump, Receiver.Drive, FromPort, ArriveAll;
    var r, t := Pump(w, setup, max, port, s, chunk), Receiver.Drive(max, s, chunk);
    PumpLogs(w, setup, max, port, s, chunk);
    if port in r.world.bridge.ports {
      PumpIsDrive(w, setup, max, port, s, chunk);
    }
    Receiver.DriveConcat(max, s, chunk, rest);
    Associative(FromPort(w.handled, port), t.messages, Receiver.Drive(max, t.state, rest).messages);
  }

  /** The interface still gets what it is due; or it had to leave, and got the beginning of that. */
  predicate Serves<I(==)>(ports: seq<I>, log: seq<(Origin<I>, Message)>, max: nat, port: I, s: Receiver.State,
                          input: seq<byte>, due: Receiver.Trace) {
    if port in ports then DueOf(log, max, port, s, input) == due else FromPort(log, port) <= due.messages
  }

  lemma ServesOn<I>(w: World<I>, setup: Setup<I>, max: nat, port: I, s: Receiver.State, chunk: seq<byte>, rest: seq<byte>,
                    due: Receiver.Trace)
    requires port in w.bridge.ports
    requires Serves(w.bridge.ports, w.handled, max, port, s, chunk + rest, due)
    ensures var r := Pump(w, setup, max, port, s, chunk);
            Serves(r.world.bridge.ports, r.world.handled, max, port, r.receiver, rest, due)
  {
    hide Pump, DueOf, FromPort;
    DueKept(w, setup, max, port, s, chunk, rest);
  }

  lemma ServesOthers<I>(w: World<I>, setup: Setup<I>, max: nat, port: I, s: Receiver.State, chunk: seq<byte>,
                        expel: Verdict<I>, most: nat, other: I, t: Receiver.State, input: seq<byte>, due: Receiver.Trace)
    requires other != port && setup.react == Expelling(expel)
    requires Serves(w.bridge.ports, w.handled, most, other, t, input, due)
    ensures var r := Pump(w, setup, max, port, s, chunk);
            Serves(r.world.bridge.ports, r.world.handled, most, other, t, input, due)
  {
    hide Pump, FromPort, Receiver.Drive;
    PumpLeaves(w, setup, max, port, s, chunk, expel);
    PumpLogsOthers(w, setup, max, port, s, chunk, other);
  }

  // ---------------------------------------------------------------- what never dangles

  lemma {:induction false} DeregisterAllKeeps<I>(b: BridgeModel.State<I>, victims: seq<I>)
    requires Integrity(b)
    ensures Integrity(DeregisterAll(b, victims))
  {
    if victims != [] {
      DeregisterAllKeeps(b, victims[..|victims| - 1]);
      WithoutDistinct(DeregisterAll(b, victims[..|victims| - 1]).ports, [victims[|victims| - 1]]);
    }
  }

  /**
   Whatever the handlers deregister while the bytes of an interface are being read, the interface
   itself included, no route is left that leads to an interface no longer registered.
   */
  lemma {:induction false} PumpKeepsIntegrity<I>(w: World<I>, setup: Setup<I>, max: nat, port: I, s: Receiver.State, input: seq<byte>)
    requires Integrity(w.bridge) && port in w.bridge.ports
    ensures Integrity(Pump(w, setup, max, port, s, input).world.bridge)
    decreases |input|
  {
    hide Receiver.Collect, DeregisterAll, Integrity, Outgoing;
    if input != [] {
      var t := Receiver.Collect(max, s, input[0]);
      if t.messages == [] {
        PumpKeepsIntegrity(w, setup, max, port, t.state, input[1..]);
      } else {
        var m := t.messages[0];
        var taught := Learn(w.bridge, setup.mirror, port, m.header.sender);
        LearnKeeps(w.bridge, setup.mirror, port, m.header.sender);
        DeregisterAllKeeps(taught, setup.react(w.handled + [(From(port), m)]));
        var after := Arrive(w, setup, m, port);
        if port in after.bridge.ports {
          PumpKeepsIntegrity(after, setup, max, port, t.state, input[1..]);
        }
      }
    }
  }

  lemma LearnKeeps<I>(b: BridgeModel.State<I>, mirror: I -> bool, port: I, sender: byte)
    requires Integrity(b) && port in b.ports
    ensures Integrity(Learn(b, mirror, port, sender))
  {}
}
