/** The bridge itself: it reads interfaces, learns, writes and shows messages to its handlers. */
module Bridge {
  import opened Sequences
  import opened Types
  import opened Routing
  import opened Iteration
  import opened BridgeModel
  import BridgeRuns
  import opened Traffic
  import Crc
  import CrcDetection
  import Framing
  import Encoder
  import Receiver
  import Parser

  /** A link to the outside. Reading takes bytes from a queue; what is written goes to the bridge's log. */
  class ExternalInterface {
    const mirror: bool
    const parser: Parser.Parser
    var input: seq<byte>

    constructor (mirror: bool, max: nat)
      requires max <= 255
      ensures this.mirror == mirror && input == []
      ensures fresh(parser) && fresh(parser.raw) && fresh(parser.data)
      ensures parser.Valid() && !parser.HasPacket() && parser.data.Length == max
    {
      this.mirror := mirror;
      parser := new Parser.Parser(max);
      input := [];
    }

    /** Non-blocking: some of the waiting bytes, at most as many as fit, and none only if none wait. */
    method Read(size: nat) returns (chunk: seq<byte>)
      modifies this`input
      ensures old(input) == chunk + input
      ensures |chunk| <= size && (chunk == [] ==> size == 0 || old(input) == [])
    {
      if size == 0 || input == [] {
        return [];
      }
      var n: nat :| 1 <= n <= size && n <= |input|;
      chunk := input[..n];
      input := input[n..];
    }
  }

  type Port = ExternalInterface

  /** The memory an interface owns. */
  function Owned(p: Port): set<object> {
    {p, p.parser, p.parser.raw, p.parser.data}
  }

  /** This id goes there now, unless it has no row; every other id goes where it went. */
  lemma UpdatedEverywhere(table: seq<Dest<Port>>, id: byte, dest: Dest<Port>)
    ensures forall x: byte ::
              Lookup(Updated(table, id, dest), x) == if x == id && id as nat < |table| then dest else Lookup(table, x)
  {
    forall x: byte ensures Lookup(Updated(table, id, dest), x) == if x == id && id as nat < |table| then dest else Lookup(table, x) {
      LookupUpdated(table, id, dest, x);
    }
  }

  function IsMirror(p: Port): (yes: bool)
    ensures yes <==> p.mirror
  {
    p.mirror
  }

  ghost predicate Ready(p: Port)
    reads p.parser, p.parser.raw, p.parser.data
  {
    p.parser.Valid() && !p.parser.HasPacket()
  }

  class NDLComBridge {
    const routing: RoutingTable<Port>
    var ports: seq<Port>
    var forwarding: bool
    /** Every write so far: to which interface, which bytes. */
    var wire: seq<(Port, seq<byte>)>
    /** Every message the handlers were shown so far. */
    var handled: seq<(Origin<Port>, Message)>
    /** Which interfaces the handlers deregister on what they were shown. */
    const react: Reaction<Port>
    /** The size of the read buffer. */
    const rxBufferSize: nat

    constructor (devices: nat, rxBufferSize: nat, react: Reaction<Port>)
      requires devices <= 256 && rxBufferSize > 0
      ensures Snapshot() == World(BridgeModel.State(seq(devices, i => All), [], true), [], [])
      ensures this.react == react && this.rxBufferSize == rxBufferSize
      ensures fresh(routing) && fresh(routing.table)
    {
      routing := new RoutingTable<Port>(devices);
      ports, forwarding, wire, handled := [], true, [], [];
      this.react := react;
      this.rxBufferSize := rxBufferSize;
    }

    ghost function State(): BridgeModel.State<Port>
      reads this, routing.table
    {
      BridgeModel.State(routing.table[..], ports, forwarding)
    }

    ghost function Snapshot(): World<Port>
      reads this, routing.table
    {
      World(State(), wire, handled)
    }

    ghost function Rules(): Setup<Port> {
      Setup(IsMirror, react)
    }

    /** The table shares no memory with this interface. */
    ghost predicate Apart(p: Port) {
      routing.table as object !in Owned(p)
    }

    // -------------------------------------------------------------- registration

    method RegisterExternalInterface(port: Port)
      modifies this`ports
      ensures State() == BridgeRuns.Apply(old(State()), IsMirror, BridgeRuns.Register(port))
      ensures port in ports && ports == if port in old(ports) then old(ports) else [port] + old(ports)
      ensures routing.table[..] == old(routing.table[..]) && forwarding == old(forwarding)
    {
      if port in ports {
        return;
      }
      ports := [port] + ports;
    }

    /** The routes are forgotten before the interface leaves the list. */
    method DeregisterExternalInterface(port: Port)
      modifies this`ports, routing.table
      ensures State() == BridgeRuns.Apply(old(State()), IsMirror, BridgeRuns.Deregister(port))
      ensures port !in ports && forwarding == old(forwarding)
      ensures Distinct(old(ports)) ==>
                if port !in old(ports) then ports == old(ports)
                else ports == old(ports)[..IndexOf(old(ports), port)] + old(ports)[IndexOf(old(ports), port) + 1..]
      ensures forall id: byte ::
                Lookup(routing.table[..], id) ==
                if port in old(ports) && old(Lookup(routing.table[..], id)) == Via(port) then All
                else old(Lookup(routing.table[..], id))
    {
      if port !in ports {
        return;
      }
      ghost var was := routing.table[..];
      routing.InvalidateInterface(port);
      forall id: byte
        ensures Lookup(routing.table[..], id) == if Lookup(was, id) == Via(port) then All else Lookup(was, id)
      {
        LookupInvalidated(was, port, id);
      }
      if Distinct(ports) { WithoutOne(ports, port); }
      ports := Without(ports, [port]);
    }

    method MarkDeviceIdAsInternal(id: byte)
      modifies routing.table
      ensures State() == BridgeRuns.Apply(old(State()), IsMirror, BridgeRuns.Mark(id))
      ensures forall x: byte ::
                Lookup(routing.table[..], x) ==
                if x == id && id as nat < routing.table.Length then Self else old(Lookup(routing.table[..], x))
    {
      UpdatedEverywhere(routing.table[..], id, Self);
      routing.Update(id, Self);
    }

    method ClearInternalDeviceId(id: byte)
      modifies routing.table
      ensures State() == BridgeRuns.Apply(old(State()), IsMirror, BridgeRuns.Clear(id))
      ensures forall x: byte ::
                Lookup(routing.table[..], x) ==
                if x == id && id as nat < routing.table.Length then All else old(Lookup(routing.table[..], x))
    {
      UpdatedEverywhere(routing.table[..], id, All);
      routing.Update(id, All);
    }

    method AddRoutingInformationForDeviceId(id: byte, port: Port)
      modifies routing.table
      ensures State() == BridgeRuns.Apply(old(State()), IsMirror, BridgeRuns.Route(id, port))
      ensures forall x: byte ::
                Lookup(routing.table[..], x) ==
                if x == id && id as nat < routing.table.Length then Via(port) else old(Lookup(routing.table[..], x))
    {
      UpdatedEverywhere(routing.table[..], id, Via(port));
      routing.Update(id, Via(port));
    }

    /** The interface's own way to set a route: it does nothing unless the interface is registered. */
    method SetRoutingForDeviceId(port: Port, id: byte)
      modifies routing.table
      ensures State() == if port in ports then BridgeRuns.Apply(old(State()), IsMirror, BridgeRuns.Route(id, port))
                         else old(State())
      ensures forall x: byte ::
                Lookup(routing.table[..], x) ==
                if port in ports && x == id && id as nat < routing.table.Length then Via(port)
                else old(Lookup(routing.table[..], x))
    {
      if port !in ports {
        return;
      }
      AddRoutingInformationForDeviceId(id, port);
    }

    method SetForwarding(on: bool)
      modifies this`forwarding
      ensures State() == old(State()).(forwarding := on)
    {
      forwarding := on;
    }

    // -------------------------------------------------------------- sending

    /** The encoded message, in a buffer sized from its header. */
    method EncodeFor(m: Message) returns (frame: seq<byte>)
      requires m.Valid()
      ensures frame == Framing.Encode(m)
    {
      hide Encoder.Output, Framing.Encode;
      var size := 2 + 2 * (4 + m.header.len as nat + 2);
      var txBuffer := new byte[size];
      Encoder.BridgeBufferSuffices(m);
      assert m.payload[..m.header.len as nat] == m.payload;
      var len := Encoder.EncodeMessage(txBuffer, m.header, m.payload);
      frame := txBuffer[..len];
    }

    method WriteToMirrors(frame: seq<byte>, origin: Origin<Port>)
      modifies this`wire
      ensures wire == old(wire) + Written(MirrorCopies(ports, IsMirror, origin), frame)
    {
      hide MirrorCopies;
      NobodyYet(frame, origin, wire);
      for i := 0 to |ports|
        invariant wire == old(wire) + Written(MirrorCopies(ports[..i], IsMirror, origin), frame)
      {
        var p := ports[i];
        OneMorePort(ports, i, frame, origin, old(wire));
        if origin != From(p) && p.mirror {
          wire := wire + [(p, frame)];
        }
      }
      assert ports[..|ports|] == ports;
    }

    method WriteToOrdinary(frame: seq<byte>, origin: Origin<Port>)
      modifies this`wire
      ensures wire == old(wire) + Written(Flood(ports, IsMirror, origin), frame)
    {
      hide Flood;
      NobodyYet(frame, origin, wire);
      for i := 0 to |ports|
        invariant wire == old(wire) + Written(Flood(ports[..i], IsMirror, origin), frame)
      {
        var p := ports[i];
        OneMorePort(ports, i, frame, origin, old(wire));
        if origin != From(p) && !p.mirror {
          wire := wire + [(p, frame)];
        }
      }
      assert ports[..|ports|] == ports;
    }

    method FollowRoute(frame: seq<byte>, receiver: byte, origin: Origin<Port>)
      modifies this`wire
      ensures wire == old(wire) + Written(Routed(State(), IsMirror, receiver, origin), frame)
    {
      hide MirrorCopies, Flood, Written;
      var destination := routing.GetDestination(receiver);
      if destination.Via? {
        WrittenFew(wire, destination.port, frame);
      }
      WrittenNone(wire, frame);
      if !forwarding && origin != Internal && destination != Self {
        return;
      }
      match destination
      case All => WriteToOrdinary(frame, origin);
      case Self =>
      case Via(port) =>
        if origin != From(port) {
          wire := wire + [(port, frame)];
        }
    }

    method ProcessOutgoingMessage(m: Message, origin: Origin<Port>)
      requires m.Valid()
      modifies this`wire
      ensures Snapshot() == Forward(old(Snapshot()), Rules(), m, origin)
      ensures wire == old(wire) + Written(Outgoing(State(), IsMirror, m.header.receiver, origin), Framing.Encode(m))
    {
      hide Framing.Encode, MirrorCopies, Flood, Routed, Outgoing, Written;
      ForwardInTwo(Snapshot(), Rules(), m, origin);
      var frame := EncodeFor(m);
      WriteToMirrors(frame, origin);
      FollowRoute(frame, m.header.receiver, origin);
    }

    method DeregisterAll(victims: seq<Port>)
      modifies this`ports, routing.table
      ensures State() == Traffic.DeregisterAll(old(State()), victims)
    {
      hide BridgeModel.Deregistered;
      for i := 0 to |victims|
        invariant State() == Traffic.DeregisterAll(old(State()), victims[..i])
      {
        DeregisterExternalInterface(victims[i]);
        assert victims[..i + 1][..i] == victims[..i];
      }
      assert victims[..|victims|] == victims;
    }

    /** The outgoing side first, then the handlers; these may deregister interfaces. */
    method ProcessDecodedMessage(m: Message, origin: Origin<Port>)
      requires m.Valid()
      modifies this`wire, this`handled, this`ports, routing.table
      ensures Snapshot() == Dispatch(old(Snapshot()), Rules(), m, origin)
      ensures handled == old(handled) + [(origin, m)]
    {
      hide Forward, Traffic.DeregisterAll;
      ProcessOutgoingMessage(m, origin);
      handled := handled + [(origin, m)];
      DeregisterAll(react(handled));
    }

    /** A message from the internal side. */
    method SendRaw(m: Message)
      requires m.Valid()
      modifies this`wire, this`handled, this`ports, routing.table
      ensures Snapshot() == Dispatch(old(Snapshot()), Rules(), m, Internal)
      ensures handled == old(handled) + [(Internal, m)]
    {
      ProcessDecodedMessage(m, Internal);
    }

    // -------------------------------------------------------------- receiving

    /** A message decoded on an interface. */
    method ProcessArrival(m: Message, port: Port)
      requires m.Valid()
      modifies this`wire, this`handled, this`ports, routing.table
      ensures Snapshot() == Arrive(old(Snapshot()), Rules(), m, port)
    {
      hide Dispatch;
      if !port.mirror {
        if routing.GetDestination(m.header.sender) != Self {
          routing.Update(m.header.sender, Via(port));
        }
      }
      ProcessDecodedMessage(m, From(port));
    }

    /** One call of the interface's parser, and what becomes of the message it may have finished. */
    method ProcessSome(port: Port, bytes: seq<byte>) returns (n: nat)
      requires port in ports && Ready(port) && Apart(port) && bytes != []
      modifies this`wire, this`handled, this`ports, routing.table, port.parser, port.parser.raw, port.parser.data
      ensures 1 <= n <= |bytes| && Ready(port)
      ensures Pump(old(Snapshot()), Rules(), port.parser.data.Length, port, old(port.parser.Abstract()), bytes) ==
              if port in ports
              then More(Pump(Snapshot(), Rules(), port.parser.data.Length, port, port.parser.Abstract(), bytes[n..]), n)
              else Progress(Snapshot(), port.parser.Abstract(), n)
    {
      hide Receiver.Receive, Receiver.Finished, Receiver.Reset, Arrive, Pump, Receiver.ModeOf, Receiver.Valid, Parser.Holds;
      ReadyReceiver(port);
      ghost var max, w, s := port.parser.data.Length, Snapshot(), port.parser.Abstract();
      PumpReceive(w, Rules(), max, port, s, bytes, 0);
      Receiver.ReceiveProgress(max, s, bytes, 0);
      n := port.parser.Receive(bytes);
      port.parser.ModeIsAbstract();
      if port.parser.HasPacket() {
        var m := port.parser.GetPacket();
        FinishedParser(port.parser);
        ProcessArrival(m, port);
        port.parser.DestroyPacket();
      } else {
        PumpNothing(w, Rules(), max, port, port.parser.Abstract());
        assert bytes[n..] == [];
      }
    }

    /** Reads one buffer from an interface and works through it, as long as the interface is registered. */
    method ProcessExternalInterface(port: Port) returns (processed: nat, ghost chunk: seq<byte>)
      requires port in ports && Ready(port) && Apart(port)
      modifies this`wire, this`handled, this`ports, routing.table, Owned(port)
      ensures Ready(port)
      ensures old(port.input) == chunk + port.input && |chunk| <= rxBufferSize
      ensures chunk == [] ==> rxBufferSize == 0 || old(port.input) == []
      ensures Progress(Snapshot(), port.parser.Abstract(), processed) ==
              Pump(old(Snapshot()), Rules(), port.parser.data.Length, port, old(port.parser.Abstract()), chunk)
    {
      hide Pump, More, Ready;
      var buffer := port.Read(rxBufferSize);
      chunk := buffer;
      processed := 0;
      ghost var max := port.parser.data.Length;
      ghost var whole := Pump(Snapshot(), Rules(), max, port, port.parser.Abstract(), chunk);
      assert chunk[0..] == chunk;
      MoreNothing(whole);
      while processed < |buffer|
        invariant processed <= |buffer| && Ready(port) && port in ports
        invariant old(port.input) == chunk + port.input
        invariant whole == More(Pump(Snapshot(), Rules(), max, port, port.parser.Abstract(), chunk[processed..]), processed)
        decreases |buffer| - processed
      {
        var n := ProcessSome(port, buffer[processed..]);
        MoreMore(Pump(Snapshot(), Rules(), max, port, port.parser.Abstract(), chunk[processed..][n..]), n, processed);
        Suffix(chunk, processed, n);
        processed := processed + n;
        if port !in ports {
          MoreProgress(Snapshot(), port.parser.Abstract(), n, processed - n);
          return;
        }
      }
      assert chunk[processed..] == [];
      PumpNothing(Snapshot(), Rules(), max, port, port.parser.Abstract());
      MoreProgress(Snapshot(), port.parser.Abstract(), 0, processed);
    }

    // -------------------------------------------------------------- serving all interfaces

    /** These interfaces are ready and share no memory. */
    ghost predicate AllReady(all: seq<Port>)
      reads Footprint(all)
    {
      && Distinct(all)
      && (forall i | 0 <= i < |all| :: Ready(all[i]) && Apart(all[i]))
      && forall i, j | 0 <= i < |all| && 0 <= j < |all| && i != j :: Owned(all[i]) !! Owned(all[j])
    }

    /** One more interface that is ready and has memory of its own may always join. */
    lemma ReadyTogether(all: seq<Port>, p: Port)
      requires AllReady(all) && p !in all && p.parser.Valid() && !p.parser.HasPacket() && Apart(p)
      requires forall i | 0 <= i < |all| :: Owned(all[i]) !! Owned(p)
      ensures AllReady([p] + all) && AllReady([])
    {
      var longer := [p] + all;
      forall i | 0 <= i < |longer| ensures Ready(longer[i]) && Apart(longer[i]) {
        assert i > 0 ==> longer[i] == all[i - 1];
      }
      forall i, j | 0 <= i < |longer| && 0 <= j < |longer| && i != j ensures Owned(longer[i]) !! Owned(longer[j]) {
        if i > 0 && j > 0 {
          assert longer[i] == all[i - 1] && longer[j] == all[j - 1];
          assert Owned(all[i - 1]) !! Owned(all[j - 1]);
        } else if i > 0 {
          assert Owned(all[i - 1]) !! Owned(p);
        } else {
          assert Owned(all[j - 1]) !! Owned(p);
        }
      }
    }

    /** The messages the handlers saw from an interface, then those its receiver will find in the waiting bytes. */
    ghost function Due(p: Port): Receiver.Trace
      reads this`handled, p, p.parser
    {
      DueOf(handled, p.parser.data.Length, p, p.parser.Abstract(), p.input)
    }

    ghost predicate Served(p: Port, due: Receiver.Trace)
      reads this`handled, this`ports, p, p.parser
    {
      Serves(ports, handled, p.parser.data.Length, p, p.parser.Abstract(), p.input, due)
    }

    ghost predicate AllServed(all: seq<Port>, dues: seq<Receiver.Trace>)
      requires |all| == |dues|
      reads this`handled, this`ports, Footprint(all)
    {
      forall i | 0 <= i < |all| :: Served(all[i], dues[i])
    }

    /** What may happen to the other interfaces while one of them is served: nothing. */
    twostate predicate OthersUntouched(all: seq<Port>, k: nat)
      reads Footprint(all)
    {
      forall i | 0 <= i < |all| && i != k ::
        unchanged(all[i], all[i].parser, all[i].parser.raw, all[i].parser.data)
    }

    /** Serves one interface. */
    method VisitAlone(p: Port, ghost all: seq<Port>, ghost k: nat) returns (processed: nat, ghost chunk: seq<byte>)
      requires AllReady(all) && p in ports && k < |all| && all[k] == p
      modifies this`wire, this`handled, this`ports, routing.table, Owned(p)
      ensures Ready(p) && OthersUntouched(all, k)
      ensures old(p.input) == chunk + p.input && (chunk == [] ==> rxBufferSize == 0 || p.input == [])
      ensures Progress(Snapshot(), p.parser.Abstract(), processed) ==
              Pump(old(Snapshot()), Rules(), p.parser.data.Length, p, old(p.parser.Abstract()), chunk)
    {
      hide Pump, Ready, Inputs, Footprint;
      processed, chunk := ProcessExternalInterface(p);
      forall i | 0 <= i < |all| && i != k
        ensures unchanged(all[i], all[i].parser, all[i].parser.raw, all[i].parser.data)
      {
        assert Owned(all[i]) !! Owned(p) && Apart(all[i]);
      }
    }

    /** And lets every interface have its due. */
    method Visit(p: Port, ghost all: seq<Port>, ghost k: nat, ghost dues: seq<Receiver.Trace>, ghost expel: Verdict<Port>)
      returns (processed: nat)
      requires |all| == |dues| && AllReady(all) && AllServed(all, dues) && p in ports && k < |all| && all[k] == p
      requires rxBufferSize > 0 && react == Expelling(expel)
      modifies this`wire, this`handled, this`ports, routing.table, Owned(p)
      ensures AllReady(all) && AllServed(all, dues)
      ensures ports == old(ports) || ports == Without(old(ports), [p])
      ensures expel == Never ==> ports == old(ports)
      ensures Inputs(all) == old(Inputs(all))[k := p.input]
      ensures processed + |p.input| <= old(|p.input|)
      ensures p in ports ==> processed + |p.input| == old(|p.input|)
      ensures processed == 0 ==> p.input == []
      ensures old(BridgeRuns.Integrity(State())) ==> BridgeRuns.Integrity(State())
    {
      hide Pump, Serves, Expelling, Receiver.Drive, DueOf, FromPort, Ready, Inputs;
      ghost var max, w, s := p.parser.data.Length, Snapshot(), p.parser.Abstract();
      ghost var chunk;
      OnlyOne(all, k);
      processed, chunk := VisitAlone(p, all, k);
      PumpLeaves(w, Rules(), max, p, s, chunk, expel);
      DueKept(w, Rules(), max, p, s, chunk, p.input);
      ServesOn(w, Rules(), max, p, s, chunk, p.input, dues[k]);
      forall i | 0 <= i < |all| && i != k ensures Served(all[i], dues[i]) {
        var q := all[i];
        ServesOthers(w, Rules(), max, p, s, chunk, expel, q.parser.data.Length, q, q.parser.Abstract(), q.input, dues[i]);
      }
      if BridgeRuns.Integrity(w.bridge) {
        PumpKeepsIntegrity(w, Rules(), max, p, s, chunk);
      }
    }

    /** Serves the interface at the cursor, and moves the cursor on over a list that may have lost it. */
    method VisitEntry(pos: Place<Port>, saved: Place<Port>, ghost w: Walk<Port>, ghost before: seq<Port>, ghost rest: seq<Port>,
                      ghost all: seq<Port>, ghost dues: seq<Receiver.Trace>, ghost expel: Verdict<Port>)
      returns (pos': Place<Port>, saved': Place<Port>, processed: nat, ghost w': Walk<Port>, ghost before': seq<Port>, ghost rest': seq<Port>)
      requires w.pos == pos && w.saved == saved && w.list == ports && At(w, before, rest) && pos.Entry?
      requires |all| == |dues| && AllReady(all) && AllServed(all, dues) && Among(ports, all)
      requires rxBufferSize > 0 && react == Expelling(expel)
      modifies this`wire, this`handled, this`ports, routing.table, Footprint(all)
      ensures w'.pos == pos' && w'.saved == saved' && w'.list == ports && At(w', before', rest') && |rest'| < |rest|
      ensures AllReady(all) && AllServed(all, dues) && Among(ports, all)
      ensures |ports| <= |old(ports)| && (expel == Never ==> ports == old(ports))
      ensures processed + TotalLength(Inputs(all)) <= old(TotalLength(Inputs(all)))
      ensures |ports| == |old(ports)| ==> processed + TotalLength(Inputs(all)) == old(TotalLength(Inputs(all)))
      ensures old(Drained(all, before)) && processed == 0 ==> Drained(all, before')
      ensures old(BridgeRuns.Integrity(State())) ==> BridgeRuns.Integrity(State())
    {
      hide AllServed, AllReady, Without, Ready, Turn, At, BridgeRuns.Integrity, TotalLength, Expelling, Inputs, Next, Served;
      CursorStands(w, before, rest);
      var p := pos.e;
      assert p in all;
      ghost var k :| 0 <= k < |all| && all[k] == p;
      ghost var inputs := Inputs(all);
      processed := Visit(p, all, k, dues, expel);
      WithoutShorter(w.list, p);
      TotalMoves(inputs, k, p.input);
      w', before', rest' := CursorMoves(w, ports, before, rest);
      pos', saved' := pos, saved;
      if p !in ports {
        pos' := saved';
      } else if saved'.Entry? && saved'.e !in ports {
        saved' := pos';
      }
      pos' := saved';
      saved' := Next(ports, saved');
    }

    /** The interfaces of a list have nothing left to read. */
    ghost predicate Drained(all: seq<Port>, some: seq<Port>)
      reads set i | 0 <= i < |all| :: all[i]
    {
      forall i | 0 <= i < |all| :: all[i] in some ==> all[i].input == []
    }

    /**
     One round over the interfaces, with the cursor that survives deregistrations. Every interface
     registered afterwards was served, and all the bytes are accounted for.
     */
    method ProcessOnce(ghost all: seq<Port>, ghost dues: seq<Receiver.Trace>, ghost expel: Verdict<Port>)
      returns (total: nat)
      requires |all| == |dues| && AllReady(all) && AllServed(all, dues) && Distinct(ports) && Among(ports, all)
      requires rxBufferSize > 0 && react == Expelling(expel)
      modifies this`wire, this`handled, this`ports, routing.table, Footprint(all)
      ensures AllReady(all) && AllServed(all, dues) && Distinct(ports) && Among(ports, all)
      ensures |ports| <= |old(ports)| && (expel == Never ==> ports == old(ports))
      ensures total + TotalLength(Inputs(all)) <= old(TotalLength(Inputs(all)))
      ensures |ports| == |old(ports)| ==> total + TotalLength(Inputs(all)) == old(TotalLength(Inputs(all)))
      ensures total == 0 ==> Drained(all, ports)
      ensures old(BridgeRuns.Integrity(State())) ==> BridgeRuns.Integrity(State())
    {
      hide AllServed, AllReady, At, BridgeRuns.Integrity, TotalLength, Expelling, Inputs, Next, First;
      total := 0;
      var pos := First(ports);
      var saved := Next(ports, pos);
      ghost var w, before, rest := Begin(ports), [], ports;
      BeginAt(ports);
      while pos.Entry?
        invariant w.pos == pos && w.saved == saved && w.list == ports && At(w, before, rest)
        invariant AllReady(all) && AllServed(all, dues) && Among(ports, all)
        invariant |ports| <= |old(ports)| && (expel == Never ==> ports == old(ports))
        invariant total + TotalLength(Inputs(all)) <= old(TotalLength(Inputs(all)))
        invariant |ports| == |old(ports)| ==> total + TotalLength(Inputs(all)) == old(TotalLength(Inputs(all)))
        invariant total == 0 ==> Drained(all, before)
        invariant old(BridgeRuns.Integrity(State())) ==> BridgeRuns.Integrity(State())
        decreases |rest|
      {
        var processed;
        CursorStands(w, before, rest);
        pos, saved, processed, w, before, rest := VisitEntry(pos, saved, w, before, rest, all, dues, expel);
        total := total + processed;
      }
      CursorStands(w, before, rest);
    }

    /** What is due to each of these interfaces. */
    ghost function Dues(all: seq<Port>): (dues: seq<Receiver.Trace>)
      reads this`handled, Footprint(all)
      ensures |dues| == |all| && forall i | 0 <= i < |all| :: dues[i] == Due(all[i])
    {
      if all == [] then [] else [Due(all[0])] + Dues(all[1..])
    }

    /** Everything the interface was due has arrived; or it had to leave, and got the beginning of that. */
    ghost predicate Settled(p: Port, due: Receiver.Trace)
      reads this`handled, this`ports, p, p.parser
    {
      if p in ports then p.input == [] && due == Receiver.Trace(p.parser.Abstract(), FromPort(handled, p))
      else FromPort(handled, p) <= due.messages
    }

    /**
     Rounds until nothing is left to read: this comes to an end, with every interface that stays
     settled, whatever the size of the read buffer and of the single reads. Without deregistrations
     all the bytes that were waiting are counted.
     */
    method Process(ghost expel: Verdict<Port>) returns (total: nat)
      requires AllReady(ports) && rxBufferSize > 0 && react == Expelling(expel)
      modifies this`wire, this`handled, this`ports, routing.table, Footprint(ports)
      ensures AllReady(old(ports)) && Distinct(ports) && Among(ports, old(ports))
      ensures forall i | 0 <= i < |old(ports)| :: Settled(old(ports)[i], old(Due(ports[i])))
      ensures forall i | 0 <= i < |ports| :: ports[i].input == []
      ensures total <= old(TotalLength(Inputs(ports)))
      ensures expel == Never ==> ports == old(ports) && total == old(TotalLength(Inputs(ports)))
      ensures old(BridgeRuns.Integrity(State())) ==> BridgeRuns.Integrity(State())
    {
      hide AllReady, AllServed, Settled, Due, Drained, BridgeRuns.Integrity, TotalLength, Inputs, Expelling, Footprint;
      ghost var all, dues := ports, Dues(ports);
      AllDue(all);
      total := ProcessOnce(all, dues, expel);
      var n := total;
      while n > 0
        invariant AllReady(all) && AllServed(all, dues) && Distinct(ports) && Among(ports, all)
        invariant |ports| <= |all| && (expel == Never ==> ports == all)
        invariant total + TotalLength(Inputs(all)) <= old(TotalLength(Inputs(ports)))
        invariant expel == Never ==> total + TotalLength(Inputs(all)) == old(TotalLength(Inputs(ports)))
        invariant n == 0 ==> Drained(all, ports)
        invariant old(BridgeRuns.Integrity(State())) ==> BridgeRuns.Integrity(State())
        decreases TotalLength(Inputs(all)), n
      {
        n := ProcessOnce(all, dues, expel);
        total := total + n;
      }
      AllSettled(all, dues);
    }

    lemma AllDue(all: seq<Port>)
      requires AllReady(all) && all == ports
      ensures Distinct(all) && AllServed(all, Dues(all))
    {
      hide Owned, Ready, DueOf, FromPort;
    }

    lemma AllSettled(all: seq<Port>, dues: seq<Receiver.Trace>)
      requires |all| == |dues| && AllServed(all, dues) && Drained(all, ports) && Among(ports, all)
      ensures forall i | 0 <= i < |ports| :: ports[i].input == []
      ensures forall i | 0 <= i < |all| :: Settled(all[i], dues[i])
      ensures ports == all ==> TotalLength(Inputs(all)) == 0
    {
      hide Inputs, TotalLength, Serves, Settled;
      forall i | 0 <= i < |ports| ensures ports[i].input == [] {
        assert ports[i] in all;
      }
      forall i | 0 <= i < |all| ensures Settled(all[i], dues[i]) {
        NothingDue(all[i], dues[i]);
      }
      if ports == all {
        NothingWaits(all);
      }
    }

    lemma NothingDue(p: Port, due: Receiver.Trace)
      requires Served(p, due) && (p in ports ==> p.input == [])
      ensures Settled(p, due)
    {
      Empty(FromPort(handled, p));
    }

    lemma OnlyOne(all: seq<Port>, k: nat)
      requires AllReady(all) && k < |all|
      ensures forall i | 0 <= i < |all| && i != k :: all[i] != all[k]
    {}
  }

  lemma {:induction false} NothingWaits(ps: seq<Port>)
    requires forall i | 0 <= i < |ps| :: ps[i].input == []
    ensures TotalLength(Inputs(ps)) == 0
  {
    if ps != [] {
      NothingWaits(ps[1..]);
    }
  }

  ghost predicate Among(some: seq<Port>, all: seq<Port>) {
    forall p | p in some :: p in all
  }

  /** The step of the cursor when at most the current interface has left the list. */
  lemma CursorMoves(w: Walk<Port>, ports: seq<Port>, before: seq<Port>, rest: seq<Port>)
    returns (w': Walk<Port>, before': seq<Port>, rest': seq<Port>)
    requires At(w, before, rest) && rest != [] && w.pos.Entry?
    requires ports == w.list || ports == Without(w.list, [w.pos.e])
    ensures w'.list == ports && At(w', before', rest') && |rest'| < |rest|
    ensures w'.pos == if w.pos.e !in ports || w.saved.Head? || w.saved.e in ports then w.saved else w.pos
    ensures w'.saved == Next(ports, w'.pos)
    ensures forall e | e in before' :: e in before || e == w.pos.e
  {
    hide At, Turn, Without;
    var victims := if ports == w.list then [] else [w.pos.e];
    var cb: Callback<Port> := _ => victims;
    WithoutNothing(w.list, []);
    assert Survivors(w, cb) == ports;
    NoHazard(w, cb, before, rest);
    before', rest' := TurnAt(w, cb, before, rest);
    w' := Turn(w, cb);
    TurnMoves(w, cb);
    CursorStands(w, before, rest);
  }

  lemma NoHazard(w: Walk<Port>, cb: Callback<Port>, before: seq<Port>, rest: seq<Port>)
    requires At(w, before, rest) && w.pos.Entry?
    requires Survivors(w, cb) == w.list || Survivors(w, cb) == Without(w.list, [w.pos.e])
    ensures !Hazard(w, cb)
  {
    if |rest| > 1 {
      assert w.list[|before|] == rest[0] && w.list[|before| + 1] == rest[1];
    }
  }

  lemma TurnMoves(w: Walk<Port>, cb: Callback<Port>)
    requires w.pos.Entry?
    ensures var w', ports := Turn(w, cb), Survivors(w, cb);
            && w'.list == ports && w'.saved == Next(ports, w'.pos)
            && w'.pos == if w.pos.e !in ports || w.saved.Head? || w.saved.e in ports then w.saved else w.pos
  {}

  lemma CursorStands(w: Walk<Port>, before: seq<Port>, rest: seq<Port>)
    requires At(w, before, rest)
    ensures if w.pos.Entry? then rest != [] && w.pos.e == rest[0] && w.pos.e in w.list else w.list == before
    ensures Distinct(w.list)
  {
    if rest != [] {
      assert w.list[|before|] == rest[0];
    }
  }

  /** All the memory of some interfaces. */
  function Footprint(ps: seq<Port>): set<object> {
    (set i | 0 <= i < |ps| :: ps[i] as object) + (set i | 0 <= i < |ps| :: ps[i].parser as object) +
    (set i | 0 <= i < |ps| :: ps[i].parser.raw as object) + (set i | 0 <= i < |ps| :: ps[i].parser.data as object)
  }

  /** The bytes waiting to be read. */
  ghost function Inputs(ps: seq<Port>): (r: seq<seq<byte>>)
    reads set i | 0 <= i < |ps| :: ps[i]
    ensures |r| == |ps| && forall i | 0 <= i < |ps| :: r[i] == ps[i].input
  {
    if ps == [] then [] else [ps[0].input] + Inputs(ps[1..])
  }

  function TotalLength(inputs: seq<seq<byte>>): nat {
    if inputs == [] then 0 else |inputs[0]| + TotalLength(inputs[1..])
  }

  lemma {:induction false} TotalMoves(inputs: seq<seq<byte>>, k: nat, next: seq<byte>)
    requires k < |inputs|
    ensures TotalLength(inputs[k := next]) + |inputs[k]| == TotalLength(inputs) + |next|
  {
    if k > 0 {
      TotalMoves(inputs[1..], k - 1, next);
      assert inputs[k := next][1..] == inputs[1..][k - 1 := next];
    }
  }

  lemma PumpNothing(w: World<Port>, setup: Setup<Port>, max: nat, port: Port, s: Receiver.State)
    ensures Pump(w, setup, max, port, s, []) == Progress(w, s, 0)
  {}

  lemma MoreProgress(w: World<Port>, s: Receiver.State, n: nat, k: nat)
    ensures More(Progress(w, s, n), k) == Progress(w, s, n + k)
  {}

  lemma MoreMore(p: Progress<Port>, n: nat, k: nat)
    ensures More(More(p, n), k) == More(p, n + k)
  {}

  lemma Suffix(s: seq<byte>, i: nat, n: nat)
    requires i + n <= |s|
    ensures s[i..][n..] == s[i + n..]
  {}

  lemma FinishedParser(p: Parser.Parser)
    requires p.Valid()
    ensures p.raw.Length == 4 && p.raw != p.data && p.crcFails < Receiver.COUNTER_RANGE
  {}

  lemma ReadyReceiver(p: Port)
    requires Ready(p)
    ensures Receiver.Ready(p.parser.data.Length, p.parser.Abstract())
  {
    p.parser.ModeIsAbstract();
  }

  lemma MoreNothing(p: Progress<Port>)
    ensures More(p, 0) == p
  {}

  lemma NobodyYet(frame: seq<byte>, origin: Origin<Port>, wire: seq<(Port, seq<byte>)>)
    ensures wire + Written(MirrorCopies([], IsMirror, origin), frame) == wire
    ensures wire + Written(Flood([], IsMirror, origin), frame) == wire
  {
    WrittenNone(wire, frame);
    assert MirrorCopies<Port>([], IsMirror, origin) == [];
    assert Flood<Port>([], IsMirror, origin) == [];
  }

  lemma OneMorePort(ports: seq<Port>, i: nat, frame: seq<byte>, origin: Origin<Port>, wire: seq<(Port, seq<byte>)>)
    requires i < |ports|
    ensures var p := ports[i];
            wire + Written(MirrorCopies(ports[..i + 1], IsMirror, origin), frame) ==
            (wire + Written(MirrorCopies(ports[..i], IsMirror, origin), frame))
            + if p.mirror && origin != From(p) then [(p, frame)] else []
    ensures var p := ports[i];
            wire + Written(Flood(ports[..i + 1], IsMirror, origin), frame) ==
            (wire + Written(Flood(ports[..i], IsMirror, origin), frame))
            + if !p.mirror && origin != From(p) then [(p, frame)] else []
  {
    hide MirrorCopies, Flood;
    var p := ports[i];
    assert ports[..i + 1] == ports[..i] + [p];
    CopiesAppend(ports[..i], p, IsMirror, origin);
    OneMoreWritten(MirrorCopies(ports[..i], IsMirror, origin), p, frame, wire);
    OneMoreWritten(Flood(ports[..i], IsMirror, origin), p, frame, wire);
  }

  lemma OneMoreWritten(out: seq<Port>, p: Port, frame: seq<byte>, wire: seq<(Port, seq<byte>)>)
    ensures wire + Written(out + [p], frame) == (wire + Written(out, frame)) + [(p, frame)]
    ensures wire + Written(out + [], frame) == (wire + Written(out, frame)) + []
  {
    Append(out, p);
    Associative(wire, Written(out, frame), [(p, frame)]);
    Empty(out);
    Empty(wire + Written(out, frame));
  }
}
