/** A node: one sender id on the internal side of a bridge. */
module Node {
  import opened Sequences
  import opened Types
  import opened Routing
  import opened BridgeModel
  import opened Counters
  import BridgeRuns
  import opened Traffic
  import opened Bridge

  /** A handler for messages to the node; it may opt out of messages from the internal side. */
  datatype NodeHandler = NodeHandler(name: nat, noMessagesFromInternal: bool)

  /** A message to this node, or to everybody. */
  predicate Addressed(own: byte, m: Message) {
    m.header.receiver == own || m.header.receiver == BROADCAST
  }

  predicate Wants(h: NodeHandler, own: byte, d: (Origin<Port>, Message)) {
    Addressed(own, d.1) && !(d.0 == Internal && h.noMessagesFromInternal)
  }

  /** The calls for one message, in the order of the list. */
  function Calls(handlers: seq<NodeHandler>, own: byte, d: (Origin<Port>, Message)): seq<(NodeHandler, (Origin<Port>, Message))> {
    if handlers == [] then []
    else
      var n := |handlers| - 1;
      Calls(handlers[..n], own, d) + if Wants(handlers[n], own, d) then [(handlers[n], d)] else []
  }

  lemma LengthField(size: nat)
    ensures LowByte(size) as nat <= size
    ensures LowByte(size) as nat == size <==> size <= 255
  {
    LowByteIsModulo(size);
  }

  class Node {
    const headerConfig: HeaderConfig
    /** Where the node is registered. */
    var bridge: NDLComBridge?
    var handlers: seq<NodeHandler>
    /** Every call of a handler so far. */
    var calls: seq<(NodeHandler, (Origin<Port>, Message))>

    constructor (devices: nat, own: byte)
      ensures bridge == null && handlers == [] && calls == []
      ensures fresh(headerConfig) && fresh(headerConfig.counterForReceiver) && headerConfig.Valid()
      ensures headerConfig.ownSenderId == own && headerConfig.history == []
    {
      headerConfig := new HeaderConfig(devices, own);
      bridge, handlers, calls := null, [], [];
    }

    /** From now on messages to the own id are for the bridge. */
    method Register(b: NDLComBridge)
      requires bridge == null || bridge == b
      modifies this`bridge, b.routing.table
      ensures bridge == b
      ensures b.State() == BridgeRuns.Apply(old(b.State()), IsMirror, BridgeRuns.Mark(headerConfig.ownSenderId))
    {
      bridge := b;
      b.MarkDeviceIdAsInternal(headerConfig.ownSenderId);
    }

    method Deregister()
      requires bridge != null
      modifies this`bridge, bridge.routing.table
      ensures bridge == null
      ensures old(bridge).State() ==
              BridgeRuns.Apply(old(bridge.State()), IsMirror, BridgeRuns.Clear(headerConfig.ownSenderId))
    {
      bridge.ClearInternalDeviceId(headerConfig.ownSenderId);
      bridge := null;
    }

    /** A new personality: the old id is given up, all counters start anew. */
    method SetOwnSenderId(own: byte)
      requires bridge != null && bridge.routing.table as object != headerConfig.counterForReceiver
      modifies bridge.routing.table, headerConfig, headerConfig.counterForReceiver
      ensures headerConfig.Valid() && headerConfig.ownSenderId == own && headerConfig.history == []
      ensures var cleared := BridgeRuns.Apply(old(bridge.State()), IsMirror, BridgeRuns.Clear(old(headerConfig.ownSenderId)));
              bridge.State() == BridgeRuns.Apply(cleared, IsMirror, BridgeRuns.Mark(own))
    {
      bridge.ClearInternalDeviceId(headerConfig.ownSenderId);
      headerConfig.Init(own);
      bridge.MarkDeviceIdAsInternal(own);
    }

    /**
     Sends a payload. The length is stored in eight bits: the payload arrives whole exactly when it
     has at most 255 bytes. When the receiver is beyond the counter table, the counter field is what
     the memory happened to hold.
     */
    method Send(receiver: byte, payload: seq<byte>, garbage: Header) returns (m: Message)
      requires bridge != null && headerConfig.Valid()
      requires bridge.routing.table as object != headerConfig.counterForReceiver
      modifies bridge`wire, bridge`handled, bridge`ports, bridge.routing.table,
               headerConfig`history, headerConfig.counterForReceiver
      ensures headerConfig.Valid() && headerConfig.history == old(headerConfig.history) + [receiver]
      ensures m.Valid() && m.payload <= payload && m.header.len == LowByte(|payload|)
      ensures m.payload == payload <==> |payload| <= 255
      ensures m.header.receiver == receiver && m.header.sender == headerConfig.ownSenderId
      ensures receiver as nat < headerConfig.counterForReceiver.Length ==>
                m.header.counter == LowByte(SentTo(old(headerConfig.history), receiver as nat))
      ensures bridge.Snapshot() == Dispatch(old(bridge.Snapshot()), bridge.Rules(), m, Internal)
    {
      hide LowByte, SentTo, Dispatch;
      LengthField(|payload|);
      var len := LowByte(|payload|);
      var header := headerConfig.Prepare(garbage, receiver, len);
      m := Message(header, payload[..len as nat]);
      bridge.SendRaw(m);
    }

    /** The bridge shows the node a message. */
    method MessageHandler(m: Message, origin: Origin<Port>)
      modifies this`calls
      ensures calls == old(calls) + Calls(handlers, headerConfig.ownSenderId, (origin, m))
    {
      var own := headerConfig.ownSenderId;
      if m.header.receiver == own || m.header.receiver == BROADCAST {
        for i := 0 to |handlers|
          invariant calls == old(calls) + Calls(handlers[..i], own, (origin, m))
        {
          assert handlers[..i + 1][..i] == handlers[..i];
          if !(origin == Internal && handlers[i].noMessagesFromInternal) {
            calls := calls + [(handlers[i], (origin, m))];
          }
        }
        assert handlers[..|handlers|] == handlers;
      } else {
        NotForUs(handlers, own, (origin, m));
      }
    }
  }

  lemma {:induction false} CallsCounted(handlers: seq<NodeHandler>, own: byte, d: (Origin<Port>, Message), h: NodeHandler)
    ensures multiset(Calls(handlers, own, d))[(h, d)] == if Wants(h, own, d) then multiset(handlers)[h] else 0
  {
    hide Wants, Calls;
    if handlers == [] {
      NobodyToCall(own, d);
    } else {
      var n := |handlers| - 1;
      CallsCounted(handlers[..n], own, d, h);
      LastCall(handlers, own, d);
      CountAppend(handlers[..n], handlers[n], h);
      CountAppend(Calls(handlers[..n], own, d), (handlers[n], d), (h, d));
    }
  }

  lemma NobodyToCall(own: byte, d: (Origin<Port>, Message))
    ensures Calls([], own, d) == []
  {}

  lemma LastCall(handlers: seq<NodeHandler>, own: byte, d: (Origin<Port>, Message))
    requires handlers != []
    ensures var n := |handlers| - 1;
            && handlers == handlers[..n] + [handlers[n]]
            && Calls(handlers, own, d) ==
               if Wants(handlers[n], own, d) then Calls(handlers[..n], own, d) + [(handlers[n], d)]
               else Calls(handlers[..n], own, d)
  {
    Empty(Calls(handlers[..|handlers| - 1], own, d));
  }

  lemma {:induction false} CallsAreAbout(handlers: seq<NodeHandler>, own: byte, d: (Origin<Port>, Message), i: nat)
    requires i < |Calls(handlers, own, d)|
    ensures Calls(handlers, own, d)[i].1 == d
  {
    hide Wants;
    var before := Calls(handlers[..|handlers| - 1], own, d);
    if i < |before| {
      CallsAreAbout(handlers[..|handlers| - 1], own, d, i);
    }
  }

  /**
   A message to the own id or to everybody is shown once to each handler on the list, unless it is
   from inside and the handler opted out of these; no other message is shown to anybody.
   */
  lemma CalledExactly(handlers: seq<NodeHandler>, own: byte, origin: Origin<Port>, m: Message, h: NodeHandler)
    ensures var calls, receiver := Calls(handlers, own, (origin, m)), m.header.receiver;
            && (receiver != own && receiver != 0xff ==> calls == [])
            && (receiver == own || receiver == 0xff ==>
                  multiset(calls)[(h, (origin, m))] ==
                  if origin == Internal && h.noMessagesFromInternal then 0 else multiset(handlers)[h])
            && forall i | 0 <= i < |calls| :: calls[i].1 == (origin, m)
  {
    CallsCounted(handlers, own, (origin, m), h);
    hide Calls;
    if m.header.receiver != own && m.header.receiver != 0xff {
      NotForUs(handlers, own, (origin, m));
    }
    forall i | 0 <= i < |Calls(handlers, own, (origin, m))| ensures Calls(handlers, own, (origin, m))[i].1 == (origin, m) {
      CallsAreAbout(handlers, own, (origin, m), i);
    }
  }

  lemma {:induction false} NotForUs(handlers: seq<NodeHandler>, own: byte, d: (Origin<Port>, Message))
    requires !Addressed(own, d.1)
    ensures Calls(handlers, own, d) == []
  {
    if handlers != [] {
      NotForUs(handlers[..|handlers| - 1], own, d);
    }
  }
}
