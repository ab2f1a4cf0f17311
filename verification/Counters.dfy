/**
 Packet counters: the sender numbers its packets per receiver modulo 256, the observer compares
 each number with the one it expects next from this sender to this receiver.
 */
module Counters {
  import opened Sequences
  import opened Types

  // ---------------------------------------------------------------- the sender

  /** How many of the packets went to this receiver. */
  function SentTo(history: seq<byte>, receiver: nat): nat {
    if history == [] then 0
    else
      var n := |history| - 1;
      SentTo(history[..n], receiver) + if history[n] as nat == receiver then 1 else 0
  }

  /** The header preparation of one sender; devices is the number of ids the tables have room for. */
  class HeaderConfig {
    const counterForReceiver: array<byte>
    var ownSenderId: byte
    /** The receivers of the packets prepared since the last initialization. */
    ghost var history: seq<byte>

    ghost predicate Valid()
      reads this, counterForReceiver
    {
      forall r | 0 <= r < counterForReceiver.Length :: counterForReceiver[r] == LowByte(SentTo(history, r))
    }

    constructor (devices: nat, own: byte)
      ensures Valid() && fresh(counterForReceiver) && counterForReceiver.Length == devices
      ensures ownSenderId == own && history == []
    {
      counterForReceiver := new byte[devices](i => 0);
      ownSenderId := own;
      history := [];
    }

    /** A new personality starts counting anew. */
    method Init(own: byte)
      modifies this, counterForReceiver
      ensures Valid() && ownSenderId == own && history == []
    {
      ownSenderId := own;
      for i := 0 to counterForReceiver.Length
        invariant ownSenderId == own
        invariant forall k | 0 <= k < i :: counterForReceiver[k] == 0
      {
        counterForReceiver[i] := 0;
      }
      history := [];
    }

    /**
     Fills in a header. The counter field keeps its previous content when the receiver is beyond
     the table.
     */
    method Prepare(previous: Header, receiver: byte, len: byte) returns (h: Header)
      requires Valid()
      modifies this`history, counterForReceiver
      ensures Valid() && history == old(history) + [receiver]
      ensures h == Header(receiver, ownSenderId,
                          if receiver as nat < counterForReceiver.Length
                          then LowByte(SentTo(old(history), receiver as nat)) else previous.counter,
                          len)
    {
      hide LowByte, SentTo;
      h := previous.(receiver := receiver, sender := ownSenderId, len := len);
      var i := receiver as nat;
      ghost var before := history;
      history := history + [receiver];
      if i < counterForReceiver.Length {
        h := h.(counter := counterForReceiver[i]);
        counterForReceiver[i] := counterForReceiver[i] + 1;
      }
      forall r | 0 <= r < counterForReceiver.Length
        ensures counterForReceiver[r] == LowByte(SentTo(history, r))
      {
        CounterMovesOn(before, receiver, r);
      }
    }
  }

  lemma CounterMovesOn(history: seq<byte>, receiver: byte, r: nat)
    ensures LowByte(SentTo(history + [receiver], r)) ==
            if r == receiver as nat then LowByte(SentTo(history, r)) + 1 else LowByte(SentTo(history, r))
  {
    Append(history, receiver);
  }

  lemma SameByte(a: byte, b: byte)
    requires a as nat == b as nat
    ensures a == b
  {}

  // ---------------------------------------------------------------- the observer

  /** What the observer remembers about one sender and one receiver. */
  datatype Slot = Slot(seen: bool, expected: byte, misses: nat)

  const MISS_RANGE: nat := 0x1_0000_0000

  const UNSEEN: Slot := Slot(false, 0, 0)

  predicate Missed(slot: Slot, counter: byte) {
    slot.seen && slot.expected != counter
  }

  /** A 32-bit count goes on. */
  function OneMore(count: nat): nat {
    (count + 1) % MISS_RANGE
  }

  function Observe(slot: Slot, counter: byte): Slot {
    Slot(true, counter + 1, if Missed(slot, counter) then OneMore(slot.misses) else slot.misses)
  }

  /** A counter other than the one expected counts one miss, in 32 bits; a first packet never does. */
  lemma ObserveExactly(slot: Slot, counter: byte)
    requires slot.misses < 0x1_0000_0000
    ensures var after := Observe(slot, counter);
            && after.seen && after.expected == counter + 1
            && after.misses ==
               if !slot.seen || slot.expected == counter then slot.misses
               else if slot.misses == 0xffff_ffff then 0
               else slot.misses + 1
  {}

  datatype Event = Saw(header: Header) | Cleared

  /** The slot of a pair after a whole history, whatever else was seen in between. */
  function SlotAfter(events: seq<Event>, sender: byte, receiver: byte): Slot {
    if events == [] then UNSEEN
    else
      var n := |events| - 1;
      var slot := SlotAfter(events[..n], sender, receiver);
      match events[n]
      case Cleared => slot.(misses := 0)
      case Saw(h) =>
        if h.sender == sender != BROADCAST && h.receiver == receiver then Observe(slot, h.counter) else slot
  }

  /** The position of a pair in the tables: sender in the upper eight bits. */
  function Index(sender: byte, receiver: byte): (i: nat)
    ensures i < 65536
  {
    256 * (sender as nat) + receiver as nat
  }

  /** The miss detection with room for all 256 ids. */
  class MissEvents {
    const misses: array<nat>
    const expected: array<byte>
    const seen: array<bool>
    ghost var events: seq<Event>

    ghost predicate Valid()
      reads this, misses, expected, seen
    {
      && misses as object != expected && misses as object != seen && expected as object != seen
      && Recorded(misses[..], expected[..], seen[..], events)
    }

    constructor ()
      ensures Valid() && events == [] && fresh(misses) && fresh(expected) && fresh(seen)
    {
      misses := new nat[65536](i => 0);
      expected := new byte[65536](i => 0);
      seen := new bool[65536](i => false);
      events := [];
    }

    /** A miss is reported as the difference between the counter and the one expected. */
    method IsMiss(h: Header) returns (diff: int)
      requires Valid()
      modifies this`events, misses, expected, seen
      ensures Valid() && events == old(events) + [Saw(h)]
      ensures var slot := SlotAfter(old(events), h.sender, h.receiver);
              diff == if h.sender != BROADCAST && Missed(slot, h.counter)
                      then h.counter as int - slot.expected as int else 0
    {
      hide Observe, Missed, SlotAt, SlotAfter, Recorded, Index;
      diff := 0;
      var i := Index(h.sender, h.receiver);
      ghost var m, e, t := misses[..], expected[..], seen[..];
      RecordedLengths(m, e, t, events);
      RecordedAt(m, e, t, events, h.sender, h.receiver);
      if h.sender != BROADCAST {
        diff := UpdateSlot(i, h.counter);
      }
      RecordedMore(m, e, t, misses[..], expected[..], seen[..], events, h);
      events := events + [Saw(h)];
    }

    method UpdateSlot(i: nat, counter: byte) returns (diff: int)
      requires i < misses.Length == expected.Length == seen.Length
      requires misses as object != expected && misses as object != seen && expected as object != seen
      modifies misses, expected, seen
      ensures var slot := old(SlotAt(misses[..], expected[..], seen[..], i));
              && SlotAt(misses[..], expected[..], seen[..], i) == Observe(slot, counter)
              && diff == if Missed(slot, counter) then counter as int - slot.expected as int else 0
      ensures forall k | 0 <= k < misses.Length && k != i ::
                SlotAt(misses[..], expected[..], seen[..], k) == old(SlotAt(misses[..], expected[..], seen[..], k))
    {
      hide OneMore, SlotAt, Observe, Missed;
      ghost var m, e, t := misses[..], expected[..], seen[..];
      diff := 0;
      if !seen[i] {
        seen[i] := true;
      } else if expected[i] != counter {
        diff := counter as int - expected[i] as int;
        misses[i] := OneMore(misses[i]);
      }
      expected[i] := counter + 1;
      assert misses[..] == m[i := misses[i]] && expected[..] == e[i := expected[i]] && seen[..] == t[i := seen[i]];
      SlotChanged(m, e, t, i, misses[i], expected[i], seen[i], counter);
    }

    /** Forgets the miss counts, and nothing else. */
    method ResetMissEvents()
      requires Valid()
      modifies this`events, misses
      ensures Valid() && events == old(events) + [Cleared]
      ensures forall i | 0 <= i < 65536 :: misses[i] == 0
    {
      ghost var before := events;
      for i := 0 to misses.Length
        invariant events == before
        invariant forall k | 0 <= k < i :: misses[k] == 0
      {
        misses[i] := 0;
      }
      Append(events, Cleared);
      events := events + [Cleared];
      forall s: byte, r: byte
        ensures SlotAt(misses[..], expected[..], seen[..], Index(s, r)) == SlotAfter(events, s, r)
      {
        assert SlotAt(old(misses[..]), old(expected[..]), old(seen[..]), Index(s, r)) == SlotAfter(before, s, r);
        assert SlotAfter(events, s, r) == SlotAfter(before, s, r).(misses := 0);
      }
    }
  }

  lemma SlotAfterSaw(events: seq<Event>, h: Header, s: byte, r: byte)
    ensures SlotAfter(events + [Saw(h)], s, r) ==
            if h.sender == s != BROADCAST && h.receiver == r then Observe(SlotAfter(events, s, r), h.counter)
            else SlotAfter(events, s, r)
  {
    Append(events, Saw(h));
  }

  lemma IndexInjective(s: byte, r: byte, s': byte, r': byte)
    requires Index(s, r) == Index(s', r')
    ensures s == s' && r == r'
  {
    SameByte(s, s');
    SameByte(r, r');
  }

  /** The tables hold what each pair alone would have left. */
  ghost predicate Recorded(misses: seq<nat>, expected: seq<byte>, seen: seq<bool>, events: seq<Event>) {
    && |misses| == 65536 && |expected| == 65536 && |seen| == 65536
    && forall s: byte, r: byte :: SlotAt(misses, expected, seen, Index(s, r)) == SlotAfter(events, s, r)
  }

  lemma SlotChanged(m: seq<nat>, e: seq<byte>, t: seq<bool>, i: nat, misses: nat, expected: byte, seen: bool, counter: byte)
    requires i < |m| == |e| == |t|
    ensures SlotAt(m[i := misses], e[i := expected], t[i := seen], i) == Slot(seen, expected, misses)
    ensures forall k | 0 <= k < |m| && k != i ::
              SlotAt(m[i := misses], e[i := expected], t[i := seen], k) == SlotAt(m, e, t, k)
    ensures var slot := SlotAt(m, e, t, i);
            && slot == Slot(t[i], e[i], m[i])
            && (Missed(slot, counter) <==> t[i] && e[i] != counter)
            && Observe(slot, counter) == Slot(true, counter + 1, if t[i] && e[i] != counter then OneMore(m[i]) else m[i])
  {
    hide OneMore;
  }

  lemma RecordedLengths(m: seq<nat>, e: seq<byte>, t: seq<bool>, events: seq<Event>)
    requires Recorded(m, e, t, events)
    ensures |m| == |e| == |t| == 65536
  {}

  lemma RecordedAt(m: seq<nat>, e: seq<byte>, t: seq<bool>, events: seq<Event>, s: byte, r: byte)
    requires Recorded(m, e, t, events)
    ensures |m| == |e| == |t| == 65536 && SlotAt(m, e, t, Index(s, r)) == SlotAfter(events, s, r)
  {}

  /** One more header, noted where its pair is, or not at all when it is a broadcast's sender. */
  lemma RecordedMore(m: seq<nat>, e: seq<byte>, t: seq<bool>, m': seq<nat>, e': seq<byte>, t': seq<bool>,
                     events: seq<Event>, h: Header)
    requires Recorded(m, e, t, events) && |m| == |e| == |t| == |m'| == |e'| == |t'| == 65536
    requires var i := Index(h.sender, h.receiver);
             SlotAt(m', e', t', i) == if h.sender == BROADCAST then SlotAt(m, e, t, i) else Observe(SlotAt(m, e, t, i), h.counter)
    requires forall k | 0 <= k < 65536 && k != Index(h.sender, h.receiver) :: SlotAt(m', e', t', k) == SlotAt(m, e, t, k)
    ensures Recorded(m', e', t', events + [Saw(h)])
  {
    hide Observe, Index, SlotAt, SlotAfter;
    forall s: byte, r: byte ensures SlotAt(m', e', t', Index(s, r)) == SlotAfter(events + [Saw(h)], s, r) {
      SlotAfterSaw(events, h, s, r);
      assert SlotAt(m, e, t, Index(s, r)) == SlotAfter(events, s, r);
      if Index(s, r) == Index(h.sender, h.receiver) { IndexInjective(s, r, h.sender, h.receiver); }
    }
  }

  function SlotAt(misses: seq<nat>, expected: seq<byte>, seen: seq<bool>, i: nat): Slot
    requires i < |misses| == |expected| == |seen|
  {
    Slot(seen[i], expected[i], misses[i])
  }
}
