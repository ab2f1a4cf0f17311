/** What the miss counts mean in terms of the packets that were sent. */
module MissDetection {
  import opened Sequences
  import opened Types
  import opened Counters

  lemma DivisionUnique(q: int, r: int, n: int)
    requires 0 <= r < 256 && n == 256 * q + r
    ensures n % 256 == r
  {}

  lemma ModuloOfDifference(i: nat, j: nat)
    requires i <= j
    ensures (j - i) % 256 == if j % 256 >= i % 256 then j % 256 - i % 256 else j % 256 - i % 256 + 256
  {
    var q := j / 256 - i / 256;
    if j % 256 >= i % 256 {
      DivisionUnique(q, j % 256 - i % 256, j - i);
    } else {
      DivisionUnique(q - 1, j % 256 - i % 256 + 256, j - i);
    }
  }

  lemma NoDifference(i: nat, j: nat)
    requires i <= j
    ensures (j - i) % 256 == 0 <==> i % 256 == j % 256
  {
    ModuloOfDifference(i, j);
  }

  /** Two packets carry the same counter exactly when their distance is a multiple of 256. */
  lemma SameCounterExactly(i: nat, j: nat)
    requires i <= j
    ensures LowByte(i) == LowByte(j) <==> (j - i) % 256 == 0
  {
    hide LowByte;
    LowByteIsModulo(i);
    LowByteIsModulo(j);
    NoDifference(i, j);
    if i % 256 == j % 256 { SameByte(LowByte(i), LowByte(j)); }
  }

  /**
   After packet i, packet j is reported missed exactly when a number of packets that is no multiple
   of 256 was lost in between. The reported difference is that number modulo 256, less 256 when the
   counter wrapped.
   */
  lemma DifferenceIsLoss(slot: Slot, i: nat, j: nat)
    requires i < j && slot.seen && slot.expected == LowByte(i + 1)
    ensures var lost := j - i - 1;
            var counter := LowByte(j);
            var diff := counter as int - slot.expected as int;
            && (Missed(slot, counter) <==> lost % 256 != 0)
            && diff == (if j % 256 >= (i + 1) % 256 then lost % 256 else lost % 256 - 256)
  {
    hide LowByte;
    SameCounterExactly(i + 1, j);
    LowByteIsModulo(i + 1);
    LowByteIsModulo(j);
    ModuloOfDifference(i + 1, j);
  }

  // ---------------------------------------------------------------- one sender, one receiver

  /** The packets of this pair seen so far are, in order, the ones with these send indices. */
  ghost predicate Carries(events: seq<Event>, sender: byte, receiver: byte, indices: seq<nat>) {
    if events == [] then indices == []
    else
      var n, m := |events| - 1, |indices| - 1;
      if OfPair(events[n], sender, receiver) then
        && m >= 0
        && events[n].header.counter == LowByte(indices[m])
        && (m > 0 ==> indices[m - 1] < indices[m])
        && Carries(events[..n], sender, receiver, indices[..m])
      else Carries(events[..n], sender, receiver, indices)
  }

  predicate OfPair(event: Event, sender: byte, receiver: byte) {
    event.Saw? && event.header.sender == sender && event.header.receiver == receiver
  }

  /** The distance is not one modulo 256. */
  predicate Apart(i: int, j: int) {
    (j - i) % 256 != 1
  }

  /** The pair's gaps since the counts were last cleared: neighbours not one apart modulo 256. */
  ghost function GapsSince(events: seq<Event>, sender: byte, receiver: byte, indices: seq<nat>): nat {
    if events == [] then 0
    else
      var n, m := |events| - 1, |indices| - 1;
      if events[n].Cleared? then 0
      else if OfPair(events[n], sender, receiver) && m >= 0 then
        GapsSince(events[..n], sender, receiver, indices[..m])
        + if m > 0 && Apart(indices[m - 1], indices[m]) then 1 else 0
      else GapsSince(events[..n], sender, receiver, indices)
  }

  /** The miss count of a pair is its number of gaps, in any company. */
  lemma {:induction false} MissesAreGaps(events: seq<Event>, sender: byte, receiver: byte, indices: seq<nat>)
    requires sender != BROADCAST && Carries(events, sender, receiver, indices)
    ensures var slot := SlotAfter(events, sender, receiver);
            && slot.misses == GapsSince(events, sender, receiver, indices) % 0x1_0000_0000
            && (GapsSince(events, sender, receiver, indices) < 0x1_0000_0000 ==>
                  slot.misses == GapsSince(events, sender, receiver, indices))
            && slot.seen == (indices != [])
            && (slot.seen ==> slot.expected == LowByte(indices[|indices| - 1] + 1))
    decreases |events|
  {
    if events != [] {
      hide LowByte, Observe, Apart;
      var n, m := |events| - 1, |indices| - 1;
      if OfPair(events[n], sender, receiver) {
        MissesAreGaps(events[..n], sender, receiver, indices[..m]);
        var slot := SlotAfter(events[..n], sender, receiver);
        if m > 0 {
          ObserveNext(slot, indices[m - 1], indices[m], GapsSince(events[..n], sender, receiver, indices[..m]));
        } else {
          ObserveFirst(slot, indices[m]);
        }
      } else {
        MissesAreGaps(events[..n], sender, receiver, indices);
      }
    }
  }

  lemma ObserveFirst(slot: Slot, k: nat)
    requires !slot.seen
    ensures Observe(slot, LowByte(k)) == Slot(true, LowByte(k + 1), slot.misses)
  {
    CounterMoves(k);
  }

  lemma ObserveNext(slot: Slot, i: nat, j: nat, gaps: nat)
    requires i < j && slot.seen && slot.expected == LowByte(i + 1) && slot.misses == gaps % MISS_RANGE
    ensures Observe(slot, LowByte(j)) ==
            Slot(true, LowByte(j + 1), (gaps + if Apart(i, j) then 1 else 0) % MISS_RANGE)
  {
    hide LowByte;
    CounterMoves(j);
    DifferenceIsLoss(slot, i, j);
    ApartMeansLost(i, j);
  }

  lemma CounterMoves(k: nat)
    ensures LowByte(k) + 1 == LowByte(k + 1)
  {}

  lemma ApartMeansLost(i: nat, j: nat)
    requires i < j
    ensures Apart(i, j) <==> (j - i - 1) % 256 != 0
  {
    var d := j - i;
    if d % 256 == 0 { DivisionUnique(d / 256 - 1, 255, d - 1); } else { DivisionUnique(d / 256, d % 256 - 1, d - 1); }
  }

  // ---------------------------------------------------------------- from the sender's history

  /**
   The events from this sender are, in order, the packets it prepared at the kept positions of its
   history; packets of other senders may come in between.
   */
  ghost predicate Relays(events: seq<Event>, sender: byte, history: seq<byte>, kept: seq<nat>) {
    if events == [] then kept == []
    else
      var n, m := |events| - 1, |kept| - 1;
      if events[n].Saw? && events[n].header.sender == sender then
        && m >= 0
        && kept[m] < |history|
        && (m > 0 ==> kept[m - 1] < kept[m])
        && events[n].header.receiver == history[kept[m]]
        && events[n].header.counter == LowByte(SentTo(history[..kept[m]], history[kept[m]] as nat))
        && Relays(events[..n], sender, history, kept[..m])
      else Relays(events[..n], sender, history, kept)
  }

  ghost predicate Inside(kept: seq<nat>, history: seq<byte>) {
    forall i | 0 <= i < |kept| :: kept[i] < |history|
  }

  /** The send indices, among the packets to one receiver, of the kept packets to it. */
  ghost function IndicesTo(history: seq<byte>, kept: seq<nat>, receiver: byte): seq<nat>
    requires Inside(kept, history)
  {
    if kept == [] then []
    else
      var m := |kept| - 1;
      var before := IndicesTo(history, kept[..m], receiver);
      if history[kept[m]] == receiver then before + [SentTo(history[..kept[m]], receiver as nat)] else before
  }

  lemma SentToLast(history: seq<byte>, receiver: byte)
    requires history != []
    ensures var n := |history| - 1;
            SentTo(history, receiver as nat) ==
            SentTo(history[..n], receiver as nat) + if history[n] == receiver then 1 else 0
  {
    var n := |history| - 1;
    if history[n] as nat == receiver as nat { SameByte(history[n], receiver); }
  }

  /** The send index of a packet is the number of packets to the same receiver before it. */
  lemma {:induction false} SentToIsCount(history: seq<byte>, receiver: byte)
    ensures SentTo(history, receiver as nat) == |set i | 0 <= i < |history| && history[i] == receiver|
  {
    if history != [] {
      var n := |history| - 1;
      SentToIsCount(history[..n], receiver);
      SentToLast(history, receiver);
      var before := set i | 0 <= i < |history[..n]| && history[..n][i] == receiver;
      var now := set i | 0 <= i < |history| && history[i] == receiver;
      assert now == before + if history[n] == receiver then {n} else {};
    }
  }

  lemma {:induction false} SentToGrows(history: seq<byte>, p: nat, q: nat, receiver: nat)
    requires p <= q <= |history|
    ensures SentTo(history[..p], receiver) <= SentTo(history[..q], receiver)
    ensures p < q && history[p] as nat == receiver ==>
              SentTo(history[..p], receiver) < SentTo(history[..q], receiver)
    decreases q
  {
    if p < q {
      assert history[..q][..q - 1] == history[..q - 1];
      SentToGrows(history, p, q - 1, receiver);
    }
  }

  lemma {:induction false} KeptInside(events: seq<Event>, sender: byte, history: seq<byte>, kept: seq<nat>)
    requires Relays(events, sender, history, kept)
    ensures Inside(kept, history)
    ensures forall i | 0 <= i < |kept| - 1 :: kept[i] < kept[|kept| - 1]
    decreases |events|
  {
    if events != [] {
      var n, m := |events| - 1, |kept| - 1;
      if events[n].Saw? && events[n].header.sender == sender {
        KeptInside(events[..n], sender, history, kept[..m]);
        assert kept == kept[..m] + [kept[m]];
      } else {
        KeptInside(events[..n], sender, history, kept);
      }
    }
  }

  /** The last index recorded belongs to a kept position with this receiver. */
  lemma {:induction false} LastIndex(history: seq<byte>, kept: seq<nat>, receiver: byte) returns (i: nat)
    requires Inside(kept, history)
    requires IndicesTo(history, kept, receiver) != []
    ensures i < |kept|
    ensures var indices := IndicesTo(history, kept, receiver);
            && history[kept[i]] == receiver
            && indices[|indices| - 1] == SentTo(history[..kept[i]], receiver as nat)
  {
    var m := |kept| - 1;
    if history[kept[m]] == receiver {
      i := m;
    } else {
      i := LastIndex(history, kept[..m], receiver);
    }
  }

  lemma {:induction false} RelaysCarries(events: seq<Event>, sender: byte, history: seq<byte>, kept: seq<nat>, receiver: byte)
    requires Relays(events, sender, history, kept)
    requires Inside(kept, history)
    ensures Carries(events, sender, receiver, IndicesTo(history, kept, receiver))
    decreases |events|
  {
    hide LowByte, SentTo;
    if events != [] {
      var n, m := |events| - 1, |kept| - 1;
      if events[n].Saw? && events[n].header.sender == sender {
        RelaysCarries(events[..n], sender, history, kept[..m], receiver);
        if history[kept[m]] == receiver {
          var before := IndicesTo(history, kept[..m], receiver);
          Append(before, SentTo(history[..kept[m]], receiver as nat));
          if before != [] {
            var i := LastIndex(history, kept[..m], receiver);
            KeptInside(events, sender, history, kept);
            SentToGrows(history, kept[i], kept[m], receiver as nat);
          }
        }
      } else {
        RelaysCarries(events[..n], sender, history, kept, receiver);
      }
    }
  }

  /**
   End to end: whatever part of a sender's packets arrives, in order, among whatever other traffic,
   the miss count for a receiver is the number of gaps between the packets that arrived for it.
   */
  lemma MissesEndToEnd(events: seq<Event>, sender: byte, history: seq<byte>, kept: seq<nat>, receiver: byte)
    requires sender != BROADCAST && Relays(events, sender, history, kept)
    ensures Inside(kept, history)
    ensures SlotAfter(events, sender, receiver).misses ==
            GapsSince(events, sender, receiver, IndicesTo(history, kept, receiver)) % 0x1_0000_0000
    ensures GapsSince(events, sender, receiver, IndicesTo(history, kept, receiver)) < 0x1_0000_0000 ==>
              SlotAfter(events, sender, receiver).misses ==
              GapsSince(events, sender, receiver, IndicesTo(history, kept, receiver))
  {
    hide SlotAfter, GapsSince;
    KeptInside(events, sender, history, kept);
    RelaysCarries(events, sender, history, kept, receiver);
    MissesAreGaps(events, sender, receiver, IndicesTo(history, kept, receiver));
  }

  /** The distance to the packet before is not 1 modulo 256. */
  predicate GapAt(indices: seq<nat>, k: int)
    requires 0 < k < |indices|
  {
    (indices[k] as int - indices[k - 1]) % 256 != 1
  }

  function Gaps(indices: seq<nat>): set<int> {
    set k | 0 < k < |indices| && GapAt(indices, k)
  }

  lemma GapsGrow(indices: seq<nat>)
    requires indices != []
    ensures var m := |indices| - 1;
            |Gaps(indices)| == |Gaps(indices[..m])| + if m > 0 && Apart(indices[m - 1], indices[m]) then 1 else 0
  {
    var m := |indices| - 1;
    assert forall k | 0 < k < m :: GapAt(indices[..m], k) == GapAt(indices, k);
    assert Gaps(indices) == Gaps(indices[..m]) + if m > 0 && GapAt(indices, m) then {m} else {};
  }

  /** As long as nobody clears the counts, the gaps are the neighbours whose distance is not 1 modulo 256. */
  lemma {:induction false} GapsCounted(events: seq<Event>, sender: byte, receiver: byte, indices: seq<nat>)
    requires Carries(events, sender, receiver, indices)
    requires forall i | 0 <= i < |events| :: events[i].Saw?
    ensures GapsSince(events, sender, receiver, indices) == |Gaps(indices)|
    decreases |events|
  {
    hide Gaps, Apart, LowByte;
    if events != [] {
      var n, m := |events| - 1, |indices| - 1;
      if OfPair(events[n], sender, receiver) {
        GapsCounted(events[..n], sender, receiver, indices[..m]);
        GapsGrow(indices);
      } else {
        GapsCounted(events[..n], sender, receiver, indices);
      }
    } else {
      NoGapsYet();
    }
  }

  lemma NoGapsYet()
    ensures Gaps([]) == {}
  {}

  /** The same end to end, as a number of packets: none is counted twice or forgotten. */
  lemma MissesCounted(events: seq<Event>, sender: byte, history: seq<byte>, kept: seq<nat>, receiver: byte)
    requires sender != 0xff && Relays(events, sender, history, kept)
    requires forall i | 0 <= i < |events| :: events[i].Saw?
    ensures Inside(kept, history)
    ensures var indices := IndicesTo(history, kept, receiver);
            var gaps := |set k | 0 < k < |indices| && GapAt(indices, k)|;
            gaps < 0x1_0000_0000 ==> SlotAfter(events, sender, receiver).misses == gaps
  {
    hide SlotAfter, GapsSince, Relays, Carries, IndicesTo;
    KeptInside(events, sender, history, kept);
    MissesEndToEnd(events, sender, history, kept, receiver);
    RelaysCarries(events, sender, history, kept, receiver);
    GapsCounted(events, sender, receiver, IndicesTo(history, kept, receiver));
  }

  /** Every in-order part of a history can arrive. */
  lemma RelaysOn(events: seq<Event>, sender: byte, history: seq<byte>, kept: seq<nat>, k: nat, len: byte)
    requires Relays(events, sender, history, kept)
    requires k < |history| && (kept != [] ==> kept[|kept| - 1] < k)
    ensures var h := Header(history[k], sender, LowByte(SentTo(history[..k], history[k] as nat)), len);
            Relays(events + [Saw(h)], sender, history, kept + [k])
  {
    hide LowByte, SentTo;
    var event := Saw(Header(history[k], sender, LowByte(SentTo(history[..k], history[k] as nat)), len));
    Append(events, event);
    Append(kept, k);
    assert kept != [] ==> (kept + [k])[|kept| - 1] == kept[|kept| - 1];
  }

  /** With anything of others in between. */
  lemma OthersInBetween(events: seq<Event>, sender: byte, history: seq<byte>, kept: seq<nat>, other: Event)
    requires Relays(events, sender, history, kept) && (other.Saw? ==> other.header.sender != sender)
    ensures Relays(events + [other], sender, history, kept)
  {
    Append(events, other);
    hide LowByte, SentTo;
  }

  /** Of packets that claim the broadcast id as their sender nothing is remembered. */
  lemma {:induction false} BroadcastSenderIgnored(events: seq<Event>, receiver: byte)
    ensures SlotAfter(events, 0xff, receiver) == UNSEEN
  {
    if events != [] {
      BroadcastSenderIgnored(events[..|events| - 1], receiver);
    }
  }

  // ---------------------------------------------------------------- nothing lost

  /** All positions below n. */
  function Everything(n: nat): seq<nat> {
    seq(n, i => i)
  }

  ghost predicate InOrder(indices: seq<nat>) {
    forall k | 0 <= k < |indices| :: indices[k] == k
  }

  lemma {:induction false} AllIndices(history: seq<byte>, n: nat, receiver: byte)
    requires n <= |history|
    ensures var kept := Everything(n);
            var indices := IndicesTo(history, kept, receiver);
            |indices| == SentTo(history[..n], receiver as nat) && InOrder(indices)
  {
    var kept := Everything(n);
    if n > 0 {
      AllIndices(history, n - 1, receiver);
      assert kept[..n - 1] == Everything(n - 1);
      assert history[..n][..n - 1] == history[..n - 1];
      SentToLast(history[..n], receiver);
    }
  }

  lemma {:induction false} NoGaps(events: seq<Event>, sender: byte, receiver: byte, indices: seq<nat>)
    requires InOrder(indices)
    ensures GapsSince(events, sender, receiver, indices) == 0
    decreases |events|
  {
    if events != [] {
      var n, m := |events| - 1, |indices| - 1;
      if m >= 0 { NoGaps(events[..n], sender, receiver, indices[..m]); }
      NoGaps(events[..n], sender, receiver, indices);
    }
  }

  /** When every packet arrives, no miss is ever counted, however often the counters wrap. */
  lemma LosslessNeverMisses(events: seq<Event>, sender: byte, history: seq<byte>, receiver: byte)
    requires sender != BROADCAST && Relays(events, sender, history, Everything(|history|))
    ensures SlotAfter(events, sender, receiver).misses == 0
  {
    var kept := Everything(|history|);
    MissesEndToEnd(events, sender, history, kept, receiver);
    GapsOfEverything(events, sender, history, receiver);
    hide *;
  }

  lemma GapsOfEverything(events: seq<Event>, sender: byte, history: seq<byte>, receiver: byte)
    requires Inside(Everything(|history|), history)
    ensures GapsSince(events, sender, receiver, IndicesTo(history, Everything(|history|), receiver)) == 0
  {
    AllIndices(history, |history|, receiver);
    hide *;
    NoGaps(events, sender, receiver, IndicesTo(history, Everything(|history|), receiver));
  }

  // ---------------------------------------------------------------- table sizes

  /** The ids the observer lets through when it is built for a given number of devices. */
  predicate LetThrough(devices: nat, sender: nat, receiver: nat) {
    sender != 255 && (devices < 255 ==> sender < devices && receiver < devices)
  }

  /** The flag and both table rows exist; the flags are indexed with the sender in the upper eight bits. */
  predicate HasRoom(devices: nat, sender: nat, receiver: nat) {
    256 * sender + receiver < devices * devices && sender < devices && receiver < devices
  }

  ghost predicate EveryPairHasRoom(devices: nat) {
    forall s: nat, r: nat | s < 256 && r < 256 && LetThrough(devices, s, r) :: HasRoom(devices, s, r)
  }

  /** The reduced table sizes do not fit the index: only the full size works, and the trivial ones. */
  lemma RoomExactly(devices: nat)
    requires devices <= 256
    ensures EveryPairHasRoom(devices) <==> devices <= 1 || devices == 256
  {
    if 1 < devices <= 254 {
      var last := devices - 1;
      assert devices * (257 - devices) >= 257 by { Parabola(devices); }
      assert LetThrough(devices, last, last) && !HasRoom(devices, last, last);
    } else if devices == 255 {
      assert LetThrough(255, 0, 255) && !HasRoom(255, 0, 255);
    }
  }

  lemma Parabola(n: nat)
    requires 2 <= n <= 255
    ensures n * (257 - n) >= 257
  {
    if n <= 128 { Wider(2, n, 257 - n); } else { Wider(2, 257 - n, n); }
  }

  lemma Wider(a: nat, b: nat, k: nat)
    requires a <= b
    ensures a * k <= b * k
  {
    assert (b - a) * k >= 0;
  }
}
