/**
 The receiver as a value: one step a byte, and the driver that collects completed messages.
 The whole parser state is a function of the bytes decoded since the last reset.
 */
module Receiver {
  import opened Sequences
  import opened Types
  import Crc

  datatype Mode = Error | WaitHeader | WaitData | WaitFirstCrc | WaitSecondCrc | Complete

  /** The failure counter is a 32-bit word. */
  const COUNTER_RANGE: nat := 0x1_0000_0000

  /** acc: bytes decoded since the last reset; esc: the last byte was an escape byte. */
  datatype State = State(acc: seq<byte>, esc: bool, fails: nat)

  /** What the receiver waits for; max is the largest payload it has room for. */
  function ModeOf(max: nat, acc: seq<byte>): Mode {
    if |acc| < 4 then WaitHeader
    else
      var len := acc[3] as nat;
      if len > max then Error
      else if |acc| < 4 + len then WaitData
      else if |acc| == 4 + len then WaitFirstCrc
      else if |acc| == 4 + len + 1 then WaitSecondCrc
      else Complete
  }

  /** The states a receiver can be in. */
  predicate Valid(max: nat, s: State) {
    && s.fails < COUNTER_RANGE
    && (ModeOf(max, s.acc) == Error ==> |s.acc| == 4)
    && (ModeOf(max, s.acc) == Complete ==>
          |s.acc| == 4 + s.acc[3] as nat + 2 && Crc.Checksum(Crc.INITIAL, s.acc) == 0)
  }

  /** Valid, and no finished message is waiting to be collected. */
  predicate Ready(max: nat, s: State) {
    Valid(max, s) && ModeOf(max, s.acc) != Complete
  }

  function Reset(s: State): State {
    State([], false, s.fails)
  }

  /** One decoded byte. */
  function Take(max: nat, s: State, c: byte): State {
    match ModeOf(max, s.acc)
    case Error => Reset(s)
    case Complete => s
    case WaitSecondCrc =>
      if Crc.Checksum(Crc.INITIAL, s.acc + [c]) == 0 then s.(acc := s.acc + [c])
      else Reset(s).(fails := (s.fails + 1) % COUNTER_RANGE)
    case _ => s.(acc := s.acc + [c])
  }

  /** One byte off the line. */
  function Step(max: nat, s: State, c: byte): State {
    if c == FLAG then Reset(s)
    else if s.esc then Take(max, s.(esc := false), c ^ 0x20)
    else if c == ESC then s.(esc := true)
    else Take(max, s, c)
  }

  function Feed(max: nat, s: State, input: seq<byte>): State
    decreases |input|
  {
    if input == [] then s else Feed(max, Step(max, s, input[0]), input[1..])
  }

  /** A decoded byte arrives although a finished message has not been collected. */
  predicate Blocked(max: nat, s: State, c: byte) {
    ModeOf(max, s.acc) == Complete && c != FLAG && (s.esc || c != ESC)
  }

  /**
   One call with a buffer of bytes: the state after it and the number it reports. It stops behind
   the byte that completes a message, and reports 0 when it is blocked.
   */
  function Receive(max: nat, s: State, input: seq<byte>, read: nat): (State, nat)
    decreases |input|
  {
    if input == [] then (s, read)
    else
      var next := Step(max, s, input[0]);
      if Blocked(max, s, input[0]) then (next, 0)
      else if ModeOf(max, s.acc) != Complete && ModeOf(max, next.acc) == Complete then (next, read + 1)
      else Receive(max, next, input[1..], read + 1)
  }

  /** The message a finished receiver holds. */
  function Finished(s: State): Message
    requires |s.acc| >= 6
  {
    FromBody(s.acc[..|s.acc| - 2])
  }

  // ---------------------------------------------------------------- the driver

  /** The receiver's state and the messages collected so far. */
  datatype Trace = Trace(state: State, messages: seq<Message>)

  /** One byte, collecting the message it completes. */
  function Collect(max: nat, s: State, c: byte): Trace {
    var next := Step(max, s, c);
    if ModeOf(max, next.acc) == Complete && |next.acc| >= 6 then Trace(Reset(next), [Finished(next)])
    else Trace(next, [])
  }

  /** A whole byte stream. */
  function Drive(max: nat, s: State, stream: seq<byte>): Trace
    decreases |stream|
  {
    if stream == [] then Trace(s, [])
    else
      var first := Collect(max, s, stream[0]);
      var rest := Drive(max, first.state, stream[1..]);
      Trace(rest.state, first.messages + rest.messages)
  }

  // ---------------------------------------------------------------- laws

  lemma StepValid(max: nat, s: State, c: byte)
    requires Valid(max, s)
    ensures Valid(max, Step(max, s, c))
  {
    TakeValid(max, s, c);
    TakeValid(max, s.(esc := false), c ^ 0x20);
  }

  lemma TakeValid(max: nat, s: State, c: byte)
    requires Valid(max, s)
    ensures Valid(max, Take(max, s, c))
  {
    var longer := s.acc + [c];
    assert |s.acc| >= 4 ==> longer[3] == s.acc[3];
  }

  lemma {:induction false} FeedConcat(max: nat, s: State, a: seq<byte>, b: seq<byte>)
    ensures Feed(max, s, a + b) == Feed(max, Feed(max, s, a), b)
    decreases |a|
  {
    if a == [] {
      Empty(b);
    } else {
      hide Step;
      PeelHead(a, b);
      FeedConcat(max, Step(max, s, a[0]), a[1..], b);
    }
  }

  /** The traces of two streams, one after the other. */
  function Then(first: Trace, second: Trace): Trace {
    Trace(second.state, first.messages + second.messages)
  }

  lemma ThenAssociative(a: Trace, b: Trace, c: Trace)
    ensures Then(Then(a, b), c) == Then(a, Then(b, c))
  {}

  lemma ThenUnit(s: State, t: Trace)
    ensures Then(Trace(s, []), t) == t && Then(t, Trace(t.state, [])) == t
  {}

  lemma ThenState(a: Trace, b: Trace)
    ensures Then(a, b).state == b.state
  {}

  lemma DriveHead(max: nat, s: State, c: byte, stream: seq<byte>)
    ensures Drive(max, s, [c] + stream) ==
            Then(Collect(max, s, c), Drive(max, Collect(max, s, c).state, stream))
  {
    hide Collect;
    assert ([c] + stream)[1..] == stream;
  }

  lemma DriveEmpty(max: nat, s: State)
    ensures Drive(max, s, []) == Trace(s, [])
  {}

  lemma {:induction false} DriveConcat(max: nat, s: State, a: seq<byte>, b: seq<byte>)
    ensures Drive(max, s, a + b) == Then(Drive(max, s, a), Drive(max, Drive(max, s, a).state, b))
    decreases |a|
  {
    if a == [] {
      Empty(b);
      ThenUnit(s, Drive(max, s, b));
    } else {
      hide Collect, Drive, Then;
      var first := Collect(max, s, a[0]);
      DriveConcat(max, first.state, a[1..], b);
      DriveHead(max, s, a[0], a[1..]);
      DriveHead(max, s, a[0], a[1..] + b);
      PeelHead(a, b);
      var middle := Drive(max, first.state, a[1..]);
      ThenAssociative(first, middle, Drive(max, middle.state, b));
      ThenState(first, middle);
    }
  }

  lemma {:induction false} DriveReady(max: nat, s: State, stream: seq<byte>)
    requires Ready(max, s)
    ensures Ready(max, Drive(max, s, stream).state)
    decreases |stream|
  {
    if stream != [] {
      StepValid(max, s, stream[0]);
      DriveReady(max, Collect(max, s, stream[0]).state, stream[1..]);
    }
  }

  /** The pieces in which a stream arrives. */
  function Join(chunks: seq<seq<byte>>): seq<byte> {
    if chunks == [] then [] else chunks[0] + Join(chunks[1..])
  }

  function DriveChunks(max: nat, s: State, chunks: seq<seq<byte>>): Trace
    decreases |chunks|
  {
    if chunks == [] then Trace(s, [])
    else
      var first := Drive(max, s, chunks[0]);
      Then(first, DriveChunks(max, first.state, chunks[1..]))
  }

  /** Only the concatenation of the chunks matters. */
  lemma {:induction false} ChunkingIrrelevant(max: nat, s: State, chunks: seq<seq<byte>>)
    ensures DriveChunks(max, s, chunks) == Drive(max, s, Join(chunks))
    decreases |chunks|
  {
    if chunks != [] {
      hide Drive, Then;
      DriveConcat(max, s, chunks[0], Join(chunks[1..]));
      ChunkingIrrelevant(max, Drive(max, s, chunks[0]).state, chunks[1..]);
    }
  }

  /** A call on a ready receiver reads at least one byte, and stops early only with a finished message. */
  lemma {:induction false} ReceiveProgress(max: nat, s: State, input: seq<byte>, read: nat)
    requires Ready(max, s)
    ensures var (after, count) := Receive(max, s, input, read);
            && read <= count <= read + |input|
            && (input != [] ==> read < count)
            && Valid(max, after)
            && (ModeOf(max, after.acc) != Complete ==> count == read + |input|)
    decreases |input|
  {
    if input == [] {
    } else {
      hide ModeOf, Step, Valid, Reset;
      StepValid(max, s, input[0]);
      var next := Step(max, s, input[0]);
      if ModeOf(max, next.acc) != Complete {
        ReceiveProgress(max, next, input[1..], read + 1);
      }
    }
  }

  /** A call on a finished receiver takes no byte of data: it reports 0, and the message stays. */
  lemma FinishedIsKept(max: nat, s: State, input: seq<byte>, read: nat)
    requires ModeOf(max, s.acc) == Complete && input != [] && input[0] != 0x7e && (s.esc || input[0] != 0x7d)
    ensures Receive(max, s, input, read) == (s.(esc := false), 0)
  {}

  /** And it is the driver on the bytes it reports. */
  lemma {:induction false} ReceiveIsDrive(max: nat, s: State, input: seq<byte>, read: nat)
    requires Ready(max, s)
    ensures var (after, count) := Receive(max, s, input, read);
            && read <= count <= read + |input|
            && (ModeOf(max, after.acc) == Complete ==> |after.acc| >= 6)
            && Drive(max, s, input[..count - read]) ==
               if ModeOf(max, after.acc) == Complete then Trace(Reset(after), [Finished(after)])
               else Trace(after, [])
    decreases |input|
  {
    ReceiveProgress(max, s, input, read);
    if input == [] {
      DriveEmpty(max, s);
    } else {
      hide ModeOf, Step, Valid, Reset, Finished, Drive, Then;
      StepValid(max, s, input[0]);
      var next := Step(max, s, input[0]);
      if ModeOf(max, next.acc) == Complete {
        CompleteLength(max, next);
        TakeHead(input, 1);
        Empty(input[1..][..0]);
        DriveHead(max, s, input[0], []);
        DriveEmpty(max, Reset(next));
        ThenUnit(Reset(next), Collect(max, s, input[0]));
      } else {
        ReceiveIsDrive(max, next, input[1..], read + 1);
        var n := Receive(max, s, input, read).1 - read;
        DriveHead(max, s, input[0], input[1..][..n - 1]);
        TakeHead(input, n);
        ThenUnit(next, Drive(max, next, input[1..][..n - 1]));
      }
    }
  }

  lemma CompleteLength(max: nat, s: State)
    requires Valid(max, s) && ModeOf(max, s.acc) == Complete
    ensures |s.acc| >= 6
  {}
}
