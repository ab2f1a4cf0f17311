/**
 What the link promises: encoded messages come out as they went in, whatever preceded them on the
 line; damaged frames do not come out; oversized ones are the exception the code makes.
 */
module RoundTrip {
  import opened Sequences
  import opened Types
  import Crc
  import opened CrcDetection
  import opened Framing
  import opened Receiver
  import opened Stream

  // ---------------------------------------------------------------- one frame on the line

  function OnTheLine(frame: seq<byte>): seq<byte> {
    [FLAG] + Escape(frame) + [FLAG]
  }

  /** Between two flags any byte string is cut, from whatever state the receiver was in. */
  lemma DriveFrame(max: nat, s: State, frame: seq<byte>)
    requires s.fails < COUNTER_RANGE
    ensures var cut := Cut(max, frame);
            Drive(max, s, OnTheLine(frame)) ==
            Trace(State([], false, (s.fails + cut.fails) % COUNTER_RANGE), cut.messages)
  {
    hide Cut, Escape, Drive, Then, Unescape, Dangling;
    var x := Escape(frame);
    EscapeShape(frame);
    UnescapeEscape(frame);
    DriveConcat(max, s, [FLAG] + x, [FLAG]);
    DriveConcat(max, s, [FLAG], x);
    DriveFlag(max, s);
    ThenUnit(Reset(s), Drive(max, Reset(s), x));
    SegmentTrace(max, s.fails, x);
    var after := After(max, frame, false, s.fails);
    DriveFlag(max, after.state);
    ThenState2(after, Reset(after.state));
  }

  /** A frame of exactly the announced length is cut off whole. */
  lemma CutWhole(max: nat, frame: seq<byte>)
    requires |frame| >= 6 && frame[3] as nat <= max && |frame| == 6 + frame[3] as nat
    ensures Cut(max, frame) == FirstFrame(max, frame)
  {
    hide FirstFrame, Cut;
    CutExact(max, frame);
  }

  lemma FrameBytes(m: Message)
    requires m.Valid()
    ensures var f := Frame(m);
            |f| == 6 + |m.payload| && f[3] == m.header.len && FromBody(f[..|f| - 2]) == m
  {
    var body := m.Body();
    assert Frame(m)[..|body|] == body && body[4..] == m.payload;
  }

  /** The residue of an undamaged frame is zero. */
  lemma FrameResidue(m: Message)
    ensures Crc.Checksum(Crc.INITIAL, Frame(m)) == 0
  {
    var body := m.Body();
    var crc := Crc.Checksum(Crc.INITIAL, body);
    CrcConcat(Crc.INITIAL, body, CrcBytes(crc));
    ResidueExact(crc, CrcBytes(crc)[0], CrcBytes(crc)[1]);
    assert [CrcBytes(crc)[0], CrcBytes(crc)[1]] == CrcBytes(crc);
  }

  lemma CutFrame(max: nat, m: Message)
    requires m.Valid() && |m.payload| <= max
    ensures Cut(max, Frame(m)) == Cuts([m], 0, [])
  {
    hide Frame, Cut;
    FrameBytes(m);
    FrameResidue(m);
    CutWhole(max, Frame(m));
    assert Frame(m)[..|Frame(m)|] == Frame(m);
  }

  // ---------------------------------------------------------------- round trip

  /** One encoded message, from any state: it is delivered, alone and unchanged. */
  lemma EncodeDelivers(max: nat, s: State, m: Message)
    requires m.Valid() && |m.payload| <= max && s.fails < COUNTER_RANGE
    ensures Drive(max, s, Encode(m)) == Trace(State([], false, s.fails), [m])
  {
    hide Drive, Frame, Cut;
    CutFrame(max, m);
    DriveFrame(max, s, Frame(m));
  }

  lemma {:induction false} EncodeAllDelivers(max: nat, s: State, ms: seq<Message>)
    requires Ready(max, s)
    requires forall m :: m in ms ==> m.Valid() && |m.payload| <= max
    ensures Drive(max, s, EncodeAll(ms)).messages == ms
    decreases |ms|
  {
    if ms == [] {
      DriveEmpty(max, s);
    } else {
      hide Drive, Encode;
      EncodeDelivers(max, s, ms[0]);
      DriveConcat(max, s, Encode(ms[0]), EncodeAll(ms[1..]));
      EncodeAllDelivers(max, State([], false, s.fails), ms[1..]);
      PeelHead(ms, []);
    }
  }

  /**
   Whatever was on the line before, in whatever pieces the bytes arrive: after it, exactly the
   messages that were sent, in order.
   */
  lemma RoundTripAfterNoise(max: nat, s: State, noise: seq<byte>, ms: seq<Message>, chunks: seq<seq<byte>>)
    requires Ready(max, s)
    requires forall m :: m in ms ==> m.Valid() && |m.payload| <= max
    requires Join(chunks) == noise + EncodeAll(ms)
    ensures DriveChunks(max, s, chunks).messages == Drive(max, s, noise).messages + ms
  {
    hide Drive, DriveChunks, Join;
    ChunkingIrrelevant(max, s, chunks);
    DriveConcat(max, s, noise, EncodeAll(ms));
    DriveReady(max, s, noise);
    EncodeAllDelivers(max, Drive(max, s, noise).state, ms);
  }

  /** Every state a receiver can be in between two calls is reached by some stream. */
  lemma EveryReadyStateIsReached(max: nat, s: State)
    requires Ready(max, s)
    ensures var stream := Escape(s.acc) + if s.esc then [ESC] else [];
            Drive(max, State([], false, s.fails), stream) == Trace(s, [])
  {
    var x := Escape(s.acc);
    EscapeShape(s.acc);
    UnescapeEscape(s.acc);
    NothingToCut(max, s);
    hide Ready, After, Drive, Escape, Unescape, Dangling;
    if s.esc {
      UnescapeAppend(x, ESC);
      SegmentTrace(max, s.fails, x + [ESC]);
    } else {
      Empty(x);
      SegmentTrace(max, s.fails, x);
    }
  }

  lemma NothingToCut(max: nat, s: State)
    requires Ready(max, s)
    ensures After(max, s.acc, s.esc, s.fails) == Trace(s, []) && s.fails < COUNTER_RANGE
  {}

  // ---------------------------------------------------------------- acceptance and damage

  /** Of all pairs of bytes that may follow a body, exactly the checksum completes the message. */
  lemma AcceptsOnlyTheChecksum(max: nat, s: State, x: byte, y: byte)
    requires Ready(max, s) && ModeOf(max, s.acc) == WaitFirstCrc && !s.esc
    ensures var next := Take(max, Take(max, s, x), y);
            if [x, y] == CrcBytes(Crc.Checksum(Crc.INITIAL, s.acc))
            then ModeOf(max, next.acc) == Complete && Finished(next) == FromBody(s.acc)
            else next == State([], false, if s.fails == 0xffff_ffff then 0 else s.fails + 1)
  {
    var longer, whole := s.acc + [x], s.acc + [x, y];
    TwoMore(s.acc, x, y);
    hide Crc.Checksum, CrcBytes;
    CrcConcat(Crc.INITIAL, s.acc, [x, y]);
    ResidueExact(Crc.Checksum(Crc.INITIAL, s.acc), x, y);
    assert Take(max, s, x) == s.(acc := longer) && ModeOf(max, longer) == WaitSecondCrc;
  }

  lemma TwoMore(s: seq<byte>, x: byte, y: byte)
    requires |s| >= 4
    ensures (s + [x]) + [y] == s + [x, y] && (s + [x, y])[..|s|] == s
    ensures (s + [x])[3] == s[3] && (s + [x, y])[3] == s[3]
  {}

  lemma {:induction false} FlipAt(s: seq<byte>, e: seq<byte>, i: nat)
    requires |s| == |e| && i < |s|
    ensures Flip(s, e)[i] == s[i] ^ e[i]
  {
    if i < |s| - 1 { FlipAt(s[..|s| - 1], e[..|s| - 1], i); }
  }

  lemma XorNothing(b: byte)
    ensures b ^ 0 == b
  {}

  /**
   A frame damaged by a burst of at most 16 bits, in an odd number of bits, or in two bits, is not
   delivered and is counted, as long as its length byte survives.
   */
  lemma DamageIsNoticed(max: nat, s: State, m: Message, e: seq<byte>)
    requires m.Valid() && |m.payload| <= max && s.fails < 0x1_0000_0000
    requires |e| == |Frame(m)| && e[3] == 0 && Noticed(e)
    ensures Drive(max, s, OnTheLine(Flip(Frame(m), e))) ==
            Trace(State([], false, if s.fails == 0xffff_ffff then 0 else s.fails + 1), [])
  {
    hide Drive, Cut, Noticed, Flip, Frame, OnTheLine;
    FrameBytes(m);
    FrameResidue(m);
    FlipAt(Frame(m), e, 3);
    XorNothing(Frame(m)[3]);
    CorruptionLeavesResidue(Frame(m), e);
    CutDamaged(max, Flip(Frame(m), e));
    DriveFrame(max, s, Flip(Frame(m), e));
  }

  lemma CutDamaged(max: nat, f: seq<byte>)
    requires |f| >= 6 && f[3] as nat <= max && |f| == 6 + f[3] as nat
    requires Crc.Checksum(Crc.INITIAL, f) != 0
    ensures Cut(max, f) == Cuts([], 1, [])
  {
    hide Cut;
    CutWhole(max, f);
    assert f[..|f|] == f;
  }

  /**
   After a bad checksum the receiver does not wait for a flag: a frame that follows at once is
   delivered, whatever the damage of the first one, as long as that has its announced length.
   */
  lemma BadFrameHidesNothing(max: nat, s: State, f: seq<byte>, m: Message)
    requires |f| >= 6 && f[3] as nat <= max && |f| == 6 + f[3] as nat && Crc.Checksum(Crc.INITIAL, f) != 0
    requires m.Valid() && |m.payload| <= max && s.fails < 0xffff_ffff
    ensures Drive(max, s, OnTheLine(f + Frame(m))) == Trace(State([], false, s.fails + 1), [m])
  {
    hide Drive, Cut, Frame, OnTheLine;
    CutDamaged(max, f);
    CutFrame(max, m);
    CutConcat(max, f, Frame(m));
    Empty(Frame(m));
    DriveFrame(max, s, f + Frame(m));
  }

  // ---------------------------------------------------------------- oversized messages

  /** A message too large for the receiver is not skipped: all but its first payload byte is cut again. */
  lemma OversizedIsCutAgain(max: nat, s: State, m: Message)
    requires m.Valid() && |m.payload| > max && s.fails < COUNTER_RANGE
    ensures Drive(max, s, Encode(m)).messages == Cut(max, Frame(m)[5..]).messages
  {
    hide Drive;
    FrameBytes(m);
    DriveFrame(max, s, Frame(m));
  }

  /** The promise that packets beyond the configured size are never received. */
  ghost predicate OversizedAreSilent(max: nat) {
    forall m: Message, s: State | m.Valid() && |m.payload| > max && Ready(max, s) ::
      Drive(max, s, Encode(m)).messages == []
  }

  function Smuggled(): Message {
    Message(Header(0, 0, 0, 0), [])
  }

  /** A payload that contains a frame of its own, one byte in. */
  function Carrier(): Message {
    Message(Header(0, 0, 0, 255), [0] + Frame(Smuggled()) + seq(248, i => 0))
  }

  function CarrierTail(): seq<byte> {
    seq(248, i => 0) + CrcBytes(Crc.Checksum(Crc.INITIAL, Carrier().Body()))
  }

  lemma CarrierLayout()
    ensures Carrier().Valid() && |Carrier().payload| == 255
    ensures Frame(Carrier())[5..] == Frame(Smuggled()) + CarrierTail()
  {
    hide Escape;
    FrameBytes(Smuggled());
    FrameBytes(Carrier());
  }

  lemma CarrierDelivers(max: nat, s: State)
    requires max < 255 && Ready(max, s)
    ensures Drive(max, s, Encode(Carrier())).messages != []
    ensures Carrier().Valid() && |Carrier().payload| > max
  {
    hide Cut, Drive, Frame, Carrier, CarrierTail, Encode;
    CarrierLayout();
    OversizedIsCutAgain(max, s, Carrier());
    CutFrame(max, Smuggled());
    CutConcat(max, Frame(Smuggled()), CarrierTail());
  }

  /** It holds of the code exactly when the length byte cannot exceed the configured size. */
  lemma OversizedAreSilentExactly(max: nat)
    ensures OversizedAreSilent(max) <==> max >= 255
  {
    if max < 255 {
      var s := State([], false, 0);
      CarrierDelivers(max, s);
      assert !OversizedAreSilent(max) by {
        assert Carrier().Valid() && Ready(max, s);
      }
    }
  }
}
