/**
 What a whole byte stream means, defined without a state machine: split it at the flags, undo the
 stuffing of each segment, cut the segment into frames. The receiver computes exactly this.
 */
module Stream {
  import opened Sequences
  import opened Types
  import Crc
  import opened CrcDetection
  import opened Framing
  import opened Receiver

  /** A segment cut into frames: the good messages, the number of bad checksums, the incomplete rest. */
  datatype Cuts = Cuts(messages: seq<Message>, fails: nat, rest: seq<byte>)

  /** Two cuts, one after the other. */
  function Plus(first: Cuts, second: Cuts): Cuts {
    Cuts(first.messages + second.messages, first.fails + second.fails, second.rest)
  }

  /** The bytes taken by the frame that starts here: an oversized length skips the header and one byte. */
  function FrameSize(max: nat, u: seq<byte>): (size: nat)
    requires |u| >= 4
    ensures 5 <= size <= 261
  {
    var len := u[3] as nat;
    if len > max then 5 else 4 + len + 2
  }

  predicate HoldsFrame(max: nat, u: seq<byte>) {
    |u| >= 4 && |u| >= FrameSize(max, u)
  }

  /** One frame: delivered when its residue is zero, dropped silently when oversized, else a failure. */
  function FirstFrame(max: nat, u: seq<byte>): Cuts
    requires HoldsFrame(max, u)
  {
    var size := FrameSize(max, u);
    if u[3] as nat > max then Cuts([], 0, [])
    else if Crc.Checksum(Crc.INITIAL, u[..size]) == 0 then Cuts([FromBody(u[..size - 2])], 0, [])
    else Cuts([], 1, [])
  }

  /** Frames follow each other without a separator. */
  function Cut(max: nat, u: seq<byte>): Cuts
    decreases |u|
  {
    if HoldsFrame(max, u) then Plus(FirstFrame(max, u), Cut(max, u[FrameSize(max, u)..]))
    else Cuts([], 0, u)
  }

  /** The stretches between flags; always at least one. */
  function Segments(stream: seq<byte>): (segments: seq<seq<byte>>)
    ensures |segments| > 0
  {
    if stream == [] then [[]]
    else
      var n := |stream| - 1;
      var before := Segments(stream[..n]);
      if stream[n] == FLAG then before + [[]]
      else before[..|before| - 1] + [before[|before| - 1] + [stream[n]]]
  }

  /** The messages and the failures of all segments. */
  function Messages(max: nat, segments: seq<seq<byte>>): seq<Message> {
    if segments == [] then []
    else
      var n := |segments| - 1;
      Messages(max, segments[..n]) + Cut(max, Unescape(segments[n])).messages
  }

  function Failures(max: nat, segments: seq<seq<byte>>): nat {
    if segments == [] then 0
    else
      var n := |segments| - 1;
      Failures(max, segments[..n]) + Cut(max, Unescape(segments[n])).fails
  }

  // ---------------------------------------------------------------- cutting

  lemma PlusLaws(a: Cuts, b: Cuts, c: Cuts)
    ensures Plus(Plus(a, b), c) == Plus(a, Plus(b, c))
    ensures Plus(Cuts([], 0, []), a) == a
  {}

  lemma FirstFrameExtends(max: nat, u: seq<byte>, v: seq<byte>)
    requires HoldsFrame(max, u)
    ensures HoldsFrame(max, u + v) && FrameSize(max, u + v) == FrameSize(max, u)
    ensures FirstFrame(max, u + v) == FirstFrame(max, u)
  {
    var size := FrameSize(max, u);
    assert (u + v)[3] == u[3];
    assert (u + v)[..size] == u[..size] && (u + v)[..size - 2] == u[..size - 2];
  }

  /** What is left over is a proper beginning of a frame. */
  lemma {:induction false} CutRest(max: nat, u: seq<byte>)
    ensures !HoldsFrame(max, Cut(max, u).rest)
    decreases |u|
  {
    if HoldsFrame(max, u) {
      CutRest(max, u[FrameSize(max, u)..]);
    }
  }

  /** Cutting goes on where it stopped. */
  lemma {:induction false} CutConcat(max: nat, u: seq<byte>, v: seq<byte>)
    ensures Cut(max, u + v) == Plus(Cut(max, u), Cut(max, Cut(max, u).rest + v))
    decreases |u|
  {
    if HoldsFrame(max, u) {
      var size := FrameSize(max, u);
      var tail := u[size..];
      FirstFrameExtends(max, u, v);
      CutConcat(max, tail, v);
      hide FirstFrame, HoldsFrame, Plus, FrameSize;
      assert (u + v)[size..] == tail + v;
      PlusLaws(FirstFrame(max, u), Cut(max, tail), Cut(max, Cut(max, tail).rest + v));
      assert Cut(max, u + v) == Plus(FirstFrame(max, u), Cut(max, tail + v));
      assert Cut(max, u) == Plus(FirstFrame(max, u), Cut(max, tail));
      assert Cut(max, u).rest == Cut(max, tail).rest by { PlusRest(FirstFrame(max, u), Cut(max, tail)); }
    } else {
      PlusLaws(Cut(max, u + v), Cut(max, u), Cut(max, u));
    }
  }

  lemma PlusRest(a: Cuts, b: Cuts)
    ensures Plus(a, b).rest == b.rest
  {}

  /** The state of a receiver that decoded u since the last flag. */
  function After(max: nat, u: seq<byte>, esc: bool, fails: nat): Trace {
    FromCuts(Cut(max, u), esc, fails)
  }

  function FromCuts(cut: Cuts, esc: bool, fails: nat): Trace {
    Trace(State(cut.rest, esc, (fails + cut.fails) % COUNTER_RANGE), cut.messages)
  }

  lemma FromPlus(a: Cuts, b: Cuts, esc: bool, fails: nat)
    ensures FromCuts(Plus(a, b), esc, fails)
         == Then(FromCuts(a, esc, fails), FromCuts(b, esc, (fails + a.fails) % COUNTER_RANGE))
  {
    AddAround(fails, a.fails, b.fails);
  }

  /** One decoded byte, collecting what it completes. */
  function CollectDecoded(max: nat, s: State, c: byte): Trace {
    var next := Take(max, s, c);
    if ModeOf(max, next.acc) == Complete && |next.acc| >= 6 then Trace(Reset(next), [Finished(next)])
    else Trace(next, [])
  }

  /** It moves the receiver exactly as it extends the cut. */
  lemma CollectIsCut(max: nat, s: State, c: byte)
    requires !HoldsFrame(max, s.acc) && !s.esc && s.fails < COUNTER_RANGE
    ensures CollectDecoded(max, s, c) == After(max, s.acc + [c], false, s.fails)
  {
    hide HoldsFrame, FirstFrame, CollectDecoded;
    var longer := s.acc + [c];
    if HoldsFrame(max, longer) {
      LastByte(max, s, c);
      CutExact(max, longer);
    } else {
      InnerByte(max, s, c);
    }
  }

  lemma CutExact(max: nat, u: seq<byte>)
    requires HoldsFrame(max, u) && |u| == FrameSize(max, u)
    ensures Cut(max, u) == FirstFrame(max, u) && FirstFrame(max, u).rest == []
  {
    assert u[|u|..] == [] && !HoldsFrame(max, []);
    assert Cut(max, []) == Cuts([], 0, []);
  }

  lemma InnerByte(max: nat, s: State, c: byte)
    requires !HoldsFrame(max, s.acc) && !HoldsFrame(max, s.acc + [c]) && !s.esc
    ensures CollectDecoded(max, s, c) == Trace(s.(acc := s.acc + [c]), [])
  {
    assert |s.acc| >= 4 ==> (s.acc + [c])[3] == s.acc[3];
  }

  lemma LastByte(max: nat, s: State, c: byte)
    requires !HoldsFrame(max, s.acc) && !s.esc && s.fails < COUNTER_RANGE
    requires HoldsFrame(max, s.acc + [c])
    ensures |s.acc + [c]| == FrameSize(max, s.acc + [c])
    ensures var longer := s.acc + [c];
            CollectDecoded(max, s, c) ==
            Trace(State([], false, (s.fails + FirstFrame(max, longer).fails) % COUNTER_RANGE),
                  FirstFrame(max, longer).messages)
  {
    var longer := s.acc + [c];
    assert |s.acc| >= 4 ==> longer[3] == s.acc[3];
    assert |longer| == FrameSize(max, longer) && longer[..|longer|] == longer;
  }

  lemma AddAround(a: nat, b: nat, c: nat)
    ensures ((a + b) % COUNTER_RANGE + c) % COUNTER_RANGE == (a + b + c) % COUNTER_RANGE
  {}

  lemma AfterAppend(max: nat, u: seq<byte>, d: byte, fails: nat)
    ensures var before := After(max, u, false, fails);
            After(max, u + [d], false, fails) == Then(before, CollectDecoded(max, before.state, d))
  {
    var before := After(max, u, false, fails);
    hide Cut, CollectDecoded, Plus, Then, HoldsFrame;
    CutRest(max, u);
    CollectIsCut(max, before.state, d);
    CutConcat(max, u, [d]);
    hide FromCuts;
    FromPlus(Cut(max, u), Cut(max, before.state.acc + [d]), false, fails);
  }

  /** What one byte off the line means to a receiver that is between two messages. */
  lemma CollectByKind(max: nat, s: State, c: byte)
    requires !HoldsFrame(max, s.acc) && c != FLAG
    ensures Collect(max, s, c) ==
            if s.esc then CollectDecoded(max, s.(esc := false), c ^ 0x20)
            else if c == ESC then Trace(s.(esc := true), [])
            else CollectDecoded(max, s, c)
  {
    hide Take;
  }

  lemma DriveLast(max: nat, s: State, stream: seq<byte>, c: byte)
    ensures var before := Drive(max, s, stream);
            Drive(max, s, stream + [c]) == Then(before, Collect(max, before.state, c))
  {
    hide Collect;
    DriveConcat(max, s, stream, [c]);
    var t := Drive(max, s, stream).state;
    DriveHead(max, t, c, []);
    assert [c] + [] == [c];
    assert Then(Collect(max, t, c), Trace(Collect(max, t, c).state, [])) == Collect(max, t, c);
  }

  /** From a reset receiver, a stretch without flags is unstuffed and cut. */
  lemma {:induction false} SegmentTrace(max: nat, fails: nat, x: seq<byte>)
    requires fails < COUNTER_RANGE && FLAG !in x
    ensures Drive(max, State([], false, fails), x) == After(max, Unescape(x), Dangling(x), fails)
    decreases |x|
  {
    if x == [] {
      assert Cut(max, []) == Cuts([], 0, []);
    } else {
      var n := |x| - 1;
      var y, c := x[..n], x[n];
      PeelLast([], x);
      SegmentTrace(max, fails, y);
      SegmentStep(max, fails, y, c);
    }
  }

  lemma SegmentStep(max: nat, fails: nat, y: seq<byte>, c: byte)
    requires fails < COUNTER_RANGE && c != FLAG
    requires Drive(max, State([], false, fails), y) == After(max, Unescape(y), Dangling(y), fails)
    ensures Drive(max, State([], false, fails), y + [c]) == After(max, Unescape(y + [c]), Dangling(y + [c]), fails)
  {
    hide Collect, CollectDecoded, Cut, Drive, Unescape, Dangling, Then, HoldsFrame;
    DriveLast(max, State([], false, fails), y, c);
    UnescapeAppend(y, c);
    var u := Unescape(y);
    var before := After(max, u, Dangling(y), fails);
    CutRest(max, u);
    CollectByKind(max, before.state, c);
    if Dangling(y) {
      AfterAppend(max, u, c ^ 0x20, fails);
      ThenMessages(before, After(max, u, false, fails), CollectDecoded(max, before.state.(esc := false), c ^ 0x20));
    } else if c == ESC {
      ThenState2(before, before.state.(esc := true));
    } else {
      AfterAppend(max, u, c, fails);
    }
  }

  lemma ThenMessages(a: Trace, b: Trace, t: Trace)
    requires a.messages == b.messages
    ensures Then(a, t) == Then(b, t)
  {}

  lemma ThenState2(a: Trace, s: State)
    ensures Then(a, Trace(s, [])) == Trace(s, a.messages)
  {}

  /** A flag throws away whatever is incomplete. */
  lemma DriveFlag(max: nat, s: State)
    ensures Drive(max, s, [FLAG]) == Trace(Reset(s), [])
  {
    assert [FLAG] == [FLAG] + [];
    DriveHead(max, s, FLAG, []);
    assert Collect(max, s, FLAG) == Trace(Reset(s), []);
  }

  /** The meaning of a whole stream from a reset receiver. */
  function Meaning(max: nat, fails: nat, stream: seq<byte>): Trace {
    var segments := Segments(stream);
    var last := segments[|segments| - 1];
    Trace(State(Cut(max, Unescape(last)).rest, Dangling(last), (fails + Failures(max, segments)) % COUNTER_RANGE),
          Messages(max, segments))
  }

  /** Every stream is a stream ending in a flag, or none, followed by a stretch without flags. */
  lemma {:induction false} SegmentsOf(stream: seq<byte>, x: seq<byte>)
    requires FLAG !in x
    ensures var segments := Segments(stream + [FLAG]);
            Segments(stream + [FLAG] + x) == segments[..|segments| - 1] + [x]
    ensures Segments(x) == [x]
    ensures Segments(stream + [FLAG]) == Segments(stream) + [[]]
    decreases |x|
  {
    assert (stream + [FLAG])[..|stream|] == stream;
    if x == [] {
      assert stream + [FLAG] + x == stream + [FLAG];
    } else {
      var n := |x| - 1;
      SegmentsOf(stream, x[..n]);
      assert (stream + [FLAG] + x)[..|stream| + 1 + n] == stream + [FLAG] + x[..n];
      assert x[..n] + [x[n]] == x;
    }
  }

  lemma SplitAt(stream: seq<byte>, p: nat)
    requires p < |stream|
    ensures stream == stream[..p] + [stream[p]] + stream[p + 1..]
  {}

  /** The receiver with its driver computes the meaning of the stream, for every stream. */
  lemma {:induction false} DriveIsMeaning(max: nat, fails: nat, stream: seq<byte>)
    requires fails < COUNTER_RANGE
    ensures Drive(max, State([], false, fails), stream) == Meaning(max, fails, stream)
    ensures fails + Failures(max, Segments(stream)) < 0x1_0000_0000 ==>
              Drive(max, State([], false, fails), stream).state.fails == fails + Failures(max, Segments(stream))
    decreases |stream|
  {
    hide Meaning, Drive;
    if fails + Failures(max, Segments(stream)) < 0x1_0000_0000 { FailuresCounted(max, fails, stream); }
    if FLAG !in stream {
      MeaningOfSegment(max, fails, stream);
    } else {
      var p := LastFlag(stream);
      SplitAt(stream, p);
      DriveIsMeaning(max, fails, stream[..p]);
      MeaningOfTail(max, fails, stream[..p], stream[p + 1..]);
    }
  }

  lemma FailuresCounted(max: nat, fails: nat, stream: seq<byte>)
    requires fails + Failures(max, Segments(stream)) < 0x1_0000_0000
    ensures Meaning(max, fails, stream).state.fails == fails + Failures(max, Segments(stream))
  {
    hide Failures, Segments, Cut, Messages;
  }

  lemma MeaningOfSegment(max: nat, fails: nat, x: seq<byte>)
    requires fails < COUNTER_RANGE && FLAG !in x
    ensures Drive(max, State([], false, fails), x) == Meaning(max, fails, x)
  {
    hide Drive, Cut, Unescape, Dangling;
    SegmentTrace(max, fails, x);
    SegmentsOf([], x);
    LoneSegment(max, x);
  }

  lemma LoneSegment(max: nat, x: seq<byte>)
    ensures Messages(max, [x]) == Cut(max, Unescape(x)).messages && Failures(max, [x]) == Cut(max, Unescape(x)).fails
  {
    hide Cut, Unescape;
    assert [x][..0] == [];
  }

  function LastFlag(stream: seq<byte>): (p: nat)
    requires FLAG in stream
    ensures p < |stream| && stream[p] == FLAG && FLAG !in stream[p + 1..]
  {
    var n := |stream| - 1;
    if stream[n] == FLAG then n else
      assert stream == stream[..n] + [stream[n]];
      LastFlag(stream[..n])
  }

  lemma MeaningOfTail(max: nat, fails: nat, before: seq<byte>, x: seq<byte>)
    requires fails < COUNTER_RANGE && FLAG !in x
    requires Drive(max, State([], false, fails), before) == Meaning(max, fails, before)
    ensures Drive(max, State([], false, fails), before + [FLAG] + x) == Meaning(max, fails, before + [FLAG] + x)
  {
    hide Drive, Cut, Unescape, Dangling, Segments;
    var start := State([], false, fails);
    var t := Meaning(max, fails, before);
    DriveConcat(max, start, before + [FLAG], x);
    DriveConcat(max, start, before, [FLAG]);
    DriveFlag(max, t.state);
    SegmentTrace(max, t.state.fails, x);
    SegmentsOf(before, x);
    var earlier := Segments(before);
    var segments := earlier + [x];
    assert (earlier + [[]])[..|earlier|] == earlier && segments[..|earlier|] == earlier;
    AddAround(fails, Failures(max, earlier), Cut(max, Unescape(x)).fails);
  }
}
