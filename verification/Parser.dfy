/**
 The incremental parser: two fixed buffers, two write positions, a running checksum. It is the
 receiver of module Receiver, for every byte it is given.
 */
module Parser {
  import opened Sequences
  import opened Types
  import Crc
  import opened CrcDetection
  import opened Receiver

  /** The parser's memory as a value. */
  datatype Memory = Memory(raw: seq<byte>, headerPos: nat, data: seq<byte>, dataPos: nat, crc: bv16, mode: Mode)

  /** How many payload bytes are among the decoded ones. */
  function PayloadSoFar(acc: seq<byte>): (n: nat)
    ensures |acc| >= 4 ==> 4 + n <= |acc|
  {
    if |acc| <= 4 then 0
    else
      var len := acc[3] as nat;
      if |acc| - 4 < len then |acc| - 4 else len
  }

  /**
   The run invariant: both write positions stay inside their buffers, the buffers hold what was
   decoded since the last reset, the running checksum is that of exactly these bytes, and the mode
   is the one they call for.
   */
  ghost predicate Holds(m: Memory, acc: seq<byte>) {
    && |m.raw| == 4
    && m.headerPos == (if |acc| < 4 then |acc| else 4)
    && m.raw[..m.headerPos] == acc[..m.headerPos]
    && m.dataPos == PayloadSoFar(acc) <= |m.data|
    && (|acc| >= 4 ==> m.data[..m.dataPos] == acc[4..4 + m.dataPos])
    && m.crc == Crc.Checksum(Crc.INITIAL, acc)
    && m.mode == ModeOf(|m.data|, acc)
  }

  class Parser {
    /** The decoded header. */
    const raw: array<byte>
    /** The decoded payload; its length is the largest payload accepted. */
    const data: array<byte>
    var headerPos: nat
    var dataPos: nat
    var crc: bv16
    var lastWasEsc: bool
    var mode: Mode
    var crcFails: nat
    /** The bytes decoded since the last reset. */
    ghost var acc: seq<byte>

    constructor (max: nat)
      requires max <= 255
      ensures Valid() && data.Length == max && fresh(raw) && fresh(data)
      ensures Abstract() == State([], false, 0)
    {
      raw := new byte[4];
      data := new byte[max];
      headerPos, dataPos, crc, lastWasEsc, mode, crcFails := 0, 0, Crc.INITIAL, false, WaitHeader, 0;
      acc := [];
    }

    ghost predicate Valid()
      reads this, raw, data
    {
      && raw != data
      && Receiver.Valid(data.Length, Abstract())
      && Holds(Contents(), acc)
    }

    ghost function Contents(): Memory
      reads this, raw, data
    {
      Memory(raw[..], headerPos, data[..], dataPos, crc, mode)
    }

    ghost function Abstract(): State
      reads this
    {
      State(acc, lastWasEsc, crcFails)
    }

    /** Back to the beginning; the state need not be consistent before. */
    method DestroyPacket()
      requires raw.Length == 4 && raw != data && crcFails < COUNTER_RANGE
      modifies this
      ensures Valid() && !HasPacket()
      ensures Abstract() == Reset(old(Abstract()))
    {
      mode := WaitHeader;
      crc := Crc.INITIAL;
      headerPos := 0;
      dataPos := 0;
      lastWasEsc := false;
      acc := [];
    }

    /** A decoded byte while the header is incomplete. */
    method TakeHeader(c: byte)
      requires Valid() && mode == WaitHeader && !lastWasEsc
      modifies this, raw
      ensures Valid() && Abstract() == Take(data.Length, old(Abstract()), c)
    {
      HeaderGrows(Contents(), acc, c);
      TakeGrows(data.Length, Abstract(), c);
      hide Holds, Take, ModeOf, Receiver.Valid, Crc.ByteStep;
      raw[headerPos] := c;
      headerPos := headerPos + 1;
      var next := Crc.Update(crc, c);
      crc := next;
      acc := acc + [c];
      if headerPos == 4 {
        if raw[3] as nat > data.Length {
          mode := Error;
        } else if raw[3] == 0 {
          mode := WaitFirstCrc;
        } else {
          mode := WaitData;
        }
      }
    }

    /** A decoded byte of the payload. */
    method TakeData(c: byte)
      requires Valid() && mode == WaitData && !lastWasEsc
      modifies this, data
      ensures Valid() && Abstract() == Take(data.Length, old(Abstract()), c)
    {
      DataGrows(Contents(), acc, c);
      TakeGrows(data.Length, Abstract(), c);
      hide Holds, Take, ModeOf, Receiver.Valid, Crc.ByteStep;
      data[dataPos] := c;
      dataPos := dataPos + 1;
      var next := Crc.Update(crc, c);
      crc := next;
      acc := acc + [c];
      if dataPos == raw[3] as nat {
        mode := WaitFirstCrc;
      }
    }

    method TakeFirstCrc(c: byte)
      requires Valid() && mode == WaitFirstCrc && !lastWasEsc
      modifies this
      ensures Valid() && Abstract() == Take(data.Length, old(Abstract()), c)
    {
      SealGrows(Contents(), acc, c);
      TakeGrows(data.Length, Abstract(), c);
      hide Holds, Take, ModeOf, Receiver.Valid, Crc.ByteStep;
      var next := Crc.Update(crc, c);
      crc := next;
      acc := acc + [c];
      mode := WaitSecondCrc;
    }

    method TakeSecondCrc(c: byte)
      requires Valid() && mode == WaitSecondCrc && !lastWasEsc
      modifies this
      ensures Valid() && Abstract() == Take(data.Length, old(Abstract()), c)
    {
      SealGrows(Contents(), acc, c);
      TakeDecides(data.Length, Abstract(), c);
      hide Take, ModeOf, Holds, Receiver.Valid, Crc.ByteStep;
      var next := Crc.Update(crc, c);
      crc := next;
      acc := acc + [c];
      mode := Complete;
      if crc != 0 {
        crcFails := (crcFails + 1) % COUNTER_RANGE;
        DestroyPacket();
      }
    }

    /** The switch over the modes, for one decoded byte. */
    method TakeByte(c: byte)
      requires Valid() && mode != Complete && !lastWasEsc
      modifies this, raw, data
      ensures Valid() && Abstract() == Take(data.Length, old(Abstract()), c)
    {
      match mode
      case WaitHeader => TakeHeader(c);
      case WaitData => TakeData(c);
      case WaitFirstCrc => TakeFirstCrc(c);
      case WaitSecondCrc => TakeSecondCrc(c);
      case Error => DestroyPacket();
    }

    /** One byte off the line: whether it decoded to something, and whether that was refused. */
    method ReceiveByte(c: byte) returns (decoded: bool, blocked: bool)
      requires Valid()
      modifies this, raw, data
      ensures Valid() && Abstract() == Step(data.Length, old(Abstract()), c)
      ensures decoded == (c != FLAG && (old(lastWasEsc) || c != ESC))
      ensures blocked == (decoded && old(mode) == Complete)
    {
      hide Take, ModeOf;
      decoded, blocked := false, false;
      if c == FLAG {
        DestroyPacket();
        return;
      }
      var d := c;
      if lastWasEsc {
        lastWasEsc := false;
        d := c ^ 0x20;
      } else if c == ESC {
        lastWasEsc := true;
        return;
      }
      decoded, blocked := true, mode == Complete;
      if blocked {
        TakeBlocked(data.Length, Abstract(), d);
      } else {
        TakeByte(d);
      }
    }

    /**
     Takes bytes until the buffer is empty or a message is finished; reports how many, or 0 when an
     uncollected message is in the way.
     */
    method Receive(input: seq<byte>) returns (read: nat)
      requires Valid()
      modifies this, raw, data
      ensures Valid()
      ensures (Abstract(), read) == Receiver.Receive(data.Length, old(Abstract()), input, 0)
    {
      hide Step, Receiver.Receive, Receiver.Valid, ModeOf;
      read := 0;
      ghost var start := Abstract();
      assert input[0..] == input;
      while read < |input|
        invariant 0 <= read <= |input|
        invariant Valid()
        invariant Receiver.Receive(data.Length, Abstract(), input[read..], read)
               == Receiver.Receive(data.Length, start, input, 0)
      {
        var c := input[read];
        ModeIsAbstract();
        ReceiveStep(data.Length, Abstract(), input[read..], read);
        Suffix(input, read);
        read := read + 1;
        var decoded, blocked := ReceiveByte(c);
        ModeIsAbstract();
        if blocked {
          return 0;
        }
        if decoded && mode == Complete {
          return;
        }
      }
      assert input[read..] == [];
      ReceiveNothing(data.Length, Abstract(), read);
    }

    lemma ModeIsAbstract()
      requires Valid()
      ensures mode == ModeOf(data.Length, Abstract().acc)
    {}

    predicate HasPacket()
      reads this
    {
      mode == Complete
    }

    /** The header and payload of the finished message. */
    method GetPacket() returns (m: Message)
      requires Valid() && HasPacket()
      ensures Abstract().acc != [] && |acc| >= 6 && m == Finished(Abstract()) && m.Valid()
    {
      m := Message(Header(raw[0], raw[1], raw[2], raw[3]), data[..dataPos]);
      FinishedIsStored(Contents(), Abstract());
    }
  }

  /** The mode behind a complete header. */
  function AfterHeader(max: nat, len: byte): Mode {
    if len as nat > max then Error else if len == 0 then WaitFirstCrc else WaitData
  }

  lemma HeaderGrows(m: Memory, acc: seq<byte>, c: byte)
    requires Holds(m, acc) && m.mode == WaitHeader
    ensures m.headerPos < |m.raw| == 4
    ensures var raw := m.raw[m.headerPos := c];
            var mode := if m.headerPos == 3 then AfterHeader(|m.data|, raw[3]) else WaitHeader;
            Holds(Memory(raw, m.headerPos + 1, m.data, m.dataPos, Crc.ByteStep(m.crc, c), mode), acc + [c])
  {
    hide Crc.Checksum, Crc.ByteStep;
    CrcAppend(Crc.INITIAL, acc, c);
  }

  /** Outside the two deciding modes a decoded byte is just added. */
  lemma TakeGrows(max: nat, s: State, c: byte)
    requires Receiver.Valid(max, s)
    requires ModeOf(max, s.acc) in {WaitHeader, WaitData, WaitFirstCrc}
    ensures Take(max, s, c) == s.(acc := s.acc + [c]) && Receiver.Valid(max, Take(max, s, c))
  {
    TakeValid(max, s, c);
  }

  lemma DataGrows(m: Memory, acc: seq<byte>, c: byte)
    requires Holds(m, acc) && m.mode == WaitData
    ensures m.dataPos < |m.data| && |m.raw| == 4
    ensures var data := m.data[m.dataPos := c];
            var mode := if m.dataPos + 1 == m.raw[3] as nat then WaitFirstCrc else WaitData;
            Holds(Memory(m.raw, m.headerPos, data, m.dataPos + 1, Crc.ByteStep(m.crc, c), mode), acc + [c])
  {
    hide Crc.Checksum, Crc.ByteStep;
    CrcAppend(Crc.INITIAL, acc, c);
    HeaderLength(m, acc);
    SlicesGrow(m.data, acc, m.dataPos, c);
  }

  /** Behind a complete header the length is known. */
  lemma HeaderLength(m: Memory, acc: seq<byte>)
    requires Holds(m, acc) && |acc| >= 4
    ensures m.raw == acc[..4] && m.raw[3] == acc[3]
    ensures m.mode == WaitData ==> |acc| == 4 + m.dataPos && m.dataPos < acc[3] as nat <= |m.data|
  {
    hide Crc.Checksum;
    assert m.raw == m.raw[..4];
  }

  lemma SlicesGrow(data: seq<byte>, acc: seq<byte>, n: nat, c: byte)
    requires n < |data| && |acc| == 4 + n
    ensures data[n := c][..n + 1] == data[..n] + [c]
    ensures (acc + [c])[4..4 + n + 1] == acc[4..4 + n] + [c]
    ensures (acc + [c])[..4] == acc[..4] && (acc + [c])[3] == acc[3]
  {}

  lemma SealGrows(m: Memory, acc: seq<byte>, c: byte)
    requires Holds(m, acc) && (m.mode == WaitFirstCrc || m.mode == WaitSecondCrc)
    ensures var mode := if m.mode == WaitFirstCrc then WaitSecondCrc else Complete;
            Holds(m.(crc := Crc.ByteStep(m.crc, c), mode := mode), acc + [c])
  {
    hide Crc.Checksum, Crc.ByteStep;
    CrcAppend(Crc.INITIAL, acc, c);
    assert (acc + [c])[4..4 + m.dataPos] == acc[4..4 + m.dataPos];
    assert (acc + [c])[..4] == acc[..4];
  }

  /** The second checksum byte decides. */
  lemma TakeDecides(max: nat, s: State, c: byte)
    requires Receiver.Valid(max, s) && ModeOf(max, s.acc) == WaitSecondCrc && !s.esc
    ensures var longer := s.(acc := s.acc + [c]);
            var failed := s.(fails := (s.fails + 1) % COUNTER_RANGE);
            if Crc.Checksum(Crc.INITIAL, longer.acc) == 0
            then Take(max, s, c) == longer && Receiver.Valid(max, longer)
            else Take(max, s, c) == Reset(failed) && Receiver.Valid(max, Reset(failed))
  {
    TakeValid(max, s, c);
  }

  /** One turn of the receive loop. */
  lemma ReceiveStep(max: nat, s: State, input: seq<byte>, read: nat)
    requires input != []
    ensures var c := input[0];
            var next := Step(max, s, c);
            var decoded := c != FLAG && (s.esc || c != ESC);
            Receiver.Receive(max, s, input, read) ==
            if decoded && ModeOf(max, s.acc) == Complete then (next, 0)
            else if decoded && ModeOf(max, next.acc) == Complete then (next, read + 1)
            else Receiver.Receive(max, next, input[1..], read + 1)
  {}

  lemma FinishedIsStored(m: Memory, s: State)
    requires Holds(m, s.acc) && m.mode == Complete && Receiver.Valid(|m.data|, s)
    ensures |s.acc| >= 6 && |m.raw| == 4 && m.dataPos <= |m.data|
    ensures Finished(s) == Message(Header(m.raw[0], m.raw[1], m.raw[2], m.raw[3]), m.data[..m.dataPos])
    ensures Finished(s).Valid()
  {
    var body := s.acc[..|s.acc| - 2];
    assert m.raw == m.raw[..4] == s.acc[..4];
    assert body[4..] == s.acc[4..4 + m.dataPos];
  }

  lemma Suffix(input: seq<byte>, n: nat)
    requires n < |input|
    ensures input[n..] != [] && input[n..][0] == input[n] && input[n..][1..] == input[n + 1..]
  {}

  lemma ReceiveNothing(max: nat, s: State, read: nat)
    ensures Receiver.Receive(max, s, [], read) == (s, read)
  {}

  lemma TakeBlocked(max: nat, s: State, c: byte)
    requires ModeOf(max, s.acc) == Complete
    ensures Take(max, s, c) == s
  {}
}
