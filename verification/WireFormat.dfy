/** The wire format in literals: the start value of the checksum, the stuffing, whole frames. */
module WireFormat {
  import opened Sequences
  import opened Types
  import opened Crc
  import opened CrcDetection
  import opened Framing

  // ---------------------------------------------------------------- the start value

  /** The start value inverts the first two bytes. */
  lemma StartValue(a: byte, b: byte, t: seq<byte>)
    ensures Checksum(INITIAL, [a, b] + t) == Checksum(0, [a ^ 0xff, b ^ 0xff] + t)
  {
    TwoSteps(INITIAL, a, b);
    TwoSteps(0, a ^ 0xff, b ^ 0xff);
    StartCancels(a, b);
    CrcConcat(INITIAL, [a, b], t);
    CrcConcat(0, [a ^ 0xff, b ^ 0xff], t);
  }

  lemma TwoSteps(crc: bv16, a: byte, b: byte)
    ensures Checksum(crc, [a, b]) == Shift8(Xor(Shift8(Xor(crc, a as bv16)), b as bv16))
  {
    hide ByteStep, Shift8, Xor;
    assert [a, b] == [a] + [b] && [a] == [] + [a];
    CrcAppend(crc, [], a);
    CrcAppend(crc, [a], b);
    ByteStepIsShift8(crc, a);
    ByteStepIsShift8(ByteStep(crc, a), b);
  }

  lemma StartCancels(a: byte, b: byte)
    ensures Shift8(Xor(Shift8(Xor(0xffff, a as bv16)), b as bv16)) ==
            Shift8(Xor(Shift8(Xor(0, (a ^ 0xff) as bv16)), (b ^ 0xff) as bv16))
  {
    LowHalf(a);
    UpperHalf();
    hide Xor, Shift8;
    ShiftsLinear(8, 0xff00, (a ^ 0xff) as bv16);
    ShiftsEight(0xff00);
    ShiftsEight((a ^ 0xff) as bv16);
    ShiftsEight(Xor(0xff00, (a ^ 0xff) as bv16));
    XorInverts(Shift8((a ^ 0xff) as bv16), b);
  }

  lemma LowHalf(a: byte)
    ensures Xor(0xffff, a as bv16) == Xor(0xff00, (a ^ 0xff) as bv16)
    ensures Xor(0, (a ^ 0xff) as bv16) == (a ^ 0xff) as bv16
  {}

  lemma UpperHalf()
    ensures Shift8(0xff00) == 0x00ff
  {}

  lemma XorInverts(v: bv16, b: byte)
    ensures Xor(Xor(0x00ff, v), b as bv16) == Xor(v, (b ^ 0xff) as bv16)
  {}

  // ---------------------------------------------------------------- stuffing

  /** What stuffing does to a byte at the beginning of a string; so what it does to every byte. */
  lemma StuffingByByte(b: byte, t: seq<byte>)
    ensures Escape([]) == []
    ensures Escape([b] + t) ==
            (if b == 0x7d then [0x7d, 0x5d] else if b == 0x7e then [0x7d, 0x5e] else [b]) + Escape(t)
  {
    EscapeConcat([b], t);
    assert [b][..0] == [];
    assert Escape([b]) == EscapeByte(b);
  }

  /** A string without escape bytes and flags is its own stuffing. */
  lemma {:induction false} PlainStays(s: seq<byte>)
    requires 0x7d !in s && 0x7e !in s
    ensures Escape(s) == s
  {
    if s != [] {
      PlainStays(s[..|s| - 1]);
    }
  }

  // ---------------------------------------------------------------- whole frames

  lemma Extend(s: seq<byte>, b: byte, longer: seq<byte>, before: bv16, after: bv16)
    requires Checksum(0xffff, s) == before && Shift8(Xor(before, b as bv16)) == after && longer == s + [b]
    ensures Checksum(0xffff, longer) == after
  {
    CrcAppend(0xffff, s, b);
    ByteStepIsShift8(before, b);
  }

  lemma ZeroChecksum()
    ensures Checksum(0xffff, [0, 0, 0, 0]) == 0x0321
  {
    assert Checksum(0xffff, []) == 0xffff;
    Extend([], 0, [0], 0xffff, 0x0f87);
    Extend([0], 0, [0, 0], 0x0f87, 0xf0b8);
    Extend([0, 0], 0, [0, 0, 0], 0xf0b8, 0x3933);
    Extend([0, 0, 0], 0, [0, 0, 0, 0], 0x3933, 0x0321);
  }

  lemma EscapableChecksum()
    ensures Checksum(0xffff, [1, 2, 3, 2, 0x7d, 0x7e]) == 0x50e3
  {
    assert Checksum(0xffff, []) == 0xffff;
    Extend([], 1, [1], 0xffff, 0x1e0e);
    Extend([1], 2, [1, 2], 0x1e0e, 0xca72);
    Extend([1, 2], 3, [1, 2, 3], 0xca72, 0x62c4);
    Extend([1, 2, 3], 2, [1, 2, 3, 2], 0x62c4, 0xa358);
    Extend([1, 2, 3, 2], 0x7d, [1, 2, 3, 2, 0x7d], 0xa358, 0x760c);
    Extend([1, 2, 3, 2, 0x7d], 0x7e, [1, 2, 3, 2, 0x7d, 0x7e], 0x760c, 0x50e3);
  }

  /** An empty message of zeros, byte by byte. */
  lemma ZerosOnTheWire()
    ensures Encode(Message(Header(receiver := 0, sender := 0, counter := 0, len := 0), [])) ==
            [0x7e, 0, 0, 0, 0, 0x21, 0x03, 0x7e]
  {
    ZeroFrame();
    hide Frame, Escape;
    PlainStays([0, 0, 0, 0, 0x21, 0x03]);
  }

  lemma ZeroFrame()
    ensures Frame(Message(Header(receiver := 0, sender := 0, counter := 0, len := 0), [])) == [0, 0, 0, 0, 0x21, 0x03]
  {
    hide Checksum;
    ZeroChecksum();
    assert Message(Header(receiver := 0, sender := 0, counter := 0, len := 0), []).Body() == [0, 0, 0, 0];
  }

  /** A message with four different header bytes, whose payload is one escape byte and one flag. */
  lemma EscapablesOnTheWire()
    ensures Encode(Message(Header(receiver := 1, sender := 2, counter := 3, len := 2), [0x7d, 0x7e])) ==
            [0x7e, 1, 2, 3, 2, 0x7d, 0x5d, 0x7d, 0x5e, 0xe3, 0x50, 0x7e]
  {
    hide Frame, Escape;
    EscapableFrame();
    EscapablesStuffed();
  }

  lemma EscapableFrame()
    ensures Frame(Message(Header(receiver := 1, sender := 2, counter := 3, len := 2), [0x7d, 0x7e])) ==
            [1, 2, 3, 2, 0x7d, 0x7e, 0xe3, 0x50]
  {
    hide Checksum;
    EscapableChecksum();
    assert Message(Header(receiver := 1, sender := 2, counter := 3, len := 2), [0x7d, 0x7e]).Body() == [1, 2, 3, 2, 0x7d, 0x7e];
  }

  lemma EscapablesStuffed()
    ensures Escape([1, 2, 3, 2, 0x7d, 0x7e, 0xe3, 0x50]) == [1, 2, 3, 2, 0x7d, 0x5d, 0x7d, 0x5e, 0xe3, 0x50]
  {
    hide Escape;
    var head, middle, tail: seq<byte> := [1, 2, 3, 2], [0x7d] + ([0x7e] + [0xe3, 0x50]), [0xe3, 0x50];
    PlainStays(head);
    PlainStays(tail);
    Prefixed(tail, tail);
    EscapeConcat(head, middle);
    assert head + middle == [1, 2, 3, 2, 0x7d, 0x7e, 0xe3, 0x50];
    assert Escape(head + middle) == head + ([0x7d, 0x5d] + ([0x7d, 0x5e] + tail));
  }

  lemma Prefixed(t: seq<byte>, stuffed: seq<byte>)
    requires Escape(t) == stuffed
    ensures Escape([0x7d] + ([0x7e] + t)) == [0x7d, 0x5d] + ([0x7d, 0x5e] + stuffed)
  {
    hide Escape;
    StuffingByByte(0x7e, t);
    StuffingByByte(0x7d, [0x7e] + t);
    assert Escape([0x7e] + t) == [0x7d, 0x5e] + stuffed;
    assert Escape([0x7d] + ([0x7e] + t)) == [0x7d, 0x5d] + Escape([0x7e] + t);
  }
}
