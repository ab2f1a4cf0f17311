/**
 The 16-bit frame check sequence: the table-driven step of the implementation, the bit-serial
 shift register it stands for, and the algebra (linearity, injectivity) both obey.
 */
module Crc {
  import opened Types

  const INITIAL: bv16 := 0xffff

  /** One clock of the reflected shift register with polynomial 0x8408, written without a branch. */
  function Shift(v: bv16): bv16 {
    (v >> 1) ^ (0x8408 & (0 - (v & 1)))
  }

  /** n clocks with no input. */
  function Shifts(n: nat, v: bv16): bv16 {
    if n == 0 then v else Shift(Shifts(n - 1, v))
  }

  /** value where the bit is set, 0 where it is not. */
  function When(bit: bool, value: bv16): bv16 {
    if bit then value else 0
  }

  /** Addition of polynomials over the two-element field. */
  function Xor(a: bv16, b: bv16): bv16 {
    a ^ b
  }

  /** One clock that also takes in a data bit. */
  function ShiftIn(crc: bv16, bit: bool): bv16 {
    Shift(Xor(crc, When(bit, 1)))
  }

  /** The register after a whole bit string. */
  function Serial(crc: bv16, bits: seq<bool>): bv16 {
    if bits == [] then crc else ShiftIn(Serial(crc, bits[..|bits| - 1]), bits[|bits| - 1])
  }

  /** The eight bits of a byte in transmission order, least significant first. */
  function ByteBits(b: byte): (bits: seq<bool>)
    ensures |bits| == 8
  {
    [b & 0x01 == 0x01, b & 0x02 == 0x02, b & 0x04 == 0x04, b & 0x08 == 0x08,
     b & 0x10 == 0x10, b & 0x20 == 0x20, b & 0x40 == 0x40, b & 0x80 == 0x80]
  }

  function Bits(s: seq<byte>): (bits: seq<bool>)
    ensures |bits| == 8 * |s|
  {
    if s == [] then [] else Bits(s[..|s| - 1]) + ByteBits(s[|s| - 1])
  }

  /** The register after one byte. */
  function ByteStep(crc: bv16, c: byte): bv16 {
    Serial(crc, ByteBits(c))
  }

  /** The checksum of a byte string, continued from crc. */
  function Checksum(crc: bv16, s: seq<byte>): bv16 {
    if s == [] then crc else ByteStep(Checksum(crc, s[..|s| - 1]), s[|s| - 1])
  }

  // ---------------------------------------------------------------- the lookup table

  const ROW_00: seq<bv16> := [0x0000, 0x1189, 0x2312, 0x329b, 0x4624, 0x57ad, 0x6536, 0x74bf]
  const ROW_08: seq<bv16> := [0x8c48, 0x9dc1, 0xaf5a, 0xbed3, 0xca6c, 0xdbe5, 0xe97e, 0xf8f7]
  const ROW_10: seq<bv16> := [0x1081, 0x0108, 0x3393, 0x221a, 0x56a5, 0x472c, 0x75b7, 0x643e]
  const ROW_18: seq<bv16> := [0x9cc9, 0x8d40, 0xbfdb, 0xae52, 0xdaed, 0xcb64, 0xf9ff, 0xe876]
  const ROW_20: seq<bv16> := [0x2102, 0x308b, 0x0210, 0x1399, 0x6726, 0x76af, 0x4434, 0x55bd]
  const ROW_28: seq<bv16> := [0xad4a, 0xbcc3, 0x8e58, 0x9fd1, 0xeb6e, 0xfae7, 0xc87c, 0xd9f5]
  const ROW_30: seq<bv16> := [0x3183, 0x200a, 0x1291, 0x0318, 0x77a7, 0x662e, 0x54b5, 0x453c]
  const ROW_38: seq<bv16> := [0xbdcb, 0xac42, 0x9ed9, 0x8f50, 0xfbef, 0xea66, 0xd8fd, 0xc974]
  const ROW_40: seq<bv16> := [0x4204, 0x538d, 0x6116, 0x709f, 0x0420, 0x15a9, 0x2732, 0x36bb]
  const ROW_48: seq<bv16> := [0xce4c, 0xdfc5, 0xed5e, 0xfcd7, 0x8868, 0x99e1, 0xab7a, 0xbaf3]
  const ROW_50: seq<bv16> := [0x5285, 0x430c, 0x7197, 0x601e, 0x14a1, 0x0528, 0x37b3, 0x263a]
  const ROW_58: seq<bv16> := [0xdecd, 0xcf44, 0xfddf, 0xec56, 0x98e9, 0x8960, 0xbbfb, 0xaa72]
  const ROW_60: seq<bv16> := [0x6306, 0x728f, 0x4014, 0x519d, 0x2522, 0x34ab, 0x0630, 0x17b9]
  const ROW_68: seq<bv16> := [0xef4e, 0xfec7, 0xcc5c, 0xddd5, 0xa96a, 0xb8e3, 0x8a78, 0x9bf1]
  const ROW_70: seq<bv16> := [0x7387, 0x620e, 0x5095, 0x411c, 0x35a3, 0x242a, 0x16b1, 0x0738]
  const ROW_78: seq<bv16> := [0xffcf, 0xee46, 0xdcdd, 0xcd54, 0xb9eb, 0xa862, 0x9af9, 0x8b70]
  const ROW_80: seq<bv16> := [0x8408, 0x9581, 0xa71a, 0xb693, 0xc22c, 0xd3a5, 0xe13e, 0xf0b7]
  const ROW_88: seq<bv16> := [0x0840, 0x19c9, 0x2b52, 0x3adb, 0x4e64, 0x5fed, 0x6d76, 0x7cff]
  const ROW_90: seq<bv16> := [0x9489, 0x8500, 0xb79b, 0xa612, 0xd2ad, 0xc324, 0xf1bf, 0xe036]
  const ROW_98: seq<bv16> := [0x18c1, 0x0948, 0x3bd3, 0x2a5a, 0x5ee5, 0x4f6c, 0x7df7, 0x6c7e]
  const ROW_A0: seq<bv16> := [0xa50a, 0xb483, 0x8618, 0x9791, 0xe32e, 0xf2a7, 0xc03c, 0xd1b5]
  const ROW_A8: seq<bv16> := [0x2942, 0x38cb, 0x0a50, 0x1bd9, 0x6f66, 0x7eef, 0x4c74, 0x5dfd]
  const ROW_B0: seq<bv16> := [0xb58b, 0xa402, 0x9699, 0x8710, 0xf3af, 0xe226, 0xd0bd, 0xc134]
  const ROW_B8: seq<bv16> := [0x39c3, 0x284a, 0x1ad1, 0x0b58, 0x7fe7, 0x6e6e, 0x5cf5, 0x4d7c]
  const ROW_C0: seq<bv16> := [0xc60c, 0xd785, 0xe51e, 0xf497, 0x8028, 0x91a1, 0xa33a, 0xb2b3]
  const ROW_C8: seq<bv16> := [0x4a44, 0x5bcd, 0x6956, 0x78df, 0x0c60, 0x1de9, 0x2f72, 0x3efb]
  const ROW_D0: seq<bv16> := [0xd68d, 0xc704, 0xf59f, 0xe416, 0x90a9, 0x8120, 0xb3bb, 0xa232]
  const ROW_D8: seq<bv16> := [0x5ac5, 0x4b4c, 0x79d7, 0x685e, 0x1ce1, 0x0d68, 0x3ff3, 0x2e7a]
  const ROW_E0: seq<bv16> := [0xe70e, 0xf687, 0xc41c, 0xd595, 0xa12a, 0xb0a3, 0x8238, 0x93b1]
  const ROW_E8: seq<bv16> := [0x6b46, 0x7acf, 0x4854, 0x59dd, 0x2d62, 0x3ceb, 0x0e70, 0x1ff9]
  const ROW_F0: seq<bv16> := [0xf78f, 0xe606, 0xd49d, 0xc514, 0xb1ab, 0xa022, 0x92b9, 0x8330]
  const ROW_F8: seq<bv16> := [0x7bc7, 0x6a4e, 0x58d5, 0x495c, 0x3de3, 0x2c6a, 0x1ef1, 0x0f78]

  /** The lookup table, eight entries a row. */
  function Row(k: bv8): (row: seq<bv16>)
    ensures |row| == 8
  {
    match k
    case 0 => ROW_00
    case 1 => ROW_08
    case 2 => ROW_10
    case 3 => ROW_18
    case 4 => ROW_20
    case 5 => ROW_28
    case 6 => ROW_30
    case 7 => ROW_38
    case 8 => ROW_40
    case 9 => ROW_48
    case 10 => ROW_50
    case 11 => ROW_58
    case 12 => ROW_60
    case 13 => ROW_68
    case 14 => ROW_70
    case 15 => ROW_78
    case 16 => ROW_80
    case 17 => ROW_88
    case 18 => ROW_90
    case 19 => ROW_98
    case 20 => ROW_A0
    case 21 => ROW_A8
    case 22 => ROW_B0
    case 23 => ROW_B8
    case 24 => ROW_C0
    case 25 => ROW_C8
    case 26 => ROW_D0
    case 27 => ROW_D8
    case 28 => ROW_E0
    case 29 => ROW_E8
    case 30 => ROW_F0
    case _ => ROW_F8
  }

  function Table(i: byte): bv16 {
    Row(i >> 3)[(i & 7) as nat]
  }

  /** The implementation's step: one table lookup a byte. */
  function DoCrc(crc: bv16, c: byte): bv16 {
    Xor(crc >> 8, Table((Xor(crc, c as bv16) & 0xff) as byte))
  }

  // ---------------------------------------------------------------- algebra of one clock

  lemma ShiftSet(v: bv16)
    requires v & 1 == 1
    ensures Shift(v) == (v >> 1) ^ 0x8408
  {}

  lemma ShiftClear(v: bv16)
    requires v & 1 == 0
    ensures Shift(v) == v >> 1
  {}

  lemma LowBit(v: bv16)
    ensures v & 1 == 0 || v & 1 == 1
  {}

  /** Shift is the conditional step of the table generator. */
  lemma ShiftIsGeneratorStep(v: bv16)
    ensures Shift(v) == if v & 1 == 1 then (v >> 1) ^ 0x8408 else v >> 1
  {
    LowBit(v);
    if v & 1 == 1 { ShiftSet(v); } else { ShiftClear(v); }
  }

  lemma ShiftLinear(a: bv16, b: bv16)
    ensures Shift(Xor(a, b)) == Xor(Shift(a), Shift(b))
  {}

  lemma ShiftInjective(a: bv16, b: bv16)
    requires Shift(a) == Shift(b)
    ensures a == b
  {}

  lemma {:induction false} ShiftsLinear(n: nat, a: bv16, b: bv16)
    ensures Shifts(n, Xor(a, b)) == Xor(Shifts(n, a), Shifts(n, b))
  {
    hide Shift, Xor;
    if n > 0 {
      ShiftsLinear(n - 1, a, b);
      ShiftLinear(Shifts(n - 1, a), Shifts(n - 1, b));
    }
  }

  lemma {:induction false} ShiftsInjective(n: nat, a: bv16, b: bv16)
    requires Shifts(n, a) == Shifts(n, b)
    ensures a == b
  {
    if n > 0 {
      ShiftInjective(Shifts(n - 1, a), Shifts(n - 1, b));
      ShiftsInjective(n - 1, a, b);
    }
  }

  lemma {:induction false} ShiftsZero(n: nat)
    ensures Shifts(n, 0) == 0
  {
    if n > 0 { ShiftsZero(n - 1); }
  }

  lemma {:induction false} ShiftsAdd(m: nat, n: nat, v: bv16)
    ensures Shifts(m + n, v) == Shifts(m, Shifts(n, v))
  {
    if m > 0 { ShiftsAdd(m - 1, n, v); }
  }

  // ---------------------------------------------------------------- a window of up to 16 bits

  /** 2 to the k, for k below 16. */
  function Pow(k: nat): bv16 {
    if k == 0 then 1 else Pow(k - 1) << 1
  }

  /** A bit string read as a number, first bit least significant. */
  function Word(bits: seq<bool>): bv16 {
    if bits == [] then 0
    else
      var last := |bits| - 1;
      Xor(Word(bits[..last]), When(bits[last], Pow(last)))
  }

  /** A lone bit falls out of the register after as many clocks as its position. */
  lemma LoneBit(k: nat)
    requires k < 16
    ensures Shifts(k, Pow(k)) == 1
  {
    if k > 0 {
      LoneBit(k - 1);
      LoneBitDown(k);
      ShiftsAdd(k - 1, 1, Pow(k));
      assert Shifts(1, Pow(k)) == Shift(Pow(k));
    }
  }

  lemma LoneBitDown(k: nat)
    requires 0 < k < 16
    ensures Shift(Pow(k)) == Pow(k - 1)
  {
    PowSmall(k - 1);
    HalveDouble(Pow(k - 1));
  }

  lemma PowSmall(k: nat)
    requires k < 15
    ensures Pow(k) < 0x8000
  {
    assert Pow(4) == 0x10 && Pow(8) == 0x100 && Pow(12) == 0x1000;
    assert Pow(5) == 0x20 && Pow(9) == 0x200 && Pow(13) == 0x2000;
    assert Pow(6) == 0x40 && Pow(10) == 0x400 && Pow(14) == 0x4000;
    assert Pow(3) == 0x8 && Pow(7) == 0x80 && Pow(11) == 0x800;
  }

  lemma HalveDouble(v: bv16)
    requires v < 0x8000
    ensures Shift(v << 1) == v
  {}

  /** Taking in up to 16 bits is mixing them in at once and then clocking. */
  lemma {:induction false} SerialWindow(crc: bv16, bits: seq<bool>)
    requires |bits| <= 16
    ensures Serial(crc, bits) == Shifts(|bits|, Xor(crc, Word(bits)))
  {
    if bits == [] {
    } else {
      hide Shift, When, Xor;
      var k := |bits| - 1;
      var before, pow := Xor(crc, Word(bits[..k])), When(bits[k], Pow(k));
      SerialWindow(crc, bits[..k]);
      LoneBitWhen(k, bits[k]);
      ShiftsLinear(k, before, pow);
      XorAssoc(crc, Word(bits[..k]), pow);
    }
  }

  lemma LoneBitWhen(k: nat, bit: bool)
    requires k < 16
    ensures Shifts(k, When(bit, Pow(k))) == When(bit, 1)
  {
    LoneBit(k);
    ShiftsZero(k);
  }

  lemma XorAssoc(a: bv16, b: bv16, c: bv16)
    ensures Xor(Xor(a, b), c) == Xor(a, Xor(b, c))
  {}

  lemma WordPrefix(bits: seq<bool>, k: nat)
    requires k < |bits|
    ensures Word(bits[..k + 1]) == Xor(Word(bits[..k]), When(bits[k], Pow(k)))
  {
    assert bits[..k + 1][..k] == bits[..k];
  }

  lemma PowValues()
    ensures Pow(0) == 0x01 && Pow(1) == 0x02 && Pow(2) == 0x04 && Pow(3) == 0x08
    ensures Pow(4) == 0x10 && Pow(5) == 0x20 && Pow(6) == 0x40 && Pow(7) == 0x80
  {
    assert Pow(4) == 0x10;
  }

  lemma BitOf(c: byte, mask: byte)
    requires mask & (mask - 1) == 0
    ensures When(c & mask == mask, mask as bv16) == (c & mask) as bv16
  {
    OneBit(c, mask);
  }

  lemma OneBit(c: byte, mask: byte)
    requires mask & (mask - 1) == 0
    ensures c & mask == mask || c & mask == 0
  {}

  /** What each bit of a byte contributes. */
  lemma BitPowers(c: byte)
    ensures var bits := ByteBits(c);
            && When(bits[0], Pow(0)) == (c & 0x01) as bv16 && When(bits[1], Pow(1)) == (c & 0x02) as bv16
            && When(bits[2], Pow(2)) == (c & 0x04) as bv16 && When(bits[3], Pow(3)) == (c & 0x08) as bv16
            && When(bits[4], Pow(4)) == (c & 0x10) as bv16 && When(bits[5], Pow(5)) == (c & 0x20) as bv16
            && When(bits[6], Pow(6)) == (c & 0x40) as bv16 && When(bits[7], Pow(7)) == (c & 0x80) as bv16
  {
    hide When, Pow;
    PowValues();
    BitOf(c, 0x01); BitOf(c, 0x02); BitOf(c, 0x04); BitOf(c, 0x08);
    BitOf(c, 0x10); BitOf(c, 0x20); BitOf(c, 0x40); BitOf(c, 0x80);
  }

  lemma ByteWord(c: byte)
    ensures Word(ByteBits(c)) == c as bv16
  {
    hide When, Word, Pow, Xor, ByteBits;
    var bits := ByteBits(c);
    BitPowers(c);
    WordOfNothing(bits);
    WordPrefix(bits, 0); WordPrefix(bits, 1); WordPrefix(bits, 2); WordPrefix(bits, 3);
    WordPrefix(bits, 4); WordPrefix(bits, 5); WordPrefix(bits, 6); WordPrefix(bits, 7);
    assert bits[..8] == bits;
    EightMasks(c);
  }

  lemma WordOfNothing(bits: seq<bool>)
    ensures Word(bits[..0]) == 0
  {}

  lemma EightMasks(c: byte)
    ensures Xor(Xor(Xor(Xor(Xor(Xor(Xor(Xor(0, (c & 0x01) as bv16), (c & 0x02) as bv16), (c & 0x04) as bv16), (c & 0x08) as bv16),
                (c & 0x10) as bv16), (c & 0x20) as bv16), (c & 0x40) as bv16), (c & 0x80) as bv16)
            == c as bv16
  {}

  /** The eight bits of a byte may be mixed in at once. */
  lemma ByteStepIsShifts(crc: bv16, c: byte)
    ensures ByteStep(crc, c) == Shifts(8, Xor(crc, c as bv16))
  {
    SerialWindow(crc, ByteBits(c));
    ByteWord(c);
  }

  // ---------------------------------------------------------------- the table is the generator's

  function Shift8(v: bv16): bv16 {
    Shift(Shift(Shift(Shift(Shift(Shift(Shift(Shift(v))))))))
  }

  lemma ShiftsFour(v: bv16)
    ensures Shifts(4, v) == Shift(Shift(Shift(Shift(v))))
  {
    assert Shifts(1, v) == Shift(v);
    assert Shifts(2, v) == Shift(Shift(v));
  }

  lemma ShiftsEight(v: bv16)
    ensures Shifts(8, v) == Shift8(v)
  {
    ShiftsFour(v);
    ShiftsAdd(4, 4, v);
    ShiftsFour(Shifts(4, v));
  }

  /** Eight consecutive outputs of the generator. */
  function Generated(first: bv16): (row: seq<bv16>)
    ensures |row| == 8
  {
    [Shift8(first), Shift8(first ^ 1), Shift8(first ^ 2), Shift8(first ^ 3),
     Shift8(first ^ 4), Shift8(first ^ 5), Shift8(first ^ 6), Shift8(first ^ 7)]
  }

  lemma RowsFrom00(k: bv8)
    requires k >> 2 == 0
    ensures Row(k) == Generated((k as bv16) << 3)
  {
    match k
    case 0 =>
    case 1 =>
    case 2 =>
    case _ =>
  }

  lemma RowsFrom20(k: bv8)
    requires k >> 2 == 1
    ensures Row(k) == Generated((k as bv16) << 3)
  {
    match k
    case 4 =>
    case 5 =>
    case 6 =>
    case _ =>
  }

  lemma RowsFrom40(k: bv8)
    requires k >> 2 == 2
    ensures Row(k) == Generated((k as bv16) << 3)
  {
    match k
    case 8 =>
    case 9 =>
    case 10 =>
    case _ =>
  }

  lemma RowsFrom60(k: bv8)
    requires k >> 2 == 3
    ensures Row(k) == Generated((k as bv16) << 3)
  {
    match k
    case 12 =>
    case 13 =>
    case 14 =>
    case _ =>
  }

  lemma RowsFrom80(k: bv8)
    requires k >> 2 == 4
    ensures Row(k) == Generated((k as bv16) << 3)
  {
    match k
    case 16 =>
    case 17 =>
    case 18 =>
    case _ =>
  }

  lemma RowsFromA0(k: bv8)
    requires k >> 2 == 5
    ensures Row(k) == Generated((k as bv16) << 3)
  {
    match k
    case 20 =>
    case 21 =>
    case 22 =>
    case _ =>
  }

  lemma RowsFromC0(k: bv8)
    requires k >> 2 == 6
    ensures Row(k) == Generated((k as bv16) << 3)
  {
    match k
    case 24 =>
    case 25 =>
    case 26 =>
    case _ =>
  }

  lemma RowsFromE0(k: bv8)
    requires k >> 2 == 7
    ensures Row(k) == Generated((k as bv16) << 3)
  {
    match k
    case 28 =>
    case 29 =>
    case 30 =>
    case _ =>
  }

  lemma RowGenerated(k: bv8)
    requires k < 32
    ensures Row(k) == Generated((k as bv16) << 3)
  {
    match k >> 2
    case 0 => RowsFrom00(k);
    case 1 => RowsFrom20(k);
    case 2 => RowsFrom40(k);
    case 3 => RowsFrom60(k);
    case 4 => RowsFrom80(k);
    case 5 => RowsFromA0(k);
    case 6 => RowsFromC0(k);
    case _ => RowsFromE0(k);
  }

  lemma GeneratedAt(first: bv16, j: bv8)
    requires j < 8
    ensures Generated(first)[j as nat] == Shift8(first ^ (j as bv16))
  {
    var n := j as nat;
    assert n == 0 || n == 1 || n == 2 || n == 3 || n == 4 || n == 5 || n == 6 || n == 7;
  }

  lemma SplitIndex(i: bv8)
    ensures i >> 3 < 32 && i & 7 < 8
    ensures (((i >> 3) as bv16) << 3) ^ ((i & 7) as bv16) == i as bv16
  {}

  /** Every table entry is what eight clocks make of its index. */
  lemma TableIsGenerated(i: byte)
    ensures Table(i) == Shifts(8, i as bv16)
  {
    SplitIndex(i);
    RowGenerated(i >> 3);
    GeneratedAt(((i >> 3) as bv16) << 3, i & 7);
    ShiftsEight(i as bv16);
  }

  lemma HighByteFallsThrough(v: bv16)
    ensures Shifts(8, v & 0xff00) == v >> 8
  {
    ShiftsEight(v & 0xff00);
  }

  lemma HalvesOf(crc: bv16, c: byte, v: bv16, i: byte)
    requires v == Xor(crc, c as bv16) && i == (v & 0xff) as byte
    ensures v == Xor(v & 0xff00, i as bv16) && v >> 8 == crc >> 8
  {}

  lemma JoinHalves(n: nat, crc: bv16, v: bv16, i: byte, entry: bv16)
    requires v == Xor(v & 0xff00, i as bv16) && v >> 8 == crc >> 8
    requires Shifts(n, v & 0xff00) == v >> 8 && Shifts(n, i as bv16) == entry
    ensures Xor(crc >> 8, entry) == Shifts(n, v)
  {
    hide Shifts, Xor;
    ShiftsLinear(n, v & 0xff00, i as bv16);
  }

  /** The table-driven step is the register taking in the eight bits of the byte. */
  lemma DoCrcIsByteStep(crc: bv16, c: byte)
    ensures DoCrc(crc, c) == ByteStep(crc, c)
  {
    hide Shifts, Table, ByteStep, Xor;
    var v := Xor(crc, c as bv16);
    var i := (v & 0xff) as byte;
    TableIsGenerated(i);
    HalvesOf(crc, c, v, i);
    HighByteFallsThrough(v);
    JoinHalves(8, crc, v, i, Table(i));
    ByteStepIsShifts(crc, c);
  }

  /** The step as imperative code takes it. */
  method Update(crc: bv16, c: byte) returns (next: bv16)
    ensures next == ByteStep(crc, c)
  {
    DoCrcIsByteStep(crc, c);
    next := DoCrc(crc, c);
  }
}
