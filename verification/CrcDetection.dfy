/**
 What the checksum guarantees, for messages of any length: it is the bit-serial register, it is
 linear, its residue accepts exactly the two checksum bytes, and it notices every burst of up to
 16 bits, every odd number of flipped bits, and two flipped bits unless their distance is a
 multiple of the period.
 */
module CrcDetection {
  import opened Sequences
  import opened Types
  import opened Crc
  import opened CrcDistance

  // ---------------------------------------------------------------- strings

  lemma CrcAppend(crc: bv16, s: seq<byte>, b: byte)
    ensures Checksum(crc, s + [b]) == ByteStep(Checksum(crc, s), b)
  {
    hide ByteStep;
    Append(s, b);
  }

  lemma {:induction false} CrcConcat(crc: bv16, s: seq<byte>, t: seq<byte>)
    ensures Checksum(crc, s + t) == Checksum(Checksum(crc, s), t)
  {
    hide ByteStep;
    if t == [] {
      Empty(s);
    } else {
      hide Checksum;
      var n := |t| - 1;
      PeelLast(s, t);
      CrcAppend(crc, s + t[..n], t[n]);
      CrcAppend(Checksum(crc, s), t[..n], t[n]);
      CrcConcat(crc, s, t[..n]);
    }
  }

  lemma {:induction false} SerialConcat(crc: bv16, s: seq<bool>, t: seq<bool>)
    ensures Serial(crc, s + t) == Serial(Serial(crc, s), t)
  {
    hide ShiftIn;
    if t == [] {
      Empty(s);
    } else {
      var n := |t| - 1;
      PeelLast(s, t);
      SerialConcat(crc, s, t[..n]);
    }
  }

  /** The checksum of a byte string is the register after all its bits. */
  lemma {:induction false} CrcIsSerial(crc: bv16, s: seq<byte>)
    ensures Checksum(crc, s) == Serial(crc, Bits(s))
  {
    hide ByteBits, ShiftIn;
    if s != [] {
      var n := |s| - 1;
      CrcIsSerial(crc, s[..n]);
      SerialConcat(crc, Bits(s[..n]), ByteBits(s[n]));
    }
  }

  /** The table-driven implementation run over a whole string. */
  function TableCrc(crc: bv16, s: seq<byte>): bv16
    decreases |s|
  {
    if s == [] then crc else TableCrc(DoCrc(crc, s[0]), s[1..])
  }

  /** Byte by byte and table-driven is bit by bit, for every start value and every string. */
  lemma {:induction false} TableCrcIsSerial(crc: bv16, s: seq<byte>)
    ensures TableCrc(crc, s) == Serial(crc, Bits(s))
  {
    TableCrcIsCrc(crc, s);
    CrcIsSerial(crc, s);
  }

  lemma {:induction false} TableCrcIsCrc(crc: bv16, s: seq<byte>)
    ensures TableCrc(crc, s) == Checksum(crc, s)
    decreases |s|
  {
    hide DoCrc, ByteStep;
    if s != [] {
      DoCrcIsByteStep(crc, s[0]);
      TableCrcIsCrc(DoCrc(crc, s[0]), s[1..]);
      assert s == [s[0]] + s[1..];
      CrcAppend(crc, [], s[0]);
      assert [] + [s[0]] == [s[0]];
      CrcConcat(crc, [s[0]], s[1..]);
    }
  }

  // ---------------------------------------------------------------- residue

  /** The checksum bytes in the order they are sent: low byte first. */
  function CrcBytes(crc: bv16): seq<byte> {
    [(crc & 0xff) as byte, (crc >> 8) as byte]
  }

  lemma TwoStepsToZero(crc: bv16, x: byte, y: byte)
    ensures Shift8(Xor(Shift8(Xor(crc, x as bv16)), y as bv16)) == 0
       <==> x == (crc & 0xff) as byte && y == (crc >> 8) as byte
  {}

  /** After the body, the register returns to zero on the two checksum bytes and on no other pair. */
  lemma ResidueExact(crc: bv16, x: byte, y: byte)
    ensures Checksum(crc, [x, y]) == 0 <==> [x, y] == CrcBytes(crc)
  {
    hide ByteStep, Shifts, Shift8, Xor;
    assert [x, y] == [x] + [y] && [x] == [] + [x];
    CrcAppend(crc, [], x);
    CrcAppend(crc, [x], y);
    ByteStepIsShift8(crc, x);
    ByteStepIsShift8(ByteStep(crc, x), y);
    TwoStepsToZero(crc, x, y);
  }

  lemma ByteStepIsShift8(crc: bv16, c: byte)
    ensures ByteStep(crc, c) == Shift8(Xor(crc, c as bv16))
  {
    hide Xor, ByteStep, Shift;
    ByteStepIsShifts(crc, c);
    ShiftsEight(Xor(crc, c as bv16));
  }

  // ---------------------------------------------------------------- linearity

  /** Byte-wise exclusive or: applying an error pattern. */
  function Flip(s: seq<byte>, e: seq<byte>): (r: seq<byte>)
    requires |s| == |e|
    ensures |r| == |s|
  {
    if s == [] then []
    else
      var n := |s| - 1;
      Flip(s[..n], e[..n]) + [s[n] ^ e[n]]
  }

  lemma XorShuffle(a: bv16, b: bv16, x: byte, y: byte)
    ensures Xor(Xor(a, b), (x ^ y) as bv16) == Xor(Xor(a, x as bv16), Xor(b, y as bv16))
  {}

  lemma ByteStepLinear(a: bv16, b: bv16, x: byte, y: byte)
    ensures ByteStep(Xor(a, b), x ^ y) == Xor(ByteStep(a, x), ByteStep(b, y))
  {
    hide ByteStep, Shifts, Xor;
    ByteStepIsShifts(a, x);
    ByteStepIsShifts(b, y);
    ByteStepIsShifts(Xor(a, b), x ^ y);
    XorShuffle(a, b, x, y);
    ShiftsLinear(8, Xor(a, x as bv16), Xor(b, y as bv16));
  }

  /** The checksum of a flipped string is the checksum mixed with that of the error pattern. */
  lemma {:induction false} CrcLinear(a: bv16, b: bv16, s: seq<byte>, e: seq<byte>)
    requires |s| == |e|
    ensures Checksum(Xor(a, b), Flip(s, e)) == Xor(Checksum(a, s), Checksum(b, e))
  {
    if s == [] {
    } else {
      hide ByteStep, Xor, Checksum;
      var n := |s| - 1;
      CrcLinear(a, b, s[..n], e[..n]);
      ByteStepLinear(Checksum(a, s[..n]), Checksum(b, e[..n]), s[n], e[n]);
      CrcAppend(Xor(a, b), Flip(s[..n], e[..n]), s[n] ^ e[n]);
      CrcAppend(a, s[..n], s[n]);
      CrcAppend(b, e[..n], e[n]);
      PeelLast([], s);
      PeelLast([], e);
    }
  }

  // ---------------------------------------------------------------- bursts

  /** The first and the last set bit lie less than width apart. */
  ghost predicate Burst(bits: seq<bool>, width: nat) {
    exists p :: StartsAt(bits, p) && forall i :: p + width <= i < |bits| ==> !bits[i]
  }

  /** p is the first set bit. */
  ghost predicate StartsAt(bits: seq<bool>, p: int) {
    0 <= p < |bits| && bits[p] && forall i :: 0 <= i < p ==> !bits[i]
  }

  ghost predicate AllClear(bits: seq<bool>) {
    forall i :: 0 <= i < |bits| ==> !bits[i]
  }

  /** Clear bits only clock the register. */
  lemma {:induction false} SerialClear(crc: bv16, bits: seq<bool>)
    requires AllClear(bits)
    ensures Serial(crc, bits) == Shifts(|bits|, crc)
  {
    if bits != [] {
      SerialClear(crc, bits[..|bits| - 1]);
      XorZero(Shifts(|bits| - 1, crc));
    }
  }

  lemma XorZero(v: bv16)
    ensures Xor(v, 0) == v && Xor(0, v) == v && Xor(v, v) == 0
  {}

  lemma ShiftsNonZero(n: nat, v: bv16)
    requires v != 0
    ensures Shifts(n, v) != 0
  {
    hide Shifts;
    ShiftsZero(n);
    if Shifts(n, v) == 0 { ShiftsInjective(n, v, 0); }
  }

  lemma PowEven(k: nat)
    requires 0 < k
    ensures Pow(k) & 1 == 0
  {}

  lemma KeepLowBit(a: bv16, b: bv16)
    requires a & 1 == 1 && b & 1 == 0
    ensures Xor(a, b) & 1 == 1
  {}

  /** A window that begins with a set bit spells an odd number. */
  lemma {:induction false} WordOdd(bits: seq<bool>)
    requires bits != [] && bits[0]
    ensures Word(bits) & 1 == 1
  {
    var k := |bits| - 1;
    if k == 0 {
      assert Word(bits[..0]) == 0;
      XorZero(Pow(0));
    } else {
      hide Xor;
      WordOdd(bits[..k]);
      PowEven(k);
      KeepLowBit(Word(bits[..k]), When(bits[k], Pow(k)));
    }
  }

  lemma BurstFromZero(bits: seq<bool>)
    requires Burst(bits, 16)
    ensures Serial(0, bits) != 0
  {
    hide Serial, Shifts, Xor, Word;
    var p :| StartsAt(bits, p) && forall i :: p + 16 <= i < |bits| ==> !bits[i];
    var q := if p + 16 <= |bits| then p + 16 else |bits|;
    var head, window, tail := bits[..p], bits[p..q], bits[q..];
    assert bits == head + window + tail;
    SerialConcat(0, head + window, tail);
    SerialConcat(0, head, window);
    SerialClear(0, head);
    ShiftsZero(p);
    SerialWindow(0, window);
    WordOdd(window);
    XorZero(Word(window));
    ShiftsNonZero(|window|, Word(window));
    SerialClear(Serial(0, head + window), tail);
    ShiftsNonZero(|tail|, Serial(0, head + window));
  }

  // ---------------------------------------------------------------- parity

  function SetBits(bits: seq<bool>): nat {
    if bits == [] then 0
    else SetBits(bits[..|bits| - 1]) + if bits[|bits| - 1] then 1 else 0
  }

  /** 1 when an odd number of bits is set. */
  function Parity(v: bv16): bv1 {
    ByteParity(Low(v)) ^ ByteParity(High(v))
  }

  function Low(v: bv16): bv8 { (v & 0xff) as bv8 }
  function High(v: bv16): bv8 { (v >> 8) as bv8 }
  function ByteParity(v: bv8): bv1 { Fold2(Fold4(v)) }
  function Fold4(v: bv8): bv4 { ((v ^ (v >> 4)) & 0xf) as bv4 }
  function Fold2(v: bv4): bv1 { ((v ^ (v >> 1) ^ (v >> 2) ^ (v >> 3)) & 1) as bv1 }

  lemma LowLinear(a: bv16, b: bv16)
    ensures Low(Xor(a, b)) == Low(a) ^ Low(b)
  {}

  lemma HighLinear(a: bv16, b: bv16)
    ensures High(Xor(a, b)) == High(a) ^ High(b)
  {}

  lemma Fold4Linear(a: bv8, b: bv8)
    ensures Fold4(a ^ b) == Fold4(a) ^ Fold4(b)
  {}

  lemma Fold2Linear(a: bv4, b: bv4)
    ensures Fold2(a ^ b) == Fold2(a) ^ Fold2(b)
  {}

  lemma ByteParityLinear(a: bv8, b: bv8)
    ensures ByteParity(a ^ b) == ByteParity(a) ^ ByteParity(b)
  {
    hide Fold4, Fold2;
    Fold4Linear(a, b);
    Fold2Linear(Fold4(a), Fold4(b));
  }

  lemma ParityLinear(a: bv16, b: bv16)
    ensures Parity(Xor(a, b)) == Parity(a) ^ Parity(b)
  {
    hide Low, High, ByteParity;
    LowLinear(a, b);
    HighLinear(a, b);
    ByteParityLinear(Low(a), Low(b));
    ByteParityLinear(High(a), High(b));
  }

  lemma ParityConstants()
    ensures Parity(0x8408) == 1 && Parity(1) == 1 && Parity(0) == 0
  {}

  lemma ParityDropSet(v: bv16)
    requires v & 1 == 1
    ensures Parity(v >> 1) == Parity(v) ^ 1
  {}

  lemma ParityDropClear(v: bv16)
    requires v & 1 == 0
    ensures Parity(v >> 1) == Parity(v)
  {}

  /** The polynomial has an odd number of terms below its leading one, so a clock keeps the parity. */
  lemma ShiftKeepsParity(v: bv16)
    ensures Parity(Shift(v)) == Parity(v)
  {
    LowBit(v);
    if v & 1 == 1 {
      ShiftSet(v);
      assert Shift(v) == Xor(v >> 1, 0x8408);
      ParityDropSet(v);
      ParityConstants();
      hide Parity, Shift, Xor;
      ParityLinear(v >> 1, 0x8408);
    } else {
      ShiftClear(v);
      ParityDropClear(v);
    }
  }

  lemma ParityOfBit(v: bv16, bit: bool)
    ensures Parity(Xor(v, When(bit, 1))) == if bit then Parity(v) ^ 1 else Parity(v)
  {
    ParityConstants();
    XorZero(v);
    hide Parity, Xor;
    ParityLinear(v, 1);
  }

  /** The register's parity is the parity of the bits taken in. */
  lemma {:induction false} SerialParity(bits: seq<bool>)
    ensures Parity(Serial(0, bits)) == if SetBits(bits) % 2 == 1 then 1 else 0
  {
    if bits == [] {
      ParityConstants();
    } else {
      hide Parity, Shift, Xor, When;
      var n := |bits| - 1;
      SerialParity(bits[..n]);
      ParityOfBit(Serial(0, bits[..n]), bits[n]);
      ShiftKeepsParity(Xor(Serial(0, bits[..n]), When(bits[n], 1)));
    }
  }

  // ---------------------------------------------------------------- two flipped bits

  /** Exactly the bits i and j are set. */
  ghost predicate Pair(bits: seq<bool>, i: nat, j: nat) {
    && i < j < |bits| && bits[i] && bits[j]
    && AllClear(bits[..i]) && AllClear(bits[i + 1..j]) && AllClear(bits[j + 1..])
  }

  lemma PairSplit(bits: seq<bool>, i: nat, j: nat)
    requires i < j < |bits|
    ensures bits[..j] == bits[..i + 1] + bits[i + 1..j]
    ensures bits == bits[..j + 1] + bits[j + 1..]
  {}

  /** The register after the first set bit, and after the second. */
  lemma AfterBit(bits: seq<bool>, n: nat)
    requires n < |bits| && bits[n]
    ensures Serial(0, bits[..n + 1]) == Shift(Xor(Serial(0, bits[..n]), 1))
  {
    hide Shift, Xor;
    assert bits[..n + 1][..n] == bits[..n];
  }

  lemma AfterPair(bits: seq<bool>, i: nat, j: nat)
    requires Pair(bits, i, j)
    ensures Serial(0, bits) == Shifts(|bits| - j - 1, Shift(Xor(Shifts(j - i, 1), 1)))
  {
    hide Serial, Shifts, Xor, Shift, AllClear;
    PairSplit(bits, i, j);
    SerialClear(0, bits[..i]);
    ShiftsZero(i);
    XorZero(1);
    AfterBit(bits, i);
    SerialConcat(0, bits[..i + 1], bits[i + 1..j]);
    SerialClear(Shift(1), bits[i + 1..j]);
    ShiftsOnce(j - i - 1, 1);
    AfterBit(bits, j);
    SerialConcat(0, bits[..j + 1], bits[j + 1..]);
    SerialClear(Serial(0, bits[..j + 1]), bits[j + 1..]);
  }

  /** Two flipped bits cancel out exactly when their distance is a multiple of the period. */
  lemma PairFromZero(bits: seq<bool>, i: nat, j: nat)
    requires Pair(bits, i, j)
    ensures Serial(0, bits) == 0 <==> (j - i) % PERIOD == 0
  {
    hide Serial, Shifts, Xor, Shift, AllClear;
    AfterPair(bits, i, j);
    AfterLast(|bits| - j - 1, Xor(Shifts(j - i, 1), 1));
    XorIsZero(Shifts(j - i, 1), 1);
    LoneBitReturns(j - i);
  }

  lemma AfterLast(n: nat, v: bv16)
    ensures Shifts(n, Shift(v)) == 0 <==> v == 0
  {
    ShiftsOnce(n, v);
    hide Shifts, Shift;
    ShiftsZero(n + 1);
    if v != 0 { ShiftsNonZero(n + 1, v); }
  }

  lemma XorIsZero(a: bv16, b: bv16)
    ensures Xor(a, b) == 0 <==> a == b
  {
    hide Xor;
    XorZero(b);
    XorAssoc(a, b, b);
    XorZero(a);
  }

  // ---------------------------------------------------------------- detection

  /** Two flipped bits that do not cancel out. */
  ghost predicate TwoFlips(bits: seq<bool>) {
    exists i: nat, j: nat :: Pair(bits, i, j) && (j - i) % PERIOD != 0
  }

  /** The error patterns the checksum is promised to notice. */
  ghost predicate Noticed(e: seq<byte>) {
    || Burst(Bits(e), 16)
    || SetBits(Bits(e)) % 2 == 1
    || TwoFlips(Bits(e))
  }

  /** In strings of up to 4095 bytes, and frames are shorter, no two flipped bits cancel out. */
  lemma ShortPairs(e: seq<byte>, i: nat, j: nat)
    requires |e| <= 4095 && Pair(Bits(e), i, j)
    ensures Noticed(e)
  {
    hide Burst, SetBits, Pair, Bits;
    PairDistance(Bits(e), i, j);
  }

  lemma PairDistance(bits: seq<bool>, i: nat, j: nat)
    requires |bits| <= PERIOD && Pair(bits, i, j)
    ensures i < j && (j - i) % PERIOD != 0
  {
    hide AllClear;
    assert 0 < j - i < PERIOD;
  }

  lemma {:induction false} NoBitSet(bits: seq<bool>)
    requires SetBits(bits) == 0
    ensures AllClear(bits)
  {
    if bits != [] {
      NoBitSet(bits[..|bits| - 1]);
    }
  }

  lemma {:induction false} OneBitSet(bits: seq<bool>) returns (i: nat)
    requires SetBits(bits) == 1
    ensures i < |bits| && bits[i] && AllClear(bits[..i]) && AllClear(bits[i + 1..])
  {
    var n := |bits| - 1;
    if bits[n] {
      NoBitSet(bits[..n]);
      i := n;
    } else {
      i := OneBitSet(bits[..n]);
      assert bits[..n][..i] == bits[..i] && bits[i + 1..] == bits[..n][i + 1..] + [bits[n]];
    }
  }

  lemma {:induction false} TwoBitsSet(bits: seq<bool>) returns (i: nat, j: nat)
    requires SetBits(bits) == 2
    ensures Pair(bits, i, j)
  {
    var n := |bits| - 1;
    if bits[n] {
      j := n;
      i := OneBitSet(bits[..n]);
      assert bits[..n][..i] == bits[..i] && bits[..n][i + 1..] == bits[i + 1..n];
    } else {
      i, j := TwoBitsSet(bits[..n]);
      assert bits[..n][..i] == bits[..i] && bits[..n][i + 1..j] == bits[i + 1..j];
      assert bits[j + 1..] == bits[..n][j + 1..] + [bits[n]];
    }
  }

  /** Flips that all lie within 16 consecutive bits are noticed. */
  lemma BurstsAreNoticed(e: seq<byte>, k: nat, start: nat)
    requires k < |Bits(e)| && Bits(e)[k]
    requires forall i | 0 <= i < |Bits(e)| && Bits(e)[i] :: start <= i < start + 16
    ensures Noticed(e)
  {
    hide Bits, SetBits, TwoFlips;
    var p := FirstSetBit(Bits(e), k);
    assert StartsAt(Bits(e), p);
  }

  lemma {:induction false} FirstSetBit(bits: seq<bool>, k: nat) returns (p: nat)
    requires k < |bits| && bits[k]
    ensures p <= k && StartsAt(bits, p)
  {
    if j: nat :| j < k && bits[j] {
      p := FirstSetBit(bits, j);
    } else {
      p := k;
    }
  }

  /** An odd number of flips is noticed. */
  lemma OddFlipsAreNoticed(e: seq<byte>)
    requires |set i | 0 <= i < |Bits(e)| && Bits(e)[i]| % 2 == 1
    ensures Noticed(e)
  {
    SetBitsCounted(Bits(e));
  }

  lemma {:induction false} SetBitsCounted(bits: seq<bool>)
    ensures SetBits(bits) == |set i | 0 <= i < |bits| && bits[i]|
  {
    if bits != [] {
      var n := |bits| - 1;
      SetBitsCounted(bits[..n]);
      var before := set i | 0 <= i < |bits[..n]| && bits[..n][i];
      var now := set i | 0 <= i < |bits| && bits[i];
      assert now == before + if bits[n] then {n} else {};
    }
  }

  /** One, two or three flipped bits anywhere in such a string are always noticed. */
  lemma ThreeFlipsAreNoticed(e: seq<byte>)
    requires |e| <= 4095 && 1 <= |set i | 0 <= i < |Bits(e)| && Bits(e)[i]| <= 3
    ensures Noticed(e)
  {
    hide Burst, Bits, SetBits;
    SetBitsCounted(Bits(e));
    if SetBits(Bits(e)) == 2 {
      var i, j := TwoBitsSet(Bits(e));
      ShortPairs(e, i, j);
    }
  }

  lemma NoticedFromZero(e: seq<byte>)
    requires Noticed(e)
    ensures Checksum(0, e) != 0
  {
    hide Parity, Serial, Bits, SetBits;
    CrcIsSerial(0, e);
    if Burst(Bits(e), 16) {
      BurstFromZero(Bits(e));
    } else if TwoFlips(Bits(e)) {
      var i: nat, j: nat :| Pair(Bits(e), i, j) && (j - i) % PERIOD != 0;
      PairFromZero(Bits(e), i, j);
    } else {
      SerialParity(Bits(e));
      ParityConstants();
    }
  }

  /** A string whose residue is zero loses that property under every noticed error pattern. */
  lemma CorruptionLeavesResidue(s: seq<byte>, e: seq<byte>)
    requires |s| == |e| && Checksum(INITIAL, s) == 0
    requires Noticed(e)
    ensures Checksum(INITIAL, Flip(s, e)) != 0
  {
    hide Checksum, Xor, Noticed;
    NoticedFromZero(e);
    CrcLinear(INITIAL, 0, s, e);
    XorZeroBoth(INITIAL, Checksum(0, e));
  }

  lemma XorZeroBoth(a: bv16, b: bv16)
    ensures Xor(a, 0) == a && Xor(0, b) == b
  {}
}
