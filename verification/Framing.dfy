/** Octet stuffing and the encoded form of a message. */
module Framing {
  import opened Sequences
  import opened Types
  import Crc
  import opened CrcDetection

  predicate Escapable(b: byte) {
    b == ESC || b == FLAG
  }

  function EscapeByte(b: byte): seq<byte> {
    if Escapable(b) then [ESC, 0x20 ^ b] else [b]
  }

  function Escape(s: seq<byte>): seq<byte> {
    if s == [] then [] else Escape(s[..|s| - 1]) + EscapeByte(s[|s| - 1])
  }

  /** Drops the escape bytes again; a lone one at the end is dropped too. */
  function Unescape(s: seq<byte>): seq<byte> {
    if s == [] then []
    else if s[0] != ESC then [s[0]] + Unescape(s[1..])
    else if |s| == 1 then []
    else [s[1] ^ 0x20] + Unescape(s[2..])
  }

  /** The string ends inside an escape sequence. */
  predicate Dangling(s: seq<byte>) {
    if s == [] then false
    else if s[0] != ESC then Dangling(s[1..])
    else |s| == 1 || Dangling(s[2..])
  }

  /** The bytes of a message before stuffing: body, then checksum. */
  function Frame(m: Message): seq<byte> {
    m.Body() + CrcBytes(Crc.Checksum(Crc.INITIAL, m.Body()))
  }

  function Encode(m: Message): seq<byte> {
    [FLAG] + Escape(Frame(m)) + [FLAG]
  }

  function EncodeAll(ms: seq<Message>): seq<byte> {
    if ms == [] then [] else Encode(ms[0]) + EncodeAll(ms[1..])
  }

  /** How many bytes of the string need an escape. */
  function Escapes(s: seq<byte>): nat {
    if s == [] then 0 else Escapes(s[..|s| - 1]) + if Escapable(s[|s| - 1]) then 1 else 0
  }

  // ---------------------------------------------------------------- laws of stuffing

  lemma {:induction false} EscapeConcat(s: seq<byte>, t: seq<byte>)
    ensures Escape(s + t) == Escape(s) + Escape(t)
  {
    if t == [] {
      Empty(s);
      Empty(Escape(s));
    } else {
      hide EscapeByte;
      var n := |t| - 1;
      PeelLast(s, t);
      EscapeConcat(s, t[..n]);
      Associative(Escape(s), Escape(t[..n]), EscapeByte(t[n]));
    }
  }

  lemma EscapeByteShape(b: byte)
    ensures FLAG !in EscapeByte(b)
    ensures |EscapeByte(b)| == 1 + if Escapable(b) then 1 else 0
    ensures (EscapeByte(b) == [b] && b != ESC) || (EscapeByte(b) == [ESC, 0x20 ^ b] && (0x20 ^ b) ^ 0x20 == b)
  {
    assert 0x20 ^ ESC == 0x5d && 0x20 ^ FLAG == 0x5e;
    assert 0x5d ^ 0x20 == ESC && 0x5e ^ 0x20 == FLAG;
  }

  /** A stuffed string contains no flag, and one extra byte for each byte that needed an escape. */
  lemma {:induction false} EscapeShape(s: seq<byte>)
    ensures FLAG !in Escape(s)
    ensures |Escape(s)| == |s| + Escapes(s)
  {
    if s != [] {
      EscapeShape(s[..|s| - 1]);
      EscapeByteShape(s[|s| - 1]);
    }
  }

  /** How one more byte changes the meaning of a stuffed string. */
  lemma {:induction false} UnescapeAppend(s: seq<byte>, c: byte)
    ensures Dangling(s + [c]) == (!Dangling(s) && c == ESC)
    ensures Unescape(s + [c]) ==
            if Dangling(s) then Unescape(s) + [c ^ 0x20]
            else if c == ESC then Unescape(s)
            else Unescape(s) + [c]
    decreases |s|
  {
    if s == [] {
      Empty([c]);
    } else if s[0] != ESC {
      UnescapeAppend(s[1..], c);
      PeelHead(s, [c]);
    } else if |s| == 1 {
      assert s + [c] == [ESC, c] && [ESC, c][2..] == [];
    } else {
      UnescapeAppend(s[2..], c);
      CutBefore(s, [c], 2);
    }
  }

  lemma NothingToUnescape()
    ensures Unescape([]) == [] && !Dangling([])
  {}

  /** Stuffing is undone. */
  lemma {:induction false} UnescapeEscape(s: seq<byte>)
    ensures Unescape(Escape(s)) == s && !Dangling(Escape(s))
  {
    hide Unescape, Dangling, EscapeByte;
    NothingToUnescape();
    if s != [] {
      var n := |s| - 1;
      var before, b := Escape(s[..n]), s[n];
      UnescapeEscape(s[..n]);
      EscapeByteShape(b);
      if EscapeByte(b) == [b] {
        UnescapeAppend(before, b);
      } else {
        UnescapeAppend(before, ESC);
        UnescapeAppend(before + [ESC], 0x20 ^ b);
        Associative(before, [ESC], [0x20 ^ b]);
        assert [ESC] + [0x20 ^ b] == EscapeByte(b);
      }
    }
  }

  /** Different strings are stuffed differently. */
  lemma EscapeInjective(s: seq<byte>, t: seq<byte>)
    requires Escape(s) == Escape(t)
    ensures s == t
  {
    UnescapeEscape(s);
    UnescapeEscape(t);
  }

  /** Flags occur in an encoded message at its two ends only, and its length is known beforehand. */
  lemma EncodeShape(m: Message)
    ensures |Encode(m)| == 8 + |m.payload| + Escapes(Frame(m))
    ensures forall i :: 0 <= i < |Encode(m)| ==> (Encode(m)[i] == FLAG <==> i == 0 || i == |Encode(m)| - 1)
  {
    EscapeShape(Frame(m));
  }

  lemma {:induction false} EncodeAllConcat(a: seq<Message>, b: seq<Message>)
    ensures EncodeAll(a + b) == EncodeAll(a) + EncodeAll(b)
  {
    hide Encode;
    if a == [] {
      Empty(b);
      Empty(EncodeAll(b));
    } else {
      PeelHead(a, b);
      EncodeAllConcat(a[1..], b);
      Associative(Encode(a[0]), EncodeAll(a[1..]), EncodeAll(b));
    }
  }
}
