/**
 The encoder: sections of a message are stuffed one after the other into a buffer of given size.
 A section that might not fit is left out without notice.
 */
module Encoder {
  import opened Sequences
  import opened Types
  import Crc
  import opened CrcDetection
  import opened Framing

  function Flatten(sections: seq<seq<byte>>): seq<byte> {
    if sections == [] then [] else Flatten(sections[..|sections| - 1]) + sections[|sections| - 1]
  }

  // ---------------------------------------------------------------- what lands in the buffer

  /** The start flag and the stuffed content leave room for the worst case of this section. */
  predicate Roomy(size: nat, content: seq<byte>, section: seq<byte>) {
    1 + |Escape(content)| + 2 * |section| <= size
  }

  /** The content grows by the section, or not at all. */
  function Append(size: nat, content: seq<byte>, section: seq<byte>): seq<byte> {
    if Roomy(size, content, section) then content + section else content
  }

  function AppendAll(size: nat, content: seq<byte>, sections: seq<seq<byte>>): seq<byte> {
    if sections == [] then content
    else Append(size, AppendAll(size, content, sections[..|sections| - 1]), sections[|sections| - 1])
  }

  /** The content before the checksum. */
  function Gathered(size: nat, header: Header, sections: seq<seq<byte>>): seq<byte> {
    AppendAll(size, Append(size, [], header.Bytes()), sections)
  }

  /** The content with its checksum, where that finds room. */
  function Sealed(size: nat, header: Header, sections: seq<seq<byte>>): seq<byte> {
    var content := Gathered(size, header, sections);
    Append(size, content, CrcBytes(Crc.Checksum(Crc.INITIAL, content)))
  }

  /** Everything a call leaves in a buffer of this size. */
  function Output(size: nat, header: Header, sections: seq<seq<byte>>): seq<byte> {
    if size == 0 || |Flatten(sections)| != header.len as nat then []
    else
      var stuffed := Escape(Sealed(size, header, sections));
      [FLAG] + stuffed + if 1 + |stuffed| < size then [FLAG] else []
  }

  // ---------------------------------------------------------------- the code

  method EncodeInit(out: array<byte>, at: nat) returns (wrote: nat, crc: bv16)
    requires at <= out.Length
    modifies out
    ensures crc == Crc.INITIAL
    ensures wrote == (if at < out.Length then 1 else 0)
    ensures out[..at + wrote] == old(out[..at]) + if at < out.Length then [FLAG] else []
  {
    crc := Crc.INITIAL;
    if out.Length - at < 1 {
      wrote := 0;
      assert out[..at + wrote] == out[..at];
      return;
    }
    out[at] := FLAG;
    wrote := 1;
  }

  /** One byte, with its escape where needed. */
  method PutByte(out: array<byte>, at: nat, d: byte) returns (wrote: nat)
    requires at + 2 <= out.Length
    modifies out
    ensures wrote <= 2
    ensures out[..at + wrote] == old(out[..at]) + EscapeByte(d)
  {
    if d == ESC || d == FLAG {
      out[at] := ESC;
      out[at + 1] := 0x20 ^ d;
      assert out[..at + 2] == old(out[..at]) + [ESC, 0x20 ^ d];
      wrote := 2;
    } else {
      out[at] := d;
      assert out[..at + 1] == old(out[..at]) + [d];
      wrote := 1;
    }
  }

  function Continue(crc: Option<bv16>, data: seq<byte>): Option<bv16> {
    if crc.Some? then Some(Crc.Checksum(crc.value, data)) else None
  }

  /** The checksum is continued only where a pointer to it was passed. */
  method UpdateIfAny(crc: Option<bv16>, d: byte) returns (next: Option<bv16>)
    ensures next == if crc.Some? then Some(Crc.ByteStep(crc.value, d)) else None
  {
    hide Crc.ByteStep;
    if crc.Some? {
      var updated := Crc.Update(crc.value, d);
      next := Some(updated);
    } else {
      next := None;
    }
  }

  method StuffAll(out: array<byte>, at: nat, data: seq<byte>, crc: Option<bv16>)
    returns (wrote: nat, next: Option<bv16>)
    requires at + 2 * |data| <= out.Length
    modifies out
    ensures at + wrote <= out.Length
    ensures out[..at + wrote] == old(out[..at]) + Escape(data)
    ensures next == Continue(crc, data)
  {
    hide Escape, EscapeByte, Crc.Checksum, Crc.ByteStep;
    wrote, next := 0, crc;
    ghost var before := out[..at];
    var read := 0;
    NothingYet(before, data, crc);
    while read < |data|
      invariant 0 <= read <= |data|
      invariant wrote <= 2 * read
      invariant out[..at + wrote] == before + Escape(data[..read])
      invariant next == Continue(crc, data[..read])
    {
      var d := data[read];
      OneMore(before, data, read, crc);
      next := UpdateIfAny(next, d);
      var n := PutByte(out, at + wrote, d);
      wrote := wrote + n;
      read := read + 1;
    }
    assert data[..read] == data;
  }

  /** Passing None stands for the null pointer. */
  method EncodeAppendPayload(out: array<byte>, at: nat, data: seq<byte>, crc: Option<bv16>)
    returns (wrote: nat, next: Option<bv16>)
    requires at <= out.Length
    modifies out
    ensures at + wrote <= out.Length
    ensures out.Length - at < 2 * |data| ==> wrote == 0 && next == crc && out[..] == old(out[..])
    ensures out.Length - at >= 2 * |data| ==>
              out[..at + wrote] == old(out[..at]) + Escape(data) && next == Continue(crc, data)
  {
    if out.Length - at < 2 * |data| {
      wrote, next := 0, crc;
    } else {
      wrote, next := StuffAll(out, at, data, crc);
    }
  }

  lemma NothingYet(before: seq<byte>, data: seq<byte>, crc: Option<bv16>)
    ensures before + Escape(data[..0]) == before && Continue(crc, data[..0]) == crc
  {}

  lemma OneMore(before: seq<byte>, data: seq<byte>, read: nat, crc: Option<bv16>)
    requires read < |data|
    ensures before + Escape(data[..read + 1]) == (before + Escape(data[..read])) + EscapeByte(data[read])
    ensures crc.Some? ==>
              Crc.Checksum(crc.value, data[..read + 1]) == Crc.ByteStep(Crc.Checksum(crc.value, data[..read]), data[read])
  {
    hide Crc.Checksum, Crc.ByteStep;
    Prefix(data, read);
    if crc.Some? { CrcAppend(crc.value, data[..read], data[read]); }
    Associative(before, Escape(data[..read]), EscapeByte(data[read]));
  }

  method EncodeFinalize(out: array<byte>, at: nat) returns (wrote: nat)
    requires at <= out.Length
    modifies out
    ensures wrote == (if at < out.Length then 1 else 0)
    ensures out[..at + wrote] == old(out[..at]) + if at < out.Length then [FLAG] else []
  {
    if out.Length - at < 1 {
      assert out[..at + 0] == out[..at];
      return 0;
    }
    out[at] := FLAG;
    return 1;
  }

  /** The buffer holds the start flag and the stuffed content; the checksum is the content's. */
  ghost predicate Holds(written: seq<byte>, content: seq<byte>, crc: bv16) {
    written == [FLAG] + Escape(content) && crc == Crc.Checksum(Crc.INITIAL, content)
  }

  /** What one more section does to a buffer that holds some content. */
  lemma NextSection(size: nat, written: seq<byte>, content: seq<byte>, crc: bv16, section: seq<byte>)
    requires Holds(written, content, crc)
    ensures Roomy(size, content, section) <==> size - |written| >= 2 * |section|
    ensures Holds(written + Escape(section), content + section, Crc.Checksum(crc, section))
  {
    hide Escape, Crc.Checksum;
    EscapeConcat(content, section);
    Associative([FLAG], Escape(content), Escape(section));
    CrcConcat(Crc.INITIAL, content, section);
  }

  /** One section of a message under construction. */
  method AppendSection(out: array<byte>, at: nat, section: seq<byte>, crc: bv16, ghost content: seq<byte>)
    returns (wrote: nat, next: bv16)
    requires at <= out.Length
    requires out.Length > 0 ==> Holds(out[..at], content, crc)
    modifies out
    ensures at + wrote <= out.Length
    ensures out.Length > 0 ==> Holds(out[..at + wrote], Append(out.Length, content, section), next)
  {
    var result;
    if out.Length > 0 { NextSection(out.Length, out[..at], content, crc, section); }
    wrote, result := EncodeAppendPayload(out, at, section, Some(crc));
    next := result.value;
  }

  /** The general call: any number of sections, any size of buffer. */
  method EncodeVar(out: array<byte>, header: Header, sections: seq<seq<byte>>) returns (wrote: nat)
    modifies out
    ensures wrote <= out.Length
    ensures out[..wrote] == Output(out.Length, header, sections)
  {
    var n, crc := EncodeInit(out, 0);
    assert out.Length > 0 ==> Holds(out[..n], [], crc);
    wrote, crc := AppendSection(out, n, header.Bytes(), crc, []);
    wrote := n + wrote;
    var overall;
    wrote, overall, crc :=
      AppendSections(out, wrote, sections, crc, Append(out.Length, [], header.Bytes()));
    if overall != header.len as nat {
      return 0;
    }
    wrote := Seal(out, wrote, crc, Gathered(out.Length, header, sections));
  }

  /** The sections in turn, and their overall length. */
  method AppendSections(out: array<byte>, at: nat, sections: seq<seq<byte>>, crc: bv16, ghost content: seq<byte>)
    returns (end: nat, overall: nat, next: bv16)
    requires at <= out.Length
    requires out.Length > 0 ==> Holds(out[..at], content, crc)
    modifies out
    ensures end <= out.Length && overall == |Flatten(sections)|
    ensures out.Length > 0 ==> Holds(out[..end], AppendAll(out.Length, content, sections), next)
  {
    hide Holds, Append;
    end, overall, next := at, 0, crc;
    var i := 0;
    while i < |sections|
      invariant 0 <= i <= |sections|
      invariant end <= out.Length
      invariant overall == |Flatten(sections[..i])|
      invariant out.Length > 0 ==> Holds(out[..end], AppendAll(out.Length, content, sections[..i]), next)
    {
      Prefix(sections, i);
      overall := overall + |sections[i]|;
      var n;
      n, next := AppendSection(out, end, sections[i], next, AppendAll(out.Length, content, sections[..i]));
      end := end + n;
      i := i + 1;
    }
    assert sections[..i] == sections;
  }

  /** The checksum, low byte first, and the closing flag. */
  method Seal(out: array<byte>, at: nat, crc: bv16, ghost content: seq<byte>) returns (wrote: nat)
    requires at <= out.Length
    requires out.Length > 0 ==> Holds(out[..at], content, crc)
    modifies out
    ensures at <= wrote <= out.Length
    ensures out.Length > 0 ==>
              var stuffed := Escape(Append(out.Length, content, CrcBytes(Crc.Checksum(Crc.INITIAL, content))));
              out[..wrote] == [FLAG] + stuffed + if 1 + |stuffed| < out.Length then [FLAG] else []
  {
    var seal := CrcBytes(crc);
    if out.Length > 0 { NextSection(out.Length, out[..at], content, crc, seal); }
    var n, none := EncodeAppendPayload(out, at, seal, None);
    wrote := at + n;
    n := EncodeFinalize(out, wrote);
    wrote := wrote + n;
  }

  lemma Prefix<T>(s: seq<T>, n: nat)
    requires n < |s|
    ensures s[..n + 1] == s[..n] + [s[n]] && s[..n + 1][..n] == s[..n] && s[..n + 1][n] == s[n]
  {}

  /** The two-part call: header and payload. */
  method EncodeMessage(out: array<byte>, header: Header, data: seq<byte>) returns (wrote: nat)
    requires header.len as nat <= |data|
    modifies out
    ensures wrote <= out.Length
    ensures out[..wrote] == Output(out.Length, header, [data[..header.len as nat]])
  {
    wrote := EncodeVar(out, header, [data[..header.len as nat]]);
  }

  // ---------------------------------------------------------------- when the result is a message

  /** A caller can tell beforehand: each part finds room for its worst case where its turn comes. */
  predicate Fits(size: nat, header: Header, sections: seq<seq<byte>>) {
    && Roomy(size, [], header.Bytes())
    && AllRoomy(size, header.Bytes(), sections)
    && var m := Message(header, Flatten(sections));
    && Roomy(size, m.Body(), CrcBytes(Crc.Checksum(Crc.INITIAL, m.Body())))
    && 1 + |Escape(Frame(m))| < size
  }

  predicate AllRoomy(size: nat, content: seq<byte>, sections: seq<seq<byte>>) {
    sections != [] ==>
      var n := |sections| - 1;
      AllRoomy(size, content, sections[..n]) && Roomy(size, content + Flatten(sections[..n]), sections[n])
  }

  lemma {:induction false} EscapesBound(s: seq<byte>)
    ensures Escapes(s) <= |s|
  {
    if s != [] { EscapesBound(s[..|s| - 1]); }
  }

  /** The content never outgrows the buffer. */
  predicate Within(size: nat, content: seq<byte>) {
    1 + |Escape(content)| <= size
  }

  lemma AppendWithin(size: nat, content: seq<byte>, section: seq<byte>)
    requires Within(size, content)
    ensures Within(size, Append(size, content, section))
    ensures |Append(size, content, section)| == |content| + |section| <==> Roomy(size, content, section)
    ensures |Append(size, content, section)| <= |content| + |section|
  {
    EscapeConcat(content, section);
    EscapeShape(section);
    EscapesBound(section);
  }

  /** All sections are taken in, or the content stays too short. */
  lemma {:induction false} AppendAllExactly(size: nat, content: seq<byte>, sections: seq<seq<byte>>)
    requires Within(size, content)
    ensures var all := AppendAll(size, content, sections);
            && Within(size, all)
            && |all| <= |content| + |Flatten(sections)|
            && (|all| == |content| + |Flatten(sections)| <==> AllRoomy(size, content, sections))
            && (AllRoomy(size, content, sections) ==> all == content + Flatten(sections))
  {
    if sections == [] {
      Empty(content);
    } else {
      hide Within, Roomy;
      var n := |sections| - 1;
      AppendAllExactly(size, content, sections[..n]);
      AppendWithin(size, AppendAll(size, content, sections[..n]), sections[n]);
      Associative(content, Flatten(sections[..n]), sections[n]);
    }
  }

  /** The result is the encoded message exactly when every part fits; how it was cut into sections is forgotten. */
  lemma OutputIsMessageExactly(size: nat, header: Header, sections: seq<seq<byte>>)
    requires |Flatten(sections)| == header.len as nat
    ensures Output(size, header, sections) == Encode(Message(header, Flatten(sections))) <==> Fits(size, header, sections)
  {
    var m := Message(header, Flatten(sections));
    if size > 0 {
      SealedExactly(size, header, sections);
      OutputAgainst(size, header, sections, m);
    }
  }

  lemma SealedExactly(size: nat, header: Header, sections: seq<seq<byte>>)
    requires size > 0
    ensures var m := Message(header, Flatten(sections));
            var sealed := Sealed(size, header, sections);
            sealed == Frame(m) <==>
              && Roomy(size, [], header.Bytes())
              && AllRoomy(size, header.Bytes(), sections)
              && Roomy(size, m.Body(), CrcBytes(Crc.Checksum(Crc.INITIAL, m.Body())))
  {
    var m := Message(header, Flatten(sections));
    assert Within(size, []);
    hide Escape, Crc.Checksum, Roomy, Within;
    var first := Append(size, [], header.Bytes());
    AppendWithin(size, [], header.Bytes());
    AppendAllExactly(size, first, sections);
    var content := AppendAll(size, first, sections);
    var seal := CrcBytes(Crc.Checksum(Crc.INITIAL, content));
    AppendWithin(size, content, seal);
    Empty(header.Bytes());
    assert |Frame(m)| == |m.Body()| + 2 && |m.Body()| == 4 + |Flatten(sections)|;
  }

  lemma OutputAgainst(size: nat, header: Header, sections: seq<seq<byte>>, m: Message)
    requires size > 0 && |Flatten(sections)| == header.len as nat
    ensures Output(size, header, sections) == Encode(m) <==>
              Sealed(size, header, sections) == Frame(m) && 1 + |Escape(Frame(m))| < size
  {
    var sealed := Sealed(size, header, sections);
    hide Sealed, Frame;
    var x, y := Escape(sealed), Escape(Frame(m));
    EscapeShape(sealed);
    hide Escape;
    if Output(size, header, sections) == Encode(m) {
      SameFraming(x, y, 1 + |x| < size);
      EscapeInjective(sealed, Frame(m));
    }
  }

  lemma SameFraming(x: seq<byte>, y: seq<byte>, closed: bool)
    requires FLAG !in x
    requires [FLAG] + x + (if closed then [FLAG] else []) == [FLAG] + y + [FLAG]
    ensures closed && x == y
  {
    var a, b := [FLAG] + x + (if closed then [FLAG] else []), [FLAG] + y + [FLAG];
    assert b[|b| - 1] == FLAG;
    if closed {
      assert a[1..|a| - 1] == x && b[1..|b| - 1] == y;
    } else {
      assert false;
    }
  }

  /** The documented buffer size is always enough. */
  lemma WorstCaseFits(size: nat, header: Header, sections: seq<seq<byte>>)
    requires size >= 2 + 2 * (4 + |Flatten(sections)| + 2)
    ensures Fits(size, header, sections)
  {
    var m := Message(header, Flatten(sections));
    hide Escape, Crc.Checksum, CrcBytes;
    assert Escape([]) == [] by { EscapeShape([]); }
    EscapeShape(m.Body());
    EscapesBound(m.Body());
    EscapeShape(Frame(m));
    EscapesBound(Frame(m));
    assert |CrcBytes(Crc.Checksum(Crc.INITIAL, m.Body()))| == 2 by { CrcBytesLength(Crc.Checksum(Crc.INITIAL, m.Body())); }
    WorstCaseRoomy(size, header.Bytes(), sections);
  }

  lemma CrcBytesLength(crc: bv16)
    ensures |CrcBytes(crc)| == 2
  {}

  lemma {:induction false} WorstCaseRoomy(size: nat, content: seq<byte>, sections: seq<seq<byte>>)
    requires size >= 2 + 2 * (|content| + |Flatten(sections)| + 2)
    ensures AllRoomy(size, content, sections)
  {
    if sections != [] {
      hide Escape;
      var n := |sections| - 1;
      WorstCaseRoomy(size, content, sections[..n]);
      EscapeShape(content + Flatten(sections[..n]));
      EscapesBound(content + Flatten(sections[..n]));
    }
  }

  /** The bridge's transmit buffer, sized from the header, always receives the whole message. */
  lemma BridgeBufferSuffices(m: Message)
    requires m.Valid()
    ensures Output(2 + 2 * (4 + m.header.len as nat + 2), m.header, [m.payload]) == Encode(m)
  {
    hide Output, Encode, Fits;
    var sections := [m.payload];
    assert Flatten(sections) == m.payload by { assert sections[..0] == []; Empty(m.payload); }
    WorstCaseFits(2 + 2 * (4 + |m.payload| + 2), m.header, sections);
    OutputIsMessageExactly(2 + 2 * (4 + |m.payload| + 2), m.header, sections);
  }

  /** The returned 0 does not stand for every buffer that is too small. */
  lemma ReportsZeroExactly(size: nat, header: Header, sections: seq<seq<byte>>)
    ensures Output(size, header, sections) == [] <==> size == 0 || |Flatten(sections)| != header.len as nat
  {
    hide Sealed;
  }
}
