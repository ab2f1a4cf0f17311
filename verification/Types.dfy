/** The wire vocabulary shared by every other module: bytes, headers, messages. */
module Types {
  type byte = bv8

  /** Marks the next byte as escaped. */
  const ESC: byte := 0x7d
  /** Separates frames. */
  const FLAG: byte := 0x7e
  /** The receiver id that addresses everybody. */
  const BROADCAST: byte := 0xff

  /** The packed four-byte header, in wire order. */
  datatype Header = Header(receiver: byte, sender: byte, counter: byte, len: byte) {
    function Bytes(): seq<byte> {
      [receiver, sender, counter, len]
    }
  }

  datatype Message = Message(header: Header, payload: seq<byte>) {
    /** The length field tells the truth. */
    predicate Valid() {
      header.len as nat == |payload|
    }

    /** The bytes covered by the checksum. */
    function Body(): seq<byte> {
      header.Bytes() + payload
    }
  }

  /** Reads a message back from its body bytes. */
  function FromBody(body: seq<byte>): Message
    requires |body| >= 4
  {
    Message(Header(body[0], body[1], body[2], body[3]), body[4..])
  }

  datatype Option<+T> = None | Some(value: T)

  /** The lowest eight bits of a number: what an 8-bit counter shows after that many steps. */
  function LowByte(n: nat): byte {
    if n == 0 then 0 else LowByte(n - 1) + 1
  }

  lemma {:induction false} LowByteIsModulo(n: nat)
    ensures LowByte(n) as nat == n % 256
  {
    if n > 0 {
      LowByteIsModulo(n - 1);
      Wrap(LowByte(n - 1));
      NextRemainder(n - 1);
    }
  }

  lemma Wrap(b: byte)
    ensures (b + 1) as nat == if b as nat == 255 then 0 else b as nat + 1
  {}

  lemma NextRemainder(n: nat)
    ensures (n + 1) % 256 == if n % 256 == 255 then 0 else n % 256 + 1
  {}
}
