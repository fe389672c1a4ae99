/** The 28 bytes in front of every packet: what `LLBC_PacketProtocol::Send` writes
    (3rd/llbc/llbc/src/comm/protocol/PacketProtocol.cpp) and
    `LLBC_PacketHeaderAssembler::SetToPacket` reads, in network byte order.  */
module PacketHeader {
  import opened Bytes

  const HEADER_LEN: nat := 28

  /** The packet's own fields, each an int but for the 64-bit extension data. */
  datatype Fields = Fields(opcode: int, status: int, sender: int, recver: int, flags: int, ext: int)

  predicate IsInt(x: int, width: nat) {
    0 <= 2 * x + Values(width) < 2 * Values(width)
  }

  predicate Valid(f: Fields) {
    && IsInt(f.opcode, 4) && IsInt(f.status, 4) && IsInt(f.sender, 4) && IsInt(f.recver, 4) && IsInt(f.flags, 4)
    && IsInt(f.ext, 8)
  }

  function Put(x: int, width: nat): (s: seq<byte>)
    ensures |s| == width
  {
    Big(Unsigned(x, width), width)
  }

  function Get(header: seq<byte>, at: nat, width: nat): nat
    requires at + width <= |header|
  {
    FromBig(header[at..at + width])
  }

  /** The length field counts the header and is cut to a uint32; status and flags are cut to
      a uint16.  */
  function Header(f: Fields, payload: nat): (s: seq<byte>)
    ensures |s| == HEADER_LEN
  {
    Put(HEADER_LEN + payload, 4) + Put(f.opcode, 4) + Put(f.status, 2) + Put(f.sender, 4) + Put(f.recver, 4)
      + Put(f.flags, 2) + Put(f.ext, 8)
  }

  function LengthOf(header: seq<byte>): nat {
    if |header| < 4 then 0 else Get(header, 0, 4)
  }

  function FieldsOf(header: seq<byte>): Fields
    requires |header| == HEADER_LEN
  {
    Fields(
      Signed(Get(header, 4, 4), 4), Get(header, 8, 2), Signed(Get(header, 10, 4), 4),
      Signed(Get(header, 14, 4), 4), Get(header, 18, 2), Signed(Get(header, 20, 8), 8))
  }

  /** Status and flags as they arrive. */
  function Cut(f: Fields): Fields {
    f.(status := Unsigned(f.status, 2), flags := Unsigned(f.flags, 2))
  }

  lemma GetPut(header: seq<byte>, at: nat, x: int, width: nat)
    requires at + width <= |header| && header[at..at + width] == Put(x, width)
    ensures Get(header, at, width) == Unsigned(x, width)
    ensures IsInt(x, width) ==> Signed(Get(header, at, width), width) == x
  {
    FromBigOfBig(Unsigned(x, width), width);
    if IsInt(x, width) { SignedOfUnsigned(x, width); }
  }

  /** Where the fields lie. */
  lemma Layout(f: Fields, payload: nat)
    ensures var h := Header(f, payload);
      && h[0..4] == Put(HEADER_LEN + payload, 4) && h[4..8] == Put(f.opcode, 4) && h[8..10] == Put(f.status, 2)
      && h[10..14] == Put(f.sender, 4) && h[14..18] == Put(f.recver, 4) && h[18..20] == Put(f.flags, 2)
      && h[20..28] == Put(f.ext, 8)
  {
    hide Put;
  }

  /** Reading a header gives back what Send was asked to write, with the length modulo 2^32 and
      status and flags modulo 2^16.  */
  lemma HeaderRoundTrip(f: Fields, payload: nat)
    requires Valid(f)
    ensures LengthOf(Header(f, payload)) == Unsigned(HEADER_LEN + payload, 4)
    ensures FieldsOf(Header(f, payload)) == Cut(f)
  {
    var h := Header(f, payload);
    Layout(f, payload);
    hide Header, Put, Get, Signed, Unsigned, IsInt;
    GetPut(h, 0, HEADER_LEN + payload, 4);
    GetPut(h, 4, f.opcode, 4);
    GetPut(h, 8, f.status, 2);
    GetPut(h, 10, f.sender, 4);
    GetPut(h, 14, f.recver, 4);
    GetPut(h, 18, f.flags, 2);
    GetPut(h, 20, f.ext, 8);
  }

  /** So the fields survive if and only if status and flags are unsigned 16-bit numbers; the
      status LLBC_FAILED, which is -1, arrives as 65535.  */
  lemma FieldsSurviveIff(f: Fields, payload: nat)
    requires Valid(f)
    ensures FieldsOf(Header(f, payload)) == f <==> 0 <= f.status < 0x1_0000 && 0 <= f.flags < 0x1_0000
    ensures f.status == -1 ==> FieldsOf(Header(f, payload)).status == 65535
  {
    HeaderRoundTrip(f, payload);
    SmallValues();
    hide Header, FieldsOf;
    CutSame(f.status);
    CutSame(f.flags);
    if f.status == -1 { ModSmall(65535, 0x1_0000); }
  }

  lemma CutSame(x: int)
    ensures Unsigned(x, 2) == x <==> 0 <= x < 0x1_0000
  {
    SmallValues();
    if 0 <= x < 0x1_0000 { ModSmall(x, 0x1_0000); }
  }
}
