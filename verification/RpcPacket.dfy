/** What an RPC packet carries, byte for byte: the head that `RpcChannel::PkgHead` writes and
    reads, and the message behind it (src/rpc_channel.cpp, and the raw, string and protobuf
    forms of Write and Read in 3rd/llbc/llbc/include/llbc/comm/PacketInl.h and
    3rd/llbc/llbc/include/llbc/common/Stream.h).  Numbers are in network byte order.  */
module RpcPacket {
  import opened Wrappers
  import opened Bytes

  /** A string or a message is written with its length in a uint32, so it must be shorter. */
  const BLOB_LIMIT: nat := 0x1_0000_0000

  /** PkgHead; `sequence` is the coroutine uid. */
  datatype Head = Head(sequence: nat, serviceName: seq<byte>, methodName: seq<byte>)

  function WriteNumber(n: nat): seq<byte> {
    Big(Unsigned(n, 8), 8)
  }

  function ReadNumber(b: seq<byte>): Option<(nat, seq<byte>)> {
    if |b| < 8 then None else Some((FromBig(b[..8]), b[8..]))
  }

  /** A std::string, or the bytes of a protobuf message. */
  function WriteBlob(s: seq<byte>): seq<byte> {
    Big(Unsigned(|s|, 4), 4) + s
  }

  function ReadBlob(b: seq<byte>): Option<(seq<byte>, seq<byte>)> {
    if |b| < 4 then None
    else
      var n := FromBig(b[..4]);
      if |b| - 4 < n then None else Some((b[4..4 + n], b[4 + n..]))
  }

  function ToPacket(payload: seq<byte>, h: Head): seq<byte> {
    payload + WriteNumber(h.sequence) + WriteBlob(h.serviceName) + WriteBlob(h.methodName)
  }

  /** The head and what is left of the payload. */
  function FromPacket(payload: seq<byte>): Option<(Head, seq<byte>)> {
    match ReadNumber(payload)
    case None => None
    case Some((n, b)) =>
      match ReadBlob(b)
      case None => None
      case Some((serviceName, b')) =>
        match ReadBlob(b')
        case None => None
        case Some((methodName, rest)) => Some((Head(n, serviceName, methodName), rest))
  }

  predicate Fits(h: Head) {
    h.sequence < 0x1_0000_0000_0000_0000 && |h.serviceName| < BLOB_LIMIT && |h.methodName| < BLOB_LIMIT
  }

  /** Where the parts of a head lie: eight bytes of sequence number, then the length and the
      bytes of the service name, then those of the method name.  */
  lemma HeadLayout(h: Head)
    requires Fits(h)
    ensures var b, n, m := ToPacket([], h), |h.serviceName|, |h.methodName|;
      && |b| == 16 + n + m
      && FromBig(b[..8]) == h.sequence
      && FromBig(b[8..12]) == n && b[12..12 + n] == h.serviceName
      && FromBig(b[12 + n..16 + n]) == m && b[16 + n..] == h.methodName
  {
    var b, n, m := ToPacket([], h), |h.serviceName|, |h.methodName|;
    NumberRoundTrip(h.sequence, []);
    BlobLength(h.serviceName);
    BlobLength(h.methodName);
    assert (WriteNumber(h.sequence) + [])[..8] == WriteNumber(h.sequence);
    hide Big, FromBig, Unsigned, Values;
    assert b[..8] == WriteNumber(h.sequence);
    assert b[8..12] == Big(Unsigned(n, 4), 4) && b[12..12 + n] == h.serviceName;
    assert b[12 + n..16 + n] == Big(Unsigned(m, 4), 4) && b[16 + n..] == h.methodName;
  }

  lemma NumberRoundTrip(n: nat, rest: seq<byte>)
    requires n < 0x1_0000_0000_0000_0000
    ensures ReadNumber(WriteNumber(n) + rest) == Some((n, rest))
  {
    SmallValues();
    ModSmall(n, Values(8));
    FromBigOfBig(n, 8);
    hide Big, FromBig, Values;
    var b := WriteNumber(n) + rest;
    assert b[..8] == WriteNumber(n) && b[8..] == rest;
  }

  lemma BlobLength(s: seq<byte>)
    ensures FromBig(Big(Unsigned(|s|, 4), 4)) <= |s| && (FromBig(Big(Unsigned(|s|, 4), 4)) == |s| <==> |s| < BLOB_LIMIT)
  {
    SmallValues();
    FromBigOfBig(Unsigned(|s|, 4), 4);
    if |s| < BLOB_LIMIT { ModSmall(|s|, Values(4)); }
    hide Big, FromBig, Values;
  }

  /** Reading gives back what was written if and only if its length fits its length field. */
  lemma BlobRoundTrip(s: seq<byte>, rest: seq<byte>)
    ensures ReadBlob(WriteBlob(s) + rest) == Some((s, rest)) <==> |s| < BLOB_LIMIT
  {
    BlobLength(s);
    hide Big, FromBig, Values, Unsigned;
    var size := Big(Unsigned(|s|, 4), 4);
    var b := WriteBlob(s) + rest;
    assert b[..4] == size;
    if |s| < BLOB_LIMIT {
      assert b[4..4 + |s|] == s && b[4 + |s|..] == rest;
    }
  }

  lemma HeadRoundTrip(h: Head, rest: seq<byte>)
    requires Fits(h)
    ensures FromPacket(ToPacket([], h) + rest) == Some((h, rest))
  {
    hide WriteNumber, ReadNumber, WriteBlob, ReadBlob;
    var b' := WriteBlob(h.methodName) + rest;
    var b := WriteBlob(h.serviceName) + b';
    NumberRoundTrip(h.sequence, b);
    BlobRoundTrip(h.serviceName, b');
    BlobRoundTrip(h.methodName, rest);
    assert ToPacket([], h) + rest == WriteNumber(h.sequence) + b;
  }
}
