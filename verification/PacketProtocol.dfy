/** The framing layer of 3rd/llbc/llbc/src/comm/protocol/PacketProtocol.cpp: blocks of received
    bytes are cut into packets of a fixed-size header and a payload whose length the header
    gives.  The reference is a decoder that takes one byte at a time.  */
module PacketProtocol {
  import opened Wrappers
  import opened Bytes
  import opened HeaderAssembler
  import opened PacketHeader

  /** The header size, the reading of a header's length field, which counts the whole packet,
      and the session's limit on it.  Wire below is the source's own.  */
  datatype Config = Config(headerLen: nat, lengthOf: seq<byte> -> nat, maxLen: nat)

  datatype Packet = Packet(header: seq<byte>, payload: seq<byte>)

  predicate ValidHeader(cfg: Config, header: seq<byte>) {
    |header| == cfg.headerLen && cfg.headerLen <= cfg.lengthOf(header) <= cfg.maxLen
  }

  // ---------------------------------------------------------------------
  // The byte-by-byte decoder
  // ---------------------------------------------------------------------

  /** `header` is what has come of the next header; `packet` the header of the packet whose
      payload is being received.  */
  datatype State = State(
    header: seq<byte>, packet: Option<seq<byte>>, payload: seq<byte>, out: seq<Packet>, failed: bool)

  const START: State := State([], None, [], [], false)

  /** A payload that is complete makes a packet. */
  function Settle(cfg: Config, s: State): State {
    if s.packet.Some? && |s.payload| + cfg.headerLen >= cfg.lengthOf(s.packet.value)
    then s.(packet := None, payload := [], out := s.out + [Packet(s.packet.value, s.payload)])
    else s
  }

  function Step(cfg: Config, s: State, b: byte): State {
    if s.failed then s
    else if s.packet.Some? then Settle(cfg, s.(payload := s.payload + [b]))
    else
      var header := s.header + [b];
      if |header| < cfg.headerLen then s.(header := header)
      else if !ValidHeader(cfg, header) then s.(header := [], failed := true)
      else Settle(cfg, s.(header := [], packet := Some(header)))
  }

  function Run(cfg: Config, s: State, bytes: seq<byte>): State {
    if bytes == [] then s else Step(cfg, Run(cfg, s, bytes[..|bytes| - 1]), bytes[|bytes| - 1])
  }

  /** A state between bytes. */
  predicate Between(cfg: Config, s: State) {
    && cfg.headerLen > 0 && |s.header| < cfg.headerLen && (s.packet.None? ==> s.payload == [])
    && (s.packet.Some? ==>
          && s.header == [] && ValidHeader(cfg, s.packet.value)
          && |s.payload| + cfg.headerLen < cfg.lengthOf(s.packet.value))
  }

  lemma {:induction false} RunAppend(cfg: Config, s: State, a: seq<byte>, b: seq<byte>)
    ensures Run(cfg, s, a + b) == Run(cfg, Run(cfg, s, a), b)
    decreases |b|
  {
    hide Step;
    if b == [] {
      assert a + b == a;
    } else {
      var n := |b| - 1;
      assert (a + b)[..|a + b| - 1] == a + b[..n];
      RunAppend(cfg, s, a, b[..n]);
    }
  }

  lemma {:induction false} RunBetween(cfg: Config, s: State, bytes: seq<byte>)
    requires Between(cfg, s)
    ensures Between(cfg, Run(cfg, s, bytes))
    decreases |bytes|
  {
    if bytes != [] { RunBetween(cfg, s, bytes[..|bytes| - 1]); }
  }

  lemma {:induction false} RunFailed(cfg: Config, s: State, bytes: seq<byte>)
    requires s.failed
    ensures Run(cfg, s, bytes) == s
    decreases |bytes|
  {
    if bytes != [] { RunFailed(cfg, s, bytes[..|bytes| - 1]); }
  }

  /** What was decoded already does not matter to what comes. */
  lemma {:induction false} RunOut(cfg: Config, s: State, bytes: seq<byte>, out: seq<Packet>)
    ensures Run(cfg, s.(out := out + s.out), bytes) == Run(cfg, s, bytes).(out := out + Run(cfg, s, bytes).out)
    decreases |bytes|
  {
    if bytes != [] {
      var n := |bytes| - 1;
      RunOut(cfg, s, bytes[..n], out);
      StepOut(cfg, Run(cfg, s, bytes[..n]), bytes[n], out);
    }
  }

  lemma StepOut(cfg: Config, s: State, b: byte, out: seq<Packet>)
    ensures Step(cfg, s.(out := out + s.out), b) == Step(cfg, s, b).(out := out + Step(cfg, s, b).out)
  {
    if s.packet.Some? {
      assert out + (s.out + [Packet(s.packet.value, s.payload + [b])]) ==
        (out + s.out) + [Packet(s.packet.value, s.payload + [b])];
    } else {
      assert out + (s.out + [Packet(s.header + [b], s.payload)]) == (out + s.out) + [Packet(s.header + [b], s.payload)];
    }
  }

  // ---------------------------------------------------------------------
  // Runs of bytes at once
  // ---------------------------------------------------------------------

  /** Bytes that do not complete the header are just collected. */
  lemma {:induction false} HeaderPart(cfg: Config, s: State, bytes: seq<byte>)
    requires Between(cfg, s) && !s.failed && s.packet.None? && |s.header| + |bytes| < cfg.headerLen
    ensures Run(cfg, s, bytes) == s.(header := s.header + bytes)
    decreases |bytes|
  {
    if bytes == [] {
      assert s.header + bytes == s.header;
    } else {
      var n := |bytes| - 1;
      HeaderPart(cfg, s, bytes[..n]);
      assert s.header + bytes[..n] + [bytes[n]] == s.header + bytes;
    }
  }

  lemma HeaderWhole(cfg: Config, s: State, bytes: seq<byte>)
    requires Between(cfg, s) && !s.failed && s.packet.None? && |s.header| + |bytes| == cfg.headerLen
    ensures var header := s.header + bytes;
      Run(cfg, s, bytes) ==
        if ValidHeader(cfg, header) then Settle(cfg, s.(header := [], packet := Some(header)))
        else s.(header := [], failed := true)
  {
    var n := |bytes| - 1;
    HeaderPart(cfg, s, bytes[..n]);
    assert s.header + bytes[..n] + [bytes[n]] == s.header + bytes;
  }

  /** Payload bytes up to the end of the packet. */
  lemma {:induction false} PayloadPart(cfg: Config, s: State, bytes: seq<byte>)
    requires Between(cfg, s) && !s.failed && s.packet.Some?
    requires |s.payload| + |bytes| + cfg.headerLen <= cfg.lengthOf(s.packet.value)
    ensures Run(cfg, s, bytes) == Settle(cfg, s.(payload := s.payload + bytes))
    decreases |bytes|
  {
    if bytes == [] {
      assert s.payload + bytes == s.payload;
    } else {
      var n := |bytes| - 1;
      PayloadPart(cfg, s, bytes[..n]);
      assert s.payload + bytes[..n] + [bytes[n]] == s.payload + bytes;
    }
  }

  // ---------------------------------------------------------------------
  // The round trip
  // ---------------------------------------------------------------------

  /** A packet as Send writes it: its header carries its length. */
  predicate WellFormed(cfg: Config, p: Packet) {
    ValidHeader(cfg, p.header) && cfg.lengthOf(p.header) == cfg.headerLen + |p.payload|
  }

  function Encode(packets: seq<Packet>): seq<byte> {
    if packets == [] then []
    else
      var n := |packets| - 1;
      Encode(packets[..n]) + packets[n].header + packets[n].payload
  }

  lemma DecodeOne(cfg: Config, s: State, p: Packet)
    requires cfg.headerLen > 0 && !s.failed && s == START.(out := s.out) && WellFormed(cfg, p)
    ensures Run(cfg, s, p.header + p.payload) == START.(out := s.out + [p])
  {
    RunAppend(cfg, s, p.header, p.payload);
    HeaderWhole(cfg, s, p.header);
    assert [] + p.header == p.header;
    var t := Run(cfg, s, p.header);
    if p.payload != [] {
      PayloadPart(cfg, t, p.payload);
      assert [] + p.payload == p.payload;
    }
  }

  lemma EncodeLast(packets: seq<Packet>)
    requires packets != []
    ensures var n := |packets| - 1;
      Encode(packets) == Encode(packets[..n]) + (packets[n].header + packets[n].payload)
  {
  }

  /** Decoding what was sent gives the packets sent. */
  lemma {:induction false} DecodeEncode(cfg: Config, packets: seq<Packet>)
    requires cfg.headerLen > 0 && forall i :: 0 <= i < |packets| ==> WellFormed(cfg, packets[i])
    ensures Run(cfg, START, Encode(packets)) == START.(out := packets)
    decreases |packets|
  {
    hide WellFormed;
    if packets != [] {
      hide Run, Encode;
      var n := |packets| - 1;
      var p, front := packets[n], packets[..n];
      EncodeLast(packets);
      DecodeEncode(cfg, front);
      RunAppend(cfg, START, Encode(front), p.header + p.payload);
      DecodeOne(cfg, START.(out := front), p);
      assert front + [p] == packets;
    }
  }

  // ---------------------------------------------------------------------
  // The protocol object
  // ---------------------------------------------------------------------

  class Protocol {
    const cfg: Config
    const assembler: Assembler
    var packet: Option<seq<byte>>
    var payload: seq<byte>
    var payloadNeedRecv: nat
    var payloadRecved: nat

    ghost predicate Valid()
      reads this, assembler, assembler.header
    {
      && assembler.Valid() && assembler.headerLen == cfg.headerLen && Between(cfg, View())
      && payloadRecved == |payload|
      && payloadNeedRecv == if packet.Some? then cfg.lengthOf(packet.value) - cfg.headerLen else 0
    }

    /** The decoder state this object is in, with nothing decoded yet. */
    ghost function View(): State
      requires assembler.Valid()
      reads this, assembler, assembler.header
    {
      State(assembler.Received(), packet, payload, [], false)
    }

    constructor (cfg: Config)
      requires cfg.headerLen > 0
      ensures Valid() && View() == START && fresh(assembler) && fresh(assembler.header) && this.cfg == cfg
    {
      this.cfg := cfg;
      assembler := new Assembler(cfg.headerLen);
      packet, payload, payloadNeedRecv, payloadRecved := None, [], 0, 0;
    }

    /** A packet whose payload is being received, possibly an empty one. */
    ghost predicate InPayload()
      reads this, assembler, assembler.header
    {
      && cfg.headerLen > 0 && assembler.Valid() && assembler.headerLen == cfg.headerLen && assembler.Received() == []
      && packet.Some? && ValidHeader(cfg, packet.value)
      && payloadNeedRecv == cfg.lengthOf(packet.value) - cfg.headerLen && payloadRecved == |payload| <= payloadNeedRecv
      && (payload != [] ==> |payload| < payloadNeedRecv)
    }

    /** The first half of Recv's loop body: the header. */
    method ReadHeader(data: seq<byte>) returns (r: Progress, used: nat)
      requires Valid() && packet.None? && data != []
      modifies this, assembler, assembler.header
      ensures used <= |data|
      ensures r.More? ==> used == |data| && Valid() && View() == Run(cfg, old(View()), data)
      ensures r.Bad? ==> Valid() && View() == START && Run(cfg, old(View()), data[..used]).failed
      ensures r.Ready? ==> used > 0 && InPayload() && Run(cfg, old(View()), data[..used]) == Settle(cfg, View())
    {
      ghost var v := View();
      var done: bool;
      done, used := assembler.Assemble(data);
      assert v.header == old(assembler.Received());
      if !done {
        assert data[..used] == data;
        HeaderPart(cfg, v, data);
        return More, used;
      }
      HeaderWhole(cfg, v, data[..used]);
      var header := assembler.header[..];
      assert header == v.header + data[..used];
      if cfg.lengthOf(header) < cfg.headerLen || cfg.lengthOf(header) > cfg.maxLen {
        assembler.Reset();
        packet, payloadNeedRecv := None, 0;
        return Bad, used;
      }
      packet, payloadNeedRecv := Some(header), cfg.lengthOf(header) - cfg.headerLen;
      assembler.Reset();
      return Ready, used;
    }

    /** The second half: the payload. */
    method ReadPayload(data: seq<byte>) returns (done: bool, p: Packet, used: nat)
      requires InPayload()
      modifies this
      ensures Valid() && used <= |data|
      ensures !done ==> used == |data| && View() == Run(cfg, Settle(cfg, old(View())), data)
      ensures done ==>
        && used == old(payloadNeedRecv - payloadRecved) && View() == START
        && Run(cfg, Settle(cfg, old(View())), data[..used]) == START.(out := [p])
    {
      ghost var v := View();
      var contentNeedRecv := payloadNeedRecv - payloadRecved;
      p := Packet(packet.value, payload + data[..Min(|data|, contentNeedRecv)]);
      if |data| < contentNeedRecv {
        PayloadPart(cfg, v, data);
        payload := payload + data;
        payloadRecved := payloadRecved + |data|;
        return false, p, |data|;
      }
      if contentNeedRecv > 0 {
        PayloadPart(cfg, v, data[..contentNeedRecv]);
      } else {
        assert data[..0] == [] && payload + [] == payload;
      }
      packet, payload, payloadRecved, payloadNeedRecv := None, [], 0, 0;
      return true, p, contentNeedRecv;
    }

    lemma MidPayload()
      requires Valid() && packet.Some?
      ensures InPayload() && payloadNeedRecv > payloadRecved
    {
    }

    /** One iteration of Recv's loop, on the rest of the block. */
    method Round(data: seq<byte>) returns (r: Progress, out: seq<Packet>, used: nat)
      requires Valid() && data != []
      modifies this, assembler, assembler.header
      ensures Valid() && used <= |data|
      ensures r.More? ==> out == [] && used == |data| && Run(cfg, old(View()), data) == View()
      ensures r.Bad? ==> View() == START && Run(cfg, old(View()), data[..used]).failed
      ensures r.Ready? ==> used > 0 && Run(cfg, old(View()), data[..used]) == View().(out := out)
    {
      hide Run, Settle, Between, InPayload, ValidHeader;
      ghost var v := View();
      out, used := [], 0;
      if packet.None? {
        r, used := ReadHeader(data);
        if !r.Ready? { return; }
      } else {
        MidPayload();
        SettleIdle(cfg, v);
        RunNone(cfg, v, data);
      }
      ghost var x := Settle(cfg, View());
      assert Run(cfg, v, data[..used]) == x;
      var done: bool, p: Packet, more: nat;
      done, p, more := ReadPayload(data[used..]);
      RunSplit(cfg, v, data, used, more);
      assert !done ==> data[used..][..more] == data[used..];
      used := used + more;
      if done {
        r, out := Ready, [p];
      } else {
        r := More;
        assert data[..used] == data;
      }
    }

    /** Recv decodes a block exactly as the byte-by-byte decoder does, except that a block in
        which a header is bad gives up the packets completed earlier in that block.  */
    method Recv(block: seq<byte>) returns (ok: bool, out: seq<Packet>)
      requires Valid()
      modifies this, assembler, assembler.header
      ensures var s := Run(cfg, old(View()), block);
        && Valid() && ok == !s.failed
        && if ok then out == s.out && View() == s.(out := []) else out == [] && View() == START
    {
      hide Run, Between;
      ghost var v := View();
      var pos: nat := 0;
      out := [];
      RunNone(cfg, v, block);
      while pos < |block|
        invariant Valid() && pos <= |block| && Run(cfg, v, block[..pos]) == View().(out := out)
      {
        ghost var w := View();
        var r, more, used := Round(block[pos..]);
        Advance(cfg, v, block, pos, used, w, out);
        match r {
          case More =>
            assert block[pos..][..used] == block[pos..] && block[..pos + used] == block && out + [] == out;
            return true, out;
          case Bad =>
            BadBlock(cfg, v, block, pos + used);
            return false, [];
          case Ready =>
            out := out + more;
            pos := pos + used;
        }
      }
      assert block[..pos] == block;
      ok := true;
    }

    /** Recv called for one block after the other, up to one that fails: that is when the
        session is removed.  `good` counts the blocks before it.  Whatever the blocks, the
        packets handed on are those of the whole stream up to the failing block.  */
    method RecvAll(blocks: seq<seq<byte>>) returns (ok: bool, out: seq<Packet>, good: nat)
      requires Valid()
      modifies this, assembler, assembler.header
      ensures good <= |blocks| && Valid()
      ensures var s := Run(cfg, old(View()), Concat(blocks[..good])); !s.failed && out == s.out
      ensures ok == !Run(cfg, old(View()), Concat(blocks)).failed && (ok ==> good == |blocks|)
      ensures !ok ==> good < |blocks| && Run(cfg, old(View()), Concat(blocks[..good + 1])).failed
    {
      hide Run, Between;
      ghost var v := View();
      out, good := [], 0;
      RunNone(cfg, v, []);
      while good < |blocks|
        invariant Valid() && good <= |blocks| && Run(cfg, v, Concat(blocks[..good])) == View().(out := out)
      {
        ghost var w := View();
        var fine, more := Recv(blocks[good]);
        NextBlock(cfg, v, blocks, good, w, out);
        if !fine {
          FailedStream(cfg, v, blocks, good + 1);
          return false, out, good;
        }
        out := out + more;
        good := good + 1;
      }
      assert blocks[..good] == blocks;
      ok := true;
    }
  }

  datatype Progress = More | Bad | Ready

  lemma RunNone(cfg: Config, s: State, bytes: seq<byte>)
    ensures Run(cfg, s, bytes[..0]) == s
  {
  }

  lemma RunSplit(cfg: Config, v: State, block: seq<byte>, pos: nat, used: nat)
    requires pos + used <= |block|
    ensures Run(cfg, v, block[..pos + used]) == Run(cfg, Run(cfg, v, block[..pos]), block[pos..][..used])
  {
    hide Run;
    assert block[..pos + used] == block[..pos] + block[pos..][..used];
    RunAppend(cfg, v, block[..pos], block[pos..][..used]);
  }

  /** The decoder over the next piece of a block, on top of what is decoded already. */
  lemma Advance(cfg: Config, v: State, block: seq<byte>, pos: nat, used: nat, x: State, out: seq<Packet>)
    requires pos + used <= |block| && Run(cfg, v, block[..pos]) == x.(out := out) && x.out == []
    ensures var y := Run(cfg, x, block[pos..][..used]); Run(cfg, v, block[..pos + used]) == y.(out := out + y.out)
  {
    hide Run;
    RunSplit(cfg, v, block, pos, used);
    assert out + x.out == out;
    RunOut(cfg, x, block[pos..][..used], out);
  }

  lemma NextBlock(cfg: Config, v: State, blocks: seq<seq<byte>>, i: nat, x: State, out: seq<Packet>)
    requires i < |blocks| && Run(cfg, v, Concat(blocks[..i])) == x.(out := out) && x.out == []
    ensures var y := Run(cfg, x, blocks[i]); Run(cfg, v, Concat(blocks[..i + 1])) == y.(out := out + y.out)
  {
    hide Run, Concat;
    ConcatNext(blocks, i);
    RunAppend(cfg, v, Concat(blocks[..i]), blocks[i]);
    assert out + x.out == out;
    RunOut(cfg, x, blocks[i], out);
  }

  lemma {:induction false} FailedStream(cfg: Config, v: State, blocks: seq<seq<byte>>, i: nat)
    requires i <= |blocks| && Run(cfg, v, Concat(blocks[..i])).failed
    ensures Run(cfg, v, Concat(blocks)).failed
    decreases |blocks| - i
  {
    hide Run, Concat;
    if i == |blocks| {
      assert blocks[..i] == blocks;
    } else {
      ConcatNext(blocks, i);
      RunAppend(cfg, v, Concat(blocks[..i]), blocks[i]);
      RunFailed(cfg, Run(cfg, v, Concat(blocks[..i])), blocks[i]);
      FailedStream(cfg, v, blocks, i + 1);
    }
  }

  lemma BadBlock(cfg: Config, v: State, block: seq<byte>, k: nat)
    requires k <= |block| && Run(cfg, v, block[..k]).failed
    ensures Run(cfg, v, block).failed
  {
    hide Run;
    assert block == block[..k] + block[k..];
    RunAppend(cfg, v, block[..k], block[k..]);
    RunFailed(cfg, Run(cfg, v, block[..k]), block[k..]);
  }

  lemma SettleIdle(cfg: Config, s: State)
    requires Between(cfg, s)
    ensures Settle(cfg, s) == s
  {
  }

  // ---------------------------------------------------------------------
  // From sender to receiver
  // ---------------------------------------------------------------------

  /** The source's header, and a receiver's limit on the length of a packet. */
  function Wire(maxLen: nat): Config {
    Config(HEADER_LEN, LengthOf, maxLen)
  }

  datatype Message = Message(fields: Fields, payload: seq<byte>)

  /** What Send writes. */
  function Sent(m: Message): Packet {
    Packet(Header(m.fields, |m.payload|), m.payload)
  }

  /** What the packet handed on by Recv says. */
  function Arrived(p: Packet): Message
    requires |p.header| == HEADER_LEN
  {
    Message(FieldsOf(p.header), p.payload)
  }

  /** A packet sent is one the receiver can frame if and only if its length is within the
      receiver's limit and does not overflow the length field.  */
  lemma SentFitsIff(m: Message, maxLen: nat)
    requires PacketHeader.Valid(m.fields)
    ensures WellFormed(Wire(maxLen), Sent(m)) <==>
      HEADER_LEN + |m.payload| <= maxLen && HEADER_LEN + |m.payload| < 0x1_0000_0000
    ensures Arrived(Sent(m)) == m.(fields := Cut(m.fields))
  {
    HeaderRoundTrip(m.fields, |m.payload|);
    SmallValues();
    var n := HEADER_LEN + |m.payload|;
    if n < 0x1_0000_0000 { ModSmall(n, 0x1_0000_0000); }
    hide Header, FieldsOf, LengthOf;
  }

  /** A header makes the receiver give up exactly when its length field is below the header's
      own size or above the receiver's limit.  */
  lemma BadLengthIff(maxLen: nat, header: seq<byte>)
    requires |header| == HEADER_LEN
    ensures Run(Wire(maxLen), START, header).failed <==>
      FromBig(header[..4]) < 28 || FromBig(header[..4]) > maxLen
  {
    HeaderWhole(Wire(maxLen), START, header);
    assert [] + header == header;
    assert header[0..4] == header[..4];
    hide Run, FromBig;
  }

  /** End to end: whatever messages are sent, if each is within the receiver's limit, then
      however their bytes are cut into blocks receiving them gives exactly those messages,
      in order, with status and flags cut to 16 bits.  */
  method SendAndReceive(maxLen: nat, messages: seq<Message>, blocks: seq<seq<byte>>)
      returns (ok: bool, out: seq<Packet>)
    requires forall i :: 0 <= i < |messages| ==> PacketHeader.Valid(messages[i].fields)
    requires forall i :: 0 <= i < |messages| ==>
      HEADER_LEN + |messages[i].payload| <= maxLen && HEADER_LEN + |messages[i].payload| < 0x1_0000_0000
    requires Concat(blocks) == Encode(AllSent(messages))
    ensures ok && |out| == |messages|
    ensures forall i :: 0 <= i < |out| ==>
      |out[i].header| == HEADER_LEN && Arrived(out[i]) == messages[i].(fields := Cut(messages[i].fields))
  {
    var cfg, packets := Wire(maxLen), AllSent(messages);
    forall i | 0 <= i < |messages|
      ensures WellFormed(cfg, packets[i]) && Arrived(packets[i]) == messages[i].(fields := Cut(messages[i].fields))
    {
      SentFitsIff(messages[i], maxLen);
    }
    hide Run, WellFormed, Arrived, Encode;
    DecodeEncode(cfg, packets);
    var protocol := new Protocol(cfg);
    var good: nat;
    ok, out, good := protocol.RecvAll(blocks);
    assert blocks[..|blocks|] == blocks;
  }

  function AllSent(messages: seq<Message>): (packets: seq<Packet>)
    ensures |packets| == |messages|
  {
    seq(|messages|, i requires 0 <= i < |messages| => Sent(messages[i]))
  }

  lemma BadHeader(cfg: Config, packets: seq<Packet>, bad: seq<byte>)
    requires cfg.headerLen > 0 && (forall i :: 0 <= i < |packets| ==> WellFormed(cfg, packets[i]))
    requires |bad| == cfg.headerLen && !ValidHeader(cfg, bad)
    ensures Run(cfg, START, Encode(packets) + bad).failed
  {
    DecodeEncode(cfg, packets);
    RunAppend(cfg, START, Encode(packets), bad);
    HeaderWhole(cfg, START.(out := packets), bad);
    assert [] + bad == bad;
  }

  /** Where a bad header follows good packets, it matters how the bytes were cut: packets that
      came in a block of their own are received, those that came in one block with the bad
      header are lost.  */
  method BadHeaderLoses(cfg: Config, packets: seq<Packet>, bad: seq<byte>)
      returns (apart: seq<Packet>, together: seq<Packet>)
    requires cfg.headerLen > 0 && (forall i :: 0 <= i < |packets| ==> WellFormed(cfg, packets[i]))
    requires |bad| == cfg.headerLen && !ValidHeader(cfg, bad)
    ensures apart == packets && together == []
  {
    DecodeEncode(cfg, packets);
    BadHeader(cfg, packets, bad);
    BadHeader(cfg, [], bad);
    assert Encode([]) + bad == bad;
    hide Run, WellFormed, Encode, ValidHeader, Between;
    var first := new Protocol(cfg);
    var ok: bool, more: seq<Packet>;
    ok, apart := first.Recv(Encode(packets));
    ok, more := first.Recv(bad);
    apart := apart + more;
    var second := new Protocol(cfg);
    ok, together := second.Recv(Encode(packets) + bad);
  }
}
