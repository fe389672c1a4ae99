/** `LLBC_PacketHeaderAssembler` of 3rd/llbc/llbc/src/comm/PacketHeaderAssembler.cpp: collects
    the bytes of a packet header that arrive in arbitrary pieces.  */
module HeaderAssembler {
  import opened Bytes

  function Concat<T>(pieces: seq<seq<T>>): seq<T> {
    if pieces == [] then [] else Concat(pieces[..|pieces| - 1]) + pieces[|pieces| - 1]
  }

  function Min(a: nat, b: nat): nat {
    if a <= b then a else b
  }

  class Assembler {
    const headerLen: nat
    const header: array<byte>
    var curRecved: nat

    ghost predicate Valid()
      reads this
    {
      header.Length == headerLen && curRecved <= headerLen
    }

    /** What has arrived of the header. */
    ghost function Received(): (s: seq<byte>)
      requires Valid()
      reads this, header
      ensures |s| == curRecved
    {
      header[..curRecved]
    }

    constructor (headerLen: nat)
      ensures Valid() && fresh(header) && this.headerLen == headerLen && Received() == []
    {
      this.headerLen := headerLen;
      header := new byte[headerLen](_ => 0);
      curRecved := 0;
    }

    /** memcpy(_header + _curRecved, data, len) and the advance of _curRecved. */
    method Append(data: seq<byte>)
      requires Valid() && curRecved + |data| <= headerLen
      modifies this, header
      ensures Valid() && Received() == old(Received()) + data
    {
      var n := curRecved;
      forall i | 0 <= i < |data| { header[n + i] := data[i]; }
      curRecved := n + |data|;
      assert header[n..n + |data|] == data;
      assert header[..n] == old(header[..n]);
      assert header[..n + |data|] == header[..n] + header[n..n + |data|];
    }

    /** Takes as much of the data as the header still needs. */
    method Assemble(data: seq<byte>) returns (done: bool, used: nat)
      requires Valid()
      modifies this, header
      ensures Valid() && used == Min(|data|, headerLen - |old(Received())|)
      ensures Received() == old(Received()) + data[..used] && (done <==> |Received()| == headerLen)
    {
      used := 0;
      if curRecved == headerLen {
        return true, 0;
      }
      var needSize := headerLen - curRecved;
      if |data| >= needSize {
        Append(data[..needSize]);
        return true, needSize;
      } else {
        Append(data);
        assert data[..|data|] == data;
        return false, |data|;
      }
    }

    method Reset()
      requires Valid()
      modifies this`curRecved
      ensures Valid() && Received() == []
    {
      curRecved := 0;
    }

    /** Fragmentation independence: whatever pieces the bytes come in, the header is complete
        exactly when enough have come, it is the first headerLen bytes of the stream after
        what had been received, and the bytes used add up to those it still needed.  A fresh
        assembler and one that was reset behave alike.  */
    method Feed(pieces: seq<seq<byte>>) returns (done: bool, used: nat)
      requires Valid()
      modifies this, header
      ensures Valid() && (done <==> |old(Received())| + |Concat(pieces)| >= headerLen)
      ensures used == Min(|Concat(pieces)|, headerLen - |old(Received())|)
      ensures Received() == old(Received()) + Concat(pieces)[..used]
    {
      used := 0;
      done := curRecved == headerLen;
      for i := 0 to |pieces|
        invariant Valid() && used == Min(|Concat(pieces[..i])|, headerLen - |old(Received())|)
        invariant Received() == old(Received()) + Concat(pieces[..i])[..used]
        invariant done <==> |Received()| == headerLen
      {
        ghost var before, was := Concat(pieces[..i]), used;
        ConcatNext(pieces, i);
        var now: nat;
        done, now := Assemble(pieces[i]);
        used := used + now;
        assert (before + pieces[i])[..used] == before[..was] + pieces[i][..now];
      }
      assert pieces[..|pieces|] == pieces;
    }
  }

  lemma ConcatNext<T>(pieces: seq<seq<T>>, i: nat)
    requires i < |pieces|
    ensures Concat(pieces[..i + 1]) == Concat(pieces[..i]) + pieces[i]
  {
    assert pieces[..i + 1][..i] == pieces[..i];
  }
}
