/** The receiving half of `network/session.cpp`: completions write into the receive buffer, and
    `ProcessRecv` hands whole packets to `OnRecvPacket`. */
module PacketSessions {
  import opened Basics
  import opened Bytes
  import opened Framing
  import opened RecvBuffers

  const BUFFER_SIZE := 0x1_0000

  class PacketSession {
    const recv: RecvBuffer
    var connected: bool
    var delivered: seq<seq<byte>>   // the arguments of the OnRecvPacket calls so far
    ghost var stream: seq<byte>     // every byte the peer has sent so far

    ghost predicate Sound()
      reads this, recv, recv.buffer
    {
      recv.Valid() && recv.bufferSize == BUFFER_SIZE
    }

    /** Between completions: the unread window is the undelivered suffix of the stream, everything
        before it has been delivered as packets, and a full receive fits behind the window. */
    ghost predicate Valid()
      reads this, recv, recv.buffer
    {
      && Sound()
      && Live(stream) && Parse(stream) == Parsed(delivered, recv.Unread())
      && recv.FreeSize() >= recv.bufferSize
    }

    constructor ()
      ensures Valid() && connected && delivered == [] && stream == [] && fresh(recv) && fresh(recv.buffer)
    {
      recv := new RecvBuffer(BUFFER_SIZE);
      connected := true;
      delivered, stream := [], [];
    }

    /** Cuts packets off `window` until none is left whole, and returns the bytes consumed.  The loop
        gets stuck exactly when it reaches a header that announces size zero: from there the source
        turns for ever (`LoopEndsIffLive`), and the model returns. */
    method OnRecv(window: seq<byte>) returns (processLen: nat, stuck: bool)
      modifies this`delivered
      ensures processLen <= |window| && (stuck <==> !Live(window))
      ensures old(delivered) <= delivered && Concat(delivered[|old(delivered)|..]) == window[..processLen]
      ensures stuck ==> HasPacket(window[processLen..]) && Size(window[processLen..]) == 0
      ensures !stuck ==> window[processLen..] == Parse(window).rest && delivered == old(delivered) + Parse(window).packets
    {
      processLen, stuck := 0, false;
      ghost var start := |delivered|;
      assert window[0..] == window;
      while true
        invariant processLen <= |window| && (Live(window) <==> Live(window[processLen..]))
        invariant old(delivered) <= delivered && Concat(delivered[start..]) == window[..processLen]
        invariant Live(window) ==> Parse(window).rest == Parse(window[processLen..]).rest
        invariant Live(window) ==> old(delivered) + Parse(window).packets == delivered + Parse(window[processLen..]).packets
        decreases |window| - processLen
      {
        var dataSize := |window| - processLen;
        if dataSize < HEADER {
          break;
        }
        var size := Size(window[processLen..]);
        if dataSize < size {
          break;
        }
        if size == 0 {
          return processLen, true;
        }
        CutFirst(window[processLen..], delivered);
        HandOver(window, delivered, start, processLen, size);
        assert window[processLen..][size..] == window[processLen + size..];
        hide *;
        delivered := delivered + [window[processLen..][..size]];
        processLen := processLen + size;
      }
      NothingWhole(window[processLen..], delivered);
    }

    static lemma CutFirst(rest: seq<byte>, delivered: seq<seq<byte>>)
      requires |rest| >= HEADER && 0 < Size(rest) <= |rest|
      ensures Live(rest) <==> Live(rest[Size(rest)..])
      ensures Live(rest) ==> Parse(rest).rest == Parse(rest[Size(rest)..]).rest
      ensures Live(rest) ==>
        delivered + Parse(rest).packets == delivered + [rest[..Size(rest)]] + Parse(rest[Size(rest)..]).packets
    {
      hide Size;
    }

    static lemma HandOver(window: seq<byte>, delivered: seq<seq<byte>>, start: nat, at: nat, size: nat)
      requires start <= |delivered| && at + size <= |window| && Concat(delivered[start..]) == window[..at]
      ensures Concat((delivered + [window[at..][..size]])[start..]) == window[..at + size]
    {
      var packet := window[at..][..size];
      ConcatSnoc(delivered[start..], packet);
      assert (delivered + [packet])[start..] == delivered[start..] + [packet];
      assert window[..at + size] == window[..at] + packet;
    }

    static lemma NothingWhole(rest: seq<byte>, delivered: seq<seq<byte>>)
      requires |rest| < HEADER || |rest| < Size(rest)
      ensures Live(rest) && Parse(rest).rest == rest && delivered + Parse(rest).packets == delivered
    {
      hide Size;
    }

    method Disconnect()
      modifies this`connected
      ensures !connected
    {
      connected := false;
    }

    /** A completion of `numOfBytes`, which the kernel has put behind the window.  The session is
        disconnected on an empty completion and on one larger than the space offered, and on no
        other: whatever `OnRecv` consumes can be read. */
    method ProcessRecv(numOfBytes: nat) returns (stuck: bool)
      requires Sound() && connected
      modifies this`connected, this`delivered, recv, recv.buffer
      ensures Sound() && (connected <==> 0 < numOfBytes <= old(recv.FreeSize()))
      ensures !connected ==> delivered == old(delivered) && recv.Unread() == old(recv.Unread())
      ensures stuck <==> connected && !Live(old(recv.buffer[recv.readPos..])[..old(recv.DataSize()) + numOfBytes])
      ensures connected && !stuck ==> recv.FreeSize() >= recv.bufferSize
      ensures connected && !stuck ==>
        var parsed := Parse(old(recv.buffer[recv.readPos..])[..old(recv.DataSize()) + numOfBytes]);
        recv.Unread() == parsed.rest && delivered == old(delivered) + parsed.packets
    {
      hide Parse, Live, Size, HasPacket;
      ghost var behind := recv.buffer[recv.readPos..];
      stuck := false;
      if numOfBytes == 0 {
        Disconnect();
        return;
      }
      var ok := recv.OnWrite(numOfBytes);
      if !ok {
        Disconnect();
        return;
      }
      var dataSize := recv.DataSize();
      var window := recv.buffer[recv.readPos..recv.writePos];
      assert window == behind[..dataSize];
      var processLen;
      processLen, stuck := OnRecv(window);
      if stuck {
        return;
      }
      RestHasNoPacket(window);
      LeftoverBounded(window[processLen..]);
      var readable := processLen <= dataSize;
      if readable {
        readable := recv.OnRead(processLen);
      }
      if !readable {
        assert false;   // the read-error disconnect
      }
      assert recv.Unread() == window[processLen..];
      recv.Clear();
    }

    /** The kernel writes `chunk` into the offered space and completes; the session answers, or gets
        stuck, which it does exactly when the stream so far announces a packet of size zero. */
    method Receive(chunk: seq<byte>) returns (stuck: bool)
      requires Valid() && connected && 0 < |chunk| <= recv.FreeSize()
      modifies this, recv, recv.buffer
      ensures connected && stream == old(stream) + chunk
      ensures stuck <==> !Live(stream)
      ensures !stuck ==> Valid()
    {
      hide Parse, Live, Size, HasPacket;
      ghost var unread := recv.Unread();
      FillOffered(chunk);
      WindowGrows(unread, chunk);
      LiveAppend(stream, chunk);
      if Live(stream + chunk) {
        ParseAppend(stream, chunk);
      }
      stream := stream + chunk;
      stuck := ProcessRecv(|chunk|);
    }

    lemma WindowGrows(unread: seq<byte>, chunk: seq<byte>)
      requires Sound() && |chunk| <= recv.FreeSize() && recv.Unread() == unread
      requires recv.buffer[recv.writePos..recv.writePos + |chunk|] == chunk
      ensures recv.buffer[recv.readPos..][..recv.DataSize() + |chunk|] == unread + chunk
    {
      assert recv.buffer[recv.readPos..][..recv.DataSize() + |chunk|] == recv.buffer[recv.readPos..recv.writePos + |chunk|];
    }

    /** The bytes a `WSARecv` of the offered space leaves behind the write position. */
    method FillOffered(chunk: seq<byte>)
      requires Sound() && |chunk| <= recv.FreeSize()
      modifies recv.buffer
      ensures recv.Unread() == old(recv.Unread())
      ensures recv.buffer[recv.writePos..recv.writePos + |chunk|] == chunk
    {
      for i := 0 to |chunk|
        invariant recv.Unread() == old(recv.Unread())
        invariant recv.buffer[recv.writePos..recv.writePos + i] == chunk[..i]
      {
        recv.buffer[recv.writePos + i] := chunk[i];
      }
    }

    /** The peer sends `ms`; the network cuts their bytes wherever it likes, never offering more than
        the session has room for.  Exactly those messages' packets are delivered, in order. */
    method ReceiveAll(ms: seq<Message>)
      requires Valid() && connected && stream == []
      requires forall m :: m in ms ==> Sendable(m)
      modifies this, recv, recv.buffer
      ensures Valid() && connected && delivered == Frames(ms) && recv.Unread() == []
    {
      var bytes := Concat(Frames(ms));
      var sent := 0;
      ParseFrames(ms);
      while sent < |bytes|
        invariant Valid() && connected && sent <= |bytes| && stream == bytes[..sent]
      {
        var n: int :| 0 < n <= |bytes| - sent && n <= recv.FreeSize();
        assert bytes[..sent] + bytes[sent..sent + n] == bytes[..sent + n];
        assert bytes == bytes[..sent + n] + bytes[sent + n..];
        ParseAppend(bytes[..sent + n], bytes[sent + n..]);
        var stuck := Receive(bytes[sent..sent + n]);
        sent := sent + n;
      }
      assert bytes[..sent] == bytes;
    }
  }
}
