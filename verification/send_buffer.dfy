/** The send buffers of `network/send_buffer.cpp` as one thread uses them, and the framing writer
    `MakeSendBufferInternal` of `GameServer/network/game/game_client_packet_handler.h`, which fills
    such a buffer in place. */
module SendBuffers {
  import opened Basics
  import opened Bytes
  import opened Framing
  import SendChunks

  class SendBufferChunk {
    const buffer: array<byte>
    var open: bool
    var usedSize: nat

    ghost predicate Valid()
      reads this
    {
      buffer.Length == SendChunks.CHUNK_SIZE && usedSize <= SendChunks.CHUNK_SIZE
    }

    constructor ()
      ensures Valid() && !open && usedSize == 0 && fresh(buffer)
    {
      buffer := new byte[SendChunks.CHUNK_SIZE](_ => 0);
      open, usedSize := false, 0;
    }

    method Reset()
      requires Valid()
      modifies this`open, this`usedSize
      ensures Valid() && !open && FreeSize() == SendChunks.CHUNK_SIZE
    {
      open, usedSize := false, 0;
    }

    function FreeSize(): int
      reads this
    {
      SendChunks.CHUNK_SIZE - usedSize
    }

    /** Hands out the bytes behind the used ones, or nothing when there are too few. */
    method Open(allocSize: nat) returns (result: Option<SendBuffer>)
      requires Valid() && !open && allocSize <= SendChunks.CHUNK_SIZE
      modifies this`open
      ensures result == None <==> allocSize > FreeSize()
      ensures result == None ==> !open
      ensures result.Some? ==> open && fresh(result.value) && result.value.Holds(this, usedSize, allocSize)
    {
      if allocSize > FreeSize() {
        return None;
      }
      open := true;
      var sendBuffer := new SendBuffer(this, usedSize, allocSize);
      result := Some(sendBuffer);
    }

    method Close(writeSize: nat)
      requires Valid() && open && writeSize <= FreeSize()
      modifies this`open, this`usedSize
      ensures Valid() && !open && usedSize == old(usedSize) + writeSize
    {
      open, usedSize := false, usedSize + writeSize;
    }
  }

  class SendBuffer {
    const owner: SendBufferChunk
    const start: nat
    const allocSize: nat
    var writeSize: nat

    ghost predicate Holds(chunk: SendBufferChunk, at: nat, size: nat)
      reads this
    {
      owner == chunk && start == at && allocSize == size && writeSize == 0
    }

    constructor (chunk: SendBufferChunk, at: nat, size: nat)
      ensures Holds(chunk, at, size)
    {
      owner, start, allocSize, writeSize := chunk, at, size, 0;
    }

    method Close(size: nat)
      requires owner.Valid() && owner.open && size <= allocSize <= owner.FreeSize()
      modifies this, owner`open, owner`usedSize
      ensures owner.Valid() && !owner.open && owner.usedSize == old(owner.usedSize) + size && writeSize == size
    {
      writeSize := size;
      owner.Close(size);
    }

    /** Header and payload, in place. */
    method Fill(packetSize: nat, id: nat, payload: seq<byte>)
      requires start + HEADER + |payload| <= owner.buffer.Length
      modifies owner.buffer
      ensures owner.buffer[start..start + HEADER + |payload|] == ToLittleEndian(packetSize, 2) + ToLittleEndian(id, 2) + payload
      ensures owner.buffer[..start] == old(owner.buffer[..start])
    {
      hide ToLittleEndian;
      var buffer, size, tag := owner.buffer, ToLittleEndian(packetSize, 2), ToLittleEndian(id, 2);
      Put(buffer, start, size);
      ghost var first := buffer[..start + 2];
      assert first[start..] == size && first[..start] == old(buffer[..start]);
      Put(buffer, start + 2, tag);
      ghost var second := buffer[..start + HEADER];
      assert second[..start + 2] == first && second[start + 2..] == tag;
      Put(buffer, start + HEADER, payload);
      ghost var whole := buffer[..start + HEADER + |payload|];
      assert whole[..start + HEADER] == second && whole[start + HEADER..] == payload;
      assert whole[..start] == second[..start] == first[..start];
      assert whole[start..] == size + tag + payload by {
        assert second[start..] == size + tag by { assert second[start..start + 2] == first[start..]; }
      }
      assert buffer[start..start + HEADER + |payload|] == whole[start..] && buffer[..start] == whole[..start];
    }

    /** The bytes handed to the session. */
    ghost function Written(): seq<byte>
      requires start + writeSize <= owner.buffer.Length
      reads this, owner.buffer
    {
      owner.buffer[start..start + writeSize]
    }
  }

  /** Overwrites part of a chunk. */
  method Put(buffer: array<byte>, at: nat, bytes: seq<byte>)
    requires at + |bytes| <= buffer.Length
    modifies buffer
    ensures buffer[at..at + |bytes|] == bytes
    ensures buffer[..at] == old(buffer[..at])
  {
    for i := 0 to |bytes|
      invariant buffer[at..at + i] == bytes[..i] && buffer[..at] == old(buffer[..at])
    {
      buffer[at + i] := bytes[i];
    }
  }

  class SendBufferManager {
    var current: SendBufferChunk?       // this thread's LSendBufferChunk
    var chunks: seq<SendBufferChunk>

    ghost function Known(): set<SendBufferChunk>
      reads this
    {
      (set c | c in chunks) + if current == null then {} else {current}
    }

    /** No chunk is listed twice or shared with the current one, and none shares its bytes. */
    ghost predicate Apart()
      reads this, Known()
    {
      && (forall c :: c in Known() ==> c.Valid())
      && (current != null ==> current !in chunks)
      && (forall i, j :: 0 <= i < j < |chunks| ==> chunks[i] != chunks[j])
      && (forall c, d :: c in Known() && d in Known() && c != d ==> c.buffer != d.buffer)
    }

    ghost predicate Valid()
      reads this, Known()
    {
      Apart() && (current != null ==> !current.open)
    }

    /** The current chunk has so many free bytes. */
    ghost predicate HasRoom(size: nat)
      reads this, Known()
    {
      current != null && size <= current.FreeSize()
    }

    constructor ()
      ensures Valid() && current == null && chunks == []
    {
      current, chunks := null, [];
    }

    /** Replaces the current chunk by the last listed one, or by a new one when none is listed. */
    method Pop()
      requires Valid()
      modifies this, Known()
      ensures Valid() && current != null && current.usedSize == 0
      ensures old(chunks) == [] ==> chunks == [] && fresh(current) && fresh(current.buffer)
      ensures old(chunks) != [] ==> old(chunks) == chunks + [current]
      ensures forall c :: c in old(Known()) && c != current ==> unchanged(c)
    {
      if chunks != [] {
        current, chunks := chunks[|chunks| - 1], chunks[..|chunks| - 1];
      } else {
        current := new SendBufferChunk();
      }
      current.Reset();
    }

    /** The current chunk stays as long as it has room, and the buffer starts behind what is used of it;
        otherwise the last listed chunk takes its place, or a new one when none is listed, from its
        start on.  Never null for up to a chunk. */
    method Open(size: nat) returns (result: Option<SendBuffer>)
      requires Valid() && size <= SendChunks.CHUNK_SIZE
      modifies this, Known()
      ensures Apart() && current != null && current.Valid() && current.open && result.Some? && fresh(result.value)
      ensures result.value.Holds(current, current.usedSize, size) && size <= current.FreeSize()
      ensures old(HasRoom(size)) ==> current == old(current) && chunks == old(chunks) && current.usedSize == old(UsedSize())
      ensures !old(HasRoom(size)) ==> current.usedSize == 0
      ensures !old(HasRoom(size)) && old(chunks) != [] ==> old(chunks) == chunks + [current]
      ensures !old(HasRoom(size)) && old(chunks) == [] ==> chunks == [] && fresh(current) && fresh(current.buffer)
      ensures forall c :: c in old(Known()) && c != current ==> unchanged(c)
    {
      if current == null {
        Pop();
      }
      if current.FreeSize() < size {
        Pop();
      }
      result := current.Open(size);
    }

    ghost function UsedSize(): nat
      reads this, Known()
    {
      if current == null then 0 else current.usedSize
    }

    /** What happens to the current chunk alone keeps the chunks apart. */
    twostate lemma StaysApart()
      requires old(Apart()) && unchanged(this) && current != null && current.Valid()
      requires forall c :: c in old(Known()) && c != current ==> unchanged(c)
      ensures Apart()
    {}
  }

  lemma FrameIs(id: nat, payload: seq<byte>)
    requires |payload| <= MAX_PAYLOAD
    ensures Frame(id, payload) == ToLittleEndian(HEADER + |payload|, 2) + ToLittleEndian(id, 2) + payload
  {}

  /** `MakeSendBufferInternal`: header and payload are written in place into the space opened for
      them, and nothing in front of it in the chunk is touched.  The source's assertions stop the
      program, here `None`, for payloads that do not fit a chunk.  Where the 16-bit size wraps when the
      header is added, the source writes out of bounds: `inBounds` is false, and the model stops. */
  method MakeSendBufferInternal(manager: SendBufferManager, id: nat, payload: seq<byte>)
      returns (result: Option<SendBuffer>, inBounds: bool)
    requires manager.Valid() && id < 0x1_0000
    modifies manager, manager.Known(), set c | c in manager.Known() :: c.buffer
    ensures inBounds <==> |payload| % 0x1_0000 + HEADER < 0x1_0000
    ensures result.Some? <==> |payload| <= MAX_PAYLOAD
    ensures result.Some? ==> fresh(result.value) && result.value.owner == manager.current
    ensures result.Some? ==> manager.Valid() && manager.current != null && manager.current.Valid()
    ensures result.Some? ==> manager.current.usedSize == result.value.start + result.value.writeSize
    ensures result.Some? ==> result.value.Written() == Frame(id, payload)
    ensures result.Some? && !old(manager.HasRoom(HEADER + |payload|)) ==> result.value.start == 0
    ensures result.Some? && old(manager.HasRoom(HEADER + |payload|)) ==>
      manager.current == old(manager.current) && manager.chunks == old(manager.chunks) && result.value.start == old(manager.UsedSize())
    ensures result.Some? ==> forall c :: c in old(manager.Known()) && c == manager.current ==>
      c.buffer[..result.value.start] == old(c.buffer[..])[..result.value.start]
  {
    hide ToLittleEndian;
    var dataSize := |payload| % 0x1_0000;
    inBounds := dataSize + HEADER < 0x1_0000;
    if !inBounds {
      return None, false;
    }
    var packetSize := dataSize + HEADER;
    if packetSize > SendChunks.CHUNK_SIZE {
      return None, true;                 // the size assertion of `Open`
    }
    result := manager.Open(packetSize);
    if dataSize < |payload| {
      return None, true;                 // the assertion that serializing succeeded
    }
    assert manager.Apart();
    label Opened:
    var sendBuffer := result.value;
    assert packetSize == HEADER + |payload| && sendBuffer.start + packetSize <= sendBuffer.owner.buffer.Length;
    hide SendBufferManager.Apart, Frame;
    FrameIs(id, payload);
    sendBuffer.Fill(packetSize, id, payload);
    ghost var written := sendBuffer.owner.buffer[..];
    assert written[sendBuffer.start..sendBuffer.start + packetSize] == Frame(id, payload);
    sendBuffer.Close(packetSize);
    assert sendBuffer.owner.buffer[..] == written;
    assert old@Opened(manager.Apart()) && manager.current.Valid();
    assert forall c :: c in old@Opened(manager.Known()) && c != manager.current ==> unchanged@Opened(c);
    manager.StaysApart@Opened();
  }

  /** Two messages that fit together into the current chunk lie behind each other in it, and the second
      leaves the first as it is. */
  method MakeTwoInARow(manager: SendBufferManager, id: nat, payload: seq<byte>, id2: nat, payload2: seq<byte>)
      returns (first: SendBuffer, second: SendBuffer)
    requires manager.Valid() && id < 0x1_0000 && id2 < 0x1_0000
    requires manager.HasRoom(HEADER + |payload| + HEADER + |payload2|)
    modifies manager, manager.Known(), set c | c in manager.Known() :: c.buffer
    ensures first.owner == second.owner == old(manager.current)
    ensures first.start == old(manager.UsedSize()) && second.start == first.start + HEADER + |payload|
    ensures second.start + second.writeSize <= second.owner.buffer.Length
    ensures first.owner.buffer[first.start..second.start] == Frame(id, payload)
    ensures second.Written() == Frame(id2, payload2)
  {
    var r1, ok1 := MakeSendBufferInternal(manager, id, payload);
    first := r1.value;
    ghost var written := first.owner.buffer[..];
    var r2, ok2 := MakeSendBufferInternal(manager, id2, payload2);
    second := r2.value;
    assert first.owner.buffer[..second.start] == written[..second.start];
    assert first.owner.buffer[first.start..second.start] == written[first.start..second.start];
  }
}
