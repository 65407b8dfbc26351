/** The receive buffer of `network/recv_buffer.cpp`: one array, a read and a write position, and a
    compaction that moves the unread bytes to the front. */
module RecvBuffers {
  import opened Bytes

  const BUFFER_COUNT := 10

  class RecvBuffer {
    const bufferSize: nat
    const capacity: nat
    const buffer: array<byte>
    var readPos: nat
    var writePos: nat

    ghost predicate Valid()
      reads this
    {
      && capacity == bufferSize * BUFFER_COUNT && buffer.Length == capacity
      && readPos <= writePos <= capacity
    }

    /** The bytes received and not yet read. */
    ghost function Unread(): seq<byte>
      reads this, buffer
      requires Valid()
    {
      buffer[readPos..writePos]
    }

    constructor (size: nat)
      ensures Valid() && bufferSize == size && fresh(buffer) && readPos == writePos == 0
    {
      bufferSize := size;
      capacity := size * BUFFER_COUNT;
      buffer := new byte[size * BUFFER_COUNT](_ => 0);
      readPos, writePos := 0, 0;
    }

    function DataSize(): int
      reads this
    {
      writePos - readPos
    }

    function FreeSize(): int
      reads this
    {
      capacity - writePos
    }

    /** `memcpy` to the front of the buffer: source and destination must not overlap. */
    method CopyToFront(from: nat, n: nat)
      requires from + n <= buffer.Length && n <= from
      modifies buffer
      ensures buffer[..n] == old(buffer[from..from + n]) && buffer[n..] == old(buffer[n..])
    {
      for i := 0 to n
        invariant buffer[..i] == old(buffer[from..from + i])
        invariant buffer[i..] == old(buffer[i..])
      {
        assert buffer[from + i] == old(buffer[from + i]) by {
          assert buffer[i..][from] == old(buffer[i..])[from];
        }
        buffer[i] := buffer[from + i];
        assert buffer[i + 1..] == old(buffer[i..])[1..] == old(buffer[i + 1..]);
        assert old(buffer[from..from + i + 1]) == old(buffer[from..from + i]) + [old(buffer[from + i])];
      }
    }

    /** Keeps the unread bytes.  When it copies, the unread bytes must lie clear of their target. */
    method Clear()
      requires Valid()
      requires 0 < DataSize() && bufferSize > FreeSize() ==> DataSize() <= readPos
      modifies this`readPos, this`writePos, buffer
      ensures Valid() && Unread() == old(Unread())
      ensures old(DataSize()) == 0 ==> readPos == writePos == 0
      ensures old(DataSize()) > 0 && bufferSize <= old(FreeSize()) ==> readPos == old(readPos) && writePos == old(writePos)
      ensures old(DataSize()) > 0 && bufferSize > old(FreeSize()) ==> readPos == 0 && writePos == old(DataSize())
    {
      var dataSize := DataSize();
      if dataSize == 0 {
        readPos, writePos := 0, 0;
      } else if bufferSize > FreeSize() {
        CopyToFront(readPos, dataSize);
        readPos, writePos := 0, dataSize;
      }
    }

    method OnRead(count: nat) returns (ok: bool)
      requires Valid()
      modifies this`readPos
      ensures Valid() && (ok <==> count <= old(DataSize()))
      ensures readPos == if ok then old(readPos) + count else old(readPos)
    {
      if count > DataSize() {
        return false;
      }
      readPos := readPos + count;
      ok := true;
    }

    method OnWrite(count: nat) returns (ok: bool)
      requires Valid()
      modifies this`writePos
      ensures Valid() && (ok <==> count <= old(FreeSize()))
      ensures writePos == if ok then old(writePos) + count else old(writePos)
    {
      if count > FreeSize() {
        return false;
      }
      writePos := writePos + count;
      ok := true;
    }
  }
}
