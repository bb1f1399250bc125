/**
 * Reading a PHP stream resource in chunks: `readFileChunk` gathers 8192-byte
 * `fread`s until it has at least `chunkSize` bytes or the stream ends.
 */
module Streams {
  import opened Common

  /** The length `readFileChunk` asks `fread` for. */
  const ReadSize := 8192

  /**
   * A readable stream over the bytes `data`, positioned at `pos`. One `fread`
   * returns at most `maxRead` bytes: a plain file serves whole requests, a
   * read-buffered stream (a URL, say) at most 8192 at a time.
   */
  class ByteStream {
    const data: string
    const maxRead: nat
    var pos: nat

    predicate Valid()
      reads this
    {
      pos <= |data| && maxRead > 0
    }

    constructor (data: string, maxRead: nat)
      requires maxRead > 0
      ensures Valid() && this.data == data && this.maxRead == maxRead && pos == 0
    {
      this.data := data;
      this.maxRead := maxRead;
      pos := 0;
    }

    /** `feof`: the cursor has reached the end of the data. */
    predicate Eof()
      reads this
    {
      pos >= |data|
    }

    /** `fread($handle, $length)`: the next bytes, as many as the request, the stream and the data allow. */
    method Read(length: nat) returns (chunk: string)
      requires Valid() && length > 0
      modifies this
      ensures Valid()
      ensures pos == old(pos) + Min(Min(length, maxRead), |data| - old(pos))
      ensures chunk == data[old(pos)..pos]
    {
      var n := Min(Min(length, maxRead), |data| - pos);
      chunk := data[pos..pos + n];
      pos := pos + n;
    }

    /** `stream_get_contents`: the rest of the data; the stream is then at its end. */
    method GetContents() returns (rest: string)
      requires Valid()
      modifies this
      ensures Valid() && Eof()
      ensures rest == data[old(pos)..]
    {
      rest := data[pos..];
      pos := |data|;
    }
  }

  /**
   * Where one `readFileChunk` leaves the cursor of a stream of `size` bytes
   * that is at `pos`, having already gathered `count` bytes, when each read
   * returns up to `step` bytes. It reads at least once unless the stream is
   * at its end; it stops short of `chunkSize` only at the end; and the last
   * read can overshoot `chunkSize` by less than one read.
   */
  function ChunkEnd(size: nat, pos: nat, count: nat, chunkSize: int, step: nat): (e: nat)
    requires pos <= size && step > 0
    ensures pos <= e <= size
    ensures pos < size ==> pos < e
    ensures count + (e - pos) < chunkSize ==> e == size
    ensures count + (e - pos) <= Max(chunkSize - 1, count) + step
    decreases size - pos
  {
    if pos == size then pos
    else
      var next := pos + Min(step, size - pos);
      if count + (next - pos) >= chunkSize then next
      else ChunkEnd(size, next, count + (next - pos), chunkSize, step)
  }

  /**
   * With full 8192-byte reads and a chunk size that is a positive multiple
   * of 8192, a chunk holds exactly `chunkSize` bytes, or all that is left
   * when that is less.
   */
  lemma {:induction false} ChunkEndExact(size: nat, pos: nat, count: nat, chunkSize: int)
    requires pos <= size
    requires chunkSize > 0 && chunkSize % ReadSize == 0
    requires count % ReadSize == 0 && count < chunkSize
    ensures count + (ChunkEnd(size, pos, count, chunkSize, ReadSize) - pos) == Min(chunkSize, count + (size - pos))
    decreases size - pos
  {
    if pos < size {
      assert count + ReadSize <= chunkSize by {
        assert count / ReadSize < chunkSize / ReadSize;
      }
      var next := pos + Min(ReadSize, size - pos);
      if next - pos < ReadSize {
        assert next == size;
      } else if count + ReadSize < chunkSize {
        ChunkEndExact(size, next, count + ReadSize, chunkSize);
      }
    }
  }

  /**
   * `readFileChunk($handle, $chunkSize)`: the bytes that follow the cursor,
   * up to where `ChunkEnd` says the reads stop.
   */
  method ReadFileChunk(handle: ByteStream, chunkSize: int) returns (giantChunk: string)
    requires handle.Valid()
    modifies handle
    ensures handle.Valid()
    ensures handle.pos == ChunkEnd(|handle.data|, old(handle.pos), 0, chunkSize, Min(ReadSize, handle.maxRead))
    ensures giantChunk == handle.data[old(handle.pos)..handle.pos]
  {
    ghost var start := handle.pos;
    ghost var step := Min(ReadSize, handle.maxRead);
    var byteCount := 0;
    giantChunk := "";
    while !handle.Eof()
      invariant handle.Valid()
      invariant start <= handle.pos
      invariant byteCount == handle.pos - start
      invariant giantChunk == handle.data[start..handle.pos]
      invariant ChunkEnd(|handle.data|, handle.pos, byteCount, chunkSize, step) == ChunkEnd(|handle.data|, start, 0, chunkSize, step)
      decreases |handle.data| - handle.pos
    {
      var chunk := handle.Read(ReadSize);
      byteCount := byteCount + |chunk|;
      giantChunk := giantChunk + chunk;
      if byteCount >= chunkSize {
        return;
      }
    }
  }
}
