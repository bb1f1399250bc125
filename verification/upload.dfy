/**
 * `uploadResourceToGoogleDrive`: a stream that fits in one chunk goes up in
 * a single request; a larger one is sent chunk by chunk through a resumable
 * media upload. The memory figures `detectChunkSizeBytes` reads
 * (`ini_get('memory_limit')`, `memory_get_usage`) are passed in, and so is
 * Drive's answer to the upload.
 */
module Upload {
  import opened Common
  import opened Drive
  import opened Sizing
  import opened Requests
  import opened Streams

  /**
   * Drive's answer to an upload: the DriveFile once the upload completes, or
   * an exception, which the adapter lets propagate. For a single request,
   * `Throws` is that request throwing. For a chunked upload, `nextChunk`
   * throws on its call number `call` (counting from 0), or on the call that
   * would complete the upload if that comes first.
   */
  datatype UploadReply = Completes(file: DriveFile) | Throws(call: nat)

  /** The DriveFile a single request returns; `None` when it throws. */
  function Answer(reply: UploadReply): (r: Option<DriveFile>)
    ensures r.Some? <==> reply.Completes?
    ensures r.Some? ==> r.value == reply.file
  {
    if reply.Completes? then Some(reply.file) else None
  }

  /** The chunks glued together in order. */
  function Flatten(chunks: seq<string>): (s: string)
    ensures chunks == [] ==> s == []
  {
    if chunks == [] then [] else Flatten(chunks[..|chunks| - 1]) + chunks[|chunks| - 1]
  }

  /** Every chunk size `detectChunkSizeBytes` picks is a whole number of 8192-byte reads. */
  lemma ChunkSizeIsWholeReads(memoryLimit: int, memoryUsed: int)
    ensures var size := DetectChunkSizeBytes(memoryLimit, memoryUsed);
      size > 0 && size % ReadSize == 0
  {
    var size := DetectChunkSizeBytes(memoryLimit, memoryUsed);
    UnitsAreWholeReads(size);
  }

  /** A multiple of 256 KiB is a multiple of 8192. */
  lemma UnitsAreWholeReads(x: int)
    requires x % ChunkUnitBytes == 0
    ensures x % ReadSize == 0
  {
    var k := x / ChunkUnitBytes;
    assert x == k * 32 * ReadSize;
  }

  /**
   * What one resource upload sends: the requests (the create or update of
   * `ensureDriveFileExists`), the media chunks given to `nextChunk`, and the
   * DriveFile the upload returns (`None` for PHP's `false` and for an
   * exception, which leaves the upload with no DriveFile either way).
   */
  method UploadResourceToDrive(cfg: Config, resource: ByteStream, ini: map<string, string>, memoryUsed: int,
                               parentId: string, fileName: string, src: Option<DriveFile>,
                               mime: string, guessedMime: string, reply: UploadReply)
    returns (requests: seq<Call>, chunks: seq<string>, uploaded: Option<DriveFile>)
    requires resource.Valid()
    modifies resource
    ensures resource.Valid() && old(resource.pos) <= resource.pos
    ensures var chunkSize := DetectChunkSizeBytes(GetIniBytes("memory_limit", "", ini), memoryUsed);
      && (|resource.data| <= chunkSize ==>
            && requests == [EnsureDriveFileExists(cfg, resource.data[old(resource.pos)..], parentId, fileName, src, mime, guessedMime)]
            && chunks == [] && uploaded == Answer(reply) && resource.Eof())
      && (|resource.data| > chunkSize ==>
            && requests == [EnsureDriveFileExists(cfg, "", parentId, fileName, src, mime, guessedMime)]
            && Flatten(chunks) == resource.data[old(resource.pos)..resource.pos]
            && (uploaded.Some? <==> reply.Completes? && old(resource.pos) == 0)
            && (uploaded.Some? ==> uploaded == Some(reply.file))
            && (reply.Completes? ==> resource.Eof())
            && (reply.Completes? && old(resource.pos) == 0 ==> Flatten(chunks) == resource.data)
            && (reply.Throws? ==> |chunks| <= reply.call + 1)
            && (reply.Throws? && |chunks| <= reply.call ==> resource.Eof())
            && (forall i :: 0 <= i < |chunks| ==> chunks[i] != [])
            && (forall i :: 0 <= i < |chunks| - 1 ==> |chunks[i]| >= chunkSize)
            && (resource.maxRead >= ReadSize ==> forall i :: 0 <= i < |chunks| - 1 ==> |chunks[i]| == chunkSize))
  {
    var chunkSize := DetectChunkSizeBytes(GetIniBytes("memory_limit", "", ini), memoryUsed);
    var fileSize := |resource.data|;
    if fileSize <= chunkSize {
      var contents := resource.GetContents();
      requests := [EnsureDriveFileExists(cfg, contents, parentId, fileName, src, mime, guessedMime)];
      chunks := [];
      uploaded := Answer(reply);
      return;
    }
    ChunkSizeIsWholeReads(GetIniBytes("memory_limit", "", ini), memoryUsed);
    // The deferred request carries no body; the chunks follow it.
    requests := [EnsureDriveFileExists(cfg, "", parentId, fileName, src, mime, guessedMime)];
    chunks, uploaded := SendChunks(resource, chunkSize, reply);
  }

  /**
   * The shape of the chunks sent so far: none is empty, every one but the
   * last holds at least `chunkSize` bytes, and exactly that many when
   * `exact` (full 8192-byte reads).
   */
  predicate WellChunked(chunks: seq<string>, chunkSize: int, exact: bool) {
    && (forall i :: 0 <= i < |chunks| ==> chunks[i] != [])
    && (forall i :: 0 <= i < |chunks| - 1 ==> |chunks[i]| >= chunkSize)
    && (exact ==> forall i :: 0 <= i < |chunks| - 1 ==> |chunks[i]| == chunkSize)
  }

  /** The last chunk, if any, is a full one. */
  predicate LastFull(chunks: seq<string>, chunkSize: int, exact: bool) {
    chunks != [] ==> |chunks[|chunks| - 1]| >= chunkSize && (exact ==> |chunks[|chunks| - 1]| == chunkSize)
  }

  /** A non-empty chunk after a full last one keeps the chunks well shaped. */
  lemma AppendChunk(chunks: seq<string>, chunk: string, chunkSize: int, exact: bool)
    requires WellChunked(chunks, chunkSize, exact) && LastFull(chunks, chunkSize, exact) && chunk != []
    ensures WellChunked(chunks + [chunk], chunkSize, exact)
  {
    var c := chunks + [chunk];
    assert forall i :: 0 <= i < |chunks| ==> c[i] == chunks[i];
  }

  /**
   * One pass of the chunk loop keeps the chunks well shaped: the new chunk
   * is not empty, and unless it reached the end of the stream it is full.
   */
  lemma ChunkStep(chunks: seq<string>, chunk: string, chunkSize: int, exact: bool,
                  size: nat, before: nat, after: nat, maxRead: nat)
    requires WellChunked(chunks, chunkSize, exact) && LastFull(chunks, chunkSize, exact)
    requires chunkSize > 0 && chunkSize % ReadSize == 0
    requires maxRead > 0 && exact == (maxRead >= ReadSize)
    requires before < size && after == ChunkEnd(size, before, 0, chunkSize, Min(ReadSize, maxRead))
    requires |chunk| == after - before
    ensures WellChunked(chunks + [chunk], chunkSize, exact)
    ensures after < size ==> LastFull(chunks + [chunk], chunkSize, exact)
  {
    if exact {
      ChunkEndExact(size, before, 0, chunkSize);
    }
    AppendChunk(chunks, chunk, chunkSize, exact);
  }

  /** Gluing one more chunk on the end. */
  lemma FlattenSnoc(chunks: seq<string>, chunk: string)
    ensures Flatten(chunks + [chunk]) == Flatten(chunks) + chunk
  {
    assert (chunks + [chunk])[..|chunks|] == chunks;
  }

  /** Two adjacent slices glued are the slice that spans both. */
  lemma AdjacentSlices(s: string, a: nat, b: nat, c: nat)
    requires a <= b <= c <= |s|
    ensures s[a..b] + s[b..c] == s[a..c]
  {
  }

  /**
   * The chunk loop: read a chunk, hand it to `nextChunk`, and go on while
   * the upload is unfinished and the stream is not at its end. `nextChunk`
   * answers false until Drive holds as many bytes as `fstat` reported for
   * the stream, and then the uploaded DriveFile; when `reply` says it
   * throws, the exception ends the loop with no DriveFile.
   */
  method SendChunks(resource: ByteStream, chunkSize: int, reply: UploadReply)
    returns (chunks: seq<string>, status: Option<DriveFile>)
    requires resource.Valid()
    requires chunkSize > 0 && chunkSize % ReadSize == 0
    modifies resource
    ensures resource.Valid() && old(resource.pos) <= resource.pos
    ensures Flatten(chunks) == resource.data[old(resource.pos)..resource.pos]
    ensures status.Some? ==> reply.Completes? && status == Some(reply.file)
    ensures status.Some? <==> reply.Completes? && old(resource.pos) == 0 && resource.data != []
    ensures reply.Completes? ==> resource.Eof()
    ensures reply.Completes? && old(resource.pos) == 0 ==> Flatten(chunks) == resource.data
    ensures reply.Throws? ==> |chunks| <= reply.call + 1
    ensures reply.Throws? && |chunks| <= reply.call ==> resource.Eof()
    ensures forall i :: 0 <= i < |chunks| ==> chunks[i] != []
    ensures forall i :: 0 <= i < |chunks| - 1 ==> |chunks[i]| >= chunkSize
    ensures resource.maxRead >= ReadSize ==> forall i :: 0 <= i < |chunks| - 1 ==> |chunks[i]| == chunkSize
  {
    var fileSize := |resource.data|;
    chunks := [];
    ghost var start := resource.pos;
    ghost var exact := resource.maxRead >= ReadSize;
    var sent := 0;
    status := None;
    var threw := false;
    while status.None? && !threw && !resource.Eof()
      invariant resource.Valid() && start <= resource.pos
      invariant Flatten(chunks) == resource.data[start..resource.pos]
      invariant sent == resource.pos - start
      invariant status.Some? ==> reply.Completes? && status == Some(reply.file) && start == 0 && resource.Eof() && fileSize > 0
      invariant status.None? && !threw ==> sent < fileSize || fileSize == 0
      invariant threw ==> reply.Throws? && status.None? && |chunks| <= reply.call + 1
      invariant threw && |chunks| <= reply.call ==> resource.Eof()
      invariant reply.Throws? && !threw ==> |chunks| <= reply.call
      invariant WellChunked(chunks, chunkSize, exact)
      invariant !resource.Eof() ==> LastFull(chunks, chunkSize, exact)
      decreases |resource.data| - resource.pos
    {
      ghost var before := resource.pos;
      var chunk := ReadFileChunk(resource, chunkSize);
      ChunkStep(chunks, chunk, chunkSize, exact, |resource.data|, before, resource.pos, resource.maxRead);
      FlattenSnoc(chunks, chunk);
      AdjacentSlices(resource.data, start, before, resource.pos);
      chunks := chunks + [chunk];
      sent := sent + |chunk|;
      if reply.Throws? && (|chunks| > reply.call || sent >= fileSize) {
        threw := true;
      } else if sent >= fileSize {
        status := Some(reply.file);
      }
    }
  }
}
