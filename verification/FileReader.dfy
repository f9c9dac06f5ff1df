/**
 Reading local files: the publisher's chunking loop and the ranged read of the validator.
 A path that cannot be opened is a path that is not on the disk.
 */
module FileReader {
  import opened Arithmetic
  import opened Basics
  import opened BufferedReads
  import opened ChunkFiles

  type FileBytes = b: Bytes | |b| < U64_LIMIT

  type Disk = map<string, FileBytes>

  /** How reads may fall short: in any way, not at all, or as a buffer of some capacity makes them. */
  datatype ReadMode = AnyReads | FullReads | Buffered(capacity: nat)

  type Reads = m: ReadMode | m.Buffered? ==> m.capacity > 0 witness AnyReads

  /** What a read of n bytes at pos may return, and where the buffer ends afterwards. */
  ghost predicate Answer(p: Bytes, mode: Reads, n: nat, pos: nat, edge: nat, data: Bytes, next: nat)
    requires pos <= edge <= |p|
  {
    && |data| <= n && pos + |data| <= next <= |p| && data == p[pos..pos + |data|]
    && (data == [] <==> n == 0 || pos == |p|)
    && (mode.FullReads? ==> |data| == Min(n, |p| - pos))
    && (mode.Buffered? ==>
          && |data| == ReadLength(n, mode.capacity, pos, edge, |p|)
          && next == EdgeAfter(n, mode.capacity, pos, edge, |p|))
  }

  /** An open file: a position in fixed contents. A buffer holds the bytes from there up to `edge`. */
  class OpenFile {
    const contents: FileBytes
    const mode: Reads
    var pos: nat
    var edge: nat

    constructor (contents: FileBytes, mode: Reads)
      ensures this.contents == contents && this.mode == mode && pos == edge == 0
    {
      this.contents, this.mode, pos, edge := contents, mode, 0, 0;
    }

    method Seek(to: nat)
      modifies this
      ensures pos == edge == to
    {
      pos, edge := to, to;
    }

    /** Up to n bytes. A read may be short, but returns nothing only at the end or when nothing is asked for. */
    method Read(n: nat) returns (data: Bytes)
      requires pos <= edge <= |contents|
      modifies this
      ensures Answer(contents, mode, n, old(pos), old(edge), data, edge)
      ensures pos == old(pos) + |data|
    {
      var most := Min(n, |contents| - pos);
      match mode {
        case AnyReads =>
          var k :| (if most == 0 then 0 else 1) <= k <= most;
          data, edge := contents[pos..pos + k], pos + k;
        case FullReads =>
          data, edge := contents[pos..pos + most], pos + most;
        case Buffered(capacity) =>
          var k := ReadLength(n, capacity, pos, edge, |contents|);
          data, edge := contents[pos..pos + k], EdgeAfter(n, capacity, pos, edge, |contents|);
      }
      pos := pos + |data|;
    }

    /** Exactly n bytes, or an error when the file ends before. */
    method ReadExact(n: nat) returns (data: Option<Bytes>)
      modifies this
      ensures data == if old(pos) + n <= |contents| then Some(contents[old(pos)..old(pos) + n]) else None
    {
      if pos + n <= |contents| {
        data := Some(contents[pos..pos + n]);
        pos, edge := pos + n, pos + n;
      } else {
        data := None;
      }
    }
  }

  // ----- ranged read -----

  /** What a ranged read with inclusive bounds gives. Bounds inside the file but in the wrong order
      underflow the computation of the length. */
  function FileSlice(disk: Disk, path: string, start: u64, end: u64): (r: Outcome<Bytes>)
    ensures r.Ok? <==> path in disk && start <= end < |disk[path]|
    ensures r.Ok? ==> |r.value| == end - start + 1 && forall k :: 0 <= k < |r.value| ==> r.value[k] == disk[path][start + k]
  {
    if path !in disk then Err(FileIOError)
    else if start >= |disk[path]| || end >= |disk[path]| then Err(InvalidRange)
    else if start > end then Panic
    else Ok(disk[path][start..end + 1])
  }

  method ReadChunk(disk: Disk, path: string, start: u64, end: u64) returns (r: Outcome<Bytes>)
    ensures r == FileSlice(disk, path, start, end)
  {
    if path !in disk {
      return Err(FileIOError);
    }
    var file := new OpenFile(disk[path], FullReads);
    var fileSize := |file.contents|;
    if start >= fileSize || end >= fileSize {
      return Err(InvalidRange);
    }
    if start > end {
      return Panic;
    }
    var length := end - start + 1;
    file.Seek(start);
    var buffer := file.ReadExact(length);
    match buffer {
      case Some(data) => r := Ok(data);
      case None => r := Err(FileIOError);
    }
  }

  // ----- chunking -----

  /** The parts are non-empty, at most size bytes long, and make up p in order. */
  predicate IsCut(parts: seq<Bytes>, p: Bytes, size: nat) {
    && Flatten(parts) == p
    && forall i :: 0 <= i < |parts| ==> 0 < |parts[i]| <= size
  }

  /** The publisher's read loop, under every schedule of short reads. A chunk size of zero reads nothing. */
  method ChunkFileLoop(disk: Disk, path: string, chunkSize: u64, mode: Reads)
    returns (r: Outcome<(u64, seq<Bytes>)>)
    ensures r.Ok? <==> path in disk
    ensures path !in disk ==> r == Err(FileIOError)
    ensures path in disk && chunkSize == 0 ==> r == Ok((0, []))
    ensures path in disk && chunkSize > 0 ==>
              && r.value.0 == |disk[path]| == TotalLength(r.value.1)
              && IsCut(r.value.1, disk[path], chunkSize)
              && (mode.FullReads? ==> r.value.1 == Chunks(disk[path], chunkSize))
              && (mode.Buffered? ==> r.value.1 == BufferedParts(disk[path], mode.capacity, chunkSize))
  {
    if path !in disk {
      return Err(FileIOError);
    }
    var reader := new OpenFile(disk[path], mode);
    var totalBytes, parts := ReadParts(reader, chunkSize);
    r := Ok((totalBytes, parts));
  }

  method ReadParts(reader: OpenFile, chunkSize: nat) returns (totalBytes: nat, parts: seq<Bytes>)
    requires reader.pos == reader.edge == 0
    modifies reader
    ensures chunkSize == 0 ==> totalBytes == 0 && parts == []
    ensures chunkSize > 0 ==> totalBytes == |reader.contents| == TotalLength(parts)
    ensures chunkSize > 0 ==> IsCut(parts, reader.contents, chunkSize)
    ensures chunkSize > 0 && reader.mode.FullReads? ==> parts == Chunks(reader.contents, chunkSize)
    ensures chunkSize > 0 && reader.mode.Buffered? ==>
              parts == BufferedParts(reader.contents, reader.mode.capacity, chunkSize)
  {
    var p, mode := reader.contents, reader.mode;
    totalBytes, parts := 0, [];
    while true
      invariant totalBytes == reader.pos
      invariant ReadSoFar(parts, p, mode, chunkSize, reader.pos, reader.edge)
      decreases |p| - reader.pos
    {
      ghost var pos, edge := reader.pos, reader.edge;
      var buffer := reader.Read(chunkSize);
      if buffer == [] {
        break;
      }
      NextPart(parts, p, mode, chunkSize, pos, edge, buffer, reader.edge);
      totalBytes := totalBytes + |buffer|;
      parts := parts + [buffer];
    }
    if chunkSize > 0 {
      AllRead(parts, p, mode, chunkSize, reader.edge);
    }
  }

  /** The parts read on the way to pos, in each of the modes. What a buffered reader has answered and what
      it will still answer are its answers to the whole file. */
  ghost predicate ReadSoFar(parts: seq<Bytes>, p: Bytes, mode: Reads, size: nat, pos: nat, edge: nat) {
    && pos == TotalLength(parts) <= edge <= |p|
    && IsCut(parts, p[..pos], size)
    && (size == 0 ==> parts == [])
    && (mode.FullReads? ==> AllFull(parts, p, size, pos))
    && (mode.Buffered? && size > 0 ==>
          parts + ReadsFrom(p, mode.capacity, size, pos, edge) == BufferedParts(p, mode.capacity, size))
  }

  lemma NextPart(parts: seq<Bytes>, p: Bytes, mode: Reads, size: nat, pos: nat, edge: nat, data: Bytes, next: nat)
    requires ReadSoFar(parts, p, mode, size, pos, edge)
    requires Answer(p, mode, size, pos, edge, data, next) && data != []
    ensures ReadSoFar(parts + [data], p, mode, size, pos + |data|, next)
  {
    CutPush(parts, p[..pos], size, data);
    assert p[..pos] + data == p[..pos + |data|];
    if mode.FullReads? {
      NextFull(parts, p, size, pos, data);
    }
    if mode.Buffered? {
      NextAnswer(parts, p, mode.capacity, size, pos, edge);
    }
  }

  lemma AllRead(parts: seq<Bytes>, p: Bytes, mode: Reads, size: nat, edge: nat)
    requires size > 0 && ReadSoFar(parts, p, mode, size, |p|, edge)
    ensures IsCut(parts, p, size)
    ensures mode.FullReads? ==> parts == Chunks(p, size)
    ensures mode.Buffered? ==> parts == BufferedParts(p, mode.capacity, size)
  {
    assert p[..|p|] == p;
    if mode.FullReads? {
      FullReadsMakeChunks(parts, p, size);
    }
  }

  lemma NextAnswer(parts: seq<Bytes>, p: Bytes, capacity: nat, size: nat, pos: nat, edge: nat)
    requires capacity > 0 && size > 0 && pos <= edge <= |p| && ReadLength(size, capacity, pos, edge, |p|) > 0
    ensures var length := ReadLength(size, capacity, pos, edge, |p|);
            parts + ReadsFrom(p, capacity, size, pos, edge)
              == (parts + [p[pos..pos + length]])
                 + ReadsFrom(p, capacity, size, pos + length, EdgeAfter(size, capacity, pos, edge, |p|))
  {
  }

  lemma CutPush(parts: seq<Bytes>, q: Bytes, size: nat, part: Bytes)
    requires IsCut(parts, q, size) && 0 < |part| <= size
    ensures IsCut(parts + [part], q + part, size)
    ensures TotalLength(parts + [part]) == TotalLength(parts) + |part|
  {
    FlattenPush(parts, part);
  }

  ghost predicate WholeChunks(parts: seq<Bytes>, p: Bytes, size: nat) {
    forall i :: 0 <= i < |parts| ==> i * size < |p| && parts[i] == Chunk(p, size, i)
  }

  ghost predicate AllFull(parts: seq<Bytes>, p: Bytes, size: nat, pos: nat) {
    pos == Min(|parts| * size, |p|) && WholeChunks(parts, p, size)
  }

  lemma NextFull(parts: seq<Bytes>, p: Bytes, size: nat, pos: nat, part: Bytes)
    requires AllFull(parts, p, size, pos) && pos < |p|
    requires part == p[pos..pos + Min(size, |p| - pos)]
    ensures AllFull(parts + [part], p, size, pos + |part|)
  {
    MulNext(|parts|, size);
  }

  lemma FullReadsMakeChunks(parts: seq<Bytes>, p: Bytes, size: nat)
    requires size > 0 && |parts| * size >= |p|
    requires WholeChunks(parts, p, size)
    ensures parts == Chunks(p, size)
  {
    CountedIffStartsInside(|p|, size, |parts|);
    if parts != [] {
      CountedIffStartsInside(|p|, size, |parts| - 1);
    }
  }

  function FormatPath(dir: string, name: string): string {
    dir + (if dir != [] && dir[|dir| - 1] == '/' then "" else "/") + name
  }

  /** One separator stands between directory and name. */
  lemma FormatPathIs(dir: string, name: string)
    ensures dir != "" && dir[|dir| - 1] == '/' ==> FormatPath(dir, name) == dir + name
    ensures dir == "" || dir[|dir| - 1] != '/' ==> FormatPath(dir, name) == dir + "/" + name
  {
  }

  /** The record of a file. `parts` are the buffers the read loop produced. */
  method NewChunkFile(h: Hasher, disk: Disk, dir: string, name: string, chunkSize: u64, mode: Reads)
    returns (r: Outcome<ChunkFile>, parts: seq<Bytes>)
    ensures r.Ok? <==> FormatPath(dir, name) in disk
    ensures !r.Ok? ==> r == Err(FileIOError) && parts == []
    ensures r.Ok? && chunkSize == 0 ==> r.value == ChunkFile(0, 0, []) && parts == []
    ensures r.Ok? && chunkSize > 0 ==>
              var p := disk[FormatPath(dir, name)];
              && IsCut(parts, p, chunkSize)
              && r.value == ChunkFile(|p|, chunkSize, HashAll(h, parts))
              && Recorded(h, r.value, parts)
              && (mode.FullReads? ==> Published(h, r.value, p))
              && (mode.Buffered? ==> parts == BufferedParts(p, mode.capacity, chunkSize))
  {
    parts := [];
    var read := ChunkFileLoop(disk, FormatPath(dir, name), chunkSize, mode);
    match read {
      case Ok((totalBytes, chunks)) =>
        parts := chunks;
        FlattenLength(parts);
        r := Ok(ChunkFile(totalBytes, chunkSize, HashAll(h, chunks)));
      case Err(e) => r := Err(e);
      case Panic => r := Panic;
    }
  }

  // ----- cuts -----

  /** While all parts so far are whole chunks, the next part starts where the next chunk starts. */
  lemma {:induction false} CutPart(parts: seq<Bytes>, p: Bytes, size: nat, k: nat)
    requires IsCut(parts, p, size) && k < |parts|
    requires forall i :: 0 <= i < k ==> |parts[i]| == size
    ensures k * size + |parts[k]| <= |p|
    ensures parts[k] == p[k * size..k * size + |parts[k]|]
    ensures k + 1 == |parts| ==> k * size + |parts[k]| == |p|
  {
    var front := parts[..|parts| - 1];
    var last := parts[|parts| - 1];
    var q := Flatten(front);
    assert p == q + last;
    if k + 1 == |parts| {
      assert front == parts[..k];
      UniformLength(front, size);
    } else {
      CutPart(front, q, size, k);
      assert parts[k] == front[k] == q[k * size..k * size + |parts[k]|];
    }
  }

  lemma {:induction false} UniformLength(parts: seq<Bytes>, size: nat)
    requires forall i :: 0 <= i < |parts| ==> |parts[i]| == size
    ensures |Flatten(parts)| == |parts| * size
  {
    if parts != [] {
      UniformLength(parts[..|parts| - 1], size);
      MulNext(|parts| - 1, size);
    }
  }

  /** Dropping parts of a cut loses bytes. */
  lemma {:induction false} CutPrefixShorter(parts: seq<Bytes>, p: Bytes, size: nat, k: nat)
    requires IsCut(parts, p, size) && k < |parts|
    ensures |Flatten(parts[..k])| < |p|
  {
    var front := parts[..|parts| - 1];
    if k < |front| {
      CutPrefixShorter(front, Flatten(front), size, k);
      assert front[..k] == parts[..k];
    } else {
      assert parts[..k] == front;
    }
  }

  /** When the parts of all indices add up to the size, there are no others. */
  lemma LastPartEnds(cf: ChunkFile, parts: seq<Bytes>)
    requires cf.chunkSize > 0 && Sized(parts, cf.chunkSize) && cf.totalBytes == |Flatten(parts)|
    requires LastIndex(cf) < |parts|
    requires forall i: nat :: i < LastIndex(cf) ==> |parts[i]| == cf.chunkSize
    requires LastIndex(cf) * cf.chunkSize + |parts[LastIndex(cf)]| == cf.totalBytes
    ensures |parts| == LastIndex(cf) + 1
  {
    var n := LastIndex(cf);
    UniformLength(parts[..n], cf.chunkSize);
    assert parts[..n + 1] == parts[..n] + [parts[n]];
    FlattenPush(parts[..n], parts[n]);
    if n + 1 < |parts| {
      CutPrefixShorter(parts, Flatten(parts), cf.chunkSize, n + 1);
    }
  }

  lemma ChunksAreFull(p: Bytes, size: nat, i: nat)
    requires size > 0 && i + 1 < |Chunks(p, size)|
    ensures |Chunks(p, size)[i]| == size
  {
    CountedIffStartsInside(|p|, size, i + 1);
    MulNext(i, size);
  }

  lemma FullPartIsChunk(parts: seq<Bytes>, p: Bytes, size: nat, i: nat)
    requires size > 0 && IsCut(parts, p, size) && AllButLastFull(parts, size) && i < |parts|
    ensures i * size < |p| && parts[i] == Chunk(p, size, i)
  {
    CutPart(parts, p, size, i);
  }

  lemma FullPartsAreChunks(parts: seq<Bytes>, p: Bytes, size: nat)
    requires size > 0 && IsCut(parts, p, size) && AllButLastFull(parts, size)
    ensures parts == Chunks(p, size)
  {
    forall i | 0 <= i < |parts|
      ensures i * size < |p| && parts[i] == Chunk(p, size, i)
    {
      FullPartIsChunk(parts, p, size, i);
    }
    if parts != [] {
      CutPart(parts, p, size, |parts| - 1);
      MulNext(|parts| - 1, size);
    }
    FullReadsMakeChunks(parts, p, size);
  }

  /** A cut is the list of chunks exactly when all parts but the last have the full length. */
  lemma CutIsChunksIff(parts: seq<Bytes>, p: Bytes, size: nat)
    requires size > 0 && IsCut(parts, p, size)
    ensures parts == Chunks(p, size) <==> AllButLastFull(parts, size)
  {
    if parts == Chunks(p, size) {
      forall i | 0 <= i < |parts| - 1
        ensures |parts[i]| == size
      {
        ChunksAreFull(p, size, i);
      }
    }
    if AllButLastFull(parts, size) {
      FullPartsAreChunks(parts, p, size);
    }
  }

  /** What a buffered reader hands out is the list of chunks if and only if the chunk size is at least the
      buffer's capacity, or divides it, or the file fits the buffer. */
  lemma BufferedChunksIff(p: Bytes, capacity: nat, size: nat)
    requires capacity > 0 && size > 0
    ensures IsCut(BufferedParts(p, capacity, size), p, size)
    ensures BufferedParts(p, capacity, size) == Chunks(p, size) <==> BufferFits(capacity, size, |p|)
  {
    AnswersFlatten(p, capacity, size, 0, 0);
    assert p[0..] == p;
    forall i | 0 <= i < |BufferedParts(p, capacity, size)|
      ensures 0 < |BufferedParts(p, capacity, size)[i]| <= size
    {
      AnswersSized(p, capacity, size, 0, 0, i);
    }
    CutIsChunksIff(BufferedParts(p, capacity, size), p, size);
    BufferedPartsFullIff(p, capacity, size);
  }
}
