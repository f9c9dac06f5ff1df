/**
 Validation of local files against the published hashes.
 */
module Validation {
  import opened Arithmetic
  import opened Basics
  import opened BufferedReads
  import opened ChunkFiles
  import opened FileReader

  /** Path components are appended with a separator; an absolute name replaces the path. */
  function PathPush(dir: string, name: string): string {
    if name != [] && name[0] == '/' then name
    else if dir == [] || dir[|dir| - 1] == '/' then dir + name
    else dir + "/" + name
  }

  /** How a path is extended: nothing is put before the name when it is absolute or the path is empty, no
      separator when the path ends in one. */
  lemma PathPushIs(dir: string, name: string)
    ensures "/" <= name ==> PathPush(dir, name) == name
    ensures !("/" <= name) && dir == "" ==> PathPush(dir, name) == name
    ensures !("/" <= name) && dir != "" && dir[|dir| - 1] == '/' ==> PathPush(dir, name) == dir + name
    ensures !("/" <= name) && dir != "" && dir[|dir| - 1] != '/' ==> PathPush(dir, name) == dir + "/" + name
  {
  }

  /** The publisher and the validator mean the same file by a directory and a name exactly when the
      directory is named and the name is relative. */
  lemma PathsAgreeIff(dir: string, name: string)
    ensures FormatPath(dir, name) == PathPush(dir, name) <==> dir != "" && !("/" <= name)
  {
    if "/" <= name || dir == "" {
      assert |FormatPath(dir, name)| > |PathPush(dir, name)|;
    }
  }

  /** One turn of the validation loop: range, expected hash, read, compare. */
  function CheckChunk(h: Hasher, disk: Disk, path: string, cf: ChunkFile, i: nat): Outcome<()> {
    match ChunkRange(cf, i)
    case Panic => Panic
    case Err(e) => Err(e)
    case Ok((start, end)) =>
      if i >= |cf.chunkHashes| then Panic
      else match FileSlice(disk, path, start, end)
        case Panic => Panic
        case Err(e) => Err(e)
        case Ok(data) => if h(data) == cf.chunkHashes[i] then Ok(()) else Err(InvalidConfig)
  }

  /** The outcome of the first turn that does not succeed, from turn i on. */
  function ValidateFrom(h: Hasher, disk: Disk, path: string, cf: ChunkFile, i: nat): Outcome<()>
    requires cf.chunkSize > 0
    decreases LastIndex(cf) + 1 - i
  {
    if i > LastIndex(cf) then Ok(())
    else
      var r := CheckChunk(h, disk, path, cf, i);
      if r.Ok? then ValidateFrom(h, disk, path, cf, i + 1) else r
  }

  function ValidateFile(h: Hasher, disk: Disk, localPath: string, meta: ChunkFileMeta): Outcome<()> {
    if !IndexLoopFits(meta.chunkFile) then Panic
    else ValidateFrom(h, disk, PathPush(localPath, meta.metaInfo.name), meta.chunkFile, 0)
  }

  method ReadAndValidateFile(h: Hasher, disk: Disk, localPath: string, meta: ChunkFileMeta)
    returns (r: Outcome<()>)
    ensures r == ValidateFile(h, disk, localPath, meta)
  {
    var cf := meta.chunkFile;
    var path := PathPush(localPath, meta.metaInfo.name);
    if cf.chunkSize == 0 || LastIndex(cf) + 1 >= U64_LIMIT {
      return Panic;
    }
    for i := 0 to LastIndex(cf) + 1
      invariant ValidateFile(h, disk, localPath, meta) == ValidateFrom(h, disk, path, cf, i)
    {
      var range := ChunkRange(cf, i);
      if range.Panic? || i >= |cf.chunkHashes| {
        return Panic;
      }
      var (start, end) := range.value;
      var chunkData := ReadChunk(disk, path, start, end);
      match chunkData {
        case Panic => return Panic;
        case Err(e) => return Err(e);
        case Ok(data) =>
          if h(data) != cf.chunkHashes[i] {
            return Err(InvalidConfig);
          }
      }
    }
    r := Ok(());
  }

  /** The outcome of the first file, from file k on, that does not validate. */
  function ValidateFilesFrom(h: Hasher, disk: Disk, subfile: Subfile, k: nat): Outcome<()>
    decreases |subfile.chunkFiles| - k
  {
    if k >= |subfile.chunkFiles| then Ok(())
    else
      var r := ValidateFile(h, disk, subfile.localPath, subfile.chunkFiles[k]);
      if r.Ok? then ValidateFilesFrom(h, disk, subfile, k + 1) else r
  }

  function ValidateSubfile(h: Hasher, disk: Disk, subfile: Subfile): Outcome<()> {
    ValidateFilesFrom(h, disk, subfile, 0)
  }

  method ValidateLocalSubfile(h: Hasher, disk: Disk, subfile: Subfile) returns (r: Outcome<()>)
    ensures r == ValidateSubfile(h, disk, subfile)
  {
    for k := 0 to |subfile.chunkFiles|
      invariant ValidateSubfile(h, disk, subfile) == ValidateFilesFrom(h, disk, subfile, k)
    {
      r := ReadAndValidateFile(h, disk, subfile.localPath, subfile.chunkFiles[k]);
      if !r.Ok? {
        return;
      }
    }
    r := Ok(());
  }

  // ----- what the outcome means -----

  /** What one turn does, case by case. */
  lemma CheckChunkIs(h: Hasher, disk: Disk, path: string, cf: ChunkFile, i: nat)
    requires cf.chunkSize > 0
    ensures var (start, stop) := (i * cf.chunkSize, Min(i * cf.chunkSize + cf.chunkSize, cf.totalBytes));
            CheckChunk(h, disk, path, cf, i) ==
              if start + cf.chunkSize >= U64_LIMIT || cf.totalBytes == 0 || i >= |cf.chunkHashes| then Panic
              else if path !in disk then Err(FileIOError)
              else if start >= |disk[path]| || stop > |disk[path]| then Err(InvalidRange)
              else if start >= stop then Panic
              else if h(disk[path][start..stop]) != cf.chunkHashes[i] then Err(InvalidConfig)
              else Ok(())
  {
    assert Min(i * cf.chunkSize + cf.chunkSize, cf.totalBytes) == 0 <==> cf.totalBytes == 0;
  }

  /** The outcome is that of the first turn that does not succeed, if there is one. */
  lemma {:induction false} FirstTurnDecides(h: Hasher, disk: Disk, path: string, cf: ChunkFile, i: nat, j: nat)
    requires cf.chunkSize > 0 && i <= j <= LastIndex(cf) && !CheckChunk(h, disk, path, cf, j).Ok?
    requires forall k :: i <= k < j ==> CheckChunk(h, disk, path, cf, k).Ok?
    ensures ValidateFrom(h, disk, path, cf, i) == CheckChunk(h, disk, path, cf, j)
    decreases j - i
  {
    if i < j {
      FirstTurnDecides(h, disk, path, cf, i + 1, j);
    }
  }

  /** A file of no chunk size, or with an index too many to count, makes the validator panic; of any other the
      turns are taken, on the file at the path of the subfile extended by the name. */
  lemma ValidateFileIs(h: Hasher, disk: Disk, localPath: string, meta: ChunkFileMeta)
    ensures meta.chunkFile.chunkSize == 0 ==> ValidateFile(h, disk, localPath, meta) == Panic
    ensures meta.chunkFile.chunkSize == 1 && meta.chunkFile.totalBytes == 0xFFFF_FFFF_FFFF_FFFF ==>
              ValidateFile(h, disk, localPath, meta) == Panic
    ensures meta.chunkFile.chunkSize > 0
            && !(meta.chunkFile.chunkSize == 1 && meta.chunkFile.totalBytes == 0xFFFF_FFFF_FFFF_FFFF) ==>
              ValidateFile(h, disk, localPath, meta)
                == ValidateFrom(h, disk, PathPush(localPath, meta.metaInfo.name), meta.chunkFile, 0)
  {
    if meta.chunkFile.chunkSize > 0 {
      ServableLoopFits(meta.chunkFile);
    }
  }

  /** The outcome is that of the first file that does not validate, if there is one. */
  lemma {:induction false} FirstFileDecides(h: Hasher, disk: Disk, subfile: Subfile, i: nat, j: nat)
    requires i <= j < |subfile.chunkFiles| && !ValidateFile(h, disk, subfile.localPath, subfile.chunkFiles[j]).Ok?
    requires forall k :: i <= k < j ==> ValidateFile(h, disk, subfile.localPath, subfile.chunkFiles[k]).Ok?
    ensures ValidateFilesFrom(h, disk, subfile, i) == ValidateFile(h, disk, subfile.localPath, subfile.chunkFiles[j])
    decreases j - i
  {
    if i < j {
      FirstFileDecides(h, disk, subfile, i + 1, j);
    }
  }

  lemma {:induction false} ValidateFromOkIff(h: Hasher, disk: Disk, path: string, cf: ChunkFile, i: nat)
    requires cf.chunkSize > 0
    ensures ValidateFrom(h, disk, path, cf, i).Ok? <==>
              forall j :: i <= j <= LastIndex(cf) ==> CheckChunk(h, disk, path, cf, j).Ok?
    decreases LastIndex(cf) + 1 - i
  {
    if i <= LastIndex(cf) && CheckChunk(h, disk, path, cf, i).Ok? {
      ValidateFromOkIff(h, disk, path, cf, i + 1);
    }
  }

  /** A validated subfile's every file and every index of the loop check out. */
  lemma {:induction false} ValidateSubfileOkIff(h: Hasher, disk: Disk, subfile: Subfile, k: nat)
    ensures ValidateFilesFrom(h, disk, subfile, k).Ok? <==>
              forall j :: k <= j < |subfile.chunkFiles| ==>
                ValidateFile(h, disk, subfile.localPath, subfile.chunkFiles[j]).Ok?
    decreases |subfile.chunkFiles| - k
  {
    if k < |subfile.chunkFiles| && ValidateFile(h, disk, subfile.localPath, subfile.chunkFiles[k]).Ok? {
      ValidateSubfileOkIff(h, disk, subfile, k + 1);
    }
  }

  /** For a published record, a turn succeeds exactly when the index has a chunk, its range can be
      computed, and the local file holds that chunk in place. */
  lemma CheckChunkOkIff(h: Hasher, disk: Disk, path: string, cf: ChunkFile, p: Bytes, i: nat)
    requires Published(h, cf, p) && CollisionFree(h, cf.chunkSize, p)
    requires path in disk && i <= LastIndex(cf)
    ensures CheckChunk(h, disk, path, cf, i).Ok? <==>
              && i < ChunkCount(|p|, cf.chunkSize)
              && i * cf.chunkSize + cf.chunkSize < U64_LIMIT
              && Agrees(disk[path], p, i * cf.chunkSize, Min(i * cf.chunkSize + cf.chunkSize, |p|))
  {
    var c := cf.chunkSize;
    if i < ChunkCount(|p|, c) && i * c + c < U64_LIMIT {
      RangeOfCountedChunk(cf, p, i);
      var (start, end) := ChunkRange(cf, i).value;
      assert end + 1 == Min(i * c + c, |p|);
    }
  }

  lemma AcceptedChunkInPlace(h: Hasher, disk: Disk, path: string, cf: ChunkFile, p: Bytes, i: nat)
    requires Published(h, cf, p) && CollisionFree(h, cf.chunkSize, p)
    requires ValidateFrom(h, disk, path, cf, 0).Ok? && i <= LastIndex(cf)
    ensures path in disk && i < ChunkCount(|p|, cf.chunkSize)
    ensures i * cf.chunkSize + cf.chunkSize < U64_LIMIT
    ensures Agrees(disk[path], p, i * cf.chunkSize, Min(i * cf.chunkSize + cf.chunkSize, |p|))
  {
    ValidateFromOkIff(h, disk, path, cf, 0);
    assert CheckChunk(h, disk, path, cf, i).Ok?;
    CheckChunkOkIff(h, disk, path, cf, p, i);
  }

  lemma AgreesOnPrefix(f: Bytes, p: Bytes, lo: nat, hi: nat)
    requires Agrees(f, p, lo, hi) && |p| <= |f|
    ensures Agrees(f[..|p|], p, lo, hi)
  {
    assert f[..|p|][lo..hi] == f[lo..hi];
  }

  lemma AcceptedFileHoldsContent(h: Hasher, disk: Disk, path: string, cf: ChunkFile, p: Bytes)
    requires Published(h, cf, p) && CollisionFree(h, cf.chunkSize, p)
    requires ValidateFrom(h, disk, path, cf, 0).Ok?
    ensures Servable(cf) && path in disk && p <= disk[path]
  {
    AcceptedIsServable(h, disk, path, cf, p);
    var f, size := disk[path][..|p|], cf.chunkSize;
    forall i: nat | i * size < |p|
      ensures Agrees(f, p, i * size, Min(i * size + size, |p|))
    {
      AcceptedPrefixChunk(h, disk, path, cf, p, i, i * size);
    }
    AllChunksMakeTheFile(f, p, size);
  }

  lemma AcceptedPrefixChunk(h: Hasher, disk: Disk, path: string, cf: ChunkFile, p: Bytes, i: nat, lo: nat)
    requires Published(h, cf, p) && CollisionFree(h, cf.chunkSize, p)
    requires ValidateFrom(h, disk, path, cf, 0).Ok?
    requires lo == i * cf.chunkSize < |p| && path in disk && |p| <= |disk[path]|
    ensures Agrees(disk[path][..|p|], p, lo, Min(lo + cf.chunkSize, |p|))
  {
    DivLargest(|p|, cf.chunkSize, i);
    AcceptedChunkInPlace(h, disk, path, cf, p, i);
    AgreesOnPrefix(disk[path], p, lo, Min(lo + cf.chunkSize, |p|));
  }

  lemma AcceptedIsServable(h: Hasher, disk: Disk, path: string, cf: ChunkFile, p: Bytes)
    requires Published(h, cf, p) && CollisionFree(h, cf.chunkSize, p)
    requires ValidateFrom(h, disk, path, cf, 0).Ok?
    ensures Servable(cf) && path in disk && |p| <= |disk[path]|
  {
    AcceptedChunkInPlace(h, disk, path, cf, p, LastIndex(cf));
    CountedIffStartsInside(|p|, cf.chunkSize, LastIndex(cf));
    LastIndexBounds(|p|, cf.chunkSize, LastIndex(cf));
  }

  lemma FileWithContentIsAccepted(h: Hasher, disk: Disk, path: string, cf: ChunkFile, p: Bytes)
    requires Published(h, cf, p) && CollisionFree(h, cf.chunkSize, p)
    requires Servable(cf) && path in disk && p <= disk[path]
    ensures ValidateFrom(h, disk, path, cf, 0).Ok?
  {
    var c, last := cf.chunkSize, LastIndex(cf);
    ValidateFromOkIff(h, disk, path, cf, 0);
    forall i: nat | i <= last
      ensures CheckChunk(h, disk, path, cf, i).Ok?
    {
      LastIndexBounds(|p|, c, i);
      CountedIffStartsInside(|p|, c, i);
      CheckChunkOkIff(h, disk, path, cf, p, i);
      var lo, hi := i * c, Min(i * c + c, |p|);
      assert disk[path][lo..hi] == p[lo..hi];
    }
  }

  /** The validator accepts a local file of a published record if and only if the record is servable
      and the published content is a prefix of the file. */
  lemma ValidatorExact(h: Hasher, disk: Disk, localPath: string, meta: ChunkFileMeta, p: Bytes)
    requires Published(h, meta.chunkFile, p) && CollisionFree(h, meta.chunkFile.chunkSize, p)
    ensures var path := PathPush(localPath, meta.metaInfo.name);
            ValidateFile(h, disk, localPath, meta).Ok? <==>
              Servable(meta.chunkFile) && path in disk && p <= disk[path]
  {
    var path := PathPush(localPath, meta.metaInfo.name);
    ServableLoopFits(meta.chunkFile);
    if ValidateFile(h, disk, localPath, meta).Ok? {
      AcceptedFileHoldsContent(h, disk, path, meta.chunkFile, p);
    } else if Servable(meta.chunkFile) && path in disk && p <= disk[path] {
      FileWithContentIsAccepted(h, disk, path, meta.chunkFile, p);
    }
  }

  lemma {:induction false} PanicReached(h: Hasher, disk: Disk, path: string, cf: ChunkFile, i: nat, j: nat)
    requires cf.chunkSize > 0 && i <= j <= LastIndex(cf) && CheckChunk(h, disk, path, cf, j).Panic?
    requires forall k :: i <= k < j ==> !CheckChunk(h, disk, path, cf, k).Err?
    ensures ValidateFrom(h, disk, path, cf, i).Panic?
    decreases j - i
  {
    if i < j && CheckChunk(h, disk, path, cf, i).Ok? {
      PanicReached(h, disk, path, cf, i + 1, j);
    }
  }

  /** On a file that does hold the published content, a record that is not servable makes the validator panic. */
  lemma UnservablePanics(h: Hasher, disk: Disk, localPath: string, meta: ChunkFileMeta, p: Bytes)
    requires Published(h, meta.chunkFile, p) && !Servable(meta.chunkFile)
    requires PathPush(localPath, meta.metaInfo.name) in disk && p <= disk[PathPush(localPath, meta.metaInfo.name)]
    ensures ValidateFile(h, disk, localPath, meta) == Panic
  {
    var cf, path := meta.chunkFile, PathPush(localPath, meta.metaInfo.name);
    var last := LastIndex(cf);
    CountedIffStartsInside(|p|, cf.chunkSize, last);
    LastIndexBounds(|p|, cf.chunkSize, last);
    assert CheckChunk(h, disk, path, cf, last).Panic?;
    forall k: nat | k < last
      ensures !CheckChunk(h, disk, path, cf, k).Err?
    {
      LastIndexBounds(|p|, cf.chunkSize, k);
      HeldChunkIsNoError(h, disk, path, cf, p, k);
    }
    PanicReached(h, disk, path, cf, 0, last);
  }

  /** Where the file holds the content, a whole chunk's turn succeeds, or its range overflows. */
  lemma HeldChunkIsNoError(h: Hasher, disk: Disk, path: string, cf: ChunkFile, p: Bytes, k: nat)
    requires Published(h, cf, p) && path in disk && p <= disk[path]
    requires k * cf.chunkSize + cf.chunkSize <= |p|
    ensures !CheckChunk(h, disk, path, cf, k).Err?
  {
    CountedIffStartsInside(|p|, cf.chunkSize, k);
    RangeOfCountedChunk(cf, p, k);
    var lo, hi := k * cf.chunkSize, Min(k * cf.chunkSize + cf.chunkSize, |p|);
    assert disk[path][lo..hi] == p[lo..hi];
  }

  // ----- publish, then validate -----

  lemma ChunksOfCollisionFreeParts(h: Hasher, p: Bytes, size: nat)
    requires size > 0 && PartsCollisionFree(h, Chunks(p, size))
    ensures CollisionFree(h, size, p)
  {
    forall i: nat, d: Bytes | i * size < |p| && h(d) == h(Chunk(p, size, i))
      ensures d == Chunk(p, size, i)
    {
      CountedIffStartsInside(|p|, size, i);
      assert Chunks(p, size)[i] == Chunk(p, size, i);
    }
  }

  lemma AcceptedPart(h: Hasher, disk: Disk, path: string, cf: ChunkFile, parts: seq<Bytes>, i: nat)
    requires path in disk && cf.chunkSize > 0
    requires cf == ChunkFile(|disk[path]|, cf.chunkSize, HashAll(h, parts))
    requires PartsCollisionFree(h, parts)
    requires ValidateFrom(h, disk, path, cf, 0).Ok? && i <= LastIndex(cf)
    ensures i < |parts| && parts[i] == Chunk(disk[path], cf.chunkSize, i)
  {
    var p, c := disk[path], cf.chunkSize;
    ValidateFromOkIff(h, disk, path, cf, 0);
    assert CheckChunk(h, disk, path, cf, i).Ok?;
    CountedIffStartsInside(|p|, c, i);
    LastIndexBounds(|p|, c, i);
    RangeOfCountedChunk(cf, p, i);
  }

  lemma AcceptedPartsAreChunks(h: Hasher, disk: Disk, path: string, cf: ChunkFile, parts: seq<Bytes>)
    requires path in disk && cf.chunkSize > 0 && IsCut(parts, disk[path], cf.chunkSize)
    requires cf == ChunkFile(|disk[path]|, cf.chunkSize, HashAll(h, parts))
    requires PartsCollisionFree(h, parts)
    requires ValidateFrom(h, disk, path, cf, 0).Ok?
    ensures parts == Chunks(disk[path], cf.chunkSize)
  {
    var p, c, last := disk[path], cf.chunkSize, LastIndex(cf);
    ValidateFromOkIff(h, disk, path, cf, 0);
    assert CheckChunk(h, disk, path, cf, last).Ok?;
    LastIndexBounds(|p|, c, last);
    CountedIffStartsInside(|p|, c, last);
    forall i | 0 <= i <= last
      ensures i < |parts| && parts[i] == Chunk(p, c, i)
    {
      AcceptedPart(h, disk, path, cf, parts, i);
    }
    assert parts[..last + 1] == Chunks(p, c) == Chunks(p, c)[..last + 1];
    ChunksConcatenate(p, c, last + 1);
    if last + 1 < |parts| {
      CutPrefixShorter(parts, p, c, last + 1);
    }
  }

  /** Publishing a file and validating it in place, under any schedule of short reads by the
      publisher: the validation succeeds if and only if the reads cut the file into whole chunks, the
      chunk size does not divide the file size, and the ranges fit 64 bits. */
  lemma PublishThenValidateIff(h: Hasher, disk: Disk, localPath: string, meta: ChunkFileMeta, parts: seq<Bytes>)
    requires PathPush(localPath, meta.metaInfo.name) in disk
    requires meta.chunkFile.chunkSize > 0
    requires var p := disk[PathPush(localPath, meta.metaInfo.name)];
             && IsCut(parts, p, meta.chunkFile.chunkSize)
             && meta.chunkFile == ChunkFile(|p|, meta.chunkFile.chunkSize, HashAll(h, parts))
    requires PartsCollisionFree(h, parts)
    ensures ValidateFile(h, disk, localPath, meta).Ok? <==>
              AllButLastFull(parts, meta.chunkFile.chunkSize) && Servable(meta.chunkFile)
  {
    var cf, path := meta.chunkFile, PathPush(localPath, meta.metaInfo.name);
    CutIsChunksIff(parts, disk[path], cf.chunkSize);
    if parts == Chunks(disk[path], cf.chunkSize) {
      ChunksOfCollisionFreeParts(h, disk[path], cf.chunkSize);
      ValidatorExact(h, disk, localPath, meta, disk[path]);
    } else if ValidateFile(h, disk, localPath, meta).Ok? {
      AcceptedPartsAreChunks(h, disk, path, cf, parts);
    }
  }

  /** Publishing a file through a buffered reader and validating it in place succeeds if and only if the
      chunk size is at least the buffer's capacity, or divides it, or the file fits the buffer; and the
      chunk size does not divide the file size, and the ranges fit 64 bits. */
  lemma BufferedPublishThenValidateIff(h: Hasher, disk: Disk, localPath: string, meta: ChunkFileMeta, capacity: nat)
    requires PathPush(localPath, meta.metaInfo.name) in disk
    requires capacity > 0 && meta.chunkFile.chunkSize > 0
    requires var p := disk[PathPush(localPath, meta.metaInfo.name)];
             var parts := BufferedParts(p, capacity, meta.chunkFile.chunkSize);
             && meta.chunkFile == ChunkFile(|p|, meta.chunkFile.chunkSize, HashAll(h, parts))
             && PartsCollisionFree(h, parts)
    ensures ValidateFile(h, disk, localPath, meta).Ok? <==>
              && BufferFits(capacity, meta.chunkFile.chunkSize, meta.chunkFile.totalBytes)
              && Servable(meta.chunkFile)
  {
    var p, size := disk[PathPush(localPath, meta.metaInfo.name)], meta.chunkFile.chunkSize;
    BufferedChunksIff(p, capacity, size);
    BufferedPartsFullIff(p, capacity, size);
    PublishThenValidateIff(h, disk, localPath, meta, BufferedParts(p, capacity, size));
  }
}
