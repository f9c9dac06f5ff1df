/**
 Manifest records and the chunk arithmetic that publisher, validator and downloader share.
 */
module ChunkFiles {
  import opened Arithmetic
  import opened Basics

  datatype FileMetaInfo = FileMetaInfo(name: string, hash: string)

  datatype ChunkFile = ChunkFile(totalBytes: u64, chunkSize: u64, chunkHashes: seq<string>)

  datatype ChunkFileMeta = ChunkFileMeta(metaInfo: FileMetaInfo, chunkFile: ChunkFile)

  datatype Subfile = Subfile(ipfsHash: string, localPath: string, chunkFiles: seq<ChunkFileMeta>)

  // ----- what the code computes -----

  /** The last value of the index loop `0..(total_bytes / chunk_size + 1)`. */
  function LastIndex(cf: ChunkFile): nat
    requires cf.chunkSize > 0
  {
    DivMod(cf.totalBytes, cf.chunkSize);
    cf.totalBytes / cf.chunkSize
  }

  /** The bound of the index loop can be computed: no division by zero, no overflow of the added one. */
  predicate IndexLoopFits(cf: ChunkFile) {
    cf.chunkSize > 0 && LastIndex(cf) + 1 < U64_LIMIT
  }

  /** First and last byte position of chunk i, in checked 64-bit arithmetic. */
  function ChunkRange(cf: ChunkFile, i: nat): Outcome<(u64, u64)> {
    var start := i * cf.chunkSize;
    if start + cf.chunkSize >= U64_LIMIT then Panic
    else
      var stop := Min(start + cf.chunkSize, cf.totalBytes);
      if stop == 0 then Panic else Ok((start, stop - 1))
  }

  // ----- what a chunk of published content is -----

  function Chunk(p: Bytes, size: nat, i: nat): Bytes {
    var lo := i * size;
    var hi := Min(lo + size, |p|);
    if lo <= hi then p[lo..hi] else []
  }

  /** The number of non-empty chunks of n bytes. */
  function ChunkCount(n: nat, size: nat): nat
    requires size > 0
  {
    DivMod(n, size);
    if n % size == 0 then n / size else n / size + 1
  }

  function Chunks(p: Bytes, size: nat): seq<Bytes>
    requires size > 0
  {
    seq(ChunkCount(|p|, size), i requires 0 <= i => Chunk(p, size, i))
  }

  function HashAll(h: Hasher, parts: seq<Bytes>): (hashes: seq<string>)
    ensures |hashes| == |parts| && forall i :: 0 <= i < |parts| ==> hashes[i] == h(parts[i])
  {
    seq(|parts|, i requires 0 <= i < |parts| => h(parts[i]))
  }

  /** No other data has the hash of one of the parts. */
  ghost predicate PartsCollisionFree(h: Hasher, parts: seq<Bytes>) {
    forall i: nat, d: Bytes :: i < |parts| && h(d) == h(parts[i]) ==> d == parts[i]
  }

  /** No part is empty or longer than a chunk. */
  predicate Sized(parts: seq<Bytes>, size: nat) {
    forall i :: 0 <= i < |parts| ==> 0 < |parts[i]| <= size
  }

  /** The record of a file that was read in these parts. */
  ghost predicate Recorded(h: Hasher, cf: ChunkFile, parts: seq<Bytes>) {
    && cf.chunkSize > 0 && Sized(parts, cf.chunkSize)
    && cf.totalBytes == TotalLength(parts)
    && cf.chunkHashes == HashAll(h, parts)
  }

  /** The range and the expected hash of index i exist. */
  predicate Fetchable(cf: ChunkFile, i: nat) {
    ChunkRange(cf, i).Ok? && i < |cf.chunkHashes|
  }

  /** Every index of the loop can be asked for. */
  predicate Askable(cf: ChunkFile) {
    cf.chunkSize > 0 && Fetchable(cf, LastIndex(cf))
  }

  /** The record describes content p: its size, and the hash of each of its chunks. */
  ghost predicate Published(h: Hasher, cf: ChunkFile, p: Bytes) {
    && cf.chunkSize > 0
    && cf.totalBytes == |p|
    && |cf.chunkHashes| == ChunkCount(|p|, cf.chunkSize)
    && forall i :: 0 <= i < |cf.chunkHashes| ==> cf.chunkHashes[i] == h(Chunk(p, cf.chunkSize, i))
  }

  /** No other data has the hash of a chunk of p. */
  ghost predicate CollisionFree(h: Hasher, size: nat, p: Bytes) {
    forall i: nat, d: Bytes :: i * size < |p| && h(d) == h(Chunk(p, size, i)) ==> d == Chunk(p, size, i)
  }

  /** The sizes for which the index loop of the code visits exactly the non-empty chunks, without overflow. */
  predicate Servable(cf: ChunkFile) {
    && cf.chunkSize > 0
    && cf.totalBytes % cf.chunkSize != 0
    && LastIndex(cf) * cf.chunkSize + cf.chunkSize < U64_LIMIT
  }

  // ----- facts -----

  /** Chunk i is one of the counted chunks exactly when it starts inside the content. */
  lemma CountedIffStartsInside(n: nat, size: nat, i: nat)
    requires size > 0
    ensures i < ChunkCount(n, size) <==> i * size < n
    ensures ChunkCount(n, size) == n / size + 1 <==> n % size != 0
  {
    DivMod(n, size);
    DivLargest(n, size, i);
    if i == n / size {
    } else if i * size == n {
      DivUnique(n, size, i);
    }
  }

  /** Wherever the code computes the range of a counted chunk without overflow, the range is that chunk. */
  lemma RangeOfCountedChunk(cf: ChunkFile, p: Bytes, i: nat)
    requires cf.chunkSize > 0 && cf.totalBytes == |p|
    requires i < ChunkCount(|p|, cf.chunkSize)
    ensures i * cf.chunkSize < |p|
    ensures Chunk(p, cf.chunkSize, i) == p[i * cf.chunkSize..Min(i * cf.chunkSize + cf.chunkSize, |p|)] != []
    ensures ChunkRange(cf, i).Ok? <==> i * cf.chunkSize + cf.chunkSize < U64_LIMIT
    ensures ChunkRange(cf, i).Ok? ==>
              ChunkRange(cf, i).value == (i * cf.chunkSize, i * cf.chunkSize + |Chunk(p, cf.chunkSize, i)| - 1)
  {
    CountedIffStartsInside(|p|, cf.chunkSize, i);
  }

  /** For a servable record the loop's ranges exist, and position b lies in range i exactly when
      i == b / chunk_size: the ranges are in order, disjoint and cover the content. */
  lemma RangesPartition(cf: ChunkFile, i: nat)
    requires Servable(cf) && i <= LastIndex(cf)
    ensures ChunkRange(cf, i).Ok?
    ensures var (start, end) := ChunkRange(cf, i).value;
            && start <= end < cf.totalBytes
            && (i == LastIndex(cf) <==> end == cf.totalBytes - 1)
            && (i < LastIndex(cf) ==> end + 1 == (i + 1) * cf.chunkSize)
            && forall b: int :: 0 <= b < cf.totalBytes ==> (start <= b <= end <==> i == b / cf.chunkSize)
  {
    var c, n := cf.chunkSize, cf.totalBytes;
    LastIndexBounds(n, c, i);
    forall b: int | 0 <= b < n
      ensures i * c <= b <= Min(i * c + c, n) - 1 <==> i == b / c
    {
      DivUnique(b, c, i);
    }
  }

  lemma LastIndexBounds(n: nat, c: nat, i: nat)
    requires c > 0 && i <= n / c
    ensures i * c <= (n / c) * c <= n < (n / c) * c + c
    ensures n % c != 0 <==> (n / c) * c < n
    ensures (i + 1) * c == i * c + c
    ensures i < n / c ==> i * c + c <= (n / c) * c
  {
    DivMod(n, c);
    MulMonotone(i, n / c, c);
    MulNext(i, c);
    if i < n / c {
      MulMonotone(i + 1, n / c, c);
    }
  }

  /** The range of the loop's last index is non-empty exactly when the size is no multiple of the chunk size. */
  lemma LastRangeNonEmptyIff(cf: ChunkFile)
    requires cf.chunkSize > 0 && cf.totalBytes > 0
    requires LastIndex(cf) * cf.chunkSize + cf.chunkSize < U64_LIMIT
    ensures ChunkRange(cf, LastIndex(cf)).Ok?
    ensures var (start, end) := ChunkRange(cf, LastIndex(cf)).value;
            start <= end <==> cf.totalBytes % cf.chunkSize != 0
  {
    DivMod(cf.totalBytes, cf.chunkSize);
  }

  /** The code can name every chunk its loop visits if and only if the record is servable. */
  lemma ServableIff(h: Hasher, cf: ChunkFile, p: Bytes)
    requires Published(h, cf, p)
    ensures Servable(cf) <==>
              forall i: nat :: i <= LastIndex(cf) ==> ChunkRange(cf, i).Ok? && i < |cf.chunkHashes|
  {
    CountedIffStartsInside(|p|, cf.chunkSize, LastIndex(cf));
    if Servable(cf) {
      forall i: nat | i <= LastIndex(cf)
        ensures ChunkRange(cf, i).Ok? && i < |cf.chunkHashes|
      {
        RangesPartition(cf, i);
      }
    } else {
      var last := LastIndex(cf);
      assert !(ChunkRange(cf, last).Ok? && last < |cf.chunkHashes|);
    }
  }

  /** The loop's bound overflows only for chunks of one byte, and those are never servable. */
  lemma ServableLoopFits(cf: ChunkFile)
    requires cf.chunkSize > 0
    ensures Servable(cf) ==> IndexLoopFits(cf)
    ensures !IndexLoopFits(cf) <==> cf.chunkSize == 1 && cf.totalBytes == U64_LIMIT - 1
  {
    var n, c := cf.totalBytes, cf.chunkSize;
    DivMod(n, c);
    if c == 1 {
      DivUnique(n, 1, n);
    } else {
      MulMonotone(2, c, n / c);
      assert 2 * (n / c) <= c * (n / c) == (n / c) * c <= n;
    }
  }

  /** If the last index of the loop can be asked for, so can the others. */
  lemma AskableBelow(cf: ChunkFile, i: nat)
    requires Askable(cf) && i <= LastIndex(cf)
    ensures Fetchable(cf, i)
  {
    MulMonotone(i, LastIndex(cf), cf.chunkSize);
  }

  lemma AskableLoopFits(cf: ChunkFile)
    requires Askable(cf)
    ensures IndexLoopFits(cf)
  {
    var last := LastIndex(cf);
    DivMod(cf.totalBytes, cf.chunkSize);
    MulMonotone(1, cf.chunkSize, last);
  }

  /** For a record of whole chunks that is being servable. */
  lemma AskableIff(h: Hasher, cf: ChunkFile, p: Bytes)
    requires Published(h, cf, p)
    ensures Askable(cf) <==> Servable(cf)
  {
    ServableIff(h, cf, p);
    if Askable(cf) {
      LastFetchableServable(h, cf, p);
    }
  }

  /** If even the last index of the loop has a range and a hash, the record is servable. */
  lemma LastFetchableServable(h: Hasher, cf: ChunkFile, p: Bytes)
    requires Published(h, cf, p)
    requires ChunkRange(cf, LastIndex(cf)).Ok? && LastIndex(cf) < |cf.chunkHashes|
    ensures Servable(cf) && p != []
  {
    CountedIffStartsInside(|p|, cf.chunkSize, LastIndex(cf));
  }

  /** f holds p's bytes at positions lo up to hi. */
  predicate Agrees(f: Bytes, p: Bytes, lo: nat, hi: nat) {
    lo <= hi <= |p| && hi <= |f| && f[lo..hi] == p[lo..hi]
  }

  lemma AgreesAt(f: Bytes, p: Bytes, lo: nat, hi: nat, b: nat)
    requires Agrees(f, p, lo, hi) && lo <= b < hi
    ensures f[b] == p[b]
  {
    assert f[b] == f[lo..hi][b - lo];
  }

  /** Content that agrees with p on every chunk range and is no longer than p is p. */
  lemma AllChunksMakeTheFile(f: Bytes, p: Bytes, size: nat)
    requires size > 0 && |f| <= |p|
    requires forall i: nat :: i * size < |p| ==> Agrees(f, p, i * size, Min(i * size + size, |p|))
    ensures f == p
  {
    forall b: nat | b < |p|
      ensures b < |f| && f[b] == p[b]
    {
      var i := b / size;
      DivUnique(b, size, i);
      DivMod(b, size);
      AgreesAt(f, p, i * size, Min(i * size + size, |p|), b);
    }
    if p != [] {
      assert p[|p| - 1] in p;
    }
  }

  /** The chunks of p, one after the other, are p. */
  lemma {:induction false} ChunksConcatenate(p: Bytes, size: nat, k: nat)
    requires size > 0 && k <= ChunkCount(|p|, size)
    ensures Flatten(Chunks(p, size)[..k]) == p[..Min(k * size, |p|)]
    ensures k == ChunkCount(|p|, size) ==> Flatten(Chunks(p, size)[..k]) == p
  {
    var cs := Chunks(p, size);
    CountedIffStartsInside(|p|, size, k);
    if k == 0 {
    } else {
      ChunksConcatenate(p, size, k - 1);
      CountedIffStartsInside(|p|, size, k - 1);
      assert cs[..k] == cs[..k - 1] + [cs[k - 1]];
      FlattenPush(cs[..k - 1], cs[k - 1]);
      MulNext(k - 1, size);
      ExtendByChunk(p, size, k - 1);
    }
  }

  lemma ExtendByChunk(p: Bytes, size: nat, i: nat)
    requires i * size < |p|
    ensures p[..i * size] + Chunk(p, size, i) == p[..Min(i * size + size, |p|)]
  {
  }
}
