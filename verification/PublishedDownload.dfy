/**
 From the publisher's reads to the downloaded files: for which cuts of a file a download that succeeds
 leaves the file that was published.
 */
module PublishedDownload {
  import opened Arithmetic
  import opened Assembly
  import opened Basics
  import opened BufferedReads
  import opened ChunkFiles
  import opened FileReader
  import opened Protocol
  import opened ProtocolInvariant
  import opened ProtocolResults
  import opened ProtocolSuccess

  // ----- which cuts are put together again -----

  lemma PaddedEndsInZero(part: Bytes, chunk: Bytes)
    requires Padded(part, chunk) && |part| < |chunk|
    ensures 0 in chunk
  {
    assert chunk[|part|] == 0;
  }

  lemma FullPart(cf: ChunkFile, parts: seq<Bytes>, p: Bytes, i: nat)
    requires cf.chunkSize > 0 && cf.totalBytes == |p| && Reassembles(cf, parts, p)
    requires i < LastIndex(cf) && 0 !in p
    ensures |parts[i]| == cf.chunkSize
  {
    FullChunk(p, cf.chunkSize, i, LastIndex(cf));
    PaddedIsFull(parts[i], p, i * cf.chunkSize, cf.chunkSize);
  }

  lemma PaddedIsFull(part: Bytes, p: Bytes, lo: nat, size: nat)
    requires lo + size <= |p| && Padded(part, p[lo..lo + size]) && 0 !in p
    ensures |part| == size
  {
    if |part| < size {
      PaddedEndsInZero(part, p[lo..lo + size]);
    }
  }

  /** A cut into whole chunks is put together again, unless the chunk size divides the size. Of a file without
      zero bytes no other cut is. */
  lemma CutReassembles(cf: ChunkFile, parts: seq<Bytes>, p: Bytes)
    requires cf.chunkSize > 0 && cf.totalBytes == |p| && IsCut(parts, p, cf.chunkSize)
    ensures parts == Chunks(p, cf.chunkSize) && |p| % cf.chunkSize != 0 ==> Reassembles(cf, parts, p)
    ensures Reassembles(cf, parts, p) ==> |p| % cf.chunkSize != 0
    ensures Reassembles(cf, parts, p) && 0 !in p ==> parts == Chunks(p, cf.chunkSize)
  {
    ChunksReassembleIff(cf, p);
    if Reassembles(cf, parts, p) {
      LastChunk(p, cf.chunkSize, LastIndex(cf));
      LastIndexBounds(|p|, cf.chunkSize, LastIndex(cf));
      if 0 !in p {
        forall i: nat | i < LastIndex(cf)
          ensures |parts[i]| == cf.chunkSize
        {
          FullPart(cf, parts, p, i);
        }
        LastPartEnds(cf, parts);
        CutIsChunksIff(parts, p, cf.chunkSize);
      }
    }
  }

  /** Through a buffer that fits, a file is put together again unless the chunk size divides the size; through
      one that does not, only if the first byte after the buffer is a zero. */
  lemma BufferedReassembles(cf: ChunkFile, p: Bytes, capacity: nat)
    requires capacity > 0 && cf.chunkSize > 0 && cf.totalBytes == |p|
    ensures BufferFits(capacity, cf.chunkSize, |p|) ==>
              (Reassembles(cf, BufferedParts(p, capacity, cf.chunkSize), p) <==> |p| % cf.chunkSize != 0)
    ensures !BufferFits(capacity, cf.chunkSize, |p|) ==> capacity < |p|
    ensures !BufferFits(capacity, cf.chunkSize, |p|) && Reassembles(cf, BufferedParts(p, capacity, cf.chunkSize), p) ==>
              p[capacity] == 0
  {
    var size, q := cf.chunkSize, BufferedParts(p, capacity, cf.chunkSize);
    if BufferFits(capacity, size, |p|) {
      BufferedChunksIff(p, capacity, size);
      ChunksReassembleIff(cf, p);
    } else if Reassembles(cf, q, p) {
      DivMod(capacity, size);
      RoughIsPadded(cf, p, q, capacity, capacity / size, (capacity / size) * size);
    }
  }

  lemma RoughIsPadded(cf: ChunkFile, p: Bytes, q: seq<Bytes>, capacity: nat, j: nat, lo: nat)
    requires capacity > 0 && cf.chunkSize > 0 && cf.totalBytes == |p| && !BufferFits(capacity, cf.chunkSize, |p|)
    requires q == BufferedParts(p, capacity, cf.chunkSize) && Reassembles(cf, q, p)
    requires j == capacity / cf.chunkSize && lo == j * cf.chunkSize
    ensures capacity < |p| && p[capacity] == 0
  {
    var size, last := cf.chunkSize, LastIndex(cf);
    RoughPart(p, capacity, size, j, lo);
    DivLargest(|p|, size, j);
    if j < last {
      FullChunk(p, size, j, last);
      assert Padded(p[lo..capacity], p[lo..lo + size]);
      assert p[lo..lo + size][capacity - lo] == p[capacity];
    } else {
      LastChunk(p, size, last);
    }
  }

  // ----- what every successful download leaves -----

  /** Every successful download leaves this content under the name. */
  ghost predicate AlwaysLeaves(c: Config, s0: State, name: string, content: Bytes) {
    forall es, s :: Exec(c, s0, es) == Some(s) && s.main == Finished(true) ==>
      name in s.files && s.files[name] == content
  }

  /** No earlier entry has k's hash, and no later one its name. */
  ghost predicate OwnEntry(c: Config, k: nat) {
    k < |c.entries| && FirstOfHash(c, k) && LastWriter(c, k) == k
  }

  /** An entry's file holds, after every successful download, its parts at the positions of their indices. */
  lemma EntryAlwaysLeaves(c: Config, parts: seq<seq<Bytes>>, s0: State, k: nat)
    requires GoodConfig(c, parts) && Init(c, s0) && OwnEntry(c, k) && Cf(c, k).chunkSize > 0
    ensures AlwaysLeaves(c, s0, Name(c, k), Whole(Cf(c, k), parts[k]))
  {
    forall es, s | Exec(c, s0, es) == Some(s) && s.main == Finished(true)
      ensures Name(c, k) in s.files && s.files[Name(c, k)] == Whole(Cf(c, k), parts[k])
    {
      SuccessLeaves(c, parts, s0, es, s, k);
      assert FirstWithHash(c, k, 0) == k;
    }
  }

  /** Where a download can succeed, every successful download leaves the published file if and only if the
      publisher's cut is one that is put together again. */
  lemma CutDownloadIff(c: Config, parts: seq<seq<Bytes>>, s0: State, k: nat)
    requires GoodConfig(c, parts) && Init(c, s0) && OwnEntry(c, k) && Downloadable(c)
    ensures Cf(c, k).chunkSize > 0
    ensures AlwaysLeaves(c, s0, Name(c, k), Flatten(parts[k])) <==> Reassembles(Cf(c, k), parts[k], Flatten(parts[k]))
  {
    assert Askable(Cf(c, k)) && Recorded(c.hash, Cf(c, k), parts[k]);
    FlattenLength(parts[k]);
    ReassemblesIff(Cf(c, k), parts[k], Flatten(parts[k]));
    EntryAlwaysLeaves(c, parts, s0, k);
    SuccessPossibleIff(c, parts, s0);
    var es, s :| Exec(c, s0, es) == Some(s) && s.main == Finished(true);
    assert s.files[Name(c, k)] == Whole(Cf(c, k), parts[k]);
  }

  /** For a file without zero bytes that means: if and only if the cut is into whole chunks and the chunk size
      does not divide the size. */
  lemma CutDownloadWholeIff(c: Config, parts: seq<seq<Bytes>>, s0: State, k: nat)
    requires GoodConfig(c, parts) && Init(c, s0) && OwnEntry(c, k) && Downloadable(c)
    requires 0 !in Flatten(parts[k])
    ensures Cf(c, k).chunkSize > 0
    ensures AlwaysLeaves(c, s0, Name(c, k), Flatten(parts[k])) <==>
              && AllButLastFull(parts[k], Cf(c, k).chunkSize)
              && Cf(c, k).totalBytes % Cf(c, k).chunkSize != 0
  {
    assert Recorded(c.hash, Cf(c, k), parts[k]);
    FlattenLength(parts[k]);
    CutDownloadIff(c, parts, s0, k);
    CutReassembles(Cf(c, k), parts[k], Flatten(parts[k]));
    CutIsChunksIff(parts[k], Flatten(parts[k]), Cf(c, k).chunkSize);
  }

  /** Published through a buffer: if it fits, every successful download leaves the file, unless the chunk size
      divides the size. If it does not fit, a successful download can leave the file only when the first byte
      after the buffer is a zero; where that is excluded, it leaves the file exactly when the buffer fits. */
  lemma BufferedDownload(c: Config, parts: seq<seq<Bytes>>, s0: State, k: nat, p: Bytes, capacity: nat,
                         es: seq<Event>, s: State)
    requires GoodConfig(c, parts) && Init(c, s0) && OwnEntry(c, k)
    requires capacity > 0 && Cf(c, k).chunkSize > 0 && parts[k] == BufferedParts(p, capacity, Cf(c, k).chunkSize)
    requires Exec(c, s0, es) == Some(s) && s.main == Finished(true)
    ensures Name(c, k) in s.files
    ensures BufferFits(capacity, Cf(c, k).chunkSize, |p|) ==>
              (s.files[Name(c, k)] == p <==> |p| % Cf(c, k).chunkSize != 0)
    ensures s.files[Name(c, k)] == p <==> Reassembles(Cf(c, k), parts[k], p)
    ensures (capacity < |p| ==> p[capacity] != 0) ==>
              (s.files[Name(c, k)] == p <==>
                 BufferFits(capacity, Cf(c, k).chunkSize, |p|) && |p| % Cf(c, k).chunkSize != 0)
  {
    var cf := Cf(c, k);
    BufferedChunksIff(p, capacity, cf.chunkSize);
    assert Recorded(c.hash, cf, parts[k]);
    FlattenLength(parts[k]);
    ReachableInv(c, parts, s0, es, s);
    FinishedAskable(c, parts, s, k);
    ReassemblesIff(cf, parts[k], p);
    BufferedReassembles(cf, p, capacity);
    EntryAlwaysLeaves(c, parts, s0, k);
  }

  // ----- manifests of whole chunks -----

  /** The entries are records of whole chunks of the contents `pub`. */
  ghost predicate WholeConfig(c: Config, pub: seq<Bytes>) {
    && |pub| == |c.entries|
    && (forall k :: 0 <= k < |c.entries| ==>
          && Published(c.hash, Cf(c, k), pub[k])
          && CollisionFree(c.hash, Cf(c, k).chunkSize, pub[k]))
    && (forall j, k :: 0 <= j < |c.entries| && 0 <= k < |c.entries| && HashOf(c, j) == HashOf(c, k)
          ==> Cf(c, j) == Cf(c, k))
  }

  ghost function AllChunks(c: Config, pub: seq<Bytes>): seq<seq<Bytes>>
    requires WholeConfig(c, pub)
  {
    seq(|pub|, k requires 0 <= k < |pub| => Chunks(pub[k], Cf(c, k).chunkSize))
  }

  lemma ChunksRecorded(h: Hasher, cf: ChunkFile, p: Bytes)
    requires Published(h, cf, p) && CollisionFree(h, cf.chunkSize, p)
    ensures Recorded(h, cf, Chunks(p, cf.chunkSize)) && PartsCollisionFree(h, Chunks(p, cf.chunkSize))
    ensures Flatten(Chunks(p, cf.chunkSize)) == p
  {
    var q := Chunks(p, cf.chunkSize);
    ChunksConcatenate(p, cf.chunkSize, |q|);
    assert q[..|q|] == q;
    FlattenLength(q);
    forall i | 0 <= i < |q|
      ensures i * cf.chunkSize < |p| && q[i] == Chunk(p, cf.chunkSize, i) && 0 < |q[i]| <= cf.chunkSize
    {
      ChunkSized(p, cf.chunkSize, i);
    }
    assert Sized(q, cf.chunkSize);
    assert cf.chunkHashes == HashAll(h, q);
  }

  lemma ChunkSized(p: Bytes, size: nat, i: nat)
    requires size > 0 && i < |Chunks(p, size)|
    ensures i * size < |p| && Chunks(p, size)[i] == Chunk(p, size, i) && 0 < |Chunk(p, size, i)| <= size
  {
    CountedIffStartsInside(|p|, size, i);
  }

  lemma WholeIsGood(c: Config, pub: seq<Bytes>)
    requires WholeConfig(c, pub)
    ensures GoodConfig(c, AllChunks(c, pub))
    ensures forall k :: 0 <= k < |c.entries| ==>
              Flatten(AllChunks(c, pub)[k]) == pub[k] && (Askable(Cf(c, k)) <==> Servable(Cf(c, k)))
  {
    forall k | 0 <= k < |c.entries|
      ensures Recorded(c.hash, Cf(c, k), AllChunks(c, pub)[k]) && PartsCollisionFree(c.hash, AllChunks(c, pub)[k])
      ensures Flatten(AllChunks(c, pub)[k]) == pub[k] && (Askable(Cf(c, k)) <==> Servable(Cf(c, k)))
    {
      ChunksRecorded(c.hash, Cf(c, k), pub[k]);
      AskableIff(c.hash, Cf(c, k), pub[k]);
    }
  }

  /** With whole chunks some run succeeds if and only if there is an endpoint (or no entry) and every file is
      servable: its size is no multiple of its chunk size, and its ranges fit 64 bits. */
  lemma WholeSuccessPossibleIff(c: Config, pub: seq<Bytes>, s0: State)
    requires WholeConfig(c, pub) && Init(c, s0)
    ensures (exists es, s :: Exec(c, s0, es) == Some(s) && s.main == Finished(true)) <==>
              && (c.entries == [] || c.endpoints != [])
              && forall k :: 0 <= k < |c.entries| ==> Servable(Cf(c, k))
  {
    WholeIsGood(c, pub);
    SuccessPossibleIff(c, AllChunks(c, pub), s0);
  }

  /** With whole chunks the output files of a successful download are the published ones if and only if the
      last entry of every name has the content of all entries of that name, and no earlier entry has its hash. */
  lemma WholeSuccessCorrectIff(c: Config, pub: seq<Bytes>, s0: State, es: seq<Event>, s: State)
    requires WholeConfig(c, pub) && Init(c, s0) && Exec(c, s0, es) == Some(s) && s.main == Finished(true)
    ensures forall k :: 0 <= k < |c.entries| ==> Name(c, k) in s.files
    ensures (forall k :: 0 <= k < |c.entries| ==> s.files[Name(c, k)] == pub[k]) <==>
              forall k :: 0 <= k < |c.entries| ==> FirstOfHash(c, LastWriter(c, k)) && pub[LastWriter(c, k)] == pub[k]
  {
    var parts := AllChunks(c, pub);
    WholeIsGood(c, pub);
    SuccessCorrectIff(c, parts, s0, es, s);
    forall k | 0 <= k < |c.entries|
      ensures EntrySound(c, parts, k) <==> FirstOfHash(c, LastWriter(c, k)) && pub[LastWriter(c, k)] == pub[k]
    {
      WholeEntrySoundIff(c, pub, s0, es, s, k);
    }
  }

  lemma WholeEntrySoundIff(c: Config, pub: seq<Bytes>, s0: State, es: seq<Event>, s: State, k: nat)
    requires WholeConfig(c, pub) && Init(c, s0) && Exec(c, s0, es) == Some(s) && s.main == Finished(true)
    requires k < |c.entries|
    ensures EntrySound(c, AllChunks(c, pub), k) <==> FirstOfHash(c, LastWriter(c, k)) && pub[LastWriter(c, k)] == pub[k]
  {
    var last := LastWriter(c, k);
    WholeIsGood(c, pub);
    ReachableInv(c, AllChunks(c, pub), s0, es, s);
    FinishedAskable(c, AllChunks(c, pub), s, last);
    ChunksReassembleIff(Cf(c, last), pub[last]);
  }
}
