/**
 What holds of every run of the download, whatever the schedule, the servers' replies and the failing writes.
 */
module ProtocolResults {
  import opened Assembly
  import opened Basics
  import opened ChunkFiles
  import opened OutputFile
  import opened Protocol
  import opened ProtocolInvariant

  // ----- safety in every state -----

  lemma ReachableInv(c: Config, parts: seq<seq<Bytes>>, s0: State, es: seq<Event>, s: State)
    requires GoodConfig(c, parts) && Init(c, s0) && Exec(c, s0, es) == Some(s)
    ensures Inv(c, parts, s)
  {
    InitInv(c, parts, s0);
    RunKeepsInv(c, parts, s0, es);
  }

  lemma TrackedChunk(c: Config, parts: seq<seq<Bytes>>, s: State, k: nat, i: nat)
    requires ShapeOk(c, s) && |parts| == |c.entries| && FilesOk(c, parts, s) && k < |s.handles| && Tracked(c, s, k)
    requires i <= LastIndex(Cf(c, k)) && i !in s.outstanding[HashOf(c, k)]
    ensures PartOf(s.files[Name(c, k)], SourceOf(c, parts, k).whole)
    ensures Placed(Cf(c, k), s.files[Name(c, k)], SourceOf(c, parts, k), i)
  {
    assert FileOk(c, SourceOf(c, parts, k), s, k);
  }

  /** Where the range of index i of entry k starts, its file holds `data`, which has the published hash. */
  predicate HoldsPart(c: Config, s: State, k: nat, i: nat, data: Bytes)
    requires k < |c.entries|
  {
    && Name(c, k) in s.files && Fetchable(Cf(c, k), i) && data != []
    && var (start, _) := ChunkRange(Cf(c, k), i).value;
       && start + |data| <= |s.files[Name(c, k)]|
       && s.files[Name(c, k)][start..start + |data|] == data
       && c.hash(data) == Cf(c, k).chunkHashes[i]
  }

  lemma TrackedHoldsPart(c: Config, parts: seq<seq<Bytes>>, s: State, k: nat, i: nat)
    requires Inv(c, parts, s) && k < |s.handles| && Tracked(c, s, k)
    requires i <= LastIndex(Cf(c, k)) && i !in s.outstanding[HashOf(c, k)]
    ensures i < |parts[k]| && HoldsPart(c, s, k, i, parts[k][i])
  {
    TrackedChunk(c, parts, s, k, i);
    PlacedIsPart(c, parts, s, k, i);
  }

  lemma PlacedIsPart(c: Config, parts: seq<seq<Bytes>>, s: State, k: nat, i: nat)
    requires GoodConfig(c, parts) && k < |c.entries| && Cf(c, k).chunkSize > 0 && i <= LastIndex(Cf(c, k))
    requires Name(c, k) in s.files && Placed(Cf(c, k), s.files[Name(c, k)], SourceOf(c, parts, k), i)
    ensures i < |parts[k]| && HoldsPart(c, s, k, i, parts[k][i])
  {
    FetchablePart(c, parts, k, i);
    PartInWhole(c, parts, k, i);
  }

  /** For a file published in whole chunks the part is the chunk, and its bytes are those of the requested range. */
  lemma WholeChunkInPlace(c: Config, parts: seq<seq<Bytes>>, s: State, k: nat, i: nat, p: Bytes)
    requires GoodConfig(c, parts) && k < |c.entries| && i < |parts[k]| && HoldsPart(c, s, k, i, parts[k][i])
    requires Cf(c, k).chunkSize > 0 && parts[k] == Chunks(p, Cf(c, k).chunkSize)
    ensures var (start, end) := ChunkRange(Cf(c, k), i).value;
            start <= end < |s.files[Name(c, k)]| && end < |p| && s.files[Name(c, k)][start..end + 1] == p[start..end + 1]
  {
    assert Recorded(c.hash, Cf(c, k), parts[k]);
    ChunksTotal(p, Cf(c, k).chunkSize);
    assert parts[k][i] == Chunk(p, Cf(c, k).chunkSize, i);
    ChunkIsRange(Cf(c, k), s.files[Name(c, k)], p, i);
  }

  lemma ChunksTotal(p: Bytes, size: nat)
    requires size > 0
    ensures TotalLength(Chunks(p, size)) == |p|
  {
    var q := Chunks(p, size);
    FlattenLength(q);
    ChunksConcatenate(p, size, |q|);
    assert q[..|q|] == q;
  }

  lemma ChunkIsRange(cf: ChunkFile, f: Bytes, p: Bytes, i: nat)
    requires cf.chunkSize > 0 && cf.totalBytes == |p| && i < ChunkCount(|p|, cf.chunkSize) && ChunkRange(cf, i).Ok?
    requires var start, chunk := ChunkRange(cf, i).value.0, Chunk(p, cf.chunkSize, i);
             start + |chunk| <= |f| && f[start..start + |chunk|] == chunk
    ensures var (start, end) := ChunkRange(cf, i).value;
            start <= end < |f| && end < |p| && f[start..end + 1] == p[start..end + 1]
  {
    RangeOfCountedChunk(cf, p, i);
  }

  /** A tracked entry's file holds every part that is no longer outstanding. Tracked are the opened entries
      that share neither hash nor name with another, and, as long as no entry has failed, the first of a
      hash while no later entry of its name has been opened. */
  lemma ChunksInPlace(c: Config, parts: seq<seq<Bytes>>, s0: State, es: seq<Event>, s: State, k: nat, i: nat)
    requires GoodConfig(c, parts) && Init(c, s0) && Exec(c, s0, es) == Some(s)
    requires |s.handles| <= |c.entries| && Tracked(c, s, k)
    requires i <= LastIndex(Cf(c, k)) && i !in Remaining(s.outstanding, HashOf(c, k))
    ensures i < |parts[k]| && HoldsPart(c, s, k, i, parts[k][i])
  {
    ReachableInv(c, parts, s0, es, s);
    TrackedHoldsPart(c, parts, s, k, i);
  }

  /** No step ever adds to an outstanding set. */
  lemma {:induction false} OutstandingNeverGrows(c: Config, s: State, es: seq<Event>, hash: string)
    requires Exec(c, s, es).Some?
    ensures Remaining(Exec(c, s, es).value.outstanding, hash) <= Remaining(s.outstanding, hash)
    decreases es
  {
    if es != [] {
      OutstandingNeverGrows(c, Apply(c, s, es[0]), es[1..], hash);
    }
  }

  /** A part in place stays in place while its entry is tracked: later writes, failed ones included, do
      not disturb it. */
  lemma ChunksStayInPlace(c: Config, parts: seq<seq<Bytes>>, s0: State, es: seq<Event>, s: State,
                          fs: seq<Event>, s': State, k: nat, i: nat)
    requires GoodConfig(c, parts) && Init(c, s0) && Exec(c, s0, es) == Some(s) && Exec(c, s, fs) == Some(s')
    requires |s.handles| <= |c.entries| && Tracked(c, s, k)
    requires |s'.handles| <= |c.entries| && Tracked(c, s', k)
    requires i <= LastIndex(Cf(c, k)) && i !in Remaining(s.outstanding, HashOf(c, k))
    ensures i < |parts[k]|
    ensures HoldsPart(c, s, k, i, parts[k][i])
    ensures HoldsPart(c, s', k, i, parts[k][i])
  {
    OutstandingNeverGrows(c, s, fs, HashOf(c, k));
    ReachableInv(c, parts, s0, es, s);
    RunKeepsInv(c, parts, s, fs);
    TrackedHoldsPart(c, parts, s, k, i);
    TrackedHoldsPart(c, parts, s', k, i);
  }

  /** An entry whose hash and name are its own is tracked for good once it is opened. */
  lemma SoloStaysInPlace(c: Config, parts: seq<seq<Bytes>>, s0: State, es: seq<Event>, s: State,
                         fs: seq<Event>, s': State, k: nat, i: nat)
    requires GoodConfig(c, parts) && Init(c, s0) && Exec(c, s0, es) == Some(s) && Exec(c, s, fs) == Some(s')
    requires k < |s.handles| && k < |c.entries| && Solo(c, k)
    requires i <= LastIndex(Cf(c, k)) && i !in Remaining(s.outstanding, HashOf(c, k))
    ensures i < |parts[k]|
    ensures HoldsPart(c, s, k, i, parts[k][i])
    ensures HoldsPart(c, s', k, i, parts[k][i])
  {
    HandlesGrow(c, s, fs);
    ReachableInv(c, parts, s0, es, s);
    RunKeepsInv(c, parts, s, fs);
    ChunksStayInPlace(c, parts, s0, es, s, fs, s', k, i);
  }

  lemma {:induction false} HandlesGrow(c: Config, s: State, es: seq<Event>)
    requires Exec(c, s, es).Some?
    ensures |s.handles| <= |Exec(c, s, es).value.handles|
    decreases es
  {
    if es != [] {
      HandlesGrow(c, Apply(c, s, es[0]), es[1..]);
    }
  }

  // ----- a successful download -----

  /** The last of the first n entries with the given name. */
  function LastNamed(c: Config, name: string, n: nat): (r: nat)
    requires n <= |c.entries| && exists j :: 0 <= j < n && Name(c, j) == name
    ensures r < n && Name(c, r) == name
    ensures forall j :: r < j < n ==> Name(c, j) != name
  {
    if Name(c, n - 1) == name then n - 1 else LastNamed(c, name, n - 1)
  }

  function LastWriter(c: Config, k: nat): (r: nat)
    requires k < |c.entries|
    ensures k <= r < |c.entries| && Name(c, r) == Name(c, k)
    ensures LatestOfName(c, r, |c.entries|)
  {
    assert Name(c, k) == Name(c, k);
    LastNamed(c, Name(c, k), |c.entries|)
  }

  /** A tracked entry with nothing outstanding has all its parts in its file, and nothing else but zeros. */
  lemma NothingOutstanding(c: Config, parts: seq<seq<Bytes>>, s: State, k: nat)
    requires ShapeOk(c, s) && GoodConfig(c, parts) && FetchedOk(c, s) && FilesOk(c, parts, s)
    requires k < |s.handles| && Tracked(c, s, k) && s.outstanding[HashOf(c, k)] == {}
    ensures s.files[Name(c, k)] == Whole(Cf(c, k), parts[k])
  {
    var cf, f, q := Cf(c, k), s.files[Name(c, k)], parts[k];
    NothingOutstandingAskable(c, parts, s, k);
    TrackedChunk(c, parts, s, k, 0);
    forall i: nat | i <= LastIndex(cf)
      ensures PartInPlace(f, Whole(cf, q), q, cf.chunkSize, i)
    {
      TrackedChunk(c, parts, s, k, i);
    }
    AllPartsMakeTheWhole(cf, q, f);
  }

  lemma NothingOutstandingAskable(c: Config, parts: seq<seq<Bytes>>, s: State, k: nat)
    requires ShapeOk(c, s) && GoodConfig(c, parts) && FetchedOk(c, s)
    requires k < |c.entries| && s.outstanding[HashOf(c, k)] == {}
    ensures Askable(Cf(c, k)) && LastIndex(Cf(c, k)) < |parts[k]| && Flatten(parts[k]) != []
    ensures Sized(parts[k], Cf(c, k).chunkSize) && Cf(c, k).totalBytes == |Flatten(parts[k])|
  {
    assert Fetchable(Cf(c, k), LastIndex(Cf(c, k)));
    assert Recorded(c.hash, Cf(c, k), parts[k]);
    FlattenLength(parts[k]);
  }

  /** The first entry with the hash of entry k. */
  function FirstWithHash(c: Config, k: nat, n: nat): (r: nat)
    requires n <= k < |c.entries| && forall j :: 0 <= j < n ==> HashOf(c, j) != HashOf(c, k)
    ensures r <= k && HashOf(c, r) == HashOf(c, k) && FirstOfHash(c, r)
    decreases k - n
  {
    if HashOf(c, n) == HashOf(c, k) then n else FirstWithHash(c, k, n + 1)
  }

  /** The files a successful download leaves, decided by the manifest alone: a name holds what the parts of
      the last entry with that name make up, or nothing if an earlier entry had the same hash. */
  ghost function Leaves(c: Config, parts: seq<seq<Bytes>>, k: nat): Bytes
    requires GoodConfig(c, parts) && k < |c.entries|
  {
    var last := LastWriter(c, k);
    assert Recorded(c.hash, Cf(c, last), parts[last]);
    if FirstWithHash(c, last, 0) == last then Whole(Cf(c, last), parts[last]) else []
  }

  lemma FinishedFiles(c: Config, parts: seq<seq<Bytes>>, s: State, k: nat)
    requires Inv(c, parts, s) && s.main == Finished(true) && k < |c.entries|
    ensures Name(c, k) in s.files && s.files[Name(c, k)] == Leaves(c, parts, k)
  {
    var last := LastWriter(c, k);
    FinishedOutstanding(c, parts, s, last);
    if FirstWithHash(c, last, 0) == last {
      assert Tracked(c, s, last);
      NothingOutstanding(c, parts, s, last);
    } else {
      assert !FirstOfHash(c, last);
    }
  }

  /** All successful runs leave the same files, for every schedule and whatever the servers replied. */
  lemma SuccessLeaves(c: Config, parts: seq<seq<Bytes>>, s0: State, es: seq<Event>, s: State, k: nat)
    requires GoodConfig(c, parts) && Init(c, s0) && k < |c.entries|
    requires Exec(c, s0, es) == Some(s) && s.main == Finished(true)
    ensures Name(c, k) in s.files && s.files[Name(c, k)] == Leaves(c, parts, k)
  {
    ReachableInv(c, parts, s0, es, s);
    FinishedFiles(c, parts, s, k);
  }

  /** The record of the last entry with k's name puts its parts where the content has them, that content is
      k's, and no earlier entry has its hash. */
  ghost predicate EntrySound(c: Config, parts: seq<seq<Bytes>>, k: nat)
    requires k < |c.entries| == |parts|
  {
    var last := LastWriter(c, k);
    && FirstOfHash(c, last)
    && Cf(c, last).chunkSize > 0 && Reassembles(Cf(c, last), parts[last], Flatten(parts[last]))
    && Flatten(parts[last]) == Flatten(parts[k])
  }

  ghost predicate ManifestSound(c: Config, parts: seq<seq<Bytes>>)
    requires |parts| == |c.entries|
  {
    forall k :: 0 <= k < |c.entries| ==> EntrySound(c, parts, k)
  }

  /** After a successful download all output files are the published ones, however the publisher's reads cut
      them, if and only if the manifest is sound. */
  lemma SuccessCorrectIff(c: Config, parts: seq<seq<Bytes>>, s0: State, es: seq<Event>, s: State)
    requires GoodConfig(c, parts) && Init(c, s0) && Exec(c, s0, es) == Some(s) && s.main == Finished(true)
    ensures forall k :: 0 <= k < |c.entries| ==> Name(c, k) in s.files
    ensures (forall k :: 0 <= k < |c.entries| ==> s.files[Name(c, k)] == Flatten(parts[k])) <==> ManifestSound(c, parts)
  {
    ReachableInv(c, parts, s0, es, s);
    forall k | 0 <= k < |c.entries|
      ensures Name(c, k) in s.files
      ensures s.files[Name(c, k)] == Flatten(parts[k]) == Flatten(parts[LastWriter(c, k)]) <==> EntrySound(c, parts, k)
    {
      FinishedCorrectIff(c, parts, s, k);
    }
    if forall k :: 0 <= k < |c.entries| ==> s.files[Name(c, k)] == Flatten(parts[k]) {
      AllCorrectSound(c, parts, s);
    }
  }

  lemma AllCorrectSound(c: Config, parts: seq<seq<Bytes>>, s: State)
    requires Inv(c, parts, s) && s.main == Finished(true)
    requires forall k :: 0 <= k < |c.entries| ==> Name(c, k) in s.files && s.files[Name(c, k)] == Flatten(parts[k])
    ensures ManifestSound(c, parts)
  {
    forall k | 0 <= k < |c.entries|
      ensures EntrySound(c, parts, k)
    {
      FinishedCorrectIff(c, parts, s, k);
      assert s.files[Name(c, LastWriter(c, k))] == Flatten(parts[LastWriter(c, k)]);
    }
  }

  lemma FinishedCorrectIff(c: Config, parts: seq<seq<Bytes>>, s: State, k: nat)
    requires Inv(c, parts, s) && s.main == Finished(true) && k < |c.entries|
    ensures Name(c, k) in s.files
    ensures s.files[Name(c, k)] == Flatten(parts[k]) == Flatten(parts[LastWriter(c, k)]) <==> EntrySound(c, parts, k)
  {
    var last := LastWriter(c, k);
    FinishedFiles(c, parts, s, k);
    FinishedAskable(c, parts, s, last);
    ReassemblesIff(Cf(c, last), parts[last], Flatten(parts[last]));
  }

  /** With distinct names and distinct hashes the manifest is sound exactly when every record puts its parts
      where the content has them. */
  lemma DistinctManifestSoundIff(c: Config, parts: seq<seq<Bytes>>)
    requires GoodConfig(c, parts) && forall k :: 0 <= k < |c.entries| ==> Solo(c, k)
    ensures ManifestSound(c, parts) <==>
              forall k :: 0 <= k < |c.entries| ==>
                Cf(c, k).chunkSize > 0 && Reassembles(Cf(c, k), parts[k], Flatten(parts[k]))
  {
    forall k | 0 <= k < |c.entries|
      ensures LastWriter(c, k) == k && FirstOfHash(c, k)
    {
      assert Solo(c, k);
    }
    if ManifestSound(c, parts) {
      forall k | 0 <= k < |c.entries|
        ensures Cf(c, k).chunkSize > 0 && Reassembles(Cf(c, k), parts[k], Flatten(parts[k]))
      {
        assert EntrySound(c, parts, k);
      }
    }
  }

  lemma FinishedOutstanding(c: Config, parts: seq<seq<Bytes>>, s: State, k: nat)
    requires Inv(c, parts, s) && s.main == Finished(true) && k < |c.entries|
    ensures k < |s.handles| && s.outstanding[HashOf(c, k)] == {}
  {
  }

  /** A download can only have succeeded if every record has a range and a hash for every index of its loop. */
  lemma FinishedAskable(c: Config, parts: seq<seq<Bytes>>, s: State, k: nat)
    requires Inv(c, parts, s) && s.main == Finished(true) && k < |c.entries|
    ensures Askable(Cf(c, k)) && LastIndex(Cf(c, k)) < |parts[k]| && Flatten(parts[k]) != []
    ensures Sized(parts[k], Cf(c, k).chunkSize) && Cf(c, k).totalBytes == |Flatten(parts[k])|
  {
    FinishedOutstanding(c, parts, s, k);
    NothingOutstandingAskable(c, parts, s, k);
  }
}
