/**
 The object store over the local file system: multipart reads and writes, and the second chunker.
 A store is given by its disk; listing a directory to find an object is a lookup.
 */
module LocalFileSystem {
  import opened Arithmetic
  import opened Basics
  import opened ChunkFiles
  import opened FileReader

  const READ_CONCURRENCY: nat := 16
  const WRITE_CONCURRENCY: nat := 8

  /** The configured step, or the size divided by the concurrency, or the size where that is zero. */
  function StepSize(chunkSize: Option<u64>, size: nat, concurrency: nat): nat
    requires concurrency > 0
  {
    match chunkSize
    case Some(step) => step
    case None =>
      var s := size / concurrency;
      if s > 0 then s else size
  }

  /** The range bounds `i * step .. min((i + 1) * step, size)` can be computed: there is no division by
      zero, and the largest product fits 64 bits. */
  predicate StepFits(size: nat, step: nat) {
    step > 0 && (size / step + 1) * step < U64_LIMIT
  }

  function PartCount(size: nat, step: nat): nat
    requires step > 0
  {
    DivMod(size, step);
    size / step + 1
  }

  function Part(p: Bytes, step: nat, i: nat): Bytes {
    var start := i * step;
    var end := Min((i + 1) * step, |p|);
    if start <= end then p[start..end] else []
  }

  function Parts(p: Bytes, step: nat): seq<Bytes>
    requires step > 0
  {
    seq(PartCount(|p|, step), i requires 0 <= i => Part(p, step, i))
  }

  function MultipartRead(disk: Disk, location: string, chunkSize: Option<u64>): Outcome<seq<Bytes>> {
    if location !in disk then Err(DataUnavailable)
    else
      var size := |disk[location]|;
      var step := StepSize(chunkSize, size, READ_CONCURRENCY);
      if !StepFits(size, step) then Panic
      else Ok(Parts(disk[location], step))
  }

  class Store {
    var disk: Disk

    constructor (disk: Disk)
      ensures this.disk == disk
    {
      this.disk := disk;
    }

    /** Writes slice after slice; the object appears when the upload is shut down. */
    method MultipartWrite(location: string, bytes: FileBytes, chunkSize: Option<u64>)
      returns (r: Outcome<()>, writes: nat)
      modifies this
      ensures r.Ok? ==>
                var step := StepSize(chunkSize, |bytes|, WRITE_CONCURRENCY);
                step > 0 && writes == |Parts(bytes, step)|
      ensures r.Ok? <==> StepFits(|bytes|, StepSize(chunkSize, |bytes|, WRITE_CONCURRENCY))
      ensures r.Ok? || r.Panic?
      ensures disk == if r.Ok? then old(disk)[location := bytes] else old(disk)
    {
      var size := |bytes|;
      var step := StepSize(chunkSize, size, WRITE_CONCURRENCY);
      if !StepFits(size, step) {
        return Panic, 0;
      }
      var upload;
      upload, writes := Upload(bytes, step);
      disk := disk[location := upload];
      r := Ok(());
    }
  }

  /** The write loop: the slices of each step, one after the other. */
  method Upload(bytes: Bytes, step: nat) returns (upload: Bytes, writes: nat)
    requires step > 0
    ensures upload == bytes && writes == |Parts(bytes, step)|
  {
    upload, writes := [], 0;
    var count := PartCount(|bytes|, step);
    for i := 0 to count
      invariant upload == bytes[..Min(i * step, |bytes|)] && writes == i
    {
      PartBounds(|bytes|, step, i);
      ExtendByPart(bytes, step, i);
      var buf := Part(bytes, step, i);
      upload, writes := upload + buf, writes + 1;
    }
    PartBounds(|bytes|, step, count);
  }

  /** The first part's length is recorded as the chunk size. */
  function StoreChunkFile(h: Hasher, disk: Disk, location: string, chunkSize: Option<u64>): Outcome<ChunkFile> {
    match MultipartRead(disk, location, chunkSize)
    case Err(e) => Err(e)
    case Panic => Panic
    case Ok(parts) =>
      PartsFlatten(disk[location], StepSize(chunkSize, |disk[location]|, READ_CONCURRENCY));
      FlattenLength(parts);
      Ok(ChunkFile(TotalLength(parts), |parts[0]|, HashAll(h, parts)))
  }

  // ----- round trip -----

  /** A part before the count starts inside the data; the count's multiple lies beyond it. */
  lemma PartBounds(size: nat, step: nat, i: nat)
    requires step > 0
    ensures i < PartCount(size, step) <==> i * step <= size
    ensures (i + 1) * step == i * step + step
  {
    DivLargest(size, step, i);
    MulNext(i, step);
  }

  lemma ExtendByPart(p: Bytes, step: nat, i: nat)
    requires i * step <= |p| && (i + 1) * step == i * step + step
    ensures Part(p, step, i) == p[i * step..Min((i + 1) * step, |p|)]
    ensures p[..Min(i * step, |p|)] + Part(p, step, i) == p[..Min((i + 1) * step, |p|)]
  {
  }

  lemma {:induction false} PartsPrefix(p: Bytes, step: nat, k: nat)
    requires step > 0 && k <= PartCount(|p|, step)
    ensures Flatten(Parts(p, step)[..k]) == p[..Min(k * step, |p|)]
  {
    var parts := Parts(p, step);
    if k == 0 {
    } else {
      PartsPrefix(p, step, k - 1);
      PartBounds(|p|, step, k - 1);
      ExtendByPart(p, step, k - 1);
      assert parts[..k] == parts[..k - 1] + [parts[k - 1]];
      FlattenPush(parts[..k - 1], parts[k - 1]);
    }
  }

  lemma PartsFlatten(p: Bytes, step: nat)
    requires step > 0
    ensures Flatten(Parts(p, step)) == p
    ensures |Parts(p, step)| > 0 && |Parts(p, step)[0]| <= |p|
  {
    var parts := Parts(p, step);
    PartsPrefix(p, step, |parts|);
    assert parts[..|parts|] == parts;
    PartBounds(|p|, step, |parts|);
  }

  /** Reading back gives the bytes on the disk, whatever the step, exactly when the step can be used at all. */
  lemma ReadBack(disk: Disk, location: string, chunkSize: Option<u64>)
    requires location in disk
    ensures var step := StepSize(chunkSize, |disk[location]|, READ_CONCURRENCY);
            var r := MultipartRead(disk, location, chunkSize);
            if StepFits(|disk[location]|, step) then r.Ok? && Flatten(r.value) == disk[location] else r.Panic?
  {
    var step := StepSize(chunkSize, |disk[location]|, READ_CONCURRENCY);
    if StepFits(|disk[location]|, step) {
      PartsFlatten(disk[location], step);
    }
  }

  /** Write with one step, read with another: the bytes come back whatever the two steps are, as long as
      both can be used. A step that cannot panics, and a write that panics leaves the store as it was. */
  method WriteThenRead(store: Store, location: string, bytes: FileBytes, writeStep: Option<u64>, readStep: Option<u64>)
    returns (r: Outcome<seq<Bytes>>)
    modifies store
    ensures var w := StepFits(|bytes|, StepSize(writeStep, |bytes|, WRITE_CONCURRENCY));
            && (r.Ok? <==> w && StepFits(|bytes|, StepSize(readStep, |bytes|, READ_CONCURRENCY)))
            && (r.Ok? ==> Flatten(r.value) == bytes)
            && (r.Ok? || r.Panic?)
            && store.disk == if w then old(store.disk)[location := bytes] else old(store.disk)
  {
    var w, writes := store.MultipartWrite(location, bytes, writeStep);
    if !w.Ok? {
      return Panic;
    }
    ReadBack(store.disk, location, readStep);
    r := MultipartRead(store.disk, location, readStep);
  }

  /** The end of part i, before it is cut to the size. */
  predicate BoundFits(step: nat, i: nat) {
    (i + 1) * step < 0x1_0000_0000_0000_0000
  }

  /** A step can be used exactly when it is not zero and every bound that the loop over the parts computes fits 64 bits. */
  lemma StepFitsIff(size: nat, step: nat)
    ensures StepFits(size, step) <==> step > 0 && forall i: nat :: i <= size / step ==> BoundFits(step, i)
  {
    if step > 0 {
      DivMod(size, step);
      if StepFits(size, step) {
        forall i: nat | i <= size / step
          ensures BoundFits(step, i)
        {
          MulMonotone(i + 1, size / step + 1, step);
        }
      } else {
        assert !BoundFits(step, size / step);
      }
    }
  }

  /** Every positive step that leaves room above the size can be used. */
  lemma PositiveStepFits(size: nat, step: nat)
    requires step > 0 && size + step < U64_LIMIT
    ensures StepFits(size, step)
  {
    DivMod(size, step);
    MulNext(size / step, step);
  }

  /** The default step can be used for every size but zero; a slice is never longer than half the address space. */
  lemma DefaultStepFitsIff(size: nat, concurrency: nat)
    requires concurrency > 0 && 2 * size < U64_LIMIT
    ensures StepFits(size, StepSize(None, size, concurrency)) <==> size > 0
  {
    DivMod(size, concurrency);
    var step := StepSize(None, size, concurrency);
    if size > 0 {
      DivLargest(size, concurrency, size / concurrency);
      if size / concurrency > size {
        MulMonotone(size + 1, size / concurrency, concurrency);
        MulMonotone(1, concurrency, size + 1);
      }
      PositiveStepFits(size, step);
    }
  }

  // ----- number of parts -----

  /** With the default step, sizes from k up give between k + 1 and 2k parts; smaller sizes give one
      part and an empty one. */
  lemma PartCountBound(p: Bytes, k: nat)
    requires k > 0 && p != []
    ensures var step := StepSize(None, |p|, k);
            && step > 0
            && (|p| >= k ==> k + 1 <= |Parts(p, step)| <= 2 * k)
            && (|p| < k ==> Parts(p, step) == [p, []])
  {
    if |p| >= k {
      DivLargest(|p|, k, 1);
      QuotientBound(|p|, k, |p| / k);
    } else {
      DivUnique(|p|, k, 0);
      WholeAndEmpty(p);
    }
  }

  /** By default an object of 16 bytes or more is read in 17 to 32 parts, and one of 8 or more written in 9 to 16. */
  lemma DefaultParts(disk: Disk, location: string)
    requires location in disk && disk[location] != []
    ensures MultipartRead(disk, location, None).Ok? ==>
              && (|disk[location]| >= 16 ==> 17 <= |MultipartRead(disk, location, None).value| <= 32)
              && (|disk[location]| < 16 ==> MultipartRead(disk, location, None).value == [disk[location], []])
    ensures var step := StepSize(None, |disk[location]|, WRITE_CONCURRENCY);
            step > 0 && (|disk[location]| >= 8 ==> 9 <= |Parts(disk[location], step)| <= 16)
  {
    PartCountBound(disk[location], READ_CONCURRENCY);
    PartCountBound(disk[location], WRITE_CONCURRENCY);
  }

  /** With a chunk size, the parts are those of the store's own cut: each but the last as long as it says. */
  lemma ExplicitParts(disk: Disk, location: string, step: u64, i: nat)
    requires location in disk && MultipartRead(disk, location, Some(step)).Ok?
    requires i < |MultipartRead(disk, location, Some(step)).value|
    ensures step > 0 && |MultipartRead(disk, location, Some(step)).value| == |disk[location]| / step + 1
    ensures i * step <= |disk[location]|
    ensures MultipartRead(disk, location, Some(step)).value[i]
         == disk[location][i * step..Min(i * step + step, |disk[location]|)]
  {
    PartBounds(|disk[location]|, step, i);
  }

  lemma MissingObject(disk: Disk, location: string, chunkSize: Option<u64>, h: Hasher)
    requires location !in disk
    ensures MultipartRead(disk, location, chunkSize) == Err(DataUnavailable)
    ensures StoreChunkFile(h, disk, location, chunkSize) == Err(DataUnavailable)
  {
  }

  lemma WholeAndEmpty(p: Bytes)
    requires p != []
    ensures Parts(p, |p|) == [p, []]
  {
    DivUnique(|p|, |p|, 1);
    assert PartCount(|p|, |p|) == 2;
    assert Part(p, |p|, 0) == p && Part(p, |p|, 1) == [];
  }

  lemma QuotientBound(n: nat, k: nat, s: nat)
    requires k > 0 && s > 0 && s == n / k
    ensures k <= n / s < 2 * k
  {
    DivMod(n, k);
    assert n == s * k + n % k;
    DivLargest(n, s, k);
    MulMonotone(1, s, k);
    DivLargest(n, s, 2 * k);
    assert 2 * k * s == s * k + s * k;
  }

  // ----- the two chunkers -----

  /** The store cuts the same parts as the publisher, and adds an empty one when the step divides the size. */
  lemma PartsAgainstChunks(p: Bytes, size: nat)
    requires size > 0
    ensures |p| % size != 0 ==> Parts(p, size) == Chunks(p, size)
    ensures |p| % size == 0 ==> |Parts(p, size)| == |Chunks(p, size)| + 1
  {
    CountedIffStartsInside(|p|, size, 0);
    if |p| % size != 0 {
      assert |Parts(p, size)| == |Chunks(p, size)|;
      forall i | 0 <= i < |Parts(p, size)|
        ensures Parts(p, size)[i] == Chunks(p, size)[i]
      {
        PartIsChunk(p, size, i);
      }
    }
  }

  lemma PartIsChunk(p: Bytes, size: nat, i: nat)
    ensures Part(p, size, i) == Chunk(p, size, i)
  {
    MulNext(i, size);
  }

  lemma FirstPart(p: Bytes, size: nat)
    requires size > 0
    ensures |Parts(p, size)| > 0 && |Parts(p, size)[0]| == Min(size, |p|)
  {
    PartBounds(|p|, size, 0);
    assert Parts(p, size)[0] == Part(p, size, 0) == p[0..Min(size, |p|)];
  }

  /** On full reads and the same explicit chunk size, the publisher's chunker and the store's chunker
      give the same record exactly when the chunk size is below the file size and does not divide it. */
  lemma ChunkersAgreeIff(h: Hasher, disk: Disk, location: string, size: u64)
    requires location in disk && size > 0
    requires StepFits(|disk[location]|, size)
    ensures var p := disk[location];
            StoreChunkFile(h, disk, location, Some(size))
              == Ok(ChunkFile(|p|, size, HashAll(h, Chunks(p, size))))
            <==> size < |p| && |p| % size != 0
  {
    var p := disk[location];
    var parts, chunks := Parts(p, size), Chunks(p, size);
    PartsFlatten(p, size);
    FlattenLength(parts);
    FirstPart(p, size);
    PartsAgainstChunks(p, size);
    assert StoreChunkFile(h, disk, location, Some(size))
        == Ok(ChunkFile(|p|, Min(size, |p|), HashAll(h, parts)));
    assert |HashAll(h, parts)| == |parts| && |HashAll(h, chunks)| == |chunks|;
    if size == |p| {
      DivUnique(|p|, size, 1);
      DivMod(|p|, size);
    }
  }
}
