/**
 What a file becomes when the parts it was published in are written at the positions of the chunks
 their hashes stand for: the content again, or not.
 */
module Assembly {
  import opened Arithmetic
  import opened Basics
  import opened ChunkFiles
  import opened OutputFile

  /** The first n parts, each written at the position of its index. */
  function Assembled(parts: seq<Bytes>, size: nat, n: nat): Bytes
    requires n <= |parts|
  {
    if n == 0 then [] else WriteAt(Assembled(parts, size, n - 1), (n - 1) * size, parts[n - 1])
  }

  /** What the indices of a record make of its parts. */
  function Whole(cf: ChunkFile, parts: seq<Bytes>): Bytes
    requires cf.chunkSize > 0
  {
    Assembled(parts, cf.chunkSize, Min(LastIndex(cf) + 1, |parts|))
  }

  lemma {:induction false} AssembledLength(parts: seq<Bytes>, size: nat, n: nat)
    requires Sized(parts, size) && n <= |parts|
    ensures |Assembled(parts, size, n)| == if n == 0 then 0 else (n - 1) * size + |parts[n - 1]|
  {
    if n > 1 {
      AssembledLength(parts, size, n - 1);
      MulNext(n - 2, size);
    }
  }

  /** Part i is in place, and up to the next part there are zeros. */
  lemma {:induction false} AssembledByte(parts: seq<Bytes>, size: nat, n: nat, i: nat, b: nat)
    requires Sized(parts, size) && i < n <= |parts|
    requires i * size <= b < i * size + size && b < |Assembled(parts, size, n)|
    ensures Assembled(parts, size, n)[b] == if b - i * size < |parts[i]| then parts[i][b - i * size] else 0
  {
    var front := Assembled(parts, size, n - 1);
    AssembledLength(parts, size, n - 1);
    WriteAtBytes(front, (n - 1) * size, parts[n - 1], b);
    if i < n - 1 {
      MulMonotone(i + 1, n - 1, size);
      MulNext(i, size);
      if b < |front| {
        AssembledByte(parts, size, n - 1, i, b);
      } else {
        AssembledEnd(parts, size, n - 1, i, b);
      }
    } else {
      assert b >= |front|;
    }
  }

  /** Past the end of what is assembled there is no byte of a part. */
  lemma AssembledEnd(parts: seq<Bytes>, size: nat, n: nat, i: nat, b: nat)
    requires Sized(parts, size) && i < n <= |parts| && i * size <= b
    requires b >= |Assembled(parts, size, n)|
    ensures b - i * size >= |parts[i]|
  {
    AssembledLength(parts, size, n);
    if i < n - 1 {
      MulMonotone(i + 1, n - 1, size);
      MulNext(i, size);
    }
  }

  lemma AssembledPart(parts: seq<Bytes>, size: nat, n: nat, i: nat, lo: nat)
    requires Sized(parts, size) && i < n <= |parts| && lo == i * size
    ensures lo + |parts[i]| <= |Assembled(parts, size, n)|
    ensures Assembled(parts, size, n)[lo..lo + |parts[i]|] == parts[i]
  {
    var all := Assembled(parts, size, n);
    if lo + |parts[i]| > |all| {
      AssembledEnd(parts, size, n, i, lo + |parts[i]| - 1);
    }
    forall x | 0 <= x < |parts[i]|
      ensures all[lo..lo + |parts[i]|][x] == parts[i][x]
    {
      AssembledByte(parts, size, n, i, lo + x);
    }
  }

  /** f holds part i where the whole does. */
  predicate PartInPlace(f: Bytes, whole: Bytes, parts: seq<Bytes>, size: nat, i: nat) {
    i < |parts| && Agrees(f, whole, i * size, i * size + |parts[i]|)
  }

  /** A file that holds every part of the loop's indices in place, and nothing else but zeros, is the whole. */
  lemma AllPartsMakeTheWhole(cf: ChunkFile, parts: seq<Bytes>, f: Bytes)
    requires cf.chunkSize > 0 && Sized(parts, cf.chunkSize) && LastIndex(cf) < |parts| && PartOf(f, Whole(cf, parts))
    requires forall i: nat :: i <= LastIndex(cf) ==> PartInPlace(f, Whole(cf, parts), parts, cf.chunkSize, i)
    ensures f == Whole(cf, parts)
  {
    var size, last, all := cf.chunkSize, LastIndex(cf), Whole(cf, parts);
    AssembledLength(parts, size, last + 1);
    assert PartInPlace(f, all, parts, size, last);
    forall b: nat | b < |all|
      ensures f[b] == all[b]
    {
      var i, lo := ChunkOf(b, size);
      WholeByte(parts, size, last, f, i, lo, b);
    }
  }

  lemma WholeByte(parts: seq<Bytes>, size: nat, last: nat, f: Bytes, i: nat, lo: nat, b: nat)
    requires size > 0 && Sized(parts, size) && last < |parts| && PartOf(f, Assembled(parts, size, last + 1))
    requires lo == i * size && lo <= b < lo + size && b < |Assembled(parts, size, last + 1)| == |f|
    requires i <= last ==> PartInPlace(f, Assembled(parts, size, last + 1), parts, size, i)
    ensures f[b] == Assembled(parts, size, last + 1)[b]
  {
    AssembledLength(parts, size, last + 1);
    if i > last {
      MulMonotone(last + 1, i, size);
      MulNext(last, size);
    }
    AssembledByte(parts, size, last + 1, i, b);
    if b < lo + |parts[i]| {
      AgreesAt(f, Assembled(parts, size, last + 1), lo, lo + |parts[i]|, b);
    }
  }

  // ----- when the parts make up the content -----

  /** The chunk is the part, with zeros after it. */
  predicate Padded(part: Bytes, chunk: Bytes) {
    |part| <= |chunk| && chunk == part + Zeros(|chunk| - |part|)
  }

  /** Each chunk the indices stand for is the part, but for zeros the part lacks at its end; the last is the part. */
  predicate Reassembles(cf: ChunkFile, parts: seq<Bytes>, p: Bytes)
    requires cf.chunkSize > 0
  {
    var last := LastIndex(cf);
    && last < |parts|
    && parts[last] == Chunk(p, cf.chunkSize, last)
    && AllPadded(parts, p, cf.chunkSize, last)
  }

  predicate AllPadded(parts: seq<Bytes>, p: Bytes, size: nat, n: nat) {
    n <= |parts| && forall i :: 0 <= i < n ==> Padded(parts[i], Chunk(p, size, i))
  }

  lemma FullChunk(p: Bytes, size: nat, i: nat, n: nat)
    requires size > 0 && n == |p| / size && i < n
    ensures i * size + size <= |p| && Chunk(p, size, i) == p[i * size..i * size + size]
  {
    LastIndexBounds(|p|, size, i);
  }

  /** A byte of the assembled parts is that of the padded chunk. */
  lemma PaddedByte(parts: seq<Bytes>, p: Bytes, size: nat, last: nat, i: nat, lo: nat, x: nat)
    requires size > 0 && Sized(parts, size) && i < last < |parts| && last == |p| / size
    requires lo == i * size && x < size
    ensures lo + x < |p| && lo + x < |Assembled(parts, size, last + 1)|
    ensures Padded(parts[i], Chunk(p, size, i)) ==> Assembled(parts, size, last + 1)[lo + x] == p[lo + x]
    ensures x >= |parts[i]| ==> Assembled(parts, size, last + 1)[lo + x] == 0
  {
    FullChunk(p, size, i, last);
    AssembledLength(parts, size, last + 1);
    MulMonotone(i + 1, last, size);
    MulNext(i, size);
    AssembledByte(parts, size, last + 1, i, lo + x);
    if Padded(parts[i], Chunk(p, size, i)) {
      assert Chunk(p, size, i)[x] == p[lo + x];
    }
  }

  lemma ChunkAgrees(a: Bytes, p: Bytes, parts: seq<Bytes>, size: nat, last: nat, i: nat)
    requires size > 0 && Sized(parts, size) && i < last < |parts| && last == |p| / size
    requires a == Assembled(parts, size, last + 1) == p
    ensures Padded(parts[i], Chunk(p, size, i))
  {
    FullChunk(p, size, i, last);
    AssembledPart(parts, size, last + 1, i, i * size);
    var chunk := Chunk(p, size, i);
    forall x: nat | x < size
      ensures chunk[x] == (parts[i] + Zeros(size - |parts[i]|))[x]
    {
      PaddedByte(parts, p, size, last, i, i * size, x);
      if x < |parts[i]| {
        assert a[i * size..i * size + |parts[i]|][x] == parts[i][x];
      }
    }
  }

  lemma LastChunk(p: Bytes, size: nat, last: nat)
    requires size > 0 && last == |p| / size
    ensures last * size <= |p| < last * size + size && Chunk(p, size, last) == p[last * size..]
  {
    LastIndexBounds(|p|, size, last);
  }

  /** The parts written by index are the content exactly when every chunk is its part, padded with zeros. */
  lemma ReassemblesIff(cf: ChunkFile, parts: seq<Bytes>, p: Bytes)
    requires cf.chunkSize > 0 && Sized(parts, cf.chunkSize) && cf.totalBytes == |p| && LastIndex(cf) < |parts|
    ensures Whole(cf, parts) == p <==> Reassembles(cf, parts, p)
  {
    var size, last := cf.chunkSize, LastIndex(cf);
    var a := Whole(cf, parts);
    LastChunk(p, size, last);
    AssembledLength(parts, size, last + 1);
    AssembledPart(parts, size, last + 1, last, last * size);
    if a == p {
      forall i | 0 <= i < last
        ensures Padded(parts[i], Chunk(p, size, i))
      {
        ChunkAgrees(a, p, parts, size, last, i);
      }
    } else if Reassembles(cf, parts, p) {
      ReassembledBytes(parts, p, size, last, a);
    }
  }

  /** A file cut into whole chunks is put together again unless its size is a multiple of the chunk size. */
  lemma ChunksReassembleIff(cf: ChunkFile, p: Bytes)
    requires cf.chunkSize > 0 && cf.totalBytes == |p|
    ensures Reassembles(cf, Chunks(p, cf.chunkSize), p) <==> |p| % cf.chunkSize != 0
  {
    CountedIffStartsInside(|p|, cf.chunkSize, LastIndex(cf));
  }

  lemma ReassembledBytes(parts: seq<Bytes>, p: Bytes, size: nat, last: nat, a: Bytes)
    requires size > 0 && Sized(parts, size) && last == |p| / size && last < |parts|
    requires a == Assembled(parts, size, last + 1) && parts[last] == Chunk(p, size, last)
    requires AllPadded(parts, p, size, last)
    ensures a == p
  {
    LastChunk(p, size, last);
    AssembledLength(parts, size, last + 1);
    forall b: nat | b < |p|
      ensures a[b] == p[b]
    {
      var i, lo := ChunkOf(b, size);
      ReassembledByte(parts, p, size, last, i, lo, b);
    }
  }

  lemma ChunkOf(b: nat, size: nat) returns (i: nat, lo: nat)
    requires size > 0
    ensures lo == i * size && lo <= b < lo + size
  {
    DivMod(b, size);
    i, lo := b / size, (b / size) * size;
  }

  lemma ReassembledByte(parts: seq<Bytes>, p: Bytes, size: nat, last: nat, i: nat, lo: nat, b: nat)
    requires size > 0 && Sized(parts, size) && last == |p| / size && last < |parts|
    requires parts[last] == Chunk(p, size, last)
    requires AllPadded(parts, p, size, last)
    requires lo == i * size && lo <= b < lo + size && b < |p| == |Assembled(parts, size, last + 1)|
    ensures Assembled(parts, size, last + 1)[b] == p[b]
  {
    LastChunk(p, size, last);
    DivLargest(|p|, size, i);
    if i < last {
      PaddedByte(parts, p, size, last, i, lo, b - lo);
    } else {
      AssembledByte(parts, size, last + 1, last, b);
      assert p[lo..][b - lo] == p[b];
    }
  }
}
