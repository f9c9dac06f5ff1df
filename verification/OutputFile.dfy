/** A file being written at positions: seeking past the end and writing fills the gap with zeros. */
module OutputFile {
  import opened Basics
  import opened ChunkFiles

  function Zeros(n: nat): Bytes {
    seq(n, i => 0)
  }

  function WriteAt(f: Bytes, pos: nat, data: Bytes): (g: Bytes)
    ensures data != [] ==> |g| == Max(|f|, pos + |data|)
  {
    if data == [] then f
    else
      (if pos <= |f| then f[..pos] else f + Zeros(pos - |f|))
      + data
      + (if pos + |data| <= |f| then f[pos + |data|..] else [])
  }

  lemma WriteAtBytes(f: Bytes, pos: nat, data: Bytes, b: nat)
    requires data != [] && b < |WriteAt(f, pos, data)|
    ensures WriteAt(f, pos, data)[b] ==
            if pos <= b < pos + |data| then data[b - pos] else if b < |f| then f[b] else 0
  {
  }

  /** What f has of p in place, g has too. */
  ghost predicate Keeps(f: Bytes, g: Bytes, p: Bytes) {
    forall lo: nat, hi: nat :: Agrees(f, p, lo, hi) ==> Agrees(g, p, lo, hi)
  }

  /** f is no longer than p, and holds bytes of p or zeros. */
  ghost predicate PartOf(f: Bytes, p: Bytes) {
    |f| <= |p| && forall b: nat :: b < |f| ==> f[b] == p[b] || f[b] == 0
  }

  /** Writing bytes of p at their own position keeps what was in place and puts them in place. */
  lemma WriteInPlace(f: Bytes, p: Bytes, pos: nat, data: Bytes)
    requires PartOf(f, p) && pos + |data| <= |p| && data != []
    requires data == p[pos..pos + |data|]
    ensures PartOf(WriteAt(f, pos, data), p)
    ensures Agrees(WriteAt(f, pos, data), p, pos, pos + |data|)
    ensures Keeps(f, WriteAt(f, pos, data), p)
  {
    var g := WriteAt(f, pos, data);
    assert g[pos..pos + |data|] == data;
    forall b: nat | b < |g|
      ensures g[b] == p[b] || g[b] == 0
    {
      WriteAtBytes(f, pos, data, b);
    }
    forall lo: nat, hi: nat | Agrees(f, p, lo, hi)
      ensures Agrees(g, p, lo, hi)
    {
      forall b | lo <= b < hi
        ensures g[b] == p[b]
      {
        AgreesAt(f, p, lo, hi, b);
        WriteAtBytes(f, pos, data, b);
      }
    }
  }

  lemma AgreesJoin(f: Bytes, p: Bytes, lo: nat, mid: nat, hi: nat)
    requires Agrees(f, p, lo, mid) && Agrees(f, p, mid, hi)
    ensures Agrees(f, p, lo, hi)
  {
    assert f[lo..hi] == f[lo..mid] + f[mid..hi];
    assert p[lo..hi] == p[lo..mid] + p[mid..hi];
  }
}
