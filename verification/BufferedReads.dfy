/**
 What a buffered reader of capacity B hands out, over a file whose own reads are full: a request of at
 least B bytes on an empty buffer goes to the file directly; any other is answered from the buffer,
 which is filled only when it is empty.
 */
module BufferedReads {
  import opened Arithmetic
  import opened Basics

  /** The capacity the Rust standard library gives a reader by default. */
  const DEFAULT_CAPACITY: nat := 8192

  /** The bytes answered to a request for n at position pos of a file of `total` bytes. The buffer holds
      the bytes from pos up to edge. */
  function ReadLength(n: nat, capacity: nat, pos: nat, edge: nat, total: nat): nat
    requires pos <= edge <= total
  {
    if pos == edge && n >= capacity then Min(n, total - pos)
    else Min(n, (if pos == edge then Min(pos + capacity, total) else edge) - pos)
  }

  /** Where the buffer ends after that request. */
  function EdgeAfter(n: nat, capacity: nat, pos: nat, edge: nat, total: nat): (r: nat)
    requires pos <= edge <= total
    ensures pos + ReadLength(n, capacity, pos, edge, total) <= r <= total
  {
    if pos == edge && n >= capacity then pos + Min(n, total - pos)
    else if pos == edge then Min(pos + capacity, total)
    else edge
  }

  /** The non-empty answers to repeated requests for size bytes, from position pos on. */
  function ReadsFrom(p: Bytes, capacity: nat, size: nat, pos: nat, edge: nat): seq<Bytes>
    requires capacity > 0 && size > 0 && pos <= edge <= |p|
    decreases |p| - pos
  {
    var length := ReadLength(size, capacity, pos, edge, |p|);
    if length == 0 then []
    else [p[pos..pos + length]] + ReadsFrom(p, capacity, size, pos + length, EdgeAfter(size, capacity, pos, edge, |p|))
  }

  /** The parts a buffered reader cuts a file into. */
  function BufferedParts(p: Bytes, capacity: nat, size: nat): seq<Bytes>
    requires capacity > 0 && size > 0
  {
    ReadsFrom(p, capacity, size, 0, 0)
  }

  /** The chunk sizes and file sizes for which the buffer never cuts a chunk in two. */
  predicate BufferFits(capacity: nat, size: nat, total: nat)
    requires size > 0
  {
    size >= capacity || capacity % size == 0 || total <= capacity
  }

  predicate AllButLastFull(parts: seq<Bytes>, size: nat) {
    forall i :: 0 <= i < |parts| - 1 ==> |parts[i]| == size
  }

  lemma AllButLastFullCons(first: Bytes, rest: seq<Bytes>, size: nat)
    ensures AllButLastFull([first] + rest, size) <==> rest == [] || (|first| == size && AllButLastFull(rest, size))
  {
    var parts := [first] + rest;
    forall i | 0 <= i < |rest| - 1
      ensures rest[i] == parts[i + 1]
    {
    }
    if rest != [] {
      assert parts[0] == first;
    }
  }

  /** A multiple that is left of another by one size is a multiple. */
  lemma ModLess(x: nat, size: nat)
    requires 0 < size <= x
    ensures (x - size) % size == x % size
  {
    DivMod(x, size);
    DivMod(x - size, size);
    MulNext(x / size - 1, size);
    DivUnique(x - size, size, x / size - 1);
  }

  lemma ModSmall(x: nat, size: nat)
    requires x < size
    ensures x % size == x
  {
  }

  /** States of the buffer from which only the end of the file can cut a chunk short. */
  ghost predicate Smooth(total: nat, capacity: nat, size: nat, pos: nat, edge: nat)
    requires size > 0
  {
    || edge == total
    || (pos == edge && (size >= capacity || total - pos <= capacity))
    || (capacity % size == 0 && pos <= edge && (edge - pos) % size == 0)
  }

  lemma SmoothStep(total: nat, capacity: nat, size: nat, pos: nat, edge: nat)
    requires capacity > 0 && size > 0 && pos <= edge <= total && Smooth(total, capacity, size, pos, edge)
    ensures var length := ReadLength(size, capacity, pos, edge, total);
            && Smooth(total, capacity, size, pos + length, EdgeAfter(size, capacity, pos, edge, total))
            && (length == size || pos + length == total)
  {
    if edge != total && capacity % size == 0 && (edge - pos) % size == 0 && pos < edge {
      if edge - pos < size {
        ModSmall(edge - pos, size);
      } else {
        ModLess(edge - pos, size);
      }
    } else if edge != total && pos == edge && size < capacity && capacity % size == 0 {
      ModLess(capacity, size);
    }
  }

  lemma {:induction false} SmoothAnswers(p: Bytes, capacity: nat, size: nat, pos: nat, edge: nat)
    requires capacity > 0 && size > 0 && pos <= edge <= |p| && Smooth(|p|, capacity, size, pos, edge)
    ensures AllButLastFull(ReadsFrom(p, capacity, size, pos, edge), size)
    decreases |p| - pos
  {
    var length := ReadLength(size, capacity, pos, edge, |p|);
    if length != 0 {
      var next := EdgeAfter(size, capacity, pos, edge, |p|);
      SmoothStep(|p|, capacity, size, pos, edge);
      SmoothAnswers(p, capacity, size, pos + length, next);
      AllButLastFullCons(p[pos..pos + length], ReadsFrom(p, capacity, size, pos + length, next), size);
    }
  }

  lemma UnfoldAnswers(p: Bytes, capacity: nat, size: nat, pos: nat, edge: nat, length: nat)
    requires capacity > 0 && size > 0 && pos < edge <= |p|
    requires length == Min(size, edge - pos)
    ensures ReadsFrom(p, capacity, size, pos, edge)
         == [p[pos..pos + length]] + ReadsFrom(p, capacity, size, pos + length, edge)
  {
  }

  lemma AnswersLeft(p: Bytes, capacity: nat, size: nat, pos: nat)
    requires capacity > 0 && size > 0 && pos < |p|
    ensures ReadsFrom(p, capacity, size, pos, pos) != []
  {
    assert ReadLength(size, capacity, pos, pos, |p|) > 0;
  }

  /** Answer i is taken from the buffer as long as it lasts. */
  lemma {:induction false} AnswerAt(p: Bytes, capacity: nat, size: nat, pos: nat, edge: nat, i: nat, lo: nat)
    requires capacity > 0 && size > 0 && pos <= edge <= |p|
    requires lo == pos + i * size < edge
    ensures i < |ReadsFrom(p, capacity, size, pos, edge)|
    ensures ReadsFrom(p, capacity, size, pos, edge)[i] == p[lo..Min(lo + size, edge)]
    decreases i
  {
    MulMonotone(0, i, size);
    UnfoldAnswers(p, capacity, size, pos, edge, Min(size, edge - pos));
    if i > 0 {
      MulMonotone(1, i, size);
      MulNext(i - 1, size);
      AnswerAt(p, capacity, size, pos + size, edge, i - 1, lo);
    }
  }

  /** Where the buffer does not fit, the part of the index in whose chunk its end falls ends there. */
  lemma RoughPart(p: Bytes, capacity: nat, size: nat, j: nat, lo: nat)
    requires capacity > 0 && size > 0 && !BufferFits(capacity, size, |p|)
    requires j == capacity / size && lo == j * size
    ensures lo < capacity < lo + size && capacity < |p|
    ensures j < |BufferedParts(p, capacity, size)| && BufferedParts(p, capacity, size)[j] == p[lo..capacity]
  {
    DivMod(capacity, size);
    assert BufferedParts(p, capacity, size) == ReadsFrom(p, capacity, size, 0, capacity);
    AnswerAt(p, capacity, size, 0, capacity, j, lo);
  }

  /** A buffer that ends inside the file and holds no whole number of chunks cuts one of them short. */
  lemma {:induction false} RoughAnswers(p: Bytes, capacity: nat, size: nat, pos: nat, edge: nat)
    requires capacity > 0 && size > 0 && pos < edge < |p| && (edge - pos) % size != 0
    ensures !AllButLastFull(ReadsFrom(p, capacity, size, pos, edge), size)
    decreases |p| - pos
  {
    var length := Min(size, edge - pos);
    UnfoldAnswers(p, capacity, size, pos, edge, length);
    AllButLastFullCons(p[pos..pos + length], ReadsFrom(p, capacity, size, pos + length, edge), size);
    if edge - pos < size {
      AnswersLeft(p, capacity, size, edge);
    } else {
      ModLess(edge - pos, size);
      ModSmall(0, size);
      RoughAnswers(p, capacity, size, pos + size, edge);
    }
  }

  /** The buffered reader hands out full parts, but for the last, exactly when the buffer fits. */
  lemma BufferedPartsFullIff(p: Bytes, capacity: nat, size: nat)
    requires capacity > 0 && size > 0
    ensures AllButLastFull(BufferedParts(p, capacity, size), size) <==> BufferFits(capacity, size, |p|)
  {
    if BufferFits(capacity, size, |p|) {
      ModSmall(0, size);
      SmoothAnswers(p, capacity, size, 0, 0);
    } else {
      assert BufferedParts(p, capacity, size) == ReadsFrom(p, capacity, size, 0, capacity);
      RoughAnswers(p, capacity, size, 0, capacity);
    }
  }

  lemma {:induction false} FlattenCons(first: Bytes, rest: seq<Bytes>)
    ensures Flatten([first] + rest) == first + Flatten(rest)
  {
    if rest == [] {
      assert ([first] + rest)[..0] == [];
    } else {
      var front, last := rest[..|rest| - 1], rest[|rest| - 1];
      FlattenCons(first, front);
      assert [first] + rest == ([first] + front) + [last];
      FlattenPush([first] + front, last);
      assert (first + Flatten(front)) + last == first + (Flatten(front) + last);
    }
  }

  /** The answers are non-empty and no longer than asked for. */
  lemma {:induction false} AnswersSized(p: Bytes, capacity: nat, size: nat, pos: nat, edge: nat, i: nat)
    requires capacity > 0 && size > 0 && pos <= edge <= |p|
    requires i < |ReadsFrom(p, capacity, size, pos, edge)|
    ensures 0 < |ReadsFrom(p, capacity, size, pos, edge)[i]| <= size
    decreases |p| - pos
  {
    var length := ReadLength(size, capacity, pos, edge, |p|);
    if i > 0 {
      AnswersSized(p, capacity, size, pos + length, EdgeAfter(size, capacity, pos, edge, |p|), i - 1);
    }
  }

  /** The answers make up the rest of the file. */
  lemma {:induction false} AnswersFlatten(p: Bytes, capacity: nat, size: nat, pos: nat, edge: nat)
    requires capacity > 0 && size > 0 && pos <= edge <= |p|
    ensures Flatten(ReadsFrom(p, capacity, size, pos, edge)) == p[pos..]
    decreases |p| - pos
  {
    var length := ReadLength(size, capacity, pos, edge, |p|);
    if length != 0 {
      var next := EdgeAfter(size, capacity, pos, edge, |p|);
      AnswersFlatten(p, capacity, size, pos + length, next);
      FlattenCons(p[pos..pos + length], ReadsFrom(p, capacity, size, pos + length, next));
      assert p[pos..] == p[pos..pos + length] + p[pos + length..];
    }
  }
}
