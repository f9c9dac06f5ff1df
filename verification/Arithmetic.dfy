/** The facts about multiplication, quotient and remainder that the chunk arithmetic rests on. */
module Arithmetic {

  lemma MulMonotone(i: int, j: int, c: int)
    requires i <= j && 0 <= c
    ensures i * c <= j * c
  {
  }

  lemma MulNext(i: int, c: int)
    ensures (i + 1) * c == i * c + c
  {
  }

  lemma DivMod(n: int, c: int)
    requires 0 <= n && 0 < c
    ensures n == (n / c) * c + n % c
    ensures 0 <= n % c < c
    ensures 0 <= n / c
  {
  }

  /** The quotient is the largest multiplier that stays at or below n. */
  lemma DivLargest(n: int, c: int, i: int)
    requires 0 <= n && 0 < c
    ensures i <= n / c <==> i * c <= n
  {
    DivMod(n, c);
    if i <= n / c {
      MulMonotone(i, n / c, c);
    } else {
      MulMonotone(n / c + 1, i, c);
      MulNext(n / c, c);
    }
  }

  /** A quotient is characterised by the half-open interval its multiple starts. */
  lemma DivUnique(b: int, c: int, i: int)
    requires 0 <= b && 0 < c
    ensures i == b / c <==> i * c <= b < i * c + c
  {
    DivLargest(b, c, i);
    DivLargest(b, c, i + 1);
    MulNext(i, c);
  }
}
