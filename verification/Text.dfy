/** The string operations of the Rust standard library that the protocol's texts go through. */
module Text {
  import opened Basics

  // ----- searching -----

  predicate OccursAt(s: string, p: string, k: nat) {
    k + |p| <= |s| && s[k..k + |p|] == p
  }

  ghost predicate Contains(s: string, p: string) {
    exists k: nat :: OccursAt(s, p, k)
  }

  /** The first occurrence of p at or after position k. */
  function FindFrom(s: string, p: string, k: nat): (r: Option<nat>)
    ensures r.Some? ==> r.value >= k && OccursAt(s, p, r.value)
                        && forall j: nat :: k <= j < r.value ==> !OccursAt(s, p, j)
    ensures r.None? ==> forall j: nat :: k <= j ==> !OccursAt(s, p, j)
    decreases |s| - k
  {
    if k + |p| > |s| then None
    else if OccursAt(s, p, k) then Some(k)
    else FindFrom(s, p, k + 1)
  }

  function Find(s: string, p: string): (r: Option<nat>)
    ensures r.Some? <==> Contains(s, p)
    ensures r.Some? ==> OccursAt(s, p, r.value) && forall j: nat :: j < r.value ==> !OccursAt(s, p, j)
  {
    FindFrom(s, p, 0)
  }

  /** Removes the prefix p as often as it occurs. */
  function TrimStartMatches(s: string, p: string): string {
    if p != "" && p <= s then TrimStartMatches(s[|p|..], p) else s
  }

  function Repeated(p: string, n: nat): string {
    if n == 0 then "" else p + Repeated(p, n - 1)
  }

  /** However often the prefix is repeated, all of it goes, and nothing else. */
  lemma {:induction false} TrimRepeated(p: string, n: nat, rest: string)
    requires p != "" && !(p <= rest)
    ensures TrimStartMatches(Repeated(p, n) + rest, p) == rest
  {
    if n == 0 {
      assert Repeated(p, n) + rest == rest;
    } else {
      TrimRepeated(p, n - 1, rest);
      TrimOnce(p, Repeated(p, n - 1) + rest);
      assert Repeated(p, n) + rest == p + (Repeated(p, n - 1) + rest);
    }
  }

  lemma TrimOnce(p: string, rest: string)
    requires p != ""
    ensures TrimStartMatches(p + rest, p) == TrimStartMatches(rest, p)
  {
    assert (p + rest)[|p|..] == rest;
  }

  // ----- splitting -----

  function Split(s: string, sep: char): (parts: seq<string>)
    ensures |parts| > 0
  {
    if s == "" then [""]
    else
      var rest := Split(s[1..], sep);
      if s[0] == sep then [""] + rest else [[s[0]] + rest[0]] + rest[1..]
  }

  lemma {:induction false} SplitNone(s: string, sep: char)
    requires sep !in s
    ensures Split(s, sep) == [s]
  {
    if s != "" {
      SplitNone(s[1..], sep);
      assert [s[0]] + s[1..] == s;
    }
  }

  lemma {:induction false} SplitAtFirst(a: string, sep: char, rest: string)
    requires sep !in a
    ensures Split(a + [sep] + rest, sep) == [a] + Split(rest, sep)
  {
    var s := a + [sep] + rest;
    if a == "" {
      assert s[1..] == rest;
    } else {
      assert s[1..] == a[1..] + [sep] + rest;
      SplitAtFirst(a[1..], sep, rest);
      assert [s[0]] + a[1..] == a;
    }
  }

  /** Splitting gives two parts exactly when there is one separator, and the parts are its two sides. */
  lemma {:induction false} SplitInTwo(s: string, sep: char)
    ensures |Split(s, sep)| == 1 ==> Split(s, sep) == [s] && sep !in s
    ensures |Split(s, sep)| == 2 ==>
              && s == Split(s, sep)[0] + [sep] + Split(s, sep)[1]
              && sep !in Split(s, sep)[0] && sep !in Split(s, sep)[1]
  {
    if s != "" {
      SplitInTwo(s[1..], sep);
      assert s == [s[0]] + s[1..];
    }
  }

  // ----- decimal numbers -----

  predicate IsDigit(c: char) {
    '0' <= c <= '9'
  }

  function DigitValue(c: char): nat
    requires IsDigit(c)
  {
    c as int - '0' as int
  }

  function DigitChar(d: nat): char
    requires d < 10
  {
    (d + '0' as int) as char
  }

  predicate AllDigits(s: string) {
    forall i :: 0 <= i < |s| ==> IsDigit(s[i])
  }

  /** Decimal text of n, without leading zeros. */
  function Print(n: nat): (s: string)
    ensures s != "" && AllDigits(s)
  {
    if n < 10 then [DigitChar(n)] else Print(n / 10) + [DigitChar(n % 10)]
  }

  /** Value of the digits s read after a number acc. */
  function ValueFrom(acc: nat, s: string): nat
    requires AllDigits(s)
    decreases s
  {
    if s == "" then acc else ValueFrom(acc * 10 + DigitValue(s[0]), s[1..])
  }

  /** Checked accumulation of digits: stops at a character that is no digit and at a value over 64 bits. */
  function ParseDigits(acc: u64, s: string): Option<u64>
    decreases s
  {
    if s == "" then Some(acc)
    else if !IsDigit(s[0]) then None
    else
      var next := acc * 10 + DigitValue(s[0]);
      if next >= U64_LIMIT then None else ParseDigits(next, s[1..])
  }

  function DropPlus(s: string): string {
    if s != "" && s[0] == '+' then s[1..] else s
  }

  /** `str::parse::<u64>`: digits, with one optional plus sign before them. */
  function ParseU64(s: string): Option<u64> {
    var digits := DropPlus(s);
    if digits == "" then None else ParseDigits(0, digits)
  }

  lemma {:induction false} ValueFromGrows(acc: nat, s: string)
    requires AllDigits(s)
    ensures ValueFrom(acc, s) >= acc
    decreases s
  {
    if s != "" {
      ValueFromGrows(acc * 10 + DigitValue(s[0]), s[1..]);
    }
  }

  lemma {:induction false} ParseDigitsIs(acc: u64, s: string)
    ensures ParseDigits(acc, s) ==
            if AllDigits(s) && ValueFrom(acc, s) < U64_LIMIT then Some(ValueFrom(acc, s)) else None
    decreases s
  {
    if s != "" && IsDigit(s[0]) {
      var next := acc * 10 + DigitValue(s[0]);
      assert AllDigits(s) <==> AllDigits(s[1..]) by {
        assert s == [s[0]] + s[1..];
      }
      if next < U64_LIMIT {
        ParseDigitsIs(next, s[1..]);
      } else if AllDigits(s) {
        ValueFromGrows(next, s[1..]);
      }
    }
  }

  /** The parser accepts exactly the numerals, digits after an optional plus sign, whose value fits 64 bits, and
      returns that value. */
  lemma ParseU64Iff(s: string, v: u64)
    ensures ParseU64(s) == Some(v) <==>
              exists digits :: && (s == digits || s == "+" + digits) && digits != ""
                               && AllDigits(digits) && ValueFrom(0, digits) == v
  {
    ParseDigitsIs(0, DropPlus(s));
    if ParseU64(s) == Some(v) {
      assert s == DropPlus(s) || s == "+" + DropPlus(s);
    }
    if digits :| (s == digits || s == "+" + digits) && digits != "" && AllDigits(digits) && ValueFrom(0, digits) == v {
      assert IsDigit(digits[0]);
      assert DropPlus(s) == digits;
    }
  }

  lemma {:induction false} ValueFromAppend(acc: nat, s: string, c: char)
    requires AllDigits(s) && IsDigit(c)
    ensures ValueFrom(acc, s + [c]) == ValueFrom(acc, s) * 10 + DigitValue(c)
    decreases s
  {
    if s != "" {
      ValueFromAppend(acc * 10 + DigitValue(s[0]), s[1..], c);
      assert (s + [c])[1..] == s[1..] + [c];
    } else {
      assert (s + [c])[1..] == "";
    }
  }

  lemma {:induction false} PrintValue(n: nat)
    ensures ValueFrom(0, Print(n)) == n
  {
    if n >= 10 {
      PrintValue(n / 10);
      ValueFromAppend(0, Print(n / 10), DigitChar(n % 10));
    }
  }

  /** The printed number has one digit only for numbers below ten, and never a leading zero otherwise. */
  lemma {:induction false} PrintCanonical(n: nat)
    ensures |Print(n)| == 1 <==> n < 10
    ensures n > 0 ==> Print(n)[0] != '0'
  {
    if n >= 10 {
      PrintCanonical(n / 10);
    }
  }

  /** A text of digits without a leading zero is the printed form of its value, and of no other number. */
  lemma {:induction false} CanonicalIsPrinted(s: string)
    requires s != "" && AllDigits(s) && (|s| > 1 ==> s[0] != '0')
    ensures Print(ValueFrom(0, s)) == s
    decreases |s|
  {
    var front, last := s[..|s| - 1], s[|s| - 1];
    assert s == front + [last];
    if front == "" {
      assert ValueFrom(0, s) == DigitValue(last);
    } else {
      ValueFromAppend(0, front, last);
      CanonicalIsPrinted(front);
      PositiveValue(front);
    }
  }

  lemma {:induction false} PositiveValue(s: string)
    requires s != "" && AllDigits(s) && s[0] != '0'
    ensures ValueFrom(0, s) > 0
  {
    ValueFromGrows(DigitValue(s[0]), s[1..]);
  }

  /** Printing and parsing: the number comes back exactly when it fits 64 bits. */
  lemma PrintParse(n: nat)
    ensures ParseU64(Print(n)) == if n < U64_LIMIT then Some(n) else None
  {
    PrintValue(n);
    assert DropPlus(Print(n)) == Print(n) by {
      assert IsDigit(Print(n)[0]);
    }
    ParseDigitsIs(0, Print(n));
  }
}
