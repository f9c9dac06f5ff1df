/** The range text of a chunk request: `bytes=` first `-` last, as in section 14.1.2 of RFC 9110. */
module RangeHeader {
  import opened Basics
  import opened Text

  const UNIT: string := "bytes="

  function RangeText(start: nat, end: nat): string {
    UNIT + Print(start) + "-" + Print(end)
  }

  /** The characters a header value may hold to be read as a string. */
  predicate VisibleText(s: string) {
    forall i :: 0 <= i < |s| ==> s[i] == '\t' || ' ' <= s[i] <= '~'
  }

  function ParseRangeHeader(header: string): Outcome<(u64, u64)> {
    if !VisibleText(header) then Err(InvalidRange)
    else if !(UNIT <= header) then Err(InvalidRange)
    else
      var ranges := Split(header[|UNIT|..], '-');
      if |ranges| != 2 then Err(InvalidRange)
      else
        match (ParseU64(ranges[0]), ParseU64(ranges[1]))
        case (Some(start), Some(end)) => Ok((start, end))
        case _ => Err(InvalidRange)
  }

  lemma NumeralText(s: string)
    requires ParseU64(s).Some?
    ensures '-' !in s && VisibleText(s)
  {
    ParseU64Iff(s, ParseU64(s).value);
    var digits :| (s == digits || s == "+" + digits) && AllDigits(digits);
    forall i | 0 <= i < |s|
      ensures s[i] == '+' || IsDigit(s[i])
    {
      if s != digits && i > 0 {
        assert s[i] == digits[i - 1];
      }
    }
  }

  lemma VisibleJoin(a: string, b: string)
    requires VisibleText(a) && VisibleText(b)
    ensures VisibleText(a + b)
  {
  }

  lemma HeaderOfNumerals(x: string, y: string)
    requires ParseU64(x).Some? && ParseU64(y).Some?
    ensures ParseRangeHeader(UNIT + x + "-" + y) == Ok((ParseU64(x).value, ParseU64(y).value))
  {
    NumeralText(x);
    NumeralText(y);
    VisibleJoin(UNIT, x);
    VisibleJoin(UNIT + x, "-");
    VisibleJoin(UNIT + x + "-", y);
    var header := UNIT + x + "-" + y;
    assert header[|UNIT|..] == x + ['-'] + y;
    SplitAtFirst(x, '-', y);
    SplitNone(y, '-');
  }

  /** The server accepts exactly the texts of two numerals, and reads their values. */
  lemma ParseRangeIff(header: string, start: u64, end: u64)
    ensures ParseRangeHeader(header) == Ok((start, end)) <==>
              exists x, y :: header == UNIT + x + "-" + y && ParseU64(x) == Some(start) && ParseU64(y) == Some(end)
  {
    if ParseRangeHeader(header) == Ok((start, end)) {
      var ranges := Split(header[|UNIT|..], '-');
      SplitInTwo(header[|UNIT|..], '-');
      assert header == UNIT + ranges[0] + "-" + ranges[1];
    }
    if x, y :| header == UNIT + x + "-" + y && ParseU64(x) == Some(start) && ParseU64(y) == Some(end) {
      HeaderOfNumerals(x, y);
    }
  }

  /** What is not such a text is refused. */
  lemma ParseRangeRefuses(header: string)
    ensures ParseRangeHeader(header).Ok? || ParseRangeHeader(header) == Err(InvalidRange)
    ensures !("bytes=" <= header) ==> ParseRangeHeader(header) == Err(InvalidRange)
  {
  }

  /** Every text the client prints is read back as the pair it was printed from; numbers over 64 bits are refused. */
  lemma RangeRoundTrip(start: nat, end: nat)
    ensures ParseRangeHeader(RangeText(start, end)) ==
            if start < U64_LIMIT && end < U64_LIMIT then Ok((start, end)) else Err(InvalidRange)
  {
    PrintParse(start);
    PrintParse(end);
    if start < U64_LIMIT && end < U64_LIMIT {
      HeaderOfNumerals(Print(start), Print(end));
    } else {
      var rest := RangeText(start, end)[|UNIT|..];
      assert rest == Print(start) + ['-'] + Print(end);
      SplitAtFirst(Print(start), '-', Print(end));
      SplitNone(Print(end), '-');
    }
  }
}
