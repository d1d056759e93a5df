/**
 * Temporal ids (src/contracts/temporal.ts): event ids travel as decimal text and are compared as
 * unbounded integers.
 */
module TemporalIds {
  import opened Wrappers

  datatype Input = BigInt(value: int) | Text(text: string)

  // ---- decimal text

  predicate IsDigit(c: char) {
    '0' <= c <= '9'
  }

  predicate AllDigits(s: string) {
    forall i :: 0 <= i < |s| ==> IsDigit(s[i])
  }

  function DigitValue(c: char): (r: nat)
    requires IsDigit(c)
    ensures r < 10
  {
    c as int - '0' as int
  }

  function DigitChar(d: nat): (c: char)
    requires d < 10
    ensures IsDigit(c) && DigitValue(c) == d
  {
    ('0' as int + d) as char
  }

  function Parse(s: string): nat
    requires AllDigits(s)
  {
    if s == "" then 0 else 10 * Parse(s[..|s| - 1]) + DigitValue(s[|s| - 1])
  }

  function Print(n: nat): (s: string)
    ensures s != "" && AllDigits(s)
  {
    if n < 10 then [DigitChar(n)] else Print(n / 10) + [DigitChar(n % 10)]
  }

  lemma {:induction false} ParsePrint(n: nat)
    ensures Parse(Print(n)) == n
  {
    if n >= 10 {
      ParsePrint(n / 10);
      assert Print(n)[..|Print(n)| - 1] == Print(n / 10);
    } else {
      assert Print(n)[..0] == "";
    }
  }

  /** Text without a leading zero is exactly what printing gives. */
  lemma {:induction false} PrintParse(s: string)
    requires AllDigits(s) && s != "" && (s[0] != '0' || |s| == 1)
    ensures Print(Parse(s)) == s
    decreases |s|
  {
    var rest, d := s[..|s| - 1], DigitValue(s[|s| - 1]);
    if rest == "" {
      assert Parse(s) == d;
      SameDigit(s[0]);
      assert s == [DigitChar(d)];
    } else {
      assert rest[0] == s[0];
      PrintParse(rest);
      PositiveValue(rest);
      LastDigit(Parse(rest), d);
      assert Parse(s) == 10 * Parse(rest) + d;
      assert s == rest + [DigitChar(d)];
    }
  }

  lemma SameDigit(c: char)
    requires IsDigit(c)
    ensures DigitChar(DigitValue(c)) == c
  {
  }

  lemma LastDigit(n: nat, d: nat)
    requires d < 10 && n > 0
    ensures 10 * n + d >= 10 && (10 * n + d) / 10 == n && (10 * n + d) % 10 == d
  {
  }

  lemma {:induction false} PositiveValue(s: string)
    requires AllDigits(s) && s != "" && s[0] != '0'
    ensures Parse(s) > 0
    decreases |s|
  {
    if |s| > 1 {
      assert s[..|s| - 1][0] == s[0];
      PositiveValue(s[..|s| - 1]);
    } else {
      assert s[..0] == "" && DigitValue(s[0]) > 0;
    }
  }

  // ---- normalising and comparing

  predicate IsSpace(c: char) {
    c == ' ' || '\t' <= c <= '\r' || c == '\U{00A0}' || c == '\U{1680}' || '\U{2000}' <= c <= '\U{200A}'
    || c == '\U{2028}' || c == '\U{2029}' || c == '\U{202F}' || c == '\U{205F}' || c == '\U{3000}' || c == '\U{FEFF}'
  }

  function Trim(s: string): (r: string)
    ensures r != "" ==> !IsSpace(r[0]) && !IsSpace(r[|r| - 1])
  {
    if s != "" && IsSpace(s[0]) then Trim(s[1..])
    else if s != "" && IsSpace(s[|s| - 1]) then Trim(s[..|s| - 1])
    else s
  }

  /** White space: the characters with these codes. */
  lemma SpaceCodes(c: char)
    ensures IsSpace(c) <==> c as int in {
      0x9, 0xA, 0xB, 0xC, 0xD, 0x20, 0xA0, 0x1680, 0x2000, 0x2001, 0x2002, 0x2003, 0x2004, 0x2005, 0x2006, 0x2007,
      0x2008, 0x2009, 0x200A, 0x2028, 0x2029, 0x202F, 0x205F, 0x3000, 0xFEFF }
  {
  }

  predicate AllSpace(s: string) {
    forall i :: 0 <= i < |s| ==> IsSpace(s[i])
  }

  /** Trimming takes away the white space at both ends and nothing else. */
  lemma {:induction false} TrimMeaning(s: string) returns (i: nat, j: nat)
    ensures i <= j <= |s| && Trim(s) == s[i..j] && AllSpace(s[..i]) && AllSpace(s[j..])
    ensures Trim(s) != "" ==> !IsSpace(Trim(s)[0]) && !IsSpace(Trim(s)[|Trim(s)| - 1])
    decreases |s|
  {
    if s != "" && IsSpace(s[0]) {
      i, j := TrimMeaning(s[1..]);
      SpaceBefore(s, i, j);
      i, j := i + 1, j + 1;
    } else if s != "" && IsSpace(s[|s| - 1]) {
      i, j := TrimMeaning(s[..|s| - 1]);
      SpaceAfter(s, i, j);
    } else {
      i, j := 0, |s|;
    }
  }

  lemma SpaceBefore(s: string, i: nat, j: nat)
    requires s != "" && IsSpace(s[0]) && i <= j < |s| && AllSpace(s[1..][..i]) && AllSpace(s[1..][j..])
    ensures s[i + 1..j + 1] == s[1..][i..j] && AllSpace(s[..i + 1]) && AllSpace(s[j + 1..])
  {
    assert s[..i + 1] == [s[0]] + s[1..][..i];
    assert s[j + 1..] == s[1..][j..];
    assert forall k :: i + 1 <= k < j + 1 ==> s[k] == s[1..][k - 1];
    assert s[i + 1..j + 1] == s[1..][i..j];
  }

  lemma SpaceAfter(s: string, i: nat, j: nat)
    requires s != "" && IsSpace(s[|s| - 1]) && i <= j < |s|
    requires AllSpace(s[..|s| - 1][..i]) && AllSpace(s[..|s| - 1][j..])
    ensures s[i..j] == s[..|s| - 1][i..j] && AllSpace(s[..i]) && AllSpace(s[j..])
  {
    assert s[..i] == s[..|s| - 1][..i];
    assert s[j..] == s[..|s| - 1][j..] + [s[|s| - 1]];
  }

  function NormalizeTemporalId(value: Input): (r: Result<string>)
    ensures r.Ok? ==> r.value != "" && AllDigits(r.value)
  {
    match value
    case BigInt(n) => if n < 0 then Err("Temporal ids must be non-negative") else Ok(Print(n))
    case Text(text) =>
      var trimmed := Trim(text);
      if trimmed == "" || !AllDigits(trimmed) then Err("Temporal ids must be decimal strings")
      else Ok(Print(Parse(trimmed)))
  }

  function CompareTemporalIds(left: Input, right: Input): Result<int> {
    match (NormalizeTemporalId(left), NormalizeTemporalId(right))
    case (Err(m), _) => Err(m)
    case (_, Err(m)) => Err(m)
    case (Ok(l), Ok(r)) =>
      Ok(if Parse(l) < Parse(r) then -1 else if Parse(l) > Parse(r) then 1 else 0)
  }

  /** The integer an input stands for. */
  function Value(value: Input): Result<nat> {
    match value
    case BigInt(n) => if n < 0 then Err("Temporal ids must be non-negative") else Ok(n)
    case Text(text) =>
      if Trim(text) == "" || !AllDigits(Trim(text)) then Err("Temporal ids must be decimal strings")
      else Ok(Parse(Trim(text)))
  }

  lemma DigitsAreTrimmed(s: string)
    requires AllDigits(s)
    ensures Trim(s) == s
  {
  }

  /** Normal forms are canonical: normalising again changes nothing, and one integer has one normal form. */
  lemma NormalFormIsCanonical(a: Input, b: Input)
    requires NormalizeTemporalId(a).Ok? && NormalizeTemporalId(b).Ok?
    ensures NormalizeTemporalId(Text(NormalizeTemporalId(a).value)) == NormalizeTemporalId(a)
    ensures NormalizeTemporalId(a) == NormalizeTemporalId(b) <==> Value(a) == Value(b)
  {
    var n, m := Value(a).value, Value(b).value;
    ParsePrint(n);
    ParsePrint(m);
    DigitsAreTrimmed(Print(n));
  }

  /** Already canonical text is left alone, surrounding space or not. */
  lemma CanonicalTextKept(s: string)
    requires AllDigits(s) && s != "" && (s[0] != '0' || |s| == 1)
    ensures NormalizeTemporalId(Text(s)) == Ok(s)
  {
    DigitsAreTrimmed(s);
    PrintParse(s);
  }

  /** Comparing ids is comparing the integers they stand for, and fails only where one stands for none. */
  lemma ComparisonIsNumeric(a: Input, b: Input)
    ensures CompareTemporalIds(a, b).Ok? <==> Value(a).Ok? && Value(b).Ok?
    ensures CompareTemporalIds(a, b).Ok? ==>
      CompareTemporalIds(a, b).value ==
        if Value(a).value < Value(b).value then -1 else if Value(a).value == Value(b).value then 0 else 1
  {
    if Value(a).Ok? && Value(b).Ok? {
      ParsePrint(Value(a).value);
      ParsePrint(Value(b).value);
    }
  }
}
