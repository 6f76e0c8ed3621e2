// Marks as decimal text and as centi-units: parsing, canonical printing, and the timing
// conversions that go through them.
module Marks {
  import opened Basics
  import opened Text

  const MARK_LIMIT: nat := 0x100_0000_0000

  datatype MarkError = EmptyMark | TooManyDecimals | NotDecimal | OutOfRange | NotPositive

  // Reads digits onto acc, refusing the first non-digit or the first overflow.
  function Accumulate(acc: nat, s: string): Result<nat, MarkError>
    decreases |s|
  {
    if s == "" then Ok(acc)
    else if !IsDigit(s[0]) then Err(NotDecimal)
    else
      var next := acc * 10 + DigitValue(s[0]);
      if next > MARK_LIMIT then Err(OutOfRange) else Accumulate(next, s[1..])
  }

  // The digits a trimmed mark stands for, its fraction padded to two places.
  function CentiDigits(s: string): Result<string, MarkError> {
    if s == "" then Err(EmptyMark) else
    var dot := IndexOf(s, '.');
    if dot == |s| then Ok(s + "00") else
    var frac := s[dot + 1..];
    if |frac| == 0 || |frac| > 2 then Err(TooManyDecimals)
    else Ok(s[..dot] + frac + (if |frac| == 1 then "0" else ""))
  }

  // The centi-units a mark denotes; comma and point both separate decimals.
  function CentiMark(mark: string): Result<nat, MarkError> {
    var digits := CentiDigits(Replace(TrimSpace(mark), ',', '.'));
    if digits.Err? then Err(digits.error) else Accumulate(0, digits.value)
  }

  method ParseCentiMark(mark: string) returns (r: Result<nat, MarkError>)
    ensures r == CentiMark(mark)
  {
    var s := Replace(TrimSpace(mark), ',', '.');
    if s == "" {
      return Err(EmptyMark);
    }
    var dot := IndexOf(s, '.');
    var whole, frac := s[..dot], if dot < |s| then s[dot + 1..] else "";
    if dot < |s| && (|frac| == 0 || |frac| > 2) {
      return Err(TooManyDecimals);
    }
    ghost var typed := frac;
    while |frac| < 2
      invariant |typed| <= |frac| <= 2
      invariant frac == typed + "00"[..|frac| - |typed|]
    {
      frac := frac + "0";
    }
    PaddedDigits(s, dot, typed);
    r := ReadDigits(whole + frac);
  }

  lemma PaddedDigits(s: string, dot: nat, typed: string)
    requires s != "" && dot == IndexOf(s, '.') && typed == if dot < |s| then s[dot + 1..] else ""
    requires dot < |s| ==> 1 <= |typed| <= 2
    ensures CentiDigits(s) == Ok(s[..dot] + (typed + "00"[..2 - |typed|]))
  {
    var pad := "00"[..2 - |typed|];
    assert s[..dot] + typed + pad == s[..dot] + (typed + pad);
    if dot == |s| {
      assert s[..dot] == s && typed + pad == "00";
    } else {
      assert pad == if |typed| == 1 then "0" else "";
    }
  }

  method ReadDigits(digits: string) returns (r: Result<nat, MarkError>)
    ensures r == Accumulate(0, digits)
  {
    var out: nat, i := 0, 0;
    while i < |digits|
      invariant 0 <= i <= |digits|
      invariant Accumulate(0, digits) == Accumulate(out, digits[i..])
    {
      if !IsDigit(digits[i]) {
        return Err(NotDecimal);
      }
      out := out * 10 + DigitValue(digits[i]);
      if out > MARK_LIMIT {
        return Err(OutOfRange);
      }
      assert digits[i..][1..] == digits[i + 1..];
      i := i + 1;
    }
    return Ok(out);
  }

  function TwoDigits(n: nat): (s: string)
    requires n < 100
    ensures |s| == 2 && IsDigit(s[0]) && IsDigit(s[1])
  {
    [DigitChar(n / 10), DigitChar(n % 10)]
  }

  // Two decimals: distances and electronic times.
  function FormatCentiMark(centi: nat): (s: string)
    ensures s != ""
  {
    Decimal(centi / 100) + "." + TwoDigits(centi % 100)
  }

  // One decimal: hand times.
  function FormatTenths(centi: nat): string {
    Decimal(centi / 100) + "." + [DigitChar(centi % 100 / 10)]
  }

  // --- Print and parse are inverse ---

  lemma {:induction false} AccumulateDecimal(n: nat, rest: string)
    requires n <= MARK_LIMIT
    ensures Accumulate(0, Decimal(n) + rest) == Accumulate(n, rest)
  {
    var d := [DigitChar(n % 10)];
    if n < 10 {
      assert Decimal(n) + rest == d + rest && (d + rest)[1..] == rest;
    } else {
      AccumulateDecimal(n / 10, d + rest);
      assert Decimal(n) + rest == Decimal(n / 10) + (d + rest);
      assert (d + rest)[1..] == rest;
    }
  }

  lemma {:induction false} AccumulateBounded(acc: nat, s: string)
    requires acc <= MARK_LIMIT
    ensures Accumulate(acc, s).Ok? ==> acc <= Accumulate(acc, s).value <= MARK_LIMIT
    decreases |s|
  {
    if s != "" && IsDigit(s[0]) && acc * 10 + DigitValue(s[0]) <= MARK_LIMIT {
      AccumulateBounded(acc * 10 + DigitValue(s[0]), s[1..]);
    }
  }

  lemma CentiMarkBounded(mark: string)
    ensures CentiMark(mark).Ok? ==> CentiMark(mark).value <= MARK_LIMIT
  {
    var digits := CentiDigits(Replace(TrimSpace(mark), ',', '.'));
    if digits.Ok? { AccumulateBounded(0, digits.value); }
  }

  lemma PrintedDigits(whole: nat, frac: string)
    requires |frac| == 1 || |frac| == 2
    requires forall c <- frac :: IsDigit(c)
    ensures var s := Decimal(whole) + "." + frac;
            && TrimSpace(s) == s && ',' !in s
            && CentiDigits(s) == Ok(Decimal(whole) + (frac + (if |frac| == 1 then "0" else "")))
  {
    PrintedPlain(Decimal(whole), frac);
    PrintedParts(Decimal(whole), frac);
  }

  lemma PrintedPlain(whole: string, frac: string)
    requires whole != "" && frac != "" && (forall c <- whole :: IsDigit(c)) && forall c <- frac :: IsDigit(c)
    ensures var s := whole + "." + frac; TrimSpace(s) == s && ',' !in s
  {
    var s := whole + "." + frac;
    assert s[0] == whole[0] && s[|s| - 1] == frac[|frac| - 1];
    assert frac[|frac| - 1] in frac && whole[0] in whole;
    assert forall c <- s :: c == '.' || IsDigit(c);
  }

  lemma PrintedParts(whole: string, frac: string)
    requires (forall c <- whole :: IsDigit(c)) && (|frac| == 1 || |frac| == 2)
    ensures CentiDigits(whole + "." + frac) == Ok(whole + (frac + (if |frac| == 1 then "0" else "")))
  {
    var s := whole + "." + frac;
    IndexOfFirst(whole, '.', frac);
    assert s == whole + ['.'] + frac && s != "";
    assert s[..|whole|] == whole && s[|whole| + 1..] == frac;
    var pad := if |frac| == 1 then "0" else "";
    assert whole + frac + pad == whole + (frac + pad);
  }

  lemma AccumulateTwo(n: nat, a: char, b: char)
    requires IsDigit(a) && IsDigit(b)
    requires (n * 10 + DigitValue(a)) * 10 + DigitValue(b) <= MARK_LIMIT
    ensures Accumulate(n, [a, b]) == Ok((n * 10 + DigitValue(a)) * 10 + DigitValue(b))
  {
    assert [a, b][1..] == [b] && [b][1..] == "";
    assert Accumulate(n * 10 + DigitValue(a), [b]) == Ok((n * 10 + DigitValue(a)) * 10 + DigitValue(b));
  }

  // Parsing what was printed gives the number back, over the whole range marks may take.
  lemma ParsePrint(centi: nat)
    requires centi <= MARK_LIMIT
    ensures CentiMark(FormatCentiMark(centi)) == Ok(centi)
  {
    var two := TwoDigits(centi % 100);
    PrintedDigits(centi / 100, two);
    assert two + "" == two;
    AccumulateDecimal(centi / 100, two);
    AccumulateTwo(centi / 100, two[0], two[1]);
    assert two == [two[0], two[1]];
  }

  // Beyond the range the printed mark is refused, so ParsePrint's bound is exact.
  lemma {:induction false} ParsePrintExactly(centi: nat)
    ensures CentiMark(FormatCentiMark(centi)) == Ok(centi) <==> centi <= MARK_LIMIT
  {
    CentiMarkBounded(FormatCentiMark(centi));
    if centi <= MARK_LIMIT { ParsePrint(centi); }
  }

  // The canonical spelling of a mark: print after parse.
  function Canonical(mark: string): string
    requires CentiMark(mark).Ok?
  {
    FormatCentiMark(CentiMark(mark).value)
  }

  // Canonical spellings denote the same mark, are their own canonical spelling, and are
  // equal exactly when the marks are.
  lemma CanonicalIsNormalForm(a: string, b: string)
    requires CentiMark(a).Ok? && CentiMark(b).Ok?
    ensures CentiMark(Canonical(a)) == CentiMark(a)
    ensures Canonical(Canonical(a)) == Canonical(a)
    ensures Canonical(a) == Canonical(b) <==> CentiMark(a) == CentiMark(b)
  {
    CentiMarkBounded(a);
    CentiMarkBounded(b);
    ParsePrint(CentiMark(a).value);
    ParsePrint(CentiMark(b).value);
  }

  // --- Hand and electronic times ---

  function RoundUpHandTime(mark: string): Result<string, MarkError> {
    var c := CentiMark(mark);
    if c.Err? then Err(c.error)
    else if c.value == 0 then Err(NotPositive)
    else Ok(FormatTenths(NextTenth(c.value)))
  }

  function ValidateFATTime(mark: string): Result<string, MarkError> {
    var c := CentiMark(mark);
    if c.Err? then Err(c.error)
    else if c.value == 0 then Err(NotPositive)
    else Ok(FormatCentiMark(c.value))
  }

  lemma ParseTenths(tenths: nat)
    requires tenths * 10 <= MARK_LIMIT
    ensures CentiMark(FormatTenths(tenths * 10)) == Ok(tenths * 10)
  {
    var centi := tenths * 10;
    var d := DigitChar(centi % 100 / 10);
    PrintedDigits(centi / 100, [d]);
    assert [d] + "0" == [d, '0'];
    AccumulateDecimal(centi / 100, [d, '0']);
    AccumulateTwo(centi / 100, d, '0');
  }

  function NextTenth(centi: nat): (tenth: nat)
    ensures centi <= tenth < centi + 10 && tenth % 10 == 0
  {
    (centi + 9) / 10 * 10
  }

  lemma ReadTenths(read: nat)
    requires read <= MARK_LIMIT
    ensures CentiMark(FormatTenths(NextTenth(read))) ==
            if NextTenth(read) <= MARK_LIMIT then Ok(NextTenth(read)) else Err(OutOfRange)
  {
    var tenths := (read + 9) / 10;
    if tenths * 10 <= MARK_LIMIT {
      ParseTenths(tenths);
    } else {
      TenthsOverflow(tenths);
    }
  }

  lemma NextTenthIdempotent(centi: nat)
    ensures NextTenth(NextTenth(centi)) == NextTenth(centi)
  {}

  lemma RoundOnceMore(tenth: nat, kept: string)
    requires tenth > 0 && NextTenth(tenth) == tenth && kept == FormatTenths(tenth)
    requires CentiMark(kept) == if tenth <= MARK_LIMIT then Ok(tenth) else Err(OutOfRange)
    ensures RoundUpHandTime(kept) == Ok(kept) <==> tenth <= MARK_LIMIT
  {}

  // A hand time is recorded as the least tenth not below the reading; recording it again
  // changes nothing exactly when rounding stayed within the range marks may take.
  lemma HandTimeIsLeastTenth(mark: string)
    requires RoundUpHandTime(mark).Ok?
    ensures var kept, tenth := RoundUpHandTime(mark).value, NextTenth(CentiMark(mark).value);
            && CentiMark(kept) == (if tenth <= MARK_LIMIT then Ok(tenth) else Err(OutOfRange))
            && (RoundUpHandTime(kept) == Ok(kept) <==> tenth <= MARK_LIMIT)
  {
    var read := CentiMark(mark).value;
    CentiMarkBounded(mark);
    NextTenthIdempotent(read);
    ReadTenths(read);
    RoundOnceMore(NextTenth(read), FormatTenths(NextTenth(read)));
  }

  lemma AccumulateOverflow(n: nat, d: char)
    requires IsDigit(d) && n * 10 + DigitValue(d) <= MARK_LIMIT < (n * 10 + DigitValue(d)) * 10
    ensures Accumulate(n, [d, '0']) == Err(OutOfRange)
  {
    assert [d, '0'][1..] == ['0'];
    assert Accumulate(n * 10 + DigitValue(d), ['0']) == Err(OutOfRange);
  }

  lemma TenthsOverflow(tenths: nat)
    requires MARK_LIMIT < tenths * 10 <= MARK_LIMIT + 9
    ensures CentiMark(FormatTenths(tenths * 10)) == Err(OutOfRange)
  {
    var whole, tenth := tenths * 10 / 100, tenths * 10 % 100 / 10;
    assert whole == tenths / 10 && tenth == tenths % 10;
    var d := DigitChar(tenth);
    PrintedDigits(whole, [d]);
    assert [d] + "0" == [d, '0'];
    AccumulateDecimal(whole, [d, '0']);
    AccumulateOverflow(whole, d);
  }

  // An electronic time keeps its value and gets its canonical two-decimal spelling.
  lemma ElectronicTimeKeepsValue(mark: string)
    requires ValidateFATTime(mark).Ok?
    ensures CentiMark(ValidateFATTime(mark).value) == CentiMark(mark)
    ensures ValidateFATTime(ValidateFATTime(mark).value) == ValidateFATTime(mark)
  {
    CanonicalIsNormalForm(mark, mark);
  }
}
