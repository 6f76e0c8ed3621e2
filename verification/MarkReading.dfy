// Which texts are marks, and what they are worth: digits, with at most two decimals after a point
// or a comma, within the parser's range.
module MarkReading {
  import opened Basics
  import opened Text
  import opened Marks

  predicate Digits(s: string) { forall c <- s :: IsDigit(c) }

  // The number a numeral denotes.
  function Num(s: string): nat
    requires Digits(s)
  {
    if s == "" then 0 else 10 * Num(s[..|s| - 1]) + DigitValue(s[|s| - 1])
  }

  // Hundredths, the fraction read to two places.
  function Worth(whole: string, frac: string): nat
    requires Digits(whole) && Digits(frac) && |frac| <= 2
  {
    100 * Num(whole) + if |frac| == 1 then 10 * Num(frac) else Num(frac)
  }

  // A whole number, or one or two decimals after a separator; nothing need stand before it.
  predicate Spelled(text: string, whole: string, frac: string) {
    && Digits(whole) && Digits(frac) && |frac| <= 2
    && if frac == "" then whole != "" && text == whole
       else text == whole + "." + frac || text == whole + "," + frac
  }

  lemma {:induction false} TrimMeaning(s: string) returns (before: string, after: string)
    ensures s == before + TrimSpace(s) + after
    ensures (forall c <- before :: IsSpace(c)) && (forall c <- after :: IsSpace(c))
  {
    if s != "" && IsSpace(s[0]) {
      before, after := TrimMeaning(s[1..]);
      before := [s[0]] + before;
      assert s == [s[0]] + s[1..];
    } else if s != "" && IsSpace(s[|s| - 1]) {
      before, after := TrimMeaning(s[..|s| - 1]);
      after := after + [s[|s| - 1]];
      assert s == s[..|s| - 1] + [s[|s| - 1]];
    } else {
      before, after := "", "";
    }
  }

  lemma {:induction false} ReplaceAt(s: string, i: nat)
    requires i < |s|
    ensures Replace(s, ',', '.')[i] == if s[i] == ',' then '.' else s[i]
  {
    if i > 0 { ReplaceAt(s[1..], i - 1); }
  }

  // The digits continued from a number read so far.
  function Continued(acc: nat, s: string): nat
    requires Digits(s)
    decreases |s|
  {
    if s == "" then acc else Continued(acc * 10 + DigitValue(s[0]), s[1..])
  }

  lemma {:induction false} ContinuedLast(acc: nat, s: string, c: char)
    requires Digits(s) && IsDigit(c)
    ensures Digits(s + [c]) && Continued(acc, s + [c]) == 10 * Continued(acc, s) + DigitValue(c)
    decreases |s|
  {
    if s == "" {
      assert "" + [c] == [c] && [c][1..] == "";
      assert Continued(acc, [c]) == Continued(acc * 10 + DigitValue(c), "");
    } else {
      assert (s + [c])[1..] == s[1..] + [c] && (s + [c])[0] == s[0];
      assert forall d <- s[1..] :: d in s;
      ContinuedLast(acc * 10 + DigitValue(s[0]), s[1..], c);
    }
  }

  lemma {:induction false} ContinuedIsNum(s: string)
    requires Digits(s)
    ensures Continued(0, s) == Num(s)
  {
    if s != "" {
      var init, c := s[..|s| - 1], s[|s| - 1];
      ContinuedIsNum(init);
      ContinuedLast(0, init, c);
      assert s == init + [c];
    }
  }

  lemma {:induction false} AccumulateExactly(acc: nat, s: string, v: nat)
    requires acc <= MARK_LIMIT
    ensures Accumulate(acc, s) == Ok(v) <==> Digits(s) && Continued(acc, s) == v && v <= MARK_LIMIT
    decreases |s|
  {
    if s != "" {
      assert s == [s[0]] + s[1..];
      if IsDigit(s[0]) {
        var next := acc * 10 + DigitValue(s[0]);
        assert Digits(s) <==> Digits(s[1..]);
        if next <= MARK_LIMIT {
          AccumulateExactly(next, s[1..], v);
        } else if Digits(s) {
          ContinuedGrows(next, s[1..]);
        }
      } else {
        assert s[0] in s;
      }
    }
  }

  lemma {:induction false} ContinuedGrows(acc: nat, s: string)
    requires Digits(s)
    ensures Continued(acc, s) >= acc
    decreases |s|
  {
    if s != "" {
      assert forall d <- s[1..] :: d in s;
      ContinuedGrows(acc * 10 + DigitValue(s[0]), s[1..]);
    }
  }

  lemma NumTwo(whole: string, a: char, b: char)
    requires Digits(whole) && IsDigit(a) && IsDigit(b)
    ensures Digits(whole + [a, b]) && Num(whole + [a, b]) == 100 * Num(whole) + 10 * DigitValue(a) + DigitValue(b)
  {
    var s := whole + [a, b];
    assert s[..|s| - 1] == whole + [a] && (whole + [a])[..|whole|] == whole;
    assert Digits(whole + [a]);
  }

  // The padded digits of a spelled mark are worth what it says.
  lemma PaddedWorth(whole: string, frac: string)
    requires Digits(whole) && Digits(frac) && |frac| <= 2
    ensures var digits := whole + frac + (if |frac| == 0 then "00" else if |frac| == 1 then "0" else "");
            Digits(digits) && Num(digits) == Worth(whole, frac)
  {
    var digits := whole + frac + (if |frac| == 0 then "00" else if |frac| == 1 then "0" else "");
    var a, b := if |frac| == 0 then '0' else frac[0], if |frac| == 2 then frac[1] else '0';
    assert digits == whole + [a, b];
    NumTwo(whole, a, b);
    FractionWorth(frac);
  }

  lemma FractionWorth(frac: string)
    requires Digits(frac) && |frac| <= 2
    ensures |frac| == 1 ==> Num(frac) == DigitValue(frac[0])
    ensures |frac| == 2 ==> Num(frac) == 10 * DigitValue(frac[0]) + DigitValue(frac[1])
  {
    if |frac| == 1 { assert frac[..0] == ""; }
    if |frac| == 2 {
      assert frac[..1] == [frac[0]] && [frac[0]][..0] == "";
      assert Num([frac[0]]) == DigitValue(frac[0]);
    }
  }

  lemma DigitsKept(s: string)
    requires Digits(s)
    ensures ',' !in s && '.' !in s
  {}

  lemma {:induction false} ReplaceAppend(a: string, b: string)
    ensures Replace(a + b, ',', '.') == Replace(a, ',', '.') + Replace(b, ',', '.')
  {
    if a == "" {
      assert a + b == b;
    } else {
      assert (a + b)[1..] == a[1..] + b;
      ReplaceAppend(a[1..], b);
    }
  }

  // The text as the parser sees it.
  lemma SpelledSeen(text: string, whole: string, frac: string)
    requires Spelled(text, whole, frac)
    ensures Replace(text, ',', '.') == if frac == "" then whole else whole + "." + frac
  {
    DigitsKept(whole);
    DigitsKept(frac);
    if frac != "" {
      var sep := if text == whole + "." + frac then "." else ",";
      ReplaceAppend(whole + sep, frac);
      ReplaceAppend(whole, sep);
      assert Replace(sep, ',', '.') == ".";
    }
  }

  lemma SpelledReads(text: string, whole: string, frac: string)
    requires Spelled(text, whole, frac)
    ensures CentiDigits(Replace(text, ',', '.'))
         == Ok(whole + frac + (if |frac| == 0 then "00" else if |frac| == 1 then "0" else ""))
  {
    var s := Replace(text, ',', '.');
    SpelledSeen(text, whole, frac);
    DigitsKept(whole);
    if frac == "" {
      assert IndexOf(s, '.') == |s|;
      assert whole + frac + "00" == s + "00";
    } else {
      IndexOfFirst(whole, '.', frac);
      assert whole + "." + frac == whole + ['.'] + frac;
      assert s[..|whole|] == whole && s[|whole| + 1..] == frac;
    }
  }

  // Where the parser finds digits only, the parts it splits are digits.
  lemma PartsAreDigits(s: string)
    requires CentiDigits(s).Ok? && Digits(CentiDigits(s).value)
    ensures var dot := IndexOf(s, '.');
            s != "" && Digits(s[..dot]) && (dot < |s| ==> Digits(s[dot + 1..]) && 1 <= |s[dot + 1..]| <= 2)
  {
    var dot, digits := IndexOf(s, '.'), CentiDigits(s).value;
    DigitsPart(digits, s[..dot], 0);
    if dot < |s| { DigitsPart(digits, s[dot + 1..], dot); }
  }

  lemma DigitsPart(digits: string, part: string, from: nat)
    requires Digits(digits) && from + |part| <= |digits| && digits[from..from + |part|] == part
    ensures Digits(part)
  {
    forall c | c in part ensures IsDigit(c) {
      assert c in digits[from..from + |part|];
    }
  }

  lemma DigitsUnseen(text: string, s: string, low: nat, high: nat)
    requires low <= high <= |text| == |s| && Digits(s[low..high])
    requires forall i :: low <= i < high ==> s[i] == if text[i] == ',' then '.' else text[i]
    ensures Digits(text[low..high])
  {
    forall i | low <= i < high ensures IsDigit(text[i]) {
      assert s[i] in s[low..high];
    }
  }

  // A text seen as s and split at s's point, the parts being digits.
  lemma PartsSpell(text: string, s: string, dot: nat) returns (whole: string, frac: string)
    requires dot <= |text| == |s| && s != "" && Digits(s[..dot]) && (dot < |s| ==> s[dot] == '.')
    requires dot < |s| ==> Digits(s[dot + 1..]) && 1 <= |s[dot + 1..]| <= 2
    requires forall i :: 0 <= i < |s| ==> s[i] == if text[i] == ',' then '.' else text[i]
    ensures Spelled(text, whole, frac)
  {
    whole, frac := text[..dot], "";
    assert s[0..dot] == s[..dot] && text[0..dot] == whole;
    DigitsUnseen(text, s, 0, dot);
    if dot == |text| {
      assert text == whole;
    } else {
      frac := text[dot + 1..];
      assert s[dot + 1..|s|] == s[dot + 1..] && text[dot + 1..|text|] == frac;
      DigitsUnseen(text, s, dot + 1, |text|);
      assert text == whole + [text[dot]] + frac;
    }
  }

  // A text that reads is spelled as the parser splits it.
  lemma ReadsSpelled(text: string) returns (whole: string, frac: string)
    requires var digits := CentiDigits(Replace(text, ',', '.')); digits.Ok? && Digits(digits.value)
    ensures Spelled(text, whole, frac)
  {
    var s := Replace(text, ',', '.');
    forall i | 0 <= i < |text| ensures s[i] == if text[i] == ',' then '.' else text[i] {
      ReplaceAt(text, i);
    }
    PartsAreDigits(s);
    whole, frac := PartsSpell(text, s, IndexOf(s, '.'));
  }

  ghost predicate ReadsAs(mark: string, v: nat) {
    exists whole: string, frac: string :: Spelled(TrimSpace(mark), whole, frac) && Worth(whole, frac) == v
  }

  // A mark reads as v exactly when, blanks at its ends aside, it spells v, and v is in range.
  lemma ReadsExactly(mark: string, v: nat)
    ensures CentiMark(mark) == Ok(v) <==> ReadsAs(mark, v) && v <= MARK_LIMIT
  {
    var text := TrimSpace(mark);
    var digits := CentiDigits(Replace(text, ',', '.'));
    if CentiMark(mark) == Ok(v) {
      AccumulateExactly(0, digits.value, v);
      var whole, frac := ReadsSpelled(text);
      DigitsWorth(text, whole, frac);
    } else if ReadsAs(mark, v) {
      var whole: string, frac: string :| Spelled(text, whole, frac) && Worth(whole, frac) == v;
      DigitsWorth(text, whole, frac);
      AccumulateExactly(0, digits.value, v);
    }
  }

  lemma DigitsWorth(text: string, whole: string, frac: string)
    requires Spelled(text, whole, frac)
    ensures var digits := CentiDigits(Replace(text, ',', '.'));
            digits.Ok? && Digits(digits.value) && Continued(0, digits.value) == Worth(whole, frac)
  {
    SpelledReads(text, whole, frac);
    PaddedWorth(whole, frac);
    ContinuedIsNum(CentiDigits(Replace(text, ',', '.')).value);
  }

  // --- Times as they are recorded ---

  // A hand time is the least full tenth not below the reading, with one decimal; an electronic
  // time keeps its hundredths. Nothing reads as zero.
  ghost predicate RecordedHand(reading: string, kept: string) {
    exists v: nat, tenths: nat ::
      && CentiMark(reading) == Ok(v) && v > 0 && 10 * tenths - 10 < v <= 10 * tenths && kept == FormatTenths(10 * tenths)
  }

  ghost predicate RecordedElectronic(reading: string, kept: string) {
    exists v: nat :: CentiMark(reading) == Ok(v) && v > 0 && kept == FormatCentiMark(v)
  }

  lemma HandExactly(reading: string, kept: string)
    ensures RoundUpHandTime(reading) == Ok(kept) <==> RecordedHand(reading, kept)
  {
    var c := CentiMark(reading);
    if c.Ok? && c.value > 0 {
      var tenth := NextTenth(c.value);
      var tenths := tenth / 10;
      assert tenth == 10 * tenths;
      if RecordedHand(reading, kept) {
        var v: nat, t: nat :| CentiMark(reading) == Ok(v) && v > 0 && 10 * t - 10 < v <= 10 * t && kept == FormatTenths(10 * t);
        assert t == tenths;
      }
    }
  }

  lemma ElectronicExactly(reading: string, kept: string)
    ensures ValidateFATTime(reading) == Ok(kept) <==> RecordedElectronic(reading, kept)
  {}
}
