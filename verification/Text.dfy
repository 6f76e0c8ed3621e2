// The few text operations of Go's strings, unicode and strconv packages that marks and
// interchange files are built from.
module Text {

  predicate IsDigit(c: char) { '0' <= c <= '9' }

  // Unicode White_Space, as unicode.IsSpace reports it.
  predicate IsSpace(c: char) {
    || '\t' <= c <= '\r'
    || c == ' '
    || c == '\U{85}' || c == '\U{A0}' || c == '\U{1680}'
    || '\U{2000}' <= c <= '\U{200A}'
    || c == '\U{2028}' || c == '\U{2029}' || c == '\U{202F}' || c == '\U{205F}' || c == '\U{3000}'
  }

  function TrimSpace(s: string): (r: string)
    ensures r != "" ==> !IsSpace(r[0]) && !IsSpace(r[|r| - 1])
  {
    if s == "" then s
    else if IsSpace(s[0]) then TrimSpace(s[1..])
    else if IsSpace(s[|s| - 1]) then TrimSpace(s[..|s| - 1])
    else s
  }

  function IndexOf(s: string, c: char): (i: nat)
    ensures i <= |s|
    ensures i < |s| ==> s[i] == c
    ensures forall k :: 0 <= k < i ==> s[k] != c
  {
    if s == "" || s[0] == c then 0 else 1 + IndexOf(s[1..], c)
  }

  lemma IndexOfFirst(before: string, c: char, after: string)
    requires c !in before
    ensures IndexOf(before + [c] + after, c) == |before|
  {
    var s := before + [c] + after;
    assert s[|before|] == c;
    assert forall k :: 0 <= k < |before| ==> s[k] == before[k];
  }

  function Replace(s: string, from: char, to: char): (r: string)
    ensures |r| == |s|
    ensures from !in s ==> r == s
  {
    if s == "" then "" else [if s[0] == from then to else s[0]] + Replace(s[1..], from, to)
  }

  // --- Decimal numerals ---

  function DigitChar(d: nat): (c: char)
    requires d < 10
    ensures IsDigit(c) && DigitValue(c) == d
  {
    '0' + d as char
  }

  function DigitValue(c: char): nat
    requires IsDigit(c)
  {
    (c - '0') as nat
  }

  function Decimal(n: nat): (s: string)
    ensures s != "" && forall c <- s :: IsDigit(c)
  {
    if n < 10 then [DigitChar(n)] else Decimal(n / 10) + [DigitChar(n % 10)]
  }
}
