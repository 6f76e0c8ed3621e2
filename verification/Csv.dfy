// One line of comma-separated values as Go's encoding/csv writes and reads it (section 2 of
// RFC 4180), numerals, and the line layer of the FinishLynx files.
module Csv {
  import opened Basics
  import opened Text

  datatype CsvError = EmptyLine | BareQuote | OpenQuote | StrayQuote

  // --- Writing ---

  predicate NeedsQuotes(field: string) {
    field != "" &&
    (field == "\\." || ',' in field || '"' in field || '\r' in field || '\n' in field || IsSpace(field[0]))
  }

  // Quotes are doubled; with CRLF line ends a carriage return is dropped and a line feed
  // becomes both.
  function Escape(field: string): string {
    if field == "" then "" else
    (if field[0] == '"' then "\"\"" else if field[0] == '\r' then "" else if field[0] == '\n' then "\r\n"
     else [field[0]]) + Escape(field[1..])
  }

  function Quote(field: string): string {
    if NeedsQuotes(field) then "\"" + Escape(field) + "\"" else field
  }

  function EncodeFields(fields: seq<string>): string {
    if fields == [] then ""
    else if |fields| == 1 then Quote(fields[0])
    else Quote(fields[0]) + "," + EncodeFields(fields[1..])
  }

  // A field is printed as it is, unless a separator, a quote, a line break, a blank at its start or a
  // lone end marker asks for quotes; then every quote in it is doubled.
  lemma QuotedExactly(field: string)
    requires Clean(field)
    ensures var asks := field == "\\." || ',' in field || '"' in field || (field != "" && IsSpace(field[0]));
            if asks then Quote(field) == "\"" + Doubled(field) + "\"" else Quote(field) == field
  {
    EscapeDoubles(field);
  }

  function Doubled(field: string): string {
    if field == "" then "" else (if field[0] == '"' then ['"', '"'] else [field[0]]) + Doubled(field[1..])
  }

  lemma {:induction false} EscapeDoubles(field: string)
    requires Clean(field)
    ensures Escape(field) == Doubled(field)
  {
    if field != "" {
      assert field[0] in field && forall c <- field[1..] :: c in field;
      EscapeDoubles(field[1..]);
    }
  }

  // A record is its fields with commas between them.
  lemma CommasBetween(fields: seq<string>)
    requires |fields| > 1
    ensures EncodeFields(fields) == Quote(fields[0]) + "," + EncodeFields(fields[1..])
    ensures EncodeFields([fields[0]]) == Quote(fields[0])
  {}

  // --- Reading ---

  // The quoted field that s continues, and the text after its closing quote.
  function ReadQuoted(s: string): (r: Result<(string, string), CsvError>)
    ensures r.Ok? ==> |r.value.1| < |s|
  {
    if s == "" then Err(OpenQuote)
    else if s[0] != '"' then Prepend(s[0], ReadQuoted(s[1..]))
    else if |s| > 1 && s[1] == '"' then Prepend('"', ReadQuoted(s[2..]))
    else Ok(("", s[1..]))
  }

  function Prepend(c: char, r: Result<(string, string), CsvError>): Result<(string, string), CsvError> {
    if r.Err? then r else Ok(([c] + r.value.0, r.value.1))
  }

  function FirstThen(field: string, rest: Result<seq<string>, CsvError>): Result<seq<string>, CsvError> {
    if rest.Err? then rest else Ok([field] + rest.value)
  }

  function ReadFields(s: string): Result<seq<string>, CsvError>
    decreases |s|
  {
    if s == "" || s[0] != '"' then
      var i := IndexOf(s, ',');
      if '"' in s[..i] then Err(BareQuote)
      else if i == |s| then Ok([s])
      else FirstThen(s[..i], ReadFields(s[i + 1..]))
    else
      var q := ReadQuoted(s[1..]);
      if q.Err? then Err(q.error)
      else if q.value.1 == "" then Ok([q.value.0])
      else if q.value.1[0] == ',' then FirstThen(q.value.0, ReadFields(q.value.1[1..]))
      else Err(StrayQuote)
  }

  // An isolated line, without its line end; an empty one holds no record.
  function SplitLine(line: string): Result<seq<string>, CsvError> {
    if line == "" then Err(EmptyLine) else ReadFields(line)
  }

  // --- Reading undoes writing ---

  predicate Clean(s: string) { '\r' !in s && '\n' !in s }

  predicate CleanFields(fields: seq<string>) { forall f <- fields :: Clean(f) }

  lemma {:induction false} ReadEscaped(field: string, rest: string)
    requires Clean(field) && (rest == "" || rest[0] != '"')
    ensures ReadQuoted(Escape(field) + "\"" + rest) == Ok((field, rest))
  {
    if field == "" {
      assert Escape(field) + "\"" + rest == "\"" + rest;
    } else {
      var head := if field[0] == '"' then "\"\"" else [field[0]];
      var tail := Escape(field[1..]) + "\"" + rest;
      assert Clean(field[1..]) by {
        assert forall c <- field[1..] :: c in field;
      }
      ReadEscaped(field[1..], rest);
      ReadOneChar(field[0], tail);
      assert field[0] in field;
      Associates(head, Escape(field[1..]), "\"", rest);
      assert field == [field[0]] + field[1..];
    }
  }

  lemma ReadOneChar(c: char, tail: string)
    ensures ReadQuoted((if c == '"' then "\"\"" else [c]) + tail) == Prepend(c, ReadQuoted(tail))
  {
    var head := if c == '"' then "\"\"" else [c];
    var s := head + tail;
    assert s[0] == c && s[|head|..] == tail;
  }

  lemma PlainField(field: string, rest: string)
    requires ',' !in field && (rest == "" || rest[0] == ',')
    ensures IndexOf(field + rest, ',') == |field|
  {
    if rest == "" {
      assert field + rest == field;
    } else {
      IndexOfFirst(field, ',', rest[1..]);
      assert field + [','] + rest[1..] == field + rest;
    }
  }

  lemma ReadPlain(field: string, rest: string)
    requires ',' !in field && '"' !in field && (rest == "" || rest[0] == ',')
    ensures ReadFields(field + rest)
         == if rest == "" then Ok([field]) else FirstThen(field, ReadFields(rest[1..]))
  {
    var s := field + rest;
    PlainField(field, rest);
    assert s[..|field|] == field;
    assert field != "" ==> s[0] == field[0] && field[0] in field;
    assert s == "" || s[0] != '"';
    if rest == "" {
      assert s == field;
    } else {
      assert s[|field| + 1..] == rest[1..];
    }
  }

  lemma ReadWrapped(field: string, rest: string)
    requires Clean(field) && (rest == "" || rest[0] == ',')
    ensures ReadFields("\"" + Escape(field) + "\"" + rest)
         == if rest == "" then Ok([field]) else FirstThen(field, ReadFields(rest[1..]))
  {
    var inner := Escape(field) + "\"" + rest;
    ReadEscaped(field, rest);
    ReadInner(inner, field, rest);
    Associates("\"", Escape(field), "\"", rest);
  }

  lemma Associates(a: string, b: string, c: string, d: string)
    ensures a + b + c + d == a + (b + c + d)
  {}

  lemma ReadInner(inner: string, field: string, rest: string)
    requires ReadQuoted(inner) == Ok((field, rest)) && (rest == "" || rest[0] == ',')
    ensures ReadFields("\"" + inner) == if rest == "" then Ok([field]) else FirstThen(field, ReadFields(rest[1..]))
  {
    var s := "\"" + inner;
    assert s[0] == '"' && s[1..] == inner;
  }

  // A written field followed by the end of the line or a comma is read back first.
  lemma ReadFirst(field: string, rest: string)
    requires Clean(field) && (rest == "" || rest[0] == ',')
    ensures ReadFields(Quote(field) + rest)
         == if rest == "" then Ok([field]) else FirstThen(field, ReadFields(rest[1..]))
  {
    if NeedsQuotes(field) {
      ReadWrapped(field, rest);
    } else {
      assert '"' !in field && ',' !in field;
      ReadPlain(field, rest);
    }
  }

  // A record of at least one field without line breaks reads back as it was.
  lemma {:induction false} ReadEncoded(fields: seq<string>)
    requires fields != [] && CleanFields(fields)
    ensures ReadFields(EncodeFields(fields)) == Ok(fields)
  {
    if |fields| == 1 {
      ReadFirst(fields[0], "");
      assert Quote(fields[0]) + "" == Quote(fields[0]);
      assert fields == [fields[0]];
    } else {
      var rest := "," + EncodeFields(fields[1..]);
      ReadFirst(fields[0], rest);
      ReadEncoded(fields[1..]);
      assert rest[1..] == EncodeFields(fields[1..]);
      assert Quote(fields[0]) + "," + EncodeFields(fields[1..]) == Quote(fields[0]) + rest;
      assert fields == [fields[0]] + fields[1..];
    }
  }

  lemma {:induction false} EscapeClean(field: string)
    requires Clean(field)
    ensures Clean(Escape(field))
  {
    if field != "" {
      assert forall c <- field[1..] :: c in field;
      EscapeClean(field[1..]);
    }
  }

  lemma {:induction false} EncodedClean(fields: seq<string>)
    requires CleanFields(fields)
    ensures Clean(EncodeFields(fields))
  {
    if fields != [] {
      EscapeClean(fields[0]);
      EncodedClean(fields[1..]);
    }
  }

  // What a printed record of several fields starts with.
  lemma EncodedStart(fields: seq<string>)
    requires |fields| > 1
    ensures var s := EncodeFields(fields);
            && s != "" && !IsSpace(s[0])
            && s[0] == (if fields[0] == "" then ',' else if NeedsQuotes(fields[0]) then '"' else fields[0][0])
  {}

  // --- Numerals ---

  const MAX_INT: int := 0x7FFF_FFFF_FFFF_FFFF

  predicate IsInt(n: int) { -MAX_INT - 1 <= n <= MAX_INT }

  function Itoa(n: int): string { if n < 0 then "-" + Decimal(-n) else Decimal(n) }

  function ReadDigits(s: string): Option<nat> {
    if s == "" then Some(0)
    else if !IsDigit(s[|s| - 1]) || ReadDigits(s[..|s| - 1]).None? then None
    else Some(ReadDigits(s[..|s| - 1]).value * 10 + DigitValue(s[|s| - 1]))
  }

  // The value and whether it is an error: 0 for a malformed numeral, the nearest bound for
  // one out of range.
  function Atoi(s: string): (int, bool) {
    var signed := s != "" && (s[0] == '-' || s[0] == '+');
    var digits := if signed then s[1..] else s;
    if digits == "" || ReadDigits(digits).None? then (0, false) else
    var size: int := ReadDigits(digits).value;
    var n := if signed && s[0] == '-' then -size else size;
    if n > MAX_INT then (MAX_INT, false) else if n < -MAX_INT - 1 then (-MAX_INT - 1, false) else (n, true)
  }

  lemma {:induction false} ReadDecimal(n: nat)
    ensures ReadDigits(Decimal(n)) == Some(n)
  {
    var s := Decimal(n);
    if n < 10 {
      assert s[..0] == "";
    } else {
      ReadDecimal(n / 10);
      assert s[..|s| - 1] == Decimal(n / 10);
    }
  }

  lemma AtoiItoa(n: int)
    requires IsInt(n)
    ensures Atoi(Itoa(n)) == (n, true)
  {
    var size := if n < 0 then -n else n;
    ReadDecimal(size);
    var digits := Decimal(size);
    if n < 0 {
      var s := "-" + digits;
      assert Itoa(n) == s && s[0] == '-' && s[1..] == digits;
    } else {
      assert digits[0] in digits;
      assert IsDigit(digits[0]);
    }
  }

  predicate NumeralChar(c: char) { IsDigit(c) || c == '-' }

  lemma ItoaChars(n: int)
    ensures Itoa(n) != "" && forall c <- Itoa(n) :: NumeralChar(c)
  {}

  lemma ItoaClean(n: int)
    ensures Clean(Itoa(n)) && TrimSpace(Itoa(n)) == Itoa(n) && !NeedsQuotes(Itoa(n)) && NumeralChar(Itoa(n)[0])
  {
    ItoaChars(n);
    var s := Itoa(n);
    assert s[0] in s && s[|s| - 1] in s;
  }

  // --- Lines ---

  function TrimCarriage(s: string): string {
    if s != "" && s[|s| - 1] == '\r' then TrimCarriage(s[..|s| - 1]) else s
  }

  // The lines of a file, each without its line end.
  function Lines(data: string): seq<string>
    decreases |data|
  {
    if data == "" then [] else
    var i := IndexOf(data, '\n');
    [TrimCarriage(data[..i])] + if i == |data| then [] else Lines(data[i + 1..])
  }

  const CRLF := "\r\n"

  // Lines as they are written, one after another.
  function Written(lines: seq<string>): string {
    if lines == [] then "" else Written(lines[..|lines| - 1]) + lines[|lines| - 1] + CRLF
  }

  lemma LineAtFront(line: string, data: string)
    requires Clean(line)
    ensures Lines(line + CRLF + data) == [line] + Lines(data)
  {
    var s := line + CRLF + data;
    var before := line + "\r";
    assert s == before + "\n" + data;
    IndexOfFirst(before, '\n', data);
    assert s[..|before|] == before && s[|before| + 1..] == data;
    assert before[..|before| - 1] == line;
    assert TrimCarriage(line) == line by {
      if line != "" { assert line[|line| - 1] in line; }
    }
  }

  lemma {:induction false} WrittenAppend(a: seq<string>, b: seq<string>)
    ensures Written(a + b) == Written(a) + Written(b)
  {
    if b == [] {
      assert a + b == a;
    } else {
      var n := |b| - 1;
      assert (a + b)[..|a| + n] == a + b[..n];
      WrittenAppend(a, b[..n]);
    }
  }

  // Reading the lines back gives the lines written.
  lemma {:induction false} LinesOfWritten(lines: seq<string>)
    requires CleanFields(lines)
    ensures Lines(Written(lines)) == lines
  {
    if lines != [] {
      assert lines == [lines[0]] + lines[1..];
      WrittenAppend([lines[0]], lines[1..]);
      assert Written([lines[0]]) == lines[0] + CRLF by { assert [lines[0]][..0] == []; }
      LineAtFront(lines[0], Written(lines[1..]));
      LinesOfWritten(lines[1..]);
    }
  }

  // Blank lines and comments are skipped.
  predicate IsData(line: string) {
    TrimSpace(line) != "" && TrimSpace(line)[0] != ';'
  }

  lemma {:induction false} TrimKeepsFirst(s: string)
    requires s != "" && !IsSpace(s[0])
    ensures TrimSpace(s) != "" && TrimSpace(s)[0] == s[0]
  {
    if IsSpace(s[|s| - 1]) { TrimKeepsFirst(s[..|s| - 1]); }
  }

  lemma DataLine(s: string)
    requires s != "" && !IsSpace(s[0])
    ensures IsData(s) <==> s[0] != ';'
    ensures IsData("\t" + s) <==> s[0] != ';'
  {
    TrimKeepsFirst(s);
    assert ("\t" + s)[1..] == s;
  }

  // Takes the data lines one by one until one is refused.
  function Scan<S, E>(step: (S, string) -> Result<S, E>, start: S, lines: seq<string>): Result<S, E> {
    if lines == [] then Ok(start) else
    var before, last := Scan(step, start, lines[..|lines| - 1]), lines[|lines| - 1];
    if before.Err? || !IsData(last) then before else step(before.value, last)
  }

  lemma ScanNext<S, E>(step: (S, string) -> Result<S, E>, start: S, lines: seq<string>, i: nat)
    requires i < |lines|
    ensures var before := Scan(step, start, lines[..i]);
            Scan(step, start, lines[..i + 1])
            == if before.Err? || !IsData(lines[i]) then before else step(before.value, lines[i])
  {
    assert lines[..i + 1][..i] == lines[..i];
  }

  // Later lines do not mend a refusal.
  lemma {:induction false} ScanStops<S, E>(step: (S, string) -> Result<S, E>, start: S, lines: seq<string>, n: nat)
    requires n <= |lines| && Scan(step, start, lines[..n]).Err?
    ensures Scan(step, start, lines) == Scan(step, start, lines[..n])
    decreases |lines| - n
  {
    if n == |lines| {
      assert lines[..n] == lines;
    } else {
      ScanNext(step, start, lines, n);
      ScanStops(step, start, lines, n + 1);
    }
  }

  lemma {:induction false} ScanAppend<S, E>(step: (S, string) -> Result<S, E>, start: S, a: seq<string>, b: seq<string>)
    requires Scan(step, start, a).Ok?
    ensures Scan(step, start, a + b) == Scan(step, Scan(step, start, a).value, b)
  {
    if b == [] {
      assert a + b == a;
    } else {
      var n := |b| - 1;
      assert (a + b)[..|a| + n] == a + b[..n];
      ScanAppend(step, start, a, b[..n]);
    }
  }

  lemma ScanOne<S, E>(step: (S, string) -> Result<S, E>, start: S, line: string)
    ensures Scan(step, start, [line]) == if IsData(line) then step(start, line) else Ok(start)
  {
    assert [line][..0] == [];
  }
}
