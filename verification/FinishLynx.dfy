// The FinishLynx data files: printing start lists, results and people, and parsing them back
// (internal/exchange/finishlynx.go).
module FinishLynx {
  import opened Basics
  import opened Text
  import opened Csv

  datatype Person = Person(id: string, lastName: string, firstName: string, affiliation: string, license: string)

  datatype CompetitorRow = CompetitorRow(
    place: string, id: string, lane: int, lastName: string, firstName: string, affiliation: string,
    time: string, license: string, deltaTime: string, reacTime: string, splits: string,
    timeTrialStart: string, user1: string, user2: string, user3: string, deltaTime2: string,
    deltaTime3: string, speed: string, pace: string)

  datatype Event = Event(
    number: int, round: int, heat: int, name: string, wind: string, windUnit: string, template: string,
    captureTime: string, captureDuration: string, distance: string, startTime: string,
    windMode: string, lapInfo: string, competitors: seq<CompetitorRow>)

  datatype LynxError = BadLine(why: CsvError) | OrphanCompetitor | NoHeader

  // The comment each file starts with. Its wording does not matter, only that it is one line
  // and a comment.
  const EVT_BANNER := "; lynx.evt"
  const PPL_BANNER := "; lynx.ppl"

  lemma Banners()
    ensures Clean(EVT_BANNER) && !IsData(EVT_BANNER) && Clean(PPL_BANNER) && !IsData(PPL_BANNER)
  {
    DataLine(EVT_BANNER);
    DataLine(PPL_BANNER);
  }

  // --- Records and their fields ---

  // Lane 0 is printed blank.
  function LaneText(lane: int): string { if lane == 0 then "" else Itoa(lane) }

  function RowFields(c: CompetitorRow): seq<string> {
    [c.id, LaneText(c.lane), c.lastName, c.firstName, c.affiliation, c.time, c.license, c.deltaTime, c.reacTime,
     c.splits, c.timeTrialStart, c.user1, c.user2, c.user3, c.deltaTime2, c.deltaTime3, c.speed, c.pace]
  }

  function HeaderFields(e: Event): seq<string> {
    [Itoa(e.number), Itoa(e.round), Itoa(e.heat), e.name, e.wind, e.windUnit, e.template, e.captureTime,
     e.captureDuration, e.distance, e.startTime, e.windMode, e.lapInfo]
  }

  // Short records are completed with blanks.
  function Padded(fields: seq<string>, n: nat): (r: seq<string>)
    ensures |r| >= n && |r| >= |fields| && r[..|fields|] == fields
    ensures |fields| <= n ==> |r| == n
    ensures forall i :: |fields| <= i < |r| ==> r[i] == ""
    decreases n - |fields|
  {
    if |fields| >= n then fields else Padded(fields + [""], n)
  }

  function RowFrom(fields: seq<string>): CompetitorRow {
    var f := Padded(fields, 18);
    CompetitorRow("", f[0], Atoi(TrimSpace(f[1])).0, f[2], f[3], f[4], f[5], f[6], f[7], f[8], f[9], f[10], f[11],
                  f[12], f[13], f[14], f[15], f[16], f[17])
  }

  function FieldOr(fields: seq<string>, i: nat): string { if i < |fields| then fields[i] else "" }

  predicate IsEventHeader(fields: seq<string>) {
    |fields| >= 4 && Atoi(TrimSpace(fields[0])).1
  }

  function EvtHeader(f: seq<string>): Event
    requires |f| >= 4
  {
    Event(Atoi(f[0]).0, Atoi(f[1]).0, Atoi(f[2]).0, f[3], FieldOr(f, 4), FieldOr(f, 5), FieldOr(f, 6), FieldOr(f, 7), FieldOr(f, 8),
          FieldOr(f, 9), FieldOr(f, 10), FieldOr(f, 11), FieldOr(f, 12), [])
  }

  function LifHeader(fields: seq<string>): Event {
    var f := Padded(fields, 13);
    Event(Atoi(TrimSpace(f[0])).0, Atoi(TrimSpace(f[1])).0, Atoi(TrimSpace(f[2])).0, f[3], f[4], f[5], f[6], f[7],
          f[8], f[9], f[10], f[11], f[12], [])
  }

  predicate PrintableRow(c: CompetitorRow) {
    IsInt(c.lane) && Clean(c.place) && CleanFields(RowFields(c))
  }

  // Machine integers, and no field broken over lines.
  predicate Printable(e: Event) {
    && IsInt(e.number) && IsInt(e.round) && IsInt(e.heat)
    && CleanFields(HeaderFields(e)) && forall c <- e.competitors :: PrintableRow(c)
  }

  lemma LaneBack(lane: int)
    requires IsInt(lane)
    ensures Atoi(TrimSpace(LaneText(lane))).0 == lane
  {
    if lane != 0 {
      AtoiItoa(lane);
      ItoaClean(lane);
    }
  }

  lemma RowBack(c: CompetitorRow)
    requires IsInt(c.lane)
    ensures RowFrom(RowFields(c)) == c.(place := "")
  {
    LaneBack(c.lane);
  }

  // The rows with p, rewritten by f.
  function Recover<T>(p: T -> bool, f: T -> T, s: seq<T>): (r: seq<T>)
    ensures |r| <= |s|
  {
    if s == [] then [] else
    Recover(p, f, s[..|s| - 1]) + if p(s[|s| - 1]) then [f(s[|s| - 1])] else []
  }

  lemma {:induction false} RecoverExactly<T>(p: T -> bool, f: T -> T, s: seq<T>)
    ensures Recover(p, f, s) == s <==> forall i :: 0 <= i < |s| ==> p(s[i]) && f(s[i]) == s[i]
  {
    if s != [] {
      var n := |s| - 1;
      var init, back := s[..n], Recover(p, f, s[..n]);
      RecoverExactly(p, f, init);
      RecoverLast(p, f, s);
      forall i | 0 <= i < n ensures init[i] == s[i] {}
    }
  }

  lemma RecoverLast<T>(p: T -> bool, f: T -> T, s: seq<T>)
    requires s != []
    ensures var n := |s| - 1;
            Recover(p, f, s) == s <==> Recover(p, f, s[..n]) == s[..n] && p(s[n]) && f(s[n]) == s[n]
  {
    var n := |s| - 1;
    var init, back := s[..n], Recover(p, f, s[..n]);
    assert s == init + [s[n]];
    if p(s[n]) {
      SameEnds(back, init, f(s[n]), s[n]);
    } else {
      assert |Recover(p, f, s)| <= n;
    }
  }

  lemma SameEnds<T>(a: seq<T>, b: seq<T>, x: T, y: T)
    ensures a + [x] == b + [y] <==> a == b && x == y
  {
    if a + [x] == b + [y] {
      assert |a + [x]| == |b + [y]|;
      assert (a + [x])[..|a|] == a && (b + [y])[..|b|] == b;
      assert (a + [x])[|a|] == x && (b + [y])[|b|] == y;
    }
  }

  // --- The start list: lynx.evt ---

  function IndentedRow(c: CompetitorRow): string { "\t" + EncodeFields(RowFields(c)) }

  function HeaderText(e: Event): string { EncodeFields(HeaderFields(e)) }

  // One printed line per row.
  function Texts<T>(show: T -> string, rows: seq<T>): (r: seq<string>)
    ensures |r| == |rows|
  {
    if rows == [] then [] else Texts(show, rows[..|rows| - 1]) + [show(rows[|rows| - 1])]
  }

  // What reading printed rows makes of the last one.
  lemma ScanTexts<S, E, T>(step: (S, string) -> Result<S, E>, start: S, show: T -> string, rows: seq<T>)
    requires rows != []
    ensures var n := |rows| - 1;
            var before := Scan(step, start, Texts(show, rows[..n]));
            Scan(step, start, Texts(show, rows))
            == if before.Err? || !IsData(show(rows[n])) then before else step(before.value, show(rows[n]))
  {
    var n := |rows| - 1;
    assert Texts(show, rows)[..n] == Texts(show, rows[..n]);
  }

  // One row at a time: show prints a data line exactly for the rows with p, and reading it
  // puts the recovered row after those got so far.
  ghost predicate ReadsRow<S, E, T(!new)>(step: (S, string) -> Result<S, E>, show: T -> string, p: T -> bool,
                                          f: T -> T, put: seq<T> -> S, row: T)
  {
    && (IsData(show(row)) <==> p(row))
    && forall got: seq<T> :: step(put(got), show(row)) == Ok(put(got + [f(row)]))
  }

  lemma {:induction false} ScanRows<S, E, T(!new)>(step: (S, string) -> Result<S, E>, show: T -> string, p: T -> bool,
                                                   f: T -> T, put: seq<T> -> S, rows: seq<T>)
    requires forall i :: 0 <= i < |rows| ==> ReadsRow(step, show, p, f, put, rows[i])
    ensures Scan(step, put([]), Texts(show, rows)) == Ok(put(Recover(p, f, rows)))
  {
    if rows != [] {
      var n := |rows| - 1;
      assert forall i :: 0 <= i < n ==> rows[..n][i] == rows[i];
      ScanRows(step, show, p, f, put, rows[..n]);
      ScanTexts(step, put([]), show, rows);
      assert ReadsRow(step, show, p, f, put, rows[n]);
      assert Recover(p, f, rows[..n]) + [] == Recover(p, f, rows[..n]);
    }
  }

  function EvtTexts(events: seq<Event>): seq<string> {
    if events == [] then [] else
    var e := events[|events| - 1];
    EvtTexts(events[..|events| - 1]) + ([HeaderText(e)] + Texts(IndentedRow, e.competitors))
  }

  function EvtFile(events: seq<Event>): string { Written([EVT_BANNER] + EvtTexts(events)) }

  method EncodeEVT(events: seq<Event>) returns (data: string)
    ensures data == EvtFile(events)
  {
    data := EVT_BANNER + CRLF;
    WrittenLast([], EVT_BANNER);
    for i := 0 to |events|
      invariant data == EvtFile(events[..i])
    {
      var block := EncodeRows(HeaderText(events[i]), IndentedRow, events[i].competitors);
      EvtFileNext(events, i);
      data := data + block;
    }
    assert events[..|events|] == events;
  }

  lemma EvtFileNext(events: seq<Event>, i: nat)
    requires i < |events|
    ensures EvtFile(events[..i + 1])
         == EvtFile(events[..i]) + Written([HeaderText(events[i])] + Texts(IndentedRow, events[i].competitors))
  {
    var block := [HeaderText(events[i])] + Texts(IndentedRow, events[i].competitors);
    assert events[..i + 1][..i] == events[..i];
    var before := EvtTexts(events[..i]);
    assert [EVT_BANNER] + (before + block) == ([EVT_BANNER] + before) + block;
    WrittenAppend([EVT_BANNER] + before, block);
  }

  lemma WrittenLast(before: seq<string>, line: string)
    ensures Written(before + [line]) == Written(before) + line + CRLF
  {
    assert (before + [line])[..|before|] == before;
  }

  // A first line, then one line per row.
  method EncodeRows<T>(first: string, show: T -> string, rows: seq<T>) returns (data: string)
    ensures data == Written([first] + Texts(show, rows))
  {
    data := first + CRLF;
    WrittenLast([], first);
    for i := 0 to |rows|
      invariant data == Written([first] + Texts(show, rows[..i]))
    {
      TextsNext(first, show, rows, i);
      WrittenLast([first] + Texts(show, rows[..i]), show(rows[i]));
      data := data + show(rows[i]) + CRLF;
    }
    assert rows[..|rows|] == rows;
  }

  lemma TextsNext<T>(first: string, show: T -> string, rows: seq<T>, i: nat)
    requires i < |rows|
    ensures [first] + Texts(show, rows[..i + 1]) == [first] + Texts(show, rows[..i]) + [show(rows[i])]
  {
    assert rows[..i + 1][..i] == rows[..i];
  }

  // The status token after a leading backslash, the rest of the line, and whether there was one.
  function CutStatusPrefix(line: string): (string, string, bool) {
    if line == "" || line[0] != '\\' then ("", line, false) else
    var body := line[1..];
    var i := IndexOf(body, ',');
    if i < |body| then (body[..i], body[i + 1..], true) else (body, "", true)
  }

  function TrimPrefix(s: string, c: char): string { if s != "" && s[0] == c then s[1..] else s }

  predicate IsIndented(body: string) {
    body != "" && (body[0] == '\t' || body[0] == ' ' || body[0] == ',')
  }

  function Outdented(body: string): string {
    TrimPrefix(TrimPrefix(TrimPrefix(body, '\t'), ' '), ',')
  }

  function AddRow(out: seq<Event>, c: CompetitorRow): seq<Event>
    requires out != []
  {
    var last := out[|out| - 1];
    out[..|out| - 1] + [last.(competitors := last.competitors + [c])]
  }

  // What one data line of a start list adds to the events read so far.
  function EvtStep(out: seq<Event>, line: string): Result<seq<Event>, LynxError> {
    var (status, body, prefixed) := CutStatusPrefix(line);
    var indented := !prefixed && IsIndented(body);
    var fields := SplitLine(if indented then Outdented(body) else body);
    if fields.Err? then Err(BadLine(fields.error))
    else if !prefixed && !indented && IsEventHeader(fields.value) then Ok(out + [EvtHeader(fields.value)])
    else if out == [] then Err(OrphanCompetitor)
    else Ok(AddRow(out, RowFrom(fields.value).(place := status)))
  }

  function ParsedEvt(data: string): Result<seq<Event>, LynxError> {
    Scan(EvtStep, [], Lines(data))
  }

  method ParseEVT(data: string) returns (r: Result<seq<Event>, LynxError>)
    ensures r == ParsedEvt(data)
  {
    var lines := Lines(data);
    var out: seq<Event> := [];
    for i := 0 to |lines|
      invariant Scan(EvtStep, [], lines[..i]) == Ok(out)
    {
      ScanNext(EvtStep, [], lines, i);
      if !IsData(lines[i]) {
        continue;
      }
      var next := ReadEvtLine(out, lines[i]);
      if next.Err? {
        ScanStops(EvtStep, [], lines, i + 1);
        return next;
      }
      out := next.value;
    }
    assert lines[..|lines|] == lines;
    return Ok(out);
  }

  method ReadEvtLine(out: seq<Event>, line: string) returns (r: Result<seq<Event>, LynxError>)
    ensures r == EvtStep(out, line)
  {
    var (status, body, prefixed) := CutStatusPrefix(line);
    var indented := false;
    if !prefixed && IsIndented(body) {
      indented := true;
      body := Outdented(body);
    }
    var fields := SplitLine(body);
    if fields.Err? {
      return Err(BadLine(fields.error));
    }
    if !prefixed && !indented && IsEventHeader(fields.value) {
      return Ok(out + [EvtHeader(fields.value)]);
    }
    if out == [] {
      return Err(OrphanCompetitor);
    }
    var c := RowFrom(fields.value);
    if prefixed {
      c := c.(place := status);
    }
    return Ok(AddRow(out, c));
  }

  // --- What a printed start list reads back as ---

  // A first field that turns its whole line into a comment.
  predicate Commented(first: string) {
    first != "" && first[0] == ';' && !NeedsQuotes(first)
  }

  predicate EvtKept(c: CompetitorRow) { !Commented(c.id) }

  const BLANK_ROW := CompetitorRow("", "", 0, "", "", "", "", "", "", "", "", "", "", "", "", "", "", "", "")

  // The comma dropped after the indent takes an empty ID with it, and every field moves up.
  function MovedUp(c: CompetitorRow): CompetitorRow {
    CompetitorRow("", LaneText(c.lane), Atoi(TrimSpace(c.lastName)).0, c.firstName, c.affiliation, c.time, c.license,
                  c.deltaTime, c.reacTime, c.splits, c.timeTrialStart, c.user1, c.user2, c.user3, c.deltaTime2,
                  c.deltaTime3, c.speed, c.pace, "")
  }

  function EvtRecovered(c: CompetitorRow): CompetitorRow {
    if c.id == "" then MovedUp(c) else c.(place := "")
  }

  function EvtEvent(e: Event): Event {
    e.(competitors := Recover(EvtKept, EvtRecovered, e.competitors))
  }

  lemma ShortRow(c: CompetitorRow)
    ensures RowFrom(RowFields(c)[1..]) == MovedUp(c)
  {
    var f := RowFields(c)[1..];
    assert |f| == 17 && Padded(f, 18) == f + [""];
  }

  // An indented record: not a header, and read without its first field when that is empty.
  lemma IndentedFields(fields: seq<string>)
    requires |fields| > 2 && CleanFields(fields)
    ensures var line := "\t" + EncodeFields(fields);
            && (IsData(line) <==> !Commented(fields[0]))
            && CutStatusPrefix(line) == ("", line, false) && IsIndented(line)
            && SplitLine(Outdented(line)) == Ok(if fields[0] == "" then fields[1..] else fields)
  {
    var text := EncodeFields(fields);
    EncodedStart(fields);
    DataLine(text);
    assert ("\t" + text)[1..] == text;
    if fields[0] == "" {
      assert text[1..] == EncodeFields(fields[1..]);
      EncodedStart(fields[1..]);
      ReadEncoded(fields[1..]);
    } else {
      assert fields[0][0] in fields[0];
      ReadEncoded(fields);
    }
  }

  lemma RowLine(out: seq<Event>, c: CompetitorRow)
    requires out != [] && PrintableRow(c)
    ensures IsData(IndentedRow(c)) <==> EvtKept(c)
    ensures EvtStep(out, IndentedRow(c)) == Ok(AddRow(out, EvtRecovered(c)))
  {
    IndentedFields(RowFields(c));
    if c.id == "" { ShortRow(c); } else { RowBack(c); }
  }

  // A record that starts with a numeral: data, neither a comment nor indented.
  lemma NumeralFirst(fields: seq<string>)
    requires |fields| > 3 && CleanFields(fields)
    requires fields[0] != "" && NumeralChar(fields[0][0]) && !NeedsQuotes(fields[0])
    ensures var line := EncodeFields(fields);
            && IsData(line) && CutStatusPrefix(line) == ("", line, false) && !IsIndented(line)
            && SplitLine(line) == Ok(fields)
  {
    EncodedStart(fields);
    DataLine(EncodeFields(fields));
    ReadEncoded(fields);
  }

  lemma HeaderLine(out: seq<Event>, e: Event)
    requires Printable(e)
    ensures IsData(HeaderText(e)) && EvtStep(out, HeaderText(e)) == Ok(out + [e.(competitors := [])])
  {
    ItoaClean(e.number);
    NumeralFirst(HeaderFields(e));
    AtoiItoa(e.number);
    AtoiItoa(e.round);
    AtoiItoa(e.heat);
  }

  // The events read so far once the last of them has these competitors.
  function EventsWith(out: seq<Event>, e: Event): seq<CompetitorRow> -> seq<Event> {
    (cs: seq<CompetitorRow>) => out + [e.(competitors := cs)]
  }

  lemma RowLines(out: seq<Event>, e: Event, rows: seq<CompetitorRow>)
    requires forall c <- rows :: PrintableRow(c)
    ensures Scan(EvtStep, out + [e.(competitors := [])], Texts(IndentedRow, rows))
         == Ok(out + [e.(competitors := Recover(EvtKept, EvtRecovered, rows))])
  {
    forall i | 0 <= i < |rows|
      ensures ReadsRow(EvtStep, IndentedRow, EvtKept, EvtRecovered, EventsWith(out, e), rows[i])
    {
      RowReads(out, e, rows[i]);
    }
    ScanRows(EvtStep, IndentedRow, EvtKept, EvtRecovered, EventsWith(out, e), rows);
  }

  lemma RowReads(out: seq<Event>, e: Event, c: CompetitorRow)
    requires PrintableRow(c)
    ensures ReadsRow(EvtStep, IndentedRow, EvtKept, EvtRecovered, EventsWith(out, e), c)
  {
    forall got: seq<CompetitorRow>
      ensures EvtStep(EventsWith(out, e)(got), IndentedRow(c)) == Ok(EventsWith(out, e)(got + [EvtRecovered(c)]))
    {
      RowLine(EventsWith(out, e)(got), c);
    }
    RowLine([e], c);
  }

  lemma EvtBlock(out: seq<Event>, e: Event)
    requires Printable(e)
    ensures Scan(EvtStep, out, [HeaderText(e)] + Texts(IndentedRow, e.competitors)) == Ok(out + [EvtEvent(e)])
  {
    HeaderLine(out, e);
    ScanOne(EvtStep, out, HeaderText(e));
    ScanAppend(EvtStep, out, [HeaderText(e)], Texts(IndentedRow, e.competitors));
    RowLines(out, e, e.competitors);
  }

  lemma {:induction false} EvtEvents(events: seq<Event>)
    requires forall e <- events :: Printable(e)
    ensures Scan(EvtStep, [], EvtTexts(events)) == Ok(Map(EvtEvent, events))
  {
    if events != [] {
      var n := |events| - 1;
      EvtEvents(events[..n]);
      ScanAppend(EvtStep, [], EvtTexts(events[..n]), [HeaderText(events[n])] + Texts(IndentedRow, events[n].competitors));
      EvtBlock(Map(EvtEvent, events[..n]), events[n]);
      MapLast(EvtEvent, events);
    }
  }

  lemma {:induction false} TextsClean<T>(show: T -> string, rows: seq<T>)
    requires forall i :: 0 <= i < |rows| ==> Clean(show(rows[i]))
    ensures CleanFields(Texts(show, rows))
  {
    if rows != [] { TextsClean(show, rows[..|rows| - 1]); }
  }

  lemma {:induction false} EvtTextsClean(events: seq<Event>)
    requires forall e <- events :: Printable(e)
    ensures CleanFields(EvtTexts(events))
  {
    if events != [] {
      var n := |events| - 1;
      EvtTextsClean(events[..n]);
      assert events[n] in events;
      EncodedClean(HeaderFields(events[n]));
      BlockClean(events[n].competitors);
    }
  }

  lemma BlockClean(rows: seq<CompetitorRow>)
    requires forall c <- rows :: PrintableRow(c)
    ensures CleanFields(Texts(IndentedRow, rows))
  {
    forall i | 0 <= i < |rows| ensures Clean(IndentedRow(rows[i])) {
      assert PrintableRow(rows[i]);
      EncodedClean(RowFields(rows[i]));
    }
    TextsClean(IndentedRow, rows);
  }

  // Reading back a printed start list gives the printed events, except that places are not
  // printed, competitors whose line starts with a semicolon are lost, and those without an
  // ID come back with their fields moved up by one.
  lemma EvtReadsBack(events: seq<Event>)
    requires forall e <- events :: Printable(e)
    ensures ParsedEvt(EvtFile(events)) == Ok(Map(EvtEvent, events))
  {
    Banners();
    EvtTextsClean(events);
    LinesOfWritten([EVT_BANNER] + EvtTexts(events));
    ScanOne(EvtStep, [], EVT_BANNER);
    ScanAppend(EvtStep, [], [EVT_BANNER], EvtTexts(events));
    EvtEvents(events);
  }

  // A competitor a start list carries faithfully.
  predicate EvtFaithful(c: CompetitorRow) {
    c == BLANK_ROW || (c.place == "" && c.id != "" && !Commented(c.id))
  }

  lemma RecoveredExactly(c: CompetitorRow)
    ensures EvtKept(c) && EvtRecovered(c) == c <==> EvtFaithful(c)
  {
    if c.id == "" && MovedUp(c) == c && c.lane != 0 { ItoaChars(c.lane); }
  }

  lemma EventExactly(e: Event)
    ensures EvtEvent(e) == e <==> forall c <- e.competitors :: EvtFaithful(c)
  {
    forall c ensures EvtKept(c) && EvtRecovered(c) == c <==> EvtFaithful(c) { RecoveredExactly(c); }
    RecoverExactly(EvtKept, EvtRecovered, e.competitors);
  }

  // Parsing recovers exactly what was printed if and only if every competitor is faithful:
  // no place, and either an ID that does not start a comment or nothing at all.
  lemma EvtInverseExactly(events: seq<Event>)
    requires forall e <- events :: Printable(e)
    ensures ParsedEvt(EvtFile(events)) == Ok(events)
            <==> forall i :: 0 <= i < |events| ==> forall c <- events[i].competitors :: EvtFaithful(c)
  {
    EvtReadsBack(events);
    forall i | 0 <= i < |events|
      ensures Map(EvtEvent, events)[i] == events[i] <==> forall c <- events[i].competitors :: EvtFaithful(c)
    {
      EventExactly(events[i]);
    }
    assert Map(EvtEvent, events) == events <==> forall i :: 0 <= i < |events| ==> Map(EvtEvent, events)[i] == events[i];
  }

  // A start list with one entrant without a start number.
  const UNNUMBERED: Event :=
    Event(1, 1, 1, "100m", "", "", "", "", "", "", "", "", "",
          [CompetitorRow("", "", 4, "Muster", "Ann", "LC", "", "", "", "", "", "", "", "", "", "", "", "", "")])

  // It reads back with the lane as the ID, and the first name as the last.
  lemma BlankIdMovesUp()
    ensures Printable(UNNUMBERED)
    ensures var back := ParsedEvt(EvtFile([UNNUMBERED]));
            && back != Ok([UNNUMBERED]) && back.Ok? && |back.value| == 1 && |back.value[0].competitors| == 1
            && var c := back.value[0].competitors[0];
               c.id == "4" && c.lastName == "Ann" && c.firstName == "LC"
  {
    var c := UNNUMBERED.competitors[0];
    assert Clean("100m") && Clean("Muster") && Clean("Ann") && Clean("LC") && Clean("");
    assert Itoa(1) == "1" && Itoa(4) == "4" && Clean("1") && Clean("4");
    EvtReadsBack([UNNUMBERED]);
    assert UNNUMBERED.competitors == [c] && Recover(EvtKept, EvtRecovered, [c]) == [MovedUp(c)] by {
      assert [c][..0] == [] && !Commented("") && [] + [MovedUp(c)] == [MovedUp(c)];
    }
    assert Map(EvtEvent, [UNNUMBERED]) == [EvtEvent(UNNUMBERED)];
    assert MovedUp(c).firstName == "LC" != c.firstName;
  }

  // --- Results: .lif ---

  function LifRow(c: CompetitorRow): string { EncodeFields([c.place] + RowFields(c)) }

  function LifTexts(e: Event): seq<string> { [HeaderText(e)] + Texts(LifRow, e.competitors) }

  function LifFile(e: Event): string { Written(LifTexts(e)) }

  method EncodeLIF(e: Event) returns (data: string)
    ensures data == LifFile(e)
  {
    data := EncodeRows(HeaderText(e), LifRow, e.competitors);
  }

  function LifRowFrom(fields: seq<string>): CompetitorRow {
    var f := Padded(fields, 19);
    RowFrom(f[1..]).(place := f[0])
  }

  function LifStep(state: Option<Event>, line: string): Result<Option<Event>, LynxError> {
    var fields := SplitLine(line);
    if fields.Err? then Err(BadLine(fields.error))
    else if state.None? then Ok(Some(LifHeader(fields.value)))
    else Ok(Some(state.value.(competitors := state.value.competitors + [LifRowFrom(fields.value)])))
  }

  function ParsedLif(data: string): Result<Event, LynxError> {
    var r := Scan(LifStep, None, Lines(data));
    if r.Err? then Err(r.error) else if r.value.None? then Err(NoHeader) else Ok(r.value.value)
  }

  method ParseLIF(data: string) returns (r: Result<Event, LynxError>)
    ensures r == ParsedLif(data)
  {
    var lines := Lines(data);
    var e: Option<Event> := None;
    for i := 0 to |lines|
      invariant Scan(LifStep, None, lines[..i]) == Ok(e)
    {
      ScanNext(LifStep, None, lines, i);
      if !IsData(lines[i]) {
        continue;
      }
      var fields := SplitLine(lines[i]);
      if fields.Err? {
        ScanStops(LifStep, None, lines, i + 1);
        return Err(BadLine(fields.error));
      }
      if e.None? {
        e := Some(LifHeader(fields.value));
      } else {
        e := Some(e.value.(competitors := e.value.competitors + [LifRowFrom(fields.value)]));
      }
    }
    assert lines[..|lines|] == lines;
    return if e.None? then Err(NoHeader) else Ok(e.value);
  }

  predicate LifKept(c: CompetitorRow) { !Commented(c.place) }

  function Same(c: CompetitorRow): CompetitorRow { c }

  lemma LifHeaderLine(e: Event)
    requires Printable(e)
    ensures IsData(HeaderText(e)) && LifStep(None, HeaderText(e)) == Ok(Some(e.(competitors := [])))
  {
    ItoaClean(e.number);
    ItoaClean(e.round);
    ItoaClean(e.heat);
    NumeralFirst(HeaderFields(e));
    AtoiItoa(e.number);
    AtoiItoa(e.round);
    AtoiItoa(e.heat);
  }

  lemma LifRowLine(e: Event, c: CompetitorRow)
    requires PrintableRow(c)
    ensures IsData(LifRow(c)) <==> LifKept(c)
    ensures LifStep(Some(e), LifRow(c)) == Ok(Some(e.(competitors := e.competitors + [c])))
  {
    var fields := [c.place] + RowFields(c);
    EncodedStart(fields);
    DataLine(EncodeFields(fields));
    ReadEncoded(fields);
    RowBack(c);
    assert fields[1..] == RowFields(c) && Padded(fields, 19) == fields;
  }

  function EventWith(e: Event): seq<CompetitorRow> -> Option<Event> {
    (cs: seq<CompetitorRow>) => Some(e.(competitors := cs))
  }

  lemma LifRows(e: Event, rows: seq<CompetitorRow>)
    requires forall c <- rows :: PrintableRow(c)
    ensures Scan(LifStep, Some(e.(competitors := [])), Texts(LifRow, rows))
         == Ok(Some(e.(competitors := Recover(LifKept, Same, rows))))
  {
    forall i | 0 <= i < |rows| ensures ReadsRow(LifStep, LifRow, LifKept, Same, EventWith(e), rows[i]) {
      LifRowReads(e, rows[i]);
    }
    ScanRows(LifStep, LifRow, LifKept, Same, EventWith(e), rows);
  }

  lemma LifRowReads(e: Event, c: CompetitorRow)
    requires PrintableRow(c)
    ensures ReadsRow(LifStep, LifRow, LifKept, Same, EventWith(e), c)
  {
    forall got: seq<CompetitorRow>
      ensures LifStep(EventWith(e)(got), LifRow(c)) == Ok(EventWith(e)(got + [Same(c)]))
    {
      LifRowLine(e.(competitors := got), c);
    }
    LifRowLine(e, c);
  }

  lemma LifTextsClean(e: Event)
    requires Printable(e)
    ensures CleanFields(LifTexts(e))
  {
    EncodedClean(HeaderFields(e));
    forall i | 0 <= i < |e.competitors| ensures Clean(LifRow(e.competitors[i])) {
      assert PrintableRow(e.competitors[i]);
      EncodedClean([e.competitors[i].place] + RowFields(e.competitors[i]));
    }
    TextsClean(LifRow, e.competitors);
  }

  // Reading back a printed result file gives the event with every competitor whose line is
  // not a comment, place included.
  lemma LifReadsBack(e: Event)
    requires Printable(e)
    ensures ParsedLif(LifFile(e)) == Ok(e.(competitors := Recover(LifKept, Same, e.competitors)))
  {
    LifTextsClean(e);
    LinesOfWritten(LifTexts(e));
    LifHeaderLine(e);
    ScanOne(LifStep, None, HeaderText(e));
    ScanAppend(LifStep, None, [HeaderText(e)], Texts(LifRow, e.competitors));
    LifRows(e, e.competitors);
  }

  // So parsing is the inverse of printing exactly when no place starts a comment; the places
  // this system prints are numbers, status codes or blank.
  lemma LifInverseExactly(e: Event)
    requires Printable(e)
    ensures ParsedLif(LifFile(e)) == Ok(e) <==> forall c <- e.competitors :: LifKept(c)
  {
    LifReadsBack(e);
    RecoverExactly(LifKept, Same, e.competitors);
  }

  // --- People: lynx.ppl ---

  function IdOrZero(id: string): string { if id == "" then "0" else id }

  function PersonText(p: Person): string {
    EncodeFields([IdOrZero(p.id), p.lastName, p.firstName, p.affiliation, p.license, "", "", ""])
  }

  function PplFile(people: seq<Person>): string { Written([PPL_BANNER] + Texts(PersonText, people)) }

  method EncodePPL(people: seq<Person>) returns (data: string)
    ensures data == PplFile(people)
  {
    data := EncodeRows(PPL_BANNER, PersonText, people);
  }

  function PersonFrom(fields: seq<string>): Person {
    var f := Padded(fields, 5);
    Person(f[0], f[1], f[2], f[3], f[4])
  }

  function PplStep(out: seq<Person>, line: string): Result<seq<Person>, LynxError> {
    var fields := SplitLine(line);
    if fields.Err? then Err(BadLine(fields.error)) else Ok(out + [PersonFrom(fields.value)])
  }

  function ParsedPpl(data: string): Result<seq<Person>, LynxError> { Scan(PplStep, [], Lines(data)) }

  method ParsePPL(data: string) returns (r: Result<seq<Person>, LynxError>)
    ensures r == ParsedPpl(data)
  {
    var lines := Lines(data);
    var out: seq<Person> := [];
    for i := 0 to |lines|
      invariant Scan(PplStep, [], lines[..i]) == Ok(out)
    {
      ScanNext(PplStep, [], lines, i);
      if !IsData(lines[i]) {
        continue;
      }
      var fields := SplitLine(lines[i]);
      if fields.Err? {
        ScanStops(PplStep, [], lines, i + 1);
        return Err(BadLine(fields.error));
      }
      out := out + [PersonFrom(fields.value)];
    }
    assert lines[..|lines|] == lines;
    return Ok(out);
  }

  predicate PrintablePerson(p: Person) {
    CleanFields([p.id, p.lastName, p.firstName, p.affiliation, p.license])
  }

  predicate PplKept(p: Person) { !Commented(p.id) }

  function WithId(p: Person): Person { p.(id := IdOrZero(p.id)) }

  lemma PersonLine(p: Person)
    requires PrintablePerson(p)
    ensures IsData(PersonText(p)) <==> PplKept(p)
    ensures Clean(PersonText(p)) && PersonText(p) != ""
    ensures SplitLine(PersonText(p)).Ok? && PersonFrom(SplitLine(PersonText(p)).value) == WithId(p)
  {
    var fields := [IdOrZero(p.id), p.lastName, p.firstName, p.affiliation, p.license, "", "", ""];
    assert CleanFields(fields) by {
      var given := [p.id, p.lastName, p.firstName, p.affiliation, p.license];
      assert p.id in given && p.lastName in given && p.firstName in given && p.affiliation in given && p.license in given;
    }
    EncodedStart(fields);
    EncodedClean(fields);
    DataLine(PersonText(p));
    ReadEncoded(fields);
  }

  function Themselves(): seq<Person> -> seq<Person> { (ps: seq<Person>) => ps }

  lemma PplPeople(people: seq<Person>)
    requires forall p <- people :: PrintablePerson(p)
    ensures Scan(PplStep, [], Texts(PersonText, people)) == Ok(Recover(PplKept, WithId, people))
  {
    forall i | 0 <= i < |people| ensures ReadsRow(PplStep, PersonText, PplKept, WithId, Themselves(), people[i]) {
      PersonLine(people[i]);
    }
    ScanRows(PplStep, PersonText, PplKept, WithId, Themselves(), people);
  }

  // Reading back a printed people file gives everyone whose line is not a comment, with 0
  // for a missing ID.
  lemma PplReadsBack(people: seq<Person>)
    requires forall p <- people :: PrintablePerson(p)
    ensures ParsedPpl(PplFile(people)) == Ok(Recover(PplKept, WithId, people))
  {
    Banners();
    forall i | 0 <= i < |people| ensures Clean(PersonText(people[i])) { PersonLine(people[i]); }
    TextsClean(PersonText, people);
    LinesOfWritten([PPL_BANNER] + Texts(PersonText, people));
    ScanOne(PplStep, [], PPL_BANNER);
    ScanAppend(PplStep, [], [PPL_BANNER], Texts(PersonText, people));
    PplPeople(people);
  }

  // Exactly the same people come back if and only if each has an ID that starts no comment.
  lemma PplInverseExactly(people: seq<Person>)
    requires forall p <- people :: PrintablePerson(p)
    ensures ParsedPpl(PplFile(people)) == Ok(people)
            <==> forall i :: 0 <= i < |people| ==> people[i].id != "" && !Commented(people[i].id)
  {
    PplReadsBack(people);
    RecoverExactly(PplKept, WithId, people);
  }

  // --- Which field stands where ---

  // As another program reads them: the timing numbers first, in this order, then the name, the wind
  // and what else a header has.
  lemma HeaderOrder(e: Event)
    requires CleanFields(HeaderFields(e))
    ensures SplitLine(HeaderText(e)) == Ok(
              [Itoa(e.number), Itoa(e.round), Itoa(e.heat), e.name, e.wind, e.windUnit, e.template, e.captureTime,
               e.captureDuration, e.distance, e.startTime, e.windMode, e.lapInfo])
  {
    ReadEncoded(HeaderFields(e));
  }

  // A result line: the place, then who and in which lane, then what was timed.
  lemma ResultOrder(c: CompetitorRow)
    requires Clean(c.place) && CleanFields(RowFields(c))
    ensures var lane := if c.lane == 0 then "" else Itoa(c.lane);
            SplitLine(LifRow(c)) == Ok(
              [c.place, c.id, lane, c.lastName, c.firstName, c.affiliation, c.time, c.license, c.deltaTime, c.reacTime,
               c.splits, c.timeTrialStart, c.user1, c.user2, c.user3, c.deltaTime2, c.deltaTime3, c.speed, c.pace])
  {
    ReadEncoded([c.place] + RowFields(c));
    PlaceFirst(c);
  }

  lemma PlaceFirst(c: CompetitorRow)
    ensures [c.place] + RowFields(c)
         == [c.place, c.id, if c.lane == 0 then "" else Itoa(c.lane), c.lastName, c.firstName, c.affiliation, c.time, c.license,
             c.deltaTime, c.reacTime, c.splits, c.timeTrialStart, c.user1, c.user2, c.user3, c.deltaTime2, c.deltaTime3,
             c.speed, c.pace]
  {}

  // A person: the ID or 0, the last name before the first.
  lemma PersonOrder(p: Person)
    requires CleanFields([p.id, p.lastName, p.firstName, p.affiliation, p.license])
    ensures SplitLine(PersonText(p))
         == Ok([if p.id == "" then "0" else p.id, p.lastName, p.firstName, p.affiliation, p.license, "", "", ""])
  {
    var five := [p.id, p.lastName, p.firstName, p.affiliation, p.license];
    assert p.id in five && p.lastName in five && p.firstName in five && p.affiliation in five && p.license in five;
    ReadEncoded([IdOrZero(p.id), p.lastName, p.firstName, p.affiliation, p.license, "", "", ""]);
  }
}
