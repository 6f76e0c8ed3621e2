// Points tables as data: what makes a table acceptable, and the points a mark is worth
// (internal/domain/scoring.go).
module Scoring {
  import opened Basics
  import opened Marks

  // One published row: the points for achieving a mark.
  datatype ScoringMark = ScoringMark(points: int, mark: string)

  datatype Key = Key(discipline: string, timing: string, sex: string)

  datatype Column = Column(key: Key, better: string, marks: seq<ScoringMark>)

  // A row with its mark in centi-units, and a column ready to score with.
  datatype Row = Row(points: int, centi: nat)

  datatype Compiled = Compiled(higher: bool, rows: seq<Row>)

  datatype ScoringError =
    | NoId | NoVersion | BadRounding | BadFloor | NoColumns | NoDiscipline | BadDirection | Duplicate | NoMarks
    | Unreadable(mark: MarkError) | NotMonotonic | NoSuchColumn | BadMark(why: MarkError)

  const NEXT_LOWER_POINTS := "next-lower-points"

  // --- Acceptable columns ---

  predicate IsReadable(m: ScoringMark) { CentiMark(m.mark).Ok? }

  predicate Readable(marks: seq<ScoringMark>) {
    forall m <- marks :: IsReadable(m)
  }

  function RowOf(m: ScoringMark): Row {
    Row(m.points, if CentiMark(m.mark).Ok? then CentiMark(m.mark).value else 0)
  }

  function RowsOf(marks: seq<ScoringMark>): seq<Row> { Map(RowOf, marks) }

  // A mark of x equals or beats a listed mark of y.
  predicate Reaches(higher: bool, x: nat, y: nat) { if higher then x >= y else x <= y }

  predicate Worse(higher: bool, row: Row, above: Row) {
    row.points < above.points && if higher then row.centi < above.centi else row.centi > above.centi
  }

  // Row by row, fewer points for a strictly worse mark.
  ghost predicate Falling(higher: bool, rows: seq<Row>) {
    forall i, j :: 0 <= i < j < |rows| && j == i + 1 ==> Worse(higher, rows[j], rows[i])
  }

  ghost predicate ValidColumn(c: Column) {
    && c.key.discipline != "" && (c.better == "lower" || c.better == "higher")
    && c.marks != [] && Readable(c.marks)
    && Falling(c.better == "higher", RowsOf(c.marks))
  }

  ghost predicate ValidColumns(columns: seq<Column>) {
    && (forall c <- columns :: ValidColumn(c))
    && (forall i, j :: 0 <= i < j < |columns| ==> columns[i].key != columns[j].key)
  }

  function CompiledOf(c: Column): Compiled { Compiled(c.better == "higher", RowsOf(c.marks)) }

  // The index leads from each column's key to that column's own rows, and from nothing else.
  ghost predicate Indexes(index: map<Key, Compiled>, columns: seq<Column>) {
    && index.Keys == (set c <- columns :: c.key)
    && forall c <- columns :: index[c.key] == CompiledOf(c)
  }

  method CompileRow(m: ScoringMark) returns (r: Result<Row, ScoringError>)
    ensures r.Ok? <==> IsReadable(m)
    ensures r.Ok? ==> r.value == RowOf(m)
  {
    var centi := ParseCentiMark(m.mark);
    if centi.Err? {
      return Err(Unreadable(centi.error));
    }
    return Ok(Row(m.points, centi.value));
  }

  // The rows of a readable start of the column.
  ghost predicate Compiles(marks: seq<ScoringMark>, rows: seq<Row>) {
    |rows| <= |marks| && forall i :: 0 <= i < |rows| ==> IsReadable(marks[i]) && rows[i] == RowOf(marks[i])
  }

  method CompileRows(higher: bool, marks: seq<ScoringMark>) returns (r: Result<seq<Row>, ScoringError>)
    ensures r.Ok? <==> Readable(marks) && Falling(higher, RowsOf(marks))
    ensures r.Ok? ==> r.value == RowsOf(marks)
  {
    var rows: seq<Row> := [];
    for j := 0 to |marks|
      invariant |rows| == j && Compiles(marks, rows) && Falling(higher, rows)
    {
      var row := CompileRow(marks[j]);
      if row.Err? {
        assert marks[j] in marks;
        return Err(row.error);
      }
      if j > 0 {
        var above := rows[j - 1];
        var worse := if higher then row.value.centi < above.centi else row.value.centi > above.centi;
        if row.value.points >= above.points || !worse {
          RowsBreak(higher, marks, rows, row.value);
          return Err(NotMonotonic);
        }
        assert Worse(higher, row.value, above);
      }
      NextRow(higher, marks, rows, row.value);
      rows := rows + [row.value];
    }
    AllRows(marks, rows);
    return Ok(rows);
  }

  lemma NextRow(higher: bool, marks: seq<ScoringMark>, rows: seq<Row>, row: Row)
    requires Compiles(marks, rows) && |rows| < |marks| && IsReadable(marks[|rows|]) && row == RowOf(marks[|rows|])
    requires Falling(higher, rows) && (rows != [] ==> Worse(higher, row, rows[|rows| - 1]))
    ensures Compiles(marks, rows + [row]) && Falling(higher, rows + [row])
  {
    NextFalls(higher, rows, row);
    var next := rows + [row];
    forall i | 0 <= i < |next| ensures IsReadable(marks[i]) && next[i] == RowOf(marks[i]) {
      if i < |rows| { assert next[i] == rows[i]; }
    }
  }

  lemma NextFalls(higher: bool, rows: seq<Row>, row: Row)
    requires Falling(higher, rows) && (rows != [] ==> Worse(higher, row, rows[|rows| - 1]))
    ensures Falling(higher, rows + [row])
  {}

  lemma RowsBreak(higher: bool, marks: seq<ScoringMark>, rows: seq<Row>, row: Row)
    requires Compiles(marks, rows) && rows != [] && |rows| < |marks| && row == RowOf(marks[|rows|])
    requires !Worse(higher, row, rows[|rows| - 1])
    ensures !Falling(higher, RowsOf(marks))
  {
    var n, all := |rows|, RowsOf(marks);
    assert all[n] == row && all[n - 1] == rows[n - 1];
  }

  lemma AllRows(marks: seq<ScoringMark>, rows: seq<Row>)
    requires Compiles(marks, rows) && |rows| == |marks|
    ensures rows == RowsOf(marks) && Readable(marks)
  {
    forall i | 0 <= i < |rows| ensures rows[i] == RowsOf(marks)[i] {}
  }

  method CompileColumn(c: Column, known: map<Key, Compiled>) returns (r: Result<Compiled, ScoringError>)
    ensures r.Ok? <==> ValidColumn(c) && c.key !in known
    ensures r.Ok? ==> r.value == CompiledOf(c)
  {
    if c.key.discipline == "" {
      return Err(NoDiscipline);
    }
    if c.better != "lower" && c.better != "higher" {
      return Err(BadDirection);
    }
    if c.key in known {
      return Err(Duplicate);
    }
    if c.marks == [] {
      return Err(NoMarks);
    }
    var rows := CompileRows(c.better == "higher", c.marks);
    if rows.Err? {
      return Err(rows.error);
    }
    return Ok(Compiled(c.better == "higher", rows.value));
  }

  // --- Scoring ---

  // The first row, reading down from the best, that the mark equals or beats.
  function Score(c: Compiled, centi: nat): int
    decreases |c.rows|
  {
    if c.rows == [] then 0
    else if Reaches(c.higher, centi, c.rows[0].centi) then c.rows[0].points
    else Score(c.(rows := c.rows[1..]), centi)
  }

  ghost predicate RowReached(c: Compiled, centi: nat, i: nat)
    requires i < |c.rows|
  {
    if c.higher then centi >= c.rows[i].centi else centi <= c.rows[i].centi
  }

  // The points awarded are the most points of any row equalled or beaten, and none when
  // no row is.
  lemma {:induction false} ScoreIsBestRow(c: Compiled, centi: nat)
    requires Falling(c.higher, c.rows)
    ensures forall i :: 0 <= i < |c.rows| && RowReached(c, centi, i) ==> c.rows[i].points <= Score(c, centi)
    ensures (exists i :: 0 <= i < |c.rows| && RowReached(c, centi, i) && c.rows[i].points == Score(c, centi))
         || (Score(c, centi) == 0 && forall i :: 0 <= i < |c.rows| ==> !RowReached(c, centi, i))
    decreases |c.rows|
  {
    if c.rows != [] {
      var rest := c.(rows := c.rows[1..]);
      if Reaches(c.higher, centi, c.rows[0].centi) {
        assert RowReached(c, centi, 0);
        forall i | 0 <= i < |c.rows| ensures c.rows[i].points <= c.rows[0].points { PointsFall(c, 0, i); }
      } else {
        ScoreIsBestRow(rest, centi);
        forall i | 0 <= i < |c.rows| && RowReached(c, centi, i) ensures c.rows[i].points <= Score(c, centi) {
          assert RowReached(rest, centi, i - 1);
        }
        if i :| 0 <= i < |rest.rows| && RowReached(rest, centi, i) && rest.rows[i].points == Score(rest, centi) {
          assert RowReached(c, centi, i + 1);
        } else {
          forall i | 0 <= i < |c.rows| ensures !RowReached(c, centi, i) {
            if i > 0 { assert !RowReached(rest, centi, i - 1); }
          }
        }
      }
    }
  }

  lemma {:induction false} PointsFall(c: Compiled, i: nat, j: nat)
    requires Falling(c.higher, c.rows) && i <= j < |c.rows|
    ensures c.rows[j].points <= c.rows[i].points
    ensures Reaches(c.higher, c.rows[i].centi, c.rows[j].centi)
  {
    if i < j { PointsFall(c, i, j - 1); }
  }

  // Everything from the first reached row on is reached too: what binary search relies on.
  lemma {:induction false} ScoreAt(c: Compiled, centi: nat, i: nat)
    requires Falling(c.higher, c.rows) && i <= |c.rows|
    requires i > 0 ==> !RowReached(c, centi, i - 1)
    requires i < |c.rows| ==> RowReached(c, centi, i)
    ensures Score(c, centi) == if i < |c.rows| then c.rows[i].points else 0
    decreases |c.rows|
  {
    if i > 0 {
      PointsFall(c, 0, i - 1);
      var rest := c.(rows := c.rows[1..]);
      assert forall k :: 0 <= k < |rest.rows| ==> RowReached(rest, centi, k) == RowReached(c, centi, k + 1);
      ScoreAt(rest, centi, i - 1);
    }
  }

  // Binary search for the first row reached.
  method Award(c: Compiled, centi: nat) returns (points: int)
    requires Falling(c.higher, c.rows)
    ensures points == Score(c, centi)
  {
    var i, j := 0, |c.rows|;
    while i < j
      invariant 0 <= i <= j <= |c.rows|
      invariant i > 0 ==> !RowReached(c, centi, i - 1)
      invariant j < |c.rows| ==> RowReached(c, centi, j)
    {
      var h := (i + j) / 2;
      var reached := if c.higher then c.rows[h].centi <= centi else c.rows[h].centi >= centi;
      if !reached {
        i := h + 1;
      } else {
        j := h;
      }
    }
    ScoreAt(c, centi, i);
    return if i == |c.rows| then 0 else c.rows[i].points;
  }

  // --- Better marks never cost points ---

  ghost predicate MonotoneInMark(c: Compiled) {
    forall x: nat, y: nat :: x <= MARK_LIMIT && y <= MARK_LIMIT && Reaches(c.higher, x, y) ==> Score(c, x) >= Score(c, y)
  }

  // The listed marks are parsed ones, so none exceeds the parser's limit.
  ghost predicate WithinLimit(c: Compiled) {
    c.rows != [] && forall r <- c.rows :: r.centi <= MARK_LIMIT
  }

  // No mark can be worse than the last row's.
  predicate LastRowIsWorst(c: Compiled)
    requires c.rows != []
  {
    var last := c.rows[|c.rows| - 1];
    if c.higher then last.centi == 0 else last.centi >= MARK_LIMIT
  }

  // A better mark never scores less exactly when the last row gives no negative points, or
  // covers every mark there is. Validation does not ask for either.
  lemma MonotoneExactly(c: Compiled)
    requires Falling(c.higher, c.rows) && WithinLimit(c)
    ensures MonotoneInMark(c) <==> c.rows[|c.rows| - 1].points >= 0 || LastRowIsWorst(c)
  {
    var n := |c.rows| - 1;
    var last := c.rows[n];
    assert last in c.rows;
    if last.points >= 0 || LastRowIsWorst(c) {
      forall x: nat, y: nat | x <= MARK_LIMIT && y <= MARK_LIMIT && Reaches(c.higher, x, y)
        ensures Score(c, x) >= Score(c, y)
      {
        BetterScoresMore(c, x, y);
      }
    } else {
      var worse: nat := if c.higher then 0 else MARK_LIMIT;
      assert !RowReached(c, worse, n);
      ScoreAt(c, worse, n + 1);
      assert Reaches(c.higher, last.centi, worse);
      LastRowScore(c);
      assert Score(c, last.centi) < Score(c, worse);
    }
  }

  // Every column validation accepts is one the lemma above speaks about.
  lemma ValidatedColumn(c: Column)
    requires ValidColumn(c)
    ensures Falling(CompiledOf(c).higher, CompiledOf(c).rows) && WithinLimit(CompiledOf(c))
  {
    forall i | 0 <= i < |c.marks| ensures RowsOf(c.marks)[i].centi <= MARK_LIMIT {
      assert IsReadable(c.marks[i]);
      CentiMarkBounded(c.marks[i].mark);
    }
  }

  // One point for ten metres, minus five for nine.
  function NegativeColumn(): Column {
    Column(Key("SP", "", "M"), "higher", [ScoringMark(1, FormatCentiMark(1000)), ScoringMark(-5, FormatCentiMark(900))])
  }

  // An accepted column whose last row takes points away: nine metres score less than eight.
  lemma NegativeLastRow()
    ensures ValidColumn(NegativeColumn()) && !MonotoneInMark(CompiledOf(NegativeColumn()))
    ensures Score(CompiledOf(NegativeColumn()), 900) == -5 && Score(CompiledOf(NegativeColumn()), 800) == 0
  {
    var c := CompiledOf(NegativeColumn());
    ParsePrint(1000);
    ParsePrint(900);
    assert c.rows == [Row(1, 1000), Row(-5, 900)] by {
      assert NegativeColumn().marks[1..] == [ScoringMark(-5, FormatCentiMark(900))] && NegativeColumn().marks[1..][1..] == [];
    }
    ScoreAt(c, 900, 1);
    ScoreAt(c, 800, 2);
    assert Reaches(true, 900, 800);
  }

  lemma LastRowScore(c: Compiled)
    requires Falling(c.higher, c.rows) && c.rows != []
    ensures Score(c, c.rows[|c.rows| - 1].centi) == c.rows[|c.rows| - 1].points
  {
    ScoreAt(c, c.rows[|c.rows| - 1].centi, |c.rows| - 1);
  }

  lemma FirstReached(c: Compiled, centi: nat) returns (i: nat)
    requires Falling(c.higher, c.rows)
    ensures i <= |c.rows| && (i > 0 ==> !RowReached(c, centi, i - 1)) && (i < |c.rows| ==> RowReached(c, centi, i))
  {
    i := 0;
    while i < |c.rows| && !RowReached(c, centi, i)
      invariant i <= |c.rows| && (i > 0 ==> !RowReached(c, centi, i - 1))
    {
      i := i + 1;
    }
  }

  lemma BetterScoresMore(c: Compiled, x: nat, y: nat)
    requires Falling(c.higher, c.rows) && WithinLimit(c) && x <= MARK_LIMIT && y <= MARK_LIMIT
    requires Reaches(c.higher, x, y)
    requires c.rows[|c.rows| - 1].points >= 0 || LastRowIsWorst(c)
    ensures Score(c, x) >= Score(c, y)
  {
    var i := FirstReached(c, x);
    var j := FirstReached(c, y);
    ScoreAt(c, x, i);
    ScoreAt(c, y, j);
    if j < i {
      PointsFall(c, j, i - 1);
    } else if j < |c.rows| {
      PointsFall(c, i, j);
    } else if i < |c.rows| {
      PointsFall(c, i, |c.rows| - 1);
    }
  }

  // --- The table ---

  class ScoringTable {
    const id: string
    const version: string
    const rounding: string
    const floor: int
    const columns: seq<Column>
    var index: map<Key, Compiled>

    constructor (id: string, version: string, rounding: string, floor: int, columns: seq<Column>)
      ensures this.id == id && this.version == version && this.rounding == rounding
      ensures this.floor == floor && this.columns == columns && index == map[]
    {
      this.id, this.version, this.rounding, this.floor, this.columns := id, version, rounding, floor, columns;
      index := map[];
    }

    ghost predicate Acceptable() {
      && id != "" && version != "" && rounding == NEXT_LOWER_POINTS && floor >= 0
      && columns != [] && ValidColumns(columns)
    }

    ghost predicate Valid()
      reads this
    {
      Acceptable() && Indexes(index, columns)
    }

    method Validate() returns (r: Result<(), ScoringError>)
      modifies this
      ensures r.Ok? <==> Acceptable()
      ensures r.Ok? ==> Valid()
    {
      if id == "" {
        return Err(NoId);
      }
      if version == "" {
        return Err(NoVersion);
      }
      if rounding != NEXT_LOWER_POINTS {
        return Err(BadRounding);
      }
      if floor < 0 {
        return Err(BadFloor);
      }
      if columns == [] {
        return Err(NoColumns);
      }
      index := map[];
      for i := 0 to |columns|
        invariant ValidColumns(columns[..i]) && Indexes(index, columns[..i])
      {
        var c := CompileColumn(columns[i], index);
        if c.Err? {
          assert columns[i] in columns;
          return Err(c.error);
        }
        ExtendIndex(index, columns, i);
        index := index[columns[i].key := c.value];
      }
      assert columns[..|columns|] == columns;
      return Ok(());
    }

    // The points of a mark, or why it has none: no such column, or an unreadable mark.
    method Points(key: Key, mark: string) returns (r: Result<int, ScoringError>)
      requires Valid()
      ensures r.Ok? <==> (exists i :: 0 <= i < |columns| && columns[i].key == key) && CentiMark(mark).Ok?
      ensures r.Ok? ==> forall c <- columns :: c.key == key ==>
                r.value == Score(CompiledOf(c), CentiMark(mark).value)
    {
      if key !in index {
        return Err(NoSuchColumn);
      }
      var centi := ParseCentiMark(mark);
      if centi.Err? {
        return Err(BadMark(centi.error));
      }
      assert index[key].rows != [] && Falling(index[key].higher, index[key].rows) by {
        var i :| 0 <= i < |columns| && columns[i].key == key;
        assert columns[i] in columns && ValidColumn(columns[i]);
      }
      var points := Award(index[key], centi.value);
      return Ok(points);
    }
  }

  lemma ExtendIndex(index: map<Key, Compiled>, columns: seq<Column>, i: nat)
    requires i < |columns| && ValidColumns(columns[..i]) && Indexes(index, columns[..i])
    requires ValidColumn(columns[i]) && columns[i].key !in index
    ensures ValidColumns(columns[..i + 1])
    ensures Indexes(index[columns[i].key := CompiledOf(columns[i])], columns[..i + 1])
  {
    var c, before := columns[i], columns[..i];
    assert columns[..i + 1] == before + [c];
    forall j | 0 <= j < i ensures before[j].key != c.key {
      assert before[j] in before;
    }
  }
}
