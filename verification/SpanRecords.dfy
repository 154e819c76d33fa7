/** What a sheet holds after any blocks: its values, its order flag, and the coordinates recorded twice. */
module SpanRecords {
  import opened Wrappers
  import opened SpanPlacement
  import opened SpanOrder
  import opened SpanInversion

  /** A coordinate and the text recorded there. */
  type Rec = (Coordinate, string)

  function RecordedAll(s: Sheet, recs: seq<Rec>): Sheet
    decreases |recs|
  {
    if recs == [] then s else RecordedAll(Recorded(s, recs[0].0, recs[0].1), recs[1..])
  }

  lemma {:induction false} RecordedJoin(s: Sheet, a: seq<Rec>, b: seq<Rec>)
    ensures RecordedAll(s, a + b) == RecordedAll(RecordedAll(s, a), b)
    decreases |a|
  {
    if a == [] {
      assert a + b == b;
    } else {
      assert (a + b)[1..] == a[1..] + b;
      RecordedJoin(Recorded(s, a[0].0, a[0].1), a[1..], b);
    }
  }

  // ---- what recording does ----

  predicate HasText(recs: seq<Rec>, at: Coordinate) {
    exists i | 0 <= i < |recs| :: recs[i].0 == at && recs[i].1 != ""
  }

  /** The text of entry `i` is the last one recorded at its coordinate; empty texts do not count. */
  predicate Latest(recs: seq<Rec>, i: nat)
    requires i < |recs|
  {
    recs[i].1 != "" && forall j | i < j < |recs| :: recs[j].0 == recs[i].0 ==> recs[j].1 == ""
  }

  /** `values` holds at each coordinate the last text recorded there, and otherwise what `before` held. */
  ghost predicate HoldsLatest(values: map<Coordinate, string>, before: map<Coordinate, string>, recs: seq<Rec>) {
    && (forall at :: at in values <==> at in before || HasText(recs, at))
    && (forall at | at in before && !HasText(recs, at) :: values[at] == before[at])
    && (forall i: nat | i < |recs| && Latest(recs, i) :: recs[i].0 in values && values[recs[i].0] == recs[i].1)
  }

  lemma FirstText(recs: seq<Rec>, at: Coordinate)
    requires recs != []
    ensures HasText(recs, at) <==> (recs[0].0 == at && recs[0].1 != "") || HasText(recs[1..], at)
  {
    assert forall i | 0 < i < |recs| :: recs[i] == recs[1..][i - 1];
  }

  lemma {:induction false} ValuesRecorded(s: Sheet, recs: seq<Rec>)
    ensures HoldsLatest(RecordedAll(s, recs).values, s.values, recs)
    decreases |recs|
  {
    if recs != [] {
      var t, rest := Recorded(s, recs[0].0, recs[0].1), recs[1..];
      ValuesRecorded(t, rest);
      forall at
        ensures HasText(recs, at) <==> (recs[0].0 == at && recs[0].1 != "") || HasText(rest, at)
      {
        FirstText(recs, at);
      }
      LatestHeld(s, recs, RecordedAll(s, recs).values);
    }
  }

  lemma LatestHeld(s: Sheet, recs: seq<Rec>, values: map<Coordinate, string>)
    requires recs != [] && HoldsLatest(values, Recorded(s, recs[0].0, recs[0].1).values, recs[1..])
    ensures forall i: nat | i < |recs| && Latest(recs, i) :: recs[i].0 in values && values[recs[i].0] == recs[i].1
  {
    var rest := recs[1..];
    forall i: nat | i < |recs| && Latest(recs, i)
      ensures recs[i].0 in values && values[recs[i].0] == recs[i].1
    {
      if i == 0 {
        assert forall j | 0 <= j < |rest| :: rest[j] == recs[j + 1];
        assert !HasText(rest, recs[0].0);
      } else {
        assert forall j | 0 <= j < |rest| :: rest[j] == recs[j + 1];
        assert rest[i - 1] == recs[i] && Latest(rest, i - 1);
      }
    }
  }

  predicate IncreasingRecs(recs: seq<Rec>) {
    forall i, j | 0 <= i < j < |recs| :: Less(recs[i].0, recs[j].0)
  }

  predicate RecsAfter(last: Option<Coordinate>, recs: seq<Rec>) {
    last.Some? ==> forall i | 0 <= i < |recs| :: Less(last.value, recs[i].0)
  }

  /** The order flag stays set exactly when all coordinates increase strictly. */
  lemma {:induction false} OrderRecorded(s: Sheet, recs: seq<Rec>)
    ensures RecordedAll(s, recs).coordinateOrder <==> s.coordinateOrder && IncreasingRecs(recs) && RecsAfter(s.last, recs)
    decreases |recs|
  {
    if recs != [] {
      var rest := recs[1..];
      OrderRecorded(Recorded(s, recs[0].0, recs[0].1), rest);
      IncreasingFirst(recs);
      assert RecsAfter(s.last, recs) ==> s.last.None? || Less(s.last.value, recs[0].0);
      assert forall i | 0 < i < |recs| :: recs[i] == rest[i - 1];
    }
  }

  lemma IncreasingFirst(recs: seq<Rec>)
    requires recs != []
    ensures IncreasingRecs(recs) <==> IncreasingRecs(recs[1..]) && RecsAfter(Some(recs[0].0), recs[1..])
  {
    var rest := recs[1..];
    assert forall i | 0 < i < |recs| :: recs[i] == rest[i - 1];
    assert forall i | 0 <= i < |rest| :: rest[i] == recs[i + 1];
  }

  /** How often `at` is recorded. */
  function Times(recs: seq<Rec>, at: Coordinate): nat {
    if recs == [] then 0 else (if recs[0].0 == at then 1 else 0) + Times(recs[1..], at)
  }

  /** A coordinate is reported once for every time it is recorded after the first. */
  lemma {:induction false} DuplicatesRecorded(s: Sheet, recs: seq<Rec>, at: Coordinate)
    ensures multiset(RecordedAll(s, recs).duplicates)[at]
         == multiset(s.duplicates)[at] + if at in s.seen || Times(recs, at) == 0 then Times(recs, at) else Times(recs, at) - 1
    ensures at in RecordedAll(s, recs).seen <==> at in s.seen || Times(recs, at) > 0
    decreases |recs|
  {
    if recs != [] {
      DuplicatesRecorded(Recorded(s, recs[0].0, recs[0].1), recs[1..], at);
    }
  }

  lemma {:induction false} TimesJoin(a: seq<Rec>, b: seq<Rec>, at: Coordinate)
    ensures Times(a + b, at) == Times(a, at) + Times(b, at)
  {
    if a == [] {
      assert a + b == b;
    } else {
      assert (a + b)[1..] == a[1..] + b;
      TimesJoin(a[1..], b, at);
    }
  }

  predicate Recs(recs: seq<Rec>, at: Coordinate) {
    exists i | 0 <= i < |recs| :: recs[i].0 == at
  }

  lemma {:induction false} TimesOnce(recs: seq<Rec>, at: Coordinate)
    requires IncreasingRecs(recs)
    ensures Times(recs, at) == if Recs(recs, at) then 1 else 0
    decreases |recs|
  {
    if recs != [] {
      var rest := recs[1..];
      assert forall i | 0 < i < |recs| :: recs[i] == rest[i - 1];
      assert forall i | 0 <= i < |rest| :: rest[i] == recs[i + 1];
      TimesOnce(rest, at);
    }
  }

  // ---- placements and lines as recordings ----

  function RecsOf(ps: seq<Placement>): (recs: seq<Rec>)
    ensures |recs| == |ps| && forall i | 0 <= i < |ps| :: recs[i] == (ps[i].at, ps[i].cell.text)
  {
    seq(|ps|, i requires 0 <= i < |ps| => (ps[i].at, ps[i].cell.text))
  }

  /** A sheet apart from its shape, its merged ranges and where its cells say they come from. */
  function Core(s: Sheet): Sheet {
    s.(rows := 0, columns := 0, merges := [], provenanceOrder := true)
  }

  lemma {:induction false} RecordedCore(s: Sheet, t: Sheet, recs: seq<Rec>)
    requires Core(s) == Core(t)
    ensures Core(RecordedAll(s, recs)) == Core(RecordedAll(t, recs))
    decreases |recs|
  {
    if recs != [] {
      RecordedCore(Recorded(s, recs[0].0, recs[0].1), Recorded(t, recs[0].0, recs[0].1), recs[1..]);
    }
  }

  lemma {:induction false} PlacedCore(s: Sheet, ps: seq<Placement>)
    ensures Core(PlacedAll(s, ps)) == Core(RecordedAll(s, RecsOf(ps)))
    decreases |ps|
  {
    if ps != [] {
      var t := Recorded(s, ps[0].at, ps[0].cell.text);
      PlacedCore(Placed(s, ps[0]), ps[1..]);
      RecordedCore(Placed(s, ps[0]), t, RecsOf(ps[1..]));
      assert RecsOf(ps)[1..] == RecsOf(ps[1..]);
    }
  }

  function FieldRecs(row: nat, column: nat, fields: seq<string>): (recs: seq<Rec>)
    ensures |recs| == |fields| && forall j | 0 <= j < |fields| :: recs[j] == ((row, column + j), fields[j])
  {
    seq(|fields|, j requires 0 <= j < |fields| => ((row, column + j), fields[j]))
  }

  lemma {:induction false} FieldsRecordedAll(s: Sheet, row: nat, column: nat, fields: seq<string>)
    ensures FieldsRecorded(s, row, column, fields) == RecordedAll(s, FieldRecs(row, column, fields))
    decreases |fields|
  {
    if fields != [] {
      FieldsRecordedAll(Recorded(s, (row, column), fields[0]), row, column + 1, fields[1..]);
      assert FieldRecs(row, column, fields)[1..] == FieldRecs(row, column + 1, fields[1..]);
    }
  }

  function LineRecs(row: nat, lines: seq<seq<string>>): seq<Rec>
    decreases |lines|
  {
    if lines == [] then [] else FieldRecs(row, 0, lines[0]) + LineRecs(row + 1, lines[1..])
  }

  lemma {:induction false} LinesRecordedAll(s: Sheet, row: nat, lines: seq<seq<string>>)
    ensures Core(LinesRecorded(s, row, lines)) == Core(RecordedAll(s, LineRecs(row, lines)))
    decreases |lines|
  {
    if lines != [] {
      var t, rest := FieldsRecorded(s, row, 0, lines[0]), LineRecs(row + 1, lines[1..]);
      var u := t.(columns := Max(t.columns, |lines[0]|));
      FieldsRecordedAll(s, row, 0, lines[0]);
      LinesRecordedAll(u, row + 1, lines[1..]);
      RecordedCore(u, t, rest);
      RecordedJoin(s, FieldRecs(row, 0, lines[0]), rest);
    }
  }

  /** Everything recorded for the blocks, in order; blocks of lines go on with the rows of those before. */
  function BlockRecs(paged: nat, blocks: seq<Block>): seq<Rec>
    decreases |blocks|
  {
    if blocks == [] then []
    else
      match blocks[0]
      case Table(rows) => RecsOf(Placements(map[], 0, rows)) + BlockRecs(paged, blocks[1..])
      case Lines(lines) => LineRecs(paged, lines) + BlockRecs(paged + |lines|, blocks[1..])
      case Other => BlockRecs(paged, blocks[1..])
  }

  lemma TableCore(s: Sheet, rows: seq<seq<Cell>>)
    ensures Core(TablePlaced(s, map[], 0, rows)) == Core(RecordedAll(s, RecsOf(Placements(map[], 0, rows))))
  {
    TableContent(s, map[], 0, rows);
    PlacedCore(s, Placements(map[], 0, rows));
  }

  lemma GoesOn(s: Sheet, t: Sheet, first: seq<Rec>, rest: seq<Rec>)
    requires Core(t) == Core(RecordedAll(s, first))
    ensures Core(RecordedAll(t, rest)) == Core(RecordedAll(s, first + rest))
  {
    RecordedCore(t, RecordedAll(s, first), rest);
    RecordedJoin(s, first, rest);
  }

  lemma {:induction false} BlocksCore(s: Sheet, paged: nat, blocks: seq<Block>)
    ensures Core(BlocksRecorded(s, paged, blocks)) == Core(RecordedAll(s, BlockRecs(paged, blocks)))
    decreases |blocks|
  {
    if blocks != [] {
      match blocks[0]
      case Table(rows) =>
        var t := TablePlaced(s, map[], 0, rows);
        TableCore(s, rows);
        BlocksCore(t, paged, blocks[1..]);
        GoesOn(s, t, RecsOf(Placements(map[], 0, rows)), BlockRecs(paged, blocks[1..]));
      case Lines(lines) =>
        var u := LinesRecorded(s, paged, lines);
        var t := u.(rows := Max(u.rows, paged + |lines|));
        LinesRecordedAll(s, paged, lines);
        BlocksCore(t, paged + |lines|, blocks[1..]);
        GoesOn(s, t, LineRecs(paged, lines), BlockRecs(paged + |lines|, blocks[1..]));
      case Other => BlocksCore(s, paged, blocks[1..]);
    }
  }

  /** After any blocks, tables and lines in any order, a sheet holds the last text of each coordinate; its order
      flag is set exactly when all coordinates increased strictly; and it reports each coordinate as often as it
      was recorded again. */
  lemma BlocksHold(blocks: seq<Block>, merges: seq<Range>)
    ensures var sheet, recs := BlocksRecorded(Fresh(merges), 0, blocks), BlockRecs(0, blocks);
      && HoldsLatest(sheet.values, map[], recs)
      && (sheet.coordinateOrder <==> IncreasingRecs(recs))
      && (forall at :: multiset(sheet.duplicates)[at] == if Times(recs, at) == 0 then 0 else Times(recs, at) - 1)
  {
    var sheet, recs := BlocksRecorded(Fresh(merges), 0, blocks), BlockRecs(0, blocks);
    BlocksCore(Fresh(merges), 0, blocks);
    ValuesRecorded(Fresh(merges), recs);
    OrderRecorded(Fresh(merges), recs);
    var all := RecordedAll(Fresh(merges), recs);
    assert Core(sheet).values == Core(all).values && Core(sheet).duplicates == Core(all).duplicates;
    assert Core(sheet).coordinateOrder == Core(all).coordinateOrder;
    forall at
      ensures multiset(sheet.duplicates)[at] == if Times(recs, at) == 0 then 0 else Times(recs, at) - 1
    {
      DuplicatesRecorded(Fresh(merges), recs, at);
    }
  }

  // ---- lines ----

  /** The lines of all blocks, one block after another. */
  function AllLines(blocks: seq<Block>): seq<seq<string>> {
    if blocks == [] then []
    else (if blocks[0].Lines? then blocks[0].lines else []) + AllLines(blocks[1..])
  }

  predicate NoTable(blocks: seq<Block>) {
    forall i | 0 <= i < |blocks| :: !blocks[i].Table?
  }

  lemma {:induction false} LineRecsJoin(row: nat, a: seq<seq<string>>, b: seq<seq<string>>)
    ensures LineRecs(row, a + b) == LineRecs(row, a) + LineRecs(row + |a|, b)
    decreases |a|
  {
    if a == [] {
      assert a + b == b;
    } else {
      assert (a + b)[1..] == a[1..] + b;
      LineRecsJoin(row + 1, a[1..], b);
      assert FieldRecs(row, 0, a[0]) + (LineRecs(row + 1, a[1..]) + LineRecs(row + |a|, b))
          == FieldRecs(row, 0, a[0]) + LineRecs(row + 1, a[1..]) + LineRecs(row + |a|, b);
    }
  }

  lemma {:induction false} LinesOnly(paged: nat, blocks: seq<Block>)
    requires NoTable(blocks)
    ensures BlockRecs(paged, blocks) == LineRecs(paged, AllLines(blocks))
    decreases |blocks|
  {
    if blocks != [] {
      assert forall i | 0 <= i < |blocks[1..]| :: blocks[1..][i] == blocks[i + 1];
      match blocks[0]
      case Lines(lines) =>
        LinesOnly(paged + |lines|, blocks[1..]);
        LineRecsJoin(paged, lines, AllLines(blocks[1..]));
      case Other =>
        LinesOnly(paged, blocks[1..]);
        assert [] + AllLines(blocks[1..]) == AllLines(blocks[1..]);
    }
  }

  /** `at` is a field of the lines, the first of which is line `row`. */
  predicate FieldAt(row: nat, lines: seq<seq<string>>, at: Coordinate) {
    row <= at.0 < row + |lines| && 0 <= at.1 < |lines[at.0 - row]|
  }

  /** The recordings of lines are their fields, in order. */
  lemma {:induction false} LineRecsAre(row: nat, lines: seq<seq<string>>)
    ensures IncreasingRecs(LineRecs(row, lines))
    ensures forall i | 0 <= i < |LineRecs(row, lines)| ::
      var rec := LineRecs(row, lines)[i];
      FieldAt(row, lines, rec.0) && rec.1 == lines[rec.0.0 - row][rec.0.1]
    ensures forall at | FieldAt(row, lines, at) :: Recs(LineRecs(row, lines), at)
    decreases |lines|
  {
    if lines != [] {
      var first, rest := FieldRecs(row, 0, lines[0]), LineRecs(row + 1, lines[1..]);
      LineRecsAre(row + 1, lines[1..]);
      FirstLine(row, lines, first, rest);
    }
  }

  lemma FirstLine(row: nat, lines: seq<seq<string>>, first: seq<Rec>, rest: seq<Rec>)
    requires lines != [] && first == FieldRecs(row, 0, lines[0]) && IncreasingRecs(rest)
    requires forall i | 0 <= i < |rest| ::
      FieldAt(row + 1, lines[1..], rest[i].0) && rest[i].1 == lines[1..][rest[i].0.0 - row - 1][rest[i].0.1]
    requires forall at | FieldAt(row + 1, lines[1..], at) :: Recs(rest, at)
    ensures IncreasingRecs(first + rest)
    ensures forall i | 0 <= i < |first + rest| ::
      var rec := (first + rest)[i];
      FieldAt(row, lines, rec.0) && rec.1 == lines[rec.0.0 - row][rec.0.1]
    ensures forall at | FieldAt(row, lines, at) :: Recs(first + rest, at)
  {
    var all := first + rest;
    assert forall k | 1 <= k < |lines| :: lines[1..][k - 1] == lines[k];
    forall at | FieldAt(row, lines, at)
      ensures Recs(all, at)
    {
      if at.0 == row {
        assert all[at.1] == first[at.1] && first[at.1].0 == at;
      } else {
        assert FieldAt(row + 1, lines[1..], at) && Recs(rest, at);
        var i :| 0 <= i < |rest| && rest[i].0 == at;
        assert all[|first| + i].0 == at;
      }
    }
  }

  /** The width of `lines` is that of the longest. */
  predicate Widest(columns: int, lines: seq<seq<string>>) {
    && columns >= 0 && (forall i | 0 <= i < |lines| :: |lines[i]| <= columns)
    && (columns == 0 || exists i | 0 <= i < |lines| :: |lines[i]| == columns)
  }

  /** What lines do to the shape and to what only tables change. */
  predicate Widened(s: Sheet, t: Sheet, lines: seq<seq<string>>) {
    && t.merges == s.merges && t.provenanceOrder == s.provenanceOrder
    && s.columns <= t.columns && (forall i | 0 <= i < |lines| :: |lines[i]| <= t.columns)
    && (t.columns == s.columns || exists i | 0 <= i < |lines| :: |lines[i]| == t.columns)
  }

  lemma {:induction false} FieldsShape(s: Sheet, row: nat, column: nat, fields: seq<string>)
    ensures var t := FieldsRecorded(s, row, column, fields);
      t.merges == s.merges && t.provenanceOrder == s.provenanceOrder && t.rows == s.rows && t.columns == s.columns
    decreases |fields|
  {
    if fields != [] {
      FieldsShape(Recorded(s, (row, column), fields[0]), row, column + 1, fields[1..]);
    }
  }

  lemma {:induction false} LinesShape(s: Sheet, row: nat, lines: seq<seq<string>>)
    ensures Widened(s, LinesRecorded(s, row, lines), lines) && LinesRecorded(s, row, lines).rows == s.rows
    decreases |lines|
  {
    if lines != [] {
      var t := FieldsRecorded(s, row, 0, lines[0]);
      FieldsShape(s, row, 0, lines[0]);
      LinesShape(t.(columns := Max(t.columns, |lines[0]|)), row + 1, lines[1..]);
      assert forall k | 1 <= k < |lines| :: lines[1..][k - 1] == lines[k];
      assert forall k | 0 <= k < |lines[1..]| :: lines[1..][k] == lines[k + 1];
    }
  }

  lemma WidenedJoin(s: Sheet, t: Sheet, u: Sheet, a: seq<seq<string>>, b: seq<seq<string>>)
    requires Widened(s, t, a) && Widened(t, u, b)
    ensures Widened(s, u, a + b)
  {
    var all := a + b;
    assert forall i | 0 <= i < |a| :: all[i] == a[i];
    assert forall i | 0 <= i < |b| :: all[|a| + i] == b[i];
  }

  lemma {:induction false} LinesOnlyShape(s: Sheet, paged: nat, blocks: seq<Block>)
    requires NoTable(blocks) && s.rows == paged
    ensures var t := BlocksRecorded(s, paged, blocks);
      Widened(s, t, AllLines(blocks)) && t.rows == paged + |AllLines(blocks)|
    decreases |blocks|
  {
    if blocks != [] {
      assert forall i | 0 <= i < |blocks[1..]| :: blocks[1..][i] == blocks[i + 1];
      match blocks[0]
      case Lines(lines) =>
        var u := LinesRecorded(s, paged, lines);
        var t := u.(rows := Max(u.rows, paged + |lines|));
        LinesShape(s, paged, lines);
        LinesOnlyShape(t, paged + |lines|, blocks[1..]);
        WidenedJoin(s, t, BlocksRecorded(t, paged + |lines|, blocks[1..]), lines, AllLines(blocks[1..]));
      case Other =>
        LinesOnlyShape(s, paged, blocks[1..]);
        assert [] + AllLines(blocks[1..]) == AllLines(blocks[1..]);
    }
  }

  /** The values are the fields that are not empty, each in the row of its line and the column of its place. */
  ghost predicate ValuesAreFields(values: map<Coordinate, string>, lines: seq<seq<string>>) {
    forall at ::
      && (at in values <==> FieldAt(0, lines, at) && lines[at.0][at.1] != "")
      && (at in values ==> values[at] == lines[at.0][at.1])
  }

  lemma FieldValues(values: map<Coordinate, string>, lines: seq<seq<string>>, recs: seq<Rec>)
    requires HoldsLatest(values, map[], recs) && IncreasingRecs(recs)
    requires forall i | 0 <= i < |recs| :: FieldAt(0, lines, recs[i].0) && recs[i].1 == lines[recs[i].0.0][recs[i].0.1]
    requires forall at | FieldAt(0, lines, at) :: Recs(recs, at)
    ensures ValuesAreFields(values, lines)
  {
    forall at
      ensures at in values <==> FieldAt(0, lines, at) && lines[at.0][at.1] != ""
      ensures at in values ==> values[at] == lines[at.0][at.1]
    {
      if FieldAt(0, lines, at) && lines[at.0][at.1] != "" {
        assert Recs(recs, at);
        var i: nat :| i < |recs| && recs[i].0 == at;
        assert Latest(recs, i);
      }
    }
  }

  /** Without tables the sheet is the lines of all blocks, one after another: its values are their fields, it has as
      many rows as there are lines and as many columns as the longest has fields, all in order, none twice. */
  lemma LinesAlone(blocks: seq<Block>, merges: seq<Range>)
    requires NoTable(blocks)
    ensures var sheet, lines := BlocksRecorded(Fresh(merges), 0, blocks), AllLines(blocks);
      && ValuesAreFields(sheet.values, lines)
      && sheet.rows == |lines| && Widest(sheet.columns, lines)
      && sheet.coordinateOrder && sheet.duplicates == []
      && sheet.merges == merges && sheet.provenanceOrder
  {
    var sheet, lines := BlocksRecorded(Fresh(merges), 0, blocks), AllLines(blocks);
    var recs := LineRecs(0, lines);
    LinesOnly(0, blocks);
    LineRecsAre(0, lines);
    BlocksHold(blocks, merges);
    FieldValues(sheet.values, lines, recs);
    LinesOnlyShape(Fresh(merges), 0, blocks);
    forall at
      ensures multiset(sheet.duplicates)[at] == 0
    {
      TimesOnce(recs, at);
    }
    NoneLeft(sheet.duplicates);
  }

  lemma NoneLeft<T>(s: seq<T>)
    requires forall x :: multiset(s)[x] == 0
    ensures s == []
  {
    assert s == [] || multiset(s)[s[0]] > 0;
  }

  // ---- where cells say they come from, and merged ranges ----

  /** The cells of all tables, in order. */
  function AllCells(blocks: seq<Block>): seq<Placement> {
    if blocks == [] then []
    else (if blocks[0].Table? then Placements(map[], 0, blocks[0].rows) else []) + AllCells(blocks[1..])
  }

  lemma TableTells(s: Sheet, rows: seq<seq<Cell>>)
    ensures var t, ps := TablePlaced(s, map[], 0, rows), Placements(map[], 0, rows);
      && (t.provenanceOrder <==> s.provenanceOrder && AllTold(ps)) && t.merges == s.merges + MergesOf(ps)
  {
    var t, ps := TablePlaced(s, map[], 0, rows), Placements(map[], 0, rows);
    TableContent(s, map[], 0, rows);
    ProvenanceChecked(s, ps);
    MergesRecorded(s, ps);
    assert t.merges == Content(t).merges && t.provenanceOrder == Content(t).provenanceOrder;
  }

  lemma CellsJoin(ps: seq<Placement>, qs: seq<Placement>)
    ensures AllTold(ps + qs) <==> AllTold(ps) && AllTold(qs)
  {
    var all := ps + qs;
    assert forall i | 0 <= i < |ps| :: all[i] == ps[i];
    assert forall i | 0 <= i < |qs| :: all[|ps| + i] == qs[i];
  }

  lemma {:induction false} MergesJoin(ps: seq<Placement>, qs: seq<Placement>)
    ensures MergesOf(ps + qs) == MergesOf(ps) + MergesOf(qs)
  {
    if ps == [] {
      assert ps + qs == qs;
    } else {
      assert (ps + qs)[1..] == ps[1..] + qs;
      MergesJoin(ps[1..], qs);
    }
  }

  lemma {:induction false} CellsFrom(s: Sheet, paged: nat, blocks: seq<Block>)
    ensures BlocksRecorded(s, paged, blocks).provenanceOrder <==> s.provenanceOrder && AllTold(AllCells(blocks))
    ensures BlocksRecorded(s, paged, blocks).merges == s.merges + MergesOf(AllCells(blocks))
    decreases |blocks|
  {
    if blocks != [] {
      match blocks[0]
      case Table(rows) =>
        var ps := Placements(map[], 0, rows);
        var t := TablePlaced(s, map[], 0, rows);
        TableTells(s, rows);
        CellsFrom(t, paged, blocks[1..]);
        CellsJoin(ps, AllCells(blocks[1..]));
        MergesJoin(ps, AllCells(blocks[1..]));
      case Lines(lines) =>
        var u := LinesRecorded(s, paged, lines);
        LinesShape(s, paged, lines);
        CellsFrom(u.(rows := Max(u.rows, paged + |lines|)), paged + |lines|, blocks[1..]);
        assert [] + AllCells(blocks[1..]) == AllCells(blocks[1..]);
      case Other =>
        CellsFrom(s, paged, blocks[1..]);
        assert [] + AllCells(blocks[1..]) == AllCells(blocks[1..]);
    }
  }

  /** The provenance flag is set exactly when every placed cell that says where it comes from was placed there; the
      merged ranges are the given ones, then those of the placed cells with spans. */
  lemma CellsTell(blocks: seq<Block>, merges: seq<Range>)
    ensures var sheet, cells := BlocksRecorded(Fresh(merges), 0, blocks), AllCells(blocks);
      && (sheet.provenanceOrder <==>
            forall i | 0 <= i < |cells| && cells[i].cell.provenance.Some? :: cells[i].cell.provenance.value == cells[i].at)
      && sheet.merges == merges + MergesOf(cells)
  {
    CellsFrom(Fresh(merges), 0, blocks);
  }

  // ---- lines after a table ----

  predicate IsPlaced(ps: seq<Placement>, at: Coordinate) {
    exists i | 0 <= i < |ps| :: ps[i].at == at
  }

  lemma TableRecs(rows: seq<seq<Cell>>, at: Coordinate)
    requires AllAdvance(rows)
    ensures IncreasingRecs(RecsOf(Placements(map[], 0, rows)))
    ensures Times(RecsOf(Placements(map[], 0, rows)), at) == if IsPlaced(Placements(map[], 0, rows), at) then 1 else 0
  {
    var ps := Placements(map[], 0, rows);
    TableOrder(map[], 0, rows);
    TimesOnce(RecsOf(ps), at);
    if IsPlaced(ps, at) {
      var i :| 0 <= i < |ps| && ps[i].at == at;
      assert RecsOf(ps)[i].0 == at;
    }
  }

  lemma TableThenLines(rows: seq<seq<Cell>>, lines: seq<seq<string>>)
    ensures BlockRecs(0, [Table(rows), Lines(lines)]) == RecsOf(Placements(map[], 0, rows)) + LineRecs(0, lines)
  {
    var blocks: seq<Block> := [Table(rows), Lines(lines)];
    assert blocks[1..] == [Lines(lines)] && blocks[1..][1..] == [];
    assert BlockRecs(|lines|, []) == [];
    assert BlockRecs(0, blocks[1..]) == LineRecs(0, lines) + [];
  }

  /** Splitting a line at tabs gives at least one field. */
  predicate Split(lines: seq<seq<string>>) {
    forall i | 0 <= i < |lines| :: lines[i] != []
  }

  /** Lines after a table start over at the first row: a coordinate is reported, once, exactly when it is both a
      placed cell and a field; the values of fields that are not empty win; and the order is broken as soon as
      there are both a cell and a line. */
  lemma LinesAfterTable(rows: seq<seq<Cell>>, lines: seq<seq<string>>, merges: seq<Range>)
    requires AllAdvance(rows) && Split(lines)
    ensures var sheet, ps := BlocksRecorded(Fresh(merges), 0, [Table(rows), Lines(lines)]), Placements(map[], 0, rows);
      && (forall at :: multiset(sheet.duplicates)[at] == if IsPlaced(ps, at) && FieldAt(0, lines, at) then 1 else 0)
      && (forall at | FieldAt(0, lines, at) && lines[at.0][at.1] != "" :: at in sheet.values && sheet.values[at] == lines[at.0][at.1])
      && (sheet.coordinateOrder <==> ps == [] || lines == [])
  {
    var ps, recs, blocks := Placements(map[], 0, rows), LineRecs(0, lines), [Table(rows), Lines(lines)];
    var all, sheet := RecsOf(ps) + recs, BlocksRecorded(Fresh(merges), 0, blocks);
    TableThenLines(rows, lines);
    BlocksHold(blocks, merges);
    LineRecsAre(0, lines);
    forall at
      ensures multiset(sheet.duplicates)[at] == if IsPlaced(ps, at) && FieldAt(0, lines, at) then 1 else 0
    {
      TableRecs(rows, at);
      TimesOnce(recs, at);
      TimesJoin(RecsOf(ps), recs, at);
    }
    TextsWin(RecsOf(ps), recs, lines, sheet.values);
    OrderBreaks(rows, lines);
  }

  lemma TextsWin(first: seq<Rec>, recs: seq<Rec>, lines: seq<seq<string>>, values: map<Coordinate, string>)
    requires HoldsLatest(values, map[], first + recs) && IncreasingRecs(recs)
    requires forall i | 0 <= i < |recs| :: FieldAt(0, lines, recs[i].0) && recs[i].1 == lines[recs[i].0.0][recs[i].0.1]
    requires forall at | FieldAt(0, lines, at) :: Recs(recs, at)
    ensures forall at | FieldAt(0, lines, at) && lines[at.0][at.1] != "" :: at in values && values[at] == lines[at.0][at.1]
  {
    forall at | FieldAt(0, lines, at) && lines[at.0][at.1] != ""
      ensures at in values && values[at] == lines[at.0][at.1]
    {
      assert Recs(recs, at);
      var i: nat :| i < |recs| && recs[i].0 == at;
      var k := |first| + i;
      assert (first + recs)[k] == recs[i];
      forall j | k < j < |first + recs|
        ensures (first + recs)[j].0 == at ==> (first + recs)[j].1 == ""
      {
        assert (first + recs)[j] == recs[j - |first|];
      }
      assert Latest(first + recs, k);
    }
  }

  /** Nothing lies before the first column of row `row`. */
  predicate PlacedFrom(ps: seq<Placement>, row: nat) {
    forall i | 0 <= i < |ps| :: ps[i].at.0 >= row && ps[i].at.1 >= 0
  }

  lemma {:induction false} TableFrom(occupied: Occupied, row: nat, rows: seq<seq<Cell>>)
    requires AllAdvance(rows)
    ensures PlacedFrom(Placements(occupied, row, rows), row)
    decreases |rows|
  {
    if rows != [] {
      var plan := PlaceRow(occupied, row, 0, rows[0]);
      var more := Placements(plan.occupied, row + 1, rows[1..]);
      assert Advances(rows[0]);
      RowIncreases(occupied, row, 0, rows[0]);
      assert forall r | 0 <= r < |rows[1..]| :: rows[1..][r] == rows[r + 1];
      TableFrom(plan.occupied, row + 1, rows[1..]);
      assert PlacedFrom(plan.placed, row) && PlacedFrom(more, row);
    }
  }

  /** The first field is at the first row and column, not after any cell. */
  lemma OrderBreaks(rows: seq<seq<Cell>>, lines: seq<seq<string>>)
    requires AllAdvance(rows) && Split(lines)
    ensures var ps, recs := Placements(map[], 0, rows), LineRecs(0, lines);
      IncreasingRecs(RecsOf(ps) + recs) <==> ps == [] || lines == []
  {
    var ps, recs := Placements(map[], 0, rows), LineRecs(0, lines);
    TableOrder(map[], 0, rows);
    TableFrom(map[], 0, rows);
    LineRecsAre(0, lines);
    var all := RecsOf(ps) + recs;
    assert forall i | 0 <= i < |ps| :: RecsOf(ps)[i].0 == ps[i].at;
    if lines == [] {
      assert recs == [] && all == RecsOf(ps);
      assert IncreasingRecs(RecsOf(ps));
    } else if ps == [] {
      assert all == recs;
    } else {
      assert recs[0] == FieldRecs(0, 0, lines[0])[0] && recs[0].0 == (0, 0);
      assert all[0] == RecsOf(ps)[0] && all[|ps|] == recs[0] && 0 < |ps| < |all|;
      assert !Less(all[0].0, all[|ps|].0);
      assert !IncreasingRecs(all);
    }
  }
}
