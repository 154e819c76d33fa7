/** Placing the cells of a table that has row and column spans, and recording what is placed. */
module SpanPlacement {
  import opened Wrappers

  type Coordinate = (int, int)

  /** A table cell as the converted document gives it. */
  datatype Cell = Cell(text: string, provenance: Option<Coordinate>, rowSpan: int, columnSpan: int)

  /** A merged range, its last row and column included. */
  datatype Range = Range(top: int, left: int, bottom: int, right: int)

  datatype Placement = Placement(at: Coordinate, cell: Cell)

  /** The last row each column is occupied to. */
  type Occupied = map<int, int>

  // ---- where the cells of a row go ----

  predicate Taken(occupied: Occupied, row: int, column: int) {
    (if column in occupied then occupied[column] else -1) >= row
  }

  function Ahead(occupied: Occupied, column: int): set<int> {
    set k | k in occupied && column <= k
  }

  lemma AheadShrinks(occupied: Occupied, column: int)
    requires column in occupied
    ensures Ahead(occupied, column + 1) < Ahead(occupied, column)
  {
    assert column in Ahead(occupied, column) && column !in Ahead(occupied, column + 1);
    assert Ahead(occupied, column + 1) <= Ahead(occupied, column);
  }

  /** The first column from `column` on that no earlier cell reaches into. */
  function Skip(occupied: Occupied, row: nat, column: int): (free: int)
    ensures column <= free && !Taken(occupied, row, free)
    ensures forall k | column <= k < free :: Taken(occupied, row, k)
    decreases Ahead(occupied, column)
  {
    if Taken(occupied, row, column) then
      AheadShrinks(occupied, column);
      Skip(occupied, row, column + 1)
    else column
  }

  function CoverTo(occupied: Occupied, bottom: int, column: int, end: int): (covered: Occupied)
    ensures forall k :: k in covered <==> k in occupied || column <= k < end
    ensures forall k | k in covered :: covered[k] == if column <= k < end then bottom else occupied[k]
    decreases end - column
  {
    if column >= end then occupied else CoverTo(occupied[column := bottom], bottom, column + 1, end)
  }

  function Cover(occupied: Occupied, row: nat, column: int, cell: Cell): Occupied {
    if cell.rowSpan > 1 then CoverTo(occupied, row + cell.rowSpan - 1, column, column + cell.columnSpan)
    else occupied
  }

  datatype Plan = Plan(placed: seq<Placement>, occupied: Occupied, column: int)

  function PlaceRow(occupied: Occupied, row: nat, column: int, cells: seq<Cell>): (plan: Plan)
    decreases |cells|
  {
    if cells == [] then Plan([], occupied, column)
    else
      var at := Skip(occupied, row, column);
      var rest := PlaceRow(Cover(occupied, row, at, cells[0]), row, at + cells[0].columnSpan, cells[1..]);
      rest.(placed := [Placement((row, at), cells[0])] + rest.placed)
  }

  // ---- what is recorded ----

  datatype Sheet = Sheet(
    values: map<Coordinate, string>, merges: seq<Range>, seen: set<Coordinate>, duplicates: seq<Coordinate>,
    rows: int, columns: int, provenanceOrder: bool, coordinateOrder: bool, last: Option<Coordinate>)

  function Fresh(merges: seq<Range>): Sheet {
    Sheet(map[], merges, {}, [], 0, 0, true, true, None)
  }

  predicate AtMost(a: Coordinate, b: Coordinate) {
    a.0 < b.0 || (a.0 == b.0 && a.1 <= b.1)
  }

  function Recorded(s: Sheet, at: Coordinate, text: string): Sheet {
    s.(duplicates := if at in s.seen then s.duplicates + [at] else s.duplicates,
       seen := s.seen + {at},
       coordinateOrder := s.coordinateOrder && !(s.last.Some? && AtMost(at, s.last.value)),
       last := Some(at),
       values := if text != "" then s.values[at := text] else s.values)
  }

  function MergeOf(p: Placement): Range {
    Range(p.at.0, p.at.1, p.at.0 + p.cell.rowSpan - 1, p.at.1 + p.cell.columnSpan - 1)
  }

  predicate Spans(cell: Cell) {
    cell.rowSpan > 1 || cell.columnSpan > 1
  }

  function Placed(s: Sheet, p: Placement): Sheet {
    var checked := s.(provenanceOrder := s.provenanceOrder && (p.cell.provenance.Some? ==> p.cell.provenance.value == p.at));
    var recorded := Recorded(checked, p.at, p.cell.text);
    if Spans(p.cell) then recorded.(merges := recorded.merges + [MergeOf(p)]) else recorded
  }

  function PlacedAll(s: Sheet, ps: seq<Placement>): Sheet
    decreases |ps|
  {
    if ps == [] then s else PlacedAll(Placed(s, ps[0]), ps[1..])
  }

  /** What is left of a plan, after the part of it that leads from `s` to `t`. */
  ghost predicate Continues(s: Sheet, plan: Plan, t: Sheet, rest: Plan) {
    plan.occupied == rest.occupied && plan.column == rest.column && PlacedAll(s, plan.placed) == PlacedAll(t, rest.placed)
  }

  lemma PlaceNext(s: Sheet, plan: Plan, t: Sheet, occupied: Occupied, row: nat, column: int, cells: seq<Cell>)
    requires cells != [] && Continues(s, plan, t, PlaceRow(occupied, row, column, cells))
    ensures var at := Skip(occupied, row, column);
      Continues(s, plan, Placed(t, Placement((row, at), cells[0])),
                PlaceRow(Cover(occupied, row, at, cells[0]), row, at + cells[0].columnSpan, cells[1..]))
  {
    var placed := PlaceRow(occupied, row, column, cells).placed;
    var at := Skip(occupied, row, column);
    assert placed[0] == Placement((row, at), cells[0]);
    assert placed[1..] == PlaceRow(Cover(occupied, row, at, cells[0]), row, at + cells[0].columnSpan, cells[1..]).placed;
  }

  function Max(a: int, b: int): int {
    if a < b then b else a
  }

  function RowPlaced(s: Sheet, plan: Plan, row: nat): Sheet {
    var t := PlacedAll(s, plan.placed);
    t.(columns := Max(t.columns, plan.column), rows := Max(t.rows, row + 1))
  }

  /** The rows of one table, from row `row` on. */
  function TablePlaced(s: Sheet, occupied: Occupied, row: nat, rows: seq<seq<Cell>>): Sheet
    decreases |rows|
  {
    if rows == [] then s
    else
      var plan := PlaceRow(occupied, row, 0, rows[0]);
      TablePlaced(RowPlaced(s, plan, row), plan.occupied, row + 1, rows[1..])
  }

  // ---- blocks of lines ----

  function FieldsRecorded(s: Sheet, row: nat, column: nat, fields: seq<string>): Sheet
    decreases |fields|
  {
    if fields == [] then s
    else FieldsRecorded(Recorded(s, (row, column), fields[0]), row, column + 1, fields[1..])
  }

  function LinesRecorded(s: Sheet, row: nat, lines: seq<seq<string>>): Sheet
    decreases |lines|
  {
    if lines == [] then s
    else
      var t := FieldsRecorded(s, row, 0, lines[0]);
      LinesRecorded(t.(columns := Max(t.columns, |lines[0]|)), row + 1, lines[1..])
  }

  /** A table, a block of tab-separated lines already split and decoded, or anything else. */
  datatype Block = Table(rows: seq<seq<Cell>>) | Lines(lines: seq<seq<string>>) | Other

  function BlocksRecorded(s: Sheet, paged: nat, blocks: seq<Block>): Sheet
    decreases |blocks|
  {
    if blocks == [] then s
    else
      match blocks[0]
      case Table(rows) => BlocksRecorded(TablePlaced(s, map[], 0, rows), paged, blocks[1..])
      case Lines(lines) =>
        var t := LinesRecorded(s, paged, lines);
        BlocksRecorded(t.(rows := Max(t.rows, paged + |lines|)), paged + |lines|, blocks[1..])
      case Other => BlocksRecorded(s, paged, blocks[1..])
  }

  /** The sheet as it is filled in. */
  class CandidateSheet {
    var values: map<Coordinate, string>
    var merges: seq<Range>
    var seen: set<Coordinate>
    var duplicates: seq<Coordinate>
    var rowsSeen: int
    var columnsSeen: int
    var provenanceOrder: bool
    var coordinateOrder: bool
    var last: Option<Coordinate>

    ghost function View(): Sheet
      reads this
    {
      Sheet(values, merges, seen, duplicates, rowsSeen, columnsSeen, provenanceOrder, coordinateOrder, last)
    }

    constructor (metadataMerges: seq<Range>)
      ensures View() == Fresh(metadataMerges)
    {
      values, merges, seen, duplicates := map[], metadataMerges, {}, [];
      rowsSeen, columnsSeen, provenanceOrder, coordinateOrder, last := 0, 0, true, true, None;
    }

    method Record(at: Coordinate, text: string)
      modifies this
      ensures View() == Recorded(old(View()), at, text)
    {
      if at in seen {
        duplicates := duplicates + [at];
      }
      seen := seen + {at};
      if last.Some? && AtMost(at, last.value) {
        coordinateOrder := false;
      }
      last := Some(at);
      if text != "" {
        values := values[at := text];
      }
    }

    method PlaceCell(at: Coordinate, cell: Cell)
      modifies this
      ensures View() == Placed(old(View()), Placement(at, cell))
    {
      if cell.provenance.Some? && cell.provenance.value != at {
        provenanceOrder := false;
      }
      Record(at, cell.text);
      if cell.rowSpan > 1 || cell.columnSpan > 1 {
        merges := merges + [Range(at.0, at.1, at.0 + cell.rowSpan - 1, at.1 + cell.columnSpan - 1)];
      }
    }

    /** One row: each cell goes to the next free column, and covers the columns and rows of its spans. */
    method PlaceCells(row: nat, cells: seq<Cell>, before: Occupied) returns (occupied: Occupied)
      modifies this
      ensures occupied == PlaceRow(before, row, 0, cells).occupied
      ensures View() == RowPlaced(old(View()), PlaceRow(before, row, 0, cells), row)
    {
      ghost var start, plan := View(), PlaceRow(before, row, 0, cells);
      occupied := before;
      var column := 0;
      for i := 0 to |cells|
        invariant Continues(start, plan, View(), PlaceRow(occupied, row, column, cells[i..]))
      {
        PlaceNext(start, plan, View(), occupied, row, column, cells[i..]);
        column := NextFree(occupied, row, column);
        assert cells[i..][1..] == cells[i + 1..];
        PlaceCell((row, column), cells[i]);
        occupied := CoverColumns(occupied, row, column, cells[i]);
        column := column + cells[i].columnSpan;
      }
      columnsSeen := Max(columnsSeen, column);
      rowsSeen := Max(rowsSeen, row + 1);
    }

    method NextFree(occupied: Occupied, row: nat, from: int) returns (column: int)
      ensures column == Skip(occupied, row, from)
    {
      column := from;
      while Taken(occupied, row, column)
        invariant Skip(occupied, row, from) == Skip(occupied, row, column)
        decreases Ahead(occupied, column)
      {
        AheadShrinks(occupied, column);
        column := column + 1;
      }
    }

    method CoverColumns(before: Occupied, row: nat, column: int, cell: Cell) returns (occupied: Occupied)
      ensures occupied == Cover(before, row, column, cell)
    {
      occupied := before;
      var covered := column;
      while covered < column + cell.columnSpan
        invariant Cover(before, row, column, cell)
               == if cell.rowSpan > 1 then CoverTo(occupied, row + cell.rowSpan - 1, covered, column + cell.columnSpan) else occupied
      {
        if cell.rowSpan > 1 {
          occupied := occupied[covered := row + cell.rowSpan - 1];
        }
        covered := covered + 1;
      }
    }

    method PlaceTable(rows: seq<seq<Cell>>)
      modifies this
      ensures View() == TablePlaced(old(View()), map[], 0, rows)
    {
      var occupied: Occupied := map[];
      ghost var start := View();
      for row := 0 to |rows|
        invariant TablePlaced(start, map[], 0, rows) == TablePlaced(View(), occupied, row, rows[row..])
      {
        assert rows[row..][1..] == rows[row + 1..];
        occupied := PlaceCells(row, rows[row], occupied);
      }
    }

    method RecordFields(row: nat, fields: seq<string>)
      modifies this
      ensures View() == FieldsRecorded(old(View()), row, 0, fields)
    {
      ghost var start := View();
      for column := 0 to |fields|
        invariant FieldsRecorded(start, row, 0, fields) == FieldsRecorded(View(), row, column, fields[column..])
      {
        assert fields[column..][1..] == fields[column + 1..];
        Record((row, column), fields[column]);
      }
    }

    method RecordLines(first: nat, lines: seq<seq<string>>)
      modifies this
      ensures View() == LinesRecorded(old(View()), first, lines)
    {
      ghost var start := View();
      for i := 0 to |lines|
        invariant LinesRecorded(start, first, lines) == LinesRecorded(View(), first + i, lines[i..])
      {
        assert lines[i..][1..] == lines[i + 1..];
        RecordFields(first + i, lines[i]);
        columnsSeen := Max(columnsSeen, |lines[i]|);
      }
    }

    /** All blocks of a sheet; the blocks of lines continue one another's rows. */
    method Fill(blocks: seq<Block>)
      modifies this
      ensures View() == BlocksRecorded(old(View()), 0, blocks)
    {
      ghost var start := View();
      var paged: nat := 0;
      for i := 0 to |blocks|
        invariant BlocksRecorded(start, 0, blocks) == BlocksRecorded(View(), paged, blocks[i..])
      {
        assert blocks[i..][1..] == blocks[i + 1..];
        match blocks[i] {
          case Table(rows) => PlaceTable(rows);
          case Lines(lines) =>
            RecordLines(paged, lines);
            paged := paged + |lines|;
            rowsSeen := Max(rowsSeen, paged);
          case Other =>
        }
      }
    }
  }
}
