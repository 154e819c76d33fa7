/** A grid with merged ranges, written as a table that leaves out the merged interiors, and placed again. */
module SpanInversion {
  import opened Wrappers
  import opened SpanPlacement
  import opened SpanOrder

  /** A merged range, its end row and end column excluded. */
  datatype Merge = Merge(top: int, bottom: int, left: int, right: int)

  datatype Grid = Grid(rows: nat, columns: nat, merges: seq<Merge>, text: Coordinate -> string)

  predicate Contains(m: Merge, row: int, column: int) {
    m.top <= row < m.bottom && m.left <= column < m.right
  }

  predicate MergeFits(g: Grid, m: Merge) {
    && 0 <= m.top < m.bottom <= g.rows && 0 <= m.left < m.right <= g.columns
    && (m.bottom - m.top > 1 || m.right - m.left > 1)
  }

  predicate Apart(m: Merge, n: Merge) {
    m.bottom <= n.top || n.bottom <= m.top || m.right <= n.left || n.right <= m.left
  }

  /** Merged ranges lie in the grid, are larger than one cell, and share no cell. */
  predicate WellFormed(g: Grid) {
    && (forall i | 0 <= i < |g.merges| :: MergeFits(g, g.merges[i]))
    && forall i, j | 0 <= i < |g.merges| && 0 <= j < |g.merges| && i != j :: Apart(g.merges[i], g.merges[j])
  }

  predicate InteriorOf(m: Merge, row: int, column: int) {
    Contains(m, row, column) && !(row == m.top && column == m.left)
  }

  /** The cell lies in a merged range but is not its first cell. */
  predicate Interior(g: Grid, row: int, column: int) {
    exists i | 0 <= i < |g.merges| :: InteriorOf(g.merges[i], row, column)
  }

  // ---- the table of a grid ----

  /** The merged range that starts at a cell, if there is one. */
  function StartingAt(ms: seq<Merge>, row: int, column: int): Option<Merge> {
    if ms == [] then None
    else if ms[0].top == row && ms[0].left == column then Some(ms[0])
    else StartingAt(ms[1..], row, column)
  }

  function CellAt(g: Grid, row: int, column: int): Cell {
    match StartingAt(g.merges, row, column)
    case None => Cell(g.text((row, column)), Some((row, column)), 1, 1)
    case Some(m) => Cell(g.text((row, column)), Some((row, column)), m.bottom - m.top, m.right - m.left)
  }

  /** The columns of a row from `from` on that are not merged interiors. */
  function Shown(g: Grid, row: nat, from: nat): seq<nat>
    decreases g.columns - from
  {
    if from >= g.columns then []
    else if Interior(g, row, from) then Shown(g, row, from + 1)
    else [from] + Shown(g, row, from + 1)
  }

  function CellsOf(g: Grid, row: nat, columns: seq<nat>): seq<Cell> {
    seq(|columns|, k requires 0 <= k < |columns| => CellAt(g, row, columns[k]))
  }

  function TableOf(g: Grid): seq<seq<Cell>> {
    seq(g.rows, row requires 0 <= row < g.rows => CellsOf(g, row, Shown(g, row, 0)))
  }

  /** The placements that put every shown cell where it came from. */
  function Original(g: Grid, row: nat, columns: seq<nat>): seq<Placement> {
    seq(|columns|, k requires 0 <= k < |columns| => Placement((row, columns[k]), CellAt(g, row, columns[k])))
  }

  // ---- merges that meet in a cell ----

  lemma MergesApart(g: Grid, i: int, j: int, row: int, column: int)
    requires WellFormed(g) && 0 <= i < |g.merges| && 0 <= j < |g.merges| && i != j
    ensures !(Contains(g.merges[i], row, column) && Contains(g.merges[j], row, column))
  {
    assert Apart(g.merges[i], g.merges[j]);
  }

  lemma SameMerge(g: Grid, i: nat, j: nat, row: int, column: int)
    requires WellFormed(g) && i < |g.merges| && j < |g.merges|
    requires Contains(g.merges[i], row, column) && Contains(g.merges[j], row, column)
    ensures i == j
  {
    if i != j {
      MergesApart(g, i, j, row, column);
    }
  }

  lemma {:induction false} StartingIndex(ms: seq<Merge>, row: int, column: int) returns (i: nat)
    ensures StartingAt(ms, row, column).Some? ==>
      i < |ms| && StartingAt(ms, row, column) == Some(ms[i]) && ms[i].top == row && ms[i].left == column
    ensures StartingAt(ms, row, column).None? ==> forall j | 0 <= j < |ms| :: !(ms[j].top == row && ms[j].left == column)
  {
    i := 0;
    if ms != [] && !(ms[0].top == row && ms[0].left == column) {
      var j := StartingIndex(ms[1..], row, column);
      i := j + 1;
      assert forall k | 0 < k < |ms| :: ms[k] == ms[1..][k - 1];
    }
  }

  /** The cell is covered by a merged range that starts in an earlier row. */
  ghost predicate CoveredAbove(g: Grid, row: int, column: int) {
    exists i | 0 <= i < |g.merges| :: g.merges[i].top < row && Contains(g.merges[i], row, column)
  }

  // ---- what is occupied while a row is placed ----

  /** Merged range `i` was placed before column `column` of row `row`, and covers `k` in row `later`. */
  predicate Covers(g: Grid, i: nat, row: nat, column: int, later: int, k: int)
    requires i < |g.merges|
  {
    var m := g.merges[i];
    (m.top < row || (m.top == row && m.left < column)) && later < m.bottom && m.left <= k < m.right
  }

  ghost predicate Covered(g: Grid, row: nat, column: int, later: int, k: int) {
    exists i | 0 <= i < |g.merges| :: Covers(g, i, row, column, later, k)
  }

  /** Before column `column` of row `row` is placed, the occupied columns are those of the merged ranges
      placed so far: in later rows everywhere, in this row from `column` on. */
  ghost predicate Tracks(g: Grid, occupied: Occupied, row: nat, column: int) {
    && (forall k, later: int | later > row :: Taken(occupied, later, k) <==> Covered(g, row, column, later, k))
    && (forall k | k >= column :: Taken(occupied, row, k) <==> CoveredAbove(g, row, k))
  }

  /** No merged range of this row straddles `column`. */
  ghost predicate Clean(g: Grid, row: nat, column: int) {
    forall i | 0 <= i < |g.merges| && g.merges[i].top == row && g.merges[i].left < column :: g.merges[i].right <= column
  }

  ghost predicate Gap(g: Grid, row: nat, from: int, to: int) {
    forall k | from <= k < to :: CoveredAbove(g, row, k)
  }

  /** No merged range starts inside a stretch that is covered from above. */
  lemma NothingStartsInGap(g: Grid, row: nat, from: int, to: int, i: nat)
    requires WellFormed(g) && Gap(g, row, from, to) && i < |g.merges| && g.merges[i].top == row
    ensures !(from <= g.merges[i].left < to)
  {
    var left := g.merges[i].left;
    assert MergeFits(g, g.merges[i]);
    if from <= left < to {
      assert CoveredAbove(g, row, left);
      var j :| 0 <= j < |g.merges| && g.merges[j].top < row && Contains(g.merges[j], row, left);
      MergesApart(g, i, j, row, left);
    }
  }

  /** After a stretch covered from above, a merged interior is covered from above too. */
  lemma InteriorIsAbove(g: Grid, row: nat, from: int, c: int)
    requires WellFormed(g) && Clean(g, row, from) && from <= c && Gap(g, row, from, c)
    ensures Interior(g, row, c) <==> CoveredAbove(g, row, c)
  {
    if Interior(g, row, c) {
      var i :| 0 <= i < |g.merges| && InteriorOf(g.merges[i], row, c);
      if g.merges[i].top == row {
        NothingStartsInGap(g, row, from, c, i);
      }
    }
    if CoveredAbove(g, row, c) {
      var i :| 0 <= i < |g.merges| && g.merges[i].top < row && Contains(g.merges[i], row, c);
      assert InteriorOf(g.merges[i], row, c);
    }
  }

  /** The columns a shown cell spans, all but its first, are merged interiors. */
  lemma {:induction false} ShownSkips(g: Grid, row: nat, i: nat, from: nat)
    requires WellFormed(g) && i < |g.merges| && g.merges[i].top == row && g.merges[i].left < from <= g.merges[i].right
    ensures Shown(g, row, from) == Shown(g, row, g.merges[i].right)
    decreases g.merges[i].right - from
  {
    assert MergeFits(g, g.merges[i]);
    if from < g.merges[i].right {
      assert InteriorOf(g.merges[i], row, from);
      ShownSkips(g, row, i, from + 1);
    }
  }

  // ---- placing one shown cell ----

  /** What is covered once the range starting at `(row, c)` is placed too. */
  lemma CoveredWith(g: Grid, row: nat, from: int, c: int, i: nat, later: int, k: int)
    requires WellFormed(g) && from <= c && Gap(g, row, from, c) && later > row
    requires i < |g.merges| && g.merges[i].top == row && g.merges[i].left == c
    ensures Covered(g, row, g.merges[i].right, later, k)
       <==> Covered(g, row, from, later, k) || (later < g.merges[i].bottom && c <= k < g.merges[i].right)
    ensures c <= k < g.merges[i].right ==> !Covered(g, row, from, later, k)
  {
    assert MergeFits(g, g.merges[i]);
    if Covered(g, row, from, later, k) {
      var j :| 0 <= j < |g.merges| && Covers(g, j, row, from, later, k);
      assert Covers(g, j, row, g.merges[i].right, later, k);
    }
    forall j | 0 <= j < |g.merges| && c <= k < g.merges[i].right
      ensures !Covers(g, j, row, from, later, k)
    {
      if j != i {
        MergesApart(g, i, j, row, k);
      }
    }
    if later < g.merges[i].bottom && c <= k < g.merges[i].right {
      assert Covers(g, i, row, g.merges[i].right, later, k);
    }
    if Covered(g, row, g.merges[i].right, later, k) {
      var j :| 0 <= j < |g.merges| && Covers(g, j, row, g.merges[i].right, later, k);
      StartsBeforeEnd(g, row, from, c, i, j);
      assert j == i || Covers(g, j, row, from, later, k);
    }
  }

  lemma StartsBeforeEnd(g: Grid, row: nat, from: int, c: int, i: nat, j: nat)
    requires WellFormed(g) && from <= c && Gap(g, row, from, c) && i < |g.merges| && j < |g.merges|
    requires g.merges[i].top == row && g.merges[i].left == c
    ensures g.merges[j].top == row && from <= g.merges[j].left < g.merges[i].right ==> i == j
  {
    assert MergeFits(g, g.merges[i]) && MergeFits(g, g.merges[j]);
    if g.merges[j].top == row && from <= g.merges[j].left < g.merges[i].right {
      NothingStartsInGap(g, row, from, c, j);
      SameMerge(g, i, j, row, g.merges[j].left);
    }
  }

  lemma PlaceMerge(g: Grid, occupied: Occupied, row: nat, from: int, c: int, i: nat, cell: Cell)
    requires WellFormed(g) && from <= c && Gap(g, row, from, c) && Clean(g, row, from) && Tracks(g, occupied, row, from)
    requires i < |g.merges| && g.merges[i].top == row && g.merges[i].left == c
    requires cell.rowSpan == g.merges[i].bottom - row && cell.columnSpan == g.merges[i].right - c
    ensures Tracks(g, Cover(occupied, row, c, cell), row, g.merges[i].right) && Clean(g, row, g.merges[i].right)
  {
    assert MergeFits(g, g.merges[i]);
    var covered := Cover(occupied, row, c, cell);
    forall k, later: int | later > row
      ensures Taken(covered, later, k) <==> Covered(g, row, g.merges[i].right, later, k)
    {
      CoveredWith(g, row, from, c, i, later, k);
    }
    forall j | 0 <= j < |g.merges| && g.merges[j].top == row && g.merges[j].left < g.merges[i].right
      ensures g.merges[j].right <= g.merges[i].right
    {
      StartsBeforeEnd(g, row, from, c, i, j);
    }
  }

  lemma PlaceSingle(g: Grid, occupied: Occupied, row: nat, from: int, c: int, cell: Cell)
    requires WellFormed(g) && from <= c && Gap(g, row, from, c) && Clean(g, row, from) && Tracks(g, occupied, row, from)
    requires forall i | 0 <= i < |g.merges| :: !(g.merges[i].top == row && g.merges[i].left == c)
    requires cell.rowSpan == 1
    ensures Tracks(g, Cover(occupied, row, c, cell), row, c + 1) && Clean(g, row, c + 1)
  {
    forall i | 0 <= i < |g.merges| && g.merges[i].top == row && g.merges[i].left < c + 1
      ensures g.merges[i].left < from
    {
      NothingStartsInGap(g, row, from, c, i);
    }
    forall k, later: int | later > row
      ensures Covered(g, row, c + 1, later, k) <==> Covered(g, row, from, later, k)
    {
      if Covered(g, row, c + 1, later, k) {
        var i :| 0 <= i < |g.merges| && Covers(g, i, row, c + 1, later, k);
        assert Covers(g, i, row, from, later, k);
      }
      if Covered(g, row, from, later, k) {
        var i :| 0 <= i < |g.merges| && Covers(g, i, row, from, later, k);
        assert Covers(g, i, row, c + 1, later, k);
      }
    }
  }

  lemma PlaceShown(g: Grid, occupied: Occupied, row: nat, from: int, c: nat)
    requires WellFormed(g) && from <= c < g.columns && row < g.rows
    requires Gap(g, row, from, c) && Clean(g, row, from) && Tracks(g, occupied, row, from)
    ensures var cell := CellAt(g, row, c); var next := c + cell.columnSpan;
      && c < next <= g.columns && Shown(g, row, c + 1) == Shown(g, row, next)
      && Tracks(g, Cover(occupied, row, c, cell), row, next) && Clean(g, row, next) && Gap(g, row, next, next)
  {
    var i := StartingIndex(g.merges, row, c);
    var cell := CellAt(g, row, c);
    if StartingAt(g.merges, row, c).Some? {
      assert MergeFits(g, g.merges[i]);
      PlaceMerge(g, occupied, row, from, c, i, cell);
      ShownSkips(g, row, i, c + 1);
    } else {
      PlaceSingle(g, occupied, row, from, c, cell);
    }
  }

  // ---- placing a row ----

  /** The row is full up to `column`, and the next row can start. */
  ghost predicate RowDone(g: Grid, occupied: Occupied, row: nat, column: int) {
    && (forall k, later: int | later > row :: Taken(occupied, later, k) <==> Covered(g, row + 1, 0, later, k))
    && column <= g.columns && (row == 0 ==> column == g.columns)
  }

  lemma RowEnds(g: Grid, occupied: Occupied, row: nat, from: nat)
    requires WellFormed(g) && from <= g.columns && Gap(g, row, from, g.columns) && Tracks(g, occupied, row, from)
    ensures RowDone(g, occupied, row, from)
  {
    forall k, later: int | later > row
      ensures Covered(g, row, from, later, k) <==> Covered(g, row + 1, 0, later, k)
    {
      if Covered(g, row, from, later, k) {
        var i :| 0 <= i < |g.merges| && Covers(g, i, row, from, later, k);
        assert Covers(g, i, row + 1, 0, later, k);
      }
      if Covered(g, row + 1, 0, later, k) {
        var i :| 0 <= i < |g.merges| && Covers(g, i, row + 1, 0, later, k);
        assert MergeFits(g, g.merges[i]);
        if g.merges[i].top == row {
          NothingStartsInGap(g, row, from, g.columns, i);
        }
        assert Covers(g, i, row, from, later, k);
      }
    }
    FirstRowFree(g, from);
    assert from < g.columns ==> CoveredAbove(g, row, from);
  }

  lemma FirstRowFree(g: Grid, k: int)
    requires WellFormed(g)
    ensures !CoveredAbove(g, 0, k)
  {
    forall i | 0 <= i < |g.merges|
      ensures g.merges[i].top >= 0
    {
      assert MergeFits(g, g.merges[i]);
    }
  }

  lemma SkipsTo(occupied: Occupied, row: nat, from: int, c: int)
    requires from <= c && !Taken(occupied, row, c) && forall k | from <= k < c :: Taken(occupied, row, k)
    ensures Skip(occupied, row, from) == c
  {
  }

  /** The shown cells from `c` on go back to their places. */
  ghost predicate Inverts(g: Grid, occupied: Occupied, row: nat, from: int, c: nat) {
    var plan := PlaceRow(occupied, row, from, CellsOf(g, row, Shown(g, row, c)));
    plan.placed == Original(g, row, Shown(g, row, c)) && RowDone(g, plan.occupied, row, plan.column)
  }

  lemma FirstInverts(g: Grid, occupied: Occupied, row: nat, from: int, c: nat, next: nat)
    requires c < g.columns && !Interior(g, row, c) && Shown(g, row, c + 1) == Shown(g, row, next)
    requires Skip(occupied, row, from) == c && next - c == CellAt(g, row, c).columnSpan
    requires Inverts(g, Cover(occupied, row, c, CellAt(g, row, c)), row, next, next)
    ensures Inverts(g, occupied, row, from, c)
  {
    var cell, rest := CellAt(g, row, c), Shown(g, row, next);
    assert Shown(g, row, c) == [c] + rest;
    FirstOf(g, row, c, rest);
    assert ([cell] + CellsOf(g, row, rest))[1..] == CellsOf(g, row, rest);
    PlaceFirst(occupied, row, from, c, [cell] + CellsOf(g, row, rest));
  }

  lemma FirstOf(g: Grid, row: nat, c: nat, rest: seq<nat>)
    ensures CellsOf(g, row, [c] + rest) == [CellAt(g, row, c)] + CellsOf(g, row, rest)
    ensures Original(g, row, [c] + rest) == [Placement((row, c), CellAt(g, row, c))] + Original(g, row, rest)
  {
  }

  /** The first cell goes to column `at`, the others where they go after it. */
  lemma PlaceFirst(occupied: Occupied, row: nat, from: int, at: int, cells: seq<Cell>)
    requires cells != [] && Skip(occupied, row, from) == at
    ensures var rest := PlaceRow(Cover(occupied, row, at, cells[0]), row, at + cells[0].columnSpan, cells[1..]);
      PlaceRow(occupied, row, from, cells) == rest.(placed := [Placement((row, at), cells[0])] + rest.placed)
  {
  }

  lemma GapGrows(g: Grid, row: nat, from: int, to: int)
    requires Gap(g, row, from, to) && CoveredAbove(g, row, to)
    ensures Gap(g, row, from, to + 1)
  {
  }

  lemma ShownInverts(g: Grid, occupied: Occupied, row: nat, from: nat, c: nat, next: nat)
    requires from <= c < g.columns && Gap(g, row, from, c) && Tracks(g, occupied, row, from)
    requires !Interior(g, row, c) && !CoveredAbove(g, row, c) && Shown(g, row, c + 1) == Shown(g, row, next)
    requires next - c == CellAt(g, row, c).columnSpan
    requires Inverts(g, Cover(occupied, row, c, CellAt(g, row, c)), row, next, next)
    ensures Inverts(g, occupied, row, from, c)
  {
    SkipsTo(occupied, row, from, c);
    FirstInverts(g, occupied, row, from, c, next);
  }

  lemma CoveredInverts(g: Grid, occupied: Occupied, row: nat, from: nat, c: nat)
    requires c < g.columns && Interior(g, row, c) && Inverts(g, occupied, row, from, c + 1)
    ensures Inverts(g, occupied, row, from, c)
  {
  }

  lemma EndInverts(g: Grid, occupied: Occupied, row: nat, from: nat)
    requires WellFormed(g) && from <= g.columns && row < g.rows
    requires Gap(g, row, from, g.columns) && Clean(g, row, from) && Tracks(g, occupied, row, from)
    ensures Inverts(g, occupied, row, from, g.columns)
  {
    assert CellsOf(g, row, Shown(g, row, g.columns)) == [];
    RowEnds(g, occupied, row, from);
  }

  /** Also after a stretch from `from` to `c` that is covered from above. */
  lemma {:induction false} RowInverts(g: Grid, occupied: Occupied, row: nat, from: nat, c: nat)
    requires WellFormed(g) && from <= c <= g.columns && row < g.rows
    requires Gap(g, row, from, c) && Clean(g, row, from) && Tracks(g, occupied, row, from)
    ensures Inverts(g, occupied, row, from, c)
    decreases g.columns - c
  {
    if c == g.columns {
      EndInverts(g, occupied, row, from);
    } else {
      InteriorIsAbove(g, row, from, c);
      if Interior(g, row, c) {
        GapGrows(g, row, from, c);
        RowInverts(g, occupied, row, from, c + 1);
        CoveredInverts(g, occupied, row, from, c);
      } else {
        var next := c + CellAt(g, row, c).columnSpan;
        PlaceShown(g, occupied, row, from, c);
        RowInverts(g, Cover(occupied, row, c, CellAt(g, row, c)), row, next, next);
        ShownInverts(g, occupied, row, from, c, next);
      }
    }
  }

  // ---- placing the table ----

  /** Every shown cell of the rows from `row` on, where it came from. */
  function AllOriginal(g: Grid, row: nat): seq<Placement>
    decreases g.rows - row
  {
    if row >= g.rows then [] else Original(g, row, Shown(g, row, 0)) + AllOriginal(g, row + 1)
  }

  /** What is occupied when row `row` starts. */
  ghost predicate TracksRow(g: Grid, occupied: Occupied, row: nat) {
    forall k, later: int | later >= row :: Taken(occupied, later, k) <==> Covered(g, row, 0, later, k)
  }

  lemma RowStarts(g: Grid, occupied: Occupied, row: nat)
    requires WellFormed(g) && TracksRow(g, occupied, row)
    ensures Tracks(g, occupied, row, 0) && Clean(g, row, 0) && Gap(g, row, 0, 0)
  {
    forall i | 0 <= i < |g.merges|
      ensures g.merges[i].left >= 0
    {
      assert MergeFits(g, g.merges[i]);
    }
    forall k | k >= 0
      ensures Covered(g, row, 0, row, k) <==> CoveredAbove(g, row, k)
    {
      if Covered(g, row, 0, row, k) {
        var i :| 0 <= i < |g.merges| && Covers(g, i, row, 0, row, k);
        assert Contains(g.merges[i], row, k);
      }
      if CoveredAbove(g, row, k) {
        var i :| 0 <= i < |g.merges| && g.merges[i].top < row && Contains(g.merges[i], row, k);
        assert Covers(g, i, row, 0, row, k);
      }
    }
  }

  lemma {:induction false} TableInverts(g: Grid, occupied: Occupied, row: nat)
    requires WellFormed(g) && row <= g.rows && TracksRow(g, occupied, row)
    ensures Placements(occupied, row, TableOf(g)[row..]) == AllOriginal(g, row)
    decreases g.rows - row
  {
    if row < g.rows {
      RowStarts(g, occupied, row);
      RowInverts(g, occupied, row, 0, 0);
      assert TableOf(g)[row..][0] == CellsOf(g, row, Shown(g, row, 0));
      assert TableOf(g)[row..][1..] == TableOf(g)[row + 1..];
      TableInverts(g, PlaceRow(occupied, row, 0, TableOf(g)[row]).occupied, row + 1);
    }
  }

  // ---- the shape of the sheet ----

  lemma {:induction false} PlacedShape(s: Sheet, ps: seq<Placement>)
    ensures PlacedAll(s, ps).rows == s.rows && PlacedAll(s, ps).columns == s.columns
    decreases |ps|
  {
    if ps != [] {
      PlacedShape(Placed(s, ps[0]), ps[1..]);
    }
  }

  lemma {:induction false} TableShape(g: Grid, s: Sheet, occupied: Occupied, row: nat)
    requires WellFormed(g) && row <= g.rows && TracksRow(g, occupied, row)
    requires s.rows == row && 0 <= s.columns <= g.columns && (row > 0 ==> s.columns == g.columns)
    ensures var t := TablePlaced(s, occupied, row, TableOf(g)[row..]);
      t.rows == g.rows && (if g.rows == 0 then t.columns == s.columns else t.columns == g.columns)
    decreases g.rows - row
  {
    if row < g.rows {
      RowStarts(g, occupied, row);
      RowInverts(g, occupied, row, 0, 0);
      assert TableOf(g)[row..][0] == CellsOf(g, row, Shown(g, row, 0));
      assert TableOf(g)[row..][1..] == TableOf(g)[row + 1..];
      var plan := PlaceRow(occupied, row, 0, TableOf(g)[row]);
      PlacedShape(s, plan.placed);
      TableShape(g, RowPlaced(s, plan, row), plan.occupied, row + 1);
    }
  }

  // ---- the placements, one by one ----

  predicate IsShown(g: Grid, row: int, column: int) {
    0 <= row < g.rows && 0 <= column < g.columns && !Interior(g, row, column)
  }

  lemma {:induction false} ShownColumns(g: Grid, row: nat, from: nat, column: int)
    ensures column in Shown(g, row, from) <==> from <= column < g.columns && !Interior(g, row, column)
    decreases g.columns - from
  {
    if from < g.columns {
      ShownColumns(g, row, from + 1, column);
    }
  }

  ghost predicate PlacedAt(ps: seq<Placement>, at: Coordinate) {
    exists i | 0 <= i < |ps| :: ps[i].at == at
  }

  predicate AllFrom(g: Grid, ps: seq<Placement>) {
    forall i | 0 <= i < |ps| :: ps[i].cell == CellAt(g, ps[i].at.0, ps[i].at.1)
  }

  lemma OriginalRow(g: Grid, row: nat, at: Coordinate)
    requires row < g.rows
    ensures PlacedAt(Original(g, row, Shown(g, row, 0)), at) <==> at.0 == row && IsShown(g, row, at.1)
    ensures AllFrom(g, Original(g, row, Shown(g, row, 0)))
  {
    var columns := Shown(g, row, 0);
    var ps := Original(g, row, columns);
    ShownColumns(g, row, 0, at.1);
    if at.0 == row && at.1 in columns {
      var k :| 0 <= k < |columns| && columns[k] == at.1;
      assert ps[k].at == at;
    }
    if PlacedAt(ps, at) {
      var k :| 0 <= k < |ps| && ps[k].at == at;
      assert columns[k] in columns;
    }
  }

  lemma PlacedAtJoin(ps: seq<Placement>, qs: seq<Placement>, at: Coordinate)
    ensures PlacedAt(ps + qs, at) <==> PlacedAt(ps, at) || PlacedAt(qs, at)
  {
    if PlacedAt(ps, at) {
      var i :| 0 <= i < |ps| && ps[i].at == at;
      assert (ps + qs)[i].at == at;
    }
    if PlacedAt(qs, at) {
      var i :| 0 <= i < |qs| && qs[i].at == at;
      assert (ps + qs)[|ps| + i].at == at;
    }
  }

  lemma {:induction false} OriginalAll(g: Grid, row: nat, at: Coordinate)
    requires row <= g.rows
    ensures PlacedAt(AllOriginal(g, row), at) <==> at.0 >= row && IsShown(g, at.0, at.1)
    ensures AllFrom(g, AllOriginal(g, row))
    decreases g.rows - row
  {
    if row < g.rows {
      OriginalRow(g, row, at);
      OriginalAll(g, row + 1, at);
      PlacedAtJoin(Original(g, row, Shown(g, row, 0)), AllOriginal(g, row + 1), at);
    }
  }

  // ---- what the sheet records ----

  /** The non-empty texts among the placements, over those already there. */
  ghost predicate Holds(values: map<Coordinate, string>, text: Coordinate -> string, ps: seq<Placement>) {
    forall at :: (at in values <==> text(at) != "" && PlacedAt(ps, at)) && (at in values ==> values[at] == text(at))
  }

  lemma ValueHeld(s: Sheet, text: Coordinate -> string, done: seq<Placement>, p: Placement)
    requires Holds(s.values, text, done) && p.cell.text == text(p.at)
    ensures Holds(Placed(s, p).values, text, done + [p])
  {
    forall at
      ensures PlacedAt(done + [p], at) <==> PlacedAt(done, at) || at == p.at
    {
      PlacedAtJoin(done, [p], at);
      assert [p][0].at == p.at;
    }
  }

  lemma {:induction false} ValuesHeld(s: Sheet, text: Coordinate -> string, done: seq<Placement>, ps: seq<Placement>)
    requires Holds(s.values, text, done)
    requires forall i | 0 <= i < |ps| :: ps[i].cell.text == text(ps[i].at)
    ensures Holds(PlacedAll(s, ps).values, text, done + ps)
    decreases |ps|
  {
    if ps == [] {
      assert done + ps == done;
    } else {
      var next := done + [ps[0]];
      ValueHeld(s, text, done, ps[0]);
      ValuesHeld(Placed(s, ps[0]), text, next, ps[1..]);
      assert next + ps[1..] == done + ps;
    }
  }

  function MergesOf(ps: seq<Placement>): seq<Range> {
    if ps == [] then []
    else (if Spans(ps[0].cell) then [MergeOf(ps[0])] else []) + MergesOf(ps[1..])
  }

  lemma {:induction false} MergesRecorded(s: Sheet, ps: seq<Placement>)
    ensures PlacedAll(s, ps).merges == s.merges + MergesOf(ps)
    decreases |ps|
  {
    if ps != [] {
      MergesRecorded(Placed(s, ps[0]), ps[1..]);
    }
  }

  lemma {:induction false} MergeListed(ps: seq<Placement>, range: Range)
    ensures range in MergesOf(ps) <==> exists i | 0 <= i < |ps| :: Spans(ps[i].cell) && range == MergeOf(ps[i])
  {
    if ps != [] {
      MergeListed(ps[1..], range);
      assert forall i | 0 < i < |ps| :: ps[i] == ps[1..][i - 1];
      if range in MergesOf(ps[1..]) {
        var i :| 0 <= i < |ps[1..]| && Spans(ps[1..][i].cell) && range == MergeOf(ps[1..][i]);
        assert Spans(ps[i + 1].cell) && range == MergeOf(ps[i + 1]);
      }
    }
  }

  lemma {:induction false} MergesOnce(ps: seq<Placement>)
    requires Increasing(ps)
    ensures forall i, j | 0 <= i < j < |MergesOf(ps)| :: MergesOf(ps)[i] != MergesOf(ps)[j]
  {
    if ps != [] {
      assert forall i | 0 <= i < |ps[1..]| :: ps[1..][i] == ps[i + 1];
      MergesOnce(ps[1..]);
      if Spans(ps[0].cell) {
        MergeListed(ps[1..], MergeOf(ps[0]));
        assert forall i | 0 <= i < |ps[1..]| :: Less(ps[0].at, ps[1..][i].at);
      }
    }
  }

  function RangeOf(m: Merge): Range {
    Range(m.top, m.left, m.bottom - 1, m.right - 1)
  }

  lemma FirstCellShown(g: Grid, i: nat)
    requires WellFormed(g) && i < |g.merges|
    ensures IsShown(g, g.merges[i].top, g.merges[i].left)
    ensures StartingAt(g.merges, g.merges[i].top, g.merges[i].left) == Some(g.merges[i])
  {
    var m := g.merges[i];
    assert MergeFits(g, m);
    if Interior(g, m.top, m.left) {
      var j :| 0 <= j < |g.merges| && InteriorOf(g.merges[j], m.top, m.left);
      MergesApart(g, i, j, m.top, m.left);
    }
    var j := StartingIndex(g.merges, m.top, m.left);
    assert MergeFits(g, g.merges[j]);
    SameMerge(g, i, j, m.top, m.left);
  }

  /** A shown cell spans exactly when a merged range starts at it, and then as far as the range goes. */
  lemma SpansAsMerged(g: Grid, p: Placement, range: Range)
    requires WellFormed(g) && p.cell == CellAt(g, p.at.0, p.at.1)
    ensures Spans(p.cell) && range == MergeOf(p)
       <==> exists i | 0 <= i < |g.merges| :: g.merges[i].top == p.at.0 && g.merges[i].left == p.at.1 && range == RangeOf(g.merges[i])
  {
    var j := StartingIndex(g.merges, p.at.0, p.at.1);
    if StartingAt(g.merges, p.at.0, p.at.1).Some? {
      assert MergeFits(g, g.merges[j]);
      forall i | 0 <= i < |g.merges| && g.merges[i].top == p.at.0 && g.merges[i].left == p.at.1
        ensures i == j
      {
        assert MergeFits(g, g.merges[i]);
        SameMerge(g, i, j, p.at.0, p.at.1);
      }
    }
  }

  lemma MergeInverts(g: Grid, range: Range)
    requires WellFormed(g)
    ensures range in MergesOf(AllOriginal(g, 0)) <==> exists i | 0 <= i < |g.merges| :: range == RangeOf(g.merges[i])
  {
    var ps := AllOriginal(g, 0);
    MergeListed(ps, range);
    OriginalAll(g, 0, (0, 0));
    if range in MergesOf(ps) {
      var k :| 0 <= k < |ps| && Spans(ps[k].cell) && range == MergeOf(ps[k]);
      SpansAsMerged(g, ps[k], range);
    }
    if i :| 0 <= i < |g.merges| && range == RangeOf(g.merges[i]) {
      var at := (g.merges[i].top, g.merges[i].left);
      FirstCellShown(g, i);
      OriginalAll(g, 0, at);
      var k :| 0 <= k < |ps| && ps[k].at == at;
      SpansAsMerged(g, ps[k], range);
    }
  }

  lemma CellsAdvance(g: Grid)
    requires WellFormed(g)
    ensures AllAdvance(TableOf(g))
  {
    forall row, k | 0 <= row < g.rows && 0 <= k < |TableOf(g)[row]|
      ensures TableOf(g)[row][k].columnSpan >= 1
    {
      var column := Shown(g, row, 0)[k];
      var i := StartingIndex(g.merges, row, column);
      if StartingAt(g.merges, row, column).Some? {
        assert MergeFits(g, g.merges[i]);
      }
    }
  }

  /** The sheet of a grid's table. */
  function SheetOf(g: Grid): Sheet {
    BlocksRecorded(Fresh([]), 0, [Table(TableOf(g))])
  }

  lemma SheetContent(g: Grid)
    requires WellFormed(g)
    ensures SheetOf(g) == TablePlaced(Fresh([]), map[], 0, TableOf(g))
    ensures Content(SheetOf(g)) == Content(PlacedAll(Fresh([]), AllOriginal(g, 0)))
    ensures TracksRow(g, map[], 0)
  {
    OneTable(Fresh([]), TableOf(g));
    forall k, later: int | later >= 0
      ensures !Covered(g, 0, 0, later, k)
    {
      forall i | 0 <= i < |g.merges|
        ensures !Covers(g, i, 0, 0, later, k)
      {
        assert MergeFits(g, g.merges[i]);
      }
    }
    TableContent(Fresh([]), map[], 0, TableOf(g));
    assert TableOf(g)[0..] == TableOf(g);
    TableInverts(g, map[], 0);
  }

  /** Placing the table of a grid finds the grid's shape again. */
  lemma ShapeInverts(g: Grid)
    requires WellFormed(g)
    ensures SheetOf(g).rows == g.rows && SheetOf(g).columns == if g.rows == 0 then 0 else g.columns
  {
    SheetContent(g);
    assert TableOf(g)[0..] == TableOf(g);
    TableShape(g, Fresh([]), map[], 0);
  }

  /** Every cell is placed at its own coordinate, in order, and no coordinate is reported as a duplicate. */
  lemma OrderInverts(g: Grid)
    requires WellFormed(g)
    ensures Placements(map[], 0, TableOf(g)) == AllOriginal(g, 0)
    ensures SheetOf(g).provenanceOrder && SheetOf(g).coordinateOrder && SheetOf(g).duplicates == []
    ensures Increasing(AllOriginal(g, 0))
  {
    SheetContent(g);
    assert TableOf(g)[0..] == TableOf(g);
    TableInverts(g, map[], 0);
    CellsAdvance(g);
    OneTableInOrder(TableOf(g), []);
    OriginalAll(g, 0, (0, 0));
    ProvenanceChecked(Fresh([]), AllOriginal(g, 0));
  }

  /** The merged ranges found are those of the grid, each once. */
  lemma MergesInvert(g: Grid)
    requires WellFormed(g)
    ensures forall range :: range in SheetOf(g).merges <==> exists i | 0 <= i < |g.merges| :: range == RangeOf(g.merges[i])
    ensures forall i, j | 0 <= i < j < |SheetOf(g).merges| :: SheetOf(g).merges[i] != SheetOf(g).merges[j]
  {
    var ps := AllOriginal(g, 0);
    SheetContent(g);
    OrderInverts(g);
    MergesRecorded(Fresh([]), ps);
    assert SheetOf(g).merges == Content(SheetOf(g)).merges == MergesOf(ps);
    MergesOnce(ps);
    forall range
      ensures range in MergesOf(ps) <==> exists i | 0 <= i < |g.merges| :: range == RangeOf(g.merges[i])
    {
      MergeInverts(g, range);
    }
  }

  /** The values found are the non-empty texts outside merged interiors, each at its own coordinate. */
  lemma ValuesInvert(g: Grid)
    requires WellFormed(g)
    ensures forall at :: at in SheetOf(g).values <==> IsShown(g, at.0, at.1) && g.text(at) != ""
    ensures forall at | at in SheetOf(g).values :: SheetOf(g).values[at] == g.text(at)
  {
    var ps := AllOriginal(g, 0);
    SheetContent(g);
    OriginalAll(g, 0, (0, 0));
    TextsOf(g, ps);
    ValuesHeld(Fresh([]), g.text, [], ps);
    assert [] + ps == ps;
    assert SheetOf(g).values == Content(SheetOf(g)).values == PlacedAll(Fresh([]), ps).values;
    forall at
      ensures PlacedAt(ps, at) <==> IsShown(g, at.0, at.1)
    {
      OriginalAll(g, 0, at);
    }
  }

  lemma TextsOf(g: Grid, ps: seq<Placement>)
    requires AllFrom(g, ps)
    ensures forall i | 0 <= i < |ps| :: ps[i].cell.text == g.text(ps[i].at)
  {
  }

  // ---- the other reading of the same grid ----

  type OracleCell = (Coordinate, string)

  /** The non-empty cells outside merged interiors, row by row, from `(row, column)` on. */
  function OracleFrom(g: Grid, row: nat, column: nat): seq<OracleCell>
    decreases g.rows - row, g.columns - column
  {
    if row >= g.rows then []
    else if column >= g.columns then OracleFrom(g, row + 1, 0)
    else if Interior(g, row, column) || g.text((row, column)) == "" then OracleFrom(g, row, column + 1)
    else [((row, column), g.text((row, column)))] + OracleFrom(g, row, column + 1)
  }

  method WorkbookOracle(g: Grid) returns (cells: seq<OracleCell>, merges: seq<Range>)
    ensures cells == OracleFrom(g, 0, 0)
    ensures |merges| == |g.merges| && forall i | 0 <= i < |merges| :: merges[i] == RangeOf(g.merges[i])
  {
    merges := seq(|g.merges|, i requires 0 <= i < |g.merges| => RangeOf(g.merges[i]));
    cells := [];
    for row := 0 to g.rows
      invariant OracleFrom(g, 0, 0) == cells + OracleFrom(g, row, 0)
    {
      for column := 0 to g.columns
        invariant OracleFrom(g, 0, 0) == cells + OracleFrom(g, row, column)
      {
        if !Interior(g, row, column) {
          var value := g.text((row, column));
          if value != "" {
            cells := cells + [((row, column), value)];
          }
        }
      }
    }
  }

  lemma {:induction false} OracleLists(g: Grid, row: nat, column: nat, cell: OracleCell)
    ensures cell in OracleFrom(g, row, column)
       <==> (cell.0.0 > row || (cell.0.0 == row && cell.0.1 >= column)) && IsShown(g, cell.0.0, cell.0.1)
            && cell.1 != "" && cell.1 == g.text(cell.0)
    decreases g.rows - row, g.columns - column
  {
    if row < g.rows {
      if column >= g.columns {
        OracleLists(g, row + 1, 0, cell);
      } else {
        OracleLists(g, row, column + 1, cell);
      }
    }
  }

  /** The two readings of a grid agree: the values and merged ranges of the converted sheet are the cells
      and the merged ranges of the workbook. */
  lemma SheetMatchesOracle(g: Grid, cell: OracleCell)
    requires WellFormed(g)
    ensures cell in OracleFrom(g, 0, 0) <==> cell.0 in SheetOf(g).values && SheetOf(g).values[cell.0] == cell.1
  {
    OracleLists(g, 0, 0, cell);
    ValuesInvert(g);
  }
}
