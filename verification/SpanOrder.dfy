/** When the coordinates of one table come in row-major order. */
module SpanOrder {
  import opened Wrappers
  import opened SpanPlacement

  /** Everything placed in the rows of one table, in order. */
  function Placements(occupied: Occupied, row: nat, rows: seq<seq<Cell>>): seq<Placement>
    decreases |rows|
  {
    if rows == [] then []
    else
      var plan := PlaceRow(occupied, row, 0, rows[0]);
      plan.placed + Placements(plan.occupied, row + 1, rows[1..])
  }

  /** A sheet apart from its shape. */
  function Content(s: Sheet): Sheet {
    s.(rows := 0, columns := 0)
  }

  lemma {:induction false} PlacedContent(s: Sheet, t: Sheet, ps: seq<Placement>)
    requires Content(s) == Content(t)
    ensures Content(PlacedAll(s, ps)) == Content(PlacedAll(t, ps))
    decreases |ps|
  {
    if ps != [] {
      PlacedContent(Placed(s, ps[0]), Placed(t, ps[0]), ps[1..]);
    }
  }

  lemma {:induction false} PlacedJoin(s: Sheet, ps: seq<Placement>, qs: seq<Placement>)
    ensures PlacedAll(s, ps + qs) == PlacedAll(PlacedAll(s, ps), qs)
    decreases |ps|
  {
    if ps == [] {
      assert ps + qs == qs;
    } else {
      assert (ps + qs)[1..] == ps[1..] + qs;
      PlacedJoin(Placed(s, ps[0]), ps[1..], qs);
    }
  }

  lemma {:induction false} TableContent(s: Sheet, occupied: Occupied, row: nat, rows: seq<seq<Cell>>)
    ensures Content(TablePlaced(s, occupied, row, rows)) == Content(PlacedAll(s, Placements(occupied, row, rows)))
    decreases |rows|
  {
    if rows != [] {
      var plan := PlaceRow(occupied, row, 0, rows[0]);
      var more := Placements(plan.occupied, row + 1, rows[1..]);
      TableContent(RowPlaced(s, plan, row), plan.occupied, row + 1, rows[1..]);
      PlacedContent(RowPlaced(s, plan, row), PlacedAll(s, plan.placed), more);
      PlacedJoin(s, plan.placed, more);
    }
  }

  // ---- where cells say they come from ----

  /** Every cell that says where it comes from was placed there. */
  predicate AllTold(ps: seq<Placement>) {
    forall i | 0 <= i < |ps| && ps[i].cell.provenance.Some? :: ps[i].cell.provenance.value == ps[i].at
  }

  lemma {:induction false} ProvenanceChecked(s: Sheet, ps: seq<Placement>)
    ensures PlacedAll(s, ps).provenanceOrder <==> s.provenanceOrder && AllTold(ps)
    decreases |ps|
  {
    if ps != [] {
      ProvenanceChecked(Placed(s, ps[0]), ps[1..]);
      assert forall i | 0 < i < |ps| :: ps[i] == ps[1..][i - 1];
      assert forall i | 0 <= i < |ps[1..]| :: ps[1..][i] == ps[i + 1];
    }
  }

  // ---- order and duplicates of any placements ----

  predicate Less(a: Coordinate, b: Coordinate) {
    a.0 < b.0 || (a.0 == b.0 && a.1 < b.1)
  }

  predicate Increasing(ps: seq<Placement>) {
    forall i, j | 0 <= i < j < |ps| :: Less(ps[i].at, ps[j].at)
  }

  predicate After(last: Option<Coordinate>, ps: seq<Placement>) {
    last.Some? ==> forall i | 0 <= i < |ps| :: Less(last.value, ps[i].at)
  }

  /** The order flag stays set exactly when all coordinates increase strictly. */
  lemma {:induction false} OrderFlag(s: Sheet, ps: seq<Placement>)
    ensures PlacedAll(s, ps).coordinateOrder
       <==> s.coordinateOrder && Increasing(ps) && After(s.last, ps)
    decreases |ps|
  {
    if ps != [] {
      var rest := ps[1..];
      OrderFlag(Placed(s, ps[0]), rest);
      assert forall i | 0 < i < |ps| :: ps[i] == rest[i - 1];
      assert Increasing(ps) <==> Increasing(rest) && After(Some(ps[0].at), rest) by {
        assert forall i | 0 <= i < |rest| :: rest[i] == ps[i + 1];
      }
      assert After(s.last, ps) ==> s.last.None? || Less(s.last.value, ps[0].at);
    }
  }

  /** Coordinates that increase strictly are never reported as duplicates. */
  lemma {:induction false} NoDuplicates(s: Sheet, ps: seq<Placement>)
    requires Increasing(ps) && forall i | 0 <= i < |ps| :: ps[i].at !in s.seen
    ensures PlacedAll(s, ps).duplicates == s.duplicates
    decreases |ps|
  {
    if ps != [] {
      var rest := ps[1..];
      assert forall i | 0 <= i < |rest| :: rest[i] == ps[i + 1] && Less(ps[0].at, rest[i].at);
      NoDuplicates(Placed(s, ps[0]), rest);
    }
  }

  // ---- the rows of a table ----

  /** Every cell but the last of its row takes at least one column. */
  predicate Advances(cells: seq<Cell>) {
    forall i | 0 <= i < |cells| - 1 :: cells[i].columnSpan >= 1
  }

  predicate AllAdvance(rows: seq<seq<Cell>>) {
    forall r | 0 <= r < |rows| :: Advances(rows[r])
  }

  predicate InRow(ps: seq<Placement>, row: nat, column: int) {
    forall i | 0 <= i < |ps| :: ps[i].at.0 == row && ps[i].at.1 >= column
  }

  lemma {:induction false} RowIncreases(occupied: Occupied, row: nat, column: int, cells: seq<Cell>)
    requires Advances(cells)
    ensures Increasing(PlaceRow(occupied, row, column, cells).placed)
    ensures InRow(PlaceRow(occupied, row, column, cells).placed, row, column)
    decreases |cells|
  {
    if |cells| == 1 {
      assert cells[1..] == [];
    } else if |cells| > 1 {
      var at := Skip(occupied, row, column);
      assert Advances(cells[1..]) by {
        assert forall i | 0 <= i < |cells[1..]| :: cells[1..][i] == cells[i + 1];
      }
      RowIncreases(Cover(occupied, row, at, cells[0]), row, at + cells[0].columnSpan, cells[1..]);
    }
  }

  lemma {:induction false} RowStays(occupied: Occupied, row: nat, column: int, cells: seq<Cell>)
    ensures var placed := PlaceRow(occupied, row, column, cells).placed;
      |placed| == |cells| && forall i | 0 <= i < |placed| :: placed[i].at.0 == row
    decreases |cells|
  {
    if cells != [] {
      var at := Skip(occupied, row, column);
      RowStays(Cover(occupied, row, at, cells[0]), row, at + cells[0].columnSpan, cells[1..]);
    }
  }

  /** A cell that takes no column leaves its own column, or one before it, to the next cell. */
  lemma {:induction false} RowBreaks(occupied: Occupied, row: nat, column: int, cells: seq<Cell>) returns (i: nat)
    requires !Advances(cells)
    ensures var placed := PlaceRow(occupied, row, column, cells).placed;
      i + 1 < |placed| && !Less(placed[i].at, placed[i + 1].at)
    decreases |cells|
  {
    var at := Skip(occupied, row, column);
    var covered, next := Cover(occupied, row, at, cells[0]), at + cells[0].columnSpan;
    RowStays(covered, row, next, cells[1..]);
    RowStays(occupied, row, column, cells);
    if cells[0].columnSpan < 1 {
      i := 0;
      assert forall k :: k in covered <==> k in occupied;
      assert !Taken(covered, row, at);
      assert Skip(covered, row, next) <= at;
    } else {
      assert !Advances(cells[1..]) by {
        var k :| 0 <= k < |cells| - 1 && cells[k].columnSpan < 1;
        assert cells[1..][k - 1] == cells[k];
      }
      var j := RowBreaks(covered, row, next, cells[1..]);
      i := j + 1;
    }
  }

  predicate FromRow(ps: seq<Placement>, row: nat) {
    forall i | 0 <= i < |ps| :: ps[i].at.0 >= row
  }

  lemma {:induction false} TableOrder(occupied: Occupied, row: nat, rows: seq<seq<Cell>>)
    ensures Increasing(Placements(occupied, row, rows)) <==> AllAdvance(rows)
    ensures FromRow(Placements(occupied, row, rows), row)
    decreases |rows|
  {
    if rows != [] {
      var plan := PlaceRow(occupied, row, 0, rows[0]);
      var more := Placements(plan.occupied, row + 1, rows[1..]);
      TableOrder(plan.occupied, row + 1, rows[1..]);
      RowStays(occupied, row, 0, rows[0]);
      RowsApart(plan.placed, more, row);
      assert AllAdvance(rows) <==> Advances(rows[0]) && AllAdvance(rows[1..]) by {
        assert forall r | 0 <= r < |rows[1..]| :: rows[1..][r] == rows[r + 1];
        assert forall r | 0 < r < |rows| :: rows[r] == rows[1..][r - 1];
      }
      if Advances(rows[0]) {
        RowIncreases(occupied, row, 0, rows[0]);
      } else {
        var i := RowBreaks(occupied, row, 0, rows[0]);
      }
    }
  }

  lemma RowsApart(ps: seq<Placement>, qs: seq<Placement>, row: nat)
    requires FromRow(qs, row + 1) && forall i | 0 <= i < |ps| :: ps[i].at.0 == row
    ensures Increasing(ps + qs) <==> Increasing(ps) && Increasing(qs)
  {
    if Increasing(ps + qs) {
      assert forall i | 0 <= i < |ps| :: ps[i] == (ps + qs)[i];
      assert forall i | 0 <= i < |qs| :: qs[i] == (ps + qs)[|ps| + i];
    }
  }

  lemma OneTable(s: Sheet, rows: seq<seq<Cell>>)
    ensures BlocksRecorded(s, 0, [Table(rows)]) == TablePlaced(s, map[], 0, rows)
  {
    var blocks: seq<Block> := [Table(rows)];
    assert blocks[1..] == [];
    assert BlocksRecorded(TablePlaced(s, map[], 0, rows), 0, []) == TablePlaced(s, map[], 0, rows);
  }

  /** For a sheet of one table the order flag stays set exactly when every cell but the last of its row takes
      at least one column, and then no coordinate is reported as a duplicate. */
  lemma OneTableInOrder(rows: seq<seq<Cell>>, merges: seq<Range>)
    ensures var sheet := BlocksRecorded(Fresh(merges), 0, [Table(rows)]);
      && (sheet.coordinateOrder <==> AllAdvance(rows))
      && (AllAdvance(rows) ==> sheet.duplicates == [] && Increasing(Placements(map[], 0, rows)))
  {
    var s, ps := Fresh(merges), Placements(map[], 0, rows);
    OneTable(s, rows);
    TableContent(s, map[], 0, rows);
    TableOrder(map[], 0, rows);
    OrderFlag(s, ps);
    if AllAdvance(rows) {
      NoDuplicates(s, ps);
    }
  }
}
