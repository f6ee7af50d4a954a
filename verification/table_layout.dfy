/**
  Table layout: the rows of head, bodies and foot flattened into one
  sequence, each cell anchored at the first column of its row not covered
  by an earlier cell's row or column span, and each cell's width as the sum
  of the even column widths it spans.
 */
module TableLayout {
  import opened Wrappers
  import opened DocTree

  const TOTAL_TABLE_WIDTH: nat := 45000
  const ROW_HEIGHT: nat := 1000

  // ---------------------------------------------------------------------
  // Flattening

  /** Rows of the bodies in order: per body, its intermediate header rows and then its main rows. */
  function BodyRows(bodies: seq<TableBody>): seq<Row>
    decreases |bodies|
  {
    if bodies == [] then [] else BodyRows(bodies[..|bodies| - 1]) + bodies[|bodies| - 1].interHeaders + bodies[|bodies| - 1].mainRows
  }

  /** The rows of the table in the order they are written: head rows, body rows, foot rows. */
  method FlattenRows(head: seq<Row>, bodies: seq<TableBody>, foot: seq<Row>) returns (rows: seq<Row>)
    ensures rows == head + BodyRows(bodies) + foot
  {
    rows := [];
    for k := 0 to |head|
      invariant rows == head[..k]
    {
      rows := rows + [head[k]];
      assert head[..k + 1] == head[..k] + [head[k]];
    }
    assert head[..|head|] == head;
    for b := 0 to |bodies|
      invariant rows == head + BodyRows(bodies[..b])
    {
      var body := bodies[b];
      for k := 0 to |body.interHeaders|
        invariant rows == head + BodyRows(bodies[..b]) + body.interHeaders[..k]
      {
        rows := rows + [body.interHeaders[k]];
        assert body.interHeaders[..k + 1] == body.interHeaders[..k] + [body.interHeaders[k]];
      }
      assert body.interHeaders[..|body.interHeaders|] == body.interHeaders;
      for k := 0 to |body.mainRows|
        invariant rows == head + BodyRows(bodies[..b]) + body.interHeaders + body.mainRows[..k]
      {
        rows := rows + [body.mainRows[k]];
        assert body.mainRows[..k + 1] == body.mainRows[..k] + [body.mainRows[k]];
      }
      assert body.mainRows[..|body.mainRows|] == body.mainRows;
      assert bodies[..b + 1][..b] == bodies[..b];
    }
    assert bodies[..|bodies|] == bodies;
    for k := 0 to |foot|
      invariant rows == head + BodyRows(bodies) + foot[..k]
    {
      rows := rows + [foot[k]];
      assert foot[..k + 1] == foot[..k] + [foot[k]];
    }
    assert foot[..|foot|] == foot;
  }

  /** `row` is a head row, a foot row, or a row of one of the bodies. */
  predicate InTable(row: Row, head: seq<Row>, bodies: seq<TableBody>, foot: seq<Row>)
  {
    || row in head
    || row in foot
    || exists k :: 0 <= k < |bodies| && (row in bodies[k].interHeaders || row in bodies[k].mainRows)
  }

  /** Every flattened row comes from the table it was flattened from. */
  lemma {:induction false} FlatRowOrigin(head: seq<Row>, bodies: seq<TableBody>, foot: seq<Row>, i: nat)
    requires i < |head + BodyRows(bodies) + foot|
    ensures InTable((head + BodyRows(bodies) + foot)[i], head, bodies, foot)
  {
    var rows := head + BodyRows(bodies) + foot;
    if i < |head| {
      assert rows[i] == head[i];
    } else if i < |head| + |BodyRows(bodies)| {
      assert rows[i] == BodyRows(bodies)[i - |head|];
      BodyRowOrigin(bodies, i - |head|);
    } else {
      assert rows[i] == foot[i - |head| - |BodyRows(bodies)|];
    }
  }

  lemma {:induction false} BodyRowOrigin(bodies: seq<TableBody>, i: nat)
    requires i < |BodyRows(bodies)|
    ensures exists k :: 0 <= k < |bodies| && (BodyRows(bodies)[i] in bodies[k].interHeaders || BodyRows(bodies)[i] in bodies[k].mainRows)
    decreases |bodies|
  {
    var init := bodies[..|bodies| - 1];
    var last := bodies[|bodies| - 1];
    var n := |BodyRows(init)|;
    if i < n {
      BodyRowOrigin(init, i);
      var k :| 0 <= k < |init| && (BodyRows(init)[i] in init[k].interHeaders || BodyRows(init)[i] in init[k].mainRows);
      assert init[k] == bodies[k];
      assert BodyRows(bodies)[i] == BodyRows(init)[i];
    } else if i < n + |last.interHeaders| {
      assert BodyRows(bodies)[i] == last.interHeaders[i - n];
    } else {
      assert BodyRows(bodies)[i] == last.mainRows[i - n - |last.interHeaders|];
    }
  }

  // ---------------------------------------------------------------------
  // Placement

  /** Where a cell goes: its anchor row and column and its spans. */
  datatype Placement = Placement(rowAddr: nat, colAddr: nat, rowSpan: nat, colSpan: nat)

  predicate Covers(p: Placement, r: nat, c: nat)
  {
    p.rowAddr <= r < p.rowAddr + p.rowSpan && p.colAddr <= c < p.colAddr + p.colSpan
  }

  /** Some placement among `ps` covers position (r, c). */
  predicate Taken(ps: seq<Placement>, r: nat, c: nat)
  {
    exists k :: 0 <= k < |ps| && Covers(ps[k], r, c)
  }

  /** All placements of the rows of a grid, row by row. */
  function Flat(grid: seq<seq<Placement>>): seq<Placement>
    decreases |grid|
  {
    if grid == [] then [] else Flat(grid[..|grid| - 1]) + grid[|grid| - 1]
  }

  /** The column a row's cursor is at before its `j`-th cell: just past the previous cell's span. */
  function Cursor(rowPs: seq<Placement>, j: nat): nat
    requires j <= |rowPs|
  {
    if j == 0 then 0 else rowPs[j - 1].colAddr + rowPs[j - 1].colSpan
  }

  /** `col` is the first column at or after `cursor` in row `r` that no earlier placement covers. */
  predicate FirstFree(before: seq<Placement>, r: nat, cursor: nat, col: nat)
  {
    cursor <= col && !Taken(before, r, col) && forall c :: cursor <= c < col ==> Taken(before, r, c)
  }

  /** The layout rule: row address is the row index, spans are the cell's, the anchor is the first free column. */
  ghost predicate IsLayout(rows: seq<Row>, grid: seq<seq<Placement>>)
  {
    && |grid| == |rows|
    && forall r :: 0 <= r < |rows| ==> RowOk(rows[r].cells, Flat(grid[..r]), grid[r], r)
  }

  /** Row `r` laid out after the placements `before` of the earlier rows. */
  ghost predicate RowOk(cells: seq<Cell>, before: seq<Placement>, rowPs: seq<Placement>, r: nat)
  {
    && |rowPs| == |cells|
    && forall j :: 0 <= j < |rowPs| ==>
      && rowPs[j].rowAddr == r
      && rowPs[j].rowSpan == cells[j].rowSpan
      && rowPs[j].colSpan == cells[j].colSpan
      && FirstFree(before + rowPs[..j], r, Cursor(rowPs, j), rowPs[j].colAddr)
  }

  /** A layout has one placement per cell of each row, with the cell's spans. */
  lemma LayoutShape(rows: seq<Row>, grid: seq<seq<Placement>>)
    requires IsLayout(rows, grid)
    ensures |grid| == |rows|
    ensures forall i :: 0 <= i < |rows| ==> |grid[i]| == |rows[i].cells|
    ensures forall i, j :: 0 <= i < |rows| && 0 <= j < |rows[i].cells| ==>
      grid[i][j].rowAddr == i && grid[i][j].rowSpan == rows[i].cells[j].rowSpan && grid[i][j].colSpan == rows[i].cells[j].colSpan
  {
    forall i | 0 <= i < |rows|
      ensures |grid[i]| == |rows[i].cells|
      ensures forall j :: 0 <= j < |rows[i].cells| ==>
        grid[i][j].rowAddr == i && grid[i][j].rowSpan == rows[i].cells[j].rowSpan && grid[i][j].colSpan == rows[i].cells[j].colSpan
    {
      assert RowOk(rows[i].cells, Flat(grid[..i]), grid[i], i);
    }
  }

  lemma TakenAppend(ps: seq<Placement>, p: Placement, r: nat, c: nat)
    ensures Taken(ps + [p], r, c) <==> Taken(ps, r, c) || Covers(p, r, c)
  {
    if Taken(ps + [p], r, c) {
      var k :| 0 <= k < |ps| + 1 && Covers((ps + [p])[k], r, c);
      if k < |ps| {
        assert Covers(ps[k], r, c);
      }
    }
    if Taken(ps, r, c) {
      var k :| 0 <= k < |ps| && Covers(ps[k], r, c);
      assert (ps + [p])[k] == ps[k];
    }
    if Covers(p, r, c) {
      assert (ps + [p])[|ps|] == p;
    }
  }

  /** A column bound past every covered position. */
  function ColBound(ps: seq<Placement>): (b: nat)
    ensures forall k :: 0 <= k < |ps| ==> ps[k].colAddr + ps[k].colSpan <= b
    decreases |ps|
  {
    if ps == [] then 0
    else
      var rest := ColBound(ps[..|ps| - 1]);
      var last := ps[|ps| - 1].colAddr + ps[|ps| - 1].colSpan;
      assert forall k :: 0 <= k < |ps| - 1 ==> ps[k] == ps[..|ps| - 1][k];
      if rest < last then last else rest
  }

  /** Marks every position the placement spans as occupied. */
  method MarkOccupied(occ: set<(nat, nat)>, p: Placement) returns (occ': set<(nat, nat)>)
    ensures forall r: nat, c: nat :: (r, c) in occ' <==> (r, c) in occ || Covers(p, r, c)
  {
    occ' := occ;
    for dr := 0 to p.rowSpan
      invariant forall r: nat, c: nat :: (r, c) in occ' <==>
        ((r, c) in occ || (p.rowAddr <= r < p.rowAddr + dr && p.colAddr <= c < p.colAddr + p.colSpan))
    {
      for dc := 0 to p.colSpan
        invariant forall r: nat, c: nat :: (r, c) in occ' <==>
          ((r, c) in occ || (p.rowAddr <= r < p.rowAddr + dr && p.colAddr <= c < p.colAddr + p.colSpan)
          || (r == p.rowAddr + dr && p.colAddr <= c < p.colAddr + dc))
      {
        occ' := occ' + {(p.rowAddr + dr, p.colAddr + dc)};
      }
    }
  }

  /** Anchors one cell at the first free column from the cursor on, and marks what it spans. */
  method PlaceCell(occ: set<(nat, nat)>, ghost placed: seq<Placement>, r: nat, cursor: nat, cell: Cell)
    returns (p: Placement, occ': set<(nat, nat)>)
    requires forall a: nat, b: nat :: (a, b) in occ <==> Taken(placed, a, b)
    ensures p.rowAddr == r && p.rowSpan == cell.rowSpan && p.colSpan == cell.colSpan
    ensures FirstFree(placed, r, cursor, p.colAddr)
    ensures forall a: nat, b: nat :: (a, b) in occ' <==> Taken(placed + [p], a, b)
  {
    var col := cursor;
    while (r, col) in occ
      invariant cursor <= col
      invariant forall c :: cursor <= c < col ==> Taken(placed, r, c)
      decreases ColBound(placed) - col
    {
      col := col + 1;
    }
    p := Placement(r, col, cell.rowSpan, cell.colSpan);
    occ' := MarkOccupied(occ, p);
    forall a: nat, b: nat
      ensures (a, b) in occ' <==> Taken(placed + [p], a, b)
    {
      TakenAppend(placed, p, a, b);
    }
  }

  lemma RowOkExtend(cells: seq<Cell>, before: seq<Placement>, rowPs: seq<Placement>, r: nat, cell: Cell, p: Placement)
    requires RowOk(cells, before, rowPs, r)
    requires p.rowAddr == r && p.rowSpan == cell.rowSpan && p.colSpan == cell.colSpan
    requires FirstFree(before + rowPs, r, Cursor(rowPs, |rowPs|), p.colAddr)
    ensures RowOk(cells + [cell], before, rowPs + [p], r)
  {
    var rowPs' := rowPs + [p];
    forall j | 0 <= j < |rowPs'|
      ensures FirstFree(before + rowPs'[..j], r, Cursor(rowPs', j), rowPs'[j].colAddr)
    {
      if j < |rowPs| {
        assert rowPs'[..j] == rowPs[..j];
      } else {
        assert rowPs'[..j] == rowPs;
      }
    }
  }

  /** Places the cells of row `r`, given the positions earlier rows occupy. */
  method LayoutRow(occ: set<(nat, nat)>, ghost before: seq<Placement>, r: nat, cells: seq<Cell>)
    returns (rowPs: seq<Placement>, occ': set<(nat, nat)>)
    requires forall a: nat, b: nat :: (a, b) in occ <==> Taken(before, a, b)
    ensures RowOk(cells, before, rowPs, r)
    ensures forall a: nat, b: nat :: (a, b) in occ' <==> Taken(before + rowPs, a, b)
  {
    rowPs := [];
    occ' := occ;
    assert before + rowPs == before;
    var col: nat := 0;
    for j := 0 to |cells|
      invariant |rowPs| == j && col == Cursor(rowPs, j)
      invariant RowOk(cells[..j], before, rowPs, r)
      invariant forall a: nat, b: nat :: (a, b) in occ' <==> Taken(before + rowPs, a, b)
    {
      var p;
      p, occ' := PlaceCell(occ', before + rowPs, r, col, cells[j]);
      RowOkExtend(cells[..j], before, rowPs, r, cells[j], p);
      assert cells[..j + 1] == cells[..j] + [cells[j]];
      assert before + (rowPs + [p]) == before + rowPs + [p];
      rowPs := rowPs + [p];
      col := p.colAddr + p.colSpan;
    }
    assert cells[..|cells|] == cells;
  }

  /** Places every cell of every row, carrying the occupied positions from row to row. */
  method LayoutGrid(rows: seq<Row>) returns (grid: seq<seq<Placement>>)
    ensures IsLayout(rows, grid)
  {
    grid := [];
    var occ: set<(nat, nat)> := {};
    for r := 0 to |rows|
      invariant IsLayout(rows[..r], grid)
      invariant forall a: nat, b: nat :: (a, b) in occ <==> Taken(Flat(grid), a, b)
    {
      var rowPs;
      rowPs, occ := LayoutRow(occ, Flat(grid), r, rows[r].cells);
      LayoutSnoc(rows, grid, rowPs, r);
      grid := grid + [rowPs];
    }
    assert rows[..|rows|] == rows;
  }

  /** Laying out one more row extends a layout of the earlier rows. */
  lemma LayoutSnoc(rows: seq<Row>, grid: seq<seq<Placement>>, rowPs: seq<Placement>, r: nat)
    requires r < |rows| && IsLayout(rows[..r], grid)
    requires RowOk(rows[r].cells, Flat(grid), rowPs, r)
    ensures IsLayout(rows[..r + 1], grid + [rowPs])
    ensures Flat(grid + [rowPs]) == Flat(grid) + rowPs
  {
    var grid' := grid + [rowPs];
    assert grid'[..r] == grid;
    forall i | 0 <= i < r + 1
      ensures RowOk(rows[..r + 1][i].cells, Flat(grid'[..i]), grid'[i], i)
    {
      if i < r {
        assert grid'[..i] == grid[..i];
        assert rows[..r + 1][i] == rows[..r][i];
      }
    }
  }

  // ---------------------------------------------------------------------
  // Widths

  /** The even column widths, one per column specification; the truncating division happens only when there is a column. */
  function ColumnWidths(colCnt: nat): (ws: seq<nat>)
    ensures |ws| == colCnt
    ensures forall k :: 0 <= k < colCnt ==> ws[k] == TOTAL_TABLE_WIDTH / colCnt
  {
    seq(colCnt, k requires 0 <= k < colCnt => TOTAL_TABLE_WIDTH / colCnt)
  }

  /**
    A cell's width: the widths of the columns it spans summed, with the even
    width for columns past the last specification. With no column
    specification at all, that fallback divides by zero as soon as the cell
    spans a column.
   */
  method CellWidth(colWidths: seq<nat>, colCnt: nat, col: nat, colSpan: nat) returns (w: Option<nat>)
    requires colWidths == ColumnWidths(colCnt)
    ensures colCnt == 0 && colSpan > 0 <==> w.None?
    ensures w.Some? ==> w.value == colSpan * (if colCnt == 0 then 0 else TOTAL_TABLE_WIDTH / colCnt)
  {
    var sum: nat := 0;
    for i := 0 to colSpan
      invariant colCnt > 0 || i == 0
      invariant sum == i * (if colCnt == 0 then 0 else TOTAL_TABLE_WIDTH / colCnt)
    {
      if col + i < |colWidths| {
        sum := sum + colWidths[col + i];
      } else if colCnt == 0 {
        return None;
      } else {
        sum := sum + TOTAL_TABLE_WIDTH / colCnt;
      }
    }
    return Some(sum);
  }

  /** With unit spans everywhere, every cell sits at its own index: row r, column j. */
  lemma {:induction false} UnitSpansGiveDenseGrid(rows: seq<Row>, grid: seq<seq<Placement>>)
    requires IsLayout(rows, grid)
    requires forall r, j :: 0 <= r < |rows| && 0 <= j < |rows[r].cells| ==> rows[r].cells[j].rowSpan == 1 && rows[r].cells[j].colSpan == 1
    ensures forall r, j :: 0 <= r < |grid| && 0 <= j < |grid[r]| ==> grid[r][j].rowAddr == r && grid[r][j].colAddr == j
  {
    forall r, j | 0 <= r < |grid| && 0 <= j < |grid[r]|
      ensures grid[r][j].rowAddr == r && grid[r][j].colAddr == j
    {
      assert RowOk(rows[r].cells, Flat(grid[..r]), grid[r], r);
      FlatRows(rows, grid, r);
      DenseRow(rows[r].cells, Flat(grid[..r]), grid[r], r, j);
    }
  }

  /** Within one row of unit cells whose earlier rows stay above it, cell j sits at column j. */
  lemma {:induction false} DenseRow(cells: seq<Cell>, prefix: seq<Placement>, rowPs: seq<Placement>, r: nat, j: nat)
    requires RowOk(cells, prefix, rowPs, r)
    requires forall i :: 0 <= i < |cells| ==> cells[i].rowSpan == 1 && cells[i].colSpan == 1
    requires forall k :: 0 <= k < |prefix| ==> prefix[k].rowAddr < r && prefix[k].rowSpan == 1
    requires j < |rowPs|
    ensures forall i :: 0 <= i <= j ==> rowPs[i].colAddr == i
    decreases j
  {
    if j > 0 {
      DenseRow(cells, prefix, rowPs, r, j - 1);
    }
    RowOkSpans(cells, prefix, rowPs, r);
    assert FirstFree(prefix + rowPs[..j], r, Cursor(rowPs, j), rowPs[j].colAddr);
    assert Cursor(rowPs, j) == j;
    FreeAtCursor(prefix, rowPs, r, j);
  }

  lemma RowOkSpans(cells: seq<Cell>, before: seq<Placement>, rowPs: seq<Placement>, r: nat)
    requires RowOk(cells, before, rowPs, r)
    requires forall i :: 0 <= i < |cells| ==> cells[i].colSpan == 1
    ensures forall i :: 0 <= i < |rowPs| ==> rowPs[i].colSpan == 1
  {
  }

  /** Nothing above row r, and unit cells at columns 0..j-1 of row r, leave column j of row r free. */
  lemma FreeAtCursor(prefix: seq<Placement>, rowPs: seq<Placement>, r: nat, j: nat)
    requires forall k :: 0 <= k < |prefix| ==> prefix[k].rowAddr < r && prefix[k].rowSpan == 1
    requires j <= |rowPs| && forall i :: 0 <= i < j ==> rowPs[i].colAddr == i && rowPs[i].colSpan == 1
    ensures !Taken(prefix + rowPs[..j], r, j)
  {
    var before := prefix + rowPs[..j];
    forall k | 0 <= k < |before|
      ensures !Covers(before[k], r, j)
    {
      if k >= |prefix| {
        assert before[k] == rowPs[k - |prefix|];
      }
    }
  }

  /** With unit row spans, placements of the rows before row n stay above row n. */
  lemma {:induction false} FlatRows(rows: seq<Row>, grid: seq<seq<Placement>>, n: nat)
    requires IsLayout(rows, grid)
    requires forall r, j :: 0 <= r < |rows| && 0 <= j < |rows[r].cells| ==> rows[r].cells[j].rowSpan == 1 && rows[r].cells[j].colSpan == 1
    requires n <= |grid|
    ensures forall k :: 0 <= k < |Flat(grid[..n])| ==> Flat(grid[..n])[k].rowAddr < n && Flat(grid[..n])[k].rowSpan == 1
    decreases n
  {
    if n > 0 {
      FlatRows(rows, grid, n - 1);
      assert grid[..n][..n - 1] == grid[..n - 1];
      assert RowOk(rows[n - 1].cells, Flat(grid[..n - 1]), grid[n - 1], n - 1);
      assert Flat(grid[..n]) == Flat(grid[..n - 1]) + grid[n - 1];
    }
  }

  /**
    The layout rule only asks the anchor column to be free, not every
    position a cell spans: a row-spanning cell at the end of row 0 and a
    wide cell at the start of row 1 both cover row 1, column 2.
   */
  lemma LayoutMayOverlap()
    ensures
      var rows := [Row([Cell(1, 1, []), Cell(1, 1, []), Cell(2, 1, [])]), Row([Cell(1, 4, [])])];
      var grid := [[Placement(0, 0, 1, 1), Placement(0, 1, 1, 1), Placement(0, 2, 2, 1)], [Placement(1, 0, 1, 4)]];
      IsLayout(rows, grid) && Covers(grid[0][2], 1, 2) && Covers(grid[1][0], 1, 2)
  {
    var rows := [Row([Cell(1, 1, []), Cell(1, 1, []), Cell(2, 1, [])]), Row([Cell(1, 4, [])])];
    var grid := [[Placement(0, 0, 1, 1), Placement(0, 1, 1, 1), Placement(0, 2, 2, 1)], [Placement(1, 0, 1, 4)]];
    assert Flat(grid[..0]) == [];
    assert Flat(grid[..1]) == grid[0] by {
      assert grid[..1][..0] == [];
    }
    assert RowOk(rows[0].cells, Flat(grid[..0]), grid[0], 0) by {
      var ps := grid[0];
      assert ps[..1] == [ps[0]] && ps[..2] == [ps[0], ps[1]];
      assert !Taken(ps[..1], 0, 1);
      assert !Taken(ps[..2], 0, 2);
    }
    assert RowOk(rows[1].cells, Flat(grid[..1]), grid[1], 1) by {
      assert !Taken(grid[0], 1, 0);
    }
  }
}
