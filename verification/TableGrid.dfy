/** The row grid of a table with recognized cells (src/assembly_table_data.cpp). */
module TableGrid {
  import opened Bytes
  import opened OcrPages

  predicate Covers(cell: Cell, row: nat, col: nat) {
    cell.row <= row < cell.row + cell.rowSpan && cell.col <= col < cell.col + cell.colSpan
  }

  /** The first of the first n cells that covers a position, -1 when none does. */
  function OwnerAt(cells: seq<Cell>, n: nat, row: nat, col: nat): (k: int)
    requires n <= |cells|
    ensures k == -1 || (0 <= k < n && Covers(cells[k], row, col) && forall m :: 0 <= m < k ==> !Covers(cells[m], row, col))
    ensures k == -1 ==> forall m :: 0 <= m < n ==> !Covers(cells[m], row, col)
  {
    if n == 0 then -1
    else
      var before := OwnerAt(cells, n - 1, row, col);
      if before >= 0 then before else if Covers(cells[n - 1], row, col) then n - 1 else -1
  }

  // ----- Row-major positions.

  function At(cols: nat, row: nat, col: nat): nat { row * cols + col }

  lemma AtInRange(rows: nat, cols: nat, row: nat, col: nat)
    requires row < rows && col < cols
    ensures At(cols, row, col) < rows * cols
  {
    assert (row + 1) * cols <= rows * cols;
  }

  lemma AtOrders(cols: nat, row: nat, col: nat, row': nat, col': nat)
    requires col < cols && col' < cols
    ensures row < row' ==> At(cols, row, col) < At(cols, row', col')
    ensures At(cols, row, col) == At(cols, row', col') <==> row == row' && col == col'
  {
    RowOrders(cols, row, col, row', col');
    RowOrders(cols, row', col', row, col);
  }

  lemma RowOrders(cols: nat, row: nat, col: nat, row': nat, col': nat)
    requires col < cols && col' < cols
    ensures row < row' ==> At(cols, row, col) < At(cols, row', col')
  {
    assert row < row' ==> (row + 1) * cols <= row' * cols;
  }

  // ----- The owners.

  function Slot(owner: seq<int>, cols: nat, row: nat, col: nat): int {
    if At(cols, row, col) < |owner| then owner[At(cols, row, col)] else -1
  }

  /** Positions before (row, col), row by row, know of the first n + 1 cells, the others of the first n. */
  function Known(n: nat, row: nat, col: nat, r: nat, c: nat): nat {
    if r < row || (r == row && c < col) then n + 1 else n
  }

  ghost predicate Owns(owner: seq<int>, cells: seq<Cell>, n: nat, rows: nat, cols: nat, row: nat, col: nat)
    requires n < |cells|
  {
    && |owner| == rows * cols
    && forall r: nat, c: nat :: r < rows && c < cols ==> Slot(owner, cols, r, c) == OwnerAt(cells, Known(n, row, col, r, c), r, c)
  }

  /** All positions know of the first n cells. */
  ghost predicate OwnsAll(owner: seq<int>, cells: seq<Cell>, n: nat, rows: nat, cols: nat)
    requires n <= |cells|
  {
    |owner| == rows * cols && forall r: nat, c: nat :: r < rows && c < cols ==> Slot(owner, cols, r, c) == OwnerAt(cells, n, r, c)
  }

  lemma NotCovered(cells: seq<Cell>, n: nat, row: nat, col: nat)
    requires n < |cells| && !Covers(cells[n], row, col)
    ensures OwnerAt(cells, n + 1, row, col) == OwnerAt(cells, n, row, col)
  {
  }

  lemma StartCell(owner: seq<int>, cells: seq<Cell>, n: nat, rows: nat, cols: nat)
    requires n < |cells| && OwnsAll(owner, cells, n, rows, cols)
    ensures Owns(owner, cells, n, rows, cols, cells[n].row, 0)
  {
    forall r: nat, c: nat | r < rows && c < cols ensures Slot(owner, cols, r, c) == OwnerAt(cells, Known(n, cells[n].row, 0, r, c), r, c) {
      if r < cells[n].row { NotCovered(cells, n, r, c); }
    }
  }

  lemma SkipTo(owner: seq<int>, cells: seq<Cell>, n: nat, rows: nat, cols: nat, row: nat)
    requires n < |cells| && Owns(owner, cells, n, rows, cols, row, 0)
    ensures Owns(owner, cells, n, rows, cols, row, cells[n].col)
  {
    forall r: nat, c: nat | r < rows && c < cols ensures Slot(owner, cols, r, c) == OwnerAt(cells, Known(n, row, cells[n].col, r, c), r, c) {
      if r == row && c < cells[n].col { NotCovered(cells, n, r, c); }
    }
  }

  lemma EndRow(owner: seq<int>, cells: seq<Cell>, n: nat, rows: nat, cols: nat, row: nat, col: nat)
    requires n < |cells| && Owns(owner, cells, n, rows, cols, row, col)
    requires col >= cols || col >= cells[n].col + cells[n].colSpan
    ensures Owns(owner, cells, n, rows, cols, row + 1, 0)
  {
    forall r: nat, c: nat | r < rows && c < cols ensures Slot(owner, cols, r, c) == OwnerAt(cells, Known(n, row + 1, 0, r, c), r, c) {
      if r == row && c >= col { NotCovered(cells, n, r, c); }
    }
  }

  lemma EndCell(owner: seq<int>, cells: seq<Cell>, n: nat, rows: nat, cols: nat, row: nat)
    requires n < |cells| && Owns(owner, cells, n, rows, cols, row, 0)
    requires row >= rows || row >= cells[n].row + cells[n].rowSpan
    ensures OwnsAll(owner, cells, n + 1, rows, cols)
  {
    forall r: nat, c: nat | r < rows && c < cols ensures Slot(owner, cols, r, c) == OwnerAt(cells, n + 1, r, c) {
      if r >= row { NotCovered(cells, n, r, c); }
    }
  }

  /** One position inside the cell: it takes the cell if nothing before does. */
  lemma SetSlot(owner: seq<int>, cells: seq<Cell>, n: nat, rows: nat, cols: nat, row: nat, col: nat)
    requires n < |cells| && Owns(owner, cells, n, rows, cols, row, col)
    requires row < rows && col < cols && Covers(cells[n], row, col)
    ensures At(cols, row, col) < |owner|
    ensures
      var at := At(cols, row, col);
      Owns(if owner[at] < 0 then owner[at := n] else owner, cells, n, rows, cols, row, col + 1)
  {
    AtInRange(rows, cols, row, col);
    var at := At(cols, row, col);
    var next := if owner[at] < 0 then owner[at := n] else owner;
    assert owner[at] == Slot(owner, cols, row, col);
    forall r: nat, c: nat | r < rows && c < cols ensures Slot(next, cols, r, c) == OwnerAt(cells, Known(n, row, col + 1, r, c), r, c) {
      AtOrders(cols, row, col, r, c);
      hide At;
      assert Slot(owner, cols, r, c) == OwnerAt(cells, Known(n, row, col, r, c), r, c);
    }
  }

  function Min(a: nat, b: nat): nat { if a <= b then a else b }

  /** One cell claims the free positions among those it covers. */
  method ClaimPositions(owner: array<int>, cells: seq<Cell>, n: nat, rows: nat, cols: nat)
    requires n < |cells| && OwnsAll(owner[..], cells, n, rows, cols)
    modifies owner
    ensures OwnsAll(owner[..], cells, n + 1, rows, cols)
  {
    hide Owns, OwnsAll, At, Slot;
    var cell := cells[n];
    StartCell(owner[..], cells, n, rows, cols);
    var row := cell.row;
    while row < cell.row + cell.rowSpan && row < rows
      invariant cell.row <= row && Owns(owner[..], cells, n, rows, cols, row, 0)
    {
      SkipTo(owner[..], cells, n, rows, cols, row);
      var col := cell.col;
      while col < cell.col + cell.colSpan && col < cols
        invariant cell.col <= col && Owns(owner[..], cells, n, rows, cols, row, col)
      {
        SetSlot(owner[..], cells, n, rows, cols, row, col);
        ghost var before := owner[..];
        var at := At(cols, row, col);
        if owner[at] < 0 { owner[at] := n; }
        assert owner[..] == if before[at] < 0 then before[at := n] else before;
        col := col + 1;
      }
      EndRow(owner[..], cells, n, rows, cols, row, col);
      row := row + 1;
    }
    EndCell(owner[..], cells, n, rows, cols, row);
  }

  // ----- The grid.

  datatype Position = Covered(cell: nat) | Blank(row: nat, col: nat)

  function PositionAt(cells: seq<Cell>, row: nat, col: nat): Position {
    var k := OwnerAt(cells, |cells|, row, col);
    if k >= 0 then Covered(k) else Blank(row, col)
  }

  /** The least number of rows and columns that hold every cell. */
  ghost predicate Holds(cells: seq<Cell>, rows: nat, cols: nat) {
    && (forall k :: 0 <= k < |cells| ==> cells[k].row + cells[k].rowSpan <= rows && cells[k].col + cells[k].colSpan <= cols)
    && (rows > 0 ==> exists k :: 0 <= k < |cells| && cells[k].row + cells[k].rowSpan == rows)
    && (cols > 0 ==> exists k :: 0 <= k < |cells| && cells[k].col + cells[k].colSpan == cols)
  }

  method Extent(cells: seq<Cell>) returns (rows: nat, cols: nat)
    ensures Holds(cells, rows, cols)
  {
    rows, cols := 0, 0;
    for n := 0 to |cells|
      invariant Holds(cells[..n], rows, cols)
    {
      ghost var before := cells[..n];
      assert cells[..n + 1] == before + [cells[n]];
      assert forall k :: 0 <= k < n ==> cells[..n + 1][k] == before[k];
      if rows < cells[n].row + cells[n].rowSpan { rows := cells[n].row + cells[n].rowSpan; }
      if cols < cells[n].col + cells[n].colSpan { cols := cells[n].col + cells[n].colSpan; }
      assert cells[..n + 1][n] == cells[n];
    }
    assert cells[..|cells|] == cells;
  }

  method BuildGrid(cells: seq<Cell>) returns (grid: seq<seq<Position>>, cols: nat)
    ensures Holds(cells, |grid|, cols)
    ensures forall r: nat :: r < |grid| ==> |grid[r]| == cols
    ensures forall r: nat, c: nat :: r < |grid| && c < cols ==> grid[r][c] == PositionAt(cells, r, c)
  {
    hide OwnerAt;
    var rows: nat;
    rows, cols := Extent(cells);
    hide Holds, At;
    var owner := new int[rows * cols](_ => -1);
    NoOwners(cells, owner[..], rows, cols);
    for n := 0 to |cells|
      invariant OwnsAll(owner[..], cells, n, rows, cols)
    {
      ClaimPositions(owner, cells, n, rows, cols);
    }
    grid := [];
    ghost var slots := owner[..];
    for row: nat := 0 to rows
      invariant owner[..] == slots
      invariant |grid| == row && forall r: nat :: r < row ==> |grid[r]| == cols
      invariant forall r: nat, c: nat :: r < row && c < cols ==> grid[r][c] == PositionAt(cells, r, c)
    {
      var line := [];
      for col: nat := 0 to cols
        invariant owner[..] == slots
        invariant |line| == col && forall c: nat :: c < col ==> line[c] == PositionAt(cells, row, c)
      {
        AtInRange(rows, cols, row, col);
        assert owner[..][At(cols, row, col)] == Slot(owner[..], cols, row, col);
        var k := owner[At(cols, row, col)];
        assert k == OwnerAt(cells, |cells|, row, col);
        ghost var before := line;
        line := line + [if k >= 0 then Covered(k) else Blank(row, col)];
        assert line[col] == PositionAt(cells, row, col);
        assert forall c: nat :: c < col ==> line[c] == before[c];
      }
      grid := grid + [line];
    }
  }

  lemma NoOwners(cells: seq<Cell>, owner: seq<int>, rows: nat, cols: nat)
    requires |owner| == rows * cols && forall i :: 0 <= i < |owner| ==> owner[i] == -1
    ensures OwnsAll(owner, cells, 0, rows, cols)
  {
  }

  /** Where no earlier cell is in the way, a cell fills exactly the positions its spans cover; what no cell
      covers stays blank. */
  lemma GridIsCells(cells: seq<Cell>, row: nat, col: nat)
    ensures PositionAt(cells, row, col).Blank? <==> forall k :: 0 <= k < |cells| ==> !Covers(cells[k], row, col)
    ensures PositionAt(cells, row, col).Blank? ==> PositionAt(cells, row, col) == Blank(row, col)
    ensures forall k :: 0 <= k < |cells| && Covers(cells[k], row, col) && (forall m :: 0 <= m < k ==> !Covers(cells[m], row, col)) ==>
        PositionAt(cells, row, col) == Covered(k)
  {
  }
}
