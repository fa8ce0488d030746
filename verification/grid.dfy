/** The `Grid` object of Grid.py: the clues of a puzzle and a mutable list of
    rows, which `solve` fills in by propagating line deductions until nothing
    changes and then guessing a cell and backtracking. */
module Nonogram {
  import opened States
  import opened LineSpec
  import opened Board
  import LineProperties
  import LineSolver

  /** How a call of `solve` ends: it returns (`Done`), it lets an exception
      through, or the pass bound given to the model runs out. */
  datatype Status = Done | Threw(exc: Exception) | OutOfFuel

  /** The row lists held by the list of rows `g`. */
  ghost function RowsOf(g: array<array<State>>): set<array<State>>
    reads g
  {
    set i | 0 <= i < g.Length :: g[i]
  }

  /** `g` holds `rows` different row lists of `cols` cells each. */
  ghost predicate Shaped(g: array<array<State>>, rows: nat, cols: nat)
    reads g, RowsOf(g)
  {
    g.Length == rows &&
    (forall i :: 0 <= i < rows ==> g[i].Length == cols) &&
    (forall i, j :: 0 <= i < j < rows ==> g[i] != g[j])
  }

  /** The cells of the list of rows `g`, as a value. */
  ghost function CellsOf(g: array<array<State>>): (cells: seq<seq<State>>)
    reads g, RowsOf(g)
    ensures |cells| == g.Length
    ensures forall i :: 0 <= i < g.Length ==> cells[i] == g[i][..]
  {
    seq(g.Length, i reads g, RowsOf(g) requires 0 <= i < g.Length => g[i][..])
  }

  class Grid {
    const rowClues: seq<seq<nat>>
    const colClues: seq<seq<nat>>
    const nRows: nat
    const nCols: nat
    var grid: array<array<State>>

    /** `nRows` rows of `nCols` cells, one clue list per row and per column,
        and no row list shared by two rows. */
    ghost predicate Valid()
      reads this, grid, RowsOf(grid)
    {
      nRows == |rowClues| && nCols == |colClues| && Shaped(grid, nRows, nCols)
    }

    ghost function Cells(): seq<seq<State>>
      reads this, grid, RowsOf(grid)
    {
      CellsOf(grid)
    }

    /** `Grid(row_clues, col_clues)` (Grid.py:29-36): every cell UNKNOWN. */
    constructor (rowClues: seq<seq<nat>>, colClues: seq<seq<nat>>)
      ensures Valid() && fresh(grid) && fresh(RowsOf(grid))
      ensures this.rowClues == rowClues && this.colClues == colClues
      ensures forall r :: 0 <= r < nRows ==> Cells()[r] == PyList.Repeat(Unknown, nCols)
    {
      this.rowClues := rowClues;
      this.colClues := colClues;
      nRows := |rowClues|;
      nCols := |colClues|;
      var rows: seq<array<State>> := [];
      while |rows| < |rowClues|
        invariant |rows| <= |rowClues|
        invariant forall i :: 0 <= i < |rows| ==> fresh(rows[i])
        invariant forall i :: 0 <= i < |rows| ==> rows[i][..] == PyList.Repeat(Unknown, |colClues|)
        invariant forall i, j :: 0 <= i < j < |rows| ==> rows[i] != rows[j]
      {
        var row := new State[|colClues|](_ => Unknown);
        rows := rows + [row];
      }
      grid := new array<State>[|rows|](i requires 0 <= i < |rows| => rows[i]);
    }

    /** `Grid(row_clues, col_clues, grid)` (Grid.py:29-36): the list of rows
        given is kept, not copied. */
    constructor WithGrid(rowClues: seq<seq<nat>>, colClues: seq<seq<nat>>, g: array<array<State>>)
      requires Shaped(g, |rowClues|, |colClues|)
      ensures Valid() && grid == g && Cells() == CellsOf(g)
      ensures this.rowClues == rowClues && this.colClues == colClues
    {
      this.rowClues := rowClues;
      this.colClues := colClues;
      nRows := |rowClues|;
      nCols := |colClues|;
      grid := g;
    }

    /** `copy.deepcopy(self.grid)` (Grid.py:71): new row lists with the same cells. */
    method DeepCopy() returns (copy: array<array<State>>)
      requires Valid()
      ensures fresh(copy) && forall i :: 0 <= i < copy.Length ==> fresh(copy[i])
      ensures Shaped(copy, nRows, nCols) && CellsOf(copy) == Cells()
    {
      var rows: seq<array<State>> := [];
      while |rows| < nRows
        invariant |rows| <= nRows
        invariant forall i :: 0 <= i < |rows| ==> fresh(rows[i])
        invariant forall i :: 0 <= i < |rows| ==> rows[i][..] == grid[i][..]
        invariant forall i, j :: 0 <= i < j < |rows| ==> rows[i] != rows[j]
      {
        var row := LineSolver.FromSeq(grid[|rows|][..]);
        rows := rows + [row];
      }
      copy := new array<State>[nRows](i requires 0 <= i < nRows => rows[i]);
    }

    /** `get_unknown_coords` (Grid.py:89-93): exactly the UNKNOWN cells, row by row. */
    method UnknownCoords() returns (coords: seq<(int, int)>)
      requires Valid()
      ensures forall p :: p in coords <==> p in Unknowns(Cells())
    {
      coords := [];
      var r := 0;
      while r < nRows
        invariant 0 <= r <= nRows
        invariant forall p :: p in coords <==> p in Unknowns(Cells()) && p.0 < r
      {
        var c := 0;
        while c < nCols
          invariant 0 <= c <= nCols
          invariant forall p :: p in coords <==> p in Unknowns(Cells()) && (p.0 < r || (p.0 == r && p.1 < c))
        {
          if grid[r][c] == Unknown {
            coords := coords + [(r, c)];
          }
          c := c + 1;
        }
        r := r + 1;
      }
    }

    /** `getRow` (Grid.py:95-96): a copy of the row. */
    method GetRow(r: nat) returns (row: array<State>)
      requires Valid() && r < nRows
      ensures fresh(row) && row[..] == Cells()[r]
    {
      row := LineSolver.FromSeq(grid[r][..]);
    }

    /** `setRow` (Grid.py:98-99): the row list is replaced by `newRow` itself. */
    method SetRow(r: nat, newRow: array<State>)
      requires Valid() && r < nRows && newRow.Length == nCols
      requires forall i :: 0 <= i < nRows && i != r ==> grid[i] != newRow
      modifies grid
      ensures Valid() && grid[r] == newRow
      ensures forall i :: 0 <= i < nRows && i != r ==> grid[i] == old(grid[i])
      ensures Cells() == old(Cells())[r := newRow[..]]
    {
      grid[r] := newRow;
    }

    /** `getCol` (Grid.py:101-102): a new list of the cells of column `c`. */
    method GetCol(c: nat) returns (col: array<State>)
      requires Valid() && c < nCols
      ensures fresh(col) && col[..] == Column(Cells(), c)
    {
      col := new State[nRows];
      var i := 0;
      while i < nRows
        invariant 0 <= i <= nRows
        invariant forall k :: 0 <= k < i ==> col[k] == grid[k][c]
      {
        col[i] := grid[i][c];
        i := i + 1;
      }
    }

    /** `setCol` (Grid.py:104-106): cell `c` of the first `newCol.Length`
        rows is overwritten in place. */
    method SetCol(c: nat, newCol: array<State>)
      requires Valid() && c < nCols && newCol.Length <= nRows
      requires forall i :: 0 <= i < nRows ==> grid[i] != newCol
      modifies RowsOf(grid)
      ensures Valid()
      ensures forall i :: 0 <= i < nRows ==> grid[i] == old(grid[i])
      ensures Cells() == WithColumn(old(Cells()), c, newCol[..])
    {
      ghost var before := Cells();
      var i := 0;
      while i < newCol.Length
        invariant 0 <= i <= newCol.Length && Valid()
        invariant forall k :: 0 <= k < nRows ==> grid[k] == old(grid[k])
        invariant forall k :: 0 <= k < nRows ==>
          grid[k][..] == if k < i then before[k][c := newCol[k]] else before[k]
      {
        grid[i][c] := newCol[i];
        i := i + 1;
      }
    }

    /** One turn of the row loop (Grid.py:56-59): row `r` is solved with RED
        runs and put back when `solveRow` reports it dirty; otherwise the
        row is settled and the grid unchanged. An exception leaves the grid
        as it was. */
    method RowStep(r: nat) returns (res: Outcome<bool>)
      requires Valid() && r < nRows
      modifies grid
      ensures Valid()
      ensures forall i :: 0 <= i < nRows ==> grid[i] == old(grid[i]) || fresh(grid[i])
      ensures res.Raised? ==> Cells() == old(Cells()) && SolvedAs(old(Cells())[r], rowClues[r], Red, Raised(res.exc))
      ensures res.Ok? ==> SolvedAs(old(Cells())[r], rowClues[r], Red, Ok(Line(Cells()[r], res.value)))
      ensures res.Ok? ==> (res.value <==> Cells()[r] != old(Cells())[r])
      ensures res.Ok? ==> forall i :: 0 <= i < nRows && i != r ==> Cells()[i] == old(Cells())[i]
      ensures res == Ok(false) ==> Cells() == old(Cells())
      ensures Unknowns(Cells()) <= old(Unknowns(Cells()))
    {
      ghost var line := Cells()[r];
      var out := SolveRowAt(r);
      if out.Raised? {
        return Raised(out.exc);
      }
      var (newRow, newDirty) := out.value;
      ghost var solved := Line(newRow[..], newDirty);
      assert SolvedAs(line, rowClues[r], Red, Ok(solved));
      if newDirty {
        PutRow(r, newRow);
      }
      assert Cells()[r] == solved.cells;
      return Ok(newDirty);
    }

    /** `self.solveRow(self.getRow(row_num), ...)` with RED runs (Grid.py:56):
        a new row that evolved from the current one, and a settled row when
        it is not reported dirty. The grid is not touched. */
    method SolveRowAt(r: nat) returns (out: Outcome<(array<State>, bool)>)
      requires Valid() && r < nRows
      ensures out.Ok? ==> fresh(out.value.0) && out.value.0.Length == nCols
      ensures out.Ok? ==> SolvedAs(Cells()[r], rowClues[r], Red, Ok(Line(out.value.0[..], out.value.1)))
      ensures out.Raised? ==> SolvedAs(Cells()[r], rowClues[r], Red, Raised(out.exc))
      ensures out.Ok? ==> Evolves(Cells()[r], out.value.0[..], Blue)
      ensures out.Ok? ==> (out.value.1 <==> out.value.0[..] != Cells()[r])
    {
      var row := GetRow(r);
      ghost var line := row[..];
      out := LineSolver.SolveRow(row, rowClues[r], Red);
      LineProperties.SolveLineEvolves(line, rowClues[r], Red);
      assert line == Cells()[r];
    }

    /** `setRow` with a row that `solveRow` derived from the current one
        (Grid.py:58-59): row `r` becomes `newRow`, the other rows stay, and
        no cell becomes UNKNOWN. */
    method PutRow(r: nat, newRow: array<State>)
      requires Valid() && r < nRows && newRow.Length == nCols
      requires forall i :: 0 <= i < nRows ==> grid[i] != newRow
      requires Evolves(Cells()[r], newRow[..], Blue)
      modifies grid
      ensures Valid() && grid[r] == newRow
      ensures forall i :: 0 <= i < nRows && i != r ==> grid[i] == old(grid[i])
      ensures Cells() == old(Cells())[r := newRow[..]]
      ensures Unknowns(Cells()) <= old(Unknowns(Cells()))
    {
      RowUpdateKeepsUnknowns(Cells(), r, newRow[..], Blue);
      SetRow(r, newRow);
    }

    /** `setCol` with a column that `solveRow` derived from the current one
        (Grid.py:63-65): the column is written into the row lists, and no
        cell becomes UNKNOWN. */
    method PutColumn(c: nat, newCol: array<State>)
      requires Valid() && c < nCols && newCol.Length <= nRows
      requires forall i :: 0 <= i < nRows ==> grid[i] != newCol
      requires Evolves(Column(Cells(), c), newCol[..], Red)
      modifies RowsOf(grid)
      ensures Valid()
      ensures forall i :: 0 <= i < nRows ==> grid[i] == old(grid[i])
      ensures Cells() == WithColumn(old(Cells()), c, newCol[..])
      ensures newCol.Length == nRows ==> Column(Cells(), c) == newCol[..]
      ensures forall i, j :: 0 <= i < nRows && 0 <= j < nCols && j != c ==> Cells()[i][j] == old(Cells())[i][j]
      ensures Unknowns(Cells()) <= old(Unknowns(Cells()))
    {
      ghost var g := Cells();
      ColumnUpdateKeepsUnknowns(g, c, newCol[..], Red);
      SetCol(c, newCol);
      if newCol.Length == nRows {
        ColumnOfWithColumn(g, c, newCol[..]);
      }
    }

    /** `self.solveRow(self.getCol(col_num), ...)` with BLUE runs (Grid.py:62):
        a new column that evolved from the current one, and a settled column
        when it is not reported dirty. The grid is not touched. */
    method SolveColumn(c: nat) returns (out: Outcome<(array<State>, bool)>)
      requires Valid() && c < nCols
      ensures out.Ok? ==> fresh(out.value.0) && out.value.0.Length == nRows
      ensures out.Ok? ==> SolvedAs(Column(Cells(), c), colClues[c], Blue, Ok(Line(out.value.0[..], out.value.1)))
      ensures out.Raised? ==> SolvedAs(Column(Cells(), c), colClues[c], Blue, Raised(out.exc))
      ensures out.Ok? ==> Evolves(Column(Cells(), c), out.value.0[..], Red)
      ensures out.Ok? ==> (out.value.1 <==> out.value.0[..] != Column(Cells(), c))
    {
      var col := GetCol(c);
      ghost var line := col[..];
      out := LineSolver.SolveRow(col, colClues[c], Blue);
      LineProperties.SolveLineEvolves(line, colClues[c], Blue);
      assert line == Column(Cells(), c);
    }

    /** One turn of the column loop (Grid.py:62-65): column `c` is solved
        with BLUE runs and written back when dirty. An exception leaves the
        grid as it was. */
    method ColumnStep(c: nat) returns (res: Outcome<bool>)
      requires Valid() && c < nCols
      modifies RowsOf(grid)
      ensures Valid()
      ensures forall i :: 0 <= i < nRows ==> grid[i] == old(grid[i])
      ensures res.Raised? ==> Cells() == old(Cells()) && SolvedAs(Column(old(Cells()), c), colClues[c], Blue, Raised(res.exc))
      ensures res.Ok? ==> SolvedAs(Column(old(Cells()), c), colClues[c], Blue, Ok(Line(Column(Cells(), c), res.value)))
      ensures res.Ok? ==> (res.value <==> Column(Cells(), c) != Column(old(Cells()), c))
      ensures res.Ok? ==> forall i, j :: 0 <= i < nRows && 0 <= j < nCols && j != c ==> Cells()[i][j] == old(Cells())[i][j]
      ensures res == Ok(false) ==> Cells() == old(Cells())
      ensures Unknowns(Cells()) <= old(Unknowns(Cells()))
    {
      ghost var line := Column(Cells(), c);
      var out := SolveColumn(c);
      if out.Raised? {
        return Raised(out.exc);
      }
      var (newCol, newDirty) := out.value;
      ghost var solved := Line(newCol[..], newDirty);
      assert SolvedAs(line, colClues[c], Blue, Ok(solved));
      if newDirty {
        PutColumn(c, newCol);
      }
      assert Column(Cells(), c) == solved.cells;
      assert Column(old(Cells()), c) == line;
      return Ok(newDirty);
    }

    /** The row half of one pass of `while dirty` (Grid.py:55-59): each row
        is solved with RED runs and put back when `solveRow` reports it
        dirty. Every row of the new grid is what `solveRow` makes of the row
        it replaces, and the result says whether the grid changed; a pass
        that reports no change has found every row settled. */
    method RowPass() returns (res: Outcome<bool>)
      requires Valid()
      modifies grid
      ensures Valid()
      ensures forall i :: 0 <= i < nRows ==> grid[i] == old(grid[i]) || fresh(grid[i])
      ensures Unknowns(Cells()) <= old(Unknowns(Cells()))
      ensures res.Ok? ==> RowsSolved(old(Cells()), Cells(), rowClues, nRows)
      ensures res.Ok? ==> (res.value <==> Cells() != old(Cells()))
      ensures res == Ok(false) ==> RowsSettled(old(Cells()), rowClues, nRows)
    {
      ghost var start := Cells();
      ghost var unknown := Unknowns(start);
      var dirty := false;
      var r := 0;
      while r < nRows
        invariant 0 <= r <= nRows && Valid()
        invariant forall i :: 0 <= i < nRows ==> grid[i] == old(grid[i]) || fresh(grid[i])
        invariant Unknowns(Cells()) <= unknown
        invariant RowsSolved(start, Cells(), rowClues, r)
        invariant forall i :: r <= i < nRows ==> Cells()[i] == start[i]
        invariant dirty <==> Cells() != start
      {
        var out := RowTurn(r, dirty, start, unknown);
        if out.Raised? {
          return out;
        }
        dirty := out.value;
        r := r + 1;
      }
      if !dirty {
        RowsSettledOfSolved(start, rowClues, nRows);
      }
      return Ok(dirty);
    }

    /** Row `r` of a pass that started on `start`: the rows before it are
        solved, the rest are as the pass found them, and `dirty0` says
        whether the grid has changed. The step keeps all three one row on. */
    method RowTurn(r: nat, dirty0: bool, ghost start: seq<seq<State>>, ghost unknown: set<(int, int)>)
      returns (res: Outcome<bool>)
      requires Valid() && r < nRows && |start| == nRows
      requires Unknowns(Cells()) <= unknown
      requires RowsSolved(start, Cells(), rowClues, r)
      requires forall i :: r <= i < nRows ==> Cells()[i] == start[i]
      requires dirty0 <==> Cells() != start
      modifies grid
      ensures Valid()
      ensures forall i :: 0 <= i < nRows ==> grid[i] == old(grid[i]) || fresh(grid[i])
      ensures Unknowns(Cells()) <= unknown
      ensures res.Raised? ==> Cells() == old(Cells()) && SolvedAs(start[r], rowClues[r], Red, Raised(res.exc))
      ensures res.Ok? ==> RowsSolved(start, Cells(), rowClues, r + 1)
      ensures res.Ok? ==> forall i :: r + 1 <= i < nRows ==> Cells()[i] == start[i]
      ensures res.Ok? ==> (res.value <==> Cells() != start)
    {
      ghost var before := Cells();
      var out := RowStep(r);
      if out.Raised? {
        return out;
      }
      forall i | 0 <= i < r
        ensures RowSolved(start, Cells(), rowClues, i)
      {
        assert RowSolved(start, before, rowClues, i);
      }
      assert RowSolved(start, Cells(), rowClues, r);
      if out.value {
        assert Cells()[r] != start[r];
      }
      return Ok(dirty0 || out.value);
    }

    /** The column half of one pass of `while dirty` (Grid.py:61-65): each
        column is solved with BLUE runs and written back when dirty. Every
        column of the new grid is what `solveRow` makes of the column it
        replaces, and the result says whether the grid changed; a pass that
        reports no change has found every column settled. */
    method ColumnPass() returns (res: Outcome<bool>)
      requires Valid()
      modifies RowsOf(grid)
      ensures Valid()
      ensures forall i :: 0 <= i < nRows ==> grid[i] == old(grid[i])
      ensures Unknowns(Cells()) <= old(Unknowns(Cells()))
      ensures res.Ok? ==> ColumnsSolved(old(Cells()), Cells(), colClues, nCols)
      ensures res.Ok? ==> (res.value <==> Cells() != old(Cells()))
      ensures res == Ok(false) ==> ColumnsSettled(old(Cells()), colClues, nCols)
    {
      ghost var start := Cells();
      ghost var unknown := Unknowns(start);
      var dirty := false;
      var c := 0;
      while c < nCols
        invariant 0 <= c <= nCols && Valid()
        invariant forall i :: 0 <= i < nRows ==> grid[i] == old(grid[i])
        invariant Unknowns(Cells()) <= unknown
        invariant ColumnsSolved(start, Cells(), colClues, c)
        invariant forall j :: c <= j < nCols ==> Column(Cells(), j) == Column(start, j)
        invariant dirty <==> Cells() != start
      {
        var out := ColumnTurn(c, dirty, start, unknown);
        if out.Raised? {
          return out;
        }
        dirty := out.value;
        c := c + 1;
      }
      if !dirty {
        ColumnsSettledOfSolved(start, colClues, nCols);
      }
      return Ok(dirty);
    }

    /** Column `c` of a pass that started on `start`: the columns before it
        are solved, the rest are as the pass found them, and `dirty0` says
        whether the grid has changed. The step keeps all three one column on. */
    method ColumnTurn(c: nat, dirty0: bool, ghost start: seq<seq<State>>, ghost unknown: set<(int, int)>)
      returns (res: Outcome<bool>)
      requires Valid() && c < nCols && |start| == nRows && Rectangular(start, nCols)
      requires Unknowns(Cells()) <= unknown
      requires ColumnsSolved(start, Cells(), colClues, c)
      requires forall j :: c <= j < nCols ==> Column(Cells(), j) == Column(start, j)
      requires dirty0 <==> Cells() != start
      modifies RowsOf(grid)
      ensures Valid()
      ensures forall i :: 0 <= i < nRows ==> grid[i] == old(grid[i])
      ensures Unknowns(Cells()) <= unknown
      ensures res.Raised? ==> Cells() == old(Cells()) && SolvedAs(Column(start, c), colClues[c], Blue, Raised(res.exc))
      ensures res.Ok? ==> ColumnsSolved(start, Cells(), colClues, c + 1)
      ensures res.Ok? ==> forall j :: c + 1 <= j < nCols ==> Column(Cells(), j) == Column(start, j)
      ensures res.Ok? ==> (res.value <==> Cells() != start)
    {
      ghost var before := Cells();
      var out := ColumnStep(c);
      if out.Raised? {
        return out;
      }
      ColumnsSolvedStep(start, before, Cells(), colClues, c);
      if out.value {
        assert Column(Cells(), c) != Column(start, c);
      }
      return Ok(dirty0 || out.value);
    }

    /** The `while dirty` loop of `solve` (Grid.py:51-67), given at most
        `fuel` passes. When it ends every row and column is settled; no pass
        turns a known cell back to UNKNOWN. */
    method Propagate(fuel: nat) returns (res: Status)
      requires Valid()
      modifies grid, RowsOf(grid)
      ensures Valid()
      ensures forall i :: 0 <= i < nRows ==> grid[i] == old(grid[i]) || fresh(grid[i])
      ensures Unknowns(Cells()) <= old(Unknowns(Cells()))
      ensures res == Done ==> FixedPoint(Cells(), rowClues, colClues)
    {
      var dirty := true;
      var passes := fuel;
      while dirty
        invariant Valid()
        invariant forall i :: 0 <= i < nRows ==> grid[i] == old(grid[i]) || fresh(grid[i])
        invariant Unknowns(Cells()) <= old(Unknowns(Cells()))
        invariant !dirty ==> FixedPoint(Cells(), rowClues, colClues)
        decreases passes
      {
        if passes == 0 {
          return OutOfFuel;
        }
        passes := passes - 1;
        var rows := RowPass();
        if rows.Raised? {
          return Threw(rows.exc);
        }
        var cols := ColumnPass();
        if cols.Raised? {
          return Threw(cols.exc);
        }
        dirty := rows.value || cols.value;
      }
      return Done;
    }

    /** `solve` (Grid.py:50-86): propagate, and when UNKNOWN cells remain,
        speculate on one of them. A call that returns has left a grid with no
        UNKNOWN cell in which every row and column is settled. No call turns
        a known cell back to UNKNOWN, in the grid it leaves or in the list of
        rows it started on, which keeps its shape (a rollback may have
        replaced `self.grid` by a copy). */
    method Solve(fuel: nat) returns (res: Status)
      requires Valid()
      modifies this, grid, RowsOf(grid)
      ensures Valid()
      ensures Shaped(old(grid), nRows, nCols)
      ensures forall i :: 0 <= i < nRows ==> old(grid)[i] in old(RowsOf(grid)) || fresh(old(grid)[i])
      ensures Unknowns(Cells()) <= old(Unknowns(Cells()))
      ensures Unknowns(CellsOf(old(grid))) <= old(Unknowns(Cells()))
      ensures res == Done ==> Complete(Cells()) && FixedPoint(Cells(), rowClues, colClues)
      decreases Unknowns(Cells()), 3
    {
      res := Propagate(fuel);
      if res != Done {
        return;
      }
      ghost var settled := Cells();
      var unknowns := UnknownCoords();
      assert Cells() == settled;
      if unknowns == [] {
        CompleteWhenNoUnknowns(settled);
        return;
      }
      res := Speculate(fuel, unknowns);
    }

    /** The `if unknowns:` block of `solve` (Grid.py:69-86): copy the grid,
        pick one of the UNKNOWN cells (`random.choice`, here any of them) and
        guess it RED; on ContradictionException, retry with BLUE from the copy. */
    method Speculate(fuel: nat, unknowns: seq<(int, int)>) returns (res: Status)
      requires Valid() && unknowns != []
      requires forall p :: p in unknowns ==> p in Unknowns(Cells())
      modifies this, grid, RowsOf(grid)
      ensures Valid()
      ensures Shaped(old(grid), nRows, nCols)
      ensures forall i :: 0 <= i < nRows ==> old(grid)[i] in old(RowsOf(grid)) || fresh(old(grid)[i])
      ensures Unknowns(Cells()) <= old(Unknowns(Cells()))
      ensures Unknowns(CellsOf(old(grid))) <= old(Unknowns(Cells()))
      ensures res == Done ==> Complete(Cells()) && FixedPoint(Cells(), rowClues, colClues)
      decreases Unknowns(Cells()), 2
    {
      ghost var settled := Cells();
      var cached := DeepCopy();
      assert Cells() == settled;
      assert forall i, j :: 0 <= i < nRows && 0 <= j < nRows ==> grid[i] != cached[j];
      var k :| 0 <= k < |unknowns|;
      var (specRow, specCol) := unknowns[k];
      UnknownAt(settled, (specRow, specCol));
      ghost var start := grid;
      res := Guess(fuel, specRow, specCol, Red, cached);
      if res == Threw(ContradictionException) {
        res := Retry(fuel, cached, specRow, specCol, settled, start);
      }
    }

    /** The `except ContradictionException:` branch of `solve` (Grid.py:77-86):
        go back to the copy `cached`, guess BLUE and solve on; if that raises
        ContradictionException too, go back to the same copy and raise. The
        copy still holds the cells `snapshot` the grid had before the RED
        guess. It is not taken again before the BLUE guess, so that guess
        writes into it and the second rollback keeps what it wrote. */
    method Retry(fuel: nat, cached: array<array<State>>, r: nat, c: nat,
                 ghost snapshot: seq<seq<State>>, ghost start: array<array<State>>) returns (res: Status)
      requires nRows == |rowClues| && nCols == |colClues| && Shaped(cached, nRows, nCols)
      requires CellsOf(cached) == snapshot
      requires r < nRows && c < nCols && cached[r][c] == Unknown
      requires start != cached && start.Length == nRows
      requires forall i, j :: 0 <= i < nRows && 0 <= j < nRows ==> start[i] != cached[j]
      modifies this, cached, RowsOf(cached)
      ensures forall i :: 0 <= i < nRows ==> start[i] == old(start[i])
      ensures CellsOf(start) == old(CellsOf(start))
      ensures Valid()
      ensures Unknowns(Cells()) < Unknowns(snapshot)
      ensures res == Threw(ContradictionException) ==> grid == cached
      ensures res == Done ==> Complete(Cells()) && FixedPoint(Cells(), rowClues, colClues)
      decreases Unknowns(CellsOf(cached)), 1
    {
      Rollback(cached, start);
      res := Guess(fuel, r, c, Blue, start);
      if res == Threw(ContradictionException) {
        Rollback(cached, start);
      }
    }

    /** `self.grid = cached_grid` (Grid.py:78 and 84): the grid becomes the
        list of rows `cached`, whose cells are as they were; no list of rows
        changes, `other` included. */
    method Rollback(cached: array<array<State>>, ghost other: array<array<State>>)
      modifies this
      ensures grid == cached
      ensures Cells() == old(CellsOf(cached)) && CellsOf(other) == old(CellsOf(other))
      ensures old(Shaped(cached, nRows, nCols)) ==> Shaped(grid, nRows, nCols)
    {
      grid := cached;
    }

    /** `self.grid[spec_row][spec_col] = v` followed by `self.solve()`
        (Grid.py:75-76 and 81-82): the guess removes an UNKNOWN cell. */
    method Guess(fuel: nat, r: nat, c: nat, v: State, ghost other: array<array<State>>) returns (res: Status)
      requires Valid() && r < nRows && c < nCols && grid[r][c] == Unknown && v != Unknown
      requires other != grid && other.Length == nRows
      requires forall i, j :: 0 <= i < nRows && 0 <= j < nRows ==> grid[i] != other[j]
      modifies this, grid, RowsOf(grid)
      ensures forall i :: 0 <= i < nRows ==> other[i] == old(other[i])
      ensures CellsOf(other) == old(CellsOf(other))
      ensures forall i, j :: 0 <= i < nRows && 0 <= j < nRows ==> old(grid)[i] != other[j]
      ensures Valid()
      ensures Shaped(old(grid), nRows, nCols)
      ensures forall i :: 0 <= i < nRows ==> old(grid)[i] in old(RowsOf(grid)) || fresh(old(grid)[i])
      ensures Unknowns(Cells()) < old(Unknowns(Cells()))
      ensures Unknowns(CellsOf(old(grid))) < old(Unknowns(Cells()))
      ensures res == Done ==> Complete(Cells()) && FixedPoint(Cells(), rowClues, colClues)
      decreases Unknowns(Cells()), 0
    {
      ghost var before := Cells();
      GuessShrinks(before, r, c, v);
      grid[r][c] := v;
      assert Cells() == before[r := before[r][c := v]];
      res := Solve(fuel);
    }
  }
}
