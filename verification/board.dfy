/** The grid as a value: a list of rows. Columns are read and written across
    the rows, as `getCol` and `setCol` do (Grid.py:101-106); the predicates
    here say what `solve` leaves behind. */
module Board {
  import opened States
  import opened LineSpec
  import LineProperties

  /** Every row has `cols` cells (the grid of `nRows` by `nCols` cells). */
  predicate Rectangular(g: seq<seq<State>>, cols: nat)
  {
    forall r :: 0 <= r < |g| ==> |g[r]| == cols
  }

  /** `[row[col_num] for row in self.grid]` (Grid.py:102). */
  function Column(g: seq<seq<State>>, c: nat): (col: seq<State>)
    requires forall r :: 0 <= r < |g| ==> c < |g[r]|
    ensures |col| == |g|
    ensures forall r :: 0 <= r < |g| ==> col[r] == g[r][c]
  {
    seq(|g|, r requires 0 <= r < |g| && c < |g[r]| => g[r][c])
  }

  /** The grid after `for i, x in enumerate(new_col): self.grid[i][col_num] = x`
      (Grid.py:105-106): the first `|col|` rows get their cell `c` replaced. */
  function WithColumn(g: seq<seq<State>>, c: nat, col: seq<State>): (h: seq<seq<State>>)
    requires |col| <= |g| && forall r :: 0 <= r < |g| ==> c < |g[r]|
    ensures |h| == |g|
    ensures forall r :: 0 <= r < |g| ==> h[r] == if r < |col| then g[r][c := col[r]] else g[r]
  {
    if col == [] then g else [g[0][c := col[0]]] + WithColumn(g[1..], c, col[1..])
  }

  /** Writing a column and reading it back gives the column written. */
  lemma ColumnOfWithColumn(g: seq<seq<State>>, c: nat, col: seq<State>)
    requires |col| == |g| && forall r :: 0 <= r < |g| ==> c < |g[r]|
    ensures Column(WithColumn(g, c, col), c) == col
  {
  }

  /** Writing back the column just read leaves the grid as it was. */
  lemma WithOwnColumn(g: seq<seq<State>>, c: nat)
    requires forall r :: 0 <= r < |g| ==> c < |g[r]|
    ensures WithColumn(g, c, Column(g, c)) == g
  {
    var h := WithColumn(g, c, Column(g, c));
    forall r | 0 <= r < |g|
      ensures h[r] == g[r]
    {
      assert g[r][c := g[r][c]] == g[r];
    }
  }

  /** The coordinates of the UNKNOWN cells (the set `get_unknown_coords` lists, Grid.py:89-93). */
  ghost function Unknowns(g: seq<seq<State>>): set<(int, int)>
  {
    set r, c | 0 <= r < |g| && 0 <= c < |g[r]| && g[r][c] == Unknown :: (r, c)
  }

  /** A listed coordinate is an UNKNOWN cell of the grid. */
  lemma UnknownAt(g: seq<seq<State>>, p: (int, int))
    requires p in Unknowns(g)
    ensures 0 <= p.0 < |g| && 0 <= p.1 < |g[p.0]| && g[p.0][p.1] == Unknown
  {
  }

  /** No cell is UNKNOWN. */
  predicate Complete(g: seq<seq<State>>)
  {
    forall r, c :: 0 <= r < |g| && 0 <= c < |g[r]| ==> g[r][c] != Unknown
  }

  lemma CompleteWhenNoUnknowns(g: seq<seq<State>>)
    ensures Complete(g) <==> Unknowns(g) == {}
  {
    if !Complete(g) {
      var r, c :| 0 <= r < |g| && 0 <= c < |g[r]| && g[r][c] == Unknown;
      assert (r, c) in Unknowns(g);
    }
  }

  /** `solveRow` returns the line with `dirty` false: the line is settled for its clues. */
  predicate Settled(line: seq<State>, clues: seq<nat>, fill: State)
    requires fill != Unknown
  {
    var r := SolveLine(line, clues, fill);
    r.Ok? && !r.value.changed
  }

  /** A settled line is returned as it was given. */
  lemma SettledKeepsLine(line: seq<State>, clues: seq<nat>, fill: State)
    requires fill != Unknown && Settled(line, clues, fill)
    ensures SolveLine(line, clues, fill) == Ok(Line(line, false))
  {
    LineProperties.SolveLineEvolves(line, clues, fill);
  }

  /** `solveRow(line, clues, fill)` gives `res`. The relation is stated
      through the call on a line equal to `line`, so a proof that relays it
      from one line to an equal one need not unfold the line solver. */
  ghost predicate SolvedAs(line: seq<State>, clues: seq<nat>, fill: State, res: Outcome<Line>)
    requires fill != Unknown
  {
    forall l {:trigger SolveLine(l, clues, fill)} :: l == line ==> SolveLine(l, clues, fill) == res
  }

  /** Row `r` of `h` is what `solveRow` makes of row `r` of `g` with RED
      runs, reported dirty exactly when it differs from it (Grid.py:56). */
  ghost predicate RowSolved(g: seq<seq<State>>, h: seq<seq<State>>, rowClues: seq<seq<nat>>, r: nat)
    requires r < |g| == |h| == |rowClues|
  {
    SolvedAs(g[r], rowClues[r], Red, Ok(Line(h[r], h[r] != g[r])))
  }

  /** The first `n` rows of `h` are what `solveRow` makes of those of `g`. */
  ghost predicate RowsSolved(g: seq<seq<State>>, h: seq<seq<State>>, rowClues: seq<seq<nat>>, n: nat)
    requires n <= |g| == |h| == |rowClues|
  {
    forall r :: 0 <= r < n ==> RowSolved(g, h, rowClues, r)
  }

  /** The first `n` rows of `g` are settled for their clues with RED runs. */
  ghost predicate RowsSettled(g: seq<seq<State>>, rowClues: seq<seq<nat>>, n: nat)
    requires n <= |g| == |rowClues|
  {
    forall r {:trigger Settled(g[r], rowClues[r], Red)} :: 0 <= r < n ==> Settled(g[r], rowClues[r], Red)
  }

  /** Rows that `solveRow` gives back unchanged are settled. */
  lemma RowsSettledOfSolved(g: seq<seq<State>>, rowClues: seq<seq<nat>>, n: nat)
    requires n <= |g| == |rowClues| && RowsSolved(g, g, rowClues, n)
    ensures RowsSettled(g, rowClues, n)
  {
    forall r | 0 <= r < n
      ensures Settled(g[r], rowClues[r], Red)
    {
      assert RowSolved(g, g, rowClues, r);
    }
  }

  /** Column `c` of `h` is what `solveRow` makes of column `c` of `g` with
      BLUE runs, reported dirty exactly when it differs from it (Grid.py:62). */
  ghost predicate ColumnSolved(g: seq<seq<State>>, h: seq<seq<State>>, colClues: seq<seq<nat>>, c: nat)
    requires c < |colClues| && |g| == |h| && Rectangular(g, |colClues|) && Rectangular(h, |colClues|)
  {
    SolvedAs(Column(g, c), colClues[c], Blue, Ok(Line(Column(h, c), Column(h, c) != Column(g, c))))
  }

  /** The first `n` columns of `h` are what `solveRow` makes of those of `g`. */
  ghost predicate ColumnsSolved(g: seq<seq<State>>, h: seq<seq<State>>, colClues: seq<seq<nat>>, n: nat)
    requires n <= |colClues| && |g| == |h| && Rectangular(g, |colClues|) && Rectangular(h, |colClues|)
  {
    forall c :: 0 <= c < n ==> ColumnSolved(g, h, colClues, c)
  }

  /** One column step of a pass that started on `start`: when column `c` of
      `after` is what `solveRow` makes of column `c` of `before` and no other
      cell changed, the solved columns grow by one and the later ones are
      still as the pass found them. */
  lemma ColumnsSolvedStep(start: seq<seq<State>>, before: seq<seq<State>>, after: seq<seq<State>>, colClues: seq<seq<nat>>, c: nat)
    requires c < |colClues| && |start| == |before| == |after|
    requires Rectangular(start, |colClues|) && Rectangular(before, |colClues|) && Rectangular(after, |colClues|)
    requires ColumnsSolved(start, before, colClues, c)
    requires forall j :: c <= j < |colClues| ==> Column(before, j) == Column(start, j)
    requires forall i, j :: 0 <= i < |after| && 0 <= j < |colClues| && j != c ==> after[i][j] == before[i][j]
    requires SolvedAs(Column(before, c), colClues[c], Blue, Ok(Line(Column(after, c), Column(after, c) != Column(before, c))))
    ensures ColumnsSolved(start, after, colClues, c + 1)
    ensures forall j :: c < j < |colClues| ==> Column(after, j) == Column(start, j)
  {
    forall j | 0 <= j < |colClues| && j != c
      ensures Column(after, j) == Column(before, j)
    {
      assert forall i :: 0 <= i < |after| ==> after[i][j] == before[i][j];
    }
    forall j | 0 <= j < c
      ensures ColumnSolved(start, after, colClues, j)
    {
      assert ColumnSolved(start, before, colClues, j);
    }
    assert ColumnSolved(start, after, colClues, c);
  }

  /** The first `n` columns of `g` are settled for their clues with BLUE runs. */
  ghost predicate ColumnsSettled(g: seq<seq<State>>, colClues: seq<seq<nat>>, n: nat)
    requires n <= |colClues| && Rectangular(g, |colClues|)
  {
    forall c {:trigger Settled(Column(g, c), colClues[c], Blue)} :: 0 <= c < n ==> Settled(Column(g, c), colClues[c], Blue)
  }

  /** Columns that `solveRow` gives back unchanged are settled. */
  lemma ColumnsSettledOfSolved(g: seq<seq<State>>, colClues: seq<seq<nat>>, n: nat)
    requires n <= |colClues| && Rectangular(g, |colClues|) && ColumnsSolved(g, g, colClues, n)
    ensures ColumnsSettled(g, colClues, n)
  {
    forall c | 0 <= c < n
      ensures Settled(Column(g, c), colClues[c], Blue)
    {
      assert ColumnSolved(g, g, colClues, c);
    }
  }

  /** The state in which the `while dirty` loop of `solve` ends (Grid.py:53-67):
      every row settled for its clues with RED runs, every column for its
      clues with BLUE runs. */
  ghost predicate FixedPoint(g: seq<seq<State>>, rowClues: seq<seq<nat>>, colClues: seq<seq<nat>>)
  {
    |g| == |rowClues| && Rectangular(g, |colClues|) &&
    RowsSettled(g, rowClues, |g|) && ColumnsSettled(g, colClues, |colClues|)
  }

  /** Replacing a row by a line that evolved from it (as every line
      `solveRow` returns has, LineProperties.SolveLineEvolves) makes no cell
      UNKNOWN. */
  lemma RowUpdateKeepsUnknowns(g: seq<seq<State>>, r: nat, t: seq<State>, x: State)
    requires r < |g| && Evolves(g[r], t, x)
    ensures Unknowns(g[r := t]) <= Unknowns(g)
  {
  }

  /** Replacing a column by a line that evolved from it makes no cell UNKNOWN. */
  lemma ColumnUpdateKeepsUnknowns(g: seq<seq<State>>, c: nat, t: seq<State>, x: State)
    requires forall r :: 0 <= r < |g| ==> c < |g[r]|
    requires Evolves(Column(g, c), t, x)
    ensures Unknowns(WithColumn(g, c, t)) <= Unknowns(g)
  {
    var h := WithColumn(g, c, t);
    forall p | p in Unknowns(h)
      ensures p in Unknowns(g)
    {
      var (r, k) := p;
      if k == c {
        assert t[r] == Unknown;
        assert Column(g, c)[r] == Unknown;
      }
    }
  }

  /** Guessing a colour for an UNKNOWN cell (Grid.py:75 and 81) removes it
      from the UNKNOWN cells and adds none. */
  lemma GuessShrinks(g: seq<seq<State>>, r: nat, c: nat, v: State)
    requires r < |g| && c < |g[r]| && g[r][c] == Unknown && v != Unknown
    ensures Unknowns(g[r := g[r][c := v]]) < Unknowns(g)
  {
    assert (r, c) in Unknowns(g);
    assert (r, c) !in Unknowns(g[r := g[r][c := v]]);
  }
}
