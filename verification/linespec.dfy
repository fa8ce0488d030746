/** The line solver `Grid.solveRow` and its inner `helper`, as functions on
    values. Each function follows one loop or branch of the source; the
    methods in module LineSolver run the same steps in place on an array and
    are proved to compute exactly these functions. */
module LineSpec {
  import opened PyList
  import opened States

  /** A line together with the solver's `dirty` flag. */
  datatype Line = Line(cells: seq<State>, changed: bool)

  /** The state of an edge sweep: the line, the window bound it reached, and `dirty`. */
  datatype Sweep = Sweep(cells: seq<State>, bound: int, changed: bool)

  /** `any(x == c for c in s[lo:hi])`: a cell of the slice `s[lo:hi]`, its
      bounds taken as Python takes them, has colour `x`. */
  predicate Blocked(s: seq<State>, lo: int, hi: int, x: State)
  {
    exists k :: Bound(lo, |s|) <= k < Bound(hi, |s|) && s[k] == x
  }

  /** A blocked slice `[lo:hi]` ends after the start of the line. */
  lemma BlockedEnd(s: seq<State>, lo: int, hi: int, x: State)
    requires Blocked(s, lo, hi, x)
    ensures -|s| < hi
  {
  }

  /** What a line-solver step may do to a line `s`, producing `t`: keep its
      length, never make a cell UNKNOWN, never repaint a cell of the opposite
      colour `x`. Cells of the fill colour are not protected. */
  ghost predicate Evolves(s: seq<State>, t: seq<State>, x: State)
  {
    |t| == |s| &&
    (forall k :: 0 <= k < |s| && t[k] == Unknown ==> s[k] == Unknown) &&
    (forall k :: 0 <= k < |s| && s[k] == x ==> t[k] == x)
  }

  /** How the `dirty` flag follows the writes from `s` to `t`: it ends set
      exactly when it was set before or the line changed. */
  ghost predicate Reported(s: seq<State>, t: seq<State>, dirty: bool, changed: bool)
  {
    changed == (dirty || t != s)
  }

  /** `while any(x == c for c in row[left:left+clue]): left += 1` (Grid.py:122-123). */
  function SkipLeft(s: seq<State>, left: int, clue: nat, x: State): (r: int)
    requires 0 <= left
    ensures left <= r
    ensures !Blocked(s, r, r + clue, x)
    decreases |s| - left
  {
    if Blocked(s, left, left + clue, x) then SkipLeft(s, left + 1, clue, x) else left
  }

  /** The left bound after reserving `clue + 1` cells for each of the clues
      `clues[k..i]`, in order (Grid.py:121-124). */
  function ReserveLeft(s: seq<State>, clues: seq<nat>, k: nat, i: nat, left: int, x: State): (r: int)
    requires k <= i <= |clues| && 0 <= left
    ensures left <= r
    decreases i - k
  {
    if k == i then left
    else ReserveLeft(s, clues, k + 1, i, SkipLeft(s, left, clues[k], x) + clues[k] + 1, x)
  }

  /** `while any(x == c for c in row[right-clue:right]): right -= 1` (Grid.py:126-127);
      `right` may become negative, and the slice then counts from the end. */
  function SkipRight(s: seq<State>, right: int, clue: nat, x: State): (r: int)
    requires right <= |s|
    ensures r <= right
    ensures !Blocked(s, r - clue, r, x)
    decreases right + |s|
  {
    if Blocked(s, right - clue, right, x) then SkipRight(s, right - 1, clue, x) else right
  }

  /** The right bound after reserving `clue + 1` cells for each of the clues
      `clues[i+1..j+1]`, last first: `clues[-1:i:-1]` when `j` is the last
      index (Grid.py:125-128). */
  function ReserveRight(s: seq<State>, clues: seq<nat>, j: int, i: nat, right: int, x: State): (r: int)
    requires i <= |clues| && j < |clues| && right <= |s|
    ensures r <= right
    decreases j - i
  {
    if j <= i then right
    else ReserveRight(s, clues, j - 1, i, SkipRight(s, right, clues[j], x) - clues[j] - 1, x)
  }

  /** The sweep of the left bound past opposite-colour cells (Grid.py:132-139).
      For the first clue each UNKNOWN cell passed becomes the opposite colour and
      a fill-colour cell passed is a contradiction; for any other clue the sweep
      only moves the bound. */
  function SweepLeft(s: seq<State>, left: int, clue: nat, first: bool, fill: State, dirty: bool): (r: Outcome<Sweep>)
    requires 0 <= left && fill != Unknown
    ensures r.Ok? ==> left <= r.value.bound && |r.value.cells| == |s|
    decreases |s| - left
  {
    var x := Opposite(fill);
    if Blocked(s, left, left + clue, x) then
      if first && s[left] == Unknown then SweepLeft(s[left := x], left + 1, clue, first, fill, true)
      else if first && s[left] == fill then Raised(ContradictionException)
      else SweepLeft(s, left + 1, clue, first, fill, dirty)
    else Ok(Sweep(s, left, dirty))
  }

  /** The sweep of the right bound past opposite-colour cells (Grid.py:140-147),
      with Python's negative indexing of `row[right-1]`. For the last clue an
      UNKNOWN cell at `right-1` becomes the opposite colour; a cell there that is
      neither the opposite colour nor UNKNOWN is the fill colour (the fill colour
      is RED or BLUE), and is a contradiction. */
  function SweepRight(s: seq<State>, right: int, clue: nat, last: bool, fill: State, dirty: bool): (r: Outcome<Sweep>)
    requires right <= |s| && fill != Unknown
    ensures r.Ok? ==> r.value.bound <= right && |r.value.cells| == |s|
    decreases right + |s|
  {
    var x := Opposite(fill);
    if Blocked(s, right - clue, right, x) then
      if last && Index(s, right - 1) != x then
        if Index(s, right - 1) == Unknown then SweepRight(Update(s, right - 1, x), right - 1, clue, last, fill, true)
        else Raised(ContradictionException)
      else SweepRight(s, right - 1, clue, last, fill, dirty)
    else Ok(Sweep(s, right, dirty))
  }

  /** `if row[lo:hi] != [fill] * (hi - lo): dirty = True; row[lo:hi] = [fill] * (hi - lo)`
      (Grid.py:154-156 and 167-170). */
  function FillRun(s: seq<State>, lo: int, hi: int, fill: State, dirty: bool): (r: Line)
    requires 0 <= lo <= hi <= |s|
    ensures |r.cells| == |s|
  {
    if s[lo..hi] != Repeat(fill, hi - lo) then Line(AssignRun(s, lo, hi, fill), true)
    else Line(s, dirty)
  }

  /** `if cond: if row[k] != x: dirty = True; row[k] = x` (Grid.py:157-164). */
  function MarkIf(l: Line, cond: bool, k: int, x: State): (r: Line)
    requires cond ==> 0 <= k < |l.cells|
    ensures |r.cells| == |l.cells|
  {
    if cond && l.cells[k] != x then Line(l.cells[k := x], true) else l
  }

  /** The deduction for one clue in its final window `[left, right)` (Grid.py:150-170). */
  function Deduce(s: seq<State>, left: int, right: int, clue: nat, fill: State, dirty: bool): (r: Outcome<Line>)
    requires 0 <= left && right <= |s| && fill != Unknown
    ensures r.Ok? ==> |r.value.cells| == |s|
  {
    var x := Opposite(fill);
    var width := right - left;
    if width < clue then Raised(ContradictionException)
    else if clue == width then
      var filled := FillRun(s, left, right, fill, dirty);
      var marked := MarkIf(filled, left > 1, left - 1, x);
      Ok(MarkIf(marked, right < |s| - 2, right, x))
    else if clue * 2 > width then
      var e := width - clue;
      Ok(FillRun(s, left + e, right - e, fill, dirty))
    else Ok(Line(s, dirty))
  }

  /** The rest of `helper` once the window `[left, right)` is reserved
      (Grid.py:131-170): the left sweep, then the rest. */
  function Place(s: seq<State>, left: int, right: int, clue: nat, first: bool, last: bool, fill: State, dirty: bool): (r: Outcome<Line>)
    requires 0 <= left && right <= |s| && fill != Unknown
  {
    match SweepLeft(s, left, clue, first, fill, dirty)
    case Raised(e) => Raised(e)
    case Ok(l) => PlaceRight(l, right, clue, last, fill)
  }

  /** The right sweep on the line the left sweep `l` left, then the
      deduction in the window between the two bounds (Grid.py:140-170). */
  function PlaceRight(l: Sweep, right: int, clue: nat, last: bool, fill: State): (r: Outcome<Line>)
    requires 0 <= l.bound && right <= |l.cells| && fill != Unknown
  {
    match SweepRight(l.cells, right, clue, last, fill, l.changed)
    case Raised(e) => Raised(e)
    case Ok(rt) => Deduce(rt.cells, l.bound, rt.bound, clue, fill, rt.changed)
  }

  /** The window `[left, right)` that `helper(i)` reserves for clue `i`
      (Grid.py:118-128): from the first and past the last cell that is not of
      the opposite colour, shrunk by `clue + 1` cells for every clue before and
      after it. `None` when `next(...)` raises StopIteration. */
  function Window(s: seq<State>, clues: seq<nat>, i: nat, x: State): (r: Option<(int, int)>)
    requires i < |clues|
    ensures r.None? <==> forall k :: 0 <= k < |s| ==> s[k] == x
    ensures r.Some? ==> 0 <= r.value.0 && r.value.1 <= |s|
  {
    match FirstOther(s, x)
    case None => None
    case Some(first) => WindowFrom(s, clues, i, first, x)
  }

  /** The window once the first cell that is not the opposite colour `x` is
      known to be `first` (Grid.py:119-128): the search from the end, then the
      reservations on both sides. */
  function WindowFrom(s: seq<State>, clues: seq<nat>, i: nat, first: nat, x: State): (r: Option<(int, int)>)
    requires i < |clues|
    ensures r.None? ==> forall k :: 0 <= k < |s| ==> s[k] == x
    ensures r.Some? ==> first <= r.value.0 && r.value.1 <= |s|
  {
    match FirstOther(Reversed(s), x)
    case None =>
      assert forall k :: 0 <= k < |s| ==> s[k] == Reversed(s)[|s| - 1 - k];
      None
    case Some(fromEnd) =>
      Some((ReserveLeft(s, clues, 0, i, first, x), ReserveRight(s, clues, |clues| - 1, i, |s| - fromEnd, x)))
  }

  /** One call `helper(i)` (Grid.py:115-170) on the line `s`. */
  function Helper(s: seq<State>, clues: seq<nat>, i: nat, fill: State, dirty: bool): (r: Outcome<Line>)
    requires i < |clues| && fill != Unknown
  {
    match Window(s, clues, i, Opposite(fill))
    case None => Raised(StopIteration)
    case Some((left, right)) => Place(s, left, right, clues[i], i == 0, i == |clues| - 1, fill, dirty)
  }

  /** `for i in range(len(clues)): helper(i)` from clue `i` on (Grid.py:192-193). */
  function RunHelpers(s: seq<State>, clues: seq<nat>, fill: State, i: nat, dirty: bool): (r: Outcome<Line>)
    requires i <= |clues| && fill != Unknown
    decreases |clues| - i
  {
    if i == |clues| then Ok(Line(s, dirty))
    else match Helper(s, clues, i, fill, dirty)
      case Raised(e) => Raised(e)
      case Ok(l) => RunHelpers(l.cells, clues, fill, i + 1, l.changed)
  }

  /** `return row[:p] + internal, dirty` after the recursive call on `row[p:]` (Grid.py:178-180). */
  function Prepend(prefix: seq<State>, r: Outcome<Line>): (o: Outcome<Line>)
  {
    match r
    case Raised(e) => Raised(e)
    case Ok(inner) => Ok(Line(prefix + inner.cells, inner.changed))
  }

  /** `return internal + row[p:], dirty` after the recursive call on `row[:p]` (Grid.py:188-190). */
  function Append(r: Outcome<Line>, suffix: seq<State>): (o: Outcome<Line>)
  {
    match r
    case Raised(e) => Raised(e)
    case Ok(inner) => Ok(Line(inner.cells + suffix, inner.changed))
  }

  /** The split point `p` when the first clue is already in place at the left
      edge (Grid.py:176-178): `first` is the first cell that is not of the
      opposite colour and `row[first:clues[0]]` must be a full run of the fill
      colour. The slice ends at `clues[0]`, not at `first + clues[0]`, so
      (unless the clue is 0) this only holds when `first` is 0. */
  function LeftStrip(s: seq<State>, clues: seq<nat>, fill: State): (r: Option<nat>)
    requires clues != [] && fill != Unknown
    ensures r.Some? ==> r.value <= |s|
  {
    match FirstOther(s, Opposite(fill))
    case None => None
    case Some(first) =>
      if Slice(s, first, clues[0]) == Repeat(fill, clues[0]) then Some(first + clues[0]) else None
  }

  /** The split point `p` when the last clue is already in place at the right
      edge (Grid.py:182-188): the run of the fill colour that ends just before
      the trailing cells of the opposite colour. */
  function RightStrip(s: seq<State>, clues: seq<nat>, fill: State): (r: Option<nat>)
    requires clues != [] && fill != Unknown
    ensures r.Some? ==> r.value <= |s|
  {
    match FirstOther(Reversed(s), Opposite(fill))
    case None => None
    case Some(fromEnd) => RunBefore(s, |s| - fromEnd, clues[|clues| - 1], fill)
  }

  /** `row[right-c:right] == [fill] * c` (Grid.py:187): where the run of `c`
      fill-colour cells ending at `right` starts, if there is one. */
  function RunBefore(s: seq<State>, right: int, c: nat, fill: State): (r: Option<nat>)
    requires 0 < right <= |s|
    ensures r.Some? ==> r.value + c == right
  {
    if Slice(s, right - c, right) == Repeat(fill, c) then
      assert |Slice(s, right - c, right)| == c;
      Some(right - c)
    else None
  }

  /** `Grid.solveRow(row, clues, fill_color)` (Grid.py:108-195): the updated line
      and whether anything was written, or the exception it raises. A first
      clue already in place at the left edge, or else a last clue already in
      place at the right edge, is split off and the rest solved recursively. */
  function SolveLine(s: seq<State>, clues: seq<nat>, fill: State): (r: Outcome<Line>)
    requires fill != Unknown
    decreases |clues|
  {
    if clues == [] then Ok(Line(s, false))
    else match LeftStrip(s, clues, fill)
      case Some(p) => Prepend(s[..p], SolveLine(s[p..], clues[1..], fill))
      case None =>
        match RightStrip(s, clues, fill)
        case Some(p) => Append(SolveLine(s[..p], clues[..|clues| - 1], fill), s[p..])
        case None => RunHelpers(s, clues, fill, 0, false)
  }
}
