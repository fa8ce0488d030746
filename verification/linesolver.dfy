/** `Grid.solveRow` and its inner `helper` as the source runs them: in place
    on the row (a mutable list, here an array), one loop per `while`/`for` of
    the source. Every method is proved to compute exactly the corresponding
    function of module LineSpec, whose properties module LineProperties proves. */
module LineSolver {
  import opened PyList
  import opened States
  import opened LineSpec
  import LineProperties

  /** The outcome of an in-place step read against the specification: the
      same exception, or the line now in the array together with `dirty`. */
  ghost predicate Matches(res: Outcome<bool>, r: Outcome<Line>, cells: seq<State>)
  {
    match r
    case Raised(e) => res == Raised(e)
    case Ok(l) => res == Ok(l.changed) && cells == l.cells
  }

  /** The same for an edge sweep, which also yields the bound it reached. */
  ghost predicate SweptTo(res: Outcome<(int, bool)>, r: Outcome<Sweep>, cells: seq<State>)
  {
    match r
    case Raised(e) => res == Raised(e)
    case Ok(w) => res == Ok((w.bound, w.changed)) && cells == w.cells
  }

  /** What `solveRow` returned, as a value: the returned list's contents and `dirty`. */
  ghost function Returned(res: Outcome<(array<State>, bool)>): Outcome<Line>
    reads if res.Ok? then {res.value.0} else {}
  {
    match res
    case Raised(e) => Raised(e)
    case Ok(p) => Ok(Line(p.0[..], p.1))
  }

  /** A new list holding `s` (a slice or a concatenation). */
  method FromSeq(s: seq<State>) returns (a: array<State>)
    ensures fresh(a) && a[..] == s
  {
    a := new State[|s|](k requires 0 <= k < |s| => s[k]);
  }

  /** `next(i for i, x in enumerate(row) if x != v)`; `None` for StopIteration. */
  method FindFirst(row: seq<State>, v: State) returns (r: Option<nat>)
    ensures r == FirstOther(row, v)
  {
    var i := 0;
    while i < |row|
      invariant 0 <= i <= |row|
      invariant forall k :: 0 <= k < i ==> row[k] == v
    {
      if row[i] != v {
        return Some(i);
      }
      i := i + 1;
    }
    return None;
  }

  /** `next(i for i, x in enumerate(reversed(row)) if x != v)`: the distance
      from the end of the last cell that is not `v`; `None` for StopIteration. */
  method FindLast(row: seq<State>, v: State) returns (r: Option<nat>)
    ensures r == FirstOther(Reversed(row), v)
  {
    var i := 0;
    while i < |row|
      invariant 0 <= i <= |row|
      invariant forall k :: |row| - i <= k < |row| ==> row[k] == v
    {
      if row[|row| - 1 - i] != v {
        FirstOtherAt(Reversed(row), v, i);
        return Some(i);
      }
      i := i + 1;
    }
    return None;
  }

  /** `while any(x == c for c in row[left:left+clue]): left += 1` (Grid.py:122-123). */
  method SkipLeftFrom(row: seq<State>, left0: int, clue: nat, x: State) returns (left: int)
    requires 0 <= left0
    ensures left == SkipLeft(row, left0, clue, x)
  {
    left := left0;
    while Blocked(row, left, left + clue, x)
      invariant left0 <= left
      invariant SkipLeft(row, left0, clue, x) == SkipLeft(row, left, clue, x)
      decreases |row| - left
    {
      left := left + 1;
    }
  }

  /** `for clue in clues[:clue_index]: ...; left += clue + 1` (Grid.py:121-124). */
  method ReserveLeftFrom(row: seq<State>, clues: seq<nat>, i: nat, left0: int, x: State) returns (left: int)
    requires i <= |clues| && 0 <= left0
    ensures left == ReserveLeft(row, clues, 0, i, left0, x)
  {
    left := left0;
    var k := 0;
    while k < i
      invariant k <= i && 0 <= left
      invariant ReserveLeft(row, clues, 0, i, left0, x) == ReserveLeft(row, clues, k, i, left, x)
    {
      var clue := clues[k];
      LineProperties.ReserveLeftStep(row, clues, k, i, left, x);
      left := SkipLeftFrom(row, left, clue, x);
      left := left + clue + 1;
      k := k + 1;
    }
  }

  /** `while any(x == c for c in row[right-clue:right]): right -= 1` (Grid.py:126-127). */
  method SkipRightFrom(row: seq<State>, right0: int, clue: nat, x: State) returns (right: int)
    requires right0 <= |row|
    ensures right == SkipRight(row, right0, clue, x)
  {
    right := right0;
    while Blocked(row, right - clue, right, x)
      invariant right <= right0
      invariant SkipRight(row, right0, clue, x) == SkipRight(row, right, clue, x)
      decreases right + |row|
    {
      BlockedEnd(row, right - clue, right, x);
      right := right - 1;
    }
  }

  /** `for clue in clues[-1:clue_index:-1]: ...; right -= clue + 1` (Grid.py:125-128). */
  method ReserveRightFrom(row: seq<State>, clues: seq<nat>, i: nat, right0: int, x: State) returns (right: int)
    requires i < |clues| && right0 <= |row|
    ensures right == ReserveRight(row, clues, |clues| - 1, i, right0, x)
  {
    right := right0;
    var j := |clues| - 1;
    while j > i
      invariant i <= j < |clues| && right <= |row|
      invariant ReserveRight(row, clues, |clues| - 1, i, right0, x) == ReserveRight(row, clues, j, i, right, x)
    {
      var clue := clues[j];
      LineProperties.ReserveRightStep(row, clues, j, i, right, x);
      right := SkipRightFrom(row, right, clue, x);
      right := right - clue - 1;
      j := j - 1;
    }
  }

  /** The window of clue `i` (Grid.py:118-128). */
  method ReserveWindow(row: seq<State>, clues: seq<nat>, i: nat, x: State) returns (w: Option<(int, int)>)
    requires i < |clues|
    ensures w == Window(row, clues, i, x)
  {
    var first := FindFirst(row, x);
    if first.None? {
      return None;
    }
    w := ReserveFrom(row, clues, i, first.value, x);
  }

  /** The window once the first cell that is not `x` is found (Grid.py:119-128). */
  method ReserveFrom(row: seq<State>, clues: seq<nat>, i: nat, first: nat, x: State) returns (w: Option<(int, int)>)
    requires i < |clues|
    ensures w == WindowFrom(row, clues, i, first, x)
  {
    var fromEnd := FindLast(row, x);
    if fromEnd.None? {
      return None;
    }
    var left := ReserveLeftFrom(row, clues, i, first, x);
    var right := ReserveRightFrom(row, clues, i, |row| - fromEnd.value, x);
    return Some((left, right));
  }

  /** One pass of the left sweep's loop body (Grid.py:133-139) at `left`. */
  method SweepLeftStep(row: array<State>, left: int, clue: nat, first: bool, fill: State, dirty0: bool)
    returns (res: Outcome<bool>)
    requires 0 <= left && fill != Unknown && Blocked(row[..], left, left + clue, Opposite(fill))
    modifies row
    ensures res.Raised? ==> (res == Raised(ContradictionException) &&
      SweepLeft(old(row[..]), left, clue, first, fill, dirty0) == Raised(ContradictionException))
    ensures res.Ok? ==>
      SweepLeft(old(row[..]), left, clue, first, fill, dirty0) == SweepLeft(row[..], left + 1, clue, first, fill, res.value)
  {
    var x := Opposite(fill);
    ghost var s := row[..];
    if first && row[left] == Unknown {
      LineProperties.SweepLeftMark(s, left, clue, fill, dirty0);
      row[left] := x;
      return Ok(true);
    } else if first && row[left] == fill {
      LineProperties.SweepLeftConflict(s, left, clue, fill, dirty0);
      return Raised(ContradictionException);
    }
    LineProperties.SweepLeftSkip(s, left, clue, first, fill, dirty0);
    return Ok(dirty0);
  }

  /** The left sweep of `helper` (Grid.py:132-139). */
  method SweepLeftInPlace(row: array<State>, left0: int, clue: nat, first: bool, fill: State, dirty0: bool)
    returns (res: Outcome<(int, bool)>)
    requires 0 <= left0 && fill != Unknown
    modifies row
    ensures SweptTo(res, SweepLeft(old(row[..]), left0, clue, first, fill, dirty0), row[..])
  {
    var x := Opposite(fill);
    var left, dirty := left0, dirty0;
    while Blocked(row[..], left, left + clue, x)
      invariant 0 <= left
      invariant SweepLeft(old(row[..]), left0, clue, first, fill, dirty0) == SweepLeft(row[..], left, clue, first, fill, dirty)
      decreases row.Length - left
    {
      var step := SweepLeftStep(row, left, clue, first, fill, dirty);
      if step.Raised? {
        return Raised(ContradictionException);
      }
      dirty := step.value;
      left := left + 1;
    }
    LineProperties.SweepLeftStop(row[..], left, clue, first, fill, dirty);
    return Ok((left, dirty));
  }

  /** One pass of the right sweep's loop body (Grid.py:141-147) at `right`. */
  method SweepRightStep(row: array<State>, right: int, clue: nat, last: bool, fill: State, dirty0: bool)
    returns (res: Outcome<bool>)
    requires right <= row.Length && fill != Unknown && Blocked(row[..], right - clue, right, Opposite(fill))
    modifies row
    ensures res.Raised? ==> (res == Raised(ContradictionException) &&
      SweepRight(old(row[..]), right, clue, last, fill, dirty0) == Raised(ContradictionException))
    ensures res.Ok? ==>
      SweepRight(old(row[..]), right, clue, last, fill, dirty0) == SweepRight(row[..], right - 1, clue, last, fill, res.value)
  {
    var x := Opposite(fill);
    ghost var s := row[..];
    LineProperties.SweepRightSkip(s, right, clue, last, fill, dirty0);
    var p := Position(right - 1, row.Length);
    if last && row[p] != x {
      if row[p] == Unknown {
        LineProperties.SweepRightMark(s, right, clue, fill, dirty0);
        row[p] := x;
        assert row[..] == Update(s, right - 1, x);
        return Ok(true);
      } else {
        LineProperties.SweepRightConflict(s, right, clue, fill, dirty0);
        return Raised(ContradictionException);
      }
    }
    return Ok(dirty0);
  }

  /** The right sweep of `helper` (Grid.py:140-147); `row[right-1]` counts
      from the end when `right - 1` is negative. */
  method SweepRightInPlace(row: array<State>, right0: int, clue: nat, last: bool, fill: State, dirty0: bool)
    returns (res: Outcome<(int, bool)>)
    requires right0 <= row.Length && fill != Unknown
    modifies row
    ensures SweptTo(res, SweepRight(old(row[..]), right0, clue, last, fill, dirty0), row[..])
  {
    var x := Opposite(fill);
    var right, dirty := right0, dirty0;
    while Blocked(row[..], right - clue, right, x)
      invariant right <= row.Length
      invariant SweepRight(old(row[..]), right0, clue, last, fill, dirty0) == SweepRight(row[..], right, clue, last, fill, dirty)
      decreases right + row.Length
    {
      var step := SweepRightStep(row, right, clue, last, fill, dirty);
      if step.Raised? {
        return Raised(ContradictionException);
      }
      dirty := step.value;
      right := right - 1;
    }
    LineProperties.SweepRightStop(row[..], right, clue, last, fill, dirty);
    return Ok((right, dirty));
  }

  /** `if row[lo:hi] != [fill] * (hi - lo): dirty = True; row[lo:hi] = [fill] * (hi - lo)`. */
  method FillInPlace(row: array<State>, lo: int, hi: int, fill: State, dirty0: bool) returns (dirty: bool)
    requires 0 <= lo <= hi <= row.Length
    modifies row
    ensures Line(row[..], dirty) == FillRun(old(row[..]), lo, hi, fill, dirty0)
  {
    dirty := dirty0;
    if row[lo..hi] != Repeat(fill, hi - lo) {
      dirty := true;
      var k := lo;
      while k < hi
        invariant lo <= k <= hi
        invariant forall j :: 0 <= j < row.Length ==> row[j] == if lo <= j < k then fill else old(row[j])
      {
        row[k] := fill;
        k := k + 1;
      }
      assert row[..] == AssignRun(old(row[..]), lo, hi, fill);
    }
  }

  /** `if cond: if row[k] != x_color: dirty = True; row[k] = x_color`
      (Grid.py:157-164). */
  method MarkInPlace(row: array<State>, cond: bool, k: int, x: State, dirty0: bool) returns (dirty: bool)
    requires cond ==> 0 <= k < row.Length
    modifies row
    ensures Line(row[..], dirty) == MarkIf(Line(old(row[..]), dirty0), cond, k, x)
  {
    dirty := dirty0;
    if cond && row[k] != x {
      dirty := true;
      row[k] := x;
    }
  }

  /** A window exactly as wide as its clue (Grid.py:153-164): fill it, then
      mark the separators the guards allow. */
  method ExactInPlace(row: array<State>, left: int, right: int, fill: State, dirty0: bool) returns (dirty: bool)
    requires 0 <= left <= right <= row.Length && fill != Unknown
    modifies row
    ensures var x := Opposite(fill);
      var filled := FillRun(old(row[..]), left, right, fill, dirty0);
      var marked := MarkIf(filled, left > 1, left - 1, x);
      Line(row[..], dirty) == MarkIf(marked, right < row.Length - 2, right, x)
  {
    var x := Opposite(fill);
    dirty := FillInPlace(row, left, right, fill, dirty0);
    ghost var filled := Line(row[..], dirty);
    dirty := MarkInPlace(row, left > 1, left - 1, x, dirty);
    ghost var marked := Line(row[..], dirty);
    assert marked == MarkIf(filled, left > 1, left - 1, x);
    dirty := MarkInPlace(row, right < row.Length - 2, right, x, dirty);
  }

  /** The deduction of `helper` in the window `[left, right)` (Grid.py:150-170). */
  method DeduceInPlace(row: array<State>, left: int, right: int, clue: nat, fill: State, dirty0: bool)
    returns (res: Outcome<bool>)
    requires 0 <= left && right <= row.Length && fill != Unknown
    modifies row
    ensures Matches(res, Deduce(old(row[..]), left, right, clue, fill, dirty0), row[..])
  {
    var width := right - left;
    if width < clue {
      return Raised(ContradictionException);
    }
    var dirty := dirty0;
    if clue == width {
      dirty := ExactInPlace(row, left, right, fill, dirty);
    } else if clue * 2 > width {
      var e := width - clue;
      dirty := FillInPlace(row, left + e, right - e, fill, dirty);
    }
    return Ok(dirty);
  }

  /** `helper(i)` (Grid.py:115-170) on the row in place. */
  method HelperInPlace(row: array<State>, clues: seq<nat>, i: nat, fill: State, dirty: bool) returns (res: Outcome<bool>)
    requires i < |clues| && fill != Unknown
    modifies row
    ensures Matches(res, Helper(old(row[..]), clues, i, fill, dirty), row[..])
  {
    var w := ReserveWindow(row[..], clues, i, Opposite(fill));
    if w.None? {
      return Raised(StopIteration);
    }
    var (left, right) := w.value;
    ghost var s := row[..];
    var l := SweepLeftInPlace(row, left, clues[i], i == 0, fill, dirty);
    if l.Raised? {
      return Raised(l.exc);
    }
    ghost var lw := SweepLeft(s, left, clues[i], i == 0, fill, dirty).value;
    ghost var t := row[..];
    var rt := SweepRightInPlace(row, right, clues[i], i == |clues| - 1, fill, l.value.1);
    if rt.Raised? {
      assert PlaceRight(lw, right, clues[i], i == |clues| - 1, fill) == Raised(rt.exc);
      return Raised(rt.exc);
    }
    ghost var rw := SweepRight(t, right, clues[i], i == |clues| - 1, fill, l.value.1).value;
    assert PlaceRight(lw, right, clues[i], i == |clues| - 1, fill) == Deduce(rw.cells, lw.bound, rw.bound, clues[i], fill, rw.changed);
    res := DeduceInPlace(row, l.value.0, rt.value.0, clues[i], fill, rt.value.1);
  }

  /** One iteration `helper(i)` of the loop of Grid.py:192-193, read
      against the rest of the loop: an exception ends it, otherwise the loop
      goes on from clue `i + 1` with the row and `dirty` the helper left. */
  method HelperIteration(row: array<State>, clues: seq<nat>, i: nat, fill: State, dirty: bool) returns (res: Outcome<bool>)
    requires i < |clues| && fill != Unknown
    modifies row
    ensures res.Raised? ==> RunHelpers(old(row[..]), clues, fill, i, dirty) == Raised(res.exc)
    ensures res.Ok? ==> RunHelpers(old(row[..]), clues, fill, i, dirty) == RunHelpers(row[..], clues, fill, i + 1, res.value)
  {
    LineProperties.RunHelpersStep(row[..], clues, fill, i, dirty);
    res := HelperInPlace(row, clues, i, fill, dirty);
  }

  /** `for i in range(len(clues)): helper(i)` (Grid.py:192-193), with `dirty` starting false. */
  method RunHelpersInPlace(row: array<State>, clues: seq<nat>, fill: State) returns (res: Outcome<bool>)
    requires fill != Unknown
    modifies row
    ensures Matches(res, RunHelpers(old(row[..]), clues, fill, 0, false), row[..])
  {
    ghost var goal := RunHelpers(row[..], clues, fill, 0, false);
    var dirty := false;
    var i := 0;
    while i < |clues|
      invariant i <= |clues|
      invariant RunHelpers(row[..], clues, fill, i, dirty) == goal
    {
      var h := HelperIteration(row, clues, i, fill, dirty);
      if h.Raised? {
        return Raised(h.exc);
      }
      dirty := h.value;
      i := i + 1;
    }
    return Ok(dirty);
  }

  /** The test of Grid.py:172-177: where the row splits when its first clue
      is already in place at the left edge. */
  method FrontSplit(row: seq<State>, clues: seq<nat>, fill: State) returns (p: Option<nat>)
    requires clues != [] && fill != Unknown
    ensures p == LeftStrip(row, clues, fill)
  {
    var first := FindFirst(row, Opposite(fill));
    if first.Some? && Slice(row, first.value, clues[0]) == Repeat(fill, clues[0]) {
      return Some(first.value + clues[0]);
    }
    return None;
  }

  /** The test of Grid.py:182-187: where the row splits when its last clue is
      already in place at the right edge. */
  method BackSplit(row: seq<State>, clues: seq<nat>, fill: State) returns (p: Option<nat>)
    requires clues != [] && fill != Unknown
    ensures p == RightStrip(row, clues, fill)
  {
    var fromEnd := FindLast(row, Opposite(fill));
    if fromEnd.None? {
      return None;
    }
    p := BackRun(row, |row| - fromEnd.value, clues[|clues| - 1], fill);
  }

  /** Grid.py:187, once `right` is known: the last clue is in place when the
      `clues[-1]` cells before `right` are all of the fill colour. */
  method BackRun(row: seq<State>, right: int, c: nat, fill: State) returns (p: Option<nat>)
    requires 0 < right <= |row|
    ensures p == RunBefore(row, right, c, fill)
  {
    if Slice(row, right - c, right) == Repeat(fill, c) {
      LineProperties.RightRunStart(row, right, c, fill);
      return Some(right - c);
    }
    return None;
  }

  /** Grid.py:178-180: solve `row[p:]` without the first clue and put
      `row[:p]` back in front. */
  method SolveFront(row: seq<State>, clues: seq<nat>, fill: State, p: nat) returns (res: Outcome<(array<State>, bool)>)
    requires clues != [] && fill != Unknown && p <= |row|
    ensures Returned(res) == Prepend(row[..p], SolveLine(row[p..], clues[1..], fill))
    ensures res.Ok? ==> fresh(res.value.0)
    decreases |clues|, 0
  {
    var dirty := false;
    var rest := FromSeq(row[p..]);
    var inner := SolveRow(rest, clues[1..], fill);
    if inner.Raised? {
      return Raised(inner.exc);
    }
    dirty := dirty || inner.value.1;
    var joined := FromSeq(row[..p] + inner.value.0[..]);
    return Ok((joined, dirty));
  }

  /** Grid.py:188-190: solve `row[:p]` without the last clue and put `row[p:]`
      back behind it. */
  method SolveBack(row: seq<State>, clues: seq<nat>, fill: State, p: nat) returns (res: Outcome<(array<State>, bool)>)
    requires clues != [] && fill != Unknown && p <= |row|
    ensures Returned(res) == Append(SolveLine(row[..p], clues[..|clues| - 1], fill), row[p..])
    ensures res.Ok? ==> fresh(res.value.0)
    decreases |clues|, 0
  {
    var dirty := false;
    var front := FromSeq(row[..p]);
    var inner := SolveRow(front, clues[..|clues| - 1], fill);
    if inner.Raised? {
      return Raised(inner.exc);
    }
    dirty := dirty || inner.value.1;
    var joined := FromSeq(inner.value.0[..] + row[p..]);
    return Ok((joined, dirty));
  }

  /** `Grid.solveRow(row, clues, fill_color)` (Grid.py:108-195). The result is
      `row` itself, updated in place, or a new list when a clue at an edge is
      split off. */
  method SolveRow(row: array<State>, clues: seq<nat>, fill: State) returns (res: Outcome<(array<State>, bool)>)
    requires fill != Unknown
    modifies row
    ensures Returned(res) == SolveLine(old(row[..]), clues, fill)
    ensures res.Ok? ==> res.value.0 == row || fresh(res.value.0)
    decreases |clues|, 1
  {
    if clues == [] {
      return Ok((row, false));
    }
    var front := FrontSplit(row[..], clues, fill);
    if front.Some? {
      res := SolveFront(row[..], clues, fill, front.value);
      return;
    }
    var back := BackSplit(row[..], clues, fill);
    if back.Some? {
      res := SolveBack(row[..], clues, fill, back.value);
      return;
    }
    var helped := RunHelpersInPlace(row, clues, fill);
    if helped.Raised? {
      return Raised(helped.exc);
    }
    return Ok((row, helped.value));
  }
}
