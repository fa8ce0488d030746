/** What the line solver of Grid.py promises, proved about the functions of
    module LineSpec: no step makes a cell UNKNOWN or repaints a cell of the
    opposite colour, the sweeps only mark UNKNOWN cells with the opposite
    colour, the `dirty` flag a step returns says exactly whether the line
    changed, and the exceptions arise exactly where the source raises them. */
module LineProperties {
  import opened PyList
  import opened States
  import opened LineSpec

  // ---------------------------------------------------------------------
  // Facts about Evolves and Reported

  /** Cells outside `[lo, hi)` are as they were. */
  ghost predicate Outside(s: seq<State>, t: seq<State>, lo: int, hi: int)
  {
    |t| == |s| && forall k :: 0 <= k < |s| && (k < lo || hi <= k) ==> t[k] == s[k]
  }

  /** The only writes from `s` to `t` turn UNKNOWN cells into `x`. */
  ghost predicate MarksOnly(s: seq<State>, t: seq<State>, x: State)
  {
    |t| == |s| && forall k :: 0 <= k < |s| ==> t[k] == s[k] || (s[k] == Unknown && t[k] == x)
  }

  /** Marking with a colour makes no cell UNKNOWN and repaints no cell of that colour. */
  lemma MarksOnlyEvolves(s: seq<State>, t: seq<State>, x: State)
    requires x != Unknown && MarksOnly(s, t, x)
    ensures Evolves(s, t, x)
  {
  }

  /** Marking an UNKNOWN cell and then marking further only marks. */
  lemma MarksOnlyAfterMark(s: seq<State>, k: nat, t: seq<State>, x: State)
    requires k < |s| && s[k] == Unknown && MarksOnly(s[k := x], t, x)
    ensures MarksOnly(s, t, x)
  {
    forall j | 0 <= j < |s|
      ensures t[j] == s[j] || (s[j] == Unknown && t[j] == x)
    {
      if j == k {
        assert s[k := x][k] == x;
      } else {
        assert s[k := x][j] == s[j];
      }
    }
  }

  lemma EvolvesRefl(s: seq<State>, x: State)
    ensures Evolves(s, s, x)
  {
  }

  lemma EvolvesTrans(s: seq<State>, u: seq<State>, t: seq<State>, x: State)
    requires Evolves(s, u, x) && Evolves(u, t, x)
    ensures Evolves(s, t, x)
  {
  }

  /** Marking an UNKNOWN cell with the opposite colour and evolving further
      from there evolves the line. */
  lemma EvolvesAfterMark(s: seq<State>, k: nat, t: seq<State>, x: State)
    requires k < |s| && s[k] == Unknown && Evolves(s[k := x], t, x)
    ensures Evolves(s, t, x)
  {
  }

  /** ... and the mark is still there. */
  lemma ChangedAfterMark(s: seq<State>, k: nat, t: seq<State>, x: State)
    requires k < |s| && s[k] == Unknown && x != Unknown && Evolves(s[k := x], t, x)
    ensures t != s
  {
    assert t[k] != s[k];
  }

  /** A change made by one step survives any later step. */
  lemma EvolvesStrict(s: seq<State>, u: seq<State>, t: seq<State>, x: State)
    requires Evolves(s, u, x) && Evolves(u, t, x) && u != s && x != Unknown
    ensures t != s
  {
    assert |u| == |s|;
    var k :| 0 <= k < |s| && u[k] != s[k];
    assert t[k] != s[k];
  }

  /** Steps that only evolve the line cannot undo each other. */
  lemma EvolvesAntisymmetric(s: seq<State>, t: seq<State>, x: State)
    requires Evolves(s, t, x) && Evolves(t, s, x) && x != Unknown
    ensures t == s
  {
    forall k | 0 <= k < |s|
      ensures t[k] == s[k]
    {
      if s[k] != Unknown && s[k] != x {
        assert t[k] != Unknown;
        assert t[k] != x;
      }
    }
  }

  /** The `dirty` flag reported over two steps in a row. */
  lemma ReportedTrans(s: seq<State>, u: seq<State>, t: seq<State>, x: State, d0: bool, d1: bool, d2: bool)
    requires Evolves(s, u, x) && Evolves(u, t, x) && x != Unknown
    requires Reported(s, u, d0, d1) && Reported(u, t, d1, d2)
    ensures Reported(s, t, d0, d2)
  {
    if u != s {
      EvolvesStrict(s, u, t, x);
    }
    if t == s && u != t {
      EvolvesTrans(s, u, t, x);
      EvolvesAntisymmetric(u, t, x);
    }
  }

  /** A line solved in two pieces evolves when each piece does. */
  lemma EvolvesConcat(a: seq<State>, b: seq<State>, a': seq<State>, b': seq<State>, x: State)
    requires Evolves(a, a', x) && Evolves(b, b', x)
    ensures Evolves(a + b, a' + b', x)
  {
    var s, t := a + b, a' + b';
    forall k | 0 <= k < |s|
      ensures (t[k] == Unknown ==> s[k] == Unknown) && (s[k] == x ==> t[k] == x)
    {
      if k >= |a| {
        assert s[k] == b[k - |a|] && t[k] == b'[k - |a|];
      }
    }
  }

  // ---------------------------------------------------------------------
  // The left sweep (Grid.py:132-139)

  /** A finished sweep only marked UNKNOWN cells with the opposite colour `x`,
      so it made no cell UNKNOWN and repainted no cell of colour `x`. */
  ghost predicate SweepEvolves(s: seq<State>, x: State, r: Outcome<Sweep>)
  {
    r.Ok? ==> MarksOnly(s, r.value.cells, x) && Evolves(s, r.value.cells, x)
  }

  ghost predicate SweepReported(s: seq<State>, dirty: bool, r: Outcome<Sweep>)
  {
    r.Ok? ==> Reported(s, r.value.cells, dirty, r.value.changed)
  }

  /** A completed left sweep leaves no opposite-colour cell in the window of `clue` cells at its bound. */
  ghost predicate LeftClear(clue: nat, x: State, r: Outcome<Sweep>)
  {
    r.Ok? ==> !Blocked(r.value.cells, r.value.bound, r.value.bound + clue, x)
  }

  ghost predicate LeftFrame(s: seq<State>, left: int, r: Outcome<Sweep>)
  {
    r.Ok? ==> Outside(s, r.value.cells, left, r.value.bound)
  }

  // One step of the left sweep, as the four cases of its loop body.

  /** One clue of the reservation loop of Grid.py:121-124. */
  lemma ReserveLeftStep(s: seq<State>, clues: seq<nat>, k: nat, i: nat, left: int, x: State)
    requires k < i <= |clues| && 0 <= left
    ensures ReserveLeft(s, clues, k, i, left, x) ==
      ReserveLeft(s, clues, k + 1, i, SkipLeft(s, left, clues[k], x) + clues[k] + 1, x)
  {
  }

  /** One clue of the reservation loop of Grid.py:125-128. */
  lemma ReserveRightStep(s: seq<State>, clues: seq<nat>, j: int, i: nat, right: int, x: State)
    requires i < j < |clues| && right <= |s|
    ensures ReserveRight(s, clues, j, i, right, x) ==
      ReserveRight(s, clues, j - 1, i, SkipRight(s, right, clues[j], x) - clues[j] - 1, x)
  {
  }

  lemma SweepLeftStop(s: seq<State>, left: int, clue: nat, first: bool, fill: State, dirty: bool)
    requires 0 <= left && fill != Unknown
    requires !Blocked(s, left, left + clue, Opposite(fill))
    ensures SweepLeft(s, left, clue, first, fill, dirty) == Ok(Sweep(s, left, dirty))
  {
  }

  lemma SweepLeftMark(s: seq<State>, left: int, clue: nat, fill: State, dirty: bool)
    requires 0 <= left < |s| && fill != Unknown
    requires Blocked(s, left, left + clue, Opposite(fill)) && s[left] == Unknown
    ensures SweepLeft(s, left, clue, true, fill, dirty) == SweepLeft(s[left := Opposite(fill)], left + 1, clue, true, fill, true)
  {
  }

  lemma SweepLeftSkip(s: seq<State>, left: int, clue: nat, first: bool, fill: State, dirty: bool)
    requires 0 <= left < |s| && fill != Unknown
    requires Blocked(s, left, left + clue, Opposite(fill)) && !(first && s[left] in {Unknown, fill})
    ensures SweepLeft(s, left, clue, first, fill, dirty) == SweepLeft(s, left + 1, clue, first, fill, dirty)
  {
  }

  lemma SweepLeftConflict(s: seq<State>, left: int, clue: nat, fill: State, dirty: bool)
    requires 0 <= left < |s| && fill != Unknown
    requires Blocked(s, left, left + clue, Opposite(fill)) && s[left] == fill
    ensures SweepLeft(s, left, clue, true, fill, dirty) == Raised(ContradictionException)
  {
  }

  lemma {:induction false} SweepLeftEvolves(s: seq<State>, left: int, clue: nat, first: bool, fill: State, dirty: bool)
    requires 0 <= left && fill != Unknown
    ensures SweepEvolves(s, Opposite(fill), SweepLeft(s, left, clue, first, fill, dirty))
    decreases |s| - left, 1
  {
    var x := Opposite(fill);
    if !Blocked(s, left, left + clue, x) {
      SweepLeftStop(s, left, clue, first, fill, dirty);
      EvolvesRefl(s, x);
    } else if first && s[left] == Unknown {
      SweepLeftEvolvesMark(s, left, clue, fill, dirty);
    } else if first && s[left] == fill {
    } else {
      SweepLeftSkip(s, left, clue, first, fill, dirty);
      SweepLeftEvolves(s, left + 1, clue, first, fill, dirty);
    }
  }

  lemma {:induction false} SweepLeftEvolvesMark(s: seq<State>, left: int, clue: nat, fill: State, dirty: bool)
    requires 0 <= left < |s| && fill != Unknown && s[left] == Unknown
    requires Blocked(s, left, left + clue, Opposite(fill))
    ensures SweepEvolves(s, Opposite(fill), SweepLeft(s, left, clue, true, fill, dirty))
    decreases |s| - left, 0
  {
    var x := Opposite(fill);
    SweepLeftMark(s, left, clue, fill, dirty);
    SweepLeftEvolves(s[left := x], left + 1, clue, true, fill, true);
    var r := SweepLeft(s[left := x], left + 1, clue, true, fill, true);
    if r.Ok? {
      EvolvesAfterMark(s, left, r.value.cells, x);
      MarksOnlyAfterMark(s, left, r.value.cells, x);
    }
  }

  lemma {:induction false} SweepLeftReported(s: seq<State>, left: int, clue: nat, first: bool, fill: State, dirty: bool)
    requires 0 <= left && fill != Unknown
    ensures SweepReported(s, dirty, SweepLeft(s, left, clue, first, fill, dirty))
    decreases |s| - left, 1
  {
    var x := Opposite(fill);
    if !Blocked(s, left, left + clue, x) {
      SweepLeftStop(s, left, clue, first, fill, dirty);
    } else if first && s[left] == Unknown {
      SweepLeftReportedMark(s, left, clue, fill, dirty);
    } else if first && s[left] == fill {
    } else {
      SweepLeftSkip(s, left, clue, first, fill, dirty);
      SweepLeftReported(s, left + 1, clue, first, fill, dirty);
    }
  }

  lemma {:induction false} SweepLeftReportedMark(s: seq<State>, left: int, clue: nat, fill: State, dirty: bool)
    requires 0 <= left < |s| && fill != Unknown && s[left] == Unknown
    requires Blocked(s, left, left + clue, Opposite(fill))
    ensures SweepReported(s, dirty, SweepLeft(s, left, clue, true, fill, dirty))
    decreases |s| - left, 0
  {
    var x := Opposite(fill);
    SweepLeftMark(s, left, clue, fill, dirty);
    SweepLeftReported(s[left := x], left + 1, clue, true, fill, true);
    SweepLeftEvolves(s[left := x], left + 1, clue, true, fill, true);
    var r := SweepLeft(s[left := x], left + 1, clue, true, fill, true);
    if r.Ok? {
      ChangedAfterMark(s, left, r.value.cells, x);
    }
  }

  lemma {:induction false} SweepLeftClear(s: seq<State>, left: int, clue: nat, first: bool, fill: State, dirty: bool)
    requires 0 <= left && fill != Unknown
    ensures LeftClear(clue, Opposite(fill), SweepLeft(s, left, clue, first, fill, dirty))
    decreases |s| - left
  {
    var x := Opposite(fill);
    if Blocked(s, left, left + clue, x) {
      if first && s[left] == Unknown {
        SweepLeftClear(s[left := x], left + 1, clue, first, fill, true);
      } else if first && s[left] == fill {
      } else {
        SweepLeftClear(s, left + 1, clue, first, fill, dirty);
      }
    }
  }

  lemma OutsideWriteLeft(s: seq<State>, k: int, v: State, t: seq<State>, hi: int)
    requires 0 <= k < |s| && k + 1 <= hi && Outside(s[k := v], t, k + 1, hi)
    ensures Outside(s, t, k, hi)
  {
  }

  lemma {:induction false} SweepLeftFrame(s: seq<State>, left: int, clue: nat, first: bool, fill: State, dirty: bool)
    requires 0 <= left && fill != Unknown
    ensures LeftFrame(s, left, SweepLeft(s, left, clue, first, fill, dirty))
    decreases |s| - left, 1
  {
    var x := Opposite(fill);
    if Blocked(s, left, left + clue, x) {
      if first && s[left] == Unknown {
        SweepLeftFrameMark(s, left, clue, fill, dirty);
      } else if first && s[left] == fill {
        SweepLeftConflict(s, left, clue, fill, dirty);
      } else {
        SweepLeftSkip(s, left, clue, first, fill, dirty);
        SweepLeftFrame(s, left + 1, clue, first, fill, dirty);
      }
    }
  }

  lemma {:induction false} SweepLeftFrameMark(s: seq<State>, left: int, clue: nat, fill: State, dirty: bool)
    requires 0 <= left < |s| && fill != Unknown
    requires Blocked(s, left, left + clue, Opposite(fill)) && s[left] == Unknown
    ensures LeftFrame(s, left, SweepLeft(s, left, clue, true, fill, dirty))
    decreases |s| - left, 0
  {
    var x := Opposite(fill);
    SweepLeftMark(s, left, clue, fill, dirty);
    SweepLeftFrame(s[left := x], left + 1, clue, true, fill, true);
    var r := SweepLeft(s[left := x], left + 1, clue, true, fill, true);
    if r.Ok? {
      OutsideWriteLeft(s, left, x, r.value.cells, r.value.bound);
    }
  }

  /** The sweep raised, then it was the sweep of the first or last clue
      (`flag`), it raised ContradictionException, and the line held a cell
      of the fill colour. */
  ghost predicate RaisedOnFill(s: seq<State>, fill: State, flag: bool, r: Outcome<Sweep>)
  {
    r.Raised? ==> r.exc == ContradictionException && flag && fill in s
  }

  /** Marking a cell with the opposite colour creates no fill-colour cell. */
  lemma MarkKeepsFill(s: seq<State>, k: nat, x: State, fill: State)
    requires k < |s| && x != fill
    ensures fill in s[k := x] ==> fill in s
  {
    if fill in s[k := x] {
      var j :| 0 <= j < |s| && s[k := x][j] == fill;
      assert s[j] == fill;
    }
  }

  /** Only the sweep of the first clue raises, only ContradictionException,
      and only when the line has a fill-colour cell. */
  lemma {:induction false} SweepLeftRaises(s: seq<State>, left: int, clue: nat, first: bool, fill: State, dirty: bool)
    requires 0 <= left && fill != Unknown
    ensures RaisedOnFill(s, fill, first, SweepLeft(s, left, clue, first, fill, dirty))
    decreases |s| - left
  {
    var x := Opposite(fill);
    if !Blocked(s, left, left + clue, x) {
      SweepLeftStop(s, left, clue, first, fill, dirty);
    } else if first && s[left] == Unknown {
      SweepLeftMark(s, left, clue, fill, dirty);
      SweepLeftRaises(s[left := x], left + 1, clue, first, fill, true);
      MarkKeepsFill(s, left, x, fill);
    } else if first && s[left] == fill {
    } else {
      SweepLeftSkip(s, left, clue, first, fill, dirty);
      SweepLeftRaises(s, left + 1, clue, first, fill, dirty);
    }
  }

  /** The left sweep of any clue but the first writes nothing and stops
      where the plain skip loop of Grid.py:122-123 stops. */
  lemma {:induction false} SweepLeftOnlyFirstWrites(s: seq<State>, left: int, clue: nat, fill: State, dirty: bool)
    requires 0 <= left && fill != Unknown
    ensures SweepLeft(s, left, clue, false, fill, dirty) == Ok(Sweep(s, SkipLeft(s, left, clue, Opposite(fill)), dirty))
    decreases |s| - left
  {
    if Blocked(s, left, left + clue, Opposite(fill)) {
      SweepLeftOnlyFirstWrites(s, left + 1, clue, fill, dirty);
    }
  }

  // ---------------------------------------------------------------------
  // The right sweep (Grid.py:140-147)

  /** A completed right sweep leaves no opposite-colour cell in the window of `clue` cells below its bound. */
  ghost predicate RightClear(clue: nat, x: State, r: Outcome<Sweep>)
  {
    r.Ok? ==> !Blocked(r.value.cells, r.value.bound - clue, r.value.bound, x)
  }

  /** A right sweep that stops at a bound that is not negative wrote only in `[bound, right)`. */
  ghost predicate RightFrame(s: seq<State>, right: int, r: Outcome<Sweep>)
  {
    r.Ok? && 0 <= r.value.bound ==> Outside(s, r.value.cells, r.value.bound, right)
  }

  // One step of the right sweep, as the four cases of its loop body.

  lemma SweepRightStop(s: seq<State>, right: int, clue: nat, last: bool, fill: State, dirty: bool)
    requires right <= |s| && fill != Unknown
    requires !Blocked(s, right - clue, right, Opposite(fill))
    ensures SweepRight(s, right, clue, last, fill, dirty) == Ok(Sweep(s, right, dirty))
  {
  }

  lemma SweepRightMark(s: seq<State>, right: int, clue: nat, fill: State, dirty: bool)
    requires right <= |s| && fill != Unknown
    requires Blocked(s, right - clue, right, Opposite(fill))
    ensures -|s| <= right - 1 < |s|
    ensures Index(s, right - 1) == Unknown ==>
      SweepRight(s, right, clue, true, fill, dirty) == SweepRight(Update(s, right - 1, Opposite(fill)), right - 1, clue, true, fill, true)
  {
  }

  lemma SweepRightSkip(s: seq<State>, right: int, clue: nat, last: bool, fill: State, dirty: bool)
    requires right <= |s| && fill != Unknown
    requires Blocked(s, right - clue, right, Opposite(fill))
    ensures -|s| <= right - 1 < |s|
    ensures !last || Index(s, right - 1) == Opposite(fill) ==>
      SweepRight(s, right, clue, last, fill, dirty) == SweepRight(s, right - 1, clue, last, fill, dirty)
  {
  }

  lemma SweepRightConflict(s: seq<State>, right: int, clue: nat, fill: State, dirty: bool)
    requires right <= |s| && fill != Unknown
    requires Blocked(s, right - clue, right, Opposite(fill))
    requires -|s| <= right - 1 < |s| && Index(s, right - 1) == fill
    ensures SweepRight(s, right, clue, true, fill, dirty) == Raised(ContradictionException)
  {
  }

  lemma {:induction false} SweepRightEvolves(s: seq<State>, right: int, clue: nat, last: bool, fill: State, dirty: bool)
    requires right <= |s| && fill != Unknown
    ensures SweepEvolves(s, Opposite(fill), SweepRight(s, right, clue, last, fill, dirty))
    decreases right + |s|, 1
  {
    var x := Opposite(fill);
    if !Blocked(s, right - clue, right, x) {
      SweepRightStop(s, right, clue, last, fill, dirty);
      EvolvesRefl(s, x);
    } else {
      SweepRightSkip(s, right, clue, last, fill, dirty);
      if last && Index(s, right - 1) != x {
        if Index(s, right - 1) == Unknown {
          SweepRightEvolvesMark(s, right, clue, fill, dirty);
        }
      } else {
        SweepRightEvolves(s, right - 1, clue, last, fill, dirty);
      }
    }
  }

  lemma {:induction false} SweepRightEvolvesMark(s: seq<State>, right: int, clue: nat, fill: State, dirty: bool)
    requires right <= |s| && fill != Unknown
    requires Blocked(s, right - clue, right, Opposite(fill))
    requires -|s| <= right - 1 < |s| && Index(s, right - 1) == Unknown
    ensures SweepEvolves(s, Opposite(fill), SweepRight(s, right, clue, true, fill, dirty))
    decreases right + |s|, 0
  {
    var x := Opposite(fill);
    SweepRightMark(s, right, clue, fill, dirty);
    var s' := Update(s, right - 1, x);
    SweepRightEvolves(s', right - 1, clue, true, fill, true);
    var r := SweepRight(s', right - 1, clue, true, fill, true);
    if r.Ok? {
      EvolvesAfterMark(s, Position(right - 1, |s|), r.value.cells, x);
      MarksOnlyAfterMark(s, Position(right - 1, |s|), r.value.cells, x);
    }
  }

  lemma {:induction false} SweepRightReported(s: seq<State>, right: int, clue: nat, last: bool, fill: State, dirty: bool)
    requires right <= |s| && fill != Unknown
    ensures SweepReported(s, dirty, SweepRight(s, right, clue, last, fill, dirty))
    decreases right + |s|, 1
  {
    var x := Opposite(fill);
    if !Blocked(s, right - clue, right, x) {
      SweepRightStop(s, right, clue, last, fill, dirty);
    } else {
      SweepRightSkip(s, right, clue, last, fill, dirty);
      if last && Index(s, right - 1) != x {
        if Index(s, right - 1) == Unknown {
          SweepRightReportedMark(s, right, clue, fill, dirty);
        }
      } else {
        SweepRightReported(s, right - 1, clue, last, fill, dirty);
      }
    }
  }

  lemma {:induction false} SweepRightReportedMark(s: seq<State>, right: int, clue: nat, fill: State, dirty: bool)
    requires right <= |s| && fill != Unknown
    requires Blocked(s, right - clue, right, Opposite(fill))
    requires -|s| <= right - 1 < |s| && Index(s, right - 1) == Unknown
    ensures SweepReported(s, dirty, SweepRight(s, right, clue, true, fill, dirty))
    decreases right + |s|, 0
  {
    var x := Opposite(fill);
    SweepRightMark(s, right, clue, fill, dirty);
    var s' := Update(s, right - 1, x);
    SweepRightReported(s', right - 1, clue, true, fill, true);
    SweepRightEvolves(s', right - 1, clue, true, fill, true);
    var r := SweepRight(s', right - 1, clue, true, fill, true);
    if r.Ok? {
      ChangedAfterMark(s, Position(right - 1, |s|), r.value.cells, x);
    }
  }

  lemma {:induction false} SweepRightClear(s: seq<State>, right: int, clue: nat, last: bool, fill: State, dirty: bool)
    requires right <= |s| && fill != Unknown
    ensures RightClear(clue, Opposite(fill), SweepRight(s, right, clue, last, fill, dirty))
    decreases right + |s|, 1
  {
    var x := Opposite(fill);
    if !Blocked(s, right - clue, right, x) {
      SweepRightStop(s, right, clue, last, fill, dirty);
    } else {
      SweepRightSkip(s, right, clue, last, fill, dirty);
      if !last || Index(s, right - 1) == x {
        SweepRightClear(s, right - 1, clue, last, fill, dirty);
      } else if Index(s, right - 1) == Unknown {
        SweepRightClearMark(s, right, clue, fill, dirty);
      } else {
        SweepRightConflict(s, right, clue, fill, dirty);
      }
    }
  }

  lemma {:induction false} SweepRightClearMark(s: seq<State>, right: int, clue: nat, fill: State, dirty: bool)
    requires right <= |s| && fill != Unknown
    requires Blocked(s, right - clue, right, Opposite(fill))
    requires -|s| <= right - 1 < |s| && Index(s, right - 1) == Unknown
    ensures RightClear(clue, Opposite(fill), SweepRight(s, right, clue, true, fill, dirty))
    decreases right + |s|, 0
  {
    SweepRightMark(s, right, clue, fill, dirty);
    SweepRightClear(Update(s, right - 1, Opposite(fill)), right - 1, clue, true, fill, true);
  }

  lemma OutsideWriteRight(s: seq<State>, k: int, v: State, t: seq<State>, lo: int)
    requires 0 <= lo <= k < |s| && Outside(s[k := v], t, lo, k)
    ensures Outside(s, t, lo, k + 1)
  {
  }

  lemma {:induction false} SweepRightFrame(s: seq<State>, right: int, clue: nat, last: bool, fill: State, dirty: bool)
    requires right <= |s| && fill != Unknown
    ensures RightFrame(s, right, SweepRight(s, right, clue, last, fill, dirty))
    decreases right + |s|, 1
  {
    var x := Opposite(fill);
    if !Blocked(s, right - clue, right, x) {
      SweepRightStop(s, right, clue, last, fill, dirty);
    } else {
      SweepRightSkip(s, right, clue, last, fill, dirty);
      if !last || Index(s, right - 1) == x {
        SweepRightFrame(s, right - 1, clue, last, fill, dirty);
      } else if Index(s, right - 1) == Unknown {
        SweepRightFrameMark(s, right, clue, fill, dirty);
      } else {
        SweepRightConflict(s, right, clue, fill, dirty);
      }
    }
  }

  lemma {:induction false} SweepRightFrameMark(s: seq<State>, right: int, clue: nat, fill: State, dirty: bool)
    requires right <= |s| && fill != Unknown
    requires Blocked(s, right - clue, right, Opposite(fill))
    requires -|s| <= right - 1 < |s| && Index(s, right - 1) == Unknown
    ensures RightFrame(s, right, SweepRight(s, right, clue, true, fill, dirty))
    decreases right + |s|, 0
  {
    var x := Opposite(fill);
    SweepRightMark(s, right, clue, fill, dirty);
    var s' := Update(s, right - 1, x);
    SweepRightFrame(s', right - 1, clue, true, fill, true);
    var r := SweepRight(s', right - 1, clue, true, fill, true);
    if r.Ok? && 0 <= r.value.bound {
      OutsideWriteRight(s, right - 1, x, r.value.cells, r.value.bound);
    }
  }

  /** Only the sweep of the last clue raises, only ContradictionException,
      and only when the line has a fill-colour cell. */
  lemma {:induction false} SweepRightRaises(s: seq<State>, right: int, clue: nat, last: bool, fill: State, dirty: bool)
    requires right <= |s| && fill != Unknown
    ensures RaisedOnFill(s, fill, last, SweepRight(s, right, clue, last, fill, dirty))
    decreases right + |s|, 1
  {
    var x := Opposite(fill);
    if !Blocked(s, right - clue, right, x) {
      SweepRightStop(s, right, clue, last, fill, dirty);
    } else {
      SweepRightSkip(s, right, clue, last, fill, dirty);
      if last && Index(s, right - 1) != x {
        if Index(s, right - 1) == Unknown {
          SweepRightRaisesMark(s, right, clue, fill, dirty);
        } else {
          assert s[Position(right - 1, |s|)] == fill;
        }
      } else {
        SweepRightRaises(s, right - 1, clue, last, fill, dirty);
      }
    }
  }

  lemma {:induction false} SweepRightRaisesMark(s: seq<State>, right: int, clue: nat, fill: State, dirty: bool)
    requires right <= |s| && fill != Unknown
    requires Blocked(s, right - clue, right, Opposite(fill))
    requires -|s| <= right - 1 < |s| && Index(s, right - 1) == Unknown
    ensures RaisedOnFill(s, fill, true, SweepRight(s, right, clue, true, fill, dirty))
    decreases right + |s|, 0
  {
    var x := Opposite(fill);
    SweepRightMark(s, right, clue, fill, dirty);
    var s' := Update(s, right - 1, x);
    SweepRightRaises(s', right - 1, clue, true, fill, true);
    MarkKeepsFill(s, Position(right - 1, |s|), x, fill);
  }

  /** The right sweep of any clue but the last writes nothing and stops
      where the plain skip loop of Grid.py:126-127 stops. */
  lemma {:induction false} SweepRightOnlyLastWrites(s: seq<State>, right: int, clue: nat, fill: State, dirty: bool)
    requires right <= |s| && fill != Unknown
    ensures SweepRight(s, right, clue, false, fill, dirty) == Ok(Sweep(s, SkipRight(s, right, clue, Opposite(fill)), dirty))
    decreases right + |s|
  {
    if Blocked(s, right - clue, right, Opposite(fill)) {
      SweepRightOnlyLastWrites(s, right - 1, clue, fill, dirty);
    }
  }

  // ---------------------------------------------------------------------
  // The deduction in the final window (Grid.py:150-170)

  /** The window `[left, left+clue)` found free of the opposite colour. */
  lemma FreeWindow(s: seq<State>, left: int, clue: nat, x: State)
    requires 0 <= left && left + clue <= |s| && !Blocked(s, left, left + clue, x)
    ensures forall k :: left <= k < left + clue ==> s[k] != x
  {
    assert Slice(s, left, left + clue) == s[left..left + clue];
    forall k | left <= k < left + clue
      ensures s[k] != x
    {
      assert s[k] == s[left..left + clue][k - left];
    }
  }

  /** Filling a run that holds no opposite-colour cell evolves the line, and
      `dirty` reports whether it changed. */
  lemma FillRunEvolves(s: seq<State>, lo: int, hi: int, fill: State, x: State, dirty: bool)
    requires 0 <= lo <= hi <= |s| && fill != Unknown
    requires forall k :: lo <= k < hi ==> s[k] != x
    ensures var r := FillRun(s, lo, hi, fill, dirty);
      Evolves(s, r.cells, x) && Reported(s, r.cells, dirty, r.changed)
  {
    var t := AssignRun(s, lo, hi, fill);
    if s[lo..hi] != Repeat(fill, hi - lo) {
      var k :| 0 <= k < hi - lo && s[lo..hi][k] != fill;
      assert t[lo + k] != s[lo + k];
    }
  }

  /** Marking a separator with the opposite colour evolves the line, and
      `dirty` reports whether it changed. */
  lemma MarkIfEvolves(l: Line, cond: bool, k: int, x: State)
    requires cond ==> 0 <= k < |l.cells|
    requires x != Unknown
    ensures var r := MarkIf(l, cond, k, x);
      Evolves(l.cells, r.cells, x) && Reported(l.cells, r.cells, l.changed, r.changed)
  {
    if cond && l.cells[k] != x {
      assert l.cells[k := x][k] != l.cells[k];
    }
  }

  /** A window narrower than its clue, and only that, is a contradiction. */
  lemma DeduceRaises(s: seq<State>, left: int, right: int, clue: nat, fill: State, dirty: bool)
    requires 0 <= left && right <= |s| && fill != Unknown
    ensures var r := Deduce(s, left, right, clue, fill, dirty);
      (r.Raised? <==> right - left < clue) && (r.Raised? ==> r.exc == ContradictionException)
  {
  }

  /** When the first `clue` cells of the window hold no opposite-colour cell,
      the deduction only fills in UNKNOWN cells, overwrites cells with the fill
      colour, or marks cells with the opposite colour, and its `dirty` flag
      reports exactly whether it changed the line. */
  lemma DeduceEvolves(s: seq<State>, left: int, right: int, clue: nat, fill: State, dirty: bool)
    requires 0 <= left && right <= |s| && fill != Unknown
    requires !Blocked(s, left, left + clue, Opposite(fill))
    ensures var r := Deduce(s, left, right, clue, fill, dirty);
      r.Ok? ==> Evolves(s, r.value.cells, Opposite(fill)) && Reported(s, r.value.cells, dirty, r.value.changed)
  {
    var width := right - left;
    if width < clue {
    } else if clue == width {
      DeduceExactEvolves(s, left, right, clue, fill, dirty);
    } else if clue * 2 > width {
      DeduceOverlapEvolves(s, left, right, clue, fill, dirty);
    } else {
      EvolvesRefl(s, Opposite(fill));
    }
  }

  lemma DeduceExactEvolves(s: seq<State>, left: int, right: int, clue: nat, fill: State, dirty: bool)
    requires 0 <= left && right <= |s| && fill != Unknown && clue == right - left
    requires !Blocked(s, left, left + clue, Opposite(fill))
    ensures var r := Deduce(s, left, right, clue, fill, dirty);
      r.Ok? && Evolves(s, r.value.cells, Opposite(fill)) && Reported(s, r.value.cells, dirty, r.value.changed)
  {
    var x := Opposite(fill);
    FreeWindow(s, left, clue, x);
    ExactEvolves(s, left, right, fill, dirty);
    var filled := FillRun(s, left, right, fill, dirty);
    var marked := MarkIf(filled, left > 1, left - 1, x);
    assert Deduce(s, left, right, clue, fill, dirty) == Ok(MarkIf(marked, right < |s| - 2, right, x));
  }

  lemma DeduceOverlapEvolves(s: seq<State>, left: int, right: int, clue: nat, fill: State, dirty: bool)
    requires 0 <= left && right <= |s| && fill != Unknown && clue < right - left < 2 * clue
    requires !Blocked(s, left, left + clue, Opposite(fill))
    ensures var r := Deduce(s, left, right, clue, fill, dirty);
      r.Ok? && Evolves(s, r.value.cells, Opposite(fill)) && Reported(s, r.value.cells, dirty, r.value.changed)
  {
    var x := Opposite(fill);
    var e := right - left - clue;
    FreeWindow(s, left, clue, x);
    FillRunEvolves(s, left + e, right - e, fill, x, dirty);
    DeduceOverlapResult(s, left, right, clue, fill, dirty);
  }

  lemma ExactEvolves(s: seq<State>, left: int, right: int, fill: State, dirty: bool)
    requires 0 <= left <= right <= |s| && fill != Unknown
    requires forall k :: left <= k < right ==> s[k] != Opposite(fill)
    ensures var x := Opposite(fill);
      var filled := FillRun(s, left, right, fill, dirty);
      var marked := MarkIf(filled, left > 1, left - 1, x);
      var last := MarkIf(marked, right < |s| - 2, right, x);
      Evolves(s, last.cells, x) && Reported(s, last.cells, dirty, last.changed)
  {
    var x := Opposite(fill);
    var filled := FillRun(s, left, right, fill, dirty);
    FillRunEvolves(s, left, right, fill, x, dirty);
    var marked := MarkIf(filled, left > 1, left - 1, x);
    MarkIfEvolves(filled, left > 1, left - 1, x);
    ReportedTrans(s, filled.cells, marked.cells, x, dirty, filled.changed, marked.changed);
    EvolvesTrans(s, filled.cells, marked.cells, x);
    var last := MarkIf(marked, right < |s| - 2, right, x);
    MarkIfEvolves(marked, right < |s| - 2, right, x);
    ReportedTrans(s, marked.cells, last.cells, x, dirty, marked.changed, last.changed);
    EvolvesTrans(s, marked.cells, last.cells, x);
  }

  /** After `FillRun` the cells of `[lo, hi)` hold the fill colour and the
      others are as they were. */
  lemma FillRunCells(s: seq<State>, lo: int, hi: int, fill: State, dirty: bool)
    requires 0 <= lo <= hi <= |s|
    ensures var r := FillRun(s, lo, hi, fill, dirty);
      forall k :: 0 <= k < |s| ==> r.cells[k] == if lo <= k < hi then fill else s[k]
  {
    if s[lo..hi] == Repeat(fill, hi - lo) {
      forall k | lo <= k < hi
        ensures s[k] == fill
      {
        assert s[lo..hi][k - lo] == s[k];
      }
    }
  }

  /** A window exactly as wide as its clue is filled, and its neighbours are
      made the opposite colour when `left > 1` and when `right < len(row) - 2`. */
  lemma DeduceExact(s: seq<State>, left: int, right: int, clue: nat, fill: State, dirty: bool)
    requires 0 <= left && right <= |s| && fill != Unknown && clue == right - left
    ensures var r := Deduce(s, left, right, clue, fill, dirty); var x := Opposite(fill);
      r.Ok? &&
      (forall k :: left <= k < right ==> r.value.cells[k] == fill) &&
      (1 < left ==> r.value.cells[left - 1] == x) &&
      (right < |s| - 2 ==> r.value.cells[right] == x) &&
      (left == 1 ==> r.value.cells[0] == s[0]) &&
      (|s| - 2 <= right < |s| ==> r.value.cells[right] == s[right]) &&
      Outside(s, r.value.cells, left - 1, right + 1)
  {
    var x := Opposite(fill);
    var filled := FillRun(s, left, right, fill, dirty);
    FillRunCells(s, left, right, fill, dirty);
    var marked := MarkIf(filled, left > 1, left - 1, x);
    var last := MarkIf(marked, right < |s| - 2, right, x);
    assert Deduce(s, left, right, clue, fill, dirty) == Ok(last);
  }

  /** A clue longer than half its window fills the cells common to every
      placement, `[right-clue, left+clue)`, and nothing else. */
  lemma DeduceOverlap(s: seq<State>, left: int, right: int, clue: nat, fill: State, dirty: bool)
    requires 0 <= left && right <= |s| && fill != Unknown && clue < right - left < 2 * clue
    ensures var r := Deduce(s, left, right, clue, fill, dirty);
      r.Ok? &&
      (forall k :: right - clue <= k < left + clue ==> r.value.cells[k] == fill) &&
      Outside(s, r.value.cells, right - clue, left + clue)
  {
    var e := right - left - clue;
    FillRunCells(s, left + e, right - e, fill, dirty);
    DeduceOverlapResult(s, left, right, clue, fill, dirty);
  }

  /** A clue more than half its window fills the cells its leftmost and
      rightmost placements share (Grid.py:166-170). */
  lemma DeduceOverlapResult(s: seq<State>, left: int, right: int, clue: nat, fill: State, dirty: bool)
    requires 0 <= left && right <= |s| && fill != Unknown && clue < right - left < 2 * clue
    ensures Deduce(s, left, right, clue, fill, dirty) == Ok(FillRun(s, right - clue, left + clue, fill, dirty))
  {
  }

  /** A clue at most half its window forces nothing. */
  lemma DeduceNothing(s: seq<State>, left: int, right: int, clue: nat, fill: State, dirty: bool)
    requires 0 <= left && right <= |s| && fill != Unknown && 2 * clue <= right - left && clue < right - left
    ensures Deduce(s, left, right, clue, fill, dirty) == Ok(Line(s, dirty))
  {
  }

  // ---------------------------------------------------------------------
  // One call of helper (Grid.py:115-170), all of them (Grid.py:192-193),
  // and solveRow (Grid.py:108-195)

  /** A solver outcome that only evolved the line and reports whether it changed it. */
  ghost predicate LineEvolves(s: seq<State>, dirty: bool, x: State, r: Outcome<Line>)
  {
    r.Ok? ==> Evolves(s, r.value.cells, x) && Reported(s, r.value.cells, dirty, r.value.changed)
  }

  /** Cells the right sweep did not reach keep the window of the left sweep free. */
  lemma WindowKept(s: seq<State>, t: seq<State>, lo: int, clue: nat, hi: int, right: int, x: State)
    requires 0 <= lo && lo + clue <= hi && Outside(s, t, hi, right)
    requires !Blocked(s, lo, lo + clue, x) && lo + clue <= |s|
    ensures !Blocked(t, lo, lo + clue, x)
  {
    assert Slice(t, lo, lo + clue) == t[lo..lo + clue];
    assert Slice(s, lo, lo + clue) == s[lo..lo + clue];
    assert t[lo..lo + clue] == s[lo..lo + clue];
  }

  /** The right sweep and the deduction, from what the left sweep guarantees. */
  lemma PlaceRightEvolves(s: seq<State>, l: Sweep, right: int, clue: nat, last: bool, fill: State, dirty: bool)
    requires 0 <= l.bound && right <= |s| && fill != Unknown
    requires Evolves(s, l.cells, Opposite(fill)) && Reported(s, l.cells, dirty, l.changed)
    requires !Blocked(l.cells, l.bound, l.bound + clue, Opposite(fill))
    ensures LineEvolves(s, dirty, Opposite(fill), PlaceRight(l, right, clue, last, fill))
  {
    var x := Opposite(fill);
    SweepRightEvolves(l.cells, right, clue, last, fill, l.changed);
    SweepRightReported(l.cells, right, clue, last, fill, l.changed);
    SweepRightFrame(l.cells, right, clue, last, fill, l.changed);
    var sr := SweepRight(l.cells, right, clue, last, fill, l.changed);
    if sr.Ok? {
      DeduceAfterSweeps(s, l, sr.value, right, clue, fill, dirty);
    }
  }

  /** The deduction after both sweeps, from what the sweeps guarantee. */
  lemma DeduceAfterSweeps(s: seq<State>, l: Sweep, rt: Sweep, right: int, clue: nat, fill: State, dirty: bool)
    requires 0 <= l.bound && rt.bound <= right <= |s| && fill != Unknown
    requires Evolves(s, l.cells, Opposite(fill)) && Reported(s, l.cells, dirty, l.changed)
    requires !Blocked(l.cells, l.bound, l.bound + clue, Opposite(fill))
    requires Evolves(l.cells, rt.cells, Opposite(fill)) && Reported(l.cells, rt.cells, l.changed, rt.changed)
    requires 0 <= rt.bound ==> Outside(l.cells, rt.cells, rt.bound, right)
    ensures LineEvolves(s, dirty, Opposite(fill), Deduce(rt.cells, l.bound, rt.bound, clue, fill, rt.changed))
  {
    var x := Opposite(fill);
    DeduceRaises(rt.cells, l.bound, rt.bound, clue, fill, rt.changed);
    var r := Deduce(rt.cells, l.bound, rt.bound, clue, fill, rt.changed);
    if r.Ok? {
      WindowKept(l.cells, rt.cells, l.bound, clue, rt.bound, right, x);
      DeduceEvolves(rt.cells, l.bound, rt.bound, clue, fill, rt.changed);
      EvolvesTrans(s, l.cells, rt.cells, x);
      ReportedTrans(s, l.cells, rt.cells, x, dirty, l.changed, rt.changed);
      EvolvesTrans(s, rt.cells, r.value.cells, x);
      ReportedTrans(s, rt.cells, r.value.cells, x, dirty, rt.changed, r.value.changed);
    }
  }

  /** The sweeps and the deduction of one helper call. */
  lemma PlaceEvolves(s: seq<State>, left: int, right: int, clue: nat, first: bool, last: bool, fill: State, dirty: bool)
    requires 0 <= left && right <= |s| && fill != Unknown
    ensures LineEvolves(s, dirty, Opposite(fill), Place(s, left, right, clue, first, last, fill, dirty))
  {
    SweepLeftEvolves(s, left, clue, first, fill, dirty);
    SweepLeftReported(s, left, clue, first, fill, dirty);
    SweepLeftClear(s, left, clue, first, fill, dirty);
    var sl := SweepLeft(s, left, clue, first, fill, dirty);
    if sl.Ok? {
      PlaceRightEvolves(s, sl.value, right, clue, last, fill, dirty);
    }
  }

  /** A helper call only fills in UNKNOWN cells, overwrites cells with the
      fill colour, or marks cells with the opposite colour; the `dirty` flag
      after it is set exactly when it was set before or the line changed. */
  lemma HelperEvolves(s: seq<State>, clues: seq<nat>, i: nat, fill: State, dirty: bool)
    requires i < |clues| && fill != Unknown
    ensures LineEvolves(s, dirty, Opposite(fill), Helper(s, clues, i, fill, dirty))
  {
    var w := Window(s, clues, i, Opposite(fill));
    if w.Some? {
      PlaceEvolves(s, w.value.0, w.value.1, clues[i], i == 0, i == |clues| - 1, fill, dirty);
    }
  }

  /** Only the sweep of the first or the last clue, or the deduction, raises,
      and only ContradictionException. */
  lemma PlaceRaises(s: seq<State>, left: int, right: int, clue: nat, first: bool, last: bool, fill: State, dirty: bool)
    requires 0 <= left && right <= |s| && fill != Unknown
    ensures var r := Place(s, left, right, clue, first, last, fill, dirty);
      r.Raised? ==> r.exc == ContradictionException
  {
    SweepLeftRaises(s, left, clue, first, fill, dirty);
    var sl := SweepLeft(s, left, clue, first, fill, dirty);
    if sl.Ok? {
      var l := sl.value;
      SweepRightRaises(l.cells, right, clue, last, fill, l.changed);
      var sr := SweepRight(l.cells, right, clue, last, fill, l.changed);
      if sr.Ok? {
        DeduceRaises(sr.value.cells, l.bound, sr.value.bound, clue, fill, sr.value.changed);
      }
    }
  }

  /** `next(...)` in a helper call raises StopIteration exactly when every
      cell of the line has the opposite colour; otherwise only
      ContradictionException can leave the call. */
  lemma HelperStopIteration(s: seq<State>, clues: seq<nat>, i: nat, fill: State, dirty: bool)
    requires i < |clues| && fill != Unknown
    ensures var r := Helper(s, clues, i, fill, dirty);
      (r == Raised(StopIteration) <==> forall k :: 0 <= k < |s| ==> s[k] == Opposite(fill))
  {
    var w := Window(s, clues, i, Opposite(fill));
    if w.Some? {
      PlaceRaises(s, w.value.0, w.value.1, clues[i], i == 0, i == |clues| - 1, fill, dirty);
    }
  }

  lemma RunHelpersStep(s: seq<State>, clues: seq<nat>, fill: State, i: nat, dirty: bool)
    requires i < |clues| && fill != Unknown
    ensures var h := Helper(s, clues, i, fill, dirty);
      RunHelpers(s, clues, fill, i, dirty) ==
        if h.Ok? then RunHelpers(h.value.cells, clues, fill, i + 1, h.value.changed) else Raised(h.exc)
  {
  }

  /** Running the helper calls from clue `i` on. */
  lemma {:induction false} RunHelpersEvolves(s: seq<State>, clues: seq<nat>, fill: State, i: nat, dirty: bool)
    requires i <= |clues| && fill != Unknown
    ensures LineEvolves(s, dirty, Opposite(fill), RunHelpers(s, clues, fill, i, dirty))
    decreases |clues| - i, 1
  {
    if i == |clues| {
      EvolvesRefl(s, Opposite(fill));
    } else {
      RunHelpersEvolvesStep(s, clues, fill, i, dirty);
    }
  }

  lemma {:induction false} RunHelpersEvolvesStep(s: seq<State>, clues: seq<nat>, fill: State, i: nat, dirty: bool)
    requires i < |clues| && fill != Unknown
    ensures LineEvolves(s, dirty, Opposite(fill), RunHelpers(s, clues, fill, i, dirty))
    decreases |clues| - i, 0
  {
    var h := Helper(s, clues, i, fill, dirty);
    HelperEvolves(s, clues, i, fill, dirty);
    RunHelpersStep(s, clues, fill, i, dirty);
    if h.Ok? {
      RunHelpersEvolves(h.value.cells, clues, fill, i + 1, h.value.changed);
      ChainEvolves(s, dirty, Opposite(fill), h, RunHelpers(h.value.cells, clues, fill, i + 1, h.value.changed));
    }
  }

  lemma ChainEvolves(s: seq<State>, dirty: bool, x: State, h: Outcome<Line>, r: Outcome<Line>)
    requires x != Unknown && LineEvolves(s, dirty, x, h)
    requires h.Ok? ==> LineEvolves(h.value.cells, h.value.changed, x, r)
    requires h.Raised? ==> r == h
    ensures LineEvolves(s, dirty, x, if h.Ok? then r else Raised(h.exc))
  {
    if h.Ok? && r.Ok? {
      var l := h.value;
      EvolvesTrans(s, l.cells, r.value.cells, x);
      ReportedTrans(s, l.cells, r.value.cells, x, dirty, l.changed, r.value.changed);
    }
  }

  /** `row[left:clues[0]] == [fill] * clues[0]` for a `left` inside the line. */
  lemma LeftRunCondition(s: seq<State>, first: nat, c: nat, fill: State)
    requires first < |s|
    ensures Slice(s, first, c) == Repeat(fill, c) <==>
      c == 0 || (first == 0 && c <= |s| && forall k :: 0 <= k < c ==> s[k] == fill)
  {
    if c != 0 && Slice(s, first, c) == Repeat(fill, c) {
      assert first == 0 && c <= |s|;
      assert Slice(s, 0, c) == s[..c];
      forall k | 0 <= k < c
        ensures s[k] == fill
      {
        assert s[..c][k] == Repeat(fill, c)[k];
      }
    }
    if c != 0 && first == 0 && c <= |s| && forall k :: 0 <= k < c ==> s[k] == fill {
      assert Slice(s, 0, c) == s[..c];
      assert s[..c] == Repeat(fill, c);
    }
  }

  /** The right-edge test of Grid.py:187 only holds for a run that starts
      inside the line: a negative start would count from the end, and the
      slice would then hold fewer than `c` cells. */
  lemma RightRunStart(s: seq<State>, right: nat, c: nat, fill: State)
    requires 0 < right <= |s| && Slice(s, right - c, right) == Repeat(fill, c)
    ensures c <= right
  {
    assert |Slice(s, right - c, right)| == c;
  }

  /** The left-edge test of Grid.py:177 compares `row[left:clues[0]]`, a slice
      that ends at `clues[0]` rather than at `left + clues[0]`: for a positive
      first clue the strip happens exactly when the line itself starts with
      `clues[0]` cells of the fill colour, and a run placed after leading
      opposite-colour cells is never split off. */
  lemma LeftStripOnlyAtStart(s: seq<State>, clues: seq<nat>, fill: State)
    requires clues != [] && fill != Unknown && clues[0] > 0
    ensures LeftStrip(s, clues, fill).Some? <==>
      clues[0] <= |s| && forall k :: 0 <= k < clues[0] ==> s[k] == fill
    ensures LeftStrip(s, clues, fill).Some? ==> LeftStrip(s, clues, fill).value == clues[0]
  {
    var x := Opposite(fill);
    match FirstOther(s, x)
    case None =>
      if clues[0] <= |s| {
        assert s[0] == x;
      }
    case Some(first) =>
      LeftRunCondition(s, first, clues[0], fill);
      if clues[0] <= |s| && forall k :: 0 <= k < clues[0] ==> s[k] == fill {
        assert s[0] != x;
      }
  }

  /** Reassembling a line from an untouched prefix and a solved rest. */
  lemma PrependEvolves(s: seq<State>, p: nat, x: State, inner: Outcome<Line>)
    requires p <= |s| && x != Unknown
    requires LineEvolves(s[p..], false, x, inner)
    ensures LineEvolves(s, false, x, Prepend(s[..p], inner))
  {
    if inner.Ok? {
      var a, b := s[..p], s[p..];
      assert a + b == s;
      EvolvesRefl(a, x);
      EvolvesConcat(a, b, a, inner.value.cells, x);
      if a + inner.value.cells == s {
        assert inner.value.cells == (a + inner.value.cells)[p..];
      }
    }
  }

  /** Reassembling a line from a solved beginning and an untouched suffix. */
  lemma AppendEvolves(s: seq<State>, p: nat, x: State, inner: Outcome<Line>)
    requires p <= |s| && x != Unknown
    requires LineEvolves(s[..p], false, x, inner)
    ensures LineEvolves(s, false, x, Append(inner, s[p..]))
  {
    if inner.Ok? {
      var a, b := s[..p], s[p..];
      assert a + b == s;
      EvolvesRefl(b, x);
      EvolvesConcat(a, b, inner.value.cells, b, x);
      if inner.value.cells + b == s {
        assert inner.value.cells == (inner.value.cells + b)[..p];
      }
    }
  }

  /** `solveRow` only fills in UNKNOWN cells, overwrites cells with the fill
      colour, or marks cells with the opposite colour, and the flag it returns
      is true exactly when the returned line differs from the one it was given. */
  lemma {:induction false} SolveLineEvolves(s: seq<State>, clues: seq<nat>, fill: State)
    requires fill != Unknown
    ensures LineEvolves(s, false, Opposite(fill), SolveLine(s, clues, fill))
    decreases |clues|
  {
    var x := Opposite(fill);
    if clues == [] {
      EvolvesRefl(s, x);
    } else {
      match LeftStrip(s, clues, fill)
      case Some(p) =>
        SolveLineEvolves(s[p..], clues[1..], fill);
        PrependEvolves(s, p, x, SolveLine(s[p..], clues[1..], fill));
      case None =>
        match RightStrip(s, clues, fill)
        case Some(p) =>
          SolveLineEvolves(s[..p], clues[..|clues| - 1], fill);
          AppendEvolves(s, p, x, SolveLine(s[..p], clues[..|clues| - 1], fill));
        case None =>
          RunHelpersEvolves(s, clues, fill, 0, false);
    }
  }

  /** A line with clues whose every cell has the opposite colour ends in the
      StopIteration of `next(...)` in the first helper call (Grid.py:118),
      which `solveRow` does not catch. */
  lemma SolveLineAllOpposite(s: seq<State>, clues: seq<nat>, fill: State)
    requires fill != Unknown && clues != []
    requires forall k :: 0 <= k < |s| ==> s[k] == Opposite(fill)
    ensures SolveLine(s, clues, fill) == Raised(StopIteration)
  {
    var x := Opposite(fill);
    assert FirstOther(s, x).None?;
    assert FirstOther(Reversed(s), x).None?;
    RunHelpersStep(s, clues, fill, 0, false);
    HelperStopIteration(s, clues, 0, fill, false);
  }
}
