/** Worked lines for `Grid.solveRow` (Grid.py:108-195), computed from the
    model: what one call deduces on an empty line. */
module LineCases {
  import opened States
  import opened PyList
  import opened LineSpec

  /** A line with no clues is returned unchanged, with `dirty` false (Grid.py:109-110). */
  lemma NoClues(s: seq<State>, fill: State)
    requires fill != Unknown
    ensures SolveLine(s, [], fill) == Ok(Line(s, false))
  {
  }

  /** Seven UNKNOWN cells, and the same line with cells 2 to 4 RED. */
  const EmptySeven: seq<State> := [Unknown, Unknown, Unknown, Unknown, Unknown, Unknown, Unknown]
  const MiddleThree: seq<State> := [Unknown, Unknown, Red, Red, Red, Unknown, Unknown]

  /** Neither edge of the empty line holds a run of five RED cells, so
      neither strip branch is taken (Grid.py:172-190). */
  lemma EmptySevenNoStrip()
    ensures LeftStrip(EmptySeven, [5], Red) == None
    ensures RightStrip(EmptySeven, [5], Red) == None
  {
    var s := EmptySeven;
    FirstOtherAt(s, Blue, 0);
    FirstOtherAt(Reversed(s), Blue, 0);
    assert Slice(s, 0, 5)[0] != Repeat(Red, 5)[0];
    assert Slice(s, 2, 7)[0] != Repeat(Red, 5)[0];
  }

  /** The only clue gets the whole line as its window, and neither sweep moves. */
  lemma EmptySevenSweeps()
    ensures Window(EmptySeven, [5], 0, Blue) == Some((0, 7))
    ensures SweepLeft(EmptySeven, 0, 5, true, Red, false) == Ok(Sweep(EmptySeven, 0, false))
    ensures SweepRight(EmptySeven, 7, 5, true, Red, false) == Ok(Sweep(EmptySeven, 7, false))
  {
    var s := EmptySeven;
    assert forall k :: 0 <= k < |s| ==> s[k] == Unknown;
    FirstOtherAt(s, Blue, 0);
    FirstOtherAt(Reversed(s), Blue, 0);
    assert !Blocked(s, 0, 5, Blue);
    assert !Blocked(s, 2, 7, Blue);
  }

  /** A window of 7 cells for a clue of 5 leaves a slack of 2 at each end:
      the cells 2 to 4 lie in every placement and become RED (Grid.py:165-170). */
  lemma EmptySevenDeduce()
    ensures Deduce(EmptySeven, 0, 7, 5, Red, false) == Ok(Line(MiddleThree, true))
  {
    var s := EmptySeven;
    assert s[2..5][0] != Repeat(Red, 3)[0];
    var t := AssignRun(s, 2, 5, Red);
    assert |t| == |MiddleThree| && forall k :: 0 <= k < 7 ==> t[k] == MiddleThree[k];
    assert t == MiddleThree;
    assert FillRun(s, 2, 5, Red, false) == Line(MiddleThree, true);
  }

  /** Clue [5] on an empty line of 7 cells: the overlap of the two extreme
      placements, cells 2 to 4, is filled, and the line is reported changed. */
  lemma FiveOfSeven()
    ensures SolveLine(EmptySeven, [5], Red) == Ok(Line(MiddleThree, true))
  {
    EmptySevenNoStrip();
    EmptySevenSweeps();
    EmptySevenDeduce();
    assert Helper(EmptySeven, [5], 0, Red, false) == Ok(Line(MiddleThree, true));
  }

  /** Five UNKNOWN cells; the line after the first clue of [2, 2]; the line after both. */
  const EmptyFive: seq<State> := [Unknown, Unknown, Unknown, Unknown, Unknown]
  const FirstPair: seq<State> := [Red, Red, Blue, Unknown, Unknown]
  const BothPairs: seq<State> := [Red, Red, Blue, Red, Red]

  lemma EmptyFiveNoStrip()
    ensures LeftStrip(EmptyFive, [2, 2], Red) == None
    ensures RightStrip(EmptyFive, [2, 2], Red) == None
  {
    var s := EmptyFive;
    FirstOtherAt(s, Blue, 0);
    FirstOtherAt(Reversed(s), Blue, 0);
    assert Slice(s, 0, 2)[0] != Repeat(Red, 2)[0];
    assert Slice(s, 3, 5)[0] != Repeat(Red, 2)[0];
  }

  /** The first clue must leave three cells for the second and its gap, so
      its window is cells 0 and 1, and neither sweep moves. */
  lemma EmptyFiveFirstWindow()
    ensures Window(EmptyFive, [2, 2], 0, Blue) == Some((0, 2))
    ensures SweepLeft(EmptyFive, 0, 2, true, Red, false) == Ok(Sweep(EmptyFive, 0, false))
    ensures SweepRight(EmptyFive, 2, 2, false, Red, false) == Ok(Sweep(EmptyFive, 2, false))
  {
    var s := EmptyFive;
    assert forall k :: 0 <= k < |s| ==> s[k] == Unknown;
    FirstOtherAt(s, Blue, 0);
    FirstOtherAt(Reversed(s), Blue, 0);
    assert !Blocked(s, 3, 5, Blue);
    assert ReserveRight(s, [2, 2], 1, 0, 5, Blue) == 2;
    assert !Blocked(s, 0, 2, Blue);
  }

  /** Filling the first clue's window exactly paints cells 0 and 1 RED; the
      separator guard `right < len(row) - 2` holds and cell 2 becomes BLUE
      (Grid.py:153-164). */
  lemma EmptyFiveFirstDeduce()
    ensures Deduce(EmptyFive, 0, 2, 2, Red, false) == Ok(Line(FirstPair, true))
  {
    var s := EmptyFive;
    var t := AssignRun(s, 0, 2, Red);
    assert t[2 := Blue] == FirstPair;
    assert s[0..2][0] != Repeat(Red, 2)[0];
    assert FillRun(s, 0, 2, Red, false) == Line(t, true);
  }

  /** The first clue: its window, both sweeps and the deduction. */
  lemma EmptyFiveFirstClue()
    ensures Helper(EmptyFive, [2, 2], 0, Red, false) == Ok(Line(FirstPair, true))
  {
    EmptyFiveFirstWindow();
    EmptyFiveFirstDeduce();
    assert PlaceRight(Sweep(EmptyFive, 0, false), 2, 2, false, Red) == Ok(Line(FirstPair, true));
  }

  /** The second clue is reserved three cells from the left, so its window is
      cells 3 and 4, and neither sweep moves. */
  lemma EmptyFiveSecondWindow()
    ensures Window(FirstPair, [2, 2], 1, Blue) == Some((3, 5))
    ensures SweepLeft(FirstPair, 3, 2, false, Red, true) == Ok(Sweep(FirstPair, 3, true))
    ensures SweepRight(FirstPair, 5, 2, true, Red, true) == Ok(Sweep(FirstPair, 5, true))
  {
    var s := FirstPair;
    FirstOtherAt(s, Blue, 0);
    FirstOtherAt(Reversed(s), Blue, 0);
    assert !Blocked(s, 0, 2, Blue);
    assert ReserveLeft(s, [2, 2], 0, 1, 0, Blue) == 3;
    assert !Blocked(s, 3, 5, Blue);
  }

  /** The second window is filled exactly; its left separator is BLUE already. */
  lemma EmptyFiveSecondDeduce()
    ensures Deduce(FirstPair, 3, 5, 2, Red, true) == Ok(Line(BothPairs, true))
  {
    var s := FirstPair;
    var t := AssignRun(s, 3, 5, Red);
    assert t == BothPairs;
    assert s[3..5][0] != Repeat(Red, 2)[0];
    assert FillRun(s, 3, 5, Red, true) == Line(t, true);
  }

  /** The second clue: its window, both sweeps and the deduction. */
  lemma EmptyFiveSecondClue()
    ensures Helper(FirstPair, [2, 2], 1, Red, true) == Ok(Line(BothPairs, true))
  {
    EmptyFiveSecondWindow();
    EmptyFiveSecondDeduce();
    assert PlaceRight(Sweep(FirstPair, 3, true), 5, 2, true, Red) == Ok(Line(BothPairs, true));
  }

  /** Clue [2, 2] on an empty line of 5 cells: the two runs and their gap
      fill the line exactly, and one call settles every cell. */
  lemma TwoTwoOfFive()
    ensures SolveLine(EmptyFive, [2, 2], Red) == Ok(Line(BothPairs, true))
  {
    EmptyFiveNoStrip();
    EmptyFiveFirstClue();
    EmptyFiveSecondClue();
    assert RunHelpers(FirstPair, [2, 2], Red, 1, true) == Ok(Line(BothPairs, true));
  }

  /** Three UNKNOWN cells. */
  const EmptyThree: seq<State> := [Unknown, Unknown, Unknown]

  /** A run that fills its window exactly marks its separators only past the
      guards `left > 1` and `right < len(row) - 2` (Grid.py:157-164). A run of
      one at cell 0 leaves cell 1 UNKNOWN, since `right` is 1, not below 1; a
      run of one at cell 1 leaves both neighbours UNKNOWN. */
  lemma NarrowSeparatorsSkipped()
    ensures Deduce(EmptyThree, 0, 1, 1, Red, false) == Ok(Line([Red, Unknown, Unknown], true))
    ensures Deduce(EmptyThree, 1, 2, 1, Red, false) == Ok(Line([Unknown, Red, Unknown], true))
  {
    var s := EmptyThree;
    assert s[0..1][0] != Repeat(Red, 1)[0];
    assert s[1..2][0] != Repeat(Red, 1)[0];
    assert AssignRun(s, 0, 1, Red) == [Red, Unknown, Unknown];
    assert AssignRun(s, 1, 2, Red) == [Unknown, Red, Unknown];
  }

  /** Neither edge of three UNKNOWN cells holds a run of five RED cells. */
  lemma EmptyThreeNoStrip()
    ensures LeftStrip(EmptyThree, [5], Red) == None
    ensures RightStrip(EmptyThree, [5], Red) == None
  {
    var s := EmptyThree;
    FirstOtherAt(s, Blue, 0);
    FirstOtherAt(Reversed(s), Blue, 0);
    assert Slice(s, 0, 5)[0] != Repeat(Red, 5)[0];
  }

  /** The clue of five gets the whole line of three as its window, and
      neither sweep moves. */
  lemma EmptyThreeSweeps()
    ensures Window(EmptyThree, [5], 0, Blue) == Some((0, 3))
    ensures SweepLeft(EmptyThree, 0, 5, true, Red, false) == Ok(Sweep(EmptyThree, 0, false))
    ensures SweepRight(EmptyThree, 3, 5, true, Red, false) == Ok(Sweep(EmptyThree, 3, false))
  {
    var s := EmptyThree;
    assert forall k :: 0 <= k < |s| ==> s[k] == Unknown;
    FirstOtherAt(s, Blue, 0);
    FirstOtherAt(Reversed(s), Blue, 0);
    assert !Blocked(s, 0, 5, Blue);
    assert !Blocked(s, -2, 3, Blue);
  }

  /** A clue longer than its line leaves a window narrower than the run, and
      `solveRow` raises ContradictionException (Grid.py:150-152). */
  lemma ClueLongerThanLine()
    ensures SolveLine(EmptyThree, [5], Red) == Raised(ContradictionException)
  {
    EmptyThreeNoStrip();
    EmptyThreeSweeps();
    assert Helper(EmptyThree, [5], 0, Red, false) == Raised(ContradictionException);
  }
}
