/** The candidate paths `paths_to` of rust/21/src/keypad.rs returns between
  each two buttons of the directional keypad, written out as a table, and
  the proof that the table is what `paths_to` computes. */
module PathTable {
  import opened Wrappers
  import opened KeypadUtils
  import opened Keypads

  function DirectionalKeys(): set<Point>
  {
    DirectionalLayout().Keys
  }

  function NumericKeys(): set<Point>
  {
    NumericLayout().Keys
  }

  /** The paths between two directional buttons: both candidates when the
    two buttons share a row or a column (then they are the same run), the
    one that avoids the gap at the top left otherwise, or both. */
  function DirectionalPaths(from: DirectionalButton, to: DirectionalButton): (r: seq<seq<Direction>>)
    ensures |r| >= 1
  {
    match from
    case Arrow(Up) => (
      match to
      case Arrow(Up) => [[], []]
      case Activate => [[Right], [Right]]
      case Arrow(Left) => [[Down, Left]]
      case Arrow(Down) => [[Down], [Down]]
      case Arrow(Right) => [[Right, Down], [Down, Right]])
    case Activate => (
      match to
      case Arrow(Up) => [[Left], [Left]]
      case Activate => [[], []]
      case Arrow(Left) => [[Down, Left, Left]]
      case Arrow(Down) => [[Left, Down], [Down, Left]]
      case Arrow(Right) => [[Down], [Down]])
    case Arrow(Left) => (
      match to
      case Arrow(Up) => [[Right, Up]]
      case Activate => [[Right, Right, Up]]
      case Arrow(Left) => [[], []]
      case Arrow(Down) => [[Right], [Right]]
      case Arrow(Right) => [[Right, Right], [Right, Right]])
    case Arrow(Down) => (
      match to
      case Arrow(Up) => [[Up], [Up]]
      case Activate => [[Right, Up], [Up, Right]]
      case Arrow(Left) => [[Left], [Left]]
      case Arrow(Down) => [[], []]
      case Arrow(Right) => [[Right], [Right]])
    case Arrow(Right) => (
      match to
      case Arrow(Up) => [[Left, Up], [Up, Left]]
      case Activate => [[Up], [Up]]
      case Arrow(Left) => [[Left, Left], [Left, Left]]
      case Arrow(Down) => [[Left], [Left]]
      case Arrow(Right) => [[], []])
  }

  lemma PathsUpToUp(start: DirectionalButton, end: DirectionalButton)
    requires start == Arrow(Up) && end == Arrow(Up)
    ensures Paths(DirectionalKeys(), DirectionalPoint(start), DirectionalPoint(end)) == Ok(DirectionalPaths(start, end))
  {
    assert DirectionalPaths(start, end) == [[], []];
    assert DirectionalPoint(start) == Point(0, 1) && DirectionalPoint(end) == Point(0, 1);
    UpToUpPoints(DirectionalPoint(start), DirectionalPoint(end));
  }

  lemma UpToUpPoints(from: Point, goal: Point)
    requires from == Point(0, 1) && goal == Point(0, 1)
    ensures Paths(DirectionalKeys(), from, goal) == Ok([[], []])
  {
    DirectionalKeysAre();
    var keys := {Point(0, 1), Point(0, 2), Point(1, 0), Point(1, 1), Point(1, 2)};
    assert HorizontalRun(from, goal) == [] && VerticalRun(from, goal) == [] by {
      RunsOf(from, goal);
    }
    KeptNone(keys, from);
    KeptNone(keys, from);
    ByRuns(keys, from, goal, [], [], [], [], [[]], [[]]);
    var stay: seq<seq<Direction>> := [[]];
    assert stay + stay == [[], []];
  }

  lemma PathsUpToActivate(start: DirectionalButton, end: DirectionalButton)
    requires start == Arrow(Up) && end == DirectionalButton.Activate
    ensures Paths(DirectionalKeys(), DirectionalPoint(start), DirectionalPoint(end)) == Ok(DirectionalPaths(start, end))
  {
    assert DirectionalPaths(start, end) == [[Right], [Right]];
    assert DirectionalPoint(start) == Point(0, 1) && DirectionalPoint(end) == Point(0, 2);
    UpToActivatePoints(DirectionalPoint(start), DirectionalPoint(end));
  }

  lemma UpToActivatePoints(from: Point, goal: Point)
    requires from == Point(0, 1) && goal == Point(0, 2)
    ensures Paths(DirectionalKeys(), from, goal) == Ok([[Right], [Right]])
  {
    DirectionalKeysAre();
    var keys := {Point(0, 1), Point(0, 2), Point(1, 0), Point(1, 1), Point(1, 2)};
    assert HorizontalRun(from, goal) == [Right] && VerticalRun(from, goal) == [] by {
      RunsOf(from, goal);
    }
    Kept1(keys, [Right], Point(0, 1), Point(0, 2));
    Kept1(keys, [Right], Point(0, 1), Point(0, 2));
    assert [Right] + [] == [Right];
    assert [] + [Right] == [Right];
    ByRuns(keys, from, goal, [Right], [], [Right], [Right], [[Right]], [[Right]]);
    assert [[Right]] + [[Right]] == [[Right], [Right]];
  }

  lemma PathsUpToLeft(start: DirectionalButton, end: DirectionalButton)
    requires start == Arrow(Up) && end == Arrow(Left)
    ensures Paths(DirectionalKeys(), DirectionalPoint(start), DirectionalPoint(end)) == Ok(DirectionalPaths(start, end))
  {
    assert DirectionalPaths(start, end) == [[Down, Left]];
    assert DirectionalPoint(start) == Point(0, 1) && DirectionalPoint(end) == Point(1, 0);
    UpToLeftPoints(DirectionalPoint(start), DirectionalPoint(end));
  }

  lemma UpToLeftPoints(from: Point, goal: Point)
    requires from == Point(0, 1) && goal == Point(1, 0)
    ensures Paths(DirectionalKeys(), from, goal) == Ok([[Down, Left]])
  {
    DirectionalKeysAre();
    var keys := {Point(0, 1), Point(0, 2), Point(1, 0), Point(1, 1), Point(1, 2)};
    assert HorizontalRun(from, goal) == [Left] && VerticalRun(from, goal) == [Down] by {
      RunsOf(from, goal);
    }
    Blocked1(keys, [Left, Down], Point(0, 1), Point(0, 0));
    Kept2(keys, [Down, Left], Point(0, 1), Point(1, 1), Point(1, 0));
    assert [Left] + [Down] == [Left, Down];
    assert [Down] + [Left] == [Down, Left];
    ByRuns(keys, from, goal, [Left], [Down], [Left, Down], [Down, Left], [], [[Down, Left]]);
    assert [] + [[Down, Left]] == [[Down, Left]];
  }

  lemma PathsUpToDown(start: DirectionalButton, end: DirectionalButton)
    requires start == Arrow(Up) && end == Arrow(Down)
    ensures Paths(DirectionalKeys(), DirectionalPoint(start), DirectionalPoint(end)) == Ok(DirectionalPaths(start, end))
  {
    assert DirectionalPaths(start, end) == [[Down], [Down]];
    assert DirectionalPoint(start) == Point(0, 1) && DirectionalPoint(end) == Point(1, 1);
    UpToDownPoints(DirectionalPoint(start), DirectionalPoint(end));
  }

  lemma UpToDownPoints(from: Point, goal: Point)
    requires from == Point(0, 1) && goal == Point(1, 1)
    ensures Paths(DirectionalKeys(), from, goal) == Ok([[Down], [Down]])
  {
    DirectionalKeysAre();
    var keys := {Point(0, 1), Point(0, 2), Point(1, 0), Point(1, 1), Point(1, 2)};
    assert HorizontalRun(from, goal) == [] && VerticalRun(from, goal) == [Down] by {
      RunsOf(from, goal);
    }
    Kept1(keys, [Down], Point(0, 1), Point(1, 1));
    Kept1(keys, [Down], Point(0, 1), Point(1, 1));
    assert [] + [Down] == [Down];
    assert [Down] + [] == [Down];
    ByRuns(keys, from, goal, [], [Down], [Down], [Down], [[Down]], [[Down]]);
    assert [[Down]] + [[Down]] == [[Down], [Down]];
  }

  lemma PathsUpToRight(start: DirectionalButton, end: DirectionalButton)
    requires start == Arrow(Up) && end == Arrow(Right)
    ensures Paths(DirectionalKeys(), DirectionalPoint(start), DirectionalPoint(end)) == Ok(DirectionalPaths(start, end))
  {
    assert DirectionalPaths(start, end) == [[Right, Down], [Down, Right]];
    assert DirectionalPoint(start) == Point(0, 1) && DirectionalPoint(end) == Point(1, 2);
    UpToRightPoints(DirectionalPoint(start), DirectionalPoint(end));
  }

  lemma UpToRightPoints(from: Point, goal: Point)
    requires from == Point(0, 1) && goal == Point(1, 2)
    ensures Paths(DirectionalKeys(), from, goal) == Ok([[Right, Down], [Down, Right]])
  {
    DirectionalKeysAre();
    var keys := {Point(0, 1), Point(0, 2), Point(1, 0), Point(1, 1), Point(1, 2)};
    assert HorizontalRun(from, goal) == [Right] && VerticalRun(from, goal) == [Down] by {
      RunsOf(from, goal);
    }
    Kept2(keys, [Right, Down], Point(0, 1), Point(0, 2), Point(1, 2));
    Kept2(keys, [Down, Right], Point(0, 1), Point(1, 1), Point(1, 2));
    assert [Right] + [Down] == [Right, Down];
    assert [Down] + [Right] == [Down, Right];
    ByRuns(keys, from, goal, [Right], [Down], [Right, Down], [Down, Right], [[Right, Down]], [[Down, Right]]);
    assert [[Right, Down]] + [[Down, Right]] == [[Right, Down], [Down, Right]];
  }

  lemma PathsActivateToUp(start: DirectionalButton, end: DirectionalButton)
    requires start == DirectionalButton.Activate && end == Arrow(Up)
    ensures Paths(DirectionalKeys(), DirectionalPoint(start), DirectionalPoint(end)) == Ok(DirectionalPaths(start, end))
  {
    assert DirectionalPaths(start, end) == [[Left], [Left]];
    assert DirectionalPoint(start) == Point(0, 2) && DirectionalPoint(end) == Point(0, 1);
    ActivateToUpPoints(DirectionalPoint(start), DirectionalPoint(end));
  }

  lemma ActivateToUpPoints(from: Point, goal: Point)
    requires from == Point(0, 2) && goal == Point(0, 1)
    ensures Paths(DirectionalKeys(), from, goal) == Ok([[Left], [Left]])
  {
    DirectionalKeysAre();
    var keys := {Point(0, 1), Point(0, 2), Point(1, 0), Point(1, 1), Point(1, 2)};
    assert HorizontalRun(from, goal) == [Left] && VerticalRun(from, goal) == [] by {
      RunsOf(from, goal);
    }
    Kept1(keys, [Left], Point(0, 2), Point(0, 1));
    Kept1(keys, [Left], Point(0, 2), Point(0, 1));
    assert [Left] + [] == [Left];
    assert [] + [Left] == [Left];
    ByRuns(keys, from, goal, [Left], [], [Left], [Left], [[Left]], [[Left]]);
    assert [[Left]] + [[Left]] == [[Left], [Left]];
  }

  lemma PathsActivateToActivate(start: DirectionalButton, end: DirectionalButton)
    requires start == DirectionalButton.Activate && end == DirectionalButton.Activate
    ensures Paths(DirectionalKeys(), DirectionalPoint(start), DirectionalPoint(end)) == Ok(DirectionalPaths(start, end))
  {
    assert DirectionalPaths(start, end) == [[], []];
    assert DirectionalPoint(start) == Point(0, 2) && DirectionalPoint(end) == Point(0, 2);
    ActivateToActivatePoints(DirectionalPoint(start), DirectionalPoint(end));
  }

  lemma ActivateToActivatePoints(from: Point, goal: Point)
    requires from == Point(0, 2) && goal == Point(0, 2)
    ensures Paths(DirectionalKeys(), from, goal) == Ok([[], []])
  {
    DirectionalKeysAre();
    var keys := {Point(0, 1), Point(0, 2), Point(1, 0), Point(1, 1), Point(1, 2)};
    assert HorizontalRun(from, goal) == [] && VerticalRun(from, goal) == [] by {
      RunsOf(from, goal);
    }
    KeptNone(keys, from);
    KeptNone(keys, from);
    ByRuns(keys, from, goal, [], [], [], [], [[]], [[]]);
    var stay: seq<seq<Direction>> := [[]];
    assert stay + stay == [[], []];
  }

  lemma PathsActivateToLeft(start: DirectionalButton, end: DirectionalButton)
    requires start == DirectionalButton.Activate && end == Arrow(Left)
    ensures Paths(DirectionalKeys(), DirectionalPoint(start), DirectionalPoint(end)) == Ok(DirectionalPaths(start, end))
  {
    assert DirectionalPaths(start, end) == [[Down, Left, Left]];
    assert DirectionalPoint(start) == Point(0, 2) && DirectionalPoint(end) == Point(1, 0);
    ActivateToLeftPoints(DirectionalPoint(start), DirectionalPoint(end));
  }

  lemma ActivateToLeftPoints(from: Point, goal: Point)
    requires from == Point(0, 2) && goal == Point(1, 0)
    ensures Paths(DirectionalKeys(), from, goal) == Ok([[Down, Left, Left]])
  {
    DirectionalKeysAre();
    var keys := {Point(0, 1), Point(0, 2), Point(1, 0), Point(1, 1), Point(1, 2)};
    assert HorizontalRun(from, goal) == [Left, Left] && VerticalRun(from, goal) == [Down] by {
      RunsOf(from, goal);
    }
    Blocked2(keys, [Left, Left, Down], Point(0, 2), Point(0, 1), Point(0, 0));
    Kept3(keys, [Down, Left, Left], Point(0, 2), Point(1, 2), Point(1, 1), Point(1, 0));
    assert [Left, Left] + [Down] == [Left, Left, Down];
    assert [Down] + [Left, Left] == [Down, Left, Left];
    ByRuns(keys, from, goal, [Left, Left], [Down], [Left, Left, Down], [Down, Left, Left], [], [[Down, Left, Left]]);
    assert [] + [[Down, Left, Left]] == [[Down, Left, Left]];
  }

  lemma PathsActivateToDown(start: DirectionalButton, end: DirectionalButton)
    requires start == DirectionalButton.Activate && end == Arrow(Down)
    ensures Paths(DirectionalKeys(), DirectionalPoint(start), DirectionalPoint(end)) == Ok(DirectionalPaths(start, end))
  {
    assert DirectionalPaths(start, end) == [[Left, Down], [Down, Left]];
    assert DirectionalPoint(start) == Point(0, 2) && DirectionalPoint(end) == Point(1, 1);
    ActivateToDownPoints(DirectionalPoint(start), DirectionalPoint(end));
  }

  lemma ActivateToDownPoints(from: Point, goal: Point)
    requires from == Point(0, 2) && goal == Point(1, 1)
    ensures Paths(DirectionalKeys(), from, goal) == Ok([[Left, Down], [Down, Left]])
  {
    DirectionalKeysAre();
    var keys := {Point(0, 1), Point(0, 2), Point(1, 0), Point(1, 1), Point(1, 2)};
    assert HorizontalRun(from, goal) == [Left] && VerticalRun(from, goal) == [Down] by {
      RunsOf(from, goal);
    }
    Kept2(keys, [Left, Down], Point(0, 2), Point(0, 1), Point(1, 1));
    Kept2(keys, [Down, Left], Point(0, 2), Point(1, 2), Point(1, 1));
    assert [Left] + [Down] == [Left, Down];
    assert [Down] + [Left] == [Down, Left];
    ByRuns(keys, from, goal, [Left], [Down], [Left, Down], [Down, Left], [[Left, Down]], [[Down, Left]]);
    assert [[Left, Down]] + [[Down, Left]] == [[Left, Down], [Down, Left]];
  }

  lemma PathsActivateToRight(start: DirectionalButton, end: DirectionalButton)
    requires start == DirectionalButton.Activate && end == Arrow(Right)
    ensures Paths(DirectionalKeys(), DirectionalPoint(start), DirectionalPoint(end)) == Ok(DirectionalPaths(start, end))
  {
    assert DirectionalPaths(start, end) == [[Down], [Down]];
    assert DirectionalPoint(start) == Point(0, 2) && DirectionalPoint(end) == Point(1, 2);
    ActivateToRightPoints(DirectionalPoint(start), DirectionalPoint(end));
  }

  lemma ActivateToRightPoints(from: Point, goal: Point)
    requires from == Point(0, 2) && goal == Point(1, 2)
    ensures Paths(DirectionalKeys(), from, goal) == Ok([[Down], [Down]])
  {
    DirectionalKeysAre();
    var keys := {Point(0, 1), Point(0, 2), Point(1, 0), Point(1, 1), Point(1, 2)};
    assert HorizontalRun(from, goal) == [] && VerticalRun(from, goal) == [Down] by {
      RunsOf(from, goal);
    }
    Kept1(keys, [Down], Point(0, 2), Point(1, 2));
    Kept1(keys, [Down], Point(0, 2), Point(1, 2));
    assert [] + [Down] == [Down];
    assert [Down] + [] == [Down];
    ByRuns(keys, from, goal, [], [Down], [Down], [Down], [[Down]], [[Down]]);
    assert [[Down]] + [[Down]] == [[Down], [Down]];
  }

  lemma PathsLeftToUp(start: DirectionalButton, end: DirectionalButton)
    requires start == Arrow(Left) && end == Arrow(Up)
    ensures Paths(DirectionalKeys(), DirectionalPoint(start), DirectionalPoint(end)) == Ok(DirectionalPaths(start, end))
  {
    assert DirectionalPaths(start, end) == [[Right, Up]];
    assert DirectionalPoint(start) == Point(1, 0) && DirectionalPoint(end) == Point(0, 1);
    LeftToUpPoints(DirectionalPoint(start), DirectionalPoint(end));
  }

  lemma LeftToUpPoints(from: Point, goal: Point)
    requires from == Point(1, 0) && goal == Point(0, 1)
    ensures Paths(DirectionalKeys(), from, goal) == Ok([[Right, Up]])
  {
    DirectionalKeysAre();
    var keys := {Point(0, 1), Point(0, 2), Point(1, 0), Point(1, 1), Point(1, 2)};
    assert HorizontalRun(from, goal) == [Right] && VerticalRun(from, goal) == [Up] by {
      RunsOf(from, goal);
    }
    Kept2(keys, [Right, Up], Point(1, 0), Point(1, 1), Point(0, 1));
    Blocked1(keys, [Up, Right], Point(1, 0), Point(0, 0));
    assert [Right] + [Up] == [Right, Up];
    assert [Up] + [Right] == [Up, Right];
    ByRuns(keys, from, goal, [Right], [Up], [Right, Up], [Up, Right], [[Right, Up]], []);
    assert [[Right, Up]] + [] == [[Right, Up]];
  }

  lemma PathsLeftToActivate(start: DirectionalButton, end: DirectionalButton)
    requires start == Arrow(Left) && end == DirectionalButton.Activate
    ensures Paths(DirectionalKeys(), DirectionalPoint(start), DirectionalPoint(end)) == Ok(DirectionalPaths(start, end))
  {
    assert DirectionalPaths(start, end) == [[Right, Right, Up]];
    assert DirectionalPoint(start) == Point(1, 0) && DirectionalPoint(end) == Point(0, 2);
    LeftToActivatePoints(DirectionalPoint(start), DirectionalPoint(end));
  }

  lemma LeftToActivatePoints(from: Point, goal: Point)
    requires from == Point(1, 0) && goal == Point(0, 2)
    ensures Paths(DirectionalKeys(), from, goal) == Ok([[Right, Right, Up]])
  {
    DirectionalKeysAre();
    var keys := {Point(0, 1), Point(0, 2), Point(1, 0), Point(1, 1), Point(1, 2)};
    assert HorizontalRun(from, goal) == [Right, Right] && VerticalRun(from, goal) == [Up] by {
      RunsOf(from, goal);
    }
    Kept3(keys, [Right, Right, Up], Point(1, 0), Point(1, 1), Point(1, 2), Point(0, 2));
    Blocked1(keys, [Up, Right, Right], Point(1, 0), Point(0, 0));
    assert [Right, Right] + [Up] == [Right, Right, Up];
    assert [Up] + [Right, Right] == [Up, Right, Right];
    ByRuns(keys, from, goal, [Right, Right], [Up], [Right, Right, Up], [Up, Right, Right], [[Right, Right, Up]], []);
    assert [[Right, Right, Up]] + [] == [[Right, Right, Up]];
  }

  lemma PathsLeftToLeft(start: DirectionalButton, end: DirectionalButton)
    requires start == Arrow(Left) && end == Arrow(Left)
    ensures Paths(DirectionalKeys(), DirectionalPoint(start), DirectionalPoint(end)) == Ok(DirectionalPaths(start, end))
  {
    assert DirectionalPaths(start, end) == [[], []];
    assert DirectionalPoint(start) == Point(1, 0) && DirectionalPoint(end) == Point(1, 0);
    LeftToLeftPoints(DirectionalPoint(start), DirectionalPoint(end));
  }

  lemma LeftToLeftPoints(from: Point, goal: Point)
    requires from == Point(1, 0) && goal == Point(1, 0)
    ensures Paths(DirectionalKeys(), from, goal) == Ok([[], []])
  {
    DirectionalKeysAre();
    var keys := {Point(0, 1), Point(0, 2), Point(1, 0), Point(1, 1), Point(1, 2)};
    assert HorizontalRun(from, goal) == [] && VerticalRun(from, goal) == [] by {
      RunsOf(from, goal);
    }
    KeptNone(keys, from);
    KeptNone(keys, from);
    ByRuns(keys, from, goal, [], [], [], [], [[]], [[]]);
    var stay: seq<seq<Direction>> := [[]];
    assert stay + stay == [[], []];
  }

  lemma PathsLeftToDown(start: DirectionalButton, end: DirectionalButton)
    requires start == Arrow(Left) && end == Arrow(Down)
    ensures Paths(DirectionalKeys(), DirectionalPoint(start), DirectionalPoint(end)) == Ok(DirectionalPaths(start, end))
  {
    assert DirectionalPaths(start, end) == [[Right], [Right]];
    assert DirectionalPoint(start) == Point(1, 0) && DirectionalPoint(end) == Point(1, 1);
    LeftToDownPoints(DirectionalPoint(start), DirectionalPoint(end));
  }

  lemma LeftToDownPoints(from: Point, goal: Point)
    requires from == Point(1, 0) && goal == Point(1, 1)
    ensures Paths(DirectionalKeys(), from, goal) == Ok([[Right], [Right]])
  {
    DirectionalKeysAre();
    var keys := {Point(0, 1), Point(0, 2), Point(1, 0), Point(1, 1), Point(1, 2)};
    assert HorizontalRun(from, goal) == [Right] && VerticalRun(from, goal) == [] by {
      RunsOf(from, goal);
    }
    Kept1(keys, [Right], Point(1, 0), Point(1, 1));
    Kept1(keys, [Right], Point(1, 0), Point(1, 1));
    assert [Right] + [] == [Right];
    assert [] + [Right] == [Right];
    ByRuns(keys, from, goal, [Right], [], [Right], [Right], [[Right]], [[Right]]);
    assert [[Right]] + [[Right]] == [[Right], [Right]];
  }

  lemma PathsLeftToRight(start: DirectionalButton, end: DirectionalButton)
    requires start == Arrow(Left) && end == Arrow(Right)
    ensures Paths(DirectionalKeys(), DirectionalPoint(start), DirectionalPoint(end)) == Ok(DirectionalPaths(start, end))
  {
    assert DirectionalPaths(start, end) == [[Right, Right], [Right, Right]];
    assert DirectionalPoint(start) == Point(1, 0) && DirectionalPoint(end) == Point(1, 2);
    LeftToRightPoints(DirectionalPoint(start), DirectionalPoint(end));
  }

  lemma LeftToRightPoints(from: Point, goal: Point)
    requires from == Point(1, 0) && goal == Point(1, 2)
    ensures Paths(DirectionalKeys(), from, goal) == Ok([[Right, Right], [Right, Right]])
  {
    DirectionalKeysAre();
    var keys := {Point(0, 1), Point(0, 2), Point(1, 0), Point(1, 1), Point(1, 2)};
    assert HorizontalRun(from, goal) == [Right, Right] && VerticalRun(from, goal) == [] by {
      RunsOf(from, goal);
    }
    Kept2(keys, [Right, Right], Point(1, 0), Point(1, 1), Point(1, 2));
    Kept2(keys, [Right, Right], Point(1, 0), Point(1, 1), Point(1, 2));
    assert [Right, Right] + [] == [Right, Right];
    assert [] + [Right, Right] == [Right, Right];
    ByRuns(keys, from, goal, [Right, Right], [], [Right, Right], [Right, Right], [[Right, Right]], [[Right, Right]]);
    assert [[Right, Right]] + [[Right, Right]] == [[Right, Right], [Right, Right]];
  }

  lemma PathsDownToUp(start: DirectionalButton, end: DirectionalButton)
    requires start == Arrow(Down) && end == Arrow(Up)
    ensures Paths(DirectionalKeys(), DirectionalPoint(start), DirectionalPoint(end)) == Ok(DirectionalPaths(start, end))
  {
    assert DirectionalPaths(start, end) == [[Up], [Up]];
    assert DirectionalPoint(start) == Point(1, 1) && DirectionalPoint(end) == Point(0, 1);
    DownToUpPoints(DirectionalPoint(start), DirectionalPoint(end));
  }

  lemma DownToUpPoints(from: Point, goal: Point)
    requires from == Point(1, 1) && goal == Point(0, 1)
    ensures Paths(DirectionalKeys(), from, goal) == Ok([[Up], [Up]])
  {
    DirectionalKeysAre();
    var keys := {Point(0, 1), Point(0, 2), Point(1, 0), Point(1, 1), Point(1, 2)};
    assert HorizontalRun(from, goal) == [] && VerticalRun(from, goal) == [Up] by {
      RunsOf(from, goal);
    }
    Kept1(keys, [Up], Point(1, 1), Point(0, 1));
    Kept1(keys, [Up], Point(1, 1), Point(0, 1));
    assert [] + [Up] == [Up];
    assert [Up] + [] == [Up];
    ByRuns(keys, from, goal, [], [Up], [Up], [Up], [[Up]], [[Up]]);
    assert [[Up]] + [[Up]] == [[Up], [Up]];
  }

  lemma PathsDownToActivate(start: DirectionalButton, end: DirectionalButton)
    requires start == Arrow(Down) && end == DirectionalButton.Activate
    ensures Paths(DirectionalKeys(), DirectionalPoint(start), DirectionalPoint(end)) == Ok(DirectionalPaths(start, end))
  {
    assert DirectionalPaths(start, end) == [[Right, Up], [Up, Right]];
    assert DirectionalPoint(start) == Point(1, 1) && DirectionalPoint(end) == Point(0, 2);
    DownToActivatePoints(DirectionalPoint(start), DirectionalPoint(end));
  }

  lemma DownToActivatePoints(from: Point, goal: Point)
    requires from == Point(1, 1) && goal == Point(0, 2)
    ensures Paths(DirectionalKeys(), from, goal) == Ok([[Right, Up], [Up, Right]])
  {
    DirectionalKeysAre();
    var keys := {Point(0, 1), Point(0, 2), Point(1, 0), Point(1, 1), Point(1, 2)};
    assert HorizontalRun(from, goal) == [Right] && VerticalRun(from, goal) == [Up] by {
      RunsOf(from, goal);
    }
    Kept2(keys, [Right, Up], Point(1, 1), Point(1, 2), Point(0, 2));
    Kept2(keys, [Up, Right], Point(1, 1), Point(0, 1), Point(0, 2));
    assert [Right] + [Up] == [Right, Up];
    assert [Up] + [Right] == [Up, Right];
    ByRuns(keys, from, goal, [Right], [Up], [Right, Up], [Up, Right], [[Right, Up]], [[Up, Right]]);
    assert [[Right, Up]] + [[Up, Right]] == [[Right, Up], [Up, Right]];
  }

  lemma PathsDownToLeft(start: DirectionalButton, end: DirectionalButton)
    requires start == Arrow(Down) && end == Arrow(Left)
    ensures Paths(DirectionalKeys(), DirectionalPoint(start), DirectionalPoint(end)) == Ok(DirectionalPaths(start, end))
  {
    assert DirectionalPaths(start, end) == [[Left], [Left]];
    assert DirectionalPoint(start) == Point(1, 1) && DirectionalPoint(end) == Point(1, 0);
    DownToLeftPoints(DirectionalPoint(start), DirectionalPoint(end));
  }

  lemma DownToLeftPoints(from: Point, goal: Point)
    requires from == Point(1, 1) && goal == Point(1, 0)
    ensures Paths(DirectionalKeys(), from, goal) == Ok([[Left], [Left]])
  {
    DirectionalKeysAre();
    var keys := {Point(0, 1), Point(0, 2), Point(1, 0), Point(1, 1), Point(1, 2)};
    assert HorizontalRun(from, goal) == [Left] && VerticalRun(from, goal) == [] by {
      RunsOf(from, goal);
    }
    Kept1(keys, [Left], Point(1, 1), Point(1, 0));
    Kept1(keys, [Left], Point(1, 1), Point(1, 0));
    assert [Left] + [] == [Left];
    assert [] + [Left] == [Left];
    ByRuns(keys, from, goal, [Left], [], [Left], [Left], [[Left]], [[Left]]);
    assert [[Left]] + [[Left]] == [[Left], [Left]];
  }

  lemma PathsDownToDown(start: DirectionalButton, end: DirectionalButton)
    requires start == Arrow(Down) && end == Arrow(Down)
    ensures Paths(DirectionalKeys(), DirectionalPoint(start), DirectionalPoint(end)) == Ok(DirectionalPaths(start, end))
  {
    assert DirectionalPaths(start, end) == [[], []];
    assert DirectionalPoint(start) == Point(1, 1) && DirectionalPoint(end) == Point(1, 1);
    DownToDownPoints(DirectionalPoint(start), DirectionalPoint(end));
  }

  lemma DownToDownPoints(from: Point, goal: Point)
    requires from == Point(1, 1) && goal == Point(1, 1)
    ensures Paths(DirectionalKeys(), from, goal) == Ok([[], []])
  {
    DirectionalKeysAre();
    var keys := {Point(0, 1), Point(0, 2), Point(1, 0), Point(1, 1), Point(1, 2)};
    assert HorizontalRun(from, goal) == [] && VerticalRun(from, goal) == [] by {
      RunsOf(from, goal);
    }
    KeptNone(keys, from);
    KeptNone(keys, from);
    ByRuns(keys, from, goal, [], [], [], [], [[]], [[]]);
    var stay: seq<seq<Direction>> := [[]];
    assert stay + stay == [[], []];
  }

  lemma PathsDownToRight(start: DirectionalButton, end: DirectionalButton)
    requires start == Arrow(Down) && end == Arrow(Right)
    ensures Paths(DirectionalKeys(), DirectionalPoint(start), DirectionalPoint(end)) == Ok(DirectionalPaths(start, end))
  {
    assert DirectionalPaths(start, end) == [[Right], [Right]];
    assert DirectionalPoint(start) == Point(1, 1) && DirectionalPoint(end) == Point(1, 2);
    DownToRightPoints(DirectionalPoint(start), DirectionalPoint(end));
  }

  lemma DownToRightPoints(from: Point, goal: Point)
    requires from == Point(1, 1) && goal == Point(1, 2)
    ensures Paths(DirectionalKeys(), from, goal) == Ok([[Right], [Right]])
  {
    DirectionalKeysAre();
    var keys := {Point(0, 1), Point(0, 2), Point(1, 0), Point(1, 1), Point(1, 2)};
    assert HorizontalRun(from, goal) == [Right] && VerticalRun(from, goal) == [] by {
      RunsOf(from, goal);
    }
    Kept1(keys, [Right], Point(1, 1), Point(1, 2));
    Kept1(keys, [Right], Point(1, 1), Point(1, 2));
    assert [Right] + [] == [Right];
    assert [] + [Right] == [Right];
    ByRuns(keys, from, goal, [Right], [], [Right], [Right], [[Right]], [[Right]]);
    assert [[Right]] + [[Right]] == [[Right], [Right]];
  }

  lemma PathsRightToUp(start: DirectionalButton, end: DirectionalButton)
    requires start == Arrow(Right) && end == Arrow(Up)
    ensures Paths(DirectionalKeys(), DirectionalPoint(start), DirectionalPoint(end)) == Ok(DirectionalPaths(start, end))
  {
    assert DirectionalPaths(start, end) == [[Left, Up], [Up, Left]];
    assert DirectionalPoint(start) == Point(1, 2) && DirectionalPoint(end) == Point(0, 1);
    RightToUpPoints(DirectionalPoint(start), DirectionalPoint(end));
  }

  lemma RightToUpPoints(from: Point, goal: Point)
    requires from == Point(1, 2) && goal == Point(0, 1)
    ensures Paths(DirectionalKeys(), from, goal) == Ok([[Left, Up], [Up, Left]])
  {
    DirectionalKeysAre();
    var keys := {Point(0, 1), Point(0, 2), Point(1, 0), Point(1, 1), Point(1, 2)};
    assert HorizontalRun(from, goal) == [Left] && VerticalRun(from, goal) == [Up] by {
      RunsOf(from, goal);
    }
    Kept2(keys, [Left, Up], Point(1, 2), Point(1, 1), Point(0, 1));
    Kept2(keys, [Up, Left], Point(1, 2), Point(0, 2), Point(0, 1));
    assert [Left] + [Up] == [Left, Up];
    assert [Up] + [Left] == [Up, Left];
    ByRuns(keys, from, goal, [Left], [Up], [Left, Up], [Up, Left], [[Left, Up]], [[Up, Left]]);
    assert [[Left, Up]] + [[Up, Left]] == [[Left, Up], [Up, Left]];
  }

  lemma PathsRightToActivate(start: DirectionalButton, end: DirectionalButton)
    requires start == Arrow(Right) && end == DirectionalButton.Activate
    ensures Paths(DirectionalKeys(), DirectionalPoint(start), DirectionalPoint(end)) == Ok(DirectionalPaths(start, end))
  {
    assert DirectionalPaths(start, end) == [[Up], [Up]];
    assert DirectionalPoint(start) == Point(1, 2) && DirectionalPoint(end) == Point(0, 2);
    RightToActivatePoints(DirectionalPoint(start), DirectionalPoint(end));
  }

  lemma RightToActivatePoints(from: Point, goal: Point)
    requires from == Point(1, 2) && goal == Point(0, 2)
    ensures Paths(DirectionalKeys(), from, goal) == Ok([[Up], [Up]])
  {
    DirectionalKeysAre();
    var keys := {Point(0, 1), Point(0, 2), Point(1, 0), Point(1, 1), Point(1, 2)};
    assert HorizontalRun(from, goal) == [] && VerticalRun(from, goal) == [Up] by {
      RunsOf(from, goal);
    }
    Kept1(keys, [Up], Point(1, 2), Point(0, 2));
    Kept1(keys, [Up], Point(1, 2), Point(0, 2));
    assert [] + [Up] == [Up];
    assert [Up] + [] == [Up];
    ByRuns(keys, from, goal, [], [Up], [Up], [Up], [[Up]], [[Up]]);
    assert [[Up]] + [[Up]] == [[Up], [Up]];
  }

  lemma PathsRightToLeft(start: DirectionalButton, end: DirectionalButton)
    requires start == Arrow(Right) && end == Arrow(Left)
    ensures Paths(DirectionalKeys(), DirectionalPoint(start), DirectionalPoint(end)) == Ok(DirectionalPaths(start, end))
  {
    assert DirectionalPaths(start, end) == [[Left, Left], [Left, Left]];
    assert DirectionalPoint(start) == Point(1, 2) && DirectionalPoint(end) == Point(1, 0);
    RightToLeftPoints(DirectionalPoint(start), DirectionalPoint(end));
  }

  lemma RightToLeftPoints(from: Point, goal: Point)
    requires from == Point(1, 2) && goal == Point(1, 0)
    ensures Paths(DirectionalKeys(), from, goal) == Ok([[Left, Left], [Left, Left]])
  {
    DirectionalKeysAre();
    var keys := {Point(0, 1), Point(0, 2), Point(1, 0), Point(1, 1), Point(1, 2)};
    assert HorizontalRun(from, goal) == [Left, Left] && VerticalRun(from, goal) == [] by {
      RunsOf(from, goal);
    }
    Kept2(keys, [Left, Left], Point(1, 2), Point(1, 1), Point(1, 0));
    Kept2(keys, [Left, Left], Point(1, 2), Point(1, 1), Point(1, 0));
    assert [Left, Left] + [] == [Left, Left];
    assert [] + [Left, Left] == [Left, Left];
    ByRuns(keys, from, goal, [Left, Left], [], [Left, Left], [Left, Left], [[Left, Left]], [[Left, Left]]);
    assert [[Left, Left]] + [[Left, Left]] == [[Left, Left], [Left, Left]];
  }

  lemma PathsRightToDown(start: DirectionalButton, end: DirectionalButton)
    requires start == Arrow(Right) && end == Arrow(Down)
    ensures Paths(DirectionalKeys(), DirectionalPoint(start), DirectionalPoint(end)) == Ok(DirectionalPaths(start, end))
  {
    assert DirectionalPaths(start, end) == [[Left], [Left]];
    assert DirectionalPoint(start) == Point(1, 2) && DirectionalPoint(end) == Point(1, 1);
    RightToDownPoints(DirectionalPoint(start), DirectionalPoint(end));
  }

  lemma RightToDownPoints(from: Point, goal: Point)
    requires from == Point(1, 2) && goal == Point(1, 1)
    ensures Paths(DirectionalKeys(), from, goal) == Ok([[Left], [Left]])
  {
    DirectionalKeysAre();
    var keys := {Point(0, 1), Point(0, 2), Point(1, 0), Point(1, 1), Point(1, 2)};
    assert HorizontalRun(from, goal) == [Left] && VerticalRun(from, goal) == [] by {
      RunsOf(from, goal);
    }
    Kept1(keys, [Left], Point(1, 2), Point(1, 1));
    Kept1(keys, [Left], Point(1, 2), Point(1, 1));
    assert [Left] + [] == [Left];
    assert [] + [Left] == [Left];
    ByRuns(keys, from, goal, [Left], [], [Left], [Left], [[Left]], [[Left]]);
    assert [[Left]] + [[Left]] == [[Left], [Left]];
  }

  lemma PathsRightToRight(start: DirectionalButton, end: DirectionalButton)
    requires start == Arrow(Right) && end == Arrow(Right)
    ensures Paths(DirectionalKeys(), DirectionalPoint(start), DirectionalPoint(end)) == Ok(DirectionalPaths(start, end))
  {
    assert DirectionalPaths(start, end) == [[], []];
    assert DirectionalPoint(start) == Point(1, 2) && DirectionalPoint(end) == Point(1, 2);
    RightToRightPoints(DirectionalPoint(start), DirectionalPoint(end));
  }

  lemma RightToRightPoints(from: Point, goal: Point)
    requires from == Point(1, 2) && goal == Point(1, 2)
    ensures Paths(DirectionalKeys(), from, goal) == Ok([[], []])
  {
    DirectionalKeysAre();
    var keys := {Point(0, 1), Point(0, 2), Point(1, 0), Point(1, 1), Point(1, 2)};
    assert HorizontalRun(from, goal) == [] && VerticalRun(from, goal) == [] by {
      RunsOf(from, goal);
    }
    KeptNone(keys, from);
    KeptNone(keys, from);
    ByRuns(keys, from, goal, [], [], [], [], [[]], [[]]);
    var stay: seq<seq<Direction>> := [[]];
    assert stay + stay == [[], []];
  }

  /** The buttons of the directional keypad. */
  lemma DirectionalKeysAre()
    ensures DirectionalKeys() == {Point(0, 1), Point(0, 2), Point(1, 0), Point(1, 1), Point(1, 2)}
  {
  }

  /** One step of `is_possible_path` that stays on the grid. */
  lemma StepTo(buttons: set<Point>, from: Point, path: seq<Direction>, next: Point)
    requires |path| > 0 && AddOffset(from, ToOffset(path[0])) == Some(next)
    ensures PossiblePath(buttons, from, path) == if next in buttons then PossiblePath(buttons, next, path[1..]) else Ok(false)
  {
  }

  lemma KeptNone(buttons: set<Point>, from: Point)
    ensures Kept(buttons, from, []) == [[]]
  {
  }

  lemma Kept1(buttons: set<Point>, path: seq<Direction>, p0: Point, p1: Point)
    requires |path| == 1 && AddOffset(p0, ToOffset(path[0])) == Some(p1) && p1 in buttons
    ensures Kept(buttons, p0, path) == [path]
  {
    StepTo(buttons, p0, path, p1);
  }

  lemma Kept2(buttons: set<Point>, path: seq<Direction>, p0: Point, p1: Point, p2: Point)
    requires |path| == 2 && AddOffset(p0, ToOffset(path[0])) == Some(p1) && p1 in buttons
    requires AddOffset(p1, ToOffset(path[1])) == Some(p2) && p2 in buttons
    ensures Kept(buttons, p0, path) == [path]
  {
    StepTo(buttons, p0, path, p1);
    Kept1(buttons, path[1..], p1, p2);
  }

  lemma Kept3(buttons: set<Point>, path: seq<Direction>, p0: Point, p1: Point, p2: Point, p3: Point)
    requires |path| == 3 && AddOffset(p0, ToOffset(path[0])) == Some(p1) && p1 in buttons
    requires AddOffset(p1, ToOffset(path[1])) == Some(p2) && p2 in buttons
    requires AddOffset(p2, ToOffset(path[2])) == Some(p3) && p3 in buttons
    ensures Kept(buttons, p0, path) == [path]
  {
    StepTo(buttons, p0, path, p1);
    Kept2(buttons, path[1..], p1, p2, p3);
  }

  lemma Blocked1(buttons: set<Point>, path: seq<Direction>, p0: Point, p1: Point)
    requires |path| > 0 && AddOffset(p0, ToOffset(path[0])) == Some(p1) && p1 !in buttons
    ensures Kept(buttons, p0, path) == []
  {
    StepTo(buttons, p0, path, p1);
  }

  lemma Blocked2(buttons: set<Point>, path: seq<Direction>, p0: Point, p1: Point, p2: Point)
    requires |path| > 1 && AddOffset(p0, ToOffset(path[0])) == Some(p1) && p1 in buttons
    requires AddOffset(p1, ToOffset(path[1])) == Some(p2) && p2 !in buttons
    ensures Kept(buttons, p0, path) == []
  {
    StepTo(buttons, p0, path, p1);
    Blocked1(buttons, path[1..], p1, p2);
  }

  /** `paths_to` once the runs and the filter of both candidates are known. */
  lemma ByRuns(buttons: set<Point>, from: Point, goal: Point, h: seq<Direction>, v: seq<Direction>,
               first: seq<Direction>, second: seq<Direction>, kept: seq<seq<Direction>>, alsoKept: seq<seq<Direction>>)
    requires h == HorizontalRun(from, goal) && v == VerticalRun(from, goal)
    requires first == h + v && second == v + h
    requires Kept(buttons, from, first) == kept && Kept(buttons, from, second) == alsoKept
    ensures Paths(buttons, from, goal) == Ok(kept + alsoKept)
  {
    PathsByRuns(buttons, from, goal, h, v);
  }

  /** The table is what `paths_to` returns on the directional keypad. */
  lemma DirectionalPathsArePaths(from: DirectionalButton, to: DirectionalButton)
    ensures Paths(DirectionalKeys(), DirectionalPoint(from), DirectionalPoint(to)) == Ok(DirectionalPaths(from, to))
  {
    match from
    case Arrow(Up) => PathsFromUp(from, to);
    case Activate => PathsFromActivate(from, to);
    case Arrow(Left) => PathsFromLeft(from, to);
    case Arrow(Down) => PathsFromDown(from, to);
    case Arrow(Right) => PathsFromRight(from, to);
  }

  lemma PathsFromUp(from: DirectionalButton, to: DirectionalButton)
    requires from == Arrow(Up)
    ensures Paths(DirectionalKeys(), DirectionalPoint(from), DirectionalPoint(to)) == Ok(DirectionalPaths(from, to))
  {
    match to
    case Arrow(Up) => PathsUpToUp(from, to);
    case Activate => PathsUpToActivate(from, to);
    case Arrow(Left) => PathsUpToLeft(from, to);
    case Arrow(Down) => PathsUpToDown(from, to);
    case Arrow(Right) => PathsUpToRight(from, to);
  }

  lemma PathsFromActivate(from: DirectionalButton, to: DirectionalButton)
    requires from == DirectionalButton.Activate
    ensures Paths(DirectionalKeys(), DirectionalPoint(from), DirectionalPoint(to)) == Ok(DirectionalPaths(from, to))
  {
    match to
    case Arrow(Up) => PathsActivateToUp(from, to);
    case Activate => PathsActivateToActivate(from, to);
    case Arrow(Left) => PathsActivateToLeft(from, to);
    case Arrow(Down) => PathsActivateToDown(from, to);
    case Arrow(Right) => PathsActivateToRight(from, to);
  }

  lemma PathsFromLeft(from: DirectionalButton, to: DirectionalButton)
    requires from == Arrow(Left)
    ensures Paths(DirectionalKeys(), DirectionalPoint(from), DirectionalPoint(to)) == Ok(DirectionalPaths(from, to))
  {
    match to
    case Arrow(Up) => PathsLeftToUp(from, to);
    case Activate => PathsLeftToActivate(from, to);
    case Arrow(Left) => PathsLeftToLeft(from, to);
    case Arrow(Down) => PathsLeftToDown(from, to);
    case Arrow(Right) => PathsLeftToRight(from, to);
  }

  lemma PathsFromDown(from: DirectionalButton, to: DirectionalButton)
    requires from == Arrow(Down)
    ensures Paths(DirectionalKeys(), DirectionalPoint(from), DirectionalPoint(to)) == Ok(DirectionalPaths(from, to))
  {
    match to
    case Arrow(Up) => PathsDownToUp(from, to);
    case Activate => PathsDownToActivate(from, to);
    case Arrow(Left) => PathsDownToLeft(from, to);
    case Arrow(Down) => PathsDownToDown(from, to);
    case Arrow(Right) => PathsDownToRight(from, to);
  }

  lemma PathsFromRight(from: DirectionalButton, to: DirectionalButton)
    requires from == Arrow(Right)
    ensures Paths(DirectionalKeys(), DirectionalPoint(from), DirectionalPoint(to)) == Ok(DirectionalPaths(from, to))
  {
    match to
    case Arrow(Up) => PathsRightToUp(from, to);
    case Activate => PathsRightToActivate(from, to);
    case Arrow(Left) => PathsRightToLeft(from, to);
    case Arrow(Down) => PathsRightToDown(from, to);
    case Arrow(Right) => PathsRightToRight(from, to);
  }
}
