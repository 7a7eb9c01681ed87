/** Keypads and the paths a robot arm may take over them
  (rust/21/src/keypad.rs). */
module Keypads {
  import opened Wrappers
  import opened KeypadUtils

  datatype DirectionalButton = Arrow(direction: Direction) | Activate

  /** `KeypadNumber` wraps a `u8`; parsing only produces 0 to 9. */
  datatype NumericButton = Number(number: nat) | Activate

  /** `DirectionalButton::parse`, a test helper: `^ > v < A`. */
  function ParseDirectional(s: string): (r: Result<seq<DirectionalButton>>)
    ensures r.Ok? ==> |r.value| == |s|
    ensures r.Err? <==> exists i :: 0 <= i < |s| && s[i] !in "^>v<A"
  {
    if |s| == 0 then Ok([])
    else
      var rest := ParseDirectional(s[1..]);
      var b := match s[0]
        case '^' => Some(Arrow(Up))
        case '>' => Some(Arrow(Right))
        case 'v' => Some(Arrow(Down))
        case '<' => Some(Arrow(Left))
        case 'A' => Some(DirectionalButton.Activate)
        case _ => None;
      if b.None? then Err("Invalid char for directional button")
      else if rest.Err? then rest
      else Ok([b.value] + rest.value)
  }

  /** `NumericButton::parse`: digits and `A`. */
  function ParseNumeric(s: string): (r: Result<seq<NumericButton>>)
    ensures r.Ok? ==> |r.value| == |s|
    ensures r.Ok? ==> forall i :: 0 <= i < |s| ==>
      (r.value[i] == NumericButton.Activate <==> s[i] == 'A') &&
      (r.value[i].Number? ==> '0' <= s[i] <= '9' && r.value[i].number == s[i] as int - '0' as int)
    ensures r.Err? <==> exists i :: 0 <= i < |s| && !('0' <= s[i] <= '9' || s[i] == 'A')
  {
    if |s| == 0 then Ok([])
    else
      var rest := ParseNumeric(s[1..]);
      if '0' <= s[0] <= '9' && rest.Ok? then Ok([Number(s[0] as int - '0' as int)] + rest.value)
      else if s[0] == 'A' && rest.Ok? then Ok([NumericButton.Activate] + rest.value)
      else if '0' <= s[0] <= '9' || s[0] == 'A' then rest
      else Err("Invalid char for numeric button: " + [s[0]])
  }

  function Abs(x: int): nat
  {
    if x < 0 then -x else x
  }

  /** `vec![d; n]`. */
  function Repeat(d: Option<Direction>, n: nat): (r: seq<Option<Direction>>)
    ensures |r| == n
  {
    seq(n, _ => d)
  }

  /** `flatten` over options: the present directions, in order. */
  function Flatten(s: seq<Option<Direction>>): seq<Direction>
  {
    if |s| == 0 then [] else (if s[0].Some? then [s[0].value] else []) + Flatten(s[1..])
  }

  /** The two candidate paths of `paths_to`: all horizontal moves then all
    vertical ones, and the other way round. */
  function CandidatePaths(from: Point, goal: Point): (r: seq<seq<Direction>>)
    ensures |r| == 2
  {
    var direction := DirectionTo(from, goal);
    var offsets := Distance(from, goal);
    var vertical := Repeat(direction.vertical, Abs(offsets.row));
    var horizontal := Repeat(direction.horizontal, Abs(offsets.col));
    [Flatten(horizontal + vertical), Flatten(vertical + horizontal)]
  }

  /** Where a path leads, or None where it would leave the non-negative
    quadrant. */
  function Follow(from: Point, path: seq<Direction>): Option<Point>
    decreases |path|
  {
    if |path| == 0 then Some(from)
    else
      var next := AddOffset(from, ToOffset(path[0]));
      if next.None? then None else Follow(next.value, path[1..])
  }

  /** `is_possible_path`: every point after a step must be a button; a step
    below 0 makes the `unwrap` panic. */
  function PossiblePath(buttons: set<Point>, from: Point, path: seq<Direction>): Result<bool>
    decreases |path|
  {
    if |path| == 0 then Ok(true)
    else
      var next := AddOffset(from, ToOffset(path[0]));
      if next.None? then Err("called `Result::unwrap()` on an `Err` value")
      else if next.value !in buttons then Ok(false)
      else PossiblePath(buttons, next.value, path[1..])
  }

  /** The candidates that are possible paths, in order. */
  function FilterPossible(buttons: set<Point>, from: Point, ps: seq<seq<Direction>>): Result<seq<seq<Direction>>>
  {
    if |ps| == 0 then Ok([])
    else
      var prefix := FilterPossible(buttons, from, ps[..|ps| - 1]);
      var last := PossiblePath(buttons, from, ps[|ps| - 1]);
      if prefix.Err? then prefix
      else if last.Err? then Err(last.error)
      else if last.value then Ok(prefix.value + [ps[|ps| - 1]])
      else prefix
  }

  /** Once a prefix of the candidates fails, the whole filter fails the same
    way. */
  lemma {:induction false} FilterPrefixErr(buttons: set<Point>, from: Point, ps: seq<seq<Direction>>, k: nat)
    requires k <= |ps| && FilterPossible(buttons, from, ps[..k]).Err?
    ensures FilterPossible(buttons, from, ps) == FilterPossible(buttons, from, ps[..k])
  {
    if k < |ps| {
      var n := |ps| - 1;
      assert ps[..n][..k] == ps[..k];
      FilterPrefixErr(buttons, from, ps[..n], k);
    } else {
      assert ps[..k] == ps;
    }
  }

  /** `paths_to` from `from` to the button at `goal`. */
  function Paths(buttons: set<Point>, from: Point, goal: Point): Result<seq<seq<Direction>>>
  {
    FilterPossible(buttons, from, CandidatePaths(from, goal))
  }

  lemma {:induction false} FlattenConcat(a: seq<Option<Direction>>, b: seq<Option<Direction>>)
    ensures Flatten(a + b) == Flatten(a) + Flatten(b)
  {
    if |a| > 0 {
      assert (a + b)[1..] == a[1..] + b;
      FlattenConcat(a[1..], b);
    } else {
      assert a + b == b;
    }
  }

  lemma {:induction false} FlattenRepeat(d: Option<Direction>, n: nat)
    ensures Flatten(Repeat(d, n)) == if d.Some? then seq(n, _ => d.value) else []
  {
    if n > 0 {
      assert Repeat(d, n)[1..] == Repeat(d, n - 1);
      FlattenRepeat(d, n - 1);
    }
  }

  lemma {:induction false} FollowConcat(p: Point, a: seq<Direction>, b: seq<Direction>)
    ensures Follow(p, a + b) == if Follow(p, a).Some? then Follow(Follow(p, a).value, b) else None
    decreases |a|
  {
    if |a| > 0 {
      assert (a + b)[1..] == a[1..] + b;
      var next := AddOffset(p, ToOffset(a[0]));
      if next.Some? {
        FollowConcat(next.value, a[1..], b);
      }
    } else {
      assert a + b == b;
    }
  }

  /** `n` steps in direction `d`, as one offset. */
  function Scale(d: Direction, n: nat): Offset
  {
    match d
    case Up => Offset(-(n as int), 0)
    case Right => Offset(0, n)
    case Down => Offset(n, 0)
    case Left => Offset(0, -(n as int))
  }

  lemma {:induction false} FollowRun(p: Point, d: Direction, n: nat)
    requires AddOffset(p, Scale(d, n)).Some?
    ensures Follow(p, seq(n, _ => d)) == AddOffset(p, Scale(d, n))
    decreases n
  {
    if n > 0 {
      var run := seq(n, _ => d);
      assert run[0] == d && run[1..] == seq(n - 1, _ => d);
      var next := AddOffset(p, ToOffset(d)).value;
      FollowRun(next, d, n - 1);
    }
  }

  /** The horizontal part of the candidates. */
  function HorizontalRun(from: Point, goal: Point): seq<Direction>
  {
    Flatten(Repeat(DirectionTo(from, goal).horizontal, Abs(goal.col - from.col)))
  }

  /** The vertical part of the candidates. */
  function VerticalRun(from: Point, goal: Point): seq<Direction>
  {
    Flatten(Repeat(DirectionTo(from, goal).vertical, Abs(goal.row - from.row)))
  }

  /** From any point in the column of `from`, the horizontal part reaches the
    column of `goal`. */
  lemma FollowHorizontal(from: Point, goal: Point, p: Point)
    requires p.col == from.col
    ensures |HorizontalRun(from, goal)| == Abs(goal.col - from.col)
    ensures Follow(p, HorizontalRun(from, goal)) == Some(Point(p.row, goal.col))
  {
    var d := DirectionTo(from, goal).horizontal;
    var n := Abs(goal.col - from.col);
    FlattenRepeat(d, n);
    if d.Some? {
      FollowRun(p, d.value, n);
    }
  }

  /** From any point in the row of `from`, the vertical part reaches the row
    of `goal`. */
  lemma FollowVertical(from: Point, goal: Point, p: Point)
    requires p.row == from.row
    ensures |VerticalRun(from, goal)| == Abs(goal.row - from.row)
    ensures Follow(p, VerticalRun(from, goal)) == Some(Point(goal.row, p.col))
  {
    var d := DirectionTo(from, goal).vertical;
    var n := Abs(goal.row - from.row);
    FlattenRepeat(d, n);
    if d.Some? {
      FollowRun(p, d.value, n);
    }
  }

  /** The two parts of the candidates, step by step. */
  lemma RunsOf(from: Point, goal: Point)
    ensures HorizontalRun(from, goal) ==
      if from.col < goal.col then seq(goal.col - from.col, _ => Right)
      else if goal.col < from.col then seq(from.col - goal.col, _ => Left)
      else []
    ensures VerticalRun(from, goal) ==
      if from.row < goal.row then seq(goal.row - from.row, _ => Down)
      else if goal.row < from.row then seq(from.row - goal.row, _ => Up)
      else []
  {
    FlattenRepeat(DirectionTo(from, goal).horizontal, Abs(goal.col - from.col));
    FlattenRepeat(DirectionTo(from, goal).vertical, Abs(goal.row - from.row));
  }

  /** The candidates are the two parts in either order. */
  lemma CandidateParts(from: Point, goal: Point)
    ensures CandidatePaths(from, goal)
      == [HorizontalRun(from, goal) + VerticalRun(from, goal), VerticalRun(from, goal) + HorizontalRun(from, goal)]
  {
    var direction := DirectionTo(from, goal);
    var offsets := Distance(from, goal);
    var vertical := Repeat(direction.vertical, Abs(offsets.row));
    var horizontal := Repeat(direction.horizontal, Abs(offsets.col));
    FlattenConcat(horizontal, vertical);
    FlattenConcat(vertical, horizontal);
  }

  /** Both candidates have one step per unit of distance and lead to the
    goal. */
  lemma CandidatesReachGoal(from: Point, goal: Point, k: nat)
    requires k < 2
    ensures var c := CandidatePaths(from, goal)[k];
      |c| == Abs(goal.row - from.row) + Abs(goal.col - from.col) && Follow(from, c) == Some(goal)
  {
    CandidateParts(from, goal);
    var h := HorizontalRun(from, goal);
    var v := VerticalRun(from, goal);
    FollowHorizontal(from, goal, from);
    FollowVertical(from, goal, from);
    FollowHorizontal(from, goal, Point(goal.row, from.col));
    FollowVertical(from, goal, Point(from.row, goal.col));
    FollowConcat(from, h, v);
    FollowConcat(from, v, h);
  }

  /** A path that stays in the quadrant never makes `is_possible_path`
    panic. */
  lemma {:induction false} PossiblePathTotal(buttons: set<Point>, from: Point, path: seq<Direction>)
    requires Follow(from, path).Some?
    ensures PossiblePath(buttons, from, path).Ok?
    decreases |path|
  {
    if |path| > 0 {
      PossiblePathTotal(buttons, AddOffset(from, ToOffset(path[0])).value, path[1..]);
    }
  }

  /** A possible path visits only buttons: every point reached after a step. */
  predicate VisitsOnly(buttons: set<Point>, from: Point, path: seq<Direction>)
  {
    forall k :: 1 <= k <= |path| ==> Follow(from, path[..k]).Some? && Follow(from, path[..k]).value in buttons
  }

  lemma {:induction false} PossibleIffVisits(buttons: set<Point>, from: Point, path: seq<Direction>)
    requires Follow(from, path).Some?
    ensures PossiblePath(buttons, from, path) == Ok(true) <==> VisitsOnly(buttons, from, path)
    decreases |path|
  {
    if |path| > 0 {
      var next := AddOffset(from, ToOffset(path[0])).value;
      var rest := path[1..];
      PossibleIffVisits(buttons, next, rest);
      forall k | 1 <= k <= |path|
        ensures Follow(from, path[..k]) == Follow(next, rest[..k - 1])
      {
        assert path[..k][1..] == rest[..k - 1];
      }
      assert path[..1][1..] == [];
      if VisitsOnly(buttons, from, path) {
        assert Follow(from, path[..1]) == Some(next);
        forall k | 1 <= k <= |rest|
          ensures Follow(next, rest[..k]).Some? && Follow(next, rest[..k]).value in buttons
        {
          assert Follow(from, path[..k + 1]) == Follow(next, rest[..k]);
        }
      }
    }
  }

  /** A candidate as `paths_to` keeps it: itself when it is a possible path,
    nothing otherwise. */
  function Kept(buttons: set<Point>, from: Point, path: seq<Direction>): seq<seq<Direction>>
  {
    if PossiblePath(buttons, from, path) == Ok(true) then [path] else []
  }

  /** `is_possible_path` takes the first step, then goes on from there. */
  lemma PossibleStep(buttons: set<Point>, from: Point, path: seq<Direction>)
    requires |path| > 0
    ensures var next := AddOffset(from, ToOffset(path[0]));
      PossiblePath(buttons, from, path) ==
      if next.None? then Err("called `Result::unwrap()` on an `Err` value")
      else if next.value !in buttons then Ok(false)
      else PossiblePath(buttons, next.value, path[1..])
  {
  }

  /** `paths_to` never panics on the candidates, returns at most two paths,
    keeps exactly the candidates that visit only buttons, and every path it
    returns has length |dr| + |dc|, ends at the goal and avoids the gap. */
  lemma PathsSpec(buttons: set<Point>, from: Point, goal: Point)
    ensures Paths(buttons, from, goal).Ok?
    ensures |Paths(buttons, from, goal).value| <= 2
    ensures forall k :: 0 <= k < 2 ==>
      (CandidatePaths(from, goal)[k] in Paths(buttons, from, goal).value <==>
       VisitsOnly(buttons, from, CandidatePaths(from, goal)[k]))
    ensures forall path :: path in Paths(buttons, from, goal).value ==> path in CandidatePaths(from, goal)
    ensures forall path :: path in Paths(buttons, from, goal).value ==>
      |path| == Abs(goal.row - from.row) + Abs(goal.col - from.col) &&
      Follow(from, path) == Some(goal) && VisitsOnly(buttons, from, path)
    ensures Paths(buttons, from, goal).value ==
      Kept(buttons, from, CandidatePaths(from, goal)[0]) + Kept(buttons, from, CandidatePaths(from, goal)[1])
  {
    var cs := CandidatePaths(from, goal);
    CandidatesReachGoal(from, goal, 0);
    CandidatesReachGoal(from, goal, 1);
    PossiblePathTotal(buttons, from, cs[0]);
    PossiblePathTotal(buttons, from, cs[1]);
    PossibleIffVisits(buttons, from, cs[0]);
    PossibleIffVisits(buttons, from, cs[1]);
    assert cs[..1] == [cs[0]] && cs[..1][..0] == [] && cs[..2] == cs;
    var keep0 := PossiblePath(buttons, from, cs[0]).value;
    var keep1 := PossiblePath(buttons, from, cs[1]).value;
    assert FilterPossible(buttons, from, cs[..0]) == Ok([]);
    var first: seq<seq<Direction>> := if keep0 then [cs[0]] else [];
    assert cs[..1][..0] == cs[..0] && cs[..1][0] == cs[0];
    assert keep0 ==> [] + [cs[0]] == [cs[0]];
    assert FilterPossible(buttons, from, cs[..1]) == Ok(first);
    assert Paths(buttons, from, goal) == Ok(if keep1 then first + [cs[1]] else first);
  }

  /** `paths_to` keeps the horizontal-first candidate, then the
    vertical-first one, each when it is possible. */
  lemma PathsByRuns(buttons: set<Point>, from: Point, goal: Point, h: seq<Direction>, v: seq<Direction>)
    requires h == HorizontalRun(from, goal) && v == VerticalRun(from, goal)
    ensures Paths(buttons, from, goal) == Ok(Kept(buttons, from, h + v) + Kept(buttons, from, v + h))
  {
    PathsSpec(buttons, from, goal);
    CandidateParts(from, goal);
  }

  /** `c` lies on the way from `a` to `b`, `a` excluded and `b` included. */
  predicate Between(a: nat, c: nat, b: nat)
  {
    (a < c <= b) || (b <= c < a)
  }

  lemma VisitsConcat(buttons: set<Point>, p: Point, a: seq<Direction>, b: seq<Direction>)
    requires Follow(p, a).Some? && VisitsOnly(buttons, p, a) && VisitsOnly(buttons, Follow(p, a).value, b)
    ensures VisitsOnly(buttons, p, a + b)
  {
    var q := Follow(p, a).value;
    forall k | 1 <= k <= |a + b|
      ensures Follow(p, (a + b)[..k]).Some? && Follow(p, (a + b)[..k]).value in buttons
    {
      if k <= |a| {
        assert (a + b)[..k] == a[..k];
      } else {
        assert (a + b)[..k] == a + b[..k - |a|];
        FollowConcat(p, a, b[..k - |a|]);
      }
    }
  }

  /** The horizontal part from a point in the column of `from` visits only
    buttons when the points of its row on the way to the goal column are. */
  lemma VisitsHorizontal(buttons: set<Point>, from: Point, goal: Point, p: Point)
    requires p.col == from.col
    requires forall c :: Between(from.col, c, goal.col) ==> Point(p.row, c) in buttons
    ensures VisitsOnly(buttons, p, HorizontalRun(from, goal))
  {
    var d := DirectionTo(from, goal).horizontal;
    var n := Abs(goal.col - from.col);
    var run := HorizontalRun(from, goal);
    FlattenRepeat(d, n);
    forall k | 1 <= k <= |run|
      ensures Follow(p, run[..k]).Some? && Follow(p, run[..k]).value in buttons
    {
      assert run[..k] == seq(k, _ => d.value);
      FollowRun(p, d.value, k);
      assert Between(from.col, Follow(p, run[..k]).value.col, goal.col);
    }
  }

  /** The vertical part from a point in the row of `from` visits only buttons
    when the points of its column on the way to the goal row are. */
  lemma VisitsVertical(buttons: set<Point>, from: Point, goal: Point, p: Point)
    requires p.row == from.row
    requires forall r :: Between(from.row, r, goal.row) ==> Point(r, p.col) in buttons
    ensures VisitsOnly(buttons, p, VerticalRun(from, goal))
  {
    var d := DirectionTo(from, goal).vertical;
    var n := Abs(goal.row - from.row);
    var run := VerticalRun(from, goal);
    FlattenRepeat(d, n);
    forall k | 1 <= k <= |run|
      ensures Follow(p, run[..k]).Some? && Follow(p, run[..k]).value in buttons
    {
      assert run[..k] == seq(k, _ => d.value);
      FollowRun(p, d.value, k);
      assert Between(from.row, Follow(p, run[..k]).value.row, goal.row);
    }
  }

  /** When a point of the row of `from` on the way to the goal column is no
    button, only the candidate that moves vertically first can remain. */
  lemma HorizontalBlocked(buttons: set<Point>, from: Point, goal: Point, c: nat)
    requires Between(from.col, c, goal.col) && Point(from.row, c) !in buttons
    ensures Paths(buttons, from, goal).Ok?
    ensures forall q :: q in Paths(buttons, from, goal).value ==>
      q == VerticalRun(from, goal) + HorizontalRun(from, goal)
  {
    PathsSpec(buttons, from, goal);
    CandidateParts(from, goal);
    HorizontalLeaves(buttons, from, goal, c);
  }

  /** The run that starts horizontally steps on the missing point. */
  lemma HorizontalLeaves(buttons: set<Point>, from: Point, goal: Point, c: nat)
    requires Between(from.col, c, goal.col) && Point(from.row, c) !in buttons
    ensures !VisitsOnly(buttons, from, HorizontalRun(from, goal) + VerticalRun(from, goal))
  {
    var d := DirectionTo(from, goal).horizontal.value;
    var h := HorizontalRun(from, goal);
    var k := Abs(c - from.col);
    FlattenRepeat(Some(d), Abs(goal.col - from.col));
    assert (h + VerticalRun(from, goal))[..k] == seq(k, _ => d);
    FollowRun(from, d, k);
  }

  /** When a point of the column of `from` on the way to the goal row is no
    button, only the candidate that moves horizontally first can remain. */
  lemma VerticalBlocked(buttons: set<Point>, from: Point, goal: Point, r: nat)
    requires Between(from.row, r, goal.row) && Point(r, from.col) !in buttons
    ensures Paths(buttons, from, goal).Ok?
    ensures forall q :: q in Paths(buttons, from, goal).value ==>
      q == HorizontalRun(from, goal) + VerticalRun(from, goal)
  {
    PathsSpec(buttons, from, goal);
    CandidateParts(from, goal);
    VerticalLeaves(buttons, from, goal, r);
  }

  /** The run that starts vertically steps on the missing point. */
  lemma VerticalLeaves(buttons: set<Point>, from: Point, goal: Point, r: nat)
    requires Between(from.row, r, goal.row) && Point(r, from.col) !in buttons
    ensures !VisitsOnly(buttons, from, VerticalRun(from, goal) + HorizontalRun(from, goal))
  {
    var d := DirectionTo(from, goal).vertical.value;
    var v := VerticalRun(from, goal);
    var k := Abs(r - from.row);
    FlattenRepeat(Some(d), Abs(goal.row - from.row));
    assert (v + HorizontalRun(from, goal))[..k] == seq(k, _ => d);
    FollowRun(from, d, k);
  }

  /** In a straight line both candidates are the same run. */
  lemma StraightPaths(buttons: set<Point>, from: Point, goal: Point)
    requires from.row == goal.row || from.col == goal.col
    ensures Paths(buttons, from, goal).Ok?
    ensures forall q :: q in Paths(buttons, from, goal).value ==>
      q == HorizontalRun(from, goal) + VerticalRun(from, goal)
  {
    PathsSpec(buttons, from, goal);
    CandidateParts(from, goal);
    FlattenRepeat(DirectionTo(from, goal).horizontal, Abs(goal.col - from.col));
    FlattenRepeat(DirectionTo(from, goal).vertical, Abs(goal.row - from.row));
  }

  /** The buttons fill a `height` by `width` rectangle except one corner. */
  ghost predicate RectangleWithoutCorner(buttons: set<Point>, height: nat, width: nat, gap: Point)
  {
    (gap.row == 0 || gap.row + 1 == height) && (gap.col == 0 || gap.col + 1 == width) &&
    forall p :: p in buttons <==> p.row < height && p.col < width && p != gap
  }

  /** On a rectangle missing one corner, at least one of the two L-shaped
    candidates between two buttons avoids the gap: `paths_to` is never
    empty. */
  lemma CornerGapLeavesPath(buttons: set<Point>, height: nat, width: nat, gap: Point, from: Point, goal: Point)
    requires RectangleWithoutCorner(buttons, height, width, gap)
    requires from in buttons && goal in buttons
    ensures Paths(buttons, from, goal).Ok? && |Paths(buttons, from, goal).value| >= 1
  {
    PathsSpec(buttons, from, goal);
    CandidateParts(from, goal);
    if HorizontalFirstClear(gap, from, goal) {
      HorizontalFirstVisits(buttons, height, width, gap, from, goal);
      assert CandidatePaths(from, goal)[0] in Paths(buttons, from, goal).value;
    } else {
      VerticalFirstVisits(buttons, height, width, gap, from, goal);
      assert CandidatePaths(from, goal)[1] in Paths(buttons, from, goal).value;
    }
  }

  /** The gap is neither on the horizontal run from `from` nor on the
    vertical run down to `goal` after it. */
  ghost predicate HorizontalFirstClear(gap: Point, from: Point, goal: Point)
  {
    (forall c :: Between(from.col, c, goal.col) ==> Point(from.row, c) != gap) &&
    (forall r :: Between(from.row, r, goal.row) ==> Point(r, goal.col) != gap)
  }

  /** With the horizontal-first run clear, it visits only buttons. */
  lemma HorizontalFirstVisits(buttons: set<Point>, height: nat, width: nat, gap: Point, from: Point, goal: Point)
    requires RectangleWithoutCorner(buttons, height, width, gap)
    requires from in buttons && goal in buttons
    requires HorizontalFirstClear(gap, from, goal)
    ensures VisitsOnly(buttons, from, HorizontalRun(from, goal) + VerticalRun(from, goal))
  {
    CandidatesReachGoal(from, goal, 0);
    FollowHorizontal(from, goal, from);
    VisitsHorizontal(buttons, from, goal, from);
    VisitsVertical(buttons, from, goal, Point(from.row, goal.col));
    VisitsConcat(buttons, from, HorizontalRun(from, goal), VerticalRun(from, goal));
  }

  /** Otherwise the gap sits on the horizontal-first route, so the
    vertical-first one avoids it and visits only buttons. */
  lemma VerticalFirstVisits(buttons: set<Point>, height: nat, width: nat, gap: Point, from: Point, goal: Point)
    requires RectangleWithoutCorner(buttons, height, width, gap)
    requires from in buttons && goal in buttons
    requires !HorizontalFirstClear(gap, from, goal)
    ensures VisitsOnly(buttons, from, VerticalRun(from, goal) + HorizontalRun(from, goal))
  {
    CandidatesReachGoal(from, goal, 0);
    FollowVertical(from, goal, from);
    assert (forall r :: Between(from.row, r, goal.row) ==> Point(r, from.col) != gap) &&
           (forall c :: Between(from.col, c, goal.col) ==> Point(goal.row, c) != gap);
    VisitsVertical(buttons, from, goal, from);
    VisitsHorizontal(buttons, from, goal, Point(goal.row, from.col));
    VisitsConcat(buttons, from, VerticalRun(from, goal), HorizontalRun(from, goal));
  }

  /** The inverse of `buttons`: every button to its point. */
  predicate InverseOf<T>(buttons: map<Point, T>, inverse: map<T, Point>)
  {
    (forall b :: b in inverse ==> inverse[b] in buttons && buttons[inverse[b]] == b) &&
    (forall p :: p in buttons ==> buttons[p] in inverse)
  }

  /** A keypad: which button sits where, and the point the arm is over. */
  class Keypad<T(==)> {
    var pointToButton: map<Point, T>
    var buttonToPoint: map<T, Point>
    var current: Point

    predicate Valid()
      reads this
    {
      InverseOf(pointToButton, buttonToPoint)
    }

    /** `Keypad::new`: the reverse map is collected from the button map. */
    constructor (buttons: map<Point, T>, start: Point)
      ensures pointToButton == buttons && current == start && Valid()
    {
      var inverse: map<T, Point> := map[];
      var todo := buttons.Keys;
      while todo != {}
        invariant todo <= buttons.Keys
        invariant forall b :: b in inverse ==> inverse[b] in buttons && buttons[inverse[b]] == b
        invariant forall p :: p in buttons && p !in todo ==> buttons[p] in inverse
        decreases |todo|
      {
        var p :| p in todo;
        inverse := inverse[buttons[p] := p];
        todo := todo - {p};
      }
      pointToButton := buttons;
      buttonToPoint := inverse;
      current := start;
    }

    /** `is_possible_path`, walking a copy of the current point. */
    method IsPossiblePath(path: seq<Direction>) returns (r: Result<bool>)
      ensures r == PossiblePath(pointToButton.Keys, current, path)
    {
      var point := new MovablePoint(current);
      for i := 0 to |path|
        invariant PossiblePath(pointToButton.Keys, current, path) == PossiblePath(pointToButton.Keys, point.Value(), path[i..])
      {
        assert path[i..][1..] == path[i + 1..];
        var added := point.Add(ToOffset(path[i]));
        if added.Err? {
          return Err("called `Result::unwrap()` on an `Err` value");
        }
        if point.Value() !in pointToButton {
          return Ok(false);
        }
      }
      r := Ok(true);
    }

    /** `paths_to`: the goal button is looked up (a missing one panics), then
      the two candidate paths are filtered. */
    method PathsTo(goal: T) returns (r: Result<seq<seq<Direction>>>)
      ensures goal !in buttonToPoint ==> r == Err("called `Option::unwrap()` on a `None` value")
      ensures goal in buttonToPoint ==> r == Paths(pointToButton.Keys, current, buttonToPoint[goal])
    {
      if goal !in buttonToPoint {
        return Err("called `Option::unwrap()` on a `None` value");
      }
      var candidates := CandidatePaths(current, buttonToPoint[goal]);
      var possible: seq<seq<Direction>> := [];
      for k := 0 to |candidates|
        invariant FilterPossible(pointToButton.Keys, current, candidates[..k]) == Ok(possible)
      {
        assert candidates[..k + 1][..k] == candidates[..k];
        var ok := IsPossiblePath(candidates[k]);
        if ok.Err? {
          FilterPrefixErr(pointToButton.Keys, current, candidates, k + 1);
          return Err(ok.error);
        }
        if ok.value {
          possible := possible + [candidates[k]];
        }
      }
      assert candidates[..|candidates|] == candidates;
      r := Ok(possible);
    }

    /** `move_to`: the arm goes to the target button; a missing one panics. */
    method MoveTo(target: T) returns (r: Result<()>)
      modifies this
      ensures pointToButton == old(pointToButton) && buttonToPoint == old(buttonToPoint)
      ensures r.Ok? <==> target in buttonToPoint
      ensures r.Ok? ==> current == buttonToPoint[target]
      ensures r.Err? ==> current == old(current)
    {
      if target !in buttonToPoint {
        return Err("called `Option::unwrap()` on a `None` value");
      }
      current := buttonToPoint[target];
      r := Ok(());
    }
  }

  /** The numeric keypad: 7 8 9 / 4 5 6 / 1 2 3 / gap 0 A. */
  function NumericLayout(): map<Point, NumericButton>
  {
    map[Point(0, 0) := Number(7), Point(0, 1) := Number(8), Point(0, 2) := Number(9),
        Point(1, 0) := Number(4), Point(1, 1) := Number(5), Point(1, 2) := Number(6),
        Point(2, 0) := Number(1), Point(2, 1) := Number(2), Point(2, 2) := Number(3),
        Point(3, 1) := Number(0), Point(3, 2) := NumericButton.Activate]
  }

  /** The directional keypad: gap ^ A / < v >. */
  function DirectionalLayout(): map<Point, DirectionalButton>
  {
    map[Point(0, 1) := Arrow(Up), Point(0, 2) := DirectionalButton.Activate,
        Point(1, 0) := Arrow(Left), Point(1, 1) := Arrow(Down), Point(1, 2) := Arrow(Right)]
  }

  /** Where each directional button sits. */
  function DirectionalPoint(b: DirectionalButton): (p: Point)
    ensures p in DirectionalLayout() && DirectionalLayout()[p] == b
  {
    match b
    case Arrow(Up) => Point(0, 1)
    case Activate => Point(0, 2)
    case Arrow(Left) => Point(1, 0)
    case Arrow(Down) => Point(1, 1)
    case Arrow(Right) => Point(1, 2)
  }

  /** A digit key or A. */
  predicate IsNumericKey(b: NumericButton)
  {
    b.Number? ==> b.number <= 9
  }

  /** Where each numeric button sits. */
  function NumericPoint(b: NumericButton): (p: Point)
    requires IsNumericKey(b)
    ensures p in NumericLayout() && NumericLayout()[p] == b
  {
    if b.Activate? then Point(3, 2)
    else if b.number == 0 then Point(3, 1)
    else Point(2 - (b.number - 1) / 3, (b.number - 1) % 3)
  }

  /** The reverse map of the directional keypad is `DirectionalPoint`. */
  lemma DirectionalInverse(inverse: map<DirectionalButton, Point>)
    requires InverseOf(DirectionalLayout(), inverse)
    ensures forall b :: b in inverse && inverse[b] == DirectionalPoint(b)
  {
    forall b
      ensures b in inverse && inverse[b] == DirectionalPoint(b)
    {
      assert DirectionalPoint(b) in DirectionalLayout();
    }
  }

  /** The reverse map of the numeric keypad is `NumericPoint`, and it knows
    exactly the digits and A. */
  lemma NumericInverse(inverse: map<NumericButton, Point>)
    requires InverseOf(NumericLayout(), inverse)
    ensures forall b :: b in inverse <==> IsNumericKey(b)
    ensures forall b :: IsNumericKey(b) ==> inverse[b] == NumericPoint(b)
  {
    forall b | IsNumericKey(b)
      ensures b in inverse && inverse[b] == NumericPoint(b)
    {
      assert NumericPoint(b) in NumericLayout();
    }
    forall b | b in inverse
      ensures IsNumericKey(b)
    {
      assert inverse[b] in NumericLayout();
    }
  }

  /** Between any two directional buttons `paths_to` finds a path. */
  lemma DirectionalPathsExist(a: DirectionalButton, b: DirectionalButton)
    ensures var r := Paths(DirectionalLayout().Keys, DirectionalPoint(a), DirectionalPoint(b));
      r.Ok? && |r.value| >= 1
  {
    assert RectangleWithoutCorner(DirectionalLayout().Keys, 2, 3, Point(0, 0));
    CornerGapLeavesPath(DirectionalLayout().Keys, 2, 3, Point(0, 0), DirectionalPoint(a), DirectionalPoint(b));
  }

  /** The numeric keypad is a 4 by 3 rectangle without its lower left
    corner. */
  lemma NumericShape()
    ensures RectangleWithoutCorner(NumericLayout().Keys, 4, 3, Point(3, 0))
  {
    forall p: Point | p.row < 4 && p.col < 3 && p != Point(3, 0)
      ensures p in NumericLayout().Keys
    {
      assert p.row == 0 || p.row == 1 || p.row == 2 || p.row == 3;
    }
  }

  /** Between any two numeric keys `paths_to` finds a path. */
  lemma NumericPathsExist(a: NumericButton, b: NumericButton)
    requires IsNumericKey(a) && IsNumericKey(b)
    ensures var r := Paths(NumericLayout().Keys, NumericPoint(a), NumericPoint(b));
      r.Ok? && |r.value| >= 1
  {
    NumericShape();
    CornerGapLeavesPath(NumericLayout().Keys, 4, 3, Point(3, 0), NumericPoint(a), NumericPoint(b));
  }

  /** `numerical_keypad`: the arm starts over A at (3,2). */
  method NumericalKeypad() returns (k: Keypad<NumericButton>)
    ensures fresh(k) && k.Valid() && k.pointToButton == NumericLayout()
    ensures k.current == Point(3, 2) && k.pointToButton[k.current] == NumericButton.Activate
  {
    k := new Keypad(NumericLayout(), Point(3, 2));
  }

  /** `directional_keypad`: the arm starts over A at (0,2). */
  method DirectionalKeypad() returns (k: Keypad<DirectionalButton>)
    ensures fresh(k) && k.Valid() && k.pointToButton == DirectionalLayout()
    ensures k.current == Point(0, 2) && k.pointToButton[k.current] == DirectionalButton.Activate
  {
    k := new Keypad(DirectionalLayout(), Point(0, 2));
  }
}
