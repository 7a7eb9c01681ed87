/** The turn-cost maze (rust/16): points and directions (utils.rs), the maze
  grid (maze.rs) and the edge costs handed to the path search (main.rs). */
module ReindeerMaze {
  import opened Wrappers

  datatype Point = Point(row: nat, col: nat)

  datatype Direction = Up | Right | Down | Left

  function Opposite(d: Direction): Direction
  {
    match d
    case Up => Down
    case Down => Up
    case Right => Left
    case Left => Right
  }

  function Dist(x: nat, y: nat): nat
  {
    if x <= y then y - x else x - y
  }

  /** The points one step away; coordinates are `usize`, so never negative. */
  predicate Adjacent(p: Point, q: Point)
  {
    Dist(p.row, q.row) + Dist(p.col, q.col) == 1
  }

  /** `Point::neighbours`: down and right always, up and left unless that
    would underflow. */
  function Neighbours(p: Point): (r: seq<Point>)
    ensures 2 <= |r| <= 4
    ensures forall q :: q in r <==> Adjacent(p, q)
  {
    var down := Point(p.row + 1, p.col);
    var right := Point(p.row, p.col + 1);
    var up := if p.row > 0 then [Point(p.row - 1, p.col)] else [];
    var left := if p.col > 0 then [Point(p.row, p.col - 1)] else [];
    [down, right] + up + left
  }

  /** `Point::direction_to`: the direction of a straight move, if any. */
  function DirectionTo(from: Point, to: Point): (r: Option<Direction>)
    ensures r.None? <==> from == to || (from.row != to.row && from.col != to.col)
  {
    if from.row < to.row && from.col == to.col then Some(Down)
    else if from.row > to.row && from.col == to.col then Some(Up)
    else if from.row == to.row && from.col < to.col then Some(Right)
    else if from.row == to.row && from.col > to.col then Some(Left)
    else None
  }

  /** The direction back is the opposite one. */
  lemma DirectionToReversed(p: Point, q: Point)
    requires DirectionTo(p, q).Some?
    ensures DirectionTo(q, p) == Some(Opposite(DirectionTo(p, q).value))
  {
  }

  /** A neighbour always lies in a straight direction. */
  lemma AdjacentDirection(p: Point, q: Point)
    requires Adjacent(p, q)
    ensures DirectionTo(p, q).Some?
  {
  }

  /** `calculate_turning_costs`: a missing direction counts as Right. */
  function TurnCost(current: Option<Direction>, next: Direction): (r: nat)
    ensures r == 0 || r == 1000 || r == 2000
  {
    var d := if current.Some? then current.value else Right;
    if d == next then 0 else if Opposite(d) == next then 2000 else 1000
  }

  /** 0 for no turn, 2000 for a reversal, 1000 for a quarter turn; an unknown
    direction is Right. */
  lemma TurnCostTable(d: Direction, e: Direction)
    ensures TurnCost(Some(d), e) == 0 <==> d == e
    ensures TurnCost(Some(d), e) == 2000 <==> e == Opposite(d)
    ensures TurnCost(Some(d), e) == 1000 <==> d != e && e != Opposite(d)
    ensures TurnCost(None, e) == TurnCost(Some(Right), e)
  {
  }

  lemma TurnCostSymmetric(d: Direction, e: Direction)
    ensures TurnCost(Some(d), e) == TurnCost(Some(e), d)
  {
  }

  /** The turn table as written in the source, entry by entry. */
  lemma TurnCostEntries()
    ensures TurnCost(Some(Up), Right) == 1000 && TurnCost(Some(Up), Down) == 2000
    ensures TurnCost(Some(Right), Left) == 2000 && TurnCost(Some(Down), Left) == 1000
    ensures TurnCost(Some(Left), Left) == 0 && TurnCost(None, Left) == 2000
  {
  }

  datatype Field = Wall | Space

  datatype Maze = Maze(inner: seq<seq<Field>>, height: nat, width: nat)

  /** `Maze::new`: the height is the number of rows and the width the length
    of the first row; an empty map is refused. */
  function NewMaze(rows: seq<seq<Field>>): (r: Result<Maze>)
    ensures r.Ok? <==> |rows| > 0
    ensures r.Ok? ==> r.value.inner == rows && r.value.height == |rows| && r.value.width == |rows[0]|
  {
    if |rows| == 0 then Err("Maze should not be empty") else Ok(Maze(rows, |rows|, |rows[0]|))
  }

  predicate InRange(m: Maze, p: Point)
  {
    p.row < m.height && p.col < m.width
  }

  /** `is_walkable`; indexing a row shorter than the first one panics. */
  function IsWalkable(m: Maze, p: Point): (r: Result<bool>)
    ensures r == Ok(true) ==> InRange(m, p)
    ensures r.Err? <==> InRange(m, p) && !(p.row < |m.inner| && p.col < |m.inner[p.row]|)
    ensures r.Ok? ==> (r.value <==> InRange(m, p) && m.inner[p.row][p.col] == Space)
  {
    if !InRange(m, p) then Ok(false)
    else if p.row < |m.inner| && p.col < |m.inner[p.row]| then Ok(m.inner[p.row][p.col] == Space)
    else Err("index out of bounds")
  }

  /** A node of the search: the current point and where it was entered from. */
  datatype Step = Step(previous: Option<Point>, current: Point)

  /** The walkable points among `ps`, in order. */
  function WalkableAmong(m: Maze, ps: seq<Point>): (r: Result<seq<Point>>)
    ensures r.Err? <==> exists k :: 0 <= k < |ps| && IsWalkable(m, ps[k]).Err?
    ensures r.Ok? ==> forall q :: q in r.value <==> q in ps && IsWalkable(m, q) == Ok(true)
    ensures r.Ok? ==> forall k :: 0 <= k < |r.value| ==> r.value[k] in ps
  {
    if |ps| == 0 then Ok([])
    else
      var rest := WalkableAmong(m, ps[1..]);
      var here := IsWalkable(m, ps[0]);
      if here.Err? then Err(here.error)
      else if rest.Err? then rest
      else if here.value then Ok([ps[0]] + rest.value)
      else rest
  }

  /** The edge cost of one move: 1 plus the turn, so 1, 1001 or 2001. */
  predicate EdgeCost(cost: nat)
  {
    cost == 1 || cost == 1001 || cost == 2001
  }

  /** The search edges from `from` to each of `targets`, in order. */
  function Edges(from: Point, arrival: Option<Direction>, targets: seq<Point>): (r: seq<(Step, nat)>)
    requires forall q :: q in targets ==> Adjacent(from, q)
    ensures |r| == |targets|
    ensures forall k :: 0 <= k < |r| ==> r[k].0 == Step(Some(from), targets[k]) && EdgeCost(r[k].1)
    ensures forall k :: 0 <= k < |r| ==>
      DirectionTo(from, targets[k]).Some? && r[k].1 == 1 + TurnCost(arrival, DirectionTo(from, targets[k]).value)
  {
    if |targets| == 0 then []
    else
      assert targets[0] in targets;
      AdjacentDirection(from, targets[0]);
      var cost := 1 + TurnCost(arrival, DirectionTo(from, targets[0]).value);
      [(Step(Some(from), targets[0]), cost)] + Edges(from, arrival, targets[1..])
  }

  /** The direction the search node was entered in, `None` at the start. */
  function Arrival(step: Step): Option<Direction>
  {
    if step.previous.Some? then DirectionTo(step.previous.value, step.current) else None
  }

  /** `successors`: each walkable neighbour, entered from the current point,
    with cost 1 plus the turn cost from the direction of arrival. */
  function Successors(m: Maze, step: Step): (r: Result<seq<(Step, nat)>>)
    ensures r.Ok? ==> forall k :: 0 <= k < |r.value| ==>
      r.value[k].0.previous == Some(step.current) && Adjacent(step.current, r.value[k].0.current) &&
      IsWalkable(m, r.value[k].0.current) == Ok(true) && EdgeCost(r.value[k].1)
    ensures r.Ok? ==> forall k :: 0 <= k < |r.value| ==>
      DirectionTo(step.current, r.value[k].0.current).Some? &&
      r.value[k].1 == 1 + TurnCost(Arrival(step), DirectionTo(step.current, r.value[k].0.current).value)
    ensures r.Ok? ==> WalkableAmong(m, Neighbours(step.current)).Ok?
    ensures r.Ok? ==> |r.value| == |WalkableAmong(m, Neighbours(step.current)).value|
    ensures r.Ok? ==> forall k :: 0 <= k < |r.value| ==> r.value[k].0.current == WalkableAmong(m, Neighbours(step.current)).value[k]
    ensures r.Err? <==>
      WalkableAmong(m, Neighbours(step.current)).Err? ||
      (step.previous.Some? && DirectionTo(step.previous.value, step.current).None?)
  {
    var walkable := WalkableAmong(m, Neighbours(step.current));
    if walkable.Err? then Err(walkable.error)
    else if step.previous.Some? && DirectionTo(step.previous.value, step.current).None? then
      Result<seq<(Step, nat)>>.Err("Could not compute direction between fields")
    else
      Ok(Edges(step.current, Arrival(step), walkable.value))
  }

  /** Every walkable neighbour is a successor. */
  lemma SuccessorsComplete(m: Maze, step: Step, q: Point)
    requires Successors(m, step).Ok?
    requires Adjacent(step.current, q) && IsWalkable(m, q) == Ok(true)
    ensures exists k :: 0 <= k < |Successors(m, step).value| && Successors(m, step).value[k].0.current == q
  {
    var ns := WalkableAmong(m, Neighbours(step.current)).value;
    assert q in ns;
    var k :| 0 <= k < |ns| && ns[k] == q;
    assert Successors(m, step).value[k].0.current == q;
  }
}
