/** The robot simulation of java/14 (Simulation.java): robots move with a
  fixed velocity on a grid whose edges wrap around, any number of seconds at
  once, forwards or backwards, and a map counts the robots on every cell. */
module RobotSimulation {
  import opened RobotArithmetic

  /** `Point`: `x` is the column, `y` the row. */
  datatype Point = Point(x: int, y: int)

  datatype Vector = Vector(x: int, y: int)

  datatype Robot = Robot(position: Point, velocity: Vector)

  predicate InGrid(p: Point, width: int, height: int)
  {
    0 <= p.x < width && 0 <= p.y < height
  }

  predicate AllInGrid(robots: seq<Robot>, width: int, height: int)
  {
    forall i :: 0 <= i < |robots| ==> InGrid(robots[i].position, width, height)
  }

  /** The private `fastForward(robot, seconds)`: the position after
    `seconds` steps of the velocity, wrapped into the grid by `posMod`. */
  function Advance(robot: Robot, seconds: int, width: int, height: int): (r: Robot)
    requires width != 0 && height != 0
    ensures r.velocity == robot.velocity
    ensures width > 0 && height > 0 ==> InGrid(r.position, width, height)
  {
    Robot(Point(PosMod(robot.position.x + seconds * robot.velocity.x, width),
                PosMod(robot.position.y + seconds * robot.velocity.y, height)),
          robot.velocity)
  }

  /** Every robot advanced by the same number of seconds. */
  function AdvanceAll(robots: seq<Robot>, seconds: int, width: int, height: int): (r: seq<Robot>)
    requires width != 0 && height != 0
    ensures |r| == |robots|
  {
    seq(|robots|, i requires 0 <= i < |robots| => Advance(robots[i], seconds, width, height))
  }

  /** After any move a robot is on the grid and keeps its velocity. */
  lemma AdvanceInGrid(robot: Robot, seconds: int, width: int, height: int)
    requires width > 0 && height > 0
    ensures InGrid(Advance(robot, seconds, width, height).position, width, height)
    ensures Advance(robot, seconds, width, height).velocity == robot.velocity
  {
    PosModIsMod(robot.position.x + seconds * robot.velocity.x, width);
    PosModIsMod(robot.position.y + seconds * robot.velocity.y, height);
  }

  /** Moving `a` seconds, then `b` more, wraps the sum of the two moves. */
  lemma WrapTwice(x: int, a: int, b: int, v: int, w: int)
    requires w > 0
    ensures PosMod(PosMod(x + a * v, w) + b * v, w) == PosMod(x + (a + b) * v, w)
  {
    PosModIsMod(x + a * v, w);
    PosModIsMod(PosMod(x + a * v, w) + b * v, w);
    PosModIsMod(x + (a + b) * v, w);
    ModShift(x + a * v, b * v, w);
    assert (a + b) * v == a * v + b * v;
  }

  /** `fastForward(a)` then `fastForward(b)` is `fastForward(a + b)`. */
  lemma AdvanceAdds(robot: Robot, a: int, b: int, width: int, height: int)
    requires width > 0 && height > 0
    ensures Advance(Advance(robot, a, width, height), b, width, height) == Advance(robot, a + b, width, height)
  {
    WrapTwice(robot.position.x, a, b, robot.velocity.x, width);
    WrapTwice(robot.position.y, a, b, robot.velocity.y, height);
  }

  /** Going back as many seconds as forward returns a robot that started on
    the grid to where it was. */
  lemma RewindRestores(robot: Robot, seconds: int, width: int, height: int)
    requires width > 0 && height > 0 && InGrid(robot.position, width, height)
    ensures Advance(Advance(robot, seconds, width, height), -seconds, width, height) == robot
  {
    AdvanceAdds(robot, seconds, -seconds, width, height);
    PosModIsMod(robot.position.x, width);
    PosModIsMod(robot.position.y, height);
    ModOfInRange(robot.position.x, width);
    ModOfInRange(robot.position.y, height);
  }

  lemma AdvanceAllAdds(robots: seq<Robot>, a: int, b: int, width: int, height: int)
    requires width > 0 && height > 0
    ensures AdvanceAll(AdvanceAll(robots, a, width, height), b, width, height) == AdvanceAll(robots, a + b, width, height)
  {
    forall i | 0 <= i < |robots|
      ensures AdvanceAll(AdvanceAll(robots, a, width, height), b, width, height)[i] == AdvanceAll(robots, a + b, width, height)[i]
    {
      AdvanceAdds(robots[i], a, b, width, height);
    }
  }

  lemma RewindAllRestores(robots: seq<Robot>, seconds: int, width: int, height: int)
    requires width > 0 && height > 0 && AllInGrid(robots, width, height)
    ensures AdvanceAll(AdvanceAll(robots, seconds, width, height), -seconds, width, height) == robots
  {
    forall i | 0 <= i < |robots|
      ensures AdvanceAll(AdvanceAll(robots, seconds, width, height), -seconds, width, height)[i] == robots[i]
    {
      RewindRestores(robots[i], seconds, width, height);
    }
  }

  lemma AdvanceAllInGrid(robots: seq<Robot>, seconds: int, width: int, height: int)
    requires width > 0 && height > 0
    ensures AllInGrid(AdvanceAll(robots, seconds, width, height), width, height)
  {
    forall i | 0 <= i < |robots|
      ensures InGrid(AdvanceAll(robots, seconds, width, height)[i].position, width, height)
    {
      AdvanceInGrid(robots[i], seconds, width, height);
    }
  }

  /** How many robots stand on `p`. */
  function CountAt(robots: seq<Robot>, p: Point): nat
  {
    if robots == [] then 0
    else CountAt(robots[..|robots| - 1], p) + (if robots[|robots| - 1].position == p then 1 else 0)
  }

  /** A grid of `height` rows of `width` cells. */
  predicate Shaped(grid: seq<seq<int>>, width: nat, height: nat)
  {
    |grid| == height && forall r :: 0 <= r < height ==> |grid[r]| == width
  }

  function ZeroRow(width: nat): seq<int>
  {
    seq(width, _ => 0)
  }

  function ZeroGrid(width: nat, height: nat): seq<seq<int>>
  {
    seq(height, _ => ZeroRow(width))
  }

  /** One more robot on the cell at `p`. */
  function Increment(grid: seq<seq<int>>, p: Point): seq<seq<int>>
    requires 0 <= p.y < |grid| && 0 <= p.x < |grid[p.y]|
  {
    grid[p.y := grid[p.y][p.x := grid[p.y][p.x] + 1]]
  }

  /** The map after counting the robots in order. */
  function Counts(robots: seq<Robot>, width: nat, height: nat): (grid: seq<seq<int>>)
    requires AllInGrid(robots, width, height)
    ensures Shaped(grid, width, height)
  {
    if robots == [] then ZeroGrid(width, height)
    else Increment(Counts(robots[..|robots| - 1], width, height), robots[|robots| - 1].position)
  }

  /** Every cell of the counted map holds the number of robots on it. */
  lemma {:induction false} CountsCells(robots: seq<Robot>, width: nat, height: nat, p: Point)
    requires AllInGrid(robots, width, height) && InGrid(p, width, height)
    ensures Counts(robots, width, height)[p.y][p.x] == CountAt(robots, p)
  {
    if robots != [] {
      CountsCells(robots[..|robots| - 1], width, height, p);
    }
  }

  function SumRow(row: seq<int>): int
  {
    if row == [] then 0 else SumRow(row[..|row| - 1]) + row[|row| - 1]
  }

  function SumGrid(grid: seq<seq<int>>): int
  {
    if grid == [] then 0 else SumGrid(grid[..|grid| - 1]) + SumRow(grid[|grid| - 1])
  }

  lemma {:induction false} SumRowUpdate(row: seq<int>, i: int, v: int)
    requires 0 <= i < |row|
    ensures SumRow(row[i := v]) == SumRow(row) - row[i] + v
  {
    var front := row[..|row| - 1];
    if i < |row| - 1 {
      assert row[i := v][..|row| - 1] == front[i := v];
      SumRowUpdate(front, i, v);
    } else {
      assert row[i := v][..|row| - 1] == front;
    }
  }

  lemma {:induction false} SumGridUpdate(grid: seq<seq<int>>, i: int, row: seq<int>)
    requires 0 <= i < |grid|
    ensures SumGrid(grid[i := row]) == SumGrid(grid) - SumRow(grid[i]) + SumRow(row)
  {
    var front := grid[..|grid| - 1];
    if i < |grid| - 1 {
      assert grid[i := row][..|grid| - 1] == front[i := row];
      SumGridUpdate(front, i, row);
    } else {
      assert grid[i := row][..|grid| - 1] == front;
    }
  }

  lemma {:induction false} SumZeroRow(width: nat)
    ensures SumRow(ZeroRow(width)) == 0
  {
    if width > 0 {
      assert ZeroRow(width)[..width - 1] == ZeroRow(width - 1);
      SumZeroRow(width - 1);
    }
  }

  lemma {:induction false} SumZeroGrid(width: nat, height: nat)
    ensures SumGrid(ZeroGrid(width, height)) == 0
  {
    if height > 0 {
      assert ZeroGrid(width, height)[..height - 1] == ZeroGrid(width, height - 1);
      SumZeroGrid(width, height - 1);
      SumZeroRow(width);
    }
  }

  /** The counts of the map add up to the number of robots. */
  lemma {:induction false} CountsSum(robots: seq<Robot>, width: nat, height: nat)
    requires AllInGrid(robots, width, height)
    ensures SumGrid(Counts(robots, width, height)) == |robots|
  {
    if robots == [] {
      SumZeroGrid(width, height);
    } else {
      var front := robots[..|robots| - 1];
      var p := robots[|robots| - 1].position;
      var grid := Counts(front, width, height);
      CountsSum(front, width, height);
      SumRowUpdate(grid[p.y], p.x, grid[p.y][p.x] + 1);
      SumGridUpdate(grid, p.y, grid[p.y][p.x := grid[p.y][p.x] + 1]);
    }
  }

  /** `Simulation`: the grid's size and the robots, which `fastForward` and
    `rewind` replace. */
  class Simulation {
    const height: int
    const width: int
    var robots: seq<Robot>

    constructor(height: int, width: int, robots: seq<Robot>)
      ensures this.height == height && this.width == width && this.robots == robots
    {
      this.height := height;
      this.width := width;
      this.robots := robots;
    }

    /** `fastForward`: every robot, in place, `seconds` further. */
    method FastForward(seconds: int)
      requires width != 0 && height != 0
      modifies this
      ensures robots == AdvanceAll(old(robots), seconds, width, height)
    {
      for i := 0 to |robots|
        invariant |robots| == |old(robots)|
        invariant forall j :: 0 <= j < i ==> robots[j] == Advance(old(robots)[j], seconds, width, height)
        invariant forall j :: i <= j < |robots| ==> robots[j] == old(robots)[j]
      {
        robots := robots[i := Advance(robots[i], seconds, width, height)];
      }
    }

    /** `rewind`: every robot `seconds` back. */
    method Rewind(seconds: int)
      requires width != 0 && height != 0
      modifies this
      ensures robots == AdvanceAll(old(robots), -seconds, width, height)
    {
      FastForward(-seconds);
    }

    /** `currentMap`: `height` rows of `width` zeros, then one more on the
      cell of each robot. Every cell holds the number of robots on it, and
      the cells add up to the number of robots. */
    method CurrentMap() returns (grid: seq<seq<int>>)
      requires width >= 0 && height >= 0 && AllInGrid(robots, width, height)
      ensures Shaped(grid, width, height)
      ensures forall y, x :: 0 <= y < height && 0 <= x < width ==> grid[y][x] == CountAt(robots, Point(x, y))
      ensures SumGrid(grid) == |robots|
    {
      grid := [];
      for row := 0 to height
        invariant grid == ZeroGrid(width, row)
      {
        grid := grid + [ZeroRow(width)];
      }
      for k := 0 to |robots|
        invariant grid == Counts(robots[..k], width, height)
      {
        var x := robots[k].position.x;
        var y := robots[k].position.y;
        assert robots[..k + 1][..k] == robots[..k];
        grid := grid[y := grid[y][x := 1 + grid[y][x]]];
      }
      assert robots[..|robots|] == robots;
      forall y, x | 0 <= y < height && 0 <= x < width
        ensures grid[y][x] == CountAt(robots, Point(x, y))
      {
        CountsCells(robots, width, height, Point(x, y));
      }
      CountsSum(robots, width, height);
    }
  }
}
