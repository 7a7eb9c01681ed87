/** The patrolling guard of java/6 (Guard.java): before each step the guard
  turns right until the cell ahead is not an obstacle, then moves there. */
module Guards {
  datatype Point = Point(row: int, col: int)

  datatype Vector = Vector(row: int, col: int)

  function Add(p: Point, v: Vector): Point
  {
    Point(p.row + v.row, p.col + v.col)
  }

  /** `Vector.turnRight`: a quarter turn clockwise on the grid, rows growing
    downwards. */
  function TurnRight(v: Vector): (r: Vector)
    ensures v == Vector(-1, 0) ==> r == Vector(0, 1)
    ensures v == Vector(0, 1) ==> r == Vector(1, 0)
    ensures v == Vector(1, 0) ==> r == Vector(0, -1)
    ensures v == Vector(0, -1) ==> r == Vector(-1, 0)
  {
    Vector(v.col, -v.row)
  }

  /** `k` quarter turns. */
  function Turned(v: Vector, k: nat): Vector
  {
    if k == 0 then v else TurnRight(Turned(v, k - 1))
  }

  /** Facing up, a right turn faces right; four turns face where the guard
    started. */
  lemma TurnRightFacts(v: Vector)
    ensures TurnRight(Vector(-1, 0)) == Vector(0, 1)
    ensures Turned(v, 4) == v
  {
    TurnedValues(v);
  }

  /** The first four turns written out. */
  lemma TurnedValues(v: Vector)
    ensures Turned(v, 1) == TurnRight(v)
    ensures Turned(v, 2) == TurnRight(TurnRight(v))
    ensures Turned(v, 3) == TurnRight(TurnRight(TurnRight(v)))
    ensures Turned(v, 4) == v
  {
    assert Turned(v, 1) == TurnRight(Turned(v, 0));
    assert Turned(v, 2) == TurnRight(Turned(v, 1));
    assert Turned(v, 3) == TurnRight(Turned(v, 2));
    assert Turned(v, 4) == TurnRight(Turned(v, 3));
  }

  /** `Area`: a rectangle of cells, `true` where an obstacle stands. */
  datatype Area = Area(cells: seq<seq<bool>>)
  {
    function Height(): nat
    {
      |cells|
    }

    /** `width`: the first row's length, or zero without rows. */
    function Width(): nat
    {
      if Height() == 0 then 0 else |cells[0]|
    }

    /** All rows as long as the first, as the constructor makes them. */
    predicate Valid()
    {
      forall r :: 0 <= r < |cells| ==> |cells[r]| == Width()
    }

    predicate InRange(p: Point)
    {
      0 <= p.row < Height() && 0 <= p.col < Width()
    }

    function IsObstacle(p: Point): bool
      requires Valid() && InRange(p)
    {
      cells[p.row][p.col]
    }

    /** The loop condition of `turnBeforeObstacles`: the step in direction
      `d` would run into an obstacle. */
    predicate Blocked(location: Point, d: Vector)
      requires Valid()
    {
      InRange(Add(location, d)) && IsObstacle(Add(location, d))
    }

    /** Some quarter turn of `d` leads to a cell that is not an obstacle;
      otherwise the turning loop never ends. */
    predicate CanMove(location: Point, d: Vector)
      requires Valid()
      ensures CanMove(location, d) <==> exists k :: 0 <= k < 4 && !Blocked(location, Turned(d, k))
    {
      FreeTurn(location, d);
      !Blocked(location, d) || !Blocked(location, TurnRight(d)) ||
      !Blocked(location, TurnRight(TurnRight(d))) || !Blocked(location, TurnRight(TurnRight(TurnRight(d))))
    }

    /** The four turns written out are all the turns up to three. */
    lemma FreeTurn(location: Point, d: Vector)
      requires Valid()
      ensures (!Blocked(location, d) || !Blocked(location, TurnRight(d)) ||
               !Blocked(location, TurnRight(TurnRight(d))) || !Blocked(location, TurnRight(TurnRight(TurnRight(d))))) <==>
              exists k :: 0 <= k < 4 && !Blocked(location, Turned(d, k))
    {
      TurnedValues(d);
      if exists k :: 0 <= k < 4 && !Blocked(location, Turned(d, k)) {
        var k :| 0 <= k < 4 && !Blocked(location, Turned(d, k));
        assert k == 0 || k == 1 || k == 2 || k == 3;
      }
      assert Turned(d, 0) == d;
    }

    /** How many right turns until the way is free. */
    function TurnsNeeded(location: Point, d: Vector): (k: nat)
      requires Valid() && CanMove(location, d)
      ensures k < 4 && !Blocked(location, Turned(d, k))
      ensures forall j :: 0 <= j < k ==> Blocked(location, Turned(d, j))
    {
      TurnedValues(d);
      if !Blocked(location, d) then 0
      else if !Blocked(location, TurnRight(d)) then 1
      else if !Blocked(location, TurnRight(TurnRight(d))) then 2
      else 3
    }

    /** Starting from a blocked direction, the next direction needs one turn
      fewer and the turns end in the same direction. */
    lemma TurnOnce(location: Point, d: Vector)
      requires Valid() && CanMove(location, d) && Blocked(location, d)
      ensures CanMove(location, TurnRight(d))
      ensures TurnsNeeded(location, TurnRight(d)) == TurnsNeeded(location, d) - 1
      ensures Turned(TurnRight(d), TurnsNeeded(location, TurnRight(d))) == Turned(d, TurnsNeeded(location, d))
    {
      TurnedValues(d);
      TurnedValues(TurnRight(d));
    }

    /** When every direction is blocked, no number of turns frees the way:
      the turning loop of `turnBeforeObstacles` never ends. */
    lemma {:induction false} NeverFree(location: Point, d: Vector, k: nat)
      requires Valid() && !CanMove(location, d)
      ensures !CanMove(location, Turned(d, k)) && Blocked(location, Turned(d, k))
    {
      if k > 0 {
        NeverFree(location, d, k - 1);
        TurnedValues(Turned(d, k - 1));
      }
    }
  }

  /** `Guard`: the area it patrols, where it faces and where it stands. */
  class Guard {
    const area: Area
    var direction: Vector
    var location: Point

    constructor(area: Area, direction: Vector, location: Point)
      ensures this.area == area && this.direction == direction && this.location == location
    {
      this.area := area;
      this.direction := direction;
      this.location := location;
    }

    /** `computeMove`: the cell ahead, the one the turning loop tests for
      an obstacle. */
    function ComputeMove(): (r: Point)
      reads this
      ensures area.Valid() ==> (area.Blocked(location, direction) <==> area.InRange(r) && area.IsObstacle(r))
    {
      Add(location, direction)
    }

    /** `step`: turn until the way is free, then move one cell that way. The
      guard ends outside the area or on a cell without an obstacle. */
    method Step()
      requires area.Valid() && area.CanMove(location, direction)
      modifies this
      ensures direction == Turned(old(direction), area.TurnsNeeded(old(location), old(direction)))
      ensures location == Add(old(location), direction)
      ensures area.InRange(location) ==> !area.IsObstacle(location)
    {
      TurnBeforeObstacles();
      location := ComputeMove();
    }

    /** `turnBeforeObstacles`: turn right as long as an obstacle is ahead;
      the guard ends facing the first free direction, clockwise. */
    method TurnBeforeObstacles()
      requires area.Valid() && area.CanMove(location, direction)
      modifies this
      ensures location == old(location)
      ensures direction == Turned(old(direction), area.TurnsNeeded(location, old(direction)))
      ensures !area.Blocked(location, direction)
    {
      var nextPoint := ComputeMove();
      while area.InRange(nextPoint) && area.IsObstacle(nextPoint)
        invariant location == old(location) && nextPoint == ComputeMove()
        invariant area.CanMove(location, direction)
        invariant Turned(direction, area.TurnsNeeded(location, direction)) ==
          Turned(old(direction), area.TurnsNeeded(location, old(direction)))
        decreases area.TurnsNeeded(location, direction)
      {
        area.TurnOnce(location, direction);
        direction := TurnRight(direction);
        nextPoint := ComputeMove();
      }
    }
  }
}
