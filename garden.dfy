/** The garden plots of java/12: points and vectors on the grid, the four
  sides of a plot, a region of plots, and the wall pieces along a region's
  free sides. */
module Garden {
  datatype Point = Point(row: int, col: int)

  datatype Vector = Vector(row: int, col: int)

  function Add(p: Point, v: Vector): Point
  {
    Point(p.row + v.row, p.col + v.col)
  }

  function Subtract(p: Point, v: Vector): Point
  {
    Point(p.row - v.row, p.col - v.col)
  }

  function Inverse(v: Vector): Vector
  {
    Vector(-v.row, -v.col)
  }

  /** Two points one step apart along a row or a column. */
  predicate Adjacent(p: Point, q: Point)
  {
    (q.row == p.row && (q.col == p.col + 1 || q.col == p.col - 1)) ||
    (q.col == p.col && (q.row == p.row + 1 || q.row == p.row - 1))
  }

  /** `directNeighbours`: below, above, right, left; these are exactly the
    points adjacent to `p`. */
  function DirectNeighbours(p: Point): (r: seq<Point>)
    ensures |r| == 4
    ensures forall q :: q in r <==> Adjacent(p, q)
  {
    [Point(p.row + 1, p.col), Point(p.row - 1, p.col), Point(p.row, p.col + 1), Point(p.row, p.col - 1)]
  }

  /** `isInSquareRange`: inside the rectangle from `start` to `end`, both
    corners included. */
  predicate IsInSquareRange(p: Point, start: Point, end: Point)
  {
    start.row <= p.row <= end.row && start.col <= p.col <= end.col
  }

  /** The side of a plot a wall piece stands on. */
  datatype Side = Top | Right | Bottom | Left

  /** `Vector.from`: the direction along a wall on that side; `Top` runs
    right, `Right` runs down, `Bottom` left and `Left` up. */
  function Along(side: Side): Vector
  {
    match side
    case Top => Vector(0, 1)
    case Right => Vector(1, 0)
    case Bottom => Vector(0, -1)
    case Left => Vector(-1, 0)
  }

  /** A region: its plant and its plots. */
  datatype Region<T> = Region(value: T, points: set<Point>)
  {
    /** `area`: the number of plots. */
    function Area(): nat
    {
      |points|
    }
  }

  /** One side of one plot that has no plot of the region behind it. */
  datatype WallPiece = WallPiece(point: Point, side: Side)

  /** A straight wall from `start` to `end` on one side. */
  datatype Wall = Wall(start: Point, end: Point, side: Side)

  /** The plot across `side` of `p`. */
  function Behind(p: Point, side: Side): Point
  {
    match side
    case Top => Point(p.row - 1, p.col)
    case Right => Point(p.row, p.col + 1)
    case Bottom => Point(p.row + 1, p.col)
    case Left => Point(p.row, p.col - 1)
  }

  /** `freeSides`: the sides of `p` whose neighbour is not in `points`. */
  function FreeSides(points: set<Point>, p: Point): (r: set<Side>)
    ensures forall side :: side in r <==> Behind(p, side) !in points
  {
    (if Point(p.row + 1, p.col) !in points then {Bottom} else {}) +
    (if Point(p.row - 1, p.col) !in points then {Top} else {}) +
    (if Point(p.row, p.col + 1) !in points then {Right} else {}) +
    (if Point(p.row, p.col - 1) !in points then {Left} else {})
  }

  /** How many of the four direct neighbours of `p` are in `points`, in the
    order `directNeighbours` lists them. */
  function NeighboursIn(points: set<Point>, p: Point): nat
  {
    var ns := DirectNeighbours(p);
    (if ns[0] in points then 1 else 0) + (if ns[1] in points then 1 else 0) +
    (if ns[2] in points then 1 else 0) + (if ns[3] in points then 1 else 0)
  }

  /** A side is free exactly when its neighbour is missing, so the free sides
    and the neighbours present make four. */
  lemma FreeSidesCount(points: set<Point>, p: Point)
    ensures |FreeSides(points, p)| == 4 - NeighboursIn(points, p)
  {
    var ns := DirectNeighbours(p);
    var b := if ns[0] !in points then {Bottom} else {};
    var t := if ns[1] !in points then {Top} else {};
    var r := if ns[2] !in points then {Right} else {};
    var l := if ns[3] !in points then {Left} else {};
    assert FreeSides(points, p) == b + t + r + l;
    assert |b + t| == |b| + |t|;
    assert |b + t + r| == |b + t| + |r|;
    assert |b + t + r + l| == |b + t + r| + |l|;
  }

  predicate IsPiece(points: set<Point>, w: WallPiece)
  {
    w.point in points && w.side in FreeSides(points, w.point)
  }

  /** The wall pieces of the plots in `done`, free with respect to `points`. */
  function PiecesAt(points: set<Point>, done: set<Point>): set<WallPiece>
  {
    set p, s | p in done && s in FreeSides(points, p) :: WallPiece(p, s)
  }

  /** Every wall piece of a region. */
  function FreePieces(points: set<Point>): set<WallPiece>
  {
    PiecesAt(points, points)
  }

  lemma FreePiecesMembers(points: set<Point>, w: WallPiece)
    ensures w in FreePieces(points) <==> IsPiece(points, w)
  {
  }

  /** Where a point lies along a wall on `side`: a line number across the
    wall's direction and a position that grows by one per step along it. */
  function Line(side: Side, p: Point): int
  {
    match side
    case Top => p.row
    case Bottom => p.row
    case Right => p.col
    case Left => p.col
  }

  function Pos(side: Side, p: Point): int
  {
    match side
    case Top => p.col
    case Right => p.row
    case Bottom => -p.col
    case Left => -p.row
  }

  function PointAt(side: Side, line: int, pos: int): Point
  {
    match side
    case Top => Point(line, pos)
    case Right => Point(pos, line)
    case Bottom => Point(line, -pos)
    case Left => Point(-pos, line)
  }

  function PieceAt(side: Side, line: int, pos: int): WallPiece
  {
    WallPiece(PointAt(side, line, pos), side)
  }

  /** Line and position name a point exactly, and a step along the wall's
    direction moves one position forward on the same line. */
  lemma Coordinates(side: Side, p: Point)
    ensures PointAt(side, Line(side, p), Pos(side, p)) == p
    ensures Line(side, PointAt(side, Line(side, p), Pos(side, p) + 1)) == Line(side, p)
    ensures Add(p, Along(side)) == PointAt(side, Line(side, p), Pos(side, p) + 1)
    ensures Subtract(p, Along(side)) == PointAt(side, Line(side, p), Pos(side, p) - 1)
    ensures Add(p, Inverse(Along(side))) == PointAt(side, Line(side, p), Pos(side, p) - 1)
    ensures Subtract(p, Inverse(Along(side))) == PointAt(side, Line(side, p), Pos(side, p) + 1)
  {
  }

  lemma PointAtCoordinates(side: Side, line: int, pos: int)
    ensures Line(side, PointAt(side, line, pos)) == line
    ensures Pos(side, PointAt(side, line, pos)) == pos
  {
  }

  /** A piece with no piece of the same side right before it: where a side
    of the region begins. */
  predicate IsStart(points: set<Point>, w: WallPiece)
  {
    IsPiece(points, w) && !IsPiece(points, PieceAt(w.side, Line(w.side, w.point), Pos(w.side, w.point) - 1))
  }

  /** The pieces of `pieces` where a side begins. */
  function StartsIn(points: set<Point>, pieces: set<WallPiece>): set<WallPiece>
  {
    set w | w in pieces && IsStart(points, w)
  }

  /** The number of sides of a region: the pieces where a side begins. */
  function Sides(points: set<Point>): nat
  {
    |StartsIn(points, FreePieces(points))|
  }

  /** Both coordinates of `p` lie within `b` of the origin. */
  predicate InBox(p: Point, b: int)
  {
    -b <= p.row <= b && -b <= p.col <= b
  }

  /** A bound on the coordinates of a finite set of points. */
  lemma {:induction false} Bound(points: set<Point>) returns (b: int)
    ensures b >= 0
    ensures forall p {:trigger InBox(p, b)} :: p in points ==> InBox(p, b)
    decreases |points|
  {
    if points == {} {
      b := 0;
    } else {
      var x :| x in points;
      var b' := Bound(points - {x});
      b := b';
      if x.row > b { b := x.row; }
      if -x.row > b { b := -x.row; }
      if x.col > b { b := x.col; }
      if -x.col > b { b := -x.col; }
      forall p | p in points
        ensures InBox(p, b)
      {
        if p != x {
          assert InBox(p, b');
        }
      }
    }
  }

  /** Positions along any side are bounded by a coordinate bound. */
  lemma PosBound(side: Side, p: Point, b: int)
    requires InBox(p, b)
    ensures -b <= Pos(side, p) <= b
  {
  }
}
