/** Grid arithmetic of the keypad robots (rust/21/src/utils.rs): directions,
  signed offsets and unsigned points. */
module KeypadUtils {
  import opened Wrappers

  datatype Direction = Up | Right | Down | Left

  datatype Offset = Offset(row: int, col: int)

  datatype Point = Point(row: nat, col: nat)

  /** A move split into its horizontal and vertical parts. */
  datatype Direction2D = Direction2D(horizontal: Option<Direction>, vertical: Option<Direction>)

  /** `Direction::to_offset`: Up and Down move the row, Left and Right the
    column, by one. */
  function ToOffset(d: Direction): (o: Offset)
    ensures (o.row == 0) != (o.col == 0)
    ensures -1 <= o.row <= 1 && -1 <= o.col <= 1
  {
    match d
    case Up => Offset(-1, 0)
    case Right => Offset(0, 1)
    case Down => Offset(1, 0)
    case Left => Offset(0, -1)
  }

  /** Adding an offset to a point; None where a coordinate would go below 0. */
  function AddOffset(p: Point, o: Offset): (r: Option<Point>)
    ensures r.Some? <==> p.row + o.row >= 0 && p.col + o.col >= 0
    ensures r.Some? ==> r.value.row == p.row + o.row && r.value.col == p.col + o.col
  {
    if p.row + o.row >= 0 && p.col + o.col >= 0 then Some(Point(p.row + o.row, p.col + o.col)) else None
  }

  /** `distance`: the offset leading from `p` to `q`, row and column as
    `other - self`. */
  function Distance(p: Point, q: Point): (o: Offset)
    ensures p.row + o.row == q.row && p.col + o.col == q.col
  {
    Offset(q.row - p.row, q.col - p.col)
  }

  /** Following the distance from `p` arrives at `q`. */
  lemma DistanceArrives(p: Point, q: Point)
    ensures AddOffset(p, Distance(p, q)) == Some(q)
  {
  }

  /** `direction_to`: Right, Left or None after comparing the columns, Down,
    Up or None after comparing the rows. */
  function DirectionTo(p: Point, q: Point): (r: Direction2D)
    ensures r.horizontal == Some(Right) <==> p.col < q.col
    ensures r.horizontal == None <==> p.col == q.col
    ensures r.horizontal == Some(Left) <==> p.col > q.col
    ensures r.vertical == Some(Down) <==> p.row < q.row
    ensures r.vertical == None <==> p.row == q.row
    ensures r.vertical == Some(Up) <==> p.row > q.row
  {
    var horizontal := if p.col < q.col then Some(Right) else if p.col == q.col then None else Some(Left);
    var vertical := if p.row < q.row then Some(Down) else if p.row == q.row then None else Some(Up);
    Direction2D(horizontal, vertical)
  }

  /** A unit step in direction `d` is seen from its start point as a move in
    direction `d` alone. */
  lemma OffsetMatchesDirection(p: Point, d: Direction)
    requires AddOffset(p, ToOffset(d)).Some?
    ensures var q := AddOffset(p, ToOffset(d)).value;
      DirectionTo(p, q) == (if d == Up || d == Down then Direction2D(None, Some(d)) else Direction2D(Some(d), None))
  {
  }

  /** A point whose coordinates `add` updates in place. */
  class MovablePoint {
    var row: nat
    var col: nat

    function Value(): Point
      reads this
    {
      Point(row, col)
    }

    constructor (p: Point)
      ensures Value() == p
    {
      row := p.row;
      col := p.col;
    }

    /** `Point::add`: each coordinate is a checked addition. When the row
      addition fails nothing changes; when only the column addition fails
      the row has already been updated. */
    method Add(offset: Offset) returns (r: Result<()>)
      modifies this
      ensures old(row) + offset.row < 0 ==> r.Err? && Value() == old(Value())
      ensures old(row) + offset.row >= 0 && old(col) + offset.col < 0 ==>
        r.Err? && row == old(row) + offset.row && col == old(col)
      ensures r.Ok? <==> AddOffset(old(Value()), offset).Some?
      ensures r.Ok? ==> Value() == AddOffset(old(Value()), offset).value
    {
      if row + offset.row < 0 {
        return Err("Could not add offset to point");
      }
      row := row + offset.row;
      if col + offset.col < 0 {
        return Err("Could not add offset to point");
      }
      col := col + offset.col;
      r := Ok(());
    }
  }
}
