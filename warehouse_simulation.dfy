/** The robot's moves through the warehouse (rust/15/src/simulation.rs): a
  recursive feasibility check, then a recursive commit that writes the
  warehouse in place, with two-cell boxes moving as linked halves. */
module WarehouseSimulation {
  import opened Wrappers
  import opened Warehouses

  predicate Horizontal(d: Direction)
  {
    d == Left || d == Right
  }

  /** How many cells lie ahead of `p` before the edge in direction `d`; the
    recursion of both phases goes one cell closer to the edge each time. */
  function Ahead(width: nat, height: nat, d: Direction, p: Point): nat
  {
    match d
    case Left => p.col
    case Up => p.row
    case Right => if p.col < width then width - p.col else 0
    case Down => if p.row < height then height - p.row else 0
  }

  /** `q` lies strictly ahead of `p` in direction `d`: a later row for a
    vertical move, a later cell of the same row for a horizontal one. */
  predicate StrictlyAhead(d: Direction, p: Point, q: Point)
  {
    match d
    case Up => q.row < p.row
    case Down => q.row > p.row
    case Left => q.row == p.row && q.col < p.col
    case Right => q.row == p.row && q.col > p.col
  }

  /** `can_move_in_direction`: whether the contents of `start` can move one
    cell in direction `d`. `None` stands for the two panics: a step outside
    the warehouse and a robot ahead (and the `usize` underflow of
    `other_side` and the `Index` panic on a short row). */
  function CanMove(g: Grid, d: Direction, start: Point): (r: Option<bool>)
    requires Formed(g)
    ensures r.Some? ==> NextInDirection(g, start, d).Found?
    ensures r.Some? ==> NextInDirection(g, start, d).field != Robot
    ensures r == Some(true) ==> NextInDirection(g, start, d).field != Wall
    ensures NextInDirection(g, start, d).Found? && NextInDirection(g, start, d).field == Wall ==> r == Some(false)
    ensures NextInDirection(g, start, d).Found? && NextInDirection(g, start, d).field == Empty ==> r == Some(true)
    decreases Ahead(g.width, g.height, d, start)
  {
    match NextInDirection(g, start, d)
    case Outside => None
    case ShortRow => None
    case Found(point, field) =>
      match field
      case Empty => Some(true)
      case Wall => Some(false)
      case Box => CanMove(g, d, point)
      case WideBox(side) =>
        if Horizontal(d) then CanMove(g, d, point)
        else (
          match OtherSide(side, point)
          case None => None
          case Some((_, other)) => (
            match CanMove(g, d, point)
            case None => None
            case Some(first) => if first then CanMove(g, d, other) else Some(false)))
      case Robot => None
  }

  /** The warehouse after the recursive calls of `move_in_direction` and
    before it moves the contents of `from`: what lies ahead has been pushed
    on. `None` stands for a panic. */
  function Pushed(g: Grid, d: Direction, from: Point): (r: Option<Grid>)
    requires Formed(g)
    ensures r.Some? ==> NextInDirection(g, from, d).Found?
    ensures r.Some? ==> Formed(r.value) && SameShape(g, r.value)
    ensures r.Some? && Shaped(g) ==> Shaped(r.value)
    decreases Ahead(g.width, g.height, d, from), 0
  {
    match NextInDirection(g, from, d)
    case Outside => None
    case ShortRow => None
    case Found(next, field) =>
      match field
      case Empty => Some(g)
      case Box => Moved(g, d, next)
      case WideBox(side) =>
        if Horizontal(d) then Moved(g, d, next)
        else (
          match OtherSide(side, next)
          case None => None
          case Some((_, other)) => (
            match Moved(g, d, next)
            case None => None
            case Some(g2) => Moved(g2, d, other)))
      case Wall => None
      case Robot => None
  }

  /** `move_in_direction` on values: push what lies ahead, then move the
    contents of `from` one cell on and leave `from` empty. */
  function Moved(g: Grid, d: Direction, from: Point): (r: Option<Grid>)
    requires Formed(g)
    ensures r.Some? ==> NextInDirection(g, from, d).Found?
    ensures r.Some? ==> Formed(r.value) && SameShape(g, r.value)
    ensures r.Some? && Shaped(g) ==> Shaped(r.value)
    decreases Ahead(g.width, g.height, d, from), 1
  {
    match Pushed(g, d, from)
    case None => None
    case Some(g1) =>
      var next := NextInDirection(g, from, d).point;
      Some(Write(Write(g1, next, At(g1, from)), from, Empty))
  }

  /** `move_robot` on values: the warehouse and robot position afterwards,
    or `None` for a panic. An infeasible move changes nothing. */
  function RobotMove(g: Grid, position: Point, d: Direction): (r: Option<(Grid, Point)>)
    requires Formed(g)
    ensures r.Some? ==> Formed(r.value.0) && SameShape(g, r.value.0)
    ensures r.Some? && Shaped(g) ==> Shaped(r.value.0)
    ensures CanMove(g, d, position) == Some(false) ==> r == Some((g, position))
    ensures r.Some? && CanMove(g, d, position) == Some(true) ==> r.value.1 == NextInDirection(g, position, d).point
  {
    match CanMove(g, d, position)
    case None => None
    case Some(false) => Some((g, position))
    case Some(true) =>
      match Moved(g, d, position)
      case None => None
      case Some(moved) => Some((moved, NextInDirection(g, position, d).point))
  }

  /** A push against a single-cell box is the move of that box. */
  lemma PushedThroughBox(g: Grid, d: Direction, from: Point)
    requires Formed(g) && NextInDirection(g, from, d).Found? && NextInDirection(g, from, d).field == Box
    ensures Pushed(g, d, from) == Moved(g, d, NextInDirection(g, from, d).point)
  {
  }

  lemma AheadCloser(g: Grid, d: Direction, p: Point, q: Point)
    requires Shaped(g) && InRange(g, p) && StrictlyAhead(d, p, q) && InRange(g, q)
    ensures Ahead(g.width, g.height, d, q) < Ahead(g.width, g.height, d, p)
  {
  }

  lemma AheadTransitive(d: Direction, p: Point, q: Point, s: Point)
    requires StrictlyAhead(d, p, q) && StrictlyAhead(d, q, s)
    ensures StrictlyAhead(d, p, s)
  {
  }

  /** The point one step ahead lies strictly ahead, and so does the other
    half of a wide box there when the move is vertical. */
  lemma NextIsAhead(g: Grid, d: Direction, from: Point)
    requires Shaped(g) && NextInDirection(g, from, d).Found?
    ensures var next, field := NextInDirection(g, from, d).point, NextInDirection(g, from, d).field;
      StrictlyAhead(d, from, next) && next != from &&
      (field.WideBox? && !Horizontal(d) && OtherSide(field.side, next).Some? ==>
         StrictlyAhead(d, from, OtherSide(field.side, next).value.1) && !StrictlyAhead(d, OtherSide(field.side, next).value.1, next) &&
         OtherSide(field.side, next).value.1 != next)
  {
  }

  /** Pushing on what lies ahead of `from` leaves every cell that is not
    strictly ahead of `from` as it was. */
  lemma {:induction false} PushedFrame(g: Grid, d: Direction, from: Point)
    requires Shaped(g) && Pushed(g, d, from).Some?
    ensures forall q :: InRange(g, q) && !StrictlyAhead(d, from, q) ==> At(Pushed(g, d, from).value, q) == At(g, q)
    decreases Ahead(g.width, g.height, d, from), 0
  {
    var next, field := NextInDirection(g, from, d).point, NextInDirection(g, from, d).field;
    NextIsAhead(g, d, from);
    if field == Box || (field.WideBox? && Horizontal(d)) {
      MovedFrame(g, d, next);
      FrameStep(g, Moved(g, d, next).value, d, from, next);
    } else if field.WideBox? {
      var other := OtherSide(field.side, next).value.1;
      var g2 := Moved(g, d, next).value;
      assert Pushed(g, d, from) == Moved(g2, d, other);
      MovedFrame(g, d, next);
      MovedFrame(g2, d, other);
      FrameTwice(g, g2, Moved(g2, d, other).value, d, from, next, other);
    }
  }

  /** Two changes, one confined to `p1` and what lies ahead of it and one
    to `p2` and what lies ahead of it, are together confined to what lies
    ahead of `from`, when both points lie ahead of `from`. */
  lemma FrameTwice(g: Grid, g2: Grid, h: Grid, d: Direction, from: Point, p1: Point, p2: Point)
    requires Shaped(g) && Shaped(g2) && Shaped(h) && SameShape(g, g2) && SameShape(g2, h)
    requires StrictlyAhead(d, from, p1) && StrictlyAhead(d, from, p2)
    requires forall q :: InRange(g, q) && q != p1 && !StrictlyAhead(d, p1, q) ==> At(g2, q) == At(g, q)
    requires forall q :: InRange(g2, q) && q != p2 && !StrictlyAhead(d, p2, q) ==> At(h, q) == At(g2, q)
    ensures forall q :: InRange(g, q) && !StrictlyAhead(d, from, q) ==> At(h, q) == At(g, q)
  {
    FrameStep(g, g2, d, from, p1);
    FrameStep(g2, h, d, from, p2);
  }

  /** A change confined to `p` and what lies ahead of it is confined to what
    lies ahead of `from`, when `p` itself lies ahead of `from`. */
  lemma FrameStep(g: Grid, h: Grid, d: Direction, from: Point, p: Point)
    requires Shaped(g) && Shaped(h) && h.width == g.width && h.height == g.height
    requires StrictlyAhead(d, from, p)
    requires forall q :: InRange(g, q) && q != p && !StrictlyAhead(d, p, q) ==> At(h, q) == At(g, q)
    ensures forall q :: InRange(g, q) && !StrictlyAhead(d, from, q) ==> At(h, q) == At(g, q)
  {
    forall q | InRange(g, q) && !StrictlyAhead(d, from, q)
      ensures At(h, q) == At(g, q)
    {
      if StrictlyAhead(d, p, q) {
        AheadTransitive(d, from, p, q);
      }
    }
  }

  /** `move_in_direction` writes only `from` and what lies ahead of it. */
  lemma {:induction false} MovedFrame(g: Grid, d: Direction, from: Point)
    requires Shaped(g) && Moved(g, d, from).Some?
    ensures forall q :: InRange(g, q) && q != from && !StrictlyAhead(d, from, q) ==> At(Moved(g, d, from).value, q) == At(g, q)
    decreases Ahead(g.width, g.height, d, from), 1
  {
    PushedFrame(g, d, from);
    NextIsAhead(g, d, from);
  }

  /** After the recursive calls the cell ahead is empty: each call leaves its
    own start empty, and the second half of a vertical wide-box push writes
    nothing in the row of the first. */
  lemma PushedClears(g: Grid, d: Direction, from: Point)
    requires Shaped(g) && Pushed(g, d, from).Some?
    ensures At(Pushed(g, d, from).value, NextInDirection(g, from, d).point) == Empty
    ensures At(Pushed(g, d, from).value, from) == At(g, from)
  {
    var next, field := NextInDirection(g, from, d).point, NextInDirection(g, from, d).field;
    NextIsAhead(g, d, from);
    PushedFrame(g, d, from);
    if field.WideBox? && !Horizontal(d) {
      var other := OtherSide(field.side, next).value.1;
      var g2 := Moved(g, d, next).value;
      MovedFrame(g2, d, other);
    }
  }

  /** A committed move swaps the contents of `from` with the emptied cell
    ahead: the contents arrive one cell on and `from` is left empty. */
  lemma MovedSwaps(g: Grid, d: Direction, from: Point)
    requires Shaped(g) && Moved(g, d, from).Some?
    ensures var next := NextInDirection(g, from, d).point;
      At(Moved(g, d, from).value, next) == At(g, from) && At(Moved(g, d, from).value, from) == Empty
  {
    PushedClears(g, d, from);
    NextIsAhead(g, d, from);
  }

  /** Each committed move is a sequence of swaps with empty cells, so every
    kind of field keeps its number: no robot or box appears or vanishes. */
  lemma {:induction false} MovedKeepsCounts(g: Grid, d: Direction, from: Point, f: Field)
    requires Shaped(g) && Moved(g, d, from).Some?
    ensures Count(Moved(g, d, from).value.inner, f) == Count(g.inner, f)
    decreases Ahead(g.width, g.height, d, from), 1
  {
    var next := NextInDirection(g, from, d).point;
    var g1 := Pushed(g, d, from).value;
    PushedKeepsCounts(g, d, from, f);
    PushedClears(g, d, from);
    NextIsAhead(g, d, from);
    var w := Write(g1, next, At(g1, from));
    WriteCount(g1, next, At(g1, from), f);
    WriteCount(w, from, Empty, f);
  }

  lemma {:induction false} PushedKeepsCounts(g: Grid, d: Direction, from: Point, f: Field)
    requires Shaped(g) && Pushed(g, d, from).Some?
    ensures Count(Pushed(g, d, from).value.inner, f) == Count(g.inner, f)
    decreases Ahead(g.width, g.height, d, from), 0
  {
    var next, field := NextInDirection(g, from, d).point, NextInDirection(g, from, d).field;
    NextIsAhead(g, d, from);
    AheadCloser(g, d, from, next);
    if field == Box || (field.WideBox? && Horizontal(d)) {
      MovedKeepsCounts(g, d, next, f);
    } else if field.WideBox? {
      var other := OtherSide(field.side, next).value.1;
      var g2 := Moved(g, d, next).value;
      MovedKeepsCounts(g, d, next, f);
      MovedKeepsCounts(g2, d, other, f);
    }
  }

  /** Once the feasibility check has passed, the commit never meets a wall
    or a robot, for every horizontal move and for every move through the
    single-cell boxes of part one. */
  lemma {:induction false} FeasibleLineCommits(g: Grid, d: Direction, from: Point)
    requires Shaped(g) && CanMove(g, d, from) == Some(true)
    requires Horizontal(d) || NoWideBoxes(g)
    ensures Moved(g, d, from).Some?
    decreases Ahead(g.width, g.height, d, from)
  {
    var next, field := NextInDirection(g, from, d).point, NextInDirection(g, from, d).field;
    NextIsAhead(g, d, from);
    AheadCloser(g, d, from, next);
    if field == Box || field.WideBox? {
      FeasibleLineCommits(g, d, next);
    }
  }

  /** The robot's move keeps exactly one robot in the warehouse, and the
    robot position on it: either nothing changed, or the robot stands one
    cell on and its old cell is empty. */
  lemma RobotMoveKeepsRobot(g: Grid, position: Point, d: Direction)
    requires Shaped(g) && InRange(g, position) && At(g, position) == Robot && Count(g.inner, Robot) == 1
    requires RobotMove(g, position, d).Some?
    ensures var (moved, now) := RobotMove(g, position, d).value;
      Shaped(moved) && InRange(moved, now) && At(moved, now) == Robot && Count(moved.inner, Robot) == 1 &&
      ((moved == g && now == position) ||
       (now.row == position.row + Offset(d).0 && now.col == position.col + Offset(d).1 && At(moved, position) == Empty))
  {
    if CanMove(g, d, position) == Some(true) {
      MovedSwaps(g, d, position);
      MovedKeepsCounts(g, d, position, Robot);
    }
  }

  /** A robot stepping onto an empty cell leaves the GPS score as it was. */
  lemma StepIntoEmptyKeepsGps(g: Grid, position: Point, d: Direction)
    requires Shaped(g) && InRange(g, position) && At(g, position) == Robot
    requires NextInDirection(g, position, d).Found? && NextInDirection(g, position, d).field == Empty
    ensures RobotMove(g, position, d).Some?
    ensures Gps(RobotMove(g, position, d).value.0) == Gps(g)
  {
    var next := NextInDirection(g, position, d).point;
    NextIsAhead(g, d, position);
    assert CanMove(g, d, position) == Some(true);
    assert Pushed(g, d, position) == Some(g);
    var w := Write(g, next, Robot);
    assert Moved(g, d, position) == Some(Write(w, position, Empty));
    GpsWrite(g, next, Robot);
    GpsWrite(w, position, Empty);
  }

  /** What a horizontal push from column `x` does to its row, when the
    first empty cell it reaches is in column `q`: the cells from `x` up to
    just before `q` move one column towards `q`, and `x` is left empty. */
  predicate ShiftedRow(before: seq<Field>, after: seq<Field>, d: Direction, x: nat, q: nat)
  {
    |after| == |before| && x < |before| &&
    forall c {:trigger after[c]} :: 0 <= c < |before| ==>
      after[c] == if c == x then Empty
                  else if d == Right && x < c <= q then before[c - 1]
                  else if d == Left && q <= c < x then before[c + 1]
                  else before[c]
  }

  /** A horizontal move shifts part of one row by one cell into the first
    empty cell ahead, and leaves every other row as it was. */
  lemma {:induction false} HorizontalShift(g: Grid, d: Direction, from: Point) returns (q: nat)
    requires Shaped(g) && Horizontal(d) && Moved(g, d, from).Some?
    ensures q < g.width && StrictlyAhead(d, from, Point(from.row, q)) && g.inner[from.row][q] == Empty
    ensures ShiftedRow(g.inner[from.row], Moved(g, d, from).value.inner[from.row], d, from.col, q)
    ensures forall i :: 0 <= i < g.height && i != from.row ==> Moved(g, d, from).value.inner[i] == g.inner[i]
    decreases Ahead(g.width, g.height, d, from)
  {
    var next, field := NextInDirection(g, from, d).point, NextInDirection(g, from, d).field;
    NextIsAhead(g, d, from);
    AheadCloser(g, d, from, next);
    var g1 := Pushed(g, d, from).value;
    if field == Empty {
      q := next.col;
    } else {
      q := HorizontalShift(g, d, next);
    }
    var before := g.inner[from.row];
    var mid := g1.inner[from.row];
    if field == Empty {
      assert g1 == g;
    }
    assert ShiftedRow(before, mid, d, next.col, q);
    var row := mid[next.col := mid[from.col]][from.col := Empty];
    assert Moved(g, d, from).value.inner[from.row] == row;
    ShiftStep(before, mid, d, from.col, next.col, q);
  }

  /** Moving the contents of `x` into the emptied cell `next` just ahead
    extends the shift of the row by one cell. */
  lemma ShiftStep(before: seq<Field>, mid: seq<Field>, d: Direction, x: nat, next: nat, q: nat)
    requires Horizontal(d) && x < |before| && (if d == Right then next == x + 1 && next <= q else next + 1 == x && q <= next)
    requires ShiftedRow(before, mid, d, next, q)
    ensures ShiftedRow(before, mid[next := mid[x]][x := Empty], d, x, q)
  {
  }

  /** Pushing a row whose cell `x` holds no wide-box half keeps every wide
    box of the row in one piece. */
  lemma ShiftedRowPaired(before: seq<Field>, after: seq<Field>, d: Direction, x: nat, q: nat, c: nat)
    requires Horizontal(d) && x < |before| && q < |before| && before[q] == Empty && !before[x].WideBox?
    requires if d == Right then x < q else q < x
    requires forall k :: 0 <= k < |before| ==> PairAt(before, k)
    requires ShiftedRow(before, after, d, x, q) && c < |after|
    ensures PairAt(after, c)
  {
    assert after[c] == if c == x then Empty
                       else if d == Right && x < c <= q then before[c - 1]
                       else if d == Left && q <= c < x then before[c + 1]
                       else before[c];
    if c + 1 < |after| {
      assert after[c + 1] == if c + 1 == x then Empty
                             else if d == Right && x < c + 1 <= q then before[c]
                             else if d == Left && q <= c + 1 < x then before[c + 2]
                             else before[c + 1];
    }
    if c + 2 < |before| {
      assert PairAt(before, c + 2);
    }
    assert PairAt(before, c);
    if c + 1 < |before| {
      assert PairAt(before, c + 1);
    }
    if c > 0 {
      assert PairAt(before, c - 1);
    }
    assert PairAt(before, x) && PairAt(before, q);
    if x > 0 {
      assert PairAt(before, x - 1);
    }
    if q > 0 {
      assert PairAt(before, q - 1);
    }
  }

  /** A horizontal move of the robot keeps every wide box in one piece. */
  lemma HorizontalMovePaired(g: Grid, d: Direction, from: Point)
    requires Shaped(g) && Horizontal(d) && Moved(g, d, from).Some? && Paired(g) && !At(g, from).WideBox?
    ensures Paired(Moved(g, d, from).value)
  {
    var r := Moved(g, d, from).value;
    var q := HorizontalShift(g, d, from);
    forall i, c | 0 <= i < |r.inner| && 0 <= c < |r.inner[i]|
      ensures PairAt(r.inner[i], c)
    {
      if i == from.row {
        ShiftedRowPaired(g.inner[i], r.inner[i], d, from.col, q, c);
      } else {
        assert r.inner[i] == g.inner[i];
      }
    }
  }

  /** The simulation: the warehouse it pushes boxes through and where the
    robot stands. */
  class Simulation {
    const warehouse: Warehouse
    var robotPosition: Point

    constructor (warehouse: Warehouse, robotPosition: Point)
      ensures this.warehouse == warehouse && this.robotPosition == robotPosition
    {
      this.warehouse := warehouse;
      this.robotPosition := robotPosition;
    }

    /** `move_robot`: `ok` is false exactly when the source panics, and
      otherwise the warehouse and the robot position are what `RobotMove`
      says. */
    method MoveRobot(d: Direction) returns (ok: bool)
      requires warehouse.Valid()
      modifies this, warehouse
      ensures warehouse.Valid()
      ensures ok <==> RobotMove(old(warehouse.Contents()), old(robotPosition), d).Some?
      ensures ok ==> (warehouse.Contents(), robotPosition) == RobotMove(old(warehouse.Contents()), old(robotPosition), d).value
    {
      var feasible := CanMove(warehouse.Contents(), d, robotPosition);
      if feasible.None? {
        return false;
      }
      ok := true;
      if feasible.value {
        ok := MoveInDirection(d, robotPosition);
      }
    }

    /** `move_in_direction`, writing the warehouse in place; `ok` is false
      exactly when the source panics. */
    method MoveInDirection(d: Direction, from: Point) returns (ok: bool)
      requires warehouse.Valid()
      modifies this, warehouse
      ensures warehouse.Valid()
      ensures ok <==> Moved(old(warehouse.Contents()), d, from).Some?
      ensures ok ==> warehouse.Contents() == Moved(old(warehouse.Contents()), d, from).value
      ensures ok ==> robotPosition == NextInDirection(old(warehouse.Contents()), from, d).point
      decreases Ahead(warehouse.width, warehouse.height, d, from), 1
    {
      var step := NextInDirection(warehouse.Contents(), from, d);
      ok := PushAhead(d, from);
      if !ok {
        return;
      }
      var next := step.point;
      var contents := At(warehouse.Contents(), from);
      var written := warehouse.Set(next, contents);
      written := warehouse.Set(from, Empty);
      robotPosition := next;
    }

    /** The recursive calls of `move_in_direction`, which push on whatever
      lies ahead of `from`. */
    method PushAhead(d: Direction, from: Point) returns (ok: bool)
      requires warehouse.Valid()
      modifies this, warehouse
      ensures warehouse.Valid()
      ensures ok <==> Pushed(old(warehouse.Contents()), d, from).Some?
      ensures ok ==> warehouse.Contents() == Pushed(old(warehouse.Contents()), d, from).value
      decreases Ahead(warehouse.width, warehouse.height, d, from), 0
    {
      var step := NextInDirection(warehouse.Contents(), from, d);
      if !step.Found? {
        return false;
      }
      var next, field := step.point, step.field;
      match field {
        case Empty =>
          ok := true;
        case Box =>
          ok := MoveInDirection(d, next);
        case WideBox(side) =>
          if Horizontal(d) {
            ok := MoveInDirection(d, next);
          } else {
            var otherSide := OtherSide(side, next);
            if otherSide.None? {
              return false;
            }
            ok := PushBothHalves(d, next, otherSide.value.1);
          }
        case Wall =>
          ok := false;
        case Robot =>
          ok := false;
      }
    }

    /** A vertical push of a wide box: first the half ahead of `from`, then
      the other half. */
    method PushBothHalves(d: Direction, half: Point, other: Point) returns (ok: bool)
      requires warehouse.Valid() && other.row == half.row && !Horizontal(d)
      modifies this, warehouse
      ensures warehouse.Valid()
      ensures ok <==> Moved(old(warehouse.Contents()), d, half).Some? &&
                      Moved(Moved(old(warehouse.Contents()), d, half).value, d, other).Some?
      ensures ok ==> warehouse.Contents() == Moved(Moved(old(warehouse.Contents()), d, half).value, d, other).value
      decreases Ahead(warehouse.width, warehouse.height, d, half), 2
    {
      ok := MoveInDirection(d, half);
      if ok {
        ok := MoveInDirection(d, other);
      }
    }
  }
}
