/** The warehouse of the box-pushing robot (rust/15/src/warehouse.rs): a
  grid of fields, the walk of points in one direction, the doubled-width
  warehouse of part two and the GPS score of the boxes. */
module Warehouses {
  import opened Wrappers

  /** The four moves of the robot (rust/15/src/parser.rs). */
  datatype Direction = Left | Up | Right | Down

  /** Which half of a two-cell box a cell holds. */
  datatype WideBoxSide = LeftSide | RightSide

  datatype Field = Empty | Wall | Box | WideBox(side: WideBoxSide) | Robot

  datatype Point = Point(row: nat, col: nat)

  /** The largest `usize` of a 64-bit target. */
  const UsizeMax: nat := 0xFFFF_FFFF_FFFF_FFFF

  /** `Field::from`: `None` stands for the panic on any other character. */
  function FieldFrom(c: char): (r: Option<Field>)
    ensures r.Some? <==> c in {'.', '#', 'O', '@'}
    ensures r.Some? ==> !r.value.WideBox? && FieldChar(r.value) == c
  {
    match c
    case '.' => Some(Empty)
    case '#' => Some(Wall)
    case 'O' => Some(Box)
    case '@' => Some(Robot)
    case _ => None
  }

  /** The character `Display` writes for a field. */
  function FieldChar(f: Field): char
  {
    match f
    case Empty => '.'
    case Wall => '#'
    case Box => 'O'
    case Robot => '@'
    case WideBox(LeftSide) => '['
    case WideBox(RightSide) => ']'
  }

  /** Every field of part one reads back from the character it is shown as. */
  lemma FieldFromChar(f: Field)
    requires !f.WideBox?
    ensures FieldFrom(FieldChar(f)) == Some(f)
  {
  }

  /** `WideBoxSide::other_side`: the other half of a wide box and where it
    is. `None` stands for the `usize` underflow of a right half in column 0. */
  function OtherSide(side: WideBoxSide, position: Point): (r: Option<(WideBoxSide, Point)>)
    ensures side == LeftSide ==> r == Some((RightSide, Point(position.row, position.col + 1)))
    ensures side == RightSide && position.col > 0 ==> r == Some((LeftSide, Point(position.row, position.col - 1)))
    ensures side == RightSide && position.col == 0 ==> r.None?
  {
    match side
    case LeftSide => Some((RightSide, Point(position.row, position.col + 1)))
    case RightSide => if position.col == 0 then None else Some((LeftSide, Point(position.row, position.col - 1)))
  }

  /** Going to the other half twice comes back to the same half. */
  lemma OtherSideInvolution(side: WideBoxSide, position: Point)
    requires OtherSide(side, position).Some?
    ensures var (other, at) := OtherSide(side, position).value;
      other != side && OtherSide(other, at) == Some((side, position))
  {
  }

  /** The row and column step of a direction. */
  function Offset(d: Direction): (int, int)
  {
    match d
    case Left => (0, -1)
    case Up => (-1, 0)
    case Right => (0, 1)
    case Down => (1, 0)
  }

  /** `usize::checked_add_signed`. */
  function AddSigned(x: nat, offset: int): Option<nat>
  {
    if 0 <= x + offset <= UsizeMax then Some(x + offset) else None
  }

  /** One step of `PointIterator::next`: `None` once either coordinate
    leaves the range of `usize`. */
  function Step(p: Point, d: Direction): Option<Point>
  {
    match (AddSigned(p.row, Offset(d).0), AddSigned(p.col, Offset(d).1))
    case (Some(row), Some(col)) => Some(Point(row, col))
    case _ => None
  }

  /** The point a `PointIterator` from `start` yields after `k` earlier
    points, or `None` once it has ended. */
  function Walk(start: Point, d: Direction, k: nat): Option<Point>
  {
    if k == 0 then Some(start)
    else match Walk(start, d, k - 1)
      case None => None
      case Some(p) => Step(p, d)
  }

  /** The walk yields the start point first, then the start plus one offset
    after another, and it ends exactly when a coordinate would leave the
    range of `usize`. */
  lemma {:induction false} WalkIsOffset(start: Point, d: Direction, k: nat)
    requires start.row <= UsizeMax && start.col <= UsizeMax
    ensures var row, col := start.row + k * Offset(d).0, start.col + k * Offset(d).1;
      Walk(start, d, k) == if 0 <= row <= UsizeMax && 0 <= col <= UsizeMax then Some(Point(row, col)) else None
  {
    if k > 0 {
      WalkIsOffset(start, d, k - 1);
    }
  }

  /** `PointIterator`: the next point to yield and the step between points. */
  class PointIterator {
    var next: Option<Point>
    const offsetRow: int
    const offsetCol: int
    ghost const start: Point
    ghost const direction: Direction
    ghost var taken: nat

    ghost predicate Valid()
      reads this
    {
      (offsetRow, offsetCol) == Offset(direction) && next == Walk(start, direction, taken)
    }

    /** `PointIterator::in_direction`. */
    constructor InDirection(start: Point, direction: Direction)
      ensures Valid() && this.start == start && this.direction == direction && taken == 0
      ensures next == Some(start)
    {
      var (row, col) := Offset(direction);
      next := Some(start);
      offsetRow := row;
      offsetCol := col;
      this.start := start;
      this.direction := direction;
      taken := 0;
    }

    /** `Iterator::next`: the point of the walk after the ones taken so far. */
    method Next() returns (p: Option<Point>)
      requires Valid()
      modifies this
      ensures Valid() && taken == old(taken) + 1
      ensures p == Walk(start, direction, old(taken))
    {
      p := next;
      taken := taken + 1;
      next := None;
      if p.None? {
        return;
      }
      var point := p.value;
      var newRow := AddSigned(point.row, offsetRow);
      var newCol := AddSigned(point.col, offsetCol);
      if newRow.Some? && newCol.Some? {
        next := Some(Point(newRow.value, newCol.value));
      }
    }
  }

  /** The contents of a `Warehouse`: its rows and its two dimensions. */
  datatype Grid = Grid(inner: seq<seq<Field>>, width: nat, height: nat)

  /** What `Warehouse::new` builds: `height` rows and both dimensions within
    `usize`. The rows need not have the first row's length. */
  predicate Formed(g: Grid)
  {
    |g.inner| == g.height && g.width <= UsizeMax && g.height <= UsizeMax
  }

  /** A rectangular warehouse: every row is `width` fields long. */
  predicate Shaped(g: Grid)
  {
    |g.inner| == g.height && g.width <= UsizeMax && g.height <= UsizeMax &&
    forall r :: 0 <= r < |g.inner| ==> |g.inner[r]| == g.width
  }

  /** `Warehouse::new`: the height is the number of rows and the width the
    length of the first one; `None` stands for the panic without a row. */
  function NewGrid(rows: seq<seq<Field>>): (r: Option<Grid>)
    ensures r.Some? <==> |rows| > 0
    ensures r.Some? ==> r.value.inner == rows && r.value.height == |rows| && r.value.width == |rows[0]|
    ensures r.Some? && |rows| <= UsizeMax && |rows[0]| <= UsizeMax ==> Formed(r.value)
    ensures (r.Some? && (forall i :: 0 <= i < |rows| ==> |rows[i]| == |rows[0]|) && |rows| <= UsizeMax &&
             |rows[0]| <= UsizeMax) ==> Shaped(r.value)
  {
    if |rows| == 0 then None else Some(Grid(rows, |rows[0]|, |rows|))
  }

  /** `in_range`. */
  predicate InRange(g: Grid, p: Point)
  {
    p.col < g.width && p.row < g.height
  }

  /** The cell that indexing with `p` reaches exists: `Index` and `IndexMut`
    panic on any other point, such as an in-range point of a row shorter
    than the first. */
  predicate HasCell(g: Grid, p: Point)
  {
    p.row < |g.inner| && p.col < |g.inner[p.row]|
  }

  /** Both grids have the same dimensions and rows of the same lengths. */
  predicate SameShape(g: Grid, h: Grid)
  {
    h.width == g.width && h.height == g.height && |h.inner| == |g.inner| &&
    forall i :: 0 <= i < |g.inner| ==> |h.inner[i]| == |g.inner[i]|
  }

  /** The field at a point whose cell exists (`Index`); in a rectangular
    warehouse that is every in-range point. */
  function At(g: Grid, p: Point): Field
    requires (Shaped(g) && InRange(g, p)) || HasCell(g, p)
  {
    g.inner[p.row][p.col]
  }

  /** Writing one field (`IndexMut`): that field changes and no other, and
    the rows keep their lengths. */
  function Write(g: Grid, p: Point, f: Field): (r: Grid)
    requires HasCell(g, p) || (Shaped(g) && InRange(g, p))
    ensures SameShape(g, r) && HasCell(r, p)
    ensures Formed(g) ==> Formed(r)
    ensures Shaped(g) ==> Shaped(r)
    ensures At(r, p) == f
    ensures forall q :: (HasCell(g, q) || (Shaped(g) && InRange(g, q))) && q != p ==> At(r, q) == At(g, q)
  {
    g.(inner := g.inner[p.row := g.inner[p.row][p.col := f]])
  }

  /** The point one step from `start` in direction `d` lies inside the
    warehouse. */
  predicate NextInRange(g: Grid, start: Point, d: Direction)
  {
    0 <= start.row + Offset(d).0 < g.height && 0 <= start.col + Offset(d).1 < g.width
  }

  /** What `next_in_direction` gives: `Outside` for its `None`, the point one
    step ahead with its field, or `ShortRow` for the panic of `Index` on a
    point the walk reads in a row shorter than the first. */
  datatype Lookahead = Outside | Found(point: Point, field: Field) | ShortRow

  /** `next_in_direction`: the walk reads the start and then the point ahead
    while they are in range, so it panics when either of them is an
    in-range point without a cell. */
  function NextInDirection(g: Grid, start: Point, d: Direction): (r: Lookahead)
    requires Formed(g)
    ensures r.Outside? <==> !InRange(g, start) || (HasCell(g, start) && !NextInRange(g, start, d))
    ensures r.Found? <==> InRange(g, start) && HasCell(g, start) && NextInRange(g, start, d) &&
                          HasCell(g, Point(start.row + Offset(d).0, start.col + Offset(d).1))
    ensures Shaped(g) ==> !r.ShortRow? && (r.Found? <==> (InRange(g, start) && NextInRange(g, start, d)))
    ensures r.Found? ==> r.point.row == start.row + Offset(d).0 && r.point.col == start.col + Offset(d).1
    ensures r.Found? ==> InRange(g, r.point) && HasCell(g, r.point) && r.field == At(g, r.point)
  {
    if !InRange(g, start) then Outside
    else if !HasCell(g, start) then ShortRow
    else match Step(start, d)
      case None => Outside
      case Some(next) =>
        if !InRange(g, next) then Outside
        else if !HasCell(g, next) then ShortRow
        else Found(next, At(g, next))
  }

  /** A walk panics where it reads a row shorter than the first. */
  lemma ShortRowLookahead()
    ensures NextInDirection(Grid([[Robot, Empty], [Empty]], 2, 2), Point(0, 1), Down) == ShortRow
  {
    var g := Grid([[Robot, Empty], [Empty]], 2, 2);
    assert HasCell(g, Point(0, 1)) && !HasCell(g, Point(1, 1));
  }

  /** A walk runs over a row longer than the first, inside the first
    row's width. */
  lemma LongRowLookahead()
    ensures NextInDirection(Grid([[Robot], [Empty, Wall]], 1, 2), Point(0, 0), Down) == Found(Point(1, 0), Empty)
  {
    var g := Grid([[Robot], [Empty, Wall]], 1, 2);
    assert HasCell(g, Point(0, 0)) && HasCell(g, Point(1, 0)) && At(g, Point(1, 0)) == Empty;
  }

  /** The two fields a field of part one becomes in part two. */
  function ScaledField(f: Field): seq<Field>
    requires !f.WideBox?
  {
    match f
    case Empty => [Empty, Empty]
    case Wall => [Wall, Wall]
    case Box => [WideBox(LeftSide), WideBox(RightSide)]
    case Robot => [Robot, Empty]
  }

  /** `scaled` is `row` with each field replaced by its pair. */
  predicate ScaledFrom(row: seq<Field>, scaled: seq<Field>)
  {
    |scaled| == 2 * |row| &&
    forall c :: 0 <= c < |row| ==>
      !row[c].WideBox? && scaled[2 * c] == ScaledField(row[c])[0] && scaled[2 * c + 1] == ScaledField(row[c])[1]
  }

  /** One row of `scaled_up`; `None` stands for the panic on a wide box. */
  /** No half of a wide box in the row: it can be scaled up. */
  predicate Scalable(row: seq<Field>)
  {
    forall c :: 0 <= c < |row| ==> !row[c].WideBox?
  }

  function ScaledRow(row: seq<Field>): (r: Option<seq<Field>>)
    ensures r.Some? <==> Scalable(row)
    ensures r.Some? ==> ScaledFrom(row, r.value)
  {
    if |row| == 0 then Some([])
    else
      var last := row[|row| - 1];
      match ScaledRow(row[..|row| - 1])
      case None => None
      case Some(front) => if last.WideBox? then None else Some(front + ScaledField(last))
  }

  /** Every row scaled, or `None` when some row has a wide box. */
  function ScaledRows(rows: seq<seq<Field>>): Option<seq<seq<Field>>>
  {
    if |rows| == 0 then Some([])
    else
      var front := ScaledRows(rows[..|rows| - 1]);
      var last := ScaledRow(rows[|rows| - 1]);
      if front.Some? && last.Some? then Some(front.value + [last.value]) else None
  }

  /** The rows scale exactly when every row does, each to its own scaling. */
  lemma ScaledRowsMeaning(rows: seq<seq<Field>>)
    ensures ScaledRows(rows).Some? <==> forall i :: 0 <= i < |rows| ==> Scalable(rows[i])
    ensures ScaledRows(rows).Some? ==>
      (|ScaledRows(rows).value| == |rows| &&
       forall i :: 0 <= i < |rows| ==> Some(ScaledRows(rows).value[i]) == ScaledRow(rows[i]))
  {
    ScaledRowsDefined(rows);
    ScaledRowsEach(rows);
  }

  lemma {:induction false} ScaledRowsDefined(rows: seq<seq<Field>>)
    ensures ScaledRows(rows).Some? <==> forall i :: 0 <= i < |rows| ==> Scalable(rows[i])
  {
    if |rows| > 0 {
      var init, last := rows[..|rows| - 1], rows[|rows| - 1];
      ScaledRowsDefined(init);
      assert ScaledRows(rows).Some? <==> ScaledRows(init).Some? && Scalable(last);
      if forall i :: 0 <= i < |rows| ==> Scalable(rows[i]) {
        forall i | 0 <= i < |init|
          ensures Scalable(init[i])
        {
          assert init[i] == rows[i];
        }
      }
      if ScaledRows(rows).Some? {
        forall i | 0 <= i < |init|
          ensures Scalable(rows[i])
        {
          assert init[i] == rows[i];
        }
      }
    }
  }

  lemma {:induction false} ScaledRowsEach(rows: seq<seq<Field>>)
    ensures ScaledRows(rows).Some? ==>
      (|ScaledRows(rows).value| == |rows| &&
       forall i :: 0 <= i < |rows| ==> Some(ScaledRows(rows).value[i]) == ScaledRow(rows[i]))
  {
    if |rows| > 0 && ScaledRows(rows).Some? {
      var init := rows[..|rows| - 1];
      ScaledRowsEach(init);
      var front := ScaledRows(init).value;
      var r := ScaledRows(rows).value;
      assert r == front + [ScaledRow(rows[|rows| - 1]).value];
      forall i | 0 <= i < |rows|
        ensures Some(r[i]) == ScaledRow(rows[i])
      {
        if i < |init| {
          assert r[i] == front[i] && init[i] == rows[i];
        }
      }
    }
  }

  /** No cell holds a half of a wide box, as in every warehouse of part one. */
  predicate NoWideBoxes(g: Grid)
  {
    forall i, c :: 0 <= i < |g.inner| && 0 <= c < |g.inner[i]| ==> !g.inner[i][c].WideBox?
  }

  /** `Warehouse::scaled_up`: the same height, twice the width, each field
    replaced by its pair; `None` stands for the panic on a wide box. */
  function ScaledUp(g: Grid): (r: Option<Grid>)
    ensures r.Some? <==> NoWideBoxes(g)
    ensures r.Some? ==> r.value.height == g.height && r.value.width == 2 * g.width && |r.value.inner| == |g.inner|
    ensures r.Some? ==> forall i, c :: 0 <= i < |g.inner| && 0 <= c < |g.inner[i]| ==>
      |r.value.inner[i]| == 2 * |g.inner[i]| &&
      r.value.inner[i][2 * c] == ScaledField(g.inner[i][c])[0] && r.value.inner[i][2 * c + 1] == ScaledField(g.inner[i][c])[1]
    ensures r.Some? && Formed(g) && 2 * g.width <= UsizeMax ==> Formed(r.value)
    ensures r.Some? && Shaped(g) && 2 * g.width <= UsizeMax ==> Shaped(r.value)
  {
    ScaledRowsMeaning(g.inner);
    match ScaledRows(g.inner)
    case None => None
    case Some(rows) => Some(Grid(rows, 2 * g.width, g.height))
  }

  /** The wide-box halves of a row come in pairs: a left half exactly when a
    right half follows it. */
  predicate PairAt(row: seq<Field>, c: nat)
    requires c < |row|
  {
    (row[c] == WideBox(LeftSide) <==> c + 1 < |row| && row[c + 1] == WideBox(RightSide)) &&
    (row[c] == WideBox(RightSide) ==> c > 0)
  }

  predicate Paired(g: Grid)
  {
    forall i, c :: 0 <= i < |g.inner| && 0 <= c < |g.inner[i]| ==> PairAt(g.inner[i], c)
  }

  /** The pair a field scales to starts with no right half and ends with no
    left half, and it is a left half exactly when it ends with a right one. */
  lemma ScaledFieldHalves(f: Field)
    requires !f.WideBox?
    ensures ScaledField(f)[0] != WideBox(RightSide) && ScaledField(f)[1] != WideBox(LeftSide)
    ensures ScaledField(f)[0] == WideBox(LeftSide) <==> ScaledField(f)[1] == WideBox(RightSide)
  {
  }

  lemma ScaledRowPairedEven(r: seq<Field>, a: Field, b: Field, k: nat)
    requires !a.WideBox? && k + 1 < |r| && r[k] == ScaledField(a)[0] && r[k + 1] == ScaledField(a)[1]
    ensures PairAt(r, k)
  {
    ScaledFieldHalves(a);
  }

  lemma ScaledRowPairedOdd(r: seq<Field>, a: Field, b: Field, k: nat)
    requires !a.WideBox? && !b.WideBox? && 0 < k < |r| && r[k] == ScaledField(a)[1]
    requires k + 1 < |r| ==> r[k + 1] == ScaledField(b)[0]
    ensures PairAt(r, k)
  {
    ScaledFieldHalves(a);
    ScaledFieldHalves(b);
  }

  lemma ScaledRowPaired(row: seq<Field>, r: seq<Field>, k: nat)
    requires ScaledFrom(row, r) && k < |r|
    ensures PairAt(r, k)
  {
    var c := k / 2;
    assert r[2 * c] == ScaledField(row[c])[0] && r[2 * c + 1] == ScaledField(row[c])[1];
    if c + 1 < |row| {
      assert r[2 * (c + 1)] == ScaledField(row[c + 1])[0];
    }
    if k == 2 * c {
      ScaledRowPairedEven(r, row[c], row[c], k);
    } else if c + 1 < |row| {
      ScaledRowPairedOdd(r, row[c], row[c + 1], k);
    } else {
      ScaledRowPairedOdd(r, row[c], row[c], k);
    }
  }

  /** Every wide box of a scaled-up warehouse has both halves side by side. */
  lemma ScaledUpPaired(g: Grid)
    requires ScaledUp(g).Some?
    ensures Paired(ScaledUp(g).value)
  {
    var r := ScaledUp(g).value;
    ScaledRowsMeaning(g.inner);
    forall i, c | 0 <= i < |r.inner| && 0 <= c < |r.inner[i]|
      ensures PairAt(r.inner[i], c)
    {
      assert Some(r.inner[i]) == ScaledRow(g.inner[i]);
      ScaledRowPaired(g.inner[i], r.inner[i], c);
    }
  }

  /** The number of fields of a row equal to `f`. */
  function RowCount(row: seq<Field>, f: Field): nat
  {
    if |row| == 0 then 0 else RowCount(row[..|row| - 1], f) + (if row[|row| - 1] == f then 1 else 0)
  }

  /** The number of fields of a grid equal to `f`. */
  function Count(rows: seq<seq<Field>>, f: Field): nat
  {
    if |rows| == 0 then 0 else Count(rows[..|rows| - 1], f) + RowCount(rows[|rows| - 1], f)
  }

  lemma {:induction false} RowCountConcat(a: seq<Field>, b: seq<Field>, f: Field)
    ensures RowCount(a + b, f) == RowCount(a, f) + RowCount(b, f)
  {
    if |b| > 0 {
      assert (a + b)[..|a + b| - 1] == a + b[..|b| - 1];
      RowCountConcat(a, b[..|b| - 1], f);
    } else {
      assert a + b == a;
    }
  }

  /** Writing one field changes the count of each value by what was written
    and what was overwritten. */
  lemma {:induction false} RowCountWrite(row: seq<Field>, c: nat, v: Field, f: Field)
    requires c < |row|
    ensures RowCount(row[c := v], f) + (if row[c] == f then 1 else 0) == RowCount(row, f) + (if v == f then 1 else 0)
  {
    var n := |row| - 1;
    if c < n {
      assert row[c := v][..n] == row[..n][c := v];
      RowCountWrite(row[..n], c, v, f);
    } else {
      assert row[c := v][..n] == row[..n];
    }
  }

  lemma {:induction false} CountWrite(rows: seq<seq<Field>>, i: nat, c: nat, v: Field, f: Field)
    requires i < |rows| && c < |rows[i]|
    ensures Count(rows[i := rows[i][c := v]], f) + (if rows[i][c] == f then 1 else 0) ==
            Count(rows, f) + (if v == f then 1 else 0)
  {
    var n := |rows| - 1;
    var updated := rows[i := rows[i][c := v]];
    if i < n {
      assert updated[..n] == rows[..n][i := rows[..n][i][c := v]];
      CountWrite(rows[..n], i, c, v, f);
    } else {
      assert updated[..n] == rows[..n];
      RowCountWrite(rows[i], c, v, f);
    }
  }

  /** Writing a field moves one unit of count from the old value to the new. */
  lemma WriteCount(g: Grid, p: Point, v: Field, f: Field)
    requires Shaped(g) && InRange(g, p)
    ensures Count(Write(g, p, v).inner, f) + (if At(g, p) == f then 1 else 0) == Count(g.inner, f) + (if v == f then 1 else 0)
  {
    CountWrite(g.inner, p.row, p.col, v, f);
  }

  lemma PairCount(a: Field, b: Field, f: Field)
    ensures RowCount([a, b], f) == (if a == f then 1 else 0) + (if b == f then 1 else 0)
  {
    var pair := [a, b];
    assert pair[..1] == [a] && [a][..0] == [];
    assert RowCount([a], f) == RowCount([], f) + (if a == f then 1 else 0);
  }

  lemma ScaledFieldCount(f: Field)
    requires !f.WideBox?
    ensures RowCount(ScaledField(f), Robot) == if f == Robot then 1 else 0
    ensures RowCount(ScaledField(f), WideBox(LeftSide)) == if f == Box then 1 else 0
  {
    var pair := ScaledField(f);
    assert pair == [pair[0], pair[1]];
    PairCount(pair[0], pair[1], Robot);
    PairCount(pair[0], pair[1], WideBox(LeftSide));
  }

  lemma {:induction false} ScaledRowCount(row: seq<Field>)
    requires ScaledRow(row).Some?
    ensures RowCount(ScaledRow(row).value, Robot) == RowCount(row, Robot)
    ensures RowCount(ScaledRow(row).value, WideBox(LeftSide)) == RowCount(row, Box)
  {
    if |row| > 0 {
      var n := |row| - 1;
      ScaledRowCount(row[..n]);
      var front := ScaledRow(row[..n]).value;
      assert ScaledRow(row).value == front + ScaledField(row[n]);
      RowCountConcat(front, ScaledField(row[n]), Robot);
      RowCountConcat(front, ScaledField(row[n]), WideBox(LeftSide));
      ScaledFieldCount(row[n]);
    }
  }

  lemma {:induction false} ScaledRowsCount(rows: seq<seq<Field>>)
    requires ScaledRows(rows).Some?
    ensures Count(ScaledRows(rows).value, Robot) == Count(rows, Robot)
    ensures Count(ScaledRows(rows).value, WideBox(LeftSide)) == Count(rows, Box)
  {
    if |rows| > 0 {
      var n := |rows| - 1;
      ScaledRowsCount(rows[..n]);
      ScaledRowsMeaning(rows);
      ScaledRowCount(rows[n]);
      var scaled := ScaledRows(rows).value;
      assert scaled[..n] == ScaledRows(rows[..n]).value;
    }
  }

  /** Scaling up keeps the number of robots, and turns every box into one
    wide box. */
  lemma ScaledUpCounts(g: Grid)
    requires ScaledUp(g).Some?
    ensures Count(ScaledUp(g).value.inner, Robot) == Count(g.inner, Robot)
    ensures Count(ScaledUp(g).value.inner, WideBox(LeftSide)) == Count(g.inner, Box)
  {
    ScaledRowsCount(g.inner);
  }

  /** The GPS coordinate a field contributes: 100 times its row plus its
    column for a box or the left half of a wide box, and nothing otherwise. */
  function Weight(f: Field, p: Point): nat
  {
    if f == Box || f == WideBox(LeftSide) then 100 * p.row + p.col else 0
  }

  function RowGps(row: seq<Field>, r: nat): nat
  {
    if |row| == 0 then 0 else RowGps(row[..|row| - 1], r) + Weight(row[|row| - 1], Point(r, |row| - 1))
  }

  function RowsGps(rows: seq<seq<Field>>): nat
  {
    if |rows| == 0 then 0 else RowsGps(rows[..|rows| - 1]) + RowGps(rows[|rows| - 1], |rows| - 1)
  }

  /** Every row reaches the first row's width, so `iter_fields` finds a
    cell at every in-range point. */
  predicate Covered(g: Grid)
  {
    forall i :: 0 <= i < |g.inner| ==> g.width <= |g.inner[i]|
  }

  /** The rectangle `iter_fields` walks: every row cut to the width. The
    fields beyond it are never read. */
  function Trim(g: Grid): (r: Grid)
    requires Formed(g) && Covered(g)
    ensures Shaped(r) && r.width == g.width && r.height == g.height
    ensures forall p :: InRange(g, p) ==> HasCell(g, p) && At(r, p) == At(g, p)
  {
    g.(inner := seq(|g.inner|, i requires 0 <= i < |g.inner| => g.inner[i][..g.width]))
  }

  /** A rectangular warehouse is its own rectangle. */
  lemma TrimShaped(g: Grid)
    requires Shaped(g)
    ensures Trim(g) == g
  {
    var t := Trim(g);
    assert |t.inner| == |g.inner|;
    forall i | 0 <= i < |g.inner|
      ensures t.inner[i] == g.inner[i]
    {
      assert g.inner[i][..g.width] == g.inner[i];
    }
  }

  /** `gps`: the GPS coordinates summed over the rectangle of the warehouse.
    `None` stands for the panics: the `usize` underflow of `height - 1` or
    `width - 1` when a dimension is 0, and `Index` on a row shorter than the
    first. */
  function Gps(g: Grid): (r: Option<nat>)
    requires Formed(g)
    ensures r.None? <==> g.width == 0 || g.height == 0 || !Covered(g)
  {
    if g.width == 0 || g.height == 0 || !Covered(g) then None else Some(RowsGps(Trim(g).inner))
  }

  /** Fields beyond the first row's width never count: a warehouse with
    longer rows scores what its rectangle scores. */
  lemma GpsTrim(g: Grid)
    requires Formed(g) && Covered(g)
    ensures Gps(g) == Gps(Trim(g))
  {
    TrimShaped(Trim(g));
  }

  /** A short row makes `gps` panic. */
  lemma ShortRowGps()
    ensures Gps(Grid([[Empty, Box], [Box]], 2, 2)).None?
  {
    var g := Grid([[Empty, Box], [Box]], 2, 2);
    assert |g.inner[1]| < g.width;
  }

  /** The fields of a longer row beyond the first row's width do not
    count. */
  lemma LongRowGps()
    ensures Gps(Grid([[Empty, Box], [Box, Empty, Box]], 2, 2)) == Some(101)
  {
    var g := Grid([[Empty, Box], [Box, Empty, Box]], 2, 2);
    var t := Trim(g);
    assert t.inner[0] == g.inner[0][..2] == [Empty, Box];
    assert t.inner[1] == g.inner[1][..2] == [Box, Empty];
    assert t.inner == [[Empty, Box], [Box, Empty]];
    assert RowGps([Empty, Box], 0) == 1 by {
      assert [Empty, Box][..1] == [Empty];
      assert [Empty][..0] == [];
    }
    assert RowGps([Box, Empty], 1) == 100 by {
      assert [Box, Empty][..1] == [Box];
      assert [Box][..0] == [];
    }
    assert t.inner[..1] == [[Empty, Box]] && t.inner[..1][..0] == [];
    assert RowsGps(t.inner) == RowsGps(t.inner[..1]) + RowGps([Box, Empty], 1);
    assert RowsGps(t.inner[..1]) == RowGps([Empty, Box], 0);
    assert Covered(g);
  }

  lemma {:induction false} RowGpsWrite(row: seq<Field>, r: nat, c: nat, v: Field)
    requires c < |row|
    ensures RowGps(row[c := v], r) + Weight(row[c], Point(r, c)) == RowGps(row, r) + Weight(v, Point(r, c))
  {
    var n := |row| - 1;
    if c < n {
      assert row[c := v][..n] == row[..n][c := v];
      RowGpsWrite(row[..n], r, c, v);
    } else {
      assert row[c := v][..n] == row[..n];
    }
  }

  lemma {:induction false} RowsGpsWrite(rows: seq<seq<Field>>, i: nat, c: nat, v: Field)
    requires i < |rows| && c < |rows[i]|
    ensures RowsGps(rows[i := rows[i][c := v]]) + Weight(rows[i][c], Point(i, c)) == RowsGps(rows) + Weight(v, Point(i, c))
  {
    var n := |rows| - 1;
    var updated := rows[i := rows[i][c := v]];
    if i < n {
      assert updated[..n] == rows[..n][i := rows[..n][i][c := v]];
      RowsGpsWrite(rows[..n], i, c, v);
    } else {
      assert updated[..n] == rows[..n];
      RowGpsWrite(rows[i], i, c, v);
    }
  }

  /** Only boxes and left halves count: writing a field changes the score by
    the weight written minus the weight overwritten. */
  lemma GpsWrite(g: Grid, p: Point, v: Field)
    requires Shaped(g) && InRange(g, p)
    ensures Gps(Write(g, p, v)).Some? && Gps(g).Some?
    ensures Gps(Write(g, p, v)).value + Weight(At(g, p), p) == Gps(g).value + Weight(v, p)
  {
    TrimShaped(g);
    TrimShaped(Write(g, p, v));
    RowsGpsWrite(g.inner, p.row, p.col, v);
  }

  /** `Warehouse`: the simulation writes its fields in place. */
  class Warehouse {
    var inner: seq<seq<Field>>
    const width: nat
    const height: nat

    function Contents(): Grid
      reads this
    {
      Grid(inner, width, height)
    }

    predicate Valid()
      reads this
    {
      Formed(Contents())
    }

    constructor (grid: Grid)
      ensures Contents() == grid
    {
      inner := grid.inner;
      width := grid.width;
      height := grid.height;
    }

    /** `IndexMut`: one field is written; `ok` is false, and nothing
      changes, exactly when the cell does not exist and the source panics. */
    method Set(p: Point, f: Field) returns (ok: bool)
      requires Valid()
      modifies this
      ensures Valid()
      ensures ok <==> HasCell(old(Contents()), p)
      ensures ok ==> Contents() == Write(old(Contents()), p, f)
      ensures !ok ==> Contents() == old(Contents())
    {
      if p.row >= |inner| || p.col >= |inner[p.row]| {
        return false;
      }
      inner := inner[p.row := inner[p.row][p.col := f]];
      ok := true;
    }
  }
}
