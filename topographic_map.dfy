/** The lava island's topographic map (java/10/src/TopographicMap.java): a
  grid of heights, its four-neighbourhood and its points of one height in
  row-major order. */
module TopoMaps {
  datatype Point = Point(row: int, col: int)

  /** `Vector`: a step between two points. */
  datatype Vector = Vector(row: int, col: int)

  function Add(p: Point, v: Vector): Point
  {
    Point(p.row + v.row, p.col + v.col)
  }

  /** `TopographicMap`: the heights row by row and the size the caller gives. */
  datatype TopographicMap = TopographicMap(heights: seq<seq<int>>, rows: int, cols: int)

  /** The size is not negative and every point inside it has a height, so
    `heightAt` never looks outside the lists. */
  predicate Fits(m: TopographicMap)
  {
    0 <= m.rows <= |m.heights| && 0 <= m.cols &&
    forall r :: 0 <= r < m.rows ==> m.cols <= |m.heights[r]|
  }

  predicate InRange(m: TopographicMap, p: Point)
  {
    0 <= p.row < m.rows && 0 <= p.col < m.cols
  }

  function HeightAt(m: TopographicMap, p: Point): int
    requires Fits(m) && InRange(m, p)
  {
    m.heights[p.row][p.col]
  }

  /** One step right, down, left or up. */
  predicate Neighbours(p: Point, q: Point)
  {
    (q.row == p.row && (q.col == p.col + 1 || q.col == p.col - 1)) ||
    (q.col == p.col && (q.row == p.row + 1 || q.row == p.row - 1))
  }

  predicate Distinct(ps: seq<Point>)
  {
    forall a, b :: 0 <= a < b < |ps| ==> ps[a] != ps[b]
  }

  /** The points of `ps` inside the map, in order. */
  function KeepInRange(m: TopographicMap, ps: seq<Point>): (r: seq<Point>)
    ensures forall q :: q in r <==> q in ps && InRange(m, q)
  {
    if ps == [] then []
    else (if InRange(m, ps[0]) then [ps[0]] else []) + KeepInRange(m, ps[1..])
  }

  /** `adjacentPoints`: right, down, left and up, those inside the map. */
  function AdjacentPoints(m: TopographicMap, p: Point): (r: seq<Point>)
    ensures forall q :: q in r <==> InRange(m, q) && Neighbours(p, q)
  {
    var ps := [Add(p, Vector(0, 1)), Add(p, Vector(1, 0)), Add(p, Vector(0, -1)), Add(p, Vector(-1, 0))];
    assert forall q :: q in ps <==> Neighbours(p, q);
    KeepInRange(m, ps)
  }

  /** The adjacent points are exactly the neighbours inside the map, each
    listed once. */
  lemma AdjacentPointsMembers(m: TopographicMap, p: Point)
    ensures forall q :: q in AdjacentPoints(m, p) <==> InRange(m, q) && Neighbours(p, q)
    ensures Distinct(AdjacentPoints(m, p))
  {
    var ps := [Add(p, Vector(0, 1)), Add(p, Vector(1, 0)), Add(p, Vector(0, -1)), Add(p, Vector(-1, 0))];
    assert forall q :: q in ps <==> Neighbours(p, q);
    DistinctKeep(m, ps);
  }

  /** No adjacent point comes up twice. */
  lemma AdjacentPointFresh(m: TopographicMap, p: Point, j: nat)
    requires j < |AdjacentPoints(m, p)|
    ensures AdjacentPoints(m, p)[j] !in AdjacentPoints(m, p)[..j]
  {
    AdjacentPointsMembers(m, p);
  }

  lemma {:induction false} DistinctKeep(m: TopographicMap, ps: seq<Point>)
    requires Distinct(ps)
    ensures Distinct(KeepInRange(m, ps))
  {
    if ps != [] {
      assert Distinct(ps[1..]);
      DistinctKeep(m, ps[1..]);
    }
  }

  /** The points of row `r` left of column `c` whose height is `h`. */
  function RowPrefix(m: TopographicMap, h: int, r: int, c: int): seq<Point>
    requires Fits(m) && 0 <= r < m.rows && 0 <= c <= m.cols
  {
    if c == 0 then []
    else RowPrefix(m, h, r, c - 1) + (if m.heights[r][c - 1] == h then [Point(r, c - 1)] else [])
  }

  /** The points of the rows above row `r` whose height is `h`, row by row. */
  function RowsPrefix(m: TopographicMap, h: int, r: int): seq<Point>
    requires Fits(m) && 0 <= r <= m.rows
  {
    if r == 0 then [] else RowsPrefix(m, h, r - 1) + RowPrefix(m, h, r - 1, m.cols)
  }

  /** Every point of height `h`, in row-major order. */
  function PointsWithHeight(m: TopographicMap, h: int): seq<Point>
    requires Fits(m)
  {
    RowsPrefix(m, h, m.rows)
  }

  /** Row-major order: earlier rows first, then earlier columns. */
  predicate Before(p: Point, q: Point)
  {
    p.row < q.row || (p.row == q.row && p.col < q.col)
  }

  predicate RowMajor(ps: seq<Point>)
  {
    forall a, b :: 0 <= a < b < |ps| ==> Before(ps[a], ps[b])
  }

  /** Appending a point after all of a row-major list keeps it row-major. */
  lemma RowMajorAppend(ps: seq<Point>, qs: seq<Point>)
    requires RowMajor(ps) && RowMajor(qs)
    requires forall a, b :: 0 <= a < |ps| && 0 <= b < |qs| ==> Before(ps[a], qs[b])
    ensures RowMajor(ps + qs)
  {
    forall a, b | 0 <= a < b < |ps + qs|
      ensures Before((ps + qs)[a], (ps + qs)[b])
    {
      if b < |ps| {
        assert (ps + qs)[a] == ps[a] && (ps + qs)[b] == ps[b];
      } else if a >= |ps| {
        assert (ps + qs)[a] == qs[a - |ps|] && (ps + qs)[b] == qs[b - |ps|];
      } else {
        assert (ps + qs)[a] == ps[a] && (ps + qs)[b] == qs[b - |ps|];
      }
    }
  }

  lemma {:induction false} RowPrefixShape(m: TopographicMap, h: int, r: int, c: int)
    requires Fits(m) && 0 <= r < m.rows && 0 <= c <= m.cols
    ensures RowMajor(RowPrefix(m, h, r, c))
    ensures forall k :: 0 <= k < |RowPrefix(m, h, r, c)| ==>
      RowPrefix(m, h, r, c)[k].row == r && 0 <= RowPrefix(m, h, r, c)[k].col < c
    ensures forall p :: p in RowPrefix(m, h, r, c) <==>
      p.row == r && 0 <= p.col < c && HeightAt(m, p) == h
  {
    if c > 0 {
      RowPrefixShape(m, h, r, c - 1);
      RowMajorAppend(RowPrefix(m, h, r, c - 1), if m.heights[r][c - 1] == h then [Point(r, c - 1)] else []);
    }
  }

  lemma {:induction false} RowsPrefixShape(m: TopographicMap, h: int, r: int)
    requires Fits(m) && 0 <= r <= m.rows
    ensures RowMajor(RowsPrefix(m, h, r))
    ensures forall k :: 0 <= k < |RowsPrefix(m, h, r)| ==> RowsPrefix(m, h, r)[k].row < r
    ensures forall p :: p in RowsPrefix(m, h, r) <==>
      p.row < r && InRange(m, p) && HeightAt(m, p) == h
  {
    if r > 0 {
      var above, row := RowsPrefix(m, h, r - 1), RowPrefix(m, h, r - 1, m.cols);
      RowsPrefixShape(m, h, r - 1);
      RowPrefixShape(m, h, r - 1, m.cols);
      RowMajorAppend(above, row);
    }
  }

  /** `findByHeight` lists exactly the points of that height, each once, in
    row-major order. */
  lemma PointsWithHeightMembers(m: TopographicMap, h: int)
    requires Fits(m)
    ensures forall p :: p in PointsWithHeight(m, h) <==> InRange(m, p) && HeightAt(m, p) == h
    ensures forall k :: 0 <= k < |PointsWithHeight(m, h)| ==>
      InRange(m, PointsWithHeight(m, h)[k]) && HeightAt(m, PointsWithHeight(m, h)[k]) == h
    ensures RowMajor(PointsWithHeight(m, h))
    ensures Distinct(PointsWithHeight(m, h))
  {
    RowsPrefixShape(m, h, m.rows);
  }

  lemma PrefixSnoc(ps: seq<Point>, k: nat)
    requires k < |ps|
    ensures ps[..k + 1] == ps[..k] + [ps[k]]
  {
  }

  lemma PointsInRange(m: TopographicMap, h: int)
    requires Fits(m)
    ensures forall k :: 0 <= k < |PointsWithHeight(m, h)| ==>
      InRange(m, PointsWithHeight(m, h)[k]) && HeightAt(m, PointsWithHeight(m, h)[k]) == h
  {
    PointsWithHeightMembers(m, h);
  }

  /** Where a point of height `h` stands in `findByHeight`'s list. */
  lemma IndexOfPoint(m: TopographicMap, h: int, q: Point) returns (j: nat)
    requires Fits(m) && InRange(m, q) && HeightAt(m, q) == h
    ensures j < |PointsWithHeight(m, h)| && PointsWithHeight(m, h)[j] == q
  {
    PointsWithHeightMembers(m, h);
    j :| j < |PointsWithHeight(m, h)| && PointsWithHeight(m, h)[j] == q;
  }

  /** `findByHeight`: the two loops over rows and columns. */
  method FindByHeight(m: TopographicMap, h: int) returns (points: seq<Point>)
    requires Fits(m)
    ensures points == PointsWithHeight(m, h)
  {
    points := [];
    for row := 0 to m.rows
      invariant points == RowsPrefix(m, h, row)
    {
      for col := 0 to m.cols
        invariant points == RowsPrefix(m, h, row) + RowPrefix(m, h, row, col)
      {
        var point := Point(row, col);
        if HeightAt(m, point) == h {
          points := points + [point];
        }
      }
    }
  }
}
