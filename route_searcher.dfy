/** The trailhead searcher (java/10/src/RouteSearcher.java): one list of
  start points per cell of the map, filled level by level from the bottom
  points upwards. */
module RouteSearch {
  import opened Wrappers
  import opened TopoMaps
  import opened HikingTrails

  class RouteSearcher {
    const topoMap: TopographicMap
    const bottom: int
    const top: int
    /** `reachablePoints`: per row, per column, the start points that reach
      that cell. */
    var reachablePoints: seq<seq<seq<Point>>>

    /** One list per cell of the map. */
    ghost predicate Shaped()
      reads this
    {
      Fits(topoMap) && |reachablePoints| == topoMap.rows &&
      forall r :: 0 <= r < topoMap.rows ==> |reachablePoints[r]| == topoMap.cols
    }

    ghost function Cell(p: Point): seq<Point>
      reads this
      requires Shaped() && InRange(topoMap, p)
    {
      reachablePoints[p.row][p.col]
    }

    /** Each list holds what reaches its cell, as often as it is reached. */
    ghost predicate Computed()
      reads this
    {
      Shaped() && forall p :: InRange(topoMap, p) ==> multiset(Cell(p)) == Reach(topoMap, bottom, top, p)
    }

    /** The state once the levels up to `i` are done: a cell of height
      `bottom` to `i` lists what reaches it and every other cell is empty. */
    ghost predicate LevelsDone(i: int)
      reads this
    {
      Shaped() && bottom <= i &&
      forall p :: InRange(topoMap, p) ==> multiset(Cell(p)) == Done(p, i)
    }

    ghost function Done(p: Point, i: int): multiset<Point>
      requires Fits(topoMap) && InRange(topoMap, p)
    {
      if bottom <= HeightAt(topoMap, p) <= i then Reach(topoMap, bottom, top, p) else multiset{}
    }

    /** Halfway through level `i`: the lower points `lower` have passed
      their lists on to their neighbours one higher. */
    ghost predicate LevelPartly(i: int, lower: seq<Point>)
      reads this
      requires Fits(topoMap) && bottom <= i
    {
      Shaped() &&
      forall p :: InRange(topoMap, p) ==> (multiset(Cell(p)) ==
        if HeightAt(topoMap, p) == i + 1 then FromLower(topoMap, bottom, top, lower, i, p) else Done(p, i))
    }

    /** The constructor: an empty list for every cell. */
    constructor (topoMap: TopographicMap, bottom: int, top: int)
      requires Fits(topoMap)
      ensures this.topoMap == topoMap && this.bottom == bottom && this.top == top
      ensures Shaped() && forall p :: InRange(topoMap, p) ==> Cell(p) == []
    {
      this.topoMap := topoMap;
      this.bottom := bottom;
      this.top := top;
      var rows: seq<seq<seq<Point>>> := [];
      for row := 0 to topoMap.rows
        invariant |rows| == row
        invariant forall r :: 0 <= r < row ==> rows[r] == seq(topoMap.cols, _ => [])
      {
        var list: seq<seq<Point>> := [];
        for col := 0 to topoMap.cols
          invariant list == seq(col, _ => [])
        {
          list := list + [[]];
        }
        rows := rows + [list];
      }
      reachablePoints := rows;
    }

    /** `markReachable`: `startPoint` joins the list of `from`. */
    method MarkReachable(from: Point, startPoint: Point)
      requires Shaped() && InRange(topoMap, from)
      modifies this
      ensures Shaped()
      ensures reachablePoints == old(reachablePoints)[from.row := old(reachablePoints)[from.row][from.col := old(Cell(from)) + [startPoint]]]
    {
      reachablePoints := reachablePoints[from.row := reachablePoints[from.row][from.col := reachablePoints[from.row][from.col] + [startPoint]]];
    }

    /** `reachableStartPoints.forEach(p -> markReachable(neighbour, p))`: all
      of `starts` join the list of `neighbour`, in order. */
    method MarkAllReachable(neighbour: Point, starts: seq<Point>)
      requires Shaped() && InRange(topoMap, neighbour)
      modifies this
      ensures Shaped()
      ensures Cell(neighbour) == old(Cell(neighbour)) + starts
      ensures forall p :: InRange(topoMap, p) && p != neighbour ==> Cell(p) == old(Cell(p))
    {
      for x := 0 to |starts|
        invariant Shaped()
        invariant Cell(neighbour) == old(Cell(neighbour)) + starts[..x]
        invariant forall p :: InRange(topoMap, p) && p != neighbour ==> Cell(p) == old(Cell(p))
      {
        MarkReachable(neighbour, starts[x]);
        assert starts[..x + 1] == starts[..x] + [starts[x]];
      }
      assert starts[..|starts|] == starts;
    }

    /** One point of level `i` hands its list to each neighbour one higher. */
    method PassOn(point: Point)
      requires Shaped() && InRange(topoMap, point)
      modifies this
      ensures Shaped()
      ensures forall p :: InRange(topoMap, p) ==> (Cell(p) ==
        if p in AdjacentPoints(topoMap, point) && HeightAt(topoMap, p) == HeightAt(topoMap, point) + 1
        then old(Cell(p)) + old(Cell(point)) else old(Cell(p)))
    {
      var i := HeightAt(topoMap, point);
      var reachableStartPoints := reachablePoints[point.row][point.col];
      var neighbours := AdjacentPoints(topoMap, point);
      for j := 0 to |neighbours|
        invariant Shaped()
        invariant forall p :: InRange(topoMap, p) ==> (Cell(p) ==
          if p in neighbours[..j] && HeightAt(topoMap, p) == i + 1
          then old(Cell(p)) + reachableStartPoints else old(Cell(p)))
      {
        var neighbour := neighbours[j];
        PrefixSnoc(neighbours, j);
        AdjacentPointFresh(topoMap, point, j);
        if HeightAt(topoMap, neighbour) != i + 1 {
          continue;
        }
        MarkAllReachable(neighbour, reachableStartPoints);
      }
      assert neighbours[..|neighbours|] == neighbours;
    }

    /** `computeReachability`: every bottom point lists itself, then level by
      level each point hands its list to its neighbours one higher. Called
      on a fresh searcher, it leaves every cell's list holding the start
      points that reach it, each once per hiking trail. */
    method ComputeReachability()
      requires Shaped() && forall p :: InRange(topoMap, p) ==> Cell(p) == []
      modifies this
      ensures Computed()
    {
      MarkStartPoints();
      StartLevels();
      var i := bottom;
      while i < top
        invariant LevelsDone(i) && (bottom <= top ==> i <= top)
        decreases top - i
      {
        PassOnLevel(i);
        i := i + 1;
      }
      AllLevels(i);
    }

    /** `findByHeight(bottom).forEach(p -> markReachable(p, p))`: on a fresh
      searcher, each bottom point then lists exactly itself. */
    method MarkStartPoints()
      requires Shaped() && forall p :: InRange(topoMap, p) ==> Cell(p) == []
      modifies this
      ensures Shaped()
      ensures forall p :: InRange(topoMap, p) ==> Cell(p) == if HeightAt(topoMap, p) == bottom then [p] else []
    {
      var bottomPoints := FindByHeight(topoMap, bottom);
      PointsWithHeightMembers(topoMap, bottom);
      for k := 0 to |bottomPoints|
        invariant Shaped()
        invariant forall p :: InRange(topoMap, p) ==> Cell(p) == if p in bottomPoints[..k] then [p] else []
      {
        var p := bottomPoints[k];
        assert forall q :: q in bottomPoints[..k + 1] <==> q in bottomPoints[..k] || q == p;
        assert p !in bottomPoints[..k];
        MarkReachable(p, p);
      }
      assert bottomPoints[..|bottomPoints|] == bottomPoints;
    }

    /** One pass of the level loop: every point of height `i`, in
      `findByHeight` order, hands its list on. */
    method PassOnLevel(i: int)
      requires LevelsDone(i) && i < top
      modifies this
      ensures LevelsDone(i + 1)
    {
      var points := FindByHeight(topoMap, i);
      PointsInRange(topoMap, i);
      StartLevel(i);
      for k := 0 to |points|
        invariant LevelPartly(i, points[..k])
      {
        PassOnNext(i, points[..k], points[k]);
        PrefixSnoc(points, k);
      }
      assert points[..|points|] == points;
      EndLevel(i);
    }

    /** The body of the level loop: the next point of level `i` hands its
      list on, and the level advances by that point. */
    method PassOnNext(i: int, ghost lower: seq<Point>, point: Point)
      requires Fits(topoMap) && bottom <= i && InRange(topoMap, point) && HeightAt(topoMap, point) == i
      requires LevelPartly(i, lower)
      modifies this
      ensures LevelPartly(i, lower + [point])
    {
      ghost var before := reachablePoints;
      PassOn(point);
      NextPoint(i, lower, point, before);
    }

    /** After the bottom points list themselves, level `bottom` is done. */
    lemma StartLevels()
      requires Shaped()
      requires forall p :: InRange(topoMap, p) ==> Cell(p) == if HeightAt(topoMap, p) == bottom then [p] else []
      ensures LevelsDone(bottom)
    {
    }

    lemma StartLevel(i: int)
      requires LevelsDone(i)
      ensures LevelPartly(i, PointsWithHeight(topoMap, i)[..0])
    {
    }

    /** Handing on the list of the next point `q` of level `i` advances the
      level by that point. */
    lemma NextPoint(i: int, lower: seq<Point>, q: Point, before: seq<seq<seq<Point>>>)
      requires Fits(topoMap) && bottom <= i && InRange(topoMap, q) && HeightAt(topoMap, q) == i
      requires Shaped() && |before| == topoMap.rows && forall r :: 0 <= r < topoMap.rows ==> |before[r]| == topoMap.cols
      requires forall p :: InRange(topoMap, p) ==> (multiset(before[p.row][p.col]) ==
        if HeightAt(topoMap, p) == i + 1 then FromLower(topoMap, bottom, top, lower, i, p) else Done(p, i))
      requires forall p :: InRange(topoMap, p) ==> (Cell(p) ==
        if p in AdjacentPoints(topoMap, q) && HeightAt(topoMap, p) == i + 1
        then before[p.row][p.col] + before[q.row][q.col] else before[p.row][p.col])
      ensures LevelPartly(i, lower + [q])
    {
      assert (lower + [q])[..|lower|] == lower;
      forall p | InRange(topoMap, p)
        ensures multiset(Cell(p)) ==
          if HeightAt(topoMap, p) == i + 1 then FromLower(topoMap, bottom, top, lower + [q], i, p) else Done(p, i)
      {
        assert FromLower(topoMap, bottom, top, lower + [q], i, p) ==
          FromLower(topoMap, bottom, top, lower, i, p) +
          (if StepUp(topoMap, q, i, p) then Reach(topoMap, bottom, top, q) else multiset{});
      }
    }

    /** Once every point of level `i` has handed on its list, level `i + 1`
      is done. */
    lemma EndLevel(i: int)
      requires Fits(topoMap) && bottom <= i < top
      requires LevelPartly(i, PointsWithHeight(topoMap, i))
      ensures LevelsDone(i + 1)
    {
      forall p | InRange(topoMap, p)
        ensures multiset(Cell(p)) == Done(p, i + 1)
      {
        if HeightAt(topoMap, p) == i + 1 {
          assert Reach(topoMap, bottom, top, p) == FromLower(topoMap, bottom, top, PointsWithHeight(topoMap, i), i, p);
        }
      }
    }

    /** With every level up to `top` done, each list holds all it should. */
    lemma AllLevels(i: int)
      requires LevelsDone(i) && top <= i && (bottom <= top ==> i == top)
      ensures Computed()
    {
      forall p | InRange(topoMap, p)
        ensures Done(p, i) == Reach(topoMap, bottom, top, p)
      {
      }
    }

    /** `getReachableStartPoints`: the list of a cell; outside the topoMap the
      list lookup throws. Once computed, it holds one entry per hiking
      trail to `from`. */
    method GetReachableStartPoints(from: Point) returns (r: Result<seq<Point>>)
      requires Shaped()
      ensures r.Ok? <==> InRange(topoMap, from)
      ensures r.Ok? ==> r.value == Cell(from)
      ensures r.Ok? && Computed() ==> multiset(r.value) == Reach(topoMap, bottom, top, from)
    {
      if !InRange(topoMap, from) {
        return Err("Index out of bounds");
      }
      return Ok(reachablePoints[from.row][from.col]);
    }

    /** `getUniqueReachableStartPoints`: the distinct start points of a
      cell's list. Once computed, they are the start points from which some
      hiking trail leads to `from`. */
    method GetUniqueReachableStartPoints(from: Point) returns (r: Result<set<Point>>)
      requires Shaped()
      ensures r.Ok? <==> InRange(topoMap, from)
      ensures r.Ok? ==> r.value == set x | x in Cell(from)
      ensures r.Ok? && Computed() ==> forall s :: s in r.value <==> s in Reach(topoMap, bottom, top, from)
    {
      if !InRange(topoMap, from) {
        return Err("Index out of bounds");
      }
      var list := reachablePoints[from.row][from.col];
      return Ok(set x | x in list);
    }
  }
}
