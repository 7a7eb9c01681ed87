/** The regions builder of java/12 (RegionsBuilder.java): the garden map is
  cut into regions, each the set of plots reachable from one plot through
  neighbours with the same plant, found by a flood fill from the first plot
  in row-major order that no region covers yet. */
module RegionsBuilding {
  import opened Wrappers
  import opened Garden

  /** Every point of the regions of `regions`. */
  ghost function Covered<T>(regions: seq<Region<T>>): set<Point>
  {
    if regions == [] then {} else Covered(regions[..|regions| - 1]) + regions[|regions| - 1].points
  }

  lemma CoveredSnoc<T>(regions: seq<Region<T>>, region: Region<T>)
    ensures Covered(regions + [region]) == Covered(regions) + region.points
  {
    assert (regions + [region])[..|regions|] == regions;
  }

  lemma {:induction false} CoveredMembers<T>(regions: seq<Region<T>>, i: int)
    requires 0 <= i < |regions|
    ensures regions[i].points <= Covered(regions)
  {
    if i < |regions| - 1 {
      CoveredMembers(regions[..|regions| - 1], i);
    }
  }

  /** No two regions share a point. */
  ghost predicate Disjoint<T>(regions: seq<Region<T>>)
  {
    forall i, j :: 0 <= i < j < |regions| ==> regions[i].points !! regions[j].points
  }

  function Last<X>(s: seq<X>): X
    requires |s| > 0
  {
    s[|s| - 1]
  }

  /** `RegionsBuilder`: the map of plants and the corners of its rectangle,
    taken from the number of rows and the length of the first row. */
  datatype RegionsBuilder<T(==)> = RegionsBuilder(values: seq<seq<T>>, minPoint: Point, maxPoint: Point)
  {
    /** What the private constructor sets up. */
    predicate Shaped()
    {
      |values| > 0 && minPoint == Point(0, 0) && maxPoint == Point(|values| - 1, |values[0]| - 1)
    }

    /** No row is shorter than the first, so every plant in range can be
      read. */
    predicate Readable()
    {
      Shaped() && forall r :: 0 <= r < |values| ==> |values[r]| >= |values[0]|
    }

    /** `isInRange`. */
    predicate IsInRange(p: Point)
    {
      IsInSquareRange(p, minPoint, maxPoint)
    }

    /** `getValue`. */
    function GetValue(p: Point): T
      requires Readable() && IsInRange(p)
    {
      values[p.row][p.col]
    }

    /** `getSameValueNeighbours`: the direct neighbours in range with the
      same plant. */
    function SameValueNeighbours(p: Point): (r: set<Point>)
      requires Readable() && IsInRange(p)
      ensures p !in r
      ensures forall q :: q in r <==> Adjacent(p, q) && IsInRange(q) && GetValue(q) == GetValue(p)
    {
      set q | q in DirectNeighbours(p) && IsInRange(q) && GetValue(q) == GetValue(p)
    }

    /** Being a same-plant neighbour goes both ways. */
    lemma NeighbourSymmetric(p: Point, q: Point)
      requires Readable() && IsInRange(p) && IsInRange(q)
      ensures q in SameValueNeighbours(p) ==> p in SameValueNeighbours(q)
    {
    }

    /** Every point of the map's rectangle. */
    ghost function AllPoints(): set<Point>
      requires Shaped()
    {
      set r: int, c: int | 0 <= r < |values| && 0 <= c < |values[0]| :: Point(r, c)
    }

    lemma AllPointsInRange(p: Point)
      requires Shaped()
      ensures p in AllPoints() <==> IsInRange(p)
    {
      if IsInRange(p) {
        assert p == Point(p.row, p.col);
      }
    }

    /** A walk from plot to plot through same-plant neighbours. */
    ghost predicate IsPath(path: seq<Point>)
      requires Readable()
    {
      |path| >= 1 && (forall i :: 0 <= i < |path| ==> IsInRange(path[i])) &&
      forall i :: 0 <= i < |path| - 1 ==> path[i + 1] in SameValueNeighbours(path[i])
    }

    ghost predicate Reachable(x: Point, y: Point)
      requires Readable()
    {
      exists path :: IsPath(path) && path[0] == x && Last(path) == y
    }

    /** The region of `x`: every plot reachable from it. */
    ghost function Component(x: Point): set<Point>
      requires Readable()
    {
      set y | y in AllPoints() && Reachable(x, y)
    }

    lemma ReachEnds(x: Point, y: Point)
      requires Readable() && Reachable(x, y)
      ensures IsInRange(x) && IsInRange(y)
    {
      var path :| IsPath(path) && path[0] == x && Last(path) == y;
      assert IsInRange(path[|path| - 1]);
    }

    lemma ReachSelf(x: Point)
      requires Readable() && IsInRange(x)
      ensures Reachable(x, x)
    {
      assert IsPath([x]);
    }

    lemma ReachStep(x: Point, y: Point, z: Point)
      requires Readable() && IsInRange(y) && Reachable(x, y) && z in SameValueNeighbours(y)
      ensures Reachable(x, z)
    {
      var path :| IsPath(path) && path[0] == x && Last(path) == y;
      var longer := path + [z];
      assert longer[|path| - 1] == y;
      assert IsPath(longer);
    }

    /** A walk from a plot reachable from `x` leads to plots reachable from `x`. */
    lemma {:induction false} PathExtends(x: Point, path: seq<Point>)
      requires Readable() && IsPath(path) && Reachable(x, path[0])
      ensures Reachable(x, Last(path))
      decreases |path|
    {
      if |path| > 1 {
        var front := path[..|path| - 1];
        assert IsPath(front);
        PathExtends(x, front);
        ReachStep(x, Last(front), Last(path));
      }
    }

    lemma ReachTransitive(x: Point, y: Point, z: Point)
      requires Readable() && Reachable(x, y) && Reachable(y, z)
      ensures Reachable(x, z)
    {
      var path :| IsPath(path) && path[0] == y && Last(path) == z;
      PathExtends(x, path);
    }

    /** A walk can be walked back. */
    lemma {:induction false} PathBack(path: seq<Point>)
      requires Readable() && IsPath(path)
      ensures Reachable(Last(path), path[0])
      decreases |path|
    {
      if |path| == 1 {
        ReachSelf(path[0]);
      } else {
        var front := path[..|path| - 1];
        assert IsPath(front);
        PathBack(front);
        var y, z := Last(front), Last(path);
        assert z in SameValueNeighbours(y);
        NeighbourSymmetric(y, z);
        ReachSelf(z);
        ReachStep(z, z, y);
        ReachTransitive(z, y, path[0]);
      }
    }

    lemma ReachSymmetric(x: Point, y: Point)
      requires Readable() && Reachable(x, y)
      ensures Reachable(y, x)
    {
      var path :| IsPath(path) && path[0] == x && Last(path) == y;
      PathBack(path);
    }

    /** All plots of a walk grow the same plant. */
    lemma {:induction false} PathSameValue(path: seq<Point>)
      requires Readable() && IsPath(path)
      ensures GetValue(path[0]) == GetValue(Last(path))
      decreases |path|
    {
      if |path| > 1 {
        var front := path[..|path| - 1];
        assert IsPath(front);
        PathSameValue(front);
        assert Last(path) in SameValueNeighbours(Last(front));
      }
    }

    lemma ReachSameValue(x: Point, y: Point)
      requires Readable() && Reachable(x, y)
      ensures IsInRange(x) && IsInRange(y) && GetValue(x) == GetValue(y)
    {
      var path :| IsPath(path) && path[0] == x && Last(path) == y;
      ReachEnds(x, y);
      PathSameValue(path);
    }

    /** No same-plant neighbour of a plot of `area` is missing from it. */
    ghost predicate Closed(area: set<Point>)
      requires Readable()
    {
      forall x :: x in area ==> IsInRange(x) && SameValueNeighbours(x) <= area
    }

    lemma {:induction false} ClosedContains(area: set<Point>, path: seq<Point>)
      requires Readable() && Closed(area) && IsPath(path) && path[0] in area
      ensures Last(path) in area
      decreases |path|
    {
      if |path| > 1 {
        var front := path[..|path| - 1];
        assert IsPath(front);
        ClosedContains(area, front);
        assert Last(path) in SameValueNeighbours(Last(front));
      }
    }

    /** Plots reachable from each other have the same region. */
    lemma ComponentShared(x: Point, y: Point)
      requires Readable()
      ensures y in Component(x) ==> Component(y) == Component(x)
    {
      if y in Component(x) {
        ReachSymmetric(x, y);
        forall z
          ensures z in Component(y) <==> z in Component(x)
        {
          if Reachable(y, z) {
            ReachTransitive(x, y, z);
          }
          if Reachable(x, z) {
            ReachTransitive(y, x, z);
          }
        }
      }
    }

    /** A region as `build` makes it: not empty, and of every one of its
      plots it is the region, with that plot's plant. */
    ghost predicate IsRegion(region: Region<T>)
      requires Readable()
    {
      region.points != {} &&
      forall x :: x in region.points ==>
        IsInRange(x) && region.points == Component(x) && region.value == GetValue(x)
    }

    lemma ComponentIsRegion(point: Point)
      requires Readable() && IsInRange(point)
      ensures point in Component(point)
      ensures IsRegion(Region(GetValue(point), Component(point)))
    {
      ReachSelf(point);
      AllPointsInRange(point);
      forall x | x in Component(point)
        ensures IsInRange(x) && Component(point) == Component(x) && GetValue(point) == GetValue(x)
      {
        ReachSameValue(point, x);
        ComponentShared(point, x);
      }
    }

    /** Plots of `s` are reachable from `point`. */
    ghost predicate Found(point: Point, s: set<Point>)
      requires Readable()
    {
      forall y :: y in s ==> IsInRange(y) && Reachable(point, y)
    }

    /** Same-plant neighbours of `area` are in `area` or still to visit. */
    ghost predicate Frontier(area: set<Point>, neighbours: set<Point>)
      requires Readable()
    {
      forall x :: x in area ==> IsInRange(x) && SameValueNeighbours(x) <= area + neighbours
    }

    /** The flood fill's first step: the start and its neighbours. */
    lemma FillStart(point: Point)
      requires Readable() && IsInRange(point)
      ensures Found(point, {point}) && Found(point, SameValueNeighbours(point))
      ensures Frontier({point}, SameValueNeighbours(point))
    {
      ReachSelf(point);
      forall y | y in SameValueNeighbours(point)
        ensures Reachable(point, y)
      {
        ReachStep(point, point, y);
      }
    }

    /** A neighbour seen for the first time joins the area, and its own
      neighbours join those to visit. */
    lemma FillAdd(point: Point, area: set<Point>, neighbours: set<Point>, n: Point)
      requires Readable() && Found(point, area) && Found(point, neighbours) && Frontier(area, neighbours)
      requires n in neighbours && n !in area
      ensures IsInRange(n)
      ensures Found(point, area + {n}) && Found(point, neighbours - {n} + SameValueNeighbours(n))
      ensures Frontier(area + {n}, neighbours - {n} + SameValueNeighbours(n))
      ensures area <= AllPoints() ==> |AllPoints() - (area + {n})| < |AllPoints() - area|
    {
      AllPointsInRange(n);
      assert AllPoints() - (area + {n}) < AllPoints() - area;
      forall y | y in SameValueNeighbours(n)
        ensures Reachable(point, y)
      {
        ReachStep(point, n, y);
      }
    }

    /** A neighbour already in the area is dropped. */
    lemma FillSkip(point: Point, area: set<Point>, neighbours: set<Point>, n: Point)
      requires Readable() && Found(point, neighbours) && Frontier(area, neighbours)
      requires n in area
      ensures Found(point, neighbours - {n}) && Frontier(area, neighbours - {n})
    {
    }

    /** With nothing left to visit the area is closed, so it is the region. */
    lemma FillDone(point: Point, area: set<Point>)
      requires Readable() && point in area && Found(point, area) && Frontier(area, {})
      ensures area == Component(point)
    {
      assert Closed(area);
      forall y
        ensures y in area <==> y in Component(point)
      {
        if y in area {
          AllPointsInRange(y);
        }
        if y in Component(point) {
          var path :| IsPath(path) && path[0] == point && Last(path) == y;
          ClosedContains(area, path);
        }
      }
    }

    lemma FoundInside(point: Point, area: set<Point>)
      requires Readable() && Found(point, area)
      ensures area <= AllPoints()
    {
      forall y | y in area
        ensures y in AllPoints()
      {
        AllPointsInRange(y);
      }
    }

    /** `getSameValueArea`: a flood fill from `point` through same-plant
      neighbours, which finds exactly the plots reachable from it. */
    method GetSameValueArea(point: Point) returns (area: set<Point>)
      requires Readable() && IsInRange(point)
      ensures area == Component(point)
    {
      area := {point};
      var neighbours := SameValueNeighbours(point);
      FillStart(point);
      while neighbours != {}
        invariant point in area && Found(point, area) && Found(point, neighbours)
        invariant Frontier(area, neighbours)
        decreases |AllPoints() - area|, |neighbours|
      {
        var neighbour :| neighbour in neighbours;
        FoundInside(point, area);
        if neighbour !in area {
          FillAdd(point, area, neighbours, neighbour);
          neighbours := neighbours - {neighbour};
          area := area + {neighbour};
          neighbours := neighbours + SameValueNeighbours(neighbour);
        } else {
          FillSkip(point, area, neighbours, neighbour);
          neighbours := neighbours - {neighbour};
        }
      }
      FillDone(point, area);
    }

    /** What `build` keeps: `covered` is the union of the regions so far,
      which lie in the map, do not overlap, and are regions. */
    ghost predicate Built(regions: seq<Region<T>>, covered: set<Point>)
      requires Readable()
    {
      covered == Covered(regions) && covered <= AllPoints() && Disjoint(regions) &&
      forall i :: 0 <= i < |regions| ==> IsRegion(regions[i])
    }

    /** Every plot of the map before row `row`, column `col` is covered. */
    ghost predicate CoversBefore(covered: set<Point>, row: int, col: int)
      requires Shaped()
    {
      forall p :: p in AllPoints() && (p.row < row || (p.row == row && p.col < col)) ==> p in covered
    }

    /** `build`: row by row and column by column, each plot no region covers
      yet starts a new region, its flood fill. The regions cover the map, do
      not overlap, and each is the region of every one of its plots. */
    method Build() returns (regions: seq<Region<T>>)
      requires Readable()
      ensures Covered(regions) == AllPoints()
      ensures Disjoint(regions)
      ensures forall i :: 0 <= i < |regions| ==> IsRegion(regions[i])
    {
      regions := [];
      var rows := |values|;
      var cols := |values[0]|;
      var coveredPoints: set<Point> := {};
      for row := 0 to rows
        invariant Built(regions, coveredPoints)
        invariant CoversBefore(coveredPoints, row, 0)
      {
        for col := 0 to cols
          invariant Built(regions, coveredPoints)
          invariant CoversBefore(coveredPoints, row, col)
        {
          var point := Point(row, col);
          AllPointsInRange(point);
          if point in coveredPoints {
            CoversNext(coveredPoints, coveredPoints, row, col);
            continue;
          }
          var area := GetSameValueArea(point);
          NewRegion(regions, coveredPoints, point);
          CoversNext(coveredPoints, coveredPoints + area, row, col);
          coveredPoints := coveredPoints + area;
          regions := regions + [Region(GetValue(point), area)];
        }
        RowDone(coveredPoints, row, cols);
      }
      FullyCovered(coveredPoints, rows);
    }

    /** Covering the plot at `row`, `col` covers one plot more. */
    lemma CoversNext(covered: set<Point>, more: set<Point>, row: int, col: int)
      requires Shaped() && CoversBefore(covered, row, col) && covered <= more && Point(row, col) in more
      ensures CoversBefore(more, row, col + 1)
    {
    }

    lemma RowDone(covered: set<Point>, row: int, cols: int)
      requires Shaped() && cols == |values[0]| && CoversBefore(covered, row, cols)
      ensures CoversBefore(covered, row + 1, 0)
    {
      forall p | p in AllPoints() && p.row < row + 1
        ensures p in covered
      {
        AllPointsInRange(p);
      }
    }

    lemma FullyCovered(covered: set<Point>, rows: int)
      requires Shaped() && rows == |values| && CoversBefore(covered, rows, 0)
      ensures AllPoints() <= covered
    {
      forall p | p in AllPoints()
        ensures p in covered
      {
        AllPointsInRange(p);
      }
    }

    /** The flood fill of a plot no region covers is a region that meets none
      of them, and it stays inside the map. */
    lemma NewRegion(regions: seq<Region<T>>, covered: set<Point>, point: Point)
      requires Readable() && IsInRange(point)
      requires Built(regions, covered) && point !in covered
      ensures point in Component(point)
      ensures Built(regions + [Region(GetValue(point), Component(point))], covered + Component(point))
    {
      ComponentIsRegion(point);
      var next := regions + [Region(GetValue(point), Component(point))];
      forall i | 0 <= i < |regions|
        ensures regions[i].points !! Component(point)
      {
        CoveredMembers(regions, i);
        forall x | x in regions[i].points
          ensures x in Component(point) ==> point in regions[i].points
        {
          ComponentShared(point, x);
        }
      }
      assert forall i :: 0 <= i < |regions| ==> next[i] == regions[i];
      CoveredSnoc(regions, Region(GetValue(point), Component(point)));
      FoundComponent(point);
    }

    lemma FoundComponent(point: Point)
      requires Readable()
      ensures Component(point) <= AllPoints()
    {
    }
  }

  /** `from`: the private constructor reads the first row, which the empty
    map does not have. */
  function From<T(==)>(values: seq<seq<T>>): (builder: Option<RegionsBuilder<T>>)
    ensures builder.None? <==> values == []
    ensures builder.Some? ==> builder.value.Shaped() && builder.value.values == values
  {
    if values == [] then None
    else Some(RegionsBuilder(values, Point(0, 0), Point(|values| - 1, |values[0]| - 1)))
  }
}
