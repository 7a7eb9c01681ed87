/** The garden regions of java/12 (Region.java): the perimeter counted point
  by point from the missing neighbours, and the sides counted by walking the
  region's walls one at a time. */
module Regions {
  import opened Garden
  import opened RegionSides

  /** The pieces of one plot are as many as its free sides. */
  lemma {:induction false} PiecesOfPlot(p: Point, sides: set<Side>)
    ensures |set s | s in sides :: WallPiece(p, s)| == |sides|
    decreases |sides|
  {
    if sides != {} {
      var x :| x in sides;
      var rest := sides - {x};
      PiecesOfPlot(p, rest);
      var image := set s | s in sides :: WallPiece(p, s);
      var restImage := set s | s in rest :: WallPiece(p, s);
      assert image == restImage + {WallPiece(p, x)};
      assert WallPiece(p, x) !in restImage;
    }
  }

  /** Adding one plot adds its pieces, none of which another plot has. */
  lemma AddPlot(points: set<Point>, done: set<Point>, p: Point)
    requires p !in done
    ensures |PiecesAt(points, done + {p})| == |PiecesAt(points, done)| + |FreeSides(points, p)|
  {
    var own := set s | s in FreeSides(points, p) :: WallPiece(p, s);
    assert PiecesAt(points, done + {p}) == PiecesAt(points, done) + own;
    assert PiecesAt(points, done) !! own;
    PiecesOfPlot(p, FreeSides(points, p));
  }

  /** `calculatePerimeter`: every plot adds four less its neighbours in the
    region, which makes the number of wall pieces of the region, at most four
    per plot. */
  method CalculatePerimeter<T>(region: Region<T>) returns (perimeter: nat)
    ensures perimeter == |FreePieces(region.points)|
    ensures perimeter <= 4 * region.Area()
  {
    var points := region.points;
    perimeter := 0;
    var rest := points;
    ghost var done: set<Point> := {};
    while rest != {}
      invariant done + rest == points && done !! rest
      invariant perimeter == |PiecesAt(points, done)|
      invariant perimeter <= 4 * |done|
      decreases |rest|
    {
      var p :| p in rest;
      var actualNeighbours := NeighboursIn(points, p);
      FreeSidesCount(points, p);
      AddPlot(points, done, p);
      perimeter := perimeter + (4 - actualNeighbours);
      rest := rest - {p};
      done := done + {p};
    }
  }

  /** `countSides`: one side per wall the iterator returns, which makes the
    number of pieces where a side begins. */
  method CountSides<T>(region: Region<T>) returns (sides: nat)
    ensures sides == Sides(region.points)
  {
    var walls := new RegionSidesIterator(region);
    sides := 0;
    while walls.HasNext()
      invariant walls.Valid() && walls.points == region.points
      invariant sides + walls.RemainingSides() == Sides(region.points)
      decreases walls.RemainingSides()
    {
      var wall := walls.Next();
      sides := sides + 1;
    }
    SidesRemain(walls.points, walls.wallPieces);
  }
}
