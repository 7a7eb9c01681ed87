/** The side iterator of java/12 (RegionSidesIterator.java): it holds the
  wall pieces of a region not yet walked, and each `next` takes one piece,
  extends it to the longest straight wall through it and removes that wall's
  pieces. */
module RegionSides {
  import opened Wrappers
  import opened Garden

  /** With each piece, the pieces right before and after it on the same side
    are in `pieces` whenever they are wall pieces at all: `pieces` is made of
    whole walls. */
  ghost predicate Closed(points: set<Point>, pieces: set<WallPiece>)
  {
    forall w {:trigger NeighboursKept(points, pieces, w)} :: w in pieces ==> NeighboursKept(points, pieces, w)
  }

  ghost predicate NeighboursKept(points: set<Point>, pieces: set<WallPiece>, w: WallPiece)
  {
    var line, pos := Line(w.side, w.point), Pos(w.side, w.point);
    (IsPiece(points, PieceAt(w.side, line, pos + 1)) ==> PieceAt(w.side, line, pos + 1) in pieces) &&
    (IsPiece(points, PieceAt(w.side, line, pos - 1)) ==> PieceAt(w.side, line, pos - 1) in pieces)
  }

  /** The pieces on `side` of line `line` from position `lo` up to, not
    including, `hi`. */
  ghost function Span(side: Side, line: int, lo: int, hi: int): set<WallPiece>
  {
    set t | lo <= t < hi :: PieceAt(side, line, t)
  }

  /** The pieces a wall is made of, from its start to its end. */
  ghost function PiecesOf(wall: Wall): set<WallPiece>
  {
    Span(wall.side, Line(wall.side, wall.start), Pos(wall.side, wall.start), Pos(wall.side, wall.end) + 1)
  }

  /** Every position from `lo` up to, not including, `hi` holds a piece. */
  predicate Run(points: set<Point>, side: Side, line: int, lo: int, hi: int)
  {
    forall u :: lo <= u < hi ==> IsPiece(points, PieceAt(side, line, u))
  }

  /** A wall that cannot be made longer: start and end on one line, every
    piece between them present and none just before or just after. */
  predicate IsMaximalWall(points: set<Point>, wall: Wall)
  {
    var side, line := wall.side, Line(wall.side, wall.start);
    var lo, hi := Pos(side, wall.start), Pos(side, wall.end);
    Line(side, wall.end) == line && lo <= hi &&
    Run(points, side, line, lo, hi + 1) &&
    !IsPiece(points, PieceAt(side, line, lo - 1)) && !IsPiece(points, PieceAt(side, line, hi + 1))
  }

  lemma SpanSnoc(side: Side, line: int, lo: int, hi: int)
    requires lo <= hi
    ensures Span(side, line, lo, hi + 1) == Span(side, line, lo, hi) + {PieceAt(side, line, hi)}
  {
  }

  lemma SpanMember(side: Side, line: int, lo: int, hi: int, w: WallPiece)
    requires w in Span(side, line, lo, hi)
    ensures w.side == side && Line(side, w.point) == line && lo <= Pos(side, w.point) < hi
    ensures w == PieceAt(side, line, Pos(side, w.point))
  {
    var t :| lo <= t < hi && w == PieceAt(side, line, t);
    PointAtCoordinates(side, line, t);
  }

  lemma SpanIff(side: Side, line: int, lo: int, hi: int, x: WallPiece)
    ensures x in Span(side, line, lo, hi) <==>
      x.side == side && Line(side, x.point) == line && lo <= Pos(side, x.point) < hi
  {
    if x in Span(side, line, lo, hi) {
      SpanMember(side, line, lo, hi, x);
    }
    if x.side == side && Line(side, x.point) == line && lo <= Pos(side, x.point) < hi {
      Coordinates(side, x.point);
      assert x == PieceAt(side, line, Pos(side, x.point));
    }
  }

  /** Within closed pieces holding one piece of a run of pieces, the whole
    run is held, walking one piece at a time. */
  lemma {:induction false} Spread(points: set<Point>, pieces: set<WallPiece>, side: Side, line: int, lo: int, hi: int, t0: int, t: int)
    requires Closed(points, pieces)
    requires lo <= t0 <= hi && lo <= t <= hi
    requires Run(points, side, line, lo, hi + 1)
    requires PieceAt(side, line, t0) in pieces
    ensures PieceAt(side, line, t) in pieces
    decreases if t < t0 then t0 - t else t - t0
  {
    if t > t0 {
      Spread(points, pieces, side, line, lo, hi, t0, t - 1);
      SpreadStep(points, pieces, side, line, t - 1, t);
    } else if t < t0 {
      Spread(points, pieces, side, line, lo, hi, t0, t + 1);
      SpreadStep(points, pieces, side, line, t + 1, t);
    }
  }

  /** One step of `Spread`: a held piece's neighbour on its line is held when
    it is a piece at all. */
  lemma SpreadStep(points: set<Point>, pieces: set<WallPiece>, side: Side, line: int, t: int, next: int)
    requires Closed(points, pieces)
    requires next == t + 1 || next == t - 1
    requires PieceAt(side, line, t) in pieces && IsPiece(points, PieceAt(side, line, next))
    ensures PieceAt(side, line, next) in pieces
  {
    PointAtCoordinates(side, line, t);
    assert NeighboursKept(points, pieces, PieceAt(side, line, t));
  }

  /** The maximal wall through a piece of closed pieces lies inside them. */
  lemma WallInside(points: set<Point>, pieces: set<WallPiece>, wall: Wall, w: WallPiece)
    requires Closed(points, pieces) && IsMaximalWall(points, wall)
    requires w in pieces && w in PiecesOf(wall)
    ensures PiecesOf(wall) <= pieces
  {
    var side, line := wall.side, Line(wall.side, wall.start);
    var lo, hi := Pos(side, wall.start), Pos(side, wall.end);
    SpanMember(side, line, lo, hi + 1, w);
    forall x | x in PiecesOf(wall) ensures x in pieces {
      SpanMember(side, line, lo, hi + 1, x);
      Spread(points, pieces, side, line, lo, hi, Pos(side, w.point), Pos(side, x.point));
    }
  }

  /** A maximal wall holds exactly one piece where a side begins: its start. */
  lemma WallStarts(points: set<Point>, wall: Wall)
    requires IsMaximalWall(points, wall)
    ensures StartsIn(points, PiecesOf(wall)) == {WallPiece(wall.start, wall.side)}
  {
    var side, line := wall.side, Line(wall.side, wall.start);
    var lo, hi := Pos(side, wall.start), Pos(side, wall.end);
    Coordinates(side, wall.start);
    assert WallPiece(wall.start, side) == PieceAt(side, line, lo);
    PointAtCoordinates(side, line, lo);
    assert WallPiece(wall.start, side) in PiecesOf(wall);
    forall x | x in PiecesOf(wall) ensures IsStart(points, x) ==> x == WallPiece(wall.start, side) {
      SpanMember(side, line, lo, hi + 1, x);
      if Pos(side, x.point) > lo {
        assert IsPiece(points, PieceAt(side, line, Pos(side, x.point) - 1));
      }
    }
  }

  /** Taking a maximal wall out of closed pieces leaves closed pieces. */
  lemma RemoveWallKeepsClosed(points: set<Point>, pieces: set<WallPiece>, wall: Wall)
    requires Closed(points, pieces) && pieces <= FreePieces(points)
    requires IsMaximalWall(points, wall) && PiecesOf(wall) <= pieces
    ensures Closed(points, pieces - PiecesOf(wall))
  {
    var side, line := wall.side, Line(wall.side, wall.start);
    var lo, hi := Pos(side, wall.start), Pos(side, wall.end);
    var rest := pieces - PiecesOf(wall);
    forall w | w in rest ensures NeighboursKept(points, rest, w) {
      KeptAfterRemoval(points, pieces, wall, w);
    }
  }

  lemma KeptAfterRemoval(points: set<Point>, pieces: set<WallPiece>, wall: Wall, w: WallPiece)
    requires Closed(points, pieces) && pieces <= FreePieces(points)
    requires IsMaximalWall(points, wall) && w in pieces - PiecesOf(wall)
    ensures NeighboursKept(points, pieces - PiecesOf(wall), w)
  {
    assert NeighboursKept(points, pieces, w);
    var l, p := Line(w.side, w.point), Pos(w.side, w.point);
    FreePiecesMembers(points, w);
    OutsideWall(points, wall, w, PieceAt(w.side, l, p + 1));
    OutsideWall(points, wall, w, PieceAt(w.side, l, p - 1));
  }

  /** The pieces right before and after a wall piece outside a maximal wall
    are outside it too. */
  lemma OutsideWall(points: set<Point>, wall: Wall, w: WallPiece, q: WallPiece)
    requires IsMaximalWall(points, wall) && IsPiece(points, w) && w !in PiecesOf(wall)
    requires q == PieceAt(w.side, Line(w.side, w.point), Pos(w.side, w.point) + 1) ||
             q == PieceAt(w.side, Line(w.side, w.point), Pos(w.side, w.point) - 1)
    ensures q !in PiecesOf(wall)
  {
    var side, line := wall.side, Line(wall.side, wall.start);
    var lo, hi := Pos(side, wall.start), Pos(side, wall.end);
    var l, p := Line(w.side, w.point), Pos(w.side, w.point);
    Coordinates(w.side, w.point);
    PointAtCoordinates(w.side, l, p + 1);
    PointAtCoordinates(w.side, l, p - 1);
    SpanIff(side, line, lo, hi + 1, w);
    SpanIff(side, line, lo, hi + 1, q);
  }

  /** Taking a maximal wall out of closed pieces leaves one side fewer. */
  lemma RemoveWallCountsOne(points: set<Point>, pieces: set<WallPiece>, wall: Wall)
    requires IsMaximalWall(points, wall) && PiecesOf(wall) <= pieces
    ensures |StartsIn(points, pieces - PiecesOf(wall))| == |StartsIn(points, pieces)| - 1
  {
    WallStarts(points, wall);
    var first := WallPiece(wall.start, wall.side);
    assert StartsIn(points, pieces - PiecesOf(wall)) == StartsIn(points, pieces) - {first};
  }

  /** Walking back from a piece of closed pieces reaches a piece where a side
    begins; the coordinates of a region are bounded, so the walk ends. */
  lemma {:induction false} FindStart(points: set<Point>, pieces: set<WallPiece>, w: WallPiece, b: int) returns (first: WallPiece)
    requires Closed(points, pieces) && pieces <= FreePieces(points) && w in pieces
    requires forall p {:trigger InBox(p, b)} :: p in points ==> InBox(p, b)
    ensures first in StartsIn(points, pieces)
    decreases b + Pos(w.side, w.point)
  {
    FreePiecesMembers(points, w);
    PosBound(w.side, w.point, b);
    if IsStart(points, w) {
      first := w;
    } else {
      var l, p := Line(w.side, w.point), Pos(w.side, w.point);
      var before := PieceAt(w.side, l, p - 1);
      assert NeighboursKept(points, pieces, w);
      PointAtCoordinates(w.side, l, p - 1);
      FreePiecesMembers(points, before);
      PosBound(w.side, before.point, b);
      first := FindStart(points, pieces, before, b);
    }
  }

  /** `hasNext`: pieces remain exactly when sides remain. */
  lemma SidesRemain(points: set<Point>, pieces: set<WallPiece>)
    requires Closed(points, pieces) && pieces <= FreePieces(points)
    ensures pieces != {} <==> StartsIn(points, pieces) != {}
  {
    if pieces != {} {
      var w :| w in pieces;
      var b := Bound(points);
      var first := FindStart(points, pieces, w, b);
    }
  }

  lemma RunAfter(points: set<Point>, side: Side, line: int, lo: int, hi: int)
    requires Run(points, side, line, lo, hi) && IsPiece(points, PieceAt(side, line, hi))
    ensures Run(points, side, line, lo, hi + 1)
  {
  }

  lemma RunBefore(points: set<Point>, side: Side, line: int, lo: int, hi: int)
    requires Run(points, side, line, lo, hi) && IsPiece(points, PieceAt(side, line, lo - 1))
    ensures Run(points, side, line, lo - 1, hi)
  {
  }

  /** Where the walk of `findLastPointInDirection` stops, at position `t` on
    the start's line, the point one step back ends the run of pieces. */
  lemma WalkEnds(points: set<Point>, side: Side, start: Point, direction: Vector, t: int, last: Point)
    requires direction == Along(side) || direction == Inverse(Along(side))
    requires !IsPiece(points, PieceAt(side, Line(side, start), t))
    requires direction == Along(side) ==>
      Pos(side, start) <= t && Run(points, side, Line(side, start), Pos(side, start), t)
    requires direction == Inverse(Along(side)) ==>
      t <= Pos(side, start) && Run(points, side, Line(side, start), t + 1, Pos(side, start) + 1)
    requires last == Subtract(PointAt(side, Line(side, start), t), direction)
    ensures Line(side, last) == Line(side, start)
    ensures direction == Along(side) ==>
      Pos(side, start) - 1 <= Pos(side, last) &&
      Run(points, side, Line(side, start), Pos(side, start), Pos(side, last) + 1) &&
      !IsPiece(points, PieceAt(side, Line(side, start), Pos(side, last) + 1))
    ensures direction == Inverse(Along(side)) ==>
      Pos(side, last) <= Pos(side, start) + 1 &&
      Run(points, side, Line(side, start), Pos(side, last), Pos(side, start) + 1) &&
      !IsPiece(points, PieceAt(side, Line(side, start), Pos(side, last) - 1))
  {
    var line := Line(side, start);
    Steps(side, line, t);
    if direction == Along(side) {
      PointAtCoordinates(side, line, t - 1);
    } else {
      PointAtCoordinates(side, line, t + 1);
    }
  }

  /** A step along a side's direction moves one position on the same line. */
  lemma Steps(side: Side, line: int, t: int)
    ensures Add(PointAt(side, line, t), Along(side)) == PointAt(side, line, t + 1)
    ensures Add(PointAt(side, line, t), Inverse(Along(side))) == PointAt(side, line, t - 1)
    ensures Subtract(PointAt(side, line, t), Along(side)) == PointAt(side, line, t - 1)
    ensures Subtract(PointAt(side, line, t), Inverse(Along(side))) == PointAt(side, line, t + 1)
  {
  }

  /** A bound on a point's coordinates bounds its position along a side. */
  lemma PointAtBound(side: Side, line: int, t: int, b: int)
    requires InBox(PointAt(side, line, t), b)
    ensures -b <= t <= b
  {
  }

  /** `Math.abs`-normalised difference, as the wall's piece iterator takes
    its direction. */
  function Sign(d: int): int
  {
    if d > 0 then 1 else if d < 0 then -1 else 0
  }

  /** From a wall's start towards a later position on its line is the
    direction along the side. */
  lemma WallDirection(side: Side, line: int, lo: int, hi: int)
    requires lo < hi
    ensures Vector(Sign(PointAt(side, line, hi).row - PointAt(side, line, lo).row),
                   Sign(PointAt(side, line, hi).col - PointAt(side, line, lo).col)) == Along(side)
  {
  }

  /** `RegionSidesIterator`: a region's plots and the wall pieces left. */
  class RegionSidesIterator<T> {
    const points: set<Point>
    var wallPieces: set<WallPiece>

    /** The pieces left are wall pieces of the region, in whole walls. */
    ghost predicate Valid()
      reads this
    {
      wallPieces <= FreePieces(points) && Closed(points, wallPieces)
    }

    /** The sides not yet returned. */
    ghost function RemainingSides(): nat
      reads this
    {
      |StartsIn(points, wallPieces)|
    }

    /** Every free side of every plot is a piece to walk. */
    constructor(region: Region<T>)
      ensures points == region.points
      ensures wallPieces == FreePieces(points)
      ensures Valid()
      ensures RemainingSides() == Sides(points)
    {
      points := region.points;
      wallPieces := set p, s | p in region.points && s in FreeSides(region.points, p) :: WallPiece(p, s);
      new;
      forall w | w in wallPieces ensures NeighboursKept(points, wallPieces, w) {
        var l, p := Line(w.side, w.point), Pos(w.side, w.point);
        FreePiecesMembers(points, PieceAt(w.side, l, p + 1));
        FreePiecesMembers(points, PieceAt(w.side, l, p - 1));
      }
    }

    predicate HasNext()
      reads this
    {
      wallPieces != {}
    }

    /** `next`: the wall through some piece left, which leaves with all its
      pieces; one side fewer remains. */
    method Next() returns (wall: Wall)
      requires Valid() && HasNext()
      modifies this
      ensures Valid()
      ensures IsMaximalWall(points, wall)
      ensures PiecesOf(wall) <= old(wallPieces)
      ensures wallPieces == old(wallPieces) - PiecesOf(wall)
      ensures RemainingSides() == old(RemainingSides()) - 1
    {
      var wallPiece :| wallPiece in wallPieces;
      FreePiecesMembers(points, wallPiece);
      wall := GetContinuousWall(wallPiece);
      WallInside(points, wallPieces, wall, wallPiece);
      RemoveWallKeepsClosed(points, wallPieces, wall);
      RemoveWallCountsOne(points, wallPieces, wall);
      RemoveWallFromPieces(wall);
    }

    /** `getContinuousWall`: the longest wall through the piece. */
    method GetContinuousWall(wallPiece: WallPiece) returns (wall: Wall)
      requires IsPiece(points, wallPiece)
      ensures IsMaximalWall(points, wall)
      ensures wall.side == wallPiece.side && wallPiece in PiecesOf(wall)
    {
      var start := WallStart(wallPiece);
      var end := WallEnd(wallPiece);
      wall := Wall(start, end, wallPiece.side);
      ghost var side, line := wallPiece.side, Line(wallPiece.side, wallPiece.point);
      Coordinates(side, wallPiece.point);
      assert wallPiece == PieceAt(side, line, Pos(side, wallPiece.point));
    }

    /** `wallStart`: walk against the side's direction. */
    method WallStart(wallPiece: WallPiece) returns (start: Point)
      requires IsPiece(points, wallPiece)
      ensures var side, line := wallPiece.side, Line(wallPiece.side, wallPiece.point);
        Line(side, start) == line && Pos(side, start) <= Pos(side, wallPiece.point) &&
        Run(points, side, line, Pos(side, start), Pos(side, wallPiece.point) + 1) &&
        !IsPiece(points, PieceAt(side, line, Pos(side, start) - 1))
    {
      var direction := Inverse(Along(wallPiece.side));
      start := FindLastPointInDirection(wallPiece.point, wallPiece.side, direction);
      Coordinates(wallPiece.side, wallPiece.point);
    }

    /** `wallEnd`: walk along the side's direction. */
    method WallEnd(wallPiece: WallPiece) returns (end: Point)
      requires IsPiece(points, wallPiece)
      ensures var side, line := wallPiece.side, Line(wallPiece.side, wallPiece.point);
        Line(side, end) == line && Pos(side, wallPiece.point) <= Pos(side, end) &&
        Run(points, side, line, Pos(side, wallPiece.point), Pos(side, end) + 1) &&
        !IsPiece(points, PieceAt(side, line, Pos(side, end) + 1))
    {
      var direction := Along(wallPiece.side);
      end := FindLastPointInDirection(wallPiece.point, wallPiece.side, direction);
      Coordinates(wallPiece.side, wallPiece.point);
    }

    /** `findLastPointInDirection`: step while the point is a plot with the
      same side free, then one step back. The points passed are wall pieces;
      the one after the last is not. */
    method FindLastPointInDirection(start: Point, freeSide: Side, direction: Vector) returns (last: Point)
      requires direction == Along(freeSide) || direction == Inverse(Along(freeSide))
      ensures Line(freeSide, last) == Line(freeSide, start)
      ensures direction == Along(freeSide) ==>
        Pos(freeSide, start) - 1 <= Pos(freeSide, last) &&
        Run(points, freeSide, Line(freeSide, start), Pos(freeSide, start), Pos(freeSide, last) + 1) &&
        !IsPiece(points, PieceAt(freeSide, Line(freeSide, start), Pos(freeSide, last) + 1))
      ensures direction == Inverse(Along(freeSide)) ==>
        Pos(freeSide, last) <= Pos(freeSide, start) + 1 &&
        Run(points, freeSide, Line(freeSide, start), Pos(freeSide, last), Pos(freeSide, start) + 1) &&
        !IsPiece(points, PieceAt(freeSide, Line(freeSide, start), Pos(freeSide, last) - 1))
    {
      ghost var forward := direction == Along(freeSide);
      ghost var line, origin := Line(freeSide, start), Pos(freeSide, start);
      ghost var b := Bound(points);
      Coordinates(freeSide, start);
      var lastPoint := start;
      ghost var t := origin;
      while lastPoint in points && freeSide in FreeSides(points, lastPoint)
        invariant lastPoint == PointAt(freeSide, line, t)
        invariant forward ==> origin <= t && Run(points, freeSide, line, origin, t)
        invariant !forward ==> t <= origin && Run(points, freeSide, line, t + 1, origin + 1)
        decreases if forward then b - t else b + t
      {
        PointAtBound(freeSide, line, t, b);
        Steps(freeSide, line, t);
        if forward {
          RunAfter(points, freeSide, line, origin, t);
        } else {
          RunBefore(points, freeSide, line, t + 1, origin + 1);
        }
        lastPoint := Add(lastPoint, direction);
        t := if forward then t + 1 else t - 1;
      }
      last := Subtract(lastPoint, direction);
      WalkEnds(points, freeSide, start, direction, t, last);
    }

    /** `removeWallFromPieces`: the wall's pieces, from its start one step at
      a time to its end, leave the set. */
    method RemoveWallFromPieces(wall: Wall)
      requires Line(wall.side, wall.end) == Line(wall.side, wall.start)
      requires Pos(wall.side, wall.start) <= Pos(wall.side, wall.end)
      modifies this
      ensures wallPieces == old(wallPieces) - PiecesOf(wall)
    {
      ghost var side, line := wall.side, Line(wall.side, wall.start);
      ghost var lo, hi := Pos(side, wall.start), Pos(side, wall.end);
      var direction := Vector(Sign(wall.end.row - wall.start.row), Sign(wall.end.col - wall.start.col));
      Coordinates(side, wall.start);
      Coordinates(side, wall.end);
      if lo < hi {
        WallDirection(side, line, lo, hi);
      }
      var nextPoint: Option<Point> := Some(wall.start);
      ghost var t := lo;
      while nextPoint.Some?
        invariant nextPoint.Some? ==>
          nextPoint.value == PointAt(side, line, t) && lo <= t <= hi &&
          wallPieces == old(wallPieces) - Span(side, line, lo, t)
        invariant nextPoint.None? ==> wallPieces == old(wallPieces) - Span(side, line, lo, hi + 1)
        decreases if nextPoint.Some? then hi - t + 1 else 0
      {
        var point := nextPoint.value;
        SpanSnoc(side, line, lo, t);
        wallPieces := wallPieces - {WallPiece(point, wall.side)};
        if point == wall.end {
          PointAtCoordinates(side, line, t);
          nextPoint := None;
        } else {
          PointAtCoordinates(side, line, t);
          Steps(side, line, t);
          nextPoint := Some(Add(point, direction));
          t := t + 1;
        }
      }
    }
  }
}
