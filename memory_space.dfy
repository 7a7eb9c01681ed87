/** The falling-bytes memory grid (rust/18/src/map.rs): a rectangle of
  memory cells, some of them corrupted, and the neighbours a path may use. */
module MemorySpaceGrid {
  import opened Wrappers

  datatype Point = Point(row: nat, col: nat)

  datatype MemoryState = Normal | Corrupted

  /** The contents of a `MemorySpace`: rows of cells and the two dimensions. */
  datatype Space = Space(cells: seq<seq<MemoryState>>, width: nat, height: nat)

  /** `height` rows of `width` cells each, as `new` builds them and `corrupt`
    keeps them. */
  predicate WellShaped(s: Space)
  {
    |s.cells| == s.height && forall r :: 0 <= r < |s.cells| ==> |s.cells[r]| == s.width
  }

  /** The grid `new` builds: every cell Normal. */
  function Blank(width: nat, height: nat): (s: Space)
    ensures WellShaped(s) && s.width == width && s.height == height
    ensures forall r, c :: 0 <= r < height && 0 <= c < width ==> s.cells[r][c] == Normal
  {
    Space(seq(height, _ => seq(width, _ => Normal)), width, height)
  }

  /** `in_range`. */
  predicate InRange(s: Space, p: Point)
  {
    p.row < s.height && p.col < s.width
  }

  /** A cell a path may enter: in range and not corrupted. */
  predicate Free(s: Space, p: Point)
    requires WellShaped(s)
  {
    InRange(s, p) && s.cells[p.row][p.col] == Normal
  }

  /** What `corrupt` makes of a well-shaped grid and an in-range point. */
  function CorruptCell(s: Space, p: Point): (t: Space)
    requires WellShaped(s) && InRange(s, p)
    ensures WellShaped(t)
  {
    s.(cells := s.cells[p.row := s.cells[p.row][p.col := Corrupted]])
  }

  /** `corrupt` turns exactly one cell Corrupted and keeps everything else. */
  lemma CorruptOnlyCell(s: Space, p: Point)
    requires WellShaped(s) && InRange(s, p)
    ensures var t := CorruptCell(s, p);
      t.width == s.width && t.height == s.height && t.cells[p.row][p.col] == Corrupted &&
      forall q :: InRange(s, q) && q != p ==> t.cells[q.row][q.col] == s.cells[q.row][q.col]
  {
  }

  /** Corrupting a cell twice is the same as once. */
  lemma CorruptIdempotent(s: Space, p: Point)
    requires WellShaped(s) && InRange(s, p)
    ensures CorruptCell(CorruptCell(s, p), p) == CorruptCell(s, p)
  {
    var row := s.cells[p.row][p.col := Corrupted];
    assert row[p.col := Corrupted] == row;
    assert CorruptCell(s, p).cells[p.row] == row;
  }

  function Dist(x: nat, y: nat): nat
  {
    if x <= y then y - x else x - y
  }

  /** The Manhattan distance of two points. */
  function Manhattan(p: Point, q: Point): nat
  {
    Dist(p.row, q.row) + Dist(p.col, q.col)
  }

  predicate Adjacent(p: Point, q: Point)
  {
    Manhattan(p, q) == 1
  }

  /** `Point::neighbours`: the offsets down, right, up, left, dropping those
    whose checked addition would go below 0. */
  function PointNeighbours(p: Point): (r: seq<Point>)
    ensures |r| == 2 + (if p.row > 0 then 1 else 0) + (if p.col > 0 then 1 else 0)
    ensures r[0] == Point(p.row + 1, p.col) && r[1] == Point(p.row, p.col + 1)
    ensures p.row > 0 ==> r[2] == Point(p.row - 1, p.col)
    ensures p.col > 0 ==> r[|r| - 1] == Point(p.row, p.col - 1)
    ensures forall q :: q in r <==> Adjacent(p, q)
  {
    var up := if p.row > 0 then [Point(p.row - 1, p.col)] else [];
    var left := if p.col > 0 then [Point(p.row, p.col - 1)] else [];
    [Point(p.row + 1, p.col), Point(p.row, p.col + 1)] + up + left
  }

  /** The points among `ps` that are free, in order. */
  function FreeAmong(s: Space, ps: seq<Point>): (r: seq<Point>)
    requires WellShaped(s)
    ensures |r| <= |ps|
    ensures forall q :: q in r <==> q in ps && Free(s, q)
  {
    if |ps| == 0 then []
    else if Free(s, ps[0]) then [ps[0]] + FreeAmong(s, ps[1..])
    else FreeAmong(s, ps[1..])
  }

  /** `MemorySpace::neighbours`: the in-range, uncorrupted points at Manhattan
    distance 1, in the order of `Point::neighbours`. */
  function Neighbours(s: Space, p: Point): (r: seq<Point>)
    requires WellShaped(s)
    ensures |r| <= 4
    ensures forall q :: q in r <==> Adjacent(p, q) && Free(s, q)
  {
    FreeAmong(s, PointNeighbours(p))
  }

  /** The memory grid, whose cells `corrupt` overwrites in place. */
  class MemorySpace {
    var cells: seq<seq<MemoryState>>
    var width: nat
    var height: nat

    function Contents(): Space
      reads this
    {
      Space(cells, width, height)
    }

    predicate Valid()
      reads this
    {
      WellShaped(Contents())
    }

    /** `MemorySpace::new`: `height` rows, each filled with `width` Normal
      cells. */
    constructor (width: nat, height: nat)
      ensures Valid() && Contents() == Blank(width, height)
    {
      var rows: seq<seq<MemoryState>> := [];
      for r := 0 to height
        invariant rows == seq(r, _ => seq(width, _ => Normal))
      {
        var row: seq<MemoryState> := [];
        for c := 0 to width
          invariant row == seq(c, _ => Normal)
        {
          row := row + [Normal];
        }
        rows := rows + [row];
      }
      cells := rows;
      this.width := width;
      this.height := height;
    }

    /** `corrupt`: an in-range cell becomes Corrupted; indexing outside the
      grid panics, which leaves the grid as it was. */
    method Corrupt(p: Point) returns (r: Result<()>)
      requires Valid()
      modifies this
      ensures Valid()
      ensures r.Ok? <==> InRange(old(Contents()), p)
      ensures r.Ok? ==> Contents() == CorruptCell(old(Contents()), p)
      ensures r.Err? ==> Contents() == old(Contents())
    {
      if !(p.row < |cells| && p.col < |cells[p.row]|) {
        return Err("index out of bounds");
      }
      cells := cells[p.row := cells[p.row][p.col := Corrupted]];
      r := Ok(());
    }
  }
}
