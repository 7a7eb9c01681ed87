/** The race-track grid (rust/20/src/race_map.rs): track and wall cells,
  step distance and the points a cheat may reach. */
module RaceMapGrid {
  import opened Wrappers

  datatype Point = Point(row: nat, col: nat)

  datatype Field = Track | Wall

  datatype RaceMap = RaceMap(rows: seq<seq<Field>>, width: nat, height: nat)

  /** `RaceMap::new`: the height is the number of rows and the width the
    length of the first row; a map without rows panics. */
  function NewRaceMap(rows: seq<seq<Field>>): (r: Result<RaceMap>)
    ensures r.Err? <==> |rows| == 0
    ensures r.Ok? ==> r.value.rows == rows && r.value.height == |rows| && r.value.width == |rows[0]|
  {
    if |rows| == 0 then Err("Race map has at least one row")
    else Ok(RaceMap(rows, |rows[0]|, |rows|))
  }

  /** `in_range`. */
  predicate InRange(m: RaceMap, p: Point)
  {
    p.row < m.height && p.col < m.width
  }

  /** Indexing the map: None where the source's double index would panic. */
  function FieldAt(m: RaceMap, p: Point): (r: Option<Field>)
    ensures r.Some? <==> p.row < |m.rows| && p.col < |m.rows[p.row]|
  {
    if p.row < |m.rows| && p.col < |m.rows[p.row]| then Some(m.rows[p.row][p.col]) else None
  }

  /** A cell the race may use: in range and Track. */
  predicate IsTrack(m: RaceMap, p: Point)
  {
    InRange(m, p) && FieldAt(m, p) == Some(Track)
  }

  function Dist(x: nat, y: nat): nat
  {
    if x <= y then y - x else x - y
  }

  /** `step_distance`: the sum of the two absolute differences. */
  function StepDistance(p: Point, q: Point): nat
  {
    Dist(p.row, q.row) + Dist(p.col, q.col)
  }

  /** The step distance is a metric: symmetric, zero exactly on equal
    points, and obeying the triangle inequality. */
  lemma StepDistanceMetric(p: Point, q: Point, s: Point)
    ensures StepDistance(p, q) == StepDistance(q, p)
    ensures StepDistance(p, q) == 0 <==> p == q
    ensures StepDistance(p, s) <= StepDistance(p, q) + StepDistance(q, s)
  {
  }

  predicate Adjacent(p: Point, q: Point)
  {
    StepDistance(p, q) == 1
  }

  /** `Point::neighbours`: the offsets down, right, up, left, dropping those
    whose checked addition would go below 0. */
  function Neighbours(p: Point): (r: seq<Point>)
    ensures 2 <= |r| <= 4
    ensures forall q :: q in r <==> Adjacent(p, q)
  {
    var up := if p.row > 0 then [Point(p.row - 1, p.col)] else [];
    var left := if p.col > 0 then [Point(p.row, p.col - 1)] else [];
    [Point(p.row + 1, p.col), Point(p.row, p.col + 1)] + up + left
  }

  /** The in-range Track points among `ps`, in order; indexing a row shorter
    than the width panics. */
  function TracksAmong(m: RaceMap, ps: seq<Point>): Result<seq<Point>>
  {
    if |ps| == 0 then Ok([])
    else
      var rest := TracksAmong(m, ps[1..]);
      if InRange(m, ps[0]) && FieldAt(m, ps[0]).None? then Err("index out of bounds")
      else if rest.Err? then rest
      else if IsTrack(m, ps[0]) then Ok([ps[0]] + rest.value)
      else rest
  }

  /** Filtering fails exactly on an in-range point the rows do not reach,
    and otherwise keeps exactly the Track points. */
  lemma {:induction false} TracksAmongSpec(m: RaceMap, ps: seq<Point>)
    ensures var r := TracksAmong(m, ps);
      (r.Err? <==> exists k :: 0 <= k < |ps| && InRange(m, ps[k]) && FieldAt(m, ps[k]).None?) &&
      (r.Ok? ==> |r.value| <= |ps| && forall q :: q in r.value <==> q in ps && IsTrack(m, q))
  {
    if |ps| > 0 {
      TracksAmongSpec(m, ps[1..]);
      assert forall k :: 1 <= k < |ps| ==> ps[k] == ps[1..][k - 1];
      assert forall q :: q in ps <==> q == ps[0] || q in ps[1..];
    }
  }

  /** `neighbour_tracks`: the in-range Track cells one step away. */
  function NeighbourTracks(m: RaceMap, p: Point): (r: Result<seq<Point>>)
    ensures r.Ok? ==> |r.value| <= 4
    ensures r.Ok? ==> forall q :: q in r.value <==> Adjacent(p, q) && IsTrack(m, q)
    ensures r.Err? <==> exists q :: q in Neighbours(p) && InRange(m, q) && FieldAt(m, q).None?
  {
    TracksAmongSpec(m, Neighbours(p));
    TracksAmong(m, Neighbours(p))
  }

  /** The map test: on [[Wall, Track, Track], [Track, Track, Track]] the cell
    (0,1) has exactly the track neighbours (1,1) and (0,2). */
  lemma NeighbourTracksExample()
    ensures NeighbourTracks(RaceMap([[Wall, Track, Track], [Track, Track, Track]], 3, 2), Point(0, 1))
      == Ok([Point(1, 1), Point(0, 2)])
  {
    var m := RaceMap([[Wall, Track, Track], [Track, Track, Track]], 3, 2);
    var ns := [Point(1, 1), Point(0, 2), Point(0, 0)];
    assert Neighbours(Point(0, 1)) == ns;
    var tail := [Point(0, 2), Point(0, 0)];
    assert ns[1..] == tail && tail[1..] == [Point(0, 0)] && [Point(0, 0)][1..] == [];
    assert FieldAt(m, Point(0, 0)) == Some(Wall);
    assert TracksAmong(m, [Point(0, 0)]) == Ok([]);
    assert IsTrack(m, Point(0, 2)) && IsTrack(m, Point(1, 1));
    assert [Point(0, 2)] + [] == [Point(0, 2)];
    assert TracksAmong(m, tail) == Ok([Point(0, 2)]);
    assert [Point(1, 1)] + [Point(0, 2)] == [Point(1, 1), Point(0, 2)];
  }

  /** One step changes the distance from `p` by at most one. */
  lemma NeighbourDistance(p: Point, x: Point, q: Point)
    requires q in Neighbours(x)
    ensures StepDistance(p, q) <= StepDistance(p, x) + 1
  {
  }

  /** Every point other than `p` is a neighbour of a point one step closer
    to `p`. */
  lemma StepToward(p: Point, q: Point) returns (x: Point)
    requires p != q
    ensures StepDistance(p, x) + 1 == StepDistance(p, q) && q in Neighbours(x)
  {
    if q.row > p.row {
      x := Point(q.row - 1, q.col);
    } else if q.row < p.row {
      x := Point(q.row + 1, q.col);
    } else if q.col > p.col {
      x := Point(q.row, q.col - 1);
    } else {
      x := Point(q.row, q.col + 1);
    }
  }

  /** `points_within_step_distance`: starting from the point itself, `distance`
    rounds each add every neighbour of the points found so far; the result
    is every point within that step distance, the point itself included. */
  method PointsWithinStepDistance(p: Point, distance: nat) returns (points: set<Point>)
    ensures forall q :: q in points <==> StepDistance(p, q) <= distance
  {
    points := {p};
    for i := 0 to distance
      invariant forall q :: q in points <==> StepDistance(p, q) <= i
    {
      var neighbours: set<Point> := {};
      var todo := points;
      while todo != {}
        invariant todo <= points
        invariant forall q :: q in neighbours ==> StepDistance(p, q) <= i + 1
        invariant forall x, q :: x in points && x !in todo && q in Neighbours(x) ==> q in neighbours
        decreases |todo|
      {
        var x :| x in todo;
        forall q | q in Neighbours(x)
          ensures StepDistance(p, q) <= i + 1
        {
          NeighbourDistance(p, x, q);
        }
        neighbours := neighbours + set q | q in Neighbours(x);
        todo := todo - {x};
      }
      forall q | StepDistance(p, q) == i + 1
        ensures q in neighbours
      {
        var x := StepToward(p, q);
        assert x in points;
      }
      points := points + neighbours;
    }
  }
}
