/** Paths through the memory grid (rust/18/src/main.rs). The source asks a
  pathfinding library for a shortest path; here a breadth-first search,
  proved against a layer-by-layer definition of reachability, takes its
  place. */
module MemoryPath {
  import opened Wrappers
  import opened MemorySpaceGrid

  /** `successors`: every usable neighbour, each at cost 1. */
  function Successors(s: Space, p: Point): (r: seq<(Point, nat)>)
    requires WellShaped(s)
    ensures forall k :: 0 <= k < |r| ==> r[k].1 == 1 && Adjacent(p, r[k].0) && Free(s, r[k].0)
    ensures |r| == |Neighbours(s, p)|
    ensures forall k :: 0 <= k < |r| ==> r[k].0 == Neighbours(s, p)[k]
  {
    var ns := Neighbours(s, p);
    seq(|ns|, k requires 0 <= k < |ns| => (ns[k], 1))
  }

  /** Every usable neighbour is among the successors. */
  lemma SuccessorsComplete(s: Space, p: Point, q: Point)
    requires WellShaped(s) && Adjacent(p, q) && Free(s, q)
    ensures exists k :: 0 <= k < |Successors(s, p)| && Successors(s, p)[k].0 == q
  {
    var ns := Neighbours(s, p);
    var k :| 0 <= k < |ns| && ns[k] == q;
    assert Successors(s, p)[k].0 == q;
  }

  /** `heuristic`: the Manhattan distance to the end. */
  function Heuristic(p: Point, end: Point): (r: nat)
    ensures r == 0 <==> p == end
    ensures Adjacent(p, end) ==> r == 1
  {
    Manhattan(p, end)
  }

  /** The free cells of the grid. */
  function FreePoints(s: Space): set<Point>
    requires WellShaped(s)
  {
    set row, col | 0 <= row < s.height && 0 <= col < s.width && s.cells[row][col] == Normal
      :: Point(row, col)
  }

  lemma FreePointsSpec(s: Space, q: Point)
    requires WellShaped(s)
    ensures q in FreePoints(s) <==> Free(s, q)
  {
    if Free(s, q) {
      assert q == Point(q.row, q.col);
    }
  }

  /** Whether some point of `from` is next to `q`. */
  predicate Touches(from: set<Point>, q: Point)
  {
    exists p :: p in from && Adjacent(p, q)
  }

  /** The free cells one step away from some point of `from`. */
  function Expand(s: Space, from: set<Point>): set<Point>
    requires WellShaped(s)
  {
    set q | q in FreePoints(s) && Touches(from, q)
  }

  lemma ExpandSpec(s: Space, from: set<Point>, q: Point)
    requires WellShaped(s)
    ensures q in Expand(s, from) <==> Free(s, q) && Touches(from, q)
  {
    FreePointsSpec(s, q);
  }

  lemma ExpandUnion(s: Space, a: set<Point>, b: set<Point>)
    requires WellShaped(s)
    ensures Expand(s, a + b) == Expand(s, a) + Expand(s, b)
  {
    forall q
      ensures q in Expand(s, a + b) <==> q in Expand(s, a) + Expand(s, b)
    {
      ExpandSpec(s, a + b, q);
      ExpandSpec(s, a, q);
      ExpandSpec(s, b, q);
    }
  }

  /** The points reachable from `start` in at most `k` unit steps through free
    cells (the start itself need not be free). */
  function ReachIn(s: Space, start: Point, k: nat): set<Point>
    requires WellShaped(s)
  {
    if k == 0 then {start}
    else ReachIn(s, start, k - 1) + Expand(s, ReachIn(s, start, k - 1))
  }

  ghost predicate Reachable(s: Space, start: Point, end: Point)
    requires WellShaped(s)
  {
    exists k :: end in ReachIn(s, start, k)
  }

  /** `n` is the fewest steps from `start` to `end`. */
  predicate Shortest(s: Space, start: Point, end: Point, n: nat)
    requires WellShaped(s)
  {
    end in ReachIn(s, start, n) && forall j :: 0 <= j < n ==> end !in ReachIn(s, start, j)
  }

  /** Once a layer adds nothing, no later layer does. */
  lemma {:induction false} Stationary(s: Space, start: Point, k: nat, j: nat)
    requires WellShaped(s)
    requires Expand(s, ReachIn(s, start, k)) <= ReachIn(s, start, k)
    requires k <= j
    ensures ReachIn(s, start, j) == ReachIn(s, start, k)
    decreases j
  {
    if j > k {
      Stationary(s, start, k, j - 1);
    }
  }

  /** Layers only grow. */
  lemma {:induction false} ReachInMonotone(s: Space, start: Point, i: nat, j: nat)
    requires WellShaped(s) && i <= j
    ensures ReachIn(s, start, i) <= ReachIn(s, start, j)
    decreases j
  {
    if j > i {
      ReachInMonotone(s, start, i, j - 1);
    }
  }

  /** One breadth-first round: the next layer is the old one plus the new
    cells next to the frontier. */
  lemma BfsRound(s: Space, start: Point, k: nat, visited: set<Point>, frontier: set<Point>)
    requires WellShaped(s) && visited == ReachIn(s, start, k)
    requires frontier <= visited && Expand(s, visited - frontier) <= visited
    ensures ReachIn(s, start, k + 1) == visited + (Expand(s, frontier) - visited)
    ensures Expand(s, frontier) <= FreePoints(s)
  {
    ExpandUnion(s, visited - frontier, frontier);
    assert visited == (visited - frontier) + frontier;
  }

  lemma Shrinks(universe: set<Point>, visited: set<Point>, next: set<Point>)
    requires visited <= universe && next <= universe && next !! visited
    ensures next != {} ==> |universe - (visited + next)| < |universe - visited|
  {
    if next != {} {
      var q :| q in next;
      assert universe - (visited + next) < universe - visited by {
        assert q in universe - visited;
        assert q !in universe - (visited + next);
      }
    }
  }

  lemma NotBefore(s: Space, start: Point, end: Point, j: nat, i: nat)
    requires WellShaped(s) && j <= i && end !in ReachIn(s, start, i)
    ensures end !in ReachIn(s, start, j)
  {
    ReachInMonotone(s, start, j, i);
  }

  lemma EarlierLayersMiss(s: Space, start: Point, end: Point, k: nat)
    requires WellShaped(s)
    requires k > 0 ==> end !in ReachIn(s, start, k - 1)
    ensures forall j | 0 <= j < k :: end !in ReachIn(s, start, j)
  {
    forall j | 0 <= j < k
      ensures end !in ReachIn(s, start, j)
    {
      NotBefore(s, start, end, j, k - 1);
    }
  }

  /** The first layer that contains the end gives the fewest steps. */
  lemma FoundShortest(s: Space, start: Point, end: Point, k: nat)
    requires WellShaped(s) && end in ReachIn(s, start, k)
    requires k > 0 ==> end !in ReachIn(s, start, k - 1)
    ensures Shortest(s, start, end, k)
  {
    EarlierLayersMiss(s, start, end, k);
  }

  /** A layer that adds nothing and misses the end means the end is never
    reached. */
  lemma NeverReached(s: Space, start: Point, end: Point, k: nat)
    requires WellShaped(s) && end !in ReachIn(s, start, k)
    requires Expand(s, ReachIn(s, start, k)) <= ReachIn(s, start, k)
    ensures !Reachable(s, start, end)
  {
    forall j: nat
      ensures end !in ReachIn(s, start, j)
    {
      if j >= k {
        Stationary(s, start, k, j);
      } else {
        ReachInMonotone(s, start, j, k);
      }
    }
  }

  /** What holds before each breadth-first round: `visited` is layer k, the
    cells outside the frontier have all their neighbours visited, and the end
    was not in layer k - 1. */
  ghost predicate BfsInvariant(s: Space, start: Point, end: Point, k: nat,
                               visited: set<Point>, frontier: set<Point>, universe: set<Point>)
    requires WellShaped(s)
  {
    visited == ReachIn(s, start, k) && frontier <= visited <= universe &&
    Expand(s, visited - frontier) <= visited && (k > 0 ==> end !in ReachIn(s, start, k - 1))
  }

  /** One round keeps the invariant and, if it adds cells, brings the search
    closer to exhausting the grid. */
  lemma BfsStep(s: Space, start: Point, end: Point, k: nat,
                visited: set<Point>, frontier: set<Point>, universe: set<Point>)
    requires WellShaped(s) && universe == FreePoints(s) + {start}
    requires BfsInvariant(s, start, end, k, visited, frontier, universe) && end !in visited
    ensures var next := Expand(s, frontier) - visited;
      BfsInvariant(s, start, end, k + 1, visited + next, next, universe) &&
      (next != {} ==> |universe - (visited + next)| < |universe - visited|)
  {
    var next := Expand(s, frontier) - visited;
    BfsRound(s, start, k, visited, frontier);
    assert (visited + next) - next == visited;
    Shrinks(universe, visited, next);
  }

  /** The shortest path search: breadth-first, one layer of new cells per
    round. `Some(n)` is the number of steps of a shortest path (the source's
    path length minus one); `None` means the end cannot be reached. */
  method ShortestSteps(s: Space, start: Point, end: Point) returns (r: Option<nat>)
    requires WellShaped(s)
    ensures r.Some? ==> Shortest(s, start, end, r.value)
    ensures r.None? <==> !Reachable(s, start, end)
  {
    var visited := {start};
    var frontier := {start};
    var k := 0;
    ghost var universe := FreePoints(s) + {start};
    while end !in visited && frontier != {}
      invariant BfsInvariant(s, start, end, k, visited, frontier, universe)
      decreases |universe - visited|, |frontier|
    {
      var next := Expand(s, frontier) - visited;
      BfsStep(s, start, end, k, visited, frontier, universe);
      visited := visited + next;
      frontier := next;
      k := k + 1;
    }
    if end in visited {
      FoundShortest(s, start, end, k);
      return Some(k);
    }
    assert visited - frontier == visited;
    NeverReached(s, start, end, k);
    return None;
  }

  /** A path: consecutive points adjacent, every point after the first free. */
  predicate StepOk(s: Space, w: seq<Point>, i: nat)
    requires WellShaped(s) && i + 1 < |w|
  {
    Adjacent(w[i], w[i + 1]) && Free(s, w[i + 1])
  }

  predicate IsPath(s: Space, w: seq<Point>, from: Point, to: Point)
    requires WellShaped(s)
  {
    |w| >= 1 && w[0] == from && w[|w| - 1] == to &&
    forall i: nat :: i + 1 < |w| ==> StepOk(s, w, i)
  }

  /** A path of n steps reaches its end within n layers. */
  lemma {:induction false} PathReaches(s: Space, w: seq<Point>, from: Point, to: Point)
    requires WellShaped(s) && IsPath(s, w, from, to)
    ensures to in ReachIn(s, from, |w| - 1)
    decreases |w|
  {
    if |w| > 1 {
      var u := w[..|w| - 1];
      forall i: nat | i + 1 < |u|
        ensures StepOk(s, u, i)
      {
        assert StepOk(s, w, i);
      }
      assert IsPath(s, u, from, w[|w| - 2]);
      PathReaches(s, u, from, w[|w| - 2]);
      assert StepOk(s, w, |w| - 2);
      ExpandSpec(s, ReachIn(s, from, |w| - 2), to);
    }
  }

  /** Everything within k layers is the end of a path of at most k steps. */
  lemma {:induction false} ReachedByPath(s: Space, from: Point, k: nat, q: Point) returns (w: seq<Point>)
    requires WellShaped(s) && q in ReachIn(s, from, k)
    ensures IsPath(s, w, from, q) && |w| <= k + 1
    decreases k
  {
    if k == 0 {
      w := [from];
    } else if q in ReachIn(s, from, k - 1) {
      w := ReachedByPath(s, from, k - 1, q);
    } else {
      ExpandSpec(s, ReachIn(s, from, k - 1), q);
      var p :| p in ReachIn(s, from, k - 1) && Adjacent(p, q);
      var before := ReachedByPath(s, from, k - 1, p);
      ExtendPath(s, before, from, p, q);
      w := before + [q];
    }
  }

  /** A path followed by one free neighbour of its end. */
  lemma ExtendPath(s: Space, w: seq<Point>, from: Point, p: Point, q: Point)
    requires WellShaped(s) && IsPath(s, w, from, p) && Adjacent(p, q) && Free(s, q)
    ensures IsPath(s, w + [q], from, q)
  {
    var v := w + [q];
    forall i: nat | i + 1 < |v|
      ensures StepOk(s, v, i)
    {
      if i + 1 < |w| {
        assert StepOk(s, w, i);
      }
    }
  }

  /** The shortest step count is the length of some path and no path is
    shorter. */
  lemma ShortestIsFewestSteps(s: Space, start: Point, end: Point, n: nat, w: seq<Point>)
    requires WellShaped(s) && Shortest(s, start, end, n) && IsPath(s, w, start, end)
    ensures n <= |w| - 1
    ensures exists v :: IsPath(s, v, start, end) && |v| == n + 1
  {
    PathReaches(s, w, start, end);
    var v := ReachedByPath(s, start, n, end);
    PathReaches(s, v, start, end);
  }

  lemma ManhattanStep(p: Point, q: Point, e: Point)
    requires Adjacent(p, q)
    ensures Manhattan(p, e) <= Manhattan(q, e) + 1
  {
  }

  /** A point first reached in `k` steps is next to one reached in `k - 1`. */
  lemma NewcomerNeighbour(s: Space, start: Point, end: Point, k: nat) returns (p: Point)
    requires WellShaped(s) && k > 0
    requires end in ReachIn(s, start, k) && end !in ReachIn(s, start, k - 1)
    ensures p in ReachIn(s, start, k - 1) && Adjacent(p, end) && Free(s, end)
  {
    ExpandSpec(s, ReachIn(s, start, k - 1), end);
    p :| p in ReachIn(s, start, k - 1) && Adjacent(p, end);
  }

  /** One step further, the heuristic grows by at most one. */
  lemma HeuristicStep(start: Point, p: Point, end: Point)
    requires Adjacent(p, end)
    ensures Heuristic(start, end) <= Heuristic(start, p) + 1
  {
    ManhattanStep(end, p, start);
    assert Manhattan(start, end) == Manhattan(end, start);
    assert Manhattan(start, p) == Manhattan(p, start);
  }

  /** The heuristic never exceeds the true number of steps. */
  lemma {:induction false} HeuristicAdmissible(s: Space, start: Point, end: Point, k: nat)
    requires WellShaped(s) && end in ReachIn(s, start, k)
    ensures Heuristic(start, end) <= k
    decreases k
  {
    if k > 0 {
      if end in ReachIn(s, start, k - 1) {
        HeuristicAdmissible(s, start, end, k - 1);
      } else {
        var p := NewcomerNeighbour(s, start, end, k);
        HeuristicAdmissible(s, start, p, k - 1);
        HeuristicStep(start, p, end);
      }
    }
  }

  /** Corrupting the points one after the other; an out-of-range point
    panics. */
  function CorruptAll(s: Space, points: seq<Point>): (r: Result<Space>)
    requires WellShaped(s)
    ensures r.Ok? ==> WellShaped(r.value) && r.value.width == s.width && r.value.height == s.height
    decreases |points|
  {
    if |points| == 0 then Ok(s)
    else
      var before := CorruptAll(s, points[..|points| - 1]);
      var p := points[|points| - 1];
      if before.Err? then before
      else if InRange(before.value, p) then Ok(CorruptCell(before.value, p))
      else Err("index out of bounds")
  }

  /** A failure part-way stays a failure. */
  lemma {:induction false} CorruptAllFails(s: Space, points: seq<Point>, n: nat)
    requires WellShaped(s) && n <= |points|
    requires CorruptAll(s, points[..n]).Err?
    ensures CorruptAll(s, points).Err?
    decreases |points|
  {
    if n < |points| {
      assert points[..|points| - 1][..n] == points[..n];
      CorruptAllFails(s, points[..|points| - 1], n);
    } else {
      assert points[..n] == points;
    }
  }

  /** The grid after the bytes 0..i have fallen. */
  function Fallen(width: nat, height: nat, points: seq<Point>, i: nat): Result<Space>
    requires i < |points|
  {
    CorruptAll(Blank(width, height), points[..i + 1])
  }

  /** After the bytes 0..i have fallen, every byte so far could fall and the
    end is still reachable. */
  ghost predicate StillOpen(width: nat, height: nat, points: seq<Point>, i: nat)
    requires i < |points| && width > 0 && height > 0
  {
    Fallen(width, height, points, i).Ok? &&
    Reachable(Fallen(width, height, points, i).value, Point(0, 0), Point(height - 1, width - 1))
  }

  /** Byte i is the first one after which the end can no longer be reached. */
  ghost predicate Blocks(width: nat, height: nat, points: seq<Point>, i: nat)
    requires i < |points| && width > 0 && height > 0
  {
    Fallen(width, height, points, i).Ok? &&
    !Reachable(Fallen(width, height, points, i).value, Point(0, 0), Point(height - 1, width - 1)) &&
    forall j :: 0 <= j < i ==> StillOpen(width, height, points, j)
  }

  /** `part_one`: corrupt the first `timeNs` points of a blank grid and count
    the steps of a shortest path from the top-left to the bottom-right
    corner. */
  method PartOne(points: seq<Point>, width: nat, height: nat, timeNs: nat) returns (r: Result<nat>)
    ensures var g := CorruptAll(Blank(width, height), points[..if timeNs < |points| then timeNs else |points|]);
      r.Ok? <==> (g.Ok? && width > 0 && height > 0 &&
                  Reachable(g.value, Point(0, 0), Point(height - 1, width - 1)))
    ensures var g := CorruptAll(Blank(width, height), points[..if timeNs < |points| then timeNs else |points|]);
      r.Ok? ==> (g.Ok? && width > 0 && height > 0 &&
                 Shortest(g.value, Point(0, 0), Point(height - 1, width - 1), r.value))
  {
    var taken := points[..if timeNs < |points| then timeNs else |points|];
    var space := new MemorySpace(width, height);
    for i := 0 to |taken|
      invariant space.Valid()
      invariant CorruptAll(Blank(width, height), taken[..i]) == Ok(space.Contents())
    {
      assert taken[..i + 1][..i] == taken[..i];
      var c := space.Corrupt(taken[i]);
      if c.Err? {
        CorruptAllFails(Blank(width, height), taken, i + 1);
        return Err(c.error);
      }
    }
    assert taken[..|taken|] == taken;
    if height == 0 || width == 0 {
      return Err("attempt to subtract with overflow");
    }
    var steps := ShortestSteps(space.Contents(), Point(0, 0), Point(height - 1, width - 1));
    if steps.None? {
      return Err("Could not find shortest path");
    }
    r := Ok(steps.value);
  }

  /** `part_two`: let the bytes fall one by one and return the first one after
    which the bottom-right corner can no longer be reached. */
  method PartTwo(points: seq<Point>, width: nat, height: nat) returns (r: Result<Point>)
    ensures r.Ok? ==> width > 0 && height > 0
    ensures r.Ok? ==> exists i :: 0 <= i < |points| && r.value == points[i] && Blocks(width, height, points, i)
    ensures r.Err? && width > 0 && height > 0 && CorruptAll(Blank(width, height), points).Ok? ==>
      forall j :: 0 <= j < |points| ==> StillOpen(width, height, points, j)
  {
    if height == 0 || width == 0 {
      return Err("attempt to subtract with overflow");
    }
    var start := Point(0, 0);
    var end := Point(height - 1, width - 1);
    var space := new MemorySpace(width, height);
    for i := 0 to |points|
      invariant space.Valid()
      invariant CorruptAll(Blank(width, height), points[..i]) == Ok(space.Contents())
      invariant forall j :: 0 <= j < i ==> StillOpen(width, height, points, j)
    {
      assert points[..i + 1][..i] == points[..i];
      var c := space.Corrupt(points[i]);
      if c.Err? {
        CorruptAllFails(Blank(width, height), points, i + 1);
        return Err(c.error);
      }
      assert Fallen(width, height, points, i) == Ok(space.Contents());
      var steps := ShortestSteps(space.Contents(), start, end);
      if steps.None? {
        assert Blocks(width, height, points, i);
        return Ok(points[i]);
      }
    }
    r := Err("Could not find a point that blocks everything");
  }
}
