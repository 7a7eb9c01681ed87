/** What the route searcher computes (java/10/src/RouteSearcher.java): the
  start points at height `bottom` from which a hiking trail climbs, one
  level per step, to a point, counted once per trail. */
module HikingTrails {
  import opened TopoMaps

  /** The start points that reach `p`, each as often as there are trails
    from it: a bottom point reaches itself, and a point up to `top` is
    reached by whatever reaches a neighbour one level lower. The lower
    points are visited in the order `findByHeight` lists them. */
  ghost function Reach(m: TopographicMap, bottom: int, top: int, p: Point): multiset<Point>
    requires Fits(m) && InRange(m, p)
    decreases HeightAt(m, p) - bottom, 1
  {
    var h := HeightAt(m, p);
    if h == bottom then multiset{p}
    else if bottom < h <= top then FromLower(m, bottom, top, PointsWithHeight(m, h - 1), h - 1, p)
    else multiset{}
  }

  /** One step of a trail: `q` is inside the map at height `h` and `p` is
    adjacent to it. */
  predicate StepUp(m: TopographicMap, q: Point, h: int, p: Point)
    requires Fits(m)
  {
    InRange(m, q) && HeightAt(m, q) == h && p in AdjacentPoints(m, q)
  }

  /** What reaches those of the points `qs` of height `h` that are next to
    `p`. */
  ghost function FromLower(m: TopographicMap, bottom: int, top: int, qs: seq<Point>, h: int, p: Point): multiset<Point>
    requires Fits(m) && bottom <= h
    decreases h - bottom + 1, 0, |qs|
  {
    if qs == [] then multiset{}
    else
      var q := qs[|qs| - 1];
      FromLower(m, bottom, top, qs[..|qs| - 1], h, p) +
      (if StepUp(m, q, h, p) then Reach(m, bottom, top, q) else multiset{})
  }

  /** A hiking trail: it starts at height `bottom` and each step goes to an
    adjacent point exactly one higher. */
  ghost predicate Trail(m: TopographicMap, bottom: int, t: seq<Point>)
    requires Fits(m)
  {
    |t| > 0 &&
    (forall k :: 0 <= k < |t| ==> InRange(m, t[k])) &&
    HeightAt(m, t[0]) == bottom &&
    forall k :: 0 <= k < |t| - 1 ==> t[k + 1] in AdjacentPoints(m, t[k]) && HeightAt(m, t[k + 1]) == HeightAt(m, t[k]) + 1
  }

  /** Every trail that ends at `p` without climbing above `top`, listed
    along the same recursion as `Reach`. */
  ghost function TrailsTo(m: TopographicMap, bottom: int, top: int, p: Point): seq<seq<Point>>
    requires Fits(m) && InRange(m, p)
    decreases HeightAt(m, p) - bottom, 1
  {
    var h := HeightAt(m, p);
    if h == bottom then [[p]]
    else if bottom < h <= top then TrailsVia(m, bottom, top, PointsWithHeight(m, h - 1), h - 1, p)
    else []
  }

  /** The trails to those of the points `qs` of height `h` next to `p`,
    each extended by the step to `p`. */
  ghost function TrailsVia(m: TopographicMap, bottom: int, top: int, qs: seq<Point>, h: int, p: Point): seq<seq<Point>>
    requires Fits(m) && bottom <= h
    decreases h - bottom + 1, 0, |qs|
  {
    if qs == [] then []
    else
      var q := qs[|qs| - 1];
      TrailsVia(m, bottom, top, qs[..|qs| - 1], h, p) +
      (if StepUp(m, q, h, p) then Extend(TrailsTo(m, bottom, top, q), p) else [])
  }

  /** The recursive cases of `Reach` and `TrailsTo`, one level down. */
  lemma ClimbUnfold(m: TopographicMap, bottom: int, top: int, p: Point)
    requires Fits(m) && InRange(m, p) && bottom < HeightAt(m, p) <= top
    ensures Reach(m, bottom, top, p) ==
      FromLower(m, bottom, top, PointsWithHeight(m, HeightAt(m, p) - 1), HeightAt(m, p) - 1, p)
    ensures TrailsTo(m, bottom, top, p) ==
      TrailsVia(m, bottom, top, PointsWithHeight(m, HeightAt(m, p) - 1), HeightAt(m, p) - 1, p)
  {
  }

  function Extend(ts: seq<seq<Point>>, p: Point): (r: seq<seq<Point>>)
    ensures |r| == |ts| && forall k :: 0 <= k < |ts| ==> r[k] == ts[k] + [p]
  {
    seq(|ts|, k requires 0 <= k < |ts| => ts[k] + [p])
  }

  predicate DistinctTrails(ts: seq<seq<Point>>)
  {
    forall a, b :: 0 <= a < b < |ts| ==> ts[a] != ts[b]
  }

  /** How many of the trails `ts` start at `s`. */
  function StartCount(ts: seq<seq<Point>>, s: Point): nat
  {
    if ts == [] then 0
    else
      var t := ts[|ts| - 1];
      StartCount(ts[..|ts| - 1], s) + (if |t| > 0 && t[0] == s then 1 else 0)
  }

  lemma {:induction false} StartCountAppend(a: seq<seq<Point>>, b: seq<seq<Point>>, s: Point)
    ensures StartCount(a + b, s) == StartCount(a, s) + StartCount(b, s)
    decreases |b|
  {
    if b == [] {
      assert a + b == a;
    } else {
      assert (a + b)[..|a + b| - 1] == a + b[..|b| - 1];
      StartCountAppend(a, b[..|b| - 1], s);
    }
  }

  lemma {:induction false} StartCountExtend(ts: seq<seq<Point>>, p: Point, s: Point)
    requires forall k :: 0 <= k < |ts| ==> |ts[k]| > 0
    ensures StartCount(Extend(ts, p), s) == StartCount(ts, s)
    decreases |ts|
  {
    if ts != [] {
      assert Extend(ts, p)[..|ts| - 1] == Extend(ts[..|ts| - 1], p);
      StartCountExtend(ts[..|ts| - 1], p, s);
    }
  }

  /** Heights along a trail rise by one per step from `bottom`. */
  lemma {:induction false} TrailHeights(m: TopographicMap, bottom: int, t: seq<Point>)
    requires Fits(m) && Trail(m, bottom, t)
    ensures forall k :: 0 <= k < |t| ==> HeightAt(m, t[k]) == bottom + k
    decreases |t|
  {
    if |t| > 1 {
      var n := |t| - 1;
      TrailPrefix(m, bottom, t);
      TrailHeights(m, bottom, t[..n]);
      assert HeightAt(m, t[n]) == HeightAt(m, t[n - 1]) + 1;
    }
  }

  lemma SplitLast(t: seq<Point>)
    requires |t| > 0
    ensures t == t[..|t| - 1] + [t[|t| - 1]]
  {
  }

  /** A step from the end of a trail to an adjacent point one higher makes a
    longer trail. */
  lemma TrailSnoc(m: TopographicMap, bottom: int, t: seq<Point>, p: Point)
    requires Fits(m) && Trail(m, bottom, t) && InRange(m, p)
    requires p in AdjacentPoints(m, Last(t)) && HeightAt(m, p) == HeightAt(m, Last(t)) + 1
    ensures Trail(m, bottom, t + [p]) && Last(t + [p]) == p && (t + [p])[|t| - 1] == Last(t)
  {
    var u := t + [p];
    forall k | 0 <= k < |u| - 1
      ensures u[k + 1] in AdjacentPoints(m, u[k]) && HeightAt(m, u[k + 1]) == HeightAt(m, u[k]) + 1
    {
      if k < |t| - 1 {
        assert u[k] == t[k] && u[k + 1] == t[k + 1];
      } else {
        assert u[k] == Last(t) && u[k + 1] == p;
      }
    }
  }

  lemma TrailPrefix(m: TopographicMap, bottom: int, t: seq<Point>)
    requires Fits(m) && Trail(m, bottom, t) && |t| > 1
    ensures Trail(m, bottom, t[..|t| - 1])
  {
  }

  /** Everything `TrailsTo` lists is a trail that ends at `p`. */
  lemma {:induction false} TrailsToAreTrails(m: TopographicMap, bottom: int, top: int, p: Point)
    requires Fits(m) && InRange(m, p)
    ensures forall k :: 0 <= k < |TrailsTo(m, bottom, top, p)| ==>
      Trail(m, bottom, TrailsTo(m, bottom, top, p)[k]) && Last(TrailsTo(m, bottom, top, p)[k]) == p
    decreases HeightAt(m, p) - bottom, 1
  {
    var h := HeightAt(m, p);
    if bottom < h <= top {
      TrailsViaAreTrails(m, bottom, top, PointsWithHeight(m, h - 1), h - 1, p);
      ClimbUnfold(m, bottom, top, p);
    }
  }

  function Last(t: seq<Point>): Point
    requires |t| > 0
  {
    t[|t| - 1]
  }

  /** Each trail `TrailsVia` lists is a trail to one of `qs`, then `p`. */
  lemma {:induction false} TrailsViaAreTrails(m: TopographicMap, bottom: int, top: int, qs: seq<Point>, h: int, p: Point)
    requires Fits(m) && bottom <= h && InRange(m, p) && HeightAt(m, p) == h + 1
    ensures forall k :: 0 <= k < |TrailsVia(m, bottom, top, qs, h, p)| ==>
      ViaOne(m, bottom, top, qs, TrailsVia(m, bottom, top, qs, h, p)[k], p)
    decreases h - bottom + 1, 0, |qs|
  {
    if qs != [] {
      var n := |qs| - 1;
      var q := qs[n];
      var before := TrailsVia(m, bottom, top, qs[..n], h, p);
      TrailsViaAreTrails(m, bottom, top, qs[..n], h, p);
      var here := if StepUp(m, q, h, p) then Extend(TrailsTo(m, bottom, top, q), p) else [];
      if StepUp(m, q, h, p) {
        TrailsToAreTrails(m, bottom, top, q);
      }
      forall k | 0 <= k < |before + here|
        ensures ViaOne(m, bottom, top, qs, (before + here)[k], p)
      {
        if k < |before| {
          assert (before + here)[k] == before[k];
        } else {
          var t := TrailsTo(m, bottom, top, q)[k - |before|];
          assert (before + here)[k] == t + [p];
          TrailSnoc(m, bottom, t, p);
        }
      }
    }
  }

  /** `u` is a trail that ends with a step from one of `qs` to `p`. */
  ghost predicate ViaOne(m: TopographicMap, bottom: int, top: int, qs: seq<Point>, u: seq<Point>, p: Point)
    requires Fits(m)
  {
    |u| > 1 && Trail(m, bottom, u) && Last(u) == p && u[|u| - 2] in qs
  }

  /** A trail to one of `qs` next to `p`, extended by that step, is among
    those `TrailsVia` lists; `k` says where. */
  lemma {:induction false} TrailsViaIncludes(m: TopographicMap, bottom: int, top: int, qs: seq<Point>, h: int, p: Point, j: nat, i: nat) returns (k: nat)
    requires Fits(m) && bottom <= h
    requires j < |qs| && StepUp(m, qs[j], h, p) && i < |TrailsTo(m, bottom, top, qs[j])|
    ensures k < |TrailsVia(m, bottom, top, qs, h, p)|
    ensures TrailsVia(m, bottom, top, qs, h, p)[k] == TrailsTo(m, bottom, top, qs[j])[i] + [p]
    decreases |qs|
  {
    var n := |qs| - 1;
    var before := TrailsVia(m, bottom, top, qs[..n], h, p);
    var here := if StepUp(m, qs[n], h, p) then Extend(TrailsTo(m, bottom, top, qs[n]), p) else [];
    assert TrailsVia(m, bottom, top, qs, h, p) == before + here;
    if j == n {
      k := |before| + i;
      assert (before + here)[k] == here[i];
    } else {
      assert qs[..n][j] == qs[j];
      k := TrailsViaIncludes(m, bottom, top, qs[..n], h, p, j, i);
      assert (before + here)[k] == before[k];
    }
  }

  /** Every trail that ends at or below `top` is listed by `TrailsTo`, at
    index `k`. */
  lemma {:induction false} TrailsComplete(m: TopographicMap, bottom: int, top: int, t: seq<Point>) returns (k: nat)
    requires Fits(m) && Trail(m, bottom, t) && HeightAt(m, Last(t)) <= top
    ensures k < |TrailsTo(m, bottom, top, Last(t))| && TrailsTo(m, bottom, top, Last(t))[k] == t
    decreases |t|
  {
    if |t| == 1 {
      assert t == [t[0]];
      k := 0;
    } else {
      var prefix, q, p := TrailStep(m, bottom, t);
      var i := TrailsComplete(m, bottom, top, prefix);
      var h := HeightAt(m, p);
      var j := IndexOfPoint(m, h - 1, q);
      k := TrailsViaIncludes(m, bottom, top, PointsWithHeight(m, h - 1), h - 1, p, j, i);
      ClimbUnfold(m, bottom, top, p);
    }
  }

  /** A trail of two or more points is a shorter trail and one more step. */
  lemma TrailStep(m: TopographicMap, bottom: int, t: seq<Point>) returns (prefix: seq<Point>, q: Point, p: Point)
    requires Fits(m) && Trail(m, bottom, t) && |t| > 1
    ensures Trail(m, bottom, prefix) && Last(prefix) == q && Last(t) == p && t == prefix + [p]
    ensures p in AdjacentPoints(m, q) && HeightAt(m, p) == HeightAt(m, q) + 1
    ensures HeightAt(m, q) >= bottom
  {
    var n := |t| - 1;
    prefix, q, p := t[..n], t[n - 1], t[n];
    TrailPrefix(m, bottom, t);
    TrailHeights(m, bottom, t);
    SplitLast(t);
  }

  lemma ExtendPenultimate(ts: seq<seq<Point>>, p: Point, q: Point)
    requires forall j :: 0 <= j < |ts| ==> |ts[j]| > 0 && Last(ts[j]) == q
    ensures forall j :: 0 <= j < |ts| ==> |Extend(ts, p)[j]| > 1 && Extend(ts, p)[j][|Extend(ts, p)[j]| - 2] == q
  {
    forall j | 0 <= j < |ts|
      ensures |Extend(ts, p)[j]| > 1 && Extend(ts, p)[j][|Extend(ts, p)[j]| - 2] == q
    {
      assert (ts[j] + [p])[|ts[j]| - 1] == ts[j][|ts[j]| - 1];
    }
  }

  /** Trails whose last steps start from different points differ. */
  lemma GroupsApart(before: seq<seq<Point>>, after: seq<seq<Point>>, lower: seq<Point>, q: Point)
    requires forall i :: 0 <= i < |before| ==> |before[i]| > 1 && before[i][|before[i]| - 2] in lower
    requires forall j :: 0 <= j < |after| ==> |after[j]| > 1 && after[j][|after[j]| - 2] == q
    requires q !in lower
    ensures forall x, y :: x in before && y in after ==> x != y
  {
  }

  lemma DistinctAppend(a: seq<seq<Point>>, b: seq<seq<Point>>)
    requires DistinctTrails(a) && DistinctTrails(b)
    requires forall x, y :: x in a && y in b ==> x != y
    ensures DistinctTrails(a + b)
  {
    forall i, j | 0 <= i < j < |a + b|
      ensures (a + b)[i] != (a + b)[j]
    {
      if j < |a| {
        assert (a + b)[i] == a[i] && (a + b)[j] == a[j];
      } else if i >= |a| {
        assert (a + b)[i] == b[i - |a|] && (a + b)[j] == b[j - |a|];
      } else {
        assert (a + b)[i] == a[i] && (a + b)[j] == b[j - |a|];
        assert a[i] in a && b[j - |a|] in b;
      }
    }
  }

  lemma DistinctExtend(ts: seq<seq<Point>>, p: Point)
    requires DistinctTrails(ts)
    ensures DistinctTrails(Extend(ts, p))
  {
    forall i, j | 0 <= i < j < |ts|
      ensures Extend(ts, p)[i] != Extend(ts, p)[j]
    {
      if ts[i] + [p] == ts[j] + [p] {
        assert ts[i] == (ts[i] + [p])[..|ts[i]|];
        assert ts[j] == (ts[j] + [p])[..|ts[j]|];
      }
    }
  }

  /** `TrailsTo` lists no trail twice. */
  lemma {:induction false} TrailsToDistinct(m: TopographicMap, bottom: int, top: int, p: Point)
    requires Fits(m) && InRange(m, p)
    ensures DistinctTrails(TrailsTo(m, bottom, top, p))
    decreases HeightAt(m, p) - bottom, 1
  {
    var h := HeightAt(m, p);
    if bottom < h <= top {
      PointsWithHeightMembers(m, h - 1);
      TrailsViaDistinct(m, bottom, top, PointsWithHeight(m, h - 1), h - 1, p);
      ClimbUnfold(m, bottom, top, p);
    }
  }

  lemma {:induction false} TrailsViaDistinct(m: TopographicMap, bottom: int, top: int, qs: seq<Point>, h: int, p: Point)
    requires Fits(m) && bottom <= h && InRange(m, p) && HeightAt(m, p) == h + 1
    requires Distinct(qs)
    ensures DistinctTrails(TrailsVia(m, bottom, top, qs, h, p))
    decreases h - bottom + 1, 0, |qs|
  {
    if qs != [] {
      var n := |qs| - 1;
      var q := qs[n];
      var before := TrailsVia(m, bottom, top, qs[..n], h, p);
      TrailsViaDistinct(m, bottom, top, qs[..n], h, p);
      if StepUp(m, q, h, p) {
        var ts := TrailsTo(m, bottom, top, q);
        TrailsToDistinct(m, bottom, top, q);
        DistinctExtend(ts, p);
        TrailsViaAreTrails(m, bottom, top, qs[..n], h, p);
        TrailsToAreTrails(m, bottom, top, q);
        forall i | 0 <= i < |before|
          ensures |before[i]| > 1 && before[i][|before[i]| - 2] in qs[..n]
        {
          assert ViaOne(m, bottom, top, qs[..n], before[i], p);
        }
        ExtendPenultimate(ts, p, q);
        assert q !in qs[..n];
        GroupsApart(before, Extend(ts, p), qs[..n], q);
        DistinctAppend(before, Extend(ts, p));
      } else {
        assert TrailsVia(m, bottom, top, qs, h, p) == before + [];
      }
    }
  }

  /** `Reach` holds each start point as often as `TrailsTo` has trails
    from it. */
  lemma {:induction false} ReachCounts(m: TopographicMap, bottom: int, top: int, p: Point, s: Point)
    requires Fits(m) && InRange(m, p)
    ensures Reach(m, bottom, top, p)[s] == StartCount(TrailsTo(m, bottom, top, p), s)
    decreases HeightAt(m, p) - bottom, 1
  {
    var h := HeightAt(m, p);
    if h == bottom {
      assert [[p]][..0] == [];
      assert Reach(m, bottom, top, p) == multiset{p} && TrailsTo(m, bottom, top, p) == [[p]];
    } else if bottom < h <= top {
      var lower := PointsWithHeight(m, h - 1);
      FromLowerCounts(m, bottom, top, lower, h - 1, p, s);
      ClimbUnfold(m, bottom, top, p);
    } else {
      assert Reach(m, bottom, top, p) == multiset{} && TrailsTo(m, bottom, top, p) == [];
    }
  }

  lemma {:induction false} FromLowerCounts(m: TopographicMap, bottom: int, top: int, qs: seq<Point>, h: int, p: Point, s: Point)
    requires Fits(m) && bottom <= h
    ensures FromLower(m, bottom, top, qs, h, p)[s] == StartCount(TrailsVia(m, bottom, top, qs, h, p), s)
    decreases h - bottom + 1, 0, |qs|
  {
    if qs != [] {
      var n := |qs| - 1;
      var q := qs[n];
      var before := TrailsVia(m, bottom, top, qs[..n], h, p);
      FromLowerCounts(m, bottom, top, qs[..n], h, p, s);
      var here := if StepUp(m, q, h, p) then Extend(TrailsTo(m, bottom, top, q), p) else [];
      StartCountAppend(before, here, s);
      if StepUp(m, q, h, p) {
        TrailsToAreTrails(m, bottom, top, q);
        StartCountExtend(TrailsTo(m, bottom, top, q), p, s);
        ReachCounts(m, bottom, top, q, s);
      }
    }
  }

  /** `Reach` has one entry per trail `TrailsTo` lists. */
  lemma {:induction false} ReachSize(m: TopographicMap, bottom: int, top: int, p: Point)
    requires Fits(m) && InRange(m, p)
    ensures |Reach(m, bottom, top, p)| == |TrailsTo(m, bottom, top, p)|
    decreases HeightAt(m, p) - bottom, 1
  {
    var h := HeightAt(m, p);
    if h == bottom {
      assert Reach(m, bottom, top, p) == multiset{p} && TrailsTo(m, bottom, top, p) == [[p]];
    } else if bottom < h <= top {
      var lower := PointsWithHeight(m, h - 1);
      FromLowerSize(m, bottom, top, lower, h - 1, p);
      ClimbUnfold(m, bottom, top, p);
    } else {
      assert Reach(m, bottom, top, p) == multiset{} && TrailsTo(m, bottom, top, p) == [];
    }
  }

  lemma {:induction false} FromLowerSize(m: TopographicMap, bottom: int, top: int, qs: seq<Point>, h: int, p: Point)
    requires Fits(m) && bottom <= h
    ensures |FromLower(m, bottom, top, qs, h, p)| == |TrailsVia(m, bottom, top, qs, h, p)|
    decreases h - bottom + 1, 0, |qs|
  {
    if qs != [] {
      var n := |qs| - 1;
      FromLowerSize(m, bottom, top, qs[..n], h, p);
      if StepUp(m, qs[n], h, p) {
        ReachSize(m, bottom, top, qs[n]);
      }
    }
  }

  lemma {:induction false} StartCountPositive(ts: seq<seq<Point>>, s: Point)
    ensures StartCount(ts, s) > 0 <==> exists k :: 0 <= k < |ts| && |ts[k]| > 0 && ts[k][0] == s
    decreases |ts|
  {
    if ts != [] {
      var n := |ts| - 1;
      StartCountPositive(ts[..n], s);
      if exists k :: 0 <= k < |ts| && |ts[k]| > 0 && ts[k][0] == s {
        var k :| 0 <= k < |ts| && |ts[k]| > 0 && ts[k][0] == s;
        if k < n {
          assert ts[..n][k] == ts[k];
        }
      }
    }
  }

  /** The list at `p` has one entry per distinct hiking trail to `p`: the
    trails `TrailsTo` lists are all trails ending at `p` (none climbs above
    `top`), each listed once, and their number is the size of `Reach`. */
  lemma TrailRating(m: TopographicMap, bottom: int, top: int, p: Point, t: seq<Point>)
    requires Fits(m) && InRange(m, p) && bottom <= top
    ensures |Reach(m, bottom, top, p)| == |TrailsTo(m, bottom, top, p)|
    ensures DistinctTrails(TrailsTo(m, bottom, top, p))
    ensures t in TrailsTo(m, bottom, top, p) <==>
      Trail(m, bottom, t) && Last(t) == p && HeightAt(m, p) <= top
  {
    ReachSize(m, bottom, top, p);
    TrailsToDistinct(m, bottom, top, p);
    TrailsToAreTrails(m, bottom, top, p);
    if Trail(m, bottom, t) && Last(t) == p && HeightAt(m, p) <= top {
      var k := TrailsComplete(m, bottom, top, t);
    }
  }

  /** A start point reaches `p` exactly when some hiking trail leads from
    it to `p`. */
  lemma TrailScore(m: TopographicMap, bottom: int, top: int, p: Point, s: Point)
    requires Fits(m) && InRange(m, p) && HeightAt(m, p) <= top
    ensures s in Reach(m, bottom, top, p) <==>
      exists t :: Trail(m, bottom, t) && t[0] == s && Last(t) == p
  {
    var ts := TrailsTo(m, bottom, top, p);
    ReachCounts(m, bottom, top, p, s);
    StartCountPositive(ts, s);
    TrailsToAreTrails(m, bottom, top, p);
    if s in Reach(m, bottom, top, p) {
      var k :| 0 <= k < |ts| && |ts[k]| > 0 && ts[k][0] == s;
      assert Trail(m, bottom, ts[k]) && Last(ts[k]) == p;
    }
    if exists t :: Trail(m, bottom, t) && t[0] == s && Last(t) == p {
      var t :| Trail(m, bottom, t) && t[0] == s && Last(t) == p;
      var k := TrailsComplete(m, bottom, top, t);
    }
  }
}
