/** Reactor safety reports (rust/2/src/main.rs). A report is a list of
  levels; it is safe when it moves in one direction in steps of 1 to 3. */
module Reports {

  /** The change from level `k` to level `k + 1`. */
  function Rise(r: seq<int>, k: nat): int
    requires k + 1 < |r|
  {
    r[k + 1] - r[k]
  }

  /** Every adjacent step rises by 1, 2 or 3. */
  predicate Increasing(r: seq<int>)
  {
    forall k :: 0 <= k < |r| - 1 ==> 1 <= Rise(r, k) <= 3
  }

  /** Every adjacent step falls by 1, 2 or 3. */
  predicate Decreasing(r: seq<int>)
  {
    forall k :: 0 <= k < |r| - 1 ==> -3 <= Rise(r, k) <= -1
  }

  /** The safety rule stated independently of the loop that checks it. */
  predicate Safe(r: seq<int>)
  {
    Increasing(r) || Decreasing(r)
  }

  /** The report with position `i` removed (unchanged when `i` is past the end). */
  function Without(r: seq<int>, i: nat): (w: seq<int>)
    ensures i < |r| ==> |w| == |r| - 1
    ensures i >= |r| ==> w == r
  {
    if i < |r| then r[..i] + r[i + 1..] else r
  }

  /** The check the loops make for one more level: the direction is the one
    fixed by the first pair, the levels differ and by at most 3. */
  predicate StepOk(direction: bool, prev: int, level: int)
  {
    direction == (prev < level) && prev != level && -3 <= prev - level <= 3
  }

  lemma IncreasingSnoc(w: seq<int>, x: int)
    requires |w| >= 1
    ensures Increasing(w + [x]) <==> Increasing(w) && 1 <= x - w[|w| - 1] <= 3
  {
    var v := w + [x];
    assert forall k :: 0 <= k < |w| - 1 ==> Rise(v, k) == Rise(w, k);
    assert Rise(v, |w| - 1) == x - w[|w| - 1];
  }

  lemma DecreasingSnoc(w: seq<int>, x: int)
    requires |w| >= 1
    ensures Decreasing(w + [x]) <==> Decreasing(w) && 1 <= w[|w| - 1] - x <= 3
  {
    var v := w + [x];
    assert forall k :: 0 <= k < |w| - 1 ==> Rise(v, k) == Rise(w, k);
    assert Rise(v, |w| - 1) == x - w[|w| - 1];
  }

  /** Appending one level keeps a report safe exactly when the step passes
    the loop's check, with the direction fixed by the first two levels. */
  lemma SafeSnoc(w: seq<int>, x: int)
    requires |w| >= 1
    ensures Safe(w + [x]) <==> Safe(w) && StepOk(if |w| >= 2 then w[0] < w[1] else w[|w| - 1] < x, w[|w| - 1], x)
  {
    IncreasingSnoc(w, x);
    DecreasingSnoc(w, x);
    if |w| >= 2 {
      assert Increasing(w) ==> 0 < Rise(w, 0);
      assert Decreasing(w) ==> Rise(w, 0) < 0;
    }
  }

  /** A prefix of a safe report is safe. */
  lemma SafePrefix(r: seq<int>, n: nat)
    requires n <= |r|
    ensures Safe(r) ==> Safe(r[..n])
  {
    var p := r[..n];
    assert forall k :: 0 <= k < |p| - 1 ==> Rise(p, k) == Rise(r, k);
  }

  /** Dropping the first or the last level keeps a report safe. */
  lemma SafeDropEnd(r: seq<int>)
    requires Safe(r) && |r| > 0
    ensures Safe(Without(r, 0)) && Safe(Without(r, |r| - 1))
  {
    var a, b := Without(r, 0), Without(r, |r| - 1);
    assert forall k :: 0 <= k < |a| - 1 ==> Rise(a, k) == Rise(r, k + 1);
    assert forall k :: 0 <= k < |b| - 1 ==> Rise(b, k) == Rise(r, k);
  }

  /** `is_safe`: the direction comes from the first pair and every later
    step is compared with it. */
  method IsSafe(report: seq<int>) returns (safe: bool)
    ensures safe == Safe(report)
  {
    if |report| < 2 {
      return true;
    }
    var direction := report[0] < report[1];
    var prev := report[0];
    for i := 1 to |report|
      invariant prev == report[i - 1]
      invariant Safe(report[..i])
    {
      var level := report[i];
      assert report[..i + 1] == report[..i] + [level];
      SafeSnoc(report[..i], level);
      if direction != (prev < level) {
        SafePrefix(report, i + 1);
        return false;
      }
      if prev == level || prev - level > 3 || level - prev > 3 {
        SafePrefix(report, i + 1);
        return false;
      }
      prev := level;
    }
    assert report[..|report|] == report;
    return true;
  }

  /** Extending the scanned prefix by one level. */
  lemma WithoutSnoc(r: seq<int>, ignore: nat, i: nat)
    requires i < |r|
    ensures Without(r[..i + 1], ignore) == if i == ignore then Without(r[..i], ignore) else Without(r[..i], ignore) + [r[i]]
  {
    assert r[..i + 1] == r[..i] + [r[i]];
    if ignore < i {
      assert r[..i + 1][..ignore] == r[..i][..ignore];
      assert r[..i + 1][ignore + 1..] == r[..i][ignore + 1..] + [r[i]];
    }
  }

  /** Removing a position commutes with taking a prefix. */
  lemma WithoutPrefix(r: seq<int>, ignore: nat, n: nat)
    requires n <= |r|
    ensures |Without(r[..n], ignore)| <= |Without(r, ignore)|
    ensures Without(r[..n], ignore) == Without(r, ignore)[..|Without(r[..n], ignore)|]
  {
  }

  /** An unsafe scanned prefix rules out the whole report. */
  lemma UnsafePrefix(r: seq<int>, ignore: nat, n: nat)
    requires n <= |r| && !Safe(Without(r[..n], ignore))
    ensures !Safe(Without(r, ignore))
  {
    WithoutPrefix(r, ignore, n);
    SafePrefix(Without(r, ignore), |Without(r[..n], ignore)|);
  }

  /** `is_safe_ignoring`: the same check, skipping position `ignore`; the
    direction is fixed by the first pair of levels that are not skipped. */
  method IsSafeIgnoring(report: seq<int>, ignore: nat) returns (safe: bool)
    ensures safe == Safe(Without(report, ignore))
  {
    var direction: bool := false;
    var hasDirection := false;
    var prev: int := 0;
    var hasPrev := false;
    ghost var seen: seq<int> := [];
    for i := 0 to |report|
      invariant seen == Without(report[..i], ignore)
      invariant Tracks(seen, hasPrev, prev, hasDirection, direction) && Safe(seen)
    {
      WithoutSnoc(report, ignore, i);
      if i == ignore {
        continue;
      }
      var level := report[i];
      var ok;
      ok, direction, hasDirection := CheckLevel(seen, hasPrev, prev, hasDirection, direction, level);
      if !ok {
        UnsafePrefix(report, ignore, i + 1);
        return false;
      }
      seen := seen + [level];
      prev := level;
      hasPrev := true;
    }
    assert report[..|report|] == report;
    return true;
  }

  /** What the loop of `is_safe_ignoring` remembers about the levels kept
    so far: the last one, and the direction once two are known. */
  predicate Tracks(seen: seq<int>, hasPrev: bool, prev: int, hasDirection: bool, direction: bool)
  {
    (hasPrev <==> |seen| >= 1) && (hasPrev ==> prev == seen[|seen| - 1]) &&
    (hasDirection <==> |seen| >= 2) && (hasDirection ==> direction == (seen[0] < seen[1]))
  }

  /** One kept level of `is_safe_ignoring`: the direction is fixed by the
    first two levels, and the level must continue it by 1 to 3. */
  method CheckLevel(ghost seen: seq<int>, hasPrev: bool, prev: int, hasDirection: bool, direction: bool, level: int)
    returns (ok: bool, dir: bool, hasDir: bool)
    requires Tracks(seen, hasPrev, prev, hasDirection, direction) && Safe(seen)
    ensures ok <==> Safe(seen + [level])
    ensures Tracks(seen + [level], true, level, hasDir, dir)
  {
    dir, hasDir := direction, hasDirection;
    ok := true;
    if hasPrev {
      if !hasDir {
        dir := prev < level;
        hasDir := true;
      }
      SafeSnoc(seen, level);
      if dir != (prev < level) || prev == level || prev - level > 3 || level - prev > 3 {
        ok := false;
      }
    } else {
      assert seen + [level] == [level];
    }
  }

  /** `is_safe_ignoring_one`: some single position can be skipped. */
  method IsSafeIgnoringOne(report: seq<int>) returns (safe: bool)
    ensures safe <==> exists i :: 0 <= i < |report| && Safe(Without(report, i))
    ensures |report| == 0 ==> !safe
  {
    for i := 0 to |report|
      invariant forall j :: 0 <= j < i ==> !Safe(Without(report, j))
    {
      var s := IsSafeIgnoring(report, i);
      if s {
        return true;
      }
    }
    return false;
  }

  /** A safe non-empty report stays safe when one extra level is ignored. */
  lemma SafeIsSafeIgnoringOne(report: seq<int>)
    requires Safe(report) && |report| > 0
    ensures exists i :: 0 <= i < |report| && Safe(Without(report, i))
  {
    SafeDropEnd(report);
  }

  /** The three reports of the unit tests. */
  lemma SampleReports()
    ensures Safe([7, 6, 4, 2, 1])
    ensures !Safe([1, 2, 3, 2])
    ensures !Safe([1, 2, 3, 7])
  {
    var a, b := [1, 2, 3, 2], [1, 2, 3, 7];
    assert Rise(a, 2) == -1 && Rise(a, 0) == 1;
    assert Rise(b, 2) == 4 && Rise(b, 0) == 1;
  }
}
