/** The two location-id lists of rust/1/src/main.rs: the distance between
  the sorted lists and the similarity score. */
module LocationLists {

  predicate Sorted(s: seq<int>)
  {
    forall i, j :: 0 <= i < j < |s| ==> s[i] <= s[j]
  }

  /** In a sorted list holding the same ids as `a`, the first id is at most `a[0]`. */
  lemma MinFirst(a: seq<int>, b: seq<int>)
    requires |a| > 0 && |b| > 0 && Sorted(b) && multiset(a) == multiset(b)
    ensures b[0] <= a[0]
  {
    assert a[0] in multiset(b);
    var i :| 0 <= i < |b| && b[i] == a[0];
  }

  /** Two sorted lists holding the same multiset of ids are the same list. */
  lemma {:induction false} SortedUnique(a: seq<int>, b: seq<int>)
    requires Sorted(a) && Sorted(b) && multiset(a) == multiset(b)
    ensures a == b
  {
    if |a| == 0 {
      assert |b| == |multiset(b)| == 0;
    } else {
      assert |b| == |multiset(b)| == |a|;
      MinFirst(a, b);
      MinFirst(b, a);
      TailMultiset(a, b);
      SortedUnique(a[1..], b[1..]);
      assert a == [a[0]] + a[1..] && b == [b[0]] + b[1..];
    }
  }

  /** Lists with the same ids and the same first id have tails with the same ids. */
  lemma TailMultiset(a: seq<int>, b: seq<int>)
    requires |a| > 0 && |b| > 0 && a[0] == b[0] && multiset(a) == multiset(b)
    ensures multiset(a[1..]) == multiset(b[1..])
  {
    assert a == [a[0]] + a[1..];
    assert b == [b[0]] + b[1..];
    assert multiset(a) == multiset{a[0]} + multiset(a[1..]);
    assert multiset(b) == multiset{b[0]} + multiset(b[1..]);
    assert multiset(a[1..]) == multiset(a) - multiset{a[0]};
    assert multiset(b[1..]) == multiset(b) - multiset{b[0]};
  }

  /** Insertion of one id in front of the first larger one. */
  function Insert(x: int, s: seq<int>): seq<int>
  {
    if s == [] then [x]
    else if x <= s[0] then [x] + s
    else [s[0]] + Insert(x, s[1..])
  }

  /** The sorted copy of a list (what `Vec::sort` leaves behind). */
  function Sort(s: seq<int>): seq<int>
  {
    if s == [] then [] else Insert(s[|s| - 1], Sort(s[..|s| - 1]))
  }

  lemma {:induction false} InsertSpec(x: int, s: seq<int>)
    requires Sorted(s)
    ensures Sorted(Insert(x, s)) && multiset(Insert(x, s)) == multiset(s) + multiset{x}
    decreases |s|
  {
    if s != [] && x <= s[0] {
      forall k | 0 <= k < |s|
        ensures x <= s[k]
      {
      }
      LeastFirst(x, s);
    } else if s != [] {
      InsertSpec(x, s[1..]);
      InsertBehind(x, s);
    }
  }

  /** Inserting behind the head: the head stays in front of the rest. */
  lemma InsertBehind(x: int, s: seq<int>)
    requires Sorted(s) && s != [] && x > s[0]
    requires Sorted(Insert(x, s[1..])) && multiset(Insert(x, s[1..])) == multiset(s[1..]) + multiset{x}
    ensures Sorted(Insert(x, s)) && multiset(Insert(x, s)) == multiset(s) + multiset{x}
  {
    var rest := s[1..];
    var t := Insert(x, rest);
    HeadBelow(x, s, t);
    LeastFirst(s[0], t);
    assert Insert(x, s) == [s[0]] + t;
    assert s == [s[0]] + rest;
    assert multiset([s[0]] + t) == multiset{s[0]} + multiset(t);
  }

  /** Every id of the rest, and `x`, is at least the head of a sorted list. */
  lemma HeadBelow(x: int, s: seq<int>, t: seq<int>)
    requires Sorted(s) && s != [] && x > s[0] && multiset(t) == multiset(s[1..]) + multiset{x}
    ensures forall k :: 0 <= k < |t| ==> s[0] <= t[k]
  {
    forall k | 0 <= k < |t|
      ensures s[0] <= t[k]
    {
      assert t[k] in multiset(t);
      if t[k] != x {
        assert t[k] in multiset(s[1..]);
        var m :| 0 <= m < |s[1..]| && s[1..][m] == t[k];
        assert s[1..][m] == s[m + 1];
      }
    }
  }

  /** Putting an id no larger than any element in front keeps a list sorted. */
  lemma LeastFirst(x: int, t: seq<int>)
    requires Sorted(t) && forall k :: 0 <= k < |t| ==> x <= t[k]
    ensures Sorted([x] + t)
  {
    var u := [x] + t;
    forall i, j | 0 <= i < j < |u|
      ensures u[i] <= u[j]
    {
      assert u[j] == t[j - 1];
      if i > 0 {
        assert u[i] == t[i - 1];
      }
    }
  }

  /** The sort yields a sorted permutation of its input. */
  lemma {:induction false} SortSpec(s: seq<int>)
    ensures Sorted(Sort(s)) && multiset(Sort(s)) == multiset(s)
  {
    if s != [] {
      SortSpec(s[..|s| - 1]);
      InsertSpec(s[|s| - 1], Sort(s[..|s| - 1]));
      assert s == s[..|s| - 1] + [s[|s| - 1]];
    }
  }

  /** The list sort only depends on the multiset of ids. */
  lemma SortPermutation(s: seq<int>, t: seq<int>)
    requires multiset(s) == multiset(t)
    ensures Sort(s) == Sort(t)
  {
    SortSpec(s);
    SortSpec(t);
    SortedUnique(Sort(s), Sort(t));
  }

  /** Insertion sort in place on the copied list. */
  method SortInPlace(a: array<int>)
    modifies a
    ensures Sorted(a[..]) && multiset(a[..]) == multiset(old(a[..]))
  {
    if a.Length == 0 {
      return;
    }
    for i := 1 to a.Length
      invariant forall p, q :: 0 <= p < q < i ==> a[p] <= a[q]
      invariant multiset(a[..]) == multiset(old(a[..]))
    {
      SinkLast(a, i);
    }
  }

  /** One pass of the insertion sort: `a[i]` sinks into the sorted prefix
    by swaps. */
  method SinkLast(a: array<int>, i: nat)
    requires 0 < i < a.Length
    requires forall p, q :: 0 <= p < q < i ==> a[p] <= a[q]
    modifies a
    ensures forall p, q :: 0 <= p < q <= i ==> a[p] <= a[q]
    ensures multiset(a[..]) == multiset(old(a[..]))
  {
    var j := i;
    while j > 0 && a[j - 1] > a[j]
      invariant 0 <= j <= i
      invariant forall p, q :: 0 <= p < q <= i && q != j ==> a[p] <= a[q]
      invariant multiset(a[..]) == multiset(old(a[..]))
    {
      SwapDown(a, i, j);
      j := j - 1;
    }
  }

  /** One swap of the sinking id with the larger one before it. */
  method SwapDown(a: array<int>, i: nat, j: nat)
    requires 0 < j <= i < a.Length && a[j - 1] > a[j]
    requires forall p, q :: 0 <= p < q <= i && q != j ==> a[p] <= a[q]
    modifies a
    ensures forall p, q :: 0 <= p < q <= i && q != j - 1 ==> a[p] <= a[q]
    ensures multiset(a[..]) == multiset(old(a[..]))
  {
    ghost var before := a[..];
    a[j - 1], a[j] := a[j], a[j - 1];
    SwapMultiset(before, j - 1, j);
    assert a[..] == before[j - 1 := before[j]][j := before[j - 1]];
  }

  /** Swapping two entries keeps the multiset of ids. */
  lemma SwapMultiset(s: seq<int>, i: nat, j: nat)
    requires i < j < |s|
    ensures multiset(s[i := s[j]][j := s[i]]) == multiset(s)
  {
  }

  function Gap(x: int, y: int): nat
  {
    if x < y then y - x else x - y
  }

  /** Sum of the gaps of the first `n` pairs. */
  function GapSum(a: seq<int>, b: seq<int>, n: nat): int
    requires n <= |a| && n <= |b|
  {
    if n == 0 then 0 else GapSum(a, b, n - 1) + Gap(a[n - 1], b[n - 1])
  }

  /** Sum of |a[k] - b[k]| over the pairs that `zip` forms. */
  function PairDistance(a: seq<int>, b: seq<int>): int
  {
    GapSum(a, b, if |a| < |b| then |a| else |b|)
  }

  /** The distance the puzzle asks for: pair the lists after sorting. */
  function SortedDistance(left: seq<int>, right: seq<int>): int
  {
    PairDistance(Sort(left), Sort(right))
  }

  /** The `zip`-`map`-`sum` over two sorted arrays. */
  method SumOfGaps(l: array<int>, r: array<int>) returns (d: int)
    ensures d == PairDistance(l[..], r[..])
  {
    var n := if l.Length < r.Length then l.Length else r.Length;
    d := 0;
    for k := 0 to n
      invariant d == GapSum(l[..], r[..], k)
    {
      d := d + Gap(l[k], r[k]);
    }
  }

  /** `distance`: sort copies of both lists, then sum the pairwise gaps. */
  method Distance(left: seq<int>, right: seq<int>) returns (d: int)
    ensures d == SortedDistance(left, right)
  {
    var l := new int[|left|](k requires 0 <= k < |left| => left[k]);
    var r := new int[|right|](k requires 0 <= k < |right| => right[k]);
    assert l[..] == left && r[..] == right;
    SortInPlace(l);
    SortInPlace(r);
    SortSpec(left);
    SortSpec(right);
    SortedUnique(l[..], Sort(left));
    SortedUnique(r[..], Sort(right));
    d := SumOfGaps(l, r);
  }

  lemma {:induction false} GapSumSymmetric(a: seq<int>, b: seq<int>, n: nat)
    requires n <= |a| && n <= |b|
    ensures GapSum(a, b, n) == GapSum(b, a, n)
    ensures GapSum(a, a, n) == 0
  {
    if n > 0 {
      GapSumSymmetric(a, b, n - 1);
    }
  }

  /** The distance is symmetric, is 0 between a list and itself, and does
    not change when either list is permuted. */
  lemma DistanceProperties(left: seq<int>, left': seq<int>, right: seq<int>)
    requires multiset(left) == multiset(left')
    ensures SortedDistance(left, right) == SortedDistance(left', right)
    ensures SortedDistance(left, right) == SortedDistance(right, left)
    ensures SortedDistance(left, left') == 0
  {
    SortPermutation(left, left');
    var a, b := Sort(left), Sort(right);
    GapSumSymmetric(a, b, if |a| < |b| then |a| else |b|);
    GapSumSymmetric(a, a, |a|);
  }

  /** Sum over the left list of each id times its count in `counts`. */
  function Score(left: seq<int>, counts: multiset<int>): int
  {
    if left == [] then 0
    else Score(left[..|left| - 1], counts) + left[|left| - 1] * counts[left[|left| - 1]]
  }

  /** The similarity score: each left id times how often it occurs on the right. */
  function Similarity(left: seq<int>, right: seq<int>): int
  {
    Score(left, multiset(right))
  }

  /** `similarity`: count the right ids in a map, then sum over the left list;
    ids missing from the map add nothing. */
  method SimilarityScore(left: seq<int>, right: seq<int>) returns (s: int)
    ensures s == Similarity(left, right)
  {
    var counts: map<int, int> := map[];
    for j := 0 to |right|
      invariant forall x :: x in counts <==> x in multiset(right[..j])
      invariant forall x :: x in counts ==> counts[x] == multiset(right[..j])[x]
    {
      assert right[..j + 1] == right[..j] + [right[j]];
      var id := right[j];
      counts := counts[id := if id in counts then counts[id] + 1 else 1];
    }
    assert right[..|right|] == right;
    s := 0;
    for i := 0 to |left|
      invariant s == Score(left[..i], multiset(right))
    {
      var n := left[i];
      assert left[..i + 1][..i] == left[..i];
      if n in counts {
        s := s + n * counts[n];
      }
    }
    assert left[..|left|] == left;
  }

  /** Adding one id to the right list adds that id once per occurrence on the left. */
  lemma {:induction false} ScoreAdd(left: seq<int>, counts: multiset<int>, y: int)
    ensures Score(left, counts + multiset{y}) == Score(left, counts) + y * multiset(left)[y]
  {
    if left != [] {
      var init, z := left[..|left| - 1], left[|left| - 1];
      assert left == init + [z];
      ScoreAdd(init, counts, y);
      ScoreSnoc(init, z, counts);
      ScoreSnoc(init, z, counts + multiset{y});
      var before := multiset(init)[y];
      if z == y {
        assert multiset(left)[y] == before + 1;
        assert (counts + multiset{y})[z] == counts[z] + 1;
        MulSucc(z, counts[z]);
        MulSucc(y, before);
      } else {
        assert multiset(left)[y] == before;
        assert (counts + multiset{y})[z] == counts[z];
      }
    }
  }

  lemma MulSucc(a: int, b: int)
    ensures a * (b + 1) == a * b + a
  {
  }

  lemma {:induction false} ScoreNone(left: seq<int>)
    ensures Score(left, multiset{}) == 0
  {
    if left != [] {
      ScoreNone(left[..|left| - 1]);
    }
  }

  /** The similarity score is symmetric in the two lists. */
  lemma {:induction false} SimilaritySymmetric(left: seq<int>, right: seq<int>)
    ensures Similarity(left, right) == Similarity(right, left)
  {
    if right == [] {
      ScoreNone(left);
    } else {
      var init := right[..|right| - 1];
      var y := right[|right| - 1];
      assert right == init + [y];
      assert multiset(right) == multiset(init) + multiset{y};
      SimilaritySymmetric(left, init);
      ScoreAdd(left, multiset(init), y);
      assert Score(right, multiset(left)) == Score(init, multiset(left)) + y * multiset(left)[y];
    }
  }

  /** Sorting one more id inserts it into the sorted rest. */
  lemma SortSnoc(init: seq<int>, z: int)
    ensures Sort(init + [z]) == Insert(z, Sort(init))
  {
    assert (init + [z])[..|init|] == init;
  }

  /** A sorted rearrangement is the sorted copy. */
  lemma SortedSample(ids: seq<int>, sorted: seq<int>, m: multiset<int>)
    requires Sorted(sorted) && multiset(ids) == m && multiset(sorted) == m
    ensures Sort(ids) == sorted
  {
    SortSpec(ids);
    SortedUnique(Sort(ids), sorted);
  }

  /** One more left id adds that id times its count. */
  lemma ScoreSnoc(init: seq<int>, z: int, counts: multiset<int>)
    ensures Score(init + [z], counts) == Score(init, counts) + z * counts[z]
  {
    assert (init + [z])[..|init|] == init;
  }

  /** The score of the sample left list, given the counts of its ids. */
  lemma SampleScore(m: multiset<int>)
    requires m[3] == 3 && m[4] == 1 && m[2] == 0 && m[1] == 0
    ensures Score([3, 4, 2, 1, 3, 3], m) == 31
  {
    var ids := [3, 4, 2, 1, 3, 3];
    assert Score([], m) == 0;
    for k := 0 to 6
      invariant Score(ids[..k], m) == [0, 9, 13, 13, 13, 22, 31][k]
    {
      ScoreSnoc(ids[..k], ids[k], m);
      assert ids[..k] + [ids[k]] == ids[..k + 1];
    }
    assert ids[..6] == ids;
  }

  /** The sample distance of the unit tests, for the sample lists in any
    order. */
  lemma SampleDistance(left: seq<int>, right: seq<int>)
    requires multiset(left) == multiset{3, 4, 2, 1, 3, 3} && multiset(right) == multiset{4, 3, 5, 3, 9, 3}
    ensures SortedDistance(left, right) == 11
  {
    var a, b := [1, 2, 3, 3, 3, 4], [3, 3, 3, 4, 5, 9];
    SampleSortedLeft(left, a);
    SampleSortedRight(right, b);
    PairSample(a, b);
  }

  /** The sample left list, sorted. */
  lemma SampleSortedLeft(left: seq<int>, a: seq<int>)
    requires multiset(left) == multiset{3, 4, 2, 1, 3, 3} && a == [1, 2, 3, 3, 3, 4]
    ensures Sort(left) == a
  {
    var m := SortedRearrangement([3, 4, 2, 1, 3, 3], a);
    SortedSample(left, a, m);
  }

  /** The sample right list, sorted. */
  lemma SampleSortedRight(right: seq<int>, b: seq<int>)
    requires multiset(right) == multiset{4, 3, 5, 3, 9, 3} && b == [3, 3, 3, 4, 5, 9]
    ensures Sort(right) == b
  {
    var m := SortedRearrangement([4, 3, 5, 3, 9, 3], b);
    SortedSample(right, b, m);
  }

  /** Six ids and a sorted rearrangement of them. */
  lemma SortedRearrangement(ids: seq<int>, sorted: seq<int>) returns (m: multiset<int>)
    requires |ids| == 6 && |sorted| == 6 && Sorted(sorted)
    requires multiset{ids[0], ids[1], ids[2], ids[3], ids[4], ids[5]} ==
             multiset{sorted[0], sorted[1], sorted[2], sorted[3], sorted[4], sorted[5]}
    ensures multiset(sorted) == m && multiset{ids[0], ids[1], ids[2], ids[3], ids[4], ids[5]} == m
  {
    m := multiset{sorted[0], sorted[1], sorted[2], sorted[3], sorted[4], sorted[5]};
    assert sorted == [sorted[0], sorted[1], sorted[2], sorted[3], sorted[4], sorted[5]];
  }

  /** The pairwise distance of the sorted sample lists. */
  lemma PairSample(a: seq<int>, b: seq<int>)
    requires a == [1, 2, 3, 3, 3, 4] && b == [3, 3, 3, 4, 5, 9]
    ensures PairDistance(a, b) == 11
  {
    assert GapSum(a, b, 1) == 2;
    assert GapSum(a, b, 2) == 3;
    assert GapSum(a, b, 3) == 3;
    assert GapSum(a, b, 4) == 4;
    assert GapSum(a, b, 5) == 6;
  }

  /** The sample similarity of the unit tests. */
  lemma SampleSimilarity()
    ensures Similarity([3, 4, 2, 1, 3, 3], [4, 3, 5, 3, 9, 3]) == 31
  {
    var m := multiset([4, 3, 5, 3, 9, 3]);
    assert m[3] == 3 && m[4] == 1 && m[2] == 0 && m[1] == 0;
    SampleScore(m);
  }
}
