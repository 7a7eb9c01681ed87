/** The page-ordering rules of the print queue (java/5/src/PageOrderingConstraints.java):
  rules `a|b` say that page `a` must come before page `b`; an update is
  valid when no rule is broken, and an invalid one is repaired by placing,
  one after another, a page none of whose required predecessors is still
  left. */
module PageOrdering {
  import opened Wrappers
  import opened Sets

  /** `getOrDefault(page, new HashSet<>())`. */
  function Get(m: map<int, set<int>>, page: int): set<int>
  {
    if page in m then m[page] else {}
  }

  /** The pages of `pages` before index `k` that do not occur again from `k` on:
    the `earlierPages` of `isValidOrdering` when it reaches index `k`. */
  function EarlierOnly(pages: seq<int>, k: nat): set<int>
    requires k <= |pages|
  {
    set x | x in pages[..k] && x !in pages[k..]
  }

  /** What `isValidOrdering` accepts: no page has, among the pages only
    before it, one that it must precede. */
  predicate ValidOrdering(before: map<int, set<int>>, pages: seq<int>)
  {
    forall k :: 0 <= k < |pages| ==> EarlierOnly(pages, k) * Get(before, pages[k]) == {}
  }

  predicate Distinct(pages: seq<int>)
  {
    forall i, j :: 0 <= i < j < |pages| ==> pages[i] != pages[j]
  }

  /** Some rule `a|b` is broken: `b` occurs before `a`. */
  predicate BreaksRule(before: map<int, set<int>>, pages: seq<int>)
  {
    exists i, j :: 0 <= j < i < |pages| && pages[j] in Get(before, pages[i])
  }

  /** For an update without repeated pages, `isValidOrdering` is false
    exactly when some rule `a|b` has `b` before `a`. */
  lemma ValidIffNoBrokenRule(before: map<int, set<int>>, pages: seq<int>)
    requires Distinct(pages)
    ensures ValidOrdering(before, pages) <==> !BreaksRule(before, pages)
  {
    if !ValidOrdering(before, pages) {
      var k :| 0 <= k < |pages| && EarlierOnly(pages, k) * Get(before, pages[k]) != {};
      var x :| x in EarlierOnly(pages, k) * Get(before, pages[k]);
      var j :| 0 <= j < k && pages[..k][j] == x;
      assert pages[j] in Get(before, pages[k]);
    }
    if BreaksRule(before, pages) {
      var i, j :| 0 <= j < i < |pages| && pages[j] in Get(before, pages[i]);
      assert pages[j] == pages[..i][j];
      forall m | 0 <= m < |pages[i..]|
        ensures pages[i..][m] != pages[j]
      {
        assert pages[i..][m] == pages[i + m];
      }
      assert pages[j] in EarlierOnly(pages, i) * Get(before, pages[i]);
    }
  }

  /** A set of pages each of which must come after some other page of the
    set: no valid ordering can contain them all. */
  predicate Stuck(after: map<int, set<int>>, s: set<int>)
  {
    s != {} && forall p :: p in s ==> Get(after, p) * s != {}
  }

  /** `PageOrderingConstraints`: the rules, kept both ways round. */
  class PageOrderingConstraints {
    var mustBeBefore: map<int, set<int>>
    var mustBeAfter: map<int, set<int>>

    /** The two maps hold the same rules: `b` is in `mustBeBefore[a]`
      exactly when `a` is in `mustBeAfter[b]`. */
    ghost predicate Valid()
      reads this
    {
      forall a, b :: b in Get(mustBeBefore, a) <==> a in Get(mustBeAfter, b)
    }

    constructor ()
      ensures Valid() && mustBeBefore == map[] && mustBeAfter == map[]
    {
      mustBeBefore := map[];
      mustBeAfter := map[];
    }

    /** `addConstraint`: the rule `page|pageAfterwards` joins the rules and
      both maps stay inverse to each other. */
    method AddConstraint(page: int, pageAfterwards: int)
      requires Valid()
      modifies this
      ensures Valid()
      ensures forall a, b :: b in Get(mustBeBefore, a) <==>
        (b in Get(old(mustBeBefore), a) || (a == page && b == pageAfterwards))
    {
      mustBeBefore := mustBeBefore[page := Get(mustBeBefore, page) + {pageAfterwards}];
      mustBeAfter := mustBeAfter[pageAfterwards := Get(mustBeAfter, pageAfterwards) + {page}];
      forall a, b
        ensures b in Get(mustBeBefore, a) <==> a in Get(mustBeAfter, b)
      {
        assert b in Get(old(mustBeBefore), a) <==> a in Get(old(mustBeAfter), b);
      }
    }

    /** `isValidOrdering`, walking the update from its end. */
    method IsValidOrdering(pages: seq<int>) returns (valid: bool)
      ensures valid == ValidOrdering(mustBeBefore, pages)
    {
      var earlierPages := set x | x in pages;
      var k := |pages|;
      while k > 0
        invariant 0 <= k <= |pages|
        invariant earlierPages == set x | x in pages && x !in pages[k..]
        invariant forall m :: k <= m < |pages| ==> EarlierOnly(pages, m) * Get(mustBeBefore, pages[m]) == {}
      {
        k := k - 1;
        assert pages[k..] == [pages[k]] + pages[k + 1..];
        earlierPages := earlierPages - {pages[k]};
        assert earlierPages == EarlierOnly(pages, k) by {
          EarlierOnlyIs(pages, k);
        }
        var pagesThatMustOccurLater := Get(mustBeBefore, pages[k]);
        if earlierPages * pagesThatMustOccurLater != {} {
          return false;
        }
      }
      return true;
    }

    /** `fixOrdering`: a valid ordering of the pages, or the exception on
      repeated pages or rules that leave every remaining page waiting. */
    method FixOrdering(pages: seq<int>) returns (r: Result<seq<int>>)
      requires Valid()
      ensures r.Ok? ==> Distinct(pages) && |r.value| == |pages| && Distinct(r.value) &&
                        (set x | x in r.value) == (set x | x in pages)
      ensures r.Ok? ==> ValidOrdering(mustBeBefore, r.value)
      ensures r.Err? ==> !Distinct(pages) || exists s :: s <= (set x | x in pages) && Stuck(mustBeAfter, s)
    {
      var ordering: seq<int> := [];
      var remaining := set x | x in pages;
      while |ordering| < |pages|
        invariant |ordering| <= |pages|
        invariant Distinct(ordering) && (set x | x in ordering) !! remaining
        invariant (set x | x in ordering) + remaining == set x | x in pages
        invariant forall i, j :: 0 <= j < i < |ordering| ==> ordering[j] !in Get(mustBeBefore, ordering[i])
        invariant forall j, q :: 0 <= j < |ordering| && q in remaining ==> ordering[j] !in Get(mustBeBefore, q)
        decreases |pages| - |ordering|
      {
        var page := ChooseAllowed(remaining);
        if page.None? {
          ghost var placed := set x | x in ordering;
          if remaining == {} {
            NotDistinct(pages, ordering);
          } else {
            assert remaining <= set x | x in pages;
            assert Stuck(mustBeAfter, remaining);
          }
          return Err("Could not find a valid ordering");
        }
        var p := page.value;
        forall j | 0 <= j < |ordering|
          ensures ordering[j] !in Get(mustBeBefore, p)
        {
        }
        forall q | q in remaining - {p}
          ensures p !in Get(mustBeBefore, q)
        {
          assert q !in Get(mustBeAfter, p);
        }
        ordering := ordering + [p];
        remaining := remaining - {p};
      }
      DistinctCount(pages, ordering);
      assert remaining == {} by {
        assert remaining == (set x | x in pages) - (set x | x in ordering);
      }
      ValidFromPlacement(mustBeBefore, ordering);
      return Ok(ordering);
    }

    /** The `for (var page : remaining)` loop: some page none of whose
      required predecessors is still remaining, in the set's own order. */
    method ChooseAllowed(remaining: set<int>) returns (page: Option<int>)
      ensures page.Some? ==> page.value in remaining && Get(mustBeAfter, page.value) * remaining == {}
      ensures page.None? ==> forall p :: p in remaining ==> Get(mustBeAfter, p) * remaining != {}
    {
      var todo := remaining;
      while todo != {}
        invariant todo <= remaining
        invariant forall p :: p in remaining - todo ==> Get(mustBeAfter, p) * remaining != {}
        decreases |todo|
      {
        ghost var some := Element(todo);
        var p :| p in todo;
        var intersection := Get(mustBeAfter, p) * remaining;
        if intersection == {} {
          return Some(p);
        }
        todo := todo - {p};
      }
      return None;
    }
  }

  lemma EarlierOnlyIs(pages: seq<int>, k: nat)
    requires k < |pages|
    ensures (set x | x in pages && x !in pages[k..]) == EarlierOnly(pages, k)
  {
    forall x | x in pages && x !in pages[k..]
      ensures x in pages[..k]
    {
      var i :| 0 <= i < |pages| && pages[i] == x;
      assert i < k;
      assert pages[..k][i] == x;
    }
    assert pages == pages[..k] + pages[k..];
  }

  /** Pages placed so that no page precedes one it must follow form a valid
    ordering. */
  lemma ValidFromPlacement(before: map<int, set<int>>, ordering: seq<int>)
    requires Distinct(ordering)
    requires forall i, j :: 0 <= j < i < |ordering| ==> ordering[j] !in Get(before, ordering[i])
    ensures ValidOrdering(before, ordering)
  {
    ValidIffNoBrokenRule(before, ordering);
  }

  /** When every page is placed but the ordering is still shorter than the
    update, the update repeats a page. */
  lemma NotDistinct(pages: seq<int>, ordering: seq<int>)
    requires Distinct(ordering) && (set x | x in ordering) == (set x | x in pages) && |ordering| < |pages|
    ensures !Distinct(pages)
  {
    if Distinct(pages) {
      DistinctCard(pages);
      DistinctCard(ordering);
    }
  }

  /** A full ordering of the same pages without repeats means the update has
    none either. */
  lemma DistinctCount(pages: seq<int>, ordering: seq<int>)
    requires Distinct(ordering) && (set x | x in ordering) <= (set x | x in pages) && |ordering| >= |pages|
    ensures Distinct(pages) && |ordering| == |pages| && (set x | x in ordering) == (set x | x in pages)
  {
    DistinctCard(ordering);
    SetCardAtMost(pages);
    SubsetCard(set x | x in ordering, set x | x in pages);
    if !Distinct(pages) {
      var i, j :| 0 <= i < j < |pages| && pages[i] == pages[j];
      RepeatShrinks(pages, i, j);
    }
  }

  lemma SubsetCard(a: set<int>, b: set<int>)
    requires a <= b && |a| >= |b|
    ensures a == b
  {
    assert b == a + (b - a);
    assert |b - a| == 0;
    assert forall x :: x in b <==> x in a by {
      assert b - a == {};
    }
  }

  lemma {:induction false} DistinctCard(s: seq<int>)
    requires Distinct(s)
    ensures |set x | x in s| == |s|
  {
    if |s| > 0 {
      var n := |s| - 1;
      DistinctCard(s[..n]);
      assert (set x | x in s) == (set x | x in s[..n]) + {s[n]} by {
        assert s == s[..n] + [s[n]];
      }
      assert s[n] !in s[..n];
    } else {
      assert (set x | x in s) == {};
    }
  }

  lemma {:induction false} SetCardAtMost(s: seq<int>)
    ensures |set x | x in s| <= |s|
  {
    if |s| > 0 {
      var n := |s| - 1;
      SetCardAtMost(s[..n]);
      assert (set x | x in s) == (set x | x in s[..n]) + {s[n]} by {
        assert s == s[..n] + [s[n]];
      }
    } else {
      assert (set x | x in s) == {};
    }
  }

  lemma RepeatShrinks(s: seq<int>, i: nat, j: nat)
    requires i < j < |s| && s[i] == s[j]
    ensures |set x | x in s| < |s|
  {
    var rest := s[..j] + s[j + 1..];
    assert s == s[..j] + [s[j]] + s[j + 1..];
    assert (set x | x in s) == (set x | x in rest) by {
      assert rest[i] == s[j];
    }
    SetCardAtMost(rest);
  }

  /** A stuck set of pages rules out every valid ordering that contains it:
    an ordering is only refused when none exists. */
  lemma StuckHasNoValidOrdering(before: map<int, set<int>>, after: map<int, set<int>>, s: set<int>, ordering: seq<int>)
    requires forall a, b :: b in Get(before, a) <==> a in Get(after, b)
    requires Stuck(after, s) && s <= (set x | x in ordering) && Distinct(ordering)
    requires forall p :: p in s ==> p !in Get(after, p)
    ensures !ValidOrdering(before, ordering)
  {
    var first := FirstIn(ordering, s);
    var p := ordering[first];
    var q :| q in Get(after, p) * s;
    var i :| 0 <= i < |ordering| && ordering[i] == q;
    assert ordering[i] in s && q != p;
    assert i > first;
    assert p in Get(before, q);
    ValidIffNoBrokenRule(before, ordering);
  }

  /** The first index of `ordering` whose page is in `s`. */
  lemma FirstIn(ordering: seq<int>, s: set<int>) returns (k: nat)
    requires s != {} && s <= (set x | x in ordering)
    ensures k < |ordering| && ordering[k] in s
    ensures forall m :: 0 <= m < k ==> ordering[m] !in s
  {
    var x := Element(s);
    var i :| 0 <= i < |ordering| && ordering[i] == x;
    k := 0;
    while ordering[k] !in s
      invariant k <= i
      invariant forall m :: 0 <= m < k ==> ordering[m] !in s
      decreases i - k
    {
      k := k + 1;
    }
  }
}
