/** Towel arrangements (rust/19/src/main.rs): whether a design can be laid out
  as a concatenation of towel patterns, and in how many ways. */
module Towels {
  /** The design is empty or some towel is a prefix of it and the rest is
    composable again. */
  predicate Composable(towels: seq<string>, design: string)
    decreases |design|
  {
    |design| == 0 ||
    exists i :: 1 <= i <= |design| && design[..i] in towels && Composable(towels, design[i..])
  }

  /** Composable designs are closed under concatenation. */
  lemma {:induction false} ComposableConcat(towels: seq<string>, a: string, b: string)
    requires Composable(towels, a) && Composable(towels, b)
    ensures Composable(towels, a + b)
    decreases |a|
  {
    if |a| > 0 {
      var i :| 1 <= i <= |a| && a[..i] in towels && Composable(towels, a[i..]);
      ComposableConcat(towels, a[i..], b);
      assert (a + b)[..i] == a[..i];
      assert (a + b)[i..] == a[i..] + b;
      assert (a + b)[..i] in towels && Composable(towels, (a + b)[i..]);
    } else {
      assert a + b == b;
    }
  }

  /** Every towel is composable by itself. */
  lemma TowelComposable(towels: seq<string>, t: string)
    requires t in towels
    ensures Composable(towels, t)
  {
    if |t| > 0 {
      assert t[..|t|] == t;
      assert Composable(towels, t[|t|..]);
    }
  }

  /** The memo of `is_composable_rec` is truthful and keeps every towel. */
  predicate KnownOk(towels: seq<string>, known: map<string, bool>)
  {
    (forall t :: t in towels ==> t in known && known[t]) &&
    (forall x :: x in known ==> known[x] == Composable(towels, x))
  }

  /** `is_composable_rec`: the memo is consulted first; then each split into a
    known-composable left part and a composable right part is tried, and the
    answer is recorded. */
  method IsComposableRec(ghost towels: seq<string>, known: map<string, bool>, design: string)
    returns (result: bool, known': map<string, bool>)
    requires KnownOk(towels, known)
    ensures result == Composable(towels, design)
    ensures KnownOk(towels, known') && known.Keys <= known'.Keys
    ensures forall x :: x in known' && x !in known ==> |x| <= |design|
    decreases |design|
  {
    if |design| == 0 {
      return true, known;
    }
    if design in known {
      return known[design], known;
    }
    known' := known;
    var i := 1;
    while i < |design| + 1
      invariant 1 <= i <= |design| + 1
      invariant KnownOk(towels, known') && known.Keys <= known'.Keys
      invariant forall x :: x in known' && x !in known ==> |x| < |design|
      invariant forall j :: 1 <= j < i ==> !(design[..j] in towels && Composable(towels, design[j..]))
    {
      var left := design[..i];
      var right := design[i..];
      var leftIsComposable := left in known' && known'[left];
      if leftIsComposable {
        var rightIsComposable;
        rightIsComposable, known' := IsComposableRec(towels, known', right);
        if rightIsComposable {
          ComposableConcat(towels, left, right);
          assert left + right == design;
          Record(towels, known', design, true);
          return true, known'[design := true];
        }
      }
      assert left in towels ==> leftIsComposable;
      i := i + 1;
    }
    NoSplit(towels, design);
    Record(towels, known', design, false);
    return false, known'[design := false];
  }

  /** Recording a truthful answer keeps the memo truthful. */
  lemma Record(towels: seq<string>, known: map<string, bool>, design: string, b: bool)
    requires KnownOk(towels, known) && b == Composable(towels, design)
    ensures KnownOk(towels, known[design := b])
  {
  }

  /** A nonempty design no towel split works for is not composable. */
  lemma NoSplit(towels: seq<string>, design: string)
    requires |design| > 0
    requires forall j :: 1 <= j < |design| + 1 ==> !(design[..j] in towels && Composable(towels, design[j..]))
    ensures !Composable(towels, design)
  {
  }

  /** `is_composable`: the memo starts out with every towel marked true. */
  method IsComposable(towels: seq<string>, design: string) returns (result: bool)
    ensures result == Composable(towels, design)
  {
    var known := map t | t in towels :: true;
    forall t | t in towels
      ensures known[t] == Composable(towels, t)
    {
      TowelComposable(towels, t);
    }
    result, known := IsComposableRec(towels, known, design);
  }

  predicate NoEmptyTowel(towels: seq<string>)
  {
    forall k :: 0 <= k < |towels| ==> |towels[k]| > 0
  }

  predicate StartsWith(design: string, towel: string)
  {
    |towel| <= |design| && design[..|towel|] == towel
  }

  /** The number of arrangements: 1 for the empty design, otherwise the sum,
    over the towel list, of the arrangements of what each matching towel
    leaves. An empty towel would make this recursion (like the source's)
    never end. */
  function Count(towels: seq<string>, design: string): nat
    requires NoEmptyTowel(towels)
    decreases |design|, |towels| + 1
  {
    if |design| == 0 then 1 else CountUpTo(towels, design, |towels|)
  }

  /** The part of the sum contributed by the first `k` towels. */
  function CountUpTo(towels: seq<string>, design: string, k: nat): nat
    requires NoEmptyTowel(towels) && k <= |towels|
    decreases |design|, k
  {
    if k == 0 then 0
    else
      var t := towels[k - 1];
      CountUpTo(towels, design, k - 1) +
      (if StartsWith(design, t) then Count(towels, design[|t|..]) else 0)
  }

  /** The towels named by a sequence of indices, laid end to end. */
  function Concat(towels: seq<string>, w: seq<nat>): string
    requires forall i :: 0 <= i < |w| ==> w[i] < |towels|
  {
    if |w| == 0 then [] else towels[w[0]] + Concat(towels, w[1..])
  }

  predicate Indices(towels: seq<string>, w: seq<nat>)
  {
    forall i :: 0 <= i < |w| ==> w[i] < |towels|
  }

  function Prepend(k: nat, ws: seq<seq<nat>>): (r: seq<seq<nat>>)
    ensures |r| == |ws|
  {
    seq(|ws|, i requires 0 <= i < |ws| => [k] + ws[i])
  }

  /** Every arrangement of the design, as a list of towel-index sequences. */
  function Decompositions(towels: seq<string>, design: string): seq<seq<nat>>
    requires NoEmptyTowel(towels)
    decreases |design|, |towels| + 1
  {
    if |design| == 0 then [[]] else DecompositionsUpTo(towels, design, |towels|)
  }

  function DecompositionsUpTo(towels: seq<string>, design: string, k: nat): seq<seq<nat>>
    requires NoEmptyTowel(towels) && k <= |towels|
    decreases |design|, k
  {
    if k == 0 then []
    else
      var t := towels[k - 1];
      DecompositionsUpTo(towels, design, k - 1) +
      (if StartsWith(design, t) then Prepend(k - 1, Decompositions(towels, design[|t|..])) else [])
  }

  /** The count is the length of the list of arrangements. */
  lemma {:induction false} CountIsDecompositions(towels: seq<string>, design: string)
    requires NoEmptyTowel(towels)
    ensures Count(towels, design) == |Decompositions(towels, design)|
    decreases |design|, |towels| + 1
  {
    if |design| > 0 {
      CountUpToIsDecompositions(towels, design, |towels|);
    }
  }

  lemma {:induction false} CountUpToIsDecompositions(towels: seq<string>, design: string, k: nat)
    requires NoEmptyTowel(towels) && k <= |towels|
    ensures CountUpTo(towels, design, k) == |DecompositionsUpTo(towels, design, k)|
    decreases |design|, k
  {
    if k > 0 {
      CountUpToIsDecompositions(towels, design, k - 1);
      var t := towels[k - 1];
      if StartsWith(design, t) {
        CountIsDecompositions(towels, design[|t|..]);
      }
    }
  }

  /** Every listed arrangement uses real towels and spells the design. */
  lemma {:induction false} DecompositionsSound(towels: seq<string>, design: string, w: seq<nat>)
    requires NoEmptyTowel(towels) && w in Decompositions(towels, design)
    ensures Indices(towels, w) && Concat(towels, w) == design
    decreases |design|, |towels| + 1
  {
    if |design| > 0 {
      DecompositionsUpToSound(towels, design, |towels|, w);
    }
  }

  lemma {:induction false} DecompositionsUpToSound(towels: seq<string>, design: string, k: nat, w: seq<nat>)
    requires NoEmptyTowel(towels) && k <= |towels| && w in DecompositionsUpTo(towels, design, k)
    ensures Indices(towels, w) && Concat(towels, w) == design
    ensures |w| > 0 && w[0] < k
    decreases |design|, k
  {
    var t := towels[k - 1];
    if w in DecompositionsUpTo(towels, design, k - 1) {
      DecompositionsUpToSound(towels, design, k - 1, w);
    } else {
      assert StartsWith(design, t);
      var ws := Decompositions(towels, design[|t|..]);
      var i :| 0 <= i < |ws| && w == Prepend(k - 1, ws)[i];
      DecompositionsSound(towels, design[|t|..], ws[i]);
      assert w == [k - 1] + ws[i];
      assert w[1..] == ws[i];
      assert design == t + design[|t|..];
    }
  }

  /** Every arrangement is listed. */
  lemma {:induction false} DecompositionsComplete(towels: seq<string>, design: string, w: seq<nat>)
    requires NoEmptyTowel(towels) && Indices(towels, w) && Concat(towels, w) == design
    ensures w in Decompositions(towels, design)
    decreases |design|, |towels| + 1
  {
    if |w| == 0 {
      assert design == [];
    } else {
      var k := w[0];
      var t := towels[k];
      var rest := Concat(towels, w[1..]);
      assert design == t + rest;
      assert design[..|t|] == t && design[|t|..] == rest;
      DecompositionsComplete(towels, rest, w[1..]);
      var ws := Decompositions(towels, rest);
      var i :| 0 <= i < |ws| && ws[i] == w[1..];
      assert Prepend(k, ws)[i] == w;
      assert w in DecompositionsUpTo(towels, design, k + 1);
      UpToGrows(towels, design, k + 1, |towels|, w);
    }
  }

  lemma {:induction false} UpToGrows(towels: seq<string>, design: string, k: nat, n: nat, w: seq<nat>)
    requires NoEmptyTowel(towels) && k <= n <= |towels| && w in DecompositionsUpTo(towels, design, k)
    ensures w in DecompositionsUpTo(towels, design, n)
    decreases n
  {
    if n > k {
      UpToGrows(towels, design, k, n - 1, w);
    }
  }

  predicate Distinct(ws: seq<seq<nat>>)
  {
    forall i, j :: 0 <= i < j < |ws| ==> ws[i] != ws[j]
  }

  /** No arrangement is listed twice, so the count counts arrangements. */
  lemma {:induction false} DecompositionsDistinct(towels: seq<string>, design: string)
    requires NoEmptyTowel(towels)
    ensures Distinct(Decompositions(towels, design))
    decreases |design|, |towels| + 1
  {
    if |design| > 0 {
      DecompositionsUpToDistinct(towels, design, |towels|);
    }
  }

  lemma {:induction false} DecompositionsUpToDistinct(towels: seq<string>, design: string, k: nat)
    requires NoEmptyTowel(towels) && k <= |towels|
    ensures Distinct(DecompositionsUpTo(towels, design, k))
    decreases |design|, k
  {
    if k > 0 {
      var t := towels[k - 1];
      DecompositionsUpToDistinct(towels, design, k - 1);
      if StartsWith(design, t) {
        var old_ := DecompositionsUpTo(towels, design, k - 1);
        var ws := Decompositions(towels, design[|t|..]);
        DecompositionsDistinct(towels, design[|t|..]);
        var added := Prepend(k - 1, ws);
        forall i, j | 0 <= i < j < |added|
          ensures added[i] != added[j]
        {
          assert added[i][1..] == ws[i] && added[j][1..] == ws[j];
        }
        forall i, j | 0 <= i < |old_| && 0 <= j < |added|
          ensures old_[i] != added[j]
        {
          DecompositionsUpToSound(towels, design, k - 1, old_[i]);
          assert added[j][0] == k - 1;
        }
        assert DecompositionsUpTo(towels, design, k) == old_ + added;
      }
    }
  }

  /** Without empty towels, a design is composable iff it has an arrangement. */
  lemma {:induction false} ComposableIffCount(towels: seq<string>, design: string)
    requires NoEmptyTowel(towels)
    ensures Composable(towels, design) <==> Count(towels, design) > 0
    decreases |design|, |towels| + 1
  {
    if |design| > 0 {
      if Composable(towels, design) {
        var i :| 1 <= i <= |design| && design[..i] in towels && Composable(towels, design[i..]);
        var k :| 0 <= k < |towels| && towels[k] == design[..i];
        ComposableIffCount(towels, design[i..]);
        CountUpToPositive(towels, design, k, |towels|);
      } else {
        CountUpToZero(towels, design, |towels|);
      }
    }
  }

  lemma {:induction false} CountUpToPositive(towels: seq<string>, design: string, k: nat, n: nat)
    requires NoEmptyTowel(towels) && k < n <= |towels| && |design| > 0
    requires StartsWith(design, towels[k]) && Count(towels, design[|towels[k]|..]) > 0
    ensures CountUpTo(towels, design, n) > 0
    decreases n
  {
    if n > k + 1 {
      CountUpToPositive(towels, design, k, n - 1);
    }
  }

  lemma {:induction false} CountUpToZero(towels: seq<string>, design: string, n: nat)
    requires NoEmptyTowel(towels) && n <= |towels| && |design| > 0
    requires !Composable(towels, design)
    ensures CountUpTo(towels, design, n) == 0
    decreases |design|, n
  {
    if n > 0 {
      CountUpToZero(towels, design, n - 1);
      var t := towels[n - 1];
      if StartsWith(design, t) {
        var i := |t|;
        assert design[..i] in towels;
        assert !Composable(towels, design[i..]);
        ComposableIffCount(towels, design[i..]);
      }
    }
  }

  /** The cache of `count_composability_rec` is truthful. */
  predicate CacheOk(towels: seq<string>, cache: map<string, nat>)
    requires NoEmptyTowel(towels)
  {
    forall x :: x in cache ==> cache[x] == Count(towels, x)
  }

  /** `count_composability_rec`: consult the cache, otherwise add up the
    arrangements left by every towel the design starts with, and record the
    sum. */
  method CountComposabilityRec(towels: seq<string>, cache: map<string, nat>, design: string)
    returns (solutions: nat, cache': map<string, nat>)
    requires NoEmptyTowel(towels) && CacheOk(towels, cache)
    ensures solutions == Count(towels, design)
    ensures CacheOk(towels, cache')
    decreases |design|
  {
    if |design| == 0 {
      return 1, cache;
    }
    if design in cache {
      return cache[design], cache;
    }
    solutions := 0;
    cache' := cache;
    for k := 0 to |towels|
      invariant CacheOk(towels, cache')
      invariant solutions == CountUpTo(towels, design, k)
    {
      var towel := towels[k];
      if StartsWith(design, towel) {
        var n;
        n, cache' := CountComposabilityRec(towels, cache', design[|towel|..]);
        solutions := solutions + n;
      }
    }
    cache' := cache'[design := solutions];
  }

  function SumCounts(towels: seq<string>, designs: seq<string>): nat
    requires NoEmptyTowel(towels)
  {
    if |designs| == 0 then 0
    else SumCounts(towels, designs[..|designs| - 1]) + Count(towels, designs[|designs| - 1])
  }

  /** `count_composability`: one cache shared by all designs; the total is the
    sum of their arrangement counts. */
  method CountComposability(towels: seq<string>, designs: seq<string>) returns (total: nat)
    requires NoEmptyTowel(towels)
    ensures total == SumCounts(towels, designs)
  {
    var cache: map<string, nat> := map[];
    total := 0;
    for i := 0 to |designs|
      invariant CacheOk(towels, cache)
      invariant total == SumCounts(towels, designs[..i])
    {
      var n;
      n, cache := CountComposabilityRec(towels, cache, designs[i]);
      assert designs[..i + 1][..i] == designs[..i];
      total := total + n;
    }
    assert designs[..|designs|] == designs;
  }

  /** The composability test: abcdef and def can be laid with abc and def,
    abcd and bbb cannot. */
  lemma ComposableExamples()
    ensures Composable(["abc", "def"], "abcdef")
    ensures !Composable(["abc", "def"], "abcd")
    ensures Composable(["abc", "def"], "def")
    ensures !Composable(["abc", "def"], "bbb")
  {
    var towels := ["abc", "def"];
    assert "def"[..3] == "def" && "def"[3..] == [];
    assert Composable(towels, "def");
    assert "abcdef"[..3] == "abc" && "abcdef"[3..] == "def";
    assert "d"[..1] == "d";
    assert !Composable(towels, "d");
    forall i | 1 <= i <= 4
      ensures !("abcd"[..i] in towels && Composable(towels, "abcd"[i..]))
    {
      if i == 3 {
        assert "abcd"[3..] == "d";
      } else {
        assert |"abcd"[..i]| != 3;
      }
    }
    forall i | 1 <= i <= 3
      ensures "bbb"[..i] !in towels
    {
      if i == 3 {
        assert "bbb"[..3] == "bbb";
      } else {
        assert |"bbb"[..i]| != 3;
      }
    }
  }

  /** A single matching towel gives one arrangement. */
  lemma CountSingleExample()
    ensures Count(["abc"], "abc") == 1
  {
    assert StartsWith("abc", "abc") && "abc"[3..] == [];
    assert CountUpTo(["abc"], "abc", 1) == 1;
  }

  lemma TwoWaysTail()
    ensures Count(["ab", "c", "cd", "ef", "def"], "ef") == 1
    ensures Count(["ab", "c", "cd", "ef", "def"], "def") == 1
  {
    var towels := ["ab", "c", "cd", "ef", "def"];
    assert "ef"[..2] == "ef" && "ef"[..1] == "e" && "ef"[2..] == [];
    assert CountUpTo(towels, "ef", 3) == 0;
    assert CountUpTo(towels, "ef", 5) == 1;
    assert "def"[..3] == "def" && "def"[..2] == "de" && "def"[..1] == "d" && "def"[3..] == [];
    assert CountUpTo(towels, "def", 4) == 0;
    assert CountUpTo(towels, "def", 5) == 1;
  }

  /** cdef, the tail of abcdef after ab, can be laid two ways. */
  lemma TwoWaysMiddle()
    ensures Count(["ab", "c", "cd", "ef", "def"], "cdef") == 2
  {
    var towels := ["ab", "c", "cd", "ef", "def"];
    TwoWaysTail();
    assert "cdef"[..1] == "c" && "cdef"[..2] == "cd" && "cdef"[..3] == "cde";
    assert "cdef"[1..] == "def" && "cdef"[2..] == "ef";
    assert CountUpTo(towels, "cdef", 2) == 1;
    assert CountUpTo(towels, "cdef", 3) == 2;
    assert CountUpTo(towels, "cdef", 5) == 2;
  }

  /** abcdef can be laid two ways with [ab, c, cd, ef, def]: ab c def and
    ab cd ef. */
  lemma CountTwoWaysExample()
    ensures Count(["ab", "c", "cd", "ef", "def"], "abcdef") == 2
  {
    var towels := ["ab", "c", "cd", "ef", "def"];
    TwoWaysMiddle();
    assert "abcdef"[..1] == "a" && "abcdef"[..2] == "ab" && "abcdef"[..3] == "abc";
    assert "abcdef"[2..] == "cdef";
    assert CountUpTo(towels, "abcdef", 1) == 2;
    assert CountUpTo(towels, "abcdef", 3) == 2;
    assert CountUpTo(towels, "abcdef", 5) == 2;
  }

  /** The tails c and bc of abc with the overlapping towels. */
  lemma OverlapTails()
    ensures Count(["abc", "ab", "bc", "a", "b", "c"], "c") == 1
    ensures Count(["abc", "ab", "bc", "a", "b", "c"], "bc") == 2
  {
    var towels := ["abc", "ab", "bc", "a", "b", "c"];
    assert "c"[..1] == "c" && "c"[1..] == [];
    assert CountUpTo(towels, "c", 3) == 0;
    assert CountUpTo(towels, "c", 6) == 1;
    assert "bc"[..1] == "b" && "bc"[..2] == "bc" && "bc"[1..] == "c" && "bc"[2..] == [];
    assert CountUpTo(towels, "bc", 3) == 1;
    assert CountUpTo(towels, "bc", 5) == 2;
    assert CountUpTo(towels, "bc", 6) == 2;
  }

  /** Overlapping towels: abc can be laid four ways with [abc, ab, bc, a, b, c]. */
  lemma CountOverlapExample()
    ensures Count(["abc", "ab", "bc", "a", "b", "c"], "abc") == 4
  {
    var towels := ["abc", "ab", "bc", "a", "b", "c"];
    OverlapTails();
    assert "abc"[..1] == "a" && "abc"[..2] == "ab" && "abc"[..3] == "abc";
    assert "abc"[1..] == "bc" && "abc"[2..] == "c" && "abc"[3..] == [];
    assert CountUpTo(towels, "abc", 1) == 1;
    assert CountUpTo(towels, "abc", 2) == 2;
    assert CountUpTo(towels, "abc", 4) == 4;
    assert CountUpTo(towels, "abc", 6) == 4;
  }
}
