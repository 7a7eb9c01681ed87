/** The odometer over operator choices of the bridge calibration
  (java/7/src/CombinationsIterator.java): an array of indices into a list of
  elements, counted up like a number written in base |elements| whose last
  index is the least significant digit. */
module Combinations {
  import opened Wrappers

  function Pow(b: nat, k: nat): (r: nat)
    ensures b > 0 || k == 0 ==> r > 0
  {
    if k == 0 then 1 else b * Pow(b, k - 1)
  }

  /** Every index picks an element of a list of `b` elements. */
  predicate Indices(ds: seq<int>, b: nat)
  {
    forall k :: 0 <= k < |ds| ==> 0 <= ds[k] < b
  }

  /** The number the indices spell in base `b`, last index least significant. */
  function Value(ds: seq<int>, b: nat): int
  {
    if ds == [] then 0 else Value(ds[..|ds| - 1], b) * b + ds[|ds| - 1]
  }

  /** `mapCombinationToElements`: the elements the indices pick. */
  function MapToElements<T>(elements: seq<T>, ds: seq<int>): (r: seq<T>)
    requires Indices(ds, |elements|)
    ensures |r| == |ds| && forall k :: 0 <= k < |ds| ==> r[k] == elements[ds[k]]
  {
    seq(|ds|, k requires 0 <= k < |ds| => elements[ds[k]])
  }

  lemma {:induction false} ValueConcat(p: seq<int>, q: seq<int>, b: nat)
    ensures Value(p + q, b) == Value(p, b) * Pow(b, |q|) + Value(q, b)
  {
    if q == [] {
      assert p + q == p;
    } else {
      var n := |q| - 1;
      assert (p + q)[..|p + q| - 1] == p + q[..n];
      ValueConcat(p, q[..n], b);
      ShiftDigit(Value(p, b), Pow(b, n), Value(q[..n], b), b, q[n]);
      assert Pow(b, |q|) == Pow(b, n) * b;
    }
  }

  /** Indices below `b` spell a number below b^length: the combinations are
    the numbers 0 .. b^length - 1. */
  lemma {:induction false} ValueBound(ds: seq<int>, b: nat)
    requires Indices(ds, b)
    ensures 0 <= Value(ds, b) < Pow(b, |ds|)
  {
    if ds != [] {
      var n := |ds| - 1;
      var front := ds[..n];
      assert Indices(front, b);
      ValueBound(front, b);
      assert Value(ds, b) == Value(front, b) * b + ds[n];
      DigitBelow(Value(front, b), Pow(b, n), b, ds[n]);
    }
  }

  /** Different index sequences of the same length spell different numbers,
    so the combinations counted through are distinct. */
  lemma {:induction false} ValueInjective(x: seq<int>, y: seq<int>, b: nat)
    requires Indices(x, b) && Indices(y, b) && |x| == |y|
    requires Value(x, b) == Value(y, b)
    ensures x == y
  {
    if x != [] {
      var n := |x| - 1;
      ValueBound(x[..n], b);
      ValueBound(y[..n], b);
      DigitsUnique(Value(x[..n], b), x[n], Value(y[..n], b), y[n], b);
      ValueInjective(x[..n], y[..n], b);
      assert x == x[..n] + [x[n]] && y == y[..n] + [y[n]];
    }
  }

  lemma ShiftDigit(a: int, p: int, v: int, b: int, d: int)
    ensures (a * p + v) * b + d == a * (p * b) + (v * b + d)
  {
  }

  lemma DigitBelow(v: int, p: int, b: nat, d: int)
    requires 0 <= v < p && 0 <= d < b
    ensures v * b + d < p * b
  {
    assert v * b <= (p - 1) * b;
  }

  /** A number has one last digit in base `b` and one number before it. */
  lemma DigitsUnique(v: int, d: int, w: int, e: int, b: nat)
    requires 0 <= v && 0 <= w && 0 <= d < b && 0 <= e < b
    requires v * b + d == w * b + e
    ensures v == w && d == e
  {
    if v < w {
      DigitBelow(v, w, b, d);
    } else if w < v {
      DigitBelow(w, v, b, e);
    }
  }

  /** Indices that are all the last element spell b^length - 1. */
  lemma {:induction false} ValueAllLast(ds: seq<int>, b: nat)
    requires forall k :: 0 <= k < |ds| ==> ds[k] == b - 1
    ensures Value(ds, b) + 1 == Pow(b, |ds|)
  {
    if ds != [] {
      var n := |ds| - 1;
      ValueAllLast(ds[..n], b);
    }
  }

  lemma {:induction false} ValueAllZero(ds: seq<int>, b: nat)
    requires forall k :: 0 <= k < |ds| ==> ds[k] == 0
    ensures Value(ds, b) == 0
  {
    if ds != [] {
      ValueAllZero(ds[..|ds| - 1], b);
    }
  }

  /** The carry of `goToNextCombination`: the indices after position `i` were
    the last element and became 0, the index at `i` went up by one. */
  lemma Increment(before: seq<int>, after: seq<int>, i: nat, b: nat)
    requires |before| == |after| && i < |before|
    requires forall k :: 0 <= k < i ==> after[k] == before[k]
    requires after[i] == before[i] + 1
    requires forall k :: i < k < |before| ==> after[k] == 0 && before[k] == b - 1
    ensures Value(after, b) == Value(before, b) + 1
  {
    var m := |before| - (i + 1);
    assert before == before[..i + 1] + before[i + 1..];
    assert after == after[..i + 1] + after[i + 1..];
    ValueConcat(before[..i + 1], before[i + 1..], b);
    ValueConcat(after[..i + 1], after[i + 1..], b);
    ValueAllLast(before[i + 1..], b);
    ValueAllZero(after[i + 1..], b);
    assert after[..i + 1][..i] == before[..i + 1][..i];
    var v := Value(before[..i + 1], b);
    assert Value(after[..i + 1], b) == v + 1;
    assert (v + 1) * Pow(b, m) == v * Pow(b, m) + Pow(b, m);
  }

  /** The iterator over |elements|^size combinations of `size` elements. */
  class CombinationsIterator<T> {
    const elements: seq<T>
    const currentCombination: array<int>
    var hasRemainingCombinations: bool
    /** How many combinations `next` has returned. */
    ghost var yielded: nat

    /** Whether any combination can be returned: an exception is thrown on
      every `next` when there is something to pick but nothing to pick from. */
    predicate Usable()
      reads this
    {
      |elements| > 0 || currentCombination.Length == 0
    }

    /** The indices spell how many combinations have been returned, modulo
      |elements|^size, and combinations remain until all have been. */
    ghost predicate Valid()
      reads this, currentCombination
    {
      if Usable() then
        Indices(currentCombination[..], |elements|) &&
        Value(currentCombination[..], |elements|) == yielded % Pow(|elements|, currentCombination.Length) &&
        (hasRemainingCombinations <==> yielded < Pow(|elements|, currentCombination.Length))
      else
        yielded == 0 && hasRemainingCombinations &&
        forall k :: 0 <= k < currentCombination.Length ==> currentCombination[k] == 0
    }

    /** The first combination picks the first element everywhere. */
    constructor (elements: seq<T>, size: nat)
      ensures Valid() && fresh(currentCombination) && yielded == 0
      ensures this.elements == elements && currentCombination.Length == size
      ensures forall k :: 0 <= k < size ==> currentCombination[k] == 0
    {
      this.elements := elements;
      currentCombination := new int[size](_ => 0);
      hasRemainingCombinations := true;
      yielded := 0;
      new;
      assert forall k :: 0 <= k < size ==> currentCombination[..][k] == 0;
      ValueAllZero(currentCombination[..], |elements|);
    }

    /** `hasNext`: true exactly while fewer than |elements|^size combinations
      have been returned. */
    method HasNext() returns (more: bool)
      requires Valid()
      ensures more == hasRemainingCombinations
      ensures Usable() ==> (more <==> yielded < Pow(|elements|, currentCombination.Length))
    {
      return hasRemainingCombinations;
    }

    /** `next`: the elements the current indices pick, then one step on; the
      lookup into an empty element list throws. */
    method Next() returns (r: Result<seq<T>>)
      requires Valid()
      modifies this, currentCombination
      ensures Valid()
      ensures r.Err? <==> !Usable()
      ensures r.Err? ==> yielded == old(yielded) && unchanged(currentCombination)
      ensures r.Ok? ==> yielded == old(yielded) + 1 && Indices(old(currentCombination[..]), |elements|) &&
                        r.value == MapToElements(elements, old(currentCombination[..]))
    {
      if !Usable() {
        return Err("Index 0 out of bounds for length 0");
      }
      var result := MapToElements(elements, currentCombination[..]);
      ghost var before := currentCombination[..];
      GoToNextCombination();
      yielded := yielded + 1;
      CountStep(old(yielded), Pow(|elements|, currentCombination.Length));
      r := Ok(result);
    }

    /** `goToNextCombination`: add one to the number the indices spell,
      wrapping to all first elements after the last combination. */
    method GoToNextCombination()
      requires Usable() && Indices(currentCombination[..], |elements|)
      modifies this, currentCombination
      ensures Indices(currentCombination[..], |elements|) && yielded == old(yielded)
      ensures Value(currentCombination[..], |elements|) ==
        (Value(old(currentCombination[..]), |elements|) + 1) % Pow(|elements|, currentCombination.Length)
      ensures hasRemainingCombinations <==>
        old(hasRemainingCombinations) && Value(old(currentCombination[..]), |elements|) + 1 < Pow(|elements|, currentCombination.Length)
    {
      ghost var before := currentCombination[..];
      var b := |elements|;
      var i := currentCombination.Length - 1;
      var hasResetted := true;
      while hasResetted && i >= 0
        invariant -1 <= i < currentCombination.Length
        invariant forall k :: 0 <= k < i ==> currentCombination[k] == before[k]
        invariant 0 <= i && hasResetted ==> currentCombination[i] == before[i]
        invariant !hasResetted ==> 0 <= i && currentCombination[i] == before[i] + 1 < b
        invariant forall k :: i < k < currentCombination.Length ==> currentCombination[k] == 0 && before[k] == b - 1
        modifies currentCombination
        decreases if hasResetted then i + 2 else 0
      {
        SuccMod(currentCombination[i], b);
        currentCombination[i] := (currentCombination[i] + 1) % b;
        if currentCombination[i] == 0 {
          i := i - 1;
        } else {
          hasResetted := false;
        }
      }
      if i < 0 {
        hasRemainingCombinations := false;
      }
      IncrementOrWrap(before, currentCombination[..], i, b);
    }
  }

  lemma SuccMod(x: int, b: nat)
    requires 0 <= x < b
    ensures (x + 1) % b == if x + 1 == b then 0 else x + 1
  {
  }

  /** The indices after `goToNextCombination`'s loop spell one more, or wrap
    to all zeros exactly after the last combination. */
  lemma IncrementOrWrap(before: seq<int>, after: seq<int>, i: int, b: nat)
    requires |before| == |after| && -1 <= i < |before| && Indices(before, b)
    requires b > 0 || |before| == 0
    requires forall k :: 0 <= k < i ==> after[k] == before[k]
    requires 0 <= i ==> after[i] == before[i] + 1 < b
    requires forall k :: i < k < |before| ==> after[k] == 0 && before[k] == b - 1
    ensures Indices(after, b)
    ensures Value(after, b) == (Value(before, b) + 1) % Pow(b, |before|)
    ensures i >= 0 <==> Value(before, b) + 1 < Pow(b, |before|)
  {
    var p := Pow(b, |before|);
    if i < 0 {
      ValueAllLast(before, b);
      ValueAllZero(after, b);
      ModOf(1, 0, p);
    } else {
      Increment(before, after, i, b);
      ValueBound(after, b);
      ModOf(0, Value(after, b), p);
    }
  }

  lemma ModOf(q: nat, r: nat, p: nat)
    requires r < p
    ensures (q * p + r) % p == r
  {
    var m := q * p + r;
    DigitsUnique(q, r, m / p, m % p, p);
  }

  /** One more combination returned: the count modulo the number of
    combinations moves like the indices do. */
  lemma CountStep(n: nat, p: nat)
    requires p > 0
    ensures (n % p + 1) % p == (n + 1) % p
    ensures n < p ==> n % p == n
  {
    ModSucc(n, p);
    if n < p {
      ModOf(0, n, p);
    }
  }

  lemma ModSucc(n: nat, p: nat)
    requires p > 0
    ensures (n % p + 1) % p == (n + 1) % p
  {
    var q, r := n / p, n % p;
    assert n == q * p + r;
    var m := n + 1;
    assert m == (m / p) * p + m % p;
    if r + 1 < p {
      DigitsUnique(q, r + 1, m / p, m % p, p);
    } else {
      assert m == (q + 1) * p + 0;
      DigitsUnique(q + 1, 0, m / p, m % p, p);
    }
  }
}
