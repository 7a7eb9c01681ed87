/** The antenna pair iterator (java/8/src/ListCombinationsIterator.java):
  every two positions of a list, the earlier one first, in lexicographic
  order of their indices. */
module PairCombinations {
  import opened Wrappers

  /** `Combination`: the two elements of one pair. */
  datatype Combination<T> = Combination(first: T, second: T)

  /** The pairs (a, j), (a, j + 1), ..., (a, n - 1). */
  function RowFrom(a: int, j: int, n: int): seq<(int, int)>
    decreases n - j
  {
    if j >= n then [] else [(a, j)] + RowFrom(a, j + 1, n)
  }

  /** The index pairs i < j below n whose first index is at least a, in
    lexicographic order. */
  function PairsFrom(a: int, n: int): seq<(int, int)>
    decreases n - a
  {
    if a >= n then [] else RowFrom(a, a + 1, n) + PairsFrom(a + 1, n)
  }

  /** Every pair of indices of a list of `n` elements, in the order the
    iterator returns them. */
  function Pairs(n: nat): seq<(int, int)>
  {
    PairsFrom(0, n)
  }

  predicate LexLess(p: (int, int), q: (int, int))
  {
    p.0 < q.0 || (p.0 == q.0 && p.1 < q.1)
  }

  predicate StrictlySorted(s: seq<(int, int)>)
  {
    forall k, l :: 0 <= k < l < |s| ==> LexLess(s[k], s[l])
  }

  lemma {:induction false} RowFromMembers(a: int, j: int, n: int, p: (int, int))
    ensures p in RowFrom(a, j, n) <==> p.0 == a && j <= p.1 < n
    decreases n - j
  {
    if j < n {
      RowFromMembers(a, j + 1, n, p);
    }
  }

  lemma {:induction false} PairsFromMembers(a: int, n: int, p: (int, int))
    ensures p in PairsFrom(a, n) <==> a <= p.0 < p.1 < n
    decreases n - a
  {
    if a < n {
      RowFromMembers(a, a + 1, n, p);
      PairsFromMembers(a + 1, n, p);
    }
  }

  /** The iterator returns exactly the index pairs i < j of the list. */
  lemma PairsMembers(n: nat, p: (int, int))
    ensures p in Pairs(n) <==> 0 <= p.0 < p.1 < n
  {
    PairsFromMembers(0, n, p);
  }

  lemma {:induction false} RowFromLength(a: int, j: int, n: int)
    ensures |RowFrom(a, j, n)| == if j >= n then 0 else n - j
    decreases n - j
  {
    if j < n {
      RowFromLength(a, j + 1, n);
    }
  }

  lemma {:induction false} PairsFromLength(a: int, n: int)
    requires a <= n
    ensures 2 * |PairsFrom(a, n)| == (n - a) * (n - a - 1)
    decreases n - a
  {
    if a < n {
      RowFromLength(a, a + 1, n);
      PairsFromLength(a + 1, n);
      assert (n - a) * (n - a - 1) == 2 * (n - a - 1) + (n - a - 1) * (n - a - 2);
    }
  }

  /** n(n-1)/2 pairs in all, so none for fewer than two elements. */
  lemma PairsCount(n: nat)
    ensures 2 * |Pairs(n)| == n * (n - 1)
    ensures n < 2 ==> Pairs(n) == []
  {
    PairsFromLength(0, n);
  }

  lemma {:induction false} RowFromSorted(a: int, j: int, n: int)
    ensures StrictlySorted(RowFrom(a, j, n))
    ensures forall k :: 0 <= k < |RowFrom(a, j, n)| ==> RowFrom(a, j, n)[k].0 == a && j <= RowFrom(a, j, n)[k].1
    decreases n - j
  {
    if j < n {
      RowFromSorted(a, j + 1, n);
    }
  }

  lemma {:induction false} PairsFromSorted(a: int, n: int)
    ensures StrictlySorted(PairsFrom(a, n))
    ensures forall k :: 0 <= k < |PairsFrom(a, n)| ==> a <= PairsFrom(a, n)[k].0
    decreases n - a
  {
    if a < n {
      var row, rest := RowFrom(a, a + 1, n), PairsFrom(a + 1, n);
      RowFromSorted(a, a + 1, n);
      PairsFromSorted(a + 1, n);
      forall k, l | 0 <= k < l < |row + rest|
        ensures LexLess((row + rest)[k], (row + rest)[l])
      {
        if l < |row| {
          assert (row + rest)[k] == row[k] && (row + rest)[l] == row[l];
        } else if k >= |row| {
          assert (row + rest)[k] == rest[k - |row|] && (row + rest)[l] == rest[l - |row|];
        } else {
          assert (row + rest)[k] == row[k] && (row + rest)[l] == rest[l - |row|];
        }
      }
    }
  }

  /** The pairs come in strictly increasing lexicographic order, so none is
    returned twice. */
  lemma PairsSorted(n: nat)
    ensures StrictlySorted(Pairs(n))
  {
    PairsFromSorted(0, n);
  }

  /** The current pair and every later one. */
  function Remaining(i: int, j: int, n: int): seq<(int, int)>
  {
    RowFrom(i, j, n) + PairsFrom(i + 1, n)
  }

  /** `ListCombinationsIterator` over the pairs of `list`. */
  class ListCombinationsIterator<T> {
    const list: seq<T>
    const size: int
    var i: int
    var j: int
    /** The index pairs `next` has returned. */
    ghost var returned: seq<(int, int)>

    /** The first index stays below the second, and the pairs already
      returned followed by the remaining ones are all pairs in order. */
    ghost predicate Valid()
      reads this
    {
      size == |list| && 0 <= i < j &&
      (j < size || (j == i + 1 && size <= j)) &&
      returned + Remaining(i, j, size) == Pairs(size)
    }

    constructor (list: seq<T>)
      ensures Valid() && this.list == list && returned == []
    {
      this.list := list;
      size := |list|;
      i, j := 0, 1;
      returned := [];
      new;
      if size > 0 {
        assert Remaining(i, j, size) == PairsFrom(0, size);
      }
    }

    /** `hasNext`: true exactly while some pair is left to return. */
    method HasNext() returns (more: bool)
      requires Valid()
      ensures more <==> Remaining(i, j, size) != []
      ensures !more ==> returned == Pairs(size)
    {
      more := i < size && j < size;
      if !more {
        assert RowFrom(i, j, size) == [];
        assert PairsFrom(i + 1, size) == [];
      }
    }

    /** `next`: the current pair, then one step on; past the last pair the
      list lookup throws. */
    method Next() returns (r: Result<Combination<T>>)
      requires Valid()
      modifies this
      ensures Valid()
      ensures r.Err? <==> old(Remaining(i, j, size)) == []
      ensures r.Err? ==> returned == old(returned) && i == old(i) && j == old(j)
      ensures r.Ok? ==> old(Remaining(i, j, size)) == [(old(i), old(j))] + Remaining(i, j, size)
      ensures r.Ok? ==> returned == old(returned) + [(old(i), old(j))] &&
                        r.value == Combination(list[old(i)], list[old(j)])
    {
      if !(i < size && j < size) {
        ghost var more := HasNext();
        return Err("Index out of bounds");
      }
      var value := Combination(list[i], list[j]);
      ghost var rest := Remaining(i, j + 1, size);
      assert Remaining(i, j, size) == [(i, j)] + rest;
      returned := returned + [(i, j)];
      UpdateIndices();
      assert Remaining(i, j, size) == rest by {
        if j != old(j) + 1 {
          assert RowFrom(old(i), old(j) + 1, size) == [];
        }
      }
      assert returned + Remaining(i, j, size) == old(returned) + ([(old(i), old(j))] + rest);
      r := Ok(value);
    }

    /** `updateIndices`: the next second index, or the next row. */
    method UpdateIndices()
      requires 0 <= i < j < size
      modifies this
      ensures returned == old(returned)
      ensures 0 <= i < j
      ensures old(j) + 1 < size ==> i == old(i) && j == old(j) + 1
      ensures old(j) + 1 == size ==> i == old(i) + 1 && j == i + 1
    {
      j := j + 1;
      if j == size {
        i := i + 1;
        j := i + 1;
      }
    }
  }
}
