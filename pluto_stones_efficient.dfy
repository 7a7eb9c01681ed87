/** The cached stone count (java/11/src/PlutoStonesEfficient.java): how many
  stones one stone becomes after a number of blinks, computed rule by rule
  with a cache keyed by stone and blinks left, and the sum over a row of
  stones (java/11/src/Main.java). */
module StoneCounting {
  import opened PlutoStones

  /** What `countStonesAfterNIterations` computes: one stone when no blink is
    left, otherwise the counts of what the rules make of the stone, one blink
    fewer. */
  function Count(stone: nat, iterations: nat): nat
    decreases iterations
  {
    if iterations == 0 then 1
    else if stone == 0 then Count(1, iterations - 1)
    else if |ToDecimal(stone)| % 2 == 0 then
      var halves := SplitDigits(stone);
      Count(halves[0], iterations - 1) + Count(halves[1], iterations - 1)
    else Count(stone * 2024, iterations - 1)
  }

  /** The counts of a row of stones, added up. */
  function Total(stones: seq<nat>, iterations: nat): nat
  {
    if stones == [] then 0 else Total(stones[..|stones| - 1], iterations) + Count(stones[|stones| - 1], iterations)
  }

  lemma TotalSnoc(stones: seq<nat>, x: nat, iterations: nat)
    ensures Total(stones + [x], iterations) == Total(stones, iterations) + Count(x, iterations)
  {
    assert (stones + [x])[..|stones|] == stones;
  }

  lemma {:induction false} TotalAppend(a: seq<nat>, b: seq<nat>, iterations: nat)
    ensures Total(a + b, iterations) == Total(a, iterations) + Total(b, iterations)
  {
    if b == [] {
      assert a + b == a;
    } else {
      var b', x := b[..|b| - 1], b[|b| - 1];
      assert b == b' + [x];
      assert a + b == (a + b') + [x];
      TotalAppend(a, b', iterations);
      TotalSnoc(a + b', x, iterations);
      TotalSnoc(b', x, iterations);
    }
  }

  /** With no blink left every stone counts one. */
  lemma {:induction false} TotalNoBlinks(stones: seq<nat>)
    ensures Total(stones, 0) == |stones|
  {
    if stones != [] {
      TotalNoBlinks(stones[..|stones| - 1]);
    }
  }

  /** A stone's count is the count of what one blink makes of it. */
  lemma CountRewrite(stone: nat, iterations: nat)
    requires iterations >= 1
    ensures Count(stone, iterations) == Total(Rewrite(stone), iterations - 1)
  {
    var m := iterations - 1;
    if stone == 0 {
      TotalOne(1, m);
    } else if CanSplitDigits(stone) {
      var halves := SplitDigits(stone);
      TotalTwo(halves[0], halves[1], m);
    } else {
      TotalOne(stone * 2024, m);
    }
  }

  lemma TotalOne(y: nat, iterations: nat)
    ensures Total([y], iterations) == Count(y, iterations)
  {
    assert [y][..0] == [];
  }

  lemma TotalTwo(y: nat, z: nat, iterations: nat)
    ensures Total([y, z], iterations) == Count(y, iterations) + Count(z, iterations)
  {
    assert [y, z][..1] == [y];
    TotalOne(y, iterations);
  }

  /** Counting a row after its first blink is counting the blinked row. */
  lemma {:induction false} TotalBlink(stones: seq<nat>, iterations: nat)
    requires iterations >= 1
    ensures Total(stones, iterations) == Total(Blink(stones), iterations - 1)
  {
    if stones != [] {
      var a, x := stones[..|stones| - 1], stones[|stones| - 1];
      assert Blink(stones) == Blink(a) + Rewrite(x);
      assert Total(stones, iterations) == Total(a, iterations) + Count(x, iterations);
      TotalBlink(a, iterations);
      CountRewrite(x, iterations);
      TotalAppend(Blink(a), Rewrite(x), iterations - 1);
    }
  }

  /** The cached count is the length of the iterated blink: counting a row
    stone by stone gives as many stones as blinking the whole row. */
  lemma {:induction false} TotalIsLength(stones: seq<nat>, iterations: nat)
    ensures Total(stones, iterations) == |Iterate(stones, iterations)|
    decreases iterations
  {
    if iterations == 0 {
      TotalNoBlinks(stones);
    } else {
      TotalBlink(stones, iterations);
      TotalIsLength(Blink(stones), iterations - 1);
      IterateShift(stones, iterations);
    }
  }

  /** One stone's count is the number of stones `Main.applyRules` leaves of
    it. */
  lemma CountIsLength(stone: nat, iterations: nat)
    ensures Count(stone, iterations) == |Iterate([stone], iterations)|
  {
    TotalIsLength([stone], iterations);
    assert [stone][..0] == [];
  }

  /** `LongTuple`: a cache key, the stone and the blinks still to come. */
  datatype LongTuple = LongTuple(stone: nat, iterations: nat)

  /** `PlutoStonesEfficient`: the cache from keys to counts. */
  class PlutoStonesEfficient {
    var cache: map<LongTuple, nat>

    /** Every cached count is the count of its key. */
    ghost predicate Valid()
      reads this
    {
      forall key :: key in cache ==> cache[key] == Count(key.stone, key.iterations)
    }

    constructor()
      ensures cache == map[]
      ensures Valid()
    {
      cache := map[];
    }

    /** `countStonesAfterNIterations`: whatever the cache holds, the result is
      the stone's count; the cache keeps its entries and stays correct. */
    method CountStonesAfterNIterations(stone: nat, iterations: nat) returns (count: nat)
      requires Valid()
      modifies this
      ensures Valid()
      ensures count == Count(stone, iterations)
      ensures old(cache).Keys <= cache.Keys
      decreases iterations, 1
    {
      if iterations == 0 {
        return 1;
      }
      var key := LongTuple(stone, iterations);
      if key !in cache {
        var result := ApplyRules(stone, iterations);
        cache := cache[key := result];
      }
      return cache[key];
    }

    /** `applyRules`: the first rule that applies to the stone, counted one
      blink fewer. */
    method ApplyRules(stone: nat, iterations: nat) returns (count: nat)
      requires Valid() && iterations >= 1
      modifies this
      ensures Valid()
      ensures count == Count(stone, iterations)
      ensures old(cache).Keys <= cache.Keys
      decreases iterations, 0
    {
      if stone == 0 {
        count := CountStonesAfterNIterations(1, iterations - 1);
        return;
      }
      var s := ToDecimal(stone);
      if |s| % 2 == 0 {
        var left := CountStonesAfterNIterations(ParseDecimal(s[..|s| / 2]), iterations - 1);
        var right := CountStonesAfterNIterations(ParseDecimal(s[|s| / 2..]), iterations - 1);
        count := left + right;
        return;
      }
      count := CountStonesAfterNIterations(stone * 2024, iterations - 1);
    }
  }

  /** `Main.applyRulesEfficient`: the counts of all stones added up, which is
    the length of the row after `iterations` blinks. */
  method CountStones(stones: seq<nat>, iterations: nat) returns (total: nat)
    ensures total == |Iterate(stones, iterations)|
  {
    var pluto := new PlutoStonesEfficient();
    total := 0;
    for k := 0 to |stones|
      invariant pluto.Valid()
      invariant total == Total(stones[..k], iterations)
    {
      var count := pluto.CountStonesAfterNIterations(stones[k], iterations);
      assert stones[..k + 1] == stones[..k] + [stones[k]];
      TotalSnoc(stones[..k], stones[k], iterations);
      total := total + count;
    }
    assert stones[..|stones|] == stones;
    TotalIsLength(stones, iterations);
  }
}
