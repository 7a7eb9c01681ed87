/** Choosing the four-change sequence that earns the most bananas
  (rust/22/src/monkey_market.rs). The parallel map over buyers is modelled
  sequentially. */
module MonkeyMarket {
  import opened Wrappers
  import opened Secrets
  import opened Prices

  /** Four consecutive price changes, the `[i8; 4]` key. */
  type Window = w: seq<int> | |w| == 4 witness [0, 0, 0, 0]

  /** Window `j` of `tuple_windows`. */
  function WindowAt(changes: seq<int>, j: nat): seq<int>
    requires j + 4 <= |changes|
  {
    changes[j..j + 4]
  }

  /** `position` over `tuple_windows`, searching from window `k` on. */
  function FirstWindowFrom(changes: seq<int>, w: Window, k: nat): (r: Option<nat>)
    ensures r.Some? ==> k <= r.value && r.value + 4 <= |changes| && WindowAt(changes, r.value) == w
    ensures r.Some? ==> forall j :: k <= j < r.value ==> WindowAt(changes, j) != w
    ensures r.None? ==> forall j :: k <= j && j + 4 <= |changes| ==> WindowAt(changes, j) != w
    decreases |changes| - k
  {
    if k + 4 > |changes| then None
    else if changes[k..k + 4] == w then Some(k)
    else FirstWindowFrom(changes, w, k + 1)
  }

  /** Index of the first window of `changes` equal to `w`. */
  function FirstWindow(changes: seq<int>, w: Window): Option<nat>
  {
    FirstWindowFrom(changes, w, 0)
  }

  /** A window that occurs at `k` has its first occurrence at or before `k`. */
  lemma FirstWindowBound(changes: seq<int>, w: Window, k: nat)
    requires k + 4 <= |changes| && WindowAt(changes, k) == w
    ensures FirstWindow(changes, w).Some? && FirstWindow(changes, w).value <= k
  {
  }

  /** `monkey_buy_bananas`: the price right after the first occurrence of
    the window, if the price list reaches that far. */
  function BuyBananas(prices: seq<nat>, changes: seq<int>, w: Window): (r: Option<nat>)
    ensures r.Some? ==> exists i :: 0 <= i && i + 4 <= |changes| && i + 3 < |prices| && WindowAt(changes, i) == w && r.value == prices[i + 3]
    ensures r.None? <==> FirstWindow(changes, w).None? || FirstWindow(changes, w).value + 3 >= |prices|
  {
    match FirstWindow(changes, w)
    case None => None
    case Some(i) => if i + 3 < |prices| then Some(prices[i + 3]) else None
  }

  /** The value a map gives a window, if any. */
  function Lookup(m: map<Window, nat>, w: Window): Option<nat>
  {
    if w in m then Some(m[w]) else None
  }

  function OrZero(o: Option<nat>): nat
  {
    if o.Some? then o.value else 0
  }

  /** What the lookup holds for `w` after the first `k` windows. */
  function SeenBefore(prices: seq<nat>, changes: seq<int>, w: Window, k: nat): Option<nat>
  {
    match FirstWindow(changes, w)
    case Some(i) => if i < k && i + 3 < |prices| then Some(prices[i + 3]) else None
    case None => None
  }

  /** One buyer's `lookup` map: every window, zipped with the price after
    it, keeps the price of its first occurrence (`or_insert`). */
  method BuyerLookup(prices: seq<nat>, changes: seq<int>) returns (lookup: map<Window, nat>)
    ensures forall w: Window :: Lookup(lookup, w) == BuyBananas(prices, changes, w)
  {
    lookup := map[];
    var k := 0;
    while k + 4 <= |changes| && k + 3 < |prices|
      invariant k + 4 <= |changes| + 1 || k == 0
      invariant k <= |prices|
      invariant forall w: Window :: Lookup(lookup, w) == SeenBefore(prices, changes, w, k)
      decreases |changes| - k
    {
      var w: Window := WindowAt(changes, k);
      FirstWindowBound(changes, w, k);
      ghost var before := lookup;
      if w !in lookup {
        lookup := lookup[w := prices[k + 3]];
      }
      forall v: Window
        ensures Lookup(lookup, v) == SeenBefore(prices, changes, v, k + 1)
      {
        assert Lookup(before, v) == SeenBefore(prices, changes, v, k);
        if v != w {
          assert Lookup(lookup, v) == Lookup(before, v);
          assert FirstWindow(changes, v) != Some(k);
        }
      }
      k := k + 1;
    }
    forall v: Window
      ensures Lookup(lookup, v) == BuyBananas(prices, changes, v)
    {
      assert Lookup(lookup, v) == SeenBefore(prices, changes, v, k);
    }
  }

  /** Sum over buyers of the bananas a window earns them. */
  function SumAt(lookups: seq<map<Window, nat>>, w: Window): nat
  {
    if lookups == [] then 0
    else SumAt(lookups[..|lookups| - 1], w) + OrZero(Lookup(lookups[|lookups| - 1], w))
  }

  /** `total_bananas`: the per-buyer maps added up key by key. */
  method Totals(lookups: seq<map<Window, nat>>) returns (total: map<Window, nat>)
    ensures forall w: Window :: OrZero(Lookup(total, w)) == SumAt(lookups, w)
    ensures forall w: Window :: w in total <==> exists b :: 0 <= b < |lookups| && w in lookups[b]
  {
    total := map[];
    for i := 0 to |lookups|
      invariant forall w: Window :: OrZero(Lookup(total, w)) == SumAt(lookups[..i], w)
      invariant forall w: Window :: w in total <==> exists b :: 0 <= b < i && w in lookups[b]
    {
      assert lookups[..i + 1][..i] == lookups[..i];
      var lookup := lookups[i];
      var keys := lookup.Keys;
      while keys != {}
        invariant keys <= lookup.Keys
        invariant forall w: Window :: OrZero(Lookup(total, w)) == SumAt(lookups[..i], w) + (if w in lookup && w !in keys then lookup[w] else 0)
        invariant forall w: Window :: w in total <==> (exists b :: 0 <= b < i && w in lookups[b]) || (w in lookup && w !in keys)
        decreases keys
      {
        var w :| w in keys;
        total := total[w := OrZero(Lookup(total, w)) + lookup[w]];
        keys := keys - {w};
      }
    }
    assert lookups[..|lookups|] == lookups;
  }

  /** `max_by_key` with its `expect`: a window of largest total. */
  method BestWindow(total: map<Window, nat>) returns (r: Result<(Window, nat)>)
    ensures r.Err? <==> total == map[]
    ensures r.Ok? ==> r.value.0 in total && r.value.1 == total[r.value.0]
    ensures r.Ok? ==> forall w :: w in total ==> total[w] <= r.value.1
  {
    if total == map[] {
      return Err("At least one maximum");
    }
    var keys := total.Keys;
    var best :| best in keys;
    keys := keys - {best};
    while keys != {}
      invariant keys <= total.Keys && best in total
      invariant forall w :: w in total && w !in keys ==> total[w] <= total[best]
      decreases keys
    {
      var w :| w in keys;
      if total[w] >= total[best] {
        best := w;
      }
      keys := keys - {w};
    }
    r := Ok((best, total[best]));
  }

  /** The total a window earns over all buyers with their first `maxChanges`
    price changes, as `monkey_buy_bananas` computes it buyer by buyer. */
  function BuyerSum(seeds: seq<U64>, maxChanges: nat, w: Window): nat
    requires forall b :: 0 <= b < |seeds| ==> NoOverflow(seeds[b])
  {
    if seeds == [] then 0
    else
      var s := seeds[|seeds| - 1];
      BuyerSum(seeds[..|seeds| - 1], maxChanges, w) + OrZero(BuyBananas(PriceStream(s, maxChanges), PriceChanges(s, maxChanges), w))
  }

  /** The parallel map of `efficient_optimum_sequence`, one lookup per buyer. */
  method BuyerLookups(seeds: seq<U64>, maxChanges: nat) returns (lookups: seq<map<Window, nat>>)
    requires forall b :: 0 <= b < |seeds| ==> NoOverflow(seeds[b])
    ensures |lookups| == |seeds|
    ensures forall j, w: Window :: 0 <= j < |seeds| ==>
      Lookup(lookups[j], w) == BuyBananas(PriceStream(seeds[j], maxChanges), PriceChanges(seeds[j], maxChanges), w)
  {
    lookups := [];
    for b := 0 to |seeds|
      invariant |lookups| == b
      invariant forall j, w: Window :: 0 <= j < b ==>
        Lookup(lookups[j], w) == BuyBananas(PriceStream(seeds[j], maxChanges), PriceChanges(seeds[j], maxChanges), w)
    {
      var lookup := BuyerLookup(PriceStream(seeds[b], maxChanges), PriceChanges(seeds[b], maxChanges));
      lookups := lookups + [lookup];
    }
  }

  lemma {:induction false} SumAtIsBuyerSum(seeds: seq<U64>, maxChanges: nat, lookups: seq<map<Window, nat>>, w: Window)
    requires forall b :: 0 <= b < |seeds| ==> NoOverflow(seeds[b])
    requires |lookups| == |seeds|
    requires forall j :: 0 <= j < |seeds| ==>
      Lookup(lookups[j], w) == BuyBananas(PriceStream(seeds[j], maxChanges), PriceChanges(seeds[j], maxChanges), w)
    ensures SumAt(lookups, w) == BuyerSum(seeds, maxChanges, w)
  {
    if seeds != [] {
      var n := |seeds| - 1;
      SumAtIsBuyerSum(seeds[..n], maxChanges, lookups[..n], w);
    }
  }

  /** `efficient_optimum_sequence`: the best window and its total. */
  method EfficientOptimumSequence(seeds: seq<U64>, maxChanges: nat) returns (r: Result<(Window, nat)>)
    requires forall b :: 0 <= b < |seeds| ==> NoOverflow(seeds[b])
    ensures r.Ok? ==> r.value.1 == BuyerSum(seeds, maxChanges, r.value.0)
    ensures r.Ok? ==> forall w: Window :: BuyerSum(seeds, maxChanges, w) <= r.value.1
    ensures r.Err? <==> |seeds| == 0 || maxChanges < 4
  {
    var lookups := BuyerLookups(seeds, maxChanges);
    var total := Totals(lookups);
    r := BestWindow(total);
    forall w: Window
      ensures OrZero(Lookup(total, w)) == BuyerSum(seeds, maxChanges, w)
    {
      SumAtIsBuyerSum(seeds, maxChanges, lookups, w);
    }
    if r.Ok? {
      forall w: Window
        ensures BuyerSum(seeds, maxChanges, w) <= r.value.1
      {
        if w !in total {
          assert OrZero(Lookup(total, w)) == 0;
        } else {
          assert OrZero(Lookup(total, w)) == total[w];
        }
      }
      assert OrZero(Lookup(total, r.value.0)) == r.value.1;
    }
    if |seeds| > 0 && maxChanges >= 4 {
      var changes := PriceChanges(seeds[0], maxChanges);
      var w: Window := WindowAt(changes, 0);
      FirstWindowBound(changes, w, 0);
      assert Lookup(lookups[0], w).Some?;
      assert w in total;
    } else {
      forall j, w: Window | 0 <= j < |lookups|
        ensures w !in lookups[j]
      {
        assert Lookup(lookups[j], w).None?;
      }
      assert forall w: Window :: w !in total;
      assert total.Keys == {};
    }
  }
}
