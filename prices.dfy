/** Banana prices derived from the secret stream (rust/22/src/prices.rs). */
module Prices {
  import opened Wrappers
  import opened Secrets

  /** `to_price`: the last decimal digit of a secret. */
  function ToPrice(secret: U64): (p: nat)
    ensures p < 10
  {
    (secret as int) % 10
  }

  /** `to_price_change`: the difference as an `i8`; the conversion fails
    (the source's `expect` panics) when it does not fit. */
  function ToPriceChange(previous: nat, price: nat): (r: Result<int>)
    ensures r.Ok? <==> -128 <= price - previous <= 127
    ensures r.Ok? ==> r.value + previous == price
  {
    var change := price - previous;
    if -128 <= change <= 127 then Ok(change) else Err("Price change should be lower than 10")
  }

  /** Between two prices the change always fits, so the `expect` never fires. */
  lemma ChangeFits(previous: nat, price: nat)
    requires previous < 10 && price < 10
    ensures ToPriceChange(previous, price).Ok?
    ensures -9 <= ToPriceChange(previous, price).value <= 9
  {
  }

  /** The first `n` values of `iter_prices(start)`. */
  function PriceStream(start: U64, n: nat): (r: seq<nat>)
    requires NoOverflow(start)
    ensures |r| == n && forall k :: 0 <= k < n ==> r[k] < 10
  {
    var secrets := SecretStream(start, n);
    seq(n, k requires 0 <= k < n => ToPrice(secrets[k]))
  }

  /** The scan of `iter_price_changes`: each price against the one before.
    Between prices the `i8` conversion always succeeds (`ChangeFits`), so
    the scan records the plain difference. */
  function ChangesFrom(previous: nat, prices: seq<nat>): (r: seq<int>)
    ensures |r| == |prices|
    decreases |prices|
  {
    if prices == [] then []
    else [prices[0] - previous] + ChangesFrom(prices[0], prices[1..])
  }

  /** The first `n` values of `iter_price_changes(start)`; the scan starts
    from the price of `start` itself. */
  function PriceChanges(start: U64, n: nat): (r: seq<int>)
    requires NoOverflow(start)
    ensures |r| == n
  {
    ChangesFrom(ToPrice(start), PriceStream(start, n))
  }

  lemma {:induction false} ChangesFromAt(previous: nat, prices: seq<nat>, k: nat)
    requires k < |prices|
    ensures ChangesFrom(previous, prices)[k] == prices[k] - (if k == 0 then previous else prices[k - 1])
    decreases k
  {
    if k > 0 {
      ChangesFromAt(prices[0], prices[1..], k - 1);
    }
  }

  /** Change `k` is price `k` minus the price before it, and the price
    before the first is that of the seed; every change lies in [-9, 9]. */
  lemma PriceChangeAt(start: U64, n: nat, k: nat)
    requires NoOverflow(start) && k < n
    ensures PriceChanges(start, n)[k] == PriceStream(start, n)[k] - (if k == 0 then ToPrice(start) else PriceStream(start, n)[k - 1])
    ensures -9 <= PriceChanges(start, n)[k] <= 9
    ensures PriceChanges(start, n)[k] == ToPriceChange(if k == 0 then ToPrice(start) else PriceStream(start, n)[k - 1], PriceStream(start, n)[k]).value
  {
    ChangesFromAt(ToPrice(start), PriceStream(start, n), k);
  }

  /** A longer price stream starts with the shorter one. */
  lemma PricesPrefix(start: U64, n: nat, m: nat)
    requires NoOverflow(start) && m <= n
    ensures PriceStream(start, m) == PriceStream(start, n)[..m]
    ensures PriceChanges(start, m) == PriceChanges(start, n)[..m]
  {
    SecretsPrefix(start, n, m);
    var a, b := PriceChanges(start, m), PriceChanges(start, n);
    forall k | 0 <= k < m
      ensures a[k] == b[k]
    {
      PriceChangeAt(start, m, k);
      PriceChangeAt(start, n, k);
    }
  }

  /** The price unit test for seed 123. */
  lemma Seed123Prices()
    ensures PriceStream(123, 10) == [0, 6, 5, 4, 4, 6, 4, 4, 2, 4]
  {
    Seed123();
    var secrets: seq<U64> := [15887950, 16495136, 527345, 704524, 1553684, 12683156, 11100544, 12249484, 7753432, 5908254];
    Seed123Digits(secrets);
  }

  /** The last digits of the first ten secrets after seed 123. */
  lemma Seed123Digits(secrets: seq<U64>)
    requires secrets == [15887950, 16495136, 527345, 704524, 1553684, 12683156, 11100544, 12249484, 7753432, 5908254]
    ensures seq(10, k requires 0 <= k < 10 => ToPrice(secrets[k])) == [0, 6, 5, 4, 4, 6, 4, 4, 2, 4]
  {
    var expected := [0, 6, 5, 4, 4, 6, 4, 4, 2, 4];
    assert forall k :: 0 <= k < 10 ==> ToPrice(secrets[k]) == expected[k];
  }

  lemma Seed123ChangesFrom()
    ensures ChangesFrom(3, [0, 6, 5, 4, 4, 6, 4, 4, 2, 4]) == [-3, 6, -1, -1, 0, 2, -2, 0, -2, 2]
  {
    var prices: seq<nat> := [0, 6, 5, 4, 4, 6, 4, 4, 2, 4];
    var expected := [-3, 6, -1, -1, 0, 2, -2, 0, -2, 2];
    forall k | 0 <= k < 10
      ensures ChangesFrom(3, prices)[k] == expected[k]
    {
      ChangesFromAt(3, prices, k);
    }
  }

  /** The price-change unit test for seed 123. */
  lemma Seed123Changes()
    ensures PriceChanges(123, 10) == [-3, 6, -1, -1, 0, 2, -2, 0, -2, 2]
  {
    Seed123Prices();
    assert ToPrice(123) == 3;
    Seed123ChangesFrom();
  }
}
