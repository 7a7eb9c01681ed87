/** The buyers' pseudo-random secret numbers (rust/22/src/secrets.rs). */
module Secrets {

  /** Rust's `u64`, whose `^` is bitwise. */
  type U64 = bv64

  /** The modulus of `prune`, 2 to the 24th. */
  const PRUNE_MODULUS: U64 := 16777216

  /** Secrets that `secret * 64` does not overflow on (the product would
    panic in a debug build). */
  predicate NoOverflow(secret: U64)
  {
    secret < 0x0400_0000_0000_0000
  }

  /** `mix`: bitwise exclusive or, which mixing the same value in again
    undoes. */
  function Mix(secret: U64, value: U64): (r: U64)
    ensures r ^ value == secret
    ensures value == 0 ==> r == secret
  {
    secret ^ value
  }

  /** `prune`: the remainder modulo 2 to the 24th, computed as the low 24
    bits. */
  function Prune(secret: U64): (r: U64)
    ensures r == secret % 16777216
    ensures r < PRUNE_MODULUS
    ensures secret < PRUNE_MODULUS ==> r == secret
  {
    secret & 0xFF_FFFF
  }

  /** Mixing the same value in twice restores the secret. */
  lemma MixInvolution(secret: U64, value: U64)
    ensures Mix(Mix(secret, value), value) == secret
    ensures Mix(secret, 0) == secret
  {
  }

  function MixPrune(secret: U64, value: U64): (r: U64)
    ensures r < PRUNE_MODULUS
  {
    Prune(Mix(secret, value))
  }

  /** `next_secret`: three mix-and-prune rounds. */
  function NextSecret(secret: U64): (r: U64)
    requires NoOverflow(secret)
    ensures r < PRUNE_MODULUS && NoOverflow(r)
  {
    // multiply by 64, divide by 32, multiply by 2048, as shifts
    var a := MixPrune(secret, secret << 6);
    var b := MixPrune(a, a >> 5);
    MixPrune(b, b << 11)
  }

  /** The shifts in `NextSecret` are the source's products and quotient. */
  lemma ShiftsAreProducts(s: U64)
    ensures s << 6 == s * 64 && s >> 5 == s / 32 && s << 11 == s * 2048
  {
  }

  /** `next_secret` applied `k` times. */
  function Iterate(secret: U64, k: nat): (r: U64)
    requires NoOverflow(secret)
    ensures NoOverflow(r)
    ensures k > 0 ==> r < PRUNE_MODULUS
  {
    if k == 0 then secret else NextSecret(Iterate(secret, k - 1))
  }

  /** The first `n` values of `iter_secrets(start)`: the scan applies
    `next_secret` before yielding, so `start` itself is not among them. */
  function SecretStream(start: U64, n: nat): (r: seq<U64>)
    requires NoOverflow(start)
    ensures |r| == n
    decreases n
  {
    if n == 0 then [] else [NextSecret(start)] + SecretStream(NextSecret(start), n - 1)
  }

  /** Element `k` of the stream is `next_secret` applied `k + 1` times. */
  lemma {:induction false} SecretsAt(start: U64, n: nat, k: nat)
    requires NoOverflow(start) && k < n
    ensures SecretStream(start, n)[k] == Iterate(start, k + 1)
    ensures SecretStream(start, n)[k] < PRUNE_MODULUS
    decreases k
  {
    if k > 0 {
      SecretsAt(NextSecret(start), n - 1, k - 1);
      IterateShift(start, k);
    }
  }

  /** Applying `next_secret` once more at the front or at the back is the same. */
  lemma {:induction false} IterateShift(start: U64, k: nat)
    requires NoOverflow(start)
    ensures Iterate(NextSecret(start), k) == Iterate(start, k + 1)
    decreases k
  {
    if k > 0 {
      IterateShift(start, k - 1);
    }
  }

  /** A longer stream starts with the shorter one. */
  lemma {:induction false} SecretsPrefix(start: U64, n: nat, m: nat)
    requires NoOverflow(start) && m <= n
    ensures SecretStream(start, m) == SecretStream(start, n)[..m]
    decreases m
  {
    if m > 0 {
      SecretsPrefix(NextSecret(start), n - 1, m - 1);
    }
  }

  /** The `mix` and `prune` unit tests. */
  lemma MixPruneExamples()
    ensures Mix(42, 15) == 37
    ensures Prune(100000000) == 16113920
  {
  }

  /** The first ten secrets for seed 123, from the unit test. */
  lemma Seed123()
    ensures SecretStream(123, 10) == [15887950, 16495136, 527345, 704524, 1553684, 12683156, 11100544, 12249484, 7753432, 5908254]
  {
    assert NextSecret(123) == 15887950;
    assert NextSecret(15887950) == 16495136;
    assert NextSecret(16495136) == 527345;
    assert NextSecret(527345) == 704524;
    assert NextSecret(704524) == 1553684;
    assert NextSecret(1553684) == 12683156;
    assert NextSecret(12683156) == 11100544;
    assert NextSecret(11100544) == 12249484;
    assert NextSecret(12249484) == 7753432;
    assert NextSecret(7753432) == 5908254;
  }
}
