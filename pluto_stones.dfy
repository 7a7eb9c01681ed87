/** Plutonian pebbles (java/11/src/PlutoStones.java): the decimal form of a
  stone's number, the three rules tried in order, and one blink over a row of
  stones. Stone numbers are unbounded naturals here. */
module PlutoStones {
  function DigitChar(d: nat): char
    requires d < 10
  {
    ('0' as int + d) as char
  }

  predicate IsDigit(c: char)
  {
    '0' <= c <= '9'
  }

  predicate IsDecimal(s: string)
  {
    forall k :: 0 <= k < |s| ==> IsDigit(s[k])
  }

  function DigitValue(c: char): nat
    requires IsDigit(c)
  {
    c as int - '0' as int
  }

  /** `String.valueOf` on a natural: its decimal digits, most significant
    first, without leading zeros. */
  function ToDecimal(n: nat): (s: string)
    ensures IsDecimal(s) && |s| >= 1
  {
    if n < 10 then [DigitChar(n)] else ToDecimal(n / 10) + [DigitChar(n % 10)]
  }

  /** `Long.parseLong` on a string of digits (leading zeros allowed). */
  function ParseDecimal(s: string): nat
    requires IsDecimal(s)
  {
    if s == [] then 0 else ParseDecimal(s[..|s| - 1]) * 10 + DigitValue(s[|s| - 1])
  }

  function Pow10(k: nat): (r: nat)
    ensures r >= 1
  {
    if k == 0 then 1 else 10 * Pow10(k - 1)
  }

  /** Parsing what `ToDecimal` writes gives the number back; the string has
    no leading zero and its length is the number's count of digits. */
  lemma {:induction false} DecimalRoundTrip(n: nat)
    ensures ParseDecimal(ToDecimal(n)) == n
    ensures n > 0 ==> ToDecimal(n)[0] != '0'
    ensures n < Pow10(|ToDecimal(n)|)
    ensures |ToDecimal(n)| > 1 ==> Pow10(|ToDecimal(n)| - 1) <= n
  {
    var s := ToDecimal(n);
    if n >= 10 {
      DecimalRoundTrip(n / 10);
      var t := ToDecimal(n / 10);
      assert s[..|s| - 1] == t;
      assert s[0] == t[0];
      assert |s| == |t| + 1;
      assert n / 10 < Pow10(|t|);
      assert n / 10 * 10 < 10 * Pow10(|t|) by {
        assert n / 10 + 1 <= Pow10(|t|);
      }
      if |t| > 1 {
        assert Pow10(|t| - 1) <= n / 10;
        assert 10 * Pow10(|t| - 1) <= n / 10 * 10;
      }
    }
  }

  /** Parsing a concatenation: the left part shifted by the right part's
    length, plus the right part. */
  lemma {:induction false} ParseAppend(a: string, b: string)
    requires IsDecimal(a) && IsDecimal(b)
    ensures IsDecimal(a + b)
    ensures ParseDecimal(a + b) == ParseDecimal(a) * Pow10(|b|) + ParseDecimal(b)
  {
    assert IsDecimal(a + b) by {
      forall k | 0 <= k < |a + b| ensures IsDigit((a + b)[k]) {
        if k < |a| { assert (a + b)[k] == a[k]; } else { assert (a + b)[k] == b[k - |a|]; }
      }
    }
    if b == [] {
      assert a + b == a;
    } else {
      var b' := b[..|b| - 1];
      assert IsDecimal(b');
      ParseAppend(a, b');
      assert (a + b)[..|a + b| - 1] == a + b';
      assert ParseDecimal(a + b) == ParseDecimal(a + b') * 10 + DigitValue(b[|b| - 1]);
      Shift(ParseDecimal(a), Pow10(|b'|), ParseDecimal(b'), DigitValue(b[|b| - 1]));
    }
  }

  lemma Shift(x: int, p: int, y: int, d: int)
    ensures (x * p + y) * 10 + d == x * (10 * p) + (y * 10 + d)
  {
  }

  /** A string of `k` digits parses below 10^k, and to at least 10^(k-1) when
    its first digit is not 0. */
  lemma {:induction false} ParseBounds(s: string)
    requires IsDecimal(s)
    ensures ParseDecimal(s) < Pow10(|s|)
    ensures |s| >= 1 && s[0] != '0' ==> Pow10(|s| - 1) <= ParseDecimal(s)
  {
    if s != [] {
      var s' := s[..|s| - 1];
      assert IsDecimal(s');
      ParseBounds(s');
      var x, d := ParseDecimal(s'), DigitValue(s[|s| - 1]);
      assert x * 10 + d < 10 * Pow10(|s'|) by {
        assert x + 1 <= Pow10(|s'|);
      }
      if |s| >= 2 && s[0] != '0' {
        assert s'[0] == s[0];
        assert Pow10(|s'| - 1) <= x;
        assert 10 * Pow10(|s'| - 1) <= x * 10;
      }
    }
  }

  /** `canSplitDigits`: an even number of decimal digits. A single digit
    never splits, every two-digit number does. */
  predicate CanSplitDigits(n: nat)
    ensures CanSplitDigits(n) ==> n >= 10 && |ToDecimal(n)| >= 2
    ensures 10 <= n < 100 ==> CanSplitDigits(n)
  {
    assert 10 <= n < 100 ==> |ToDecimal(n / 10)| == 1;
    |ToDecimal(n)| % 2 == 0
  }

  /** `splitDigits`: the numbers written by the left and by the right half of
    the digits. Parsing an empty half throws, so the number needs at least
    two digits. */
  function SplitDigits(n: nat): (r: seq<nat>)
    requires |ToDecimal(n)| >= 2
    ensures |r| == 2
    ensures var s := ToDecimal(n); r[0] * Pow10(|s| - |s| / 2) + r[1] == n
  {
    var s := ToDecimal(n);
    DecimalRoundTrip(n);
    HalvesJoin(s, |s| / 2);
    [ParseDecimal(s[..|s| / 2]), ParseDecimal(s[|s| / 2..])]
  }

  /** Splitting an even-length number gives its numeric halves: the left half
    has exactly half the digits, the right half is what is left below
    10^half, and together they make the number again. */
  lemma SplitDigitsHalves(n: nat)
    requires CanSplitDigits(n)
    ensures |ToDecimal(n)| >= 2
    ensures var h := |ToDecimal(n)| / 2;
      SplitDigits(n)[0] * Pow10(h) + SplitDigits(n)[1] == n &&
      SplitDigits(n)[1] < Pow10(h) &&
      Pow10(h - 1) <= SplitDigits(n)[0] < Pow10(h)
  {
    var s := ToDecimal(n);
    var h := |s| / 2;
    DecimalRoundTrip(n);
    HalvesJoin(s, h);
    HalvesBounds(s, h);
    assert SplitDigits(n) == [ParseDecimal(s[..h]), ParseDecimal(s[h..])];
  }

  lemma HalvesJoin(s: string, h: nat)
    requires IsDecimal(s) && h <= |s|
    ensures ParseDecimal(s[..h]) * Pow10(|s| - h) + ParseDecimal(s[h..]) == ParseDecimal(s)
  {
    assert s == s[..h] + s[h..];
    ParseAppend(s[..h], s[h..]);
  }

  lemma HalvesBounds(s: string, h: nat)
    requires IsDecimal(s) && 1 <= h <= |s| && s[0] != '0'
    ensures ParseDecimal(s[h..]) < Pow10(|s| - h)
    ensures Pow10(h - 1) <= ParseDecimal(s[..h]) < Pow10(h)
  {
    assert s[..h][0] == s[0];
    ParseBounds(s[..h]);
    ParseBounds(s[h..]);
  }

  /** `StoneRule`: the three rules of `PlutoStones.rules`, as values. */
  datatype StoneRule = ZeroBecomesOne | SplitEvenDigits | MultiplyBy2024

  const Rules: seq<StoneRule> := [ZeroBecomesOne, SplitEvenDigits, MultiplyBy2024]

  /** `canApply` of each rule. */
  predicate CanApply(rule: StoneRule, n: nat)
  {
    match rule
    case ZeroBecomesOne => n == 0
    case SplitEvenDigits => CanSplitDigits(n)
    case MultiplyBy2024 => true
  }

  /** `apply` of each rule. */
  function Apply(rule: StoneRule, n: nat): seq<nat>
    requires CanApply(rule, n)
  {
    match rule
    case ZeroBecomesOne => [1]
    case SplitEvenDigits => SplitDigits(n)
    case MultiplyBy2024 => [n * 2024]
  }

  /** What one stone becomes, rule by rule as the puzzle states it. */
  function Rewrite(n: nat): seq<nat>
  {
    if n == 0 then [1] else if CanSplitDigits(n) then SplitDigits(n) else [n * 2024]
  }

  /** The first rule in `Rules` that applies to a stone gives `Rewrite`. */
  lemma FirstRuleRewrites(n: nat, i: nat)
    requires i < |Rules| && CanApply(Rules[i], n)
    requires forall j :: 0 <= j < i ==> !CanApply(Rules[j], n)
    ensures Apply(Rules[i], n) == Rewrite(n)
  {
    if i > 0 {
      assert !CanApply(Rules[0], n);
    }
    if i > 1 {
      assert !CanApply(Rules[1], n);
    }
  }

  /** One stone becomes one or two stones. */
  lemma RewriteLength(n: nat)
    ensures 1 <= |Rewrite(n)| <= 2
  {
  }

  /** One blink: every stone rewritten, in order. */
  function Blink(stones: seq<nat>): seq<nat>
  {
    if stones == [] then [] else Blink(stones[..|stones| - 1]) + Rewrite(stones[|stones| - 1])
  }

  /** A blink keeps at least as many stones and at most twice as many. */
  lemma {:induction false} BlinkLength(stones: seq<nat>)
    ensures |stones| <= |Blink(stones)| <= 2 * |stones|
  {
    if stones != [] {
      BlinkLength(stones[..|stones| - 1]);
      RewriteLength(stones[|stones| - 1]);
    }
  }

  /** A blink keeps stone order: it works stone by stone. */
  lemma {:induction false} BlinkAppend(a: seq<nat>, b: seq<nat>)
    ensures Blink(a + b) == Blink(a) + Blink(b)
  {
    if b == [] {
      assert a + b == a;
    } else {
      var b', x := b[..|b| - 1], b[|b| - 1];
      assert b == b' + [x];
      assert a + b == (a + b') + [x];
      BlinkAppend(a, b');
      BlinkSnoc(a + b', x);
      BlinkSnoc(b', x);
      Regroup(Blink(a), Blink(b'), Rewrite(x));
    }
  }

  lemma BlinkSnoc(a: seq<nat>, x: nat)
    ensures Blink(a + [x]) == Blink(a) + Rewrite(x)
  {
    assert (a + [x])[..|a|] == a;
  }

  lemma Regroup(a: seq<nat>, b: seq<nat>, c: seq<nat>)
    ensures (a + b) + c == a + (b + c)
  {
  }

  lemma PrefixSnoc(s: seq<nat>, k: nat)
    requires k < |s|
    ensures s[..k + 1] == s[..k] + [s[k]]
  {
  }

  /** `applyRules`: for each stone the rules are tried in order and the
    first that applies adds its stones. */
  method ApplyRules(stones: seq<nat>) returns (newStones: seq<nat>)
    ensures newStones == Blink(stones)
  {
    newStones := [];
    for k := 0 to |stones|
      invariant newStones == Blink(stones[..k])
    {
      var stone := stones[k];
      PrefixSnoc(stones, k);
      assert stones[..k + 1][..k] == stones[..k];
      var i := 0;
      while i < |Rules|
        invariant 0 <= i <= |Rules|
        invariant forall j :: 0 <= j < i ==> !CanApply(Rules[j], stone)
        invariant newStones == Blink(stones[..k])
      {
        if CanApply(Rules[i], stone) {
          FirstRuleRewrites(stone, i);
          newStones := newStones + Apply(Rules[i], stone);
          assert newStones == Blink(stones[..k + 1]);
          break;
        }
        i := i + 1;
      }
      assert CanApply(Rules[|Rules| - 1], stone);
    }
    assert stones[..|stones|] == stones;
  }

  /** `n` blinks one after the other. */
  function Iterate(stones: seq<nat>, n: nat): seq<nat>
  {
    if n == 0 then stones else Blink(Iterate(stones, n - 1))
  }

  /** The first of `n` blinks may be taken first. */
  lemma {:induction false} IterateShift(stones: seq<nat>, n: nat)
    requires n >= 1
    ensures Iterate(stones, n) == Iterate(Blink(stones), n - 1)
  {
    if n > 1 {
      IterateShift(stones, n - 1);
    }
  }

  /** `Main.applyRules`: blink `n` times. */
  method ApplyRulesTimes(stones: seq<nat>, n: nat) returns (newStones: seq<nat>)
    ensures newStones == Iterate(stones, n)
  {
    newStones := stones;
    for i := 0 to n
      invariant newStones == Iterate(stones, i)
    {
      newStones := ApplyRules(newStones);
    }
  }
}
