/** Java's integer remainder and the non-negative modulus the robot
  simulation of java/14 builds from it. */
module RobotArithmetic {
  function Abs(n: int): nat
  {
    if n >= 0 then n else -n
  }

  /** Java's `%`: truncating division, so the remainder takes the sign of the
    dividend (and is zero or smaller than the divisor in magnitude). */
  function JavaRem(n: int, m: int): (r: int)
    requires m != 0
    ensures Abs(r) < Abs(m)
    ensures n >= 0 ==> r >= 0
    ensures n <= 0 ==> r <= 0
  {
    if n >= 0 then n % Abs(m) else -((-n) % Abs(m))
  }

  /** `posMod`: the remainder moved into range by adding the modulus once
    and taking the remainder again. For a positive modulus it lands in
    [0, mod), for a negative one in (mod, 0]. */
  function PosMod(n: int, mod: int): (r: int)
    requires mod != 0
    ensures mod > 0 ==> 0 <= r < mod
    ensures mod < 0 ==> mod < r <= 0
  {
    JavaRem(JavaRem(n, mod) + mod, mod)
  }

  /** A remainder is determined by any decomposition with a remainder in
    range. */
  lemma ModUnique(c: int, w: int, q: int, r: int)
    requires w > 0 && c == w * q + r && 0 <= r < w
    ensures c % w == r
  {
    MulBounds(w, q - c / w);
    assert w * (q - c / w) == c % w - r;
  }

  lemma MulBounds(w: int, d: int)
    requires w > 0
    ensures d >= 1 ==> w * d >= w
    ensures d <= -1 ==> w * d <= -w
  {
  }

  /** For a positive modulus `posMod` is the mathematical modulus, and so lies
    in [0, mod). */
  lemma PosModIsMod(n: int, mod: int)
    requires mod > 0
    ensures PosMod(n, mod) == n % mod
    ensures 0 <= PosMod(n, mod) < mod
  {
    var s := (if n >= 0 then n else -n) % mod;
    var q := (if n >= 0 then n else -n) / mod;
    if n >= 0 {
      ModUnique(n % mod + mod, mod, 1, n % mod);
    } else if s == 0 {
      ModUnique(mod, mod, 1, 0);
      ModUnique(n, mod, -q, 0);
    } else {
      ModUnique(mod - s, mod, 0, mod - s);
      ModUnique(n, mod, -q - 1, mod - s);
    }
  }

  /** Shifting by a multiple of the modulus leaves the remainder alone. */
  lemma ModShift(a: int, b: int, w: int)
    requires w > 0
    ensures (a % w + b) % w == (a + b) % w
  {
    var q1, r1 := a / w, a % w;
    var q2, r2 := (r1 + b) / w, (r1 + b) % w;
    assert a + b == w * (q1 + q2) + r2;
    ModUnique(a + b, w, q1 + q2, r2);
  }

  lemma ModOfInRange(x: int, w: int)
    requires 0 <= x < w
    ensures x % w == x
  {
    ModUnique(x, w, 0, x);
  }
}
