// Powers of two.
module Powers {

  function Pow2(n: nat): (p: nat)
    ensures p >= 1
  {
    if n == 0 then 1 else 2 * Pow2(n - 1)
  }

  lemma {:induction false} Pow2Monotone(m: nat, n: nat)
    requires m <= n
    ensures Pow2(m) <= Pow2(n)
    decreases n
  {
    if m < n {
      Pow2Monotone(m, n - 1);
    }
  }

  lemma {:induction false} Pow2Sum(m: nat, n: nat)
    ensures Pow2(m + n) == Pow2(m) * Pow2(n)
    decreases n
  {
    if n > 0 {
      Pow2Sum(m, n - 1);
      assert Pow2(m) * Pow2(n) == 2 * (Pow2(m) * Pow2(n - 1));
    }
  }

  lemma ProductGrows(m: int, d: nat)
    requires m > 0 && d > 0
    ensures m * d >= m
    decreases d
  {
  }

  lemma MultipleIsFar(m: int, d: int)
    requires m > 0 && d != 0
    ensures m * d >= m || m * d <= -m
  {
  }

  /** Division with remainder is unique. */
  lemma DivModUnique(x: int, m: int, q: int, r: int)
    requires 0 <= r < m && x == m * q + r
    ensures x / m == q && x % m == r
  {
    var d := x / m - q;
    assert m * d == m * (x / m) - m * q;
    assert x == m * (x / m) + x % m;
    if d != 0 {
      MultipleIsFar(m, d);
    }
  }

  lemma HalfMod(n: nat, p: nat)
    requires p > 0
    ensures n % (2 * p) == 2 * (n / 2 % p) + n % 2
  {
    var half := n / 2;
    var q, r := half / p, half % p;
    assert half == p * q + r;
    assert n == 2 * half + n % 2;
    assert (2 * p) * q == 2 * (p * q);
    DivModUnique(n, 2 * p, q, 2 * r + n % 2);
  }

  lemma Associates(a: int, b: int, c: int)
    ensures (a * b) * c == a * (b * c)
  {
  }

  lemma ModShift(x: int, m: int, d: int)
    requires m > 0
    ensures (x + m * d) % m == x % m
    ensures (x + m * d) / m == x / m + d
  {
    DivModUnique(x + m * d, m, x / m + d, x % m);
  }

  /** A mixed-radix number is below the product of its radices. */
  lemma MixedBound(q: int, r: int, a: int, b: int)
    requires 0 <= q < a && 0 <= r < b
    ensures 0 <= b * q + r < a * b
  {
    ProductGrows(b, a - q);
    if q > 0 { ProductGrows(b, q); }
  }

  /** Appending a digit `x` in base `s` below a remainder modulo `m`. */
  lemma ScaledRemainder(v: int, m: int, s: int, x: int)
    requires m > 0 && 0 <= x < s
    ensures m * s > 0 && (s * v + x) % (m * s) == s * (v % m) + x
  {
    var q, r := v / m, v % m;
    MixedBound(r, x, m, s);
    Associates(s, m, q);
    DivModUnique(s * v + x, m * s, q, s * r + x);
  }

  /** A remainder modulo a product, split into its two digits. */
  lemma SplitRemainder(u: int, a: int, b: int)
    requires a > 0 && b > 0
    ensures a * b > 0 && u % (a * b) == b * (u / b % a) + u % b
  {
    var q, r := u / b, u % b;
    MixedBound(q % a, r, a, b);
    Associates(b, a, q / a);
    DivModUnique(u, a * b, q / a, b * (q % a) + r);
  }

  /** Reading the two digits back. */
  lemma ReadDigits(u: int, a: int, b: int, high: int, low: int)
    requires a > 0 && 0 <= low < b && u % (a * b) == high * b + low
    requires a * b > 0
    ensures u / b % a == high && u % b == low
  {
    SplitRemainder(u, a, b);
    DivModUnique(u % (a * b), b, u / b % a, u % b);
    DivModUnique(u % (a * b), b, high, low);
  }
}
