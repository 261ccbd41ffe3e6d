/** Facts about products and floors that the solver does not find unaided. */
module Arith {

  lemma MulNonNegative(a: int, b: int)
    requires 0 <= a && 0 <= b
    ensures 0 <= a * b
  {
  }

  lemma MulMonotone(a: int, b: int, c: int)
    requires a <= b && 0 <= c
    ensures a * c <= b * c
    ensures c * a <= c * b
  {
    MulNonNegative(b - a, c);
  }

  lemma MulBounds(d: int, m: int)
    requires 0 < m
    ensures d >= 1 ==> d * m >= m
    ensures d <= -1 ==> d * m <= -m
  {
    if d >= 1 { MulMonotone(1, d, m); }
    if d <= -1 { MulMonotone(d, -1, m); }
  }

  lemma Distribute(a: int, b: int, c: int)
    ensures (a + b) * c == a * c + b * c
    ensures c * (a + b) == c * a + c * b
    ensures (a - b) * c == a * c - b * c
    ensures c * (a - b) == c * a - c * b
  {
  }

  lemma DivMod(x: int, m: int)
    requires 0 < m
    ensures x == (x / m) * m + x % m && 0 <= x % m < m
  {
  }

  lemma DivUnique(x: int, m: int, q: int, r: int)
    requires 0 < m && x == q * m + r && 0 <= r < m
    ensures x / m == q && x % m == r
  {
    DivMod(x, m);
    var d := x / m - q;
    Distribute(x / m, q, m);
    MulBounds(d, m);
  }

  /** Pulling a multiple of the modulus out of a numerator. */
  lemma DivShift(x: int, m: int, k: int)
    requires 0 < m
    ensures (x + k * m) / m == x / m + k
  {
    DivMod(x, m);
    Distribute(x / m, k, m);
    DivUnique(x + k * m, m, x / m + k, x % m);
  }

  lemma ModShift(x: int, m: int, k: int)
    requires 0 < m
    ensures (x + k * m) % m == x % m
  {
    DivMod(x, m);
    Distribute(x / m, k, m);
    DivUnique(x + k * m, m, x / m + k, x % m);
  }

  /** Reducing a summand first does not change a sum modulo m. */
  lemma ModAdd(x: int, k: int, m: int)
    requires 0 < m
    ensures (x % m + k) % m == (x + k) % m
  {
    DivMod(x, m);
    ModShift(x % m + k, m, x / m);
  }

  lemma DivMonotone(x: int, z: int, m: int)
    requires 0 < m && x <= z
    ensures x / m <= z / m
  {
    DivMod(x, m);
    DivMod(z, m);
    Distribute(x / m, z / m, m);
    MulBounds(x / m - z / m, m);
  }

  /** j * m <= x exactly when j <= floor(x / m). */
  lemma DivGalois(j: int, m: int, x: int)
    requires 0 < m
    ensures j * m <= x <==> j <= x / m
  {
    DivMod(x, m);
    Distribute(j, x / m, m);
    MulBounds(j - x / m, m);
    if j <= x / m { MulMonotone(j, x / m, m); }
  }

  lemma DivNonNegative(x: int, m: int)
    requires 0 <= x && 0 < m
    ensures 0 <= x / m <= x
  {
    DivGalois(0, m, x);
    DivMod(x, m);
    MulBounds(x / m - x, m);
    if x / m > x {
      MulMonotone(x + 1, x / m, m);
      Distribute(x, 1, m);
      MulMonotone(1, m, x);
    }
  }

  /** Dividing by a larger divisor gives no more. */
  lemma DivAntitone(x: int, m: int, d: int)
    requires 0 <= x && 0 < m <= d
    ensures x / d <= x / m
  {
    var q := x / d;
    DivNonNegative(x, d);
    DivGalois(q, d, x);
    MulMonotone(m, d, q);
    DivGalois(q, m, x);
  }

  /** Two successive floors are one floor by the product. */
  lemma DivDiv(x: int, m: int, d: int)
    requires 0 < m && 0 < d
    ensures 0 < m * d && (x / m) / d == x / (m * d)
  {
    MulBounds(m, d);
    DivMod(x, m);
    DivMod(x / m, d);
    var q, r1, r2 := (x / m) / d, x % m, (x / m) % d;
    assert x == q * (m * d) + (r2 * m + r1) by {
      assert (q * d + r2) * m == q * (m * d) + r2 * m;
    }
    MulMonotone(r2, d - 1, m);
    Distribute(d, 1, m);
    MulNonNegative(r2, m);
    DivUnique(x, m * d, q, r2 * m + r1);
  }

  function Pow2(d: nat): (p: nat)
    ensures p > 0
  {
    if d == 0 then 1 else 2 * Pow2(d - 1)
  }

  lemma {:induction false} Pow2Add(a: nat, b: nat)
    ensures Pow2(a + b) == Pow2(a) * Pow2(b)
  {
    if b > 0 {
      Pow2Add(a, b - 1);
    }
  }

  /** n * (n - 1) / 2, without dividing a product. */
  function Triangle(n: nat): nat {
    if n == 0 then 0 else Triangle(n - 1) + (n - 1)
  }

  lemma {:induction false} TriangleClosedForm(n: nat)
    ensures (n - 1) * n / 2 == Triangle(n)
  {
    if n > 0 {
      TriangleClosedForm(n - 1);
      assert (n - 1) * n == (n - 2) * (n - 1) + 2 * (n - 1);
    }
  }
}
