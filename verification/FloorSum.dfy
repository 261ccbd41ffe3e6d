/**
The logarithmic floor sum of the reward module, proved against the sum it replaces.

`SumFloors(n, m, a, b)` is the plain sum of the n floors (a*i + b) / m. The fast form
counts the same lattice points by rows instead of columns (a Euclid step: the roles of
a and m swap), which is what `Reciprocity` proves.
*/
module FloorSum {
  import opened Arith

  /** The reference: sum over i < n of floor((a*i + b) / m). */
  function SumFloors(n: nat, m: nat, a: nat, b: nat): nat
    requires 0 < m
  {
    if n == 0 then 0 else SumFloors(n - 1, m, a, b) + FloorAt(n - 1, m, a, b)
  }

  function FloorAt(i: nat, m: nat, a: nat, b: nat): nat
    requires 0 < m
  {
    MulNonNegative(a, i);
    DivNonNegative(a * i + b, m);
    (a * i + b) / m
  }

  lemma FloorAtReduced(i: nat, m: nat, a: nat, b: nat)
    requires 0 < m
    ensures FloorAt(i, m, a, b) == FloorAt(i, m, a % m, b % m) + (a / m) * i + b / m
  {
    var q, s, p, t := a / m, a % m, b / m, b % m;
    DivMod(a, m);
    DivMod(b, m);
    assert a * i == s * i + (q * i) * m;
    Distribute(q * i, p, m);
    DivShift(s * i + t, m, q * i + p);
  }

  /** Slopes and offsets at or above the modulus contribute in closed form. */
  lemma {:induction false} ReduceSlopeAndOffset(n: nat, m: nat, a: nat, b: nat)
    requires 0 < m
    ensures SumFloors(n, m, a, b) == Triangle(n) * (a / m) + n * (b / m) + SumFloors(n, m, a % m, b % m)
  {
    if n > 0 {
      ReduceSlopeAndOffset(n - 1, m, a, b);
      FloorAtReduced(n - 1, m, a, b);
      Distribute(Triangle(n - 1), n - 1, a / m);
      Distribute(n - 1, 1, b / m);
    }
  }

  /** ceil(x / a) and how far its multiple of a overshoots x. */
  function Ceiling(x: int, a: nat): int
    requires 0 < a
  {
    (x + a - 1) / a
  }

  function Overshoot(x: int, a: nat): (t: nat)
    requires 0 < a
    ensures t < a
  {
    (a - x % a) % a
  }

  lemma CeilingOvershoot(x: int, a: nat)
    requires 0 < a
    ensures x == Ceiling(x, a) * a - Overshoot(x, a)
  {
    var q, r := x / a, x % a;
    DivMod(x, a);
    Distribute(q, 1, a);
    if r == 0 {
      DivUnique(x + a - 1, a, q, a - 1);
      DivUnique(a, a, 1, 0);
    } else {
      DivUnique(x + a - 1, a, q + 1, r - 1);
      DivUnique(a - r, a, 0, a - r);
    }
  }

  lemma CeilingGalois(x: int, a: nat, i: int)
    requires 0 < a
    ensures Ceiling(x, a) <= i <==> x <= i * a
  {
    DivGalois(i + 1, a, x + a - 1);
    Distribute(i, 1, a);
  }

  /** The column where row j starts: the first i with a*i + b >= j*m. */
  function RowStart(j: int, m: nat, a: nat, b: nat): int
    requires 0 < a
  {
    Ceiling(j * m - b, a)
  }

  lemma RowStartMeaning(j: int, m: nat, a: nat, b: nat, i: nat)
    requires 0 < a && 0 < m
    ensures RowStart(j, m, a, b) <= i <==> j <= FloorAt(i, m, a, b)
  {
    CeilingGalois(j * m - b, a, i);
    DivGalois(j, m, a * i + b);
  }

  /** Points of the top `count` rows (rows y, y-1, ..., y-count+1) in the first n columns. */
  function TopRows(count: nat, y: nat, n: nat, m: nat, a: nat, b: nat): nat
    requires 0 < a && 0 < m
  {
    if count == 0 then 0
    else
      var c := RowStart(y - (count - 1), m, a, b);
      TopRows(count - 1, y, n, m, a, b) + (if 0 <= c <= n then n - c else 0)
  }

  lemma RowStartNonNegative(j: int, m: nat, a: nat, b: nat)
    requires 0 < a && b < m && 0 < j
    ensures 0 <= RowStart(j, m, a, b)
  {
    MulBounds(j, m);
    DivGalois(0, a, j * m - b + a - 1);
  }

  /** One more column adds one point to every row it reaches. */
  lemma {:induction false} AddColumn(count: nat, y: nat, n: nat, m: nat, a: nat, b: nat)
    requires 0 < a && b < m && count <= y && FloorAt(n, m, a, b) <= y
    ensures TopRows(count, y, n + 1, m, a, b) ==
            TopRows(count, y, n, m, a, b) +
            (if y - count < FloorAt(n, m, a, b) then FloorAt(n, m, a, b) - (y - count) else 0)
  {
    if count > 0 {
      AddColumn(count - 1, y, n, m, a, b);
      RowStartMeaning(y - (count - 1), m, a, b, n);
      RowStartNonNegative(y - (count - 1), m, a, b);
    }
  }

  lemma {:induction false} NoColumns(count: nat, y: nat, m: nat, a: nat, b: nat)
    requires 0 < a && b < m
    ensures TopRows(count, y, 0, m, a, b) == 0
  {
    if count > 0 {
      NoColumns(count - 1, y, m, a, b);
    }
  }

  lemma FloorAtMonotone(i: nat, k: nat, m: nat, a: nat, b: nat)
    requires 0 < m && i <= k
    ensures FloorAt(i, m, a, b) <= FloorAt(k, m, a, b)
  {
    MulMonotone(i, k, a);
    DivMonotone(a * i + b, a * k + b, m);
  }

  /** Counting by rows and counting by columns agree. */
  lemma {:induction false} RowsAreColumns(n: nat, y: nat, m: nat, a: nat, b: nat)
    requires 0 < a && b < m
    requires FloorAt(n, m, a, b) <= y
    ensures TopRows(y, y, n, m, a, b) == SumFloors(n, m, a, b)
  {
    if n == 0 {
      NoColumns(y, y, m, a, b);
    } else {
      FloorAtMonotone(n - 1, n, m, a, b);
      RowsAreColumns(n - 1, y, m, a, b);
      AddColumn(y, y, n - 1, m, a, b);
    }
  }

  /** Lowering x by z lowers the ceiling by floor((z + overshoot) / a). */
  lemma CeilingShift(x: int, z: int, a: nat)
    requires 0 < a
    ensures Ceiling(x - z, a) == Ceiling(x, a) - (z + Overshoot(x, a)) / a
  {
    var t, top := Overshoot(x, a), Ceiling(x, a);
    CeilingOvershoot(x, a);
    var f, r := (z + t) / a, (z + t) % a;
    DivMod(z + t, a);
    Distribute(top, f, a);
    DivUnique(x - z + a - 1, a, top - f, a - 1 - r);
  }

  /** Row y - k starts floor((m*k + t) / a) columns before row y does. */
  lemma RowIsFloor(k: nat, y: nat, m: nat, a: nat, b: nat)
    requires 0 < a && 0 < m
    ensures RowStart(y - k, m, a, b) ==
            RowStart(y, m, a, b) - FloorAt(k, a, m, Overshoot(y * m - b, a))
  {
    Distribute(y, k, m);
    RowIsFloorAt(k, m, a, y * m - b, (y - k) * m - b);
  }

  lemma RowIsFloorAt(k: nat, m: nat, a: nat, top: int, row: int)
    requires 0 < a && row == top - m * k
    ensures Ceiling(row, a) == Ceiling(top, a) - FloorAt(k, a, m, Overshoot(top, a))
  {
    CeilingShift(top, m * k, a);
  }

  /** The row counts are themselves floors, with the roles of slope and modulus swapped. */
  lemma {:induction false} RowsAreFloors(count: nat, y: nat, n: nat, m: nat, a: nat, b: nat)
    requires 0 < a && b < m && count <= y && y == FloorAt(n, m, a, b)
    ensures TopRows(count, y, n, m, a, b) ==
            count * (n - RowStart(y, m, a, b)) + SumFloors(count, a, m, Overshoot(y * m - b, a))
  {
    if count > 0 {
      RowsAreFloors(count - 1, y, n, m, a, b);
      RowIsFloor(count - 1, y, m, a, b);
      RowStartMeaning(y - (count - 1), m, a, b, n);
      RowStartNonNegative(y - (count - 1), m, a, b);
      Distribute(count - 1, 1, n - RowStart(y, m, a, b));
    }
  }

  lemma {:induction false} FlatSum(n: nat, m: nat, b: nat)
    requires b < m
    ensures SumFloors(n, m, 0, b) == 0
  {
    if n > 0 {
      FlatSum(n - 1, m, b);
      DivUnique(b, m, 0, b);
    }
  }

  /**
  The Euclid step: with a and b below m and y the floor at column n, the sum over
  n columns is a full rectangle plus a sum over y rows with a and m swapped.
  */
  lemma Reciprocity(n: nat, m: nat, a: nat, b: nat)
    requires 0 < a < m && b < m
    ensures var y := FloorAt(n, m, a, b);
      RowStart(y, m, a, b) <= n &&
      SumFloors(n, m, a, b) ==
        y * (n - RowStart(y, m, a, b)) + SumFloors(y, a, m, Overshoot(y * m - b, a))
  {
    var y := FloorAt(n, m, a, b);
    RowsAreColumns(n, y, m, a, b);
    RowsAreFloors(y, y, n, m, a, b);
    RowStartMeaning(y, m, a, b, n);
  }

  lemma NoRows(n: nat, m: nat, a: nat, b: nat)
    requires a < m && b < m && FloorAt(n, m, a, b) == 0
    ensures SumFloors(n, m, a, b) == 0
  {
    if a == 0 {
      FlatSum(n, m, b);
    } else {
      Reciprocity(n, m, a, b);
    }
  }

  /** What one level of the routine adds up. */
  lemma OneLevel(n: nat, m: nat, a0: nat, b0: nat)
    requires 0 < m
    ensures var a, b := a0 % m, b0 % m;
      var y := FloorAt(n, m, a, b);
      var outer := Triangle(n) * (a0 / m) + n * (b0 / m);
      if y == 0 then SumFloors(n, m, a0, b0) == outer
      else
        0 < a && 0 <= (n - RowStart(y, m, a, b)) * y &&
        SumFloors(n, m, a0, b0) ==
          outer + (n - RowStart(y, m, a, b)) * y + SumFloors(y, a, m, Overshoot(y * m - b, a))
  {
    var a, b := a0 % m, b0 % m;
    var y := FloorAt(n, m, a, b);
    ReduceSlopeAndOffset(n, m, a0, b0);
    if y == 0 {
      NoRows(n, m, a, b);
    } else {
      if a == 0 { DivUnique(b, m, 0, b); }
      Reciprocity(n, m, a, b);
      MulNonNegative(n - RowStart(y, m, a, b), y);
    }
  }

  lemma ClosedFormParts(n: nat, m: nat, a: nat, b: nat)
    requires 0 < m
    ensures (n - 1) * n / 2 * (a / m) == Triangle(n) * (a / m) >= 0
    ensures 0 <= n * (b / m)
    ensures a < m ==> a % m == a && Triangle(n) * (a / m) == 0
    ensures b < m ==> b % m == b && n * (b / m) == 0
  {
    TriangleClosedForm(n);
    DivNonNegative(a, m);
    DivNonNegative(b, m);
    MulNonNegative(Triangle(n), a / m);
    MulNonNegative(n, b / m);
    if a < m { DivUnique(a, m, 0, a); }
    if b < m { DivUnique(b, m, 0, b); }
  }

  /**
  The floor-sum routine with its mutable locals and its one recursive call.
  The source subtracts 1 from an unsigned n when a >= m, hence the precondition.
  */
  method FastFloorSum(n0: nat, m0: nat, a0: nat, b0: nat) returns (ans: nat)
    requires 0 < m0
    requires 0 < n0 || a0 < m0
    ensures ans == SumFloors(n0, m0, a0, b0)
    decreases m0
  {
    ClosedFormParts(n0, m0, a0, b0);
    OneLevel(n0, m0, a0, b0);
    ans := 0;
    var n, m, a, b := n0, m0, a0, b0;
    if a >= m {
      ans := ans + (n - 1) * n / 2 * (a / m);
      a := a % m;
    }
    if b >= m {
      ans := ans + n * (b / m);
      b := b % m;
    }
    var yMax := FloorAt(n, m, a, b);
    if yMax == 0 {
      return;
    }
    var xMax := yMax * m - b;
    ans := ans + (n - Ceiling(xMax, a)) * yMax;
    var rest := FastFloorSum(yMax, a, m, Overshoot(xMax, a));
    ans := ans + rest;
  }
}
