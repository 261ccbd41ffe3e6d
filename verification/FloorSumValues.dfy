/**
Exact values of the three floor sums in the emission schedule.

The sums run over up to 102751441 terms, so they are evaluated along the levels of the
Euclid descent: a `Ladder` lists the levels with their quotients, `Valid` checks each
level by products only, and `LadderIsSum` ties the ladder to the plain sum.
*/
module FloorSumValues {
  import opened Arith
  import opened FloorSum

  /** One rung per level: a slope a = qa * m + a', the floor y at n, the start c of row y. */
  datatype Ladder =
    | Done
    | Rung(n: nat, m: nat, a: nat, b: nat, qa: nat, y: nat, c: nat, next: Ladder)

  ghost predicate Valid(l: Ladder) {
    l.Rung? ==>
      var a := l.a - l.qa * l.m;
      && 0 <= a < l.m && l.b < l.m
      && l.y * l.m <= a * l.n + l.b < l.y * l.m + l.m
      && if l.y == 0 then l.next == Done
         else
           && l.next.Rung?
           && l.next.n == l.y && l.next.m == a && l.next.a == l.m
           && l.next.b == l.c * a - (l.y * l.m - l.b) < a
           && Valid(l.next)
  }

  ghost function Value(l: Ladder): int {
    match l
    case Done => 0
    case Rung(n, m, a, b, qa, y, c, next) => Triangle(n) * qa + (n - c) * y + Value(next)
  }

  /** A valid ladder adds up to the floor sum of its top rung. */
  lemma {:induction false} LadderIsSum(l: Ladder)
    requires l.Rung? && Valid(l)
    ensures Value(l) == SumFloors(l.n, l.m, l.a, l.b)
  {
    var n, m, a, b, y := l.n, l.m, l.a - l.qa * l.m, l.b, l.y;
    DivUnique(l.a, m, l.qa, a);
    DivUnique(b, m, 0, b);
    DivUnique(a * n + b, m, y, a * n + b - y * m);
    OneLevel(n, m, l.a, b);
    if y > 0 {
      RowStartUnique(y * m - b, a, l.c);
      LadderIsSum(l.next);
    }
  }

  lemma RowStartUnique(x: int, a: nat, c: nat)
    requires 0 < a && 0 <= c * a - x < a
    ensures c == Ceiling(x, a) && c * a - x == Overshoot(x, a)
  {
    CeilingOvershoot(x, a);
    Distribute(c, Ceiling(x, a), a);
    MulBounds(c - Ceiling(x, a), a);
  }

  ghost predicate Sums(l: Ladder, n: nat, m: nat, a: nat, b: nat, v: int) {
    l.Rung? && l.n == n && l.m == m && l.a == a && l.b == b && Valid(l) && Value(l) == v
  }

  /** One more level above a ladder worth v, every product supplied by the caller. */
  lemma Climb(l: Ladder, n: nat, m: nat, a0: nat, b: nat, qa: nat, a: nat, triangle: nat,
              y: nat, c: nat, t: nat, v: nat, w: int) returns (r: Ladder)
    requires if y == 0 then l == Done && v == 0 else Sums(l, y, a, m, t, v)
    requires a0 == qa * m + a && a < m && b < m
    requires y * m <= a * n + b < y * m + m
    requires y > 0 ==> c * a == y * m - b + t && t < a
    requires 2 * triangle == (n - 1) * n
    requires w == triangle * qa + (n - c) * y + v
    ensures Sums(r, n, m, a0, b, w)
  {
    TriangleClosedForm(n);
    r := Rung(n, m, a0, b, qa, y, c, l);
  }

  lemma YearSixLadderFoot() returns (l: Ladder)
    ensures Sums(l, 84, 84, 625, 0, 25896)
  {
    l := Done;
    l := Climb(l, 1, 1, 3, 0, 3, 0, 0, 0, 0, 0, 0, 0);
    l := Climb(l, 3, 3, 7, 0, 2, 1, 3, 1, 3, 0, 0, 6);
    l := Climb(l, 7, 7, 10, 0, 1, 3, 21, 3, 7, 0, 6, 27);
    l := Climb(l, 10, 10, 37, 0, 3, 7, 45, 7, 10, 0, 27, 162);
    l := Climb(l, 37, 37, 84, 0, 2, 10, 666, 10, 37, 0, 162, 1494);
    l := Climb(l, 84, 84, 625, 0, 7, 37, 3486, 37, 84, 0, 1494, 25896);
  }

  lemma YearSixLadderMiddle() returns (l: Ladder)
    ensures Sums(l, 40393, 40393, 74825, 0, 1511145504)
  {
    l := YearSixLadderFoot();
    l := Climb(l, 625, 625, 1334, 0, 2, 84, 195000, 84, 625, 0, 25896, 415896);
    l := Climb(l, 1334, 1334, 4627, 0, 3, 625, 889111, 625, 1334, 0, 415896, 3083229);
    l := Climb(l, 4627, 4627, 5961, 0, 1, 1334, 10702251, 1334, 4627, 0, 3083229, 13785480);
    l := Climb(l, 5961, 5961, 34432, 0, 5, 4627, 17763780, 4627, 5961, 0, 13785480, 102604380);
    l := Climb(l, 34432, 34432, 40393, 0, 1, 5961, 592764096, 5961, 34432, 0, 102604380, 695368476);
    l := Climb(l, 40393, 40393, 74825, 0, 1, 34432, 815777028, 34432, 40393, 0, 695368476, 1511145504);
  }

  /** Sum of floor(395976000 * d / 420479) over the 420480 blocks of year 6. */
  lemma YearSixLadder() returns (l: Ladder)
    ensures Sums(l, 420480, 420479, 395976000, 0, 83249994029761)
  {
    l := YearSixLadderMiddle();
    l := Climb(l, 74825, 74825, 115218, 0, 1, 40393, 2799352900, 40393, 74825, 0, 1511145504, 4310498404);
    l := Climb(l, 115218, 115218, 305261, 0, 2, 74825, 6637536153, 74825, 115218, 0, 4310498404, 17585570710);
    l := Climb(l, 305261, 305261, 420479, 0, 1, 115218, 46591986430, 115218, 305261, 0, 17585570710, 64177557140);
    l := Climb(l, 420480, 420479, 395976000, 0, 941, 305261, 88401504960, 305261, 420479, 0, 64177557140, 83249994029761);
  }

  lemma YearSevenLadderFoot() returns (l: Ladder)
    ensures Sums(l, 321, 321, 1639, 0, 262080)
  {
    l := Done;
    l := Climb(l, 1, 1, 3, 0, 3, 0, 0, 0, 0, 0, 0, 0);
    l := Climb(l, 3, 3, 4, 0, 1, 1, 3, 1, 3, 0, 0, 3);
    l := Climb(l, 4, 4, 15, 0, 3, 3, 6, 3, 4, 0, 3, 21);
    l := Climb(l, 15, 15, 34, 0, 2, 4, 105, 4, 15, 0, 21, 231);
    l := Climb(l, 34, 34, 321, 0, 9, 15, 561, 15, 34, 0, 231, 5280);
    l := Climb(l, 321, 321, 1639, 0, 5, 34, 51360, 34, 321, 0, 5280, 262080);
  }

  /** Sum of floor(337709200 * d / 420479) over the 420480 blocks of year 7. */
  lemma YearSevenLadder() returns (l: Ladder)
    ensures Sums(l, 420480, 420479, 337709200, 0, 70999981997761)
  {
    l := YearSevenLadderFoot();
    l := Climb(l, 1639, 1639, 31462, 0, 19, 321, 1342341, 321, 1639, 0, 262080, 25766559);
    l := Climb(l, 31462, 31462, 33101, 0, 1, 1639, 494912991, 1639, 31462, 0, 25766559, 520679550);
    l := Climb(l, 33101, 33101, 64563, 0, 1, 31462, 547821550, 31462, 33101, 0, 520679550, 1068501100);
    l := Climb(l, 64563, 64563, 420479, 0, 6, 33101, 2084158203, 33101, 64563, 0, 1068501100, 13573450318);
    l := Climb(l, 420480, 420479, 337709200, 0, 803, 64563, 88401504960, 64563, 420479, 0, 13573450318, 70999981997761);
  }

  lemma LongTailLadderFoot() returns (l: Ladder)
    ensures Sums(l, 316, 404, 2907, 0, 357965)
  {
    l := Done;
    l := Climb(l, 1, 1, 2, 0, 2, 0, 0, 0, 0, 0, 0, 0);
    l := Climb(l, 2, 2, 7, 0, 3, 1, 1, 1, 2, 0, 0, 3);
    l := Climb(l, 5, 7, 9, 4, 1, 2, 10, 2, 5, 0, 3, 13);
    l := Climb(l, 7, 9, 79, 0, 8, 7, 21, 5, 7, 4, 13, 181);
    l := Climb(l, 61, 79, 404, 4, 5, 9, 1830, 7, 61, 0, 181, 9331);
    l := Climb(l, 316, 404, 2907, 0, 7, 79, 49770, 61, 312, 4, 9331, 357965);
  }

  lemma LongTailLadderMiddle() returns (l: Ladder)
    ensures Sums(l, 153331, 196315, 238146, 0, 14259837621)
  {
    l := LongTailLadderFoot();
    l := Climb(l, 2270, 2907, 3311, 1532, 1, 404, 2575315, 316, 2270, 0, 357965, 2933280);
    l := Climb(l, 2586, 3311, 12840, 0, 3, 2907, 3342405, 2270, 2586, 1532, 2933280, 12960495);
    l := Climb(l, 10028, 12840, 28991, 1532, 2, 3311, 50275378, 2586, 10028, 0, 12960495, 113511251);
    l := Climb(l, 22643, 28991, 41831, 0, 1, 12840, 256341403, 10028, 22642, 1532, 113511251, 369862682);
    l := Climb(l, 32671, 41831, 196315, 14372, 4, 28991, 533680785, 22643, 32671, 0, 369862682, 2504585822);
    l := Climb(l, 153331, 196315, 238146, 0, 1, 41831, 11755121115, 32671, 153327, 14372, 2504585822, 14259837621);
  }

  /** Sum of floor(9513000 * d / 131556809) over the 102751441 sloped blocks of the last segment. */
  lemma LongTailLadder() returns (l: Ladder)
    ensures Sums(l, 102751441, 131556809, 9513000, 0, 381724425335556)
  {
    l := LongTailLadderMiddle();
    l := Climb(l, 186002, 238146, 1387045, 181696, 5, 196315, 17298279001, 153331, 186002, 0, 14259837621, 100751232626);
    l := Climb(l, 1083341, 1387045, 1625191, 0, 1, 238146, 586813319470, 186002, 1083341, 181696, 100751232626, 687564552096);
    l := Climb(l, 1269343, 1625191, 7887809, 181696, 4, 1387045, 805615191153, 1083341, 1269343, 0, 687564552096, 3910025316708);
    l := Climb(l, 6160713, 7887809, 9513000, 0, 1, 1625191, 18977189253828, 1269343, 6160713, 181696, 3910025316708, 22887214570536);
    l := Climb(l, 7430056, 9513000, 131556809, 181696, 13, 7887809, 27602862366540, 6160713, 7430056, 0, 22887214570536, 381724425335556);
    l := Climb(l, 102751441, 131556809, 9513000, 0, 0, 9513000, 5278929262412520, 7430056, 102751441, 181696, 381724425335556, 381724425335556);
  }
}
