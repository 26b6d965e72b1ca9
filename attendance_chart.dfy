/**
 * The attendance chart: the share of students present as a whole percentage, and the length
 * of the coloured arc on a ring whose full circumference is drawn as 565.
 */
module AttendanceChart {
  /** The dash length of the full ring. */
  const Circumference: real := 565.0

  /**
   * `Math.round((present / total) * 100)`, or 0 with no records: the whole number nearest to
   * `100 * present / total`, halves rounded up.
   */
  function Percentage(present: nat, total: nat): (pct: nat)
    ensures total == 0 ==> pct == 0
    ensures total > 0 ==> 2 * total * pct <= 200 * present + total < 2 * total * (pct + 1)
  {
    if total == 0 then 0
    else
      var q := (200 * present + total) / (2 * total);
      DivBounds(200 * present + total, 2 * total);
      q
  }

  /** Euclidean division brackets its dividend. */
  lemma DivBounds(a: nat, b: nat)
    requires b > 0
    ensures b * (a / b) <= a < b * (a / b + 1)
  {
  }

  /** The percentage is the only whole number within a half of `100 * present / total`. */
  lemma PercentageUnique(present: nat, total: nat, r: nat)
    requires total > 0 && 2 * total * r <= 200 * present + total < 2 * total * (r + 1)
    ensures r == Percentage(present, total)
  {
    var pct := Percentage(present, total);
    if r < pct {
      MulLe(2 * total, r + 1, pct);
    } else if r > pct {
      MulLe(2 * total, pct + 1, r);
    }
  }

  lemma MulLe(k: nat, a: nat, b: nat)
    requires a <= b
    ensures k * a <= k * b
  {
  }

  /**
   * With no more present than records the percentage lies in 0..100; it is 0 with nobody
   * present, 100 with everybody present, and never falls when more students are present.
   */
  lemma PercentageRange(present: nat, present2: nat, total: nat)
    requires present <= present2 <= total
    ensures 0 <= Percentage(present, total) <= 100
    ensures present == 0 ==> Percentage(present, total) == 0
    ensures total > 0 && present == total ==> Percentage(present, total) == 100
    ensures Percentage(present, total) <= Percentage(present2, total)
  {
    if total > 0 {
      var pct := Percentage(present, total);
      var pct2 := Percentage(present2, total);
      MulLe(200, present, total);
      MulLe(200, present, present2);
      if pct > 100 {
        MulLe(2 * total, 101, pct);
      }
      if present == 0 {
        PercentageUnique(0, total, 0);
      }
      if present == total {
        PercentageUnique(total, total, 100);
      }
      if pct > pct2 {
        MulLe(2 * total, pct2 + 1, pct);
      }
    }
  }

  /** `(percentage * 565) / 100`: the arc is the same share of the ring as the percentage is of 100. */
  function Arc(pct: nat): (a: real)
    ensures a * 100.0 == pct as real * Circumference
  {
    pct as real * Circumference / 100.0
  }

  /** The arc never exceeds the ring: it is empty at 0 % and closes it at 100 %. */
  lemma ArcBound(present: nat, total: nat)
    requires present <= total
    ensures 0.0 <= Arc(Percentage(present, total)) <= Circumference
    ensures present == 0 ==> Arc(Percentage(present, total)) == 0.0
    ensures total > 0 && present == total ==> Arc(Percentage(present, total)) == Circumference
  {
    PercentageRange(present, present, total);
  }
}
