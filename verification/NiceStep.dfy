/** The 1-2-5 step of an axis grid, over exact reals. */
module NiceStep {

  /** The share of `v` a step has to reach: one less a tolerance of 1e-12. */
  const SHARE := 1.0 - 0.000000000001

  function Pow10(k: int): (p: real)
    ensures p > 0.0
    decreases if k < 0 then -k else k
  {
    if k == 0 then 1.0 else if k > 0 then 10.0 * Pow10(k - 1) else Pow10(k + 1) / 10.0
  }

  /** The exponent of the decade of `v`: what floor(log10(v)) is without rounding. */
  function Exponent(v: real): (k: int)
    requires v > 0.0
    ensures Pow10(k) <= v < Pow10(k + 1)
    decreases v < 1.0, if v < 1.0 then (1.0 / v).Floor else v.Floor
  {
    if v >= 10.0 then
      var k := Exponent(v / 10.0);
      k + 1
    else if v < 1.0 then
      assert 1.0 / (10.0 * v) == (1.0 / v) / 10.0;
      var k := Exponent(10.0 * v);
      k - 1
    else
      0
  }

  /** The loop over the four multipliers, for whatever decade it was given. */
  function FirstFit(v: real, decade: real): real {
    if decade >= v * SHARE then decade
    else if 2.0 * decade >= v * SHARE then 2.0 * decade
    else if 5.0 * decade >= v * SHARE then 5.0 * decade
    else if 10.0 * decade >= v * SHARE then 10.0 * decade
    else 10.0 * decade
  }

  function Step(v: real): real {
    if v <= 0.0 then 1.0 else FirstFit(v, Pow10(Exponent(v)))
  }

  /** The nice numbers: one, two or five times a power of ten. */
  ghost predicate IsNice(x: real) {
    exists k :: x == Pow10(k) || x == 2.0 * Pow10(k) || x == 5.0 * Pow10(k)
  }

  // ------------------------------------------------------------ the decades

  lemma Pow10Next(k: int)
    ensures Pow10(k + 1) == 10.0 * Pow10(k)
  {
  }

  lemma {:induction false} DecadesApart(j: int, k: int)
    requires j < k
    ensures 10.0 * Pow10(j) <= Pow10(k)
    decreases k - j
  {
    Pow10Next(j);
    if j + 1 == k {
    } else {
      DecadesApart(j + 1, k);
    }
  }

  /** Every positive number lies in exactly one decade. */
  lemma DecadeIsUnique(v: real, k: int)
    requires v > 0.0
    ensures Pow10(k) <= v < Pow10(k + 1) <==> k == Exponent(v)
  {
    var e := Exponent(v);
    if k < e {
      DecadesApart(k, e);
      Pow10Next(k);
    } else if e < k {
      DecadesApart(e, k);
      Pow10Next(e);
    }
  }

  // ---------------------------------------------------- the least nice step

  /** Two different nice numbers are at least a factor of two apart. */
  lemma NiceNumbersApart(x: real, y: real)
    requires IsNice(x) && IsNice(y) && x < y
    ensures 2.0 * x <= y
  {
    var j :| x == Pow10(j) || x == 2.0 * Pow10(j) || x == 5.0 * Pow10(j);
    var k :| y == Pow10(k) || y == 2.0 * Pow10(k) || y == 5.0 * Pow10(k);
    if j < k {
      DecadesApart(j, k);
    } else if k < j {
      DecadesApart(k, j);
    }
  }

  lemma StepIsNice(v: real)
    ensures IsNice(Step(v))
  {
    if v <= 0.0 {
      assert Step(v) == Pow10(0);
    } else {
      Pow10Next(Exponent(v));
    }
  }

  lemma StepReaches(v: real)
    requires v > 0.0
    ensures v * SHARE <= Step(v) < 2.5 * v
  {
    Pow10Next(Exponent(v));
  }

  /** The step is the least nice number that reaches `v` up to the tolerance,
      and never two and a half times as large. */
  lemma StepIsLeast(v: real)
    requires v > 0.0
    ensures IsNice(Step(v)) && v * (1.0 - 0.000000000001) <= Step(v) < 2.5 * v
    ensures forall n :: IsNice(n) && v * (1.0 - 0.000000000001) <= n ==> Step(v) <= n
  {
    StepIsNice(v);
    StepReaches(v);
    forall n | IsNice(n) && v * SHARE <= n
      ensures Step(v) <= n
    {
      if n < Step(v) {
        NiceNumbersApart(n, Step(v));
        NoSmallerFit(v, n);
      }
    }
  }

  lemma NoSmallerFit(v: real, n: real)
    requires v > 0.0 && IsNice(n) && n < Step(v)
    ensures n < v * SHARE
  {
    var e := Exponent(v);
    var k :| n == Pow10(k) || n == 2.0 * Pow10(k) || n == 5.0 * Pow10(k);
    if k < e {
      DecadesApart(k, e);
    } else if e < k {
      DecadesApart(e, k);
    }
  }

  /** The documented "at least v" holds exactly when no nice number lies just below `v`. */
  lemma StepIsAtLeastV(v: real)
    requires v > 0.0
    ensures Step(v) >= v <==> !exists n :: IsNice(n) && v * (1.0 - 0.000000000001) <= n < v
  {
    StepIsLeast(v);
  }

  /** A number half a tolerance above one gets the step one: less than the number. */
  lemma StepCanBeBelowV()
    ensures Step(1.0000000000005) == 1.0
  {
    var v := 1.0000000000005;
    assert Pow10(0) == 1.0 && Pow10(1) == 10.0;
    DecadeIsUnique(v, 0);
  }

  // --------------------------------------------------- algebra of the step

  lemma StepIsMonotone(v: real, w: real)
    requires 0.0 < v <= w
    ensures Step(v) <= Step(w)
  {
    StepIsLeast(v);
    StepIsLeast(w);
  }

  lemma StepScales(v: real)
    requires v > 0.0
    ensures Step(10.0 * v) == 10.0 * Step(v)
  {
    var k := Exponent(v);
    Pow10Next(k);
    Pow10Next(k + 1);
    DecadeIsUnique(10.0 * v, k + 1);
  }

  /** The fixed points are the nice numbers, so the step of a step is itself. */
  lemma StepFixesNice(v: real)
    ensures Step(v) == v <==> IsNice(v)
    ensures Step(Step(v)) == Step(v)
  {
    StepIsNice(v);
    NiceIsFixed(Step(v));
    if IsNice(v) {
      NiceIsFixed(v);
    }
  }

  lemma NiceIsFixed(n: real)
    requires IsNice(n)
    ensures n > 0.0 && Step(n) == n
  {
    StepIsLeast(n);
    if Step(n) < n {
      NiceNumbersApart(Step(n), n);
    }
  }

  /** Asking for one per cent more than a nice number gives the next nice one. */
  lemma NextNice(d: real)
    requires IsNice(d)
    ensures d > 0.0 && IsNice(Step(d * 1.01)) && 2.0 * d <= Step(d * 1.01)
    ensures forall n :: IsNice(n) && d < n ==> Step(d * 1.01) <= n
  {
    hide Step, IsNice;
    NiceIsFixed(d);
    StepIsLeast(d * 1.01);
    NiceNumbersApart(d, Step(d * 1.01));
    forall n | IsNice(n) && d < n
      ensures Step(d * 1.01) <= n
    {
      NiceNumbersApart(d, n);
    }
  }

  // --------------------------------------------------------- a wrong decade

  /** A decade guessed one too high or too low (a log10 rounded the wrong way) gives
      the step of the exact one on these numbers, and on no others; a guess further
      off never does. */
  lemma GuessedDecade(v: real, g: int)
    requires v > 0.0
    ensures FirstFit(v, Pow10(g)) == Step(v) <==>
            var k := Exponent(v);
            || g == k
            || (g == k + 1 && v * (1.0 - 0.000000000001) > 5.0 * Pow10(k))
            || (g == k - 1 && v * (1.0 - 0.000000000001) <= Pow10(k))
  {
    hide FirstFit, Pow10;
    var k := Exponent(v);
    Pow10Next(k);
    Pow10Next(k - 1);
    if g > k + 1 {
      DecadesApart(k + 1, g);
      TooHigh(v, Pow10(k), Pow10(g));
    } else if g < k - 1 {
      DecadesApart(g, k - 1);
      TooLow(v, Pow10(k), Pow10(g));
    } else {
      OneOff(v, Pow10(k));
    }
  }

  lemma TooHigh(v: real, d: real, guess: real)
    requires 0.0 < d <= v < 10.0 * d && 100.0 * d <= guess
    ensures FirstFit(v, guess) > FirstFit(v, d)
  {
  }

  lemma TooLow(v: real, d: real, guess: real)
    requires 0.0 < d <= v < 10.0 * d && 0.0 < guess <= d / 100.0
    ensures FirstFit(v, guess) < FirstFit(v, d)
  {
  }

  lemma OneOff(v: real, d: real)
    requires 0.0 < d <= v < 10.0 * d
    ensures FirstFit(v, 10.0 * d) == FirstFit(v, d) <==> v * SHARE > 5.0 * d
    ensures FirstFit(v, d / 10.0) == FirstFit(v, d) <==> v * SHARE <= d
  {
  }

  /** The statement after the loop is reached exactly when the decade guessed is too
      low for ten of it to reach `v`: never with the exact decade. It is ten of the guess then. */
  lemma FallbackReached(v: real, g: int)
    requires v > 0.0
    ensures 10.0 * Pow10(g) < v * (1.0 - 0.000000000001) <==>
            var k := Exponent(v);
            g <= k - 2 || (g == k - 1 && Pow10(k) < v * (1.0 - 0.000000000001))
    ensures 10.0 * Pow10(g) < v * (1.0 - 0.000000000001) ==> FirstFit(v, Pow10(g)) == 10.0 * Pow10(g)
  {
    var k := Exponent(v);
    Pow10Next(k);
    Pow10Next(k - 1);
    if k < g {
      DecadesApart(k, g);
    } else if g < k - 1 {
      DecadesApart(g, k - 1);
    }
  }

  // ------------------------------------------------------ the grid of an axis

  /** How far the grid of eight steps from `first` reaches over [min, max], up to a
      billionth of a step on either side. */
  ghost predicate Covers(first: real, step: real, min: real, max: real) {
    first <= min + 0.000000001 * step && max - 0.000000001 * step <= first + 8.0 * step
  }

  /** So many steps. */
  function Steps(n: int, step: real): real { n as real * step }

  /** The grid line at or below `min`: floor(min / step + 1e-9) * step. */
  function FirstLine(min: real, step: real): real
    requires step > 0.0
  {
    Steps((min / step + 0.000000001).Floor, step)
  }

  /** A whole number of steps. */
  ghost predicate OnGrid(line: real, step: real) { exists n :: line == Steps(n, step) }

  /** It is the last line on the grid at or below `min`, up to a billionth of a step. */
  lemma FirstLineIsClose(min: real, step: real)
    requires step > 0.0
    ensures OnGrid(FirstLine(min, step), step)
    ensures min + 0.000000001 * step - step < FirstLine(min, step) <= min + 0.000000001 * step
  {
    hide Steps, OnGrid;
    var q := min / step;
    var c := q + 0.000000001;
    Quotient(min, step);
    Distribute(q, 0.000000001, step);
    StepsBelow(c, step);
  }

  lemma Quotient(x: real, s: real)
    requires s > 0.0
    ensures (x / s) * s == x
  {
  }

  lemma StepsBelow(c: real, step: real)
    requires step > 0.0
    ensures OnGrid(Steps(c.Floor, step), step)
    ensures c * step - step < Steps(c.Floor, step) <= c * step
  {
    var n := c.Floor as real;
    ScaleOrder(c + -1.0, n, step);
    ScaleOrder(n, c, step);
    Distribute(c, -1.0, step);
  }

  lemma Distribute(x: real, y: real, s: real)
    ensures (x + y) * s == x * s + y * s
  {
  }

  lemma ScaleOrder(x: real, y: real, s: real)
    requires s > 0.0
    ensures x < y ==> x * s < y * s
    ensures x <= y ==> x * s <= y * s
  {
  }

  /** The axis range in eight divisions: the step grows until the grid covers
      [min, max], which takes one growth at most. */
  method GridRange(min: real, max: real) returns (first: real, step: real)
    requires min < max
    ensures IsNice(step) && step > 0.0 && Covers(first, step, min, max)
    ensures first <= min + 0.000000001 * step && max - 0.000000001 * step <= first + 8.0 * step
    ensures OnGrid(first, step) && min + 0.000000001 * step - step < first == FirstLine(min, step)
    ensures var s0 := Step((max - min) / 8.0);
            || step == s0
            || (step == Step(s0 * 1.01) && !Covers(FirstLine(min, s0), s0, min, max))
  {
    hide Step, FirstLine, IsNice, OnGrid;
    step := Step((max - min) / 8.0);
    ghost var s0 := step;
    StepIsLeast((max - min) / 8.0);
    NextNice(s0);
    first := FirstLine(min, step);
    FirstLineIsClose(min, step);
    while first + 8.0 * step < max - step * 0.000000001
      invariant step == s0 || (step == Step(s0 * 1.01) && !Covers(FirstLine(min, s0), s0, min, max))
      invariant step > 0.0 && first == FirstLine(min, step) && OnGrid(first, step)
      invariant min + 0.000000001 * step - step < first <= min + 0.000000001 * step
      decreases step == s0
    {
      step := Step(step * 1.01);
      first := FirstLine(min, step);
      FirstLineIsClose(min, step);
    }
    StepIsNice(s0 * 1.01);
  }
}
