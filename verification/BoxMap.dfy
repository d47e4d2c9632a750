/** The folding box transform, in exact arithmetic. */
module BoxMap {
  // It relates latent optimizer coordinates and bounded parameter values.

  import opened Common

  /** A finite bound, or none on that side. */
  type Bound = Option<real>

  /** Bounds with the widths of their quadratic margins. */
  datatype Box = Box(lower: Bound, upper: Bound, al: real, au: real)

  predicate Bounded(box: Box) {
    box.lower.Some? && box.upper.Some?
  }

  /** Margins are positive and together fit a finite box. */
  predicate Proper(box: Box) {
    && box.al > 0.0 && box.au > 0.0
    && (Bounded(box) ==>
          && box.lower.value < box.upper.value
          && 2.0 * box.al <= box.upper.value - box.lower.value
          && 2.0 * box.au <= box.upper.value - box.lower.value)
  }

  predicate Ordered(lower: Bound, upper: Bound) {
    lower.Some? && upper.Some? ==> lower.value < upper.value
  }

  function Abs(x: real): real {
    if x < 0.0 then -x else x
  }

  function Min(a: real, b: real): real {
    if b < a then b else a
  }

  function BoxOf(lower: Bound, upper: Bound): (box: Box)
    requires Ordered(lower, upper)
    ensures Proper(box) && box.lower == lower && box.upper == upper
  {
    var al := if lower.None? then 1.0
      else if upper.None? then (1.0 + Abs(lower.value)) / 20.0
      else Min((upper.value - lower.value) / 2.0, (1.0 + Abs(lower.value)) / 20.0);
    var au := if upper.None? then 1.0
      else if lower.None? then (1.0 + Abs(upper.value)) / 20.0
      else Min((upper.value - lower.value) / 2.0, (1.0 + Abs(upper.value)) / 20.0);
    Box(lower, upper, al, au)
  }

  predicate Within(x: real, lower: Bound, upper: Bound) {
    (lower.Some? ==> lower.value <= x) && (upper.Some? ==> x <= upper.value)
  }

  // ---- The fold -----------------------------------------------------------------------

  function WindowStart(box: Box): real
    requires Bounded(box)
  {
    box.lower.value - 2.0 * box.al - (box.upper.value - box.lower.value) / 2.0
  }

  function WindowEnd(box: Box): real
    requires Bounded(box)
  {
    box.upper.value + 2.0 * box.au + (box.upper.value - box.lower.value) / 2.0
  }

  function Period(box: Box): real
    requires Bounded(box)
  {
    2.0 * (box.upper.value - box.lower.value + box.al + box.au)
  }

  /** How many periods a far-away coordinate is shifted. */
  function Turns(x: real, box: Box): int
    requires Bounded(box) && Proper(box)
  {
    ((x - WindowStart(box)) / Period(box)).Floor
  }

  /** Shifts a far-away coordinate by whole periods into the window. */
  function Wrap(x: real, box: Box): real
    requires Proper(box)
  {
    if Bounded(box) && (x < WindowStart(box) || x > WindowEnd(box)) then x - Period(box) * Turns(x, box) as real else x
  }

  /** Reflects a coordinate that lies beyond a margin back towards the box. */
  function Reflect(x: real, box: Box): real {
    var y := if box.upper.Some? && x > box.upper.value + box.au then x - 2.0 * (x - box.upper.value - box.au) else x;
    if box.lower.Some? && y < box.lower.value - box.al then y + 2.0 * (box.lower.value - box.al - y) else y
  }

  function SquareOver(d: real, a: real): real
    requires a > 0.0
  {
    d * d / (4.0 * a)
  }

  /** Squeezes the two margins into the box and keeps its middle. */
  function Squeeze(x: real, box: Box): real
    requires Proper(box)
  {
    if box.lower.Some? && x < box.lower.value + box.al then
      box.lower.value + SquareOver(x - (box.lower.value - box.al), box.al)
    else if box.upper.None? || x < box.upper.value - box.au then x
    else box.upper.value - SquareOver(x - (box.upper.value + box.au), box.au)
  }

  function Fold(x: real, box: Box): real
    requires Proper(box)
  {
    Squeeze(Reflect(Wrap(x, box), box), box)
  }

  function Linquad(x: real, lower: Bound, upper: Bound): real
    requires Ordered(lower, upper)
  {
    Fold(x, BoxOf(lower, upper))
  }

  // ---- The fold lands in the box -----------------------------------------------------------

  lemma WindowIsOnePeriod(box: Box)
    requires Bounded(box) && Proper(box)
    ensures WindowEnd(box) == WindowStart(box) + Period(box) && Period(box) > 0.0
  {
  }

  lemma MulPositive(a: real, b: real)
    requires a >= 0.0 && b >= 0.0
    ensures a * b >= 0.0
    ensures a > 0.0 && b > 0.0 ==> a * b > 0.0
  {
  }

  lemma Remainder(x: real, period: real, q: real, n: real)
    requires period > 0.0 && x == period * q && 0.0 <= q - n < 1.0
    ensures period * n <= x && x < period * n + period
  {
    var r := q - n;
    assert q == n + r;
    assert x == period * n + period * r;
    MulPositive(period, r);
    MulPositive(period, 1.0 - r);
    var part := period * r;
    assert period * (1.0 - r) == period - part;
  }

  /** What is left of an offset after whole periods is less than a period. */
  lemma WholeTurns(offset: real, period: real)
    requires period > 0.0
    ensures period * (offset / period).Floor as real <= offset
    ensures offset < period * (offset / period).Floor as real + period
  {
    var q := offset / period;
    assert offset == period * q;
    Remainder(offset, period, q, q.Floor as real);
  }

  predicate InWindow(x: real, box: Box) {
    Bounded(box) ==> WindowStart(box) <= x <= WindowEnd(box)
  }

  lemma WrapInWindow(x: real, box: Box)
    requires Proper(box)
    ensures InWindow(Wrap(x, box), box)
  {
    if Bounded(box) {
      WindowIsOnePeriod(box);
      WholeTurns(x - WindowStart(box), Period(box));
    }
  }

  predicate InMargins(x: real, box: Box) {
    (box.lower.Some? ==> box.lower.value - box.al <= x) && (box.upper.Some? ==> x <= box.upper.value + box.au)
  }

  lemma ReflectInMargins(x: real, box: Box)
    requires Proper(box) && InWindow(x, box)
    ensures InMargins(Reflect(x, box), box)
  {
  }

  lemma Quotient(n: real, d: real, high: real)
    requires d > 0.0 && 0.0 <= n <= high * d
    ensures 0.0 <= n / d <= high
  {
    var q := n / d;
    assert n == q * d;
  }

  /** The square of a distance of at most two margins takes at most one margin. */
  lemma SquareInMargin(d: real, a: real)
    requires a > 0.0 && -2.0 * a <= d <= 2.0 * a
    ensures 0.0 <= SquareOver(d, a) <= a
  {
    var gap := (2.0 * a - d) * (2.0 * a + d);
    assert gap >= 0.0;
    assert gap == 4.0 * a * a - d * d;
    assert d * d >= 0.0;
    assert a * (4.0 * a) == 4.0 * a * a;
    Quotient(d * d, 4.0 * a, a);
  }

  lemma SqueezeInBox(y: real, box: Box)
    requires Proper(box) && InMargins(y, box)
    ensures Within(Squeeze(y, box), box.lower, box.upper)
  {
    if box.lower.Some? && y < box.lower.value + box.al {
      SquareInMargin(y - (box.lower.value - box.al), box.al);
    } else if box.upper.Some? && y >= box.upper.value - box.au {
      SquareInMargin(y - (box.upper.value + box.au), box.au);
    }
  }

  /** Every real folds into the box, one-sided boxes included. */
  lemma LinquadInBox(x: real, lower: Bound, upper: Bound)
    requires Ordered(lower, upper)
    ensures Within(Linquad(x, lower, upper), lower, upper)
  {
    var box := BoxOf(lower, upper);
    WrapInWindow(x, box);
    ReflectInMargins(Wrap(x, box), box);
    SqueezeInBox(Reflect(Wrap(x, box), box), box);
  }

  // ---- The fold is periodic -----------------------------------------------------------------

  lemma WindowEndsAgree(box: Box)
    requires Proper(box) && Bounded(box)
    ensures Reflect(WindowStart(box), box) == Reflect(WindowEnd(box), box)
  {
  }

  /** How many periods `Wrap` takes away. */
  function Taken(x: real, box: Box): int
    requires Bounded(box) && Proper(box)
  {
    if x < WindowStart(box) || x > WindowEnd(box) then Turns(x, box) else 0
  }

  lemma Distribute(period: real, n: int, m: int, k: int)
    ensures period * n as real - period * m as real + period * k as real == period * (n - m + k) as real
  {
    assert (n - m + k) as real == n as real - m as real + k as real;
  }

  /** The shift of a coordinate and what wrapping takes away, in whole periods. */
  lemma WrapsApart(x: real, box: Box, n: int)
    requires Bounded(box) && Proper(box)
    ensures var shifted := x + Period(box) * n as real;
      Wrap(shifted, box) - Wrap(x, box) == Period(box) * (n - Taken(shifted, box) + Taken(x, box)) as real
  {
    var shifted := x + Period(box) * n as real;
    Distribute(Period(box), n, Taken(shifted, box), Taken(x, box));
  }

  /** On a finite box the fold repeats with period 2 (upper - lower + al + au). */
  lemma LinquadPeriodic(x: real, lower: Bound, upper: Bound, box: Box, n: int)
    requires Ordered(lower, upper) && lower.Some? && upper.Some? && box == BoxOf(lower, upper)
    ensures Period(box) == 2.0 * (upper.value - lower.value + box.al + box.au)
    ensures Linquad(x + Period(box) * n as real, lower, upper) == Linquad(x, lower, upper)
  {
    FoldPeriodic(x, box, n);
  }

  lemma FoldPeriodic(x: real, box: Box, n: int)
    requires Bounded(box) && Proper(box)
    ensures Fold(x + Period(box) * n as real, box) == Fold(x, box)
  {
    var shifted := x + Period(box) * n as real;
    WrapInWindow(x, box);
    WrapInWindow(shifted, box);
    WrapsApart(x, box, n);
    SameFold(Wrap(x, box), Wrap(shifted, box), box, n - Taken(shifted, box) + Taken(x, box));
  }

  lemma WholePeriods(a: real, b: real, start: real, period: real, j: real)
    requires period > 0.0 && start <= a <= start + period && start <= b <= start + period
    requires b - a == period * j && (j == 0.0 || j == 1.0 || j == -1.0 || j >= 2.0 || j <= -2.0)
    ensures a == b || (a == start && b == start + period) || (b == start && a == start + period)
  {
    if j >= 2.0 {
      MulPositive(period, j - 2.0);
      assert period * (j - 2.0) == period * j - 2.0 * period;
    } else if j <= -2.0 {
      MulPositive(period, -j - 2.0);
      assert period * (-j - 2.0) == -(period * j) - 2.0 * period;
    } else if j == 0.0 {
    } else if j == 1.0 {
      assert b - a == period;
    } else {
      assert b - a == -period;
    }
  }

  /** Window coordinates a whole number of periods apart reflect alike. */
  lemma SameFold(a: real, b: real, box: Box, j: int)
    requires Bounded(box) && Proper(box) && InWindow(a, box) && InWindow(b, box)
    requires b - a == Period(box) * j as real
    ensures Reflect(a, box) == Reflect(b, box)
  {
    WindowIsOnePeriod(box);
    WholePeriods(a, b, WindowStart(box), Period(box), j as real);
    WindowEndsAgree(box);
  }

  // ---- The right inverse ---------------------------------------------------------------------

  /** The latent coordinate of a bounded one; the square root is a parameter. */
  function LatentIn(y: real, box: Box, sqrt: real -> real): real {
    if box.lower.Some? && y < box.lower.value + box.al then
      box.lower.value - box.al + 2.0 * sqrt(Scaled(box.al, y - box.lower.value))
    else if box.upper.None? || y < box.upper.value - box.au then y
    else box.upper.value + box.au - 2.0 * sqrt(Scaled(box.au, box.upper.value - y))
  }

  function Latent(y: real, lower: Bound, upper: Bound, sqrt: real -> real): real
    requires Ordered(lower, upper)
  {
    LatentIn(y, BoxOf(lower, upper), sqrt)
  }

  function Scaled(margin: real, distance: real): real {
    margin * distance
  }

  ghost predicate IsSqrt(sqrt: real -> real) {
    forall a :: a >= 0.0 ==> sqrt(a) >= 0.0 && sqrt(a) * sqrt(a) == a
  }

  lemma SquareGrows(s: real, a: real)
    requires 0.0 <= a < s
    ensures a * a < s * s
  {
    MulPositive(s - a, s + a);
    assert (s - a) * (s + a) == s * s - a * a;
  }

  lemma ProductBelow(a: real, d: real)
    requires a > 0.0 && 0.0 <= d <= a
    ensures a * d <= a * a && (d < a ==> a * d < a * a)
  {
    MulPositive(a, a - d);
    assert a * (a - d) == a * a - a * d;
  }

  lemma DoubleSquare(s: real, a: real, d: real)
    requires a > 0.0 && s * s == a * d
    ensures SquareOver(2.0 * s, a) == d && SquareOver(-2.0 * s, a) == d
  {
    assert (2.0 * s) * (2.0 * s) == 4.0 * (s * s);
    assert (-2.0 * s) * (-2.0 * s) == 4.0 * (s * s);
    assert 4.0 * (a * d) == d * (4.0 * a);
    DivideBack(d, 4.0 * a);
  }

  lemma DivideBack(d: real, b: real)
    requires b > 0.0
    ensures d * b / b == d
  {
  }

  lemma RootInMargin(s: real, a: real, d: real)
    requires a > 0.0 && 0.0 <= d <= a && s >= 0.0 && s * s == a * d
    ensures s <= a && (d < a ==> s < a) && SquareOver(2.0 * s, a) == d && SquareOver(-2.0 * s, a) == d
  {
    ProductBelow(a, d);
    if a < s {
      SquareGrows(s, a);
    }
    DoubleSquare(s, a, d);
  }

  /** A coordinate between the margins is neither wrapped nor reflected. */
  lemma Unfolded(x: real, box: Box)
    requires Proper(box) && InMargins(x, box)
    ensures Reflect(Wrap(x, box), box) == x
  {
  }

  lemma LowLatent(x: real, y: real, box: Box, s: real)
    requires Proper(box) && box.lower.Some? && Within(y, box.lower, box.upper) && y < box.lower.value + box.al
    requires s >= 0.0 && s * s == Scaled(box.al, y - box.lower.value) && x == box.lower.value - box.al + 2.0 * s
    ensures Fold(x, box) == y
  {
    RootInMargin(s, box.al, y - box.lower.value);
    Unfolded(x, box);
    assert x - (box.lower.value - box.al) == 2.0 * s;
  }

  lemma HighLatent(x: real, y: real, box: Box, s: real)
    requires Proper(box) && box.upper.Some? && Within(y, box.lower, box.upper) && y >= box.upper.value - box.au
    requires box.lower.Some? ==> y >= box.lower.value + box.al
    requires s >= 0.0 && s * s == Scaled(box.au, box.upper.value - y) && x == box.upper.value + box.au - 2.0 * s
    ensures Fold(x, box) == y
  {
    RootInMargin(s, box.au, box.upper.value - y);
    Unfolded(x, box);
    assert x - (box.upper.value + box.au) == -2.0 * s;
  }

  lemma LatentFolds(y: real, box: Box, sqrt: real -> real)
    requires Proper(box) && Within(y, box.lower, box.upper) && IsSqrt(sqrt)
    ensures Fold(LatentIn(y, box, sqrt), box) == y
  {
    var x := LatentIn(y, box, sqrt);
    if box.lower.Some? && y < box.lower.value + box.al {
      MulPositive(box.al, y - box.lower.value);
      LowLatent(x, y, box, sqrt(Scaled(box.al, y - box.lower.value)));
    } else if box.upper.Some? && y >= box.upper.value - box.au {
      MulPositive(box.au, box.upper.value - y);
      HighLatent(x, y, box, sqrt(Scaled(box.au, box.upper.value - y)));
    } else {
      Unfolded(x, box);
    }
  }

  /** Folding the latent coordinate of any point of the box gives the point back. */
  lemma LatentInverts(y: real, lower: Bound, upper: Bound, sqrt: real -> real)
    requires Ordered(lower, upper) && Within(y, lower, upper) && IsSqrt(sqrt)
    ensures Linquad(Latent(y, lower, upper, sqrt), lower, upper) == y
  {
    LatentFolds(y, BoxOf(lower, upper), sqrt);
  }
}
