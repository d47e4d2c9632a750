/** The fold and its maps. */
module Folds {
  // The fold is given by its values between the outer margin ends and its two mirrors, each map by its formula.

  import opened Common
  import opened Continuation
  import opened BoxMap
  import opened Mapping

  // ---- The fold -------------------------------------------------------------------------------------------

  predicate Least(m: real, a: real, b: real) {
    m <= a && m <= b && (m == a || m == b)
  }

  /** A twentieth of one more than the bound's size, but at most half a finite box; one where there is no bound. */
  predicate Margin(margin: real, bound: Bound, other: Bound) {
    if bound.None? then margin == 1.0
    else
      var size := if bound.value >= 0.0 then bound.value else -bound.value;
      if other.None? then margin == (1.0 + size) / 20.0
      else
        var width := if other.value >= bound.value then other.value - bound.value else bound.value - other.value;
        Least(margin, width / 2.0, (1.0 + size) / 20.0)
  }

  /** The margins of the box between two bounds. */
  predicate Margins(lower: Bound, upper: Bound, al: real, au: real) {
    Margin(al, lower, upper) && Margin(au, upper, lower)
  }

  lemma MarginsOf(lower: Bound, upper: Bound, al: real, au: real)
    requires BoxMap.Ordered(lower, upper)
    ensures Margins(lower, upper, al, au) <==> al == BoxOf(lower, upper).al && au == BoxOf(lower, upper).au
  {
  }

  /** A parabola at either end, a line between. */
  predicate Folded(x: real, lower: Bound, upper: Bound, al: real, au: real, y: real) {
    if lower.Some? && x < lower.value + al then (y - lower.value) * (4.0 * al) == (x - lower.value + al) * (x - lower.value + al)
    else if upper.Some? && x >= upper.value - au then (upper.value - y) * (4.0 * au) == (upper.value + au - x) * (upper.value + au - x)
    else y == x
  }

  lemma SquareTimes(d: real, e: real, a: real)
    requires a > 0.0 && (e == d || e == -d)
    ensures SquareOver(d, a) * (4.0 * a) == e * e
  {
    assert e * e == d * d;
    assert d * d / (4.0 * a) * (4.0 * a) == d * d;
  }

  lemma SqueezedLow(x: real, box: Box)
    requires Proper(box) && box.lower.Some? && x < box.lower.value + box.al
    ensures Folded(x, box.lower, box.upper, box.al, box.au, Squeeze(x, box))
  {
    var d, y := x - (box.lower.value - box.al), SquareOver(x - (box.lower.value - box.al), box.al);
    SquareTimes(d, x - box.lower.value + box.al, box.al);
    hide SquareOver;
    assert Squeeze(x, box) - box.lower.value == y;
  }

  lemma SqueezedHigh(x: real, box: Box)
    requires Proper(box) && box.upper.Some? && x >= box.upper.value - box.au && (box.lower.Some? ==> x >= box.lower.value + box.al)
    ensures Folded(x, box.lower, box.upper, box.al, box.au, Squeeze(x, box))
  {
    var d, y := x - (box.upper.value + box.au), SquareOver(x - (box.upper.value + box.au), box.au);
    SquareTimes(d, box.upper.value + box.au - x, box.au);
    hide SquareOver;
    assert box.upper.value - Squeeze(x, box) == y;
  }

  lemma SqueezedNot(x: real, box: Box)
    requires Proper(box) && (box.lower.Some? ==> x >= box.lower.value + box.al) && (box.upper.Some? ==> x < box.upper.value - box.au)
    ensures Folded(x, box.lower, box.upper, box.al, box.au, Squeeze(x, box))
  {
  }

  /** Between the outer margin ends a coordinate is squeezed at either end and itself between. */
  lemma FoldsInside(x: real, lower: Bound, upper: Bound, al: real, au: real)
    requires BoxMap.Ordered(lower, upper) && Margins(lower, upper, al, au)
    requires (lower.Some? ==> lower.value - al <= x) && (upper.Some? ==> x <= upper.value + au)
    ensures Folded(x, lower, upper, al, au, Linquad(x, lower, upper))
  {
    MarginsOf(lower, upper, al, au);
    hide Squeeze, Margins, Wrap, Reflect, Folded;
    var box := BoxOf(lower, upper);
    Unfolded(x, box);
    if lower.Some? && x < lower.value + al {
      SqueezedLow(x, box);
    } else if upper.Some? && x >= upper.value - au {
      SqueezedHigh(x, box);
    } else {
      SqueezedNot(x, box);
    }
  }

  // ---- Its mirrors ----------------------------------------------------------------------------------------

  /** A whole number of periods, as far as it matters: at least one, at most minus two, none or minus one. */
  predicate Whole(period: real, k: int, q: real) {
    && (k >= 1 ==> q >= period) && (k <= -2 ==> q <= -2.0 * period)
    && (k == 0 ==> q == 0.0) && (k == -1 ==> q == -period)
  }

  lemma Multiples(period: real, k: int)
    requires period > 0.0
    ensures Whole(period, k, period * k as real)
  {
    if k >= 1 {
      MulPositive(period, k as real - 1.0);
      assert period * (k as real - 1.0) == period * k as real - period;
    } else if k <= -2 {
      MulPositive(period, -(k as real) - 2.0);
      assert period * (-(k as real) - 2.0) == -(period * k as real) - 2.0 * period;
    }
  }

  lemma MirroredBy(a: real, b: real, box: Box, k: int, q: real)
    requires Bounded(box) && Proper(box) && InWindow(a, box) && InWindow(b, box) && Whole(Period(box), k, q)
    requires a + b == 2.0 * (box.lower.value - box.al) - q
    ensures Reflect(a, box) == Reflect(b, box)
  {
  }

  /** Two window coordinates that mirror each other about the lower end, but for whole periods, reflect alike. */
  lemma Mirrored(a: real, b: real, box: Box, k: int)
    requires Bounded(box) && Proper(box) && InWindow(a, box) && InWindow(b, box)
    requires a + b == 2.0 * (box.lower.value - box.al) - Period(box) * k as real
    ensures Reflect(a, box) == Reflect(b, box)
  {
    WindowIsOnePeriod(box);
    hide Reflect, InWindow, Whole, Period;
    Multiples(Period(box), k);
    MirroredBy(a, b, box, k, Period(box) * k as real);
  }

  lemma WrapTakes(x: real, box: Box) returns (turns: int)
    requires Bounded(box) && Proper(box)
    ensures Wrap(x, box) == x - Period(box) * turns as real && InWindow(Wrap(x, box), box)
  {
    WrapInWindow(x, box);
    turns := Taken(x, box);
  }

  lemma TwoShifts(period: real, m: int, n: int, c: real, d: real)
    ensures (c + d - period * m as real) + (c - d - period * n as real) == 2.0 * c - period * (m + n) as real
    ensures 2.0 * c + period - period * (m + n) as real == 2.0 * c - period * (m + n - 1) as real
  {
    assert (m + n) as real == m as real + n as real;
    assert (m + n - 1) as real == (m + n) as real - 1.0;
  }

  lemma BoundedMirrors(d: real, box: Box)
    requires Proper(box) && Bounded(box)
    ensures var end := box.lower.value - box.al; Reflect(Wrap(end + d, box), box) == Reflect(Wrap(end - d, box), box)
    ensures var end := box.upper.value + box.au; Reflect(Wrap(end + d, box), box) == Reflect(Wrap(end - d, box), box)
  {
    MirrorsAbout(d, box, box.lower.value - box.al, 0);
    EndsApart(box);
    MirrorsAbout(d, box, box.upper.value + box.au, 1);
  }

  lemma EndsApart(box: Box)
    requires Bounded(box)
    ensures 2.0 * (box.upper.value + box.au) == 2.0 * (box.lower.value - box.al) + Period(box)
  {
  }

  lemma MirrorsAbout(d: real, box: Box, end: real, j: nat)
    requires Proper(box) && Bounded(box) && j <= 1
    requires 2.0 * end == 2.0 * (box.lower.value - box.al) + if j == 0 then 0.0 else Period(box)
    ensures Reflect(Wrap(end + d, box), box) == Reflect(Wrap(end - d, box), box)
  {
    hide Reflect, Wrap, Period, InWindow, Proper;
    var m := WrapTakes(end + d, box);
    var n := WrapTakes(end - d, box);
    var low := box.lower.value - box.al;
    TwoShifts(Period(box), m, n, end, d);
    TwoShifts(Period(box), m, n, low, d);
    if j == 0 {
      Mirrored(Wrap(end + d, box), Wrap(end - d, box), box, m + n);
    } else {
      Mirrored(Wrap(end + d, box), Wrap(end - d, box), box, m + n - 1);
    }
  }

  lemma OneSidedMirrors(d: real, box: Box)
    requires Proper(box) && !Bounded(box)
    ensures box.lower.Some? ==> Reflect(box.lower.value - box.al + d, box) == Reflect(box.lower.value - box.al - d, box)
    ensures box.upper.Some? ==> Reflect(box.upper.value + box.au + d, box) == Reflect(box.upper.value + box.au - d, box)
  {
  }

  lemma MirrorsLow(d: real, box: Box)
    requires Proper(box) && box.lower.Some?
    ensures var end := box.lower.value - box.al; Fold(end + d, box) == Fold(end - d, box)
  {
    hide Squeeze, Reflect, Period, WindowStart, WindowEnd;
    if Bounded(box) { BoundedMirrors(d, box); } else { OneSidedMirrors(d, box); }
  }

  lemma MirrorsHigh(d: real, box: Box)
    requires Proper(box) && box.upper.Some?
    ensures var end := box.upper.value + box.au; Fold(end + d, box) == Fold(end - d, box)
  {
    hide Squeeze, Reflect, Period, WindowStart, WindowEnd;
    if Bounded(box) { BoundedMirrors(d, box); } else { OneSidedMirrors(d, box); }
  }

  /** The fold is symmetric about either outer margin end. */
  lemma FoldMirrors(d: real, lower: Bound, upper: Bound, al: real, au: real)
    requires BoxMap.Ordered(lower, upper) && Margins(lower, upper, al, au)
    ensures lower.Some? ==> Linquad(lower.value - al - d, lower, upper) == Linquad(lower.value - al + d, lower, upper)
    ensures upper.Some? ==> Linquad(upper.value + au + d, lower, upper) == Linquad(upper.value + au - d, lower, upper)
  {
    hide Fold;
    MarginsOf(lower, upper, al, au);
    if lower.Some? { MirrorsLow(d, BoxOf(lower, upper)); }
    if upper.Some? { MirrorsHigh(d, BoxOf(lower, upper)); }
  }

  // ---- The maps -------------------------------------------------------------------------------------------

  /** A unit coordinate in a linear or a logarithmic interval. */
  predicate Interpolates(low: real, high: real, log: bool, z: real, fns: Calculus, value: real) {
    if log then low != 0.0 && value == low * fns.pow(high / low, z) else value == low + z * (high - low)
  }

  /** The value of a latent coordinate: an interval through the fold onto [0, 1], a one-sided domain through the
      fold at its edge, a sign by a positive factor, and anything else by its scale. */
  predicate ValueSays(v: Variable, x: real, base: Point, fns: Calculus, value: real)
    requires Defined(v, base)
  {
    var from := base[v.key].si;
    match v
    case Interval(_, low, high, log) => Interpolates(low, high, log, Linquad(x, Some(0.0), Some(1.0)), fns, value)
    case Unbounded(_, scale) => value == from + scale * x
    case Nonnegative(_, scale) => value == from + scale * Linquad(x, Some(-from / scale), None)
    case Nonpositive(_, scale) => value == from + scale * Linquad(x, None, Some(-from / scale))
    case Positive(_) => value == from * fns.exp(x)
    case Negative(_) => value == from * fns.exp(x)
  }

  lemma ValueIs(v: Variable, x: real, base: Point, fns: Calculus)
    requires Defined(v, base)
    ensures ValueSays(v, x, base, fns, ValueAt(v, x, base, fns))
  {
    hide Linquad;
    if v.Interval? && !v.log {
      var z := Linquad(x, Some(0.0), Some(1.0));
      assert (v.high - v.low) * z == z * (v.high - v.low);
    }
  }

  /** The last of the first `n` variables with a key. */
  predicate LastWith(variables: seq<Variable>, n: nat, key: string, i: nat)
    requires n <= |variables|
  {
    i < n && variables[i].key == key && forall j :: i < j < n ==> variables[j].key != key
  }

  /** Every optimized key has the value of its own coordinate, every other key its baseline value. */
  ghost predicate PointSays(variables: seq<Variable>, base: Point, latent: seq<real>, n: nat, fns: Calculus, values: Point)
    requires n <= |variables| && n <= |latent| && AllDefined(variables, base)
  {
    && values.Keys == base.Keys
    && (forall key, i :: LastWith(variables, n, key, i) ==>
          key in values && values[key].Quantity? && ValueOf(variables, base, latent, fns, i, values[key].si))
    && (forall key :: key in base && (forall i :: 0 <= i < n ==> variables[i].key != key) ==> values[key] == base[key])
  }

  predicate ValueOf(variables: seq<Variable>, base: Point, latent: seq<real>, fns: Calculus, i: nat, value: real)
    requires i < |variables| && i < |latent| && AllDefined(variables, base)
  {
    variables[i] in variables && ValueSays(variables[i], latent[i], base, fns, value)
  }

  lemma {:induction false} MappedSays(variables: seq<Variable>, base: Point, latent: seq<real>, n: nat, fns: Calculus)
    requires n <= |variables| && n <= |latent| && AllDefined(variables, base)
    ensures PointSays(variables, base, latent, n, fns, Mapped(variables, base, latent, n, fns))
  {
    hide ValueSays, ValueAt;
    if n > 0 {
      MappedSays(variables, base, latent, n - 1, fns);
      assert variables[n - 1] in variables;
      ValueIs(variables[n - 1], latent[n - 1], base, fns);
      PlacedSays(variables, base, latent, n, fns, Mapped(variables, base, latent, n - 1, fns),
                 ValueAt(variables[n - 1], latent[n - 1], base, fns));
    }
  }

  lemma PlacedSays(variables: seq<Variable>, base: Point, latent: seq<real>, n: nat, fns: Calculus, before: Point, value: real)
    requires 0 < n <= |variables| && n <= |latent| && AllDefined(variables, base) && Defined(variables[n - 1], base)
    requires PointSays(variables, base, latent, n - 1, fns, before) && ValueSays(variables[n - 1], latent[n - 1], base, fns, value)
    ensures PointSays(variables, base, latent, n, fns, before[variables[n - 1].key := Quantity(value)])
  {
    hide ValueSays;
    var last := variables[n - 1].key;
    var values := before[last := Quantity(value)];
    assert variables[n - 1] in variables;
    forall key, i | LastWith(variables, n, key, i)
      ensures key in values && values[key].Quantity? && ValueOf(variables, base, latent, fns, i, values[key].si)
    {
      if key == last {
        assert i == n - 1;
      } else {
        assert LastWith(variables, n - 1, key, i);
      }
    }
  }

  /** On admitted requests the guard fires exactly on a value outside a declared domain. */
  lemma EscapesOutside(v: Variable, value: real, base: Point)
    requires Admitted(v, base)
    ensures Escapes(v, value, base) <==> !v.Interval? && !InDomain(v, value)
  {
  }

  /** Every value of an interval or a one-sided domain is the value of some coordinate. */
  lemma EveryValueReached(v: Variable, value: real, base: Point, fns: Calculus)
    requires Admitted(v, base) && Lawful(fns) && InDomain(v, value) && !v.Positive? && !v.Negative?
    ensures exists x :: ValueAt(v, x, base, fns) == value
  {
    var other := base[v.key := Quantity(value)];
    match v
    case Interval(_, low, high, log) =>
      IntervalMapsBack(v, other, fns);
      assert ValueAt(v, LatentOf(v, BaselineCoordinate(v, other, fns), other, fns), base, fns) == value;
    case Unbounded(_, scale) =>
      AlongBack(base[v.key].si, value, scale);
      assert ValueAt(v, (value - base[v.key].si) / scale, base, fns) == value;
    case Nonnegative(_, scale) => SidedReached(v, value, base, fns);
    case Nonpositive(_, scale) => SidedReached(v, value, base, fns);
  }

  lemma BesideEdge(y: real, edge: real, scale: real, from: real, value: real)
    requires scale > 0.0 && y == (value - from) / scale && edge == -from / scale
    ensures value >= 0.0 ==> y >= edge
    ensures value <= 0.0 ==> y <= edge
  {
    assert y * scale == value - from && edge * scale == -from;
    assert (y - edge) * scale == y * scale - edge * scale;
    assert (edge - y) * scale == edge * scale - y * scale;
    if y < edge { MulPositive(edge - y, scale); }
    if y > edge { MulPositive(y - edge, scale); }
  }

  lemma SidedReached(v: Variable, value: real, base: Point, fns: Calculus)
    requires Admitted(v, base) && Lawful(fns) && InDomain(v, value) && (v.Nonnegative? || v.Nonpositive?)
    ensures exists x :: ValueAt(v, x, base, fns) == value
  {
    var bounds, from := DomainBounds(v, base), base[v.key].si;
    var y, edge := (value - from) / v.scale, -from / v.scale;
    AlongBack(from, value, v.scale);
    BesideEdge(y, edge, v.scale, from, value);
    assert Within(y, bounds.0, bounds.1);
    LatentInverts(y, bounds.0, bounds.1, fns.sqrt);
    assert ValueAt(v, Latent(y, bounds.0, bounds.1, fns.sqrt), base, fns) == value;
  }
}
