/** From latent optimizer coordinates to parameter values and back, in exact arithmetic, with its domains. */
module Mapping {
  // `mapped_values`, `latent_initial` and the domains they serve.

  import opened Common
  import opened Continuation
  import opened BoxMap

  /** An optimization variable: an interval, linear or logarithmic, or one of the domains. */
  datatype Variable =
    | Interval(key: string, low: real, high: real, log: bool)
    | Unbounded(key: string, scale: real)
    | Nonnegative(key: string, scale: real)
    | Nonpositive(key: string, scale: real)
    | Positive(key: string)
    | Negative(key: string)

  const LeftDomain := Failure(InvalidCandidate, "unit_map", "")

  /** The elementary functions the maps call. */
  datatype Calculus = Calculus(sqrt: real -> real, exp: real -> real, log: real -> real, pow: (real, real) -> real)

  ghost predicate Exponential(exp: real -> real) {
    (forall x :: exp(x) > 0.0) && exp(0.0) == 1.0
  }

  /** Between 1 and r the power and the quotient of logarithms undo each other. */
  ghost predicate Powers(log: real -> real, pow: (real, real) -> real) {
    && (forall r :: r > 1.0 ==> log(r) > 0.0)
    && (forall r, z :: r > 1.0 && 0.0 <= z <= 1.0 ==> 1.0 <= pow(r, z) <= r)
    && (forall r, q :: 1.0 < r && 1.0 <= q <= r ==> Undone(log, pow, r, q))
  }

  ghost predicate Undone(log: real -> real, pow: (real, real) -> real, r: real, q: real) {
    0.0 <= log(q) <= log(r) && (log(r) > 0.0 ==> pow(r, log(q) / log(r)) == q)
  }

  ghost predicate Lawful(fns: Calculus) {
    IsSqrt(fns.sqrt) && Exponential(fns.exp) && Powers(fns.log, fns.pow)
  }

  /** Enough for the arithmetic to be defined. */
  predicate Defined(v: Variable, base: Point) {
    && v.key in base && base[v.key].Quantity?
    && (v.Interval? && v.log ==> v.low > 0.0)
    && (v.Unbounded? || v.Nonnegative? || v.Nonpositive? ==> v.scale > 0.0)
  }

  predicate AllDefined(variables: seq<Variable>, base: Point) {
    forall v :: v in variables ==> Defined(v, base)
  }

  /** Where a value of the variable has to lie. */
  predicate InDomain(v: Variable, value: real) {
    match v
    case Interval(_, low, high, _) => low <= value <= high
    case Unbounded(_, _) => true
    case Nonnegative(_, _) => value >= 0.0
    case Nonpositive(_, _) => value <= 0.0
    case Positive(_) => value > 0.0
    case Negative(_) => value < 0.0
  }

  /** What the request admits: the baseline lies in a nonempty domain. */
  predicate Admitted(v: Variable, base: Point) {
    Defined(v, base) && InDomain(v, base[v.key].si) && (v.Interval? ==> v.low < v.high)
  }

  predicate AllAdmitted(variables: seq<Variable>, base: Point) {
    forall v :: v in variables ==> Admitted(v, base)
  }

  function DomainBounds(v: Variable, base: Point): (bounds: (Bound, Bound))
    requires Defined(v, base)
    ensures Ordered(bounds.0, bounds.1)
  {
    match v
    case Nonnegative(key, scale) => (Some(-base[key].si / scale), None)
    case Nonpositive(key, scale) => (None, Some(-base[key].si / scale))
    case Interval(_, _, _, _) => (Some(0.0), Some(1.0))
    case _ => (None, None)
  }

  // ---- Mapping ------------------------------------------------------------------------------

  function Along(start: real, step: real, z: real): real {
    start + step * z
  }

  function Power(v: Variable, z: real, fns: Calculus): real
    requires v.Interval? && v.low > 0.0
  {
    v.low * fns.pow(v.high / v.low, z)
  }

  function ValueAt(v: Variable, x: real, base: Point, fns: Calculus): real
    requires Defined(v, base)
  {
    var bounds := DomainBounds(v, base);
    match v
    case Interval(_, low, high, log) =>
      var z := Linquad(x, bounds.0, bounds.1);
      if log then Power(v, z, fns) else Along(low, high - low, z)
    case Positive(key) => base[key].si * fns.exp(x)
    case Negative(key) => base[key].si * fns.exp(x)
    case Unbounded(key, scale) => Along(base[key].si, scale, x)
    case Nonnegative(key, scale) => Along(base[key].si, scale, Linquad(x, bounds.0, bounds.1))
    case Nonpositive(key, scale) => Along(base[key].si, scale, Linquad(x, bounds.0, bounds.1))
  }

  /** The guard of the map: the value vanished or changed sign, or has the wrong sign. */
  predicate Escapes(v: Variable, value: real, base: Point)
    requires Defined(v, base)
  {
    || ((v.Positive? || v.Negative?) && (value == 0.0 || (value < 0.0) != (base[v.key].si < 0.0)))
    || (v.Nonnegative? && value < 0.0)
    || (v.Nonpositive? && value > 0.0)
  }

  /** The values once the first `n` variables are placed. */
  function Mapped(variables: seq<Variable>, base: Point, latent: seq<real>, n: nat, fns: Calculus): (values: Point)
    requires n <= |variables| && n <= |latent| && AllDefined(variables, base)
  {
    if n == 0 then base else Placed(variables[n - 1], latent[n - 1], base, Mapped(variables, base, latent, n - 1, fns), fns)
  }

  function Placed(v: Variable, x: real, base: Point, values: Point, fns: Calculus): Point
    requires Defined(v, base)
  {
    values[v.key := Quantity(ValueAt(v, x, base, fns))]
  }

  predicate EscapesAt(variables: seq<Variable>, base: Point, latent: seq<real>, i: nat, fns: Calculus)
    requires AllDefined(variables, base)
  {
    i < |variables| && i < |latent| && Escapes(variables[i], ValueAt(variables[i], latent[i], base, fns), base)
  }

  /** Maps the latent coordinates, stopping at the first value that leaves its domain. */
  method MappedValues(variables: seq<Variable>, base: Point, latent: seq<real>, fns: Calculus) returns (result: Checked<Point, Failure>)
    requires AllDefined(variables, base)
    ensures result.Raised? <==> exists i: nat :: EscapesAt(variables, base, latent, i, fns)
    ensures result.Raised? ==> result.error == LeftDomain
    ensures result.Ok? ==> result.value == Mapped(variables, base, latent, if |variables| < |latent| then |variables| else |latent|, fns)
  {
    var values := base;
    var count := if |variables| < |latent| then |variables| else |latent|;
    for n := 0 to count
      invariant values == Mapped(variables, base, latent, n, fns)
      invariant forall i: nat :: i < n ==> !EscapesAt(variables, base, latent, i, fns)
    {
      var v := variables[n];
      assert v in variables;
      var value := ValueAt(v, latent[n], base, fns);
      values := values[v.key := Quantity(value)];
      if Escapes(v, value, base) {
        assert EscapesAt(variables, base, latent, n, fns);
        return Raised(LeftDomain);
      }
    }
    return Ok(values);
  }

  // ---- Values stay in their domains -----------------------------------------------------------

  lemma Blend(low: real, high: real, z: real)
    requires low <= high && 0.0 <= z <= 1.0
    ensures low <= Along(low, high - low, z) <= high
  {
    MulPositive(z, high - low);
    MulPositive(1.0 - z, high - low);
  }

  lemma ScaledUp(base: real, scale: real, z: real)
    requires scale > 0.0
    ensures z >= -base / scale ==> Along(base, scale, z) >= 0.0
    ensures z <= -base / scale ==> Along(base, scale, z) <= 0.0
  {
    var edge := -base / scale;
    assert scale * edge == -base;
    if z >= edge {
      MulPositive(scale, z - edge);
      assert scale * (z - edge) == scale * z - scale * edge;
    }
    if z <= edge {
      MulPositive(scale, edge - z);
      assert scale * (edge - z) == scale * edge - scale * z;
    }
  }

  lemma LogBlend(v: Variable, z: real, fns: Calculus)
    requires v.Interval? && 0.0 < v.low < v.high && 0.0 <= z <= 1.0 && Powers(fns.log, fns.pow)
    ensures v.low <= Power(v, z, fns) <= v.high
  {
    var r := v.high / v.low;
    assert v.low * r == v.high;
    RatioAbove(v.low, v.high, r);
    var p := fns.pow(r, z);
    MulPositive(v.low, p - 1.0);
    MulPositive(v.low, r - p);
    assert v.low * (p - 1.0) == v.low * p - v.low;
    assert v.low * (r - p) == v.low * r - v.low * p;
  }

  lemma RatioAbove(low: real, high: real, r: real)
    requires low > 0.0 && low * r == high
    ensures low < high ==> r > 1.0
    ensures low <= high ==> r >= 1.0
  {
    if r < 1.0 {
      MulPositive(low, 1.0 - r);
      assert low * (1.0 - r) == low - low * r;
    }
  }

  /** Every real coordinate maps into the declared domain of its variable. */
  lemma ValueInDomain(v: Variable, x: real, base: Point, fns: Calculus)
    requires Admitted(v, base) && Lawful(fns)
    ensures InDomain(v, ValueAt(v, x, base, fns))
  {
    var bounds := DomainBounds(v, base);
    LinquadInBox(x, bounds.0, bounds.1);
    var z := Linquad(x, bounds.0, bounds.1);
    match v
    case Interval(_, low, high, log) =>
      if log { LogBlend(v, z, fns); } else { Blend(low, high, z); }
    case Nonnegative(key, scale) => ScaledUp(base[key].si, scale, z);
    case Nonpositive(key, scale) => ScaledUp(base[key].si, scale, z);
    case Positive(key) => MulPositive(base[key].si, fns.exp(x));
    case Negative(key) => MulPositive(-base[key].si, fns.exp(x));
    case Unbounded(_, _) =>
  }

  /** Exactly when the guard stops an accepted request: never. */
  lemma NothingEscapes(variables: seq<Variable>, base: Point, latent: seq<real>, i: nat, fns: Calculus)
    requires AllAdmitted(variables, base) && Lawful(fns)
    ensures AllDefined(variables, base) && !EscapesAt(variables, base, latent, i, fns)
  {
    if i < |variables| && i < |latent| {
      ValueInDomain(variables[i], latent[i], base, fns);
    }
  }

  predicate KeysDiffer(variables: seq<Variable>) {
    forall i, j :: 0 <= i < j < |variables| ==> variables[i].key != variables[j].key
  }

  predicate Places(variables: seq<Variable>, base: Point, values: Point, n: nat)
    requires n <= |variables|
  {
    && values.Keys == base.Keys
    && (forall key :: key in base && (forall i :: 0 <= i < n ==> variables[i].key != key) ==> values[key] == base[key])
    && (forall i :: 0 <= i < n ==>
          && variables[i].key in values && values[variables[i].key].Quantity?
          && InDomain(variables[i], values[variables[i].key].si))
  }

  /** Every admitted request maps each coordinate vector to a complete point whose
      optimized values lie in their domains and whose other values are the baseline's. */
  lemma {:induction false} MappedInDomain(variables: seq<Variable>, base: Point, latent: seq<real>, n: nat, fns: Calculus)
    requires n <= |variables| && n <= |latent| && AllAdmitted(variables, base) && KeysDiffer(variables) && Lawful(fns)
    ensures AllDefined(variables, base) && Places(variables, base, Mapped(variables, base, latent, n, fns), n)
  {
    if n > 0 {
      MappedInDomain(variables, base, latent, n - 1, fns);
      ValueInDomain(variables[n - 1], latent[n - 1], base, fns);
      PlacedOne(variables, base, Mapped(variables, base, latent, n - 1, fns), n, ValueAt(variables[n - 1], latent[n - 1], base, fns));
    }
  }

  lemma PlacedOne(variables: seq<Variable>, base: Point, values: Point, n: nat, value: real)
    requires 0 < n <= |variables| && Places(variables, base, values, n - 1) && KeysDiffer(variables)
    requires variables[n - 1].key in base && InDomain(variables[n - 1], value)
    ensures Places(variables, base, values[variables[n - 1].key := Quantity(value)], n)
  {
  }

  // ---- The baseline comes back ----------------------------------------------------------------

  /** The coordinate the sealed request records for the baseline value. */
  function BaselineCoordinate(v: Variable, base: Point, fns: Calculus): real
    requires Admitted(v, base) && (v.Interval? && v.log ==> fns.log(v.high / v.low) != 0.0)
  {
    match v
    case Interval(key, low, high, log) =>
      if log then fns.log(base[key].si / low) / fns.log(high / low) else (base[key].si - low) / (high - low)
    case _ => 0.0
  }

  /** The latent start: intervals and one-sided domains go through the inverse fold. */
  function LatentOf(v: Variable, y: real, base: Point, fns: Calculus): real
    requires Defined(v, base)
  {
    if v.Unbounded? || v.Positive? || v.Negative? then y
    else
      var bounds := DomainBounds(v, base);
      Latent(y, bounds.0, bounds.1, fns.sqrt)
  }

  method LatentInitial(variables: seq<Variable>, coordinates: seq<real>, base: Point, fns: Calculus) returns (latent: seq<real>)
    requires AllDefined(variables, base)
    ensures |latent| == if |variables| < |coordinates| then |variables| else |coordinates|
    ensures forall i :: 0 <= i < |latent| ==> variables[i] in variables && latent[i] == LatentOf(variables[i], coordinates[i], base, fns)
  {
    latent := [];
    var count := if |variables| < |coordinates| then |variables| else |coordinates|;
    for n := 0 to count
      invariant |latent| == n
      invariant forall i :: 0 <= i < n ==> variables[i] in variables && latent[i] == LatentOf(variables[i], coordinates[i], base, fns)
    {
      latent := latent + [LatentOf(variables[n], coordinates[n], base, fns)];
    }
  }

  lemma UnitQuotient(n: real, d: real)
    requires d > 0.0 && 0.0 <= n <= d
    ensures 0.0 <= n / d <= 1.0
  {
    Quotient(n, d, 1.0);
  }

  lemma AlongBack(start: real, value: real, step: real)
    requires step != 0.0
    ensures Along(start, step, (value - start) / step) == value
  {
    var q := (value - start) / step;
    assert step * q == value - start;
  }

  lemma LogCoordinate(v: Variable, base: Point, fns: Calculus)
    requires Admitted(v, base) && Lawful(fns) && v.Interval? && v.log
    ensures fns.log(v.high / v.low) > 0.0
    ensures 0.0 <= BaselineCoordinate(v, base, fns) <= 1.0
    ensures Power(v, BaselineCoordinate(v, base, fns), fns) == base[v.key].si
  {
    var r := v.high / v.low;
    var q := base[v.key].si / v.low;
    assert v.low * r == v.high && v.low * q == base[v.key].si;
    RatioAbove(v.low, v.high, r);
    RatioAbove(v.low, base[v.key].si, q);
    assert Undone(fns.log, fns.pow, r, q);
    UnitQuotient(fns.log(q), fns.log(r));
  }

  lemma ZeroInBox(v: Variable, base: Point)
    requires Admitted(v, base) && (v.Nonnegative? || v.Nonpositive?)
    ensures Within(0.0, DomainBounds(v, base).0, DomainBounds(v, base).1)
  {
    var edge := -base[v.key].si / v.scale;
    assert edge * v.scale == -base[v.key].si;
    if edge > 0.0 {
      MulPositive(edge, v.scale);
    } else if edge < 0.0 {
      MulPositive(-edge, v.scale);
      assert (-edge) * v.scale == -(edge * v.scale);
    }
  }

  lemma IntervalMapsBack(v: Variable, base: Point, fns: Calculus)
    requires Admitted(v, base) && Lawful(fns) && v.Interval?
    ensures v.log ==> fns.log(v.high / v.low) != 0.0
    ensures ValueAt(v, LatentOf(v, BaselineCoordinate(v, base, fns), base, fns), base, fns) == base[v.key].si
  {
    if v.log {
      LogCoordinate(v, base, fns);
    } else {
      UnitQuotient(base[v.key].si - v.low, v.high - v.low);
      AlongBack(v.low, base[v.key].si, v.high - v.low);
    }
    LatentInverts(BaselineCoordinate(v, base, fns), Some(0.0), Some(1.0), fns.sqrt);
  }

  lemma SidedMapsBack(v: Variable, base: Point, fns: Calculus)
    requires Admitted(v, base) && Lawful(fns) && (v.Nonnegative? || v.Nonpositive?)
    ensures ValueAt(v, LatentOf(v, 0.0, base, fns), base, fns) == base[v.key].si
  {
    var bounds := DomainBounds(v, base);
    ZeroInBox(v, base);
    LatentInverts(0.0, bounds.0, bounds.1, fns.sqrt);
  }

  /** The recorded coordinate of the baseline maps back to the baseline value. */
  lemma BaselineMapsBack(v: Variable, base: Point, fns: Calculus)
    requires Admitted(v, base) && Lawful(fns)
    ensures v.Interval? && v.log ==> fns.log(v.high / v.low) != 0.0
    ensures ValueAt(v, LatentOf(v, BaselineCoordinate(v, base, fns), base, fns), base, fns) == base[v.key].si
  {
    match v
    case Interval(_, _, _, _) => IntervalMapsBack(v, base, fns);
    case Nonnegative(_, _) => SidedMapsBack(v, base, fns);
    case Nonpositive(_, _) => SidedMapsBack(v, base, fns);
    case _ =>
  }

  ghost predicate StartsAtBaseline(variables: seq<Variable>, base: Point, latent: seq<real>, fns: Calculus)
    requires AllAdmitted(variables, base) && Lawful(fns)
  {
    |latent| == |variables| && forall i :: 0 <= i < |variables| ==> variables[i] in variables && Coordinate(variables[i], base, latent[i], fns)
  }

  ghost predicate Coordinate(v: Variable, base: Point, x: real, fns: Calculus)
    requires Admitted(v, base) && Lawful(fns)
  {
    (v.Interval? && v.log ==> fns.log(v.high / v.low) != 0.0) && x == LatentOf(v, BaselineCoordinate(v, base, fns), base, fns)
  }

  /** Mapping the latent start gives the whole baseline point back. */
  lemma {:induction false} StartIsBaseline(variables: seq<Variable>, base: Point, latent: seq<real>, n: nat, fns: Calculus)
    requires AllAdmitted(variables, base) && Lawful(fns) && StartsAtBaseline(variables, base, latent, fns) && n <= |variables|
    ensures AllDefined(variables, base) && Mapped(variables, base, latent, n, fns) == base
  {
    if n > 0 {
      StartIsBaseline(variables, base, latent, n - 1, fns);
      assert Coordinate(variables[n - 1], base, latent[n - 1], fns);
      BaselineMapsBack(variables[n - 1], base, fns);
    }
  }
}
