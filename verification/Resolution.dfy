/** The two parameter resolvers and why continuation stays physical. */
module Resolution {
  // `Lowering` is the numerical compiler's resolver, which works on a plain map of parameter
  // values; `Authoring` is the one that resolves a captured parameter point.  Both walk the
  // captured bindings field by field.

  import opened Common
  import opened Continuation

  type Field = (string, string)

  datatype Binding =
    | Constant(value: Value)
    | Ref(parameter: string)
    | Affine(input: string, slope: real, intercept: real, lower: real, upper: real)

  datatype Model = Capacitor | Resistor | Inductor | JosephsonJunction | TransmissionLine

  /** A captured field: its binding and the domain flags its factory gave it. */
  datatype Item = Item(field: string, binding: Binding, positive: bool, nonnegative: bool)

  /** One physical leaf; `inductances` are the value fields of its oriented branches. */
  datatype Leaf = Leaf(path: string, model: Model, items: seq<Item>, inductances: set<string>)

  datatype Extrapolation = Extrapolation(parameter: string, target: Field, input: real, authorized: bool)

  datatype Resolved = Resolved(fields: map<Field, Value>, evidence: seq<Extrapolation>)

  const OutsideSupport := Failure(InvalidCandidate, "affine_support", "")

  predicate InSupport(binding: Binding, x: real)
    requires binding.Affine?
  {
    binding.lower <= x <= binding.upper
  }

  /** What the document promises the resolver: every named parameter has a value,
      and affine maps take quantities. */
  predicate Bound(binding: Binding, values: Point) {
    match binding
    case Constant(_) => true
    case Ref(parameter) => parameter in values
    case Affine(input, _, _, _, _) => input in values && values[input].Quantity?
  }

  predicate AllBound(leaves: seq<Leaf>, values: Point) {
    forall leaf :: leaf in leaves ==> forall item :: item in leaf.items ==> Bound(item.binding, values)
  }

  // ---- What resolving means ---------------------------------------------------

  function ValueOf(binding: Binding, values: Point): Value
    requires Bound(binding, values)
  {
    match binding
    case Constant(value) => value
    case Ref(parameter) => values[parameter]
    case Affine(input, slope, intercept, _, _) => Quantity(slope * values[input].si + intercept)
  }

  /** An affine input must lie in its support unless it may extrapolate. */
  predicate Supported(binding: Binding, values: Point, authorized: set<string>)
    requires Bound(binding, values)
  {
    binding.Affine? ==> InSupport(binding, values[binding.input].si) || binding.input in authorized
  }

  /** The flattened fields in document order. */
  function Flatten(leaves: seq<Leaf>): (flat: seq<(Field, Binding)>) {
    if leaves == [] then [] else Flatten(leaves[..|leaves| - 1]) + Fields(leaves[|leaves| - 1], |leaves[|leaves| - 1].items|)
  }

  function Fields(leaf: Leaf, n: nat): (flat: seq<(Field, Binding)>)
    requires n <= |leaf.items|
    ensures |flat| == n
    ensures forall i :: 0 <= i < n ==> flat[i] == ((leaf.path, leaf.items[i].field), leaf.items[i].binding)
  {
    if n == 0 then [] else Fields(leaf, n - 1) + [((leaf.path, leaf.items[n - 1].field), leaf.items[n - 1].binding)]
  }

  predicate FlatBound(flat: seq<(Field, Binding)>, values: Point) {
    forall i :: 0 <= i < |flat| ==> Bound(flat[i].1, values)
  }

  predicate FlatSupported(flat: seq<(Field, Binding)>, values: Point, authorized: set<string>)
    requires FlatBound(flat, values)
  {
    forall i :: 0 <= i < |flat| ==> Supported(flat[i].1, values, authorized)
  }

  function FlatValues(flat: seq<(Field, Binding)>, values: Point): map<Field, Value>
    requires FlatBound(flat, values)
  {
    if flat == [] then map[]
    else
      var last := |flat| - 1;
      FlatValues(flat[..last], values)[flat[last].0 := ValueOf(flat[last].1, values)]
  }

  /** What resolving one field adds to the extrapolation evidence. */
  function Seen(entry: (Field, Binding), values: Point, authorized: set<string>): seq<Extrapolation>
    requires Bound(entry.1, values)
  {
    if entry.1.Affine? && !InSupport(entry.1, values[entry.1.input].si) then
      [Extrapolation(entry.1.input, entry.0, values[entry.1.input].si, entry.1.input in authorized)]
    else []
  }

  function FlatEvidence(flat: seq<(Field, Binding)>, values: Point, authorized: set<string>): seq<Extrapolation>
    requires FlatBound(flat, values)
  {
    if flat == [] then []
    else
      var last := |flat| - 1;
      FlatEvidence(flat[..last], values, authorized) + Seen(flat[last], values, authorized)
  }

  lemma {:induction false} FlattenBound(leaves: seq<Leaf>, values: Point)
    requires AllBound(leaves, values)
    ensures FlatBound(Flatten(leaves), values)
  {
    if leaves != [] {
      FlattenBound(leaves[..|leaves| - 1], values);
    }
  }

  /** The table and the evidence hold exactly the fields of `flat`, all supported. */
  predicate Filled(flat: seq<(Field, Binding)>, values: Point, authorized: set<string>, resolved: Resolved) {
    && FlatBound(flat, values)
    && FlatSupported(flat, values, authorized)
    && resolved == Resolved(FlatValues(flat, values), FlatEvidence(flat, values, authorized))
  }

  lemma FilledExtend(flat: seq<(Field, Binding)>, entry: (Field, Binding), values: Point, authorized: set<string>,
                     before: Resolved, after: Resolved)
    requires Filled(flat, values, authorized, before)
    requires Bound(entry.1, values) && Supported(entry.1, values, authorized)
    requires after.fields == before.fields[entry.0 := ValueOf(entry.1, values)]
    requires after.evidence == before.evidence + Seen(entry, values, authorized)
    ensures Filled(flat + [entry], values, authorized, after)
  {
    assert (flat + [entry])[..|flat|] == flat;
  }

  lemma FlattenSnoc(leaves: seq<Leaf>, i: nat)
    requires i < |leaves|
    ensures Flatten(leaves[..i + 1]) == Flatten(leaves[..i]) + Fields(leaves[i], |leaves[i].items|)
    ensures Flatten(leaves[..i]) + Fields(leaves[i], 0) == Flatten(leaves[..i])
  {
    assert leaves[..i + 1][..i] == leaves[..i];
  }

  lemma FieldsSnoc(done: seq<(Field, Binding)>, leaf: Leaf, j: nat)
    requires j < |leaf.items|
    ensures done + Fields(leaf, j + 1) == done + Fields(leaf, j) + [((leaf.path, leaf.items[j].field), leaf.items[j].binding)]
  {
  }

  // ---- The numerical compiler's resolver --------------------------------------------

  /** Resolves one binding, reporting an affine input outside its support. */
  method ResolveBinding(target: Field, binding: Binding, values: Point, authorized: set<string>)
    returns (value: Checked<Value, Failure>, seen: seq<Extrapolation>)
    requires Bound(binding, values)
    ensures value.Ok? <==> Supported(binding, values, authorized)
    ensures value.Ok? ==> value.value == ValueOf(binding, values)
    ensures value.Raised? ==> value.error == OutsideSupport
    ensures seen == Seen((target, binding), values, authorized)
  {
    seen := [];
    match binding {
      case Constant(source) =>
        value := Ok(source);
      case Ref(parameter) =>
        value := Ok(values[parameter]);
      case Affine(input, slope, intercept, lower, upper) =>
        var x := values[input].si;
        if !(lower <= x <= upper) {
          seen := [Extrapolation(input, target, x, input in authorized)];
          if input !in authorized {
            return Raised(OutsideSupport), seen;
          }
        }
        value := Ok(Quantity(slope * x + intercept));
    }
  }

  /** Fills the field table leaf by leaf, stopping at the first affine input that
      is outside its support without authorization. */
  method ResolveFields(leaves: seq<Leaf>, values: Point, authorized: set<string>)
    returns (result: Checked<Resolved, Failure>)
    requires AllBound(leaves, values)
    ensures FlatBound(Flatten(leaves), values)
    ensures result.Ok? <==> FlatSupported(Flatten(leaves), values, authorized)
    ensures result.Raised? ==> result.error == OutsideSupport
    ensures result.Ok? ==> result.value.fields == FlatValues(Flatten(leaves), values)
    ensures result.Ok? ==> result.value.evidence == FlatEvidence(Flatten(leaves), values, authorized)
  {
    FlattenBound(leaves, values);
    var fields: map<Field, Value> := map[];
    var evidence: seq<Extrapolation> := [];
    for i := 0 to |leaves|
      invariant Filled(Flatten(leaves[..i]), values, authorized, Resolved(fields, evidence))
    {
      var leaf := leaves[i];
      ghost var done := Flatten(leaves[..i]);
      FlattenSnoc(leaves, i);
      for j := 0 to |leaf.items|
        invariant Filled(done + Fields(leaf, j), values, authorized, Resolved(fields, evidence))
      {
        ghost var before := Resolved(fields, evidence);
        var item := leaf.items[j];
        assert leaf in leaves && item in leaf.items && Bound(item.binding, values);
        var value, seen := ResolveBinding((leaf.path, item.field), item.binding, values, authorized);
        evidence := evidence + seen;
        if value.Raised? {
          UnsupportedIn(leaves, i, j, values, authorized);
          return Raised(value.error);
        }
        fields := fields[(leaf.path, item.field) := value.value];
        FilledExtend(done + Fields(leaf, j), ((leaf.path, item.field), item.binding), values, authorized,
                     before, Resolved(fields, evidence));
        FieldsSnoc(done, leaf, j);
      }
    }
    assert leaves[..|leaves|] == leaves;
    result := Ok(Resolved(fields, evidence));
  }

  lemma {:induction false} FlattenHas(leaves: seq<Leaf>, i: nat, j: nat)
    requires i < |leaves| && j < |leaves[i].items|
    ensures ((leaves[i].path, leaves[i].items[j].field), leaves[i].items[j].binding) in Flatten(leaves)
    decreases |leaves|
  {
    var last := |leaves| - 1;
    if i < last {
      FlattenHas(leaves[..last], i, j);
    } else {
      assert Fields(leaves[last], |leaves[last].items|)[j] in Fields(leaves[last], |leaves[last].items|);
    }
  }

  lemma UnsupportedIn(leaves: seq<Leaf>, i: nat, j: nat, values: Point, authorized: set<string>)
    requires FlatBound(Flatten(leaves), values)
    requires i < |leaves| && j < |leaves[i].items| && Bound(leaves[i].items[j].binding, values)
    requires !Supported(leaves[i].items[j].binding, values, authorized)
    ensures !FlatSupported(Flatten(leaves), values, authorized)
  {
    FlattenHas(leaves, i, j);
  }

  // ---- The signs physical lowering demands --------------------------------------------

  datatype Sign = Positive | Nonnegative | Free

  function SignOf(leaf: Leaf, field: string): Sign {
    match leaf.model
    case Capacitor => if field == "capacitance" then Positive else Free
    case Resistor => if field == "resistance" then Positive else Free
    case TransmissionLine => if field == "length" then Positive else Free
    case Inductor => if field in leaf.inductances then Positive else Free
    case JosephsonJunction =>
      if field in leaf.inductances then Positive
      else if field == "junction_capacitance" then Nonnegative else Free
  }

  predicate HasSign(value: Value, sign: Sign) {
    match sign
    case Positive => value.Quantity? && value.si > 0.0
    case Nonnegative => value.Quantity? && value.si >= 0.0
    case Free => true
  }

  /** Every R, L, C, junction capacitance and line length has its required sign. */
  predicate Physical(leaves: seq<Leaf>, fields: map<Field, Value>) {
    forall leaf :: leaf in leaves ==> forall item :: item in leaf.items ==>
      (leaf.path, item.field) in fields && HasSign(fields[(leaf.path, item.field)], SignOf(leaf, item.field))
  }

  // ---- Continuation stays physical ------------------------------------------------------

  function Between(base: Value, candidate: Value, t: real): Value {
    if base.Quantity? && candidate.Quantity? then Quantity(base.si + t * (candidate.si - base.si)) else base
  }

  lemma Convex(a: real, b: real, t: real, lower: real, upper: real)
    requires 0.0 <= t <= 1.0 && lower <= a <= upper && lower <= b <= upper
    ensures lower <= a + t * (b - a) <= upper
  {
    var s := 1.0 - t;
    var x := a + t * (b - a);
    assert x - lower == s * (a - lower) + t * (b - lower);
    assert upper - x == s * (upper - a) + t * (upper - b);
    Product(s, a - lower);
    Product(t, b - lower);
    Product(s, upper - a);
    Product(t, upper - b);
  }

  lemma Product(a: real, b: real)
    requires a >= 0.0 && b >= 0.0
    ensures a * b >= 0.0
    ensures a > 0.0 && b > 0.0 ==> a * b > 0.0
  {
  }

  lemma ConvexSign(a: real, b: real, t: real)
    requires 0.0 <= t <= 1.0 && a >= 0.0 && b >= 0.0
    ensures a + t * (b - a) >= 0.0
    ensures a > 0.0 && b > 0.0 ==> a + t * (b - a) > 0.0
  {
    var s := 1.0 - t;
    assert a + t * (b - a) == s * a + t * b;
    Product(s, a);
    Product(t, b);
  }

  lemma AffineBetween(slope: real, intercept: real, a: real, b: real, t: real)
    ensures slope * (a + t * (b - a)) + intercept ==
            (slope * a + intercept) + t * ((slope * b + intercept) - (slope * a + intercept))
  {
    var d := b - a;
    assert slope * (a + t * d) == slope * a + slope * (t * d);
    assert slope * (t * d) == t * (slope * d);
    assert slope * d == slope * b - slope * a;
  }

  /** The point and the two ends agree binding by binding. */
  lemma BindingBetween(binding: Binding, baseline: Point, values: Point, t: real, point: Point, authorized: set<string>)
    requires Compatible(baseline, values) && 0.0 <= t <= 1.0 && Interpolate(baseline, values, t) == Ok(point)
    requires Bound(binding, baseline)
    ensures Bound(binding, values) && Bound(binding, point)
    ensures ValueOf(binding, point) == Between(ValueOf(binding, baseline), ValueOf(binding, values), t)
    ensures Supported(binding, baseline, authorized) && Supported(binding, values, authorized) ==>
      Supported(binding, point, authorized)
  {
    if binding.Affine? {
      var a, b := baseline[binding.input].si, values[binding.input].si;
      assert point[binding.input] == Quantity(a + t * (b - a));
      AffineBetween(binding.slope, binding.intercept, a, b, t);
      assert ValueOf(binding, baseline) == Quantity(binding.slope * a + binding.intercept);
      assert ValueOf(binding, values) == Quantity(binding.slope * b + binding.intercept);
      assert ValueOf(binding, point) == Quantity(binding.slope * (a + t * (b - a)) + binding.intercept);
      if InSupport(binding, a) && InSupport(binding, b) {
        Convex(a, b, t, binding.lower, binding.upper);
      }
    }
  }

  lemma {:induction false} ValuesBetween(flat: seq<(Field, Binding)>, baseline: Point, values: Point, t: real, point: Point)
    requires Compatible(baseline, values) && 0.0 <= t <= 1.0 && Interpolate(baseline, values, t) == Ok(point)
    requires FlatBound(flat, baseline)
    ensures FlatBound(flat, values) && FlatBound(flat, point)
    ensures var f0, f1, f := FlatValues(flat, baseline), FlatValues(flat, values), FlatValues(flat, point);
      f.Keys == f0.Keys == f1.Keys && forall key :: key in f ==> f[key] == Between(f0[key], f1[key], t)
  {
    if flat != [] {
      var last := |flat| - 1;
      ValuesBetween(flat[..last], baseline, values, t, point);
      BindingBetween(flat[last].1, baseline, values, t, point, {});
    }
  }

  /** The document resolves at these values. */
  predicate Resolves(leaves: seq<Leaf>, values: Point, authorized: set<string>) {
    && AllBound(leaves, values)
    && FlatBound(Flatten(leaves), values)
    && FlatSupported(Flatten(leaves), values, authorized)
    && Physical(leaves, FlatValues(Flatten(leaves), values))
  }

  lemma PhysicalBetween(leaves: seq<Leaf>, f0: map<Field, Value>, f1: map<Field, Value>, f: map<Field, Value>, t: real)
    requires 0.0 <= t <= 1.0 && Physical(leaves, f0) && Physical(leaves, f1)
    requires f.Keys == f0.Keys == f1.Keys && forall key :: key in f ==> f[key] == Between(f0[key], f1[key], t)
    ensures Physical(leaves, f)
  {
    forall leaf, item | leaf in leaves && item in leaf.items
      ensures (leaf.path, item.field) in f && HasSign(f[(leaf.path, item.field)], SignOf(leaf, item.field))
    {
      var key := (leaf.path, item.field);
      assert HasSign(f0[key], SignOf(leaf, item.field)) && HasSign(f1[key], SignOf(leaf, item.field));
      SignBetween(f0[key], f1[key], t, SignOf(leaf, item.field));
    }
  }

  lemma SignBetween(base: Value, candidate: Value, t: real, sign: Sign)
    requires 0.0 <= t <= 1.0 && HasSign(base, sign) && HasSign(candidate, sign)
    ensures HasSign(Between(base, candidate, t), sign)
  {
    if sign != Free {
      ConvexSign(base.si, candidate.si, t);
      assert Between(base, candidate, t).si == base.si + t * (candidate.si - base.si);
    }
  }

  /** If the baseline and the candidate both resolve, so does every point between
      them: unauthorized inputs stay in support, every field lies between its two
      ends, and the fields keep the signs that lowering demands. */
  lemma ContinuationStaysPhysical(
      leaves: seq<Leaf>, baseline: Point, values: Point, t: real, point: Point, authorized: set<string>)
    requires Compatible(baseline, values) && 0.0 <= t <= 1.0 && Interpolate(baseline, values, t) == Ok(point)
    requires Resolves(leaves, baseline, authorized) && Resolves(leaves, values, authorized)
    ensures Resolves(leaves, point, authorized)
    ensures var flat := Flatten(leaves);
      var f0, f1, f := FlatValues(flat, baseline), FlatValues(flat, values), FlatValues(flat, point);
      f.Keys == f0.Keys == f1.Keys && forall key :: key in f ==> f[key] == Between(f0[key], f1[key], t)
  {
    var flat := Flatten(leaves);
    ValuesBetween(flat, baseline, values, t, point);
    forall leaf, item | leaf in leaves && item in leaf.items ensures Bound(item.binding, point) {
      BindingBetween(item.binding, baseline, values, t, point, authorized);
    }
    forall i | 0 <= i < |flat| ensures Supported(flat[i].1, point, authorized) {
      BindingBetween(flat[i].1, baseline, values, t, point, authorized);
    }
    PhysicalBetween(leaves, FlatValues(flat, baseline), FlatValues(flat, values), FlatValues(flat, point), t);
  }

  // ---- The authoring resolver -----------------------------------------------------------

  /** A parameter definition as captured: its baseline and whether it is RLGC. */
  datatype Definition = Definition(baseline: Value)

  datatype Supplied = Supplied(values: Point, extrapolation: set<string>)

  const InvalidPoint := Failure(OtherKind("validation"), "authoring", "")

  function Effective(refs: map<string, Definition>, supplied: Supplied): (values: Point)
    ensures values.Keys == refs.Keys
  {
    map ref | ref in refs :: if ref in supplied.values then supplied.values[ref] else refs[ref].baseline
  }

  /** A supplied point names captured parameters with their captured type, and
      authorizes extrapolation only of captured quantities. */
  predicate ValidSupplied(refs: map<string, Definition>, supplied: Supplied) {
    && (forall ref :: ref in supplied.values ==>
          ref in refs && supplied.values[ref].Quantity? == refs[ref].baseline.Quantity?)
    && (forall ref :: ref in supplied.extrapolation ==> ref in refs && refs[ref].baseline.Quantity?)
  }

  predicate Closed(leaves: seq<Leaf>, refs: map<string, Definition>) {
    AllBound(leaves, map ref | ref in refs :: refs[ref].baseline)
  }

  lemma EffectiveBound(leaves: seq<Leaf>, refs: map<string, Definition>, supplied: Supplied)
    requires Closed(leaves, refs) && ValidSupplied(refs, supplied)
    ensures AllBound(leaves, Effective(refs, supplied))
  {
    var base := map ref | ref in refs :: refs[ref].baseline;
    forall leaf, item | leaf in leaves && item in leaf.items ensures Bound(item.binding, Effective(refs, supplied)) {
      assert Bound(item.binding, base);
    }
  }

  /** `_validate_captured_field`: a quantity lies in the domain its flags demand; an RLGC record is not
      looked at. */
  predicate InDomain(value: Value, item: Item) {
    value.Quantity? ==> (item.positive ==> value.si > 0.0) && (item.nonnegative ==> value.si >= 0.0)
  }

  predicate LeafInDomain(leaf: Leaf, values: Point, n: nat)
    requires n <= |leaf.items|
  {
    forall k :: 0 <= k < n ==>
      (Bound(leaf.items[k].binding, values) && InDomain(ValueOf(leaf.items[k].binding, values), leaf.items[k]))
  }

  /** Every field lies in its captured domain, checked as soon as the field is resolved. */
  predicate AllInDomain(leaves: seq<Leaf>, values: Point) {
    forall i :: 0 <= i < |leaves| ==> LeafInDomain(leaves[i], values, |leaves[i].items|)
  }

  /** Resolves one captured binding; the literal base comes first, then affine. */
  method ResolveCaptured(binding: Binding, values: Point, authorized: set<string>)
    returns (value: Checked<Value, Failure>)
    requires Bound(binding, values)
    ensures value.Ok? <==> Supported(binding, values, authorized)
    ensures value.Ok? ==> value.value == ValueOf(binding, values)
  {
    match binding {
      case Constant(source) =>
        value := Ok(source);
      case Affine(input, slope, intercept, lower, upper) =>
        var x := values[input].si;
        if !(lower <= x <= upper) && input !in authorized {
          return Raised(InvalidPoint);
        }
        value := Ok(Quantity(slope * x + intercept));
      case Ref(parameter) =>
        value := Ok(values[parameter]);
    }
  }

  /** The table holds exactly the fields of `flat`, all supported. */
  predicate Tabled(flat: seq<(Field, Binding)>, values: Point, authorized: set<string>, fields: map<Field, Value>) {
    FlatBound(flat, values) && FlatSupported(flat, values, authorized) && fields == FlatValues(flat, values)
  }

  lemma TabledExtend(flat: seq<(Field, Binding)>, entry: (Field, Binding), values: Point, authorized: set<string>,
                     fields: map<Field, Value>)
    requires Tabled(flat, values, authorized, fields)
    requires Bound(entry.1, values) && Supported(entry.1, values, authorized)
    ensures Tabled(flat + [entry], values, authorized, fields[entry.0 := ValueOf(entry.1, values)])
  {
    assert (flat + [entry])[..|flat|] == flat;
  }

  /** Every field of the leaf is supported and lies in its captured domain. */
  predicate LeafAccepted(leaf: Leaf, values: Point, authorized: set<string>) {
    LeafInDomain(leaf, values, |leaf.items|) &&
    forall j :: 0 <= j < |leaf.items| ==> Supported(leaf.items[j].binding, values, authorized)
  }

  /** Resolves and validates the fields of one leaf into the table. */
  method ResolveLeaf(leaf: Leaf, values: Point, authorized: set<string>, before: map<Field, Value>,
                     ghost done: seq<(Field, Binding)>)
    returns (result: Checked<map<Field, Value>, Failure>)
    requires forall item :: item in leaf.items ==> Bound(item.binding, values)
    requires Tabled(done, values, authorized, before)
    ensures result.Ok? <==> LeafAccepted(leaf, values, authorized)
    ensures result.Ok? ==> Tabled(done + Fields(leaf, |leaf.items|), values, authorized, result.value)
  {
    hide FlatValues, Bound, SignOf, InDomain;
    var fields := before;
    assert done + Fields(leaf, 0) == done;
    for j := 0 to |leaf.items|
      invariant Tabled(done + Fields(leaf, j), values, authorized, fields)
      invariant LeafInDomain(leaf, values, j)
      invariant forall k :: 0 <= k < j ==> Supported(leaf.items[k].binding, values, authorized)
    {
      var item := leaf.items[j];
      var value := ResolveCaptured(item.binding, values, authorized);
      if value.Raised? {
        return Raised(InvalidPoint);
      }
      if !InDomain(value.value, item) {
        return Raised(InvalidPoint);
      }
      TabledExtend(done + Fields(leaf, j), ((leaf.path, item.field), item.binding), values, authorized, fields);
      FieldsSnoc(done, leaf, j);
      fields := fields[(leaf.path, item.field) := value.value];
    }
    result := Ok(fields);
  }

  lemma LeavesSupported(leaves: seq<Leaf>, values: Point, authorized: set<string>)
    requires FlatBound(Flatten(leaves), values) && FlatSupported(Flatten(leaves), values, authorized)
    ensures forall i, j :: 0 <= i < |leaves| && 0 <= j < |leaves[i].items| ==>
      Bound(leaves[i].items[j].binding, values) && Supported(leaves[i].items[j].binding, values, authorized)
  {
    forall i, j | 0 <= i < |leaves| && 0 <= j < |leaves[i].items|
      ensures Bound(leaves[i].items[j].binding, values) && Supported(leaves[i].items[j].binding, values, authorized)
    {
      FlattenHas(leaves, i, j);
    }
  }

  /** Resolves a captured parameter point: validates the supplied set, completes
      it with the baselines, and fills and validates the fields one by one. */
  method ResolveParameterPoint(leaves: seq<Leaf>, refs: map<string, Definition>, supplied: Supplied)
    returns (result: Checked<map<Field, Value>, Failure>)
    requires Closed(leaves, refs)
    ensures ValidSupplied(refs, supplied) ==> FlatBound(Flatten(leaves), Effective(refs, supplied))
    ensures result.Ok? <==>
      && ValidSupplied(refs, supplied)
      && FlatSupported(Flatten(leaves), Effective(refs, supplied), supplied.extrapolation)
      && AllInDomain(leaves, Effective(refs, supplied))
    ensures result.Ok? ==> result.value == FlatValues(Flatten(leaves), Effective(refs, supplied))
  {
    if !ValidSupplied(refs, supplied) {
      return Raised(InvalidPoint);
    }
    EffectiveBound(leaves, refs, supplied);
    var values := Effective(refs, supplied);
    FlattenBound(leaves, values);
    var fields: map<Field, Value> := map[];
    for i := 0 to |leaves|
      invariant Tabled(Flatten(leaves[..i]), values, supplied.extrapolation, fields)
      invariant forall k :: 0 <= k < i ==> LeafInDomain(leaves[k], values, |leaves[k].items|)
    {
      assert leaves[i] in leaves;
      var table := ResolveLeaf(leaves[i], values, supplied.extrapolation, fields, Flatten(leaves[..i]));
      if table.Raised? {
        if FlatSupported(Flatten(leaves), values, supplied.extrapolation) {
          LeavesSupported(leaves, values, supplied.extrapolation);
        }
        return Raised(table.error);
      }
      FlattenSnoc(leaves, i);
      fields := table.value;
    }
    assert leaves[..|leaves|] == leaves;
    result := Ok(fields);
  }

  /** Field identities are unique in a captured document. */
  predicate UniqueFields(flat: seq<(Field, Binding)>) {
    forall i, j :: 0 <= i < j < |flat| ==> flat[i].0 != flat[j].0
  }

  lemma {:induction false} ValueAt(flat: seq<(Field, Binding)>, values: Point, i: nat)
    requires FlatBound(flat, values) && UniqueFields(flat) && i < |flat|
    ensures flat[i].0 in FlatValues(flat, values)
    ensures FlatValues(flat, values)[flat[i].0] == ValueOf(flat[i].1, values)
  {
    var last := |flat| - 1;
    if i < last {
      ValueAt(flat[..last], values, i);
    }
  }

  // ---- The resolvers agree ----------------------------------------------------------------

  predicate IsField(item: Item, field: string, positive: bool, nonnegative: bool) {
    item.field == field && item.positive == positive && item.nonnegative == nonnegative
  }

  /** The fields and flags the built-in factories give the leaves they create. */
  predicate FromCatalog(leaf: Leaf) {
    match leaf.model
    case Capacitor => leaf.inductances == {} && |leaf.items| == 1 && IsField(leaf.items[0], "capacitance", true, false)
    case Resistor => leaf.inductances == {} && |leaf.items| == 1 && IsField(leaf.items[0], "resistance", true, false)
    case Inductor =>
      leaf.inductances == {"inductance"} && |leaf.items| == 1 && IsField(leaf.items[0], "inductance", true, false)
    case JosephsonJunction =>
      && leaf.inductances == {"josephson_inductance"} && |leaf.items| == 2
      && IsField(leaf.items[0], "josephson_inductance", true, false)
      && IsField(leaf.items[1], "junction_capacitance", false, true)
    case TransmissionLine =>
      && leaf.inductances == {} && |leaf.items| == 2
      && IsField(leaf.items[0], "length", true, false) && IsField(leaf.items[1], "rlgc", false, false)
  }

  /** A binding that yields a quantity; only a reference to an RLGC parameter or an RLGC constant does not. */
  predicate Scalar(binding: Binding, refs: map<string, Definition>) {
    match binding
    case Constant(value) => value.Quantity?
    case Ref(parameter) => parameter in refs ==> refs[parameter].baseline.Quantity?
    case Affine(_, _, _, _, _) => true
  }

  /** No field with a domain is bound to an RLGC record. */
  predicate ScalarDomains(leaves: seq<Leaf>, refs: map<string, Definition>) {
    forall i, j :: 0 <= i < |leaves| && 0 <= j < |leaves[i].items| ==> ScalarItem(leaves[i].items[j], refs)
  }

  predicate ScalarItem(item: Item, refs: map<string, Definition>) {
    item.positive || item.nonnegative ==> Scalar(item.binding, refs)
  }

  /** The factories' flags and the compiler's sign tests agree on quantities. */
  lemma FlagsAreSigns(leaf: Leaf, j: nat, value: Value)
    requires FromCatalog(leaf) && j < |leaf.items|
    ensures HasSign(value, SignOf(leaf, leaf.items[j].field)) <==>
      InDomain(value, leaf.items[j]) && (leaf.items[j].positive || leaf.items[j].nonnegative ==> value.Quantity?)
  {
  }

  lemma ScalarValue(binding: Binding, refs: map<string, Definition>, supplied: Supplied)
    requires ValidSupplied(refs, supplied) && Bound(binding, map ref | ref in refs :: refs[ref].baseline)
    ensures Bound(binding, Effective(refs, supplied))
    ensures ValueOf(binding, Effective(refs, supplied)).Quantity? <==> Scalar(binding, refs)
  {
  }

  /** The compiler's field table lists every item at its own value. */
  lemma TableHas(leaves: seq<Leaf>, values: Point, i: nat, j: nat)
    requires FlatBound(Flatten(leaves), values) && UniqueFields(Flatten(leaves))
    requires i < |leaves| && j < |leaves[i].items| && Bound(leaves[i].items[j].binding, values)
    ensures (leaves[i].path, leaves[i].items[j].field) in FlatValues(Flatten(leaves), values)
    ensures FlatValues(Flatten(leaves), values)[(leaves[i].path, leaves[i].items[j].field)] == ValueOf(leaves[i].items[j].binding, values)
  {
    var flat := Flatten(leaves);
    FlattenHas(leaves, i, j);
    var k :| 0 <= k < |flat| && flat[k] == ((leaves[i].path, leaves[i].items[j].field), leaves[i].items[j].binding);
    ValueAt(flat, values, k);
  }

  predicate SignedAt(leaves: seq<Leaf>, fields: map<Field, Value>, i: nat, j: nat)
    requires i < |leaves| && j < |leaves[i].items|
  {
    var key := (leaves[i].path, leaves[i].items[j].field);
    key in fields && HasSign(fields[key], SignOf(leaves[i], leaves[i].items[j].field))
  }

  lemma PhysicalByIndex(leaves: seq<Leaf>, fields: map<Field, Value>)
    ensures Physical(leaves, fields) <==>
      forall i, j :: 0 <= i < |leaves| && 0 <= j < |leaves[i].items| ==> SignedAt(leaves, fields, i, j)
  {
    if Physical(leaves, fields) {
      forall i, j | 0 <= i < |leaves| && 0 <= j < |leaves[i].items|
        ensures SignedAt(leaves, fields, i, j)
      {
        assert leaves[i] in leaves && leaves[i].items[j] in leaves[i].items;
      }
    } else {
      var leaf, item :| leaf in leaves && item in leaf.items &&
        !((leaf.path, item.field) in fields && HasSign(fields[(leaf.path, item.field)], SignOf(leaf, item.field)));
      var i :| 0 <= i < |leaves| && leaves[i] == leaf;
      var j :| 0 <= j < |leaf.items| && leaf.items[j] == item;
      assert !SignedAt(leaves, fields, i, j);
    }
  }

  /** What the factories demand of the captured fields is what lowering demands of the resolved ones,
      exactly when no field with a domain is bound to an RLGC record. */
  lemma DomainsAreSigns(leaves: seq<Leaf>, refs: map<string, Definition>, supplied: Supplied)
    requires Closed(leaves, refs) && ValidSupplied(refs, supplied) && UniqueFields(Flatten(leaves))
    requires forall leaf :: leaf in leaves ==> FromCatalog(leaf)
    ensures var values := Effective(refs, supplied);
      && AllBound(leaves, values) && FlatBound(Flatten(leaves), values)
      && (Physical(leaves, FlatValues(Flatten(leaves), values)) <==> AllInDomain(leaves, values) && ScalarDomains(leaves, refs))
  {
    var values := Effective(refs, supplied);
    EffectiveBound(leaves, refs, supplied);
    FlattenBound(leaves, values);
    var fields := FlatValues(Flatten(leaves), values);
    PhysicalByIndex(leaves, fields);
    forall i, j | 0 <= i < |leaves| && 0 <= j < |leaves[i].items|
      ensures Bound(leaves[i].items[j].binding, values)
      ensures SignedAt(leaves, fields, i, j) <==>
        InDomain(ValueOf(leaves[i].items[j].binding, values), leaves[i].items[j]) && ScalarItem(leaves[i].items[j], refs)
    {
      DomainIsSign(leaves, refs, supplied, i, j);
    }
    AcceptedByIndex(leaves, values);
  }

  lemma DomainIsSign(leaves: seq<Leaf>, refs: map<string, Definition>, supplied: Supplied, i: nat, j: nat)
    requires Closed(leaves, refs) && ValidSupplied(refs, supplied) && UniqueFields(Flatten(leaves))
    requires forall leaf :: leaf in leaves ==> FromCatalog(leaf)
    requires i < |leaves| && j < |leaves[i].items| && FlatBound(Flatten(leaves), Effective(refs, supplied))
    ensures Bound(leaves[i].items[j].binding, Effective(refs, supplied))
    ensures var values := Effective(refs, supplied);
      SignedAt(leaves, FlatValues(Flatten(leaves), values), i, j) <==>
        InDomain(ValueOf(leaves[i].items[j].binding, values), leaves[i].items[j]) && ScalarItem(leaves[i].items[j], refs)
  {
    var item := leaves[i].items[j];
    assert leaves[i] in leaves && item in leaves[i].items;
    ScalarValue(item.binding, refs, supplied);
    TableHas(leaves, Effective(refs, supplied), i, j);
    FlagsAreSigns(leaves[i], j, ValueOf(item.binding, Effective(refs, supplied)));
  }

  lemma AcceptedByIndex(leaves: seq<Leaf>, values: Point)
    requires forall i, j :: 0 <= i < |leaves| && 0 <= j < |leaves[i].items| ==> Bound(leaves[i].items[j].binding, values)
    ensures AllInDomain(leaves, values) <==> forall i, j :: 0 <= i < |leaves| && 0 <= j < |leaves[i].items| ==>
      InDomain(ValueOf(leaves[i].items[j].binding, values), leaves[i].items[j])
  {
  }

  /** Both resolvers on one supplied point: the authoring resolver accepts it, with no field of a domain
      bound to an RLGC record, exactly when it is valid, the compiler's resolver accepts its effective
      values and every resolved field has its sign; and the two field tables are then equal. */
  method ResolveBoth(leaves: seq<Leaf>, refs: map<string, Definition>, supplied: Supplied)
    returns (authored: Checked<map<Field, Value>, Failure>, lowered: Checked<Resolved, Failure>)
    requires Closed(leaves, refs) && UniqueFields(Flatten(leaves))
    requires forall leaf :: leaf in leaves ==> FromCatalog(leaf)
    ensures authored.Ok? && ScalarDomains(leaves, refs) <==>
      ValidSupplied(refs, supplied) && lowered.Ok? && Physical(leaves, lowered.value.fields)
    ensures authored.Ok? ==> lowered.Ok? && lowered.value.fields == authored.value
  {
    authored := ResolveParameterPoint(leaves, refs, supplied);
    if !ValidSupplied(refs, supplied) {
      return authored, Raised(InvalidPoint);
    }
    DomainsAreSigns(leaves, refs, supplied);
    lowered := ResolveFields(leaves, Effective(refs, supplied), supplied.extrapolation);
  }

  function MisboundCapacitor(): Leaf {
    Leaf("c", Capacitor, [Item("capacitance", Ref("p"), true, false)], {})
  }

  function LineParameter(): map<string, Definition> {
    map["p" := Definition(Rlgc("line"))]
  }

  /** The authoring resolver lets an RLGC parameter stand for a capacitance; lowering has no such value. */
  lemma RlgcForCapacitance()
    ensures var leaves, refs, supplied := [MisboundCapacitor()], LineParameter(), Supplied(map[], {});
      && Closed(leaves, refs) && ValidSupplied(refs, supplied) && FromCatalog(leaves[0]) && !ScalarDomains(leaves, refs)
      && FlatBound(Flatten(leaves), Effective(refs, supplied))
      && FlatSupported(Flatten(leaves), Effective(refs, supplied), {}) && AllInDomain(leaves, Effective(refs, supplied))
      && !Physical(leaves, FlatValues(Flatten(leaves), Effective(refs, supplied)))
  {
    hide FlatValues, Physical;
    var leaves, refs, supplied := [MisboundCapacitor()], LineParameter(), Supplied(map[], {});
    assert !ScalarItem(leaves[0].items[0], refs);
    assert Flatten(leaves) == [(("c", "capacitance"), Ref("p"))] by {
      hide Effective;
      assert leaves[..0] == [] && Fields(leaves[0], 1) == [(("c", "capacitance"), Ref("p"))];
    }
    DomainsAreSigns(leaves, refs, supplied);
  }
}
