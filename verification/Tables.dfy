/** The resolved field tables, field by field. */
module Tables {
  // What a table holds for each kind of binding, when a point is accepted, and which extrapolations are reported.

  import opened Common
  import opened Continuation
  import opened Resolution

  // ---- Bindings -------------------------------------------------------------------------------------------

  /** The values to resolve at, by parameter. */
  type Given = string -> Option<Value>

  /** A value for every parameter of the map. */
  function InMap(values: Point): Given {
    (key: string) => if key in values then Some(values[key]) else None
  }

  /** A supplied value where there is one, and the captured baseline otherwise. */
  function Completed(refs: map<string, Definition>, supplied: Supplied): Given {
    (key: string) =>
      if key !in refs then None
      else if key in supplied.values then Some(supplied.values[key])
      else Some(refs[key].baseline)
  }

  /** What a binding stands for: its literal, the parameter's value, or the line through the input's. */
  predicate Means(binding: Binding, given: Given, value: Value) {
    match binding
    case Constant(literal) => value == literal
    case Ref(parameter) => given(parameter) == Some(value)
    case Affine(input, slope, intercept, _, _) =>
      given(input).Some? && given(input).value.Quantity? && value == Quantity(slope * given(input).value.si + intercept)
  }

  /** An affine input beyond its support. */
  predicate Beyond(binding: Binding, given: Given, x: real) {
    binding.Affine? && given(binding.input) == Some(Quantity(x)) && !(binding.lower <= x && x <= binding.upper)
  }

  /** No input of the binding is beyond its support without authorization. */
  predicate Permitted(binding: Binding, given: Given, authorized: set<string>) {
    binding.Affine? && binding.input !in authorized && given(binding.input).Some? && given(binding.input).value.Quantity? ==>
      binding.lower <= given(binding.input).value.si && given(binding.input).value.si <= binding.upper
  }

  /** A quantity of a positive field is positive, of a nonnegative one not negative. */
  predicate Sized(item: Item, value: Value) {
    value.Quantity? ==> (item.positive ==> value.si > 0.0) && (item.nonnegative ==> !(value.si < 0.0))
  }

  predicate At(leaves: seq<Leaf>, i: int, j: int) {
    0 <= i < |leaves| && 0 <= j < |leaves[i].items|
  }

  /** No two items of a document are one field. */
  ghost predicate Identities(leaves: seq<Leaf>) {
    forall i, j, k, l :: At(leaves, i, j) && At(leaves, k, l) && IdentityOf(leaves, i, j) == IdentityOf(leaves, k, l) ==> i == k && j == l
  }

  function IdentityOf(leaves: seq<Leaf>, i: nat, j: nat): Field
    requires At(leaves, i, j)
  {
    (leaves[i].path, leaves[i].items[j].field)
  }

  predicate EntrySays(leaves: seq<Leaf>, given: Given, fields: map<Field, Value>, i: nat, j: nat)
    requires At(leaves, i, j)
  {
    var item := leaves[i].items[j];
    var key := (leaves[i].path, item.field);
    key in fields && Means(item.binding, given, fields[key])
  }

  /** Every item of every leaf has its own binding's value, and the table holds nothing else. */
  ghost predicate TableSays(leaves: seq<Leaf>, given: Given, fields: map<Field, Value>) {
    && (forall i, j :: At(leaves, i, j) ==> EntrySays(leaves, given, fields, i, j))
    && (forall key :: key in fields ==> exists i, j :: At(leaves, i, j) && key == (leaves[i].path, leaves[i].items[j].field))
  }

  ghost predicate AllPermitted(leaves: seq<Leaf>, given: Given, authorized: set<string>) {
    forall i, j :: At(leaves, i, j) ==> Permitted(leaves[i].items[j].binding, given, authorized)
  }

  ghost predicate AllSized(leaves: seq<Leaf>, fields: map<Field, Value>) {
    forall i, j :: At(leaves, i, j) ==> SizedAt(leaves, fields, i, j)
  }

  predicate SizedAt(leaves: seq<Leaf>, fields: map<Field, Value>, i: nat, j: nat)
    requires At(leaves, i, j)
  {
    var key := (leaves[i].path, leaves[i].items[j].field);
    key in fields ==> Sized(leaves[i].items[j], fields[key])
  }

  // ---- Tables ---------------------------------------------------------------------------------------------

  lemma BindingMeans(binding: Binding, values: Point, given: Given, authorized: set<string>)
    requires Bound(binding, values) && forall key :: given(key) == InMap(values)(key)
    ensures Means(binding, given, ValueOf(binding, values))
    ensures Permitted(binding, given, authorized) <==> Supported(binding, values, authorized)
  {
  }

  lemma {:induction false} TableKeys(flat: seq<(Field, Binding)>, values: Point)
    requires FlatBound(flat, values)
    ensures forall key :: key in FlatValues(flat, values) ==> exists entry :: entry in flat && entry.0 == key
  {
    if flat != [] {
      var last := |flat| - 1;
      TableKeys(flat[..last], values);
      assert forall entry :: entry in flat[..last] ==> entry in flat;
      assert flat[last] in flat;
    }
  }

  /** Where an item stands in the flattened document. */
  function Place(leaves: seq<Leaf>, i: nat, j: nat): nat
    requires i < |leaves| && j < |leaves[i].items|
  {
    |Flatten(leaves[..i])| + j
  }

  lemma IdentitiesUnique(leaves: seq<Leaf>)
    requires Identities(leaves)
    ensures UniqueFields(Flatten(leaves))
  {
    var flat := Flatten(leaves);
    forall k, l | 0 <= k < l < |flat| ensures flat[k].0 != flat[l].0 {
      var i, j := FlattenAt(leaves, k);
      var m, n := FlattenAt(leaves, l);
      assert flat[k].0 == IdentityOf(leaves, i, j) && flat[l].0 == IdentityOf(leaves, m, n);
    }
  }

  /** Every place of the flattened document is that of one item. */
  lemma {:induction false} FlattenAt(leaves: seq<Leaf>, k: nat) returns (i: nat, j: nat)
    requires k < |Flatten(leaves)|
    ensures At(leaves, i, j) && k == Place(leaves, i, j)
    ensures Flatten(leaves)[k] == ((leaves[i].path, leaves[i].items[j].field), leaves[i].items[j].binding)
    decreases |leaves|
  {
    var last := |leaves| - 1;
    var before := Flatten(leaves[..last]);
    if k < |before| {
      i, j := FlattenAt(leaves[..last], k);
      assert leaves[..last][..i] == leaves[..i];
    } else {
      i, j := last, k - |before|;
    }
  }

  /** A table of the fields of a document says what each of its bindings means. */
  lemma TableSaysSo(leaves: seq<Leaf>, values: Point, given: Given)
    requires FlatBound(Flatten(leaves), values) && Identities(leaves) && forall key :: given(key) == InMap(values)(key)
    ensures TableSays(leaves, given, FlatValues(Flatten(leaves), values))
  {
    hide ValueOf, Means, Bound, Identities, UniqueFields, InMap;
    var flat := Flatten(leaves);
    var fields := FlatValues(flat, values);
    IdentitiesUnique(leaves);
    forall i, j | At(leaves, i, j) ensures EntrySays(leaves, given, fields, i, j) {
      FlattenHas(leaves, i, j);
      var k :| 0 <= k < |flat| && flat[k] == ((leaves[i].path, leaves[i].items[j].field), leaves[i].items[j].binding);
      ValueAt(flat, values, k);
      BindingMeans(flat[k].1, values, given, {});
    }
    TableKeys(flat, values);
    forall key | key in fields ensures exists i, j :: At(leaves, i, j) && key == (leaves[i].path, leaves[i].items[j].field) {
      var entry :| entry in flat && entry.0 == key;
      var k :| 0 <= k < |flat| && flat[k] == entry;
      var i, j := FlattenAt(leaves, k);
    }
  }

  lemma PermittedSo(leaves: seq<Leaf>, values: Point, given: Given, authorized: set<string>)
    requires FlatBound(Flatten(leaves), values) && forall key :: given(key) == InMap(values)(key)
    ensures AllPermitted(leaves, given, authorized) <==> FlatSupported(Flatten(leaves), values, authorized)
  {
    hide Supported, Permitted, Bound, InMap;
    var flat := Flatten(leaves);
    forall i, j | At(leaves, i, j)
      ensures FlatSupported(flat, values, authorized) ==> Permitted(leaves[i].items[j].binding, given, authorized)
    {
      FlattenHas(leaves, i, j);
      var k :| 0 <= k < |flat| && flat[k] == ((leaves[i].path, leaves[i].items[j].field), leaves[i].items[j].binding);
      BindingMeans(flat[k].1, values, given, authorized);
    }
    forall k | 0 <= k < |flat|
      ensures AllPermitted(leaves, given, authorized) ==> Supported(flat[k].1, values, authorized)
    {
      var i, j := FlattenAt(leaves, k);
      BindingMeans(flat[k].1, values, given, authorized);
    }
  }

  lemma SizedSo(leaves: seq<Leaf>, values: Point)
    requires FlatBound(Flatten(leaves), values) && Identities(leaves)
    ensures AllSized(leaves, FlatValues(Flatten(leaves), values)) <==> AllInDomain(leaves, values)
  {
    hide ValueOf, Bound, Identities, UniqueFields;
    var flat := Flatten(leaves);
    var fields := FlatValues(flat, values);
    IdentitiesUnique(leaves);
    forall i, j | At(leaves, i, j)
      ensures Bound(leaves[i].items[j].binding, values)
      ensures SizedAt(leaves, fields, i, j) <==> InDomain(ValueOf(leaves[i].items[j].binding, values), leaves[i].items[j])
    {
      FlattenHas(leaves, i, j);
      var k :| 0 <= k < |flat| && flat[k] == ((leaves[i].path, leaves[i].items[j].field), leaves[i].items[j].binding);
      ValueAt(flat, values, k);
    }
  }

  // ---- The authoring resolver -----------------------------------------------------------------------------

  /** A supplied point names captured parameters only, each with the captured kind of value, and authorizes
      captured quantities only. */
  predicate Fitting(refs: map<string, Definition>, supplied: Supplied) {
    && (forall key :: key in supplied.values ==> key in refs && (supplied.values[key].Rlgc? <==> refs[key].baseline.Rlgc?))
    && (forall key :: key in supplied.extrapolation ==> key in refs && !refs[key].baseline.Rlgc?)
  }

  lemma FittingIsValid(refs: map<string, Definition>, supplied: Supplied)
    ensures Fitting(refs, supplied) <==> ValidSupplied(refs, supplied)
  {
  }

  /** Some table with all bindings' values meets every support and every domain of the document. */
  ghost predicate Acceptable(leaves: seq<Leaf>, refs: map<string, Definition>, supplied: Supplied, fields: map<Field, Value>) {
    && Fitting(refs, supplied) && TableSays(leaves, Completed(refs, supplied), fields)
    && AllPermitted(leaves, Completed(refs, supplied), supplied.extrapolation) && AllSized(leaves, fields)
  }

  /** The authoring resolver returns the table that says what every binding means at the supplied values, completed
      by the baselines, exactly when the point fits, no input leaves its support unauthorized and every quantity has
      its size. */
  method ResolveSupplied(leaves: seq<Leaf>, refs: map<string, Definition>, supplied: Supplied)
    returns (result: Checked<map<Field, Value>, Failure>)
    requires Closed(leaves, refs) && Identities(leaves)
    ensures result.Ok? ==> Acceptable(leaves, refs, supplied, result.value)
    ensures result.Raised? ==> forall fields :: !Acceptable(leaves, refs, supplied, fields)
  {
    result := ResolveParameterPoint(leaves, refs, supplied);
    FittingIsValid(refs, supplied);
    if ValidSupplied(refs, supplied) { AcceptsExactly(leaves, refs, supplied); }
  }

  lemma AcceptsExactly(leaves: seq<Leaf>, refs: map<string, Definition>, supplied: Supplied)
    requires Closed(leaves, refs) && Identities(leaves) && ValidSupplied(refs, supplied)
    requires FlatBound(Flatten(leaves), Effective(refs, supplied))
    ensures Acceptable(leaves, refs, supplied, FlatValues(Flatten(leaves), Effective(refs, supplied))) <==>
      FlatSupported(Flatten(leaves), Effective(refs, supplied), supplied.extrapolation) && AllInDomain(leaves, Effective(refs, supplied))
    ensures forall other :: Acceptable(leaves, refs, supplied, other) ==> other == FlatValues(Flatten(leaves), Effective(refs, supplied))
  {
    var values, given := Effective(refs, supplied), Completed(refs, supplied);
    var fields := FlatValues(Flatten(leaves), values);
    assert forall key :: given(key) == InMap(values)(key);
    hide AllPermitted, AllSized, TableSays, FlatSupported, AllInDomain, Effective, Completed, FlatValues, Identities;
    FittingIsValid(refs, supplied);
    TableSaysSo(leaves, values, given);
    PermittedSo(leaves, values, given, supplied.extrapolation);
    SizedSo(leaves, values);
    forall other | Acceptable(leaves, refs, supplied, other) ensures other == fields {
      TableUnique(leaves, given, other, fields);
    }
  }

  lemma TableUnique(leaves: seq<Leaf>, given: Given, a: map<Field, Value>, b: map<Field, Value>)
    requires TableSays(leaves, given, a) && TableSays(leaves, given, b)
    ensures a == b
  {
    forall key | key in a || key in b ensures key in a && key in b && a[key] == b[key] {
      var i, j :| At(leaves, i, j) && key == (leaves[i].path, leaves[i].items[j].field);
      assert EntrySays(leaves, given, a, i, j) && EntrySays(leaves, given, b, i, j);
    }
  }

  // ---- The compiler's resolver ----------------------------------------------------------------------------

  /** An item whose input is beyond its support, as reported. */
  predicate Reports(leaves: seq<Leaf>, given: Given, authorized: set<string>, mark: (nat, nat), report: Extrapolation) {
    && At(leaves, mark.0, mark.1)
    && var item := leaves[mark.0].items[mark.1];
       && Beyond(item.binding, given, report.input)
       && report == Extrapolation(item.binding.input, (leaves[mark.0].path, item.field), report.input, item.binding.input in authorized)
  }

  predicate Before(a: (nat, nat), b: (nat, nat)) {
    a.0 < b.0 || (a.0 == b.0 && a.1 < b.1)
  }

  /** The evidence lists every item beyond its support before `end`, in document order, and nothing else. */
  ghost predicate EvidenceSays(leaves: seq<Leaf>, given: Given, authorized: set<string>, end: (nat, nat),
                               evidence: seq<Extrapolation>, marks: seq<(nat, nat)>) {
    && |marks| == |evidence|
    && (forall k :: 0 <= k < |marks| ==> Before(marks[k], end) && Reports(leaves, given, authorized, marks[k], evidence[k]))
    && (forall k, l :: 0 <= k < l < |marks| ==> Before(marks[k], marks[l]))
    && (forall i: nat, j: nat, x :: BeyondAt(leaves, given, i, j, x) && Before((i, j), end) ==> (i, j) in marks)
  }

  ghost predicate BeyondAt(leaves: seq<Leaf>, given: Given, i: nat, j: nat, x: real) {
    At(leaves, i, j) && Beyond(leaves[i].items[j].binding, given, x)
  }

  lemma NothingListed(leaves: seq<Leaf>, values: Point, given: Given, authorized: set<string>)
    ensures EvidenceSays(leaves, given, authorized, (0, 0), FlatEvidence([], values, authorized), [])
  {
  }

  /** The document up to item `j` of leaf `i`. */
  function UpTo(leaves: seq<Leaf>, i: nat, j: nat): seq<(Field, Binding)>
    requires i < |leaves| && j <= |leaves[i].items|
  {
    Flatten(leaves[..i]) + Fields(leaves[i], j)
  }

  lemma UpToNext(leaves: seq<Leaf>, i: nat, j: nat)
    requires i < |leaves| && j < |leaves[i].items|
    ensures UpTo(leaves, i, j + 1) == UpTo(leaves, i, j) + [((leaves[i].path, leaves[i].items[j].field), leaves[i].items[j].binding)]
  {
    FieldsSnoc(Flatten(leaves[..i]), leaves[i], j);
  }

  lemma UpToLeaf(leaves: seq<Leaf>, i: nat)
    requires i < |leaves|
    ensures UpTo(leaves, i, 0) == if i == 0 then [] else UpTo(leaves, i - 1, |leaves[i - 1].items|)
  {
    if i > 0 { FlattenSnoc(leaves, i - 1); } else { assert leaves[..0] == []; }
  }

  ghost predicate ListedUpTo(leaves: seq<Leaf>, values: Point, given: Given, authorized: set<string>,
                             i: nat, j: nat, marks: seq<(nat, nat)>)
    requires i < |leaves| && j <= |leaves[i].items|
  {
    && FlatBound(UpTo(leaves, i, j), values)
    && EvidenceSays(leaves, given, authorized, (i, j), FlatEvidence(UpTo(leaves, i, j), values, authorized), marks)
  }

  lemma ItemBound(leaves: seq<Leaf>, values: Point, i: nat, j: nat)
    requires AllBound(leaves, values) && i < |leaves| && j < |leaves[i].items|
    ensures Bound(leaves[i].items[j].binding, values)
  {
    assert leaves[i] in leaves && leaves[i].items[j] in leaves[i].items;
  }

  lemma {:induction false} EvidenceListed(leaves: seq<Leaf>, values: Point, given: Given, authorized: set<string>, i: nat, j: nat)
    returns (marks: seq<(nat, nat)>)
    requires AllBound(leaves, values) && forall key :: given(key) == InMap(values)(key)
    requires i < |leaves| && j <= |leaves[i].items|
    ensures ListedUpTo(leaves, values, given, authorized, i, j, marks)
    decreases i, j
  {
    hide EvidenceSays, InMap, FlatEvidence, Bound, UpTo, AllBound;
    if j > 0 {
      var before := EvidenceListed(leaves, values, given, authorized, i, j - 1);
      ItemBound(leaves, values, i, j - 1);
      UpToNext(leaves, i, j - 1);
      marks := EvidenceNext(leaves, values, given, authorized, i, j - 1, UpTo(leaves, i, j - 1), before);
    } else if i > 0 {
      marks := EvidenceListed(leaves, values, given, authorized, i - 1, |leaves[i - 1].items|);
      UpToLeaf(leaves, i);
      SameEnd(leaves, given, authorized, i, FlatEvidence(UpTo(leaves, i, 0), values, authorized), marks);
    } else {
      UpToLeaf(leaves, 0);
      NothingListed(leaves, values, given, authorized);
      marks := [];
    }
  }

  lemma SameEnd(leaves: seq<Leaf>, given: Given, authorized: set<string>, i: nat, evidence: seq<Extrapolation>, marks: seq<(nat, nat)>)
    requires 0 < i < |leaves| && EvidenceSays(leaves, given, authorized, (i - 1, |leaves[i - 1].items|), evidence, marks)
    ensures EvidenceSays(leaves, given, authorized, (i, 0), evidence, marks)
  {
    hide Reports, Beyond;
  }

  lemma EvidenceNext(leaves: seq<Leaf>, values: Point, given: Given, authorized: set<string>, i: nat, j: nat,
                     done: seq<(Field, Binding)>, before: seq<(nat, nat)>)
    returns (marks: seq<(nat, nat)>)
    requires i < |leaves| && j < |leaves[i].items| && Bound(leaves[i].items[j].binding, values) && FlatBound(done, values)
    requires forall key :: given(key) == InMap(values)(key)
    requires EvidenceSays(leaves, given, authorized, (i, j), FlatEvidence(done, values, authorized), before)
    ensures var flat := done + [((leaves[i].path, leaves[i].items[j].field), leaves[i].items[j].binding)];
      FlatBound(flat, values) && EvidenceSays(leaves, given, authorized, (i, j + 1), FlatEvidence(flat, values, authorized), marks)
  {
    var binding := leaves[i].items[j].binding;
    var entry := ((leaves[i].path, leaves[i].items[j].field), binding);
    assert (done + [entry])[..|done|] == done;
    var was := FlatEvidence(done, values, authorized);
    if binding.Affine? && !InSupport(binding, values[binding.input].si) {
      var report := Extrapolation(binding.input, entry.0, values[binding.input].si, binding.input in authorized);
      assert Reports(leaves, given, authorized, (i, j), report);
      assert Seen(entry, values, authorized) == [report];
      marks := before + [(i, j)];
      MarksMore(leaves, given, authorized, i, j, was, before, report);
    } else {
      assert forall x :: !BeyondAt(leaves, given, i, j, x);
      marks := before;
      assert was + [] == was;
      MarksSame(leaves, given, authorized, i, j, was, before);
    }
  }

  lemma MarksMore(leaves: seq<Leaf>, given: Given, authorized: set<string>, i: nat, j: nat, was: seq<Extrapolation>,
                  before: seq<(nat, nat)>, report: Extrapolation)
    requires EvidenceSays(leaves, given, authorized, (i, j), was, before) && Reports(leaves, given, authorized, (i, j), report)
    ensures EvidenceSays(leaves, given, authorized, (i, j + 1), was + [report], before + [(i, j)])
  {
    hide Reports, Beyond;
    var marks := before + [(i, j)];
    forall m: nat, n: nat, x | BeyondAt(leaves, given, m, n, x) && Before((m, n), (i, j + 1)) ensures (m, n) in marks {
      if (m, n) != (i, j) { assert Before((m, n), (i, j)); }
    }
  }

  lemma MarksSame(leaves: seq<Leaf>, given: Given, authorized: set<string>, i: nat, j: nat, was: seq<Extrapolation>,
                  before: seq<(nat, nat)>)
    requires EvidenceSays(leaves, given, authorized, (i, j), was, before) && forall x :: !BeyondAt(leaves, given, i, j, x)
    ensures EvidenceSays(leaves, given, authorized, (i, j + 1), was, before)
  {
    hide Reports, Beyond;
    forall m: nat, n: nat, x | BeyondAt(leaves, given, m, n, x) && Before((m, n), (i, j + 1)) ensures (m, n) in before {
      assert Before((m, n), (i, j));
    }
  }

  /** The compiler's table says what every binding means, its evidence lists exactly the inputs beyond their support
      in document order, and it is returned exactly when none of them is unauthorized. */
  method ResolveValues(leaves: seq<Leaf>, values: Point, authorized: set<string>) returns (result: Checked<Resolved, Failure>)
    requires AllBound(leaves, values) && Identities(leaves)
    ensures result.Ok? <==> AllPermitted(leaves, InMap(values), authorized)
    ensures result.Ok? ==> TableSays(leaves, InMap(values), result.value.fields)
    ensures result.Ok? ==> exists marks :: EvidenceSays(leaves, InMap(values), authorized, (|leaves|, 0), result.value.evidence, marks)
  {
    result := ResolveFields(leaves, values, authorized);
    PermittedSo(leaves, values, InMap(values), authorized);
    TableSaysSo(leaves, values, InMap(values));
    if |leaves| > 0 {
      var last := |leaves| - 1;
      ghost var marks := EvidenceListed(leaves, values, InMap(values), authorized, last, |leaves[last].items|);
      assert Flatten(leaves) == UpTo(leaves, last, |leaves[last].items|);
      EndOfAll(leaves, InMap(values), authorized, FlatEvidence(Flatten(leaves), values, authorized), marks);
    } else {
      assert EvidenceSays(leaves, InMap(values), authorized, (0, 0), [], []);
    }
  }

  lemma EndOfAll(leaves: seq<Leaf>, given: Given, authorized: set<string>, evidence: seq<Extrapolation>, marks: seq<(nat, nat)>)
    requires |leaves| > 0 && EvidenceSays(leaves, given, authorized, (|leaves| - 1, |leaves[|leaves| - 1].items|), evidence, marks)
    ensures EvidenceSays(leaves, given, authorized, (|leaves|, 0), evidence, marks)
  {
    hide Reports, Beyond;
  }
}
