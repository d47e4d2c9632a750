/** Every outcome of an evaluation, explained. */
module Outcomes {
  // A record without a fault reports every objective with its cost; a record with one says where and why it
  // failed; an escaping failure is one a candidate may not carry.

  import opened Common
  import opened Continuation
  import opened Expressions
  import opened Measurement
  import opened Denotation
  import opened Records
  import opened Batch

  // ---- Costs ------------------------------------------------------------------------------------------

  /** What an objective's value costs: an equality its weighted squared distance from the target in units of
      the scale; an at-least objective only what is missing. */
  predicate Costs(objective: Objective, value: real, residual: real, cost: real) {
    var miss := value - objective.target;
    && (objective.atLeast && objective.scale > 0.0 && miss >= 0.0 ==> residual == 0.0 && cost == 0.0)
    && (objective.atLeast && objective.scale > 0.0 && miss < 0.0 ==> residual > 0.0 && residual * objective.scale == -miss)
    && (!objective.atLeast ==> residual * objective.scale == miss)
    && cost == objective.weight * (residual * residual)
  }

  lemma Scaled(objective: Objective, value: real)
    requires objective.scale != 0.0
    ensures Costs(objective, value, Residual(objective, value), Weighted(objective, Residual(objective, value)))
  {
    var miss := value - objective.target;
    var q := miss / objective.scale;
    assert q * objective.scale == miss;
    if objective.scale > 0.0 {
      assert miss >= 0.0 ==> q >= 0.0;
      assert miss < 0.0 ==> q < 0.0;
    }
  }

  lemma Squares(w: real, r: real, s: real, m: real)
    requires r * s == m
    ensures w * (r * r) * (s * s) == w * (m * m)
    ensures w > 0.0 && s > 0.0 ==> (w * (r * r) == 0.0 <==> m == 0.0)
  {
    assert (r * r) * (s * s) == m * m;
    if w > 0.0 && s > 0.0 {
      assert r == 0.0 ==> m == 0.0;
      if r != 0.0 {
        assert r * r > 0.0;
        assert w * (r * r) > 0.0;
        assert m != 0.0;
      }
    }
  }

  /** With a positive scale and weight an at-least objective costs nothing exactly when its target is reached,
      an equality exactly when it is met; what is missing costs its weighted square. */
  lemma CostsExactly(objective: Objective, value: real, residual: real, cost: real)
    requires objective.scale > 0.0 && objective.weight > 0.0 && Costs(objective, value, residual, cost)
    ensures objective.atLeast ==> (cost == 0.0 <==> value >= objective.target)
    ensures !objective.atLeast ==> (cost == 0.0 <==> value == objective.target)
    ensures !objective.atLeast || value < objective.target ==>
      cost * (objective.scale * objective.scale) == objective.weight * ((objective.target - value) * (objective.target - value))
  {
    var miss := value - objective.target;
    if !objective.atLeast || miss < 0.0 {
      var m := if objective.atLeast then -miss else miss;
      Squares(objective.weight, residual, objective.scale, m);
      assert m * m == (objective.target - value) * (objective.target - value);
    }
  }

  // ---- Objectives -------------------------------------------------------------------------------------

  ghost predicate TermSays(w: World, mode: Mode, p: Point, t: nat, s: Selector, record: TermRecord)
    requires Compatible(w.baseline, p)
  {
    && record.TermSuccess? && record.term == t && record.selector == s
    && MeasuredAs(w, mode, p, s, record.actual) && ReadsAs(w, s, record.actual, record.value)
  }

  /** A value computed by an objective's tree from one value for each selector. */
  ghost predicate ValueSays(quantity: Expression, at: Selector -> real, terms: seq<TermRecord>, value: real) {
    && value == Denote(quantity, at)
    && forall t :: 0 <= t < |terms| ==> terms[t].TermSuccess? && at(terms[t].selector) == terms[t].value
  }

  ghost predicate TermsSay(w: World, mode: Mode, p: Point, o: nat, terms: seq<TermRecord>)
    requires Compatible(w.baseline, p) && o < |w.objectives|
  {
    |terms| == |Leaves(w.objectives[o].quantity)| &&
    forall t :: 0 <= t < |terms| ==> TermSays(w, mode, p, t, Leaves(w.objectives[o].quantity)[t], terms[t])
  }

  /** A completed objective: its leaves as measured, the value of its tree over them, and its cost. */
  ghost predicate ObjectiveSays(w: World, mode: Mode, p: Point, o: nat, record: ObjectiveRecord)
    requires Compatible(w.baseline, p) && o < |w.objectives|
  {
    && record.Succeeded? && record.id == w.objectives[o].id
    && TermsSay(w, mode, p, o, record.terms)
    && (exists at :: ValueSays(w.objectives[o].quantity, at, record.terms, record.value))
    && Costs(w.objectives[o], record.value, record.residual, record.cost)
  }

  lemma TermTranslated(w: World, mode: Mode, p: Point, t: nat, s: Selector, record: TermRecord)
    requires Valid(w) && Compatible(w.baseline, p) && TermSound(w, mode, p, t, s, record)
    ensures TermSays(w, mode, p, t, s, record) && LeafValues(w, mode, p)(s) == record.value
  {
    hide MeasuredAs;
    DirectSays(w, mode, p, s);
    ProjectSays(w, s, record.actual);
  }

  lemma TermsTranslated(w: World, mode: Mode, p: Point, o: nat, terms: seq<TermRecord>)
    requires Valid(w) && Compatible(w.baseline, p) && o < |w.objectives| && |terms| == |Selectors(w, o)|
    requires forall t :: 0 <= t < |terms| ==> TermSound(w, mode, p, t, Selectors(w, o)[t], terms[t])
    ensures TermsSay(w, mode, p, o, terms)
    ensures forall t :: 0 <= t < |terms| ==>
      terms[t].TermSuccess? && terms[t].selector == Selectors(w, o)[t] && LeafValues(w, mode, p)(Selectors(w, o)[t]) == terms[t].value
  {
    forall t | 0 <= t < |terms|
      ensures TermSays(w, mode, p, t, Selectors(w, o)[t], terms[t])
      ensures terms[t].TermSuccess? && LeafValues(w, mode, p)(Selectors(w, o)[t]) == terms[t].value
    {
      TermTranslated(w, mode, p, t, Selectors(w, o)[t], terms[t]);
    }
  }

  lemma ObjectiveTranslated(w: World, mode: Mode, p: Point, o: nat, record: ObjectiveRecord)
    requires Valid(w) && Compatible(w.baseline, p) && o < |w.objectives| && Denotes(w, mode, p, o, record)
    ensures ObjectiveSays(w, mode, p, o, record)
  {
    hide MeasuredAs, ReadsAs;
    TermsTranslated(w, mode, p, o, record.terms);
    Scaled(w.objectives[o], record.value);
    assert ValueSays(w.objectives[o].quantity, LeafValues(w, mode, p), record.terms, record.value);
  }

  /** The costs of the first `n` objectives together. */
  function Together(records: seq<ObjectiveRecord>, n: nat): real
    requires n <= |records| && forall o :: 0 <= o < |records| ==> records[o].Succeeded?
  {
    if n == 0 then 0.0 else Together(records, n - 1) + records[n - 1].cost
  }

  lemma {:induction false} TotalTogether(records: seq<ObjectiveRecord>, n: nat)
    requires n <= |records| && forall o :: 0 <= o < |records| ==> records[o].Succeeded?
    ensures TotalCost(records[..n]) == Together(records, n)
  {
    if n > 0 {
      TotalTogether(records, n - 1);
      assert records[..n][..n - 1] == records[..n - 1];
    }
  }

  // ---- Where a candidate fails --------------------------------------------------------------------------

  /** An objective nothing was measured for. */
  ghost predicate Untouched(w: World, o: nat, record: ObjectiveRecord)
    requires o < |w.objectives|
  {
    && record.Unevaluated? && record.id == w.objectives[o].id
    && Skipped(Leaves(w.objectives[o].quantity), 0, record.terms)
  }

  predicate Skipped(selectors: seq<Selector>, from: nat, terms: seq<TermRecord>) {
    |terms| == |selectors| && forall t :: from <= t < |selectors| ==> terms[t] == TermUnevaluated(t, selectors[t])
  }

  /** The objective a measurement failed in: the leaves before it, the failure, and the rest unevaluated. */
  ghost predicate StoppedAt(w: World, mode: Mode, p: Point, o: nat, t: nat, fault: Fault, record: ObjectiveRecord)
    requires Valid(w) && Compatible(w.baseline, p) && o < |w.objectives|
  {
    && record.Failed? && record.id == w.objectives[o].id
    && t < |Selectors(w, o)| && Skipped(Selectors(w, o), t + 1, record.terms)
    && record.terms[t] == TermFailure(t, Selectors(w, o)[t], fault)
    && (forall i :: 0 <= i < t ==> TermSound(w, mode, p, i, Selectors(w, o)[i], record.terms[i]))
  }

  /** A leaf failed: it could not be measured, or a root grows. */
  ghost predicate Cause(w: World, mode: Mode, p: Point, s: Selector, failure: Failure)
    requires Valid(w) && Compatible(w.baseline, p)
  {
    match Direct(w, mode, p, DependencyOf(s))
    case Raised(found) => failure == found
    case Ok(z) => !Passive(s, z) && failure == PassiveViolation
  }

  predicate Carried(failure: Failure) {
    failure.kind in {InvalidCandidate, EliminatedBlock, RootSlope, NumericalResolution}
  }

  /** A float holds the value, the residual and the cost. */
  predicate Held(w: World, value: real, residual: real, cost: real) {
    w.representable(value) && w.representable(residual) && w.representable(cost)
  }

  /** All leaves were measured, but no float holds the objective's value, residual or cost. */
  ghost predicate Unformed(w: World, mode: Mode, p: Point, o: nat, record: ObjectiveRecord)
    requires Valid(w) && Compatible(w.baseline, p) && o < |w.objectives|
  {
    && record.Failed? && record.id == w.objectives[o].id && |record.terms| == |Selectors(w, o)|
    && (forall i :: 0 <= i < |record.terms| ==> TermSound(w, mode, p, i, Selectors(w, o)[i], record.terms[i]))
    && var value := Denote(w.objectives[o].quantity, LeafValues(w, mode, p));
       exists residual, cost :: Costs(w.objectives[o], value, residual, cost) && !Held(w, value, residual, cost)
  }

  ghost predicate CannotLower(w: World, p: Point, failure: Failure) {
    exists o, t :: LoweringStops(w, p, o, t, failure)
  }

  ghost predicate LoweringStops(w: World, p: Point, o: int, t: int, failure: Failure) {
    || w.compile(p) == Raised(failure)
    || (0 <= o < |w.objectives| && 0 <= t < |Leaves(w.objectives[o].quantity)|
        && LoweringFails(w, p, Leaves(w.objectives[o].quantity)[t].view, failure))
  }

  /** The records of the first `n` objectives of a candidate that failed on the way. */
  ghost predicate Story(w: World, mode: Mode, p: Point, fault: Fault, records: seq<ObjectiveRecord>, n: nat)
    requires Valid(w) && Compatible(w.baseline, p) && n <= |w.objectives|
  {
    && mode.Candidate? && Carried(fault.failure) && |records| == n
    && match fault.phase
       case Compiling => CannotLower(w, p, fault.failure) && forall o :: 0 <= o < n ==> Untouched(w, o, records[o])
       case Measuring(o, t) =>
         && o < n && StoppedAt(w, mode, p, o, t, fault, records[o]) && Cause(w, mode, p, Selectors(w, o)[t], fault.failure)
         && Around(w, mode, p, o, records)
       case Aggregating(o) =>
         o < n && Unformed(w, mode, p, o, records[o]) && fault.failure == NonFinite && Around(w, mode, p, o, records)
       case Totalling => false
  }

  /** Objectives before a failed one are complete, those after it untouched. */
  ghost predicate Around(w: World, mode: Mode, p: Point, o: nat, records: seq<ObjectiveRecord>)
    requires Valid(w) && Compatible(w.baseline, p) && |records| <= |w.objectives|
  {
    && (forall k :: 0 <= k < |records| && k < o ==> Denotes(w, mode, p, k, records[k]))
    && (forall k :: o < k < |records| ==> Untouched(w, k, records[k]))
  }

  lemma {:induction false} MissingSkips(selectors: seq<Selector>, from: nat)
    requires from <= |selectors|
    ensures |Missing(selectors, from)| == |selectors| - from
    ensures forall i :: 0 <= i < |selectors| - from ==> Missing(selectors, from)[i] == TermUnevaluated(from + i, selectors[from + i])
    decreases |selectors| - from
  {
    if from < |selectors| {
      MissingSkips(selectors, from + 1);
      var rest := Missing(selectors, from + 1);
      var all := Missing(selectors, from);
      assert all == [TermUnevaluated(from, selectors[from])] + rest;
      hide Missing;
      forall i | 0 <= i < |all| ensures all[i] == TermUnevaluated(from + i, selectors[from + i]) {
        if i > 0 { assert all[i] == rest[i - 1]; }
      }
    }
  }

  // ---- Following the fault ------------------------------------------------------------------------------

  /** A state between objectives: sound, and if failed with its story. */
  ghost predicate Told(w: World, mode: Mode, state: State, n: nat)
    requires Valid(w) && Compatible(w.baseline, state.point) && n <= |w.objectives|
  {
    Sound(w, mode, state, n) && (state.fault.Some? ==> Story(w, mode, state.point, state.fault.value, state.objectives, n))
  }

  /** The work on objective `o` after `n` terms, if it failed there. */
  ghost predicate WorkTold(w: World, mode: Mode, o: nat, before: State, work: Work, n: nat)
    requires Valid(w) && Compatible(w.baseline, before.point) && o < |w.objectives| && n <= |Selectors(w, o)|
  {
    && WorkSound(w, mode, o, before, work, n)
    && (before.fault.Some? ==> work.records == [] && work.state.fault == before.fault)
    && (before.fault.None? && work.state.fault.Some? ==> exists t: nat :: StoppedIn(w, mode, o, before, work, t))
  }

  ghost predicate StoppedIn(w: World, mode: Mode, o: nat, before: State, work: Work, t: nat)
    requires Valid(w) && Compatible(w.baseline, before.point) && o < |w.objectives|
  {
    && t < |Selectors(w, o)| && |work.records| == t + 1 && work.state.fault.Some?
    && var fault := work.state.fault.value;
       && mode.Candidate? && Carried(fault.failure) && fault.phase == Measuring(o, t)
       && work.records[t] == TermFailure(t, Selectors(w, o)[t], fault) && Cause(w, mode, before.point, Selectors(w, o)[t], fault.failure)
       && (forall i :: 0 <= i < t ==> TermSound(w, mode, before.point, i, Selectors(w, o)[i], work.records[i]))
  }

  /** A term step digests what the leaf measures on its own. */
  lemma StepDigests(w: World, mode: Mode, o: nat, t: nat, work: Work)
    requires Valid(w) && Fits(w, work) && o < |w.objectives| && t < |Selectors(w, o)|
    requires MemoSound(w, mode, work.state) && work.state.fault.None?
    requires Selectors(w, o)[t].view in work.state.views
    ensures var s := Selectors(w, o)[t];
      StepTerm(w, mode, o, t, work) == Digest(w, mode, o, t, s, Direct(w, mode, work.state.point, DependencyOf(s)), work)
  {
  }

  lemma StepTold(w: World, mode: Mode, o: nat, before: State, work: Work, n: nat)
    requires Valid(w) && Compatible(w.baseline, before.point) && o < |w.objectives| && n < |Selectors(w, o)|
    requires WorkTold(w, mode, o, before, work, n) && HasViews(before, Selectors(w, o))
    requires StepTerm(w, mode, o, n, work).Ok?
    ensures WorkTold(w, mode, o, before, StepTerm(w, mode, o, n, work).value, n + 1)
  {
    hide Direct, MemoSound, TermSound;
    StepSound(w, mode, o, before, work, n);
    var after := StepTerm(w, mode, o, n, work).value;
    if work.state.fault.Some? {
      if before.fault.None? {
        var t: nat :| StoppedIn(w, mode, o, before, work, t);
        assert StoppedIn(w, mode, o, before, after, t);
      }
    } else {
      StepDigests(w, mode, o, n, work);
      if after.state.fault.Some? { assert StoppedIn(w, mode, o, before, after, n); }
    }
  }

  lemma {:induction false} TermsTold(w: World, mode: Mode, o: nat, before: State, n: nat)
    requires Valid(w) && Compatible(w.baseline, before.point) && o < |w.objectives| && n <= |Selectors(w, o)|
    requires Told(w, mode, before, o) && FoldTerms(w, mode, o, before, n).Ok?
    ensures WorkTold(w, mode, o, before, FoldTerms(w, mode, o, before, n).value, n)
  {
    hide Story, Direct, StoppedIn, TermSound, MemoSound;
    if n > 0 {
      TermsTold(w, mode, o, before, n - 1);
      hide WorkTold;
      StepTold(w, mode, o, before, FoldTerms(w, mode, o, before, n - 1).value, n - 1);
    }
  }

  lemma CloseStopped(w: World, mode: Mode, o: nat, before: State, work: Work, t: nat)
    requires Valid(w) && Compatible(w.baseline, before.point) && o < |w.objectives|
    requires Told(w, mode, before, o) && before.fault.None? && WorkSound(w, mode, o, before, work, |Selectors(w, o)|)
    requires StoppedIn(w, mode, o, before, work, t) && CloseObjective(w, mode, o, work).Ok?
    ensures var after := CloseObjective(w, mode, o, work).value;
      && after.fault.Some? && |after.objectives| == o + 1
      && Story(w, mode, before.point, after.fault.value, after.objectives, o + 1)
  {
    hide Direct, TermSound, MemoSound, Denotes;
    var after := CloseObjective(w, mode, o, work).value;
    MissingSkips(Selectors(w, o), t + 1);
    assert StoppedAt(w, mode, before.point, o, t, work.state.fault.value, after.objectives[o]);
  }

  /** An objective closed after the candidate failed earlier is untouched. */
  lemma CloseLater(w: World, mode: Mode, o: nat, before: State, work: Work)
    requires Valid(w) && Compatible(w.baseline, before.point) && o < |w.objectives|
    requires Told(w, mode, before, o) && before.fault.Some? && WorkTold(w, mode, o, before, work, |Selectors(w, o)|)
    requires CloseObjective(w, mode, o, work).Ok?
    ensures var after := CloseObjective(w, mode, o, work).value;
      && after.fault == before.fault && |after.objectives| == o + 1
      && Story(w, mode, before.point, after.fault.value, after.objectives, o + 1)
  {
    hide Direct, TermSound, MemoSound, Denotes, Cause;
    var after := CloseObjective(w, mode, o, work).value;
    MissingSkips(Selectors(w, o), 0);
    assert Untouched(w, o, after.objectives[o]);
    assert after.objectives == before.objectives + [after.objectives[o]];
  }

  /** An objective whose value or cost no float holds. */
  lemma CloseUnformed(w: World, mode: Mode, o: nat, before: State, work: Work)
    requires Valid(w) && Compatible(w.baseline, before.point) && o < |w.objectives|
    requires Told(w, mode, before, o) && work.state.fault.None? && WorkSound(w, mode, o, before, work, |Selectors(w, o)|)
    requires CloseObjective(w, mode, o, work).Ok? && CloseObjective(w, mode, o, work).value.fault.Some?
    ensures var after := CloseObjective(w, mode, o, work).value;
      |after.objectives| == o + 1 && Story(w, mode, before.point, after.fault.value, after.objectives, o + 1)
  {
    hide Direct, TermSound, MemoSound, Denotes, Cause, Residual, Costs;
    var after := CloseObjective(w, mode, o, work).value;
    var quantity := w.objectives[o].quantity;
    assert Selectors(w, o)[..|Selectors(w, o)|] == Leaves(quantity);
    ExpressionValueDenotes(quantity, LeafValues(w, mode, before.point));
    var value := Denote(quantity, LeafValues(w, mode, before.point));
    assert value == ExpressionValue(quantity, work.values);
    assert after.objectives == before.objectives + [Failed(w.objectives[o].id, work.records)];
    var record := after.objectives[o];
    assert record.Failed? && record.id == w.objectives[o].id && |record.terms| == |Selectors(w, o)|;
    assert forall i :: 0 <= i < |record.terms| ==> TermSound(w, mode, before.point, i, Selectors(w, o)[i], record.terms[i]);
    var residual := Residual(w.objectives[o], value);
    Scaled(w.objectives[o], value);
    assert !Held(w, value, residual, Weighted(w.objectives[o], residual));
    assert Unformed(w, mode, before.point, o, after.objectives[o]);
  }

  lemma CloseTold(w: World, mode: Mode, o: nat, before: State, work: Work)
    requires Valid(w) && Compatible(w.baseline, before.point) && o < |w.objectives|
    requires Told(w, mode, before, o) && WorkTold(w, mode, o, before, work, |Selectors(w, o)|)
    requires CloseObjective(w, mode, o, work).Ok?
    ensures Told(w, mode, CloseObjective(w, mode, o, work).value, o + 1)
  {
    hide Story, StoppedIn, CloseObjective, Direct;
    CloseSound(w, mode, o, before, work);
    if before.fault.Some? {
      CloseLater(w, mode, o, before, work);
    } else if work.state.fault.Some? {
      var t: nat :| StoppedIn(w, mode, o, before, work, t);
      CloseStopped(w, mode, o, before, work, t);
    } else if CloseObjective(w, mode, o, work).value.fault.Some? {
      CloseUnformed(w, mode, o, before, work);
    }
  }

  lemma {:induction false} ObjectivesTold(w: World, mode: Mode, state: State, n: nat)
    requires Valid(w) && Compatible(w.baseline, state.point) && n <= |w.objectives|
    requires Told(w, mode, state, 0) && FoldObjectives(w, mode, state, n).Ok?
    ensures Told(w, mode, FoldObjectives(w, mode, state, n).value, n)
  {
    hide Told, WorkTold, FoldTerms, CloseObjective;
    if n > 0 {
      ObjectivesTold(w, mode, state, n - 1);
      var before := FoldObjectives(w, mode, state, n - 1).value;
      TermsTold(w, mode, n - 1, before, |Selectors(w, n - 1)|);
      CloseTold(w, mode, n - 1, before, FoldTerms(w, mode, n - 1, before, |Selectors(w, n - 1)|).value);
    }
  }

  // ---- Lowering -------------------------------------------------------------------------------------------

  lemma {:induction false} RealizationFails(w: World, mode: Mode, model: Model, selectors: seq<Selector>, state: State) returns (k: nat)
    requires state.fault.None?
    requires match RealizeViews(w, mode, model, selectors, state)
      case Ok(after) => after.fault.Some?
      case Raised(_) => true
    ensures k < |selectors| && w.realize(model, selectors[k].view).Raised?
    ensures var failure := w.realize(model, selectors[k].view).error;
      match RealizeViews(w, mode, model, selectors, state)
      case Ok(after) => mode.Candidate? && Carried(failure) && after.fault == Some(Fault(failure, Compiling))
      case Raised(escaped) => escaped == failure && (mode.Baseline? || !Carried(failure))
  {
    if selectors[0].view in state.views {
      k := RealizationFails(w, mode, model, selectors[1..], state);
      k := k + 1;
    } else {
      match w.realize(model, selectors[0].view)
      case Ok(view) =>
        k := RealizationFails(w, mode, model, selectors[1..], state.(views := state.views[selectors[0].view := view]));
        k := k + 1;
      case Raised(_) => k := 0;
    }
  }

  lemma {:induction false} SelectorOf(w: World, n: nat, k: nat) returns (o: nat, t: nat)
    requires n <= |w.objectives| && k < |AllSelectors(w, n)|
    ensures o < n && t < |Selectors(w, o)| && Selectors(w, o)[t] == AllSelectors(w, n)[k]
  {
    var fewer := AllSelectors(w, n - 1);
    if k < |fewer| {
      o, t := SelectorOf(w, n - 1, k);
    } else {
      o, t := n - 1, k - |fewer|;
    }
  }

  /** A lowering that fails: the candidate carries what it may, anything else escapes. */
  lemma PrepareFails(w: World, mode: Mode, p: Point)
    requires Valid(w) && Compatible(w.baseline, p)
    ensures match Prepare(w, mode, p)
      case Ok(state) => state.fault.Some? ==>
        && mode.Candidate? && Carried(state.fault.value.failure) && state.fault.value.phase == Compiling
        && CannotLower(w, p, state.fault.value.failure)
      case Raised(failure) => CannotLower(w, p, failure) && (mode.Baseline? || !Carried(failure))
  {
    match w.compile(p)
    case Raised(failure) => assert LoweringStops(w, p, 0, 0, failure);
    case Ok(model) =>
      var all := AllSelectors(w, |w.objectives|);
      var prepared := RealizeViews(w, mode, model, all, NewState(p));
      if prepared.Raised? || prepared.value.fault.Some? {
        var k := RealizationFails(w, mode, model, all, NewState(p));
        var o, t := SelectorOf(w, |w.objectives|, k);
        assert LoweringStops(w, p, o, t, w.realize(model, all[k].view).error);
      }
  }

  lemma PreparedTold(w: World, mode: Mode, p: Point)
    requires Valid(w) && Compatible(w.baseline, p) && Prepare(w, mode, p).Ok?
    ensures Told(w, mode, Prepare(w, mode, p).value, 0)
  {
    PreparedSound(w, mode, p);
    PrepareFails(w, mode, p);
  }

  // ---- The total --------------------------------------------------------------------------------------------

  predicate AllSucceeded(records: seq<ObjectiveRecord>) {
    forall o :: 0 <= o < |records| ==> records[o].Succeeded?
  }

  /** No float holds the costs of some first objectives together. */
  ghost predicate NotHeld(w: World, records: seq<ObjectiveRecord>) {
    AllSucceeded(records) && exists n: nat :: n <= |records| && !w.representable(Together(records, n))
  }

  lemma {:induction false} TogetherPrefix(records: seq<ObjectiveRecord>, more: seq<ObjectiveRecord>, n: nat)
    requires n <= |records| && AllSucceeded(records + more)
    ensures AllSucceeded(records) && Together(records + more, n) == Together(records, n)
  {
    forall o | 0 <= o < |records|
      ensures records[o].Succeeded?
    {
      assert (records + more)[o] == records[o];
    }
    if n > 0 { TogetherPrefix(records, more, n - 1); }
  }

  /** The cost so far is the costs together, or some of them were too large. */
  ghost predicate CostTold(w: World, state: State) {
    state.fault.None? ==>
      && AllSucceeded(state.objectives)
      && if state.cost.Finite? then state.cost.cost == Together(state.objectives, |state.objectives|) else NotHeld(w, state.objectives)
  }

  lemma CloseCost(w: World, mode: Mode, o: nat, before: State, work: Work)
    requires Valid(w) && o < |w.objectives| && CloseObjective(w, mode, o, work).Ok?
    requires work.state.objectives == before.objectives
    requires CostTold(w, before) && (work.state.fault.None? ==> before.fault.None? && work.state.cost == before.cost)
    ensures CostTold(w, CloseObjective(w, mode, o, work).value)
  {
    var after := CloseObjective(w, mode, o, work).value;
    if after.fault.None? {
      var n, last := |before.objectives|, after.objectives[|before.objectives|];
      assert after.objectives == before.objectives + [last];
      TogetherPrefix(before.objectives, [last], n);
      if before.cost.Infinite? {
        var k: nat :| k <= n && !w.representable(Together(before.objectives, k));
        TogetherPrefix(before.objectives, [last], k);
      } else if after.cost.Infinite? {
        assert !w.representable(Together(after.objectives, n + 1));
      }
    }
  }

  lemma {:induction false} FoldCost(w: World, mode: Mode, state: State, n: nat)
    requires Valid(w) && Compatible(w.baseline, state.point) && n <= |w.objectives|
    requires Told(w, mode, state, 0) && CostTold(w, state) && FoldObjectives(w, mode, state, n).Ok?
    ensures CostTold(w, FoldObjectives(w, mode, state, n).value)
  {
    hide Story, CostTold, FoldTerms, CloseObjective, MemoSound, Denotes, TermSound;
    if n > 0 {
      FoldCost(w, mode, state, n - 1);
      ObjectivesTold(w, mode, state, n - 1);
      var before := FoldObjectives(w, mode, state, n - 1).value;
      TermsTold(w, mode, n - 1, before, |Selectors(w, n - 1)|);
      CloseCost(w, mode, n - 1, before, FoldTerms(w, mode, n - 1, before, |Selectors(w, n - 1)|).value);
    }
  }

  // ---- Records --------------------------------------------------------------------------------------------

  /** What a record without a fault says: every objective, and their costs together. */
  ghost predicate Complete(w: World, mode: Mode, p: Point, record: Record)
    requires Compatible(w.baseline, p)
  {
    && record.point == p && |record.objectives| == |w.objectives|
    && (forall o :: 0 <= o < |w.objectives| ==> ObjectiveSays(w, mode, p, o, record.objectives[o]))
    && record.cost == Finite(Together(record.objectives, |w.objectives|))
  }

  /** A record without a fault says what every objective measured and costs, and costs them together. */
  lemma CompleteRecord(w: World, mode: Mode, p: Point)
    requires Valid(w) && Compatible(w.baseline, p) && Evaluated(w, mode, p).Ok? && Evaluated(w, mode, p).value.fault.None?
    ensures Complete(w, mode, p, Evaluated(w, mode, p).value)
  {
    hide Evaluated, Denotes, Costs, ValueSays, TermsSay;
    RecordDenotes(w, mode, p);
    var record := Evaluated(w, mode, p).value;
    forall o | 0 <= o < |w.objectives|
      ensures ObjectiveSays(w, mode, p, o, record.objectives[o])
    {
      ObjectiveTranslated(w, mode, p, o, record.objectives[o]);
    }
    TotalTogether(record.objectives, |w.objectives|);
    assert record.objectives[..|w.objectives|] == record.objectives;
  }

  // ---- Faults -----------------------------------------------------------------------------------------------

  /** Why a leaf stops an evaluation: it cannot be measured, or it is a root that grows. */
  ghost predicate Stops(w: World, mode: Mode, p: Point, s: Selector, failure: Failure)
    requires Compatible(w.baseline, p)
  {
    || FailsAs(w, mode, p, s, failure)
    || (s.isRoot && failure.kind == NumericalResolution && exists z :: MeasuredAs(w, mode, p, s, z) && z.im > 0.0)
  }

  lemma CauseStops(w: World, mode: Mode, p: Point, s: Selector, failure: Failure)
    requires Valid(w) && Compatible(w.baseline, p) && Cause(w, mode, p, s, failure)
    ensures Stops(w, mode, p, s, failure)
  {
    hide MeasuredAs, FailsAs;
    DirectSays(w, mode, p, s);
  }

  /** The records around a failed objective. */
  ghost predicate AroundSays(w: World, mode: Mode, p: Point, o: nat, records: seq<ObjectiveRecord>)
    requires Compatible(w.baseline, p) && |records| == |w.objectives|
  {
    && (forall k :: 0 <= k < o && k < |records| ==> ObjectiveSays(w, mode, p, k, records[k]))
    && (forall k :: o < k < |records| ==> Untouched(w, k, records[k]))
  }

  ghost predicate StoppedSays(w: World, mode: Mode, p: Point, o: nat, t: nat, fault: Fault, record: ObjectiveRecord)
    requires Compatible(w.baseline, p) && o < |w.objectives|
  {
    var leaves := Leaves(w.objectives[o].quantity);
    && record.Failed? && record.id == w.objectives[o].id && t < |leaves| && Skipped(leaves, t + 1, record.terms)
    && record.terms[t] == TermFailure(t, leaves[t], fault) && Stops(w, mode, p, leaves[t], fault.failure)
    && (forall i :: 0 <= i < t ==> TermSays(w, mode, p, i, leaves[i], record.terms[i]))
  }

  /** An objective whose value, residual or cost no float holds. */
  ghost predicate TooLarge(w: World, o: nat, at: Selector -> real)
    requires o < |w.objectives|
  {
    exists residual, cost ::
      var value := Denote(w.objectives[o].quantity, at);
      Costs(w.objectives[o], value, residual, cost) && !Held(w, value, residual, cost)
  }

  ghost predicate UnformedSays(w: World, mode: Mode, p: Point, o: nat, record: ObjectiveRecord)
    requires Compatible(w.baseline, p) && o < |w.objectives|
  {
    && record.Failed? && record.id == w.objectives[o].id && TermsSay(w, mode, p, o, record.terms)
    && exists at :: TooLarge(w, o, at) && forall t :: 0 <= t < |record.terms| ==>
         record.terms[t].TermSuccess? && at(record.terms[t].selector) == record.terms[t].value
  }

  /** What the record of a failed candidate says: where it failed, why, and what was known by then. */
  ghost predicate Blames(w: World, mode: Mode, p: Point, record: Record)
    requires Compatible(w.baseline, p)
  {
    && mode.Candidate? && record.point == p && record.cost == Infinite && |record.objectives| == |w.objectives|
    && record.fault.Some? && Carried(record.fault.value.failure)
    && match record.fault.value.phase
       case Compiling =>
         && CannotLower(w, p, record.fault.value.failure)
         && forall o :: 0 <= o < |w.objectives| ==> Untouched(w, o, record.objectives[o])
       case Measuring(o, t) =>
         && o < |w.objectives| && StoppedSays(w, mode, p, o, t, record.fault.value, record.objectives[o])
         && AroundSays(w, mode, p, o, record.objectives)
       case Aggregating(o) =>
         && o < |w.objectives| && UnformedSays(w, mode, p, o, record.objectives[o])
         && AroundSays(w, mode, p, o, record.objectives)
       case Totalling =>
         && (forall o :: 0 <= o < |w.objectives| ==> ObjectiveSays(w, mode, p, o, record.objectives[o]))
         && NotHeld(w, record.objectives)
  }

  lemma AroundTranslated(w: World, mode: Mode, p: Point, o: nat, records: seq<ObjectiveRecord>)
    requires Valid(w) && Compatible(w.baseline, p) && |records| == |w.objectives| && Around(w, mode, p, o, records)
    ensures AroundSays(w, mode, p, o, records)
  {
    hide Denotes, ObjectiveSays;
    forall k | 0 <= k < o && k < |records|
      ensures ObjectiveSays(w, mode, p, k, records[k])
    {
      ObjectiveTranslated(w, mode, p, k, records[k]);
    }
  }

  lemma StoppedTranslated(w: World, mode: Mode, p: Point, o: nat, t: nat, fault: Fault, record: ObjectiveRecord)
    requires Valid(w) && Compatible(w.baseline, p) && o < |w.objectives| && StoppedAt(w, mode, p, o, t, fault, record)
    requires Cause(w, mode, p, Selectors(w, o)[t], fault.failure)
    ensures StoppedSays(w, mode, p, o, t, fault, record)
  {
    hide Cause, Stops, TermSound, TermSays;
    CauseStops(w, mode, p, Selectors(w, o)[t], fault.failure);
    forall i | 0 <= i < t
      ensures TermSays(w, mode, p, i, Selectors(w, o)[i], record.terms[i])
    {
      TermTranslated(w, mode, p, i, Selectors(w, o)[i], record.terms[i]);
    }
  }

  lemma UnformedTranslated(w: World, mode: Mode, p: Point, o: nat, record: ObjectiveRecord)
    requires Valid(w) && Compatible(w.baseline, p) && o < |w.objectives| && Unformed(w, mode, p, o, record)
    ensures UnformedSays(w, mode, p, o, record)
  {
    hide TermSound, TermSays, Costs, Held;
    TermsTranslated(w, mode, p, o, record.terms);
    assert TooLarge(w, o, LeafValues(w, mode, p));
  }

  lemma StoryTranslated(w: World, mode: Mode, p: Point, fault: Fault, record: Record)
    requires Valid(w) && Compatible(w.baseline, p) && record.point == p && record.cost == Infinite && record.fault == Some(fault)
    requires Story(w, mode, p, fault, record.objectives, |w.objectives|)
    ensures Blames(w, mode, p, record)
  {
    hide StoppedAt, StoppedSays, Unformed, UnformedSays, Around, AroundSays, Cause, Untouched, CannotLower;
    match fault.phase
    case Compiling =>
    case Measuring(o, t) =>
      StoppedTranslated(w, mode, p, o, t, fault, record.objectives[o]);
      AroundTranslated(w, mode, p, o, record.objectives);
    case Aggregating(o) =>
      UnformedTranslated(w, mode, p, o, record.objectives[o]);
      AroundTranslated(w, mode, p, o, record.objectives);
    case Totalling =>
  }

  /** A record with a fault says where the candidate failed and why, and what was known by then. */
  lemma FaultyRecord(w: World, mode: Mode, p: Point)
    requires Valid(w) && Compatible(w.baseline, p) && Evaluated(w, mode, p).Ok? && Evaluated(w, mode, p).value.fault.Some?
    ensures Blames(w, mode, p, Evaluated(w, mode, p).value)
  {
    hide Prepare, FoldObjectives, Story, ObjectiveSays, Denotes, MemoSound;
    PreparedTold(w, mode, p);
    PreparedFresh(w, mode, p);
    var state, n := Prepare(w, mode, p).value, |w.objectives|;
    ObjectivesTold(w, mode, state, n);
    FoldCost(w, mode, state, n);
    var after, record := FoldObjectives(w, mode, state, n).value, Evaluated(w, mode, p).value;
    if after.fault.Some? {
      StoryTranslated(w, mode, p, after.fault.value, record);
    } else {
      forall o | 0 <= o < n
        ensures ObjectiveSays(w, mode, p, o, record.objectives[o])
      {
        ObjectiveTranslated(w, mode, p, o, record.objectives[o]);
      }
    }
  }

  lemma PreparedFresh(w: World, mode: Mode, p: Point)
    requires Valid(w) && Compatible(w.baseline, p) && Prepare(w, mode, p).Ok?
    ensures CostTold(w, Prepare(w, mode, p).value) && Prepare(w, mode, p).value.point == p
  {
    PreparedSound(w, mode, p);
    if w.compile(p).Ok? {
      RealizedViewsSound(w, mode, w.compile(p).value, AllSelectors(w, |w.objectives|), NewState(p));
    }
  }

  // ---- Escaping failures ------------------------------------------------------------------------------------

  /** The leaves of an objective as measured. */
  ghost predicate ReadsAll(w: World, mode: Mode, p: Point, o: nat, at: Selector -> real)
    requires Compatible(w.baseline, p) && o < |w.objectives|
  {
    forall s :: s in Leaves(w.objectives[o].quantity) ==> exists z :: MeasuredAs(w, mode, p, s, z) && ReadsAs(w, s, z, at(s))
  }

  ghost predicate LeafStops(w: World, mode: Mode, p: Point, failure: Failure, o: int, t: int)
    requires Compatible(w.baseline, p)
  {
    && 0 <= o < |w.objectives| && 0 <= t < |Leaves(w.objectives[o].quantity)|
    && Stops(w, mode, p, Leaves(w.objectives[o].quantity)[t], failure)
  }

  /** No float holds what an objective comes to. */
  ghost predicate ObjectiveTooLarge(w: World, mode: Mode, p: Point)
    requires Compatible(w.baseline, p)
  {
    exists o: nat, at :: o < |w.objectives| && TooLarge(w, o, at) && ReadsAll(w, mode, p, o, at)
  }

  ghost predicate TotalTooLarge(w: World, mode: Mode, p: Point)
    requires Compatible(w.baseline, p)
  {
    exists records :: |records| == |w.objectives| && NotHeld(w, records) &&
      forall o :: 0 <= o < |w.objectives| ==> ObjectiveSays(w, mode, p, o, records[o])
  }

  /** Why an evaluation raises: a failure the baseline never carries, or one no candidate may carry. */
  ghost predicate Escapes(w: World, mode: Mode, p: Point, failure: Failure)
    requires Compatible(w.baseline, p)
  {
    && (mode.Baseline? || !Carried(failure))
    && (|| CannotLower(w, p, failure)
        || (exists o, t :: LeafStops(w, mode, p, failure, o, t))
        || (mode.Baseline? && failure.kind == NumericalResolution && (ObjectiveTooLarge(w, mode, p) || TotalTooLarge(w, mode, p))))
  }

  lemma {:induction false} TermsEscape(w: World, mode: Mode, o: nat, before: State, n: nat)
    requires Valid(w) && Compatible(w.baseline, before.point) && o < |w.objectives| && n <= |Selectors(w, o)|
    requires Told(w, mode, before, o) && FoldTerms(w, mode, o, before, n).Raised?
    ensures Escapes(w, mode, before.point, FoldTerms(w, mode, o, before, n).error)
  {
    hide Story, StoppedIn, Stops, MemoSound, TermSound, Direct;
    if FoldTerms(w, mode, o, before, n - 1).Raised? {
      TermsEscape(w, mode, o, before, n - 1);
    } else {
      TermsTold(w, mode, o, before, n - 1);
      var work, s := FoldTerms(w, mode, o, before, n - 1).value, Selectors(w, o)[n - 1];
      StepDigests(w, mode, o, n - 1, work);
      var failure := StepTerm(w, mode, o, n - 1, work).error;
      CauseStops(w, mode, before.point, s, failure);
      assert LeafStops(w, mode, before.point, failure, o, n - 1);
    }
  }

  lemma CloseEscapes(w: World, mode: Mode, o: nat, before: State, work: Work)
    requires Valid(w) && Compatible(w.baseline, before.point) && o < |w.objectives|
    requires WorkSound(w, mode, o, before, work, |Selectors(w, o)|) && CloseObjective(w, mode, o, work).Raised?
    ensures Escapes(w, mode, before.point, CloseObjective(w, mode, o, work).error)
  {
    hide Direct, TermSound, MemoSound, Cause, Residual, Costs, MeasuredAs, ReadsAs;
    var quantity, at := w.objectives[o].quantity, LeafValues(w, mode, before.point);
    assert Selectors(w, o)[..|Selectors(w, o)|] == Leaves(quantity);
    ExpressionValueDenotes(quantity, at);
    var value := Denote(quantity, at);
    var residual := Residual(w.objectives[o], value);
    Scaled(w.objectives[o], value);
    assert !Held(w, value, residual, Weighted(w.objectives[o], residual));
    assert TooLarge(w, o, at);
    forall s | s in Leaves(quantity)
      ensures exists z :: MeasuredAs(w, mode, before.point, s, z) && ReadsAs(w, s, z, at(s))
    {
      var t :| 0 <= t < |Selectors(w, o)| && Selectors(w, o)[t] == s;
      TermTranslated(w, mode, before.point, t, s, work.records[t]);
    }
  }

  lemma {:induction false} ObjectivesEscape(w: World, mode: Mode, state: State, n: nat)
    requires Valid(w) && Compatible(w.baseline, state.point) && n <= |w.objectives|
    requires Told(w, mode, state, 0) && FoldObjectives(w, mode, state, n).Raised?
    ensures Escapes(w, mode, state.point, FoldObjectives(w, mode, state, n).error)
  {
    hide Story, MemoSound, Denotes, Escapes, FoldTerms, CloseObjective, TermSound;
    if FoldObjectives(w, mode, state, n - 1).Raised? {
      ObjectivesEscape(w, mode, state, n - 1);
    } else {
      ObjectivesTold(w, mode, state, n - 1);
      var before, all := FoldObjectives(w, mode, state, n - 1).value, |Selectors(w, n - 1)|;
      if FoldTerms(w, mode, n - 1, before, all).Raised? {
        TermsEscape(w, mode, n - 1, before, all);
      } else {
        TermsTold(w, mode, n - 1, before, all);
        CloseEscapes(w, mode, n - 1, before, FoldTerms(w, mode, n - 1, before, all).value);
      }
    }
  }

  /** A failure escapes an evaluation for one of these reasons only. */
  lemma EscapesExplained(w: World, mode: Mode, p: Point)
    requires Valid(w) && Compatible(w.baseline, p) && Evaluated(w, mode, p).Raised?
    ensures Escapes(w, mode, p, Evaluated(w, mode, p).error)
  {
    hide Prepare, FoldObjectives, Story, ObjectiveSays, Denotes, MemoSound, CannotLower;
    PrepareFails(w, mode, p);
    if Prepare(w, mode, p).Ok? {
      PreparedTold(w, mode, p);
      PreparedFresh(w, mode, p);
      var state, n := Prepare(w, mode, p).value, |w.objectives|;
      if FoldObjectives(w, mode, state, n).Raised? {
        ObjectivesEscape(w, mode, state, n);
      } else {
        ObjectivesTold(w, mode, state, n);
        FoldCost(w, mode, state, n);
        var records := FoldObjectives(w, mode, state, n).value.objectives;
        forall o | 0 <= o < n
          ensures ObjectiveSays(w, mode, p, o, records[o])
        {
          ObjectiveTranslated(w, mode, p, o, records[o]);
        }
        assert TotalTooLarge(w, mode, p);
      }
    }
  }

  // ---- Batches ------------------------------------------------------------------------------------------------

  /** Every record a batch returns for a point it had not seen is complete or says where the candidate failed. */
  lemma BatchSays(w: World, mode: Mode, cache: Cache, points: seq<Point>, i: nat)
    requires Valid(w) && AllCompatible(w, points) && i < |points| && points[i] !in cache
    requires Completes(EvalIn(w, mode), cache, points)
    ensures var record := Results(EvalIn(w, mode), cache, points)[i].record;
      && Compatible(w.baseline, points[i])
      && if record.fault.None? then Complete(w, mode, points[i], record) else Blames(w, mode, points[i], record)
  {
    hide Complete, Blames, Evaluated;
    var p := points[i];
    assert Compatible(w.baseline, p);
    assert EvalIn(w, mode)(p).Ok?;
    if Evaluated(w, mode, p).value.fault.None? { CompleteRecord(w, mode, p); } else { FaultyRecord(w, mode, p); }
  }

  /** Nothing for a target reached, and else the weighted square of what is missing. */
  predicate CostsWhatIsMissing(objective: Objective, record: ObjectiveRecord) {
    && record.Succeeded?
    && var miss := objective.target - record.value;
       && (record.cost == 0.0 <==> if objective.atLeast then miss <= 0.0 else miss == 0.0)
       && (!objective.atLeast || miss > 0.0 ==> record.cost * (objective.scale * objective.scale) == objective.weight * (miss * miss))
  }

  /** In a faultless record of a batch an at-least objective costs nothing exactly when its target is reached and an
      equality exactly when it is met; what is missing costs its weighted square, in units of the scale. */
  lemma BatchCosts(w: World, mode: Mode, cache: Cache, points: seq<Point>, i: nat, o: nat)
    requires Valid(w) && AllCompatible(w, points) && i < |points| && points[i] !in cache && o < |w.objectives|
    requires Completes(EvalIn(w, mode), cache, points) && Results(EvalIn(w, mode), cache, points)[i].record.fault.None?
    requires w.objectives[o].scale > 0.0 && w.objectives[o].weight > 0.0
    ensures o < |Results(EvalIn(w, mode), cache, points)[i].record.objectives|
    ensures CostsWhatIsMissing(w.objectives[o], Results(EvalIn(w, mode), cache, points)[i].record.objectives[o])
  {
    hide TermsSay, ValueSays, Evaluated, Costs;
    BatchSays(w, mode, cache, points, i);
    var record := Results(EvalIn(w, mode), cache, points)[i].record.objectives[o];
    assert ObjectiveSays(w, mode, points[i], o, record);
    CostsExactly(w.objectives[o], record.value, record.residual, record.cost);
  }
}
