/** Evaluated records mean what their objectives say. */
module Denotation {
  // Every objective value is the denotation of its expression tree over independently measured
  // leaves.

  import opened Common
  import opened Continuation
  import opened Expressions
  import opened Measurement

  /** A leaf measured on its own: lower the point, realize the View, run the job.
      No memo and no shared state. */
  function Direct(w: World, mode: Mode, p: Point, d: Dependency): Checked<Complex, Failure>
    requires Compatible(w.baseline, p)
  {
    match ViewOf(w, d.view)(p)
    case Raised(failure) => Raised(failure)
    case Ok(view) => Measure(w, mode, p, view, d)
  }

  function LeafValue(w: World, mode: Mode, p: Point, s: Selector): real
    requires Valid(w) && Compatible(w.baseline, p)
  {
    match Direct(w, mode, p, DependencyOf(s))
    case Ok(z) => Project(w, s, z)
    case Raised(_) => 0.0
  }

  function LeafValues(w: World, mode: Mode, p: Point): Selector -> real
    requires Valid(w) && Compatible(w.baseline, p)
  {
    (s: Selector) => if Valid(w) && Compatible(w.baseline, p) then LeafValue(w, mode, p, s) else 0.0
  }

  // ---- The memo agrees with measuring directly ---------------------------------------

  /** Every memoized view and result is the one measured directly. */
  ghost predicate MemoSound(w: World, mode: Mode, state: State)
    requires Compatible(w.baseline, state.point)
  {
    && (forall v :: v in state.views ==> ViewOf(w, v)(state.point) == Ok(state.views[v]))
    && (forall d :: d in state.roots ==> Direct(w, mode, state.point, d) == Ok(state.roots[d]))
  }

  /** The views of these selectors are all realized, unless the candidate failed. */
  predicate HasViews(state: State, selectors: seq<Selector>) {
    state.fault.None? ==> forall i :: 0 <= i < |selectors| ==> selectors[i].view in state.views
  }

  lemma {:induction false} RealizedViewsSound(w: World, mode: Mode, model: Model, selectors: seq<Selector>, state: State)
    requires Compatible(w.baseline, state.point) && w.compile(state.point) == Ok(model)
    requires MemoSound(w, mode, state) && state.roots == map[] && state.objectives == []
    requires RealizeViews(w, mode, model, selectors, state).Ok?
    ensures var after := RealizeViews(w, mode, model, selectors, state).value;
      && MemoSound(w, mode, after) && after.roots == map[] && after.objectives == []
      && HasViews(after, selectors) && (forall v :: v in state.views ==> v in after.views)
      && (after.fault.None? ==> state.fault.None? && after.cost == state.cost)
      && (after.fault.Some? && state.fault.None? ==> after.cost == Infinite)
  {
    if selectors != [] && state.fault.None? {
      var view := selectors[0].view;
      if view in state.views {
        RealizedViewsSound(w, mode, model, selectors[1..], state);
      } else if w.realize(model, view).Ok? {
        var next := state.(views := state.views[view := w.realize(model, view).value]);
        RealizedViewsSound(w, mode, model, selectors[1..], next);
      }
      var after := RealizeViews(w, mode, model, selectors, state).value;
      if after.fault.None? {
        forall i | 0 <= i < |selectors| ensures selectors[i].view in after.views {
          if i > 0 {
            assert selectors[i] == selectors[1..][i - 1];
          }
        }
      }
    }
  }

  lemma {:induction false} SelectorsListed(w: World, n: nat, o: nat)
    requires o < n <= |w.objectives|
    ensures forall s :: s in Selectors(w, o) ==> s in AllSelectors(w, n)
  {
    if o < n - 1 {
      SelectorsListed(w, n - 1, o);
    }
  }

  /** A candidate between objectives: its memo is sound, its views are there, and
      its cost and records tell the same story as its fault. */
  ghost predicate Sound(w: World, mode: Mode, state: State, n: nat)
    requires Valid(w) && Compatible(w.baseline, state.point) && n <= |w.objectives|
  {
    && MemoSound(w, mode, state)
    && (forall o :: 0 <= o < |w.objectives| ==> HasViews(state, Selectors(w, o)))
    && |state.objectives| == n
    && (state.fault.Some? ==> state.cost == Infinite)
    && (state.fault.None? ==>
          && (forall o :: 0 <= o < n ==> Denotes(w, mode, state.point, o, state.objectives[o]))
          && (state.cost.Finite? ==> state.cost.cost == TotalCost(state.objectives)))
  }

  /** The record of a completed objective: its value is the denotation of its
      tree, its residual and cost are those of that value, and its terms report
      the leaves in order. */
  ghost predicate Denotes(w: World, mode: Mode, p: Point, o: nat, record: ObjectiveRecord)
    requires Valid(w) && Compatible(w.baseline, p) && o < |w.objectives|
  {
    var objective := w.objectives[o];
    && record.Succeeded?
    && record.id == objective.id
    && record.value == Denote(objective.quantity, LeafValues(w, mode, p))
    && record.residual == Residual(objective, record.value)
    && record.cost == objective.weight * (record.residual * record.residual)
    && |record.terms| == |Selectors(w, o)|
    && (forall t :: 0 <= t < |record.terms| ==> TermSound(w, mode, p, t, Selectors(w, o)[t], record.terms[t]))
  }

  ghost predicate TermSound(w: World, mode: Mode, p: Point, t: nat, s: Selector, record: TermRecord)
    requires Valid(w) && Compatible(w.baseline, p)
  {
    && record.TermSuccess?
    && record.term == t && record.selector == s
    && Direct(w, mode, p, DependencyOf(s)) == Ok(record.actual)
    && Passive(s, record.actual)
    && record.value == Project(w, s, record.actual)
  }

  function TotalCost(records: seq<ObjectiveRecord>): real {
    if records == [] then 0.0
    else TotalCost(records[..|records| - 1]) + (var last := records[|records| - 1]; if last.Succeeded? then last.cost else 0.0)
  }

  /** The work on one objective after n terms. */
  ghost predicate WorkSound(w: World, mode: Mode, o: nat, before: State, work: Work, n: nat)
    requires Valid(w) && Compatible(w.baseline, before.point) && o < |w.objectives| && n <= |Selectors(w, o)|
  {
    && work.state.point == before.point
    && MemoSound(w, mode, work.state)
    && work.state.objectives == before.objectives
    && work.state.views == before.views
    && (work.state.fault.Some? ==> work.state.cost == Infinite)
    && (work.state.fault.None? ==>
          && before.fault.None? && work.state.cost == before.cost
          && |work.records| == n
          && work.values == Values(Selectors(w, o)[..n], LeafValues(w, mode, before.point))
          && (forall t :: 0 <= t < n ==> TermSound(w, mode, before.point, t, Selectors(w, o)[t], work.records[t])))
  }

  lemma ValuesSnoc(selectors: seq<Selector>, n: nat, at: Selector -> real)
    requires n < |selectors|
    ensures Values(selectors[..n + 1], at) == Values(selectors[..n], at) + [at(selectors[n])]
  {
    assert selectors[..n + 1] == selectors[..n] + [selectors[n]];
    ValuesConcat(selectors[..n], [selectors[n]], at);
  }

  /** The result a term digests is the one measured directly. */
  lemma StepMeasures(w: World, mode: Mode, o: nat, t: nat, work: Work)
    requires Valid(w) && Fits(w, work) && o < |w.objectives| && t < |Selectors(w, o)|
    requires MemoSound(w, mode, work.state) && work.state.fault.None?
    requires Selectors(w, o)[t].view in work.state.views
    ensures var s := Selectors(w, o)[t];
      StepTerm(w, mode, o, t, work) == Digest(w, mode, o, t, s, Direct(w, mode, work.state.point, DependencyOf(s)), work)
      || (StepTerm(w, mode, o, t, work).Raised? && StepTerm(w, mode, o, t, work).error == MissingKey)
  {
  }

  lemma AcceptSound(w: World, mode: Mode, o: nat, before: State, work: Work, n: nat, z: Complex)
    requires Valid(w) && Compatible(w.baseline, before.point) && o < |w.objectives| && n < |Selectors(w, o)|
    requires WorkSound(w, mode, o, before, work, n) && work.state.fault.None?
    requires Direct(w, mode, before.point, DependencyOf(Selectors(w, o)[n])) == Ok(z)
    ensures WorkSound(w, mode, o, before, Accept(w, o, n, Selectors(w, o)[n], z, work), n + 1)
  {
    hide Values, Direct;
    var s := Selectors(w, o)[n];
    var after := Accept(w, o, n, s, z, work);
    if Passive(s, z) {
      ValuesSnoc(Selectors(w, o), n, LeafValues(w, mode, before.point));
      assert TermSound(w, mode, before.point, n, s, after.records[n]);
    }
  }

  lemma RejectSound(w: World, mode: Mode, o: nat, before: State, work: Work, n: nat, failure: Failure)
    requires Valid(w) && Compatible(w.baseline, before.point) && o < |w.objectives| && n < |Selectors(w, o)|
    requires WorkSound(w, mode, o, before, work, n)
    ensures WorkSound(w, mode, o, before, Reject(o, n, Selectors(w, o)[n], failure, work), n + 1)
  {
  }

  lemma StepSound(w: World, mode: Mode, o: nat, before: State, work: Work, n: nat)
    requires Valid(w) && Compatible(w.baseline, before.point) && o < |w.objectives| && n < |Selectors(w, o)|
    requires WorkSound(w, mode, o, before, work, n) && HasViews(before, Selectors(w, o))
    requires StepTerm(w, mode, o, n, work).Ok?
    ensures WorkSound(w, mode, o, before, StepTerm(w, mode, o, n, work).value, n + 1)
  {
    if work.state.fault.None? {
      StepMeasures(w, mode, o, n, work);
      match Direct(w, mode, before.point, DependencyOf(Selectors(w, o)[n]))
      case Ok(z) => AcceptSound(w, mode, o, before, work, n, z);
      case Raised(failure) => RejectSound(w, mode, o, before, work, n, failure);
    }
  }

  lemma {:induction false} TermsSound(w: World, mode: Mode, o: nat, before: State, n: nat)
    requires Valid(w) && Compatible(w.baseline, before.point) && o < |w.objectives| && n <= |Selectors(w, o)|
    requires MemoSound(w, mode, before) && HasViews(before, Selectors(w, o))
    requires before.fault.Some? ==> before.cost == Infinite
    requires FoldTerms(w, mode, o, before, n).Ok?
    ensures WorkSound(w, mode, o, before, FoldTerms(w, mode, o, before, n).value, n)
  {
    if n > 0 {
      TermsSound(w, mode, o, before, n - 1);
      StepSound(w, mode, o, before, FoldTerms(w, mode, o, before, n - 1).value, n - 1);
    }
  }

  /** The record that closes an objective without a fault denotes its tree. */
  lemma CloseDenotes(w: World, mode: Mode, o: nat, before: State, work: Work)
    requires Valid(w) && Compatible(w.baseline, before.point) && o < |w.objectives|
    requires WorkSound(w, mode, o, before, work, |Selectors(w, o)|) && work.state.fault.None?
    requires CloseObjective(w, mode, o, work).Ok? && CloseObjective(w, mode, o, work).value.fault.None?
    ensures var after := CloseObjective(w, mode, o, work).value;
      && |after.objectives| == |before.objectives| + 1
      && Denotes(w, mode, before.point, o, after.objectives[|before.objectives|])
      && after.cost == AddCost(w, before.cost, after.objectives[|before.objectives|].cost)
  {
    var quantity := w.objectives[o].quantity;
    assert Selectors(w, o)[..|Selectors(w, o)|] == Leaves(quantity);
    ExpressionValueDenotes(quantity, LeafValues(w, mode, before.point));
  }

  lemma CloseSound(w: World, mode: Mode, o: nat, before: State, work: Work)
    requires Valid(w) && Compatible(w.baseline, before.point) && o < |w.objectives|
    requires Sound(w, mode, before, o) && WorkSound(w, mode, o, before, work, |Selectors(w, o)|)
    requires CloseObjective(w, mode, o, work).Ok?
    ensures Sound(w, mode, CloseObjective(w, mode, o, work).value, o + 1)
  {
    hide Direct, ExpressionValue, Weighted, Residual;
    var after := CloseObjective(w, mode, o, work).value;
    assert after.objectives[..o] == before.objectives;
    if after.fault.None? {
      CloseDenotes(w, mode, o, before, work);
    }
  }

  lemma {:induction false} ObjectivesSound(w: World, mode: Mode, state: State, n: nat)
    requires Valid(w) && Compatible(w.baseline, state.point) && n <= |w.objectives|
    requires Sound(w, mode, state, 0) && FoldObjectives(w, mode, state, n).Ok?
    ensures Sound(w, mode, FoldObjectives(w, mode, state, n).value, n)
  {
    hide FoldTerms, CloseObjective;
    if n > 0 {
      ObjectivesSound(w, mode, state, n - 1);
      var before := FoldObjectives(w, mode, state, n - 1).value;
      TermsSound(w, mode, n - 1, before, |Selectors(w, n - 1)|);
      CloseSound(w, mode, n - 1, before, FoldTerms(w, mode, n - 1, before, |Selectors(w, n - 1)|).value);
    }
  }

  lemma PreparedSound(w: World, mode: Mode, p: Point)
    requires Valid(w) && Compatible(w.baseline, p) && Prepare(w, mode, p).Ok?
    ensures Sound(w, mode, Prepare(w, mode, p).value, 0)
  {
    var state := Prepare(w, mode, p).value;
    if w.compile(p).Ok? {
      var all := AllSelectors(w, |w.objectives|);
      RealizedViewsSound(w, mode, w.compile(p).value, all, NewState(p));
      forall o | 0 <= o < |w.objectives| ensures HasViews(state, Selectors(w, o)) {
        SelectorsListed(w, |w.objectives|, o);
        forall i | state.fault.None? && 0 <= i < |Selectors(w, o)| ensures Selectors(w, o)[i].view in state.views {
          assert Selectors(w, o)[i] in all;
        }
      }
    }
  }

  /** A kept record has a finite cost exactly when it has no fault.  Then it
      reports every objective: each value is the denotation of its expression
      tree over leaves measured directly, and the cost is the sum of the weighted
      squared residuals. */
  lemma RecordDenotes(w: World, mode: Mode, p: Point)
    requires Valid(w) && Compatible(w.baseline, p) && Evaluated(w, mode, p).Ok?
    ensures var record := Evaluated(w, mode, p).value;
      && record.point == p
      && |record.objectives| == |w.objectives|
      && (record.cost.Finite? <==> record.fault.None?)
      && (record.fault.None? ==>
            && (forall o :: 0 <= o < |w.objectives| ==> Denotes(w, mode, p, o, record.objectives[o]))
            && record.cost.cost == TotalCost(record.objectives))
  {
    PreparedSound(w, mode, p);
    ObjectivesSound(w, mode, Prepare(w, mode, p).value, |w.objectives|);
  }
}
