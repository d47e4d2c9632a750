/** What an evaluated record says. */
module Records {
  // Costs, values, measurements and failures of a record, in terms of the model, the views and the
  // backend alone.

  import opened Common
  import opened Continuation
  import opened Tracking
  import opened Expressions
  import opened Measurement
  import opened Denotation

  // ---- What a leaf was measured from ----------------------------------------------------------------

  /** The view a declaration realizes to at a point. */
  ghost predicate Lowers(w: World, p: Point, declaration: string, view: View) {
    exists model :: w.compile(p) == Ok(model) && w.realize(model, declaration) == Ok(view)
  }

  ghost predicate LoweringFails(w: World, p: Point, declaration: string, failure: Failure) {
    || w.compile(p) == Raised(failure)
    || exists model :: w.compile(p) == Ok(model) && w.realize(model, declaration) == Raised(failure)
  }

  /** One later call of a repair: the root job on the view its interval ends at. */
  ghost predicate AnsweredAt(w: World, p: Point, s: Selector, view: View, attempt: Attempt)
    requires Compatible(w.baseline, p)
  {
    if attempt.right == 1.0 then attempt.result == w.answer(Job(true, s.spec, view, Some(attempt.start)))
    else exists q, v :: AnsweredOn(w, p, s, attempt, q, v)
  }

  ghost predicate AnsweredOn(w: World, p: Point, s: Selector, attempt: Attempt, q: Point, v: View)
    requires Compatible(w.baseline, p)
  {
    && PointAt(w.baseline, p, attempt.right, q) && Lowers(w, q, s.view, v)
    && attempt.result == w.answer(Job(true, s.spec, v, Some(attempt.start)))
  }

  predicate Unresolved(attempt: Attempt) {
    attempt.result.Unsolved? ==> attempt.result.failure.kind == NumericalResolution && attempt.depth < 32
  }

  /** The calls made for a candidate root: the first on its own view from the anchor, the later ones each
      from the root accepted last, and none after a failure that cannot be repaired. */
  ghost predicate Calls(w: World, p: Point, s: Selector, view: View, anchor: Complex, trace: seq<Attempt>)
    requires Compatible(w.baseline, p)
  {
    && |trace| > 0
    && trace[0] == Attempt(0.0, 1.0, 0, anchor, w.answer(Job(true, s.spec, view, Some(anchor))))
    && (forall i :: 1 <= i < |trace| ==> AnsweredAt(w, p, s, view, trace[i]))
    && (forall i :: 0 <= i < |trace| ==> StartsFrom(trace, i, anchor))
    && (forall i :: 0 <= i < |trace| - 1 ==> Unresolved(trace[i]))
  }

  ghost predicate CallsReach(w: World, p: Point, s: Selector, view: View, anchor: Complex, z: Complex)
    requires Compatible(w.baseline, p)
  {
    exists trace :: Calls(w, p, s, view, anchor, trace) && EndsAt(trace[|trace| - 1], 1.0, z)
  }

  /** The anchor of a root selector. */
  function Anchor(s: Selector): Dependency {
    Dependency(true, s.spec, s.view)
  }

  ghost predicate MeasuredOn(w: World, mode: Mode, p: Point, s: Selector, view: View, z: Complex)
    requires Compatible(w.baseline, p)
  {
    if mode.Baseline? || !s.isRoot then w.answer(Job(s.isRoot, s.spec, view, None)) == Solved(z)
    else Anchor(s) in mode.anchors && CallsReach(w, p, s, view, mode.anchors[Anchor(s)], z)
  }

  /** What a selector measures at a point. */
  ghost predicate MeasuredAs(w: World, mode: Mode, p: Point, s: Selector, z: Complex)
    requires Compatible(w.baseline, p)
  {
    exists view :: Lowers(w, p, s.view, view) && MeasuredOn(w, mode, p, s, view, z)
  }

  /** What is reported of an observation: a root's frequency or damping, a response's part or size. */
  predicate ReadsAs(w: World, s: Selector, z: Complex, value: real) {
    if s.isRoot then
      z.im <= 0.0 && if s.projection.Frequency? then value * (2.0 * w.pi) == z.re else value * w.pi == -z.im
    else
      match s.projection
      case RealPart => value == z.re
      case ImagPart => value == z.im
      case _ => value == w.modulus(z)
  }

  /** A failed direct formation counts as an unresolved result of a candidate. */
  predicate Counts(found: Failure, failure: Failure) {
    if found.kind == DirectFormation then
      failure.kind == NumericalResolution && failure.stage == found.stage && failure.evidence == found.evidence
    else failure == found
  }

  /** How a repair fails: at a result that cannot be repaired, or on the way to a point between. */
  ghost predicate CallsFail(w: World, p: Point, s: Selector, view: View, anchor: Complex, failure: Failure)
    requires Compatible(w.baseline, p)
  {
    exists trace :: Calls(w, p, s, view, anchor, trace) && CallsFailAfter(w, p, s, trace, failure)
  }

  ghost predicate CallsFailAfter(w: World, p: Point, s: Selector, trace: seq<Attempt>, failure: Failure)
    requires Compatible(w.baseline, p) && |trace| > 0
  {
    var last := trace[|trace| - 1];
    || (last.result.Unsolved? && !Unresolved(last) && Counts(last.result.failure, failure))
    || (!RlgcKept(w.baseline, p) && failure.kind == OtherKind("compiler_invariant"))
    || exists t, q :: PointAt(w.baseline, p, t, q) && LoweringFails(w, q, s.view, failure)
  }

  ghost predicate FailsOn(w: World, mode: Mode, p: Point, s: Selector, view: View, failure: Failure)
    requires Compatible(w.baseline, p)
  {
    if mode.Baseline? then w.answer(Job(s.isRoot, s.spec, view, None)) == Unsolved(failure)
    else if !s.isRoot then
      var found := w.answer(Job(false, s.spec, view, None));
      found.Unsolved? && Counts(found.failure, failure)
    else if Anchor(s) !in mode.anchors then failure.kind == OtherKind("key_error")
    else CallsFail(w, p, s, view, mode.anchors[Anchor(s)], failure)
  }

  /** Why a selector has no measurement at a point. */
  ghost predicate FailsAs(w: World, mode: Mode, p: Point, s: Selector, failure: Failure)
    requires Compatible(w.baseline, p)
  {
    LoweringFails(w, p, s.view, failure) || exists view :: Lowers(w, p, s.view, view) && FailsOn(w, mode, p, s, view, failure)
  }

  // ---- Direct measurement in these terms --------------------------------------------------------------

  lemma RepairAnswers(w: World, p: Point, s: Selector, view: View, attempt: Attempt)
    requires Compatible(w.baseline, p)
    requires AnswerTo(RepairSetting(w, p, view, DependencyOf(s)), attempt.right, attempt.start, attempt.result)
    ensures s.isRoot ==> AnsweredAt(w, p, s, view, attempt)
  {
    var setting := RepairSetting(w, p, view, DependencyOf(s));
    if attempt.right != 1.0 {
      var q, v :| Between(setting, attempt.right, q, v) && attempt.result == setting.solve(v, attempt.start);
      assert Lowers(w, q, s.view, v);
      assert AnsweredOn(w, p, s, attempt, q, v);
    }
  }

  lemma RepairCalls(w: World, p: Point, s: Selector, view: View, anchor: Complex)
    requires Compatible(w.baseline, p) && s.isRoot
    ensures var initial := w.answer(Job(true, s.spec, view, Some(anchor)));
      Calls(w, p, s, view, anchor, ContinueRoot(RepairSetting(w, p, view, DependencyOf(s)), anchor, initial).trace)
  {
    hide Advance;
    var initial := w.answer(Job(true, s.spec, view, Some(anchor)));
    var setting := RepairSetting(w, p, view, DependencyOf(s));
    var trace := ContinueRoot(setting, anchor, initial).trace;
    RunAnswers(setting, anchor, initial);
    RunEnds(setting, anchor, initial);
    forall i | 1 <= i < |trace|
      ensures AnsweredAt(w, p, s, view, trace[i])
    {
      RepairAnswers(w, p, s, view, trace[i]);
    }
    forall i | 0 <= i < |trace|
      ensures StartsFrom(trace, i, anchor)
    {
      RunStarts(setting, anchor, initial, i);
    }
  }

  /** A view that cannot be built between the ends. */
  lemma {:induction false} EscapeLowers<V>(setting: Setting<V>, at: Position, target: Target, given: Option<Evaluation>)
    requires Compatible(setting.baseline, setting.values)
    ensures var run := Advance(setting, at, target, given);
      run.outcome.Raised? && run.outcome.error.Lowering? ==> exists t :: ViewAt(setting, t) == Raised(run.outcome.error.failure)
  {
    NothingAfterFailure(setting, at, target, given);
  }

  lemma EscapeExplained(w: World, p: Point, s: Selector, view: View, t: real, failure: Failure)
    requires Compatible(w.baseline, p) && ViewAt(RepairSetting(w, p, view, DependencyOf(s)), t) == Raised(failure)
    ensures (!RlgcKept(w.baseline, p) && failure.kind == OtherKind("compiler_invariant"))
      || exists q :: PointAt(w.baseline, p, t, q) && LoweringFails(w, q, s.view, failure)
  {
    InterpolateExact(w.baseline, p, t);
    if Interpolate(w.baseline, p, t).Ok? {
      var q := Interpolate(w.baseline, p, t).value;
      assert PointAt(w.baseline, p, t, q) && LoweringFails(w, q, s.view, failure);
    }
  }

  lemma RepairSays(w: World, p: Point, s: Selector, view: View, anchor: Complex)
    requires Compatible(w.baseline, p) && s.isRoot
    ensures var initial := w.answer(Job(true, s.spec, view, Some(anchor)));
      match ContinuedRoot(w, anchor, p, view, DependencyOf(s), initial)
      case Ok(z) => CallsReach(w, p, s, view, anchor, z)
      case Raised(failure) => CallsFail(w, p, s, view, anchor, failure)
  {
    hide Advance, Calls;
    var initial := w.answer(Job(true, s.spec, view, Some(anchor)));
    var setting := RepairSetting(w, p, view, DependencyOf(s));
    var run := ContinueRoot(setting, anchor, initial);
    RepairCalls(w, p, s, view, anchor);
    RunEnds(setting, anchor, initial);
    assert Calls(w, p, s, view, anchor, run.trace);
    match run.outcome
    case Ok(z) => assert EndsAt(run.trace[|run.trace| - 1], 1.0, z);
    case Raised(Numerical(found)) => assert CallsFailAfter(w, p, s, run.trace, Unresolve(found));
    case Raised(Lowering(failure)) =>
      EscapeLowers(setting, Position(0.0, anchor), Target(1.0, 0), Some(initial));
      var t :| ViewAt(setting, t) == Raised(failure);
      EscapeExplained(w, p, s, view, t, failure);
      assert CallsFailAfter(w, p, s, run.trace, failure);
  }

  lemma SolvedAtOnce(w: World, p: Point, s: Selector, view: View, anchor: Complex, z: Complex)
    requires Compatible(w.baseline, p) && w.answer(Job(true, s.spec, view, Some(anchor))) == Solved(z)
    ensures CallsReach(w, p, s, view, anchor, z)
  {
    var trace := [Attempt(0.0, 1.0, 0, anchor, Solved(z))];
    assert StartsFrom(trace, 0, anchor);
    assert Calls(w, p, s, view, anchor, trace) && EndsAt(trace[|trace| - 1], 1.0, z);
  }

  lemma MeasureSays(w: World, mode: Mode, p: Point, s: Selector, view: View)
    requires Compatible(w.baseline, p)
    ensures match Measure(w, mode, p, view, DependencyOf(s))
      case Ok(z) => MeasuredOn(w, mode, p, s, view, z)
      case Raised(failure) => FailsOn(w, mode, p, s, view, failure)
  {
    hide CallsReach, CallsFail, ContinuedRoot;
    if mode.Candidate? && s.isRoot && Anchor(s) in mode.anchors {
      var anchor := mode.anchors[Anchor(s)];
      RepairSays(w, p, s, view, anchor);
      var initial := w.answer(Job(true, s.spec, view, Some(anchor)));
      if initial.Solved? { SolvedAtOnce(w, p, s, view, anchor, initial.root); }
    }
  }

  /** A leaf measured on its own, in terms of the model, the view and the backend. */
  lemma DirectSays(w: World, mode: Mode, p: Point, s: Selector)
    requires Compatible(w.baseline, p)
    ensures match Direct(w, mode, p, DependencyOf(s))
      case Ok(z) => MeasuredAs(w, mode, p, s, z)
      case Raised(failure) => FailsAs(w, mode, p, s, failure)
  {
    hide Measure, MeasuredOn, FailsOn;
    var found := ViewOf(w, s.view)(p);
    if found.Ok? {
      assert Lowers(w, p, s.view, found.value);
      MeasureSays(w, mode, p, s, found.value);
    }
  }

  lemma Quotient(x: real, y: real)
    requires y != 0.0
    ensures x / y * y == x
  {
  }

  lemma ProjectSays(w: World, s: Selector, z: Complex)
    requires Valid(w) && Passive(s, z)
    ensures ReadsAs(w, s, z, Project(w, s, z))
  {
    if s.isRoot {
      if s.projection.Frequency? { Quotient(z.re, 2.0 * w.pi); } else { Quotient(-z.im, w.pi); }
    }
  }
}
