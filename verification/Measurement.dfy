/** What evaluating one candidate means, leaf by leaf and objective by objective.

    The numerical world is a set of functions of job content.  Arithmetic is
    exact; `representable` says which results a float can hold, so the code's
    finiteness checks keep their branches. */
module Measurement {
  import opened Common
  import opened Continuation
  import opened Expressions

  datatype Model = Model(content: string)
  datatype View = View(content: string)

  datatype Objective = Objective(
    id: string, quantity: Expression, target: real, scale: real, atLeast: bool, weight: real)

  datatype Job = Job(isRoot: bool, spec: string, view: View, start: Option<Complex>)

  datatype World = World(
    objectives: seq<Objective>,
    baseline: Point,
    compile: Point -> Checked<Model, Failure>,
    realize: (Model, string) -> Checked<View, Failure>,
    answer: Job -> Evaluation,
    pi: real,
    modulus: Complex -> real,
    representable: real -> bool)

  /** Objective scales are nonzero, and pi is. */
  predicate Valid(w: World) {
    w.pi != 0.0 && forall o :: 0 <= o < |w.objectives| ==> w.objectives[o].scale != 0.0
  }

  /** The baseline solves from its root hints; candidates start from its anchors. */
  datatype Mode = Baseline | Candidate(anchors: map<Dependency, Complex>)

  /** The numerical result a selector needs, whatever it then projects from it. */
  datatype Dependency = Dependency(isRoot: bool, spec: string, view: string)

  function DependencyOf(s: Selector): Dependency {
    Dependency(s.isRoot, s.spec, s.view)
  }

  datatype Phase = Compiling | Measuring(objective: nat, term: nat) | Aggregating(objective: nat) | Totalling

  datatype Fault = Fault(failure: Failure, phase: Phase)

  datatype TermRecord =
    | TermSuccess(term: nat, selector: Selector, value: real, actual: Complex)
    | TermFailure(term: nat, selector: Selector, fault: Fault)
    | TermUnevaluated(term: nat, selector: Selector)

  datatype ObjectiveRecord =
    | Succeeded(id: string, value: real, residual: real, cost: real, terms: seq<TermRecord>)
    | Failed(id: string, terms: seq<TermRecord>)
    | Unevaluated(id: string, terms: seq<TermRecord>)

  datatype Cost = Finite(cost: real) | Infinite

  /** A candidate under evaluation, with its memo of views and numerical results. */
  datatype State = State(
    point: Point, objectives: seq<ObjectiveRecord>, cost: Cost, fault: Option<Fault>,
    roots: map<Dependency, Complex>, views: map<string, View>)

  /** What is kept of a candidate. */
  datatype Record = Record(point: Point, objectives: seq<ObjectiveRecord>, cost: Cost, fault: Option<Fault>)

  /** A candidate with the values and records of the objective being measured. */
  datatype Work = Work(state: State, values: seq<real>, records: seq<TermRecord>)

  const MissingKey := Failure(OtherKind("key_error"), "", "")
  const PassiveViolation := Failure(NumericalResolution, "newton_certificate", "")
  const NonFinite := Failure(NumericalResolution, "objective", "")

  function Selectors(w: World, o: nat): seq<Selector>
    requires o < |w.objectives|
  {
    Leaves(w.objectives[o].quantity)
  }

  // ---- Lowering ------------------------------------------------------------------

  /** A structured error either becomes the candidate's fault or escapes. */
  predicate Absorbed(mode: Mode, failure: Failure) {
    mode.Candidate? && IsCandidateFailure(failure.kind)
  }

  function FailState(state: State, fault: Fault): State {
    state.(fault := Some(fault), cost := Infinite)
  }

  function NewState(p: Point): State {
    State(p, [], Finite(0.0), None, map[], map[])
  }

  /** Realizes the views of some selectors in order, each declaration once. */
  function RealizeViews(w: World, mode: Mode, model: Model, selectors: seq<Selector>, state: State): (r: Checked<State, Failure>)
    ensures r.Ok? ==> r.value.point == state.point
  {
    if selectors == [] || state.fault.Some? then Ok(state)
    else if selectors[0].view in state.views then RealizeViews(w, mode, model, selectors[1..], state)
    else
      match w.realize(model, selectors[0].view)
      case Ok(view) =>
        RealizeViews(w, mode, model, selectors[1..], state.(views := state.views[selectors[0].view := view]))
      case Raised(failure) =>
        if Absorbed(mode, failure) then Ok(FailState(state, Fault(failure, Compiling))) else Raised(failure)
  }

  function AllSelectors(w: World, n: nat): seq<Selector>
    requires n <= |w.objectives|
  {
    if n == 0 then [] else AllSelectors(w, n - 1) + Selectors(w, n - 1)
  }

  /** Lowers a point and realizes every view its objectives mention. */
  function Prepare(w: World, mode: Mode, p: Point): (r: Checked<State, Failure>)
    ensures r.Ok? ==> r.value.point == p
  {
    match w.compile(p)
    case Ok(model) => RealizeViews(w, mode, model, AllSelectors(w, |w.objectives|), NewState(p))
    case Raised(failure) =>
      if Absorbed(mode, failure) then Ok(FailState(NewState(p), Fault(failure, Compiling))) else Raised(failure)
  }

  // ---- Measuring one leaf ------------------------------------------------------------

  function JobFor(mode: Mode, view: View, d: Dependency): Checked<Job, Failure> {
    if !d.isRoot || mode.Baseline? then Ok(Job(d.isRoot, d.spec, view, None))
    else if d in mode.anchors then Ok(Job(true, d.spec, view, Some(mode.anchors[d])))
    else Raised(MissingKey)
  }

  function ViewOf(w: World, view: string): Point -> Checked<View, Failure> {
    (p: Point) =>
      match w.compile(p)
      case Raised(failure) => Raised(failure)
      case Ok(model) => w.realize(model, view)
  }

  function RepairSetting(w: World, p: Point, view: View, d: Dependency): Setting<View> {
    Setting(w.baseline, p, view, ViewOf(w, d.view), (v: View, start: Complex) => w.answer(Job(true, d.spec, v, Some(start))))
  }

  function Unresolve(failure: Failure): Failure {
    if failure.kind == DirectFormation then failure.(kind := NumericalResolution) else failure
  }

  /** Dyadic repair of a candidate root; a formation failure of the local solve
      counts as unresolved, a formation error from lowering does not. */
  function ContinuedRoot(w: World, anchor: Complex, p: Point, view: View, d: Dependency, initial: Evaluation): Checked<Complex, Failure>
    requires Compatible(w.baseline, p)
  {
    match ContinueRoot(RepairSetting(w, p, view, d), anchor, initial).outcome
    case Ok(root) => Ok(root)
    case Raised(Numerical(failure)) => Raised(Unresolve(failure))
    case Raised(Lowering(failure)) => Raised(failure)
  }

  /** The result of a leaf's job once it has been repaired where that is allowed. */
  function Settle(w: World, mode: Mode, p: Point, view: View, d: Dependency, initial: Evaluation): Checked<Complex, Failure>
    requires Compatible(w.baseline, p)
  {
    match initial
    case Solved(z) => Ok(z)
    case Unsolved(failure) =>
      if mode.Baseline? then Raised(failure)
      else if !d.isRoot then Raised(Unresolve(failure))
      else if d !in mode.anchors then Raised(MissingKey)
      else ContinuedRoot(w, mode.anchors[d], p, view, d, initial)
  }

  function Measure(w: World, mode: Mode, p: Point, view: View, d: Dependency): Checked<Complex, Failure>
    requires Compatible(w.baseline, p)
  {
    match JobFor(mode, view, d)
    case Raised(failure) => Raised(failure)
    case Ok(job) => Settle(w, mode, p, view, d, w.answer(job))
  }

  function Project(w: World, s: Selector, z: Complex): real
    requires Valid(w)
  {
    if s.isRoot then
      if s.projection.Frequency? then z.re / (2.0 * w.pi) else -z.im / w.pi
    else
      match s.projection
      case RealPart => z.re
      case ImagPart => z.im
      case _ => w.modulus(z)
  }

  /** A diagonal root of a passive network has no positive imaginary part. */
  predicate Passive(s: Selector, z: Complex) {
    s.isRoot ==> z.im <= 0.0
  }

  /** Adds a measured result to a candidate's work on the current objective. */
  function Accept(w: World, o: nat, t: nat, s: Selector, z: Complex, work: Work): Work
    requires Valid(w)
  {
    var state := work.state.(roots := work.state.roots[DependencyOf(s) := z]);
    if Passive(s, z) then
      Work(state, work.values + [Project(w, s, z)], work.records + [TermSuccess(t, s, Project(w, s, z), z)])
    else
      Reject(o, t, s, PassiveViolation, Work(state, work.values, work.records))
  }

  function Reject(o: nat, t: nat, s: Selector, failure: Failure, work: Work): Work {
    var fault := Fault(failure, Measuring(o, t));
    Work(FailState(work.state, fault), work.values, work.records + [TermFailure(t, s, fault)])
  }

  /** One term of one candidate, from the result its job gave or its memo holds. */
  function Digest(w: World, mode: Mode, o: nat, t: nat, s: Selector, result: Checked<Complex, Failure>, work: Work): Checked<Work, Failure>
    requires Valid(w)
  {
    match result
    case Ok(z) =>
      if !Passive(s, z) && mode.Baseline? then Raised(PassiveViolation) else Ok(Accept(w, o, t, s, z, work))
    case Raised(failure) =>
      if Absorbed(mode, failure) then Ok(Reject(o, t, s, failure, work)) else Raised(failure)
  }

  predicate Fits(w: World, work: Work) {
    Compatible(w.baseline, work.state.point)
  }

  function StepTerm(w: World, mode: Mode, o: nat, t: nat, work: Work): (r: Checked<Work, Failure>)
    requires Valid(w) && Fits(w, work) && o < |w.objectives| && t < |Selectors(w, o)|
    ensures r.Ok? ==> Fits(w, r.value) && r.value.state.point == work.state.point
  {
    var s := Selectors(w, o)[t];
    var d := DependencyOf(s);
    if work.state.fault.Some? then Ok(work)
    else if s.view !in work.state.views then Raised(MissingKey)
    else if d in work.state.roots then Digest(w, mode, o, t, s, Ok(work.state.roots[d]), work)
    else
      var view := work.state.views[s.view];
      match JobFor(mode, view, d)
      case Raised(failure) => Raised(failure)
      case Ok(job) => Digest(w, mode, o, t, s, Settle(w, mode, work.state.point, view, d, w.answer(job)), work)
  }

  function FoldTerms(w: World, mode: Mode, o: nat, state: State, n: nat): (r: Checked<Work, Failure>)
    requires Valid(w) && Compatible(w.baseline, state.point) && o < |w.objectives| && n <= |Selectors(w, o)|
    ensures r.Ok? ==> Fits(w, r.value) && r.value.state.point == state.point
  {
    if n == 0 then Ok(Work(state, [], []))
    else
      match FoldTerms(w, mode, o, state, n - 1)
      case Raised(failure) => Raised(failure)
      case Ok(work) => StepTerm(w, mode, o, n - 1, work)
  }

  // ---- Closing one objective -------------------------------------------------------

  function Missing(selectors: seq<Selector>, from: nat): seq<TermRecord>
    decreases |selectors| - from
  {
    if from >= |selectors| then [] else [TermUnevaluated(from, selectors[from])] + Missing(selectors, from + 1)
  }

  function Residual(objective: Objective, value: real): real
    requires objective.scale != 0.0
  {
    var residual := (value - objective.target) / objective.scale;
    if objective.atLeast then (if -residual > 0.0 then -residual else 0.0) else residual
  }

  function Weighted(objective: Objective, residual: real): real {
    objective.weight * (residual * residual)
  }

  function AddCost(w: World, cost: Cost, contribution: real): Cost {
    if cost.Finite? && w.representable(cost.cost + contribution) then Finite(cost.cost + contribution) else Infinite
  }

  function Append(state: State, record: ObjectiveRecord): State {
    state.(objectives := state.objectives + [record])
  }

  function CloseObjective(w: World, mode: Mode, o: nat, work: Work): (r: Checked<State, Failure>)
    requires Valid(w) && o < |w.objectives|
    ensures r.Ok? ==> r.value.point == work.state.point
  {
    var objective := w.objectives[o];
    if work.state.fault.Some? then
      var terms := work.records + Missing(Selectors(w, o), |work.records|);
      Ok(Append(work.state, if work.records == [] then Unevaluated(objective.id, terms) else Failed(objective.id, terms)))
    else if |work.values| != |Selectors(w, o)| then Raised(MissingKey)
    else
      var value := ExpressionValue(objective.quantity, work.values);
      var residual := Residual(objective, value);
      var contribution := Weighted(objective, residual);
      if w.representable(value) && w.representable(residual) && w.representable(contribution) then
        Ok(Append(work.state.(cost := AddCost(w, work.state.cost, contribution)),
                  Succeeded(objective.id, value, residual, contribution, work.records)))
      else if mode.Baseline? then Raised(NonFinite)
      else Ok(Append(FailState(work.state, Fault(NonFinite, Aggregating(o))), Failed(objective.id, work.records)))
  }

  function FoldObjectives(w: World, mode: Mode, state: State, n: nat): (r: Checked<State, Failure>)
    requires Valid(w) && Compatible(w.baseline, state.point) && n <= |w.objectives|
    ensures r.Ok? ==> r.value.point == state.point
  {
    if n == 0 then Ok(state)
    else
      match FoldObjectives(w, mode, state, n - 1)
      case Raised(failure) => Raised(failure)
      case Ok(before) => RunObjective(w, mode, n - 1, before)
  }

  function RunObjective(w: World, mode: Mode, o: nat, state: State): (r: Checked<State, Failure>)
    requires Valid(w) && Compatible(w.baseline, state.point) && o < |w.objectives|
    ensures r.Ok? ==> r.value.point == state.point
  {
    match FoldTerms(w, mode, o, state, |Selectors(w, o)|)
    case Raised(failure) => Raised(failure)
    case Ok(work) => CloseObjective(w, mode, o, work)
  }

  function Finish(mode: Mode, state: State): Checked<Record, Failure> {
    if state.fault.None? && state.cost.Infinite? then
      if mode.Baseline? then Raised(NonFinite)
      else Ok(Record(state.point, state.objectives, Infinite, Some(Fault(NonFinite, Totalling))))
    else Ok(Record(state.point, state.objectives, state.cost, state.fault))
  }

  /** Evaluating one candidate on its own. */
  function Evaluated(w: World, mode: Mode, p: Point): Checked<Record, Failure>
    requires Valid(w) && Compatible(w.baseline, p)
  {
    match Prepare(w, mode, p)
    case Raised(failure) => Raised(failure)
    case Ok(state) =>
      match FoldObjectives(w, mode, state, |w.objectives|)
      case Raised(failure) => Raised(failure)
      case Ok(after) => Finish(mode, after)
  }
}
