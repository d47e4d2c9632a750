/** Baseline-anchored dyadic continuation of one diagonal root. */
module Continuation {
  // A run is described by its trace: one attempt for every numerical result the tracker looked
  // at, in order.  The first attempt of a complete run is the endpoint result the caller already
  // holds, so the evaluator calls are the attempts after it.

  import opened Common

  datatype Value = Quantity(si: real) | Rlgc(record: string)

  type Point = map<string, Value>

  const MAX_DEPTH: nat := 32

  /** The tracker's environment.  `view` lowers and realizes a point, `solve`
      runs the backend from a start root; both are functions of the job content. */
  datatype Setting<!V> = Setting(
    baseline: Point,
    values: Point,
    endpointView: V,
    view: Point -> Checked<V, Failure>,
    solve: (V, Complex) -> Evaluation)

  /** One observed result: the dyadic interval it was tried on, the root it
      started from, and what came back. */
  datatype Attempt = Attempt(left: real, right: real, depth: nat, start: Complex, result: Evaluation)

  /** What escapes a run: a numerical result that cannot be repaired, or an
      error from building the view of an intermediate point. */
  datatype Escape = Numerical(failure: Failure) | Lowering(failure: Failure)

  datatype Run = Run(trace: seq<Attempt>, outcome: Checked<Complex, Escape>)

  /** Candidates keep the keys and the value types of the baseline closure. */
  predicate Compatible(baseline: Point, values: Point) {
    forall key :: key in baseline ==> key in values && baseline[key].Quantity? == values[key].Quantity?
  }

  const RlgcInterpolation := Failure(OtherKind("compiler_invariant"), "root_continuation", "")

  function Interpolate(baseline: Point, values: Point, t: real): Checked<Point, Failure>
    requires Compatible(baseline, values)
  {
    if exists key :: key in baseline && baseline[key].Rlgc? && baseline[key] != values[key] then
      Raised(RlgcInterpolation)
    else
      Ok(map key | key in baseline ::
          match baseline[key]
          case Rlgc(_) => baseline[key]
          case Quantity(base) => Quantity(base + t * (values[key].si - base)))
  }

  function ViewAt<V>(setting: Setting<V>, t: real): Checked<V, Failure>
    requires Compatible(setting.baseline, setting.values)
  {
    if t == 1.0 then Ok(setting.endpointView)
    else
      match Interpolate(setting.baseline, setting.values, t)
      case Raised(error) => Raised(error)
      case Ok(point) => setting.view(point)
  }

  /** Only an unresolved numerical result above the depth limit is subdivided. */
  predicate Retryable(failure: Failure, depth: nat) {
    failure.kind == NumericalResolution && depth < MAX_DEPTH
  }

  /** Where the tracker stands: the end of the last accepted interval and the
      root accepted there. */
  datatype Position = Position(t: real, root: Complex)

  datatype Target = Target(right: real, depth: nat)

  /** Looking once at a target either ends the run there or divides it. */
  datatype Look = Stop(run: Run) | Divide(attempt: Attempt)

  function LookAt<V>(setting: Setting<V>, at: Position, target: Target, given: Option<Evaluation>): Look
    requires Compatible(setting.baseline, setting.values)
  {
    match ViewAt(setting, target.right)
    case Raised(error) => Stop(Run([], Raised(Lowering(error))))
    case Ok(view) =>
      var result := if given.Some? then given.value else setting.solve(view, at.root);
      var attempt := Attempt(at.t, target.right, target.depth, at.root, result);
      match result
      case Solved(root) => Stop(Run([attempt], Ok(root)))
      case Unsolved(failure) =>
        if Retryable(failure, target.depth) then Divide(attempt) else Stop(Run([attempt], Raised(Numerical(failure))))
  }

  function Near(at: Position, target: Target): Target {
    Target((at.t + target.right) / 2.0, target.depth + 1)
  }

  function Far(target: Target): Target {
    Target(target.right, target.depth + 1)
  }

  function Advance<V>(setting: Setting<V>, at: Position, target: Target, given: Option<Evaluation>): Run
    requires Compatible(setting.baseline, setting.values)
    decreases MAX_DEPTH - target.depth
  {
    match LookAt(setting, at, target, given)
    case Stop(run) => run
    case Divide(attempt) =>
      var first := Advance(setting, at, Near(at, target), None);
      match first.outcome
      case Raised(error) => Run([attempt] + first.trace, first.outcome)
      case Ok(middle) =>
        var second := Advance(setting, Position(Near(at, target).right, middle), Far(target), None);
        Run([attempt] + first.trace + second.trace, second.outcome)
  }

  function ContinueRoot<V>(setting: Setting<V>, baselineRoot: Complex, initial: Evaluation): Run
    requires Compatible(setting.baseline, setting.values)
  {
    Advance(setting, Position(0.0, baselineRoot), Target(1.0, 0), Some(initial))
  }

  // ---- The number of attempts ----------------------------------------------

  function Pow2(n: nat): (p: nat)
    ensures p >= 1
  {
    if n == 0 then 1 else 2 * Pow2(n - 1)
  }

  /** Every attempt below one interval: a full binary tree down to the limit. */
  function Budget(depth: nat): nat
    requires depth <= MAX_DEPTH
  {
    Pow2(MAX_DEPTH + 1 - depth) - 1
  }

  lemma {:induction false} AttemptsWithinBudget<V>(
      setting: Setting<V>, at: Position, target: Target, given: Option<Evaluation>)
    requires Compatible(setting.baseline, setting.values) && target.depth <= MAX_DEPTH
    ensures |Advance(setting, at, target, given).trace| <= Budget(target.depth)
    decreases MAX_DEPTH - target.depth
  {
    if LookAt(setting, at, target, given).Divide? {
      AttemptsWithinBudget(setting, at, Near(at, target), None);
      var first := Advance(setting, at, Near(at, target), None);
      if first.outcome.Ok? {
        AttemptsWithinBudget(setting, Position(Near(at, target).right, first.outcome.value), Far(target), None);
      }
    }
  }

  lemma Pow2Value()
    ensures Pow2(33) == 0x2_0000_0000
  {
    assert Pow2(8) == 256;
    assert Pow2(16) == 65536;
    assert Pow2(24) == 0x100_0000;
    assert Pow2(32) == 0x1_0000_0000;
  }

  /** A complete run makes at most 2^33 - 2 evaluator calls. */
  lemma EvaluatorCallsBounded<V>(setting: Setting<V>, baselineRoot: Complex, initial: Evaluation)
    requires Compatible(setting.baseline, setting.values)
    ensures var trace := ContinueRoot(setting, baselineRoot, initial).trace;
      |trace| >= 1 && trace[0].result == initial && |trace| - 1 <= 0x2_0000_0000 - 2
  {
    AttemptsWithinBudget(setting, Position(0.0, baselineRoot), Target(1.0, 0), Some(initial));
    Pow2Value();
  }

  // ---- What every attempt starts from ----------------------------------------

  function Step(attempt: Attempt, at: Position): Position {
    match attempt.result
    case Solved(root) => Position(attempt.right, root)
    case Unsolved(_) => at
  }

  function After(trace: seq<Attempt>, at: Position): Position {
    if trace == [] then at else After(trace[1..], Step(trace[0], at))
  }

  /** Every attempt starts where the last accepted one ended, with its root. */
  predicate Anchored(trace: seq<Attempt>, at: Position) {
    trace == [] ||
    (Position(trace[0].left, trace[0].start) == at && Anchored(trace[1..], Step(trace[0], at)))
  }

  lemma {:induction false} AnchoredConcat(a: seq<Attempt>, b: seq<Attempt>, at: Position)
    ensures After(a + b, at) == After(b, After(a, at))
    ensures Anchored(a + b, at) <==> Anchored(a, at) && Anchored(b, After(a, at))
  {
    if a == [] {
      assert a + b == b;
    } else {
      assert (a + b)[1..] == a[1..] + b;
      AnchoredConcat(a[1..], b, Step(a[0], at));
    }
  }

  /** Each evaluation of a run starts from the most recently accepted root, and
      a run that returns stands at its right end with the root it returns. */
  lemma {:induction false} StartsFromLastAccepted<V>(
      setting: Setting<V>, at: Position, target: Target, given: Option<Evaluation>)
    requires Compatible(setting.baseline, setting.values)
    ensures var run := Advance(setting, at, target, given);
      && Anchored(run.trace, at)
      && (run.outcome.Ok? ==> After(run.trace, at) == Position(target.right, run.outcome.value))
    decreases MAX_DEPTH - target.depth
  {
    var look := LookAt(setting, at, target, given);
    if look.Divide? {
      StartsFromLastAccepted(setting, at, Near(at, target), None);
      var first := Advance(setting, at, Near(at, target), None);
      AnchoredConcat([look.attempt], first.trace, at);
      if first.outcome.Ok? {
        var middle := Position(Near(at, target).right, first.outcome.value);
        StartsFromLastAccepted(setting, middle, Far(target), None);
        var second := Advance(setting, middle, Far(target), None);
        AnchoredConcat([look.attempt] + first.trace, second.trace, at);
      }
    }
  }

  // ---- The accepted intervals --------------------------------------------------

  function Accepted(trace: seq<Attempt>): (steps: seq<Attempt>) {
    if trace == [] then []
    else (if trace[0].result.Solved? then [trace[0]] else []) + Accepted(trace[1..])
  }

  /** Consecutive nonempty intervals that cover exactly `left` to `right`. */
  predicate Tiles(steps: seq<Attempt>, left: real, right: real) {
    |steps| > 0 &&
    steps[0].left == left && steps[|steps| - 1].right == right &&
    (forall i :: 0 <= i < |steps| ==> steps[i].left < steps[i].right) &&
    (forall i :: 0 < i < |steps| ==> steps[i - 1].right == steps[i].left)
  }

  lemma {:induction false} AcceptedConcat(a: seq<Attempt>, b: seq<Attempt>)
    ensures Accepted(a + b) == Accepted(a) + Accepted(b)
  {
    if a == [] {
      assert a + b == b;
    } else {
      assert (a + b)[1..] == a[1..] + b;
      AcceptedConcat(a[1..], b);
    }
  }

  lemma TilesDivided(attempt: Attempt, a: seq<Attempt>, b: seq<Attempt>, left: real, middle: real, right: real)
    requires attempt.result.Unsolved?
    requires Tiles(Accepted(a), left, middle) && Tiles(Accepted(b), middle, right)
    ensures Tiles(Accepted([attempt] + a + b), left, right)
    ensures |Accepted([attempt] + a + b)| == |Accepted(a)| + |Accepted(b)|
  {
    AcceptedConcat([attempt], a);
    AcceptedConcat([attempt] + a, b);
    assert Accepted([attempt] + a + b) == Accepted(a) + Accepted(b);
  }

  /** A run that returns accepted intervals that tile its interval in order, and
      it accepted exactly one more attempt than it subdivided. */
  lemma {:induction false} AcceptedTile<V>(
      setting: Setting<V>, at: Position, target: Target, given: Option<Evaluation>)
    requires Compatible(setting.baseline, setting.values) && at.t < target.right
    requires Advance(setting, at, target, given).outcome.Ok?
    ensures var trace := Advance(setting, at, target, given).trace;
      Tiles(Accepted(trace), at.t, target.right) && |trace| == 2 * |Accepted(trace)| - 1
    decreases MAX_DEPTH - target.depth
  {
    var look := LookAt(setting, at, target, given);
    if look.Divide? {
      var near := Near(at, target);
      var first := Advance(setting, at, near, None);
      var second := Advance(setting, Position(near.right, first.outcome.value), Far(target), None);
      AcceptedTile(setting, at, near, None);
      AcceptedTile(setting, Position(near.right, first.outcome.value), Far(target), None);
      TilesDivided(look.attempt, first.trace, second.trace, at.t, near.right, target.right);
    }
  }

  // ---- Every interval is a dyadic cell -----------------------------------------

  /** The interval is cell number k of the 2^depth equal cells of [0, 1]. */
  predicate CellAt(k: nat, left: real, right: real, depth: nat) {
    var cells := Pow2(depth) as real;
    k < Pow2(depth) && left * cells == k as real && right * cells == k as real + 1.0
  }

  ghost predicate Cell(left: real, right: real, depth: nat) {
    exists k: nat :: CellAt(k, left, right, depth)
  }

  lemma HalfCells(at: Position, target: Target)
    requires Cell(at.t, target.right, target.depth)
    ensures Cell(at.t, Near(at, target).right, target.depth + 1)
    ensures Cell(Near(at, target).right, target.right, target.depth + 1)
  {
    var k: nat :| CellAt(k, at.t, target.right, target.depth);
    var p := Pow2(target.depth) as real;
    assert Pow2(target.depth + 1) as real == 2.0 * p;
    var midpoint := Near(at, target).right;
    assert at.t * (2.0 * p) == 2.0 * (at.t * p);
    assert midpoint * (2.0 * p) == at.t * p + target.right * p;
    assert target.right * (2.0 * p) == 2.0 * (target.right * p);
    assert CellAt(2 * k, at.t, midpoint, target.depth + 1);
    assert CellAt(2 * k + 1, midpoint, target.right, target.depth + 1);
  }

  ghost predicate Dyadic(trace: seq<Attempt>) {
    forall i :: 0 <= i < |trace| ==> trace[i].depth <= MAX_DEPTH && Cell(trace[i].left, trace[i].right, trace[i].depth)
  }

  /** Every parameter value t the tracker visits is k / 2^depth with depth at
      most 32, so it is exact in binary64 and only the endpoint equals one. */
  lemma {:induction false} VisitsDyadicCells<V>(
      setting: Setting<V>, at: Position, target: Target, given: Option<Evaluation>)
    requires Compatible(setting.baseline, setting.values) && target.depth <= MAX_DEPTH
    requires Cell(at.t, target.right, target.depth)
    ensures Dyadic(Advance(setting, at, target, given).trace)
    decreases MAX_DEPTH - target.depth
  {
    var look := LookAt(setting, at, target, given);
    if look.Divide? {
      HalfCells(at, target);
      VisitsDyadicCells(setting, at, Near(at, target), None);
      var first := Advance(setting, at, Near(at, target), None);
      if first.outcome.Ok? {
        VisitsDyadicCells(setting, Position(Near(at, target).right, first.outcome.value), Far(target), None);
      }
    }
  }

  // ---- How a run fails ------------------------------------------------------------

  /** Every unresolved attempt was divided further. */
  predicate Continued(trace: seq<Attempt>) {
    forall i :: 0 <= i < |trace| && trace[i].result.Unsolved? ==> Retryable(trace[i].result.failure, trace[i].depth)
  }

  /** The error is the last thing the trace shows: the last attempt failed for
      good, or a view could not be built and nothing was evaluated there. */
  ghost predicate EndsWith<V>(setting: Setting<V>, trace: seq<Attempt>, error: Escape)
    requires Compatible(setting.baseline, setting.values)
  {
    match error
    case Lowering(failure) => Continued(trace) && exists t :: ViewAt(setting, t) == Raised(failure)
    case Numerical(failure) =>
      |trace| > 0 && Continued(trace[..|trace| - 1]) &&
      trace[|trace| - 1].result == Unsolved(failure) && !Retryable(failure, trace[|trace| - 1].depth)
  }

  lemma EndsWithPrefix<V>(setting: Setting<V>, before: seq<Attempt>, trace: seq<Attempt>, error: Escape)
    requires Compatible(setting.baseline, setting.values) && Continued(before) && EndsWith(setting, trace, error)
    ensures EndsWith(setting, before + trace, error)
  {
    if |trace| > 0 {
      assert (before + trace)[..|before + trace| - 1] == before + trace[..|trace| - 1];
    }
  }

  /** A raised failure is the last thing a run saw, and every failure before it
      was subdivided. */
  lemma {:induction false} NothingAfterFailure<V>(
      setting: Setting<V>, at: Position, target: Target, given: Option<Evaluation>)
    requires Compatible(setting.baseline, setting.values)
    ensures var run := Advance(setting, at, target, given);
      if run.outcome.Ok? then Continued(run.trace) else EndsWith(setting, run.trace, run.outcome.error)
    decreases MAX_DEPTH - target.depth
  {
    var look := LookAt(setting, at, target, given);
    if look.Divide? {
      NothingAfterFailure(setting, at, Near(at, target), None);
      var first := Advance(setting, at, Near(at, target), None);
      if first.outcome.Ok? {
        var middle := Position(Near(at, target).right, first.outcome.value);
        NothingAfterFailure(setting, middle, Far(target), None);
        var second := Advance(setting, middle, Far(target), None);
        if second.outcome.Raised? {
          EndsWithPrefix(setting, [look.attempt] + first.trace, second.trace, second.outcome.error);
        }
      } else {
        EndsWithPrefix(setting, [look.attempt], first.trace, first.outcome.error);
      }
    } else if look.run.outcome.Raised? {
      assert look.run.trace[..0] == [];
    }
  }

  // ---- The recursion is an iterative worklist ------------------------------------

  function PendingBudget(pending: seq<Target>): nat
    requires forall target :: target in pending ==> target.depth <= MAX_DEPTH
  {
    if pending == [] then 0 else Budget(pending[0].depth) + PendingBudget(pending[1..])
  }

  lemma DividingSpendsBudget(near: Target, far: Target, rest: seq<Target>, whole: Target)
    requires forall target :: target in rest ==> target.depth <= MAX_DEPTH
    requires near.depth == far.depth == whole.depth + 1 <= MAX_DEPTH
    ensures PendingBudget([near, far] + rest) < PendingBudget([whole] + rest)
  {
    assert ([near, far] + rest)[1..] == [far] + rest && ([far] + rest)[1..] == rest;
    assert ([whole] + rest)[1..] == rest;
  }

  /** Walks from the current position through a stack of targets.  A reached
      target is popped; a divided one is replaced by its two halves. */
  function Walk<V>(setting: Setting<V>, at: Position, pending: seq<Target>, given: Option<Evaluation>): Run
    requires Compatible(setting.baseline, setting.values)
    requires forall target :: target in pending ==> target.depth <= MAX_DEPTH
    decreases PendingBudget(pending)
  {
    if pending == [] then Run([], Ok(at.root))
    else
      match LookAt(setting, at, pending[0], given)
      case Divide(attempt) =>
        var halves := [Near(at, pending[0]), Far(pending[0])];
        DividingSpendsBudget(halves[0], halves[1], pending[1..], pending[0]);
        assert [pending[0]] + pending[1..] == pending;
        var onward := Walk(setting, at, halves + pending[1..], None);
        Run([attempt] + onward.trace, onward.outcome)
      case Stop(run) =>
        match run.outcome
        case Raised(_) => run
        case Ok(root) =>
          var onward := Walk(setting, Position(pending[0].right, root), pending[1..], None);
          Run(run.trace + onward.trace, onward.outcome)
  }

  /** The first run and, if it returned, the onward run after it. */
  function Then(run: Run, onward: Run): Run {
    if run.outcome.Raised? then run else Run(run.trace + onward.trace, onward.outcome)
  }

  /** Walking on from where a run stands, if it returned. */
  function WalkOn<V>(setting: Setting<V>, run: Run, right: real, rest: seq<Target>): Run
    requires Compatible(setting.baseline, setting.values)
    requires forall other :: other in rest ==> other.depth <= MAX_DEPTH
  {
    if run.outcome.Raised? then run
    else Then(run, Walk(setting, Position(right, run.outcome.value), rest, None))
  }

  lemma WalkDivides<V>(setting: Setting<V>, at: Position, target: Target, rest: seq<Target>, given: Option<Evaluation>)
    requires Compatible(setting.baseline, setting.values)
    requires target.depth <= MAX_DEPTH && forall other :: other in rest ==> other.depth <= MAX_DEPTH
    requires LookAt(setting, at, target, given).Divide?
    ensures var attempt := LookAt(setting, at, target, given).attempt;
      var onward := Walk(setting, at, [Near(at, target)] + ([Far(target)] + rest), None);
      Walk(setting, at, [target] + rest, given) == Run([attempt] + onward.trace, onward.outcome)
  {
    var pending := [target] + rest;
    assert pending[0] == target && pending[1..] == rest;
    assert [Near(at, target), Far(target)] + rest == [Near(at, target)] + ([Far(target)] + rest);
  }

  /** Walking to a target and then on is advancing to it and then walking on. */
  lemma {:induction false} WalkIsAdvance<V>(
      setting: Setting<V>, at: Position, target: Target, rest: seq<Target>, given: Option<Evaluation>)
    requires Compatible(setting.baseline, setting.values)
    requires target.depth <= MAX_DEPTH && forall other :: other in rest ==> other.depth <= MAX_DEPTH
    ensures Walk(setting, at, [target] + rest, given) ==
            WalkOn(setting, Advance(setting, at, target, given), target.right, rest)
    decreases MAX_DEPTH - target.depth
  {
    var look := LookAt(setting, at, target, given);
    if look.Divide? {
      var near, far := Near(at, target), Far(target);
      WalkDivides(setting, at, target, rest, given);
      WalkIsAdvance(setting, at, near, [far] + rest, None);
      var first := Advance(setting, at, near, None);
      if first.outcome.Ok? {
        var middle := Position(near.right, first.outcome.value);
        WalkIsAdvance(setting, middle, far, rest, None);
        JoinWalks(setting, look.attempt, first, Advance(setting, middle, far, None), target.right, rest);
      }
    } else {
      var pending := [target] + rest;
      assert pending[0] == target && pending[1..] == rest;
    }
  }

  lemma JoinWalks<V>(setting: Setting<V>, attempt: Attempt, first: Run, second: Run, right: real, rest: seq<Target>)
    requires Compatible(setting.baseline, setting.values)
    requires forall other :: other in rest ==> other.depth <= MAX_DEPTH
    requires first.outcome.Ok?
    ensures var onward := Then(first, WalkOn(setting, second, right, rest));
      Run([attempt] + onward.trace, onward.outcome) ==
      WalkOn(setting, Run([attempt] + first.trace + second.trace, second.outcome), right, rest)
  {
    if second.outcome.Ok? {
      var last := Walk(setting, Position(right, second.outcome.value), rest, None).trace;
      assert [attempt] + (first.trace + (second.trace + last)) == [attempt] + first.trace + second.trace + last;
    } else {
      assert [attempt] + (first.trace + second.trace) == [attempt] + first.trace + second.trace;
    }
  }

  /** The recursive tracker and the iterative walk make the same run. */
  lemma ContinueRootIsWalk<V>(setting: Setting<V>, baselineRoot: Complex, initial: Evaluation)
    requires Compatible(setting.baseline, setting.values)
    ensures ContinueRoot(setting, baselineRoot, initial) ==
            Walk(setting, Position(0.0, baselineRoot), [Target(1.0, 0)], Some(initial))
  {
    WalkIsAdvance(setting, Position(0.0, baselineRoot), Target(1.0, 0), [], Some(initial));
    var run := ContinueRoot(setting, baselineRoot, initial);
    assert [Target(1.0, 0)] + [] == [Target(1.0, 0)];
    assert run.trace + [] == run.trace;
  }

  // ---- The whole run --------------------------------------------------------------

  lemma {:induction false} AcceptedRootsChain(trace: seq<Attempt>, at: Position)
    requires Anchored(trace, at)
    ensures var steps := Accepted(trace);
      && (|steps| > 0 ==> steps[0].start == at.root && steps[|steps| - 1].result == Solved(After(trace, at).root))
      && (|steps| == 0 ==> After(trace, at) == at)
      && (forall i :: 0 <= i < |steps| ==> steps[i].result.Solved?)
      && (forall i :: 0 < i < |steps| ==> Solved(steps[i].start) == steps[i - 1].result)
  {
    if trace != [] {
      AcceptedRootsChain(trace[1..], Step(trace[0], at));
    }
  }

  /** A successful repair tiles [0, 1] from the baseline root to the endpoint,
      every step starting from the root the step before it reached. */
  lemma SuccessTilesUnitInterval<V>(setting: Setting<V>, baselineRoot: Complex, initial: Evaluation)
    requires Compatible(setting.baseline, setting.values)
    requires ContinueRoot(setting, baselineRoot, initial).outcome.Ok?
    ensures var run := ContinueRoot(setting, baselineRoot, initial);
      var steps := Accepted(run.trace);
      && Tiles(steps, 0.0, 1.0)
      && steps[0].start == baselineRoot
      && steps[|steps| - 1].result == Solved(run.outcome.value)
      && (forall i :: 0 < i < |steps| ==> Solved(steps[i].start) == steps[i - 1].result)
      && |steps| == (|run.trace| - |steps|) + 1
  {
    var at, target := Position(0.0, baselineRoot), Target(1.0, 0);
    AcceptedTile(setting, at, target, Some(initial));
    StartsFromLastAccepted(setting, at, target, Some(initial));
    AcceptedRootsChain(ContinueRoot(setting, baselineRoot, initial).trace, at);
  }

  // ---- The bound is attained --------------------------------------------------------

  const Stalled := Failure(NumericalResolution, "newton", "")

  /** How far the stalling backend reaches: 2^-32 beyond its start. */
  predicate Reaches(start: real, right: real) {
    (right - start) * 4294967296.0 <= 1.0
  }

  /** One parameter runs from 0 to 1, the view of a point is its value, and the
      backend only resolves a point it can reach. */
  function StallingSetting(): Setting<real> {
    Setting(map["x" := Quantity(0.0)], map["x" := Quantity(1.0)], 1.0,
         (point: Point) => if "x" in point && point["x"].Quantity? then Ok(point["x"].si) else Raised(Stalled),
         (target: real, start: Complex) =>
           if Reaches(start.re, target) then Solved(Complex(target, 0.0)) else Unsolved(Stalled))
  }

  function RealRoot(t: real): Position {
    Position(t, Complex(t, 0.0))
  }

  /** One look at a setting that stalls: solved if reached, divided otherwise. */
  ghost predicate StallsAt(setting: Setting<real>, left: real, target: Target)
    requires Compatible(setting.baseline, setting.values)
  {
    match LookAt(setting, RealRoot(left), target, None)
    case Stop(run) => Reaches(left, target.right) && |run.trace| == 1 && run.outcome == Ok(Complex(target.right, 0.0))
    case Divide(_) => !Reaches(left, target.right)
  }

  ghost predicate Stalls(setting: Setting<real>) {
    Compatible(setting.baseline, setting.values) &&
    forall left, target: Target :: target.depth < MAX_DEPTH || Reaches(left, target.right) ==> StallsAt(setting, left, target)
  }

  lemma StallingSettingStalls()
    ensures Stalls(StallingSetting())
  {
    forall left, target: Target | target.depth < MAX_DEPTH || Reaches(left, target.right)
      ensures StallsAt(StallingSetting(), left, target)
    {
      assert ViewAt(StallingSetting(), target.right) == Ok(target.right);
    }
  }

  lemma {:induction false} Pow2UpTo32(n: nat)
    requires n <= 32
    ensures Pow2(32) == 0x1_0000_0000
    ensures n < 32 ==> Pow2(n) <= 0x8000_0000
    decreases 32 - n
  {
    if n < 31 {
      Pow2UpTo32(n + 1);
    } else {
      Pow2Value();
      assert Pow2(33) == 2 * Pow2(32);
    }
  }

  lemma WidthBound(width: real, cells: real)
    requires width * cells == 1.0 && cells >= 1.0
    ensures cells <= 2147483648.0 ==> width * 4294967296.0 > 1.0
  {
    assert width > 0.0;
    if cells <= 2147483648.0 {
      assert width * cells <= width * 2147483648.0;
    }
  }

  /** A cell is reached from its left end exactly at the depth limit. */
  lemma ReachesOnlySmallestCells(left: real, target: Target)
    requires target.depth <= MAX_DEPTH && CellWide(left, target)
    ensures Reaches(left, target.right) <==> target.depth == MAX_DEPTH
  {
    Pow2UpTo32(target.depth);
    WidthBound(target.right - left, Pow2(target.depth) as real);
  }

  lemma AdvanceDivided<V>(setting: Setting<V>, at: Position, target: Target, given: Option<Evaluation>)
    requires Compatible(setting.baseline, setting.values) && LookAt(setting, at, target, given).Divide?
    requires Advance(setting, at, Near(at, target), None).outcome.Ok?
    ensures var first := Advance(setting, at, Near(at, target), None);
      var second := Advance(setting, Position(Near(at, target).right, first.outcome.value), Far(target), None);
      var run := Advance(setting, at, target, given);
      |run.trace| == 1 + |first.trace| + |second.trace| && run.outcome == second.outcome
  {
  }

  /** The interval is as wide as a cell of its depth. */
  predicate CellWide(left: real, target: Target) {
    (target.right - left) * Pow2(target.depth) as real == 1.0
  }

  lemma {:induction false} StallsEverywhere(setting: Setting<real>, left: real, target: Target)
    requires Stalls(setting) && target.depth <= MAX_DEPTH && CellWide(left, target)
    ensures var run := Advance(setting, RealRoot(left), target, None);
      |run.trace| == Budget(target.depth) && run.outcome == Ok(Complex(target.right, 0.0))
    decreases MAX_DEPTH - target.depth
  {
    var at := RealRoot(left);
    ReachesOnlySmallestCells(left, target);
    assert StallsAt(setting, left, target);
    if target.depth < MAX_DEPTH {
      var near := Near(at, target);
      HalfWidths(left, target);
      StallsEverywhere(setting, left, near);
      StallsEverywhere(setting, near.right, Far(target));
      AdvanceDivided(setting, at, target, None);
    }
  }

  lemma HalfWidths(left: real, target: Target)
    requires CellWide(left, target)
    ensures CellWide(left, Near(RealRoot(left), target))
    ensures CellWide(Near(RealRoot(left), target).right, Far(target))
  {
    var middle := Near(RealRoot(left), target).right;
    assert middle - left == (target.right - left) / 2.0 == target.right - middle;
    assert Pow2(target.depth + 1) as real == 2.0 * Pow2(target.depth) as real;
  }

  /** The bound on evaluator calls cannot be lowered: this run reaches it. */
  lemma BoundIsAttained()
    ensures Compatible(StallingSetting().baseline, StallingSetting().values)
    ensures |ContinueRoot(StallingSetting(), Complex(0.0, 0.0), Unsolved(Stalled)).trace| - 1 == 0x2_0000_0000 - 2
  {
    StallingSettingStalls();
    StalledRunVisitsAll(StallingSetting());
  }

  lemma StalledRunVisitsAll(setting: Setting<real>)
    requires Stalls(setting)
    ensures |ContinueRoot(setting, Complex(0.0, 0.0), Unsolved(Stalled)).trace| - 1 == 0x2_0000_0000 - 2
  {
    var at, target := RealRoot(0.0), Target(1.0, 0);
    assert StallsAt(setting, 0.0, target);
    StallsEverywhere(setting, 0.0, Near(at, target));
    StallsEverywhere(setting, 0.5, Far(target));
    AdvanceDivided(setting, at, target, Some(Unsolved(Stalled)));
    Pow2Value();
  }
}
