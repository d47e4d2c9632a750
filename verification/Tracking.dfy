/** What a continuation run asks of the backend. */
module Tracking {
  // Each later attempt is one call of the backend: the view of the point its interval ends at, started
  // from the root last accepted.

  import opened Common
  import opened Continuation

  /** The point a fraction `t` of the way from the baseline to the candidate: quantities in proportion,
      RLGC records unchanged and equal at both ends. */
  predicate PointAt(baseline: Point, values: Point, t: real, p: Point)
    requires Compatible(baseline, values)
  {
    p.Keys == baseline.Keys && forall key :: key in baseline ==>
      if baseline[key].Rlgc? then p[key] == baseline[key] == values[key]
      else p[key] == Quantity((1.0 - t) * baseline[key].si + t * values[key].si)
  }

  predicate RlgcKept(baseline: Point, values: Point)
    requires Compatible(baseline, values)
  {
    forall key :: key in baseline && baseline[key].Rlgc? ==> values[key] == baseline[key]
  }

  lemma Mixed(a: real, b: real, t: real)
    ensures a + t * (b - a) == (1.0 - t) * a + t * b
  {
  }

  /** Interpolation fails exactly on an RLGC record that differs, and otherwise gives the point between. */
  lemma InterpolateExact(baseline: Point, values: Point, t: real)
    requires Compatible(baseline, values)
    ensures Interpolate(baseline, values, t).Ok? <==> RlgcKept(baseline, values)
    ensures Interpolate(baseline, values, t).Ok? ==> PointAt(baseline, values, t, Interpolate(baseline, values, t).value)
    ensures Interpolate(baseline, values, t).Raised? ==> Interpolate(baseline, values, t).error.kind == OtherKind("compiler_invariant")
  {
    if Interpolate(baseline, values, t).Ok? {
      forall key | key in baseline && baseline[key].Quantity?
        ensures Interpolate(baseline, values, t).value[key] == Quantity((1.0 - t) * baseline[key].si + t * values[key].si)
      {
        Mixed(baseline[key].si, values[key].si, t);
      }
    }
  }

  /** The backend's answer to a view and a start: at the end the candidate's own view, before it the view
      of the point between. */
  ghost predicate AnswerTo<V(!new)>(setting: Setting<V>, t: real, start: Complex, result: Evaluation)
    requires Compatible(setting.baseline, setting.values)
  {
    if t == 1.0 then result == setting.solve(setting.endpointView, start)
    else exists p, v :: Between(setting, t, p, v) && result == setting.solve(v, start)
  }

  ghost predicate Between<V(!new)>(setting: Setting<V>, t: real, p: Point, v: V)
    requires Compatible(setting.baseline, setting.values)
  {
    PointAt(setting.baseline, setting.values, t, p) && setting.view(p) == Ok(v)
  }

  ghost predicate Answers<V(!new)>(setting: Setting<V>, trace: seq<Attempt>, given: Option<Evaluation>)
    requires Compatible(setting.baseline, setting.values)
  {
    forall i :: 0 <= i < |trace| ==> AnswersAt(setting, trace, given, i)
  }

  ghost predicate AnswersAt<V(!new)>(setting: Setting<V>, trace: seq<Attempt>, given: Option<Evaluation>, i: nat)
    requires Compatible(setting.baseline, setting.values) && i < |trace|
  {
    if i == 0 && given.Some? then trace[0].result == given.value
    else AnswerTo(setting, trace[i].right, trace[i].start, trace[i].result)
  }

  lemma LookAnswers<V(!new)>(setting: Setting<V>, at: Position, target: Target, given: Option<Evaluation>)
    requires Compatible(setting.baseline, setting.values)
    ensures var look := LookAt(setting, at, target, given);
      Answers(setting, if look.Divide? then [look.attempt] else look.run.trace, given)
  {
    if target.right != 1.0 && ViewAt(setting, target.right).Ok? {
      InterpolateExact(setting.baseline, setting.values, target.right);
      var p := Interpolate(setting.baseline, setting.values, target.right).value;
      assert Between(setting, target.right, p, ViewAt(setting, target.right).value);
    }
  }

  lemma AnswersConcat<V(!new)>(setting: Setting<V>, a: seq<Attempt>, b: seq<Attempt>, given: Option<Evaluation>)
    requires Compatible(setting.baseline, setting.values)
    requires a != [] && Answers(setting, a, given) && Answers(setting, b, None)
    ensures Answers(setting, a + b, given)
  {
    forall i | 0 <= i < |a + b|
      ensures AnswersAt(setting, a + b, given, i)
    {
      if i < |a| {
        assert AnswersAt(setting, a, given, i);
      } else {
        assert AnswersAt(setting, b, None, i - |a|);
      }
    }
  }

  lemma {:induction false} SegmentAnswers<V(!new)>(setting: Setting<V>, at: Position, target: Target, given: Option<Evaluation>)
    requires Compatible(setting.baseline, setting.values)
    ensures Answers(setting, Advance(setting, at, target, given).trace, given)
    decreases MAX_DEPTH - target.depth
  {
    hide Answers;
    var look := LookAt(setting, at, target, given);
    LookAnswers(setting, at, target, given);
    if look.Divide? {
      SegmentAnswers(setting, at, Near(at, target), None);
      var first := Advance(setting, at, Near(at, target), None);
      AnswersConcat(setting, [look.attempt], first.trace, given);
      if first.outcome.Ok? {
        var middle := Position(Near(at, target).right, first.outcome.value);
        SegmentAnswers(setting, middle, Far(target), None);
        AnswersConcat(setting, [look.attempt] + first.trace, Advance(setting, middle, Far(target), None).trace, given);
      }
    }
  }

  /** The first attempt of a run is the result the caller holds, for the whole way; every later one is what
      the backend answers to the view its interval ends at, started from the root the trace shows. */
  lemma RunAnswers<V(!new)>(setting: Setting<V>, baselineRoot: Complex, initial: Evaluation)
    requires Compatible(setting.baseline, setting.values)
    ensures var trace := ContinueRoot(setting, baselineRoot, initial).trace;
      && |trace| > 0 && trace[0] == Attempt(0.0, 1.0, 0, baselineRoot, initial)
      && forall i :: 1 <= i < |trace| ==> AnswerTo(setting, trace[i].right, trace[i].start, trace[i].result)
  {
    SegmentAnswers(setting, Position(0.0, baselineRoot), Target(1.0, 0), Some(initial));
    var trace := ContinueRoot(setting, baselineRoot, initial).trace;
    forall i | 1 <= i < |trace|
      ensures AnswerTo(setting, trace[i].right, trace[i].start, trace[i].result)
    {
      assert AnswersAt(setting, trace, Some(initial), i);
    }
  }

  /** Each attempt starts from the root of the accepted attempt before it, or the baseline root. */
  ghost predicate StartsFrom(trace: seq<Attempt>, i: nat, baselineRoot: Complex)
    requires i < |trace|
  {
    || (trace[i].start == baselineRoot && forall j :: 0 <= j < i ==> trace[j].result.Unsolved?)
    || exists k: nat :: k < i && LastSolved(trace, i, k) && trace[i].start == trace[k].result.root
  }

  predicate LastSolved(trace: seq<Attempt>, i: nat, k: nat)
    requires k < i < |trace|
  {
    trace[k].result.Solved? && trace[k].right == trace[i].left && forall j :: k < j < i ==> trace[j].result.Unsolved?
  }

  /** The tail of an anchored trace starts where its head leads. */
  lemma {:induction false} AnchoredTail(trace: seq<Attempt>, at: Position, i: nat)
    requires i < |trace| && Anchored(trace, at)
    ensures Anchored(trace[i..], After(trace[..i], at)) && Position(trace[i].left, trace[i].start) == After(trace[..i], at)
  {
    AnchoredConcat(trace[..i], trace[i..], at);
    assert trace[..i] + trace[i..] == trace;
  }

  lemma {:induction false} AfterLast(trace: seq<Attempt>, at: Position)
    ensures trace != [] ==> After(trace, at) == Step(trace[|trace| - 1], After(trace[..|trace| - 1], at))
  {
    if trace != [] {
      var last := |trace| - 1;
      AnchoredConcat(trace[..last], [trace[last]], at);
      assert trace[..last] + [trace[last]] == trace;
      assert [trace[last]][1..] == [];
    }
  }

  lemma {:induction false} AfterSolved(trace: seq<Attempt>, at: Position, i: nat) returns (k: int)
    requires i <= |trace|
    ensures -1 <= k < i && (forall j :: k < j < i ==> trace[j].result.Unsolved?)
    ensures if k < 0 then After(trace[..i], at) == at
            else trace[k].result.Solved? && After(trace[..i], at) == Position(trace[k].right, trace[k].result.root)
  {
    if i == 0 {
      k := -1;
    } else {
      AfterLast(trace[..i], at);
      assert trace[..i][..i - 1] == trace[..i - 1];
      if trace[i - 1].result.Solved? {
        k := i - 1;
      } else {
        k := AfterSolved(trace, at, i - 1);
      }
    }
  }

  /** In every run each attempt starts from the root accepted last before it. */
  lemma RunStarts<V>(setting: Setting<V>, baselineRoot: Complex, initial: Evaluation, i: nat)
    requires Compatible(setting.baseline, setting.values) && i < |ContinueRoot(setting, baselineRoot, initial).trace|
    ensures StartsFrom(ContinueRoot(setting, baselineRoot, initial).trace, i, baselineRoot)
  {
    var trace, at := ContinueRoot(setting, baselineRoot, initial).trace, Position(0.0, baselineRoot);
    StartsFromLastAccepted(setting, at, Target(1.0, 0), Some(initial));
    AnchoredTail(trace, at, i);
    var k := AfterSolved(trace, at, i);
    if k >= 0 { assert LastSolved(trace, i, k); }
  }

  /** A run goes on after a failure exactly when it is an unresolved numerical result above depth 32; the
      root it returns is the one accepted at the end. */
  lemma RunEnds<V>(setting: Setting<V>, baselineRoot: Complex, initial: Evaluation)
    requires Compatible(setting.baseline, setting.values)
    ensures var run := ContinueRoot(setting, baselineRoot, initial);
      && |run.trace| > 0
      && (forall i :: 0 <= i < |run.trace| - 1 && run.trace[i].result.Unsolved? ==>
            run.trace[i].result.failure.kind == NumericalResolution && run.trace[i].depth < 32)
      && (match run.outcome
          case Ok(root) => run.trace[|run.trace| - 1].result == Solved(root) && run.trace[|run.trace| - 1].right == 1.0
          case Raised(Numerical(failure)) =>
            && run.trace[|run.trace| - 1].result == Unsolved(failure)
            && (failure.kind != NumericalResolution || run.trace[|run.trace| - 1].depth >= 32)
          case Raised(Lowering(_)) => true)
  {
    RunAnswersHere(setting, baselineRoot, initial);
    NothingAfterFailure(setting, Position(0.0, baselineRoot), Target(1.0, 0), Some(initial));
    EndsSolved(setting, Position(0.0, baselineRoot), Target(1.0, 0), Some(initial));
    var run := ContinueRoot(setting, baselineRoot, initial);
    if run.outcome.Raised? && run.outcome.error.Numerical? {
      var last := |run.trace| - 1;
      assert forall i :: 0 <= i < last ==> run.trace[..last][i] == run.trace[i];
    }
  }

  lemma RunAnswersHere<V>(setting: Setting<V>, baselineRoot: Complex, initial: Evaluation)
    requires Compatible(setting.baseline, setting.values)
    ensures |ContinueRoot(setting, baselineRoot, initial).trace| > 0
  {
  }

  predicate EndsAt(attempt: Attempt, right: real, root: Complex) {
    attempt.right == right && attempt.result == Solved(root)
  }

  lemma {:induction false} EndsSolved<V>(setting: Setting<V>, at: Position, target: Target, given: Option<Evaluation>)
    requires Compatible(setting.baseline, setting.values)
    ensures var run := Advance(setting, at, target, given);
      run.outcome.Ok? ==> |run.trace| > 0 && EndsAt(run.trace[|run.trace| - 1], target.right, run.outcome.value)
    decreases MAX_DEPTH - target.depth
  {
    var look := LookAt(setting, at, target, given);
    if look.Divide? {
      var first := Advance(setting, at, Near(at, target), None);
      if first.outcome.Ok? {
        EndsSolved(setting, Position(Near(at, target).right, first.outcome.value), Far(target), None);
      }
    }
  }
}
