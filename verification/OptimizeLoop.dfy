/** The generation loop itself: one evaluator with its cache, one optimizer, run to the last generation. */
module OptimizeLoop {
  import opened Common
  import opened Continuation
  import opened Measurement
  import opened Denotation
  import opened Batch
  import opened Optimizer
  import opened Generations

  /** The optimizer object whose fields a snapshot copies out and back in. */
  class Sampler {
    var cma: Cma

    constructor (initial: Cma)
      ensures cma == initial
    {
      cma := initial;
    }

    /** Copies every declared field and the generator out. */
    method Snapshot() returns (record: Snapshot)
      requires WellFormed(cma)
      ensures record == SnapshotOf(cma)
    {
      var names := cma.fields.Keys;
      var fields: map<FieldName, Encoded> := map[];
      while names != {}
        invariant names <= cma.fields.Keys
        invariant fields == map name | name in cma.fields && name !in names :: Encode(cma.fields[name])
        decreases names
      {
        var name :| name in names;
        fields := fields[name := Encode(cma.fields[name])];
        names := names - {name};
      }
      assert fields == EncodeAll(cma.fields);
      record := Optimizer.Snapshot(fields, cma.rng);
    }

    /** Sets the fields one by one: a different layout is refused before any is set, a value that cannot
        be read ends the restoration where it stands. */
    method Restore(record: Snapshot) returns (ok: bool)
      requires WellFormed(cma)
      modifies this
      ensures ok <==> RestoreFrom(record).Some?
      ensures ok ==> cma == RestoreFrom(record).value
      ensures !HasAllFields(record.fields.Keys) || record.rng.algorithm != "MT19937" ==> cma == old(cma)
    {
      if !HasAllFields(record.fields.Keys) || record.rng.algorithm != "MT19937" {
        return false;
      }
      var names := record.fields.Keys;
      while names != {}
        invariant names <= record.fields.Keys && HasAllFields(cma.fields.Keys)
        invariant forall name :: name in record.fields && name !in names ==> Decode(record.fields[name]) == Some(cma.fields[name])
        decreases names
      {
        var name :| name in names;
        var field := Decode(record.fields[name]);
        if field.None? { return false; }
        cma := cma.(fields := cma.fields[name := field.value]);
        names := names - {name};
      }
      assert cma.fields == DecodeAll(record.fields);
      cma := cma.(rng := record.rng);
      ok := true;
    }
  }

  /** Asks for a population. */
  method Ask(study: Study, cma: Cma) returns (asked: Cma, raw: seq<Vector>)
    ensures (asked, raw) == AskAll(study, cma, study.population)
  {
    asked, raw := cma, [];
    for k := 0 to study.population
      invariant (asked, raw) == AskAll(study, cma, k)
    {
      var (next, x) := study.ask(asked);
      asked, raw := next, raw + [x];
    }
  }

  /** Maps every vector, stopping at the first that leaves its domain. */
  method Map(study: Study, raw: seq<Vector>) returns (points: Option<seq<Point>>)
    ensures points == MapAll(study, raw)
  {
    var mapped: seq<Point> := [];
    for k := 0 to |raw|
      invariant MapAll(study, raw[..k]) == Some(mapped)
    {
      assert raw[..k + 1][..k] == raw[..k];
      var point := study.mapped(raw[k]);
      if point.Raised? {
        MapFails(study, raw, k + 1);
        return None;
      }
      mapped := mapped + [point.value];
    }
    assert raw[..|raw|] == raw;
    points := Some(mapped);
  }

  lemma {:induction false} MapFails(study: Study, raw: seq<Vector>, n: nat)
    requires n <= |raw| && MapAll(study, raw[..n]).None?
    ensures MapAll(study, raw).None?
    decreases |raw| - n
  {
    if n < |raw| {
      assert raw[..n + 1][..n] == raw[..n];
      MapFails(study, raw, n + 1);
    } else {
      assert raw[..n] == raw;
    }
  }

  /** Numbers the records of a generation, tracks the best and emits the rows. */
  method Account(points: seq<Point>, results: seq<Result>, raw: seq<Vector>, generation: int, first: nat, known: Occurrence)
    returns (rows: seq<Occurrence>, events: seq<Event>, told: seq<(Vector, Cost)>, best: Occurrence, next: nat)
    requires |points| == |results| == |raw|
    ensures rows == Rows(points, results, raw, generation, first, |raw|)
    ensures events == RowEvents(rows) && told == Told(raw, rows)
    ensures best == BestOf(rows, known) && next == first + |rows|
  {
    hide RowEvents, Told, BestOf;
    NothingAccounted(raw, known);
    rows, events, told, best, next := [], [], [], known, first;
    for column := 0 to |results|
      invariant rows == Rows(points, results, raw, generation, first, column)
      invariant events == RowEvents(rows)
      invariant told == Told(raw[..column], rows)
      invariant best == BestOf(rows, known) && next == first + column
    {
      var row := Occurrence(results[column].record, points[column], results[column].hit, next, generation, column, raw[column]);
      RowsExtend(rows, row, known, raw, column);
      next := next + 1;
      if Improves(row.record.cost, best.record.cost) {
        best := row;
      }
      told := told + [(raw[column], row.record.cost)];
      events := events + [RowEvaluated(row)];
      rows := rows + [row];
    }
    assert raw[..|raw|] == raw;
  }

  lemma NothingAccounted(raw: seq<Vector>, known: Occurrence)
    ensures RowEvents([]) == [] && Told(raw[..0], []) == [] && BestOf([], known) == known
  {
  }

  lemma RowsExtend(rows: seq<Occurrence>, row: Occurrence, known: Occurrence, raw: seq<Vector>, column: nat)
    requires column == |rows| < |raw|
    ensures Told(raw[..column + 1], rows + [row]) == Told(raw[..column], rows) + [(raw[column], row.record.cost)]
    ensures RowEvents(rows + [row]) == RowEvents(rows) + [RowEvaluated(row)]
    ensures BestOf(rows + [row], known) == Better(row, BestOf(rows, known))
  {
    assert (rows + [row])[..|rows|] == rows;
  }

  /** One generation: ask, map, evaluate, account, tell, acknowledge. */
  method RunGeneration(evaluator: Evaluator, study: Study, st: LoopState) returns (round: Round)
    requires Lawful(study) && evaluator.w == study.w && WellFormed(st.cma)
    requires evaluator.cache == st.cache && evaluator.anchors == st.anchors
    modifies evaluator
    ensures round == TurnOf(study)(st)
    ensures round.state.Some? ==> evaluator.cache == round.state.value.cache && evaluator.anchors == round.state.value.anchors
  {
    AskedWell(study, st.cma, study.population);
    var asked, raw := Ask(study, st.cma);
    var points := Map(study, raw);
    round := Evaluate(evaluator, study, st, asked, raw, points);
  }

  /** Evaluates a population, if every vector mapped. */
  method Evaluate(evaluator: Evaluator, study: Study, st: LoopState, asked: Cma, raw: seq<Vector>, points: Option<seq<Point>>)
    returns (round: Round)
    requires Lawful(study) && evaluator.w == study.w && WellFormed(st.cma) && WellFormed(asked)
    requires evaluator.cache == st.cache && evaluator.anchors == st.anchors
    requires points == MapAll(study, raw)
    modifies evaluator
    ensures round == Assemble(study, EvalIn(study.w, Candidate(st.anchors)), st, asked, raw, points)
    ensures round.state.Some? ==> evaluator.cache == round.state.value.cache && evaluator.anchors == round.state.value.anchors
  {
    hide WellFormed;
    if points.None? {
      return Round([PopulationObserved(Generation(st.cma) + 1, raw)], None);
    }
    MappedWell(study, raw);
    var results := evaluator.EvaluateMany(points.value, false);
    round := Conclude(study, EvalIn(study.w, Candidate(st.anchors)), st, asked, raw, points.value, results, evaluator.cache);
  }

  /** Accounts an evaluated population, tells the optimizer and acknowledges. */
  method Conclude(study: Study, ghost eval: Eval, st: LoopState, asked: Cma, raw: seq<Vector>, points: seq<Point>,
                  results: Checked<seq<Result>, Failure>, cache: Cache)
    returns (round: Round)
    requires Lawful(study) && WellFormed(st.cma) && WellFormed(asked) && |points| == |raw|
    requires results.Ok? <==> Completes(eval, st.cache, points)
    requires results.Ok? ==> results.value == Results(eval, st.cache, points) && cache == CacheAfter(eval, st.cache, points)
    ensures round == Assemble(study, eval, st, asked, raw, Some(points))
    ensures round.state.Some? ==> round.state.value.cache == cache && round.state.value.anchors == st.anchors
  {
    hide WellFormed, ResultAt, Generation;
    var generation := Generation(st.cma) + 1;
    var observed := [PopulationObserved(generation, raw)];
    if results.Raised? {
      return Round(observed, None);
    }
    var rows, events, told, best, next := Account(points, results.value, raw, generation, st.next, st.best);
    var cma := study.tell(asked, told);
    Assembled(study, eval, st, asked, raw, points);
    FinishedAs(study, st, asked, raw, rows, cache, observed);
    round := Round(
      observed + events + [GenerationReady(Generation(cma), next, best.ordinal, SnapshotOf(cma))],
      Some(LoopState(cma, st.anchors, cache, st.baseline, best, next)));
  }

  /** A completed batch leaves exactly the last step of the generation. */
  lemma Assembled(study: Study, eval: Eval, st: LoopState, asked: Cma, raw: seq<Vector>, points: seq<Point>)
    requires WellFormed(st.cma) && |points| == |raw| && Completes(eval, st.cache, points)
    ensures Assemble(study, eval, st, asked, raw, Some(points)) ==
      Finished(study, st, asked, raw, Rows(points, Results(eval, st.cache, points), raw, Generation(st.cma) + 1, st.next, |raw|),
               CacheAfter(eval, st.cache, points), [PopulationObserved(Generation(st.cma) + 1, raw)])
  {
  }

  lemma FinishedAs(study: Study, st: LoopState, asked: Cma, raw: seq<Vector>, rows: seq<Occurrence>, cache: Cache,
                   observed: seq<Event>)
    requires |raw| == |rows| && WellFormed(study.tell(asked, Told(raw, rows)))
    ensures var cma := study.tell(asked, Told(raw, rows));
      Finished(study, st, asked, raw, rows, cache, observed) ==
         Round(observed + RowEvents(rows) +
                 [GenerationReady(Generation(cma), st.next + |rows|, BestOf(rows, st.best).ordinal, SnapshotOf(cma))],
               Some(LoopState(cma, st.anchors, cache, st.baseline, BestOf(rows, st.best), st.next + |rows|)))
  {
  }

  /** A completed baseline has a finite cost. */
  lemma BaselineFinite(w: World, p: Point)
    requires Valid(w) && Compatible(w.baseline, p) && Evaluated(w, Baseline, p).Ok?
    ensures Evaluated(w, Baseline, p).value.cost.Finite?
  {
    RecordDenotes(w, Baseline, p);
    if w.compile(p).Ok? {
      BaselineViews(w, w.compile(p).value, AllSelectors(w, |w.objectives|), NewState(p));
    }
    BaselineFaultless(w, Prepare(w, Baseline, p).value, |w.objectives|);
  }

  lemma {:induction false} BaselineFaultless(w: World, state: State, n: nat)
    requires Valid(w) && Compatible(w.baseline, state.point) && n <= |w.objectives|
    requires state.fault.None? && FoldObjectives(w, Baseline, state, n).Ok?
    ensures FoldObjectives(w, Baseline, state, n).value.fault.None?
  {
    if n > 0 {
      BaselineFaultless(w, state, n - 1);
      BaselineObjective(w, n - 1, FoldObjectives(w, Baseline, state, n - 1).value);
    }
  }

  /** Evaluates the baseline of a fresh run, which sets the anchors. */
  method Start(evaluator: Evaluator, study: Study, initial: Cma) returns (st: Option<LoopState>)
    requires Lawful(study) && evaluator.w == study.w && WellFormed(initial)
    requires evaluator.cache == map[] && Compatible(study.w.baseline, study.w.baseline)
    modifies evaluator
    ensures st.Some? ==> Started(st.value) && st.value.cma == initial
    ensures st.Some? ==> evaluator.cache == st.value.cache && evaluator.anchors == st.value.anchors
    ensures st.Some? <==> Evaluated(study.w, Baseline, study.w.baseline).Ok?
    ensures st.Some? ==> st.value.baseline.record == Evaluated(study.w, Baseline, study.w.baseline).value
    ensures st.Some? ==> forall o :: 0 <= o < |study.w.objectives| ==>
      Covers(study.w, st.value.anchors, o, |Selectors(study.w, o)|)
  {
    var base := study.w.baseline;
    assert base in [base] && [base][0] == base;
    var results := evaluator.EvaluateMany([base], true);
    BaselineBatch(study.w, results, evaluator.cache);
    if results.Raised? {
      return None;
    }
    var baseline := Occurrence(results.value[0].record, base, results.value[0].hit, 0, 0, 0, []);
    st := Some(LoopState(initial, evaluator.anchors, evaluator.cache, baseline, baseline, 1));
  }

  /** The baseline batch on an empty cache. */
  lemma BaselineBatch(w: World, results: Checked<seq<Result>, Failure>, cache: Cache)
    requires Valid(w) && Compatible(w.baseline, w.baseline)
    requires results.Ok? <==> Completes(EvalIn(w, Baseline), map[], [w.baseline])
    requires results.Ok? ==>
      results.value == Results(EvalIn(w, Baseline), map[], [w.baseline]) &&
      cache == CacheAfter(EvalIn(w, Baseline), map[], [w.baseline])
    ensures results.Ok? <==> Evaluated(w, Baseline, w.baseline).Ok?
    ensures results.Ok? ==>
      && |results.value| == 1 && results.value[0].record == Evaluated(w, Baseline, w.baseline).value
      && results.value[0].record.cost.Finite?
      && cache == map[w.baseline := results.value[0].record]
  {
    var eval := EvalIn(w, Baseline);
    assert eval(w.baseline) == Evaluated(w, Baseline, w.baseline);
    assert w.baseline in [w.baseline];
    if results.Ok? {
      BaselineFinite(w, w.baseline);
      ResultIsCached(eval, map[], [w.baseline], 0);
      assert cache == map[w.baseline := eval(w.baseline).value];
    }
  }

  /** The run that starts in `st`: its baseline event, then every generation. */
  ghost predicate FreshRun(study: Study, initial: Cma, st: LoopState, run: Round)
    requires Steady(TurnOf(study))
  {
    && Started(st) && st.cma == initial
    && run.events == FirstEvents(st) + RunFrom(TurnOf(study), study.generations, st).events
    && run.state == RunFrom(TurnOf(study), study.generations, st).state
  }

  /** Events emitted so far and the state reached, on the way of a whole run. */
  ghost predicate Underway(turn: Turn, generations: int, start: LoopState, first: seq<Event>, st: LoopState, events: seq<Event>)
    requires Steady(turn) && WellFormed(start.cma)
  {
    && WellFormed(st.cma)
    && events + RunFrom(turn, generations, st).events == first + RunFrom(turn, generations, start).events
    && RunFrom(turn, generations, st).state == RunFrom(turn, generations, start).state
  }

  lemma UnderwayStep(turn: Turn, generations: int, start: LoopState, first: seq<Event>, st: LoopState, events: seq<Event>)
    requires Steady(turn) && WellFormed(start.cma) && Underway(turn, generations, start, first, st, events)
    requires Generation(st.cma) < generations
    ensures var round := turn(st);
      if round.state.None? then
        events + round.events == first + RunFrom(turn, generations, start).events &&
        RunFrom(turn, generations, start).state == None
      else Underway(turn, generations, start, first, round.state.value, events + round.events)
  {
    var round := turn(st);
    if round.state.Some? {
      var rest := RunFrom(turn, generations, round.state.value).events;
      assert events + (round.events + rest) == events + round.events + rest;
    }
  }

  /** The rows of a run after its first events, which hold none. */
  lemma RunBelongs(study: Study, st: LoopState, first: seq<Event>)
    requires Lawful(study) && WellFormed(st.cma) && Steady(TurnOf(study))
    requires forall i :: 0 <= i < |first| ==> !first[i].RowEvaluated?
    ensures var run := RunFrom(TurnOf(study), study.generations, st);
      && Unfolds(study, st, Remaining(study.generations, st), run.events, run.state)
      && RowsBelong(study, first + run.events)
  {
    hide Unfolds, WellFormed, RunFrom, RowAt;
    var run := RunFrom(TurnOf(study), study.generations, st);
    RunUnfolds(study, st);
    UnfoldedRowsBelong(study, st, Remaining(study.generations, st), run.events, run.state);
    BelongTogether(study, first, run.events);
  }

  /** Runs or resumes an optimization.  A fresh run emits its baseline first; a
      resumed one emits what is left of the run its checkpoint was taken of. */
  method Optimize(evaluator: Evaluator, study: Study, initial: Cma, checkpoint: Option<Checkpoint>)
    returns (events: seq<Event>, final: Option<LoopState>)
    requires Lawful(study) && evaluator.w == study.w && WellFormed(initial)
    requires evaluator.cache == map[] && Compatible(study.w.baseline, study.w.baseline)
    requires checkpoint.Some? && Resume(checkpoint.value).Some? ==> WellFormed(Resume(checkpoint.value).value.cma)
    modifies evaluator
    ensures Steady(TurnOf(study))
    ensures checkpoint.Some? ==>
      match Resume(checkpoint.value)
      case None => events == [] && final == None
      case Some(st) => Round(events, final) == RunFrom(TurnOf(study), study.generations, st)
                       && Unfolds(study, st, Remaining(study.generations, st), events, final)
    ensures RowsBelong(study, events)
    ensures checkpoint.None? ==>
      if Evaluated(study.w, Baseline, study.w.baseline).Raised? then events == [] && final == None
      else exists st: LoopState :: FreshRun(study, initial, st, Round(events, final))
                                   && Unfolds(study, st, Remaining(study.generations, st), events[1..], final)
  {
    hide Unfolds, RowAt, RunFrom, WellFormed, Generation, Evaluated;
    StudyEmits(study);
    if checkpoint.Some? {
      var restored := Resume(checkpoint.value);
      if restored.None? {
        return [], None;
      }
      evaluator.anchors, evaluator.cache := restored.value.anchors, restored.value.cache;
      events, final := RunLoop(evaluator, study, restored.value, []);
      RunBelongs(study, restored.value, []);
      assert [] + RunFrom(TurnOf(study), study.generations, restored.value).events == events;
    } else {
      var started := Start(evaluator, study, initial);
      if started.None? {
        return [], None;
      }
      events, final := RunLoop(evaluator, study, started.value, FirstEvents(started.value));
      RunBelongs(study, started.value, FirstEvents(started.value));
      assert events[1..] == RunFrom(TurnOf(study), study.generations, started.value).events;
      assert FreshRun(study, initial, started.value, Round(events, final));
    }
  }

  /** Runs the remaining generations from a state. */
  method RunLoop(evaluator: Evaluator, study: Study, start: LoopState, first: seq<Event>)
    returns (events: seq<Event>, final: Option<LoopState>)
    requires Lawful(study) && evaluator.w == study.w && WellFormed(start.cma) && Steady(TurnOf(study))
    requires evaluator.cache == start.cache && evaluator.anchors == start.anchors
    modifies evaluator
    ensures events == first + RunFrom(TurnOf(study), study.generations, start).events
    ensures final == RunFrom(TurnOf(study), study.generations, start).state
  {
    events := first;
    var st := start;
    while Generation(st.cma) < study.generations
      invariant evaluator.cache == st.cache && evaluator.anchors == st.anchors
      invariant Underway(TurnOf(study), study.generations, start, first, st, events)
      decreases study.generations - Generation(st.cma)
    {
      UnderwayStep(TurnOf(study), study.generations, start, first, st, events);
      var round := RunGeneration(evaluator, study, st);
      events := events + round.events;
      if round.state.None? {
        return events, None;
      }
      st := round.state.value;
    }
    assert events + [] == events;
    final := Some(st);
  }
}
