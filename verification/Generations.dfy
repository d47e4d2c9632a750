/** Every generation of a run, spelled out. */
module Generations {
  // What is asked, mapped, evaluated, told and emitted, over the optimizer's own two moves and the coordinate map.

  import opened Common
  import opened Continuation
  import opened Measurement
  import opened Batch
  import opened Optimizer

  // ---- One generation -------------------------------------------------------------------------------------

  /** One question after another, each to the optimizer the one before left. */
  ghost predicate Asked(study: Study, cma: Cma, hands: seq<Cma>, raw: seq<Vector>) {
    && |hands| == |raw| + 1 && hands[0] == cma
    && forall k :: 0 <= k < |raw| ==> study.ask(hands[k]) == (hands[k + 1], raw[k])
  }

  /** A vector no row can be made of: it maps nowhere, or its point is unknown and its evaluation raises. */
  ghost predicate Blocks(study: Study, st: LoopState, x: Vector)
    requires Valid(study.w)
  {
    match study.mapped(x)
    case Raised(_) => true
    case Ok(p) => p !in st.cache && (Compatible(study.w.baseline, p) ==> Evaluated(study.w, Candidate(st.anchors), p).Raised?)
  }

  /** Row `k` is its own vector, mapped and evaluated, or known before. */
  ghost predicate RowSays(study: Study, st: LoopState, raw: seq<Vector>, rows: seq<Occurrence>, k: nat)
    requires Valid(study.w) && WellFormed(st.cma) && k < |raw| == |rows|
  {
    var row := rows[k];
    && row.latent == raw[k] && row.column == k && row.ordinal == st.next + k && row.generation == Generation(st.cma) + 1
    && study.mapped(row.latent) == Ok(row.key) && Compatible(study.w.baseline, row.key)
    && (row.key in st.cache ==> row.record == st.cache[row.key])
    && (row.key !in st.cache ==> Evaluated(study.w, Candidate(st.anchors), row.key) == Ok(row.record))
    && (row.hit <==> row.key in st.cache || exists j :: 0 <= j < k && rows[j].key == row.key)
  }

  predicate Cheaper(a: Cost, b: Cost) {
    a.Finite? && (b.Finite? ==> a.cost < b.cost)
  }

  /** The best so far and the rows leave the earliest of the cheapest. */
  predicate Leads(rows: seq<Occurrence>, known: Occurrence, best: Occurrence) {
    && (best == known || exists k :: 0 <= k < |rows| && rows[k] == best && FirstAt(rows, k) && Cheaper(best.record.cost, known.record.cost))
    && forall k :: 0 <= k < |rows| ==> !Cheaper(rows[k].record.cost, best.record.cost)
  }

  predicate FirstAt(rows: seq<Occurrence>, k: nat)
    requires k < |rows|
  {
    forall j :: 0 <= j < k ==> Cheaper(rows[k].record.cost, rows[j].record.cost)
  }

  /** The optimizer is told each row's own vector with its own cost, in order. */
  ghost predicate TellsOwn(study: Study, hand: Cma, raw: seq<Vector>, rows: seq<Occurrence>, told: seq<(Vector, Cost)>, cma: Cma) {
    && |told| == |raw| == |rows| && cma == study.tell(hand, told)
    && forall k :: 0 <= k < |told| ==> told[k] == (raw[k], rows[k].record.cost)
  }

  /** The cache gains exactly the rows' records. */
  ghost predicate Gains(before: Cache, rows: seq<Occurrence>, after: Cache) {
    && (forall p :: p in before ==> p in after && after[p] == before[p])
    && (forall k :: 0 <= k < |rows| ==> rows[k].key in after && after[rows[k].key] == rows[k].record)
    && (forall p :: p in after ==> p in before || exists k :: 0 <= k < |rows| && rows[k].key == p)
  }

  /** The events of a generation: what was observed, a row for every vector, and the acknowledgement. */
  ghost predicate EventsSay(events: seq<Event>, generation: int, raw: seq<Vector>, rows: seq<Occurrence>, after: LoopState) {
    && |events| == |raw| + 2 && |rows| == |raw|
    && events[0] == PopulationObserved(generation, raw)
    && (forall k :: 0 <= k < |rows| ==> events[k + 1] == RowEvaluated(rows[k]))
    && exists resume :: events[|raw| + 1] == GenerationReady(generation, after.next, after.best.ordinal, resume)
                        && RestoreFrom(resume) == Some(after.cma)
  }

  /** A generation that returned. */
  ghost predicate Returns(study: Study, st: LoopState, hand: Cma, raw: seq<Vector>, rows: seq<Occurrence>,
                          told: seq<(Vector, Cost)>, events: seq<Event>, after: LoopState)
    requires Valid(study.w) && WellFormed(st.cma)
  {
    && |rows| == |raw| && (forall k :: 0 <= k < |rows| ==> RowSays(study, st, raw, rows, k))
    && TellsOwn(study, hand, raw, rows, told, after.cma)
    && Leads(rows, st.best, after.best) && Gains(st.cache, rows, after.cache)
    && after.anchors == st.anchors && after.baseline == st.baseline && after.next == st.next + |rows|
    && WellFormed(after.cma) && Generation(after.cma) == Generation(st.cma) + 1
    && EventsSay(events, Generation(st.cma) + 1, raw, rows, after)
  }

  /** One generation from a state: as many questions as the population, and then a row for every answer, or,
      if some answer makes no row, nothing after the observation. */
  ghost predicate TurnSays(study: Study, st: LoopState, round: Round)
    requires Valid(study.w) && WellFormed(st.cma)
  {
    exists hands, raw :: Asked(study, st.cma, hands, raw) && |raw| == study.population && Answers(study, st, hands[|raw|], raw, round)
  }

  ghost predicate Answers(study: Study, st: LoopState, hand: Cma, raw: seq<Vector>, round: Round)
    requires Valid(study.w) && WellFormed(st.cma)
  {
    match round.state
    case None => round.events == [PopulationObserved(Generation(st.cma) + 1, raw)] && exists x :: x in raw && Blocks(study, st, x)
    case Some(after) => exists rows, told :: Returns(study, st, hand, raw, rows, told, round.events, after)
  }

  // ---- The loop does that ---------------------------------------------------------------------------------

  lemma {:induction false} AskedSo(study: Study, cma: Cma, n: nat) returns (hands: seq<Cma>)
    ensures var (asked, raw) := AskAll(study, cma, n);
      |raw| == n && Asked(study, cma, hands, raw) && hands[n] == asked
  {
    if n == 0 { return [cma]; }
    var before := AskedSo(study, cma, n - 1);
    hands := before + [AskAll(study, cma, n).0];
  }

  ghost predicate MapsTo(study: Study, raw: seq<Vector>, points: seq<Point>) {
    |points| == |raw| && forall k :: 0 <= k < |raw| ==> study.mapped(raw[k]) == Ok(points[k])
  }

  lemma {:induction false} MappedSo(study: Study, raw: seq<Vector>)
    ensures MapAll(study, raw).None? <==> exists x :: x in raw && study.mapped(x).Raised?
    ensures MapAll(study, raw).Some? ==> MapsTo(study, raw, MapAll(study, raw).value)
  {
    if raw != [] {
      var last := |raw| - 1;
      MappedSo(study, raw[..last]);
      assert raw == raw[..last] + [raw[last]];
      if MapAll(study, raw[..last]).None? {
        var x :| x in raw[..last] && study.mapped(x).Raised?;
        assert x in raw;
      } else {
        var before := MapAll(study, raw[..last]).value;
        forall k | 0 <= k < last ensures study.mapped(raw[k]) == Ok(before[k]) {
          assert raw[..last][k] == raw[k];
        }
      }
    }
  }

  lemma {:induction false} BestLeads(rows: seq<Occurrence>, known: Occurrence)
    ensures Leads(rows, known, BestOf(rows, known))
  {
    if rows != [] {
      var last := |rows| - 1;
      var front := rows[..last];
      BestLeads(front, known);
      var was := BestOf(front, known);
      if Improves(rows[last].record.cost, was.record.cost) {
        forall j | 0 <= j < last ensures Cheaper(rows[last].record.cost, rows[j].record.cost) {
          assert front[j] == rows[j];
        }
        assert FirstAt(rows, last);
      } else {
        forall k | 0 <= k < |rows| ensures !Cheaper(rows[k].record.cost, was.record.cost) {
          if k < last { assert front[k] == rows[k]; }
        }
        if was != known {
          var k :| 0 <= k < last && front[k] == was && FirstAt(front, k) && Cheaper(was.record.cost, known.record.cost);
          assert rows[k] == was && FirstAt(rows, k);
        }
      }
    }
  }

  lemma RowSaysSo(study: Study, st: LoopState, raw: seq<Vector>, points: seq<Point>, rows: seq<Occurrence>, k: nat)
    requires Lawful(study) && WellFormed(st.cma) && k < |raw| == |points| == |rows|
    requires forall i :: 0 <= i < |raw| ==> study.mapped(raw[i]) == Ok(points[i])
    requires Completes(EvalIn(study.w, Candidate(st.anchors)), st.cache, points)
    requires rows == Rows(points, Results(EvalIn(study.w, Candidate(st.anchors)), st.cache, points), raw,
                          Generation(st.cma) + 1, st.next, |raw|)
    ensures RowSays(study, st, raw, rows, k)
  {
    hide Evaluated;
    var p := points[k];
    assert study.mapped(raw[k]).Ok? && Compatible(study.w.baseline, p);
    assert rows[k].key == p && p in points;
    assert rows[k].hit <==> p in st.cache || exists j :: 0 <= j < k && points[j] == p;
    assert forall j :: 0 <= j < k ==> rows[j].key == points[j];
    assert EvalIn(study.w, Candidate(st.anchors))(p) == Evaluated(study.w, Candidate(st.anchors), p);
  }

  lemma GainsSo(before: Cache, rows: seq<Occurrence>, eval: Eval, points: seq<Point>)
    requires Completes(eval, before, points) && |rows| == |points|
    requires forall k :: 0 <= k < |rows| ==> rows[k].key == points[k] && rows[k].record == Results(eval, before, points)[k].record
    ensures Gains(before, rows, CacheAfter(eval, before, points))
  {
    var after := CacheAfter(eval, before, points);
    forall k | 0 <= k < |rows| ensures rows[k].key in after && after[rows[k].key] == rows[k].record {
      ResultIsCached(eval, before, points, k);
    }
    forall p | p in after && p !in before ensures exists k :: 0 <= k < |rows| && rows[k].key == p {
      assert p in points;
      var k :| 0 <= k < |points| && points[k] == p;
      assert rows[k].key == p;
    }
  }

  lemma EventsSaySo(raw: seq<Vector>, rows: seq<Occurrence>, generation: int, after: LoopState)
    requires |raw| == |rows| && WellFormed(after.cma)
    ensures EventsSay([PopulationObserved(generation, raw)] + RowEvents(rows) +
                      [GenerationReady(generation, after.next, after.best.ordinal, SnapshotOf(after.cma))],
                      generation, raw, rows, after)
  {
    SnapshotRestores(after.cma);
    hide WellFormed, SnapshotOf, RestoreFrom;
    var events := [PopulationObserved(generation, raw)] + RowEvents(rows) +
      [GenerationReady(generation, after.next, after.best.ordinal, SnapshotOf(after.cma))];
    assert events[|raw| + 1] == GenerationReady(generation, after.next, after.best.ordinal, SnapshotOf(after.cma));
  }

  lemma ToldSo(study: Study, asked: Cma, raw: seq<Vector>, rows: seq<Occurrence>)
    requires |raw| == |rows|
    ensures TellsOwn(study, asked, raw, rows, Told(raw, rows), study.tell(asked, Told(raw, rows)))
  {
  }

  /** The state a generation leaves once its rows are known. */
  function Left(study: Study, st: LoopState, asked: Cma, raw: seq<Vector>, rows: seq<Occurrence>, cache: Cache): LoopState
    requires |raw| == |rows|
  {
    LoopState(study.tell(asked, Told(raw, rows)), st.anchors, cache, st.baseline, BestOf(rows, st.best), st.next + |rows|)
  }

  lemma LeftWell(study: Study, st: LoopState, asked: Cma, raw: seq<Vector>, rows: seq<Occurrence>, cache: Cache)
    requires Lawful(study) && WellFormed(st.cma) && WellFormed(asked) && Generation(asked) == Generation(st.cma) && |raw| == |rows|
    ensures var after := Left(study, st, asked, raw, rows, cache);
      WellFormed(after.cma) && Generation(after.cma) == Generation(st.cma) + 1
  {
    hide WellFormed, Generation, Told, BestOf;
  }

  lemma FinishedIs(study: Study, st: LoopState, asked: Cma, raw: seq<Vector>, rows: seq<Occurrence>, cache: Cache, observed: seq<Event>)
    requires |raw| == |rows| && WellFormed(Left(study, st, asked, raw, rows, cache).cma)
    ensures var after := Left(study, st, asked, raw, rows, cache);
      Finished(study, st, asked, raw, rows, cache, observed) ==
        Round(observed + RowEvents(rows) +
                [GenerationReady(Generation(after.cma), after.next, after.best.ordinal, SnapshotOf(after.cma))], Some(after))
  {
    hide WellFormed, Generation, Told, BestOf, SnapshotOf, RowEvents;
  }

  /** What is left of a generation once its rows are known. */
  lemma FinishedSays(study: Study, st: LoopState, asked: Cma, raw: seq<Vector>, rows: seq<Occurrence>, cache: Cache)
    requires Lawful(study) && WellFormed(st.cma) && WellFormed(asked) && Generation(asked) == Generation(st.cma) && |raw| == |rows|
    ensures var round := Finished(study, st, asked, raw, rows, cache, [PopulationObserved(Generation(st.cma) + 1, raw)]);
      round.state.Some? && Leaves(study, st, asked, raw, rows, cache, round.events, round.state.value)
  {
    hide Generation, WellFormed, SnapshotOf, RestoreFrom, BestOf, Leads, Told, EventsSay, RowEvents, TellsOwn, Finished, Lawful;
    BestLeads(rows, st.best);
    ToldSo(study, asked, raw, rows);
    LeftWell(study, st, asked, raw, rows, cache);
    FinishedIs(study, st, asked, raw, rows, cache, [PopulationObserved(Generation(st.cma) + 1, raw)]);
    EventsSaySo(raw, rows, Generation(st.cma) + 1, Left(study, st, asked, raw, rows, cache));
  }

  /** How a generation is left, given its rows. */
  ghost predicate Leaves(study: Study, st: LoopState, hand: Cma, raw: seq<Vector>, rows: seq<Occurrence>, cache: Cache,
                         events: seq<Event>, after: LoopState)
    requires WellFormed(st.cma) && |raw| == |rows|
  {
    && TellsOwn(study, hand, raw, rows, Told(raw, rows), after.cma)
    && Leads(rows, st.best, after.best) && after.cache == cache
    && after.anchors == st.anchors && after.baseline == st.baseline && after.next == st.next + |rows|
    && WellFormed(after.cma) && Generation(after.cma) == Generation(st.cma) + 1
    && EventsSay(events, Generation(st.cma) + 1, raw, rows, after)
  }

  /** A vector that maps nowhere, or to a point whose evaluation raises, stops the generation. */
  lemma BlockedSays(study: Study, st: LoopState, raw: seq<Vector>, points: Option<seq<Point>>)
    requires Lawful(study) && points == MapAll(study, raw)
    requires points.None? || !Completes(EvalIn(study.w, Candidate(st.anchors)), st.cache, points.value)
    ensures exists x :: x in raw && Blocks(study, st, x)
  {
    hide Evaluated;
    MappedSo(study, raw);
    if points.None? {
      var x :| x in raw && study.mapped(x).Raised?;
      assert Blocks(study, st, x);
    } else {
      var p :| p in points.value && p !in st.cache && EvalIn(study.w, Candidate(st.anchors))(p).Raised?;
      var k :| 0 <= k < |points.value| && points.value[k] == p;
      assert raw[k] in raw && Blocks(study, st, raw[k]);
    }
  }

  lemma RowsSay(study: Study, st: LoopState, asked: Cma, raw: seq<Vector>, points: seq<Point>)
    requires Lawful(study) && WellFormed(st.cma) && WellFormed(asked) && Generation(asked) == Generation(st.cma)
    requires MapsTo(study, raw, points) && Completes(EvalIn(study.w, Candidate(st.anchors)), st.cache, points)
    ensures var eval := EvalIn(study.w, Candidate(st.anchors));
      var rows := Rows(points, Results(eval, st.cache, points), raw, Generation(st.cma) + 1, st.next, |raw|);
      var round := Finished(study, st, asked, raw, rows, CacheAfter(eval, st.cache, points),
                            [PopulationObserved(Generation(st.cma) + 1, raw)]);
      round.state.Some? && Returns(study, st, asked, raw, rows, Told(raw, rows), round.events, round.state.value)
  {
    assert Valid(study.w);
    hide Evaluated, Generation, WellFormed, Finished, RowSays, TellsOwn, Leads, Gains, EventsSay, Lawful;
    var eval := EvalIn(study.w, Candidate(st.anchors));
    var rows := Rows(points, Results(eval, st.cache, points), raw, Generation(st.cma) + 1, st.next, |raw|);
    forall k | 0 <= k < |rows| ensures RowSays(study, st, raw, rows, k) {
      RowSaysSo(study, st, raw, points, rows, k);
    }
    GainsSo(st.cache, rows, eval, points);
    FinishedSays(study, st, asked, raw, rows, CacheAfter(eval, st.cache, points));
  }

  lemma AssembledSays(study: Study, st: LoopState, asked: Cma, raw: seq<Vector>)
    requires Lawful(study) && WellFormed(st.cma) && WellFormed(asked) && Generation(asked) == Generation(st.cma)
    ensures Answers(study, st, asked, raw, Assemble(study, EvalIn(study.w, Candidate(st.anchors)), st, asked, raw, MapAll(study, raw)))
  {
    hide RunObjective, MapAll;
    assert Valid(study.w);
    hide Evaluated, Generation, WellFormed, Finished, Returns, Lawful, Completes, EvalIn, Blocks, Rows;
    var eval := EvalIn(study.w, Candidate(st.anchors));
    MappedSo(study, raw);
    if MapAll(study, raw).Some? && Completes(eval, st.cache, MapAll(study, raw).value) {
      RowsSay(study, st, asked, raw, MapAll(study, raw).value);
    } else {
      BlockedSays(study, st, raw, MapAll(study, raw));
    }
  }

  /** Every generation is the one spelled out: it asks as often as the population says, makes each vector's own
      row, tells each vector with its own cost, and fails exactly when some vector makes no row. */
  lemma GenerationSays(study: Study, st: LoopState)
    requires Lawful(study) && WellFormed(st.cma)
    ensures TurnSays(study, st, TurnOf(study)(st))
  {
    hide Answers, Assemble;
    AskedWell(study, st.cma, study.population);
    var hands := AskedSo(study, st.cma, study.population);
    var (asked, raw) := AskAll(study, st.cma, study.population);
    AssembledSays(study, st, asked, raw);
    assert Asked(study, st.cma, hands, raw) && Answers(study, st, hands[|raw|], raw, TurnOf(study)(st));
  }

  // ---- Whole runs -----------------------------------------------------------------------------------------

  /** Events that are those of `n` generations one after another, up to one that failed. */
  ghost predicate Unfolds(study: Study, st: LoopState, n: nat, events: seq<Event>, final: Option<LoopState>)
    requires Valid(study.w) && WellFormed(st.cma)
    decreases n
  {
    if n == 0 then events == [] && final == Some(st)
    else exists round, rest :: TurnSays(study, st, round) && events == round.events + rest && Onward(study, round, n, rest, final)
  }

  ghost predicate Onward(study: Study, round: Round, n: nat, rest: seq<Event>, final: Option<LoopState>)
    requires Valid(study.w) && n > 0
    decreases n, 0
  {
    match round.state
    case None => rest == [] && final == None
    case Some(after) => WellFormed(after.cma) && Unfolds(study, after, n - 1, rest, final)
  }

  function Remaining(generations: int, st: LoopState): nat
    requires WellFormed(st.cma)
  {
    if Generation(st.cma) >= generations then 0 else generations - Generation(st.cma)
  }

  /** A run does every generation that is left, one after another, unless one fails. */
  lemma {:induction false} RunUnfolds(study: Study, st: LoopState)
    requires Lawful(study) && WellFormed(st.cma) && Steady(TurnOf(study))
    ensures var run := RunFrom(TurnOf(study), study.generations, st);
      Unfolds(study, st, Remaining(study.generations, st), run.events, run.state)
    decreases study.generations - Generation(st.cma)
  {
    hide WellFormed, Generation, TurnSays, TurnOf;
    var turn := TurnOf(study);
    if Generation(st.cma) < study.generations {
      GenerationSays(study, st);
      var round := turn(st);
      if round.state.None? {
        assert round.events == round.events + [] && Onward(study, round, Remaining(study.generations, st), [], None);
      } else {
        var after := round.state.value;
        RunUnfolds(study, after);
        var rest := RunFrom(turn, study.generations, after);
        assert Onward(study, round, Remaining(study.generations, st), rest.events, rest.state);
      }
    }
  }

  /** The row emitted at `i` is a row of the population observed `column + 1` events before it. */
  ghost predicate RowAt(study: Study, events: seq<Event>, i: nat)
    requires i < |events| && events[i].RowEvaluated?
  {
    var row := events[i].row;
    && study.mapped(row.latent) == Ok(row.key)
    && row.column < i && events[i - 1 - row.column].PopulationObserved?
    && var population := events[i - 1 - row.column];
       population.generation == row.generation && row.column < |population.latent| && population.latent[row.column] == row.latent
  }

  ghost predicate RowsBelong(study: Study, events: seq<Event>) {
    forall i :: 0 <= i < |events| && events[i].RowEvaluated? ==> RowAt(study, events, i)
  }

  lemma TurnRowsBelong(study: Study, st: LoopState, round: Round)
    requires Valid(study.w) && WellFormed(st.cma) && TurnSays(study, st, round)
    ensures RowsBelong(study, round.events)
  {
    hide Generation, WellFormed, TellsOwn, Leads, Gains, Blocks, RestoreFrom, FoldObjectives, Prepare;
    var hands, raw :| Asked(study, st.cma, hands, raw) && |raw| == study.population && Answers(study, st, hands[|raw|], raw, round);
    if round.state.Some? {
      var rows, told :| Returns(study, st, hands[|raw|], raw, rows, told, round.events, round.state.value);
      forall i | 0 <= i < |round.events| && round.events[i].RowEvaluated? ensures RowAt(study, round.events, i) {
        assert 0 < i <= |raw|;
        assert RowSays(study, st, raw, rows, i - 1);
        assert round.events[i] == RowEvaluated(rows[i - 1]);
      }
    }
  }

  lemma BelongTogether(study: Study, a: seq<Event>, b: seq<Event>)
    requires RowsBelong(study, a) && RowsBelong(study, b)
    ensures RowsBelong(study, a + b)
  {
    forall i | 0 <= i < |a + b| && (a + b)[i].RowEvaluated? ensures RowAt(study, a + b, i) {
      if i < |a| {
        assert (a + b)[i] == a[i] && RowAt(study, a, i);
      } else {
        assert (a + b)[i] == b[i - |a|] && RowAt(study, b, i - |a|);
      }
    }
  }

  /** Over every run, each emitted row carries the vector of its own column in the population observed for its
      generation, with the point that very vector maps to. */
  lemma {:induction false} UnfoldedRowsBelong(study: Study, st: LoopState, n: nat, events: seq<Event>, final: Option<LoopState>)
    requires Valid(study.w) && WellFormed(st.cma) && Unfolds(study, st, n, events, final)
    ensures RowsBelong(study, events)
    decreases n
  {
    hide TurnSays, WellFormed, RowAt;
    if n > 0 {
      var round, rest :| TurnSays(study, st, round) && events == round.events + rest && Onward(study, round, n, rest, final);
      TurnRowsBelong(study, st, round);
      if round.state.Some? { UnfoldedRowsBelong(study, round.state.value, n - 1, rest, final); }
      BelongTogether(study, round.events, rest);
    }
  }
}
