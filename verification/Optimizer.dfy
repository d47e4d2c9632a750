/** The resumable generation loop: its state, its snapshot and its reconstruction from events. */
module Optimizer {
  // The CMA state is explicit; a checkpoint is rebuilt from the events of a run alone.

  import opened Common
  import opened Continuation
  import opened Measurement
  import opened Batch

  type Vector = seq<real>

  // ---- Explicit optimizer state ------------------------------------------------------

  /** A value written as it is. */
  datatype Scalar = Integer(number: int) | Null

  datatype Field = Array(shape: seq<nat>, values: seq<real>) | Float(value: real) | Plain(plain: Scalar)

  /** A written value: a bare scalar, or an object whose keys tell what it holds. */
  datatype Encoded = Bare(plain: Scalar) | Entries(entries: map<string, Payload>)

  datatype Payload = Cells(shape: seq<nat>, values: seq<real>) | Bits(value: real)

  datatype Rng = Rng(algorithm: string, keys: seq<int>, position: nat, hasGaussian: bool, cached: real)

  /** The optimizer fields a checkpoint carries. */
  datatype FieldName =
    | NDim | PopSize | Mu | MuEff | Cc | C1 | Cmu | CSigma | DSigma | Cm | ChiN | Weights | PSigma | Pc | Mean | C
    | Sigma | D | B | Bounds | NMaxResampling | G | LrAdapt | Alpha | BetaMean | BetaSigma | Gamma | EMean | ESigma
    | VMean | VSigma | EtaMean | EtaSigma | TolX | TolXUp | TolFun | TolConditionCov | FunHistTerm | FunHistValues

  datatype Cma = Cma(fields: map<FieldName, Field>, rng: Rng)

  datatype Snapshot = Snapshot(fields: map<FieldName, Encoded>, rng: Rng)

  predicate HasAllFields(names: set<FieldName>) {
    forall name: FieldName :: name in names
  }

  /** The optimizer object has every declared field and the supported generator. */
  predicate WellFormed(cma: Cma) {
    HasAllFields(cma.fields.Keys) && cma.rng.algorithm == "MT19937" && cma.fields[G].Plain? && cma.fields[G].plain.Integer?
  }

  function Encode(field: Field): Encoded {
    match field
    case Array(shape, values) => Entries(map["array" := Cells(shape, values)])
    case Float(value) => Entries(map["float_f64" := Bits(value)])
    case Plain(plain) => Bare(plain)
  }

  /** An object is read by its `array` entry if it has one, else by its `float_f64` entry. */
  function Decode(record: Encoded): Option<Field> {
    match record
    case Bare(plain) => Some(Plain(plain))
    case Entries(entries) =>
      if "array" in entries then
        if entries["array"].Cells? then Some(Array(entries["array"].shape, entries["array"].values)) else None
      else if "float_f64" in entries && entries["float_f64"].Bits? then Some(Float(entries["float_f64"].value))
      else None
  }

  function EncodeAll(fields: map<FieldName, Field>): map<FieldName, Encoded> {
    map name | name in fields :: Encode(fields[name])
  }

  predicate Readable(records: map<FieldName, Encoded>) {
    forall name :: name in records ==> Decode(records[name]).Some?
  }

  function DecodeAll(records: map<FieldName, Encoded>): map<FieldName, Field>
    requires Readable(records)
  {
    map name | name in records :: Decode(records[name]).value
  }

  function SnapshotOf(cma: Cma): Snapshot {
    Snapshot(EncodeAll(cma.fields), cma.rng)
  }

  /** A record whose layout differs, or one of whose values cannot be read, is refused. */
  function RestoreFrom(record: Snapshot): Option<Cma> {
    if !HasAllFields(record.fields.Keys) || record.rng.algorithm != "MT19937" || !Readable(record.fields) then None
    else Some(Cma(DecodeAll(record.fields), record.rng))
  }

  lemma DecodesEncoded(fields: map<FieldName, Field>)
    ensures EncodeAll(fields).Keys == fields.Keys
    ensures Readable(EncodeAll(fields)) && DecodeAll(EncodeAll(fields)) == fields
  {
    forall name | name in fields ensures Decode(Encode(fields[name])) == Some(fields[name]) {
    }
  }

  /** Restoring a snapshot gives back the state it was taken of. */
  lemma SnapshotRestores(cma: Cma)
    requires WellFormed(cma)
    ensures RestoreFrom(SnapshotOf(cma)) == Some(cma)
  {
    DecodesEncoded(cma.fields);
  }

  function Generation(cma: Cma): int
    requires WellFormed(cma)
  {
    cma.fields[G].plain.number
  }

  // ---- Events and runs -----------------------------------------------------------------

  /** One evaluated record as it occurred in the run. */
  datatype Occurrence = Occurrence(
    record: Record, key: Point, hit: bool, ordinal: nat, generation: int, column: nat, latent: Vector)

  datatype Event =
    | BaselineReady(baseline: Occurrence, anchors: map<Dependency, Complex>, resume: Snapshot)
    | PopulationObserved(generation: int, latent: seq<Vector>)
    | RowEvaluated(row: Occurrence)
    | GenerationReady(generation: int, nextOrdinal: nat, bestOrdinal: nat, resume: Snapshot)

  /** What the loop carries from one generation to the next. */
  datatype LoopState = LoopState(
    cma: Cma, anchors: map<Dependency, Complex>, cache: Cache, baseline: Occurrence, best: Occurrence, next: nat)

  /** The setting: the optimizer's two moves, the coordinate map, and the world. */
  datatype Study = Study(
    w: World,
    ask: Cma -> (Cma, Vector),
    tell: (Cma, seq<(Vector, Cost)>) -> Cma,
    mapped: Vector -> Checked<Point, Failure>,
    population: nat,
    generations: int)

  /** Both moves keep the object's layout, only telling completes a generation,
      and mapped points fit the baseline. */
  ghost predicate Lawful(study: Study) {
    && Valid(study.w)
    && (forall cma :: WellFormed(cma) ==>
          WellFormed(study.ask(cma).0) && Generation(study.ask(cma).0) == Generation(cma))
    && (forall cma, told :: WellFormed(cma) ==>
          WellFormed(study.tell(cma, told)) && Generation(study.tell(cma, told)) == Generation(cma) + 1)
    && (forall x :: study.mapped(x).Ok? ==> Compatible(study.w.baseline, study.mapped(x).value))
  }

  function AskAll(study: Study, cma: Cma, n: nat): (Cma, seq<Vector>) {
    if n == 0 then (cma, [])
    else
      var (before, raw) := AskAll(study, cma, n - 1);
      var (after, x) := study.ask(before);
      (after, raw + [x])
  }

  function MapAll(study: Study, raw: seq<Vector>): Option<seq<Point>> {
    if raw == [] then Some([])
    else
      var last := |raw| - 1;
      var before := MapAll(study, raw[..last]);
      if before.None? || study.mapped(raw[last]).Raised? then None
      else Some(before.value + [study.mapped(raw[last]).value])
  }

  /** Strictly cheaper than the best so far. */
  predicate Improves(cost: Cost, best: Cost) {
    cost.Finite? && (best.Finite? ==> cost.cost < best.cost)
  }

  function Better(row: Occurrence, best: Occurrence): Occurrence {
    if Improves(row.record.cost, best.record.cost) then row else best
  }

  function Row(points: seq<Point>, results: seq<Result>, raw: seq<Vector>, generation: int, next: nat, column: nat): Occurrence
    requires column < |points| == |results| == |raw|
  {
    Occurrence(results[column].record, points[column], results[column].hit, next + column, generation, column, raw[column])
  }

  function Rows(points: seq<Point>, results: seq<Result>, raw: seq<Vector>, generation: int, next: nat, n: nat): seq<Occurrence>
    requires n <= |points| == |results| == |raw|
  {
    seq(n, k requires 0 <= k < n => Row(points, results, raw, generation, next, k))
  }

  function BestOf(rows: seq<Occurrence>, best: Occurrence): Occurrence {
    if rows == [] then best else Better(rows[|rows| - 1], BestOf(rows[..|rows| - 1], best))
  }

  function RowEvents(rows: seq<Occurrence>): seq<Event> {
    seq(|rows|, k requires 0 <= k < |rows| => RowEvaluated(rows[k]))
  }

  function Told(raw: seq<Vector>, rows: seq<Occurrence>): seq<(Vector, Cost)>
    requires |raw| == |rows|
  {
    seq(|raw|, k requires 0 <= k < |raw| => (raw[k], rows[k].record.cost))
  }

  /** One generation: its events, and the next state unless it raised. */
  datatype Round = Round(events: seq<Event>, state: Option<LoopState>)

  function Generate(study: Study, st: LoopState): Round
    requires Valid(study.w) && WellFormed(st.cma)
  {
    var (asked, raw) := AskAll(study, st.cma, study.population);
    Assemble(study, EvalIn(study.w, Candidate(st.anchors)), st, asked, raw, MapAll(study, raw))
  }

  /** The generation of a population, given how its points evaluate. */
  function Assemble(study: Study, eval: Eval, st: LoopState, asked: Cma, raw: seq<Vector>, points: Option<seq<Point>>): Round
    requires WellFormed(st.cma)
  {
    var generation := Generation(st.cma) + 1;
    var observed := [PopulationObserved(generation, raw)];
    if points.None? || !Completes(eval, st.cache, points.value) || |points.value| != |raw| then Round(observed, None)
    else
      var rows := Rows(points.value, Results(eval, st.cache, points.value), raw, generation, st.next, |raw|);
      Finished(study, st, asked, raw, rows, CacheAfter(eval, st.cache, points.value), observed)
  }

  function Finished(study: Study, st: LoopState, asked: Cma, raw: seq<Vector>, rows: seq<Occurrence>, cache: Cache,
                    observed: seq<Event>): Round
    requires |raw| == |rows|
  {
    var cma := study.tell(asked, Told(raw, rows));
    var best := BestOf(rows, st.best);
    var next := st.next + |rows|;
    if !WellFormed(cma) then Round(observed, None)
    else
      Round(observed + RowEvents(rows) + [GenerationReady(Generation(cma), next, best.ordinal, SnapshotOf(cma))],
            Some(LoopState(cma, st.anchors, cache, st.baseline, best, next)))
  }

  lemma {:induction false} AskedWell(study: Study, cma: Cma, n: nat)
    requires Lawful(study) && WellFormed(cma)
    ensures var (asked, raw) := AskAll(study, cma, n);
      |raw| == n && WellFormed(asked) && Generation(asked) == Generation(cma)
  {
    if n > 0 {
      AskedWell(study, cma, n - 1);
    }
  }

  lemma {:induction false} MappedWell(study: Study, raw: seq<Vector>)
    requires Lawful(study) && MapAll(study, raw).Some?
    ensures |MapAll(study, raw).value| == |raw| && AllCompatible(study.w, MapAll(study, raw).value)
  {
    if raw != [] {
      MappedWell(study, raw[..|raw| - 1]);
    }
  }

  lemma GenerateWell(study: Study, st: LoopState)
    requires Lawful(study) && WellFormed(st.cma) && Generate(study, st).state.Some?
    ensures var after := Generate(study, st).state.value;
      && WellFormed(after.cma) && Generation(after.cma) == Generation(st.cma) + 1
      && after.next == st.next + study.population
      && after.anchors == st.anchors && after.baseline == st.baseline
  {
    AskedWell(study, st.cma, study.population);
  }

  // ---- Whole runs ------------------------------------------------------------------------

  /** One generation as a function of the loop state. */
  type Turn = LoopState -> Round

  function TurnOf(study: Study): Turn {
    (st: LoopState) => if Valid(study.w) && WellFormed(st.cma) then Generate(study, st) else Round([], None)
  }

  /** A turn that returns completes exactly one generation. */
  ghost predicate Steady(turn: Turn) {
    forall st: LoopState :: WellFormed(st.cma) && turn(st).state.Some? ==>
      WellFormed(turn(st).state.value.cma) && Generation(turn(st).state.value.cma) == Generation(st.cma) + 1
  }

  lemma StudyIsSteady(study: Study)
    requires Lawful(study)
    ensures Steady(TurnOf(study))
  {
    var turn := TurnOf(study);
    forall st: LoopState | WellFormed(st.cma) && turn(st).state.Some?
      ensures WellFormed(turn(st).state.value.cma) && Generation(turn(st).state.value.cma) == Generation(st.cma) + 1
    {
      GenerateWell(study, st);
    }
  }

  function Then(first: Round, rest: Round): Round {
    Round(first.events + rest.events, rest.state)
  }

  /** The loop from a state to the last declared generation. */
  ghost function RunFrom(turn: Turn, generations: int, st: LoopState): Round
    requires Steady(turn) && WellFormed(st.cma)
    decreases generations - Generation(st.cma)
  {
    if Generation(st.cma) >= generations then Round([], Some(st))
    else if turn(st).state.None? then turn(st)
    else Then(turn(st), RunFrom(turn, generations, turn(st).state.value))
  }

  /** The first n generations from a state. */
  ghost function Prefix(turn: Turn, st: LoopState, n: nat): (r: Round)
    requires Steady(turn) && WellFormed(st.cma)
    ensures r.state.Some? ==> WellFormed(r.state.value.cma) && Generation(r.state.value.cma) == Generation(st.cma) + n
  {
    if n == 0 then Round([], Some(st))
    else
      var before := Prefix(turn, st, n - 1);
      if before.state.None? then before else Then(before, turn(before.state.value))
  }

  /** A run is its first n generations followed by the run from there. */
  lemma {:induction false} RunSplits(turn: Turn, generations: int, st: LoopState, n: nat)
    requires Steady(turn) && WellFormed(st.cma) && Generation(st.cma) + n <= generations
    ensures var before := Prefix(turn, st, n);
      RunFrom(turn, generations, st) ==
      if before.state.None? then before else Then(before, RunFrom(turn, generations, before.state.value))
  {
    if n == 0 {
      assert [] + RunFrom(turn, generations, st).events == RunFrom(turn, generations, st).events;
    } else {
      RunSplits(turn, generations, st, n - 1);
      var before := Prefix(turn, st, n - 1);
      if before.state.Some? {
        var round := turn(before.state.value);
        if round.state.Some? {
          var rest := RunFrom(turn, generations, round.state.value);
          assert before.events + (round.events + rest.events) == before.events + round.events + rest.events;
        }
      }
    }
  }

  // ---- Rebuilding a checkpoint from the events ---------------------------------------------

  /** What durable storage keeps of a run in progress. */
  datatype Checkpoint = Checkpoint(
    cma: Snapshot, anchors: map<Dependency, Complex>, cache: Cache, baseline: Occurrence, best: Occurrence, next: nat)

  function Occurrences(events: seq<Event>): seq<Occurrence> {
    if events == [] then []
    else
      var before := Occurrences(events[..|events| - 1]);
      match events[|events| - 1]
      case BaselineReady(baseline, _, _) => before + [baseline]
      case RowEvaluated(row) => before + [row]
      case _ => before
  }

  /** The last acknowledged snapshot with its next and best ordinals. */
  function LastReady(events: seq<Event>): Option<(Snapshot, nat, nat)> {
    if events == [] then None
    else
      match events[|events| - 1]
      case GenerationReady(_, next, best, resume) => Some((resume, next, best))
      case BaselineReady(baseline, _, resume) => Some((resume, baseline.ordinal + 1, baseline.ordinal))
      case _ => LastReady(events[..|events| - 1])
  }

  /** Cached records by candidate, read off the evaluated rows. */
  function CacheOf(rows: seq<Occurrence>): Cache {
    if rows == [] then map[]
    else var last := rows[|rows| - 1]; CacheOf(rows[..|rows| - 1])[last.key := last.record]
  }

  /** The last row with an ordinal. */
  function WithOrdinal(rows: seq<Occurrence>, ordinal: nat): Option<Occurrence> {
    if rows == [] then None
    else if rows[|rows| - 1].ordinal == ordinal then Some(rows[|rows| - 1])
    else WithOrdinal(rows[..|rows| - 1], ordinal)
  }

  /** Rebuilds the checkpoint from the events of a run: anchors and baseline from
      the baseline event, the cache from every row, the best by its ordinal. */
  function Hydrate(events: seq<Event>): Option<Checkpoint> {
    if events == [] || !events[0].BaselineReady? then None
    else
      var rows := Occurrences(events);
      match LastReady(events)
      case None => None
      case Some((resume, next, best)) =>
        match WithOrdinal(rows, best)
        case None => None
        case Some(row) => Some(Checkpoint(resume, events[0].anchors, CacheOf(rows), events[0].baseline, row, next))
  }

  /** Resuming restores the optimizer and takes everything else as recorded. */
  function Resume(checkpoint: Checkpoint): Option<LoopState> {
    match RestoreFrom(checkpoint.cma)
    case None => None
    case Some(cma) =>
      Some(LoopState(cma, checkpoint.anchors, checkpoint.cache, checkpoint.baseline, checkpoint.best, checkpoint.next))
  }

  // ---- What a run keeps ----------------------------------------------------------------------

  /** Row b has a finite cost no row beats and no earlier row equals. */
  predicate BestAt(rows: seq<Occurrence>, b: nat) {
    b < |rows| && rows[b].record.cost.Finite? &&
    forall k :: 0 <= k < |rows| && rows[k].record.cost.Finite? ==>
      if k < b then rows[b].record.cost.cost < rows[k].record.cost.cost
      else rows[b].record.cost.cost <= rows[k].record.cost.cost
  }

  /** `best` is the earliest row of least finite cost. */
  ghost predicate EarliestBest(rows: seq<Occurrence>, best: Occurrence) {
    exists b: nat :: BestAt(rows, b) && rows[b] == best
  }

  predicate Ordered(rows: seq<Occurrence>) {
    forall k :: 0 <= k < |rows| ==> rows[k].ordinal == k
  }

  /** The rows a run has emitted, baseline first, account for its whole state. */
  ghost predicate Accounts(rows: seq<Occurrence>, st: LoopState) {
    && Ordered(rows) && |rows| == st.next && st.next >= 1
    && rows[0] == st.baseline
    && st.cache == CacheOf(rows)
    && EarliestBest(rows, st.best)
  }

  lemma {:induction false} CacheOfConcat(a: seq<Occurrence>, b: seq<Occurrence>)
    ensures CacheOf(a + b) == CacheOf(a) + CacheOf(b)
  {
    if b == [] {
      assert a + b == a;
    } else {
      assert (a + b)[..|a + b| - 1] == a + b[..|b| - 1];
      CacheOfConcat(a, b[..|b| - 1]);
    }
  }

  lemma {:induction false} OccurrencesConcat(a: seq<Event>, b: seq<Event>)
    ensures Occurrences(a + b) == Occurrences(a) + Occurrences(b)
  {
    if b == [] {
      assert a + b == a;
    } else {
      assert (a + b)[..|a + b| - 1] == a + b[..|b| - 1];
      OccurrencesConcat(a, b[..|b| - 1]);
    }
  }

  lemma {:induction false} OccurrencesOfRows(rows: seq<Occurrence>)
    ensures Occurrences(RowEvents(rows)) == rows
  {
    if rows != [] {
      var last := |rows| - 1;
      assert RowEvents(rows)[..last] == RowEvents(rows[..last]);
      OccurrencesOfRows(rows[..last]);
    }
  }

  lemma BestStep(rows: seq<Occurrence>, best: Occurrence, row: Occurrence)
    requires EarliestBest(rows, best)
    ensures EarliestBest(rows + [row], Better(row, best))
  {
    var more := rows + [row];
    var b: nat :| BestAt(rows, b) && rows[b] == best;
    if Improves(row.record.cost, best.record.cost) {
      assert BestAt(more, |rows|);
    } else {
      assert BestAt(more, b);
    }
  }

  lemma {:induction false} BestOfRows(rows: seq<Occurrence>, best: Occurrence, more: seq<Occurrence>)
    requires EarliestBest(rows, best)
    ensures EarliestBest(rows + more, BestOf(more, best))
  {
    if more == [] {
      assert rows + more == rows;
    } else {
      var last := |more| - 1;
      BestOfRows(rows, best, more[..last]);
      BestStep(rows + more[..last], BestOf(more[..last], best), more[last]);
      assert rows + more == rows + more[..last] + [more[last]];
    }
  }

  lemma {:induction false} OrdinalFound(rows: seq<Occurrence>, k: nat)
    requires Ordered(rows) && k < |rows|
    ensures WithOrdinal(rows, k) == Some(rows[k])
  {
    if k < |rows| - 1 {
      OrdinalFound(rows[..|rows| - 1], k);
    }
  }

  // ---- Every generation keeps the account ------------------------------------------------------

  lemma {:induction false} CacheOfRows(rows: seq<Occurrence>, records: map<Point, Record>)
    requires forall k :: 0 <= k < |rows| ==> rows[k].key in records && rows[k].record == records[rows[k].key]
    ensures forall p :: p in CacheOf(rows) <==> exists k :: 0 <= k < |rows| && rows[k].key == p
    ensures forall p :: p in CacheOf(rows) ==> p in records && CacheOf(rows)[p] == records[p]
  {
    if rows != [] {
      var last := |rows| - 1;
      CacheOfRows(rows[..last], records);
      forall p | p in CacheOf(rows) ensures exists k :: 0 <= k < |rows| && rows[k].key == p {
        if p == rows[last].key {
        } else {
          var k :| 0 <= k < last && rows[..last][k].key == p;
          assert rows[k].key == p;
        }
      }
      forall k | 0 <= k < |rows| ensures rows[k].key in CacheOf(rows) {
        if k < last {
          assert rows[..last][k].key == rows[k].key;
        }
      }
    }
  }

  lemma RowsInCache(eval: Eval, cache: Cache, points: seq<Point>, rows: seq<Occurrence>)
    requires Completes(eval, cache, points) && |rows| == |points|
    requires forall k :: 0 <= k < |rows| ==>
      rows[k].key == points[k] && rows[k].record == Results(eval, cache, points)[k].record
    ensures var after := CacheAfter(eval, cache, points);
      forall k :: 0 <= k < |rows| ==> rows[k].key in after && rows[k].record == after[rows[k].key]
  {
    forall k | 0 <= k < |rows|
      ensures points[k] in CacheAfter(eval, cache, points)
      ensures Results(eval, cache, points)[k].record == CacheAfter(eval, cache, points)[points[k]]
    {
      ResultIsCached(eval, cache, points, k);
    }
  }

  /** The cache after a batch is the cache before plus what its rows record. */
  lemma RowsExtendCache(eval: Eval, cache: Cache, points: seq<Point>, rows: seq<Occurrence>)
    requires Completes(eval, cache, points) && |rows| == |points|
    requires forall k :: 0 <= k < |rows| ==>
      rows[k].key == points[k] && rows[k].record == Results(eval, cache, points)[k].record
    ensures CacheAfter(eval, cache, points) == cache + CacheOf(rows)
  {
    var after := CacheAfter(eval, cache, points);
    RowsInCache(eval, cache, points, rows);
    CacheOfRows(rows, after);
    assert forall k :: 0 <= k < |points| ==> rows[k].key == points[k];
    assert after.Keys == (cache + CacheOf(rows)).Keys;
  }

  /** A generation that returned: one row per vector asked for, in column order
      with consecutive ordinals, between the population and the acknowledgement. */
  ghost predicate Emits(round: Round, st: LoopState, raw: seq<Vector>, rows: seq<Occurrence>, population: nat) {
    && WellFormed(st.cma) && round.state.Some? && WellFormed(round.state.value.cma)
    && Numbered(rows, st.next, Generation(st.cma) + 1)
    && |rows| == |raw| == population
    && var after := round.state.value;
    && after.next == st.next + |rows|
    && after.best == BestOf(rows, st.best)
    && after.cache == st.cache + CacheOf(rows)
    && after.anchors == st.anchors && after.baseline == st.baseline
    && round.events == RoundEvents(st, raw, rows, after)
  }

  predicate Numbered(rows: seq<Occurrence>, next: nat, generation: int) {
    forall k :: 0 <= k < |rows| ==>
      (rows[k].ordinal == next + k && rows[k].column == k && rows[k].generation == generation)
  }

  function RoundEvents(st: LoopState, raw: seq<Vector>, rows: seq<Occurrence>, after: LoopState): seq<Event>
    requires WellFormed(st.cma) && WellFormed(after.cma)
  {
    [PopulationObserved(Generation(st.cma) + 1, raw)] + RowEvents(rows) +
    [GenerationReady(Generation(after.cma), after.next, after.best.ordinal, SnapshotOf(after.cma))]
  }

  lemma GenerateEmits(study: Study, st: LoopState) returns (raw: seq<Vector>, rows: seq<Occurrence>)
    requires Lawful(study) && WellFormed(st.cma) && Generate(study, st).state.Some?
    ensures Emits(Generate(study, st), st, raw, rows, study.population)
  {
    AskedWell(study, st.cma, study.population);
    var (asked, vectors) := AskAll(study, st.cma, study.population);
    raw := vectors;
    rows := AssembleEmits(study, EvalIn(study.w, Candidate(st.anchors)), st, asked, raw, MapAll(study, raw));
  }

  lemma AssembleEmits(study: Study, eval: Eval, st: LoopState, asked: Cma, raw: seq<Vector>, points: Option<seq<Point>>)
    returns (rows: seq<Occurrence>)
    requires WellFormed(st.cma) && Assemble(study, eval, st, asked, raw, points).state.Some?
    ensures Emits(Assemble(study, eval, st, asked, raw, points), st, raw, rows, |raw|)
  {
    AssembledWell(study, eval, st, asked, raw, points);
    rows := Rows(points.value, Results(eval, st.cache, points.value), raw, Generation(st.cma) + 1, st.next, |raw|);
    RowsRead(points.value, Results(eval, st.cache, points.value), raw, Generation(st.cma) + 1, st.next);
    RowsExtendCache(eval, st.cache, points.value, rows);
    FinishedEmits(study, st, asked, raw, rows, CacheAfter(eval, st.cache, points.value));
  }

  /** A generation that returned was mapped, completely evaluated and finished. */
  lemma AssembledWell(study: Study, eval: Eval, st: LoopState, asked: Cma, raw: seq<Vector>, points: Option<seq<Point>>)
    requires WellFormed(st.cma) && Assemble(study, eval, st, asked, raw, points).state.Some?
    ensures points.Some? && Completes(eval, st.cache, points.value) && |points.value| == |raw|
    ensures Assemble(study, eval, st, asked, raw, points) == Finished(study, st, asked, raw,
      Rows(points.value, Results(eval, st.cache, points.value), raw, Generation(st.cma) + 1, st.next, |raw|),
      CacheAfter(eval, st.cache, points.value), [PopulationObserved(Generation(st.cma) + 1, raw)])
  {
  }

  lemma RowsRead(points: seq<Point>, results: seq<Result>, raw: seq<Vector>, generation: int, next: nat)
    requires |points| == |results| == |raw|
    ensures var rows := Rows(points, results, raw, generation, next, |raw|);
      && |rows| == |raw| && Numbered(rows, next, generation)
      && forall k :: 0 <= k < |rows| ==> rows[k].key == points[k] && rows[k].record == results[k].record
  {
  }

  lemma FinishedEmits(study: Study, st: LoopState, asked: Cma, raw: seq<Vector>, rows: seq<Occurrence>, cache: Cache)
    requires WellFormed(st.cma) && |raw| == |rows| && Numbered(rows, st.next, Generation(st.cma) + 1)
    requires cache == st.cache + CacheOf(rows)
    requires Finished(study, st, asked, raw, rows, cache, [PopulationObserved(Generation(st.cma) + 1, raw)]).state.Some?
    ensures Emits(Finished(study, st, asked, raw, rows, cache, [PopulationObserved(Generation(st.cma) + 1, raw)]),
                  st, raw, rows, |raw|)
  {
  }

  /** Every turn that returns emits its rows. */
  ghost predicate Emitting(turn: Turn, population: nat) {
    forall st: LoopState :: WellFormed(st.cma) && turn(st).state.Some? ==>
      exists raw, rows :: Emits(turn(st), st, raw, rows, population)
  }

  lemma StudyEmits(study: Study)
    requires Lawful(study)
    ensures Steady(TurnOf(study)) && Emitting(TurnOf(study), study.population)
  {
    StudyIsSteady(study);
    var turn := TurnOf(study);
    forall st: LoopState | WellFormed(st.cma) && turn(st).state.Some?
      ensures exists raw, rows :: Emits(turn(st), st, raw, rows, study.population)
    {
      var raw, rows := GenerateEmits(study, st);
    }
  }

  /** The rows of the events so far account for the state, and the last event
      acknowledges it. */
  ghost predicate Recorded(events: seq<Event>, st: LoopState) {
    && WellFormed(st.cma)
    && Accounts(Occurrences(events), st)
    && events != [] && events[0].BaselineReady? && events[0].baseline == st.baseline && events[0].anchors == st.anchors
    && LastReady(events) == Some((SnapshotOf(st.cma), st.next, st.best.ordinal))
  }

  lemma AccountsStep(rows: seq<Occurrence>, st: LoopState, more: seq<Occurrence>, after: LoopState)
    requires WellFormed(st.cma) && Accounts(rows, st)
    requires Numbered(more, st.next, Generation(st.cma) + 1)
    requires after.next == st.next + |more| && after.best == BestOf(more, st.best)
    requires after.cache == st.cache + CacheOf(more) && after.baseline == st.baseline
    ensures Accounts(rows + more, after)
  {
    CacheOfConcat(rows, more);
    BestOfRows(rows, st.best, more);
  }

  lemma TurnRecords(events: seq<Event>, st: LoopState, round: Round, raw: seq<Vector>, rows: seq<Occurrence>, population: nat)
    requires Recorded(events, st) && Emits(round, st, raw, rows, population)
    ensures Recorded(events + round.events, round.state.value)
    ensures round.state.value.next == st.next + population
  {
    var after := round.state.value;
    var first := PopulationObserved(Generation(st.cma) + 1, raw);
    var ready := GenerationReady(Generation(after.cma), after.next, after.best.ordinal, SnapshotOf(after.cma));
    RoundOccurrences(events, first, rows, ready);
    AccountsStep(Occurrences(events), st, rows, after);
    var all := events + round.events;
    assert all[|all| - 1] == ready && all[0] == events[0];
  }

  lemma RoundOccurrences(events: seq<Event>, first: Event, rows: seq<Occurrence>, ready: Event)
    requires first.PopulationObserved? && ready.GenerationReady?
    ensures Occurrences(events + ([first] + RowEvents(rows) + [ready])) == Occurrences(events) + rows
  {
    OccurrencesConcat(events, [first] + RowEvents(rows) + [ready]);
    OccurrencesConcat([first] + RowEvents(rows), [ready]);
    OccurrencesConcat([first], RowEvents(rows));
    OccurrencesOfRows(rows);
    assert Occurrences([first]) == [] by {
      assert [first][..0] == [];
    }
    assert Occurrences([ready]) == [] by {
      assert [ready][..0] == [];
    }
    assert [] + rows + [] == rows;
  }

  lemma EmittedBy(turn: Turn, population: nat, st: LoopState) returns (raw: seq<Vector>, rows: seq<Occurrence>)
    requires Emitting(turn, population) && WellFormed(st.cma) && turn(st).state.Some?
    ensures Emits(turn(st), st, raw, rows, population)
  {
    raw, rows :| Emits(turn(st), st, raw, rows, population);
  }

  lemma TurnAfter(population: nat, events: seq<Event>, before: seq<Event>, st: LoopState, round: Round,
                  raw: seq<Vector>, rows: seq<Occurrence>)
    requires Recorded(events + before, st) && Emits(round, st, raw, rows, population)
    ensures Recorded(events + (before + round.events), round.state.value)
    ensures round.state.value.next == st.next + population
  {
    TurnRecords(events + before, st, round, raw, rows, population);
    assert events + before + round.events == events + (before + round.events);
  }

  lemma {:induction false} PrefixRecords(turn: Turn, population: nat, events: seq<Event>, st: LoopState, n: nat)
    requires Recorded(events, st) && Steady(turn) && Emitting(turn, population)
    requires Prefix(turn, st, n).state.Some?
    ensures Recorded(events + Prefix(turn, st, n).events, Prefix(turn, st, n).state.value)
    ensures Prefix(turn, st, n).state.value.next == st.next + Product(n, population)
  {
    if n == 0 {
      assert events + [] == events;
    } else {
      PrefixRecords(turn, population, events, st, n - 1);
      var before := Prefix(turn, st, n - 1);
      var raw, rows := EmittedBy(turn, population, before.state.value);
      TurnAfter(population, events, before.events, before.state.value, turn(before.state.value), raw, rows);
    }
  }

  /** How many rows n generations emit. */
  function Product(n: nat, population: nat): nat {
    if n == 0 then 0 else Product(n - 1, population) + population
  }

  lemma {:induction false} ProductIsTimes(n: nat, population: nat)
    ensures Product(n, population) == n * population
  {
    if n > 0 {
      ProductIsTimes(n - 1, population);
    }
  }

  // ---- Stopping and resuming ----------------------------------------------------------------------

  lemma HydratedState(events: seq<Event>, st: LoopState)
    requires Recorded(events, st)
    ensures Hydrate(events).Some? && Resume(Hydrate(events).value) == Some(st)
  {
    var rows := Occurrences(events);
    var b: nat :| BestAt(rows, b) && rows[b] == st.best;
    OrdinalFound(rows, b);
    SnapshotRestores(st.cma);
  }

  /** The state and the events of a fresh run once its baseline is known. */
  predicate Started(st: LoopState) {
    && WellFormed(st.cma) && st.next == 1
    && st.baseline == st.best && st.baseline.ordinal == 0 && st.baseline.record.cost.Finite?
    && st.cache == map[st.baseline.key := st.baseline.record]
  }

  function FirstEvents(st: LoopState): seq<Event> {
    [BaselineReady(st.baseline, st.anchors, SnapshotOf(st.cma))]
  }

  lemma StartRecorded(st: LoopState)
    requires Started(st)
    ensures Recorded(FirstEvents(st), st)
  {
    FirstRead(BaselineReady(st.baseline, st.anchors, SnapshotOf(st.cma)));
    StartAccounts(st);
  }

  lemma FirstRead(event: Event)
    requires event.BaselineReady?
    ensures Occurrences([event]) == [event.baseline]
    ensures LastReady([event]) == Some((event.resume, event.baseline.ordinal + 1, event.baseline.ordinal))
  {
    assert [event][..0] == [];
    assert Occurrences([]) == [];
  }

  lemma StartAccounts(st: LoopState)
    requires Started(st)
    ensures Accounts([st.baseline], st)
  {
    var rows := [st.baseline];
    assert rows[..0] == [];
    assert CacheOf([]) == map[];
    assert BestAt(rows, 0);
  }

  lemma HydratedRun(turn: Turn, population: nat, st: LoopState, n: nat)
    requires Steady(turn) && Emitting(turn, population) && Started(st) && Prefix(turn, st, n).state.Some?
    ensures var emitted := FirstEvents(st) + Prefix(turn, st, n).events;
      Hydrate(emitted).Some? && Resume(Hydrate(emitted).value) == Prefix(turn, st, n).state
  {
    StartRecorded(st);
    PrefixRecords(turn, population, FirstEvents(st), st, n);
    HydratedState(FirstEvents(st) + Prefix(turn, st, n).events, Prefix(turn, st, n).state.value);
  }

  /** The run resumed in this state emits what the whole run still has to emit. */
  ghost predicate Continues(turn: Turn, generations: int, st: LoopState, emitted: seq<Event>, resumed: LoopState)
    requires Steady(turn) && WellFormed(st.cma)
  {
    && WellFormed(resumed.cma)
    && FirstEvents(st) + RunFrom(turn, generations, st).events == emitted + RunFrom(turn, generations, resumed).events
    && RunFrom(turn, generations, st).state == RunFrom(turn, generations, resumed).state
  }

  lemma PrefixContinues(turn: Turn, generations: int, st: LoopState, n: nat)
    requires Steady(turn) && WellFormed(st.cma) && Generation(st.cma) + n <= generations
    requires Prefix(turn, st, n).state.Some?
    ensures Continues(turn, generations, st, FirstEvents(st) + Prefix(turn, st, n).events, Prefix(turn, st, n).state.value)
  {
    RunSplits(turn, generations, st, n);
    var before := Prefix(turn, st, n);
    var rest := RunFrom(turn, generations, before.state.value).events;
    assert FirstEvents(st) + (before.events + rest) == FirstEvents(st) + before.events + rest;
  }

  /** Stopping after any completed generation and rebuilding everything from the
      events gives back the very state, so the resumed run emits exactly the
      remaining events of the uninterrupted run and ends as it does. */
  lemma ResumeContinues(study: Study, st: LoopState, n: nat)
    requires Lawful(study) && Started(st) && Generation(st.cma) + n <= study.generations
    requires Steady(TurnOf(study)) && Prefix(TurnOf(study), st, n).state.Some?
    ensures var turn := TurnOf(study);
      var emitted := FirstEvents(st) + Prefix(turn, st, n).events;
      && Hydrate(emitted).Some? && Resume(Hydrate(emitted).value).Some?
      && Resume(Hydrate(emitted).value) == Prefix(turn, st, n).state
      && Continues(turn, study.generations, st, emitted, Resume(Hydrate(emitted).value).value)
  {
    StudyEmits(study);
    HydratedRun(TurnOf(study), study.population, st, n);
    PrefixContinues(TurnOf(study), study.generations, st, n);
  }

  /** After n generations the ordinals run from 0 without a gap, the next one is
      1 + n * population, the best is the earliest row of least finite cost, and
      the cache holds exactly the rows' records. */
  lemma RunAccounts(study: Study, st: LoopState, n: nat)
    requires Lawful(study) && Started(st) && Steady(TurnOf(study)) && Prefix(TurnOf(study), st, n).state.Some?
    ensures var events := FirstEvents(st) + Prefix(TurnOf(study), st, n).events;
      var after := Prefix(TurnOf(study), st, n).state.value;
      && Ordered(Occurrences(events))
      && |Occurrences(events)| == after.next == 1 + n * study.population
      && EarliestBest(Occurrences(events), after.best)
      && after.cache == CacheOf(Occurrences(events))
  {
    StudyEmits(study);
    StartRecorded(st);
    ProductIsTimes(n, study.population);
    PrefixRecords(TurnOf(study), study.population, FirstEvents(st), st, n);
  }
}
