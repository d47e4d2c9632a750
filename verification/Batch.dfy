/** The batched evaluator and its cache. */
module Batch {
  // A batch measures one leaf of every candidate at a time; candidates are independent, so it
  // returns what evaluating the points one by one returns.

  import opened Common
  import opened Continuation
  import opened Expressions
  import opened Measurement
  import opened Denotation

  datatype Result = Result(record: Record, hit: bool)

  type Cache = map<Point, Record>

  /** How one point evaluates on its own. */
  type Eval = Point -> Checked<Record, Failure>

  // ---- What a batch returns -------------------------------------------------------

  /** The first occurrence of a point the cache does not know. */
  predicate Fresh(cache: Cache, points: seq<Point>, i: nat)
    requires i < |points|
  {
    points[i] !in cache && points[i] !in points[..i]
  }

  /** Every point the cache does not know evaluates without an escaping error. */
  predicate Completes(eval: Eval, cache: Cache, points: seq<Point>) {
    forall p :: p in points && p !in cache ==> eval(p).Ok?
  }

  function CacheAfter(eval: Eval, cache: Cache, points: seq<Point>): Cache
    requires Completes(eval, cache, points)
  {
    cache + map p | p in points && p !in cache :: eval(p).value
  }

  function ResultAt(eval: Eval, cache: Cache, points: seq<Point>, i: nat): Result
    requires i < |points| && Completes(eval, cache, points)
  {
    Result(if points[i] in cache then cache[points[i]] else eval(points[i]).value, !Fresh(cache, points, i))
  }

  function Results(eval: Eval, cache: Cache, points: seq<Point>): (results: seq<Result>)
    requires Completes(eval, cache, points)
    ensures |results| == |points|
  {
    seq(|points|, i requires 0 <= i < |points| => ResultAt(eval, cache, points, i))
  }

  /** A returned record is the one the cache keeps for the point. */
  lemma ResultIsCached(eval: Eval, cache: Cache, points: seq<Point>, i: nat)
    requires i < |points| && Completes(eval, cache, points)
    ensures points[i] in CacheAfter(eval, cache, points)
    ensures Results(eval, cache, points)[i].record == CacheAfter(eval, cache, points)[points[i]]
  {
  }

  // ---- One batch or one point at a time ----------------------------------------------

  /** Evaluating one point after another through the same cache. */
  function OneByOne(eval: Eval, cache: Cache, points: seq<Point>): Checked<(seq<Result>, Cache), Failure> {
    if points == [] then Ok(([], cache))
    else
      var last := |points| - 1;
      match OneByOne(eval, cache, points[..last])
      case Raised(failure) => Raised(failure)
      case Ok((results, known)) =>
        var point := points[last];
        if point in known then Ok((results + [Result(known[point], true)], known))
        else
          match eval(point)
          case Raised(failure) => Raised(failure)
          case Ok(record) => Ok((results + [Result(record, false)], known[point := record]))
  }

  lemma FreshPrefix(cache: Cache, first: seq<Point>, second: seq<Point>, i: nat)
    requires i < |first|
    ensures Fresh(cache, first + second, i) == Fresh(cache, first, i)
  {
    assert (first + second)[..i] == first[..i];
  }

  lemma FreshSuffix(cache: Cache, first: seq<Point>, second: seq<Point>, i: nat, after: Cache)
    requires i < |second| && forall p :: p in after <==> p in cache || p in first
    ensures Fresh(cache, first + second, |first| + i) == Fresh(after, second, i)
  {
    assert (first + second)[..|first| + i] == first + second[..i];
  }

  /** A batch completes exactly when its first part does, and then its second on the cache that leaves. */
  lemma CompletesConcat(eval: Eval, cache: Cache, first: seq<Point>, second: seq<Point>)
    ensures Completes(eval, cache, first + second) <==>
      Completes(eval, cache, first) && Completes(eval, CacheAfter(eval, cache, first), second)
  {
    assert forall p :: p in first + second <==> p in first || p in second;
  }

  lemma CacheConcat(eval: Eval, cache: Cache, first: seq<Point>, second: seq<Point>)
    requires Completes(eval, cache, first + second)
    ensures Completes(eval, cache, first) && Completes(eval, CacheAfter(eval, cache, first), second)
    ensures CacheAfter(eval, cache, first + second) == CacheAfter(eval, CacheAfter(eval, cache, first), second)
  {
    assert forall p :: p in first + second <==> p in first || p in second;
  }

  /** Splitting a batch anywhere changes nothing but the call boundary. */
  lemma BatchSplit(eval: Eval, cache: Cache, first: seq<Point>, second: seq<Point>)
    ensures Completes(eval, cache, first + second) <==>
      Completes(eval, cache, first) && Completes(eval, CacheAfter(eval, cache, first), second)
    ensures Completes(eval, cache, first + second) ==>
      CacheAfter(eval, cache, first + second) == CacheAfter(eval, CacheAfter(eval, cache, first), second)
    ensures Completes(eval, cache, first + second) ==>
      Results(eval, cache, first + second) == Results(eval, cache, first) + Results(eval, CacheAfter(eval, cache, first), second)
  {
    CompletesConcat(eval, cache, first, second);
    if Completes(eval, cache, first + second) { ResultsSplit(eval, cache, first, second); }
  }

  lemma ResultsSplit(eval: Eval, cache: Cache, first: seq<Point>, second: seq<Point>)
    requires Completes(eval, cache, first + second)
    ensures Completes(eval, cache, first) && Completes(eval, CacheAfter(eval, cache, first), second)
    ensures CacheAfter(eval, cache, first + second) == CacheAfter(eval, CacheAfter(eval, cache, first), second)
    ensures Results(eval, cache, first + second) ==
            Results(eval, cache, first) + Results(eval, CacheAfter(eval, cache, first), second)
  {
    CacheConcat(eval, cache, first, second);
    var known := CacheAfter(eval, cache, first);
    forall i | 0 <= i < |first|
      ensures ResultAt(eval, cache, first + second, i) == ResultAt(eval, cache, first, i)
    {
      FreshPrefix(cache, first, second, i);
    }
    forall i | 0 <= i < |second|
      ensures ResultAt(eval, cache, first + second, |first| + i) == ResultAt(eval, known, second, i)
    {
      LaterResult(eval, cache, first, second, i);
    }
    ResultsConcat(Results(eval, cache, first + second), Results(eval, cache, first), Results(eval, known, second));
  }

  lemma ResultsConcat(all: seq<Result>, a: seq<Result>, b: seq<Result>)
    requires |all| == |a| + |b|
    requires forall i :: 0 <= i < |a| ==> all[i] == a[i]
    requires forall i :: 0 <= i < |b| ==> all[|a| + i] == b[i]
    ensures all == a + b
  {
    forall i | |a| <= i < |all| ensures all[i] == (a + b)[i] {
      assert all[|a| + (i - |a|)] == b[i - |a|];
    }
  }

  lemma LaterResult(eval: Eval, cache: Cache, first: seq<Point>, second: seq<Point>, i: nat)
    requires i < |second| && Completes(eval, cache, first + second)
    requires Completes(eval, cache, first) && Completes(eval, CacheAfter(eval, cache, first), second)
    ensures ResultAt(eval, cache, first + second, |first| + i) == ResultAt(eval, CacheAfter(eval, cache, first), second, i)
  {
    FreshSuffix(cache, first, second, i, CacheAfter(eval, cache, first));
    assert (first + second)[|first| + i] == second[i];
  }

  lemma LastResult(eval: Eval, cache: Cache, before: seq<Point>, point: Point)
    requires Completes(eval, cache, before + [point])
    ensures Completes(eval, cache, before)
    ensures var known := CacheAfter(eval, cache, before);
      && (point in known <==> point in cache || point in before)
      && CacheAfter(eval, cache, before + [point]) ==
         (if point in known then known else known[point := eval(point).value])
      && Results(eval, cache, before + [point]) ==
         Results(eval, cache, before) +
         [Result(if point in known then known[point] else eval(point).value, point in known)]
  {
    hide Completes;
    ResultsSplit(eval, cache, before, [point]);
    var known := CacheAfter(eval, cache, before);
    assert Results(eval, known, [point]) == [ResultAt(eval, known, [point], 0)];
    assert CacheAfter(eval, known, [point]) == if point in known then known else known[point := eval(point).value];
    assert Fresh(known, [point], 0) <==> point !in known;
  }

  /** A batch completes exactly when the one-by-one evaluation does, and then it
      gives the same records in the same order with the same hit flags, and
      leaves the same cache. */
  lemma {:induction false} BatchIsOneByOne(eval: Eval, cache: Cache, points: seq<Point>)
    ensures Completes(eval, cache, points) <==> OneByOne(eval, cache, points).Ok?
    ensures Completes(eval, cache, points) ==>
      OneByOne(eval, cache, points) == Ok((Results(eval, cache, points), CacheAfter(eval, cache, points)))
  {
    if points == [] {
      assert CacheAfter(eval, cache, points) == cache;
    } else {
      var last := |points| - 1;
      var before, point := points[..last], points[last];
      assert points == before + [point];
      BatchIsOneByOne(eval, cache, before);
      if Completes(eval, cache, points) {
        LastResult(eval, cache, before, point);
      } else if Completes(eval, cache, before) {
        assert exists p :: p in points && p !in cache && eval(p).Raised?;
        assert point !in cache && eval(point).Raised?;
      }
    }
  }

  /** The evaluation of this world, on points that fit its baseline. */
  function EvalIn(w: World, mode: Mode): Eval
    requires Valid(w)
  {
    (p: Point) => if Valid(w) && Compatible(w.baseline, p) then Evaluated(w, mode, p) else Raised(MissingKey)
  }

  predicate AllCompatible(w: World, points: seq<Point>) {
    forall i :: 0 <= i < |points| ==> Compatible(w.baseline, points[i])
  }

  // ---- Errors propagate --------------------------------------------------------------

  lemma {:induction false} TermsRaise(w: World, mode: Mode, o: nat, state: State, n: nat, m: nat)
    requires Valid(w) && Compatible(w.baseline, state.point) && o < |w.objectives| && n <= m <= |Selectors(w, o)|
    requires FoldTerms(w, mode, o, state, n).Raised?
    ensures FoldTerms(w, mode, o, state, m) == FoldTerms(w, mode, o, state, n)
    decreases m - n
  {
    if n < m {
      TermsRaise(w, mode, o, state, n, m - 1);
    }
  }

  lemma {:induction false} ObjectivesRaise(w: World, mode: Mode, state: State, n: nat, m: nat)
    requires Valid(w) && Compatible(w.baseline, state.point) && n <= m <= |w.objectives|
    requires FoldObjectives(w, mode, state, n).Raised?
    ensures FoldObjectives(w, mode, state, m) == FoldObjectives(w, mode, state, n)
    decreases m - n
  {
    if n < m {
      ObjectivesRaise(w, mode, state, n, m - 1);
    }
  }

  // ---- The evaluator -----------------------------------------------------------------

  /** One candidate waiting for its result on the current leaf; a candidate whose
      memo holds the result takes no job, the others take the job at `slot`. */
  datatype Active = Active(index: nat, view: View, memo: Option<Complex>, slot: nat)

  function NextSlot(active: seq<Active>): nat {
    if active == [] then 0
    else var last := active[|active| - 1]; if last.memo.None? then last.slot + 1 else last.slot
  }

  predicate AllFit(w: World, works: seq<Option<Work>>) {
    forall i :: 0 <= i < |works| && works[i].Some? ==> Fits(w, works[i].value)
  }

  predicate Waiting(works: seq<Option<Work>>, i: nat)
    requires i < |works|
  {
    works[i].Some? && works[i].value.state.fault.None?
  }

  /** The entry stands for a waiting candidate and the job in its slot is its own. */
  predicate Queued(mode: Mode, s: Selector, works: seq<Option<Work>>, entry: Active, jobs: seq<Job>) {
    && entry.index < |works| && Waiting(works, entry.index)
    && var state := works[entry.index].value.state;
    && s.view in state.views && entry.view == state.views[s.view]
    && (if DependencyOf(s) in state.roots then entry.memo == Some(state.roots[DependencyOf(s)])
        else entry.memo == None && entry.slot < |jobs| &&
             JobFor(mode, entry.view, DependencyOf(s)) == Ok(jobs[entry.slot]))
  }

  /** Entries are in candidate order and their slots count the jobs before them. */
  predicate InOrder(active: seq<Active>) {
    && (forall a, b :: 0 <= a < b < |active| ==> active[a].index < active[b].index)
    && (forall a :: 0 <= a < |active| ==> active[a].slot == NextSlot(active[..a]))
  }

  /** The first n candidates are queued in order, exactly those that wait. */
  ghost predicate Queue(mode: Mode, s: Selector, works: seq<Option<Work>>, active: seq<Active>, jobs: seq<Job>, n: nat)
    requires n <= |works|
  {
    && InOrder(active) && NextSlot(active) == |jobs|
    && (forall a :: 0 <= a < |active| ==> Queued(mode, s, works, active[a], jobs) && active[a].index < n)
    && (forall i :: 0 <= i < n && Waiting(works, i) ==> exists a :: 0 <= a < |active| && active[a].index == i)
  }

  lemma NextSlotStep(active: seq<Active>, a: nat)
    requires InOrder(active) && a < |active|
    ensures active[a].slot == NextSlot(active[..a])
    ensures NextSlot(active[..a + 1]) == active[a].slot + if active[a].memo.None? then 1 else 0
    ensures NextSlot(active[..a + 1]) <= NextSlot(active)
    decreases |active| - a
  {
    assert active[..a + 1][..a] == active[..a];
    if a + 1 < |active| {
      NextSlotStep(active, a + 1);
    } else {
      assert active[..a + 1] == active;
    }
  }

  lemma InOrderPush(active: seq<Active>, entry: Active)
    requires InOrder(active) && entry.slot == NextSlot(active)
    requires forall a :: 0 <= a < |active| ==> active[a].index < entry.index
    ensures InOrder(active + [entry])
  {
    var queue := active + [entry];
    forall a | 0 <= a < |queue| ensures queue[a].slot == NextSlot(queue[..a]) {
      assert queue[..a] == active[..a];
    }
    assert active[..|active|] == active;
  }

  lemma QueuedGrow(mode: Mode, s: Selector, works: seq<Option<Work>>, entry: Active, jobs: seq<Job>, more: seq<Job>)
    requires Queued(mode, s, works, entry, jobs)
    ensures Queued(mode, s, works, entry, jobs + more)
  {
  }

  lemma QueuePush(mode: Mode, s: Selector, works: seq<Option<Work>>, active: seq<Active>, jobs: seq<Job>, n: nat,
                  entry: Active, more: seq<Job>)
    requires n < |works| && Queue(mode, s, works, active, jobs, n)
    requires entry.index == n && entry.slot == |jobs| && |more| == (if entry.memo.None? then 1 else 0)
    requires Queued(mode, s, works, entry, jobs + more)
    ensures Queue(mode, s, works, active + [entry], jobs + more, n + 1)
  {
    var queue := active + [entry];
    InOrderPush(active, entry);
    forall a | 0 <= a < |queue| ensures Queued(mode, s, works, queue[a], jobs + more) && queue[a].index < n + 1 {
      if a < |active| {
        QueuedGrow(mode, s, works, active[a], jobs, more);
      }
    }
    forall i | 0 <= i < n + 1 && Waiting(works, i) ensures exists a :: 0 <= a < |queue| && queue[a].index == i {
      if i < n {
        var a :| 0 <= a < |active| && active[a].index == i;
        assert queue[a].index == i;
      } else {
        assert queue[|active|].index == i;
      }
    }
  }

  /** The result an entry contributes, given the answer to its job. */
  function ResultOf(w: World, mode: Mode, s: Selector, work: Work, entry: Active, answer: Evaluation): Checked<Complex, Failure>
    requires Fits(w, work)
  {
    if entry.memo.Some? then Ok(entry.memo.value)
    else Settle(w, mode, work.state.point, entry.view, DependencyOf(s), answer)
  }

  /** Digesting that result is the candidate's step on the term. */
  lemma QueuedStep(w: World, mode: Mode, o: nat, t: nat, works: seq<Option<Work>>, entry: Active, jobs: seq<Job>, answer: Evaluation)
    requires Valid(w) && AllFit(w, works) && o < |w.objectives| && t < |Selectors(w, o)|
    requires Queued(mode, Selectors(w, o)[t], works, entry, jobs)
    requires entry.memo.None? ==> answer == w.answer(jobs[entry.slot])
    ensures var s, work := Selectors(w, o)[t], works[entry.index].value;
      StepTerm(w, mode, o, t, work) == Digest(w, mode, o, t, s, ResultOf(w, mode, s, work, entry, answer), work)
  {
  }

  lemma QueueSkip(mode: Mode, s: Selector, works: seq<Option<Work>>, active: seq<Active>, jobs: seq<Job>, n: nat)
    requires n < |works| && Queue(mode, s, works, active, jobs, n) && !Waiting(works, n)
    ensures Queue(mode, s, works, active, jobs, n + 1)
  {
  }

  /** What tells the jobs of one batch apart. */
  datatype JobId = JobId(objective: nat, term: nat, position: nat)

  datatype Reply = Reply(id: JobId, evaluation: Evaluation)

  const WrongReplies := Failure(OtherKind("compiler_invariant"), "benchmark_protocol", "")

  /** `checked_results`: a batch answered in another number or order of jobs is refused. */
  method CheckedResults(ids: seq<JobId>, replies: seq<Reply>) returns (results: Checked<seq<Evaluation>, Failure>)
    ensures results.Ok? <==> |replies| == |ids| && forall i :: 0 <= i < |ids| ==> replies[i].id == ids[i]
    ensures results.Ok? ==> |results.value| == |ids| && forall i :: 0 <= i < |ids| ==> results.value[i] == replies[i].evaluation
    ensures results.Raised? ==> results.error == WrongReplies
  {
    if |replies| != |ids| { return Raised(WrongReplies); }
    var evaluations: seq<Evaluation> := [];
    for i := 0 to |ids|
      invariant |evaluations| == i
      invariant forall k :: 0 <= k < i ==> replies[k].id == ids[k] && evaluations[k] == replies[k].evaluation
    {
      if replies[i].id != ids[i] { return Raised(WrongReplies); }
      evaluations := evaluations + [replies[i].evaluation];
    }
    results := Ok(evaluations);
  }

  class Evaluator {
    const w: World
    var anchors: map<Dependency, Complex>
    var cache: Cache

    constructor (world: World)
      ensures w == world && anchors == map[] && cache == map[]
    {
      w := world;
      anchors, cache := map[], map[];
    }

    /** The backend, which answers each job by its content and under its identity. */
    method EvaluateBatch(ids: seq<JobId>, jobs: seq<Job>) returns (replies: seq<Reply>)
      requires |ids| == |jobs|
      ensures |replies| == |jobs| && forall i :: 0 <= i < |jobs| ==> replies[i] == Reply(ids[i], w.answer(jobs[i]))
    {
      replies := [];
      for i := 0 to |jobs|
        invariant |replies| == i && forall k :: 0 <= k < i ==> replies[k] == Reply(ids[k], w.answer(jobs[k]))
      {
        replies := replies + [Reply(ids[i], w.answer(jobs[i]))];
      }
    }

    /** The answers of a batch in the order of its jobs. */
    method TimedResults(ids: seq<JobId>, jobs: seq<Job>) returns (results: seq<Evaluation>)
      requires |ids| == |jobs|
      ensures |results| == |jobs|
      ensures forall i :: 0 <= i < |jobs| ==> results[i] == w.answer(jobs[i])
    {
      var replies := EvaluateBatch(ids, jobs);
      var checked := CheckedResults(ids, replies);
      results := checked.value;
    }

    /** Queues the jobs of one leaf for every candidate that still needs it. */
    method QueueJobs(mode: Mode, s: Selector, works: seq<Option<Work>>)
      returns (queued: Checked<(seq<Active>, seq<Job>), Failure>)
      ensures queued.Ok? ==> Queue(mode, s, works, queued.value.0, queued.value.1, |works|)
      ensures queued.Raised? ==> queued.error == MissingKey && exists i: nat :: Unqueueable(mode, s, works, i)
    {
      var active: seq<Active>, jobs: seq<Job> := [], [];
      for i := 0 to |works|
        invariant Queue(mode, s, works, active, jobs, i)
      {
        queued := QueueNext(mode, s, works, active, jobs, i);
        if queued.Raised? { return; }
        active, jobs := queued.value.0, queued.value.1;
      }
      queued := Ok((active, jobs));
    }

    /** One candidate: passed over, answered from its memo, or with a job of its own. */
    method QueueNext(mode: Mode, s: Selector, works: seq<Option<Work>>, active: seq<Active>, jobs: seq<Job>, i: nat)
      returns (queued: Checked<(seq<Active>, seq<Job>), Failure>)
      requires i < |works| && Queue(mode, s, works, active, jobs, i)
      ensures queued.Ok? ==> Queue(mode, s, works, queued.value.0, queued.value.1, i + 1)
      ensures queued.Raised? ==> queued.error == MissingKey && Unqueueable(mode, s, works, i)
    {
      hide Queue;
      if works[i].None? || works[i].value.state.fault.Some? {
        QueueSkip(mode, s, works, active, jobs, i);
        return Ok((active, jobs));
      }
      var state := works[i].value.state;
      if s.view !in state.views { return Raised(MissingKey); }
      var view, d := state.views[s.view], DependencyOf(s);
      if d in state.roots {
        var entry := Active(i, view, Some(state.roots[d]), |jobs|);
        QueuePush(mode, s, works, active, jobs, i, entry, []);
        assert jobs + [] == jobs;
        return Ok((active + [entry], jobs));
      }
      var job := JobFor(mode, view, d);
      if job.Raised? { return Raised(job.error); }
      var entry := Active(i, view, None, |jobs|);
      QueuePush(mode, s, works, active, jobs, i, entry, [job.value]);
      queued := Ok((active + [entry], jobs + [job.value]));
    }

    /** Digests the results of a batch in queue order, updating the anchors of a
        baseline as its roots arrive. */
    method DigestAll(mode: Mode, o: nat, t: nat, works: seq<Option<Work>>, active: seq<Active>, jobs: seq<Job>,
                     results: seq<Evaluation>, known: map<Dependency, Complex>)
      returns (r: Checked<seq<Option<Work>>, Failure>, updated: map<Dependency, Complex>)
      requires Valid(w) && AllFit(w, works) && o < |w.objectives| && t < |Selectors(w, o)|
      requires Queue(mode, Selectors(w, o)[t], works, active, jobs, |works|)
      requires |results| == |jobs| && forall i :: 0 <= i < |jobs| ==> results[i] == w.answer(jobs[i])
      ensures mode.Candidate? ==> updated == known
      ensures r.Ok? ==> Digested(w, mode, o, t, works, r.value, active, |active|)
      ensures r.Ok? ==> DigestAnchors(mode, known, updated, Selectors(w, o)[t], r.value, |active|)
      ensures r.Raised? ==> exists i: nat :: StepRaises(w, mode, o, t, works, i, r.error)
    {
      var s := Selectors(w, o)[t];
      var out, next := works, 0;
      updated := known;
      for a := 0 to |active|
        invariant next == NextSlot(active[..a])
        invariant Digested(w, mode, o, t, works, out, active, a)
        invariant DigestAnchors(mode, known, updated, s, out, a)
      {
        var entry := active[a];
        NextSlotStep(active, a);
        assert Queued(mode, s, works, entry, jobs);
        var work := works[entry.index].value;
        var answer := if entry.memo.None? then results[next] else Solved(entry.memo.value);
        if entry.memo.None? {
          next := next + 1;
        }
        QueuedStep(w, mode, o, t, works, entry, jobs, answer);
        var result := ResultOf(w, mode, s, work, entry, answer);
        ghost var before := updated;
        if s.isRoot && mode.Baseline? && result.Ok? {
          updated := updated[DependencyOf(s) := result.value];
        }
        var digested := Digest(w, mode, o, t, s, result, work);
        if digested.Raised? {
          assert StepRaises(w, mode, o, t, works, entry.index, digested.error);
          return Raised(digested.error), updated;
        }
        DigestedGrow(w, mode, o, t, works, out, active, a, digested.value);
        AnchoredGrow(w, mode, o, t, s, out, known, before, updated, result, work, entry.index, a);
        out := out[entry.index := Some(digested.value)];
      }
      r := Ok(out);
    }

    /** Measures one leaf of every candidate: queue, evaluate the batch, digest. */
    method RunTerm(mode: Mode, o: nat, t: nat, works: seq<Option<Work>>)
      returns (r: Checked<seq<Option<Work>>, Failure>)
      requires Valid(w) && AllFit(w, works) && o < |w.objectives| && t < |Selectors(w, o)|
      modifies this`anchors
      ensures mode.Candidate? ==> anchors == old(anchors)
      ensures r.Ok? ==> Stepped(w, mode, o, t, works, r.value)
      ensures r.Raised? ==> exists i: nat :: StepRaises(w, mode, o, t, works, i, r.error)
      ensures r.Ok? && mode.Baseline? ==> AnchoredBy(old(anchors), anchors, Selectors(w, o)[t], r.value)
      ensures r.Ok? && mode.Baseline? && Selectors(w, o)[t].isRoot && (exists i :: 0 <= i < |works| && Waiting(works, i)) ==>
        DependencyOf(Selectors(w, o)[t]) in anchors
    {
      var queued := QueueJobs(mode, Selectors(w, o)[t], works);
      if queued.Raised? {
        var i: nat :| Unqueueable(mode, Selectors(w, o)[t], works, i);
        assert StepRaises(w, mode, o, t, works, i, queued.error);
        return Raised(queued.error);
      }
      var (active, jobs) := queued.value;
      var ids := seq(|jobs|, (i: nat) => JobId(o, t, i));
      var results := TimedResults(ids, jobs);
      r, anchors := DigestAll(mode, o, t, works, active, jobs, results, anchors);
      if r.Ok? {
        AllStepped(w, mode, o, t, works, active, jobs, r.value);
      }
    }

    /** Lowers every fresh candidate; repeats and known points take no state. */
    method PrepareAll(mode: Mode, points: seq<Point>)
      returns (r: Checked<seq<Option<State>>, Failure>, representatives: set<Point>)
      requires Valid(w) && AllCompatible(w, points)
      ensures r.Ok? ==> Prepared(w, mode, cache, points, r.value, |points|)
      ensures r.Ok? ==> forall p :: p in representatives <==> p in points && p !in cache
      ensures r.Raised? ==> exists i: nat :: EvaluationRaises(w, mode, cache, points, i, r.error)
    {
      var states: seq<Option<State>> := [];
      representatives := {};
      for i := 0 to |points|
        invariant Prepared(w, mode, cache, points, states, i)
        invariant forall p :: p in representatives <==> p in points[..i] && p !in cache
      {
        var values := points[i];
        assert points[..i + 1] == points[..i] + [values];
        if values in cache || values in representatives {
          states := states + [None];
          continue;
        }
        representatives := representatives + {values};
        var state := Prepare(w, mode, values);
        if state.Raised? {
          assert EvaluationRaises(w, mode, cache, points, i, state.error);
          return Raised(state.error), representatives;
        }
        states := states + [Some(state.value)];
      }
      assert points[..|points|] == points;
      r := Ok(states);
    }

    /** Measures the leaves of one objective in order, each for every candidate. */
    method MeasureAll(mode: Mode, o: nat, states: seq<Option<State>>)
      returns (r: Checked<seq<Option<Work>>, Failure>)
      requires Valid(w) && o < |w.objectives| && AllSound(w, mode, states, o)
      modifies this`anchors
      ensures mode.Candidate? ==> anchors == old(anchors)
      ensures r.Ok? ==> Measured(w, mode, o, states, r.value, |Selectors(w, o)|)
      ensures r.Raised? ==> exists i: nat :: ObjectiveRaises(w, mode, o, states, i, r.error)
      ensures r.Ok? && mode.Baseline? ==> AnchoredDirect(w, old(anchors), anchors, states)
      ensures r.Ok? && mode.Baseline? && (exists i :: 0 <= i < |states| && states[i].Some?) ==>
        Covers(w, anchors, o, |Selectors(w, o)|)
    {
      var works := seq(|states|, i requires 0 <= i < |states| =>
        if states[i].Some? then Some(Work(states[i].value, [], [])) else None);
      for t := 0 to |Selectors(w, o)|
        invariant Measured(w, mode, o, states, works, t)
        invariant MeasuredAnchors(w, mode, o, states, old(anchors), anchors, t)
      {
        var stepped := MeasureLeaf(mode, o, states, works, t, old(anchors));
        if stepped.Raised? {
          return Raised(stepped.error);
        }
        works := stepped.value;
      }
      r := Ok(works);
    }

    /** One leaf of one objective, measured for every candidate. */
    method MeasureLeaf(mode: Mode, o: nat, states: seq<Option<State>>, works: seq<Option<Work>>, t: nat,
                       ghost first: map<Dependency, Complex>)
      returns (r: Checked<seq<Option<Work>>, Failure>)
      requires Valid(w) && o < |w.objectives| && AllSound(w, mode, states, o) && t < |Selectors(w, o)|
      requires Measured(w, mode, o, states, works, t) && MeasuredAnchors(w, mode, o, states, first, anchors, t)
      modifies this`anchors
      ensures mode.Candidate? ==> anchors == old(anchors)
      ensures r.Ok? ==> Measured(w, mode, o, states, r.value, t + 1)
      ensures r.Ok? ==> MeasuredAnchors(w, mode, o, states, first, anchors, t + 1)
      ensures r.Raised? ==> exists i: nat :: ObjectiveRaises(w, mode, o, states, i, r.error)
    {
      ghost var before := anchors;
      r := RunTerm(mode, o, t, works);
      if r.Raised? {
        StepRaisesObjective(w, mode, o, states, works, t, r.error);
        return;
      }
      MeasuredStep(w, mode, o, states, works, t, r.value);
      if mode.Baseline? {
        LeafAnchors(w, o, states, works, t, r.value, first, before, anchors);
      }
    }

    /** Closes one objective of every candidate. */
    method CloseAll(mode: Mode, o: nat, states: seq<Option<State>>, works: seq<Option<Work>>)
      returns (r: Checked<seq<Option<State>>, Failure>)
      requires Valid(w) && o < |w.objectives| && StatesFit(w, states)
      requires Measured(w, mode, o, states, works, |Selectors(w, o)|)
      ensures r.Ok? ==> Advanced(w, mode, o, states, r.value, |states|)
      ensures r.Raised? ==> exists i: nat :: ObjectiveRaises(w, mode, o, states, i, r.error)
    {
      var closed: seq<Option<State>> := [];
      for i := 0 to |states|
        invariant Advanced(w, mode, o, states, closed, i)
      {
        if works[i].None? {
          closed := closed + [None];
          continue;
        }
        var state := CloseObjective(w, mode, o, works[i].value);
        if state.Raised? {
          assert ObjectiveRaises(w, mode, o, states, i, state.error);
          return Raised(state.error);
        }
        closed := closed + [Some(state.value)];
      }
      r := Ok(closed);
    }

    /** Evaluates a batch of points.  A completed batch returns what evaluating
        the points on their own gives and extends the cache by the fresh ones; a
        raised error leaves the cache alone and is one a point raises on its own. */
    method EvaluateMany(points: seq<Point>, baseline: bool) returns (r: Checked<seq<Result>, Failure>)
      requires Valid(w) && AllCompatible(w, points)
      modifies this
      ensures var eval := EvalIn(w, if baseline then Baseline else Candidate(old(anchors)));
        && (r.Ok? <==> Completes(eval, old(cache), points))
        && (r.Ok? ==> r.value == Results(eval, old(cache), points) && cache == CacheAfter(eval, old(cache), points))
        && (r.Raised? ==> exists p :: p in points && p !in old(cache) && eval(p) == Raised(r.error))
      ensures !baseline ==> anchors == old(anchors) && (r.Raised? ==> cache == old(cache))
      ensures baseline && r.Ok? ==> AnchorsMeasured(w, old(anchors), anchors, points)
      ensures baseline && r.Ok? && (exists p :: p in points && p !in old(cache)) ==>
        forall o :: 0 <= o < |w.objectives| ==> Covers(w, anchors, o, |Selectors(w, o)|)
    {
      var mode := if baseline then Baseline else Candidate(anchors);
      var prepared, representatives := PrepareAll(mode, points);
      if prepared.Raised? {
        RaisedAlone(w, mode, cache, points, prepared.error);
        return Raised(prepared.error);
      }
      var states := RunAll(mode, points, prepared.value);
      if states.Raised? {
        RaisedAlone(w, mode, cache, points, states.error);
        return Raised(states.error);
      }
      ghost var known := cache;
      var stored := Store(mode, points, states.value);
      if stored.Some? {
        return Raised(stored.value);
      }
      var results := Report(EvalIn(w, mode), known, points, representatives);
      r := Ok(results);
    }

    /** Runs the objectives in order, each for every candidate. */
    method RunAll(mode: Mode, points: seq<Point>, lowered: seq<Option<State>>)
      returns (r: Checked<seq<Option<State>>, Failure>)
      requires Valid(w) && AllCompatible(w, points) && Prepared(w, mode, cache, points, lowered, |points|)
      modifies this`anchors
      ensures mode.Candidate? ==> anchors == old(anchors)
      ensures r.Ok? ==> RanTo(w, mode, cache, points, r.value, |w.objectives|)
      ensures r.Raised? ==> exists i: nat :: EvaluationRaises(w, mode, cache, points, i, r.error)
      ensures r.Ok? && mode.Baseline? ==> AnchorsMeasured(w, old(anchors), anchors, points)
      ensures r.Ok? && mode.Baseline? && (exists p :: p in points && p !in cache) ==>
        forall o :: 0 <= o < |w.objectives| ==> Covers(w, anchors, o, |Selectors(w, o)|)
    {
      hide RanTo;
      var states := lowered;
      PreparedRan(w, mode, cache, points, states);
      for o := 0 to |w.objectives|
        invariant RanTo(w, mode, cache, points, states, o)
        invariant RunAnchors(w, mode, old(anchors), anchors, cache, points, o)
      {
        var ran := RunObjectiveOfAll(mode, points, states, o, old(anchors));
        if ran.Raised? {
          return Raised(ran.error);
        }
        states := ran.value;
      }
      RunEnds(w, mode, old(anchors), anchors, cache, points);
      r := Ok(states);
    }

    /** One objective, measured and closed for every candidate. */
    method RunObjectiveOfAll(mode: Mode, points: seq<Point>, states: seq<Option<State>>, o: nat,
                             ghost first: map<Dependency, Complex>)
      returns (r: Checked<seq<Option<State>>, Failure>)
      requires Valid(w) && AllCompatible(w, points) && o < |w.objectives| && RanTo(w, mode, cache, points, states, o)
      requires RunAnchors(w, mode, first, anchors, cache, points, o)
      modifies this`anchors
      ensures mode.Candidate? ==> anchors == old(anchors)
      ensures r.Ok? ==> RanTo(w, mode, cache, points, r.value, o + 1) && RunAnchors(w, mode, first, anchors, cache, points, o + 1)
      ensures r.Raised? ==> exists i: nat :: EvaluationRaises(w, mode, cache, points, i, r.error)
    {
      ghost var before := anchors;
      RanSound(w, mode, cache, points, states, o);
      var works := MeasureAll(mode, o, states);
      if works.Raised? {
        RanRaises(w, mode, cache, points, states, o, works.error);
        return Raised(works.error);
      }
      r := CloseAll(mode, o, states, works.value);
      if r.Raised? {
        RanRaises(w, mode, cache, points, states, o, r.error);
        return;
      }
      RoundStep(w, mode, cache, points, states, o, r.value, first, before, anchors);
    }

    /** Finishes every candidate and keeps its record. */
    method Store(mode: Mode, points: seq<Point>, states: seq<Option<State>>) returns (failed: Option<Failure>)
      requires Valid(w) && AllCompatible(w, points) && RanTo(w, mode, cache, points, states, |w.objectives|)
      modifies this`cache
      ensures var eval := EvalIn(w, mode);
        && (failed.None? ==> Completes(eval, old(cache), points) && cache == CacheAfter(eval, old(cache), points))
        && (failed.Some? ==> mode.Baseline? && exists p :: p in points && p !in old(cache) && eval(p) == Raised(failed.value))
    {
      ghost var eval := EvalIn(w, mode);
      ghost var known := cache;
      for i := 0 to |states|
        invariant Kept(eval, known, points, cache, i)
      {
        if states[i].None? {
          KeepKnown(eval, known, points, cache, i);
          continue;
        }
        assert RanPoint(w, mode, points[i], states[i], |w.objectives|);
        RanEvaluates(w, mode, points[i], states[i].value);
        var record := Finish(mode, states[i].value);
        if record.Raised? {
          assert points[i] in points && eval(points[i]) == Raised(record.error);
          return Some(record.error);
        }
        KeepFresh(eval, known, points, cache, i, record.value);
        cache := cache[points[i] := record.value];
      }
      assert points[..|points|] == points;
      failed := None;
    }

    /** Returns the kept records in the order of the points, flagging repeats. */
    method Report(ghost eval: Eval, ghost known: Cache, points: seq<Point>, representatives: set<Point>)
      returns (results: seq<Result>)
      requires Completes(eval, known, points) && cache == CacheAfter(eval, known, points)
      requires forall p :: p in representatives <==> p in points && p !in known
      ensures results == Results(eval, known, points)
    {
      var seen: set<Point> := {};
      results := [];
      for i := 0 to |points|
        invariant |results| == i && forall k :: 0 <= k < i ==> results[k] == ResultAt(eval, known, points, k)
        invariant forall p :: p in seen <==> p in points[..i]
      {
        var key := points[i];
        assert points[..i + 1] == points[..i] + [key];
        results := results + [Result(cache[key], key !in representatives || key in seen)];
        seen := seen + {key};
      }
    }
  }

  /** A waiting candidate without the view or the anchor its job needs. */
  predicate Unqueueable(mode: Mode, s: Selector, works: seq<Option<Work>>, i: nat) {
    i < |works| && Waiting(works, i) &&
    (s.view in works[i].value.state.views ==>
       DependencyOf(s) !in works[i].value.state.roots &&
       JobFor(mode, works[i].value.state.views[s.view], DependencyOf(s)).Raised?)
  }

  predicate StepRaises(w: World, mode: Mode, o: nat, t: nat, works: seq<Option<Work>>, i: nat, error: Failure)
    requires Valid(w) && AllFit(w, works) && o < |w.objectives| && t < |Selectors(w, o)|
  {
    i < |works| && works[i].Some? && StepTerm(w, mode, o, t, works[i].value) == Raised(error)
  }

  predicate ObjectiveRaises(w: World, mode: Mode, o: nat, states: seq<Option<State>>, i: nat, error: Failure)
    requires Valid(w) && o < |w.objectives| && StatesFit(w, states)
  {
    i < |states| && states[i].Some? && RunObjective(w, mode, o, states[i].value) == Raised(error)
  }

  /** A point the cache does not know cannot be evaluated on its own either. */
  predicate EvaluationRaises(w: World, mode: Mode, cache: Cache, points: seq<Point>, i: nat, error: Failure)
    requires Valid(w) && AllCompatible(w, points)
  {
    i < |points| && points[i] !in cache && Evaluated(w, mode, points[i]) == Raised(error)
  }

  /** Every fresh point has run its first n objectives, faultless if baseline. */
  ghost predicate RanTo(w: World, mode: Mode, cache: Cache, points: seq<Point>, states: seq<Option<State>>, n: nat)
    requires Valid(w) && AllCompatible(w, points) && n <= |w.objectives|
  {
    && |states| == |points| && StatesFit(w, states)
    && forall i :: 0 <= i < |points| ==>
         if Fresh(cache, points, i) then RanPoint(w, mode, points[i], states[i], n) else states[i].None?
  }

  ghost predicate RanPoint(w: World, mode: Mode, p: Point, state: Option<State>, n: nat)
    requires Valid(w) && Compatible(w.baseline, p) && n <= |w.objectives|
  {
    && state.Some? && state.value.point == p && Prepare(w, mode, p).Ok?
    && FoldObjectives(w, mode, Prepare(w, mode, p).value, n) == Ok(state.value)
    && Sound(w, mode, state.value, n)
    && (mode.Baseline? ==> state.value.fault.None?)
  }

  lemma PreparedRan(w: World, mode: Mode, cache: Cache, points: seq<Point>, states: seq<Option<State>>)
    requires Valid(w) && AllCompatible(w, points) && Prepared(w, mode, cache, points, states, |points|)
    ensures RanTo(w, mode, cache, points, states, 0)
  {
    forall i | 0 <= i < |points| && Fresh(cache, points, i) ensures RanPoint(w, mode, points[i], states[i], 0) {
      PreparedSound(w, mode, points[i]);
      if mode.Baseline? && w.compile(points[i]).Ok? {
        BaselineViews(w, w.compile(points[i]).value, AllSelectors(w, |w.objectives|), NewState(points[i]));
      }
    }
  }

  lemma RanOne(w: World, mode: Mode, p: Point, state: State, n: nat)
    requires Valid(w) && Compatible(w.baseline, p) && n < |w.objectives|
    requires RanPoint(w, mode, p, Some(state), n) && RunObjective(w, mode, n, state).Ok?
    ensures RanPoint(w, mode, p, Some(RunObjective(w, mode, n, state).value), n + 1)
  {
    var start := Prepare(w, mode, p).value;
    PreparedSound(w, mode, p);
    ObjectivesSound(w, mode, start, n + 1);
    if mode.Baseline? {
      BaselineObjective(w, n, state);
    }
  }

  /** The first n candidates have run the objective. */
  ghost predicate Advanced(w: World, mode: Mode, o: nat, states: seq<Option<State>>, after: seq<Option<State>>, n: nat)
    requires Valid(w) && o < |w.objectives| && StatesFit(w, states) && n <= |states|
  {
    |after| == n && forall i :: 0 <= i < n ==>
      if states[i].Some? then after[i].Some? && RunObjective(w, mode, o, states[i].value) == Ok(after[i].value)
      else after[i].None?
  }

  /** Candidates ready for objective o; those of a baseline have no fault. */
  ghost predicate AllSound(w: World, mode: Mode, states: seq<Option<State>>, o: nat)
    requires Valid(w) && o <= |w.objectives|
  {
    && StatesFit(w, states)
    && (forall i :: 0 <= i < |states| && states[i].Some? ==> Sound(w, mode, states[i].value, o))
    && (mode.Baseline? ==> forall i :: 0 <= i < |states| && states[i].Some? ==> states[i].value.fault.None?)
  }

  lemma StepRaisesObjective(w: World, mode: Mode, o: nat, states: seq<Option<State>>, works: seq<Option<Work>>, t: nat,
                            error: Failure)
    requires Valid(w) && o < |w.objectives| && StatesFit(w, states) && t < |Selectors(w, o)|
    requires Measured(w, mode, o, states, works, t)
    requires exists i: nat :: StepRaises(w, mode, o, t, works, i, error)
    ensures exists i: nat :: ObjectiveRaises(w, mode, o, states, i, error)
  {
    var i: nat :| StepRaises(w, mode, o, t, works, i, error);
    assert FoldTerms(w, mode, o, states[i].value, t + 1) == Raised(error);
    TermsRaise(w, mode, o, states[i].value, t + 1, |Selectors(w, o)|);
    assert ObjectiveRaises(w, mode, o, states, i, error);
  }

  lemma RanStep(w: World, mode: Mode, cache: Cache, points: seq<Point>, states: seq<Option<State>>, n: nat,
                after: seq<Option<State>>)
    requires Valid(w) && AllCompatible(w, points) && n < |w.objectives| && RanTo(w, mode, cache, points, states, n)
    requires Advanced(w, mode, n, states, after, |states|)
    ensures RanTo(w, mode, cache, points, after, n + 1)
  {
    forall i | 0 <= i < |points| && Fresh(cache, points, i) ensures RanPoint(w, mode, points[i], after[i], n + 1) {
      assert RanPoint(w, mode, points[i], states[i], n);
      RanOne(w, mode, points[i], states[i].value, n);
    }
    forall i | 0 <= i < |points| && after[i].Some? ensures Compatible(w.baseline, after[i].value.point) {
      assert RanPoint(w, mode, points[i], after[i], n + 1);
    }
  }

  lemma RanSound(w: World, mode: Mode, cache: Cache, points: seq<Point>, states: seq<Option<State>>, n: nat)
    requires Valid(w) && AllCompatible(w, points) && n <= |w.objectives| && RanTo(w, mode, cache, points, states, n)
    ensures AllSound(w, mode, states, n)
    ensures forall i :: 0 <= i < |states| && states[i].Some? ==> states[i].value.point == points[i]
  {
    forall i | 0 <= i < |states| && states[i].Some? ensures RanPoint(w, mode, points[i], states[i], n) {
    }
  }

  /** A candidate that ran every objective evaluates as its state finishes. */
  lemma RanEvaluates(w: World, mode: Mode, p: Point, state: State)
    requires Valid(w) && Compatible(w.baseline, p) && RanPoint(w, mode, p, Some(state), |w.objectives|)
    ensures EvalIn(w, mode)(p) == Finish(mode, state)
  {
  }

  lemma RanRaises(w: World, mode: Mode, cache: Cache, points: seq<Point>, states: seq<Option<State>>, o: nat, error: Failure)
    requires Valid(w) && AllCompatible(w, points) && o < |w.objectives| && RanTo(w, mode, cache, points, states, o)
    requires exists i: nat :: ObjectiveRaises(w, mode, o, states, i, error)
    ensures exists i: nat :: EvaluationRaises(w, mode, cache, points, i, error)
  {
    var i: nat :| ObjectiveRaises(w, mode, o, states, i, error);
    assert RanPoint(w, mode, points[i], states[i], o);
    RanPointRaises(w, mode, points[i], states[i].value, o, error);
    assert EvaluationRaises(w, mode, cache, points, i, error);
  }

  lemma RanPointRaises(w: World, mode: Mode, p: Point, state: State, o: nat, error: Failure)
    requires Valid(w) && Compatible(w.baseline, p) && o < |w.objectives| && RanPoint(w, mode, p, Some(state), o)
    requires RunObjective(w, mode, o, state) == Raised(error)
    ensures EvalIn(w, mode)(p) == Raised(error)
  {
    hide RunObjective;
    var start := Prepare(w, mode, p).value;
    assert FoldObjectives(w, mode, start, o + 1) == Raised(error);
    ObjectivesRaise(w, mode, start, o + 1, |w.objectives|);
  }

  lemma RaisedAlone(w: World, mode: Mode, cache: Cache, points: seq<Point>, error: Failure)
    requires Valid(w) && AllCompatible(w, points)
    requires exists i: nat :: EvaluationRaises(w, mode, cache, points, i, error)
    ensures exists p :: p in points && p !in cache && EvalIn(w, mode)(p) == Raised(error)
  {
    var i: nat :| EvaluationRaises(w, mode, cache, points, i, error);
    assert points[i] in points && EvalIn(w, mode)(points[i]) == Raised(error);
  }

  /** The cache holds the records of the first n points. */
  ghost predicate Kept(eval: Eval, known: Cache, points: seq<Point>, cache: Cache, n: nat)
    requires n <= |points|
  {
    Completes(eval, known, points[..n]) && cache == CacheAfter(eval, known, points[..n])
  }

  lemma KeepKnown(eval: Eval, known: Cache, points: seq<Point>, cache: Cache, n: nat)
    requires n < |points| && Kept(eval, known, points, cache, n) && !Fresh(known, points, n)
    ensures Kept(eval, known, points, cache, n + 1)
  {
    assert points[..n + 1] == points[..n] + [points[n]];
    assert forall p :: p in points[..n + 1] && p !in known <==> p in points[..n] && p !in known;
  }

  lemma KeepFresh(eval: Eval, known: Cache, points: seq<Point>, cache: Cache, n: nat, record: Record)
    requires n < |points| && Kept(eval, known, points, cache, n) && Fresh(known, points, n)
    requires eval(points[n]) == Ok(record)
    ensures Kept(eval, known, points, cache[points[n] := record], n + 1)
  {
    assert points[..n + 1] == points[..n] + [points[n]];
    LastResult(eval, known, points[..n], points[n]);
  }

  // ---- The anchors of a baseline ---------------------------------------------------------

  predicate MeasuredAt(w: World, points: seq<Point>, i: nat, d: Dependency, z: Complex) {
    i < |points| && Compatible(w.baseline, points[i]) && Direct(w, Baseline, points[i], d) == Ok(z)
  }

  /** Anchors are kept, and every new value is a root measured at one of the points. */
  ghost predicate AnchorsMeasured(w: World, before: map<Dependency, Complex>, after: map<Dependency, Complex>,
                                  points: seq<Point>) {
    && (forall d :: d in before ==> d in after)
    && (forall d :: d in after ==>
          (d in before && after[d] == before[d]) || exists i: nat :: MeasuredAt(w, points, i, d, after[d]))
  }

  lemma AnchorsOfPoints(w: World, points: seq<Point>, states: seq<Option<State>>,
                        first: map<Dependency, Complex>, before: map<Dependency, Complex>, after: map<Dependency, Complex>)
    requires |states| == |points| && forall i :: 0 <= i < |states| && states[i].Some? ==> states[i].value.point == points[i]
    requires AnchorsMeasured(w, first, before, points) && AnchoredDirect(w, before, after, states)
    ensures AnchorsMeasured(w, first, after, points)
  {
    forall d | d in after && !(d in first && after[d] == first[d])
      ensures exists i: nat :: MeasuredAt(w, points, i, d, after[d])
    {
      if !(d in before && after[d] == before[d]) {
        var i: nat :| MeasuredFor(w, states, i, d, after[d]);
        assert MeasuredAt(w, points, i, d, after[d]);
      }
    }
  }

  /** The anchors after n objectives: untouched unless this is a baseline, which
      measures every root leaf if it evaluates anything. */
  ghost predicate RunAnchors(w: World, mode: Mode, first: map<Dependency, Complex>, anchors: map<Dependency, Complex>,
                             cache: Cache, points: seq<Point>, n: nat)
    requires n <= |w.objectives|
  {
    if mode.Candidate? then anchors == first
    else
      && AnchorsMeasured(w, first, anchors, points)
      && ((exists p :: p in points && p !in cache) ==>
            forall k :: 0 <= k < n ==> Covers(w, anchors, k, |Selectors(w, k)|))
  }

  lemma RunEnds(w: World, mode: Mode, first: map<Dependency, Complex>, anchors: map<Dependency, Complex>,
                cache: Cache, points: seq<Point>)
    requires RunAnchors(w, mode, first, anchors, cache, points, |w.objectives|)
    ensures mode.Candidate? ==> anchors == first
    ensures mode.Baseline? ==> AnchorsMeasured(w, first, anchors, points)
    ensures mode.Baseline? && (exists p :: p in points && p !in cache) ==>
      forall o :: 0 <= o < |w.objectives| ==> Covers(w, anchors, o, |Selectors(w, o)|)
  {
  }

  lemma RunAnchorsStep(w: World, cache: Cache, points: seq<Point>, states: seq<Option<State>>, n: nat,
                       first: map<Dependency, Complex>, before: map<Dependency, Complex>, after: map<Dependency, Complex>)
    requires |states| == |points| && n < |w.objectives|
    requires forall i :: 0 <= i < |states| && states[i].Some? ==> states[i].value.point == points[i]
    requires forall i :: 0 <= i < |points| && Fresh(cache, points, i) ==> states[i].Some?
    requires RunAnchors(w, Baseline, first, before, cache, points, n) && AnchoredDirect(w, before, after, states)
    requires (exists i :: 0 <= i < |states| && states[i].Some?) ==> Covers(w, after, n, |Selectors(w, n)|)
    ensures RunAnchors(w, Baseline, first, after, cache, points, n + 1)
  {
    AnchorsOfPoints(w, points, states, first, before, after);
    if exists p :: p in points && p !in cache {
      FirstOccurrence(cache, points);
      forall k | 0 <= k < n + 1 ensures Covers(w, after, k, |Selectors(w, k)|) {
        if k < n {
          assert Covers(w, before, k, |Selectors(w, k)|);
        }
      }
    }
  }

  /** One objective takes every candidate and the anchors one round further. */
  lemma RoundStep(w: World, mode: Mode, cache: Cache, points: seq<Point>, states: seq<Option<State>>, n: nat,
                  after: seq<Option<State>>, first: map<Dependency, Complex>, before: map<Dependency, Complex>,
                  anchors: map<Dependency, Complex>)
    requires Valid(w) && AllCompatible(w, points) && n < |w.objectives|
    requires RanTo(w, mode, cache, points, states, n) && Advanced(w, mode, n, states, after, |states|)
    requires RunAnchors(w, mode, first, before, cache, points, n)
    requires mode.Candidate? ==> anchors == before
    requires mode.Baseline? ==> AnchoredDirect(w, before, anchors, states)
    requires mode.Baseline? && (exists i :: 0 <= i < |states| && states[i].Some?) ==> Covers(w, anchors, n, |Selectors(w, n)|)
    ensures RanTo(w, mode, cache, points, after, n + 1)
    ensures RunAnchors(w, mode, first, anchors, cache, points, n + 1)
  {
    RanStep(w, mode, cache, points, states, n, after);
    if mode.Baseline? {
      RanSound(w, mode, cache, points, states, n);
      assert forall i :: 0 <= i < |points| && Fresh(cache, points, i) ==> RanPoint(w, mode, points[i], states[i], n);
      RunAnchorsStep(w, cache, points, states, n, first, before, anchors);
    }
  }

  lemma FirstOccurrence(cache: Cache, points: seq<Point>)
    requires exists p :: p in points && p !in cache
    ensures exists i :: 0 <= i < |points| && Fresh(cache, points, i)
  {
    var i :| 0 <= i < |points| && points[i] !in cache;
    while points[i] in points[..i]
      invariant 0 <= i < |points| && points[i] !in cache
      decreases i
    {
      var k :| 0 <= k < i && points[k] == points[i];
      i := k;
    }
    assert Fresh(cache, points, i);
  }

  predicate HoldsRoot(out: seq<Option<Work>>, i: nat, d: Dependency, z: Complex) {
    i < |out| && out[i].Some? && d in out[i].value.state.roots && out[i].value.state.roots[d] == z
  }

  /** Only the anchor of the measured root may have changed, to a root some
      candidate now holds. */
  ghost predicate AnchoredBy(before: map<Dependency, Complex>, after: map<Dependency, Complex>, s: Selector,
                             out: seq<Option<Work>>) {
    && (forall d :: d in before ==> d in after)
    && (forall d :: d in after ==>
          || (d in before && after[d] == before[d])
          || (s.isRoot && d == DependencyOf(s) && exists i: nat :: HoldsRoot(out, i, d, after[d])))
  }

  /** The anchors of the first n root leaves of an objective are set. */
  predicate Covers(w: World, anchors: map<Dependency, Complex>, o: nat, n: nat)
    requires o < |w.objectives| && n <= |Selectors(w, o)|
  {
    forall t :: 0 <= t < n && Selectors(w, o)[t].isRoot ==> DependencyOf(Selectors(w, o)[t]) in anchors
  }

  predicate MeasuredFor(w: World, states: seq<Option<State>>, i: nat, d: Dependency, z: Complex) {
    i < |states| && states[i].Some? && Compatible(w.baseline, states[i].value.point) &&
    Direct(w, Baseline, states[i].value.point, d) == Ok(z)
  }

  /** Anchors are kept, and every new value is a root measured at one of the points. */
  ghost predicate AnchoredDirect(w: World, before: map<Dependency, Complex>, after: map<Dependency, Complex>,
                                 states: seq<Option<State>>) {
    && (forall d :: d in before ==> d in after)
    && (forall d :: d in after ==>
          (d in before && after[d] == before[d]) || exists i: nat :: MeasuredFor(w, states, i, d, after[d]))
  }

  lemma StepAnchors(w: World, o: nat, states: seq<Option<State>>, t: nat, out: seq<Option<Work>>,
                    first: map<Dependency, Complex>, before: map<Dependency, Complex>, after: map<Dependency, Complex>)
    requires Valid(w) && o < |w.objectives| && StatesFit(w, states) && t < |Selectors(w, o)|
    requires AllSound(w, Baseline, states, o) && Measured(w, Baseline, o, states, out, t + 1)
    requires AnchoredDirect(w, first, before, states) && AnchoredBy(before, after, Selectors(w, o)[t], out)
    ensures AnchoredDirect(w, first, after, states)
  {
    forall d | d in after
      ensures (d in first && after[d] == first[d]) || exists i: nat :: MeasuredFor(w, states, i, d, after[d])
    {
      if !(d in before && after[d] == before[d]) {
        var i: nat :| HoldsRoot(out, i, d, after[d]);
        TermsSound(w, Baseline, o, states[i].value, t + 1);
        assert MeasuredFor(w, states, i, d, after[d]);
      }
    }
  }

  /** The anchors once the first `t` leaves of an objective are measured. */
  ghost predicate MeasuredAnchors(w: World, mode: Mode, o: nat, states: seq<Option<State>>, first: map<Dependency, Complex>,
                                  anchors: map<Dependency, Complex>, t: nat)
    requires Valid(w) && o < |w.objectives| && t <= |Selectors(w, o)| && AllSound(w, mode, states, o)
  {
    if mode.Candidate? then anchors == first
    else
      && AnchoredDirect(w, first, anchors, states)
      && ((exists i :: 0 <= i < |states| && states[i].Some?) ==> Covers(w, anchors, o, t))
  }

  /** Measuring one more leaf of a baseline anchors it. */
  lemma LeafAnchors(w: World, o: nat, states: seq<Option<State>>, works: seq<Option<Work>>, t: nat, out: seq<Option<Work>>,
                    first: map<Dependency, Complex>, before: map<Dependency, Complex>, after: map<Dependency, Complex>)
    requires Valid(w) && o < |w.objectives| && t < |Selectors(w, o)| && AllSound(w, Baseline, states, o)
    requires Measured(w, Baseline, o, states, works, t) && Measured(w, Baseline, o, states, out, t + 1)
    requires MeasuredAnchors(w, Baseline, o, states, first, before, t) && AnchoredBy(before, after, Selectors(w, o)[t], out)
    requires Selectors(w, o)[t].isRoot && (exists i :: 0 <= i < |works| && Waiting(works, i)) ==> DependencyOf(Selectors(w, o)[t]) in after
    ensures MeasuredAnchors(w, Baseline, o, states, first, after, t + 1)
  {
    hide Sound, FoldTerms;
    BaselineWaits(w, o, states, works, t);
    StepAnchors(w, o, states, t, out, first, before, after);
  }

  // ---- The baseline has no faults ------------------------------------------------------

  lemma {:induction false} BaselineTerms(w: World, o: nat, state: State, n: nat)
    requires Valid(w) && Compatible(w.baseline, state.point) && o < |w.objectives| && n <= |Selectors(w, o)|
    requires state.fault.None? && FoldTerms(w, Baseline, o, state, n).Ok?
    ensures FoldTerms(w, Baseline, o, state, n).value.state.fault.None?
  {
    if n > 0 {
      BaselineTerms(w, o, state, n - 1);
    }
  }

  lemma BaselineWaits(w: World, o: nat, states: seq<Option<State>>, works: seq<Option<Work>>, n: nat)
    requires Valid(w) && o < |w.objectives| && StatesFit(w, states) && n <= |Selectors(w, o)|
    requires Measured(w, Baseline, o, states, works, n)
    requires forall i :: 0 <= i < |states| && states[i].Some? ==> states[i].value.fault.None?
    ensures forall i :: 0 <= i < |states| && states[i].Some? ==> Waiting(works, i)
  {
    forall i | 0 <= i < |states| && states[i].Some? ensures Waiting(works, i) {
      BaselineTerms(w, o, states[i].value, n);
    }
  }

  lemma BaselineObjective(w: World, o: nat, state: State)
    requires Valid(w) && Compatible(w.baseline, state.point) && o < |w.objectives|
    requires state.fault.None? && RunObjective(w, Baseline, o, state).Ok?
    ensures RunObjective(w, Baseline, o, state).value.fault.None?
  {
    BaselineTerms(w, o, state, |Selectors(w, o)|);
  }

  lemma {:induction false} BaselineViews(w: World, model: Model, selectors: seq<Selector>, state: State)
    requires state.fault.None? && RealizeViews(w, Baseline, model, selectors, state).Ok?
    ensures RealizeViews(w, Baseline, model, selectors, state).value.fault.None?
  {
    if selectors != [] {
      if selectors[0].view in state.views {
        BaselineViews(w, model, selectors[1..], state);
      } else if w.realize(model, selectors[0].view).Ok? {
        var view := w.realize(model, selectors[0].view).value;
        BaselineViews(w, model, selectors[1..], state.(views := state.views[selectors[0].view := view]));
      }
    }
  }

  predicate StatesFit(w: World, states: seq<Option<State>>) {
    forall i :: 0 <= i < |states| && states[i].Some? ==> Compatible(w.baseline, states[i].value.point)
  }

  /** The first n points are lowered where they are fresh. */
  ghost predicate Prepared(w: World, mode: Mode, cache: Cache, points: seq<Point>, states: seq<Option<State>>, n: nat)
    requires Valid(w) && n <= |points|
  {
    |states| == n &&
    forall i :: 0 <= i < n ==>
      if Fresh(cache, points, i) then states[i].Some? && Prepare(w, mode, points[i]) == Ok(states[i].value)
      else states[i].None?
  }

  /** Every candidate has taken its first n terms of the objective. */
  ghost predicate Measured(w: World, mode: Mode, o: nat, states: seq<Option<State>>, works: seq<Option<Work>>, n: nat)
    requires Valid(w) && o < |w.objectives| && StatesFit(w, states) && n <= |Selectors(w, o)|
  {
    |works| == |states| && AllFit(w, works) &&
    forall i :: 0 <= i < |states| ==>
      if states[i].Some? then works[i].Some? && FoldTerms(w, mode, o, states[i].value, n) == Ok(works[i].value)
      else works[i].None?
  }

  /** The first n entries have been digested and nothing else has changed. */
  ghost predicate Digested(w: World, mode: Mode, o: nat, t: nat, works: seq<Option<Work>>, out: seq<Option<Work>>,
                           active: seq<Active>, n: nat)
    requires Valid(w) && AllFit(w, works) && o < |w.objectives| && t < |Selectors(w, o)| && n <= |active|
  {
    && |out| == |works|
    && (forall b :: 0 <= b < n ==> DigestedAt(w, mode, o, t, works, out, active[b].index))
    && (forall i :: 0 <= i < |works| && (forall b :: 0 <= b < n ==> active[b].index != i) ==> out[i] == works[i])
  }

  lemma DigestedGrow(w: World, mode: Mode, o: nat, t: nat, works: seq<Option<Work>>, out: seq<Option<Work>>,
                     active: seq<Active>, a: nat, work: Work)
    requires Valid(w) && AllFit(w, works) && o < |w.objectives| && t < |Selectors(w, o)| && a < |active|
    requires InOrder(active) && Digested(w, mode, o, t, works, out, active, a)
    requires active[a].index < |works| && works[active[a].index].Some?
    requires StepTerm(w, mode, o, t, works[active[a].index].value) == Ok(work)
    ensures Digested(w, mode, o, t, works, out[active[a].index := Some(work)], active, a + 1)
  {
    var next := out[active[a].index := Some(work)];
    forall b | 0 <= b < a + 1 ensures DigestedAt(w, mode, o, t, works, next, active[b].index) {
      if b < a {
        assert active[b].index < active[a].index;
        assert DigestedAt(w, mode, o, t, works, out, active[b].index);
      }
    }
    forall i | 0 <= i < |works| && (forall b :: 0 <= b < a + 1 ==> active[b].index != i) ensures next[i] == works[i] {
      assert active[a].index != i;
      forall b | 0 <= b < a ensures active[b].index != i {
      }
    }
  }

  /** The anchors after the first n entries: untouched unless this is a baseline. */
  ghost predicate DigestAnchors(mode: Mode, first: map<Dependency, Complex>, anchors: map<Dependency, Complex>, s: Selector,
                                out: seq<Option<Work>>, n: nat) {
    if mode.Candidate? then anchors == first
    else AnchoredBy(first, anchors, s, out) && (s.isRoot && n > 0 ==> DependencyOf(s) in anchors)
  }

  /** The anchor a digested baseline result sets is the root its candidate holds. */
  lemma AnchoredGrow(w: World, mode: Mode, o: nat, t: nat, s: Selector, out: seq<Option<Work>>,
                     first: map<Dependency, Complex>, before: map<Dependency, Complex>, after: map<Dependency, Complex>,
                     result: Checked<Complex, Failure>, work: Work, i: nat, n: nat)
    requires Valid(w) && i < |out| && DigestAnchors(mode, first, before, s, out, n)
    requires after == if s.isRoot && mode.Baseline? && result.Ok? then before[DependencyOf(s) := result.value] else before
    requires Digest(w, mode, o, t, s, result, work).Ok?
    ensures DigestAnchors(mode, first, after, s, out[i := Some(Digest(w, mode, o, t, s, result, work).value)], n + 1)
  {
    if mode.Baseline? {
      var next := out[i := Some(Digest(w, mode, o, t, s, result, work).value)];
      assert result.Ok?;
      forall d | d in after
        ensures || (d in first && after[d] == first[d])
                || (s.isRoot && d == DependencyOf(s) && exists k: nat :: HoldsRoot(next, k, d, after[d]))
      {
        if s.isRoot && d == DependencyOf(s) {
          assert HoldsRoot(next, i, d, after[d]);
        }
      }
    }
  }

  /** Candidates that did not wait are where a step leaves them. */
  lemma AllStepped(w: World, mode: Mode, o: nat, t: nat, works: seq<Option<Work>>, active: seq<Active>, jobs: seq<Job>,
                   out: seq<Option<Work>>)
    requires Valid(w) && AllFit(w, works) && o < |w.objectives| && t < |Selectors(w, o)|
    requires Queue(mode, Selectors(w, o)[t], works, active, jobs, |works|) && |out| == |works|
    requires Digested(w, mode, o, t, works, out, active, |active|)
    ensures Stepped(w, mode, o, t, works, out)
  {
    forall i | 0 <= i < |works|
      ensures if works[i].Some? then DigestedAt(w, mode, o, t, works, out, i) else out[i].None?
    {
      if Waiting(works, i) {
        var a :| 0 <= a < |active| && active[a].index == i;
      } else {
        forall b | 0 <= b < |active| ensures active[b].index != i {
          assert Queued(mode, Selectors(w, o)[t], works, active[b], jobs);
        }
      }
    }
  }

  lemma MeasuredStep(w: World, mode: Mode, o: nat, states: seq<Option<State>>, works: seq<Option<Work>>, n: nat,
                     out: seq<Option<Work>>)
    requires Valid(w) && o < |w.objectives| && StatesFit(w, states) && n < |Selectors(w, o)|
    requires Measured(w, mode, o, states, works, n) && Stepped(w, mode, o, n, works, out)
    ensures Measured(w, mode, o, states, out, n + 1)
  {
    forall i | 0 <= i < |states| && states[i].Some?
      ensures out[i].Some? && FoldTerms(w, mode, o, states[i].value, n + 1) == Ok(out[i].value)
      ensures Fits(w, out[i].value)
    {
      assert DigestedAt(w, mode, o, n, works, out, i);
    }
  }

  predicate DigestedAt(w: World, mode: Mode, o: nat, t: nat, works: seq<Option<Work>>, out: seq<Option<Work>>, i: nat)
    requires Valid(w) && AllFit(w, works) && o < |w.objectives| && t < |Selectors(w, o)|
  {
    i < |works| == |out| && works[i].Some? && out[i].Some? &&
    StepTerm(w, mode, o, t, works[i].value) == Ok(out[i].value)
  }

  /** Every candidate took one step on the leaf. */
  ghost predicate Stepped(w: World, mode: Mode, o: nat, t: nat, works: seq<Option<Work>>, out: seq<Option<Work>>)
    requires Valid(w) && AllFit(w, works) && o < |w.objectives| && t < |Selectors(w, o)|
  {
    |works| == |out| &&
    forall i :: 0 <= i < |works| ==> if works[i].Some? then DigestedAt(w, mode, o, t, works, out, i) else out[i].None?
  }
}
