/** The reduction language of network views, interpreted symbolically. */
module Reduce {
  // What `reduce` derives, and that it acts as a monoid on views.

  import opened Common
  import opened Names

  /** A coordinate as a caller names it; the two handles know whether they belong to this plan. */
  datatype Spelling = Text(id: string) | NodeHandle(own: bool, id: string) | ScopedHandle(own: bool, key: string)

  datatype Port = Port(id: string, own: bool, probe: bool)

  /** The plan's Ports in order, and its alias table; an ambiguous alias resolves to nothing. */
  datatype Plan = Plan(ports: seq<Port>, lookup: map<string, Option<string>>)

  datatype Pair = Pair(left: Spelling, right: Spelling, id: string)

  datatype Pipeline = Pipeline(ptc: Option<seq<Port>>, pairs: seq<Pair>, retained: Option<seq<Spelling>>)

  datatype Load = NotPort | Raw | Compensated

  datatype Transform = Transform(id: string, left: string, right: string, common: string, differential: string)

  /** A lazy view: its lineage, its current coordinates, and which of them stand for Ports. */
  datatype View = View(
    ptc: Option<seq<string>>,
    transforms: seq<Transform>,
    retained: seq<string>,
    available: seq<string>,
    ports: map<string, string>,
    loads: map<string, Load>)

  const Empty := Pipeline(None, [], None)

  // ---- Building pipelines -----------------------------------------------------------------------

  predicate UniquePorts(ports: seq<Port>) {
    forall i, j :: 0 <= i < j < |ports| ==> ports[i] != ports[j]
  }

  /** `ptc` comes at most once, and first. */
  function BuildPtc(p: Pipeline, ports: seq<Port>): Option<Pipeline> {
    if p.ptc.Some? || p.pairs != [] || p.retained.Some? || ports == [] || !UniquePorts(ports) then None
    else Some(p.(ptc := Some(ports)))
  }

  predicate IdUsed(pairs: seq<Pair>, id: string) {
    exists i :: 0 <= i < |pairs| && pairs[i].id == id
  }

  function BuildPair(p: Pipeline, pair: Pair): Option<Pipeline> {
    if p.retained.Some? || IdUsed(p.pairs, pair.id) then None else Some(p.(pairs := p.pairs + [pair]))
  }

  function BuildPairs(p: Pipeline, pairs: seq<Pair>, n: nat): Option<Pipeline>
    requires n <= |pairs|
  {
    if n == 0 then Some(p)
    else
      var before := BuildPairs(p, pairs, n - 1);
      if before.None? then None else BuildPair(before.value, pairs[n - 1])
  }

  /** `retain` ends a pipeline. */
  function BuildRetain(p: Pipeline, coordinates: seq<Spelling>): Option<Pipeline> {
    if p.retained.Some? || coordinates == [] then None else Some(p.(retained := Some(coordinates)))
  }

  /** The steps of `q` declared after those of `p`, if the grammar allows it. */
  function Then(p: Pipeline, q: Pipeline): Option<Pipeline> {
    var first := if q.ptc.Some? then BuildPtc(p, q.ptc.value) else Some(p);
    if first.None? then None
    else
      var second := BuildPairs(first.value, q.pairs, |q.pairs|);
      if second.None? || q.retained.None? then second else BuildRetain(second.value, q.retained.value)
  }

  lemma {:induction false} PairsBuilt(p: Pipeline, pairs: seq<Pair>, n: nat)
    requires n <= |pairs| && BuildPairs(p, pairs, n).Some?
    ensures BuildPairs(p, pairs, n).value == p.(pairs := p.pairs + pairs[..n])
    ensures n > 0 ==> p.retained.None?
  {
    if n > 0 {
      PairsBuilt(p, pairs, n - 1);
      assert pairs[..n] == pairs[..n - 1] + [pairs[n - 1]];
      assert p.pairs + pairs[..n - 1] + [pairs[n - 1]] == p.pairs + pairs[..n];
    } else {
      assert p.pairs + pairs[..0] == p.pairs;
    }
  }

  // ---- Deriving views ---------------------------------------------------------------------------

  /** A current coordinate is itself; anything else goes through the alias table. */
  function Resolve(plan: Plan, available: seq<string>, spelling: Spelling): Option<string> {
    match spelling
    case Text(id) => if id in available then Some(id) else Lookup(plan, id)
    case NodeHandle(own, id) => if own then Lookup(plan, id) else None
    case ScopedHandle(own, key) => if own then Lookup(plan, key) else None
  }

  function Lookup(plan: Plan, id: string): Option<string> {
    if id in plan.lookup then plan.lookup[id] else None
  }

  function CommonId(id: string): string {
    id + ".common"
  }

  function DifferentialId(id: string): string {
    id + ".differential"
  }

  function LoadOf(loads: map<string, Load>, coordinate: string): Load {
    if coordinate in loads then loads[coordinate] else NotPort
  }

  predicate Collides(plan: Plan, available: seq<string>, coordinate: string) {
    coordinate in available || coordinate in plan.lookup
  }

  function Min(a: nat, b: nat): nat {
    if a < b then a else b
  }

  /** The two outputs take the place of the earlier input. */
  function Replaced(available: seq<string>, left: string, right: string, common: string, differential: string): seq<string> {
    var rest := Without(available, left, right);
    var at := Min(Min(IndexOf(available, left), IndexOf(available, right)), |rest|);
    rest[..at] + [common, differential] + rest[at..]
  }

  predicate PairAllowed(plan: Plan, view: View, left: string, right: string, id: string) {
    && left != right && left in view.available && right in view.available
    && !Collides(plan, view.available, CommonId(id)) && !Collides(plan, view.available, DifferentialId(id))
    && (LoadOf(view.loads, left) == LoadOf(view.loads, right)
        || LoadOf(view.loads, left).NotPort? || LoadOf(view.loads, right).NotPort?)
  }

  /** One pair transform; its outputs are Ports only if both inputs share one load state. */
  function Paired(view: View, left: string, right: string, id: string): View {
    var common, differential := CommonId(id), DifferentialId(id);
    var state := if LoadOf(view.loads, left) == LoadOf(view.loads, right) then LoadOf(view.loads, left) else NotPort;
    var ports := view.ports - {left, right};
    view.(
      transforms := view.transforms + [Transform(id, left, right, common, differential)],
      available := Replaced(view.available, left, right, common, differential),
      ports := if state.NotPort? then ports else ports[common := common][differential := differential],
      loads := (view.loads - {left, right})[common := state][differential := state])
  }

  function PairStep(plan: Plan, view: View, pair: Pair): Option<View> {
    var left, right := Resolve(plan, view.available, pair.left), Resolve(plan, view.available, pair.right);
    if left.None? || right.None? || !PairAllowed(plan, view, left.value, right.value, pair.id) then None
    else Some(Paired(view, left.value, right.value, pair.id))
  }

  type Step = (View, Pair) -> Option<View>

  function StepFor(plan: Plan): Step {
    (view: View, pair: Pair) => PairStep(plan, view, pair)
  }

  /** The first `n` pairs, one step each. */
  function PairSteps(step: Step, view: View, pairs: seq<Pair>, n: nat): Option<View>
    requires n <= |pairs|
  {
    if n == 0 then Some(view)
    else
      var before := PairSteps(step, view, pairs, n - 1);
      if before.None? then None else step(before.value, pairs[n - 1])
  }

  predicate IdsUnique(ports: seq<Port>) {
    forall i, j :: 0 <= i < j < |ports| ==> ports[i].id != ports[j].id
  }

  /** Ports of this plan, nonloading probes, each once. */
  predicate Compensable(plan: Plan, ports: seq<Port>) {
    (forall i :: 0 <= i < |ports| ==> ports[i].own && ports[i] in plan.ports && ports[i].probe) && IdsUnique(ports)
  }

  predicate Selected(ports: seq<Port>, id: string) {
    exists i :: 0 <= i < |ports| && ports[i].id == id
  }

  /** The selected Ports in the plan's order. */
  function InPlanOrder(all: seq<Port>, ports: seq<Port>): seq<string> {
    if all == [] then []
    else (if Selected(ports, all[0].id) then [all[0].id] else []) + InPlanOrder(all[1..], ports)
  }

  /** Compensation marks every Port coordinate as compensated or raw. */
  function PtcStep(plan: Plan, view: View, ptc: Option<seq<Port>>): Option<View> {
    if ptc.None? then Some(view)
    else if view.ptc.Some? || view.transforms != [] || !Compensable(plan, ptc.value) then None
    else Some(view.(
      ptc := Some(InPlanOrder(plan.ports, ptc.value)),
      loads := view.loads + map coordinate | coordinate in view.ports ::
        if Selected(ptc.value, view.ports[coordinate]) then Compensated else Raw))
  }

  function ResolveAll(plan: Plan, available: seq<string>, spellings: seq<Spelling>): Option<seq<string>> {
    if spellings == [] then Some([])
    else
      var first, rest := Resolve(plan, available, spellings[0]), ResolveAll(plan, available, spellings[1..]);
      if first.None? || rest.None? then None else Some([first.value] + rest.value)
  }

  predicate NamesUnique(names: seq<string>) {
    forall i, j :: 0 <= i < j < |names| ==> names[i] != names[j]
  }

  function RetainStep(plan: Plan, view: View, retained: Option<seq<Spelling>>): Option<View> {
    if retained.None? then Some(view)
    else
      var resolved := ResolveAll(plan, view.available, retained.value);
      if resolved.None? || resolved.value == [] || !NamesUnique(resolved.value)
        || (exists name :: name in resolved.value && name !in view.available) then None
      else Some(view.(retained := resolved.value))
  }

  /** `reduce`: a retained view is terminal; otherwise compensation, pairs and retention in turn. */
  function Reduce(plan: Plan, view: View, p: Pipeline): Option<View> {
    if view.retained != [] then None
    else
      var compensated := PtcStep(plan, view, p.ptc);
      if compensated.None? then None
      else
        var paired := PairSteps(StepFor(plan), compensated.value, p.pairs, |p.pairs|);
        if paired.None? then None else RetainStep(plan, paired.value, p.retained)
  }

  /** One reduction after another. */
  function ReduceTwice(plan: Plan, view: View, p: Pipeline, q: Pipeline): Option<View> {
    var first := Reduce(plan, view, p);
    if first.None? then None else Reduce(plan, first.value, q)
  }

  // ---- The action -------------------------------------------------------------------------------

  /** The empty pipeline changes nothing, on every view it may be applied to. */
  lemma EmptyIsIdentity(plan: Plan, view: View)
    ensures Reduce(plan, view, Empty) == if view.retained == [] then Some(view) else None
  {
  }

  lemma {:induction false} PairsCompose(step: Step, view: View, first: seq<Pair>, second: seq<Pair>, n: nat)
    requires n <= |second|
    ensures var middle := PairSteps(step, view, first, |first|);
      PairSteps(step, view, first + second, |first| + n)
        == if middle.None? then None else PairSteps(step, middle.value, second, n)
  {
    if n == 0 {
      PairsPrefix(step, view, first, second, |first|);
    } else {
      PairsCompose(step, view, first, second, n - 1);
      assert (first + second)[|first| + n - 1] == second[n - 1];
    }
  }

  lemma {:induction false} PairsPrefix(step: Step, view: View, first: seq<Pair>, second: seq<Pair>, n: nat)
    requires n <= |first|
    ensures PairSteps(step, view, first + second, n) == PairSteps(step, view, first, n)
  {
    if n > 0 { PairsPrefix(step, view, first, second, n - 1); }
  }

  ghost predicate KeepsBoundary(step: Step) {
    forall view: View, pair: Pair :: step(view, pair).Some? ==> SameBoundary(view, step(view, pair).value)
  }

  predicate SameBoundary(a: View, b: View) {
    a.retained == b.retained && a.ptc == b.ptc
  }

  lemma StepKeepsBoundary(plan: Plan)
    ensures KeepsBoundary(StepFor(plan))
  {
  }

  lemma {:induction false} PairsKeep(step: Step, view: View, pairs: seq<Pair>, n: nat)
    requires n <= |pairs| && PairSteps(step, view, pairs, n).Some? && KeepsBoundary(step)
    ensures SameBoundary(view, PairSteps(step, view, pairs, n).value)
  {
    if n > 0 { PairsKeep(step, view, pairs, n - 1); }
  }

  /** What a joined pipeline consists of. */
  lemma ThenFields(p: Pipeline, q: Pipeline)
    requires Then(p, q).Some?
    ensures q.ptc.Some? ==> p == Empty
    ensures p.retained.Some? ==> q == Empty && Then(p, q).value == p
    ensures Then(p, q).value.ptc == (if q.ptc.Some? then q.ptc else p.ptc)
    ensures Then(p, q).value.pairs == p.pairs + q.pairs
    ensures p.retained.None? ==> Then(p, q).value.retained == q.retained
  {
    var first := if q.ptc.Some? then BuildPtc(p, q.ptc.value) else Some(p);
    PairsBuilt(first.value, q.pairs, |q.pairs|);
    assert q.pairs[..|q.pairs|] == q.pairs;
    assert q.pairs == [] ==> p.pairs + q.pairs == p.pairs;
  }

  /** Reducing by two pipelines in turn is reducing by their join — with the same lineage,
      coordinates, Port map and load states — exactly unless the first one retained: the join with
      an empty second pipeline is accepted, while a retained view refuses even that. */
  lemma ReduceIsAction(plan: Plan, view: View, p: Pipeline, q: Pipeline)
    requires Then(p, q).Some?
    ensures Reduce(plan, view, Then(p, q).value) == ReduceTwice(plan, view, p, q) <==>
      p.retained.None? || Reduce(plan, view, p).None?
  {
    ThenFields(p, q);
    if p.retained.Some? {
      RetainedIsTerminal(plan, view, p);
    } else if view.retained == [] {
      ActionOnPairs(plan, view, p, q);
    }
  }

  /** One coordinate, kept: a view after which even the empty pipeline is refused. */
  lemma RetainedRefusesEmpty()
    ensures var plan := Plan([], map[]);
      var view, keep := View(None, [], [], ["a"], map[], map[]), Pipeline(None, [], Some([Text("a")]));
      && Then(keep, Empty) == Some(keep) && Reduce(plan, view, keep).Some? && ReduceTwice(plan, view, keep, Empty).None?
  {
    var plan := Plan([], map[]);
    var view, keep := View(None, [], [], ["a"], map[], map[]), Pipeline(None, [], Some([Text("a")]));
    assert BuildPairs(keep, [], 0) == Some(keep);
    assert PairSteps(StepFor(plan), view, [], 0) == Some(view);
    RetainedIsTerminal(plan, view, keep);
  }

  lemma RetainedIsTerminal(plan: Plan, view: View, p: Pipeline)
    requires p.retained.Some?
    ensures Reduce(plan, view, p).Some? ==> Reduce(plan, view, p).value.retained != []
  {
  }

  /** Reduction of an unretained view without compensation: pairs, then retention. */
  function PairsThenRetain(plan: Plan, step: Step, view: View, pairs: seq<Pair>, retained: Option<seq<Spelling>>): Option<View> {
    var paired := PairSteps(step, view, pairs, |pairs|);
    if paired.None? then None else RetainStep(plan, paired.value, retained)
  }

  lemma PairsThenMore(plan: Plan, step: Step, view: View, first: seq<Pair>, second: seq<Pair>, retained: Option<seq<Spelling>>)
    ensures PairsThenRetain(plan, step, view, first + second, retained)
         == var middle := PairSteps(step, view, first, |first|);
            if middle.None? then None else PairsThenRetain(plan, step, middle.value, second, retained)
  {
    PairsCompose(step, view, first, second, |second|);
  }

  lemma ReduceInParts(plan: Plan, view: View, p: Pipeline)
    requires view.retained == []
    ensures Reduce(plan, view, p)
         == var compensated := PtcStep(plan, view, p.ptc);
            if compensated.None? then None else PairsThenRetain(plan, StepFor(plan), compensated.value, p.pairs, p.retained)
  {
  }

  lemma ActionOnPairs(plan: Plan, view: View, p: Pipeline, q: Pipeline)
    requires Then(p, q).Some? && p.retained.None? && view.retained == []
    ensures Reduce(plan, view, Then(p, q).value) == ReduceTwice(plan, view, p, q)
  {
    ThenFields(p, q);
    if q.ptc.Some? {
      EmptyIsIdentity(plan, view);
      assert p.pairs + q.pairs == q.pairs;
    } else {
      ActionAfterPtc(plan, view, p, q);
      assert Then(p, q).value == Pipeline(p.ptc, p.pairs + q.pairs, q.retained);
    }
  }

  lemma ActionAfterPtc(plan: Plan, view: View, p: Pipeline, q: Pipeline)
    requires p.retained.None? && q.ptc.None? && view.retained == []
    ensures Reduce(plan, view, Pipeline(p.ptc, p.pairs + q.pairs, q.retained)) == ReduceTwice(plan, view, p, q)
  {
    var step, compensated := StepFor(plan), PtcStep(plan, view, p.ptc);
    ReduceInParts(plan, view, p);
    ReduceInParts(plan, view, Pipeline(p.ptc, p.pairs + q.pairs, q.retained));
    if compensated.Some? {
      PairsThenMore(plan, step, compensated.value, p.pairs, q.pairs, q.retained);
      var middle := PairSteps(step, compensated.value, p.pairs, |p.pairs|);
      if middle.Some? {
        StepKeepsBoundary(plan);
        PairsKeep(step, compensated.value, p.pairs, |p.pairs|);
        ReduceInParts(plan, middle.value, q);
      }
    }
  }

  /** One declared pair on the local copies of the parent's tables. */
  method ApplyPair(plan: Plan, view: View, pair: Pair) returns (next: Option<View>)
    ensures next == PairStep(plan, view, pair)
  {
    var left, right := Resolve(plan, view.available, pair.left), Resolve(plan, view.available, pair.right);
    if left.None? || right.None? { return None; }
    if left.value == right.value || left.value !in view.available || right.value !in view.available { return None; }
    var common, differential := CommonId(pair.id), DifferentialId(pair.id);
    if Collides(plan, view.available, common) || Collides(plan, view.available, differential) { return None; }
    var leftLoad, rightLoad := LoadOf(view.loads, left.value), LoadOf(view.loads, right.value);
    if leftLoad != rightLoad && !leftLoad.NotPort? && !rightLoad.NotPort? { return None; }
    next := Some(Paired(view, left.value, right.value, pair.id));
  }

  /** `_derive_view`: compensation, then the pairs one after the other on local copies, then retention. */
  method DeriveView(plan: Plan, parent: View, pipeline: Pipeline) returns (child: Option<View>)
    ensures child == Reduce(plan, parent, pipeline)
  {
    hide PairStep;
    if parent.retained != [] { return None; }
    var compensated := PtcStep(plan, parent, pipeline.ptc);
    if compensated.None? { return None; }
    var view := compensated.value;
    for n := 0 to |pipeline.pairs|
      invariant PairSteps(StepFor(plan), compensated.value, pipeline.pairs, n) == Some(view)
    {
      var next := ApplyPair(plan, view, pipeline.pairs[n]);
      if next.None? {
        StopsAt(StepFor(plan), compensated.value, pipeline.pairs, n, |pipeline.pairs|);
        return None;
      }
      view := next.value;
    }
    child := RetainStep(plan, view, pipeline.retained);
  }

  /** Once a pair is refused the whole reduction is. */
  lemma {:induction false} StopsAt(step: Step, view: View, pairs: seq<Pair>, n: nat, m: nat)
    requires n < m <= |pairs| && PairSteps(step, view, pairs, n).Some?
    requires step(PairSteps(step, view, pairs, n).value, pairs[n]).None?
    ensures PairSteps(step, view, pairs, m).None?
  {
    if n + 1 < m { StopsAt(step, view, pairs, n, m - 1); }
  }
}
