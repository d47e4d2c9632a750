/** A derived view, spelled out step by step. */
module Derivations {
  // Which names a reduction accepts, what each pair does to the coordinates, Ports and load states, and why a
  // reduction is refused.

  import opened Common
  import opened Names
  import opened Reduce

  // ---- The steps ------------------------------------------------------------------------------------------

  /** What a caller's name stands for. */
  predicate Spells(plan: Plan, available: seq<string>, spelling: Spelling, id: string) {
    match spelling
    case Text(name) => if name in available then id == name else Aliases(plan, name, id)
    case NodeHandle(own, name) => own && Aliases(plan, name, id)
    case ScopedHandle(own, key) => own && Aliases(plan, key, id)
  }

  predicate Aliases(plan: Plan, name: string, id: string) {
    name in plan.lookup && plan.lookup[name] == Some(id)
  }

  function StateOf(view: View, x: string): Load {
    if x in view.loads then view.loads[x] else NotPort
  }

  predicate Mixes(view: View, left: string, right: string) {
    var states := {StateOf(view, left), StateOf(view, right)};
    Raw in states && Compensated in states
  }

  predicate New(plan: Plan, view: View, name: string) {
    name !in view.available && name !in plan.lookup
  }

  /** A pair is admitted: two different current coordinates, two new names, no compensated Port with a raw one. */
  predicate Admits(plan: Plan, view: View, pair: Pair, left: string, right: string) {
    && Spells(plan, view.available, pair.left, left) && Spells(plan, view.available, pair.right, right)
    && left != right && left in view.available && right in view.available
    && New(plan, view, pair.id + ".common") && New(plan, view, pair.id + ".differential")
    && !Mixes(view, left, right)
  }

  /** The outputs of a pair are Ports exactly when both inputs are, in one load state. */
  predicate PortOutputs(view: View, left: string, right: string) {
    StateOf(view, left) == StateOf(view, right) != NotPort
  }

  /** The outputs stand where the earlier input stood; every other coordinate keeps its order. */
  ghost predicate TakesPlace(available: seq<string>, left: string, right: string, c: string, d: string, next: seq<string>) {
    exists a, x, b, y, e :: TakesPlaceBy(available, left, right, c, d, next, a, x, b, y, e)
  }

  predicate TakesPlaceBy(available: seq<string>, left: string, right: string, c: string, d: string, next: seq<string>,
                         a: seq<string>, x: string, b: seq<string>, y: string, e: seq<string>) {
    available == a + [x] + b + [y] + e && {x, y} == {left, right} && next == a + [c, d] + b + e
  }

  ghost predicate PairDoes(view: View, left: string, right: string, id: string, next: View) {
    var c, d := id + ".common", id + ".differential";
    var both := PortOutputs(view, left, right);
    && next.ptc == view.ptc && next.retained == view.retained
    && next.transforms == view.transforms + [Transform(id, left, right, c, d)]
    && (Distinct(view.available) ==> TakesPlace(view.available, left, right, c, d, next.available))
    && (forall x :: x in next.available <==> x in [c, d] || (x in view.available && x !in [left, right]))
    && (forall x :: x in next.ports <==> (both && x in [c, d]) || (x in view.ports && x !in [left, right]))
    && (forall x :: x in next.ports ==> next.ports[x] == if both && x in [c, d] then x else view.ports[x])
    && (forall x :: x in next.loads <==> x in [c, d] || (x in view.loads && x !in [left, right]))
    && (forall x :: x in next.loads ==>
          next.loads[x] == if x !in [c, d] then view.loads[x] else if both then StateOf(view, left) else NotPort)
  }

  ghost predicate PairSays(plan: Plan, view: View, pair: Pair, next: View) {
    exists left, right :: Admits(plan, view, pair, left, right) && PairDoes(view, left, right, pair.id, next)
  }

  /** The plan's own probes, each once. */
  predicate Probes(plan: Plan, ports: seq<Port>) {
    && (forall port :: port in ports ==> port.own && port.probe && port in plan.ports)
    && (forall i, j :: 0 <= i < |ports| && 0 <= j < |ports| && ports[i].id == ports[j].id ==> i == j)
  }

  predicate Chosen(ports: seq<Port>, id: string) {
    exists port :: port in ports && port.id == id
  }

  /** The chosen Ports, in the order the plan declares them. */
  predicate Ordered(all: seq<Port>, ports: seq<Port>, ids: seq<string>, picks: seq<nat>) {
    && |picks| == |ids| && (forall k :: 0 <= k < |picks| ==> picks[k] < |all| && ids[k] == all[picks[k]].id)
    && (forall k, l :: 0 <= k < l < |picks| ==> picks[k] < picks[l])
    && (forall i: nat :: i < |all| ==> (i in picks <==> Chosen(ports, all[i].id)))
  }

  /** Compensation comes first in a lineage, takes probes only, and gives every Port coordinate its state. */
  ghost predicate CompensationSays(plan: Plan, view: View, ptc: Option<seq<Port>>, next: View) {
    if ptc.None? then next == view
    else
      && view.ptc.None? && view.transforms == [] && Probes(plan, ptc.value)
      && next.ptc.Some? && (exists picks :: Ordered(plan.ports, ptc.value, next.ptc.value, picks))
      && next == view.(ptc := next.ptc, loads := next.loads)
      && next.loads.Keys == view.loads.Keys + view.ports.Keys
      && (forall x :: x in view.ports ==> next.loads[x] == if Chosen(ptc.value, view.ports[x]) then Compensated else Raw)
      && (forall x :: x in view.loads && x !in view.ports ==> next.loads[x] == view.loads[x])
  }

  predicate Once(names: seq<string>) {
    forall i, j :: 0 <= i < |names| && 0 <= j < |names| && names[i] == names[j] ==> i == j
  }

  /** Retention names current coordinates, each once and at least one. */
  ghost predicate Retains(plan: Plan, view: View, spellings: seq<Spelling>, names: seq<string>) {
    && |names| == |spellings| > 0 && Once(names)
    && forall k :: 0 <= k < |names| ==> names[k] in view.available && Spells(plan, view.available, spellings[k], names[k])
  }

  ghost predicate RetentionSays(plan: Plan, view: View, retained: Option<seq<Spelling>>, next: View) {
    if retained.None? then next == view
    else next == view.(retained := next.retained) && Retains(plan, view, retained.value, next.retained)
  }

  // ---- Whole reductions -----------------------------------------------------------------------------------

  /** Pairs one after the other, from one view to the next. */
  ghost predicate PairsSay(plan: Plan, pairs: seq<Pair>, views: seq<View>, n: nat)
    requires n <= |pairs|
  {
    |views| == n + 1 && forall k :: 0 <= k < n ==> PairSays(plan, views[k], pairs[k], views[k + 1])
  }

  /** The child: compensation, then every pair, then retention, of a view that has not retained. */
  ghost predicate Derives(plan: Plan, view: View, p: Pipeline, child: View) {
    && view.retained == []
    && exists views :: PairsSay(plan, p.pairs, views, |p.pairs|) && CompensationSays(plan, view, p.ptc, views[0])
                       && RetentionSays(plan, views[|p.pairs|], p.retained, child)
  }

  ghost predicate PairStuck(plan: Plan, view: View, pair: Pair) {
    forall left, right :: !Admits(plan, view, pair, left, right)
  }

  ghost predicate RetentionStuck(plan: Plan, view: View, retained: Option<seq<Spelling>>) {
    retained.Some? && forall names :: !Retains(plan, view, retained.value, names)
  }

  /** The view the pairs before `n` led to. */
  ghost predicate Reaches(plan: Plan, view: View, p: Pipeline, n: nat, at: View)
    requires n <= |p.pairs|
  {
    exists views :: PairsSay(plan, p.pairs, views, n) && CompensationSays(plan, view, p.ptc, views[0]) && views[n] == at
  }

  ghost predicate StuckAt(plan: Plan, view: View, p: Pipeline, n: nat, at: View) {
    && n <= |p.pairs| && Reaches(plan, view, p, n, at)
    && if n == |p.pairs| then RetentionStuck(plan, at, p.retained) else PairStuck(plan, at, p.pairs[n])
  }

  /** A refusal: the view had retained, compensation came late or named something else than probes, or some pair or
      the retention was reached that nothing satisfies. */
  ghost predicate Refuses(plan: Plan, view: View, p: Pipeline) {
    || view.retained != []
    || (p.ptc.Some? && !(view.ptc.None? && view.transforms == [] && Probes(plan, p.ptc.value)))
    || exists n, at :: StuckAt(plan, view, p, n, at)
  }

  // ---- The program does that ------------------------------------------------------------------------------

  lemma ResolvesAs(plan: Plan, available: seq<string>, spelling: Spelling)
    ensures forall id :: Spells(plan, available, spelling, id) <==> Resolve(plan, available, spelling) == Some(id)
  {
  }

  lemma MixesAs(view: View, left: string, right: string)
    ensures Mixes(view, left, right) <==>
      LoadOf(view.loads, left) != LoadOf(view.loads, right) && !LoadOf(view.loads, left).NotPort? && !LoadOf(view.loads, right).NotPort?
  {
  }

  lemma Spliced(a: seq<string>, b: seq<string>, e: seq<string>, c: string, d: string)
    ensures (a + (b + e))[..|a|] + [c, d] + (a + (b + e))[|a|..] == a + [c, d] + b + e
  {
    assert (a + (b + e))[..|a|] == a && (a + (b + e))[|a|..] == b + e;
  }

  lemma PairPlaced(view: View, left: string, right: string, c: string, d: string)
    requires left != right && left in view.available && right in view.available && Distinct(view.available)
    ensures TakesPlace(view.available, left, right, c, d, Replaced(view.available, left, right, c, d))
  {
    var names, i, j := view.available, IndexOf(view.available, left), IndexOf(view.available, right);
    hide Without, IndexOf, Distinct;
    var lo, hi := Low(i, j), High(i, j);
    var a, b, e := names[..lo], names[lo + 1..hi], names[hi + 1..];
    PartsClear(names, lo, hi, left, right);
    WithoutAt(names, lo, hi, left, right);
    Spliced(a, b, e, c, d);
    assert Replaced(names, left, right, c, d) == a + [c, d] + b + e;
    SplitsAt(names, lo, hi);
    assert TakesPlaceBy(names, left, right, c, d, Replaced(names, left, right, c, d), a, names[lo], b, names[hi], e);
  }

  lemma SplitsAt(names: seq<string>, lo: nat, hi: nat)
    requires lo < hi < |names|
    ensures names == names[..lo] + [names[lo]] + names[lo + 1..hi] + [names[hi]] + names[hi + 1..]
  {
  }

  lemma PairDoesSo(view: View, left: string, right: string, id: string)
    requires left != right && left in view.available && right in view.available
    requires !Mixes(view, left, right)
    ensures PairDoes(view, left, right, id, Paired(view, left, right, id))
  {
    hide TakesPlace;
    var c, d := id + ".common", id + ".differential";
    MixesAs(view, left, right);
    if Distinct(view.available) { PairPlaced(view, left, right, c, d); }
    ReplacedHolds(view.available, left, right, c, d);
    hide Replaced;
    OutputsDiffer(id);
  }

  lemma OutputsDiffer(id: string)
    ensures id + ".common" != id + ".differential"
  {
    assert |id + ".common"| != |id + ".differential"|;
  }

  lemma ReplacedHolds(available: seq<string>, left: string, right: string, c: string, d: string)
    ensures forall x :: x in Replaced(available, left, right, c, d) <==> x in [c, d] || (x in available && x !in [left, right])
  {
    var rest := Without(available, left, right);
    var at := Min(Min(IndexOf(available, left), IndexOf(available, right)), |rest|);
    WithoutMembers(available, left, right);
    InsertedMembers(rest, at, c, d);
  }

  lemma PairStepSays(plan: Plan, view: View, pair: Pair)
    ensures PairStep(plan, view, pair).Some? ==> PairSays(plan, view, pair, PairStep(plan, view, pair).value)
    ensures PairStep(plan, view, pair).None? <==> PairStuck(plan, view, pair)
  {
    ResolvesAs(plan, view.available, pair.left);
    ResolvesAs(plan, view.available, pair.right);
    hide Resolve, Spells, Mixes, LoadOf, PairDoes, Paired;
    var left, right := Resolve(plan, view.available, pair.left), Resolve(plan, view.available, pair.right);
    if left.Some? && right.Some? {
      MixesAs(view, left.value, right.value);
      assert Admits(plan, view, pair, left.value, right.value) <==> PairAllowed(plan, view, left.value, right.value, pair.id);
      if PairAllowed(plan, view, left.value, right.value, pair.id) { PairDoesSo(view, left.value, right.value, pair.id); }
    }
  }

  lemma {:induction false} PairStepsSay(plan: Plan, view: View, pairs: seq<Pair>, n: nat) returns (views: seq<View>)
    requires n <= |pairs| && PairSteps(StepFor(plan), view, pairs, n).Some?
    ensures PairsSay(plan, pairs, views, n) && views[0] == view && views[n] == PairSteps(StepFor(plan), view, pairs, n).value
  {
    hide PairSays, PairStep;
    if n == 0 { return [view]; }
    var before := PairStepsSay(plan, view, pairs, n - 1);
    PairStepSays(plan, before[n - 1], pairs[n - 1]);
    views := before + [PairSteps(StepFor(plan), view, pairs, n).value];
  }

  /** The first pair the steps stop at. */
  lemma {:induction false} FirstStuck(plan: Plan, view: View, pairs: seq<Pair>, n: nat) returns (at: nat)
    requires n <= |pairs| && PairSteps(StepFor(plan), view, pairs, n).None?
    ensures at < n && PairSteps(StepFor(plan), view, pairs, at).Some?
    ensures PairStep(plan, PairSteps(StepFor(plan), view, pairs, at).value, pairs[at]).None?
  {
    if PairSteps(StepFor(plan), view, pairs, n - 1).None? {
      at := FirstStuck(plan, view, pairs, n - 1);
    } else {
      at := n - 1;
    }
  }

  lemma ChosenAs(ports: seq<Port>, id: string)
    ensures Chosen(ports, id) <==> Selected(ports, id)
  {
    if Chosen(ports, id) {
      var port :| port in ports && port.id == id;
      var i :| 0 <= i < |ports| && ports[i] == port;
    }
    if Selected(ports, id) {
      var i :| 0 <= i < |ports| && ports[i].id == id;
      assert ports[i] in ports;
    }
  }

  lemma ProbesAs(plan: Plan, ports: seq<Port>)
    ensures Probes(plan, ports) <==> Compensable(plan, ports)
  {
    if Compensable(plan, ports) {
      forall port | port in ports ensures port.own && port.probe && port in plan.ports {
        var i :| 0 <= i < |ports| && ports[i] == port;
      }
    }
    if Probes(plan, ports) {
      forall i | 0 <= i < |ports| ensures ports[i].own && ports[i] in plan.ports && ports[i].probe { assert ports[i] in ports; }
    }
  }

  function Moved(picks: seq<nat>): (moved: seq<nat>)
    ensures |moved| == |picks| && forall k :: 0 <= k < |picks| ==> moved[k] == picks[k] + 1
  {
    seq(|picks|, k requires 0 <= k < |picks| => picks[k] + 1)
  }

  lemma MovedHolds(picks: seq<nat>, i: nat)
    ensures i in Moved(picks) <==> i > 0 && i - 1 in picks
  {
    if i > 0 && i - 1 in picks {
      var k :| 0 <= k < |picks| && picks[k] == i - 1;
      assert Moved(picks)[k] == i;
    }
  }

  /** One Port more in front of the plan's, not chosen. */
  lemma OrderedPast(all: seq<Port>, ports: seq<Port>, ids: seq<string>, rest: seq<nat>)
    requires all != [] && Ordered(all[1..], ports, ids, rest) && !Chosen(ports, all[0].id)
    ensures Ordered(all, ports, ids, Moved(rest))
  {
    hide Chosen;
    var picks := Moved(rest);
    forall i: nat | i < |all| ensures i in picks <==> Chosen(ports, all[i].id) {
      MovedHolds(rest, i);
      if i > 0 { assert all[i] == all[1..][i - 1]; }
    }
    forall k | 0 <= k < |picks| ensures picks[k] < |all| && ids[k] == all[picks[k]].id {
      assert all[1..][rest[k]] == all[rest[k] + 1];
    }
  }

  /** The chosen Ports but for the first of the plan. */
  predicate OrderedTail(all: seq<Port>, ports: seq<Port>, ids: seq<string>, picks: seq<nat>) {
    && |picks| == |ids| && 0 !in picks && (forall k :: 0 <= k < |picks| ==> picks[k] < |all| && ids[k] == all[picks[k]].id)
    && (forall k, l :: 0 <= k < l < |picks| ==> picks[k] < picks[l])
    && (forall i: nat :: 0 < i < |all| ==> (i in picks <==> Chosen(ports, all[i].id)))
  }

  lemma MovedTail(all: seq<Port>, ports: seq<Port>, ids: seq<string>, rest: seq<nat>)
    requires all != [] && Ordered(all[1..], ports, ids, rest)
    ensures OrderedTail(all, ports, ids, Moved(rest))
  {
    hide Chosen;
    var picks := Moved(rest);
    MovedHolds(rest, 0);
    forall i: nat | 0 < i < |all| ensures i in picks <==> Chosen(ports, all[i].id) {
      MovedHolds(rest, i);
      assert all[i] == all[1..][i - 1];
    }
    forall k | 0 <= k < |picks| ensures picks[k] < |all| && ids[k] == all[picks[k]].id {
      assert all[1..][rest[k]] == all[rest[k] + 1];
    }
  }

  /** The first Port of the plan, chosen too. */
  lemma OrderedMore(all: seq<Port>, ports: seq<Port>, ids: seq<string>, picks: seq<nat>)
    requires all != [] && Chosen(ports, all[0].id) && OrderedTail(all, ports, ids, picks)
    ensures Ordered(all, ports, [all[0].id] + ids, [0] + picks)
  {
    hide Chosen;
    var more := [0] + picks;
    assert forall k :: 0 <= k < |picks| ==> picks[k] in picks;
    forall i: nat | i < |all| ensures i in more <==> Chosen(ports, all[i].id) {
      assert i in more <==> i == 0 || i in picks;
    }
    forall k, l | 0 <= k < l < |more| ensures more[k] < more[l] {
      assert more[l] == picks[l - 1];
      if k > 0 { assert more[k] == picks[k - 1]; }
    }
  }

  lemma OrderedNext(all: seq<Port>, ports: seq<Port>, ids: seq<string>, rest: seq<nat>)
    requires all != [] && Ordered(all[1..], ports, ids, rest)
    ensures Ordered(all, ports, (if Chosen(ports, all[0].id) then [all[0].id] else []) + ids,
                    if Chosen(ports, all[0].id) then [0] + Moved(rest) else Moved(rest))
  {
    hide Chosen, Ordered, OrderedTail, Moved;
    if Chosen(ports, all[0].id) {
      MovedTail(all, ports, ids, rest);
      OrderedMore(all, ports, ids, Moved(rest));
    } else {
      OrderedPast(all, ports, ids, rest);
      assert [] + ids == ids;
    }
  }

  lemma {:induction false} PlanOrder(all: seq<Port>, ports: seq<Port>) returns (picks: seq<nat>)
    ensures Ordered(all, ports, InPlanOrder(all, ports), picks)
  {
    if all == [] { return []; }
    hide Ordered, Chosen, Selected, Moved;
    var rest := PlanOrder(all[1..], ports);
    ChosenAs(ports, all[0].id);
    OrderedNext(all, ports, InPlanOrder(all[1..], ports), rest);
    picks := if Selected(ports, all[0].id) then [0] + Moved(rest) else Moved(rest);
    assert [] + InPlanOrder(all[1..], ports) == InPlanOrder(all[1..], ports);
  }

  lemma CompensationSaysSo(plan: Plan, view: View, ptc: Option<seq<Port>>)
    ensures PtcStep(plan, view, ptc).Some? ==> CompensationSays(plan, view, ptc, PtcStep(plan, view, ptc).value)
    ensures PtcStep(plan, view, ptc).None? <==>
      ptc.Some? && !(view.ptc.None? && view.transforms == [] && Probes(plan, ptc.value))
  {
    if ptc.Some? {
      ProbesAs(plan, ptc.value);
      hide Probes, Compensable, Ordered, Chosen, Selected;
      var picks := PlanOrder(plan.ports, ptc.value);
      forall id ensures Chosen(ptc.value, id) <==> Selected(ptc.value, id) { ChosenAs(ptc.value, id); }
    }
  }

  lemma {:induction false} ResolvesAll(plan: Plan, available: seq<string>, spellings: seq<Spelling>)
    ensures ResolveAll(plan, available, spellings).None? <==> exists s :: s in spellings && Resolve(plan, available, s).None?
    ensures ResolveAll(plan, available, spellings).Some? ==>
      Spelled(plan, available, spellings, ResolveAll(plan, available, spellings).value)
  {
    hide Resolve;
    if spellings != [] {
      ResolvesAll(plan, available, spellings[1..]);
      assert spellings == [spellings[0]] + spellings[1..];
    }
  }

  predicate Spelled(plan: Plan, available: seq<string>, spellings: seq<Spelling>, names: seq<string>) {
    |names| == |spellings| && forall k :: 0 <= k < |names| ==> Resolve(plan, available, spellings[k]) == Some(names[k])
  }

  lemma {:induction false} SpelledResolve(plan: Plan, available: seq<string>, spellings: seq<Spelling>, names: seq<string>)
    requires Spelled(plan, available, spellings, names)
    ensures ResolveAll(plan, available, spellings) == Some(names)
  {
    hide Resolve;
    if spellings != [] {
      SpelledResolve(plan, available, spellings[1..], names[1..]);
      assert names == [names[0]] + names[1..];
    }
  }

  /** Names that satisfy a retention are the resolved ones. */
  lemma RetainsResolve(plan: Plan, view: View, spellings: seq<Spelling>, names: seq<string>)
    ensures Retains(plan, view, spellings, names) ==> ResolveAll(plan, view.available, spellings) == Some(names)
  {
    if Retains(plan, view, spellings, names) {
      forall k | 0 <= k < |names| ensures Resolve(plan, view.available, spellings[k]) == Some(names[k]) {
        ResolvesAs(plan, view.available, spellings[k]);
      }
      hide Resolve, Spells;
      SpelledResolve(plan, view.available, spellings, names);
    }
  }

  lemma RetentionSaysSo(plan: Plan, view: View, retained: Option<seq<Spelling>>)
    ensures RetainStep(plan, view, retained).Some? ==> RetentionSays(plan, view, retained, RetainStep(plan, view, retained).value)
    ensures RetainStep(plan, view, retained).None? <==> RetentionStuck(plan, view, retained)
  {
    if retained.Some? {
      var spellings := retained.value;
      ResolvesAll(plan, view.available, spellings);
      forall s ensures forall id :: Spells(plan, view.available, s, id) <==> Resolve(plan, view.available, s) == Some(id) {
        ResolvesAs(plan, view.available, s);
      }
      hide Resolve, Spells, ResolveAll;
      var resolved := ResolveAll(plan, view.available, spellings);
      if RetainStep(plan, view, retained).Some? {
        assert Retains(plan, view, spellings, resolved.value);
      } else {
        forall names ensures !Retains(plan, view, spellings, names) { RetainsResolve(plan, view, spellings, names); }
      }
    }
  }

  /** Every reduction that returns is the one spelled out, and every refusal has one of the spelled reasons. */
  lemma ReductionSays(plan: Plan, view: View, p: Pipeline)
    ensures match Reduce.Reduce(plan, view, p)
      case Some(child) => Derives(plan, view, p, child)
      case None => Refuses(plan, view, p)
  {
    hide PairSays, CompensationSays, RetentionSays, Probes, PtcStep, RetainStep, PairStep, PairStuck, RetentionStuck;
    CompensationSaysSo(plan, view, p.ptc);
    var compensated := PtcStep(plan, view, p.ptc);
    if view.retained == [] && compensated.Some? {
      var n := |p.pairs|;
      if PairSteps(StepFor(plan), compensated.value, p.pairs, n).Some? {
        var views := PairStepsSay(plan, compensated.value, p.pairs, n);
        RetentionSaysSo(plan, views[n], p.retained);
        if Reduce.Reduce(plan, view, p).None? {
          assert Reaches(plan, view, p, n, views[n]);
          assert StuckAt(plan, view, p, n, views[n]);
        }
      } else {
        var at := FirstStuck(plan, compensated.value, p.pairs, n);
        var views := PairStepsSay(plan, compensated.value, p.pairs, at);
        PairStepSays(plan, views[at], p.pairs[at]);
        assert Reaches(plan, view, p, at, views[at]);
        assert StuckAt(plan, view, p, at, views[at]);
      }
    }
  }

  // ---- The grammar of pipelines ---------------------------------------------------------------------------

  /** No two pairs of one pipeline share an id. */
  predicate PairIdsOnce(pairs: seq<Pair>, more: seq<Pair>, n: nat)
    requires n <= |more|
  {
    && (forall i, j :: 0 <= i < |pairs| && 0 <= j < n ==> pairs[i].id != more[j].id)
    && (forall i, j :: 0 <= i < j < n ==> more[i].id != more[j].id)
  }

  /** Compensation only at the beginning and with distinct Ports, pairs with new ids before retention, retention once. */
  predicate Joinable(p: Pipeline, q: Pipeline) {
    && (q.ptc.Some? ==> p.ptc.None? && p.pairs == [] && p.retained.None? && |q.ptc.value| > 0
                        && forall i, j :: 0 <= i < j < |q.ptc.value| ==> q.ptc.value[i] != q.ptc.value[j])
    && (|q.pairs| > 0 ==> p.retained.None?) && PairIdsOnce(p.pairs, q.pairs, |q.pairs|)
    && (q.retained.Some? ==> p.retained.None? && |q.retained.value| > 0)
  }

  lemma {:induction false} PairsAccepted(p: Pipeline, pairs: seq<Pair>, n: nat)
    requires n <= |pairs|
    ensures BuildPairs(p, pairs, n).Some? <==> (n > 0 ==> p.retained.None?) && PairIdsOnce(p.pairs, pairs, n)
  {
    if n > 0 {
      PairsAccepted(p, pairs, n - 1);
      if BuildPairs(p, pairs, n - 1).Some? {
        PairsBuilt(p, pairs, n - 1);
        var before := BuildPairs(p, pairs, n - 1).value;
        assert before.pairs == p.pairs + pairs[..n - 1];
        assert forall i :: 0 <= i < |p.pairs| ==> before.pairs[i] == p.pairs[i];
        assert forall i :: 0 <= i < n - 1 ==> before.pairs[|p.pairs| + i] == pairs[i];
      }
    }
  }

  /** Two pipelines join exactly when the grammar allows the one after the other, into all of their steps. */
  lemma JoinSays(p: Pipeline, q: Pipeline)
    ensures Then(p, q).Some? <==> Joinable(p, q)
    ensures Then(p, q).Some? ==> Then(p, q).value == Pipeline(
      if q.ptc.Some? then q.ptc else p.ptc, p.pairs + q.pairs, if q.retained.Some? then q.retained else p.retained)
  {
    var first := if q.ptc.Some? then BuildPtc(p, q.ptc.value) else Some(p);
    if first.Some? {
      assert first.value.pairs == p.pairs && first.value.retained == p.retained;
      PairsAccepted(first.value, q.pairs, |q.pairs|);
      if Then(p, q).Some? { ThenFields(p, q); }
    }
  }
}
