/** Which chains are refused. */
module Refusals {
  // So no body is ever laid twice.  Acceptance is spelled out on the board before the call: its buses,
  // taps, pins, nets and bodies.

  import opened Partition
  import opened Scope
  import opened Ties
  import opened Unions

  // ---- Endpoints on nets ----------------------------------------------------------------------------------

  /** The endpoint is on the class of net `n`. */
  predicate On(b: Board, e: Endpoint, n: nat)
    requires InNets(b) && 0 < |b.labels| && n < |b.labels|
  {
    match e
    case Ground => b.labels[0] == b.labels[n]
    case Bus(bus) => bus in b.buses && b.labels[b.buses[bus]] == b.labels[n]
    case Tap(bus, _) => bus in b.buses && b.labels[b.buses[bus]] == b.labels[n]
    case Terminal(pin) => pin in b.nets && b.labels[b.nets[pin]] == b.labels[n]
  }

  /** One node: the same endpoint, or two on one class. */
  predicate Touch(b: Board, x: Endpoint, y: Endpoint)
    requires InNets(b) && 0 < |b.labels|
  {
    || x == y
    || match y
       case Ground => On(b, x, 0)
       case Bus(bus) => bus in b.buses && On(b, x, b.buses[bus])
       case Tap(bus, _) => bus in b.buses && On(b, x, b.buses[bus])
       case Terminal(pin) => pin in b.nets && On(b, x, b.nets[pin])
  }

  /** The scope owns the endpoint. */
  predicate There(b: Board, e: Endpoint) {
    match e
    case Ground => true
    case Bus(bus) => bus in b.buses
    case Tap(bus, tap) => bus in b.buses && (bus, tap) in b.taps
    case Terminal(pin) => pin in b.visible
  }

  lemma OnIsRoot(b: Board, e: Endpoint, n: nat)
    requires InNets(b) && n < |b.labels| && HasRoot(b, e)
    ensures On(b, e, n) <==> RootOf(b, e) == Class(b.labels[n])
  {
  }

  lemma TouchIsRoot(b: Board, x: Endpoint, y: Endpoint)
    requires InNets(b) && 0 < |b.labels| && HasRoot(b, x) && HasRoot(b, y)
    ensures Touch(b, x, y) <==> RootOf(b, x) == RootOf(b, y)
  {
  }

  lemma ThereIsKnown(b: Board, e: Endpoint)
    ensures There(b, e) <==> Known(b, e)
  {
  }

  // ---- Series, branch and parallel ------------------------------------------------------------------------

  /** A local two-terminal body, or two pins of a complete local body that are intrinsically distinct. */
  predicate Fit(b: Board, x: Element) {
    && x.body in b.bodies
    && var body := b.bodies[x.body];
       && body.local && (forall pin :: pin in body.pins ==> pin in b.visible)
       && match x
          case Whole(_) => body.ordinary && |body.pins| == 2
          case Between(_, p, q) =>
            && !body.ordinary && p in body.pins && q in body.pins && p != q
            && p in body.classes && q in body.classes && body.classes[p] != body.classes[q]
  }

  /** Some chain can be laid: bodies that fit, none consumed, none twice, between two distinct nodes. */
  predicate MayLay(b: Board, elements: seq<Element>, start: Endpoint, end: Endpoint)
    requires InNets(b) && 0 < |b.labels|
  {
    && |elements| > 0 && There(b, start) && There(b, end) && !Touch(b, start, end)
    && (forall x :: x in elements ==> Fit(b, x) && !b.bodies[x.body].used)
    && (forall i, j :: 0 <= i < |elements| && 0 <= j < |elements| && elements[i].body == elements[j].body ==> i == j)
  }

  lemma MayLayIsPrepared(b: Board, elements: seq<Element>, start: Endpoint, end: Endpoint)
    requires InNets(b) && 0 < |b.labels|
    ensures MayLay(b, elements, start, end) <==> Prepared(b, elements, start, end)
  {
    if Known(b, start) && Known(b, end) { TouchIsRoot(b, start, end); }
    assert forall x :: Fit(b, x) <==> Usable(b, x);
  }

  /** A series is accepted exactly when its chain may be laid and its id is free; refused, it leaves the board. */
  lemma SeriesAccepted(b: Board, id: string, start: Endpoint, elements: seq<Element>, end: Endpoint)
    requires Valid(b)
    ensures var outcome := Perform(b, MakeSeries(id, start, elements, end));
      && (outcome.ok <==> MayLay(b, elements, start, end) && id !in b.ids)
      && (!outcome.ok ==> outcome.board == b)
      && (outcome.ok ==> outcome.board.ids == b.ids + {id})
  {
    MayLayIsPrepared(b, elements, start, end);
    SeriesKeeps(b, id, start, elements, end);
  }

  /** A branch is a series that starts on a bus or a tap. */
  lemma BranchAccepted(b: Board, id: string, at: Endpoint, elements: seq<Element>, end: Endpoint)
    requires Valid(b)
    ensures var outcome := Perform(b, MakeBranch(id, at, elements, end));
      && (outcome.ok <==> (at.Bus? || at.Tap?) && MayLay(b, elements, at, end) && id !in b.ids)
      && (!outcome.ok ==> outcome.board == b)
      && (outcome.ok ==> outcome == Perform(b, MakeSeries(id, at, elements, end)))
  {
    SeriesAccepted(b, id, at, elements, end);
  }

  /** At least two branches, each of which may be laid, and no body in two of them. */
  predicate MayLayAll(b: Board, id: string, start: Endpoint, branches: seq<seq<Element>>, end: Endpoint)
    requires InNets(b) && 0 < |b.labels|
  {
    && |branches| >= 2 && id !in b.ids
    && (forall branch :: branch in branches ==> MayLay(b, branch, start, end))
    && (forall i, j, x, y :: 0 <= i < |branches| && 0 <= j < |branches| && x in branches[i] && y in branches[j] && x.body == y.body ==>
          i == j)
  }

  lemma MayLayAllIsReady(b: Board, id: string, start: Endpoint, branches: seq<seq<Element>>, end: Endpoint)
    requires InNets(b) && 0 < |b.labels|
    ensures MayLayAll(b, id, start, branches, end) <==> ParallelReady(b, id, start, branches, end)
  {
    hide NetAt;
    forall elements
      ensures MayLay(b, elements, start, end) <==> Prepared(b, elements, start, end)
    {
      MayLayIsPrepared(b, elements, start, end);
    }
    hide MayLay, Prepared;
    assert AllPrepared(b, start, branches, end) <==> forall branch :: branch in branches ==> MayLay(b, branch, start, end);
    ApartElements(branches);
  }

  lemma ApartElements(branches: seq<seq<Element>>)
    ensures Apart(branches) <==>
      forall i, j, x, y :: 0 <= i < |branches| && 0 <= j < |branches| && x in branches[i] && y in branches[j] && x.body == y.body ==> i == j
  {
    if Apart(branches) {
      forall i, j, x, y | 0 <= i < |branches| && 0 <= j < |branches| && x in branches[i] && y in branches[j] && i != j
        ensures x.body != y.body
      {
        var k :| 0 <= k < |branches[i]| && branches[i][k] == x;
        var l :| 0 <= l < |branches[j]| && branches[j][l] == y;
        if i < j {
          assert branches[i][k].body != branches[j][l].body;
        } else {
          assert branches[j][l].body != branches[i][k].body;
        }
      }
    }
  }

  function Near(b: Board, x: Element): Endpoint
    requires Fit(b, x)
  {
    match x
    case Whole(body) => Terminal(b.bodies[body].pins[0])
    case Between(_, p, _) => Terminal(p)
  }

  function Far(b: Board, x: Element): Endpoint
    requires Fit(b, x)
  {
    match x
    case Whole(body) => Terminal(b.bodies[body].pins[1])
    case Between(_, _, q) => Terminal(q)
  }

  /** Start with the near end of the first body, each far end with the next near end, the last far end with end. */
  predicate Wires(b: Board, elements: seq<Element>, start: Endpoint, end: Endpoint, ties: seq<Tie>)
    requires forall x :: x in elements ==> Fit(b, x)
  {
    && |ties| == |elements| + 1
    && ties[0].0 == start && ties[|elements|].1 == end
    && (forall i :: 0 <= i < |elements| ==> ties[i].1 == Near(b, elements[i]))
    && (forall i :: 0 <= i < |elements| ==> ties[i + 1].0 == Far(b, elements[i]))
  }

  /** An accepted series puts on one node exactly what its own ties, over the nodes before it, lead together. */
  lemma SeriesWires(b: Board, id: string, start: Endpoint, elements: seq<Element>, end: Endpoint, x: Endpoint, y: Endpoint)
    returns (ties: seq<Tie>)
    requires Valid(b) && Perform(b, MakeSeries(id, start, elements, end)).ok && HasRoot(b, x) && HasRoot(b, y)
    ensures forall e :: e in elements ==> Fit(b, e)
    ensures Wires(b, elements, start, end, ties)
    ensures var after := Perform(b, MakeSeries(id, start, elements, end)).board;
      Valid(after) && (Touch(after, x, y) <==> Tied(b, ties, x, y))
  {
    SeriesAccepted(b, id, start, elements, end);
    MayLayIsPrepared(b, elements, start, end);
    var named := WithId(b, id);
    WithIdKeeps(b, id);
    PreparedWithId(b, id, elements, start, end);
    ChainExact(named, elements, start, end, x, y);
    ties := ChainTies(named, elements, start, end);
    TiedNamed(b, named, ties, x, y);
    WiresSo(b, named, elements, start, end);
    TouchIsRoot(Perform(b, MakeSeries(id, start, elements, end)).board, x, y);
  }

  lemma WiresSo(b: Board, named: Board, elements: seq<Element>, start: Endpoint, end: Endpoint)
    requires named == b.(ids := named.ids) && AllUsable(named, elements) && forall x :: x in elements ==> Fit(b, x)
    ensures Wires(b, elements, start, end, ChainTies(named, elements, start, end))
  {
  }

  /** The ties of the first `n` branches, each wired like a series. */
  ghost predicate WiresAll(b: Board, branches: seq<seq<Element>>, start: Endpoint, end: Endpoint, n: nat, ties: seq<Tie>)
    requires n <= |branches| && forall branch, x :: branch in branches && x in branch ==> Fit(b, x)
  {
    if n == 0 then ties == []
    else exists before, last :: ties == before + last && WiresAll(b, branches, start, end, n - 1, before)
                                && Wires(b, branches[n - 1], start, end, last)
  }

  lemma {:induction false} WiresAllSo(b: Board, branches: seq<seq<Element>>, start: Endpoint, end: Endpoint, n: nat)
    requires n <= |branches| && AllBranchesUsable(b, branches) && forall branch, x :: branch in branches && x in branch ==> Fit(b, x)
    ensures WiresAll(b, branches, start, end, n, BranchTies(b, start, branches, end, n))
  {
    if n > 0 {
      WiresAllSo(b, branches, start, end, n - 1);
      assert branches[n - 1] in branches;
      WiresSo(b, b, branches[n - 1], start, end);
    }
  }

  lemma BranchesFit(b: Board, id: string, start: Endpoint, branches: seq<seq<Element>>, end: Endpoint)
    requires InNets(b) && 0 < |b.labels| && MayLayAll(b, id, start, branches, end)
    ensures forall branch, x :: branch in branches && x in branch ==> Fit(b, x)
  {
    hide Fit, Touch;
    forall branch, x | branch in branches && x in branch ensures Fit(b, x) {
      assert MayLay(b, branch, start, end);
    }
  }

  /** A parallel structure is accepted exactly when its checks pass and the ties of the branches before the last
      leave start and end apart; refused by its checks it leaves the board. */
  lemma ParallelAccepted(b: Board, id: string, start: Endpoint, branches: seq<seq<Element>>, end: Endpoint)
    returns (ties: seq<Tie>)
    requires Valid(b)
    ensures var outcome := Perform(b, MakeParallel(id, start, branches, end));
      if !MayLayAll(b, id, start, branches, end) then outcome == Outcome(b, false)
      else
        && (forall branch, x :: branch in branches && x in branch ==> Fit(b, x))
        && WiresAll(b, branches, start, end, |branches| - 1, ties)
        && (outcome.ok <==> !Tied(b, ties, start, end)) && outcome.board.ids == b.ids + {id}
  {
    hide WiresAll, ChainNodes;
    assert ParallelReady(b, id, start, branches, end) ==> |branches| >= 2;
    MayLayAllIsReady(b, id, start, branches, end);
    hide ParallelReady, Parallel, Tied, BranchTies, Fit, WiresAll, MayLay, Touch;
    ParallelExact(b, id, start, branches, end);
    ties := [];
    if ParallelReady(b, id, start, branches, end) {
      BranchesFit(b, id, start, branches, end);
      ties := BranchTies(b, start, branches, end, |branches| - 1);
      WiresAllSo(b, branches, start, end, |branches| - 1);
    }
  }

  /** Accepted, it puts on one node exactly what the ties of all its branches lead together. */
  lemma ParallelWires(b: Board, id: string, start: Endpoint, branches: seq<seq<Element>>, end: Endpoint, x: Endpoint, y: Endpoint)
    returns (ties: seq<Tie>)
    requires Valid(b) && HasRoot(b, x) && HasRoot(b, y) && Perform(b, MakeParallel(id, start, branches, end)).ok
    ensures forall branch, x :: branch in branches && x in branch ==> Fit(b, x)
    ensures WiresAll(b, branches, start, end, |branches|, ties)
    ensures var after := Perform(b, MakeParallel(id, start, branches, end)).board;
      Valid(after) && (Touch(after, x, y) <==> Tied(b, ties, x, y))
  {
    MayLayAllIsReady(b, id, start, branches, end);
    BranchesFit(b, id, start, branches, end);
    hide ParallelReady, Parallel, Tied, BranchTies, Fit, WiresAll, MayLayAll, Touch, LaidCount;
    ParallelRelates(b, id, start, branches, end, x, y);
    ties := BranchTies(b, start, branches, end, |branches|);
    WiresAllSo(b, branches, start, end, |branches|);
    TouchIsRoot(Parallel(b, id, start, branches, end).board, x, y);
  }

  // ---- No body twice --------------------------------------------------------------------------------------

  /** The bodies an operation names. */
  function Bodies(operation: Operation): set<string> {
    match operation
    case MakeSeries(_, _, elements, _) => set x | x in elements :: x.body
    case MakeBranch(_, _, elements, _) => set x | x in elements :: x.body
    case MakeParallel(_, _, branches, _) => ParallelBodies(branches)
    case _ => {}
  }

  predicate Consumed(b: Board, body: string) {
    body in b.bodies && b.bodies[body].used
  }

  /** No consumed body is released, and only bodies in `named` are touched. */
  predicate Uses(b: Board, after: Board, named: set<string>) {
    && after.bodies.Keys == b.bodies.Keys
    && forall body :: body in b.bodies ==>
         && after.bodies[body].(used := b.bodies[body].used) == b.bodies[body]
         && (b.bodies[body].used ==> after.bodies[body].used)
         && (body !in named ==> after.bodies[body] == b.bodies[body])
  }

  lemma UsesTwice(b: Board, c: Board, d: Board, named: set<string>, more: set<string>)
    requires Uses(b, c, named) && Uses(c, d, more)
    ensures Uses(b, d, named + more)
  {
  }

  /** Bodies of the first `n` branches. */
  function BranchBodies(branches: seq<seq<Element>>, n: nat): set<string>
    requires n <= |branches|
  {
    if n == 0 then {} else BranchBodies(branches, n - 1) + BodySet(branches[n - 1], |branches[n - 1]|)
  }

  lemma {:induction false} AllBranchBodies(branches: seq<seq<Element>>, n: nat)
    requires n <= |branches|
    ensures forall i, x :: 0 <= i < n && x in branches[i] ==> x.body in BranchBodies(branches, n)
    ensures forall body :: body in BranchBodies(branches, n) ==> exists i, x :: 0 <= i < n && x in branches[i] && x.body == body
  {
    if n > 0 {
      AllBranchBodies(branches, n - 1);
      forall body | body in BranchBodies(branches, n) ensures exists i, x :: 0 <= i < n && x in branches[i] && x.body == body {
        if body in BranchBodies(branches, n - 1) {
          var i, x :| 0 <= i < n - 1 && x in branches[i] && x.body == body;
          assert 0 <= i < n && x in branches[i];
        } else {
          var k :| 0 <= k < |branches[n - 1]| && branches[n - 1][k].body == body;
          assert branches[n - 1][k] in branches[n - 1];
        }
      }
      forall i, x | 0 <= i < n && x in branches[i] ensures x.body in BranchBodies(branches, n) {
        if i == n - 1 {
          var k :| 0 <= k < |branches[i]| && branches[i][k] == x;
          assert branches[i][k].body in BodySet(branches[i], |branches[i]|);
        }
      }
    }
  }

  lemma {:induction false} LayUses(b: Board, branches: seq<seq<Element>>, n: nat, check: Check, chain: Chain)
    requires Valid(b) && n <= |branches| && Chains(check, chain)
    ensures var outcome := Lay(b, branches, n, check, chain);
      && Valid(outcome.board) && Uses(b, outcome.board, BranchBodies(branches, n))
      && (outcome.ok ==> forall body :: body in BranchBodies(branches, n) && body in b.bodies ==> Consumed(outcome.board, body))
  {
    hide InRange;
    if n > 0 {
      LayUses(b, branches, n - 1, check, chain);
      var before := Lay(b, branches, n - 1, check, chain);
      if before.ok && check(before.board, branches[n - 1]) {
        var after := chain(before.board, branches[n - 1]);
        assert ChainsOne(before.board, branches[n - 1], after);
        assert Uses(before.board, after, BodySet(branches[n - 1], |branches[n - 1]|));
        UsesTwice(b, before.board, after, BranchBodies(branches, n - 1), BodySet(branches[n - 1], |branches[n - 1]|));
      }
    }
  }

  lemma ElementBodies(elements: seq<Element>)
    ensures BodySet(elements, |elements|) == set x | x in elements :: x.body
  {
    var bodies := set x | x in elements :: x.body;
    forall body | body in bodies ensures body in BodySet(elements, |elements|) {
      var x :| x in elements && x.body == body;
      var i :| 0 <= i < |elements| && elements[i] == x;
      assert elements[i].body == body;
    }
    forall body | body in BodySet(elements, |elements|) ensures body in bodies {
      var i :| 0 <= i < |elements| && elements[i].body == body;
      assert elements[i] in elements;
    }
  }

  /** An accepted operation names fresh bodies only, and has consumed every one of them. */
  ghost predicate Spends(b: Board, outcome: Outcome, named: set<string>) {
    && Uses(b, outcome.board, named)
    && (outcome.ok ==> forall body :: body in named ==> body in b.bodies && !Consumed(b, body) && Consumed(outcome.board, body))
  }

  lemma SeriesSpends(b: Board, id: string, start: Endpoint, elements: seq<Element>, end: Endpoint)
    requires Valid(b)
    ensures Spends(b, Series(b, id, start, elements, end), set x | x in elements :: x.body)
  {
    hide Series;
    SeriesAccepted(b, id, start, elements, end);
    SeriesKeeps(b, id, start, elements, end);
    ElementBodies(elements);
    hide Touch, Fit;
    var outcome := Series(b, id, start, elements, end);
    if outcome.ok {
      forall body | body in (set x | x in elements :: x.body) ensures body in b.bodies && !Consumed(b, body) {
        var x :| x in elements && x.body == body;
        FitKnown(b, x, elements, start, end);
      }
    }
  }

  lemma FitKnown(b: Board, x: Element, elements: seq<Element>, start: Endpoint, end: Endpoint)
    requires InNets(b) && 0 < |b.labels| && MayLay(b, elements, start, end) && x in elements
    ensures x.body in b.bodies && !b.bodies[x.body].used
  {
  }

  /** The bodies of branches that may be laid are all fresh. */
  lemma NamedFresh(b: Board, id: string, start: Endpoint, branches: seq<seq<Element>>, end: Endpoint)
    requires InNets(b) && 0 < |b.labels|
    ensures ParallelReady(b, id, start, branches, end) ==>
      forall body :: body in ParallelBodies(branches) ==> body in b.bodies && !Consumed(b, body)
  {
    hide MayLay, Prepared;
    MayLayAllIsReady(b, id, start, branches, end);
    if ParallelReady(b, id, start, branches, end) {
      forall body | body in ParallelBodies(branches) ensures body in b.bodies && !Consumed(b, body) {
        var branch, x :| branch in branches && x in branch && x.body == body;
        FitKnown(b, x, branch, start, end);
      }
    }
  }

  function ParallelBodies(branches: seq<seq<Element>>): set<string> {
    set branch, x | branch in branches && x in branch :: x.body
  }

  /** Laying branches marks bodies of those branches only, and all of them if it succeeds. */
  ghost predicate Lays(b: Board, outcome: Outcome, named: set<string>) {
    && Uses(b, outcome.board, named)
    && (outcome.ok ==> forall body :: body in named && body in b.bodies ==> Consumed(outcome.board, body))
  }

  lemma ReadyLays(b: Board, id: string, start: Endpoint, branches: seq<seq<Element>>, end: Endpoint)
    requires Valid(b) && ParallelReady(b, id, start, branches, end)
    ensures Lays(b, Parallel(b, id, start, branches, end), ParallelBodies(branches))
  {
    hide ParallelReady, Chains, ParallelBodies, Lay, Valid, CheckFor, ChainFor;
    WithIdKeeps(b, id);
    ChainsFor(start, end);
    LayUses(WithId(b, id), branches, |branches|, CheckFor(start, end), ChainFor(start, end));
    BranchesNamed(branches);
  }

  lemma ParallelSpends(b: Board, id: string, start: Endpoint, branches: seq<seq<Element>>, end: Endpoint)
    requires Valid(b)
    ensures Spends(b, Parallel(b, id, start, branches, end), ParallelBodies(branches))
  {
    assert InNets(b) && 0 < |b.labels|;
    NamedFresh(b, id, start, branches, end);
    hide ParallelReady, ParallelBodies, Lay, Valid;
    if ParallelReady(b, id, start, branches, end) { ReadyLays(b, id, start, branches, end); }
  }

  lemma BranchesNamed(branches: seq<seq<Element>>)
    ensures BranchBodies(branches, |branches|) == ParallelBodies(branches)
  {
    var named := ParallelBodies(branches);
    AllBranchBodies(branches, |branches|);
    forall body | body in named ensures body in BranchBodies(branches, |branches|) {
      var branch, x :| branch in branches && x in branch && x.body == body;
      var i :| 0 <= i < |branches| && branches[i] == branch;
      assert x in branches[i];
    }
    forall body | body in BranchBodies(branches, |branches|) ensures body in named {
      var i, x :| 0 <= i < |branches| && x in branches[i] && x.body == body;
      assert branches[i] in branches;
    }
  }

  lemma PerformSpends(b: Board, operation: Operation)
    requires Valid(b)
    ensures Valid(Perform(b, operation).board) && Spends(b, Perform(b, operation), Bodies(operation))
  {
    hide LinkReady, GroundReady, ParallelReady, Prepared, Series, Parallel;
    PerformKeeps(b, operation);
    match operation
    case MakeSeries(id, start, elements, end) => SeriesSpends(b, id, start, elements, end);
    case MakeBranch(id, at, elements, end) => SeriesSpends(b, id, at, elements, end);
    case MakeParallel(id, start, branches, end) => ParallelSpends(b, id, start, branches, end);
    case MakeLink(id, endpoints) =>
    case MakeGround(pins) =>
    case MakeBus(id) =>
    case MakePort(at) =>
  }

  /** A structure that names a consumed body is refused, and leaves the board as it was. */
  lemma ConsumedRefused(b: Board, operation: Operation, body: string)
    requires Valid(b) && body in Bodies(operation) && Consumed(b, body)
    ensures Perform(b, operation) == Outcome(b, false)
  {
    assert InNets(b) && 0 < |b.labels|;
    hide Valid, Prepared, ParallelReady, Series, Parallel;
    PerformSpends(b, operation);
    PerformKeeps(b, operation);
    match operation
    case MakeParallel(id, start, branches, end) =>
      NamedFresh(b, id, start, branches, end);
      ParallelTested(b, id, start, branches, end);
    case _ =>
  }

  lemma SpendsKeeps(b: Board, outcome: Outcome, named: set<string>, body: string)
    requires Spends(b, outcome, named) && Consumed(b, body)
    ensures Consumed(outcome.board, body)
  {
  }

  lemma {:induction false} StaysConsumed(b: Board, operations: seq<Operation>, i: nat, n: nat, body: string)
    requires Valid(b) && i <= n <= |operations| && Consumed(Performed(b, operations, i), body)
    ensures Consumed(Performed(b, operations, n), body)
  {
    hide Valid, Perform, Bodies, Consumed, Spends;
    if i < n {
      StaysConsumed(b, operations, i, n - 1, body);
      var before := Performed(b, operations, n - 1);
      PerformSpends(before, operations[n - 1]);
      SpendsKeeps(before, Perform(before, operations[n - 1]), Bodies(operations[n - 1]), body);
    }
  }

  ghost predicate AcceptedAt(b: Board, operations: seq<Operation>, i: nat)
    requires Valid(b) && i < |operations|
  {
    Perform(Performed(b, operations, i), operations[i]).ok
  }

  /** Over any run no body occurs in two accepted structures, nor one that was consumed at the beginning in any. */
  lemma NoBodyTwice(b: Board, operations: seq<Operation>, i: nat, j: nat)
    requires Valid(b) && i < j < |operations| && AcceptedAt(b, operations, i) && AcceptedAt(b, operations, j)
    ensures Bodies(operations[i]) !! Bodies(operations[j])
    ensures forall body :: body in Bodies(operations[i]) ==> !Consumed(b, body)
  {
    hide Perform, Bodies, Uses;
    PerformSpends(Performed(b, operations, i), operations[i]);
    PerformSpends(Performed(b, operations, j), operations[j]);
    forall body | body in Bodies(operations[i]) ensures body !in Bodies(operations[j]) {
      StaysConsumed(b, operations, i + 1, j, body);
    }
    forall body | body in Bodies(operations[i]) ensures !Consumed(b, body) {
      if Consumed(b, body) { StaysConsumed(b, operations, 0, i, body); }
    }
  }
}
