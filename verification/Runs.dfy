/** Whole authoring runs: what is declared decides which endpoints share a root. */
module Runs {
  // Each operation declares ties; after any run, refused operations included, the closure of the ties
  // declared so far over the roots at the beginning is exactly the wire equivalence.

  import opened Partition
  import opened Scope
  import opened Ties
  import opened Unions

  // ---- What each operation declares -----------------------------------------------------------------

  lemma UsableElements(b: Board, elements: seq<Element>, start: Endpoint, end: Endpoint)
    requires InNets(b) && |b.labels| > 0 && Prepared(b, elements, start, end)
    ensures AllUsable(b, elements)
  {
    forall i | 0 <= i < |elements|
      ensures Usable(b, elements[i])
    {
      assert elements[i] in elements;
    }
  }

  function SeriesTies(b: Board, id: string, start: Endpoint, elements: seq<Element>, end: Endpoint): seq<Tie>
    requires Valid(b)
  {
    if !Prepared(b, elements, start, end) || id in b.ids then []
    else
      UsableElements(b, elements, start, end);
      ChainTies(b, elements, start, end)
  }

  ghost function ParallelTies(b: Board, id: string, start: Endpoint, branches: seq<seq<Element>>, end: Endpoint): seq<Tie>
    requires Valid(b)
  {
    if !ParallelReady(b, id, start, branches, end) then []
    else
      PreparedUsable(b, start, branches, end);
      BranchTies(b, start, branches, end, LaidCount(b, start, branches, end, |branches|))
  }

  /** All of a star's endpoints on one node. */
  function StarTies(centre: Endpoint, endpoints: seq<Endpoint>): (ties: seq<Tie>)
    ensures |ties| == |endpoints| && forall i :: 0 <= i < |endpoints| ==> ties[i] == (centre, endpoints[i])
  {
    seq(|endpoints|, i requires 0 <= i < |endpoints| => (centre, endpoints[i]))
  }

  /** The ties of an operation: what it declares if it is accepted, and for a parallel structure the
      branches laid before one did not fit. */
  ghost function OperationTies(b: Board, operation: Operation): seq<Tie>
    requires Valid(b)
  {
    match operation
    case MakeSeries(id, start, elements, end) => SeriesTies(b, id, start, elements, end)
    case MakeBranch(id, at, elements, end) => if at.Bus? || at.Tap? then SeriesTies(b, id, at, elements, end) else []
    case MakeParallel(id, start, branches, end) => ParallelTies(b, id, start, branches, end)
    case MakeLink(id, endpoints) => if LinkReady(b, id, endpoints) then StarTies(endpoints[0], endpoints) else []
    case MakeGround(pins) => if GroundReady(b, pins) then StarTies(Ground, pins) else []
    case MakeBus(_) => []
    case MakePort(_) => []
  }

  /** The operation relates what it declares and nothing else. */
  ghost predicate Effects(b: Board, after: Board, ties: seq<Tie>, red: Colour)
    requires Valid(b) && Valid(after)
  {
    Keeps(b, after) && Honours(after, ties) && (Respects(b, red) && Uniform(b, red) && Agrees(ties, red) ==> Respects(after, red))
  }

  // ---- Series and parallel structures -----------------------------------------------------------------

  lemma Renamed(b: Board, named: Board, after: Board, ties: seq<Tie>, red: Colour)
    requires Valid(b) && Valid(named) && Valid(after) && named == b.(ids := named.ids) && Effects(named, after, ties, red)
    ensures Effects(b, after, ties, red)
  {
    forall x, y
      ensures KeepsPair(b, after, x, y)
    {
      assert KeepsPair(named, after, x, y);
    }
    if Respects(b, red) {
      forall x, y
        ensures RespectsPair(named, red, x, y)
      {
        assert RespectsPair(b, red, x, y);
      }
    }
    assert Uniform(b, red) ==> Uniform(named, red);
  }

  lemma ChainEffects(b: Board, elements: seq<Element>, start: Endpoint, end: Endpoint, red: Colour)
    requires Valid(b) && Prepared(b, elements, start, end)
    ensures AllUsable(b, elements) && Valid(Chained(b, elements, start, end))
    ensures Effects(b, Chained(b, elements, start, end), ChainTies(b, elements, start, end), red)
  {
    hide Respects, Agrees;
    UsableElements(b, elements, start, end);
    ChainHonours(b, elements, start, end);
    if Respects(b, red) && Agrees(ChainTies(b, elements, start, end), red) {
      ChainRespects(b, elements, start, end, red);
    }
  }

  lemma SeriesEffects(b: Board, id: string, start: Endpoint, elements: seq<Element>, end: Endpoint, red: Colour)
    requires Valid(b)
    ensures Valid(Series(b, id, start, elements, end).board)
    ensures Effects(b, Series(b, id, start, elements, end).board, SeriesTies(b, id, start, elements, end), red)
  {
    hide Effects, ChainTies;
    if Prepared(b, elements, start, end) && id !in b.ids {
      var named := WithId(b, id);
      WithIdKeeps(b, id);
      PreparedWithId(b, id, elements, start, end);
      ChainEffects(named, elements, start, end, red);
      UsableElements(b, elements, start, end);
      NamedTies(b, named, elements, start, end);
      Renamed(b, named, Chained(named, elements, start, end), ChainTies(b, elements, start, end), red);
    } else {
      NoEffect(b, red);
    }
  }

  lemma NamedTies(b: Board, named: Board, elements: seq<Element>, start: Endpoint, end: Endpoint)
    requires named == b.(ids := named.ids) && AllUsable(b, elements) && AllUsable(named, elements)
    ensures ChainTies(named, elements, start, end) == ChainTies(b, elements, start, end)
  {
    SameTies(b, named, elements, start, end);
  }

  lemma NoEffect(b: Board, red: Colour)
    requires Valid(b)
    ensures Effects(b, b, [], red)
  {
    NothingHonoured(b);
  }

  lemma ParallelEffects(b: Board, id: string, start: Endpoint, branches: seq<seq<Element>>, end: Endpoint, red: Colour)
    requires Valid(b)
    ensures Valid(Parallel(b, id, start, branches, end).board)
    ensures Effects(b, Parallel(b, id, start, branches, end).board, ParallelTies(b, id, start, branches, end), red)
  {
    hide Effects, BranchTies, LaidCount;
    if ParallelReady(b, id, start, branches, end) {
      var named, n := WithId(b, id), |branches|;
      NamedReady(b, id, start, branches, end);
      LaidAsCounted(named, start, branches, end, n);
      CountNamed(b, named, start, branches, end, n);
      var count := LaidCount(named, start, branches, end, n);
      BranchTiesNamed(b, named, start, branches, end, count);
      LaidEffects(named, start, branches, end, count, red);
      Renamed(b, named, LaidBoard(named, start, branches, end, count), BranchTies(b, start, branches, end, count), red);
    } else {
      NoEffect(b, red);
    }
  }

  lemma LaidEffects(b: Board, start: Endpoint, branches: seq<seq<Element>>, end: Endpoint, n: nat, red: Colour)
    requires Valid(b) && AllBranchesUsable(b, branches) && n <= |branches| && LaidAll(b, start, branches, end, n)
    ensures Valid(LaidBoard(b, start, branches, end, n))
    ensures Effects(b, LaidBoard(b, start, branches, end, n), BranchTies(b, start, branches, end, n), red)
  {
    hide Respects, Agrees, Keeps, Honours, LaidAll, LaidBoard, BranchTies;
    LaidHonours(b, start, branches, end, n);
    if Respects(b, red) && Agrees(BranchTies(b, start, branches, end, n), red) {
      LaidRespects(b, start, branches, end, n, red);
    }
  }

  // ---- Links and grounding ----------------------------------------------------------------------------

  /** Everything a union takes in has the colour of its centre. */
  lemma TakenAgrees(b: Board, endpoints: seq<Endpoint>, ground: bool, centre: Endpoint, red: Colour, x: Endpoint)
    requires Valid(b) && AllKnown(b, endpoints) && |endpoints| > 0 && Respects(b, red) && Agrees(StarTies(centre, endpoints), red)
    requires centre == if ground then Ground else endpoints[0]
    requires HasRoot(b, x) && Taken(b, endpoints, ground, x)
    ensures red(x) == red(centre)
  {
    var ties := StarTies(centre, endpoints);
    if InRoots(b, endpoints, x) {
      var i: nat :| i < |endpoints| && RootOf(b, endpoints[i]) == RootOf(b, x);
      assert RespectsPair(b, red, endpoints[i], x) && ties[i] in ties;
    } else {
      assert RespectsPair(b, red, Ground, x);
    }
  }

  lemma UnitedRespects(b: Board, after: Board, endpoints: seq<Endpoint>, ground: bool, centre: Endpoint, red: Colour)
    requires Valid(b) && Valid(after) && Grows(b, after) && AllKnown(b, endpoints) && |endpoints| > 0
    requires centre == if ground then Ground else endpoints[0]
    requires forall x, y :: HasRoot(b, x) && HasRoot(b, y) ==> UnitedExactly(b, after, endpoints, ground, x, y)
    requires Respects(b, red) && Agrees(StarTies(centre, endpoints), red)
    ensures Respects(after, red)
  {
    forall x, y
      ensures RespectsPair(after, red, x, y)
    {
      if Meets(after, x, y) {
        assert HasRoot(b, x) && HasRoot(b, y) && UnitedExactly(b, after, endpoints, ground, x, y);
        if RootOf(b, x) == RootOf(b, y) {
          assert RespectsPair(b, red, x, y);
        } else {
          TakenAgrees(b, endpoints, ground, centre, red, x);
          TakenAgrees(b, endpoints, ground, centre, red, y);
        }
      }
    }
  }

  lemma UnitedHonours(b: Board, after: Board, endpoints: seq<Endpoint>, ground: bool, centre: Endpoint)
    requires Valid(b) && Valid(after) && Grows(b, after) && AllKnown(b, endpoints) && |endpoints| > 0
    requires centre == if ground then Ground else endpoints[0]
    requires forall x, y :: HasRoot(b, x) && HasRoot(b, y) ==> UnitedExactly(b, after, endpoints, ground, x, y)
    ensures Honours(after, StarTies(centre, endpoints))
  {
    var ties := StarTies(centre, endpoints);
    forall t | t in ties
      ensures Meets(after, t.0, t.1)
    {
      var i :| 0 <= i < |endpoints| && t == (centre, endpoints[i]);
      assert UnitedExactly(b, after, endpoints, ground, centre, endpoints[i]);
      assert RootOf(b, endpoints[i]) in RootsOf(b, endpoints) && RootOf(b, endpoints[0]) in RootsOf(b, endpoints);
    }
  }

  lemma UnionEffects(b: Board, after: Board, endpoints: seq<Endpoint>, ground: bool, centre: Endpoint, red: Colour)
    requires Valid(b) && Valid(after) && Grows(b, after) && AllKnown(b, endpoints) && |endpoints| > 0
    requires centre == if ground then Ground else endpoints[0]
    requires forall x, y :: HasRoot(b, x) && HasRoot(b, y) ==> UnitedExactly(b, after, endpoints, ground, x, y)
    ensures Effects(b, after, StarTies(centre, endpoints), red)
  {
    hide Respects, Honours, Keeps, Agrees, UnitedExactly;
    GrowsKeeps(b, after);
    UnitedHonours(b, after, endpoints, ground, centre);
    if Respects(b, red) && Agrees(StarTies(centre, endpoints), red) {
      UnitedRespects(b, after, endpoints, ground, centre, red);
    }
  }

  lemma LinkEffects(b: Board, id: string, endpoints: seq<Endpoint>, red: Colour)
    requires Valid(b) && LinkReady(b, id, endpoints)
    ensures Effects(b, LinkedBoard(b, id, endpoints), StarTies(endpoints[0], endpoints), red)
  {
    hide Effects, UnitedExactly;
    var after := LinkedBoard(b, id, endpoints);
    forall x, y | HasRoot(b, x) && HasRoot(b, y)
      ensures HasRoot(after, x) && HasRoot(after, y) && UnitedExactly(b, after, endpoints, false, x, y)
    {
      LinkExact(b, id, endpoints, x, y);
    }
    UnionEffects(b, after, endpoints, false, endpoints[0], red);
  }

  lemma GroundEffects(b: Board, pins: seq<Endpoint>, red: Colour)
    requires Valid(b) && GroundReady(b, pins)
    ensures Effects(b, GroundedBoard(b, pins), StarTies(Ground, pins), red)
  {
    hide Effects, UnitedExactly;
    var after := GroundedBoard(b, pins);
    forall x, y | HasRoot(b, x) && HasRoot(b, y)
      ensures HasRoot(after, x) && HasRoot(after, y) && UnitedExactly(b, after, pins, true, x, y)
    {
      UnitedIsExact(b, pins, true, x, y);
    }
    UnionEffects(b, after, pins, true, Ground, red);
  }

  // ---- Buses and Ports ----------------------------------------------------------------------------------

  lemma BusEffects(b: Board, id: string, red: Colour)
    requires Valid(b)
    ensures Valid(AddBus(b, id).board) && Effects(b, AddBus(b, id).board, [], red)
  {
    AddBusKeeps(b, id, Ground);
    var after := AddBus(b, id).board;
    forall x, y
      ensures KeepsPair(b, after, x, y) && (Respects(b, red) && Uniform(b, red) ==> RespectsPair(after, red, x, y))
    {
      if HasRoot(b, x) { AddBusKeeps(b, id, x); }
      if HasRoot(b, y) { AddBusKeeps(b, id, y); }
      assert Respects(b, red) ==> RespectsPair(b, red, x, y);
    }
  }

  lemma PortEffects(b: Board, at: Endpoint, red: Colour)
    requires Valid(b)
    ensures Valid(AddPort(b, at).board) && Effects(b, AddPort(b, at).board, [], red)
  {
    var after := AddPort(b, at).board;
    forall x, y
      ensures KeepsPair(b, after, x, y) && (Respects(b, red) ==> RespectsPair(after, red, x, y))
    {
      assert Respects(b, red) ==> RespectsPair(b, red, x, y);
    }
  }

  // ---- Runs -----------------------------------------------------------------------------------------------

  lemma OperationEffects(b: Board, operation: Operation, red: Colour)
    requires Valid(b)
    ensures Valid(Perform(b, operation).board) && Effects(b, Perform(b, operation).board, OperationTies(b, operation), red)
  {
    hide Effects, LinkReady, GroundReady, ParallelReady, Prepared;
    PerformKeeps(b, operation);
    NoEffect(b, red);
    match operation
    case MakeSeries(id, start, elements, end) => SeriesEffects(b, id, start, elements, end, red);
    case MakeBranch(id, at, elements, end) => SeriesEffects(b, id, at, elements, end, red);
    case MakeParallel(id, start, branches, end) => ParallelEffects(b, id, start, branches, end, red);
    case MakeLink(id, endpoints) => if LinkReady(b, id, endpoints) { LinkEffects(b, id, endpoints, red); }
    case MakeGround(pins) => if GroundReady(b, pins) { GroundEffects(b, pins, red); }
    case MakeBus(id) => BusEffects(b, id, red);
    case MakePort(at) => PortEffects(b, at, red);
  }

  /** The ties declared by the first `n` operations. */
  ghost function RunTies(b: Board, operations: seq<Operation>, n: nat): (ties: seq<Tie>)
    requires Valid(b) && n <= |operations|
  {
    if n == 0 then [] else RunTies(b, operations, n - 1) + OperationTies(Performed(b, operations, n - 1), operations[n - 1])
  }

  lemma EffectsTwice(b: Board, c: Board, d: Board, ties: seq<Tie>, more: seq<Tie>, red: Colour)
    requires Valid(b) && Valid(c) && Valid(d) && Effects(b, c, ties, red) && Effects(c, d, more, red)
    ensures Effects(b, d, ties + more, red)
  {
    BothHonoured(b, c, d, ties, more);
    AgreesBoth(ties, more, red);
  }

  lemma {:induction false} RunEffects(b: Board, operations: seq<Operation>, n: nat, red: Colour)
    requires Valid(b) && n <= |operations|
    ensures Effects(b, Performed(b, operations, n), RunTies(b, operations, n), red)
  {
    hide Effects, Perform, OperationTies;
    if n == 0 {
      NoEffect(b, red);
    } else {
      var c := Performed(b, operations, n - 1);
      RunEffects(b, operations, n - 1, red);
      OperationEffects(c, operations[n - 1], red);
      EffectsTwice(b, c, Performed(b, operations, n), RunTies(b, operations, n - 1), OperationTies(c, operations[n - 1]), red);
    }
  }

  /** After any run two endpoints share a root exactly when the ties declared in it relate them over the
      roots they had at the beginning. */
  lemma RunExact(b: Board, operations: seq<Operation>, n: nat, x: Endpoint, y: Endpoint)
    requires Valid(b) && n <= |operations|
    requires HasRoot(Performed(b, operations, n), x) && HasRoot(Performed(b, operations, n), y)
    ensures RootOf(Performed(b, operations, n), x) == RootOf(Performed(b, operations, n), y) <==>
      Tied(b, RunTies(b, operations, n), x, y)
  {
    hide Performed, RunTies;
    var ties := RunTies(b, operations, n);
    ReachedRespects(b, ties, x);
    RunEffects(b, operations, n, Reached(b, ties, x));
    ClosureExact(b, Performed(b, operations, n), ties, x, y);
  }
}
