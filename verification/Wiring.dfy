/** Links, grounding, branches and parallel structures as they act on live nets, proved to take
    the steps of `Unions` and `Scope`: the hypothetical union is checked on representatives. */
module Wiring {
  import opened Partition
  import opened Nets
  import opened Scope
  import opened Ties
  import opened Unions
  import opened Runs
  import opened Assembly

  /** Where a pin or net would be after the union: in it, at a representative, or itself. */
  datatype Spot = Within | At(net: Net) | Unbound(pin: Pin)

  /** Representatives and unused pins that stand for a set of roots. */
  ghost predicate Stands(live: LiveScope, named: set<Net>, open: set<Pin>, roots: set<Root>)
    reads live.forest
  {
    && (forall net :: net in named ==> live.forest.Owns(net) && Class(net.index) in roots)
    && (forall key: nat :: Class(key) in roots ==> key < |live.forest.nets| && live.forest.nets[key] in named)
    && (forall pin :: pin in open <==> Open(pin) in roots)
  }

  ghost predicate Marks(live: LiveScope, spot: Spot, place: Place)
    reads live.forest
  {
    match spot
    case Within => place.Inside?
    case At(net) => live.forest.Owns(net) && place == Own(Class(net.index))
    case Unbound(pin) => place == Own(Open(pin))
  }

  lemma MarksTell(live: LiveScope, s: Spot, p: Place, t: Spot, q: Place)
    requires Marks(live, s, p) && Marks(live, t, q)
    ensures s == t <==> p == q
  {
  }

  // ---- The check of a proposed union ----------------------------------------------------------------

  lemma RootsMore(b: Board, endpoints: seq<Endpoint>, i: nat)
    requires InNets(b) && |b.labels| > 0 && AllKnown(b, endpoints) && i < |endpoints|
    ensures RootsOf(b, endpoints[..i + 1]) == RootsOf(b, endpoints[..i]) + {RootOf(b, endpoints[i])}
  {
    var more, fewer := endpoints[..i + 1], endpoints[..i];
    assert more[i] == endpoints[i];
    forall root | root in RootsOf(b, more)
      ensures root in RootsOf(b, fewer) + {RootOf(b, endpoints[i])}
    {
      var k: nat :| k < |more| && RootOf(b, more[k]) == root;
      assert k < i ==> fewer[k] == more[k];
    }
    forall root | root in RootsOf(b, fewer)
      ensures root in RootsOf(b, more)
    {
      var k: nat :| k < |fewer| && RootOf(b, fewer[k]) == root;
      assert more[k] == fewer[k];
    }
  }

  method NameRoot(live: LiveScope, e: Endpoint, named: set<Net>, ghost open: set<Pin>, ghost roots: set<Root>)
    returns (more: set<Net>, ghost pins: set<Pin>)
    requires live.Live() && HasRoot(live.board, e) && Stands(live, named, open, roots)
    modifies live.forest.nets
    ensures live.Live() && Stands(live, more, pins, roots + {RootOf(live.board, e)})
  {
    var root := live.EndpointRoot(e);
    more, pins := named, open;
    if root == null {
      pins := open + {e.pin};
    } else {
      more := named + {root};
    }
  }

  method NamedRoots(live: LiveScope, endpoints: seq<Endpoint>) returns (named: set<Net>, ghost open: set<Pin>)
    requires live.Live() && AllKnown(live.board, endpoints)
    modifies live.forest.nets
    ensures live.Live() && Stands(live, named, open, RootsOf(live.board, endpoints))
  {
    hide Stands, RootsOf, RootOf;
    named, open := {}, {};
    NoneStand(live, endpoints);
    ghost var b := live.board;
    for i := 0 to |endpoints|
      invariant live.Live() && live.board == b && Stands(live, named, open, RootsOf(b, endpoints[..i]))
    {
      RootsMore(b, endpoints, i);
      named, open := NameRoot(live, endpoints[i], named, open, RootsOf(b, endpoints[..i]));
    }
    assert endpoints[..|endpoints|] == endpoints;
  }

  lemma NoneStand(live: LiveScope, endpoints: seq<Endpoint>)
    requires live.Live() && AllKnown(live.board, endpoints)
    ensures Stands(live, {}, {}, RootsOf(live.board, endpoints[..0]))
  {
  }

  method NetSpot(live: LiveScope, net: Net, named: set<Net>, ghost open: set<Pin>, ghost roots: set<Root>) returns (spot: Spot)
    requires live.Live() && live.forest.Owns(net) && Stands(live, named, open, roots)
    modifies live.forest.nets
    ensures live.Live() && Marks(live, spot, InUnion(live.board, roots, net.index))
  {
    var root := live.forest.Root(net);
    spot := if root in named then Within else At(root);
  }

  method PinSpot(live: LiveScope, pin: Pin, named: set<Net>, ghost open: set<Pin>, ghost roots: set<Root>) returns (spot: Spot)
    requires live.Live() && Stands(live, named, open, roots)
    modifies live.forest.nets
    ensures live.Live() && Marks(live, spot, Projected(live.board, roots, pin))
  {
    if pin in live.pins {
      spot := NetSpot(live, live.pins[pin], named, open, roots);
    } else {
      spot := Unbound(pin);
    }
  }

  /** No two pins of a body would be in one place. */
  method BodyClear(live: LiveScope, pins: seq<Pin>, named: set<Net>, ghost open: set<Pin>, ghost roots: set<Root>) returns (ok: bool)
    requires live.Live() && Stands(live, named, open, roots)
    modifies live.forest.nets
    ensures live.Live() && (ok <==> PinsApart(live.board, roots, pins))
  {
    var spots: seq<Spot> := [];
    for i := 0 to |pins|
      invariant live.Live() && |spots| == i
      invariant forall j :: 0 <= j < i ==> Marks(live, spots[j], Projected(live.board, roots, pins[j]))
      invariant PinsApart(live.board, roots, pins[..i])
    {
      var spot := PinSpot(live, pins[i], named, open, roots);
      forall j | 0 <= j < i
        ensures spots[j] == spot <==> Projected(live.board, roots, pins[j]) == Projected(live.board, roots, pins[i])
      {
        MarksTell(live, spots[j], Projected(live.board, roots, pins[j]), spot, Projected(live.board, roots, pins[i]));
      }
      if spot in spots { return false; }
      spots := spots + [spot];
    }
    assert pins[..|pins|] == pins;
    ok := true;
  }

  /** No ordinary body would be shorted. */
  method BodiesClear(live: LiveScope, named: set<Net>, ghost open: set<Pin>, ghost roots: set<Root>) returns (ok: bool)
    requires live.Live() && Stands(live, named, open, roots)
    modifies live.forest.nets
    ensures live.Live() && (ok <==> NoShort(live.board, roots))
  {
    var todo := live.bodies.Keys;
    while todo != {}
      invariant live.Live() && todo <= live.bodies.Keys
      invariant forall body :: body in live.bodies && body !in todo && live.bodies[body].ordinary ==>
        PinsApart(live.board, roots, live.bodies[body].pins)
      decreases |todo|
    {
      var body :| body in todo;
      if live.bodies[body].ordinary {
        var clear := BodyClear(live, live.bodies[body].pins, named, open, roots);
        if !clear { return false; }
      }
      todo := todo - {body};
    }
    ok := true;
  }

  /** The buses met so far that the union takes in are all of one class. */
  ghost predicate OneMet(live: LiveScope, roots: set<Root>, met: Net?, todo: set<string>)
    requires InNets(live.board)
    reads live, live.forest
  {
    forall bus :: bus in live.board.buses && bus !in todo && InUnion(live.board, roots, live.board.buses[bus]).Inside? ==>
      met != null && live.board.labels[live.board.buses[bus]] == met.index
  }

  ghost predicate MetAt(live: LiveScope, roots: set<Root>, met: Net, bus: string)
    requires InNets(live.board)
    reads live, live.forest
  {
    && live.forest.Owns(met) && bus in live.board.buses
    && InUnion(live.board, roots, live.board.buses[bus]).Inside? && live.board.labels[live.board.buses[bus]] == met.index
  }

  /** The representative of a bus that the union takes in. */
  method BusTaken(live: LiveScope, bus: string, named: set<Net>, ghost open: set<Pin>, ghost roots: set<Root>) returns (root: Net?)
    requires live.Live() && bus in live.buses && Stands(live, named, open, roots)
    modifies live.forest.nets
    ensures live.Live()
    ensures root == null <==> !InUnion(live.board, roots, live.board.buses[bus]).Inside?
    ensures root != null ==> MetAt(live, roots, root, bus)
  {
    root := live.forest.Root(live.buses[bus]);
    if root !in named { return null; }
  }

  /** The buses met so far that the union takes in are of one class, if any of the one met at a bus. */
  ghost predicate Meeting(live: LiveScope, roots: set<Root>, met: Net?, bus: string, todo: set<string>)
    requires InNets(live.board)
    reads live, live.forest
  {
    OneMet(live, roots, met, todo) && (met != null ==> MetAt(live, roots, met, bus))
  }

  /** One bus more; it ends the check if the union takes it in along with a bus of another class. */
  method MeetBus(live: LiveScope, bus: string, named: set<Net>, ghost open: set<Pin>, ghost roots: set<Root>,
                 met: Net?, ghost first: string, ghost todo: set<string>)
    returns (ok: bool, now: Net?, ghost place: string)
    requires live.Live() && bus in live.buses && Stands(live, named, open, roots) && Meeting(live, roots, met, first, todo)
    modifies live.forest.nets
    ensures live.Live() && (!ok ==> !OneBus(live.board, roots))
    ensures ok ==> Meeting(live, roots, now, place, todo - {bus})
  {
    hide Stands, InUnion;
    ok, now, place := true, met, first;
    var root := BusTaken(live, bus, named, open, roots);
    if root != null {
      ok, now, place := met == null || met == root, root, bus;
    }
  }

  /** The union takes in the buses of one class at most. */
  method BusesClear(live: LiveScope, named: set<Net>, ghost open: set<Pin>, ghost roots: set<Root>) returns (ok: bool)
    requires live.Live() && Stands(live, named, open, roots)
    modifies live.forest.nets
    ensures live.Live() && (ok <==> OneBus(live.board, roots))
  {
    hide Stands, MetAt;
    var todo := live.buses.Keys;
    var met: Net? := null;
    ghost var first: string := "";
    while todo != {}
      invariant live.Live() && todo <= live.buses.Keys && Meeting(live, roots, met, first, todo)
      decreases |todo|
    {
      var bus :| bus in todo;
      ok, met, first := MeetBus(live, bus, named, open, roots, met, first, todo);
      if !ok { return; }
      todo := todo - {bus};
    }
    ok := true;
  }

  /** No Port would be grounded. */
  method PortsFree(live: LiveScope, named: set<Net>, ghost open: set<Pin>, ghost roots: set<Root>, ground: bool) returns (ok: bool)
    requires live.Live() && live.PortsTied() && Stands(live, named, open, roots)
    modifies live.forest.nets
    ensures live.Live() && (ok <==> PortsClear(live.board, roots, ground))
  {
    var earth := Earth(live);
    var todo := live.ports;
    while todo != {}
      invariant live.Live() && todo <= live.ports
      invariant forall port :: port in live.ports && port !in todo ==> PortClear(live.board, roots, ground, port.index)
      decreases |todo|
    {
      var port :| port in todo;
      var spot := NetSpot(live, port, named, open, roots);
      if spot == At(earth) || (ground && spot == Within) { return false; }
      todo := todo - {port};
    }
    assert forall port :: port in live.board.ports ==> PortClear(live.board, roots, ground, live.forest.nets[port].index);
    ok := true;
  }

  predicate PortClear(b: Board, roots: set<Root>, ground: bool, port: nat)
    requires port < |b.labels|
  {
    InUnion(b, roots, port) != Own(Class(b.labels[0])) && (ground ==> !InUnion(b, roots, port).Inside?)
  }

  lemma StandsWider(live: LiveScope, named: set<Net>, open: set<Pin>, roots: set<Root>, earth: Net)
    requires Stands(live, named, open, roots) && live.forest.Owns(earth)
    ensures Stands(live, named + {earth}, open, roots + {Class(earth.index)})
  {
  }

  method Earth(live: LiveScope) returns (earth: Net)
    requires live.Live()
    modifies live.forest.nets
    ensures live.Live() && live.forest.Owns(earth) && earth.index == live.board.labels[0]
  {
    assert live.forest.Leans(0);
    earth := live.forest.Root(live.forest.ground);
  }

  /** The checks for grounding: the union takes in the ground's class. */
  method GroundChecks(live: LiveScope, named: set<Net>, ghost open: set<Pin>, ghost roots: set<Root>) returns (ok: bool)
    requires live.Live() && live.PortsTied() && Stands(live, named, open, roots)
    modifies live.forest.nets
    ensures live.Live() && (ok <==> AllowedBy(live.board, roots, true))
  {
    var earth := Earth(live);
    StandsWider(live, named, open, roots, earth);
    ok := BodiesClear(live, named + {earth}, open, roots + {Class(earth.index)});
    if ok {
      ok := PortsFree(live, named, open, roots, true);
    }
  }

  /** The checks for a link. */
  method LinkChecks(live: LiveScope, named: set<Net>, ghost open: set<Pin>, ghost roots: set<Root>) returns (ok: bool)
    requires live.Live() && live.PortsTied() && Stands(live, named, open, roots)
    modifies live.forest.nets
    ensures live.Live() && (ok <==> AllowedBy(live.board, roots, false))
  {
    ok := BusesClear(live, named, open, roots);
    if ok {
      ok := BodiesClear(live, named, open, roots);
    }
    if ok {
      ok := PortsFree(live, named, open, roots, false);
    }
  }

  /** `_validate_proposed_union` on live nets, for a link. */
  method LinkClear(live: LiveScope, endpoints: seq<Endpoint>) returns (ok: bool)
    requires live.Live() && live.PortsTied() && AllKnown(live.board, endpoints)
    modifies live.forest.nets
    ensures live.Live() && (ok <==> UnionAllowed(live.board, endpoints, false))
  {
    var named: set<Net>;
    ghost var open: set<Pin>;
    ghost var b := live.board;
    named, open := NamedRoots(live, endpoints);
    assert live.board == b;
    ok := LinkChecks(live, named, open, RootsOf(b, endpoints));
    assert live.board == b;
  }

  /** The same for grounding. */
  method GroundClear(live: LiveScope, endpoints: seq<Endpoint>) returns (ok: bool)
    requires live.Live() && live.PortsTied() && AllKnown(live.board, endpoints)
    modifies live.forest.nets
    ensures live.Live() && (ok <==> UnionAllowed(live.board, endpoints, true))
  {
    var named: set<Net>;
    ghost var open: set<Pin>;
    ghost var b := live.board;
    named, open := NamedRoots(live, endpoints);
    assert live.board == b;
    ok := GroundChecks(live, named, open, RootsOf(b, endpoints));
    assert live.board == b;
  }

  // ---- Links and grounding ----------------------------------------------------------------------------

  lemma TablesKnow(live: LiveScope, endpoints: seq<Endpoint>)
    requires live.Live()
    ensures AllKnown(live.Tables(), endpoints) <==> AllKnown(live.board, endpoints)
  {
    forall i | 0 <= i < |endpoints|
      ensures Known(live.Tables(), endpoints[i]) <==> Known(live.board, endpoints[i])
    {
      live.TablesSuffice([], endpoints[i]);
    }
  }

  predicate SomeApart(b: Board, endpoints: seq<Endpoint>)
    requires InNets(b) && |b.labels| > 0 && AllKnown(b, endpoints)
  {
    exists i: nat :: i < |endpoints| && RootOf(b, endpoints[i]) != RootOf(b, endpoints[0])
  }

  /** Not all endpoints are on one net already. */
  method Redundant(live: LiveScope, endpoints: seq<Endpoint>) returns (redundant: bool)
    requires live.Live() && |endpoints| > 0 && Unique(endpoints) && AllKnown(live.board, endpoints)
    modifies live.forest.nets
    ensures live.Live() && (redundant <==> !SomeApart(live.board, endpoints))
  {
    var first := live.EndpointRoot(endpoints[0]);
    for i := 1 to |endpoints|
      invariant live.Live()
      invariant forall j :: 0 <= j < i ==> RootOf(live.board, endpoints[j]) == RootOf(live.board, endpoints[0])
    {
      var root := live.EndpointRoot(endpoints[i]);
      if root == null || root != first {
        assert endpoints[0] != endpoints[i];
        return false;
      }
    }
    redundant := true;
  }

  /** Every check of a link, before anything is published. */
  method PreparedLink(live: LiveScope, id: string, endpoints: seq<Endpoint>) returns (ok: bool)
    requires live.Live() && live.PortsTied()
    modifies live.forest.nets
    ensures live.Live() && (ok <==> LinkReady(live.board, id, endpoints))
  {
    TablesKnow(live, endpoints);
    if |endpoints| < 2 || !Unique(endpoints) || !AllKnown(live.Tables(), endpoints)
       || exists i :: 0 <= i < |endpoints| && endpoints[i].Ground? {
      return false;
    }
    ghost var b := live.board;
    var redundant := Redundant(live, endpoints);
    if redundant { return false; }
    assert live.board == b;
    ok := LinkClear(live, endpoints);
    assert live.board == b;
    ok := ok && id !in live.ids;
  }

  /** Every check of a grounding, before anything is published. */
  method PreparedGround(live: LiveScope, pins: seq<Endpoint>) returns (ok: bool)
    requires live.Live() && live.PortsTied()
    modifies live.forest.nets
    ensures live.Live() && (ok <==> GroundReady(live.board, pins))
  {
    TablesKnow(live, pins);
    if |pins| < 1 || !Unique(pins) || exists i :: 0 <= i < |pins| && !pins[i].Terminal? { return false; }
    if !AllKnown(live.Tables(), pins) { return false; }
    ghost var b := live.board;
    for i := 0 to |pins|
      invariant live.Live() && live.board == b
      invariant forall j :: 0 <= j < i ==> RootOf(b, pins[j]) != Class(b.labels[0])
    {
      var root := live.EndpointRoot(pins[i]);
      if root != null {
        assert live.forest.Leans(0) && live.forest.Leans(root.index);
        if root.ground { return false; }
      }
    }
    ok := GroundClear(live, pins);
    assert live.board == b;
  }

  /** The first `i` endpoints have the nets numbered in `indices`. */
  ghost predicate Sited(b: Board, endpoints: seq<Endpoint>, indices: seq<nat>, i: nat)
    requires InNets(b) && |b.labels| > 0 && i <= |endpoints| && i <= |indices|
  {
    forall j :: 0 <= j < i ==> HasNet(b, endpoints[j]) && NetAt(b, endpoints[j]) == indices[j]
  }

  /** The nets held so far are those of the first `i` endpoints. */
  ghost predicate Bound(live: LiveScope, endpoints: seq<Endpoint>, nets: seq<Net>, indices: seq<nat>, i: nat)
    requires i <= |endpoints|
    reads live, live.forest, live.forest.nets
  {
    && live.Live() && Valid(live.board) && AllKnown(live.board, endpoints)
    && |indices| == i && live.Owned(nets, indices) && Sited(live.board, endpoints, indices, i)
  }

  method BindNext(live: LiveScope, endpoints: seq<Endpoint>, nets: seq<Net>, ghost indices: seq<nat>)
    returns (more: seq<Net>, ghost sites: seq<nat>)
    requires |nets| < |endpoints| && Bound(live, endpoints, nets, indices, |nets|)
    modifies live`pins, live`board, live.forest
    ensures |more| == |nets| + 1 && Bound(live, endpoints, more, sites, |nets| + 1) && live.Grown()
    ensures live.board == Bind(old(live.board), endpoints[|nets|])
  {
    ghost var b := live.board;
    BindKeeps(b, endpoints[|nets|]);
    var net := live.GetNet(endpoints[|nets|]);
    assert live.Owned(nets, indices);
    live.OwnedMore(nets, indices, [net], [net.index]);
    more, sites := nets + [net], indices + [net.index];
  }

  lemma BoundNone(live: LiveScope, endpoints: seq<Endpoint>)
    requires live.Live() && Valid(live.board) && AllKnown(live.board, endpoints)
    ensures Bound(live, endpoints, [], [], 0) && BindAll(live.board, endpoints, 0) == live.board
  {
  }

  method BindTurns(live: LiveScope, endpoints: seq<Endpoint>) returns (nets: seq<Net>, ghost indices: seq<nat>)
    requires live.Live() && Valid(live.board) && AllKnown(live.board, endpoints)
    modifies live`pins, live`board, live.forest
    ensures Bound(live, endpoints, nets, indices, |endpoints|) && live.Grown()
    ensures live.board == BindAll(old(live.board), endpoints, |endpoints|)
  {
    hide Bind, AllKnown, Bound;
    ghost var b := live.board;
    nets, indices := [], [];
    BoundNone(live, endpoints);
    for i := 0 to |endpoints|
      invariant |nets| == i && Bound(live, endpoints, nets, indices, i) && live.board == BindAll(b, endpoints, i) && live.Grown()
    {
      nets, indices := BindNext(live, endpoints, nets, indices);
    }
  }

  /** Every endpoint bound, in order. */
  method BindEach(live: LiveScope, endpoints: seq<Endpoint>) returns (nets: seq<Net>)
    requires live.Live() && Valid(live.board) && AllKnown(live.board, endpoints)
    modifies live`pins, live`board, live.forest
    ensures live.Live() && Valid(live.board) && AllBound(live.board, endpoints) && live.Grown()
    ensures live.board == BindAll(old(live.board), endpoints, |endpoints|)
    ensures live.Owned(nets, NetsOf(live.board, endpoints))
  {
    hide BindAll, Represents, Canonical;
    ghost var indices: seq<nat>;
    nets, indices := BindTurns(live, endpoints);
    assert indices == NetsOf(live.board, endpoints);
  }

  /** The nets joined with a centre one after the other. */
  method JoinEach(live: LiveScope, centre: Net, nets: seq<Net>, ghost indices: seq<nat>, ground: bool)
    requires live.Live() && live.forest.Owns(centre) && live.Owned(nets, indices)
    modifies live`board, live.forest`labels, live.forest`rank, live.forest.nets
    ensures live.Live()
    ensures live.board == Star(old(live.board), centre.index, indices, |indices|, ground)
  {
    hide Merge;
    ghost var b := live.board;
    for i := 0 to |nets|
      invariant live.Live() && live.board == Star(b, centre.index, indices, i, ground)
    {
      if ground {
        live.JoinNets(nets[i], centre);
      } else {
        live.JoinNets(centre, nets[i]);
      }
    }
  }

  /** Binds all endpoints and joins them: to the ground, or to the first of them. */
  method Unite(live: LiveScope, endpoints: seq<Endpoint>, ground: bool)
    requires live.Live() && Valid(live.board) && AllKnown(live.board, endpoints) && |endpoints| > 0
    modifies live`pins, live`board, live.forest, live.forest.nets
    ensures live.Live() && live.board == United(old(live.board), endpoints, ground) && live.Grown()
  {
    hide Star, BindAll, Merge;
    var nets := BindEach(live, endpoints);
    ghost var indices := NetsOf(live.board, endpoints);
    if ground {
      assert live.forest.Leans(0);
      JoinEach(live, live.forest.ground, nets, indices, true);
    } else {
      JoinEach(live, nets[0], nets[1..], indices[1..], false);
    }
  }

  /** Net numbers stay, so Ports keep their nets. */
  twostate lemma PortsStay(live: LiveScope)
    requires old(live.PortsTied()) && live.Grown() && live.ports == old(live.ports) && live.board.ports == old(live.board.ports)
    ensures live.PortsTied()
  {
  }

  /** A link once every check has passed. */
  method CommitLink(live: LiveScope, id: string, endpoints: seq<Endpoint>)
    requires live.Live() && live.PortsTied() && Valid(live.board) && AllKnown(live.board, endpoints) && |endpoints| > 0
    modifies live`ids, live`pins, live`board, live.forest, live.forest.nets
    ensures live.Live() && live.PortsTied() && live.board == LinkedBoard(old(live.board), id, endpoints) && live.Grown()
  {
    hide BindAll, Grows;
    WithIdKeeps(live.board, id);
    UnitedKeeps(WithId(live.board, id), endpoints, false);
    live.ids := live.ids + {id};
    live.board := WithId(live.board, id);
    Unite(live, endpoints, false);
    PortsStay(live);
  }

  /** A grounding once every check has passed. */
  method CommitGround(live: LiveScope, pins: seq<Endpoint>)
    requires live.Live() && live.PortsTied() && Valid(live.board) && AllKnown(live.board, pins) && |pins| > 0
    modifies live`pins, live`board, live.forest, live.forest.nets
    ensures live.Live() && live.PortsTied() && live.board == GroundedBoard(old(live.board), pins) && live.Grown()
  {
    UnitedKeeps(live.board, pins, true);
    Unite(live, pins, true);
    PortsStay(live);
  }

  /** `link`; a refused call leaves every table as it was. */
  method DeclareLink(live: LiveScope, id: string, endpoints: seq<Endpoint>) returns (ok: bool)
    requires live.Live() && live.PortsTied() && Valid(live.board)
    modifies live`ids, live`pins, live`board, live.forest, live.forest.nets
    ensures live.Live() && live.PortsTied() && Outcome(live.board, ok) == Link(old(live.board), id, endpoints) && live.Grown()
  {
    ghost var b := live.board;
    ok := PreparedLink(live, id, endpoints);
    assert live.board == b;
    if ok { CommitLink(live, id, endpoints); }
  }

  /** `ground_pins`; a refused call leaves every table as it was. */
  method DeclareGround(live: LiveScope, pins: seq<Endpoint>) returns (ok: bool)
    requires live.Live() && live.PortsTied() && Valid(live.board)
    modifies live`pins, live`board, live.forest, live.forest.nets
    ensures live.Live() && live.PortsTied() && Outcome(live.board, ok) == GroundPins(old(live.board), pins) && live.Grown()
  {
    ghost var b := live.board;
    ok := PreparedGround(live, pins);
    assert live.board == b;
    if ok { CommitGround(live, pins); }
  }

  // ---- Series, branch and parallel structures ---------------------------------------------------------

  /** `series`, which names no Port. */
  method DeclareSeries(live: LiveScope, id: string, start: Endpoint, elements: seq<Element>, end: Endpoint) returns (ok: bool)
    requires live.Live() && live.PortsTied() && Valid(live.board)
    modifies live`ids, live`pins, live`board, live`bodies, live.forest, live.forest.nets
    ensures live.Live() && live.PortsTied() && live.Grown()
    ensures Outcome(live.board, ok) == Series(old(live.board), id, start, elements, end)
  {
    SeriesKeeps(live.board, id, start, elements, end);
    ok := live.MakeSeries(id, start, elements, end);
    PortsStay(live);
  }

  /** `branch` starts on a bus or a tap. */
  method DeclareBranch(live: LiveScope, id: string, at: Endpoint, elements: seq<Element>, end: Endpoint) returns (ok: bool)
    requires live.Live() && live.PortsTied() && Valid(live.board)
    modifies live`ids, live`pins, live`board, live`bodies, live.forest, live.forest.nets
    ensures live.Live() && live.PortsTied() && live.Grown()
    ensures Outcome(live.board, ok) == Branch(old(live.board), id, at, elements, end)
  {
    if !at.Bus? && !at.Tap? { return false; }
    ok := DeclareSeries(live, id, at, elements, end);
  }

  /** Every branch prepared on the state before any is laid. */
  method PreparedAll(live: LiveScope, start: Endpoint, branches: seq<seq<Element>>, end: Endpoint) returns (ok: bool)
    requires live.Live()
    modifies live.forest.nets
    ensures live.Live() && (ok <==> AllPrepared(live.board, start, branches, end))
  {
    for i := 0 to |branches|
      invariant live.Live()
      invariant forall j :: 0 <= j < i ==> Prepared(live.board, branches[j], start, end)
    {
      ok := live.PreparedChain(branches[i], start, end);
      if !ok { return; }
    }
    ok := true;
  }

  /** One branch, prepared again on the state it meets. */
  ghost function Fitted(b: Board, start: Endpoint, branch: seq<Element>, end: Endpoint): (after: Outcome)
    requires Valid(b)
    ensures Valid(after.board)
  {
    if Prepared(b, branch, start, end) then
      ChainKeeps(b, branch, start, end);
      Outcome(Chained(b, branch, start, end), true)
    else Outcome(b, false)
  }

  method LayOne(live: LiveScope, start: Endpoint, branch: seq<Element>, end: Endpoint) returns (ok: bool)
    requires live.Live() && Valid(live.board)
    modifies live`pins, live`board, live`bodies, live.forest, live.forest.nets
    ensures live.Live() && live.Grown() && Outcome(live.board, ok) == Fitted(old(live.board), start, branch, end)
  {
    ghost var b := live.board;
    ok := live.PreparedChain(branch, start, end);
    assert live.board == b;
    if ok { live.Chain(branch, start, end); }
  }

  /** The branches are tried in turn until one does not fit. */
  ghost predicate TriedNext(stages: seq<Outcome>, start: Endpoint, branches: seq<seq<Element>>, end: Endpoint, i: nat)
    requires i < |branches| < |stages|
  {
    && Valid(stages[i].board)
    && stages[i + 1] == if stages[i].ok then Fitted(stages[i].board, start, branches[i], end) else stages[i]
  }

  ghost predicate Standing(live: LiveScope, b: Board)
    reads live, live.forest, live.forest.nets
  {
    live.Live() && live.board == b
  }

  method LayAt(live: LiveScope, start: Endpoint, branches: seq<seq<Element>>, end: Endpoint, ghost stages: seq<Outcome>, i: nat)
    returns (ok: bool)
    requires i < |branches| < |stages| && Standing(live, stages[i].board) && stages[i].ok
    requires TriedNext(stages, start, branches, end, i)
    modifies live`pins, live`board, live`bodies, live.forest, live.forest.nets
    ensures Standing(live, stages[i + 1].board) && ok == stages[i + 1].ok && live.Grown()
  {
    ok := LayOne(live, start, branches[i], end);
  }

  /** The branches one after the other, until one does not fit. */
  method LayEach(live: LiveScope, start: Endpoint, branches: seq<seq<Element>>, end: Endpoint, ghost stages: seq<Outcome>)
    returns (ok: bool)
    requires |stages| == |branches| + 1 && Standing(live, stages[0].board) && stages[0].ok
    requires forall i :: 0 <= i < |branches| ==> TriedNext(stages, start, branches, end, i)
    modifies live`pins, live`board, live`bodies, live.forest, live.forest.nets
    ensures Standing(live, stages[|branches|].board) && ok == stages[|branches|].ok && live.Grown()
  {
    hide TriedNext;
    ok := true;
    for i := 0 to |branches|
      invariant Standing(live, stages[i].board) && ok == stages[i].ok && ok && live.Grown()
    {
      ok := LayAt(live, start, branches, end, stages, i);
      if !ok {
        StaysRefused(stages, start, branches, end, i + 1);
        return;
      }
    }
  }

  /** A refused branch is the last one tried. */
  lemma StaysRefused(stages: seq<Outcome>, start: Endpoint, branches: seq<seq<Element>>, end: Endpoint, n: nat)
    requires n <= |branches| && |stages| == |branches| + 1 && !stages[n].ok
    requires forall i :: 0 <= i < |branches| ==> TriedNext(stages, start, branches, end, i)
    ensures stages[|branches|] == stages[n]
    decreases |branches| - n
  {
    if n < |branches| {
      assert TriedNext(stages, start, branches, end, n);
      StaysRefused(stages, start, branches, end, n + 1);
    }
  }

  /** The states on the way, one for each branch tried. */
  ghost function Trials(b: Board, start: Endpoint, branches: seq<seq<Element>>, end: Endpoint): (stages: seq<Outcome>)
    ensures |stages| == |branches| + 1
  {
    seq(|branches| + 1, i requires 0 <= i <= |branches| => Lay(b, branches, i, CheckFor(start, end), ChainFor(start, end)))
  }

  lemma TrialsInTurn(b: Board, start: Endpoint, branches: seq<seq<Element>>, end: Endpoint, i: nat)
    requires Valid(b) && i < |branches|
    ensures TriedNext(Trials(b, start, branches, end), start, branches, end, i)
  {
    hide Chained, Known, Usable;
    ChainsFor(start, end);
    LayKeeps(b, branches, i, CheckFor(start, end), ChainFor(start, end));
  }

  /** Every check of a parallel structure, before anything is published. */
  method PreparedParallel(live: LiveScope, id: string, start: Endpoint, branches: seq<seq<Element>>, end: Endpoint)
    returns (ok: bool)
    requires live.Live()
    modifies live.forest.nets
    ensures live.Live() && (ok <==> ParallelReady(live.board, id, start, branches, end))
  {
    if |branches| < 2 || !Apart(branches) || id in live.ids { return false; }
    ok := PreparedAll(live, start, branches, end);
  }

  /** Lays the branches under a new id. */
  method LayUnder(live: LiveScope, id: string, start: Endpoint, branches: seq<seq<Element>>, end: Endpoint, ghost stages: seq<Outcome>)
    returns (ok: bool)
    requires live.Live() && live.PortsTied()
    requires |stages| == |branches| + 1 && stages[0] == Outcome(WithId(live.board, id), true)
    requires forall i :: 0 <= i < |branches| ==> TriedNext(stages, start, branches, end, i)
    requires stages[|branches|].board.ports == live.board.ports
    modifies live`ids, live`pins, live`board, live`bodies, live.forest, live.forest.nets
    ensures Standing(live, stages[|branches|].board) && live.PortsTied() && ok == stages[|branches|].ok && live.Grown()
  {
    live.ids := live.ids + {id};
    live.board := WithId(live.board, id);
    ok := LayEach(live, start, branches, end, stages);
    PortsStay(live);
  }

  /** `parallel`; once its checks pass the branches laid before a refused one stay. */
  method DeclareParallel(live: LiveScope, id: string, start: Endpoint, branches: seq<seq<Element>>, end: Endpoint) returns (ok: bool)
    requires live.Live() && live.PortsTied() && Valid(live.board)
    modifies live`ids, live`pins, live`board, live`bodies, live.forest, live.forest.nets
    ensures live.Live() && live.PortsTied() && live.Grown()
    ensures Outcome(live.board, ok) == Parallel(old(live.board), id, start, branches, end)
  {
    ghost var b := live.board;
    ok := PreparedParallel(live, id, start, branches, end);
    assert live.board == b;
    if ok {
      TrialsReady(b, id, start, branches, end);
      ok := LayUnder(live, id, start, branches, end, Trials(WithId(b, id), start, branches, end));
    }
  }

  lemma TrialsReady(b: Board, id: string, start: Endpoint, branches: seq<seq<Element>>, end: Endpoint)
    requires Valid(b) && ParallelReady(b, id, start, branches, end)
    ensures var stages := Trials(WithId(b, id), start, branches, end);
      && stages[0] == Outcome(WithId(b, id), true)
      && (forall i :: 0 <= i < |branches| ==> TriedNext(stages, start, branches, end, i))
      && stages[|branches|] == Parallel(b, id, start, branches, end)
      && stages[|branches|].board.ports == b.ports
  {
    WithIdKeeps(b, id);
    forall i | 0 <= i < |branches|
      ensures TriedNext(Trials(WithId(b, id), start, branches, end), start, branches, end, i)
    {
      TrialsInTurn(WithId(b, id), start, branches, end, i);
    }
    ChainsFor(start, end);
    LayKeeps(WithId(b, id), branches, |branches|, CheckFor(start, end), ChainFor(start, end));
  }

  // ---- Buses and Ports ----------------------------------------------------------------------------------

  /** `bus` */
  method DeclareBus(live: LiveScope, id: string) returns (ok: bool)
    requires live.Live() && live.PortsTied() && Valid(live.board)
    modifies live`buses, live`board, live.forest
    ensures live.Live() && live.PortsTied() && live.Grown() && Outcome(live.board, ok) == AddBus(old(live.board), id)
  {
    if id in live.buses { return false; }
    AddBusKeeps(live.board, id, Ground);
    live.board := AddBus(live.board, id).board;
    var net := live.forest.Add();
    live.buses := live.buses[id := net];
    ok := true;
  }

  /** No Port lies on the class of this net. */
  method PortFree(live: LiveScope, root: Net) returns (free: bool)
    requires live.Live() && live.PortsTied() && live.forest.Owns(root)
    modifies live.forest.nets
    ensures live.Live() && (free <==> forall port :: port in live.board.ports ==> live.board.labels[port] != root.index)
  {
    var todo := live.ports;
    while todo != {}
      invariant live.Live() && todo <= live.ports
      invariant forall port :: port in live.ports && port !in todo ==> live.board.labels[port.index] != root.index
      decreases |todo|
    {
      var port :| port in todo;
      var other := live.forest.Root(port);
      if other == root { return false; }
      todo := todo - {port};
    }
    assert forall port :: port in live.board.ports ==> live.board.labels[live.forest.nets[port].index] != root.index;
    free := true;
  }

  method PreparedPort(live: LiveScope, at: Endpoint) returns (ok: bool)
    requires live.Live() && live.PortsTied()
    modifies live.forest.nets
    ensures live.Live() && (ok <==> PortReady(live.board, at))
  {
    live.TablesSuffice([], at);
    if (!at.Bus? && !at.Tap?) || !Known(live.Tables(), at) { return false; }
    ghost var b := live.board;
    var root := live.EndpointRoot(at);
    assert live.board == b && live.forest.Leans(0) && live.forest.Leans(root.index);
    if root.ground { return false; }
    ok := PortFree(live, root);
    assert live.board == b;
  }

  /** The net of a bus or tap enters the table of Ports. */
  method CommitPort(live: LiveScope, at: Endpoint)
    requires live.Live() && live.PortsTied() && (at.Bus? || at.Tap?) && Known(live.board, at)
    modifies live`ports, live`board
    ensures live.Live() && live.PortsTied() && live.Grown()
    ensures live.board == old(live.board).(ports := old(live.board).ports + {NetAt(old(live.board), at)})
  {
    var net := live.buses[at.bus];
    live.ports := live.ports + {net};
    live.board := live.board.(ports := live.board.ports + {net.index});
  }

  /** `add_port` */
  method DeclarePort(live: LiveScope, at: Endpoint) returns (ok: bool)
    requires live.Live() && live.PortsTied() && Valid(live.board)
    modifies live`ports, live`board, live.forest.nets
    ensures live.Live() && live.PortsTied() && live.Grown() && Outcome(live.board, ok) == AddPort(old(live.board), at)
  {
    ghost var b := live.board;
    ok := PreparedPort(live, at);
    assert live.board == b;
    if ok { CommitPort(live, at); }
  }

  // ---- Whole runs on live nets --------------------------------------------------------------------------

  method Operate(live: LiveScope, operation: Operation) returns (ok: bool)
    requires live.Live() && live.PortsTied() && Valid(live.board)
    modifies live`ids, live`buses, live`ports, live`pins, live`board, live`bodies, live.forest, live.forest.nets
    ensures live.Live() && live.PortsTied() && live.Grown()
    ensures Outcome(live.board, ok) == Perform(old(live.board), operation)
  {
    match operation
    case MakeSeries(id, start, elements, end) => ok := DeclareSeries(live, id, start, elements, end);
    case MakeBranch(id, at, elements, end) => ok := DeclareBranch(live, id, at, elements, end);
    case MakeParallel(id, start, branches, end) => ok := DeclareParallel(live, id, start, branches, end);
    case MakeLink(id, endpoints) => ok := DeclareLink(live, id, endpoints);
    case MakeGround(pins) => ok := DeclareGround(live, pins);
    case MakeBus(id) => ok := DeclareBus(live, id);
    case MakePort(at) => ok := DeclarePort(live, at);
  }

  ghost predicate PerformsNext(stages: seq<Board>, operations: seq<Operation>, i: nat)
    requires i < |operations| < |stages|
  {
    Valid(stages[i]) && stages[i + 1] == Perform(stages[i], operations[i]).board
  }

  method OperateAt(live: LiveScope, operations: seq<Operation>, ghost stages: seq<Board>, i: nat)
    requires i < |operations| < |stages| && Standing(live, stages[i]) && live.PortsTied() && PerformsNext(stages, operations, i)
    modifies live`ids, live`buses, live`ports, live`pins, live`board, live`bodies, live.forest, live.forest.nets
    ensures Standing(live, stages[i + 1]) && live.PortsTied() && live.Grown()
  {
    var _ := Operate(live, operations[i]);
  }

  method OperateEach(live: LiveScope, operations: seq<Operation>, ghost stages: seq<Board>)
    requires |stages| == |operations| + 1 && Standing(live, stages[0]) && live.PortsTied()
    requires forall i :: 0 <= i < |operations| ==> PerformsNext(stages, operations, i)
    modifies live`ids, live`buses, live`ports, live`pins, live`board, live`bodies, live.forest, live.forest.nets
    ensures Standing(live, stages[|operations|]) && live.PortsTied() && live.Grown()
  {
    for i := 0 to |operations|
      invariant Standing(live, stages[i]) && live.PortsTied() && live.Grown()
    {
      OperateAt(live, operations, stages, i);
    }
  }

  /** A run of operations, refused ones included, takes the live nets where the specification says. */
  method OperateAll(live: LiveScope, operations: seq<Operation>)
    requires live.Live() && live.PortsTied() && Valid(live.board)
    modifies live`ids, live`buses, live`ports, live`pins, live`board, live`bodies, live.forest, live.forest.nets
    ensures live.Live() && live.PortsTied() && live.Grown()
    ensures live.board == Performed(old(live.board), operations, |operations|)
  {
    hide Perform, Represents;
    ghost var b := live.board;
    ghost var stages := seq(|operations| + 1, i requires 0 <= i <= |operations| => Performed(b, operations, i));
    OperateEach(live, operations, stages);
  }

  /** Two endpoints have one representative exactly when the declared joins relate their nets. */
  method SameNet(live: LiveScope, x: Endpoint, y: Endpoint) returns (same: bool)
    requires live.Live() && Valid(live.board) && HasNet(live.board, x) && HasNet(live.board, y)
    modifies live.forest.nets
    ensures live.Live() && live.board == old(live.board)
    ensures same <==> Related(live.board.wires, NetAt(live.board, x), NetAt(live.board, y))
  {
    RootsAreClosure(live.board, x, y);
    ghost var b := live.board;
    var first := live.EndpointRoot(x);
    assert live.board == b;
    var second := live.EndpointRoot(y);
    assert live.board == b;
    same := first == second;
  }

  /** After a run two endpoints have one representative, or are one unused pin, exactly when the ties
      declared in the run relate them. */
  method SameAfterRun(live: LiveScope, ghost b: Board, ghost operations: seq<Operation>, x: Endpoint, y: Endpoint) returns (same: bool)
    requires live.Live() && Valid(b) && live.board == Performed(b, operations, |operations|)
    requires HasRoot(live.board, x) && HasRoot(live.board, y)
    modifies live.forest.nets
    ensures live.Live() && live.board == old(live.board)
    ensures same <==> Tied(b, RunTies(b, operations, |operations|), x, y)
  {
    hide Performed, RunTies, Tied;
    ghost var c := live.board;
    RunExact(b, operations, |operations|, x, y);
    var first := live.EndpointRoot(x);
    assert live.board == c;
    var second := live.EndpointRoot(y);
    assert live.board == c;
    same := if first == null && second == null then x == y else first == second;
  }
}
