/** Which links, groundings and Ports are allowed. */
module Permits {
  // Acceptance is spelled out on the board before the call: its buses, taps, pins, nets, bodies and Ports.

  import opened Partition
  import opened Scope
  import opened Unions
  import opened Refusals

  predicate Distinct(endpoints: seq<Endpoint>) {
    forall i, j :: 0 <= i < |endpoints| && 0 <= j < |endpoints| && endpoints[i] == endpoints[j] ==> i == j
  }

  /** Some endpoint is on the class of net `n`. */
  predicate Named(b: Board, endpoints: seq<Endpoint>, n: nat)
    requires InNets(b) && 0 < |b.labels| && n < |b.labels|
  {
    exists e :: e in endpoints && On(b, e, n)
  }

  lemma NamedIsInside(b: Board, endpoints: seq<Endpoint>, n: nat)
    requires InNets(b) && n < |b.labels| && AllKnown(b, endpoints)
    ensures Named(b, endpoints, n) <==> Class(b.labels[n]) in RootsOf(b, endpoints)
  {
    if Named(b, endpoints, n) {
      var e :| e in endpoints && On(b, e, n);
      var i :| 0 <= i < |endpoints| && endpoints[i] == e;
      OnIsRoot(b, e, n);
      assert RootOf(b, endpoints[i]) in RootsOf(b, endpoints);
    }
    if Class(b.labels[n]) in RootsOf(b, endpoints) {
      var i: nat :| i < |endpoints| && RootOf(b, endpoints[i]) == Class(b.labels[n]);
      OnIsRoot(b, endpoints[i], n);
      assert endpoints[i] in endpoints;
    }
  }

  /** The union would put two bound pins of a body on one net, or they are on one already. */
  predicate Shorts(b: Board, endpoints: seq<Endpoint>, p: Pin, q: Pin)
    requires InNets(b) && 0 < |b.labels|
  {
    || Touch(b, Terminal(p), Terminal(q))
    || (p in b.nets && q in b.nets && Named(b, endpoints, b.nets[p]) && Named(b, endpoints, b.nets[q]))
  }

  predicate ShortsNone(b: Board, endpoints: seq<Endpoint>)
    requires InNets(b) && 0 < |b.labels|
  {
    forall body, i, j :: body in b.bodies && b.bodies[body].ordinary && 0 <= i < j < |b.bodies[body].pins| ==>
      !Shorts(b, endpoints, b.bodies[body].pins[i], b.bodies[body].pins[j])
  }

  /** Buses that a union would put on one net are on one already. */
  predicate MergesNoBuses(b: Board, endpoints: seq<Endpoint>)
    requires InNets(b) && 0 < |b.labels|
  {
    forall x, y :: x in b.buses && y in b.buses && Named(b, endpoints, b.buses[x]) && Named(b, endpoints, b.buses[y]) ==>
      b.labels[b.buses[x]] == b.labels[b.buses[y]]
  }

  /** A link is allowed: two or more distinct endpoints of the scope, none of them the ground and not all on one
      node, that merge no buses, short no ordinary body and leave no Port on the ground outside the union. */
  predicate MayLink(b: Board, id: string, endpoints: seq<Endpoint>)
    requires InNets(b) && 0 < |b.labels|
  {
    && |endpoints| >= 2 && Distinct(endpoints)
    && (forall e :: e in endpoints ==> There(b, e) && e != Ground)
    && (exists e :: e in endpoints && !Touch(b, e, endpoints[0]))
    && MergesNoBuses(b, endpoints) && ShortsNone(b, endpoints)
    && (forall port :: port in b.ports && b.labels[port] == b.labels[0] ==> Named(b, endpoints, port))
    && id !in b.ids
  }

  /** Grounding is allowed: one or more distinct pins of the scope, none grounded, that short no ordinary body with
      the ground and touch no Port, while no Port is on the ground. */
  predicate MayGround(b: Board, pins: seq<Endpoint>)
    requires InNets(b) && 0 < |b.labels|
  {
    && |pins| >= 1 && Distinct(pins)
    && (forall e :: e in pins ==> There(b, e) && e.Terminal? && !Touch(b, e, Ground))
    && ShortsNone(b, pins + [Ground])
    && (forall port :: port in b.ports ==> b.labels[port] != b.labels[0] && !Named(b, pins, port))
  }

  lemma ShortsIsProjected(b: Board, endpoints: seq<Endpoint>, p: Pin, q: Pin)
    requires InNets(b) && 0 < |b.labels| && AllKnown(b, endpoints)
    ensures Shorts(b, endpoints, p, q) <==> Projected(b, RootsOf(b, endpoints), p) == Projected(b, RootsOf(b, endpoints), q)
  {
    hide Named, RootsOf;
    if p in b.nets { NamedIsInside(b, endpoints, b.nets[p]); }
    if q in b.nets { NamedIsInside(b, endpoints, b.nets[q]); }
  }

  lemma ShortsNoneIsApart(b: Board, endpoints: seq<Endpoint>)
    requires InNets(b) && 0 < |b.labels| && AllKnown(b, endpoints)
    ensures ShortsNone(b, endpoints) <==> NoShort(b, RootsOf(b, endpoints))
  {
    hide Shorts, Projected, RootsOf;
    forall p, q
      ensures Shorts(b, endpoints, p, q) <==> Projected(b, RootsOf(b, endpoints), p) == Projected(b, RootsOf(b, endpoints), q)
    {
      ShortsIsProjected(b, endpoints, p, q);
    }
    if NoShort(b, RootsOf(b, endpoints)) {
      forall body, i, j | body in b.bodies && b.bodies[body].ordinary && 0 <= i < j < |b.bodies[body].pins|
        ensures !Shorts(b, endpoints, b.bodies[body].pins[i], b.bodies[body].pins[j])
      {
        assert PinsApart(b, RootsOf(b, endpoints), b.bodies[body].pins);
      }
    }
  }

  lemma BusesAreOne(b: Board, endpoints: seq<Endpoint>)
    requires InNets(b) && 0 < |b.labels| && AllKnown(b, endpoints)
    ensures MergesNoBuses(b, endpoints) <==> OneBus(b, RootsOf(b, endpoints))
  {
    hide Named, RootsOf;
    forall bus | bus in b.buses
      ensures Named(b, endpoints, b.buses[bus]) <==> InUnion(b, RootsOf(b, endpoints), b.buses[bus]).Inside?
    {
      NamedIsInside(b, endpoints, b.buses[bus]);
    }
  }

  lemma PortsAreClear(b: Board, endpoints: seq<Endpoint>, ground: bool)
    requires InNets(b) && 0 < |b.labels| && AllKnown(b, endpoints)
    ensures PortsClear(b, RootsOf(b, endpoints), ground) <==>
      if ground then forall port :: port in b.ports ==> b.labels[port] != b.labels[0] && !Named(b, endpoints, port)
      else forall port :: port in b.ports && b.labels[port] == b.labels[0] ==> Named(b, endpoints, port)
  {
    hide Named, RootsOf;
    forall port | port in b.ports
      ensures Named(b, endpoints, port) <==> InUnion(b, RootsOf(b, endpoints), port).Inside?
    {
      NamedIsInside(b, endpoints, port);
    }
  }

  lemma AllThere(b: Board, endpoints: seq<Endpoint>)
    ensures AllKnown(b, endpoints) <==> forall e :: e in endpoints ==> There(b, e)
  {
    hide Known, There;
    forall e ensures There(b, e) <==> Known(b, e) { ThereIsKnown(b, e); }
    if AllKnown(b, endpoints) {
      forall e | e in endpoints ensures There(b, e) {
        var i :| 0 <= i < |endpoints| && endpoints[i] == e;
        assert Known(b, endpoints[i]);
      }
    } else {
      var i :| 0 <= i < |endpoints| && !Known(b, endpoints[i]);
      assert endpoints[i] in endpoints;
    }
  }

  lemma AllDistinct(endpoints: seq<Endpoint>)
    ensures Unique(endpoints) <==> Distinct(endpoints)
  {
  }

  lemma SomeApart(b: Board, endpoints: seq<Endpoint>)
    requires InNets(b) && 0 < |b.labels| && AllKnown(b, endpoints) && |endpoints| > 0
    ensures (exists e :: e in endpoints && !Touch(b, e, endpoints[0])) <==>
      exists i: nat :: i < |endpoints| && RootOf(b, endpoints[i]) != RootOf(b, endpoints[0])
  {
    hide Touch, RootOf;
    forall i | 0 <= i < |endpoints|
      ensures Touch(b, endpoints[i], endpoints[0]) <==> RootOf(b, endpoints[i]) == RootOf(b, endpoints[0])
    {
      TouchIsRoot(b, endpoints[i], endpoints[0]);
    }
    if e :| e in endpoints && !Touch(b, e, endpoints[0]) {
      var i: nat :| i < |endpoints| && endpoints[i] == e;
      assert RootOf(b, endpoints[i]) != RootOf(b, endpoints[0]);
    }
    if i: nat :| i < |endpoints| && RootOf(b, endpoints[i]) != RootOf(b, endpoints[0]) {
      assert endpoints[i] in endpoints && !Touch(b, endpoints[i], endpoints[0]);
    }
  }

  lemma NoneGround(endpoints: seq<Endpoint>)
    ensures (forall i :: 0 <= i < |endpoints| ==> !endpoints[i].Ground?) <==> forall e :: e in endpoints ==> e != Ground
  {
    if Ground in endpoints {
      var i :| 0 <= i < |endpoints| && endpoints[i] == Ground;
    }
    forall i | 0 <= i < |endpoints| && Ground !in endpoints ensures !endpoints[i].Ground? {
      assert endpoints[i] in endpoints;
    }
  }

  lemma MayLinkIsReady(b: Board, id: string, endpoints: seq<Endpoint>)
    requires InNets(b) && 0 < |b.labels|
    ensures MayLink(b, id, endpoints) <==> LinkReady(b, id, endpoints)
  {
    hide Touch, ShortsNone, NoShort, OneBus, MergesNoBuses, PortsClear, Known, There, Named, RootsOf, RootOf, Unique, Distinct, AllKnown;
    AllThere(b, endpoints);
    AllDistinct(endpoints);
    NoneGround(endpoints);
    if AllKnown(b, endpoints) && |endpoints| > 0 {
      BusesAreOne(b, endpoints);
      ShortsNoneIsApart(b, endpoints);
      PortsAreClear(b, endpoints, false);
      SomeApart(b, endpoints);
    }
  }

  predicate Reaches(b: Board, endpoints: seq<Endpoint>, x: Endpoint)
    requires InNets(b) && 0 < |b.labels|
  {
    exists e :: e in endpoints && Touch(b, e, x)
  }


  lemma ReachesIsIn(b: Board, endpoints: seq<Endpoint>, x: Endpoint)
    requires InNets(b) && 0 < |b.labels| && AllKnown(b, endpoints) && HasRoot(b, x)
    ensures Reaches(b, endpoints, x) <==> InRoots(b, endpoints, x)
  {
    hide Touch, RootOf;
    forall i | 0 <= i < |endpoints|
      ensures Touch(b, endpoints[i], x) <==> RootOf(b, endpoints[i]) == RootOf(b, x)
    {
      TouchIsRoot(b, endpoints[i], x);
    }
    if Reaches(b, endpoints, x) {
      var e :| e in endpoints && Touch(b, e, x);
      var i: nat :| i < |endpoints| && endpoints[i] == e;
      assert RootOf(b, endpoints[i]) in RootsOf(b, endpoints);
    }
    if InRoots(b, endpoints, x) {
      var i: nat :| i < |endpoints| && RootOf(b, endpoints[i]) == RootOf(b, x);
      assert endpoints[i] in endpoints && Touch(b, endpoints[i], x);
    }
  }

  /** Two endpoints share a node after a union exactly when they did or both classes are taken in. */
  lemma UnitesReached(b: Board, after: Board, endpoints: seq<Endpoint>, ground: bool, x: Endpoint, y: Endpoint)
    requires Valid(b) && Valid(after) && AllKnown(b, endpoints) && HasRoot(b, x) && HasRoot(b, y)
    requires HasRoot(after, x) && HasRoot(after, y) && UnitedExactly(b, after, endpoints, ground, x, y)
    ensures Unites(b, after, if ground then endpoints + [Ground] else endpoints, x, y)
  {
    TouchIsRoot(b, x, y);
    TouchIsRoot(after, x, y);
    TouchIsRoot(b, Ground, x);
    TouchIsRoot(b, Ground, y);
    ReachesIsIn(b, endpoints, x);
    ReachesIsIn(b, endpoints, y);
    hide Touch, InRoots;
    ReachesMore(b, endpoints, x);
    ReachesMore(b, endpoints, y);
  }

  lemma ReachesMore(b: Board, endpoints: seq<Endpoint>, x: Endpoint)
    requires InNets(b) && 0 < |b.labels|
    ensures Reaches(b, endpoints + [Ground], x) <==> Reaches(b, endpoints, x) || Touch(b, Ground, x)
  {
    hide Touch;
    if Touch(b, Ground, x) { assert Ground in endpoints + [Ground]; }
  }

  predicate Unites(b: Board, after: Board, endpoints: seq<Endpoint>, x: Endpoint, y: Endpoint)
    requires InNets(b) && 0 < |b.labels| && InNets(after) && 0 < |after.labels|
  {
    Touch(after, x, y) <==> Touch(b, x, y) || (Reaches(b, endpoints, x) && Reaches(b, endpoints, y))
  }

  /** A link is accepted exactly when it is allowed, refused it leaves the board, and accepted it puts on one node
      what was on one node or named. */
  lemma LinkAccepted(b: Board, id: string, endpoints: seq<Endpoint>, x: Endpoint, y: Endpoint)
    requires Valid(b) && HasRoot(b, x) && HasRoot(b, y)
    ensures var outcome := Perform(b, MakeLink(id, endpoints));
      && (outcome.ok <==> MayLink(b, id, endpoints)) && (!outcome.ok ==> outcome.board == b)
      && Valid(outcome.board)
      && (outcome.ok ==>
            outcome.board.ids == b.ids + {id} && outcome.board.bodies == b.bodies && Unites(b, outcome.board, endpoints, x, y))
  {
    MayLinkIsReady(b, id, endpoints);
    hide MayLink, UnionAllowed, Valid, UnitedExactly, Unites;
    if LinkReady(b, id, endpoints) {
      LinkExact(b, id, endpoints, x, y);
      UnitesReached(b, LinkedBoard(b, id, endpoints), endpoints, false, x, y);
    }
  }

  lemma PinsOnly(b: Board, pins: seq<Endpoint>)
    requires InNets(b) && 0 < |b.labels| && AllKnown(b, pins)
    ensures (forall i :: 0 <= i < |pins| ==> pins[i].Terminal?) &&
            (forall i :: 0 <= i < |pins| ==> RootOf(b, pins[i]) != Class(b.labels[0])) <==>
      forall e :: e in pins ==> e.Terminal? && !Touch(b, e, Ground)
  {
    hide Touch, RootOf;
    forall i | 0 <= i < |pins| ensures Touch(b, pins[i], Ground) <==> RootOf(b, pins[i]) == Class(b.labels[0]) {
      TouchIsRoot(b, pins[i], Ground);
      OnIsRoot(b, Ground, 0);
    }
    if !forall e :: e in pins ==> e.Terminal? && !Touch(b, e, Ground) {
      var e :| e in pins && !(e.Terminal? && !Touch(b, e, Ground));
      var i :| 0 <= i < |pins| && pins[i] == e;
    } else {
      forall i | 0 <= i < |pins| ensures pins[i].Terminal? && RootOf(b, pins[i]) != Class(b.labels[0]) { assert pins[i] in pins; }
    }
  }

  lemma WideRoots(b: Board, pins: seq<Endpoint>)
    requires InNets(b) && 0 < |b.labels| && AllKnown(b, pins)
    ensures AllKnown(b, pins + [Ground]) && RootsOf(b, pins + [Ground]) == RootsOf(b, pins) + {Class(b.labels[0])}
  {
    var wide := pins + [Ground];
    forall i | 0 <= i < |wide| ensures Known(b, wide[i]) {
      if i < |pins| { assert wide[i] == pins[i]; }
    }
    forall root | root in RootsOf(b, pins) + {Class(b.labels[0])} ensures root in RootsOf(b, wide) {
      if root in RootsOf(b, pins) {
        var i: nat :| i < |pins| && RootOf(b, pins[i]) == root;
        assert wide[i] == pins[i];
      } else {
        assert RootOf(b, wide[|pins|]) == root;
      }
    }
  }

  lemma MayGroundIsReady(b: Board, pins: seq<Endpoint>)
    requires InNets(b) && 0 < |b.labels|
    ensures MayGround(b, pins) <==> GroundReady(b, pins)
  {
    hide Touch, ShortsNone, NoShort, OneBus, PortsClear, Known, There, Named, RootsOf, RootOf, Unique, Distinct, AllKnown;
    AllThere(b, pins);
    AllDistinct(pins);
    if AllKnown(b, pins) {
      WideRoots(b, pins);
      ShortsNoneIsApart(b, pins + [Ground]);
      PortsAreClear(b, pins, true);
      PinsOnly(b, pins);
    }
  }

  /** Grounding is accepted exactly when it is allowed, refused it leaves the board, and accepted it puts on one node
      what was on one node, named or grounded. */
  lemma GroundAccepted(b: Board, pins: seq<Endpoint>, x: Endpoint, y: Endpoint)
    requires Valid(b) && HasRoot(b, x) && HasRoot(b, y)
    ensures var outcome := Perform(b, MakeGround(pins));
      && (outcome.ok <==> MayGround(b, pins)) && (!outcome.ok ==> outcome.board == b)
      && Valid(outcome.board)
      && (outcome.ok ==>
            outcome.board.ids == b.ids && outcome.board.bodies == b.bodies && Unites(b, outcome.board, pins + [Ground], x, y))
  {
    MayGroundIsReady(b, pins);
    hide MayGround, UnionAllowed, Valid, UnitedExactly, Unites;
    if GroundReady(b, pins) {
      UnitedIsExact(b, pins, true, x, y);
      UnitesReached(b, GroundedBoard(b, pins), pins, true, x, y);
    }
  }

  /** A Port is accepted exactly on a bus or tap of the scope whose class is not the ground's and has no Port yet. */
  lemma PortAccepted(b: Board, at: Endpoint)
    requires Valid(b)
    ensures var outcome := Perform(b, MakePort(at));
      && (outcome.ok <==> (at.Bus? || at.Tap?) && There(b, at) && !On(b, at, 0) && forall port :: port in b.ports ==> !On(b, at, port))
      && (!outcome.ok ==> outcome.board == b)
      && (outcome.ok ==> exists port: nat :: outcome.board == b.(ports := b.ports + {port}) && port < |b.labels| && On(b, at, port))
  {
    if at.Bus? || at.Tap? {
      forall n: nat | n < |b.labels| && There(b, at) ensures On(b, at, n) <==> b.labels[NetAt(b, at)] == b.labels[n] {
      }
      if There(b, at) { assert b.(ports := b.ports + {NetAt(b, at)}).ports == b.ports + {NetAt(b, at)}; }
    }
  }
}
