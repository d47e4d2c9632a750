/** Links and grounding: the check of a proposed union, and what an accepted one does. */
module Unions {
  // Includes exactly what the check does not see: pins that have no net yet.

  import opened Partition
  import opened Scope

  // ---- The check ----------------------------------------------------------------------------------

  /** Where a net would be: the united class, or its own. */
  datatype Place = Inside | Own(root: Root)

  function RootsOf(b: Board, endpoints: seq<Endpoint>): (roots: set<Root>)
    requires InNets(b) && |b.labels| > 0 && AllKnown(b, endpoints)
    ensures forall i :: 0 <= i < |endpoints| ==> RootOf(b, endpoints[i]) in roots
    ensures forall root :: root in roots ==> exists i: nat :: i < |endpoints| && RootOf(b, endpoints[i]) == root
  {
    set i | 0 <= i < |endpoints| :: RootOf(b, endpoints[i])
  }

  predicate AllKnown(b: Board, endpoints: seq<Endpoint>) {
    forall i :: 0 <= i < |endpoints| ==> Known(b, endpoints[i])
  }

  /** A bound net is projected into the union; an unused pin stays itself. */
  function Projected(b: Board, roots: set<Root>, pin: Pin): Place
    requires InNets(b)
  {
    if pin !in b.nets then Own(Open(pin)) else InUnion(b, roots, b.nets[pin])
  }

  function InUnion(b: Board, roots: set<Root>, net: nat): Place
    requires net < |b.labels|
  {
    if Class(b.labels[net]) in roots then Inside else Own(Class(b.labels[net]))
  }

  /** No ordinary body would have two of its terminals in one place. */
  predicate NoShort(b: Board, roots: set<Root>)
    requires InNets(b)
  {
    forall body :: body in b.bodies && b.bodies[body].ordinary ==> PinsApart(b, roots, b.bodies[body].pins)
  }

  predicate PinsApart(b: Board, roots: set<Root>, pins: seq<Pin>)
    requires InNets(b)
  {
    forall i, j :: 0 <= i < j < |pins| ==> Projected(b, roots, pins[i]) != Projected(b, roots, pins[j])
  }

  predicate OneBus(b: Board, roots: set<Root>)
    requires InNets(b)
  {
    forall x, y :: x in b.buses && y in b.buses && InUnion(b, roots, b.buses[x]).Inside? && InUnion(b, roots, b.buses[y]).Inside? ==>
      b.labels[b.buses[x]] == b.labels[b.buses[y]]
  }

  predicate PortsClear(b: Board, roots: set<Root>, ground: bool)
    requires InNets(b) && |b.labels| > 0
  {
    forall port :: port in b.ports ==>
      && InUnion(b, roots, port) != Own(Class(b.labels[0]))
      && (ground ==> !InUnion(b, roots, port).Inside?)
  }

  /** `_validate_proposed_union`; grounding projects onto the ground's own class. */
  predicate UnionAllowed(b: Board, endpoints: seq<Endpoint>, ground: bool)
    requires InNets(b) && |b.labels| > 0 && AllKnown(b, endpoints)
  {
    AllowedBy(b, RootsOf(b, endpoints), ground)
  }

  predicate AllowedBy(b: Board, roots: set<Root>, ground: bool)
    requires InNets(b) && |b.labels| > 0
  {
    var wide := if ground then roots + {Class(b.labels[0])} else roots;
    (ground || OneBus(b, roots)) && NoShort(b, wide) && PortsClear(b, roots, ground)
  }

  // ---- The operations -------------------------------------------------------------------------------

  function BindAll(b: Board, endpoints: seq<Endpoint>, n: nat): (bound: Board)
    requires n <= |endpoints|
  {
    if n == 0 then b else Bind(BindAll(b, endpoints, n - 1), endpoints[n - 1])
  }

  function NetsOf(b: Board, endpoints: seq<Endpoint>): (nets: seq<nat>)
    requires InNets(b) && |b.labels| > 0 && forall i :: 0 <= i < |endpoints| ==> HasNet(b, endpoints[i])
    ensures |nets| == |endpoints| && forall i :: 0 <= i < |nets| ==> nets[i] < |b.labels| && nets[i] == NetAt(b, endpoints[i])
  {
    seq(|endpoints|, i requires 0 <= i < |endpoints| => NetAt(b, endpoints[i]))
  }

  /** Joins the first `n` nets with the centre: a link joins them to it, grounding joins it to them. */
  function Star(b: Board, centre: nat, nets: seq<nat>, n: nat, ground: bool): (star: Board)
    requires n <= |nets| && centre < |b.labels| && forall i :: 0 <= i < |nets| ==> nets[i] < |b.labels|
    ensures |star.labels| == |b.labels|
  {
    if n == 0 then b
    else
      var before := Star(b, centre, nets, n - 1, ground);
      if ground then Joined(before, nets[n - 1], centre) else Joined(before, centre, nets[n - 1])
  }

  predicate Unique(endpoints: seq<Endpoint>) {
    forall i, j :: 0 <= i < j < |endpoints| ==> endpoints[i] != endpoints[j]
  }

  predicate LinkReady(b: Board, id: string, endpoints: seq<Endpoint>)
    requires InNets(b) && |b.labels| > 0
  {
    && |endpoints| >= 2 && Unique(endpoints)
    && AllKnown(b, endpoints) && (forall i :: 0 <= i < |endpoints| ==> !endpoints[i].Ground?)
    && (exists i: nat :: i < |endpoints| && RootOf(b, endpoints[i]) != RootOf(b, endpoints[0]))
    && UnionAllowed(b, endpoints, false)
    && id !in b.ids
  }

  predicate GroundReady(b: Board, endpoints: seq<Endpoint>)
    requires InNets(b) && |b.labels| > 0
  {
    && |endpoints| >= 1 && Unique(endpoints)
    && AllKnown(b, endpoints) && (forall i :: 0 <= i < |endpoints| ==> endpoints[i].Terminal?)
    && (forall i :: 0 <= i < |endpoints| ==> RootOf(b, endpoints[i]) != Class(b.labels[0]))
    && UnionAllowed(b, endpoints, true)
  }

  // ---- What binding and joining do --------------------------------------------------------------------

  lemma {:induction false} BindAllKeeps(b: Board, endpoints: seq<Endpoint>, n: nat)
    requires Valid(b) && n <= |endpoints| && AllKnown(b, endpoints)
    ensures var bound := BindAll(b, endpoints, n);
      && Valid(bound) && Grows(b, bound) && bound.bodies == b.bodies && bound.ids == b.ids
      && (forall i :: 0 <= i < n ==> HasNet(bound, endpoints[i]))
  {
    if n > 0 {
      BindAllKeeps(b, endpoints, n - 1);
      var before := BindAll(b, endpoints, n - 1);
      BindKeeps(before, endpoints[n - 1]);
      GrowsTwice(b, before, BindAll(b, endpoints, n));
    }
  }

  lemma {:induction false} StarKeeps(b: Board, centre: nat, nets: seq<nat>, n: nat, ground: bool)
    requires Valid(b) && n <= |nets| && centre < |b.labels| && forall i :: 0 <= i < |nets| ==> nets[i] < |b.labels|
    ensures var star := Star(b, centre, nets, n, ground);
      Valid(star) && Grows(b, star) && star.bodies == b.bodies && star.ids == b.ids && star.nets == b.nets
  {
    if n > 0 {
      StarKeeps(b, centre, nets, n - 1, ground);
      var before := Star(b, centre, nets, n - 1, ground);
      JoinedKeeps(before, nets[n - 1], centre);
      JoinedKeeps(before, centre, nets[n - 1]);
      GrowsTwice(b, before, Star(b, centre, nets, n, ground));
    }
  }

  /** A net of the class of the centre or of one of the first `n` nets. */
  predicate Swept(labels: Labels, centre: nat, nets: seq<nat>, n: nat, x: nat)
    requires n <= |nets| && centre < |labels| && x < |labels| && forall i :: 0 <= i < |nets| ==> nets[i] < |labels|
  {
    labels[x] == labels[centre] || exists i: nat :: i < n && labels[nets[i]] == labels[x]
  }

  /** The labels of a star, without the rest of the board. */
  function Sweep(labels: Labels, centre: nat, nets: seq<nat>, n: nat, ground: bool): (after: Labels)
    requires n <= |nets| && centre < |labels| && forall i :: 0 <= i < |nets| ==> nets[i] < |labels|
    ensures |after| == |labels|
  {
    if n == 0 then labels
    else
      var before := Sweep(labels, centre, nets, n - 1, ground);
      if ground then Merge(before, nets[n - 1], centre) else Merge(before, centre, nets[n - 1])
  }

  lemma {:induction false} StarLabels(b: Board, centre: nat, nets: seq<nat>, n: nat, ground: bool)
    requires n <= |nets| && centre < |b.labels| && forall i :: 0 <= i < |nets| ==> nets[i] < |b.labels|
    ensures Star(b, centre, nets, n, ground).labels == Sweep(b.labels, centre, nets, n, ground)
  {
    if n > 0 { StarLabels(b, centre, nets, n - 1, ground); }
  }

  lemma {:induction false} SweepCanonical(labels: Labels, centre: nat, nets: seq<nat>, n: nat, ground: bool)
    requires Canonical(labels) && n <= |nets| && centre < |labels| && forall i :: 0 <= i < |nets| ==> nets[i] < |labels|
    ensures Canonical(Sweep(labels, centre, nets, n, ground))
  {
    if n > 0 {
      SweepCanonical(labels, centre, nets, n - 1, ground);
      var before := Sweep(labels, centre, nets, n - 1, ground);
      MergeJoins(before, nets[n - 1], centre);
      MergeJoins(before, centre, nets[n - 1]);
    }
  }

  /** Joining a star unites exactly the classes it touches. */
  lemma {:induction false} SweepExact(labels: Labels, centre: nat, nets: seq<nat>, n: nat, ground: bool, x: nat, y: nat)
    requires Canonical(labels) && n <= |nets| && centre < |labels| && forall i :: 0 <= i < |nets| ==> nets[i] < |labels|
    requires x < |labels| && y < |labels|
    ensures SweepsExactly(labels, Sweep(labels, centre, nets, n, ground), centre, nets, n, x, y)
  {
    hide Merge;
    if n > 0 {
      var last := nets[n - 1];
      SweepExact(labels, centre, nets, n - 1, ground, x, y);
      SweepExact(labels, centre, nets, n - 1, ground, x, last);
      SweepExact(labels, centre, nets, n - 1, ground, last, y);
      SweepExact(labels, centre, nets, n - 1, ground, x, centre);
      SweepExact(labels, centre, nets, n - 1, ground, centre, y);
      SweepCanonical(labels, centre, nets, n - 1, ground);
      SweepNext(labels, Sweep(labels, centre, nets, n - 1, ground), centre, nets, n, ground, x, y);
    }
  }

  predicate SweepsExactly(labels: Labels, after: Labels, centre: nat, nets: seq<nat>, n: nat, x: nat, y: nat)
    requires n <= |nets| && centre < |labels| && x < |labels| && y < |labels| && |after| == |labels|
    requires forall i :: 0 <= i < |nets| ==> nets[i] < |labels|
  {
    after[x] == after[y] <==> labels[x] == labels[y] || (Swept(labels, centre, nets, n, x) && Swept(labels, centre, nets, n, y))
  }

  lemma SweepNext(labels: Labels, before: Labels, centre: nat, nets: seq<nat>, n: nat, ground: bool, x: nat, y: nat)
    requires 0 < n <= |nets| && centre < |labels| && x < |labels| && y < |labels| && |before| == |labels| && Canonical(before)
    requires forall i :: 0 <= i < |nets| ==> nets[i] < |labels|
    requires SweepsExactly(labels, before, centre, nets, n - 1, x, y)
    requires SweepsExactly(labels, before, centre, nets, n - 1, x, nets[n - 1])
    requires SweepsExactly(labels, before, centre, nets, n - 1, nets[n - 1], y)
    requires SweepsExactly(labels, before, centre, nets, n - 1, x, centre)
    requires SweepsExactly(labels, before, centre, nets, n - 1, centre, y)
    ensures SweepsExactly(labels, if ground then Merge(before, nets[n - 1], centre) else Merge(before, centre, nets[n - 1]), centre, nets, n, x, y)
  {
    MergeExact(before, centre, nets[n - 1], x, y);
    MergeExact(before, nets[n - 1], centre, x, y);
    SweptNext(labels, centre, nets, n, x);
    SweptNext(labels, centre, nets, n, y);
  }

  lemma SweptNext(labels: Labels, centre: nat, nets: seq<nat>, n: nat, x: nat)
    requires 0 < n <= |nets| && centre < |labels| && x < |labels| && forall i :: 0 <= i < |nets| ==> nets[i] < |labels|
    ensures Swept(labels, centre, nets, n, x) <==> Swept(labels, centre, nets, n - 1, x) || labels[nets[n - 1]] == labels[x]
  {
  }

  lemma MergeExact(labels: Labels, a: nat, b: nat, x: nat, y: nat)
    requires Canonical(labels) && a < |labels| && b < |labels| && x < |labels| && y < |labels|
    ensures Merge(labels, a, b)[x] == Merge(labels, a, b)[y] <==>
      || labels[x] == labels[y]
      || (labels[x] == labels[a] && labels[y] == labels[b])
      || (labels[x] == labels[b] && labels[y] == labels[a])
  {
    MergeJoins(labels, a, b);
  }

  // ---- What an accepted union does ----------------------------------------------------------------------

  /** Giving a pin its net changes no equality of roots. */
  lemma BindAgrees(b: Board, e: Endpoint, x: Endpoint, y: Endpoint)
    requires Valid(b) && Known(b, e) && HasRoot(b, x) && HasRoot(b, y)
    ensures Valid(Bind(b, e)) && HasRoot(Bind(b, e), x) && HasRoot(Bind(b, e), y)
    ensures RootOf(Bind(b, e), x) == RootOf(Bind(b, e), y) <==> RootOf(b, x) == RootOf(b, y)
  {
    BindKeeps(b, e);
  }

  lemma {:induction false} BindAllAgrees(b: Board, endpoints: seq<Endpoint>, n: nat, x: Endpoint, y: Endpoint)
    requires Valid(b) && n <= |endpoints| && AllKnown(b, endpoints) && HasRoot(b, x) && HasRoot(b, y)
    ensures var bound := BindAll(b, endpoints, n);
      && Valid(bound) && HasRoot(bound, x) && HasRoot(bound, y)
      && (RootOf(bound, x) == RootOf(bound, y) <==> RootOf(b, x) == RootOf(b, y))
  {
    if n > 0 {
      BindAllAgrees(b, endpoints, n - 1, x, y);
      BindAllKeeps(b, endpoints, n - 1);
      BindAgrees(BindAll(b, endpoints, n - 1), endpoints[n - 1], x, y);
    }
  }

  /** The root of an endpoint that has a net is the class of the net. */
  lemma BoundRoots(b: Board, x: Endpoint, y: Endpoint)
    requires Valid(b) && HasNet(b, x) && HasNet(b, y)
    ensures RootOf(b, x) == RootOf(b, y) <==> b.labels[NetAt(b, x)] == b.labels[NetAt(b, y)]
  {
  }

  predicate InRoots(b: Board, endpoints: seq<Endpoint>, x: Endpoint)
    requires InNets(b) && |b.labels| > 0 && AllKnown(b, endpoints) && HasRoot(b, x)
  {
    RootOf(b, x) in RootsOf(b, endpoints)
  }

  /** The endpoint's class is among those the operation unites. */
  predicate Taken(b: Board, endpoints: seq<Endpoint>, ground: bool, x: Endpoint)
    requires InNets(b) && |b.labels| > 0 && AllKnown(b, endpoints) && HasRoot(b, x)
  {
    InRoots(b, endpoints, x) || (ground && RootOf(b, x) == Class(b.labels[0]))
  }

  /** What becomes of two endpoints' equality when the named classes are united. */
  predicate UnitedExactly(b: Board, after: Board, endpoints: seq<Endpoint>, ground: bool, x: Endpoint, y: Endpoint)
    requires InNets(b) && |b.labels| > 0 && AllKnown(b, endpoints) && HasRoot(b, x) && HasRoot(b, y)
    requires InNets(after) && |after.labels| > 0 && HasRoot(after, x) && HasRoot(after, y)
  {
    RootOf(after, x) == RootOf(after, y) <==>
      RootOf(b, x) == RootOf(b, y) || (Taken(b, endpoints, ground, x) && Taken(b, endpoints, ground, y))
  }

  /** Some named endpoint's net carries the label of net `x`. */
  predicate Hit(labels: Labels, all: seq<nat>, x: nat)
    requires x < |labels| && forall i :: 0 <= i < |all| ==> all[i] < |labels|
  {
    exists i: nat :: i < |all| && labels[all[i]] == labels[x]
  }

  lemma SweptIsHit(labels: Labels, centre: nat, nets: seq<nat>, x: nat)
    requires centre < |labels| && x < |labels| && forall i :: 0 <= i < |nets| ==> nets[i] < |labels|
    ensures Swept(labels, centre, nets, |nets|, x) <==> Hit(labels, [centre] + nets, x)
  {
    var all := [centre] + nets;
    if Hit(labels, all, x) {
      var i: nat :| i < |all| && labels[all[i]] == labels[x];
      assert i > 0 ==> labels[nets[i - 1]] == labels[x];
    }
    if Swept(labels, centre, nets, |nets|, x) && labels[x] != labels[centre] {
      var i: nat :| i < |nets| && labels[nets[i]] == labels[x];
      assert labels[all[i + 1]] == labels[x];
    }
    assert all[0] == centre;
  }

  /** A net is hit exactly when its endpoint's root was among the named ones. */
  lemma HitIsNamed(b: Board, endpoints: seq<Endpoint>, x: Endpoint)
    requires Valid(b) && AllKnown(b, endpoints) && HasRoot(b, x)
    ensures var bound := BindAll(b, endpoints, |endpoints|);
      && Valid(bound) && (forall i :: 0 <= i < |endpoints| ==> HasNet(bound, endpoints[i]))
      && (HasNet(bound, x) ==> (Hit(bound.labels, NetsOf(bound, endpoints), NetAt(bound, x)) <==> InRoots(b, endpoints, x)))
  {
    var bound := BindAll(b, endpoints, |endpoints|);
    BindAllKeeps(b, endpoints, |endpoints|);
    if HasNet(bound, x) {
      forall i | 0 <= i < |endpoints|
        ensures bound.labels[NetAt(bound, x)] == bound.labels[NetAt(bound, endpoints[i])] <==> RootOf(b, x) == RootOf(b, endpoints[i])
      {
        BindAllAgrees(b, endpoints, |endpoints|, x, endpoints[i]);
        BoundRoots(bound, x, endpoints[i]);
      }
      HitOrNot(bound.labels, NetsOf(bound, endpoints), NetAt(bound, x), b, endpoints, x);
    }
  }

  lemma HitOrNot(labels: Labels, all: seq<nat>, net: nat, b: Board, endpoints: seq<Endpoint>, x: Endpoint)
    requires net < |labels| && |all| == |endpoints| && forall i :: 0 <= i < |all| ==> all[i] < |labels|
    requires InNets(b) && |b.labels| > 0 && AllKnown(b, endpoints) && HasRoot(b, x)
    requires forall i :: 0 <= i < |all| ==> (labels[net] == labels[all[i]] <==> RootOf(b, x) == RootOf(b, endpoints[i]))
    ensures Hit(labels, all, net) <==> InRoots(b, endpoints, x)
  {
  }

  predicate AllBound(bound: Board, endpoints: seq<Endpoint>) {
    forall i :: 0 <= i < |endpoints| ==> HasNet(bound, endpoints[i])
  }

  /** Joins the nets of endpoints that are bound already. */
  function Pulled(bound: Board, endpoints: seq<Endpoint>, ground: bool): (after: Board)
    requires InNets(bound) && |bound.labels| > 0 && AllBound(bound, endpoints) && |endpoints| > 0
  {
    var nets := NetsOf(bound, endpoints);
    if ground then Star(bound, 0, nets, |nets|, true) else Star(bound, nets[0], nets[1..], |nets| - 1, false)
  }

  /** The board once all endpoints are bound and joined. */
  function United(b: Board, endpoints: seq<Endpoint>, ground: bool): (after: Board)
    requires Valid(b) && AllKnown(b, endpoints) && |endpoints| > 0
  {
    BindAllKeeps(b, endpoints, |endpoints|);
    Pulled(BindAll(b, endpoints, |endpoints|), endpoints, ground)
  }

  lemma PulledKeeps(bound: Board, endpoints: seq<Endpoint>, ground: bool)
    requires Valid(bound) && AllBound(bound, endpoints) && |endpoints| > 0
    ensures var after := Pulled(bound, endpoints, ground);
      Valid(after) && Grows(bound, after) && after.bodies == bound.bodies && after.ids == bound.ids && after.nets == bound.nets
  {
    var nets := NetsOf(bound, endpoints);
    if ground {
      StarKeeps(bound, 0, nets, |nets|, true);
    } else {
      StarKeeps(bound, nets[0], nets[1..], |nets| - 1, false);
    }
  }

  lemma UnitedKeeps(b: Board, endpoints: seq<Endpoint>, ground: bool)
    requires Valid(b) && AllKnown(b, endpoints) && |endpoints| > 0
    ensures var after := United(b, endpoints, ground);
      Valid(after) && Grows(b, after) && after.bodies == b.bodies && after.ids == b.ids
  {
    BindAllKeeps(b, endpoints, |endpoints|);
    var bound := BindAll(b, endpoints, |endpoints|);
    PulledKeeps(bound, endpoints, ground);
    GrowsTwice(b, bound, Pulled(bound, endpoints, ground));
  }

  /** Nets of one class after the union, in terms of the bound state. */
  predicate PullsExactly(bound: Board, after: Board, endpoints: seq<Endpoint>, ground: bool, x: nat, y: nat)
    requires InNets(bound) && |bound.labels| > 0 && AllBound(bound, endpoints) && |after.labels| == |bound.labels|
    requires x < |bound.labels| && y < |bound.labels|
  {
    after.labels[x] == after.labels[y] <==>
      bound.labels[x] == bound.labels[y] || (HitOr(bound, endpoints, ground, x) && HitOr(bound, endpoints, ground, y))
  }

  lemma PulledGround(bound: Board, endpoints: seq<Endpoint>, x: nat, y: nat)
    requires Valid(bound) && AllBound(bound, endpoints) && |endpoints| > 0 && x < |bound.labels| && y < |bound.labels|
    ensures |Pulled(bound, endpoints, true).labels| == |bound.labels|
    ensures PullsExactly(bound, Pulled(bound, endpoints, true), endpoints, true, x, y)
  {
    var nets := NetsOf(bound, endpoints);
    StarLabels(bound, 0, nets, |nets|, true);
    SweepExact(bound.labels, 0, nets, |nets|, true, x, y);
    HitGround(bound, endpoints, nets, x);
    HitGround(bound, endpoints, nets, y);
  }

  lemma PulledLink(bound: Board, endpoints: seq<Endpoint>, x: nat, y: nat)
    requires Valid(bound) && AllBound(bound, endpoints) && |endpoints| > 0 && x < |bound.labels| && y < |bound.labels|
    ensures |Pulled(bound, endpoints, false).labels| == |bound.labels|
    ensures PullsExactly(bound, Pulled(bound, endpoints, false), endpoints, false, x, y)
  {
    var nets := NetsOf(bound, endpoints);
    var first, rest := nets[0], nets[1..];
    assert nets == [first] + rest;
    StarLabels(bound, first, rest, |rest|, false);
    SweepExact(bound.labels, first, rest, |rest|, false, x, y);
    SweptIsHit(bound.labels, first, rest, x);
    SweptIsHit(bound.labels, first, rest, y);
  }

  predicate HitOr(bound: Board, endpoints: seq<Endpoint>, ground: bool, x: nat)
    requires InNets(bound) && |bound.labels| > 0 && x < |bound.labels| && forall i :: 0 <= i < |endpoints| ==> HasNet(bound, endpoints[i])
  {
    Hit(bound.labels, NetsOf(bound, endpoints), x) || (ground && bound.labels[x] == bound.labels[0])
  }

  lemma HitGround(bound: Board, endpoints: seq<Endpoint>, nets: seq<nat>, x: nat)
    requires InNets(bound) && |bound.labels| > 0 && x < |bound.labels| && forall i :: 0 <= i < |endpoints| ==> HasNet(bound, endpoints[i])
    requires nets == NetsOf(bound, endpoints)
    ensures Swept(bound.labels, 0, nets, |nets|, x) <==> HitOr(bound, endpoints, true, x)
  {
  }

  lemma GroundIsNamed(b: Board, endpoints: seq<Endpoint>, ground: bool, x: Endpoint)
    requires Valid(b) && AllKnown(b, endpoints) && HasRoot(b, x)
    ensures var bound := BindAll(b, endpoints, |endpoints|);
      && Valid(bound) && (forall i :: 0 <= i < |endpoints| ==> HasNet(bound, endpoints[i]))
      && (HasNet(bound, x) ==> (HitOr(bound, endpoints, ground, NetAt(bound, x)) <==> Taken(b, endpoints, ground, x)))
  {
    HitIsNamed(b, endpoints, x);
    BindAllAgrees(b, endpoints, |endpoints|, x, Ground);
    var bound := BindAll(b, endpoints, |endpoints|);
    if HasNet(bound, x) {
      BoundRoots(bound, x, Ground);
    }
  }

  lemma ExactFrom(b: Board, bound: Board, after: Board, endpoints: seq<Endpoint>, ground: bool, x: Endpoint, y: Endpoint)
    requires Valid(b) && AllKnown(b, endpoints) && HasRoot(b, x) && HasRoot(b, y)
    requires Valid(bound) && AllBound(bound, endpoints) && HasRoot(bound, x) && HasRoot(bound, y)
    requires Valid(after) && Grows(bound, after) && |after.labels| == |bound.labels| && after.nets == bound.nets
    requires RootOf(bound, x) == RootOf(bound, y) <==> RootOf(b, x) == RootOf(b, y)
    requires HasNet(bound, x) ==> (HitOr(bound, endpoints, ground, NetAt(bound, x)) <==> Taken(b, endpoints, ground, x))
    requires HasNet(bound, y) ==> (HitOr(bound, endpoints, ground, NetAt(bound, y)) <==> Taken(b, endpoints, ground, y))
    requires !HasNet(bound, x) ==> !Taken(b, endpoints, ground, x)
    requires !HasNet(bound, y) ==> !Taken(b, endpoints, ground, y)
    requires HasNet(bound, x) && HasNet(bound, y) ==> PullsExactly(bound, after, endpoints, ground, NetAt(bound, x), NetAt(bound, y))
    ensures HasRoot(after, x) && HasRoot(after, y) && UnitedExactly(b, after, endpoints, ground, x, y)
  {
    if HasNet(bound, x) && HasNet(bound, y) {
      BoundRoots(bound, x, y);
      BoundRoots(after, x, y);
    }
  }

  /** After the union two endpoints share a class exactly when they did before or both their
      classes were united. */
  lemma UnitedIsExact(b: Board, endpoints: seq<Endpoint>, ground: bool, x: Endpoint, y: Endpoint)
    requires Valid(b) && AllKnown(b, endpoints) && |endpoints| > 0 && HasRoot(b, x) && HasRoot(b, y)
    ensures var after := United(b, endpoints, ground);
      Valid(after) && HasRoot(after, x) && HasRoot(after, y) && UnitedExactly(b, after, endpoints, ground, x, y)
  {
    BindAllAgrees(b, endpoints, |endpoints|, x, y);
    GroundIsNamed(b, endpoints, ground, x);
    GroundIsNamed(b, endpoints, ground, y);
    UnboundUnnamed(b, endpoints, x);
    UnboundUnnamed(b, endpoints, y);
    var bound := BindAll(b, endpoints, |endpoints|);
    PulledKeeps(bound, endpoints, ground);
    PulledNets(bound, endpoints, ground, x, y);
    ExactFrom(b, bound, Pulled(bound, endpoints, ground), endpoints, ground, x, y);
  }

  lemma PulledNets(bound: Board, endpoints: seq<Endpoint>, ground: bool, x: Endpoint, y: Endpoint)
    requires Valid(bound) && AllBound(bound, endpoints) && |endpoints| > 0
    ensures |Pulled(bound, endpoints, ground).labels| == |bound.labels|
    ensures HasNet(bound, x) && HasNet(bound, y) ==>
      PullsExactly(bound, Pulled(bound, endpoints, ground), endpoints, ground, NetAt(bound, x), NetAt(bound, y))
  {
    var a := if HasNet(bound, x) then NetAt(bound, x) else 0;
    var c := if HasNet(bound, y) then NetAt(bound, y) else 0;
    if ground { PulledGround(bound, endpoints, a, c); } else { PulledLink(bound, endpoints, a, c); }
  }

  /** A pin that has no net after binding was not named. */
  lemma UnboundUnnamed(b: Board, endpoints: seq<Endpoint>, x: Endpoint)
    requires Valid(b) && AllKnown(b, endpoints) && HasRoot(b, x)
    ensures var bound := BindAll(b, endpoints, |endpoints|);
      (InRoots(b, endpoints, x) || x.Ground? ==> HasNet(bound, x)) && (!HasNet(bound, x) ==> RootOf(b, x).Open?)
  {
    BindAllKeeps(b, endpoints, |endpoints|);
    if InRoots(b, endpoints, x) {
      var i: nat :| i < |endpoints| && RootOf(b, endpoints[i]) == RootOf(b, x);
      assert HasNet(BindAll(b, endpoints, |endpoints|), endpoints[i]);
    }
  }

  // ---- Accepted links and grounding ---------------------------------------------------------------------

  /** The board of an accepted link. */
  function LinkedBoard(b: Board, id: string, endpoints: seq<Endpoint>): (after: Board)
    requires Valid(b) && AllKnown(b, endpoints) && |endpoints| > 0
    ensures Valid(after) && Grows(b, after) && after.bodies == b.bodies && after.ids == b.ids + {id}
  {
    WithIdKeeps(b, id);
    UnitedKeeps(WithId(b, id), endpoints, false);
    GrowsTwice(b, WithId(b, id), United(WithId(b, id), endpoints, false));
    United(WithId(b, id), endpoints, false)
  }

  function GroundedBoard(b: Board, endpoints: seq<Endpoint>): (after: Board)
    requires Valid(b) && AllKnown(b, endpoints) && |endpoints| > 0
    ensures Valid(after) && Grows(b, after) && after.bodies == b.bodies && after.ids == b.ids
  {
    UnitedKeeps(b, endpoints, true);
    United(b, endpoints, true)
  }

  function Link(b: Board, id: string, endpoints: seq<Endpoint>): Outcome
    requires Valid(b)
  {
    if LinkReady(b, id, endpoints) then Outcome(LinkedBoard(b, id, endpoints), true) else Outcome(b, false)
  }

  function GroundPins(b: Board, endpoints: seq<Endpoint>): Outcome
    requires Valid(b)
  {
    if GroundReady(b, endpoints) then Outcome(GroundedBoard(b, endpoints), true) else Outcome(b, false)
  }

  /** Taking an id changes no class. */
  lemma RootsNamed(b: Board, named: Board, endpoints: seq<Endpoint>)
    requires InNets(b) && |b.labels| > 0 && AllKnown(b, endpoints) && named == b.(ids := named.ids)
    ensures InNets(named) && AllKnown(named, endpoints) && RootsOf(named, endpoints) == RootsOf(b, endpoints)
  {
    assert forall i :: 0 <= i < |endpoints| ==> RootOf(named, endpoints[i]) == RootOf(b, endpoints[i]);
  }

  lemma ExactNamed(b: Board, named: Board, after: Board, endpoints: seq<Endpoint>, x: Endpoint, y: Endpoint)
    requires InNets(b) && |b.labels| > 0 && AllKnown(b, endpoints) && HasRoot(b, x) && HasRoot(b, y)
    requires named == b.(ids := named.ids) && AllKnown(named, endpoints)
    requires InNets(after) && |after.labels| > 0 && HasRoot(after, x) && HasRoot(after, y)
    requires UnitedExactly(named, after, endpoints, false, x, y)
    ensures UnitedExactly(b, after, endpoints, false, x, y)
  {
    RootsNamed(b, named, endpoints);
    TakenNamed(b, named, endpoints, x);
    TakenNamed(b, named, endpoints, y);
  }

  lemma TakenNamed(b: Board, named: Board, endpoints: seq<Endpoint>, x: Endpoint)
    requires InNets(b) && |b.labels| > 0 && AllKnown(b, endpoints) && HasRoot(b, x)
    requires named == b.(ids := named.ids) && AllKnown(named, endpoints) && RootsOf(named, endpoints) == RootsOf(b, endpoints)
    ensures HasRoot(named, x) && RootOf(named, x) == RootOf(b, x)
    ensures Taken(named, endpoints, false, x) <==> Taken(b, endpoints, false, x)
  {
  }

  lemma LinkExact(b: Board, id: string, endpoints: seq<Endpoint>, x: Endpoint, y: Endpoint)
    requires Valid(b) && AllKnown(b, endpoints) && |endpoints| > 0 && HasRoot(b, x) && HasRoot(b, y)
    ensures HasRoot(LinkedBoard(b, id, endpoints), x) && HasRoot(LinkedBoard(b, id, endpoints), y)
    ensures UnitedExactly(b, LinkedBoard(b, id, endpoints), endpoints, false, x, y)
  {
    WithIdKeeps(b, id);
    UnitedIsExact(WithId(b, id), endpoints, false, x, y);
    ExactNamed(b, WithId(b, id), United(WithId(b, id), endpoints, false), endpoints, x, y);
  }

  /** A refused link changes nothing; an accepted one puts all its endpoints in one class. */
  lemma LinkKeeps(b: Board, id: string, endpoints: seq<Endpoint>, i: nat, j: nat)
    requires Valid(b) && i < |endpoints| && j < |endpoints|
    ensures var outcome := Link(b, id, endpoints);
      && Valid(outcome.board) && Grows(b, outcome.board) && outcome.board.bodies == b.bodies
      && (!outcome.ok ==> outcome.board == b)
      && (outcome.ok ==>
            && outcome.board.ids == b.ids + {id}
            && HasRoot(outcome.board, endpoints[i]) && HasRoot(outcome.board, endpoints[j])
            && RootOf(outcome.board, endpoints[i]) == RootOf(outcome.board, endpoints[j]))
  {
    if LinkReady(b, id, endpoints) {
      LinkExact(b, id, endpoints, endpoints[i], endpoints[j]);
    }
  }

  /** Two pins the check cannot tell apart: both are united, and one of them has no net yet. */
  predicate Unseen(b: Board, endpoints: seq<Endpoint>, ground: bool, p: Pin, q: Pin)
    requires InNets(b) && |b.labels| > 0 && AllKnown(b, endpoints)
  {
    (p !in b.nets || q !in b.nets) && Taken(b, endpoints, ground, Terminal(p)) && Taken(b, endpoints, ground, Terminal(q))
  }

  lemma ApartExactly(b: Board, endpoints: seq<Endpoint>, ground: bool, wide: set<Root>, p: Pin, q: Pin)
    requires Valid(b) && AllKnown(b, endpoints)
    requires wide == if ground then RootsOf(b, endpoints) + {Class(b.labels[0])} else RootsOf(b, endpoints)
    requires Projected(b, wide, p) != Projected(b, wide, q)
    ensures RootOf(b, Terminal(p)) != RootOf(b, Terminal(q))
    ensures Taken(b, endpoints, ground, Terminal(p)) && Taken(b, endpoints, ground, Terminal(q)) ==> Unseen(b, endpoints, ground, p, q)
  {
  }

  /** An accepted link shorts two terminals of an ordinary body exactly when it unites both and
      one of them had no net: unused pins are compared as they are, not as they will be. */
  lemma LinkShorts(b: Board, id: string, endpoints: seq<Endpoint>, body: string, i: nat, j: nat)
    requires Valid(b) && LinkReady(b, id, endpoints)
    requires body in b.bodies && b.bodies[body].ordinary && i < j < |b.bodies[body].pins|
    ensures var p, q := b.bodies[body].pins[i], b.bodies[body].pins[j];
      RootOf(LinkedBoard(b, id, endpoints), Terminal(p)) == RootOf(LinkedBoard(b, id, endpoints), Terminal(q)) <==>
        Unseen(b, endpoints, false, p, q)
  {
    var p, q := b.bodies[body].pins[i], b.bodies[body].pins[j];
    var roots := RootsOf(b, endpoints);
    assert PinsApart(b, roots, b.bodies[body].pins);
    ApartExactly(b, endpoints, false, roots, p, q);
    LinkExact(b, id, endpoints, Terminal(p), Terminal(q));
  }

  /** An accepted link never merges two buses of the scope that were apart. */
  lemma LinkKeepsBuses(b: Board, id: string, endpoints: seq<Endpoint>, x: string, y: string)
    requires Valid(b) && LinkReady(b, id, endpoints) && x in b.buses && y in b.buses
    ensures RootOf(LinkedBoard(b, id, endpoints), Bus(x)) == RootOf(LinkedBoard(b, id, endpoints), Bus(y)) <==>
      RootOf(b, Bus(x)) == RootOf(b, Bus(y))
  {
    LinkExact(b, id, endpoints, Bus(x), Bus(y));
    assert OneBus(b, RootsOf(b, endpoints));
  }

  /** Every pin named by an accepted grounding is grounded; a refused one changes nothing. */
  lemma GroundKeeps(b: Board, endpoints: seq<Endpoint>, i: nat)
    requires Valid(b) && i < |endpoints|
    ensures var outcome := GroundPins(b, endpoints);
      && Valid(outcome.board) && Grows(b, outcome.board) && outcome.board.bodies == b.bodies && outcome.board.ids == b.ids
      && (!outcome.ok ==> outcome.board == b)
      && (outcome.ok ==> HasRoot(outcome.board, endpoints[i]) && RootOf(outcome.board, endpoints[i]) == Class(0))
  {
    if GroundReady(b, endpoints) {
      UnitedIsExact(b, endpoints, true, endpoints[i], Ground);
    }
  }

  /** Grounding, too, shorts a body exactly when the check meets a pin without a net. */
  lemma GroundShorts(b: Board, endpoints: seq<Endpoint>, body: string, i: nat, j: nat)
    requires Valid(b) && GroundReady(b, endpoints)
    requires body in b.bodies && b.bodies[body].ordinary && i < j < |b.bodies[body].pins|
    ensures var p, q := b.bodies[body].pins[i], b.bodies[body].pins[j];
      RootOf(GroundedBoard(b, endpoints), Terminal(p)) == RootOf(GroundedBoard(b, endpoints), Terminal(q)) <==>
        Unseen(b, endpoints, true, p, q)
  {
    var p, q := b.bodies[body].pins[i], b.bodies[body].pins[j];
    var wide := RootsOf(b, endpoints) + {Class(b.labels[0])};
    assert PinsApart(b, wide, b.bodies[body].pins);
    ApartExactly(b, endpoints, true, wide, p, q);
    UnitedIsExact(b, endpoints, true, Terminal(p), Terminal(q));
  }

  /** A Port, as an endpoint of its class. */
  predicate PortAt(b: Board, port: nat, x: Endpoint)
    requires InNets(b) && |b.labels| > 0
  {
    port in b.ports && HasNet(b, x) && b.labels[NetAt(b, x)] == b.labels[port]
  }

  /** An accepted link grounds a Port exactly when it unites the Port's class with the ground's;
      an accepted grounding grounds none. */
  lemma LinkGroundsPort(b: Board, id: string, endpoints: seq<Endpoint>, port: nat, x: Endpoint)
    requires Valid(b) && LinkReady(b, id, endpoints) && PortAt(b, port, x)
    ensures RootOf(LinkedBoard(b, id, endpoints), x) == Class(0) <==> InRoots(b, endpoints, x) && InRoots(b, endpoints, Ground)
  {
    LinkExact(b, id, endpoints, x, Ground);
    assert PortsClear(b, RootsOf(b, endpoints), false);
  }

  lemma GroundingSparesPorts(b: Board, endpoints: seq<Endpoint>, port: nat, x: Endpoint)
    requires Valid(b) && GroundReady(b, endpoints) && PortAt(b, port, x)
    ensures RootOf(GroundedBoard(b, endpoints), x) != Class(0)
  {
    UnitedIsExact(b, endpoints, true, x, Ground);
    assert PortsClear(b, RootsOf(b, endpoints), true);
    assert InUnion(b, RootsOf(b, endpoints), port) == Own(RootOf(b, x));
  }

  /** An accepted link puts two Ports that were apart on one net exactly when it names both classes. */
  lemma LinkMergesPorts(b: Board, id: string, endpoints: seq<Endpoint>, p: nat, x: Endpoint, q: nat, y: Endpoint)
    requires Valid(b) && LinkReady(b, id, endpoints) && PortAt(b, p, x) && PortAt(b, q, y) && RootOf(b, x) != RootOf(b, y)
    ensures RootOf(LinkedBoard(b, id, endpoints), x) == RootOf(LinkedBoard(b, id, endpoints), y) <==>
      InRoots(b, endpoints, x) && InRoots(b, endpoints, y)
  {
    LinkExact(b, id, endpoints, x, y);
  }

  // ---- Buses and Ports --------------------------------------------------------------------------------------

  /** `bus`: a new bus on a fresh net. */
  function AddBus(b: Board, id: string): Outcome {
    if id in b.buses then Outcome(b, false)
    else Outcome(b.(labels := b.labels + [|b.labels|], buses := b.buses[id := |b.labels|]), true)
  }

  /** A new bus lies on a net of its own and changes no other endpoint's class. */
  lemma AddBusKeeps(b: Board, id: string, x: Endpoint)
    requires Valid(b) && HasRoot(b, x)
    ensures var outcome := AddBus(b, id);
      && Valid(outcome.board) && (outcome.ok <==> id !in b.buses) && (!outcome.ok ==> outcome.board == b)
      && HasRoot(outcome.board, x) && RootOf(outcome.board, x) == RootOf(b, x)
      && (outcome.ok ==> HasRoot(outcome.board, Bus(id)) && RootOf(outcome.board, Bus(id)) != RootOf(b, x))
  {
    FreshRepresents(b.labels, b.wires);
  }

  /** The class of a new Port is not the ground's and carries no other Port. */
  predicate PortReady(b: Board, at: Endpoint)
    requires InNets(b) && |b.labels| > 0
  {
    && (at.Bus? || at.Tap?) && Known(b, at) && b.labels[NetAt(b, at)] != b.labels[0]
    && forall port :: port in b.ports ==> b.labels[port] != b.labels[NetAt(b, at)]
  }

  /** `add_port`, apart from its id. */
  function AddPort(b: Board, at: Endpoint): Outcome
    requires InNets(b) && |b.labels| > 0
  {
    if PortReady(b, at) then Outcome(b.(ports := b.ports + {NetAt(b, at)}), true) else Outcome(b, false)
  }

  /** Ports lie on classes of their own, and none on the ground's. */
  predicate PortsApart(b: Board)
    requires InNets(b) && |b.labels| > 0
  {
    && (forall p :: p in b.ports ==> b.labels[p] != b.labels[0])
    && (forall p, q :: p in b.ports && q in b.ports && p != q ==> b.labels[p] != b.labels[q])
  }

  lemma AddPortKeeps(b: Board, at: Endpoint)
    requires Valid(b) && PortsApart(b)
    ensures Valid(AddPort(b, at).board) && PortsApart(AddPort(b, at).board)
    ensures AddPort(b, at).ok ==> |AddPort(b, at).board.ports| == |b.ports| + 1
  {
  }

  // ---- Whole authoring runs ---------------------------------------------------------------------------------

  datatype Operation =
    | MakeSeries(id: string, start: Endpoint, elements: seq<Element>, end: Endpoint)
    | MakeBranch(id: string, at: Endpoint, elements: seq<Element>, end: Endpoint)
    | MakeParallel(id: string, start: Endpoint, branches: seq<seq<Element>>, end: Endpoint)
    | MakeLink(id: string, endpoints: seq<Endpoint>)
    | MakeGround(pins: seq<Endpoint>)
    | MakeBus(id: string)
    | MakePort(at: Endpoint)

  ghost function Perform(b: Board, operation: Operation): Outcome
    requires Valid(b)
  {
    match operation
    case MakeSeries(id, start, elements, end) => Series(b, id, start, elements, end)
    case MakeBranch(id, at, elements, end) => Branch(b, id, at, elements, end)
    case MakeParallel(id, start, branches, end) => Parallel(b, id, start, branches, end)
    case MakeLink(id, endpoints) => Link(b, id, endpoints)
    case MakeGround(pins) => GroundPins(b, pins)
    case MakeBus(id) => AddBus(b, id)
    case MakePort(at) => AddPort(b, at)
  }

  lemma PerformKeeps(b: Board, operation: Operation)
    requires Valid(b)
    ensures Valid(Perform(b, operation).board)
    ensures !Perform(b, operation).ok && !operation.MakeParallel? ==> Perform(b, operation).board == b
  {
    hide LinkReady, GroundReady, Prepared, ParallelReady;
    match operation
    case MakeSeries(id, start, elements, end) => SeriesKeeps(b, id, start, elements, end);
    case MakeBranch(id, at, elements, end) => SeriesKeeps(b, id, at, elements, end);
    case MakeParallel(id, start, branches, end) => ParallelTested(b, id, start, branches, end);
    case MakeLink(id, endpoints) =>
    case MakeGround(pins) =>
    case MakeBus(id) => AddBusKeeps(b, id, Ground);
    case MakePort(at) =>
  }

  /** The board after the first `n` operations, refused ones included. */
  ghost function Performed(b: Board, operations: seq<Operation>, n: nat): (after: Board)
    requires Valid(b) && n <= |operations|
    ensures Valid(after)
  {
    if n == 0 then b
    else
      var before := Performed(b, operations, n - 1);
      PerformKeeps(before, operations[n - 1]);
      Perform(before, operations[n - 1]).board
  }

  /** In every state a run can reach two endpoints share a root exactly when the equivalence
      closure of the declared joins relates their nets, and the ground is its own root. */
  lemma RootsAreClosure(b: Board, x: Endpoint, y: Endpoint)
    requires Valid(b) && HasNet(b, x) && HasNet(b, y)
    ensures RootOf(b, x) == RootOf(b, y) <==> Related(b.wires, NetAt(b, x), NetAt(b, y))
    ensures RootOf(b, Ground) == Class(0)
  {
    BoundRoots(b, x, y);
  }

  ghost predicate ClosureIn(b: Board, x: Endpoint, y: Endpoint) {
    Valid(b) && (HasNet(b, x) && HasNet(b, y) ==> (RootOf(b, x) == RootOf(b, y) <==> Related(b.wires, NetAt(b, x), NetAt(b, y))))
  }

  /** The same over whole runs. */
  lemma {:induction false} RunIsClosure(b: Board, operations: seq<Operation>, n: nat, x: Endpoint, y: Endpoint)
    requires Valid(b) && n <= |operations|
    ensures ClosureIn(Performed(b, operations, n), x, y)
  {
    ValidIsClosure(Performed(b, operations, n), x, y);
  }

  lemma ValidIsClosure(b: Board, x: Endpoint, y: Endpoint)
    requires Valid(b)
    ensures ClosureIn(b, x, y)
  {
    if HasNet(b, x) && HasNet(b, y) { RootsAreClosure(b, x, y); }
  }
}
