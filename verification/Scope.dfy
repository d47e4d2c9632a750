/** The wiring operations of one scope: series, parallel and branch chains, links and
    grounding, with the checks that run before anything is published. */
module Scope {
  import opened Partition

  /** A terminal of a body. */
  type Pin = (string, string)

  datatype Endpoint = Ground | Bus(bus: string) | Tap(bus: string, tap: string) | Terminal(pin: Pin)

  /** A two-terminal body itself, or two pins of a complete body. */
  datatype Element = Whole(body: string) | Between(body: string, a: Pin, b: Pin)

  /** `classes` are the intrinsic pin classes of a complete body; `local` bodies belong to this scope. */
  datatype Body = Body(ordinary: bool, local: bool, pins: seq<Pin>, classes: map<Pin, nat>, used: bool)

  /** The authoring state; a pin gets its net on first use, and net 0 is the ground.
      `wires` records every join that was declared. */
  datatype Board = Board(
    labels: Labels,
    buses: map<string, nat>,
    taps: set<(string, string)>,
    visible: set<Pin>,
    nets: map<Pin, nat>,
    bodies: map<string, Body>,
    ports: set<nat>,
    ids: set<string>,
    wires: seq<Wire>)

  /** The state after an operation and whether it was accepted. */
  datatype Outcome = Outcome(board: Board, ok: bool)

  /** The class of an endpoint, or an unused pin that has no net yet. */
  datatype Root = Class(key: nat) | Open(pin: Pin)

  ghost predicate Valid(b: Board) {
    && |b.labels| > 0 && b.labels[0] == 0 && Canonical(b.labels) && Represents(b.labels, b.wires)
    && InNets(b)
  }

  predicate InNets(b: Board) {
    && (forall bus :: bus in b.buses ==> b.buses[bus] < |b.labels|)
    && (forall pin :: pin in b.nets ==> b.nets[pin] < |b.labels|)
    && (forall port :: port in b.ports ==> port < |b.labels|)
  }

  predicate Known(b: Board, e: Endpoint) {
    match e
    case Ground => true
    case Bus(bus) => bus in b.buses
    case Tap(bus, tap) => bus in b.buses && (bus, tap) in b.taps
    case Terminal(pin) => pin in b.visible
  }

  /** The net an endpoint already has. */
  predicate HasNet(b: Board, e: Endpoint) {
    if e.Terminal? then e.pin in b.nets else Known(b, e)
  }

  /** Pins have a root whether or not this scope may name them. */
  predicate HasRoot(b: Board, e: Endpoint) {
    e.Terminal? || Known(b, e)
  }

  function NetAt(b: Board, e: Endpoint): (net: nat)
    requires InNets(b) && |b.labels| > 0 && HasNet(b, e)
    ensures net < |b.labels|
  {
    match e
    case Ground => 0
    case Bus(bus) => b.buses[bus]
    case Tap(bus, _) => b.buses[bus]
    case Terminal(pin) => b.nets[pin]
  }

  function RootOf(b: Board, e: Endpoint): Root
    requires InNets(b) && |b.labels| > 0 && HasRoot(b, e)
  {
    if e.Terminal? && e.pin !in b.nets then Open(e.pin) else Class(b.labels[NetAt(b, e)])
  }

  // ---- State changes ----------------------------------------------------------------------------

  /** `getnet`: an unused pin receives a fresh net. */
  function Bind(b: Board, e: Endpoint): (bound: Board)
    ensures |bound.labels| >= |b.labels|
  {
    if e.Terminal? && e.pin !in b.nets then b.(labels := b.labels + [|b.labels|], nets := b.nets[e.pin := |b.labels|]) else b
  }

  function Generated(b: Board, k: nat): (more: Board)
    ensures |more.labels| == |b.labels| + k
  {
    if k == 0 then b else
      var fewer := Generated(b, k - 1);
      fewer.(labels := fewer.labels + [|fewer.labels|])
  }

  function Joined(b: Board, x: nat, y: nat): (joined: Board)
    requires x < |b.labels| && y < |b.labels|
    ensures |joined.labels| == |b.labels|
  {
    b.(labels := Merge(b.labels, x, y), wires := b.wires + [(x, y)])
  }

  /** A scope before any wiring: separate buses and ports on a ground and nothing joined. */
  lemma UnwiredValid(b: Board, n: nat)
    requires b.labels == seq(n, i => i) && n > 0 && b.wires == [] && InNets(b)
    ensures Valid(b)
  {
    NoWires(n);
  }

  /** Binds an endpoint and joins its net with another. */
  function Connected(b: Board, e: Endpoint, node: nat): Board
    requires InNets(b) && |b.labels| > 0 && Known(b, e) && node < |b.labels|
  {
    var bound := Bind(b, e);
    Joined(bound, NetAt(bound, e), node)
  }

  // ---- The invariant ----------------------------------------------------------------------------

  /** Nets and classes only grow: equal classes stay equal, and what was named keeps its net. */
  predicate Grows(a: Board, b: Board) {
    && |a.labels| <= |b.labels|
    && (forall i, j :: 0 <= i < |a.labels| && 0 <= j < |a.labels| && a.labels[i] == a.labels[j] ==> b.labels[i] == b.labels[j])
    && b.buses == a.buses && b.taps == a.taps && b.visible == a.visible && b.ports == a.ports
    && (forall pin :: pin in a.nets ==> pin in b.nets && b.nets[pin] == a.nets[pin])
  }

  lemma GrowsTwice(a: Board, b: Board, c: Board)
    requires Grows(a, b) && Grows(b, c)
    ensures Grows(a, c)
  {
  }

  lemma BindKeeps(b: Board, e: Endpoint)
    requires Valid(b) && Known(b, e)
    ensures Valid(Bind(b, e)) && Grows(b, Bind(b, e)) && HasNet(Bind(b, e), e)
  {
    FreshRepresents(b.labels, b.wires);
  }

  lemma {:induction false} GeneratedKeeps(b: Board, k: nat)
    requires Valid(b)
    ensures Valid(Generated(b, k)) && Grows(b, Generated(b, k))
    ensures Generated(b, k).nets == b.nets && Generated(b, k).bodies == b.bodies
  {
    if k > 0 {
      GeneratedKeeps(b, k - 1);
      var fewer := Generated(b, k - 1);
      FreshRepresents(fewer.labels, fewer.wires);
    }
  }

  lemma JoinedKeeps(b: Board, x: nat, y: nat)
    requires Valid(b) && x < |b.labels| && y < |b.labels|
    ensures Valid(Joined(b, x, y)) && Grows(b, Joined(b, x, y))
    ensures Joined(b, x, y).labels[x] == Joined(b, x, y).labels[y]
  {
    MergeRepresents(b.labels, b.wires, x, y);
    MergeJoins(b.labels, x, y);
  }

  lemma ConnectedKeeps(b: Board, e: Endpoint, node: nat)
    requires Valid(b) && Known(b, e) && node < |b.labels|
    ensures var after := Connected(b, e, node);
      && Valid(after) && Grows(b, after) && HasNet(after, e) && after.labels[NetAt(after, e)] == after.labels[node]
      && after.bodies == b.bodies && after.ids == b.ids
  {
    BindKeeps(b, e);
    var bound := Bind(b, e);
    JoinedKeeps(bound, NetAt(bound, e), node);
    GrowsTwice(b, bound, Connected(b, e, node));
  }

  // ---- Chains -----------------------------------------------------------------------------------

  function TerminalsOf(b: Board, x: Element): (Pin, Pin)
    requires Usable(b, x)
  {
    if x.Whole? then (b.bodies[x.body].pins[0], b.bodies[x.body].pins[1]) else (x.a, x.b)
  }

  /** `use`: a local two-terminal body, or two intrinsically distinct pins of a complete one. */
  predicate Usable(b: Board, x: Element) {
    && x.body in b.bodies && b.bodies[x.body].local
    && match x
       case Whole(_) => b.bodies[x.body].ordinary && |b.bodies[x.body].pins| == 2 && OwnPins(b, x.body)
       case Between(_, p, q) =>
         && !b.bodies[x.body].ordinary && p != q && p in b.bodies[x.body].pins && q in b.bodies[x.body].pins && OwnPins(b, x.body)
         && p in b.bodies[x.body].classes && q in b.bodies[x.body].classes
         && b.bodies[x.body].classes[p] != b.bodies[x.body].classes[q]
  }

  predicate OwnPins(b: Board, body: string)
    requires body in b.bodies
  {
    forall pin :: pin in b.bodies[body].pins ==> pin in b.visible
  }

  predicate Distinct(elements: seq<Element>) {
    forall i, j :: 0 <= i < j < |elements| ==> elements[i].body != elements[j].body
  }

  predicate Fresh(b: Board, elements: seq<Element>) {
    Distinct(elements) && forall x :: x in elements ==> Usable(b, x) && !b.bodies[x.body].used
  }

  /** `_prepared_chain`. */
  predicate Prepared(b: Board, elements: seq<Element>, start: Endpoint, end: Endpoint)
    requires InNets(b) && |b.labels| > 0
  {
    && elements != [] && Known(b, start) && Known(b, end)
    && RootOf(b, start) != RootOf(b, end)
    && Fresh(b, elements)
  }

  function Consume(b: Board, body: string): Board
    requires body in b.bodies
  {
    b.(bodies := b.bodies[body := b.bodies[body].(used := true)])
  }

  /** One body between two nodes. */
  function Insert(b: Board, x: Element, left: nat, right: nat): Board
    requires Usable(b, x) && InNets(b) && left < |b.labels| && right < |b.labels|
  {
    var pins := TerminalsOf(b, x);
    Placed(Consume(b, x.body), pins, left, right)
  }

  function Placed(b: Board, pins: (Pin, Pin), left: nat, right: nat): Board
    requires InNets(b) && left < |b.labels| && right < |b.labels| && pins.0 in b.visible && pins.1 in b.visible
  {
    Connected(Connected(b, Terminal(pins.0), left), Terminal(pins.1), right)
  }

  /** The start, the generated nets and the end of a chain of `n` bodies. */
  function Nodes(first: nat, generated: nat, n: nat, last: nat): (nodes: seq<nat>)
    requires n > 0
    ensures |nodes| == n + 1 && nodes[0] == first && nodes[n] == last
  {
    [first] + seq(n - 1, i requires 0 <= i < n - 1 => generated + i) + [last]
  }

  function Inserted(b: Board, elements: seq<Element>, nodes: seq<nat>, i: nat): Board
    requires i <= |elements| < |nodes|
  {
    if i == 0 then b else InsertNext(Inserted(b, elements, nodes, i - 1), elements[i - 1], nodes[i - 1], nodes[i])
  }

  function InsertNext(b: Board, x: Element, left: nat, right: nat): Board {
    if Usable(b, x) && InNets(b) && left < |b.labels| && right < |b.labels| then Insert(b, x, left, right) else b
  }

  /** Start and end bound, and the nets between the bodies generated. */
  function Opened(b: Board, n: nat, start: Endpoint, end: Endpoint): Board
    requires n > 0
  {
    Bind(Generated(Bind(b, start), n - 1), end)
  }

  function ChainNodes(b: Board, n: nat, start: Endpoint, end: Endpoint): seq<nat>
    requires n > 0 && Valid(b) && Known(b, start) && Known(b, end)
  {
    BindKeeps(b, start);
    GeneratedKeeps(Bind(b, start), n - 1);
    BindKeeps(Generated(Bind(b, start), n - 1), end);
    Nodes(NetAt(Bind(b, start), start), |Bind(b, start).labels|, n, NetAt(Opened(b, n, start, end), end))
  }

  /** `chain`, once prepared. */
  function Chained(b: Board, elements: seq<Element>, start: Endpoint, end: Endpoint): Board
    requires Valid(b) && Prepared(b, elements, start, end)
  {
    Inserted(Opened(b, |elements|, start, end), elements, ChainNodes(b, |elements|, start, end), |elements|)
  }

  /** Both terminals of an inserted body sit on the nodes around it. */
  predicate Sits(b: Board, pins: (Pin, Pin), left: nat, right: nat) {
    && InNets(b) && pins.0 in b.nets && pins.1 in b.nets && left < |b.labels| && right < |b.labels|
    && b.labels[b.nets[pins.0]] == b.labels[left] && b.labels[b.nets[pins.1]] == b.labels[right]
  }

  lemma SitsOn(a: Board, b: Board, pins: (Pin, Pin), left: nat, right: nat)
    requires Sits(a, pins, left, right) && Grows(a, b) && InNets(b)
    ensures Sits(b, pins, left, right)
  {
  }

  /** What an operation does to bodies other than marking some of them used. */
  predicate BodiesKept(a: Board, b: Board, used: set<string>) {
    && a.bodies.Keys == b.bodies.Keys
    && forall body :: body in a.bodies ==> b.bodies[body] == if body in used then a.bodies[body].(used := true) else a.bodies[body]
  }

  lemma PlacedKeeps(b: Board, pins: (Pin, Pin), left: nat, right: nat)
    requires Valid(b) && left < |b.labels| && right < |b.labels| && pins.0 in b.visible && pins.1 in b.visible
    ensures var after := Placed(b, pins, left, right);
      Valid(after) && Grows(b, after) && after.bodies == b.bodies && after.ids == b.ids && Sits(after, pins, left, right)
  {
    ConnectedKeeps(b, Terminal(pins.0), left);
    var half := Connected(b, Terminal(pins.0), left);
    ConnectedKeeps(half, Terminal(pins.1), right);
    var after := Connected(half, Terminal(pins.1), right);
    GrowsTwice(b, half, after);
    SitsBoth(half, after, pins, left, right);
  }

  lemma SitsBoth(half: Board, after: Board, pins: (Pin, Pin), left: nat, right: nat)
    requires InNets(half) && InNets(after) && Grows(half, after) && left < |half.labels| && right < |half.labels|
    requires pins.0 in half.nets && half.labels[half.nets[pins.0]] == half.labels[left]
    requires pins.1 in after.nets && after.labels[after.nets[pins.1]] == after.labels[right]
    ensures Sits(after, pins, left, right)
  {
  }

  lemma ConsumeKeeps(b: Board, body: string)
    requires Valid(b) && body in b.bodies
    ensures Valid(Consume(b, body)) && Grows(b, Consume(b, body)) && BodiesKept(b, Consume(b, body), {body})
  {
  }

  lemma TerminalsVisible(b: Board, x: Element)
    requires Usable(b, x)
    ensures TerminalsOf(b, x).0 in b.visible && TerminalsOf(b, x).1 in b.visible
  {
    assert TerminalsOf(b, x).0 in b.bodies[x.body].pins && TerminalsOf(b, x).1 in b.bodies[x.body].pins;
  }

  lemma InsertKeeps(b: Board, x: Element, left: nat, right: nat)
    requires Valid(b) && Usable(b, x) && left < |b.labels| && right < |b.labels|
    ensures var after := Insert(b, x, left, right);
      && Valid(after) && Grows(b, after) && BodiesKept(b, after, {x.body}) && after.ids == b.ids
      && Sits(after, TerminalsOf(b, x), left, right)
  {
    var pins := TerminalsOf(b, x);
    TerminalsVisible(b, x);
    ConsumeKeeps(b, x.body);
    PlacedKeeps(Consume(b, x.body), pins, left, right);
    GrowsTwice(b, Consume(b, x.body), Insert(b, x, left, right));
  }

  function BodySet(elements: seq<Element>, n: nat): (bodies: set<string>)
    requires n <= |elements|
    ensures forall i :: 0 <= i < n ==> elements[i].body in bodies
  {
    set i | 0 <= i < n :: elements[i].body
  }

  lemma UsableStays(a: Board, b: Board, x: Element, used: set<string>)
    requires BodiesKept(a, b, used) && b.visible == a.visible && Usable(a, x)
    ensures Usable(b, x) && TerminalsOf(b, x) == TerminalsOf(a, x)
  {
  }

  predicate NodesIn(b: Board, nodes: seq<nat>) {
    forall i :: 0 <= i < |nodes| ==> nodes[i] < |b.labels|
  }

  predicate AllUsable(b: Board, elements: seq<Element>) {
    forall i :: 0 <= i < |elements| ==> Usable(b, elements[i])
  }

  /** The first `n` bodies lie between consecutive nodes. */
  predicate Laid(b: Board, after: Board, elements: seq<Element>, nodes: seq<nat>, n: nat)
    requires n <= |elements| < |nodes| && AllUsable(b, elements)
  {
    forall k :: 0 <= k < n ==> Sits(after, TerminalsOf(b, elements[k]), nodes[k], nodes[k + 1])
  }

  lemma LaidOn(b: Board, c: Board, d: Board, elements: seq<Element>, nodes: seq<nat>, n: nat)
    requires n <= |elements| < |nodes| && AllUsable(b, elements) && Laid(b, c, elements, nodes, n) && Grows(c, d) && InNets(d)
    ensures Laid(b, d, elements, nodes, n)
  {
    forall k | 0 <= k < n
      ensures Sits(d, TerminalsOf(b, elements[k]), nodes[k], nodes[k + 1])
    {
      SitsOn(c, d, TerminalsOf(b, elements[k]), nodes[k], nodes[k + 1]);
    }
  }

  lemma {:induction false} InsertedKeeps(b: Board, elements: seq<Element>, nodes: seq<nat>, n: nat)
    requires Valid(b) && n <= |elements| < |nodes| && AllUsable(b, elements) && NodesIn(b, nodes)
    ensures var after := Inserted(b, elements, nodes, n);
      && Valid(after) && Grows(b, after) && BodiesKept(b, after, BodySet(elements, n)) && after.ids == b.ids
      && Laid(b, after, elements, nodes, n)
  {
    if n > 0 {
      InsertedKeeps(b, elements, nodes, n - 1);
      InsertedNext(b, Inserted(b, elements, nodes, n - 1), elements, nodes, n);
    }
  }

  lemma InsertedNext(b: Board, before: Board, elements: seq<Element>, nodes: seq<nat>, n: nat)
    requires 0 < n <= |elements| < |nodes| && AllUsable(b, elements) && NodesIn(b, nodes)
    requires Valid(before) && Grows(b, before) && BodiesKept(b, before, BodySet(elements, n - 1)) && before.ids == b.ids
    requires Laid(b, before, elements, nodes, n - 1)
    ensures var after := InsertNext(before, elements[n - 1], nodes[n - 1], nodes[n]);
      && Valid(after) && Grows(b, after) && BodiesKept(b, after, BodySet(elements, n)) && after.ids == b.ids
      && Laid(b, after, elements, nodes, n)
  {
    var x := elements[n - 1];
    UsableStays(b, before, x, BodySet(elements, n - 1));
    InsertKeeps(before, x, nodes[n - 1], nodes[n]);
    var after := InsertNext(before, x, nodes[n - 1], nodes[n]);
    LaidNext(b, before, after, elements, nodes, n);
    UsedMore(b, before, after, elements, n);
  }

  lemma LaidNext(b: Board, before: Board, after: Board, elements: seq<Element>, nodes: seq<nat>, n: nat)
    requires 0 < n <= |elements| < |nodes| && AllUsable(b, elements) && InNets(after)
    requires Grows(b, before) && Grows(before, after) && Laid(b, before, elements, nodes, n - 1)
    requires Sits(after, TerminalsOf(b, elements[n - 1]), nodes[n - 1], nodes[n])
    ensures Grows(b, after) && Laid(b, after, elements, nodes, n)
  {
    GrowsTwice(b, before, after);
    LaidOn(b, before, after, elements, nodes, n - 1);
  }

  lemma UsedMore(b: Board, before: Board, after: Board, elements: seq<Element>, n: nat)
    requires 0 < n <= |elements|
    requires BodiesKept(b, before, BodySet(elements, n - 1)) && BodiesKept(before, after, {elements[n - 1].body})
    ensures BodiesKept(b, after, BodySet(elements, n))
  {
    assert BodySet(elements, n) == BodySet(elements, n - 1) + {elements[n - 1].body};
  }

  /** An accepted chain lays its bodies end to end between start and end, marks exactly those
      bodies used, and keeps the labels representing the declared joins. */
  lemma ChainKeeps(b: Board, elements: seq<Element>, start: Endpoint, end: Endpoint)
    requires Valid(b) && Prepared(b, elements, start, end)
    ensures AllUsable(b, elements)
    ensures var after, nodes := Chained(b, elements, start, end), ChainNodes(b, |elements|, start, end);
      && Valid(after) && Grows(b, after) && BodiesKept(b, after, BodySet(elements, |elements|)) && after.ids == b.ids
      && Laid(b, after, elements, nodes, |elements|)
      && HasNet(after, start) && HasNet(after, end)
      && nodes[0] == NetAt(after, start) && nodes[|elements|] == NetAt(after, end)
  {
    var n := |elements|;
    OpenedKeeps(b, n, start, end);
    var ready := Opened(b, n, start, end);
    var nodes := ChainNodes(b, n, start, end);
    forall i | 0 <= i < n
      ensures Usable(b, elements[i])
    {
      assert elements[i] in elements;
    }
    forall i | 0 <= i < n
      ensures Usable(ready, elements[i]) && TerminalsOf(ready, elements[i]) == TerminalsOf(b, elements[i])
    {
      UsableStays(b, ready, elements[i], {});
    }
    InsertedKeeps(ready, elements, nodes, n);
    GrowsTwice(b, ready, Inserted(ready, elements, nodes, n));
  }

  lemma OpenedKeeps(b: Board, n: nat, start: Endpoint, end: Endpoint)
    requires Valid(b) && n > 0 && Known(b, start) && Known(b, end)
    ensures var ready := Opened(b, n, start, end);
      && Valid(ready) && Grows(b, ready) && ready.bodies == b.bodies && ready.ids == b.ids
      && HasNet(ready, start) && HasNet(ready, end)
      && NodesIn(ready, ChainNodes(b, n, start, end))
      && ChainNodes(b, n, start, end)[0] == NetAt(ready, start) && ChainNodes(b, n, start, end)[n] == NetAt(ready, end)
  {
    var first := Bind(b, start);
    var more := Generated(first, n - 1);
    BindKeeps(b, start);
    GeneratedKeeps(first, n - 1);
    BindKeeps(more, end);
    GeneratedIds(first, n - 1);
    GrowsTwice(b, first, more);
    GrowsTwice(b, more, Bind(more, end));
    NodesRange(first, more, Bind(more, end), n, start, end);
  }

  lemma NodesRange(first: Board, more: Board, ready: Board, n: nat, start: Endpoint, end: Endpoint)
    requires n > 0 && InNets(first) && InNets(more) && InNets(ready) && |first.labels| > 0
    requires HasNet(first, start) && Grows(first, more) && Grows(more, ready) && HasNet(ready, end)
    requires |more.labels| == |first.labels| + n - 1
    ensures HasNet(ready, start) && NetAt(first, start) == NetAt(ready, start)
    ensures NodesIn(ready, Nodes(NetAt(first, start), |first.labels|, n, NetAt(ready, end)))
  {
  }

  lemma {:induction false} GeneratedIds(b: Board, k: nat)
    ensures Generated(b, k).ids == b.ids
  {
    if k > 0 { GeneratedIds(b, k - 1); }
  }

  // ---- Series, branch and parallel ----------------------------------------------------------------

  function WithId(b: Board, id: string): Board {
    b.(ids := b.ids + {id})
  }

  lemma WithIdKeeps(b: Board, id: string)
    requires Valid(b)
    ensures Valid(WithId(b, id)) && Grows(b, WithId(b, id)) && BodiesKept(b, WithId(b, id), {})
  {
  }

  function Series(b: Board, id: string, start: Endpoint, elements: seq<Element>, end: Endpoint): Outcome
    requires Valid(b)
  {
    if !Prepared(b, elements, start, end) || id in b.ids then Outcome(b, false)
    else
      WithIdKeeps(b, id);
      Outcome(Chained(WithId(b, id), elements, start, end), true)
  }

  function Branch(b: Board, id: string, at: Endpoint, elements: seq<Element>, end: Endpoint): Outcome
    requires Valid(b)
  {
    if at.Bus? || at.Tap? then Series(b, id, at, elements, end) else Outcome(b, false)
  }

  predicate AllPrepared(b: Board, start: Endpoint, branches: seq<seq<Element>>, end: Endpoint)
    requires InNets(b) && |b.labels| > 0
  {
    forall i :: 0 <= i < |branches| ==> Prepared(b, branches[i], start, end)
  }

  predicate Apart(branches: seq<seq<Element>>) {
    forall i, j, k, l :: 0 <= i < j < |branches| && 0 <= k < |branches[i]| && 0 <= l < |branches[j]| ==>
      branches[i][k].body != branches[j][l].body
  }

  /** The checks of `parallel`, all made before anything changes. */
  predicate ParallelReady(b: Board, id: string, start: Endpoint, branches: seq<seq<Element>>, end: Endpoint)
    requires InNets(b) && |b.labels| > 0
  {
    |branches| >= 2 && AllPrepared(b, start, branches, end) && Apart(branches) && id !in b.ids
  }

  /** A chain operation and its check, for one start and end. */
  type Check = (Board, seq<Element>) -> bool
  type Chain = (Board, seq<Element>) -> Board

  ghost function CheckFor(start: Endpoint, end: Endpoint): Check {
    (c: Board, elements: seq<Element>) => Valid(c) && Prepared(c, elements, start, end)
  }

  ghost function ChainFor(start: Endpoint, end: Endpoint): Chain {
    (c: Board, elements: seq<Element>) => if Valid(c) && Prepared(c, elements, start, end) then Chained(c, elements, start, end) else c
  }

  /** The first `n` branches laid one after the other; each is prepared again on the state it meets. */
  function Lay(b: Board, branches: seq<seq<Element>>, n: nat, check: Check, chain: Chain): (outcome: Outcome)
    requires n <= |branches|
  {
    if n == 0 then Outcome(b, true) else LayNext(Lay(b, branches, n - 1, check, chain), branches[n - 1], check, chain)
  }

  function LayNext(before: Outcome, branch: seq<Element>, check: Check, chain: Chain): (outcome: Outcome) {
    if !before.ok || !check(before.board, branch) then Outcome(before.board, false)
    else Outcome(chain(before.board, branch), true)
  }

  ghost function Parallel(b: Board, id: string, start: Endpoint, branches: seq<seq<Element>>, end: Endpoint): Outcome
    requires Valid(b)
  {
    if !ParallelReady(b, id, start, branches, end) then Outcome(b, false)
    else Lay(WithId(b, id), branches, |branches|, CheckFor(start, end), ChainFor(start, end))
  }

  /** A refused series or branch changes nothing; an accepted one keeps the labels representing
      the declared joins and brings each body onto its two nodes. */
  lemma SeriesKeeps(b: Board, id: string, start: Endpoint, elements: seq<Element>, end: Endpoint)
    requires Valid(b)
    ensures var outcome := Series(b, id, start, elements, end);
      && Valid(outcome.board) && Grows(b, outcome.board)
      && (!outcome.ok ==> outcome.board == b)
      && (outcome.ok ==> BodiesKept(b, outcome.board, BodySet(elements, |elements|)) && outcome.board.ids == b.ids + {id})
  {
    hide Inserted, Leads, Bind;
    if Prepared(b, elements, start, end) && id !in b.ids {
      var named := WithId(b, id);
      WithIdKeeps(b, id);
      ChainKeeps(named, elements, start, end);
      NamedFirst(b, named, Chained(named, elements, start, end), BodySet(elements, |elements|));
    }
  }

  lemma NamedFirst(b: Board, named: Board, after: Board, used: set<string>)
    requires BodiesKept(b, named, {}) && BodiesKept(named, after, used) && Grows(b, named) && Grows(named, after)
    ensures BodiesKept(b, after, used) && Grows(b, after)
  {
    GrowsTwice(b, named, after);
  }

  /** What the branches laid so far leave for the rest. */
  predicate LaidSoFar(b: Board, after: Board, branches: seq<seq<Element>>, n: nat)
    requires n <= |branches|
  {
    && Grows(b, after) && after.bodies.Keys == b.bodies.Keys
    && forall body :: body in b.bodies ==>
         && after.bodies[body].(used := b.bodies[body].used) == b.bodies[body]
         && (Unlaid(branches, n, body) ==> after.bodies[body] == b.bodies[body])
  }

  predicate Unlaid(branches: seq<seq<Element>>, n: nat, body: string)
    requires n <= |branches|
  {
    forall i, k :: 0 <= i < n && 0 <= k < |branches[i]| ==> branches[i][k].body != body
  }

  lemma LaidStep(b: Board, before: Board, after: Board, branches: seq<seq<Element>>, n: nat)
    requires 0 < n <= |branches| && LaidSoFar(b, before, branches, n - 1)
    requires Grows(before, after) && BodiesKept(before, after, BodySet(branches[n - 1], |branches[n - 1]|))
    ensures LaidSoFar(b, after, branches, n)
  {
    GrowsTwice(b, before, after);
    forall body | body in b.bodies && Unlaid(branches, n, body)
      ensures after.bodies[body] == b.bodies[body]
    {
      assert body !in BodySet(branches[n - 1], |branches[n - 1]|) && Unlaid(branches, n - 1, body);
    }
  }

  /** What every accepted chain does. */
  ghost predicate Chains(check: Check, chain: Chain) {
    forall c: Board, elements: seq<Element> :: Valid(c) && check(c, elements) ==> ChainsOne(c, elements, chain(c, elements))
  }

  ghost predicate ChainsOne(c: Board, elements: seq<Element>, after: Board) {
    Valid(after) && Grows(c, after) && BodiesKept(c, after, BodySet(elements, |elements|)) && after.ids == c.ids
  }

  lemma ChainsFor(start: Endpoint, end: Endpoint)
    ensures Chains(CheckFor(start, end), ChainFor(start, end))
  {
    forall c: Board, elements: seq<Element> | Valid(c) && CheckFor(start, end)(c, elements)
      ensures ChainsOne(c, elements, ChainFor(start, end)(c, elements))
    {
      ChainKeeps(c, elements, start, end);
    }
  }

  lemma LaidNothing(b: Board, branches: seq<seq<Element>>)
    ensures LaidSoFar(b, b, branches, 0)
  {
  }

  lemma {:induction false} LayKeeps(b: Board, branches: seq<seq<Element>>, n: nat, check: Check, chain: Chain)
    requires Valid(b) && n <= |branches| && Chains(check, chain)
    ensures var after := Lay(b, branches, n, check, chain).board;
      Valid(after) && LaidSoFar(b, after, branches, n) && after.ids == b.ids
  {
    if n > 0 {
      LayKeeps(b, branches, n - 1, check, chain);
      var before := Lay(b, branches, n - 1, check, chain);
      if before.ok && check(before.board, branches[n - 1]) {
        assert ChainsOne(before.board, branches[n - 1], chain(before.board, branches[n - 1]));
        LaidStep(b, before.board, chain(before.board, branches[n - 1]), branches, n);
      }
    } else {
      LaidNothing(b, branches);
    }
  }

  /** The endpoints of a structure lie in different classes. */
  predicate Separate(b: Board, start: Endpoint, end: Endpoint)
    requires InNets(b) && |b.labels| > 0
  {
    Known(b, start) && Known(b, end) && RootOf(b, start) != RootOf(b, end)
  }

  lemma StillPrepared(b: Board, after: Board, start: Endpoint, branches: seq<seq<Element>>, end: Endpoint, n: nat)
    requires Valid(b) && Valid(after) && n < |branches| && AllPrepared(b, start, branches, end) && Apart(branches)
    requires LaidSoFar(b, after, branches, n)
    ensures Prepared(after, branches[n], start, end) <==> Separate(after, start, end)
  {
    assert Prepared(b, branches[n], start, end);
    forall x | x in branches[n]
      ensures Usable(after, x) && !after.bodies[x.body].used
    {
      StillUsable(b, after, branches, n, x);
    }
  }

  lemma StillUsable(b: Board, after: Board, branches: seq<seq<Element>>, n: nat, x: Element)
    requires n < |branches| && Apart(branches) && LaidSoFar(b, after, branches, n) && x in branches[n] && Usable(b, x)
    ensures Usable(after, x) && after.bodies[x.body].used == b.bodies[x.body].used
  {
    var l :| 0 <= l < |branches[n]| && branches[n][l] == x;
    assert Unlaid(branches, n, branches[n][l].body);
  }

  type Test = Board -> bool

  ghost function SeparateFor(start: Endpoint, end: Endpoint): Test {
    (c: Board) => Valid(c) && Separate(c, start, end)
  }

  predicate Passes(b: Board, branches: seq<seq<Element>>, k: nat, check: Check, chain: Chain, test: Test)
    requires k < |branches|
  {
    var before := Lay(b, branches, k, check, chain).board;
    check(before, branches[k]) <==> test(before)
  }

  predicate TestAt(b: Board, branches: seq<seq<Element>>, k: nat, check: Check, chain: Chain, test: Test)
    requires k <= |branches|
  {
    test(Lay(b, branches, k, check, chain).board)
  }

  /** If a test decides every check, laying succeeds exactly when the test holds before each branch. */
  lemma {:induction false} LayDecided(b: Board, branches: seq<seq<Element>>, n: nat, check: Check, chain: Chain, test: Test)
    requires n <= |branches| && forall k :: 0 <= k < n ==> Passes(b, branches, k, check, chain, test)
    ensures Lay(b, branches, n, check, chain).ok <==> forall k :: 0 <= k < n ==> TestAt(b, branches, k, check, chain, test)
  {
    if n > 0 {
      LayDecided(b, branches, n - 1, check, chain, test);
      assert Passes(b, branches, n - 1, check, chain, test);
      assert TestAt(b, branches, n - 1, check, chain, test) == test(Lay(b, branches, n - 1, check, chain).board);
    }
  }

  lemma LayStep(b: Board, start: Endpoint, branches: seq<seq<Element>>, end: Endpoint, n: nat)
    requires Valid(b) && n < |branches| && AllPrepared(b, start, branches, end) && Apart(branches)
    ensures Passes(b, branches, n, CheckFor(start, end), ChainFor(start, end), SeparateFor(start, end))
  {
    ChainsFor(start, end);
    LayKeeps(b, branches, n, CheckFor(start, end), ChainFor(start, end));
    StillPrepared(b, Lay(b, branches, n, CheckFor(start, end), ChainFor(start, end)).board, start, branches, end, n);
  }

  /** Once its checks passed, `parallel` is accepted exactly when no branch laid before the last
      one merges start and end. */
  lemma LayExact(b: Board, start: Endpoint, branches: seq<seq<Element>>, end: Endpoint, n: nat)
    requires Valid(b) && n <= |branches| && AllPrepared(b, start, branches, end) && Apart(branches)
    ensures Lay(b, branches, n, CheckFor(start, end), ChainFor(start, end)).ok <==>
      forall k :: 0 <= k < n ==> TestAt(b, branches, k, CheckFor(start, end), ChainFor(start, end), SeparateFor(start, end))
  {
    forall k | 0 <= k < n
      ensures Passes(b, branches, k, CheckFor(start, end), ChainFor(start, end), SeparateFor(start, end))
    {
      LayStep(b, start, branches, end, k);
    }
    LayDecided(b, branches, n, CheckFor(start, end), ChainFor(start, end), SeparateFor(start, end));
  }

  /** A refused `parallel` changed nothing if its checks failed; otherwise it stops exactly when the
      branches before some other have merged start and end, and those branches stay laid. */
  lemma ParallelTested(b: Board, id: string, start: Endpoint, branches: seq<seq<Element>>, end: Endpoint)
    requires Valid(b)
    ensures !ParallelReady(b, id, start, branches, end) ==> Parallel(b, id, start, branches, end) == Outcome(b, false)
    ensures ParallelReady(b, id, start, branches, end) ==>
      && Valid(Parallel(b, id, start, branches, end).board)
      && Parallel(b, id, start, branches, end).board.ids == b.ids + {id}
      && (Parallel(b, id, start, branches, end).ok <==> forall k :: 0 <= k < |branches| ==>
            TestAt(WithId(b, id), branches, k, CheckFor(start, end), ChainFor(start, end), SeparateFor(start, end)))
  {
    if ParallelReady(b, id, start, branches, end) {
      WithIdKeeps(b, id);
      forall i | 0 <= i < |branches|
        ensures Prepared(WithId(b, id), branches[i], start, end)
      {
        PreparedWithId(b, id, branches[i], start, end);
      }
      LayExact(WithId(b, id), start, branches, end, |branches|);
      ChainsFor(start, end);
      LayKeeps(WithId(b, id), branches, |branches|, CheckFor(start, end), ChainFor(start, end));
    }
  }

  lemma PreparedWithId(b: Board, id: string, elements: seq<Element>, start: Endpoint, end: Endpoint)
    requires Valid(b) && Prepared(b, elements, start, end)
    ensures Prepared(WithId(b, id), elements, start, end)
  {
    forall x | x in elements
      ensures Usable(WithId(b, id), x) && !WithId(b, id).bodies[x.body].used
    {
      assert Usable(b, x);
    }
  }

  lemma {:induction false} LayStops(b: Board, branches: seq<seq<Element>>, n: nat, m: nat, check: Check, chain: Chain)
    requires n < m <= |branches| && !check(Lay(b, branches, n, check, chain).board, branches[n])
    ensures Lay(b, branches, m, check, chain) == Outcome(Lay(b, branches, n, check, chain).board, false)
  {
    if n + 1 < m {
      LayStops(b, branches, n, m - 1, check, chain);
    }
  }

  /** A first branch of one body whose first terminal already lies on the end's net shorts the two
      nodes: `parallel` is then refused with that branch laid, its body used and its id taken. */
  lemma ParallelHalfDone(b: Board, id: string, start: Endpoint, branches: seq<seq<Element>>, end: Endpoint)
    requires Valid(b) && ParallelReady(b, id, start, branches, end) && |branches[0]| == 1
    requires Usable(b, branches[0][0]) && HasNet(b, end) && HasNet(b, Terminal(TerminalsOf(b, branches[0][0]).0))
    requires RootOf(b, Terminal(TerminalsOf(b, branches[0][0]).0)) == RootOf(b, end)
    ensures var outcome := Parallel(b, id, start, branches, end);
      && !outcome.ok && id in outcome.board.ids
      && branches[0][0].body in outcome.board.bodies && outcome.board.bodies[branches[0][0].body].used
  {
    hide Chained, Canonical;
    var named, check, chain := WithId(b, id), CheckFor(start, end), ChainFor(start, end);
    WithIdKeeps(b, id);
    assert Prepared(b, branches[0], start, end);
    PreparedWithId(b, id, branches[0], start, end);
    FirstMerges(named, branches[0], start, end);
    assert Lay(named, branches, 0, check, chain) == Outcome(named, true);
    assert Lay(named, branches, 1, check, chain) == Outcome(chain(named, branches[0]), true);
    LayStops(named, branches, 1, |branches|, check, chain);
  }

  lemma FirstMerges(b: Board, branch: seq<Element>, start: Endpoint, end: Endpoint)
    requires Valid(b) && |branch| == 1 && Prepared(b, branch, start, end)
    requires Usable(b, branch[0]) && HasNet(b, end) && HasNet(b, Terminal(TerminalsOf(b, branch[0]).0))
    requires RootOf(b, Terminal(TerminalsOf(b, branch[0]).0)) == RootOf(b, end)
    ensures var after := Chained(b, branch, start, end);
      && Valid(after) && !Separate(after, start, end) && after.ids == b.ids
      && branch[0].body in after.bodies && after.bodies[branch[0].body].used
  {
    hide Inserted;
    ChainKeeps(b, branch, start, end);
    var after, nodes := Chained(b, branch, start, end), ChainNodes(b, 1, start, end);
    assert Sits(after, TerminalsOf(b, branch[0]), nodes[0], nodes[1]);
  }
}
