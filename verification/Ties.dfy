/** What a chain or a parallel structure does to every class, in terms of the state it met. */
module Ties {
  // A declaration ties endpoints together.  The closure of its ties, over the roots that the
  // endpoints have before the call, says exactly which endpoints share a root afterwards.

  import opened Partition
  import opened Scope

  /** Two endpoints that a declaration puts on one node. */
  type Tie = (Endpoint, Endpoint)

  // ---- The closure of declared ties -----------------------------------------------------------------

  /** A bus or one of its taps. */
  predicate OnBus(b: Board, x: Endpoint) {
    x.Bus? || (x.Tap? && (x.bus, x.tap) in b.taps)
  }

  /** One node without any tie: the same endpoint, one bus, or one root already. */
  predicate Same(b: Board, x: Endpoint, y: Endpoint)
    requires InNets(b) && |b.labels| > 0
  {
    || x == y
    || (OnBus(b, x) && OnBus(b, y) && x.bus == y.bus)
    || (HasRoot(b, x) && HasRoot(b, y) && RootOf(b, x) == RootOf(b, y))
  }

  predicate Linked(b: Board, ties: seq<Tie>, x: Endpoint, y: Endpoint)
    requires InNets(b) && |b.labels| > 0
  {
    Same(b, x, y) || (x, y) in ties || (y, x) in ties
  }

  predicate IsTrail(b: Board, ties: seq<Tie>, trail: seq<Endpoint>)
    requires InNets(b) && |b.labels| > 0
  {
    trail != [] && forall i :: 0 < i < |trail| ==> Linked(b, ties, trail[i - 1], trail[i])
  }

  predicate Trails(b: Board, ties: seq<Tie>, trail: seq<Endpoint>, x: Endpoint, y: Endpoint)
    requires InNets(b) && |b.labels| > 0
  {
    IsTrail(b, ties, trail) && trail[0] == x && trail[|trail| - 1] == y
  }

  /** Ties and shared roots lead from one endpoint to the other. */
  ghost predicate Tied(b: Board, ties: seq<Tie>, x: Endpoint, y: Endpoint)
    requires InNets(b) && |b.labels| > 0
  {
    exists trail :: Trails(b, ties, trail, x, y)
  }

  lemma TiedSelf(b: Board, ties: seq<Tie>, x: Endpoint)
    requires InNets(b) && |b.labels| > 0
    ensures Tied(b, ties, x, x)
  {
    assert Trails(b, ties, [x], x, x);
  }

  lemma TiedFurther(b: Board, ties: seq<Tie>, x: Endpoint, y: Endpoint, z: Endpoint)
    requires InNets(b) && |b.labels| > 0 && Linked(b, ties, y, z)
    ensures Tied(b, ties, x, y) <==> Tied(b, ties, x, z)
  {
    if Tied(b, ties, x, y) {
      var trail :| Trails(b, ties, trail, x, y);
      assert Trails(b, ties, trail + [z], x, z);
    }
    if Tied(b, ties, x, z) {
      var trail :| Trails(b, ties, trail, x, z);
      assert Trails(b, ties, trail + [y], x, y);
    }
  }

  /** More ties lead further. */
  lemma TiedMore(b: Board, ties: seq<Tie>, more: seq<Tie>, x: Endpoint, y: Endpoint)
    requires InNets(b) && |b.labels| > 0 && Tied(b, ties, x, y)
    ensures Tied(b, ties + more, x, y)
  {
    var trail :| Trails(b, ties, trail, x, y);
    assert Trails(b, ties + more, trail, x, y);
  }

  // ---- From ties to roots ---------------------------------------------------------------------------

  /** Endpoints that shared a root still have and share one. */
  predicate KeepsPair(b: Board, after: Board, x: Endpoint, y: Endpoint)
    requires InNets(b) && |b.labels| > 0 && InNets(after) && |after.labels| > 0
  {
    HasRoot(b, x) && HasRoot(b, y) && RootOf(b, x) == RootOf(b, y) ==> Meets(after, x, y)
  }

  predicate Meets(after: Board, x: Endpoint, y: Endpoint)
    requires InNets(after) && |after.labels| > 0
  {
    HasRoot(after, x) && HasRoot(after, y) && RootOf(after, x) == RootOf(after, y)
  }

  ghost predicate Keeps(b: Board, after: Board)
    requires InNets(b) && |b.labels| > 0 && InNets(after) && |after.labels| > 0
  {
    after.taps == b.taps && forall x, y :: KeepsPair(b, after, x, y)
  }

  predicate Honours(after: Board, ties: seq<Tie>)
    requires InNets(after) && |after.labels| > 0
  {
    forall t :: t in ties ==> Meets(after, t.0, t.1)
  }

  lemma GrowsKeeps(b: Board, after: Board)
    requires Valid(b) && Valid(after) && Grows(b, after)
    ensures Keeps(b, after)
  {
    forall x, y
      ensures KeepsPair(b, after, x, y)
    {
    }
  }

  lemma KeepsTwice(b: Board, c: Board, d: Board)
    requires Valid(b) && Valid(c) && Valid(d) && Keeps(b, c) && Keeps(c, d)
    ensures Keeps(b, d)
  {
    forall x, y
      ensures KeepsPair(b, d, x, y)
    {
      assert KeepsPair(b, c, x, y) && KeepsPair(c, d, x, y);
    }
  }

  lemma HonoursOn(c: Board, d: Board, ties: seq<Tie>)
    requires Valid(c) && Valid(d) && Keeps(c, d) && Honours(c, ties)
    ensures Honours(d, ties)
  {
    forall t | t in ties
      ensures Meets(d, t.0, t.1)
    {
      assert Meets(c, t.0, t.1) && KeepsPair(c, d, t.0, t.1);
    }
  }

  lemma StepMeets(b: Board, after: Board, ties: seq<Tie>, x: Endpoint, y: Endpoint)
    requires Valid(b) && Valid(after) && Keeps(b, after) && Honours(after, ties)
    requires Linked(b, ties, x, y) && HasRoot(after, x)
    ensures Meets(after, x, y)
  {
    if (x, y) in ties {
      assert Meets(after, (x, y).0, (x, y).1);
    } else if (y, x) in ties {
      assert Meets(after, (y, x).0, (y, x).1);
    } else {
      assert KeepsPair(b, after, x, y);
    }
  }

  /** Along a trail all endpoints share a root afterwards. */
  lemma {:induction false} TrailMeets(b: Board, after: Board, ties: seq<Tie>, trail: seq<Endpoint>)
    requires Valid(b) && Valid(after) && Keeps(b, after) && Honours(after, ties)
    requires IsTrail(b, ties, trail) && HasRoot(after, trail[0])
    ensures Meets(after, trail[0], trail[|trail| - 1])
  {
    var last := |trail| - 1;
    if last > 0 {
      TrailMeets(b, after, ties, trail[..last]);
      StepMeets(b, after, ties, trail[last - 1], trail[last]);
    }
  }

  // ---- From roots to ties ---------------------------------------------------------------------------

  /** A colouring of endpoints. */
  type Colour = Endpoint -> bool

  /** Endpoints of one root have one colour. */
  predicate RespectsPair(c: Board, red: Colour, x: Endpoint, y: Endpoint)
    requires InNets(c) && |c.labels| > 0
  {
    Meets(c, x, y) ==> red(x) == red(y)
  }

  ghost predicate Respects(c: Board, red: Colour)
    requires InNets(c) && |c.labels| > 0
  {
    forall x, y :: RespectsPair(c, red, x, y)
  }

  predicate Agrees(ties: seq<Tie>, red: Colour) {
    forall t :: t in ties ==> red(t.0) == red(t.1)
  }

  /** A bus and its taps have one colour. */
  ghost predicate Uniform(b: Board, red: Colour) {
    forall x, y :: OnBus(b, x) && OnBus(b, y) && x.bus == y.bus ==> red(x) == red(y)
  }

  /** Red is what ties lead to from one endpoint. */
  ghost function Reached(b: Board, ties: seq<Tie>, x: Endpoint): (red: Colour)
    requires InNets(b) && |b.labels| > 0
  {
    (y: Endpoint) => InNets(b) && |b.labels| > 0 && Tied(b, ties, x, y)
  }

  lemma ReachedRespects(b: Board, ties: seq<Tie>, x: Endpoint)
    requires InNets(b) && |b.labels| > 0
    ensures Respects(b, Reached(b, ties, x)) && Agrees(ties, Reached(b, ties, x)) && Uniform(b, Reached(b, ties, x))
  {
    var red := Reached(b, ties, x);
    forall y, z | Linked(b, ties, y, z)
      ensures red(y) == red(z)
    {
      TiedFurther(b, ties, x, y, z);
    }
    forall y, z
      ensures RespectsPair(b, red, y, z)
    {
      if Meets(b, y, z) { assert Linked(b, ties, y, z); }
    }
    forall t | t in ties
      ensures red(t.0) == red(t.1)
    {
      assert (t.0, t.1) == t && Linked(b, ties, t.0, t.1);
    }
    forall y, z | OnBus(b, y) && OnBus(b, z) && y.bus == z.bus
      ensures red(y) == red(z)
    {
      assert Linked(b, ties, y, z);
    }
  }

  /** The closure decides every root: what is tied has met, and a colouring by what is tied shows
      that nothing else has. */
  lemma ClosureExact(b: Board, after: Board, ties: seq<Tie>, x: Endpoint, y: Endpoint)
    requires Valid(b) && Valid(after) && Keeps(b, after) && Honours(after, ties) && Respects(after, Reached(b, ties, x))
    requires HasRoot(after, x) && HasRoot(after, y)
    ensures RootOf(after, x) == RootOf(after, y) <==> Tied(b, ties, x, y)
  {
    if Tied(b, ties, x, y) {
      var trail :| Trails(b, ties, trail, x, y);
      TrailMeets(b, after, ties, trail);
    }
    if RootOf(after, x) == RootOf(after, y) {
      TiedSelf(b, ties, x);
      assert RespectsPair(after, Reached(b, ties, x), x, y);
    }
  }

  // ---- Colouring nets ---------------------------------------------------------------------------------

  /** A colour for every net, one for each class, and for an endpoint's net its own. */
  ghost predicate Coloured(c: Board, colours: seq<bool>, red: Colour)
    requires InNets(c) && |c.labels| > 0
  {
    && |colours| == |c.labels|
    && (forall i, j :: 0 <= i < |colours| && 0 <= j < |colours| && c.labels[i] == c.labels[j] ==> colours[i] == colours[j])
    && (forall e :: HasNet(c, e) ==> colours[NetAt(c, e)] == red(e))
  }

  ghost predicate RedAt(c: Board, red: Colour, i: nat)
    requires InNets(c) && i < |c.labels|
  {
    exists e :: HasNet(c, e) && c.labels[NetAt(c, e)] == c.labels[i] && red(e)
  }

  lemma ColoursOf(c: Board, red: Colour) returns (colours: seq<bool>)
    requires Valid(c) && Respects(c, red)
    ensures Coloured(c, colours, red)
  {
    colours := seq(|c.labels|, i requires 0 <= i < |c.labels| && InNets(c) => RedAt(c, red, i));
    forall e | HasNet(c, e)
      ensures colours[NetAt(c, e)] == red(e)
    {
      if RedAt(c, red, NetAt(c, e)) {
        var f :| HasNet(c, f) && c.labels[NetAt(c, f)] == c.labels[NetAt(c, e)] && red(f);
        assert RespectsPair(c, red, e, f);
      }
    }
  }

  lemma ColouredRespects(c: Board, colours: seq<bool>, red: Colour)
    requires Valid(c) && Coloured(c, colours, red)
    ensures Respects(c, red)
  {
    forall x, y
      ensures RespectsPair(c, red, x, y)
    {
    }
  }

  lemma BindColours(c: Board, e: Endpoint, colours: seq<bool>, red: Colour) returns (more: seq<bool>)
    requires Valid(c) && Known(c, e) && Coloured(c, colours, red)
    ensures Valid(Bind(c, e)) && HasNet(Bind(c, e), e) && colours <= more && Coloured(Bind(c, e), more, red)
  {
    BindKeeps(c, e);
    more := if Bind(c, e) == c then colours else colours + [red(e)];
  }

  lemma {:induction false} GeneratedColours(c: Board, k: nat, colours: seq<bool>, hues: seq<bool>, red: Colour)
    requires Valid(c) && Coloured(c, colours, red) && |hues| == k
    ensures Valid(Generated(c, k)) && Coloured(Generated(c, k), colours + hues, red)
  {
    hide Valid;
    GeneratedKeeps(c, k);
    if k > 0 {
      GeneratedColours(c, k - 1, colours, hues[..k - 1], red);
      GeneratedKeeps(c, k - 1);
      assert colours + hues == (colours + hues[..k - 1]) + [hues[k - 1]];
      FreshColour(Generated(c, k - 1), colours + hues[..k - 1], hues[k - 1], red);
    }
  }

  lemma FreshColour(c: Board, colours: seq<bool>, hue: bool, red: Colour)
    requires Valid(c) && Coloured(c, colours, red)
    ensures Coloured(c.(labels := c.labels + [|c.labels|]), colours + [hue], red)
  {
    var more := c.(labels := c.labels + [|c.labels|]);
    assert forall e :: HasNet(more, e) <==> HasNet(c, e);
  }

  lemma JoinedColours(c: Board, x: nat, y: nat, colours: seq<bool>, red: Colour)
    requires Valid(c) && x < |c.labels| && y < |c.labels| && Coloured(c, colours, red) && colours[x] == colours[y]
    ensures Valid(Joined(c, x, y)) && Coloured(Joined(c, x, y), colours, red)
  {
    JoinedKeeps(c, x, y);
    MergeJoins(c.labels, x, y);
    var after := Joined(c, x, y);
    forall e | HasNet(after, e)
      ensures colours[NetAt(after, e)] == red(e)
    {
      assert HasNet(c, e) && NetAt(c, e) == NetAt(after, e);
    }
  }

  lemma ConnectedColours(c: Board, e: Endpoint, node: nat, colours: seq<bool>, red: Colour) returns (more: seq<bool>)
    requires Valid(c) && Known(c, e) && node < |c.labels| && Coloured(c, colours, red) && colours[node] == red(e)
    ensures Valid(Connected(c, e, node)) && colours <= more && Coloured(Connected(c, e, node), more, red)
  {
    more := BindColours(c, e, colours, red);
    JoinedColours(Bind(c, e), NetAt(Bind(c, e), e), node, more, red);
  }

  // ---- Chains -------------------------------------------------------------------------------------------

  function First(b: Board, elements: seq<Element>, i: nat): Endpoint
    requires i < |elements| && AllUsable(b, elements)
  {
    Terminal(TerminalsOf(b, elements[i]).0)
  }

  function Second(b: Board, elements: seq<Element>, i: nat): Endpoint
    requires i < |elements| && AllUsable(b, elements)
  {
    Terminal(TerminalsOf(b, elements[i]).1)
  }

  /** What precedes and what follows each node of a chain. */
  function Before(b: Board, elements: seq<Element>, start: Endpoint, i: nat): Endpoint
    requires i <= |elements| && AllUsable(b, elements)
  {
    if i == 0 then start else Second(b, elements, i - 1)
  }

  function Behind(b: Board, elements: seq<Element>, end: Endpoint, i: nat): Endpoint
    requires i <= |elements| && AllUsable(b, elements)
  {
    if i == |elements| then end else First(b, elements, i)
  }

  /** The ties a chain declares: start to its first body, each body to the next, the last to end. */
  function ChainTies(b: Board, elements: seq<Element>, start: Endpoint, end: Endpoint): (ties: seq<Tie>)
    requires AllUsable(b, elements)
    ensures |ties| == |elements| + 1
    ensures forall i :: 0 <= i <= |elements| ==> ties[i] == (Before(b, elements, start, i), Behind(b, elements, end, i))
  {
    seq(|elements| + 1, i requires 0 <= i <= |elements| => (Before(b, elements, start, i), Behind(b, elements, end, i)))
  }

  lemma InsertColours(c: Board, x: Element, left: nat, right: nat, colours: seq<bool>, red: Colour) returns (more: seq<bool>)
    requires Valid(c) && Usable(c, x) && left < |c.labels| && right < |c.labels| && Coloured(c, colours, red)
    requires colours[left] == red(Terminal(TerminalsOf(c, x).0)) && colours[right] == red(Terminal(TerminalsOf(c, x).1))
    ensures Valid(Insert(c, x, left, right)) && colours <= more && Coloured(Insert(c, x, left, right), more, red)
  {
    hide Valid;
    var pins, consumed := TerminalsOf(c, x), Consume(c, x.body);
    TerminalsVisible(c, x);
    ConsumeKeeps(c, x.body);
    assert Coloured(consumed, colours, red) by {
      assert forall e :: HasNet(consumed, e) <==> HasNet(c, e);
    }
    ConnectedKeeps(consumed, Terminal(pins.0), left);
    var half := ConnectedColours(consumed, Terminal(pins.0), left, colours, red);
    more := ConnectedColours(Connected(consumed, Terminal(pins.0), left), Terminal(pins.1), right, half, red);
  }

  /** The nodes carry the colours of the endpoints they join. */
  predicate NodesColoured(b: Board, elements: seq<Element>, start: Endpoint, end: Endpoint, nodes: seq<nat>, colours: seq<bool>,
                          red: Colour)
    requires AllUsable(b, elements) && |nodes| == |elements| + 1
  {
    && (forall i :: 0 <= i <= |elements| ==> nodes[i] < |colours|)
    && forall i :: 0 <= i <= |elements| ==> colours[nodes[i]] == red(Before(b, elements, start, i)) == red(Behind(b, elements, end, i))
  }

  lemma {:induction false} InsertedColours(b: Board, elements: seq<Element>, start: Endpoint, end: Endpoint, nodes: seq<nat>, n: nat,
                                           colours: seq<bool>, red: Colour) returns (more: seq<bool>)
    requires Valid(b) && n <= |elements| && |nodes| == |elements| + 1 && AllUsable(b, elements) && NodesIn(b, nodes)
    requires Coloured(b, colours, red) && NodesColoured(b, elements, start, end, nodes, colours, red)
    ensures Valid(Inserted(b, elements, nodes, n)) && colours <= more && Coloured(Inserted(b, elements, nodes, n), more, red)
  {
    hide Coloured, InsertNext, NodesColoured, Laid, Grows, BodiesKept;
    if n == 0 {
      more := colours;
    } else {
      var half := InsertedColours(b, elements, start, end, nodes, n - 1, colours, red);
      InsertedKeeps(b, elements, nodes, n - 1);
      more := InsertedNextColours(b, Inserted(b, elements, nodes, n - 1), elements, start, end, nodes, n, colours, half, red);
    }
  }

  lemma InsertedNextColours(b: Board, c: Board, elements: seq<Element>, start: Endpoint, end: Endpoint, nodes: seq<nat>, n: nat,
                            colours: seq<bool>, half: seq<bool>, red: Colour) returns (more: seq<bool>)
    requires 0 < n <= |elements| && |nodes| == |elements| + 1 && AllUsable(b, elements) && NodesIn(b, nodes)
    requires Valid(c) && Grows(b, c) && BodiesKept(b, c, BodySet(elements, n - 1))
    requires colours <= half && Coloured(c, half, red) && NodesColoured(b, elements, start, end, nodes, colours, red)
    ensures var after := InsertNext(c, elements[n - 1], nodes[n - 1], nodes[n]);
      Valid(after) && colours <= more && Coloured(after, more, red)
  {
    hide Coloured, Insert;
    var x := elements[n - 1];
    UsableStays(b, c, x, BodySet(elements, n - 1));
    assert Behind(b, elements, end, n - 1) == First(b, elements, n - 1);
    assert Before(b, elements, start, n) == Second(b, elements, n - 1);
    more := InsertColours(c, x, nodes[n - 1], nodes[n], half, red);
  }

  /** The colours once start and end are bound and the nets between the bodies exist. */
  lemma OpenedColours(b: Board, elements: seq<Element>, start: Endpoint, end: Endpoint, colours: seq<bool>, red: Colour)
    returns (more: seq<bool>)
    requires Valid(b) && elements != [] && Known(b, start) && Known(b, end) && AllUsable(b, elements)
    requires Coloured(b, colours, red) && Agrees(ChainTies(b, elements, start, end), red)
    ensures var ready, nodes := Opened(b, |elements|, start, end), ChainNodes(b, |elements|, start, end);
      && Valid(ready) && Coloured(ready, more, red) && |nodes| == |elements| + 1
      && NodesColoured(b, elements, start, end, nodes, more, red)
  {
    hide Coloured, NodesColoured, NodesIn, Grows;
    var n := |elements|;
    OpenedKeeps(b, n, start, end);
    var bound := BindColours(b, start, colours, red);
    var hues := HuesOf(b, elements, red);
    GeneratedColours(Bind(b, start), n - 1, bound, hues, red);
    GeneratedKnows(b, n, start, end);
    more := BindColours(Generated(Bind(b, start), n - 1), end, bound + hues, red);
    NodeColours(b, elements, start, end, bound, hues, more, red);
  }

  function HuesOf(b: Board, elements: seq<Element>, red: Colour): (hues: seq<bool>)
    requires elements != [] && AllUsable(b, elements)
    ensures |hues| == |elements| - 1 && forall i :: 0 <= i < |hues| ==> hues[i] == red(Second(b, elements, i))
  {
    seq(|elements| - 1, i requires 0 <= i < |elements| - 1 && AllUsable(b, elements) => red(Second(b, elements, i)))
  }

  lemma GeneratedKnows(b: Board, n: nat, start: Endpoint, end: Endpoint)
    requires Valid(b) && n > 0 && Known(b, start) && Known(b, end)
    ensures Valid(Bind(b, start)) && Valid(Generated(Bind(b, start), n - 1)) && Known(Generated(Bind(b, start), n - 1), end)
  {
    BindKeeps(b, start);
    GeneratedKeeps(Bind(b, start), n - 1);
  }

  lemma NodeColours(b: Board, elements: seq<Element>, start: Endpoint, end: Endpoint, bound: seq<bool>, hues: seq<bool>,
                    more: seq<bool>, red: Colour)
    requires Valid(b) && elements != [] && Known(b, start) && Known(b, end) && AllUsable(b, elements)
    requires Agrees(ChainTies(b, elements, start, end), red)
    requires Valid(Bind(b, start)) && HasNet(Bind(b, start), start) && Coloured(Bind(b, start), bound, red)
    requires |hues| == |elements| - 1 && forall i :: 0 <= i < |hues| ==> hues[i] == red(Second(b, elements, i))
    requires Valid(Opened(b, |elements|, start, end)) && HasNet(Opened(b, |elements|, start, end), end)
    requires Coloured(Opened(b, |elements|, start, end), more, red) && bound + hues <= more
    ensures |ChainNodes(b, |elements|, start, end)| == |elements| + 1
    ensures NodesColoured(b, elements, start, end, ChainNodes(b, |elements|, start, end), more, red)
  {
    hide Valid, Represents, Usable;
    var n, ties, nodes := |elements|, ChainTies(b, elements, start, end), ChainNodes(b, |elements|, start, end);
    forall i | 0 <= i <= n
      ensures nodes[i] < |more| && more[nodes[i]] == red(Before(b, elements, start, i)) == red(Behind(b, elements, end, i))
    {
      assert ties[i] in ties;
      if 0 < i < n {
        assert nodes[i] == |bound| + (i - 1);
        assert more[nodes[i]] == (bound + hues)[nodes[i]];
      } else if i == 0 {
        assert more[nodes[0]] == (bound + hues)[nodes[0]];
      }
    }
  }

  /** A colouring that agrees with a chain's ties respects the state the chain leaves. */
  lemma ChainRespects(b: Board, elements: seq<Element>, start: Endpoint, end: Endpoint, red: Colour)
    requires Valid(b) && Prepared(b, elements, start, end) && AllUsable(b, elements)
    requires Respects(b, red) && Agrees(ChainTies(b, elements, start, end), red)
    ensures Valid(Chained(b, elements, start, end)) && Respects(Chained(b, elements, start, end), red)
  {
    var n, ready, nodes := |elements|, Opened(b, |elements|, start, end), ChainNodes(b, |elements|, start, end);
    ChainKeeps(b, elements, start, end);
    OpenedKeeps(b, n, start, end);
    var colours := ColoursOf(b, red);
    var ahead := OpenedColours(b, elements, start, end, colours, red);
    forall i | 0 <= i < n
      ensures Usable(ready, elements[i]) && TerminalsOf(ready, elements[i]) == TerminalsOf(b, elements[i])
    {
      UsableStays(b, ready, elements[i], {});
    }
    NodesOn(b, ready, elements, start, end, nodes, ahead, red);
    var after := InsertedColours(ready, elements, start, end, nodes, n, ahead, red);
    ColouredRespects(Chained(b, elements, start, end), after, red);
  }

  lemma NodesOn(b: Board, ready: Board, elements: seq<Element>, start: Endpoint, end: Endpoint, nodes: seq<nat>, colours: seq<bool>,
                red: Colour)
    requires AllUsable(b, elements) && AllUsable(ready, elements) && |nodes| == |elements| + 1
    requires forall i :: 0 <= i < |elements| ==> TerminalsOf(ready, elements[i]) == TerminalsOf(b, elements[i])
    requires NodesColoured(b, elements, start, end, nodes, colours, red)
    ensures NodesColoured(ready, elements, start, end, nodes, colours, red)
  {
  }

  /** A chain puts the endpoints of its ties on one net. */
  lemma ChainHonours(b: Board, elements: seq<Element>, start: Endpoint, end: Endpoint)
    requires Valid(b) && Prepared(b, elements, start, end) && AllUsable(b, elements)
    ensures var after := Chained(b, elements, start, end);
      Valid(after) && Keeps(b, after) && Honours(after, ChainTies(b, elements, start, end))
  {
    hide Laid, Grows, Keeps, Chained;
    ChainKeeps(b, elements, start, end);
    var after, nodes := Chained(b, elements, start, end), ChainNodes(b, |elements|, start, end);
    GrowsKeeps(b, after);
    forall t | t in ChainTies(b, elements, start, end)
      ensures Meets(after, t.0, t.1)
    {
      var i :| 0 <= i <= |elements| && t == (Before(b, elements, start, i), Behind(b, elements, end, i));
      TieMeets(b, after, elements, start, end, nodes, i);
    }
  }

  lemma TieMeets(b: Board, after: Board, elements: seq<Element>, start: Endpoint, end: Endpoint, nodes: seq<nat>, i: nat)
    requires AllUsable(b, elements) && Valid(after) && |nodes| == |elements| + 1 && i <= |elements|
    requires Laid(b, after, elements, nodes, |elements|) && HasNet(after, start) && HasNet(after, end)
    requires nodes[0] == NetAt(after, start) && nodes[|elements|] == NetAt(after, end)
    ensures Meets(after, Before(b, elements, start, i), Behind(b, elements, end, i))
  {
    if i > 0 {
      assert Sits(after, TerminalsOf(b, elements[i - 1]), nodes[i - 1], nodes[i]);
    }
    if i < |elements| {
      assert Sits(after, TerminalsOf(b, elements[i]), nodes[i], nodes[i + 1]);
    }
  }

  /** After an accepted chain two endpoints share a root exactly when the roots before it and the ties
      it declares relate them. */
  lemma ChainExact(b: Board, elements: seq<Element>, start: Endpoint, end: Endpoint, x: Endpoint, y: Endpoint)
    requires Valid(b) && Prepared(b, elements, start, end) && HasRoot(b, x) && HasRoot(b, y)
    ensures AllUsable(b, elements)
    ensures var after := Chained(b, elements, start, end);
      && Valid(after) && HasRoot(after, x) && HasRoot(after, y)
      && (RootOf(after, x) == RootOf(after, y) <==> Tied(b, ChainTies(b, elements, start, end), x, y))
  {
    ChainKeeps(b, elements, start, end);
    var after, ties := Chained(b, elements, start, end), ChainTies(b, elements, start, end);
    ReachedRespects(b, ties, x);
    ChainHonours(b, elements, start, end);
    ChainRespects(b, elements, start, end, Reached(b, ties, x));
    assert KeepsPair(b, after, x, x) && KeepsPair(b, after, y, y);
    ClosureExact(b, after, ties, x, y);
  }

  // ---- Parallel structures ------------------------------------------------------------------------------

  predicate AllBranchesUsable(b: Board, branches: seq<seq<Element>>) {
    forall i :: 0 <= i < |branches| ==> AllUsable(b, branches[i])
  }

  /** The ties of the first `n` branches. */
  function BranchTies(b: Board, start: Endpoint, branches: seq<seq<Element>>, end: Endpoint, n: nat): (ties: seq<Tie>)
    requires n <= |branches| && AllBranchesUsable(b, branches)
  {
    if n == 0 then [] else BranchTies(b, start, branches, end, n - 1) + ChainTies(b, branches[n - 1], start, end)
  }

  lemma PreparedUsable(b: Board, start: Endpoint, branches: seq<seq<Element>>, end: Endpoint)
    requires InNets(b) && |b.labels| > 0 && AllPrepared(b, start, branches, end)
    ensures AllBranchesUsable(b, branches)
  {
    forall i, k | 0 <= i < |branches| && 0 <= k < |branches[i]|
      ensures Usable(b, branches[i][k])
    {
      assert Prepared(b, branches[i], start, end) && branches[i][k] in branches[i];
    }
  }

  /** The branches still have the terminals they had before any was laid. */
  lemma SameTies(b: Board, c: Board, elements: seq<Element>, start: Endpoint, end: Endpoint)
    requires AllUsable(b, elements) && AllUsable(c, elements)
    requires forall i :: 0 <= i < |elements| ==> TerminalsOf(c, elements[i]) == TerminalsOf(b, elements[i])
    ensures ChainTies(c, elements, start, end) == ChainTies(b, elements, start, end)
  {
  }

  lemma LaidTerminals(b: Board, c: Board, branches: seq<seq<Element>>, n: nat)
    requires n < |branches| && AllBranchesUsable(b, branches) && LaidSoFar(b, c, branches, n) && AllUsable(c, branches[n])
    ensures forall i :: 0 <= i < |branches[n]| ==> TerminalsOf(c, branches[n][i]) == TerminalsOf(b, branches[n][i])
  {
    forall i | 0 <= i < |branches[n]|
      ensures TerminalsOf(c, branches[n][i]) == TerminalsOf(b, branches[n][i])
    {
      assert Usable(b, branches[n][i]) && Usable(c, branches[n][i]);
      var body := branches[n][i].body;
      assert c.bodies[body].pins == b.bodies[body].pins;
    }
  }

  /** The state after the first `n` branches, all of which fitted. */
  ghost predicate LaidAll(b: Board, start: Endpoint, branches: seq<seq<Element>>, end: Endpoint, n: nat)
    requires n <= |branches|
  {
    Lay(b, branches, n, CheckFor(start, end), ChainFor(start, end)).ok
  }

  ghost function LaidBoard(b: Board, start: Endpoint, branches: seq<seq<Element>>, end: Endpoint, n: nat): Board
    requires n <= |branches|
  {
    Lay(b, branches, n, CheckFor(start, end), ChainFor(start, end)).board
  }

  lemma LaidKeeps(b: Board, start: Endpoint, branches: seq<seq<Element>>, end: Endpoint, n: nat)
    requires Valid(b) && n <= |branches|
    ensures Valid(LaidBoard(b, start, branches, end, n)) && LaidSoFar(b, LaidBoard(b, start, branches, end, n), branches, n)
  {
    ChainsFor(start, end);
    LayKeeps(b, branches, n, CheckFor(start, end), ChainFor(start, end));
  }

  lemma LaidNext(b: Board, start: Endpoint, branches: seq<seq<Element>>, end: Endpoint, n: nat)
    requires Valid(b) && 0 < n <= |branches|
    ensures LaidAll(b, start, branches, end, n) <==>
      && LaidAll(b, start, branches, end, n - 1) && Valid(LaidBoard(b, start, branches, end, n - 1))
      && Prepared(LaidBoard(b, start, branches, end, n - 1), branches[n - 1], start, end)
    ensures LaidAll(b, start, branches, end, n) ==>
      LaidBoard(b, start, branches, end, n) == Chained(LaidBoard(b, start, branches, end, n - 1), branches[n - 1], start, end)
    ensures !LaidAll(b, start, branches, end, n) ==> LaidBoard(b, start, branches, end, n) == LaidBoard(b, start, branches, end, n - 1)
  {
  }

  lemma LaidNone(b: Board, start: Endpoint, branches: seq<seq<Element>>, end: Endpoint)
    ensures LaidAll(b, start, branches, end, 0) && LaidBoard(b, start, branches, end, 0) == b
  {
  }

  /** A branch laid on what others left ties what it tied before them. */
  lemma LaterTies(b: Board, start: Endpoint, branches: seq<seq<Element>>, end: Endpoint, n: nat)
    requires Valid(b) && AllBranchesUsable(b, branches) && 0 < n <= |branches| && LaidAll(b, start, branches, end, n)
    ensures var c := LaidBoard(b, start, branches, end, n - 1);
      && Valid(c) && AllUsable(c, branches[n - 1])
      && ChainTies(c, branches[n - 1], start, end) == ChainTies(b, branches[n - 1], start, end)
  {
    hide LaidAll, LaidBoard, Laid, ChainTies, Prepared, Chained;
    LaidNext(b, start, branches, end, n);
    LaidKeeps(b, start, branches, end, n - 1);
    var c := LaidBoard(b, start, branches, end, n - 1);
    ChainKeeps(c, branches[n - 1], start, end);
    LaidTerminals(b, c, branches, n - 1);
    SameTies(b, c, branches[n - 1], start, end);
  }

  lemma {:induction false} LaidHonours(b: Board, start: Endpoint, branches: seq<seq<Element>>, end: Endpoint, n: nat)
    requires Valid(b) && AllBranchesUsable(b, branches) && n <= |branches| && LaidAll(b, start, branches, end, n)
    ensures var after := LaidBoard(b, start, branches, end, n);
      Valid(after) && Keeps(b, after) && Honours(after, BranchTies(b, start, branches, end, n))
  {
    hide Keeps, Honours, ChainTies, LaidAll, LaidBoard, Chained;
    if n == 0 {
      LaidNone(b, start, branches, end);
      NothingHonoured(b);
    } else {
      LaidNext(b, start, branches, end, n);
      LaidHonours(b, start, branches, end, n - 1);
      LaterTies(b, start, branches, end, n);
      var c, ties := LaidBoard(b, start, branches, end, n - 1), BranchTies(b, start, branches, end, n - 1);
      ChainHonours(c, branches[n - 1], start, end);
      BothHonoured(b, c, LaidBoard(b, start, branches, end, n), ties, ChainTies(b, branches[n - 1], start, end));
    }
  }

  lemma NothingHonoured(b: Board)
    requires Valid(b)
    ensures Keeps(b, b) && Honours(b, [])
  {
  }

  lemma BothHonoured(b: Board, c: Board, d: Board, ties: seq<Tie>, more: seq<Tie>)
    requires Valid(b) && Valid(c) && Valid(d) && Keeps(b, c) && Keeps(c, d) && Honours(c, ties) && Honours(d, more)
    ensures Keeps(b, d) && Honours(d, ties + more)
  {
    KeepsTwice(b, c, d);
    HonoursOn(c, d, ties);
  }

  lemma {:induction false} LaidRespects(b: Board, start: Endpoint, branches: seq<seq<Element>>, end: Endpoint, n: nat, red: Colour)
    requires Valid(b) && AllBranchesUsable(b, branches) && n <= |branches| && LaidAll(b, start, branches, end, n)
    requires Respects(b, red) && Agrees(BranchTies(b, start, branches, end, n), red)
    ensures Valid(LaidBoard(b, start, branches, end, n)) && Respects(LaidBoard(b, start, branches, end, n), red)
  {
    hide Respects, ChainTies, LaidAll, LaidBoard, Chained;
    if n == 0 {
      LaidNone(b, start, branches, end);
    } else {
      var ties, more := BranchTies(b, start, branches, end, n - 1), ChainTies(b, branches[n - 1], start, end);
      AgreesBoth(ties, more, red);
      LaidNext(b, start, branches, end, n);
      LaidRespects(b, start, branches, end, n - 1, red);
      LaterTies(b, start, branches, end, n);
      ChainRespects(LaidBoard(b, start, branches, end, n - 1), branches[n - 1], start, end, red);
    }
  }

  lemma AgreesBoth(ties: seq<Tie>, more: seq<Tie>, red: Colour)
    ensures Agrees(ties + more, red) <==> Agrees(ties, red) && Agrees(more, red)
  {
    if Agrees(ties + more, red) {
      assert forall t :: t in ties ==> t in ties + more;
      assert forall t :: t in more ==> t in ties + more;
    }
  }

  /** Laid branches relate exactly what their ties relate. */
  lemma LaidExact(b: Board, start: Endpoint, branches: seq<seq<Element>>, end: Endpoint, n: nat, x: Endpoint, y: Endpoint)
    requires Valid(b) && AllBranchesUsable(b, branches) && n <= |branches| && LaidAll(b, start, branches, end, n)
    requires HasRoot(b, x) && HasRoot(b, y)
    ensures var after := LaidBoard(b, start, branches, end, n);
      && Valid(after) && HasRoot(after, x) && HasRoot(after, y)
      && (RootOf(after, x) == RootOf(after, y) <==> Tied(b, BranchTies(b, start, branches, end, n), x, y))
  {
    var after, ties := LaidBoard(b, start, branches, end, n), BranchTies(b, start, branches, end, n);
    ReachedRespects(b, ties, x);
    LaidHonours(b, start, branches, end, n);
    LaidRespects(b, start, branches, end, n, Reached(b, ties, x));
    assert KeepsPair(b, after, x, x) && KeepsPair(b, after, y, y);
    ClosureExact(b, after, ties, x, y);
  }

  /** One branch more fits exactly when the ties of those before it leave start and end apart. */
  lemma FitsExactly(b: Board, start: Endpoint, branches: seq<seq<Element>>, end: Endpoint, n: nat)
    requires Valid(b) && AllPrepared(b, start, branches, end) && Apart(branches) && 0 < n <= |branches|
    ensures AllBranchesUsable(b, branches)
    ensures LaidAll(b, start, branches, end, n) <==>
      LaidAll(b, start, branches, end, n - 1) && !Tied(b, BranchTies(b, start, branches, end, n - 1), start, end)
  {
    hide LaidAll, LaidBoard, Chained, BranchTies, Tied;
    PreparedUsable(b, start, branches, end);
    LaidNext(b, start, branches, end, n);
    LaidKeeps(b, start, branches, end, n - 1);
    assert Prepared(b, branches[n - 1], start, end);
    StillPrepared(b, LaidBoard(b, start, branches, end, n - 1), start, branches, end, n - 1);
    if LaidAll(b, start, branches, end, n - 1) {
      LaidExact(b, start, branches, end, n - 1, start, end);
    }
  }

  /** How many of the first `n` branches are laid: each while the ties of those before it leave start
      and end apart. */
  ghost function LaidCount(b: Board, start: Endpoint, branches: seq<seq<Element>>, end: Endpoint, n: nat): (count: nat)
    requires InNets(b) && |b.labels| > 0 && n <= |branches| && AllBranchesUsable(b, branches)
    ensures count <= n
  {
    if n == 0 then 0
    else
      var before := LaidCount(b, start, branches, end, n - 1);
      if before == n - 1 && !Tied(b, BranchTies(b, start, branches, end, n - 1), start, end) then n else before
  }

  lemma {:induction false} LaidAsCounted(b: Board, start: Endpoint, branches: seq<seq<Element>>, end: Endpoint, n: nat)
    requires Valid(b) && AllPrepared(b, start, branches, end) && Apart(branches) && n <= |branches|
    ensures AllBranchesUsable(b, branches)
    ensures var count := LaidCount(b, start, branches, end, n);
      && (LaidAll(b, start, branches, end, n) <==> count == n)
      && LaidAll(b, start, branches, end, count)
      && LaidBoard(b, start, branches, end, n) == LaidBoard(b, start, branches, end, count)
  {
    hide InNets;
    PreparedUsable(b, start, branches, end);
    if n > 0 {
      LaidAsCounted(b, start, branches, end, n - 1);
      FitsExactly(b, start, branches, end, n);
      LaidNext(b, start, branches, end, n);
    }
  }

  lemma {:induction false} TiesGrow(b: Board, start: Endpoint, branches: seq<seq<Element>>, end: Endpoint, m: nat, n: nat)
    requires InNets(b) && |b.labels| > 0 && m <= n <= |branches| && AllBranchesUsable(b, branches)
    requires Tied(b, BranchTies(b, start, branches, end, m), start, end)
    ensures Tied(b, BranchTies(b, start, branches, end, n), start, end)
  {
    if m < n {
      TiesGrow(b, start, branches, end, m, n - 1);
      TiedMore(b, BranchTies(b, start, branches, end, n - 1), ChainTies(b, branches[n - 1], start, end), start, end);
    }
  }

  /** All branches fit exactly when those before the last leave start and end apart. */
  lemma {:induction false} AllFit(b: Board, start: Endpoint, branches: seq<seq<Element>>, end: Endpoint, n: nat)
    requires Valid(b) && AllPrepared(b, start, branches, end) && Apart(branches) && 0 < n <= |branches|
    ensures AllBranchesUsable(b, branches)
    ensures LaidAll(b, start, branches, end, n) <==> !Tied(b, BranchTies(b, start, branches, end, n - 1), start, end)
  {
    FitsExactly(b, start, branches, end, n);
    if n > 1 {
      AllFit(b, start, branches, end, n - 1);
      if Tied(b, BranchTies(b, start, branches, end, n - 2), start, end) {
        TiesGrow(b, start, branches, end, n - 2, n - 1);
      }
    }
  }

  // ---- The operations -----------------------------------------------------------------------------------

  /** Taking an id changes no root and no tie. */
  lemma TiedNamed(b: Board, named: Board, ties: seq<Tie>, x: Endpoint, y: Endpoint)
    requires InNets(b) && |b.labels| > 0 && named == b.(ids := named.ids)
    ensures InNets(named) && (Tied(named, ties, x, y) <==> Tied(b, ties, x, y))
  {
    forall u, v
      ensures Linked(named, ties, u, v) <==> Linked(b, ties, u, v)
    {
    }
    if Tied(b, ties, x, y) {
      var trail :| Trails(b, ties, trail, x, y);
      assert Trails(named, ties, trail, x, y);
    }
    if Tied(named, ties, x, y) {
      var trail :| Trails(named, ties, trail, x, y);
      assert Trails(b, ties, trail, x, y);
    }
  }

  lemma {:induction false} BranchTiesNamed(b: Board, named: Board, start: Endpoint, branches: seq<seq<Element>>, end: Endpoint, n: nat)
    requires named == b.(ids := named.ids) && AllBranchesUsable(b, branches) && n <= |branches|
    ensures AllBranchesUsable(named, branches)
    ensures BranchTies(named, start, branches, end, n) == BranchTies(b, start, branches, end, n)
  {
    forall i, k | 0 <= i < |branches| && 0 <= k < |branches[i]|
      ensures Usable(named, branches[i][k]) && TerminalsOf(named, branches[i][k]) == TerminalsOf(b, branches[i][k])
    {
      assert Usable(b, branches[i][k]);
    }
    if n > 0 {
      BranchTiesNamed(b, named, start, branches, end, n - 1);
      SameTies(b, named, branches[n - 1], start, end);
    }
  }

  lemma {:induction false} CountNamed(b: Board, named: Board, start: Endpoint, branches: seq<seq<Element>>, end: Endpoint, n: nat)
    requires InNets(b) && |b.labels| > 0 && named == b.(ids := named.ids) && AllBranchesUsable(b, branches) && n <= |branches|
    ensures AllBranchesUsable(named, branches)
    ensures LaidCount(named, start, branches, end, n) == LaidCount(b, start, branches, end, n)
  {
    BranchTiesNamed(b, named, start, branches, end, n);
    if n > 0 {
      CountNamed(b, named, start, branches, end, n - 1);
      BranchTiesNamed(b, named, start, branches, end, n - 1);
      TiedNamed(b, named, BranchTies(b, start, branches, end, n - 1), start, end);
    }
  }

  lemma NamedReady(b: Board, id: string, start: Endpoint, branches: seq<seq<Element>>, end: Endpoint)
    requires Valid(b) && ParallelReady(b, id, start, branches, end)
    ensures Valid(WithId(b, id)) && AllPrepared(WithId(b, id), start, branches, end) && AllBranchesUsable(b, branches)
  {
    WithIdKeeps(b, id);
    PreparedUsable(b, start, branches, end);
    forall i | 0 <= i < |branches|
      ensures Prepared(WithId(b, id), branches[i], start, end)
    {
      PreparedWithId(b, id, branches[i], start, end);
    }
  }

  /** Once its checks pass `parallel` is accepted exactly when the roots before the call and the ties of
      the branches before the last leave start and end apart. */
  lemma ParallelExact(b: Board, id: string, start: Endpoint, branches: seq<seq<Element>>, end: Endpoint)
    requires Valid(b)
    ensures !ParallelReady(b, id, start, branches, end) ==> Parallel(b, id, start, branches, end) == Outcome(b, false)
    ensures ParallelReady(b, id, start, branches, end) ==>
      && Valid(Parallel(b, id, start, branches, end).board)
      && Parallel(b, id, start, branches, end).board.ids == b.ids + {id}
      && AllBranchesUsable(b, branches)
      && (Parallel(b, id, start, branches, end).ok <==>
            !Tied(b, BranchTies(b, start, branches, end, |branches| - 1), start, end))
  {
    ParallelTested(b, id, start, branches, end);
    if ParallelReady(b, id, start, branches, end) {
      var n, named := |branches|, WithId(b, id);
      NamedReady(b, id, start, branches, end);
      AllFit(named, start, branches, end, n);
      BranchTiesNamed(b, named, start, branches, end, n - 1);
      TiedNamed(b, named, BranchTies(b, start, branches, end, n - 1), start, end);
    }
  }

  /** Accepted or not, a prepared `parallel` relates what the ties of the branches it laid relate. */
  lemma ParallelRelates(b: Board, id: string, start: Endpoint, branches: seq<seq<Element>>, end: Endpoint, x: Endpoint, y: Endpoint)
    requires Valid(b) && ParallelReady(b, id, start, branches, end) && HasRoot(b, x) && HasRoot(b, y)
    ensures AllBranchesUsable(b, branches)
    ensures var outcome, count := Parallel(b, id, start, branches, end), LaidCount(b, start, branches, end, |branches|);
      && Valid(outcome.board) && (outcome.ok <==> count == |branches|)
      && HasRoot(outcome.board, x) && HasRoot(outcome.board, y)
      && (RootOf(outcome.board, x) == RootOf(outcome.board, y) <==> Tied(b, BranchTies(b, start, branches, end, count), x, y))
  {
    hide Tied, BranchTies, LaidCount;
    var n, named := |branches|, WithId(b, id);
    NamedReady(b, id, start, branches, end);
    CountNamed(b, named, start, branches, end, n);
    LaidAsCounted(named, start, branches, end, n);
    var count := LaidCount(named, start, branches, end, n);
    BranchTiesNamed(b, named, start, branches, end, count);
    LaidExact(named, start, branches, end, count, x, y);
    TiedNamed(b, named, BranchTies(b, start, branches, end, count), x, y);
  }
}
