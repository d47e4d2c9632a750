/** The chain operations as they act on live nets: endpoints bound on first use, bodies
    consumed and pins joined through the union-find, proved to take the steps of `Scope`. */
module Assembly {
  import opened Partition
  import opened Nets
  import opened Scope

  class LiveScope {
    const forest: Forest
    var buses: map<string, Net>
    var taps: set<(string, string)>
    var visible: set<Pin>
    var pins: map<Pin, Net>
    var bodies: map<string, Body>
    var ports: set<Net>
    var ids: set<string>
    /** The board this scope stands for. */
    ghost var board: Board

    ghost predicate Live()
      reads this, forest, forest.nets
    {
      forest.Valid() && Tied() && InNets(board)
    }

    /** The tables and the live nets agree with the board. */
    ghost predicate Tied()
      reads this, forest
    {
      && board.labels == forest.labels
      && board.taps == taps && board.visible == visible && board.bodies == bodies && board.ids == ids
      && buses.Keys == board.buses.Keys && pins.Keys == board.nets.Keys
      && (forall bus :: bus in buses ==> forest.Owns(buses[bus]) && buses[bus].index == board.buses[bus])
      && (forall pin :: pin in pins ==> forest.Owns(pins[pin]) && pins[pin].index == board.nets[pin])
    }

    /** The Ports' nets are the board's. */
    ghost predicate PortsTied()
      reads this, forest
    {
      && (forall net :: net in ports ==> forest.Owns(net) && net.index in board.ports)
      && (forall port :: port in board.ports ==> port < |forest.nets| && forest.nets[port] in ports && forest.nets[port].index == port)
    }

    /** Nets are only added, and only fresh ones. */
    twostate predicate Grown()
      reads this, forest
    {
      && old(forest.nets) <= forest.nets
      && forall i :: |old(forest.nets)| <= i < |forest.nets| ==> fresh(forest.nets[i])
    }

    /** A scope with its components added and nothing wired. */
    constructor (taps: set<(string, string)>, visible: set<Pin>, bodies: map<string, Body>)
      ensures Live() && PortsTied() && fresh(forest) && fresh(forest.nets)
      ensures board == Board([0], map[], taps, visible, map[], bodies, {}, {}, [])
    {
      forest := new Forest();
      this.buses, this.taps, this.visible, this.pins, this.bodies := map[], taps, visible, map[], bodies;
      this.ports, this.ids := {}, {};
      board := Board([0], map[], taps, visible, map[], bodies, {}, {}, []);
    }

    /** `getnet`: an unused pin receives a fresh net. */
    method GetNet(e: Endpoint) returns (net: Net)
      requires Live() && Known(board, e)
      modifies this`pins, this`board, forest
      ensures Live() && board == Bind(old(board), e) && Grown()
      ensures HasNet(board, e) && forest.Owns(net) && net.index == NetAt(board, e)
    {
      assert forest.Leans(0);
      match e
      case Ground => net := forest.ground;
      case Bus(bus) => net := buses[bus];
      case Tap(bus, _) => net := buses[bus];
      case Terminal(pin) =>
        if pin in pins {
          net := pins[pin];
        } else {
          net := forest.Add();
          pins := pins[pin := net];
          board := Bind(board, e);
        }
    }

    method JoinNets(net: Net, node: Net)
      requires Live() && forest.Owns(net) && forest.Owns(node)
      modifies this`board, forest`labels, forest`rank, forest.nets
      ensures Live() && board == Joined(old(board), net.index, node.index)
    {
      board := Joined(board, net.index, node.index);
      var _ := forest.Join(net, node);
    }

    /** Binds an endpoint and joins its net to a node. */
    method Connect(e: Endpoint, node: Net)
      requires Live() && Known(board, e) && forest.Owns(node)
      modifies this`pins, this`board, forest, forest.nets
      ensures Live() && board == Connected(old(board), e, node.index) && Grown()
    {
      var net := GetNet(e);
      JoinNets(net, node);
    }

    /** One body between two nodes. */
    method InsertBody(x: Element, left: Net, right: Net)
      requires Live() && Usable(board, x) && forest.Owns(left) && forest.Owns(right)
      modifies this`pins, this`board, this`bodies, forest, forest.nets
      ensures Live() && board == Insert(old(board), x, left.index, right.index) && Grown()
    {
      var body := bodies[x.body];
      TerminalsVisible(board, x);
      bodies := bodies[x.body := body.(used := true)];
      board := Consume(board, x.body);
      var first := if x.Whole? then body.pins[0] else x.a;
      var second := if x.Whole? then body.pins[1] else x.b;
      Connect(Terminal(first), left);
      Connect(Terminal(second), right);
    }

    /** The root of an endpoint, or nothing for a pin without a net. */
    method EndpointRoot(e: Endpoint) returns (root: Net?)
      requires Live() && HasRoot(board, e)
      modifies forest.nets
      ensures Live()
      ensures root == null <==> RootOf(board, e).Open?
      ensures root != null ==> forest.Owns(root) && RootOf(board, e) == Class(root.index)
    {
      assert forest.Leans(0);
      match e
      case Ground => root := forest.Root(forest.ground);
      case Bus(bus) => root := forest.Root(buses[bus]);
      case Tap(bus, _) => root := forest.Root(buses[bus]);
      case Terminal(pin) =>
        if pin in pins {
          root := forest.Root(pins[pin]);
        } else {
          root := null;
        }
    }

    /** The tables the checks read: everything but the nets. */
    function Tables(): Board
      reads this
    {
      Board([0], map bus | bus in buses :: 0, taps, visible, map[], bodies, {}, ids, [])
    }

    lemma TablesSuffice(elements: seq<Element>, e: Endpoint)
      requires Live()
      ensures Known(Tables(), e) <==> Known(board, e)
      ensures Fresh(Tables(), elements) <==> Fresh(board, elements)
    {
      assert forall x: Element :: Usable(Tables(), x) <==> Usable(board, x);
    }

    /** Every check of a chain, before anything is published. */
    method PreparedChain(elements: seq<Element>, start: Endpoint, end: Endpoint) returns (ok: bool)
      requires Live()
      modifies forest.nets
      ensures Live() && (ok <==> Prepared(board, elements, start, end))
    {
      TablesSuffice(elements, start);
      TablesSuffice(elements, end);
      if elements == [] || !Known(Tables(), start) || !Known(Tables(), end) { return false; }
      var first := EndpointRoot(start);
      var last := EndpointRoot(end);
      var apart := if first == null && last == null then start != end else first != last;
      ok := apart && Fresh(Tables(), elements);
    }

    ghost predicate Owned(nodes: seq<Net>, indices: seq<nat>)
      reads forest
    {
      |nodes| == |indices| && forall i :: 0 <= i < |nodes| ==> forest.Owns(nodes[i]) && nodes[i].index == indices[i]
    }

    method AddNet() returns (net: Net)
      requires Live()
      modifies this`board, forest
      ensures Live() && board == old(board).(labels := old(board).labels + [|old(board).labels|]) && Grown()
      ensures forest.Owns(net) && net.index == |old(board).labels|
    {
      net := forest.Add();
      board := board.(labels := board.labels + [|board.labels|]);
    }

    /** The nets between the bodies of a chain. */
    method Generate(k: nat) returns (nodes: seq<Net>)
      requires Live()
      modifies this`board, forest
      ensures Live() && board == Generated(old(board), k) && Grown()
      ensures Owned(nodes, seq(k, i => |old(board).labels| + i))
    {
      nodes := [];
      for i := 0 to k
        invariant Live() && board == Generated(old(board), i) && Grown()
        invariant |nodes| == i && forall j :: 0 <= j < i ==> forest.Owns(nodes[j]) && nodes[j].index == |old(board).labels| + j
      {
        var net := AddNet();
        nodes := nodes + [net];
      }
    }

    lemma OwnedMore(nodes: seq<Net>, indices: seq<nat>, more: seq<Net>, others: seq<nat>)
      requires Owned(nodes, indices) && Owned(more, others)
      ensures Owned(nodes + more, indices + others)
    {
    }

    /** The start bound and the nets between the bodies generated. */
    method Begin(n: nat, start: Endpoint) returns (nodes: seq<Net>, ghost indices: seq<nat>)
      requires Live() && n > 0 && Known(board, start)
      modifies this`pins, this`board, forest
      ensures Live() && board == Generated(Bind(old(board), start), n - 1) && Grown()
      ensures HasNet(Bind(old(board), start), start) && InNets(Bind(old(board), start)) && Owned(nodes, indices)
      ensures indices == [NetAt(Bind(old(board), start), start)] + seq(n - 1, i => |Bind(old(board), start).labels| + i)
    {
      hide Generated, Tied;
      var first := GetNet(start);
      ghost var bound := board;
      var generated := Generate(n - 1);
      OwnedMore([first], [first.index], generated, seq(n - 1, i => |bound.labels| + i));
      nodes, indices := [first] + generated, [first.index] + seq(n - 1, i => |bound.labels| + i);
    }

    /** The end bound after them. */
    method Finish(begun: seq<Net>, ghost indices: seq<nat>, end: Endpoint) returns (nodes: seq<Net>)
      requires Live() && Known(board, end) && Owned(begun, indices)
      modifies this`pins, this`board, forest
      ensures Live() && board == Bind(old(board), end) && Grown() && HasNet(board, end)
      ensures Owned(nodes, indices + [NetAt(board, end)])
    {
      var last := GetNet(end);
      assert Owned(begun, indices);
      OwnedMore(begun, indices, [last], [last.index]);
      nodes := begun + [last];
    }

    /** Start and end bound, and the nets between the bodies generated. */
    method Open(n: nat, start: Endpoint, end: Endpoint) returns (nodes: seq<Net>)
      requires Live() && n > 0 && Known(board, start) && Known(board, end)
      modifies this`pins, this`board, forest
      ensures Live() && board == Opened(old(board), n, start, end) && Grown()
      ensures HasNet(board, start) && HasNet(board, end)
      ensures Owned(nodes, Nodes(NetAt(board, start), |Bind(old(board), start).labels|, n, NetAt(board, end)))
    {
      hide Live;
      ghost var bound := Bind(board, start);
      var begun: seq<Net>;
      ghost var indices: seq<nat>;
      begun, indices := Begin(n, start);
      GeneratedTables(bound, n - 1);
      nodes := Finish(begun, indices, end);
      NetsStay(bound, board, n, start, end, NetAt(bound, start), NetAt(board, end));
    }

    /** The scope stands for this board, and the nodes are its nets. */
    ghost predicate Laying(nodes: seq<Net>, indices: seq<nat>, laid: Board)
      reads this, forest, forest.nets
    {
      Live() && Owned(nodes, indices) && board == laid
    }

    /** One body of a chain in its turn. */
    method InsertAt(elements: seq<Element>, nodes: seq<Net>, ghost indices: seq<nat>, ghost stages: seq<Board>, i: nat)
      requires i < |elements| < |indices| == |nodes| == |stages| && Laying(nodes, indices, stages[i])
      requires InTurn(stages, elements, indices, i)
      modifies this`pins, this`board, this`bodies, forest, forest.nets
      ensures Laying(nodes, indices, stages[i + 1]) && Grown()
    {
      InsertBody(elements[i], nodes[i], nodes[i + 1]);
    }

    /** Each body between its two nodes, in order. */
    method InsertAll(elements: seq<Element>, nodes: seq<Net>, ghost indices: seq<nat>, ghost stages: seq<Board>)
      requires |indices| == |nodes| == |stages| == |elements| + 1 && Laying(nodes, indices, stages[0])
      requires forall i :: 0 <= i < |elements| ==> InTurn(stages, elements, indices, i)
      modifies this`pins, this`board, this`bodies, forest, forest.nets
      ensures Laying(nodes, indices, stages[|elements|]) && Grown()
    {
      hide InTurn;
      for i := 0 to |elements|
        invariant Laying(nodes, indices, stages[i]) && Grown()
      {
        InsertAt(elements, nodes, indices, stages, i);
      }
    }

    /** `chain`, once prepared. */
    method Chain(elements: seq<Element>, start: Endpoint, end: Endpoint)
      requires Live() && Scope.Valid(board) && Prepared(board, elements, start, end)
      modifies this`pins, this`board, this`bodies, forest, forest.nets
      ensures Live() && board == Chained(old(board), elements, start, end) && Grown()
    {
      hide Live, InTurn, Generated, Insert, InsertNext, Fresh, Represents;
      ghost var before := board;
      var nodes := Open(|elements|, start, end);
      ghost var ready := forest.nets;
      ghost var indices := ChainNodes(before, |elements|, start, end);
      ChainReady(before, elements, start, end);
      InsertAll(elements, nodes, indices, StagesOf(board, elements, indices));
      forall i | |old(forest.nets)| <= i < |forest.nets|
        ensures fresh(forest.nets[i])
      {
        assert i < |ready| ==> forest.nets[i] == ready[i];
      }
    }

    /** `series`; a refused call leaves every table as it was. */
    method MakeSeries(id: string, start: Endpoint, elements: seq<Element>, end: Endpoint) returns (ok: bool)
      requires Live() && Scope.Valid(board)
      modifies this`ids, this`pins, this`board, this`bodies, forest, forest.nets
      ensures Live() && Outcome(board, ok) == Series(old(board), id, start, elements, end) && Grown()
    {
      hide Prepared, Chained;
      ok := PreparedChain(elements, start, end);
      if !ok || id in ids { return false; }
      WithIdKeeps(board, id);
      PreparedWithId(board, id, elements, start, end);
      ids := ids + {id};
      board := WithId(board, id);
      Chain(elements, start, end);
    }
  }

  /** The boards on the way, one for each body laid. */
  function StagesOf(ready: Board, elements: seq<Element>, nodes: seq<nat>): (stages: seq<Board>)
    requires |elements| < |nodes|
    ensures |stages| == |elements| + 1 && forall i :: 0 <= i <= |elements| ==> stages[i] == Inserted(ready, elements, nodes, i)
  {
    seq(|elements| + 1, i requires 0 <= i <= |elements| => Inserted(ready, elements, nodes, i))
  }

  /** The next body can be used on the board its predecessors leave. */
  predicate InTurn(stages: seq<Board>, elements: seq<Element>, nodes: seq<nat>, i: nat)
    requires i < |elements| < |nodes| == |stages|
  {
    Usable(stages[i], elements[i]) && stages[i + 1] == InsertNext(stages[i], elements[i], nodes[i], nodes[i + 1])
  }

  lemma NetsStay(bound: Board, ready: Board, n: nat, start: Endpoint, end: Endpoint, first: nat, last: nat)
    requires InNets(bound) && |bound.labels| > 0 && n > 0 && HasNet(bound, start) && first == NetAt(bound, start)
    requires ready == Bind(Generated(bound, n - 1), end) && InNets(ready) && HasNet(ready, end) && last == NetAt(ready, end)
    ensures HasNet(ready, start)
    ensures [first] + seq(n - 1, i => |bound.labels| + i) + [last] == Nodes(NetAt(ready, start), |bound.labels|, n, last)
  {
    GeneratedTables(bound, n - 1);
  }

  lemma {:induction false} GeneratedTables(b: Board, k: nat)
    ensures Generated(b, k) == b.(labels := Generated(b, k).labels)
  {
    if k > 0 { GeneratedTables(b, k - 1); }
  }

  /** When its turn comes each body of a chain is still usable, and its nodes exist. */
  lemma ChainReady(before: Board, elements: seq<Element>, start: Endpoint, end: Endpoint)
    requires Scope.Valid(before) && Prepared(before, elements, start, end)
    ensures var n, ready := |elements|, Opened(before, |elements|, start, end);
      && HasNet(ready, start) && HasNet(ready, end) && InNets(ready)
      && ChainNodes(before, n, start, end) == Nodes(NetAt(ready, start), |Bind(before, start).labels|, n, NetAt(ready, end))
      && forall i :: 0 <= i < n ==>
           InTurn(StagesOf(ready, elements, ChainNodes(before, n, start, end)), elements, ChainNodes(before, n, start, end), i)
  {
    var n, ready, nodes := |elements|, Opened(before, |elements|, start, end), ChainNodes(before, |elements|, start, end);
    OpenedKeeps(before, n, start, end);
    ChainKeeps(before, elements, start, end);
    forall i | 0 <= i < n
      ensures InTurn(StagesOf(ready, elements, nodes), elements, nodes, i)
    {
      StillUsableAt(before, ready, elements, nodes, i);
    }
  }

  lemma StillUsableAt(before: Board, ready: Board, elements: seq<Element>, nodes: seq<nat>, i: nat)
    requires Scope.Valid(ready) && i < |elements| < |nodes| && NodesIn(ready, nodes)
    requires AllUsable(before, elements) && BodiesKept(before, ready, {}) && ready.visible == before.visible
    ensures Usable(Inserted(ready, elements, nodes, i), elements[i])
  {
    forall k | 0 <= k < |elements|
      ensures Usable(ready, elements[k])
    {
      UsableStays(before, ready, elements[k], {});
    }
    InsertedKeeps(ready, elements, nodes, i);
    UsableStays(ready, Inserted(ready, elements, nodes, i), elements[i], BodySet(elements, i));
  }
}
