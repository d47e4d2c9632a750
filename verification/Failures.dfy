/** States at which the checks fall short. */
module Failures {
  // One concrete state for each way in which a wiring operation does more than its checks see.

  import opened Partition
  import opened Scope
  import opened Unions

  function PinA(body: string): Pin {
    (body, "a")
  }

  function PinB(body: string): Pin {
    (body, "b")
  }

  /** An unused body with two terminals. */
  function Resistor(body: string): Body {
    Body(true, true, [PinA(body), PinB(body)], map[], false)
  }

  /** One unused ordinary body. */
  function OneBody(): Board {
    Board([0], map[], {}, {PinA("r"), PinB("r")}, map[], map["r" := Resistor("r")], {}, {}, [])
  }

  function BothPins(): seq<Endpoint> {
    [Terminal(PinA("r")), Terminal(PinB("r"))]
  }

  lemma OneBodyUnion(ground: bool)
    ensures Valid(OneBody()) && UnionAllowed(OneBody(), BothPins(), ground) && Unique(BothPins()) && AllKnown(OneBody(), BothPins())
  {
    var b := OneBody();
    UnwiredValid(b, 1);
    assert AllKnown(b, BothPins());
    var roots := RootsOf(b, BothPins());
    forall body | body in b.bodies
      ensures PinsApart(b, roots, b.bodies[body].pins) && PinsApart(b, roots + {Class(0)}, b.bodies[body].pins)
    {
      assert PinA("r") != PinB("r");
    }
  }

  /** Linking the two unused terminals of one body shorts it. */
  lemma LinkCanShort()
    ensures Valid(OneBody()) && LinkReady(OneBody(), "l", BothPins())
    ensures var after := Link(OneBody(), "l", BothPins()).board;
      RootOf(after, Terminal(PinA("r"))) == RootOf(after, Terminal(PinB("r")))
  {
    hide Represents;
    OneBodyUnion(false);
    assert RootOf(OneBody(), BothPins()[1]) != RootOf(OneBody(), BothPins()[0]);
    assert InRoots(OneBody(), BothPins(), BothPins()[0]) && InRoots(OneBody(), BothPins(), BothPins()[1]);
    LinkShorts(OneBody(), "l", BothPins(), "r", 0, 1);
  }

  /** So does grounding both. */
  lemma GroundCanShort()
    ensures Valid(OneBody()) && GroundReady(OneBody(), BothPins())
    ensures var after := GroundPins(OneBody(), BothPins()).board;
      RootOf(after, Terminal(PinA("r"))) == RootOf(after, Terminal(PinB("r")))
  {
    OneBodyUnion(true);
    assert InRoots(OneBody(), BothPins(), BothPins()[0]) && InRoots(OneBody(), BothPins(), BothPins()[1]);
    GroundShorts(OneBody(), BothPins(), "r", 0, 1);
  }

  // ---- Ports --------------------------------------------------------------------------------------------

  /** A bus with a Port, and a public pin of a complete body. */
  function OnePort(): Board {
    Board([0, 1], map["x" := 1], {}, {PinA("c")}, map[], map["c" := Body(false, true, [PinA("c")], map[PinA("c") := 0], false)], {1}, {}, [])
  }

  function Earthed(): Board {
    Connected(OnePort(), Terminal(PinA("c")), 0)
  }

  lemma EarthedValid()
    ensures Valid(Earthed()) && Earthed().labels == [0, 1, 0]
    ensures Earthed() == OnePort().(labels := [0, 1, 0], nets := map[PinA("c") := 2], wires := [(2, 0)])
  {
    UnwiredValid(OnePort(), 2);
    ConnectedKeeps(OnePort(), Terminal(PinA("c")), 0);
  }

  function PortAndEarth(): seq<Endpoint> {
    [Bus("x"), Terminal(PinA("c"))]
  }

  lemma EarthedReady()
    ensures Valid(Earthed()) && LinkReady(Earthed(), "l", PortAndEarth()) && PortAt(Earthed(), 1, Bus("x"))
    ensures RootOf(Earthed(), Bus("x")) != Class(0)
    ensures InRoots(Earthed(), PortAndEarth(), Bus("x")) && InRoots(Earthed(), PortAndEarth(), Ground)
  {
    hide Connected, Merge, Represents, RootsOf, InNets, Canonical;
    var b := Earthed();
    EarthedValid();
    assert AllKnown(b, PortAndEarth());
    assert RootOf(b, PortAndEarth()[0]) == Class(1) && RootOf(b, PortAndEarth()[1]) == Class(0);
    assert UnionAllowed(b, PortAndEarth(), false);
  }

  /** A link of a Port's bus with a grounded pin grounds the Port. */
  lemma LinkCanGroundPort()
    ensures Valid(Earthed()) && LinkReady(Earthed(), "l", PortAndEarth())
    ensures PortAt(Earthed(), 1, Bus("x")) && RootOf(Earthed(), Bus("x")) != Class(0)
    ensures RootOf(Link(Earthed(), "l", PortAndEarth()).board, Bus("x")) == Class(0)
  {
    hide Earthed, Represents, UnionAllowed;
    EarthedReady();
    LinkGroundsPort(Earthed(), "l", PortAndEarth(), 1, Bus("x"));
  }

  /** Two Ports of the plan, and in one of its subsystems a public pin on the net of each. */
  function TwoPorts(): Board {
    Board([0, 1, 2], map[], {}, {PinA("c"), PinB("c")}, map[],
      map["c" := Body(false, true, [PinA("c"), PinB("c")], map[PinA("c") := 0, PinB("c") := 1], false)], {1, 2}, {}, [])
  }

  function Reaching(): Board {
    Connected(Connected(TwoPorts(), Terminal(PinA("c")), 1), Terminal(PinB("c")), 2)
  }

  lemma ReachingValid()
    ensures Valid(Reaching())
    ensures Reaching() == TwoPorts().(labels := [0, 3, 4, 3, 4], nets := map[PinA("c") := 3, PinB("c") := 4], wires := [(3, 1), (4, 2)])
  {
    hide Represents;
    var half := Connected(TwoPorts(), Terminal(PinA("c")), 1);
    UnwiredValid(TwoPorts(), 3);
    ConnectedKeeps(TwoPorts(), Terminal(PinA("c")), 1);
    assert half == TwoPorts().(labels := [0, 3, 2, 3], nets := map[PinA("c") := 3], wires := [(3, 1)]);
    ConnectedKeeps(half, Terminal(PinB("c")), 2);
  }

  function PinOfEach(): seq<Endpoint> {
    [Terminal(PinA("c")), Terminal(PinB("c"))]
  }

  lemma ReachingReady()
    ensures Valid(Reaching()) && LinkReady(Reaching(), "l", PinOfEach()) && PortsApart(Reaching())
    ensures PortAt(Reaching(), 1, PinOfEach()[0]) && PortAt(Reaching(), 2, PinOfEach()[1])
    ensures RootOf(Reaching(), PinOfEach()[0]) != RootOf(Reaching(), PinOfEach()[1])
  {
    hide Connected, Merge, Represents, Canonical, RootsOf;
    var b := Reaching();
    ReachingValid();
    assert AllKnown(b, PinOfEach());
    assert RootOf(b, PinOfEach()[0]) == Class(3) && RootOf(b, PinOfEach()[1]) == Class(4);
    assert UnionAllowed(b, PinOfEach(), false);
  }

  /** A link of these pins puts the two Ports on one net; only buses of the linking scope are kept apart. */
  lemma LinkCanMergePorts()
    ensures Valid(Reaching()) && LinkReady(Reaching(), "l", PinOfEach()) && PortsApart(Reaching())
    ensures Valid(Link(Reaching(), "l", PinOfEach()).board) && !PortsApart(Link(Reaching(), "l", PinOfEach()).board)
  {
    hide Reaching, Represents, UnionAllowed, Merge;
    var b, x, y := Reaching(), PinOfEach()[0], PinOfEach()[1];
    ReachingReady();
    assert RootOf(b, x) in RootsOf(b, PinOfEach()) && RootOf(b, y) in RootsOf(b, PinOfEach());
    LinkMergesPorts(b, "l", PinOfEach(), 1, x, 2, y);
    var after := LinkedBoard(b, "l", PinOfEach());
    assert after.labels[NetAt(after, x)] == after.labels[1] && after.labels[NetAt(after, y)] == after.labels[2];
  }

  // ---- Parallel structures --------------------------------------------------------------------------------

  /** Two buses and two bodies. */
  function TwoBodies(): Board {
    Board([0, 1, 2], map["s" := 1, "e" := 2], {}, {PinA("r"), PinB("r"), PinA("q"), PinB("q")}, map[],
      map["r" := Resistor("r"), "q" := Resistor("q")], {}, {}, [])
  }

  /** The first terminal of one body already lies on the end. */
  function Leaning(): Board {
    Connected(TwoBodies(), Terminal(PinA("r")), 2)
  }

  lemma LeaningValid()
    ensures Valid(Leaning())
    ensures Leaning() == TwoBodies().(labels := [0, 1, 3, 3], nets := map[PinA("r") := 3], wires := [(3, 2)])
  {
    UnwiredValid(TwoBodies(), 3);
    ConnectedKeeps(TwoBodies(), Terminal(PinA("r")), 2);
  }

  function Branches(): seq<seq<Element>> {
    [[Whole("r")], [Whole("q")]]
  }

  /** A `parallel` whose checks pass is refused with its first branch laid. */
  lemma ParallelCanStop()
    ensures Valid(Leaning()) && ParallelReady(Leaning(), "p", Bus("s"), Branches(), Bus("e"))
    ensures var outcome := Parallel(Leaning(), "p", Bus("s"), Branches(), Bus("e"));
      !outcome.ok && "p" in outcome.board.ids && "r" in outcome.board.bodies && outcome.board.bodies["r"].used
  {
    hide Represents, Connected, Merge, InNets;
    var b := Leaning();
    LeaningValid();
    forall i | 0 <= i < 2
      ensures Prepared(b, Branches()[i], Bus("s"), Bus("e"))
    {
      assert Usable(b, Branches()[i][0]);
    }
    ParallelHalfDone(b, "p", Bus("s"), Branches(), Bus("e"));
  }
}
