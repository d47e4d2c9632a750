/** Energies, element by element. */
module Energies {
  // The quadratic forms of the capacitance and conductance matrices over any node voltages, as sums over the leaves.

  import opened Common
  import opened Linear
  import opened Stamping

  /** The voltage of a node: its row's, or the ground's. */
  function VoltageAt(node: Node, v: Vector): real {
    match node
    case Ground => 0.0
    case At(row) => v(row)
  }

  function Across(p: Node, q: Node, v: Vector): real {
    VoltageAt(p, v) - VoltageAt(q, v)
  }

  function Square(x: real): real {
    x * x
  }

  /** Entries times the voltages of their two conductors, all of them together. */
  function Pairwise(station: seq<Node>, m: Matrix, v: Vector): real {
    Sum(|station|, PairRows(station, m, v))
  }

  function PairRows(station: seq<Node>, m: Matrix, v: Vector): Vector {
    (a: nat) => Sum(|station|, PairEntries(station, m, v, a))
  }

  function PairEntries(station: seq<Node>, m: Matrix, v: Vector, a: nat): Vector {
    (b: nat) => if a < |station| && b < |station| then VoltageAt(station[a], v) * (m(a, b) * VoltageAt(station[b], v)) else 0.0
  }

  /** A line of pi sections: each section's shunt over its length, half of it at either end. */
  function Sectioned(stations: seq<seq<Node>>, m: Matrix, length: real, v: Vector, n: nat): real
    requires n < |stations| && |stations| > 1
  {
    if n == 0 then 0.0
    else
      var half := length / (|stations| - 1) as real / 2.0;
      Sectioned(stations, m, length, v, n - 1) + half * Pairwise(stations[n - 1], m, v) + half * Pairwise(stations[n], m, v)
  }

  /** A capacitor's farad and a junction's own times the squared voltage across, and a line's capacitances. */
  function Stores(leaf: Leaf, v: Vector): real
    requires leaf.Line? ==> |leaf.stations| > 1
  {
    match leaf
    case Capacitor(p, q, farad) => farad * Square(Across(p, q, v))
    case Junction(p, q, farad, _) => farad * Square(Across(p, q, v))
    case Line(stations, capacitance, _, length) => Sectioned(stations, capacitance, length, v, |stations| - 1)
    case Resistor(_, _, _) => 0.0
    case Inductor(_) => 0.0
  }

  /** A resistor's squared voltage over its ohms, and a line's conductances. */
  function Dissipates(leaf: Leaf, v: Vector): real
    requires leaf.Line? ==> |leaf.stations| > 1
    requires leaf.Resistor? ==> leaf.ohm != 0.0
  {
    match leaf
    case Resistor(p, q, ohm) => Square(Across(p, q, v)) / ohm
    case Line(stations, _, conductance, length) => Sectioned(stations, conductance, length, v, |stations| - 1)
    case Capacitor(_, _, _) => 0.0
    case Junction(_, _, _, _) => 0.0
    case Inductor(_) => 0.0
  }

  function StoresAll(leaves: seq<Leaf>, n: nat, v: Vector): real
    requires n <= |leaves| && forall i :: 0 <= i < n ==> Valid(leaves[i])
  {
    if n == 0 then 0.0 else assert Valid(leaves[n - 1]); StoresAll(leaves, n - 1, v) + Stores(leaves[n - 1], v)
  }

  function DissipatesAll(leaves: seq<Leaf>, n: nat, v: Vector): real
    requires n <= |leaves| && forall i :: 0 <= i < n ==> Valid(leaves[i])
  {
    if n == 0 then 0.0 else assert Valid(leaves[n - 1]); DissipatesAll(leaves, n - 1, v) + Dissipates(leaves[n - 1], v)
  }

  // ---- Two terminals --------------------------------------------------------------------------------------

  lemma IncidenceMeets(n: nat, node: Node, v: Vector)
    requires Inside(node, n)
    ensures Dot(n, IncidenceOf(node), v) == VoltageAt(node, v)
  {
    if node.At? { DotOne(n, IncidenceOf(node), v, node.row); } else { DotZero(n, v, IncidenceOf(node)); DotBack(n, IncidenceOf(node), v); }
  }

  lemma DropMeets(n: nat, p: Node, q: Node, v: Vector)
    requires Inside(p, n) && Inside(q, n)
    ensures Dot(n, v, DropOf(p, q)) == Across(p, q, v)
  {
    IncidenceMeets(n, p, v);
    IncidenceMeets(n, q, v);
    DotBack(n, IncidenceOf(p), v);
    DotBack(n, IncidenceOf(q), v);
    DotPlus(n, v, DropOf(p, q), IncidenceOf(q), IncidenceOf(p));
  }

  lemma StampEntry(p: Node, q: Node, value: real, v: Vector, r: nat, c: nat, factor: real)
    requires factor == value * Drop(p, q, r)
    ensures Products(Row(BranchStamp(p, q, value), r), v)(c) == factor * Products(v, DropOf(p, q))(c)
  {
    BranchEntry(p, q, value, r, c);
    Swapped(factor, DropOf(p, q)(c), v(c));
  }

  lemma Swapped(a: real, b: real, c: real)
    ensures (a * b) * c == a * (c * b)
  {
  }

  lemma StampEntries(n: nat, p: Node, q: Node, value: real, v: Vector, r: nat, factor: real, f: Vector, g: Vector)
    requires factor == value * Drop(p, q, r)
    requires f == Products(v, DropOf(p, q)) && g == Products(Row(BranchStamp(p, q, value), r), v)
    ensures forall c: nat :: c < n ==> g(c) == factor * f(c)
  {
    hide Products, BranchStamp, DropOf, Row, Drop;
    forall c: nat | c < n ensures g(c) == factor * f(c) { StampEntry(p, q, value, v, r, c, factor); }
  }

  lemma StampCurrent(n: nat, p: Node, q: Node, value: real, v: Vector, r: nat, factor: real)
    requires Inside(p, n) && Inside(q, n) && factor == value * Drop(p, q, r)
    ensures Apply(n, BranchStamp(p, q, value), v)(r) == factor * Across(p, q, v)
  {
    hide Sum;
    DropMeets(n, p, q, v);
    hide Products, BranchStamp, DropOf, Row, Across, Drop, Inside;
    var f, g := Products(v, DropOf(p, q)), Products(Row(BranchStamp(p, q, value), r), v);
    StampEntries(n, p, q, value, v, r, factor, f, g);
    SumTimes(n, factor, f, g);
  }

  /** The current into a row is the current through the element where it drops there. */
  lemma CurrentByDrop(n: nat, p: Node, q: Node, value: real, v: Vector, r: nat, current: real)
    requires Inside(p, n) && Inside(q, n) && current == value * Across(p, q, v)
    ensures Apply(n, BranchStamp(p, q, value), v)(r) == current * DropOf(p, q)(r)
  {
    StampCurrent(n, p, q, value, v, r, value * Drop(p, q, r));
    hide Apply, BranchStamp, Across;
    Swapped(value, Drop(p, q, r), Across(p, q, v));
    Swapped(value, Across(p, q, v), Drop(p, q, r));
    assert Across(p, q, v) * Drop(p, q, r) == Drop(p, q, r) * Across(p, q, v);
  }

  /** An element between two nets, wherever they are: its value times the squared voltage across. */
  lemma BranchForm(n: nat, p: Node, q: Node, value: real, v: Vector)
    requires Inside(p, n) && Inside(q, n)
    ensures Form(n, BranchStamp(p, q, value), v, v) == value * Square(Across(p, q, v))
  {
    hide Apply, BranchStamp, Across, DropOf, Inside, Dot;
    var current, image := value * Across(p, q, v), Apply(n, BranchStamp(p, q, value), v);
    forall r: nat | r < n ensures image(r) == current * DropOf(p, q)(r) { CurrentByDrop(n, p, q, value, v, r, current); }
    DotTimes(n, current, v, DropOf(p, q), image);
    DropMeets(n, p, q, v);
    Swapped(value, Across(p, q, v), Across(p, q, v));
  }

  lemma OverOhms(x: real, ohm: real)
    requires ohm > 0.0
    ensures 1.0 / ohm * x == x / ohm
  {
    var y := 1.0 / ohm;
    assert y * ohm == 1.0;
    assert (y * x) * ohm == x;
  }

  // ---- Lines ----------------------------------------------------------------------------------------------

  lemma PairRow(station: seq<Node>, m: Matrix, v: Vector, a: nat)
    requires a < |station|
    ensures Seen(station, v)(a) * Apply(|station|, m, Seen(station, v))(a) == PairRows(station, m, v)(a)
  {
    var width, seen := |station|, Seen(station, v);
    var f, g := Products(Row(m, a), seen), PairEntries(station, m, v, a);
    forall b: nat | b < width ensures g(b) == seen(a) * f(b) {
      assert seen(b) == VoltageAt(station[b], v) && seen(a) == VoltageAt(station[a], v);
    }
    SumTimes(width, seen(a), f, g);
  }

  lemma PairwiseForm(n: nat, station: seq<Node>, m: Matrix, v: Vector)
    requires AllInside(station, n)
    ensures Form(n, StationStamp(station, m), v, v) == Pairwise(station, m, v)
  {
    StationForm(n, station, m, v);
    var width, seen := |station|, Seen(station, v);
    var rows := Products(seen, Apply(width, m, seen));
    forall a: nat | a < width ensures rows(a) == PairRows(station, m, v)(a) { PairRow(station, m, v, a); }
    SumSame(width, rows, PairRows(station, m, v));
  }

  lemma HalfPairwise(n: nat, station: seq<Node>, m: Matrix, x: real, v: Vector)
    requires AllInside(station, n)
    ensures Form(n, StationStamp(station, Times(x, m)), v, v) == x * Pairwise(station, m, v)
  {
    PairwiseForm(n, station, m, v);
    StationForm(n, station, m, v);
    StationForm(n, station, Times(x, m), v);
    FormTimes(|station|, x, m, Seen(station, v));
  }

  lemma HalfSection(n: nat, leaf: Leaf, m: Matrix, k: nat, v: Vector)
    requires leaf.Line? && Valid(leaf) && 0 < k <= Sections(leaf)
    requires AllInside(leaf.stations[k - 1], n) && AllInside(leaf.stations[k], n)
    ensures var half := leaf.length / (|leaf.stations| - 1) as real / 2.0;
      SectionForm(n, leaf, m, k, v) ==
        SectionForm(n, leaf, m, k - 1, v) + half * Pairwise(leaf.stations[k - 1], m, v) + half * Pairwise(leaf.stations[k], m, v)
  {
    hide SectionForm, Pairwise, Form, AllInside;
    TwoHalves(n, leaf, m, k, v);
    HalfPairwise(n, leaf.stations[k - 1], m, Dx(leaf) / 2.0, v);
    HalfPairwise(n, leaf.stations[k], m, Dx(leaf) / 2.0, v);
  }

  lemma {:induction false} LineForm(n: nat, leaf: Leaf, m: Matrix, k: nat, v: Vector)
    requires leaf.Line? && Valid(leaf) && k <= Sections(leaf) && forall i :: 0 <= i < |leaf.stations| ==> AllInside(leaf.stations[i], n)
    ensures SectionForm(n, leaf, m, k, v) == Sectioned(leaf.stations, m, leaf.length, v, k)
  {
    hide Sum;
    if k == 0 {
      NoSections(n, leaf, m, v);
    } else {
      hide SectionForm, Pairwise, AllInside;
      LineForm(n, leaf, m, k - 1, v);
      HalfSection(n, leaf, m, k, v);
    }
  }

  // ---- Whole models ---------------------------------------------------------------------------------------

  lemma LeafForms(n: nat, leaf: Leaf, v: Vector)
    requires Valid(leaf) && Lowered(n, leaf)
    ensures Form(n, CapacitanceOf(leaf), v, v) == Stores(leaf, v)
    ensures Form(n, ConductanceOf(leaf), v, v) == Dissipates(leaf, v)
  {
    hide Form, Sectioned, Square;
    FormZero(n, v);
    match leaf
    case Capacitor(p, q, farad) => BranchForm(n, p, q, farad, v);
    case Resistor(p, q, ohm) =>
      BranchForm(n, p, q, 1.0 / ohm, v);
      OverOhms(Square(Across(p, q, v)), ohm);
    case Junction(p, q, farad, _) => BranchForm(n, p, q, farad, v);
    case Inductor(_) =>
    case Line(_, capacitance, conductance, _) =>
      LineForm(n, leaf, capacitance, Sections(leaf), v);
      LineForm(n, leaf, conductance, Sections(leaf), v);
  }

  /** Over any node voltages the assembled matrices store and dissipate what their leaves do together. */
  lemma {:induction false} AssembledForms(n: nat, leaves: seq<Leaf>, k: nat, v: Vector)
    requires k <= |leaves| && forall i :: 0 <= i < k ==> Valid(leaves[i]) && Lowered(n, leaves[i])
    ensures Form(n, Assembled(leaves, k).0, v, v) == StoresAll(leaves, k, v)
    ensures Form(n, Assembled(leaves, k).1, v, v) == DissipatesAll(leaves, k, v)
  {
    hide Form, Plus, CapacitanceOf, ConductanceOf, Stores, Dissipates, Valid, Lowered;
    if k == 0 {
      FormZero(n, v);
    } else {
      AssembledForms(n, leaves, k - 1, v);
      LeafForms(n, leaves[k - 1], v);
      FormPlus(n, Assembled(leaves, k - 1).0, CapacitanceOf(leaves[k - 1]), v);
      FormPlus(n, Assembled(leaves, k - 1).1, ConductanceOf(leaves[k - 1]), v);
    }
  }

  /** A matrix is what its form says: its entries are its values on pairs of unit vectors. */
  lemma EntryOfForm(n: nat, a: Matrix, r: nat, c: nat, x: Vector, y: Vector)
    requires r < n && c < n
    requires forall i: nat :: x(i) == if i == r then 1.0 else 0.0
    requires forall i: nat :: y(i) == if i == c then 1.0 else 0.0
    ensures Form(n, a, x, y) == a(r, c)
  {
    DotOne(n, x, Apply(n, a, y), r);
    DotBack(n, Row(a, r), y);
    DotOne(n, y, Row(a, r), c);
  }

  /** A leaf is accepted exactly when its capacitance, resistance and inductances are positive, a junction's
      capacitance at least not negative, and a line has a section and a length. */
  lemma AcceptedLeaf(leaf: Leaf)
    ensures Valid(leaf) <==>
      (leaf.Capacitor? ==> leaf.farad > 0.0) && (leaf.Resistor? ==> leaf.ohm > 0.0) && (leaf.Junction? ==> leaf.farad >= 0.0)
      && (leaf.Line? ==> |leaf.stations| >= 2 && leaf.length > 0.0) && forall branch :: branch in Brings(leaf) ==> branch.henry > 0.0
  {
    var branches := Brings(leaf);
    if AllPositive(branches) {
      forall branch | branch in branches ensures branch.henry > 0.0 {
        var k :| 0 <= k < |branches| && branches[k] == branch;
      }
    } else {
      var k :| 0 <= k < |branches| && branches[k].henry <= 0.0;
      assert branches[k] in branches;
    }
  }

  // ---- Inductive branches ---------------------------------------------------------------------------------

  /** The inductive branches a leaf brings. */
  function Brings(leaf: Leaf): seq<Inductance> {
    match leaf
    case Junction(_, _, _, inductances) => inductances
    case Inductor(inductances) => inductances
    case Capacitor(_, _, _) => []
    case Resistor(_, _, _) => []
    case Line(_, _, _, _) => []
  }

  function Count(leaves: seq<Leaf>, n: nat): nat
    requires n <= |leaves|
  {
    if n == 0 then 0 else Count(leaves, n - 1) + |Brings(leaves[n - 1])|
  }

  predicate Listed(leaves: seq<Leaf>, branches: seq<Inductance>, i: nat, j: nat)
    requires i < |leaves| && j < |Brings(leaves[i])|
  {
    Count(leaves, i) + j < |branches| && branches[Count(leaves, i) + j] == Brings(leaves[i])[j]
  }

  predicate ListedAll(leaves: seq<Leaf>, branches: seq<Inductance>, n: nat)
    requires n <= |leaves|
  {
    forall i, j :: 0 <= i < n && 0 <= j < |Brings(leaves[i])| ==> Listed(leaves, branches, i, j)
  }

  /** Every leaf's branches are in the list after those of the leaves before it, in their own order, and nothing
      else is. */
  lemma {:induction false} BranchesListed(leaves: seq<Leaf>, n: nat)
    requires n <= |leaves|
    ensures |BranchesOf(leaves, n)| == Count(leaves, n)
    ensures ListedAll(leaves, BranchesOf(leaves, n), n)
  {
    if n > 0 {
      BranchesListed(leaves, n - 1);
      hide Brings, Count;
      ListedMore(leaves, n);
    }
  }

  lemma ListedMore(leaves: seq<Leaf>, n: nat)
    requires 0 < n <= |leaves| && |BranchesOf(leaves, n - 1)| == Count(leaves, n - 1)
    requires ListedAll(leaves, BranchesOf(leaves, n - 1), n - 1)
    ensures |BranchesOf(leaves, n)| == Count(leaves, n)
    ensures ListedAll(leaves, BranchesOf(leaves, n), n)
  {
    var before := BranchesOf(leaves, n - 1);
    assert BranchesOf(leaves, n) == before + Brings(leaves[n - 1]);
    forall i, j | 0 <= i < n && 0 <= j < |Brings(leaves[i])| ensures Listed(leaves, BranchesOf(leaves, n), i, j) {
      if i < n - 1 { assert Listed(leaves, before, i, j); }
    }
  }
}
