/** Assembly of the capacitance and conductance matrices: what every stamp keeps, whatever
    nets its terminals share. */
module Stamping {
  import opened Common
  import opened Linear
  import opened Congruence

  /** Where a terminal is connected: the ground or one matrix row. */
  datatype Node = Ground | At(row: nat)

  /** One oriented inductive branch of a leaf. */
  datatype Inductance = Inductance(positive: Node, negative: Node, henry: real)

  datatype Leaf =
    | Capacitor(positive: Node, negative: Node, farad: real)
    | Resistor(positive: Node, negative: Node, ohm: real)
    | Junction(positive: Node, negative: Node, farad: real, inductances: seq<Inductance>)
    | Inductor(inductances: seq<Inductance>)
    | Line(stations: seq<seq<Node>>, capacitance: Matrix, conductance: Matrix, length: real)

  /** Symmetric, off-diagonal entries nonpositive, row sums nonnegative. */
  ghost predicate Structured(n: nat, a: Matrix) {
    && Symmetric(n, a)
    && (forall r: nat, c: nat :: r < n && c < n && r != c ==> a(r, c) <= 0.0)
    && (forall r: nat :: r < n ==> Sum(n, Row(a, r)) >= 0.0)
  }

  // ---- Stamps -----------------------------------------------------------------------------------

  function Incidence(node: Node, r: nat): real {
    if node == At(r) then 1.0 else 0.0
  }

  function Drop(positive: Node, negative: Node, r: nat): real {
    Incidence(positive, r) - Incidence(negative, r)
  }

  /** A two-terminal element between its nets. */
  function BranchStamp(positive: Node, negative: Node, value: real): Matrix {
    (r: nat, c: nat) => value * (Drop(positive, negative, r) * Drop(positive, negative, c))
  }

  function Entry(station: seq<Node>, m: Matrix, r: nat, c: nat, a: nat, b: nat): real {
    if a < |station| && b < |station| && station[a] == At(r) && station[b] == At(c) then m(a, b) else 0.0
  }

  function EntryRow(station: seq<Node>, m: Matrix, r: nat, c: nat, a: nat): Vector {
    (b: nat) => Entry(station, m, r, c, a, b)
  }

  function EntrySums(station: seq<Node>, m: Matrix, r: nat, c: nat): Vector {
    (a: nat) => Sum(|station|, EntryRow(station, m, r, c, a))
  }

  /** A shunt matrix over the conductors of one station, on the nets they are connected to. */
  function StationStamp(station: seq<Node>, m: Matrix): Matrix {
    (r: nat, c: nat) => Sum(|station|, EntrySums(station, m, r, c))
  }

  function Plus(a: Matrix, b: Matrix): Matrix {
    (r: nat, c: nat) => a(r, c) + b(r, c)
  }

  function Times(x: real, a: Matrix): Matrix {
    (r: nat, c: nat) => x * a(r, c)
  }

  function Zero(): Matrix {
    (r: nat, c: nat) => 0.0
  }

  function Sections(leaf: Leaf): int
    requires leaf.Line?
  {
    |leaf.stations| - 1
  }

  function Dx(leaf: Leaf): real
    requires leaf.Line? && Sections(leaf) > 0
  {
    leaf.length / Sections(leaf) as real
  }

  /** The first `n` pi sections: half of each section's shunt at both of its stations. */
  function LineStamp(leaf: Leaf, m: Matrix, n: nat): Matrix
    requires leaf.Line? && Sections(leaf) > 0 && n <= Sections(leaf)
  {
    if n == 0 then Zero()
    else
      var half := Times(Dx(leaf) / 2.0, m);
      Plus(Plus(LineStamp(leaf, m, n - 1), StationStamp(leaf.stations[n - 1], half)), StationStamp(leaf.stations[n], half))
  }

  function CapacitanceOf(leaf: Leaf): Matrix
    requires Valid(leaf)
  {
    match leaf
    case Capacitor(p, q, farad) => BranchStamp(p, q, farad)
    case Junction(p, q, farad, _) => BranchStamp(p, q, farad)
    case Line(_, capacitance, _, _) => LineStamp(leaf, capacitance, Sections(leaf))
    case _ => Zero()
  }

  function ConductanceOf(leaf: Leaf): Matrix
    requires Valid(leaf)
  {
    match leaf
    case Resistor(p, q, ohm) => BranchStamp(p, q, 1.0 / ohm)
    case Line(_, _, conductance, _) => LineStamp(leaf, conductance, Sections(leaf))
    case _ => Zero()
  }

  predicate AllPositive(inductances: seq<Inductance>) {
    forall k :: 0 <= k < |inductances| ==> inductances[k].henry > 0.0
  }

  /** The sign checks made while lowering, and a line with at least one section. */
  predicate Valid(leaf: Leaf) {
    match leaf
    case Capacitor(_, _, farad) => farad > 0.0
    case Resistor(_, _, ohm) => ohm > 0.0
    case Junction(_, _, farad, inductances) => farad >= 0.0 && AllPositive(inductances)
    case Inductor(inductances) => AllPositive(inductances)
    case Line(stations, _, _, length) => |stations| > 1 && length > 0.0
  }

  // ---- Stamps keep the structure --------------------------------------------------------------------

  lemma ZeroStructured(n: nat)
    ensures Structured(n, Zero())
  {
    forall r: nat | r < n
      ensures Sum(n, Row(Zero(), r)) >= 0.0
    {
      SumZero(n, Row(Zero(), r));
    }
  }

  lemma PlusStructured(n: nat, a: Matrix, b: Matrix)
    requires Structured(n, a) && Structured(n, b)
    ensures Structured(n, Plus(a, b))
  {
    forall r: nat | r < n
      ensures Sum(n, Row(Plus(a, b), r)) >= 0.0
    {
      SumPlus(n, Row(a, r), Row(b, r), Row(Plus(a, b), r));
    }
  }

  lemma {:induction false} SumNonnegative(n: nat, f: Vector)
    requires forall i: nat :: i < n ==> f(i) >= 0.0
    ensures Sum(n, f) >= 0.0
  {
    if n > 0 { SumNonnegative(n - 1, f); }
  }

  lemma {:induction false} SumAtMost(n: nat, f: Vector, g: Vector)
    requires forall i: nat :: i < n ==> f(i) <= g(i)
    ensures Sum(n, f) <= Sum(n, g)
  {
    if n > 0 { SumAtMost(n - 1, f, g); }
  }

  function Inside(node: Node, n: nat): bool {
    node.At? ==> node.row < n
  }

  function IncidenceOf(node: Node): Vector {
    (r: nat) => Incidence(node, r)
  }

  lemma IncidenceSum(n: nat, node: Node)
    requires Inside(node, n)
    ensures Sum(n, IncidenceOf(node)) == if node.At? then 1.0 else 0.0
  {
    if node.At? { SumOne(n, IncidenceOf(node), node.row); } else { SumZero(n, IncidenceOf(node)); }
  }

  function DropOf(positive: Node, negative: Node): Vector {
    (r: nat) => Drop(positive, negative, r)
  }

  lemma DropSum(n: nat, p: Node, q: Node)
    requires Inside(p, n) && Inside(q, n)
    ensures Sum(n, DropOf(p, q)) == (if p.At? then 1.0 else 0.0) - (if q.At? then 1.0 else 0.0)
  {
    IncidenceSum(n, p);
    IncidenceSum(n, q);
    SumPlus(n, DropOf(p, q), IncidenceOf(q), IncidenceOf(p));
  }

  lemma DropSigns(n: nat, p: Node, q: Node, r: nat, c: nat)
    requires Inside(p, n) && Inside(q, n) && r < n && c < n
    ensures r != c ==> Drop(p, q, r) * Drop(p, q, c) <= 0.0
    ensures Drop(p, q, r) * Sum(n, DropOf(p, q)) >= 0.0
  {
    DropSum(n, p, q);
  }

  lemma Signs(value: real, x: real)
    requires value >= 0.0
    ensures x <= 0.0 ==> value * x <= 0.0
    ensures x >= 0.0 ==> value * x >= 0.0
  {
  }

  /** An element with a nonnegative value keeps the structure, even between equal or grounded nets. */
  lemma BranchStructured(n: nat, p: Node, q: Node, value: real)
    requires value >= 0.0 && Inside(p, n) && Inside(q, n)
    ensures Structured(n, BranchStamp(p, q, value))
  {
    var stamp := BranchStamp(p, q, value);
    forall r: nat, c: nat | r < n && c < n && r != c
      ensures stamp(r, c) <= 0.0
    {
      DropSigns(n, p, q, r, c);
      Signs(value, Drop(p, q, r) * Drop(p, q, c));
    }
    forall r: nat | r < n
      ensures Sum(n, Row(stamp, r)) >= 0.0
    {
      BranchRow(n, p, q, value, r);
      DropSigns(n, p, q, r, r);
      Signs(value, Drop(p, q, r) * Sum(n, DropOf(p, q)));
    }
    forall r: nat, c: nat | r < n && c < n
      ensures stamp(r, c) == stamp(c, r)
    {
    }
  }

  lemma BranchEntry(p: Node, q: Node, value: real, r: nat, c: nat)
    ensures Row(BranchStamp(p, q, value), r)(c) == (value * Drop(p, q, r)) * DropOf(p, q)(c)
  {
    Reorder(value, Drop(p, q, r), Drop(p, q, c));
  }

  lemma BranchRow(n: nat, p: Node, q: Node, value: real, r: nat)
    ensures Sum(n, Row(BranchStamp(p, q, value), r)) == value * (Drop(p, q, r) * Sum(n, DropOf(p, q)))
  {
    ScaledRow(n, p, q, value, r, value * Drop(p, q, r));
    Reorder(value, Drop(p, q, r), Sum(n, DropOf(p, q)));
  }

  lemma ScaledRow(n: nat, p: Node, q: Node, value: real, r: nat, factor: real)
    requires factor == value * Drop(p, q, r)
    ensures Sum(n, Row(BranchStamp(p, q, value), r)) == factor * Sum(n, DropOf(p, q))
  {
    forall c: nat | c < n
      ensures Row(BranchStamp(p, q, value), r)(c) == factor * DropOf(p, q)(c)
    {
      BranchEntry(p, q, value, r, c);
    }
    SumTimes(n, factor, DropOf(p, q), Row(BranchStamp(p, q, value), r));
  }

  // ---- Stations -----------------------------------------------------------------------------------

  predicate AllInside(station: seq<Node>, n: nat) {
    forall a :: 0 <= a < |station| ==> Inside(station[a], n)
  }

  /** All entries of one matrix row that conductor `a` contributes to, by column and conductor. */
  function EntriesOf(station: seq<Node>, m: Matrix, r: nat, a: nat): Matrix {
    (c: nat, b: nat) => Entry(station, m, r, c, a, b)
  }

  /** What conductor `a` contributes to one matrix row, column by column. */
  function SharesOf(station: seq<Node>, m: Matrix, r: nat): Matrix {
    (c: nat, a: nat) => Sum(|station|, EntryRow(station, m, r, c, a))
  }

  function Kept(station: seq<Node>, m: Matrix, a: nat): Vector {
    (b: nat) => if b < |station| && station[b].At? then m(a, b) else 0.0
  }

  /** The whole share of conductor `a` in the row of its own net. */
  lemma ShareOfConductor(n: nat, station: seq<Node>, m: Matrix, r: nat, a: nat)
    requires AllInside(station, n) && a < |station|
    ensures Sum(n, Column(SharesOf(station, m, r), a)) == if station[a] == At(r) then Sum(|station|, Kept(station, m, a)) else 0.0
  {
    var entries, width := EntriesOf(station, m, r, a), |station|;
    forall c: nat | c < n
      ensures Column(SharesOf(station, m, r), a)(c) == RowSums(entries, width)(c)
    {
      SumSame(width, EntryRow(station, m, r, c, a), Row(entries, c));
    }
    SumSame(n, Column(SharesOf(station, m, r), a), RowSums(entries, width));
    SumSwap(n, width, entries);
    forall b: nat | b < width
      ensures ColumnSums(entries, n)(b) == if station[a] == At(r) then Kept(station, m, a)(b) else 0.0
    {
      EntryColumn(n, station, m, r, a, b);
    }
    if station[a] == At(r) {
      SumSame(width, ColumnSums(entries, n), Kept(station, m, a));
    } else {
      SumZero(width, ColumnSums(entries, n));
    }
  }

  lemma EntryColumn(n: nat, station: seq<Node>, m: Matrix, r: nat, a: nat, b: nat)
    requires AllInside(station, n) && a < |station| && b < |station|
    ensures Sum(n, Column(EntriesOf(station, m, r, a), b))
         == if station[a] == At(r) && station[b].At? then m(a, b) else 0.0
  {
    var column := Column(EntriesOf(station, m, r, a), b);
    if station[a] == At(r) && station[b].At? {
      SumOne(n, column, station[b].row);
    } else {
      SumZero(n, column);
    }
  }

  /** Leaving out grounded conductors only raises the sum of a structured row. */
  lemma KeptNonnegative(station: seq<Node>, m: Matrix, a: nat)
    requires Structured(|station|, m) && a < |station| && station[a].At?
    ensures Sum(|station|, Kept(station, m, a)) >= 0.0
  {
    SumAtMost(|station|, Row(m, a), Kept(station, m, a));
  }

  lemma StationRow(n: nat, station: seq<Node>, m: Matrix, r: nat)
    requires AllInside(station, n) && Structured(|station|, m) && r < n
    ensures Sum(n, Row(StationStamp(station, m), r)) >= 0.0
  {
    var shares, width := SharesOf(station, m, r), |station|;
    forall c: nat | c < n
      ensures Row(StationStamp(station, m), r)(c) == RowSums(shares, width)(c)
    {
      SumSame(width, EntrySums(station, m, r, c), Row(shares, c));
    }
    SumSame(n, Row(StationStamp(station, m), r), RowSums(shares, width));
    SumSwap(n, width, shares);
    forall a: nat | a < width
      ensures ColumnSums(shares, n)(a) >= 0.0
    {
      ShareOfConductor(n, station, m, r, a);
      if station[a] == At(r) { KeptNonnegative(station, m, a); }
    }
    SumNonnegative(width, ColumnSums(shares, n));
  }

  lemma {:induction false} SumNonpositive(n: nat, f: Vector)
    requires forall i: nat :: i < n ==> f(i) <= 0.0
    ensures Sum(n, f) <= 0.0
  {
    if n > 0 { SumNonpositive(n - 1, f); }
  }

  lemma StationOffDiagonal(station: seq<Node>, m: Matrix, r: nat, c: nat)
    requires Structured(|station|, m) && r != c
    ensures StationStamp(station, m)(r, c) <= 0.0
  {
    forall a: nat | a < |station|
      ensures EntrySums(station, m, r, c)(a) <= 0.0
    {
      SumNonpositive(|station|, EntryRow(station, m, r, c, a));
    }
    SumNonpositive(|station|, EntrySums(station, m, r, c));
  }

  function EntryMatrix(station: seq<Node>, m: Matrix, r: nat, c: nat): Matrix {
    (a: nat, b: nat) => Entry(station, m, r, c, a, b)
  }

  lemma StationAsRows(station: seq<Node>, m: Matrix, r: nat, c: nat)
    ensures StationStamp(station, m)(r, c) == Sum(|station|, RowSums(EntryMatrix(station, m, r, c), |station|))
  {
    forall a: nat | a < |station|
      ensures EntrySums(station, m, r, c)(a) == RowSums(EntryMatrix(station, m, r, c), |station|)(a)
    {
      SumSame(|station|, EntryRow(station, m, r, c, a), Row(EntryMatrix(station, m, r, c), a));
    }
    SumSame(|station|, EntrySums(station, m, r, c), RowSums(EntryMatrix(station, m, r, c), |station|));
  }

  lemma StationSymmetric(station: seq<Node>, m: Matrix, r: nat, c: nat)
    requires Symmetric(|station|, m)
    ensures StationStamp(station, m)(r, c) == StationStamp(station, m)(c, r)
  {
    var width, forth, back := |station|, EntryMatrix(station, m, r, c), EntryMatrix(station, m, c, r);
    StationAsRows(station, m, r, c);
    StationAsRows(station, m, c, r);
    SumSwap(width, width, forth);
    forall b: nat | b < width
      ensures ColumnSums(forth, width)(b) == RowSums(back, width)(b)
    {
      SumSame(width, Column(forth, b), Row(back, b));
    }
    SumSame(width, ColumnSums(forth, width), RowSums(back, width));
  }

  /** A structured shunt keeps the structure on whatever nets its conductors share. */
  lemma StationStructured(n: nat, station: seq<Node>, m: Matrix)
    requires AllInside(station, n) && Structured(|station|, m)
    ensures Structured(n, StationStamp(station, m))
  {
    forall r: nat, c: nat | r < n && c < n
      ensures StationStamp(station, m)(r, c) == StationStamp(station, m)(c, r)
      ensures r != c ==> StationStamp(station, m)(r, c) <= 0.0
    {
      StationSymmetric(station, m, r, c);
      if r != c { StationOffDiagonal(station, m, r, c); }
    }
    forall r: nat | r < n
      ensures Sum(n, Row(StationStamp(station, m), r)) >= 0.0
    {
      StationRow(n, station, m, r);
    }
  }

  // ---- Lines and whole models -------------------------------------------------------------------------

  lemma TimesStructured(n: nat, x: real, a: Matrix)
    requires Structured(n, a) && x >= 0.0
    ensures Structured(n, Times(x, a))
  {
    forall r: nat, c: nat | r < n && c < n && r != c
      ensures Times(x, a)(r, c) <= 0.0
    {
      Signs(x, a(r, c));
    }
    forall r: nat | r < n
      ensures Sum(n, Row(Times(x, a), r)) >= 0.0
    {
      SumTimes(n, x, Row(a, r), Row(Times(x, a), r));
      Signs(x, Sum(n, Row(a, r)));
    }
    forall r: nat, c: nat | r < n && c < n
      ensures Times(x, a)(r, c) == Times(x, a)(c, r)
    {
    }
  }

  /** What lowering is given: terminals are nets of the model, and a line's per-length matrices passed
      the authoring checks. */
  ghost predicate Lowered(n: nat, leaf: Leaf) {
    match leaf
    case Capacitor(p, q, _) => Inside(p, n) && Inside(q, n)
    case Resistor(p, q, _) => Inside(p, n) && Inside(q, n)
    case Junction(p, q, _, _) => Inside(p, n) && Inside(q, n)
    case Inductor(_) => true
    case Line(stations, capacitance, conductance, _) => forall k :: 0 <= k < |stations| ==>
      AllInside(stations[k], n) && Structured(|stations[k]|, capacitance) && Structured(|stations[k]|, conductance)
  }

  lemma HalfDx(leaf: Leaf)
    requires leaf.Line? && Valid(leaf)
    ensures Dx(leaf) > 0.0 && Dx(leaf) * Sections(leaf) as real == leaf.length
  {
    var s := Sections(leaf) as real;
    assert s >= 1.0;
    assert leaf.length / s * s == leaf.length;
  }

  lemma {:induction false} LineStructured(n: nat, leaf: Leaf, m: Matrix, k: nat)
    requires leaf.Line? && Valid(leaf) && k <= Sections(leaf)
    requires forall i :: 0 <= i < |leaf.stations| ==> AllInside(leaf.stations[i], n) && Structured(|leaf.stations[i]|, m)
    ensures Structured(n, LineStamp(leaf, m, k))
  {
    if k == 0 {
      ZeroStructured(n);
    } else {
      var half := Times(Dx(leaf) / 2.0, m);
      HalfDx(leaf);
      LineStructured(n, leaf, m, k - 1);
      TimesStructured(|leaf.stations[k - 1]|, Dx(leaf) / 2.0, m);
      TimesStructured(|leaf.stations[k]|, Dx(leaf) / 2.0, m);
      StationStructured(n, leaf.stations[k - 1], half);
      StationStructured(n, leaf.stations[k], half);
      PlusStructured(n, LineStamp(leaf, m, k - 1), StationStamp(leaf.stations[k - 1], half));
      PlusStructured(n, Plus(LineStamp(leaf, m, k - 1), StationStamp(leaf.stations[k - 1], half)), StationStamp(leaf.stations[k], half));
    }
  }

  lemma Inverse(x: real)
    requires x > 0.0
    ensures 1.0 / x > 0.0
  {
  }

  lemma LeafStructured(n: nat, leaf: Leaf)
    requires Valid(leaf) && Lowered(n, leaf)
    ensures Structured(n, CapacitanceOf(leaf)) && Structured(n, ConductanceOf(leaf))
  {
    ZeroStructured(n);
    match leaf
    case Capacitor(p, q, farad) => BranchStructured(n, p, q, farad);
    case Resistor(p, q, ohm) => Inverse(ohm); BranchStructured(n, p, q, 1.0 / ohm);
    case Junction(p, q, farad, _) => BranchStructured(n, p, q, farad);
    case Inductor(_) =>
    case Line(_, capacitance, conductance, _) =>
      LineStructured(n, leaf, capacitance, Sections(leaf));
      LineStructured(n, leaf, conductance, Sections(leaf));
  }

  /** The matrices after the first `k` leaves. */
  function Assembled(leaves: seq<Leaf>, k: nat): (Matrix, Matrix)
    requires k <= |leaves| && forall i :: 0 <= i < k ==> Valid(leaves[i])
  {
    if k == 0 then (Zero(), Zero())
    else
      var (c, g) := Assembled(leaves, k - 1);
      (Plus(c, CapacitanceOf(leaves[k - 1])), Plus(g, ConductanceOf(leaves[k - 1])))
  }

  /** The assembled matrices are symmetric with nonpositive off-diagonals and nonnegative row sums. */
  lemma {:induction false} AssembledStructured(n: nat, leaves: seq<Leaf>, k: nat)
    requires k <= |leaves| && forall i :: 0 <= i < k ==> Valid(leaves[i]) && Lowered(n, leaves[i])
    ensures Structured(n, Assembled(leaves, k).0) && Structured(n, Assembled(leaves, k).1)
  {
    if k == 0 {
      ZeroStructured(n);
    } else {
      AssembledStructured(n, leaves, k - 1);
      LeafStructured(n, leaves[k - 1]);
      PlusStructured(n, Assembled(leaves, k - 1).0, CapacitanceOf(leaves[k - 1]));
      PlusStructured(n, Assembled(leaves, k - 1).1, ConductanceOf(leaves[k - 1]));
    }
  }

  /** The entries of a row other than two. */
  function Others(a: Matrix, i: nat, j: nat): Vector {
    (c: nat) => if c == i || c == j then 0.0 else a(i, c)
  }

  function Chosen(a: Matrix, i: nat, j: nat): Vector {
    (c: nat) => if c == i || c == j then a(i, c) else 0.0
  }

  /** On a structured capacitance matrix no external cut is negative. */
  lemma CutNonnegative(n: nat, a: Matrix, i: nat, j: nat)
    requires Structured(n, a) && i < n && j < n && i != j
    ensures Cut(a, i, j) >= 0.0
  {
    SumPlus(n, Others(a, i, j), Chosen(a, i, j), Row(a, i));
    SumNonpositive(n, Others(a, i, j));
    SumTwo(n, Chosen(a, i, j), if i < j then i else j, if i < j then j else i);
  }

  /** So on an untransformed model a pair's cuts never fail the sign check. */
  lemma CutsNonnegative(n: nat, leaves: seq<Leaf>, i: nat, j: nat)
    requires forall k :: 0 <= k < |leaves| ==> Valid(leaves[k]) && Lowered(n, leaves[k])
    requires i < n && j < n && i != j
    ensures var c := Assembled(leaves, |leaves|).0; Cut(c, i, j) >= 0.0 && Cut(c, j, i) >= 0.0
  {
    AssembledStructured(n, leaves, |leaves|);
    CutNonnegative(n, Assembled(leaves, |leaves|).0, i, j);
    CutNonnegative(n, Assembled(leaves, |leaves|).0, j, i);
  }

  // ---- The section count does not change a line's total shunt ---------------------------------------------

  /** The voltage a conductor sees at a station. */
  function Seen(station: seq<Node>, v: Vector): Vector {
    (a: nat) => if a < |station| && station[a].At? then v(station[a].row) else 0.0
  }

  /** The entries of one matrix row weighted with the voltages of their columns. */
  function Weighted(station: seq<Node>, m: Matrix, v: Vector, r: nat, a: nat): Matrix {
    (c: nat, b: nat) => Entry(station, m, r, c, a, b) * v(c)
  }

  function WeightedShares(station: seq<Node>, m: Matrix, v: Vector, r: nat): Matrix {
    (c: nat, a: nat) => Sum(|station|, EntryRow(station, m, r, c, a)) * v(c)
  }

  lemma WeightedColumn(n: nat, station: seq<Node>, m: Matrix, v: Vector, r: nat, a: nat, b: nat)
    requires AllInside(station, n) && a < |station| && b < |station|
    ensures Sum(n, Column(Weighted(station, m, v, r, a), b)) == if station[a] == At(r) then m(a, b) * Seen(station, v)(b) else 0.0
  {
    var column := Column(Weighted(station, m, v, r, a), b);
    var hit := station[a] == At(r) && station[b].At?;
    forall c: nat | c < n
      ensures column(c) == if hit && station[b].row == c then m(a, b) * v(c) else 0.0
    {
      ZeroTimes(v(c));
    }
    if hit {
      assert Inside(station[b], n);
      SumOne(n, column, station[b].row);
    } else {
      SumZero(n, column);
      ZeroTimes(m(a, b));
    }
  }

  lemma ZeroTimes(x: real)
    ensures 0.0 * x == 0.0 && x * 0.0 == 0.0
  {
  }

  lemma SumScaled(n: nat, f: Vector, x: real, g: Vector)
    requires forall i: nat :: i < n ==> g(i) == f(i) * x
    ensures Sum(n, g) == Sum(n, f) * x
  {
    forall i: nat | i < n
      ensures g(i) == x * f(i)
    {
    }
    SumTimes(n, x, f, g);
  }

  lemma ShareByEntry(station: seq<Node>, m: Matrix, v: Vector, r: nat, a: nat, c: nat)
    ensures Column(WeightedShares(station, m, v, r), a)(c) == Sum(|station|, Row(Weighted(station, m, v, r, a), c))
  {
    SumScaled(|station|, EntryRow(station, m, r, c, a), v(c), Row(Weighted(station, m, v, r, a), c));
  }

  /** Conductor `a`'s part of the current into the net of one row. */
  lemma CurrentOfConductor(n: nat, station: seq<Node>, m: Matrix, v: Vector, r: nat, a: nat)
    requires AllInside(station, n) && a < |station|
    ensures Sum(n, Column(WeightedShares(station, m, v, r), a))
         == if station[a] == At(r) then Apply(|station|, m, Seen(station, v))(a) else 0.0
  {
    var entries, width := Weighted(station, m, v, r, a), |station|;
    var shares, seen := WeightedShares(station, m, v, r), Seen(station, v);
    forall c: nat | c < n
      ensures Column(shares, a)(c) == RowSums(entries, width)(c)
    {
      ShareByEntry(station, m, v, r, a, c);
    }
    SumSame(n, Column(shares, a), RowSums(entries, width));
    SumSwap(n, width, entries);
    forall b: nat | b < width
      ensures ColumnSums(entries, n)(b) == if station[a] == At(r) then m(a, b) * seen(b) else 0.0
    {
      WeightedColumn(n, station, m, v, r, a, b);
    }
    if station[a] == At(r) {
      SumSame(width, ColumnSums(entries, n), Products(Row(m, a), seen));
    } else {
      SumZero(width, ColumnSums(entries, n));
    }
  }

  /** The currents of the conductors that lie on one net. */
  function Collected(station: seq<Node>, w: Vector, r: nat): Vector {
    (a: nat) => if a < |station| && station[a] == At(r) then w(a) else 0.0
  }

  lemma StationCurrent(n: nat, station: seq<Node>, m: Matrix, v: Vector, r: nat)
    requires AllInside(station, n)
    ensures Apply(n, StationStamp(station, m), v)(r)
         == Sum(|station|, Collected(station, Apply(|station|, m, Seen(station, v)), r))
  {
    var shares, width := WeightedShares(station, m, v, r), |station|;
    var currents := Collected(station, Apply(width, m, Seen(station, v)), r);
    var row := Products(Row(StationStamp(station, m), r), v);
    forall c: nat | c < n
      ensures row(c) == RowSums(shares, width)(c)
    {
      SumScaled(width, EntrySums(station, m, r, c), v(c), Row(shares, c));
    }
    SumSame(n, row, RowSums(shares, width));
    SumSwap(n, width, shares);
    forall a: nat | a < width
      ensures ColumnSums(shares, n)(a) == currents(a)
    {
      CurrentOfConductor(n, station, m, v, r, a);
    }
    SumSame(width, ColumnSums(shares, n), currents);
  }

  function Gathered(station: seq<Node>, w: Vector, v: Vector): Matrix {
    (r: nat, a: nat) => v(r) * Collected(station, w, r)(a)
  }

  lemma PowerEntry(station: seq<Node>, w: Vector, v: Vector, r: nat, a: nat)
    requires a < |station|
    ensures Column(Gathered(station, w, v), a)(r) == if station[a] == At(r) then v(r) * w(a) else 0.0
  {
    var collected := Collected(station, w, r)(a);
    if station[a] == At(r) {
      assert collected == w(a);
    } else {
      assert collected == 0.0;
      ZeroTimes(v(r));
    }
  }

  lemma PowerOfConductor(n: nat, station: seq<Node>, w: Vector, v: Vector, a: nat)
    requires AllInside(station, n) && a < |station|
    ensures Sum(n, Column(Gathered(station, w, v), a)) == Seen(station, v)(a) * w(a)
  {
    var column := Column(Gathered(station, w, v), a);
    forall r: nat | r < n
      ensures column(r) == if station[a] == At(r) then v(r) * w(a) else 0.0
    {
      PowerEntry(station, w, v, r, a);
    }
    ZeroTimes(w(a));
    assert Inside(station[a], n);
    if station[a].At? { SumOne(n, column, station[a].row); } else { SumZero(n, column); }
  }

  lemma PowerOfNet(station: seq<Node>, w: Vector, v: Vector, r: nat)
    ensures Sum(|station|, Row(Gathered(station, w, v), r)) == v(r) * Sum(|station|, Collected(station, w, r))
  {
    SumTimes(|station|, v(r), Collected(station, w, r), Row(Gathered(station, w, v), r));
  }

  /** Power is the same counted by nets or by conductors. */
  lemma PowerByConductor(n: nat, station: seq<Node>, w: Vector, v: Vector, current: Vector)
    requires AllInside(station, n) && forall r: nat :: r < n ==> current(r) == Sum(|station|, Collected(station, w, r))
    ensures Dot(n, v, current) == Dot(|station|, Seen(station, v), w)
  {
    var power, width := Gathered(station, w, v), |station|;
    var byNet, byConductor := Products(v, current), Products(Seen(station, v), w);
    forall r: nat | r < n
      ensures byNet(r) == RowSums(power, width)(r)
    {
      PowerOfNet(station, w, v, r);
    }
    SumSame(n, byNet, RowSums(power, width));
    SumSwap(n, width, power);
    forall a: nat | a < width
      ensures ColumnSums(power, n)(a) == byConductor(a)
    {
      PowerOfConductor(n, station, w, v, a);
    }
    SumSame(width, ColumnSums(power, n), byConductor);
  }

  /** A station's stamp has the form of its shunt matrix on the voltages its conductors see. */
  lemma StationForm(n: nat, station: seq<Node>, m: Matrix, v: Vector)
    requires AllInside(station, n)
    ensures Form(n, StationStamp(station, m), v, v) == Form(|station|, m, Seen(station, v), Seen(station, v))
  {
    var w := Apply(|station|, m, Seen(station, v));
    forall r: nat | r < n
      ensures Apply(n, StationStamp(station, m), v)(r) == Sum(|station|, Collected(station, w, r))
    {
      StationCurrent(n, station, m, v, r);
    }
    PowerByConductor(n, station, w, v, Apply(n, StationStamp(station, m), v));
  }

  lemma RowPlus(n: nat, a: Matrix, b: Matrix, v: Vector, r: nat)
    ensures Apply(n, Plus(a, b), v)(r) == Apply(n, a, v)(r) + Apply(n, b, v)(r)
  {
    DotBack(n, Row(Plus(a, b), r), v);
    DotBack(n, Row(a, r), v);
    DotBack(n, Row(b, r), v);
    DotPlus(n, v, Row(a, r), Row(b, r), Row(Plus(a, b), r));
  }

  lemma FormPlus(n: nat, a: Matrix, b: Matrix, v: Vector)
    ensures Form(n, Plus(a, b), v, v) == Form(n, a, v, v) + Form(n, b, v, v)
  {
    forall r: nat | r < n
      ensures Apply(n, Plus(a, b), v)(r) == Apply(n, a, v)(r) + Apply(n, b, v)(r)
    {
      RowPlus(n, a, b, v, r);
    }
    DotPlus(n, v, Apply(n, a, v), Apply(n, b, v), Apply(n, Plus(a, b), v));
  }

  lemma FormTimes(n: nat, x: real, a: Matrix, v: Vector)
    ensures Form(n, Times(x, a), v, v) == x * Form(n, a, v, v)
  {
    var whole, part := Apply(n, Times(x, a), v), Apply(n, a, v);
    forall r: nat | r < n
      ensures whole(r) == x * part(r)
    {
      RowTimes(n, x, a, v, r);
    }
    DotTimes(n, x, v, part, whole);
  }

  lemma RowTimes(n: nat, x: real, a: Matrix, v: Vector, r: nat)
    ensures Apply(n, Times(x, a), v)(r) == x * Apply(n, a, v)(r)
  {
    var f, g := Products(Row(a, r), v), Products(Row(Times(x, a), r), v);
    forall c: nat | c < n
      ensures g(c) == x * f(c)
    {
      Reorder(x, a(r, c), v(c));
    }
    SumTimes(n, x, f, g);
  }

  lemma FormZero(n: nat, v: Vector)
    ensures Form(n, Zero(), v, v) == 0.0
  {
    var image := Apply(n, Zero(), v);
    forall r: nat | r < n
      ensures image(r) == 0.0
    {
      DotBack(n, Row(Zero(), r), v);
      DotZero(n, v, Row(Zero(), r));
    }
    DotZero(n, v, image);
  }

  /** One half-section with every conductor at the same voltage along the line. */
  lemma HalfForm(n: nat, leaf: Leaf, m: Matrix, k: nat, v: Vector, u: Vector, width: nat)
    requires leaf.Line? && Valid(leaf) && k < |leaf.stations| && AllInside(leaf.stations[k], n) && |leaf.stations[k]| == width
    requires Alike(width, Seen(leaf.stations[k], v), u)
    ensures Form(n, StationStamp(leaf.stations[k], Times(Dx(leaf) / 2.0, m)), v, v) == Dx(leaf) / 2.0 * Form(width, m, u, u)
  {
    StationForm(n, leaf.stations[k], Times(Dx(leaf) / 2.0, m), v);
    FormTimes(width, Dx(leaf) / 2.0, m, Seen(leaf.stations[k], v));
    FormAlike(width, m, Seen(leaf.stations[k], v), u);
  }

  ghost predicate Alike(n: nat, x: Vector, y: Vector) {
    forall r: nat :: r < n ==> x(r) == y(r)
  }

  lemma FormAlike(n: nat, a: Matrix, x: Vector, y: Vector)
    requires Alike(n, x, y)
    ensures Form(n, a, x, x) == Form(n, a, y, y)
  {
    forall r: nat | r < n
      ensures Apply(n, a, x)(r) == Apply(n, a, y)(r)
    {
      DotSame(n, Row(a, r), x, Row(a, r), y);
    }
    DotSame(n, x, Apply(n, a, x), y, Apply(n, a, y));
  }

  function SectionForm(n: nat, leaf: Leaf, m: Matrix, k: nat, v: Vector): real
    requires leaf.Line? && Valid(leaf) && k <= Sections(leaf)
  {
    Form(n, LineStamp(leaf, m, k), v, v)
  }

  predicate Uniform(n: nat, leaf: Leaf, width: nat)
    requires leaf.Line?
  {
    forall i :: 0 <= i < |leaf.stations| ==> AllInside(leaf.stations[i], n) && |leaf.stations[i]| == width
  }

  /** One voltage along each conductor. */
  ghost predicate Level(leaf: Leaf, v: Vector, u: Vector, width: nat)
    requires leaf.Line?
  {
    forall i :: 0 <= i < |leaf.stations| ==> Alike(width, Seen(leaf.stations[i], v), u)
  }

  lemma {:induction false} SectionsForm(n: nat, leaf: Leaf, m: Matrix, k: nat, v: Vector, u: Vector, width: nat)
    requires leaf.Line? && Valid(leaf) && k <= Sections(leaf) && Uniform(n, leaf, width) && Level(leaf, v, u, width)
    ensures SectionForm(n, leaf, m, k, v) == k as real * Dx(leaf) * Form(width, m, u, u)
  {
    if k == 0 {
      NoSections(n, leaf, m, v);
      ZeroTimes(Dx(leaf));
      ZeroTimes(Form(width, m, u, u));
    } else {
      SectionsForm(n, leaf, m, k - 1, v, u, width);
      NextSection(n, leaf, m, k, v, u, width);
    }
  }

  lemma NoSections(n: nat, leaf: Leaf, m: Matrix, v: Vector)
    requires leaf.Line? && Valid(leaf)
    ensures SectionForm(n, leaf, m, 0, v) == 0.0
  {
    FormZero(n, v);
  }

  lemma NextSection(n: nat, leaf: Leaf, m: Matrix, k: nat, v: Vector, u: Vector, width: nat)
    requires leaf.Line? && Valid(leaf) && 0 < k <= Sections(leaf) && Uniform(n, leaf, width) && Level(leaf, v, u, width)
    requires SectionForm(n, leaf, m, k - 1, v) == (k - 1) as real * Dx(leaf) * Form(width, m, u, u)
    ensures SectionForm(n, leaf, m, k, v) == k as real * Dx(leaf) * Form(width, m, u, u)
  {
    hide SectionForm;
    OneSection(n, leaf, m, k, v, u, width);
    OneMoreSection(k, Dx(leaf), Form(width, m, u, u), SectionForm(n, leaf, m, k - 1, v));
  }

  lemma OneSection(n: nat, leaf: Leaf, m: Matrix, k: nat, v: Vector, u: Vector, width: nat)
    requires leaf.Line? && Valid(leaf) && 0 < k <= Sections(leaf) && Uniform(n, leaf, width) && Level(leaf, v, u, width)
    ensures SectionForm(n, leaf, m, k, v)
         == SectionForm(n, leaf, m, k - 1, v) + Dx(leaf) / 2.0 * Form(width, m, u, u) + Dx(leaf) / 2.0 * Form(width, m, u, u)
  {
    HalfForm(n, leaf, m, k - 1, v, u, width);
    HalfForm(n, leaf, m, k, v, u, width);
    TwoHalves(n, leaf, m, k, v);
  }

  lemma TwoHalves(n: nat, leaf: Leaf, m: Matrix, k: nat, v: Vector)
    requires leaf.Line? && Valid(leaf) && 0 < k <= Sections(leaf)
    ensures var half := Times(Dx(leaf) / 2.0, m);
      SectionForm(n, leaf, m, k, v) == SectionForm(n, leaf, m, k - 1, v)
        + Form(n, StationStamp(leaf.stations[k - 1], half), v, v) + Form(n, StationStamp(leaf.stations[k], half), v, v)
  {
    var half, before := Times(Dx(leaf) / 2.0, m), LineStamp(leaf, m, k - 1);
    FormPlus(n, before, StationStamp(leaf.stations[k - 1], half), v);
    FormPlus(n, Plus(before, StationStamp(leaf.stations[k - 1], half)), StationStamp(leaf.stations[k], half), v);
  }

  lemma OneMoreSection(k: nat, dx: real, form: real, before: real)
    requires k > 0 && before == (k - 1) as real * dx * form
    ensures before + dx / 2.0 * form + dx / 2.0 * form == k as real * dx * form
  {
    var j := (k - 1) as real;
    assert k as real == j + 1.0;
    assert dx / 2.0 * form + dx / 2.0 * form == dx * form;
    assert (j + 1.0) * dx == j * dx + dx;
    assert (j * dx + dx) * form == j * dx * form + dx * form;
  }

  /** With one voltage along each conductor a line stores its per-length form times its length,
      whatever the number of sections. */
  lemma LineTotal(n: nat, leaf: Leaf, m: Matrix, v: Vector, u: Vector, width: nat)
    requires leaf.Line? && Valid(leaf) && Uniform(n, leaf, width) && Level(leaf, v, u, width)
    ensures Form(n, LineStamp(leaf, m, Sections(leaf)), v, v) == leaf.length * Form(width, m, u, u)
  {
    SectionsForm(n, leaf, m, Sections(leaf), v, u, width);
    HalfDx(leaf);
  }

  // ---- In-place assembly ------------------------------------------------------------------------------------

  /** The array holds the matrix. */
  ghost predicate Holds(a: array2<real>, m: Matrix)
    reads a
  {
    forall r: nat, c: nat :: r < a.Length0 && c < a.Length1 ==> a[r, c] == m(r, c)
  }

  /** Adds a stamp to a matrix in place, entry by entry. */
  method AddStamp(a: array2<real>, stamp: Matrix, ghost before: Matrix)
    requires Holds(a, before)
    modifies a
    ensures Holds(a, Plus(before, stamp))
  {
    var r: nat := 0;
    while r < a.Length0
      invariant r <= a.Length0
      invariant forall i: nat, j: nat :: i < r && j < a.Length1 ==> a[i, j] == before(i, j) + stamp(i, j)
      invariant forall i: nat, j: nat :: r <= i < a.Length0 && j < a.Length1 ==> a[i, j] == before(i, j)
    {
      var c: nat := 0;
      while c < a.Length1
        invariant c <= a.Length1
        invariant forall i: nat, j: nat :: i < r && j < a.Length1 ==> a[i, j] == before(i, j) + stamp(i, j)
        invariant forall j: nat :: j < c ==> a[r, j] == before(r, j) + stamp(r, j)
        invariant forall j: nat :: c <= j < a.Length1 ==> a[r, j] == before(r, j)
        invariant forall i: nat, j: nat :: r < i < a.Length0 && j < a.Length1 ==> a[i, j] == before(i, j)
      {
        a[r, c] := a[r, c] + stamp(r, c);
        c := c + 1;
      }
      r := r + 1;
    }
  }

  /** One pi section: half its shunt at each of its two stations. */
  method AddSection(a: array2<real>, leaf: Leaf, m: Matrix, k: nat, ghost before: Matrix)
    requires leaf.Line? && Valid(leaf) && k < Sections(leaf) && Holds(a, Plus(before, LineStamp(leaf, m, k)))
    modifies a
    ensures Holds(a, Plus(before, LineStamp(leaf, m, k + 1)))
  {
    var half := Times(Dx(leaf) / 2.0, m);
    ghost var sofar := Plus(before, LineStamp(leaf, m, k));
    ghost var left := StationStamp(leaf.stations[k], half);
    AddStamp(a, StationStamp(leaf.stations[k], half), sofar);
    AddStamp(a, StationStamp(leaf.stations[k + 1], half), Plus(sofar, left));
    ghost var right := StationStamp(leaf.stations[k + 1], half);
    forall r: nat, c: nat
      ensures Plus(before, LineStamp(leaf, m, k + 1))(r, c) == Plus(Plus(sofar, left), right)(r, c)
    {
    }
  }

  /** A line's pi sections in order. */
  method AddLine(a: array2<real>, leaf: Leaf, m: Matrix, ghost before: Matrix)
    requires leaf.Line? && Valid(leaf) && Holds(a, before)
    modifies a
    ensures Holds(a, Plus(before, LineStamp(leaf, m, Sections(leaf))))
  {
    for k := 0 to Sections(leaf)
      invariant Holds(a, Plus(before, LineStamp(leaf, m, k)))
    {
      AddSection(a, leaf, m, k, before);
    }
  }

  /** The inductive branches of the first `n` leaves, in order. */
  function BranchesOf(leaves: seq<Leaf>, n: nat): (branches: seq<Inductance>)
    requires n <= |leaves|
  {
    if n == 0 then [] else BranchesOf(leaves, n - 1) + InductancesOf(leaves[n - 1])
  }

  function InductancesOf(leaf: Leaf): seq<Inductance> {
    if leaf.Junction? || leaf.Inductor? then leaf.inductances else []
  }

  /** The branches of one leaf, checked one after the other. */
  method CollectBranches(leaf: Leaf, before: seq<Inductance>) returns (ok: bool, branches: seq<Inductance>)
    ensures ok <==> AllPositive(InductancesOf(leaf))
    ensures ok ==> branches == before + InductancesOf(leaf)
  {
    branches := before;
    var own := if leaf.Junction? || leaf.Inductor? then leaf.inductances else [];
    for k := 0 to |own|
      invariant branches == before + own[..k]
      invariant forall j :: 0 <= j < k ==> own[j].henry > 0.0
    {
      if own[k].henry <= 0.0 { return false, branches; }
      branches := branches + [own[k]];
    }
    ok := true;
  }

  /** The element value checks before the inductive branches. */
  predicate ValueValid(leaf: Leaf) {
    match leaf
    case Capacitor(_, _, farad) => farad > 0.0
    case Resistor(_, _, ohm) => ohm > 0.0
    case Junction(_, _, farad, _) => farad >= 0.0
    case Inductor(_) => true
    case Line(stations, _, _, length) => |stations| > 1 && length > 0.0
  }

  /** The checks of one leaf, and its inductive branches after those before it. */
  method CheckLeaf(leaf: Leaf, before: seq<Inductance>) returns (ok: bool, branches: seq<Inductance>)
    ensures ok <==> Valid(leaf)
    ensures ok ==> branches == before + InductancesOf(leaf)
  {
    if !ValueValid(leaf) { return false, before; }
    ok, branches := CollectBranches(leaf, before);
  }

  method Zeroed(n: nat) returns (a: array2<real>)
    ensures fresh(a) && a.Length0 == a.Length1 == n && Holds(a, Zero())
  {
    a := new real[n, n]((_, _) => 0.0);
  }

  /** `compile_model`'s assembly over zeroed matrices, up to the inductance matrices: an invalid element
      value or inductance stops it. */
  method AssembleShunts(leaves: seq<Leaf>, n: nat)
    returns (ok: bool, c: array2<real>, g: array2<real>, branches: seq<Inductance>)
    ensures ok <==> forall i :: 0 <= i < |leaves| ==> Valid(leaves[i])
    ensures fresh(c) && fresh(g) && c.Length0 == c.Length1 == n && g.Length0 == g.Length1 == n
    ensures ok ==> Holds(c, Assembled(leaves, |leaves|).0) && Holds(g, Assembled(leaves, |leaves|).1)
    ensures ok ==> branches == BranchesOf(leaves, |leaves|)
  {
    hide Holds, Valid, Plus, InductancesOf;
    c := Zeroed(n);
    g := Zeroed(n);
    branches := [];
    for k := 0 to |leaves|
      invariant forall i :: 0 <= i < k ==> Valid(leaves[i])
      invariant c != g && Holds(c, Assembled(leaves, k).0) && Holds(g, Assembled(leaves, k).1)
      invariant branches == BranchesOf(leaves, k)
    {
      ok, branches := CheckLeaf(leaves[k], branches);
      if !ok { return; }
      AddNext(c, g, leaves, k);
    }
    ok := true;
  }

  method AddNext(c: array2<real>, g: array2<real>, leaves: seq<Leaf>, k: nat)
    requires k < |leaves| && (forall i :: 0 <= i <= k ==> Valid(leaves[i])) && c != g
    requires Holds(c, Assembled(leaves, k).0) && Holds(g, Assembled(leaves, k).1)
    modifies c, g
    ensures Holds(c, Assembled(leaves, k + 1).0) && Holds(g, Assembled(leaves, k + 1).1)
  {
    AddLeaf(c, g, leaves[k], Assembled(leaves, k).0, Assembled(leaves, k).1);
  }

  method AddLeaf(c: array2<real>, g: array2<real>, leaf: Leaf, ghost beforeC: Matrix, ghost beforeG: Matrix)
    requires Valid(leaf) && c != g && Holds(c, beforeC) && Holds(g, beforeG)
    modifies c, g
    ensures Holds(c, Plus(beforeC, CapacitanceOf(leaf))) && Holds(g, Plus(beforeG, ConductanceOf(leaf)))
  {
    match leaf
    case Capacitor(p, q, farad) => AddStamp(c, BranchStamp(p, q, farad), beforeC);
    case Resistor(p, q, ohm) => AddStamp(g, BranchStamp(p, q, 1.0 / ohm), beforeG);
    case Junction(p, q, farad, _) => AddStamp(c, BranchStamp(p, q, farad), beforeC);
    case Inductor(_) =>
    case Line(_, capacitance, conductance, _) =>
      AddLine(c, leaf, capacitance, beforeC);
      AddLine(g, leaf, conductance, beforeG);
  }
}
