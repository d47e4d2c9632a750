/** The two readings of the reduction language agree. */
module ViewSoundness {
  // What is derived symbolically replays numerically, and what is marked Port-realizable passes
  // the rank test.

  import opened Common
  import opened Names
  import opened Linear
  import opened Congruence
  import opened Reduce
  import opened Realize

  // ---- Independence by dual vectors -----------------------------------------------------------------

  /** A combination of Port rows. */
  function Combined(rows: seq<Vector>, m: nat, weights: Vector): Vector
    requires m <= |rows|
  {
    if m == 0 then (_: nat) => 0.0
    else
      var before, last, weight := Combined(rows, m - 1, weights), rows[m - 1], weights(m - 1);
      (q: nat) => before(q) + weight * last(q)
  }

  /** Only the zero combination vanishes: the rank of the rows is their number. */
  ghost predicate Independent(width: nat, rows: seq<Vector>) {
    forall weights: Vector :: Vanishes(width, rows, weights) ==> AllZero(|rows|, weights)
  }

  ghost predicate Vanishes(width: nat, rows: seq<Vector>, weights: Vector) {
    forall q: nat :: q < width ==> Combined(rows, |rows|, weights)(q) == 0.0
  }

  ghost predicate AllZero(m: nat, weights: Vector) {
    forall k: nat :: k < m ==> weights(k) == 0.0
  }

  function WeightedDots(width: nat, rows: seq<Vector>, weights: Vector, d: Vector): Vector {
    (k: nat) => if k < |rows| then weights(k) * Dot(width, d, rows[k]) else 0.0
  }

  function Scaled(weight: real, v: Vector): Vector {
    (q: nat) => weight * v(q)
  }

  lemma {:induction false} CombinedMeets(width: nat, rows: seq<Vector>, m: nat, weights: Vector, d: Vector)
    requires m <= |rows|
    ensures Dot(width, d, Combined(rows, m, weights)) == Sum(m, WeightedDots(width, rows, weights, d))
  {
    if m == 0 {
      DotZero(width, d, Combined(rows, 0, weights));
    } else {
      CombinedMeets(width, rows, m - 1, weights, d);
      DotTimes(width, weights(m - 1), d, rows[m - 1], Scaled(weights(m - 1), rows[m - 1]));
      DotPlus(width, d, Combined(rows, m - 1, weights), Scaled(weights(m - 1), rows[m - 1]), Combined(rows, m, weights));
    }
  }

  function Unit(same: bool): real {
    if same then 1.0 else 0.0
  }

  /** `duals` picks each row of `names` out of the others. */
  ghost predicate Dual(width: nat, maps: map<string, Vector>, duals: map<string, Vector>, names: set<string>) {
    && names <= maps.Keys && names <= duals.Keys
    && forall x, y :: x in names && y in names ==> Dot(width, duals[x], maps[y]) == Unit(x == y)
  }

  function RowsOf(maps: map<string, Vector>, terminals: seq<string>): (rows: seq<Vector>)
    requires forall name :: name in terminals ==> name in maps
    ensures |rows| == |terminals| && forall k :: 0 <= k < |rows| ==> terminals[k] in maps && rows[k] == maps[terminals[k]]
  {
    seq(|terminals|, k requires 0 <= k < |terminals| => assert terminals[k] in terminals; maps[terminals[k]])
  }

  lemma DualsSeparate(width: nat, maps: map<string, Vector>, duals: map<string, Vector>, names: set<string>, terminals: seq<string>)
    requires Dual(width, maps, duals, names) && Distinct(terminals) && forall name :: name in terminals ==> name in names
    ensures Independent(width, RowsOf(maps, terminals))
  {
    var rows := RowsOf(maps, terminals);
    forall weights: Vector | Vanishes(width, rows, weights)
      ensures AllZero(|rows|, weights)
    {
      forall k: nat | k < |rows|
        ensures weights(k) == 0.0
      {
        WeightVanishes(width, maps, duals, names, terminals, weights, k);
      }
    }
  }

  lemma WeightVanishes(width: nat, maps: map<string, Vector>, duals: map<string, Vector>, names: set<string>,
                       terminals: seq<string>, weights: Vector, k: nat)
    requires Dual(width, maps, duals, names) && Distinct(terminals) && forall name :: name in terminals ==> name in names
    requires Vanishes(width, RowsOf(maps, terminals), weights) && k < |terminals|
    ensures weights(k) == 0.0
  {
    var rows, d := RowsOf(maps, terminals), duals[terminals[k]];
    CombinedMeets(width, rows, |rows|, weights, d);
    DotZero(width, d, Combined(rows, |rows|, weights));
    var f := WeightedDots(width, rows, weights, d);
    forall m: nat | m < |rows|
      ensures f(m) == if m == k then weights(k) else 0.0
    {
      assert Dot(width, duals[terminals[k]], maps[terminals[m]]) == Unit(terminals[k] == terminals[m]);
    }
    SumOne(|rows|, f, k);
  }

  // ---- Duals through a pair transform ---------------------------------------------------------------

  lemma DotMix(n: nat, d: Vector, a: Vector, b: Vector, x: real, y: real, c: Vector)
    requires forall i: nat :: i < n ==> c(i) == x * a(i) + y * b(i)
    ensures Dot(n, d, c) == x * Dot(n, d, a) + y * Dot(n, d, b)
    ensures Dot(n, c, d) == x * Dot(n, a, d) + y * Dot(n, b, d)
  {
    var first: Vector := (i: nat) => x * a(i);
    var second: Vector := (i: nat) => y * b(i);
    DotTimes(n, x, d, a, first);
    DotTimes(n, y, d, b, second);
    DotPlus(n, d, first, second, c);
    DotBack(n, d, a);
    DotBack(n, d, b);
    DotBack(n, d, c);
  }

  function Mixed(a: Vector, b: Vector, x: real, y: real): Vector {
    (q: nat) => x * a(q) + y * b(q)
  }

  /** The duals of the two outputs: the sum, and the weighted difference the other way round. */
  function PairDuals(duals: map<string, Vector>, t: Transform, alpha: real, beta: real): map<string, Vector>
    requires t.left in duals && t.right in duals
  {
    duals[t.common := Mixed(duals[t.left], duals[t.right], 1.0, 1.0)]
         [t.differential := Mixed(duals[t.left], duals[t.right], beta, -alpha)]
  }

  lemma SumDual(n: nat, u: Vector, v: Vector, a: Vector, b: Vector, alpha: real, beta: real, c: Vector, d: Vector)
    requires Dot(n, u, a) == 1.0 && Dot(n, u, b) == 0.0 && Dot(n, v, a) == 0.0 && Dot(n, v, b) == 1.0 && alpha + beta == 1.0
    requires forall i: nat :: i < n ==> c(i) == alpha * a(i) + beta * b(i)
    requires forall i: nat :: i < n ==> d(i) == 1.0 * a(i) + -1.0 * b(i)
    ensures Dot(n, u, c) == alpha && Dot(n, v, c) == beta && Dot(n, u, d) == 1.0 && Dot(n, v, d) == -1.0
    ensures Dot(n, Mixed(u, v, 1.0, 1.0), c) == 1.0 && Dot(n, Mixed(u, v, 1.0, 1.0), d) == 0.0
  {
    DotMix(n, u, a, b, alpha, beta, c);
    DotMix(n, v, a, b, alpha, beta, c);
    DotMix(n, u, a, b, 1.0, -1.0, d);
    DotMix(n, v, a, b, 1.0, -1.0, d);
    DotMix(n, c, u, v, 1.0, 1.0, Mixed(u, v, 1.0, 1.0));
    DotMix(n, d, u, v, 1.0, 1.0, Mixed(u, v, 1.0, 1.0));
  }

  lemma DifferenceDual(n: nat, u: Vector, v: Vector, alpha: real, beta: real, c: Vector, d: Vector)
    requires Dot(n, u, c) == alpha && Dot(n, v, c) == beta && Dot(n, u, d) == 1.0 && Dot(n, v, d) == -1.0 && alpha + beta == 1.0
    ensures Dot(n, Mixed(u, v, beta, -alpha), c) == 0.0 && Dot(n, Mixed(u, v, beta, -alpha), d) == 1.0
  {
    DotMix(n, c, u, v, beta, -alpha, Mixed(u, v, beta, -alpha));
    DotMix(n, d, u, v, beta, -alpha, Mixed(u, v, beta, -alpha));
  }

  /** Another row meets neither new dual, and the new rows meet no other dual. */
  lemma OtherDuals(n: nat, u: Vector, v: Vector, a: Vector, b: Vector, alpha: real, beta: real, c: Vector, d: Vector, x: Vector, dx: Vector)
    requires Dot(n, u, x) == 0.0 && Dot(n, v, x) == 0.0 && Dot(n, dx, a) == 0.0 && Dot(n, dx, b) == 0.0
    requires forall i: nat :: i < n ==> c(i) == alpha * a(i) + beta * b(i)
    requires forall i: nat :: i < n ==> d(i) == 1.0 * a(i) + -1.0 * b(i)
    ensures Dot(n, Mixed(u, v, 1.0, 1.0), x) == 0.0 && Dot(n, Mixed(u, v, beta, -alpha), x) == 0.0
    ensures Dot(n, dx, c) == 0.0 && Dot(n, dx, d) == 0.0
  {
    DotMix(n, x, u, v, 1.0, 1.0, Mixed(u, v, 1.0, 1.0));
    DotMix(n, x, u, v, beta, -alpha, Mixed(u, v, beta, -alpha));
    DotMix(n, dx, a, b, alpha, beta, c);
    DotMix(n, dx, a, b, 1.0, -1.0, d);
  }

  /** Transforming a pair of Port rows keeps all Port rows separated. */
  lemma PairKeepsDual(width: nat, maps: map<string, Vector>, duals: map<string, Vector>, names: set<string>, t: Transform,
                      alpha: real, beta: real)
    requires Dual(width, maps, duals, names) && t.left in names && t.right in names && t.left != t.right
    requires t.common !in names && t.differential !in names && t.common != t.differential && alpha + beta == 1.0
    ensures Dual(width, Remapped(maps, t, alpha, beta), PairDuals(duals, t, alpha, beta), names - {t.left, t.right} + {t.common, t.differential})
  {
    var after, others := Remapped(maps, t, alpha, beta), names - {t.left, t.right};
    var c, d := after[t.common], after[t.differential];
    var u, v, a, b := duals[t.left], duals[t.right], maps[t.left], maps[t.right];
    assert Dot(width, u, a) == Unit(true) && Dot(width, v, b) == Unit(true);
    assert Dot(width, u, b) == Unit(false) && Dot(width, v, a) == Unit(false);
    SumDual(width, u, v, a, b, alpha, beta, c, d);
    DifferenceDual(width, u, v, alpha, beta, c, d);
    forall x | x in others
      ensures Dot(width, Mixed(u, v, 1.0, 1.0), maps[x]) == 0.0 && Dot(width, Mixed(u, v, beta, -alpha), maps[x]) == 0.0
      ensures Dot(width, duals[x], c) == 0.0 && Dot(width, duals[x], d) == 0.0
    {
      assert Dot(width, u, maps[x]) == Unit(t.left == x) && Dot(width, v, maps[x]) == Unit(t.right == x);
      assert Dot(width, duals[x], a) == Unit(x == t.left) && Dot(width, duals[x], b) == Unit(x == t.right);
      OtherDuals(width, u, v, a, b, alpha, beta, c, d, maps[x], duals[x]);
    }
  }

  lemma DropKeepsDual(width: nat, maps: map<string, Vector>, duals: map<string, Vector>, names: set<string>, t: Transform,
                      alpha: real, beta: real)
    requires Dual(width, maps, duals, names) && t.left in maps && t.right in maps
    requires t.common !in names && t.differential !in names
    ensures Dual(width, Remapped(maps, t, alpha, beta), duals, names - {t.left, t.right})
  {
  }

  // ---- A view and the network it stands for -----------------------------------------------------------

  /** A name no transform generates. */
  predicate Plain(id: string) {
    !Ends(id, ".common") && !Ends(id, ".differential")
  }

  predicate Ends(id: string, suffix: string) {
    |suffix| <= |id| && id[|id| - |suffix|..] == suffix
  }

  lemma GeneratedIds(id: string)
    ensures !Plain(CommonId(id)) && !Plain(DifferentialId(id)) && CommonId(id) != DifferentialId(id)
  {
    assert CommonId(id)[|id|..] == ".common";
    assert DifferentialId(id)[|id|..] == ".differential";
  }

  /** The current coordinates can be looked up, names do not clash, the Port coordinates are the
      ones with a load state, there are no more of them than Ports, and their rows are separated. */
  ghost predicate Matches(plan: Plan, width: nat, view: View, net: Network) {
    Distinct(net.ids) && Listed(view.available, net.ids, net.maps.Keys, plan.lookup.Keys) && PortsMatch(width, view, net.maps)
  }

  /** Every current coordinate can be looked up, and every other name is an old or a plain one. */
  ghost predicate Listed(available: seq<string>, ids: seq<string>, maps: set<string>, lookup: set<string>) {
    && (forall name :: name in available ==> name in ids && name in maps)
    && (forall name :: name in ids ==> name in available || name in lookup || Plain(name))
  }

  ghost predicate PortsMatch(width: nat, view: View, maps: map<string, Vector>) {
    LoadsMatch(view) && PortRows(width, view.ports.Keys, maps)
  }

  ghost predicate LoadsMatch(view: View) {
    && (forall name :: name in view.ports ==> name in view.available)
    && (forall name :: name in view.available ==> (name in view.ports <==> LoadOf(view.loads, name) != NotPort))
  }

  /** No more names than Ports, and their rows are separated. */
  ghost predicate PortRows(width: nat, names: set<string>, maps: map<string, Vector>) {
    |names| <= width && exists duals :: Dual(width, maps, duals, names)
  }

  lemma ReplacedMembers(available: seq<string>, left: string, right: string, common: string, differential: string)
    ensures forall name :: name in Replaced(available, left, right, common, differential) <==>
      (name in available && name != left && name != right) || name == common || name == differential
  {
    var rest := Without(available, left, right);
    var at := Min(Min(IndexOf(available, left), IndexOf(available, right)), |rest|);
    WithoutMembers(available, left, right);
    InsertedMembers(rest, at, common, differential);
  }

  predicate Freshly(view: View, ids: seq<string>, t: Transform) {
    t.common !in view.available && t.differential !in view.available && t.common !in ids && t.differential !in ids && t.common != t.differential
  }

  /** The outputs of an allowed pair are new names. */
  lemma OutputsFresh(plan: Plan, width: nat, view: View, net: Network, left: string, right: string, id: string)
    requires Matches(plan, width, view, net) && PairAllowed(plan, view, left, right, id)
    ensures Freshly(view, net.ids, Transform(id, left, right, CommonId(id), DifferentialId(id)))
  {
    GeneratedIds(id);
  }

  function Generated(id: string, left: string, right: string): Transform {
    Transform(id, left, right, CommonId(id), DifferentialId(id))
  }

  /** The names of the transformed network. */
  lemma ListedPair(available: seq<string>, ids: seq<string>, maps: set<string>, lookup: set<string>, t: Transform)
    requires Listed(available, ids, maps, lookup) && t.left in ids && t.right in ids
    ensures Listed(Replaced(available, t.left, t.right, t.common, t.differential), Without(ids, t.left, t.right) + [t.common, t.differential],
      maps + {t.common, t.differential} - ({t.left, t.right} - {t.common, t.differential}), lookup)
  {
    ReplacedMembers(available, t.left, t.right, t.common, t.differential);
    WithoutMembers(ids, t.left, t.right);
  }

  lemma DistinctPair(ids: seq<string>, t: Transform)
    requires Distinct(ids) && t.left in ids && t.right in ids && t.left != t.right
    requires t.common !in ids && t.differential !in ids && t.common != t.differential
    ensures Distinct(Without(ids, t.left, t.right) + [t.common, t.differential])
  {
    WithoutMembers(ids, t.left, t.right);
    DistinctPositions(ids, t.left, t.right);
  }

  lemma DistinctPositions(names: seq<string>, left: string, right: string)
    requires Distinct(names) && left in names && right in names && left != right
    ensures Distinct(Without(names, left, right))
  {
    WithoutTwo(names, left, right);
    var i, j, rest := IndexOf(names, left), IndexOf(names, right), Without(names, left, right);
    forall k, m | 0 <= k < m < |rest|
      ensures rest[k] != rest[m]
    {
      assert Skip(k, i, j) < Skip(m, i, j);
    }
  }

  lemma SameSize(keys: set<string>, left: string, right: string, c: string, d: string)
    requires left in keys && right in keys && left != right && c !in keys && d !in keys && c != d
    ensures |keys - {left, right} + {c, d}| == |keys|
  {
    var rest := keys - {left, right};
    assert |rest| == |keys| - 2 by { assert keys == rest + {left, right}; }
    assert |rest + {c, d}| == |rest| + 2;
  }

  lemma FewerKeys(keys: set<string>, gone: set<string>)
    ensures |keys - gone| <= |keys|
  {
    assert keys == (keys - gone) + (keys * gone);
  }

  lemma RowsBoth(width: nat, names: set<string>, maps: map<string, Vector>, t: Transform, alpha: real, beta: real)
    requires PortRows(width, names, maps) && t.left in names && t.right in names && t.left != t.right
    requires t.common !in names && t.differential !in names && t.common != t.differential && alpha + beta == 1.0
    ensures t.left in maps && t.right in maps
    ensures PortRows(width, names - {t.left, t.right} + {t.common, t.differential}, Remapped(maps, t, alpha, beta))
  {
    var duals :| Dual(width, maps, duals, names);
    PairKeepsDual(width, maps, duals, names, t, alpha, beta);
    SameSize(names, t.left, t.right, t.common, t.differential);
  }

  lemma RowsFewer(width: nat, names: set<string>, maps: map<string, Vector>, t: Transform, alpha: real, beta: real)
    requires PortRows(width, names, maps) && t.left in maps && t.right in maps
    requires t.common !in names && t.differential !in names
    ensures PortRows(width, names - {t.left, t.right}, Remapped(maps, t, alpha, beta))
  {
    var duals :| Dual(width, maps, duals, names);
    DropKeepsDual(width, maps, duals, names, t, alpha, beta);
    FewerKeys(names, {t.left, t.right});
  }

  /** The transformed coordinates are Ports exactly when both inputs were. */
  lemma PortsMatchPair(width: nat, view: View, maps: map<string, Vector>, left: string, right: string, id: string, alpha: real, beta: real)
    requires PortsMatch(width, view, maps) && left in view.available && right in view.available && left != right
    requires left in maps && right in maps && alpha + beta == 1.0
    requires CommonId(id) !in view.available && DifferentialId(id) !in view.available && CommonId(id) != DifferentialId(id)
    requires LoadOf(view.loads, left) == LoadOf(view.loads, right) || LoadOf(view.loads, left).NotPort? || LoadOf(view.loads, right).NotPort?
    ensures PortsMatch(width, Paired(view, left, right, id), Remapped(maps, Generated(id, left, right), alpha, beta))
  {
    var t := Generated(id, left, right);
    PairedPorts(view, left, right, id);
    if LoadOf(view.loads, left) == LoadOf(view.loads, right) && left in view.ports {
      RowsBoth(width, view.ports.Keys, maps, t, alpha, beta);
    } else {
      RowsFewer(width, view.ports.Keys, maps, t, alpha, beta);
    }
    LoadsMatchPair(view, left, right, id);
  }

  lemma PairedPorts(view: View, left: string, right: string, id: string)
    requires LoadsMatch(view) && left in view.available && right in view.available
    ensures var keys, both := view.ports.Keys - {left, right}, LoadOf(view.loads, left) == LoadOf(view.loads, right) && left in view.ports;
      && Paired(view, left, right, id).ports.Keys == (if both then keys + {CommonId(id), DifferentialId(id)} else keys)
      && (both ==> right in view.ports)
  {
  }

  lemma LoadsMatchPair(view: View, left: string, right: string, id: string)
    requires left in view.available && right in view.available && LoadsMatch(view)
    requires CommonId(id) !in view.available && DifferentialId(id) !in view.available && CommonId(id) != DifferentialId(id)
    ensures LoadsMatch(Paired(view, left, right, id))
  {
    ReplacedMembers(view.available, left, right, CommonId(id), DifferentialId(id));
  }

  lemma RemappedKeys(maps: map<string, Vector>, t: Transform, alpha: real, beta: real)
    requires t.left in maps && t.right in maps && t.common != t.left && t.common != t.right
    requires t.differential != t.left && t.differential != t.right
    ensures Remapped(maps, t, alpha, beta).Keys == maps.Keys + {t.common, t.differential} - ({t.left, t.right} - {t.common, t.differential})
  {
  }

  lemma ChangedMatches(plan: Plan, width: nat, view: View, net: Network, t: Transform, i: nat, j: nat)
    requires Matches(plan, width, view, net) && PairAllowed(plan, view, t.left, t.right, t.id) && t == Generated(t.id, t.left, t.right)
    requires i == IndexOf(net.ids, t.left) && j == IndexOf(net.ids, t.right) && i != j && |net.ids| >= 2
    requires Found(net, t) && GoodCut(Cut(net.c, i, j), Cut(net.c, j, i))
    ensures Matches(plan, width, Paired(view, t.left, t.right, t.id), Changed(net, t, i, j))
  {
    hide PortsMatch;
    var alpha, beta := Weight(net, i, j), Weight(net, j, i);
    OutputsFresh(plan, width, view, net, t.left, t.right, t.id);
    WeightsSum(Cut(net.c, i, j), Cut(net.c, j, i));
    ListedPair(view.available, net.ids, net.maps.Keys, plan.lookup.Keys, t);
    DistinctPair(net.ids, t);
    PortsMatchPair(width, view, net.maps, t.left, t.right, t.id, alpha, beta);
    RemappedKeys(net.maps, t, alpha, beta);
  }

  /** A pair the symbolic reading allows is found by the numerical one, and both stay matched. */
  lemma PairMatches(plan: Plan, width: nat, view: View, net: Network, left: string, right: string, id: string)
    requires Matches(plan, width, view, net) && PairAllowed(plan, view, left, right, id)
    ensures var step := TransformStep(net, Generated(id, left, right));
      !step.Unknown? && (step.Done? ==> Matches(plan, width, Paired(view, left, right, id), step.net))
  {
    var t := Generated(id, left, right);
    assert Found(net, t);
    if TransformStep(net, t).Done? {
      ChangedMatches(plan, width, view, net, t, IndexOf(net.ids, left), IndexOf(net.ids, right));
    }
  }

  // ---- Whole derivations --------------------------------------------------------------------------------

  /** Replaying the view's transforms on the compiled network never fails a lookup; where every
      pair has a proper cut the result matches the view. */
  ghost predicate Follows(plan: Plan, width: nat, start: Network, view: View) {
    var replayed := Replay(start, view.transforms, |view.transforms|);
    Clean(start, view.transforms) && !replayed.Unknown? && (replayed.Done? ==> Matches(plan, width, view, replayed.net))
  }

  /** No network on the way has two coordinates of one name. */
  ghost predicate Clean(start: Network, transforms: seq<Transform>) {
    forall n: nat :: n <= |transforms| ==> CleanAt(Replay(start, transforms, n))
  }

  predicate CleanAt(replayed: Realized) {
    replayed.Done? ==> Distinct(replayed.net.ids)
  }

  lemma CleanNext(start: Network, transforms: seq<Transform>, t: Transform)
    requires Clean(start, transforms) && CleanAt(Replay(start, transforms + [t], |transforms| + 1))
    ensures Clean(start, transforms + [t])
  {
    forall n: nat | n <= |transforms| + 1
      ensures CleanAt(Replay(start, transforms + [t], n))
    {
      if n <= |transforms| {
        ReplayPrefix(TransformStep, start, transforms, [t], n);
        assert CleanAt(Replay(start, transforms, n));
      }
    }
  }

  lemma ReplayNext(step: Transformer, start: Network, transforms: seq<Transform>, t: Transform)
    ensures var before := ReplayBy(step, start, transforms, |transforms|);
      ReplayBy(step, start, transforms + [t], |transforms| + 1) == if before.Done? then step(before.net, t) else before
  {
    ReplayPrefix(step, start, transforms, [t], |transforms|);
  }

  lemma {:induction false} ReplayPrefix(step: Transformer, start: Network, a: seq<Transform>, b: seq<Transform>, n: nat)
    requires n <= |a|
    ensures ReplayBy(step, start, a + b, n) == ReplayBy(step, start, a, n)
  {
    if n > 0 { ReplayPrefix(step, start, a, b, n - 1); }
  }

  lemma PairedFollows(plan: Plan, width: nat, start: Network, view: View, left: string, right: string, id: string)
    requires Follows(plan, width, start, view) && PairAllowed(plan, view, left, right, id)
    ensures Follows(plan, width, start, Paired(view, left, right, id))
  {
    var before := Replay(start, view.transforms, |view.transforms|);
    ReplayNext(TransformStep, start, view.transforms, Generated(id, left, right));
    if before.Done? {
      PairMatches(plan, width, view, before.net, left, right, id);
    }
    CleanNext(start, view.transforms, Generated(id, left, right));
  }

  lemma PairFollows(plan: Plan, width: nat, start: Network, view: View, pair: Pair)
    requires Follows(plan, width, start, view) && PairStep(plan, view, pair).Some?
    ensures Follows(plan, width, start, PairStep(plan, view, pair).value)
  {
    PairedFollows(plan, width, start, view, Resolve(plan, view.available, pair.left).value,
      Resolve(plan, view.available, pair.right).value, pair.id);
  }

  type Invariant = View -> bool

  ghost function FollowsFor(plan: Plan, width: nat, start: Network): Invariant {
    (view: View) => Follows(plan, width, start, view)
  }

  lemma {:induction false} PairsKeepInvariant(step: Step, holds: Invariant, view: View, pairs: seq<Pair>, n: nat)
    requires n <= |pairs| && holds(view) && PairSteps(step, view, pairs, n).Some?
    requires forall v: View, p: Pair :: holds(v) && step(v, p).Some? ==> holds(step(v, p).value)
    ensures holds(PairSteps(step, view, pairs, n).value)
  {
    if n > 0 { PairsKeepInvariant(step, holds, view, pairs, n - 1); }
  }

  lemma PairsFollow(plan: Plan, width: nat, start: Network, view: View, pairs: seq<Pair>)
    requires Follows(plan, width, start, view) && PairSteps(StepFor(plan), view, pairs, |pairs|).Some?
    ensures Follows(plan, width, start, PairSteps(StepFor(plan), view, pairs, |pairs|).value)
  {
    var holds := FollowsFor(plan, width, start);
    forall v: View, p: Pair | holds(v) && StepFor(plan)(v, p).Some?
      ensures holds(StepFor(plan)(v, p).value)
    {
      PairFollows(plan, width, start, v, p);
    }
    PairsKeepInvariant(StepFor(plan), holds, view, pairs, |pairs|);
  }

  /** Compensation relabels Port coordinates and nothing else. */
  lemma PtcLoads(plan: Plan, view: View, ptc: Option<seq<Port>>)
    requires PtcStep(plan, view, ptc).Some?
    ensures var after := PtcStep(plan, view, ptc).value;
      && after.transforms == view.transforms && after.available == view.available && after.ports == view.ports
      && (LoadsMatch(view) ==> LoadsMatch(after))
  {
  }

  lemma PtcFollows(plan: Plan, width: nat, start: Network, view: View, after: View)
    requires Follows(plan, width, start, view)
    requires after.transforms == view.transforms && after.available == view.available && after.ports == view.ports
    requires LoadsMatch(view) ==> LoadsMatch(after)
    ensures Follows(plan, width, start, after)
  {
  }

  /** Every derivation of the symbolic reading replays in the numerical one. */
  lemma ReduceFollows(plan: Plan, width: nat, start: Network, view: View, p: Pipeline)
    requires Follows(plan, width, start, view) && Reduce.Reduce(plan, view, p).Some?
    ensures Follows(plan, width, start, Reduce.Reduce(plan, view, p).value)
  {
    var compensated := PtcStep(plan, view, p.ptc).value;
    PtcLoads(plan, view, p.ptc);
    PtcFollows(plan, width, start, view, compensated);
    PairsFollow(plan, width, start, compensated, p.pairs);
  }

  /** The sealed plan's root view: public coordinates of a duplicate-free network, and each Port on
      a coordinate of its own. */
  ghost predicate IsOriginal(plan: Plan, view: View, start: Network, sites: seq<string>) {
    && view.ptc.None? && view.transforms == [] && view.retained == []
    && Distinct(start.ids) && Listed(view.available, start.ids, start.maps.Keys, plan.lookup.Keys)
    && Distinct(sites) && |sites| == |plan.ports|
    && view.ports.Keys == (set name | name in sites) && view.loads == (map name | name in view.ports :: Raw)
    && (forall name :: name in sites ==> name in view.available)
    && UnitRows(sites, start.maps)
  }

  function Axis(k: nat): Vector {
    (q: nat) => if q == k then 1.0 else 0.0
  }

  ghost predicate UnitRows(sites: seq<string>, maps: map<string, Vector>) {
    forall k: nat :: k < |sites| ==> UnitRow(sites, maps, k)
  }

  ghost predicate UnitRow(sites: seq<string>, maps: map<string, Vector>, k: nat)
    requires k < |sites|
  {
    sites[k] in maps && forall q: nat :: q < |sites| ==> maps[sites[k]](q) == Unit(q == k)
  }

  /** Rows that are unit vectors are their own duals. */
  lemma AxesSeparate(sites: seq<string>, names: set<string>, maps: map<string, Vector>, duals: map<string, Vector>)
    requires UnitRows(sites, maps) && forall name :: name in names <==> name in sites
    requires names <= duals.Keys && forall name :: name in names ==> duals[name] == Axis(IndexOf(sites, name))
    ensures Dual(|sites|, maps, duals, names)
  {
    hide IndexOf;
    forall x, y | x in names && y in names
      ensures y in maps && Dot(|sites|, duals[x], maps[y]) == Unit(x == y)
    {
      AxisMeets(sites, maps, x, y);
    }
  }

  lemma AxisMeets(sites: seq<string>, maps: map<string, Vector>, x: string, y: string)
    requires UnitRows(sites, maps) && x in sites && y in sites
    ensures y in maps && Dot(|sites|, Axis(IndexOf(sites, x)), maps[y]) == Unit(x == y)
  {
    var k, m := IndexOf(sites, x), IndexOf(sites, y);
    assert UnitRow(sites, maps, m);
    MeetsAxis(|sites|, k, maps[y]);
  }

  lemma MeetsAxis(n: nat, k: nat, v: Vector)
    requires k < n
    ensures Dot(n, Axis(k), v) == v(k)
  {
    var axis := Axis(k);
    forall i: nat | i < n && i != k
      ensures axis(i) == 0.0
    {
    }
    DotOne(n, axis, v, k);
  }

  lemma OriginalFollows(plan: Plan, view: View, start: Network, sites: seq<string>)
    requires IsOriginal(plan, view, start, sites)
    ensures Follows(plan, |plan.ports|, start, view)
  {
    hide Dual;
    SitesCounted(sites, view.ports.Keys);
    var duals := map name | name in view.ports :: Axis(IndexOf(sites, name));
    AxesSeparate(sites, view.ports.Keys, start.maps, duals);
  }

  lemma {:induction false} SitesCounted(sites: seq<string>, names: set<string>)
    requires Distinct(sites) && names == set name | name in sites
    ensures |names| == |sites|
  {
    if sites != [] {
      var rest, last := sites[..|sites| - 1], sites[|sites| - 1];
      var fewer := set name | name in rest;
      SitesCounted(rest, fewer);
      assert sites == rest + [last];
      assert names == fewer + {last};
    }
  }

  /** What a retained view promises: its coordinates are current and unique. */
  predicate RetainedCurrent(view: View) {
    NamesUnique(view.retained) && forall name :: name in view.retained ==> name in view.available
  }

  lemma RetainedAvailable(plan: Plan, view: View, p: Pipeline)
    requires view.retained == [] && Reduce.Reduce(plan, view, p).Some?
    ensures RetainedCurrent(Reduce.Reduce(plan, view, p).value)
  {
    var compensated := PtcStep(plan, view, p.ptc).value;
    StepKeepsBoundary(plan);
    PairsKeep(StepFor(plan), compensated, p.pairs, |p.pairs|);
  }

  /** One reduction after another, stopping at the first that is refused. */
  function ReduceAll(plan: Plan, view: View, pipelines: seq<Pipeline>, n: nat): Option<View>
    requires n <= |pipelines|
  {
    if n == 0 then Some(view)
    else
      var before := ReduceAll(plan, view, pipelines, n - 1);
      if before.None? then None else Reduce.Reduce(plan, before.value, pipelines[n - 1])
  }

  lemma {:induction false} ReduceAllFollows(plan: Plan, view: View, start: Network, sites: seq<string>, pipelines: seq<Pipeline>, n: nat)
    requires IsOriginal(plan, view, start, sites) && n <= |pipelines| && ReduceAll(plan, view, pipelines, n).Some?
    ensures Follows(plan, |plan.ports|, start, ReduceAll(plan, view, pipelines, n).value)
    ensures RetainedCurrent(ReduceAll(plan, view, pipelines, n).value)
  {
    if n == 0 {
      OriginalFollows(plan, view, start, sites);
    } else {
      ReduceAllFollows(plan, view, start, sites, pipelines, n - 1);
      var before := ReduceAll(plan, view, pipelines, n - 1).value;
      ReduceFollows(plan, |plan.ports|, start, before, pipelines[n - 1]);
      RetainedAvailable(plan, before, pipelines[n - 1]);
    }
  }

  /** If a view retained Ports only, which marks it Port-realizable, the rows it selects pass the rank test. */
  ghost predicate PassesRank(plan: Plan, view: View, net: Network) {
    && (forall name :: name in view.retained ==> name in net.maps && name in net.ids)
    && (view.retained != [] && (forall name :: name in view.retained ==> name in view.ports) ==>
          |view.retained| <= |plan.ports| && Independent(|plan.ports|, RowsOf(net.maps, view.retained)))
  }

  /** Wherever the replay of a derived view succeeds all its coordinates are found, and if the view
      is marked Port-realizable the selected Port rows are linearly independent and no more than
      there are Ports — so the rank test passes, whatever the weights of its pairs were. */
  lemma RealizablePassesRank(plan: Plan, view: View, start: Network, sites: seq<string>, pipelines: seq<Pipeline>, n: nat)
    requires IsOriginal(plan, view, start, sites) && n <= |pipelines| && ReduceAll(plan, view, pipelines, n).Some?
    ensures var after := ReduceAll(plan, view, pipelines, n).value;
      var replayed := Replay(start, after.transforms, |after.transforms|);
      !replayed.Unknown? && (replayed.Done? ==> PassesRank(plan, after, replayed.net))
  {
    ReduceAllFollows(plan, view, start, sites, pipelines, n);
    var after := ReduceAll(plan, view, pipelines, n).value;
    var replayed := Replay(start, after.transforms, |after.transforms|);
    if replayed.Done? {
      SelectedIndependent(plan, after, replayed.net);
    }
  }

  lemma SelectedIndependent(plan: Plan, view: View, net: Network)
    requires Matches(plan, |plan.ports|, view, net) && RetainedCurrent(view)
    ensures PassesRank(plan, view, net)
  {
    if view.retained != [] && forall name :: name in view.retained ==> name in view.ports {
      SelectedFew(view.retained, view.ports.Keys);
      SelectedSeparate(|plan.ports|, net.maps, view.ports.Keys, view.retained);
    }
  }

  lemma SelectedSeparate(width: nat, maps: map<string, Vector>, names: set<string>, terminals: seq<string>)
    requires PortRows(width, names, maps) && Distinct(terminals)
    requires forall name :: name in terminals ==> name in names && name in maps
    ensures Independent(width, RowsOf(maps, terminals))
  {
    var duals :| Dual(width, maps, duals, names);
    DualsSeparate(width, maps, duals, names, terminals);
  }

  lemma SelectedFew(terminals: seq<string>, names: set<string>)
    requires Distinct(terminals) && forall name :: name in terminals ==> name in names
    ensures |terminals| <= |names|
  {
    var chosen := set name | name in terminals;
    SitesCounted(terminals, chosen);
    FewerKeys(names, names - chosen);
    assert names - (names - chosen) == chosen;
  }

  // ---- What a whole replay keeps --------------------------------------------------------------------------

  /** The voltages of the replayed network that stand for voltages `v` of the compiled one. */
  function VoltagesAfter(start: Network, transforms: seq<Transform>, n: nat, v: Vector): Vector
    requires n <= |transforms| && Replay(start, transforms, n).Done?
  {
    if n == 0 then v
    else NewVoltages(Replay(start, transforms, n - 1).net, transforms[n - 1], VoltagesAfter(start, transforms, n - 1, v))
  }

  function VoltagesBefore(start: Network, transforms: seq<Transform>, n: nat, w: Vector): Vector
    requires n <= |transforms| && Replay(start, transforms, n).Done?
  {
    if n == 0 then w
    else VoltagesBefore(start, transforms, n - 1, OldVoltages(Replay(start, transforms, n - 1).net, transforms[n - 1], w))
  }

  lemma SameTwice(a: Network, u: Vector, b: Network, v: Vector, c: Network, w: Vector)
    requires SameElectrically(a, u, b, v) && SameElectrically(b, v, c, w)
    ensures SameElectrically(a, u, c, w)
  {
  }

  /** Any sequence of transforms keeps all quadratic forms, Port voltages and branch drops of every
      voltage vector, */
  lemma {:induction false} ReplayKeeps(start: Network, transforms: seq<Transform>, n: nat, v: Vector)
    requires n <= |transforms| && Clean(start, transforms) && Replay(start, transforms, n).Done?
    ensures SameElectrically(start, v, Replay(start, transforms, n).net, VoltagesAfter(start, transforms, n, v))
  {
    if n > 0 {
      ReplayKeeps(start, transforms, n - 1, v);
      var before := Replay(start, transforms, n - 1);
      assert CleanAt(before);
      StepKeeps(before.net, transforms[n - 1], VoltagesAfter(start, transforms, n - 1, v));
      SameTwice(start, v, before.net, VoltagesAfter(start, transforms, n - 1, v),
        Replay(start, transforms, n).net, VoltagesAfter(start, transforms, n, v));
    }
  }

  /** and every voltage vector of the result stands for one of the compiled network. */
  lemma {:induction false} ReplayKeepsBack(start: Network, transforms: seq<Transform>, n: nat, w: Vector)
    requires n <= |transforms| && Clean(start, transforms) && Replay(start, transforms, n).Done?
    ensures SameElectrically(start, VoltagesBefore(start, transforms, n, w), Replay(start, transforms, n).net, w)
  {
    if n > 0 {
      var before := Replay(start, transforms, n - 1);
      assert CleanAt(before);
      var v := OldVoltages(before.net, transforms[n - 1], w);
      ReplayKeepsBack(start, transforms, n - 1, v);
      StepKeepsBack(before.net, transforms[n - 1], w);
      SameTwice(start, VoltagesBefore(start, transforms, n, w), before.net, v, Replay(start, transforms, n).net, w);
    }
  }

  /** So the network of every derived view is electrically the compiled one. */
  lemma DerivedKeeps(plan: Plan, view: View, start: Network, sites: seq<string>, pipelines: seq<Pipeline>, n: nat, v: Vector)
    requires IsOriginal(plan, view, start, sites) && n <= |pipelines| && ReduceAll(plan, view, pipelines, n).Some?
    ensures var transforms := ReduceAll(plan, view, pipelines, n).value.transforms;
      Replay(start, transforms, |transforms|).Done? ==>
        SameElectrically(start, v, Replay(start, transforms, |transforms|).net, VoltagesAfter(start, transforms, |transforms|, v))
  {
    ReduceAllFollows(plan, view, start, sites, pipelines, n);
    var transforms := ReduceAll(plan, view, pipelines, n).value.transforms;
    if Replay(start, transforms, |transforms|).Done? {
      ReplayKeeps(start, transforms, |transforms|, v);
    }
  }
}
