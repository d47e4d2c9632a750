/** The reduction language interpreted numerically. */
module Realize {
  // Pair transforms replayed on a compiled network, and what the replay keeps.

  import opened Common
  import opened Names
  import opened Linear
  import opened Congruence
  import opened Reduce

  /** The matrices and node vectors of a network over its coordinates `ids`; `maps` gives the
      Port row of every public coordinate, `width` is the number of Ports. */
  datatype Network = Network(
    ids: seq<string>, c: Matrix, k: Matrix, g: Matrix,
    ports: seq<Vector>, currents: seq<Vector>, maps: map<string, Vector>)

  /** A replayed network; a pair without a proper capacitance cut; or a failed lookup. */
  datatype Realized = Done(net: Network) | BadCut | Unknown

  // ---- One transform ------------------------------------------------------------------------------

  predicate Found(net: Network, t: Transform) {
    && t.left != t.right && t.left in net.ids && t.right in net.ids
    && t.left in net.maps && t.right in net.maps
  }

  function Weight(net: Network, i: nat, j: nat): real
    requires Cut(net.c, i, j) + Cut(net.c, j, i) > 0.0
  {
    Cut(net.c, i, j) / (Cut(net.c, i, j) + Cut(net.c, j, i))
  }

  function PullAll(n: nat, columns: seq<Vector>, t: Matrix): (pulled: seq<Vector>)
    ensures |pulled| == |columns|
  {
    seq(|columns|, q requires 0 <= q < |columns| => Pulled(n, columns[q], t))
  }

  /** The new rows of the coordinate-to-Port map. */
  function Remapped(maps: map<string, Vector>, t: Transform, alpha: real, beta: real): map<string, Vector>
    requires t.left in maps && t.right in maps
  {
    var left, right := maps[t.left], maps[t.right];
    (maps[t.common := (q: nat) => alpha * left(q) + beta * right(q)]
         [t.differential := (q: nat) => left(q) - right(q)]) - {t.left, t.right}
  }

  /** The network in the transformed basis. */
  function Changed(net: Network, t: Transform, i: nat, j: nat): Network
    requires Found(net, t) && i != j && |net.ids| >= 2 && GoodCut(Cut(net.c, i, j), Cut(net.c, j, i))
  {
    var n, alpha, beta := |net.ids|, Weight(net, i, j), Weight(net, j, i);
    var basis := PairT(n, i, j, alpha, beta);
    Network(Without(net.ids, t.left, t.right) + [t.common, t.differential],
      Congruent(n, net.c, basis), Congruent(n, net.k, basis), Congruent(n, net.g, basis),
      PullAll(n, net.ports, basis), PullAll(n, net.currents, basis), Remapped(net.maps, t, alpha, beta))
  }

  function TransformStep(net: Network, t: Transform): Realized {
    if !Found(net, t) then Unknown
    else
      var i, j := IndexOf(net.ids, t.left), IndexOf(net.ids, t.right);
      if i == j || |net.ids| < 2 || !GoodCut(Cut(net.c, i, j), Cut(net.c, j, i)) then BadCut
      else Done(Changed(net, t, i, j))
  }

  type Transformer = (Network, Transform) -> Realized

  /** The first `n` transforms, stopping at the first failure. */
  function ReplayBy(step: Transformer, net: Network, transforms: seq<Transform>, n: nat): Realized
    requires n <= |transforms|
  {
    if n == 0 then Done(net)
    else
      var before := ReplayBy(step, net, transforms, n - 1);
      if before.Done? then step(before.net, transforms[n - 1]) else before
  }

  function Replay(net: Network, transforms: seq<Transform>, n: nat): Realized
    requires n <= |transforms|
  {
    ReplayBy(TransformStep, net, transforms, n)
  }

  /** `realize_view`'s loop over the declared transforms. */
  method RealizeTransforms(net: Network, transforms: seq<Transform>) returns (result: Realized)
    ensures result == Replay(net, transforms, |transforms|)
  {
    var working := net;
    for n := 0 to |transforms|
      invariant Replay(net, transforms, n) == Done(working)
    {
      var step := TransformStep(working, transforms[n]);
      if !step.Done? {
        ReplayStops(TransformStep, net, transforms, n + 1, |transforms|);
        return step;
      }
      working := step.net;
    }
    result := Done(working);
  }

  lemma {:induction false} ReplayStops(step: Transformer, net: Network, transforms: seq<Transform>, n: nat, m: nat)
    requires n <= m <= |transforms| && !ReplayBy(step, net, transforms, n).Done?
    ensures ReplayBy(step, net, transforms, m) == ReplayBy(step, net, transforms, n)
  {
    if n < m { ReplayStops(step, net, transforms, n, m - 1); }
  }

  /** The transform matrix filled row by row, each row by the name it stands for. */
  method FillPairMatrix(ids: seq<string>, left: string, right: string, alpha: real, beta: real) returns (a: array2<real>)
    requires Distinct(ids) && left in ids && right in ids && left != right
    ensures fresh(a) && a.Length0 == |ids| && a.Length1 == |ids| && |ids| >= 2
    ensures IndexOf(ids, left) != IndexOf(ids, right)
    ensures forall r, c :: 0 <= r < |ids| && 0 <= c < |ids| ==>
      a[r, c] == PairA(|ids|, IndexOf(ids, left), IndexOf(ids, right), alpha, beta)(r, c)
  {
    var n, i, j := |ids|, IndexOf(ids, left), IndexOf(ids, right);
    var rest := Without(ids, left, right);
    WithoutTwo(ids, left, right);
    a := new real[n, n]((_, _) => 0.0);
    for row := 0 to n
      invariant forall r, c :: 0 <= r < row && 0 <= c < n ==> a[r, c] == PairA(n, i, j, alpha, beta)(r, c)
      invariant forall r, c :: row <= r < n && 0 <= c < n ==> a[r, c] == 0.0
    {
      if row + 2 == n {
        a[row, i], a[row, j] := alpha, beta;
      } else if row + 1 == n {
        a[row, i], a[row, j] := 1.0, -1.0;
      } else {
        IndexOfAt(ids, Skip(row, i, j));
        a[row, IndexOf(ids, rest[row])] := 1.0;
      }
    }
  }

  // ---- What a transform keeps ---------------------------------------------------------------------

  /** Voltages w of one network stand for voltages v of the other: the same capacitive, inverse
      inductive and conductive forms, the same Port voltages and branch drops. */
  ghost predicate SameElectrically(a: Network, v: Vector, b: Network, w: Vector) {
    && |b.ids| == |a.ids| && |b.ports| == |a.ports| && |b.currents| == |a.currents|
    && Form(|a.ids|, b.c, w, w) == Form(|a.ids|, a.c, v, v)
    && Form(|a.ids|, b.k, w, w) == Form(|a.ids|, a.k, v, v)
    && Form(|a.ids|, b.g, w, w) == Form(|a.ids|, a.g, v, v)
    && (forall q :: 0 <= q < |a.ports| ==> Dot(|a.ids|, b.ports[q], w) == Dot(|a.ids|, a.ports[q], v))
    && (forall q :: 0 <= q < |a.currents| ==> Dot(|a.ids|, b.currents[q], w) == Dot(|a.ids|, a.currents[q], v))
  }

  lemma FormSame(n: nat, a: Matrix, x: Vector, y: Vector)
    requires forall r: nat :: r < n ==> x(r) == y(r)
    ensures Form(n, a, x, x) == Form(n, a, y, y)
  {
    forall r: nat | r < n
      ensures Apply(n, a, x)(r) == Apply(n, a, y)(r)
    {
      DotSame(n, Row(a, r), x, Row(a, r), y);
    }
    DotSame(n, x, Apply(n, a, x), y, Apply(n, a, y));
  }

  /** A form or node vector meets the new voltages as it met the old ones. */
  lemma FormThrough(n: nat, a: Matrix, i: nat, j: nat, alpha: real, beta: real, v: Vector)
    requires i < n && j < n && i != j && alpha + beta == 1.0
    ensures var w := Apply(n, PairA(n, i, j, alpha, beta), v);
      Form(n, Congruent(n, a, PairT(n, i, j, alpha, beta)), w, w) == Form(n, a, v, v)
  {
    var w, t := Apply(n, PairA(n, i, j, alpha, beta), v), PairT(n, i, j, alpha, beta);
    FormKept(n, a, t, w, w);
    forall r: nat | r < n
      ensures Apply(n, t, w)(r) == v(r)
    {
      OldOfNew(n, i, j, alpha, beta, v, r);
    }
    FormSame(n, a, Apply(n, t, w), v);
  }

  lemma DotThrough(n: nat, b: Vector, i: nat, j: nat, alpha: real, beta: real, v: Vector)
    requires i < n && j < n && i != j && alpha + beta == 1.0
    ensures var w := Apply(n, PairA(n, i, j, alpha, beta), v);
      Dot(n, Pulled(n, b, PairT(n, i, j, alpha, beta)), w) == Dot(n, b, v)
  {
    var w, t := Apply(n, PairA(n, i, j, alpha, beta), v), PairT(n, i, j, alpha, beta);
    PulledMeets(n, b, t, w);
    forall r: nat | r < n
      ensures Apply(n, t, w)(r) == v(r)
    {
      OldOfNew(n, i, j, alpha, beta, v, r);
    }
    DotSame(n, b, Apply(n, t, w), b, v);
  }

  /** The new voltages of a transform. */
  function NewVoltages(net: Network, t: Transform, v: Vector): Vector
    requires TransformStep(net, t).Done?
  {
    var i, j := IndexOf(net.ids, t.left), IndexOf(net.ids, t.right);
    Apply(|net.ids|, PairA(|net.ids|, i, j, Weight(net, i, j), Weight(net, j, i)), v)
  }

  lemma StepKeeps(net: Network, t: Transform, v: Vector)
    requires Distinct(net.ids) && TransformStep(net, t).Done?
    ensures SameElectrically(net, v, TransformStep(net, t).net, NewVoltages(net, t, v))
  {
    var i, j := IndexOf(net.ids, t.left), IndexOf(net.ids, t.right);
    var n, alpha, beta := |net.ids|, Weight(net, i, j), Weight(net, j, i);
    WithoutTwo(net.ids, t.left, t.right);
    WeightsSum(Cut(net.c, i, j), Cut(net.c, j, i));
    FormThrough(n, net.c, i, j, alpha, beta, v);
    FormThrough(n, net.k, i, j, alpha, beta, v);
    FormThrough(n, net.g, i, j, alpha, beta, v);
    forall q | 0 <= q < |net.ports|
      ensures Dot(n, Pulled(n, net.ports[q], PairT(n, i, j, alpha, beta)), NewVoltages(net, t, v)) == Dot(n, net.ports[q], v)
    {
      DotThrough(n, net.ports[q], i, j, alpha, beta, v);
    }
    forall q | 0 <= q < |net.currents|
      ensures Dot(n, Pulled(n, net.currents[q], PairT(n, i, j, alpha, beta)), NewVoltages(net, t, v)) == Dot(n, net.currents[q], v)
    {
      DotThrough(n, net.currents[q], i, j, alpha, beta, v);
    }
  }

  function OldVoltages(net: Network, t: Transform, w: Vector): Vector
    requires TransformStep(net, t).Done?
  {
    var i, j := IndexOf(net.ids, t.left), IndexOf(net.ids, t.right);
    Apply(|net.ids|, PairT(|net.ids|, i, j, Weight(net, i, j), Weight(net, j, i)), w)
  }

  /** The other way round: every voltage of the new network stands for one of the old. */
  lemma StepKeepsBack(net: Network, t: Transform, w: Vector)
    requires Distinct(net.ids) && TransformStep(net, t).Done?
    ensures SameElectrically(net, OldVoltages(net, t, w), TransformStep(net, t).net, w)
  {
    var i, j := IndexOf(net.ids, t.left), IndexOf(net.ids, t.right);
    var n, alpha, beta := |net.ids|, Weight(net, i, j), Weight(net, j, i);
    var basis, v := PairT(n, i, j, alpha, beta), OldVoltages(net, t, w);
    WithoutTwo(net.ids, t.left, t.right);
    FormKept(n, net.c, basis, w, w);
    FormKept(n, net.k, basis, w, w);
    FormKept(n, net.g, basis, w, w);
    forall q | 0 <= q < |net.ports|
      ensures Dot(n, Pulled(n, net.ports[q], basis), w) == Dot(n, net.ports[q], v)
    {
      PulledMeets(n, net.ports[q], basis, w);
    }
    forall q | 0 <= q < |net.currents|
      ensures Dot(n, Pulled(n, net.currents[q], basis), w) == Dot(n, net.currents[q], v)
    {
      PulledMeets(n, net.currents[q], basis, w);
    }
  }
}
