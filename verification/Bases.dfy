/** Transforms, name by name. */
module Bases {
  // Which coordinate means what after a pair transform, with which weights, and when a transform is refused.

  import opened Common
  import opened Names
  import opened Linear
  import opened Congruence
  import opened Reduce
  import opened Realize
  import opened ViewSoundness

  /** The coordinates by name: `k` is the left input, `m` the right one. */
  predicate Inputs(net: Network, t: Transform, k: nat, m: nat) {
    && k < |net.ids| && m < |net.ids| && net.ids[k] == t.left && net.ids[m] == t.right && k != m
    && t.left in net.maps && t.right in net.maps
  }

  /** The capacitance each input has to everything but the other. */
  predicate Weighs(net: Network, k: nat, m: nat, cl: real, cr: real) {
    cl == net.c(k, k) + net.c(k, m) && cr == net.c(m, m) + net.c(m, k)
  }

  predicate Shares(cl: real, cr: real, alpha: real, beta: real) {
    alpha * (cl + cr) == cl && beta * (cl + cr) == cr && alpha + beta == 1.0
  }

  /** The inputs leave, the outputs come last, the others keep their order. */
  ghost predicate Renames(ids: seq<string>, t: Transform, next: seq<string>) {
    exists a, x, b, y, e :: RenamesBy(ids, t, next, a, x, b, y, e)
  }

  predicate RenamesBy(ids: seq<string>, t: Transform, next: seq<string>,
                      a: seq<string>, x: string, b: seq<string>, y: string, e: seq<string>) {
    ids == a + [x] + b + [y] + e && {x, y} == {t.left, t.right} && next == a + b + e + [t.common, t.differential]
  }

  /** The new voltages: the weighted mean under the common name, the difference under the differential one, and
      every other name's own. */
  ghost predicate NewByName(net: Network, k: nat, m: nat, alpha: real, beta: real, v: Vector, next: Network, w: Vector) {
    var n := |net.ids|;
    && |next.ids| == n >= 2
    && w(n - 2) == alpha * v(k) + beta * v(m) && w(n - 1) == v(k) - v(m)
    && forall p: nat, q: nat :: p + 2 < n && q < n && next.ids[p] == net.ids[q] ==> w(p) == v(q)
  }

  /** Every voltage vector has its new one, electrically the same. */
  ghost predicate Stands(net: Network, k: nat, m: nat, alpha: real, beta: real, v: Vector, next: Network) {
    exists w :: SameElectrically(net, v, next, w) && NewByName(net, k, m, alpha, beta, v, next, w)
  }

  /** The rows from Port voltages to coordinates, by name. */
  ghost predicate RowsSay(net: Network, t: Transform, alpha: real, beta: real, maps: map<string, Vector>)
    requires t.left in net.maps && t.right in net.maps
  {
    var outputs := [t.common, t.differential];
    && (forall x :: x in maps <==> (x in outputs || x in net.maps) && x !in [t.left, t.right])
    && (forall x :: x in maps && x !in outputs ==> maps[x] == net.maps[x])
    && (t.common in maps && t.common != t.differential ==>
          forall q: nat :: maps[t.common](q) == alpha * net.maps[t.left](q) + beta * net.maps[t.right](q))
    && (t.differential in maps ==> forall q: nat :: maps[t.differential](q) == net.maps[t.left](q) - net.maps[t.right](q))
  }

  ghost predicate TransformSays(net: Network, t: Transform, next: Network) {
    exists k, m, cl, cr, alpha, beta :: TransformsBy(net, t, next, k, m, cl, cr, alpha, beta)
  }

  /** A transform: weights by the inputs' cuts, and with a symmetric capacitance matrix no capacitance left between
      the two outputs. */
  ghost predicate TransformsBy(net: Network, t: Transform, next: Network, k: nat, m: nat,
                               cl: real, cr: real, alpha: real, beta: real) {
    && Inputs(net, t, k, m) && Weighs(net, k, m, cl, cr)
    && cl >= 0.0 && cr >= 0.0 && cl + cr > 0.0 && Shares(cl, cr, alpha, beta)
    && Renames(net.ids, t, next.ids) && RowsSay(net, t, alpha, beta, next.maps)
    && (forall v: Vector :: Stands(net, k, m, alpha, beta, v, next))
    && (Symmetric(|net.ids|, net.c) && |net.ids| >= 2 ==>
          next.c(|net.ids| - 2, |net.ids| - 1) == 0.0 && next.c(|net.ids| - 1, |net.ids| - 2) == 0.0)
  }

  /** Refused because an input is missing, or because its cut gives no weights. */
  ghost predicate NoInputs(net: Network, t: Transform) {
    forall k, m :: !Inputs(net, t, k, m)
  }

  ghost predicate NoWeights(net: Network, t: Transform) {
    exists k, m, cl, cr :: Inputs(net, t, k, m) && Weighs(net, k, m, cl, cr) && (cl < 0.0 || cr < 0.0 || cl + cr <= 0.0)
  }

  // ---- The program does that ------------------------------------------------------------------------------

  lemma RenamesSo(ids: seq<string>, t: Transform)
    requires Distinct(ids) && t.left in ids && t.right in ids && t.left != t.right
    ensures Renames(ids, t, Without(ids, t.left, t.right) + [t.common, t.differential])
  {
    var i, j := IndexOf(ids, t.left), IndexOf(ids, t.right);
    hide Without, IndexOf, Distinct;
    var lo, hi := Low(i, j), High(i, j);
    var a, b, e := ids[..lo], ids[lo + 1..hi], ids[hi + 1..];
    PartsClear(ids, lo, hi, t.left, t.right);
    WithoutAt(ids, lo, hi, t.left, t.right);
    SplitsAt(ids, lo, hi);
    assert a + (b + e) == a + b + e;
    assert RenamesBy(ids, t, Without(ids, t.left, t.right) + [t.common, t.differential], a, ids[lo], b, ids[hi], e);
  }

  lemma SplitsAt(ids: seq<string>, lo: nat, hi: nat)
    requires lo < hi < |ids|
    ensures ids == ids[..lo] + [ids[lo]] + ids[lo + 1..hi] + [ids[hi]] + ids[hi + 1..]
  {
  }

  lemma InputsAre(net: Network, t: Transform, k: nat, m: nat)
    requires Distinct(net.ids) && Inputs(net, t, k, m)
    ensures Found(net, t) && k == IndexOf(net.ids, t.left) && m == IndexOf(net.ids, t.right)
  {
    IndexOfAt(net.ids, k);
    IndexOfAt(net.ids, m);
  }

  lemma VoltagesByName(net: Network, t: Transform, k: nat, m: nat, v: Vector)
    requires Distinct(net.ids) && Inputs(net, t, k, m) && TransformStep(net, t).Done?
    ensures Stands(net, k, m, Weight(net, k, m), Weight(net, m, k), v, TransformStep(net, t).net)
  {
    hide Dot, Form;
    InputsAre(net, t, k, m);
    hide SameElectrically, Weight, IndexOf, Remapped, PullAll;
    StepKeeps(net, t, v);
    var n, next, w := |net.ids|, TransformStep(net, t).net, NewVoltages(net, t, v);
    var alpha, beta := Weight(net, k, m), Weight(net, m, k);
    WithoutTwo(net.ids, t.left, t.right);
    NewCommon(n, k, m, alpha, beta, v);
    NewDifference(n, k, m, alpha, beta, v);
    forall p: nat, q: nat | p + 2 < n && q < n && next.ids[p] == net.ids[q] ensures w(p) == v(q) {
      NewOther(n, k, m, alpha, beta, v, p);
      assert next.ids[p] == Without(net.ids, t.left, t.right)[p] == net.ids[Skip(p, k, m)];
    }
  }

  lemma RowsSaySo(net: Network, t: Transform, alpha: real, beta: real)
    requires t.left in net.maps && t.right in net.maps
    ensures RowsSay(net, t, alpha, beta, Remapped(net.maps, t, alpha, beta))
  {
  }

  lemma SharesSo(cl: real, cr: real)
    requires cl + cr > 0.0
    ensures Shares(cl, cr, cl / (cl + cr), cr / (cl + cr))
  {
    WeightsSum(cl, cr);
  }

  lemma DoneSays(net: Network, t: Transform)
    requires Distinct(net.ids) && TransformStep(net, t).Done?
    ensures TransformSays(net, t, TransformStep(net, t).net)
  {
    hide Stands, Symmetric, Congruent, Remapped, Renames, Shares, RowsSay, PullAll;
    var k, m := IndexOf(net.ids, t.left), IndexOf(net.ids, t.right);
    var cl, cr, next := Cut(net.c, k, m), Cut(net.c, m, k), TransformStep(net, t).net;
    var alpha, beta := Weight(net, k, m), Weight(net, m, k);
    SharesSo(cl, cr);
    RenamesSo(net.ids, t);
    RowsSaySo(net, t, alpha, beta);
    forall v: Vector ensures Stands(net, k, m, alpha, beta, v, next) { VoltagesByName(net, t, k, m, v); }
    if Symmetric(|net.ids|, net.c) { PairDecoupled(|net.ids|, net.c, k, m); }
    assert TransformsBy(net, t, next, k, m, cl, cr, alpha, beta);
  }

  /** Every transform that is done is the one spelled out, and a refused one lacks an input or its weights. */
  lemma StepSays(net: Network, t: Transform)
    requires Distinct(net.ids)
    ensures match TransformStep(net, t)
      case Done(next) => TransformSays(net, t, next)
      case BadCut => NoWeights(net, t)
      case Unknown => NoInputs(net, t)
  {
    hide TransformSays, Changed;
    if TransformStep(net, t).Done? {
      DoneSays(net, t);
    } else if Found(net, t) {
      var k, m := IndexOf(net.ids, t.left), IndexOf(net.ids, t.right);
      assert Inputs(net, t, k, m) && Weighs(net, k, m, Cut(net.c, k, m), Cut(net.c, m, k));
    } else {
      forall k, m ensures !Inputs(net, t, k, m) {
        if Inputs(net, t, k, m) { InputsAre(net, t, k, m); }
      }
    }
  }

  // ---- Whole replays --------------------------------------------------------------------------------------

  /** From one network to the next, one transform each. */
  ghost predicate Steps(transforms: seq<Transform>, nets: seq<Network>, n: nat)
    requires n <= |transforms|
  {
    |nets| == n + 1 && forall k :: 0 <= k < n ==> TransformSays(nets[k], transforms[k], nets[k + 1])
  }

  /** A replay that ends goes through its transforms one by one. */
  lemma {:induction false} ReplaySteps(net: Network, transforms: seq<Transform>, n: nat) returns (nets: seq<Network>)
    requires n <= |transforms| && Clean(net, transforms) && Replay(net, transforms, n).Done?
    ensures Steps(transforms, nets, n) && nets[0] == net && nets[n] == Replay(net, transforms, n).net
  {
    hide TransformsBy;
    if n == 0 { return [net]; }
    hide TransformSays, TransformStep;
    var before := ReplaySteps(net, transforms, n - 1);
    assert CleanAt(Replay(net, transforms, n - 1));
    StepSays(before[n - 1], transforms[n - 1]);
    nets := before + [Replay(net, transforms, n).net];
  }

  /** So does the replay of every derived view on the network it was derived for. */
  lemma DerivedSteps(plan: Plan, view: View, start: Network, sites: seq<string>, pipelines: seq<Pipeline>, n: nat)
    requires IsOriginal(plan, view, start, sites) && n <= |pipelines| && ReduceAll(plan, view, pipelines, n).Some?
    ensures var transforms := ReduceAll(plan, view, pipelines, n).value.transforms;
      var replayed := Replay(start, transforms, |transforms|);
      replayed.Done? ==> exists nets :: Steps(transforms, nets, |transforms|) && nets[0] == start && nets[|transforms|] == replayed.net
  {
    hide Steps, IsOriginal;
    ReduceAllFollows(plan, view, start, sites, pipelines, n);
    var transforms := ReduceAll(plan, view, pipelines, n).value.transforms;
    if Replay(start, transforms, |transforms|).Done? {
      var nets := ReplaySteps(start, transforms, |transforms|);
    }
  }
}
