/** Wire equivalence as mathematics: the equivalence closure of a list of wires, and
    labelings of the nets that represent exactly that closure. */
module Partition {
  /** Nets are numbered; a wire joins two of them. */
  type Wire = (nat, nat)

  /** A labeling gives each net its representative. */
  type Labels = seq<nat>

  // ---- The closure ------------------------------------------------------------------------------

  predicate Touches(wires: seq<Wire>, a: nat, b: nat) {
    (a, b) in wires || (b, a) in wires
  }

  predicate IsPath(wires: seq<Wire>, path: seq<nat>) {
    path != [] && forall i :: 0 < i < |path| ==> Touches(wires, path[i - 1], path[i])
  }

  /** A path of wires, walked in either direction, leads from `a` to `b`. */
  ghost predicate Related(wires: seq<Wire>, a: nat, b: nat) {
    exists path :: Leads(wires, path, a, b)
  }

  predicate Leads(wires: seq<Wire>, path: seq<nat>, a: nat, b: nat) {
    IsPath(wires, path) && path[0] == a && path[|path| - 1] == b
  }

  lemma RelatedSelf(wires: seq<Wire>, a: nat)
    ensures Related(wires, a, a)
  {
    assert Leads(wires, [a], a, a);
  }

  lemma RelatedWire(wires: seq<Wire>, a: nat, b: nat)
    requires Touches(wires, a, b)
    ensures Related(wires, a, b)
  {
    assert Leads(wires, [a, b], a, b);
  }

  lemma RelatedTwice(wires: seq<Wire>, a: nat, b: nat, c: nat)
    requires Related(wires, a, b) && Related(wires, b, c)
    ensures Related(wires, a, c)
  {
    var p :| Leads(wires, p, a, b);
    var q :| Leads(wires, q, b, c);
    var joined := p + q[1..];
    assert forall i :: |p| <= i < |joined| ==> joined[i] == q[i - |p| + 1];
    assert Leads(wires, joined, a, c);
  }

  lemma RelatedBack(wires: seq<Wire>, a: nat, b: nat)
    requires Related(wires, a, b)
    ensures Related(wires, b, a)
  {
    var p :| Leads(wires, p, a, b);
    var back := seq(|p|, i requires 0 <= i < |p| => p[|p| - 1 - i]);
    forall i | 0 < i < |back|
      ensures Touches(wires, back[i - 1], back[i])
    {
      assert Touches(wires, p[|p| - 1 - i], p[|p| - i]);
    }
    assert Leads(wires, back, b, a);
  }

  lemma RelatedMore(wires: seq<Wire>, more: seq<Wire>, a: nat, b: nat)
    requires Related(wires, a, b)
    ensures Related(wires + more, a, b)
  {
    var p :| Leads(wires, p, a, b);
    assert Leads(wires + more, p, a, b);
  }

  // ---- Labelings --------------------------------------------------------------------------------

  predicate InRange(wires: seq<Wire>, n: nat) {
    forall w :: w in wires ==> w.0 < n && w.1 < n
  }

  /** Two nets carry one label exactly when wires relate them. */
  ghost predicate Represents(labels: Labels, wires: seq<Wire>) {
    && InRange(wires, |labels|)
    && forall a, b :: 0 <= a < |labels| && 0 <= b < |labels| ==> (labels[a] == labels[b] <==> Related(wires, a, b))
  }

  /** A labeling that every wire respects is constant along paths. */
  lemma {:induction false} ConstantOnPaths(labels: Labels, wires: seq<Wire>, path: seq<nat>)
    requires InRange(wires, |labels|) && IsPath(wires, path) && path[0] < |labels|
    requires forall w :: w in wires ==> labels[w.0] == labels[w.1]
    ensures path[|path| - 1] < |labels| && labels[path[0]] == labels[path[|path| - 1]]
  {
    if |path| > 1 {
      assert Touches(wires, path[|path| - 2], path[|path| - 1]);
      ConstantOnPaths(labels, wires, path[..|path| - 1]);
    }
  }

  /** Every net of the class labelled `from` is relabelled `to`. */
  function Relabel(labels: Labels, from: nat, to: nat): (merged: Labels)
    ensures |merged| == |labels|
    ensures forall i :: 0 <= i < |labels| ==> merged[i] == if labels[i] == from then to else labels[i]
  {
    seq(|labels|, i requires 0 <= i < |labels| => if labels[i] == from then to else labels[i])
  }

  /** Joining two nets: the second class takes the label of the first, unless it is the ground's. */
  function Merge(labels: Labels, a: nat, b: nat): (merged: Labels)
    requires a < |labels| && b < |labels|
    ensures |merged| == |labels|
  {
    if labels[b] == 0 then Relabel(labels, labels[a], 0) else Relabel(labels, labels[b], labels[a])
  }

  /** Labels name classes: each label is the net that carries it itself. */
  predicate Canonical(labels: Labels) {
    forall i :: 0 <= i < |labels| ==> labels[i] < |labels| && labels[labels[i]] == labels[i]
  }

  lemma MergeJoins(labels: Labels, a: nat, b: nat)
    requires a < |labels| && b < |labels| && Canonical(labels)
    ensures Canonical(Merge(labels, a, b)) && Merge(labels, a, b)[a] == Merge(labels, a, b)[b]
    ensures |labels| > 0 && labels[0] == 0 ==> Merge(labels, a, b)[0] == 0
    ensures forall i, j :: 0 <= i < |labels| && 0 <= j < |labels| && labels[i] == labels[j] ==> Merge(labels, a, b)[i] == Merge(labels, a, b)[j]
    ensures forall i, j :: 0 <= i < |labels| && 0 <= j < |labels| && Merge(labels, a, b)[i] == Merge(labels, a, b)[j] ==>
      || labels[i] == labels[j]
      || (labels[i] == labels[a] && labels[j] == labels[b])
      || (labels[i] == labels[b] && labels[j] == labels[a])
  {
  }

  /** Joining two nets represents one more wire. */
  lemma MergeRepresents(labels: Labels, wires: seq<Wire>, a: nat, b: nat)
    requires Represents(labels, wires) && Canonical(labels) && a < |labels| && b < |labels|
    ensures Represents(Merge(labels, a, b), wires + [(a, b)])
  {
    var merged := Merge(labels, a, b);
    var more := wires + [(a, b)];
    MergeJoins(labels, a, b);
    WiresRespected(labels, wires, a, b);
    forall i, j | 0 <= i < |labels| && 0 <= j < |labels|
      ensures merged[i] == merged[j] <==> Related(more, i, j)
    {
      if merged[i] == merged[j] {
        MergedRelated(labels, wires, a, b, i, j);
      }
      if Related(more, i, j) {
        var path :| Leads(more, path, i, j);
        ConstantOnPaths(merged, more, path);
      }
    }
  }

  lemma WiresRespected(labels: Labels, wires: seq<Wire>, a: nat, b: nat)
    requires Represents(labels, wires) && Canonical(labels) && a < |labels| && b < |labels|
    ensures forall w :: w in wires + [(a, b)] ==> w.0 < |labels| && w.1 < |labels| && Merge(labels, a, b)[w.0] == Merge(labels, a, b)[w.1]
  {
    MergeJoins(labels, a, b);
    forall w | w in wires
      ensures labels[w.0] == labels[w.1]
    {
      RelatedWire(wires, w.0, w.1);
    }
  }

  lemma MergedRelated(labels: Labels, wires: seq<Wire>, a: nat, b: nat, i: nat, j: nat)
    requires Represents(labels, wires) && Canonical(labels) && a < |labels| && b < |labels| && i < |labels| && j < |labels|
    requires Merge(labels, a, b)[i] == Merge(labels, a, b)[j]
    ensures Related(wires + [(a, b)], i, j)
  {
    MergeJoins(labels, a, b);
    if labels[i] == labels[j] {
      RelatedMore(wires, [(a, b)], i, j);
    } else if labels[i] == labels[a] {
      Bridge(wires, a, b, i, j);
    } else {
      RelatedBack(wires, i, b);
      RelatedBack(wires, a, j);
      Bridge(wires, a, b, j, i);
      RelatedBack(wires + [(a, b)], j, i);
    }
  }

  lemma Bridge(wires: seq<Wire>, a: nat, b: nat, i: nat, j: nat)
    requires Related(wires, i, a) && Related(wires, b, j)
    ensures Related(wires + [(a, b)], i, j)
  {
    var more := wires + [(a, b)];
    RelatedMore(wires, [(a, b)], i, a);
    RelatedMore(wires, [(a, b)], b, j);
    RelatedWire(more, a, b);
    RelatedTwice(more, i, a, b);
    RelatedTwice(more, i, b, j);
  }

  /** Without wires every net is a class of its own. */
  lemma NoWires(n: nat)
    ensures Represents(seq(n, i => i), []) && Canonical(seq(n, i => i))
  {
    forall i: nat, j: nat | i < n && j < n
      ensures i == j <==> Related([], i, j)
    {
      RelatedSelf([], i);
      if Related([], i, j) {
        var path :| Leads([], path, i, j);
        assert |path| > 1 ==> Touches([], path[0], path[1]);
      }
    }
  }

  /** A fresh net is related to itself alone. */
  lemma FreshRepresents(labels: Labels, wires: seq<Wire>)
    requires Represents(labels, wires) && Canonical(labels)
    ensures Represents(labels + [|labels|], wires) && Canonical(labels + [|labels|])
  {
    var more := labels + [|labels|];
    forall i, j | 0 <= i < |more| && 0 <= j < |more|
      ensures more[i] == more[j] <==> Related(wires, i, j)
    {
      RelatedSelf(wires, i);
      forall w | w in wires
        ensures labels[w.0] == labels[w.1]
      {
        RelatedWire(wires, w.0, w.1);
      }
      if Related(wires, i, j) {
        var path :| Leads(wires, path, i, j);
        ConstantOnPaths(more, wires, path);
      }
    }
  }
}
