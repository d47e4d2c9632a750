/** The parent-linked wire equivalence of one assembly: union-find with path
    compression and a ground net that always stays its own representative. */
module Nets {
  import opened Partition

  /** One authoring-time net; `index` numbers the nets of a plan in creation order. */
  class Net {
    var parent: Net
    const ground: bool
    ghost const index: nat

    constructor (ground: bool, ghost index: nat)
      ensures parent == this && this.ground == ground && this.index == index
    {
      parent := this;
      this.ground, this.index := ground, index;
    }
  }

  /** All nets of one root plan; `labels` names the representative of each. */
  class Forest {
    const ground: Net
    ghost var nets: seq<Net>
    ghost var labels: Labels
    ghost var rank: seq<nat>

    ghost predicate Owns(net: Net)
      reads this
    {
      net.index < |nets| && nets[net.index] == net
    }

    /** The parent of net `i` leads towards its representative. */
    ghost predicate Leans(i: nat)
      requires i < |nets| == |labels| == |rank|
      reads this, nets
    {
      var up := nets[i].parent;
      && nets[i].index == i && nets[i].ground == (i == 0)
      && Owns(up) && labels[up.index] == labels[i]
      && (up.index == i ==> labels[i] == i)
      && (up.index != i ==> rank[up.index] < rank[i])
      && (labels[i] < |nets| && labels[i] != i ==> rank[labels[i]] < rank[i])
    }

    ghost predicate Valid()
      reads this, nets
    {
      && |nets| == |labels| == |rank| && |nets| > 0 && nets[0] == ground
      && Canonical(labels) && labels[0] == 0
      && forall i :: 0 <= i < |nets| ==> Leans(i)
    }

    constructor ()
      ensures Valid() && labels == [0] && fresh(nets)
    {
      var net := new Net(true, 0);
      ground := net;
      nets, labels, rank := [net], [0], [0];
    }

    /** A fresh net is a class of its own. */
    method Add() returns (net: Net)
      requires Valid()
      modifies this
      ensures Valid() && fresh(net) && nets == old(nets) + [net]
      ensures labels == old(labels) + [|old(labels)|] && net.index == |old(labels)|
    {
      net := new Net(false, |nets|);
      nets, labels, rank := nets + [net], labels + [|labels|], rank + [0];
      forall i | 0 <= i < |nets|
        ensures Leans(i)
      {
        assert i < |old(nets)| ==> old(Leans(i));
      }
    }

    /** The representative; every net passed on the way then points straight at it. */
    method Root(net: Net) returns (root: Net)
      requires Valid() && Owns(net)
      modifies nets
      ensures Valid() && Owns(root) && root.index == labels[net.index] && root.parent == root
      ensures root.ground <==> labels[net.index] == 0
      decreases rank[net.index]
    {
      assert Leans(net.index);
      if net.parent != net {
        var up := Root(net.parent);
        assert Leans(net.index) && Leans(up.index);
        label Lifted:
        net.parent := up;
        forall i | 0 <= i < |nets|
          ensures Leans(i)
        {
          assert old@Lifted(Leans(i));
        }
      }
      root := net.parent;
    }

    /** Joins two classes; the ground's representative never changes. */
    method Join(a: Net, b: Net) returns (root: Net)
      requires Valid() && Owns(a) && Owns(b)
      modifies this`labels, this`rank, nets
      ensures Valid() && nets == old(nets)
      ensures labels == Merge(old(labels), a.index, b.index)
      ensures Owns(root) && root.index == labels[a.index]
    {
      var left := Root(a);
      var right := Root(b);
      assert Leans(left.index) && Leans(right.index);
      MergeJoins(labels, a.index, b.index);
      if left == right {
        return left;
      }
      if right.ground {
        Attach(left, right, a.index, b.index);
        return right;
      }
      Attach(right, left, b.index, a.index);
      return left;
    }

    /** Hangs one representative below another. */
    method Attach(child: Net, top: Net, ghost c: nat, ghost t: nat)
      requires Valid() && Owns(child) && Owns(top) && child != top && !child.ground
      requires c < |labels| && t < |labels| && labels[c] == child.index && labels[t] == top.index
      modifies this`labels, this`rank, child
      ensures Valid() && labels == Relabel(old(labels), child.index, top.index)
    {
      assert Leans(child.index) && Leans(c) && Leans(t);
      ghost var below, classes, above, index := rank, labels, rank[top.index] + 1, child.index;
      child.parent := top;
      rank := seq(|below|, i requires 0 <= i < |below| && |classes| == |below| =>
        if classes[i] == index then below[i] + above else below[i]);
      labels := Relabel(labels, child.index, top.index);
      forall i | 0 <= i < |nets|
        ensures Leans(i)
      {
        assert old(Leans(i));
      }
    }
  }
}
