/** Attaching a reusable body. */
module Clone {
  // Its wire equivalence is copied onto fresh nets of the containing plan, its ground onto that
  // plan's ground.

  import opened Common
  import opened Partition
  import opened Nets

  /** A scope as the clone walks it: endpoints and nested scopes in the order they are copied. */
  datatype Scope = Scope(items: seq<Item>)
  datatype Item = Endpoint(net: Net) | Part(scope: Scope)

  /** The endpoint reached by walking item numbers down the nested scopes. */
  function At(scope: Scope, path: seq<nat>): Option<Net>
    decreases scope
  {
    if path == [] || path[0] >= |scope.items| then None
    else match scope.items[path[0]]
         case Endpoint(net) => if |path| == 1 then Some(net) else None
         case Part(inner) => At(inner, path[1..])
  }

  ghost predicate OwnedBy(scope: Scope, forest: Forest)
    reads forest
    decreases scope
  {
    forall i :: 0 <= i < |scope.items| ==> ItemOwned(scope.items[i], forest)
  }

  ghost predicate ItemOwned(item: Item, forest: Forest)
    reads forest
    decreases item
  {
    match item
    case Endpoint(net) => forest.Owns(net)
    case Part(inner) => OwnedBy(inner, forest)
  }

  /** Where the class labelled `label` of the template goes. */
  ghost function Image(images: map<nat, nat>, key: nat): Option<nat> {
    if key == 0 then Some(0) else if key in images then Some(images[key]) else None
  }

  /** The copy mirrors the template, each endpoint on the image of its class. */
  ghost predicate Mirrors(scope: Scope, copy: Scope, labels: Labels, images: map<nat, nat>)
    decreases scope
  {
    && |copy.items| == |scope.items|
    && forall i :: 0 <= i < |scope.items| ==> ItemMirrors(scope.items[i], copy.items[i], labels, images)
  }

  ghost predicate ItemMirrors(item: Item, copy: Item, labels: Labels, images: map<nat, nat>)
    decreases item
  {
    match item
    case Endpoint(net) => copy.Endpoint? && net.index < |labels| && Image(images, labels[net.index]) == Some(copy.net.index)
    case Part(inner) => copy.Part? && Mirrors(inner, copy.scope, labels, images)
  }

  /** Every endpoint lies on one of the nets. */
  ghost predicate Lies(scope: Scope, nets: seq<Net>)
    decreases scope
  {
    forall i :: 0 <= i < |scope.items| ==> ItemLies(scope.items[i], nets)
  }

  ghost predicate ItemLies(item: Item, nets: seq<Net>)
    decreases item
  {
    match item
    case Endpoint(net) => net.index < |nets| && nets[net.index] == net
    case Part(inner) => Lies(inner, nets)
  }

  lemma {:induction false} LiesMore(scope: Scope, nets: seq<Net>, more: seq<Net>)
    requires Lies(scope, nets) && nets <= more
    ensures Lies(scope, more)
    decreases scope
  {
    forall i | 0 <= i < |scope.items|
      ensures ItemLies(scope.items[i], more)
    {
      ItemLiesMore(scope.items[i], nets, more);
    }
  }

  lemma {:induction false} ItemLiesMore(item: Item, nets: seq<Net>, more: seq<Net>)
    requires ItemLies(item, nets) && nets <= more
    ensures ItemLies(item, more)
    decreases item
  {
    if item.Part? { LiesMore(item.scope, nets, more); }
  }

  predicate Extends(a: map<nat, nat>, b: map<nat, nat>) {
    forall key :: key in a ==> key in b && b[key] == a[key]
  }

  /** Images are pairwise different nets created since the plan had `base` of them. */
  predicate FreshImages(images: map<nat, nat>, base: nat, size: nat) {
    && (forall key :: key in images ==> key != 0 && base <= images[key] < size)
    && (forall a, b :: a in images && b in images && images[a] == images[b] ==> a == b)
  }

  lemma FreshMore(images: map<nat, nat>, base: nat, size: nat, key: nat)
    requires FreshImages(images, base, size) && base <= size && key != 0
    ensures FreshImages(images[key := size], base, size + 1)
    ensures key !in images ==> Extends(images, images[key := size])
  {
  }

  lemma {:induction false} MirrorsMore(scope: Scope, copy: Scope, labels: Labels, a: map<nat, nat>, b: map<nat, nat>)
    requires Mirrors(scope, copy, labels, a) && Extends(a, b)
    ensures Mirrors(scope, copy, labels, b)
    decreases scope
  {
    forall i | 0 <= i < |scope.items|
      ensures ItemMirrors(scope.items[i], copy.items[i], labels, b)
    {
      ItemMirrorsMore(scope.items[i], copy.items[i], labels, a, b);
    }
  }

  lemma {:induction false} ItemMirrorsMore(item: Item, copy: Item, labels: Labels, a: map<nat, nat>, b: map<nat, nat>)
    requires ItemMirrors(item, copy, labels, a) && Extends(a, b)
    ensures ItemMirrors(item, copy, labels, b)
    decreases item
  {
    if item.Part? { MirrorsMore(item.scope, copy.scope, labels, a, b); }
  }

  ghost predicate Apart(a: seq<Net>, b: seq<Net>) {
    forall i, j :: 0 <= i < |a| && 0 <= j < |b| ==> a[i] != b[j]
  }

  lemma ApartBack(a: seq<Net>, b: seq<Net>)
    requires Apart(a, b)
    ensures forall net :: net in b ==> net !in a
  {
  }

  // ---- The clone ----------------------------------------------------------------------------------

  /** One clone in progress: the template's nets, the plan's, and the map between their classes. */
  class Overlay {
    const source: Forest
    const target: Forest
    var netMap: map<Net, Net>
    ghost const base: nat
    ghost var images: map<nat, nat>

    ghost predicate Live()
      reads this, source, source.nets, target, target.nets
    {
      source.Valid() && target.Valid() && source != target && Apart(source.nets, target.nets) && Mapped()
    }

    /** The map covers representatives of the template and names fresh nets of the plan. */
    ghost predicate Mapped()
      reads this, source, target
    {
      && 0 < base <= |target.labels| == |target.nets| && |source.labels| == |source.nets|
      && FreshImages(images, base, |target.labels|)
      && (forall i :: base <= i < |target.labels| ==> target.labels[i] == i)
      && (forall key :: key in images ==> key < |source.labels| && source.labels[key] == key && source.nets[key] in netMap)
      && (forall net :: net in netMap ==> Tied(net, netMap[net]))
    }

    ghost predicate Tied(root: Net, copy: Net)
      reads this, source, target
    {
      source.Owns(root) && target.Owns(copy) && root.index in images && images[root.index] == copy.index
    }

    constructor (source: Forest, target: Forest)
      requires source.Valid() && target.Valid() && source != target
      requires Apart(source.nets, target.nets)
      ensures Live() && this.source == source && this.target == target && base == |target.labels| && images == map[]
    {
      this.source, this.target, this.base := source, target, |target.labels|;
      this.netMap, this.images := map[], map[];
    }

    /** Finding a representative compresses paths in the template, and changes no class. */
    method SourceRoot(net: Net) returns (root: Net)
      requires Live() && source.Owns(net)
      modifies source.nets
      ensures Live() && source.Owns(root) && root.index == source.labels[net.index] && (root.ground <==> root.index == 0)
    {
      ApartBack(source.nets, target.nets);
      root := source.Root(net);
    }

    /** A fresh net of the plan for a class not met before. */
    method AddImage(root: Net)
      requires Live() && source.Owns(root) && source.labels[root.index] == root.index && root.index != 0 && root !in netMap
      modifies this, target
      ensures Live() && root in netMap && Later(old(images), old(target.labels), old(target.nets))
    {
      hide FreshImages, Extends;
      assert root.index !in images;
      FreshMore(images, base, |target.labels|, root.index);
      var added := target.Add();
      netMap, images := netMap[root := added], images[root.index := added.index];
      forall net | net in netMap
        ensures Tied(net, netMap[net])
      {
        if net != root {
          assert old(Tied(net, netMap[net]));
          Different(net, root);
        }
      }
    }

    lemma Different(a: Net, b: Net)
      requires source.Owns(a) && source.Owns(b) && a != b
      ensures a.index != b.index
    {
    }

    /** The plan's net for an old net: the ground, or one fresh net per class. */
    method OverlayNet(net: Net) returns (copy: Net)
      requires Live() && source.Owns(net)
      modifies this, target, source.nets
      ensures Live() && Later(old(images), old(target.labels), old(target.nets))
      ensures target.Owns(copy) && Image(images, source.labels[net.index]) == Some(copy.index)
    {
      var root := SourceRoot(net);
      if root.ground {
        assert target.Leans(0);
        return target.ground;
      }
      if root !in netMap {
        AddImage(root);
      }
      assert Tied(root, netMap[root]);
      copy := netMap[root];
    }

    /** The plan only gained nets, each a class of its own. */
    ghost predicate Later(images0: map<nat, nat>, labels: Labels, nets: seq<Net>)
      reads this, target
    {
      Extends(images0, images) && labels <= target.labels && nets <= target.nets
    }

    /** One copied endpoint or nested scope. */
    method CopyItem(item: Item) returns (copy: Item)
      requires Live() && ItemOwned(item, source)
      modifies this, target, source.nets
      ensures Live() && Later(old(images), old(target.labels), old(target.nets))
      ensures ItemMirrors(item, copy, source.labels, images) && ItemLies(copy, target.nets)
      decreases item
    {
      match item
      case Endpoint(net) =>
        var image := OverlayNet(net);
        copy := Endpoint(image);
      case Part(inner) =>
        var part := CopyScope(inner);
        copy := Part(part);
    }

    /** The overlay of one scope; nested scopes share its map. */
    method CopyScope(scope: Scope) returns (copy: Scope)
      requires Live() && OwnedBy(scope, source)
      modifies this, target, source.nets
      ensures Live() && Later(old(images), old(target.labels), old(target.nets))
      ensures Mirrors(scope, copy, source.labels, images) && Lies(copy, target.nets)
      decreases scope
    {
      var items: seq<Item> := [];
      for i := 0 to |scope.items|
        invariant Live() && Later(old(images), old(target.labels), old(target.nets))
        invariant |items| == i && PrefixMirrors(scope.items, items, i, source.labels, images) && AllLie(items, target.nets)
      {
        assert ItemOwned(scope.items[i], source);
        ghost var before, nets := images, target.nets;
        var item := CopyItem(scope.items[i]);
        AllLieMore(items, nets, item, target.nets);
        PrefixMore(scope.items, items, i, item, source.labels, before, images);
        items := items + [item];
      }
      copy := Scope(items);
    }
  }

  ghost predicate PrefixMirrors(items: seq<Item>, copies: seq<Item>, n: nat, labels: Labels, images: map<nat, nat>)
    requires n <= |items| && n <= |copies|
  {
    forall i :: 0 <= i < n ==> ItemMirrors(items[i], copies[i], labels, images)
  }

  ghost predicate AllLie(items: seq<Item>, nets: seq<Net>) {
    forall i :: 0 <= i < |items| ==> ItemLies(items[i], nets)
  }

  lemma AllLieMore(items: seq<Item>, nets: seq<Net>, item: Item, more: seq<Net>)
    requires AllLie(items, nets) && nets <= more && ItemLies(item, more)
    ensures AllLie(items + [item], more)
  {
    forall i | 0 <= i < |items|
      ensures ItemLies(items[i], more)
    {
      ItemLiesMore(items[i], nets, more);
    }
  }

  lemma PrefixMore(items: seq<Item>, copies: seq<Item>, n: nat, copy: Item, labels: Labels, a: map<nat, nat>, b: map<nat, nat>)
    requires n < |items| && n == |copies| && PrefixMirrors(items, copies, n, labels, a) && Extends(a, b)
    requires ItemMirrors(items[n], copy, labels, b)
    ensures PrefixMirrors(items, copies + [copy], n + 1, labels, b)
  {
    forall i | 0 <= i < n
      ensures ItemMirrors(items[i], copies[i], labels, b)
    {
      ItemMirrorsMore(items[i], copies[i], labels, a, b);
    }
  }

  // ---- What the copy preserves ------------------------------------------------------------------------

  /** The copy has an endpoint exactly where the template has one, on the image of its class. */
  lemma {:induction false} MirrorAt(scope: Scope, copy: Scope, labels: Labels, images: map<nat, nat>, path: seq<nat>)
    requires Mirrors(scope, copy, labels, images)
    ensures At(scope, path).Some? <==> At(copy, path).Some?
    ensures At(scope, path).Some? ==>
      At(scope, path).value.index < |labels| && Image(images, labels[At(scope, path).value.index]) == Some(At(copy, path).value.index)
    decreases scope
  {
    if path != [] && path[0] < |scope.items| {
      assert ItemMirrors(scope.items[path[0]], copy.items[path[0]], labels, images);
      if scope.items[path[0]].Part? {
        MirrorAt(scope.items[path[0]].scope, copy.items[path[0]].scope, labels, images, path[1..]);
      }
    }
  }

  /** Two endpoints share a net in the plan exactly when they did in the template, and lie on the
      plan's ground exactly when they did on the template's. */
  ghost predicate SamePartition(scope: Scope, copy: Scope, source: Labels, target: Labels, p: seq<nat>, q: seq<nat>)
  {
    && (At(scope, p).Some? <==> At(copy, p).Some?) && (At(scope, q).Some? <==> At(copy, q).Some?)
    && (At(scope, p).Some? && At(scope, q).Some? ==>
          var (a, b, c, d) := (At(scope, p).value.index, At(scope, q).value.index, At(copy, p).value.index, At(copy, q).value.index);
          && a < |source| && b < |source| && c < |target| && d < |target|
          && (target[c] == target[d] <==> source[a] == source[b])
          && (target[c] == 0 <==> source[a] == 0))
  }

  lemma CopyKeepsPartition(scope: Scope, copy: Scope, source: Labels, target: Labels, images: map<nat, nat>, base: nat,
                           p: seq<nat>, q: seq<nat>)
    requires Mirrors(scope, copy, source, images) && FreshImages(images, base, |target|) && 0 < base <= |target| && target[0] == 0
    requires forall i :: base <= i < |target| ==> target[i] == i
    ensures SamePartition(scope, copy, source, target, p, q)
  {
    MirrorAt(scope, copy, source, images, p);
    MirrorAt(scope, copy, source, images, q);
  }

  /** Attaching a template: a fresh overlay with the template's wire equivalence. */
  method Attach(template: Scope, source: Forest, target: Forest) returns (copy: Scope)
    requires source.Valid() && target.Valid() && source != target && Apart(source.nets, target.nets)
    requires OwnedBy(template, source)
    modifies target, source.nets
    ensures source.Valid() && target.Valid() && Apart(source.nets, target.nets)
    ensures source.labels == old(source.labels) && source.nets == old(source.nets)
    ensures old(target.labels) <= target.labels
    ensures forall p, q :: SamePartition(template, copy, source.labels, target.labels, p, q)
    ensures OnlyFreshNets(copy, old(|target.nets|)) && Lies(copy, target.nets)
  {
    var overlay := new Overlay(source, target);
    copy := overlay.CopyScope(template);
    forall p, q
      ensures SamePartition(template, copy, source.labels, target.labels, p, q)
    {
      CopyKeepsPartition(template, copy, source.labels, target.labels, overlay.images, overlay.base, p, q);
    }
    CopyIsFresh(template, copy, source.labels, overlay.images, overlay.base, |target.labels|);
  }

  /** Apart from the ground every endpoint of the copy lies on a net made for it. */
  ghost predicate OnlyFreshNets(copy: Scope, base: nat) {
    forall path :: At(copy, path).Some? ==> At(copy, path).value.index == 0 || At(copy, path).value.index >= base
  }

  lemma CopyIsFresh(scope: Scope, copy: Scope, labels: Labels, images: map<nat, nat>, base: nat, size: nat)
    requires Mirrors(scope, copy, labels, images) && FreshImages(images, base, size)
    ensures OnlyFreshNets(copy, base)
  {
    forall path | At(copy, path).Some?
      ensures At(copy, path).value.index == 0 || At(copy, path).value.index >= base
    {
      MirrorAt(scope, copy, labels, images, path);
    }
  }

  /** The labels after joins in order. */
  ghost function Merged(labels: Labels, joins: seq<(Net, Net)>, n: nat): (merged: Labels)
    requires n <= |joins| && forall k :: 0 <= k < |joins| ==> joins[k].0.index < |labels| && joins[k].1.index < |labels|
    ensures |merged| == |labels|
  {
    if n == 0 then labels else Merge(Merged(labels, joins, n - 1), joins[n - 1].0.index, joins[n - 1].1.index)
  }

  /** No later joins in the plan change the template's wire equivalence. */
  method JoinInPlan(source: Forest, target: Forest, joins: seq<(Net, Net)>)
    requires source.Valid() && target.Valid() && source != target && Apart(source.nets, target.nets)
    requires forall k :: 0 <= k < |joins| ==> target.Owns(joins[k].0) && target.Owns(joins[k].1)
    modifies target, target.nets
    ensures source.Valid() && source.labels == old(source.labels) && source.nets == old(source.nets)
    ensures target.Valid() && target.nets == old(target.nets) && Apart(source.nets, target.nets)
    ensures |target.nets| == |target.labels| && forall k :: 0 <= k < |joins| ==>
      joins[k].0.index < |target.nets| && joins[k].1.index < |target.nets|
    ensures target.labels == Merged(old(target.labels), joins, |joins|)
  {
    ghost var labels := target.labels;
    for k := 0 to |joins|
      invariant source.Valid() && source.labels == old(source.labels) && source.nets == old(source.nets)
      invariant target.Valid() && target.nets == old(target.nets)
      invariant forall i :: 0 <= i < |joins| ==> joins[i].0.index < |labels| && joins[i].1.index < |labels|
      invariant target.labels == Merged(labels, joins, k)
    {
      var _ := target.Join(joins[k].0, joins[k].1);
    }
  }
}
