/** Grouping coupled inductive branches. */
module Coupling {
  // The worklist search finds exactly the connected components of the coupling graph.

  import opened Partition

  function Members(branches: seq<nat>): (members: set<nat>)
    ensures forall x :: x in members <==> x in branches
  {
    set x | x in branches
  }

  predicate Unrepeated(branches: seq<nat>) {
    forall i, j :: 0 <= i < j < |branches| ==> branches[i] != branches[j]
  }

  /** Nothing in the set is coupled to anything outside it. */
  ghost predicate Closed(edges: seq<Wire>, members: set<nat>) {
    forall x, y :: x in members && Touches(edges, x, y) ==> y in members
  }

  lemma {:induction false} ClosedPaths(edges: seq<Wire>, members: set<nat>, path: seq<nat>)
    requires Closed(edges, members) && IsPath(edges, path) && path[0] in members
    ensures path[|path| - 1] in members
  {
    if |path| > 1 {
      assert Touches(edges, path[|path| - 2], path[|path| - 1]);
      ClosedPaths(edges, members, path[..|path| - 1]);
    }
  }

  /** A closed set holds whole components. */
  lemma ClosedReaches(edges: seq<Wire>, members: set<nat>, x: nat, y: nat)
    requires Closed(edges, members) && x in members && Related(edges, x, y)
    ensures y in members
  {
    var path :| Leads(edges, path, x, y);
    ClosedPaths(edges, members, path);
  }

  // ---- The adjacency lists --------------------------------------------------------------------------

  ghost predicate Adjacent(neighbors: seq<seq<nat>>, edges: seq<Wire>) {
    forall x: nat, y: nat :: x < |neighbors| ==> (y in neighbors[x] <==> Touches(edges, x, y))
  }

  lemma TouchesMore(edges: seq<Wire>, edge: Wire, x: nat, y: nat)
    ensures Touches(edges + [edge], x, y) <==> Touches(edges, x, y) || (x == edge.0 && y == edge.1) || (x == edge.1 && y == edge.0)
  {
  }

  lemma NeighborsMore(neighbors: seq<seq<nat>>, edges: seq<Wire>, edge: Wire)
    requires Adjacent(neighbors, edges) && edge.0 < |neighbors| && edge.1 < |neighbors|
    ensures var first := neighbors[edge.0 := neighbors[edge.0] + [edge.1]];
      Adjacent(first[edge.1 := first[edge.1] + [edge.0]], edges + [edge])
  {
    var first := neighbors[edge.0 := neighbors[edge.0] + [edge.1]];
    var second := first[edge.1 := first[edge.1] + [edge.0]];
    forall x: nat, y: nat | x < |neighbors|
      ensures y in second[x] <==> Touches(edges + [edge], x, y)
    {
      TouchesMore(edges, edge, x, y);
    }
  }

  method NeighborLists(n: nat, edges: seq<Wire>) returns (neighbors: seq<seq<nat>>)
    requires InRange(edges, n)
    ensures |neighbors| == n && Adjacent(neighbors, edges)
  {
    neighbors := seq(n, _ => []);
    for k := 0 to |edges|
      invariant |neighbors| == n && Adjacent(neighbors, edges[..k])
    {
      var (a, b) := edges[k];
      assert edges[k] in edges;
      NeighborsMore(neighbors, edges[..k], edges[k]);
      assert edges[..k + 1] == edges[..k] + [edges[k]];
      neighbors := neighbors[a := neighbors[a] + [b]];
      neighbors := neighbors[b := neighbors[b] + [a]];
    }
    assert edges[..|edges|] == edges;
  }

  // ---- One component ----------------------------------------------------------------------------------

  /** The state of the search from `start`: `group` is done, `pending` waits, both were reached, and
      everything coupled to a done branch is known. */
  ghost predicate Searching(edges: seq<Wire>, n: nat, before: set<nat>, visited: set<nat>, start: nat,
                            group: seq<nat>, pending: seq<nat>) {
    && visited == before + Members(group) + Members(pending)
    && Unrepeated(group + pending) && (forall x :: x in group + pending ==> x < n && x !in before)
    && (forall x :: x in group + pending ==> Related(edges, start, x))
    && (forall x, y :: x in group && Touches(edges, x, y) ==> y in visited)
    && start in group + pending
  }

  lemma UnrepeatedMove(group: seq<nat>, pending: seq<nat>)
    requires pending != [] && Unrepeated(group + pending)
    ensures var last := |pending| - 1;
      && Unrepeated((group + [pending[last]]) + pending[..last])
      && forall x :: x in (group + [pending[last]]) + pending[..last] <==> x in group + pending
  {
    var last := |pending| - 1;
    var all, moved := group + pending, (group + [pending[last]]) + pending[..last];
    forall i | 0 <= i < |moved|
      ensures moved[i] in all
    {
      assert moved[i] == if i < |group| then all[i] else if i == |group| then all[|all| - 1] else all[i - 1];
    }
    forall i | 0 <= i < |all|
      ensures all[i] in moved
    {
      assert all[i] == if i < |group| then moved[i] else if i == |all| - 1 then moved[|group|] else moved[i + 1];
    }
    forall i, j | 0 <= i < j < |moved|
      ensures moved[i] != moved[j]
    {
      assert moved[i] == if i < |group| then all[i] else if i == |group| then all[|all| - 1] else all[i - 1];
      assert moved[j] == if j < |group| then all[j] else if j == |group| then all[|all| - 1] else all[j - 1];
    }
  }

  /** Pushes the neighbors of a branch that were not met before. */
  method PushNeighbors(neighbors: seq<nat>, visited: set<nat>, pending: seq<nat>) returns (seen: set<nat>, waiting: seq<nat>)
    requires Unrepeated(pending) && forall x :: x in pending ==> x in visited
    ensures seen == visited + Members(neighbors)
    ensures pending <= waiting && Unrepeated(waiting) && Members(waiting) == Members(pending) + (Members(neighbors) - visited)
  {
    seen, waiting := visited, pending;
    for k := 0 to |neighbors|
      invariant seen == visited + Members(neighbors[..k])
      invariant pending <= waiting && Unrepeated(waiting) && Members(waiting) == Members(pending) + (Members(neighbors[..k]) - visited)
    {
      assert neighbors[..k + 1] == neighbors[..k] + [neighbors[k]];
      if neighbors[k] !in seen {
        seen := seen + {neighbors[k]};
        waiting := waiting + [neighbors[k]];
      }
    }
    assert neighbors[..|neighbors|] == neighbors;
  }

  lemma UnrepeatedJoin(group: seq<nat>, waiting: seq<nat>)
    requires Unrepeated(group) && Unrepeated(waiting) && forall x :: x in waiting ==> x !in group
    ensures Unrepeated(group + waiting)
  {
    var all := group + waiting;
    forall i, j | 0 <= i < j < |all|
      ensures all[i] != all[j]
    {
      if i < |group| <= j {
        assert all[j] in waiting && all[i] in group;
      }
    }
  }

  lemma UnrepeatedParts(group: seq<nat>, waiting: seq<nat>)
    requires Unrepeated(group + waiting)
    ensures Unrepeated(group) && Unrepeated(waiting) && forall x :: x in waiting ==> x !in group
  {
    forall i, j | 0 <= i < j < |group|
      ensures group[i] != group[j]
    {
      assert (group + waiting)[i] == group[i] && (group + waiting)[j] == group[j];
    }
    forall i, j | 0 <= i < |group| && 0 <= j < |waiting|
      ensures group[i] != waiting[j]
    {
      assert (group + waiting)[i] == group[i] && (group + waiting)[|group| + j] == waiting[j];
    }
    forall i, j | 0 <= i < j < |waiting|
      ensures waiting[i] != waiting[j]
    {
      assert (group + waiting)[|group| + i] == waiting[i] && (group + waiting)[|group| + j] == waiting[j];
    }
  }

  /** Taking one branch off the list and pushing its unknown neighbors keeps the search in order. */
  lemma SearchStep(edges: seq<Wire>, n: nat, before: set<nat>, visited: set<nat>, start: nat, group: seq<nat>, pending: seq<nat>,
                   neighbors: seq<nat>, seen: set<nat>, waiting: seq<nat>)
    requires Searching(edges, n, before, visited, start, group, pending) && pending != [] && InRange(edges, n)
    requires var index := pending[|pending| - 1]; forall y: nat :: y in neighbors <==> Touches(edges, index, y)
    requires seen == visited + Members(neighbors) && Unrepeated(waiting)
    requires Members(waiting) == Members(pending[..|pending| - 1]) + (Members(neighbors) - visited)
    ensures Searching(edges, n, before, seen, start, group + [pending[|pending| - 1]], waiting)
  {
    var index, rest := pending[|pending| - 1], pending[..|pending| - 1];
    var done := group + [index];
    UnrepeatedMove(group, pending);
    UnrepeatedParts(done, rest);
    forall x | x in waiting
      ensures x !in done && x < n && x !in before && Related(edges, start, x)
    {
      assert x in Members(waiting);
      if x in rest {
        assert x in done + rest;
      } else {
        assert Touches(edges, index, x) && index in group + pending && x !in visited;
        RelatedWire(edges, index, x);
        RelatedTwice(edges, start, index, x);
      }
    }
    UnrepeatedJoin(done, waiting);
    assert seen == before + Members(done) + Members(waiting) by {
      assert Members(group) + Members(pending) == Members(done) + Members(rest);
    }
    assert start in done + waiting by {
      assert start in done + rest;
      if start !in done { assert start in Members(waiting); }
    }
  }

  /** Everything coupled, directly or not, to one branch. */
  method Explore(n: nat, ghost edges: seq<Wire>, neighbors: seq<seq<nat>>, before: set<nat>, start: nat)
    returns (group: seq<nat>, visited: set<nat>)
    requires InRange(edges, n) && |neighbors| == n && Adjacent(neighbors, edges)
    requires start < n && start !in before && Closed(edges, before) && forall x :: x in before ==> x < n
    ensures Unrepeated(group) && visited == before + Members(group) && Closed(edges, visited)
    ensures forall x :: x in group ==> x < n && x !in before
    ensures forall x: nat :: x in group <==> Related(edges, start, x)
  {
    var pending := [start];
    group, visited := [], before + {start};
    RelatedSelf(edges, start);
    while pending != []
      invariant Searching(edges, n, before, visited, start, group, pending)
      decreases n - |group|
    {
      var index := pending[|pending| - 1];
      assert index in group + pending;
      AtMost(group + pending, n);
      var seen, waiting := PushNeighbors(neighbors[index], visited, Rest(pending, group));
      SearchStep(edges, n, before, visited, start, group, pending, neighbors[index], seen, waiting);
      group := group + [index];
      pending, visited := waiting, seen;
    }
    assert group + pending == group;
    Found(edges, n, before, visited, start, group);
  }

  function Rest(pending: seq<nat>, group: seq<nat>): (rest: seq<nat>)
    requires pending != [] && Unrepeated(group + pending)
    ensures rest == pending[..|pending| - 1] && Unrepeated(rest)
  {
    UnrepeatedParts(group, pending);
    pending[..|pending| - 1]
  }

  lemma {:induction false} AtMost(branches: seq<nat>, n: nat)
    requires Unrepeated(branches) && forall x :: x in branches ==> x < n
    ensures |branches| <= n
  {
    if branches != [] {
      assert branches[0] in branches && 0 < n;
      if n - 1 in branches {
        var i :| 0 <= i < |branches| && branches[i] == n - 1;
        var others := branches[..i] + branches[i + 1..];
        forall x | x in others
          ensures x < n - 1
        {
          var k :| 0 <= k < |others| && others[k] == x;
          var at := if k < i then k else k + 1;
          assert others[k] == branches[at] && branches[at] in branches && branches[at] != branches[i];
        }
        forall j, k | 0 <= j < k < |others|
          ensures others[j] != others[k]
        {
          assert others[j] == branches[if j < i then j else j + 1] && others[k] == branches[if k < i then k else k + 1];
        }
        AtMost(others, n - 1);
      } else {
        AtMost(branches, n - 1);
      }
    }
  }

  /** When nothing waits the group is the whole component. */
  lemma Found(edges: seq<Wire>, n: nat, before: set<nat>, visited: set<nat>, start: nat, group: seq<nat>)
    requires Searching(edges, n, before, visited, start, group, []) && Closed(edges, before)
    ensures Unrepeated(group) && visited == before + Members(group) && Closed(edges, visited)
    ensures forall x: nat :: x in group <==> Related(edges, start, x)
  {
    assert group + [] == group;
    forall x: nat | Related(edges, start, x)
      ensures x in group
    {
      ClosedReaches(edges, visited, start, x);
      if x in before {
        RelatedBack(edges, start, x);
        ClosedReaches(edges, before, x, start);
      }
    }
  }

  // ---- All components -----------------------------------------------------------------------------------

  /** The group is exactly one component of the coupling graph. */
  ghost predicate IsComponent(edges: seq<Wire>, n: nat, group: seq<nat>) {
    && group != [] && Unrepeated(group)
    && (forall x :: x in group ==> x < n)
    && forall x: nat, y: nat :: x in group && y < n ==> (y in group <==> Related(edges, x, y))
  }

  ghost predicate Grouping(edges: seq<Wire>, n: nat, groups: seq<seq<nat>>, visited: set<nat>) {
    && (forall g :: 0 <= g < |groups| ==> IsComponent(edges, n, groups[g]))
    && (forall g, h :: 0 <= g < h < |groups| ==> Members(groups[g]) !! Members(groups[h]))
    && (forall x :: x in visited <==> InSome(groups, x))
  }

  /** The groups are components, overlap nowhere and cover every branch. */
  ghost predicate Components(edges: seq<Wire>, n: nat, groups: seq<seq<nat>>) {
    && (forall g :: 0 <= g < |groups| ==> IsComponent(edges, n, groups[g]))
    && (forall g, h :: 0 <= g < h < |groups| ==> Members(groups[g]) !! Members(groups[h]))
    && (forall x: nat :: x < n ==> InSome(groups, x))
  }

  predicate InSome(groups: seq<seq<nat>>, x: nat) {
    exists g: nat :: g < |groups| && x in groups[g]
  }

  lemma InSomeMore(groups: seq<seq<nat>>, group: seq<nat>)
    ensures forall x :: InSome(groups + [group], x) <==> InSome(groups, x) || x in group
  {
    forall x
      ensures InSome(groups + [group], x) <==> InSome(groups, x) || x in group
    {
      if x in group { assert x in (groups + [group])[|groups|]; }
      if InSome(groups, x) {
        var g: nat :| g < |groups| && x in groups[g];
        assert x in (groups + [group])[g];
      }
    }
  }

  lemma ComponentFound(edges: seq<Wire>, n: nat, start: nat, group: seq<nat>)
    requires start < n && Unrepeated(group) && (forall x :: x in group ==> x < n)
    requires forall x: nat :: x in group <==> Related(edges, start, x)
    ensures IsComponent(edges, n, group)
  {
    RelatedSelf(edges, start);
    forall x: nat, y: nat | x in group && y < n
      ensures y in group <==> Related(edges, x, y)
    {
      RelatedBack(edges, start, x);
      if y in group { RelatedTwice(edges, x, start, y); }
      if Related(edges, x, y) { RelatedTwice(edges, start, x, y); }
    }
  }

  lemma GroupingMore(edges: seq<Wire>, n: nat, groups: seq<seq<nat>>, visited: set<nat>, group: seq<nat>)
    requires Grouping(edges, n, groups, visited) && IsComponent(edges, n, group) && forall x :: x in group ==> x !in visited
    ensures Grouping(edges, n, groups + [group], visited + Members(group))
  {
    InSomeMore(groups, group);
    forall g | 0 <= g < |groups|
      ensures Members(groups[g]) !! Members(group)
    {
      forall x | x in groups[g]
        ensures x !in group
      {
        assert InSome(groups, x);
      }
    }
  }

  /** The components of the coupling graph, found by a worklist search from every branch not met yet. */
  method CoupledGroups(n: nat, edges: seq<Wire>) returns (groups: seq<seq<nat>>)
    requires InRange(edges, n)
    ensures Components(edges, n, groups)
  {
    var neighbors := NeighborLists(n, edges);
    groups := [];
    var visited: set<nat> := {};
    for start := 0 to n
      invariant Grouping(edges, n, groups, visited) && Closed(edges, visited)
      invariant forall x :: x in visited ==> x < n
      invariant forall x: nat :: x < start ==> x in visited
    {
      if start !in visited {
        var group, seen := Explore(n, edges, neighbors, visited, start);
        ComponentFound(edges, n, start, group);
        GroupingMore(edges, n, groups, visited, group);
        RelatedSelf(edges, start);
        groups, visited := groups + [group], seen;
      }
    }
  }

  /** Every branch lies in exactly one group, and two branches share one exactly when a coupling
      path joins them. */
  lemma GroupsAreComponents(edges: seq<Wire>, n: nat, groups: seq<seq<nat>>, g: nat, h: nat, x: nat, y: nat)
    requires Components(edges, n, groups) && x < n && y < n
    requires g < |groups| && h < |groups| && x in groups[g] && y in groups[h]
    ensures g == h <==> Related(edges, x, y)
    ensures forall k: nat :: k < |groups| && x in groups[k] ==> k == g
  {
    assert IsComponent(edges, n, groups[g]);
    forall k: nat | k < |groups| && x in groups[k]
      ensures k == g
    {
      assert x in Members(groups[k]) && x in Members(groups[g]);
    }
    if g != h {
      assert y in Members(groups[h]);
      assert y !in Members(groups[g]);
    }
  }

  /** Both branches of every coupling are stamped in exactly one group's inductance matrix. */
  lemma EdgeInOneGroup(edges: seq<Wire>, n: nat, groups: seq<seq<nat>>, edge: Wire)
    requires Components(edges, n, groups) && InRange(edges, n) && edge in edges
    ensures exists g: nat :: OnlyGroup(groups, edge, g)
  {
    assert InSome(groups, edge.0);
    var g: nat :| g < |groups| && edge.0 in groups[g];
    assert IsComponent(edges, n, groups[g]);
    RelatedWire(edges, edge.0, edge.1);
    GroupsAreComponents(edges, n, groups, g, g, edge.0, edge.1);
    assert OnlyGroup(groups, edge, g);
  }

  ghost predicate OnlyGroup(groups: seq<seq<nat>>, edge: Wire, g: nat) {
    && g < |groups| && edge.0 in groups[g] && edge.1 in groups[g]
    && forall k: nat :: k < |groups| && edge.0 in groups[k] && edge.1 in groups[k] ==> k == g
  }
}
