/** Canonical names of the final wire classes: groups of typed endpoint keys, sorted and numbered,
    independent of how the classes came about. */
module NetNames {
  import opened Partition

  /** The position of a typed endpoint record in the order of all such records. */
  type Key = int

  /** Each typed endpoint's class, by representative; the ground's is 0. */
  type Placing = map<Key, nat>

  datatype Name = GroundName | Numbered(index: nat)

  // ---- What a name means ------------------------------------------------------------------------

  function KeysOf(placing: Placing, root: nat): (keys: set<Key>)
    ensures forall key :: key in keys <==> key in placing && placing[key] == root
  {
    set key | key in placing && placing[key] == root
  }

  function Roots(placing: Placing): (roots: set<nat>)
    ensures forall key :: key in placing ==> placing[key] in roots
    ensures forall root :: root in roots ==> exists key :: key in placing && placing[key] == root
  {
    set key | key in placing :: placing[key]
  }

  /** The key sets of all classes but the ground's. */
  function Classes(placing: Placing): set<set<Key>> {
    set key | key in placing && placing[key] != 0 :: KeysOf(placing, placing[key])
  }

  /** The class with the smaller least key comes first. */
  predicate Before(a: set<Key>, b: set<Key>) {
    exists key :: key in a && Below(key, b)
  }

  predicate Below(key: Key, b: set<Key>) {
    forall other :: other in b ==> key < other
  }

  function Earlier(classes: set<set<Key>>, group: set<Key>): (earlier: set<set<Key>>)
    ensures forall other :: other in earlier <==> other in classes && Before(other, group)
  {
    set other | other in classes && Before(other, group)
  }

  /** The ground's name, or the position of the class in the order of least keys. */
  function NameOf(placing: Placing, root: nat): Name {
    if root == 0 then GroundName else Numbered(1 + |Earlier(Classes(placing), KeysOf(placing, root))|)
  }

  // ---- Names are injective ------------------------------------------------------------------------

  lemma LeastOf(keys: set<Key>) returns (least: Key)
    requires exists key :: key in keys
    ensures least in keys && forall key :: key in keys ==> least <= key
  {
    least :| least in keys;
    var rest := keys - {least};
    if exists key :: key in rest {
      var other := LeastOf(rest);
      if other < least { least := other; }
    }
    forall key | key in keys
      ensures least <= key
    {
      assert key in rest || key !in rest;
    }
  }

  /** Of two different classes exactly one comes before the other. */
  lemma BeforeTotal(a: set<Key>, b: set<Key>)
    requires (exists key :: key in a) && (exists key :: key in b) && a !! b
    ensures Before(a, b) || Before(b, a)
    ensures !Before(a, a)
  {
    var x := LeastOf(a);
    var y := LeastOf(b);
    if x < y { assert Below(x, b); } else { assert Below(y, a); }
  }

  lemma BeforeTwice(a: set<Key>, b: set<Key>, c: set<Key>)
    requires Before(a, b) && Before(b, c)
    ensures Before(a, c)
  {
    var x :| x in a && Below(x, b);
    var y :| y in b && Below(y, c);
    assert Below(x, c);
  }

  lemma EarlierGrows(classes: set<set<Key>>, a: set<Key>, b: set<Key>)
    requires a in classes && Before(a, b) && !Before(a, a)
    ensures |Earlier(classes, a)| < |Earlier(classes, b)|
  {
    var x, y := Earlier(classes, a), Earlier(classes, b);
    forall c | c in x
      ensures c in y
    {
      BeforeTwice(c, a, b);
    }
    assert a in y && a !in x;
    assert y == x + (y - x) && a in y - x;
  }

  /** Different classes have different names, and only the ground is called ground. */
  lemma NamesInjective(placing: Placing, k: Key, m: Key)
    requires k in placing && m in placing
    ensures NameOf(placing, placing[k]) == NameOf(placing, placing[m]) <==> placing[k] == placing[m]
    ensures NameOf(placing, placing[k]).GroundName? <==> placing[k] == 0
  {
    hide Before;
    if placing[k] != placing[m] && placing[k] != 0 && placing[m] != 0 {
      var x, y, classes := KeysOf(placing, placing[k]), KeysOf(placing, placing[m]), Classes(placing);
      assert k in x && m in y;
      BeforeTotal(x, y);
      BeforeTotal(y, x);
      if Before(x, y) { EarlierGrows(classes, x, y); } else { EarlierGrows(classes, y, x); }
    }
  }

  /** Class `a` has an endpoint before every endpoint of class `b`. */
  ghost predicate Leads(placing: Placing, a: nat, b: nat) {
    exists x :: x in placing && placing[x] == a && forall y :: y in placing && placing[y] == b ==> x < y
  }

  /** Classes are numbered from one, without a gap, by their first endpoints. */
  lemma NamesOrdered(placing: Placing, k: Key, m: Key)
    requires k in placing && m in placing && placing[k] != 0 && placing[m] != 0
    ensures NameOf(placing, placing[k]).Numbered? && NameOf(placing, placing[m]).Numbered?
    ensures NameOf(placing, placing[k]).index < NameOf(placing, placing[m]).index <==> Leads(placing, placing[k], placing[m])
    ensures 1 <= NameOf(placing, placing[k]).index <= |Classes(placing)|
  {
    var x, y, classes := KeysOf(placing, placing[k]), KeysOf(placing, placing[m]), Classes(placing);
    hide Before, Leads, KeysOf, Classes, Earlier, NameOf;
    NumberedBy(placing, placing[k]);
    NumberedBy(placing, placing[m]);
    ClassListed(placing, k);
    ClassListed(placing, m);
    if placing[k] != placing[m] { ClassesApart(placing, placing[k], placing[m]); }
    LeadsIsBefore(placing, placing[k], placing[m]);
    CountedBefore(classes, x, k, y, m);
  }

  lemma NumberedBy(placing: Placing, root: nat)
    requires root != 0
    ensures NameOf(placing, root) == Numbered(1 + |Earlier(Classes(placing), KeysOf(placing, root))|)
  {
  }

  lemma ClassListed(placing: Placing, k: Key)
    requires k in placing && placing[k] != 0
    ensures KeysOf(placing, placing[k]) in Classes(placing) && k in KeysOf(placing, placing[k])
  {
  }

  lemma ClassesApart(placing: Placing, a: nat, b: nat)
    requires a != b
    ensures KeysOf(placing, a) !! KeysOf(placing, b)
  {
  }

  /** A class is counted by those before it. */
  lemma CountedBefore(classes: set<set<Key>>, x: set<Key>, k: Key, y: set<Key>, m: Key)
    requires x in classes && y in classes && k in x && m in y && (x == y || x !! y)
    ensures |Earlier(classes, x)| < |Earlier(classes, y)| <==> Before(x, y)
    ensures |Earlier(classes, x)| < |classes|
  {
    NeverFirst(x, k);
    NeverFirst(y, m);
    hide Before;
    if Before(x, y) {
      EarlierGrows(classes, x, y);
    } else if x != y {
      BeforeTotal(x, y);
      EarlierGrows(classes, y, x);
    }
    assert x !in Earlier(classes, x);
    FewerClasses(Earlier(classes, x), classes, x);
  }

  lemma LeadsIsBefore(placing: Placing, a: nat, b: nat)
    ensures Leads(placing, a, b) <==> Before(KeysOf(placing, a), KeysOf(placing, b))
  {
    if Leads(placing, a, b) {
      var x :| x in placing && placing[x] == a && forall y :: y in placing && placing[y] == b ==> x < y;
      assert Below(x, KeysOf(placing, b));
    }
    if Before(KeysOf(placing, a), KeysOf(placing, b)) {
      var x :| x in KeysOf(placing, a) && Below(x, KeysOf(placing, b));
      assert forall y :: y in placing && placing[y] == b ==> y in KeysOf(placing, b);
    }
  }

  lemma NeverFirst(keys: set<Key>, key: Key)
    requires key in keys
    ensures !Before(keys, keys)
  {
  }

  lemma FewerClasses<T>(some: set<T>, all: set<T>, other: T)
    requires some <= all && other in all && other !in some
    ensures |some| < |all|
  {
    assert all == some + (all - some) && other in all - some;
  }

  // ---- Names depend on the partition alone ----------------------------------------------------------

  /** The same typed endpoints in the same classes, with the same ground class. */
  predicate SamePartition(a: Placing, b: Placing) {
    && a.Keys == b.Keys
    && (forall k :: k in a ==> (a[k] == 0 <==> b[k] == 0))
    && (forall k, m :: k in a && m in a ==> (a[k] == a[m] <==> b[k] == b[m]))
  }

  lemma SameClasses(a: Placing, b: Placing)
    requires SamePartition(a, b)
    ensures forall k :: k in a ==> KeysOf(a, a[k]) == KeysOf(b, b[k])
    ensures Classes(a) == Classes(b)
  {
    forall k | k in a
      ensures KeysOf(a, a[k]) == KeysOf(b, b[k])
    {
      forall m
        ensures m in KeysOf(a, a[k]) <==> m in KeysOf(b, b[k])
      {
      }
    }
    forall group
      ensures group in Classes(a) <==> group in Classes(b)
    {
    }
  }

  /** Any joins and any union-find that leave the same partition of typed endpoints give every
      endpoint the same name. */
  lemma NamesAgree(a: Placing, b: Placing, k: Key)
    requires SamePartition(a, b) && k in a
    ensures NameOf(a, a[k]) == NameOf(b, b[k])
  {
    SameClasses(a, b);
  }

  // ---- The capture loop -------------------------------------------------------------------------------

  /** A typed endpoint as the walk meets it, with its net. */
  type Site = (Key, nat)

  predicate Captured(sites: seq<Site>, labels: Labels) {
    && (forall i :: 0 <= i < |sites| ==> sites[i].1 < |labels|)
    && (forall i, j :: 0 <= i < j < |sites| ==> sites[i].0 != sites[j].0)
  }

  function PlacingOf(sites: seq<Site>, labels: Labels, n: nat): (placing: Placing)
    requires Captured(sites, labels) && n <= |sites|
    ensures forall i :: 0 <= i < n ==> sites[i].0 in placing && placing[sites[i].0] == labels[sites[i].1]
    ensures forall key :: key in placing ==> exists i: nat :: i < n && sites[i].0 == key
  {
    if n == 0 then map[] else PlacingOf(sites, labels, n - 1)[sites[n - 1].0 := labels[sites[n - 1].1]]
  }

  predicate Ascending(keys: seq<Key>) {
    forall i, j :: 0 <= i < j < |keys| ==> keys[i] < keys[j]
  }

  function Elements(keys: seq<Key>): (elements: set<Key>)
    ensures forall key :: key in elements <==> key in keys
  {
    set key | key in keys
  }

  /** Insertion of a new key into an ascending list. */
  function Insert(key: Key, keys: seq<Key>): (longer: seq<Key>)
    requires Ascending(keys) && key !in keys
    ensures Ascending(longer) && Elements(longer) == Elements(keys) + {key}
    ensures longer != [] && (longer[0] == key || (keys != [] && longer[0] == keys[0]))
  {
    if keys == [] || key < keys[0] then [key] + keys
    else
      assert keys == [keys[0]] + keys[1..];
      [keys[0]] + Insert(key, keys[1..])
  }

  /** A class as the sort sees it: its sorted keys and its representative. */
  datatype Row = Row(keys: seq<Key>, root: nat)

  predicate LexLess(a: seq<Key>, b: seq<Key>) {
    b != [] && (a == [] || a[0] < b[0] || (a[0] == b[0] && LexLess(a[1..], b[1..])))
  }

  function InsertRow(row: Row, rows: seq<Row>): (longer: seq<Row>) {
    if rows == [] || LexLess(row.keys, rows[0].keys) then [row] + rows else [rows[0]] + InsertRow(row, rows[1..])
  }

  /** The row holds exactly its class, in order. */
  predicate IsRow(row: Row, placing: Placing) {
    row.keys != [] && Ascending(row.keys) && Elements(row.keys) == KeysOf(placing, row.root)
  }

  predicate InOrder(rows: seq<Row>, placing: Placing) {
    && (forall i :: 0 <= i < |rows| ==> IsRow(rows[i], placing))
    && (forall i, j :: 0 <= i < j < |rows| ==> rows[i].keys[0] < rows[j].keys[0])
  }

  /** Distinct classes are ordered by their first keys, whatever follows. */
  lemma LexIsBefore(a: Row, b: Row, placing: Placing)
    requires IsRow(a, placing) && IsRow(b, placing) && a.root != b.root
    ensures LexLess(a.keys, b.keys) <==> a.keys[0] < b.keys[0]
    ensures a.keys[0] != b.keys[0]
    ensures a.keys[0] < b.keys[0] <==> Before(KeysOf(placing, a.root), KeysOf(placing, b.root))
  {
    assert a.keys[0] in Elements(a.keys) && b.keys[0] in Elements(b.keys);
    if a.keys[0] < b.keys[0] { assert Below(a.keys[0], KeysOf(placing, b.root)); }
  }

  predicate HasRoot(rows: seq<Row>, root: nat) {
    exists i: nat :: i < |rows| && rows[i].root == root
  }

  lemma {:induction false} InsertRowKeeps(row: Row, rows: seq<Row>, placing: Placing)
    requires IsRow(row, placing) && InOrder(rows, placing) && !HasRoot(rows, row.root)
    ensures InOrder(InsertRow(row, rows), placing)
    ensures forall root :: HasRoot(InsertRow(row, rows), root) <==> HasRoot(rows, root) || root == row.root
    ensures InsertRow(row, rows) != [] &&
      (InsertRow(row, rows)[0] == row || (rows != [] && InsertRow(row, rows)[0] == rows[0]))
  {
    OneRoot(row);
    if rows != [] {
      OneRoot(rows[0]);
      LexIsBefore(row, rows[0], placing);
      if LexLess(row.keys, rows[0].keys) {
        Rooted([row], rows);
      } else {
        var rest := rows[1..];
        Rooted([rows[0]], rest);
        assert rows == [rows[0]] + rest;
        InsertRowKeeps(row, rest, placing);
        Rooted([rows[0]], InsertRow(row, rest));
        HeadLowest(rows[0], InsertRow(row, rest), placing);
      }
    } else {
      Rooted([row], []);
    }
  }

  lemma OneRoot(row: Row)
    ensures forall root :: HasRoot([row], root) <==> root == row.root
  {
    assert [row][0].root == row.root;
  }

  lemma HeadLowest(head: Row, rows: seq<Row>, placing: Placing)
    requires IsRow(head, placing) && InOrder(rows, placing) && (rows != [] ==> head.keys[0] < rows[0].keys[0])
    ensures InOrder([head] + rows, placing)
  {
    forall j | 0 <= j < |rows|
      ensures head.keys[0] < rows[j].keys[0]
    {
      assert j > 0 ==> rows[0].keys[0] < rows[j].keys[0];
    }
  }

  lemma Rooted(a: seq<Row>, b: seq<Row>)
    ensures forall root :: HasRoot(a + b, root) <==> HasRoot(a, root) || HasRoot(b, root)
  {
    forall root
      ensures HasRoot(a + b, root) <==> HasRoot(a, root) || HasRoot(b, root)
    {
      if HasRoot(a, root) {
        var i: nat :| i < |a| && a[i].root == root;
        assert (a + b)[i].root == root;
      }
      if HasRoot(b, root) {
        var i: nat :| i < |b| && b[i].root == root;
        assert (a + b)[|a| + i].root == root;
      }
    }
  }

  /** The key lists collected so far hold exactly the classes of the endpoints seen. */
  predicate Grouped(groups: map<nat, seq<Key>>, placing: Placing) {
    && (forall key :: key in placing ==> placing[key] in groups)
    && (forall root :: root in groups ==> groups[root] != [] && Ascending(groups[root]) && Elements(groups[root]) == KeysOf(placing, root))
  }

  lemma GroupedMore(groups: map<nat, seq<Key>>, placing: Placing, key: Key, root: nat)
    requires Grouped(groups, placing) && key !in placing
    ensures root in groups ==> key !in groups[root]
    ensures Ascending(if root in groups then groups[root] else [])
    ensures Grouped(groups[root := Insert(key, if root in groups then groups[root] else [])], placing[key := root])
  {
    var list := if root in groups then groups[root] else [];
    var more, after := groups[root := Insert(key, list)], placing[key := root];
    assert KeysOf(after, root) == KeysOf(placing, root) + {key};
    assert Elements(list) == KeysOf(placing, root) by {
      if root !in groups {
        forall other | other in placing
          ensures placing[other] != root
        {
        }
      }
    }
    forall other | other in more && other != root
      ensures Elements(more[other]) == KeysOf(after, other)
    {
      assert KeysOf(after, other) == KeysOf(placing, other);
    }
  }

  /** The sorted key list of every class; a dictionary filled in walk order. */
  method GroupKeys(sites: seq<Site>, labels: Labels) returns (groups: map<nat, seq<Key>>)
    requires Captured(sites, labels)
    ensures Grouped(groups, PlacingOf(sites, labels, |sites|))
  {
    groups := map[];
    for n := 0 to |sites|
      invariant Grouped(groups, PlacingOf(sites, labels, n))
    {
      groups := GroupNext(groups, sites, labels, n);
    }
  }

  /** One key more, in its class's list. */
  method GroupNext(groups: map<nat, seq<Key>>, sites: seq<Site>, labels: Labels, n: nat) returns (more: map<nat, seq<Key>>)
    requires Captured(sites, labels) && n < |sites| && Grouped(groups, PlacingOf(sites, labels, n))
    ensures Grouped(more, PlacingOf(sites, labels, n + 1))
  {
    hide Grouped, Ascending;
    var key, root := sites[n].0, labels[sites[n].1];
    GroupedMore(groups, PlacingOf(sites, labels, n), key, root);
    more := groups[root := Insert(key, if root in groups then groups[root] else [])];
  }

  /** The rows of all classes but the ground's, in the order of their key lists. */
  method OrderRows(groups: map<nat, seq<Key>>, ghost placing: Placing) returns (rows: seq<Row>)
    requires Grouped(groups, placing)
    ensures InOrder(rows, placing)
    ensures forall root :: HasRoot(rows, root) <==> root in groups && root != 0
  {
    rows := [];
    var todo := groups.Keys - {0};
    while todo != {}
      invariant todo <= groups.Keys - {0}
      invariant InOrder(rows, placing)
      invariant forall root :: HasRoot(rows, root) <==> root in groups && root != 0 && root !in todo
      decreases |todo|
    {
      var root :| root in todo;
      InsertRowKeeps(Row(groups[root], root), rows, placing);
      rows := InsertRow(Row(groups[root], root), rows);
      todo := todo - {root};
    }
  }

  function ClassesOf(rows: seq<Row>, n: nat, placing: Placing): (classes: set<set<Key>>)
    requires n <= |rows|
    ensures forall i :: 0 <= i < n ==> KeysOf(placing, rows[i].root) in classes
    ensures forall group :: group in classes ==> exists i: nat :: i < n && KeysOf(placing, rows[i].root) == group
  {
    set i | 0 <= i < n :: KeysOf(placing, rows[i].root)
  }

  lemma {:induction false} ClassesCounted(rows: seq<Row>, n: nat, placing: Placing)
    requires InOrder(rows, placing) && n <= |rows|
    ensures |ClassesOf(rows, n, placing)| == n
  {
    if n > 0 {
      ClassesCounted(rows, n - 1, placing);
      OneMore(rows, n, placing);
    } else {
      assert ClassesOf(rows, 0, placing) == {};
    }
  }

  lemma OneMore(rows: seq<Row>, n: nat, placing: Placing)
    requires InOrder(rows, placing) && 0 < n <= |rows|
    ensures |ClassesOf(rows, n, placing)| == |ClassesOf(rows, n - 1, placing)| + 1
  {
    var fewer, last := ClassesOf(rows, n - 1, placing), KeysOf(placing, rows[n - 1].root);
    if last in fewer {
      var i: nat :| i < n - 1 && KeysOf(placing, rows[i].root) == last;
      RowsDiffer(rows, i, n - 1, placing);
    }
    assert ClassesOf(rows, n, placing) == fewer + {last};
  }

  lemma RowsDiffer(rows: seq<Row>, i: nat, j: nat, placing: Placing)
    requires InOrder(rows, placing) && i < j < |rows|
    ensures KeysOf(placing, rows[i].root) != KeysOf(placing, rows[j].root) && rows[i].root != rows[j].root
    ensures Before(KeysOf(placing, rows[i].root), KeysOf(placing, rows[j].root))
    ensures !Before(KeysOf(placing, rows[j].root), KeysOf(placing, rows[i].root))
  {
    var a, b := rows[i], rows[j];
    assert a.keys[0] in Elements(a.keys) && b.keys[0] in Elements(b.keys);
    assert Below(a.keys[0], KeysOf(placing, b.root));
  }

  /** One row for every class but the ground's. */
  ghost predicate Complete(rows: seq<Row>, placing: Placing) {
    forall root :: HasRoot(rows, root) <==> root != 0 && root in Roots(placing)
  }

  lemma RowIsClass(rows: seq<Row>, n: nat, placing: Placing)
    requires Complete(rows, placing) && n < |rows|
    ensures rows[n].root != 0 && rows[n].root in Roots(placing)
  {
    assert HasRoot(rows, rows[n].root);
  }

  /** A class's row number is the number of classes before it. */
  lemma RowNumber(rows: seq<Row>, k: nat, placing: Placing)
    requires InOrder(rows, placing) && k < |rows|
    requires Complete(rows, placing)
    ensures |Earlier(Classes(placing), KeysOf(placing, rows[k].root))| == k
  {
    var earlier := Earlier(Classes(placing), KeysOf(placing, rows[k].root));
    forall group | group in earlier
      ensures group in ClassesOf(rows, k, placing)
    {
      var key :| key in placing && placing[key] != 0 && KeysOf(placing, placing[key]) == group;
      assert placing[key] in Roots(placing);
      var i: nat :| i < |rows| && rows[i].root == placing[key];
      if i > k { RowsDiffer(rows, k, i, placing); }
      NotBeforeItself(rows, k, placing);
    }
    forall group | group in ClassesOf(rows, k, placing)
      ensures group in earlier
    {
      var i: nat :| i < k && KeysOf(placing, rows[i].root) == group;
      RowsDiffer(rows, i, k, placing);
      RowIsClass(rows, i, placing);
    }
    assert earlier == ClassesOf(rows, k, placing);
    ClassesCounted(rows, k, placing);
  }

  lemma NotBeforeItself(rows: seq<Row>, k: nat, placing: Placing)
    requires InOrder(rows, placing) && k < |rows|
    ensures !Before(KeysOf(placing, rows[k].root), KeysOf(placing, rows[k].root))
  {
  }

  /** `_net_identity_map`: every class of the capture, and the ground, under its name. */
  method NetIdentityMap(sites: seq<Site>, labels: Labels) returns (names: map<nat, Name>)
    requires Captured(sites, labels)
    ensures var placing := PlacingOf(sites, labels, |sites|);
      && names.Keys == Roots(placing) + {0}
      && forall root :: root in names ==> names[root] == NameOf(placing, root)
  {
    ghost var placing := PlacingOf(sites, labels, |sites|);
    var groups := GroupKeys(sites, labels);
    GroupedRoots(groups, placing);
    var rows := OrderRows(groups, placing);
    names := NumberRows(rows, placing);
  }

  method NumberRows(rows: seq<Row>, ghost placing: Placing) returns (names: map<nat, Name>)
    requires InOrder(rows, placing) && Complete(rows, placing)
    ensures names.Keys == Roots(placing) + {0}
    ensures forall root :: root in names ==> names[root] == NameOf(placing, root)
  {
    names := map[0 := GroundName];
    for n := 0 to |rows|
      invariant Named(names, rows[..n], placing)
    {
      NameAt(rows, n, placing);
      NamedMore(names, rows, n, placing);
      names := names[rows[n].root := Numbered(n + 1)];
    }
    assert rows[..|rows|] == rows;
    NamedAll(names, rows, placing);
  }

  lemma NamedAll(names: map<nat, Name>, rows: seq<Row>, placing: Placing)
    requires Named(names, rows, placing) && Complete(rows, placing)
    ensures names.Keys == Roots(placing) + {0}
  {
    forall root
      ensures root in names <==> root in Roots(placing) + {0}
    {
      assert HasRoot(rows, root) <==> root != 0 && root in Roots(placing);
    }
  }

  /** Exactly the ground and the roots of these rows are named, each as it should be. */
  ghost predicate Named(names: map<nat, Name>, rows: seq<Row>, placing: Placing) {
    && (forall root :: root in names <==> root == 0 || HasRoot(rows, root))
    && (forall root :: root in names ==> names[root] == NameOf(placing, root))
  }

  lemma NameAt(rows: seq<Row>, n: nat, placing: Placing)
    requires InOrder(rows, placing) && n < |rows|
    requires Complete(rows, placing)
    ensures NameOf(placing, rows[n].root) == Numbered(n + 1)
  {
    RowNumber(rows, n, placing);
    RowIsClass(rows, n, placing);
  }

  lemma NamedMore(names: map<nat, Name>, rows: seq<Row>, n: nat, placing: Placing)
    requires n < |rows| && Named(names, rows[..n], placing) && NameOf(placing, rows[n].root) == Numbered(n + 1)
    ensures Named(names[rows[n].root := Numbered(n + 1)], rows[..n + 1], placing)
  {
    OneRoot(rows[n]);
    Rooted(rows[..n], [rows[n]]);
    assert rows[..n + 1] == rows[..n] + [rows[n]];
  }

  lemma GroupedRoots(groups: map<nat, seq<Key>>, placing: Placing)
    requires Grouped(groups, placing)
    ensures forall root :: root in groups <==> root in Roots(placing)
  {
    forall root | root in groups
      ensures root in Roots(placing)
    {
      assert groups[root][0] in Elements(groups[root]);
      assert placing[groups[root][0]] == root;
    }
  }
}
