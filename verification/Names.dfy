/** Positions in lists without duplicates, and what removing one or two of their elements leaves: the
    bookkeeping of coordinate names when a pair is replaced. */
module Names {
  predicate Distinct<T(==)>(names: seq<T>) {
    forall i, j :: 0 <= i < j < |names| ==> names[i] != names[j]
  }

  function IndexOf<T(==)>(names: seq<T>, name: T): (k: nat)
    ensures k <= |names| && (name in names ==> k < |names| && names[k] == name)
  {
    if names == [] || names[0] == name then 0 else 1 + IndexOf(names[1..], name)
  }

  /** The list without two names. */
  function Without<T(==)>(names: seq<T>, left: T, right: T): seq<T> {
    if names == [] then []
    else if names[0] == left || names[0] == right then Without(names[1..], left, right)
    else [names[0]] + Without(names[1..], left, right)
  }

  lemma {:induction false} WithoutMembers<T>(names: seq<T>, left: T, right: T)
    ensures forall name :: name in Without(names, left, right) <==> name in names && name != left && name != right
  {
    if names != [] {
      WithoutMembers(names[1..], left, right);
      assert names == [names[0]] + names[1..];
    }
  }

  lemma InsertedMembers<T>(rest: seq<T>, at: nat, c: T, d: T)
    requires at <= |rest|
    ensures forall name :: name in rest[..at] + [c, d] + rest[at..] <==> name in rest || name == c || name == d
  {
    assert rest == rest[..at] + rest[at..];
  }

  lemma {:induction false} IndexOfAt<T>(names: seq<T>, k: nat)
    requires Distinct(names) && k < |names|
    ensures IndexOf(names, names[k]) == k
  {
  }

  predicate Clear<T(==)>(names: seq<T>, left: T, right: T) {
    left !in names && right !in names
  }

  lemma {:induction false} WithoutNothing<T>(names: seq<T>, left: T, right: T)
    requires Clear(names, left, right)
    ensures Without(names, left, right) == names
  {
    if names != [] {
      assert names == [names[0]] + names[1..];
      WithoutNothing(names[1..], left, right);
    }
  }

  lemma {:induction false} WithoutJoined<T>(a: seq<T>, b: seq<T>, left: T, right: T)
    ensures Without(a + b, left, right) == Without(a, left, right) + Without(b, left, right)
  {
    if a == [] {
      assert a + b == b;
    } else {
      assert (a + b)[1..] == a[1..] + b;
      WithoutJoined(a[1..], b, left, right);
    }
  }

  lemma WithoutHead<T>(l: T, rest: seq<T>, left: T, right: T)
    requires l == left || l == right
    ensures Without([l] + rest, left, right) == Without(rest, left, right)
  {
    assert ([l] + rest)[1..] == rest;
  }

  lemma WithoutParts<T>(a: seq<T>, l: T, b: seq<T>, h: T, c: seq<T>, left: T, right: T)
    requires Clear(a, left, right) && Clear(b, left, right) && Clear(c, left, right)
    requires (l == left || l == right) && (h == left || h == right)
    ensures Without(a + ([l] + (b + ([h] + c))), left, right) == a + (b + c)
  {
    WithoutJoined(a, [l] + (b + ([h] + c)), left, right);
    WithoutHead(l, b + ([h] + c), left, right);
    WithoutJoined(b, [h] + c, left, right);
    WithoutHead(h, c, left, right);
    WithoutNothing(a, left, right);
    WithoutNothing(b, left, right);
    WithoutNothing(c, left, right);
  }

  function Low(i: nat, j: nat): nat {
    if i < j then i else j
  }

  function High(i: nat, j: nat): nat {
    if i < j then j else i
  }

  /** The position of the `k`-th element left when positions `i` and `j` are taken out. */
  function Skip(k: nat, i: nat, j: nat): nat {
    if k < Low(i, j) then k else if k + 1 < High(i, j) then k + 1 else k + 2
  }

  /** Filtering out two names of a duplicate-free list closes exactly their two gaps. */
  lemma WithoutTwo<T>(names: seq<T>, left: T, right: T)
    requires Distinct(names) && left in names && right in names && left != right
    ensures var i, j, rest := IndexOf(names, left), IndexOf(names, right), Without(names, left, right);
      i != j && |rest| == |names| - 2 && forall k :: 0 <= k < |rest| ==> Skip(k, i, j) < |names| && rest[k] == names[Skip(k, i, j)]
  {
    var i, j := IndexOf(names, left), IndexOf(names, right);
    var lo, hi := Low(i, j), High(i, j);
    PartsClear(names, lo, hi, left, right);
    WithoutAt(names, lo, hi, left, right);
    GapsClosed(names, lo, hi, i, j, Without(names, left, right));
  }

  lemma WithoutAt<T>(names: seq<T>, lo: nat, hi: nat, left: T, right: T)
    requires lo < hi < |names| && (names[lo] == left || names[lo] == right) && (names[hi] == left || names[hi] == right)
    requires Clear(names[..lo], left, right) && Clear(names[lo + 1..hi], left, right) && Clear(names[hi + 1..], left, right)
    ensures Without(names, left, right) == names[..lo] + (names[lo + 1..hi] + names[hi + 1..])
  {
    Split(names, lo, hi);
    WithoutParts(names[..lo], names[lo], names[lo + 1..hi], names[hi], names[hi + 1..], left, right);
  }

  lemma PartsClear<T>(names: seq<T>, lo: nat, hi: nat, left: T, right: T)
    requires Distinct(names) && lo < hi < |names|
    requires (names[lo] == left && names[hi] == right) || (names[lo] == right && names[hi] == left)
    ensures Clear(names[..lo], left, right) && Clear(names[lo + 1..hi], left, right) && Clear(names[hi + 1..], left, right)
  {
  }

  lemma Split<T>(names: seq<T>, lo: nat, hi: nat)
    requires lo < hi < |names|
    ensures names == names[..lo] + ([names[lo]] + (names[lo + 1..hi] + ([names[hi]] + names[hi + 1..])))
  {
  }

  lemma GapsClosed<T>(names: seq<T>, lo: nat, hi: nat, i: nat, j: nat, rest: seq<T>)
    requires lo < hi < |names| && lo == Low(i, j) && hi == High(i, j)
    requires rest == names[..lo] + (names[lo + 1..hi] + names[hi + 1..])
    ensures |rest| == |names| - 2 && forall k :: 0 <= k < |rest| ==> Skip(k, i, j) < |names| && rest[k] == names[Skip(k, i, j)]
  {
  }
}
