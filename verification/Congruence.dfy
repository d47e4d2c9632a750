/** The pair transform of a network: a change of voltage basis. */
module Congruence {
  // The matrices congruent under it, and the weights that decouple the pair's capacitance.

  import opened Linear
  import opened Names

  // ---- The change of basis ------------------------------------------------------------------------

  /** The new position of an old coordinate that is neither input. */
  function Unskip(r: nat, i: nat, j: nat): nat
    requires r != i && r != j && i != j
  {
    if r < Low(i, j) then r else if r < High(i, j) then r - 1 else r - 2
  }

  /** New voltages from old: the others in order, then the weighted common and the difference. */
  function PairA(n: nat, i: nat, j: nat, alpha: real, beta: real): Matrix
    requires n >= 2 && i != j
  {
    (r: nat, c: nat) =>
      if r + 2 < n then (if c == Skip(r, i, j) then 1.0 else 0.0)
      else if r + 2 == n then (if c == i then alpha else if c == j then beta else 0.0)
      else (if c == i then 1.0 else if c == j then -1.0 else 0.0)
  }

  /** Old voltages from new: its inverse. */
  function PairT(n: nat, i: nat, j: nat, alpha: real, beta: real): Matrix
    requires n >= 2 && i != j
  {
    (r: nat, c: nat) =>
      if c + 2 < n then (if r == Skip(c, i, j) then 1.0 else 0.0)
      else if c + 2 == n then (if r == i || r == j then 1.0 else 0.0)
      else (if r == i then beta else if r == j then -alpha else 0.0)
  }

  lemma NewOther(n: nat, i: nat, j: nat, alpha: real, beta: real, v: Vector, r: nat)
    requires i < n && j < n && i != j && r + 2 < n
    ensures Skip(r, i, j) < n && Apply(n, PairA(n, i, j, alpha, beta), v)(r) == v(Skip(r, i, j))
  {
    DotOne(n, Row(PairA(n, i, j, alpha, beta), r), v, Skip(r, i, j));
  }

  lemma NewCommon(n: nat, i: nat, j: nat, alpha: real, beta: real, v: Vector)
    requires i < n && j < n && i != j
    ensures Apply(n, PairA(n, i, j, alpha, beta), v)(n - 2) == alpha * v(i) + beta * v(j)
  {
    DotTwo(n, Row(PairA(n, i, j, alpha, beta), n - 2), v, Low(i, j), High(i, j));
  }

  lemma NewDifference(n: nat, i: nat, j: nat, alpha: real, beta: real, v: Vector)
    requires i < n && j < n && i != j
    ensures Apply(n, PairA(n, i, j, alpha, beta), v)(n - 1) == v(i) - v(j)
  {
    DotTwo(n, Row(PairA(n, i, j, alpha, beta), n - 1), v, Low(i, j), High(i, j));
  }

  lemma OldOther(n: nat, i: nat, j: nat, alpha: real, beta: real, w: Vector, r: nat)
    requires i < n && j < n && i != j && r < n && r != i && r != j
    ensures Unskip(r, i, j) + 2 < n && Apply(n, PairT(n, i, j, alpha, beta), w)(r) == w(Unskip(r, i, j))
  {
    DotOne(n, Row(PairT(n, i, j, alpha, beta), r), w, Unskip(r, i, j));
  }

  lemma OldPair(n: nat, i: nat, j: nat, alpha: real, beta: real, w: Vector)
    requires i < n && j < n && i != j
    ensures Apply(n, PairT(n, i, j, alpha, beta), w)(i) == w(n - 2) + beta * w(n - 1)
    ensures Apply(n, PairT(n, i, j, alpha, beta), w)(j) == w(n - 2) - alpha * w(n - 1)
  {
    DotTwo(n, Row(PairT(n, i, j, alpha, beta), i), w, n - 2, n - 1);
    DotTwo(n, Row(PairT(n, i, j, alpha, beta), j), w, n - 2, n - 1);
  }

  lemma Recombine(alpha: real, beta: real, x: real, y: real)
    requires alpha + beta == 1.0
    ensures alpha * x + beta * y + beta * (x - y) == x
    ensures alpha * x + beta * y - alpha * (x - y) == y
    ensures alpha * (x + beta * y) + beta * (x - alpha * y) == x
    ensures x + beta * y - (x - alpha * y) == y
  {
    assert alpha * x + beta * x == (alpha + beta) * x;
    assert alpha * y + beta * y == (alpha + beta) * y;
  }

  /** Every old voltage vector comes back from its new one. */
  lemma OldOfNew(n: nat, i: nat, j: nat, alpha: real, beta: real, v: Vector, r: nat)
    requires i < n && j < n && i != j && alpha + beta == 1.0 && r < n
    ensures var w := Apply(n, PairA(n, i, j, alpha, beta), v);
      Apply(n, PairT(n, i, j, alpha, beta), w)(r) == v(r)
  {
    var w := Apply(n, PairA(n, i, j, alpha, beta), v);
    if r == i || r == j {
      NewCommon(n, i, j, alpha, beta, v);
      NewDifference(n, i, j, alpha, beta, v);
      OldPair(n, i, j, alpha, beta, w);
      Recombine(alpha, beta, v(i), v(j));
    } else {
      OldOther(n, i, j, alpha, beta, w, r);
      NewOther(n, i, j, alpha, beta, v, Unskip(r, i, j));
    }
  }

  /** Every new voltage vector comes from an old one. */
  lemma NewOfOld(n: nat, i: nat, j: nat, alpha: real, beta: real, w: Vector, r: nat)
    requires i < n && j < n && i != j && alpha + beta == 1.0 && r < n
    ensures var v := Apply(n, PairT(n, i, j, alpha, beta), w);
      Apply(n, PairA(n, i, j, alpha, beta), v)(r) == w(r)
  {
    var v := Apply(n, PairT(n, i, j, alpha, beta), w);
    if r + 2 < n {
      NewOther(n, i, j, alpha, beta, v, r);
      OldOther(n, i, j, alpha, beta, w, Skip(r, i, j));
    } else {
      OldPair(n, i, j, alpha, beta, w);
      NewCommon(n, i, j, alpha, beta, v);
      NewDifference(n, i, j, alpha, beta, v);
      Recombine(alpha, beta, w(n - 2), w(n - 1));
    }
  }

  // ---- The weights --------------------------------------------------------------------------------

  /** The external capacitance cut of one input. */
  function Cut(c: Matrix, i: nat, j: nat): real {
    c(i, i) + c(i, j)
  }

  predicate GoodCut(cl: real, cr: real) {
    cl >= 0.0 && cr >= 0.0 && cl + cr > 0.0
  }

  lemma WeightsSum(cl: real, cr: real)
    requires cl + cr > 0.0
    ensures cl / (cl + cr) + cr / (cl + cr) == 1.0
    ensures cl * (cr / (cl + cr)) == cr * (cl / (cl + cr))
  {
    var s := cl + cr;
    assert (cl / s) * s == cl && (cr / s) * s == cr;
    Cancel(cl, cr, cl / s, cr / s, s);
  }

  lemma Cancel(a: real, b: real, x: real, y: real, s: real)
    requires s != 0.0 && x * s == a && y * s == b && a + b == s
    ensures x + y == 1.0 && a * y == b * x
  {
    assert (x + y - 1.0) * s == 0.0;
  }

  lemma MeetsDifference(n: nat, i: nat, j: nat, alpha: real, beta: real, b: Vector)
    requires i < n && j < n && i != j
    ensures Pulled(n, b, PairT(n, i, j, alpha, beta))(n - 1) == b(i) * beta - b(j) * alpha
  {
    DotBack(n, b, Column(PairT(n, i, j, alpha, beta), n - 1));
    DotTwo(n, Column(PairT(n, i, j, alpha, beta), n - 1), b, Low(i, j), High(i, j));
  }

  /** With a symmetric capacitance matrix the weights make the entry between the new common and
      differential coordinates exactly zero. */
  lemma PairDecoupled(n: nat, c: Matrix, i: nat, j: nat)
    requires i < n && j < n && i != j && Symmetric(n, c) && Cut(c, i, j) + Cut(c, j, i) > 0.0
    ensures var cl, cr := Cut(c, i, j), Cut(c, j, i);
      var t := PairT(n, i, j, cl / (cl + cr), cr / (cl + cr));
      Congruent(n, c, t)(n - 2, n - 1) == 0.0 && Congruent(n, c, t)(n - 1, n - 2) == 0.0
  {
    var cl, cr := Cut(c, i, j), Cut(c, j, i);
    var alpha, beta := cl / (cl + cr), cr / (cl + cr);
    var t := PairT(n, i, j, alpha, beta);
    var image := Apply(n, c, Column(t, n - 2));
    ImageOfCommon(n, c, i, j, alpha, beta);
    CongruentSymmetric(n, c, t);
    DotBack(n, Column(t, n - 1), image);
    MeetsDifference(n, i, j, alpha, beta, image);
    WeightsSum(cl, cr);
  }

  /** The common pattern charges each input by its cut. */
  lemma ImageOfCommon(n: nat, c: Matrix, i: nat, j: nat, alpha: real, beta: real)
    requires i < n && j < n && i != j && Symmetric(n, c)
    ensures var image := Apply(n, c, Column(PairT(n, i, j, alpha, beta), n - 2));
      image(i) == Cut(c, i, j) && image(j) == Cut(c, j, i)
  {
    var t := PairT(n, i, j, alpha, beta);
    var pattern := Column(t, n - 2);
    DotBack(n, Row(c, i), pattern);
    DotBack(n, Row(c, j), pattern);
    DotTwo(n, pattern, Row(c, i), Low(i, j), High(i, j));
    DotTwo(n, pattern, Row(c, j), Low(i, j), High(i, j));
  }
}
