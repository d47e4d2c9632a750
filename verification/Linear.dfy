/** Finite sums, vectors and matrices as functions of their indices, the quadratic form of a matrix, and
    what becomes of the form under a change of basis: the congruence. */
module Linear {
  type Vector = nat -> real
  type Matrix = (nat, nat) -> real

  function Sum(n: nat, f: nat -> real): real {
    if n == 0 then 0.0 else Sum(n - 1, f) + f(n - 1)
  }

  lemma {:induction false} SumSame(n: nat, f: nat -> real, g: nat -> real)
    requires forall i: nat :: i < n ==> f(i) == g(i)
    ensures Sum(n, f) == Sum(n, g)
  {
    if n > 0 { SumSame(n - 1, f, g); }
  }

  lemma {:induction false} SumZero(n: nat, f: nat -> real)
    requires forall i: nat :: i < n ==> f(i) == 0.0
    ensures Sum(n, f) == 0.0
  {
    if n > 0 { SumZero(n - 1, f); }
  }

  lemma {:induction false} SumPlus(n: nat, f: nat -> real, g: nat -> real, h: nat -> real)
    requires forall i: nat :: i < n ==> h(i) == f(i) + g(i)
    ensures Sum(n, h) == Sum(n, f) + Sum(n, g)
  {
    if n > 0 { SumPlus(n - 1, f, g, h); }
  }

  lemma {:induction false} SumTimes(n: nat, c: real, f: nat -> real, g: nat -> real)
    requires forall i: nat :: i < n ==> g(i) == c * f(i)
    ensures Sum(n, g) == c * Sum(n, f)
  {
    if n > 0 { SumTimes(n - 1, c, f, g); }
  }

  /** Only one term counts. */
  lemma {:induction false} SumOne(n: nat, f: nat -> real, k: nat)
    requires k < n && forall i: nat :: i < n && i != k ==> f(i) == 0.0
    ensures Sum(n, f) == f(k)
  {
    if k == n - 1 { SumZero(n - 1, f); } else { SumOne(n - 1, f, k); }
  }

  /** Only two terms count. */
  lemma {:induction false} SumTwo(n: nat, f: nat -> real, k: nat, m: nat)
    requires k < m < n && forall i: nat :: i < n && i != k && i != m ==> f(i) == 0.0
    ensures Sum(n, f) == f(k) + f(m)
  {
    if m == n - 1 { SumOne(n - 1, f, k); } else { SumTwo(n - 1, f, k, m); }
  }

  function Row(f: Matrix, i: nat): Vector {
    (j: nat) => f(i, j)
  }

  function Column(t: Matrix, c: nat): Vector {
    (r: nat) => t(r, c)
  }

  function RowSums(f: Matrix, m: nat): Vector {
    (i: nat) => Sum(m, Row(f, i))
  }

  function ColumnSums(f: Matrix, n: nat): Vector {
    (j: nat) => Sum(n, Column(f, j))
  }

  /** The order of two sums does not matter. */
  lemma {:induction false} SumSwap(n: nat, m: nat, f: Matrix)
    ensures Sum(n, RowSums(f, m)) == Sum(m, ColumnSums(f, n))
  {
    if n == 0 {
      SumZero(m, ColumnSums(f, 0));
    } else {
      SumSwap(n - 1, m, f);
      SumPlus(m, ColumnSums(f, n - 1), Row(f, n - 1), ColumnSums(f, n));
    }
  }

  function Products(a: Vector, b: Vector): Vector {
    (i: nat) => a(i) * b(i)
  }

  function Dot(n: nat, a: Vector, b: Vector): real {
    Sum(n, Products(a, b))
  }

  /** The components of a matrix times a vector. */
  function Apply(n: nat, a: Matrix, v: Vector): Vector {
    (r: nat) => Dot(n, Row(a, r), v)
  }

  /** The bilinear form x' a y. */
  function Form(n: nat, a: Matrix, x: Vector, y: Vector): real {
    Dot(n, x, Apply(n, a, y))
  }

  /** T' a T, entry by entry a form of two columns of T. */
  function Congruent(n: nat, a: Matrix, t: Matrix): Matrix {
    (r: nat, c: nat) => Form(n, a, Column(t, r), Column(t, c))
  }

  /** T' b: the components of a node vector in the new basis. */
  function Pulled(n: nat, b: Vector, t: Matrix): Vector {
    (c: nat) => Dot(n, b, Column(t, c))
  }

  /** A vector with one or two entries meets another in those alone. */
  lemma DotOne(n: nat, a: Vector, b: Vector, k: nat)
    requires k < n && forall i: nat :: i < n && i != k ==> a(i) == 0.0
    ensures Dot(n, a, b) == a(k) * b(k)
  {
    var f := Products(a, b);
    forall i: nat | i < n && i != k
      ensures f(i) == 0.0
    {
    }
    SumOne(n, f, k);
  }

  lemma DotTwo(n: nat, a: Vector, b: Vector, k: nat, m: nat)
    requires k < m < n && forall i: nat :: i < n && i != k && i != m ==> a(i) == 0.0
    ensures Dot(n, a, b) == a(k) * b(k) + a(m) * b(m)
  {
    var f := Products(a, b);
    forall i: nat | i < n && i != k && i != m
      ensures f(i) == 0.0
    {
    }
    SumTwo(n, f, k, m);
  }

  lemma DotTimes(n: nat, c: real, a: Vector, b: Vector, d: Vector)
    requires forall i: nat :: i < n ==> d(i) == c * b(i)
    ensures Dot(n, a, d) == c * Dot(n, a, b)
  {
    SumTimes(n, c, Products(a, b), Products(a, d));
  }

  lemma DotPlus(n: nat, d: Vector, a: Vector, b: Vector, c: Vector)
    requires forall i: nat :: i < n ==> c(i) == a(i) + b(i)
    ensures Dot(n, d, c) == Dot(n, d, a) + Dot(n, d, b)
  {
    SumPlus(n, Products(d, a), Products(d, b), Products(d, c));
  }

  lemma DotZero(n: nat, a: Vector, b: Vector)
    requires forall i: nat :: i < n ==> b(i) == 0.0
    ensures Dot(n, a, b) == 0.0
  {
    SumZero(n, Products(a, b));
  }

  lemma DotBack(n: nat, a: Vector, b: Vector)
    ensures Dot(n, a, b) == Dot(n, b, a)
  {
    SumSame(n, Products(a, b), Products(b, a));
  }

  lemma DotSame(n: nat, a: Vector, b: Vector, c: Vector, d: Vector)
    requires forall i: nat :: i < n ==> a(i) == c(i) && b(i) == d(i)
    ensures Dot(n, a, b) == Dot(n, c, d)
  {
    SumSame(n, Products(a, b), Products(c, d));
  }

  function Triple(b: Vector, t: Matrix, w: Vector): Matrix {
    (r: nat, c: nat) => b(r) * t(r, c) * w(c)
  }

  lemma TripleColumn(n: nat, b: Vector, t: Matrix, w: Vector, c: nat)
    ensures Sum(n, Column(Triple(b, t, w), c)) == Pulled(n, b, t)(c) * w(c)
  {
    var f := Products(b, Column(t, c));
    forall r: nat | r < n
      ensures Column(Triple(b, t, w), c)(r) == w(c) * f(r)
    {
      Reorder(b(r), t(r, c), w(c));
    }
    SumTimes(n, w(c), f, Column(Triple(b, t, w), c));
  }

  lemma TripleRow(n: nat, b: Vector, t: Matrix, w: Vector, r: nat)
    ensures Sum(n, Row(Triple(b, t, w), r)) == b(r) * Apply(n, t, w)(r)
  {
    var f := Products(Row(t, r), w);
    forall c: nat | c < n
      ensures Row(Triple(b, t, w), r)(c) == b(r) * f(c)
    {
      Reorder(b(r), t(r, c), w(c));
    }
    SumTimes(n, b(r), f, Row(Triple(b, t, w), r));
  }

  lemma Reorder(a: real, b: real, c: real)
    ensures a * b * c == c * (a * b) && a * b * c == a * (b * c)
  {
  }

  /** A node vector meets old voltages T w exactly as its new components meet w. */
  lemma PulledMeets(n: nat, b: Vector, t: Matrix, w: Vector)
    ensures Dot(n, Pulled(n, b, t), w) == Dot(n, b, Apply(n, t, w))
  {
    var f := Triple(b, t, w);
    SumSwap(n, n, f);
    forall c: nat | c < n
      ensures ColumnSums(f, n)(c) == Pulled(n, b, t)(c) * w(c)
    {
      TripleColumn(n, b, t, w, c);
    }
    SumSame(n, Products(Pulled(n, b, t), w), ColumnSums(f, n));
    forall r: nat | r < n
      ensures RowSums(f, n)(r) == b(r) * Apply(n, t, w)(r)
    {
      TripleRow(n, b, t, w, r);
    }
    SumSame(n, Products(b, Apply(n, t, w)), RowSums(f, n));
  }

  /** The transformed matrix applied to new voltages is the pull-back of the old one on old voltages. */
  lemma CongruentApply(n: nat, a: Matrix, t: Matrix, w: Vector, r: nat)
    ensures Apply(n, Congruent(n, a, t), w)(r) == Dot(n, Column(t, r), Apply(n, a, Apply(n, t, w)))
  {
    var x := Column(t, r);
    var pulled: Vector := (c: nat) => Dot(n, x, Apply(n, a, Column(t, c)));
    var rows: Vector := (i: nat) => Dot(n, x, Column(a, i));
    forall c: nat | c < n
      ensures Congruent(n, a, t)(r, c) == Pulled(n, rows, t)(c)
    {
      PulledMeets(n, x, a, Column(t, c));
      DotSame(n, Pulled(n, x, a), Column(t, c), rows, Column(t, c));
    }
    DotSame(n, Row(Congruent(n, a, t), r), w, Pulled(n, rows, t), w);
    PulledMeets(n, rows, t, w);
    PulledMeets(n, x, a, Apply(n, t, w));
    DotSame(n, Pulled(n, x, a), Apply(n, t, w), rows, Apply(n, t, w));
  }

  /** A congruence keeps the quadratic form: new voltages w stand for old voltages T w. */
  lemma FormKept(n: nat, a: Matrix, t: Matrix, x: Vector, y: Vector)
    ensures Form(n, Congruent(n, a, t), x, y) == Form(n, a, Apply(n, t, x), Apply(n, t, y))
  {
    var image := Apply(n, a, Apply(n, t, y));
    forall r: nat | r < n
      ensures Apply(n, Congruent(n, a, t), y)(r) == Pulled(n, image, t)(r)
    {
      CongruentApply(n, a, t, y, r);
      DotBack(n, Column(t, r), image);
    }
    DotSame(n, x, Apply(n, Congruent(n, a, t), y), x, Pulled(n, image, t));
    DotBack(n, x, Pulled(n, image, t));
    PulledMeets(n, image, t, x);
    DotBack(n, image, Apply(n, t, x));
  }

  predicate Symmetric(n: nat, a: Matrix) {
    forall r: nat, c: nat :: r < n && c < n ==> a(r, c) == a(c, r)
  }

  /** The form of a symmetric matrix does not care about the order of its arguments. */
  lemma FormBack(n: nat, a: Matrix, x: Vector, y: Vector)
    requires Symmetric(n, a)
    ensures Form(n, a, x, y) == Form(n, a, y, x)
  {
    PulledMeets(n, x, a, y);
    forall c: nat | c < n
      ensures Pulled(n, x, a)(c) == Apply(n, a, x)(c)
    {
      SumSame(n, Products(x, Column(a, c)), Products(Row(a, c), x));
    }
    DotSame(n, Pulled(n, x, a), y, Apply(n, a, x), y);
    DotBack(n, Apply(n, a, x), y);
  }

  lemma CongruentSymmetric(n: nat, a: Matrix, t: Matrix)
    requires Symmetric(n, a)
    ensures Symmetric(n, Congruent(n, a, t))
  {
    forall r: nat, c: nat | r < n && c < n
      ensures Congruent(n, a, t)(r, c) == Congruent(n, a, t)(c, r)
    {
      FormBack(n, a, Column(t, r), Column(t, c));
    }
  }
}
