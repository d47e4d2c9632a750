/** Objective expression trees and their leaves in evaluation order. */
module Expressions {
  // The value is computed by consuming leaf values from one shared iterator.

  import opened Common

  datatype Projection = Frequency | Decay | RealPart | ImagPart | Magnitude

  /** One measured quantity: a diagonal root or a response element of a View. */
  datatype Selector = Selector(isRoot: bool, spec: string, view: string, projection: Projection)

  datatype Expression =
    | Sum(terms: seq<Expression>)
    | Difference(left: Expression, right: Expression)
    | Absolute(operand: Expression)
    | Leaf(selector: Selector)

  function Leaves(e: Expression): seq<Selector>
    decreases e, 0
  {
    match e
    case Sum(terms) => LeavesOf(terms)
    case Difference(left, right) => Leaves(left) + Leaves(right)
    case Absolute(operand) => Leaves(operand)
    case Leaf(selector) => [selector]
  }

  function LeavesOf(terms: seq<Expression>): seq<Selector>
    decreases terms, 1
  {
    if terms == [] then [] else Leaves(terms[0]) + LeavesOf(terms[1..])
  }

  function Abs(x: real): (size: real)
    ensures size >= 0.0 && (size == x || size == -x)
  {
    if x < 0.0 then -x else x
  }

  /** A value and what remains of the iterator; `None` when it runs dry. */
  datatype Drawn = Drawn(value: real, rest: seq<real>)

  function Evaluate(e: Expression, values: seq<real>): Option<Drawn>
    decreases e, 0
  {
    match e
    case Sum(terms) => EvaluateSum(terms, values)
    case Difference(left, right) =>
      (match Evaluate(left, values)
       case None => None
       case Some(l) =>
         match Evaluate(right, l.rest)
         case None => None
         case Some(r) => Some(Drawn(l.value - r.value, r.rest)))
    case Absolute(operand) =>
      (match Evaluate(operand, values)
       case None => None
       case Some(v) => Some(Drawn(Abs(v.value), v.rest)))
    case Leaf(_) => if values == [] then None else Some(Drawn(values[0], values[1..]))
  }

  function EvaluateSum(terms: seq<Expression>, values: seq<real>): Option<Drawn>
    decreases terms, 1
  {
    if terms == [] then Some(Drawn(0.0, values))
    else
      match Evaluate(terms[0], values)
      case None => None
      case Some(first) =>
        match EvaluateSum(terms[1..], first.rest)
        case None => None
        case Some(others) => Some(Drawn(first.value + others.value, others.rest))
  }

  /** What the tree means when each selector has a value of its own. */
  function Denote(e: Expression, at: Selector -> real): real
    decreases e, 0
  {
    match e
    case Sum(terms) => DenoteSum(terms, at)
    case Difference(left, right) => Denote(left, at) - Denote(right, at)
    case Absolute(operand) => Abs(Denote(operand, at))
    case Leaf(selector) => at(selector)
  }

  function DenoteSum(terms: seq<Expression>, at: Selector -> real): real
    decreases terms, 1
  {
    if terms == [] then 0.0 else Denote(terms[0], at) + DenoteSum(terms[1..], at)
  }

  function Values(selectors: seq<Selector>, at: Selector -> real): (values: seq<real>)
    ensures |values| == |selectors|
    ensures forall i :: 0 <= i < |selectors| ==> values[i] == at(selectors[i])
  {
    if selectors == [] then [] else [at(selectors[0])] + Values(selectors[1..], at)
  }

  lemma {:induction false} ValuesConcat(a: seq<Selector>, b: seq<Selector>, at: Selector -> real)
    ensures Values(a + b, at) == Values(a, at) + Values(b, at)
  {
    if a == [] {
      assert a + b == b;
    } else {
      assert (a + b)[1..] == a[1..] + b;
      ValuesConcat(a[1..], b, at);
    }
  }

  /** Evaluation draws exactly the values of the leaves, in the order `Leaves`
      lists them, and computes what the tree denotes. */
  lemma {:induction false} EvaluateDenotes(e: Expression, at: Selector -> real, rest: seq<real>)
    ensures Evaluate(e, Values(Leaves(e), at) + rest) == Some(Drawn(Denote(e, at), rest))
    decreases e, 0
  {
    match e
    case Sum(terms) =>
      EvaluateSumDenotes(terms, at, rest);
    case Difference(left, right) =>
      ValuesConcat(Leaves(left), Leaves(right), at);
      assert Values(Leaves(e), at) + rest == Values(Leaves(left), at) + (Values(Leaves(right), at) + rest);
      EvaluateDenotes(left, at, Values(Leaves(right), at) + rest);
      EvaluateDenotes(right, at, rest);
    case Absolute(operand) =>
      EvaluateDenotes(operand, at, rest);
    case Leaf(selector) =>
      assert Values([selector], at) == [at(selector)];
      assert ([at(selector)] + rest)[1..] == rest;
  }

  lemma {:induction false} EvaluateSumDenotes(terms: seq<Expression>, at: Selector -> real, rest: seq<real>)
    ensures EvaluateSum(terms, Values(LeavesOf(terms), at) + rest) == Some(Drawn(DenoteSum(terms, at), rest))
    decreases terms, 1
  {
    if terms == [] {
      assert Values([], at) + rest == rest;
    } else {
      var first, others := Leaves(terms[0]), LeavesOf(terms[1..]);
      SumValues(terms, at, rest);
      EvaluateDenotes(terms[0], at, Values(others, at) + rest);
      EvaluateSumDenotes(terms[1..], at, rest);
      SumStep(terms, Values(LeavesOf(terms), at) + rest, Denote(terms[0], at), Values(others, at) + rest,
              DenoteSum(terms[1..], at), rest);
    }
  }

  /** The leaf values of a sum are those of its first term and then the others. */
  lemma SumValues(terms: seq<Expression>, at: Selector -> real, rest: seq<real>)
    requires terms != []
    ensures Values(LeavesOf(terms), at) + rest
         == Values(Leaves(terms[0]), at) + (Values(LeavesOf(terms[1..]), at) + rest)
  {
    ValuesConcat(Leaves(terms[0]), LeavesOf(terms[1..]), at);
    Regroup(Values(Leaves(terms[0]), at), Values(LeavesOf(terms[1..]), at), rest);
  }

  lemma Regroup(a: seq<real>, b: seq<real>, c: seq<real>)
    ensures (a + b) + c == a + (b + c)
  {
  }

  lemma SumStep(terms: seq<Expression>, values: seq<real>, first: real, middle: seq<real>, others: real, rest: seq<real>)
    requires terms != [] && Evaluate(terms[0], values) == Some(Drawn(first, middle))
    requires EvaluateSum(terms[1..], middle) == Some(Drawn(others, rest))
    ensures EvaluateSum(terms, values) == Some(Drawn(first + others, rest))
  {
  }

  /** The value of an expression whose leaf values are listed in leaf order. */
  function ExpressionValue(e: Expression, values: seq<real>): real
    requires |values| == |Leaves(e)|
  {
    EvaluationSucceeds(e, values, []);
    assert values + [] == values;
    Evaluate(e, values).value.value
  }

  lemma {:induction false} EvaluationSucceeds(e: Expression, values: seq<real>, rest: seq<real>)
    requires |values| == |Leaves(e)|
    ensures Evaluate(e, values + rest).Some? && Evaluate(e, values + rest).value.rest == rest
    decreases e, 0
  {
    match e
    case Sum(terms) =>
      SumSucceeds(terms, values, rest);
    case Difference(left, right) =>
      var n := |Leaves(left)|;
      assert values + rest == values[..n] + (values[n..] + rest);
      EvaluationSucceeds(left, values[..n], values[n..] + rest);
      EvaluationSucceeds(right, values[n..], rest);
    case Absolute(operand) =>
      EvaluationSucceeds(operand, values, rest);
    case Leaf(_) =>
      assert (values + rest)[1..] == rest;
  }

  lemma {:induction false} SumSucceeds(terms: seq<Expression>, values: seq<real>, rest: seq<real>)
    requires |values| == |LeavesOf(terms)|
    ensures EvaluateSum(terms, values + rest).Some? && EvaluateSum(terms, values + rest).value.rest == rest
    decreases terms, 1
  {
    if terms == [] {
      assert values + rest == rest;
    } else {
      var n := |Leaves(terms[0])|;
      assert values + rest == values[..n] + (values[n..] + rest);
      EvaluationSucceeds(terms[0], values[..n], values[n..] + rest);
      SumSucceeds(terms[1..], values[n..], rest);
    }
  }

  lemma ExpressionValueDenotes(e: Expression, at: Selector -> real)
    ensures ExpressionValue(e, Values(Leaves(e), at)) == Denote(e, at)
  {
    EvaluateDenotes(e, at, []);
    assert Values(Leaves(e), at) + [] == Values(Leaves(e), at);
  }
}
