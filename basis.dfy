/** A polynomial (or any finite-dimensional function space) represented by a
    coefficient vector over a fixed family of basis functions phi_0, phi_1, ...
    The family is supplied by a concrete basis; this module gives the shared
    behaviour: the number of degrees of freedom and evaluation by weighted sum.
 */
module Basis {

  /** A basis family: phi(i, x) is the i-th basis function at the point x. */
  type BasisFunction = (nat, real) -> real

  /** The one failure `evaluate` reports: the wrong number of coefficients. */
  datatype EvalError = CoefficientCountMismatch(expected: int, actual: nat)

  datatype Result<T> = Ok(value: T) | Err(error: EvalError)

  /** The first k terms of the expansion with coefficients c at x, accumulated
      the way `evaluate` does it: start from 0 and add c[i] * phi_i(x) for
      i = 0, 1, ..., k - 1 in increasing order. */
  function PartialSum(phi: BasisFunction, c: seq<real>, k: nat, x: real): real
    requires k <= |c|
  {
    if k == 0 then 0.0 else PartialSum(phi, c, k - 1, x) + c[k - 1] * phi(k - 1, x)
  }

  /** The value at x of the polynomial with coefficients c: all |c| terms. */
  function WeightedSum(phi: BasisFunction, c: seq<real>, x: real): real
  {
    PartialSum(phi, c, |c|, x)
  }

  /** Reference definition of the tail of the expansion, written as the
      textbook sum c[i] * phi_i(x) + c[i + 1] * phi_(i+1)(x) + ... + c[|c| - 1] * phi_(|c|-1)(x). */
  function Expansion(phi: BasisFunction, c: seq<real>, i: nat, x: real): real
    requires i <= |c|
    decreases |c| - i
  {
    if i == |c| then 0.0 else c[i] * phi(i, x) + Expansion(phi, c, i + 1, x)
  }

  /** The expansion evaluated at every point of xs, point by point. */
  function Evaluation(phi: BasisFunction, c: seq<real>, xs: seq<real>): seq<real>
  {
    seq(|xs|, j requires 0 <= j < |xs| => WeightedSum(phi, c, xs[j]))
  }

  /** The linear combination a * u + b * v of two equally long vectors. */
  function Combine(a: real, u: seq<real>, b: real, v: seq<real>): seq<real>
    requires |u| == |v|
  {
    seq(|u|, i requires 0 <= i < |u| => a * u[i] + b * v[i])
  }

  /** After k steps of the accumulation, the terms not yet added are exactly
      the tail of the textbook sum from index k. */
  lemma {:induction false} PartialSumPlusTail(phi: BasisFunction, c: seq<real>, k: nat, x: real)
    requires k <= |c|
    ensures PartialSum(phi, c, k, x) + Expansion(phi, c, k, x) == Expansion(phi, c, 0, x)
  {
    if k > 0 {
      PartialSumPlusTail(phi, c, k - 1, x);
    }
  }

  /** Accumulating in increasing index order computes the textbook sum
      sum_{i=0}^{|c|-1} c[i] * phi_i(x). */
  lemma WeightedSumIsExpansion(phi: BasisFunction, c: seq<real>, x: real)
    ensures WeightedSum(phi, c, x) == Expansion(phi, c, 0, x)
  {
    PartialSumPlusTail(phi, c, |c|, x);
  }

  /** Each partial sum is linear in the coefficients. */
  lemma {:induction false} PartialSumLinear(phi: BasisFunction, a: real, c1: seq<real>, b: real, c2: seq<real>, k: nat, x: real)
    requires |c1| == |c2| && k <= |c1|
    ensures PartialSum(phi, Combine(a, c1, b, c2), k, x) == a * PartialSum(phi, c1, k, x) + b * PartialSum(phi, c2, k, x)
  {
    if k > 0 {
      PartialSumLinear(phi, a, c1, b, c2, k - 1, x);
      var p := phi(k - 1, x);
      var u, v := c1[k - 1], c2[k - 1];
      assert (a * u + b * v) * p == a * (u * p) + b * (v * p);
    }
  }

  /** The value at a point is linear in the coefficients. */
  lemma WeightedSumLinear(phi: BasisFunction, a: real, c1: seq<real>, b: real, c2: seq<real>, x: real)
    requires |c1| == |c2|
    ensures WeightedSum(phi, Combine(a, c1, b, c2), x) == a * WeightedSum(phi, c1, x) + b * WeightedSum(phi, c2, x)
  {
    PartialSumLinear(phi, a, c1, b, c2, |c1|, x);
  }

  /** With all coefficients zero every partial sum stays at its start, 0. */
  lemma {:induction false} PartialSumOfZeros(phi: BasisFunction, c: seq<real>, k: nat, x: real)
    requires k <= |c|
    requires forall i :: 0 <= i < |c| ==> c[i] == 0.0
    ensures PartialSum(phi, c, k, x) == 0.0
  {
    if k > 0 {
      PartialSumOfZeros(phi, c, k - 1, x);
    }
  }

  /** Evaluating a linear combination of coefficient vectors gives the same
      linear combination of the evaluated outputs. */
  lemma EvaluationLinear(phi: BasisFunction, a: real, c1: seq<real>, b: real, c2: seq<real>, xs: seq<real>)
    requires |c1| == |c2|
    ensures Evaluation(phi, Combine(a, c1, b, c2), xs)
            == Combine(a, Evaluation(phi, c1, xs), b, Evaluation(phi, c2, xs))
  {
    forall j | 0 <= j < |xs|
      ensures WeightedSum(phi, Combine(a, c1, b, c2), xs[j])
              == a * WeightedSum(phi, c1, xs[j]) + b * WeightedSum(phi, c2, xs[j])
    {
      WeightedSumLinear(phi, a, c1, b, c2, xs[j]);
    }
    var lhs := Evaluation(phi, Combine(a, c1, b, c2), xs);
    var rhs := Combine(a, Evaluation(phi, c1, xs), b, Evaluation(phi, c2, xs));
    assert forall j :: 0 <= j < |xs| ==> lhs[j] == rhs[j];
  }

  /** An all-zero coefficient vector evaluates to zero at every point. */
  lemma EvaluationOfZeros(phi: BasisFunction, c: seq<real>, xs: seq<real>)
    requires forall i :: 0 <= i < |c| ==> c[i] == 0.0
    ensures forall j :: 0 <= j < |xs| ==> Evaluation(phi, c, xs)[j] == 0.0
  {
    forall j | 0 <= j < |xs| ensures PartialSum(phi, c, |c|, xs[j]) == 0.0 {
      PartialSumOfZeros(phi, c, |c|, xs[j]);
    }
  }

  /** A concrete basis: its degree, the derived number of degrees of freedom,
      and its basis functions. None of them changes after construction. */
  class PolynomialBasis {
    const degree: int
    const nDofs: int
    const phi: BasisFunction

    constructor (degree: int, phi: BasisFunction)
      ensures this.degree == degree && nDofs == degree + 1 && this.phi == phi
    {
      this.degree := degree;
      this.nDofs := degree + 1;
      this.phi := phi;
    }

    /** p(x) = sum_i coefficients[i] * phi_i(x) at every point of x, into a
        freshly allocated array; fails when the coefficient count is not nDofs. */
    method Evaluate(coefficients: array<real>, x: array<real>) returns (r: Result<array<real>>)
      ensures r.Err? <==> coefficients.Length != nDofs
      ensures r.Err? ==> r.error == CoefficientCountMismatch(nDofs, coefficients.Length)
      ensures r.Ok? ==> fresh(r.value) && r.value[..] == Evaluation(phi, coefficients[..], x[..])
    {
      if coefficients.Length != nDofs {
        return Err(CoefficientCountMismatch(nDofs, coefficients.Length));
      }
      var y := new real[x.Length](_ => 0.0);
      var i := 0;
      while i < coefficients.Length
        invariant 0 <= i <= coefficients.Length
        invariant forall j :: 0 <= j < y.Length ==> y[j] == PartialSum(phi, coefficients[..], i, x[j])
      {
        var c := coefficients[i];
        var j := 0;
        // y += c * phi_i(x), one point at a time
        while j < y.Length
          invariant 0 <= j <= y.Length
          invariant forall k :: 0 <= k < j ==> y[k] == PartialSum(phi, coefficients[..], i + 1, x[k])
          invariant forall k :: j <= k < y.Length ==> y[k] == PartialSum(phi, coefficients[..], i, x[k])
        {
          y[j] := y[j] + c * phi(i, x[j]);
          j := j + 1;
        }
        i := i + 1;
      }
      return Ok(y);
    }
  }
}
