/** The monomial basis phi_i(x) = x^i, the concrete basis the tests use to
    exercise the shared evaluation logic, and the two scenarios they check. */
module MockMonomial {
  import opened Basis

  /** x raised to the power i, with x^0 = 1 for every x (0^0 included).
      At 0 every monomial but the constant one vanishes; at 1 every one is 1. */
  function Monomial(i: nat, x: real): (r: real)
    ensures x == 0.0 ==> r == (if i == 0 then 1.0 else 0.0)
    ensures x == 1.0 ==> r == 1.0
  {
    if i == 0 then 1.0 else x * Monomial(i - 1, x)
  }

  /** In the monomial basis, the value at 0 is the constant coefficient:
      every higher term vanishes there. */
  lemma ValueAtZeroIsConstantTerm(c: seq<real>)
    requires |c| > 0
    ensures WeightedSum(Monomial, c, 0.0) == c[0]
  {
    PartialSumOfLeadingTerm(Monomial, c, |c|, 0.0);
  }

  /** The sum of the first k coefficients. */
  function Total(c: seq<real>, k: nat): real
    requires k <= |c|
  {
    if k == 0 then 0.0 else Total(c, k - 1) + c[k - 1]
  }

  /** In the monomial basis, the value at 1 is the sum of the coefficients. */
  lemma ValueAtOneIsTotal(c: seq<real>)
    ensures WeightedSum(Monomial, c, 1.0) == Total(c, |c|)
  {
    PartialSumOfOnes(Monomial, c, |c|, 1.0);
  }

  /** At a point where the first k basis functions are all 1, the first k
      terms add up to the first k coefficients. */
  lemma {:induction false} PartialSumOfOnes(phi: BasisFunction, c: seq<real>, k: nat, x: real)
    requires k <= |c|
    requires forall i: nat :: i < k ==> phi(i, x) == 1.0
    ensures PartialSum(phi, c, k, x) == Total(c, k)
  {
    if k > 0 {
      PartialSumOfOnes(phi, c, k - 1, x);
    }
  }

  /** At a point where phi_0 is 1 and phi_1 .. phi_(k-1) vanish, the first k
      terms add up to the constant coefficient. */
  lemma {:induction false} PartialSumOfLeadingTerm(phi: BasisFunction, c: seq<real>, k: nat, x: real)
    requires 0 < k <= |c|
    requires phi(0, x) == 1.0
    requires forall i: nat :: 0 < i < k ==> phi(i, x) == 0.0
    ensures PartialSum(phi, c, k, x) == c[0]
  {
    if k > 1 {
      PartialSumOfLeadingTerm(phi, c, k - 1, x);
    }
  }

  /** 1 + 2x + 3x^2 at the points 0, 1 and 2 is 1, 6 and 17. */
  lemma WorkedExample()
    ensures Evaluation(Monomial, [1.0, 2.0, 3.0], [0.0, 1.0, 2.0]) == [1.0, 6.0, 17.0]
  {
    var c := [1.0, 2.0, 3.0];
    assert Monomial(2, 2.0) == 4.0;
    assert PartialSum(Monomial, c, 1, 2.0) == 1.0;
    assert PartialSum(Monomial, c, 2, 2.0) == 5.0;
    assert PartialSum(Monomial, c, 3, 2.0) == 17.0;
    ValueAtZeroIsConstantTerm(c);
    ValueAtOneIsTotal(c);
    assert Total(c, 1) == 1.0;
    assert Total(c, 2) == 3.0;
  }

  /** Degree 2 monomial basis, coefficients [1, 2, 3], points [0, 1, 2]. */
  method SummationScenario() returns (y: seq<real>)
    ensures y == [1.0, 6.0, 17.0]
  {
    var basis := new PolynomialBasis(2, Monomial);
    var coefficients := new real[3] [1.0, 2.0, 3.0];
    var points := new real[3] [0.0, 1.0, 2.0];
    var r := basis.Evaluate(coefficients, points);
    assert coefficients[..] == [1.0, 2.0, 3.0] && points[..] == [0.0, 1.0, 2.0];
    WorkedExample();
    y := r.value[..];
  }

  /** Degree 2 monomial basis given only two coefficients: evaluation fails. */
  method ShapeMismatchScenario() returns (r: Result<array<real>>)
    ensures r == Err(CoefficientCountMismatch(3, 2))
  {
    var basis := new PolynomialBasis(2, Monomial);
    var coefficients := new real[2] [1.0, 1.0];
    var points := new real[1] [0.0];
    r := basis.Evaluate(coefficients, points);
  }
}
