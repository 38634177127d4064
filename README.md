# PolynomialBasis — evaluation by weighted sum

This project models `PolynomialBasis`, the abstract base of the basis classes in
`numanalysislib`. A polynomial is stored as a coefficient vector over a fixed
family of basis functions phi_0, phi_1, … . The base class stores the
`degree` and derives `n_dofs = degree + 1`. It also provides `evaluate`, which
checks the coefficient count and then accumulates `c_i * phi_i(x)` over all
query points, in increasing index order.

- `basis.dfy`, module `Basis`. It holds the class `PolynomialBasis` with
  `const` fields `degree`, `nDofs` and `phi`. Because the fields are `const`,
  they cannot change after construction. The abstract `evaluate_basis` becomes
  the field `phi: (nat, real) -> real`: a concrete basis supplies its basis
  functions when it is constructed.
  - `Evaluate` is a method over arrays. When the coefficient count is not
    `nDofs`, it returns `Err(CoefficientCountMismatch(expected, actual))`.
    Otherwise it fills a freshly allocated output array. The outer loop runs
    over the coefficients. The inner loop carries out the vectorised
    `y += c * phi_i(x)` one point at a time.
  - `Evaluate` has no `modifies` clause, so it cannot change its input arrays.
  - `Evaluate` is proved against `PartialSum`, the left-to-right accumulation
    of the first k terms. `WeightedSum` is the accumulation of all of them.
  - `WeightedSum` is tied by a lemma to `Expansion`, the textbook sum
    Σ c_i·phi_i(x).
  - Linearity and the zero-vector property are proved for `WeightedSum` and
    for the pointwise `Evaluation`.
- `monomial.dfy`, module `MockMonomial`. It holds the monomial basis
  phi_i(x) = x^i that the tests subclass, facts about it, and the two test
  scenarios as methods that call `Evaluate`.

Floating-point numbers are modelled as `real`, so every equality is exact.
The source does not validate `degree`, and the model keeps it as an `int`. At
degree -1, `nDofs` is 0: `Evaluate` then accepts only an empty coefficient
array and returns all zeros. A degree below -1 gives a negative `nDofs`, and
then every call to `Evaluate` fails.

## Model

| member | source | states |
|---|---|---|
| `Basis.PolynomialBasis.constructor` | src/numanalysislib/basis/_abstract.py:10-12 | degree is the given value and nDofs is degree + 1. Both are const fields, so neither changes afterwards. |
| `Basis.PolynomialBasis.Evaluate` | src/numanalysislib/basis/_abstract.py:22-33 | Returns an error exactly when the coefficient count is not nDofs (the basis functions are total here, see Left out), and the error carries the expected and actual counts. On success it returns a fresh array, as long as x, whose entry j is the weighted sum of the coefficients over phi_i(x[j]), accumulated from index 0 upwards. The input arrays are not modified. |
| `Basis.PartialSumPlusTail` | src/numanalysislib/basis/_abstract.py:30-32 | Loop invariant of the accumulation: after the first k steps, the partial sum plus the terms not yet added (indices k to n-1) is the whole sum Σ_{i=0}^{n-1} c_i·phi_i(x). |
| `Basis.WeightedSumIsExpansion` | src/numanalysislib/basis/_abstract.py:24-32 | Accumulating c_i·phi_i(x) in increasing index order from 0 equals the sum Σ_{i=0}^{n-1} c_i·phi_i(x) promised in the doc comment. |
| `Basis.PartialSumLinear` | src/numanalysislib/basis/_abstract.py:30-32 | Every intermediate value of the accumulation is linear in the coefficients. |
| `Basis.WeightedSumLinear` | src/numanalysislib/basis/_abstract.py:24 | The value at a point is linear in the coefficients: p_{a·c1+b·c2}(x) = a·p_{c1}(x) + b·p_{c2}(x). |
| `Basis.EvaluationLinear` | src/numanalysislib/basis/_abstract.py:22-33 | Evaluating at all points is linear: evaluate(a·c1+b·c2, x) = a·evaluate(c1, x) + b·evaluate(c2, x), entry by entry. |
| `Basis.PartialSumOfZeros` | src/numanalysislib/basis/_abstract.py:30-32 | With all coefficients zero, the accumulation stays at its starting value 0 at every step, for any basis. |
| `Basis.EvaluationOfZeros` | src/numanalysislib/basis/_abstract.py:30-33 | An all-zero coefficient vector yields an all-zero output. |
| `MockMonomial.Monomial` | tests/test_basis_abstract.py:10-12 | The mock basis x^i, with x^0 = 1 for every x (0^0 = 1, as NumPy gives). At 0 only the constant monomial is nonzero; at 1 every monomial is 1. |
| `MockMonomial.ValueAtZeroIsConstantTerm` | tests/test_basis_abstract.py:33-34 | In the monomial basis, the value at 0 is the constant coefficient c_0. |
| `MockMonomial.ValueAtOneIsTotal` | tests/test_basis_abstract.py:33-35 | In the monomial basis, the value at 1 is the sum of all coefficients. |
| `MockMonomial.WorkedExample` | tests/test_basis_abstract.py:26-37 | 1 + 2x + 3x² at the points 0, 1, 2 is 1, 6, 17. |
| `MockMonomial.SummationScenario` | tests/test_basis_abstract.py:21-42 | A degree-2 monomial basis evaluated through Evaluate with coefficients [1,2,3] at [0,1,2] returns [1,6,17]. |
| `MockMonomial.ShapeMismatchScenario` | tests/test_basis_abstract.py:44-55 | A degree-2 monomial basis given 2 coefficients fails with a mismatch error: 3 expected, 2 given. |

## Left out

- `fit` (src/numanalysislib/basis/_abstract.py:35-41) is not modelled. It is abstract and gives no algorithm. Its behaviour on degenerate input is left to subclasses, and the test's `fit` does nothing.
- `evaluate_basis` is not modelled as a method that returns an array. The basis is the pointwise function `phi`, and `Evaluate` applies it point by point. NumPy's vectorised operations become the inner loop.
- `evaluate_basis` is modelled as total: an exception it raises, which `evaluate` passes on unchanged, is not modelled. This includes a NumPy shape error from `y += ...` when a basis returns a wrongly shaped array.
- IEEE floating point is not modelled. Rounding, the `dtype=float` coercion and the tests' `rtol=1e-14` tolerance are replaced by exact `real` arithmetic.
- N-dimensional arrays and broadcasting are not modelled. The points `x` are a one-dimensional array.
- The text of the `ValueError` message is not modelled. Only its condition and the two counts it reports are kept.
- Subclasses that override `evaluate` (for example with Horner's method) are not modelled. The source only mentions them in a comment.
- The `ABC`/`abstractmethod` machinery and the pytest harness are not modelled. Only the behaviour they check is kept.
