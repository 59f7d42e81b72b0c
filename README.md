# ExpLTH: truncated Lie-transform operators and Yoshida's order raiser, in Dafny

ExpLTH builds symplectic integrators for accelerator Hamiltonians from linear
Lie-transform operators. An operator `exp(t:H:)` stands for a Hamiltonian `H` that
depends on positions only or on momenta only. The code truncates the Lie series after
its first-order term, so the operator maps an expression `F` to `F + t:H:F`. For such an
`H` that truncation is exact on the phase-space coordinates themselves, not on every `F`.
Multiplying operators gives a formal chain (`ProductExpLTH`), which is applied once it
meets an expression, with the last term acting first. `get_yoshida_integrator` raises
the order of an integrator chain two orders at a time. Each pass concatenates three
copies of the chain, in which every step is replaced by `x_1 * tau`, `x_0 * tau` and
`x_1 * tau` respectively, with Yoshida's coefficients `x_0` and `x_1` for the pass's
order. That is Yoshida's symmetric triple composition only when every step of the input
is `tau` itself; see "## Findings".

This project models that core as five modules:

- `Symbolic` (`symbolic.dfy`) is the slice of the symbolic algebra the operators need:
  - an expression datatype with free symbols, partial derivatives, dot products and
    substitution;
  - sums, products and negations that absorb zeros and ones the way the algebra
    system's automatic evaluation does.
- `Outcome` (`symbolic.dfy`) holds the errors the code raises, as a `Result` datatype.
- `LieOperator` (`lie_operator.dfy`) is `explth.py`:
  - construction with the separability check, dependence set and signed gradient;
  - application with its identity shortcut;
  - multiplication of an operator by an expression, a vector or another operator, and
    of a chain by an expression, a vector, an operator or another chain;
  - step-variable replacement and powers.
- `LegacyLieOperator` (`legacy_lie_operator.dfy`) is the older `ExpLTH.py`. It has its
  own sign convention `exp(-t:H:) = 1 - t:H:`, a stricter construction check, both
  gradients stored, and no identity shortcut.
- `Yoshida` (`yoshida.dfy`) is `integrator.py`:
  - validation, the loop over orders with its division by zero at order 0, and the
    `ret_all` list;
  - the length, Hamiltonian-order and palindrome structure of the result.

Operators never change after construction, so they are datatype values. The loops of
the source are methods proved against specification functions:

- the element-wise vector product is `Multiply`;
- the reversed fold of a chain over an operand is `ChainMultiply`;
- the pass loop of the order raiser is `GetYoshidaIntegrator`.

`Valid(op)` says an operator is what construction builds from its own variable,
Hamiltonian and families.

For the drift `H = p_s` over positions `[x, s]` and momenta `[p_x, p_s]`, the code
builds an operator whose dependence set is `{s}`. That operator:

- moves `s` to `s - L`;
- leaves `x` and `p_x` unchanged.

`LieOperator.DriftExample` states this.

The functions that define the operations are specified through the lemmas and methods
in the table below:

- `LieOperator.ApplyScalar` models the application to one expression, explth.py:56-67.
- `LegacyLieOperator.ApplyScalar` models the older one, ExpLTH.py:57-62.
- `LieOperator.ChainApply` models a chain acting on an operand, a fold from the last
  term to the first, explth.py:115-117.
- `LegacyLieOperator.ChainApply` models the older chain fold, ExpLTH.py:89-91.
- `Yoshida.TripleStep` models one pass of the order raiser, integrator.py:16-19.
- `Yoshida.Raise` models the chain after k passes, integrator.py:15-19.

## Model

| member | source | states |
|---|---|---|
| `LieOperator.New` | explth.py:11-37 | on success the operator keeps the given variable, Hamiltonian and families; the only error is the non-separable one |
| `LieOperator.NewFailsIff` | explth.py:13-32 | construction fails exactly when H has a momentum that is not a position and a position that is not a momentum; symbols outside both families, constants among them, play no part |
| `LieOperator.MomentumOnlyConstruction` | explth.py:20-24 | for a momentum-only H, position q_i is in the dependence set iff its conjugate p_i occurs in H, and the gradient has one entry -dH/dp_i per momentum |
| `LieOperator.PositionOnlyConstruction` | explth.py:25-29 | for a position-only H, momentum p_i is in the dependence set iff q_i occurs in H, and the gradient has one entry +dH/dq_i per position |
| `LieOperator.ValidIsWellShaped` | explth.py:23-29 | a constructed operator has exactly one gradient entry per conjugate variable |
| `LieOperator.GradientVanishesOffDependence` | explth.py:20-29 | a gradient entry whose conjugate variable is outside the dependence set is exactly 0 |
| `LieOperator.NoPhaseSpaceVarsIsIdentity` | explth.py:13-60 | an H with no phase-space variables takes the momentum branch with an empty dependence set, and its operator leaves every expression unchanged |
| `LieOperator.ApplyScalarIsFirstOrderLie` | explth.py:56-67 | the identity shortcut and the masking of partials are exact: application equals F + t * (gradient . all partials of F) |
| `LieOperator.ApplyScalarIdentityOnUnrelated` | explth.py:56-60 | an expression that mentions none of the variables the operator differentiates by is returned unchanged |
| `LieOperator.ApplyMomentumOnly` | explth.py:62-67 | under a momentum-only H, q_i moves to q_i + t * (-dH/dp_i) and p_i stays put |
| `LieOperator.ApplyPositionOnly` | explth.py:62-67 | under a position-only H, p_i moves to p_i + t * dH/dq_i and q_i stays put |
| `LieOperator.DriftOperator` | explth.py:13-24 | the drift H = p_s over [x, s], [p_x, p_s] takes the momentum branch only, with dependence set {s} and gradient [0, -1] |
| `LieOperator.DriftExample` | explth.py:13-67 | the drift H = p_s over [x, s], [p_x, p_s] with step L has dependence {s}, sends s to s - L, and keeps x and p_x |
| `LieOperator.Multiply` | explth.py:42-54 | a vector operand yields a vector of the same length whose element i is the operator applied to element i; an operator operand yields the formal chain [self, other] |
| `LieOperator.TwoOperatorsApply` | explth.py:53-54 | the product of two operators is the chain [a, b], and that chain applied to x is a applied to (b applied to x) |
| `LieOperator.ReplaceVariable` | explth.py:39-40 | the copy has the new step variable and the same Hamiltonian and families |
| `LieOperator.ReplaceVariableIsRebuild` | explth.py:39-40 | for a constructed operator the copy is exactly what construction builds from the new variable and the same Hamiltonian and families |
| `LieOperator.OpPower` | explth.py:69-79 | a non-integer exponent is a type error, a negative one a value error, 0 gives the identity, and a positive one fails with the error of multiplying by a plain integer, which has no free symbols |
| `LieOperator.ChainMultiply` | explth.py:109-119 | chain times chain concatenates with self first, chain times operator appends it, and chain times an expression folds from the last term to the first |
| `LieOperator.ChainApplyConcat` | explth.py:115-119 | applying a concatenation applies the right part first: (a + b) acting on x is a acting on (b acting on x) |
| `LieOperator.ChainProductAssociates` | explth.py:109-119 | multiplying two chains gives their flat concatenation, and applying it equals applying the second chain and then the first |
| `LieOperator.ChainApplyElementwise` | explth.py:42-48 | a chain acts on a vector element by element and keeps its length |
| `LieOperator.ChainReplaceVariable` | explth.py:106-107 | the copied chain keeps its length and order, and every term has the new variable and its own families |
| `LieOperator.ChainReplaceVariableHamiltonians` | explth.py:106-107 | the copied chain has the original's Hamiltonians in the original's order |
| `LieOperator.ChainReplaceVariableKeepsValid` | explth.py:106-107 | copying a chain of constructed operators gives constructed operators |
| `LieOperator.ChainPower` | explth.py:121-131 | non-integer and negative exponents are errors, 0 gives the identity, and n > 0 gives the n-fold repetition of the terms: length n * len, starting with the terms and repeating with period len |
| `LieOperator.ChainPowerTwo` | explth.py:121-131 | chain ** 2 has the same terms as chain * chain |
| `LieOperator.ChainPowerApply` | explth.py:121-131 | chain ** n acting on a target applies the chain n times over |
| `LieOperator.RepeatAdd` | explth.py:131 | list repetition splits: a + b copies are a copies followed by b copies |
| `LegacyLieOperator.New` | ExpLTH.py:10-19 | on success both gradients are stored, one entry dH/dp_i per momentum and one entry dH/dq_i per position; the only error is the non-separable one |
| `LegacyLieOperator.NewFailsIff` | ExpLTH.py:11-12 | construction fails exactly when H has a free symbol outside the momenta and one outside the positions, constants included |
| `LegacyLieOperator.ConstantRejected` | ExpLTH.py:11-12 | a symbol of H in neither family, such as a constant, makes construction fail |
| `LegacyLieOperator.StricterThanCurrent` | ExpLTH.py:11-12 | every Hamiltonian this check accepts is accepted by the check of explth.py |
| `LegacyLieOperator.StrictlyStricter` | ExpLTH.py:11-12 | beta_0 * p_x is rejected here and accepted by explth.py |
| `LegacyLieOperator.ApplyScalarConstant` | ExpLTH.py:57-62 | with no identity shortcut, an expression all of whose partials vanish is still returned unchanged |
| `LegacyLieOperator.ApplyScalarUnrelated` | ExpLTH.py:57-62 | an expression that mentions no position or momentum is returned unchanged |
| `LegacyLieOperator.ApplyToCoordinates` | ExpLTH.py:57-62 | the position q_i moves to q_i - t * (-dH/dp_i) and the momentum p_i to p_i - t * dH/dq_i |
| `LegacyLieOperator.Multiply` | ExpLTH.py:44-62 | a vector operand is mapped element-wise into a vector of the same length; an operator operand yields the formal chain [self, other] |
| `LegacyLieOperator.ChainMultiply` | ExpLTH.py:83-93 | chain times chain concatenates with self first, chain times operator appends, and chain times an expression folds from the last term to the first |
| `LegacyLieOperator.ChainApplyConcat` | ExpLTH.py:89-93 | applying a concatenation applies the right part first |
| `LegacyLieOperator.ChainAppendApply` | ExpLTH.py:86-87 | appending an operator and then applying the chain applies that operator first |
| `Yoshida.GetYoshidaIntegrator` | integrator.py:4-27 | it fails exactly for a zero or odd increase or an odd starting order, with the order error, or when a pass runs at order 0, where the coefficients divide by zero, that is when prevOrder <= 0 < prevOrder + increase; otherwise it returns the chain after ceil(increase/2) passes, which for a negative increase is the input itself; with ret_all it returns that many plus one chains: the input first, the chain after pass k at place k, each three times as long as the one before |
| `Yoshida.ZeroPassIff` | integrator.py:15-17 | for even orders, some pass of range(order, order + increase, 2) runs at order 0 exactly when order <= 0 < order + increase |
| `Yoshida.EveryTriples` | integrator.py:21-25 | in the ret_all list each chain is three times as long as the one before |
| `Yoshida.PassCount` | integrator.py:15 | the loop over range(order, order + increase, 2) stops after exactly ceil(increase/2) passes, and after none for a negative increase |
| `Yoshida.TripleStepLength` | integrator.py:18-19 | one pass triples the length of the chain |
| `Yoshida.TripleStepHamiltonians` | integrator.py:18-19 | after one pass the Hamiltonians are the input's three times over, in order |
| `Yoshida.TripleStepVariables` | integrator.py:16-19 | after one pass the steps form three equal blocks x_1(n)*tau, x_0(n)*tau, x_1(n)*tau |
| `Yoshida.TripleStepKeepsValid` | integrator.py:18-19 | one pass keeps every term a constructed operator |
| `Yoshida.RaiseLength` | integrator.py:15-19 | k passes give 3^k * m terms for an input of length m |
| `Yoshida.RaiseTriples` | integrator.py:18-19 | each pass triples the length of the chain before it |
| `Yoshida.RaiseHamiltonians` | integrator.py:15-19 | after k passes the Hamiltonians are the input's repeated 3^k times, in order |
| `Yoshida.RaiseBlocks` | integrator.py:15-19 | after a pass the chain is three equal blocks with steps x_1, x_0, x_1 for the pass's order, so the step sequence is a palindrome |
| `Yoshida.RaiseKeepsValid` | integrator.py:15-19 | all passes keep every term a constructed operator |
| `Yoshida.AsWrittenForgetsSteps` | integrator.py:18-19 | two chains that differ only in their step variables give the same pass: the input's own steps are discarded |
| `Yoshida.GaugeStepLost` | integrator.py:18-19 | a term with step 1 gets step x_1*tau, which is not 1, from the pass as written, and keeps step 1 under rescaling |
| `Yoshida.RescaleChain` | integrator.py:18-19 | the rescaled copy keeps the length and the Hamiltonians; a step without tau is kept, and a step a*tau becomes a*(factor*tau) |
| `Yoshida.TripleStepRescaled` | integrator.py:18-19 | the rescaling pass triples the length and repeats the Hamiltonians; a step without tau is kept in every block, and a step a*tau becomes a*(x*tau) for the block's coefficient x |
| `Yoshida.RescaledAgreesOnUniformSteps` | integrator.py:18-19 | when every step is tau itself, replacing and rescaling give the same pass |
| `Yoshida.RaiseRescaledShape` | integrator.py:15-19 | with rescaling, k passes still give 3^k * m terms with the Hamiltonians repeated 3^k times in order |

## Left out

- The symbolic algebra system is not part of this model. Expressions are a small
  datatype, and automatic evaluation is modelled only as the absorption of 0 and 1 in
  sums, products and negations. There is no simplification, no expansion, and no
  sympy `Matrix` beyond a sequence of expressions.
- The coefficients x_0 and x_1 are floating-point numbers in the code. Here they are
  the opaque terms `x_0(n)` and `x_1(n)`.
- Rendering (`__str__`, `_latex`) is output only.
- `simplify_hamiltonians`, `gauge_transform` and the example scripts are not part of
  this model.
- The position and momentum families are taken to have equal length. For explth.py
  this is a requires of `LieOperator.New`: the code indexes one family by the other's
  index, so it fails on unequal lengths in a way that depends on which family is longer.
  For ExpLTH.py construction accepts any lengths, and `LegacyLieOperator.WellShaped`,
  required on application, demands equal ones: the code's dot products of a gradient
  over one family with partials over the other fail otherwise.
- Disjoint and duplicate-free families appear only in lemma requires. Construction
  itself does not check them, and neither does the code.
- `LieOperator.Multiply`: an operator times a chain is excluded by its requires. In the
  code a chain is neither iterable nor an operator, so it falls into the scalar branch
  and asks the chain for its free symbols, which is outside what the model covers.
- `LegacyLieOperator.Multiply`: an operator times a chain is excluded by its requires.
  In the code a chain is neither iterable nor an operator, so it falls into the scalar
  formula and asks the chain for its partial derivatives, which is outside what the
  model covers.
- Python's exception classes and messages are not modelled beyond the cases of
  `Outcome.Error`.
- `LieOperator.ChainPower`: a bool exponent is an int in Python and is not modelled.
- `Yoshida.GetYoshidaIntegrator` takes the input integrator as a chain; passing a single
  operator is not modelled.
- `Yoshida.GetYoshidaIntegrator`: the input is never changed, because every value is
  immutable here. The model therefore does not capture aliasing of the returned list
  with the input chain.

## Findings

| source | as written | input that shows it | evidently intended | confidence | as-written member | corrected member |
|---|---|---|---|---|---|---|
| integrator.py:18-19 | each pass copies the chain with every term's step REPLACED by x_1*tau, x_0*tau, x_1*tau, so the input integrator's own step fractions are lost | the same nine terms as the integrator of accelerator_hamiltonians.py:33-36, built with explth.py's ExpLTH, with steps -ds/4, -ds/2, -ds/4, 1, -ds, -1, -ds/4, -ds/2, -ds/4: after one pass with tau = ds every term of the first block has step x_1*ds, so the gauge pair with steps 1 and -1 no longer cancels and the quarter and half steps become full ones | Yoshida's composition S(x_1 tau) S(x_0 tau) S(x_1 tau) of the input integrator S, i.e. every step with tau rescaled to x*tau | medium, not executed | `Yoshida.GaugeStepLost` | `Yoshida.TripleStepRescaled` |

`Yoshida.GetYoshidaIntegrator` and its lemmas model the code as written. The corrected
pass is `Yoshida.TripleStepRescaled`, and the order raiser built from it is
`Yoshida.RaiseRescaled`, with its shape proved in `Yoshida.RaiseRescaledShape`.
`Yoshida.RescaledAgreesOnUniformSteps` shows that the two passes coincide when every
step is tau itself.
