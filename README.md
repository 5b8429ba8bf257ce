# Circuit evaluator of the U = V·D·V† decomposition test

This project models the circuit evaluator `gates_to_matrix` of the QNN-hack
decomposition test, and the inverse circuit V† that the test builds from a
synthesized circuit V.

A circuit is a list of gate tuples. `("CNOT", (control, target))` flips bit
`target` of every basis index whose bit `control` is 1. `("RZ", (angle, qubit))`
multiplies basis state i by e^{-i·angle/2} when bit `qubit` of i is 1, and by
e^{+i·angle/2} otherwise. A tuple of any other type is skipped. The evaluator
starts from the 2^n × 2^n identity and multiplies each gate's matrix on the
left, so [G1, …, Gk] evaluates to Gk·…·G1.

Every such matrix has exactly one non-zero entry per column, and that entry
is a pure phase. The model therefore keeps a matrix column by column, as the
row of its non-zero entry and the exact real phase angle of that entry
(`Monomial.Entry`). Matrix products become index composition plus exact sums
of angles, and no floating point is involved.

Modules:
- `Bits` covers `1 << k`, `i >> k`, `& 1` and `^` on non-negative integers.
- `Monomial` holds the column representation, the identity, the product, and
  the notions unitary, adjoint and inverse.
- `Gates` holds the gate tuples, the exceptions their matrix loops raise, and
  each gate's matrix.
- `Circuit` holds the specification `Eval` and the imperative `GatesToMatrix`
  with its two matrix-building loops.
- `Dagger` holds the reverse-and-negate construction of V† and the inverse
  law.

Facts about the code that the model makes explicit:
- Left-multiplying in list order makes the first listed gate act first on a
  state: `Circuit.EvalColumn` proves that column i is the basis state i
  pushed through the gates from the first to the last.
- An out-of-range qubit raises only in some cases:
  - a negative shift count raises `ValueError`;
  - a CNOT whose control is in range and whose target is at or past n
    raises `IndexError`.
  - A CNOT whose control is at or past n is the identity, whatever its target
    (`Gates.CnotPastRegisterIsIdentity`).
  - An RZ on a qubit at or past n multiplies the whole matrix by e^{i·angle/2}.
- The code does not check that a CNOT's control differs from its target.
  For 0 ≤ q < n, `CNOT(q, q)` evaluates to a matrix that is not a
  permutation; for q ≥ n it is the identity
  (`Gates.CnotPastRegisterIsIdentity`). The unitarity and inverse
  results therefore assume that no CNOT has its control equal to its target
  inside the register (`Gates.Degenerate`, `Circuit.NonDegenerate`).
- A gate tuple whose type is neither "CNOT" nor "RZ" (`Gates.OtherKind`) is
  skipped by the evaluator, and line 114 negates its first parameter.

## Model

| member | source | states |
|---|---|---|
| `Bits.ShrIsDivision` | test_decomposition.py:41 | the repeated halving used for `i >> k` is floor division by 2^k |
| `Bits.BitOfXor` | test_decomposition.py:42 | bit k of `a ^ b` is set exactly when bits k of a and b differ |
| `Bits.XorCancel` | test_decomposition.py:42 | `(a ^ b) ^ b == a` |
| `Bits.FlipBelowIff` | test_decomposition.py:42-44 | for i < 2^n, the row `i ^ (1 << t)` stays inside the 2^n-row matrix exactly when t < n |
| `Monomial.Identity` | test_decomposition.py:32 | `np.eye(dim)`: a dim × dim matrix with every column on its diagonal and phase 0 |
| `Monomial.Compose` | test_decomposition.py:45 | the product `a @ b` has one column per column of b, and each lands on a row that some column of a lands on |
| `Monomial.ComposeIdentity` | test_decomposition.py:32 | the starting identity is neutral on both sides of the product |
| `Monomial.ComposeAssociative` | test_decomposition.py:45 | the products `@` of the evaluator associate |
| `Monomial.InverseIsAdjoint` | test_decomposition.py:137-140 | a matrix with a two-sided inverse has that inverse as its conjugate transpose, and its index map is one-to-one and onto, so it is unitary |
| `Gates.GateCheck` | test_decomposition.py:39-52 | a tuple of another type never raises; `ValueError` is raised only for a negative RZ qubit, a negative CNOT control, or a negative target once some index below 2^n has bit `control` set; `IndexError` only when some index below 2^n with bit `control` set has its row `i ^ (1 << target)` past the matrix |
| `Gates.CnotRow` | test_decomposition.py:41-44 | the row `i ^ (1 << target)` of column i agrees with i on every bit other than `target` |
| `Gates.RzPhase` | test_decomposition.py:52-55 | the diagonal entry is e^{±i·angle/2}, and e^{-i·angle/2} when bit `qubit` of i is 1 |
| `Gates.GateMatrix` | test_decomposition.py:38-55 | a gate that builds without raising gives a 2^n × 2^n matrix with every column's non-zero entry inside it |
| `Gates.GateRowsInRange` | test_decomposition.py:39-44 | no row `i ^ (1 << target)` lands outside the matrix when the gate builds |
| `Gates.CnotFlipsTarget` | test_decomposition.py:40-44 | for any control and target, equal ones included, CNOT flips bit `target` of the index when bit `control` is 1, and leaves every other bit unchanged |
| `Gates.CnotSelfInverse` | test_decomposition.py:38-44 | with control ≠ target, applying CNOT twice returns every index |
| `Gates.CnotUnitaryIff` | test_decomposition.py:38-44 | a CNOT's matrix is a bijection exactly when control ≠ target or control lies past the register |
| `Gates.CnotSameQubitCollapses` | test_decomposition.py:38-44 | CNOT(q, q) with q < n builds without error but sends columns 2^q and 0 to the same row |
| `Gates.RzDiagonal` | test_decomposition.py:50-55 | RZ keeps every column on its row; the phase is −angle/2 when bit `qubit` is 1 and +angle/2 when it is 0 |
| `Gates.RzPastRegisterIsGlobalPhase` | test_decomposition.py:51-55 | RZ on a qubit ≥ n multiplies every column by e^{i·angle/2} |
| `Gates.CnotPastRegisterIsIdentity` | test_decomposition.py:39-44 | a CNOT whose control is at or past n builds the 2^n × 2^n identity, whatever its target, negative included |
| `Gates.OtherIsIdentity` | test_decomposition.py:34-56 | a tuple whose type is neither "CNOT" nor "RZ" builds the identity |
| `Circuit.Eval` | test_decomposition.py:20-58 | a circuit that evaluates gives a 2^n × 2^n matrix with one phase entry per column, inside the matrix |
| `Circuit.RunInRange` | test_decomposition.py:34-56 | when every gate builds, a column inside the 2^n × 2^n matrix stays inside it through the whole circuit |
| `Circuit.EvalSucceedsIff` | test_decomposition.py:34-56 | evaluation raises nothing exactly when every gate builds |
| `Circuit.EvalFailsAtFirstBadGate` | test_decomposition.py:34-56 | on failure, the exception is the one raised by the first gate that does not build |
| `Circuit.EvalPrefixFailure` | test_decomposition.py:34-56 | once a prefix raises, the whole circuit raises the same exception |
| `Circuit.EvalColumn` | test_decomposition.py:32-56 | column i of the result is basis state i run through the gates first to last, so the first listed gate acts first; the empty circuit gives the identity |
| `Circuit.EvalAppend` | test_decomposition.py:32-56 | eval(c ++ d) == eval(d) @ eval(c) |
| `Circuit.EvalSkipsOther` | test_decomposition.py:34-56 | appending a tuple whose type is neither "CNOT" nor "RZ" leaves the result unchanged |
| `Circuit.RzConvention` | test_decomposition.py:47-56 | on one qubit, RZ(a, 0) evaluates to diag(e^{ia/2}, e^{-ia/2}) |
| `Circuit.CnotConvention` | test_decomposition.py:35-45 | on two qubits, CNOT(0, 1) swaps basis indices 1 and 3 and fixes 0 and 2 |
| `Circuit.GatesToMatrix` | test_decomposition.py:20-58 | the imperative evaluator returns exactly `Eval`: the product matrix, or the first gate's exception |
| `Circuit.BuildCnot` | test_decomposition.py:36-44 | the CNOT loop fills the matrix of the gate, or raises `NegativeShift` / `IndexOutOfRange` exactly when the gate does not build |
| `Circuit.BuildRz` | test_decomposition.py:48-55 | the RZ loop fills the diagonal phase matrix, or raises `NegativeShift` for a negative qubit |
| `Dagger.Reversed` | test_decomposition.py:111 | the reversed list has the same length, with gate k at position len−1−k |
| `Dagger.InvertGate` | test_decomposition.py:114 | the gate type is kept; a CNOT is unchanged, and any other gate has its first parameter negated and its second kept |
| `Dagger.InvertEach` | test_decomposition.py:113-116 | the list keeps its length, and gate k is the inverse of gate k |
| `Dagger.DaggerCircuit` | test_decomposition.py:111-116 | V† has V's length, and its gate at position len−1−k is the inverse of V's gate k |
| `Dagger.DaggerShape` | test_decomposition.py:111-116 | V† has V's length in reverse order; CNOTs are unchanged and RZ(a, q) becomes RZ(−a, q) |
| `Dagger.DaggerInvolution` | test_decomposition.py:111-116 | building V† of V† gives V back |
| `Dagger.DaggerKeepsChecks` | test_decomposition.py:111-117 | V† evaluates without raising exactly when V does, and has a CNOT with control equal to target inside the register exactly when V does |
| `Dagger.StepInverse` | test_decomposition.py:113-116 | each inverted gate undoes its gate on any column of the 2^n × 2^n matrix, unless it is a CNOT(q, q) with q < n; the RZ phases cancel exactly |
| `Dagger.RunDagger` | test_decomposition.py:110-117 | when every gate of V builds and none is a CNOT(q, q) with q < n, running V and then V† returns every column with its phase restored |
| `Dagger.CircuitThenDagger` | test_decomposition.py:110-117 | when every gate of V builds and none is a CNOT(q, q) with q < n, V followed by V† evaluates to the identity |
| `Dagger.DaggerIsInverse` | test_decomposition.py:110-120 | when V evaluates and has no CNOT(q, q) with q < n, eval(V†) is the two-sided inverse of eval(V) and its conjugate transpose, and eval(V) is unitary |
| `Dagger.Reconstruction` | test_decomposition.py:117-140 | V @ D @ V† is the evaluation of the one circuit V† ++ D ++ V, and it is unitary when D has no CNOT(q, q) with q < n either |

## Left out

- Complex matrix entries: a column stores the angle of its phase entry instead of `np.exp(±1j*angle/2)`. Angles that differ by a multiple of 2π stand for the same entry, so equality in the model is stricter than matrix equality.
- The dense `@` products are not modelled. They are replaced by `Monomial.Compose`, which equals them on matrices with one phase entry per column, and every matrix here has that form.
- Floating-point rounding, tolerances and error metrics are not modelled: `np.allclose`, the maximum absolute and relative differences, the `1e-6` threshold and the printed identity error.
- The synthesizer `build_optimal_walsh_circuit`, the diagonalizer `diagonalize_unitary` and the network constructor `create_rbs_network_from_pattern` are not part of this model: they are imported modules outside it. V and D are therefore arbitrary gate lists here.
- torch/numpy conversions, dtype casts, the loop over topology patterns, and all console output are not modelled.
- install_prereqs.py is not part of this model. It only installs packages and probes the environment.
- `Circuit.GatesToMatrix` returns the matrix as a value, not a numpy array. Its working buffers for the CNOT and RZ matrices are arrays filled entry by entry, as in the source.
- A negative `num_qubits` is not modelled (`2**n` is then a fraction and `np.eye` raises). The qubit count is a `nat`.
- Gate parameters are modelled as a typed pair: integers for a CNOT, an angle and an integer for an RZ, a number and an integer for any other type. Line 114 rebuilds every parameter tuple as `(g[1][0], g[1][1])`, keeping only its first two entries. A CNOT or RZ whose parameter tuple is longer than two makes V raise at the unpacking on line 36 or 48, while V† evaluates; that case is not modelled. Nor are parameters of other types, such as a second entry that is not a number. Line 111 also cuts every gate tuple to its first two entries: a tuple of three or more entries makes V raise at the unpacking on line 34, while V† evaluates. An "other"-type tuple whose parameters have fewer than two entries, such as `("H", (0,))`, is skipped by the evaluator, but line 114 raises `IndexError` building V†. Neither case is modelled: `Dagger.DaggerCircuit` never fails.
