/** The two gates the evaluator understands and the matrix each one builds
    over num_qubits qubits (test_decomposition.py:34-56).  A gate is the
    tuple `(gate_type, params)`; a tuple whose type is neither "CNOT" nor
    "RZ" is kept as `Other` so that the circuits handed to the evaluator can
    hold it. */
module Gates {
  import opened Results
  import opened Bits
  import opened Monomial

  /** A gate type tag other than "CNOT" and "RZ". */
  type OtherKind = s: string | s != "CNOT" && s != "RZ" witness ""

  datatype Gate =
    | CNOT(control: int, target: int)        // ("CNOT", (control, target))
    | RZ(angle: real, qubit: int)            // ("RZ", (angle, qubit))
    | Other(kind: OtherKind, first: real, second: int)  // any other type tag

  /** The exceptions the matrix-building loops can raise: a shift by a
      negative count (Python's ValueError) and a row index past the end of
      the matrix (numpy's IndexError). */
  datatype EvalError = NegativeShift | IndexOutOfRange

  /** The exception, if any, that building the matrix of `g` over n qubits
      raises.  For a CNOT the loop over i shifts by `control` first; only
      when some i < 2^n has bit `control` set, that is when control < n,
      does it go on to shift 1 by `target` and store at row
      `i ^ (1 << target)`, which is out of range exactly when target >= n. */
  function GateCheck(g: Gate, n: nat): (e: Option<EvalError>)
    ensures g.Other? ==> e.None?
    ensures e == Some(NegativeShift) ==>
      || (g.RZ? && g.qubit < 0)
      || (g.CNOT? && g.control < 0)
      || (g.CNOT? && 0 <= g.control && g.target < 0 &&
          exists i :: 0 <= i < Pow2(n) && Bit(i, g.control) == 1)
    ensures e == Some(IndexOutOfRange) ==>
      && g.CNOT? && 0 <= g.control && 0 <= g.target
      && exists i :: 0 <= i < Pow2(n) && Bit(i, g.control) == 1 && Xor(i, Pow2(g.target)) >= Pow2(n)
  {
    match g
    case CNOT(c, t) =>
      if c < 0 then Some(NegativeShift)
      else if c < n && t < 0 then
        // index 2^c is the first to reach the shift by `target`
        Pow2Monotone(c + 1, n); BitOfPow2(c, c);
        Some(NegativeShift)
      else if c < n && n <= t then
        // and its row `2^c ^ 2^t` lies past the matrix
        Pow2Monotone(c + 1, n); BitOfPow2(c, c); FlipBelowIff(Pow2(c), t, n);
        Some(IndexOutOfRange)
      else None
    case RZ(_, q) => if q < 0 then Some(NegativeShift) else None
    case Other(_, _, _) => None
  }

  /** Where CNOT(control, target) sends basis index i: `i ^ (1 << target)`
      when `(i >> control) & 1`, i itself otherwise.  Negative shift counts
      raise in the source (GateCheck); here they leave i in place. */
  function CnotRow(control: int, target: int, i: nat): (j: nat)
    ensures forall k: nat :: k != target ==> Bit(j, k) == Bit(i, k)
  {
    if control >= 0 && target >= 0 && Bit(i, control) == 1 then
      FlipKeepsOtherBits(i, target);
      Xor(i, Pow2(target))
    else i
  }

  /** Phase of diagonal entry i of RZ(angle, qubit): e^{-i*angle/2} when bit
      `qubit` of i is set, e^{+i*angle/2} otherwise. */
  function RzPhase(angle: real, qubit: int, i: nat): (p: real)
    ensures p == angle / 2.0 || p == -angle / 2.0
    ensures qubit >= 0 && Bit(i, qubit) == 1 ==> p == -angle / 2.0
  {
    if qubit >= 0 && Bit(i, qubit) == 1 then -angle / 2.0 else angle / 2.0
  }

  /** The row a gate sends column i to. */
  function GateRow(g: Gate, i: nat): (j: nat)
  {
    match g
    case CNOT(c, t) => CnotRow(c, t, i)
    case RZ(_, _) => i
    case Other(_, _, _) => i
  }

  /** The phase a gate multiplies column i by. */
  function GatePhase(g: Gate, i: nat): (p: real)
  {
    match g
    case CNOT(_, _) => 0.0
    case RZ(a, q) => RzPhase(a, q, i)
    case Other(_, _, _) => 0.0
  }

  /** The matrix of one gate over n qubits: column i holds e^{i*GatePhase}
      at row GateRow.  A gate of another type contributes the identity. */
  function GateMatrix(g: Gate, n: nat): (m: seq<Entry>)
    requires GateCheck(g, n).None?
    ensures Square(m, Pow2(n))
  {
    GateRowsInRange(g, n);
    seq(Pow2(n), i requires 0 <= i < Pow2(n) => Entry(GateRow(g, i), GatePhase(g, i)))
  }

  /** What building the matrix of `g` yields: the exception it raises, or
      the matrix. */
  function GateOutcome(g: Gate, n: nat): (r: Result<seq<Entry>, EvalError>)
  {
    match GateCheck(g, n)
    case Some(e) => Failure(e)
    case None => Success(GateMatrix(g, n))
  }

  /** A CNOT whose control and target are the same qubit inside the
      n-qubit register.  Nothing rejects it, but its matrix is not a
      permutation (CnotSameQubitCollapses).  The same qubit past the
      register gives the identity, and a negative one raises. */
  predicate Degenerate(g: Gate, n: nat)
  {
    g.CNOT? && 0 <= g.control == g.target < n
  }

  /** Applying a gate to column e: the column moves to the gate's row for it
      and picks up the gate's phase. */
  function Step(g: Gate, e: Entry): (e': Entry)
  {
    Entry(GateRow(g, e.row), e.phase + GatePhase(g, e.row))
  }

  /** Every column of a gate that builds without error lands inside the
      2^n x 2^n matrix. */
  lemma GateRowsInRange(g: Gate, n: nat)
    requires GateCheck(g, n).None?
    ensures forall i :: 0 <= i < Pow2(n) ==> GateRow(g, i) < Pow2(n)
  {
    forall i | 0 <= i < Pow2(n)
      ensures GateRow(g, i) < Pow2(n)
    {
      if g.CNOT? && g.control >= 0 && g.target >= 0 && Bit(i, g.control) == 1 {
        SetBitBelowWidth(i, g.control, n);
        Pow2Monotone(g.target + 1, n);
        XorBelow(i, Pow2(g.target), n);
      }
    }
  }

  /** CNOT flips bit `target` of the index when bit `control` is 1 and
      leaves every other bit, and the target bit otherwise, as it was. */
  lemma CnotFlipsTarget(control: nat, target: nat, i: nat, k: nat)
    ensures Bit(CnotRow(control, target, i), k) ==
      if k == target && Bit(i, control) == 1 then 1 - Bit(i, k) else Bit(i, k)
  {
    if Bit(i, control) == 1 {
      BitOfXor(i, Pow2(target), k);
      BitOfPow2(target, k);
    }
  }

  /** CNOT with distinct control and target is its own inverse on every
      basis index. */
  lemma {:induction false} CnotSelfInverse(control: int, target: int, i: nat)
    requires control != target
    ensures CnotRow(control, target, CnotRow(control, target, i)) == i
  {
    if control >= 0 && target >= 0 && Bit(i, control) == 1 {
      CnotFlipsTarget(control, target, i, control);
      XorCancel(i, Pow2(target));
    }
  }

  /** The matrix of a well-formed CNOT times itself is the identity, so it
      is unitary; with control == target inside the register the matrix
      sends two columns to the same row and is not. */
  lemma {:induction false} CnotUnitaryIff(control: int, target: int, n: nat)
    requires GateCheck(CNOT(control, target), n).None?
    ensures Unitary(GateMatrix(CNOT(control, target), n), Pow2(n))
      <==> (control != target || n <= control)
  {
    var g := CNOT(control, target);
    var m := GateMatrix(g, n);
    if control != target {
      forall i | 0 <= i < Pow2(n)
        ensures Compose(m, m)[i] == Identity(Pow2(n))[i]
      {
        CnotSelfInverse(control, target, i);
      }
      assert InverseOf(m, m, Pow2(n));
      InverseIsAdjoint(m, m, Pow2(n));
    } else if n <= control {
      forall i | 0 <= i < Pow2(n)
        ensures m[i] == Identity(Pow2(n))[i]
      {
        BitAboveWidth(i, control, n);
      }
      assert m == Identity(Pow2(n));
      InverseIsAdjoint(m, m, Pow2(n));
    } else {
      CnotSameQubitCollapses(control, n);
    }
  }

  /** CNOT(q, q) over n > q qubits sends column 2^q and column 0 both to
      row 0. */
  lemma CnotSameQubitCollapses(q: nat, n: nat)
    requires q < n
    ensures GateCheck(CNOT(q, q), n).None?
    ensures var m := GateMatrix(CNOT(q, q), n);
      0 < Pow2(q) < |m| && m[Pow2(q)].row == m[0].row == 0
  {
    Pow2Monotone(q + 1, n);
    BitOfPow2(q, q);
    ZeroHasNoBits(q);
    XorCancel(0, Pow2(q));
    XorZero(Pow2(q));
  }

  /** RZ(angle, qubit) is diagonal: every column stays on its row and is
      multiplied by e^{-i*angle/2} or e^{+i*angle/2} as bit `qubit` of its
      index is 1 or 0. */
  lemma RzDiagonal(angle: real, qubit: nat, n: nat, i: nat)
    requires i < Pow2(n)
    ensures GateCheck(RZ(angle, qubit), n).None?
    ensures GateMatrix(RZ(angle, qubit), n)[i].row == i
    ensures Bit(i, qubit) == 1 ==> GateMatrix(RZ(angle, qubit), n)[i].phase == -angle / 2.0
    ensures Bit(i, qubit) == 0 ==> GateMatrix(RZ(angle, qubit), n)[i].phase == angle / 2.0
  {
  }

  /** RZ on a qubit past the register never sees a set bit: it multiplies
      the whole matrix by the one global phase e^{i*angle/2}. */
  lemma RzPastRegisterIsGlobalPhase(angle: real, qubit: nat, n: nat)
    requires n <= qubit
    ensures GateCheck(RZ(angle, qubit), n).None?
    ensures forall i :: 0 <= i < Pow2(n) ==>
      GateMatrix(RZ(angle, qubit), n)[i] == Entry(i, angle / 2.0)
  {
    forall i | 0 <= i < Pow2(n)
      ensures GateMatrix(RZ(angle, qubit), n)[i] == Entry(i, angle / 2.0)
    {
      BitAboveWidth(i, qubit, n);
    }
  }

  /** A CNOT whose control is at or past the register never sees its
      control bit set on an index below 2^n: it builds the identity,
      whatever its target. */
  lemma CnotPastRegisterIsIdentity(control: int, target: int, n: nat)
    requires n <= control
    ensures GateOutcome(CNOT(control, target), n) == Success(Identity(Pow2(n)))
  {
    forall i | 0 <= i < Pow2(n)
      ensures GateMatrix(CNOT(control, target), n)[i] == Identity(Pow2(n))[i]
    {
      BitAboveWidth(i, control, n);
    }
    assert GateMatrix(CNOT(control, target), n) == Identity(Pow2(n));
  }

  /** A gate of any other type builds the identity. */
  lemma OtherIsIdentity(kind: OtherKind, first: real, second: int, n: nat)
    ensures GateOutcome(Other(kind, first, second), n) == Success(Identity(Pow2(n)))
  {
    var m := GateMatrix(Other(kind, first, second), n);
    assert forall i :: 0 <= i < Pow2(n) ==> m[i] == Identity(Pow2(n))[i];
    assert m == Identity(Pow2(n));
  }
}
