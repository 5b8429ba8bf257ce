/** The circuit evaluator `gates_to_matrix` (test_decomposition.py:20-58):
    start from the 2^n x 2^n identity and left-multiply the matrix of each
    gate in list order, so that a circuit [G1, ..., Gk] evaluates to
    Gk @ ... @ G1 and G1 is the first gate to act on a state vector. */
module Circuit {
  import opened Results
  import opened Bits
  import opened Monomial
  import opened Gates

  /** The specification of the evaluator: the matrix of the circuit over n
      qubits, or the exception raised by the first gate that fails to
      build. */
  function Eval(c: seq<Gate>, n: nat): (r: Result<seq<Entry>, EvalError>)
    ensures r.Success? ==> Square(r.value, Pow2(n))
  {
    if c == [] then Success(Identity(Pow2(n)))
    else
      match Eval(c[..|c| - 1], n)
      case Failure(e) => Failure(e)
      case Success(m) =>
        match GateOutcome(c[|c| - 1], n)
        case Failure(e) => Failure(e)
        case Success(g) => Success(Compose(g, m))
  }

  /** Every gate of the circuit builds without raising. */
  predicate Buildable(c: seq<Gate>, n: nat)
  {
    forall k :: 0 <= k < |c| ==> GateCheck(c[k], n).None?
  }

  /** No CNOT of the circuit has its control equal to its target inside
      the n-qubit register. */
  predicate NonDegenerate(c: seq<Gate>, n: nat)
  {
    forall k :: 0 <= k < |c| ==> !Degenerate(c[k], n)
  }

  /** An independent reading of a circuit: follow one column through the
      gates, first listed gate first. */
  function Run(c: seq<Gate>, e: Entry): (e': Entry)
  {
    if c == [] then e else Run(c[1..], Step(c[0], e))
  }

  /** Running a circuit with one more gate at the end applies that gate
      last. */
  lemma {:induction false} RunSnoc(c: seq<Gate>, g: Gate, e: Entry)
    ensures Run(c + [g], e) == Step(g, Run(c, e))
  {
    if c != [] {
      assert (c + [g])[1..] == c[1..] + [g];
      RunSnoc(c[1..], g, Step(c[0], e));
    }
  }

  /** Running two circuits one after the other is running their
      concatenation. */
  lemma {:induction false} RunAppend(c: seq<Gate>, d: seq<Gate>, e: Entry)
    ensures Run(c + d, e) == Run(d, Run(c, e))
  {
    if c == [] {
      assert c + d == d;
    } else {
      assert (c + d)[1..] == c[1..] + d;
      RunAppend(c[1..], d, Step(c[0], e));
    }
  }

  /** A circuit whose gates all build keeps every column of the 2^n x 2^n
      matrix inside it. */
  lemma {:induction false} RunInRange(c: seq<Gate>, n: nat, e: Entry)
    requires Buildable(c, n) && e.row < Pow2(n)
    ensures Run(c, e).row < Pow2(n)
  {
    if c != [] {
      GateRowsInRange(c[0], n);
      assert forall k :: 0 <= k < |c| - 1 ==> c[1..][k] == c[k + 1];
      RunInRange(c[1..], n, Step(c[0], e));
    }
  }

  /** The evaluator succeeds exactly when every gate builds. */
  lemma {:induction false} EvalSucceedsIff(c: seq<Gate>, n: nat)
    ensures Eval(c, n).Success? <==> Buildable(c, n)
  {
    if c != [] {
      var p := c[..|c| - 1];
      EvalSucceedsIff(p, n);
      assert forall k :: 0 <= k < |p| ==> p[k] == c[k];
    }
  }

  /** When it fails, the evaluator reports the exception of the first gate
      that does not build. */
  lemma {:induction false} EvalFailsAtFirstBadGate(c: seq<Gate>, n: nat, k: nat)
    requires k < |c| && Buildable(c[..k], n) && GateCheck(c[k], n).Some?
    ensures Eval(c, n) == Failure(GateCheck(c[k], n).value)
  {
    var p := c[..|c| - 1];
    if k == |c| - 1 {
      assert p == c[..k];
      EvalSucceedsIff(p, n);
    } else {
      assert p[..k] == c[..k] && p[k] == c[k];
      EvalFailsAtFirstBadGate(p, n, k);
    }
  }

  /** Once a prefix of the circuit fails, the whole circuit fails the same
      way: no later gate is looked at. */
  lemma {:induction false} EvalPrefixFailure(c: seq<Gate>, k: nat, n: nat)
    requires k <= |c| && Eval(c[..k], n).Failure?
    ensures Eval(c, n) == Eval(c[..k], n)
    decreases |c| - k
  {
    if k < |c| {
      var p := c[..|c| - 1];
      assert p[..k] == c[..k];
      EvalPrefixFailure(p, k, n);
    } else {
      assert c[..k] == c;
    }
  }

  /** Composition order: column i of the evaluated matrix is column i of
      the identity pushed through the gates first to last, so the first
      listed gate acts first on a state vector. */
  lemma {:induction false} EvalColumn(c: seq<Gate>, n: nat, i: nat)
    requires Eval(c, n).Success? && i < Pow2(n)
    ensures Eval(c, n).value[i] == Run(c, Entry(i, 0.0))
  {
    if c != [] {
      var p, g := c[..|c| - 1], c[|c| - 1];
      assert c == p + [g];
      EvalColumn(p, n, i);
      RunSnoc(p, g, Entry(i, 0.0));
    }
  }

  /** Evaluating a concatenation multiplies the second part's matrix on the
      left of the first's: eval(c + d) == eval(d) @ eval(c). */
  lemma {:induction false} EvalAppend(c: seq<Gate>, d: seq<Gate>, n: nat)
    requires Eval(c + d, n).Success?
    ensures Eval(c, n).Success? && Eval(d, n).Success?
    ensures Eval(c + d, n).value == Compose(Eval(d, n).value, Eval(c, n).value)
  {
    EvalSucceedsIff(c + d, n);
    assert forall k :: 0 <= k < |c| ==> (c + d)[k] == c[k];
    assert forall k :: 0 <= k < |d| ==> (c + d)[|c| + k] == d[k];
    EvalSucceedsIff(c, n);
    EvalSucceedsIff(d, n);
    var l, r := Eval(c + d, n).value, Compose(Eval(d, n).value, Eval(c, n).value);
    forall i | 0 <= i < Pow2(n)
      ensures l[i] == r[i]
    {
      var mc := Eval(c, n).value;
      EvalColumn(c + d, n, i);
      EvalColumn(c, n, i);
      EvalColumn(d, n, mc[i].row);
      RunAppend(c, d, Entry(i, 0.0));
      RunPhaseShift(d, Entry(mc[i].row, 0.0), mc[i].phase);
    }
  }

  /** Starting a column with an extra phase only adds that phase to where
      it ends up. */
  lemma {:induction false} RunPhaseShift(c: seq<Gate>, e: Entry, p: real)
    ensures Run(c, Entry(e.row, e.phase + p)) ==
      Entry(Run(c, e).row, Run(c, e).phase + p)
  {
    if c != [] {
      var s := Step(c[0], e);
      assert Step(c[0], Entry(e.row, e.phase + p)) == Entry(s.row, s.phase + p);
      RunPhaseShift(c[1..], s, p);
    }
  }

  /** A gate tuple of any other type is skipped: the accumulated matrix is
      left as it was. */
  lemma EvalSkipsOther(c: seq<Gate>, kind: OtherKind, first: real, second: int, n: nat)
    ensures Eval(c + [Other(kind, first, second)], n) == Eval(c, n)
  {
    var g := Other(kind, first, second);
    assert (c + [g])[..|c|] == c;
    OtherIsIdentity(kind, first, second, n);
    if Eval(c, n).Success? {
      ComposeIdentity(Eval(c, n).value, Pow2(n));
    }
  }

  /** The basis-index convention, pinned on one qubit: qubit 0 is bit 0,
      and RZ puts e^{+i*angle/2} on |0> and e^{-i*angle/2} on |1>. */
  lemma RzConvention(angle: real)
    ensures Eval([RZ(angle, 0)], 1) == Success([Entry(0, angle / 2.0), Entry(1, -angle / 2.0)])
  {
    var g := RZ(angle, 0);
    assert [g][..0] == [];
    var m := GateMatrix(g, 1);
    assert Eval([g], 1) == Success(Compose(m, Identity(Pow2(1))));
    ComposeIdentity(m, Pow2(1));
    assert Pow2(1) == 2;
    assert Bit(1, 0) == 1 && Bit(0, 0) == 0;
    assert m[0] == Entry(0, angle / 2.0) && m[1] == Entry(1, -angle / 2.0);
    assert m == [Entry(0, angle / 2.0), Entry(1, -angle / 2.0)];
  }

  /** The convention on two qubits: CNOT(0, 1) flips bit 1 where bit 0 is
      set, so it swaps |01> and |11> (indices 1 and 3) and fixes 0 and 2. */
  lemma CnotConvention()
    ensures Eval([CNOT(0, 1)], 2) == Success([Entry(0, 0.0), Entry(3, 0.0), Entry(2, 0.0), Entry(1, 0.0)])
  {
    var g := CNOT(0, 1);
    assert GateCheck(g, 2).None?;
    var m := GateMatrix(g, 2);
    assert Pow2(2) == 4;
    CnotZeroOneRows();
    assert m[0] == Entry(0, 0.0) && m[1] == Entry(3, 0.0);
    assert m[2] == Entry(2, 0.0) && m[3] == Entry(1, 0.0);
    assert m == [Entry(0, 0.0), Entry(3, 0.0), Entry(2, 0.0), Entry(1, 0.0)];
    assert [g][..0] == [];
    assert Eval([g], 2) == Success(Compose(m, Identity(Pow2(2))));
    ComposeIdentity(m, Pow2(2));
  }

  lemma CnotZeroOneRows()
    ensures CnotRow(0, 1, 0) == 0 && CnotRow(0, 1, 1) == 3
    ensures CnotRow(0, 1, 2) == 2 && CnotRow(0, 1, 3) == 1
  {
    assert Pow2(1) == 2;
    assert Bit(0, 0) == 0 && Bit(2, 0) == 0;
    assert Bit(1, 0) == 1 && Bit(3, 0) == 1;
    assert Xor(0, 1) == 1 && Xor(1, 1) == 0;
    assert Xor(1, 2) == 2 * Xor(0, 1) + 1 == 3;
    assert Xor(3, 2) == 2 * Xor(1, 1) + 1 == 1;
  }

  /** `gates_to_matrix(circuit, num_qubits)`: start from the identity and,
      gate by gate, build the gate's matrix and multiply it on the left of
      the accumulated one; a gate of any other type is skipped. */
  method GatesToMatrix(circuit: seq<Gate>, numQubits: nat)
    returns (r: Result<seq<Entry>, EvalError>)
    ensures r == Eval(circuit, numQubits)
  {
    var dim := Pow2(numQubits);
    var matrix := Identity(dim);
    for k := 0 to |circuit|
      invariant Eval(circuit[..k], numQubits) == Success(matrix)
    {
      assert circuit[..k + 1][..k] == circuit[..k];
      match circuit[k] {
        case CNOT(control, target) =>
          var cnot := BuildCnot(control, target, numQubits);
          if cnot.Failure? {
            EvalPrefixFailure(circuit, k + 1, numQubits);
            return cnot;
          }
          matrix := Compose(cnot.value, matrix);
        case RZ(angle, qubit) =>
          var rz := BuildRz(angle, qubit, numQubits);
          if rz.Failure? {
            EvalPrefixFailure(circuit, k + 1, numQubits);
            return rz;
          }
          matrix := Compose(rz.value, matrix);
        case Other(kind, first, second) =>
          // neither "CNOT" nor "RZ": no branch applies and `matrix` stays
          OtherIsIdentity(kind, first, second, numQubits);
          ComposeIdentity(matrix, dim);
      }
    }
    assert circuit[..|circuit|] == circuit;
    r := Success(matrix);
  }

  /** The CNOT branch: start from the identity and, for every i whose bit
      `control` is 1, move column i to row `i ^ (1 << target)`. */
  method BuildCnot(control: int, target: int, n: nat)
    returns (r: Result<seq<Entry>, EvalError>)
    ensures r == GateOutcome(CNOT(control, target), n)
  {
    var dim := Pow2(n);
    var cnot := new Entry[dim](i => Entry(i, 0.0));
    if control < 0 {
      // `0 >> control` raises on the first pass of the loop
      return Failure(NegativeShift);
    }
    for i := 0 to dim
      invariant forall k :: 0 <= k < i ==> cnot[k] == Entry(CnotRow(control, target, k), 0.0)
      invariant forall k :: i <= k < dim ==> cnot[k] == Entry(k, 0.0)
      invariant control < n && Pow2(control) < i ==> 0 <= target < n
    {
      if Bit(i, control) == 1 {
        SetBitBelowWidth(i, control, n);
        if target < 0 {
          // `1 << target` raises
          return Failure(NegativeShift);
        }
        var j := Xor(i, Pow2(target));
        FlipBelowIff(i, target, n);
        if j >= dim {
          // `cnot[j, i] = 1` raises
          return Failure(IndexOutOfRange);
        }
        cnot[i] := Entry(j, 0.0);
      } else if control < n {
        BitOfPow2(control, control);
      }
    }
    if control < n {
      Pow2Monotone(control + 1, n);
    }
    assert GateCheck(CNOT(control, target), n).None?;
    assert cnot[..] == GateMatrix(CNOT(control, target), n);
    r := Success(cnot[..]);
  }

  /** The RZ branch: entry i of the diagonal gets e^{-i*angle/2} when bit
      `qubit` of i is 1 and e^{+i*angle/2} otherwise. */
  method BuildRz(angle: real, qubit: int, n: nat)
    returns (r: Result<seq<Entry>, EvalError>)
    ensures r == GateOutcome(RZ(angle, qubit), n)
  {
    var dim := Pow2(n);
    var rz := new Entry[dim](i => Entry(i, 0.0));
    if qubit < 0 {
      // `0 >> qubit` raises on the first pass of the loop
      return Failure(NegativeShift);
    }
    for i := 0 to dim
      invariant forall k :: 0 <= k < i ==> rz[k] == Entry(k, RzPhase(angle, qubit, k))
    {
      if Bit(i, qubit) == 1 {
        rz[i] := Entry(i, -angle / 2.0);
      } else {
        rz[i] := Entry(i, angle / 2.0);
      }
    }
    assert rz[..] == GateMatrix(RZ(angle, qubit), n);
    r := Success(rz[..]);
  }
}
