/** The inverse circuit V† that test_decomposition.py:110-116 builds from a
    circuit V: reverse the gate list, keep every CNOT as it is and negate
    the first parameter of every other gate, which for an RZ is its angle.
    The reconstruction at lines 117-120 multiplies the evaluations of V, D
    and V†. */
module Dagger {
  import opened Results
  import opened Bits
  import opened Monomial
  import opened Gates
  import opened Circuit

  /** The inverse of one gate: a CNOT is kept, `RZ(a, q)` becomes
      `RZ(-a, q)`, and any other tuple has its first parameter negated as
      well, since only "CNOT" is tested for. */
  function InvertGate(g: Gate): (g': Gate)
    ensures g'.CNOT? == g.CNOT? && g'.RZ? == g.RZ? && g'.Other? == g.Other?
    ensures g.CNOT? ==> g' == g
    ensures g.RZ? ==> g' == RZ(-g.angle, g.qubit)
    ensures g.Other? ==> g' == Other(g.kind, -g.first, g.second)
  {
    match g
    case CNOT(_, _) => g
    case RZ(a, q) => RZ(-a, q)
    case Other(kind, first, second) => Other(kind, -first, second)
  }

  /** `[(gate[0], gate[1]) for gate in reversed(c)]` */
  function Reversed(c: seq<Gate>): (r: seq<Gate>)
    ensures |r| == |c|
    ensures forall k :: 0 <= k < |c| ==> r[k] == c[|c| - 1 - k]
  {
    if c == [] then [] else Reversed(c[1..]) + [c[0]]
  }

  /** The second comprehension, inverting every gate in place. */
  function InvertEach(c: seq<Gate>): (r: seq<Gate>)
    ensures |r| == |c|
    ensures forall k :: 0 <= k < |c| ==> r[k] == InvertGate(c[k])
  {
    seq(|c|, k requires 0 <= k < |c| => InvertGate(c[k]))
  }

  /** The circuit V† built from V. */
  function DaggerCircuit(c: seq<Gate>): (r: seq<Gate>)
    ensures |r| == |c|
    ensures forall k :: 0 <= k < |c| ==> r[|c| - 1 - k] == InvertGate(c[k])
  {
    InvertEach(Reversed(c))
  }

  /** In V† each CNOT of V reappears unchanged and each `RZ(a, q)` as
      `RZ(-a, q)`, at the mirrored position. */
  lemma DaggerShape(c: seq<Gate>)
    ensures forall k :: 0 <= k < |c| && c[k].CNOT? ==> DaggerCircuit(c)[|c| - 1 - k] == c[k]
    ensures forall k :: 0 <= k < |c| && c[k].RZ? ==>
      DaggerCircuit(c)[|c| - 1 - k] == RZ(-c[k].angle, c[k].qubit)
  {
  }

  /** Inverting a gate twice gives it back. */
  lemma InvertGateInvolution(g: Gate)
    ensures InvertGate(InvertGate(g)) == g
  {
  }

  /** Building V† twice gives V back. */
  lemma DaggerInvolution(c: seq<Gate>)
    ensures DaggerCircuit(DaggerCircuit(c)) == c
  {
    var d := DaggerCircuit(c);
    var dd := DaggerCircuit(d);
    DaggerShape(c);
    DaggerShape(d);
    forall k | 0 <= k < |c|
      ensures dd[k] == c[k]
    {
      var j := |c| - 1 - k;
      assert dd[|c| - 1 - j] == InvertGate(d[j]);
      assert d[|c| - 1 - k] == InvertGate(c[k]);
      InvertGateInvolution(c[k]);
    }
    assert dd == c;
  }

  /** The gate added last to V comes first, inverted, in V†. */
  lemma DaggerSnoc(c: seq<Gate>, g: Gate)
    ensures DaggerCircuit(c + [g]) == [InvertGate(g)] + DaggerCircuit(c)
  {
    DaggerShape(c + [g]);
    DaggerShape(c);
    var l, r := DaggerCircuit(c + [g]), [InvertGate(g)] + DaggerCircuit(c);
    assert l[0] == InvertGate((c + [g])[|c|]);
    forall k | 1 <= k <= |c|
      ensures l[k] == r[k]
    {
      assert l[k] == InvertGate((c + [g])[|c| - k]);
      assert r[k] == DaggerCircuit(c)[|c| - 1 - (|c| - k)];
    }
  }

  /** Inverting a gate changes neither whether it builds nor whether it is
      a CNOT with control equal to target. */
  lemma InvertGateKeepsChecks(g: Gate, n: nat)
    ensures GateCheck(InvertGate(g), n) == GateCheck(g, n)
    ensures Degenerate(InvertGate(g), n) == Degenerate(g, n)
  {
  }

  /** V† builds without error exactly when V does, and has a CNOT with
      control equal to target inside the register exactly when V has. */
  lemma DaggerKeepsChecks(c: seq<Gate>, n: nat)
    ensures Buildable(DaggerCircuit(c), n) <==> Buildable(c, n)
    ensures NonDegenerate(DaggerCircuit(c), n) <==> NonDegenerate(c, n)
  {
    DaggerShape(c);
    var d := DaggerCircuit(c);
    forall k | 0 <= k < |c|
      ensures GateCheck(d[|c| - 1 - k], n) == GateCheck(c[k], n)
      ensures Degenerate(d[|c| - 1 - k], n) == Degenerate(c[k], n)
    {
      InvertGateKeepsChecks(c[k], n);
    }
    assert forall k :: 0 <= k < |c| ==> d[k] == d[|c| - 1 - (|c| - 1 - k)];
  }

  /** The inverted gate undoes the gate on any column of the 2^n x 2^n
      matrix: a CNOT with distinct control and target is its own inverse,
      CNOT(q, q) with q outside the register leaves every column in place,
      and RZ(-a) cancels RZ(a)'s phase exactly. */
  lemma StepInverse(g: Gate, n: nat, e: Entry)
    requires !Degenerate(g, n) && e.row < Pow2(n)
    ensures Step(InvertGate(g), Step(g, e)) == e
  {
    match g
    case CNOT(c, t) =>
      if c != t {
        CnotSelfInverse(c, t, e.row);
      } else if c >= 0 {
        BitAboveWidth(e.row, c, n);
      }
    case RZ(a, q) =>
    case Other(_, _, _) =>
  }

  /** Running V and then V† brings every column back where it started,
      with its phase back to what it was. */
  lemma {:induction false} RunDagger(c: seq<Gate>, n: nat, e: Entry)
    requires Buildable(c, n) && NonDegenerate(c, n) && e.row < Pow2(n)
    ensures Run(DaggerCircuit(c), Run(c, e)) == e
  {
    if c != [] {
      var p, g := c[..|c| - 1], c[|c| - 1];
      assert c == p + [g];
      assert forall k :: 0 <= k < |p| ==> p[k] == c[k];
      RunSnoc(p, g, e);
      DaggerSnoc(p, g);
      RunAppend([InvertGate(g)], DaggerCircuit(p), Step(g, Run(p, e)));
      RunInRange(p, n, e);
      StepInverse(g, n, Run(p, e));
      RunDagger(p, n, e);
    }
  }

  /** A circuit followed by its V† evaluates to the identity. */
  lemma {:induction false} CircuitThenDagger(c: seq<Gate>, n: nat)
    requires Buildable(c, n) && NonDegenerate(c, n)
    ensures Eval(c + DaggerCircuit(c), n) == Success(Identity(Pow2(n)))
  {
    var d := DaggerCircuit(c);
    DaggerKeepsChecks(c, n);
    assert Buildable(c + d, n) by {
      assert forall k :: 0 <= k < |c| ==> (c + d)[k] == c[k];
      assert forall k :: 0 <= k < |d| ==> (c + d)[|c| + k] == d[k];
    }
    EvalSucceedsIff(c + d, n);
    var m := Eval(c + d, n).value;
    forall i | 0 <= i < Pow2(n)
      ensures m[i] == Identity(Pow2(n))[i]
    {
      EvalColumn(c + d, n, i);
      RunAppend(c, d, Entry(i, 0.0));
      RunDagger(c, n, Entry(i, 0.0));
    }
    assert m == Identity(Pow2(n));
  }

  /** The law the reconstruction rests on: whenever V evaluates and has no
      CNOT with control equal to target, V† evaluates too, and its matrix
      is the two-sided inverse of V's and its conjugate transpose; V's
      matrix is therefore unitary. */
  lemma {:induction false} DaggerIsInverse(c: seq<Gate>, n: nat)
    requires Eval(c, n).Success? && NonDegenerate(c, n)
    ensures Eval(DaggerCircuit(c), n).Success?
    ensures InverseOf(Eval(DaggerCircuit(c), n).value, Eval(c, n).value, Pow2(n))
    ensures Adjoint(Eval(DaggerCircuit(c), n).value, Eval(c, n).value, Pow2(n))
    ensures Unitary(Eval(c, n).value, Pow2(n))
  {
    var d := DaggerCircuit(c);
    EvalSucceedsIff(c, n);
    DaggerKeepsChecks(c, n);
    EvalSucceedsIff(d, n);
    CircuitThenDagger(c, n);
    EvalAppend(c, d, n);
    DaggerInvolution(c);
    CircuitThenDagger(d, n);
    EvalAppend(d, c, n);
    InverseIsAdjoint(Eval(d, n).value, Eval(c, n).value, Pow2(n));
  }

  /** The reconstruction `V @ D @ V†` of lines 117-120 is itself the
      evaluation of one circuit, V† then D then V, and it is unitary
      whenever neither V nor D has a CNOT with control equal to target. */
  lemma {:induction false} Reconstruction(v: seq<Gate>, d: seq<Gate>, n: nat)
    requires Eval(v, n).Success? && Eval(d, n).Success?
    requires NonDegenerate(v, n)
    ensures Eval(DaggerCircuit(v), n).Success?
    ensures Eval(DaggerCircuit(v) + d + v, n) == Success(
      Compose(Compose(Eval(v, n).value, Eval(d, n).value), Eval(DaggerCircuit(v), n).value))
    ensures NonDegenerate(d, n) ==> Unitary(Eval(DaggerCircuit(v) + d + v, n).value, Pow2(n))
  {
    var vd := DaggerCircuit(v);
    var dim := Pow2(n);
    DaggerIsInverse(v, n);
    EvalSucceedsIff(v, n);
    EvalSucceedsIff(d, n);
    EvalSucceedsIff(vd, n);
    var whole := vd + d + v;
    assert Buildable(whole, n) by {
      forall k | 0 <= k < |whole|
        ensures GateCheck(whole[k], n).None?
      {
        if k < |vd| {
          assert whole[k] == vd[k];
        } else if k < |vd| + |d| {
          assert whole[k] == d[k - |vd|];
        } else {
          assert whole[k] == v[k - |vd| - |d|];
        }
      }
    }
    EvalSucceedsIff(whole, n);
    EvalSucceedsIff(vd + d, n);
    EvalAppend(vd + d, v, n);
    EvalAppend(vd, d, n);
    var mv, md, mvd := Eval(v, n).value, Eval(d, n).value, Eval(vd, n).value;
    ComposeAssociative(mv, md, mvd, dim);
    if NonDegenerate(d, n) {
      DaggerKeepsChecks(v, n);
      assert NonDegenerate(whole, n) by {
        forall k | 0 <= k < |whole|
          ensures !Degenerate(whole[k], n)
        {
          if k < |vd| {
            assert whole[k] == vd[k];
          } else if k < |vd| + |d| {
            assert whole[k] == d[k - |vd|];
          } else {
            assert whole[k] == v[k - |vd| - |d|];
          }
        }
      }
      DaggerIsInverse(whole, n);
    }
  }
}
