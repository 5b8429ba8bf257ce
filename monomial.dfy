/** Square matrices with exactly one non-zero entry per column, that entry
    being a pure phase.  Every gate the evaluator knows builds such a matrix,
    and so does every product of them, so a 2^n x 2^n complex matrix of the
    evaluator is kept here column by column: column i holds e^{i*phase} at
    row `row` and zero everywhere else.  Phases are exact real angles
    (radians); two columns whose phases differ by a multiple of 2*pi stand
    for the same matrix column, so equal representations mean equal
    matrices. */
module Monomial {

  /** One column: the row of its single non-zero entry and that entry's
      phase angle. */
  datatype Entry = Entry(row: nat, phase: real)

  /** `m` is a dim x dim matrix: dim columns, each non-zero inside it. */
  predicate Square(m: seq<Entry>, dim: nat)
  {
    |m| == dim && forall i :: 0 <= i < |m| ==> m[i].row < dim
  }

  /** `np.eye(dim)`: column i has 1 = e^{i*0} on the diagonal. */
  function Identity(dim: nat): (m: seq<Entry>)
    ensures Square(m, dim)
    ensures forall i :: 0 <= i < dim ==> m[i].row == i && m[i].phase == 0.0
  {
    seq(dim, i requires 0 <= i < dim => Entry(i, 0.0))
  }

  /** The product `a @ b`.  Column i of `b` is e^{i*phase} times the unit
      vector at its row r, so column i of the product is that phase times
      column r of `a`. */
  function Compose(a: seq<Entry>, b: seq<Entry>): (m: seq<Entry>)
    requires forall i :: 0 <= i < |b| ==> b[i].row < |a|
    ensures |m| == |b|
    ensures forall i :: 0 <= i < |m| ==> Hit(a, m[i].row)
  {
    seq(|b|, i requires 0 <= i < |b| =>
      Entry(a[b[i].row].row, a[b[i].row].phase + b[i].phase))
  }

  /** The index map of `m` is a bijection of [0, dim): together with the
      unit modulus of every entry this makes `m` unitary. */
  predicate Unitary(m: seq<Entry>, dim: nat)
  {
    && Square(m, dim)
    && (forall i, j :: 0 <= i < j < |m| ==> m[i].row != m[j].row)
    && (forall r :: 0 <= r < dim ==> Hit(m, r))
  }

  /** Some column of `m` has its non-zero entry in row r. */
  predicate Hit(m: seq<Entry>, r: nat)
  {
    exists i :: 0 <= i < |m| && m[i].row == r
  }

  /** `b` is the conjugate transpose of `a`: where column i of `a` holds
      e^{i*p} at row r, column r of `b` holds e^{-i*p} at row i. */
  predicate Adjoint(b: seq<Entry>, a: seq<Entry>, dim: nat)
  {
    && Square(a, dim) && Square(b, dim)
    && forall i :: 0 <= i < dim ==> b[a[i].row] == Entry(i, -a[i].phase)
  }

  /** `b` undoes `a` on both sides: `a @ b == b @ a == I`. */
  predicate InverseOf(b: seq<Entry>, a: seq<Entry>, dim: nat)
  {
    && Square(a, dim) && Square(b, dim)
    && Compose(a, b) == Identity(dim) && Compose(b, a) == Identity(dim)
  }

  /** The identity is neutral on both sides of the product. */
  lemma ComposeIdentity(m: seq<Entry>, dim: nat)
    requires Square(m, dim)
    ensures Compose(Identity(dim), m) == m
    ensures Compose(m, Identity(dim)) == m
  {
    assert forall i :: 0 <= i < dim ==> Compose(Identity(dim), m)[i] == m[i];
    assert forall i :: 0 <= i < dim ==> Compose(m, Identity(dim))[i] == m[i];
  }

  /** Matrix products associate. */
  lemma ComposeAssociative(a: seq<Entry>, b: seq<Entry>, c: seq<Entry>, dim: nat)
    requires Square(a, dim) && Square(b, dim) && Square(c, dim)
    ensures Compose(Compose(a, b), c) == Compose(a, Compose(b, c))
  {
    var l, r := Compose(Compose(a, b), c), Compose(a, Compose(b, c));
    forall i | 0 <= i < dim
      ensures l[i] == r[i]
    {
      var k := c[i].row;
      var j := b[k].row;
      assert l[i] == Entry(a[j].row, (a[j].phase + b[k].phase) + c[i].phase);
      assert r[i] == Entry(a[j].row, a[j].phase + (b[k].phase + c[i].phase));
    }
  }

  /** A two-sided inverse is the conjugate transpose, and a matrix that has
      one is unitary: its index map is one-to-one and onto. */
  lemma {:induction false} InverseIsAdjoint(b: seq<Entry>, a: seq<Entry>, dim: nat)
    requires InverseOf(b, a, dim)
    ensures Adjoint(b, a, dim)
    ensures Unitary(a, dim) && Unitary(b, dim)
  {
    var ba, ab := Compose(b, a), Compose(a, b);
    forall i | 0 <= i < dim
      ensures b[a[i].row] == Entry(i, -a[i].phase)
    {
      assert ba[i] == Identity(dim)[i];
    }
    forall i, j | 0 <= i < j < dim
      ensures a[i].row != a[j].row && b[i].row != b[j].row
    {
      assert ba[i] == Identity(dim)[i] && ba[j] == Identity(dim)[j];
      assert ab[i] == Identity(dim)[i] && ab[j] == Identity(dim)[j];
    }
    forall r | 0 <= r < dim
      ensures Hit(a, r) && Hit(b, r)
    {
      assert ab[r] == Identity(dim)[r] && ba[r] == Identity(dim)[r];
      assert 0 <= b[r].row < |a| && a[b[r].row].row == r;
      assert 0 <= a[r].row < |b| && b[a[r].row].row == r;
    }
  }
}
