/**
 * The super-operator algebra proper: the order in which the factors of a
 * product of super-operators are sorted, the zero short-cut of that product's
 * constructor, the adjoint, space and derivative of the elementary
 * super-operators, and the constructor routines `commutator`,
 * `anti_commutator`, `lindblad` and `liouvillian`, each together with what
 * it means as a map on matrices.
 */
module SuperOperatorAlgebra {
  import opened Wrappers
  import opened Complex
  import opened Expressions
  import opened Semantics
  import opened Laws
  import opened SuperOpRules
  import MatrixAlgebra

  // ---------------------------------------------------------------------
  // Reference definitions on n x n matrices given by their entries
  // ---------------------------------------------------------------------

  /** The matrix product F G. */
  function MatMul(n: nat, F: (int, int) -> C, G: (int, int) -> C): (int, int) -> C
  {
    (x, y) => Sum(n, k => Mul(F(x, k), G(k, y)))
  }

  /** The conjugate transpose of F. */
  function Dagger(F: (int, int) -> C): (int, int) -> C
  {
    (x, y) => Conj(F(y, x))
  }

  const Half := C(0.5, 0.0)
  const MinusImagUnit := C(0.0, -1.0)

  /** The Lindblad dissipator D[L] X = L X L^dagger - 1/2 (L^dagger L X + X L^dagger L). */
  function Dissipator(n: nat, L: (int, int) -> C, X: (int, int) -> C): (int, int) -> C
  {
    var LdL := MatMul(n, Dagger(L), L);
    (x, y) => Sub(MatMul(n, L, MatMul(n, X, Dagger(L)))(x, y),
                  Mul(Half, Add(MatMul(n, LdL, X)(x, y), MatMul(n, X, LdL)(x, y))))
  }

  // ---------------------------------------------------------------------
  // Entries of sums and differences of two super-operators
  // ---------------------------------------------------------------------

  lemma {:induction false} SopPlusPair(s: SuperOp, t: SuperOp, I: Interp, X: (int, int) -> C, i: int, j: int)
    ensures SopEntry(SuperOperatorPlus([s, t]), I, X, i, j) == Add(SopEntry(s, I, X, i, j), SopEntry(t, I, X, i, j))
  {
    assert [s, t][1..] == [t];
    assert [t][1..] == [];
    assert SopPlusEntry([t], I, X, i, j) == Add(SopEntry(t, I, X, i, j), SopPlusEntry([], I, X, i, j));
    AddZero(SopEntry(t, I, X, i, j));
  }

  /** `s - t`, as the algebra builds it: s + (-1) t. */
  function SopMinus(s: SuperOp, t: SuperOp): SuperOp
  {
    SuperOperatorPlus([s, ScalarTimesSuperOperator(MinusOneScalar, t)])
  }

  /** `a - b` for operators: a + (-1) b. */
  function OpMinus(a: Op, b: Op): Op
  {
    OperatorPlus([a, ScalarTimesOperator(MinusOneScalar, b)])
  }

  lemma {:induction false} SopMinusEntry(s: SuperOp, t: SuperOp, I: Interp, X: (int, int) -> C, i: int, j: int)
    ensures SopEntry(SopMinus(s, t), I, X, i, j) == Sub(SopEntry(s, I, X, i, j), SopEntry(t, I, X, i, j))
  {
    SopPlusPair(s, ScalarTimesSuperOperator(MinusOneScalar, t), I, X, i, j);
    AddMinusOne(SopEntry(s, I, X, i, j), SopEntry(t, I, X, i, j));
  }

  lemma {:induction false} OpMinusEntry(a: Op, b: Op, I: Interp, i: int, j: int)
    ensures OpEntry(OpMinus(a, b), I, i, j) == Sub(OpEntry(a, I, i, j), OpEntry(b, I, i, j))
  {
    PlusPair(a, ScalarTimesOperator(MinusOneScalar, b), I, i, j);
    AddMinusOne(OpEntry(a, I, i, j), OpEntry(b, I, i, j));
  }

  // ---------------------------------------------------------------------
  // SuperCommutativeHSOrder: the sort order of the factors of a product
  // ---------------------------------------------------------------------

  /**
   * `x < y` in SuperCommutativeHSOrder: an SPre sorts before an SPost, an
   * SPost never before an SPre, and every other pair is compared by the
   * inherited DisjunctCommutativeHSOrder, which is the parameter `inherited`.
   */
  function SuperLt(x: SuperOp, y: SuperOp, inherited: (SuperOp, SuperOp) -> bool): bool
  {
    if x.SPre? && y.SPost? then true
    else if x.SPost? && y.SPre? then false
    else inherited(x, y)
  }

  /** The order stays strict: irreflexive and asymmetric whenever the inherited order is. */
  lemma {:induction false} SuperLtStrict(x: SuperOp, y: SuperOp, inherited: (SuperOp, SuperOp) -> bool)
    requires !inherited(x, x)
    requires inherited(x, y) ==> !inherited(y, x)
    ensures !SuperLt(x, x, inherited)
    ensures SuperLt(x, y, inherited) ==> !SuperLt(y, x, inherited)
    ensures x.SPre? && y.SPost? ==> SuperLt(x, y, inherited) && !SuperLt(y, x, inherited)
  {
  }

  /**
   * Moving an SPre in front of an SPost does not change the product, which is
   * why the order may sort them that way: (B A) X = B (X A) = (B X) A.
   */
  lemma {:induction false} PreCommutesWithPost(a: Op, b: Op, I: Interp, X: (int, int) -> C, i: int, j: int)
    requires InRange(I, i) && InRange(I, j)
    ensures SopEntry(SuperOperatorTimes([SPost(a), SPre(b)]), I, X, i, j)
         == SopEntry(SuperOperatorTimes([SPre(b), SPost(a)]), I, X, i, j)
  {
    SopTimesPair(SPost(a), SPre(b), I, X, i, j);
    SopTimesPair(SPre(b), SPost(a), I, X, i, j);
    PostAfterPre(a, b, I, X, i, j);
    PreAfterPost(a, b, I, X, i, j);
    MatMulAssoc(I.dim, MatrixOf(b, I), X, MatrixOf(a, I), i, j);
  }

  /** Entry (i, j) of (B X) A as a sum of row sums. */
  lemma {:induction false} PostAfterPre(a: Op, b: Op, I: Interp, X: (int, int) -> C, i: int, j: int)
    ensures SopEntry(SPost(a), I, (x, y) => SopEntry(SPre(b), I, X, x, y), i, j)
         == Sum(I.dim, l => Mul(Sum(I.dim, k => Mul(MatrixOf(b, I)(i, k), X(k, l))), MatrixOf(a, I)(l, j)))
  {
    var A := MatrixOf(a, I);
    var B := MatrixOf(b, I);
    var n := I.dim;
    var BX := (x, y) => SopEntry(SPre(b), I, X, x, y);
    assert SopEntry(SPost(a), I, BX, i, j) == Sum(n, l => Mul(BX(i, l), OpEntry(a, I, l, j)));
    forall l | 0 <= l < n ensures BX(i, l) == Sum(n, k => Mul(B(i, k), X(k, l))) {
      assert BX(i, l) == Sum(n, k => Mul(OpEntry(b, I, i, k), X(k, l)));
      SumExt(n, k => Mul(OpEntry(b, I, i, k), X(k, l)), k => Mul(B(i, k), X(k, l)));
    }
    SumExt(n, l => Mul(BX(i, l), OpEntry(a, I, l, j)), l => Mul(Sum(n, k => Mul(B(i, k), X(k, l))), A(l, j)));
  }

  /** Entry (i, j) of B (X A) as a sum of column sums. */
  lemma {:induction false} PreAfterPost(a: Op, b: Op, I: Interp, X: (int, int) -> C, i: int, j: int)
    ensures SopEntry(SPre(b), I, (x, y) => SopEntry(SPost(a), I, X, x, y), i, j)
         == Sum(I.dim, k => Mul(MatrixOf(b, I)(i, k), Sum(I.dim, l => Mul(X(k, l), MatrixOf(a, I)(l, j)))))
  {
    var A := MatrixOf(a, I);
    var B := MatrixOf(b, I);
    var n := I.dim;
    var XA := (x, y) => SopEntry(SPost(a), I, X, x, y);
    assert SopEntry(SPre(b), I, XA, i, j) == Sum(n, k => Mul(OpEntry(b, I, i, k), XA(k, j)));
    forall k | 0 <= k < n ensures XA(k, j) == Sum(n, l => Mul(X(k, l), A(l, j))) {
      assert XA(k, j) == Sum(n, l => Mul(X(k, l), OpEntry(a, I, l, j)));
      SumExt(n, l => Mul(X(k, l), OpEntry(a, I, l, j)), l => Mul(X(k, l), A(l, j)));
    }
    SumExt(n, k => Mul(OpEntry(b, I, i, k), XA(k, j)), k => Mul(B(i, k), Sum(n, l => Mul(X(k, l), A(l, j)))));
  }

  /** In a sequence of factors sorted by this order, no SPost directly precedes an SPre. */
  lemma {:induction false} SortedPreBeforePost(ts: seq<SuperOp>, inherited: (SuperOp, SuperOp) -> bool)
    requires forall k :: 0 <= k < |ts| - 1 ==> !SuperLt(ts[k + 1], ts[k], inherited)
    ensures forall k :: 0 <= k < |ts| - 1 ==> !(ts[k].SPost? && ts[k + 1].SPre?)
  {
    forall k | 0 <= k < |ts| - 1 ensures !(ts[k].SPost? && ts[k + 1].SPre?) {
      assert !SuperLt(ts[k + 1], ts[k], inherited);
    }
  }

  // ---------------------------------------------------------------------
  // SuperOperatorTimes.create: a zero factor makes the whole product zero
  // ---------------------------------------------------------------------

  /**
   * The constructor of a product: the zero super-operator when any factor is
   * zero, otherwise the generic product constructor, the parameter `rest`.
   */
  function CreateSuperTimes(ops: seq<SuperOp>, rest: seq<SuperOp> -> SuperOp): SuperOp
  {
    if ZeroSuperOperator in ops then ZeroSuperOperator
    else rest(ops)
  }

  /** A super-operator maps the zero matrix to the zero matrix. */
  lemma {:induction false} ZeroMatrixImage(s: SuperOp, I: Interp, X: (int, int) -> C, i: int, j: int)
    requires forall x, y :: InRange(I, x) && InRange(I, y) ==> X(x, y) == Zero
    requires InRange(I, i) && InRange(I, j)
    ensures SopEntry(s, I, X, i, j) == Zero
  {
    forall x, y | InRange(I, x) && InRange(I, y) ensures X(x, y) == Scaled(Zero, X)(x, y) {
      MulZero(X(x, y));
    }
    SopExt(s, I, X, Scaled(Zero, X), i, j);
    SopScale(s, I, Zero, X, i, j);
    MulZero(SopEntry(s, I, X, i, j));
  }

  /** A product with a zero factor anywhere maps every matrix to zero. */
  lemma {:induction false} ZeroFactorProduct(ts: seq<SuperOp>, k: int, I: Interp, X: (int, int) -> C, i: int, j: int)
    requires 0 <= k < |ts| && ts[k] == ZeroSuperOperator
    requires InRange(I, i) && InRange(I, j)
    ensures SopTimesEntry(ts, I, X, i, j) == Zero
    decreases k
  {
    if k > 0 {
      var Y := (x, y) => SopTimesEntry(ts[1..], I, X, x, y);
      forall x, y | InRange(I, x) && InRange(I, y) ensures Y(x, y) == Zero {
        ZeroFactorProduct(ts[1..], k - 1, I, X, x, y);
      }
      ZeroMatrixImage(ts[0], I, Y, i, j);
    }
  }

  /**
   * The zero short-cut is sound: whatever `create` returns means the product
   * of its factors, provided the generic constructor does.
   */
  lemma {:induction false} CreateSuperTimesSound(ops: seq<SuperOp>, rest: seq<SuperOp> -> SuperOp, I: Interp)
    requires ZeroSuperOperator !in ops ==> SopEquiv(rest(ops), SuperOperatorTimes(ops), I)
    ensures ZeroSuperOperator in ops ==> CreateSuperTimes(ops, rest) == ZeroSuperOperator
    ensures SopEquiv(CreateSuperTimes(ops, rest), SuperOperatorTimes(ops), I)
  {
    if ZeroSuperOperator in ops {
      var k :| 0 <= k < |ops| && ops[k] == ZeroSuperOperator;
      forall X: (int, int) -> C, i, j | InRange(I, i) && InRange(I, j)
        ensures SopEntry(ZeroSuperOperator, I, X, i, j) == SopEntry(SuperOperatorTimes(ops), I, X, i, j)
      {
        ZeroFactorProduct(ops, k, I, X, i, j);
      }
    }
  }

  // ---------------------------------------------------------------------
  // The elementary super-operators: adjoint, space and derivative
  // ---------------------------------------------------------------------

  /**
   * The `_adjoint` method, for the super-operators that define one: the
   * identity and zero super-operators are their own adjoints, and SPre and
   * SPost are each other's.
   */
  function AdjointOf(s: SuperOp): Option<SuperOp>
  {
    match s
    case IdentitySuperOperator => Some(s)
    case ZeroSuperOperator => Some(s)
    case SPre(a) => Some(SPost(a))
    case SPost(a) => Some(SPre(a))
    case _ => None
  }

  /** Taking the adjoint twice gives back the super-operator. */
  lemma {:induction false} AdjointOfInvolution(s: SuperOp)
    ensures AdjointOf(s).Some? <==> s.IdentitySuperOperator? || s.ZeroSuperOperator? || s.SPre? || s.SPost?
    ensures AdjointOf(s).Some? ==> AdjointOf(AdjointOf(s).value) == Some(s)
  {
  }

  /** The matrix unit E_ji, as SPre(A) sees it: column j of A, in row i only. */
  lemma {:induction false} PreOfUnit(a: Op, I: Interp, i: int, j: int, b: int, c: int)
    requires InRange(I, j)
    ensures SopEntry(SPre(a), I, Unit(j, i), b, c) == if c == i then OpEntry(a, I, b, j) else Zero
  {
    var f := k => Mul(OpEntry(a, I, b, k), Unit(j, i)(k, c));
    forall k | 0 <= k < I.dim && k != j ensures f(k) == Zero {
      assert Unit(j, i)(k, c) == Zero;
      MulZero(OpEntry(a, I, b, k));
    }
    SumSingle(I.dim, j, f);
    MulOne(OpEntry(a, I, b, j));
    MulZero(OpEntry(a, I, b, j));
  }

  /** The matrix unit E_ji, as SPost(A) sees it: row i of A, in row j only. */
  lemma {:induction false} PostOfUnit(a: Op, I: Interp, i: int, j: int, b: int, c: int)
    requires InRange(I, i)
    ensures SopEntry(SPost(a), I, Unit(j, i), b, c) == if b == j then OpEntry(a, I, i, c) else Zero
  {
    var f := k => Mul(Unit(j, i)(b, k), OpEntry(a, I, k, c));
    forall k | 0 <= k < I.dim && k != i ensures f(k) == Zero {
      assert Unit(j, i)(b, k) == Zero;
      MulZero(OpEntry(a, I, k, c));
    }
    SumSingle(I.dim, i, f);
    MulOne(OpEntry(a, I, i, c));
    MulZero(OpEntry(a, I, i, c));
  }

  /** Row c of the double sum that defines the super-adjoint of SPre(A). */
  lemma {:induction false} SuperAdjointOfPreRow(a: Op, I: Interp, X: (int, int) -> C, i: int, j: int, c: int)
    requires InRange(I, i) && InRange(I, j)
    ensures Sum(I.dim, b => Mul(X(c, b), SopEntry(SPre(a), I, Unit(j, i), b, c)))
         == if c == i then SopEntry(SPost(a), I, X, i, j) else Zero
  {
    var n := I.dim;
    var g := b => Mul(X(c, b), SopEntry(SPre(a), I, Unit(j, i), b, c));
    var h := b => Mul(X(i, b), OpEntry(a, I, b, j));
    forall b | 0 <= b < n ensures g(b) == if c == i then h(b) else Zero {
      PreOfUnit(a, I, i, j, b, c);
      MulZero(X(c, b));
    }
    if c == i {
      SumExt(n, g, h);
    } else {
      SumOfZero(n, g);
    }
  }

  /** The super-adjoint of SPre(A) is SPost(A). */
  lemma {:induction false} SuperAdjointOfPre(a: Op, I: Interp, X: (int, int) -> C, i: int, j: int)
    requires InRange(I, i) && InRange(I, j)
    ensures SopEntry(SuperAdjoint(SPre(a)), I, X, i, j) == SopEntry(SPost(a), I, X, i, j)
  {
    var n := I.dim;
    var row := c => Sum(n, b => Mul(X(c, b), SopEntry(SPre(a), I, Unit(j, i), b, c)));
    assert SopEntry(SuperAdjoint(SPre(a)), I, X, i, j) == Sum(n, row);
    forall c | 0 <= c < n && c != i ensures row(c) == Zero {
      SuperAdjointOfPreRow(a, I, X, i, j, c);
    }
    SumSingle(n, i, row);
    SuperAdjointOfPreRow(a, I, X, i, j, i);
  }

  /** The super-adjoint of SPost(A) is SPre(A). */
  lemma {:induction false} SuperAdjointOfPost(a: Op, I: Interp, X: (int, int) -> C, i: int, j: int)
    requires InRange(I, i) && InRange(I, j)
    ensures SopEntry(SuperAdjoint(SPost(a)), I, X, i, j) == SopEntry(SPre(a), I, X, i, j)
  {
    var n := I.dim;
    var U := Unit(j, i);
    var row := c => Sum(n, b => Mul(X(c, b), SopEntry(SPost(a), I, U, b, c)));
    assert SopEntry(SuperAdjoint(SPost(a)), I, X, i, j) == Sum(n, row);
    forall c | 0 <= c < n ensures row(c) == Mul(OpEntry(a, I, i, c), X(c, j)) {
      var g := b => Mul(X(c, b), SopEntry(SPost(a), I, U, b, c));
      forall b | 0 <= b < n && b != j ensures g(b) == Zero {
        PostOfUnit(a, I, i, j, b, c);
        MulZero(X(c, b));
      }
      SumSingle(n, j, g);
      PostOfUnit(a, I, i, j, j, c);
      MulComm(X(c, j), OpEntry(a, I, i, c));
    }
    SumExt(n, row, k => Mul(OpEntry(a, I, i, k), X(k, j)));
  }

  /** The identity super-operator is its own super-adjoint. */
  lemma {:induction false} SuperAdjointOfIdentity(I: Interp, X: (int, int) -> C, i: int, j: int)
    requires InRange(I, i) && InRange(I, j)
    ensures SopEntry(SuperAdjoint(IdentitySuperOperator), I, X, i, j) == X(i, j)
  {
    var n := I.dim;
    var U := Unit(j, i);
    var row := c => Sum(n, b => Mul(X(c, b), SopEntry(IdentitySuperOperator, I, U, b, c)));
    forall c | 0 <= c < n ensures row(c) == if c == i then X(i, j) else Zero {
      var g := b => Mul(X(c, b), SopEntry(IdentitySuperOperator, I, U, b, c));
      forall b | 0 <= b < n && b != j ensures g(b) == Zero {
        MulZero(X(c, b));
      }
      SumSingle(n, j, g);
      MulOne(X(c, j));
      MulZero(X(c, j));
    }
    SumSingle(n, i, row);
  }

  /** The zero super-operator is its own super-adjoint. */
  lemma {:induction false} SuperAdjointOfZero(I: Interp, X: (int, int) -> C, i: int, j: int)
    ensures SopEntry(SuperAdjoint(ZeroSuperOperator), I, X, i, j) == Zero
  {
    var n := I.dim;
    var U := Unit(j, i);
    var row := c => Sum(n, b => Mul(X(c, b), SopEntry(ZeroSuperOperator, I, U, b, c)));
    forall c | 0 <= c < n ensures row(c) == Zero {
      forall b | 0 <= b < n ensures Mul(X(c, b), SopEntry(ZeroSuperOperator, I, U, b, c)) == Zero {
        MulZero(X(c, b));
      }
      SumOfZero(n, b => Mul(X(c, b), SopEntry(ZeroSuperOperator, I, U, b, c)));
    }
    SumOfZero(n, row);
  }

  /**
   * Every `_adjoint` is the super-adjoint: Tr[M (s N)] = Tr[(s* M) N] with s*
   * the returned super-operator.
   */
  lemma {:induction false} AdjointOfSound(s: SuperOp, I: Interp)
    requires AdjointOf(s).Some?
    ensures SopEquiv(AdjointOf(s).value, SuperAdjoint(s), I)
  {
    forall X: (int, int) -> C, i, j | InRange(I, i) && InRange(I, j)
      ensures SopEntry(AdjointOf(s).value, I, X, i, j) == SopEntry(SuperAdjoint(s), I, X, i, j)
    {
      match s
      case IdentitySuperOperator => SuperAdjointOfIdentity(I, X, i, j);
      case ZeroSuperOperator => SuperAdjointOfZero(I, X, i, j);
      case SPre(a) => SuperAdjointOfPre(a, I, X, i, j);
      case SPost(a) => SuperAdjointOfPost(a, I, X, i, j);
    }
  }

  /**
   * The `space` property of the elementary super-operators: the identity and
   * zero super-operators live in the trivial space, SPre(A) and SPost(A) in
   * the space of A (given by `opSpace`), a symbol in its own space.
   */
  function SuperSpace(s: SuperOp, opSpace: Op -> Space): Option<Space>
  {
    match s
    case IdentitySuperOperator => Some(TrivialSpace)
    case ZeroSuperOperator => Some(TrivialSpace)
    case SuperOperatorSymbol(_, hs) => Some(Local(hs))
    case SPre(a) => Some(opSpace(a))
    case SPost(a) => Some(opSpace(a))
    case _ => None
  }

  /** Taking the adjoint keeps the space. */
  lemma {:induction false} AdjointKeepsSpace(s: SuperOp, opSpace: Op -> Space)
    requires AdjointOf(s).Some?
    ensures SuperSpace(AdjointOf(s).value, opSpace) == SuperSpace(s, opSpace)
    ensures SuperSpace(s, opSpace).Some?
  {
  }

  /**
   * The `_diff` method of the identity and zero super-operators: both
   * derivatives are the zero super-operator (SPre and SPost build a
   * derivative node instead, which is not modelled).
   */
  function ConstantDiff(s: SuperOp, sym: string): Option<SuperOp>
  {
    if s.IdentitySuperOperator? || s.ZeroSuperOperator? then Some(ZeroSuperOperator) else None
  }

  /**
   * The derivative is right: the identity and zero super-operators do not
   * depend on the value of any symbol.
   */
  lemma {:induction false} ConstantDiffSound(s: SuperOp, sym: string, I: Interp, v: C, X: (int, int) -> C, i: int, j: int)
    requires ConstantDiff(s, sym).Some?
    ensures ConstantDiff(s, sym) == Some(ZeroSuperOperator)
    ensures SopEntry(s, I, X, i, j) == SopEntry(s, I.(val := x => if x == sym then v else I.val(x)), X, i, j)
  {
  }

  // ---------------------------------------------------------------------
  // Matrix products of entry functions
  // ---------------------------------------------------------------------

  /** Products of matrices that agree on the row and column used agree. */
  lemma {:induction false} MatMulExt(n: nat, F: (int, int) -> C, F': (int, int) -> C, G: (int, int) -> C, G': (int, int) -> C, x: int, y: int)
    requires forall k :: 0 <= k < n ==> F(x, k) == F'(x, k) && G(k, y) == G'(k, y)
    ensures MatMul(n, F, G)(x, y) == MatMul(n, F', G')(x, y)
  {
    SumExt(n, k => Mul(F(x, k), G(k, y)), k => Mul(F'(x, k), G'(k, y)));
  }

  /** SPre(A) maps X to A X. */
  lemma {:induction false} PreApplied(a: Op, I: Interp, X: (int, int) -> C, i: int, j: int)
    ensures SopEntry(SPre(a), I, X, i, j) == MatMul(I.dim, MatrixOf(a, I), X)(i, j)
  {
    assert SopEntry(SPre(a), I, X, i, j) == Sum(I.dim, k => Mul(OpEntry(a, I, i, k), X(k, j)));
    assert MatMul(I.dim, MatrixOf(a, I), X)(i, j) == Sum(I.dim, k => Mul(MatrixOf(a, I)(i, k), X(k, j)));
    forall k | 0 <= k < I.dim ensures MatrixOf(a, I)(i, k) == OpEntry(a, I, i, k) {}
    SumExt(I.dim, k => Mul(OpEntry(a, I, i, k), X(k, j)), k => Mul(MatrixOf(a, I)(i, k), X(k, j)));
  }

  /** SPost(A) maps X to X A. */
  lemma {:induction false} PostApplied(a: Op, I: Interp, X: (int, int) -> C, i: int, j: int)
    ensures SopEntry(SPost(a), I, X, i, j) == MatMul(I.dim, X, MatrixOf(a, I))(i, j)
  {
    assert SopEntry(SPost(a), I, X, i, j) == Sum(I.dim, k => Mul(X(i, k), OpEntry(a, I, k, j)));
    assert MatMul(I.dim, X, MatrixOf(a, I))(i, j) == Sum(I.dim, k => Mul(X(i, k), MatrixOf(a, I)(k, j)));
    forall k | 0 <= k < I.dim ensures MatrixOf(a, I)(k, j) == OpEntry(a, I, k, j) {}
    SumExt(I.dim, k => Mul(X(i, k), OpEntry(a, I, k, j)), k => Mul(X(i, k), MatrixOf(a, I)(k, j)));
  }

  /** The matrix of a product of two operators is the product of their matrices. */
  lemma {:induction false} ProductMatrix(a: Op, b: Op, I: Interp, i: int, j: int)
    requires InRange(I, j)
    ensures OpEntry(OperatorTimes([a, b]), I, i, j) == MatMul(I.dim, MatrixOf(a, I), MatrixOf(b, I))(i, j)
  {
    EntryTimesPair(a, b, I, i, j);
    forall k | 0 <= k < I.dim ensures MatrixOf(a, I)(i, k) == OpEntry(a, I, i, k) && MatrixOf(b, I)(k, j) == OpEntry(b, I, k, j) {}
    SumExt(I.dim, k => Mul(OpEntry(a, I, i, k), OpEntry(b, I, k, j)), k => Mul(MatrixOf(a, I)(i, k), MatrixOf(b, I)(k, j)));
  }

  /** The matrix of the adjoint is the conjugate transpose. */
  lemma {:induction false} AdjointMatrix(a: Op, I: Interp, i: int, j: int)
    ensures MatrixOf(Adjoint(a), I)(i, j) == Dagger(MatrixOf(a, I))(i, j)
  {
    EntryAdjoint(a, I, i, j);
  }

  // ---------------------------------------------------------------------
  // commutator and anti_commutator
  // ---------------------------------------------------------------------

  /** `commutator(A, B)` with B given: A B - B A. */
  function CommutatorWith(a: Op, b: Op): Op
  {
    OpMinus(OperatorTimes([a, b]), OperatorTimes([b, a]))
  }

  /** `commutator(A)`: the super-operator SPre(A) - SPost(A). */
  function CommutatorSuper(a: Op): SuperOp
  {
    SopMinus(SPre(a), SPost(a))
  }

  /** `anti_commutator(A, B)` with B given: A B + B A. */
  function AntiCommutatorWith(a: Op, b: Op): Op
  {
    OperatorPlus([OperatorTimes([a, b]), OperatorTimes([b, a])])
  }

  /** `anti_commutator(A)`: the super-operator SPre(A) + SPost(A). */
  function AntiCommutatorSuper(a: Op): SuperOp
  {
    SuperOperatorPlus([SPre(a), SPost(a)])
  }

  /** The super-operator [A, .] maps every X to A X - X A. */
  lemma {:induction false} CommutatorSuperApplied(a: Op, I: Interp, X: (int, int) -> C, i: int, j: int)
    ensures SopEntry(CommutatorSuper(a), I, X, i, j)
         == Sub(MatMul(I.dim, MatrixOf(a, I), X)(i, j), MatMul(I.dim, X, MatrixOf(a, I))(i, j))
  {
    SopMinusEntry(SPre(a), SPost(a), I, X, i, j);
    PreApplied(a, I, X, i, j);
    PostApplied(a, I, X, i, j);
  }

  /** The super-operator {A, .} maps every X to A X + X A. */
  lemma {:induction false} AntiCommutatorSuperApplied(a: Op, I: Interp, X: (int, int) -> C, i: int, j: int)
    ensures SopEntry(AntiCommutatorSuper(a), I, X, i, j)
         == Add(MatMul(I.dim, MatrixOf(a, I), X)(i, j), MatMul(I.dim, X, MatrixOf(a, I))(i, j))
  {
    SopPlusPair(SPre(a), SPost(a), I, X, i, j);
    PreApplied(a, I, X, i, j);
    PostApplied(a, I, X, i, j);
  }

  /** A B - B A is the commutator: it has the matrix of the Commutator expression. */
  lemma {:induction false} CommutatorWithMeaning(a: Op, b: Op, I: Interp, i: int, j: int)
    requires InRange(I, j)
    ensures OpEntry(CommutatorWith(a, b), I, i, j) == Sub(ProdEntry(a, b, I, i, j), ProdEntry(b, a, I, i, j))
    ensures OpEntry(CommutatorWith(a, b), I, i, j) == OpEntry(Commutator(a, b), I, i, j)
  {
    var f := k => Mul(OpEntry(a, I, i, k), OpEntry(b, I, k, j));
    var g := k => Mul(OpEntry(b, I, i, k), OpEntry(a, I, k, j));
    var h := k => CommutatorTerm(a, b, I, i, j, k);
    OpMinusEntry(OperatorTimes([a, b]), OperatorTimes([b, a]), I, i, j);
    EntryTimesPair(a, b, I, i, j);
    EntryTimesPair(b, a, I, i, j);
    assert ProdEntry(a, b, I, i, j) == Sum(I.dim, f);
    assert ProdEntry(b, a, I, i, j) == Sum(I.dim, g);
    EntryCommutator(a, b, I, i, j);
    SumSub(I.dim, f, g, h);
  }

  /** Applied to B, the super-operator `commutator(A)` gives `commutator(A, B)`. */
  lemma {:induction false} CommutatorApplied(a: Op, b: Op, I: Interp, i: int, j: int)
    requires InRange(I, j)
    ensures SopEntry(CommutatorSuper(a), I, MatrixOf(b, I), i, j) == OpEntry(CommutatorWith(a, b), I, i, j)
  {
    CommutatorSuperApplied(a, I, MatrixOf(b, I), i, j);
    OpMinusEntry(OperatorTimes([a, b]), OperatorTimes([b, a]), I, i, j);
    ProductMatrix(a, b, I, i, j);
    ProductMatrix(b, a, I, i, j);
  }

  /** Applied to B, the super-operator `anti_commutator(A)` gives `anti_commutator(A, B)`. */
  lemma {:induction false} AntiCommutatorApplied(a: Op, b: Op, I: Interp, i: int, j: int)
    requires InRange(I, j)
    ensures SopEntry(AntiCommutatorSuper(a), I, MatrixOf(b, I), i, j) == OpEntry(AntiCommutatorWith(a, b), I, i, j)
  {
    AntiCommutatorSuperApplied(a, I, MatrixOf(b, I), i, j);
    PlusPair(OperatorTimes([a, b]), OperatorTimes([b, a]), I, i, j);
    ProductMatrix(a, b, I, i, j);
    ProductMatrix(b, a, I, i, j);
  }

  // ---------------------------------------------------------------------
  // lindblad
  // ---------------------------------------------------------------------

  /** The argument of `lindblad`: a scalar (per `is_scalar`) or an operator. */
  datatype LindbladOperand = ScalarOperand(u: Scalar) | OperatorOperand(c: Op)

  const HalfScalar := Num(Half)

  /**
   * `lindblad(C)`: zero for a scalar, otherwise
   * SPre(C) SPost(C^dagger) - 1/2 {C^dagger C, .}.
   */
  function Lindblad(l: LindbladOperand): SuperOp
  {
    match l
    case ScalarOperand(_) => ZeroSuperOperator
    case OperatorOperand(c) =>
      SopMinus(SuperOperatorTimes([SPre(c), SPost(Adjoint(c))]),
               ScalarTimesSuperOperator(HalfScalar, AntiCommutatorSuper(OperatorTimes([Adjoint(c), c]))))
  }

  /** The diagonal matrix d 1. */
  function Diag(d: C): (int, int) -> C
  {
    (x, y) => if x == y then d else Zero
  }

  /** The matrix of the operand: a scalar u stands for u times the identity. */
  function OperandMatrix(l: LindbladOperand, I: Interp): (int, int) -> C
  {
    match l
    case ScalarOperand(u) => Diag(Eval(u, I))
    case OperatorOperand(c) => MatrixOf(c, I)
  }

  /** The first term: SPre(C) SPost(C^dagger) maps X to C (X C^dagger). */
  lemma {:induction false} SandwichApplied(c: Op, I: Interp, X: (int, int) -> C, i: int, j: int)
    requires InRange(I, i) && InRange(I, j)
    ensures SopEntry(SuperOperatorTimes([SPre(c), SPost(Adjoint(c))]), I, X, i, j)
         == MatMul(I.dim, MatrixOf(c, I), MatMul(I.dim, X, Dagger(MatrixOf(c, I))))(i, j)
  {
    var n := I.dim;
    var Cm := MatrixOf(c, I);
    var Y := (x, y) => SopEntry(SPost(Adjoint(c)), I, X, x, y);
    SopTimesPair(SPre(c), SPost(Adjoint(c)), I, X, i, j);
    PreApplied(c, I, Y, i, j);
    forall k | 0 <= k < n ensures Y(k, j) == MatMul(n, X, Dagger(Cm))(k, j) {
      PostApplied(Adjoint(c), I, X, k, j);
      forall l | 0 <= l < n ensures MatrixOf(Adjoint(c), I)(l, j) == Dagger(Cm)(l, j) {
        AdjointMatrix(c, I, l, j);
      }
      MatMulExt(n, X, X, MatrixOf(Adjoint(c), I), Dagger(Cm), k, j);
    }
    MatMulExt(n, Cm, Cm, Y, MatMul(n, X, Dagger(Cm)), i, j);
  }

  /** The matrix of C^dagger C. */
  lemma {:induction false} GramMatrix(c: Op, I: Interp, x: int, y: int)
    requires InRange(I, y)
    ensures MatrixOf(OperatorTimes([Adjoint(c), c]), I)(x, y) == MatMul(I.dim, Dagger(MatrixOf(c, I)), MatrixOf(c, I))(x, y)
  {
    var Cm := MatrixOf(c, I);
    ProductMatrix(Adjoint(c), c, I, x, y);
    forall k | 0 <= k < I.dim ensures MatrixOf(Adjoint(c), I)(x, k) == Dagger(Cm)(x, k) {
      AdjointMatrix(c, I, x, k);
    }
    MatMulExt(I.dim, MatrixOf(Adjoint(c), I), Dagger(Cm), Cm, Cm, x, y);
  }

  /** The second term: 1/2 {C^dagger C, .} maps X to 1/2 (C^dagger C X + X C^dagger C). */
  lemma {:induction false} HalfAntiCommutatorApplied(c: Op, I: Interp, X: (int, int) -> C, i: int, j: int)
    requires InRange(I, i) && InRange(I, j)
    ensures SopEntry(ScalarTimesSuperOperator(HalfScalar, AntiCommutatorSuper(OperatorTimes([Adjoint(c), c]))), I, X, i, j)
         == Mul(Half, Add(MatMul(I.dim, MatMul(I.dim, Dagger(MatrixOf(c, I)), MatrixOf(c, I)), X)(i, j),
                          MatMul(I.dim, X, MatMul(I.dim, Dagger(MatrixOf(c, I)), MatrixOf(c, I)))(i, j)))
  {
    var n := I.dim;
    var Cm := MatrixOf(c, I);
    var cdc := OperatorTimes([Adjoint(c), c]);
    var G := MatrixOf(cdc, I);
    var LdL := MatMul(n, Dagger(Cm), Cm);
    AntiCommutatorSuperApplied(cdc, I, X, i, j);
    forall k | 0 <= k < n ensures G(i, k) == LdL(i, k) && G(k, j) == LdL(k, j) {
      GramMatrix(c, I, i, k);
      GramMatrix(c, I, k, j);
    }
    MatMulExt(n, G, LdL, X, X, i, j);
    MatMulExt(n, X, X, G, LdL, i, j);
  }

  /** `lindblad(C)` of an operator C maps X to D[C] X. */
  lemma {:induction false} LindbladOperatorApplied(c: Op, I: Interp, X: (int, int) -> C, i: int, j: int)
    requires InRange(I, i) && InRange(I, j)
    ensures SopEntry(Lindblad(OperatorOperand(c)), I, X, i, j) == Dissipator(I.dim, MatrixOf(c, I), X)(i, j)
  {
    var n := I.dim;
    var Cm := MatrixOf(c, I);
    var LdL := MatMul(n, Dagger(Cm), Cm);
    var P := SuperOperatorTimes([SPre(c), SPost(Adjoint(c))]);
    var Q := ScalarTimesSuperOperator(HalfScalar, AntiCommutatorSuper(OperatorTimes([Adjoint(c), c])));
    var first := MatMul(n, Cm, MatMul(n, X, Dagger(Cm)))(i, j);
    var second := Mul(Half, Add(MatMul(n, LdL, X)(i, j), MatMul(n, X, LdL)(i, j)));
    assert Lindblad(OperatorOperand(c)) == SopMinus(P, Q);
    SopMinusEntry(P, Q, I, X, i, j);
    SandwichApplied(c, I, X, i, j);
    HalfAntiCommutatorApplied(c, I, X, i, j);
    assert Dissipator(n, Cm, X)(i, j) == Sub(first, second);
  }

  /** Products with the diagonal matrix d 1. */
  lemma {:induction false} DiagLeft(n: nat, d: C, G: (int, int) -> C, x: int, y: int)
    requires 0 <= x < n
    ensures MatMul(n, Diag(d), G)(x, y) == Mul(d, G(x, y))
  {
    var f := k => Mul(Diag(d)(x, k), G(k, y));
    forall k | 0 <= k < n && k != x ensures f(k) == Zero {
      MulZero(G(k, y));
    }
    SumSingle(n, x, f);
  }

  lemma {:induction false} DiagRight(n: nat, F: (int, int) -> C, d: C, x: int, y: int)
    requires 0 <= y < n
    ensures MatMul(n, F, Diag(d))(x, y) == Mul(F(x, y), d)
  {
    var f := k => Mul(F(x, k), Diag(d)(k, y));
    forall k | 0 <= k < n && k != y ensures f(k) == Zero {
      MulZero(F(x, k));
    }
    SumSingle(n, y, f);
  }

  /** |d|^2 x - 1/2 (|d|^2 x + x |d|^2) = 0 */
  lemma {:induction false} ScalarDissipatorVanishes(d: C, x: C)
    ensures Sub(Mul(d, Mul(x, Conj(d))), Mul(Half, Add(Mul(Mul(Conj(d), d), x), Mul(x, Mul(Conj(d), d))))) == Zero
  {
  }

  /** The dissipator of a multiple of the identity is zero. */
  lemma {:induction false} DissipatorOfScalar(n: nat, d: C, X: (int, int) -> C, i: int, j: int)
    requires 0 <= i < n && 0 <= j < n
    ensures Dissipator(n, Diag(d), X)(i, j) == Zero
  {
    var L := Diag(d);
    var N := Mul(Conj(d), d);
    var LdL := MatMul(n, Dagger(L), L);
    forall p, q | 0 <= p < n && 0 <= q < n ensures LdL(p, q) == Diag(N)(p, q) {
      DiagRight(n, Dagger(L), d, p, q);
      MulZero(d);
    }
    forall k | 0 <= k < n ensures Dagger(L)(k, j) == Diag(Conj(d))(k, j) {}
    MatMulExt(n, X, X, Dagger(L), Diag(Conj(d)), i, j);
    DiagRight(n, X, Conj(d), i, j);
    DiagLeft(n, d, MatMul(n, X, Dagger(L)), i, j);
    MatMulExt(n, LdL, Diag(N), X, X, i, j);
    DiagLeft(n, N, X, i, j);
    MatMulExt(n, X, X, LdL, Diag(N), i, j);
    DiagRight(n, X, N, i, j);
    ScalarDissipatorVanishes(d, X(i, j));
  }

  /**
   * `lindblad(C)` maps every X to D[C] X, with a scalar C taken as a multiple
   * of the identity: for a scalar the dissipator vanishes, which is why the
   * zero super-operator is the right answer there.
   */
  lemma {:induction false} LindbladSound(l: LindbladOperand, I: Interp, X: (int, int) -> C, i: int, j: int)
    requires InRange(I, i) && InRange(I, j)
    ensures SopEntry(Lindblad(l), I, X, i, j) == Dissipator(I.dim, OperandMatrix(l, I), X)(i, j)
  {
    match l
    case ScalarOperand(u) => DissipatorOfScalar(I.dim, Eval(u, I), X, i, j);
    case OperatorOperand(c) => LindbladOperatorApplied(c, I, X, i, j);
  }

  // ---------------------------------------------------------------------
  // liouvillian
  // ---------------------------------------------------------------------

  function LindbladTerms(ls: seq<LindbladOperand>): (r: seq<SuperOp>)
    ensures |r| == |ls|
  {
    seq(|ls|, k requires 0 <= k < |ls| => Lindblad(ls[k]))
  }

  /** `liouvillian(H, Ls)`: the sum of -i [H, .] and one Lindblad term per element of Ls. */
  function Liouvillian(h: Op, ls: seq<LindbladOperand>): SuperOp
  {
    SuperOperatorPlus([ScalarTimesSuperOperator(Num(MinusImagUnit), CommutatorSuper(h))] + LindbladTerms(ls))
  }

  /** Sum over the Lindblad operands of D[L] X, entry (i, j). */
  function DissipatorSum(ls: seq<LindbladOperand>, I: Interp, X: (int, int) -> C, i: int, j: int): C
  {
    if |ls| == 0 then Zero
    else Add(Dissipator(I.dim, OperandMatrix(ls[0], I), X)(i, j), DissipatorSum(ls[1..], I, X, i, j))
  }

  lemma {:induction false} LindbladTermsSum(ls: seq<LindbladOperand>, I: Interp, X: (int, int) -> C, i: int, j: int)
    requires InRange(I, i) && InRange(I, j)
    ensures SopPlusEntry(LindbladTerms(ls), I, X, i, j) == DissipatorSum(ls, I, X, i, j)
  {
    if |ls| > 0 {
      assert LindbladTerms(ls)[1..] == LindbladTerms(ls[1..]);
      LindbladTermsSum(ls[1..], I, X, i, j);
      LindbladSound(ls[0], I, X, i, j);
    }
  }

  /**
   * The master equation: the Liouvillian maps rho to
   * -i [H, rho] + sum over j of D[L_j] rho.
   */
  lemma {:induction false} LiouvillianSound(h: Op, ls: seq<LindbladOperand>, I: Interp, X: (int, int) -> C, i: int, j: int)
    requires InRange(I, i) && InRange(I, j)
    ensures SopEntry(Liouvillian(h, ls), I, X, i, j)
         == Add(Mul(MinusImagUnit, Sub(MatMul(I.dim, MatrixOf(h, I), X)(i, j), MatMul(I.dim, X, MatrixOf(h, I))(i, j))),
                DissipatorSum(ls, I, X, i, j))
  {
    var first := ScalarTimesSuperOperator(Num(MinusImagUnit), CommutatorSuper(h));
    var ts := [first] + LindbladTerms(ls);
    assert ts[0] == first && ts[1..] == LindbladTerms(ls);
    assert SopEntry(Liouvillian(h, ls), I, X, i, j)
        == Add(SopEntry(first, I, X, i, j), SopPlusEntry(LindbladTerms(ls), I, X, i, j));
    assert SopEntry(first, I, X, i, j) == Mul(MinusImagUnit, SopEntry(CommutatorSuper(h), I, X, i, j));
    CommutatorSuperApplied(h, I, X, i, j);
    LindbladTermsSum(ls, I, X, i, j);
  }

  /** The collapse operators `liouvillian` accepts: none at all, a list, or a Matrix of them. */
  datatype CollapseOperators =
    | NoCollapse
    | CollapseList(ls: seq<LindbladOperand>)
    | CollapseMatrix(m: MatrixAlgebra.Mat<LindbladOperand>)

  /** None is the empty list; a Matrix is read row by row (`ravel`). */
  function CollapseSequence(c: CollapseOperators): seq<LindbladOperand>
  {
    match c
    case NoCollapse => []
    case CollapseList(ls) => ls
    case CollapseMatrix(m) => MatrixAlgebra.Ravel(m)
  }

  /** `liouvillian(H, Ls)` for any of the accepted forms of Ls. */
  function LiouvillianOf(h: Op, c: CollapseOperators): SuperOp
  {
    Liouvillian(h, CollapseSequence(c))
  }

  /**
   * Without collapse operators the Liouvillian is -i [H, .] alone; a Matrix
   * of collapse operators contributes one Lindblad term per entry (every
   * entry, and no more terms than entries); and a column of operators acts
   * exactly as the list it holds.
   */
  lemma {:induction false} LiouvillianOfSound(h: Op, c: CollapseOperators, I: Interp, X: (int, int) -> C, i: int, j: int)
    requires InRange(I, i) && InRange(I, j)
    ensures SopEntry(LiouvillianOf(h, c), I, X, i, j)
         == Add(Mul(MinusImagUnit, Sub(MatMul(I.dim, MatrixOf(h, I), X)(i, j), MatMul(I.dim, X, MatrixOf(h, I))(i, j))),
                DissipatorSum(CollapseSequence(c), I, X, i, j))
    ensures c.NoCollapse? ==> DissipatorSum(CollapseSequence(c), I, X, i, j) == Zero
    ensures c.CollapseMatrix? ==>
      |CollapseSequence(c)| == |c.m.rows| * c.m.ncols
      && (forall r, k :: 0 <= r < |c.m.rows| && 0 <= k < c.m.ncols ==> c.m.rows[r][k] in CollapseSequence(c))
      && forall l :: l in CollapseSequence(c) ==> exists r, k :: 0 <= r < |c.m.rows| && 0 <= k < c.m.ncols && c.m.rows[r][k] == l
  {
    LiouvillianSound(h, CollapseSequence(c), I, X, i, j);
    if c.CollapseMatrix? {
      MatrixAlgebra.FlattenLength(c.m.rows, c.m.ncols);
      forall r, k | 0 <= r < |c.m.rows| && 0 <= k < c.m.ncols ensures c.m.rows[r][k] in CollapseSequence(c) {
        MatrixAlgebra.FlattenMembers(c.m.rows, c.m.rows[r][k]);
      }
      forall l | l in CollapseSequence(c)
        ensures exists r, k :: 0 <= r < |c.m.rows| && 0 <= k < c.m.ncols && c.m.rows[r][k] == l
      {
        MatrixAlgebra.FlattenMembers(c.m.rows, l);
        var r :| 0 <= r < |c.m.rows| && l in c.m.rows[r];
        var k :| 0 <= k < |c.m.rows[r]| && c.m.rows[r][k] == l;
      }
    }
  }

  /** A column Matrix of collapse operators gives the same Liouvillian as the list it holds. */
  lemma {:induction false} LiouvillianOfColumn(h: Op, ls: seq<LindbladOperand>)
    ensures LiouvillianOf(h, CollapseMatrix(MatrixAlgebra.Column(ls))) == LiouvillianOf(h, CollapseList(ls))
  {
    MatrixAlgebra.ColumnRavel(ls);
  }
}
