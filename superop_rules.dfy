/**
 * The algebraic rules for super-operators: the rules of
 * `ScalarTimesSuperOperator`, the binary rules of `SuperOperatorTimes`, the
 * rules of `SPre` and `SPost`, and the rules of `SuperOperatorTimesOperator`.
 * Each table is proved to keep the action of the super-operator (or the
 * matrix of the operator) it rewrites.
 */
module SuperOpRules {
  import opened Wrappers
  import opened Complex
  import opened Expressions
  import opened Semantics
  import opened Laws
  import opened Rules

  // ---------------------------------------------------------------------
  // Products of super-operators
  // ---------------------------------------------------------------------

  /** (sA sB) X = sA (sB X) */
  lemma {:induction false} SopTimesPair(s: SuperOp, t: SuperOp, I: Interp, X: (int, int) -> C, i: int, j: int)
    requires InRange(I, i) && InRange(I, j)
    ensures SopEntry(SuperOperatorTimes([s, t]), I, X, i, j)
         == SopEntry(s, I, (x, y) => SopEntry(t, I, X, x, y), i, j)
  {
    var ts := [s, t];
    var X1 := (x, y) => SopTimesEntry(ts[1..], I, X, x, y);
    var X2 := (x, y) => SopEntry(t, I, X, x, y);
    assert SopEntry(SuperOperatorTimes(ts), I, X, i, j) == SopEntry(s, I, X1, i, j);
    assert ts[1..] == [t];
    forall x, y | InRange(I, x) && InRange(I, y) ensures X1(x, y) == X2(x, y) {
      SopTimesSingle(t, I, X, x, y);
    }
    SopExt(s, I, X1, X2, i, j);
  }

  /** A product with one factor acts as that factor. */
  lemma {:induction false} SopTimesSingle(t: SuperOp, I: Interp, X: (int, int) -> C, x: int, y: int)
    requires InRange(I, x) && InRange(I, y)
    ensures SopTimesEntry([t], I, X, x, y) == SopEntry(t, I, X, x, y)
  {
    var X0 := (x', y') => SopTimesEntry([t][1..], I, X, x', y');
    assert SopTimesEntry([t], I, X, x, y) == SopEntry(t, I, X0, x, y);
    assert [t][1..] == [];
    SopExt(t, I, X0, X, x, y);
  }

  /** (s1 ... sn t) X = (s1 ... sn) (t X) */
  lemma {:induction false} SopTimesSplitLast(front: seq<SuperOp>, t: SuperOp, I: Interp, X: (int, int) -> C, i: int, j: int)
    requires InRange(I, i) && InRange(I, j)
    ensures SopTimesEntry(front + [t], I, X, i, j)
         == SopTimesEntry(front, I, (x, y) => SopEntry(t, I, X, x, y), i, j)
    decreases |front|
  {
    var ts := front + [t];
    var Y := (x, y) => SopEntry(t, I, X, x, y);
    if |front| == 0 {
      assert ts == [t];
      assert ts[1..] == [];
      SopExt(t, I, (x, y) => SopTimesEntry(ts[1..], I, X, x, y), X, i, j);
    } else {
      assert ts[1..] == front[1..] + [t];
      var Z := (x, y) => SopTimesEntry(ts[1..], I, X, x, y);
      var W := (x, y) => SopTimesEntry(front[1..], I, Y, x, y);
      forall x, y | InRange(I, x) && InRange(I, y) ensures Z(x, y) == W(x, y) {
        SopTimesSplitLast(front[1..], t, I, X, x, y);
      }
      SopExt(front[0], I, Z, W, i, j);
    }
  }

  // ---------------------------------------------------------------------
  // ScalarTimesSuperOperator: rules on (u, sA), meaning u * sA
  // ---------------------------------------------------------------------

  /** 1 * sA = sA */
  function SopScalarR001(args: (Scalar, SuperOp)): Option<SuperOp>
  {
    if args.0 == OneScalar then Some(args.1) else None
  }

  /** 0 * sA = ZeroSuperOperator */
  function SopScalarR002(args: (Scalar, SuperOp)): Option<SuperOp>
  {
    if args.0 == ZeroScalar then Some(ZeroSuperOperator) else None
  }

  /** u * ZeroSuperOperator = ZeroSuperOperator */
  function SopScalarR003(args: (Scalar, SuperOp)): Option<SuperOp>
  {
    if args.1 == ZeroSuperOperator then Some(ZeroSuperOperator) else None
  }

  /** u * (v * sA) = (u * v) * sA */
  function SopScalarR004(args: (Scalar, SuperOp)): Option<SuperOp>
  {
    match args.1
    case ScalarTimesSuperOperator(v, s) => Some(ScalarTimesSuperOperator(ScalarTimes([args.0, v]), s))
    case _ => None
  }

  function ScalarTimesSuperOperatorRules(): seq<Rule<(Scalar, SuperOp), SuperOp>>
  {
    [Rule("R001", SopScalarR001), Rule("R002", SopScalarR002),
     Rule("R003", SopScalarR003), Rule("R004", SopScalarR004)]
  }

  lemma {:induction false} SopScalarR004Sound(u: Scalar, s: SuperOp, r: SuperOp, I: Interp, X: (int, int) -> C, i: int, j: int)
    requires SopScalarR004((u, s)) == Some(r)
    ensures SopEntry(r, I, X, i, j) == SopEntry(ScalarTimesSuperOperator(u, s), I, X, i, j)
  {
    var v, t := s.coeff, s.term;
    EvalPair(u, v, I);
    MulAssoc(Eval(u, I), Eval(v, I), SopEntry(t, I, X, i, j));
  }

  /** Every rule of the table gives a super-operator acting as u * sA. */
  lemma {:induction false} ScalarTimesSuperOperatorRulesSound(k: nat, u: Scalar, s: SuperOp, r: SuperOp, I: Interp)
    requires k < |ScalarTimesSuperOperatorRules()| && ScalarTimesSuperOperatorRules()[k].fire((u, s)) == Some(r)
    ensures SopEquiv(r, ScalarTimesSuperOperator(u, s), I)
  {
    forall X: (int, int) -> C, i, j | InRange(I, i) && InRange(I, j)
      ensures SopEntry(r, I, X, i, j) == SopEntry(ScalarTimesSuperOperator(u, s), I, X, i, j)
    {
      match k
      case 0 => MulOne(SopEntry(s, I, X, i, j));
      case 1 => MulZero(SopEntry(s, I, X, i, j));
      case 2 => MulZero(Eval(u, I));
      case 3 => SopScalarR004Sound(u, s, r, I, X, i, j);
    }
  }

  // ---------------------------------------------------------------------
  // SuperOperatorTimes: binary rules on (sA, sB), meaning sA * sB
  // ---------------------------------------------------------------------

  /** (u sA) sB = u (sA sB) */
  function SopTimesR001(args: (SuperOp, SuperOp)): Option<SuperOp>
  {
    match args.0
    case ScalarTimesSuperOperator(u, s) => Some(ScalarTimesSuperOperator(u, SuperOperatorTimes([s, args.1])))
    case _ => None
  }

  /** sA (u sB) = u (sA sB) */
  function SopTimesR002(args: (SuperOp, SuperOp)): Option<SuperOp>
  {
    match args.1
    case ScalarTimesSuperOperator(u, t) => Some(ScalarTimesSuperOperator(u, SuperOperatorTimes([args.0, t])))
    case _ => None
  }

  /** SPre(A) SPre(B) = SPre(A B) */
  function SopTimesR003(args: (SuperOp, SuperOp)): Option<SuperOp>
  {
    match args
    case (SPre(a), SPre(b)) => Some(SPre(OperatorTimes([a, b])))
    case _ => None
  }

  /** SPost(A) SPost(B) = SPost(B A) */
  function SopTimesR004(args: (SuperOp, SuperOp)): Option<SuperOp>
  {
    match args
    case (SPost(a), SPost(b)) => Some(SPost(OperatorTimes([b, a])))
    case _ => None
  }

  function SuperOperatorTimesRules(): seq<Rule<(SuperOp, SuperOp), SuperOp>>
  {
    [Rule("R001", SopTimesR001), Rule("R002", SopTimesR002),
     Rule("R003", SopTimesR003), Rule("R004", SopTimesR004)]
  }

  lemma {:induction false} SopTimesR001Sound(s: SuperOp, t: SuperOp, r: SuperOp, I: Interp, X: (int, int) -> C, i: int, j: int)
    requires SopTimesR001((s, t)) == Some(r) && InRange(I, i) && InRange(I, j)
    ensures SopEntry(r, I, X, i, j) == SopEntry(SuperOperatorTimes([s, t]), I, X, i, j)
  {
    SopTimesPair(s, t, I, X, i, j);
    SopTimesPair(s.term, t, I, X, i, j);
  }

  lemma {:induction false} SopTimesR002Sound(s: SuperOp, t: SuperOp, r: SuperOp, I: Interp, X: (int, int) -> C, i: int, j: int)
    requires SopTimesR002((s, t)) == Some(r) && InRange(I, i) && InRange(I, j)
    ensures SopEntry(r, I, X, i, j) == SopEntry(SuperOperatorTimes([s, t]), I, X, i, j)
  {
    var u, t' := t.coeff, t.term;
    SopTimesPair(s, t, I, X, i, j);
    SopTimesPair(s, t', I, X, i, j);
    var Y := (x, y) => SopEntry(t, I, X, x, y);
    var Y' := (x, y) => SopEntry(t', I, X, x, y);
    SopExt(s, I, Y, Scaled(Eval(u, I), Y'), i, j);
    SopScale(s, I, Eval(u, I), Y', i, j);
  }

  /** Sum_k A[i,k] (Sum_l B[k,l] X[l,j]) = Sum_l (A B)[i,l] X[l,j] */
  lemma {:induction false} SopTimesR003Sound(a: Op, b: Op, I: Interp, X: (int, int) -> C, i: int, j: int)
    requires InRange(I, i) && InRange(I, j)
    ensures SopEntry(SPre(OperatorTimes([a, b])), I, X, i, j) == SopEntry(SuperOperatorTimes([SPre(a), SPre(b)]), I, X, i, j)
  {
    SopTimesPair(SPre(a), SPre(b), I, X, i, j);
    PreAfterPre(a, b, I, X, i, j);
    PreOfPair(a, b, I, X, i, j);
    MatMulAssoc(I.dim, MatrixOf(a, I), MatrixOf(b, I), X, i, j);
  }

  /** Entry (i, j) of A (B X), written with row sums. */
  lemma {:induction false} PreAfterPre(a: Op, b: Op, I: Interp, X: (int, int) -> C, i: int, j: int)
    ensures SopEntry(SPre(a), I, (x, y) => SopEntry(SPre(b), I, X, x, y), i, j)
         == Sum(I.dim, k => Mul(MatrixOf(a, I)(i, k), Sum(I.dim, l => Mul(MatrixOf(b, I)(k, l), X(l, j)))))
  {
    var n := I.dim;
    var F := MatrixOf(a, I);
    var G := MatrixOf(b, I);
    var Y := (x, y) => SopEntry(SPre(b), I, X, x, y);
    assert SopEntry(SPre(a), I, Y, i, j) == Sum(n, k => Mul(OpEntry(a, I, i, k), Y(k, j)));
    forall k | 0 <= k < n
      ensures Mul(F(i, k), Sum(n, l => Mul(G(k, l), X(l, j)))) == Mul(OpEntry(a, I, i, k), Y(k, j))
    {
      assert Y(k, j) == Sum(n, l => Mul(OpEntry(b, I, k, l), X(l, j)));
      SumExt(n, l => Mul(G(k, l), X(l, j)), l => Mul(OpEntry(b, I, k, l), X(l, j)));
    }
    SumExt(n, k => Mul(F(i, k), Sum(n, l => Mul(G(k, l), X(l, j)))), k => Mul(OpEntry(a, I, i, k), Y(k, j)));
  }

  /** Entry (i, j) of (A B) X, written with the entries of A B as sums. */
  lemma {:induction false} PreOfPair(a: Op, b: Op, I: Interp, X: (int, int) -> C, i: int, j: int)
    ensures SopEntry(SPre(OperatorTimes([a, b])), I, X, i, j)
         == Sum(I.dim, l => Mul(Sum(I.dim, k => Mul(MatrixOf(a, I)(i, k), MatrixOf(b, I)(k, l))), X(l, j)))
  {
    var n := I.dim;
    var F := MatrixOf(a, I);
    var G := MatrixOf(b, I);
    assert SopEntry(SPre(OperatorTimes([a, b])), I, X, i, j) == Sum(n, l => Mul(OpEntry(OperatorTimes([a, b]), I, i, l), X(l, j)));
    forall l | 0 <= l < n
      ensures Mul(Sum(n, k => Mul(F(i, k), G(k, l))), X(l, j)) == Mul(OpEntry(OperatorTimes([a, b]), I, i, l), X(l, j))
    {
      EntryTimesPair(a, b, I, i, l);
      SumExt(n, k => Mul(F(i, k), G(k, l)), k => Mul(OpEntry(a, I, i, k), OpEntry(b, I, k, l)));
    }
    SumExt(n, l => Mul(Sum(n, k => Mul(F(i, k), G(k, l))), X(l, j)),
              l => Mul(OpEntry(OperatorTimes([a, b]), I, i, l), X(l, j)));
  }

  /** Sum_k (Sum_l X[i,l] B[l,k]) A[k,j] = Sum_l X[i,l] (B A)[l,j] */
  lemma {:induction false} SopTimesR004Sound(a: Op, b: Op, I: Interp, X: (int, int) -> C, i: int, j: int)
    requires InRange(I, i) && InRange(I, j)
    ensures SopEntry(SPost(OperatorTimes([b, a])), I, X, i, j) == SopEntry(SuperOperatorTimes([SPost(a), SPost(b)]), I, X, i, j)
  {
    SopTimesPair(SPost(a), SPost(b), I, X, i, j);
    PostAfterPost(a, b, I, X, i, j);
    PostOfPair(a, b, I, X, i, j);
    MatMulAssoc(I.dim, X, MatrixOf(b, I), MatrixOf(a, I), i, j);
  }

  /** Entry (i, j) of (X B) A, written with row sums. */
  lemma {:induction false} PostAfterPost(a: Op, b: Op, I: Interp, X: (int, int) -> C, i: int, j: int)
    ensures SopEntry(SPost(a), I, (x, y) => SopEntry(SPost(b), I, X, x, y), i, j)
         == Sum(I.dim, k => Mul(Sum(I.dim, l => Mul(X(i, l), MatrixOf(b, I)(l, k))), MatrixOf(a, I)(k, j)))
  {
    var n := I.dim;
    var G := MatrixOf(b, I);
    var H := MatrixOf(a, I);
    var Y := (x, y) => SopEntry(SPost(b), I, X, x, y);
    assert SopEntry(SPost(a), I, Y, i, j) == Sum(n, k => Mul(Y(i, k), OpEntry(a, I, k, j)));
    forall k | 0 <= k < n
      ensures Mul(Sum(n, l => Mul(X(i, l), G(l, k))), H(k, j)) == Mul(Y(i, k), OpEntry(a, I, k, j))
    {
      assert Y(i, k) == Sum(n, l => Mul(X(i, l), OpEntry(b, I, l, k)));
      SumExt(n, l => Mul(X(i, l), G(l, k)), l => Mul(X(i, l), OpEntry(b, I, l, k)));
    }
    SumExt(n, k => Mul(Sum(n, l => Mul(X(i, l), G(l, k))), H(k, j)), k => Mul(Y(i, k), OpEntry(a, I, k, j)));
  }

  /** Entry (i, j) of X (B A), written with the entries of B A as sums. */
  lemma {:induction false} PostOfPair(a: Op, b: Op, I: Interp, X: (int, int) -> C, i: int, j: int)
    requires InRange(I, j)
    ensures SopEntry(SPost(OperatorTimes([b, a])), I, X, i, j)
         == Sum(I.dim, l => Mul(X(i, l), Sum(I.dim, k => Mul(MatrixOf(b, I)(l, k), MatrixOf(a, I)(k, j)))))
  {
    var n := I.dim;
    var G := MatrixOf(b, I);
    var H := MatrixOf(a, I);
    assert SopEntry(SPost(OperatorTimes([b, a])), I, X, i, j) == Sum(n, l => Mul(X(i, l), OpEntry(OperatorTimes([b, a]), I, l, j)));
    forall l | 0 <= l < n
      ensures Mul(X(i, l), Sum(n, k => Mul(G(l, k), H(k, j)))) == Mul(X(i, l), OpEntry(OperatorTimes([b, a]), I, l, j))
    {
      EntryTimesPair(b, a, I, l, j);
      SumExt(n, k => Mul(G(l, k), H(k, j)), k => Mul(OpEntry(b, I, l, k), OpEntry(a, I, k, j)));
    }
    SumExt(n, l => Mul(X(i, l), Sum(n, k => Mul(G(l, k), H(k, j)))),
              l => Mul(X(i, l), OpEntry(OperatorTimes([b, a]), I, l, j)));
  }

  /** Every binary rule gives a super-operator acting as sA sB. */
  lemma {:induction false} SuperOperatorTimesRulesSound(k: nat, s: SuperOp, t: SuperOp, r: SuperOp, I: Interp)
    requires k < |SuperOperatorTimesRules()| && SuperOperatorTimesRules()[k].fire((s, t)) == Some(r)
    ensures SopEquiv(r, SuperOperatorTimes([s, t]), I)
  {
    forall X: (int, int) -> C, i, j | InRange(I, i) && InRange(I, j)
      ensures SopEntry(r, I, X, i, j) == SopEntry(SuperOperatorTimes([s, t]), I, X, i, j)
    {
      match k
      case 0 => SopTimesR001Sound(s, t, r, I, X, i, j);
      case 1 => SopTimesR002Sound(s, t, r, I, X, i, j);
      case 2 => SopTimesR003Sound(s.op, t.op, I, X, i, j);
      case 3 => SopTimesR004Sound(s.op, t.op, I, X, i, j);
    }
  }

  // ---------------------------------------------------------------------
  // SPre and SPost: rules on A, meaning X -> A X and X -> X A
  // ---------------------------------------------------------------------

  /** SPre(u A) = u SPre(A) */
  function SPreR001(a: Op): Option<SuperOp>
  {
    match a
    case ScalarTimesOperator(u, b) => Some(ScalarTimesSuperOperator(u, SPre(b)))
    case _ => None
  }

  /** SPre(IdentityOperator) = IdentitySuperOperator */
  function SPreR002(a: Op): Option<SuperOp>
  {
    if a == IdentityOperator then Some(IdentitySuperOperator) else None
  }

  /** SPre(ZeroOperator) = ZeroSuperOperator */
  function SPreR003(a: Op): Option<SuperOp>
  {
    if a == ZeroOperator then Some(ZeroSuperOperator) else None
  }

  function SPreRules(): seq<Rule<Op, SuperOp>>
  {
    [Rule("R001", SPreR001), Rule("R002", SPreR002), Rule("R003", SPreR003)]
  }

  /** SPost(u A) = u SPost(A) */
  function SPostR001(a: Op): Option<SuperOp>
  {
    match a
    case ScalarTimesOperator(u, b) => Some(ScalarTimesSuperOperator(u, SPost(b)))
    case _ => None
  }

  function SPostRules(): seq<Rule<Op, SuperOp>>
  {
    [Rule("R001", SPostR001), Rule("R002", SPreR002), Rule("R003", SPreR003)]
  }

  /** I X = X: the sum has the single term k = i. */
  lemma {:induction false} PreIdentity(I: Interp, X: (int, int) -> C, i: int, j: int)
    requires InRange(I, i)
    ensures SopEntry(SPre(IdentityOperator), I, X, i, j) == X(i, j)
  {
    var f := k => Mul(OpEntry(IdentityOperator, I, i, k), X(k, j));
    forall k | 0 <= k < I.dim && k != i ensures f(k) == Zero { MulZero(X(k, j)); }
    SumSingle(I.dim, i, f);
    MulOne(X(i, j));
  }

  /** X I = X */
  lemma {:induction false} PostIdentity(I: Interp, X: (int, int) -> C, i: int, j: int)
    requires InRange(I, j)
    ensures SopEntry(SPost(IdentityOperator), I, X, i, j) == X(i, j)
  {
    var f := k => Mul(X(i, k), OpEntry(IdentityOperator, I, k, j));
    forall k | 0 <= k < I.dim && k != j ensures f(k) == Zero { MulZero(X(i, k)); }
    SumSingle(I.dim, j, f);
    MulOne(X(i, j));
  }

  lemma {:induction false} PreZero(I: Interp, X: (int, int) -> C, i: int, j: int)
    ensures SopEntry(SPre(ZeroOperator), I, X, i, j) == Zero
  {
    var f := k => Mul(OpEntry(ZeroOperator, I, i, k), X(k, j));
    forall k | 0 <= k < I.dim ensures f(k) == Zero { MulZero(X(k, j)); }
    SumOfZero(I.dim, f);
  }

  lemma {:induction false} PostZero(I: Interp, X: (int, int) -> C, i: int, j: int)
    ensures SopEntry(SPost(ZeroOperator), I, X, i, j) == Zero
  {
    var f := k => Mul(X(i, k), OpEntry(ZeroOperator, I, k, j));
    forall k | 0 <= k < I.dim ensures f(k) == Zero { MulZero(X(i, k)); }
    SumOfZero(I.dim, f);
  }

  lemma {:induction false} PreScaled(u: Scalar, b: Op, I: Interp, X: (int, int) -> C, i: int, j: int)
    ensures SopEntry(SPre(ScalarTimesOperator(u, b)), I, X, i, j) == Mul(Eval(u, I), SopEntry(SPre(b), I, X, i, j))
  {
    var c := Eval(u, I);
    var a := ScalarTimesOperator(u, b);
    var f := k => Mul(OpEntry(a, I, i, k), X(k, j));
    var g := k => Mul(OpEntry(b, I, i, k), X(k, j));
    assert SopEntry(SPre(a), I, X, i, j) == Sum(I.dim, f);
    assert SopEntry(SPre(b), I, X, i, j) == Sum(I.dim, g);
    forall k | 0 <= k < I.dim ensures f(k) == Mul(c, g(k)) {
      assert OpEntry(a, I, i, k) == Mul(c, OpEntry(b, I, i, k));
      MulAssoc(c, OpEntry(b, I, i, k), X(k, j));
    }
    SumScaleLeft(I.dim, c, g, f);
  }

  lemma {:induction false} PostScaled(u: Scalar, b: Op, I: Interp, X: (int, int) -> C, i: int, j: int)
    ensures SopEntry(SPost(ScalarTimesOperator(u, b)), I, X, i, j) == Mul(Eval(u, I), SopEntry(SPost(b), I, X, i, j))
  {
    var c := Eval(u, I);
    var a := ScalarTimesOperator(u, b);
    var f := k => Mul(X(i, k), OpEntry(a, I, k, j));
    var g := k => Mul(X(i, k), OpEntry(b, I, k, j));
    assert SopEntry(SPost(a), I, X, i, j) == Sum(I.dim, f);
    assert SopEntry(SPost(b), I, X, i, j) == Sum(I.dim, g);
    forall k | 0 <= k < I.dim ensures f(k) == Mul(c, g(k)) {
      assert OpEntry(a, I, k, j) == Mul(c, OpEntry(b, I, k, j));
      MulAssoc(X(i, k), c, OpEntry(b, I, k, j));
      MulComm(X(i, k), c);
      MulAssoc(c, X(i, k), OpEntry(b, I, k, j));
    }
    SumScaleLeft(I.dim, c, g, f);
  }

  /** Every rule of the table gives a super-operator acting as SPre(A). */
  lemma {:induction false} SPreRulesSound(k: nat, a: Op, r: SuperOp, I: Interp)
    requires k < |SPreRules()| && SPreRules()[k].fire(a) == Some(r)
    ensures SopEquiv(r, SPre(a), I)
  {
    forall X: (int, int) -> C, i, j | InRange(I, i) && InRange(I, j)
      ensures SopEntry(r, I, X, i, j) == SopEntry(SPre(a), I, X, i, j)
    {
      match k
      case 0 => PreScaled(a.coeff, a.term, I, X, i, j);
      case 1 => PreIdentity(I, X, i, j);
      case 2 => PreZero(I, X, i, j);
    }
  }

  /** Every rule of the table gives a super-operator acting as SPost(A). */
  lemma {:induction false} SPostRulesSound(k: nat, a: Op, r: SuperOp, I: Interp)
    requires k < |SPostRules()| && SPostRules()[k].fire(a) == Some(r)
    ensures SopEquiv(r, SPost(a), I)
  {
    forall X: (int, int) -> C, i, j | InRange(I, i) && InRange(I, j)
      ensures SopEntry(r, I, X, i, j) == SopEntry(SPost(a), I, X, i, j)
    {
      match k
      case 0 => PostScaled(a.coeff, a.term, I, X, i, j);
      case 1 => PostIdentity(I, X, i, j);
      case 2 => PostZero(I, X, i, j);
    }
  }

  // ---------------------------------------------------------------------
  // SuperOperatorTimesOperator: rules on (sA, B), meaning sA applied to B
  // ---------------------------------------------------------------------

  /** `[o * B for o in ops]` */
  function AppliedTerms(ops: seq<SuperOp>, b: Op): (r: seq<Op>)
    ensures |r| == |ops| && forall k :: 0 <= k < |ops| ==> r[k] == SuperOperatorTimesOperator(ops[k], b)
  {
    if |ops| == 0 then [] else [SuperOperatorTimesOperator(ops[0], b)] + AppliedTerms(ops[1..], b)
  }

  /** (sA1 + sA2 + ...) B = sA1 B + sA2 B + ... */
  function ApplyR001(args: (SuperOp, Op)): Option<Op>
  {
    match args.0
    case SuperOperatorPlus(ops) => Some(OperatorPlus(AppliedTerms(ops, args.1)))
    case _ => None
  }

  /** IdentitySuperOperator B = B */
  function ApplyR002(args: (SuperOp, Op)): Option<Op>
  {
    if args.0 == IdentitySuperOperator then Some(args.1) else None
  }

  /** ZeroSuperOperator B = ZeroOperator */
  function ApplyR003(args: (SuperOp, Op)): Option<Op>
  {
    if args.0 == ZeroSuperOperator then Some(ZeroOperator) else None
  }

  /** (u sA) B = u (sA B) */
  function ApplyR004(args: (SuperOp, Op)): Option<Op>
  {
    match args.0
    case ScalarTimesSuperOperator(u, s) => Some(ScalarTimesOperator(u, SuperOperatorTimesOperator(s, args.1)))
    case _ => None
  }

  /** sA (u B) = u (sA B) */
  function ApplyR005(args: (SuperOp, Op)): Option<Op>
  {
    match args.1
    case ScalarTimesOperator(u, b) => Some(ScalarTimesOperator(u, SuperOperatorTimesOperator(args.0, b)))
    case _ => None
  }

  /** sA (sB C) = (sA sB) C */
  function ApplyR006(args: (SuperOp, Op)): Option<Op>
  {
    match args.1
    case SuperOperatorTimesOperator(t, c) => Some(SuperOperatorTimesOperator(SuperOperatorTimes([args.0, t]), c))
    case _ => None
  }

  /** SPre(A) B = A B */
  function ApplyR007(args: (SuperOp, Op)): Option<Op>
  {
    match args.0
    case SPre(a) => Some(OperatorTimes([a, args.1]))
    case _ => None
  }

  /** (sA1 ... sAn sB) C = (sA1 ... sAn) (sB C), when sB is an SPre or an SPost and n >= 1 */
  function ApplyR008(args: (SuperOp, Op)): Option<Op>
  {
    match args.0
    case SuperOperatorTimes(ss) =>
      if |ss| >= 2 && (ss[|ss| - 1].SPre? || ss[|ss| - 1].SPost?) then
        Some(SuperOperatorTimesOperator(SuperOperatorTimes(ss[..|ss| - 1]),
                                        SuperOperatorTimesOperator(ss[|ss| - 1], args.1)))
      else None
    case _ => None
  }

  /** SPost(A) B = B A */
  function ApplyR009(args: (SuperOp, Op)): Option<Op>
  {
    match args.0
    case SPost(a) => Some(OperatorTimes([args.1, a]))
    case _ => None
  }

  function SuperOperatorTimesOperatorRules(): seq<Rule<(SuperOp, Op), Op>>
  {
    [Rule("R001", ApplyR001), Rule("R002", ApplyR002), Rule("R003", ApplyR003),
     Rule("R004", ApplyR004), Rule("R005", ApplyR005), Rule("R006", ApplyR006),
     Rule("R007", ApplyR007), Rule("R008", ApplyR008), Rule("R009", ApplyR009)]
  }

  lemma {:induction false} PlusOfApplied(ops: seq<SuperOp>, b: Op, I: Interp, i: int, j: int)
    ensures PlusEntry(AppliedTerms(ops, b), I, i, j) == SopPlusEntry(ops, I, (x, y) => OpEntry(b, I, x, y), i, j)
    decreases ops
  {
    if |ops| > 0 {
      assert AppliedTerms(ops, b)[1..] == AppliedTerms(ops[1..], b);
      PlusOfApplied(ops[1..], b, I, i, j);
    }
  }

  lemma {:induction false} ApplyR005Sound(s: SuperOp, b: Op, r: Op, I: Interp, i: int, j: int)
    requires ApplyR005((s, b)) == Some(r) && InRange(I, i) && InRange(I, j)
    ensures OpEntry(r, I, i, j) == OpEntry(SuperOperatorTimesOperator(s, b), I, i, j)
  {
    var u, b' := b.coeff, b.term;
    var Y := (x, y) => OpEntry(b, I, x, y);
    var Y' := (x, y) => OpEntry(b', I, x, y);
    assert r == ScalarTimesOperator(u, SuperOperatorTimesOperator(s, b'));
    assert OpEntry(r, I, i, j) == Mul(Eval(u, I), SopEntry(s, I, Y', i, j));
    assert OpEntry(SuperOperatorTimesOperator(s, b), I, i, j) == SopEntry(s, I, Y, i, j);
    forall x, y | InRange(I, x) && InRange(I, y) ensures Y(x, y) == Scaled(Eval(u, I), Y')(x, y) {
      EntryScaled(u, b', I, x, y);
    }
    SopExt(s, I, Y, Scaled(Eval(u, I), Y'), i, j);
    SopScale(s, I, Eval(u, I), Y', i, j);
  }

  lemma {:induction false} ApplyR006Sound(s: SuperOp, b: Op, r: Op, I: Interp, i: int, j: int)
    requires ApplyR006((s, b)) == Some(r) && InRange(I, i) && InRange(I, j)
    ensures OpEntry(r, I, i, j) == OpEntry(SuperOperatorTimesOperator(s, b), I, i, j)
  {
    var t, c := b.sop, b.op;
    var Z := (x, y) => OpEntry(c, I, x, y);
    SopTimesPair(s, t, I, Z, i, j);
    SopExt(s, I, (x, y) => SopEntry(t, I, Z, x, y), (x, y) => OpEntry(b, I, x, y), i, j);
  }

  lemma {:induction false} ApplyR007Sound(s: SuperOp, b: Op, r: Op, I: Interp, i: int, j: int)
    requires ApplyR007((s, b)) == Some(r) && InRange(I, j)
    ensures OpEntry(r, I, i, j) == OpEntry(SuperOperatorTimesOperator(s, b), I, i, j)
  {
    var a := s.op;
    var X := (x, y) => OpEntry(b, I, x, y);
    EntryTimesPair(a, b, I, i, j);
    SumExt(I.dim, k => Mul(OpEntry(a, I, i, k), OpEntry(b, I, k, j)), k => Mul(OpEntry(a, I, i, k), X(k, j)));
  }

  /** (s1 ... sn t) C = (s1 ... sn) (t C) */
  lemma {:induction false} ApplySplitLast(front: seq<SuperOp>, t: SuperOp, c: Op, I: Interp, i: int, j: int)
    requires InRange(I, i) && InRange(I, j)
    ensures OpEntry(SuperOperatorTimesOperator(SuperOperatorTimes(front), SuperOperatorTimesOperator(t, c)), I, i, j)
         == OpEntry(SuperOperatorTimesOperator(SuperOperatorTimes(front + [t]), c), I, i, j)
  {
    var Z := (x, y) => OpEntry(c, I, x, y);
    var tc := SuperOperatorTimesOperator(t, c);
    SopTimesSplitLast(front, t, I, Z, i, j);
    SopTimesExt(front, I, (x, y) => SopEntry(t, I, Z, x, y), (x, y) => OpEntry(tc, I, x, y), i, j);
  }

  lemma {:induction false} ApplyR008Sound(s: SuperOp, c: Op, r: Op, I: Interp, i: int, j: int)
    requires ApplyR008((s, c)) == Some(r) && InRange(I, i) && InRange(I, j)
    ensures OpEntry(r, I, i, j) == OpEntry(SuperOperatorTimesOperator(s, c), I, i, j)
  {
    var ss := s.operands;
    assert s == SuperOperatorTimes(ss);
    assert r == SuperOperatorTimesOperator(SuperOperatorTimes(ss[..|ss| - 1]), SuperOperatorTimesOperator(ss[|ss| - 1], c));
    ApplyLastFirst(ss, c, I, i, j);
  }

  lemma {:induction false} ApplyLastFirst(ss: seq<SuperOp>, c: Op, I: Interp, i: int, j: int)
    requires |ss| >= 1 && InRange(I, i) && InRange(I, j)
    ensures OpEntry(SuperOperatorTimesOperator(SuperOperatorTimes(ss[..|ss| - 1]), SuperOperatorTimesOperator(ss[|ss| - 1], c)), I, i, j)
         == OpEntry(SuperOperatorTimesOperator(SuperOperatorTimes(ss), c), I, i, j)
  {
    var front, t := ss[..|ss| - 1], ss[|ss| - 1];
    assert ss == front + [t];
    ApplySplitLast(front, t, c, I, i, j);
  }

  lemma {:induction false} ApplyR009Sound(s: SuperOp, b: Op, r: Op, I: Interp, i: int, j: int)
    requires ApplyR009((s, b)) == Some(r) && InRange(I, j)
    ensures OpEntry(r, I, i, j) == OpEntry(SuperOperatorTimesOperator(s, b), I, i, j)
  {
    var a := s.op;
    var X := (x, y) => OpEntry(b, I, x, y);
    EntryTimesPair(b, a, I, i, j);
    SumExt(I.dim, k => Mul(OpEntry(b, I, i, k), OpEntry(a, I, k, j)), k => Mul(X(i, k), OpEntry(a, I, k, j)));
  }

  /** Every rule of the table gives an operator with the matrix of sA applied to B. */
  lemma {:induction false} ApplyR002Sound(b: Op, I: Interp, i: int, j: int)
    ensures OpEntry(SuperOperatorTimesOperator(IdentitySuperOperator, b), I, i, j) == OpEntry(b, I, i, j)
  {
    var X := (x, y) => OpEntry(b, I, x, y);
    assert SopEntry(IdentitySuperOperator, I, X, i, j) == X(i, j);
  }

  lemma {:induction false} ApplyR003Sound(b: Op, I: Interp, i: int, j: int)
    ensures OpEntry(SuperOperatorTimesOperator(ZeroSuperOperator, b), I, i, j) == OpEntry(ZeroOperator, I, i, j)
  {
    assert SopEntry(ZeroSuperOperator, I, (x, y) => OpEntry(b, I, x, y), i, j) == Zero;
  }

  lemma {:induction false} ApplyR004Sound(u: Scalar, s: SuperOp, b: Op, I: Interp, i: int, j: int)
    ensures OpEntry(ScalarTimesOperator(u, SuperOperatorTimesOperator(s, b)), I, i, j)
         == OpEntry(SuperOperatorTimesOperator(ScalarTimesSuperOperator(u, s), b), I, i, j)
  {
    var X := (x, y) => OpEntry(b, I, x, y);
    assert OpEntry(SuperOperatorTimesOperator(s, b), I, i, j) == SopEntry(s, I, X, i, j);
    assert SopEntry(ScalarTimesSuperOperator(u, s), I, X, i, j) == Mul(Eval(u, I), SopEntry(s, I, X, i, j));
  }

  lemma {:induction false} SuperOperatorTimesOperatorRulesSound(k: nat, s: SuperOp, b: Op, r: Op, I: Interp)
    requires k < |SuperOperatorTimesOperatorRules()| && SuperOperatorTimesOperatorRules()[k].fire((s, b)) == Some(r)
    ensures OpEquiv(r, SuperOperatorTimesOperator(s, b), I)
  {
    forall i, j | InRange(I, i) && InRange(I, j)
      ensures OpEntry(r, I, i, j) == OpEntry(SuperOperatorTimesOperator(s, b), I, i, j)
    {
      ApplyRuleSound(k, s, b, r, I, i, j);
    }
  }

  /** Entry (i, j) of the result of rule k is entry (i, j) of sA B. */
  lemma {:induction false} ApplyRuleSound(k: nat, s: SuperOp, b: Op, r: Op, I: Interp, i: int, j: int)
    requires k < |SuperOperatorTimesOperatorRules()| && SuperOperatorTimesOperatorRules()[k].fire((s, b)) == Some(r)
    requires InRange(I, i) && InRange(I, j)
    ensures OpEntry(r, I, i, j) == OpEntry(SuperOperatorTimesOperator(s, b), I, i, j)
  {
    match k
    case 0 =>
      assert ApplyR001((s, b)) == Some(r);
      assert OpEntry(r, I, i, j) == PlusEntry(AppliedTerms(s.operands, b), I, i, j);
      PlusOfApplied(s.operands, b, I, i, j);
    case 1 =>
      assert ApplyR002((s, b)) == Some(r);
      ApplyR002Sound(b, I, i, j);
    case 2 =>
      assert ApplyR003((s, b)) == Some(r);
      ApplyR003Sound(b, I, i, j);
    case 3 =>
      assert ApplyR004((s, b)) == Some(r);
      ApplyR004Sound(s.coeff, s.term, b, I, i, j);
    case 4 =>
      assert ApplyR005((s, b)) == Some(r);
      ApplyR005Sound(s, b, r, I, i, j);
    case 5 =>
      assert ApplyR006((s, b)) == Some(r);
      ApplyR006Sound(s, b, r, I, i, j);
    case 6 =>
      assert ApplyR007((s, b)) == Some(r);
      ApplyR007Sound(s, b, r, I, i, j);
    case 7 =>
      assert ApplyR008((s, b)) == Some(r);
      ApplyR008Sound(s, b, r, I, i, j);
    case 8 =>
      assert ApplyR009((s, b)) == Some(r);
      ApplyR009Sound(s, b, r, I, i, j);
  }
}
