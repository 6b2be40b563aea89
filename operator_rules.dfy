/**
 * The algebraic rules for operators: the rules of `ScalarTimesOperator`,
 * the binary rules of `OperatorTimes`, and the rules of `OperatorTrace`,
 * `Commutator` and `OperatorIndexedSum` (the harmonic-oscillator, spin and
 * displacement rules are not part of this model). Each table is proved to
 * keep the matrix of the expression it rewrites.
 */
module OperatorRules {
  import opened Wrappers
  import opened Complex
  import opened Expressions
  import opened Semantics
  import opened Laws
  import opened Rules

  /** `[u * op for op in ops]` */
  function ScaledTerms(u: Scalar, ops: seq<Op>): (r: seq<Op>)
    ensures |r| == |ops| && forall k :: 0 <= k < |ops| ==> r[k] == ScalarTimesOperator(u, ops[k])
  {
    if |ops| == 0 then [] else [ScalarTimesOperator(u, ops[0])] + ScaledTerms(u, ops[1..])
  }

  /** `[OperatorTrace.create(o, over_space=h1) for o in ops]` */
  function TracedTerms(over: Space, ops: seq<Op>): (r: seq<Op>)
    ensures |r| == |ops| && forall k :: 0 <= k < |ops| ==> r[k] == OperatorTrace(over, ops[k])
  {
    if |ops| == 0 then [] else [OperatorTrace(over, ops[0])] + TracedTerms(over, ops[1..])
  }

  /** `A - B`, which the algebra writes as `A + (-1) * B`. */
  function Minus(a: Op, b: Op): Op
  {
    OperatorPlus([a, ScalarTimesOperator(MinusOneScalar, b)])
  }

  // ---------------------------------------------------------------------
  // ScalarTimesOperator: rules on (u, A), meaning u * A
  // ---------------------------------------------------------------------

  /** 1 * A = A */
  function StoR001(args: (Scalar, Op)): Option<Op>
  {
    if args.0 == OneScalar then Some(args.1) else None
  }

  /** 0 * A = ZeroOperator */
  function StoR002(args: (Scalar, Op)): Option<Op>
  {
    if args.0 == ZeroScalar then Some(ZeroOperator) else None
  }

  /** u * ZeroOperator = ZeroOperator */
  function StoR003(args: (Scalar, Op)): Option<Op>
  {
    if args.1 == ZeroOperator then Some(ZeroOperator) else None
  }

  /** u * (v * A) = (u * v) * A */
  function StoR004(args: (Scalar, Op)): Option<Op>
  {
    match args.1
    case ScalarTimesOperator(v, a) => Some(ScalarTimesOperator(ScalarTimes([args.0, v]), a))
    case _ => None
  }

  /** -1 * (A1 + A2 + ...) = (-1 * A1) + (-1 * A2) + ... */
  function StoR005(args: (Scalar, Op)): Option<Op>
  {
    match args.1
    case OperatorPlus(ops) =>
      if args.0 == MinusOneScalar then Some(OperatorPlus(ScaledTerms(MinusOneScalar, ops))) else None
    case _ => None
  }

  function ScalarTimesOperatorRules(): seq<Rule<(Scalar, Op), Op>>
  {
    [Rule("R001", StoR001), Rule("R002", StoR002), Rule("R003", StoR003),
     Rule("R004", StoR004), Rule("R005", StoR005)]
  }

  lemma {:induction false} PlusOfScaled(u: Scalar, ops: seq<Op>, I: Interp, i: int, j: int)
    ensures PlusEntry(ScaledTerms(u, ops), I, i, j) == Mul(Eval(u, I), PlusEntry(ops, I, i, j))
    decreases ops
  {
    if |ops| > 0 {
      assert ScaledTerms(u, ops)[1..] == ScaledTerms(u, ops[1..]);
      PlusOfScaled(u, ops[1..], I, i, j);
      MulAddLeft(Eval(u, I), OpEntry(ops[0], I, i, j), PlusEntry(ops[1..], I, i, j));
    }
  }

  lemma {:induction false} StoR004Sound(u: Scalar, a: Op, r: Op, I: Interp, i: int, j: int)
    requires StoR004((u, a)) == Some(r)
    ensures OpEntry(r, I, i, j) == OpEntry(ScalarTimesOperator(u, a), I, i, j)
  {
    var v, b := a.coeff, a.term;
    EvalPair(u, v, I);
    MulAssoc(Eval(u, I), Eval(v, I), OpEntry(b, I, i, j));
  }

  /** Every rule of the table gives an operator with the matrix of u * A. */
  lemma {:induction false} ScalarTimesOperatorRulesSound(k: nat, u: Scalar, a: Op, r: Op, I: Interp)
    requires k < |ScalarTimesOperatorRules()| && ScalarTimesOperatorRules()[k].fire((u, a)) == Some(r)
    ensures OpEquiv(r, ScalarTimesOperator(u, a), I)
  {
    forall i, j | InRange(I, i) && InRange(I, j)
      ensures OpEntry(r, I, i, j) == OpEntry(ScalarTimesOperator(u, a), I, i, j)
    {
      match k
      case 0 =>
      case 1 =>
      case 2 =>
      case 3 => StoR004Sound(u, a, r, I, i, j);
      case 4 => PlusOfScaled(MinusOneScalar, a.operands, I, i, j);
    }
  }

  // ---------------------------------------------------------------------
  // OperatorTimes: binary rules on (A, B), meaning A * B
  // ---------------------------------------------------------------------

  /** (u * A) * B = u * (A * B) */
  function TimesR001(args: (Op, Op)): Option<Op>
  {
    match args.0
    case ScalarTimesOperator(u, a) => Some(ScalarTimesOperator(u, OperatorTimes([a, args.1])))
    case _ => None
  }

  /** ZeroOperator * B = ZeroOperator */
  function TimesR002(args: (Op, Op)): Option<Op>
  {
    if args.0 == ZeroOperator then Some(ZeroOperator) else None
  }

  /** A * ZeroOperator = ZeroOperator */
  function TimesR003(args: (Op, Op)): Option<Op>
  {
    if args.1 == ZeroOperator then Some(ZeroOperator) else None
  }

  /** A * (u * B) = u * (A * B) */
  function TimesR004(args: (Op, Op)): Option<Op>
  {
    match args.1
    case ScalarTimesOperator(u, b) => Some(ScalarTimesOperator(u, OperatorTimes([args.0, b])))
    case _ => None
  }

  /** |ra><rb| * |rc><rd| = delta(rb, rc) |ra><rd| on the same local space */
  function TimesR005(args: (Op, Op)): Option<Op>
  {
    match args
    case (LocalSigma(ra, rb, ls), LocalSigma(rc, rd, ls')) =>
      if ls == ls' then Some(ScalarTimesOperator(Delta(rb, rc), LocalSigma(ra, rd, ls))) else None
    case _ => None
  }

  function OperatorTimesRules(): seq<Rule<(Op, Op), Op>>
  {
    [Rule("R001", TimesR001), Rule("R002", TimesR002), Rule("R003", TimesR003),
     Rule("R004", TimesR004), Rule("R005", TimesR005)]
  }

  /** R005 contracts over the basis state rb, which must be one of the basis. */
  predicate OperatorTimesSide(a: Op, b: Op, I: Interp)
  {
    a.LocalSigma? ==> InRange(I, LabelValue(a.k, I))
  }

  lemma {:induction false} TimesR001Sound(a: Op, b: Op, r: Op, I: Interp, i: int, j: int)
    requires TimesR001((a, b)) == Some(r) && InRange(I, j)
    ensures OpEntry(r, I, i, j) == ProdEntry(a, b, I, i, j)
  {
    var u, a' := a.coeff, a.term;
    TimesPair(a', b, I, i, j);
    ProdScaleLeft(a, a', b, Eval(u, I), I, i, j);
  }

  lemma {:induction false} TimesR004Sound(a: Op, b: Op, r: Op, I: Interp, i: int, j: int)
    requires TimesR004((a, b)) == Some(r) && InRange(I, j)
    ensures OpEntry(r, I, i, j) == ProdEntry(a, b, I, i, j)
  {
    var u, b' := b.coeff, b.term;
    TimesPair(a, b', I, i, j);
    ProdScaleRight(a, b, b', Eval(u, I), I, i, j);
  }

  lemma {:induction false} TimesR005Sound(a: Op, b: Op, r: Op, I: Interp, i: int, j: int)
    requires TimesR005((a, b)) == Some(r) && OperatorTimesSide(a, b, I)
    ensures OpEntry(r, I, i, j) == ProdEntry(a, b, I, i, j)
  {
    var rb := LabelValue(a.k, I);
    var f := k => Mul(OpEntry(a, I, i, k), OpEntry(b, I, k, j));
    forall k | 0 <= k < I.dim && k != rb ensures f(k) == Zero {
      assert OpEntry(a, I, i, k) == Zero;
      MulZero(OpEntry(b, I, k, j));
    }
    SumSingle(I.dim, rb, f);
    var ra, rc, rd := LabelValue(a.j, I), LabelValue(b.j, I), LabelValue(b.k, I);
    assert OpEntry(r, I, i, j) == Mul(if rb == rc then One else Zero, if i == ra && j == rd then One else Zero);
    assert OpEntry(a, I, i, rb) == if i == ra then One else Zero;
    assert OpEntry(b, I, rb, j) == if rb == rc && j == rd then One else Zero;
    MulZero(One);
    MulZero(Zero);
    MulOne(One);
  }

  /** Every binary rule gives an operator with the matrix of A * B. */
  lemma {:induction false} OperatorTimesRulesSound(k: nat, a: Op, b: Op, r: Op, I: Interp)
    requires k < |OperatorTimesRules()| && OperatorTimesRules()[k].fire((a, b)) == Some(r)
    requires OperatorTimesSide(a, b, I)
    ensures OpEquiv(r, OperatorTimes([a, b]), I)
  {
    forall i, j | InRange(I, i) && InRange(I, j)
      ensures OpEntry(r, I, i, j) == OpEntry(OperatorTimes([a, b]), I, i, j)
    {
      TimesPair(a, b, I, i, j);
      match k
      case 0 => TimesR001Sound(a, b, r, I, i, j);
      case 1 => ProdZero(a, b, I, i, j);
      case 2 => ProdZero(a, b, I, i, j);
      case 3 => TimesR004Sound(a, b, r, I, i, j);
      case 4 => TimesR005Sound(a, b, r, I, i, j);
    }
  }

  // ---------------------------------------------------------------------
  // OperatorTrace: rules on (A, over_space), meaning the partial trace
  // ---------------------------------------------------------------------

  /** tr_{TrivialSpace} A = A */
  function TraceR001(args: (Op, Space)): Option<Op>
  {
    if args.1 == TrivialSpace then Some(args.0) else None
  }

  /** tr ZeroOperator = ZeroOperator */
  function TraceR002(args: (Op, Space)): Option<Op>
  {
    if args.0 == ZeroOperator then Some(ZeroOperator) else None
  }

  /** tr_h1 IdentityOperator = dim(h1) * IdentityOperator */
  function TraceR003(args: (Op, Space)): Option<Op>
  {
    match args
    case (IdentityOperator, Local(h1)) => Some(ScalarTimesOperator(Num(FromInt(h1.dim)), IdentityOperator))
    case _ => None
  }

  /** The trace of a sum is the sum of the traces. */
  function TraceR004(args: (Op, Space)): Option<Op>
  {
    match args.0
    case OperatorPlus(ops) => Some(OperatorPlus(TracedTerms(args.1, ops)))
    case _ => None
  }

  /** tr A^dagger = (tr A)^dagger */
  function TraceR005(args: (Op, Space)): Option<Op>
  {
    match args.0
    case Adjoint(a) => Some(Adjoint(OperatorTrace(args.1, a)))
    case _ => None
  }

  /** tr (u * A) = u * tr A */
  function TraceR006(args: (Op, Space)): Option<Op>
  {
    match args.0
    case ScalarTimesOperator(u, a) => Some(ScalarTimesOperator(u, OperatorTrace(args.1, a)))
    case _ => None
  }

  /** The trace of a ladder operator over its own space vanishes. */
  function TraceR008(args: (Op, Space)): Option<Op>
  {
    match args
    case (Create(ls), Local(ls')) => if ls == ls' then Some(ZeroOperator) else None
    case _ => None
  }

  function TraceR009(args: (Op, Space)): Option<Op>
  {
    match args
    case (Destroy(ls), Local(ls')) => if ls == ls' then Some(ZeroOperator) else None
    case _ => None
  }

  /** tr |n><m| = delta(n, m) over the space of the sigma */
  function TraceR010(args: (Op, Space)): Option<Op>
  {
    match args
    case (LocalSigma(n, m, ls), Local(ls')) =>
      if ls == ls' then Some(ScalarTimesOperator(Delta(n, m), IdentityOperator)) else None
    case _ => None
  }

  function OperatorTraceRules(): seq<Rule<(Op, Space), Op>>
  {
    [Rule("R001", TraceR001), Rule("R002", TraceR002), Rule("R003", TraceR003),
     Rule("R004", TraceR004), Rule("R005", TraceR005), Rule("R006", TraceR006),
     Rule("R008", TraceR008), Rule("R009", TraceR009), Rule("R010", TraceR010)]
  }

  /** The space traced over is the local space of the model, and the row label of a traced sigma is a basis state. */
  predicate OperatorTraceSide(a: Op, over: Space, I: Interp)
  {
    (over.Local? ==> over.ls.dim == I.dim)
    && (a.LocalSigma? ==> InRange(I, LabelValue(a.j, I)))
  }

  lemma {:induction false} TraceR003Sound(a: Op, over: Space, r: Op, I: Interp, i: int, j: int)
    requires TraceR003((a, over)) == Some(r) && OperatorTraceSide(a, over, I)
    ensures OpEntry(r, I, i, j) == OpEntry(OperatorTrace(over, a), I, i, j)
  {
    if i == j {
      SumOfOne(I.dim, k => OpEntry(a, I, k, k));
    }
  }

  lemma {:induction false} TraceOfPlus(over: Space, ops: seq<Op>, I: Interp, i: int, j: int)
    ensures PlusEntry(TracedTerms(over, ops), I, i, j) == OpEntry(OperatorTrace(over, OperatorPlus(ops)), I, i, j)
    decreases ops
  {
    if |ops| > 0 {
      assert TracedTerms(over, ops)[1..] == TracedTerms(over, ops[1..]);
      TraceOfPlus(over, ops[1..], I, i, j);
      EntryTrace(over, ops[0], I, i, j);
      EntryTrace(over, OperatorPlus(ops[1..]), I, i, j);
      EntryTrace(over, OperatorPlus(ops), I, i, j);
      EntryPlus(ops, I, i, j);
      EntryPlus(ops[1..], I, i, j);
      if !over.TrivialSpace? && i == j {
        var f := k => OpEntry(ops[0], I, k, k);
        var g := k => OpEntry(OperatorPlus(ops[1..]), I, k, k);
        var h := k => OpEntry(OperatorPlus(ops), I, k, k);
        forall k | 0 <= k < I.dim ensures h(k) == Add(f(k), g(k)) {
          EntryPlus(ops, I, k, k);
          EntryPlus(ops[1..], I, k, k);
        }
        SumAdd(I.dim, f, g, h);
      }
    } else {
      EntryTrace(over, OperatorPlus(ops), I, i, j);
      EntryPlus(ops, I, i, j);
      if !over.TrivialSpace? && i == j {
        forall k | 0 <= k < I.dim ensures OpEntry(OperatorPlus(ops), I, k, k) == Zero {
          EntryPlus(ops, I, k, k);
        }
        SumOfZero(I.dim, k => OpEntry(OperatorPlus(ops), I, k, k));
      }
    }
  }

  lemma {:induction false} TraceR005Sound(a: Op, over: Space, r: Op, I: Interp, i: int, j: int)
    requires TraceR005((a, over)) == Some(r)
    ensures OpEntry(r, I, i, j) == OpEntry(OperatorTrace(over, a), I, i, j)
  {
    var a' := a.op;
    if !over.TrivialSpace? && i == j {
      SumConj(I.dim, k => OpEntry(a', I, k, k), k => OpEntry(a, I, k, k));
    }
  }

  lemma {:induction false} TraceR006Sound(a: Op, over: Space, r: Op, I: Interp, i: int, j: int)
    requires TraceR006((a, over)) == Some(r)
    ensures OpEntry(r, I, i, j) == OpEntry(OperatorTrace(over, a), I, i, j)
  {
    var u, a' := a.coeff, a.term;
    if !over.TrivialSpace? && i == j {
      SumScaleLeft(I.dim, Eval(u, I), k => OpEntry(a', I, k, k), k => OpEntry(a, I, k, k));
    }
  }

  lemma {:induction false} TraceLadderSound(a: Op, over: Space, r: Op, I: Interp, i: int, j: int)
    requires TraceR008((a, over)) == Some(r) || TraceR009((a, over)) == Some(r)
    ensures OpEntry(r, I, i, j) == OpEntry(OperatorTrace(over, a), I, i, j)
  {
    if i == j {
      SumOfZero(I.dim, k => OpEntry(a, I, k, k));
    }
  }

  lemma {:induction false} TraceR010Sound(a: Op, over: Space, r: Op, I: Interp, i: int, j: int)
    requires TraceR010((a, over)) == Some(r) && OperatorTraceSide(a, over, I)
    ensures OpEntry(r, I, i, j) == OpEntry(OperatorTrace(over, a), I, i, j)
  {
    if i == j {
      var n := LabelValue(a.j, I);
      var f := k => OpEntry(a, I, k, k);
      forall k | 0 <= k < I.dim && k != n ensures f(k) == Zero {}
      SumSingle(I.dim, n, f);
    }
  }

  /** Every trace rule gives an operator with the matrix of the trace. */
  lemma {:induction false} OperatorTraceRulesSound(k: nat, a: Op, over: Space, r: Op, I: Interp)
    requires k < |OperatorTraceRules()| && OperatorTraceRules()[k].fire((a, over)) == Some(r)
    requires OperatorTraceSide(a, over, I)
    ensures OpEquiv(r, OperatorTrace(over, a), I)
  {
    forall i, j | InRange(I, i) && InRange(I, j)
      ensures OpEntry(r, I, i, j) == OpEntry(OperatorTrace(over, a), I, i, j)
    {
      match k
      case 0 =>
      case 1 =>
        if i == j {
          SumOfZero(I.dim, k => OpEntry(a, I, k, k));
        }
      case 2 => TraceR003Sound(a, over, r, I, i, j);
      case 3 => TraceOfPlus(over, a.operands, I, i, j);
      case 4 => TraceR005Sound(a, over, r, I, i, j);
      case 5 => TraceR006Sound(a, over, r, I, i, j);
      case 6 => TraceLadderSound(a, over, r, I, i, j);
      case 7 => TraceLadderSound(a, over, r, I, i, j);
      case 8 => TraceR010Sound(a, over, r, I, i, j);
    }
  }

  // ---------------------------------------------------------------------
  // Commutator: rules on (A, B), meaning [A, B] = A B - B A
  // ---------------------------------------------------------------------

  /** [A, A] = ZeroOperator */
  function CommR001(args: (Op, Op)): Option<Op>
  {
    if args.0 == args.1 then Some(ZeroOperator) else None
  }

  /** [u A, v B] = u v [A, B] */
  function CommR002(args: (Op, Op)): Option<Op>
  {
    match args
    case (ScalarTimesOperator(u, a), ScalarTimesOperator(v, b)) =>
      Some(ScalarTimesOperator(ScalarTimes([u, v]), Commutator(a, b)))
    case _ => None
  }

  /** [v A, B] = v [A, B] */
  function CommR003(args: (Op, Op)): Option<Op>
  {
    match args.0
    case ScalarTimesOperator(v, a) => Some(ScalarTimesOperator(v, Commutator(a, args.1)))
    case _ => None
  }

  /** [A, v B] = v [A, B] */
  function CommR004(args: (Op, Op)): Option<Op>
  {
    match args.1
    case ScalarTimesOperator(v, b) => Some(ScalarTimesOperator(v, Commutator(args.0, b)))
    case _ => None
  }

  /** [a^dagger, a] = -1 on the same space (canonical commutation relation) */
  function CommR005(args: (Op, Op)): Option<Op>
  {
    match args
    case (Create(ls), Destroy(ls')) =>
      if ls == ls' then Some(ScalarTimesOperator(MinusOneScalar, IdentityOperator)) else None
    case _ => None
  }

  predicate IsLadderOrSigma(a: Op)
  {
    a.Create? || a.Destroy? || a.LocalSigma?
  }

  /** [A, B] written out as A B - B A for ladder operators and sigmas */
  function CommR006(args: (Op, Op)): Option<Op>
  {
    if IsLadderOrSigma(args.0) && IsLadderOrSigma(args.1) then
      Some(Minus(OperatorTimes([args.0, args.1]), OperatorTimes([args.1, args.0])))
    else None
  }

  /** [A, B] written out as A B - B A for two sigmas */
  function CommR007(args: (Op, Op)): Option<Op>
  {
    if args.0.LocalSigma? && args.1.LocalSigma? then
      Some(Minus(OperatorTimes([args.0, args.1]), OperatorTimes([args.1, args.0])))
    else None
  }

  function CommutatorRules(): seq<Rule<(Op, Op), Op>>
  {
    [Rule("R001", CommR001), Rule("R002", CommR002), Rule("R003", CommR003),
     Rule("R004", CommR004), Rule("R005", CommR005), Rule("R006", CommR006),
     Rule("R007", CommR007)]
  }

  /** Entry (i, j) of [A, B]. */
  function CommEntry(a: Op, b: Op, I: Interp, i: int, j: int): C
  {
    Sum(I.dim, k => Sub(Mul(OpEntry(a, I, i, k), OpEntry(b, I, k, j)), Mul(OpEntry(b, I, i, k), OpEntry(a, I, k, j))))
  }

  /** [A, B] is A B - B A. */
  lemma {:induction false} CommutatorIsDifference(a: Op, b: Op, I: Interp, i: int, j: int)
    ensures OpEntry(Commutator(a, b), I, i, j) == Sub(ProdEntry(a, b, I, i, j), ProdEntry(b, a, I, i, j))
  {
    SumSub(I.dim, k => Mul(OpEntry(a, I, i, k), OpEntry(b, I, k, j)), k => Mul(OpEntry(b, I, i, k), OpEntry(a, I, k, j)),
      k => Sub(Mul(OpEntry(a, I, i, k), OpEntry(b, I, k, j)), Mul(OpEntry(b, I, i, k), OpEntry(a, I, k, j))));
  }

  /** A scalar comes out of the left argument of a commutator. */
  lemma {:induction false} CommScaleLeft(u: C, a: Op, ua: Op, b: Op, I: Interp, i: int, j: int)
    requires forall x, y :: OpEntry(ua, I, x, y) == Mul(u, OpEntry(a, I, x, y))
    ensures OpEntry(Commutator(ua, b), I, i, j) == Mul(u, OpEntry(Commutator(a, b), I, i, j))
  {
    CommutatorIsDifference(a, b, I, i, j);
    CommutatorIsDifference(ua, b, I, i, j);
    ProdScaleLeft(ua, a, b, u, I, i, j);
    ProdScaleRight(b, ua, a, u, I, i, j);
    MulSub(u, ProdEntry(a, b, I, i, j), ProdEntry(b, a, I, i, j));
  }

  /** A scalar comes out of the right argument of a commutator. */
  lemma {:induction false} CommScaleRight(v: C, b: Op, vb: Op, a: Op, I: Interp, i: int, j: int)
    requires forall x, y :: OpEntry(vb, I, x, y) == Mul(v, OpEntry(b, I, x, y))
    ensures OpEntry(Commutator(a, vb), I, i, j) == Mul(v, OpEntry(Commutator(a, b), I, i, j))
  {
    CommutatorIsDifference(a, b, I, i, j);
    CommutatorIsDifference(a, vb, I, i, j);
    ProdScaleRight(a, vb, b, v, I, i, j);
    ProdScaleLeft(vb, b, a, v, I, i, j);
    MulSub(v, ProdEntry(a, b, I, i, j), ProdEntry(b, a, I, i, j));
  }

  lemma {:induction false} CommR001Sound(a: Op, b: Op, r: Op, I: Interp, i: int, j: int)
    requires CommR001((a, b)) == Some(r)
    ensures OpEntry(r, I, i, j) == OpEntry(Commutator(a, b), I, i, j)
  {
    CommutatorIsDifference(a, b, I, i, j);
    SubSelf(ProdEntry(a, a, I, i, j));
  }

  lemma {:induction false} CommR002Sound(a: Op, b: Op, r: Op, I: Interp, i: int, j: int)
    requires CommR002((a, b)) == Some(r)
    ensures OpEntry(r, I, i, j) == OpEntry(Commutator(a, b), I, i, j)
  {
    var u, a', v, b' := a.coeff, a.term, b.coeff, b.term;
    EvalPair(u, v, I);
    EntryScaled(ScalarTimes([u, v]), Commutator(a', b'), I, i, j);
    CommScaleLeft(Eval(u, I), a', a, b, I, i, j);
    CommScaleRight(Eval(v, I), b', b, a', I, i, j);
    MulAssoc(Eval(u, I), Eval(v, I), OpEntry(Commutator(a', b'), I, i, j));
  }

  lemma {:induction false} CommR003Sound(a: Op, b: Op, r: Op, I: Interp, i: int, j: int)
    requires CommR003((a, b)) == Some(r)
    ensures OpEntry(r, I, i, j) == OpEntry(Commutator(a, b), I, i, j)
  {
    CommScaleLeft(Eval(a.coeff, I), a.term, a, b, I, i, j);
  }

  lemma {:induction false} CommR004Sound(a: Op, b: Op, r: Op, I: Interp, i: int, j: int)
    requires CommR004((a, b)) == Some(r)
    ensures OpEntry(r, I, i, j) == OpEntry(Commutator(a, b), I, i, j)
  {
    CommScaleRight(Eval(b.coeff, I), b.term, b, a, I, i, j);
  }

  lemma {:induction false} CommR006Sound(a: Op, b: Op, I: Interp, i: int, j: int)
    requires InRange(I, j)
    ensures OpEntry(Minus(OperatorTimes([a, b]), OperatorTimes([b, a])), I, i, j) == OpEntry(Commutator(a, b), I, i, j)
  {
    var p := OperatorTimes([a, b]);
    var q := ScalarTimesOperator(MinusOneScalar, OperatorTimes([b, a]));
    EntryPlus([p, q], I, i, j);
    PlusPair(p, q, I, i, j);
    EntryScaled(MinusOneScalar, OperatorTimes([b, a]), I, i, j);
    EntryTimesPair(a, b, I, i, j);
    EntryTimesPair(b, a, I, i, j);
    CommutatorIsDifference(a, b, I, i, j);
    AddMinusOne(ProdEntry(a, b, I, i, j), ProdEntry(b, a, I, i, j));
  }

  /** Every commutator rule except R005 gives an operator with the matrix of [A, B]. */
  lemma {:induction false} CommutatorRulesSound(k: nat, a: Op, b: Op, r: Op, I: Interp)
    requires k < |CommutatorRules()| && CommutatorRules()[k].fire((a, b)) == Some(r)
    requires k != 4
    ensures OpEquiv(r, Commutator(a, b), I)
  {
    forall i, j | InRange(I, i) && InRange(I, j)
      ensures OpEntry(r, I, i, j) == OpEntry(Commutator(a, b), I, i, j)
    {
      match k
      case 0 => CommR001Sound(a, b, r, I, i, j);
      case 1 => CommR002Sound(a, b, r, I, i, j);
      case 2 => CommR003Sound(a, b, r, I, i, j);
      case 3 => CommR004Sound(a, b, r, I, i, j);
      case 5 => CommR006Sound(a, b, I, i, j);
      case 6 => CommR006Sound(a, b, I, i, j);
    }
  }

  /** R005 is the commutation relation of the untruncated oscillator: in a
      space of finite dimension the commutator of the ladder matrices is not -1. */
  lemma {:induction false} CommR005NeedsInfiniteSpace(ls: LocalSpace, I: Interp)
    requires I.dim == 1
    ensures CommR005((Create(ls), Destroy(ls))) == Some(ScalarTimesOperator(MinusOneScalar, IdentityOperator))
    ensures OpEntry(Commutator(Create(ls), Destroy(ls)), I, 0, 0) == Zero
    ensures OpEntry(ScalarTimesOperator(MinusOneScalar, IdentityOperator), I, 0, 0) == MinusOne
  {
    var f := k => Sub(Mul(OpEntry(Create(ls), I, 0, k), OpEntry(Destroy(ls), I, k, 0)),
                      Mul(OpEntry(Destroy(ls), I, 0, k), OpEntry(Create(ls), I, k, 0)));
    assert f(0) == Zero;
    assert Sum(1, f) == Add(Sum(0, f), f(0));
  }

  // ---------------------------------------------------------------------
  // OperatorIndexedSum: rules on (term, ranges), meaning the indexed sum
  // ---------------------------------------------------------------------

  /** `pull_constfactor_from_sum`: u * sum(A) when no index symbol of the
      ranges is free in u; otherwise the rule declines. */
  function PullConstFactorFromOperatorSum(u: Scalar, a: Op, ranges: seq<IndexRange>): (r: Option<Op>)
    ensures r.Some? <==> forall k :: 0 <= k < |ranges| ==> ranges[k].sym !in FreeSymbols(u)
  {
    if FreeSymbols(u) !! BoundSymbols(ranges) then Some(ScalarTimesOperator(u, OperatorIndexedSum(a, ranges)))
    else None
  }

  /** A sum over ZeroOperator is ZeroOperator. */
  function OpSumR001(args: (Op, seq<IndexRange>)): Option<Op>
  {
    if args.0 == ZeroOperator then Some(ZeroOperator) else None
  }

  /** A constant factor comes out of the sum. */
  function OpSumR002(args: (Op, seq<IndexRange>)): Option<Op>
  {
    match args.0
    case ScalarTimesOperator(u, a) => PullConstFactorFromOperatorSum(u, a, args.1)
    case _ => None
  }

  function OperatorIndexedSumRules(): seq<Rule<(Op, seq<IndexRange>), Op>>
  {
    [Rule("R001", OpSumR001), Rule("R002", OpSumR002)]
  }

  lemma {:induction false} OpSumR002Sound(t: Op, ranges: seq<IndexRange>, r: Op, I: Interp, i: int, j: int)
    requires OpSumR002((t, ranges)) == Some(r)
    ensures OpEntry(r, I, i, j) == OpEntry(OperatorIndexedSum(t, ranges), I, i, j)
  {
    var u, a := t.coeff, t.term;
    var B := BoundSymbols(ranges);
    forall K | SameExcept(I, K, B) ensures OpEntry(t, K, i, j) == Mul(Eval(u, I), OpEntry(a, K, i, j)) {
      Coincide(u, I, K, B);
    }
    RangeSumScale(ranges, I, Eval(u, I), J => OpEntry(a, J, i, j), J => OpEntry(t, J, i, j));
  }

  /** Both indexed-sum rules keep the matrix of the sum, with no side condition. */
  lemma {:induction false} OperatorIndexedSumRulesSound(k: nat, t: Op, ranges: seq<IndexRange>, r: Op, I: Interp)
    requires k < |OperatorIndexedSumRules()| && OperatorIndexedSumRules()[k].fire((t, ranges)) == Some(r)
    ensures OpEquiv(r, OperatorIndexedSum(t, ranges), I)
  {
    forall i, j | InRange(I, i) && InRange(I, j)
      ensures OpEntry(r, I, i, j) == OpEntry(OperatorIndexedSum(t, ranges), I, i, j)
    {
      if k == 0 {
        RangeSumOfZero(ranges, I, J => OpEntry(t, J, i, j));
      } else {
        OpSumR002Sound(t, ranges, r, I, i, j);
      }
    }
  }
}
