/**
 * The algebraic rules for kets: the rules of `ScalarTimesKet`,
 * `OperatorTimesKet`, the binary rules of `TensorKet`, and the rules of
 * `BraKet`, `KetBra` and `KetIndexedSum`, together with `act_locally`. The
 * harmonic-oscillator, spin and coherent-state rules, the rules that act on
 * tensor products factor by factor, and the rules that only hand a product
 * of indexed sums on to `__mul__` are not part of this model.
 *
 * Each table is proved to keep the meaning of the expression it rewrites:
 * the components of a ket, the value of a bra-ket, the matrix of a ket-bra.
 * Products of two kets are given a meaning of their own, `TensorComp`, in
 * the product of two copies of the local space.
 */
module StateRules {
  import opened Wrappers
  import opened Complex
  import opened Expressions
  import opened Semantics
  import opened Laws
  import opened Rules

  // ---------------------------------------------------------------------
  // Kets of a two-factor space
  // ---------------------------------------------------------------------

  /**
   * Component (i1, i2) of a ket of the product of two copies of the local
   * space: a tensor product of two kets is the product of their components,
   * a scalar multiplies, and an operator acts on the first factor.
   */
  function TensorComp(k: Ket, I: Interp, i1: int, i2: int): C
    decreases k
  {
    match k
    case TensorKet(ts) =>
      if |ts| == 2 then Mul(KetComp(ts[0], I, i1), KetComp(ts[1], I, i2)) else Zero
    case ScalarTimesKet(u, t) => Mul(Eval(u, I), TensorComp(t, I, i1, i2))
    case OperatorTimesKet(a, t) => Sum(I.dim, x => Mul(OpEntry(a, I, i1, x), TensorComp(t, I, x, i2)))
    case _ => Zero
  }

  /** `psi` is the tensor product of `on` (first factor) and `off` (second factor). */
  ghost predicate Factorizes(psi: Ket, on: Ket, off: Ket, I: Interp)
  {
    forall x, y :: InRange(I, x) && InRange(I, y) ==>
      TensorComp(psi, I, x, y) == Mul(KetComp(on, I, x), KetComp(off, I, y))
  }

  /** Two kets of the two-factor space have the same components. */
  ghost predicate TensorEquiv(a: Ket, b: Ket, I: Interp)
  {
    forall x, y :: InRange(I, x) && InRange(I, y) ==> TensorComp(a, I, x, y) == TensorComp(b, I, x, y)
  }

  /**
   * The parts of the algebra the rules call but this model does not define:
   * `split(A, Psi)` is `Psi.factor_for_space(A.space)`, the part of the ket
   * on the space of the operator and the rest; `mul(B, Psi)` is `B * Psi`,
   * the product after its own simplification.
   */
  datatype Hooks = Hooks(split: (Op, Ket) -> (Ket, Ket), mul: (Op, Ket) -> Ket)

  /** The operators that act on a single local space (`LocalOperator`). */
  predicate IsLocalOperator(a: Op)
  {
    a.LocalSigma? || a.Create? || a.Destroy?
  }

  // ---------------------------------------------------------------------
  // act_locally
  // ---------------------------------------------------------------------

  /** `act_locally(op, ket)`, given `ket.factor_for_space(op.space)` as `split`:
      (op * ket_on) * ket_off, unless nothing of the ket lies off the operator's space. */
  function ActLocally(op: Op, split: (Ket, Ket)): (r: Option<Ket>)
    ensures r.Some? <==> split.1 != TrivialKet
  {
    if split.1 != TrivialKet then Some(TensorKet([OperatorTimesKet(op, split.0), split.1])) else None
  }

  /** Acting on the factor a ket has on the operator's space acts on the ket. */
  lemma {:induction false} ActLocallySound(op: Op, psi: Ket, split: (Ket, Ket), I: Interp)
    requires ActLocally(op, split).Some? && Factorizes(psi, split.0, split.1, I)
    ensures TensorEquiv(ActLocally(op, split).value, OperatorTimesKet(op, psi), I)
  {
    var on, off := split.0, split.1;
    var r := TensorKet([OperatorTimesKet(op, on), off]);
    assert ActLocally(op, split).value == r;
    forall i1, i2 | InRange(I, i1) && InRange(I, i2)
      ensures TensorComp(r, I, i1, i2) == TensorComp(OperatorTimesKet(op, psi), I, i1, i2)
    {
      var w := KetComp(off, I, i2);
      var f := x => Mul(OpEntry(op, I, i1, x), KetComp(on, I, x));
      var g := x => Mul(OpEntry(op, I, i1, x), TensorComp(psi, I, x, i2));
      assert TensorComp(r, I, i1, i2) == Mul(KetComp(OperatorTimesKet(op, on), I, i1), w);
      assert TensorComp(OperatorTimesKet(op, psi), I, i1, i2) == Sum(I.dim, g);
      forall x | 0 <= x < I.dim ensures g(x) == Mul(f(x), w) {
        assert TensorComp(psi, I, x, i2) == Mul(KetComp(on, I, x), w);
        MulAssoc(OpEntry(op, I, i1, x), KetComp(on, I, x), w);
      }
      SumScaleRight(I.dim, f, w, g);
    }
  }

  // ---------------------------------------------------------------------
  // ScalarTimesKet: rules on (u, Psi), meaning u * Psi
  // ---------------------------------------------------------------------

  /** 1 * Psi = Psi */
  function StkR001(args: (Scalar, Ket)): Option<Ket>
  {
    if args.0 == OneScalar then Some(args.1) else None
  }

  /** 0 * Psi = ZeroKet */
  function StkR002(args: (Scalar, Ket)): Option<Ket>
  {
    if args.0 == ZeroScalar then Some(ZeroKet) else None
  }

  /** u * ZeroKet = ZeroKet */
  function StkR003(args: (Scalar, Ket)): Option<Ket>
  {
    if args.1 == ZeroKet then Some(ZeroKet) else None
  }

  /** u * (v * Psi) = (u * v) * Psi */
  function StkR004(args: (Scalar, Ket)): Option<Ket>
  {
    match args.1
    case ScalarTimesKet(v, psi) => Some(ScalarTimesKet(ScalarTimes([args.0, v]), psi))
    case _ => None
  }

  function ScalarTimesKetRules(): seq<Rule<(Scalar, Ket), Ket>>
  {
    [Rule("R001", StkR001), Rule("R002", StkR002), Rule("R003", StkR003), Rule("R004", StkR004)]
  }

  lemma {:induction false} StkR004Sound(u: Scalar, psi: Ket, r: Ket, I: Interp, i: int)
    requires StkR004((u, psi)) == Some(r)
    ensures KetComp(r, I, i) == KetComp(ScalarTimesKet(u, psi), I, i)
  {
    var v, t := psi.coeff, psi.term;
    EvalPair(u, v, I);
    MulAssoc(Eval(u, I), Eval(v, I), KetComp(t, I, i));
  }

  /** Every rule of the table gives a ket with the components of u * Psi. */
  lemma {:induction false} ScalarTimesKetRulesSound(k: nat, u: Scalar, psi: Ket, r: Ket, I: Interp)
    requires k < |ScalarTimesKetRules()| && ScalarTimesKetRules()[k].fire((u, psi)) == Some(r)
    ensures KetEquiv(r, ScalarTimesKet(u, psi), I)
  {
    forall i | InRange(I, i) ensures KetComp(r, I, i) == KetComp(ScalarTimesKet(u, psi), I, i) {
      match k
      case 0 => MulOne(KetComp(psi, I, i));
      case 1 => MulZero(KetComp(psi, I, i));
      case 2 => MulZero(Eval(u, I));
      case 3 => StkR004Sound(u, psi, r, I, i);
    }
  }

  // ---------------------------------------------------------------------
  // OperatorTimesKet: rules on (A, Psi), meaning A * Psi
  // ---------------------------------------------------------------------

  /** A1 * (A2 * (... * (An * Psi))) */
  function Nest(ts: seq<Op>, psi: Ket): Ket
    decreases |ts|
  {
    if |ts| == 0 then psi else OperatorTimesKet(ts[0], Nest(ts[1..], psi))
  }

  lemma {:induction false} NestLast(front: seq<Op>, b: Op, psi: Ket)
    ensures Nest(front + [b], psi) == Nest(front, OperatorTimesKet(b, psi))
    decreases |front|
  {
    if |front| == 0 {
      assert [] + [b] == [b];
      assert [b][1..] == [];
    } else {
      assert (front + [b])[1..] == front[1..] + [b];
      NestLast(front[1..], b, psi);
    }
  }

  /** A product of operators acts on a ket by applying its factors from the right. */
  lemma {:induction false} ProductActsSum(ts: seq<Op>, psi: Ket, I: Interp, i: int)
    requires InRange(I, i)
    ensures Sum(I.dim, x => Mul(TimesEntry(ts, I, i, x), KetComp(psi, I, x))) == KetComp(Nest(ts, psi), I, i)
    decreases |ts|
  {
    var n := I.dim;
    if |ts| == 0 {
      EmptyProductActs(psi, I, i);
    } else {
      var f := k => Mul(OpEntry(ts[0], I, i, k), Sum(n, x => Mul(TimesEntry(ts[1..], I, k, x), KetComp(psi, I, x))));
      var g := x => Mul(OpEntry(ts[0], I, i, x), KetComp(Nest(ts[1..], psi), I, x));
      FirstFactorActs(ts, psi, I, i);
      assert Sum(n, f) == Sum(n, g) by {
        forall k | 0 <= k < n ensures f(k) == g(k) {
          ProductActsSum(ts[1..], psi, I, k);
        }
        SumExt(n, f, g);
      }
      assert Nest(ts, psi) == OperatorTimesKet(ts[0], Nest(ts[1..], psi));
      CompApplied(ts[0], Nest(ts[1..], psi), I, i);
    }
  }

  /** (A1 A2 ... An) Psi = A1 ((A2 ... An) Psi), componentwise. */
  lemma {:induction false} FirstFactorActs(ts: seq<Op>, psi: Ket, I: Interp, i: int)
    requires InRange(I, i) && |ts| > 0
    ensures Sum(I.dim, x => Mul(TimesEntry(ts, I, i, x), KetComp(psi, I, x)))
         == Sum(I.dim, k => Mul(OpEntry(ts[0], I, i, k), Sum(I.dim, x => Mul(TimesEntry(ts[1..], I, k, x), KetComp(psi, I, x)))))
  {
    var n := I.dim;
    var F := MatrixOf(ts[0], I);
    var G := (k, x) => TimesEntry(ts[1..], I, k, x);
    var H := (x, y) => KetComp(psi, I, x);
    var L := Sum(n, k => Mul(F(i, k), Sum(n, l => Mul(G(k, l), H(l, 0)))));
    var R := Sum(n, l => Mul(Sum(n, k => Mul(F(i, k), G(k, l))), H(l, 0)));
    assert L == R by {
      MatMulAssoc(n, F, G, H, i, 0);
    }
    assert R == Sum(n, x => Mul(TimesEntry(ts, I, i, x), KetComp(psi, I, x))) by {
      forall l | 0 <= l < n
        ensures Mul(Sum(n, k => Mul(F(i, k), G(k, l))), H(l, 0)) == Mul(TimesEntry(ts, I, i, l), KetComp(psi, I, l))
      {
        SumExt(n, k => Mul(F(i, k), G(k, l)), k => Mul(OpEntry(ts[0], I, i, k), TimesEntry(ts[1..], I, k, l)));
      }
      SumExt(n, l => Mul(Sum(n, k => Mul(F(i, k), G(k, l))), H(l, 0)),
                x => Mul(TimesEntry(ts, I, i, x), KetComp(psi, I, x)));
    }
    assert L == Sum(n, k => Mul(OpEntry(ts[0], I, i, k), Sum(n, x => Mul(TimesEntry(ts[1..], I, k, x), KetComp(psi, I, x))))) by {
      forall k | 0 <= k < n
        ensures Mul(F(i, k), Sum(n, l => Mul(G(k, l), H(l, 0))))
             == Mul(OpEntry(ts[0], I, i, k), Sum(n, x => Mul(TimesEntry(ts[1..], I, k, x), KetComp(psi, I, x))))
      {
        SumExt(n, l => Mul(G(k, l), H(l, 0)), x => Mul(TimesEntry(ts[1..], I, k, x), KetComp(psi, I, x)));
      }
      SumExt(n, k => Mul(F(i, k), Sum(n, l => Mul(G(k, l), H(l, 0)))),
                k => Mul(OpEntry(ts[0], I, i, k), Sum(n, x => Mul(TimesEntry(ts[1..], I, k, x), KetComp(psi, I, x)))));
    }
  }

  lemma {:induction false} EmptyProductActs(psi: Ket, I: Interp, i: int)
    requires InRange(I, i)
    ensures Sum(I.dim, x => Mul(TimesEntry([], I, i, x), KetComp(psi, I, x))) == KetComp(psi, I, i)
  {
    var f := x => Mul(TimesEntry([], I, i, x), KetComp(psi, I, x));
    forall x | 0 <= x < I.dim && x != i ensures f(x) == Zero {
      assert TimesEntry([], I, i, x) == Zero;
      MulZero(KetComp(psi, I, x));
    }
    SumSingle(I.dim, i, f);
    assert TimesEntry([], I, i, i) == One;
    MulOne(KetComp(psi, I, i));
  }

  /** (A1 A2 ... An) Psi = A1 (A2 (... (An Psi))) */
  lemma {:induction false} ProductActs(ts: seq<Op>, psi: Ket, I: Interp, i: int)
    requires InRange(I, i)
    ensures KetComp(OperatorTimesKet(OperatorTimes(ts), psi), I, i) == KetComp(Nest(ts, psi), I, i)
  {
    forall x | 0 <= x < I.dim
      ensures Mul(OpEntry(OperatorTimes(ts), I, i, x), KetComp(psi, I, x)) == Mul(TimesEntry(ts, I, i, x), KetComp(psi, I, x))
    {
      EntryTimes(ts, I, i, x);
    }
    SumExt(I.dim, x => Mul(OpEntry(OperatorTimes(ts), I, i, x), KetComp(psi, I, x)),
                  x => Mul(TimesEntry(ts, I, i, x), KetComp(psi, I, x)));
    CompApplied(OperatorTimes(ts), psi, I, i);
    ProductActsSum(ts, psi, I, i);
  }

  /** IdentityOperator * Psi = Psi */
  function OtkR001(args: (Op, Ket)): Option<Ket>
  {
    if args.0 == IdentityOperator then Some(args.1) else None
  }

  /** ZeroOperator * Psi = ZeroKet */
  function OtkR002(args: (Op, Ket)): Option<Ket>
  {
    if args.0 == ZeroOperator then Some(ZeroKet) else None
  }

  /** A * ZeroKet = ZeroKet */
  function OtkR003(args: (Op, Ket)): Option<Ket>
  {
    if args.1 == ZeroKet then Some(ZeroKet) else None
  }

  /** A * (v * Psi) = v * (A * Psi) */
  function OtkR004(args: (Op, Ket)): Option<Ket>
  {
    match args.1
    case ScalarTimesKet(v, psi) => Some(ScalarTimesKet(v, OperatorTimesKet(args.0, psi)))
    case _ => None
  }

  /** |n><m| * |k> = delta(m, k) |n> on the same local space */
  function OtkR005(args: (Op, Ket)): Option<Ket>
  {
    match args
    case (LocalSigma(n, m, ls), BasisKet(k, ls')) =>
      if ls == ls' then Some(ScalarTimesKet(Delta(m, k), BasisKet(n, ls))) else None
    case _ => None
  }

  /** A local operator acts on its own factor of a tensor product (`act_locally`). */
  function OtkR012(h: Hooks, args: (Op, Ket)): Option<Ket>
  {
    if IsLocalOperator(args.0) && args.1.TensorKet? then ActLocally(args.0, h.split(args.0, args.1)) else None
  }

  /** A * (B * Psi) = (A * B) * Psi when B * Psi does not simplify, and A * (B * Psi) with the simplified B * Psi otherwise */
  function OtkR014(h: Hooks, args: (Op, Ket)): Option<Ket>
  {
    match args.1
    case OperatorTimesKet(b, psi) =>
      var bPsi := h.mul(b, psi);
      if bPsi == OperatorTimesKet(b, psi) then Some(OperatorTimesKet(OperatorTimes([args.0, b]), psi))
      else Some(OperatorTimesKet(args.0, bPsi))
    case _ => None
  }

  /** (A1 ... An B) * Psi = (A1 ... An) * (B * Psi), for a local operator B, a local ket Psi and n >= 1 */
  function OtkR015(args: (Op, Ket)): Option<Ket>
  {
    match args
    case (OperatorTimes(ops), BasisKet(_, _)) =>
      if |ops| >= 2 && IsLocalOperator(ops[|ops| - 1]) then
        Some(OperatorTimesKet(OperatorTimes(ops[..|ops| - 1]), OperatorTimesKet(ops[|ops| - 1], args.1)))
      else None
    case _ => None
  }

  /** (u * A) * Psi = u * (A * Psi) */
  function OtkR016(args: (Op, Ket)): Option<Ket>
  {
    match args.0
    case ScalarTimesOperator(u, a) => Some(ScalarTimesKet(u, OperatorTimesKet(a, args.1)))
    case _ => None
  }

  /** A * sum(Psi) = sum(A * Psi), as written: the operator goes under the sum unchecked. */
  function OtkR021AsWritten(args: (Op, Ket)): Option<Ket>
  {
    match args.1
    case KetIndexedSum(t, rs) => Some(KetIndexedSum(OperatorTimesKet(args.0, t), rs))
    case _ => None
  }

  /** A * sum(Psi) = sum(A * Psi), when no index symbol of the sum is free in A. */
  function OtkR021(args: (Op, Ket)): (r: Option<Ket>)
    ensures r.Some? <==> args.1.KetIndexedSum? && OpFreeSymbols(args.0) !! BoundSymbols(args.1.ranges)
  {
    match args.1
    case KetIndexedSum(t, rs) =>
      if OpFreeSymbols(args.0) !! BoundSymbols(rs) then Some(KetIndexedSum(OperatorTimesKet(args.0, t), rs))
      else None
    case _ => None
  }

  function OperatorTimesKetRules(h: Hooks): seq<Rule<(Op, Ket), Ket>>
  {
    [Rule("R001", OtkR001), Rule("R002", OtkR002), Rule("R003", OtkR003),
     Rule("R004", OtkR004), Rule("R005", OtkR005), Rule("R012", args => OtkR012(h, args)),
     Rule("R014", args => OtkR014(h, args)), Rule("R015", OtkR015), Rule("R016", OtkR016),
     Rule("R021", OtkR021)]
  }

  /** What the rules take for granted: a basis label of a `LocalSigma` names a
      basis state, and `B * Psi` keeps the components of the product. */
  ghost predicate OperatorTimesKetSide(h: Hooks, a: Op, psi: Ket, I: Interp)
  {
    (a.LocalSigma? ==> InRange(I, LabelValue(a.k, I))) &&
    (psi.OperatorTimesKet? ==> KetEquiv(h.mul(psi.op, psi.term), psi, I))
  }

  lemma {:induction false} OtkIdentity(psi: Ket, I: Interp, i: int)
    requires InRange(I, i)
    ensures KetComp(OperatorTimesKet(IdentityOperator, psi), I, i) == KetComp(psi, I, i)
  {
    var f := x => Mul(OpEntry(IdentityOperator, I, i, x), KetComp(psi, I, x));
    forall x | 0 <= x < I.dim && x != i ensures f(x) == Zero {
      assert OpEntry(IdentityOperator, I, i, x) == Zero;
      MulZero(KetComp(psi, I, x));
    }
    SumSingle(I.dim, i, f);
    assert OpEntry(IdentityOperator, I, i, i) == One;
    MulOne(KetComp(psi, I, i));
    assert KetComp(OperatorTimesKet(IdentityOperator, psi), I, i) == Sum(I.dim, f);
  }

  lemma {:induction false} OtkZero(a: Op, psi: Ket, I: Interp, i: int)
    requires a == ZeroOperator || psi == ZeroKet
    ensures KetComp(OperatorTimesKet(a, psi), I, i) == Zero
  {
    var f := x => Mul(OpEntry(a, I, i, x), KetComp(psi, I, x));
    forall x | 0 <= x < I.dim ensures f(x) == Zero {
      MulZero(KetComp(psi, I, x));
      MulZero(OpEntry(a, I, i, x));
    }
    SumOfZero(I.dim, f);
  }

  lemma {:induction false} OtkR004Sound(a: Op, psi: Ket, r: Ket, I: Interp, i: int)
    requires OtkR004((a, psi)) == Some(r)
    ensures KetComp(r, I, i) == KetComp(OperatorTimesKet(a, psi), I, i)
  {
    var v, t := psi.coeff, psi.term;
    SumMulScaleRight(I.dim, Eval(v, I), x => OpEntry(a, I, i, x), x => KetComp(psi, I, x), x => KetComp(t, I, x));
    SumExt(I.dim, x => Mul((x => OpEntry(a, I, i, x))(x), (x => KetComp(psi, I, x))(x)),
                  x => Mul(OpEntry(a, I, i, x), KetComp(psi, I, x)));
    SumExt(I.dim, x => Mul((x => OpEntry(a, I, i, x))(x), (x => KetComp(t, I, x))(x)),
                  x => Mul(OpEntry(a, I, i, x), KetComp(t, I, x)));
  }

  lemma {:induction false} OtkR005Sound(a: Op, psi: Ket, r: Ket, I: Interp, i: int)
    requires OtkR005((a, psi)) == Some(r) && InRange(I, LabelValue(a.k, I))
    ensures KetComp(r, I, i) == KetComp(OperatorTimesKet(a, psi), I, i)
  {
    var m := LabelValue(a.k, I);
    var f := x => Mul(OpEntry(a, I, i, x), KetComp(psi, I, x));
    forall x | 0 <= x < I.dim && x != m ensures f(x) == Zero {
      assert OpEntry(a, I, i, x) == Zero;
      MulZero(KetComp(psi, I, x));
    }
    SumSingle(I.dim, m, f);
    assert KetComp(OperatorTimesKet(a, psi), I, i) == Sum(I.dim, f);
    assert KetComp(r, I, i) == Mul(DeltaValue(a.k, psi.index, I), KetComp(BasisKet(a.j, a.hs), I, i));
    assert f(m) == Mul(OpEntry(a, I, i, m), KetComp(psi, I, m));
    MulZero(Zero);
    MulOne(One);
    MulZero(One);
    MulOne(Zero);
  }

  lemma {:induction false} OtkR014Sound(h: Hooks, a: Op, psi: Ket, r: Ket, I: Interp, i: int)
    requires OtkR014(h, (a, psi)) == Some(r) && InRange(I, i)
    requires KetEquiv(h.mul(psi.op, psi.term), psi, I)
    ensures KetComp(r, I, i) == KetComp(OperatorTimesKet(a, psi), I, i)
  {
    var b, t := psi.op, psi.term;
    if h.mul(b, t) == OperatorTimesKet(b, t) {
      ProductActs([a, b], t, I, i);
      assert [a, b][1..] == [b];
      assert [b][1..] == [];
      assert Nest([b], t) == psi;
      assert Nest([a, b], t) == OperatorTimesKet(a, psi);
    } else {
      SumExt(I.dim, x => Mul(OpEntry(a, I, i, x), KetComp(h.mul(b, t), I, x)),
                    x => Mul(OpEntry(a, I, i, x), KetComp(psi, I, x)));
    }
  }

  lemma {:induction false} OtkR015Sound(a: Op, psi: Ket, r: Ket, I: Interp, i: int)
    requires OtkR015((a, psi)) == Some(r) && InRange(I, i)
    ensures KetComp(r, I, i) == KetComp(OperatorTimesKet(a, psi), I, i)
  {
    var ops := a.operands;
    var front, b := ops[..|ops| - 1], ops[|ops| - 1];
    assert ops == front + [b];
    ProductActs(ops, psi, I, i);
    ProductActs(front, OperatorTimesKet(b, psi), I, i);
    NestLast(front, b, psi);
  }

  lemma {:induction false} OtkR016Sound(a: Op, psi: Ket, r: Ket, I: Interp, i: int)
    requires OtkR016((a, psi)) == Some(r)
    ensures KetComp(r, I, i) == KetComp(OperatorTimesKet(a, psi), I, i)
  {
    var u, b := a.coeff, a.term;
    SumMulScaleLeft(I.dim, Eval(u, I), x => OpEntry(a, I, i, x), x => OpEntry(b, I, i, x), x => KetComp(psi, I, x));
    SumExt(I.dim, x => Mul((x => OpEntry(a, I, i, x))(x), (x => KetComp(psi, I, x))(x)),
                  x => Mul(OpEntry(a, I, i, x), KetComp(psi, I, x)));
    SumExt(I.dim, x => Mul((x => OpEntry(b, I, i, x))(x), (x => KetComp(psi, I, x))(x)),
                  x => Mul(OpEntry(b, I, i, x), KetComp(psi, I, x)));
  }

  /** The operator goes under the sum when the sum's index symbols are not free in it. */
  lemma {:induction false} OtkR021Sound(a: Op, psi: Ket, r: Ket, I: Interp, i: int)
    requires OtkR021((a, psi)) == Some(r) && InRange(I, i)
    ensures KetComp(r, I, i) == KetComp(OperatorTimesKet(a, psi), I, i)
  {
    var t, rs := psi.term, psi.ranges;
    var n := I.dim;
    var g := (J: Interp, x: int) => Mul(OpEntry(a, J, i, x), KetComp(t, J, x));
    assert r == KetIndexedSum(OperatorTimesKet(a, t), rs);
    assert KetComp(r, I, i) == RangeSum(rs, I, J => KetComp(OperatorTimesKet(a, t), J, i));
    OtkR021Rows(a, t, rs, I, i, g);
    RangeSumOfSum(rs, I, n, g);
    forall x | 0 <= x < n
      ensures RangeSum(rs, I, J => g(J, x)) == Mul(OpEntry(a, I, i, x), KetComp(psi, I, x))
    {
      OtkR021Column(a, t, rs, I, i, x, g);
    }
    SumExt(n, x => RangeSum(rs, I, J => g(J, x)), x => Mul(OpEntry(a, I, i, x), KetComp(psi, I, x)));
    CompApplied(a, psi, I, i);
  }

  /** Under the sum, each term A * t has its components written out as sums. */
  lemma {:induction false} OtkR021Rows(a: Op, t: Ket, rs: seq<IndexRange>, I: Interp, i: int, g: (Interp, int) -> C)
    requires InRange(I, i)
    requires forall J: Interp, x: int :: g(J, x) == Mul(OpEntry(a, J, i, x), KetComp(t, J, x))
    ensures RangeSum(rs, I, J => KetComp(OperatorTimesKet(a, t), J, i)) == RangeSum(rs, I, J => Sum(I.dim, x => g(J, x)))
  {
    var n := I.dim;
    forall K: Interp, L: Interp | K.dim == I.dim && SameExcept(K, L, {} - BoundSymbols(rs))
      ensures KetComp(OperatorTimesKet(a, t), K, i) == Sum(n, x => g(L, x))
    {
      forall x | 0 <= x < n ensures Mul(OpEntry(a, K, i, x), KetComp(t, K, x)) == g(L, x) {
        OpCoincide(a, K, L, {}, i, x);
        KetCoincide(t, K, L, {}, x);
      }
      SumExt(n, x => Mul(OpEntry(a, K, i, x), KetComp(t, K, x)), x => g(L, x));
      CompApplied(a, t, K, i);
    }
    RangeSumCongruence(rs, I, I, {}, J => KetComp(OperatorTimesKet(a, t), J, i), J => Sum(n, x => g(J, x)));
  }

  /** Summing the x-th term over the ranges only touches the ket: A does not mention a bound symbol. */
  lemma {:induction false} OtkR021Column(a: Op, t: Ket, rs: seq<IndexRange>, I: Interp, i: int, x: int, g: (Interp, int) -> C)
    requires OpFreeSymbols(a) !! BoundSymbols(rs) && InRange(I, i) && InRange(I, x)
    requires forall J: Interp, y: int :: g(J, y) == Mul(OpEntry(a, J, i, y), KetComp(t, J, y))
    ensures RangeSum(rs, I, J => g(J, x)) == Mul(OpEntry(a, I, i, x), KetComp(KetIndexedSum(t, rs), I, x))
  {
    forall K | SameExcept(I, K, BoundSymbols(rs)) ensures g(K, x) == Mul(OpEntry(a, I, i, x), KetComp(t, K, x)) {
      OpCoincide(a, I, K, BoundSymbols(rs), i, x);
    }
    RangeSumScale(rs, I, OpEntry(a, I, i, x), J => KetComp(t, J, x), J => g(J, x));
    CompIndexed(t, rs, I, x);
  }

  /**
   * R021 as written captures an index symbol. Take `A = |i><0|` with a free
   * index symbol `i` whose value is 0, and `Psi = sum over i in [1] of |0>`,
   * which is just |0>. Then A * Psi has component 1 at 0, while the rewritten
   * `sum over i in [1] of |i><0| |0>` is |1>, with component 0 there. The
   * guarded rule declines on this input.
   */
  lemma {:induction false} OtkR021AsWrittenCaptures(I: Interp)
    requires I.dim == 2 && I.val("i") == Zero
    ensures var ls := LocalSpace("q", 2);
            var a := LocalSigma(LIdx("i"), LInt(0), ls);
            var psi := KetIndexedSum(BasisKet(LInt(0), ls), [IndexOverList("i", [1])]);
            && OtkR021AsWritten((a, psi)).Some?
            && KetComp(OperatorTimesKet(a, psi), I, 0) == One
            && KetComp(OtkR021AsWritten((a, psi)).value, I, 0) == Zero
            && OtkR021((a, psi)).None?
  {
    var ls := LocalSpace("q", 2);
    var a := LocalSigma(LIdx("i"), LInt(0), ls);
    var b0 := BasisKet(LInt(0), ls);
    var rs := [IndexOverList("i", [1])];
    CapturedLeft(I);
    CapturedRight(I);
    assert OtkR021AsWritten((a, KetIndexedSum(b0, rs))) == Some(KetIndexedSum(OperatorTimesKet(a, b0), rs));
    assert "i" in OpFreeSymbols(a) && "i" in BoundSymbols(rs);
  }

  /** In the counterexample, A * Psi has component 1 at 0: Psi is |0>, and A maps |0> to |i> = |0>. */
  lemma {:induction false} CapturedLeft(I: Interp)
    requires I.dim == 2 && I.val("i") == Zero
    ensures var ls := LocalSpace("q", 2);
            KetComp(OperatorTimesKet(LocalSigma(LIdx("i"), LInt(0), ls),
                                     KetIndexedSum(BasisKet(LInt(0), ls), [IndexOverList("i", [1])])), I, 0) == One
  {
    var ls := LocalSpace("q", 2);
    var a := LocalSigma(LIdx("i"), LInt(0), ls);
    var b0 := BasisKet(LInt(0), ls);
    var rs := [IndexOverList("i", [1])];
    var psi := KetIndexedSum(b0, rs);
    var J := Bind(I, "i", 1);
    assert LabelValue(LIdx("i"), I) == 0;
    // Psi is |0>.
    forall x ensures KetComp(psi, I, x) == KetComp(b0, J, x) {
      assert rs[1..] == [];
      assert RangeValues(rs[0]) == [1];
      AddZero(KetComp(b0, J, x));
    }
    var f := x => Mul(OpEntry(a, I, 0, x), KetComp(psi, I, x));
    assert f(0) == One by {
      assert OpEntry(a, I, 0, 0) == One;
      assert KetComp(psi, I, 0) == KetComp(b0, J, 0) == One;
      MulOne(One);
    }
    assert f(1) == Zero by { MulZero(Zero); }
    assert Sum(1, f) == Add(Sum(0, f), f(0));
    assert Sum(2, f) == Add(Sum(1, f), f(1));
    AddZero(One);
    CompApplied(a, psi, I, 0);
  }

  /** In the counterexample, the rewritten sum has component 0 at 0: under the sum, i is 1. */
  lemma {:induction false} CapturedRight(I: Interp)
    requires I.dim == 2
    ensures var ls := LocalSpace("q", 2);
            KetComp(KetIndexedSum(OperatorTimesKet(LocalSigma(LIdx("i"), LInt(0), ls), BasisKet(LInt(0), ls)),
                                  [IndexOverList("i", [1])]), I, 0) == Zero
  {
    var ls := LocalSpace("q", 2);
    var a := LocalSigma(LIdx("i"), LInt(0), ls);
    var b0 := BasisKet(LInt(0), ls);
    var rs := [IndexOverList("i", [1])];
    var J := Bind(I, "i", 1);
    assert J.val("i") == FromInt(1);
    assert LabelValue(LIdx("i"), J) == 1;
    var t := OperatorTimesKet(a, b0);
    var g := x => Mul(OpEntry(a, J, 0, x), KetComp(b0, J, x));
    forall x | 0 <= x < 2 ensures g(x) == Zero {
      assert OpEntry(a, J, 0, x) == Zero;
      MulZero(KetComp(b0, J, x));
    }
    SumOfZero(2, g);
    CompApplied(a, b0, J, 0);
    assert KetComp(t, J, 0) == Zero;
    assert KetComp(KetIndexedSum(t, rs), I, 0) == Add(KetComp(t, J, 0), Zero) by {
      assert rs[1..] == [];
      assert RangeValues(rs[0]) == [1];
    }
    AddZero(Zero);
  }

  /** Every rule of the table gives a ket with the components of A * Psi. */
  lemma {:induction false} OperatorTimesKetRulesSound(h: Hooks, k: nat, a: Op, psi: Ket, r: Ket, I: Interp)
    requires k < |OperatorTimesKetRules(h)| && OperatorTimesKetRules(h)[k].fire((a, psi)) == Some(r)
    requires OperatorTimesKetSide(h, a, psi, I)
    ensures KetEquiv(r, OperatorTimesKet(a, psi), I)
    ensures k == 5 && Factorizes(psi, h.split(a, psi).0, h.split(a, psi).1, I) ==> TensorEquiv(r, OperatorTimesKet(a, psi), I)
  {
    if k == 5 && Factorizes(psi, h.split(a, psi).0, h.split(a, psi).1, I) {
      OtkR012Sound(h, a, psi, r, I);
    }
    forall i | InRange(I, i) ensures KetComp(r, I, i) == KetComp(OperatorTimesKet(a, psi), I, i) {
      match k
      case 0 => OtkIdentity(psi, I, i);
      case 1 => OtkZero(a, psi, I, i);
      case 2 => OtkZero(a, psi, I, i);
      case 3 => OtkR004Sound(a, psi, r, I, i);
      case 4 => OtkR005Sound(a, psi, r, I, i);
      case 5 => OtkR012OneSpace(h, a, psi, r, I, i);
      case 6 => OtkR014Sound(h, a, psi, r, I, i);
      case 7 => OtkR015Sound(a, psi, r, I, i);
      case 8 => OtkR016Sound(a, psi, r, I, i);
      case 9 => OtkR021Sound(a, psi, r, I, i);
    }
  }

  /**
   * R012 acts with a local operator on its own factor of a tensor product:
   * when `split` gives the factors of Psi, the result has the two-factor
   * components of A * Psi.
   */
  lemma {:induction false} OtkR012Sound(h: Hooks, a: Op, psi: Ket, r: Ket, I: Interp)
    requires OtkR012(h, (a, psi)) == Some(r)
    requires Factorizes(psi, h.split(a, psi).0, h.split(a, psi).1, I)
    ensures TensorEquiv(r, OperatorTimesKet(a, psi), I)
  {
    ActLocallySound(a, psi, h.split(a, psi), I);
  }

  /** In the one local space a tensor product has no components of its own, so both sides of R012 vanish there. */
  lemma {:induction false} OtkR012OneSpace(h: Hooks, a: Op, psi: Ket, r: Ket, I: Interp, i: int)
    requires OtkR012(h, (a, psi)) == Some(r)
    ensures KetComp(r, I, i) == KetComp(OperatorTimesKet(a, psi), I, i)
  {
    var f := x => Mul(OpEntry(a, I, i, x), KetComp(psi, I, x));
    forall x | 0 <= x < I.dim ensures f(x) == Zero {
      assert KetComp(psi, I, x) == Zero;
      MulZero(OpEntry(a, I, i, x));
    }
    SumOfZero(I.dim, f);
  }

  // ---------------------------------------------------------------------
  // TensorKet: binary rules on (Psi, Phi), meaning Psi * Phi
  // ---------------------------------------------------------------------

  /** (u * Psi) * Phi = u * (Psi * Phi) */
  function TenR001(args: (Ket, Ket)): Option<Ket>
  {
    match args.0
    case ScalarTimesKet(u, psi) => Some(ScalarTimesKet(u, TensorKet([psi, args.1])))
    case _ => None
  }

  /** Psi * (u * Phi) = u * (Psi * Phi) */
  function TenR002(args: (Ket, Ket)): Option<Ket>
  {
    match args.1
    case ScalarTimesKet(u, phi) => Some(ScalarTimesKet(u, TensorKet([args.0, phi])))
    case _ => None
  }

  function TensorKetRules(): seq<Rule<(Ket, Ket), Ket>>
  {
    [Rule("R001", TenR001), Rule("R002", TenR002)]
  }

  /** Both binary rules keep the components of the tensor product. */
  lemma {:induction false} TensorKetRulesSound(k: nat, psi: Ket, phi: Ket, r: Ket, I: Interp)
    requires k < |TensorKetRules()| && TensorKetRules()[k].fire((psi, phi)) == Some(r)
    ensures TensorEquiv(r, TensorKet([psi, phi]), I)
  {
    forall x, y | InRange(I, x) && InRange(I, y)
      ensures TensorComp(r, I, x, y) == TensorComp(TensorKet([psi, phi]), I, x, y)
    {
      if k == 0 {
        var u, t := psi.coeff, psi.term;
        MulAssoc(Eval(u, I), KetComp(t, I, x), KetComp(phi, I, y));
      } else {
        var u, t := phi.coeff, phi.term;
        var a, b, c := KetComp(psi, I, x), Eval(u, I), KetComp(t, I, y);
        MulSwapLeft(a, b, c);
      }
    }
  }

  /** a (b c) = b (a c) */
  lemma {:induction false} MulSwapLeft(a: C, b: C, c: C)
    ensures Mul(a, Mul(b, c)) == Mul(b, Mul(a, c))
  {
    MulAssoc(a, b, c);
    MulComm(a, b);
    MulAssoc(b, a, c);
  }

  // ---------------------------------------------------------------------
  // BraKet: rules on (Psi, Phi), meaning <Psi|Phi>
  // ---------------------------------------------------------------------

  /** <Phi|ZeroKet> = 0 */
  function BkR001(args: (Ket, Ket)): Option<Scalar>
  {
    if args.1 == ZeroKet then Some(ZeroScalar) else None
  }

  /** <ZeroKet|Phi> = 0 */
  function BkR002(args: (Ket, Ket)): Option<Scalar>
  {
    if args.0 == ZeroKet then Some(ZeroScalar) else None
  }

  /** <a|b> = delta(a, b) for two basis kets */
  function BkR003(args: (Ket, Ket)): Option<Scalar>
  {
    if args.0.BasisKet? && args.1.BasisKet? then Some(Delta(args.0.index, args.1.index)) else None
  }

  /** <Psi|Psi> = 1 for a ket symbol */
  function BkR004(args: (Ket, Ket)): Option<Scalar>
  {
    if args.0.KetSymbol? && args.1 == args.0 then Some(OneScalar) else None
  }

  /** <u Psi|Phi> = conj(u) <Psi|Phi> */
  function BkR006(args: (Ket, Ket)): Option<Scalar>
  {
    match args.0
    case ScalarTimesKet(u, psi) => Some(ScalarTimes([Conjugate(u), BraKet(psi, args.1)]))
    case _ => None
  }

  /** <A Psi|Phi> = <Psi|A^dagger Phi> */
  function BkR007(args: (Ket, Ket)): Option<Scalar>
  {
    match args.0
    case OperatorTimesKet(a, psi) => Some(BraKet(psi, OperatorTimesKet(Adjoint(a), args.1)))
    case _ => None
  }

  /** <Psi|u Phi> = u <Psi|Phi> */
  function BkR008(args: (Ket, Ket)): Option<Scalar>
  {
    match args.1
    case ScalarTimesKet(u, phi) => Some(ScalarTimes([u, BraKet(args.0, phi)]))
    case _ => None
  }

  function BraKetRules(): seq<Rule<(Ket, Ket), Scalar>>
  {
    [Rule("R001", BkR001), Rule("R002", BkR002), Rule("R003", BkR003), Rule("R004", BkR004),
     Rule("R006", BkR006), Rule("R007", BkR007), Rule("R008", BkR008)]
  }

  /** What the rules take for granted: the label of a basis bra names a basis
      state, and every ket symbol is normalized. */
  ghost predicate BraKetSide(psi: Ket, I: Interp)
  {
    (psi.BasisKet? ==> InRange(I, LabelValue(psi.index, I))) &&
    (psi.KetSymbol? ==> Eval(BraKet(psi, psi), I) == One)
  }

  lemma {:induction false} BkZero(psi: Ket, phi: Ket, I: Interp)
    requires psi == ZeroKet || phi == ZeroKet
    ensures Eval(BraKet(psi, phi), I) == Zero
  {
    var f := k => Mul(Conj(KetComp(psi, I, k)), KetComp(phi, I, k));
    forall k | 0 <= k < I.dim ensures f(k) == Zero {
      MulZero(Conj(KetComp(psi, I, k)));
      MulZero(KetComp(phi, I, k));
    }
    SumOfZero(I.dim, f);
  }

  lemma {:induction false} BkR003Sound(psi: Ket, phi: Ket, I: Interp)
    requires psi.BasisKet? && phi.BasisKet? && InRange(I, LabelValue(psi.index, I))
    ensures Eval(BraKet(psi, phi), I) == DeltaValue(psi.index, phi.index, I)
  {
    var m := LabelValue(psi.index, I);
    var f := k => Mul(Conj(KetComp(psi, I, k)), KetComp(phi, I, k));
    forall k | 0 <= k < I.dim && k != m ensures f(k) == Zero {
      assert KetComp(psi, I, k) == Zero;
      MulZero(KetComp(phi, I, k));
    }
    SumSingle(I.dim, m, f);
    assert KetComp(psi, I, m) == One;
    MulOne(KetComp(phi, I, m));
  }

  lemma {:induction false} BkR006Sound(u: Scalar, psi: Ket, phi: Ket, I: Interp)
    ensures Eval(ScalarTimes([Conjugate(u), BraKet(psi, phi)]), I) == Eval(BraKet(ScalarTimesKet(u, psi), phi), I)
  {
    var c := Conj(Eval(u, I));
    var f := k => Mul(Conj(KetComp(psi, I, k)), KetComp(phi, I, k));
    var h := k => Mul(Conj(KetComp(ScalarTimesKet(u, psi), I, k)), KetComp(phi, I, k));
    EvalPair(Conjugate(u), BraKet(psi, phi), I);
    assert Sum(I.dim, h) == Mul(c, Sum(I.dim, f)) by {
      forall k | 0 <= k < I.dim ensures h(k) == Mul(c, f(k)) {
        assert KetComp(ScalarTimesKet(u, psi), I, k) == Mul(Eval(u, I), KetComp(psi, I, k));
        ConjMul(Eval(u, I), KetComp(psi, I, k));
        MulAssoc(c, Conj(KetComp(psi, I, k)), KetComp(phi, I, k));
      }
      SumScaleLeft(I.dim, c, f, h);
    }
  }

  lemma {:induction false} BkR008Sound(u: Scalar, psi: Ket, phi: Ket, I: Interp)
    ensures Eval(ScalarTimes([u, BraKet(psi, phi)]), I) == Eval(BraKet(psi, ScalarTimesKet(u, phi)), I)
  {
    var c := Eval(u, I);
    var f := k => Mul(Conj(KetComp(psi, I, k)), KetComp(phi, I, k));
    var h := k => Mul(Conj(KetComp(psi, I, k)), KetComp(ScalarTimesKet(u, phi), I, k));
    EvalPair(u, BraKet(psi, phi), I);
    assert Sum(I.dim, h) == Mul(c, Sum(I.dim, f)) by {
      forall k | 0 <= k < I.dim ensures h(k) == Mul(c, f(k)) {
        MulSwapLeft(Conj(KetComp(psi, I, k)), c, KetComp(phi, I, k));
      }
      SumScaleLeft(I.dim, c, f, h);
    }
  }

  /** <A Psi|Phi> as a double sum over the rows and columns of A. */
  lemma {:induction false} BraOfProduct(a: Op, psi: Ket, phi: Ket, I: Interp)
    ensures Eval(BraKet(OperatorTimesKet(a, psi), phi), I)
         == Sum(I.dim, k => Sum(I.dim, x => Mul(Conj(OpEntry(a, I, k, x)), Mul(Conj(KetComp(psi, I, x)), KetComp(phi, I, k)))))
  {
    var f := k => Mul(Conj(KetComp(OperatorTimesKet(a, psi), I, k)), KetComp(phi, I, k));
    var g := k => Sum(I.dim, x => Mul(Conj(OpEntry(a, I, k, x)), Mul(Conj(KetComp(psi, I, x)), KetComp(phi, I, k))));
    forall k | 0 <= k < I.dim ensures f(k) == g(k) {
      BraOfProductRow(a, psi, phi, I, k);
    }
    SumExt(I.dim, f, g);
  }

  lemma {:induction false} BraOfProductRow(a: Op, psi: Ket, phi: Ket, I: Interp, k: int)
    ensures Mul(Conj(KetComp(OperatorTimesKet(a, psi), I, k)), KetComp(phi, I, k))
         == Sum(I.dim, x => Mul(Conj(OpEntry(a, I, k, x)), Mul(Conj(KetComp(psi, I, x)), KetComp(phi, I, k))))
  {
    var n := I.dim;
    var p := x => Mul(OpEntry(a, I, k, x), KetComp(psi, I, x));
    var q := x => Mul(Conj(OpEntry(a, I, k, x)), Conj(KetComp(psi, I, x)));
    assert Conj(KetComp(OperatorTimesKet(a, psi), I, k)) == Sum(n, q) by {
      assert KetComp(OperatorTimesKet(a, psi), I, k) == Sum(n, p);
      forall x | 0 <= x < n ensures q(x) == Conj(p(x)) {
        ConjMul(OpEntry(a, I, k, x), KetComp(psi, I, x));
      }
      SumConj(n, p, q);
    }
    forall x | 0 <= x < n
      ensures Mul(Conj(OpEntry(a, I, k, x)), Mul(Conj(KetComp(psi, I, x)), KetComp(phi, I, k))) == Mul(q(x), KetComp(phi, I, k))
    {
      MulAssoc(Conj(OpEntry(a, I, k, x)), Conj(KetComp(psi, I, x)), KetComp(phi, I, k));
    }
    SumScaleRight(n, q, KetComp(phi, I, k),
                  x => Mul(Conj(OpEntry(a, I, k, x)), Mul(Conj(KetComp(psi, I, x)), KetComp(phi, I, k))));
  }

  /** <Psi|A^dagger Phi> as a double sum over the columns and rows of A. */
  lemma {:induction false} KetOfAdjoint(a: Op, psi: Ket, phi: Ket, I: Interp)
    ensures Eval(BraKet(psi, OperatorTimesKet(Adjoint(a), phi)), I)
         == Sum(I.dim, k => Sum(I.dim, x => Mul(Conj(KetComp(psi, I, k)), Mul(Conj(OpEntry(a, I, x, k)), KetComp(phi, I, x)))))
  {
    var n := I.dim;
    var f := k => Mul(Conj(KetComp(psi, I, k)), KetComp(OperatorTimesKet(Adjoint(a), phi), I, k));
    var g := k => Sum(n, x => Mul(Conj(KetComp(psi, I, k)), Mul(Conj(OpEntry(a, I, x, k)), KetComp(phi, I, x))));
    assert Eval(BraKet(psi, OperatorTimesKet(Adjoint(a), phi)), I) == Sum(n, f);
    assert Sum(n, f) == Sum(n, g) by {
      forall k | 0 <= k < n ensures f(k) == g(k) {
        KetOfAdjointRow(a, psi, phi, I, k);
      }
      SumExt(n, f, g);
    }
  }

  lemma {:induction false} KetOfAdjointRow(a: Op, psi: Ket, phi: Ket, I: Interp, k: int)
    ensures Mul(Conj(KetComp(psi, I, k)), KetComp(OperatorTimesKet(Adjoint(a), phi), I, k))
         == Sum(I.dim, x => Mul(Conj(KetComp(psi, I, k)), Mul(Conj(OpEntry(a, I, x, k)), KetComp(phi, I, x))))
  {
    var c := Conj(KetComp(psi, I, k));
    var f := x => Mul(OpEntry(Adjoint(a), I, k, x), KetComp(phi, I, x));
    var h := x => Mul(c, Mul(Conj(OpEntry(a, I, x, k)), KetComp(phi, I, x)));
    assert Sum(I.dim, h) == Mul(c, Sum(I.dim, f)) by {
      forall x | 0 <= x < I.dim ensures h(x) == Mul(c, f(x)) {
        EntryAdjoint(a, I, k, x);
      }
      SumScaleLeft(I.dim, c, f, h);
    }
  }

  /** <A Psi|Phi> = <Psi|A^dagger Phi>: the adjoint moves an operator across the bra-ket. */
  lemma {:induction false} BkR007Sound(a: Op, psi: Ket, phi: Ket, I: Interp)
    ensures Eval(BraKet(psi, OperatorTimesKet(Adjoint(a), phi)), I) == Eval(BraKet(OperatorTimesKet(a, psi), phi), I)
  {
    var n := I.dim;
    var G := (i, j) => Mul(Conj(KetComp(psi, I, i)), Mul(Conj(OpEntry(a, I, j, i)), KetComp(phi, I, j)));
    assert Eval(BraKet(psi, OperatorTimesKet(Adjoint(a), phi)), I) == Sum(n, i => Sum(n, j => G(i, j))) by {
      KetOfAdjoint(a, psi, phi, I);
      forall i | 0 <= i < n
        ensures Sum(n, x => Mul(Conj(KetComp(psi, I, i)), Mul(Conj(OpEntry(a, I, x, i)), KetComp(phi, I, x))))
             == Sum(n, j => G(i, j))
      {
        SumExt(n, x => Mul(Conj(KetComp(psi, I, i)), Mul(Conj(OpEntry(a, I, x, i)), KetComp(phi, I, x))), j => G(i, j));
      }
      SumExt(n, k => Sum(n, x => Mul(Conj(KetComp(psi, I, k)), Mul(Conj(OpEntry(a, I, x, k)), KetComp(phi, I, x)))),
                i => Sum(n, j => G(i, j)));
    }
    SumSwap(n, n, G);
    assert Sum(n, j => Sum(n, i => G(i, j))) == Eval(BraKet(OperatorTimesKet(a, psi), phi), I) by {
      BraOfProduct(a, psi, phi, I);
      forall j | 0 <= j < n
        ensures Sum(n, i => G(i, j)) == Sum(n, x => Mul(Conj(OpEntry(a, I, j, x)), Mul(Conj(KetComp(psi, I, x)), KetComp(phi, I, j))))
      {
        forall i | 0 <= i < n
          ensures G(i, j) == Mul(Conj(OpEntry(a, I, j, i)), Mul(Conj(KetComp(psi, I, i)), KetComp(phi, I, j)))
        {
          MulSwapLeft(Conj(KetComp(psi, I, i)), Conj(OpEntry(a, I, j, i)), KetComp(phi, I, j));
        }
        SumExt(n, i => G(i, j), x => Mul(Conj(OpEntry(a, I, j, x)), Mul(Conj(KetComp(psi, I, x)), KetComp(phi, I, j))));
      }
      SumExt(n, j => Sum(n, i => G(i, j)),
                k => Sum(n, x => Mul(Conj(OpEntry(a, I, k, x)), Mul(Conj(KetComp(psi, I, x)), KetComp(phi, I, k)))));
    }
  }

  /** Every rule of the table gives a scalar with the value of <Psi|Phi>. */
  lemma {:induction false} BraKetRulesSound(k: nat, psi: Ket, phi: Ket, r: Scalar, I: Interp)
    requires k < |BraKetRules()| && BraKetRules()[k].fire((psi, phi)) == Some(r)
    requires BraKetSide(psi, I)
    ensures Eval(r, I) == Eval(BraKet(psi, phi), I)
  {
    match k
    case 0 => BkZero(psi, phi, I);
    case 1 => BkZero(psi, phi, I);
    case 2 => BkR003Sound(psi, phi, I);
    case 3 =>
    case 4 => BkR006Sound(psi.coeff, psi.term, phi, I);
    case 5 => BkR007Sound(psi.op, psi.term, phi, I);
    case 6 => BkR008Sound(phi.coeff, psi, phi.term, I);
  }

  // ---------------------------------------------------------------------
  // KetBra: rules on (Psi, Phi), meaning |Psi><Phi|
  // ---------------------------------------------------------------------

  /** |m><n| of two basis kets of one space is LocalSigma(m, n) */
  function KbR001(args: (Ket, Ket)): Option<Op>
  {
    match args
    case (BasisKet(m, ls), BasisKet(n, ls')) => if ls == ls' then Some(LocalSigma(m, n, ls)) else None
    case _ => None
  }

  /** |A Psi><Phi| = A |Psi><Phi| */
  function KbR005(args: (Ket, Ket)): Option<Op>
  {
    match args.0
    case OperatorTimesKet(a, psi) => Some(OperatorTimes([a, KetBra(psi, args.1)]))
    case _ => None
  }

  /** |Psi><A Phi| = |Psi><Phi| A^dagger */
  function KbR006(args: (Ket, Ket)): Option<Op>
  {
    match args.1
    case OperatorTimesKet(a, phi) => Some(OperatorTimes([KetBra(args.0, phi), Adjoint(a)]))
    case _ => None
  }

  /** |u Psi><Phi| = u |Psi><Phi| */
  function KbR007(args: (Ket, Ket)): Option<Op>
  {
    match args.0
    case ScalarTimesKet(u, psi) => Some(ScalarTimesOperator(u, KetBra(psi, args.1)))
    case _ => None
  }

  /** |Psi><u Phi| = conj(u) |Psi><Phi| */
  function KbR008(args: (Ket, Ket)): Option<Op>
  {
    match args.1
    case ScalarTimesKet(u, phi) => Some(ScalarTimesOperator(Conjugate(u), KetBra(args.0, phi)))
    case _ => None
  }

  function KetBraRules(): seq<Rule<(Ket, Ket), Op>>
  {
    [Rule("R001", KbR001), Rule("R005", KbR005), Rule("R006", KbR006), Rule("R007", KbR007), Rule("R008", KbR008)]
  }

  lemma {:induction false} KbR001Sound(psi: Ket, phi: Ket, r: Op, I: Interp, i: int, j: int)
    requires KbR001((psi, phi)) == Some(r)
    ensures OpEntry(r, I, i, j) == OpEntry(KetBra(psi, phi), I, i, j)
  {
    MulOne(One);
    MulZero(One);
    MulZero(Zero);
  }

  lemma {:induction false} KbR005Sound(a: Op, psi: Ket, phi: Ket, I: Interp, i: int, j: int)
    requires InRange(I, j)
    ensures OpEntry(OperatorTimes([a, KetBra(psi, phi)]), I, i, j) == OpEntry(KetBra(OperatorTimesKet(a, psi), phi), I, i, j)
  {
    var c := Conj(KetComp(phi, I, j));
    var p := x => Mul(OpEntry(a, I, i, x), KetComp(psi, I, x));
    var h := k => Mul(OpEntry(a, I, i, k), OpEntry(KetBra(psi, phi), I, k, j));
    EntryTimesPair(a, KetBra(psi, phi), I, i, j);
    assert ProdEntry(a, KetBra(psi, phi), I, i, j) == Sum(I.dim, h);
    forall k | 0 <= k < I.dim ensures h(k) == Mul(p(k), c) {
      assert OpEntry(KetBra(psi, phi), I, k, j) == Mul(KetComp(psi, I, k), c);
      MulAssoc(OpEntry(a, I, i, k), KetComp(psi, I, k), c);
    }
    SumScaleRight(I.dim, p, c, h);
    CompApplied(a, psi, I, i);
    assert OpEntry(KetBra(OperatorTimesKet(a, psi), phi), I, i, j) == Mul(KetComp(OperatorTimesKet(a, psi), I, i), c);
  }

  /** One term of the product |Psi><Phi| A^dagger, entry (i, j). */
  lemma {:induction false} KbR006Term(a: Op, psi: Ket, phi: Ket, I: Interp, i: int, j: int, k: int)
    ensures Mul(OpEntry(KetBra(psi, phi), I, i, k), OpEntry(Adjoint(a), I, k, j))
         == Mul(KetComp(psi, I, i), Mul(Conj(OpEntry(a, I, j, k)), Conj(KetComp(phi, I, k))))
  {
    var c := KetComp(psi, I, i);
    EntryAdjoint(a, I, k, j);
    assert OpEntry(KetBra(psi, phi), I, i, k) == Mul(c, Conj(KetComp(phi, I, k)));
    MulAssoc(c, Conj(KetComp(phi, I, k)), Conj(OpEntry(a, I, j, k)));
    MulComm(Conj(KetComp(phi, I, k)), Conj(OpEntry(a, I, j, k)));
  }

  /** Entry (i, j) of the matrix product |Psi><Phi| A^dagger. */
  lemma {:induction false} KbR006Product(a: Op, psi: Ket, phi: Ket, I: Interp, i: int, j: int)
    ensures ProdEntry(KetBra(psi, phi), Adjoint(a), I, i, j)
         == Mul(KetComp(psi, I, i), Sum(I.dim, x => Mul(Conj(OpEntry(a, I, j, x)), Conj(KetComp(phi, I, x)))))
  {
    var n := I.dim;
    var c := KetComp(psi, I, i);
    var q := x => Mul(Conj(OpEntry(a, I, j, x)), Conj(KetComp(phi, I, x)));
    var h := k => Mul(OpEntry(KetBra(psi, phi), I, i, k), OpEntry(Adjoint(a), I, k, j));
    assert ProdEntry(KetBra(psi, phi), Adjoint(a), I, i, j) == Sum(n, h);
    forall k | 0 <= k < n ensures h(k) == Mul(c, q(k)) {
      KbR006Term(a, psi, phi, I, i, j, k);
    }
    SumScaleLeft(n, c, q, h);
  }

  lemma {:induction false} KbR006Sound(a: Op, psi: Ket, phi: Ket, I: Interp, i: int, j: int)
    requires InRange(I, j)
    ensures OpEntry(OperatorTimes([KetBra(psi, phi), Adjoint(a)]), I, i, j) == OpEntry(KetBra(psi, OperatorTimesKet(a, phi)), I, i, j)
  {
    EntryTimesPair(KetBra(psi, phi), Adjoint(a), I, i, j);
    KbR006Product(a, psi, phi, I, i, j);
    ConjOfAction(a, phi, I, j);
    assert OpEntry(KetBra(psi, OperatorTimesKet(a, phi)), I, i, j) == Mul(KetComp(psi, I, i), Conj(KetComp(OperatorTimesKet(a, phi), I, j)));
  }

  /** The conjugate of a component of A Phi. */
  lemma {:induction false} ConjOfAction(a: Op, phi: Ket, I: Interp, j: int)
    ensures Conj(KetComp(OperatorTimesKet(a, phi), I, j)) == Sum(I.dim, x => Mul(Conj(OpEntry(a, I, j, x)), Conj(KetComp(phi, I, x))))
  {
    var p := x => Mul(OpEntry(a, I, j, x), KetComp(phi, I, x));
    var q := x => Mul(Conj(OpEntry(a, I, j, x)), Conj(KetComp(phi, I, x)));
    forall x | 0 <= x < I.dim ensures q(x) == Conj(p(x)) {
      ConjMul(OpEntry(a, I, j, x), KetComp(phi, I, x));
    }
    SumConj(I.dim, p, q);
  }

  /** Every rule of the table gives an operator with the matrix of |Psi><Phi|. */
  /** |u Psi><Phi| = u |Psi><Phi|, entry by entry. */
  lemma {:induction false} KbR007Sound(u: Scalar, psi: Ket, phi: Ket, I: Interp, i: int, j: int)
    ensures OpEntry(ScalarTimesOperator(u, KetBra(psi, phi)), I, i, j) == OpEntry(KetBra(ScalarTimesKet(u, psi), phi), I, i, j)
  {
    var c, p, q := Eval(u, I), KetComp(psi, I, i), KetComp(phi, I, j);
    assert OpEntry(ScalarTimesOperator(u, KetBra(psi, phi)), I, i, j) == Mul(c, Mul(p, Conj(q)));
    assert OpEntry(KetBra(ScalarTimesKet(u, psi), phi), I, i, j) == Mul(Mul(c, p), Conj(q));
    MulAssoc(c, p, Conj(q));
  }

  /** |Psi><u Phi| = conj(u) |Psi><Phi|, entry by entry. */
  lemma {:induction false} KbR008Sound(u: Scalar, psi: Ket, phi: Ket, I: Interp, i: int, j: int)
    ensures OpEntry(ScalarTimesOperator(Conjugate(u), KetBra(psi, phi)), I, i, j) == OpEntry(KetBra(psi, ScalarTimesKet(u, phi)), I, i, j)
  {
    var c, p, q := Eval(u, I), KetComp(psi, I, i), KetComp(phi, I, j);
    assert Eval(Conjugate(u), I) == Conj(c);
    assert OpEntry(ScalarTimesOperator(Conjugate(u), KetBra(psi, phi)), I, i, j) == Mul(Conj(c), Mul(p, Conj(q)));
    assert OpEntry(KetBra(psi, ScalarTimesKet(u, phi)), I, i, j) == Mul(p, Conj(Mul(c, q)));
    ConjMul(c, q);
    MulSwapLeft(p, Conj(c), Conj(q));
  }

  /** Every rule of the table gives an operator equal to |Psi><Phi|. */
  lemma {:induction false} KetBraRulesSound(k: nat, psi: Ket, phi: Ket, r: Op, I: Interp)
    requires k < |KetBraRules()| && KetBraRules()[k].fire((psi, phi)) == Some(r)
    ensures OpEquiv(r, KetBra(psi, phi), I)
  {
    forall i, j | InRange(I, i) && InRange(I, j) ensures OpEntry(r, I, i, j) == OpEntry(KetBra(psi, phi), I, i, j) {
      match k
      case 0 => KbR001Sound(psi, phi, r, I, i, j);
      case 1 => KbR005Sound(psi.op, psi.term, phi, I, i, j);
      case 2 => KbR006Sound(phi.op, psi, phi.term, I, i, j);
      case 3 => KbR007Sound(psi.coeff, psi.term, phi, I, i, j);
      case 4 => KbR008Sound(phi.coeff, psi, phi.term, I, i, j);
    }
  }

  // ---------------------------------------------------------------------
  // KetIndexedSum: rules on (term, ranges), meaning the indexed sum
  // ---------------------------------------------------------------------

  /** `pull_constfactor_from_sum` for kets: u * sum(Psi) when no index symbol
      of the ranges is free in u; otherwise the rule declines. */
  function PullConstFactorFromKetSum(u: Scalar, psi: Ket, ranges: seq<IndexRange>): (r: Option<Ket>)
    ensures r.Some? <==> forall k :: 0 <= k < |ranges| ==> ranges[k].sym !in FreeSymbols(u)
  {
    if FreeSymbols(u) !! BoundSymbols(ranges) then Some(ScalarTimesKet(u, KetIndexedSum(psi, ranges)))
    else None
  }

  /** A sum over ZeroKet is ZeroKet. */
  function KsR001(args: (Ket, seq<IndexRange>)): Option<Ket>
  {
    if args.0 == ZeroKet then Some(ZeroKet) else None
  }

  /** A constant factor comes out of the sum. */
  function KsR002(args: (Ket, seq<IndexRange>)): Option<Ket>
  {
    match args.0
    case ScalarTimesKet(u, psi) => PullConstFactorFromKetSum(u, psi, args.1)
    case _ => None
  }

  function KetIndexedSumRules(): seq<Rule<(Ket, seq<IndexRange>), Ket>>
  {
    [Rule("R001", KsR001), Rule("R002", KsR002)]
  }

  lemma {:induction false} KsR002Sound(t: Ket, ranges: seq<IndexRange>, r: Ket, I: Interp, i: int)
    requires KsR002((t, ranges)) == Some(r)
    ensures KetComp(r, I, i) == KetComp(KetIndexedSum(t, ranges), I, i)
  {
    var u, psi := t.coeff, t.term;
    var B := BoundSymbols(ranges);
    forall K | SameExcept(I, K, B) ensures KetComp(t, K, i) == Mul(Eval(u, I), KetComp(psi, K, i)) {
      Coincide(u, I, K, B);
    }
    RangeSumScale(ranges, I, Eval(u, I), J => KetComp(psi, J, i), J => KetComp(t, J, i));
  }

  /** Both indexed-sum rules keep the components of the sum, with no side condition. */
  lemma {:induction false} KetIndexedSumRulesSound(k: nat, t: Ket, ranges: seq<IndexRange>, r: Ket, I: Interp)
    requires k < |KetIndexedSumRules()| && KetIndexedSumRules()[k].fire((t, ranges)) == Some(r)
    ensures KetEquiv(r, KetIndexedSum(t, ranges), I)
  {
    forall i | InRange(I, i) ensures KetComp(r, I, i) == KetComp(KetIndexedSum(t, ranges), I, i) {
      if k == 0 {
        RangeSumOfZero(ranges, I, J => KetComp(t, J, i));
      } else {
        KsR002Sound(t, ranges, r, I, i);
      }
    }
  }
}
