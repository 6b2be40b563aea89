/**
 * Laws of the semantics that the soundness proofs of the rule tables use:
 * products of operators, congruence and linearity of super-operators in the
 * matrix they act on, sums over index ranges, and the fact that a value does
 * not depend on symbols that are not free in it.
 */
module Laws {
  import opened Complex
  import opened Expressions
  import opened Semantics

  // ---------------------------------------------------------------------
  // Operator products
  // ---------------------------------------------------------------------

  // Entries of the compound operators, one constructor at a time.

  lemma {:induction false} EntryScaled(u: Scalar, t: Op, I: Interp, i: int, j: int)
    ensures OpEntry(ScalarTimesOperator(u, t), I, i, j) == Mul(Eval(u, I), OpEntry(t, I, i, j))
  {
  }

  lemma {:induction false} EntryPlus(ts: seq<Op>, I: Interp, i: int, j: int)
    ensures OpEntry(OperatorPlus(ts), I, i, j) == PlusEntry(ts, I, i, j)
  {
  }

  lemma {:induction false} EntryTimes(ts: seq<Op>, I: Interp, i: int, j: int)
    ensures OpEntry(OperatorTimes(ts), I, i, j) == TimesEntry(ts, I, i, j)
  {
  }

  lemma {:induction false} CompApplied(a: Op, psi: Ket, I: Interp, i: int)
    ensures KetComp(OperatorTimesKet(a, psi), I, i) == Sum(I.dim, x => Mul(OpEntry(a, I, i, x), KetComp(psi, I, x)))
  {
  }

  lemma {:induction false} CompIndexed(t: Ket, rs: seq<IndexRange>, I: Interp, i: int)
    ensures KetComp(KetIndexedSum(t, rs), I, i) == RangeSum(rs, I, J => KetComp(t, J, i))
  {
  }

  /** Term k of entry (i, j) of [X, Y]. */
  function CommutatorTerm(x: Op, y: Op, I: Interp, i: int, j: int, k: int): C
  {
    Sub(Mul(OpEntry(x, I, i, k), OpEntry(y, I, k, j)), Mul(OpEntry(y, I, i, k), OpEntry(x, I, k, j)))
  }

  lemma {:induction false} EntryCommutator(x: Op, y: Op, I: Interp, i: int, j: int)
    ensures OpEntry(Commutator(x, y), I, i, j) == Sum(I.dim, k => CommutatorTerm(x, y, I, i, j, k))
  {
    SumExt(I.dim, k => Sub(Mul(OpEntry(x, I, i, k), OpEntry(y, I, k, j)), Mul(OpEntry(y, I, i, k), OpEntry(x, I, k, j))),
                  k => CommutatorTerm(x, y, I, i, j, k));
  }

  lemma {:induction false} EntryAdjoint(t: Op, I: Interp, i: int, j: int)
    ensures OpEntry(Adjoint(t), I, i, j) == Conj(OpEntry(t, I, j, i))
  {
  }

  lemma {:induction false} EntryTrace(over: Space, t: Op, I: Interp, i: int, j: int)
    ensures OpEntry(OperatorTrace(over, t), I, i, j) ==
      if over.TrivialSpace? then OpEntry(t, I, i, j)
      else if i == j then Sum(I.dim, k => OpEntry(t, I, k, k))
      else Zero
  {
  }

  /** A sum of two operators. */
  lemma {:induction false} PlusPair(p: Op, q: Op, I: Interp, i: int, j: int)
    ensures PlusEntry([p, q], I, i, j) == Add(OpEntry(p, I, i, j), OpEntry(q, I, i, j))
  {
    assert [p, q][1..] == [q];
    assert [q][1..] == [];
    assert PlusEntry([q], I, i, j) == Add(OpEntry(q, I, i, j), PlusEntry([], I, i, j));
    AddZero(OpEntry(q, I, i, j));
  }

  /** Every entry of a product with a zero factor vanishes. */
  lemma {:induction false} ProdZero(a: Op, b: Op, I: Interp, i: int, j: int)
    requires a == ZeroOperator || b == ZeroOperator
    ensures ProdEntry(a, b, I, i, j) == Zero
  {
    forall k | 0 <= k < I.dim ensures Mul(OpEntry(a, I, i, k), OpEntry(b, I, k, j)) == Zero {
      MulZero(OpEntry(a, I, i, k));
      MulZero(OpEntry(b, I, k, j));
    }
    SumOfZero(I.dim, k => Mul(OpEntry(a, I, i, k), OpEntry(b, I, k, j)));
  }

  /** A product with one factor is that factor. */
  lemma {:induction false} TimesSingle(a: Op, I: Interp, i: int, j: int)
    requires InRange(I, j)
    ensures TimesEntry([a], I, i, j) == OpEntry(a, I, i, j)
  {
    var ts := [a];
    var f := k => Mul(OpEntry(ts[0], I, i, k), TimesEntry(ts[1..], I, k, j));
    assert ts[1..] == [];
    forall k | 0 <= k < I.dim && k != j ensures f(k) == Zero {
      assert TimesEntry([], I, k, j) == Zero;
      MulZero(OpEntry(a, I, i, k));
    }
    assert f(j) == OpEntry(a, I, i, j) by {
      assert TimesEntry([], I, j, j) == One;
      MulOne(OpEntry(a, I, i, j));
    }
    SumSingle(I.dim, j, f);
  }

  /** A product with two factors is their matrix product. */
  lemma {:induction false} TimesPair(a: Op, b: Op, I: Interp, i: int, j: int)
    requires InRange(I, j)
    ensures TimesEntry([a, b], I, i, j) == ProdEntry(a, b, I, i, j)
  {
    var ts := [a, b];
    assert ts[1..] == [b];
    forall k | 0 <= k < I.dim ensures TimesEntry(ts[1..], I, k, j) == OpEntry(b, I, k, j) {
      TimesSingle(b, I, k, j);
    }
    SumExt(I.dim, k => Mul(OpEntry(ts[0], I, i, k), TimesEntry(ts[1..], I, k, j)),
                  k => Mul(OpEntry(a, I, i, k), OpEntry(b, I, k, j)));
  }

  /** Entry (i, j) of A B as a sum over the rows of A and the columns of B. */
  lemma {:induction false} ProdAsSum(a: Op, b: Op, I: Interp, i: int, j: int)
    ensures ProdEntry(a, b, I, i, j) == Sum(I.dim, k => Mul((k => OpEntry(a, I, i, k))(k), (k => OpEntry(b, I, k, j))(k)))
  {
    var f := k => OpEntry(a, I, i, k);
    var g := k => OpEntry(b, I, k, j);
    SumExt(I.dim, k => Mul(OpEntry(a, I, i, k), OpEntry(b, I, k, j)), k => Mul(f(k), g(k)));
  }

  /** A product of two factors is the matrix product. */
  lemma {:induction false} EntryTimesPair(a: Op, b: Op, I: Interp, i: int, j: int)
    requires InRange(I, j)
    ensures OpEntry(OperatorTimes([a, b]), I, i, j) == ProdEntry(a, b, I, i, j)
  {
    TimesPair(a, b, I, i, j);
    EntryTimes([a, b], I, i, j);
  }

  /** If row i of A is c times row i of A', then (A B)[i, j] = c (A' B)[i, j]. */
  lemma {:induction false} ProdScaleLeft(a: Op, a': Op, b: Op, c: C, I: Interp, i: int, j: int)
    requires forall k :: 0 <= k < I.dim ==> OpEntry(a, I, i, k) == Mul(c, OpEntry(a', I, i, k))
    ensures ProdEntry(a, b, I, i, j) == Mul(c, ProdEntry(a', b, I, i, j))
  {
    ProdAsSum(a, b, I, i, j);
    ProdAsSum(a', b, I, i, j);
    SumMulScaleLeft(I.dim, c, k => OpEntry(a, I, i, k), k => OpEntry(a', I, i, k), k => OpEntry(b, I, k, j));
  }

  /** If column j of B is c times column j of B', then (A B)[i, j] = c (A B')[i, j]. */
  lemma {:induction false} ProdScaleRight(a: Op, b: Op, b': Op, c: C, I: Interp, i: int, j: int)
    requires forall k :: 0 <= k < I.dim ==> OpEntry(b, I, k, j) == Mul(c, OpEntry(b', I, k, j))
    ensures ProdEntry(a, b, I, i, j) == Mul(c, ProdEntry(a, b', I, i, j))
  {
    ProdAsSum(a, b, I, i, j);
    ProdAsSum(a, b', I, i, j);
    SumMulScaleRight(I.dim, c, k => OpEntry(a, I, i, k), k => OpEntry(b, I, k, j), k => OpEntry(b', I, k, j));
  }

  /** The value of a product of two scalars. */
  lemma {:induction false} EvalPair(u: Scalar, v: Scalar, I: Interp)
    ensures Eval(ScalarTimes([u, v]), I) == Mul(Eval(u, I), Eval(v, I))
  {
    assert [u, v][1..] == [v];
    assert [v][1..] == [];
    assert ProductValue([v], I) == Eval(v, I);
  }

  /** Entry (i, j) of F (G H) equals entry (i, j) of (F G) H, for n x n matrices. */
  lemma {:induction false} MatMulAssoc(n: nat, F: (int, int) -> C, G: (int, int) -> C, H: (int, int) -> C, i: int, j: int)
    ensures Sum(n, k => Mul(F(i, k), Sum(n, l => Mul(G(k, l), H(l, j)))))
         == Sum(n, l => Mul(Sum(n, k => Mul(F(i, k), G(k, l))), H(l, j)))
  {
    var T := (k, l) => Mul(F(i, k), Mul(G(k, l), H(l, j)));
    forall k | 0 <= k < n
      ensures Mul(F(i, k), Sum(n, l => Mul(G(k, l), H(l, j)))) == Sum(n, l => T(k, l))
    {
      SumScaleLeft(n, F(i, k), l => Mul(G(k, l), H(l, j)), l => T(k, l));
    }
    SumExt(n, k => Mul(F(i, k), Sum(n, l => Mul(G(k, l), H(l, j)))), k => Sum(n, l => T(k, l)));
    SumSwap(n, n, T);
    forall l | 0 <= l < n
      ensures Sum(n, k => T(k, l)) == Mul(Sum(n, k => Mul(F(i, k), G(k, l))), H(l, j))
    {
      forall k | 0 <= k < n ensures T(k, l) == Mul(Mul(F(i, k), G(k, l)), H(l, j)) {
        MulAssoc(F(i, k), G(k, l), H(l, j));
      }
      SumScaleRight(n, k => Mul(F(i, k), G(k, l)), H(l, j), k => T(k, l));
    }
    SumExt(n, l => Sum(n, k => T(k, l)), l => Mul(Sum(n, k => Mul(F(i, k), G(k, l))), H(l, j)));
  }

  // ---------------------------------------------------------------------
  // Super-operators: congruence and linearity in the matrix they act on
  // ---------------------------------------------------------------------

  /** Two matrices with the same entries inside the local space. */
  ghost predicate AgreeIn(I: Interp, X: (int, int) -> C, Y: (int, int) -> C)
  {
    forall a, b :: InRange(I, a) && InRange(I, b) ==> X(a, b) == Y(a, b)
  }

  /** The matrix c X. */
  function Scaled(c: C, X: (int, int) -> C): (int, int) -> C
  {
    (x, y) => Mul(c, X(x, y))
  }

  lemma {:induction false} SopExt(s: SuperOp, I: Interp, X: (int, int) -> C, Y: (int, int) -> C, i: int, j: int)
    requires AgreeIn(I, X, Y) && InRange(I, i) && InRange(I, j)
    ensures SopEntry(s, I, X, i, j) == SopEntry(s, I, Y, i, j)
    decreases s
  {
    match s
    case IdentitySuperOperator =>
    case ZeroSuperOperator =>
    case SuperOperatorSymbol(n, _) =>
      var rowX := k => Sum(I.dim, l => Mul(I.sopSym(n)(i, j, k, l), X(k, l)));
      var rowY := k => Sum(I.dim, l => Mul(I.sopSym(n)(i, j, k, l), Y(k, l)));
      forall k | 0 <= k < I.dim ensures rowX(k) == rowY(k) {
        SumExt(I.dim, l => Mul(I.sopSym(n)(i, j, k, l), X(k, l)), l => Mul(I.sopSym(n)(i, j, k, l), Y(k, l)));
      }
      SumExt(I.dim, rowX, rowY);
    case SPre(a) =>
      SumExt(I.dim, k => Mul(OpEntry(a, I, i, k), X(k, j)), k => Mul(OpEntry(a, I, i, k), Y(k, j)));
    case SPost(a) =>
      SumExt(I.dim, k => Mul(X(i, k), OpEntry(a, I, k, j)), k => Mul(Y(i, k), OpEntry(a, I, k, j)));
    case ScalarTimesSuperOperator(_, t) =>
      SopExt(t, I, X, Y, i, j);
    case SuperOperatorPlus(ts) =>
      SopPlusExt(ts, I, X, Y, i, j);
    case SuperOperatorTimes(ts) =>
      SopTimesExt(ts, I, X, Y, i, j);
    case SuperAdjoint(t) =>
      var rowX := a => Sum(I.dim, b => Mul(X(a, b), SopEntry(t, I, Unit(j, i), b, a)));
      var rowY := a => Sum(I.dim, b => Mul(Y(a, b), SopEntry(t, I, Unit(j, i), b, a)));
      forall a | 0 <= a < I.dim ensures rowX(a) == rowY(a) {
        SumExt(I.dim, b => Mul(X(a, b), SopEntry(t, I, Unit(j, i), b, a)),
                      b => Mul(Y(a, b), SopEntry(t, I, Unit(j, i), b, a)));
      }
      SumExt(I.dim, rowX, rowY);
  }

  lemma {:induction false} SopPlusExt(ts: seq<SuperOp>, I: Interp, X: (int, int) -> C, Y: (int, int) -> C, i: int, j: int)
    requires AgreeIn(I, X, Y) && InRange(I, i) && InRange(I, j)
    ensures SopPlusEntry(ts, I, X, i, j) == SopPlusEntry(ts, I, Y, i, j)
    decreases ts
  {
    if |ts| > 0 {
      SopExt(ts[0], I, X, Y, i, j);
      SopPlusExt(ts[1..], I, X, Y, i, j);
    }
  }

  lemma {:induction false} SopTimesExt(ts: seq<SuperOp>, I: Interp, X: (int, int) -> C, Y: (int, int) -> C, i: int, j: int)
    requires AgreeIn(I, X, Y) && InRange(I, i) && InRange(I, j)
    ensures SopTimesEntry(ts, I, X, i, j) == SopTimesEntry(ts, I, Y, i, j)
    decreases ts
  {
    if |ts| > 0 {
      var X' := (x, y) => SopTimesEntry(ts[1..], I, X, x, y);
      var Y' := (x, y) => SopTimesEntry(ts[1..], I, Y, x, y);
      forall a, b | InRange(I, a) && InRange(I, b) ensures X'(a, b) == Y'(a, b) {
        SopTimesExt(ts[1..], I, X, Y, a, b);
      }
      SopExt(ts[0], I, X', Y', i, j);
    }
  }

  /** A super-operator is linear: s(c X) = c s(X). */
  lemma {:induction false} SopScale(s: SuperOp, I: Interp, c: C, X: (int, int) -> C, i: int, j: int)
    requires InRange(I, i) && InRange(I, j)
    ensures SopEntry(s, I, Scaled(c, X), i, j) == Mul(c, SopEntry(s, I, X, i, j))
    decreases s
  {
    var cX := Scaled(c, X);
    match s
    case IdentitySuperOperator =>
    case ZeroSuperOperator =>
    case SuperOperatorSymbol(n, _) =>
      var rowX := k => Sum(I.dim, l => Mul(I.sopSym(n)(i, j, k, l), X(k, l)));
      var rowcX := k => Sum(I.dim, l => Mul(I.sopSym(n)(i, j, k, l), cX(k, l)));
      forall k | 0 <= k < I.dim ensures rowcX(k) == Mul(c, rowX(k)) {
        forall l | 0 <= l < I.dim
          ensures Mul(I.sopSym(n)(i, j, k, l), cX(k, l)) == Mul(c, Mul(I.sopSym(n)(i, j, k, l), X(k, l)))
        {
          MulAssoc(I.sopSym(n)(i, j, k, l), c, X(k, l));
          MulComm(I.sopSym(n)(i, j, k, l), c);
          MulAssoc(c, I.sopSym(n)(i, j, k, l), X(k, l));
        }
        SumScaleLeft(I.dim, c, l => Mul(I.sopSym(n)(i, j, k, l), X(k, l)), l => Mul(I.sopSym(n)(i, j, k, l), cX(k, l)));
      }
      SumScaleLeft(I.dim, c, rowX, rowcX);
    case SPre(a) =>
      forall k | 0 <= k < I.dim ensures Mul(OpEntry(a, I, i, k), cX(k, j)) == Mul(c, Mul(OpEntry(a, I, i, k), X(k, j))) {
        MulAssoc(OpEntry(a, I, i, k), c, X(k, j));
        MulComm(OpEntry(a, I, i, k), c);
        MulAssoc(c, OpEntry(a, I, i, k), X(k, j));
      }
      SumScaleLeft(I.dim, c, k => Mul(OpEntry(a, I, i, k), X(k, j)), k => Mul(OpEntry(a, I, i, k), cX(k, j)));
    case SPost(a) =>
      forall k | 0 <= k < I.dim ensures Mul(cX(i, k), OpEntry(a, I, k, j)) == Mul(c, Mul(X(i, k), OpEntry(a, I, k, j))) {
        MulAssoc(c, X(i, k), OpEntry(a, I, k, j));
      }
      SumScaleLeft(I.dim, c, k => Mul(X(i, k), OpEntry(a, I, k, j)), k => Mul(cX(i, k), OpEntry(a, I, k, j)));
    case ScalarTimesSuperOperator(u, t) =>
      SopScale(t, I, c, X, i, j);
      MulAssoc(Eval(u, I), c, SopEntry(t, I, X, i, j));
      MulComm(Eval(u, I), c);
      MulAssoc(c, Eval(u, I), SopEntry(t, I, X, i, j));
    case SuperOperatorPlus(ts) =>
      SopPlusScale(ts, I, c, X, i, j);
    case SuperOperatorTimes(ts) =>
      SopTimesScale(ts, I, c, X, i, j);
    case SuperAdjoint(t) =>
      var rowX := a => Sum(I.dim, b => Mul(X(a, b), SopEntry(t, I, Unit(j, i), b, a)));
      var rowcX := a => Sum(I.dim, b => Mul(cX(a, b), SopEntry(t, I, Unit(j, i), b, a)));
      forall a | 0 <= a < I.dim ensures rowcX(a) == Mul(c, rowX(a)) {
        forall b | 0 <= b < I.dim
          ensures Mul(cX(a, b), SopEntry(t, I, Unit(j, i), b, a)) == Mul(c, Mul(X(a, b), SopEntry(t, I, Unit(j, i), b, a)))
        {
          MulAssoc(c, X(a, b), SopEntry(t, I, Unit(j, i), b, a));
        }
        SumScaleLeft(I.dim, c, b => Mul(X(a, b), SopEntry(t, I, Unit(j, i), b, a)),
                               b => Mul(cX(a, b), SopEntry(t, I, Unit(j, i), b, a)));
      }
      SumScaleLeft(I.dim, c, rowX, rowcX);
  }

  lemma {:induction false} SopPlusScale(ts: seq<SuperOp>, I: Interp, c: C, X: (int, int) -> C, i: int, j: int)
    requires InRange(I, i) && InRange(I, j)
    ensures SopPlusEntry(ts, I, Scaled(c, X), i, j) == Mul(c, SopPlusEntry(ts, I, X, i, j))
    decreases ts
  {
    if |ts| > 0 {
      SopScale(ts[0], I, c, X, i, j);
      SopPlusScale(ts[1..], I, c, X, i, j);
      MulAddLeft(c, SopEntry(ts[0], I, X, i, j), SopPlusEntry(ts[1..], I, X, i, j));
    }
  }

  lemma {:induction false} SopTimesScale(ts: seq<SuperOp>, I: Interp, c: C, X: (int, int) -> C, i: int, j: int)
    requires InRange(I, i) && InRange(I, j)
    ensures SopTimesEntry(ts, I, Scaled(c, X), i, j) == Mul(c, SopTimesEntry(ts, I, X, i, j))
    decreases ts
  {
    if |ts| > 0 {
      var Yc := (x, y) => SopTimesEntry(ts[1..], I, Scaled(c, X), x, y);
      var Y := (x, y) => SopTimesEntry(ts[1..], I, X, x, y);
      forall a, b | InRange(I, a) && InRange(I, b) ensures Yc(a, b) == Scaled(c, Y)(a, b) {
        SopTimesScale(ts[1..], I, c, X, a, b);
      }
      SopExt(ts[0], I, Yc, Scaled(c, Y), i, j);
      SopScale(ts[0], I, c, Y, i, j);
    }
  }

  // ---------------------------------------------------------------------
  // Indexed sums
  // ---------------------------------------------------------------------

  /** `J` is `I` with possibly different values for the symbols in `S`. */
  ghost predicate SameExcept(I: Interp, J: Interp, S: set<string>)
  {
    J == I.(val := J.val) && forall s :: s !in S ==> I.val(s) == J.val(s)
  }

  lemma {:induction false} BindSame(I: Interp, J: Interp, S: set<string>, s: string, v: int)
    requires SameExcept(I, J, S)
    ensures SameExcept(Bind(I, s, v), Bind(J, s, v), S - {s})
  {}

  lemma {:induction false} BindWiden(I: Interp, K: Interp, S: set<string>, s: string, v: int)
    requires SameExcept(Bind(I, s, v), K, S)
    ensures SameExcept(I, K, S + {s})
  {}

  lemma {:induction false} SumValuesExt(vs: seq<int>, g: int -> C, h: int -> C)
    requires forall k :: 0 <= k < |vs| ==> g(vs[k]) == h(vs[k])
    ensures SumValues(vs, g) == SumValues(vs, h)
  {
    if |vs| > 0 {
      SumValuesExt(vs[1..], g, h);
    }
  }

  lemma {:induction false} SumValuesScale(vs: seq<int>, c: C, g: int -> C, h: int -> C)
    requires forall k :: 0 <= k < |vs| ==> h(vs[k]) == Mul(c, g(vs[k]))
    ensures SumValues(vs, h) == Mul(c, SumValues(vs, g))
  {
    if |vs| > 0 {
      SumValuesScale(vs[1..], c, g, h);
      MulAddLeft(c, g(vs[0]), SumValues(vs[1..], g));
    }
  }

  /** A factor that does not depend on the index symbols comes out of the sum. */
  lemma {:induction false} RangeSumScale(rs: seq<IndexRange>, I: Interp, c: C, f: Interp -> C, g: Interp -> C)
    requires forall K :: SameExcept(I, K, BoundSymbols(rs)) ==> g(K) == Mul(c, f(K))
    ensures RangeSum(rs, I, g) == Mul(c, RangeSum(rs, I, f))
    decreases |rs|
  {
    if |rs| == 0 {
      assert SameExcept(I, I, {});
    } else {
      var s := rs[0].sym;
      assert BoundSymbols(rs) == BoundSymbols(rs[1..]) + {s};
      forall k | 0 <= k < |RangeValues(rs[0])|
        ensures RangeSum(rs[1..], Bind(I, s, RangeValues(rs[0])[k]), g)
             == Mul(c, RangeSum(rs[1..], Bind(I, s, RangeValues(rs[0])[k]), f))
      {
        var v := RangeValues(rs[0])[k];
        forall K | SameExcept(Bind(I, s, v), K, BoundSymbols(rs[1..])) ensures g(K) == Mul(c, f(K)) {
          BindWiden(I, K, BoundSymbols(rs[1..]), s, v);
        }
        RangeSumScale(rs[1..], Bind(I, s, v), c, f, g);
      }
      SumValuesScale(RangeValues(rs[0]), c, v => RangeSum(rs[1..], Bind(I, rs[0].sym, v), f),
                                            v => RangeSum(rs[1..], Bind(I, rs[0].sym, v), g));
    }
  }

  /** The sum of the zero summand is zero, over any ranges. */
  lemma {:induction false} RangeSumOfZero(rs: seq<IndexRange>, I: Interp, f: Interp -> C)
    requires forall K :: f(K) == Zero
    ensures RangeSum(rs, I, f) == Zero
  {
    RangeSumScale(rs, I, Zero, f, f);
  }

  lemma {:induction false} SumValuesAdd(vs: seq<int>, f: int -> C, g: int -> C, h: int -> C)
    requires forall k :: 0 <= k < |vs| ==> h(vs[k]) == Add(f(vs[k]), g(vs[k]))
    ensures SumValues(vs, h) == Add(SumValues(vs, f), SumValues(vs, g))
  {
    if |vs| > 0 {
      SumValuesAdd(vs[1..], f, g, h);
    }
  }

  /** The indexed sum of a sum of two summands is the sum of their indexed sums. */
  lemma {:induction false} RangeSumAdd(rs: seq<IndexRange>, I: Interp, f: Interp -> C, g: Interp -> C, h: Interp -> C)
    requires forall K :: SameExcept(I, K, BoundSymbols(rs)) ==> h(K) == Add(f(K), g(K))
    ensures RangeSum(rs, I, h) == Add(RangeSum(rs, I, f), RangeSum(rs, I, g))
    decreases |rs|
  {
    if |rs| == 0 {
      assert SameExcept(I, I, {});
    } else {
      var s := rs[0].sym;
      assert BoundSymbols(rs) == BoundSymbols(rs[1..]) + {s};
      forall k | 0 <= k < |RangeValues(rs[0])|
        ensures RangeSum(rs[1..], Bind(I, s, RangeValues(rs[0])[k]), h)
             == Add(RangeSum(rs[1..], Bind(I, s, RangeValues(rs[0])[k]), f),
                    RangeSum(rs[1..], Bind(I, s, RangeValues(rs[0])[k]), g))
      {
        var v := RangeValues(rs[0])[k];
        forall K | SameExcept(Bind(I, s, v), K, BoundSymbols(rs[1..])) ensures h(K) == Add(f(K), g(K)) {
          BindWiden(I, K, BoundSymbols(rs[1..]), s, v);
        }
        RangeSumAdd(rs[1..], Bind(I, s, v), f, g, h);
      }
      SumValuesAdd(RangeValues(rs[0]), v => RangeSum(rs[1..], Bind(I, rs[0].sym, v), f),
                                       v => RangeSum(rs[1..], Bind(I, rs[0].sym, v), g),
                                       v => RangeSum(rs[1..], Bind(I, rs[0].sym, v), h));
    }
  }

  /** An indexed sum and a finite sum over basis states can be exchanged. */
  lemma {:induction false} RangeSumOfSum(rs: seq<IndexRange>, I: Interp, n: nat, g: (Interp, int) -> C)
    ensures RangeSum(rs, I, J => Sum(n, x => g(J, x))) == Sum(n, x => RangeSum(rs, I, J => g(J, x)))
  {
    if n == 0 {
      RangeSumOfZero(rs, I, J => Sum(n, x => g(J, x)));
    } else {
      RangeSumOfSum(rs, I, n - 1, g);
      RangeSumAdd(rs, I, J => Sum(n - 1, x => g(J, x)), J => g(J, n - 1), J => Sum(n, x => g(J, x)));
    }
  }

  /** Sums over the same ranges agree when their summands agree wherever the
      two interpretations agree outside the index symbols. */
  lemma {:induction false} RangeSumCongruence(rs: seq<IndexRange>, I: Interp, J: Interp, S: set<string>,
                                              f: Interp -> C, g: Interp -> C)
    requires SameExcept(I, J, S)
    requires forall K: Interp, L: Interp :: K.dim == I.dim && SameExcept(K, L, S - BoundSymbols(rs)) ==> f(K) == g(L)
    ensures RangeSum(rs, I, f) == RangeSum(rs, J, g)
    decreases |rs|
  {
    if |rs| > 0 {
      var s := rs[0].sym;
      assert S - {s} - BoundSymbols(rs[1..]) == S - BoundSymbols(rs);
      forall k | 0 <= k < |RangeValues(rs[0])|
        ensures RangeSum(rs[1..], Bind(I, s, RangeValues(rs[0])[k]), f)
             == RangeSum(rs[1..], Bind(J, s, RangeValues(rs[0])[k]), g)
      {
        var v := RangeValues(rs[0])[k];
        BindSame(I, J, S, s, v);
        RangeSumCongruence(rs[1..], Bind(I, s, v), Bind(J, s, v), S - {s}, f, g);
      }
      SumValuesExt(RangeValues(rs[0]), v => RangeSum(rs[1..], Bind(I, rs[0].sym, v), f),
                                       v => RangeSum(rs[1..], Bind(J, rs[0].sym, v), g));
    }
  }

  // ---------------------------------------------------------------------
  // Coincidence: values depend on free symbols only
  // ---------------------------------------------------------------------

  lemma {:induction false} LabelCoincide(l: Label, I: Interp, J: Interp, S: set<string>)
    requires SameExcept(I, J, S) && LabelSymbols(l) !! S
    ensures LabelValue(l, I) == LabelValue(l, J)
  {
    if l.LIdx? {
      assert l.sym in LabelSymbols(l);
    }
  }

  lemma {:induction false} Coincide(u: Scalar, I: Interp, J: Interp, S: set<string>)
    requires SameExcept(I, J, S) && FreeSymbols(u) !! S
    ensures Eval(u, I) == Eval(u, J)
    decreases u
  {
    match u
    case Num(_) =>
    case Sym(n) =>
      assert n in FreeSymbols(u);
    case Delta(a, b) =>
      LabelCoincide(a, I, J, S);
      LabelCoincide(b, I, J, S);
    case ScalarTimes(fs) =>
      ListCoincide(fs, I, J, S);
    case ScalarPlus(ts) =>
      ListCoincide(ts, I, J, S);
    case ScalarPower(b, e) =>
      Coincide(b, I, J, S);
      Coincide(e, I, J, S);
    case Conjugate(v) =>
      Coincide(v, I, J, S);
    case BraKet(bra, ket) =>
      forall k | 0 <= k < I.dim
        ensures Mul(Conj(KetComp(bra, I, k)), KetComp(ket, I, k)) == Mul(Conj(KetComp(bra, J, k)), KetComp(ket, J, k))
      {
        KetCoincide(bra, I, J, S, k);
        KetCoincide(ket, I, J, S, k);
      }
      SumExt(I.dim, k => Mul(Conj(KetComp(bra, I, k)), KetComp(ket, I, k)),
                    k => Mul(Conj(KetComp(bra, J, k)), KetComp(ket, J, k)));
    case ScalarIndexedSum(t, rs) =>
      var S' := S - BoundSymbols(rs);
      forall K: Interp, L: Interp | K.dim == I.dim && SameExcept(K, L, S') ensures Eval(t, K) == Eval(t, L) {
        Coincide(t, K, L, S');
      }
      RangeSumCongruence(rs, I, J, S, K => Eval(t, K), K => Eval(t, K));
  }

  lemma {:induction false} ListCoincide(fs: seq<Scalar>, I: Interp, J: Interp, S: set<string>)
    requires SameExcept(I, J, S) && FreeSymbolsList(fs) !! S
    ensures ProductValue(fs, I) == ProductValue(fs, J)
    ensures SumValue(fs, I) == SumValue(fs, J)
    decreases fs
  {
    if |fs| > 0 {
      Coincide(fs[0], I, J, S);
      ListCoincide(fs[1..], I, J, S);
    }
  }

  lemma {:induction false} OpCoincide(a: Op, I: Interp, J: Interp, S: set<string>, i: int, j: int)
    requires SameExcept(I, J, S) && OpFreeSymbols(a) !! S && InRange(I, i) && InRange(I, j)
    ensures OpEntry(a, I, i, j) == OpEntry(a, J, i, j)
    decreases a, 1
  {
    match a
    case IdentityOperator =>
    case ZeroOperator =>
    case OperatorSymbol(_, _) =>
    case LocalSigma(x, y, _) =>
      LabelCoincide(x, I, J, S);
      LabelCoincide(y, I, J, S);
    case Create(_) =>
    case Destroy(_) =>
    case ScalarTimesOperator(u, t) =>
      Coincide(u, I, J, S);
      OpCoincide(t, I, J, S, i, j);
    case OperatorPlus(ts) =>
      PlusCoincide(ts, I, J, S, i, j);
    case OperatorTimes(ts) =>
      TimesCoincide(ts, I, J, S, i, j);
    case Adjoint(t) =>
      OpCoincide(t, I, J, S, j, i);
    case OperatorTrace(over, t) =>
      TraceCoincide(over, t, I, J, S, i, j);
    case Commutator(x, y) =>
      CommutatorCoincide(x, y, I, J, S, i, j);
    case OperatorIndexedSum(t, rs) =>
      var S' := S - BoundSymbols(rs);
      forall K: Interp, L: Interp | K.dim == I.dim && SameExcept(K, L, S') ensures OpEntry(t, K, i, j) == OpEntry(t, L, i, j) {
        OpCoincide(t, K, L, S', i, j);
      }
      RangeSumCongruence(rs, I, J, S, K => OpEntry(t, K, i, j), K => OpEntry(t, K, i, j));
    case KetBra(k, b) =>
      KetCoincide(k, I, J, S, i);
      KetCoincide(b, I, J, S, j);
    case SuperOperatorTimesOperator(s, t) =>
      AppliedCoincide(s, t, I, J, S, i, j);
  }

  lemma {:induction false} TraceCoincide(over: Space, t: Op, I: Interp, J: Interp, S: set<string>, i: int, j: int)
    requires SameExcept(I, J, S) && OpFreeSymbols(t) !! S && InRange(I, i) && InRange(I, j)
    ensures OpEntry(OperatorTrace(over, t), I, i, j) == OpEntry(OperatorTrace(over, t), J, i, j)
    decreases OperatorTrace(over, t), 0
  {
    if over.TrivialSpace? {
      OpCoincide(t, I, J, S, i, j);
    } else if i == j {
      forall k | 0 <= k < I.dim ensures OpEntry(t, I, k, k) == OpEntry(t, J, k, k) {
        OpCoincide(t, I, J, S, k, k);
      }
      SumExt(I.dim, k => OpEntry(t, I, k, k), k => OpEntry(t, J, k, k));
    }
  }

  lemma {:induction false} AppliedCoincide(s: SuperOp, t: Op, I: Interp, J: Interp, S: set<string>, i: int, j: int)
    requires SameExcept(I, J, S) && SopFreeSymbols(s) !! S && OpFreeSymbols(t) !! S && InRange(I, i) && InRange(I, j)
    ensures OpEntry(SuperOperatorTimesOperator(s, t), I, i, j) == OpEntry(SuperOperatorTimesOperator(s, t), J, i, j)
    decreases SuperOperatorTimesOperator(s, t), 0
  {
    forall x, y | InRange(I, x) && InRange(I, y) ensures OpEntry(t, I, x, y) == OpEntry(t, J, x, y) {
      OpCoincide(t, I, J, S, x, y);
    }
    SopCoincide(s, I, J, S, (x, y) => OpEntry(t, I, x, y), (x, y) => OpEntry(t, J, x, y), i, j);
  }

  lemma {:induction false} CommutatorCoincide(x: Op, y: Op, I: Interp, J: Interp, S: set<string>, i: int, j: int)
    requires SameExcept(I, J, S) && OpFreeSymbols(x) !! S && OpFreeSymbols(y) !! S && InRange(I, i) && InRange(I, j)
    ensures OpEntry(Commutator(x, y), I, i, j) == OpEntry(Commutator(x, y), J, i, j)
    decreases Commutator(x, y), 0
  {
    forall k | 0 <= k < I.dim ensures CommutatorTerm(x, y, I, i, j, k) == CommutatorTerm(x, y, J, i, j, k) {
      OpCoincide(x, I, J, S, i, k);
      OpCoincide(y, I, J, S, k, j);
      OpCoincide(y, I, J, S, i, k);
      OpCoincide(x, I, J, S, k, j);
    }
    EntryCommutator(x, y, I, i, j);
    EntryCommutator(x, y, J, i, j);
    SumExt(I.dim, k => CommutatorTerm(x, y, I, i, j, k), k => CommutatorTerm(x, y, J, i, j, k));
  }

  lemma {:induction false} PlusCoincide(ts: seq<Op>, I: Interp, J: Interp, S: set<string>, i: int, j: int)
    requires SameExcept(I, J, S) && OpFreeSymbolsList(ts) !! S && InRange(I, i) && InRange(I, j)
    ensures PlusEntry(ts, I, i, j) == PlusEntry(ts, J, i, j)
    decreases ts
  {
    if |ts| > 0 {
      OpCoincide(ts[0], I, J, S, i, j);
      PlusCoincide(ts[1..], I, J, S, i, j);
    }
  }

  lemma {:induction false} TimesCoincide(ts: seq<Op>, I: Interp, J: Interp, S: set<string>, i: int, j: int)
    requires SameExcept(I, J, S) && OpFreeSymbolsList(ts) !! S && InRange(I, i) && InRange(I, j)
    ensures TimesEntry(ts, I, i, j) == TimesEntry(ts, J, i, j)
    decreases ts
  {
    if |ts| > 0 {
      forall k | 0 <= k < I.dim
        ensures Mul(OpEntry(ts[0], I, i, k), TimesEntry(ts[1..], I, k, j))
             == Mul(OpEntry(ts[0], J, i, k), TimesEntry(ts[1..], J, k, j))
      {
        OpCoincide(ts[0], I, J, S, i, k);
        TimesCoincide(ts[1..], I, J, S, k, j);
      }
      SumExt(I.dim, k => Mul(OpEntry(ts[0], I, i, k), TimesEntry(ts[1..], I, k, j)),
                    k => Mul(OpEntry(ts[0], J, i, k), TimesEntry(ts[1..], J, k, j)));
    }
  }

  lemma {:induction false} KetCoincide(k: Ket, I: Interp, J: Interp, S: set<string>, i: int)
    requires SameExcept(I, J, S) && KetFreeSymbols(k) !! S && InRange(I, i)
    ensures KetComp(k, I, i) == KetComp(k, J, i)
    decreases k
  {
    match k
    case BasisKet(l, _) =>
      LabelCoincide(l, I, J, S);
    case ZeroKet =>
    case TrivialKet =>
    case KetSymbol(_, _) =>
    case ScalarTimesKet(u, t) =>
      Coincide(u, I, J, S);
      KetCoincide(t, I, J, S, i);
    case OperatorTimesKet(a, t) =>
      forall x | 0 <= x < I.dim ensures Mul(OpEntry(a, I, i, x), KetComp(t, I, x)) == Mul(OpEntry(a, J, i, x), KetComp(t, J, x)) {
        OpCoincide(a, I, J, S, i, x);
        KetCoincide(t, I, J, S, x);
      }
      SumExt(I.dim, x => Mul(OpEntry(a, I, i, x), KetComp(t, I, x)), x => Mul(OpEntry(a, J, i, x), KetComp(t, J, x)));
    case KetPlus(ts) =>
      KetPlusCoincide(ts, I, J, S, i);
    case TensorKet(_) =>
    case KetIndexedSum(t, rs) =>
      var S' := S - BoundSymbols(rs);
      forall K: Interp, L: Interp | K.dim == I.dim && SameExcept(K, L, S') ensures KetComp(t, K, i) == KetComp(t, L, i) {
        KetCoincide(t, K, L, S', i);
      }
      RangeSumCongruence(rs, I, J, S, K => KetComp(t, K, i), K => KetComp(t, K, i));
  }

  lemma {:induction false} KetPlusCoincide(ts: seq<Ket>, I: Interp, J: Interp, S: set<string>, i: int)
    requires SameExcept(I, J, S) && KetFreeSymbolsList(ts) !! S && InRange(I, i)
    ensures KetPlusComp(ts, I, i) == KetPlusComp(ts, J, i)
    decreases ts
  {
    if |ts| > 0 {
      KetCoincide(ts[0], I, J, S, i);
      KetPlusCoincide(ts[1..], I, J, S, i);
    }
  }

  lemma {:induction false} SopCoincide(s: SuperOp, I: Interp, J: Interp, S: set<string>,
                    X: (int, int) -> C, Y: (int, int) -> C, i: int, j: int)
    requires SameExcept(I, J, S) && SopFreeSymbols(s) !! S
    requires AgreeIn(I, X, Y) && InRange(I, i) && InRange(I, j)
    ensures SopEntry(s, I, X, i, j) == SopEntry(s, J, Y, i, j)
    decreases s
  {
    match s
    case IdentitySuperOperator =>
    case ZeroSuperOperator =>
    case SuperOperatorSymbol(n, _) =>
      SopExt(s, I, X, Y, i, j);
    case SPre(a) =>
      forall k | 0 <= k < I.dim ensures Mul(OpEntry(a, I, i, k), X(k, j)) == Mul(OpEntry(a, J, i, k), Y(k, j)) {
        OpCoincide(a, I, J, S, i, k);
      }
      SumExt(I.dim, k => Mul(OpEntry(a, I, i, k), X(k, j)), k => Mul(OpEntry(a, J, i, k), Y(k, j)));
    case SPost(a) =>
      forall k | 0 <= k < I.dim ensures Mul(X(i, k), OpEntry(a, I, k, j)) == Mul(Y(i, k), OpEntry(a, J, k, j)) {
        OpCoincide(a, I, J, S, k, j);
      }
      SumExt(I.dim, k => Mul(X(i, k), OpEntry(a, I, k, j)), k => Mul(Y(i, k), OpEntry(a, J, k, j)));
    case ScalarTimesSuperOperator(u, t) =>
      Coincide(u, I, J, S);
      SopCoincide(t, I, J, S, X, Y, i, j);
    case SuperOperatorPlus(ts) =>
      SopPlusCoincide(ts, I, J, S, X, Y, i, j);
    case SuperOperatorTimes(ts) =>
      SopTimesCoincide(ts, I, J, S, X, Y, i, j);
    case SuperAdjoint(t) =>
      forall a, b | 0 <= a < I.dim && 0 <= b < I.dim
        ensures SopEntry(t, I, Unit(j, i), b, a) == SopEntry(t, J, Unit(j, i), b, a)
      {
        SopCoincide(t, I, J, S, Unit(j, i), Unit(j, i), b, a);
      }
      var rowX := a => Sum(I.dim, b => Mul(X(a, b), SopEntry(t, I, Unit(j, i), b, a)));
      var rowY := a => Sum(I.dim, b => Mul(Y(a, b), SopEntry(t, J, Unit(j, i), b, a)));
      forall a | 0 <= a < I.dim ensures rowX(a) == rowY(a) {
        SumExt(I.dim, b => Mul(X(a, b), SopEntry(t, I, Unit(j, i), b, a)),
                      b => Mul(Y(a, b), SopEntry(t, J, Unit(j, i), b, a)));
      }
      SumExt(I.dim, rowX, rowY);
  }

  lemma {:induction false} SopPlusCoincide(ts: seq<SuperOp>, I: Interp, J: Interp, S: set<string>,
                        X: (int, int) -> C, Y: (int, int) -> C, i: int, j: int)
    requires SameExcept(I, J, S) && SopFreeSymbolsList(ts) !! S
    requires AgreeIn(I, X, Y) && InRange(I, i) && InRange(I, j)
    ensures SopPlusEntry(ts, I, X, i, j) == SopPlusEntry(ts, J, Y, i, j)
    decreases ts
  {
    if |ts| > 0 {
      SopCoincide(ts[0], I, J, S, X, Y, i, j);
      SopPlusCoincide(ts[1..], I, J, S, X, Y, i, j);
    }
  }

  lemma {:induction false} SopTimesCoincide(ts: seq<SuperOp>, I: Interp, J: Interp, S: set<string>,
                         X: (int, int) -> C, Y: (int, int) -> C, i: int, j: int)
    requires SameExcept(I, J, S) && SopFreeSymbolsList(ts) !! S
    requires AgreeIn(I, X, Y) && InRange(I, i) && InRange(I, j)
    ensures SopTimesEntry(ts, I, X, i, j) == SopTimesEntry(ts, J, Y, i, j)
    decreases ts
  {
    if |ts| > 0 {
      var X' := (x, y) => SopTimesEntry(ts[1..], I, X, x, y);
      var Y' := (x, y) => SopTimesEntry(ts[1..], J, Y, x, y);
      forall a, b | InRange(I, a) && InRange(I, b) ensures X'(a, b) == Y'(a, b) {
        SopTimesCoincide(ts[1..], I, J, S, X, Y, a, b);
      }
      SopCoincide(ts[0], I, J, S, X', Y', i, j);
    }
  }
}
