/**
 * The meaning of an expression in one local Hilbert space of dimension
 * `I.dim`, with basis states 0 .. dim-1:
 *  - a scalar is a complex number,
 *  - an operator is a dim x dim matrix, given by its entries,
 *  - a ket is a vector, given by its components,
 *  - a super-operator maps a matrix (an entry function) to a matrix.
 * Symbols take their values from the interpretation `I`.
 */
module Semantics {
  import opened Complex
  import opened Expressions

  /**
   * An interpretation: the dimension of the local space, values of scalar
   * symbols (index symbols read the integer part of theirs), matrices of
   * operator symbols, vectors of ket symbols, coefficient tensors of
   * super-operator symbols, the coefficients of the ladder operators, and the
   * value of a power whose exponent is not an integer (or a negative power of 0).
   */
  datatype Interp = Interp(
    dim: nat,
    val: string -> C,
    opSym: string -> (int, int) -> C,
    ketSym: string -> int -> C,
    sopSym: string -> (int, int, int, int) -> C,
    ladder: int -> C,
    pow: (C, C) -> C)

  function LabelValue(l: Label, I: Interp): int
  {
    match l
    case LInt(n) => n
    case LIdx(s) => I.val(s).re.Floor
  }

  function DeltaValue(a: Label, b: Label, I: Interp): C
  {
    if LabelValue(a, I) == LabelValue(b, I) then One else Zero
  }

  /** `b ** e`: an integer power is exact; anything else is what the interpretation says. */
  function PowValue(b: C, e: C, I: Interp): C
  {
    if IsInt(e) then
      var n := e.re.Floor;
      if n >= 0 then PowNat(b, n)
      else if NonZero(b) then PowNat(Inv(b), -n)
      else I.pow(b, e)
    else I.pow(b, e)
  }

  /** The interpretation in which index symbol `s` has the value `v`. */
  function Bind(I: Interp, s: string, v: int): Interp
  {
    I.(val := x => if x == s then FromInt(v) else I.val(x))
  }

  /** Sum of `g(v)` over the values `vs`, in order. */
  function SumValues(vs: seq<int>, g: int -> C): C
  {
    if |vs| == 0 then Zero else Add(g(vs[0]), SumValues(vs[1..], g))
  }

  /** The sum of `f` over every binding of the index symbols of `ranges`. */
  function RangeSum(ranges: seq<IndexRange>, I: Interp, f: Interp -> C): C
    decreases |ranges|
  {
    if |ranges| == 0 then f(I)
    else SumValues(RangeValues(ranges[0]), v => RangeSum(ranges[1..], Bind(I, ranges[0].sym, v), f))
  }

  // ---------------------------------------------------------------------
  // Evaluation
  // ---------------------------------------------------------------------

  function Eval(s: Scalar, I: Interp): C
    decreases s
  {
    match s
    case Num(c) => c
    case Sym(n) => I.val(n)
    case Delta(a, b) => DeltaValue(a, b, I)
    case ScalarTimes(fs) => ProductValue(fs, I)
    case ScalarPlus(ts) => SumValue(ts, I)
    case ScalarPower(b, e) => PowValue(Eval(b, I), Eval(e, I), I)
    case Conjugate(u) => Conj(Eval(u, I))
    case BraKet(bra, ket) => Sum(I.dim, k => Mul(Conj(KetComp(bra, I, k)), KetComp(ket, I, k)))
    case ScalarIndexedSum(t, rs) => RangeSum(rs, I, J => Eval(t, J))
  }

  function ProductValue(fs: seq<Scalar>, I: Interp): C
    decreases fs
  {
    if |fs| == 0 then One else Mul(Eval(fs[0], I), ProductValue(fs[1..], I))
  }

  function SumValue(ts: seq<Scalar>, I: Interp): C
    decreases ts
  {
    if |ts| == 0 then Zero else Add(Eval(ts[0], I), SumValue(ts[1..], I))
  }

  /** Entry (i, j) of the matrix of an operator. */
  function OpEntry(a: Op, I: Interp, i: int, j: int): C
    decreases a
  {
    match a
    case IdentityOperator => if i == j then One else Zero
    case ZeroOperator => Zero
    case OperatorSymbol(n, _) => I.opSym(n)(i, j)
    case LocalSigma(x, y, _) => if i == LabelValue(x, I) && j == LabelValue(y, I) then One else Zero
    case Create(_) => if i == j + 1 then I.ladder(j) else Zero
    case Destroy(_) => if j == i + 1 then Conj(I.ladder(i)) else Zero
    case ScalarTimesOperator(u, t) => Mul(Eval(u, I), OpEntry(t, I, i, j))
    case OperatorPlus(ts) => PlusEntry(ts, I, i, j)
    case OperatorTimes(ts) => TimesEntry(ts, I, i, j)
    case Adjoint(t) => Conj(OpEntry(t, I, j, i))
    case OperatorTrace(over, t) =>
      if over.TrivialSpace? then OpEntry(t, I, i, j)
      else if i == j then Sum(I.dim, k => OpEntry(t, I, k, k))
      else Zero
    case Commutator(x, y) =>
      Sum(I.dim, k => Sub(Mul(OpEntry(x, I, i, k), OpEntry(y, I, k, j)),
                          Mul(OpEntry(y, I, i, k), OpEntry(x, I, k, j))))
    case OperatorIndexedSum(t, rs) => RangeSum(rs, I, J => OpEntry(t, J, i, j))
    case KetBra(k, b) => Mul(KetComp(k, I, i), Conj(KetComp(b, I, j)))
    case SuperOperatorTimesOperator(s, t) => SopEntry(s, I, (x, y) => OpEntry(t, I, x, y), i, j)
  }

  function PlusEntry(ts: seq<Op>, I: Interp, i: int, j: int): C
    decreases ts
  {
    if |ts| == 0 then Zero else Add(OpEntry(ts[0], I, i, j), PlusEntry(ts[1..], I, i, j))
  }

  /** Entry (i, j) of the matrix product of `ts`; the empty product is the identity. */
  function TimesEntry(ts: seq<Op>, I: Interp, i: int, j: int): C
    decreases ts
  {
    if |ts| == 0 then (if i == j then One else Zero)
    else Sum(I.dim, k => Mul(OpEntry(ts[0], I, i, k), TimesEntry(ts[1..], I, k, j)))
  }

  /** Component i of a ket. A tensor product of kets, and the trivial ket, live
      outside the one local space and are given no components of their own. */
  function KetComp(k: Ket, I: Interp, i: int): C
    decreases k
  {
    match k
    case BasisKet(l, _) => if i == LabelValue(l, I) then One else Zero
    case ZeroKet => Zero
    case TrivialKet => Zero
    case KetSymbol(n, _) => I.ketSym(n)(i)
    case ScalarTimesKet(u, t) => Mul(Eval(u, I), KetComp(t, I, i))
    case OperatorTimesKet(a, t) => Sum(I.dim, x => Mul(OpEntry(a, I, i, x), KetComp(t, I, x)))
    case KetPlus(ts) => KetPlusComp(ts, I, i)
    case TensorKet(_) => Zero
    case KetIndexedSum(t, rs) => RangeSum(rs, I, J => KetComp(t, J, i))
  }

  function KetPlusComp(ts: seq<Ket>, I: Interp, i: int): C
    decreases ts
  {
    if |ts| == 0 then Zero else Add(KetComp(ts[0], I, i), KetPlusComp(ts[1..], I, i))
  }

  /** Entry (i, j) of the super-operator `s` applied to the matrix `X`. */
  function SopEntry(s: SuperOp, I: Interp, X: (int, int) -> C, i: int, j: int): C
    decreases s
  {
    match s
    case IdentitySuperOperator => X(i, j)
    case ZeroSuperOperator => Zero
    case SuperOperatorSymbol(n, _) =>
      Sum(I.dim, k => Sum(I.dim, l => Mul(I.sopSym(n)(i, j, k, l), X(k, l))))
    case SPre(a) => Sum(I.dim, k => Mul(OpEntry(a, I, i, k), X(k, j)))
    case SPost(a) => Sum(I.dim, k => Mul(X(i, k), OpEntry(a, I, k, j)))
    case ScalarTimesSuperOperator(u, t) => Mul(Eval(u, I), SopEntry(t, I, X, i, j))
    case SuperOperatorPlus(ts) => SopPlusEntry(ts, I, X, i, j)
    case SuperOperatorTimes(ts) => SopTimesEntry(ts, I, X, i, j)
    case SuperAdjoint(t) =>
      // Tr[M (L N)] = Tr[(L* M) N]: entry (i, j) of L* M is sum over a, b of M[a, b] L(E_ji)[b, a]
      Sum(I.dim, a => Sum(I.dim, b => Mul(X(a, b), SopEntry(t, I, Unit(j, i), b, a))))
  }

  function SopPlusEntry(ts: seq<SuperOp>, I: Interp, X: (int, int) -> C, i: int, j: int): C
    decreases ts
  {
    if |ts| == 0 then Zero else Add(SopEntry(ts[0], I, X, i, j), SopPlusEntry(ts[1..], I, X, i, j))
  }

  /** The product applies its last factor first: (sA sB) X = sA (sB X). */
  function SopTimesEntry(ts: seq<SuperOp>, I: Interp, X: (int, int) -> C, i: int, j: int): C
    decreases ts
  {
    if |ts| == 0 then X(i, j)
    else SopEntry(ts[0], I, (x, y) => SopTimesEntry(ts[1..], I, X, x, y), i, j)
  }

  /** The matrix unit E_rc. */
  function Unit(r: int, c: int): (int, int) -> C
  {
    (x, y) => if x == r && y == c then One else Zero
  }

  // ---------------------------------------------------------------------
  // Meaning of the binary operations, and equivalence of expressions
  // ---------------------------------------------------------------------

  /** Entry (i, j) of the matrix product A B. */
  function ProdEntry(a: Op, b: Op, I: Interp, i: int, j: int): C
  {
    Sum(I.dim, k => Mul(OpEntry(a, I, i, k), OpEntry(b, I, k, j)))
  }

  /** The matrix of an operator as an entry function. */
  function MatrixOf(a: Op, I: Interp): (int, int) -> C
  {
    (x, y) => OpEntry(a, I, x, y)
  }

  predicate InRange(I: Interp, i: int) { 0 <= i < I.dim }

  /** Two operators have the same matrix. */
  ghost predicate OpEquiv(a: Op, b: Op, I: Interp)
  {
    forall i, j :: InRange(I, i) && InRange(I, j) ==> OpEntry(a, I, i, j) == OpEntry(b, I, i, j)
  }

  /** Two kets have the same components. */
  ghost predicate KetEquiv(a: Ket, b: Ket, I: Interp)
  {
    forall i :: InRange(I, i) ==> KetComp(a, I, i) == KetComp(b, I, i)
  }

  /** Two super-operators map every matrix to the same matrix. */
  ghost predicate SopEquiv(s: SuperOp, t: SuperOp, I: Interp)
  {
    forall X: (int, int) -> C, i, j :: InRange(I, i) && InRange(I, j) ==>
      SopEntry(s, I, X, i, j) == SopEntry(t, I, X, i, j)
  }
}
