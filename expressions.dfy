/**
 * The expression trees of the algebra: scalars, operators, kets and
 * super-operators, as far as the algebraic rules and the super-operator
 * constructors refer to them. Constructor names follow the classes of the
 * algebra (`LocalSigma`, `OperatorTimesKet`, `SPre`, ...).
 */
module Expressions {
  import opened Complex

  /** A basis label: a fixed integer index, or a symbolic index (`IdxSym`, `FockIndex`). */
  datatype Label = LInt(n: int) | LIdx(sym: string)

  /** A local Hilbert space with its label and the dimension of its basis. */
  datatype LocalSpace = LocalSpace(id: string, dim: nat)

  /** The space an `OperatorTrace` runs over. */
  datatype Space = TrivialSpace | Local(ls: LocalSpace)

  /** An index range of an indexed sum: an explicit list of values, or the basis of a local space. */
  datatype IndexRange =
    | IndexOverList(sym: string, values: seq<int>)
    | IndexOverFockSpace(sym: string, hs: LocalSpace)

  datatype Scalar =
    | Num(c: C)                                      // ScalarValue holding a number
    | Sym(name: string)                              // a sympy Symbol
    | Delta(a: Label, b: Label)                      // KroneckerDelta
    | ScalarTimes(factors: seq<Scalar>)
    | ScalarPlus(terms: seq<Scalar>)
    | ScalarPower(base: Scalar, exp: Scalar)
    | Conjugate(arg: Scalar)                         // the result of `u.conjugate()`
    | BraKet(bra: Ket, ket: Ket)
    | ScalarIndexedSum(sterm: Scalar, sranges: seq<IndexRange>)

  datatype Op =
    | IdentityOperator
    | ZeroOperator
    | OperatorSymbol(name: string, hs: LocalSpace)
    | LocalSigma(j: Label, k: Label, hs: LocalSpace)
    | Create(hs: LocalSpace)
    | Destroy(hs: LocalSpace)
    | ScalarTimesOperator(coeff: Scalar, term: Op)
    | OperatorPlus(operands: seq<Op>)
    | OperatorTimes(operands: seq<Op>)
    | Adjoint(op: Op)
    | OperatorTrace(over: Space, op: Op)
    | Commutator(a: Op, b: Op)
    | OperatorIndexedSum(term: Op, ranges: seq<IndexRange>)
    | KetBra(ket: Ket, bra: Ket)
    | SuperOperatorTimesOperator(sop: SuperOp, op: Op)

  datatype Ket =
    | BasisKet(index: Label, hs: LocalSpace)
    | ZeroKet
    | TrivialKet
    | KetSymbol(name: string, hs: LocalSpace)
    | ScalarTimesKet(coeff: Scalar, term: Ket)
    | OperatorTimesKet(op: Op, term: Ket)
    | KetPlus(operands: seq<Ket>)
    | TensorKet(operands: seq<Ket>)
    | KetIndexedSum(term: Ket, ranges: seq<IndexRange>)

  datatype SuperOp =
    | IdentitySuperOperator
    | ZeroSuperOperator
    | SuperOperatorSymbol(name: string, hs: LocalSpace)
    | SPre(op: Op)
    | SPost(op: Op)
    | ScalarTimesSuperOperator(coeff: Scalar, term: SuperOp)
    | SuperOperatorPlus(operands: seq<SuperOp>)
    | SuperOperatorTimes(operands: seq<SuperOp>)
    | SuperAdjoint(sop: SuperOp)

  /** The scalar singletons `Zero` and `One`, and the literal -1. */
  const ZeroScalar := Num(Complex.Zero)
  const OneScalar := Num(Complex.One)
  const MinusOneScalar := Num(Complex.MinusOne)

  // ---------------------------------------------------------------------
  // Index ranges
  // ---------------------------------------------------------------------

  /** 0, 1, ..., n-1 */
  function Iota(n: nat): (r: seq<int>)
    ensures |r| == n && forall k :: 0 <= k < n ==> r[k] == k
  {
    if n == 0 then [] else Iota(n - 1) + [n - 1]
  }

  /** The values an index range lets its symbol take, in order. */
  function RangeValues(r: IndexRange): seq<int>
  {
    match r
    case IndexOverList(_, vs) => vs
    case IndexOverFockSpace(_, hs) => Iota(hs.dim)
  }

  /** The index symbols bound by a tuple of ranges (`r.index_symbol for r in indranges`). */
  function BoundSymbols(ranges: seq<IndexRange>): (r: set<string>)
    ensures forall k :: 0 <= k < |ranges| ==> ranges[k].sym in r
    ensures forall s :: s in r ==> exists k :: 0 <= k < |ranges| && ranges[k].sym == s
  {
    if |ranges| == 0 then {} else {ranges[0].sym} + BoundSymbols(ranges[1..])
  }

  // ---------------------------------------------------------------------
  // Free symbols
  // ---------------------------------------------------------------------

  function LabelSymbols(l: Label): set<string>
  {
    match l
    case LInt(_) => {}
    case LIdx(s) => {s}
  }

  /** The symbols a scalar depends on; an indexed sum does not depend on its own index symbols. */
  function FreeSymbols(s: Scalar): set<string>
    decreases s
  {
    match s
    case Num(_) => {}
    case Sym(n) => {n}
    case Delta(a, b) => LabelSymbols(a) + LabelSymbols(b)
    case ScalarTimes(fs) => FreeSymbolsList(fs)
    case ScalarPlus(ts) => FreeSymbolsList(ts)
    case ScalarPower(b, e) => FreeSymbols(b) + FreeSymbols(e)
    case Conjugate(u) => FreeSymbols(u)
    case BraKet(bra, ket) => KetFreeSymbols(bra) + KetFreeSymbols(ket)
    case ScalarIndexedSum(t, rs) => FreeSymbols(t) - BoundSymbols(rs)
  }

  function FreeSymbolsList(ss: seq<Scalar>): set<string>
    decreases ss
  {
    if |ss| == 0 then {} else FreeSymbols(ss[0]) + FreeSymbolsList(ss[1..])
  }

  function OpFreeSymbols(a: Op): set<string>
    decreases a
  {
    match a
    case IdentityOperator => {}
    case ZeroOperator => {}
    case OperatorSymbol(_, _) => {}
    case LocalSigma(j, k, _) => LabelSymbols(j) + LabelSymbols(k)
    case Create(_) => {}
    case Destroy(_) => {}
    case ScalarTimesOperator(u, t) => FreeSymbols(u) + OpFreeSymbols(t)
    case OperatorPlus(ts) => OpFreeSymbolsList(ts)
    case OperatorTimes(ts) => OpFreeSymbolsList(ts)
    case Adjoint(t) => OpFreeSymbols(t)
    case OperatorTrace(_, t) => OpFreeSymbols(t)
    case Commutator(x, y) => OpFreeSymbols(x) + OpFreeSymbols(y)
    case OperatorIndexedSum(t, rs) => OpFreeSymbols(t) - BoundSymbols(rs)
    case KetBra(k, b) => KetFreeSymbols(k) + KetFreeSymbols(b)
    case SuperOperatorTimesOperator(s, t) => SopFreeSymbols(s) + OpFreeSymbols(t)
  }

  function OpFreeSymbolsList(ts: seq<Op>): set<string>
    decreases ts
  {
    if |ts| == 0 then {} else OpFreeSymbols(ts[0]) + OpFreeSymbolsList(ts[1..])
  }

  function KetFreeSymbols(k: Ket): set<string>
    decreases k
  {
    match k
    case BasisKet(l, _) => LabelSymbols(l)
    case ZeroKet => {}
    case TrivialKet => {}
    case KetSymbol(_, _) => {}
    case ScalarTimesKet(u, t) => FreeSymbols(u) + KetFreeSymbols(t)
    case OperatorTimesKet(a, t) => OpFreeSymbols(a) + KetFreeSymbols(t)
    case KetPlus(ts) => KetFreeSymbolsList(ts)
    case TensorKet(ts) => KetFreeSymbolsList(ts)
    case KetIndexedSum(t, rs) => KetFreeSymbols(t) - BoundSymbols(rs)
  }

  function KetFreeSymbolsList(ts: seq<Ket>): set<string>
    decreases ts
  {
    if |ts| == 0 then {} else KetFreeSymbols(ts[0]) + KetFreeSymbolsList(ts[1..])
  }

  function SopFreeSymbols(s: SuperOp): set<string>
    decreases s
  {
    match s
    case IdentitySuperOperator => {}
    case ZeroSuperOperator => {}
    case SuperOperatorSymbol(_, _) => {}
    case SPre(a) => OpFreeSymbols(a)
    case SPost(a) => OpFreeSymbols(a)
    case ScalarTimesSuperOperator(u, t) => FreeSymbols(u) + SopFreeSymbols(t)
    case SuperOperatorPlus(ts) => SopFreeSymbolsList(ts)
    case SuperOperatorTimes(ts) => SopFreeSymbolsList(ts)
    case SuperAdjoint(t) => SopFreeSymbols(t)
  }

  function SopFreeSymbolsList(ts: seq<SuperOp>): set<string>
    decreases ts
  {
    if |ts| == 0 then {} else SopFreeSymbols(ts[0]) + SopFreeSymbolsList(ts[1..])
  }
}
