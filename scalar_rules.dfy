/**
 * The algebraic rules for scalars: the binary rules of `ScalarTimes`, the
 * rules of `ScalarPower` and of `ScalarIndexedSum`, each proved to keep the
 * value of the expression it rewrites.
 */
module ScalarRules {
  import opened Wrappers
  import opened Complex
  import opened Expressions
  import opened Semantics
  import opened Laws
  import opened Rules

  // ---------------------------------------------------------------------
  // ScalarTimes: binary rules on (x, y), meaning x * y
  // ---------------------------------------------------------------------

  /**
   * The scalars that stand for a number or a sympy value (`SCALAR_VAL_TYPES`):
   * numbers, symbols and Kronecker deltas.
   */
  predicate IsScalarValue(s: Scalar)
  {
    s.Num? || s.Sym? || s.Delta?
  }

  /** `a * b` of two scalar values: two numbers multiply out; otherwise the
      result is sympy's product, kept here as the product of the two. */
  function TimesR001(args: (Scalar, Scalar)): (r: Option<Scalar>)
    ensures r.Some? <==> IsScalarValue(args.0) && IsScalarValue(args.1)
  {
    if args.0.Num? && args.1.Num? then Some(Num(Mul(args.0.c, args.1.c)))
    else if IsScalarValue(args.0) && IsScalarValue(args.1) then Some(ScalarTimes([args.0, args.1]))
    else None
  }

  /** x * x = x ** 2 */
  function TimesR002(args: (Scalar, Scalar)): Option<Scalar>
  {
    if args.0 == args.1 then Some(ScalarPower(args.0, Num(FromInt(2)))) else None
  }

  /** Zero * x = Zero */
  function TimesR003(args: (Scalar, Scalar)): Option<Scalar>
  {
    if args.0 == ZeroScalar then Some(ZeroScalar) else None
  }

  /** x * Zero = Zero */
  function TimesR004(args: (Scalar, Scalar)): Option<Scalar>
  {
    if args.1 == ZeroScalar then Some(ZeroScalar) else None
  }

  /** x**y * x**z = x**(y + z) */
  function TimesR005(args: (Scalar, Scalar)): Option<Scalar>
  {
    match args
    case (ScalarPower(x, y), ScalarPower(x', z)) =>
      if x == x' then Some(ScalarPower(x, ScalarPlus([y, z]))) else None
    case _ => None
  }

  /** x * x**-1 = One */
  function TimesR006(args: (Scalar, Scalar)): Option<Scalar>
  {
    if args.1 == ScalarPower(args.0, MinusOneScalar) then Some(OneScalar) else None
  }

  function ScalarTimesRules(): seq<Rule<(Scalar, Scalar), Scalar>>
  {
    [Rule("R001", TimesR001), Rule("R002", TimesR002), Rule("R003", TimesR003),
     Rule("R004", TimesR004), Rule("R005", TimesR005), Rule("R006", TimesR006)]
  }

  /** Both exponents are integers, and the base is not zero unless both are natural numbers. */
  predicate IntegerExponents(b: C, y: C, z: C)
  {
    IsInt(y) && IsInt(z) && (NonZero(b) || (IsNat(y) && IsNat(z)))
  }

  /** What the exact semantics needs for the product rules: R005 adds
      integer exponents, R006 needs x != 0. */
  ghost predicate ScalarTimesSide(x: Scalar, y: Scalar, I: Interp)
  {
    (x.ScalarPower? && y.ScalarPower? ==> IntegerExponents(Eval(x.base, I), Eval(x.exp, I), Eval(y.exp, I)))
    && (y == ScalarPower(x, MinusOneScalar) ==> NonZero(Eval(x, I)))
  }

  lemma {:induction false} NatValue(e: C)
    requires IsNat(e)
    ensures e == FromInt(e.re.Floor) && e.re.Floor >= 0
  {}

  lemma {:induction false} IntValue(e: C)
    requires IsInt(e)
    ensures e == FromInt(e.re.Floor)
  {}

  lemma {:induction false} PowValueNat(b: C, n: nat, I: Interp)
    ensures PowValue(b, FromInt(n), I) == PowNat(b, n)
  {}

  /** An integer power of a non-zero number is exact. */
  lemma {:induction false} PowValueInt(b: C, e: C, I: Interp)
    requires IsInt(e) && NonZero(b)
    ensures PowValue(b, e, I) == ZPow(b, e.re.Floor)
  {}

  lemma {:induction false} PowTwo(b: C, I: Interp)
    ensures PowValue(b, FromInt(2), I) == Mul(b, b)
  {
    PowValueNat(b, 2, I);
    assert PowNat(b, 1) == b;
  }

  lemma {:induction false} TimesR001Sound(x: Scalar, y: Scalar, r: Scalar, I: Interp)
    requires TimesR001((x, y)) == Some(r)
    ensures Eval(r, I) == Mul(Eval(x, I), Eval(y, I))
  {
    if !(x.Num? && y.Num?) {
      assert r == ScalarTimes([x, y]);
      assert [x, y][1..] == [y] && [y][1..] == [];
      assert ProductValue([y], I) == Mul(Eval(y, I), One);
      assert Eval(r, I) == Mul(Eval(x, I), ProductValue([y], I));
      MulOne(Eval(y, I));
    }
  }

  lemma {:induction false} TimesZeroSound(x: Scalar, y: Scalar, r: Scalar, I: Interp)
    requires TimesR003((x, y)) == Some(r) || TimesR004((x, y)) == Some(r)
    ensures Eval(r, I) == Mul(Eval(x, I), Eval(y, I))
  {
    MulZero(Eval(x, I));
    MulZero(Eval(y, I));
  }

  lemma {:induction false} TimesR002Sound(x: Scalar, y: Scalar, r: Scalar, I: Interp)
    requires TimesR002((x, y)) == Some(r)
    ensures Eval(r, I) == Mul(Eval(x, I), Eval(y, I))
  {
    PowTwo(Eval(x, I), I);
  }

  lemma {:induction false} TimesR005Sound(x: Scalar, y: Scalar, r: Scalar, I: Interp)
    requires TimesR005((x, y)) == Some(r)
    requires IntegerExponents(Eval(x.base, I), Eval(x.exp, I), Eval(y.exp, I))
    ensures Eval(r, I) == Mul(Eval(x, I), Eval(y, I))
  {
    var b, e1, e2 := x.base, x.exp, y.exp;
    assert r == ScalarPower(b, ScalarPlus([e1, e2]));
    var X := Eval(b, I);
    var m := Eval(e1, I).re.Floor;
    var n := Eval(e2, I).re.Floor;
    IntValue(Eval(e1, I));
    IntValue(Eval(e2, I));
    assert [e1, e2][1..] == [e2] && [e2][1..] == [];
    assert SumValue([e2], I) == Eval(e2, I);
    assert Eval(ScalarPlus([e1, e2]), I) == FromInt(m + n);
    if NonZero(X) {
      PowValueInt(X, FromInt(m + n), I);
      PowValueInt(X, Eval(e1, I), I);
      PowValueInt(X, Eval(e2, I), I);
      ZPowAdd(X, m, n);
    } else {
      NatValue(Eval(e1, I));
      NatValue(Eval(e2, I));
      PowValueNat(X, m + n, I);
      PowValueNat(X, m, I);
      PowValueNat(X, n, I);
      PowNatAdd(X, m, n);
    }
  }

  lemma {:induction false} TimesR006Sound(x: Scalar, y: Scalar, r: Scalar, I: Interp)
    requires TimesR006((x, y)) == Some(r)
    requires NonZero(Eval(x, I))
    ensures Eval(r, I) == Mul(Eval(x, I), Eval(y, I))
  {
    var X := Eval(x, I);
    assert PowNat(Inv(X), 1) == Inv(X);
    assert PowValue(X, MinusOne, I) == Inv(X);
    MulInv(X);
  }

  /** Every product rule that fires gives an expression with the value of x * y. */
  lemma {:induction false} ScalarTimesRulesSound(k: nat, x: Scalar, y: Scalar, r: Scalar, I: Interp)
    requires k < |ScalarTimesRules()| && ScalarTimesRules()[k].fire((x, y)) == Some(r)
    requires ScalarTimesSide(x, y, I)
    ensures Eval(r, I) == Mul(Eval(x, I), Eval(y, I))
  {
    match k
    case 0 => TimesR001Sound(x, y, r, I);
    case 1 => TimesR002Sound(x, y, r, I);
    case 2 => TimesZeroSound(x, y, r, I);
    case 3 => TimesZeroSound(x, y, r, I);
    case 4 => TimesR005Sound(x, y, r, I);
    case 5 => TimesR006Sound(x, y, r, I);
  }

  // ---------------------------------------------------------------------
  // ScalarPower: rules on (base, exponent), meaning base ** exponent
  // ---------------------------------------------------------------------

  /** An integer power of a number; a negative power needs a non-zero base. */
  function IntPow(b: C, e: C): C
    requires IsInt(e) && (e.re >= 0.0 || NonZero(b))
  {
    var n := e.re.Floor;
    if n >= 0 then PowNat(b, n) else PowNat(Inv(b), -n)
  }

  /** `a ** b` of two scalar values. An integer power of a number is
      evaluated; any other power is the result of sympy's or Python's own
      `**`, kept here as the power of the two. */
  function PowerR001(args: (Scalar, Scalar)): (r: Option<Scalar>)
    ensures r.Some? <==> IsScalarValue(args.0) && IsScalarValue(args.1)
    ensures r.Some? && !(args.0.Num? && args.1.Num?) ==> r == Some(ScalarPower(args.0, args.1))
  {
    match args
    case (Num(a), Num(b)) =>
      if IsInt(b) && (b.re >= 0.0 || NonZero(a)) then Some(Num(IntPow(a, b))) else Some(ScalarPower(args.0, args.1))
    case _ => if IsScalarValue(args.0) && IsScalarValue(args.1) then Some(ScalarPower(args.0, args.1)) else None
  }

  /** x ** 0 = One */
  function PowerR002(args: (Scalar, Scalar)): Option<Scalar>
  {
    if args.1 == ZeroScalar then Some(OneScalar) else None
  }

  /** x ** 1 = x */
  function PowerR003(args: (Scalar, Scalar)): Option<Scalar>
  {
    if args.1 == OneScalar then Some(args.0) else None
  }

  /** (x ** y) ** z = x ** (y * z) */
  function PowerR004(args: (Scalar, Scalar)): Option<Scalar>
  {
    match args.0
    case ScalarPower(x, y) => Some(ScalarPower(x, ScalarTimes([y, args.1])))
    case _ => None
  }

  function ScalarPowerRules(): seq<Rule<(Scalar, Scalar), Scalar>>
  {
    [Rule("R001", PowerR001), Rule("R002", PowerR002), Rule("R003", PowerR003), Rule("R004", PowerR004)]
  }

  /** R004 multiplies integer exponents; see `PowerR004NonIntegerExponent` for the other case. */
  ghost predicate ScalarPowerSide(b: Scalar, e: Scalar, I: Interp)
  {
    b.ScalarPower? ==> IntegerExponents(Eval(b.base, I), Eval(b.exp, I), Eval(e, I))
  }

  lemma {:induction false} MulInts(m: int, n: int)
    ensures Mul(FromInt(m), FromInt(n)) == FromInt(m * n)
  {
    assert (m as real) * (n as real) == (m * n) as real;
  }

  lemma {:induction false} PowerR001Sound(b: Scalar, e: Scalar, r: Scalar, I: Interp)
    requires PowerR001((b, e)) == Some(r)
    ensures Eval(r, I) == PowValue(Eval(b, I), Eval(e, I), I)
  {
    if b.Num? && e.Num? && IsInt(e.c) && (e.c.re >= 0.0 || NonZero(b.c)) {
      var x, y := b.c, e.c;
      assert r == Num(IntPow(x, y));
      assert Eval(b, I) == x && Eval(e, I) == y;
    } else {
      assert r == ScalarPower(b, e);
    }
  }

  lemma {:induction false} PowerR002Sound(b: Scalar, e: Scalar, r: Scalar, I: Interp)
    requires PowerR002((b, e)) == Some(r)
    ensures Eval(r, I) == PowValue(Eval(b, I), Eval(e, I), I)
  {
    assert Eval(e, I) == FromInt(0);
    PowValueNat(Eval(b, I), 0, I);
  }

  lemma {:induction false} PowerR003Sound(b: Scalar, e: Scalar, r: Scalar, I: Interp)
    requires PowerR003((b, e)) == Some(r)
    ensures Eval(r, I) == PowValue(Eval(b, I), Eval(e, I), I)
  {
    PowValueNat(Eval(b, I), 1, I);
    assert PowNat(Eval(b, I), 1) == Eval(b, I);
  }

  /** The product of two integer exponents. */
  lemma {:induction false} IntProduct(y: Scalar, z: Scalar, I: Interp)
    requires IsInt(Eval(y, I)) && IsInt(Eval(z, I))
    ensures Eval(ScalarTimes([y, z]), I) == FromInt(Eval(y, I).re.Floor * Eval(z, I).re.Floor)
  {
    var Y, Z := Eval(y, I), Eval(z, I);
    IntValue(Y);
    IntValue(Z);
    assert [y, z][1..] == [z] && [z][1..] == [];
    assert ProductValue([z], I) == Z;
    assert Eval(ScalarTimes([y, z]), I) == Mul(Y, Z);
    MulInts(Y.re.Floor, Z.re.Floor);
  }

  lemma {:induction false} PowerR004Sound(b: Scalar, e: Scalar, r: Scalar, I: Interp)
    requires PowerR004((b, e)) == Some(r)
    requires IntegerExponents(Eval(b.base, I), Eval(b.exp, I), Eval(e, I))
    ensures Eval(r, I) == PowValue(Eval(b, I), Eval(e, I), I)
  {
    var x, y := b.base, b.exp;
    var X := Eval(x, I);
    var m := Eval(y, I).re.Floor;
    var n := Eval(e, I).re.Floor;
    IntProduct(y, e, I);
    if NonZero(X) {
      ZPowMul(X, m, n);
      PowValueInt(X, Eval(y, I), I);
      PowValueInt(ZPow(X, m), Eval(e, I), I);
      PowValueInt(X, FromInt(m * n), I);
    } else {
      NatValue(Eval(y, I));
      NatValue(Eval(e, I));
      PowValueNat(X, m * n, I);
      PowValueNat(X, m, I);
      PowValueNat(PowNat(X, m), n, I);
      PowNatMul(X, m, n);
    }
  }

  /**
   * R004 fires whatever the exponents are. For a non-integer outer exponent
   * it changes the value: ((-1) ** 2) ** (1/2) is 1 ** (1/2), which is 1 for
   * the principal root, but (-1) ** (2 (1/2)) is -1.
   */
  lemma {:induction false} PowerR004NonIntegerExponent(I: Interp)
    requires I.pow(One, C(0.5, 0.0)) == One
    ensures var b, e := ScalarPower(Num(MinusOne), Num(FromInt(2))), Num(C(0.5, 0.0));
      PowerR004((b, e)) == Some(ScalarPower(Num(MinusOne), ScalarTimes([Num(FromInt(2)), e])))
      && PowValue(Eval(b, I), Eval(e, I), I) == One
      && Eval(PowerR004((b, e)).value, I) == MinusOne
  {
    var two, half := Num(FromInt(2)), Num(C(0.5, 0.0));
    assert PowNat(MinusOne, 2) == Mul(PowNat(MinusOne, 1), MinusOne);
    assert PowNat(MinusOne, 1) == MinusOne;
    assert Eval(ScalarPower(Num(MinusOne), two), I) == One;
    assert !IsInt(C(0.5, 0.0));
    assert [two, half][1..] == [half] && [half][1..] == [];
    assert ProductValue([half], I) == Mul(C(0.5, 0.0), One);
    assert Eval(ScalarTimes([two, half]), I) == Mul(FromInt(2), ProductValue([half], I));
    assert Eval(ScalarTimes([two, half]), I) == FromInt(1);
  }

  /** Every power rule that fires gives an expression with the value of b ** e. */
  lemma {:induction false} ScalarPowerRulesSound(k: nat, b: Scalar, e: Scalar, r: Scalar, I: Interp)
    requires k < |ScalarPowerRules()| && ScalarPowerRules()[k].fire((b, e)) == Some(r)
    requires ScalarPowerSide(b, e, I)
    ensures Eval(r, I) == PowValue(Eval(b, I), Eval(e, I), I)
  {
    match k
    case 0 => PowerR001Sound(b, e, r, I);
    case 1 => PowerR002Sound(b, e, r, I);
    case 2 => PowerR003Sound(b, e, r, I);
    case 3 => PowerR004Sound(b, e, r, I);
  }

  // ---------------------------------------------------------------------
  // ScalarIndexedSum: rules on (term, ranges), meaning the indexed sum
  // ---------------------------------------------------------------------

  /** `pull_constfactor_from_sum`: x * sum(y) when no index symbol of the
      ranges is free in x; otherwise the rule declines. */
  function PullConstFactorFromSum(x: Scalar, y: Scalar, ranges: seq<IndexRange>): (r: Option<Scalar>)
    ensures r.Some? <==> forall k :: 0 <= k < |ranges| ==> ranges[k].sym !in FreeSymbols(x)
  {
    if FreeSymbols(x) !! BoundSymbols(ranges) then Some(ScalarTimes([x, ScalarIndexedSum(y, ranges)]))
    else None
  }

  /** A sum over Zero is Zero. */
  function SumR001(args: (Scalar, seq<IndexRange>)): Option<Scalar>
  {
    if args.0 == ZeroScalar then Some(ZeroScalar) else None
  }

  /** A constant factor comes out of the sum. */
  function SumR002(args: (Scalar, seq<IndexRange>)): Option<Scalar>
  {
    match args.0
    case ScalarTimes(fs) => if |fs| == 2 then PullConstFactorFromSum(fs[0], fs[1], args.1) else None
    case _ => None
  }

  function ScalarIndexedSumRules(): seq<Rule<(Scalar, seq<IndexRange>), Scalar>>
  {
    [Rule("R001", SumR001), Rule("R002", SumR002)]
  }

  lemma {:induction false} SumR002Sound(t: Scalar, ranges: seq<IndexRange>, r: Scalar, I: Interp)
    requires SumR002((t, ranges)) == Some(r)
    ensures Eval(r, I) == Eval(ScalarIndexedSum(t, ranges), I)
  {
    var x := t.factors[0];
    var y := t.factors[1];
    assert t.factors == [x, y];
    assert [x, y][1..] == [y] && [y][1..] == [];
    var B := BoundSymbols(ranges);
    assert FreeSymbols(x) !! B;
    forall K | SameExcept(I, K, B) ensures Eval(t, K) == Mul(Eval(x, I), Eval(y, K)) {
      Coincide(x, I, K, B);
      assert ProductValue([y], K) == Eval(y, K);
    }
    RangeSumScale(ranges, I, Eval(x, I), J => Eval(y, J), J => Eval(t, J));
    var s := ScalarIndexedSum(y, ranges);
    assert r == ScalarTimes([x, s]);
    assert [x, s][1..] == [s] && [s][1..] == [];
    assert ProductValue([s], I) == Eval(s, I);
  }

  /** Both indexed-sum rules keep the value of the sum, with no side condition. */
  lemma {:induction false} ScalarIndexedSumRulesSound(k: nat, t: Scalar, ranges: seq<IndexRange>, r: Scalar, I: Interp)
    requires k < |ScalarIndexedSumRules()| && ScalarIndexedSumRules()[k].fire((t, ranges)) == Some(r)
    ensures Eval(r, I) == Eval(ScalarIndexedSum(t, ranges), I)
  {
    if k == 0 {
      RangeSumOfZero(ranges, I, J => Eval(t, J));
    } else {
      SumR002Sound(t, ranges, r, I);
    }
  }
}
