/**
 * Exact complex numbers over Dafny's `real`, and finite sums of complex-valued
 * sequences. These are the values scalars, matrix entries and ket components
 * take in the semantics of the algebra.
 */
module Complex {
  datatype C = C(re: real, im: real)

  const Zero := C(0.0, 0.0)
  const One := C(1.0, 0.0)
  const MinusOne := C(-1.0, 0.0)
  /** The imaginary unit, sympy's `I`. */
  const ImagUnit := C(0.0, 1.0)

  function FromInt(n: int): C { C(n as real, 0.0) }

  /** The field operations, written as function values. */
  const Add: (C, C) -> C := (a: C, b: C) => C(a.re + b.re, a.im + b.im)
  const Neg: C -> C := (a: C) => C(-a.re, -a.im)
  const Sub: (C, C) -> C := (a: C, b: C) => C(a.re - b.re, a.im - b.im)
  const Mul: (C, C) -> C := (a: C, b: C) => C(a.re * b.re - a.im * b.im, a.re * b.im + a.im * b.re)
  const Conj: C -> C := (a: C) => C(a.re, -a.im)
  function NormSq(a: C): real { a.re * a.re + a.im * a.im }

  /** `a` is not zero: its squared modulus does not vanish. */
  predicate NonZero(a: C) { NormSq(a) != 0.0 }

  /** Multiplicative inverse of a non-zero number. */
  function Inv(a: C): C
    requires NonZero(a)
  {
    C(a.re / NormSq(a), -a.im / NormSq(a))
  }

  function PowNat(b: C, n: nat): C
  {
    if n == 0 then One else Mul(PowNat(b, n - 1), b)
  }

  /** The exponent as an integer when it is a real integer. */
  predicate IsInt(e: C) { e.im == 0.0 && e.re == e.re.Floor as real }
  predicate IsNat(e: C) { IsInt(e) && e.re >= 0.0 }

  // ---------------------------------------------------------------------
  // Field laws used by the soundness proofs
  // ---------------------------------------------------------------------

  lemma AddComm(a: C, b: C) ensures Add(a, b) == Add(b, a) {}
  lemma AddAssoc(a: C, b: C, c: C) ensures Add(Add(a, b), c) == Add(a, Add(b, c)) {}
  lemma MulComm(a: C, b: C) ensures Mul(a, b) == Mul(b, a) {}
  lemma MulAssoc(a: C, b: C, c: C) ensures Mul(Mul(a, b), c) == Mul(a, Mul(b, c)) {}
  lemma MulAddLeft(a: C, b: C, c: C) ensures Mul(a, Add(b, c)) == Add(Mul(a, b), Mul(a, c)) {}
  lemma MulAddRight(a: C, b: C, c: C) ensures Mul(Add(a, b), c) == Add(Mul(a, c), Mul(b, c)) {}
  lemma ConjMul(a: C, b: C) ensures Conj(Mul(a, b)) == Mul(Conj(a), Conj(b)) {}
  lemma MulNegOne(a: C) ensures Mul(MinusOne, a) == Neg(a) {}
  lemma MulZero(a: C) ensures Mul(Zero, a) == Zero && Mul(a, Zero) == Zero {}
  lemma MulOne(a: C) ensures Mul(One, a) == a && Mul(a, One) == a {}
  lemma AddZero(a: C) ensures Add(a, Zero) == a && Add(Zero, a) == a {}
  lemma SubSelf(a: C) ensures Sub(a, a) == Zero {}
  lemma AddMinusOne(a: C, b: C) ensures Add(a, Mul(MinusOne, b)) == Sub(a, b) {}
  lemma MulSub(c: C, x: C, y: C) ensures Mul(c, Sub(x, y)) == Sub(Mul(c, x), Mul(c, y)) {}

  lemma ZeroIsNotNonZero()
    ensures !NonZero(Zero)
  {}

  lemma MulInv(a: C)
    requires NonZero(a)
    ensures Mul(a, Inv(a)) == One
  {
    var n := NormSq(a);
    calc {
      Mul(a, Inv(a)).re;
      a.re * (a.re / n) - a.im * (-a.im / n);
      (a.re * a.re + a.im * a.im) / n;
      1.0;
    }
    calc {
      Mul(a, Inv(a)).im;
      a.re * (-a.im / n) + a.im * (a.re / n);
      0.0;
    }
  }

  lemma {:induction false} PowNatAdd(b: C, m: nat, n: nat)
    ensures PowNat(b, m + n) == Mul(PowNat(b, m), PowNat(b, n))
    decreases n
  {
    if n == 0 {
    } else {
      calc {
        PowNat(b, m + n);
        Mul(PowNat(b, m + n - 1), b);
        { PowNatAdd(b, m, n - 1); }
        Mul(Mul(PowNat(b, m), PowNat(b, n - 1)), b);
        { MulAssoc(PowNat(b, m), PowNat(b, n - 1), b); }
        Mul(PowNat(b, m), PowNat(b, n));
      }
    }
  }

  lemma {:induction false} PowNatMul(b: C, m: nat, n: nat)
    ensures PowNat(PowNat(b, m), n) == PowNat(b, m * n)
    decreases n
  {
    if n == 0 {
    } else {
      var k: nat := m * (n - 1);
      assert k + m == m * n by { MulSucc(m, n - 1); }
      calc {
        PowNat(PowNat(b, m), n);
        Mul(PowNat(PowNat(b, m), n - 1), PowNat(b, m));
        { PowNatMul(b, m, n - 1); }
        Mul(PowNat(b, k), PowNat(b, m));
        { PowNatAdd(b, k, m); }
        PowNat(b, k + m);
      }
    }
  }

  // ---------------------------------------------------------------------
  // Integer powers of a non-zero number
  // ---------------------------------------------------------------------

  /** b ** n for an integer n: a negative power is a power of the inverse. */
  function ZPow(b: C, n: int): C
    requires NonZero(b)
  {
    if n >= 0 then PowNat(b, n) else PowNat(Inv(b), -n)
  }

  lemma {:induction false} ZPowSucc(b: C, n: int)
    requires NonZero(b)
    ensures ZPow(b, n + 1) == Mul(ZPow(b, n), b)
  {
    if n < 0 {
      var k: nat := -n - 1;
      var p := PowNat(Inv(b), k);
      assert ZPow(b, n) == Mul(p, Inv(b));
      MulAssoc(p, Inv(b), b);
      MulInv(b);
      MulComm(b, Inv(b));
      MulOne(p);
      assert ZPow(b, n + 1) == p;
    }
  }

  lemma {:induction false} ZPowPred(b: C, n: int)
    requires NonZero(b)
    ensures ZPow(b, n - 1) == Mul(ZPow(b, n), Inv(b))
  {
    ZPowSucc(b, n - 1);
    MulAssoc(ZPow(b, n - 1), b, Inv(b));
    MulInv(b);
    MulOne(ZPow(b, n - 1));
  }

  /** b ** (m + n) == b ** m * b ** n for all integers m, n. */
  lemma {:induction false} ZPowAdd(b: C, m: int, n: int)
    requires NonZero(b)
    ensures ZPow(b, m + n) == Mul(ZPow(b, m), ZPow(b, n))
    decreases if n >= 0 then n else -n
  {
    if n == 0 {
      MulOne(ZPow(b, m));
    } else if n > 0 {
      ZPowAdd(b, m, n - 1);
      ZPowSucc(b, m + n - 1);
      ZPowSucc(b, n - 1);
      MulAssoc(ZPow(b, m), ZPow(b, n - 1), b);
    } else {
      ZPowAdd(b, m, n + 1);
      ZPowPred(b, m + n + 1);
      ZPowPred(b, n + 1);
      MulAssoc(ZPow(b, m), ZPow(b, n + 1), Inv(b));
    }
  }

  /** The squared modulus is multiplicative. */
  lemma NormSqMul(x: C, y: C)
    ensures NormSq(Mul(x, y)) == NormSq(x) * NormSq(y)
  {
  }

  /** An integer power of a non-zero number is not zero. */
  lemma {:induction false} ZPowNonZero(b: C, n: int)
    requires NonZero(b)
    ensures NonZero(ZPow(b, n))
  {
    ZPowAdd(b, n, -n);
    NormSqMul(ZPow(b, n), ZPow(b, -n));
    assert NormSq(ZPow(b, n)) * NormSq(ZPow(b, -n)) == 1.0;
  }

  /** (b ** m) ** n == b ** (m n) for all integers m, n. */
  lemma {:induction false} ZPowMul(b: C, m: int, n: int)
    requires NonZero(b)
    ensures NonZero(ZPow(b, m)) && ZPow(ZPow(b, m), n) == ZPow(b, m * n)
    decreases if n >= 0 then n else -n
  {
    ZPowNonZero(b, m);
    var c := ZPow(b, m);
    if n > 0 {
      ZPowMul(b, m, n - 1);
      ZPowSucc(c, n - 1);
      ZPowAdd(b, m * (n - 1), m);
      MulSucc(m, n - 1);
    } else if n < 0 {
      ZPowMul(b, m, n + 1);
      ZPowPred(c, n + 1);
      ZPowAdd(b, m * n, m);
      MulSucc(m, n);
      MulAssoc(ZPow(b, m * n), c, Inv(c));
      MulInv(c);
      MulOne(ZPow(b, m * n));
    }
  }

  lemma MulSucc(m: int, n: int)
    ensures m * n + m == m * (n + 1)
  {}

  // ---------------------------------------------------------------------
  // Finite sums: Sum(n, f) is f(0) + ... + f(n-1)
  // ---------------------------------------------------------------------

  function Sum(n: nat, f: int -> C): C
  {
    if n == 0 then Zero else Add(Sum(n - 1, f), f(n - 1))
  }

  lemma {:induction false} SumExt(n: nat, f: int -> C, g: int -> C)
    requires forall k :: 0 <= k < n ==> f(k) == g(k)
    ensures Sum(n, f) == Sum(n, g)
  {
    if n > 0 {
      SumExt(n - 1, f, g);
    }
  }

  lemma {:induction false} SumOfZero(n: nat, f: int -> C)
    requires forall k :: 0 <= k < n ==> f(k) == Zero
    ensures Sum(n, f) == Zero
  {
    if n > 0 {
      SumOfZero(n - 1, f);
    }
  }

  lemma {:induction false} SumAdd(n: nat, f: int -> C, g: int -> C, h: int -> C)
    requires forall k :: 0 <= k < n ==> h(k) == Add(f(k), g(k))
    ensures Sum(n, h) == Add(Sum(n, f), Sum(n, g))
  {
    if n > 0 {
      SumAdd(n - 1, f, g, h);
    }
  }

  lemma {:induction false} SumSub(n: nat, f: int -> C, g: int -> C, h: int -> C)
    requires forall k :: 0 <= k < n ==> h(k) == Sub(f(k), g(k))
    ensures Sum(n, h) == Sub(Sum(n, f), Sum(n, g))
  {
    if n > 0 {
      SumSub(n - 1, f, g, h);
    }
  }

  lemma {:induction false} SumScaleLeft(n: nat, c: C, f: int -> C, h: int -> C)
    requires forall k :: 0 <= k < n ==> h(k) == Mul(c, f(k))
    ensures Sum(n, h) == Mul(c, Sum(n, f))
  {
    if n > 0 {
      SumScaleLeft(n - 1, c, f, h);
      MulAddLeft(c, Sum(n - 1, f), f(n - 1));
    }
  }

  lemma SumScaleRight(n: nat, f: int -> C, c: C, h: int -> C)
    requires forall k :: 0 <= k < n ==> h(k) == Mul(f(k), c)
    ensures Sum(n, h) == Mul(Sum(n, f), c)
  {
    forall k | 0 <= k < n ensures h(k) == Mul(c, f(k)) { MulComm(f(k), c); }
    SumScaleLeft(n, c, f, h);
    MulComm(c, Sum(n, f));
  }

  lemma {:induction false} SumOfOne(n: nat, f: int -> C)
    requires forall k :: 0 <= k < n ==> f(k) == One
    ensures Sum(n, f) == FromInt(n)
  {
    if n > 0 {
      SumOfOne(n - 1, f);
    }
  }

  /** A sum whose terms vanish except possibly at `a` is the term at `a` (or zero). */
  lemma {:induction false} SumSingle(n: nat, a: int, f: int -> C)
    requires forall k :: 0 <= k < n && k != a ==> f(k) == Zero
    ensures Sum(n, f) == if 0 <= a < n then f(a) else Zero
  {
    if n > 0 {
      SumSingle(n - 1, a, f);
    }
  }

  lemma {:induction false} SumConj(n: nat, f: int -> C, h: int -> C)
    requires forall k :: 0 <= k < n ==> h(k) == Conj(f(k))
    ensures Conj(Sum(n, f)) == Sum(n, h)
  {
    if n > 0 {
      SumConj(n - 1, f, h);
    }
  }

  /** Exchange of the order of summation. */
  lemma {:induction false} SumSwap(n: nat, m: nat, f: (int, int) -> C)
    ensures Sum(n, i => Sum(m, j => f(i, j))) == Sum(m, j => Sum(n, i => f(i, j)))
  {
    if n > 0 {
      var rows := i => Sum(m, j => f(i, j));
      var cols := j => Sum(n, i => f(i, j));
      var colsBefore := j => Sum(n - 1, i => f(i, j));
      var last := j => f(n - 1, j);
      SumSwap(n - 1, m, f);
      assert Sum(n - 1, rows) == Sum(m, colsBefore);
      assert rows(n - 1) == Sum(m, last);
      forall j | 0 <= j < m ensures cols(j) == Add(colsBefore(j), last(j)) {}
      SumAdd(m, colsBefore, last, cols);
      calc {
        Sum(n, rows);
        Add(Sum(n - 1, rows), rows(n - 1));
        Add(Sum(m, colsBefore), Sum(m, last));
        Sum(m, cols);
      }
    } else {
      SumOfZero(m, j => Sum(n, i => f(i, j)));
    }
  }
  /** A factor common to the left-hand terms of a sum of products comes out. */
  lemma SumMulScaleLeft(n: nat, c: C, f: int -> C, f': int -> C, g: int -> C)
    requires forall k :: 0 <= k < n ==> f(k) == Mul(c, f'(k))
    ensures Sum(n, k => Mul(f(k), g(k))) == Mul(c, Sum(n, k => Mul(f'(k), g(k))))
  {
    forall k | 0 <= k < n ensures Mul(f(k), g(k)) == Mul(c, Mul(f'(k), g(k))) {
      MulAssoc(c, f'(k), g(k));
    }
    SumScaleLeft(n, c, k => Mul(f'(k), g(k)), k => Mul(f(k), g(k)));
  }

  /** A factor common to the right-hand terms of a sum of products comes out. */
  lemma SumMulScaleRight(n: nat, c: C, f: int -> C, g: int -> C, g': int -> C)
    requires forall k :: 0 <= k < n ==> g(k) == Mul(c, g'(k))
    ensures Sum(n, k => Mul(f(k), g(k))) == Mul(c, Sum(n, k => Mul(f(k), g'(k))))
  {
    forall k | 0 <= k < n ensures Mul(f(k), g(k)) == Mul(c, Mul(f(k), g'(k))) {
      MulAssoc(f(k), c, g'(k));
      MulComm(f(k), c);
      MulAssoc(c, f(k), g'(k));
    }
    SumScaleLeft(n, c, k => Mul(f(k), g'(k)), k => Mul(f(k), g(k)));
  }
}
