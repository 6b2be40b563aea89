/**
 * Matrices of expressions: a rectangular two-dimensional array of entries,
 * built from a one- or two-dimensional array, with the element-wise and
 * matrix arithmetic, transpose, adjoint, trace, stacking, diagonal and block
 * constructions, and the block-diagonal decomposition.
 *
 * Entries are of a generic type `T`; what the entries themselves can do
 * (add, multiply, be compared with zero, be adjoined) is given by `EntryOps`.
 */
module MatrixAlgebra {
  import opened Wrappers

  /** The operations on entries that the matrix operations use. */
  datatype EntryOps<!T> = EntryOps(
    add: (T, T) -> T,
    mul: (T, T) -> T,
    zero: T,         // the integer 0 that numpy fills in
    one: T,          // the integer 1 of `identity_matrix`
    minusOne: T,     // the -1 that subtraction and negation multiply by
    isZero: T -> bool,
    adjoint: T -> T)

  /** The exceptions the matrix operations raise. */
  datatype MatrixError = ValueError | IndexError | AttributeError | NonSquareMatrix

  /** A two-dimensional array: its rows, and the number of columns (which a matrix without rows still has). */
  datatype Matrix<T> = Matrix(rows: seq<seq<T>>, ncols: nat)
  {
    predicate Rectangular()
    {
      forall r :: 0 <= r < |rows| ==> |rows[r]| == ncols
    }
  }

  type Mat<T> = m: Matrix<T> | m.Rectangular() witness Matrix([], 0)

  /** What `Matrix(m)` is given: another Matrix, or an array of some number of dimensions. */
  datatype NdArray<T> =
    | Array0(item: T)               // a zero-dimensional array
    | Array1(items: seq<T>)         // a one-dimensional array (or flat list)
    | Array2(m: Mat<T>)             // a two-dimensional array (or list of equal-length lists)
    | ArrayN(ndim: nat)             // an array of three or more dimensions

  datatype MatrixArg<T> = FromMatrix(matrix: Mat<T>) | FromArray(data: NdArray<T>)

  // ---------------------------------------------------------------------
  // Construction and shape
  // ---------------------------------------------------------------------

  /** The n x 1 column holding `v`. */
  function Column<T>(v: seq<T>): (c: Mat<T>)
    ensures |c.rows| == |v| && c.ncols == 1
  {
    Matrix(seq(|v|, i requires 0 <= i < |v| => [v[i]]), 1)
  }

  /**
   * `Matrix.__init__`: a Matrix is copied, a one-dimensional array becomes a
   * column, a two-dimensional one is kept; an array of more dimensions is a
   * ValueError, and a zero-dimensional one has no first dimension to reshape
   * by (IndexError).
   */
  function MakeMatrix<T>(arg: MatrixArg<T>): Result<Mat<T>, MatrixError>
  {
    match arg
    case FromMatrix(m) => Success(m)
    case FromArray(a) =>
      match a
      case Array0(_) => Failure(IndexError)
      case Array1(v) => Success(Column(v))
      case Array2(m) => Success(m)
      case ArrayN(_) => Failure(ValueError)
  }

  /** `shape`: (number of rows, number of columns). */
  function Shape<T>(m: Mat<T>): (nat, nat)
  {
    (|m.rows|, m.ncols)
  }

  /** The entries in row-major order (numpy's `ravel`). */
  function Ravel<T>(m: Mat<T>): seq<T>
  {
    Flatten(m.rows)
  }

  function Flatten<T>(rows: seq<seq<T>>): seq<T>
  {
    if |rows| == 0 then [] else rows[0] + Flatten(rows[1..])
  }

  lemma {:induction false} FlattenMembers<T>(rows: seq<seq<T>>, x: T)
    ensures x in Flatten(rows) <==> exists r :: 0 <= r < |rows| && x in rows[r]
  {
    if |rows| > 0 {
      FlattenMembers(rows[1..], x);
      if x in rows[0] {
      } else if x in Flatten(rows[1..]) {
        var r :| 0 <= r < |rows[1..]| && x in rows[1..][r];
        assert x in rows[r + 1];
      } else {
        forall r | 0 <= r < |rows| ensures x !in rows[r] {
          if r > 0 { assert rows[r] == rows[1..][r - 1]; }
        }
      }
    }
  }

  lemma {:induction false} FlattenLength<T>(rows: seq<seq<T>>, w: nat)
    requires forall r :: 0 <= r < |rows| ==> |rows[r]| == w
    ensures |Flatten(rows)| == |rows| * w
  {
    if |rows| > 0 {
      FlattenLength(rows[1..], w);
    }
  }

  /**
   * Construction keeps every entry: a one-dimensional array becomes an
   * n x 1 column whose entries, read in order, are the array; a Matrix or a
   * two-dimensional array is kept as it is; zero and three or more dimensions
   * fail.
   */
  lemma {:induction false} MakeMatrixSound<T>(arg: MatrixArg<T>)
    ensures arg.FromArray? && arg.data.Array1? ==>
      MakeMatrix(arg).Success? && Shape(MakeMatrix(arg).value) == (|arg.data.items|, 1)
      && Ravel(MakeMatrix(arg).value) == arg.data.items
    ensures arg.FromMatrix? ==> MakeMatrix(arg) == Success(arg.matrix)
    ensures arg.FromArray? && arg.data.Array2? ==> MakeMatrix(arg) == Success(arg.data.m)
    ensures arg.FromArray? && arg.data.Array0? ==> MakeMatrix(arg) == Failure(IndexError)
    ensures arg.FromArray? && arg.data.ArrayN? ==> MakeMatrix(arg) == Failure(ValueError)
  {
    if arg.FromArray? && arg.data.Array1? {
      ColumnRavel(arg.data.items);
    }
  }

  lemma {:induction false} ColumnRavel<T>(v: seq<T>)
    ensures Ravel(Column(v)) == v
  {
    if |v| > 0 {
      assert Column(v).rows[1..] == Column(v[1..]).rows;
      ColumnRavel(v[1..]);
      assert v == [v[0]] + v[1..];
    }
  }

  // ---------------------------------------------------------------------
  // is_zero
  // ---------------------------------------------------------------------

  predicate AllZero<T>(m: Mat<T>, isZero: T -> bool)
  {
    forall r, c :: 0 <= r < |m.rows| && 0 <= c < m.ncols ==> isZero(m.rows[r][c])
  }

  /** `is_zero`: scans the entries in row-major order and stops at the first that is not zero. */
  method IsZero<T>(m: Mat<T>, isZero: T -> bool) returns (b: bool)
    ensures b <==> AllZero(m, isZero)
  {
    var flat := Ravel(m);
    for k := 0 to |flat|
      invariant forall l :: 0 <= l < k ==> isZero(flat[l])
    {
      if !isZero(flat[k]) {
        FlattenMembers(m.rows, flat[k]);
        return false;
      }
    }
    forall r, c | 0 <= r < |m.rows| && 0 <= c < m.ncols ensures isZero(m.rows[r][c]) {
      FlattenMembers(m.rows, m.rows[r][c]);
    }
    return true;
  }

  // ---------------------------------------------------------------------
  // Transpose, element-wise map, adjoint and trace
  // ---------------------------------------------------------------------

  /** `transpose`. */
  function Transpose<T>(m: Mat<T>): (t: Mat<T>)
    ensures Shape(t) == (Shape(m).1, Shape(m).0)
    ensures forall r, c :: 0 <= r < |t.rows| && 0 <= c < t.ncols ==> t.rows[r][c] == m.rows[c][r]
  {
    Matrix(seq(m.ncols, c requires 0 <= c < m.ncols => seq(|m.rows|, r requires 0 <= r < |m.rows| => m.rows[r][c])), |m.rows|)
  }

  /** Two matrices of the same shape with the same entries are equal. */
  lemma {:induction false} MatrixExt<T>(a: Mat<T>, b: Mat<T>)
    requires Shape(a) == Shape(b)
    requires forall r, c :: 0 <= r < |a.rows| && 0 <= c < a.ncols ==> a.rows[r][c] == b.rows[r][c]
    ensures a == b
  {
    assert forall r :: 0 <= r < |a.rows| ==> a.rows[r] == b.rows[r];
  }

  /** Transposing twice gives back the matrix. */
  lemma {:induction false} TransposeInvolution<T>(m: Mat<T>)
    ensures Transpose(Transpose(m)) == m
  {
    MatrixExt(Transpose(Transpose(m)), m);
  }

  /** `element_wise(func)`: the same shape, with `func` applied to every entry. */
  function ElementWise<T, U>(m: Mat<T>, f: T -> U): (e: Mat<U>)
    ensures Shape(e) == Shape(m)
    ensures forall r, c :: 0 <= r < |e.rows| && 0 <= c < e.ncols ==> e.rows[r][c] == f(m.rows[r][c])
  {
    Matrix(seq(|m.rows|, r requires 0 <= r < |m.rows| => seq(m.ncols, c requires 0 <= c < m.ncols => f(m.rows[r][c]))), m.ncols)
  }

  /** Mapping twice is mapping by the composition. */
  lemma {:induction false} ElementWiseCompose<T, U, V>(m: Mat<T>, f: T -> U, g: U -> V)
    ensures ElementWise(ElementWise(m, f), g) == ElementWise(m, x => g(f(x)))
  {
    MatrixExt(ElementWise(ElementWise(m, f), g), ElementWise(m, x => g(f(x))));
  }

  /** `adjoint`: the transpose, with the adjoint taken of every entry. */
  function Adjoint<T>(m: Mat<T>, ops: EntryOps<T>): (a: Mat<T>)
    ensures Shape(a) == (Shape(m).1, Shape(m).0)
    ensures forall r, c :: 0 <= r < |a.rows| && 0 <= c < a.ncols ==> a.rows[r][c] == ops.adjoint(m.rows[c][r])
  {
    ElementWise(Transpose(m), ops.adjoint)
  }

  /** If the adjoint of an entry is an involution, so is the adjoint of a matrix. */
  lemma {:induction false} AdjointInvolution<T>(m: Mat<T>, ops: EntryOps<T>)
    requires forall x :: ops.adjoint(ops.adjoint(x)) == x
    ensures Adjoint(Adjoint(m, ops), ops) == m
  {
    MatrixExt(Adjoint(Adjoint(m, ops), ops), m);
  }

  /** Sum of the first k diagonal entries, added up from zero as Python's `sum` does. */
  function DiagonalSum<T>(m: Mat<T>, k: nat, ops: EntryOps<T>): T
    requires k <= |m.rows| && k <= m.ncols
  {
    if k == 0 then ops.zero else ops.add(DiagonalSum(m, k - 1, ops), m.rows[k - 1][k - 1])
  }

  /** `trace`: the sum of the diagonal of a square matrix; NonSquareMatrix otherwise. */
  function Trace<T>(m: Mat<T>, ops: EntryOps<T>): Result<T, MatrixError>
  {
    if |m.rows| == m.ncols then Success(DiagonalSum(m, |m.rows|, ops)) else Failure(NonSquareMatrix)
  }

  /** The trace fails exactly for non-square matrices, and a matrix and its transpose have the same trace. */
  lemma {:induction false} TraceTranspose<T>(m: Mat<T>, ops: EntryOps<T>)
    ensures Trace(m, ops).Failure? <==> Shape(m).0 != Shape(m).1
    ensures Trace(Transpose(m), ops) == Trace(m, ops)
  {
    if |m.rows| == m.ncols {
      DiagonalSumTranspose(m, |m.rows|, ops);
    }
  }

  lemma {:induction false} DiagonalSumTranspose<T>(m: Mat<T>, k: nat, ops: EntryOps<T>)
    requires k <= |m.rows| && k <= m.ncols
    ensures DiagonalSum(Transpose(m), k, ops) == DiagonalSum(m, k, ops)
  {
    if k > 0 {
      DiagonalSumTranspose(m, k - 1, ops);
    }
  }

  // ---------------------------------------------------------------------
  // Slices
  // ---------------------------------------------------------------------

  /** A Python slice bound: a negative bound counts from the end, and bounds are clamped to 0 .. n. */
  function PyIndex(j: int, n: nat): (r: nat)
    ensures r <= n
    ensures 0 <= j <= n ==> r == j
  {
    if j < 0 then (if n + j < 0 then 0 else n + j) else if j > n then n else j
  }

  /** m[r0:r1, c0:c1], for bounds already normalised. */
  function Sub<T>(m: Mat<T>, r0: nat, r1: nat, c0: nat, c1: nat): (s: Mat<T>)
    requires r0 <= r1 <= |m.rows| && c0 <= c1 <= m.ncols
    ensures Shape(s) == (r1 - r0, c1 - c0)
    ensures forall r, c :: 0 <= r < r1 - r0 && 0 <= c < c1 - c0 ==> s.rows[r][c] == m.rows[r0 + r][c0 + c]
  {
    Matrix(seq(r1 - r0, i requires 0 <= i < r1 - r0 => m.rows[r0 + i][c0..c1]), c1 - c0)
  }

  /** Taking all columns keeps the rows as they are. */
  lemma {:induction false} SubAllColumns<T>(m: Mat<T>, r0: nat, r1: nat)
    requires r0 <= r1 <= |m.rows|
    ensures Sub(m, r0, r1, 0, m.ncols).rows == m.rows[r0..r1]
  {
    forall i | 0 <= i < r1 - r0
      ensures Sub(m, r0, r1, 0, m.ncols).rows[i] == m.rows[r0..r1][i]
    {
      assert |m.rows[r0 + i]| == m.ncols;
    }
  }

  /** A slice of a slice is a slice. */
  lemma {:induction false} SubOfSub<T>(m: Mat<T>, j: nat, a: nat, b: nat)
    requires j <= |m.rows| && |m.rows| == m.ncols && a <= b <= |m.rows| - j
    ensures Sub(Sub(m, j, |m.rows|, j, m.ncols), a, b, a, b) == Sub(m, j + a, j + b, j + a, j + b)
  {
    MatrixExt(Sub(Sub(m, j, |m.rows|, j, m.ncols), a, b, a, b), Sub(m, j + a, j + b, j + a, j + b));
  }

  predicate IsSquare<T>(m: Mat<T>)
  {
    |m.rows| == m.ncols
  }

  /** (m[:k, k:] == 0).all() and (m[k:, :k] == 0).all(): cutting a square matrix at k leaves zero off-diagonal blocks. */
  predicate OffDiagonalZero<T>(m: Mat<T>, k: nat, isZero: T -> bool)
    requires IsSquare(m) && k <= |m.rows|
  {
    AllZero(Sub(m, 0, k, k, m.ncols), isZero) && AllZero(Sub(m, k, |m.rows|, 0, k), isZero)
  }

  function SumInts(s: seq<int>): int
  {
    if |s| == 0 then 0 else s[0] + SumInts(s[1..])
  }

  lemma {:induction false} SumIntsNonNegative(s: seq<int>)
    requires forall k :: 0 <= k < |s| ==> s[k] >= 0
    ensures SumInts(s) >= 0
  {
    if |s| > 0 {
      SumIntsNonNegative(s[1..]);
    }
  }

  /** The offset of block k: the sum of the sizes before it. */
  lemma {:induction false} OffsetStep(bs: seq<int>, k: nat)
    requires 1 <= k <= |bs|
    ensures SumInts(bs[..k]) == bs[0] + SumInts(bs[1..][..k - 1])
  {
    assert bs[..k][1..] == bs[1..][..k - 1];
  }

  // ---------------------------------------------------------------------
  // block_structure
  // ---------------------------------------------------------------------

  /** The first k in k0 .. n-1 at which the square matrix can be cut, or n if there is none. */
  function FirstCut<T>(m: Mat<T>, k0: nat, isZero: T -> bool): (c: nat)
    requires IsSquare(m) && 1 <= k0
    ensures c == |m.rows| || (k0 <= c < |m.rows| && OffDiagonalZero(m, c, isZero))
    ensures forall k :: k0 <= k < c && k < |m.rows| ==> !OffDiagonalZero(m, k, isZero)
    decreases |m.rows| - k0
  {
    if k0 >= |m.rows| then |m.rows|
    else if OffDiagonalZero(m, k0, isZero) then k0
    else FirstCut(m, k0 + 1, isZero)
  }

  /** The block sizes of a square matrix: cut at the first possible place, then decompose the rest. */
  function Structure<T>(m: Mat<T>, isZero: T -> bool): (bs: seq<int>)
    requires IsSquare(m)
    ensures |bs| >= 1 && SumInts(bs) == |m.rows|
    ensures |m.rows| > 0 ==> forall k :: 0 <= k < |bs| ==> bs[k] > 0
    decreases |m.rows|
  {
    var c := FirstCut(m, 1, isZero);
    if c < |m.rows| then
      var rest := Structure(Sub(m, c, |m.rows|, c, m.ncols), isZero);
      assert ([c] + rest)[1..] == rest;
      [c] + rest
    else [|m.rows|]
  }

  /** `block_structure`: defined for square matrices only (AttributeError otherwise). */
  function BlockStructure<T>(m: Mat<T>, isZero: T -> bool): Result<seq<int>, MatrixError>
  {
    if IsSquare(m) then Success(Structure(m, isZero)) else Failure(AttributeError)
  }

  /**
   * The block structure is a sequence of sizes that add up to the dimension,
   * positive unless the matrix is empty; its first size is the first place
   * where the matrix can be cut.
   */
  lemma {:induction false} BlockStructureSound<T>(m: Mat<T>, isZero: T -> bool)
    ensures BlockStructure(m, isZero).Failure? <==> !IsSquare(m)
    ensures BlockStructure(m, isZero).Success? ==>
      var bs := BlockStructure(m, isZero).value;
      |bs| >= 1 && SumInts(bs) == |m.rows| && (|m.rows| > 0 ==> forall k :: 0 <= k < |bs| ==> bs[k] > 0)
      && (|m.rows| == 0 ==> bs == [0])
      && (bs[0] < |m.rows| ==> OffDiagonalZero(m, bs[0], isZero))
      && forall k :: 1 <= k < bs[0] ==> !OffDiagonalZero(m, k, isZero)
  {
  }

  // ---------------------------------------------------------------------
  // _get_blocks
  // ---------------------------------------------------------------------

  /**
   * The square branch of `_get_blocks`: the sizes must add up to the
   * dimension, and the matrix must be cut cleanly after the first block.
   */
  function SquareBlocks<T>(m: Mat<T>, bs: seq<int>, isZero: T -> bool): Result<seq<Mat<T>>, MatrixError>
    requires IsSquare(m)
    decreases |bs|
  {
    if SumInts(bs) != |m.rows| then Failure(ValueError)
    else if |bs| == 0 then Success([])
    else
      var j := PyIndex(bs[0], |m.rows|);
      if OffDiagonalZero(m, j, isZero) then
        match SquareBlocks(Sub(m, j, |m.rows|, j, m.ncols), bs[1..], isZero)
        case Success(rest) => Success([Sub(m, 0, j, 0, j)] + rest)
        case Failure(e) => Failure(e)
      else Failure(ValueError)
  }

  /** `_get_blocks` with the column branch cutting off the head and recursing on the rest of the column. */
  function GetBlocks<T>(m: Mat<T>, bs: seq<int>, isZero: T -> bool): Result<seq<Mat<T>>, MatrixError>
    decreases |bs|, 1
  {
    if IsSquare(m) then SquareBlocks(m, bs, isZero)
    else if m.ncols == 1 then ColumnBlocks(m, bs, isZero)
    else Failure(ValueError)
  }

  function ColumnBlocks<T>(m: Mat<T>, bs: seq<int>, isZero: T -> bool): Result<seq<Mat<T>>, MatrixError>
    requires m.ncols == 1
    decreases |bs|, 0
  {
    if |bs| == 0 then Success([])
    else
      var h := PyIndex(bs[0], |m.rows|);
      match GetBlocks(Sub(m, h, |m.rows|, 0, 1), bs[1..], isZero)
      case Success(rest) => Success([Sub(m, 0, h, 0, 1)] + rest)
      case Failure(e) => Failure(e)
  }

  /** `_get_blocks` as written: the column branch recurses on the head block again. */
  function GetBlocksAsWritten<T>(m: Mat<T>, bs: seq<int>, isZero: T -> bool): Result<seq<Mat<T>>, MatrixError>
    decreases |bs|, 1
  {
    if IsSquare(m) then SquareBlocks(m, bs, isZero)
    else if m.ncols == 1 then ColumnBlocksAsWritten(m, bs, isZero)
    else Failure(ValueError)
  }

  function ColumnBlocksAsWritten<T>(m: Mat<T>, bs: seq<int>, isZero: T -> bool): Result<seq<Mat<T>>, MatrixError>
    requires m.ncols == 1
    decreases |bs|, 0
  {
    if |bs| == 0 then Success([])
    else
      var head := Sub(m, 0, PyIndex(bs[0], |m.rows|), 0, 1);
      match GetBlocksAsWritten(head, bs[1..], isZero)
      case Success(rest) => Success([head] + rest)
      case Failure(e) => Failure(e)
  }

  /**
   * The square branch returns the diagonal blocks, in order, of exactly the
   * requested sizes; the sizes add up to the dimension and the matrix is cut
   * cleanly after the first block.
   */
  /** blocks[k] is the diagonal block of size bs[k] that starts at offset bs[0] + ... + bs[k - 1]. */
  ghost predicate DiagonalBlocks<T>(m: Mat<T>, bs: seq<int>, blocks: seq<Mat<T>>)
  {
    IsSquare(m) && |blocks| == |bs|
    && forall k :: 0 <= k < |bs| ==>
         0 <= bs[k] && 0 <= SumInts(bs[..k]) && SumInts(bs[..k]) + bs[k] <= |m.rows|
         && blocks[k] == Sub(m, SumInts(bs[..k]), SumInts(bs[..k]) + bs[k], SumInts(bs[..k]), SumInts(bs[..k]) + bs[k])
  }

  /** Block k >= 1 of a square decomposition is block k - 1 of the decomposition of the rest. */
  lemma {:induction false} LaterBlock<T>(m: Mat<T>, bs: seq<int>, k: nat, b: Mat<T>)
    requires IsSquare(m) && 1 <= k < |bs| && 0 <= bs[0] <= |m.rows|
    requires var sub := Sub(m, bs[0], |m.rows|, bs[0], m.ncols);
      var a := SumInts(bs[1..][..k - 1]);
      0 <= bs[1..][k - 1] && 0 <= a && a + bs[1..][k - 1] <= |sub.rows|
      && b == Sub(sub, a, a + bs[1..][k - 1], a, a + bs[1..][k - 1])
    ensures 0 <= bs[k] && 0 <= SumInts(bs[..k]) && SumInts(bs[..k]) + bs[k] <= |m.rows|
    ensures b == Sub(m, SumInts(bs[..k]), SumInts(bs[..k]) + bs[k], SumInts(bs[..k]), SumInts(bs[..k]) + bs[k])
  {
    var a := SumInts(bs[1..][..k - 1]);
    OffsetStep(bs, k);
    SubOfSub(m, bs[0], a, a + bs[k]);
  }

  /** The first diagonal block followed by the blocks of the rest are the blocks of the whole. */
  lemma {:induction false} BlocksFromRest<T>(m: Mat<T>, bs: seq<int>, rest: seq<Mat<T>>)
    requires IsSquare(m) && |bs| > 0 && 0 <= bs[0] <= |m.rows|
    requires DiagonalBlocks(Sub(m, bs[0], |m.rows|, bs[0], m.ncols), bs[1..], rest)
    ensures DiagonalBlocks(m, bs, [Sub(m, 0, bs[0], 0, bs[0])] + rest)
  {
    var blocks := [Sub(m, 0, bs[0], 0, bs[0])] + rest;
    forall k | 0 <= k < |bs|
      ensures 0 <= bs[k] && 0 <= SumInts(bs[..k]) && SumInts(bs[..k]) + bs[k] <= |m.rows|
      ensures blocks[k] == Sub(m, SumInts(bs[..k]), SumInts(bs[..k]) + bs[k], SumInts(bs[..k]), SumInts(bs[..k]) + bs[k])
    {
      if k == 0 {
        assert bs[..0] == [];
      } else {
        assert blocks[k] == rest[k - 1];
        LaterBlock(m, bs, k, blocks[k]);
      }
    }
  }

  /**
   * The square branch returns the diagonal blocks, in order, of exactly the
   * requested sizes; the sizes add up to the dimension and the matrix is cut
   * cleanly after the first block.
   */
  lemma {:induction false} SquareBlocksSound<T>(m: Mat<T>, bs: seq<int>, isZero: T -> bool)
    requires IsSquare(m) && SquareBlocks(m, bs, isZero).Success?
    ensures SumInts(bs) == |m.rows|
    ensures |bs| > 0 ==> 0 <= bs[0] <= |m.rows| && OffDiagonalZero(m, bs[0], isZero)
    ensures DiagonalBlocks(m, bs, SquareBlocks(m, bs, isZero).value)
    decreases |bs|
  {
    if |bs| > 0 {
      var n := |m.rows|;
      var j := PyIndex(bs[0], n);
      var sub := Sub(m, j, n, j, m.ncols);
      SquareBlocksSound(sub, bs[1..], isZero);
      assert bs[0] == j;
      BlocksFromRest(m, bs, SquareBlocks(sub, bs[1..], isZero).value);
    }
  }

  /** The block structure can always be handed to `_get_blocks`: it never fails on it. */
  lemma {:induction false} StructureBlocks<T>(m: Mat<T>, isZero: T -> bool)
    requires IsSquare(m)
    ensures SquareBlocks(m, Structure(m, isZero), isZero).Success?
    ensures |SquareBlocks(m, Structure(m, isZero), isZero).value| == |Structure(m, isZero)|
    decreases |m.rows|
  {
    var bs := Structure(m, isZero);
    var n := |m.rows|;
    var c := FirstCut(m, 1, isZero);
    if c < n {
      var sub := Sub(m, c, n, c, m.ncols);
      StructureBlocks(sub, isZero);
      assert bs[0] == c && bs[1..] == Structure(sub, isZero);
    } else {
      assert bs[1..] == [];
      assert OffDiagonalZero(m, n, isZero);
      var sub := Sub(m, n, n, n, m.ncols);
      assert SquareBlocks(sub, [], isZero) == Success([]);
    }
  }

  /** The rows of the blocks, stacked one block after another. */
  function StackRows<T>(blocks: seq<Mat<T>>): seq<seq<T>>
  {
    if |blocks| == 0 then [] else blocks[0].rows + StackRows(blocks[1..])
  }

  /** Zero-size blocks of an empty matrix: one empty block per size. */
  lemma {:induction false} EmptyBlocks<T>(m: Mat<T>, bs: seq<int>, isZero: T -> bool)
    requires |m.rows| == 0 && m.ncols == 0
    requires forall k :: 0 <= k < |bs| ==> bs[k] >= 0
    requires SumInts(bs) == 0
    ensures SquareBlocks(m, bs, isZero).Success?
    ensures var blocks := SquareBlocks(m, bs, isZero).value;
      |blocks| == |bs| && StackRows(blocks) == [] && forall k :: 0 <= k < |bs| ==> |blocks[k].rows| == bs[k]
    decreases |bs|
  {
    if |bs| > 0 {
      SumIntsNonNegative(bs[1..]);
      assert bs[0] == 0;
      assert OffDiagonalZero(m, 0, isZero);
      EmptyBlocks(Sub(m, 0, 0, 0, 0), bs[1..], isZero);
    }
  }

  /** A 1 x 1 matrix cut into sizes that are all zero but one 1. */
  lemma {:induction false} SingleEntryBlocks<T>(m: Mat<T>, bs: seq<int>, isZero: T -> bool)
    requires |m.rows| == 1 && m.ncols == 1
    requires forall k :: 0 <= k < |bs| ==> bs[k] >= 0
    requires SumInts(bs) == 1
    ensures SquareBlocks(m, bs, isZero).Success?
    ensures var blocks := SquareBlocks(m, bs, isZero).value;
      |blocks| == |bs| && StackRows(blocks) == m.rows && forall k :: 0 <= k < |bs| ==> |blocks[k].rows| == bs[k]
    decreases |bs|
  {
    SumIntsNonNegative(bs[1..]);
    var j := bs[0];
    assert OffDiagonalZero(m, j, isZero);
    var sub := Sub(m, j, 1, j, 1);
    if j == 0 {
      MatrixExt(sub, m);
      SingleEntryBlocks(m, bs[1..], isZero);
    } else {
      EmptyBlocks(sub, bs[1..], isZero);
      MatrixExt(Sub(m, 0, 1, 0, 1), m);
    }
    var blocks := SquareBlocks(m, bs, isZero).value;
    assert blocks[1..] == SquareBlocks(sub, bs[1..], isZero).value;
  }

  /**
   * With the column branch corrected, a column whose non-negative sizes add
   * up to its length is cut into consecutive pieces of those sizes, which
   * stacked together give the column back.
   */
  lemma {:induction false} ColumnBlocksSound<T>(m: Mat<T>, bs: seq<int>, isZero: T -> bool)
    requires m.ncols == 1
    requires forall k :: 0 <= k < |bs| ==> bs[k] >= 0
    requires SumInts(bs) == |m.rows|
    ensures GetBlocks(m, bs, isZero).Success?
    ensures var blocks := GetBlocks(m, bs, isZero).value;
      |blocks| == |bs| && StackRows(blocks) == m.rows && forall k :: 0 <= k < |bs| ==> |blocks[k].rows| == bs[k]
    decreases |bs|
  {
    if IsSquare(m) {
      SingleEntryBlocks(m, bs, isZero);
    } else if |bs| > 0 {
      var n := |m.rows|;
      SumIntsNonNegative(bs[1..]);
      var h := bs[0];
      assert PyIndex(bs[0], n) == h;
      assert GetBlocks(m, bs, isZero) == ColumnBlocks(m, bs, isZero);
      var head := Sub(m, 0, h, 0, 1);
      var rest := Sub(m, h, n, 0, 1);
      ColumnBlocksSound(rest, bs[1..], isZero);
      SubAllColumns(m, 0, h);
      SubAllColumns(m, h, n);
      var blocks := GetBlocks(m, bs, isZero).value;
      assert blocks == [head] + GetBlocks(rest, bs[1..], isZero).value;
      assert blocks[1..] == GetBlocks(rest, bs[1..], isZero).value;
      assert m.rows == m.rows[0..h] + m.rows[h..n];
    }
  }

  /** The column branch as written cuts the head off twice: [[1],[2],[3],[4]] with sizes [2, 2] gives [[1],[2]] twice. */
  lemma {:induction false} AsWrittenRepeatsHead()
    ensures var m: Mat<int> := Matrix([[1], [2], [3], [4]], 1);
      var bs := [2, 2];
      var isZero := (x: int) => x == 0;
      GetBlocksAsWritten(m, bs, isZero).Success?
      && GetBlocksAsWritten(m, bs, isZero).value[0] == GetBlocksAsWritten(m, bs, isZero).value[1]
      && StackRows(GetBlocksAsWritten(m, bs, isZero).value) != m.rows
      && GetBlocks(m, bs, isZero).Success?
      && StackRows(GetBlocks(m, bs, isZero).value) == m.rows
  {
    var m: Mat<int> := Matrix([[1], [2], [3], [4]], 1);
    var isZero := (x: int) => x == 0;
    var head := Sub(m, 0, 2, 0, 1);
    assert head.rows[0] == m.rows[0][0..1] == [1];
    assert head.rows[1] == m.rows[1][0..1] == [2];
    assert head.rows == [[1], [2]];
    MatrixExt(Sub(head, 0, 2, 0, 1), head);
    assert GetBlocksAsWritten(head, [], isZero) == Success([]);
    assert [2][1..] == [] && [2, 2][1..] == [2];
    assert PyIndex(2, 2) == 2 && PyIndex(2, 4) == 2;
    assert [head] + [] == [head] && [head] + [head] == [head, head];
    assert |head.rows| == 2 && head.ncols == 1 && |m.rows| == 4;
    assert ColumnBlocksAsWritten(head, [2], isZero) == Success([head]);
    assert GetBlocksAsWritten(head, [2], isZero) == Success([head]);
    assert ColumnBlocksAsWritten(m, [2, 2], isZero) == Success([head, head]);
    assert GetBlocksAsWritten(m, [2, 2], isZero) == Success([head, head]);
    assert StackRows([head, head]) == [[1], [2]] + StackRows([head]);
    assert StackRows([head, head])[2] == [1] != m.rows[2];
    ColumnBlocksSound(m, [2, 2], isZero);
  }

  /** The R x C matrix whose entry (r, c) is f(r, c). */
  function Tabulate<T>(R: nat, C: nat, f: (nat, nat) --> T): (m: Mat<T>)
    requires forall r: nat, c: nat :: r < R && c < C ==> f.requires(r, c)
    ensures Shape(m) == (R, C)
    ensures forall r, c :: 0 <= r < R && 0 <= c < C ==> m.rows[r][c] == f(r, c)
  {
    var rows := seq(R, r requires 0 <= r < R => seq(C, c requires 0 <= c < C => f(r, c)));
    assert forall r :: 0 <= r < R ==> |rows[r]| == C;
    Matrix(rows, C)
  }

  // ---------------------------------------------------------------------
  // Addition (with numpy broadcasting) and scalar arithmetic
  // ---------------------------------------------------------------------

  /** The size of an axis when axes of sizes a and b are broadcast together; None if they are incompatible. */
  function BroadcastDim(a: nat, b: nat): (d: Option<nat>)
    ensures d.Some? ==> (a == d.value || a == 1) && (b == d.value || b == 1)
    ensures d.None? <==> a != b && a != 1 && b != 1
    ensures a == b ==> d == Some(a)
  {
    if a == b then Some(a) else if a == 1 then Some(b) else if b == 1 then Some(a) else None
  }

  /** The index that broadcasting reads along an axis of the given size: an axis of size 1 is repeated. */
  function Pick(i: nat, size: nat): (j: nat)
    ensures i < size ==> j == i
  {
    if size == 1 then 0 else i
  }

  /** `a + b` for two matrices: entry by entry, with an axis of size 1 broadcast; ValueError if the shapes do not fit. */
  function Add<T>(a: Mat<T>, b: Mat<T>, add: (T, T) -> T): Result<Mat<T>, MatrixError>
  {
    var rows := BroadcastDim(|a.rows|, |b.rows|);
    var cols := BroadcastDim(a.ncols, b.ncols);
    if rows.None? || cols.None? then Failure(ValueError)
    else
      var R, C := rows.value, cols.value;
      Success(Tabulate(R, C, (r: nat, c: nat) requires r < R && c < C =>
        add(a.rows[Pick(r, |a.rows|)][Pick(c, a.ncols)], b.rows[Pick(r, |b.rows|)][Pick(c, b.ncols)])))
  }

  /**
   * Matrices of the same shape add entry by entry; the sum fails exactly when
   * an axis differs in size and neither size is 1.
   */
  lemma {:induction false} AddSound<T>(a: Mat<T>, b: Mat<T>, add: (T, T) -> T)
    ensures Add(a, b, add).Failure? <==>
      (|a.rows| != |b.rows| && |a.rows| != 1 && |b.rows| != 1) || (a.ncols != b.ncols && a.ncols != 1 && b.ncols != 1)
    ensures Add(a, b, add).Failure? ==> Add(a, b, add).error == ValueError
    ensures Shape(a) == Shape(b) ==>
      Add(a, b, add).Success? && Shape(Add(a, b, add).value) == Shape(a)
      && forall r, c :: 0 <= r < |a.rows| && 0 <= c < a.ncols ==> Add(a, b, add).value.rows[r][c] == add(a.rows[r][c], b.rows[r][c])
  {
    if Shape(a) == Shape(b) {
      forall r, c | 0 <= r < |a.rows| && 0 <= c < a.ncols
        ensures Add(a, b, add).value.rows[r][c] == add(a.rows[r][c], b.rows[r][c])
      {
        assert Pick(r, |a.rows|) == r && Pick(c, a.ncols) == c;
      }
    }
  }

  /** If entries commute under addition, so do matrices (broadcasting included). */
  lemma {:induction false} AddCommutes<T>(a: Mat<T>, b: Mat<T>, add: (T, T) -> T)
    requires forall x, y :: add(x, y) == add(y, x)
    ensures Add(a, b, add) == Add(b, a, add)
  {
    if Add(a, b, add).Success? {
      var s, t := Add(a, b, add).value, Add(b, a, add).value;
      forall r, c | 0 <= r < |s.rows| && 0 <= c < s.ncols ensures s.rows[r][c] == t.rows[r][c] {
        assert s.rows[r][c] == add(a.rows[Pick(r, |a.rows|)][Pick(c, a.ncols)], b.rows[Pick(r, |b.rows|)][Pick(c, b.ncols)]);
      }
      MatrixExt(s, t);
    }
  }

  /** `m + x` for an entry `x` that is not a Matrix: x is added on the right of every entry. */
  function AddEntry<T>(m: Mat<T>, x: T, ops: EntryOps<T>): (s: Mat<T>)
    ensures Shape(s) == Shape(m)
    ensures forall r, c :: 0 <= r < |m.rows| && 0 <= c < m.ncols ==> s.rows[r][c] == ops.add(m.rows[r][c], x)
  {
    ElementWise(m, y => ops.add(y, x))
  }

  /** `x + m` (`__radd__`): x is added on the left of every entry. */
  function EntryAdd<T>(x: T, m: Mat<T>, ops: EntryOps<T>): (s: Mat<T>)
    ensures Shape(s) == Shape(m)
    ensures forall r, c :: 0 <= r < |m.rows| && 0 <= c < m.ncols ==> s.rows[r][c] == ops.add(x, m.rows[r][c])
  {
    ElementWise(m, y => ops.add(x, y))
  }

  /** `m * x` for an entry `x`: every entry multiplied by x on the right. */
  function Scale<T>(m: Mat<T>, x: T, ops: EntryOps<T>): (s: Mat<T>)
    ensures Shape(s) == Shape(m)
    ensures forall r, c :: 0 <= r < |m.rows| && 0 <= c < m.ncols ==> s.rows[r][c] == ops.mul(m.rows[r][c], x)
  {
    ElementWise(m, y => ops.mul(y, x))
  }

  /** `x * m` (`__rmul__`): every entry multiplied by x on the left. */
  function ScaleLeft<T>(x: T, m: Mat<T>, ops: EntryOps<T>): (s: Mat<T>)
    ensures Shape(s) == Shape(m)
    ensures forall r, c :: 0 <= r < |m.rows| && 0 <= c < m.ncols ==> s.rows[r][c] == ops.mul(x, m.rows[r][c])
  {
    ElementWise(m, y => ops.mul(x, y))
  }

  /** `-m`: `(-1) * m`. */
  function Negate<T>(m: Mat<T>, ops: EntryOps<T>): (s: Mat<T>)
    ensures Shape(s) == Shape(m)
    ensures forall r, c :: 0 <= r < |m.rows| && 0 <= c < m.ncols ==> s.rows[r][c] == ops.mul(ops.minusOne, m.rows[r][c])
  {
    ScaleLeft(ops.minusOne, m, ops)
  }

  /** For entries where multiplying by -1 twice changes nothing, `-(-m) == m`. */
  lemma {:induction false} NegateTwice<T>(m: Mat<T>, ops: EntryOps<T>)
    requires forall x :: ops.mul(ops.minusOne, ops.mul(ops.minusOne, x)) == x
    ensures Negate(Negate(m, ops), ops) == m
  {
    MatrixExt(Negate(Negate(m, ops), ops), m);
  }

  /** `a - b` for two matrices: `a + (-1) * b`. */
  function Subtract<T>(a: Mat<T>, b: Mat<T>, ops: EntryOps<T>): Result<Mat<T>, MatrixError>
  {
    Add(a, Negate(b, ops), ops.add)
  }

  /**
   * For entries where multiplying by -1 negates and adding the negation
   * gives zero, a matrix minus itself is the zero matrix of its shape.
   */
  lemma {:induction false} SubtractSelf<T>(m: Mat<T>, ops: EntryOps<T>)
    requires forall x :: ops.add(x, ops.mul(ops.minusOne, x)) == ops.zero
    ensures Subtract(m, m, ops).Success?
    ensures Shape(Subtract(m, m, ops).value) == Shape(m)
    ensures forall r, c :: 0 <= r < |m.rows| && 0 <= c < m.ncols ==> Subtract(m, m, ops).value.rows[r][c] == ops.zero
  {
    AddSound(m, Negate(m, ops), ops.add);
  }

  // ---------------------------------------------------------------------
  // Matrix product
  // ---------------------------------------------------------------------

  /** a[r][0]*b[0][c] + ... + a[r][n-1]*b[n-1][c], accumulated from the first product as numpy's dot of objects does. */
  function DotSum<T>(a: Mat<T>, b: Mat<T>, r: nat, c: nat, n: nat, ops: EntryOps<T>): T
    requires r < |a.rows| && c < b.ncols && 1 <= n <= a.ncols && a.ncols == |b.rows|
  {
    if n == 1 then ops.mul(a.rows[r][0], b.rows[0][c])
    else ops.add(DotSum(a, b, r, c, n - 1, ops), ops.mul(a.rows[r][n - 1], b.rows[n - 1][c]))
  }

  function DotEntry<T>(a: Mat<T>, b: Mat<T>, r: nat, c: nat, ops: EntryOps<T>): T
    requires r < |a.rows| && c < b.ncols && a.ncols == |b.rows|
  {
    if a.ncols == 0 then ops.zero else DotSum(a, b, r, c, a.ncols, ops)
  }

  /** `a * b` for two matrices: the matrix product; ValueError if the inner dimensions differ. */
  function Dot<T>(a: Mat<T>, b: Mat<T>, ops: EntryOps<T>): (p: Result<Mat<T>, MatrixError>)
    ensures p.Failure? <==> a.ncols != |b.rows|
    ensures p.Success? ==> Shape(p.value) == (|a.rows|, b.ncols)
    ensures p.Success? ==>
      forall r, c :: 0 <= r < |a.rows| && 0 <= c < b.ncols ==> p.value.rows[r][c] == DotEntry(a, b, r, c, ops)
  {
    if a.ncols != |b.rows| then Failure(ValueError)
    else Success(Tabulate(|a.rows|, b.ncols, (r: nat, c: nat) requires r < |a.rows| && c < b.ncols => DotEntry(a, b, r, c, ops)))
  }

  /** `A * I == A`, for entries where one is a right unit, zero absorbs and adds away. */
  lemma {:induction false} DotIdentityRight<T>(a: Mat<T>, ops: EntryOps<T>)
    requires forall x :: ops.mul(x, ops.one) == x && ops.mul(x, ops.zero) == ops.zero
    requires forall x :: ops.add(x, ops.zero) == x && ops.add(ops.zero, x) == x
    ensures IdentityMatrix(a.ncols, ops).Success?
    ensures Dot(a, IdentityMatrix(a.ncols, ops).value, ops) == Success(a)
  {
    IdentitySound(a.ncols, ops);
    var e := IdentityMatrix(a.ncols, ops).value;
    var p := Dot(a, e, ops).value;
    forall r, c | 0 <= r < |a.rows| && 0 <= c < a.ncols ensures p.rows[r][c] == a.rows[r][c] {
      DotSumIdentityRight(a, e, r, c, a.ncols, ops);
    }
    MatrixExt(p, a);
  }

  lemma {:induction false} DotSumIdentityRight<T>(a: Mat<T>, e: Mat<T>, r: nat, c: nat, n: nat, ops: EntryOps<T>)
    requires forall x :: ops.mul(x, ops.one) == x && ops.mul(x, ops.zero) == ops.zero
    requires forall x :: ops.add(x, ops.zero) == x && ops.add(ops.zero, x) == x
    requires Shape(e) == (a.ncols, a.ncols)
    requires forall i, j :: 0 <= i < a.ncols && 0 <= j < a.ncols ==> e.rows[i][j] == if i == j then ops.one else ops.zero
    requires r < |a.rows| && c < a.ncols && 1 <= n <= a.ncols
    ensures DotSum(a, e, r, c, n, ops) == if c < n then a.rows[r][c] else ops.zero
  {
    if n > 1 {
      DotSumIdentityRight(a, e, r, c, n - 1, ops);
    }
  }

  /** `I * A == A`, for entries where one is a left unit, zero absorbs and adds away. */
  lemma {:induction false} DotIdentityLeft<T>(a: Mat<T>, ops: EntryOps<T>)
    requires forall x :: ops.mul(ops.one, x) == x && ops.mul(ops.zero, x) == ops.zero
    requires forall x :: ops.add(x, ops.zero) == x && ops.add(ops.zero, x) == x
    ensures IdentityMatrix(|a.rows|, ops).Success?
    ensures Dot(IdentityMatrix(|a.rows|, ops).value, a, ops) == Success(a)
  {
    IdentitySound(|a.rows|, ops);
    var e := IdentityMatrix(|a.rows|, ops).value;
    var p := Dot(e, a, ops).value;
    forall r, c | 0 <= r < |a.rows| && 0 <= c < a.ncols ensures p.rows[r][c] == a.rows[r][c] {
      DotSumIdentityLeft(e, a, r, c, |a.rows|, ops);
    }
    MatrixExt(p, a);
  }

  lemma {:induction false} DotSumIdentityLeft<T>(e: Mat<T>, a: Mat<T>, r: nat, c: nat, n: nat, ops: EntryOps<T>)
    requires forall x :: ops.mul(ops.one, x) == x && ops.mul(ops.zero, x) == ops.zero
    requires forall x :: ops.add(x, ops.zero) == x && ops.add(ops.zero, x) == x
    requires Shape(e) == (|a.rows|, |a.rows|)
    requires forall i, j :: 0 <= i < |a.rows| && 0 <= j < |a.rows| ==> e.rows[i][j] == if i == j then ops.one else ops.zero
    requires r < |a.rows| && c < a.ncols && 1 <= n <= |a.rows|
    ensures DotSum(e, a, r, c, n, ops) == if r < n then a.rows[r][c] else ops.zero
  {
    if n > 1 {
      DotSumIdentityLeft(e, a, r, c, n - 1, ops);
    }
  }

  // ---------------------------------------------------------------------
  // Trace of a sum
  // ---------------------------------------------------------------------

  /** For an addition that is associative and commutative with 0 + 0 == 0, the trace of a sum is the sum of the traces. */
  lemma {:induction false} TraceAdd<T(!new)>(a: Mat<T>, b: Mat<T>, ops: EntryOps<T>)
    requires forall x, y, z :: ops.add(ops.add(x, y), z) == ops.add(x, ops.add(y, z))
    requires forall x, y :: ops.add(x, y) == ops.add(y, x)
    requires ops.add(ops.zero, ops.zero) == ops.zero
    requires |a.rows| == a.ncols && Shape(b) == Shape(a)
    ensures Add(a, b, ops.add).Success?
    ensures Trace(Add(a, b, ops.add).value, ops) == Success(ops.add(Trace(a, ops).value, Trace(b, ops).value))
  {
    AddSound(a, b, ops.add);
    forall x, y, p, q ensures ops.add(ops.add(x, y), ops.add(p, q)) == ops.add(ops.add(x, p), ops.add(y, q)) {
      AddSwapMiddle(ops.add, x, y, p, q);
    }
    DiagonalSumAdd(a, b, Add(a, b, ops.add).value, |a.rows|, ops);
  }

  lemma {:induction false} DiagonalSumAdd<T>(a: Mat<T>, b: Mat<T>, s: Mat<T>, k: nat, ops: EntryOps<T>)
    requires forall x, y, p, q :: ops.add(ops.add(x, y), ops.add(p, q)) == ops.add(ops.add(x, p), ops.add(y, q))
    requires ops.add(ops.zero, ops.zero) == ops.zero
    requires Shape(a) == Shape(b) == Shape(s) && k <= |a.rows| && k <= a.ncols
    requires forall r, c :: 0 <= r < |a.rows| && 0 <= c < a.ncols ==> s.rows[r][c] == ops.add(a.rows[r][c], b.rows[r][c])
    ensures DiagonalSum(s, k, ops) == ops.add(DiagonalSum(a, k, ops), DiagonalSum(b, k, ops))
  {
    if k > 0 {
      DiagonalSumAdd(a, b, s, k - 1, ops);
    }
  }

  /** (x + y) + (p + q) == (x + p) + (y + q) for an associative, commutative addition. */
  lemma {:induction false} AddSwapMiddle<T(!new)>(add: (T, T) -> T, x: T, y: T, p: T, q: T)
    requires forall x, y, z :: add(add(x, y), z) == add(x, add(y, z))
    requires forall x, y :: add(x, y) == add(y, x)
    ensures add(add(x, y), add(p, q)) == add(add(x, p), add(y, q))
  {
    calc {
      add(add(x, y), add(p, q));
      add(x, add(y, add(p, q)));
      add(x, add(add(y, p), q));
      { assert add(y, p) == add(p, y); }
      add(x, add(add(p, y), q));
      add(x, add(p, add(y, q)));
      add(add(x, p), add(y, q));
    }
  }

  // ---------------------------------------------------------------------
  // diagm, identity_matrix, zerosm
  // ---------------------------------------------------------------------

  function Abs(k: int): nat
  {
    if k < 0 then -k else k
  }

  function Min(a: int, b: int): int
  {
    if a < b then a else b
  }

  /** numpy's `diag` of a one-dimensional array: the square array of size |v| + |k| with v on its k-th diagonal, zero elsewhere. */
  function DiagArray<T>(v: seq<T>, k: int, zero: T): (d: Mat<T>)
    ensures Shape(d) == (|v| + Abs(k), |v| + Abs(k))
  {
    var n := |v| + Abs(k);
    Tabulate(n, n, (r: nat, c: nat) requires r < n && c < n => if c - r == k then v[Min(r, c)] else zero)
  }

  /** The number of entries on the k-th diagonal of an R x C array. */
  function DiagonalLength(R: nat, C: nat, k: int): nat
  {
    if k >= 0 then (if C < k then 0 else Min(R, C - k))
    else (if R < -k then 0 else Min(R + k, C))
  }

  /** numpy's `diag` of a two-dimensional array: its k-th diagonal, read from the top left. */
  function DiagonalOf<T>(m: Mat<T>, k: int): (v: seq<T>)
    ensures |v| == DiagonalLength(|m.rows|, m.ncols, k)
  {
    var L := DiagonalLength(|m.rows|, m.ncols, k);
    var dr, dc := if k < 0 then -k else 0, if k > 0 then k else 0;
    seq(L, i requires 0 <= i < L => m.rows[i + dr][i + dc])
  }

  /** numpy's `diag`: builds from a one-dimensional array, extracts from a two-dimensional one, rejects the rest. */
  function NpDiag<T>(v: NdArray<T>, k: int, zero: T): Result<NdArray<T>, MatrixError>
  {
    match v
    case Array1(items) => Success(Array2(DiagArray(items, k, zero)))
    case Array2(m) => Success(Array1(DiagonalOf(m, k)))
    case _ => Failure(ValueError)
  }

  /** `diagm(v, k)`: `Matrix(numpy.diag(v, k))`. */
  function Diagm<T>(v: NdArray<T>, k: int, zero: T): Result<Mat<T>, MatrixError>
  {
    match NpDiag(v, k, zero)
    case Success(a) => MakeMatrix(FromArray(a))
    case Failure(e) => Failure(e)
  }

  /**
   * From a vector, `diagm` builds the square matrix of size |v| + |k| that
   * holds v, in order, on its k-th diagonal and zero everywhere else; from
   * a matrix, it gives the k-th diagonal as a column; anything else is a
   * ValueError.
   */
  lemma {:induction false} DiagmSound<T>(v: NdArray<T>, k: int, zero: T)
    ensures Diagm(v, k, zero).Failure? <==> !v.Array1? && !v.Array2?
    ensures Diagm(v, k, zero).Failure? ==> Diagm(v, k, zero).error == ValueError
    ensures v.Array1? ==>
      var d := Diagm(v, k, zero).value;
      var n := |v.items|;
      Shape(d) == (n + Abs(k), n + Abs(k))
      && (forall i :: 0 <= i < n ==> d.rows[i + (if k < 0 then -k else 0)][i + (if k > 0 then k else 0)] == v.items[i])
      && forall r, c :: 0 <= r < n + Abs(k) && 0 <= c < n + Abs(k) && c - r != k ==> d.rows[r][c] == zero
    ensures v.Array2? ==>
      var d := Diagm(v, k, zero).value;
      Shape(d) == (DiagonalLength(|v.m.rows|, v.m.ncols, k), 1)
      && forall i :: 0 <= i < |d.rows| ==> d.rows[i][0] == v.m.rows[i + (if k < 0 then -k else 0)][i + (if k > 0 then k else 0)]
  {
  }

  /** Taking the k-th diagonal of the matrix that `diagm` builds from v gives v back, as a column. */
  lemma {:induction false} DiagmRoundTrip<T>(v: seq<T>, k: int, zero: T)
    ensures Diagm(v := Array2(DiagArray(v, k, zero)), k := k, zero := zero) == Success(Column(v))
  {
    var d := DiagArray(v, k, zero);
    var w := DiagonalOf(d, k);
    assert |w| == |v|;
    forall i | 0 <= i < |v| ensures w[i] == v[i] {
      var dr, dc := if k < 0 then -k else 0, if k > 0 then k else 0;
      assert w[i] == d.rows[i + dr][i + dc];
    }
    assert w == v;
  }

  /** `identity_matrix(N)`: `diagm` of N ones; a negative N is a ValueError. */
  function IdentityMatrix<T>(N: int, ops: EntryOps<T>): Result<Mat<T>, MatrixError>
  {
    if N < 0 then Failure(ValueError) else Diagm(Array1(seq(N, _ => ops.one)), 0, ops.zero)
  }

  /** The identity is the N x N matrix with one on the diagonal and zero elsewhere. */
  lemma {:induction false} IdentitySound<T>(N: int, ops: EntryOps<T>)
    ensures IdentityMatrix(N, ops).Failure? <==> N < 0
    ensures IdentityMatrix(N, ops).Success? ==>
      var e := IdentityMatrix(N, ops).value;
      Shape(e) == (N, N)
      && forall r, c :: 0 <= r < N && 0 <= c < N ==> e.rows[r][c] == if r == c then ops.one else ops.zero
  {
    if N >= 0 {
      DiagmSound(Array1(seq(N, _ => ops.one)), 0, ops.zero);
    }
  }

  /** numpy's `zeros(shape)`: a negative size is a ValueError; otherwise an array of that many dimensions, filled with zero. */
  function NpZeros<T>(shape: seq<int>, zero: T): Result<NdArray<T>, MatrixError>
  {
    if exists i :: 0 <= i < |shape| && shape[i] < 0 then Failure(ValueError)
    else if |shape| == 0 then Success(Array0(zero))
    else if |shape| == 1 then Success(Array1(seq(shape[0], _ => zero)))
    else if |shape| == 2 then
      var R: nat, C: nat := shape[0], shape[1];
      Success(Array2(Tabulate(R, C, (r: nat, c: nat) => zero)))
    else Success(ArrayN(|shape|))
  }

  /** `zerosm(shape)`: `Matrix(numpy.zeros(shape))`; a single size gives a column. */
  function Zerosm<T>(shape: seq<int>, zero: T): Result<Mat<T>, MatrixError>
  {
    match NpZeros(shape, zero)
    case Success(a) => MakeMatrix(FromArray(a))
    case Failure(e) => Failure(e)
  }

  /**
   * `zerosm` gives a matrix of the requested shape (a column for a single
   * size) whose every entry is zero; negative sizes and three or more
   * dimensions are a ValueError, and an empty shape an IndexError.
   */
  lemma {:induction false} ZerosmSound<T>(shape: seq<int>, zero: T)
    ensures Zerosm(shape, zero).Failure? <==>
      (exists i :: 0 <= i < |shape| && shape[i] < 0) || |shape| == 0 || |shape| > 2
    ensures Zerosm(shape, zero).Failure? ==>
      Zerosm(shape, zero).error == (if |shape| == 0 then IndexError else ValueError)
    ensures Zerosm(shape, zero).Success? ==>
      var z := Zerosm(shape, zero).value;
      Shape(z) == (shape[0], if |shape| == 1 then 1 else shape[1])
      && forall r, c :: 0 <= r < |z.rows| && 0 <= c < z.ncols ==> z.rows[r][c] == zero
  {
  }

  /** Adding the zero matrix of the same shape changes nothing, for entries where zero adds away. */
  lemma {:induction false} AddZeros<T>(a: Mat<T>, ops: EntryOps<T>)
    requires forall x :: ops.add(ops.zero, x) == x
    ensures Zerosm([|a.rows|, a.ncols], ops.zero).Success?
    ensures Add(Zerosm([|a.rows|, a.ncols], ops.zero).value, a, ops.add) == Success(a)
  {
    ZerosmSound([|a.rows|, a.ncols], ops.zero);
    var z := Zerosm([|a.rows|, a.ncols], ops.zero).value;
    AddSound(z, a, ops.add);
    MatrixExt(Add(z, a, ops.add).value, a);
  }

  // ---------------------------------------------------------------------
  // hstackm, vstackm, block_matrix
  // ---------------------------------------------------------------------

  lemma {:induction false} StackRowsWidth<T>(ms: seq<Mat<T>>, w: nat)
    requires forall i :: 0 <= i < |ms| ==> ms[i].ncols == w
    ensures forall r :: 0 <= r < |StackRows(ms)| ==> |StackRows(ms)[r]| == w
  {
    if |ms| > 0 {
      StackRowsWidth(ms[1..], w);
    }
  }

  /** `vstackm`: the rows of all matrices, one after another; ValueError for no matrices or differing numbers of columns. */
  function VStack<T>(ms: seq<Mat<T>>): Result<Mat<T>, MatrixError>
  {
    if |ms| == 0 || exists i :: 0 <= i < |ms| && ms[i].ncols != ms[0].ncols then Failure(ValueError)
    else
      StackRowsWidth(ms, ms[0].ncols);
      var v: Mat<T> := Matrix(StackRows(ms), ms[0].ncols);
      Success(v)
  }

  /** Row r of every matrix, joined left to right. */
  function JoinRow<T>(ms: seq<Mat<T>>, r: nat): seq<T>
    requires forall i :: 0 <= i < |ms| ==> r < |ms[i].rows|
  {
    if |ms| == 0 then [] else ms[0].rows[r] + JoinRow(ms[1..], r)
  }

  function TotalColumns<T>(ms: seq<Mat<T>>): nat
  {
    if |ms| == 0 then 0 else ms[0].ncols + TotalColumns(ms[1..])
  }

  lemma {:induction false} JoinRowLength<T>(ms: seq<Mat<T>>, r: nat)
    requires forall i :: 0 <= i < |ms| ==> r < |ms[i].rows|
    ensures |JoinRow(ms, r)| == TotalColumns(ms)
  {
    if |ms| > 0 {
      JoinRowLength(ms[1..], r);
    }
  }

  /** `hstackm`: the columns of all matrices, side by side; ValueError for no matrices or differing numbers of rows. */
  function HStack<T>(ms: seq<Mat<T>>): Result<Mat<T>, MatrixError>
  {
    if |ms| == 0 || exists i :: 0 <= i < |ms| && |ms[i].rows| != |ms[0].rows| then Failure(ValueError)
    else
      var R := |ms[0].rows|;
      var rows := seq(R, r requires 0 <= r < R => JoinRow(ms, r));
      assert forall r :: 0 <= r < R ==> |rows[r]| == TotalColumns(ms) by {
        forall r | 0 <= r < R { JoinRowLength(ms, r); }
      }
      var h: Mat<T> := Matrix(rows, TotalColumns(ms));
      Success(h)
  }

  /** `block_matrix(A, B, C, D)`: `vstackm((hstackm((A, B)), hstackm((C, D))))`. */
  function BlockMatrix<T>(a: Mat<T>, b: Mat<T>, c: Mat<T>, d: Mat<T>): Result<Mat<T>, MatrixError>
  {
    match HStack([a, b])
    case Failure(e) => Failure(e)
    case Success(top) =>
      match HStack([c, d])
      case Failure(e) => Failure(e)
      case Success(bottom) => VStack([top, bottom])
  }

  /** Stacking two matrices side by side. */
  lemma {:induction false} HStackPair<T>(a: Mat<T>, b: Mat<T>)
    ensures HStack([a, b]).Failure? <==> |a.rows| != |b.rows|
    ensures HStack([a, b]).Success? ==>
      var h := HStack([a, b]).value;
      Shape(h) == (|a.rows|, a.ncols + b.ncols)
      && forall r :: 0 <= r < |a.rows| ==> h.rows[r] == a.rows[r] + b.rows[r]
  {
    var ms := [a, b];
    var none: seq<Mat<T>> := [];
    assert ms[1..] == [b] && [b][1..] == none;
    if |a.rows| == |b.rows| {
      assert TotalColumns([b]) == b.ncols + TotalColumns(none);
      assert TotalColumns(ms) == a.ncols + TotalColumns([b]);
      forall r | 0 <= r < |a.rows| ensures JoinRow(ms, r) == a.rows[r] + b.rows[r] {
        assert JoinRow([b], r) == b.rows[r] + JoinRow(none, r);
        assert JoinRow(ms, r) == a.rows[r] + JoinRow([b], r);
      }
    } else {
      assert ms[1].rows != ms[0].rows;
    }
  }

  /** Stacking two matrices one above the other. */
  lemma {:induction false} VStackPair<T>(a: Mat<T>, b: Mat<T>)
    ensures VStack([a, b]).Failure? <==> a.ncols != b.ncols
    ensures VStack([a, b]).Success? ==> VStack([a, b]).value == Matrix(a.rows + b.rows, a.ncols)
  {
    var ms := [a, b];
    var none: seq<Mat<T>> := [];
    assert ms[1..] == [b] && [b][1..] == none;
    assert StackRows([b]) == b.rows + StackRows(none);
    assert StackRows(ms) == a.rows + StackRows([b]);
    if a.ncols != b.ncols {
      assert ms[1].ncols != ms[0].ncols;
    }
  }

  /**
   * `block_matrix` succeeds exactly when A, B share their rows, C, D share
   * theirs, and both halves are equally wide; for quadrants of shapes
   * (n, m), (n, k), (l, m), (l, k) it is the (n + l) x (m + k) matrix with A,
   * B, C, D in its four corners.
   */
  lemma {:induction false} BlockMatrixSound<T>(a: Mat<T>, b: Mat<T>, c: Mat<T>, d: Mat<T>)
    ensures BlockMatrix(a, b, c, d).Failure? <==>
      |a.rows| != |b.rows| || |c.rows| != |d.rows| || a.ncols + b.ncols != c.ncols + d.ncols
    ensures BlockMatrix(a, b, c, d).Failure? ==> BlockMatrix(a, b, c, d).error == ValueError
    ensures |a.rows| == |b.rows| && |c.rows| == |d.rows| && a.ncols == c.ncols && b.ncols == d.ncols ==>
      var n, m, l, k := |a.rows|, a.ncols, |c.rows|, b.ncols;
      var x := BlockMatrix(a, b, c, d).value;
      Shape(x) == (n + l, m + k)
      && (forall i, j :: 0 <= i < n && 0 <= j < m ==> x.rows[i][j] == a.rows[i][j])
      && (forall i, j :: 0 <= i < n && 0 <= j < k ==> x.rows[i][m + j] == b.rows[i][j])
      && (forall i, j :: 0 <= i < l && 0 <= j < m ==> x.rows[n + i][j] == c.rows[i][j])
      && (forall i, j :: 0 <= i < l && 0 <= j < k ==> x.rows[n + i][m + j] == d.rows[i][j])
  {
    HStackPair(a, b);
    HStackPair(c, d);
    if |a.rows| == |b.rows| && |c.rows| == |d.rows| {
      VStackPair(HStack([a, b]).value, HStack([c, d]).value);
    }
  }
}
