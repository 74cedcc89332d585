/**
 * The local compressed-sparse-row triple a native matrix exposes
 * (`data`, `indices`, `indptr`), Python prefix slicing on it, and NumPy's
 * regrouping of a flat buffer into fixed-size pieces.
 */
module CsrLayout {
  import opened Wrappers
  import opened LaTypes

  /** `s[:stop]` in Python: a stop past the end clamps, a negative stop counts from the end. */
  function PrefixSlice<T>(s: seq<T>, stop: int): (r: seq<T>)
    ensures |r| <= |s| && r == s[..|r|]
    ensures 0 <= stop <= |s| ==> |r| == stop
    ensures stop > |s| ==> r == s
    ensures stop < 0 ==> |r| == if |s| + stop >= 0 then |s| + stop else 0
  {
    if stop >= 0 then (if stop <= |s| then s[..stop] else s)
    else if |s| + stop >= 0 then s[..|s| + stop]
    else []
  }

  /** Each entry of `indptr` is at most the next one. */
  predicate NonDecreasing(indptr: seq<int>)
  {
    forall i :: 0 <= i < |indptr| - 1 ==> indptr[i] <= indptr[i + 1]
  }

  /** Adjacent order extends to every pair of positions. */
  lemma {:induction false} IndptrMonotone(indptr: seq<int>, i: nat, j: nat)
    requires NonDecreasing(indptr)
    requires i <= j < |indptr|
    ensures indptr[i] <= indptr[j]
    decreases j - i
  {
    if i < j {
      IndptrMonotone(indptr, i + 1, j);
    }
  }

  /**
   * The three arrays of a local CSR matrix: `indptr[r]..indptr[r+1]` is the range
   * of row r's nonzero blocks in `indices`, and each block holds `blockSize`
   * consecutive scalars of `data`.
   */
  datatype CsrArrays<T> = CsrArrays(data: seq<T>, indices: seq<int>, indptr: seq<int>)
  {
    /** A well-formed triple for `rows` rows whose blocks have `blockSize` scalars. */
    predicate WellFormed(rows: nat, blockSize: nat)
    {
      && |indptr| == rows + 1
      && indptr[0] == 0
      && NonDecreasing(indptr)
      && |indices| == indptr[rows]
      && |data| == blockSize * indptr[rows]
    }

    /** Column indices of the nonzero blocks of row `i`. */
    function RowIndices(rows: nat, blockSize: nat, i: nat): (cols: seq<int>)
      requires WellFormed(rows, blockSize) && i < rows
    {
      IndptrMonotone(indptr, 0, i);
      IndptrMonotone(indptr, i + 1, rows);
      indices[indptr[i]..indptr[i + 1]]
    }

    /** Scalars stored for the nonzero blocks of row `i`. */
    function RowValues(rows: nat, blockSize: nat, i: nat): (vals: seq<T>)
      requires WellFormed(rows, blockSize) && i < rows
    {
      IndptrMonotone(indptr, 0, i);
      IndptrMonotone(indptr, i + 1, rows);
      assert 0 <= blockSize * indptr[i] <= blockSize * indptr[i + 1] <= blockSize * indptr[rows];
      data[blockSize * indptr[i]..blockSize * indptr[i + 1]]
    }
  }

  /**
   * Scaling row pointers by the block size keeps their order. Stated apart so
   * that the nonlinear fact is proved in a small context and only used below.
   */
  lemma ScaleMonotone(k: nat, x: int, y: int)
    requires 0 <= x <= y
    ensures 0 <= k * x <= k * y
  {
  }

  /**
   * Multiplication distributes over a sum. Stated apart so that the nonlinear
   * fact is proved in a small context wherever counts are scaled.
   */
  lemma Distribute(b: int, l: int, n: int)
    ensures b * (l + n) == b * l + b * n
  {
  }

  /**
   * Dropping every row from `nrows` on: `indptr[:nrows+1]`, `indices[:nnz]` and
   * `data[:blockSize*nnz]` with `nnz = indptr[nrows]`. Reading `indptr[nrows]`
   * past the end raises.
   */
  function Truncate<T>(a: CsrArrays<T>, nrows: nat, blockSize: nat): (r: Result<CsrArrays<T>, LaError>)
    ensures r.Failure? <==> nrows >= |a.indptr|
    ensures r.Failure? ==> r.error == IndexOutOfRange(nrows, |a.indptr|)
  {
    if nrows >= |a.indptr| then Failure(IndexOutOfRange(nrows, |a.indptr|))
    else
      var nnz := a.indptr[nrows];
      Success(CsrArrays(PrefixSlice(a.data, blockSize * nnz), PrefixSlice(a.indices, nnz), PrefixSlice(a.indptr, nrows + 1)))
  }

  /**
   * Truncating a well-formed triple to its first `nrows` rows gives exact prefixes,
   * a well-formed triple with `nrows` rows, and leaves each kept row as it was.
   */
  lemma {:induction false} TruncateKeepsRows<T>(a: CsrArrays<T>, rows: nat, blockSize: nat, nrows: nat)
    requires a.WellFormed(rows, blockSize) && nrows <= rows
    ensures 0 <= a.indptr[nrows] <= |a.indices| && blockSize * a.indptr[nrows] <= |a.data|
    ensures Truncate(a, nrows, blockSize).Success?
    ensures var t := Truncate(a, nrows, blockSize).value;
      && t.indptr == a.indptr[..nrows + 1]
      && t.indices == a.indices[..a.indptr[nrows]]
      && t.data == a.data[..blockSize * a.indptr[nrows]]
      && t.WellFormed(nrows, blockSize)
      && forall i :: 0 <= i < nrows ==>
           t.RowIndices(nrows, blockSize, i) == a.RowIndices(rows, blockSize, i)
           && t.RowValues(nrows, blockSize, i) == a.RowValues(rows, blockSize, i)
  {
    var nnz := a.indptr[nrows];
    IndptrMonotone(a.indptr, 0, nrows);
    IndptrMonotone(a.indptr, nrows, rows);
    ScaleMonotone(blockSize, nnz, a.indptr[rows]);
    var t := Truncate(a, nrows, blockSize).value;
    assert t.indptr == a.indptr[..nrows + 1];
    assert t.indices == a.indices[..nnz];
    assert t.data == a.data[..blockSize * nnz];
    assert t.WellFormed(nrows, blockSize);
    forall i | 0 <= i < nrows
      ensures t.RowIndices(nrows, blockSize, i) == a.RowIndices(rows, blockSize, i)
      ensures t.RowValues(nrows, blockSize, i) == a.RowValues(rows, blockSize, i)
    {
      IndptrMonotone(a.indptr, 0, i);
      IndptrMonotone(a.indptr, i + 1, nrows);
      ScaleMonotone(blockSize, a.indptr[i], a.indptr[i + 1]);
      ScaleMonotone(blockSize, a.indptr[i + 1], nnz);
    }
  }

  /**
   * NumPy's `reshape(-1, k)` of a flat buffer: consecutive pieces of `k` entries,
   * or None when the length is not a multiple of `k`.
   */
  function Chunks<T>(s: seq<T>, k: Positive): (r: Option<seq<seq<T>>>)
    ensures r.Some? ==> |s| == |r.value| * k
    ensures r.Some? ==> forall i :: 0 <= i < |r.value| ==> |r.value[i]| == k
    decreases |s|
  {
    if |s| == 0 then Some([])
    else if |s| < k then None
    else
      match Chunks(s[k..], k)
      case None => None
      case Some(rest) => Some([s[..k]] + rest)
  }

  /** A buffer of `n` whole pieces always reshapes, into exactly `n` pieces. */
  lemma {:induction false} ChunksOfMultiple<T>(s: seq<T>, k: Positive, n: nat)
    requires |s| == n * k
    ensures Chunks(s, k).Some? && |Chunks(s, k).value| == n
    decreases n
  {
    if n > 0 {
      assert |s[k..]| == (n - 1) * k;
      ChunksOfMultiple(s[k..], k, n - 1);
    }
  }

  /** Piece `i` holds entries `i*k .. i*k+k-1` of the buffer, in order. */
  lemma {:induction false} ChunkAt<T>(s: seq<T>, k: Positive, i: nat, j: nat)
    requires Chunks(s, k).Some? && i < |Chunks(s, k).value| && j < k
    ensures i * k + j < |s| && Chunks(s, k).value[i][j] == s[i * k + j]
    decreases i
  {
    var rest := Chunks(s[k..], k).value;
    assert Chunks(s, k).value == [s[..k]] + rest;
    if i > 0 {
      ChunkAt(s[k..], k, i - 1, j);
      Distribute(k, i - 1, 1);
      assert (i - 1) * k + j + k == i * k + j;
    }
  }

  /**
   * NumPy's `reshape(-1, bs0, bs1)`: blocks of `bs0` rows of `bs1` scalars each.
   * Rows are cut first, then grouped, exactly as C order lays them out.
   */
  function Reshape<T>(s: seq<T>, bs0: Positive, bs1: Positive): (r: Option<seq<seq<seq<T>>>>)
    ensures r.Some? ==> |s| == |r.value| * bs0 * bs1
    ensures r.Some? ==> forall b :: 0 <= b < |r.value| ==> |r.value[b]| == bs0
  {
    match Chunks(s, bs1)
    case None => None
    case Some(rows) => Chunks(rows, bs0)
  }

  /** Scalar `j` of row `i` of block `b` is scalar `(b*bs0 + i)*bs1 + j` of the flat buffer. */
  lemma ReshapeAt<T>(s: seq<T>, bs0: Positive, bs1: Positive, b: nat, i: nat, j: nat)
    requires Reshape(s, bs0, bs1).Some?
    requires b < |Reshape(s, bs0, bs1).value| && i < bs0 && j < bs1
    ensures |Reshape(s, bs0, bs1).value[b]| == bs0 && |Reshape(s, bs0, bs1).value[b][i]| == bs1
    ensures 0 <= FlatIndex(bs0, bs1, b, i, j) < |s|
    ensures Reshape(s, bs0, bs1).value[b][i][j] == s[FlatIndex(bs0, bs1, b, i, j)]
  {
    var rows := Chunks(s, bs1).value;
    ChunkAt(rows, bs0, b, i);
    ChunkAt(s, bs1, b * bs0 + i, j);
  }

  /** Reshaping a buffer of `n` whole blocks succeeds, with `n` blocks. */
  lemma ReshapeWhole<T>(s: seq<T>, bs0: Positive, bs1: Positive, n: nat)
    requires |s| == n * (bs0 * bs1)
    ensures Reshape(s, bs0, bs1).Some? && |Reshape(s, bs0, bs1).value| == n
  {
    assert |s| == (n * bs0) * bs1;
    ChunksOfMultiple(s, bs1, n * bs0);
    ChunksOfMultiple(Chunks(s, bs1).value, bs0, n);
  }

  /** Every block has `bs0` rows of `bs1` scalars. */
  ghost predicate BlockShape<T>(blocks: seq<seq<seq<T>>>, bs0: Positive, bs1: Positive)
  {
    forall b, i :: 0 <= b < |blocks| && 0 <= i < bs0 ==> |blocks[b]| == bs0 && |blocks[b][i]| == bs1
  }

  /** Block scalars are the flat buffer's, in C order. */
  ghost predicate BlockEntries<T>(blocks: seq<seq<seq<T>>>, s: seq<T>, bs0: Positive, bs1: Positive)
  {
    forall b, i, j :: 0 <= b < |blocks| && 0 <= i < |blocks[b]| && 0 <= j < |blocks[b][i]| ==>
      0 <= FlatIndex(bs0, bs1, b, i, j) < |s| && blocks[b][i][j] == s[FlatIndex(bs0, bs1, b, i, j)]
  }

  /** Position in the flat buffer of scalar `j` of row `i` of block `b`. */
  function FlatIndex(bs0: Positive, bs1: Positive, b: nat, i: nat, j: nat): (k: nat)
  {
    (b * bs0 + i) * bs1 + j
  }

  /** The blocks laid out in `blocks` are those of the flat buffer `s`. */
  ghost predicate BlocksOf<T>(blocks: seq<seq<seq<T>>>, s: seq<T>, bs0: Positive, bs1: Positive)
  {
    && |s| == |blocks| * (bs0 * bs1)
    && BlockShape(blocks, bs0, bs1)
    && BlockEntries(blocks, s, bs0, bs1)
  }

  lemma ReshapeShape<T>(s: seq<T>, bs0: Positive, bs1: Positive)
    requires Reshape(s, bs0, bs1).Some?
    ensures BlockShape(Reshape(s, bs0, bs1).value, bs0, bs1)
  {
    var blocks := Reshape(s, bs0, bs1).value;
    forall b, i | 0 <= b < |blocks| && 0 <= i < bs0
      ensures |blocks[b]| == bs0 && |blocks[b][i]| == bs1
    {
      ReshapeAt(s, bs0, bs1, b, i, 0);
    }
  }

  lemma ReshapeEntries<T>(s: seq<T>, bs0: Positive, bs1: Positive)
    requires Reshape(s, bs0, bs1).Some? && BlockShape(Reshape(s, bs0, bs1).value, bs0, bs1)
    ensures BlockEntries(Reshape(s, bs0, bs1).value, s, bs0, bs1)
  {
    var blocks := Reshape(s, bs0, bs1).value;
    forall b, i, j | 0 <= b < |blocks| && 0 <= i < |blocks[b]| && 0 <= j < |blocks[b][i]|
      ensures 0 <= FlatIndex(bs0, bs1, b, i, j) < |s| && blocks[b][i][j] == s[FlatIndex(bs0, bs1, b, i, j)]
    {
      ReshapeAt(s, bs0, bs1, b, i, j);
    }
  }

  /** When reshaping succeeds the buffer was a whole number of blocks, and every scalar keeps its place. */
  lemma ReshapeBlocks<T>(s: seq<T>, bs0: Positive, bs1: Positive)
    requires Reshape(s, bs0, bs1).Some?
    ensures BlocksOf(Reshape(s, bs0, bs1).value, s, bs0, bs1)
  {
    var rows := Chunks(s, bs1).value;
    var blocks := Chunks(rows, bs0).value;
    assert (|blocks| * bs0) * bs1 == |blocks| * (bs0 * bs1);
    ReshapeShape(s, bs0, bs1);
    ReshapeEntries(s, bs0, bs1);
  }
}
