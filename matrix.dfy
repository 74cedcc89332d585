/**
 * `MatrixCSR.to_scipy` (python/dolfinx/la/__init__.py): the local CSR arrays of a
 * distributed matrix, with or without its ghost rows, and the shape and block
 * layout handed to SciPy's CSR or BSR constructor.
 */
module Matrix {
  import opened Wrappers
  import opened LaTypes
  import opened CsrLayout

  /** What `to_scipy` reads from the native matrix. */
  datatype MatrixCsr<T> = MatrixCsr(
    rowMap: IndexMapSizes,
    colMap: IndexMapSizes,
    bs0: Positive,
    bs1: Positive,
    arrays: CsrArrays<T>)
  {
    /**
     * The native object's invariant: one row pointer per owned and ghost row plus
     * one, and `bs0*bs1` scalars per nonzero block.
     */
    predicate Valid()
    {
      arrays.WellFormed(rowMap.Size(), bs0 * bs1)
    }

    /** Number of nonzero blocks in the owned rows, `indptr[size_local]`. */
    function OwnedNonzeros(): (nnz: int)
      requires Valid()
    {
      arrays.indptr[rowMap.sizeLocal]
    }
  }

  /** The argument list of the SciPy constructor `to_scipy` calls. */
  datatype SciPyMatrix<T> =
    | CsrMatrix(data: seq<T>, indices: seq<int>, indptr: seq<int>, shape: (nat, nat))
    | BsrMatrix(blocks: seq<seq<seq<T>>>, indices: seq<int>, indptr: seq<int>, shape: (nat, nat))

  /**
   * Column count, `ncols`: every local column, owned or ghost. It takes no
   * `ghosted` flag because ghost columns are kept either way.
   */
  function NumCols<T>(a: MatrixCsr<T>): (ncols: nat)
  {
    a.colMap.Size()
  }

  /**
   * Row count, `nrows`: the owned rows, plus the ghost rows when `ghosted`.
   * On a valid matrix it always names an existing row pointer.
   */
  function NumRows<T>(a: MatrixCsr<T>, ghosted: bool): (nrows: nat)
    ensures a.rowMap.sizeLocal <= nrows <= a.rowMap.Size()
    ensures nrows == a.rowMap.Size() <==> ghosted || a.rowMap.numGhosts == 0
    ensures a.Valid() ==> nrows < |a.arrays.indptr|
  {
    if ghosted then a.rowMap.Size() else a.rowMap.sizeLocal
  }

  /**
   * The arrays `to_scipy` passes on: all of them when `ghosted`, the owned
   * rows' prefix otherwise. Only reading `indptr[size_local]` can fail. On a
   * valid matrix the result is well-formed CSR over `nrows` rows, each of them
   * the same row, with the same columns and values, as in the native arrays.
   */
  function LocalArrays<T>(a: MatrixCsr<T>, ghosted: bool := false): (r: Result<CsrArrays<T>, LaError>)
    ensures r.Failure? <==> !ghosted && a.rowMap.sizeLocal >= |a.arrays.indptr|
    ensures r.Failure? ==> r.error == IndexOutOfRange(a.rowMap.sizeLocal, |a.arrays.indptr|)
    ensures a.Valid() ==>
      var nrows, bs := NumRows(a, ghosted), a.bs0 * a.bs1;
      && r.Success?
      && r.value.WellFormed(nrows, bs)
      && forall i :: 0 <= i < nrows ==>
           && r.value.RowIndices(nrows, bs, i) == a.arrays.RowIndices(a.rowMap.Size(), bs, i)
           && r.value.RowValues(nrows, bs, i) == a.arrays.RowValues(a.rowMap.Size(), bs, i)
  {
    var bs := a.bs0 * a.bs1;
    if ghosted then Success(a.arrays)
    else if a.Valid() then
      TruncateKeepsRows(a.arrays, a.rowMap.Size(), bs, a.rowMap.sizeLocal);
      Truncate(a.arrays, a.rowMap.sizeLocal, bs)
    else Truncate(a.arrays, a.rowMap.sizeLocal, bs)
  }

  /** The payload of `m` is the triple `t`, with `data` regrouped into blocks for BSR. */
  ghost predicate Carries<T>(m: SciPyMatrix<T>, t: CsrArrays<T>, bs0: Positive, bs1: Positive)
  {
    && m.indices == t.indices
    && m.indptr == t.indptr
    && (m.CsrMatrix? ==> m.data == t.data)
    && (m.BsrMatrix? ==> BlocksOf(m.blocks, t.data, bs0, bs1))
  }

  /**
   * `to_scipy(ghosted)`: plain CSR of shape (nrows, ncols) when both block sizes
   * are 1, BSR of shape (bs0*nrows, bs1*ncols) otherwise. As in the source,
   * `ghosted` defaults to false, so ghost rows are dropped unless asked for.
   */
  function ToScipy<T>(a: MatrixCsr<T>, ghosted: bool := false): (r: Result<SciPyMatrix<T>, LaError>)
    ensures r.Success? ==> (r.value.CsrMatrix? <==> a.bs0 == 1 && a.bs1 == 1)
    ensures r.Success? ==> r.value.shape == (a.bs0 * NumRows(a, ghosted), a.bs1 * NumCols(a))
    ensures r.Success? ==> LocalArrays(a, ghosted).Success? && Carries(r.value, LocalArrays(a, ghosted).value, a.bs0, a.bs1)
    ensures LocalArrays(a, ghosted).Success? && a.bs0 == 1 && a.bs1 == 1 ==> r.Success?
  {
    match LocalArrays(a, ghosted)
    case Failure(e) => Failure(e)
    case Success(t) =>
      var nrows, ncols := NumRows(a, ghosted), NumCols(a);
      if a.bs0 == 1 && a.bs1 == 1 then
        Success(CsrMatrix(t.data, t.indices, t.indptr, (nrows, ncols)))
      else
        match Reshape(t.data, a.bs0, a.bs1)
        case None => Failure(ReshapeFailed(|t.data|, a.bs0, a.bs1))
        case Some(blocks) =>
          ReshapeBlocks(t.data, a.bs0, a.bs1);
          Success(BsrMatrix(blocks, t.indices, t.indptr, (a.bs0 * nrows, a.bs1 * ncols)))
  }

  /**
   * With `ghosted` left at its default, a valid matrix converts without its
   * ghost rows; `indptr` is its first `size_local + 1` row pointers, `indices`
   * and `data` the prefixes that cover the owned rows, and BSR gets one block
   * per owned nonzero.
   */
  lemma ToScipyOwned<T>(a: MatrixCsr<T>)
    requires a.Valid()
    ensures 0 <= a.OwnedNonzeros() <= |a.arrays.indices|
    ensures 0 <= a.bs0 * a.bs1 * a.OwnedNonzeros() <= |a.arrays.data|
    ensures ToScipy(a).Success?
    ensures var m := ToScipy(a).value;
      var nnz := a.OwnedNonzeros();
      && m.shape == (a.bs0 * a.rowMap.sizeLocal, a.bs1 * a.colMap.Size())
      && m.indptr == a.arrays.indptr[..a.rowMap.sizeLocal + 1]
      && m.indices == a.arrays.indices[..nnz]
      && (m.CsrMatrix? ==> m.data == a.arrays.data[..nnz])
      && (m.BsrMatrix? ==> |m.blocks| == nnz && BlocksOf(m.blocks, a.arrays.data[..a.bs0 * a.bs1 * nnz], a.bs0, a.bs1))
  {
    var bs := a.bs0 * a.bs1;
    TruncateKeepsRows(a.arrays, a.rowMap.Size(), bs, a.rowMap.sizeLocal);
    var t := LocalArrays(a).value;
    var nnz := a.OwnedNonzeros();
    assert |t.data| == nnz * (a.bs0 * a.bs1);
    ReshapeWhole(t.data, a.bs0, a.bs1, nnz);
    var m := ToScipy(a).value;
    if m.BsrMatrix? {
      assert |m.blocks| * (a.bs0 * a.bs1) == nnz * (a.bs0 * a.bs1);
    }
  }

  /**
   * With ghost rows, a valid matrix converts and its arrays pass through
   * unchanged, over `size_local + num_ghosts` rows; BSR gets one block per
   * stored nonzero.
   */
  lemma ToScipyGhosted<T>(a: MatrixCsr<T>)
    requires a.Valid()
    ensures ToScipy(a, true).Success?
    ensures var m := ToScipy(a, true).value;
      && m.shape == (a.bs0 * a.rowMap.Size(), a.bs1 * a.colMap.Size())
      && m.indptr == a.arrays.indptr
      && m.indices == a.arrays.indices
      && (m.CsrMatrix? ==> m.data == a.arrays.data)
      && (m.BsrMatrix? ==> |m.blocks| == a.arrays.indptr[a.rowMap.Size()] && BlocksOf(m.blocks, a.arrays.data, a.bs0, a.bs1))
  {
    var nnz := a.arrays.indptr[a.rowMap.Size()];
    ReshapeWhole(a.arrays.data, a.bs0, a.bs1, nnz);
  }

  /**
   * Ghost columns are kept whether or not ghost rows are: on a valid matrix
   * both conversions succeed and have `bs1 * (size_local + num_ghosts)`
   * columns of the column map, and they differ in row count only by the
   * ghost rows.
   */
  lemma ColumnsIgnoreGhosted<T>(a: MatrixCsr<T>)
    requires a.Valid()
    ensures ToScipy(a).Success? && ToScipy(a, true).Success?
    ensures ToScipy(a).value.shape.1 == ToScipy(a, true).value.shape.1
                                     == a.bs1 * (a.colMap.sizeLocal + a.colMap.numGhosts)
    ensures ToScipy(a, true).value.shape.0 - ToScipy(a).value.shape.0 == a.bs0 * a.rowMap.numGhosts
  {
    ToScipyOwned(a);
    ToScipyGhosted(a);
    Distribute(a.bs0, a.rowMap.sizeLocal, a.rowMap.numGhosts);
  }
}
