/**
 * Choosing the native class for a scalar type: `matrix_csr` and `vector`
 * (python/dolfinx/la/__init__.py) each map a dtype to one concrete native
 * class through an if/elif chain and raise NotImplementedError otherwise.
 */
module ScalarDispatch {
  import opened Wrappers
  import opened LaTypes

  /** The native sparse-matrix classes, one per supported scalar type. */
  datatype MatrixClass = MatrixCsrFloat32 | MatrixCsrFloat64 | MatrixCsrComplex64 | MatrixCsrComplex128
  {
    /** The scalar type the class stores. */
    function Scalar(): DType
    {
      match this
      case MatrixCsrFloat32 => Float32
      case MatrixCsrFloat64 => Float64
      case MatrixCsrComplex64 => Complex64
      case MatrixCsrComplex128 => Complex128
    }
  }

  /** The native vector classes, one per supported scalar type. */
  datatype VectorClass =
    | VectorFloat32 | VectorFloat64 | VectorComplex64 | VectorComplex128
    | VectorInt8 | VectorInt32 | VectorInt64
  {
    /** The scalar type the class stores. */
    function Scalar(): DType
    {
      match this
      case VectorFloat32 => Float32
      case VectorFloat64 => Float64
      case VectorComplex64 => Complex64
      case VectorComplex128 => Complex128
      case VectorInt8 => Int8
      case VectorInt32 => Int32
      case VectorInt64 => Int64
    }
  }

  /** Scalar types a sparse matrix supports: the real and complex floating types. */
  predicate IsMatrixScalar(d: DType)
  {
    d in {Float32, Float64, Complex64, Complex128}
  }

  /** Scalar types a vector supports: those of a matrix and three signed integer widths. */
  predicate IsVectorScalar(d: DType)
  {
    IsMatrixScalar(d) || d in {Int8, Int32, Int64}
  }

  /** The if/elif chain of `matrix_csr`. */
  function MatrixClassFor(d: DType): (r: Result<MatrixClass, LaError>)
    ensures r.Success? <==> IsMatrixScalar(d)
    ensures r.Success? ==> r.value.Scalar() == d
    ensures r.Failure? ==> r.error == NotImplemented(d)
  {
    if d == Float32 then Success(MatrixCsrFloat32)
    else if d == Float64 then Success(MatrixCsrFloat64)
    else if d == Complex64 then Success(MatrixCsrComplex64)
    else if d == Complex128 then Success(MatrixCsrComplex128)
    else Failure(NotImplemented(d))
  }

  /** The if/elif chain of `vector`. */
  function VectorClassFor(d: DType): (r: Result<VectorClass, LaError>)
    ensures r.Success? <==> IsVectorScalar(d)
    ensures r.Success? ==> r.value.Scalar() == d
    ensures r.Failure? ==> r.error == NotImplemented(d)
  {
    if d == Float32 then Success(VectorFloat32)
    else if d == Float64 then Success(VectorFloat64)
    else if d == Complex64 then Success(VectorComplex64)
    else if d == Complex128 then Success(VectorComplex128)
    else if d == Int8 then Success(VectorInt8)
    else if d == Int32 then Success(VectorInt32)
    else if d == Int64 then Success(VectorInt64)
    else Failure(NotImplemented(d))
  }

  /** Every scalar type a matrix accepts, a vector accepts too, with the same scalar. */
  lemma MatrixScalarsAreVectorScalars(d: DType)
    requires MatrixClassFor(d).Success?
    ensures VectorClassFor(d).Success?
    ensures VectorClassFor(d).value.Scalar() == MatrixClassFor(d).value.Scalar()
  {
  }

  /** Opaque reference to a finalised sparsity pattern built elsewhere. */
  type SparsityPatternRef = nat

  /** How block entries are laid out in a native matrix. */
  datatype BlockMode = Compact | Expanded

  /** A native matrix as constructed by `ftype(sp, block_mode)`. */
  datatype NativeMatrix = NativeMatrix(cls: MatrixClass, pattern: SparsityPatternRef, mode: BlockMode)

  /** A native vector as constructed by `vtype(map, bs)`. */
  datatype NativeVector = NativeVector(cls: VectorClass, indexMap: IndexMapSizes, bs: int)

  /** `matrix_csr(sp, block_mode, dtype)`: the block mode defaults to Compact and the dtype to Float64. */
  function CreateMatrix(sp: SparsityPatternRef, mode: BlockMode := Compact, d: DType := Float64): (r: Result<NativeMatrix, LaError>)
    ensures r.Success? <==> IsMatrixScalar(d)
    ensures r.Success? ==> r.value.cls.Scalar() == d && r.value.pattern == sp && r.value.mode == mode
    ensures r.Failure? ==> r.error == NotImplemented(d)
  {
    match MatrixClassFor(d)
    case Failure(e) => Failure(e)
    case Success(cls) => Success(NativeMatrix(cls, sp, mode))
  }

  /** `vector(map, bs, dtype)` up to the native constructor: the block size defaults to 1 and the dtype to Float64. */
  function CreateNativeVector(indexMap: IndexMapSizes, bs: int := 1, d: DType := Float64): (r: Result<NativeVector, LaError>)
    ensures r.Success? <==> IsVectorScalar(d)
    ensures r.Success? ==> r.value.cls.Scalar() == d && r.value.indexMap == indexMap && r.value.bs == bs
    ensures r.Failure? ==> r.error == NotImplemented(d)
  {
    match VectorClassFor(d)
    case Failure(e) => Failure(e)
    case Success(cls) => Success(NativeVector(cls, indexMap, bs))
  }
}
