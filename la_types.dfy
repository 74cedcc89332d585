/**
 * Value types shared by the linear-algebra layer: scalar type tags, the sizes
 * an index map reports, block sizes and the exceptions the layer raises.
 */
module LaTypes {

  /** The NumPy scalar types a caller may pass as `dtype`. */
  datatype DType =
    | Bool
    | Int8 | Int16 | Int32 | Int64
    | UInt8 | UInt16 | UInt32 | UInt64
    | Float16 | Float32 | Float64
    | Complex64 | Complex128

  /** A block size: the native objects always report one of at least 1. */
  type Positive = x: int | x >= 1 witness 1

  /** What an index map reports about the local part of a distributed index set. */
  datatype IndexMapSizes = IndexMapSizes(sizeLocal: nat, numGhosts: nat)
  {
    /** Owned plus ghost indices held by this process. */
    function Size(): nat
    {
      sizeLocal + numGhosts
    }
  }

  /** The exceptions the modelled code can raise. */
  datatype LaError =
    | NotImplemented(dtype: DType)                        // unsupported scalar type
    | IndexOutOfRange(index: nat, length: nat)            // `indptr[nrows]` past the end
    | ReshapeFailed(size: nat, bs0: Positive, bs1: Positive)  // data not a whole number of blocks
}
