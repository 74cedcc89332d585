# DOLFINx linear algebra: the Python layer's own logic

DOLFINx's `dolfinx.la` Python module wraps a native distributed
linear-algebra engine. It provides vectors and compressed-sparse-row (CSR)
matrices whose rows and entries are split into owned and ghost parts by an
index map. Nearly every method forwards to the native object. This project
models the three pieces of logic the Python layer runs itself:

- **`MatrixCSR.to_scipy`** (modules `CsrLayout` and `Matrix`). It takes the
  local CSR arrays (`data`, `indices`, `indptr`). Without `ghosted`, it
  drops the ghost rows by cutting prefixes of the three arrays. It then
  builds the argument list of SciPy's CSR constructor when both block
  sizes are 1, and of the BSR constructor otherwise. For BSR, `data` is
  reshaped into `bs0 x bs1` blocks.
  - Python slicing is modelled exactly, including clamping and negative
    stops.
  - Reading `indptr[nrows]` past the end raises an error, and so does a
    reshape that does not give whole blocks. Both are explicit error
    values.
  - The well-formedness of the native CSR arrays is a predicate. The
    lemmas assume it and prove that the conversion succeeds, keeps each
    owned row exactly and keeps every scalar in place.
- **Scalar-type dispatch** in `matrix_csr` and `vector` (module
  `ScalarDispatch`). These are if/elif chains from a dtype to a native
  class. Any other dtype raises `NotImplementedError`.
- **The cached PETSc view** of a `Vector` (module `Vectors`). `petsc_vec`
  creates a PETSc `Vec` on first use and returns the cached one after
  that. `__del__` destroys the view if one was made. This part is a class
  with ghost counters of creations and destructions.

Shared value types (dtypes, index-map sizes, block sizes, errors) are in
`LaTypes`, and `Option`/`Result` are in `Wrappers`.

## Model

| member | source | states |
|---|---|---|
| `ScalarDispatch.MatrixClassFor` | python/dolfinx/la/__init__.py:289-298 | succeeds exactly for float32, float64, complex64 and complex128; the chosen native class stores the requested scalar type; any other dtype gives NotImplemented carrying that dtype |
| `ScalarDispatch.VectorClassFor` | python/dolfinx/la/__init__.py:315-330 | succeeds exactly for the four matrix types plus int8, int32 and int64; the chosen class stores the requested scalar; otherwise NotImplemented with the dtype |
| `ScalarDispatch.MatrixScalarsAreVectorScalars` | python/dolfinx/la/__init__.py:315-330 | every dtype `matrix_csr` accepts is accepted by `vector`, with the same scalar type |
| `ScalarDispatch.CreateMatrix` | python/dolfinx/la/__init__.py:274-300 | `matrix_csr` builds a native matrix of the requested scalar type over the given sparsity pattern and block mode (defaults: compact, float64), or fails with NotImplemented for unsupported dtypes |
| `ScalarDispatch.CreateNativeVector` | python/dolfinx/la/__init__.py:315-332 | the native vector built by `vector` has the requested scalar type, index map and block size (defaults: 1, float64), or the call fails with NotImplemented |
| `Vectors.CreateVector` | python/dolfinx/la/__init__.py:303-332 | `vector` returns a fresh wrapper with no cached PETSc view around that native vector, exactly for the supported dtypes |
| `CsrLayout.PrefixSlice` | python/dolfinx/la/__init__.py:256-260 | Python's `s[:stop]` is always a prefix of `s`; its length is `stop` when that is in range, the whole sequence past the end, and counted from the end for negative stops |
| `CsrLayout.IndptrMonotone` | python/dolfinx/la/__init__.py:255 | in a row-pointer array that never decreases between neighbours, every earlier entry is at most every later one, so `indptr[nrows]` bounds all owned rows |
| `CsrLayout.Truncate` | python/dolfinx/la/__init__.py:254-260 | dropping rows from `nrows` on fails exactly when `indptr[nrows]` is out of range, with that index and length |
| `CsrLayout.TruncateKeepsRows` | python/dolfinx/la/__init__.py:254-260 | on a well-formed triple, truncation gives exactly `indptr[..nrows+1]`, `indices[..nnz]` and `data[..bs0*bs1*nnz]`; the result is well-formed CSR with `nrows` rows; each kept row has the same column indices and block values as before |
| `CsrLayout.Chunks` | python/dolfinx/la/__init__.py:270 | NumPy's `reshape(-1, k)`: on success the pieces all have `k` entries and together account for the whole buffer |
| `CsrLayout.ChunksOfMultiple` | python/dolfinx/la/__init__.py:270 | a buffer of `n*k` entries always reshapes, into exactly `n` pieces |
| `CsrLayout.ChunkAt` | python/dolfinx/la/__init__.py:270 | entry `j` of piece `i` is entry `i*k + j` of the buffer |
| `CsrLayout.Reshape` | python/dolfinx/la/__init__.py:270 | NumPy's `reshape(-1, bs0, bs1)`: on success the blocks account for the whole buffer at `bs0*bs1` scalars each and each has `bs0` rows; with `ReshapeWhole` and `ReshapeBlocks` it fails exactly when the length is not a multiple of `bs0*bs1` |
| `CsrLayout.ReshapeWhole` | python/dolfinx/la/__init__.py:270 | `reshape(-1, bs0, bs1)` of `n*bs0*bs1` scalars succeeds with exactly `n` blocks |
| `CsrLayout.ReshapeBlocks` | python/dolfinx/la/__init__.py:270 | when `reshape(-1, bs0, bs1)` succeeds, the buffer held a whole number of blocks; each block has `bs0` rows of `bs1` scalars; scalar `(b, i, j)` is buffer entry `(b*bs0 + i)*bs1 + j` (C order) |
| `Matrix.LocalArrays` | python/dolfinx/la/__init__.py:248-260 | the only failure is reading `indptr[size_local]` past the end without `ghosted`, reported with that index and length; on a valid matrix it succeeds for both values of `ghosted`, with well-formed CSR over `nrows` rows, and every one of those rows has the same column indices and block values as in the native arrays |
| `Matrix.ToScipy` | python/dolfinx/la/__init__.py:233-271 | `ghosted` defaults to false, as in the source; on success the result is plain CSR exactly when `bs0 == bs1 == 1`; its shape is `(bs0*nrows, bs1*ncols)`, with `ncols` = owned + ghost columns and `nrows` = owned rows (+ ghost rows when `ghosted`); it carries the local triple, regrouped into blocks in C order for BSR; the only failure for unit block sizes is the out-of-range `indptr` read |
| `Matrix.ToScipyOwned` | python/dolfinx/la/__init__.py:253-271 | with `ghosted` at its default (false), a valid matrix converts; `indptr` is the first `size_local + 1` row pointers; `indices` and `data` are the prefixes of length `nnz = indptr[size_local]` and `bs0*bs1*nnz`; BSR holds exactly `nnz` blocks |
| `Matrix.ColumnsIgnoreGhosted` | python/dolfinx/la/__init__.py:249-254 | `ncols` is every local column, owned plus ghost, whatever `ghosted` is: on a valid matrix both conversions succeed with `bs1 * (size_local + num_ghosts)` columns, and their row counts differ by exactly `bs0 * num_ghosts` |
| `Matrix.ToScipyGhosted` | python/dolfinx/la/__init__.py:248-271 | with `ghosted`, a valid matrix converts with all arrays unchanged over `size_local + num_ghosts` rows; BSR holds one block per stored nonzero |
| `Vectors.PetscVec.Wrap` | python/dolfinx/la/__init__.py:99-102 | `create_vector_wrap` gives a new view of the vector's own native storage that has not been destroyed |
| `Vectors.PetscVec.Destroy` | python/dolfinx/la/__init__.py:68 | each `destroy()` is counted once on the view |
| `Vectors.Vector.constructor` | python/dolfinx/la/__init__.py:63-64 | a new wrapper holds its native vector and no cached view; no view has been created |
| `Vectors.Vector.GetPetscVec` | python/dolfinx/la/__init__.py:85-103 | the first request creates one fresh, undestroyed view of this vector and caches it; later requests return that same cached view and create nothing; at most one view is ever created |
| `Vectors.Vector.Finalize` | python/dolfinx/la/__init__.py:66-68 | `__del__` calls `destroy` on the cached view exactly once when one was created, even if a caller already destroyed it, and destroys nothing when none was |
| `Vectors.RequestTwiceThenFinalize` | python/dolfinx/la/__init__.py:85-103 | two `petsc_vec` requests on one vector return the same view of its storage, and finalising the vector destroys that view exactly once |

## Left out

- The methods that only forward to the native object are not modelled: `scatter_forward`, `scatter_reverse`, `mult`, `add`, `set`, `set_value`, `squared_norm`, `to_dense`, `array`, `data`, `indices`, `indptr`, `index_map` and `block_size`. Their behaviour lives in native code that is not part of this model.
- `norm`, `orthonormalize` and `is_orthonormal` are not modelled. They are foreign calls, they work on floating-point values, and they are collective reductions over processes.
- Ghost exchange and all communication between processes are out of scope. The model covers one process's local arrays.
- The SciPy `csr_matrix`/`bsr_matrix` constructors and their own checks are not modelled. `to_scipy` is modelled up to the argument list it passes them. The fact that the SciPy result shares memory with the native arrays is not modelled either.
- PETSc's `create_vector_wrap` and `destroy` are not modelled beyond a fresh handle and a destruction count. `dolfinx.la.petsc` is not part of this model.
- `to_scipy` imports `scipy.sparse` inside the function, and that import fails when SciPy is not installed. This is not modelled: it depends on the installed environment, and the model ends at the argument list passed to SciPy.
- The `assert dolfinx.has_petsc4py` check in `petsc_vec` is not modelled. It depends on the installed environment.
- Dtypes are a plain enumeration of NumPy scalar types, so `np.issubdtype` on abstract dtype classes such as `np.floating` is not modelled. On concrete types it is equality, which the model uses.
- The native matrix's block sizes are taken to be at least 1, as the native object always reports them.
- `Vectors.Vector.Finalize` requires that the finaliser has not run yet. The runtime calls `__del__` once per object.
- The native vector and matrix classes are tags plus their construction arguments (index map sizes, block size, sparsity pattern reference, block mode). Their storage is not modelled.
