/**
 * The `Vector` wrapper class (python/dolfinx/la/__init__.py): a native vector
 * plus a PETSc `Vec` view that is created on first request, cached, and
 * destroyed when the wrapper is finalised.
 */
module Vectors {
  import opened Wrappers
  import opened LaTypes
  import opened ScalarDispatch

  /** A PETSc `Vec` that shares the storage of a native vector. */
  class PetscVec {
    const wraps: NativeVector
    ghost var destroyCalls: nat

    /** `create_vector_wrap`: a new view of `x`'s entries, not yet destroyed. */
    constructor Wrap(x: NativeVector)
      ensures wraps == x && destroyCalls == 0
    {
      wraps := x;
      destroyCalls := 0;
    }

    /** `destroy()`: releases the PETSc object. */
    method Destroy()
      modifies this
      ensures destroyCalls == old(destroyCalls) + 1
    {
      destroyCalls := destroyCalls + 1;
    }
  }

  class Vector {
    const cppObject: NativeVector
    /** The cached PETSc view; null until first requested. */
    var petscX: PetscVec?
    /** How many views this vector has created. */
    ghost var wrapsCreated: nat
    /** How many times this vector has destroyed its view. */
    ghost var destroysIssued: nat
    /** Whether the finaliser has run. */
    ghost var finalized: bool

    /**
     * At most one view is ever created, it wraps this vector's own storage, and
     * this vector has destroyed it exactly once if the finaliser has run and
     * never before. Destroy calls made by others on the view handed out are
     * not restricted.
     */
    ghost predicate Valid()
      reads this
    {
      && wrapsCreated == (if petscX == null then 0 else 1)
      && destroysIssued == (if finalized && petscX != null then 1 else 0)
      && (petscX != null ==> petscX.wraps == cppObject)
    }

    /** `Vector(x)`: no view is cached yet. */
    constructor (x: NativeVector)
      ensures Valid() && !finalized
      ensures cppObject == x && petscX == null && wrapsCreated == 0
    {
      cppObject := x;
      petscX := null;
      wrapsCreated, destroysIssued, finalized := 0, 0, false;
    }

    /**
     * The `petsc_vec` property: the first request creates a view of this vector
     * and caches it; every later request returns the cached view and creates none.
     */
    method GetPetscVec() returns (v: PetscVec)
      requires Valid() && !finalized
      modifies this
      ensures Valid() && !finalized
      ensures petscX == v && v.wraps == cppObject
      ensures old(petscX) != null ==> v == old(petscX) && wrapsCreated == old(wrapsCreated)
      ensures old(petscX) == null ==> fresh(v) && v.destroyCalls == 0 && wrapsCreated == old(wrapsCreated) + 1
      ensures wrapsCreated == 1
    {
      if petscX == null {
        petscX := new PetscVec.Wrap(cppObject);
        wrapsCreated := wrapsCreated + 1;
      }
      v := petscX;
    }

    /**
     * `__del__`: destroys the cached view if there is one, and nothing otherwise,
     * whether or not the view was already destroyed by someone else.
     */
    method Finalize()
      requires Valid() && !finalized
      modifies this, petscX
      ensures Valid() && finalized
      ensures petscX == old(petscX) && wrapsCreated == old(wrapsCreated)
      ensures destroysIssued == (if old(petscX) == null then 0 else 1)
      ensures petscX != null ==> petscX.destroyCalls == old(petscX.destroyCalls) + 1
    {
      if petscX != null {
        petscX.Destroy();
        destroysIssued := destroysIssued + 1;
      }
      finalized := true;
    }
  }

  /**
   * `vector(map, bs, dtype)`: a new wrapper around a native vector of the requested
   * scalar type; the block size defaults to 1 and the dtype to Float64.
   */
  method CreateVector(indexMap: IndexMapSizes, bs: int := 1, d: DType := Float64) returns (r: Result<Vector, LaError>)
    ensures r.Success? <==> IsVectorScalar(d)
    ensures r.Failure? ==> r.error == NotImplemented(d)
    ensures r.Success? ==> && fresh(r.value) && r.value.Valid() && !r.value.finalized
                           && r.value.petscX == null
                           && r.value.cppObject == CreateNativeVector(indexMap, bs, d).value
  {
    match CreateNativeVector(indexMap, bs, d)
    case Failure(e) =>
      r := Failure(e);
    case Success(x) =>
      var v := new Vector(x);
      r := Success(v);
  }

  /**
   * A vector's life with its view requested twice: both requests give the same
   * view, and finalising the vector destroys that view exactly once.
   */
  method RequestTwiceThenFinalize(x: NativeVector) returns (first: PetscVec, second: PetscVec)
    ensures first == second && first.wraps == x
    ensures first.destroyCalls == 1
  {
    var vec := new Vector(x);
    first := vec.GetPetscVec();
    second := vec.GetPetscVec();
    vec.Finalize();
  }
}
