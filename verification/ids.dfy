/** The compiler's identifiers, kept abstract: only equality and crate locality matter. */
module Ids {

  /** A HIR node identifier: the owning item plus an index local to that owner. */
  datatype HirId = HirId(owner: nat, localId: nat)

  /** A definition identifier: the crate it lives in plus an index in that crate. */
  datatype DefId = DefId(krate: nat, index: nat)

  /** The number of the crate under analysis. */
  const LocalCrate: nat := 0

  /** `DefId::as_local` succeeds exactly for definitions of the local crate. */
  predicate IsLocal(d: DefId)
  {
    d.krate == LocalCrate
  }
}
