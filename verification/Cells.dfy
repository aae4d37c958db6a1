/**
 Cells: up to 128 data bytes and up to 4 references to other cells by hash
 (crates/protocol/onx-state-model/src/cell.rs).

 SHA-256 is idealised: Hash is the free constructor over cells, so two cells have the same
 hash exactly when they are equal.  Code that never relies on this is written for an arbitrary
 identifier type Id instead.
 */
module Cells {
  import opened Bytes

  const MAX_CELL_DATA_BYTES := 128
  const MAX_CELL_REFS := 4

  datatype Cell<Id> = Cell(data: seq<byte>, refs: seq<Id>, special: bool) {
    /** The limits that every cell built by the code meets. */
    predicate Fits() {
      |data| <= MAX_CELL_DATA_BYTES && |refs| <= MAX_CELL_REFS
    }
  }

  datatype Hash = Digest(cell: Cell<Hash>)
}
