/** Object identities shared by the scene and every subsystem keyed by it. */
module Handles {

  /**
   * ObjectID: a dense slot index and the generation the slot had when the
   * handle was issued. Equality is slot-and-generation equality.
   */
  datatype ObjectID = ObjectID(slot: nat, generation: nat) {
    predicate IsNil() { this == NIL }
  }

  /**
   * OBJECT_NIL. The allocator starts every slot at generation 1, so NIL is
   * never issued.
   */
  const NIL: ObjectID := ObjectID(0, 0)

  /** Names are plain strings; `Name(ForceInit::Default)` is the empty one. */
  type Name = string

  const DEFAULT_NAME: Name := ""
}
