/** The object manager's notes of which journal offsets an object depends on
    (src/object_store/object_manager.rs). */
module JournalCheckpoints {
  /** The first journal offset an object depends on: the current one, the old one while a flush is
      under way, or both. */
  datatype Checkpoints = NoCheckpoint | Current(at: nat) | Old(first: nat) | Both(first: nat, at: nat)
  {
    /** Where replay starts, according to a super-block written when the journal ends at `end`. */
    function Earliest(end: nat): nat
    {
      match this case NoCheckpoint => end case Current(x) => x case Old(x) => x case Both(x, _) => x
    }

    function Begin(): Checkpoints
    {
      match this case Current(x) => Old(x) case Both(x, _) => Old(x) case _ => this
    }

    function End(): Checkpoints
    {
      match this case Old(_) => NoCheckpoint case Both(_, y) => Current(y) case _ => this
    }

    /** Any other mutation, in the transaction at `offset`. */
    function Touch(offset: nat): Checkpoints
    {
      match this case NoCheckpoint => Current(offset) case Old(x) => Both(x, offset) case _ => this
    }
  }
}
