/** Looking for the time an epoch began, among slots that may have no block. */
module EpochScan {
  import opened Prelude

  /** The first slot at or after `from`, and before `end`, that has a block time. */
  ghost predicate FirstTimed(blockTime: nat -> Option<int>, from: nat, end: nat, slot: nat)
  {
    from <= slot < end && blockTime(slot).Some? && forall s :: from <= s < slot ==> blockTime(s).None?
  }

  /** `get_epoch_boundary_timestamps`: the times of the first timed slot and of the reward slot. */
  method EpochBoundaryTimes(
    blockTime: nat -> Option<int>, firstSlot: nat, effectiveSlot: nat) returns (r: Option<(int, int)>)
    ensures r.Some?
       <==> blockTime(effectiveSlot).Some? && exists s :: FirstTimed(blockTime, firstSlot, effectiveSlot, s)
    ensures r.Some? ==> exists s :: FirstTimed(blockTime, firstSlot, effectiveSlot, s)
                                    && r.value == (blockTime(s).value, blockTime(effectiveSlot).value)
  {
    if blockTime(effectiveSlot).None? { return None; }
    var slot := firstSlot;
    while true
      invariant firstSlot <= slot && (slot <= effectiveSlot || slot == firstSlot)
      invariant forall s :: firstSlot <= s < slot ==> blockTime(s).None?
      decreases effectiveSlot - slot
    {
      if slot >= effectiveSlot { return None; }
      match blockTime(slot) {
        case Some(time) =>
          assert FirstTimed(blockTime, firstSlot, effectiveSlot, slot);
          return Some((time, blockTime(effectiveSlot).value));
        case None => slot := slot + 1;
      }
    }
  }
}
