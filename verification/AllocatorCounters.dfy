/** What the counters of the allocator mean over every run of module Reservations
    (src/object_store/allocator.rs): committed bytes, used bytes and limits of owners. */
module AllocatorCounters {
  import opened LsmTypes
  import opened Reservations

  // ---- Committed bytes ----

  /** What the first `k` steps committed as allocated for the owner. */
  ghost function CommittedIn(states: seq<State>, steps: seq<Step>, k: nat, owner: nat): nat
    requires k <= |steps| <= |states|
  {
    if k == 0 then 0 else
      CommittedIn(states, steps, k - 1, owner) +
      match steps[k - 1]
      case CommitAllocation(i) =>
        if i < |states[k - 1].pending| then LenOf(states[k - 1].pending[i], owner) else 0
      case _ => 0
  }

  /** What the first `k` steps committed as deallocated for the owner. */
  ghost function FreedIn(steps: seq<Step>, k: nat, owner: nat): nat
    requires k <= |steps|
  {
    if k == 0 then 0 else
      FreedIn(steps, k - 1, owner) +
      match steps[k - 1]
      case CommitDeallocation(o, len, _) => if o == owner then len else 0
      case _ => 0
  }

  lemma NextCommitted(s: State, step: Step, o: nat)
    requires Safe(s, step)
    ensures var e, e' := s.inner.entry(o), Next(s, step).inner.entry(o);
            match step
            case CommitAllocation(i) =>
              e'.allocatedBytes == e.allocatedBytes + LenOf(s.pending[i], o) && e'.deallocated == e.deallocated
            case CommitDeallocation(owner, len, _) =>
              var x := if o == owner then len else 0;
              e'.allocatedBytes == e.allocatedBytes - x && e'.deallocated == e.deallocated + x
            case _ => e'.allocatedBytes == e.allocatedBytes && e'.deallocated == e.deallocated
  {
    hide UsedBelow;
  }

  /** In every run, per owner: allocated bytes are all that was committed less all that was freed,
      and the freed bytes are counted as deallocated. */
  lemma {:induction false} AllocatedIsCommitted(device: nat, ids: nat, states: seq<State>, steps: seq<Step>, k: nat,
                                                owner: nat)
    requires IsRun(device, ids, states, steps) && k <= |steps|
    ensures var e := states[k].inner.entry(owner);
            && e.allocatedBytes == CommittedIn(states, steps, k, owner) - FreedIn(steps, k, owner)
            && e.deallocated == FreedIn(steps, k, owner)
    decreases k
  {
    hide Enabled, Next;
    if k > 0 {
      AllocatedIsCommitted(device, ids, states, steps, k - 1, owner);
      NextCommitted(states[k - 1], steps[k - 1], owner);
    }
  }

  // ---- Used bytes ----

  /** What a step takes from the free space of the device. */
  ghost function Taken(s: State, step: Step): nat
  {
    match step
    case Reserve(_, amount) => amount
    case MarkAllocated(_, len) => len
    case MarkCharged(_, _, len) => len
    case _ => 0
  }

  /** What a step gives back to it: what was reserved from the allocator and not used, allocations
      without a reservation that are dropped, and deallocations without one. */
  ghost function Released(s: State, step: Step): nat
  {
    match step
    case GiveBack(_, amount) => amount
    case DropReservation(i) => if IsTop(s, i) then s.nodes[i].amount else 0
    case DropAllocation(i) => if i < |s.pending| && s.pending[i].charge.None? then s.pending[i].len else 0
    case CommitDeallocation(_, len, index) => if index.None? then len else 0
    case _ => 0
  }

  lemma OwnerKnown(s: State, i: nat)
    requires Inv(s) && IsLive(s, i)
    ensures s.inner.Knows(s.nodes[i].owner) && (s.nodes[i].TopLevel() ==> s.nodes[i].parent.owner == s.nodes[i].owner)
  {
    hide HoldsOk, ReservedOk, UncommittedOk, UsedBelow;
  }

  lemma UncommitUsed(inner: Inner, owner: nat, len: nat)
    requires owner < inner.ids
    ensures Uncommit(inner, owner, len).UsedBytes() == inner.UsedBytes() + len
  {
    hide Inner.UsedBytes;
    UsedSet(inner, owner, inner.entry(owner).(uncommitted := inner.entry(owner).uncommitted + len));
  }

  lemma DisownUsed(inner: Inner, owner: nat, amount: nat)
    requires owner < inner.ids && inner.ReservedFor(Some(owner)) >= amount
    ensures inner.RemoveReservation(Some(owner), amount).AddReservation(None, amount).UsedBytes() == inner.UsedBytes()
  {
    hide Inner.UsedBytes;
    UsedAdd(inner, Some(owner), amount);
    UsedAdd(inner.RemoveReservation(Some(owner), amount), None, amount);
  }

  lemma DropReservationUsed(s: State, i: nat)
    requires Inv(s) && Enabled(s, DropReservation(i)) && Safe(s, DropReservation(i))
    ensures Next(s, DropReservation(i)).inner.UsedBytes() == s.inner.UsedBytes() - Released(s, DropReservation(i))
  {
    hide Inv, Inner.UsedBytes, Unborrowed, Inner.RemoveReservation;
    OwnerKnown(s, i);
    if s.nodes[i].TopLevel() { UsedAdd(s.inner, s.nodes[i].owner, s.nodes[i].amount); }
  }

  /** Every other step moves bytes between counters only; in particular committing an allocation. */
  lemma UsedMoves(s: State, step: Step)
    requires Inv(s) && Enabled(s, step)
    ensures Safe(s, step) && Next(s, step).inner.UsedBytes() == s.inner.UsedBytes() + Taken(s, step) - Released(s, step)
  {
    StepOk(s, step);
    hide Inv, Inner.UsedBytes, Unborrowed, Inner.AddReservation, Inner.RemoveReservation, Uncommit;
    match step
    case Reserve(owner, amount) => UsedAdd(s.inner, owner, amount);
    case Disown(owner, amount) => DisownUsed(s.inner, owner, amount);
    case GiveBack(i, amount) =>
      OwnerKnown(s, i);
      UsedAdd(s.inner, s.nodes[i].owner, amount);
    case DropReservation(i) => DropReservationUsed(s, i);
    case CountLoose(owner, len) => UncommitRemove(s.inner, owner, Some(owner), len);
    case CountCharged(i, owner, len) =>
      OwnerKnown(s, i);
      UncommitRemove(s.inner, owner, s.nodes[i].owner, len);
    case MarkAllocated(owner, len) => UncommitUsed(s.inner, owner, len);
    case MarkCharged(i, owner, len) => UncommitUsed(s.inner, owner, len);
    case CommitAllocation(i) => CommitUsed(s, i);
    case DropAllocation(i) => DropUsed(s, i);
    case CommitDeallocation(owner, len, index) => DeallocationUsed(s, owner, len, index);
    case SetLimit(owner, bytes) => LimitUsed(s.inner, owner, bytes);
    case _ =>
  }

  lemma LimitUsed(inner: Inner, owner: nat, bytes: nat)
    ensures inner.WithLimit(owner, bytes).UsedBytes() == inner.UsedBytes()
  {
  }

  lemma CommitUsed(s: State, i: nat)
    requires Inv(s) && Enabled(s, CommitAllocation(i)) && Safe(s, CommitAllocation(i))
    ensures Next(s, CommitAllocation(i)).inner.UsedBytes() == s.inner.UsedBytes()
  {
    hide Inv, Inner.UsedBytes;
    PendingShape(s, i);
    var p := s.pending[i];
    var e := s.inner.entry(p.owner);
    UsedSet(s.inner, p.owner, e.(allocatedBytes := e.allocatedBytes + p.len, uncommitted := e.uncommitted - p.len));
  }

  lemma DropUsed(s: State, i: nat)
    requires Inv(s) && Enabled(s, DropAllocation(i)) && Safe(s, DropAllocation(i))
    ensures Next(s, DropAllocation(i)).inner.UsedBytes() == s.inner.UsedBytes() - Released(s, DropAllocation(i))
  {
    hide Inv, Inner.UsedBytes, Inner.AddReservation;
    PendingShape(s, i);
    var p := s.pending[i];
    var e := s.inner.entry(p.owner);
    var e' := e.(uncommitted := e.uncommitted - p.len);
    UsedSet(s.inner, p.owner, e');
    if p.charge.Some? && p.len > 0 {
      OwnerKnown(s, p.charge.value.index);
      UsedAdd(s.inner.Set(p.owner, e'), p.charge.value.account, p.len);
    }
  }

  lemma DeallocationUsed(s: State, owner: nat, len: nat, index: Option<nat>)
    requires var step := CommitDeallocation(owner, len, index); Inv(s) && Enabled(s, step) && Safe(s, step)
    ensures var step := CommitDeallocation(owner, len, index);
            Next(s, step).inner.UsedBytes() == s.inner.UsedBytes() - Released(s, step)
  {
    hide Inv, Inner.UsedBytes, Inner.AddReservation;
    var e := s.inner.entry(owner);
    var e' := e.(allocatedBytes := e.allocatedBytes - len, deallocated := e.deallocated + len);
    UsedSet(s.inner, owner, e');
    if index.Some? { OwnerKnown(s, index.value); UsedAdd(s.inner.Set(owner, e'), s.nodes[index.value].owner, len); }
  }

  // ---- Limits ----

  ghost predicate WithinLimit(s: State, owner: nat)
  {
    s.inner.entry(owner).UsedBytes() <= s.inner.limit(owner)
  }

  /** The steps that take an owner over its limit: a limit below what is used, an allocation out of a
      reservation that has no owner (which only stores without a limit have), and bytes of another
      owner that return to a reservation of this one. */
  ghost predicate Exceeds(s: State, step: Step, o: nat)
  {
    var used, limit := s.inner.entry(o).UsedBytes(), s.inner.limit(o);
    match step
    case SetLimit(owner, bytes) => owner == o && used > bytes
    case CountCharged(i, owner, len) =>
      owner == o && i < |s.nodes| && s.nodes[i].owner == None && used + len > limit
    case CommitDeallocation(owner, len, index) =>
      && owner != o && index.Some? && index.value < |s.nodes|
      && s.nodes[index.value].owner == Some(o) && used + len > limit
    case DropAllocation(i) =>
      && i < |s.pending| && s.pending[i].owner != o
      && s.pending[i].charge.Some? && s.pending[i].charge.value.account == Some(o) && used + s.pending[i].len > limit
    case _ => false
  }

  /** An owner within its limit stays within it exactly if the step is none of these. */
  lemma LimitKept(s: State, step: Step, o: nat)
    requires Inv(s) && Enabled(s, step) && WithinLimit(s, o)
    ensures Safe(s, step) && (WithinLimit(Next(s, step), o) <==> !Exceeds(s, step, o))
  {
    StepOk(s, step);
    hide Inv, Next, Enabled;
    match step
    case Reserve(_, _) => LimitTakes(s, step, o);
    case MarkAllocated(_, _) => LimitTakes(s, step, o);
    case MarkCharged(_, _, _) => LimitTakes(s, step, o);
    case DropReservation(i) => LimitReleases(s, step, o);
    case GiveBack(_, _) => LimitReleases(s, step, o);
    case Disown(_, _) => LimitReleases(s, step, o);
    case CountLoose(_, _) => LimitCounts(s, step, o);
    case CountCharged(_, _, _) => LimitCounts(s, step, o);
    case CommitAllocation(i) => LimitCommits(s, i, o);
    case DropAllocation(i) => LimitDrops(s, i, o);
    case CommitDeallocation(owner, len, index) => LimitFrees(s, owner, len, index, o);
    case _ => LimitSame(s, step, o);
  }

  lemma LimitSame(s: State, step: Step, o: nat)
    requires Safe(s, step) && WithinLimit(s, o)
    requires step.Hold? || step.Forget? || step.Add? || step.Commit? || step.SetLimit?
    ensures WithinLimit(Next(s, step), o) <==> !Exceeds(s, step, o)
  {
  }

  lemma LimitTakes(s: State, step: Step, o: nat)
    requires Safe(s, step) && Enabled(s, step) && WithinLimit(s, o)
    requires step.Reserve? || step.MarkAllocated? || step.MarkCharged?
    ensures WithinLimit(Next(s, step), o)
  {
    hide Inner.UsedBytes;
  }

  lemma LimitReleases(s: State, step: Step, o: nat)
    requires Safe(s, step) && WithinLimit(s, o) && (step.DropReservation? || step.GiveBack? || step.Disown?)
    ensures WithinLimit(Next(s, step), o)
  {
    hide Inner.UsedBytes;
  }

  lemma LimitCounts(s: State, step: Step, o: nat)
    requires Safe(s, step) && Enabled(s, step) && WithinLimit(s, o) && (step.CountLoose? || step.CountCharged?)
    ensures WithinLimit(Next(s, step), o) <==> !Exceeds(s, step, o)
  {
    hide Inner.UsedBytes;
  }

  lemma LimitCommits(s: State, i: nat, o: nat)
    requires Safe(s, CommitAllocation(i)) && WithinLimit(s, o)
    ensures WithinLimit(Next(s, CommitAllocation(i)), o)
  {
    hide Inner.UsedBytes;
  }

  lemma LimitDrops(s: State, i: nat, o: nat)
    requires Safe(s, DropAllocation(i)) && WithinLimit(s, o)
    ensures WithinLimit(Next(s, DropAllocation(i)), o) <==> !Exceeds(s, DropAllocation(i), o)
  {
    hide Inner.UsedBytes;
  }

  lemma LimitFrees(s: State, owner: nat, len: nat, index: Option<nat>, o: nat)
    requires Safe(s, CommitDeallocation(owner, len, index)) && WithinLimit(s, o)
    ensures var step := CommitDeallocation(owner, len, index); WithinLimit(Next(s, step), o) <==> !Exceeds(s, step, o)
  {
    hide Inner.UsedBytes;
  }

  /** What a reservation or `mark_allocated` adds for an owner fits its limit, whatever was there
      before. */
  lemma LimitChecked(s: State, step: Step, o: nat)
    requires Inv(s) && Enabled(s, step)
    requires match step
             case Reserve(account, amount) => account == Some(o) && amount > 0
             case MarkAllocated(owner, len) => owner == o && len > 0
             case MarkCharged(_, owner, len) => owner == o && len > 0
             case _ => false
    ensures Safe(s, step) && WithinLimit(Next(s, step), o)
  {
    StepOk(s, step);
    hide Inv;
  }

  /** There is room for an amount exactly if it fits the device and, unless it is nothing, the limit. */
  lemma RoomExactly(inner: Inner, device: nat, owner: Option<nat>, amount: nat)
    requires inner.UsedBytes() <= device
    ensures amount <= inner.Room(device, owner) <==>
              && inner.UsedBytes() + amount <= device
              && (owner.Some? && amount > 0 ==>
                    inner.entry(owner.value).UsedBytes() + amount <= inner.limit(owner.value))
  {
    hide Inner.UsedBytes;
  }
}
