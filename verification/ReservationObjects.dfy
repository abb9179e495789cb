/** The reservation objects themselves (src/object_store/allocator.rs).  `state` is what module
    Reservations says the allocator and all reservations look like; every method is one of its
    steps (or a few), and the assertions of the code follow from the conservation law there. */
module ReservationObjects {
  import opened LsmTypes
  import opened Arith
  import opened Reservations
  import AllocatorCounters

  /** The step is safe and leads from one state to the other. */
  ghost predicate Did(s: State, step: Step, s': State) { Safe(s, step) && s' == Next(s, step) }

  datatype Source = TopLevel(allocator: Allocator) | HoldOf(reservation: Reservation)

  /** What a deallocation does to the counters of its owner and to the total. */
  lemma Freeing(s: State, owner: nat, len: nat, i: Option<nat>)
    requires Inv(s) && Enabled(s, Step.CommitDeallocation(owner, len, i))
    ensures var step := Step.CommitDeallocation(owner, len, i);
            && Safe(s, step)
            && var e, e' := s.inner.entry(owner), Next(s, step).inner.entry(owner);
            && Next(s, step).inner.UsedBytes() == s.inner.UsedBytes() - (if i.Some? then 0 else len)
            && e'.allocatedBytes == e.allocatedBytes - len && e'.deallocated == e.deallocated + len
  {
    hide Inv, Next, Inner.UsedBytes;
    var step := Step.CommitDeallocation(owner, len, i);
    AllocatorCounters.UsedMoves(s, step);
    AllocatorCounters.NextCommitted(s, step, owner);
  }

  class Reservation {
    const owner: Option<nat>
    const source: Source
    var amount: nat
    var reserved: nat

    constructor (owner: Option<nat>, source: Source, amount: nat)
      ensures this.owner == owner && this.source == source && this.amount == amount && reserved == 0
    {
      this.owner, this.source, this.amount, this.reserved := owner, source, amount, 0;
    }

    /** The object is reservation `n`. */
    ghost predicate Is(n: Node)
      reads this
    {
      owner == n.owner && amount == n.amount && reserved == n.reserved
    }

    /** What can still be held. */
    function Avail(): (r: nat)
      requires reserved <= amount
      reads this
      ensures r + reserved == amount
    {
      amount - reserved
    }

    method Add(x: nat, ghost a: Allocator, ghost i: nat)
      requires a.Valid() && a.Has(this, i) && Enabled(a.state, Step.Add(i, x))
      modifies this, a`state
      ensures a.Valid() && Did(old(a.state), Step.Add(i, x), a.state)
    {
      hide Inv;
      StepOk(a.state, Step.Add(i, x));
      amount := amount + x;
      a.state := Next(a.state, Step.Add(i, x));
    }

    /** `forget`: all of it, if nothing is held. */
    method Forget(ghost a: Allocator, ghost i: nat) returns (x: nat)
      requires a.Valid() && a.Has(this, i) && IsLive(a.state, i) && Unborrowed(a.state, i)
      modifies this, a`state
      ensures a.Valid() && x == old(amount) && amount == 0 && Did(old(a.state), Step.Forget(i, x), a.state)
    {
      hide Inv, Unborrowed;
      UnborrowedIsFree(a.state, i);
      assert reserved == 0;                         // the assertion of the source
      x := amount;
      StepOk(a.state, Step.Forget(i, x));
      amount := 0;
      a.state := Next(a.state, Step.Forget(i, x));
    }

    method ForgetSome(x: nat, ghost a: Allocator, ghost i: nat)
      requires a.Valid() && a.Has(this, i) && Enabled(a.state, Step.Forget(i, x))
      modifies this, a`state
      ensures a.Valid() && Did(old(a.state), Step.Forget(i, x), a.state)
    {
      hide Inv;
      StepOk(a.state, Step.Forget(i, x));
      amount := amount - x;
      assert reserved <= amount;                    // the assertion of the source
      a.state := Next(a.state, Step.Forget(i, x));
    }

    /** A hold of an amount that is available. */
    method Hold(x: nat, ghost a: Allocator, ghost i: nat) returns (hold: Reservation)
      requires a.Valid() && a.Has(this, i) && Enabled(a.state, Step.Hold(i, x))
      modifies this, a`state, a`objects
      ensures a.Valid() && Did(old(a.state), Step.Hold(i, x), a.state)
      ensures fresh(hold) && a.objects == old(a.objects) + [hold]
    {
      hide Inv;
      StepOk(a.state, Step.Hold(i, x));
      reserved := reserved + x;
      hold := new Reservation(owner, HoldOf(this), x);
      a.state := Next(a.state, Step.Hold(i, x));
      a.objects := a.objects + [hold];
    }

    method ReserveAtMost(x: nat, ghost a: Allocator, ghost i: nat) returns (hold: Reservation)
      requires a.Valid() && a.Has(this, i) && IsLive(a.state, i)
      modifies this, a`state, a`objects
      ensures a.Valid() && old(reserved <= amount) && Did(old(a.state), Step.Hold(i, Min(x, old(Avail()))), a.state)
      ensures fresh(hold) && a.objects == old(a.objects) + [hold]
    {
      hide Inv, Next, Safe, Allocator.Valid;
      a.Shown(this, i);
      SetAside(a.state, i);
      hold := Hold(Min(x, amount - reserved), a, i);
    }

    method Reserve(x: nat, ghost a: Allocator, ghost i: nat) returns (hold: Option<Reservation>)
      requires a.Valid() && a.Has(this, i) && IsLive(a.state, i)
      modifies this, a`state, a`objects
      ensures a.Valid() && old(reserved <= amount) && (hold.Some? <==> x <= old(Avail()))
      ensures hold.Some? ==>
                Did(old(a.state), Step.Hold(i, x), a.state) && fresh(hold.value) &&
                    a.objects == old(a.objects) + [hold.value]
      ensures hold.None? ==> a.state == old(a.state) && a.objects == old(a.objects) && unchanged(this)
    {
      SetAside(a.state, i);
      hide Inv;
      if amount - reserved < x {
        return None;
      }
      var h := Hold(x, a, i);
      return Some(h);
    }

    /** Commits what a caller holds of this reservation. */
    method Commit(x: nat, ghost a: Allocator, ghost i: nat)
      requires a.Valid() && a.Has(this, i) && Enabled(a.state, Step.Commit(i, x))
      modifies this, a`state
      ensures a.Valid() && Did(old(a.state), Step.Commit(i, x), a.state)
    {
      hide Inv;
      StepOk(a.state, Step.Commit(i, x));
      reserved := reserved - x;
      amount := amount - x;
      a.state := Next(a.state, Step.Commit(i, x));
    }

    method GiveBack(x: nat, a: Allocator, ghost i: nat)
      requires a.Valid() && a.Has(this, i) && Enabled(a.state, Step.GiveBack(i, x))
      modifies this, a`state, a`inner
      ensures a.Valid() && Did(old(a.state), Step.GiveBack(i, x), a.state)
    {
      hide Inv, Inner.RemoveReservation;
      StepOk(a.state, Step.GiveBack(i, x));
      assert a.inner.ReservedFor(owner) >= x;       // the assertion of `remove_reservation`
      a.inner := a.inner.RemoveReservation(owner, x);
      amount := amount - x;
      assert reserved <= amount;                    // the assertion of the source
      a.state := Next(a.state, Step.GiveBack(i, x));
    }

    /** Moves an amount that is not held to another reservation from the same place. */
    method MoveTo(other: Reservation, x: nat, ghost a: Allocator, ghost i: nat, ghost j: nat)
      requires a.Valid() && a.Has(this, i) && a.Has(other, j) && i != j && Enabled(a.state, Step.Forget(i, x))
      requires IsLive(a.state, j) && a.state.nodes[j].parent == a.state.nodes[i].parent
      modifies this, other, a`state
      ensures a.Valid() && amount == old(amount) - x && other.amount == old(other.amount) + x
      ensures exists s :: Did(old(a.state), Step.Forget(i, x), s) && Did(s, Step.Add(j, x), a.state)
    {
      hide Inv;
      ForgetSome(x, a, i);
      other.Add(x, a, j);
    }

    /** Dropping a reservation that nothing borrows. */
    method Drop(a: Allocator, ghost i: nat)
      requires a.Valid() && a.Has(this, i) && Enabled(a.state, Step.DropReservation(i))
      modifies this, a`state, a`inner, if source.HoldOf? then {source.reservation} else {}
      ensures a.Valid() && Did(old(a.state), Step.DropReservation(i), a.state)
    {
      hide Inv, Unborrowed, Inner.RemoveReservation;
      StepOk(a.state, Step.DropReservation(i));
      assert reserved == 0;                         // the assertion of the source
      var x := amount;
      amount := 0;
      match source
      case TopLevel(_) =>
        if x > 0 {
          assert a.inner.ReservedFor(owner) >= x;   // the assertion of `remove_reservation`
          a.inner := a.inner.RemoveReservation(owner, x);
        }
        a.state := Next(a.state, Step.DropReservation(i));
      case HoldOf(r) =>
        assert r.owner == owner && r.reserved >= x; // the assertions of `release_reservation`
        if x > 0 {
          r.reserved := r.reserved - x;
        }
        a.state := Next(a.state, Step.DropReservation(i));
    }
  }

  class Allocator {
    const device: nat
    var inner: Inner
    ghost var state: State
    ghost var objects: seq<Reservation>

    ghost function Objects(): set<Reservation> reads this { set r | r in objects }

    ghost predicate From(r: Reservation, n: Node)
      reads this
    {
      match n.parent
      case FromAllocator(_) => r.source == TopLevel(this)
      case FromReservation(p) => p < |objects| && r.source == HoldOf(objects[p])
    }

    /** The objects are as `state` says, and `state` satisfies the conservation law. */
    ghost predicate Valid()
      reads this, Objects()
    {
      && Inv(state) && inner == state.inner && device == state.device
      && |objects| == |state.nodes|
      && (forall i, j :: 0 <= i < j < |objects| ==> objects[i] != objects[j])
      && (forall i :: 0 <= i < |objects| ==> objects[i].Is(state.nodes[i]) && From(objects[i], state.nodes[i]))
    }

    /** `r` is reservation `i`. */
    ghost predicate Has(r: Reservation, i: nat)
      reads this
    {
      i < |objects| && objects[i] == r
    }

    lemma Shown(r: Reservation, i: nat)
      requires Valid() && Has(r, i)
      ensures |objects| == |state.nodes| && r.Is(state.nodes[i]) && From(r, state.nodes[i])
      ensures Inv(state) && inner == state.inner && device == state.device
    {
      hide Inv;
    }

    constructor (device: nat, ids: nat)
      ensures Valid() && state == Init(device, ids) && this.device == device
    {
      this.device := device;
      this.inner := Init(device, ids).inner;
      this.state := Init(device, ids);
      this.objects := [];
      new;
      InitOk(device, ids);
    }

    method UsedBytes() returns (used: nat)
      ensures used == inner.UsedBytes()
    {
      used := inner.unattributed;
      var n: nat := 0;
      while n < inner.ids
        invariant n <= inner.ids && used == UsedBelow(inner.entry, n) + inner.unattributed
      {
        used := used + inner.entry(n).UsedBytes();
        n := n + 1;
      }
    }

    method Room(owner: Option<nat>) returns (room: nat)
      requires Valid()
      ensures inner.UsedBytes() <= device && room == inner.Room(device, owner)
    {
      var used := UsedBytes();
      room := device - used;
      if owner.Some? {
        room := Min(inner.BytesLeft(owner.value), room);
      }
    }

    // ---- Taking reservations ----

    /** A reservation of an amount for which there is room. */
    method Take(owner: Option<nat>, amount: nat) returns (r: Reservation)
      requires Valid() && Enabled(state, Step.Reserve(owner, amount))
      modifies this`inner, this`state, this`objects
      ensures Valid() && Did(old(state), Step.Reserve(owner, amount), state)
      ensures fresh(r) && objects == old(objects) + [r] && r.amount == amount
      ensures owner.Some? && amount > 0 ==> AllocatorCounters.WithinLimit(state, owner.value)
    {
      hide Inv, Inner.UsedBytes;
      StepOk(state, Step.Reserve(owner, amount));
      if owner.Some? && amount > 0 { AllocatorCounters.LimitChecked(state, Step.Reserve(owner, amount), owner.value); }
      inner := inner.AddReservation(owner, amount);
      r := new Reservation(owner, TopLevel(this), amount);
      state := Next(state, Step.Reserve(owner, amount));
      objects := objects + [r];
    }

    method Reserve(owner: Option<nat>, amount: nat) returns (r: Option<Reservation>)
      requires Valid() && inner.Knows(owner)
      modifies this`inner, this`state, this`objects
      ensures Valid() && old(inner.UsedBytes() <= device) && (r.Some? <==> amount <= old(inner.Room(device, owner)))
      ensures r.Some? && owner.Some? && amount > 0 ==> AllocatorCounters.WithinLimit(state, owner.value)
      ensures r.Some? ==>
                Did(old(state), Step.Reserve(owner, amount), state) && fresh(r.value) &&
                    objects == old(objects) + [r.value]
      ensures r.None? ==> unchanged(this)
    {
      hide Inv, Inner.UsedBytes, Inner.Room;
      var room := Room(owner);
      if room < amount {
        return None;
      }
      var reservation := Take(owner, amount);
      return Some(reservation);
    }

    method ReserveAtMost(owner: Option<nat>, amount: nat) returns (r: Reservation)
      requires Valid() && inner.Knows(owner)
      modifies this`inner, this`state, this`objects
      ensures Valid() && old(inner.UsedBytes() <= device)
      ensures Did(old(state), Step.Reserve(owner, Min(amount, old(inner.Room(device, owner)))), state)
      ensures fresh(r) && objects == old(objects) + [r]
      ensures r.amount == Min(amount, old(inner.Room(device, owner)))
      ensures owner.Some? && r.amount > 0 ==> AllocatorCounters.WithinLimit(state, owner.value)
    {
      hide Inv, Inner.UsedBytes, Inner.Room;
      var room := Room(owner);
      r := Take(owner, Min(amount, room));
    }

    /** The reservation `allocate` makes when the transaction has none: as many whole blocks as fit. */
    method ReserveBlocks(owner: nat, len: nat, block: nat) returns (r: Reservation)
      requires Valid() && owner < inner.ids && block > 0
      modifies this`inner, this`state, this`objects
      ensures Valid() && Did(old(state), Step.Reserve(Some(owner), r.amount), state) && fresh(r)
      ensures objects == old(objects) + [r]
      ensures r.amount % block == 0 && old(inner.UsedBytes() <= device)
      ensures r.amount <= Min(len, old(inner.Room(device, Some(owner)))) < r.amount + block
    {
      hide Inv, Inner.UsedBytes, Inner.Room;
      var room := Room(Some(owner));
      r := Take(Some(owner), RoundDown(Min(len, room), block));
    }

    // ---- Allocating ----

    /** The locked section at the end of `allocate`, without a transaction reservation. */
    method CountLoose(owner: nat, len: nat)
      requires Valid() && Enabled(state, Step.CountLoose(owner, len))
      modifies this`inner, this`state
      ensures Valid() && Did(old(state), Step.CountLoose(owner, len), state)
    {
      hide Inv, Inner.RemoveReservation, Inner.UsedBytes;
      StepOk(state, Step.CountLoose(owner, len));
      inner := Uncommit(inner, owner, len);
      assert inner.ReservedFor(Some(owner)) >= len;     // the assertion of `remove_reservation`
      inner := inner.RemoveReservation(Some(owner), len);
      state := Next(state, Step.CountLoose(owner, len));
    }

    /** The same, with a transaction reservation. */
    method CountCharged(r: Reservation, ghost i: nat, owner: nat, len: nat)
      requires Valid() && Has(r, i) && Enabled(state, Step.CountCharged(i, owner, len))
      modifies this`inner, this`state
      ensures Valid() && Did(old(state), Step.CountCharged(i, owner, len), state)
    {
      hide Inv, Inner.RemoveReservation, Inner.UsedBytes;
      StepOk(state, Step.CountCharged(i, owner, len));
      inner := Uncommit(inner, owner, len);
      assert r.owner.Some? ==> r.owner.value == owner;  // the assertion of the source
      assert inner.ReservedFor(r.owner) >= len;         // the assertion of `remove_reservation`
      inner := inner.RemoveReservation(r.owner, len);
      state := Next(state, Step.CountCharged(i, owner, len));
    }

    /** What `allocate` does with reservations when the transaction has one and the search finds a
        range of `found` bytes: a hold of what is wanted, `found` of it spent, the rest returned. */
    method AllocateCharged(r: Reservation, ghost i: nat, owner: nat, len: nat, found: nat)
      requires Valid() && Has(r, i) && IsTop(state, i) && owner < inner.ids
      requires (r.owner == None || r.owner == Some(owner))
      requires found <= len && r.reserved + found <= r.amount
      modifies this`inner, this`state, this`objects, r
      ensures Valid() && r.amount == old(r.amount) && r.reserved == old(r.reserved) + found
      ensures state.pending == old(state.pending) + [Pending(Some(Charge(i, r.owner)), owner, found)]
      ensures inner.UsedBytes() == old(inner.UsedBytes())
    {
      hide Inv, Unborrowed, Inner.RemoveReservation, Inner.UsedBytes, Next, Safe, Allocator.Valid;
      ghost var h := |objects|;
      Shown(r, i);
      SetAside(state, i);
      ChargedPath(state, i, Min(len, r.amount - r.reserved), found, owner);
      var hold := r.ReserveAtMost(len, this, i);
      hold.ForgetSome(found, this, h);
      CountCharged(r, i, owner, found);
      Shown(hold, h);
      hold.Drop(this, h);
      Shown(r, i);
    }

    /** The same without a transaction reservation: `taken` bytes are reserved first, as many whole
        blocks as fit (none: there is no space), and `found` is what the search finds. */
    method AllocateLoose(owner: nat, len: nat, block: nat, found: nat) returns (taken: nat)
      requires Valid() && owner < inner.ids && block > 0
      modifies this`inner, this`state, this`objects
      ensures Valid() && old(inner.UsedBytes() <= device)
      ensures taken % block == 0 && taken <= Min(len, old(inner.Room(device, Some(owner)))) < taken + block
      ensures taken > 0 ==> state.pending == old(state.pending) + [Pending(None, owner, Min(found, taken))]
      ensures taken == 0 ==> state.pending == old(state.pending)
      ensures inner.UsedBytes() == old(inner.UsedBytes()) + Min(found, taken)
    {
      hide Inv, Unborrowed, Inner.RemoveReservation, Inner.UsedBytes, Inner.Room, Next, Safe, Allocator.Valid;
      ghost var h, before := |objects|, state;
      Sound();
      var r := ReserveBlocks(owner, len, block);
      Shown(r, h);
      taken := r.amount;
      if taken == 0 {
        EmptyPath(before, owner);
      } else {
        LoosePath(before, taken, Min(found, taken), owner);
        r.ForgetSome(Min(found, taken), this, h);
        CountLoose(owner, Min(found, taken));
        Shown(r, h);
      }
      r.Drop(this, h);
      Sound();
    }

    /** `mark_allocated`; false if there is no room for it or, with a transaction reservation, not
        enough available in that. */
    method MarkAllocated(r: Option<Reservation>, ghost i: nat, owner: nat, len: nat) returns (ok: bool)
      requires Valid() && owner < inner.ids && (r.Some? ==> Has(r.value, i) && IsTop(state, i))
      modifies this`inner, this`state, if r.Some? then {r.value} else {}
      ensures Valid() && old(inner.UsedBytes() <= device)
      ensures ok <==>
                old(inner.Room(device, Some(owner))) >= len &&
                    (r.Some? ==> old(r.value.reserved) + len <= old(r.value.amount))
      ensures !ok ==> state == old(state)
      ensures ok && r.None? ==> Did(old(state), Step.MarkAllocated(owner, len), state)
      ensures ok && r.Some? ==> Did(old(state), Step.MarkCharged(i, owner, len), state)
    {
      hide Inv, Inner.UsedBytes;
      if r.Some? { Shown(r.value, i); SetAside(state, i); }
      var room := Room(Some(owner));
      if room < len {
        return false;
      }
      if r.Some? {
        if r.value.amount - r.value.reserved < len {
          return false;
        }
        StepOk(state, Step.MarkCharged(i, owner, len));
        r.value.reserved := r.value.reserved + len;
        state := Next(state, Step.MarkCharged(i, owner, len));
      } else {
        StepOk(state, Step.MarkAllocated(owner, len));
        state := Next(state, Step.MarkAllocated(owner, len));
      }
      inner := Uncommit(inner, owner, len);
      return true;
    }

    // ---- Committing and dropping transactions ----

    /** `apply_mutation` of an allocation; `r` is the transaction's reservation. */
    method CommitAllocation(p: Pending, ghost k: nat, r: Option<Reservation>)
      requires Valid() && k < |state.pending| && state.pending[k] == p && p.len > 0
      requires r.Some? <==> p.charge.Some?
      requires r.Some? ==> Has(r.value, p.charge.value.index)
      modifies this`inner, this`state, if r.Some? then {r.value} else {}
      ensures Valid() && Did(old(state), Step.CommitAllocation(k), state)
      ensures inner.UsedBytes() == old(inner.UsedBytes())
      ensures inner.entry(p.owner).allocatedBytes == old(inner.entry(p.owner).allocatedBytes) + p.len
    {
      hide Inv, Inner.UsedBytes;
      AllocatorCounters.UsedMoves(state, Step.CommitAllocation(k));
      StepOk(state, Step.CommitAllocation(k));
      var e := inner.entry(p.owner);
      assert e.uncommitted >= p.len;
      inner := inner.Set(p.owner, e.(allocatedBytes := e.allocatedBytes + p.len, uncommitted := e.uncommitted - p.len));
      if r.Some? {
        r.value.reserved := r.value.reserved - p.len;
        r.value.amount := r.value.amount - p.len;
      }
      state := Next(state, Step.CommitAllocation(k));
    }

    /** `drop_mutation` of an allocation. */
    method DropAllocation(p: Pending, ghost k: nat, r: Option<Reservation>)
      requires Valid() && k < |state.pending| && state.pending[k] == p && p.len > 0
      requires r.Some? <==> p.charge.Some?
      requires r.Some? ==> Has(r.value, p.charge.value.index)
      modifies this`inner, this`state, if r.Some? then {r.value} else {}
      ensures Valid() && Did(old(state), Step.DropAllocation(k), state)
    {
      hide Inv, Inner.UsedBytes, Inner.AddReservation;
      PendingShape(state, k);
      StepOk(state, Step.DropAllocation(k));
      var e := inner.entry(p.owner);
      inner := inner.Set(p.owner, e.(uncommitted := e.uncommitted - p.len));
      if r.Some? {
        inner := inner.AddReservation(r.value.owner, p.len);
        assert r.value.reserved >= p.len;               // the assertion of `release_reservation`
        r.value.reserved := r.value.reserved - p.len;
      }
      state := Next(state, Step.DropAllocation(k));
    }

    /** `apply_mutation` of a deallocation. */
    method CommitDeallocation(owner: nat, len: nat, r: Option<Reservation>, ghost i: Option<nat>)
      requires Valid() && Enabled(state, Step.CommitDeallocation(owner, len, i))
      requires (r.Some? <==> i.Some?) && (r.Some? ==> Has(r.value, i.value))
      modifies this`inner, this`state, if r.Some? then {r.value} else {}
      ensures Valid() && Did(old(state), Step.CommitDeallocation(owner, len, i), state)
      ensures inner.UsedBytes() == old(inner.UsedBytes()) - if r.Some? then 0 else len
      ensures inner.entry(owner).allocatedBytes == old(inner.entry(owner).allocatedBytes) - len
      ensures inner.entry(owner).deallocated == old(inner.entry(owner).deallocated) + len
    {
      hide Inv, Inner.UsedBytes, Inner.AddReservation, UsedBelow;
      StepOk(state, Step.CommitDeallocation(owner, len, i));
      Freeing(state, owner, len, i);
      var e := inner.entry(owner);
      inner := inner.Set(owner, e.(allocatedBytes := e.allocatedBytes - len, deallocated := e.deallocated + len));
      if r.Some? {
        inner := inner.AddReservation(r.value.owner, len);
        r.value.amount := r.value.amount + len;
      }
      state := Next(state, Step.CommitDeallocation(owner, len, i));
    }

    method DisownReservation(owner: nat, amount: nat)
      requires Valid() && Enabled(state, Step.Disown(owner, amount))
      modifies this`inner, this`state
      ensures Valid() && Did(old(state), Step.Disown(owner, amount), state)
    {
      hide Inv, Inner.UsedBytes, Inner.AddReservation, Inner.RemoveReservation;
      StepOk(state, Step.Disown(owner, amount));
      if amount > 0 {
        assert inner.ReservedFor(Some(owner)) >= amount; // the assertion of `remove_reservation`
        inner := inner.RemoveReservation(Some(owner), amount);
        inner := inner.AddReservation(None, amount);
      }
      state := Next(state, Step.Disown(owner, amount));
    }

    /** The sums the allocator's `Drop` asserts to be zero, once all reservations and transactions are
        gone: they are zero exactly if nothing was marked as allocated against a reservation. */
    method DropSums() returns (uncommitted: nat, reserved: nat)
      requires Valid() && AllGone(state)
      ensures uncommitted == 0
      ensures reserved == 0 <==> forall o :: inner.Knows(o) ==> state.marked(o) == 0
    {
      Sound();
      hide Inv, Allocator.Valid;
      GoneReserved(state);
      uncommitted, reserved := 0, inner.unattributed;
      assert inner.unattributed == state.marked(None) by { assert inner.ReservedFor(None) == state.marked(None); }
      var n: nat := 0;
      while n < inner.ids
        invariant n <= inner.ids && uncommitted == 0
        invariant reserved == 0 <==> state.marked(None) == 0 && forall id: nat :: id < n ==> state.marked(Some(id)) == 0
      {
        assert inner.entry(n).reserved == state.marked(Some(n)) by {
          assert inner.ReservedFor(Some(n)) == state.marked(Some(n));
        }
        uncommitted := uncommitted + inner.entry(n).uncommitted;
        reserved := reserved + inner.entry(n).reserved;
        n := n + 1;
      }
    }

    lemma Sound()
      requires Valid()
      ensures Inv(state) && inner == state.inner && device == state.device && |objects| == |state.nodes|
    {
      hide Inv;
    }
  }
}
