/** Space reservations (src/object_store/allocator.rs): the counters of the allocator, reservations
    and holds as objects, and the conservation law between them over every run. */
module Reservations {
  import opened LsmTypes
  import opened Arith

  /** `ByteTracking`.  `deallocated` (`committed_deallocated_bytes`) takes no part in `UsedBytes`. */
  datatype ByteTracking = ByteTracking(allocatedBytes: nat, uncommitted: nat, reserved: nat, deallocated: nat)
  {
    function UsedBytes(): nat { allocatedBytes + uncommitted + reserved }
  }

  ghost function UsedBelow(entry: nat -> ByteTracking, n: nat): nat
  {
    if n == 0 then 0 else UsedBelow(entry, n - 1) + entry(n - 1).UsedBytes()
  }

  /** The counters of `Inner`.  A missing entry of `owner_bytes` is one of zeros and a missing limit
      is `u64::MAX`, so both maps are total here; `ids` is a bound on object ids. */
  datatype Inner = Inner(ids: nat, entry: nat -> ByteTracking, unattributed: nat, limit: nat -> nat)
  {
    function Set(owner: nat, e: ByteTracking): Inner
    {
      this.(entry := (id: nat) => if id == owner then e else entry(id))
    }

    function WithLimit(owner: nat, bytes: nat): Inner
    {
      var f := limit;
      this.(limit := (id: nat) => if id == owner then bytes else f(id))
    }

    function ReservedFor(owner: Option<nat>): nat
    {
      match owner case None => unattributed case Some(id) => entry(id).reserved
    }

    function AddReservation(owner: Option<nat>, amount: nat): Inner
    {
      match owner
      case None => this.(unattributed := unattributed + amount)
      case Some(id) => Set(id, entry(id).(reserved := entry(id).reserved + amount))
    }

    /** The assertion of `remove_reservation` is its precondition. */
    function RemoveReservation(owner: Option<nat>, amount: nat): Inner
      requires ReservedFor(owner) >= amount
    {
      match owner
      case None => this.(unattributed := unattributed - amount)
      case Some(id) => Set(id, entry(id).(reserved := entry(id).reserved - amount))
    }

    ghost predicate Knows(owner: Option<nat>) { owner.Some? ==> owner.value < ids }

    ghost function UsedBytes(): nat { UsedBelow(entry, ids) + unattributed }

    /** `owner_id_bytes_left` */
    function BytesLeft(owner: nat): nat
    {
      var used := entry(owner).UsedBytes();
      if limit(owner) > used then limit(owner) - used else 0
    }

    /** What may still be reserved for the owner; `device_size - used_bytes` must not underflow. */
    ghost function Room(device: nat, owner: Option<nat>): nat
      requires UsedBytes() <= device
    {
      var free: nat := device - UsedBytes();
      if owner.Some? && BytesLeft(owner.value) < free then BytesLeft(owner.value) else free
    }
  }

  /** Changing one owner's entry changes the total by the difference. */
  lemma {:induction false} UsedBelowSet(m: nat -> ByteTracking, m': nat -> ByteTracking, owner: nat, n: nat)
    requires forall o: nat :: o != owner ==> m'(o) == m(o)
    ensures UsedBelow(m', n) == UsedBelow(m, n) + if owner < n then m'(owner).UsedBytes() - m(owner).UsedBytes() else 0
    decreases n
  {
    if n > 0 { UsedBelowSet(m, m', owner, n - 1); }
  }

  lemma UsedSet(inner: Inner, owner: nat, e: ByteTracking)
    requires owner < inner.ids
    ensures inner.Set(owner, e).UsedBytes() == inner.UsedBytes() + e.UsedBytes() - inner.entry(owner).UsedBytes()
  {
    hide UsedBelow;
    UsedBelowSet(inner.entry, inner.Set(owner, e).entry, owner, inner.ids);
  }

  lemma UsedAdd(inner: Inner, owner: Option<nat>, amount: nat)
    requires inner.Knows(owner)
    ensures inner.AddReservation(owner, amount).UsedBytes() == inner.UsedBytes() + amount
    ensures inner.ReservedFor(owner) >= amount ==>
              inner.RemoveReservation(owner, amount).UsedBytes() == inner.UsedBytes() - amount
  {
    hide UsedBelow;
    if owner.Some? {
      var e := inner.entry(owner.value);
      UsedSet(inner, owner.value, e.(reserved := e.reserved + amount));
      if e.reserved >= amount { UsedSet(inner, owner.value, e.(reserved := e.reserved - amount)); }
    }
  }

  // ---- The steps ----

  /** What a reservation is taken from. */
  datatype Account = FromAllocator(owner: Option<nat>) | FromReservation(index: nat)

  /** A reservation or a hold. */
  datatype Node = Node(owner: Option<nat>, parent: Account, amount: nat, reserved: nat, live: bool)
  {
    predicate TopLevel() { parent.FromAllocator? }
    function Avail(): nat requires reserved <= amount { amount - reserved }
  }

  /** An uncommitted allocation; `index` is the transaction's reservation it was charged to and
      `account` the owner of that.  A finished one has length zero. */
  datatype Charge = Charge(index: nat, account: Option<nat>)
  datatype Pending = Pending(charge: Option<Charge>, owner: nat, len: nat)

  /** `marked` adds up, per account, what `mark_allocated` charged to reservations.
      `loose` are the amounts that callers took out of reservations with `forget`, `forget_some`,
      `commit` or `move_to` and now answer for themselves: still counted where they came from. */
  datatype State = State(device: nat, inner: Inner, nodes: seq<Node>, pending: seq<Pending>, loose: Account -> nat,
                         marked: Option<nat> -> nat)

  datatype Step =
    | Reserve(account: Option<nat>, amount: nat)         // from the allocator
    | Hold(index: nat, amount: nat)                    // from another reservation
    | Forget(index: nat, amount: nat)
    | Add(index: nat, amount: nat)
    | Commit(index: nat, amount: nat)
    | Disown(owner: nat, amount: nat)
    | GiveBack(index: nat, amount: nat)
    | DropReservation(index: nat)
    | CountLoose(owner: nat, len: nat)                 // allocate without a transaction reservation
    | CountCharged(index: nat, owner: nat, len: nat)   // allocate with one
    | MarkAllocated(owner: nat, len: nat)              // without a transaction reservation
    | MarkCharged(index: nat, owner: nat, len: nat)    // with one
    | CommitAllocation(i: nat)
    | DropAllocation(i: nat)
    | CommitDeallocation(owner: nat, len: nat, charge: Option<nat>)
    | SetLimit(owner: nat, bytes: nat)

  function Init(device: nat, ids: nat): State
  {
    var inner := Inner(ids, (id: nat) => ByteTracking(0, 0, 0, 0), 0, (id: nat) => 0xffff_ffff_ffff_ffff);
    State(device, inner, [], [], (a: Account) => 0, (o: Option<nat>) => 0)
  }

  ghost predicate IsLive(s: State, index: nat) { index < |s.nodes| && s.nodes[index].live }

  ghost predicate IsTop(s: State, index: nat) { IsLive(s, index) && s.nodes[index].TopLevel() }

  /** Nothing borrows the reservation any more: no hold, no transaction. */
  ghost predicate Unborrowed(s: State, index: nat)
  {
    && (forall i :: 0 <= i < |s.nodes| && s.nodes[i].live ==> s.nodes[i].parent != FromReservation(index))
    && (forall i :: 0 <= i < |s.pending| && s.pending[i].charge.Some? && s.pending[i].charge.value.index == index ==>
          s.pending[i].len == 0)
    && s.loose(FromReservation(index)) == 0
  }

  /** The guards are the tests the code makes and what it asks of its callers; none of them says
      that an assertion or a subtraction of the code is safe, except for the two cases where the
      caller is told to ensure it: `forget_some`, `give_back` and `move_to` leave what is held. */
  ghost predicate Enabled(s: State, step: Step)
  {
    match step
    case Reserve(owner, amount) => s.inner.Knows(owner) && s.inner.UsedBytes() <= s.device &&
        amount <= s.inner.Room(s.device, owner)
    case Hold(i, amount) => IsLive(s, i) && s.nodes[i].reserved + amount <= s.nodes[i].amount
    case Forget(i, amount) => IsLive(s, i) && s.nodes[i].reserved + amount <= s.nodes[i].amount
    case Add(i, amount) => IsLive(s, i) && amount <= s.loose(s.nodes[i].parent)
    case Commit(i, amount) => IsLive(s, i) && amount <= s.loose(FromReservation(i))
    case Disown(owner, amount) => owner < s.inner.ids && amount <= s.loose(FromAllocator(Some(owner)))
    case GiveBack(i, amount) => IsTop(s, i) && s.nodes[i].reserved + amount <= s.nodes[i].amount
    case DropReservation(i) => IsLive(s, i) && Unborrowed(s, i)
    case CountLoose(owner, len) => owner < s.inner.ids && len <= s.loose(FromAllocator(Some(owner)))
    case CountCharged(i, owner, len) =>
      && owner < s.inner.ids && IsTop(s, i) && len <= s.loose(FromReservation(i))
      && (s.nodes[i].owner == None || s.nodes[i].owner == Some(owner))
    case MarkAllocated(owner, len) =>
      owner < s.inner.ids && s.inner.UsedBytes() <= s.device && s.device - s.inner.UsedBytes() >= len &&
          s.inner.BytesLeft(owner) >= len
    case MarkCharged(i, owner, len) =>
      && owner < s.inner.ids && s.inner.UsedBytes() <= s.device && s.device - s.inner.UsedBytes() >= len &&
          s.inner.BytesLeft(owner) >= len
      && IsTop(s, i) && s.nodes[i].reserved + len <= s.nodes[i].amount
    case CommitAllocation(i) => i < |s.pending|
    case DropAllocation(i) => i < |s.pending|
    case CommitDeallocation(owner, len, index) =>
      // only what is allocated is deallocated
      owner < s.inner.ids && len <= s.inner.entry(owner).allocatedBytes && (index.Some? ==> IsTop(s, index.value))
    case SetLimit(owner, bytes) => true
  }

  function PutNode(s: State, i: nat, n: Node): State
    requires i < |s.nodes|
  {
    s.(nodes := s.nodes[i := n])
  }

  function PutLoose(s: State, a: Account, amount: nat): State { s.(loose := LooseWith(s.loose, a, amount)) }

  function LooseWith(f: Account -> nat, a: Account, amount: nat): Account -> nat
  {
    (a': Account) => if a' == a then amount else f(a')
  }

  function Finish(s: State, i: nat): State
    requires i < |s.pending|
  {
    s.(pending := s.pending[i := s.pending[i].(len := 0)])
  }

  /** Every assertion the code makes and every subtraction of unsigned numbers in a step. */
  ghost predicate Safe(s: State, step: Step)
  {
    match step
    case Reserve(_, _) => s.inner.UsedBytes() <= s.device
    case MarkAllocated(_, _) => s.inner.UsedBytes() <= s.device
    case MarkCharged(i, _, _) => s.inner.UsedBytes() <= s.device && i < |s.nodes| &&
        s.nodes[i].reserved <= s.nodes[i].amount
    case Hold(i, _) => i < |s.nodes| && s.nodes[i].reserved <= s.nodes[i].amount
    case Forget(i, amount) => i < |s.nodes| && amount <= s.nodes[i].amount &&
        s.nodes[i].reserved <= s.nodes[i].amount - amount
    case Add(i, _) => i < |s.nodes|
    case Commit(i, amount) => i < |s.nodes| && amount <= s.nodes[i].reserved && amount <= s.nodes[i].amount
    case Disown(owner, amount) => s.inner.ReservedFor(Some(owner)) >= amount
    case GiveBack(i, amount) =>
      && i < |s.nodes| && s.inner.ReservedFor(s.nodes[i].owner) >= amount
      && amount <= s.nodes[i].amount && s.nodes[i].reserved <= s.nodes[i].amount - amount
    case DropReservation(i) =>
      && i < |s.nodes| && s.nodes[i].reserved == 0
      && (match s.nodes[i].parent
          case FromAllocator(owner) => owner == s.nodes[i].owner && s.inner.ReservedFor(owner) >= s.nodes[i].amount
          case FromReservation(p) =>
            && p < |s.nodes| && p != i
            && s.nodes[p].owner == s.nodes[i].owner && s.nodes[p].reserved >= s.nodes[i].amount)
    case CountLoose(owner, len) => s.inner.ReservedFor(Some(owner)) >= len
    case CountCharged(i, owner, len) => i < |s.nodes| && s.inner.ReservedFor(s.nodes[i].owner) >= len
    case CommitAllocation(i) =>
      && i < |s.pending| && s.inner.entry(s.pending[i].owner).uncommitted >= s.pending[i].len
      && (s.pending[i].charge.Some? && s.pending[i].len > 0 ==>
            var n := s.pending[i].charge.value.index;
            n < |s.nodes| && s.nodes[n].reserved >= s.pending[i].len && s.nodes[n].amount >= s.pending[i].len)
    case DropAllocation(i) =>
      && i < |s.pending| && s.inner.entry(s.pending[i].owner).uncommitted >= s.pending[i].len
      && (s.pending[i].charge.Some? && s.pending[i].len > 0 ==>
            var n := s.pending[i].charge.value.index;
            n < |s.nodes| && s.nodes[n].reserved >= s.pending[i].len)
    case CommitDeallocation(owner, len, index) =>
      s.inner.entry(owner).allocatedBytes >= len && (index.Some? ==> index.value < |s.nodes|)
    case SetLimit(_, _) => true
  }

  ghost function Next(s: State, step: Step): State
    requires Safe(s, step)
  {
    match step
    case Reserve(owner, amount) =>
      s.(inner := s.inner.AddReservation(owner, amount),
         nodes := s.nodes + [Node(owner, FromAllocator(owner), amount, 0, true)])
    case Hold(i, amount) =>
      var n := s.nodes[i];
      var s' := PutNode(s, i, n.(reserved := n.reserved + amount));
      s'.(nodes := s'.nodes + [Node(n.owner, FromReservation(i), amount, 0, true)])
    case Forget(i, amount) =>
      var n := s.nodes[i];
      PutLoose(PutNode(s, i, n.(amount := n.amount - amount)), n.parent, s.loose(n.parent) + amount)
    case Add(i, amount) =>
      var n := s.nodes[i];
      PutLoose(PutNode(s, i, n.(amount := n.amount + amount)), n.parent, Minus(s.loose(n.parent), amount))
    case Commit(i, amount) =>
      var n := s.nodes[i];
      var s' := PutNode(s, i, n.(amount := n.amount - amount, reserved := n.reserved - amount));
      var s'' := PutLoose(s', FromReservation(i), Minus(s.loose(FromReservation(i)), amount));
      PutLoose(s'', n.parent, s''.loose(n.parent) + amount)
    case Disown(owner, amount) =>
      if amount == 0 then s else
      var s' := s.(inner := s.inner.RemoveReservation(Some(owner), amount).AddReservation(None, amount));
      var s'' := PutLoose(s', FromAllocator(Some(owner)), Minus(s.loose(FromAllocator(Some(owner))), amount));
      PutLoose(s'', FromAllocator(None), s''.loose(FromAllocator(None)) + amount)
    case GiveBack(i, amount) =>
      var n := s.nodes[i];
      PutNode(s.(inner := s.inner.RemoveReservation(n.owner, amount)), i, n.(amount := n.amount - amount))
    case DropReservation(i) =>
      var n := s.nodes[i];
      var s' := PutNode(s, i, n.(amount := 0, live := false));
      (match n.parent
       case FromAllocator(owner) => if n.amount > 0 then s'.(inner := s.inner.RemoveReservation(owner, n.amount))
           else s'
       case FromReservation(p) => PutNode(s', p, s.nodes[p].(reserved := s.nodes[p].reserved - n.amount)))
    case CountLoose(owner, len) =>
      var a := FromAllocator(Some(owner));
      var s' := PutLoose(s.(inner := Uncommit(s.inner, owner, len).RemoveReservation(Some(owner), len)), a,
                         Minus(s.loose(a), len));
      s'.(pending := s.pending + [Pending(None, owner, len)])
    case CountCharged(i, owner, len) =>
      var a, res := FromReservation(i), s.nodes[i].owner;
      var s' := PutLoose(s.(inner := Uncommit(s.inner, owner, len).RemoveReservation(res, len)), a,
                         Minus(s.loose(a), len));
      s'.(pending := s.pending + [Pending(Some(Charge(i, res)), owner, len)])
    case MarkAllocated(owner, len) =>
      s.(inner := Uncommit(s.inner, owner, len), pending := s.pending + [Pending(None, owner, len)])
    case MarkCharged(i, owner, len) =>
      // the hold is taken and forgotten; nothing is removed from the allocator's reserved bytes
      var n := s.nodes[i];
      var s' := PutNode(s.(inner := Uncommit(s.inner, owner, len)), i, n.(reserved := n.reserved + len));
      s'.(pending := s.pending + [Pending(Some(Charge(i, n.owner)), owner, len)],
          marked := AddMark(s.marked, n.owner, len))
    case CommitAllocation(i) =>
      var p := s.pending[i];
      var e := s.inner.entry(p.owner);
      var e' := e.(allocatedBytes := e.allocatedBytes + p.len, uncommitted := e.uncommitted - p.len);
      var s' := Finish(s.(inner := s.inner.Set(p.owner, e')), i);
      if p.charge.Some? && p.len > 0 then
        var n := s.nodes[p.charge.value.index];
        PutNode(s', p.charge.value.index, n.(amount := n.amount - p.len, reserved := n.reserved - p.len))
      else s'
    case DropAllocation(i) =>
      var p := s.pending[i];
      var e := s.inner.entry(p.owner);
      var inner := s.inner.Set(p.owner, e.(uncommitted := e.uncommitted - p.len));
      if p.charge.Some? && p.len > 0 then
        var n := s.nodes[p.charge.value.index];
        PutNode(Finish(s.(inner := inner.AddReservation(p.charge.value.account, p.len)), i), p.charge.value.index,
                n.(reserved := n.reserved - p.len))
      else Finish(s.(inner := inner), i)
    case CommitDeallocation(owner, len, index) =>
      var e := s.inner.entry(owner);
      var inner := s.inner.Set(owner, e.(allocatedBytes := e.allocatedBytes - len, deallocated := e.deallocated + len));
      if index.Some? then
        var n := s.nodes[index.value];
        PutNode(s.(inner := inner.AddReservation(n.owner, len)), index.value, n.(amount := n.amount + len))
      else s.(inner := inner)
    case SetLimit(owner, bytes) => s.(inner := s.inner.WithLimit(owner, bytes))
  }

  function AddMark(f: Option<nat> -> nat, account: Option<nat>, len: nat): Option<nat> -> nat
  {
    (o: Option<nat>) => if o == account then f(o) + len else f(o)
  }

  function Minus(a: nat, b: nat): nat { if a >= b then a - b else 0 }

  function Uncommit(inner: Inner, owner: nat, len: nat): Inner
  {
    inner.Set(owner, inner.entry(owner).(uncommitted := inner.entry(owner).uncommitted + len))
  }

  // ---- Sums ----

  ghost function Sum<T(!new)>(s: seq<T>, f: T -> nat): nat
  {
    if s == [] then 0 else Sum(s[..|s| - 1], f) + f(s[|s| - 1])
  }

  lemma {:induction false} SumPut<T(!new)>(s: seq<T>, i: nat, x: T, f: T -> nat)
    requires i < |s|
    ensures Sum(s[i := x], f) == Sum(s, f) - f(s[i]) + f(x) && Sum(s, f) >= f(s[i])
    decreases |s|
  {
    var n := |s| - 1;
    if i < n {
      SumPut(s[..n], i, x, f);
      assert s[i := x][..n] == s[..n][i := x];
    } else {
      assert s[i := x][..n] == s[..n];
    }
  }

  lemma SumPush<T(!new)>(s: seq<T>, x: T, f: T -> nat)
    ensures Sum(s + [x], f) == Sum(s, f) + f(x)
  {
    assert (s + [x])[..|s|] == s;
  }

  lemma {:induction false} SumZero<T(!new)>(s: seq<T>, f: T -> nat)
    requires forall i :: 0 <= i < |s| ==> f(s[i]) == 0
    ensures Sum(s, f) == 0
    decreases |s|
  {
    if s != [] { SumZero(s[..|s| - 1], f); }
  }

  ghost function Held(nodes: seq<Node>, a: Account): nat
  {
    Sum(nodes, (n: Node) => if n.live && n.parent == a then n.amount else 0)
  }

  ghost function ChargedTo(pending: seq<Pending>, index: nat): nat
  {
    Sum(pending, (p: Pending) => if p.charge.Some? && p.charge.value.index == index then p.len else 0)
  }

  ghost function ChargedFor(pending: seq<Pending>, account: Option<nat>): nat
  {
    Sum(pending, (p: Pending) => if p.charge.Some? && p.charge.value.account == account then p.len else 0)
  }

  ghost function UncommittedOf(pending: seq<Pending>, owner: nat): nat
  {
    Sum(pending, (p: Pending) => if p.owner == owner then p.len else 0)
  }

  function Weight(n: Node, a: Account): nat { if n.live && n.parent == a then n.amount else 0 }

  lemma HeldPut(nodes: seq<Node>, i: nat, n: Node)
    requires i < |nodes|
    ensures forall a :: Held(nodes[i := n], a) == Held(nodes, a) - Weight(nodes[i], a) + Weight(n, a)
    ensures forall a :: Held(nodes, a) >= Weight(nodes[i], a)
  {
    forall a
      ensures Held(nodes[i := n], a) == Held(nodes, a) - Weight(nodes[i], a) + Weight(n, a)
      ensures Held(nodes, a) >= Weight(nodes[i], a)
    {
      SumPut(nodes, i, n, (n: Node) => if n.live && n.parent == a then n.amount else 0);
    }
  }

  lemma HeldPush(nodes: seq<Node>, n: Node)
    ensures forall a :: Held(nodes + [n], a) == Held(nodes, a) + Weight(n, a)
  {
    forall a ensures Held(nodes + [n], a) == Held(nodes, a) + Weight(n, a) {
      SumPush(nodes, n, (n: Node) => if n.live && n.parent == a then n.amount else 0);
    }
  }

  lemma HeldZero(nodes: seq<Node>, a: Account)
    requires forall i :: 0 <= i < |nodes| && nodes[i].live ==> nodes[i].parent != a
    ensures Held(nodes, a) == 0
  {
    SumZero(nodes, (n: Node) => if n.live && n.parent == a then n.amount else 0);
  }

  function LenTo(p: Pending, index: nat): nat { if p.charge.Some? && p.charge.value.index == index then p.len else 0 }
  function LenFor(p: Pending, account: Option<nat>): nat
  {
    if p.charge.Some? && p.charge.value.account == account then p.len else 0
  }
  function LenOf(p: Pending, owner: nat): nat { if p.owner == owner then p.len else 0 }

  lemma PendingPush(pending: seq<Pending>, p: Pending)
    ensures forall i :: ChargedTo(pending + [p], i) == ChargedTo(pending, i) + LenTo(p, i)
    ensures forall o :: ChargedFor(pending + [p], o) == ChargedFor(pending, o) + LenFor(p, o)
    ensures forall o :: UncommittedOf(pending + [p], o) == UncommittedOf(pending, o) + LenOf(p, o)
  {
    forall i ensures ChargedTo(pending + [p], i) == ChargedTo(pending, i) + LenTo(p, i) {
      SumPush(pending, p, (p: Pending) => if p.charge.Some? && p.charge.value.index == i then p.len else 0);
    }
    forall o ensures ChargedFor(pending + [p], o) == ChargedFor(pending, o) + LenFor(p, o) {
      SumPush(pending, p, (p: Pending) => if p.charge.Some? && p.charge.value.account == o then p.len else 0);
    }
    forall o ensures UncommittedOf(pending + [p], o) == UncommittedOf(pending, o) + LenOf(p, o) {
      SumPush(pending, p, (p: Pending) => if p.owner == o then p.len else 0);
    }
  }

  lemma PendingFinish(pending: seq<Pending>, k: nat)
    requires k < |pending|
    ensures var rest := pending[k := pending[k].(len := 0)];
            && (forall i :: ChargedTo(pending, i) == ChargedTo(rest, i) + LenTo(pending[k], i))
            && (forall o :: ChargedFor(pending, o) == ChargedFor(rest, o) + LenFor(pending[k], o))
            && (forall o :: UncommittedOf(pending, o) == UncommittedOf(rest, o) + LenOf(pending[k], o))
  {
    var z := pending[k].(len := 0);
    var rest := pending[k := z];
    forall i ensures ChargedTo(pending, i) == ChargedTo(rest, i) + LenTo(pending[k], i) {
      SumPut(pending, k, z, (p: Pending) => if p.charge.Some? && p.charge.value.index == i then p.len else 0);
    }
    forall o ensures ChargedFor(pending, o) == ChargedFor(rest, o) + LenFor(pending[k], o) {
      SumPut(pending, k, z, (p: Pending) => if p.charge.Some? && p.charge.value.account == o then p.len else 0);
    }
    forall o ensures UncommittedOf(pending, o) == UncommittedOf(rest, o) + LenOf(pending[k], o) {
      SumPut(pending, k, z, (p: Pending) => if p.owner == o then p.len else 0);
    }
  }

  lemma ChargedZero(pending: seq<Pending>, index: nat)
    requires forall i :: 0 <= i < |pending| && pending[i].charge.Some? && pending[i].charge.value.index == index ==>
             pending[i].len == 0
    ensures ChargedTo(pending, index) == 0
  {
    SumZero(pending, (p: Pending) => if p.charge.Some? && p.charge.value.index == index then p.len else 0);
  }

  // ---- The conservation law ----

  ghost predicate ShapeOk(nodes: seq<Node>, pending: seq<Pending>, ids: nat)
  {
    && (forall i :: 0 <= i < |nodes| ==>
          match nodes[i].parent case FromAllocator(owner) => owner == nodes[i].owner case FromReservation(p) => p < i)
    && (forall i, p :: 0 <= p < i < |nodes| && nodes[i].parent == FromReservation(p) ==>
          nodes[p].owner == nodes[i].owner && (nodes[i].live ==> nodes[p].live))
    && (forall i :: 0 <= i < |nodes| && nodes[i].owner.Some? ==> nodes[i].owner.value < ids)
    && (forall i :: 0 <= i < |pending| ==> pending[i].owner < ids)
    && (forall i :: 0 <= i < |pending| && pending[i].charge.Some? && pending[i].len > 0 ==>
          var c := pending[i].charge.value;
          c.index < |nodes| && nodes[c.index].live && nodes[c.index].parent == FromAllocator(c.account))
  }

  function ReservedIn(nodes: seq<Node>, i: nat): nat { if i < |nodes| && nodes[i].live then nodes[i].reserved else 0 }

  /** A reservation has set aside exactly what its holds have, what callers took out of them and
      the pending allocations charged to it, and never more than it has. */
  ghost predicate HoldsOk(nodes: seq<Node>, pending: seq<Pending>, loose: Account -> nat)
  {
    && (forall i: nat :: ReservedIn(nodes, i) ==
          Held(nodes, FromReservation(i)) + loose(FromReservation(i)) + ChargedTo(pending, i))
    && (forall i :: 0 <= i < |nodes| && nodes[i].live ==> nodes[i].reserved <= nodes[i].amount)
  }

  /** Per owner, the allocator's reserved bytes are the amounts of the top-level reservations (and
      what callers took out of them) less the pending allocations charged to them, plus all that
      was ever marked as allocated against a reservation. */
  ghost predicate ReservedOk(inner: Inner, nodes: seq<Node>, pending: seq<Pending>, loose: Account -> nat,
                             marked: Option<nat> -> nat)
  {
    forall o: Option<nat> ::
      inner.ReservedFor(o) + ChargedFor(pending, o) == Held(nodes, FromAllocator(o)) + loose(FromAllocator(o)) +
          marked(o)
  }

  ghost predicate UncommittedOk(inner: Inner, pending: seq<Pending>)
  {
    forall o: nat :: inner.entry(o).uncommitted == UncommittedOf(pending, o)
  }

  ghost predicate Inv(s: State)
  {
    && ShapeOk(s.nodes, s.pending, s.inner.ids)
    && HoldsOk(s.nodes, s.pending, s.loose)
    && ReservedOk(s.inner, s.nodes, s.pending, s.loose, s.marked)
    && UncommittedOk(s.inner, s.pending)
    && s.inner.UsedBytes() <= s.device
  }

  /** What is charged to the reservations of an account is covered by their amounts. */
  lemma {:induction false} Covered(nodes: seq<Node>, pending: seq<Pending>, account: Option<nat>)
    requires forall i :: 0 <= i < |nodes| && nodes[i].live && nodes[i].parent == FromAllocator(account) ==>
               nodes[i].amount >= ChargedTo(pending, i)
    requires forall i ::
               && 0 <= i < |pending| && pending[i].len > 0
               && pending[i].charge.Some? && pending[i].charge.value.account == account
               ==>
               var c := pending[i].charge.value;
               c.index < |nodes| && nodes[c.index].live && nodes[c.index].parent == FromAllocator(account)
    ensures Held(nodes, FromAllocator(account)) >= ChargedFor(pending, account)
    decreases |pending|
  {
    hide Held, ChargedTo;
    if pending != [] {
      var p, rest := pending[|pending| - 1], pending[..|pending| - 1];
      assert pending == rest + [p];
      PendingPush(rest, p);
      if p.charge.Some? && p.charge.value.account == account && p.len > 0 {
        var k := p.charge.value.index;
        var n := nodes[k].(amount := nodes[k].amount - p.len);
        HeldPut(nodes, k, n);
        Covered(nodes[k := n], rest, account);
      } else {
        Covered(nodes, rest, account);
      }
    }
  }

  /** Taking `amount` that is not set aside out of a top-level reservation keeps it covered, so
      the allocator has at least that much reserved. */
  lemma CanRelease(s: State, i: nat, amount: nat)
    requires Inv(s) && IsTop(s, i) && amount <= s.nodes[i].amount
    requires ChargedTo(s.pending, i) <= s.nodes[i].amount - amount
    ensures s.inner.ReservedFor(s.nodes[i].owner) >= amount
  {
    hide Held, ChargedTo, ChargedFor, UsedBelow;
    var n := s.nodes[i];
    var n' := n.(amount := n.amount - amount);
    HeldPut(s.nodes, i, n');
    Charges(s);
    Covered(s.nodes[i := n'], s.pending, n.owner);
  }

  lemma Charges(s: State)
    requires Inv(s)
    ensures forall i :: 0 <= i < |s.nodes| && s.nodes[i].live ==>
            ChargedTo(s.pending, i) <= s.nodes[i].reserved <= s.nodes[i].amount
  {
    hide Held, ChargedTo, ChargedFor, UsedBelow;
    forall i | 0 <= i < |s.nodes| && s.nodes[i].live ensures ChargedTo(s.pending, i) <= s.nodes[i].reserved {
      assert ReservedIn(s.nodes, i) == s.nodes[i].reserved;
    }
  }

  /** What callers took out of top-level reservations is still reserved. */
  lemma CanSpend(s: State, o: Option<nat>)
    requires Inv(s)
    ensures s.inner.ReservedFor(o) >= s.loose(FromAllocator(o))
  {
    hide Held, ChargedTo, ChargedFor, UsedBelow;
    Charges(s);
    Covered(s.nodes, s.pending, o);
  }

  // ---- Every step keeps it ----

  lemma AddEffect(inner: Inner, o: Option<nat>, x: nat)
    ensures var after := inner.AddReservation(o, x);
            && after.ids == inner.ids
            && (forall o' :: after.ReservedFor(o') == inner.ReservedFor(o') + if o' == o then x else 0)
            && (forall id :: after.entry(id).uncommitted == inner.entry(id).uncommitted)
  {
  }

  lemma RemoveEffect(inner: Inner, o: Option<nat>, x: nat)
    requires inner.ReservedFor(o) >= x
    ensures var after := inner.RemoveReservation(o, x);
            && after.ids == inner.ids
            && (forall o' :: after.ReservedFor(o') == inner.ReservedFor(o') - if o' == o then x else 0)
            && (forall id :: after.entry(id).uncommitted == inner.entry(id).uncommitted)
  {
  }

  /** Changing what is not reserved. */
  lemma SetEffect(inner: Inner, owner: nat, entry: ByteTracking)
    requires owner < inner.ids && entry.reserved == inner.entry(owner).reserved
    ensures var after := inner.Set(owner, entry);
            && after.ids == inner.ids
            && (forall o :: after.ReservedFor(o) == inner.ReservedFor(o))
            && (forall id :: after.entry(id).uncommitted == if id == owner then entry.uncommitted
                else inner.entry(id).uncommitted)
            && after.UsedBytes() == inner.UsedBytes() + entry.UsedBytes() - inner.entry(owner).UsedBytes()
  {
    hide UsedBelow;
    UsedSet(inner, owner, entry);
  }

  /** Amounts may change; whose a reservation is and where it came from do not. */
  lemma ShapePut(nodes: seq<Node>, pending: seq<Pending>, ids: nat, i: nat, n: Node)
    requires ShapeOk(nodes, pending, ids) && i < |nodes|
    requires n.owner == nodes[i].owner && n.parent == nodes[i].parent && n.live == nodes[i].live
    ensures ShapeOk(nodes[i := n], pending, ids)
  {
  }

  lemma ShapeFinish(nodes: seq<Node>, pending: seq<Pending>, ids: nat, k: nat)
    requires ShapeOk(nodes, pending, ids) && k < |pending|
    ensures ShapeOk(nodes, pending[k := pending[k].(len := 0)], ids)
  {
  }

  /** Replacing reservation `i` by `n` and moving loose and charged amounts accordingly. */
  lemma HoldsPut(nodes: seq<Node>, pending: seq<Pending>, loose: Account -> nat, i: nat, n: Node,
                 pending': seq<Pending>, loose': Account -> nat)
    requires HoldsOk(nodes, pending, loose) && i < |nodes| && nodes[i].live && n.live && n.reserved <= n.amount
    requires forall j: nat ::
               Weight(n, FromReservation(j)) + loose'(FromReservation(j)) +
                   ChargedTo(pending', j) - (if j == i then n.reserved else 0) ==
               Weight(nodes[i], FromReservation(j)) + loose(FromReservation(j)) +
                   ChargedTo(pending, j) - (if j == i then nodes[i].reserved else 0)
    ensures HoldsOk(nodes[i := n], pending', loose')
  {
    hide Held, ChargedTo;
    HeldPut(nodes, i, n);
    forall j: nat ensures ReservedIn(nodes[i := n], j) ==
      Held(nodes[i := n], FromReservation(j)) + loose'(FromReservation(j)) + ChargedTo(pending', j)
    {
      assert ReservedIn(nodes, j) == Held(nodes, FromReservation(j)) + loose(FromReservation(j)) +
             ChargedTo(pending, j);
    }
  }

  lemma HoldsSame(nodes: seq<Node>, pending: seq<Pending>, loose: Account -> nat, pending': seq<Pending>)
    requires HoldsOk(nodes, pending, loose) && forall j: nat :: ChargedTo(pending', j) == ChargedTo(pending, j)
    ensures HoldsOk(nodes, pending', loose)
  {
    hide Held, ChargedTo;
  }

  lemma PendingShape(s: State, i: nat)
    requires Inv(s) && i < |s.pending|
    ensures s.pending[i].owner < s.inner.ids
    ensures s.pending[i].charge.Some? && s.pending[i].len > 0 ==>
              var c := s.pending[i].charge.value;
              IsLive(s, c.index) && s.nodes[c.index].owner == c.account &&
                  s.nodes[c.index].parent == FromAllocator(c.account)
  {
    hide HoldsOk, ReservedOk, UncommittedOk, UsedBelow;
  }

  /** What a reservation has set aside covers what is loose in it and what is charged to it. */
  lemma SetAside(s: State, i: nat)
    requires Inv(s) && IsLive(s, i)
    ensures s.nodes[i].amount >= s.nodes[i].reserved
    ensures s.nodes[i].reserved == Held(s.nodes, FromReservation(i)) + s.loose(FromReservation(i)) +
            ChargedTo(s.pending, i)
    ensures s.nodes[i].parent != FromReservation(i)
    ensures s.nodes[i].parent.FromReservation? ==>
              IsLive(s, s.nodes[i].parent.index) && s.nodes[s.nodes[i].parent.index].owner == s.nodes[i].owner
    ensures s.nodes[i].parent.FromAllocator? ==> s.nodes[i].parent == FromAllocator(s.nodes[i].owner)
    ensures s.inner.Knows(s.nodes[i].owner)
  {
    hide Held, ChargedTo, UsedBelow;
    assert ReservedIn(s.nodes, i) == s.nodes[i].reserved;
  }

  lemma ReserveOk(s: State, owner: Option<nat>, amount: nat)
    requires Inv(s) && Enabled(s, Reserve(owner, amount))
    ensures Inv(Next(s, Reserve(owner, amount)))
  {
    hide Held, ChargedTo, ChargedFor, UncommittedOf, UsedBelow, Inner.AddReservation, Inner.ReservedFor;
    hide Inner.UsedBytes;
    AddEffect(s.inner, owner, amount);
    UsedAdd(s.inner, owner, amount);
    HeldPush(s.nodes, Node(owner, FromAllocator(owner), amount, 0, true));
    assert ReservedIn(s.nodes, |s.nodes|) == 0;
  }

  lemma HoldsHold(nodes: seq<Node>, pending: seq<Pending>, loose: Account -> nat, i: nat, amount: nat)
    requires HoldsOk(nodes, pending, loose) && i < |nodes| && nodes[i].live
    requires nodes[i].reserved + amount <= nodes[i].amount
    ensures HoldsOk(nodes[i := nodes[i].(reserved := nodes[i].reserved + amount)] +
                    [Node(nodes[i].owner, FromReservation(i), amount, 0, true)], pending, loose)
  {
    hide Held, ChargedTo;
    var mid := nodes[i := nodes[i].(reserved := nodes[i].reserved + amount)];
    var end := mid + [Node(nodes[i].owner, FromReservation(i), amount, 0, true)];
    HeldPut(nodes, i, mid[i]);
    HeldPush(mid, end[|mid|]);
    forall j: nat
      ensures ReservedIn(end, j) == Held(end, FromReservation(j)) + loose(FromReservation(j)) + ChargedTo(pending, j)
    {
      assert ReservedIn(nodes, j) == Held(nodes, FromReservation(j)) + loose(FromReservation(j)) +
             ChargedTo(pending, j);
    }
  }

  lemma ShapePush(nodes: seq<Node>, pending: seq<Pending>, ids: nat, i: nat, n: Node)
    requires ShapeOk(nodes, pending, ids) && i < |nodes| && nodes[i].live
    requires n.owner == nodes[i].owner && n.parent == FromReservation(i)
    ensures ShapeOk(nodes + [n], pending, ids)
  {
  }

  lemma HoldOk(s: State, i: nat, amount: nat)
    requires Inv(s) && Enabled(s, Hold(i, amount))
    ensures Inv(Next(s, Hold(i, amount)))
  {
    hide Held, ChargedTo, ChargedFor, UncommittedOf, UsedBelow, ShapeOk, HoldsOk, Inner.AddReservation;
    hide Inner.RemoveReservation, Inner.ReservedFor, Inner.UsedBytes;
    var n := s.nodes[i];
    var n', hold := n.(reserved := n.reserved + amount), Node(n.owner, FromReservation(i), amount, 0, true);
    var nodes := s.nodes[i := n'];
    HeldPut(s.nodes, i, n');
    HeldPush(nodes, hold);
    ShapePut(s.nodes, s.pending, s.inner.ids, i, n');
    ShapePush(nodes, s.pending, s.inner.ids, i, hold);
    HoldsHold(s.nodes, s.pending, s.loose, i, amount);
  }

  lemma ForgetOk(s: State, i: nat, amount: nat)
    requires Inv(s) && Enabled(s, Forget(i, amount))
    ensures Inv(Next(s, Forget(i, amount)))
  {
    hide Held, ChargedTo, ChargedFor, UncommittedOf, UsedBelow, ShapeOk, HoldsOk, Inner.AddReservation;
    hide Inner.RemoveReservation, Inner.ReservedFor, Inner.UsedBytes;
    var n := s.nodes[i];
    var n', loose := n.(amount := n.amount - amount), LooseWith(s.loose, n.parent, s.loose(n.parent) + amount);
    SetAside(s, i);
    ShapePut(s.nodes, s.pending, s.inner.ids, i, n');
    HoldsPut(s.nodes, s.pending, s.loose, i, n', s.pending, loose);
    HeldPut(s.nodes, i, n');
  }

  lemma AddOk(s: State, i: nat, amount: nat)
    requires Inv(s) && Enabled(s, Add(i, amount))
    ensures Inv(Next(s, Add(i, amount)))
  {
    hide Held, ChargedTo, ChargedFor, UncommittedOf, UsedBelow, ShapeOk, HoldsOk, Inner.AddReservation;
    hide Inner.RemoveReservation, Inner.ReservedFor, Inner.UsedBytes;
    var n := s.nodes[i];
    var n', loose := n.(amount := n.amount + amount), LooseWith(s.loose, n.parent, s.loose(n.parent) - amount);
    SetAside(s, i);
    ShapePut(s.nodes, s.pending, s.inner.ids, i, n');
    HoldsPut(s.nodes, s.pending, s.loose, i, n', s.pending, loose);
    HeldPut(s.nodes, i, n');
  }

  lemma CommitOk(s: State, i: nat, amount: nat)
    requires Inv(s) && Enabled(s, Commit(i, amount))
    ensures Safe(s, Commit(i, amount)) && Inv(Next(s, Commit(i, amount)))
  {
    hide Held, ChargedTo, ChargedFor, UncommittedOf, UsedBelow, ShapeOk, HoldsOk, Inner.AddReservation;
    hide Inner.RemoveReservation, Inner.ReservedFor, Inner.UsedBytes;
    var n := s.nodes[i];
    SetAside(s, i);
    var n' := n.(amount := n.amount - amount, reserved := n.reserved - amount);
    var loose := LooseWith(s.loose, FromReservation(i), s.loose(FromReservation(i)) - amount);
    ShapePut(s.nodes, s.pending, s.inner.ids, i, n');
    HoldsPut(s.nodes, s.pending, s.loose, i, n', s.pending, LooseWith(loose, n.parent, loose(n.parent) + amount));
    HeldPut(s.nodes, i, n');
  }

  lemma DisownOk(s: State, owner: nat, amount: nat)
    requires Inv(s) && Enabled(s, Disown(owner, amount))
    ensures Safe(s, Disown(owner, amount)) && Inv(Next(s, Disown(owner, amount)))
  {
    hide Held, ChargedTo, ChargedFor, UncommittedOf, UsedBelow, Inner.AddReservation, Inner.RemoveReservation;
    hide Inner.ReservedFor, Inner.UsedBytes;
    CanSpend(s, Some(owner));
    RemoveEffect(s.inner, Some(owner), amount);
    UsedAdd(s.inner, Some(owner), amount);
    var inner := s.inner.RemoveReservation(Some(owner), amount);
    AddEffect(inner, None, amount);
    UsedAdd(inner, None, amount);
  }

  lemma GiveBackOk(s: State, i: nat, amount: nat)
    requires Inv(s) && Enabled(s, GiveBack(i, amount))
    ensures Safe(s, GiveBack(i, amount)) && Inv(Next(s, GiveBack(i, amount)))
  {
    hide Held, ChargedTo, ChargedFor, UncommittedOf, UsedBelow, ShapeOk, HoldsOk, Inner.AddReservation;
    hide Inner.RemoveReservation, Inner.ReservedFor, Inner.UsedBytes;
    var n := s.nodes[i];
    var n' := n.(amount := n.amount - amount);
    SetAside(s, i);
    CanRelease(s, i, amount);
    RemoveEffect(s.inner, n.owner, amount);
    UsedAdd(s.inner, n.owner, amount);
    HeldPut(s.nodes, i, n');
    ShapePut(s.nodes, s.pending, s.inner.ids, i, n');
    HoldsPut(s.nodes, s.pending, s.loose, i, n', s.pending, s.loose);
  }

  /** A reservation nothing borrows has nothing set aside. */
  lemma UnborrowedIsFree(s: State, i: nat)
    requires Inv(s) && IsLive(s, i) && Unborrowed(s, i)
    ensures s.nodes[i].reserved == 0 && Held(s.nodes, FromReservation(i)) == 0 && ChargedTo(s.pending, i) == 0
  {
    hide Held, ChargedTo, ChargedFor, UncommittedOf;
    HeldZero(s.nodes, FromReservation(i));
    ChargedZero(s.pending, i);
    assert ReservedIn(s.nodes, i) == s.nodes[i].reserved;
  }

  lemma HoldsDropTop(nodes: seq<Node>, pending: seq<Pending>, loose: Account -> nat, i: nat)
    requires HoldsOk(nodes, pending, loose) && i < |nodes| && nodes[i].live && nodes[i].TopLevel()
    requires nodes[i].reserved == 0
    ensures HoldsOk(nodes[i := nodes[i].(amount := 0, live := false)], pending, loose)
  {
    hide Held, ChargedTo;
    var nodes' := nodes[i := nodes[i].(amount := 0, live := false)];
    HeldPut(nodes, i, nodes'[i]);
    forall j: nat ensures ReservedIn(nodes', j) ==
      Held(nodes', FromReservation(j)) + loose(FromReservation(j)) + ChargedTo(pending, j)
    {
      assert ReservedIn(nodes, j) == Held(nodes, FromReservation(j)) + loose(FromReservation(j)) +
             ChargedTo(pending, j);
    }
  }

  lemma DropTopOk(s: State, i: nat)
    requires Inv(s) && Enabled(s, DropReservation(i)) && s.nodes[i].TopLevel()
    ensures Safe(s, DropReservation(i)) && Inv(Next(s, DropReservation(i)))
  {
    hide Held, ChargedTo, ChargedFor, UncommittedOf, UsedBelow, Inner.AddReservation, Inner.RemoveReservation;
    hide Inner.ReservedFor, Inner.UsedBytes, HoldsOk, Unborrowed;
    UnborrowedIsFree(s, i);
    var n := s.nodes[i];
    assert n.parent == FromAllocator(n.owner) && s.inner.Knows(n.owner);
    hide ShapeOk;
    ShapeDrop(s, i);
    HoldsDropTop(s.nodes, s.pending, s.loose, i);
    HeldPut(s.nodes, i, n.(amount := 0, live := false));
    CanRelease(s, i, n.amount);
    RemoveEffect(s.inner, n.owner, n.amount);
    UsedAdd(s.inner, n.owner, n.amount);
  }

  /** A hold goes and returns what it has to its reservation. */
  lemma HoldsDrop(nodes: seq<Node>, pending: seq<Pending>, loose: Account -> nat, i: nat, p: nat)
    requires HoldsOk(nodes, pending, loose) && p < |nodes| && i < |nodes| && p != i
    requires nodes[i].live && nodes[i].parent == FromReservation(p) && nodes[p].live && nodes[i].reserved == 0
    requires nodes[p].reserved >= nodes[i].amount
    ensures var gone := nodes[i].(amount := 0, live := false);
            var back := nodes[p].(reserved := nodes[p].reserved - nodes[i].amount);
            HoldsOk(nodes[i := gone][p := back], pending, loose)
  {
    hide Held, ChargedTo;
    var mid := nodes[i := nodes[i].(amount := 0, live := false)];
    var end := mid[p := nodes[p].(reserved := nodes[p].reserved - nodes[i].amount)];
    HeldPut(nodes, i, mid[i]);
    HeldPut(mid, p, end[p]);
    forall j: nat
      ensures ReservedIn(end, j) == Held(end, FromReservation(j)) + loose(FromReservation(j)) + ChargedTo(pending, j)
    {
      assert ReservedIn(nodes, j) == Held(nodes, FromReservation(j)) + loose(FromReservation(j)) +
             ChargedTo(pending, j);
    }
  }

  lemma ShapeDrop(s: State, i: nat)
    requires Inv(s) && IsLive(s, i) && Unborrowed(s, i)
    ensures ShapeOk(s.nodes[i := s.nodes[i].(amount := 0, live := false)], s.pending, s.inner.ids)
  {
    hide HoldsOk, ReservedOk, UncommittedOk, UsedBelow;
  }

  lemma DropHoldOk(s: State, i: nat)
    requires Inv(s) && Enabled(s, DropReservation(i)) && !s.nodes[i].TopLevel()
    ensures Safe(s, DropReservation(i)) && Inv(Next(s, DropReservation(i)))
  {
    hide Held, ChargedTo, ChargedFor, UncommittedOf, UsedBelow, ShapeOk, HoldsOk, Inner.AddReservation;
    hide Inner.RemoveReservation, Inner.ReservedFor, Inner.UsedBytes;
    UnborrowedIsFree(s, i);
    SetAside(s, i);
    var n, p := s.nodes[i], s.nodes[i].parent.index;
    var nodes := s.nodes[i := n.(amount := 0, live := false)];
    ShapeDrop(s, i);
    HeldPut(s.nodes, i, nodes[i]);
    SetAside(s, p);
    HoldsDrop(s.nodes, s.pending, s.loose, i, p);
    HeldPut(nodes, p, nodes[p].(reserved := nodes[p].reserved - n.amount));
    ShapePut(nodes, s.pending, s.inner.ids, p, nodes[p].(reserved := nodes[p].reserved - n.amount));
  }

  lemma CountLooseOk(s: State, owner: nat, len: nat)
    requires Inv(s) && Enabled(s, CountLoose(owner, len))
    ensures Safe(s, CountLoose(owner, len)) && Inv(Next(s, CountLoose(owner, len)))
  {
    hide Held, ChargedTo, ChargedFor, UncommittedOf, UsedBelow, Inner.AddReservation, Inner.RemoveReservation;
    hide Inner.ReservedFor, Inner.UsedBytes;
    CanSpend(s, Some(owner));
    UncommitRemove(s.inner, owner, Some(owner), len);
    PendingPush(s.pending, Pending(None, owner, len));
  }

  lemma UncommitRemove(inner: Inner, owner: nat, o: Option<nat>, len: nat)
    requires owner < inner.ids && inner.Knows(o) && inner.ReservedFor(o) >= len
    ensures Uncommit(inner, owner, len).ReservedFor(o) >= len
    ensures var after := Uncommit(inner, owner, len).RemoveReservation(o, len);
            && after.ids == inner.ids
            && after.UsedBytes() == inner.UsedBytes()
            && (forall o' :: after.ReservedFor(o') == inner.ReservedFor(o') - if o' == o then len else 0)
            && (forall id :: after.entry(id).uncommitted == inner.entry(id).uncommitted + if id == owner then len
                else 0)
  {
    hide UsedBelow, Inner.RemoveReservation, Inner.ReservedFor, Inner.UsedBytes;
    var e := inner.entry(owner);
    SetEffect(inner, owner, e.(uncommitted := e.uncommitted + len));
    RemoveEffect(Uncommit(inner, owner, len), o, len);
    UsedAdd(Uncommit(inner, owner, len), o, len);
  }

  lemma CountChargedOk(s: State, i: nat, owner: nat, len: nat)
    requires Inv(s) && Enabled(s, CountCharged(i, owner, len))
    ensures Safe(s, CountCharged(i, owner, len)) && Inv(Next(s, CountCharged(i, owner, len)))
  {
    hide Held, ChargedTo, ChargedFor, UncommittedOf, UsedBelow, Inner.AddReservation, Inner.RemoveReservation;
    hide Inner.ReservedFor, Inner.UsedBytes;
    assert ReservedIn(s.nodes, i) == s.nodes[i].reserved;
    CanRelease(s, i, len);
    UncommitRemove(s.inner, owner, s.nodes[i].owner, len);
    PendingPush(s.pending, Pending(Some(Charge(i, s.nodes[i].owner)), owner, len));
  }

  lemma MarkAllocatedOk(s: State, owner: nat, len: nat)
    requires Inv(s) && Enabled(s, MarkAllocated(owner, len))
    ensures Inv(Next(s, MarkAllocated(owner, len)))
  {
    hide Held, ChargedTo, ChargedFor, UncommittedOf, UsedBelow, Inner.ReservedFor, Inner.UsedBytes;
    var e := s.inner.entry(owner);
    SetEffect(s.inner, owner, e.(uncommitted := e.uncommitted + len));
    PendingPush(s.pending, Pending(None, owner, len));
  }

  lemma MarkChargedOk(s: State, i: nat, owner: nat, len: nat)
    requires Inv(s) && Enabled(s, MarkCharged(i, owner, len))
    ensures Inv(Next(s, MarkCharged(i, owner, len)))
  {
    hide Held, ChargedTo, ChargedFor, UncommittedOf, UsedBelow, ShapeOk, HoldsOk, Inner.ReservedFor, Inner.UsedBytes;
    var e, n := s.inner.entry(owner), s.nodes[i];
    var p := Pending(Some(Charge(i, n.owner)), owner, len);
    var n' := n.(reserved := n.reserved + len);
    SetEffect(s.inner, owner, e.(uncommitted := e.uncommitted + len));
    PendingPush(s.pending, p);
    SetAside(s, i);
    HeldPut(s.nodes, i, n');
    ShapePut(s.nodes, s.pending, s.inner.ids, i, n');
    ShapeCharge(s.nodes[i := n'], s.pending, s.inner.ids, p);
    HoldsPut(s.nodes, s.pending, s.loose, i, n', s.pending + [p], s.loose);
  }

  lemma ShapeCharge(nodes: seq<Node>, pending: seq<Pending>, ids: nat, p: Pending)
    requires ShapeOk(nodes, pending, ids) && p.owner < ids && p.charge.Some?
    requires var c := p.charge.value;
             c.index < |nodes| && nodes[c.index].live && nodes[c.index].parent == FromAllocator(c.account)
    ensures ShapeOk(nodes, pending + [p], ids)
  {
  }

  lemma CommitAllocationOk(s: State, i: nat)
    requires Inv(s) && Enabled(s, CommitAllocation(i))
    ensures Safe(s, CommitAllocation(i)) && Inv(Next(s, CommitAllocation(i)))
  {
    hide Held, ChargedTo, ChargedFor, UncommittedOf, UsedBelow, ShapeOk, HoldsOk, Inner.AddReservation;
    hide Inner.RemoveReservation, Inner.ReservedFor, Inner.UsedBytes;
    var p := s.pending[i];
    var e := s.inner.entry(p.owner);
    var pending := s.pending[i := p.(len := 0)];
    PendingFinish(s.pending, i);
    ShapeFinish(s.nodes, s.pending, s.inner.ids, i);
    PendingShape(s, i);
    assert e.uncommitted == UncommittedOf(s.pending, p.owner);
    SetEffect(s.inner, p.owner, e.(allocatedBytes := e.allocatedBytes + p.len, uncommitted := e.uncommitted - p.len));
    if p.charge.Some? && p.len > 0 {
      var k := p.charge.value.index;
      SetAside(s, k);
      var n := s.nodes[k];
      var n' := n.(amount := n.amount - p.len, reserved := n.reserved - p.len);
      HeldPut(s.nodes, k, n');
      ShapePut(s.nodes, pending, s.inner.ids, k, n');
      HoldsPut(s.nodes, s.pending, s.loose, k, n', pending, s.loose);
    } else {
      HoldsSame(s.nodes, s.pending, s.loose, pending);
    }
  }

  lemma DropAllocationOk(s: State, i: nat)
    requires Inv(s) && Enabled(s, DropAllocation(i))
    ensures Safe(s, DropAllocation(i)) && Inv(Next(s, DropAllocation(i)))
  {
    hide Held, ChargedTo, ChargedFor, UncommittedOf, UsedBelow, ShapeOk, HoldsOk, Inner.AddReservation;
    hide Inner.RemoveReservation, Inner.ReservedFor, Inner.UsedBytes;
    var p := s.pending[i];
    var e := s.inner.entry(p.owner);
    var pending := s.pending[i := p.(len := 0)];
    PendingFinish(s.pending, i);
    ShapeFinish(s.nodes, s.pending, s.inner.ids, i);
    PendingShape(s, i);
    assert e.uncommitted == UncommittedOf(s.pending, p.owner);
    var e' := e.(uncommitted := e.uncommitted - p.len);
    SetEffect(s.inner, p.owner, e');
    if p.charge.Some? && p.len > 0 {
      var k := p.charge.value.index;
      SetAside(s, k);
      var n := s.nodes[k];
      var n' := n.(reserved := n.reserved - p.len);
      HeldPut(s.nodes, k, n');
      ShapePut(s.nodes, pending, s.inner.ids, k, n');
      HoldsPut(s.nodes, s.pending, s.loose, k, n', pending, s.loose);
      AddEffect(s.inner.Set(p.owner, e'), n.owner, p.len);
      UsedAdd(s.inner.Set(p.owner, e'), n.owner, p.len);
    } else {
      HoldsSame(s.nodes, s.pending, s.loose, pending);
    }
  }

  lemma CommitDeallocationOk(s: State, owner: nat, len: nat, index: Option<nat>)
    requires Inv(s) && Enabled(s, CommitDeallocation(owner, len, index))
    ensures Safe(s, CommitDeallocation(owner, len, index)) && Inv(Next(s, CommitDeallocation(owner, len, index)))
  {
    hide Held, ChargedTo, ChargedFor, UncommittedOf, UsedBelow, ShapeOk, HoldsOk, Inner.AddReservation;
    hide Inner.RemoveReservation, Inner.ReservedFor, Inner.UsedBytes;
    var e := s.inner.entry(owner);
    var e' := e.(allocatedBytes := e.allocatedBytes - len, deallocated := e.deallocated + len);
    SetEffect(s.inner, owner, e');
    if index.Some? {
      var k := index.value;
      SetAside(s, k);
      var n := s.nodes[k];
      var n' := n.(amount := n.amount + len);
      HeldPut(s.nodes, k, n');
      ShapePut(s.nodes, s.pending, s.inner.ids, k, n');
      HoldsPut(s.nodes, s.pending, s.loose, k, n', s.pending, s.loose);
      AddEffect(s.inner.Set(owner, e'), n.owner, len);
      UsedAdd(s.inner.Set(owner, e'), n.owner, len);
    }
  }

  lemma SetLimitOk(s: State, owner: nat, bytes: nat)
    requires Inv(s)
    ensures Inv(Next(s, SetLimit(owner, bytes)))
  {
    hide Held, ChargedTo, ChargedFor, UncommittedOf, UsedBelow;
  }

  /** In a state that satisfies the law no assertion fails and nothing underflows, and the next
      state satisfies the law. */
  lemma StepOk(s: State, step: Step)
    requires Inv(s) && Enabled(s, step)
    ensures Safe(s, step) && Inv(Next(s, step))
  {
    hide Inv, Next;
    match step
    case Reserve(owner, amount) => ReserveOk(s, owner, amount);
    case Hold(i, amount) => HoldOk(s, i, amount);
    case Forget(i, amount) => ForgetOk(s, i, amount);
    case Add(i, amount) => AddOk(s, i, amount);
    case Commit(i, amount) => CommitOk(s, i, amount);
    case Disown(owner, amount) => DisownOk(s, owner, amount);
    case GiveBack(i, amount) => GiveBackOk(s, i, amount);
    case DropReservation(i) => if s.nodes[i].TopLevel() { DropTopOk(s, i); } else { DropHoldOk(s, i); }
    case CountLoose(owner, len) => CountLooseOk(s, owner, len);
    case CountCharged(i, owner, len) => CountChargedOk(s, i, owner, len);
    case MarkAllocated(owner, len) => MarkAllocatedOk(s, owner, len);
    case MarkCharged(i, owner, len) => MarkChargedOk(s, i, owner, len);
    case CommitAllocation(i) => CommitAllocationOk(s, i);
    case DropAllocation(i) => DropAllocationOk(s, i);
    case CommitDeallocation(owner, len, index) => CommitDeallocationOk(s, owner, len, index);
    case SetLimit(owner, bytes) => SetLimitOk(s, owner, bytes);
  }

  // ---- Runs ----

  /** `steps[k]` takes `states[k]` to `states[k + 1]`. */
  ghost predicate IsRun(device: nat, ids: nat, states: seq<State>, steps: seq<Step>)
  {
    && |states| == |steps| + 1 && states[0] == Init(device, ids)
    && (forall k :: 0 <= k < |steps| ==> Enabled(states[k], steps[k]) && Safe(states[k], steps[k]))
    && (forall k, k' :: 0 <= k < |steps| && k' == k + 1 ==> states[k'] == Next(states[k], steps[k]))
  }

  lemma {:induction false} UsedNone(entry: nat -> ByteTracking, n: nat)
    requires forall id: nat :: entry(id).UsedBytes() == 0
    ensures UsedBelow(entry, n) == 0
    decreases n
  {
    if n > 0 {
      UsedNone(entry, n - 1);
      assert entry(n - 1).UsedBytes() == 0;
    }
  }

  lemma InitOk(device: nat, ids: nat)
    ensures Inv(Init(device, ids))
  {
    UsedNone(Init(device, ids).inner.entry, ids);
  }

  lemma NextKeeps(s: State, step: Step)
    requires Safe(s, step)
    ensures Next(s, step).device == s.device && Next(s, step).inner.ids == s.inner.ids
  {
  }

  lemma {:induction false} RunOk(device: nat, ids: nat, states: seq<State>, steps: seq<Step>, k: nat)
    requires IsRun(device, ids, states, steps) && k <= |steps|
    ensures Inv(states[k]) && states[k].device == device && states[k].inner.ids == ids
    decreases k
  {
    hide Inv, Enabled, Safe, Next;
    if k == 0 {
      InitOk(device, ids);
    } else {
      NextKeeps(states[k - 1], steps[k - 1]);
      RunOk(device, ids, states, steps, k - 1);
      StepOk(states[k - 1], steps[k - 1]);
    }
  }

  /** What the first `k` steps marked as allocated against reservations of an account. */
  ghost function MarkedIn(states: seq<State>, steps: seq<Step>, k: nat, account: Option<nat>): nat
    requires k <= |steps| <= |states|
  {
    if k == 0 then 0 else
      MarkedIn(states, steps, k - 1, account) +
      match steps[k - 1]
      case MarkCharged(i, _, len) =>
        if i < |states[k - 1].nodes| && states[k - 1].nodes[i].owner == account then len else 0
      case _ => 0
  }

  lemma NextMarked(s: State, step: Step)
    requires Safe(s, step)
    ensures !step.MarkCharged? ==> Next(s, step).marked == s.marked
    ensures step.MarkCharged? ==> Next(s, step).marked == AddMark(s.marked, s.nodes[step.index].owner, step.len)
  {
  }

  lemma {:induction false} RunMarked(device: nat, ids: nat, states: seq<State>, steps: seq<Step>, k: nat,
                                     account: Option<nat>)
    requires IsRun(device, ids, states, steps) && k <= |steps|
    ensures states[k].marked(account) == MarkedIn(states, steps, k, account)
    decreases k
  {
    hide Enabled, Next;
    if k > 0 {
      RunMarked(device, ids, states, steps, k - 1, account);
      NextMarked(states[k - 1], steps[k - 1]);
    }
  }

  /** In every run, per owner: the reserved bytes of the allocator are the amounts of the
      reservations taken from it, less the allocations pending against them, plus what callers are
      moving, plus all that was marked as allocated against reservations; and the allocator never
      promises more than the device has. */
  lemma Conservation(device: nat, ids: nat, states: seq<State>, steps: seq<Step>, k: nat, owner: Option<nat>)
    requires IsRun(device, ids, states, steps) && k <= |steps|
    ensures var s := states[k];
            && s.inner.ReservedFor(owner) ==
                 Held(s.nodes, FromAllocator(owner)) + s.loose(FromAllocator(owner)) - ChargedFor(s.pending, owner)
                 + MarkedIn(states, steps, k, owner)
            && s.inner.UsedBytes() <= device
            && (owner.Some? ==> s.inner.entry(owner.value).uncommitted == UncommittedOf(s.pending, owner.value))
  {
    hide Enabled, Safe, Next, MarkedIn;
    RunOk(device, ids, states, steps, k);
    RunMarked(device, ids, states, steps, k, owner);
  }

  /** A step that marks something as allocated in a transaction with a reservation. */
  predicate ChargedMark(step: Step) { step.MarkCharged? && step.len > 0 }

  /** `states[k]` satisfies the law without any surplus. */
  ghost predicate Lawful(s: State)
  {
    forall o: Option<nat> ::
      s.inner.ReservedFor(o) == Held(s.nodes, FromAllocator(o)) + s.loose(FromAllocator(o)) - ChargedFor(s.pending, o)
  }

  lemma {:induction false} MarkedGrows(states: seq<State>, steps: seq<Step>, j: nat, k: nat, account: Option<nat>)
    requires j <= k <= |steps| <= |states|
    ensures MarkedIn(states, steps, j, account) <= MarkedIn(states, steps, k, account)
    decreases k
  {
    if j < k { MarkedGrows(states, steps, j, k - 1, account); }
  }

  lemma {:induction false} NothingMarked(states: seq<State>, steps: seq<Step>, k: nat, account: Option<nat>)
    requires k <= |steps| <= |states| && forall j :: 0 <= j < k ==> !ChargedMark(steps[j])
    ensures MarkedIn(states, steps, k, account) == 0
    decreases k
  {
    if k > 0 { NothingMarked(states, steps, k - 1, account); }
  }

  ghost predicate NoMarks(states: seq<State>, steps: seq<Step>, k: nat)
    requires k <= |steps| <= |states|
  {
    forall o :: MarkedIn(states, steps, k, o) == 0
  }

  /** The marked amounts are all zero exactly if there was no such step. */
  lemma MarkedWhen(device: nat, ids: nat, states: seq<State>, steps: seq<Step>, k: nat)
    requires IsRun(device, ids, states, steps) && k <= |steps|
    ensures NoMarks(states, steps, k) <==> forall j :: 0 <= j < k ==> !ChargedMark(steps[j])
  {
    hide Enabled, Next;
    if j :| 0 <= j < k && ChargedMark(steps[j]) {
      assert Safe(states[j], steps[j]);
      var o := states[j].nodes[steps[j].index].owner;
      MarkedGrows(states, steps, j + 1, k, o);
      assert MarkedIn(states, steps, j + 1, o) >= steps[j].len;
    } else {
      forall o ensures MarkedIn(states, steps, k, o) == 0 { NothingMarked(states, steps, k, o); }
    }
  }

  /** The law without a surplus holds exactly if `mark_allocated` was not used in a transaction with
      a reservation (for more than nothing). */
  lemma ConservationExactly(device: nat, ids: nat, states: seq<State>, steps: seq<Step>, k: nat)
    requires IsRun(device, ids, states, steps) && k <= |steps|
    ensures Lawful(states[k]) <==> forall j :: 0 <= j < k ==> !ChargedMark(steps[j])
  {
    hide Enabled, Safe, Next, MarkedIn, Held, ChargedFor, UncommittedOf;
    MarkedWhen(device, ids, states, steps, k);
    var s := states[k];
    if Lawful(s) {
      forall o ensures MarkedIn(states, steps, k, o) == 0 {
        Conservation(device, ids, states, steps, k, o);
        assert s.inner.ReservedFor(o) == Held(s.nodes, FromAllocator(o)) +
               s.loose(FromAllocator(o)) - ChargedFor(s.pending, o);
      }
    }
    if NoMarks(states, steps, k) {
      forall o: Option<nat>
        ensures s.inner.ReservedFor(o) == Held(s.nodes, FromAllocator(o)) +
                s.loose(FromAllocator(o)) - ChargedFor(s.pending, o)
      {
        Conservation(device, ids, states, steps, k, o);
        assert MarkedIn(states, steps, k, o) == 0;
      }
    }
  }

  /** Whatever any enabled step asserts or subtracts after any run is safe. */
  lemma NothingFails(device: nat, ids: nat, states: seq<State>, steps: seq<Step>, step: Step)
    requires IsRun(device, ids, states, steps) && Enabled(states[|steps|], step)
    ensures Safe(states[|steps|], step)
  {
    hide Inv, Enabled, Safe, Next;
    RunOk(device, ids, states, steps, |steps|);
    StepOk(states[|steps|], step);
  }

  /** All reservations and transactions are gone. */
  ghost predicate AllGone(s: State)
  {
    && (forall i :: 0 <= i < |s.nodes| ==> !s.nodes[i].live)
    && (forall i :: 0 <= i < |s.pending| ==> s.pending[i].len == 0)
    && (forall a :: s.loose(a) == 0)
  }

  /** Once all reservations and transactions are gone, what is reserved is what was marked against
      reservations; so the zero assertions of the allocator's `Drop` hold exactly if nothing was. */
  lemma NothingLeaks(device: nat, ids: nat, states: seq<State>, steps: seq<Step>, k: nat)
    requires IsRun(device, ids, states, steps) && k <= |steps| && AllGone(states[k])
    ensures forall o :: states[k].inner.ReservedFor(o) == MarkedIn(states, steps, k, o)
    ensures (forall o :: states[k].inner.ReservedFor(o) == 0) <==> forall j :: 0 <= j < k ==> !ChargedMark(steps[j])
    ensures forall id :: states[k].inner.entry(id).uncommitted == 0
  {
    hide Enabled, Safe, Next, Inv, MarkedIn;
    RunOk(device, ids, states, steps, k);
    MarkedWhen(device, ids, states, steps, k);
    GoneReserved(states[k]);
    forall o ensures states[k].inner.ReservedFor(o) == MarkedIn(states, steps, k, o) {
      RunMarked(device, ids, states, steps, k, o);
    }
  }

  lemma GoneReserved(s: State)
    requires Inv(s) && AllGone(s)
    ensures forall o :: s.inner.ReservedFor(o) == s.marked(o)
    ensures forall id :: s.inner.entry(id).uncommitted == 0
  {
    hide Held, ChargedFor, UncommittedOf;
    forall o ensures s.inner.ReservedFor(o) == s.marked(o) {
      HeldZero(s.nodes, FromAllocator(o));
      ChargedForZero(s.pending, o);
    }
    forall id ensures s.inner.entry(id).uncommitted == 0 {
      UncommittedZero(s.pending, id);
    }
  }

  lemma ChargedForZero(pending: seq<Pending>, account: Option<nat>)
    requires forall i :: 0 <= i < |pending| ==> pending[i].len == 0
    ensures ChargedFor(pending, account) == 0
  {
    SumZero(pending, (p: Pending) => if p.charge.Some? && p.charge.value.account == account then p.len else 0);
  }

  lemma UncommittedZero(pending: seq<Pending>, id: nat)
    requires forall i :: 0 <= i < |pending| ==> pending[i].len == 0
    ensures UncommittedOf(pending, id) == 0
  {
    SumZero(pending, (p: Pending) => if p.owner == id then p.len else 0);
  }

  // ---- Allocating, as a sequence of steps ----

  /** Nothing borrows a reservation that does not exist yet. */
  lemma NewUnborrowed(s: State)
    requires Inv(s)
    ensures Unborrowed(s, |s.nodes|)
  {
    hide Held, ChargedTo, ChargedFor, UncommittedOf, UsedBelow, ReservedOk, UncommittedOk;
    assert ReservedIn(s.nodes, |s.nodes|) == 0;
  }

  /** With a transaction reservation: a hold, part of it spent, the rest returned.  Each step is
      possible after the one before. */
  lemma ChargedPath(s: State, i: nat, taken: nat, found: nat, owner: nat)
    requires Inv(s) && Enabled(s, Hold(i, taken)) && IsTop(s, i) && found <= taken && owner < s.inner.ids
    requires s.nodes[i].owner == None || s.nodes[i].owner == Some(owner)
    ensures var h, s1 := |s.nodes|, Next(s, Hold(i, taken));
            && Enabled(s1, Forget(h, found))
            && var s2 := Next(s1, Forget(h, found));
            && Enabled(s2, CountCharged(i, owner, found)) && Safe(s2, CountCharged(i, owner, found))
            && var s3 := Next(s2, CountCharged(i, owner, found));
            && Enabled(s3, DropReservation(h)) && Safe(s3, DropReservation(h)) &&
                s3.nodes[h].parent == FromReservation(i)
            && var s4 := Next(s3, DropReservation(h));
            && s4.nodes[i] == s.nodes[i].(reserved := s.nodes[i].reserved + found)
            && s4.pending == s.pending + [Pending(Some(Charge(i, s.nodes[i].owner)), owner, found)]
            && s4.inner.UsedBytes() == s.inner.UsedBytes()
  {
    hide Inv, Inner.UsedBytes, Inner.RemoveReservation, Inner.ReservedFor;
    var h, s1 := |s.nodes|, Next(s, Hold(i, taken));
    NewUnborrowed(s);
    StepOk(s, Hold(i, taken));
    StepOk(s1, Forget(h, found));
    var s2 := Next(s1, Forget(h, found));
    StepOk(s2, CountCharged(i, owner, found));
    var s3 := Next(s2, CountCharged(i, owner, found));
    SetAside(s, i);
    UncommitRemove(s2.inner, owner, s.nodes[i].owner, found);
    assert Unborrowed(s3, h);
    StepOk(s3, DropReservation(h));
  }

  /** Without one: whole blocks are reserved, part of them spent, the rest returned. */
  lemma LoosePath(s: State, taken: nat, found: nat, owner: nat)
    requires Inv(s) && Enabled(s, Reserve(Some(owner), taken)) && found <= taken
    ensures var h, s1 := |s.nodes|, Next(s, Reserve(Some(owner), taken));
            && Enabled(s1, Forget(h, found))
            && var s2 := Next(s1, Forget(h, found));
            && Enabled(s2, CountLoose(owner, found)) && Safe(s2, CountLoose(owner, found))
            && var s3 := Next(s2, CountLoose(owner, found));
            && Enabled(s3, DropReservation(h)) && Safe(s3, DropReservation(h)) && s3.nodes[h].TopLevel()
            && var s4 := Next(s3, DropReservation(h));
            && s4.nodes[..h] == s.nodes && s4.pending == s.pending + [Pending(None, owner, found)]
            && s4.inner.UsedBytes() == s.inner.UsedBytes() + found
  {
    hide Inv, Inner.UsedBytes, Inner.RemoveReservation, Inner.AddReservation, Inner.ReservedFor;
    var h, s1 := |s.nodes|, Next(s, Reserve(Some(owner), taken));
    NewUnborrowed(s);
    UsedAdd(s.inner, Some(owner), taken);
    AddEffect(s.inner, Some(owner), taken);
    StepOk(s, Reserve(Some(owner), taken));
    StepOk(s1, Forget(h, found));
    var s2 := Next(s1, Forget(h, found));
    StepOk(s2, CountLoose(owner, found));
    var s3 := Next(s2, CountLoose(owner, found));
    UncommitRemove(s2.inner, owner, Some(owner), found);
    assert Unborrowed(s3, h);
    StepOk(s3, DropReservation(h));
    UsedAdd(s3.inner, Some(owner), taken - found);
  }

  /** Nothing could be reserved. */
  lemma EmptyPath(s: State, owner: nat)
    requires Inv(s) && Enabled(s, Reserve(Some(owner), 0))
    ensures var h, s1 := |s.nodes|, Next(s, Reserve(Some(owner), 0));
            && Enabled(s1, DropReservation(h)) && Safe(s1, DropReservation(h)) && s1.nodes[h].TopLevel()
            && var s2 := Next(s1, DropReservation(h));
            && s2.pending == s.pending && s2.inner.UsedBytes() == s.inner.UsedBytes()
  {
    hide Inv, Inner.UsedBytes, Inner.RemoveReservation, Inner.AddReservation, Inner.ReservedFor;
    var h, s1 := |s.nodes|, Next(s, Reserve(Some(owner), 0));
    NewUnborrowed(s);
    UsedAdd(s.inner, Some(owner), 0);
    StepOk(s, Reserve(Some(owner), 0));
    assert Unborrowed(s1, h);
    StepOk(s1, DropReservation(h));
  }

  // ---- A run that leaks ----

  function LeakingSteps(owner: nat, len: nat): seq<Step>
  {
    [Reserve(Some(owner), len), MarkCharged(0, owner, len), CommitAllocation(0), DropReservation(0)]
  }

  /** A reservation, an allocation marked against it, commit, and the reservation dropped: everything
      is gone and `len` bytes stay reserved, so the allocator's `Drop` fails. */
  lemma MarkingLeaks(device: nat, ids: nat, owner: nat, len: nat) returns (states: seq<State>)
    requires owner < ids && 0 < 2 * len <= device <= 0xffff_ffff_ffff_ffff
    ensures IsRun(device, ids, states, LeakingSteps(owner, len)) && AllGone(states[4])
    ensures states[4].inner.ReservedFor(Some(owner)) == len > 0
  {
    hide Inv, Next, Enabled, Safe, AllGone, Inner.ReservedFor;
    var steps := LeakingSteps(owner, len);
    var s0 := Init(device, ids);
    var s1 := LeakReserve(device, ids, owner, len);
    var s2 := LeakMark(s1, owner, len);
    var s3 := LeakCommit(s2, owner, len);
    var s4 := LeakDrop(s3, owner, len);
    states := [s0, s1, s2, s3, s4];
  }

  ghost predicate Leaking(s: State, owner: nat, len: nat, node: Node, pending: seq<Pending>)
  {
    && Inv(s) && s.nodes == [node] && node.owner == Some(owner) && node.parent == FromAllocator(Some(owner)) &&
        s.pending == pending
    && s.inner.ReservedFor(Some(owner)) == len && forall a :: s.loose(a) == 0
  }

  function LeakNode(owner: nat, amount: nat, reserved: nat): Node
  {
    Node(Some(owner), FromAllocator(Some(owner)), amount, reserved, true)
  }

  function LeakPending(owner: nat, len: nat): seq<Pending> { [Pending(Some(Charge(0, Some(owner))), owner, len)] }

  lemma LeakReserve(device: nat, ids: nat, owner: nat, len: nat) returns (s: State)
    requires owner < ids && 0 < 2 * len <= device <= 0xffff_ffff_ffff_ffff
    ensures var s0, step := Init(device, ids), Reserve(Some(owner), len);
            Enabled(s0, step) && Safe(s0, step) && s == Next(s0, step)
    ensures Leaking(s, owner, len, LeakNode(owner, len, 0), [])
    ensures owner < s.inner.ids && s.inner.UsedBytes() == len && s.device == device && s.inner.BytesLeft(owner) >= len
  {
    hide UsedBelow, Inv;
    var s0 := Init(device, ids);
    UsedNone(s0.inner.entry, ids);
    InitOk(device, ids);
    UsedAdd(s0.inner, Some(owner), len);
    StepOk(s0, Reserve(Some(owner), len));
    s := Next(s0, Reserve(Some(owner), len));
  }

  lemma LeakMark(s: State, owner: nat, len: nat) returns (s': State)
    requires Leaking(s, owner, len, LeakNode(owner, len, 0), []) && owner < s.inner.ids
    requires s.inner.UsedBytes() == len && 2 * len <= s.device && s.inner.BytesLeft(owner) >= len
    ensures Enabled(s, MarkCharged(0, owner, len)) && Safe(s, MarkCharged(0, owner, len))
    ensures s' == Next(s, MarkCharged(0, owner, len))
    ensures Leaking(s', owner, len, LeakNode(owner, len, len), LeakPending(owner, len))
  {
    hide Inv, Inner.UsedBytes;
    StepOk(s, MarkCharged(0, owner, len));
    s' := Next(s, MarkCharged(0, owner, len));
  }

  lemma LeakCommit(s: State, owner: nat, len: nat) returns (s': State)
    requires Leaking(s, owner, len, LeakNode(owner, len, len), LeakPending(owner, len)) && len > 0
    ensures Enabled(s, CommitAllocation(0)) && Safe(s, CommitAllocation(0)) && s' == Next(s, CommitAllocation(0))
    ensures Leaking(s', owner, len, LeakNode(owner, 0, 0), LeakPending(owner, 0))
  {
    hide Inv, Inner.UsedBytes;
    StepOk(s, CommitAllocation(0));
    s' := Next(s, CommitAllocation(0));
  }

  lemma LeakDrop(s: State, owner: nat, len: nat) returns (s': State)
    requires Leaking(s, owner, len, LeakNode(owner, 0, 0), LeakPending(owner, 0))
    ensures Enabled(s, DropReservation(0)) && Safe(s, DropReservation(0)) && s' == Next(s, DropReservation(0))
    ensures AllGone(s') && s'.inner.ReservedFor(Some(owner)) == len
  {
    hide Inv, Inner.UsedBytes;
    StepOk(s, DropReservation(0));
    s' := Next(s, DropReservation(0));
  }
}
