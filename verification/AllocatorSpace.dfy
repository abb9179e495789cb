/** Where the allocator takes space from (src/object_store/allocator.rs): allocation, commit,
    transaction drop, deallocation and device flush as a system of steps.  Every change to the
    tree, to `reserved_allocations` and every section under the `inner` mutex is one step, and
    steps of different operations interleave freely; only the allocation mutex serialises
    `allocate`. */
module AllocatorSpace {
  import opened LsmTypes
  import opened RangeLayers
  import opened LazyRanges
  import opened AllocatorMerge
  import opened Arith

  predicate Within(r: Range, b: nat) { r.start <= b < r.end }

  ghost function Bytes(r: Range): set<nat> { set b: nat | b < r.end && Within(r, b) }

  function Len(r: Range): nat { if r.start <= r.end then r.end - r.start else 0 }

  lemma BytesSplit(r: Range)
    requires r.start < r.end
    ensures Bytes(r) == Bytes(Range(r.start, r.end - 1)) + {r.end - 1} && r.end - 1 !in Bytes(Range(r.start, r.end - 1))
  {
    var init := Bytes(Range(r.start, r.end - 1));
    forall b: nat ensures b in Bytes(r) <==> b in init || b == r.end - 1 { }
  }

  lemma {:induction false} BytesCount(r: Range)
    ensures |Bytes(r)| == Len(r)
    decreases Len(r)
  {
    if r.start < r.end {
      BytesSplit(r);
      BytesCount(Range(r.start, r.end - 1));
    } else {
      assert Bytes(r) == {};
    }
  }

  ghost predicate Overlap(a: Range, b: Range) { a.start < b.end && b.start < a.end }

  lemma OverlapBytes(a: Range, b: Range)
    requires a.start < a.end && b.start < b.end
    ensures Overlap(a, b) <==> Bytes(a) * Bytes(b) != {}
  {
    if Overlap(a, b) {
      var x := if a.start < b.start then b.start else a.start;
      assert x in Bytes(a) * Bytes(b);
    } else {
      assert Bytes(a) * Bytes(b) == {};
    }
  }

  // ---- The search for a gap ----

  /** The ranges a search sees: in order, non-empty, not overlapping. */
  ghost predicate Ordered(view: seq<Range>)
  {
    && (forall p :: 0 <= p < |view| ==> view[p].start < view[p].end)
    && (forall p, q :: 0 <= p < q < |view| ==> view[p].end <= view[q].start)
  }

  ghost predicate InView(view: seq<Range>, b: nat) { exists p :: 0 <= p < |view| && view[p].start <= b < view[p].end }

  predicate Plausible(r: Range, device: nat, block: nat)
    requires block > 0
  {
    r.start % block == 0 && r.end % block == 0 && r.end <= device
  }

  datatype Gap = NoSpace | Inconsistent | Found(range: Range)

  /** The loop of `allocate`: the first gap, cut to the requested length. */
  method FirstGap(view: seq<Range>, len: nat, device: nat, block: nat) returns (gap: Gap)
    requires Ordered(view) && len > 0 && block > 0
    ensures gap.Inconsistent? ==> exists p :: 0 <= p < |view| && !Plausible(view[p], device, block)
    ensures gap.Found? ==>
              && gap.range.start < gap.range.end <= device && Len(gap.range) <= len
              && (forall b :: gap.range.start <= b < gap.range.end ==> !InView(view, b))
              && (forall b: nat :: b < gap.range.start ==> InView(view, b))
              && (Len(gap.range) < len ==> gap.range.end == device || InView(view, gap.range.end))
    ensures gap.NoSpace? ==> forall b: nat :: b < device ==> InView(view, b)
    ensures gap.Found? && len % block == 0 && device % block == 0 ==>
              gap.range.start % block == 0 && gap.range.end % block == 0
  {
    var last: nat, i := 0, 0;
    while i < |view|
      invariant 0 <= i <= |view|
      invariant forall b: nat :: b < last ==> InView(view, b)
      invariant forall p :: i <= p < |view| ==> last <= view[p].start
      invariant forall p :: 0 <= p < i ==> view[p].end <= last
      invariant last <= device && last % block == 0
    {
      var r := view[i];
      if !Plausible(r, device, block) {
        return Inconsistent;
      }
      if r.start > last {
        var end := if last + len < r.start then last + len else r.start;
        assert InView(view, r.start);
        assert len % block == 0 ==> (last + len) % block == 0 by { AddMultiple(last, len, block); }
        return Found(Range(last, end));
      }
      assert forall b: nat :: last <= b < r.end ==> InView(view, b);
      last := r.end;
      i := i + 1;
    }
    var end := if last + len < device then last + len else device;
    assert len % block == 0 ==> (last + len) % block == 0 by { AddMultiple(last, len, block); }
    if end <= last {
      return NoSpace;
    }
    return Found(Range(last, end));
  }

  /** The record ends inside the range, and there is no gap before it. */
  ghost predicate Follows(view: seq<Range>, range: Range, q: nat)
    requires q < |view|
  {
    view[q].end < range.end && (view[q].start <= range.start || (q > 0 && view[q - 1].end == view[q].start))
  }

  /** The records the walk of `deallocate` looks at: from the first that ends after the start of the
      range on, as long as they follow each other. */
  ghost predicate Reached(view: seq<Range>, range: Range, p: nat)
  {
    && p < |view| && view[p].end > range.start
    && forall q: nat :: q < p && view[q].end > range.start ==> Follows(view, range, q)
  }

  /** A byte of the range that is not allocated although a later one is; an empty range has to be
      allocated at its start. */
  ghost predicate HasHole(view: seq<Range>, range: Range)
  {
    exists b: nat ::
      && (range.start <= b < range.end || b == range.start)
      && !InView(view, b) && exists c: nat :: c > b && InView(view, c)
  }

  /** What makes `deallocate` fail. */
  ghost predicate NotDeallocatable(view: seq<Range>, range: Range, block: nat)
    requires block > 0
  {
    (exists p: nat :: Reached(view, range, p) && !IsAligned(view[p], block)) || HasHole(view, range)
  }

  /** The walk has gone past the first `i` records without failing. */
  ghost predicate Checked(view: seq<Range>, range: Range, block: nat, i: nat)
    requires block > 0
  {
    && i <= |view|
    && forall p: nat :: p < i && view[p].end > range.start ==> IsAligned(view[p], block) && Follows(view, range, p)
  }

  lemma CheckedBefore(view: seq<Range>, range: Range, block: nat, i: nat)
    requires block > 0 && i < |view| && Checked(view, range, block, i) && view[i].end > range.start
    requires !IsAligned(view[i], block)
    ensures NotDeallocatable(view, range, block)
  {
    hide IsAligned;
    assert Reached(view, range, i);
  }

  lemma Inside(view: seq<Range>, i: nat)
    requires i < |view|
    ensures forall b: nat :: view[i].start <= b < view[i].end ==> InView(view, b)
  {
  }

  lemma Hole(view: seq<Range>, range: Range, block: nat, i: nat, b: nat)
    requires Ordered(view) && i < |view| && b < view[i].start && forall p :: 0 <= p < i ==> view[p].end <= b
    requires block > 0 && (range.start <= b < range.end || b == range.start)
    ensures NotDeallocatable(view, range, block)
  {
    assert !InView(view, b);
    assert InView(view, view[i].start);
  }

  lemma NothingFrom(view: seq<Range>, start: nat)
    requires forall p :: 0 <= p < |view| ==> view[p].end <= start
    ensures forall b: nat :: b >= start ==> !InView(view, b)
  {
  }

  /** The walk comes to the end of the range or of the records. */
  lemma WalkEnds(view: seq<Range>, range: Range, block: nat, i: nat, start: nat)
    requires block > 0 && Checked(view, range, block, i) && range.start <= start
    requires i < |view| ==>
               IsAligned(view[i], block) && view[i].end >= range.end && view[i].end > range.start && start >= range.end
    requires i < |view| ==> InView(view, range.start)
    requires i == |view| ==> forall b: nat :: b >= start ==> !InView(view, b)
    requires forall b: nat :: range.start <= b < start ==> InView(view, b)
    ensures !NotDeallocatable(view, range, block)
  {
    hide InView, IsAligned;
    assert i < |view| ==> !Follows(view, range, i);
    assert forall p: nat :: Reached(view, range, p) ==> p <= i;
  }

  datatype Walk = InvalidRange | NotAllocated | Deallocation(range: Option<Range>, bytes: nat)

  /** The walk of `deallocate` over the records from the first one that ends after the start of the
      range.  The mutation it adds covers allocated bytes only, from the start of the range on; it
      falls short of the end of the range only if nothing is allocated from there on, and that is
      not reported. */
  method WalkAllocated(view: seq<Range>, range: Range, block: nat) returns (walk: Walk)
    requires Ordered(view) && block > 0
    ensures walk.InvalidRange? <==> range.start > range.end
    ensures walk.NotAllocated? <==> range.start <= range.end && NotDeallocatable(view, range, block)
    ensures walk.Deallocation? ==>
              walk.bytes <= Len(range) &&
              forall b: nat :: range.start <= b < range.start + walk.bytes ==> InView(view, b)
    ensures walk.Deallocation? && walk.bytes < Len(range) ==>
              forall b: nat :: b >= range.start + walk.bytes ==> !InView(view, b)
    ensures walk.Deallocation? && walk.range.Some? ==> walk.range.value == Range(range.start, range.start + walk.bytes)
    ensures walk.Deallocation? && walk.range.None? ==>
              walk.bytes == 0 && forall b: nat :: b >= range.start ==> !InView(view, b)
  {
    hide InView, NotDeallocatable, Checked, IsAligned;
    if range.start > range.end {
      return InvalidRange;
    }
    var i := 0;
    while i < |view| && view[i].end <= range.start
      invariant 0 <= i <= |view| && forall p :: 0 <= p < i ==> view[p].end <= range.start
    {
      i := i + 1;
    }
    assert Checked(view, range, block, i) by { NothingChecked(view, range, block, i); }
    var start, bytes: nat := range.start, 0;
    var freed: Option<Range> := None;
    while i < |view|
      invariant 0 <= i <= |view| && start == range.start + bytes <= range.end
      invariant forall p :: 0 <= p < i ==> view[p].end <= start
      invariant forall p :: i <= p < |view| ==> view[p].end > start
      invariant forall b: nat :: range.start <= b < start ==> InView(view, b)
      invariant freed == if bytes == 0 && freed.None? then None else Some(Range(range.start, start))
      invariant freed.None? ==> bytes == 0
      invariant Checked(view, range, block, i) && (start == range.start || start < range.end)
      invariant start == if i > 0 && view[i - 1].end > range.start then view[i - 1].end else range.start
    {
      var r := view[i];
      if !IsAligned(r, block) {
        CheckedBefore(view, range, block, i);
        return NotAllocated;
      }
      if r.start > start {
        Hole(view, range, block, i, start);
        return NotAllocated;
      }
      var end := if r.end < range.end then r.end else range.end;
      Inside(view, i);
      assert forall b: nat :: start <= b < end ==> InView(view, b);
      freed := Some(Range(range.start, end));
      bytes := bytes + (end - start);
      if end == range.end {
        WalkEnds(view, range, block, i, end);
        return Deallocation(freed, bytes);
      }
      CheckedNext(view, range, block, i);
      start := end;
      i := i + 1;
    }
    NothingFrom(view, start);
    WalkEnds(view, range, block, i, start);
    return Deallocation(freed, bytes);
  }

  lemma NothingChecked(view: seq<Range>, range: Range, block: nat, i: nat)
    requires block > 0 && i <= |view| && forall p :: 0 <= p < i ==> view[p].end <= range.start
    ensures Checked(view, range, block, i)
  {
  }

  lemma CheckedNext(view: seq<Range>, range: Range, block: nat, i: nat)
    requires block > 0 && i < |view| && Checked(view, range, block, i) && IsAligned(view[i], block)
    requires Follows(view, range, i)
    ensures Checked(view, range, block, i + 1)
  {
    hide IsAligned;
  }

  /** Counting: a device that is not fully covered has a free byte. */
  lemma {:induction false} FreeByte(cover: set<nat>, device: nat)
    requires |cover| < device
    ensures exists b: nat :: b < device && b !in cover
    decreases device
  {
    var last := device - 1;
    if last in cover {
      var rest := cover - {last};
      FreeByte(rest, last);
      var b: nat :| b < last && b !in rest;
      assert b !in cover;
    }
  }

  // ---- The steps ----

  /** How far an operation on a range has come. */
  datatype Stage =
    | Uncommitted          // handed out by `allocate`, transaction not yet committed
    | Merged               // commit: in the tree, still in reserved_allocations
    | Unreserved           // commit: erased from reserved_allocations, counters not yet moved
    | DeallocReserved      // deallocation commit: put into reserved_allocations
    | DeallocCounted       // ... counters moved and queued, tree not yet updated
    | Freed                // ... tombstone merged; waits for a device flush
    | FlushTaken           // taken off the queue by `did_flush_device`
    | FlushErased          // ... erased from reserved_allocations, still counted
    | Dropped              // transaction dropped, on the dropped_allocations list
    | Draining             // taken off that list by `allocate`
    | Done

  predicate InReserved(s: Stage) { !s.Unreserved? && !s.FlushErased? && !s.Done? }
  predicate InTree(s: Stage) { s.Merged? || s.Unreserved? || s.DeallocCounted? }
  predicate IsUncommitted(s: Stage) { s.Uncommitted? || s.Merged? || s.Unreserved? }
  predicate IsDeallocated(s: Stage) { s.DeallocCounted? || s.Freed? || s.FlushTaken? || s.FlushErased? }
  predicate IsOnList(s: Stage) { s.Dropped? }
  /** The range must not be handed out again. */
  predicate Holds(s: Stage) { !s.FlushErased? && !s.Done? }

  datatype Op = Op(stage: Stage, range: Range, offset: nat)

  /** The scan of `allocate` registers with `reserved_allocations` first and with the tree after that.
      `reserved0` and `tree0` are what it found there.  An insert, erase or merge that takes effect on
      a list the scan is registered with waits for the scan to end (`commit_and_wait`), and so do all
      others: `reservedBy` and `treeBy` are the operations that wait.  That there is one at most, and
      that the scan sees each list as it was before or as it is after it, is what module
      SkipListEpochs proves (`ScanIsAtomic`). */
  datatype Scan =
    | Closed
    | ReservedOpen(reserved0: set<Range>, reservedBy: Option<nat>)
    | BothOpen(reserved0: set<Range>, reservedBy: Option<nat>, tree0: set<nat>, treeBy: Option<nat>)

  predicate ReservedFree(scan: Scan) { scan.Closed? || scan.reservedBy.None? }
  predicate TreeFree(scan: Scan) { !scan.BothOpen? || scan.treeBy.None? }
  predicate WaitsReserved(scan: Scan, i: nat) { !scan.Closed? && scan.reservedBy == Some(i) }
  predicate WaitsTree(scan: Scan, i: nat) { scan.BothOpen? && scan.treeBy == Some(i) }

  /** Operation `i` waits for the scan. */
  predicate Waits(scan: Scan, i: nat) { WaitsReserved(scan, i) || WaitsTree(scan, i) }

  function SpliceReserved(scan: Scan, i: nat): Scan { if scan.Closed? then scan else scan.(reservedBy := Some(i)) }
  function SpliceTree(scan: Scan, i: nat): Scan { if scan.BothOpen? then scan.(treeBy := Some(i)) else scan }

  /** The `allocate` call that has the allocation mutex. */
  datatype Phase = Idle | Locked | TakingDropped | Ready | Chosen(range: Range) | Counted(range: Range)

  /** `tree` are the bytes the tree (without `reserved_allocations`) shows as allocated, `acc` the
      bytes counted in `allocBytes`.  The counters are the sums over all owners. */
  datatype State = State(device: nat, block: nat, tree: set<nat>, reserved: set<Range>, allocBytes: nat,
                         uncommitted: nat,
                         deallocated: nat, ops: seq<Op>, acc: set<nat>, phase: Phase, scan: Scan, flushed: nat)

  datatype Step =
    | Lock | TakeDropped | DrainOne(i: nat) | Drained
    | OpenReserved | OpenTree | Search(view: seq<Range>, range: Range, before: (bool, bool)) | Count | Reserve
    | CommitMerge(i: nat) | CommitErase(i: nat) | CommitCount(i: nat)
    | Drop(i: nat)
    | DeallocReserve(range: Range, offset: nat) | DeallocCount(i: nat) | DeallocMerge(i: nat)
    | FlushTake(limit: nat) | FlushErase(i: nat) | FlushCount(i: nat)

  function Init(device: nat, block: nat): State { State(device, block, {}, {}, 0, 0, 0, [], {}, Idle, Closed, 0) }

  function Unavailable(s: State): nat { s.allocBytes + s.uncommitted + s.deallocated }

  ghost function ReservedBytes(rs: set<Range>): set<nat> { set r, b | r in rs && b in Bytes(r) :: b }

  /** What `reserved_allocations` and the tree have as taken. */
  ghost function Cover(s: State): set<nat> { s.tree + ReservedBytes(s.reserved) }

  /** What the scan sees as taken: each list as it was before (`before.0`, `before.1`) or as it is
      after the operation that waits. */
  ghost function Seen(s: State, before: (bool, bool)): set<nat>
    requires s.scan.BothOpen?
  {
    (if before.1 then s.scan.tree0 else s.tree) + ReservedBytes(if before.0 then s.scan.reserved0 else s.reserved)
  }

  predicate IsAligned(r: Range, block: nat)
    requires block > 0
  {
    r.start % block == 0 && r.end % block == 0
  }

  ghost predicate Shows(view: seq<Range>, cover: set<nat>)
  {
    Ordered(view) && forall b: nat :: InView(view, b) <==> b in cover
  }

  ghost predicate InStage(s: State, i: nat, stage: Stage) { i < |s.ops| && s.ops[i].stage == stage }

  ghost predicate Enabled(s: State, step: Step)
  {
    match step
    case Lock => s.phase.Idle? && Unavailable(s) < s.device          // not needs_sync
    case TakeDropped => s.phase.Locked?
    case DrainOne(i) => s.phase.TakingDropped? && InStage(s, i, Draining)
    case Drained => s.phase.TakingDropped? && forall i :: 0 <= i < |s.ops| ==> s.ops[i].stage != Draining
    case OpenReserved => s.phase.Ready? && s.scan.Closed?
    case OpenTree => s.phase.Ready? && s.scan.ReservedOpen?
    case Search(view, range, before) =>
      // any result `FirstGap` may return on a view of what the scan sees
      && s.phase.Ready? && s.scan.BothOpen? && Shows(view, Seen(s, before)) && s.block > 0 && IsAligned(range, s.block)
      && range.start < range.end <= s.device && forall b :: b in Bytes(range) ==> !InView(view, b)
    case Count => s.phase.Chosen?
    case Reserve => s.phase.Counted?
    case CommitMerge(i) => InStage(s, i, Uncommitted) && TreeFree(s.scan)
    case CommitErase(i) => InStage(s, i, Merged) && ReservedFree(s.scan) && !Waits(s.scan, i)
    case CommitCount(i) => InStage(s, i, Unreserved) && !Waits(s.scan, i)
    case Drop(i) => InStage(s, i, Uncommitted)
    case DeallocReserve(range, offset) =>
      // deallocations are of allocated blocks and pending ones do not overlap
      && ReservedFree(s.scan) && s.block > 0 && IsAligned(range, s.block)
      && range.start < range.end && Bytes(range) <= s.acc
      && forall i :: 0 <= i < |s.ops| && s.ops[i].stage == DeallocReserved ==> !Overlap(s.ops[i].range, range)
    case DeallocCount(i) => InStage(s, i, DeallocReserved) && !Waits(s.scan, i)
    case DeallocMerge(i) => InStage(s, i, DeallocCounted) && TreeFree(s.scan) && !Waits(s.scan, i)
    case FlushTake(limit) => true
    case FlushErase(i) => InStage(s, i, FlushTaken) && ReservedFree(s.scan)
    case FlushCount(i) => InStage(s, i, FlushErased) && !Waits(s.scan, i)
  }

  function SetStage(ops: seq<Op>, i: nat, stage: Stage): seq<Op>
    requires i < |ops|
  {
    ops[i := ops[i].(stage := stage)]
  }

  function TakeAll(ops: seq<Op>): seq<Op>
  {
    seq(|ops|, i requires 0 <= i < |ops| => if ops[i].stage == Dropped then ops[i].(stage := Draining) else ops[i])
  }

  function TakeBelow(ops: seq<Op>, limit: nat, scan: Scan): seq<Op>
  {
    seq(|ops|, i requires 0 <= i < |ops| =>
      if ops[i].stage == Freed && ops[i].offset < limit && !Waits(scan, i)
      then ops[i].(stage := FlushTaken)
      else ops[i])
  }

  function Sub(a: nat, b: nat): nat { if a >= b then a - b else 0 }

  ghost function Next(s: State, step: Step): State
    requires Enabled(s, step)
  {
    match step
    case Lock => s.(phase := Locked)
    case TakeDropped => s.(phase := TakingDropped, ops := TakeAll(s.ops))
    case DrainOne(i) => s.(reserved := s.reserved - {s.ops[i].range}, ops := SetStage(s.ops, i, Done))
    case Drained => s.(phase := Ready)
    case OpenReserved => s.(scan := ReservedOpen(s.reserved, None))
    case OpenTree => s.(scan := BothOpen(s.scan.reserved0, s.scan.reservedBy, s.tree, None))
    case Search(view, range, _) => s.(phase := Chosen(range), scan := Closed)
    case Count => s.(phase := Counted(s.phase.range), uncommitted := s.uncommitted + Len(s.phase.range))
    case Reserve =>
      s.(phase := Idle, reserved := s.reserved + {s.phase.range}, ops := s.ops + [Op(Uncommitted, s.phase.range, 0)])
    case CommitMerge(i) =>
      s.(tree := s.tree + Bytes(s.ops[i].range), ops := SetStage(s.ops, i, Merged), scan := SpliceTree(s.scan, i))
    case CommitErase(i) =>
      s.(reserved := s.reserved - {s.ops[i].range}, ops := SetStage(s.ops, i, Unreserved),
         scan := SpliceReserved(s.scan, i))
    case CommitCount(i) =>
      s.(allocBytes := s.allocBytes + Len(s.ops[i].range), uncommitted := Sub(s.uncommitted, Len(s.ops[i].range)),
         acc := s.acc + Bytes(s.ops[i].range), ops := SetStage(s.ops, i, Done))
    case Drop(i) => s.(uncommitted := Sub(s.uncommitted, Len(s.ops[i].range)), ops := SetStage(s.ops, i, Dropped))
    case DeallocReserve(range, offset) =>
      s.(reserved := s.reserved + {range}, ops := s.ops + [Op(DeallocReserved, range, offset)],
         scan := SpliceReserved(s.scan, |s.ops|))
    case DeallocCount(i) =>
      s.(allocBytes := Sub(s.allocBytes, Len(s.ops[i].range)), deallocated := s.deallocated + Len(s.ops[i].range),
         acc := s.acc - Bytes(s.ops[i].range), ops := SetStage(s.ops, i, DeallocCounted))
    case DeallocMerge(i) =>
      s.(tree := s.tree - Bytes(s.ops[i].range), ops := SetStage(s.ops, i, Freed), scan := SpliceTree(s.scan, i))
    case FlushTake(limit) =>
      s.(ops := TakeBelow(s.ops, limit, s.scan), flushed := if limit > s.flushed then limit else s.flushed)
    case FlushErase(i) =>
      s.(reserved := s.reserved - {s.ops[i].range}, ops := SetStage(s.ops, i, FlushErased),
         scan := SpliceReserved(s.scan, i))
    case FlushCount(i) => s.(deallocated := Sub(s.deallocated, Len(s.ops[i].range)), ops := SetStage(s.ops, i, Done))
  }

  /** A committed deallocation waiting for a device flush. */
  datatype CommittedDeallocation = CommittedDeallocation(offset: nat, range: Range)

  /** The first loop of `did_flush_device`: takes the front of the queue, up to the first entry that
      is not flushed.  As the queue is in log order, these are all the flushed ones. */
  method TakeFlushed(queue: seq<CommittedDeallocation>,
                     limit: nat) returns (taken: seq<CommittedDeallocation>, rest: seq<CommittedDeallocation>)
    requires forall i, j :: 0 <= i < j < |queue| ==> queue[i].offset <= queue[j].offset
    ensures taken + rest == queue
    ensures (forall d :: d in taken ==> d.offset < limit) && (forall d :: d in rest ==> d.offset >= limit)
  {
    var index := 0;
    while index < |queue|
      invariant 0 <= index <= |queue| && forall d :: d in queue[..index] ==> d.offset < limit
    {
      if queue[index].offset >= limit {
        return queue[..index], queue[index..];
      }
      assert queue[..index + 1] == queue[..index] + [queue[index]];
      index := index + 1;
    }
    assert queue[..index] == queue;
    return queue, [];
  }

  // ---- What every reachable state satisfies ----

  /** Total length of the ranges of operations in certain stages. */
  ghost function Sum(ops: seq<Op>, w: Stage -> bool): nat
  {
    if ops == [] then 0
        else Sum(ops[..|ops| - 1], w) + (if w(ops[|ops| - 1].stage) then Len(ops[|ops| - 1].range) else 0)
  }

  lemma {:induction false} SumSet(ops: seq<Op>, i: nat, stage: Stage, w: Stage -> bool)
    requires i < |ops|
    ensures Sum(SetStage(ops, i, stage), w) ==
              Sum(ops, w) - (if w(ops[i].stage) then Len(ops[i].range) else 0) +
                  (if w(stage) then Len(ops[i].range) else 0)
    ensures w(ops[i].stage) ==> Sum(ops, w) >= Len(ops[i].range)
    decreases |ops|
  {
    var n, ops' := |ops| - 1, SetStage(ops, i, stage);
    if i < n {
      SumSet(ops[..n], i, stage, w);
      assert ops'[..n] == SetStage(ops[..n], i, stage);
    } else {
      assert ops'[..n] == ops[..n];
    }
  }

  lemma SumPush(ops: seq<Op>, op: Op, w: Stage -> bool)
    ensures Sum(ops + [op], w) == Sum(ops, w) + (if w(op.stage) then Len(op.range) else 0)
  {
    assert (ops + [op])[..|ops|] == ops;
  }

  lemma {:induction false} SumSame(a: seq<Op>, b: seq<Op>, w: Stage -> bool)
    requires |a| == |b| && forall i :: 0 <= i < |a| ==> a[i].range == b[i].range && w(a[i].stage) == w(b[i].stage)
    ensures Sum(a, w) == Sum(b, w)
    decreases |a|
  {
    if a != [] { SumSame(a[..|a| - 1], b[..|b| - 1], w); }
  }

  /** Ranges in use do not overlap; only deallocations in their first stage lie on counted bytes. */
  ghost predicate OpsOk(ops: seq<Op>, acc: set<nat>, device: nat)
  {
    && (forall b :: b in acc ==> b < device)
    && (forall i :: 0 <= i < |ops| ==> ops[i].range.start < ops[i].range.end <= device)
    && (forall i, j :: 0 <= i < j < |ops| && Holds(ops[i].stage) && Holds(ops[j].stage) ==>
        !Overlap(ops[i].range, ops[j].range))
    && (forall i, b :: 0 <= i < |ops| && Holds(ops[i].stage) && b in Bytes(ops[i].range) ==>
          (b in acc <==> ops[i].stage == DeallocReserved))
  }

  ghost predicate ReservedOk(ops: seq<Op>, reserved: set<Range>)
  {
    forall r :: r in reserved <==> exists i :: 0 <= i < |ops| && InReserved(ops[i].stage) && ops[i].range == r
  }

  ghost predicate TreeOk(ops: seq<Op>, tree: set<nat>, acc: set<nat>)
  {
    forall b: nat :: b in tree <==>
        b in acc || exists i :: 0 <= i < |ops| && InTree(ops[i].stage) && b in Bytes(ops[i].range)
  }

  ghost function PendingLen(phase: Phase): nat { if phase.Counted? then Len(phase.range) else 0 }

  ghost predicate CountersOk(s: State)
  {
    && s.allocBytes == |s.acc|
    && s.uncommitted == Sum(s.ops, IsUncommitted) + PendingLen(s.phase)
    && s.deallocated == Sum(s.ops, IsDeallocated)
  }

  /** The range `allocate` has chosen is free of everything in use. */
  ghost predicate ChosenOk(range: Range, ops: seq<Op>, acc: set<nat>, device: nat)
  {
    && range.start < range.end <= device
    && (forall b :: b in Bytes(range) ==> b !in acc)
    && (forall i :: 0 <= i < |ops| && Holds(ops[i].stage) ==> !Overlap(ops[i].range, range))
  }

  /** From the moment `needs_sync` was false, what is unavailable plus what has been dropped since
      the list was taken stays below the device size. */
  ghost predicate PhaseOk(s: State)
  {
    match s.phase
    case Idle => NoneDraining(s.ops)
    case Locked => NoneDraining(s.ops) && Unavailable(s) < s.device
    case TakingDropped => Unavailable(s) + Sum(s.ops, IsOnList) < s.device
    case Ready => NoneDraining(s.ops) && Unavailable(s) + Sum(s.ops, IsOnList) < s.device
    case Chosen(range) => NoneDraining(s.ops) && ChosenOk(range, s.ops, s.acc, s.device)
    case Counted(range) => NoneDraining(s.ops) && ChosenOk(range, s.ops, s.acc, s.device)
  }

  ghost predicate NoneDraining(ops: seq<Op>) { forall i :: 0 <= i < |ops| ==> ops[i].stage != Draining }

  ghost predicate FlushOk(ops: seq<Op>, flushed: nat)
  {
    forall i :: 0 <= i < |ops| && (ops[i].stage.FlushTaken? || ops[i].stage.FlushErased?) ==> ops[i].offset < flushed
  }

  /** What holds whatever scan is under way. */
  ghost predicate Core(s: State)
  {
    && OpsOk(s.ops, s.acc, s.device) && ReservedOk(s.ops, s.reserved) && TreeOk(s.ops, s.tree, s.acc)
    && CountersOk(s) && PhaseOk(s) && FlushOk(s.ops, s.flushed)
  }

  /** Only the operation that waits separates what the scan found from what is there now. */
  ghost predicate ReservedScanOk(reserved0: set<Range>, waiting: Option<nat>, ops: seq<Op>, reserved: set<Range>)
  {
    match waiting
    case None => reserved0 == reserved
    case Some(i) =>
      && i < |ops|
      && (|| ((ops[i].stage.Unreserved? || ops[i].stage.FlushErased?) && reserved0 == reserved + {ops[i].range})
          || (ops[i].stage.DeallocReserved? && reserved == reserved0 + {ops[i].range}))
  }

  ghost predicate TreeScanOk(tree0: set<nat>, waiting: Option<nat>, ops: seq<Op>, tree: set<nat>)
  {
    match waiting
    case None => tree0 == tree
    case Some(i) =>
      && i < |ops|
      && (|| (ops[i].stage.Merged? && tree == tree0 + Bytes(ops[i].range))
          || (ops[i].stage.Freed? && tree0 == tree + Bytes(ops[i].range)))
  }

  ghost predicate ScanOk(s: State)
  {
    && (!s.scan.Closed? ==> s.phase.Ready? && ReservedScanOk(s.scan.reserved0, s.scan.reservedBy, s.ops, s.reserved))
    && (s.scan.BothOpen? ==> TreeScanOk(s.scan.tree0, s.scan.treeBy, s.ops, s.tree))
  }

  ghost predicate AlignOk(s: State)
  {
    && s.block > 0 && s.device % s.block == 0
    && (forall i :: 0 <= i < |s.ops| ==> IsAligned(s.ops[i].range, s.block))
    && (s.phase.Chosen? || s.phase.Counted? ==> IsAligned(s.phase.range, s.block))
  }

  ghost predicate Inv(s: State) { Core(s) && ScanOk(s) && AlignOk(s) }

  // -- one operation changes its stage --

  lemma NotShared(ops: seq<Op>, acc: set<nat>, device: nat, i: nat, j: nat)
    requires OpsOk(ops, acc, device) && i < |ops| && j < |ops| && i != j && Holds(ops[i].stage) && Holds(ops[j].stage)
    ensures ops[i].range != ops[j].range && Bytes(ops[i].range) !! Bytes(ops[j].range)
  {
    assert !Overlap(ops[i].range, ops[j].range);
    OverlapBytes(ops[i].range, ops[j].range);
  }

  lemma OpsSet(ops: seq<Op>, i: nat, stage: Stage, acc: set<nat>, device: nat)
    requires OpsOk(ops, acc, device) && i < |ops| && (Holds(stage) ==> Holds(ops[i].stage))
    requires stage != DeallocReserved && (Holds(stage) ==> ops[i].stage != DeallocReserved)
    ensures OpsOk(SetStage(ops, i, stage), acc, device)
  {
    hide Bytes;
    var ops' := SetStage(ops, i, stage);
    forall j, b | 0 <= j < |ops'| && Holds(ops'[j].stage) && b in Bytes(ops'[j].range)
      ensures b in acc <==> ops'[j].stage == DeallocReserved
    {
      assert Holds(ops[j].stage) && b in Bytes(ops[j].range);
    }
  }

  lemma ReservedSet(ops: seq<Op>, i: nat, stage: Stage, reserved: set<Range>, acc: set<nat>, device: nat)
    requires OpsOk(ops, acc, device) && ReservedOk(ops, reserved) && i < |ops|
    requires InReserved(stage) ==> InReserved(ops[i].stage)
    ensures ReservedOk(SetStage(ops, i, stage),
                       if InReserved(ops[i].stage) && !InReserved(stage) then reserved - {ops[i].range} else reserved)
  {
    hide Bytes;
    var ops' := SetStage(ops, i, stage);
    var reserved' := if InReserved(ops[i].stage) && !InReserved(stage) then reserved - {ops[i].range} else reserved;
    forall r
      ensures r in reserved' <==> exists j :: 0 <= j < |ops'| && InReserved(ops'[j].stage) && ops'[j].range == r
    {
      if r in reserved' {
        var j :| 0 <= j < |ops| && InReserved(ops[j].stage) && ops[j].range == r;
        assert InReserved(ops'[j].stage) && ops'[j].range == r;
      }
      if j :| 0 <= j < |ops'| && InReserved(ops'[j].stage) && ops'[j].range == r {
        assert InReserved(ops[j].stage) && ops[j].range == r;
        if j != i && InReserved(ops[i].stage) { NotShared(ops, acc, device, i, j); }
      }
    }
  }

  lemma TreeSet(ops: seq<Op>, i: nat, stage: Stage, tree: set<nat>, acc: set<nat>, device: nat)
    requires OpsOk(ops, acc, device) && TreeOk(ops, tree, acc) && i < |ops|
    requires InTree(ops[i].stage) && !InTree(stage) ==> Holds(ops[i].stage)
    ensures TreeOk(SetStage(ops, i, stage),
                   if InTree(stage) then tree + Bytes(ops[i].range)
                       else if InTree(ops[i].stage) then tree - Bytes(ops[i].range) else tree,
                   acc)
  {
    hide Bytes;
    var ops', x := SetStage(ops, i, stage), Bytes(ops[i].range);
    var tree' := if InTree(stage) then tree + x else if InTree(ops[i].stage) then tree - x else tree;
    forall b: nat
      ensures b in tree' <==>
                b in acc || exists j :: 0 <= j < |ops'| && InTree(ops'[j].stage) && b in Bytes(ops'[j].range)
    {
      if b in tree' && b !in acc {
        if b in x && InTree(stage) {
          assert InTree(ops'[i].stage) && b in Bytes(ops'[i].range);
        } else {
          var j :| 0 <= j < |ops| && InTree(ops[j].stage) && b in Bytes(ops[j].range);
          assert InTree(ops'[j].stage) && b in Bytes(ops'[j].range);
        }
      }
      if j :| 0 <= j < |ops'| && InTree(ops'[j].stage) && b in Bytes(ops'[j].range) {
        if j != i {
          assert InTree(ops[j].stage) && b in Bytes(ops[j].range);
          if InTree(ops[i].stage) && !InTree(stage) { NotShared(ops, acc, device, i, j); }
        }
      }
      if b in acc && InTree(ops[i].stage) && b in x { assert ops[i].stage == DeallocReserved; }
    }
  }

  lemma ChosenSet(range: Range, ops: seq<Op>, i: nat, stage: Stage, acc: set<nat>, device: nat)
    requires ChosenOk(range, ops, acc, device) && i < |ops| && (Holds(stage) ==> Holds(ops[i].stage))
    ensures ChosenOk(range, SetStage(ops, i, stage), acc, device)
  {
  }

  /** All consequences of a stage change that leaves `acc` alone. */
  lemma StageOk(s: State, i: nat, stage: Stage)
    requires Core(s) && i < |s.ops| && (Holds(stage) ==> Holds(s.ops[i].stage))
    requires stage != DeallocReserved && (Holds(stage) ==> s.ops[i].stage != DeallocReserved)
    requires InReserved(stage) ==> InReserved(s.ops[i].stage)
    requires InTree(s.ops[i].stage) && !InTree(stage) ==> Holds(s.ops[i].stage)
    requires stage.FlushTaken? || stage.FlushErased? ==> s.ops[i].offset < s.flushed
    ensures var ops', was := SetStage(s.ops, i, stage), s.ops[i].stage;
            && OpsOk(ops', s.acc, s.device) && FlushOk(ops', s.flushed)
            && ReservedOk(ops', if InReserved(was) && !InReserved(stage)
                          then s.reserved - {s.ops[i].range} else s.reserved)
            && TreeOk(ops', if InTree(stage) then s.tree + Bytes(s.ops[i].range)
                            else if InTree(was) then s.tree - Bytes(s.ops[i].range) else s.tree, s.acc)
            && (s.phase.Chosen? || s.phase.Counted? ==> ChosenOk(s.phase.range, ops', s.acc, s.device))
  {
    hide Bytes, Sum;
    OpsSet(s.ops, i, stage, s.acc, s.device);
    ReservedSet(s.ops, i, stage, s.reserved, s.acc, s.device);
    TreeSet(s.ops, i, stage, s.tree, s.acc, s.device);
    if s.phase.Chosen? || s.phase.Counted? { ChosenSet(s.phase.range, s.ops, i, stage, s.acc, s.device); }
  }

  lemma SumsSet(ops: seq<Op>, i: nat, stage: Stage)
    requires i < |ops|
    ensures var ops', l, was := SetStage(ops, i, stage), Len(ops[i].range), ops[i].stage;
            && Sum(ops', IsUncommitted) == Sum(ops, IsUncommitted) - (if IsUncommitted(was) then l else 0) +
                (if IsUncommitted(stage) then l else 0)
            && Sum(ops', IsDeallocated) == Sum(ops, IsDeallocated) - (if IsDeallocated(was) then l else 0) +
                (if IsDeallocated(stage) then l else 0)
            && Sum(ops', IsOnList) == Sum(ops, IsOnList) - (if IsOnList(was) then l else 0) +
                (if IsOnList(stage) then l else 0)
            && (IsUncommitted(was) ==> Sum(ops, IsUncommitted) >= l)
            && (IsDeallocated(was) ==> Sum(ops, IsDeallocated) >= l)
  {
    SumSet(ops, i, stage, IsUncommitted);
    SumSet(ops, i, stage, IsDeallocated);
    SumSet(ops, i, stage, IsOnList);
  }

  lemma TreeHasOp(s: State, i: nat)
    requires Core(s) && i < |s.ops| && InTree(s.ops[i].stage)
    ensures s.tree + Bytes(s.ops[i].range) == s.tree
  {
    hide Bytes, Sum;
  }

  function StageAfter(step: Step): Stage
  {
    match step
    case CommitMerge(_) => Merged
    case CommitErase(_) => Unreserved
    case Drop(_) => Dropped
    case DeallocMerge(_) => Freed
    case FlushErase(_) => FlushErased
    case _ => Done
  }

  /** Steps that move one operation on without touching what is counted as allocated: those of a
      commit, */
  lemma CommitMoveOk(s: State, step: Step)
    requires Core(s) && Enabled(s, step) && (step.CommitMerge? || step.CommitErase? || step.Drop?)
    ensures Core(Next(s, step))
  {
    hide Bytes, Sum, OpsOk, ReservedOk, TreeOk, ChosenOk;
    var i := step.i;
    StageOk(s, i, StageAfter(step));
    SumsSet(s.ops, i, StageAfter(step));
    if step.CommitErase? { TreeHasOp(s, i); }
  }

  /** and those that free space. */
  lemma FreeMoveOk(s: State, step: Step)
    requires Core(s) && Enabled(s, step)
    requires (step.DrainOne? || step.DeallocMerge? || step.FlushErase? || step.FlushCount?)
    ensures Core(Next(s, step))
  {
    hide Bytes, Sum, OpsOk, ReservedOk, TreeOk, ChosenOk;
    var i := step.i;
    StageOk(s, i, StageAfter(step));
    SumsSet(s.ops, i, StageAfter(step));
  }

  lemma CommitCountOk(s: State, i: nat)
    requires Core(s) && Enabled(s, CommitCount(i))
    ensures Core(Next(s, CommitCount(i)))
  {
    hide Sum, Bytes, OpsOk, ReservedOk, TreeOk, ChosenOk;
    SumsSet(s.ops, i, Done);
    OpOnAcc(s.ops, i, s.acc, s.device);
    BytesCount(s.ops[i].range);
    CountedOps(s.ops, i, s.acc, s.device);
    CountedTree(s.ops, i, s.tree, s.acc, s.device);
    ReservedSet(s.ops, i, Done, s.reserved, s.acc, s.device);
    OpSize(s.ops, i, s.acc, s.device);
    if s.phase.Chosen? || s.phase.Counted? { ChosenCounted(s.phase.range, s.ops, i, s.acc, s.device); }
  }

  lemma OpOnAcc(ops: seq<Op>, i: nat, acc: set<nat>, device: nat)
    requires OpsOk(ops, acc, device) && i < |ops| && Holds(ops[i].stage)
    ensures if ops[i].stage == DeallocReserved then Bytes(ops[i].range) <= acc else Bytes(ops[i].range) !! acc
  {
  }

  lemma OpSize(ops: seq<Op>, i: nat, acc: set<nat>, device: nat)
    requires OpsOk(ops, acc, device) && i < |ops|
    ensures ops[i].range.start < ops[i].range.end <= device
  {
  }

  lemma ChosenCounted(range: Range, ops: seq<Op>, i: nat, acc: set<nat>, device: nat)
    requires ChosenOk(range, ops, acc, device) && i < |ops| && Holds(ops[i].stage)
    requires ops[i].range.start < ops[i].range.end
    ensures ChosenOk(range, SetStage(ops, i, Done), acc + Bytes(ops[i].range), device)
  {
    assert !Overlap(ops[i].range, range);
    OverlapBytes(ops[i].range, range);
  }

  lemma ChosenUncounted(range: Range, ops: seq<Op>, i: nat, acc: set<nat>, device: nat)
    requires ChosenOk(range, ops, acc, device) && i < |ops| && Holds(ops[i].stage)
    ensures ChosenOk(range, SetStage(ops, i, DeallocCounted), acc - Bytes(ops[i].range), device)
  {
  }

  lemma CountedOps(ops: seq<Op>, i: nat, acc: set<nat>, device: nat)
    requires OpsOk(ops, acc, device) && i < |ops| && ops[i].stage == Unreserved
    ensures OpsOk(SetStage(ops, i, Done), acc + Bytes(ops[i].range), device)
  {
    var ops', acc' := SetStage(ops, i, Done), acc + Bytes(ops[i].range);
    forall j, b | 0 <= j < |ops'| && Holds(ops'[j].stage) && b in Bytes(ops'[j].range)
      ensures b in acc' <==> ops'[j].stage == DeallocReserved
    {
      assert j != i && Holds(ops[j].stage) && b in Bytes(ops[j].range);
      NotShared(ops, acc, device, i, j);
    }
  }

  lemma CountedTree(ops: seq<Op>, i: nat, tree: set<nat>, acc: set<nat>, device: nat)
    requires TreeOk(ops, tree, acc) && i < |ops| && ops[i].stage == Unreserved
    ensures TreeOk(SetStage(ops, i, Done), tree, acc + Bytes(ops[i].range))
  {
    hide Bytes;
    var ops', acc' := SetStage(ops, i, Done), acc + Bytes(ops[i].range);
    forall b: nat
      ensures b in tree <==>
                b in acc' || exists j :: 0 <= j < |ops'| && InTree(ops'[j].stage) && b in Bytes(ops'[j].range)
    {
      if b in tree && b !in acc' {
        var j :| 0 <= j < |ops| && InTree(ops[j].stage) && b in Bytes(ops[j].range);
        assert InTree(ops'[j].stage) && b in Bytes(ops'[j].range);
      }
      if j :| 0 <= j < |ops'| && InTree(ops'[j].stage) && b in Bytes(ops'[j].range) {
        assert InTree(ops[j].stage) && b in Bytes(ops[j].range);
      }
    }
  }

  lemma DeallocCountOk(s: State, i: nat)
    requires Core(s) && Enabled(s, DeallocCount(i))
    ensures Core(Next(s, DeallocCount(i)))
  {
    hide Sum, Bytes, OpsOk, ReservedOk, TreeOk, ChosenOk;
    var x := Bytes(s.ops[i].range);
    SumsSet(s.ops, i, DeallocCounted);
    OpOnAcc(s.ops, i, s.acc, s.device);
    BytesCount(s.ops[i].range);
    MinusCount(s.acc, x);
    UncountedOps(s.ops, i, s.acc, s.device);
    UncountedTree(s.ops, i, s.tree, s.acc, s.device);
    ReservedSet(s.ops, i, DeallocCounted, s.reserved, s.acc, s.device);
    if s.phase.Chosen? || s.phase.Counted? { ChosenUncounted(s.phase.range, s.ops, i, s.acc, s.device); }
  }

  lemma MinusCount(acc: set<nat>, x: set<nat>)
    requires x <= acc
    ensures |acc| >= |x| && |acc - x| == |acc| - |x|
  {
    assert acc == (acc - x) + x;
  }

  lemma UncountedOps(ops: seq<Op>, i: nat, acc: set<nat>, device: nat)
    requires OpsOk(ops, acc, device) && i < |ops| && ops[i].stage == DeallocReserved
    ensures OpsOk(SetStage(ops, i, DeallocCounted), acc - Bytes(ops[i].range), device)
  {
    var ops', acc' := SetStage(ops, i, DeallocCounted), acc - Bytes(ops[i].range);
    forall j, b | 0 <= j < |ops'| && Holds(ops'[j].stage) && b in Bytes(ops'[j].range)
      ensures b in acc' <==> ops'[j].stage == DeallocReserved
    {
      if j != i {
        assert Holds(ops[j].stage) && b in Bytes(ops[j].range);
        NotShared(ops, acc, device, i, j);
      }
    }
  }

  lemma UncountedTree(ops: seq<Op>, i: nat, tree: set<nat>, acc: set<nat>, device: nat)
    requires TreeOk(ops, tree, acc) && i < |ops| && ops[i].stage == DeallocReserved && Bytes(ops[i].range) <= acc
    ensures TreeOk(SetStage(ops, i, DeallocCounted), tree, acc - Bytes(ops[i].range))
  {
    hide Bytes;
    var ops', acc' := SetStage(ops, i, DeallocCounted), acc - Bytes(ops[i].range);
    forall b: nat
      ensures b in tree <==>
                b in acc' || exists j :: 0 <= j < |ops'| && InTree(ops'[j].stage) && b in Bytes(ops'[j].range)
    {
      if b in tree && b !in acc' {
        if b in Bytes(ops[i].range) {
          assert InTree(ops'[i].stage) && b in Bytes(ops'[i].range);
        } else {
          var j :| 0 <= j < |ops| && InTree(ops[j].stage) && b in Bytes(ops[j].range);
          assert InTree(ops'[j].stage) && b in Bytes(ops'[j].range);
        }
      }
      if j :| 0 <= j < |ops'| && InTree(ops'[j].stage) && b in Bytes(ops'[j].range) {
        if j != i { assert InTree(ops[j].stage) && b in Bytes(ops[j].range); }
      }
    }
  }

  /** Operations that change stage together without any change of what they hold. */
  lemma BulkOk(s: State, ops': seq<Op>)
    requires Core(s) && |ops'| == |s.ops|
    requires forall i :: 0 <= i < |ops'| ==>
               && ops'[i].range == s.ops[i].range
               && (|| ops'[i].stage == s.ops[i].stage
                   || (s.ops[i].stage == Dropped && ops'[i].stage == Draining)
                   || (s.ops[i].stage == Freed && ops'[i].stage == FlushTaken))
    ensures OpsOk(ops', s.acc, s.device) && ReservedOk(ops', s.reserved) && TreeOk(ops', s.tree, s.acc)
    ensures Sum(ops', IsUncommitted) == Sum(s.ops, IsUncommitted)
    ensures Sum(ops', IsDeallocated) == Sum(s.ops, IsDeallocated)
    ensures s.phase.Chosen? || s.phase.Counted? ==> ChosenOk(s.phase.range, ops', s.acc, s.device)
  {
    hide Sum, Bytes, Overlap;
    var ops := s.ops;
    forall i | 0 <= i < |ops|
      ensures Holds(ops'[i].stage) == Holds(ops[i].stage) && InReserved(ops'[i].stage) == InReserved(ops[i].stage)
      ensures InTree(ops'[i].stage) == InTree(ops[i].stage)
      ensures (ops'[i].stage == DeallocReserved <==> ops[i].stage == DeallocReserved)
      ensures IsUncommitted(ops'[i].stage) == IsUncommitted(ops[i].stage)
      ensures IsDeallocated(ops'[i].stage) == IsDeallocated(ops[i].stage)
    { }
    SumSame(ops', ops, IsUncommitted);
    SumSame(ops', ops, IsDeallocated);
    forall r
      ensures r in s.reserved <==> exists j :: 0 <= j < |ops'| && InReserved(ops'[j].stage) && ops'[j].range == r
    {
      if j :| 0 <= j < |ops| && InReserved(ops[j].stage) && ops[j].range == r {
        assert InReserved(ops'[j].stage) && ops'[j].range == r;
      }
      if j :| 0 <= j < |ops'| && InReserved(ops'[j].stage) && ops'[j].range == r {
        assert InReserved(ops[j].stage) && ops[j].range == r;
      }
    }
    forall b: nat
      ensures b in s.tree <==>
                b in s.acc || exists j :: 0 <= j < |ops'| && InTree(ops'[j].stage) && b in Bytes(ops'[j].range)
    {
      if j :| 0 <= j < |ops| && InTree(ops[j].stage) && b in Bytes(ops[j].range) {
        assert InTree(ops'[j].stage) && b in Bytes(ops'[j].range);
      }
      if j :| 0 <= j < |ops'| && InTree(ops'[j].stage) && b in Bytes(ops'[j].range) {
        assert InTree(ops[j].stage) && b in Bytes(ops[j].range);
      }
    }
    forall j, b | 0 <= j < |ops'| && Holds(ops'[j].stage) && b in Bytes(ops'[j].range)
      ensures b in s.acc <==> ops'[j].stage == DeallocReserved
    {
      assert Holds(ops[j].stage) && b in Bytes(ops[j].range);
    }
  }

  lemma TakeDroppedOk(s: State)
    requires Core(s) && Enabled(s, TakeDropped)
    ensures Core(Next(s, TakeDropped))
  {
    hide Sum, Bytes, Overlap;
    BulkOk(s, TakeAll(s.ops));
    NoneOnList(TakeAll(s.ops));
  }

  lemma {:induction false} NoneOnList(ops: seq<Op>)
    requires forall i :: 0 <= i < |ops| ==> ops[i].stage != Dropped
    ensures Sum(ops, IsOnList) == 0
    decreases |ops|
  {
    if ops != [] { NoneOnList(ops[..|ops| - 1]); }
  }

  lemma FlushTakeOk(s: State, limit: nat)
    requires Core(s)
    ensures Core(Next(s, FlushTake(limit)))
  {
    hide Sum, Bytes, Overlap;
    var ops' := TakeBelow(s.ops, limit, s.scan);
    BulkOk(s, ops');
    SumSame(ops', s.ops, IsOnList);
  }

  // -- a new operation --

  lemma PushOk(s: State, op: Op)
    requires Core(s) && op.range.start < op.range.end <= s.device && InReserved(op.stage) && !InTree(op.stage)
    requires forall i :: 0 <= i < |s.ops| && Holds(s.ops[i].stage) ==> !Overlap(s.ops[i].range, op.range)
    requires forall b :: b in Bytes(op.range) ==> (b in s.acc <==> op.stage == DeallocReserved)
    requires !op.stage.FlushTaken?
    ensures OpsOk(s.ops + [op], s.acc, s.device) && ReservedOk(s.ops + [op], s.reserved + {op.range})
    ensures TreeOk(s.ops + [op], s.tree, s.acc) && FlushOk(s.ops + [op], s.flushed)
  {
    hide Sum, Bytes, ChosenOk;
    var ops, ops' := s.ops, s.ops + [op];
    forall r
      ensures r in s.reserved + {op.range} <==>
                exists j :: 0 <= j < |ops'| && InReserved(ops'[j].stage) && ops'[j].range == r
    {
      if j :| 0 <= j < |ops| && InReserved(ops[j].stage) && ops[j].range == r {
        assert InReserved(ops'[j].stage) && ops'[j].range == r;
      }
      if r == op.range { assert InReserved(ops'[|ops|].stage) && ops'[|ops|].range == r; }
      if j :| 0 <= j < |ops'| && InReserved(ops'[j].stage) && ops'[j].range == r {
        if j < |ops| { assert InReserved(ops[j].stage) && ops[j].range == r; }
      }
    }
    forall b: nat
      ensures b in s.tree <==>
                b in s.acc || exists j :: 0 <= j < |ops'| && InTree(ops'[j].stage) && b in Bytes(ops'[j].range)
    {
      if j :| 0 <= j < |ops| && InTree(ops[j].stage) && b in Bytes(ops[j].range) {
        assert InTree(ops'[j].stage) && b in Bytes(ops'[j].range);
      }
      if j :| 0 <= j < |ops'| && InTree(ops'[j].stage) && b in Bytes(ops'[j].range) {
        assert InTree(ops[j].stage) && b in Bytes(ops[j].range);
      }
    }
    forall j, b | 0 <= j < |ops'| && Holds(ops'[j].stage) && b in Bytes(ops'[j].range)
      ensures b in s.acc <==> ops'[j].stage == DeallocReserved
    {
      if j < |ops| { assert Holds(ops[j].stage) && b in Bytes(ops[j].range); }
    }
  }

  lemma ReserveOk(s: State)
    requires Core(s) && Enabled(s, Reserve)
    ensures Core(Next(s, Reserve))
  {
    hide Sum, Bytes, OpsOk, ReservedOk, TreeOk;
    var op := Op(Uncommitted, s.phase.range, 0);
    PushOk(s, op);
    SumPush(s.ops, op, IsUncommitted);
    SumPush(s.ops, op, IsDeallocated);
  }

  lemma DeallocReserveOk(s: State, range: Range, offset: nat)
    requires Core(s) && Enabled(s, DeallocReserve(range, offset))
    ensures Core(Next(s, DeallocReserve(range, offset)))
  {
    hide Sum, ReservedOk, TreeOk;
    var op := Op(DeallocReserved, range, offset);
    forall i | 0 <= i < |s.ops| && Holds(s.ops[i].stage) ensures !Overlap(s.ops[i].range, range) {
      OpOnAcc(s.ops, i, s.acc, s.device);
      OverlapBytes(s.ops[i].range, range);
    }
    assert range.end - 1 in Bytes(range);
    PushOk(s, op);
    SumPush(s.ops, op, IsUncommitted);
    SumPush(s.ops, op, IsDeallocated);
    SumPush(s.ops, op, IsOnList);
    if s.phase.Chosen? || s.phase.Counted? { ChosenApart(s.phase.range, s.acc, range); }
  }

  lemma ChosenApart(chosen: Range, acc: set<nat>, range: Range)
    requires chosen.start < chosen.end && range.start < range.end && Bytes(range) <= acc
    requires forall b :: b in Bytes(chosen) ==> b !in acc
    ensures !Overlap(range, chosen)
  {
    OverlapBytes(range, chosen);
  }

  // -- the search --

  /** A byte of the tree that does not belong to a commit waiting for the scan was there before. */
  lemma TreeSeen(s: State, b: nat)
    requires ScanOk(s) && s.scan.BothOpen? && b in s.tree
    requires forall k: nat :: WaitsTree(s.scan, k) && k < |s.ops| && s.ops[k].stage.Merged? ==>
             b !in Bytes(s.ops[k].range)
    ensures b in s.scan.tree0
  {
    hide Bytes;
  }

  lemma ReservedSeen(s: State, r: Range)
    requires ScanOk(s) && s.scan.BothOpen? && r in s.reserved
    requires forall i: nat :: WaitsReserved(s.scan, i) && i < |s.ops| && s.ops[i].stage.DeallocReserved? ==>
             r != s.ops[i].range
    ensures r in s.scan.reserved0
  {
    hide Bytes;
  }

  lemma AccSeen(s: State, before: (bool, bool))
    requires Core(s) && ScanOk(s) && s.scan.BothOpen?
    ensures s.acc <= Seen(s, before)
  {
    hide Sum, Bytes, Overlap, PhaseOk, CountersOk;
    forall b | b in s.acc ensures b in s.tree && b in s.scan.tree0 {
      forall k: nat | WaitsTree(s.scan, k) && k < |s.ops| && s.ops[k].stage.Merged?
        ensures b !in Bytes(s.ops[k].range)
      {
        OpOnAcc(s.ops, k, s.acc, s.device);
      }
      TreeSeen(s, b);
    }
  }

  /** Whatever the scan sees of each list, it sees everything that is in use: an operation that would
      take a range out of its sight waits for the scan before it goes on. */
  lemma OpSeen(s: State, before: (bool, bool), j: nat)
    requires Core(s) && ScanOk(s) && s.scan.BothOpen? && j < |s.ops| && Holds(s.ops[j].stage)
    ensures Bytes(s.ops[j].range) <= Seen(s, before)
  {
    hide Sum, Bytes, Overlap, PhaseOk, CountersOk, FlushOk, ReservedScanOk, TreeScanOk;
    var op := s.ops[j];
    if op.stage.DeallocReserved? {
      OpOnAcc(s.ops, j, s.acc, s.device);
      AccSeen(s, before);
    } else if op.stage.Unreserved? {
      forall b | b in Bytes(op.range) ensures b in s.tree && b in s.scan.tree0 {
        assert InTree(op.stage);
        forall k: nat | WaitsTree(s.scan, k) && k < |s.ops| && s.ops[k].stage.Merged?
          ensures b !in Bytes(s.ops[k].range)
        {
          NotShared(s.ops, s.acc, s.device, j, k);
        }
        TreeSeen(s, b);
      }
    } else {
      assert InReserved(op.stage) && op.range in s.reserved;
      forall i: nat | WaitsReserved(s.scan, i) && i < |s.ops| && s.ops[i].stage.DeallocReserved?
        ensures op.range != s.ops[i].range
      {
        NotShared(s.ops, s.acc, s.device, i, j);
      }
      ReservedSeen(s, op.range);
      ReservedHas(s.reserved, op.range);
      ReservedHas(s.scan.reserved0, op.range);
    }
  }

  lemma ReservedHas(rs: set<Range>, r: Range)
    requires r in rs
    ensures Bytes(r) <= ReservedBytes(rs)
  {
  }

  lemma SearchCore(s: State, view: seq<Range>, range: Range, before: (bool, bool))
    requires Core(s) && ScanOk(s) && Enabled(s, Search(view, range, before))
    ensures ChosenOk(range, s.ops, s.acc, s.device)
  {
    hide Sum, Seen, Bytes, ReservedOk, TreeOk, PhaseOk, CountersOk, ScanOk;
    AccSeen(s, before);
    forall i | 0 <= i < |s.ops| && Holds(s.ops[i].stage) ensures !Overlap(s.ops[i].range, range) {
      OpSeen(s, before, i);
      OverlapBytes(s.ops[i].range, range);
    }
  }

  /** The part of `Inv` without the scan. */
  lemma CoreStep(s: State, step: Step)
    requires Core(s) && ScanOk(s) && Enabled(s, step)
    ensures Core(Next(s, step))
  {
    hide ScanOk;
    match step
    case TakeDropped => TakeDroppedOk(s);
    case Search(view, range, before) => SearchOk(s, view, range, before);
    case Reserve => ReserveOk(s);
    case CommitCount(i) => CommitCountOk(s, i);
    case DeallocReserve(range, offset) => DeallocReserveOk(s, range, offset);
    case DeallocCount(i) => DeallocCountOk(s, i);
    case FlushTake(limit) => FlushTakeOk(s, limit);
    case Lock => QuietOk(s, step);
    case Drained => QuietOk(s, step);
    case Count => QuietOk(s, step);
    case OpenReserved => QuietOk(s, step);
    case OpenTree => QuietOk(s, step);
    case CommitMerge(_) => CommitMoveOk(s, step);
    case CommitErase(_) => CommitMoveOk(s, step);
    case Drop(_) => CommitMoveOk(s, step);
    case _ => FreeMoveOk(s, step);
  }

  lemma SearchOk(s: State, view: seq<Range>, range: Range, before: (bool, bool))
    requires Core(s) && ScanOk(s) && Enabled(s, Search(view, range, before))
    ensures Core(Next(s, Search(view, range, before)))
  {
    SearchCore(s, view, range, before);
    hide Sum, Bytes, OpsOk, ReservedOk, TreeOk, ChosenOk, ScanOk, Seen;
  }

  lemma QuietOk(s: State, step: Step)
    requires Core(s) && Enabled(s, step)
    requires (step.Lock? || step.Drained? || step.Count? || step.OpenReserved? || step.OpenTree?)
    ensures Core(Next(s, step))
  {
    hide Sum, Bytes, OpsOk, ReservedOk, TreeOk, ChosenOk;
  }

  /** Steps that change neither list leave the operation that waits where it is. */
  lemma ScanKept(s: State, s': State)
    requires ScanOk(s) && s'.scan == s.scan && s'.reserved == s.reserved && s'.tree == s.tree
    requires (s.scan.Closed? || s'.phase == s.phase)
    requires forall i :: 0 <= i < |s.ops| && Waits(s.scan, i) ==> i < |s'.ops| && s'.ops[i] == s.ops[i]
    ensures ScanOk(s')
  {
    hide Bytes;
  }

  lemma ScanReserved(s: State, s': State, i: nat)
    requires ScanOk(s) && ReservedFree(s.scan) && s'.scan == SpliceReserved(s.scan, i) && s'.phase == s.phase
    requires s'.tree == s.tree
    requires i < |s'.ops| && !WaitsTree(s.scan, i)
    requires forall k :: 0 <= k < |s.ops| && WaitsTree(s.scan, k) ==> k < |s'.ops| && s'.ops[k] == s.ops[k]
    requires || ((s'.ops[i].stage.Unreserved? || s'.ops[i].stage.FlushErased?) &&
                 s.reserved == s'.reserved + {s'.ops[i].range})
             || (s'.ops[i].stage.DeallocReserved? && s'.reserved == s.reserved + {s'.ops[i].range})
    ensures ScanOk(s')
  {
    hide Bytes;
  }

  lemma ScanTree(s: State, s': State, i: nat)
    requires ScanOk(s) && TreeFree(s.scan) && s'.scan == SpliceTree(s.scan, i) && s'.phase == s.phase
    requires s'.reserved == s.reserved
    requires i < |s'.ops| && !WaitsReserved(s.scan, i)
    requires forall k :: 0 <= k < |s.ops| && WaitsReserved(s.scan, k) ==> k < |s'.ops| && s'.ops[k] == s.ops[k]
    requires || (s'.ops[i].stage.Merged? && s'.tree == s.tree + Bytes(s'.ops[i].range))
             || (s'.ops[i].stage.Freed? && s.tree == s'.tree + Bytes(s'.ops[i].range))
    ensures ScanOk(s')
  {
    hide Bytes;
  }

  lemma ScanStep(s: State, step: Step)
    requires Core(s) && ScanOk(s) && Enabled(s, step)
    ensures ScanOk(Next(s, step))
  {
    hide Bytes, OpsOk, CountersOk, FlushOk, PhaseOk, Sum, TreeOk, ReservedOk, Shows, Seen, Core;
    var s' := Next(s, step);
    match step
    case CommitErase(i) => ReservedIn(s, i); ScanReserved(s, s', i);
    case FlushErase(i) => ReservedIn(s, i); ScanReserved(s, s', i);
    case DeallocReserve(_, _) => ScanReserved(s, s', |s.ops|);
    case CommitMerge(i) => ScanTree(s, s', i);
    case DeallocMerge(i) => TreeIn(s, i); ScanTree(s, s', i);
    case OpenReserved =>
    case OpenTree =>
    case Search(_, _, _) =>
    case DrainOne(_) =>
    case Reserve =>
    case _ => ScanKept(s, s');
  }

  lemma ReservedIn(s: State, i: nat)
    requires Core(s) && i < |s.ops| && InReserved(s.ops[i].stage)
    ensures s.ops[i].range in s.reserved
  {
    hide Bytes, OpsOk, CountersOk, FlushOk, PhaseOk, TreeOk;
  }

  lemma TreeIn(s: State, i: nat)
    requires Core(s) && i < |s.ops| && InTree(s.ops[i].stage)
    ensures Bytes(s.ops[i].range) <= s.tree
  {
    hide Bytes, OpsOk, CountersOk, FlushOk, PhaseOk, ReservedOk;
  }

  lemma AlignStep(s: State, step: Step)
    requires AlignOk(s) && Enabled(s, step)
    ensures AlignOk(Next(s, step))
  {
    hide Bytes, Shows, Seen;
  }

  lemma StepOk(s: State, step: Step)
    requires Inv(s) && Enabled(s, step)
    ensures Inv(Next(s, step))
  {
    hide Core, ScanOk, AlignOk, Enabled, Next;
    CoreStep(s, step);
    ScanStep(s, step);
    AlignStep(s, step);
  }

  // ---- Counting ----

  ghost function Union(ops: seq<Op>, w: Stage -> bool): set<nat>
  {
    if ops == [] then {}
    else Union(ops[..|ops| - 1], w) + (if w(ops[|ops| - 1].stage) then Bytes(ops[|ops| - 1].range) else {})
  }

  lemma {:induction false} UnionBound(ops: seq<Op>, w: Stage -> bool)
    ensures |Union(ops, w)| <= Sum(ops, w)
    decreases |ops|
  {
    if ops != [] {
      var last := ops[|ops| - 1];
      UnionBound(ops[..|ops| - 1], w);
      BytesCount(last.range);
    }
  }

  lemma {:induction false} UnionHas(ops: seq<Op>, w: Stage -> bool, i: nat)
    requires i < |ops| && w(ops[i].stage)
    ensures Bytes(ops[i].range) <= Union(ops, w)
    decreases |ops|
  {
    hide Bytes;
    if i < |ops| - 1 { UnionHas(ops[..|ops| - 1], w, i); }
  }

  predicate IsLeftOver(s: Stage) { s.Dropped? || s.Draining? }

  ghost function Countable(s: State): set<nat>
  {
    s.acc + Union(s.ops, IsUncommitted) + Union(s.ops, IsDeallocated) + Union(s.ops, IsLeftOver)
  }

  lemma CountableOp(s: State, i: nat)
    requires Core(s) && i < |s.ops| && !s.ops[i].stage.Done?
    ensures Bytes(s.ops[i].range) <= Countable(s)
  {
    hide Sum, Union, Bytes, Overlap, PhaseOk, CountersOk, TreeOk, ReservedOk;
    if s.ops[i].stage.DeallocReserved? { OpOnAcc(s.ops, i, s.acc, s.device); }
    else if IsUncommitted(s.ops[i].stage) { UnionHas(s.ops, IsUncommitted, i); }
    else if IsDeallocated(s.ops[i].stage) { UnionHas(s.ops, IsDeallocated, i); }
    else { UnionHas(s.ops, IsLeftOver, i); }
  }

  lemma CoverInside(s: State)
    requires Core(s)
    ensures Cover(s) <= Countable(s)
  {
    hide Sum, Union, Bytes, Overlap, PhaseOk, CountersOk, Countable;
    forall b | b in Cover(s) ensures b in Countable(s) {
      if b in s.acc {
        assert s.acc <= Countable(s) by { AccCountable(s); }
      } else {
        var i: nat :| i < |s.ops| && (InTree(s.ops[i].stage) || InReserved(s.ops[i].stage)) &&
            b in Bytes(s.ops[i].range);
        CountableOp(s, i);
      }
    }
  }

  lemma AccCountable(s: State)
    ensures s.acc <= Countable(s)
  {
  }

  lemma SeenInside(s: State, before: (bool, bool))
    requires Core(s) && ScanOk(s) && s.scan.BothOpen?
    ensures Seen(s, before) <= Countable(s)
  {
    hide Sum, Union, Bytes, Overlap, PhaseOk, CountersOk, Countable, OpsOk, TreeOk, ReservedOk, Core;
    CoverInside(s);
    assert s.tree <= Countable(s) && ReservedBytes(s.reserved) <= Countable(s);
    if s.scan.reservedBy.Some? { CountableOp(s, s.scan.reservedBy.value); }
    if s.scan.treeBy.Some? { CountableOp(s, s.scan.treeBy.value); }
    forall b | b in s.scan.tree0 ensures b in Countable(s) {
      if b !in s.tree { assert b in Bytes(s.ops[s.scan.treeBy.value].range); }
    }
    forall b | b in ReservedBytes(s.scan.reserved0) ensures b in Countable(s) {
      var r :| r in s.scan.reserved0 && b in Bytes(r);
      if r in s.reserved { assert b in ReservedBytes(s.reserved); } else {
        assert r == s.ops[s.scan.reservedBy.value].range;
      }
    }
  }

  lemma CountableBound(s: State, c: set<nat>)
    requires Core(s) && c <= Countable(s)
    ensures |c| <= Unavailable(s) + Sum(s.ops, IsLeftOver)
  {
    hide Sum, Union, Bytes, ReservedBytes, Overlap, OpsOk, TreeOk, ReservedOk;
    var u, d, l := Union(s.ops, IsUncommitted), Union(s.ops, IsDeallocated), Union(s.ops, IsLeftOver);
    UnionBound(s.ops, IsUncommitted);
    UnionBound(s.ops, IsDeallocated);
    UnionBound(s.ops, IsLeftOver);
    SetBound(c, s.acc, u, d, l);
  }

  /** What the lists have as taken, and what a scan sees of them, is bounded by the counters and the
      dropped allocations not yet removed from `reserved_allocations`. */
  lemma CoverBound(s: State)
    requires Inv(s)
    ensures |Cover(s)| <= Unavailable(s) + Sum(s.ops, IsLeftOver)
    ensures s.scan.BothOpen? ==> forall before :: |Seen(s, before)| <= Unavailable(s) + Sum(s.ops, IsLeftOver)
  {
    hide Core, ScanOk, Cover, Seen, Countable, Sum;
    CoverInside(s);
    CountableBound(s, Cover(s));
    if s.scan.BothOpen? {
      forall before ensures |Seen(s, before)| <= Unavailable(s) + Sum(s.ops, IsLeftOver) {
        SeenInside(s, before);
        CountableBound(s, Seen(s, before));
      }
    }
  }

  lemma SetBound(c: set<nat>, a: set<nat>, u: set<nat>, d: set<nat>, l: set<nat>)
    requires c <= a + u + d + l
    ensures |c| <= |a| + |u| + |d| + |l|
  {
    SubsetCount(c, a + u + d + l);
  }

  lemma {:induction false} SubsetCount(a: set<nat>, b: set<nat>)
    requires a <= b
    ensures |a| <= |b|
    decreases |a|
  {
    if a != {} {
      var x :| x in a;
      SubsetCount(a - {x}, b - {x});
    }
  }

  /** When `allocate` searches, having found `needs_sync` false and drained the dropped allocations,
      there is a byte that its scan sees as free. */
  lemma SearchFindsSpace(s: State, before: (bool, bool))
    requires Inv(s) && s.phase.Ready? && s.scan.BothOpen?
    ensures exists b: nat :: b < s.device && b !in Seen(s, before)
  {
    hide Seen, Sum, OpsOk, ReservedOk, TreeOk, ScanOk;
    CoverBound(s);
    SumWeaker(s.ops);
    FreeByte(Seen(s, before), s.device);
  }

  lemma {:induction false} SumWeaker(ops: seq<Op>)
    requires NoneDraining(ops)
    ensures Sum(ops, IsLeftOver) == Sum(ops, IsOnList)
  {
    SumEqual(ops, IsLeftOver, IsOnList);
  }

  lemma {:induction false} SumEqual(ops: seq<Op>, v: Stage -> bool, w: Stage -> bool)
    requires forall i :: 0 <= i < |ops| ==> v(ops[i].stage) == w(ops[i].stage)
    ensures Sum(ops, v) == Sum(ops, w)
    decreases |ops|
  {
    if ops != [] { SumEqual(ops[..|ops| - 1], v, w); }
  }

  // ---- From layers to the search ----

  /** Layers of whole blocks, newest first, that show exactly these bytes as allocated. */
  ghost predicate Represents(layers: seq<seq<Extent>>, cover: set<nat>, block: nat)
    requires block > 0
  {
    && LayersDisjoint(layers) && (forall i :: 0 <= i < |layers| ==> AllWhole(layers[i], block))
    && forall b: nat :: Shown(layers, b).Some? <==> b in cover
  }

  function RangesOf(s: seq<Extent>): seq<Range> { seq(|s|, i requires 0 <= i < |s| => s[i].key) }

  lemma {:induction false} AtCovers(s: seq<Extent>, b: nat)
    ensures ValueAt(s, b).Some? <==> exists p :: 0 <= p < |s| && Covers(s[p], b)
    decreases |s|
  {
    if s != [] {
      AtCovers(s[1..], b);
      if p :| 0 <= p < |s| && Covers(s[p], b) { if p > 0 { assert s[1..][p - 1] == s[p]; } }
    }
  }

  lemma RangesShow(s: seq<Extent>, cover: set<nat>)
    requires Disjoint(s) && forall b: nat :: ValueAt(s, b).Some? <==> b in cover
    ensures Shows(RangesOf(s), cover)
  {
    hide ValueAt;
    var view := RangesOf(s);
    forall b: nat ensures InView(view, b) <==> b in cover {
      AtCovers(s, b);
      if InView(view, b) {
        var p :| 0 <= p < |view| && view[p].start <= b < view[p].end;
        assert Covers(s[p], b);
      }
      if p :| 0 <= p < |s| && Covers(s[p], b) { assert view[p].start <= b < view[p].end; }
    }
  }

  /** What `iter` yields over such layers: the taken ranges in order, all of whole blocks. */
  lemma IterShows(layers: seq<seq<Extent>>, cover: set<nat>, block: nat, fuel: nat)
    requires block > 0 && Represents(layers, cover, block) && RecordCount(layers) <= fuel
    ensures Records(layers, fuel).Some?
    ensures var s := Records(layers, fuel).value; Shows(RangesOf(s), cover) && AllWhole(s, block)
  {
    hide ValueAt, Shown, Records, AllWhole, RecordCount;
    RecordsShow(layers, block, fuel);
    RangesShow(Records(layers, fuel).value, cover);
  }

  // ---- Whole runs ----

  ghost predicate IsRun(device: nat, block: nat, states: seq<State>, steps: seq<Step>)
  {
    && block > 0 && device % block == 0 && |states| == |steps| + 1 && states[0] == Init(device, block)
    && (forall k :: 0 <= k < |steps| ==> Enabled(states[k], steps[k]))
    && (forall k, k' :: 0 <= k < |steps| && k' == k + 1 ==> states[k'] == Next(states[k], steps[k]))
  }

  lemma {:induction false} RunOk(device: nat, block: nat, states: seq<State>, steps: seq<Step>, k: nat)
    requires IsRun(device, block, states, steps) && k < |states|
    ensures Inv(states[k]) && states[k].device == device && states[k].block == block
    decreases k
  {
    hide Enabled, Next, Inv;
    if k == 0 {
      InitOk(device, block);
    } else {
      RunOk(device, block, states, steps, k - 1);
      StepOk(states[k - 1], steps[k - 1]);
      NextKeeps(states[k - 1], steps[k - 1]);
    }
  }

  lemma NextKeeps(s: State, step: Step)
    requires Enabled(s, step)
    ensures Next(s, step).device == s.device && Next(s, step).block == s.block
  {
    hide Bytes, Shows, Seen;
  }

  lemma InitOk(device: nat, block: nat)
    requires block > 0 && device % block == 0
    ensures Inv(Init(device, block))
  {
  }

  /** A deallocation whose log offset no device flush has passed. */
  ghost predicate AwaitsFlush(op: Op, flushed: nat)
  {
    (IsDeallocated(op.stage) || op.stage == DeallocReserved) && op.offset >= flushed
  }

  /** In every run, the range `allocate` chooses is non-empty, inside the device and disjoint, at the
      moment it is chosen, from everything committed, from all other uncommitted allocations and from
      every deallocation whose log offset no device flush has passed yet, although commits went on
      while the scan was under way. */
  lemma AllocationsAreExclusive(device: nat, block: nat, states: seq<State>, steps: seq<Step>, k: nat)
    requires IsRun(device, block, states, steps) && k < |steps| && steps[k].Search?
    ensures var s, r := states[k], steps[k].range;
            && r.start < r.end <= device && IsAligned(r, block)
            && (forall b :: b in Bytes(r) ==> b !in s.acc)
            && (forall i :: 0 <= i < |s.ops| && IsUncommitted(s.ops[i].stage) ==> !Overlap(s.ops[i].range, r))
            && (forall i :: 0 <= i < |s.ops| && AwaitsFlush(s.ops[i], s.flushed) ==> !Overlap(s.ops[i].range, r))
  {
    RunOk(device, block, states, steps, k);
    var s, step := states[k], steps[k];
    SearchCore(s, step.view, step.range, step.before);
    hide Sum, Seen, Bytes, ReservedOk, TreeOk, Next, ScanOk, OpsOk, Shows;
  }

  /** In every run, a search that follows a false `needs_sync` finds space: over any layers of whole
      blocks that show what the scan sees, the loop of `allocate` returns a range. */
  method SearchSucceeds(layers: seq<seq<Extent>>, fuel: nat, len: nat, device: nat, block: nat,
                        ghost states: seq<State>, ghost steps: seq<Step>, ghost before: (bool, bool))
    returns (gap: Gap)
    requires IsRun(device, block, states, steps) && len > 0 && len % block == 0
    requires var s := states[|steps|];
             s.phase.Ready? && s.scan.BothOpen? && Represents(layers, Seen(s, before), block)
    requires RecordCount(layers) <= fuel
    ensures gap.Found? && gap.range.start < gap.range.end <= device && IsAligned(gap.range, block)
    ensures exists view :: Enabled(states[|steps|], Search(view, gap.range, before))
  {
    hide Inv, Records, RangesOf, Represents, Seen, RecordCount, InView, Ordered, Shows, IsRun, Enabled, Plausible;
    SearchReady(device, block, states, steps, before, layers, fuel);
    var view := RangesOf(Records(layers, fuel).value);
    gap := FirstGap(view, len, device, block);
    AnswersSearch(states[|steps|], view, gap.range, before);
  }

  /** What the loop of `allocate` is given at that point. */
  lemma SearchReady(device: nat, block: nat, states: seq<State>, steps: seq<Step>, before: (bool, bool),
                    layers: seq<seq<Extent>>, fuel: nat)
    requires IsRun(device, block, states, steps) && RecordCount(layers) <= fuel
    requires var s := states[|steps|]; s.phase.Ready? && s.scan.BothOpen? && Represents(layers, Seen(s, before), block)
    ensures Records(layers, fuel).Some? && block > 0 && |states| == |steps| + 1
    ensures var s, view := states[|steps|], RangesOf(Records(layers, fuel).value);
            && s.device == device && s.block == block && s.phase.Ready? && s.scan.BothOpen? && device % block == 0
            && Ordered(view) && Shows(view, Seen(s, before))
            && (forall p :: 0 <= p < |view| ==> Plausible(view[p], device, block))
            && exists b: nat :: b < device && !InView(view, b)
  {
    hide Inv, Records, Represents, Seen, RecordCount, InView, Next, Enabled;
    var s := states[|steps|];
    RunOk(device, block, states, steps, |steps|);
    IterShows(layers, Seen(s, before), block, fuel);
    var records := Records(layers, fuel).value;
    ViewPlausible(s, before, records, RangesOf(records));
    SearchFindsSpace(s, before);
  }

  lemma AnswersSearch(s: State, view: seq<Range>, range: Range, before: (bool, bool))
    requires s.phase.Ready? && s.scan.BothOpen? && Shows(view, Seen(s, before)) && s.block > 0
    requires range.start < range.end <= s.device && IsAligned(range, s.block)
    requires forall b :: range.start <= b < range.end ==> !InView(view, b)
    ensures Enabled(s, Search(view, range, before))
  {
    hide Seen, InView, Shows;
  }

  lemma ViewPlausible(s: State, before: (bool, bool), records: seq<Extent>, view: seq<Range>)
    requires Inv(s) && s.scan.BothOpen? && view == RangesOf(records) && AllWhole(records, s.block)
    requires Shows(view, Seen(s, before))
    ensures forall p :: 0 <= p < |view| ==> Plausible(view[p], s.device, s.block)
  {
    hide Sum, Bytes, Overlap, PhaseOk, CountersOk, TreeOk, ReservedOk, Seen, Union, ScanOk;
    SeenInside(s, before);
    forall p | 0 <= p < |view| ensures Plausible(view[p], s.device, s.block) {
      assert Whole(records[p], s.block);
      assert InView(view, view[p].end - 1);
      CountableInside(s, view[p].end - 1);
    }
  }

  lemma CountableInside(s: State, b: nat)
    requires Core(s) && b in Countable(s)
    ensures b < s.device
  {
    hide Sum, Union, Overlap, PhaseOk, CountersOk, TreeOk, ReservedOk;
    if b !in s.acc {
      if b in Union(s.ops, IsUncommitted) { UnionInside(s.ops, IsUncommitted, s.device, b); }
      else if b in Union(s.ops, IsDeallocated) { UnionInside(s.ops, IsDeallocated, s.device, b); }
      else { UnionInside(s.ops, IsLeftOver, s.device, b); }
    }
  }

  lemma {:induction false} UnionInside(ops: seq<Op>, w: Stage -> bool, device: nat, b: nat)
    requires b in Union(ops, w) && forall i :: 0 <= i < |ops| ==> ops[i].range.end <= device
    ensures b < device
    decreases |ops|
  {
    var n := |ops| - 1;
    if b in Union(ops[..n], w) { UnionInside(ops[..n], w, device, b); }
  }
}
