/** Crash recovery of the allocator (src/object_store/allocator.rs): the journal of allocations,
    deallocations and flushes, the info file written by flushes, the start of replay recorded in
    the super-block, and what `open` rebuilds from them. */
module AllocatorRecovery {
  import opened LsmTypes
  import opened RangeLayers
  import opened AllocatorMerge
  import opened JournalCheckpoints

  /** What a layer says about each byte; module AllocatorMerge ties this to the stored extents:
      merging an extent in overwrites its bytes, and merging layers shows the newest. */
  type Layer = nat -> Option<AllocatorValue>
  type Counts = nat -> int

  const I64_MAX: int := 0x7fff_ffff_ffff_ffff
  const I64_MIN: int := -0x8000_0000_0000_0000
  const U64_SIZE: int := 0x1_0000_0000_0000_0000

  predicate InI64(x: int) { I64_MIN <= x <= I64_MAX }

  /** `as u64` and `as i64`. */
  function ToU64(x: int): int { if x < 0 then x + U64_SIZE else x }
  function ToI64(x: int): int { if x > I64_MAX then x - U64_SIZE else x }

  function SaturatingAdd(a: int, b: int): int
  {
    if a + b > I64_MAX then I64_MAX else if a + b < I64_MIN then I64_MIN else a + b
  }

  datatype Mutation = Allocate(range: Range, owner: nat) | Deallocate(range: Range, owner: nat) | BeginFlush | EndFlush

  predicate IsOp(m: Mutation) { m.Allocate? || m.Deallocate? }

  /** A journal record; `offset` is the checkpoint of its transaction. */
  datatype Record = Record(mutation: Mutation, offset: nat)

  function NextCheckpoints(c: Checkpoints, r: Record): Checkpoints
  {
    match r.mutation case BeginFlush => c.Begin() case EndFlush => c.End() case _ => c.Touch(r.offset)
  }

  /** The allocator in memory: the mutable layer, the immutable layers (newest first), the per-owner
      counters `allocated_bytes`, the snapshot of them in `info`, and the checkpoints. */
  datatype Memory = Memory(mutable: Layer, layers: seq<Layer>, counts: Counts, snapshot: Counts,
                           checkpoints: Checkpoints)

  /** The info file: the compacted layer and the counters (u64). */
  datatype Info = Info(layer: Layer, counts: Counts)

  function NoBytes(): Layer { (b: nat) => None }
  function Zero(): Counts { (o: nat) => 0 }
  function InitMemory(): Memory { Memory(NoBytes(), [], Zero(), Zero(), NoCheckpoint) }

  ghost function View(layers: seq<Layer>, b: nat): Option<AllocatorValue>
  {
    if layers == [] then None else if layers[0](b).Some? then layers[0](b) else View(layers[1..], b)
  }

  /** Who a byte is allocated to. */
  ghost function Shown(layers: seq<Layer>, b: nat): Option<AllocatorValue> { Allocated(View(layers, b)) }

  ghost function Map(m: Memory, b: nat): Option<AllocatorValue> { Shown([m.mutable] + m.layers, b) }

  function Overwrite(layer: Layer, r: Range, v: AllocatorValue): Layer
  {
    (b: nat) => if r.start <= b < r.end then Some(v) else layer(b)
  }

  function AddTo(c: Counts, owner: nat, delta: int): Counts
  {
    (o: nat) => if o == owner then SaturatingAdd(c(o), delta) else c(o)
  }

  function Len(r: Range): nat { if r.start <= r.end then r.end - r.start else 0 }

  function ApplyOp(m: Memory, op: Mutation): Memory
    requires IsOp(op)
  {
    match op
    case Allocate(r, owner) => m.(mutable := Overwrite(m.mutable, r, Abs(1, owner)),
                                  counts := AddTo(m.counts, owner, Len(r)))
    case Deallocate(r, owner) => m.(mutable := Overwrite(m.mutable, r, Tombstone),
                                    counts := AddTo(m.counts, owner, 0 - Len(r) as int))
  }

  /** `BeginFlush`, live and in replay. */
  function Seal(m: Memory): Memory
  {
    m.(mutable := NoBytes(), layers := [m.mutable] + m.layers, snapshot := AsU64(m.counts))
  }

  function AsU64(c: Counts): Counts { (o: nat) => ToU64(c(o)) }

  function Minus(c: Counts, d: Counts): Counts { (o: nat) => c(o) - ToI64(d(o)) }

  /** `apply_mutation` while replaying. */
  function ReplayRecord(m: Memory, r: Record): Memory
  {
    var m' := match r.mutation
              case BeginFlush => Seal(m)
              case EndFlush => m.(layers := [], counts := Minus(m.counts, m.snapshot))
              case _ => ApplyOp(m, r.mutation);
    m'.(checkpoints := NextCheckpoints(m.checkpoints, r))
  }

  /** Replaying the records whose transaction `should_apply`. */
  function Replay(journal: seq<Record>, start: nat): Memory
  {
    if journal == [] then InitMemory()
    else
      var m, r := Replay(journal[..|journal| - 1], start), journal[|journal| - 1];
      if r.offset >= start then ReplayRecord(m, r) else m
  }

  /** The same, record by record. */
  method ReplayJournal(journal: seq<Record>, start: nat) returns (m: Memory)
    ensures m == Replay(journal, start)
  {
    m := InitMemory();
    for i := 0 to |journal|
      invariant m == Replay(journal[..i], start)
    {
      assert journal[..i + 1][..i] == journal[..i];
      if journal[i].offset >= start {
        m := ReplayRecord(m, journal[i]);
      }
    }
    assert journal[..|journal|] == journal;
  }

  ghost predicate DistinctOwners(owners: seq<nat>) { forall i, j :: 0 <= i < j < |owners| ==> owners[i] != owners[j] }

  ghost function SumOver(counts: Counts, owners: seq<nat>): int
  {
    if owners == [] then 0 else SumOver(counts, owners[..|owners| - 1]) + counts(owners[|owners| - 1])
  }

  /** However many owners are taken together, they do not have more than the device. */
  ghost predicate TotalFits(counts: Counts, device: nat)
  {
    forall owners :: DistinctOwners(owners) ==> SumOver(counts, owners) <= device
  }

  /** `open`: adds the counters and the layer of the info file; an error if the counters of the file
      add up to more than the device, or for an owner whose counter does not fit. */
  ghost predicate OpenSucceeds(m: Memory, file: Info, device: nat)
  {
    TotalFits(file.counts, device) &&
    forall o: nat :: file.counts(o) <= I64_MAX && 0 <= m.counts(o) + file.counts(o) <= device &&
        InI64(m.counts(o) + file.counts(o))
  }

  function Plus(c: Counts, d: Counts): Counts { (o: nat) => c(o) + d(o) }

  function Opened(m: Memory, file: Info): Memory
  {
    m.(layers := m.layers + [file.layer], counts := Plus(m.counts, file.counts), snapshot := file.counts)
  }

  /** The counters of an info file, as the list of its entries. */
  ghost function CountsOf(entries: seq<(nat, int)>): Counts
  {
    (o: nat) =>
      if exists i :: 0 <= i < |entries| && entries[i].0 == o
      then (var i :| 0 <= i < |entries| && entries[i].0 == o; entries[i].1)
      else 0
  }

  ghost predicate Distinct(entries: seq<(nat, int)>)
  {
    forall i, j :: 0 <= i < j < |entries| ==> entries[i].0 != entries[j].0
  }

  ghost predicate EntryFits(counts: Counts, e: (nat, int), device: nat)
  {
    e.1 <= I64_MAX && 0 <= counts(e.0) + e.1 <= device && InI64(counts(e.0) + e.1)
  }

  ghost function OwnersOf(entries: seq<(nat, int)>): seq<nat>
  {
    seq(|entries|, i requires 0 <= i < |entries| => entries[i].0)
  }

  ghost function EntrySum(entries: seq<(nat, int)>): int
  {
    if entries == [] then 0 else EntrySum(entries[..|entries| - 1]) + entries[|entries| - 1].1
  }

  lemma {:induction false} EntrySumPrefix(entries: seq<(nat, int)>, i: nat)
    requires i <= |entries| && forall j :: 0 <= j < |entries| ==> entries[j].1 >= 0
    ensures 0 <= EntrySum(entries[..i]) <= EntrySum(entries)
    decreases |entries|
  {
    if i < |entries| {
      var n := |entries| - 1;
      EntrySumPrefix(entries[..n], i);
      assert entries[..n][..i] == entries[..i];
    } else {
      assert entries[..i] == entries;
      if entries != [] { EntrySumPrefix(entries[..i - 1], i - 1); }
    }
  }

  /** The two loops of `open` over the entries of the info file: an error as soon as the entries add
      up to more than the device, or one does not fit. */
  method OpenCounters(counts: Counts, entries: seq<(nat, int)>, device: nat) returns (r: Option<Counts>)
    requires Distinct(entries) && forall i :: 0 <= i < |entries| ==> entries[i].1 >= 0
    ensures r.Some? <==> EntrySum(entries) <= device && forall i :: 0 <= i < |entries| ==>
            EntryFits(counts, entries[i], device)
    ensures r.Some? ==> forall o: nat :: r.value(o) == counts(o) + CountsOf(entries)(o)
  {
    var left: int := device;
    for i := 0 to |entries|
      invariant left == device - EntrySum(entries[..i]) >= 0
    {
      assert entries[..i + 1][..i] == entries[..i];
      if entries[i].1 > left {
        EntrySumPrefix(entries, i + 1);
        return None;
      }
      left := left - entries[i].1;
    }
    assert entries[..|entries|] == entries;
    var now := counts;
    for i := 0 to |entries|
      invariant forall j :: 0 <= j < i ==>
                  EntryFits(counts, entries[j], device) && now(entries[j].0) == counts(entries[j].0) + entries[j].1
      invariant forall o: nat :: (forall j :: 0 <= j < i ==> entries[j].0 != o) ==> now(o) == counts(o)
    {
      var (owner, bytes) := entries[i];
      assert forall j :: 0 <= j < i ==> entries[j].0 != owner;
      if bytes > I64_MAX || !InI64(now(owner) + bytes) || now(owner) + bytes < 0 || now(owner) + bytes > device {
        assert !EntryFits(counts, entries[i], device);
        return None;
      }
      var before := now;
      now := Counted(before, owner, before(owner) + bytes);
    }
    return Some(now);
  }

  /** What the loops test follows from `OpenSucceeds`. */
  lemma EntriesFit(m: Memory, file: Info, device: nat, entries: seq<(nat, int)>)
    requires OpenSucceeds(m, file, device) && Distinct(entries)
    requires forall o: nat :: file.counts(o) == CountsOf(entries)(o)
    ensures EntrySum(entries) <= device && forall i :: 0 <= i < |entries| ==> EntryFits(m.counts, entries[i], device)
  {
    forall i | 0 <= i < |entries| ensures file.counts(entries[i].0) == entries[i].1 { }
    EntrySumOver(file.counts, entries);
    assert DistinctOwners(OwnersOf(entries));
  }

  lemma {:induction false} EntrySumOver(counts: Counts, entries: seq<(nat, int)>)
    requires forall i :: 0 <= i < |entries| ==> counts(entries[i].0) == entries[i].1
    ensures SumOver(counts, OwnersOf(entries)) == EntrySum(entries)
    decreases |entries|
  {
    if entries != [] {
      var n := |entries| - 1;
      EntrySumOver(counts, entries[..n]);
      assert OwnersOf(entries)[..n] == OwnersOf(entries[..n]);
    }
  }

  function Counted(c: Counts, owner: nat, value: int): Counts { (o: nat) => if o == owner then value else c(o) }

  // ---- Runs ----

  /** `offset` is the journal offset of the transaction being applied; `pending` is what the flush
      under way will write. */
  datatype State = State(device: nat, journal: seq<Record>, start: nat, file: Info, live: Memory, offset: nat,
                         pending: Option<Info>)

  datatype Step = Apply(mutation: Mutation) | EndTransaction | WriteSuperBlock | Crash | AbandonFlush

  ghost function Init(device: nat): State { State(device, [], 0, Info(NoBytes(), Zero()), InitMemory(), 0, None) }

  /** No allocator record in the current transaction yet. */
  ghost predicate Boundary(s: State) { s.journal == [] || s.journal[|s.journal| - 1].offset < s.offset }

  ghost predicate BeganHere(s: State)
  {
    s.journal != [] && s.journal[|s.journal| - 1] == Record(BeginFlush, s.offset)
  }

  /** A transaction with `BeginFlush` has no other allocator mutation; only a flush under way ends;
      a flush begins only if `needs_flush`.  Allocations are of free bytes and deallocations of
      bytes the owner has. */
  ghost predicate Enabled(s: State, step: Step)
  {
    match step
    case Apply(BeginFlush) => Boundary(s) && s.pending.None? && s.live.checkpoints != NoCheckpoint
    case Apply(EndFlush) => s.pending.Some? && !BeganHere(s)
    case Apply(Allocate(r, owner)) =>
      !BeganHere(s) && r.start < r.end <= s.device && forall b: nat :: r.start <= b < r.end ==> Map(s.live, b) == None
    case Apply(Deallocate(r, owner)) =>
      !BeganHere(s) && r.start < r.end <= s.device && forall b: nat :: r.start <= b < r.end ==>
          Map(s.live, b) == Some(Abs(1, owner))
    case EndTransaction => true
    case WriteSuperBlock => Boundary(s)
    case Crash => Boundary(s)
    case AbandonFlush => true
  }

  /** Compacting all immutable layers, tombstones dropped. */
  ghost function Compacted(layers: seq<Layer>): Layer { (b: nat) => Shown(layers, b) }

  /** `apply_mutation` on a live allocator, with what `flush` does around `EndFlush`. */
  ghost function ApplyLive(s: State, m: Mutation): State
    requires m.EndFlush? ==> s.pending.Some?
  {
    var r := Record(m, s.offset);
    var s' := s.(journal := s.journal + [r]);
    var checkpoints := NextCheckpoints(s.live.checkpoints, r);
    match m
    case BeginFlush =>
      var live := Seal(s.live).(checkpoints := checkpoints);
      s'.(live := live, pending := Some(Info(Compacted(live.layers), live.snapshot)))
    case EndFlush => s'.(live := s.live.(layers := [s.pending.value.layer], checkpoints := checkpoints),
                         file := s.pending.value, pending := None)
    case _ => s'.(live := ApplyOp(s.live, m).(checkpoints := checkpoints))
  }

  ghost function Next(s: State, step: Step): State
    requires Enabled(s, step)
  {
    match step
    case Apply(m) => ApplyLive(s, m)
    case EndTransaction => s.(offset := s.offset + 1)
    case WriteSuperBlock => s.(start := s.live.checkpoints.Earliest(s.offset))
    case Crash => s.(live := Opened(Replay(s.journal, s.start), s.file), pending := None)
    case AbandonFlush => s.(pending := None)
  }

  // ---- Counting ----

  ghost predicate Owned(m: Memory, o: nat, b: nat) { Map(m, b) == Some(Abs(1, o)) }

  ghost function CountBelow(m: Memory, o: nat, n: nat): nat
  {
    if n == 0 then 0 else CountBelow(m, o, n - 1) + if Owned(m, o, n - 1) then 1 else 0
  }

  lemma {:induction false} CountBound(m: Memory, o: nat, n: nat)
    ensures CountBelow(m, o, n) <= n
    decreases n
  {
    if n > 0 { CountBound(m, o, n - 1); }
  }

  lemma {:induction false} CountSame(m: Memory, m': Memory, o: nat, n: nat)
    requires forall b: nat :: b < n ==> Map(m, b) == Map(m', b)
    ensures CountBelow(m', o, n) == CountBelow(m, o, n)
    decreases n
  {
    hide Map;
    if n > 0 { CountSame(m, m', o, n - 1); }
  }

  function Part(r: Range, n: nat): int
  {
    if n <= r.start then 0 else if n <= r.end then n - r.start else Len(r)
  }

  /** All bytes of a range become owned by `o`, or stop being it. */
  lemma {:induction false} CountChange(m: Memory, m': Memory, o: nat, r: Range, n: nat, gain: bool)
    requires r.start < r.end
    requires forall b: nat :: b < n && !(r.start <= b < r.end) ==> Map(m, b) == Map(m', b)
    requires forall b: nat :: b < n && r.start <= b < r.end ==> Owned(m, o, b) == !gain && Owned(m', o, b) == gain
    ensures CountBelow(m', o, n) == CountBelow(m, o, n) + if gain then Part(r, n) else 0 - Part(r, n)
    decreases n
  {
    hide Map;
    if n > 0 { CountChange(m, m', o, r, n - 1, gain); }
  }

  lemma {:induction false} CountOther(m: Memory, m': Memory, o: nat, n: nat)
    requires forall b: nat :: b < n ==> Owned(m, o, b) == Owned(m', o, b)
    ensures CountBelow(m', o, n) == CountBelow(m, o, n)
    decreases n
  {
    hide Owned;
    if n > 0 { CountOther(m, m', o, n - 1); }
  }

  /** The counters are the numbers of bytes. */
  ghost predicate CountersOk(m: Memory, device: nat)
  {
    forall o: nat :: m.counts(o) == CountBelow(m, o, device)
  }

  lemma CountersBound(m: Memory, device: nat)
    requires CountersOk(m, device)
    ensures forall o: nat :: 0 <= m.counts(o) <= device
  {
    forall o: nat ensures 0 <= m.counts(o) <= device { CountBound(m, o, device); }
  }

  /** A byte has one owner at most. */
  lemma {:induction false} OneOwner(m: Memory, owners: seq<nat>, b: nat, n: nat)
    requires DistinctOwners(owners) && b + 1 == n
    ensures SumCounts(m, owners, n) <= SumCounts(m, owners, b) + 1
    ensures (forall o :: o in owners ==> !Owned(m, o, b)) ==> SumCounts(m, owners, n) == SumCounts(m, owners, b)
    decreases |owners|
  {
    if owners != [] {
      var k := |owners| - 1;
      OneOwner(m, owners[..k], b, n);
      if Owned(m, owners[k], b) {
        forall o | o in owners[..k] ensures !Owned(m, o, b) {
          var i :| 0 <= i < k && owners[..k][i] == o;
          assert owners[i] != owners[k];
        }
      }
    }
  }

  ghost function SumCounts(m: Memory, owners: seq<nat>, n: nat): nat
    decreases |owners|
  {
    if owners == [] then 0 else SumCounts(m, owners[..|owners| - 1], n) + CountBelow(m, owners[|owners| - 1], n)
  }

  lemma {:induction false} SumCountsBound(m: Memory, owners: seq<nat>, n: nat)
    requires DistinctOwners(owners)
    ensures SumCounts(m, owners, n) <= n
    decreases n
  {
    if n == 0 {
      SumCountsNone(m, owners);
    } else {
      SumCountsBound(m, owners, n - 1);
      OneOwner(m, owners, n - 1, n);
    }
  }

  lemma {:induction false} SumCountsNone(m: Memory, owners: seq<nat>)
    ensures SumCounts(m, owners, 0) == 0
    decreases |owners|
  {
    if owners != [] { SumCountsNone(m, owners[..|owners| - 1]); }
  }

  lemma {:induction false} SumsAgree(m: Memory, counts: Counts, device: nat, owners: seq<nat>)
    requires forall o: nat :: counts(o) == CountBelow(m, o, device)
    ensures SumOver(counts, owners) == SumCounts(m, owners, device)
    decreases |owners|
  {
    if owners != [] { SumsAgree(m, counts, device, owners[..|owners| - 1]); }
  }

  /** The counters of all owners together are at most the device. */
  lemma CountersTotal(m: Memory, device: nat, counts: Counts)
    requires CountersOk(m, device) && forall o: nat :: counts(o) == m.counts(o)
    ensures TotalFits(counts, device)
  {
    forall owners | DistinctOwners(owners) ensures SumOver(counts, owners) <= device {
      SumsAgree(m, counts, device, owners);
      SumCountsBound(m, owners, device);
    }
  }

  // ---- Layers ----

  lemma OverwriteView(mutable: Layer, rest: seq<Layer>, r: Range, v: AllocatorValue)
    ensures forall b: nat :: Shown([Overwrite(mutable, r, v)] + rest, b) ==
                        if r.start <= b < r.end then Allocated(Some(v)) else Shown([mutable] + rest, b)
  {
    forall b: nat
      ensures Shown([Overwrite(mutable, r, v)] + rest, b) == if r.start <= b < r.end then Allocated(Some(v))
              else Shown([mutable] + rest, b)
    {
      assert ([Overwrite(mutable, r, v)] + rest)[1..] == rest && ([mutable] + rest)[1..] == rest;
    }
  }

  lemma EmptyView(rest: seq<Layer>)
    ensures forall b: nat :: Shown([NoBytes()] + rest, b) == Shown(rest, b)
  {
    assert ([NoBytes()] + rest)[1..] == rest;
  }

  lemma {:induction false} LastView(layers: seq<Layer>, x: Layer, y: Layer, b: nat)
    requires x(b) == y(b)
    ensures View(layers + [x], b) == View(layers + [y], b)
    decreases |layers|
  {
    if layers != [] {
      assert (layers + [x])[1..] == layers[1..] + [x] && (layers + [y])[1..] == layers[1..] + [y];
      LastView(layers[1..], x, y, b);
    }
  }

  /** Compacting all layers keeps what they show. */
  lemma CompactView(layers: seq<Layer>)
    ensures forall b: nat :: Shown([Compacted(layers)], b) == Shown(layers, b)
    ensures forall b: nat :: Shown([NoBytes(), Compacted(layers)], b) == Shown(layers, b)
  {
    hide View;
    forall b: nat ensures Shown([Compacted(layers)], b) == Shown(layers, b) { ViewOne(Compacted(layers), b); }
    forall b: nat ensures Shown([NoBytes(), Compacted(layers)], b) == Shown(layers, b) {
      ViewOne(Compacted(layers), b);
      EmptyView([Compacted(layers)]);
      assert [NoBytes()] + [Compacted(layers)] == [NoBytes(), Compacted(layers)];
    }
  }

  lemma ViewOne(x: Layer, b: nat)
    ensures View([x], b) == x(b)
  {
  }

  // ---- What replay rebuilds ----

  /** Replay so far and the info file together show what the live allocator shows; and if the flush
      under way completes, they will with the new info file. */
  ghost predicate Complete(m: Memory, live: Memory, file: Info)
  {
    && (forall b: nat :: Shown([m.mutable] + (m.layers + [file.layer]), b) == Map(live, b))
    && (forall o: nat :: m.counts(o) + file.counts(o) == live.counts(o))
  }

  ghost predicate Follows(m: Memory, live: Memory, pending: Info)
  {
    && (forall b: nat :: Shown([m.mutable] + [pending.layer], b) == Map(live, b))
    && (forall o: nat :: m.counts(o) - ToI64(m.snapshot(o)) + pending.counts(o) == live.counts(o))
  }

  ghost predicate Rel(m: Memory, s: State)
  {
    && Complete(m, s.live, s.file) && m.checkpoints == s.live.checkpoints
    && (s.pending.Some? ==> Follows(m, s.live, s.pending.value))
  }

  /** Replay that starts after the flush under way began. */
  ghost predicate Young(m: Memory, at: nat, live: Memory, pending: Info)
  {
    && m.layers == [] && m.checkpoints == Current(at) && Follows(m, live, pending)
    && (forall o: nat :: m.snapshot(o) == 0)
  }

  ghost predicate Blank(m: Memory)
  {
    && m.layers == [] && m.checkpoints == NoCheckpoint
    && (forall b: nat :: m.mutable(b) == None) && (forall o: nat :: m.counts(o) == 0 && m.snapshot(o) == 0)
  }

  ghost predicate JournalOk(journal: seq<Record>, offset: nat)
  {
    && (forall i :: 0 <= i < |journal| ==> journal[i].offset <= offset)
    && (forall i, j :: 0 <= i < j < |journal| ==> journal[i].offset <= journal[j].offset)
  }

  ghost predicate FileOk(file: Info, device: nat)
  {
    TotalFits(file.counts, device) && forall o: nat :: 0 <= file.counts(o) <= device
  }

  /** The replay that will count once the flush under way has ended. */
  ghost predicate FlushOk(s: State)
  {
    s.pending.Some? ==>
      && FileOk(s.pending.value, s.device)
      && match s.live.checkpoints
         case Old(_) => Follows(InitMemory(), s.live, s.pending.value) && (Boundary(s) || BeganHere(s))
         case Both(_, at) => at <= s.offset && Young(Replay(s.journal, at), at, s.live, s.pending.value)
         case _ => false
  }

  ghost predicate Inv(s: State)
  {
    && s.device <= I64_MAX
    && JournalOk(s.journal, s.offset)
    && CountersOk(s.live, s.device) && FileOk(s.file, s.device)
    && Rel(Replay(s.journal, s.start), s)
    && Rel(Replay(s.journal, s.live.checkpoints.Earliest(s.offset)), s)
    && (s.live.checkpoints.NoCheckpoint? ==> Blank(Replay(s.journal, s.offset)))
    && FlushOk(s)
    && (s.pending.Some? ==> forall b: nat :: s.pending.value.layer(b) == Shown(s.live.layers, b))
    && s.start <= s.offset && s.live.checkpoints.Earliest(s.offset) <= s.offset
  }

  // ---- Every step keeps it ----

  lemma ReplayPush(journal: seq<Record>, r: Record, start: nat)
    ensures Replay(journal + [r], start) == if r.offset >= start then ReplayRecord(Replay(journal, start), r)
            else Replay(journal, start)
  {
    assert (journal + [r])[..|journal|] == journal;
  }

  lemma {:induction false} ReplayNothing(journal: seq<Record>, start: nat)
    requires forall i :: 0 <= i < |journal| ==> journal[i].offset < start
    ensures Replay(journal, start) == InitMemory()
    decreases |journal|
  {
    if journal != [] { ReplayNothing(journal[..|journal| - 1], start); }
  }

  function Delta(op: Mutation): int
  {
    match op case Allocate(r, _) => Len(r) case Deallocate(r, _) => 0 - Len(r) as int case _ => 0
  }

  function ValueOf(op: Mutation): AllocatorValue
    requires IsOp(op)
  {
    if op.Allocate? then Abs(1, op.owner) else Tombstone
  }

  lemma ApplyOpIs(m: Memory, op: Mutation)
    requires IsOp(op)
    ensures ApplyOp(m, op) ==
            m.(mutable := Overwrite(m.mutable, op.range, ValueOf(op)), counts := AddTo(m.counts, op.owner, Delta(op)))
  {
  }

  ghost predicate OpOk(s: State, op: Mutation) { IsOp(op) && Enabled(s, Apply(op)) }

  lemma MapOp(live: Memory, op: Mutation)
    requires IsOp(op)
    ensures forall b: nat :: Map(ApplyOp(live, op), b) ==
                        if op.range.start <= b < op.range.end then Allocated(Some(ValueOf(op))) else Map(live, b)
  {
    hide View;
    ApplyOpIs(live, op);
    OverwriteView(live.mutable, live.layers, op.range, ValueOf(op));
  }

  lemma CountersOp(s: State, op: Mutation)
    requires Inv(s) && OpOk(s, op)
    ensures CountersOk(ApplyOp(s.live, op), s.device)
    ensures 0 <= s.live.counts(op.owner) + Delta(op) <= s.device
  {
    hide View, Rel, JournalOk, FlushOk, Replay, Map, Blank;
    var live, live' := s.live, ApplyOp(s.live, op);
    MapOp(live, op);
    ApplyOpIs(live, op);
    CountersBound(live, s.device);
    CountChange(live, live', op.owner, op.range, s.device, op.Allocate?);
    CountBound(live', op.owner, s.device);
    forall o: nat ensures live'.counts(o) == CountBelow(live', o, s.device) {
      if o != op.owner { CountOther(live, live', o, s.device); }
    }
  }

  lemma CompleteOp(m: Memory, live: Memory, file: Info, op: Mutation, device: nat)
    requires Complete(m, live, file) && IsOp(op) && device <= I64_MAX && FileOk(file, device)
    requires 0 <= live.counts(op.owner) + Delta(op) <= device
    ensures Complete(ApplyOp(m, op), ApplyOp(live, op), file)
    ensures InI64(m.counts(op.owner) + Delta(op))
  {
    hide View, Map;
    ApplyOpIs(m, op);
    ApplyOpIs(live, op);
    MapOp(live, op);
    OverwriteView(m.mutable, m.layers + [file.layer], op.range, ValueOf(op));
  }

  lemma FollowsOp(m: Memory, live: Memory, pending: Info, op: Mutation, device: nat)
    requires Follows(m, live, pending) && IsOp(op) && device <= I64_MAX
    requires 0 <= live.counts(op.owner) + Delta(op) <= device && InI64(m.counts(op.owner) + Delta(op))
    ensures Follows(ApplyOp(m, op), ApplyOp(live, op), pending)
  {
    hide View, Map;
    ApplyOpIs(m, op);
    ApplyOpIs(live, op);
    MapOp(live, op);
    OverwriteView(m.mutable, [pending.layer], op.range, ValueOf(op));
  }

  lemma RelOp(m: Memory, s: State, op: Mutation)
    requires Inv(s) && OpOk(s, op) && Rel(m, s)
    ensures Rel(ReplayRecord(m, Record(op, s.offset)), ApplyLive(s, op))
  {
    hide View, Replay, JournalOk, FlushOk, CountersOk, Blank, Shown;
    CountersOp(s, op);
    CompleteOp(m, s.live, s.file, op, s.device);
    if s.pending.Some? { FollowsOp(m, s.live, s.pending.value, op, s.device); }
  }

  lemma OpOnFlush(s: State, op: Mutation)
    requires Inv(s) && OpOk(s, op)
    ensures FlushOk(ApplyLive(s, op))
  {
    hide View, Replay, Rel, CountersOk, Blank, Shown;
    if s.pending.Some? {
      CountersOp(s, op);
      CountersBound(s.live, s.device);
      var r, pending := Record(op, s.offset), s.pending.value;
      match s.live.checkpoints
      case Old(_) =>
        ReplayNothing(s.journal, s.offset);
        ReplayPush(s.journal, r, s.offset);
        assert ReplayRecord(InitMemory(), r).mutable == ApplyOp(InitMemory(), op).mutable;
        FollowsOp(InitMemory(), s.live, pending, op, s.device);
      case Both(_, at) =>
        var m := Replay(s.journal, at);
        ReplayPush(s.journal, r, at);
        assert m.counts(op.owner) + Delta(op) == s.live.counts(op.owner) + Delta(op) - pending.counts(op.owner);
        FollowsOp(m, s.live, pending, op, s.device);
      case _ => assert false;
    }
  }

  lemma ApplyOpOk(s: State, op: Mutation)
    requires Inv(s) && OpOk(s, op)
    ensures Inv(ApplyLive(s, op))
  {
    hide View, Replay, Rel, FlushOk, Shown, CountersOk, Blank;
    var s', r := ApplyLive(s, op), Record(op, s.offset);
    CountersOp(s, op);
    CountersSame(ApplyOp(s.live, op), s'.live, s.device);
    OpOnFlush(s, op);
    ReplayPush(s.journal, r, s.start);
    RelOp(Replay(s.journal, s.start), s, op);
    var c := s.live.checkpoints.Earliest(s.offset);
    ReplayPush(s.journal, r, c);
    RelOp(Replay(s.journal, c), s, op);
  }

  lemma CountersSame(m: Memory, m': Memory, device: nat)
    requires CountersOk(m, device) && (forall o: nat :: m'.counts(o) == m.counts(o))
    requires forall b: nat :: Map(m, b) == Map(m', b)
    ensures CountersOk(m', device)
  {
    hide Map;
    forall o: nat ensures m'.counts(o) == CountBelow(m', o, device) { CountSame(m, m', o, device); }
  }

  lemma SealView(m: Memory, rest: seq<Layer>)
    ensures forall b: nat ::
              Shown([Seal(m).mutable] + (Seal(m).layers + rest), b) == Shown([m.mutable] + (m.layers + rest), b)
  {
    hide View, Shown;
    assert Seal(m).layers + rest == [m.mutable] + (m.layers + rest);
    EmptyView(Seal(m).layers + rest);
  }

  /** `BeginFlush` seals the layer and takes the snapshot. */
  lemma SealLive(s: State)
    requires Inv(s)
    ensures var live, pending := Seal(s.live), Info(Compacted(Seal(s.live).layers), Seal(s.live).snapshot);
            && (forall b: nat :: Map(live, b) == Map(s.live, b))
            && (forall b: nat :: Shown([NoBytes()] + [pending.layer], b) == Map(s.live, b))
            && (forall o: nat :: pending.counts(o) == s.live.counts(o))
            && FileOk(pending, s.device)
  {
    hide View, Shown, Replay, Rel, FlushOk, Blank, JournalOk;
    CountersBound(s.live, s.device);
    CountersTotal(s.live, s.device, Seal(s.live).snapshot);
    SealView(s.live, []);
    assert Seal(s.live).layers + [] == Seal(s.live).layers && s.live.layers + [] == s.live.layers;
    CompactView(Seal(s.live).layers);
    EmptyView(Seal(s.live).layers);
    assert [NoBytes()] + [Compacted(Seal(s.live).layers)] == [NoBytes(), Compacted(Seal(s.live).layers)];
  }

  lemma RelBegin(m: Memory, s: State)
    requires Inv(s) && Rel(m, s) && Enabled(s, Apply(BeginFlush))
    ensures Rel(ReplayRecord(m, Record(BeginFlush, s.offset)), ApplyLive(s, BeginFlush))
  {
    hide View, Shown, Replay, FlushOk, Blank, JournalOk;
    SealLive(s);
    CountersBound(s.live, s.device);
    SealView(m, [s.file.layer]);
  }

  lemma BeginOk(s: State)
    requires Inv(s) && Enabled(s, Apply(BeginFlush))
    ensures Inv(ApplyLive(s, BeginFlush))
  {
    hide View, Replay, Rel, Shown, CountersOk, Blank;
    var s', r := ApplyLive(s, BeginFlush), Record(BeginFlush, s.offset);
    SealLive(s);
    CountersSame(s.live, s'.live, s.device);
    ReplayPush(s.journal, r, s.start);
    RelBegin(Replay(s.journal, s.start), s);
    var c := s.live.checkpoints.Earliest(s.offset);
    ReplayPush(s.journal, r, c);
    RelBegin(Replay(s.journal, c), s);
    assert s'.live.checkpoints.Old? && BeganHere(s');
  }

  /** After `EndFlush`, what follows the flush is all that replay needs. */
  lemma FollowsEnd(m: Memory, live: Memory, pending: Info)
    requires Follows(m, live, pending)
    ensures var m' := m.(layers := [], counts := Minus(m.counts, m.snapshot));
            Complete(m', live, pending)
  {
    hide View, Shown;
    assert [] + [pending.layer] == [pending.layer];
  }

  /** Taking the new layer in place of the sealed ones changes nothing that is shown. */
  lemma EndLive(s: State)
    requires Inv(s) && Enabled(s, Apply(EndFlush))
    ensures forall b: nat :: Map(ApplyLive(s, EndFlush).live, b) == Map(s.live, b)
  {
    hide View, Replay, Rel, FlushOk, Blank, JournalOk;
    CompactUnder(s.live.mutable, s.live.layers, s.pending.value.layer);
  }

  lemma CompactUnder(mutable: Layer, rest: seq<Layer>, compacted: Layer)
    requires forall b: nat :: compacted(b) == Shown(rest, b)
    ensures forall b: nat :: Shown([mutable] + [compacted], b) == Shown([mutable] + rest, b)
  {
    forall b: nat ensures Shown([mutable] + [compacted], b) == Shown([mutable] + rest, b) {
      assert ([mutable] + [compacted])[1..] == [compacted] && ([mutable] + rest)[1..] == rest;
      ViewOne(compacted, b);
    }
  }

  lemma RelAfterEnd(m: Memory, s: State)
    requires Inv(s) && Enabled(s, Apply(EndFlush)) && Follows(m, s.live, s.pending.value)
    requires NextCheckpoints(m.checkpoints, Record(EndFlush, s.offset)) ==
             NextCheckpoints(s.live.checkpoints, Record(EndFlush, s.offset))
    ensures Rel(ReplayRecord(m, Record(EndFlush, s.offset)), ApplyLive(s, EndFlush))
  {
    hide View, Shown, Replay, FlushOk, Blank, JournalOk;
    EndLive(s);
    FollowsEnd(m, s.live, s.pending.value);
  }

  lemma EndOk(s: State)
    requires Inv(s) && Enabled(s, Apply(EndFlush))
    ensures Inv(ApplyLive(s, EndFlush))
  {
    hide View, Replay, Shown, CountersOk;
    var s', r := ApplyLive(s, EndFlush), Record(EndFlush, s.offset);
    EndLive(s);
    CountersSame(s.live, s'.live, s.device);
    ReplayPush(s.journal, r, s.start);
    RelAfterEnd(Replay(s.journal, s.start), s);
    match s.live.checkpoints
    case Old(_) =>
      ReplayNothing(s.journal, s.offset);
      ReplayPush(s.journal, r, s.offset);
      RelAfterEnd(InitMemory(), s);
    case Both(_, at) =>
      ReplayPush(s.journal, r, at);
      RelAfterEnd(Replay(s.journal, at), s);
    case _ => assert false;
  }

  lemma EndTransactionOk(s: State)
    requires Inv(s)
    ensures Inv(Next(s, EndTransaction))
  {
    hide View, Map, Replay, Shown, CountersOk;
    if s.live.checkpoints.NoCheckpoint? {
      ReplayNothing(s.journal, s.offset + 1);
      var m := Replay(s.journal, s.offset);
      assert Rel(m, s) && Blank(m);
      BlankComplete(m, InitMemory(), s);
    }
  }

  lemma BlankComplete(m: Memory, m': Memory, s: State)
    requires Rel(m, s) && Blank(m) && Blank(m') && (s.pending.None?)
    ensures Rel(m', s)
  {
    forall b: nat
      ensures Shown([m'.mutable] + (m'.layers + [s.file.layer]), b) ==
              Shown([m.mutable] + (m.layers + [s.file.layer]), b)
    {
      assert ([m'.mutable] + (m'.layers + [s.file.layer]))[1..] == ([m.mutable] + (m.layers + [s.file.layer]))[1..];
    }
  }

  /** Opening after replay succeeds and shows what the live allocator showed. */
  lemma OpenOk(m: Memory, s: State)
    requires Inv(s) && Rel(m, s)
    ensures OpenSucceeds(m, s.file, s.device)
    ensures forall b: nat :: Map(Opened(m, s.file), b) == Map(s.live, b)
    ensures forall o: nat :: Opened(m, s.file).counts(o) == s.live.counts(o)
  {
    hide View, Shown, Replay, FlushOk, Blank, JournalOk;
    CountersBound(s.live, s.device);
  }

  lemma CrashOk(s: State)
    requires Inv(s) && Boundary(s)
    ensures Inv(Next(s, Crash))
  {
    hide View, Replay, Shown, Blank, JournalOk;
    var m := Replay(s.journal, s.start);
    OpenOk(m, s);
    var s' := Next(s, Crash);
    CountersSame(s.live, s'.live, s.device);
  }

  lemma StepOk(s: State, step: Step)
    requires Inv(s) && Enabled(s, step)
    ensures Inv(Next(s, step))
  {
    hide View, Map, Replay, Shown, CountersOk, Blank, Rel, JournalOk, FileOk;
    match step
    case Apply(m) =>
      hide Inv;
      if m.BeginFlush? { BeginOk(s); } else if m.EndFlush? { EndOk(s); } else { ApplyOpOk(s, m); }
    case EndTransaction => EndTransactionOk(s);
    case WriteSuperBlock => SuperBlockOk(s);
    case Crash => CrashOk(s);
    case AbandonFlush => AbandonOk(s);
  }

  lemma SuperBlockOk(s: State)
    requires Inv(s) && Boundary(s)
    ensures Inv(Next(s, WriteSuperBlock))
  {
    hide View, Map, Replay, Shown, CountersOk, Blank, JournalOk;
  }

  lemma AbandonOk(s: State)
    requires Inv(s)
    ensures Inv(Next(s, AbandonFlush))
  {
    hide View, Map, Replay, Shown, CountersOk, Blank, JournalOk;
  }

  lemma BlankView(b: nat)
    ensures Shown([NoBytes()] + [], b) == None && Shown([NoBytes()] + ([] + [NoBytes()]), b) == None
  {
    EmptyView([]);
    EmptyView([NoBytes()]);
    ViewOne(NoBytes(), b);
    assert [] + [NoBytes()] == [NoBytes()];
  }

  lemma InitOk(device: nat)
    requires device <= I64_MAX
    ensures Inv(Init(device))
  {
    hide View, Shown;
    var s := Init(device);
    assert Replay([], 0) == InitMemory();
    forall o: nat ensures CountBelow(s.live, o, device) == 0 { CountNone(s.live, o, device); }
    CountersTotal(s.live, device, s.file.counts);
    forall b: nat
      ensures Shown([NoBytes()] + [], b) == None && Shown([NoBytes()] + ([] + [NoBytes()]), b) == None
    {
      BlankView(b);
    }
  }

  lemma {:induction false} CountNone(m: Memory, o: nat, n: nat)
    requires m == InitMemory()
    ensures CountBelow(m, o, n) == 0
    decreases n
  {
    hide View, Shown;
    if n > 0 {
      CountNone(m, o, n - 1);
      BlankView(n - 1);
    }
  }

  ghost predicate IsRun(device: nat, states: seq<State>, steps: seq<Step>)
  {
    && |states| == |steps| + 1 && states[0] == Init(device)
    && (forall k :: 0 <= k < |steps| ==> Enabled(states[k], steps[k]))
    && (forall k, k' :: 0 <= k < |steps| && k' == k + 1 ==> states[k'] == Next(states[k], steps[k]))
  }

  lemma {:induction false} RunOk(device: nat, states: seq<State>, steps: seq<Step>, k: nat)
    requires device <= I64_MAX && IsRun(device, states, steps) && k <= |steps|
    ensures Inv(states[k]) && states[k].device == device
    decreases k
  {
    hide Inv, Enabled;
    if k == 0 {
      InitOk(device);
    } else {
      RunOk(device, states, steps, k - 1);
      StepOk(states[k - 1], steps[k - 1]);
    }
  }

  /** In every run, with any number of completed, abandoned and interrupted flushes, super-blocks and
      earlier crashes: if the system stops now, replaying the journal and opening the allocator
      succeeds, and gives every byte the owner and every owner the number of bytes it has in the
      running system, which is the number of bytes allocated to it. */
  lemma RecoveryIsExact(device: nat, states: seq<State>, steps: seq<Step>, k: nat)
    requires device <= I64_MAX && IsRun(device, states, steps) && k <= |steps|
    ensures var s := states[k];
            var m := Replay(s.journal, s.start);
            && OpenSucceeds(m, s.file, device)
            && (forall b: nat :: Map(Opened(m, s.file), b) == Map(s.live, b))
            && (forall o: nat :: Opened(m, s.file).counts(o) == s.live.counts(o) == CountBelow(s.live, o, device))
  {
    hide View, Map, Replay, Shown, Blank, JournalOk, Enabled, Rel, OpenSucceeds;
    RunOk(device, states, steps, k);
    OpenOk(Replay(states[k].journal, states[k].start), states[k]);
  }

  /** The same for the code: replaying the journal and opening with the entries of the info file
      never reports an inconsistency, and gives the counters of the system before the crash. */
  method Recover(journal: seq<Record>, start: nat, entries: seq<(nat, int)>, device: nat, ghost states: seq<State>,
                 ghost steps: seq<Step>)
    returns (r: Option<Counts>)
    requires device <= I64_MAX && IsRun(device, states, steps) && Distinct(entries)
    requires var s := states[|steps|];
             s.journal == journal && s.start == start && forall o: nat :: s.file.counts(o) == CountsOf(entries)(o)
    requires forall i :: 0 <= i < |entries| ==> entries[i].1 >= 0
    ensures r.Some? && forall o: nat :: r.value(o) == states[|steps|].live.counts(o)
  {
    ghost var s := states[|steps|];
    RecoveryIsExact(device, states, steps, |steps|);
    hide Map, Enabled, CountBelow, IsRun, Replay;
    var m := ReplayJournal(journal, start);
    EntriesFit(m, s.file, device, entries);
    r := OpenCounters(m.counts, entries, device);
    forall o: nat ensures r.value(o) == s.live.counts(o) { assert Opened(m, s.file).counts(o) == s.live.counts(o); }
  }
}
