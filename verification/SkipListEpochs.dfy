/** The concurrent half of the skip list layer (src/lsm_tree/skip_list_layer.rs): lock-free
    readers, one writer at a time, a single level-0 store that publishes a whole edit, and the
    two-epoch scheme that decides when unlinked nodes may be freed.

    Memory is a map from node addresses to pointer lists.  Every atomic pointer load or store and
    every section under the `inner` mutex is one step. */
module SkipListEpochs {

  /** The next pointers of every allocated node, level by level; the list head has them too. */
  type Heap = map<nat, seq<int>>

  const NIL: int := -1
  const HEAD: nat := 0

  ghost function Elements(s: seq<nat>): set<nat> { set x | x in s }

  ghost predicate NoDup(s: seq<nat>) { forall p, q :: 0 <= p < q < |s| ==> s[p] != s[q] }

  function FirstOr(s: seq<nat>, otherwise: int): int { if s == [] then otherwise else s[0] }

  /** Consecutive nodes of `s` are linked at `level`. */
  ghost predicate Links(heap: Heap, s: seq<nat>, level: nat)
  {
    && (forall p :: 0 <= p < |s| ==> s[p] in heap && level < |heap[s[p]]|)
    && (forall p, q :: 0 <= p < q < |s| && q == p + 1 ==> heap[s[p]][level] == s[q])
  }

  /** `s` is a linked run at `level` whose last pointer is `end`. */
  ghost predicate Run(heap: Heap, s: seq<nat>, level: nat, end: int)
  {
    && Links(heap, s, level)
    && (s != [] ==> heap[s[|s| - 1]][level] == end)
  }

  /** Every pointer of every node in `from` is null or leads into `to`. */
  ghost predicate Closed(heap: Heap, from: set<nat>, to: set<nat>)
  {
    forall n, i :: n in from && n in heap && 0 <= i < |heap[n]| ==> heap[n][i] == NIL || heap[n][i] in to
  }

  // ---- The stores a writer performs ----

  /** A store made while editing, before anything is published: any pointer of a node of the
      insertion chain, or an upper pointer of a node before the edit, which may only be moved
      past erased nodes. */
  ghost predicate EditStoreOk(heap: Heap, pre: seq<nat>, ins: seq<nat>, suf: seq<nat>,
                              node: nat, level: nat, target: int)
  {
    && node in heap && level < |heap[node]|
    && ((node in ins && (target == NIL || target in ins || target in suf))
        || (node in pre && level >= 1 && (target == NIL || target in suf)))
  }

  /** The store that publishes the edit: the level-0 pointer of the last node before it, at a
      moment when the insertion chain already leads to the items after the edit. */
  ghost predicate SpliceStoreOk(heap: Heap, pre: seq<nat>, ins: seq<nat>, suf: seq<nat>, node: nat, target: int)
  {
    && pre != [] && node == pre[|pre| - 1] && node in heap && 0 < |heap[node]|
    && target == FirstOr(ins + suf, NIL)
    && Run(heap, ins, 0, FirstOr(suf, NIL))
  }

  /** The stores that follow it on the levels above. */
  ghost predicate UpperSpliceStoreOk(heap: Heap, pre: seq<nat>, ins: seq<nat>, node: nat, level: nat, target: int)
  {
    node in pre && node in heap && 1 <= level < |heap[node]| && target in ins
  }

  function Store(heap: Heap, node: nat, level: nat, target: int): Heap
    requires node in heap && level < |heap[node]|
  {
    heap[node := heap[node][level := target]]
  }

  // ---- The part guarded by the `inner` mutex ----

  datatype Inner = Inner(epoch: nat, counts: seq<nat>, eraseStart: int, eraseEnd: int)

  /** `free_erase_list`: frees nodes along level 0 from `start` up to (not including) `end`.  The
      flag is set when a node is freed that is not allocated. */
  function FreeWalk(heap: Heap, start: int, end: int): (Heap, bool)
    decreases |heap|
  {
    if start == NIL || start == end then (heap, false)
    else if start < 0 || start !in heap || heap[start] == [] then (heap, true)
    else FreeWalk(heap - {start}, heap[start][0], end)
  }

  /** What the locked part of `commit` does to the epoch, the read counts and the erase list, and
      whether it frees the erase list on the spot. */
  function CommitInner(inner: Inner, start: int, end: int, force: bool): (Inner, bool)
    requires |inner.counts| == 2
  {
    var hasReaders := inner.counts[inner.epoch % 2] > 0;
    if start != NIL && start != end then
      var i := inner.(eraseStart := start, eraseEnd := end);
      if hasReaders then (i.(epoch := inner.epoch + 1), false) else (i, true)
    else if force && hasReaders then
      (inner.(eraseStart := NIL, eraseEnd := NIL, epoch := inner.epoch + 1), false)
    else (inner, false)
  }

  lemma ElementsCons(first: nat, rest: seq<nat>)
    ensures Elements([first] + rest) == {first} + Elements(rest)
  {
  }

  /** Freeing a linked run of distinct allocated nodes removes exactly those nodes and never
      touches an unallocated one. */
  lemma {:induction false} FreeWalkRun(heap: Heap, run: seq<nat>, end: int)
    requires NoDup(run) && Run(heap, run, 0, end) && (end == NIL || end !in run)
    ensures FreeWalk(heap, FirstOr(run, end), end) == (heap - Elements(run), false)
    decreases |run|
  {
    if run == [] {
      assert heap - Elements(run) == heap;
    } else {
      var first, rest, heap' := run[0], run[1..], heap - {run[0]};
      assert FreeWalk(heap, first, end) == FreeWalk(heap', heap[first][0], end);
      RunTail(heap, run, end);
      FreeWalkRun(heap', rest, end);
      ElementsCons(first, rest);
      assert run == [first] + rest;
      assert heap - Elements(run) == heap' - Elements(rest);
    }
  }

  /** The rest of a run is still a run once its first node is freed. */
  lemma RunTail(heap: Heap, run: seq<nat>, end: int)
    requires run != [] && NoDup(run) && Run(heap, run, 0, end)
    ensures NoDup(run[1..]) && Run(heap - {run[0]}, run[1..], 0, end)
    ensures heap[run[0]][0] == FirstOr(run[1..], end)
  {
    var rest, heap' := run[1..], heap - {run[0]};
    forall p | 0 <= p < |rest| ensures rest[p] in heap' && heap'[rest[p]] == heap[rest[p]] {
      assert rest[p] == run[p + 1] && run[p + 1] != run[0];
    }
  }

  // ---- The whole system ----

  /** A reader holds the epoch it registered in and its current node.  `trail` lists the nodes of
      a level-0 scan from the head; `begun` is the list when it registered and `splices` the
      number of edits published since. */
  datatype Reader = Reader(epoch: nat, at: int, scanning: bool, trail: seq<nat>, begun: seq<nat>, splices: nat)

  datatype Phase =
    | Idle
    | Editing(pre: seq<nat>, era: seq<nat>, ins: seq<nat>, suf: seq<nat>)
    | Spliced(pre: seq<nat>, era: seq<nat>, ins: seq<nat>, suf: seq<nat>, start: int)
    | Committed(epoch: nat)

  /** `chain` is the published list (with the head), `retired` the nodes unlinked but not yet
      freed, `before` the list as it was before the latest edit was published and `cut` the length
      of the part the two have in common.  `forced` says that every commit so far asked for an
      epoch change, as `commit_and_wait` does.  `fault` records a load from or a free of memory
      that is not allocated. */
  datatype State = State(heap: Heap, inner: Inner, readers: map<nat, Reader>, phase: Phase,
                         chain: seq<nat>, retired: seq<nat>, before: seq<nat>, cut: nat,
                         forced: bool, fault: bool)

  datatype Step =
    | ReaderStart(id: nat)
    | ReaderLoad(id: nat, level: nat)
    | ReaderDrop(id: nat)
    | WriterBegin(at: nat)                       // lock taken and old readers gone
    | WriterMove(at: nat)                        // advance before the first edit
    | WriterAlloc(node: nat, height: nat)
    | WriterErase                                // the current item joins the erased ones
    | WriterStore(node: nat, level: nat, target: int)
    | WriterSplice
    | WriterUpperSplice(node: nat, level: nat, target: int)
    | WriterCommit(force: bool)                  // the locked part of commit
    | WriterRelease(wait: bool)                  // writer lock dropped

  function Init(levels: nat): State
  {
    State(map[HEAD := seq(levels, i => NIL)], Inner(0, [0, 0], NIL, NIL), map[], Idle,
          [HEAD], [], [HEAD], 1, true, false)
  }

  function Fresh(s: State): seq<nat> { if s.phase.Editing? then s.phase.ins else [] }

  /** What the code allows to happen next. */
  ghost predicate Enabled(s: State, step: Step)
    requires |s.inner.counts| == 2
  {
    match step
    case ReaderStart(id) => id !in s.readers
    case ReaderLoad(id, level) => id in s.readers && s.readers[id].at != NIL
    case ReaderDrop(id) => id in s.readers
    case WriterBegin(at) => s.phase.Idle? && s.inner.counts[(s.inner.epoch + 1) % 2] == 0 && 1 <= at <= |s.chain|
    case WriterMove(at) => s.phase.Editing? && s.phase.era == [] && s.phase.ins == [] && 1 <= at <= |s.chain|
    case WriterAlloc(node, height) => s.phase.Editing? && node !in s.heap && height >= 1
    case WriterErase => s.phase.Editing? && s.phase.suf != []
    case WriterStore(node, level, target) =>
      s.phase.Editing? && EditStoreOk(s.heap, s.phase.pre, s.phase.ins, s.phase.suf, node, level, target)
    case WriterSplice =>
      s.phase.Editing? && s.phase.pre != [] &&
      SpliceStoreOk(s.heap, s.phase.pre, s.phase.ins, s.phase.suf, s.phase.pre[|s.phase.pre| - 1],
                    FirstOr(s.phase.ins + s.phase.suf, NIL))
    case WriterUpperSplice(node, level, target) =>
      s.phase.Spliced? && UpperSpliceStoreOk(s.heap, s.phase.pre, s.phase.ins, node, level, target)
    case WriterCommit(force) =>
      s.phase.Spliced? && Closed(s.heap, Elements(s.chain), Elements(s.chain))
    case WriterRelease(wait) =>
      (s.phase.Editing? && s.phase.era == [] && s.phase.ins == []) ||
      (s.phase.Committed? && (wait ==> s.inner.counts[(s.phase.epoch + 1) % 2] == 0))
  }

  function LoadStep(r: Reader, heap: Heap, level: nat): Reader
    requires r.at >= 0 && r.at in heap && level < |heap[r.at]|
  {
    var next := heap[r.at][level];
    if r.scanning && level == 0 then
      r.(at := next, trail := if next >= 0 then r.trail + [next] else r.trail)
    else r.(at := next, scanning := false)
  }

  function CountSplice(readers: map<nat, Reader>): map<nat, Reader>
  {
    map id | id in readers :: readers[id].(splices := readers[id].splices + 1)
  }

  function Next(s: State, step: Step): State
    requires |s.inner.counts| == 2
  {
    match step
    case ReaderStart(id) =>
      var e := s.inner.epoch % 2;
      s.(inner := s.inner.(counts := s.inner.counts[e := s.inner.counts[e] + 1]),
         readers := s.readers[id := Reader(s.inner.epoch, HEAD, true, [HEAD], s.chain, 0)])
    case ReaderLoad(id, level) =>
      if id !in s.readers then s
      else
        var r := s.readers[id];
        if r.at < 0 || r.at !in s.heap then s.(fault := true)
        else if level < |s.heap[r.at]| then s.(readers := s.readers[id := LoadStep(r, s.heap, level)])
        else s
    case ReaderDrop(id) =>
      if id !in s.readers then s
      else
        var r := s.readers[id];
        var e := r.epoch % 2;
        if s.inner.counts[e] == 0 then s.(fault := true)
        else
          var inner := s.inner.(counts := s.inner.counts[e := s.inner.counts[e] - 1]);
          var s' := s.(inner := inner, readers := s.readers - {id});
          if inner.counts[e] == 0 && inner.epoch != r.epoch then
            var (heap, bad) := FreeWalk(s.heap, inner.eraseStart, inner.eraseEnd);
            s'.(heap := heap, retired := [], fault := s.fault || bad)
          else s'
    case WriterBegin(at) =>
      if at <= |s.chain| then s.(phase := Editing(s.chain[..at], [], [], s.chain[at..])) else s
    case WriterMove(at) =>
      if at <= |s.chain| then s.(phase := Editing(s.chain[..at], [], [], s.chain[at..])) else s
    case WriterAlloc(node, height) =>
      if s.phase.Editing? then
        s.(heap := s.heap[node := seq(height, i => NIL)],
           phase := Editing(s.phase.pre, s.phase.era, s.phase.ins + [node], s.phase.suf))
      else s
    case WriterErase =>
      if s.phase.Editing? && s.phase.suf != [] then
        s.(phase := Editing(s.phase.pre, s.phase.era + [s.phase.suf[0]], s.phase.ins, s.phase.suf[1..]))
      else s
    case WriterStore(node, level, target) =>
      if node in s.heap && level < |s.heap[node]| then s.(heap := Store(s.heap, node, level, target)) else s
    case WriterSplice =>
      if s.phase.Editing? && s.phase.pre != [] && s.phase.pre[|s.phase.pre| - 1] in s.heap
         && 0 < |s.heap[s.phase.pre[|s.phase.pre| - 1]]|
      then
        var p := s.phase;
        var last := p.pre[|p.pre| - 1];
        s.(heap := Store(s.heap, last, 0, FirstOr(p.ins + p.suf, NIL)),
           phase := Spliced(p.pre, p.era, p.ins, p.suf, s.heap[last][0]),
           chain := p.pre + p.ins + p.suf, retired := p.era, before := s.chain, cut := |p.pre|,
           readers := CountSplice(s.readers))
      else s
    case WriterUpperSplice(node, level, target) =>
      if node in s.heap && level < |s.heap[node]| then s.(heap := Store(s.heap, node, level, target)) else s
    case WriterCommit(force) =>
      if s.phase.Spliced? then
        var end := FirstOr(s.phase.suf, NIL);
        var (inner, free) := CommitInner(s.inner, s.phase.start, end, force);
        var (heap, bad) := if free then FreeWalk(s.heap, inner.eraseStart, inner.eraseEnd) else (s.heap, false);
        s.(inner := inner, heap := heap, retired := if free then [] else s.retired,
           phase := Committed(inner.epoch), forced := s.forced && force, fault := s.fault || bad)
      else s
    case WriterRelease(wait) => s.(phase := Idle)
  }

  // ---- What every reachable state satisfies ----

  ghost function InEpoch(readers: map<nat, Reader>, epoch: nat): set<nat>
  {
    set id | id in readers && readers[id].epoch == epoch
  }

  /** Some reader registered before the latest epoch change and is still active. */
  ghost predicate OldReaders(readers: map<nat, Reader>, epoch: nat)
  {
    exists id :: id in readers && readers[id].epoch != epoch
  }

  /** The allocated nodes are exactly the published, the unlinked and the not yet published ones,
      and level 0 links the published list. */
  ghost predicate MemoryOk(heap: Heap, chain: seq<nat>, retired: seq<nat>, unpub: seq<nat>)
  {
    && chain != [] && chain[0] == HEAD
    && NoDup(chain) && NoDup(retired) && NoDup(unpub)
    && (forall n :: n in chain ==> n !in retired && n !in unpub)
    && (forall n :: n in retired ==> n !in unpub)
    && (forall n :: n in heap <==> n in chain || n in retired || n in unpub)
    && (forall n :: n in heap ==> heap[n] != [])
    && Run(heap, chain, 0, NIL)
  }

  ghost predicate PhaseOk(heap: Heap, phase: Phase, chain: seq<nat>, retired: seq<nat>, epoch: nat, lag: bool)
  {
    match phase
    case Idle => true
    case Editing(pre, era, ins, suf) =>
      && chain == pre + era + suf && pre != [] && retired == [] && !lag
      && FreshClosed(heap, ins, chain)
    case Spliced(pre, era, ins, suf, start) =>
      && chain == pre + ins + suf && pre != [] && retired == era && !lag
      && start == FirstOr(era + suf, NIL) && Run(heap, era, 0, FirstOr(suf, NIL))
      && (forall n :: n in era ==> n !in suf)
    case Committed(e) => e == epoch
  }

  ghost predicate FreshClosed(heap: Heap, ins: seq<nat>, chain: seq<nat>)
  {
    Closed(heap, Elements(ins), Elements(ins) + Elements(chain))
  }

  ghost predicate PublishedClosed(heap: Heap, chain: seq<nat>, retired: seq<nat>)
  {
    Closed(heap, Elements(chain) + Elements(retired), Elements(chain) + Elements(retired))
  }

  ghost predicate ChainClosed(heap: Heap, chain: seq<nat>) { Closed(heap, Elements(chain), Elements(chain)) }

  /** At most two epochs are live and the read counts are exact. */
  ghost predicate EpochsOk(epoch: nat, counts: seq<nat>, readers: map<nat, Reader>)
  {
    && |counts| == 2
    && (forall id :: id in readers ==> readers[id].epoch == epoch || readers[id].epoch + 1 == epoch)
    && counts[epoch % 2] == |InEpoch(readers, epoch)|
    && counts[(epoch + 1) % 2] == (if epoch == 0 then 0 else |InEpoch(readers, epoch - 1)|)
  }

  /** While old readers are active the erase list holds exactly the unlinked nodes. */
  ghost predicate EraseOk(heap: Heap, retired: seq<nat>, start: int, end: int, spliced: bool, lag: bool)
  {
    && (retired != [] ==> spliced || lag)
    && (lag ==>
          && Run(heap, retired, 0, end) && start == FirstOr(retired, end)
          && (retired == [] ==> end == NIL) && (end == NIL || end !in retired))
  }

  /** Where a reader may be: in the published list, or, if it registered before the nodes in
      `retired` were given up, in those. */
  ghost predicate PositionOk(r: Reader, chain: seq<nat>, retired: seq<nat>, epoch: nat, spliced: bool)
  {
    r.at == NIL || r.at in chain || (r.at in retired && (spliced || r.epoch != epoch))
  }

  ghost predicate PositionsOk(readers: map<nat, Reader>, chain: seq<nat>, retired: seq<nat>, epoch: nat, spliced: bool)
  {
    forall id :: id in readers ==> PositionOk(readers[id], chain, retired, epoch, spliced)
  }

  ghost predicate BeforeOk(heap: Heap, chain: seq<nat>, before: seq<nat>, cut: nat, live: bool)
  {
    live ==>
      && 1 <= cut <= |before| && cut <= |chain| && before[..cut] == chain[..cut]
      && Run(heap, before[cut..], 0, NIL)
  }

  /** A scan has followed the list as it was when the reader registered or as it is now. */
  ghost predicate ScanOk(r: Reader, chain: seq<nat>, before: seq<nat>, epoch: nat, spliced: bool)
  {
    && (r.splices == 0 ==> r.begun == chain)
    && (r.splices != 0 ==> r.splices == 1 && r.begun == before && (spliced || r.epoch != epoch))
    && (r.scanning ==>
          && r.trail != [] && (r.trail <= r.begun || r.trail <= chain)
          && (if r.at == NIL then r.trail == r.begun || r.trail == chain else r.at == r.trail[|r.trail| - 1]))
  }

  ghost predicate ScansOk(readers: map<nat, Reader>, chain: seq<nat>, before: seq<nat>, epoch: nat, spliced: bool)
  {
    forall id :: id in readers ==> ScanOk(readers[id], chain, before, epoch, spliced)
  }

  ghost predicate Inv(s: State)
  {
    var lag := OldReaders(s.readers, s.inner.epoch);
    var spliced := s.phase.Spliced?;
    && !s.fault
    && MemoryOk(s.heap, s.chain, s.retired, Fresh(s))
    && PhaseOk(s.heap, s.phase, s.chain, s.retired, s.inner.epoch, lag)
    && PublishedClosed(s.heap, s.chain, s.retired)
    && (!spliced ==> ChainClosed(s.heap, s.chain))
    && EpochsOk(s.inner.epoch, s.inner.counts, s.readers)
    && EraseOk(s.heap, s.retired, s.inner.eraseStart, s.inner.eraseEnd, spliced, lag)
    && BeforeOk(s.heap, s.chain, s.before, s.cut, spliced || lag)
    && PositionsOk(s.readers, s.chain, s.retired, s.inner.epoch, spliced)
    && (s.forced ==> ScansOk(s.readers, s.chain, s.before, s.inner.epoch, spliced))
  }

  lemma InitOk(levels: nat)
    requires levels >= 1
    ensures Inv(Init(levels))
  {
    assert InEpoch(Init(levels).readers, 0) == {};
  }

  // -- readers --

  lemma ReaderStartOk(s: State, id: nat)
    requires Inv(s) && Enabled(s, ReaderStart(id))
    ensures Inv(Next(s, ReaderStart(id)))
  {
    hide Run, Links, Closed, NoDup, PublishedClosed, FreshClosed, ChainClosed, EraseOk, BeforeOk, Elements;
    var s' := Next(s, ReaderStart(id));
    StartCounts(s.inner.epoch, s.inner.counts, s.readers, id, s'.readers[id]);
    OldReadersUpdate(s.readers, s.inner.epoch, id, s'.readers[id]);
    assert ScanOk(s'.readers[id], s.chain, s.before, s.inner.epoch, s.phase.Spliced?);
  }

  lemma StartCounts(epoch: nat, counts: seq<nat>, readers: map<nat, Reader>, id: nat, r: Reader)
    requires EpochsOk(epoch, counts, readers) && id !in readers && r.epoch == epoch
    ensures EpochsOk(epoch, counts[epoch % 2 := counts[epoch % 2] + 1], readers[id := r])
  {
    assert InEpoch(readers[id := r], epoch) == InEpoch(readers, epoch) + {id};
    if epoch > 0 { assert InEpoch(readers[id := r], epoch - 1) == InEpoch(readers, epoch - 1); }
  }

  lemma OldReadersUpdate(readers: map<nat, Reader>, epoch: nat, id: nat, r: Reader)
    requires r.epoch == if id in readers then readers[id].epoch else epoch
    ensures OldReaders(readers[id := r], epoch) <==> OldReaders(readers, epoch)
  {
    var after := readers[id := r];
    if OldReaders(readers, epoch) {
      var i :| i in readers && readers[i].epoch != epoch;
      assert i in after && after[i].epoch != epoch;
    }
    if OldReaders(after, epoch) {
      var i :| i in after && after[i].epoch != epoch;
      assert i in readers && readers[i].epoch != epoch;
    }
  }

  lemma ReaderLoadOk(s: State, id: nat, level: nat)
    requires Inv(s) && Enabled(s, ReaderLoad(id, level))
    ensures Inv(Next(s, ReaderLoad(id, level)))
    ensures s.readers[id].at in s.heap
  {
    hide Run, Links, Closed, NoDup, PublishedClosed, FreshClosed, ChainClosed, EpochsOk, EraseOk, BeforeOk, Elements;
    var r := s.readers[id];
    assert PositionOk(r, s.chain, s.retired, s.inner.epoch, s.phase.Spliced?);
    assert r.at in s.heap;
    if level < |s.heap[r.at]| {
      var r' := LoadStep(r, s.heap, level);
      OldReadersUpdate(s.readers, s.inner.epoch, id, r');
      LoadCounts(s.inner.epoch, s.inner.counts, s.readers, id, r');
      LoadPosition(s, r, level);
      if s.forced {
        assert ScanOk(r, s.chain, s.before, s.inner.epoch, s.phase.Spliced?);
        assert r.epoch != s.inner.epoch ==> OldReaders(s.readers, s.inner.epoch);
        LoadScan(r, s.heap, level, s.chain, s.before, s.cut, s.inner.epoch, s.phase.Spliced?);
      }
    }
  }

  lemma LoadCounts(epoch: nat, counts: seq<nat>, readers: map<nat, Reader>, id: nat, r: Reader)
    requires EpochsOk(epoch, counts, readers) && id in readers && r.epoch == readers[id].epoch
    ensures EpochsOk(epoch, counts, readers[id := r])
  {
    forall e: nat ensures InEpoch(readers[id := r], e) == InEpoch(readers, e) { }
  }

  lemma LoadPosition(s: State, r: Reader, level: nat)
    requires PublishedClosed(s.heap, s.chain, s.retired) && (!s.phase.Spliced? ==> ChainClosed(s.heap, s.chain))
    requires PositionOk(r, s.chain, s.retired, s.inner.epoch, s.phase.Spliced?)
    requires r.at >= 0 && r.at in s.heap && level < |s.heap[r.at]|
    ensures PositionOk(LoadStep(r, s.heap, level), s.chain, s.retired, s.inner.epoch, s.phase.Spliced?)
  {
    var next := s.heap[r.at][level];
    if r.at in s.chain && !s.phase.Spliced? {
      assert r.at in Elements(s.chain);
    } else {
      assert r.at in Elements(s.chain) + Elements(s.retired);
    }
  }

  lemma LoadScan(r: Reader, heap: Heap, level: nat, chain: seq<nat>, before: seq<nat>, cut: nat, epoch: nat,
                 spliced: bool)
    requires ScanOk(r, chain, before, epoch, spliced) && Run(heap, chain, 0, NIL)
    requires r.splices != 0 ==> BeforeOk(heap, chain, before, cut, true)
    requires r.at >= 0 && r.at in heap && level < |heap[r.at]|
    ensures ScanOk(LoadStep(r, heap, level), chain, before, epoch, spliced)
  {
    if r.scanning && level == 0 {
      if r.trail <= chain {
        FollowList(heap, chain, r.trail);
      } else {
        CommonPart(chain, before, cut, r.trail);
        FollowBefore(heap, before, cut, r.trail);
      }
    }
  }

  lemma CommonPart(chain: seq<nat>, before: seq<nat>, cut: nat, trail: seq<nat>)
    requires cut <= |before| && cut <= |chain| && before[..cut] == chain[..cut] && trail <= before
    ensures |trail| <= cut ==> trail <= chain
  {
    if |trail| <= cut {
      assert trail == before[..cut][..|trail|];
      assert chain[..|trail|] == chain[..cut][..|trail|];
    }
  }

  /** One more load on level 0 keeps a trail inside a list that level 0 links. */
  lemma FollowList(heap: Heap, list: seq<nat>, trail: seq<nat>)
    requires Run(heap, list, 0, NIL) && trail != [] && trail <= list
    ensures trail[|trail| - 1] in heap && heap[trail[|trail| - 1]] != []
    ensures var next := heap[trail[|trail| - 1]][0];
            if next == NIL then trail == list else next >= 0 && trail + [next] <= list
  {
    var n := |trail|;
    assert list[n - 1] == trail[n - 1];
    if n < |list| {
      assert heap[list[n - 1]][0] == list[n];
      assert trail + [list[n]] == list[..n + 1];
    }
  }

  lemma FollowBefore(heap: Heap, before: seq<nat>, cut: nat, trail: seq<nat>)
    requires cut < |trail| && trail <= before && Run(heap, before[cut..], 0, NIL)
    ensures trail[|trail| - 1] in heap && heap[trail[|trail| - 1]] != []
    ensures var next := heap[trail[|trail| - 1]][0];
            if next == NIL then trail == before else next >= 0 && trail + [next] <= before
  {
    var tail := before[cut..];
    assert trail[cut..] == tail[..|trail| - cut];
    FollowList(heap, tail, trail[cut..]);
    assert before == before[..cut] + tail && trail == before[..cut] + trail[cut..];
  }

  lemma ReaderDropOk(s: State, id: nat)
    requires Inv(s) && Enabled(s, ReaderDrop(id))
    ensures Inv(Next(s, ReaderDrop(id)))
  {
    var r := s.readers[id];
    if s.inner.counts[r.epoch % 2] == 1 && s.inner.epoch != r.epoch {
      ReaderDropFrees(s, id);
    } else {
      ReaderDropQuiet(s, id);
    }
  }

  lemma ReaderDropQuiet(s: State, id: nat)
    requires Inv(s) && Enabled(s, ReaderDrop(id))
    requires !(s.inner.counts[s.readers[id].epoch % 2] == 1 && s.inner.epoch != s.readers[id].epoch)
    ensures Inv(Next(s, ReaderDrop(id)))
  {
    hide Run, Links, Closed, NoDup, PublishedClosed, FreshClosed, ChainClosed, Elements, FreeWalk;
    DropCounts(s.inner.epoch, s.inner.counts, s.readers, id);
    OldReadersDrop(s.inner.epoch, s.inner.counts, s.readers, id);
  }

  /** The last reader of the earlier epoch frees what was erased. */
  lemma ReaderDropFrees(s: State, id: nat)
    requires Inv(s) && Enabled(s, ReaderDrop(id))
    requires s.inner.counts[s.readers[id].epoch % 2] == 1 && s.inner.epoch != s.readers[id].epoch
    ensures Inv(Next(s, ReaderDrop(id)))
  {
    hide Run, Links, Closed, NoDup, PublishedClosed, FreshClosed, ChainClosed, Elements, FreeWalk;
    var s', epoch := Next(s, ReaderDrop(id)), s.inner.epoch;
    DropCounts(epoch, s.inner.counts, s.readers, id);
    OldReadersDrop(epoch, s.inner.counts, s.readers, id);
    FreeWalkRun(s.heap, s.retired, s.inner.eraseEnd);
    assert s.phase.Idle? || s.phase.Committed?;
    FreeKeepsList(s.heap, s'.heap, s.chain, s.retired);
    forall i | i in s'.readers ensures PositionOk(s'.readers[i], s.chain, [], epoch, false) {
      assert PositionOk(s.readers[i], s.chain, s.retired, epoch, false);
    }
  }

  lemma DropCounts(epoch: nat, counts: seq<nat>, readers: map<nat, Reader>, id: nat)
    requires EpochsOk(epoch, counts, readers) && id in readers
    ensures var e := readers[id].epoch % 2;
            counts[e] > 0 && EpochsOk(epoch, counts[e := counts[e] - 1], readers - {id})
  {
    var f := readers[id].epoch;
    assert id in InEpoch(readers, f);
    assert InEpoch(readers - {id}, f) == InEpoch(readers, f) - {id};
    forall e: nat | e != f ensures InEpoch(readers - {id}, e) == InEpoch(readers, e) { }
  }

  /** Old readers are gone exactly when the count of their epoch reaches zero. */
  lemma OldReadersDrop(epoch: nat, counts: seq<nat>, readers: map<nat, Reader>, id: nat)
    requires EpochsOk(epoch, counts, readers) && id in readers
    ensures readers[id].epoch != epoch ==> OldReaders(readers, epoch)
    ensures readers[id].epoch != epoch ==>
              (OldReaders(readers - {id}, epoch) <==> counts[readers[id].epoch % 2] != 1)
    ensures readers[id].epoch == epoch ==> (OldReaders(readers - {id}, epoch) <==> OldReaders(readers, epoch))
  {
    var f, rest := readers[id].epoch, readers - {id};
    DropCounts(epoch, counts, readers, id);
    if f != epoch {
      OldReadersCount(epoch, counts[f % 2 := counts[f % 2] - 1], rest);
    } else {
      if OldReaders(readers, epoch) {
        var i :| i in readers && readers[i].epoch != epoch;
        assert i in rest && rest[i].epoch != epoch;
      }
      if OldReaders(rest, epoch) {
        var i :| i in rest && rest[i].epoch != epoch;
        assert i in readers && readers[i].epoch != epoch;
      }
    }
  }

  lemma OldReadersCount(epoch: nat, counts: seq<nat>, readers: map<nat, Reader>)
    requires EpochsOk(epoch, counts, readers)
    ensures OldReaders(readers, epoch) <==> counts[(epoch + 1) % 2] != 0
  {
    if OldReaders(readers, epoch) {
      var i :| i in readers && readers[i].epoch != epoch;
      assert i in InEpoch(readers, epoch - 1);
    } else if epoch > 0 {
      assert InEpoch(readers, epoch - 1) == {};
    }
  }

  /** Freeing the unlinked nodes leaves the published list as it was. */
  lemma FreeKeepsList(heap: Heap, heap': Heap, chain: seq<nat>, retired: seq<nat>)
    requires MemoryOk(heap, chain, retired, []) && ChainClosed(heap, chain) && heap' == heap - Elements(retired)
    ensures MemoryOk(heap', chain, [], []) && ChainClosed(heap', chain) && PublishedClosed(heap', chain, [])
  {
    forall n | n in chain ensures n in heap' && heap'[n] == heap[n] { }
  }

  // -- the writer, up to publication --

  lemma WriterBeginOk(s: State, at: nat)
    requires Inv(s) && Enabled(s, WriterBegin(at))
    ensures Inv(Next(s, WriterBegin(at)))
    ensures s.retired == []
  {
    hide Run, Links, NoDup, PublishedClosed, ChainClosed, PositionsOk, ScansOk;
    OldReadersCount(s.inner.epoch, s.inner.counts, s.readers);
  }

  lemma WriterMoveOk(s: State, at: nat)
    requires Inv(s) && Enabled(s, WriterMove(at))
    ensures Inv(Next(s, WriterMove(at)))
  {
    hide Run, Links, NoDup, PublishedClosed, ChainClosed, EpochsOk, PositionsOk, ScansOk;
  }

  lemma WriterAllocOk(s: State, node: nat, height: nat)
    requires Inv(s) && Enabled(s, WriterAlloc(node, height))
    ensures Inv(Next(s, WriterAlloc(node, height)))
  {
    hide Run, Links, Closed, NoDup, MemoryOk, FreshClosed, EpochsOk, PositionsOk, ScansOk, Elements;
    var nils := seq(height, i => NIL);
    AllocMemory(s.heap, s.chain, s.phase.ins, node, nils);
    AllocClosed(s.heap, s.chain, s.phase.ins, node, nils);
  }

  lemma AllocMemory(heap: Heap, chain: seq<nat>, ins: seq<nat>, node: nat, nils: seq<int>)
    requires MemoryOk(heap, chain, [], ins) && node !in heap && nils != []
    ensures MemoryOk(heap[node := nils], chain, [], ins + [node])
  {
    assert node !in chain && node !in ins;
    NoDupConcat(ins, [node]);
    assert Run(heap[node := nils], chain, 0, NIL);
  }

  lemma AllocClosed(heap: Heap, chain: seq<nat>, ins: seq<nat>, node: nat, nils: seq<int>)
    requires MemoryOk(heap, chain, [], ins) && node !in heap && forall i :: 0 <= i < |nils| ==> nils[i] == NIL
    requires ChainClosed(heap, chain) && FreshClosed(heap, ins, chain)
    ensures ChainClosed(heap[node := nils], chain) && PublishedClosed(heap[node := nils], chain, [])
    ensures FreshClosed(heap[node := nils], ins + [node], chain)
  {
    var heap' := heap[node := nils];
    assert node !in chain;
    forall n, i | n in Elements(ins + [node]) && n in heap' && 0 <= i < |heap'[n]|
      ensures heap'[n][i] == NIL || heap'[n][i] in Elements(ins + [node]) + Elements(chain)
    {
      if n != node { assert n in Elements(ins); }
    }
  }

  lemma WriterEraseOk(s: State)
    requires Inv(s) && Enabled(s, WriterErase)
    ensures Inv(Next(s, WriterErase))
  {
    hide Run, Links, Closed, NoDup, PublishedClosed, FreshClosed, ChainClosed, EpochsOk, EraseOk, BeforeOk;
    hide PositionsOk, ScansOk, Elements;
    var p := s.phase;
    assert s.chain == p.pre + (p.era + [p.suf[0]]) + p.suf[1..];
  }

  lemma WriterStoreOk(s: State, node: nat, level: nat, target: int)
    requires Inv(s) && Enabled(s, WriterStore(node, level, target))
    ensures Inv(Next(s, WriterStore(node, level, target)))
  {
    hide Run, Links, Closed, NoDup, EpochsOk, PositionsOk, ScansOk;
    var p := s.phase;
    EditTargets(p.pre, p.era, p.ins, p.suf, node, target);
    StoreMemory(s.heap, s.chain, p.ins, node, level, target);
    StoreClosed(s.heap, Elements(s.chain), Elements(s.chain), node, level, target);
    StoreClosed(s.heap, Elements(p.ins), Elements(p.ins) + Elements(s.chain), node, level, target);
    assert Elements(s.chain) + Elements([]) == Elements(s.chain);
  }

  lemma EditTargets(pre: seq<nat>, era: seq<nat>, ins: seq<nat>, suf: seq<nat>, node: nat, target: int)
    requires forall n :: n in pre + era + suf ==> n !in ins
    requires (node in ins && (target == NIL || target in ins || target in suf)) ||
             (node in pre && (target == NIL || target in suf))
    ensures node in Elements(pre + era + suf) ==> target == NIL || target in Elements(pre + era + suf)
    ensures node in Elements(ins) ==> target == NIL || target in Elements(ins) + Elements(pre + era + suf)
    ensures node in ins <==> node !in pre + era + suf
  {
    assert node in pre ==> node in pre + era + suf;
    assert target in suf ==> target in pre + era + suf;
  }

  lemma StoreMemory(heap: Heap, chain: seq<nat>, ins: seq<nat>, node: nat, level: nat, target: int)
    requires MemoryOk(heap, chain, [], ins) && node in heap && level < |heap[node]| && (node in chain ==> level >= 1)
    ensures MemoryOk(Store(heap, node, level, target), chain, [], ins)
  {
    if node in chain {
      StoreKeepsRun(heap, chain, node, level, target, NIL);
    }
  }

  lemma StoreClosed(heap: Heap, from: set<nat>, to: set<nat>, node: nat, level: nat, target: int)
    requires Closed(heap, from, to) && node in heap && level < |heap[node]|
    requires node in from ==> target == NIL || target in to
    ensures Closed(Store(heap, node, level, target), from, to)
  {
    var heap' := Store(heap, node, level, target);
    forall n, i | n in from && n in heap' && 0 <= i < |heap'[n]| ensures heap'[n][i] == NIL || heap'[n][i] in to {
      if n == node && i == level { } else { assert heap'[n][i] == heap[n][i]; }
    }
  }

  /** Stores above level 0 do not disturb level 0. */
  lemma StoreKeepsRun(heap: Heap, run: seq<nat>, node: nat, level: nat, target: int, end: int)
    requires Run(heap, run, 0, end) && node in heap && 1 <= level < |heap[node]|
    ensures Run(Store(heap, node, level, target), run, 0, end)
  {
  }

  // -- publication --

  lemma WriterSpliceOk(s: State)
    requires Inv(s) && Enabled(s, WriterSplice)
    ensures Inv(Next(s, WriterSplice))
  {
    hide Run, Links, Closed, NoDup, MemoryOk, PublishedClosed, FreshClosed, ChainClosed, EpochsOk, BeforeOk;
    hide PositionsOk, ScansOk, Elements;
    var p := s.phase;
    var heap' := Store(s.heap, p.pre[|p.pre| - 1], 0, FirstOr(p.ins + p.suf, NIL));
    SpliceHeap(s.heap, heap', p.pre, p.era, p.ins, p.suf, s.inner.epoch);
    SpliceClosed(s.heap, heap', p.pre, p.era, p.ins, p.suf);
    SpliceReaders(s.readers, s.inner.epoch, s.inner.counts);
    SplicePositions(s.readers, p.pre, p.era, p.ins, p.suf, s.inner.epoch);
    if s.forced { SpliceScans(s.readers, s.chain, p.pre + p.ins + p.suf, s.before, s.inner.epoch); }
  }

  lemma SpliceHeap(heap: Heap, heap': Heap, pre: seq<nat>, era: seq<nat>, ins: seq<nat>, suf: seq<nat>, epoch: nat)
    requires MemoryOk(heap, pre + era + suf, [], ins) && pre != [] && Run(heap, ins, 0, FirstOr(suf, NIL))
    requires heap' == Store(heap, pre[|pre| - 1], 0, FirstOr(ins + suf, NIL))
    ensures MemoryOk(heap', pre + ins + suf, era, [])
    ensures PhaseOk(heap', Spliced(pre, era, ins, suf, heap[pre[|pre| - 1]][0]), pre + ins + suf, era, epoch, false)
    ensures BeforeOk(heap', pre + ins + suf, pre + era + suf, |pre|, true)
  {
    hide Run, Links, NoDup, Elements;
    SpliceMemory(heap, heap', pre, era, ins, suf);
    SpliceLists(heap, heap', pre, era, ins, suf);
  }

  lemma SplicePositions(readers: map<nat, Reader>, pre: seq<nat>, era: seq<nat>, ins: seq<nat>, suf: seq<nat>,
                        epoch: nat)
    requires PositionsOk(readers, pre + era + suf, [], epoch, false)
    ensures PositionsOk(CountSplice(readers), pre + ins + suf, era, epoch, true)
  {
    forall id | id in readers ensures PositionOk(CountSplice(readers)[id], pre + ins + suf, era, epoch, true) {
      assert PositionOk(readers[id], pre + era + suf, [], epoch, false);
    }
  }

  lemma SpliceScans(readers: map<nat, Reader>, chain: seq<nat>, chain': seq<nat>, before: seq<nat>, epoch: nat)
    requires ScansOk(readers, chain, before, epoch, false) && !OldReaders(readers, epoch)
    ensures ScansOk(CountSplice(readers), chain', chain, epoch, true)
  {
    forall id | id in readers ensures ScanOk(CountSplice(readers)[id], chain', chain, epoch, true) {
      assert ScanOk(readers[id], chain, before, epoch, false);
      assert readers[id].epoch == epoch;
    }
  }

  lemma SpliceReaders(readers: map<nat, Reader>, epoch: nat, counts: seq<nat>)
    requires EpochsOk(epoch, counts, readers) && !OldReaders(readers, epoch)
    ensures EpochsOk(epoch, counts, CountSplice(readers)) && !OldReaders(CountSplice(readers), epoch)
  {
    forall e: nat ensures InEpoch(CountSplice(readers), e) == InEpoch(readers, e) { }
  }

  lemma SpliceMemory(heap: Heap, heap': Heap, pre: seq<nat>, era: seq<nat>, ins: seq<nat>, suf: seq<nat>)
    requires MemoryOk(heap, pre + era + suf, [], ins) && pre != [] && Run(heap, ins, 0, FirstOr(suf, NIL))
    requires heap' == Store(heap, pre[|pre| - 1], 0, FirstOr(ins + suf, NIL))
    ensures MemoryOk(heap', pre + ins + suf, era, [])
  {
    hide Run, Links, NoDup;
    SpliceNoDup(pre, era, ins, suf);
    SpliceLists(heap, heap', pre, era, ins, suf);
    assert (pre + ins + suf)[0] == pre[0] == (pre + era + suf)[0];
    SameNodes(pre, era, ins, suf);
    forall n ensures n in heap' <==> n in pre + ins + suf || n in era { }
    forall n | n in heap' ensures heap'[n] != [] { assert |heap'[n]| == |heap[n]|; }
  }

  lemma SameNodes(pre: seq<nat>, era: seq<nat>, ins: seq<nat>, suf: seq<nat>)
    ensures forall n :: n in pre + era + suf || n in ins <==> n in pre + ins + suf || n in era
  {
  }

  lemma SpliceLists(heap: Heap, heap': Heap, pre: seq<nat>, era: seq<nat>, ins: seq<nat>, suf: seq<nat>)
    requires Run(heap, pre + era + suf, 0, NIL) && NoDup(pre + era + suf) && pre != []
    requires NoDup(ins) && (forall n :: n in pre + era + suf ==> n !in ins) && Run(heap, ins, 0, FirstOr(suf, NIL))
    requires pre[|pre| - 1] in heap && heap[pre[|pre| - 1]] != []
    requires heap' == Store(heap, pre[|pre| - 1], 0, FirstOr(ins + suf, NIL))
    ensures Run(heap', pre + ins + suf, 0, NIL)
    ensures Run(heap', era, 0, FirstOr(suf, NIL)) && Run(heap', (pre + era + suf)[|pre|..], 0, NIL)
    ensures heap[pre[|pre| - 1]][0] == FirstOr(era + suf, NIL)
    ensures (pre + era + suf)[..|pre|] == pre == (pre + ins + suf)[..|pre|]
    ensures forall n :: n in era ==> n !in suf
  {
    hide Run, Links, NoDup, Store;
    var last, target := pre[|pre| - 1], FirstOr(ins + suf, NIL);
    SpliceRuns(heap, pre, era, suf);
    LastIsApart(pre, era, ins, suf);
    StoreElsewhere(heap, era, last, target, FirstOr(suf, NIL));
    StoreElsewhere(heap, suf, last, target, NIL);
    StoreElsewhere(heap, ins, last, target, FirstOr(suf, NIL));
    StoreLast(heap, pre, target);
    JoinRuns(heap', ins, suf, 0);
    JoinRuns(heap', pre, ins + suf, 0);
    JoinRuns(heap', era, suf, 0);
    assert pre + (ins + suf) == pre + ins + suf;
    assert (pre + era + suf)[|pre|..] == era + suf;
  }

  lemma LastIsApart(pre: seq<nat>, era: seq<nat>, ins: seq<nat>, suf: seq<nat>)
    requires NoDup(pre + era + suf) && pre != [] && forall n :: n in pre + era + suf ==> n !in ins
    ensures var last := pre[|pre| - 1]; last !in era && last !in suf && last !in ins
    ensures NoDup(pre) && forall n :: n in era ==> n !in suf
  {
    var last := pre[|pre| - 1];
    NoDupConcat(pre + era, suf);
    NoDupConcat(pre, era);
    assert last in pre && last in pre + era && last in pre + era + suf;
  }

  lemma StoreElsewhere(heap: Heap, run: seq<nat>, node: nat, target: int, end: int)
    requires Run(heap, run, 0, end) && node !in run && node in heap && heap[node] != []
    ensures Run(Store(heap, node, 0, target), run, 0, end)
  {
  }

  lemma StoreLast(heap: Heap, run: seq<nat>, target: int)
    requires run != [] && NoDup(run) && Links(heap, run, 0)
    ensures Run(Store(heap, run[|run| - 1], 0, target), run, 0, target)
  {
  }

  lemma NoDupConcat(a: seq<nat>, b: seq<nat>)
    ensures NoDup(a + b) <==> NoDup(a) && NoDup(b) && (forall n :: n in a ==> n !in b)
  {
    var c := a + b;
    if NoDup(c) {
      forall p, q | 0 <= p < q < |a| ensures a[p] != a[q] { assert c[p] == a[p] && c[q] == a[q]; }
      forall p, q | 0 <= p < q < |b| ensures b[p] != b[q] {
        assert c[|a| + p] == b[p] && c[|a| + q] == b[q];
      }
      forall p, q | 0 <= p < |a| && 0 <= q < |b| ensures a[p] != b[q] {
        assert c[p] == a[p] && c[|a| + q] == b[q];
      }
    }
    if NoDup(a) && NoDup(b) && (forall n :: n in a ==> n !in b) {
      forall p, q | 0 <= p < q < |c| ensures c[p] != c[q] {
        if p < |a| { assert c[p] in a; }
        if q >= |a| { assert c[q] in b; }
      }
    }
  }

  lemma JoinRuns(heap: Heap, a: seq<nat>, b: seq<nat>, level: nat)
    requires Run(heap, a, level, FirstOr(b, NIL)) && Run(heap, b, level, NIL)
    ensures Run(heap, a + b, level, NIL)
  {
  }

  lemma SpliceRuns(heap: Heap, pre: seq<nat>, era: seq<nat>, suf: seq<nat>)
    requires Run(heap, pre + era + suf, 0, NIL)
    ensures Links(heap, pre, 0) && Run(heap, era, 0, FirstOr(suf, NIL)) && Run(heap, suf, 0, NIL)
    ensures pre != [] ==> heap[pre[|pre| - 1]][0] == FirstOr(era + suf, NIL)
  {
    assert pre + era + suf == pre + (era + suf);
    SplitRun(heap, pre, era + suf, 0);
    SplitRun(heap, era, suf, 0);
  }

  lemma SplitRun(heap: Heap, a: seq<nat>, b: seq<nat>, level: nat)
    requires Run(heap, a + b, level, NIL)
    ensures Run(heap, a, level, FirstOr(b, NIL)) && Run(heap, b, level, NIL)
  {
    var c := a + b;
    forall p | 0 <= p < |a| ensures a[p] == c[p] { }
    forall p | 0 <= p < |b| ensures b[p] == c[|a| + p] { }
  }

  lemma SpliceNoDup(pre: seq<nat>, era: seq<nat>, ins: seq<nat>, suf: seq<nat>)
    requires NoDup(pre + era + suf) && NoDup(ins) && forall n :: n in pre + era + suf ==> n !in ins
    ensures NoDup(pre + ins + suf) && NoDup(era) && NoDup(pre)
    ensures forall n :: n in era ==> n !in pre + ins + suf
  {
    NoDupConcat(pre + era, suf);
    NoDupConcat(pre, era);
    forall n | n in pre || n in era || n in suf ensures n !in ins { assert n in pre + era + suf; }
    NoDupConcat(pre, ins);
    NoDupConcat(pre + ins, suf);
  }

  lemma SpliceClosed(heap: Heap, heap': Heap, pre: seq<nat>, era: seq<nat>, ins: seq<nat>, suf: seq<nat>)
    requires MemoryOk(heap, pre + era + suf, [], ins) && pre != []
    requires ChainClosed(heap, pre + era + suf) && FreshClosed(heap, ins, pre + era + suf)
    requires heap' == Store(heap, pre[|pre| - 1], 0, FirstOr(ins + suf, NIL))
    ensures PublishedClosed(heap', pre + ins + suf, era)
  {
    var c := pre + era + suf;
    var all := Elements(pre + ins + suf) + Elements(era);
    assert all == Elements(c) + Elements(ins);
    forall n, i | n in all && n in heap' && 0 <= i < |heap'[n]|
      ensures heap'[n][i] == NIL || heap'[n][i] in all
    {
      if n == pre[|pre| - 1] && i == 0 {
        assert heap'[n][i] == FirstOr(ins + suf, NIL);
        if ins + suf != [] { assert (ins + suf)[0] in ins + suf; }
      } else {
        assert heap'[n][i] == heap[n][i];
        if n in Elements(c) { } else { assert n in Elements(ins); }
      }
    }
  }

  lemma WriterUpperSpliceOk(s: State, node: nat, level: nat, target: int)
    requires Inv(s) && Enabled(s, WriterUpperSplice(node, level, target))
    ensures Inv(Next(s, WriterUpperSplice(node, level, target)))
  {
    hide Run, Links, Closed, NoDup, MemoryOk, ChainClosed, EpochsOk, BeforeOk, PositionsOk, ScansOk, EraseOk;
    var all := Elements(s.chain) + Elements(s.retired);
    assert target in s.chain;
    StoreClosed(s.heap, all, all, node, level, target);
    UpperStoreKeeps(s, node, level, target);
  }

  lemma UpperStoreKeeps(s: State, node: nat, level: nat, target: int)
    requires s.phase.Spliced? && node in s.heap && 1 <= level < |s.heap[node]|
    requires MemoryOk(s.heap, s.chain, s.retired, []) && BeforeOk(s.heap, s.chain, s.before, s.cut, true)
    requires Run(s.heap, s.retired, 0, FirstOr(s.phase.suf, NIL))
    requires EraseOk(s.heap, s.retired, s.inner.eraseStart, s.inner.eraseEnd, true, false)
    ensures var heap' := Store(s.heap, node, level, target);
            && MemoryOk(heap', s.chain, s.retired, []) && BeforeOk(heap', s.chain, s.before, s.cut, true)
            && Run(heap', s.retired, 0, FirstOr(s.phase.suf, NIL))
            && EraseOk(heap', s.retired, s.inner.eraseStart, s.inner.eraseEnd, true, false)
  {
    hide Links, NoDup;
    StoreKeepsRun(s.heap, s.chain, node, level, target, NIL);
    StoreKeepsRun(s.heap, s.before[s.cut..], node, level, target, NIL);
    StoreKeepsRun(s.heap, s.retired, node, level, target, FirstOr(s.phase.suf, NIL));
  }

  lemma WriterCommitOk(s: State, force: bool)
    requires Inv(s) && Enabled(s, WriterCommit(force))
    ensures Inv(Next(s, WriterCommit(force)))
  {
    hide Run, Links, Closed, NoDup, MemoryOk, PublishedClosed, BeforeOk, PositionsOk, ScansOk, Elements, EraseOk;
    CommitStart(s.phase.era, s.phase.suf);
    if s.inner.counts[s.inner.epoch % 2] > 0 && (s.phase.era != [] || force) {
      CommitBumpOk(s, force);
    } else if s.phase.era != [] {
      CommitFreeOk(s, force);
    } else {
      CommitQuietOk(s, force);
    }
  }

  lemma CommitFreeOk(s: State, force: bool)
    requires Inv(s) && Enabled(s, WriterCommit(force))
    requires s.inner.counts[s.inner.epoch % 2] == 0 && s.phase.era != []
    ensures Inv(Next(s, WriterCommit(force)))
  {
    hide Run, Links, Closed, NoDup, PublishedClosed, PositionsOk, ScansOk, Elements;
    var p := s.phase;
    CommitStart(p.era, p.suf);
    NoReaders(s.inner.epoch, s.inner.counts, s.readers);
    FreeWalkRun(s.heap, p.era, FirstOr(p.suf, NIL));
    FreeKeepsList(s.heap, s.heap - Elements(p.era), s.chain, p.era);
    NoReadersOk(s.chain, [], s.before, s.inner.epoch);
  }

  lemma NoReadersOk(chain: seq<nat>, retired: seq<nat>, before: seq<nat>, epoch: nat)
    ensures !OldReaders(map[], epoch)
    ensures PositionsOk(map[], chain, retired, epoch, false) && ScansOk(map[], chain, before, epoch, false)
  {
  }

  lemma CommitQuietOk(s: State, force: bool)
    requires Inv(s) && Enabled(s, WriterCommit(force))
    requires s.phase.era == [] && (force ==> s.inner.counts[s.inner.epoch % 2] == 0)
    ensures Inv(Next(s, WriterCommit(force)))
  {
    hide Run, Links, Closed, NoDup, PublishedClosed, MemoryOk, PositionsOk, ScansOk, Elements;
    CommitStart(s.phase.era, s.phase.suf);
    CommitPositions(s.readers, s.chain, [], s.inner.epoch, s.inner.epoch);
    if force {
      NoReaders(s.inner.epoch, s.inner.counts, s.readers);
      NoReadersOk(s.chain, [], s.before, s.inner.epoch);
    }
  }

  lemma CommitBumpOk(s: State, force: bool)
    requires Inv(s) && Enabled(s, WriterCommit(force))
    requires s.inner.counts[s.inner.epoch % 2] > 0 && (s.phase.era != [] || force)
    ensures Inv(Next(s, WriterCommit(force)))
  {
    hide Run, Links, Closed, NoDup, PublishedClosed, MemoryOk, PositionsOk, ScansOk, Elements;
    var epoch := s.inner.epoch;
    CommitStart(s.phase.era, s.phase.suf);
    BumpCounts(epoch, s.inner.counts, s.readers);
    CommitPositions(s.readers, s.chain, s.phase.era, epoch, epoch + 1);
    if s.forced { CommitScans(s.readers, s.chain, s.before, epoch); }
    if s.phase.era == [] { EmptyRun(s.heap); }
  }

  lemma EmptyRun(heap: Heap)
    ensures Run(heap, [], 0, NIL)
  {
  }

  /** The erase list is non-empty exactly when something was erased. */
  lemma CommitStart(era: seq<nat>, suf: seq<nat>)
    requires forall n :: n in era ==> n !in suf
    ensures var start, end := FirstOr(era + suf, NIL), FirstOr(suf, NIL);
            && (era == [] <==> start == NIL || start == end)
            && (era != [] ==> start == era[0]) && (end == NIL || end !in era)
  {
    if era == [] { assert era + suf == suf; }
    if suf != [] { assert suf[0] in suf; }
    if era != [] { assert era[0] in era; }
  }

  lemma CommitPositions(readers: map<nat, Reader>, chain: seq<nat>, retired: seq<nat>, epoch: nat, epoch': nat)
    requires PositionsOk(readers, chain, retired, epoch, true)
    requires retired == [] || forall id :: id in readers ==> readers[id].epoch != epoch'
    ensures PositionsOk(readers, chain, retired, epoch', false)
  {
    forall id | id in readers ensures PositionOk(readers[id], chain, retired, epoch', false) {
      assert PositionOk(readers[id], chain, retired, epoch, true);
    }
  }

  lemma CommitScans(readers: map<nat, Reader>, chain: seq<nat>, before: seq<nat>, epoch: nat)
    requires ScansOk(readers, chain, before, epoch, true)
    requires forall id :: id in readers ==> readers[id].epoch != epoch + 1
    ensures ScansOk(readers, chain, before, epoch + 1, false)
  {
    forall id | id in readers ensures ScanOk(readers[id], chain, before, epoch + 1, false) {
      assert ScanOk(readers[id], chain, before, epoch, true);
    }
  }

  lemma BumpCounts(epoch: nat, counts: seq<nat>, readers: map<nat, Reader>)
    requires EpochsOk(epoch, counts, readers) && !OldReaders(readers, epoch) && counts[epoch % 2] > 0
    ensures EpochsOk(epoch + 1, counts, readers) && OldReaders(readers, epoch + 1)
    ensures forall id :: id in readers ==> readers[id].epoch != epoch + 1
  {
    OldReadersCount(epoch, counts, readers);
    assert InEpoch(readers, epoch + 1) == {};
    assert InEpoch(readers, epoch) != {};
    var i :| i in InEpoch(readers, epoch);
    assert i in readers && readers[i].epoch != epoch + 1;
  }

  lemma NoReaders(epoch: nat, counts: seq<nat>, readers: map<nat, Reader>)
    requires EpochsOk(epoch, counts, readers) && !OldReaders(readers, epoch) && counts[epoch % 2] == 0
    ensures readers == map[]
  {
    assert forall id :: id in readers ==> id in InEpoch(readers, epoch);
  }

  lemma WriterReleaseOk(s: State, wait: bool)
    requires Inv(s) && Enabled(s, WriterRelease(wait))
    ensures Inv(Next(s, WriterRelease(wait)))
  {
    hide Run, Links, Closed, NoDup, MemoryOk, PublishedClosed, FreshClosed, ChainClosed, EpochsOk, BeforeOk;
    hide PositionsOk, ScansOk, Elements;
  }

  lemma StepOk(s: State, step: Step)
    requires Inv(s) && Enabled(s, step)
    ensures Inv(Next(s, step))
  {
    hide Inv, Enabled;
    match step
    case ReaderStart(id) => ReaderStartOk(s, id);
    case ReaderLoad(id, level) => ReaderLoadOk(s, id, level);
    case ReaderDrop(id) => ReaderDropOk(s, id);
    case WriterBegin(at) => WriterBeginOk(s, at);
    case WriterMove(at) => WriterMoveOk(s, at);
    case WriterAlloc(node, height) => WriterAllocOk(s, node, height);
    case WriterErase => WriterEraseOk(s);
    case WriterStore(node, level, target) => WriterStoreOk(s, node, level, target);
    case WriterSplice => WriterSpliceOk(s);
    case WriterUpperSplice(node, level, target) => WriterUpperSpliceOk(s, node, level, target);
    case WriterCommit(force) => WriterCommitOk(s, force);
    case WriterRelease(wait) => WriterReleaseOk(s, wait);
  }

  // ---- Whole runs ----

  /** `states` is a run of the system from an empty list: one step from each state to the next. */
  ghost predicate IsRun(levels: nat, states: seq<State>, steps: seq<Step>)
  {
    && levels >= 1
    && |states| == |steps| + 1 && states[0] == Init(levels)
    && (forall k :: 0 <= k < |steps| ==>
          |states[k].inner.counts| == 2 && Enabled(states[k], steps[k]) && states[k + 1] == Next(states[k], steps[k]))
  }

  lemma {:induction false} RunOk(levels: nat, states: seq<State>, steps: seq<Step>, k: nat)
    requires IsRun(levels, states, steps) && k < |states|
    ensures Inv(states[k])
  {
    hide Inv, Enabled, Next;
    if k == 0 {
      InitOk(levels);
    } else {
      RunOk(levels, states, steps, k - 1);
      StepOk(states[k - 1], steps[k - 1]);
    }
  }

  /** A node some chain of pointers leads to from `from`. */
  ghost predicate Reaches(heap: Heap, from: int, path: seq<(nat, nat)>, to: int)
    decreases |path|
  {
    if path == [] then from == to
    else from >= 0 && from == path[0].0 && from in heap && path[0].1 < |heap[from]|
         && Reaches(heap, heap[from][path[0].1], path[1..], to)
  }

  /** Memory safety of every run: no load from and no free of unallocated memory ever happens, at
      most two epochs are live, every node that an active reader can still reach along pointers of
      any level is allocated, and when a writer passes its wait nothing unlinked is left. */
  lemma MemorySafety(levels: nat, states: seq<State>, steps: seq<Step>, k: nat)
    requires IsRun(levels, states, steps) && k < |states|
    ensures !states[k].fault
    ensures forall id :: id in states[k].readers ==>
              states[k].inner.epoch - 1 <= states[k].readers[id].epoch <= states[k].inner.epoch
    ensures forall id, path, to ::
              id in states[k].readers && Reaches(states[k].heap, states[k].readers[id].at, path, to) ==>
                to == NIL || to in states[k].heap
    ensures k < |steps| && steps[k].WriterBegin? ==>
              forall n :: n in states[k].heap <==> n in states[k].chain
  {
    RunOk(levels, states, steps, k);
    var s := states[k];
    forall id, path, to | id in s.readers && Reaches(s.heap, s.readers[id].at, path, to)
      ensures to == NIL || to in s.heap
    {
      assert PositionOk(s.readers[id], s.chain, s.retired, s.inner.epoch, s.phase.Spliced?);
      ReachInside(s, s.readers[id].at, path, to);
    }
    if k < |steps| && steps[k].WriterBegin? { WriterBeginOk(s, steps[k].at); }
  }

  lemma {:induction false} ReachInside(s: State, from: int, path: seq<(nat, nat)>, to: int)
    requires Inv(s) && (from == NIL || from in s.chain || from in s.retired) && Reaches(s.heap, from, path, to)
    ensures to == NIL || to in s.heap
    decreases |path|
  {
    if path != [] {
      var next := s.heap[from][path[0].1];
      assert from in Elements(s.chain) + Elements(s.retired);
      assert next == NIL || next in Elements(s.chain) + Elements(s.retired);
      ReachInside(s, next, path[1..], to);
    }
  }

  /** The list a completed scan has returned (its trail without the head) is exactly the list as
      it stood when the reader registered or exactly the list after the one edit published since,
      provided commits ask for an epoch change as `commit_and_wait` does. */
  lemma ScanIsAtomic(levels: nat, states: seq<State>, steps: seq<Step>, k: nat, id: nat)
    requires IsRun(levels, states, steps) && k < |states|
    requires forall j :: 0 <= j < k && steps[j].WriterCommit? ==> steps[j].force
    requires id in states[k].readers
    ensures states[k].readers[id].splices <= 1
    ensures var r := states[k].readers[id];
            r.scanning && r.at == NIL ==> r.trail == r.begun || (r.splices == 1 && r.trail == states[k].chain)
  {
    RunOk(levels, states, steps, k);
    ForcedRun(levels, states, steps, k);
    assert ScanOk(states[k].readers[id], states[k].chain, states[k].before, states[k].inner.epoch,
                  states[k].phase.Spliced?);
  }

  /** The barrier of `commit_and_wait`: when it returns, every reader registered after the edit was
      published, so that all see the new list. */
  lemma BarrierHolds(levels: nat, states: seq<State>, steps: seq<Step>, k: nat, id: nat)
    requires IsRun(levels, states, steps) && k < |steps|
    requires forall j :: 0 <= j < k && steps[j].WriterCommit? ==> steps[j].force
    requires states[k].phase.Committed? && steps[k] == WriterRelease(true) && id in states[k + 1].readers
    ensures var r := states[k + 1].readers[id]; r.splices == 0 && r.begun == states[k + 1].chain
  {
    RunOk(levels, states, steps, k);
    ForcedRun(levels, states, steps, k);
    hide MemoryOk, PhaseOk, PublishedClosed, ChainClosed, EraseOk, BeforeOk, PositionsOk;
    var s := states[k];
    assert states[k + 1] == Next(s, steps[k]);
    OldReadersCount(s.inner.epoch, s.inner.counts, s.readers);
    assert s.readers[id].epoch == s.inner.epoch;
    assert ScanOk(s.readers[id], s.chain, s.before, s.inner.epoch, s.phase.Spliced?);
  }

  lemma {:induction false} ForcedRun(levels: nat, states: seq<State>, steps: seq<Step>, k: nat)
    requires IsRun(levels, states, steps) && k < |states|
    requires forall j :: 0 <= j < k && steps[j].WriterCommit? ==> steps[j].force
    ensures states[k].forced
  {
    hide Enabled, Next;
    if k > 0 {
      ForcedRun(levels, states, steps, k - 1);
      ForcedStep(states[k - 1], steps[k - 1]);
    }
  }

  lemma ForcedStep(s: State, step: Step)
    requires |s.inner.counts| == 2 && s.forced && (step.WriterCommit? ==> step.force)
    ensures Next(s, step).forced
  {
  }
}
