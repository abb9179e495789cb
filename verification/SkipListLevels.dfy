/** The levels of a skip list and what each pointer store of the mutable iterator does to one of
    them (src/lsm_tree/skip_list_layer.rs, `SkipListLayerIterMut`). */
module SkipListLevels {
  import opened SkipListEpochs

  /** The nodes of `c` that have a pointer for level `i`, in list order; `ht` gives every node's
      number of pointers. */
  ghost function Level(ht: map<nat, nat>, c: seq<nat>, i: nat): seq<nat>
  {
    if c == [] then []
    else
      var last := c[|c| - 1];
      Level(ht, c[..|c| - 1], i) + (if last in ht && ht[last] > i then [last] else [])
  }

  ghost function Last(s: seq<nat>): nat requires s != [] { s[|s| - 1] }

  lemma {:induction false} LevelConcat(ht: map<nat, nat>, a: seq<nat>, b: seq<nat>, i: nat)
    ensures Level(ht, a + b, i) == Level(ht, a, i) + Level(ht, b, i)
    decreases |b|
  {
    if b == [] {
      assert a + b == a;
    } else {
      LevelConcat(ht, a, b[..|b| - 1], i);
      assert (a + b)[..|a + b| - 1] == a + b[..|b| - 1];
    }
  }

  lemma {:induction false} LevelMember(ht: map<nat, nat>, c: seq<nat>, i: nat, n: nat)
    ensures n in Level(ht, c, i) <==> n in c && n in ht && ht[n] > i
    decreases |c|
  {
    if c != [] {
      LevelMember(ht, c[..|c| - 1], i, n);
      assert c == c[..|c| - 1] + [c[|c| - 1]];
    }
  }

  lemma {:induction false} LevelNoDup(ht: map<nat, nat>, c: seq<nat>, i: nat)
    requires NoDup(c)
    ensures NoDup(Level(ht, c, i))
    decreases |c|
  {
    if c != [] {
      var init, last := c[..|c| - 1], c[|c| - 1];
      assert c == init + [last];
      NoDupConcat(init, [last]);
      LevelNoDup(ht, init, i);
      LevelMember(ht, init, i, last);
      NoDupConcat(Level(ht, init, i), [last]);
    }
  }

  lemma {:induction false} LevelZero(ht: map<nat, nat>, c: seq<nat>)
    requires forall n :: n in c ==> n in ht && ht[n] >= 1
    ensures Level(ht, c, 0) == c
    decreases |c|
  {
    if c != [] {
      LevelZero(ht, c[..|c| - 1]);
      assert c == c[..|c| - 1] + [c[|c| - 1]];
    }
  }

  lemma {:induction false} LevelExtend(ht: map<nat, nat>, c: seq<nat>, i: nat, node: nat, h: nat)
    requires node !in c
    ensures Level(ht[node := h], c, i) == Level(ht, c, i)
    decreases |c|
  {
    if c != [] {
      assert c[|c| - 1] != node;
      LevelExtend(ht, c[..|c| - 1], i, node, h);
    }
  }

  /** Every level is exactly the ordered chain of the nodes of `c` that reach that level. */
  ghost predicate AllLinked(heap: Heap, ht: map<nat, nat>, c: seq<nat>, levels: nat)
  {
    forall i :: 0 <= i < levels ==> Run(heap, Level(ht, c, i), i, NIL)
  }

  /** The parts of the list a writer distinguishes: before the edit, erased, inserted, after. */
  datatype Edit = Edit(pre: seq<nat>, era: seq<nat>, ins: seq<nat>, suf: seq<nat>)

  ghost predicate Apart(e: Edit)
  {
    && NoDup(e.pre) && NoDup(e.era) && NoDup(e.ins) && NoDup(e.suf)
    && (forall n :: n in e.pre ==> n !in e.era && n !in e.ins && n !in e.suf)
    && (forall n :: n in e.era ==> n !in e.ins && n !in e.suf)
    && (forall n :: n in e.ins ==> n !in e.suf)
  }

  /** The node whose level-`i` pointer list the iterator holds in `prev_pointers[i]`. */
  ghost function PrevAt(e: Edit, p: seq<nat>, ins: seq<nat>, i: nat): nat
    requires p != []
  {
    if ins != [] then Last(ins) else if i == 0 && e.era != [] then Last(e.era) else Last(p)
  }

  /** The state of level `i` in the middle of an edit.  The part before the edit is linked and, on
      the levels above 0, already skips the erased nodes unless an insertion chain takes over
      there; level 0 still shows the old list. */
  ghost predicate LevelOk(heap: Heap, ht: map<nat, nat>, e: Edit, i: nat, prev: nat, insNode: int)
  {
    LevelState(heap, e, Level(ht, e.pre, i), Level(ht, e.ins, i), Level(ht, e.suf, i), i, prev, insNode)
  }

  ghost predicate LevelState(heap: Heap, e: Edit, p: seq<nat>, ins: seq<nat>, suf: seq<nat>, i: nat,
                             prev: nat, insNode: int)
  {
    && p != [] && Links(heap, p, i)
    && Run(heap, suf, i, NIL) && Run(heap, ins, i, FirstOr(suf, NIL))
    && (i == 0 ==> heap[Last(p)][0] == FirstOr(e.era + suf, NIL) && Run(heap, e.era, 0, FirstOr(suf, NIL)))
    && (i > 0 && ins == [] ==> heap[Last(p)][i] == FirstOr(suf, NIL))
    && prev == PrevAt(e, p, ins, i)
    && insNode == FirstOr(ins, NIL)
  }

  /** The heaps agree on level `i`. */
  ghost predicate SameAt(heap: Heap, heap': Heap, i: nat)
  {
    forall n :: n in heap ==> n in heap' && |heap'[n]| == |heap[n]| && (i < |heap[n]| ==> heap'[n][i] == heap[n][i])
  }

  lemma RunFrame(heap: Heap, heap': Heap, s: seq<nat>, i: nat)
    requires Links(heap, s, i) && forall p :: 0 <= p < |s| ==> s[p] in heap' && i < |heap'[s[p]]|
    requires forall p :: 0 <= p < |s| ==> heap'[s[p]][i] == heap[s[p]][i]
    ensures Links(heap', s, i)
    ensures forall end :: Run(heap, s, i, end) ==> Run(heap', s, i, end)
  {
  }

  lemma LevelFrame(heap: Heap, heap': Heap, ht: map<nat, nat>, e: Edit, i: nat, prev: nat, insNode: int)
    requires LevelOk(heap, ht, e, i, prev, insNode) && SameAt(heap, heap', i)
    ensures LevelOk(heap', ht, e, i, prev, insNode)
  {
    RunFrame(heap, heap', Level(ht, e.pre, i), i);
    RunFrame(heap, heap', Level(ht, e.ins, i), i);
    RunFrame(heap, heap', Level(ht, e.suf, i), i);
    if i == 0 { RunFrame(heap, heap', e.era, 0); }
  }

  lemma StoreSameAt(heap: Heap, node: nat, level: nat, target: int, i: nat)
    requires node in heap && level < |heap[node]| && i != level
    ensures SameAt(heap, Store(heap, node, level, target), i)
  {
  }

  // ---- one level, one operation ----

  /** What the iterator sees at its position on level `i`: the first node after it on that level. */
  lemma PrevPointer(heap: Heap, e: Edit, p: seq<nat>, ins: seq<nat>, suf: seq<nat>, i: nat, prev: nat, insNode: int)
    requires LevelState(heap, e, p, ins, suf, i, prev, insNode)
    ensures prev in heap && i < |heap[prev]| && heap[prev][i] == FirstOr(suf, NIL)
  {
    if ins == [] && i == 0 && e.era == [] { assert e.era + suf == suf; }
  }

  /** The two stores `insert` makes on one level. */
  ghost function InsertStores(heap: Heap, node: nat, i: nat, prev: nat, insNode: int): Heap
    requires node in heap && i < |heap[node]| && prev in heap && i < |heap[prev]|
  {
    var linked := Store(heap, node, i, heap[prev][i]);
    if insNode == NIL then linked else Store(linked, prev, i, node)
  }

  lemma LevelInsert(heap: Heap, e: Edit, p: seq<nat>, ins: seq<nat>, suf: seq<nat>, i: nat, prev: nat, insNode: int,
                    node: nat)
    requires LevelState(heap, e, p, ins, suf, i, prev, insNode)
    requires node in heap && i < |heap[node]| && node !in p && node !in ins && node !in suf && node !in e.era
    requires NoDup(ins) && (forall n :: n in ins ==> n !in p && n !in suf && n !in e.era)
    requires prev in heap && i < |heap[prev]|
    ensures LevelState(InsertStores(heap, node, i, prev, insNode), e.(ins := e.ins + [node]), p, ins + [node], suf, i,
                       node, if insNode == NIL then node else insNode)
  {
    PrevPointer(heap, e, p, ins, suf, i, prev, insNode);
    var heap' := InsertStores(heap, node, i, prev, insNode);
    assert insNode != NIL ==> prev in ins;
    assert forall n :: n in heap && n != node && (insNode == NIL || n != prev) ==> heap'[n] == heap[n];
    RunFrame(heap, heap', p, i);
    RunFrame(heap, heap', suf, i);
    if i == 0 { RunFrame(heap, heap', e.era, 0); }
    assert heap'[node][i] == FirstOr(suf, NIL);
    if ins != [] {
      assert heap'[Last(ins)][i] == node;
      LinksAppend(heap, heap', ins, node, i);
    }
  }

  lemma LinksAppend(heap: Heap, heap': Heap, s: seq<nat>, node: nat, i: nat)
    requires s != [] && NoDup(s) && Links(heap, s, i) && node in heap' && i < |heap'[node]|
    requires forall p :: 0 <= p < |s| ==> s[p] in heap' && i < |heap'[s[p]]|
    requires forall p :: 0 <= p < |s| - 1 ==> heap'[s[p]][i] == heap[s[p]][i]
    requires heap'[Last(s)][i] == node
    ensures Links(heap', s + [node], i)
  {
  }

  /** `erase` on an upper level the erased node reaches, and on level 0 once there is an insertion
      chain: the pointer at the iterator's position is moved past the erased node. */
  lemma LevelErase(heap: Heap, e: Edit, p: seq<nat>, ins: seq<nat>, suf: seq<nat>, i: nat, prev: nat, insNode: int)
    requires LevelState(heap, e, p, ins, suf, i, prev, insNode)
    requires e.suf != [] && suf != [] && suf[0] == e.suf[0] && (i > 0 || ins != [])
    requires NoDup(p) && NoDup(ins) && NoDup(suf)
    requires (forall n :: n in p ==> n !in ins && n !in suf && n !in e.era)
    requires (forall n :: n in ins ==> n !in suf && n !in e.era) && (forall n :: n in e.era ==> n !in suf)
    requires prev in heap && i < |heap[prev]| && suf[0] in heap && i < |heap[suf[0]]|
    ensures LevelState(Store(heap, prev, i, heap[suf[0]][i]), Edit(e.pre, e.era + [e.suf[0]], e.ins, e.suf[1..]),
                       p, ins, suf[1..], i, prev, insNode)
  {
    var x, suf', heap' := suf[0], suf[1..], Store(heap, prev, i, heap[suf[0]][i]);
    TailRun(heap, suf, i, NIL);
    assert prev !in suf && prev !in e.era;
    RunFrame(heap, heap', suf', i);
    if ins != [] {
      LinksSet(heap, ins, i, heap[x][i]);
      RunFrame(heap, heap', p, i);
      if i == 0 {
        assert e.era + suf == (e.era + [x]) + suf';
        EraRun(heap, heap', e.era, x, suf');
      }
    } else {
      LinksSet(heap, p, i, heap[x][i]);
    }
  }

  lemma TailRun(heap: Heap, s: seq<nat>, i: nat, end: int)
    requires s != [] && Run(heap, s, i, end)
    ensures Run(heap, s[1..], i, end) && heap[s[0]][i] == FirstOr(s[1..], end)
  {
  }

  lemma LinksSet(heap: Heap, s: seq<nat>, i: nat, target: int)
    requires s != [] && NoDup(s) && Links(heap, s, i)
    ensures Run(Store(heap, Last(s), i, target), s, i, target)
  {
  }

  lemma EraRun(heap: Heap, heap': Heap, era: seq<nat>, x: nat, suf: seq<nat>)
    requires Run(heap, era, 0, x) && x in heap && 0 < |heap[x]| && heap[x][0] == FirstOr(suf, NIL)
    requires forall n :: n in era || n == x ==> n in heap' && 0 < |heap'[n]| && heap'[n][0] == heap[n][0]
    ensures Run(heap', era + [x], 0, FirstOr(suf, NIL))
  {
  }

  /** `erase` on level 0 before anything was inserted only moves the iterator. */
  lemma LevelEraseMove(heap: Heap, e: Edit, p: seq<nat>, suf: seq<nat>, prev: nat)
    requires LevelState(heap, e, p, [], suf, 0, prev, NIL) && e.suf != [] && suf != [] && suf[0] == e.suf[0]
    ensures LevelState(heap, Edit(e.pre, e.era + [e.suf[0]], e.ins, e.suf[1..]), p, [], suf[1..], 0, e.suf[0], NIL)
  {
    TailRun(heap, suf, 0, NIL);
    assert e.era + suf == (e.era + [suf[0]]) + suf[1..];
    EraRun(heap, heap, e.era, suf[0], suf[1..]);
  }

  // ---- commit ----

  /** Publishing on one level: the last node before the edit is pointed at the insertion chain. */
  lemma LevelSplice(heap: Heap, e: Edit, p: seq<nat>, ins: seq<nat>, suf: seq<nat>, i: nat, prev: nat, insNode: int)
    requires LevelState(heap, e, p, ins, suf, i, prev, insNode) && NoDup(p)
    requires forall n :: n in p ==> n !in ins && n !in suf
    requires i == 0 || ins != []
    ensures Last(p) in heap && i < |heap[Last(p)]|
    ensures Run(Store(heap, Last(p), i, FirstOr(ins + suf, NIL)), p + ins + suf, i, NIL)
  {
    var heap' := Store(heap, Last(p), i, FirstOr(ins + suf, NIL));
    LinksSet(heap, p, i, FirstOr(ins + suf, NIL));
    assert Last(p) in p;
    RunFrame(heap, heap', ins, i);
    RunFrame(heap, heap', suf, i);
    JoinRuns(heap', ins, suf, i);
    JoinRuns(heap', p, ins + suf, i);
    assert p + (ins + suf) == p + ins + suf;
  }

  /** An upper level without insertions needs no store. */
  lemma LevelAlready(heap: Heap, e: Edit, p: seq<nat>, suf: seq<nat>, i: nat, prev: nat)
    requires LevelState(heap, e, p, [], suf, i, prev, NIL) && (i > 0 || e.era == [])
    ensures Run(heap, p + [] + suf, i, NIL)
  {
    assert p + [] == p && (e.era == [] ==> e.era + suf == suf);
    JoinRuns(heap, p, suf, i);
  }

  lemma EmptyLevel(ht: map<nat, nat>, i: nat)
    ensures Level(ht, [], i) == []
  {
  }

  /** A linked list is a valid position for the iterator wherever it is split. */
  lemma SplitLevel(heap: Heap, ht: map<nat, nat>, pre: seq<nat>, suf: seq<nat>, i: nat)
    requires Run(heap, Level(ht, pre + suf, i), i, NIL) && Level(ht, pre, i) != []
    ensures LevelOk(heap, ht, Edit(pre, [], [], suf), i, Last(Level(ht, pre, i)), NIL)
  {
    hide Level;
    LevelConcat(ht, pre, suf, i);
    assert Level(ht, [], i) == [] by { EmptyLevel(ht, i); }
    SplitRun(heap, Level(ht, pre, i), Level(ht, suf, i), i);
    assert [] + Level(ht, suf, i) == Level(ht, suf, i);
  }

  /** When every level is linked, every pointer of a listed node is null or leads to a listed node. */
  lemma LinkedIsClosed(heap: Heap, ht: map<nat, nat>, c: seq<nat>, levels: nat)
    requires AllLinked(heap, ht, c, levels)
    requires forall n :: n in c ==> n in heap && n in ht && ht[n] == |heap[n]| <= levels
    ensures Closed(heap, Elements(c), Elements(c))
  {
    forall n, i | n in Elements(c) && n in heap && 0 <= i < |heap[n]| ensures heap[n][i] == NIL ||
        heap[n][i] in Elements(c)
    {
      var l := Level(ht, c, i);
      LevelMember(ht, c, i, n);
      var p :| 0 <= p < |l| && l[p] == n;
      assert Run(heap, l, i, NIL);
      if p + 1 < |l| {
        assert heap[l[p]][i] == l[p + 1];
        LevelMember(ht, c, i, l[p + 1]);
      }
    }
  }

  // ---- the same facts in terms of the whole edit ----

  ghost predicate NotIn(e: Edit, node: nat)
  {
    node !in e.pre && node !in e.era && node !in e.ins && node !in e.suf
  }

  /** The sub-lists of one level inherit that the four parts are apart. */
  lemma LevelsApart(ht: map<nat, nat>, e: Edit, i: nat)
    requires Apart(e)
    ensures NoDup(Level(ht, e.pre, i)) && NoDup(Level(ht, e.ins, i)) && NoDup(Level(ht, e.suf, i))
    ensures forall n :: n in Level(ht, e.pre, i) ==> n in e.pre
    ensures forall n :: n in Level(ht, e.ins, i) ==> n in e.ins
    ensures forall n :: n in Level(ht, e.suf, i) ==> n in e.suf
  {
    LevelNoDup(ht, e.pre, i);
    LevelNoDup(ht, e.ins, i);
    LevelNoDup(ht, e.suf, i);
    forall n ensures n in Level(ht, e.pre, i) ==> n in e.pre { LevelMember(ht, e.pre, i, n); }
    forall n ensures n in Level(ht, e.ins, i) ==> n in e.ins { LevelMember(ht, e.ins, i, n); }
    forall n ensures n in Level(ht, e.suf, i) ==> n in e.suf { LevelMember(ht, e.suf, i, n); }
  }

  lemma AllocLevel(heap: Heap, ht: map<nat, nat>, e: Edit, i: nat, prev: nat, insNode: int, node: nat, nils: seq<int>)
    requires LevelOk(heap, ht, e, i, prev, insNode) && NotIn(e, node) && node !in heap
    ensures LevelOk(heap[node := nils], ht[node := |nils|], e, i, prev, insNode)
  {
    LevelFrame(heap, heap[node := nils], ht, e, i, prev, insNode);
    LevelExtend(ht, e.pre, i, node, |nils|);
    LevelExtend(ht, e.ins, i, node, |nils|);
    LevelExtend(ht, e.suf, i, node, |nils|);
  }

  lemma LevelOne(ht: map<nat, nat>, n: nat, i: nat)
    ensures Level(ht, [n], i) == if n in ht && ht[n] > i then [n] else []
  {
    EmptyLevel(ht, i);
    assert [n][..0] == [];
  }

  lemma InsertStep(heap: Heap, ht: map<nat, nat>, e: Edit, i: nat, prev: nat, insNode: int, node: nat)
    requires LevelOk(heap, ht, e, i, prev, insNode) && Apart(e) && NotIn(e, node)
    requires node in heap && node in ht && i < ht[node] == |heap[node]|
    ensures prev in heap && i < |heap[prev]|
    ensures heap[prev][i] == NIL || heap[prev][i] in e.suf
    ensures insNode != NIL ==> prev in e.ins
    ensures LevelOk(InsertStores(heap, node, i, prev, insNode), ht, e.(ins := e.ins + [node]), i, node,
                    if insNode == NIL then node else insNode)
  {
    hide Level, NoDup;
    var p, ins, suf := Level(ht, e.pre, i), Level(ht, e.ins, i), Level(ht, e.suf, i);
    LevelsApart(ht, e, i);
    PrevPointer(heap, e, p, ins, suf, i, prev, insNode);
    if suf != [] { assert suf[0] in suf; }
    if ins != [] { assert Last(ins) in ins; }
    LevelInsert(heap, e, p, ins, suf, i, prev, insNode, node);
    LevelConcat(ht, e.ins, [node], i);
    LevelOne(ht, node, i);
  }

  /** Levels above the new node's are untouched by `insert`. */
  lemma InsertPast(heap: Heap, ht: map<nat, nat>, e: Edit, i: nat, prev: nat, insNode: int, node: nat)
    requires LevelOk(heap, ht, e, i, prev, insNode) && node in ht && ht[node] <= i && i > 0
    ensures LevelOk(heap, ht, e.(ins := e.ins + [node]), i, prev, insNode)
  {
    LevelConcat(ht, e.ins, [node], i);
    LevelOne(ht, node, i);
    assert Level(ht, e.ins, i) + [] == Level(ht, e.ins, i);
  }

  function Erased(e: Edit): Edit
    requires e.suf != []
  {
    Edit(e.pre, e.era + [e.suf[0]], e.ins, e.suf[1..])
  }

  lemma SuffixLevel(ht: map<nat, nat>, suf: seq<nat>, i: nat)
    requires suf != []
    ensures Level(ht, suf, i) == (if suf[0] in ht && ht[suf[0]] > i then [suf[0]] else []) + Level(ht, suf[1..], i)
  {
    assert suf == [suf[0]] + suf[1..];
    LevelConcat(ht, [suf[0]], suf[1..], i);
    LevelOne(ht, suf[0], i);
  }

  /** `erase` on one of the levels above 0 that the erased node reaches, or on level 0 when there
      is an insertion chain. */
  lemma EraseStep(heap: Heap, ht: map<nat, nat>, e: Edit, i: nat, prev: nat, insNode: int)
    requires LevelOk(heap, ht, e, i, prev, insNode) && Apart(e) && e.suf != [] && (i > 0 || insNode != NIL)
    requires e.suf[0] in heap && e.suf[0] in ht && i < ht[e.suf[0]] == |heap[e.suf[0]]|
    ensures prev in heap && i < |heap[prev]|
    ensures var t := heap[e.suf[0]][i]; t == NIL || t in e.suf[1..]
    ensures (prev in e.ins || prev in e.pre) && (i == 0 ==> prev in e.ins)
    ensures LevelOk(Store(heap, prev, i, heap[e.suf[0]][i]), ht, Erased(e), i, prev, insNode)
  {
    hide Level, NoDup;
    var p, ins, suf := Level(ht, e.pre, i), Level(ht, e.ins, i), Level(ht, e.suf, i);
    LevelsApart(ht, e, i);
    SuffixLevel(ht, e.suf, i);
    PrevPointer(heap, e, p, ins, suf, i, prev, insNode);
    if ins != [] { assert Last(ins) in ins; } else { assert Last(p) in p; }
    LevelErase(heap, e, p, ins, suf, i, prev, insNode);
    TailRun(heap, suf, i, NIL);
    assert suf[1..] == Level(ht, e.suf[1..], i);
    if suf[1..] != [] { LevelMember(ht, e.suf[1..], i, suf[1..][0]); }
  }

  /** `erase` on the levels above the erased node. */
  lemma ErasePast(heap: Heap, ht: map<nat, nat>, e: Edit, i: nat, prev: nat, insNode: int)
    requires LevelOk(heap, ht, e, i, prev, insNode) && e.suf != [] && i > 0 && e.suf[0] in ht && ht[e.suf[0]] <= i
    ensures LevelOk(heap, ht, Erased(e), i, prev, insNode)
  {
    hide Level, NoDup;
    SuffixLevel(ht, e.suf, i);
    assert [] + Level(ht, e.suf[1..], i) == Level(ht, e.suf[1..], i);
  }

  /** `erase` on level 0 when nothing was inserted yet. */
  lemma EraseMove(heap: Heap, ht: map<nat, nat>, e: Edit, prev: nat)
    requires LevelOk(heap, ht, e, 0, prev, NIL) && e.suf != [] && e.suf[0] in ht && ht[e.suf[0]] > 0
    ensures LevelOk(heap, ht, Erased(e), 0, e.suf[0], NIL)
  {
    hide Level, NoDup;
    SuffixLevel(ht, e.suf, 0);
    LevelEraseMove(heap, e, Level(ht, e.pre, 0), Level(ht, e.suf, 0), prev);
    assert Level(ht, e.suf, 0)[1..] == Level(ht, e.suf[1..], 0);
  }

  /** The store `commit` makes on level `i`, and what is linked afterwards. */
  lemma SpliceStep(heap: Heap, ht: map<nat, nat>, e: Edit, i: nat, prev: nat, insNode: int)
    requires LevelOk(heap, ht, e, i, prev, insNode) && Apart(e) && (i == 0 || insNode != NIL)
    ensures Level(ht, e.pre, i) != []
    ensures var last := Last(Level(ht, e.pre, i));
            && last in e.pre && last in heap && i < |heap[last]|
            && Run(Store(heap, last, i, FirstOr(Level(ht, e.ins, i) + Level(ht, e.suf, i), NIL)),
                   Level(ht, e.pre + e.ins + e.suf, i), i, NIL)
  {
    hide Level, NoDup;
    var p, ins, suf := Level(ht, e.pre, i), Level(ht, e.ins, i), Level(ht, e.suf, i);
    LevelsApart(ht, e, i);
    assert Last(p) in p;
    LevelSplice(heap, e, p, ins, suf, i, prev, insNode);
    LevelConcat(ht, e.pre, e.ins, i);
    LevelConcat(ht, e.pre + e.ins, e.suf, i);
  }

  lemma SpliceNone(heap: Heap, ht: map<nat, nat>, e: Edit, i: nat, prev: nat)
    requires LevelOk(heap, ht, e, i, prev, NIL) && (i > 0 || e.era == [])
    ensures Run(heap, Level(ht, e.pre + e.ins + e.suf, i), i, NIL)
  {
    hide Level, NoDup;
    LevelAlready(heap, e, Level(ht, e.pre, i), Level(ht, e.suf, i), i, prev);
    LevelConcat(ht, e.pre, e.ins, i);
    LevelConcat(ht, e.pre + e.ins, e.suf, i);
    assert Level(ht, e.pre, i) + [] == Level(ht, e.pre, i);
  }
}
