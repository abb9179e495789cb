/** The skip list layer and its mutable iterator (src/lsm_tree/skip_list_layer.rs) as objects over
    an arena of nodes.  Every pointer store goes through a method whose precondition is the guard
    of the corresponding writer step in `SkipListEpochs`, so an execution of these methods is a
    sequence of steps of that system. */
module SkipListLayer {
  import opened LsmTypes
  import opened SkipListEpochs
  import opened SkipListLevels

  type KV<V> = Item<int, V>

  ghost predicate Known<V>(items: map<nat, KV<V>>, c: seq<nat>) { forall n :: n in c ==> n in items }

  ghost function ItemsOf<V>(items: map<nat, KV<V>>, c: seq<nat>): (s: seq<KV<V>>)
    requires Known(items, c)
    ensures |s| == |c| && forall k :: 0 <= k < |c| ==> s[k] == items[c[k]]
  {
    seq(|c|, k requires 0 <= k < |c| => items[c[k]])
  }

  lemma ItemsAppend<V>(items: map<nat, KV<V>>, c: seq<nat>, node: nat)
    requires Known(items, c) && node in items
    ensures Known(items, c + [node]) && ItemsOf(items, c + [node]) == ItemsOf(items, c) + [items[node]]
  {
  }

  /** Heights are the numbers of next pointers, and the nodes of `c` are all allocated. */
  ghost predicate HeightsOk(heap: Heap, ht: map<nat, nat>, levels: nat, c: seq<nat>)
  {
    && levels >= 1
    && (forall n :: n in heap ==> n in ht && ht[n] == |heap[n]| && 1 <= ht[n] <= levels)
    && (forall n :: n in c ==> n in heap)
    && HEAD in heap && ht[HEAD] == levels
  }

  ghost predicate ListOk(heap: Heap, ht: map<nat, nat>, levels: nat, chain: seq<nat>)
  {
    && chain != [] && chain[0] == HEAD && NoDup(chain)
    && HeightsOk(heap, ht, levels, chain)
    && AllLinked(heap, ht, chain, levels)
  }

  /** The first `k` nodes (the head among them) lie before the bound and the others do not. */
  ghost predicate SplitsAt<V>(items: map<nat, KV<V>>, chain: seq<nat>, k: nat, bound: Bound<int>)
  {
    && 1 <= k <= |chain| && Known(items, chain[1..])
    && (forall j :: 1 <= j < k ==> chain[j] in items && Before(items[chain[j]].key, bound))
    && (forall j :: k <= j < |chain| ==> chain[j] in items && !Before(items[chain[j]].key, bound))
  }

  /** A sorted list can be split at any bound. */
  lemma SplitExists<V>(items: map<nat, KV<V>>, chain: seq<nat>, bound: Bound<int>) returns (k: nat)
    requires chain != [] && Known(items, chain[1..]) && Sorted(ItemsOf(items, chain[1..]))
    ensures SplitsAt(items, chain, k, bound) && (bound.Unbounded? ==> k == 1)
  {
    var s := ItemsOf(items, chain[1..]);
    forall j | 1 <= j < |chain| ensures chain[j] in items && s[j - 1] == items[chain[j]] {
      assert chain[1..][j - 1] == chain[j];
    }
    k := 1;
    while k < |chain| && Before(items[chain[k]].key, bound)
      invariant 1 <= k <= |chain|
      invariant forall j :: 1 <= j < k ==> Before(items[chain[j]].key, bound)
      invariant bound.Unbounded? ==> k == 1
    {
      k := k + 1;
    }
    forall j | k <= j < |chain| ensures !Before(items[chain[j]].key, bound) {
      assert s[k - 1].key <= s[j - 1].key;
    }
  }

  class Layer<V(!new)> {
    const levels: nat
    var heap: Heap
    var items: map<nat, KV<V>>
    var inner: Inner
    var itemCount: int
    ghost var ht: map<nat, nat>
    ghost var chain: seq<nat>       // the published nodes, head first

    ghost predicate Valid()
      reads this
    {
      && ListOk(heap, ht, levels, chain)
      && Known(items, chain[1..])
      && |inner.counts| == 2
      && itemCount == |chain| - 1
    }

    /** The published items in list order. */
    ghost function Contents(): (s: seq<KV<V>>)
      requires Valid()
      reads this
    {
      ItemsOf(items, chain[1..])
    }

    constructor (levels: nat)
      requires levels >= 1
      ensures Valid() && Contents() == [] && this.levels == levels
    {
      this.levels := levels;
      heap := map[HEAD := seq(levels, i => NIL)];
      items := map[];
      inner := Inner(0, [0, 0], NIL, NIL);
      itemCount := 0;
      ht := map[HEAD := levels];
      chain := [HEAD];
      new;
      forall i | 0 <= i < levels ensures Run(heap, Level(ht, chain, i), i, NIL) { LevelOne(ht, HEAD, i); }
    }

    method Len() returns (n: int)
      requires Valid()
      ensures n == |Contents()|
    {
      n := itemCount;
    }

    /** One level of a search: follows `index` as long as the next item lies before the bound. */
    method SearchLevel(from: nat, index: nat, bound: Bound<int>, ghost k: nat) returns (n: nat)
      requires Valid() && index < levels && SplitsAt(items, chain, k, bound)
      requires from in Level(ht, chain[..k], index)
      ensures Level(ht, chain[..k], index) != [] && n == Last(Level(ht, chain[..k], index))
      ensures n in heap && index < |heap[n]|
      ensures heap[n][index] == FirstOr(Level(ht, chain[k..], index), NIL)
    {
      hide NoDup, Level;
      ghost var pre, suf := Level(ht, chain[..k], index), Level(ht, chain[k..], index);
      assert chain == chain[..k] + chain[k..];
      LevelConcat(ht, chain[..k], chain[k..], index);
      assert Run(heap, pre + suf, index, NIL);
      n := from;
      ghost var q :| 0 <= q < |pre| && pre[q] == n;
      while true
        invariant 0 <= q < |pre| && pre[q] == n
        decreases |pre| - q
      {
        ghost var all := pre + suf;
        assert all[q] == n;
        var next := heap[n][index];
        if q + 1 < |all| { assert all[q + 1] == next; }
        if next == NIL {
          assert q + 1 >= |all|;
          break;
        }
        ListedKey(k, index, q, bound);
        if !Before(items[next].key, bound) {
          break;
        }
        n := next;
        q := q + 1;
      }
    }

    /** A reader's `seek`: registers in the current epoch and finds the first item not before the
        bound. */
    method Seek(bound: Bound<int>) returns (node: int)
      requires Valid() && Sorted(Contents())
      modifies this`inner
      ensures Valid() && Contents() == old(Contents())
      ensures var e := old(inner.epoch % 2);
              inner == old(inner).(counts := old(inner.counts)[e := old(inner.counts[e]) + 1])
      ensures if node == NIL then forall item :: item in Contents() ==> Before(item.key, bound)
              else node >= 0 && node in items && items[node] in Contents() &&
                   forall item :: item in Contents() ==> (item.key < items[node].key <==> Before(item.key, bound))
    {
      hide NoDup, Level, Run, Links, AllLinked, LevelOk;
      inner := inner.(counts := inner.counts[inner.epoch % 2 := inner.counts[inner.epoch % 2] + 1]);
      ghost var inner1 := inner;
      ghost var k := SplitExists(items, chain, bound);
      assert forall n :: n in chain[k..] ==> n in ht && ht[n] >= 1;
      LevelZero(ht, chain[k..]);
      if bound.Unbounded? {
        SplitKeys(k, bound);
        StartPointer();
        return heap[HEAD][0];
      }
      var last, index := HEAD, levels;
      HeadFirst(k, levels - 1);
      while index > 0
        invariant 0 <= index <= levels && inner == inner1
        invariant index > 0 ==> last in Level(ht, chain[..k], index - 1)
        invariant index == 0 ==> last in heap && 0 < |heap[last]| && heap[last][0] == FirstOr(chain[k..], NIL)
      {
        index := index - 1;
        last := SearchLevel(last, index, bound, k);
        if index > 0 {
          LevelMember(ht, chain[..k], index, last);
          LevelMember(ht, chain[..k], index - 1, last);
        }
      }
      SplitKeys(k, bound);
      return heap[last][0];
    }

    lemma StartPointer()
      requires Valid()
      ensures HEAD in heap && 0 < |heap[HEAD]| && heap[HEAD][0] == FirstOr(chain[1..], NIL)
    {
      forall n | n in chain ensures n in ht && ht[n] >= 1 { }
      LevelZero(ht, chain);
      assert Run(heap, Level(ht, chain, 0), 0, NIL);
    }

    /** What a split of a sorted list says about its items. */
    lemma SplitKeys(k: nat, bound: Bound<int>)
      requires Valid() && Sorted(Contents()) && SplitsAt(items, chain, k, bound)
      ensures k == |chain| ==> forall item :: item in Contents() ==> Before(item.key, bound)
      ensures k < |chain| ==> chain[k] in items && items[chain[k]] in Contents()
      ensures k < |chain| ==>
                forall item :: item in Contents() ==> (item.key < items[chain[k]].key <==> Before(item.key, bound))
    {
      hide NoDup, Level, Run, Links, ListOk;
      var s := Contents();
      forall j | 0 <= j < |s| ensures s[j] == items[chain[j + 1]] { assert chain[1..][j] == chain[j + 1]; }
      if k < |chain| { assert s[k - 1] == items[chain[k]]; }
    }

    /** The nodes of a level are on the side of the bound that the split says. */
    lemma ListedKey(k: nat, index: nat, q: nat, bound: Bound<int>)
      requires Valid() && SplitsAt(items, chain, k, bound)
      requires var pre, suf := Level(ht, chain[..k], index), Level(ht, chain[k..], index);
               q < |pre| && q + 1 < |pre + suf|
      ensures var pre, suf := Level(ht, chain[..k], index), Level(ht, chain[k..], index);
              var next := (pre + suf)[q + 1];
              next in items && (Before(items[next].key, bound) <==> q + 1 < |pre|)
    {
      hide Level, Run, Links;
      var pre, suf := Level(ht, chain[..k], index), Level(ht, chain[k..], index);
      var next := (pre + suf)[q + 1];
      if q + 1 < |pre| {
        LevelMember(ht, chain[..k], index, next);
        LevelNoDup(ht, chain[..k], index) by { assert NoDup(chain[..k]); }
        HeadFirst(k, index);
        var j :| 0 <= j < k && chain[j] == next;
        assert j != 0;
        assert chain[1..][j - 1] == next;
      } else {
        assert next == suf[q + 1 - |pre|];
        LevelMember(ht, chain[k..], index, next);
        var j :| k <= j < |chain| && chain[j] == next;
        assert chain[1..][j - 1] == next;
      }
    }

    /** The head starts every level. */
    lemma HeadFirst(k: nat, index: nat)
      requires Valid() && 1 <= k <= |chain| && index < levels
      ensures var pre := Level(ht, chain[..k], index); pre != [] && pre[0] == HEAD
    {
      assert chain[..k] == [HEAD] + chain[1..k];
      LevelConcat(ht, [HEAD], chain[1..k], index);
      LevelOne(ht, HEAD, index);
    }

    /** `free_erase_list`. */
    method FreeEraseList(ghost run: seq<nat>)
      requires NoDup(run) && Run(heap, run, 0, inner.eraseEnd) && inner.eraseStart == FirstOr(run, inner.eraseEnd)
      requires inner.eraseEnd == NIL || inner.eraseEnd !in run
      modifies this`heap
      ensures heap == old(heap) - Elements(run)
    {
      FreeWalkRun(heap, run, inner.eraseEnd);
      var node := inner.eraseStart;
      while node != NIL && node != inner.eraseEnd
        invariant FreeWalk(heap, node, inner.eraseEnd) == (old(heap) - Elements(run), false)
        decreases |heap|
      {
        var next := heap[node][0];
        heap := heap - {node};
        node := next;
      }
    }
  }

  lemma InsertApart(e: Edit, node: nat)
    requires Apart(e) && NotIn(e, node)
    ensures Apart(e.(ins := e.ins + [node]))
  {
    NoDupConcat(e.ins, [node]);
  }

  /** What publishing with `commit_and_wait` does to the epoch: it changes exactly if there are
      readers, and then these are the ones to wait for. */
  ghost predicate Barrier(before: Inner, after: Inner, wait: Option<nat>)
    requires |before.counts| == 2
  {
    var readers := before.counts[before.epoch % 2] > 0;
    && after.counts == before.counts
    && after.epoch == before.epoch + (if readers then 1 else 0)
    && wait == if readers then Some(after.epoch) else None
  }

  class IterMut<V(!new)> {
    const list: Layer<V>
    var prev: seq<nat>                    // prev_pointers: the node holding each pointer list
    var point: Option<seq<nat>>           // insertion_point
    var nodes: seq<int>                   // insertion_nodes
    var delta: int                        // item_delta
    ghost var e: Edit
    ghost var missed: nat                 // erase calls made at the end of the list

    /** Starts an edit at the first item not before `bound`. */
    constructor (list: Layer<V>, bound: Bound<int>)
      requires list.Valid() && !bound.Excluded? && Sorted(list.Contents())
      ensures this.list == list && Valid() && Done() + Rest() == list.Contents() && missed == 0 && point.None?
      ensures forall item :: item in Done() ==> Before(item.key, bound)
      ensures forall item :: item in Rest() ==> !Before(item.key, bound)
    {
      this.list := list;
      var levels := list.levels;
      prev := seq(levels, i => HEAD);
      nodes := seq(levels, i => NIL);
      point, delta, missed := None, 0, 0;
      new;
      ghost var k := if bound.Unbounded? then 1 else 1;
      if bound.Included? {
        ghost var k' := SplitExists(list.items, list.chain, bound);
        k := k';
        SeekLevels(bound, k);
      } else {
        StartLevels();
      }
      e := Edit(list.chain[..k], [], [], list.chain[k..]);
      StartOk(k);
      SplitItems(k, bound);
    }

    ghost predicate LevelsOk()
      reads this, list
    {
      && |prev| == list.levels && |nodes| == list.levels
      && (forall i :: 0 <= i < list.levels ==> LevelOk(list.heap, list.ht, e, i, prev[i], nodes[i]))
    }

    ghost predicate PartsOk()
      reads this, list
    {
      && Apart(e) && e.pre != [] && e.pre[0] == HEAD
      && list.chain == e.pre + e.era + e.suf
      && HeightsOk(list.heap, list.ht, list.levels, list.chain + e.ins)
      && Known(list.items, e.pre[1..] + e.ins) && Known(list.items, e.suf) && Known(list.items, e.era)
      && |list.inner.counts| == 2
    }

    ghost predicate PointOk()
      reads this, list
    {
      match point
      case None => e.era == [] && e.ins == []
      case Some(ip) =>
        && (e.era != [] || e.ins != [])
        && |ip| == list.levels
        && forall i :: 0 <= i < list.levels ==>
            Level(list.ht, e.pre, i) != [] && ip[i] == Last(Level(list.ht, e.pre, i))
    }

    ghost predicate Valid()
      reads this, list
    {
      && LevelsOk() && PartsOk() && PointOk()
      && list.itemCount == |list.chain| - 1
      && delta == |e.ins| - |e.era| - missed
    }

    /** What lies before the iterator once the edit is published. */
    ghost function Done(): (s: seq<KV<V>>)
      requires Valid()
      reads this, list
    {
      ItemsOf(list.items, e.pre[1..] + e.ins)
    }

    /** The current item and what follows it. */
    ghost function Rest(): (s: seq<KV<V>>)
      requires Valid()
      reads this, list
    {
      ItemsOf(list.items, e.suf)
    }

    /** Any pointer store before publication. */
    method EditStore(node: nat, level: nat, target: int)
      requires EditStoreOk(list.heap, e.pre, e.ins, e.suf, node, level, target)
      modifies list`heap
      ensures list.heap == Store(old(list.heap), node, level, target)
    {
      list.heap := list.heap[node := list.heap[node][level := target]];
    }

    /** The store that publishes the edit. */
    method SpliceStore(node: nat, target: int)
      requires SpliceStoreOk(list.heap, e.pre, e.ins, e.suf, node, target)
      modifies list`heap
      ensures list.heap == Store(old(list.heap), node, 0, target)
    {
      list.heap := list.heap[node := list.heap[node][0 := target]];
    }

    /** The stores above level 0 that follow it. */
    method UpperSpliceStore(node: nat, level: nat, target: int)
      requires UpperSpliceStoreOk(list.heap, e.pre, e.ins, node, level, target)
      modifies list`heap
      ensures list.heap == Store(old(list.heap), node, level, target)
    {
      list.heap := list.heap[node := list.heap[node][level := target]];
    }

    /** The descent in `new`: on every level, the last node before the bound. */
    method SeekLevels(bound: Bound<int>, ghost k: nat)
      requires list.Valid() && SplitsAt(list.items, list.chain, k, bound)
      requires |prev| == list.levels && forall i :: 0 <= i < |prev| ==> prev[i] == HEAD
      modifies this`prev
      ensures |prev| == list.levels
      ensures forall i :: 0 <= i < list.levels ==>
                Level(list.ht, list.chain[..k], i) != [] && prev[i] == Last(Level(list.ht, list.chain[..k], i))
    {
      hide NoDup, Level, Run, Links, ListOk;
      ghost var pre := list.chain[..k];
      assert list.levels >= 1 by { LevelsPositive(); }
      var index := list.levels;
      list.HeadFirst(k, list.levels - 1);
      while index > 0
        invariant 0 <= index <= list.levels == |prev|
        invariant forall i :: index <= i < list.levels ==>
                    Level(list.ht, pre, i) != [] && prev[i] == Last(Level(list.ht, pre, i))
        invariant index > 0 ==> prev[index - 1] in Level(list.ht, pre, index - 1)
      {
        index := index - 1;
        var n := list.SearchLevel(prev[index], index, bound, k);
        prev := prev[index := n];
        if index > 0 {
          prev := prev[index - 1 := n];
          LevelMember(list.ht, pre, index, n);
          LevelMember(list.ht, pre, index - 1, n);
        }
      }
    }

    lemma LevelsPositive()
      requires list.Valid()
      ensures list.levels >= 1
    {
    }

    /** At the front of the list the head precedes on every level. */
    lemma StartLevels()
      requires list.Valid()
      ensures forall i :: 0 <= i < list.levels ==>
                Level(list.ht, list.chain[..1], i) != [] && HEAD == Last(Level(list.ht, list.chain[..1], i))
    {
      assert list.chain[..1] == [HEAD];
      forall i | 0 <= i < list.levels
        ensures Level(list.ht, list.chain[..1], i) == [HEAD]
      {
        LevelOne(list.ht, HEAD, i);
      }
    }

    /** A position between two parts of the published list is valid. */
    lemma StartOk(k: nat)
      requires list.Valid() && 1 <= k <= |list.chain| && e == Edit(list.chain[..k], [], [], list.chain[k..])
      requires |prev| == |nodes| == list.levels && forall i :: 0 <= i < |nodes| ==> nodes[i] == NIL
      requires forall i :: 0 <= i < list.levels ==>
                 Level(list.ht, e.pre, i) != [] && prev[i] == Last(Level(list.ht, e.pre, i))
      requires point.None? && delta == 0 && missed == 0
      ensures Valid()
    {
      hide Level, Run, Links;
      assert list.chain == e.pre + e.suf == e.pre + e.era + e.suf;
      NoDupConcat(e.pre, e.suf);
      forall i | 0 <= i < list.levels ensures LevelOk(list.heap, list.ht, e, i, prev[i], nodes[i]) {
        SplitLevel(list.heap, list.ht, e.pre, e.suf, i);
      }
      assert e.pre[1..] + e.ins == list.chain[1..k] && forall n :: n in list.chain[1..k] ==> n in list.chain[1..];
      assert forall n :: n in e.suf ==> n in list.chain[1..];
    }

    lemma SplitItems(k: nat, bound: Bound<int>)
      requires Valid() && list.Valid() && 1 <= k <= |list.chain| && e == Edit(list.chain[..k], [], [], list.chain[k..])
      requires (bound.Unbounded? && k == 1) || SplitsAt(list.items, list.chain, k, bound)
      ensures Done() + Rest() == list.Contents()
      ensures forall item :: item in Done() ==> Before(item.key, bound)
      ensures forall item :: item in Rest() ==> !Before(item.key, bound)
    {
      hide Level, Run, Links, LevelOk, NoDup, LevelsOk, PointOk, ListOk, HeightsOk;
      assert e.pre[1..] + e.ins == list.chain[1..k];
      assert list.chain[1..k] + list.chain[k..] == list.chain[1..];
    }

    method Get() returns (item: Option<KV<V>>)
      requires Valid()
      ensures item == if Rest() == [] then None else Some(Rest()[0])
    {
      CurrentNode();
      var p := list.heap[prev[0]][0];
      item := if p == NIL then None else Some(list.items[p]);
    }

    /** Level 0 at the iterator's position leads to the first node after it. */
    lemma CurrentNode()
      requires LevelsOk() && PartsOk()
      ensures prev[0] in list.heap && 0 < |list.heap[prev[0]]| && list.heap[prev[0]][0] == FirstOr(e.suf, NIL)
    {
      hide NoDup, Run, Links;
      forall n | n in e.suf ensures n in list.ht && list.ht[n] >= 1 { assert n in list.chain; }
      LevelZero(list.ht, e.suf);
      PrevPointer(list.heap, e, Level(list.ht, e.pre, 0), Level(list.ht, e.ins, 0), Level(list.ht, e.suf, 0), 0,
                  prev[0], nodes[0]);
    }

    /** `alloc_node`: a node with null pointers. */
    method AllocNode(item: KV<V>, node: nat, height: nat)
      requires LevelsOk() && PartsOk() && node !in list.heap && 1 <= height <= list.levels
      requires point.Some? && |point.value| == list.levels
      requires forall i :: 0 <= i < list.levels ==>
                Level(list.ht, e.pre, i) != [] && point.value[i] == Last(Level(list.ht, e.pre, i))
      modifies list`heap, list`items, list`ht
      ensures list.heap == old(list.heap)[node := seq(height, i => NIL)]
      ensures list.ht == old(list.ht)[node := height] && list.items == old(list.items)[node := item]
      ensures LevelsOk() && PartsOk() && NotIn(e, node)
      ensures HeightsOk(list.heap, list.ht, list.levels, list.chain + (e.ins + [node]))
      ensures forall i :: 0 <= i < list.levels ==>
                Level(list.ht, e.pre, i) != [] && point.value[i] == Last(Level(list.ht, e.pre, i))
      ensures ItemsOf(list.items, e.pre[1..] + e.ins) == old(ItemsOf(list.items, e.pre[1..] + e.ins))
      ensures ItemsOf(list.items, e.suf) == old(ItemsOf(list.items, e.suf))
    {
      hide NoDup, Run, Links, Level, LevelOk;
      forall n | n in e.pre || n in e.era || n in e.ins || n in e.suf ensures n in list.heap {
        assert n in list.chain + e.ins;
      }
      forall n | n in e.pre[1..] + e.ins ensures n in list.heap { assert n in e.pre || n in e.ins; }
      ghost var heap0, ht0 := list.heap, list.ht;
      list.heap := list.heap[node := seq(height, i => NIL)];
      list.items := list.items[node := item];
      list.ht := list.ht[node := height];
      forall i | 0 <= i < list.levels
        ensures LevelOk(list.heap, list.ht, e, i, prev[i], nodes[i]) && Level(list.ht, e.pre, i) == Level(ht0, e.pre, i)
      {
        AllocLevel(heap0, ht0, e, i, prev[i], nodes[i], node, list.heap[node]);
        LevelExtend(ht0, e.pre, i, node, height);
      }
    }

    /** One pass of the loop in `insert`. */
    method InsertOnLevel(i: nat, node: nat, ghost e0: Edit)
      requires Apart(e0) && NotIn(e0, node) && e == e0.(ins := e0.ins + [node])
      requires |prev| == list.levels && |nodes| == list.levels
      requires HeightsOk(list.heap, list.ht, list.levels, list.chain + e.ins)
      requires node in list.ht && i < list.ht[node] && i < list.levels
      requires forall j :: 0 <= j < i ==> LevelOk(list.heap, list.ht, e, j, prev[j], nodes[j])
      requires forall j :: i <= j < list.levels ==> LevelOk(list.heap, list.ht, e0, j, prev[j], nodes[j])
      modifies this`prev, this`nodes, list`heap
      ensures |prev| == list.levels && |nodes| == list.levels && list.heap.Keys == old(list.heap.Keys)
      ensures HeightsOk(list.heap, list.ht, list.levels, list.chain + e.ins)
      ensures forall j :: 0 <= j <= i ==> LevelOk(list.heap, list.ht, e, j, prev[j], nodes[j])
      ensures forall j :: i < j < list.levels ==> LevelOk(list.heap, list.ht, e0, j, prev[j], nodes[j])
    {
      hide NoDup, Run, Links, Level, LevelOk, Apart;
      assert node in list.chain + e.ins;
      ghost var heap0 := list.heap;
      InsertStep(list.heap, list.ht, e0, i, prev[i], nodes[i], node);
      EditStore(node, i, list.heap[prev[i]][i]);
      if nodes[i] == NIL {
        nodes := nodes[i := node];
      } else {
        EditStore(prev[i], i, node);
      }
      prev := prev[i := node];
      forall j | 0 <= j < list.levels && j != i
        ensures LevelOk(list.heap, list.ht, if j < i then e else e0, j, prev[j], nodes[j])
      {
        LevelFrame(heap0, list.heap, list.ht, if j < i then e else e0, j, prev[j], nodes[j]);
      }
    }

    /** Copies `prev_pointers` the first time something is inserted or erased. */
    method MarkPoint()
      requires LevelsOk() && PointOk() && Apart(e)
      modifies this`point
      ensures point.Some? && |point.value| == list.levels
      ensures forall i :: 0 <= i < list.levels ==>
                Level(list.ht, e.pre, i) != [] && point.value[i] == Last(Level(list.ht, e.pre, i))
    {
      if point.None? {
        point := Some(prev);
        forall i | 0 <= i < list.levels
          ensures Level(list.ht, e.pre, i) != [] && prev[i] == Last(Level(list.ht, e.pre, i))
        {
          assert LevelOk(list.heap, list.ht, e, i, prev[i], nodes[i]);
          EmptyLevel(list.ht, i);
        }
      }
    }

    /** The loop of `insert`. */
    method InsertOnLevels(node: nat, height: nat)
      requires LevelsOk() && Apart(e) && NotIn(e, node)
      requires HeightsOk(list.heap, list.ht, list.levels, list.chain + (e.ins + [node]))
      requires node in list.ht && list.ht[node] == height
      modifies this`prev, this`nodes, this`e, list`heap
      ensures e == old(e).(ins := old(e).ins + [node]) && LevelsOk() && list.heap.Keys == old(list.heap.Keys)
      ensures HeightsOk(list.heap, list.ht, list.levels, list.chain + e.ins)
    {
      hide NoDup, Run, Links, Level, LevelOk, Apart;
      ghost var e0 := e;
      e := e0.(ins := e0.ins + [node]);
      assert node in list.chain + e.ins;
      var i := 0;
      while i < height
        invariant 0 <= i <= height <= list.levels && e == e0.(ins := e0.ins + [node])
        invariant list.heap.Keys == old(list.heap.Keys)
        invariant |prev| == list.levels && |nodes| == list.levels
        invariant HeightsOk(list.heap, list.ht, list.levels, list.chain + e.ins)
        invariant forall j :: 0 <= j < i ==> LevelOk(list.heap, list.ht, e, j, prev[j], nodes[j])
        invariant forall j :: i <= j < list.levels ==> LevelOk(list.heap, list.ht, e0, j, prev[j], nodes[j])
      {
        InsertOnLevel(i, node, e0);
        i := i + 1;
      }
      forall j | height <= j < list.levels ensures LevelOk(list.heap, list.ht, e, j, prev[j], nodes[j]) {
        InsertPast(list.heap, list.ht, e0, j, prev[j], nodes[j], node);
      }
    }

    /** Inserts before the current item.  `node` is the address the allocator returned and
        `height` the random number of levels. */
    method Insert(item: KV<V>, node: nat, height: nat)
      requires Valid() && node !in list.heap && 1 <= height <= list.levels
      modifies this, list`heap, list`items, list`ht
      ensures Valid() && Done() == old(Done()) + [item] && Rest() == old(Rest())
      ensures list.chain == old(list.chain) && missed == old(missed) && e.pre == old(e.pre) && point.Some?
      ensures list.heap.Keys == old(list.heap).Keys + {node}
    {
      hide NoDup, Run, Links, Level, LevelOk, Apart, HeightsOk;
      ghost var e0 := e;
      MarkPoint();
      AllocNode(item, node, height);
      ghost var items := list.items;
      InsertOnLevels(node, height);
      delta := delta + 1;
      InsertApart(e0, node);
      ItemsAppend(items, e0.pre[1..] + e0.ins, node);
      assert e.pre[1..] + e.ins == (e0.pre[1..] + e0.ins) + [node];
    }

    /** One pass of the loop in `erase` over the levels above 0. */
    method EraseOnLevel(i: nat, x: nat, ghost e0: Edit)
      requires Apart(e0) && e0.suf != [] && x == e0.suf[0] && e == Erased(e0) && e.pre != []
      requires |prev| == list.levels && |nodes| == list.levels
      requires HeightsOk(list.heap, list.ht, list.levels, list.chain + e.ins)
      requires x in list.heap && (forall n :: n in e.pre ==> n in list.heap)
      requires i < list.ht[x] && i < list.levels && (i > 0 || nodes[0] != NIL)
      requires forall j :: 0 <= j < i ==> LevelOk(list.heap, list.ht, e, j, prev[j], nodes[j])
      requires forall j :: i <= j < list.levels ==> LevelOk(list.heap, list.ht, e0, j, prev[j], nodes[j])
      modifies list`heap
      ensures list.heap.Keys == old(list.heap.Keys)
      ensures HeightsOk(list.heap, list.ht, list.levels, list.chain + e.ins)
      ensures forall j :: 0 <= j <= i ==> LevelOk(list.heap, list.ht, e, j, prev[j], nodes[j])
      ensures forall j :: i < j < list.levels ==> LevelOk(list.heap, list.ht, e0, j, prev[j], nodes[j])
    {
      hide NoDup, Run, Links, Level, LevelOk, Apart;
      ghost var heap0 := list.heap;
      EraseStep(list.heap, list.ht, e0, i, prev[i], nodes[i]);
      EditStore(prev[i], i, list.heap[x][i]);
      forall j | 0 <= j < list.levels && j != i
        ensures LevelOk(list.heap, list.ht, if j < i then e else e0, j, prev[j], nodes[j])
      {
        StoreSameAt(heap0, prev[i], i, heap0[x][i], j);
        LevelFrame(heap0, list.heap, list.ht, if j < i then e else e0, j, prev[j], nodes[j]);
      }
    }

    /** The pointer changes of `erase` when there is a current item `x`. */
    method EraseNode(x: nat)
      requires LevelsOk() && PartsOk() && e.suf != [] && x == e.suf[0]
      modifies this`prev, this`e, list`heap
      ensures e == Erased(old(e)) && LevelsOk()
      ensures HeightsOk(list.heap, list.ht, list.levels, list.chain + e.ins) && list.heap.Keys == old(list.heap.Keys)
    {
      hide NoDup, Run, Links, Level, LevelOk, Apart;
      assert x in list.chain && forall n :: n in e.pre ==> n in list.chain;
      forall n | n in list.chain ensures n in list.heap { assert n in list.chain + e.ins; }
      ghost var e0 := e;
      e := Erased(e0);
      if nodes[0] == NIL {
        EraseMove(list.heap, list.ht, e0, prev[0]);
        prev := prev[0 := x];
      } else {
        EraseOnLevel(0, x, e0);
      }
      var i := 1;
      var height := |list.heap[x]|;
      while i < height
        invariant 1 <= i <= height == list.ht[x] <= list.levels && e == Erased(e0)
        invariant |prev| == list.levels && |nodes| == list.levels
        invariant HeightsOk(list.heap, list.ht, list.levels, list.chain + e.ins)
        invariant list.heap.Keys == old(list.heap.Keys)
        invariant forall j :: 0 <= j < i ==> LevelOk(list.heap, list.ht, e, j, prev[j], nodes[j])
        invariant forall j :: i <= j < list.levels ==> LevelOk(list.heap, list.ht, e0, j, prev[j], nodes[j])
      {
        EraseOnLevel(i, x, e0);
        i := i + 1;
      }
      forall j | height <= j < list.levels ensures LevelOk(list.heap, list.ht, e, j, prev[j], nodes[j]) {
        ErasePast(list.heap, list.ht, e0, j, prev[j], nodes[j]);
      }
    }

    /** Erases the current item; at the end of the list only the item count changes. */
    method Erase()
      requires Valid()
      modifies this, list`heap
      ensures Valid() && Done() == old(Done()) && e.pre == old(e.pre) && list.chain == old(list.chain)
      ensures list.heap.Keys == old(list.heap.Keys)
      ensures Rest() == if old(Rest()) == [] then [] else old(Rest())[1..]
      ensures missed == old(missed) + if old(Rest()) == [] then 1 else 0
      ensures point.Some? <==> old(point).Some? || old(Rest()) != []
    {
      hide NoDup, Run, Links, Level, LevelOk;
      CurrentNode();
      var x := list.heap[prev[0]][0];
      if x != NIL {
        MarkPoint();
        ghost var e0 := e;
        EraseNode(x);
        EraseApart(e0);
        assert list.chain == e.pre + e.era + e.suf by {
          assert e.era + e.suf == e0.era + e0.suf && list.chain == e0.pre + (e0.era + e0.suf);
        }
      } else {
        missed := missed + 1;
      }
      delta := delta - 1;
    }

    /** The stores of `commit`: level 0 first, then the levels above. */
    method Publish(ip: seq<nat>)
      requires LevelsOk() && PartsOk() && (e.era != [] || e.ins != []) && |ip| == list.levels
      requires forall i :: 0 <= i < list.levels ==>
                 Level(list.ht, e.pre, i) != [] && ip[i] == Last(Level(list.ht, e.pre, i))
      modifies list`heap
      ensures list.heap.Keys == old(list.heap.Keys)
      ensures forall n :: n in list.heap ==> |list.heap[n]| == |old(list.heap)[n]|
      ensures AllLinked(list.heap, list.ht, e.pre + e.ins + e.suf, list.levels)
      ensures Run(list.heap, e.era, 0, FirstOr(e.suf, NIL))
      ensures prev[0] in list.heap && 0 < |list.heap[prev[0]]| && list.heap[prev[0]][0] == FirstOr(e.suf, NIL)
    {
      hide NoDup, Run, Links, Level, LevelOk, Apart;
      BottomLevel();
      CurrentNode();
      ghost var chain := e.pre + e.ins + e.suf;
      if nodes[0] == NIL {
        PublishLevel(ip, 0, list.heap[prev[0]][0]);
        forall i | 1 <= i < list.levels ensures Run(list.heap, Level(list.ht, chain, i), i, NIL) {
          assert LevelOk(list.heap, list.ht, e, i, prev[i], nodes[i]);
          UpperLevelEmpty(list.heap, list.ht, e, i, prev[i], nodes[i]);
          SpliceNone(list.heap, list.ht, e, i, prev[i]);
        }
      } else {
        var i := 0;
        while i < |nodes|
          invariant 0 <= i <= |nodes|
          invariant list.heap.Keys == old(list.heap.Keys)
          invariant forall n :: n in list.heap ==> |list.heap[n]| == |old(list.heap)[n]|
          invariant PublishedTo(i)
        {
          if nodes[i] != NIL {
            PublishLevel(ip, i, nodes[i]);
          } else {
            SpliceNone(list.heap, list.ht, e, i, prev[i]);
          }
          i := i + 1;
        }
      }
      RunEnd(list.heap, if e.ins != [] then e.ins else e.era, 0, FirstOr(e.suf, NIL));
    }

    /** The levels below `i` show the new list, the others are as before the commit. */
    ghost predicate PublishedTo(i: nat)
      reads this, list
    {
      && |prev| == |nodes| == list.levels && i <= list.levels && list.levels >= 1
      && (forall j :: 0 <= j < i ==> Run(list.heap, Level(list.ht, e.pre + e.ins + e.suf, j), j, NIL))
      && (forall j :: i <= j < list.levels ==> LevelOk(list.heap, list.ht, e, j, prev[j], nodes[j]))
      && (nodes[0] == NIL <==> e.ins == [])
      && Run(list.heap, e.era, 0, FirstOr(e.suf, NIL)) && Run(list.heap, e.ins, 0, FirstOr(e.suf, NIL))
      && (e.ins != [] ==> prev[0] == Last(e.ins)) && (e.ins == [] ==> e.era != [] && prev[0] == Last(e.era))
    }

    /** On level 0 the sub-lists are the parts themselves. */
    lemma BottomLevel()
      requires LevelsOk() && PartsOk() && (e.era != [] || e.ins != [])
      ensures PublishedTo(0)
      ensures Level(list.ht, e.pre, 0) == e.pre && Level(list.ht, e.ins, 0) == e.ins
      ensures Level(list.ht, e.suf, 0) == e.suf
    {
      hide NoDup, Run, Links;
      forall n | n in e.pre || n in e.ins || n in e.suf ensures n in list.ht && list.ht[n] >= 1 {
        assert n in list.chain + e.ins;
      }
      LevelZero(list.ht, e.pre);
      LevelZero(list.ht, e.ins);
      LevelZero(list.ht, e.suf);
      assert LevelOk(list.heap, list.ht, e, 0, prev[0], nodes[0]);
    }

    /** The first node an edit may have erased. */
    lemma StartPointer()
      requires LevelsOk() && PartsOk()
      requires Level(list.ht, e.pre, 0) == e.pre && Level(list.ht, e.suf, 0) == e.suf
      ensures Last(e.pre) in list.heap && 0 < |list.heap[Last(e.pre)]|
      ensures list.heap[Last(e.pre)][0] == FirstOr(e.era + e.suf, NIL)
    {
      hide NoDup, Run, Level;
      assert LevelOk(list.heap, list.ht, e, 0, prev[0], nodes[0]);
    }

    /** One store of `commit`. */
    method PublishLevel(ip: seq<nat>, i: nat, target: int)
      requires i < list.levels && PublishedTo(i) && PartsOk() && |ip| == list.levels
      requires Level(list.ht, e.pre, i) != [] && ip[i] == Last(Level(list.ht, e.pre, i))
      requires i == 0 ==>
                 Level(list.ht, e.pre, 0) == e.pre && Level(list.ht, e.ins, 0) == e.ins &&
                     Level(list.ht, e.suf, 0) == e.suf
      requires if nodes[i] != NIL then target == nodes[i] else i == 0 && target == FirstOr(e.suf, NIL)
      modifies list`heap
      ensures PublishedTo(i + 1)
      ensures list.heap.Keys == old(list.heap.Keys)
      ensures forall n :: n in list.heap ==> |list.heap[n]| == |old(list.heap)[n]|
    {
      hide NoDup, Run, Links, Level;
      ghost var heap0 := list.heap;
      ghost var ins, suf := Level(list.ht, e.ins, i), Level(list.ht, e.suf, i);
      assert LevelOk(list.heap, list.ht, e, i, prev[i], nodes[i]);
      SpliceStep(list.heap, list.ht, e, i, prev[i], nodes[i]);
      assert target == FirstOr(ins + suf, NIL) by {
        if ins == [] { assert ins + suf == suf; }
      }
      if i == 0 {
        SpliceStore(ip[0], target);
      } else {
        LevelMember(list.ht, e.ins, i, ins[0]);
        UpperSpliceStore(ip[i], i, target);
      }
      assert list.heap == Store(heap0, ip[i], i, target);
      forall j | 0 <= j < i ensures Run(list.heap, Level(list.ht, e.pre + e.ins + e.suf, j), j, NIL) {
        StoreRun(heap0, ip[i], i, target, Level(list.ht, e.pre + e.ins + e.suf, j), j, NIL);
      }
      forall j | i < j < list.levels ensures LevelOk(list.heap, list.ht, e, j, prev[j], nodes[j]) {
        StoreSameAt(heap0, ip[i], i, target, j);
        LevelFrame(heap0, list.heap, list.ht, e, j, prev[j], nodes[j]);
      }
      StoreRun(heap0, ip[i], i, target, e.era, 0, FirstOr(e.suf, NIL));
      StoreRun(heap0, ip[i], i, target, e.ins, 0, FirstOr(e.suf, NIL));
    }

    /** The part of `commit` under the mutex: decides what becomes of the erased nodes. */
    method CommitLocked(start: int, force: bool) returns (epoch: Option<nat>)
      requires ListOk(list.heap, list.ht, list.levels, list.chain) && |list.inner.counts| == 2
      requires NoDup(e.era) && (forall n :: n in e.era ==> n !in list.chain && n !in e.suf)
      requires |prev| >= 1 && prev[0] in list.heap && 0 < |list.heap[prev[0]]|
      requires list.heap[prev[0]][0] == FirstOr(e.suf, NIL)
      requires Run(list.heap, e.era, 0, FirstOr(e.suf, NIL)) && start == FirstOr(e.era + e.suf, NIL)
      requires Closed(list.heap, Elements(list.chain), Elements(list.chain))
      modifies list`heap, list`inner, list`itemCount
      ensures ListOk(list.heap, list.ht, list.levels, list.chain) && list.itemCount == old(list.itemCount) + delta
      ensures list.inner == CommitInner(old(list.inner), start, FirstOr(e.suf, NIL), force).0
      ensures |list.inner.counts| == 2
      ensures list.heap == if CommitInner(old(list.inner), start, FirstOr(e.suf, NIL), force).1
                           then old(list.heap) - Elements(e.era) else old(list.heap)
      ensures epoch == if list.inner.epoch == old(list.inner).epoch then None else Some(list.inner.epoch)
    {
      hide NoDup, Run, Links, Level, ListOk, Closed;
      list.itemCount := list.itemCount + delta;
      var inner := list.inner;
      var hasReaders := inner.counts[inner.epoch % 2] > 0;
      CommitStart(e.era, e.suf);
      if start != NIL {
        var end := list.heap[prev[0]][0];
        if start != end {
          list.inner := inner.(eraseStart := start, eraseEnd := end);
          if hasReaders {
            list.inner := list.inner.(epoch := inner.epoch + 1);
            return Some(list.inner.epoch);
          } else {
            ghost var heap0 := list.heap;
            list.FreeEraseList(e.era);
            LinkedAfterFree(heap0, list.heap, list.ht, list.levels, list.chain, e.era);
          }
        }
      }
      if force && hasReaders {
        list.inner := inner.(eraseStart := NIL, eraseEnd := NIL, epoch := inner.epoch + 1);
        return Some(list.inner.epoch);
      }
      return None;
    }

    /** `commit`: publishes the edit. */
    method Commit(force: bool) returns (epoch: Option<nat>)
      requires Valid()
      modifies this`point, list
      ensures ListOk(list.heap, list.ht, list.levels, list.chain) && |list.inner.counts| == 2
      ensures list.items == old(list.items) && Known(list.items, list.chain[1..])
      ensures ItemsOf(list.items, list.chain[1..]) == old(Done() + Rest())
      ensures list.itemCount == |list.chain| - 1 - (if old(point).None? then 0 else missed)
      ensures old(point).None? ==> epoch.None? && list.inner == old(list.inner)
      ensures old(point).Some? ==>
                && list.inner == CommitInner(old(list.inner), FirstOr(e.era + e.suf, NIL), FirstOr(e.suf, NIL), force).0
                && epoch == if list.inner.epoch == old(list.inner).epoch then None else Some(list.inner.epoch)
    {
      hide NoDup, Run, Links, Level, LevelOk, CommitInner, Closed, AllLinked, ItemsOf;
      ghost var chain := e.pre + e.ins + e.suf;
      assert chain[1..] == (e.pre[1..] + e.ins) + e.suf;
      ApartNoDup(e);
      if point.None? {
        NoSplice(list.heap, list.ht, list.levels, e, prev, nodes);
        assert chain == e.pre + e.era + e.suf;
        return None;
      }
      var ip := point.value;
      point := None;
      BottomLevel();
      StartPointer();
      var start := list.heap[ip[0]][0];
      Publish(ip);
      PublishedList(old(list.heap), list.heap, list.ht, list.levels, list.chain, e);
      list.chain := chain;
      epoch := CommitLocked(start, force);
    }

    /** `commit_and_wait`.  With an edit to publish and readers on the list, the epoch changes, and
        the caller waits for the readers of the epoch before `wait`. */
    method CommitAndWait() returns (wait: Option<nat>)
      requires Valid()
      modifies this`point, list
      ensures ListOk(list.heap, list.ht, list.levels, list.chain) && |list.inner.counts| == 2
      ensures list.items == old(list.items) && Known(list.items, list.chain[1..])
      ensures ItemsOf(list.items, list.chain[1..]) == old(Done() + Rest())
      ensures list.itemCount == |list.chain| - 1 - (if old(point).None? then 0 else missed)
      ensures if old(point).None? then wait.None? && list.inner == old(list.inner)
              else Barrier(old(list.inner), list.inner, wait)
    {
      hide NoDup, Run, Links, Level, LevelOk, Closed, AllLinked, ItemsOf, ListOk, Known;
      wait := Commit(true);
    }

    /** Moves past the current item.  Once an edit has begun the item is copied into the insertion
        chain and the original erased. */
    method Advance(node: nat, height: nat)
      requires Valid() && node !in list.heap && 1 <= height <= list.levels
      modifies this, list`heap, list`items, list`ht
      ensures Valid() && missed == old(missed) && list.chain == old(list.chain)
      ensures if old(Rest()) == [] then Rest() == [] && Done() == old(Done())
              else Rest() == old(Rest())[1..] && Done() == old(Done()) + [old(Rest())[0]]
      ensures list.heap.Keys <= old(list.heap.Keys) + {node}
    {
      var current := Get();
      if point.Some? {
        if current.Some? {
          Insert(current.value, node, height);
          Erase();
        }
      } else if current.Some? {
        MovePast();
      }
    }

    /** `advance` before the first edit. */
    method MovePast()
      requires Valid() && point.None? && e.suf != []
      modifies this`prev, this`e
      ensures Valid() && point.None? && e.pre == old(e.pre) + [old(e.suf)[0]] && e.suf == old(e.suf)[1..]
    {
      hide NoDup, Run, Links, Level, LevelOk;
      CurrentNode();
      var next := list.heap[prev[0]][0];
      assert next in list.chain + e.ins;
      ghost var e0, prev0 := e, prev;
      var i, height := 0, |list.heap[next]|;
      while i < height
        invariant 0 <= i <= height <= |prev0| == |prev|
        invariant forall j :: 0 <= j < |prev| ==> prev[j] == if j < i then next else prev0[j]
      {
        prev := prev[i := next];
        i := i + 1;
      }
      e := Edit(e0.pre + [next], [], [], e0.suf[1..]);
      forall i | 0 <= i < list.levels ensures LevelOk(list.heap, list.ht, e, i, prev[i], nodes[i]) {
        MoveLevel(list.heap, list.ht, e0, i, prev0[i], nodes[i]);
      }
      MoveApart(e0);
      assert list.chain == e.pre + [] + e.suf by { assert list.chain == e0.pre + [] + e0.suf; }
    }
  }

  lemma RunEnd(heap: Heap, s: seq<nat>, i: nat, end: int)
    requires Run(heap, s, i, end) && s != []
    ensures Last(s) in heap && i < |heap[Last(s)]| && heap[Last(s)][i] == end
  {
  }

  lemma StoreRun(heap: Heap, node: nat, level: nat, target: int, s: seq<nat>, i: nat, end: int)
    requires Run(heap, s, i, end) && node in heap && level < |heap[node]| && (i != level || node !in s)
    ensures Run(Store(heap, node, level, target), s, i, end)
  {
  }

  /** Without insertions no level has insertions. */
  lemma UpperLevelEmpty(heap: Heap, ht: map<nat, nat>, e: Edit, i: nat, prev: nat, insNode: int)
    requires LevelOk(heap, ht, e, i, prev, insNode) && e.ins == []
    ensures insNode == NIL
  {
    EmptyLevel(ht, i);
  }

  lemma ApartNoDup(e: Edit)
    requires Apart(e)
    ensures NoDup(e.pre + e.ins + e.suf) && NoDup(e.pre + e.era + e.suf)
    ensures forall n :: n in e.era ==> n !in e.pre + e.ins + e.suf && n !in e.suf
  {
    NoDupConcat(e.pre, e.ins);
    NoDupConcat(e.pre + e.ins, e.suf);
    NoDupConcat(e.pre, e.era);
    NoDupConcat(e.pre + e.era, e.suf);
  }

  /** Once every level shows it, the new list is well formed and closed under all pointers. */
  lemma PublishedList(heap: Heap, heap': Heap, ht: map<nat, nat>, levels: nat, chain: seq<nat>, e: Edit)
    requires HeightsOk(heap, ht, levels, chain + e.ins) && chain == e.pre + e.era + e.suf
    requires e.pre != [] && e.pre[0] == HEAD && NoDup(e.pre + e.ins + e.suf)
    requires heap'.Keys == heap.Keys && forall n :: n in heap' ==> |heap'[n]| == |heap[n]|
    requires AllLinked(heap', ht, e.pre + e.ins + e.suf, levels)
    ensures ListOk(heap', ht, levels, e.pre + e.ins + e.suf)
    ensures Closed(heap', Elements(e.pre + e.ins + e.suf), Elements(e.pre + e.ins + e.suf))
  {
    hide NoDup, Run, Links, Level, AllLinked, Closed;
    forall n | n in e.pre + e.ins + e.suf ensures n in heap' { assert n in chain + e.ins; }
    LinkedIsClosed(heap', ht, e.pre + e.ins + e.suf, levels);
  }

  lemma NoSplice(heap: Heap, ht: map<nat, nat>, levels: nat, e: Edit, prev: seq<nat>, nodes: seq<int>)
    requires |prev| == |nodes| == levels && e.era == [] && e.ins == []
    requires forall i :: 0 <= i < levels ==> LevelOk(heap, ht, e, i, prev[i], nodes[i])
    ensures AllLinked(heap, ht, e.pre + e.ins + e.suf, levels)
  {
    forall i | 0 <= i < levels ensures Run(heap, Level(ht, e.pre + e.ins + e.suf, i), i, NIL) {
      EmptyLevel(ht, i);
      SpliceNone(heap, ht, e, i, prev[i]);
    }
  }

  /** Freeing nodes that are not listed leaves every level as it was. */
  lemma LinkedAfterFree(heap: Heap, heap': Heap, ht: map<nat, nat>, levels: nat, chain: seq<nat>, gone: seq<nat>)
    requires ListOk(heap, ht, levels, chain) && heap' == heap - Elements(gone)
    requires forall n :: n in chain ==> n !in gone
    ensures ListOk(heap', ht, levels, chain)
  {
    hide NoDup, Run, Links, Level;
    assert HEAD in chain;
    forall i | 0 <= i < levels ensures Run(heap', Level(ht, chain, i), i, NIL) {
      var l := Level(ht, chain, i);
      forall p | 0 <= p < |l| ensures l[p] in heap && l[p] in heap' && i < |heap[l[p]]| && heap'[l[p]] == heap[l[p]] {
        LevelMember(ht, chain, i, l[p]);
      }
      assert Links(heap, l, i) by { LinksOfRun(heap, l, i); }
      RunFrame(heap, heap', l, i);
    }
  }

  lemma LinksOfRun(heap: Heap, l: seq<nat>, i: nat)
    requires Run(heap, l, i, NIL)
    ensures Links(heap, l, i)
  {
  }

  lemma EraseApart(e: Edit)
    requires Apart(e) && e.suf != []
    ensures Apart(Erased(e))
  {
    assert e.suf == [e.suf[0]] + e.suf[1..];
    NoDupConcat([e.suf[0]], e.suf[1..]);
    NoDupConcat(e.era, [e.suf[0]]);
  }

  lemma MoveApart(e: Edit)
    requires Apart(e) && e.suf != [] && e.era == [] && e.ins == []
    ensures Apart(Edit(e.pre + [e.suf[0]], [], [], e.suf[1..]))
  {
    assert e.suf == [e.suf[0]] + e.suf[1..];
    NoDupConcat([e.suf[0]], e.suf[1..]);
    NoDupConcat(e.pre, [e.suf[0]]);
  }

  lemma MoveLevel(heap: Heap, ht: map<nat, nat>, e: Edit, i: nat, prev: nat, insNode: int)
    requires LevelOk(heap, ht, e, i, prev, insNode) && e.suf != [] && e.era == [] && e.ins == []
    requires e.suf[0] in heap && e.suf[0] in ht && ht[e.suf[0]] == |heap[e.suf[0]]|
    ensures LevelOk(heap, ht, Edit(e.pre + [e.suf[0]], [], [], e.suf[1..]), i,
                    if i < |heap[e.suf[0]]| then e.suf[0] else prev, insNode)
  {
    hide Level, NoDup, Run, Links;
    var x := e.suf[0];
    EmptyLevel(ht, i);
    LevelConcat(ht, e.pre, e.suf, i);
    LevelAlready(heap, e, Level(ht, e.pre, i), Level(ht, e.suf, i), i, prev);
    assert Level(ht, e.pre, i) + [] == Level(ht, e.pre, i);
    assert e.pre + e.suf == (e.pre + [x]) + e.suf[1..];
    LevelConcat(ht, e.pre, [x], i);
    LevelOne(ht, x, i);
    SplitLevel(heap, ht, e.pre + [x], e.suf[1..], i);
    assert Level(ht, e.pre, i) != [] && prev == Last(Level(ht, e.pre, i));
  }

  // ---- the operations of a mutable layer ----

  /** `insert`: refuses a key that is present; otherwise publishes the item and waits for the readers
      that may not have seen it. */
  method InsertItem<V(!new)>(list: Layer<V>, item: KV<V>, node: nat, height: nat)
    returns (ok: bool, wait: Option<nat>)
    requires list.Valid() && Sorted(list.Contents()) && node !in list.heap && 1 <= height <= list.levels
    modifies list
    ensures list.Valid() && Sorted(list.Contents())
    ensures ok <==> old(Lookup(list.Contents(), item.key)) == None
    ensures !ok ==> list.Contents() == old(list.Contents()) && list.inner == old(list.inner) && wait.None?
    ensures ok ==> Barrier(old(list.inner), list.inner, wait)
    ensures ok ==> forall key :: Lookup(list.Contents(), key)
                     == if key == item.key then Some(item) else old(Lookup(list.Contents(), key))
  {
    hide NoDup, Run, Links, Level, LevelOk, Lookup, Sorted, ListOk, Known, IterMut.Valid, Barrier;
    var iter := new IterMut<V>(list, Included(item.key));
    ghost var done, rest := iter.Done(), iter.Rest();
    var found := iter.Get();
    if found.Some? && found.value.key == item.key {
      LookupAt(list.Contents(), |done|);
      return false, None;
    }
    PutAt(done, rest, item, 0);
    iter.Insert(item, node, height);
    assert iter.Done() + iter.Rest() == done + [item] + rest[0..];
    wait := iter.CommitAndWait();
    return true, wait;
  }

  /** `replace_or_insert`. */
  method ReplaceOrInsert<V(!new)>(list: Layer<V>, item: KV<V>, node: nat, height: nat) returns (wait: Option<nat>)
    requires list.Valid() && Sorted(list.Contents()) && node !in list.heap && 1 <= height <= list.levels
    modifies list
    ensures list.Valid() && Sorted(list.Contents()) && Barrier(old(list.inner), list.inner, wait)
    ensures forall key :: Lookup(list.Contents(), key)
              == if key == item.key then Some(item) else old(Lookup(list.Contents(), key))
  {
    hide NoDup, Run, Links, Level, LevelOk, Lookup, Sorted, ListOk, Known, IterMut.Valid, Barrier;
    var iter := new IterMut<V>(list, Included(item.key));
    ghost var done, rest := iter.Done(), iter.Rest();
    var found := iter.Get();
    ghost var j := 0;
    if found.Some? && found.value.key == item.key {
      iter.Erase();
      j := 1;
    }
    PutAt(done, rest, item, j);
    iter.Insert(item, node, height);
    assert iter.Done() + iter.Rest() == done + [item] + rest[j..];
    wait := iter.CommitAndWait();
  }

  /** `erase`: removes the item under the key, if there is one. */
  method EraseItem<V(!new)>(list: Layer<V>, key: int) returns (wait: Option<nat>)
    requires list.Valid() && Sorted(list.Contents())
    modifies list
    ensures list.Valid() && Sorted(list.Contents())
    ensures if old(Lookup(list.Contents(), key)) == None
            then list.Contents() == old(list.Contents()) && list.inner == old(list.inner) && wait.None?
            else Barrier(old(list.inner), list.inner, wait)
    ensures forall k :: Lookup(list.Contents(), k) == if k == key then None else old(Lookup(list.Contents(), k))
  {
    hide NoDup, Run, Links, Level, LevelOk, Lookup, Sorted, ListOk, Known, IterMut.Valid, Barrier;
    var iter := new IterMut<V>(list, Included(key));
    ghost var done, rest := iter.Done(), iter.Rest();
    var found := iter.Get();
    TakeAt(done, rest, key);
    if found.Some? && found.value.key == key {
      iter.Erase();
      assert iter.Done() + iter.Rest() == done + rest[1..];
    }
    wait := iter.CommitAndWait();
  }

  /** The item under the key, if there is one, is the first that is not before it. */
  lemma TakeAt<V>(done: seq<KV<V>>, rest: seq<KV<V>>, key: int)
    requires Sorted(done + rest)
    requires forall i :: i in done ==> i.key < key
    requires forall i :: i in rest ==> i.key >= key
    ensures if rest != [] && rest[0].key == key
            then Lookup(done + rest, key).Some? && Sorted(done + rest[1..])
                 && forall k :: Lookup(done + rest[1..], k) == if k == key then None else Lookup(done + rest, k)
            else Lookup(done + rest, key) == None
  {
    hide Lookup;
    var s, n := done + rest, |done|;
    forall i | 0 <= i < |s| ensures s[i] == if i < n then done[i] else rest[i - n] { }
    if rest != [] && rest[0].key == key {
      var t := done + rest[1..];
      LookupAt(s, n);
      forall i | 0 <= i < |t| ensures t[i] == s[if i < n then i else i + 1] { }
      forall k ensures Lookup(t, k) == if k == key then None else Lookup(s, k) {
        LookupWithout(s, t, n, k);
      }
    } else {
      forall i | 0 <= i < |s| ensures s[i].key != key {
        if i < n {
          assert done[i] in done;
        } else {
          assert rest[0] in rest && s[n] == rest[0] && s[n].key <= s[i].key;
        }
      }
      LookupNone(s, key);
    }
  }

  lemma LookupWithout<V>(s: seq<KV<V>>, t: seq<KV<V>>, n: nat, key: int)
    requires Sorted(s) && n < |s| && |t| == |s| - 1
    requires forall i :: 0 <= i < |t| ==> t[i] == s[if i < n then i else i + 1]
    ensures Sorted(t) && Lookup(t, key) == if key == s[n].key then None else Lookup(s, key)
  {
    hide Lookup;
    if key != s[n].key && exists i :: 0 <= i < |s| && s[i].key == key {
      var i :| 0 <= i < |s| && s[i].key == key;
      LookupAt(s, i);
      var j := if i < n then i else i - 1;
      assert t[j] == s[i];
      LookupAt(t, j);
    } else {
      LookupNone(t, key);
      if key != s[n].key { LookupNone(s, key); }
    }
  }

  /** Where the items below, at and above a key lie. */
  lemma Positions<V>(done: seq<KV<V>>, rest: seq<KV<V>>, key: int, j: nat)
    requires Sorted(done + rest) && j <= |rest|
    requires forall i :: i in done ==> i.key < key
    requires forall i :: i in rest ==> i.key >= key
    requires if rest != [] && rest[0].key == key then j == 1 else j == 0
    ensures var s, k := done + rest, |done|;
            && s[..k] == done && s[k + j..] == rest[j..]
            && (forall i :: 0 <= i < k ==> s[i].key < key)
            && (forall i :: k <= i < k + j ==> s[i].key == key)
            && (forall i :: k + j <= i < |s| ==> key < s[i].key)
  {
    var s, k := done + rest, |done|;
    forall i | 0 <= i < k ensures s[i].key < key { assert s[i] == done[i] && done[i] in done; }
    forall i | k + j <= i < |s| ensures key < s[i].key {
      assert s[i] == rest[i - k] && rest[i - k] in rest && s[k] == rest[0];
      if i > k { assert s[k].key < s[i].key && rest[0] in rest; }
    }
  }

  lemma PutAt<V>(done: seq<KV<V>>, rest: seq<KV<V>>, item: KV<V>, j: nat)
    requires Sorted(done + rest) && j <= |rest|
    requires forall i :: i in done ==> i.key < item.key
    requires forall i :: i in rest ==> i.key >= item.key
    requires if rest != [] && rest[0].key == item.key then j == 1 else j == 0
    ensures Sorted(done + [item] + rest[j..])
    ensures forall key :: Lookup(done + [item] + rest[j..], key)
              == if key == item.key then Some(item) else Lookup(done + rest, key)
    ensures j == 0 ==> Lookup(done + rest, item.key) == None
  {
    hide Lookup, Sorted;
    var s, k := done + rest, |done|;
    Positions(done, rest, item.key, j);
    LookupPut(s, k, k + j, item, item.key);
    forall key
      ensures Lookup(done + [item] + rest[j..], key) == if key == item.key then Some(item) else Lookup(s, key)
    {
      LookupPut(s, k, k + j, item, key);
    }
    if j == 0 { LookupNone(s, item.key); }
  }
}
