/** The allocator's merge function (src/object_store/allocator/merge.rs) and what merging the
    layers of the allocator tree with it means: for every byte of the device, the newest layer
    that says anything about the byte decides. */
module AllocatorMerge {
  import opened LsmTypes
  import opened Merge
  import opened RangeLayers
  import opened LazyRanges
  import opened Arith

  datatype AllocatorValue = Tombstone | Abs(count: nat, owner: nat)

  type Extent = Item<Range, AllocatorValue>

  /** `cmp_lower_bound` of allocator keys. */
  predicate Less(a: Range, b: Range) { a.start < b.start || (a.start == b.start && a.end < b.end) }

  /** The merge function. */
  function MergeExtents(left: Extent, leftLayer: nat, right: Extent,
                        rightLayer: nat): MergeResult<Range, AllocatorValue>
  {
    var l, r := left.key, right.key;
    if l.end < r.start then EmitLeft
    else if l.end == r.start then
      if left.value == right.value then
        Other(None, Discard, Replace(Item(Range(l.start, r.end), left.value, Min(left.sequence, right.sequence))))
      else EmitLeft
    else if l.start == r.start then
      if l.end < r.end then
        if leftLayer < rightLayer then
          Other(None, Keep, Replace(Item(Range(l.end, r.end), right.value, right.sequence)))
        else Other(None, Discard, Keep)
      else if rightLayer < leftLayer then
        Other(None, if r.end == l.end then Discard
              else Replace(Item(Range(r.end, l.end), left.value, left.sequence)), Keep)
      else Other(None, Keep, Discard)
    else
      Other(Some(Item(Range(l.start, r.start), left.value, left.sequence)),
            Replace(Item(Range(r.start, l.end), left.value, left.sequence)), Keep)
  }

  function AllocatorOps(): Ops<Range, AllocatorValue>
  {
    Ops(Less, BeforeBound, (k: Range) => None, MergeExtents)
  }

  // ---- The heap ----

  lemma {:induction false} LowestIsMin(cs: seq<Cursor<Range, AllocatorValue>>, out: set<nat>)
    ensures var l := Lowest(AllocatorOps(), cs, out);
            forall j :: 0 <= j < |cs| && j !in out && cs[j].HasItem() ==>
              l >= 0 && !Less(cs[j].Item().key, cs[l].Item().key) &&
                  (j < l ==> Less(cs[l].Item().key, cs[j].Item().key))
    decreases |cs|
  {
    if cs != [] {
      var i := |cs| - 1;
      LowestIsMin(cs[..i], out);
      var l := Lowest(AllocatorOps(), cs, out);
      forall j | 0 <= j < |cs| && j !in out && cs[j].HasItem()
        ensures l >= 0 && !Less(cs[j].Item().key, cs[l].Item().key)
        ensures (j < l ==> Less(cs[l].Item().key, cs[j].Item().key))
      {
        if j < i { assert cs[..i][j] == cs[j]; }
      }
    }
  }

  /** Every pass of the merger with this merge function is sound. */
  lemma PassOk(cs: seq<Cursor<Range, AllocatorValue>>)
    requires AllDisjoint(cs) && Lowest(AllocatorOps(), cs, {}) != -1
    ensures var (cs', current, done) := InnerStep(AllocatorOps(), cs);
            StepOk(cs, CurrentItem(cs', current), Consume(cs', current))
  {
    hide Lowest, StepOk, View, ValueAt, TotalSize, Size, Cursor.Items, From, AllDisjoint;
    var ops := AllocatorOps();
    var l := Lowest(ops, cs, {});
    var s := Lowest(ops, cs, {l});
    LowestIsMin(cs, {});
    LowestIsMin(cs, {l});
    var (cs', current, done) := InnerStep(ops, cs);
    if s == -1 {
      AloneFrom(cs, l);
      StepEmit(cs, l);
    } else {
      HeadsApart(cs, l, s);
      var left, right := cs[l].Item(), cs[s].Item();
      assert ops.merge(left, l, right, s) == MergeExtents(left, l, right, s);
      if left.key.end < right.key.start || (left.key.end == right.key.start && left.value != right.value) {
        OthersFrom(cs, l, s);
        StepEmit(cs, l);
      } else if left.key.end == right.key.start {
        RightNonEmpty(cs, l, s);
        StepJoin(cs, l, s, MergeExtents(left, l, right, s).right.item);
      } else if left.key.start == right.key.start {
        if left.key.end < right.key.end {
          if l < s {
            StepTrim(cs, l, s, MergeExtents(left, l, right, s).right.item);
            assert cs[l := cs[l].Apply(Keep)] == cs;
          } else {
            StepDrop(cs, s, l);
            assert cs[l := cs[l].Apply(Discard)][s := cs[s].Apply(Keep)] == cs[l := cs[l].Apply(Discard)];
          }
        } else {
          StepDrop(cs, l, s);
          assert cs[l := cs[l].Apply(Keep)] == cs;
        }
      } else {
        var r := MergeExtents(left, l, right, s);
        StepSplit(cs, l, s, r.emit.value, r.left.item);
        assert cs[l := cs[l].Apply(r.left)][s := cs[s].Apply(Keep)] == cs[l := cs[l].Apply(r.left)];
      }
    }
  }

  lemma RightNonEmpty(cs: seq<Cursor<Range, AllocatorValue>>, l: nat, s: nat)
    requires Pair(cs, l, s)
    ensures cs[s].Item().key.start < cs[s].Item().key.end
  {
    assert cs[s].Items()[0] == cs[s].Item();
  }

  lemma HeadsApart(cs: seq<Cursor<Range, AllocatorValue>>, l: nat, s: nat)
    requires AllDisjoint(cs) && l == Lowest(AllocatorOps(), cs, {}) && s == Lowest(AllocatorOps(), cs, {l})
    ensures Pair(cs, l, s)
    ensures var a, b := cs[l].Item().key, cs[s].Item().key; a.start == b.start ==>
              a.end < b.end || (a.end == b.end && l < s)
  {
    hide Lowest;
    LowestIsMin(cs, {});
    LowestIsMin(cs, {l});
    forall j | 0 <= j < |cs| && j != l && j != s ensures From(cs[j].Items(), cs[s].Item().key.start) {
      if cs[j].HasItem() { HeadTail(cs[j]); }
    }
  }

  /** Merging any number of layers with the allocator's merge function terminates with such an
      output. */
  lemma {:induction false} MergedView(cs: seq<Cursor<Range, AllocatorValue>>, fuel: nat)
    requires AllDisjoint(cs) && TotalSize(cs) <= fuel
    ensures MergeAll(AllocatorOps(), cs, fuel).Some?
    ensures MergedOk(cs, MergeAll(AllocatorOps(), cs, fuel).value)
    decreases fuel
  {
    hide Lowest, InnerStep, MergedOk, StepOk, TotalSize, AllDisjoint;
    var ops := AllocatorOps();
    if Lowest(ops, cs, {}) == -1 {
      NothingLeft(cs);
    } else {
      PassOk(cs);
      var (cs1, current, done) := InnerStep(ops, cs);
      var cs', e := Consume(cs1, current), CurrentItem(cs1, current);
      StepShrinks(cs, e, cs');
      MergedView(cs', fuel - 1);
      var rest := MergeAll(ops, cs', fuel - 1).value;
      MergedCons(cs, e, cs', rest);
      assert [] + rest == rest;
    }
  }

  lemma NothingLeft(cs: seq<Cursor<Range, AllocatorValue>>)
    requires Lowest(AllocatorOps(), cs, {}) == -1
    ensures MergedOk(cs, [])
  {
    LowestIsMin(cs, {});
    forall b ensures View(cs, b) == None && ValueAt<AllocatorValue>([], b) == None { ViewNone(cs, b); }
  }

  // ---- Whole blocks ----

  predicate Whole(e: Extent, block: nat)
    requires block > 0
  {
    e.key.start % block == 0 && e.key.end % block == 0
  }

  ghost predicate AllWhole(s: seq<Extent>, block: nat)
    requires block > 0
  {
    forall p :: 0 <= p < |s| ==> Whole(s[p], block)
  }

  ghost predicate CursorsWhole(cs: seq<Cursor<Range, AllocatorValue>>, block: nat)
    requires block > 0
  {
    forall i :: 0 <= i < |cs| ==> AllWhole(cs[i].Items(), block)
  }

  lemma ApplyWhole(c: Cursor<Range, AllocatorValue>, op: ItemOp<Range, AllocatorValue>, block: nat)
    requires block > 0 && c.HasItem() && AllWhole(c.Items(), block) && (op.Replace? ==> Whole(op.item, block))
    ensures AllWhole(c.Apply(op).Items(), block) && Whole(c.Item(), block)
  {
    assert c.Items()[0] == c.Item();
    assert c.Advance().Items() == c.Items()[1..];
  }

  /** The merge function cuts and joins extents at their ends only. */
  lemma MergeWhole(left: Extent, i: nat, right: Extent, j: nat, block: nat)
    requires block > 0 && Whole(left, block) && Whole(right, block)
    ensures var r := MergeExtents(left, i, right, j);
            r.Other? ==>
              && (r.emit.Some? ==> Whole(r.emit.value, block))
              && (r.left.Replace? ==> Whole(r.left.item, block)) && (r.right.Replace? ==> Whole(r.right.item, block))
  {
  }

  lemma {:induction false} PassWhole(cs: seq<Cursor<Range, AllocatorValue>>, block: nat)
    requires block > 0 && CursorsWhole(cs, block) && Lowest(AllocatorOps(), cs, {}) != -1
    ensures var (cs', current, done) := InnerStep(AllocatorOps(), cs);
            && CursorsWhole(Consume(cs', current), block)
            && (CurrentItem(cs', current).Some? ==> Whole(CurrentItem(cs', current).value, block))
  {
    hide Lowest, Cursor.Items, AllWhole, MergeExtents, Whole, Cursor.Apply;
    var ops := AllocatorOps();
    var l := Lowest(ops, cs, {});
    var s := Lowest(ops, cs, {l});
    ApplyWhole(cs[l], Keep, block);
    AdvanceWhole(cs[l], block);
    if s != -1 {
      ApplyWhole(cs[s], Keep, block);
      var r := MergeExtents(cs[l].Item(), l, cs[s].Item(), s);
      assert ops.merge(cs[l].Item(), l, cs[s].Item(), s) == r;
      MergeWhole(cs[l].Item(), l, cs[s].Item(), s, block);
      if r.Other? {
        ApplyWhole(cs[l], r.left, block);
        ApplyWhole(cs[s], r.right, block);
      }
    }
  }

  lemma AdvanceWhole(c: Cursor<Range, AllocatorValue>, block: nat)
    requires block > 0 && c.HasItem() && AllWhole(c.Items(), block)
    ensures AllWhole(c.Advance().Items(), block)
  {
    ApplyWhole(c, Discard, block);
  }

  /** Merging layers of whole blocks yields whole blocks. */
  lemma {:induction false} MergedWhole(cs: seq<Cursor<Range, AllocatorValue>>, block: nat, fuel: nat)
    requires block > 0 && CursorsWhole(cs, block) && MergeAll(AllocatorOps(), cs, fuel).Some?
    ensures AllWhole(MergeAll(AllocatorOps(), cs, fuel).value, block)
    decreases fuel
  {
    hide Lowest, InnerStep, CursorsWhole, Consume;
    var ops := AllocatorOps();
    if Lowest(ops, cs, {}) != -1 {
      PassWhole(cs, block);
      var (cs1, current, done) := InnerStep(ops, cs);
      MergedWhole(Consume(cs1, current), block, fuel - 1);
    }
  }

  lemma {:induction false} FilterWhole(s: seq<Extent>, block: nat)
    requires block > 0 && AllWhole(s, block)
    ensures AllWhole(FilterTombstones(s), block)
    decreases |s|
  {
    if s != [] { FilterWhole(s[1..], block); }
  }

  // ---- What this means for the allocator ----

  /** The merged extents of a stack of layers, newest first. */
  function Merged(layers: seq<seq<Extent>>, fuel: nat): Option<seq<Extent>>
  {
    MergeAll(AllocatorOps(), Opened(layers), fuel)
  }

  /** `filter_tombstones`. */
  function FilterTombstones(s: seq<Extent>): (r: seq<Extent>)
  {
    if s == [] then []
    else (if s[0].value == Tombstone then [] else [s[0]]) + FilterTombstones(s[1..])
  }

  /** What the allocator's iterator says about a byte: nothing for tombstones. */
  ghost function Allocated(v: Option<AllocatorValue>): Option<AllocatorValue>
  {
    if v == Some(Tombstone) then None else v
  }

  lemma {:induction false} FilterView(s: seq<Extent>)
    requires Disjoint(s)
    ensures Disjoint(FilterTombstones(s))
    ensures forall b :: ValueAt(FilterTombstones(s), b) == Allocated(ValueAt(s, b))
    ensures forall x :: From(s, x) ==> From(FilterTombstones(s), x)
  {
    if s != [] {
      var e, t := s[0], s[1..];
      FilterView(t);
      FilterCons(e, t);
      assert s == [e] + t;
    }
  }

  lemma FilterCons(e: Extent, t: seq<Extent>)
    requires Disjoint([e] + t) && Disjoint(FilterTombstones(t))
    requires forall b :: ValueAt(FilterTombstones(t), b) == Allocated(ValueAt(t, b))
    requires forall x :: From(t, x) ==> From(FilterTombstones(t), x)
    ensures Disjoint(FilterTombstones([e] + t))
    ensures forall b :: ValueAt(FilterTombstones([e] + t), b) == Allocated(ValueAt([e] + t, b))
    ensures forall x :: From([e] + t, x) ==> From(FilterTombstones([e] + t), x)
  {
    var s, f := [e] + t, FilterTombstones(t);
    assert e == s[0] && s[1..] == t;
    assert From(t, e.key.end);
    assert FilterTombstones(s) == if e.value == Tombstone then f else [e] + f;
    hide ValueAt, FilterTombstones;
    if e.value != Tombstone { DisjointCons(e, f); }
    forall b ensures ValueAt(FilterTombstones(s), b) == Allocated(ValueAt(s, b)) {
      AtCons(e, t, b);
      if e.value != Tombstone {
        AtCons(e, f, b);
      } else if Covers(e, b) {
        AtBelow(f, e.key.end, b);
      }
    }
    forall x | From(s, x) ensures From(FilterTombstones(s), x) {
      assert forall p :: 0 <= p < |t| ==> t[p] == s[p + 1];
      assert From(t, x) && x <= s[0].key.start;
    }
  }

  /** What `iter` yields over a stack of layers. */
  function Records(layers: seq<seq<Extent>>, fuel: nat): Option<seq<Extent>>
  {
    match Merged(layers, fuel) case None => None case Some(s) => Some(FilterTombstones(s))
  }

  /** What the layers together say about a byte. */
  ghost function Shown(layers: seq<seq<Extent>>, b: nat): Option<AllocatorValue> { Allocated(View(Opened(layers), b)) }

  ghost function RecordCount(layers: seq<seq<Extent>>): nat { TotalSize(Opened(layers)) }

  /** Over layers of whole blocks, `iter` yields ordered records of whole blocks that say the same. */
  lemma RecordsShow(layers: seq<seq<Extent>>, block: nat, fuel: nat)
    requires block > 0 && LayersDisjoint(layers) && (forall i :: 0 <= i < |layers| ==> AllWhole(layers[i], block))
    requires RecordCount(layers) <= fuel
    ensures Records(layers, fuel).Some?
    ensures var s := Records(layers, fuel).value;
            Disjoint(s) && AllWhole(s, block) && forall b: nat :: ValueAt(s, b) == Shown(layers, b)
  {
    hide ValueAt, View, MergeAll, TotalSize, Cursor.Items, FilterTombstones, AllWhole;
    var cs := Opened(layers);
    OpenedItems(layers);
    MergedView(cs, fuel);
    MergedWhole(cs, block, fuel);
    var all := Merged(layers, fuel).value;
    FilterView(all);
    FilterWhole(all, block);
  }

  lemma OpenedItems(layers: seq<seq<Extent>>)
    ensures forall i :: 0 <= i < |layers| ==> Opened(layers)[i].Items() == layers[i]
  {
  }

  /** Merging an extent into the mutable layer overwrites exactly its bytes.  `split` is where the
      mutable iterator starts: `lower_bound_for_merge_into` puts it before the first extent that
      ends at or after the start of the new one. */
  lemma {:induction false} MergeIntoOverwrites(layer: seq<Extent>, split: nat, e: Extent, fuel: nat)
    requires Disjoint(layer) && e.key.start < e.key.end && split <= |layer|
    requires forall p :: 0 <= p < split ==> layer[p].key.end < e.key.start
    requires TotalSize(Opened([[e], layer[split..]])) <= fuel
    ensures Merged([[e], layer[split..]], fuel).Some?
    ensures var result := layer[..split] + Merged([[e], layer[split..]], fuel).value;
            && Disjoint(result)
            && forall b :: ValueAt(result, b) == if Covers(e, b) then Some(e.value) else ValueAt(layer, b)
  {
    hide ValueAt, View, TotalSize, MergeAll, Cursor.Items, Opened;
    var tail := layer[split..];
    var cs := Opened([[e], tail]);
    OpenedPair(e, tail);
    assert Disjoint(tail);
    MergedView(cs, fuel);
    var out := Merged([[e], tail], fuel).value;
    var pre := layer[..split];
    if split > 0 {
      var x := layer[split - 1].key.end;
      assert From([e], x) && From(tail, x);
      assert AllFrom(cs, x);
    }
    PrefixDisjoint(layer, split, out);
    forall b: nat ensures ValueAt(pre + out, b) == if Covers(e, b) then Some(e.value) else ValueAt(layer, b) {
      AtConcat(pre, out, b);
      assert pre + tail == layer;
      AtConcat(pre, tail, b);
      PairView(e, tail, b);
      if Covers(e, b) { AtAbove(pre, e.key.start, b); }
    }
  }

  lemma OpenedPair(e: Extent, tail: seq<Extent>)
    ensures var cs := Opened([[e], tail]); |cs| == 2 && cs[0].Items() == [e] && cs[1].Items() == tail
  {
  }

  lemma PairView(e: Extent, tail: seq<Extent>, b: nat)
    ensures View(Opened([[e], tail]), b) == if Covers(e, b) then Some(e.value) else ValueAt(tail, b)
  {
    var cs := Opened([[e], tail]);
    OpenedPair(e, tail);
    assert cs[1..][1..] == [] && cs[1..][0] == cs[1];
    assert View(cs[1..], b) == if ValueAt(tail, b).Some? then ValueAt(tail, b) else View(cs[1..][1..], b);
    AtCons(e, [], b);
    assert [e] + [] == [e];
  }

  lemma PrefixDisjoint(layer: seq<Extent>, split: nat, out: seq<Extent>)
    requires Disjoint(layer) && split <= |layer| && Disjoint(out) && (split > 0 ==> From(out, layer[split - 1].key.end))
    ensures Disjoint(layer[..split] + out)
  {
    var s := layer[..split] + out;
    forall p, q | 0 <= p < q < |s| ensures s[p].key.end <= s[q].key.start {
      if p < split <= q {
        assert layer[p].key.end <= layer[split - 1].key.end by {
          if p < split - 1 { assert layer[p].key.end <= layer[split - 1].key.start; }
        }
        assert out[q - split].key.start >= layer[split - 1].key.end;
      } else if p >= split {
        assert out[p - split].key.end <= out[q - split].key.start;
      }
    }
  }

  // ---- Consulting layers as needed ----

  lemma EmitShape(left: Extent, i: nat, right: Extent, j: nat)
    ensures var r := MergeExtents(left, i, right, j);
            r.Other? && r.emit.Some? ==> r.right.Keep? && r.emit.value.key.end == right.key.start
  {
  }

  /** What a pass emits by itself ends where another extent starts; otherwise it changes nothing. */
  lemma {:induction false} EmitsBefore(cs: seq<Cursor<Range, AllocatorValue>>)
    ensures var (cs', current, done) := InnerStep(AllocatorOps(), cs);
            (current.At? ==> cs' == cs) && (current.Emitted? ==> StartsAt(cs', current.item.key.end))
  {
    hide Lowest, Cursor.Items, MergeExtents;
    var ops := AllocatorOps();
    var l := Lowest(ops, cs, {});
    if l != -1 {
      var s := Lowest(ops, cs, {l});
      if s != -1 {
        var r := MergeExtents(cs[l].Item(), l, cs[s].Item(), s);
        assert ops.merge(cs[l].Item(), l, cs[s].Item(), s) == r;
        EmitShape(cs[l].Item(), l, cs[s].Item(), s);
        if r.Other? && r.emit.Some? {
          var cs' := InnerStep(ops, cs).0;
          assert cs'[s] == cs[s] && cs'[s].Item().key.start == r.emit.value.key.end;
        }
      }
    }
  }

  /** One pass is sound in the sense that lazy merging needs. */
  lemma {:induction false} PassIsSound(cs: seq<Cursor<Range, AllocatorValue>>)
    requires AllDisjoint(cs) && Lowest(AllocatorOps(), cs, {}) != -1
    ensures PassSound(AllocatorOps(), cs)
  {
    hide InnerStep, StepOk, AllDisjoint, StartsAt;
    PassOk(cs);
    EmitsBefore(cs);
  }

  lemma AllocatorRanged()
    ensures Ranged(AllocatorOps())
  {
    hide PassSound, Lowest, AllDisjoint;
    forall cs: Cursors<AllocatorValue> | AllDisjoint(cs) && Lowest(AllocatorOps(), cs, {}) != -1
      ensures PassSound(AllocatorOps(), cs)
    {
      PassIsSound(cs);
    }
  }

  /** Iterating over the allocator's tree from any search key on: read in order, the records say about
      every byte what the newest layer says. */
  lemma {:induction false} IterReads(layers: seq<seq<Extent>>, bound: Bound<Range>, fuel: nat, limit: nat)
    requires LayersDisjoint(layers) && Searchable(bound)
    requires fuel > TotalSize(Opened(layers)) && Within(layers, limit)
    ensures Seek(AllocatorOps(), layers, bound, fuel).Some?
    ensures Collect(AllocatorOps(), Seek(AllocatorOps(), layers, bound, fuel).value, fuel, limit).Some?
    ensures var out := Collect(AllocatorOps(), Seek(AllocatorOps(), layers, bound, fuel).value, fuel, limit).value;
            && Ending(out, FirstByte(bound))
            && forall b: nat :: b >= FirstByte(bound) ==> ReadAt(out, b) == LayerView(layers, b)
  {
    hide Ranged;
    AllocatorRanged();
    LazyIsFull(AllocatorOps(), layers, bound, fuel, limit);
  }

  /** The search key of `deallocate` starts at zero so that all layers are consulted: an extent not above
      it would have to end one byte after the start of the range, and extents are whole blocks. */
  lemma {:induction false} DeallocateConsultsAll(layers: seq<seq<Extent>>, start: nat, block: nat)
    requires LayersDisjoint(layers) && block > 1 && start % block == 0
    requires forall i :: 0 <= i < |layers| ==> AllWhole(layers[i], block)
    ensures |SeekCursors(AllocatorOps(), layers, Included(Range(0, start + 1)))| == |layers|
  {
    hide Lowest, SeekLayer, Push, AllWhole;
    var ops, key := AllocatorOps(), Range(0, start + 1);
    var cs := SeekCursors(ops, layers, Included(key));
    if |cs| < |layers| {
      var l := Lowest(ops, cs, {});
      assert !Less(key, cs[l].Item().key);
      SoughtWhole(layers[l], Included(key), block);
      assert cs[l].Item() == SeekLayer(ops, layers[l], Included(key))[0];
      assert cs[l].Item().key.end == start + 1;
      NextByte(start, block);
      assert false;
    }
  }

  lemma NextByte(start: nat, block: nat)
    requires block > 1 && start % block == 0
    ensures (start + 1) % block == 1
  {
    var q := start / block;
    assert start == block * q;
    DivUnique(start + 1, block, q, 1);
  }

  lemma {:induction false} SoughtWhole(s: seq<Extent>, bound: Bound<Range>, block: nat)
    requires block > 0 && AllWhole(s, block)
    ensures var r := SeekLayer(AllocatorOps(), s, bound);
            AllWhole(r, block) && (r != [] ==> Whole(r[0], block) && !BeforeBound(r[0].key, bound))
    decreases |s|
  {
    if s != [] && BeforeBound(s[0].key, bound) { SoughtWhole(s[1..], bound, block); }
  }

  /** So `deallocate` walks over records that do not overlap and say about every byte from the start of
      the range on what the tree says. */
  lemma {:induction false} DeallocateSees(layers: seq<seq<Extent>>, start: nat, block: nat, fuel: nat, limit: nat)
    requires LayersDisjoint(layers) && block > 1 && start % block == 0
    requires forall i :: 0 <= i < |layers| ==> AllWhole(layers[i], block)
    requires fuel > TotalSize(Opened(layers)) && Within(layers, limit)
    ensures Seek(AllocatorOps(), layers, Included(Range(0, start + 1)), fuel).Some?
    ensures var m := Seek(AllocatorOps(), layers, Included(Range(0, start + 1)), fuel).value;
            && Collect(AllocatorOps(), m, fuel, limit).Some?
            && var records := FilterTombstones(Collect(AllocatorOps(), m, fuel, limit).value);
               Disjoint(records) && forall b: nat :: b >= start ==> ValueAt(records, b) == Shown(layers, b)
  {
    hide Ranged, TotalSize, Within, ValueAt, View, FilterTombstones, SeekCursors, Seek, Collect, AllWhole, Disjoint;
    AllocatorRanged();
    DeallocateConsultsAll(layers, start, block);
    FullIsDisjoint(AllocatorOps(), layers, Included(Range(0, start + 1)), fuel, limit);
    var m := Seek(AllocatorOps(), layers, Included(Range(0, start + 1)), fuel).value;
    FilterView(Collect(AllocatorOps(), m, fuel, limit).value);
  }
}
