/** Lazily merged extents of the object store may overlap (src/lsm_tree/merge.rs, src/object_store/merge.rs):
    a deleted extent that was returned is put back when another layer is consulted, and is joined with a
    deleted extent found there.  This module shows exactly when that happens. */
module ExtentOverlap {
  import opened LsmTypes
  import opened Merge
  import opened RangeLayers
  import opened LazyRanges
  import opened MergeMap
  import opened ExtentMerge

  /** Iterator `g` starts before `t` and ends after it; all others come after `t`. */
  ghost predicate Straddles(cs: Cursors<ExtentValue>, g: nat, start: nat, t: nat)
  {
    && g < |cs| && AllDisjoint(cs) && cs[g].HasItem()
    && cs[g].Item().key.start == start < t < cs[g].Item().key.end
    && forall j :: 0 <= j < |cs| && j != g ==> From(cs[j].Items(), t + 1)
  }

  lemma FirstFrom(cs: Cursors<ExtentValue>, j: nat, x: int)
    requires j < |cs| && cs[j].HasItem() && From(cs[j].Items(), x)
    ensures cs[j].Item().key.start >= x
  {
    assert cs[j].Items()[0] == cs[j].Item();
  }

  /** The lowest iterator, if it is known to be lower than all others. */
  lemma LowestKnown(cs: Cursors<ExtentValue>, g: nat, t: nat)
    requires g < |cs| && cs[g].HasItem() && cs[g].Item().key.start < t
    requires forall j :: 0 <= j < |cs| && j != g ==> From(cs[j].Items(), t)
    ensures Lowest(PlacedOps(), cs, {}) == g
  {
    hide Lowest, From, Cursor.Items;
    LowestFirst(cs, {});
    var l := Lowest(PlacedOps(), cs, {});
    if l != g { FirstFrom(cs, l, t); }
  }

  /** What a pass leaves of an iterator. */
  lemma AppliedFrom(c: Cursor<Range, ExtentValue>, op: ItemOp<Range, ExtentValue>, x: int)
    requires c.HasItem() && From(c.Items()[1..], x)
    ensures op.Discard? ==> From(c.Apply(op).Items(), x)
    ensures op.Replace? && op.item.key.start >= x ==> From(c.Apply(op).Items(), x)
  {
  }

  lemma RestFrom(c: Cursor<Range, ExtentValue>)
    requires c.HasItem() && Disjoint(c.Items())
    ensures From(c.Items()[1..], c.Item().key.end) && c.Item().key.start < c.Item().key.end
  {
    HeadTail(c);
  }

  lemma FromMore(s: Extents<ExtentValue>, x: int, y: int)
    requires From(s, x) && y <= x
    ensures From(s, y)
  {
  }

  /** Merging with an extent that starts after `t`. */
  lemma StraddleMerge(left: FileExtent, g: nat, right: FileExtent, s: nat, t: nat)
    requires left.key.start < t < left.key.end && t < right.key.start < right.key.end
    ensures var r := MergeWith(Unchanged, left, g, right, s);
            r.Other? ==>
              if r.emit.Some? then r.emit.value.key.start == left.key.start && r.emit.value.key.end > t
              else if r.left.Discard? then
                r.right.Replace? && r.right.item.key.start == left.key.start && r.right.item.key.end > t
              else r.left.Keep? && (r.right.Discard? || (r.right.Replace? && r.right.item.key.start > t))
  {
  }

  /** Whatever is merged with the straddling extent, it stays straddling until it is returned. */
  lemma {:induction false} StraddleStep(cs: Cursors<ExtentValue>, g: nat, start: nat, t: nat)
    requires Straddles(cs, g, start, t)
    ensures var (cs', current, done) := InnerStep(PlacedOps(), cs);
            if done then !current.Nothing?
                         && CurrentItem(cs', current).value.key.start == start
                         && CurrentItem(cs', current).value.key.end > t
            else exists g' :: Straddles(cs', g', start, t)
  {
    hide Lowest, From, Cursor.Items, AllDisjoint, Disjoint, MergeWith;
    forall j | 0 <= j < |cs| && j != g ensures From(cs[j].Items(), t) { FromMore(cs[j].Items(), t + 1, t); }
    LowestKnown(cs, g, t);
    LowestFirst(cs, {g});
    var s := Lowest(PlacedOps(), cs, {g});
    if s != -1 {
      FirstFrom(cs, s, t + 1);
      var left, right := cs[g].Item(), cs[s].Item();
      var r := MergeWith(Unchanged, left, g, right, s);
      assert PlacedOps().merge(left, g, right, s) == r;
      DisjointAt(cs, g);
      DisjointAt(cs, s);
      RestFrom(cs[g]);
      RestFrom(cs[s]);
      StraddleMerge(left, g, right, s, t);
      var (cs', current, done) := InnerStep(PlacedOps(), cs);
      if !done {
        assert AllDisjoint(cs') by { StepDisjoint(cs); }
        FromMore(cs[g].Items()[1..], left.key.end, t + 1);
        FromMore(cs[s].Items()[1..], right.key.end, t + 1);
        AppliedFrom(cs[g], r.left, t + 1);
        AppliedFrom(cs[s], r.right, t + 1);
        if r.left.Discard? {
          assert Straddles(cs', s, start, t);
        } else {
          assert cs'[g] == cs[g];
          assert Straddles(cs', g, start, t);
        }
      }
    }
  }

  lemma {:induction false} StepDisjoint(cs: Cursors<ExtentValue>)
    requires AllDisjoint(cs) && Lowest(PlacedOps(), cs, {}) != -1
    ensures var (cs', current, done) := InnerStep(PlacedOps(), cs); current == Nothing ==> AllDisjoint(cs')
  {
    hide InnerStep, View, TotalSize, AllDisjoint, AllFrom, Lowest;
    PassOk(cs);
    NothingConsumed(InnerStep(PlacedOps(), cs).0);
  }

  lemma DisjointAt(cs: Cursors<ExtentValue>, i: nat)
    requires AllDisjoint(cs) && i < |cs|
    ensures Disjoint(cs[i].Items())
  {
  }

  lemma {:induction false} StraddleEmits(cs: Cursors<ExtentValue>, g: nat, start: nat, t: nat, fuel: nat)
    requires Straddles(cs, g, start, t) && Inner(PlacedOps(), cs, fuel).Some?
    ensures var (cs', current) := Inner(PlacedOps(), cs, fuel).value;
            && !current.Nothing? && CurrentItem(cs', current).value.key.start == start
            && CurrentItem(cs', current).value.key.end > t
    decreases fuel
  {
    hide InnerStep, Straddles;
    StraddleStep(cs, g, start, t);
    var (cs', current, done) := InnerStep(PlacedOps(), cs);
    if !done {
      var g' :| Straddles(cs', g', start, t);
      StraddleEmits(cs', g', start, t, fuel - 1);
    }
  }

  // ---- The item that was put back ----

  /** Iterator `l` is back at an extent that ends at `t`; all others come after `t`, except that the first
      extent of iterator `h`, which was consulted last, may start earlier. */
  ghost predicate Back(cs: Cursors<ExtentValue>, l: nat, h: nat, t: nat)
  {
    && l < h < |cs| && AllDisjoint(cs) && cs[l].HasItem() && cs[l].Item().key.end == t
    && From(cs[l].Items()[1..], t + 1)
    && (forall j :: 0 <= j < |cs| && j != l && j != h ==> From(cs[j].Items(), t + 1))
    && (cs[h].HasItem() ==> cs[h].Item().key.end > t)
  }

  /** Both are deleted, in neighbouring layers, and touch. */
  ghost predicate Joinable(cs: Cursors<ExtentValue>, l: nat, h: nat, t: nat)
    requires l < h < |cs| && cs[l].HasItem()
  {
    && cs[h].HasItem() && cs[h].Item().key.start <= t && h == l + 1
    && cs[l].Item().value == Deleted && cs[h].Item().value == Deleted
  }

  /** Where iterator `h` starts. */
  ghost predicate StartsFrom(cs: Cursors<ExtentValue>, h: nat, x: int)
    requires h < |cs|
  {
    cs[h].HasItem() ==> cs[h].Item().key.start >= x
  }

  lemma ItemsFrom(c: Cursor<Range, ExtentValue>, x: int)
    requires Disjoint(c.Items()) && (c.HasItem() ==> c.Item().key.start >= x)
    ensures From(c.Items(), x)
  {
    if c.HasItem() { HeadTail(c); }
  }

  lemma BackSorted(cs: Cursors<ExtentValue>, l: nat, h: nat, t: nat)
    requires Back(cs, l, h, t)
    ensures cs[l].Item().key.start < t && Disjoint(cs[l].Items()) && Disjoint(cs[h].Items())
    ensures cs[h].HasItem() ==> cs[h].Item().key.start < cs[h].Item().key.end
    ensures forall x :: StartsFrom(cs, h, x) ==> From(cs[h].Items(), x)
    ensures forall j :: 0 <= j < |cs| && j != l && j != h ==> From(cs[j].Items(), t)
  {
    hide From, Cursor.Items, Disjoint;
    DisjointAt(cs, l);
    DisjointAt(cs, h);
    RestFrom(cs[l]);
    if cs[h].HasItem() { RestFrom(cs[h]); }
    forall x | StartsFrom(cs, h, x) ensures From(cs[h].Items(), x) { ItemsFrom(cs[h], x); }
    forall j | 0 <= j < |cs| && j != l && j != h ensures From(cs[j].Items(), t) { FromMore(cs[j].Items(), t + 1, t); }
  }

  lemma ApartMerge(left: FileExtent, l: nat, right: FileExtent, s: nat)
    requires left.key.end < right.key.start
             || (left.key.end == right.key.start
                 && !(Neighbours(l, s) && left.value == Deleted && right.value == Deleted))
    ensures MergeWith(Unchanged, left, l, right, s) == EmitLeft
  {
  }

  lemma {:induction false} BackFirst(cs: Cursors<ExtentValue>, l: nat, h: nat, t: nat)
    requires Back(cs, l, h, t) && !Joinable(cs, l, h, t) && StartsFrom(cs, h, t)
    ensures Lowest(PlacedOps(), cs, {}) == l && InnerStep(PlacedOps(), cs) == (cs, At(l), true)
  {
    hide Lowest, From, Cursor.Items, AllDisjoint, MergeWith;
    BackSorted(cs, l, h, t);
    LowestKnown(cs, l, t);
    LowestFirst(cs, {l});
    var s := Lowest(PlacedOps(), cs, {l});
    if s != -1 {
      if s != h { FirstFrom(cs, s, t + 1); }
      ApartMerge(cs[l].Item(), l, cs[s].Item(), s);
      assert PlacedOps().merge(cs[l].Item(), l, cs[s].Item(), s) ==
             MergeWith(Unchanged, cs[l].Item(), l, cs[s].Item(), s);
    }
  }

  /** With nothing else to join, the item comes first again and is skipped. */
  lemma {:induction false} BackEmits(cs: Cursors<ExtentValue>, l: nat, h: nat, t: nat)
    requires Back(cs, l, h, t) && !Joinable(cs, l, h, t) && StartsFrom(cs, h, t)
    ensures InnerStep(PlacedOps(), cs) == (cs, At(l), true)
    ensures AllFrom(Consume(cs, At(l)), t) && AllDisjoint(Consume(cs, At(l)))
    ensures TotalSize(Consume(cs, At(l))) < TotalSize(cs)
  {
    hide Lowest, From, Cursor.Items, TotalSize, InnerStep, View, AllDisjoint;
    BackSorted(cs, l, h, t);
    BackFirst(cs, l, h, t);
    PassOk(cs);
    var rest := Consume(cs, At(l));
    forall j | 0 <= j < |rest| ensures From(rest[j].Items(), t) {
      if j == l { FromMore(cs[l].Items()[1..], t + 1, t); }
    }
  }

  /** A newer extent cuts off the start of the older one. */
  lemma {:induction false} BackTrims(cs: Cursors<ExtentValue>, l: nat, h: nat, t: nat)
    requires Back(cs, l, h, t) && !Joinable(cs, l, h, t) && cs[h].HasItem()
    requires cs[l].Item().key.start <= cs[h].Item().key.start < t
    ensures var (cs', current, done) := InnerStep(PlacedOps(), cs);
            && current == Nothing && !done && |cs'| == |cs| && TotalSize(cs') < TotalSize(cs)
            && Back(cs', l, h, t) && !Joinable(cs', l, h, t) && StartsFrom(cs', h, t)
  {
    hide Lowest, From, Cursor.Items, TotalSize, AllDisjoint;
    BackSorted(cs, l, h, t);
    PairLowest(cs, l, h, t);
    var r := MergeWith(Unchanged, cs[l].Item(), l, cs[h].Item(), h);
    assert PlacedOps().merge(cs[l].Item(), l, cs[h].Item(), h) == r;
    PassOk(cs);
    NothingConsumed(InnerStep(PlacedOps(), cs).0);
  }

  /** Which two are merged. */
  lemma {:induction false} PairLowest(cs: Cursors<ExtentValue>, l: nat, h: nat, t: nat)
    requires Back(cs, l, h, t) && cs[h].HasItem() && cs[h].Item().key.start <= t
    ensures cs[l].Item().key.start <= cs[h].Item().key.start ==>
              Lowest(PlacedOps(), cs, {}) == l && Lowest(PlacedOps(), cs, {l}) == h
    ensures cs[l].Item().key.start > cs[h].Item().key.start ==>
              Lowest(PlacedOps(), cs, {}) == h && Lowest(PlacedOps(), cs, {h}) == l
  {
    hide Lowest, From, Cursor.Items, AllDisjoint;
    BackSorted(cs, l, h, t);
    LowestFirst(cs, {});
    LowestFirst(cs, {l});
    LowestFirst(cs, {h});
    forall j | 0 <= j < |cs| && j != l && j != h && cs[j].HasItem() ensures cs[j].Item().key.start > t {
      FirstFrom(cs, j, t + 1);
    }
  }

  /** What the older extent has before the newer one comes first, and is skipped. */
  lemma {:induction false} BackCuts(cs: Cursors<ExtentValue>, l: nat, h: nat, t: nat)
    requires Back(cs, l, h, t) && !Joinable(cs, l, h, t) && cs[h].HasItem()
    requires cs[h].Item().key.start < cs[l].Item().key.start
    ensures var (cs', current, done) := InnerStep(PlacedOps(), cs);
            && current.Emitted? && done && current.item.key.end < t && |cs'| == |cs| && TotalSize(cs') < TotalSize(cs)
            && Back(cs', l, h, t) && !Joinable(cs', l, h, t) && StartsFrom(cs', h, cs'[l].Item().key.start)
  {
    hide Lowest, From, Cursor.Items, TotalSize, AllDisjoint;
    BackSorted(cs, l, h, t);
    PairLowest(cs, l, h, t);
    var r := MergeWith(Unchanged, cs[h].Item(), h, cs[l].Item(), l);
    assert PlacedOps().merge(cs[h].Item(), h, cs[l].Item(), l) == r;
    PassOk(cs);
  }

  /** Two deleted extents are joined, and the result starts before `t`. */
  lemma {:induction false} BackJoins(cs: Cursors<ExtentValue>, l: nat, h: nat, t: nat)
    requires Back(cs, l, h, t) && Joinable(cs, l, h, t)
    ensures var (cs', current, done) := InnerStep(PlacedOps(), cs);
            && current == Nothing && !done && |cs'| == |cs| && TotalSize(cs') < TotalSize(cs)
            && exists start :: Straddles(cs', h, start, t)
  {
    hide Lowest, From, Cursor.Items, TotalSize, AllDisjoint;
    BackSorted(cs, l, h, t);
    PairLowest(cs, l, h, t);
    PassOk(cs);
    var (cs', current, done) := InnerStep(PlacedOps(), cs);
    NothingConsumed(cs');
    AppliedFrom(cs[l], Discard, t + 1);
    if cs[l].Item().key.start <= cs[h].Item().key.start {
      var r := MergeWith(Unchanged, cs[l].Item(), l, cs[h].Item(), h);
      assert PlacedOps().merge(cs[l].Item(), l, cs[h].Item(), h) == r;
      assert Straddles(cs', h, cs[l].Item().key.start, t);
    } else {
      var r := MergeWith(Unchanged, cs[h].Item(), h, cs[l].Item(), l);
      assert PlacedOps().merge(cs[h].Item(), h, cs[l].Item(), l) == r;
      assert Straddles(cs', h, cs[h].Item().key.start, t);
    }
  }

  // ---- The search after it ----

  /** The bound that `advance` searches with. */
  function After(t: nat): Bound<Range> { Included(Range(t, t + 1)) }

  /** What the search returns does not start before `t`. */
  ghost predicate Later(cs: Cursors<ExtentValue>, t: nat, fuel: nat)
  {
    match AdvanceImpl(PlacedOps(), cs, After(t), fuel)
    case None => false
    case Some((cs', current)) =>
      CurrentItem(cs', current).Some? ==> CurrentItem(cs', current).value.key.start >= t
  }

  lemma LaterFrom(cs: Cursors<ExtentValue>, t: nat, fuel: nat)
    requires AllDisjoint(cs) && AllFrom(cs, t) && fuel > TotalSize(cs)
    ensures Later(cs, t, fuel)
  {
    hide TotalSize, View, AllDisjoint, StartsAt, Ranged, AdvanceImpl;
    PlacedRanged();
    Finds(PlacedOps(), cs, After(t), t, fuel);
  }

  lemma InnerNow(cs: Cursors<ExtentValue>, fuel: nat)
    requires fuel > 0
    ensures var (cs', current, done) := InnerStep(PlacedOps(), cs);
            Inner(PlacedOps(), cs, fuel) == if done then Some((cs', current)) else Inner(PlacedOps(), cs', fuel - 1)
  {
    hide InnerStep;
  }

  /** Once the put-back item is lowest, it is skipped. */
  lemma {:induction false} LaterSkips(cs: Cursors<ExtentValue>, cs1: Cursors<ExtentValue>, l: nat, h: nat, t: nat,
                                      fuel: nat)
    requires Back(cs1, l, h, t) && !Joinable(cs1, l, h, t) && StartsFrom(cs1, h, t) && fuel > TotalSize(cs1)
    requires Inner(PlacedOps(), cs, fuel) == Some((cs1, At(l)))
    ensures Later(cs, t, fuel)
  {
    hide InnerStep, Inner, TotalSize, AllDisjoint, AllFrom;
    BackEmits(cs1, l, h, t);
    LaterFrom(Consume(cs1, At(l)), t, fuel - 1);
  }

  lemma {:induction false} LaterTrimmed(cs: Cursors<ExtentValue>, l: nat, h: nat, t: nat, fuel: nat)
    requires Back(cs, l, h, t) && !Joinable(cs, l, h, t) && StartsFrom(cs, h, cs[l].Item().key.start)
    requires fuel > TotalSize(cs)
    ensures Later(cs, t, fuel)
  {
    hide InnerStep, Inner, TotalSize, Later, AllFrom;
    InnerNow(cs, fuel);
    if StartsFrom(cs, h, t) {
      BackEmits(cs, l, h, t);
      LaterSkips(cs, cs, l, h, t, fuel);
    } else {
      BackTrims(cs, l, h, t);
      var cs1 := InnerStep(PlacedOps(), cs).0;
      BackEmits(cs1, l, h, t);
      InnerNow(cs1, fuel - 1);
      LaterSkips(cs, cs1, l, h, t, fuel);
    }
  }

  /** If the put-back item cannot be joined, the next one starts at its end or later. */
  lemma {:induction false} LaterApart(cs: Cursors<ExtentValue>, l: nat, h: nat, t: nat, fuel: nat)
    requires Back(cs, l, h, t) && !Joinable(cs, l, h, t) && fuel > TotalSize(cs)
    ensures Later(cs, t, fuel)
  {
    hide InnerStep, Inner, TotalSize, AllFrom;
    if StartsFrom(cs, h, cs[l].Item().key.start) {
      LaterTrimmed(cs, l, h, t, fuel);
    } else {
      BackCuts(cs, l, h, t);
      InnerNow(cs, fuel);
      LaterTrimmed(InnerStep(PlacedOps(), cs).0, l, h, t, fuel - 1);
    }
  }

  /** If it can, the next one starts before it ended. */
  lemma {:induction false} EarlierJoined(cs: Cursors<ExtentValue>, l: nat, h: nat, t: nat, fuel: nat)
    requires Back(cs, l, h, t) && Joinable(cs, l, h, t) && fuel > TotalSize(cs)
    ensures AdvanceImpl(PlacedOps(), cs, After(t), fuel).Some?
    ensures var (cs', current) := AdvanceImpl(PlacedOps(), cs, After(t), fuel).value;
            !current.Nothing? && CurrentItem(cs', current).value.key.start < t
  {
    hide InnerStep, Inner, TotalSize, AllFrom, Ranged, Found;
    PlacedRanged();
    BackJoins(cs, l, h, t);
    InnerNow(cs, fuel);
    var cs1 := InnerStep(PlacedOps(), cs).0;
    var start :| Straddles(cs1, h, start, t);
    LazyRanges.InnerFinds(PlacedOps(), cs1, fuel - 1);
    StraddleEmits(cs1, h, start, t, fuel - 1);
  }

  // ---- Which layers are consulted ----

  /** Every layer but the last was consulted in vain. */
  lemma {:induction false} PushNeeded(layers: seq<Extents<ExtentValue>>, cs: Cursors<ExtentValue>, out: set<nat>,
                                      nextKey: Option<Range>, bound: Bound<Range>, k: nat)
    requires |cs| <= |layers| && |cs| <= k < |Push(PlacedOps(), layers, cs, out, nextKey, bound)|
    ensures NeedsMore(PlacedOps(), layers, Push(PlacedOps(), layers, cs, out, nextKey, bound)[..k], out, nextKey)
    decreases |layers| - |cs|
  {
    hide Lowest, SeekLayer;
    var ops := PlacedOps();
    var r := Push(ops, layers, cs, out, nextKey, bound);
    if k > |cs| {
      PushNeeded(layers, cs + [Cursor(None, SeekLayer(ops, layers[|cs|], bound))], out, nextKey, bound, k);
    } else {
      assert r[..k] == cs;
    }
  }

  /** With the current item put back, another layer is needed. */
  lemma {:induction false} BackNeeds(m: Merger<Range, ExtentValue>)
    requires Between(m) && m.current.At? && |m.cs| < |m.layers|
    requires !StartsAt(Consume(m.cs, m.current), m.Get().value.key.end)
    ensures var l, t, back := m.current.layer, m.Get().value.key.end, PutBack(m.cs, m.current);
            && AllDisjoint(back) && NeedsMore(PlacedOps(), m.layers, back, {l}, Some(Range(t, t + 1)))
            && back[l].HasItem() && back[l].Item() == m.cs[l].Item() && From(back[l].Items()[1..], t + 1)
  {
    hide Lowest, From, Cursor.Items, AllFrom, View, StartsAt, Disjoint;
    var l, t, back := m.current.layer, m.Get().value.key.end, PutBack(m.cs, m.current);
    PutBackView(m.cs, m.current, t);
    PutBackItems(m.cs[l]);
    RestAfter(m.cs, l, t);
    FirstNeeded(m.cs, back, l, t);
  }

  /** All iterators but the last one and the one that was put back start after `t`. */
  lemma {:induction false} OthersAfter(layers: seq<Extents<ExtentValue>>, cs: Cursors<ExtentValue>, l: nat, h: nat,
                                       t: nat)
    requires l < h < |cs| && AllDisjoint(cs)
    requires NeedsMore(PlacedOps(), layers, cs[..h], {l}, Some(Range(t, t + 1)))
    ensures forall j :: 0 <= j < h && j != l ==> From(cs[j].Items(), t + 1) && StartsFrom(cs, j, t + 1)
  {
    hide Lowest, From, Cursor.Items, Disjoint;
    LowestFirst(cs[..h], {l});
    forall j | 0 <= j < h && j != l ensures From(cs[j].Items(), t + 1) && StartsFrom(cs, j, t + 1) {
      assert cs[..h][j] == cs[j];
      DisjointAt(cs, j);
      ItemsFrom(cs[j], t + 1);
    }
  }

  /** The iterators after the layers that were needed have been consulted. */
  lemma {:induction false} PushedBack(m: Merger<Range, ExtentValue>)
    requires Between(m) && m.current.At? && |m.cs| < |m.layers|
    requires !StartsAt(Consume(m.cs, m.current), m.Get().value.key.end)
    ensures var l, t := m.current.layer, m.Get().value.key.end;
            var cs := Push(PlacedOps(), m.layers, PutBack(m.cs, m.current), {l}, Some(Range(t, t + 1)), After(t));
            |cs| > |m.cs| && Back(cs, l, |cs| - 1, t)
            && forall j :: |m.cs| <= j < |cs| - 1 && cs[j].HasItem() ==> cs[j].Item().key.start > t
  {
    hide Lowest, From, Cursor.Items, AllFrom, View, Push, StartsAt, Disjoint, NeedsMore, AllDisjoint, SeekLayer, Ranged;
    hide TotalSize;
    var ops, l, t, back := PlacedOps(), m.current.layer, m.Get().value.key.end, PutBack(m.cs, m.current);
    var key := Some(Range(t, t + 1));
    var cs := Push(ops, m.layers, back, {l}, key, After(t));
    PlacedRanged();
    BackNeeds(m);
    PushGrows(m.layers, back, {l}, key, After(t));
    SoughtView(ops, m.layers, back, cs, After(t), t);
    var h := |cs| - 1;
    SoughtItems(ops, m.layers, back, cs, After(t), t, h);
    PushNeeded(m.layers, back, {l}, key, After(t), h);
    OthersAfter(m.layers, cs, l, h, t);
    assert cs[l] == back[l];
  }

  lemma PushGrows(layers: seq<Extents<ExtentValue>>, cs: Cursors<ExtentValue>, out: set<nat>, nextKey: Option<Range>,
                  bound: Bound<Range>)
    requires |cs| <= |layers| && NeedsMore(PlacedOps(), layers, cs, out, nextKey)
    ensures |Push(PlacedOps(), layers, cs, out, nextKey, bound)| > |cs|
  {
    hide Lowest, SeekLayer;
  }

  /** Nothing of the consulted layers starts where the current item ends: all of it comes later. */
  lemma {:induction false} RestAfter(cs: Cursors<ExtentValue>, l: nat, t: nat)
    requires l < |cs| && cs[l].HasItem() && AllDisjoint(Consume(cs, At(l))) && AllFrom(Consume(cs, At(l)), t)
    requires !StartsAt(Consume(cs, At(l)), t)
    ensures forall j :: 0 <= j < |cs| ==> From(Consume(cs, At(l))[j].Items(), t + 1)
    ensures From(cs[l].Items()[1..], t + 1)
  {
    hide From, Cursor.Items, Disjoint;
    var rest := Consume(cs, At(l));
    forall j | 0 <= j < |cs| ensures From(rest[j].Items(), t + 1) {
      if rest[j].HasItem() { FirstFrom(rest, j, t); }
      ItemsFrom(rest[j], t + 1);
    }
    assert rest[l].Items() == cs[l].Items()[1..];
  }

  lemma {:induction false} FirstNeeded(cs: Cursors<ExtentValue>, back: Cursors<ExtentValue>, l: nat, t: nat)
    requires l < |cs| == |back| && cs[l].HasItem() && (forall j :: 0 <= j < |cs| && j != l ==> back[j] == cs[j])
    requires forall j :: 0 <= j < |cs| ==> From(Consume(cs, At(l))[j].Items(), t + 1)
    ensures var k := Lowest(PlacedOps(), back, {l}); k == -1 || back[k].Item().key.start > t
  {
    hide From, Cursor.Items, Lowest;
    var k := Lowest(PlacedOps(), back, {l});
    if k != -1 { FirstFrom(Consume(cs, At(l)), k, t + 1); }
  }

  // ---- Exactly when ----

  /** The current item is deleted and comes from the last layer that was consulted, nothing consulted starts
      where it ends, and the first extent of the next layer that ends after it is deleted and starts by
      then. */
  ghost predicate Rejoins(m: Merger<Range, ExtentValue>)
    requires m.Ok()
  {
    && m.current.At? && m.current.layer + 1 == |m.cs| < |m.layers| && m.Get().value.value == Deleted
    && var t := m.Get().value.key.end;
       var found := SeekLayer(PlacedOps(), m.layers[|m.cs|], After(t));
       && !StartsAt(Consume(m.cs, m.current), t)
       && found != [] && found[0].key.start <= t && found[0].value == Deleted
  }

  ghost predicate OverlapsNext(ops: Ops<Range, ExtentValue>, m: Merger<Range, ExtentValue>, fuel: nat)
    requires m.Ok() && m.Get().Some? && Advance(ops, m, fuel).Some?
  {
    var next := Advance(ops, m, fuel).value.Get();
    next.Some? && next.value.key.start < m.Get().value.key.end
  }

  /** The three ways of `advance` that put nothing back. */
  lemma {:induction false} KeepsOrder(m: Merger<Range, ExtentValue>, fuel: nat)
    requires Between(m) && m.Get().Some? && fuel > TotalSize(Pool(m))
    requires Prepare(PlacedOps(), m) == Consume(m.cs, m.current)
    ensures Advance(PlacedOps(), m, fuel).Some? && !OverlapsNext(PlacedOps(), m, fuel)
  {
    hide TotalSize, View, Prepare, NextSearch, Ranged, AdvanceImpl, AllDisjoint, StartsAt;
    PlacedRanged();
    AdvancePrepares(PlacedOps(), m);
    var cs, t, bound := Prepare(PlacedOps(), m), m.Get().value.key.end, NextSearch(PlacedOps(), m).1;
    SizeConcat(cs, Opened(m.layers[|cs|..]));
    Finds(PlacedOps(), cs, bound, t, fuel);
  }

  /** What `advance` does first. */
  lemma {:induction false} PrepareIs(m: Merger<Range, ExtentValue>)
    requires Between(m) && m.Get().Some?
    ensures var t := m.Get().value.key.end;
            if m.current.At? && |m.cs| < |m.layers| && !StartsAt(Consume(m.cs, m.current), t)
            then NextSearch(PlacedOps(), m).1 == After(t)
                 && Prepare(PlacedOps(), m) == Push(PlacedOps(), m.layers, PutBack(m.cs, m.current), {m.current.layer},
                                                    Some(Range(t, t + 1)), After(t))
            else Prepare(PlacedOps(), m) == Consume(m.cs, m.current)
  {
    hide Lowest, Cursor.Items, From, View, Disjoint, SeekLayer;
    var t, rest := m.Get().value.key.end, Consume(m.cs, m.current);
    if |m.cs| == |m.layers| {
      PrepareAll(PlacedOps(), m);
    } else if m.current.At? {
      var l := m.current.layer;
      LowestFirst(m.cs, {l});
      var j := Lowest(PlacedOps(), m.cs, {l});
      if StartsAt(rest, t) {
        var i :| 0 <= i < |rest| && rest[i].HasItem() && rest[i].Item().key.start == t;
        if i != l { assert rest[i] == m.cs[i]; } else { assert rest[l] == m.cs[l].Advance(); }
      } else {
        if j != -1 { assert rest[j] == m.cs[j]; FirstFrom(rest, j, t); }
        assert rest[l] == m.cs[l].Advance();
        if rest[l].HasItem() { FirstFrom(rest, l, t); }
      }
    } else {
      LowestFirst(m.cs, {});
    }
  }

  /** The next extent starts before the current one ended exactly in that case. */
  lemma {:induction false} PlacedOverlap(m: Merger<Range, ExtentValue>, fuel: nat)
    requires Between(m) && m.Get().Some? && fuel > TotalSize(Pool(m))
    ensures Advance(PlacedOps(), m, fuel).Some? && (OverlapsNext(PlacedOps(), m, fuel) <==> Rejoins(m))
  {
    hide TotalSize, View, Prepare, NextSearch, Ranged, AdvanceImpl, AllDisjoint, StartsAt, Push, From, Cursor.Items;
    hide SeekLayer, AllFrom;
    PrepareIs(m);
    var t := m.Get().value.key.end;
    if m.current.At? && |m.cs| < |m.layers| && !StartsAt(Consume(m.cs, m.current), t) {
      var cs, l := Prepare(PlacedOps(), m), m.current.layer;
      var h := |cs| - 1;
      PlacedRanged();
      AdvancePrepares(PlacedOps(), m);
      SizeConcat(cs, Opened(m.layers[|cs|..]));
      PushedBack(m);
      assert cs[l].Item() == m.cs[l].Item() by { PutBackItems(m.cs[l]); }
      var c := Cursor(None, SeekLayer(PlacedOps(), m.layers[|m.cs|], After(t)));
      assert cs[|m.cs|] == c;
      assert Joinable(cs, l, h, t) <==> Rejoins(m);
      if Joinable(cs, l, h, t) {
        EarlierJoined(cs, l, h, t, fuel);
      } else {
        LaterApart(cs, l, h, t, fuel);
      }
    } else {
      KeepsOrder(m, fuel);
    }
  }

  // ---- For the object store ----

  lemma {:induction false} RejoinsPlaced(m: Merger<Range, ExtentValue>)
    requires m.Ok()
    ensures MapMerger(Placed, m).Ok() && (Rejoins(MapMerger(Placed, m)) <==> Rejoins(m))
  {
    hide SeekLayer, Commutes, StartsAt, MapCursors, MapLayers, MapItems, Cursor.Items;
    PlacedCommutes();
    NextSearchMapped(Placed, ExtentOps(), PlacedOps(), m);
    if m.current.At? {
      var l := m.current.layer;
      AdvanceMapped(Placed, m.cs[l]);
      UpdateMapped(Placed, m.cs, l, m.cs[l].Advance());
      StartsPlaced(Consume(m.cs, m.current), m.Get().value.key.end);
      if |m.cs| < |m.layers| {
        SeekPlaced(m.layers[|m.cs|], After(m.Get().value.key.end));
      }
    }
  }

  lemma StartsPlaced(cs: Cursors<ExtentValue>, t: nat)
    ensures StartsAt(MapCursors(Placed, cs), t) <==> StartsAt(cs, t)
  {
    var mapped := MapCursors(Placed, cs);
    if StartsAt(cs, t) {
      var i :| 0 <= i < |cs| && cs[i].HasItem() && cs[i].Item().key.start == t;
      assert mapped[i].HasItem() && mapped[i].Item().key.start == t;
    }
    if StartsAt(mapped, t) {
      var i :| 0 <= i < |mapped| && mapped[i].HasItem() && mapped[i].Item().key.start == t;
      assert cs[i].HasItem() && cs[i].Item().key.start == t;
    }
  }

  lemma {:induction false} SeekPlaced(s: Extents<ExtentValue>, bound: Bound<Range>)
    ensures SeekLayer(PlacedOps(), MapItems(Placed, s), bound) == MapItems(Placed, SeekLayer(PlacedOps(), s, bound))
    decreases |s|
  {
    if s != [] && BeforeBound(s[0].key, bound) {
      SeekPlaced(s[1..], bound);
      assert MapItems(Placed, s)[1..] == MapItems(Placed, s[1..]);
    }
  }

  /** The iterator after a seek and `n` advances. */
  ghost function Walk(layers: seq<seq<FileExtent>>, bound: Bound<Range>, fuel: nat, n: nat)
    : (r: Option<Merger<Range, ExtentValue>>)
    requires Searchable(bound)
    ensures r.Some? ==> r.value.Ok()
  {
    if n == 0 then Seek(ExtentOps(), layers, bound, fuel)
    else
      match Walk(layers, bound, fuel, n - 1)
      case None => None
      case Some(m) => if m.Get().Some? then Advance(ExtentOps(), m, fuel) else None
  }

  lemma {:induction false} WalkBetween(layers: seq<seq<FileExtent>>, bound: Bound<Range>, fuel: nat, n: nat)
    requires LayersDisjoint(layers) && Searchable(bound) && fuel > TotalSize(Opened(layers))
    requires Walk(layers, bound, fuel, n).Some?
    ensures var m := MapMerger(Placed, Walk(layers, bound, fuel, n).value);
            Between(m) && TotalSize(Pool(m)) < fuel
    decreases n
  {
    hide TotalSize, Seek, Advance, Ranged, Commutes, View, LayersDisjoint, AllDisjoint, AllFrom;
    PlacedRanged();
    PlacedCommutes();
    if n == 0 {
      TotalPlaced(layers);
      PlacedDisjoint(layers);
      SeekSettles(PlacedOps(), MapLayers(Placed, layers), bound, fuel);
      SeekMapped(Placed, ExtentOps(), PlacedOps(), layers, bound, fuel);
    } else {
      WalkBetween(layers, bound, fuel, n - 1);
      var m := Walk(layers, bound, fuel, n - 1).value;
      NextSearchMapped(Placed, ExtentOps(), PlacedOps(), m);
      AdvanceSettles(PlacedOps(), MapMerger(Placed, m), fuel);
      AdvanceIsMapped(Placed, ExtentOps(), PlacedOps(), m, fuel);
    }
  }

  lemma PlacedDisjoint(layers: seq<seq<FileExtent>>)
    requires LayersDisjoint(layers)
    ensures LayersDisjoint(MapLayers(Placed, layers))
  {
    var mapped := MapLayers(Placed, layers);
    forall i | 0 <= i < |mapped| ensures Disjoint(mapped[i]) {
      assert Disjoint(layers[i]);
      assert forall p :: 0 <= p < |layers[i]| ==> mapped[i][p].key == layers[i][p].key;
    }
  }

  /** Wherever an iterator over the object store has come to, the next extent overlaps the current one
      exactly if that one is joined again. */
  lemma {:induction false} OverlapsExactly(layers: seq<seq<FileExtent>>, bound: Bound<Range>, fuel: nat, n: nat)
    requires LayersDisjoint(layers) && Searchable(bound) && fuel > TotalSize(Opened(layers))
    requires Walk(layers, bound, fuel, n).Some? && Walk(layers, bound, fuel, n).value.Get().Some?
    ensures var m := Walk(layers, bound, fuel, n).value;
            Advance(ExtentOps(), m, fuel).Some? && (OverlapsNext(ExtentOps(), m, fuel) <==> Rejoins(m))
  {
    hide TotalSize, Seek, Advance, Ranged, Commutes, View, LayersDisjoint, AllDisjoint, AllFrom, Rejoins, Walk, Between;
    var m := Walk(layers, bound, fuel, n).value;
    PlacedCommutes();
    WalkBetween(layers, bound, fuel, n);
    NextSearchMapped(Placed, ExtentOps(), PlacedOps(), m);
    PlacedOverlap(MapMerger(Placed, m), fuel);
    AdvanceIsMapped(Placed, ExtentOps(), PlacedOps(), m, fuel);
    RejoinsPlaced(m);
    var m' := Advance(ExtentOps(), m, fuel).value;
    NextSearchMapped(Placed, ExtentOps(), PlacedOps(), m');
  }

  // ---- An example ----

  const DATA: FileExtent := Item(Range(0, 5), Mapped(100, 0), 0)
  const HOLE: FileExtent := Item(Range(5, 10), Deleted, 0)
  const OLD: FileExtent := Item(Range(0, 20), Deleted, 0)

  /** A file whose first layer has data in bytes 0 to 5 and nothing in 5 to 10, over a layer in which bytes
      0 to 20 are deleted: after the extents 0..5 and 5..10 the next one starts before 10. */
  lemma {:induction false} Overlapping(fuel: nat)
    requires fuel > TotalSize(Opened([[DATA, HOLE], [OLD]]))
    ensures LayersDisjoint([[DATA, HOLE], [OLD]]) && Searchable(After(0))
    ensures var first := Walk([[DATA, HOLE], [OLD]], After(0), fuel, 0);
            var second := Walk([[DATA, HOLE], [OLD]], After(0), fuel, 1);
            && first.Some? && first.value.Get() == Some(DATA)
            && second.Some? && second.value.Get() == Some(HOLE)
            && Advance(ExtentOps(), second.value, fuel).Some?
            && OverlapsNext(ExtentOps(), second.value, fuel)
  {
    var layers := [[DATA, HOLE], [OLD]];
    assert LayersDisjoint(layers);
    FirstStep(fuel);
    SecondStep(fuel);
    var m := Merger(layers, [Cursor(None, [HOLE])], At(0));
    assert Walk(layers, After(0), fuel, 0) == Some(m.(cs := [Cursor(None, [DATA, HOLE])]));
    assert Walk(layers, After(0), fuel, 1) == Some(m);
    assert Rejoins(m) by { OldFound(); }
    OverlapsExactly(layers, After(0), fuel, 1);
  }

  lemma {:induction false} FirstStep(fuel: nat)
    requires fuel > 0
    ensures Seek(ExtentOps(), [[DATA, HOLE], [OLD]], After(0), fuel) ==
            Some(Merger([[DATA, HOLE], [OLD]], [Cursor(None, [DATA, HOLE])], At(0)))
  {
    var ops, layers, cs := ExtentOps(), [[DATA, HOLE], [OLD]], [Cursor(None, [DATA, HOLE])];
    assert SeekLayer(ops, [DATA, HOLE], After(0)) == [DATA, HOLE];
    assert Lowest(ops, [], {}) == -1;
    assert cs[..0] == [] && Lowest(ops, cs, {}) == 0;
    assert !NeedsMore(ops, layers, cs, {}, Some(Range(0, 1)));
    assert Push(ops, layers, [] + cs, {}, Some(Range(0, 1)), After(0)) == cs;
    assert Push(ops, layers, [], {}, Some(Range(0, 1)), After(0)) == cs;
    OneLeft(cs, DATA, After(0), fuel);
  }

  /** With one iterator left, the search ends at its item. */
  lemma {:induction false} OneLeft(cs: Cursors<ExtentValue>, e: FileExtent, bound: Bound<Range>, fuel: nat)
    requires fuel > 0 && |cs| == 1 && cs[0].HasItem() && cs[0].Item() == e && !BeforeBound(e.key, bound)
    ensures AdvanceImpl(ExtentOps(), cs, bound, fuel) == Some((cs, At(0)))
  {
    var ops := ExtentOps();
    assert cs[..0] == [] && Lowest(ops, [], {}) == -1 && Lowest(ops, [], {0}) == -1;
    assert Lowest(ops, cs, {}) == 0 && Lowest(ops, cs, {0}) == -1;
    assert InnerStep(ops, cs) == (cs, At(0), true);
    assert Inner(ops, cs, fuel) == Some((cs, At(0)));
  }

  lemma {:induction false} SecondStep(fuel: nat)
    requires fuel > 0
    ensures var m := Merger([[DATA, HOLE], [OLD]], [Cursor(None, [DATA, HOLE])], At(0));
            Advance(ExtentOps(), m, fuel) == Some(m.(cs := [Cursor(None, [HOLE])]))
  {
    var ops, layers, cs := ExtentOps(), [[DATA, HOLE], [OLD]], [Cursor(None, [DATA, HOLE])];
    var m := Merger(layers, cs, At(0));
    assert NextSearch(ops, m) == (Some(Range(5, 6)), After(5));
    assert cs[..0] == [] && Lowest(ops, [], {0}) == -1 && Lowest(ops, cs, {0}) == -1;
    assert [DATA, HOLE][1..] == [HOLE];
    assert Prepare(ops, m) == [Cursor(None, [HOLE])];
    OneLeft([Cursor(None, [HOLE])], HOLE, After(5), fuel);
  }

  lemma OldFound()
    ensures SeekLayer(PlacedOps(), [OLD], After(10)) == [OLD]
    ensures !StartsAt(Consume([Cursor(None, [HOLE])], At(0)), 10)
  {
    assert [HOLE][1..] == [];
  }
}
