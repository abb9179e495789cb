/** Lazy merging of range keys (src/lsm_tree/merge.rs, `next_key` in src/lsm_tree/types.rs): layers are
    consulted only when they are needed, and an item that was already returned is put back to be merged
    with what they have.  For every merge function whose passes are sound, reading what seeking and
    advancing returns, in order, gives every byte from the bound on the value of the newest layer that
    mentions it. */
module LazyRanges {
  import opened LsmTypes
  import opened Merge
  import opened RangeLayers

  /** An item that starts here. */
  ghost predicate StartsAt<V>(cs: Cursors<V>, x: nat)
  {
    exists i :: 0 <= i < |cs| && cs[i].HasItem() && cs[i].Item().key.start == x
  }

  /** A pass keeps what the layers say; what it emits by itself is followed by the item it was cut at. */
  ghost predicate PassSound<V>(ops: Ops<Range, V>, cs: Cursors<V>)
  {
    var (cs', current, done) := InnerStep(ops, cs);
    && StepOk(cs, CurrentItem(cs', current), Consume(cs', current))
    && (current.At? ==> cs' == cs)
    && (current.Emitted? ==> StartsAt(cs', current.item.key.end))
  }

  /** Range keys: searched for by their ends, merged by their starts, and followed by `end..end + 1` if
      the key type says so (src/lsm_tree/types.rs:161-186). */
  ghost predicate RangeKeys<V>(ops: Ops<Range, V>)
  {
    && (forall k, bound :: ops.before(k, bound) == BeforeBound(k, bound))
    && (forall a, b :: if ops.less(a, b) then a.start <= b.start else b.start <= a.start)
    && (forall k :: ops.nextKey(k) == None || ops.nextKey(k) == Some(Range(k.end, k.end + 1)))
  }

  ghost predicate Ranged<V(!new)>(ops: Ops<Range, V>)
  {
    && RangeKeys(ops)
    && (forall cs :: AllDisjoint(cs) && Lowest(ops, cs, {}) != -1 ==> PassSound(ops, cs))
  }

  // ---- Views of several layers ----

  lemma {:induction false} ViewConcat<V>(a: Cursors<V>, c: Cursors<V>, b: nat)
    ensures View(a + c, b) == if View(a, b).Some? then View(a, b) else View(c, b)
    decreases |a|
  {
    hide ValueAt;
    if a == [] {
      assert a + c == c;
    } else {
      assert (a + c)[1..] == a[1..] + c;
      ViewConcat(a[1..], c, b);
    }
  }

  lemma {:induction false} ViewSome<V>(cs: Cursors<V>, i: nat, b: nat)
    requires i < |cs| && ValueAt(cs[i].Items(), b).Some?
    ensures View(cs, b).Some?
    decreases |cs|
  {
    hide ValueAt;
    if i > 0 && ValueAt(cs[0].Items(), b).None? { ViewSome(cs[1..], i - 1, b); }
  }

  /** The first item of an iterator covers a byte between its start and its end. */
  lemma HeadCovers<V>(cs: Cursors<V>, i: nat, b: nat)
    requires i < |cs| && cs[i].HasItem() && cs[i].Item().key.start <= b < cs[i].Item().key.end
    ensures View(cs, b).Some?
  {
    hide View, Cursor.Items;
    assert cs[i].Items()[0] == cs[i].Item();
    ViewSome(cs, i, b);
  }

  lemma ViewNoneBelow<V>(cs: Cursors<V>, x: int, b: nat)
    requires AllFrom(cs, x) && b < x
    ensures View(cs, b) == None
  {
    hide ValueAt;
    forall j | 0 <= j < |cs| ensures ValueAt(cs[j].Items(), b) == None { AtBelow(cs[j].Items(), x, b); }
    ViewNone(cs, b);
  }

  lemma {:induction false} SizeConcat<V>(a: Cursors<V>, b: Cursors<V>)
    ensures TotalSize(a + b) == TotalSize(a) + TotalSize(b)
    decreases |a|
  {
    hide Size;
    if a == [] {
      assert a + b == b;
    } else {
      assert (a + b)[1..] == a[1..] + b;
      SizeConcat(a[1..], b);
    }
  }

  lemma {:induction false} SizeMono<V>(a: Cursors<V>, b: Cursors<V>)
    requires |a| == |b| && forall i :: 0 <= i < |a| ==> Size(a[i].Items()) <= Size(b[i].Items())
    ensures TotalSize(a) <= TotalSize(b)
    decreases |a|
  {
    hide Size;
    if a != [] { SizeMono(a[1..], b[1..]); }
  }

  // ---- The heap ----

  lemma {:induction false} LowestStart<V>(ops: Ops<Range, V>, cs: Cursors<V>, out: set<nat>)
    requires RangeKeys(ops)
    ensures var l := Lowest(ops, cs, out);
            forall j :: 0 <= j < |cs| && j !in out && cs[j].HasItem() ==>
              l >= 0 && cs[l].Item().key.start <= cs[j].Item().key.start
    decreases |cs|
  {
    if cs != [] {
      var i := |cs| - 1;
      LowestStart(ops, cs[..i], out);
      var l, r := Lowest(ops, cs, out), Lowest(ops, cs[..i], out);
      forall j | 0 <= j < |cs| && j !in out && cs[j].HasItem()
        ensures l >= 0 && cs[l].Item().key.start <= cs[j].Item().key.start
      {
        if j < i { assert cs[..i][j] == cs[j]; }
        assert r >= 0 ==> cs[..i][r] == cs[r];
      }
    }
  }

  // ---- The next item that ends after `t` ----

  /** What must be found among the iterators: all bytes from `t` on keep their value, first the ones of
      the item and then those that are left, which come after it. */
  ghost predicate Found<V>(cs: Cursors<V>, t: nat, cs': Cursors<V>, current: Current<Range, V>)
  {
    && |cs'| == |cs| && AllDisjoint(cs') && TotalSize(cs') <= TotalSize(cs)
    && (current.At? ==> current.layer < |cs'| && cs'[current.layer].HasItem())
    && match CurrentItem(cs', current)
       case None => forall b: nat :: b >= t ==> View(cs, b) == None
       case Some(e) =>
         var rest := Consume(cs', current);
         && e.key.start < e.key.end && e.key.end > t
         && AllDisjoint(rest) && AllFrom(rest, e.key.end) && TotalSize(rest) < TotalSize(cs)
         && (current.Emitted? ==> StartsAt(cs', e.key.end))
         && (forall x :: AllFrom(cs, x) ==> x <= e.key.start)
         && (forall b: nat :: b >= t ==> View(cs, b) == if Covers(e, b) then Some(e.value) else View(rest, b))
  }

  /** A pass that emits nothing. */
  lemma FoundAfter<V>(cs: Cursors<V>, cs1: Cursors<V>, t: nat, cs': Cursors<V>, current: Current<Range, V>)
    requires StepOk(cs, None, cs1) && Found(cs1, t, cs', current)
    ensures Found(cs, t, cs', current)
  {
    hide View, TotalSize, AllFrom, AllDisjoint, Consume, CurrentItem;
  }

  /** A pass that ends the loop. */
  lemma FoundNow<V>(cs: Cursors<V>, cs': Cursors<V>, current: Current<Range, V>)
    requires current.At? ==> current.layer < |cs'| && cs'[current.layer].HasItem()
    requires AllDisjoint(cs) && !current.Nothing? && |cs'| == |cs| && (current.At? ==> cs' == cs)
    requires current.Emitted? ==> StartsAt(cs', current.item.key.end)
    requires StepOk(cs, CurrentItem(cs', current), Consume(cs', current))
    ensures Found(cs, 0, cs', current)
  {
    hide View, TotalSize, AllFrom, AllDisjoint, StartsAt;
  }

  lemma NoneFound<V(!new)>(ops: Ops<Range, V>, cs: Cursors<V>)
    requires Ranged(ops) && Lowest(ops, cs, {}) == -1 && AllDisjoint(cs)
    ensures Found(cs, 0, cs, Nothing)
  {
    hide Lowest, ValueAt, View;
    LowestStart(ops, cs, {});
    forall b: nat ensures View(cs, b) == None {
      forall j | 0 <= j < |cs| ensures ValueAt(cs[j].Items(), b) == None { AtBelow(cs[j].Items(), b + 1, b); }
      ViewNone(cs, b);
    }
  }

  lemma Pass<V(!new)>(ops: Ops<Range, V>, cs: Cursors<V>)
    requires Ranged(ops) && AllDisjoint(cs) && Lowest(ops, cs, {}) != -1
    ensures PassSound(ops, cs)
  {
  }

  /** The inner loop. */
  lemma {:induction false} InnerFinds<V(!new)>(ops: Ops<Range, V>, cs: Cursors<V>, fuel: nat)
    requires Ranged(ops) && AllDisjoint(cs) && fuel > TotalSize(cs)
    ensures Inner(ops, cs, fuel).Some?
    ensures var (cs', current) := Inner(ops, cs, fuel).value; Found(cs, 0, cs', current)
    decreases fuel
  {
    hide Lowest, Ranged, Found, AllDisjoint, TotalSize, View, AllFrom, StartsAt, Consume, CurrentItem;
    var (cs', current, done) := InnerStep(ops, cs);
    if Lowest(ops, cs, {}) == -1 {
      NoneFound(ops, cs);
    } else {
      Pass(ops, cs);
      if done {
        assert !current.Nothing?;
        FoundNow(cs, cs', current);
      } else {
        assert current == Nothing && CurrentItem(cs', current) == None && Consume(cs', current) == cs' by {
          NothingConsumed(cs');
        }
        InnerFinds(ops, cs', fuel - 1);
        var (cs'', current') := Inner(ops, cs', fuel - 1).value;
        FoundAfter(cs, cs', 0, cs'', current');
      }
    }
  }

  lemma NothingConsumed<V>(cs: Cursors<V>)
    ensures CurrentItem(cs, Nothing) == None && Consume(cs, Nothing) == cs
  {
  }

  /** The bound leaves out exactly the keys that end by `t`; or nothing starts before `t` anyway. */
  ghost predicate Skips<V>(bound: Bound<Range>, t: nat, cs: Cursors<V>)
  {
    && (forall k: Range :: BeforeBound(k, bound) ==> k.end <= t)
    && ((forall k: Range :: k.end <= t ==> BeforeBound(k, bound)) || AllFrom(cs, t))
  }

  /** An item that ends by `t` is skipped. */
  lemma FoundAfterSkip<V>(cs: Cursors<V>, cs1: Cursors<V>, current1: Current<Range, V>, t: nat, cs': Cursors<V>,
                          current: Current<Range, V>)
    requires Found(cs, 0, cs1, current1) && !current1.Nothing? && CurrentItem(cs1, current1).value.key.end <= t
    requires Found(Consume(cs1, current1), t, cs', current)
    ensures Found(cs, t, cs', current)
  {
    hide View, TotalSize, AllDisjoint, StartsAt;
    var e, rest := CurrentItem(cs1, current1).value, Consume(cs1, current1);
    if !current.Nothing? {
      var e' := CurrentItem(cs', current).value;
      forall x | AllFrom(cs, x) ensures x <= e'.key.start { assert AllFrom(rest, e.key.end); }
    }
  }

  lemma FoundLater<V>(cs: Cursors<V>, t: nat, cs': Cursors<V>, current: Current<Range, V>)
    requires Found(cs, 0, cs', current)
    requires !current.Nothing? ==> CurrentItem(cs', current).value.key.end > t
    ensures Found(cs, t, cs', current)
  {
    hide View, TotalSize, AllDisjoint, AllFrom, StartsAt, Consume;
  }

  lemma SkipsRest<V>(cs: Cursors<V>, cs1: Cursors<V>, current1: Current<Range, V>, t: nat, bound: Bound<Range>)
    requires Found(cs, 0, cs1, current1) && !current1.Nothing? && Skips(bound, t, cs)
    ensures BeforeBound(CurrentItem(cs1, current1).value.key, bound) ==>
              CurrentItem(cs1, current1).value.key.end <= t && Skips(bound, t, Consume(cs1, current1))
    ensures !BeforeBound(CurrentItem(cs1, current1).value.key, bound) ==> CurrentItem(cs1, current1).value.key.end > t
  {
    hide View, TotalSize, AllDisjoint, StartsAt, Consume;
    var e := CurrentItem(cs1, current1).value;
    if AllFrom(cs, t) { assert t <= e.key.start; }
  }

  /** `advance_impl`. */
  lemma {:induction false} Finds<V(!new)>(ops: Ops<Range, V>, cs: Cursors<V>, bound: Bound<Range>, t: nat, fuel: nat)
    requires Ranged(ops) && AllDisjoint(cs) && fuel > TotalSize(cs) && Skips(bound, t, cs)
    ensures AdvanceImpl(ops, cs, bound, fuel).Some?
    ensures var (cs', current) := AdvanceImpl(ops, cs, bound, fuel).value; Found(cs, t, cs', current)
    decreases fuel
  {
    hide AllDisjoint, TotalSize, View, AllFrom, StartsAt, Inner, Skips, Lowest, PassSound;
    InnerFinds(ops, cs, fuel);
    var (cs1, current1) := Inner(ops, cs, fuel).value;
    if current1.Nothing? {
      FoundLater(cs, t, cs1, current1);
    } else {
      var e, rest := CurrentItem(cs1, current1).value, Consume(cs1, current1);
      SkipsRest(cs, cs1, current1, t, bound);
      if BeforeBound(e.key, bound) {
        Finds(ops, rest, bound, t, fuel - 1);
        var (cs', current) := AdvanceImpl(ops, rest, bound, fuel - 1).value;
        FoundAfterSkip(cs, cs1, current1, t, cs', current);
      } else {
        FoundLater(cs, t, cs1, current1);
      }
    }
  }

  // ---- Consulting layers ----

  ghost predicate LayersDisjoint<V>(layers: seq<Extents<V>>)
  {
    forall i :: 0 <= i < |layers| ==> Disjoint(layers[i])
  }

  /** What the layers together say about a byte. */
  ghost function LayerView<V>(layers: seq<Extents<V>>, b: nat): Option<V> { View(Opened(layers), b) }

  /** `seek` in one layer keeps the bytes from `t` on. */
  lemma {:induction false} SeekView<V(!new)>(ops: Ops<Range, V>, s: Extents<V>, bound: Bound<Range>, t: nat)
    requires Ranged(ops) && Disjoint(s) && forall k: Range :: BeforeBound(k, bound) ==> k.end <= t
    ensures var r := SeekLayer(ops, s, bound);
            && Disjoint(r) && Size(r) <= Size(s) && (r != [] ==> !BeforeBound(r[0].key, bound))
            && forall b: nat :: b >= t ==> ValueAt(r, b) == ValueAt(s, b)
    decreases |s|
  {
    hide PassSound, Lowest;
    if s != [] && BeforeBound(s[0].key, bound) {
      SeekView(ops, s[1..], bound, t);
      assert SeekLayer(ops, s, bound) == SeekLayer(ops, s[1..], bound);
    }
  }

  /** The iterators of layers consulted with a bound. */
  ghost predicate Sought<V>(ops: Ops<Range, V>, layers: seq<Extents<V>>, cs: Cursors<V>, cs': Cursors<V>,
                            bound: Bound<Range>)
  {
    && |cs| <= |cs'| <= |layers| && cs <= cs'
    && forall i :: |cs| <= i < |cs'| ==> cs'[i] == Cursor(None, SeekLayer(ops, layers[i], bound))
  }

  lemma PlainItems<V>(s: Extents<V>)
    ensures Cursor(None, s).Items() == s
  {
  }

  lemma SoughtItems<V(!new)>(ops: Ops<Range, V>, layers: seq<Extents<V>>, cs: Cursors<V>, cs': Cursors<V>,
                             bound: Bound<Range>, t: nat, i: nat)
    requires Ranged(ops) && LayersDisjoint(layers) && Sought(ops, layers, cs, cs', bound) && |cs| <= i < |cs'|
    requires forall k: Range :: BeforeBound(k, bound) ==> k.end <= t
    ensures Disjoint(cs'[i].Items()) && Size(cs'[i].Items()) <= Size(layers[i])
    ensures cs'[i].HasItem() ==> !BeforeBound(cs'[i].Item().key, bound)
    ensures forall b: nat :: b >= t ==> ValueAt(cs'[i].Items(), b) == ValueAt(layers[i], b)
  {
    hide ValueAt, Size, SeekLayer, Ranged;
    SeekView(ops, layers[i], bound, t);
    assert cs'[i].Items() == SeekLayer(ops, layers[i], bound);
  }

  /** Consulting layers keeps what can be said about the bytes from `t` on. */
  lemma SoughtView<V(!new)>(ops: Ops<Range, V>, layers: seq<Extents<V>>, cs: Cursors<V>, cs': Cursors<V>,
                            bound: Bound<Range>, t: nat)
    requires Ranged(ops) && LayersDisjoint(layers) && AllDisjoint(cs) && Sought(ops, layers, cs, cs', bound)
    requires forall k: Range :: BeforeBound(k, bound) ==> k.end <= t
    ensures AllDisjoint(cs')
    ensures TotalSize(cs' + Opened(layers[|cs'|..])) <= TotalSize(cs + Opened(layers[|cs|..]))
    ensures forall b: nat :: b >= t ==>
              View(cs' + Opened(layers[|cs'|..]), b) == View(cs + Opened(layers[|cs|..]), b)
  {
    hide ValueAt, Size, SeekLayer, Ranged, View, TotalSize, Disjoint, Cursor.Items;
    var a, c := cs' + Opened(layers[|cs'|..]), cs + Opened(layers[|cs|..]);
    forall i | |cs| <= i < |cs'|
      ensures Disjoint(cs'[i].Items()) && Size(cs'[i].Items()) <= Size(layers[i])
      ensures forall b: nat :: b >= t ==> ValueAt(cs'[i].Items(), b) == ValueAt(layers[i], b)
    {
      SoughtItems(ops, layers, cs, cs', bound, t, i);
    }
    assert |a| == |c| == |layers|;
    forall i | 0 <= i < |a|
      ensures Size(a[i].Items()) <= Size(c[i].Items())
      ensures forall b: nat :: b >= t ==> ValueAt(a[i].Items(), b) == ValueAt(c[i].Items(), b)
    {
      if i < |cs| {
        assert a[i] == c[i];
      } else if i < |cs'| {
        assert c[i] == Cursor(None, layers[i]);
        PlainItems(layers[i]);
      } else {
        assert a[i] == Cursor(None, layers[i]) == c[i];
      }
    }
    SizeMono(a, c);
    forall b: nat | b >= t ensures View(a, b) == View(c, b) { ViewSame(a, c, b); }
  }

  // ---- Between two calls ----

  /** All that has not been returned: the rest of the consulted layers and the pending ones. */
  ghost function Left<V>(m: Merger<Range, V>): Cursors<V>
    requires m.Ok()
  {
    Consume(m.cs, m.current) + Opened(m.layers[|m.cs|..])
  }

  /** The same with the current item. */
  ghost function Pool<V>(m: Merger<Range, V>): Cursors<V>
    requires m.Ok()
  {
    m.cs + Opened(m.layers[|m.cs|..])
  }

  /** What is left of the consulted layers comes after the current item, and decides with the pending
      layers about all bytes after it. */
  ghost predicate Between<V>(m: Merger<Range, V>)
  {
    && m.Ok() && LayersDisjoint(m.layers) && AllDisjoint(m.cs)
    && (m.Get().Some? ==>
          var end := m.Get().value.key.end;
          && AllDisjoint(Consume(m.cs, m.current)) && AllFrom(Consume(m.cs, m.current), end)
          && (m.current.Emitted? ==> StartsAt(m.cs, end))
          && forall b: nat :: b >= end ==> View(Left(m), b) == LayerView(m.layers, b))
  }

  /** The current item says what the layers say about all bytes from `t` to its end; without one they say
      nothing from `t` on. */
  ghost predicate Settled<V>(m: Merger<Range, V>, t: nat)
  {
    && Between(m)
    && match m.Get()
       case None => forall b: nat :: b >= t ==> LayerView(m.layers, b) == None
       case Some(e) =>
         && e.key.start < e.key.end && e.key.end > t
         && forall b: nat :: t <= b < e.key.end ==>
              LayerView(m.layers, b) == if e.key.start <= b then Some(e.value) else None
  }

  /** What is found among the consulted layers is right for all of them, if all are consulted or one of
      them has the byte `t`: then nothing lies between `t` and the item. */
  lemma {:induction false} Settles<V>(layers: seq<Extents<V>>, cs: Cursors<V>, t: nat, cs': Cursors<V>,
                                      current: Current<Range, V>)
    requires |cs| <= |layers| && LayersDisjoint(layers) && Found(cs, t, cs', current)
    requires forall b: nat :: b >= t ==> View(cs + Opened(layers[|cs|..]), b) == LayerView(layers, b)
    requires |cs| < |layers| ==> View(cs, t).Some?
    ensures Settled(Merger(layers, cs', current), t)
  {
    hide View, TotalSize, AllDisjoint, StartsAt, AllFrom, LayersDisjoint, Covers;
    var m, pending := Merger(layers, cs', current), Opened(layers[|cs|..]);
    forall b: nat ensures View(cs + pending, b) == if View(cs, b).Some? then View(cs, b) else View(pending, b) {
      ViewConcat(cs, pending, b);
    }
    if |cs| == |layers| { NonePending(layers); }
    if m.Get().Some? {
      var e, rest := m.Get().value, Consume(cs', current);
      forall b: nat | b >= e.key.end ensures View(Left(m), b) == LayerView(layers, b) {
        assert !Covers(e, b) by { NotCovered(e, b); }
        ViewConcat(rest, pending, b);
      }
      forall b: nat | t <= b < e.key.end
        ensures LayerView(layers, b) == if e.key.start <= b then Some(e.value) else None
      {
        assert Covers(e, b) <==> e.key.start <= b by { NotCovered(e, b); }
        assert Covers(e, t) <==> e.key.start <= t by { NotCovered(e, t); }
        ViewNoneBelow(rest, e.key.end, b);
        ViewNoneBelow(rest, e.key.end, t);
      }
    }
  }

  lemma NotCovered<V>(e: Item<Range, V>, b: nat)
    ensures Covers(e, b) <==> e.key.start <= b < e.key.end
  {
  }

  lemma NonePending<V>(layers: seq<Extents<V>>)
    ensures forall b: nat :: View(Opened(layers[|layers|..]), b) == None
  {
    assert layers[|layers|..] == [];
  }

  // ---- Seeking ----

  /** The first byte that matters to a search. */
  ghost function FirstByte(bound: Bound<Range>): nat
  {
    if bound.Included? && bound.key.end > 0 then bound.key.end - 1 else 0
  }

  /** Search keys are not empty. */
  ghost predicate Searchable(bound: Bound<Range>)
  {
    bound.Unbounded? || (bound.Included? && bound.key.start < bound.key.end)
  }

  /** The layers that `seek` consults. */
  ghost function SeekCursors<V>(ops: Ops<Range, V>, layers: seq<Extents<V>>, bound: Bound<Range>): (cs: Cursors<V>)
    ensures Sought(ops, layers, [], cs, bound)
    ensures !NeedsMore(ops, layers, cs, {}, if bound.Included? then Some(bound.key) else None)
  {
    Push(ops, layers, [], {}, if bound.Included? then Some(bound.key) else None, bound)
  }

  /** They are all of them, or one has the first byte. */
  lemma SeekCovers<V(!new)>(ops: Ops<Range, V>, layers: seq<Extents<V>>, bound: Bound<Range>)
    requires Ranged(ops) && LayersDisjoint(layers) && Searchable(bound)
    ensures var cs := SeekCursors(ops, layers, bound); |cs| < |layers| ==> View(cs, FirstByte(bound)).Some?
  {
    hide View, PassSound, Cursor.Items, Push, Lowest;
    var cs, t := SeekCursors(ops, layers, bound), FirstByte(bound);
    if |cs| < |layers| {
      var l := Lowest(ops, cs, {});
      assert cs[l].Item().key.start <= bound.key.start;
      SoughtItems(ops, layers, [], cs, bound, t, l);
      HeadCovers(cs, l, t);
    }
  }

  /** And they say, with the others, what all layers say from the first byte on. */
  lemma SeekViews<V(!new)>(ops: Ops<Range, V>, layers: seq<Extents<V>>, bound: Bound<Range>)
    requires Ranged(ops) && LayersDisjoint(layers) && Searchable(bound)
    ensures var cs, t := SeekCursors(ops, layers, bound), FirstByte(bound);
            && AllDisjoint(cs) && Skips(bound, t, cs)
            && TotalSize(cs) + TotalSize(Opened(layers[|cs|..])) <= TotalSize(Opened(layers))
            && forall b: nat :: b >= t ==> View(cs + Opened(layers[|cs|..]), b) == LayerView(layers, b)
  {
    hide View, TotalSize, Ranged, Cursor.Items, AllFrom, SeekCursors, LayersDisjoint;
    var cs, t := SeekCursors(ops, layers, bound), FirstByte(bound);
    SoughtView(ops, layers, [], cs, bound, t);
    assert layers[0..] == layers && [] + Opened(layers) == Opened(layers);
    SizeConcat(cs, Opened(layers[|cs|..]));
    FromZero(cs);
  }

  lemma {:induction false} SeekSettles<V(!new)>(ops: Ops<Range, V>, layers: seq<Extents<V>>, bound: Bound<Range>,
                                                fuel: nat)
    requires Ranged(ops) && LayersDisjoint(layers) && Searchable(bound) && fuel > TotalSize(Opened(layers))
    ensures Seek(ops, layers, bound, fuel).Some?
    ensures var m := Seek(ops, layers, bound, fuel).value;
            Settled(m, FirstByte(bound)) && TotalSize(Pool(m)) <= TotalSize(Opened(layers))
  {
    hide View, TotalSize, AdvanceImpl, Settled, Push, Ranged, Found, LayersDisjoint, Skips, FirstByte, LayerView;
    var cs, t := SeekCursors(ops, layers, bound), FirstByte(bound);
    SeekViews(ops, layers, bound);
    SeekCovers(ops, layers, bound);
    Finds(ops, cs, bound, t, fuel);
    var (cs', current) := AdvanceImpl(ops, cs, bound, fuel).value;
    FoundSize(cs, t, cs', current);
    SizeConcat(cs', Opened(layers[|cs|..]));
    Settles(layers, cs, t, cs', current);
  }

  lemma FromZero<V>(cs: Cursors<V>)
    ensures AllFrom(cs, 0)
  {
  }

  lemma FoundSize<V>(cs: Cursors<V>, t: nat, cs': Cursors<V>, current: Current<Range, V>)
    requires Found(cs, t, cs', current)
    ensures |cs'| == |cs| && TotalSize(cs') <= TotalSize(cs)
  {
  }

  // ---- Advancing ----

  /** Where the next search starts. */
  lemma NextBound<V(!new)>(ops: Ops<Range, V>, m: Merger<Range, V>)
    requires Ranged(ops) && m.Ok() && m.Get().Some? && |m.cs| < |m.layers|
    ensures var (nextKey, bound) := NextSearch(ops, m);
            var t := m.Get().value.key.end;
            && (forall k: Range :: BeforeBound(k, bound) <==> k.end <= t)
            && (nextKey.Some? ==> nextKey.value.start == t)
  {
    hide PassSound, Lowest;
  }

  /** The iterators that the next search merges, and why nothing between the current item and the next
      one is missed. */
  ghost predicate Prepared<V>(ops: Ops<Range, V>, m: Merger<Range, V>)
    requires m.Ok() && m.Get().Some?
  {
    var cs, t := Prepare(ops, m), m.Get().value.key.end;
    && |cs| <= |m.layers| && AllDisjoint(cs)
    && TotalSize(cs + Opened(m.layers[|cs|..])) <= TotalSize(Pool(m))
    && (forall b: nat :: b >= t ==> View(cs + Opened(m.layers[|cs|..]), b) == LayerView(m.layers, b))
    && (|cs| < |m.layers| ==> View(cs, t).Some?)
    && Skips(NextSearch(ops, m).1, t, cs)
  }

  lemma ConsumeSize<V>(cs: Cursors<V>, current: Current<Range, V>)
    requires current.At? ==> current.layer < |cs| && cs[current.layer].HasItem()
    ensures TotalSize(Consume(cs, current)) <= TotalSize(cs)
  {
    hide TotalSize, Cursor.Items;
    if current.At? {
      var c := cs[current.layer];
      SizeUpdate(cs, current.layer, c.Advance());
      assert c.Items() == [c.Item()] + c.Items()[1..];
      SizeTail(c.Item(), c.Items()[1..]);
    }
  }

  lemma SizeTail<V>(x: Item<Range, V>, s: Extents<V>)
    ensures Size(s) <= Size([x] + s)
  {
    assert ([x] + s)[1..] == s;
  }

  /** No further layer is consulted: what is left of the consulted ones has the next byte, or there are no
      others. */
  lemma PreparedAsIs<V(!new)>(ops: Ops<Range, V>, m: Merger<Range, V>)
    requires Ranged(ops) && Between(m) && m.Get().Some? && Prepare(ops, m) == Consume(m.cs, m.current)
    requires |m.cs| < |m.layers| ==> StartsAt(Consume(m.cs, m.current), m.Get().value.key.end)
    ensures Prepared(ops, m)
  {
    hide View, TotalSize, Prepare, Lowest, PassSound, Ranged, Cursor.Items, AllFrom, Disjoint;
    var cs, t, pending := Consume(m.cs, m.current), m.Get().value.key.end, Opened(m.layers[|m.cs|..]);
    ConsumeSize(m.cs, m.current);
    SizeConcat(cs, pending);
    SizeConcat(m.cs, pending);
    if |m.cs| < |m.layers| {
      var i :| 0 <= i < |cs| && cs[i].HasItem() && cs[i].Item().key.start == t;
      assert Disjoint(cs[i].Items());
      HeadTail(cs[i]);
      HeadCovers(cs, i, t);
      NextBound(ops, m);
    }
  }

  /** The lowest iterator starts at the end of the current item, which nothing lies before. */
  lemma LowestStarts<V>(cs: Cursors<V>, i: nat, t: nat)
    requires AllFrom(cs, t) && i < |cs| && cs[i].HasItem() && cs[i].Item().key.start <= t
    ensures StartsAt(cs, t)
  {
    assert From(cs[i].Items(), t) && cs[i].Items()[0] == cs[i].Item();
  }

  lemma PutBackItems<V>(c: Cursor<Range, V>)
    requires c.HasItem()
    ensures Cursor(Some(c.Item()), c.Advance().rest).Items() == c.Items()
  {
  }

  /** The current item, put back. */
  ghost function PutBack<V>(cs: Cursors<V>, current: Current<Range, V>): Cursors<V>
    requires current.At? ==> current.layer < |cs| && cs[current.layer].HasItem()
  {
    if current.At? then
      var c := cs[current.layer];
      cs[current.layer := Cursor(Some(c.Item()), c.Advance().rest)]
    else cs
  }

  /** It says nothing about bytes after it. */
  lemma {:induction false} PutBackView<V>(cs: Cursors<V>, current: Current<Range, V>, t: nat)
    requires !current.Nothing? && AllDisjoint(cs)
    requires current.At? ==> current.layer < |cs| && cs[current.layer].HasItem()
    requires CurrentItem(cs, current).value.key.end <= t
    ensures AllDisjoint(PutBack(cs, current)) && TotalSize(PutBack(cs, current)) == TotalSize(cs)
    ensures forall b: nat :: b >= t ==> View(PutBack(cs, current), b) == View(Consume(cs, current), b)
  {
    hide View, TotalSize, ValueAt, Cursor.Items, Disjoint, Size;
    if current.At? {
      var l, back, rest := current.layer, PutBack(cs, current), Consume(cs, current);
      var c := cs[l];
      PutBackItems(c);
      SizeUpdate(cs, l, back[l]);
      assert c.Items() == [c.Item()] + c.Items()[1..];
      forall b: nat | b >= t ensures View(back, b) == View(rest, b) {
        AtCons(c.Item(), c.Items()[1..], b);
        ViewSame(back, rest, b);
      }
    }
  }

  /** Further layers are consulted, with the current item put back. */
  lemma PreparedPush<V(!new)>(ops: Ops<Range, V>, m: Merger<Range, V>, out: set<nat>)
    requires Ranged(ops) && Between(m) && m.Get().Some? && |m.cs| < |m.layers|
    requires out == if m.current.At? then {m.current.layer} else {}
    requires var (nextKey, bound) := NextSearch(ops, m);
             Prepare(ops, m) == Push(ops, m.layers, PutBack(m.cs, m.current), out, nextKey, bound)
    ensures Prepared(ops, m)
  {
    hide View, TotalSize, Prepare, Lowest, PassSound, Ranged, Cursor.Items, AllFrom, Disjoint, Push, NextSearch;
    hide StartsAt;
    var (nextKey, bound) := NextSearch(ops, m);
    var t, back, pending := m.Get().value.key.end, PutBack(m.cs, m.current), Opened(m.layers[|m.cs|..]);
    var cs := Push(ops, m.layers, back, out, nextKey, bound);
    NextBound(ops, m);
    PutBackView(m.cs, m.current, t);
    SoughtView(ops, m.layers, back, cs, bound, t);
    SizeConcat(back, pending);
    SizeConcat(m.cs, pending);
    forall b: nat | b >= t ensures View(back + pending, b) == LayerView(m.layers, b) {
      ViewConcat(back, pending, b);
      ViewConcat(Consume(m.cs, m.current), pending, b);
    }
    if |cs| < |m.layers| { PushCovers(ops, m, cs, out); }
  }

  /** The layer at which consulting stops has the next byte. */
  lemma PushCovers<V(!new)>(ops: Ops<Range, V>, m: Merger<Range, V>, cs: Cursors<V>, out: set<nat>)
    requires Ranged(ops) && Between(m) && m.Get().Some? && |m.cs| < |m.layers| && |cs| < |m.layers|
    requires out == if m.current.At? then {m.current.layer} else {}
    requires var (nextKey, bound) := NextSearch(ops, m);
             Sought(ops, m.layers, PutBack(m.cs, m.current), cs, bound) && !NeedsMore(ops, m.layers, cs, out, nextKey)
    ensures View(cs, m.Get().value.key.end).Some?
  {
    hide View, PassSound, Cursor.Items, Disjoint, SeekLayer, NextSearch;
    var (nextKey, bound) := NextSearch(ops, m);
    var t := m.Get().value.key.end;
    NextBound(ops, m);
    var j := Lowest(ops, cs, out);
    assert cs[j].Item().key.start <= t;
    if j < |m.cs| {
      var rest := Consume(m.cs, m.current);
      assert cs[j] == rest[j] && From(rest[j].Items(), t) && Disjoint(rest[j].Items());
      HeadTail(rest[j]);
    } else {
      SoughtItems(ops, m.layers, PutBack(m.cs, m.current), cs, bound, t, j);
    }
    HeadCovers(cs, j, t);
  }

  /** Whichever way `advance` takes. */
  lemma AdvancePrepares<V(!new)>(ops: Ops<Range, V>, m: Merger<Range, V>)
    requires Ranged(ops) && Between(m) && m.Get().Some?
    ensures Prepared(ops, m)
  {
    hide Prepared, Push, Cursor.Items, AllFrom, Disjoint, View, Lowest, PassSound, StartsAt;
    var rest, t := Consume(m.cs, m.current), m.Get().value.key.end;
    var (nextKey, bound) := NextSearch(ops, m);
    if |m.cs| == |m.layers| {
      PrepareAll(ops, m);
      PreparedAsIs(ops, m);
    } else if m.current.At? {
      NextBound(ops, m);
      var l := m.current.layer;
      var moved := m.cs[l].Advance();
      if !NeedsMore(ops, m.layers, m.cs, {l}, nextKey) {
        var j := Lowest(ops, m.cs, {l});
        assert rest[j] == m.cs[j] && rest[j].Item().key.start <= t;
        LowestStarts(rest, j, t);
        PreparedAsIs(ops, m);
      } else if nextKey.Some? && moved.HasItem() && !ops.less(nextKey.value, moved.Item().key) {
        assert rest[l] == moved && moved.Item().key.start <= t;
        LowestStarts(rest, l, t);
        PreparedAsIs(ops, m);
      } else {
        PreparedPush(ops, m, {l});
      }
    } else {
      PreparedPush(ops, m, {});
    }
  }

  /** `advance`: the next item says what the layers say from the end of the current one on. */
  lemma {:induction false} AdvanceSettles<V(!new)>(ops: Ops<Range, V>, m: Merger<Range, V>, fuel: nat)
    requires Ranged(ops) && Between(m) && m.Get().Some? && fuel > TotalSize(Pool(m))
    ensures Advance(ops, m, fuel).Some?
    ensures var m' := Advance(ops, m, fuel).value;
            Settled(m', m.Get().value.key.end) && TotalSize(Pool(m')) <= TotalSize(Pool(m))
  {
    hide View, TotalSize, AdvanceImpl, Settled, Ranged, Found, LayersDisjoint, Skips, LayerView, Prepare, NextSearch;
    AdvancePrepares(ops, m);
    var cs, t, bound := Prepare(ops, m), m.Get().value.key.end, NextSearch(ops, m).1;
    SizeConcat(cs, Opened(m.layers[|cs|..]));
    Finds(ops, cs, bound, t, fuel);
    var (cs', current) := AdvanceImpl(ops, cs, bound, fuel).value;
    FoundSize(cs, t, cs', current);
    SizeConcat(cs', Opened(m.layers[|cs|..]));
    Settles(m.layers, cs, t, cs', current);
  }

  // ---- The whole iteration ----

  /** What a caller that reads items in order learns about a byte: the first item that ends after it
      decides, whether or not it starts before it. */
  ghost function ReadAt<V>(s: Extents<V>, b: nat): Option<V>
  {
    if s == [] then None
    else if b < s[0].key.end then (if s[0].key.start <= b then Some(s[0].value) else None)
    else ReadAt(s[1..], b)
  }

  /** The items are not empty and end one after the other, after `t`. */
  ghost predicate Ending<V>(s: Extents<V>, t: nat)
  {
    && (forall p :: 0 <= p < |s| ==> s[p].key.start < s[p].key.end && s[p].key.end > t)
    && (forall p, q :: 0 <= p < q < |s| ==> s[p].key.end < s[q].key.end)
  }

  /** If they do not overlap, that is what they say. */
  lemma {:induction false} ReadDisjoint<V>(s: Extents<V>, b: nat)
    requires Disjoint(s)
    ensures ReadAt(s, b) == ValueAt(s, b)
    decreases |s|
  {
    if s != [] {
      ReadDisjoint(s[1..], b);
      if b < s[0].key.end && !Covers(s[0], b) { AtBelow(s[1..], s[0].key.end, b); }
    }
  }

  /** No layer says anything from here on. */
  ghost predicate Within<V>(layers: seq<Extents<V>>, limit: nat)
  {
    forall b: nat :: LayerView(layers, b).Some? ==> b < limit
  }

  lemma {:induction false} CollectsAll<V(!new)>(ops: Ops<Range, V>, m: Merger<Range, V>, t: nat, fuel: nat, steps: nat,
                                                limit: nat)
    requires Ranged(ops) && Settled(m, t) && fuel > TotalSize(Pool(m)) && Within(m.layers, limit)
    requires steps + t >= limit
    ensures Collect(ops, m, fuel, steps).Some?
    ensures var out := Collect(ops, m, fuel, steps).value;
            Ending(out, t) && forall b: nat :: b >= t ==> ReadAt(out, b) == LayerView(m.layers, b)
    decreases steps
  {
    hide Ranged, TotalSize, Advance, AllFrom, AllDisjoint, StartsAt, View, LayersDisjoint;
    match m.Get()
    case None =>
    case Some(e) =>
      assert LayerView(m.layers, e.key.end - 1).Some?;
      AdvanceSettles(ops, m, fuel);
      var m' := Advance(ops, m, fuel).value;
      CollectsAll(ops, m', e.key.end, fuel, steps - 1, limit);
      var rest := Collect(ops, m', fuel, steps - 1).value;
      ReadCons(e, rest, t, m.layers);
  }

  lemma ReadCons<V>(e: Item<Range, V>, rest: Extents<V>, t: nat, layers: seq<Extents<V>>)
    requires e.key.start < e.key.end && e.key.end > t && Ending(rest, e.key.end)
    requires forall b: nat :: b >= e.key.end ==> ReadAt(rest, b) == LayerView(layers, b)
    requires forall b: nat :: t <= b < e.key.end ==>
               LayerView(layers, b) == if e.key.start <= b then Some(e.value) else None
    ensures Ending([e] + rest, t)
    ensures forall b: nat :: b >= t ==> ReadAt([e] + rest, b) == LayerView(layers, b)
  {
    hide LayerView;
    assert ([e] + rest)[1..] == rest;
  }

  /** Seeking to a bound and advancing to the end terminates, and what is returned, read in order, gives
      each byte from the bound on the value of the newest layer that mentions it. */
  lemma {:induction false} LazyIsFull<V(!new)>(ops: Ops<Range, V>, layers: seq<Extents<V>>, bound: Bound<Range>,
                                               fuel: nat, limit: nat)
    requires Ranged(ops) && LayersDisjoint(layers) && Searchable(bound)
    requires fuel > TotalSize(Opened(layers)) && Within(layers, limit)
    ensures Seek(ops, layers, bound, fuel).Some?
    ensures Collect(ops, Seek(ops, layers, bound, fuel).value, fuel, limit).Some?
    ensures var out := Collect(ops, Seek(ops, layers, bound, fuel).value, fuel, limit).value;
            && Ending(out, FirstByte(bound))
            && forall b: nat :: b >= FirstByte(bound) ==> ReadAt(out, b) == LayerView(layers, b)
  {
    hide Ranged, TotalSize, Seek, Settled, LayersDisjoint, Within, LayerView, Ending, ReadAt;
    SeekSettles(ops, layers, bound, fuel);
    CollectsAll(ops, Seek(ops, layers, bound, fuel).value, FirstByte(bound), fuel, limit, limit);
  }

  // ---- When all layers have been consulted ----

  /** Then nothing is put back, and what follows starts after the current item. */
  lemma AdvanceAfterAll<V(!new)>(ops: Ops<Range, V>, m: Merger<Range, V>, fuel: nat)
    requires Ranged(ops) && Between(m) && m.Get().Some? && fuel > TotalSize(Pool(m)) && |m.cs| == |m.layers|
    ensures Advance(ops, m, fuel).Some?
    ensures var m' := Advance(ops, m, fuel).value;
            |m'.cs| == |m'.layers| && (m'.Get().Some? ==> m'.Get().value.key.start >= m.Get().value.key.end)
  {
    hide View, TotalSize, AdvanceImpl, Ranged, LayersDisjoint, LayerView, Prepare, NextSearch;
    AdvancePrepares(ops, m);
    PrepareAll(ops, m);
    var cs, t, bound := Prepare(ops, m), m.Get().value.key.end, NextSearch(ops, m).1;
    SizeConcat(cs, Opened(m.layers[|cs|..]));
    Finds(ops, cs, bound, t, fuel);
  }

  lemma {:induction false} CollectsDisjoint<V(!new)>(ops: Ops<Range, V>, m: Merger<Range, V>, t: nat, fuel: nat,
                                                     steps: nat)
    requires Ranged(ops) && Settled(m, t) && fuel > TotalSize(Pool(m)) && |m.cs| == |m.layers|
    requires Collect(ops, m, fuel, steps).Some?
    ensures var out := Collect(ops, m, fuel, steps).value;
            Disjoint(out) && (out != [] ==> m.Get() == Some(out[0]) && From(out, out[0].key.start))
    decreases steps
  {
    hide Ranged, TotalSize, Advance, AllFrom, AllDisjoint, StartsAt, View, LayersDisjoint;
    match m.Get()
    case None =>
    case Some(e) =>
      AdvanceSettles(ops, m, fuel);
      AdvanceAfterAll(ops, m, fuel);
      var m' := Advance(ops, m, fuel).value;
      CollectsDisjoint(ops, m', e.key.end, fuel, steps - 1);
      var rest := Collect(ops, m', fuel, steps - 1).value;
      DisjointCons(e, rest);
  }

  /** If `seek` consults all layers, as it does without a bound, the items that follow do not overlap. */
  lemma {:induction false} FullIsDisjoint<V(!new)>(ops: Ops<Range, V>, layers: seq<Extents<V>>, bound: Bound<Range>,
                                                   fuel: nat, limit: nat)
    requires Ranged(ops) && LayersDisjoint(layers) && Searchable(bound)
    requires fuel > TotalSize(Opened(layers)) && Within(layers, limit)
    requires |SeekCursors(ops, layers, bound)| == |layers|
    ensures Seek(ops, layers, bound, fuel).Some?
    ensures Collect(ops, Seek(ops, layers, bound, fuel).value, fuel, limit).Some?
    ensures var out := Collect(ops, Seek(ops, layers, bound, fuel).value, fuel, limit).value;
            Disjoint(out) && forall b: nat :: b >= FirstByte(bound) ==> ValueAt(out, b) == LayerView(layers, b)
  {
    hide Ranged, TotalSize, Settled, LayersDisjoint, Within, LayerView, Ending, ReadAt, ValueAt, Disjoint, AdvanceImpl;
    hide Push;
    LazyIsFull(ops, layers, bound, fuel, limit);
    SeekSettles(ops, layers, bound, fuel);
    var m := Seek(ops, layers, bound, fuel).value;
    assert |m.cs| == |layers|;
    CollectsDisjoint(ops, m, FirstByte(bound), fuel, limit);
    var out := Collect(ops, m, fuel, limit).value;
    forall b: nat | b >= FirstByte(bound) ensures ValueAt(out, b) == LayerView(layers, b) { ReadDisjoint(out, b); }
  }

  lemma UnboundedConsultsAll<V>(ops: Ops<Range, V>, layers: seq<Extents<V>>)
    ensures |SeekCursors(ops, layers, Unbounded)| == |layers|
  {
    hide Push;
  }
}
