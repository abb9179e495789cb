/** Lazy merging of point keys (src/lsm_tree/merge.rs): although layers are consulted only when
    they are needed, seeking to a key and advancing yields the full newest-wins merge from there. */
module LazyMerge {
  import opened LsmTypes
  import opened Merge

  type Layer<V> = seq<Item<int, V>>
  type Cursors<V> = seq<Cursor<int, V>>

  /** Equal keys: the newer item (which the merger puts on the left) hides the older one
      (src/object_store/merge.rs, the case of identical keys). */
  function NewestWins<V>(left: Item<int, V>, leftLayer: nat, right: Item<int, V>, rightLayer: nat): MergeResult<int, V>
  {
    if left.key == right.key then Other(None, Keep, Discard) else EmitLeft
  }

  /** Point keys with the default `next_key`. */
  function PointOps<V>(): Ops<int, V>
  {
    Ops((a: int, b: int) => a < b, Before, (k: int) => None, NewestWins)
  }

  /** The item of the newest layer that has the key. */
  ghost function Newest<V>(layers: seq<Layer<V>>, key: int): Option<Item<int, V>>
  {
    if layers == [] then None
    else if Lookup(layers[0], key).Some? then Lookup(layers[0], key)
    else Newest(layers[1..], key)
  }

  ghost function Lists<V>(cs: Cursors<V>): (r: seq<Layer<V>>)
    ensures |r| == |cs| && forall i :: 0 <= i < |cs| ==> r[i] == cs[i].Items()
  {
    seq(|cs|, i requires 0 <= i < |cs| => cs[i].Items())
  }

  ghost predicate AllSorted<V>(layers: seq<Layer<V>>) { forall i :: 0 <= i < |layers| ==> Sorted(layers[i]) }

  ghost function Total<V>(layers: seq<Layer<V>>): nat
  {
    if layers == [] then 0 else |layers[0]| + Total(layers[1..])
  }

  lemma {:induction false} TotalUpdate<V>(layers: seq<Layer<V>>, i: nat, s: Layer<V>)
    requires i < |layers|
    ensures Total(layers[i := s]) == Total(layers) - |layers[i]| + |s|
    decreases |layers|
  {
    if i > 0 {
      assert layers[i := s][1..] == layers[1..][i - 1 := s];
      TotalUpdate(layers[1..], i - 1, s);
    } else {
      assert layers[0 := s][1..] == layers[1..];
    }
  }

  lemma {:induction false} NewestSame<V>(a: seq<Layer<V>>, b: seq<Layer<V>>, key: int)
    requires |a| == |b| && forall i :: 0 <= i < |a| ==> Lookup(a[i], key) == Lookup(b[i], key)
    ensures Newest(a, key) == Newest(b, key)
    decreases |a|
  {
    if a != [] {
      assert Lookup(a[0], key) == Lookup(b[0], key);
      NewestSame(a[1..], b[1..], key);
    }
  }

  lemma {:induction false} NewestIs<V>(layers: seq<Layer<V>>, key: int, i: nat)
    requires i < |layers| && Lookup(layers[i], key).Some?
    requires forall j :: 0 <= j < i ==> Lookup(layers[j], key) == None
    ensures Newest(layers, key) == Lookup(layers[i], key)
    decreases |layers|
  {
    if i > 0 {
      assert Lookup(layers[0], key) == None;
      NewestIs(layers[1..], key, i - 1);
    }
  }

  lemma {:induction false} NewestNone<V>(layers: seq<Layer<V>>, key: int)
    requires forall j :: 0 <= j < |layers| ==> Lookup(layers[j], key) == None
    ensures Newest(layers, key) == None
    decreases |layers|
  {
    if layers != [] {
      assert Lookup(layers[0], key) == None;
      NewestNone(layers[1..], key);
    }
  }

  lemma {:induction false} NewestConcat<V>(a: seq<Layer<V>>, b: seq<Layer<V>>, key: int)
    ensures Newest(a + b, key) == if Newest(a, key).Some? then Newest(a, key) else Newest(b, key)
    decreases |a|
  {
    if a == [] {
      assert a + b == b;
    } else {
      assert (a + b)[1..] == a[1..] + b;
      NewestConcat(a[1..], b, key);
    }
  }

  // ---- One item ----

  /** The order of the heap. */
  predicate Precedes<V>(cs: Cursors<V>, i: nat, j: nat)
    requires i < |cs| && j < |cs| && cs[i].HasItem() && cs[j].HasItem()
  {
    cs[i].Item().key < cs[j].Item().key || (cs[i].Item().key == cs[j].Item().key && i < j)
  }

  lemma {:induction false} LowestIsMin<V>(cs: Cursors<V>, out: set<nat>)
    ensures var l := Lowest(PointOps(), cs, out);
            forall j :: 0 <= j < |cs| && j !in out && cs[j].HasItem() && j != l ==> l >= 0 && Precedes(cs, l, j)
    ensures Lowest(PointOps(), cs, out) == -1 ==> forall j :: 0 <= j < |cs| && j !in out ==> !cs[j].HasItem()
    decreases |cs|
  {
    if cs != [] {
      var i := |cs| - 1;
      LowestIsMin(cs[..i], out);
      var l := Lowest(PointOps(), cs, out);
      forall j | 0 <= j < |cs| && j !in out && cs[j].HasItem() ensures l >= 0 && (j != l ==> Precedes(cs, l, j)) {
        if j < i { assert cs[..i][j] == cs[j]; }
      }
    }
  }

  lemma LowestIs<V>(cs: Cursors<V>, out: set<nat>, l: nat)
    requires l < |cs| && l !in out && cs[l].HasItem()
    requires forall j :: 0 <= j < |cs| && j !in out && cs[j].HasItem() && j != l ==> Precedes(cs, l, j)
    ensures Lowest(PointOps(), cs, out) == l
  {
    LowestIsMin(cs, out);
  }

  /** All other iterators have moved past the key of iterator `l`. */
  ghost predicate Dropped<V>(cs: Cursors<V>, cs': Cursors<V>, l: nat)
    requires l < |cs| && cs[l].HasItem()
  {
    && |cs'| == |cs| && cs'[l] == cs[l]
    && forall i :: 0 <= i < |cs| && i != l ==>
         cs'[i].Items() == if cs[i].HasItem() &&
             cs[i].Item().key == cs[l].Item().key then cs[i].Items()[1..] else cs[i].Items()
  }

  ghost function Equals<V>(cs: Cursors<V>, l: nat): set<nat>
    requires l < |cs| && cs[l].HasItem()
  {
    set i: nat | i < |cs| && i != l && cs[i].HasItem() && cs[i].Item().key == cs[l].Item().key
  }

  /** The inner loop discards the older items with the lowest key and stops at the newest. */
  lemma {:induction false} InnerFinds<V>(cs: Cursors<V>, l: nat, fuel: nat)
    requires AllSorted(Lists(cs)) && l == Lowest(PointOps(), cs, {}) && fuel > |Equals(cs, l)|
    ensures Inner(PointOps(), cs, fuel).Some?
    ensures var (cs', current) := Inner(PointOps(), cs, fuel).value; current == At(l) && Dropped(cs, cs', l)
    decreases |Equals(cs, l)|
  {
    hide Lowest, Cursor.Items, Dropped, InnerStep;
    LowestIsMin(cs, {});
    var s := Lowest(PointOps<V>(), cs, {l});
    if s != -1 && cs[s].Item().key == cs[l].Item().key {
      var cs1 := cs[s := cs[s].Advance()];
      StepDiscards(cs, l, s);
      AfterDiscard(cs, l, s);
      InnerFinds(cs1, l, fuel - 1);
      DroppedMore(cs, l, s, Inner(PointOps(), cs1, fuel - 1).value.0);
    } else {
      StepStops(cs, l, s);
    }
  }

  lemma StepDiscards<V>(cs: Cursors<V>, l: nat, s: nat)
    requires l == Lowest(PointOps(), cs, {}) && s == Lowest(PointOps(), cs, {l})
    requires cs[s].Item().key == cs[l].Item().key
    ensures InnerStep(PointOps(), cs) == (cs[s := cs[s].Advance()], Nothing, false)
  {
    hide Lowest;
    assert cs[l := cs[l].Apply(Keep)] == cs;
  }

  lemma StepStops<V>(cs: Cursors<V>, l: nat, s: int)
    requires l == Lowest(PointOps(), cs, {}) && s == Lowest(PointOps(), cs, {l})
    requires s == -1 || cs[s].Item().key != cs[l].Item().key
    ensures InnerStep(PointOps(), cs) == (cs, At(l), true) && Dropped(cs, cs, l)
  {
    hide Lowest;
    LowestIsMin(cs, {});
    LowestIsMin(cs, {l});
    forall i | 0 <= i < |cs| && i != l && cs[i].HasItem() ensures cs[i].Item().key != cs[l].Item().key {
      if i != s { assert Precedes(cs, s, i); }
    }
  }

  lemma DroppedMore<V>(cs: Cursors<V>, l: nat, s: nat, cs': Cursors<V>)
    requires l < |cs| && s < |cs| && l != s && cs[l].HasItem() && cs[s].HasItem()
    requires cs[s].Item().key == cs[l].Item().key
    requires var cs1 := cs[s := cs[s].Advance()];
             Dropped(cs1, cs', l) && (cs1[s].HasItem() ==> cs1[s].Item().key > cs[l].Item().key)
    ensures Dropped(cs, cs', l)
  {
    hide Cursor.Items;
  }

  lemma AfterDiscard<V>(cs: Cursors<V>, l: nat, s: nat)
    requires AllSorted(Lists(cs)) && l < |cs| && s < |cs| && l != s && cs[l].HasItem() && cs[s].HasItem()
    requires forall j :: 0 <= j < |cs| && cs[j].HasItem() && j != l ==> Precedes(cs, l, j)
    requires cs[s].Item().key == cs[l].Item().key
    ensures var cs1 := cs[s := cs[s].Advance()];
            && AllSorted(Lists(cs1)) && l == Lowest(PointOps(), cs1, {})
            && Equals(cs1, l) == Equals(cs, l) - {s} && s in Equals(cs, l)
            && (cs1[s].HasItem() ==> cs1[s].Item().key > cs[l].Item().key)
  {
    hide Cursor.Items;
    var cs1 := cs[s := cs[s].Advance()];
    assert cs1[s].Items() == cs[s].Items()[1..];
    var was := Lists(cs)[s];
    assert Sorted(was);
    if cs1[s].HasItem() { assert was[0].key < was[1].key; }
    forall i | 0 <= i < |cs1| ensures Sorted(Lists(cs1)[i]) {
      if i != s { assert Lists(cs1)[i] == Lists(cs)[i]; }
    }
    LowestIs(cs1, {}, l);
  }

  // ---- The next item not before a bound ----

  /** What `advance_impl` must find: the newest item with the lowest key not before the bound. */
  ghost predicate Found<V>(cs: Cursors<V>, bound: Bound<int>, cs': Cursors<V>, current: Current<int, V>)
  {
    && |cs'| == |cs| && AllSorted(Lists(cs')) && Total(Lists(cs')) <= Total(Lists(cs))
    && match current
       case Emitted(_) => false
       case Nothing => forall key :: !Before(key, bound) ==> Newest(Lists(cs), key) == None
       case At(l) =>
         && l < |cs'| && cs'[l].HasItem()
         && var item := cs'[l].Item();
            && !Before(item.key, bound)
            && Newest(Lists(cs), item.key) == Some(item)
            && (forall key :: !Before(key, bound) && key < item.key ==> Newest(Lists(cs), key) == None)
            && (forall key :: key > item.key ==> Newest(Lists(cs'), key) == Newest(Lists(cs), key))
            && (forall i, p :: 0 <= i < |cs'| && 0 <= p < |cs'[i].Items()| && (i != l || p > 0) ==>
                cs'[i].Items()[p].key > item.key)
  }

  /** What the inner loop leaves behind, in terms of lookups. */
  lemma DroppedLookups<V>(cs: Cursors<V>, cs': Cursors<V>, l: nat)
    requires AllSorted(Lists(cs)) && l < |cs| && cs[l].HasItem() && Dropped(cs, cs', l)
    requires forall j :: 0 <= j < |cs| && cs[j].HasItem() && j != l ==> Precedes(cs, l, j)
    ensures AllSorted(Lists(cs'))
    ensures forall i, p :: 0 <= i < |cs'| && 0 <= p < |cs'[i].Items()| && (i != l || p > 0) ==>
              cs'[i].Items()[p].key > cs[l].Item().key
    ensures Newest(Lists(cs), cs[l].Item().key) == Some(cs[l].Item())
    ensures forall key :: key < cs[l].Item().key ==> Newest(Lists(cs), key) == None
    ensures forall key :: key > cs[l].Item().key ==> Newest(Lists(cs'), key) == Newest(Lists(cs), key)
  {
    hide Cursor.Items, Lookup, Newest;
    var k := cs[l].Item().key;
    forall i | 0 <= i < |cs| ensures Sorted(cs'[i].Items()) && DroppedOne(cs, cs', l, i) { DropOne(cs, cs', l, i); }
    forall key | key < k ensures Newest(Lists(cs), key) == None {
      forall j | 0 <= j < |cs| ensures Lookup(Lists(cs)[j], key) == None { assert DroppedOne(cs, cs', l, j); }
      NewestNone(Lists(cs), key);
    }
    forall key | key > k ensures Newest(Lists(cs'), key) == Newest(Lists(cs), key) {
      forall j | 0 <= j < |cs| ensures Lookup(Lists(cs)[j], key) == Lookup(Lists(cs')[j], key) {
        assert DroppedOne(cs, cs', l, j);
      }
      NewestSame(Lists(cs), Lists(cs'), key);
    }
    forall j | 0 <= j < l ensures Lookup(Lists(cs)[j], k) == None { assert DroppedOne(cs, cs', l, j); }
    LookupAt(cs[l].Items(), 0);
    NewestIs(Lists(cs), k, l);
    forall i, p | 0 <= i < |cs'| && 0 <= p < |cs'[i].Items()| && (i != l || p > 0) ensures cs'[i].Items()[p].key > k {
      assert DroppedOne(cs, cs', l, i);
    }
  }

  ghost predicate DroppedOne<V>(cs: Cursors<V>, cs': Cursors<V>, l: nat, i: nat)
    requires l < |cs| == |cs'| && i < |cs| && cs[l].HasItem()
  {
    var k := cs[l].Item().key;
    && (forall key :: key < k ==> Lookup(cs[i].Items(), key) == None)
    && (i < l ==> Lookup(cs[i].Items(), k) == None)
    && (forall key :: key > k ==> Lookup(cs[i].Items(), key) == Lookup(cs'[i].Items(), key))
    && (forall p :: 0 <= p < |cs'[i].Items()| && (i != l || p > 0) ==> cs'[i].Items()[p].key > k)
  }

  lemma DropOne<V>(cs: Cursors<V>, cs': Cursors<V>, l: nat, i: nat)
    requires AllSorted(Lists(cs)) && l < |cs| && cs[l].HasItem() && Dropped(cs, cs', l) && i < |cs|
    requires i != l && cs[i].HasItem() ==> Precedes(cs, l, i)
    ensures Sorted(cs'[i].Items()) && DroppedOne(cs, cs', l, i)
  {
    hide Cursor.Items, Lookup;
    var s, t, k := cs[i].Items(), cs'[i].Items(), cs[l].Item().key;
    assert s == Lists(cs)[i];
    forall key | key < k || (key == k && i < l) ensures Lookup(s, key) == None {
      if s != [] { assert s[0].key >= k && (i < l ==> s[0].key > k); }
      LookupNone(s, key);
    }
    forall key | key > k ensures Lookup(s, key) == Lookup(t, key) {
      if t != s { LookupTail(s, key); }
    }
  }

  lemma {:induction false} Finds<V>(cs: Cursors<V>, bound: Bound<int>, fuel: nat)
    requires AllSorted(Lists(cs)) && fuel > Total(Lists(cs)) + |cs|
    ensures AdvanceImpl(PointOps(), cs, bound, fuel).Some?
    ensures var (cs', current) := AdvanceImpl(PointOps(), cs, bound, fuel).value; Found(cs, bound, cs', current)
    decreases Total(Lists(cs))
  {
    hide Lowest, Cursor.Items, Inner, Newest, Lookup, Total, Equals;
    var ops := PointOps<V>();
    var l := Lowest(ops, cs, {});
    if l == -1 {
      NothingToFind(cs, bound, fuel);
    } else {
      LowestIsMin(cs, {});
      EqualsBound(cs, l);
      InnerFinds(cs, l, fuel);
      var cs1 := Inner(ops, cs, fuel).value.0;
      DroppedLookups(cs, cs1, l);
      DroppedTotal(cs, cs1, l);
      var item := cs[l].Item();
      if Before(item.key, bound) {
        var cs2 := cs1[l := cs1[l].Advance()];
        SkipOne(cs, cs1, l, cs2);
        Finds(cs2, bound, fuel - 1);
        var (cs', current) := AdvanceImpl(ops, cs2, bound, fuel - 1).value;
        FoundAfterSkip(cs, cs2, item.key, bound, cs', current);
      }
    }
  }

  lemma NothingToFind<V>(cs: Cursors<V>, bound: Bound<int>, fuel: nat)
    requires AllSorted(Lists(cs)) && Lowest(PointOps(), cs, {}) == -1 && fuel > 0
    ensures AdvanceImpl(PointOps(), cs, bound, fuel) == Some((cs, Nothing)) && Found(cs, bound, cs, Nothing)
  {
    hide Lowest, Lookup, Newest;
    LowestIsMin(cs, {});
    assert InnerStep(PointOps(), cs) == (cs, Nothing, true);
    forall key ensures Newest(Lists(cs), key) == None {
      forall j | 0 <= j < |cs| ensures Lookup(Lists(cs)[j], key) == None { LookupNone(Lists(cs)[j], key); }
      NewestNone(Lists(cs), key);
    }
  }

  lemma EqualsBound<V>(cs: Cursors<V>, l: nat)
    requires l < |cs| && cs[l].HasItem()
    ensures |Equals(cs, l)| <= |cs|
  {
    BoundedSet(Equals(cs, l), |cs|);
  }

  lemma {:induction false} BoundedSet(s: set<nat>, n: nat)
    requires forall x :: x in s ==> x < n
    ensures |s| <= n
    decreases n
  {
    if n > 0 {
      BoundedSet(s - {n - 1}, n - 1);
    } else {
      assert s == {};
    }
  }

  lemma {:induction false} DroppedTotal<V>(cs: Cursors<V>, cs': Cursors<V>, l: nat)
    requires l < |cs| && cs[l].HasItem() && Dropped(cs, cs', l)
    ensures Total(Lists(cs')) <= Total(Lists(cs))
  {
    hide Cursor.Items;
    TotalMono(Lists(cs'), Lists(cs));
  }

  lemma {:induction false} TotalMono<V>(a: seq<Layer<V>>, b: seq<Layer<V>>)
    requires |a| == |b| && forall i :: 0 <= i < |a| ==> |a[i]| <= |b[i]|
    ensures Total(a) <= Total(b)
    decreases |a|
  {
    if a != [] { TotalMono(a[1..], b[1..]); }
  }

  /** Skipping the found item keeps everything above it. */
  lemma SkipOne<V>(cs: Cursors<V>, cs1: Cursors<V>, l: nat, cs2: Cursors<V>)
    requires l < |cs| == |cs1| && cs[l].HasItem() && cs1[l] == cs[l] && cs2 == cs1[l := cs1[l].Advance()]
    requires AllSorted(Lists(cs1)) && Total(Lists(cs1)) <= Total(Lists(cs))
    requires forall key :: key > cs[l].Item().key ==> Newest(Lists(cs1), key) == Newest(Lists(cs), key)
    ensures AllSorted(Lists(cs2)) && Total(Lists(cs2)) < Total(Lists(cs))
    ensures forall key :: key > cs[l].Item().key ==> Newest(Lists(cs2), key) == Newest(Lists(cs), key)
  {
    hide Cursor.Items, Newest, Lookup, Total;
    var s := cs1[l].Items();
    assert Lists(cs2) == Lists(cs1)[l := s[1..]];
    TotalUpdate(Lists(cs1), l, s[1..]);
    assert Sorted(Lists(cs1)[l]);
    forall key | key > cs[l].Item().key ensures Newest(Lists(cs2), key) == Newest(Lists(cs), key) {
      LookupTail(s, key);
      NewestSame(Lists(cs2), Lists(cs1), key);
    }
  }

  lemma FoundAfterSkip<V>(cs: Cursors<V>, cs2: Cursors<V>, k: int, bound: Bound<int>, cs': Cursors<V>,
                          current: Current<int, V>)
    requires Found(cs2, bound, cs', current) && Before(k, bound) && |cs2| == |cs|
    requires Total(Lists(cs2)) < Total(Lists(cs))
    requires forall key :: key > k ==> Newest(Lists(cs2), key) == Newest(Lists(cs), key)
    ensures Found(cs, bound, cs', current)
  {
    hide Cursor.Items, Newest, Lookup, Total;
    assert forall key :: !Before(key, bound) ==> key > k;
  }

  // ---- The whole iteration ----

  /** What is still to come: the rest of the consulted layers and all of the pending ones. */
  ghost function Pool<V>(m: Merger<int, V>): seq<Layer<V>>
    requires m.Ok()
  {
    Lists(m.cs) + m.layers[|m.cs|..]
  }

  /** Between two calls: the current item is the right one for its key, the other iterators are
      past that key and together with the pending layers hold everything above it. */
  ghost predicate Between<V>(m: Merger<int, V>)
  {
    && m.Ok() && AllSorted(m.layers) && AllSorted(Lists(m.cs)) && !m.current.Emitted?
    && (m.current.Nothing? ==> |m.cs| == |m.layers|)
    && (m.current.At? ==>
          var item := m.cs[m.current.layer].Item();
          && Newest(m.layers, item.key) == Some(item)
          && (forall key :: key > item.key ==> Newest(Pool(m), key) == Newest(m.layers, key))
          && (forall i, p :: 0 <= i < |m.cs| && 0 <= p < |m.cs[i].Items()| && (i != m.current.layer || p > 0) ==>
                m.cs[i].Items()[p].key > item.key))
  }

  /** `seek` in one layer drops exactly the items before the bound. */
  lemma {:induction false} SeekLayerLookup<V>(s: Layer<V>, bound: Bound<int>)
    requires Sorted(s)
    ensures var t := SeekLayer(PointOps(), s, bound);
            && Sorted(t) && |t| <= |s|
            && (forall key :: !Before(key, bound) ==> Lookup(t, key) == Lookup(s, key))
            && (forall p :: 0 <= p < |t| ==> !Before(t[p].key, bound))
    decreases |s|
  {
    hide Lookup;
    if s != [] {
      if Before(s[0].key, bound) {
        SeekLayerLookup(s[1..], bound);
        var t := SeekLayer(PointOps(), s, bound);
        assert t == SeekLayer(PointOps(), s[1..], bound);
        forall key | !Before(key, bound) ensures Lookup(t, key) == Lookup(s, key) { LookupTail(s, key); }
      } else {
        assert forall p :: 0 <= p < |s| ==> s[0].key <= s[p].key;
      }
    }
  }

  /** Consulting more layers keeps what can be found at or above the bound. */
  lemma {:induction false} PushLookup<V>(layers: seq<Layer<V>>, cs: Cursors<V>, cs': Cursors<V>, bound: Bound<int>,
                                         key: int)
    requires |cs| <= |cs'| <= |layers| && AllSorted(layers) && cs <= cs' && !Before(key, bound)
    requires forall i :: |cs| <= i < |cs'| ==> cs'[i] == Cursor(None, SeekLayer(PointOps(), layers[i], bound))
    ensures Newest(Lists(cs') + layers[|cs'|..], key) == Newest(Lists(cs) + layers[|cs|..], key)
  {
    hide Lookup, Newest;
    var a, b := Lists(cs') + layers[|cs'|..], Lists(cs) + layers[|cs|..];
    forall i | 0 <= i < |a| ensures Lookup(a[i], key) == Lookup(b[i], key) {
      if |cs| <= i < |cs'| {
        SeekLayerLookup(layers[i], bound);
        assert cs'[i].Items() == SeekLayer(PointOps(), layers[i], bound);
      } else if i < |cs| {
        assert cs'[i] == cs[i];
      }
    }
    NewestSame(a, b, key);
  }

  lemma PushSorted<V>(layers: seq<Layer<V>>, cs: Cursors<V>, cs': Cursors<V>, bound: Bound<int>)
    requires |cs| <= |cs'| <= |layers| && AllSorted(layers) && cs <= cs' && AllSorted(Lists(cs))
    requires forall i :: |cs| <= i < |cs'| ==> cs'[i] == Cursor(None, SeekLayer(PointOps(), layers[i], bound))
    ensures AllSorted(Lists(cs'))
    ensures Total(Lists(cs')) <= Total(Lists(cs) + layers[|cs|..])
    ensures forall i, p :: |cs| <= i < |cs'| && 0 <= p < |cs'[i].Items()| ==> !Before(cs'[i].Items()[p].key, bound)
  {
    hide Lookup, Newest;
    forall i | 0 <= i < |cs'| ensures Sorted(Lists(cs')[i]) && |Lists(cs')[i]| <= |(Lists(cs) + layers[|cs|..])[i]|
      ensures i >= |cs| ==> forall p :: 0 <= p < |cs'[i].Items()| ==> !Before(cs'[i].Items()[p].key, bound)
    {
      if i < |cs| {
        assert Lists(cs')[i] == Lists(cs)[i];
      } else {
        SeekLayerLookup(layers[i], bound);
        assert cs'[i].Items() == SeekLayer(PointOps(), layers[i], bound);
      }
    }
    var all := Lists(cs) + layers[|cs|..];
    TotalMono(Lists(cs'), all[..|cs'|]);
    assert all == all[..|cs'|] + all[|cs'|..];
    TotalConcat(all[..|cs'|], all[|cs'|..]);
  }

  lemma {:induction false} TotalConcat<V>(a: seq<Layer<V>>, b: seq<Layer<V>>)
    ensures Total(a + b) == Total(a) + Total(b)
    decreases |a|
  {
    if a == [] {
      assert a + b == b;
    } else {
      assert (a + b)[1..] == a[1..] + b;
      TotalConcat(a[1..], b);
    }
  }

  /** The iterator stands on the first key not before the bound, or at the end if there is none. */
  ghost predicate Settled<V>(m: Merger<int, V>, bound: Bound<int>)
  {
    && Between(m)
    && (m.current.Nothing? ==> forall key :: !Before(key, bound) ==> Newest(m.layers, key) == None)
    && (m.current.At? ==>
          var k := m.cs[m.current.layer].Item().key;
          && !Before(k, bound)
          && forall key :: !Before(key, bound) && key < k ==> Newest(m.layers, key) == None)
  }

  /** Finding the right item among the consulted layers is enough: either all layers are consulted
      or no key between the bound and the item exists. */
  lemma Settles<V>(layers: seq<Layer<V>>, cs: Cursors<V>, bound: Bound<int>, cs': Cursors<V>, current: Current<int, V>)
    requires |cs| <= |layers| && AllSorted(layers) && Found(cs, bound, cs', current)
    requires forall key :: !Before(key, bound) ==> Newest(Lists(cs) + layers[|cs|..], key) == Newest(layers, key)
    requires |cs| < |layers| ==> current.At? && forall key :: !Before(key, bound) ==>
             key >= cs'[current.layer].Item().key
    ensures Settled(Merger(layers, cs', current), bound)
  {
    hide Lookup, Newest, Cursor.Items, Total;
    var m := Merger(layers, cs', current);
    forall key ensures Newest(Lists(cs) + layers[|cs|..], key)
                         == if Newest(Lists(cs), key).Some? then Newest(Lists(cs), key) else Newest(layers[|cs|..], key)
    { NewestConcat(Lists(cs), layers[|cs|..], key); }
    forall key ensures Newest(Pool(m), key)
                         == if Newest(Lists(cs'), key).Some? then Newest(Lists(cs'), key)
                             else Newest(layers[|cs|..], key)
    { NewestConcat(Lists(cs'), layers[|cs|..], key); }
    if |cs| == |layers| {
      assert layers[|cs|..] == [];
      EmptyNewest<V>();
    }
  }

  /** `seek`: positions the iterator on the first key not before the bound, and consults further
      layers only while the key itself has not been found. */
  lemma SeekFinds<V>(layers: seq<Layer<V>>, bound: Bound<int>, fuel: nat)
    requires AllSorted(layers) && !bound.Excluded? && fuel > Total(layers) + |layers|
    ensures Seek(PointOps(), layers, bound, fuel).Some?
    ensures var m := Seek(PointOps(), layers, bound, fuel).value; Settled(m, bound) && Total(Pool(m)) <= Total(layers)
  {
    hide Lowest, Lookup, Newest, Cursor.Items, AdvanceImpl, Total, Settled, Before, Push, SeekLayer, NeedsMore;
    var ops := PointOps<V>();
    var cs := Push(ops, layers, [], {}, if bound.Included? then Some(bound.key) else None, bound);
    PushSorted(layers, [], cs, bound);
    assert Lists<V>([]) + layers[0..] == layers;
    Finds(cs, bound, fuel);
    var (cs', current) := AdvanceImpl(ops, cs, bound, fuel).value;
    SeekPool(layers, cs, cs', bound);
    forall key | !Before(key, bound) ensures Newest(Lists(cs) + layers[|cs|..], key) == Newest(layers, key) {
      PushLookup(layers, [], cs, bound, key);
    }
    if |cs| < |layers| { FoundKey(layers, cs, bound, cs', current); }
    Settles(layers, cs, bound, cs', current);
  }

  lemma EmptyNewest<V>()
    ensures forall key :: Newest<V>([], key) == None
  {
  }

  lemma SeekPool<V>(layers: seq<Layer<V>>, cs: Cursors<V>, cs': Cursors<V>, bound: Bound<int>)
    requires |cs| == |cs'| <= |layers| && AllSorted(layers) && Total(Lists(cs')) <= Total(Lists(cs))
    requires forall i :: 0 <= i < |cs| ==> cs[i] == Cursor(None, SeekLayer(PointOps(), layers[i], bound))
    ensures Total(Lists(cs') + layers[|cs'|..]) <= Total(layers)
  {
    hide Lookup, Newest;
    forall i | 0 <= i < |cs| ensures |Lists(cs)[i]| <= |layers[i]| { SeekLayerLookup(layers[i], bound); }
    TotalMono(Lists(cs), layers[..|cs|]);
    TotalConcat(Lists(cs'), layers[|cs|..]);
    assert layers == layers[..|cs|] + layers[|cs|..];
    TotalConcat(layers[..|cs|], layers[|cs|..]);
  }

  /** The layers down to the newest that has the key: as many as a search for it has to look at. */
  ghost function Needed<V>(layers: seq<Layer<V>>, key: int): nat
  {
    if layers == [] then 0 else if Lookup(layers[0], key).Some? then 1 else 1 + Needed(layers[1..], key)
  }

  ghost predicate SoughtTo<V>(cs: Cursors<V>, layers: seq<Layer<V>>, key: int)
  {
    |cs| <= |layers| && forall i :: 0 <= i < |cs| ==>
        cs[i] == Cursor(None, SeekLayer(PointOps(), layers[i], Included(key)))
  }

  /** A layer sought to the key starts with it exactly if it has it. */
  lemma SoughtHead<V>(s: Layer<V>, key: int)
    requires Sorted(s)
    ensures var c := Cursor(None, SeekLayer(PointOps(), s, Included(key)));
            && (c.HasItem() ==> c.Item().key >= key)
            && (c.HasItem() && c.Item().key == key <==> Lookup(s, key).Some?)
  {
    hide Lookup, SeekLayer;
    SeekLayerLookup(s, Included(key));
    var t := SeekLayer(PointOps(), s, Included(key));
    if t == [] {
      LookupNone(t, key);
    } else if t[0].key == key {
      LookupAt(t, 0);
    } else {
      assert forall p :: 0 <= p < |t| ==> t[p].key > key;
      LookupNone(t, key);
    }
  }

  /** As long as no consulted layer has the key, another one is consulted; then no more. */
  lemma ConsultsUntil<V>(layers: seq<Layer<V>>, cs: Cursors<V>, key: int)
    requires AllSorted(layers) && SoughtTo(cs, layers, key)
    ensures (forall i :: 0 <= i < |cs| ==> Lookup(layers[i], key) == None) && |cs| < |layers| ==>
              NeedsMore(PointOps(), layers, cs, {}, Some(key))
    ensures (exists i :: 0 <= i < |cs| && Lookup(layers[i], key).Some?) ==>
              !NeedsMore(PointOps(), layers, cs, {}, Some(key))
  {
    hide Lookup, SeekLayer, Lowest;
    forall i | 0 <= i < |cs| ensures (cs[i].HasItem() ==> cs[i].Item().key >= key)
      ensures cs[i].HasItem() && cs[i].Item().key == key <==> Lookup(layers[i], key).Some?
    {
      SoughtHead(layers[i], key);
    }
    LowestIsMin(cs, {});
    var l := Lowest(PointOps<V>(), cs, {});
    if i :| 0 <= i < |cs| && Lookup(layers[i], key).Some? {
      assert cs[i].HasItem() && cs[i].Item().key == key;
      if i != l { assert Precedes(cs, l, i); }
    }
  }

  lemma {:induction false} PushStops<V>(layers: seq<Layer<V>>, cs: Cursors<V>, key: int)
    requires AllSorted(layers) && SoughtTo(cs, layers, key)
    requires forall i :: 0 <= i < |cs| ==> Lookup(layers[i], key) == None
    ensures |Push(PointOps(), layers, cs, {}, Some(key), Included(key))| == |cs| + Needed(layers[|cs|..], key)
    decreases |layers| - |cs|
  {
    hide Lookup, SeekLayer, NeedsMore;
    ConsultsUntil(layers, cs, key);
    if |cs| == |layers| {
      assert layers[|cs|..] == [];
      assert Push(PointOps(), layers, cs, {}, Some(key), Included(key)) == cs;
    } else {
      var cs1 := cs + [Cursor(None, SeekLayer(PointOps(), layers[|cs|], Included(key)))];
      assert layers[|cs|..][1..] == layers[|cs1|..];
      ConsultsUntil(layers, cs1, key);
      if Lookup(layers[|cs|], key).None? { PushStops(layers, cs1, key); }
    }
  }

  /** `seek` to a key consults the layers down to the newest that has the key, and no others. */
  lemma SeekConsults<V>(layers: seq<Layer<V>>, key: int, fuel: nat)
    requires AllSorted(layers) && fuel > Total(layers) + |layers|
    ensures Seek(PointOps(), layers, Included(key), fuel).Some?
    ensures |Seek(PointOps(), layers, Included(key), fuel).value.cs| == Needed(layers, key)
  {
    hide Lookup, Push, AdvanceImpl, Total;
    SeekFinds(layers, Included(key), fuel);
    PushStops(layers, [], key);
    assert layers[0..] == layers;
  }

  /** If some layers were left pending, the key searched for was found. */
  lemma FoundKey<V>(layers: seq<Layer<V>>, cs: Cursors<V>, bound: Bound<int>, cs': Cursors<V>, current: Current<int, V>)
    requires |cs| < |layers| && AllSorted(layers) && AllSorted(Lists(cs)) && !bound.Excluded?
    requires !NeedsMore(PointOps(), layers, cs, {}, if bound.Included? then Some(bound.key) else None)
    requires forall i, p :: 0 <= i < |cs| && 0 <= p < |cs[i].Items()| ==> !Before(cs[i].Items()[p].key, bound)
    requires Found(cs, bound, cs', current)
    ensures bound.Included? && current.At? && current.layer < |cs'| && cs'[current.layer].HasItem()
    ensures forall key :: !Before(key, bound) ==> key >= cs'[current.layer].Item().key
  {
    hide Lowest, Newest, Lookup;
    var l := Lowest(PointOps(), cs, {});
    assert l != -1 && bound.Included? && cs[l].Item().key <= bound.key;
    assert cs[l].Items()[0].key == bound.key;
    LookupAt(Lists(cs)[l], 0);
    NewestSome(Lists(cs), bound.key, l);
  }

  lemma {:induction false} NewestSome<V>(layers: seq<Layer<V>>, key: int, i: nat)
    requires i < |layers| && Lookup(layers[i], key).Some?
    ensures Newest(layers, key).Some?
    decreases |layers|
  {
    if i > 0 && Lookup(layers[0], key).None? {
      NewestSome(layers[1..], key, i - 1);
    }
  }

  /** `advance`: moves to the first key above the current one. */
  lemma AdvanceFinds<V>(m: Merger<int, V>, fuel: nat)
    requires Between(m) && m.current.At? && fuel > Total(Pool(m)) + |m.layers|
    ensures Advance(PointOps(), m, fuel).Some?
    ensures var m' := Advance(PointOps(), m, fuel).value;
            && Settled(m', Excluded(m.cs[m.current.layer].Item().key))
            && Total(Pool(m')) < Total(Pool(m))
  {
    if |m.cs| == |m.layers| {
      AdvanceAll(m, fuel);
    } else {
      AdvanceConsults(m, fuel);
    }
  }

  /** When all layers are consulted. */
  lemma AdvanceAll<V>(m: Merger<int, V>, fuel: nat)
    requires Between(m) && m.current.At? && fuel > Total(Pool(m)) + |m.layers| && |m.cs| == |m.layers|
    ensures Advance(PointOps(), m, fuel).Some?
    ensures var m' := Advance(PointOps(), m, fuel).value;
            && Settled(m', Excluded(m.cs[m.current.layer].Item().key))
            && Total(Pool(m')) < Total(Pool(m))
  {
    hide Lowest, Lookup, Newest, Cursor.Items, AdvanceImpl, Total, Settled, Prepare;
    var ops, l := PointOps<V>(), m.current.layer;
    var k := m.cs[l].Item().key;
    PrepareAll(ops, m);
    var cs := m.cs[l := m.cs[l].Advance()];
    assert Pool(m) == Lists(m.cs) by { assert m.layers[|m.cs|..] == []; }
    SkipOne(m.cs, m.cs, l, cs);
    Finds(cs, Unbounded, fuel);
    var (cs', current) := AdvanceImpl(ops, cs, Unbounded, fuel).value;
    AllAbove(cs, k);
    FoundAbove(cs, k, cs', current);
    forall key | !Before(key, Excluded(k)) ensures Newest(Lists(cs) + m.layers[|cs|..], key) == Newest(m.layers, key) {
      assert Lists(cs) + m.layers[|cs|..] == Lists(cs);
    }
    Settles(m.layers, cs, Excluded(k), cs', current);
    assert Lists(cs') + m.layers[|cs'|..] == Lists(cs');
  }

  /** When layers are pending: they are consulted for what lies above the current key, and the
      current item is put back so that it can be merged with theirs and skipped. */
  lemma AdvanceConsults<V>(m: Merger<int, V>, fuel: nat)
    requires Between(m) && m.current.At? && fuel > Total(Pool(m)) + |m.layers| && |m.cs| < |m.layers|
    ensures Advance(PointOps(), m, fuel).Some?
    ensures var m' := Advance(PointOps(), m, fuel).value;
            && Settled(m', Excluded(m.cs[m.current.layer].Item().key))
            && Total(Pool(m')) < Total(Pool(m))
  {
    hide Lowest, Lookup, Newest, Cursor.Items, AdvanceImpl, Total, Settled;
    var ops, l := PointOps<V>(), m.current.layer;
    var k := m.cs[l].Item().key;
    var bound := Excluded(k);
    var back := m.cs[l := Cursor(Some(m.cs[l].Item()), m.cs[l].Advance().rest)];
    var cs := Push(ops, m.layers, back, {l}, None, bound);
    assert NextSearch(ops, m) == (None, bound) && Prepare(ops, m) == cs;
    assert |cs| == |m.layers| by { assert !NeedsMore(ops, m.layers, cs, {l}, None); }
    PutBack(m.cs, l);
    assert Lists(back) == Lists(m.cs);
    PushSorted(m.layers, back, cs, bound);
    Finds(cs, bound, fuel);
    var (cs', current) := AdvanceImpl(ops, cs, bound, fuel).value;
    forall key | !Before(key, bound) ensures Newest(Lists(cs) + m.layers[|cs|..], key) == Newest(m.layers, key) {
      PushLookup(m.layers, back, cs, bound, key);
    }
    Settles(m.layers, cs, bound, cs', current);
    assert Lists(cs') + m.layers[|cs'|..] == Lists(cs');
    SkippedOne(cs, l, k, fuel);
  }

  lemma PutBack<V>(cs: Cursors<V>, l: nat)
    requires l < |cs| && cs[l].HasItem()
    ensures Cursor(Some(cs[l].Item()), cs[l].Advance().rest).Items() == cs[l].Items()
  {
  }

  /** The item put back is dropped again. */
  lemma SkippedOne<V>(cs: Cursors<V>, l: nat, k: int, fuel: nat)
    requires AllSorted(Lists(cs)) && l < |cs| && cs[l].HasItem() && cs[l].Item().key == k
    requires fuel > Total(Lists(cs)) + |cs|
    requires forall i, p :: 0 <= i < |cs| && 0 <= p < |cs[i].Items()| && (i != l || p > 0) ==> cs[i].Items()[p].key > k
    ensures AdvanceImpl(PointOps(), cs, Excluded(k), fuel).Some?
    ensures Total(Lists(AdvanceImpl(PointOps(), cs, Excluded(k), fuel).value.0)) < Total(Lists(cs))
  {
    hide Lowest, Lookup, Newest, Cursor.Items, Total, Inner;
    forall j | 0 <= j < |cs| && cs[j].HasItem() && j != l
      ensures Precedes(cs, l, j)
    {
      assert cs[j].Items()[0].key > k;
    }
    LowestIs(cs, {}, l);
    EqualsBound(cs, l);
    InnerFinds(cs, l, fuel);
    var cs1 := Inner(PointOps(), cs, fuel).value.0;
    DroppedLookups(cs, cs1, l);
    DroppedTotal(cs, cs1, l);
    var cs2 := cs1[l := cs1[l].Advance()];
    SkipOne(cs, cs1, l, cs2);
    Finds(cs2, Excluded(k), fuel - 1);
  }

  lemma AllAbove<V>(cs: Cursors<V>, k: int)
    requires forall i, p :: 0 <= i < |cs| && 0 <= p < |cs[i].Items()| ==> cs[i].Items()[p].key > k
    ensures forall key :: key <= k ==> Newest(Lists(cs), key) == None
  {
    hide Lookup, Newest;
    forall key | key <= k ensures Newest(Lists(cs), key) == None {
      forall j | 0 <= j < |cs| ensures Lookup(Lists(cs)[j], key) == None { LookupNone(Lists(cs)[j], key); }
      NewestNone(Lists(cs), key);
    }
  }

  lemma FoundAbove<V>(cs: Cursors<V>, k: int, cs': Cursors<V>, current: Current<int, V>)
    requires Found(cs, Unbounded, cs', current) && forall key :: key <= k ==> Newest(Lists(cs), key) == None
    ensures Found(cs, Excluded(k), cs', current)
  {
    hide Lookup, Newest, Cursor.Items, Total;
  }

  /** From a settled position, advancing to the end yields, in order, the newest item of every key
      not before the bound. */
  lemma {:induction false} CollectsAll<V>(m: Merger<int, V>, bound: Bound<int>, fuel: nat, steps: nat)
    requires Settled(m, bound) && fuel > Total(Pool(m)) + |m.layers| && steps >= Total(Pool(m)) + 1
    ensures Collect(PointOps(), m, fuel, steps).Some?
    ensures var out := Collect(PointOps(), m, fuel, steps).value;
            && Sorted(out)
            && (forall p :: 0 <= p < |out| ==> !Before(out[p].key, bound))
            && (forall key :: Lookup(out, key) == if Before(key, bound) then None else Newest(m.layers, key))
    decreases steps
  {
    hide Lookup, Newest, Cursor.Items, Total, Lowest, Pool, Advance;
    if m.current.Nothing? {
      forall key ensures Lookup<V>([], key) == None { LookupNone<V>([], key); }
    } else {
      var item := m.cs[m.current.layer].Item();
      AdvanceFinds(m, fuel);
      var m' := Advance(PointOps(), m, fuel).value;
      CollectsAll(m', Excluded(item.key), fuel, steps - 1);
      var rest := Collect(PointOps(), m', fuel, steps - 1).value;
      ConsLookup(item, rest);
    }
  }

  lemma ConsLookup<V>(item: Item<int, V>, rest: Layer<V>)
    requires Sorted(rest) && forall p :: 0 <= p < |rest| ==> rest[p].key > item.key
    ensures Sorted([item] + rest)
    ensures forall key :: Lookup([item] + rest, key) == if key == item.key then Some(item) else Lookup(rest, key)
  {
    hide Lookup;
    var s := [item] + rest;
    assert s[1..] == rest;
    LookupAt(s, 0);
    forall key
      ensures Lookup(s, key) == if key == item.key then Some(item) else Lookup(rest, key)
    {
      LookupTail(s, key);
    }
  }

  /** The whole of it: seeking to a bound and advancing to the end terminates and returns exactly
      the newest-wins merge of all layers from the bound on, in key order. */
  lemma LazyMergeIsFullMerge<V>(layers: seq<Layer<V>>, bound: Bound<int>, fuel: nat)
    requires AllSorted(layers) && !bound.Excluded? && fuel > Total(layers) + |layers|
    ensures Seek(PointOps(), layers, bound, fuel).Some?
    ensures Collect(PointOps(), Seek(PointOps(), layers, bound, fuel).value, fuel, fuel).Some?
    ensures var out := Collect(PointOps(), Seek(PointOps(), layers, bound, fuel).value, fuel, fuel).value;
            && Sorted(out)
            && forall key :: Lookup(out, key) == if Before(key, bound) then None else Newest(layers, key)
  {
    hide Lookup, Newest, Total, Seek, Pool;
    SeekFinds(layers, bound, fuel);
    CollectsAll(Seek(PointOps(), layers, bound, fuel).value, bound, fuel, fuel);
  }

  /** `LSMTree::find`: a seek to the key finds the newest item stored under it. */
  function Find<V>(layers: seq<Layer<V>>, key: int, fuel: nat): Option<Item<int, V>>
  {
    match Seek(PointOps(), layers, Included(key), fuel)
    case None => None
    case Some(m) => if m.Get().Some? && m.Get().value.key == key then m.Get() else None
  }

  lemma FindIsNewest<V>(layers: seq<Layer<V>>, key: int, fuel: nat)
    requires AllSorted(layers) && fuel > Total(layers) + |layers|
    ensures Find(layers, key, fuel) == Newest(layers, key)
  {
    hide Lookup, Newest, Total, Seek, Pool;
    SeekFinds(layers, Included(key), fuel);
    NewestKey(layers, key);
  }

  lemma {:induction false} NewestKey<V>(layers: seq<Layer<V>>, key: int)
    ensures Newest(layers, key).Some? ==> Newest(layers, key).value.key == key
    decreases |layers|
  {
    if layers != [] { NewestKey(layers[1..], key); }
  }
}
