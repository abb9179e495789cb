/** The merger (src/lsm_tree/merge.rs) looks at values through the merge function only: if a map of items
    that keeps keys commutes with the merge function, it commutes with every operation of the merger. */
module MergeMap {
  import opened LsmTypes
  import opened Merge

  type ItemMap<!K, !V, !W> = Item<K, V> -> Item<K, W>

  function MapItems<K, V, W>(f: ItemMap<K, V, W>, s: seq<Item<K, V>>): (r: seq<Item<K, W>>)
    ensures |r| == |s| && forall i :: 0 <= i < |s| ==> r[i] == f(s[i])
  {
    seq(|s|, i requires 0 <= i < |s| => f(s[i]))
  }

  function MapOption<K, V, W>(f: ItemMap<K, V, W>, o: Option<Item<K, V>>): Option<Item<K, W>>
  {
    match o case None => None case Some(x) => Some(f(x))
  }

  function MapCursor<K, V, W>(f: ItemMap<K, V, W>, c: Cursor<K, V>): (r: Cursor<K, W>)
    ensures r.HasItem() == c.HasItem() && (c.HasItem() ==> r.Item() == f(c.Item()))
  {
    Cursor(MapOption(f, c.own), MapItems(f, c.rest))
  }

  function MapCursors<K, V, W>(f: ItemMap<K, V, W>, cs: seq<Cursor<K, V>>): (r: seq<Cursor<K, W>>)
    ensures |r| == |cs| && forall i :: 0 <= i < |cs| ==> r[i] == MapCursor(f, cs[i])
  {
    seq(|cs|, i requires 0 <= i < |cs| => MapCursor(f, cs[i]))
  }

  function MapLayers<K, V, W>(f: ItemMap<K, V, W>, layers: seq<seq<Item<K, V>>>): (r: seq<seq<Item<K, W>>>)
    ensures |r| == |layers| && forall i :: 0 <= i < |layers| ==> r[i] == MapItems(f, layers[i])
  {
    seq(|layers|, i requires 0 <= i < |layers| => MapItems(f, layers[i]))
  }

  function MapOp<K, V, W>(f: ItemMap<K, V, W>, op: ItemOp<K, V>): ItemOp<K, W>
  {
    match op case Keep => Keep case Discard => Discard case Replace(x) => Replace(f(x))
  }

  function MapResult<K, V, W>(f: ItemMap<K, V, W>, r: MergeResult<K, V>): MergeResult<K, W>
  {
    match r
    case EmitLeft => EmitLeft
    case Other(emit, left, right) => Other(MapOption(f, emit), MapOp(f, left), MapOp(f, right))
  }

  function MapCurrent<K, V, W>(f: ItemMap<K, V, W>, c: Current<K, V>): Current<K, W>
  {
    match c case Nothing => Nothing case Emitted(x) => Emitted(f(x)) case At(l) => At(l)
  }

  function MapMerger<K, V, W>(f: ItemMap<K, V, W>, m: Merger<K, V>): Merger<K, W>
  {
    Merger(MapLayers(f, m.layers), MapCursors(f, m.cs), MapCurrent(f, m.current))
  }

  /** The map keeps keys, and merging mapped items is mapping what merging them gives. */
  ghost predicate Commutes<K(!new), V(!new), W(!new)>(f: ItemMap<K, V, W>, ops: Ops<K, V>, ops': Ops<K, W>)
  {
    && (forall x :: f(x).key == x.key)
    && (forall a, b :: ops.less(a, b) == ops'.less(a, b))
    && (forall k, bound :: ops.before(k, bound) == ops'.before(k, bound))
    && (forall k :: ops.nextKey(k) == ops'.nextKey(k))
    && (forall x, i, y, j :: MapResult(f, ops.merge(x, i, y, j)) == ops'.merge(f(x), i, f(y), j))
  }

  lemma AdvanceMapped<K, V, W>(f: ItemMap<K, V, W>, c: Cursor<K, V>)
    requires c.HasItem()
    ensures MapCursor(f, c.Advance()) == MapCursor(f, c).Advance()
  {
    if c.own.None? { assert MapItems(f, c.rest[1..]) == MapItems(f, c.rest)[1..]; }
  }

  lemma ApplyMapped<K, V, W>(f: ItemMap<K, V, W>, c: Cursor<K, V>, op: ItemOp<K, V>)
    requires c.HasItem()
    ensures MapCursor(f, c.Apply(op)) == MapCursor(f, c).Apply(MapOp(f, op))
  {
    AdvanceMapped(f, c);
  }

  lemma {:induction false} UpdateMapped<K, V, W>(f: ItemMap<K, V, W>, cs: seq<Cursor<K, V>>, i: nat,
                                                 c: Cursor<K, V>)
    requires i < |cs|
    ensures MapCursors(f, cs[i := c]) == MapCursors(f, cs)[i := MapCursor(f, c)]
  {
  }

  lemma {:induction false} LowestMapped<K(!new), V(!new), W(!new)>(
    f: ItemMap<K, V, W>, ops: Ops<K, V>, ops': Ops<K, W>, cs: seq<Cursor<K, V>>, out: set<nat>)
    requires Commutes(f, ops, ops')
    ensures Lowest(ops', MapCursors(f, cs), out) == Lowest(ops, cs, out)
    decreases |cs|
  {
    if cs != [] {
      var n := |cs| - 1;
      LowestMapped(f, ops, ops', cs[..n], out);
      assert MapCursors(f, cs)[..n] == MapCursors(f, cs[..n]);
    }
  }

  ghost function MapStep<K, V, W>(f: ItemMap<K, V, W>, r: (seq<Cursor<K, V>>, Current<K, V>, bool))
    : (seq<Cursor<K, W>>, Current<K, W>, bool)
  {
    (MapCursors(f, r.0), MapCurrent(f, r.1), r.2)
  }

  ghost function MapFound<K, V, W>(f: ItemMap<K, V, W>, r: Option<(seq<Cursor<K, V>>, Current<K, V>)>)
    : Option<(seq<Cursor<K, W>>, Current<K, W>)>
  {
    match r case None => None case Some(x) => Some((MapCursors(f, x.0), MapCurrent(f, x.1)))
  }

  lemma {:induction false} InnerStepMapped<K(!new), V(!new), W(!new)>(
    f: ItemMap<K, V, W>, ops: Ops<K, V>, ops': Ops<K, W>, cs: seq<Cursor<K, V>>)
    requires Commutes(f, ops, ops')
    ensures InnerStep(ops', MapCursors(f, cs)) == MapStep(f, InnerStep(ops, cs))
  {
    hide Lowest, Cursor.Apply;
    LowestMapped(f, ops, ops', cs, {});
    var l := Lowest(ops, cs, {});
    if l != -1 {
      LowestMapped(f, ops, ops', cs, {l});
      var s := Lowest(ops, cs, {l});
      if s != -1 {
        match ops.merge(cs[l].Item(), l, cs[s].Item(), s)
        case EmitLeft =>
        case Other(emit, left, right) =>
          ApplyMapped(f, cs[l], left);
          ApplyMapped(f, cs[s], right);
          UpdateMapped(f, cs, l, cs[l].Apply(left));
          UpdateMapped(f, cs[l := cs[l].Apply(left)], s, cs[s].Apply(right));
      }
    }
  }

  lemma {:induction false} InnerMapped<K(!new), V(!new), W(!new)>(
    f: ItemMap<K, V, W>, ops: Ops<K, V>, ops': Ops<K, W>, cs: seq<Cursor<K, V>>, fuel: nat)
    requires Commutes(f, ops, ops')
    ensures Inner(ops', MapCursors(f, cs), fuel) == MapFound(f, Inner(ops, cs, fuel))
    decreases fuel
  {
    hide InnerStep, Commutes;
    if fuel > 0 {
      InnerStepMapped(f, ops, ops', cs);
      InnerMapped(f, ops, ops', InnerStep(ops, cs).0, fuel - 1);
    }
  }

  lemma {:induction false} AdvanceImplMapped<K(!new), V(!new), W(!new)>(
    f: ItemMap<K, V, W>, ops: Ops<K, V>, ops': Ops<K, W>, cs: seq<Cursor<K, V>>, bound: Bound<K>, fuel: nat)
    requires Commutes(f, ops, ops')
    ensures AdvanceImpl(ops', MapCursors(f, cs), bound, fuel) == MapFound(f, AdvanceImpl(ops, cs, bound, fuel))
    decreases fuel
  {
    hide Inner;
    if fuel > 0 {
      InnerMapped(f, ops, ops', cs, fuel);
      match Inner(ops, cs, fuel)
      case None =>
      case Some((cs', Nothing)) =>
      case Some((cs', Emitted(item))) =>
        AdvanceImplMapped(f, ops, ops', cs', bound, fuel - 1);
      case Some((cs', At(l))) =>
        AdvanceMapped(f, cs'[l]);
        UpdateMapped(f, cs', l, cs'[l].Advance());
        AdvanceImplMapped(f, ops, ops', cs'[l := cs'[l].Advance()], bound, fuel - 1);
    }
  }

  lemma {:induction false} SeekLayerMapped<K(!new), V(!new), W(!new)>(
    f: ItemMap<K, V, W>, ops: Ops<K, V>, ops': Ops<K, W>, s: seq<Item<K, V>>, bound: Bound<K>)
    requires Commutes(f, ops, ops')
    ensures SeekLayer(ops', MapItems(f, s), bound) == MapItems(f, SeekLayer(ops, s, bound))
    decreases |s|
  {
    if s != [] && ops.before(s[0].key, bound) {
      SeekLayerMapped(f, ops, ops', s[1..], bound);
      assert MapItems(f, s)[1..] == MapItems(f, s[1..]);
    }
  }

  lemma {:induction false} PushMapped<K(!new), V(!new), W(!new)>(
    f: ItemMap<K, V, W>, ops: Ops<K, V>, ops': Ops<K, W>, layers: seq<seq<Item<K, V>>>, cs: seq<Cursor<K, V>>,
    out: set<nat>, nextKey: Option<K>, bound: Bound<K>)
    requires Commutes(f, ops, ops') && |cs| <= |layers|
    ensures Push(ops', MapLayers(f, layers), MapCursors(f, cs), out, nextKey, bound) ==
            MapCursors(f, Push(ops, layers, cs, out, nextKey, bound))
    ensures NeedsMore(ops', MapLayers(f, layers), MapCursors(f, cs), out, nextKey) ==
            NeedsMore(ops, layers, cs, out, nextKey)
    decreases |layers| - |cs|
  {
    hide Lowest, SeekLayer;
    LowestMapped(f, ops, ops', cs, out);
    if NeedsMore(ops, layers, cs, out, nextKey) {
      var c := Cursor(None, SeekLayer(ops, layers[|cs|], bound));
      SeekLayerMapped(f, ops, ops', layers[|cs|], bound);
      assert MapCursors(f, cs + [c]) == MapCursors(f, cs) + [MapCursor(f, c)];
      PushMapped(f, ops, ops', layers, cs + [c], out, nextKey, bound);
    }
  }

  ghost function MapMergerOption<K, V, W>(f: ItemMap<K, V, W>, m: Option<Merger<K, V>>): Option<Merger<K, W>>
  {
    match m case None => None case Some(x) => Some(MapMerger(f, x))
  }

  lemma {:induction false} SeekMapped<K(!new), V(!new), W(!new)>(
    f: ItemMap<K, V, W>, ops: Ops<K, V>, ops': Ops<K, W>, layers: seq<seq<Item<K, V>>>, bound: Bound<K>, fuel: nat)
    requires Commutes(f, ops, ops') && !bound.Excluded?
    ensures Seek(ops', MapLayers(f, layers), bound, fuel) == MapMergerOption(f, Seek(ops, layers, bound, fuel))
  {
    hide Push, AdvanceImpl, Commutes;
    var nextKey := if bound.Included? then Some(bound.key) else None;
    PushMapped(f, ops, ops', layers, [], {}, nextKey, bound);
    assert MapCursors(f, []) == [];
    AdvanceImplMapped(f, ops, ops', Push(ops, layers, [], {}, nextKey, bound), bound, fuel);
  }

  lemma {:induction false} NextSearchMapped<K(!new), V(!new), W(!new)>(
    f: ItemMap<K, V, W>, ops: Ops<K, V>, ops': Ops<K, W>, m: Merger<K, V>)
    requires Commutes(f, ops, ops') && m.Ok()
    ensures MapMerger(f, m).Ok() && MapMerger(f, m).Get() == MapOption(f, m.Get())
    ensures NextSearch(ops', MapMerger(f, m)) == NextSearch(ops, m)
  {
  }

  lemma {:induction false} PrepareMapped<K(!new), V(!new), W(!new)>(
    f: ItemMap<K, V, W>, ops: Ops<K, V>, ops': Ops<K, W>, m: Merger<K, V>)
    requires Commutes(f, ops, ops') && m.Ok() && MapMerger(f, m).Ok()
    ensures Prepare(ops', MapMerger(f, m)) == MapCursors(f, Prepare(ops, m))
  {
    hide Push, NextSearch, NeedsMore;
    NextSearchMapped(f, ops, ops', m);
    var (nextKey, bound) := NextSearch(ops, m);
    if m.current.At? {
      var l := m.current.layer;
      var moved := m.cs[l].Advance();
      var back := Cursor(Some(m.cs[l].Item()), moved.rest);
      AdvanceMapped(f, m.cs[l]);
      UpdateMapped(f, m.cs, l, moved);
      UpdateMapped(f, m.cs, l, back);
      PushMapped(f, ops, ops', m.layers, m.cs, {l}, nextKey, bound);
      PushMapped(f, ops, ops', m.layers, m.cs[l := back], {l}, nextKey, bound);
    } else {
      PushMapped(f, ops, ops', m.layers, m.cs, {}, nextKey, bound);
    }
  }

  lemma {:induction false} AdvanceIsMapped<K(!new), V(!new), W(!new)>(
    f: ItemMap<K, V, W>, ops: Ops<K, V>, ops': Ops<K, W>, m: Merger<K, V>, fuel: nat)
    requires Commutes(f, ops, ops') && m.Ok()
    ensures MapMerger(f, m).Ok()
    ensures Advance(ops', MapMerger(f, m), fuel) == MapMergerOption(f, Advance(ops, m, fuel))
  {
    hide Prepare, AdvanceImpl, NextSearch, Commutes;
    NextSearchMapped(f, ops, ops', m);
    PrepareMapped(f, ops, ops', m);
    AdvanceImplMapped(f, ops, ops', Prepare(ops, m), NextSearch(ops, m).1, fuel);
  }

  /** What a caller collects. */
  lemma {:induction false} CollectMapped<K(!new), V(!new), W(!new)>(
    f: ItemMap<K, V, W>, ops: Ops<K, V>, ops': Ops<K, W>, m: Merger<K, V>, fuel: nat, steps: nat)
    requires Commutes(f, ops, ops') && m.Ok()
    ensures MapMerger(f, m).Ok()
    ensures Collect(ops, m, fuel, steps).Some? <==> Collect(ops', MapMerger(f, m), fuel, steps).Some?
    ensures Collect(ops, m, fuel, steps).Some? ==>
              Collect(ops', MapMerger(f, m), fuel, steps).value == MapItems(f, Collect(ops, m, fuel, steps).value)
    decreases steps
  {
    hide Advance, Commutes;
    NextSearchMapped(f, ops, ops', m);
    AdvanceIsMapped(f, ops, ops', m, fuel);
    if m.Get().Some? && steps > 0 && Advance(ops, m, fuel).Some? {
      var m' := Advance(ops, m, fuel).value;
      CollectMapped(f, ops, ops', m', fuel, steps - 1);
      if Collect(ops, m', fuel, steps - 1).Some? {
        var item, out := m.Get().value, Collect(ops, m', fuel, steps - 1).value;
        assert MapItems(f, [item] + out) == [f(item)] + MapItems(f, out);
      }
    }
  }
}
