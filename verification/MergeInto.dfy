/** Merging one item into a mutable layer (src/lsm_tree/merge.rs, `merge_into`). */
module MergeInto {
  import opened LsmTypes
  import opened Merge

  /** What `merge_into` needs of a mutable iterator: items can be inserted before and erased at the
      position.  `SkipListLayer.IterMut` provides these operations with `Done` as `before` and
      `Rest` as `after`. */
  class CursorList<K(!new), V(!new)> {
    var before: seq<Item<K, V>>
    var after: seq<Item<K, V>>

    constructor (before: seq<Item<K, V>>, after: seq<Item<K, V>>)
      ensures this.before == before && this.after == after
    {
      this.before, this.after := before, after;
    }

    method Insert(item: Item<K, V>)
      modifies this
      ensures before == old(before) + [item] && after == old(after)
    {
      before := before + [item];
    }

    method Erase()
      requires after != []
      modifies this
      ensures before == old(before) && after == old(after)[1..]
    {
      after := after[1..];
    }

    method Advance()
      requires after != []
      modifies this
      ensures before == old(before) + [old(after)[0]] && after == old(after)[1..]
    {
      before, after := before + [after[0]], after[1..];
    }
  }

  /** `MergeItem` */
  datatype MergeItem<+K, +V> = NoItem | Own(item: Item<K, V>) | FromList

  /** With one iterator left, a merger yields its items unchanged. */
  lemma {:induction false} OnlyList<K, V>(ops: Ops<K, V>, item: Cursor<K, V>, list: Cursor<K, V>, fuel: nat)
    requires !item.HasItem() && MergeAll(ops, [item, list], fuel).Some?
    ensures MergeAll(ops, [item, list], fuel) == Some(list.Items())
    decreases fuel
  {
    hide Lowest, InnerStep, Cursor.Items;
    LowestOfTwo(ops, item, list);
    if list.HasItem() {
      LoneStep(ops, item, list);
      OnlyList(ops, item, list.Advance(), fuel - 1);
      assert list.Items() == [list.Item()] + list.Advance().Items();
    }
  }

  lemma {:induction false} OnlyItem<K, V>(ops: Ops<K, V>, item: Cursor<K, V>, list: Cursor<K, V>, fuel: nat)
    requires !list.HasItem() && MergeAll(ops, [item, list], fuel).Some?
    ensures MergeAll(ops, [item, list], fuel) == Some(item.Items())
    decreases fuel
  {
    hide Lowest, InnerStep, Cursor.Items;
    LowestOfTwo(ops, item, list);
    if item.HasItem() {
      LoneStep(ops, item, list);
      OnlyItem(ops, item.Advance(), list, fuel - 1);
      assert item.Items() == [item.Item()] + item.Advance().Items();
    }
  }

  /** A pass with one iterator left emits its item. */
  lemma LoneStep<K, V>(ops: Ops<K, V>, item: Cursor<K, V>, list: Cursor<K, V>)
    requires item.HasItem() != list.HasItem()
    ensures var i := if item.HasItem() then 0 else 1;
            InnerStep(ops, [item, list]) == ([item, list], At(i), true)
    ensures list.HasItem() ==> Consume([item, list], At(1)) == [item, list.Advance()]
    ensures item.HasItem() ==> Consume([item, list], At(0)) == [item.Advance(), list]
  {
    hide Lowest;
    LowestOfTwo(ops, item, list);
  }

  /** The heap of a two-layer merger. */
  lemma LowestOfTwo<K, V>(ops: Ops<K, V>, item: Cursor<K, V>, list: Cursor<K, V>)
    ensures var cs := [item, list];
            && Lowest(ops, cs, {}) == (
                 if item.HasItem() && (!list.HasItem() || !ops.less(list.Item().key, item.Item().key)) then 0
                 else if list.HasItem() then 1 else -1)
            && Lowest(ops, cs, {0}) == (if list.HasItem() then 1 else -1)
            && Lowest(ops, cs, {1}) == (if item.HasItem() then 0 else -1)
  {
    assert [item, list][..1] == [item] && [item][..0] == [];
    forall out: set<nat> ensures Lowest(ops, [item], out) == if 0 in out || !item.HasItem() then -1 else 0 {
      assert Lowest(ops, [item][..0], out) == -1;
    }
  }

  /** What a merge result with the list's item on the left, or on the right, does to the two
      iterators. */
  function AfterMerge<K, V>(result: MergeResult<K, V>, left: Cursor<K, V>, right: Cursor<K, V>)
    : (Option<Item<K, V>>, Cursor<K, V>, Cursor<K, V>)
    requires left.HasItem() && right.HasItem()
  {
    match result
    case EmitLeft => (Some(left.Item()), left.Advance(), right)
    case Other(emit, l, r) => (emit, left.Apply(l), right.Apply(r))
  }

  /** One pass of a two-layer merger when the list's item comes first. */
  lemma ListFirst<K, V>(ops: Ops<K, V>, item: Cursor<K, V>, list: Cursor<K, V>,
                        fuel: nat) returns (out: seq<Item<K, V>>)
    requires MergeAll(ops, [item, list], fuel).Some? && item.HasItem() && list.HasItem()
    requires ops.less(list.Item().key, item.Item().key)
    ensures fuel > 0
    ensures var (emit, list', item') := AfterMerge(ops.merge(list.Item(), 1, item.Item(), 0), list, item);
            && MergeAll(ops, [item', list'], fuel - 1) == Some(out)
            && MergeAll(ops, [item, list], fuel).value == (if emit.Some? then [emit.value] else []) + out
  {
    hide Lowest;
    LowestOfTwo(ops, item, list);
    var (emit, list', item') := AfterMerge(ops.merge(list.Item(), 1, item.Item(), 0), list, item);
    var cs := [item, list];
    var (cs', current, done) := InnerStep(ops, cs);
    assert Consume(cs', current) == [item', list'];
    out := MergeAll(ops, Consume(cs', current), fuel - 1).value;
    assert [] + out == out;
  }

  /** One pass when the item being merged in comes first. */
  lemma ItemFirst<K, V>(ops: Ops<K, V>, item: Cursor<K, V>, list: Cursor<K, V>,
                        fuel: nat) returns (out: seq<Item<K, V>>)
    requires MergeAll(ops, [item, list], fuel).Some? && item.HasItem() && list.HasItem()
    requires !ops.less(list.Item().key, item.Item().key)
    ensures fuel > 0
    ensures var (emit, item', list') := AfterMerge(ops.merge(item.Item(), 0, list.Item(), 1), item, list);
            && MergeAll(ops, [item', list'], fuel - 1) == Some(out)
            && MergeAll(ops, [item, list], fuel).value == (if emit.Some? then [emit.value] else []) + out
  {
    hide Lowest;
    LowestOfTwo(ops, item, list);
    var (emit, item', list') := AfterMerge(ops.merge(item.Item(), 0, list.Item(), 1), item, list);
    var cs := [item, list];
    var (cs', current, done) := InnerStep(ops, cs);
    assert Consume(cs', current) == [item', list'];
    out := MergeAll(ops, Consume(cs', current), fuel - 1).value;
    assert [] + out == out;
  }

  /** The `Keep`, `Discard` and `Replace` cases for the list's side: an item that is in the list is
      erased when it is discarded or replaced. */
  method ApplyToList<K(!new), V(!new)>(list: CursorList<K, V>, m: MergeItem<K, V>, op: ItemOp<K, V>,
                                       ghost c: Cursor<K, V>)
    returns (m': MergeItem<K, V>)
    requires IsCursor(c, m, list.after) && c.HasItem()
    modifies list
    ensures list.before == old(list.before) && IsCursor(c.Apply(op), m', list.after)
  {
    match op {
      case Keep => m' := m;
      case Discard =>
        if m.FromList? { list.Erase(); }
        m' := if list.after != [] then FromList else NoItem;
      case Replace(item) =>
        if m.FromList? { list.Erase(); }
        m' := Own(item);
    }
  }

  /** The list's side of the merge as a merger would hold it. */
  ghost predicate IsCursor<K(!new), V(!new)>(c: Cursor<K, V>, m: MergeItem<K, V>, after: seq<Item<K, V>>)
  {
    && c.rest == after
    && match m
       case NoItem => c.own == None && after == []
       case Own(item) => c.own == Some(item)
       case FromList => c.own == None && after != []
  }

  function ApplyToItem<K, V>(m: MergeItem<K, V>, op: ItemOp<K, V>): MergeItem<K, V>
  {
    match op
    case Keep => m
    case Discard => NoItem
    case Replace(item) => Own(item)
  }

  /** The item being merged in as a merger would hold it. */
  ghost predicate IsItem<K(!new), V(!new)>(c: Cursor<K, V>, m: MergeItem<K, V>)
  {
    !m.FromList? && c.Items() == if m.Own? then [m.item] else []
  }

  /** The branch of the loop with the list's item on the left. */
  method PassListFirst<K(!new), V(!new)>(list: CursorList<K, V>, m: MergeItem<K, V>, n: Item<K, V>, ops: Ops<K, V>,
                                         ghost c0: Cursor<K, V>, ghost c1: Cursor<K, V>, ghost fuel: nat)
    returns (m': MergeItem<K, V>, n': MergeItem<K, V>, ghost emitted: seq<Item<K, V>>, ghost c0': Cursor<K, V>,
             ghost c1': Cursor<K, V>, ghost out: seq<Item<K, V>>)
    requires IsCursor(c1, m, list.after) && c1.HasItem() && IsItem(c0, Own(n))
    requires MergeAll(ops, [c0, c1], fuel).Some? && ops.less(c1.Item().key, n.key)
    modifies list
    ensures list.before == old(list.before) + emitted && IsCursor(c1', m', list.after) && IsItem(c0', n')
    ensures !n'.FromList?
    ensures fuel > 0 && MergeAll(ops, [c0', c1'], fuel - 1) == Some(out)
    ensures MergeAll(ops, [c0, c1], fuel).value == emitted + out
  {
    hide MergeAll, Lowest;
    out := ListFirst(ops, c0, c1, fuel);
    var current := if m.Own? then m.item else list.after[0];
    emitted := [];
    match ops.merge(current, 1, n, 0) {
      case EmitLeft =>
        if m.Own? {
          list.Insert(m.item);
        } else {
          list.Advance();
        }
        m' := if list.after != [] then FromList else NoItem;
        n' := Own(n);
        emitted, c0', c1' := [current], c0, c1.Advance();
      case Other(emit, left, right) =>
        if emit.Some? {
          list.Insert(emit.value);
          emitted := [emit.value];
        }
        m' := ApplyToList(list, m, left, c1);
        n' := ApplyToItem(Own(n), right);
        c0', c1' := c0.Apply(right), c1.Apply(left);
    }
  }

  /** The branch with the item being merged in on the left; `stop` is the `break`. */
  method PassItemFirst<K(!new), V(!new)>(list: CursorList<K, V>, m: MergeItem<K, V>, n: Item<K, V>, ops: Ops<K, V>,
                                         ghost c0: Cursor<K, V>, ghost c1: Cursor<K, V>, ghost fuel: nat)
    returns (m': MergeItem<K, V>, n': MergeItem<K, V>, stop: bool, ghost emitted: seq<Item<K, V>>,
             ghost c0': Cursor<K, V>, ghost c1': Cursor<K, V>, ghost out: seq<Item<K, V>>)
    requires IsCursor(c1, m, list.after) && c1.HasItem() && IsItem(c0, Own(n))
    requires MergeAll(ops, [c0, c1], fuel).Some? && !ops.less(c1.Item().key, n.key)
    modifies list
    ensures list.before == old(list.before) + emitted && IsCursor(c1', m', list.after) && IsItem(c0', n')
    ensures !n'.FromList?
    ensures fuel > 0 && (!stop ==> MergeAll(ops, [c0', c1'], fuel - 1) == Some(out))
    ensures stop ==> n'.Own? && out == [n'.item] + c1'.Items()
    ensures MergeAll(ops, [c0, c1], fuel).value == emitted + out
  {
    hide MergeAll, Lowest;
    out := ItemFirst(ops, c0, c1, fuel);
    var current := if m.Own? then m.item else list.after[0];
    emitted, stop := [], false;
    match ops.merge(n, 0, current, 1) {
      case EmitLeft =>
        OnlyList(ops, c0.Advance(), c1, fuel - 1);
        m', n', stop, c0', c1', out := m, Own(n), true, c0, c1, [n] + out;
      case Other(emit, left, right) =>
        if emit.Some? {
          list.Insert(emit.value);
          emitted := [emit.value];
        }
        n' := ApplyToItem(Own(n), left);
        m' := ApplyToList(list, m, right, c1);
        c0', c1' := c0.Apply(left), c1.Apply(right);
    }
  }

  /** One pass of the loop. */
  method Pass<K(!new), V(!new)>(list: CursorList<K, V>, m: MergeItem<K, V>, n: Item<K, V>, ops: Ops<K, V>,
                                ghost c0: Cursor<K, V>, ghost c1: Cursor<K, V>, ghost fuel: nat)
    returns (m': MergeItem<K, V>, n': MergeItem<K, V>, stop: bool, ghost emitted: seq<Item<K, V>>,
             ghost c0': Cursor<K, V>, ghost c1': Cursor<K, V>, ghost out: seq<Item<K, V>>)
    requires IsCursor(c1, m, list.after) && !m.NoItem? && IsItem(c0, Own(n)) && MergeAll(ops, [c0, c1], fuel).Some?
    modifies list
    ensures list.before == old(list.before) + emitted && IsCursor(c1', m', list.after) && IsItem(c0', n')
    ensures !n'.FromList?
    ensures fuel > 0 && (!stop ==> MergeAll(ops, [c0', c1'], fuel - 1) == Some(out))
    ensures stop ==> out == c0'.Items() + c1'.Items()
    ensures MergeAll(ops, [c0, c1], fuel).value == emitted + out
  {
    hide MergeAll, Lowest;
    var current := if m.Own? then m.item else list.after[0];
    if ops.less(current.key, n.key) {
      m', n', emitted, c0', c1', out := PassListFirst(list, m, n, ops, c0, c1, fuel);
      stop := false;
    } else {
      m', n', stop, emitted, c0', c1', out := PassItemFirst(list, m, n, ops, c0, c1, fuel);
    }
  }

  /** Whatever is left when the loop ends is put in place in the right order. */
  method Finish<K(!new), V(!new)>(list: CursorList<K, V>, m: MergeItem<K, V>, n: MergeItem<K, V>,
                                  ghost c0: Cursor<K, V>, ghost c1: Cursor<K, V>)
    requires IsCursor(c1, m, list.after) && IsItem(c0, n)
    modifies list
    ensures list.before + list.after == old(list.before) + (c0.Items() + c1.Items())
  {
    if n.Own? {
      list.Insert(n.item);
    }
    if m.Own? {
      list.Insert(m.item);
    }
  }

  /** A merger with at most one iterator left. */
  lemma LastIterator<K(!new), V(!new)>(ops: Ops<K, V>, m: MergeItem<K, V>, n: MergeItem<K, V>, c0: Cursor<K, V>,
                                       c1: Cursor<K, V>, after: seq<Item<K, V>>, fuel: nat)
    requires IsCursor(c1, m, after) && IsItem(c0, n) && (m.NoItem? || n.NoItem?) && MergeAll(ops, [c0, c1], fuel).Some?
    ensures MergeAll(ops, [c0, c1], fuel).value == c0.Items() + c1.Items()
  {
    hide MergeAll;
    if n.NoItem? { OnlyList(ops, c0, c1, fuel); } else { OnlyItem(ops, c0, c1, fuel); }
  }

  lemma Starts<K(!new), V(!new)>(item: Item<K, V>, after: seq<Item<K, V>>)
    ensures Opened([[item], after]) == [Cursor(None, [item]), Cursor(None, after)]
    ensures IsCursor(Cursor(None, after), if after != [] then FromList else NoItem, after)
    ensures IsItem(Cursor(None, [item]), Own(item))
  {
  }

  /** `merge_into`.  The merge function must let a merger over the same items halt.  Afterwards the
      list is the part before the starting position followed by exactly what a merger over the
      item as layer 0 and the rest of the list as layer 1 yields. */
  method Run<K(!new), V(!new)>(list: CursorList<K, V>, item: Item<K, V>, ops: Ops<K, V>, ghost fuel: nat)
    requires MergeAll(ops, Opened([[item], list.after]), fuel).Some?
    modifies list
    ensures list.before + list.after == old(list.before) + MergeAll(ops, Opened([[item], old(list.after)]), fuel).value
  {
    hide MergeAll, Lowest, IsCursor, IsItem, Opened, Cursor.Items;
    var m: MergeItem<K, V>, n: MergeItem<K, V> := (if list.after != [] then FromList else NoItem), Own(item);
    ghost var c0, c1: Cursor<K, V> := Cursor(None, [item]), Cursor(None, list.after);
    Starts(item, list.after);
    ghost var all := MergeAll(ops, [c0, c1], fuel).value;
    ghost var emitted: seq<Item<K, V>>, out, left := [], all, fuel;
    var stop := false;
    while !stop && !m.NoItem? && n.Own?
      invariant list.before == old(list.before) + emitted && all == emitted + out
      invariant IsCursor(c1, m, list.after) && IsItem(c0, n) && !n.FromList?
      invariant if stop then out == c0.Items() + c1.Items() else MergeAll(ops, [c0, c1], left) == Some(out)
      decreases left, !stop
    {
      ghost var e;
      m, n, stop, e, c0, c1, out := Pass(list, m, n.item, ops, c0, c1, left);
      emitted, left := emitted + e, left - 1;
    }
    if !stop { LastIterator(ops, m, n, c0, c1, list.after, left); }
    Finish(list, m, n, c0, c1);
  }
}
