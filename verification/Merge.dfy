/** The k-way merger of the LSM tree (src/lsm_tree/merge.rs): lazy consultation of layers, the
    merge function protocol and the iterator built on them. */
module Merge {
  import opened LsmTypes

  datatype ItemOp<+K, +V> = Keep | Discard | Replace(item: Item<K, V>)

  datatype MergeResult<+K, +V> =
    | EmitLeft
    | Other(emit: Option<Item<K, V>>, left: ItemOp<K, V>, right: ItemOp<K, V>)

  /** What the merger is parameterised by: `less` is the strict part of `cmp_lower_bound`, `before`
      says that a key lies before a bound in the sense of `cmp_upper_bound`, `nextKey` is
      `next_key`, and `merge` the merge function, given both items and their layer indices. */
  datatype Ops<!K, !V> = Ops(less: (K, K) -> bool, before: (K, Bound<K>) -> bool, nextKey: K -> Option<K>,
                             merge: (Item<K, V>, nat, Item<K, V>, nat) -> MergeResult<K, V>)

  /** `MergeLayerIterator`: an item of its own (`MergeItem::Item`) or the position of the
      underlying iterator (`MergeItem::Iter`), and what that iterator has left. */
  datatype Cursor<+K, +V> = Cursor(own: Option<Item<K, V>>, rest: seq<Item<K, V>>) {
    predicate HasItem() { own.Some? || rest != [] }

    function Item(): Item<K, V>
      requires HasItem()
    {
      if own.Some? then own.value else rest[0]
    }

    function Advance(): (c: Cursor<K, V>)
      requires HasItem()
      ensures c.Items() == Items()[1..] && c.own == None
    {
      if own.Some? then Cursor(None, rest) else Cursor(None, rest[1..])
    }

    /** `maybe_advance` followed by `update_item`. */
    function Apply(op: ItemOp<K, V>): (c: Cursor<K, V>)
      requires HasItem()
      ensures op.Replace? ==> c.Items() == [op.item] + Items()[1..]
    {
      match op
      case Keep => this
      case Discard => Advance()
      case Replace(item) => Cursor(Some(item), Advance().rest)
    }

    /** All the items still to come. */
    function Items(): (s: seq<Item<K, V>>)
      ensures if HasItem() then s != [] && s[0] == Item() else s == []
    {
      (if own.Some? then [own.value] else []) + rest
    }
  }

  /** The layer at the top of the heap among those not in `out`: lowest key first and, for equal
      keys, lowest layer first; -1 if there is none. */
  function Lowest<K, V>(ops: Ops<K, V>, cs: seq<Cursor<K, V>>, out: set<nat>): (l: int)
    ensures -1 <= l < |cs| && (l >= 0 ==> l !in out && cs[l].HasItem())
  {
    if cs == [] then -1
    else
      var i := |cs| - 1;
      var r := Lowest(ops, cs[..i], out);
      if i in out || !cs[i].HasItem() then r
      else if r == -1 || ops.less(cs[i].Item().key, cs[r].Item().key) then i
      else r
  }

  datatype Current<+K, +V> = Nothing | Emitted(item: Item<K, V>) | At(layer: nat)

  /** `MergerIterator`: `cs` are the iterators of the layers consulted so far; the others are
      pending.  All consulted layers with an item are in the heap, except that of the current item. */
  datatype Merger<+K, +V> = Merger(layers: seq<seq<Item<K, V>>>, cs: seq<Cursor<K, V>>, current: Current<K, V>) {
    predicate Ok() { |cs| <= |layers| && (current.At? ==> current.layer < |cs| && cs[current.layer].HasItem()) }

    function Get(): Option<Item<K, V>>
      requires Ok()
    {
      match current
      case Nothing => None
      case Emitted(item) => Some(item)
      case At(l) => Some(cs[l].Item())
    }
  }

  /** One pass of the inner loop of `advance_impl`; the flag says that it ends the loop. */
  function InnerStep<K, V>(ops: Ops<K, V>, cs: seq<Cursor<K, V>>): (r: (seq<Cursor<K, V>>, Current<K, V>, bool))
    ensures |r.0| == |cs| && (r.1.At? ==> r.1.layer < |cs| && r.0[r.1.layer].HasItem() && r.2)
  {
    var l := Lowest(ops, cs, {});
    if l == -1 then (cs, Nothing, true)
    else
      var s := Lowest(ops, cs, {l});
      if s == -1 then (cs, At(l), true)
      else
        match ops.merge(cs[l].Item(), l, cs[s].Item(), s)
        case EmitLeft => (cs, At(l), true)
        case Other(emit, left, right) =>
          var cs' := cs[l := cs[l].Apply(left)][s := cs[s].Apply(right)];
          if emit.Some? then (cs', Emitted(emit.value), true) else (cs', Nothing, false)
  }

  /** The inner loop, for merge functions that let it end within `fuel` passes. */
  function Inner<K, V>(ops: Ops<K, V>, cs: seq<Cursor<K, V>>,
                       fuel: nat): (r: Option<(seq<Cursor<K, V>>, Current<K, V>)>)
    ensures r.Some? ==> |r.value.0| == |cs|
    ensures r.Some? && r.value.1.At? ==> r.value.1.layer < |cs| && r.value.0[r.value.1.layer].HasItem()
    decreases fuel
  {
    if fuel == 0 then None
    else
      var (cs', current, done) := InnerStep(ops, cs);
      if done then Some((cs', current)) else Inner(ops, cs', fuel - 1)
  }

  /** `advance_impl`: as above, skipping items that lie before `bound`. */
  function AdvanceImpl<K, V>(ops: Ops<K, V>, cs: seq<Cursor<K, V>>, bound: Bound<K>, fuel: nat)
    : (r: Option<(seq<Cursor<K, V>>, Current<K, V>)>)
    ensures r.Some? ==> |r.value.0| == |cs|
    ensures r.Some? && r.value.1.At? ==> r.value.1.layer < |cs| && r.value.0[r.value.1.layer].HasItem()
    decreases fuel
  {
    if fuel == 0 then None
    else
      match Inner(ops, cs, fuel)
      case None => None
      case Some((cs', Nothing)) => Some((cs', Nothing))
      case Some((cs', Emitted(item))) =>
        if ops.before(item.key, bound) then AdvanceImpl(ops, cs', bound, fuel - 1) else Some((cs', Emitted(item)))
      case Some((cs', At(l))) =>
        if ops.before(cs'[l].Item().key, bound) then AdvanceImpl(ops, cs'[l := cs'[l].Advance()], bound, fuel - 1)
        else Some((cs', At(l)))
  }

  /** `needs_more_iterators`; `out` is the layer that is not in the heap. */
  predicate NeedsMore<K, V>(ops: Ops<K, V>, layers: seq<seq<Item<K, V>>>, cs: seq<Cursor<K, V>>, out: set<nat>,
                            nextKey: Option<K>)
  {
    && |cs| < |layers|
    && var l := Lowest(ops, cs, out);
       l == -1 || nextKey.None? || ops.less(nextKey.value, cs[l].Item().key)
  }

  /** `Layer::seek`: what is left of a layer from the first item not before the bound. */
  function SeekLayer<K, V>(ops: Ops<K, V>, layer: seq<Item<K, V>>, bound: Bound<K>): seq<Item<K, V>>
  {
    if layer == [] || !ops.before(layer[0].key, bound) then layer else SeekLayer(ops, layer[1..], bound)
  }

  /** `push_iterators`. */
  function Push<K, V>(ops: Ops<K, V>, layers: seq<seq<Item<K, V>>>, cs: seq<Cursor<K, V>>, out: set<nat>,
                      nextKey: Option<K>, bound: Bound<K>): (r: seq<Cursor<K, V>>)
    requires |cs| <= |layers|
    ensures cs <= r && |r| <= |layers|
    ensures !NeedsMore(ops, layers, r, out, nextKey)
    ensures forall i :: |cs| <= i < |r| ==> r[i] == Cursor(None, SeekLayer(ops, layers[i], bound))
    decreases |layers| - |cs|
  {
    if NeedsMore(ops, layers, cs, out, nextKey) then
      Push(ops, layers, cs + [Cursor(None, SeekLayer(ops, layers[|cs|], bound))], out, nextKey, bound)
    else cs
  }

  /** `MergerIterator::seek`. */
  function Seek<K, V>(ops: Ops<K, V>, layers: seq<seq<Item<K, V>>>, bound: Bound<K>, fuel: nat)
    : (r: Option<Merger<K, V>>)
    requires !bound.Excluded?
    ensures r.Some? ==> r.value.Ok() && r.value.layers == layers
  {
    var nextKey := if bound.Included? then Some(bound.key) else None;
    var cs := Push(ops, layers, [], {}, nextKey, bound);
    match AdvanceImpl(ops, cs, bound, fuel)
    case None => None
    case Some((cs', current)) => Some(Merger(layers, cs', current))
  }

  /** The key to look for next and the bound to search further layers with. */
  function NextSearch<K, V>(ops: Ops<K, V>, m: Merger<K, V>): (Option<K>, Bound<K>)
    requires m.Ok()
  {
    if |m.cs| < |m.layers| && m.Get().Some? then
      match ops.nextKey(m.Get().value.key)
      case None => (None, Excluded(m.Get().value.key))
      case Some(k) => (Some(k), Included(k))
    else (None, Unbounded)
  }

  /** The part of `advance` before `advance_impl`: the current iterator moves on, and further
      layers are consulted unless its next item is known to be the next one. */
  function Prepare<K, V>(ops: Ops<K, V>, m: Merger<K, V>): (r: seq<Cursor<K, V>>)
    requires m.Ok()
    ensures |m.cs| <= |r| <= |m.layers|
  {
    var (nextKey, bound) := NextSearch(ops, m);
    if m.current.At? then
      var l := m.current.layer;
      var moved := m.cs[l].Advance();
      if NeedsMore(ops, m.layers, m.cs, {l}, nextKey) then
        if nextKey.Some? && moved.HasItem() && !ops.less(nextKey.value, moved.Item().key) then m.cs[l := moved]
        else Push(ops, m.layers, m.cs[l := Cursor(Some(m.cs[l].Item()), moved.rest)], {l}, nextKey, bound)
      else m.cs[l := moved]
    else Push(ops, m.layers, m.cs, {}, nextKey, bound)
  }

  /** `MergerIterator::advance`. */
  function Advance<K, V>(ops: Ops<K, V>, m: Merger<K, V>, fuel: nat): (r: Option<Merger<K, V>>)
    requires m.Ok()
    ensures r.Some? ==> r.value.Ok() && r.value.layers == m.layers
  {
    match AdvanceImpl(ops, Prepare(ops, m), NextSearch(ops, m).1, fuel)
    case None => None
    case Some((cs', current)) => Some(Merger(m.layers, cs', current))
  }

  // ---- Merging everything ----

  /** The iterators after the caller has seen the current item. */
  function Consume<K, V>(cs: seq<Cursor<K, V>>, current: Current<K, V>): (r: seq<Cursor<K, V>>)
    requires current.At? ==> current.layer < |cs| && cs[current.layer].HasItem()
    ensures |r| == |cs|
  {
    if current.At? then cs[current.layer := cs[current.layer].Advance()] else cs
  }

  function CurrentItem<K, V>(cs: seq<Cursor<K, V>>, current: Current<K, V>): (r: Option<Item<K, V>>)
    requires current.At? ==> current.layer < |cs| && cs[current.layer].HasItem()
  {
    match current
    case Nothing => None
    case Emitted(item) => Some(item)
    case At(l) => Some(cs[l].Item())
  }

  /** Everything a merger over all of `cs` yields, pass by pass; None if `fuel` passes do not
      suffice. */
  function MergeAll<K, V>(ops: Ops<K, V>, cs: seq<Cursor<K, V>>, fuel: nat): (r: Option<seq<Item<K, V>>>)
    decreases fuel
  {
    if Lowest(ops, cs, {}) == -1 then Some([])
    else if fuel == 0 then None
    else
      var (cs', current, done) := InnerStep(ops, cs);
      match MergeAll(ops, Consume(cs', current), fuel - 1)
      case None => None
      case Some(out) => Some(match CurrentItem(cs', current) case None => out case Some(item) => [item] + out)
  }

  /** The items a caller sees by repeatedly advancing from the current item to the end. */
  function Collect<K, V>(ops: Ops<K, V>, m: Merger<K, V>, fuel: nat, steps: nat): (r: Option<seq<Item<K, V>>>)
    requires m.Ok()
    decreases steps
  {
    match m.Get()
    case None => Some([])
    case Some(item) =>
      if steps == 0 then None
      else
        match Advance(ops, m, fuel)
        case None => None
        case Some(m') =>
          match Collect(ops, m', fuel, steps - 1)
          case None => None
          case Some(out) => Some([item] + out)
  }

  function Opened<K, V>(layers: seq<seq<Item<K, V>>>): (cs: seq<Cursor<K, V>>)
    ensures |cs| == |layers| && forall i :: 0 <= i < |cs| ==> cs[i] == Cursor(None, layers[i])
  {
    seq(|layers|, i requires 0 <= i < |layers| => Cursor(None, layers[i]))
  }

  /** The inner loop reaches the next item `MergeAll` yields. */
  lemma {:induction false} InnerYields<K, V>(ops: Ops<K, V>, cs: seq<Cursor<K, V>>, fuel: nat, more: nat)
    requires MergeAll(ops, cs, fuel).Some? && more > fuel
    ensures Inner(ops, cs, more).Some?
    ensures var (cs', current) := Inner(ops, cs, more).value;
            var out := MergeAll(ops, cs, fuel).value;
            if current == Nothing then out == []
            else out != [] && Some(out[0]) == CurrentItem(cs', current)
                 && exists f: nat :: f <= fuel && MergeAll(ops, Consume(cs', current), f) == Some(out[1..])
    decreases fuel
  {
    hide Lowest;
    var (cs', current, done) := InnerStep(ops, cs);
    if Lowest(ops, cs, {}) == -1 {
    } else if done {
      assert MergeAll(ops, Consume(cs', current), fuel - 1) == Some(MergeAll(ops, cs, fuel).value[1..]);
    } else {
      InnerYields(ops, cs', fuel - 1, more - 1);
    }
  }

  /** With every layer consulted from its start, seeking and advancing yields exactly what
      `MergeAll` says. */
  lemma MergerYieldsAll<K, V>(ops: Ops<K, V>, layers: seq<seq<Item<K, V>>>, fuel: nat)
    requires MergeAll(ops, Opened(layers), fuel).Some?
    requires forall k :: !ops.before(k, Unbounded)
    ensures Seek(ops, layers, Unbounded, fuel + 1).Some?
    ensures var out := MergeAll(ops, Opened(layers), fuel).value;
            Collect(ops, Seek(ops, layers, Unbounded, fuel + 1).value, fuel + 1, |out|) == Some(out)
  {
    hide MergeAll, Inner;
    var cs := Push(ops, layers, [], {}, None, Unbounded);
    assert cs == Opened(layers) by {
      hide Lowest;
      forall i | 0 <= i < |cs| ensures cs[i] == Cursor(None, layers[i]) {
        assert SeekLayer(ops, layers[i], Unbounded) == layers[i];
      }
    }
    InnerYields(ops, cs, fuel, fuel + 1);
    var (cs', current) := Inner(ops, cs, fuel + 1).value;
    var out := MergeAll(ops, cs, fuel).value;
    assert AdvanceImpl(ops, cs, Unbounded, fuel + 1) == Some((cs', current));
    if current != Nothing {
      var f: nat :| f <= fuel && MergeAll(ops, Consume(cs', current), f) == Some(out[1..]);
      CollectYields(ops, Merger(layers, cs', current), f, fuel, out);
    }
  }

  /** Once all layers are consulted, advancing only moves the current iterator. */
  lemma PrepareAll<K, V>(ops: Ops<K, V>, m: Merger<K, V>)
    requires m.Ok() && |m.cs| == |m.layers|
    ensures Prepare(ops, m) == Consume(m.cs, m.current) && NextSearch(ops, m).1 == Unbounded
  {
  }

  lemma {:induction false} CollectYields<K, V>(ops: Ops<K, V>, m: Merger<K, V>, f: nat, fuel: nat, out: seq<Item<K, V>>)
    requires m.Ok() && |m.cs| == |m.layers| && m.current != Nothing && f <= fuel
    requires forall k :: !ops.before(k, Unbounded)
    requires out != [] && m.Get() == Some(out[0]) && MergeAll(ops, Consume(m.cs, m.current), f) == Some(out[1..])
    ensures Collect(ops, m, fuel + 1, |out|) == Some(out)
    decreases |out|
  {
    hide Lowest, MergeAll, Inner, Prepare;
    var cs := Consume(m.cs, m.current);
    PrepareAll(ops, m);
    InnerYields(ops, cs, f, fuel + 1);
    var (cs', current) := Inner(ops, cs, fuel + 1).value;
    assert AdvanceImpl(ops, cs, Unbounded, fuel + 1) == Some((cs', current));
    var m' := Merger(m.layers, cs', current);
    assert Advance(ops, m, fuel + 1) == Some(m');
    if current == Nothing {
      assert out == [out[0]] + [] && Collect(ops, m', fuel + 1, |out| - 1) == Some([]);
    } else {
      var g: nat :| g <= f && MergeAll(ops, Consume(cs', current), g) == Some(out[1..][1..]);
      CollectYields(ops, m', g, fuel, out[1..]);
      assert out == [out[0]] + out[1..];
    }
  }

  // ---- The same as an object ----

  /** The iterator with its heap and stack of pending layers.  The merge function is required to
      let the loops end, within `fuel` passes, wherever a method runs them. */
  class MergerIterator<K(!new, ==), V(!new, ==)> {
    const ops: Ops<K, V>
    const layers: seq<seq<Item<K, V>>>
    var cs: seq<Cursor<K, V>>         // iterators of the layers taken from the pending stack
    var heap: set<nat>
    var current: Current<K, V>

    ghost predicate Valid()
      reads this
    {
      && State().Ok()
      && HeapIs(if current.At? then {current.layer} else {})
    }

    ghost function State(): Merger<K, V>
      reads this
    {
      Merger(layers, cs, current)
    }

    constructor (ops: Ops<K, V>, layers: seq<seq<Item<K, V>>>)
      ensures Valid() && State() == Merger(layers, [], Nothing) && this.ops == ops
    {
      this.ops := ops;
      this.layers := layers;
      cs, heap, current := [], {}, Nothing;
    }

    /** `BinaryHeap::peek`: the lowest of the layers in the heap. */
    method Peek(ghost out: set<nat>) returns (l: int)
      requires HeapIs(out)
      ensures l == Lowest(ops, cs, out) && (l == -1 <==> heap == {}) && (l >= 0 ==> l in heap)
    {
      l := -1;
      var i := 0;
      while i < |cs|
        invariant 0 <= i <= |cs| && -1 <= l < i
        invariant l == Lowest(ops, cs[..i], out) && (l >= 0 ==> l in heap)
        invariant l == -1 ==> forall j :: 0 <= j < i ==> j !in heap
      {
        assert cs[..i + 1][..i] == cs[..i];
        if i in heap && (l == -1 || ops.less(cs[i].Item().key, cs[l].Item().key)) {
          l := i;
        }
        i := i + 1;
      }
      assert cs[..|cs|] == cs;
    }

    /** The heap holds the layers with an item, except those in `out`. */
    ghost predicate HeapIs(out: set<nat>)
      reads this`heap, this`cs
    {
      forall i: nat :: i in heap <==> i < |cs| && cs[i].HasItem() && i !in out
    }

    /** Puts an iterator back once its item has been dealt with. */
    method Update(i: nat, op: ItemOp<K, V>, ghost out: set<nat>)
      requires i < |cs| && cs[i].HasItem() && i in out && HeapIs(out)
      modifies this`cs, this`heap
      ensures cs == old(cs)[i := old(cs)[i].Apply(op)] && HeapIs(out - {i})
    {
      cs := cs[i := cs[i].Apply(op)];
      if cs[i].HasItem() {
        heap := heap + {i};
      }
    }

    /** Takes the lowest iterator off the heap. */
    method Pop(ghost out: set<nat>) returns (l: int)
      requires HeapIs(out)
      modifies this`heap
      ensures l == Lowest(ops, cs, out)
      ensures l == -1 ==> HeapIs(out)
      ensures l != -1 ==> 0 <= l < |cs| && cs[l].HasItem() && l !in out && HeapIs(out + {l})
    {
      hide Lowest;
      l := Peek(out);
      if l != -1 {
        heap := heap - {l};
      }
    }

    /** Puts an iterator back if it has an item. */
    method Restore(i: nat, ghost out: set<nat>)
      requires HeapIs(out) && i in out && i < |cs|
      modifies this`heap
      ensures HeapIs(out - {i})
    {
      if cs[i].HasItem() {
        heap := heap + {i};
      }
    }

    /** Changes an iterator that is not on the heap. */
    method Exchange(i: nat, c: Cursor<K, V>, ghost out: set<nat>)
      requires HeapIs(out) && i in out && i < |cs|
      modifies this`cs
      ensures cs == old(cs)[i := c] && HeapIs(out)
    {
      cs := cs[i := c];
    }

    /** One pass of the inner loop of `advance_impl`. */
    method MergeOnce() returns (done: bool)
      requires HeapIs({})
      modifies this`cs, this`heap, this`current
      ensures InnerStep(ops, old(cs)) == (cs, current, done)
      ensures HeapIs(if current.At? then {current.layer} else {})
    {
      hide Lowest, MergerIterator.HeapIs;
      current := Nothing;
      var lowest := Pop({});
      if lowest == -1 {
        return true;
      }
      assert {} + {lowest} == {lowest};
      var second := Pop({lowest});
      if second == -1 {
        current := At(lowest);
        return true;
      }
      ghost var both: set<nat> := {lowest} + {second};
      match ops.merge(cs[lowest].Item(), lowest, cs[second].Item(), second)
      case EmitLeft =>
        Restore(second, both);
        assert both - {second} == {lowest};
        current := At(lowest);
        return true;
      case Other(emit, left, right) =>
        Update(lowest, left, both);
        assert both - {lowest} == {second};
        Update(second, right, {second});
        assert {second} - {second} == {};
        if emit.Some? {
          current := Emitted(emit.value);
          return true;
        }
        return false;
    }

    /** The inner loop of `advance_impl`. */
    method MergeNext(ghost fuel: nat)
      requires HeapIs({}) && Inner(ops, cs, fuel).Some?
      modifies this`cs, this`heap, this`current
      ensures Inner(ops, old(cs), fuel) == Some((cs, current))
      ensures HeapIs(if current.At? then {current.layer} else {})
    {
      hide InnerStep;
      ghost var left := fuel;
      while true
        invariant HeapIs({}) && Inner(ops, cs, left) == Inner(ops, old(cs), fuel)
        decreases left
      {
        left := left - 1;
        var done := MergeOnce();
        if done {
          return;
        }
      }
    }

    /** `advance_impl`. */
    method SkipTo(bound: Bound<K>, ghost fuel: nat)
      requires HeapIs({}) && AdvanceImpl(ops, cs, bound, fuel).Some?
      modifies this`cs, this`heap, this`current
      ensures AdvanceImpl(ops, old(cs), bound, fuel) == Some((cs, current))
      ensures HeapIs(if current.At? then {current.layer} else {})
    {
      hide Inner;
      ghost var left := fuel;
      while true
        invariant HeapIs({}) && AdvanceImpl(ops, cs, bound, left) == AdvanceImpl(ops, old(cs), bound, fuel)
        decreases left
      {
        MergeNext(left);
        left := left - 1;
        match current {
          case Nothing => return;
          case Emitted(item) =>
            if !ops.before(item.key, bound) {
              return;
            }
          case At(layer) =>
            if !ops.before(cs[layer].Item().key, bound) {
              return;
            }
            Update(layer, Discard, {layer});
        }
      }
    }

    /** `push_iterators`. */
    method PushIterators(nextKey: Option<K>, bound: Bound<K>, ghost out: set<nat>)
      requires |cs| <= |layers| && HeapIs(out) && forall i :: i in out ==> i < |cs|
      modifies this`cs, this`heap
      ensures cs == Push(ops, layers, old(cs), out, nextKey, bound) && HeapIs(out)
    {
      hide Lowest, SeekLayer;
      while true
        invariant |cs| <= |layers| && HeapIs(out) && forall i :: i in out ==> i < |cs|
        invariant Push(ops, layers, cs, out, nextKey, bound) == Push(ops, layers, old(cs), out, nextKey, bound)
        decreases |layers| - |cs|
      {
        var top := Peek(out);
        if |cs| == |layers| || !(top == -1 || nextKey.None? || ops.less(nextKey.value, cs[top].Item().key)) {
          return;
        }
        PushOne(bound, out);
      }
    }

    /** Takes the next pending layer and puts its iterator on the heap. */
    method PushOne(bound: Bound<K>, ghost out: set<nat>)
      requires |cs| < |layers| && HeapIs(out) && forall i :: i in out ==> i < |cs|
      modifies this`cs, this`heap
      ensures cs == old(cs) + [Cursor(None, SeekLayer(ops, layers[|old(cs)|], bound))] && HeapIs(out)
    {
      hide SeekLayer;
      var iter := Cursor(None, SeekLayer(ops, layers[|cs|], bound));
      if iter.HasItem() {
        heap := heap + {|cs|};
      }
      cs := cs + [iter];
    }

    method SeekTo(bound: Bound<K>, ghost fuel: nat)
      requires Valid() && State() == Merger(layers, [], Nothing) && !bound.Excluded?
      requires Seek(ops, layers, bound, fuel).Some?
      modifies this
      ensures Valid() && Seek(ops, layers, bound, fuel) == Some(State())
    {
      PushIterators(if bound.Included? then Some(bound.key) else None, bound, {});
      SkipTo(bound, fuel);
    }

    /** The part of `advance` before `advance_impl`. */
    method PrepareNext(nextKey: Option<K>, bound: Bound<K>)
      requires Valid() && (nextKey, bound) == NextSearch(ops, State())
      modifies this`cs, this`heap, this`current
      ensures cs == Prepare(ops, old(State())) && HeapIs({})
    {
      hide Lowest, Push, NextSearch, MergerIterator.HeapIs;
      if current.At? {
        var l := current.layer;
        current := Nothing;
        var top := Peek({l});
        if |cs| < |layers| && (top == -1 || nextKey.None? || ops.less(nextKey.value, cs[top].Item().key)) {
          var existing := cs[l].Item();
          var moved := cs[l].Advance();
          if nextKey.Some? && moved.HasItem() && !ops.less(nextKey.value, moved.Item().key) {
            Exchange(l, moved, {l});
          } else {
            Exchange(l, Cursor(Some(existing), moved.rest), {l});
            PushIterators(nextKey, bound, {l});
          }
        } else {
          Exchange(l, cs[l].Advance(), {l});
        }
        Restore(l, {l});
        assert {l} - {l} == {};
      } else {
        current := Nothing;
        PushIterators(nextKey, bound, {});
      }
    }

    method Next(ghost fuel: nat)
      requires Valid() && Advance(ops, State(), fuel).Some?
      modifies this
      ensures Valid() && Advance(ops, old(State()), fuel) == Some(State())
    {
      hide Prepare, AdvanceImpl;
      var nextKey: Option<K>, bound: Bound<K> := None, Unbounded;
      if |cs| < |layers| && !current.Nothing? {
        var key := if current.At? then cs[current.layer].Item().key else current.item.key;
        nextKey := ops.nextKey(key);
        bound := if nextKey.Some? then Included(nextKey.value) else Excluded(key);
      }
      PrepareNext(nextKey, bound);
      SkipTo(bound, fuel);
    }
  }
}
