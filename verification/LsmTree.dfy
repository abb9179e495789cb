/** The LSM tree (src/lsm_tree.rs) with the choice of layers to compact (src/object_store/tree.rs),
    on point keys where the newest item of a key wins: a tree behaves like a map. */
module LsmTree {
  import opened LsmTypes
  import opened Merge
  import opened LazyMerge

  /** An item without a value is a tombstone. */
  type Items<V> = Layer<Option<V>>

  /** An immutable layer; only layers in files have a size. */
  datatype File<V> = File(items: Items<V>, size: Option<nat>)

  const DEFAULT_RECLAIM_SIZE: nat := 262_144

  function ItemsOf<V>(files: seq<File<V>>): (r: seq<Items<V>>)
    ensures |r| == |files| && forall i :: 0 <= i < |r| ==> r[i] == files[i].items
  {
    seq(|files|, i requires 0 <= i < |files| => files[i].items)
  }

  /** What a stack of layers, newest first, stores under a key. */
  ghost function Stored<V>(layers: seq<Items<V>>, key: int): Option<V>
  {
    Visible(Newest(layers, key))
  }

  function Visible<V>(item: Option<Item<int, Option<V>>>): Option<V>
  {
    if item.Some? then item.value.value else None
  }

  ghost function MapGet<V>(m: map<int, V>, key: int): Option<V> { if key in m then Some(m[key]) else None }

  function Fuel<V>(layers: seq<Items<V>>): nat { TotalItems(layers) + |layers| + 1 }

  function TotalItems<V>(layers: seq<Items<V>>): (r: nat)
    ensures r == Total(layers)
  {
    if layers == [] then 0 else |layers[0]| + TotalItems(layers[1..])
  }

  // ---- The mutable layer ----

  /** How many items are below the key. */
  function Position<V>(s: Items<V>, key: int): (k: nat)
    requires Sorted(s)
    ensures k <= |s| && (forall i :: 0 <= i < k ==> s[i].key < key) && (forall i :: k <= i < |s| ==> s[i].key >= key)
  {
    if s == [] || s[0].key >= key then 0 else 1 + Position(s[1..], key)
  }

  function Has<V>(s: Items<V>, key: int): bool
    requires Sorted(s)
  {
    var k := Position(s, key);
    k < |s| && s[k].key == key
  }

  function Put<V>(s: Items<V>, item: Item<int, Option<V>>): Items<V>
    requires Sorted(s)
  {
    var k := Position(s, item.key);
    s[..k] + [item] + s[if Has(s, item.key) then k + 1 else k..]
  }

  lemma PutLookup<V>(s: Items<V>, item: Item<int, Option<V>>)
    requires Sorted(s)
    ensures Sorted(Put(s, item))
    ensures forall key :: Lookup(Put(s, item), key) == if key == item.key then Some(item) else Lookup(s, key)
  {
    hide Lookup;
    var k := Position(s, item.key);
    var j := if Has(s, item.key) then k + 1 else k;
    forall key
      ensures Lookup(Put(s, item), key) == if key == item.key then Some(item) else Lookup(s, key)
    {
      LookupPut(s, k, j, item, key);
    }
    LookupPut(s, k, j, item, 0);
  }

  lemma PutStored<V>(mutable: Items<V>, rest: seq<Items<V>>, item: Item<int, Option<V>>)
    requires Sorted(mutable)
    ensures forall key :: Stored([Put(mutable, item)] + rest, key) == if key == item.key then item.value
            else Stored([mutable] + rest, key)
  {
    hide Lookup, Put;
    PutLookup(mutable, item);
    forall key
      ensures Stored([Put(mutable, item)] + rest, key) == if key == item.key then item.value
              else Stored([mutable] + rest, key)
    {
      assert ([Put(mutable, item)] + rest)[1..] == rest && ([mutable] + rest)[1..] == rest;
    }
  }

  // ---- Compaction ----

  /** What the writer is given: the merge of the layers, from the first key on. */
  function Merged<V>(layers: seq<Items<V>>): Option<Items<V>>
  {
    var fuel := Fuel(layers);
    match Seek(PointOps(), layers, Unbounded, fuel)
    case None => None
    case Some(m) => Collect(PointOps(), m, fuel, fuel)
  }

  lemma MergedIs<V>(layers: seq<Items<V>>)
    requires AllSorted(layers)
    ensures Merged(layers).Some? && Sorted(Merged(layers).value)
    ensures forall key :: Lookup(Merged(layers).value, key) == Newest(layers, key)
  {
    LazyMergeIsFullMerge(layers, Unbounded, Fuel(layers));
  }

  /** `major_iter`: drops tombstones. */
  function DropTombstones<V>(s: Items<V>): (r: Items<V>)
    ensures forall i :: 0 <= i < |r| ==> r[i] in s && r[i].value.Some?
  {
    if s == [] then [] else (if s[0].value.Some? then [s[0]] else []) + DropTombstones(s[1..])
  }

  lemma {:induction false} DropSorted<V>(s: Items<V>)
    requires Sorted(s)
    ensures Sorted(DropTombstones(s))
    decreases |s|
  {
    if s != [] { DropSorted(s[1..]); }
  }

  lemma {:induction false} DropLookup<V>(s: Items<V>, key: int)
    requires Sorted(s)
    ensures Visible(Lookup(DropTombstones(s), key)) == Visible(Lookup(s, key))
    decreases |s|
  {
    hide Lookup;
    DropSorted(s);
    if s == [] {
      LookupNone(s, key);
    } else {
      var rest := DropTombstones(s[1..]);
      DropLookup(s[1..], key);
      LookupTail(s, key);
      LookupAt(s, 0);
      if s[0].value.Some? {
        assert ([s[0]] + rest)[1..] == rest;
        LookupTail([s[0]] + rest, key);
        LookupAt([s[0]] + rest, 0);
      } else {
        assert [] + rest == rest;
        if key == s[0].key { LookupNone(rest, key); }
      }
    }
  }

  lemma NewestOne<V>(s: Items<V>, rest: seq<Items<V>>, key: int)
    ensures Newest([s] + rest, key) == if Lookup(s, key).Some? then Lookup(s, key) else Newest(rest, key)
  {
    assert ([s] + rest)[1..] == rest;
  }

  /** Replacing the newest layers by their merge changes nothing, whatever is kept below; and if
      nothing is kept, tombstones may go. */
  lemma CompactionKeeps<V>(compact: seq<Items<V>>, keep: seq<Items<V>>, key: int)
    requires AllSorted(compact)
    ensures Merged(compact).Some? && Stored([Merged(compact).value] + keep, key) == Stored(compact + keep, key)
    ensures keep == [] ==> Stored([DropTombstones(Merged(compact).value)] + keep, key) == Stored(compact + keep, key)
  {
    hide Lookup, Newest, Merged;
    MergedIs(compact);
    var m := Merged(compact).value;
    NewestConcat(compact, keep, key);
    NewestOne(m, keep, key);
    if keep == [] {
      NewestOne(DropTombstones(m), keep, key);
      DropLookup(m, key);
      NewestNone<Option<V>>([], key);
    }
  }

  /** The same below a mutable layer. */
  lemma CompactionBelow<V>(mutable: Items<V>, compact: seq<Items<V>>, keep: seq<Items<V>>)
    requires AllSorted(compact) && Merged(compact).Some?
    ensures var m := Merged(compact).value;
            var items := if keep == [] then DropTombstones(m) else m;
            forall key :: Stored([mutable] + ([items] + keep), key) == Stored([mutable] + (compact + keep), key)
  {
    hide Lookup, Newest, Merged, DropTombstones;
    var m := Merged(compact).value;
    var items := if keep == [] then DropTombstones(m) else m;
    forall key ensures Stored([mutable] + ([items] + keep), key) == Stored([mutable] + (compact + keep), key) {
      CompactionKeeps(compact, keep, key);
      NewestOne(mutable, compact + keep, key);
      NewestOne(mutable, [items] + keep, key);
    }
  }

  /** Dropping tombstones while an older layer is kept would bring deleted keys back. */
  lemma TombstonesAreNeeded<V>(v: V)
    ensures exists compact: seq<Items<V>>, keep: seq<Items<V>>, key: int ::
              && AllSorted(compact) && AllSorted(keep) && Merged(compact).Some?
              && Stored([DropTombstones(Merged(compact).value)] + keep, key) != Stored(compact + keep, key)
  {
    hide Lookup, Newest, Merged;
    var dead, live := Item(1, None, 2), Item(1, Some(v), 1);
    var compact: seq<Items<V>>, keep: seq<Items<V>> := [[dead]], [[live]];
    MergedIs(compact);
    var m := Merged(compact).value;
    LookupAt<Option<V>>([dead], 0);
    LookupAt<Option<V>>([live], 0);
    assert [[dead]] + [] == compact && [[live]] + [] == keep;
    NewestOne([dead], [], 1);
    NewestOne([live], [], 1);
    NewestOne(DropTombstones(m), keep, 1);
    NewestConcat(compact, keep, 1);
    DropLookup(m, 1);
    LookupDropped(m, 1);
    assert Newest(compact, 1) == Some(dead) && Newest(keep, 1) == Some(live);
    assert Lookup(DropTombstones(m), 1) == None;
    assert Stored([DropTombstones(m)] + keep, 1) == Some(v) && Stored(compact + keep, 1) == None;
    assert AllSorted(compact) && AllSorted(keep);
  }

  lemma LookupDropped<V>(s: Items<V>, key: int)
    ensures var d := Lookup(DropTombstones(s), key); d.Some? ==> d.value.value.Some?
  {
  }

  // ---- Which layers to compact ----

  /** Layers still in memory are newer than those in files. */
  ghost predicate MemoryFirst<V>(files: seq<File<V>>)
  {
    forall i, j :: 0 <= i < j < |files| && files[i].size.Some? ==> files[j].size.Some?
  }

  ghost function SizeSum<V>(files: seq<File<V>>): nat
  {
    if files == [] then 0
    else SizeSum(files[..|files| - 1]) + (if files[|files| - 1].size.Some? then files[|files| - 1].size.value else 0)
  }

  /** The layers before this one come to less than 3/4 of its size. */
  ghost predicate MuchBigger<V>(files: seq<File<V>>, i: nat)
    requires i < |files|
  {
    files[i].size.Some? && SizeSum(files[..i]) > 0 && SizeSum(files[..i]) * 4 < files[i].size.value * 3
  }

  ghost predicate InMemory<V>(files: seq<File<V>>) { forall i :: 0 <= i < |files| ==> files[i].size.None? }

  /** The first layer that is much bigger than what comes before it, or the end. */
  ghost predicate IsStop<V>(files: seq<File<V>>, n: nat)
  {
    n <= |files| && (n < |files| ==> MuchBigger(files, n)) && forall i :: 0 <= i < n ==> !MuchBigger(files, i)
  }

  /** The last of the first `n` layers is big and the only one of them in a file. */
  ghost predicate OneBig<V>(files: seq<File<V>>, n: nat)
    requires n <= |files|
  {
    && n > 0 && InMemory(files[..n - 1])
    && files[n - 1].size.Some? && files[n - 1].size.value > DEFAULT_RECLAIM_SIZE
  }

  /** How many of the newest layers to compact: those before the stop, except for one big layer. */
  ghost predicate IsSplit<V>(files: seq<File<V>>, split: nat)
  {
    exists n: nat :: IsStop(files, n) && split == if OneBig(files, n) then n - 1 else n
  }

  lemma StopUnique<V>(files: seq<File<V>>, m: nat, n: nat)
    requires IsStop(files, m) && IsStop(files, n)
    ensures m == n
  {
  }

  /** How many of the newest layers to compact.  It stops at the first layer that is much bigger
      than what comes before it; or, if all it found in files is one big layer, before that one. */
  method ChooseSplit<V>(files: seq<File<V>>) returns (split: nat)
    ensures IsSplit(files, split) && split <= |files|
    ensures MemoryFirst(files) ==> forall i :: split <= i < |files| ==> files[i].size.Some?
  {
    var total, count := 0, 0;
    split := |files|;
    ghost var first: nat := 0;        // the first layer in a file, if count > 0
    var i := 0;
    while i < |files|
      invariant 0 <= i <= |files| == split && total == SizeSum(files[..i])
      invariant forall j :: 0 <= j < i ==> !MuchBigger(files, j)
      invariant count == 0 ==> InMemory(files[..i]) && total == 0
      invariant count > 0 ==> first < i && files[first].size.Some? && InMemory(files[..first])
      invariant count > 1 ==> first < i - 1
      invariant count == 1 ==> total == files[first].size.value && forall j :: first < j < i ==> files[j].size.None?
    {
      assert files[..i + 1][..i] == files[..i];
      if files[i].size.Some? {
        var size := files[i].size.value;
        if total > 0 && total * 4 < size * 3 {
          split := i;
          break;
        }
        if count == 0 { first := i; }
        total := total + size;
        count := count + 1;
      }
      i := i + 1;
    }
    ghost var stop := split;
    assert IsStop(files, stop);
    if count == 1 && total > DEFAULT_RECLAIM_SIZE && files[split - 1].size.Some? {
      split := split - 1;
    }
    if count == 0 && stop > 0 { assert files[..stop][stop - 1].size.None?; }
    if count > 1 { assert files[..stop - 1][first].size.Some?; }
    assert split == if OneBig(files, stop) then stop - 1 else stop;
  }

  ghost function KeysOf<V>(layers: seq<Items<V>>): set<int>
  {
    if layers == [] then {} else (set i | 0 <= i < |layers[0]| :: layers[0][i].key) + KeysOf(layers[1..])
  }

  /** What a stack of layers stores, as a map. */
  ghost function MapOf<V>(layers: seq<Items<V>>): map<int, V>
  {
    map key | key in KeysOf(layers) && Stored(layers, key).Some? :: Stored(layers, key).value
  }

  lemma {:induction false} NewestKeys<V>(layers: seq<Items<V>>, key: int)
    requires Newest(layers, key).Some?
    ensures key in KeysOf(layers)
    decreases |layers|
  {
    if Lookup(layers[0], key).None? { NewestKeys(layers[1..], key); }
  }

  lemma MapOfIs<V>(layers: seq<Items<V>>)
    ensures forall key :: MapGet(MapOf(layers), key) == Stored(layers, key)
  {
    hide Lookup, Newest;
    forall key ensures MapGet(MapOf(layers), key) == Stored(layers, key) {
      if Stored(layers, key).Some? { NewestKeys(layers, key); }
    }
  }

  lemma SplitItems<V>(files: seq<File<V>>, split: nat)
    requires split <= |files|
    ensures ItemsOf(files) == ItemsOf(files[..split]) + ItemsOf(files[split..])
    ensures AllSorted(ItemsOf(files)) ==> AllSorted(ItemsOf(files[..split])) && AllSorted(ItemsOf(files[split..]))
  {
    hide Sorted;
    var a, b := ItemsOf(files[..split]), ItemsOf(files[split..]);
    assert ItemsOf(files) == a + b;
    assert forall i :: 0 <= i < |a| ==> a[i] == ItemsOf(files)[i];
    assert forall i :: 0 <= i < |b| ==> b[i] == ItemsOf(files)[split + i];
  }

  /** The layers after the first `split` have been replaced by one file. */
  lemma FlushedShape<V>(files: seq<File<V>>, split: nat, file: File<V>)
    requires split <= |files| && file.size.Some? && (forall i :: split <= i < |files| ==> files[i].size.Some?)
    requires Sorted(file.items) && AllSorted(ItemsOf(files[split..]))
    ensures var after := [file] + files[split..];
            && after[1..] == files[|files| + 1 - |after|..] && |after| == |files| + 1 - split
            && ItemsOf(after) == [file.items] + ItemsOf(files[split..]) && AllSorted(ItemsOf(after))
            && MemoryFirst(after) && forall i :: 0 <= i < |after| ==> after[i].size.Some?
  {
    hide Sorted;
    var after := [file] + files[split..];
    assert ItemsOf(after) == [file.items] + ItemsOf(files[split..]);
    forall i | 0 <= i < |after| ensures after[i].size.Some? { if i > 0 { assert after[i] == files[split + i - 1]; } }
  }

  /** The merge of `flush` over the layers to compact; tombstones go if nothing is kept below. */
  method Compact<V(!new)>(compact: seq<Items<V>>, keep: seq<Items<V>>, ghost mutable: Items<V>)
    returns (items: Option<Items<V>>)
    requires AllSorted(compact)
    ensures items.Some? && Sorted(items.value)
    ensures keep == [] ==> forall i :: 0 <= i < |items.value| ==> items.value[i].value.Some?
    ensures forall key ::
              Stored([mutable] + ([items.value] + keep), key) == Stored([mutable] + (compact + keep), key)
  {
    hide Lookup, Newest, Merged, DropTombstones, Sorted, Stored;
    MergedIs(compact);
    items := Merged(compact);
    if items.Some? {
      CompactionBelow(mutable, compact, keep);
      if keep == [] {
        DropSorted(items.value);
        items := Some(DropTombstones(items.value));
      }
    }
  }

  // ---- The tree ----

  class Tree<V(!new, ==)> {
    var mutable: Items<V>
    var layers: seq<File<V>>
    ghost var contents: map<int, V>

    ghost function Stack(): seq<Items<V>> reads this { [mutable] + ItemsOf(layers) }

    /** The tree is a map. */
    ghost predicate Valid()
      reads this
    {
      && Sorted(mutable) && AllSorted(ItemsOf(layers)) && MemoryFirst(layers)
      && forall key :: Stored(Stack(), key) == MapGet(contents, key)
    }

    constructor ()
      ensures Valid() && contents == map[] && layers == []
    {
      mutable, layers, contents := [], [], map[];
      new;
      hide Lookup;
      forall key ensures Stored(Stack(), key) == None {
        LookupNone<Option<V>>([], key);
        NewestNone(Stack(), key);
      }
    }

    /** Searches for an exact match; a tombstone is no match for a caller. */
    method Find(key: int) returns (r: Option<V>)
      requires Valid()
      ensures r == MapGet(contents, key)
    {
      var stack := [mutable] + ItemsOf(layers);
      assert AllSorted(stack);
      FindIsNewest(stack, key, Fuel(stack));
      r := Visible(LazyMerge.Find(stack, key, Fuel(stack)));
    }

    /** Fails if the mutable layer has the key; older layers are not consulted. */
    method Insert(item: Item<int, Option<V>>) returns (ok: bool)
      requires Valid()
      modifies this
      ensures Valid() && layers == old(layers) && ok == !old(Has(mutable, item.key))
      ensures contents == if ok then Updated(old(contents), item) else old(contents)
      ensures mutable == if ok then Put(old(mutable), item) else old(mutable)
    {
      ok := !Has(mutable, item.key);
      if ok {
        ReplaceOrInsert(item);
      }
    }

    method ReplaceOrInsert(item: Item<int, Option<V>>)
      requires Valid()
      modifies this
      ensures Valid() && layers == old(layers) && contents == Updated(old(contents), item)
      ensures mutable == Put(old(mutable), item)
    {
      hide Lookup, Newest, Put;
      PutLookup(mutable, item);
      PutStored(mutable, ItemsOf(layers), item);
      UpdatedGet(contents, item);
      mutable, contents := Put(mutable, item), Updated(contents, item);
      forall key ensures Stored(Stack(), key) == MapGet(contents, key) {
        assert Stored(old(Stack()), key) == MapGet(old(contents), key);
      }
    }

    /** A new mutable layer goes on top. */
    method Seal()
      requires Valid()
      modifies this
      ensures Valid() && contents == old(contents) && mutable == []
      ensures layers == [File(old(mutable), None)] + old(layers)
    {
      hide Lookup, Newest;
      ghost var before := Stack();
      layers := [File(mutable, None)] + layers;
      mutable := [];
      assert ItemsOf(layers) == before;
      forall key ensures Stored(Stack(), key) == Stored(before, key) {
        LookupNone<Option<V>>([], key);
        NewestOne([], before, key);
      }
    }

    /** `tree::flush` and then `set_layers`: writes some of the newest immutable layers to one new
        file of the given size.  Every layer that is kept is in a file. */
    method Flush(size: nat) returns (ok: bool)
      requires Valid()
      modifies this
      ensures ok && Valid() && contents == old(contents) && mutable == old(mutable)
      ensures 1 <= |layers| <= |old(layers)| + 1 && layers[1..] == old(layers)[|old(layers)| + 1 - |layers|..]
      ensures IsSplit(old(layers), |old(layers)| + 1 - |layers|)
      ensures forall i :: 0 <= i < |layers| ==> layers[i].size.Some?
      ensures |layers| == 1 ==> forall i :: 0 <= i < |layers[0].items| ==> layers[0].items[i].value.Some?
    {
      hide IsSplit, Sorted, MemoryFirst, Stored, ItemsOf, AllSorted;
      var split := ChooseSplit(layers);
      var compact, keep := layers[..split], layers[split..];
      SplitItems(layers, split);
      var items := Compact(ItemsOf(compact), ItemsOf(keep), mutable);
      if items.None? {
        return false;
      }
      FlushedShape(layers, split, File(items.value, Some(size)));
      layers := [File(items.value, Some(size))] + keep;
      ok := true;
    }

    /** `append_layers`: base layers found after replay.  What is there stays, also a tombstone; for
        all other keys the base layers count. */
    method AppendLayers(base: seq<File<V>>)
      requires Valid() && AllSorted(ItemsOf(base)) && forall i :: 0 <= i < |base| ==> base[i].size.Some?
      modifies this
      ensures Valid() && mutable == old(mutable)
      ensures forall key :: MapGet(contents, key) ==
                if Newest(old(Stack()), key).Some? then MapGet(old(contents), key) else Stored(ItemsOf(base), key)
    {
      hide Lookup, Newest;
      ghost var before := Stack();
      assert [mutable] + ItemsOf(layers + base) == before + ItemsOf(base);
      MapOfIs(before + ItemsOf(base));
      layers, contents := layers + base, MapOf(before + ItemsOf(base));
      forall key ensures MapGet(contents, key) ==
        if Newest(before, key).Some? then MapGet(old(contents), key) else Stored(ItemsOf(base), key)
      {
        NewestConcat(before, ItemsOf(base), key);
        assert Stored(before, key) == MapGet(old(contents), key);
      }
    }

    method Reset()
      modifies this
      ensures Valid() && contents == map[] && mutable == [] && layers == []
    {
      mutable, layers, contents := [], [], map[];
      hide Lookup;
      forall key ensures Stored(Stack(), key) == None {
        LookupNone<Option<V>>([], key);
        NewestNone(Stack(), key);
      }
    }
  }

  ghost function Updated<V>(m: map<int, V>, item: Item<int, Option<V>>): map<int, V>
  {
    if item.value.Some? then m[item.key := item.value.value] else m - {item.key}
  }

  lemma UpdatedGet<V>(m: map<int, V>, item: Item<int, Option<V>>)
    ensures forall key :: MapGet(Updated(m, item), key) == if key == item.key then item.value else MapGet(m, key)
  {
  }
}
