/** The extents of a file in the object store (src/object_store/merge.rs,
    src/object_store/extent_record.rs): the merge function, and what lazily merging the layers of the tree
    with it returns to a reader of the file. */
module ExtentMerge {
  import opened LsmTypes
  import opened Arith
  import opened Merge
  import opened RangeLayers
  import opened LazyRanges
  import opened MergeMap

  /** Where the data of an extent starts on the device, and the key it is encrypted with. */
  datatype ExtentValue = Deleted | Mapped(device: int, keyId: nat)
  {
    function OffsetBy(amount: int): ExtentValue
    {
      match this case Deleted => Deleted case Mapped(d, k) => Mapped(d + amount, k)
    }
  }

  type FileExtent = Item<Range, ExtentValue>
  type Result = MergeResult<Range, ExtentValue>

  /** How a value changes if the first bytes of its extent are cut off. */
  type CutValue = (ExtentValue, int) -> ExtentValue

  /** `merge_deleted_extents` */
  function MergeDeleted(l: Range, r: Range, sequence: nat): Result
  {
    if l.end < r.start then EmitLeft
    else if l.end >= r.end then Other(None, Keep, Discard)
    else Other(None, Discard, Replace(Item(Range(l.start, r.end), Deleted, sequence)))
  }

  /** `merge_extents` */
  function MergeWith(cut: CutValue, left: FileExtent, leftLayer: nat, right: FileExtent, rightLayer: nat): Result
  {
    var l, r, sequence := left.key, right.key, Min(left.sequence, right.sequence);
    if left.value == Deleted && right.value == Deleted && Neighbours(leftLayer, rightLayer) then
      MergeDeleted(l, r, sequence)
    else if l.end <= r.start then EmitLeft
    else if rightLayer < leftLayer then
      Other(Some(Item(Range(l.start, r.start), left.value, sequence)),
            Replace(Item(Range(r.start, l.end), cut(left.value, r.start - l.start), sequence)), Keep)
    else if l.end >= r.end then Other(None, Keep, Discard)
    else Other(None, Keep, Replace(Item(Range(l.end, r.end), cut(right.value, l.end - r.start), sequence)))
  }

  function OpsWith(cut: CutValue): Ops<Range, ExtentValue>
  {
    Ops((a: Range, b: Range) => a.start < b.start, BeforeBound, (k: Range) => Some(Range(k.end, k.end + 1)),
        (left: FileExtent, i: nat, right: FileExtent, j: nat) => MergeWith(cut, left, i, right, j))
  }

  /** The operations of the object store. */
  function ExtentOps(): Ops<Range, ExtentValue> { OpsWith(Shifted) }

  function Shifted(v: ExtentValue, amount: int): ExtentValue { v.OffsetBy(amount) }

  // ---- Extents by where the file would start ----

  /** The same extent, with the place that the first byte of the file would have. */
  function Placed(e: FileExtent): FileExtent { Item(e.key, e.value.OffsetBy(0 - e.key.start), e.sequence) }

  /** The merge function on these does not have to adjust values. */
  function PlacedOps(): Ops<Range, ExtentValue> { OpsWith(Unchanged) }

  function Unchanged(v: ExtentValue, amount: int): ExtentValue { v }

  lemma MergePlaced(x: FileExtent, i: nat, y: FileExtent, j: nat)
    ensures MapResult(Placed, MergeWith(Shifted, x, i, y, j)) == MergeWith(Unchanged, Placed(x), i, Placed(y), j)
  {
  }

  lemma PlacedCommutes()
    ensures Commutes(Placed, ExtentOps(), PlacedOps())
  {
    hide MergeWith, MapResult;
    var ops, ops' := ExtentOps(), PlacedOps();
    forall x, i, y, j ensures MapResult(Placed, ops.merge(x, i, y, j)) == ops'.merge(Placed(x), i, Placed(y), j) {
      MergePlaced(x, i, y, j);
    }
  }

  // ---- One pass ----

  lemma {:induction false} LowestFirst(cs: Cursors<ExtentValue>, out: set<nat>)
    ensures var l := Lowest(PlacedOps(), cs, out);
            forall j :: 0 <= j < |cs| && j !in out && cs[j].HasItem() ==>
              && l >= 0 && cs[l].Item().key.start <= cs[j].Item().key.start
              && (j < l ==> cs[l].Item().key.start < cs[j].Item().key.start)
    decreases |cs|
  {
    if cs != [] {
      var i := |cs| - 1;
      LowestFirst(cs[..i], out);
      var l, r := Lowest(PlacedOps(), cs, out), Lowest(PlacedOps(), cs[..i], out);
      forall j | 0 <= j < |cs| && j !in out && cs[j].HasItem()
        ensures l >= 0 && cs[l].Item().key.start <= cs[j].Item().key.start
        ensures j < l ==> cs[l].Item().key.start < cs[j].Item().key.start
      {
        if j < i { assert cs[..i][j] == cs[j]; }
        assert r >= 0 ==> cs[..i][r] == cs[r];
      }
    }
  }

  lemma LowestPair(cs: Cursors<ExtentValue>, l: nat, s: nat)
    requires AllDisjoint(cs) && l == Lowest(PlacedOps(), cs, {}) && s == Lowest(PlacedOps(), cs, {l})
    ensures Pair(cs, l, s) && (cs[l].Item().key.start == cs[s].Item().key.start ==> l < s)
    ensures cs[l].Item().key.start < cs[l].Item().key.end && cs[s].Item().key.start < cs[s].Item().key.end
  {
    hide Lowest, Cursor.Items;
    LowestFirst(cs, {});
    LowestFirst(cs, {l});
    HeadTail(cs[l]);
    HeadTail(cs[s]);
    forall j | 0 <= j < |cs| && j != l && j != s ensures From(cs[j].Items(), cs[s].Item().key.start) {
      if cs[j].HasItem() { HeadTail(cs[j]); }
    }
  }

  /** Every pass keeps, for every byte, what the newest layer says, also when it joins deleted extents. */
  lemma {:induction false} PassOk(cs: Cursors<ExtentValue>)
    requires AllDisjoint(cs) && Lowest(PlacedOps(), cs, {}) != -1
    ensures PassSound(PlacedOps(), cs)
  {
    hide Lowest, StepOk, View, ValueAt, TotalSize, Size, Cursor.Items, From, AllDisjoint;
    var ops := PlacedOps();
    var l := Lowest(ops, cs, {});
    var s := Lowest(ops, cs, {l});
    LowestFirst(cs, {});
    LowestFirst(cs, {l});
    if s == -1 {
      AloneFrom(cs, l);
      StepEmit(cs, l);
    } else {
      LowestPair(cs, l, s);
      var left, right := cs[l].Item(), cs[s].Item();
      var r := ops.merge(left, l, right, s);
      if r.EmitLeft? {
        OthersFrom(cs, l, s);
        StepEmit(cs, l);
      } else {
        assert cs[l := cs[l].Apply(Keep)] == cs;
        assert cs[l := cs[l].Apply(r.left)][s := cs[s].Apply(Keep)] == cs[l := cs[l].Apply(r.left)];
        if r.left.Discard? {
          StepJoin(cs, l, s, r.right.item);
        } else if r.emit.Some? {
          StepSplit(cs, l, s, r.emit.value, r.left.item);
          assert StartsAt(cs[l := cs[l].Apply(r.left)], right.key.start) by {
            assert cs[l := cs[l].Apply(r.left)][s].Item().key.start == right.key.start;
          }
        } else if r.right.Discard? {
          if l < s { StepDrop(cs, l, s); } else { StepAbsorb(cs, l, s); }
        } else {
          StepTrim(cs, l, s, r.right.item);
        }
      }
    }
  }

  lemma PlacedRanged()
    ensures Ranged(PlacedOps())
  {
    hide PassSound, Lowest, AllDisjoint;
    forall cs: Cursors<ExtentValue> | AllDisjoint(cs) && Lowest(PlacedOps(), cs, {}) != -1
      ensures PassSound(PlacedOps(), cs)
    {
      PassOk(cs);
    }
  }

  // ---- What a reader of the file sees ----

  /** Where one layer has a byte of the file, or that it is deleted. */
  ghost function PlaceAt(s: seq<FileExtent>, b: nat): Option<ExtentValue>
  {
    if s == [] then None
    else if Covers(s[0], b) then Some(s[0].value.OffsetBy(b - s[0].key.start))
    else PlaceAt(s[1..], b)
  }

  /** What the newest layer that mentions the byte says. */
  ghost function NewestPlace(layers: seq<seq<FileExtent>>, b: nat): Option<ExtentValue>
  {
    if layers == [] then None
    else if PlaceAt(layers[0], b).Some? then PlaceAt(layers[0], b)
    else NewestPlace(layers[1..], b)
  }

  /** What a caller that reads extents in order takes for the byte: the first extent that ends after it
      decides; there is nothing there if that one starts later. */
  ghost function ReadPlace(s: seq<FileExtent>, b: nat): Option<ExtentValue>
  {
    if s == [] then None
    else if b < s[0].key.end then
      (if s[0].key.start <= b then Some(s[0].value.OffsetBy(b - s[0].key.start)) else None)
    else ReadPlace(s[1..], b)
  }

  ghost function Moved(v: Option<ExtentValue>, b: nat): Option<ExtentValue>
  {
    match v case None => None case Some(x) => Some(x.OffsetBy(b))
  }

  lemma {:induction false} PlaceIsMoved(s: seq<FileExtent>, b: nat)
    ensures PlaceAt(s, b) == Moved(ValueAt(MapItems(Placed, s), b), b)
    ensures ReadPlace(s, b) == Moved(ReadAt(MapItems(Placed, s), b), b)
    decreases |s|
  {
    if s != [] {
      PlaceIsMoved(s[1..], b);
      assert MapItems(Placed, s)[1..] == MapItems(Placed, s[1..]);
    }
  }

  lemma {:induction false} NewestIsMoved(layers: seq<seq<FileExtent>>, b: nat)
    ensures NewestPlace(layers, b) == Moved(LayerView(MapLayers(Placed, layers), b), b)
    decreases |layers|
  {
    hide ValueAt, PlaceAt;
    var mapped := MapLayers(Placed, layers);
    if layers != [] {
      PlaceIsMoved(layers[0], b);
      PlainItems(mapped[0]);
      NewestIsMoved(layers[1..], b);
      assert mapped[1..] == MapLayers(Placed, layers[1..]);
      assert Opened(mapped)[1..] == Opened(mapped[1..]);
    }
  }

  lemma {:induction false} SizePlaced(s: seq<FileExtent>)
    ensures Size(MapItems(Placed, s)) == Size(s)
    decreases |s|
  {
    if s != [] {
      SizePlaced(s[1..]);
      assert MapItems(Placed, s)[1..] == MapItems(Placed, s[1..]);
    }
  }

  lemma {:induction false} TotalPlaced(layers: seq<seq<FileExtent>>)
    ensures TotalSize(Opened(MapLayers(Placed, layers))) == TotalSize(Opened(layers))
    decreases |layers|
  {
    hide Size;
    var mapped := MapLayers(Placed, layers);
    if layers != [] {
      TotalPlaced(layers[1..]);
      SizePlaced(layers[0]);
      PlainItems(layers[0]);
      PlainItems(mapped[0]);
      assert mapped[1..] == MapLayers(Placed, layers[1..]);
      assert Opened(mapped)[1..] == Opened(mapped[1..]) && Opened(layers)[1..] == Opened(layers[1..]);
    }
  }

  /** No extent ends after `limit`. */
  ghost predicate EndBy(layers: seq<seq<FileExtent>>, limit: nat)
  {
    forall i, p :: 0 <= i < |layers| && 0 <= p < |layers[i]| ==> layers[i][p].key.end <= limit
  }

  lemma PlacedWithin(layers: seq<seq<FileExtent>>, limit: nat)
    requires EndBy(layers, limit)
    ensures Within(MapLayers(Placed, layers), limit)
  {
    hide ValueAt, View;
    var mapped := MapLayers(Placed, layers);
    forall b: nat | b >= limit ensures LayerView(mapped, b) == None {
      forall j | 0 <= j < |mapped| ensures ValueAt(Opened(mapped)[j].Items(), b) == None {
        PlainItems(mapped[j]);
        AtAbove(mapped[j], limit, b);
      }
      ViewNone(Opened(mapped), b);
    }
  }

  /** Seeking in the layers of the object store and advancing to the end terminates although layers are
      consulted only as needed, and what is returned, read in order, places every byte from the bound on
      where the newest layer that mentions it has it. */
  lemma {:induction false} ReadsNewest(layers: seq<seq<FileExtent>>, bound: Bound<Range>, fuel: nat, limit: nat)
    requires LayersDisjoint(layers) && Searchable(bound)
    requires fuel > TotalSize(Opened(layers)) && EndBy(layers, limit)
    ensures Seek(ExtentOps(), layers, bound, fuel).Some?
    ensures Collect(ExtentOps(), Seek(ExtentOps(), layers, bound, fuel).value, fuel, limit).Some?
    ensures var out := Collect(ExtentOps(), Seek(ExtentOps(), layers, bound, fuel).value, fuel, limit).value;
            && Ending(out, FirstByte(bound))
            && forall b: nat :: b >= FirstByte(bound) ==> ReadPlace(out, b) == NewestPlace(layers, b)
  {
    hide TotalSize, Seek, LayerView, ReadAt, Ranged, Commutes, Within, ReadPlace, NewestPlace, Collect;
    var ops, mapped := ExtentOps(), MapLayers(Placed, layers);
    PlacedRanged();
    PlacedCommutes();
    TotalPlaced(layers);
    PlacedWithin(layers, limit);
    LazyIsFull(PlacedOps(), mapped, bound, fuel, limit);
    SeekMapped(Placed, ops, PlacedOps(), layers, bound, fuel);
    var m := Seek(ops, layers, bound, fuel).value;
    CollectMapped(Placed, ops, PlacedOps(), m, fuel, limit);
    var out := Collect(ops, m, fuel, limit).value;
    assert forall p :: 0 <= p < |out| ==> MapItems(Placed, out)[p].key == out[p].key;
    forall b: nat | b >= FirstByte(bound) ensures ReadPlace(out, b) == NewestPlace(layers, b) {
      PlaceIsMoved(out, b);
      NewestIsMoved(layers, b);
    }
  }
}
