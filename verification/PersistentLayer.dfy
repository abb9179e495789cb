/** Persistent layers (src/lsm_tree/simple_persistent_layer.rs): the block writer, the iterator over
    a layer file and the binary search. */
module PersistentLayer {
  import opened LsmTypes
  import opened Codecs
  import opened Arith

  type Byte = x: int | 0 <= x < 256
  type Bytes = seq<Byte>
  type Items<V> = seq<Item<int, V>>
  type ItemCodec<!V(!new)> = Codec<Item<int, V>, Byte>

  const MAX_ITEMS: nat := 65535

  // ---- The file format ----

  /** A little-endian 16-bit count. */
  function Count(n: nat): (r: Bytes)
    requires n <= MAX_ITEMS
    ensures |r| == 2
  {
    [n % 256, n / 256]
  }

  function ReadCount(b: Bytes): nat
    requires |b| >= 2
  {
    b[0] as int + 256 * (b[1] as int)
  }

  ghost function EncodeAll<V(!new)>(codec: ItemCodec<V>, items: Items<V>): Bytes
  {
    if items == [] then [] else codec.encode(items[0]) + EncodeAll(codec, items[1..])
  }

  lemma {:induction false} EncodePush<V(!new)>(codec: ItemCodec<V>, items: Items<V>, item: Item<int, V>)
    ensures EncodeAll(codec, items + [item]) == EncodeAll(codec, items) + codec.encode(item)
    decreases |items|
  {
    if items == [] {
      assert [item][1..] == [];
    } else {
      assert (items + [item])[1..] == items[1..] + [item];
      EncodePush(codec, items[1..], item);
    }
  }

  function Zeros(n: nat): (r: Bytes)
    ensures |r| == n
  {
    seq(n, i => 0)
  }

  /** The items fill at most one block, after its item count. */
  ghost predicate Fits<V(!new)>(codec: ItemCodec<V>, block: nat, items: Items<V>)
  {
    1 <= |items| <= MAX_ITEMS && 2 + |EncodeAll(codec, items)| <= block
  }

  ghost predicate AllFit<V(!new)>(codec: ItemCodec<V>, block: nat, blocks: seq<Items<V>>)
  {
    forall i :: 0 <= i < |blocks| ==> Fits(codec, block, blocks[i])
  }

  ghost function BlockBytes<V(!new)>(codec: ItemCodec<V>, block: nat, items: Items<V>): (r: Bytes)
    requires Fits(codec, block, items)
    ensures |r| == block
  {
    var data := Count(|items|) + EncodeAll(codec, items);
    data + Zeros(block - |data|)
  }

  /** A header block, then one block after the other. */
  ghost function FileBytes<V(!new)>(codec: ItemCodec<V>, block: nat, header: Bytes, blocks: seq<Items<V>>): Bytes
    requires AllFit(codec, block, blocks)
  {
    if blocks == [] then header
    else FileBytes(codec, block, header, blocks[..|blocks| - 1]) + BlockBytes(codec, block, blocks[|blocks| - 1])
  }

  ghost function DataSize<V(!new)>(codec: ItemCodec<V>, items: Items<V>): nat { 2 + |EncodeAll(codec, items)| }

  lemma {:induction false} FileSize<V(!new)>(codec: ItemCodec<V>, block: nat, header: Bytes, blocks: seq<Items<V>>)
    requires AllFit(codec, block, blocks) && |header| == block
    ensures |FileBytes(codec, block, header, blocks)| == block * (|blocks| + 1)
    decreases |blocks|
  {
    if blocks != [] { FileSize(codec, block, header, blocks[..|blocks| - 1]); }
  }

  lemma {:induction false} BlockAt<V(!new)>(codec: ItemCodec<V>, block: nat, header: Bytes, blocks: seq<Items<V>>,
                                            i: nat)
    requires AllFit(codec, block, blocks) && |header| == block && i < |blocks|
    ensures 0 <= block * (i + 1) <= block * (i + 2) <= |FileBytes(codec, block, header, blocks)|
    ensures FileBytes(codec, block, header, blocks)[block * (i + 1)..block * (i + 2)] ==
            BlockBytes(codec, block, blocks[i])
    decreases |blocks|
  {
    hide BlockBytes;
    var n := |blocks| - 1;
    var init := blocks[..n];
    FileSize(codec, block, header, init);
    FileSize(codec, block, header, blocks);
    MulMono(block, i + 1, i + 2);
    MulMono(block, i + 2, n + 2);
    if i < n {
      BlockAt(codec, block, header, init, i);
    } else {
      assert block * (i + 2) == block * (i + 1) + block;
    }
  }

  // ---- Items of a sequence of blocks ----

  ghost function Flat<V>(blocks: seq<Items<V>>): Items<V>
  {
    if blocks == [] then [] else Flat(blocks[..|blocks| - 1]) + blocks[|blocks| - 1]
  }

  lemma {:induction false} FlatAt<V>(blocks: seq<Items<V>>, i: nat, k: nat)
    requires i < |blocks| && k < |blocks[i]|
    ensures |Flat(blocks[..i])| + k < |Flat(blocks)| && Flat(blocks)[|Flat(blocks[..i])| + k] == blocks[i][k]
    decreases |blocks|
  {
    var n := |blocks| - 1;
    if i < n {
      FlatAt(blocks[..n], i, k);
      assert blocks[..n][..i] == blocks[..i];
    }
  }

  lemma FlatNext<V>(blocks: seq<Items<V>>, i: nat)
    requires i < |blocks|
    ensures |Flat(blocks[..i + 1])| == |Flat(blocks[..i])| + |blocks[i]|
  {
    assert blocks[..i + 1][..i] == blocks[..i];
  }

  // ---- The writer ----

  /** `out` are the bytes given to the underlying writer, skipped ones as zeros; `dataEnd` is where
      the last bytes that were not skipped end. */
  class Writer<V(!new)> {
    const codec: ItemCodec<V>
    const block: nat
    var out: Bytes
    var buf: Bytes
    var itemCount: nat
    ghost const header: Bytes
    var dataEnd: nat
    ghost var blocks: seq<Items<V>>
    ghost var unwritten: Items<V>

    ghost predicate Valid()
      reads this
    {
      && |header| == block
      && AllFit(codec, block, blocks)
      && out == FileBytes(codec, block, header, blocks)
      && |unwritten| == itemCount && (itemCount > 0 ==> Fits(codec, block, unwritten))
      && |buf| >= 2 && buf[2..] == EncodeAll(codec, unwritten)
      && dataEnd <= |out| && (blocks != [] ==> dataEnd == |out| - block + DataSize(codec, blocks[|blocks| - 1]))
    }

    ghost function Written(): Items<V> reads this { Flat(blocks) + unwritten }

    /** `info` is the serialized layer information at the start of the first block. */
    constructor (codec: ItemCodec<V>, block: nat, info: Bytes)
      requires 2 <= |info| <= block
      ensures Valid() && this.codec == codec && this.block == block && Written() == [] && blocks == []
    {
      this.codec, this.block := codec, block;
      this.header := info + Zeros(block - |info|);
      this.out := info + Zeros(block - |info|);
      this.buf, this.itemCount := [0, 0], 0;
      this.dataEnd, this.blocks, this.unwritten := |info|, [], [];
    }

    method WriteSome(len: nat, ghost rest: Items<V>)
      requires |header| == block && AllFit(codec, block, blocks) && out == FileBytes(codec, block, header, blocks)
      requires |unwritten| == itemCount && (itemCount > 0 ==> Fits(codec, block, unwritten))
      requires 2 <= len <= |buf| && buf[2..len] == EncodeAll(codec, unwritten) && buf[len..] == EncodeAll(codec, rest)
      requires dataEnd <= |out| && (blocks != [] ==> dataEnd == |out| - block + DataSize(codec, blocks[|blocks| - 1]))
      modifies this
      ensures |buf| >= 2 && buf[2..] == EncodeAll(codec, rest) && itemCount == 0 && unwritten == []
      ensures AllFit(codec, block, blocks) && out == FileBytes(codec, block, header, blocks)
      ensures Flat(blocks) == old(Flat(blocks) + unwritten)
      ensures dataEnd <= |out| && (blocks != [] ==> dataEnd == |out| - block + DataSize(codec, blocks[|blocks| - 1]))
    {
      if itemCount == 0 {
        assert len == 2;
        return;
      }
      hide EncodeAll;
      var data := Count(itemCount) + buf[2..len];
      ghost var blocks' := blocks + [unwritten];
      assert blocks'[..|blocks|] == blocks;
      dataEnd := |out| + |data|;
      out := out + (data + Zeros(block - len));
      assert data + Zeros(block - len) == BlockBytes(codec, block, unwritten);
      blocks, unwritten := blocks', [];
      buf := buf[len - 2..];
      assert EncodeAll(codec, unwritten) == [] by { EncodeNone(codec); }
      itemCount := 0;
    }

    method Write(item: Item<int, V>)
      requires Valid() && Fits(codec, block, [item])
      modifies this
      ensures Valid() && Written() == old(Written()) + [item]
    {
      hide EncodeAll, FileBytes, Flat;
      var len := |buf|;
      buf := buf + codec.encode(item);
      EncodeOne(codec, item);
      EncodePush(codec, unwritten, item);
      if |buf| > block - 1 || itemCount == MAX_ITEMS {
        assert buf[2..len] == old(buf)[2..] && buf[len..] == codec.encode(item);
        WriteSome(len, [item]);
        assert unwritten + [item] == [item];
      } else {
        assert buf[2..] == old(buf)[2..] + codec.encode(item);
      }
      unwritten := unwritten + [item];
      itemCount := itemCount + 1;
    }

    method Flush()
      requires Valid()
      modifies this
      ensures Valid() && Written() == old(Written()) == Flat(blocks)
    {
      hide FileBytes, Flat;
      assert buf[2..|buf|] == buf[2..] && buf[|buf|..] == [];
      EncodeNone(codec);
      WriteSome(|buf|, []);
    }
  }

  lemma EncodeNone<V(!new)>(codec: ItemCodec<V>)
    ensures EncodeAll(codec, []) == []
  {
  }

  lemma EncodeOne<V(!new)>(codec: ItemCodec<V>, item: Item<int, V>)
    ensures EncodeAll(codec, [item]) == codec.encode(item)
  {
    assert [item][1..] == [];
    EncodeNone(codec);
  }

  // ---- Reading ----

  /** What reading a block from the file returns: less at the end of the file. */
  function BlockData(file: Bytes, block: nat, pos: nat): Bytes
    requires pos <= |file|
  {
    if pos + block <= |file| then file[pos..pos + block] else file[pos..]
  }

  ghost predicate HasPrefix(data: Bytes, prefix: Bytes) { |prefix| <= |data| && data[..|prefix|] == prefix }

  /** The file holds these blocks; the last one may lack some or all of its padding. */
  ghost predicate Layout<V(!new)>(codec: ItemCodec<V>, block: nat, blocks: seq<Items<V>>, file: Bytes)
  {
    && block > 0 && AllFit(codec, block, blocks) && |file| <= block * (|blocks| + 1)
    && (blocks != [] ==> block * |blocks| < |file|)
    && forall i: nat :: i < |blocks| ==> BlockIn(codec, block, blocks[i], file, i)
  }

  ghost predicate BlockIn<V(!new)>(codec: ItemCodec<V>, block: nat, items: Items<V>, file: Bytes, i: nat)
    requires |items| <= MAX_ITEMS
  {
    0 <= block * (i + 1) < |file| &&
        HasPrefix(BlockData(file, block, block * (i + 1)), Count(|items|) + EncodeAll(codec, items))
  }

  /** What the writer leaves behind is such a file, wherever the size of the object ends up in the
      padding of the last block. */
  lemma WriterLayout<V(!new)>(codec: ItemCodec<V>, block: nat, header: Bytes, blocks: seq<Items<V>>, size: nat)
    requires block > 0 && |header| == block && AllFit(codec, block, blocks)
    requires size <= |FileBytes(codec, block, header, blocks)|
    requires blocks != [] ==>
               |FileBytes(codec, block, header, blocks)| - block + DataSize(codec, blocks[|blocks| - 1]) <= size
    ensures Layout(codec, block, blocks, FileBytes(codec, block, header, blocks)[..size])
  {
    hide FileBytes, EncodeAll;
    var full := FileBytes(codec, block, header, blocks);
    var file := full[..size];
    FileSize(codec, block, header, blocks);
    forall i: nat | i < |blocks| ensures BlockIn(codec, block, blocks[i], file, i) {
      var items := blocks[i];
      var data, pos := Count(|items|) + EncodeAll(codec, items), block * (i + 1);
      BlockAt(codec, block, header, blocks, i);
      assert block * (i + 2) == pos + block;
      assert HasPrefix(BlockBytes(codec, block, items), data);
      if i + 1 < |blocks| {
        MulMono(block, i + 2, |blocks|);
        assert pos + block <= size;
        assert BlockData(file, block, pos) == full[pos..pos + block];
      } else {
        assert pos + |data| <= size && pos == block * |blocks|;
        assert BlockData(file, block, pos) == if pos + block <= size then full[pos..pos + block] else full[pos..size];
        assert BlockData(file, block, pos)[..|data|] == full[pos..pos + |data|] == full[pos..pos + block][..|data|];
      }
    }
  }

  /** An iterator over a layer file. */
  class LayerIterator<V(!new)> {
    const codec: ItemCodec<V>
    const block: nat
    const file: Bytes
    var pos: nat            // of the next block
    var buffer: Bytes       // what is left of the current block
    var itemIndex: nat
    var itemCount: nat
    var item: Option<Item<int, V>>
    ghost var next: nat     // how many items of the layer are behind the iterator
    ghost var at: nat       // the block the iterator is in or before

    /** The iterator is inside block `i`, before its item `itemIndex`. */
    ghost predicate Inside(blocks: seq<Items<V>>, i: nat)
      reads this
    {
      && i < |blocks| && itemCount == |blocks[i]| > 0 && itemIndex <= itemCount
      && HasPrefix(buffer, EncodeAll(codec, blocks[i][itemIndex..]))
      && pos == block * (i + 2) && next == |Flat(blocks[..i])| + itemIndex
    }

    /** The iterator is before block `i` (or at the end). */
    ghost predicate BeforeBlock(blocks: seq<Items<V>>, i: nat)
      reads this
    {
      i <= |blocks| && itemIndex == itemCount == 0 && pos == block * (i + 1) && next == |Flat(blocks[..i])|
    }

    ghost predicate Valid(blocks: seq<Items<V>>)
      reads this
    {
      Layout(codec, block, blocks, file) && (Inside(blocks, at) || BeforeBlock(blocks, at))
    }

    constructor (codec: ItemCodec<V>, block: nat, file: Bytes, ghost blocks: seq<Items<V>>, ghost i: nat, pos: nat)
      requires Layout(codec, block, blocks, file) && i <= |blocks| && pos == block * (i + 1)
      ensures Valid(blocks) && next == |Flat(blocks[..i])| && item == None
      ensures this.codec == codec && this.block == block && this.file == file
    {
      this.codec, this.block, this.file, this.pos := codec, block, file, pos;
      this.buffer, this.itemIndex, this.itemCount, this.item := [], 0, 0, None;
      this.next, this.at := |Flat(blocks[..i])|, i;
    }

    /** The end of a block: opens the next one, or finds the end of the layer. */
    method NextBlock(ghost blocks: seq<Items<V>>) returns (ok: bool, end: bool)
      requires Valid(blocks) && itemIndex >= itemCount
      modifies this
      ensures ok && Valid(blocks) && next == old(next)
      ensures !end ==> Inside(blocks, at) && itemIndex < itemCount
      ensures end ==> next == |Flat(blocks)| && item == None
    {
      hide EncodeAll, Flat, Layout, BlockData, ReadCount, Count, HasPrefix;
      ghost var i := at;
      if itemCount > 0 {
        FlatNext(blocks, i);
        i := i + 1;
      }
      assert pos == block * (i + 1) && next == |Flat(blocks[..i])| && i <= |blocks|;
      Ends(codec, block, blocks, file, i);
      if pos >= |file| {
        item := None;
        return true, true;
      }
      BlockOpens(codec, block, blocks, file, i);
      var data := BlockData(file, block, pos);
      if |data| < 2 {
        return false, false;
      }
      itemCount := ReadCount(data[..2]);
      if itemCount == 0 {
        return false, false;
      }
      buffer := data[2..];
      pos := pos + block;
      itemIndex := 0;
      at := i;
      assert blocks[i][0..] == blocks[i];
      return true, false;
    }

    /** Delivers the next item of the layer; false stands for the errors of a corrupt layer. */
    method Advance(ghost blocks: seq<Items<V>>) returns (ok: bool)
      requires codec.Valid() && Valid(blocks)
      modifies this
      ensures ok && Valid(blocks)
      ensures old(next) < |Flat(blocks)| ==> item == Some(Flat(blocks)[old(next)]) && next == old(next) + 1
      ensures old(next) >= |Flat(blocks)| ==> item == None && next == old(next)
    {
      hide EncodeAll, Flat, Layout, HasPrefix;
      if itemIndex >= itemCount {
        var end;
        ok, end := NextBlock(blocks);
        if end {
          return;
        }
      }
      ghost var items := blocks[at][itemIndex..];
      DecodeFirst(codec, buffer, items);
      var d := codec.decode(buffer);
      if d.None? || d.value.1 > |buffer| {
        return false;
      }
      FlatAt(blocks, at, itemIndex);
      assert items[1..] == blocks[at][itemIndex + 1..];
      item := Some(d.value.0);
      buffer := buffer[d.value.1..];
      itemIndex := itemIndex + 1;
      next := next + 1;
      return true;
    }
  }

  lemma Ends<V(!new)>(codec: ItemCodec<V>, block: nat, blocks: seq<Items<V>>, file: Bytes, i: nat)
    requires Layout(codec, block, blocks, file) && i <= |blocks|
    ensures i == |blocks| <==> block * (i + 1) >= |file|
    ensures i == |blocks| ==> |Flat(blocks[..i])| == |Flat(blocks)|
    ensures i < |blocks| ==> |Flat(blocks[..i])| < |Flat(blocks)|
  {
    if i < |blocks| {
      MulMono(block, i + 1, |blocks|);
      FlatAt(blocks, i, 0);
    } else {
      assert blocks[..i] == blocks;
    }
  }

  lemma BlockOpens<V(!new)>(codec: ItemCodec<V>, block: nat, blocks: seq<Items<V>>, file: Bytes, i: nat)
    requires Layout(codec, block, blocks, file) && i < |blocks|
    ensures 0 <= block * (i + 1) < |file| && block * (i + 2) == block * (i + 1) + block
    ensures var data := BlockData(file, block, block * (i + 1));
            && |data| >= 2 && ReadCount(data[..2]) == |blocks[i]| > 0 &&
                HasPrefix(data[2..], EncodeAll(codec, blocks[i]))
  {
    hide EncodeAll;
    var items, data := blocks[i], BlockData(file, block, block * (i + 1));
    assert BlockIn(codec, block, items, file, i) && Fits(codec, block, items);
    var prefix := Count(|items|) + EncodeAll(codec, items);
    assert data[..2] == prefix[..2] == Count(|items|);
    assert data[2..][..|prefix| - 2] == prefix[2..] == EncodeAll(codec, items);
  }

  lemma DecodeFirst<V(!new)>(codec: ItemCodec<V>, data: Bytes, items: Items<V>)
    requires codec.Valid() && items != [] && HasPrefix(data, EncodeAll(codec, items))
    ensures var n := |codec.encode(items[0])|;
            codec.decode(data) == Some((items[0], n)) && n <= |data| &&
                HasPrefix(data[n..], EncodeAll(codec, items[1..]))
  {
    var e, rest := codec.encode(items[0]), EncodeAll(codec, items[1..]);
    assert data[..|e|] == (e + rest)[..|e|] == e;
    assert data == e + data[|e|..];
    assert data[|e|..][..|rest|] == (e + rest)[|e|..] == rest;
  }

  // ---- Reading and writing whole layers ----

  method WriteLayer<V(!new)>(codec: ItemCodec<V>, block: nat, info: Bytes, items: Items<V>) returns (w: Writer<V>)
    requires 2 <= |info| <= block && forall i :: 0 <= i < |items| ==> Fits(codec, block, [items[i]])
    ensures fresh(w) && w.Valid() && w.codec == codec && w.block == block && Flat(w.blocks) == items
  {
    hide EncodeAll, FileBytes, Flat;
    w := new Writer(codec, block, info);
    for i := 0 to |items|
      invariant fresh(w) && w.Valid() && w.codec == codec && w.block == block && w.Written() == items[..i]
    {
      w.Write(items[i]);
    }
    w.Flush();
    assert items[..|items|] == items;
  }

  method ReadLayer<V(!new)>(codec: ItemCodec<V>, block: nat, file: Bytes, ghost blocks: seq<Items<V>>)
    returns (r: Option<Items<V>>)
    requires codec.Valid() && Layout(codec, block, blocks, file)
    ensures r == Some(Flat(blocks))
  {
    hide Layout, Flat, LayerIterator.Valid;
    Nonempty(codec, block, blocks, file);
    var it := new LayerIterator(codec, block, file, blocks, 0, block);
    var ok := it.Advance(blocks);
    var out: Items<V> := [];
    ghost var all := Flat(blocks);
    while ok && it.item.Some?
      invariant ok && it.codec == codec && At(it, blocks, |out|) && out == all[..|out|]
      decreases |all| - |out|
    {
      out := out + [it.item.value];
      ok := it.Advance(blocks);
    }
    assert |out| == |all| && all[..|all|] == all;
    return if ok then Some(out) else None;
  }

  lemma Nonempty<V(!new)>(codec: ItemCodec<V>, block: nat, blocks: seq<Items<V>>, file: Bytes)
    requires Layout(codec, block, blocks, file)
    ensures block > 0 && Flat(blocks[..0]) == []
  {
  }

  /** Writing items and reading the file back returns the items, whatever is kept of the padding at
      the end of the file. */
  method RoundTrip<V(!new)>(codec: ItemCodec<V>, block: nat, info: Bytes, items: Items<V>, padding: nat)
    returns (r: Option<Items<V>>)
    requires codec.Valid() && 2 <= |info| <= block && forall i :: 0 <= i < |items| ==> Fits(codec, block, [items[i]])
    ensures r == Some(items)
  {
    hide Layout, Flat, FileBytes;
    var w := WriteLayer(codec, block, info, items);
    var size: nat := if w.dataEnd + padding <= |w.out| then w.dataEnd + padding else |w.out|;
    WriterLayout(codec, block, w.header, w.blocks, size);
    r := ReadLayer(codec, block, w.out[..size], w.blocks);
  }

  // ---- Seeking ----

  /** A linear scan for the bound. */
  function ScanIndex<V>(items: Items<V>, bound: Bound<int>): (n: nat)
    ensures n <= |items|
  {
    if items == [] || !Before(items[0].key, bound) then 0 else 1 + ScanIndex(items[1..], bound)
  }

  lemma {:induction false} ScanIs<V>(items: Items<V>, bound: Bound<int>, n: nat)
    requires n <= |items| && (forall i :: 0 <= i < n ==> Before(items[i].key, bound))
    requires (n < |items| ==> !Before(items[n].key, bound))
    ensures ScanIndex(items, bound) == n
    decreases n
  {
    if n > 0 { ScanIs(items[1..], bound, n - 1); }
  }

  /** The iterator has delivered item `n` of the layer (or has come to the end). */
  ghost predicate At<V(!new)>(it: LayerIterator<V>, blocks: seq<Items<V>>, n: nat)
    reads it
  {
    var items := Flat(blocks);
    && it.Valid(blocks) && n <= |items|
    && (n < |items| ==> it.item == Some(items[n]) && it.next == n + 1)
    && (n == |items| ==> it.item == None && it.next == n)
  }

  /** The block between two others that the search looks at. */
  lemma Middle(block: nat, l: nat, r: nat)
    requires block > 0 && l + 2 <= r
    ensures var mid := RoundDown(block * l + (block * r - block * l) / 2, block);
            exists q: nat :: l < q < r && mid == block * q
  {
    var half := (block * r - block * l) / 2;
    var x := block * l + half;
    var q := x / block;
    assert x == block * q + x % block;
    MulMono(block, l + 2, r);
    assert block * (l + 2) == block * l + 2 * block;
    assert half >= block;
    MulMono(block, l, r);
    assert half < block * r - block * l;
    if q <= l {
      MulMono(block, q, l);
      assert false;
    }
    if q >= r {
      MulMono(block, r, q);
      assert false;
    }
  }

  lemma Ceiling<V(!new)>(codec: ItemCodec<V>, block: nat, blocks: seq<Items<V>>, file: Bytes)
    requires Layout(codec, block, blocks, file) && blocks != []
    ensures RoundUp(|file|, block) == block * (|blocks| + 1)
  {
    var r, n := RoundUp(|file|, block), |blocks|;
    var q := r / block;
    assert r == block * q + r % block == block * q;
    assert block * (n + 1) == block * n + block;
    if q < n + 1 { MulMono(block, q, n); }
    assert block * (n + 2) == block * (n + 1) + block;
    if q > n + 1 { MulMono(block, n + 2, q); }
  }

  /** The iterator that starts at block `i` has delivered the first item of that block. */
  method OpenAt<V(!new)>(codec: ItemCodec<V>, block: nat, file: Bytes, ghost blocks: seq<Items<V>>, ghost i: nat,
                         pos: nat)
    returns (ok: bool, it: LayerIterator<V>)
    requires codec.Valid() && Layout(codec, block, blocks, file) && i <= |blocks| && pos == block * (i + 1)
    ensures ok && fresh(it) && it.codec == codec && At(it, blocks, |Flat(blocks[..i])|)
    ensures i < |blocks| ==> it.item.Some?
  {
    hide Layout, Flat, LayerIterator.Valid;
    it := new LayerIterator(codec, block, file, blocks, i, pos);
    Ends(codec, block, blocks, file, i);
    ok := it.Advance(blocks);
  }

  /** The last step of `seek`, at an item with exactly the key. */
  method SettleEqual<V(!new)>(it: LayerIterator<V>, key: int, bound: Bound<int>, ghost blocks: seq<Items<V>>,
                              ghost n: nat)
    returns (ok: bool)
    requires it.codec.Valid() && At(it, blocks, n) && it.item.Some? && it.item.value.key == key && Sorted(Flat(blocks))
    requires bound == Included(key) || bound == Excluded(key)
    modifies it
    ensures ok && At(it, blocks, ScanIndex(Flat(blocks), bound))
  {
    hide Flat, LayerIterator.Valid, ScanIndex;
    ok := true;
    if bound.Excluded? {
      ok := it.Advance(blocks);
      ScanIs(Flat(blocks), bound, n + 1);
    } else {
      ScanIs(Flat(blocks), bound, n);
    }
  }

  lemma Gap(block: nat, l: nat, r: nat)
    requires block > 0 && l <= r
    ensures block * (l + 1) <= block * (r + 1)
    ensures block * (r + 1) - block * (l + 1) > block <==> r - l >= 2
  {
    MulMono(block, l + 1, r + 1);
    assert block * (r + 1) - block * (l + 1) == block * (r - l);
    if r - l >= 2 { MulMono(block, 2, r - l); } else { MulMono(block, r - l, 1); }
  }

  /** The binary search over the first items of the blocks: ends at an item with the key, or at one
      below it. */
  method SearchBlocks<V(!new)>(codec: ItemCodec<V>, block: nat, file: Bytes, key: int, bound: Bound<int>,
                               first: LayerIterator<V>,
                               ghost blocks: seq<Items<V>>)
    returns (ok: bool, found: bool, it: LayerIterator<V>, ghost n: nat)
    requires codec.Valid() && Layout(codec, block, blocks, file) && Sorted(Flat(blocks)) && blocks != []
    requires bound == Included(key) || bound == Excluded(key)
    requires first.codec == codec && At(first, blocks, 0) && first.item.Some? && first.item.value.key < key
    ensures ok && it.codec == codec && (it == first || fresh(it))
    ensures found ==> At(it, blocks, ScanIndex(Flat(blocks), bound))
    ensures !found ==> At(it, blocks, n) && it.item.Some? && it.item.value.key < key
  {
    hide Layout, Flat, LayerIterator.Valid, ScanIndex, At, RoundDown, RoundUp;
    Nonempty(codec, block, blocks, file);
    Ceiling(codec, block, blocks, file);
    it, n := first, 0;
    var leftOffset, rightOffset := block, RoundUp(|file|, block);
    ghost var l: nat, r: nat := 0, |blocks|;
    Gap(block, l, r);
    while rightOffset - leftOffset > block
      invariant l < r <= |blocks| && leftOffset == block * (l + 1) && rightOffset == block * (r + 1)
      invariant 0 <= leftOffset <= rightOffset
      invariant it.codec == codec && (it == first || fresh(it)) && At(it, blocks, n) && it.item.Some?
      invariant it.item.value.key < key
      decreases r - l
    {
      Gap(block, l, r);
      Middle(block, l + 1, r + 1);
      var mid := RoundDown(leftOffset + (rightOffset - leftOffset) / 2, block);
      ghost var q: nat :| l + 1 < q < r + 1 && mid == block * q;
      ghost var k := |Flat(blocks[..q - 1])|;
      var midway;
      ok, midway := OpenAt(codec, block, file, blocks, q - 1, mid);
      Gap(block, l, q - 1);
      Gap(block, q - 1, r);
      if midway.item.value.key > key {
        rightOffset, r := mid, q - 1;
      } else if midway.item.value.key == key {
        ok := SettleEqual(midway, key, bound, blocks, k);
        return ok, true, midway, 0;
      } else {
        leftOffset, l, it, n := mid, q - 1, midway, k;
      }
    }
    return true, false, it, n;
  }

  /** `seek` lands where a linear scan does. */
  method Seek<V(!new)>(codec: ItemCodec<V>, block: nat, file: Bytes, bound: Bound<int>, ghost blocks: seq<Items<V>>)
    returns (ok: bool, it: LayerIterator<V>)
    requires codec.Valid() && Layout(codec, block, blocks, file) && Sorted(Flat(blocks))
    ensures ok && fresh(it) && it.codec == codec && At(it, blocks, ScanIndex(Flat(blocks), bound))
  {
    hide Layout, Flat, LayerIterator.Valid, ScanIndex, At;
    Nonempty(codec, block, blocks, file);
    ghost var items := Flat(blocks);
    ok, it := OpenAt(codec, block, file, blocks, 0, block);
    if bound.Unbounded? {
      ScanIs(items, bound, 0);
      return;
    }
    var key := bound.key;
    AtItem(it, blocks, 0);
    if it.item.None? || it.item.value.key > key {
      ScanIs(items, bound, 0);
      return;
    }
    if it.item.value.key == key {
      ok := SettleEqual(it, key, bound, blocks, 0);
      return;
    }
    ghost var n: nat;
    var found;
    ok, found, it, n := SearchBlocks(codec, block, file, key, bound, it, blocks);
    if found {
      return;
    }
    AtItem(it, blocks, n);
    while true
      invariant fresh(it) && it.codec == codec && At(it, blocks, n) && n < |items| && it.item == Some(items[n])
      invariant items[n].key < key
      decreases |items| - n
    {
      ok := Step(it, blocks, n);
      n := n + 1;
      AtItem(it, blocks, n);
      if it.item.None? || it.item.value.key > key {
        ScanIs(items, bound, n);
        return;
      }
      if it.item.value.key == key {
        ok := SettleEqual(it, key, bound, blocks, n);
        return;
      }
    }
  }

  method Step<V(!new)>(it: LayerIterator<V>, ghost blocks: seq<Items<V>>, ghost n: nat) returns (ok: bool)
    requires it.codec.Valid() && At(it, blocks, n) && it.item.Some?
    modifies it
    ensures ok && At(it, blocks, n + 1)
  {
    hide Flat, LayerIterator.Valid;
    ok := it.Advance(blocks);
  }

  lemma AtItem<V(!new)>(it: LayerIterator<V>, blocks: seq<Items<V>>, n: nat)
    requires At(it, blocks, n)
    ensures it.item.Some? <==> n < |Flat(blocks)|
    ensures it.item.Some? ==> it.item.value == Flat(blocks)[n]
  {
  }
}
