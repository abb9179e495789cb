/** Tombstoning a file (src/object_store.rs, `trim_or_tombstone` and `trim_some`): the extents of all
    attributes are deallocated over several transactions. */
module Trim {
  import opened LsmTypes
  import opened RangeLayers
  import opened AllocatorMerge

  const MUTATION_THRESHOLD: nat := 200

  /** An extent record of an attribute; `device` is where its data is, unless it is a deleted
      extent. */
  datatype FileExtent = FileExtent(start: nat, end: nat, device: Option<nat>)

  datatype Attribute = Attribute(id: nat, extents: seq<FileExtent>)

  datatype TrimResult = Incomplete | Done(next: Option<nat>) | Inconsistent

  function DeviceRange(e: FileExtent): Range
    requires e.device.Some? && e.start <= e.end
  {
    Range(e.device.value, e.device.value + (e.end - e.start))
  }

  ghost predicate Usable(e: FileExtent, block: nat)
    requires block > 0
  {
    e.device.Some? ==> e.start < e.end && DeviceRange(e).start % block == 0 && DeviceRange(e).end % block == 0
  }

  predicate HasData(e: FileExtent) { e.device.Some? && e.start < e.end }

  /** Where the data of an extent is, if it has any. */
  ghost function Ranges(e: FileExtent): seq<Range> { if HasData(e) then [DeviceRange(e)] else [] }

  /** The device ranges of the extents that have data, in order. */
  ghost function LiveOf(extents: seq<FileExtent>): seq<Range>
  {
    if extents == [] then [] else LiveOf(extents[..|extents| - 1]) + Ranges(extents[|extents| - 1])
  }

  /** Extents with data are in order and do not overlap; deleted ones may lie anywhere. */
  ghost predicate InOrder(extents: seq<FileExtent>)
  {
    forall i, j :: 0 <= i < j < |extents| && HasData(extents[i]) && HasData(extents[j]) ==>
      extents[i].end <= extents[j].start
  }

  ghost predicate AllInOrder(attributes: seq<Attribute>)
  {
    forall a :: 0 <= a < |attributes| ==> InOrder(attributes[a].extents)
  }

  /** Where a byte of the file is on the device. */
  ghost function Place(extents: seq<FileExtent>, b: nat): Option<nat>
  {
    if extents == [] then None
    else
      var e := extents[|extents| - 1];
      if PlaceIn(e, b).Some? then PlaceIn(e, b) else Place(extents[..|extents| - 1], b)
  }

  ghost function Live(attributes: seq<Attribute>): seq<Range>
  {
    if attributes == [] then [] else LiveOf(attributes[0].extents) + Live(attributes[1..])
  }

  ghost function Bytes(ranges: seq<Range>): int
  {
    if ranges == [] then 0 else Bytes(ranges[..|ranges| - 1]) + (ranges[|ranges| - 1].end - ranges[|ranges| - 1].start)
  }

  ghost predicate AllUsable(attributes: seq<Attribute>, block: nat)
    requires block > 0
  {
    forall a, i :: 0 <= a < |attributes| && 0 <= i < |attributes[a].extents| ==> Usable(attributes[a].extents[i], block)
  }

  ghost predicate Ascending(attributes: seq<Attribute>)
  {
    forall i, j :: 0 <= i < j < |attributes| ==> attributes[i].id < attributes[j].id
  }

  // ---- Lists of ranges ----

  lemma {:induction false} LiveOfConcat(a: seq<FileExtent>, b: seq<FileExtent>)
    ensures LiveOf(a + b) == LiveOf(a) + LiveOf(b)
    decreases |b|
  {
    if b == [] {
      assert a + b == a;
    } else {
      var n := |b| - 1;
      assert (a + b)[..|a + b| - 1] == a + b[..n];
      LiveOfConcat(a, b[..n]);
    }
  }

  lemma {:induction false} BytesConcat(a: seq<Range>, b: seq<Range>)
    ensures Bytes(a + b) == Bytes(a) + Bytes(b)
    decreases |b|
  {
    if b == [] {
      assert a + b == a;
    } else {
      var n := |b| - 1;
      assert (a + b)[..|a + b| - 1] == a + b[..n];
      BytesConcat(a, b[..n]);
    }
  }

  lemma {:induction false} LiveSplit(attributes: seq<Attribute>, p: nat)
    requires p < |attributes|
    ensures Live(attributes) == Live(attributes[..p]) + LiveOf(attributes[p].extents) + Live(attributes[p + 1..])
    decreases p
  {
    hide LiveOf;
    if p > 0 {
      var rest := attributes[1..];
      LiveSplit(rest, p - 1);
      assert rest[..p - 1] == attributes[..p][1..] && rest[p..] == attributes[p + 1..];
      var first, own, last := LiveOf(attributes[0].extents), LiveOf(attributes[p].extents), Live(attributes[p + 1..]);
      Reassociate(first, Live(rest[..p - 1]) + own, last);
      Reassociate(first, Live(rest[..p - 1]), own);
    } else {
      assert Live(attributes[..0]) == [];
    }
  }

  lemma {:induction false} LiveNone(attributes: seq<Attribute>, n: nat)
    requires n <= |attributes| && forall a :: 0 <= a < n ==> LiveOf(attributes[a].extents) == []
    ensures Live(attributes[..n]) == [] && Live(attributes) == Live(attributes[n..])
    decreases n
  {
    if n > 0 {
      LiveNone(attributes[1..], n - 1);
      assert attributes[..n][1..] == attributes[1..][..n - 1] && attributes[1..][n - 1..] == attributes[n..];
    } else {
      assert attributes[0..] == attributes;
    }
  }

  // ---- Deleted extents ----

  /** What a deleted extent that ends at `end` leaves of an older extent. */
  function CutOne(e: FileExtent, end: nat): seq<FileExtent>
  {
    if e.end <= end then []
    else if e.start >= end then [e]
    else [FileExtent(end, e.end, if e.device.Some? then Some(e.device.value + (end - e.start)) else None)]
  }

  function Cut(extents: seq<FileExtent>, end: nat): seq<FileExtent>
  {
    if extents == [] then [] else Cut(extents[..|extents| - 1], end) + CutOne(extents[|extents| - 1], end)
  }

  /** The extents after a deleted extent from the start of the file to `end` has been merged. */
  function Deleted(extents: seq<FileExtent>, end: nat): seq<FileExtent>
  {
    [FileExtent(0, end, None)] + Cut(extents, end)
  }

  /** Where an extent has a byte. */
  ghost function PlaceIn(e: FileExtent, b: nat): Option<nat>
  {
    if HasData(e) && e.start <= b < e.end then Some(e.device.value + (b - e.start)) else None
  }

  lemma PlacePush(t: seq<FileExtent>, e: FileExtent, b: nat)
    ensures Place(t + [e], b) == if PlaceIn(e, b).Some? then PlaceIn(e, b) else Place(t, b)
  {
    assert (t + [e])[..|t|] == t;
  }

  lemma CutOnePlace(e: FileExtent, end: nat, b: nat)
    ensures |CutOne(e, end)| <= 1
    ensures CutOne(e, end) == [] ==> b < end || PlaceIn(e, b) == None
    ensures CutOne(e, end) != [] ==> PlaceIn(CutOne(e, end)[0], b) == if b < end then None else PlaceIn(e, b)
  {
  }

  /** Bytes below `end` have no data any more, the others are where they were. */
  lemma {:induction false} CutPlace(extents: seq<FileExtent>, end: nat, b: nat)
    ensures Place(Cut(extents, end), b) == if b < end then None else Place(extents, b)
    decreases |extents|
  {
    if extents != [] {
      var n := |extents| - 1;
      CutPlace(extents[..n], end, b);
      var t, c := Cut(extents[..n], end), CutOne(extents[n], end);
      assert Cut(extents, end) == t + c && extents == extents[..n] + [extents[n]];
      hide Place, CutOne, Cut, PlaceIn;
      CutOnePlace(extents[n], end, b);
      PlacePush(extents[..n], extents[n], b);
      if c == [] {
        assert t + c == t;
      } else {
        assert c == [c[0]];
        PlacePush(t, c[0], b);
      }
    }
  }

  lemma DeletedPlace(extents: seq<FileExtent>, end: nat, b: nat)
    ensures Place(Deleted(extents, end), b) == if b < end then None else Place(extents, b)
  {
    CutPlace(extents, end, b);
    PlaceCons(FileExtent(0, end, None), Cut(extents, end), b);
  }

  lemma {:induction false} PlaceCons(d: FileExtent, extents: seq<FileExtent>, b: nat)
    requires d.device.None?
    ensures Place([d] + extents, b) == Place(extents, b)
    decreases |extents|
  {
    if extents == [] {
      assert [d][..0] == [];
    } else {
      var n := |extents| - 1;
      assert ([d] + extents)[..n + 1] == [d] + extents[..n];
      PlaceCons(d, extents[..n], b);
    }
  }

  lemma {:induction false} CutConcat(a: seq<FileExtent>, b: seq<FileExtent>, end: nat)
    ensures Cut(a + b, end) == Cut(a, end) + Cut(b, end)
    decreases |b|
  {
    hide CutOne;
    if b == [] {
      assert a + b == a;
    } else {
      var n := |b| - 1;
      assert (a + b)[..|a + b| - 1] == a + b[..n];
      CutConcat(a, b[..n], end);
    }
  }

  lemma {:induction false} CutBelow(extents: seq<FileExtent>, end: nat)
    requires forall i :: 0 <= i < |extents| && HasData(extents[i]) ==> extents[i].end <= end
    ensures LiveOf(Cut(extents, end)) == []
    decreases |extents|
  {
    if extents != [] {
      var n := |extents| - 1;
      CutBelow(extents[..n], end);
      LiveOfConcat(Cut(extents[..n], end), CutOne(extents[n], end));
      OneRange(extents[n], end);
    }
  }

  lemma {:induction false} CutAbove(extents: seq<FileExtent>, end: nat)
    requires forall i :: 0 <= i < |extents| && HasData(extents[i]) ==> extents[i].start >= end
    ensures LiveOf(Cut(extents, end)) == LiveOf(extents)
    decreases |extents|
  {
    if extents != [] {
      var n := |extents| - 1;
      CutAbove(extents[..n], end);
      LiveOfConcat(Cut(extents[..n], end), CutOne(extents[n], end));
      OneRange(extents[n], end);
    }
  }

  lemma OneRange(e: FileExtent, end: nat)
    ensures HasData(e) && e.start >= end ==> LiveOf(CutOne(e, end)) == Ranges(e)
    ensures HasData(e) && e.end <= end ==> LiveOf(CutOne(e, end)) == []
    ensures !HasData(e) ==> LiveOf(CutOne(e, end)) == [] == Ranges(e)
  {
    var c := CutOne(e, end);
    if c != [] { assert c[..0] == []; }
  }

  /** `end` is the end of the last extent with data among the first `k`. */
  ghost predicate LastEnd(extents: seq<FileExtent>, k: nat, end: nat)
  {
    && k <= |extents|
    && exists i :: 0 <= i < k && HasData(extents[i]) && extents[i].end == end
                   && forall j :: i < j < k ==> !HasData(extents[j])
  }

  lemma LastEndNext(extents: seq<FileExtent>, k: nat, end: nat)
    requires k < |extents|
    ensures HasData(extents[k]) ==> LastEnd(extents, k + 1, extents[k].end)
    ensures !HasData(extents[k]) && LastEnd(extents, k, end) ==> LastEnd(extents, k + 1, end)
  {
  }

  lemma LastEndSplits(extents: seq<FileExtent>, k: nat, end: nat)
    requires InOrder(extents) && LastEnd(extents, k, end)
    ensures forall i :: 0 <= i < k && HasData(extents[i]) ==> extents[i].end <= end
    ensures forall i :: k <= i < |extents| && HasData(extents[i]) ==> extents[i].start >= end
  {
    var l :| 0 <= l < k && HasData(extents[l]) && extents[l].end == end
             && forall j :: l < j < k ==> !HasData(extents[j]);
    forall i | 0 <= i < k && HasData(extents[i]) ensures extents[i].end <= end {
      if i < l { assert extents[i].end <= extents[l].start; }
    }
  }

  /** A deleted extent up to the end of the last of the first `k` takes exactly these. */
  lemma DeletedLive(extents: seq<FileExtent>, k: nat, end: nat)
    requires InOrder(extents) && LastEnd(extents, k, end)
    ensures LiveOf(Deleted(extents, end)) == LiveOf(extents[k..])
    ensures LiveOf(extents) == LiveOf(extents[..k]) + LiveOf(extents[k..])
  {
    hide LiveOf, Cut;
    var d := FileExtent(0, end, None);
    LastEndSplits(extents, k, end);
    OneDeleted(d);
    CutBelow(extents[..k], end);
    CutAbove(extents[k..], end);
    CutConcat(extents[..k], extents[k..], end);
    LiveOfConcat(Cut(extents[..k], end), Cut(extents[k..], end));
    LiveOfConcat([d], Cut(extents, end));
    LiveOfConcat(extents[..k], extents[k..]);
    assert extents[..k] + extents[k..] == extents;
  }

  /** What is left is left of some extent. */
  ghost predicate IsLeft(x: FileExtent, extents: seq<FileExtent>, end: nat)
  {
    exists i :: 0 <= i < |extents| && x in CutOne(extents[i], end)
  }

  lemma {:induction false} CutLeft(extents: seq<FileExtent>, end: nat)
    ensures forall x :: x in Cut(extents, end) ==> IsLeft(x, extents, end)
    decreases |extents|
  {
    hide CutOne;
    if extents != [] {
      var n := |extents| - 1;
      CutLeft(extents[..n], end);
      forall x | x in Cut(extents, end) ensures IsLeft(x, extents, end) {
        if x in Cut(extents[..n], end) {
          var i :| 0 <= i < n && x in CutOne(extents[..n][i], end);
          assert x in CutOne(extents[i], end);
        } else {
          assert x in CutOne(extents[n], end);
        }
      }
    }
  }

  lemma {:induction false} CutInOrder(extents: seq<FileExtent>, end: nat)
    requires InOrder(extents)
    ensures InOrder(Cut(extents, end))
    decreases |extents|
  {
    if extents != [] {
      var n := |extents| - 1;
      var t, c := Cut(extents[..n], end), CutOne(extents[n], end);
      CutInOrder(extents[..n], end);
      CutLeft(extents[..n], end);
      if c != [] && HasData(c[0]) {
        forall i | 0 <= i < |t| && HasData(t[i]) ensures t[i].end <= c[0].start {
          assert IsLeft(t[i], extents[..n], end);
          var p :| 0 <= p < n && t[i] in CutOne(extents[..n][p], end);
          assert HasData(extents[p]) && extents[p].end == t[i].end;
        }
      }
      PushInOrder(t, c);
    }
  }

  lemma PushInOrder(t: seq<FileExtent>, c: seq<FileExtent>)
    requires InOrder(t) && |c| <= 1
    requires c != [] && HasData(c[0]) ==> forall i :: 0 <= i < |t| && HasData(t[i]) ==> t[i].end <= c[0].start
    ensures InOrder(t + c)
  {
  }

  lemma DeletedInOrder(extents: seq<FileExtent>, end: nat)
    requires InOrder(extents)
    ensures InOrder(Deleted(extents, end))
  {
    CutInOrder(extents, end);
    var d := Deleted(extents, end);
    forall i, j | 0 <= i < j < |d| && HasData(d[i]) && HasData(d[j]) ensures d[i].end <= d[j].start {
      assert d[i] == Cut(extents, end)[i - 1] && d[j] == Cut(extents, end)[j - 1];
    }
  }

  lemma DeletedUsable(extents: seq<FileExtent>, block: nat, k: nat, end: nat)
    requires block > 0 && InOrder(extents) && LastEnd(extents, k, end)
    requires forall i :: 0 <= i < |extents| ==> Usable(extents[i], block)
    ensures forall i :: 0 <= i < |Deleted(extents, end)| ==> Usable(Deleted(extents, end)[i], block)
  {
    hide Cut;
    LastEndSplits(extents, k, end);
    CutLeft(extents, end);
    var d := Deleted(extents, end);
    forall i | 0 <= i < |d| ensures Usable(d[i], block) {
      if i > 0 {
        assert d[i] in Cut(extents, end) && IsLeft(d[i], extents, end);
        var p :| 0 <= p < |extents| && d[i] in CutOne(extents[p], end);
        assert Usable(extents[p], block);
      }
    }
  }

  lemma OneDeleted(d: FileExtent)
    requires d.device.None?
    ensures LiveOf([d]) == []
  {
    assert [d][..0] == [];
  }

  lemma LiveOfNext(extents: seq<FileExtent>, k: nat)
    requires k < |extents|
    ensures LiveOf(extents[..k + 1]) == LiveOf(extents[..k]) + Ranges(extents[k])
  {
    assert extents[..k + 1][..k] == extents[..k];
  }

  lemma BytesPush(ranges: seq<Range>, r: Range)
    ensures Bytes(ranges + [r]) == Bytes(ranges) + (r.end - r.start)
  {
    assert (ranges + [r])[..|ranges|] == ranges;
  }

  // ---- The file ----

  ghost function Ids(attributes: seq<Attribute>): seq<nat>
  {
    seq(|attributes|, i requires 0 <= i < |attributes| => attributes[i].id)
  }

  /** Attributes before this one have no data any more. */
  ghost predicate Cleared(attributes: seq<Attribute>, id: nat)
  {
    forall a :: 0 <= a < |attributes| && attributes[a].id < id ==> LiveOf(attributes[a].extents) == []
  }

  ghost function Flat(log: seq<seq<Range>>): seq<Range>
  {
    if log == [] then [] else Flat(log[..|log| - 1]) + log[|log| - 1]
  }

  lemma FlatPush(log: seq<seq<Range>>, ranges: seq<Range>)
    ensures Flat(log + [ranges]) == Flat(log) + ranges
  {
    assert (log + [ranges])[..|log|] == log;
  }

  /** The attributes after the extents of attribute `p` below `end` have been deleted. */
  function Trimmed(attributes: seq<Attribute>, p: nat, end: nat): seq<Attribute>
    requires p < |attributes|
  {
    attributes[p := Attribute(attributes[p].id, Deleted(attributes[p].extents, end))]
  }

  lemma EarlierEmpty(attributes: seq<Attribute>, p: nat)
    requires p < |attributes| && Cleared(attributes, attributes[p].id) && Ascending(attributes)
    ensures Live(attributes) == LiveOf(attributes[p].extents) + Live(attributes[p + 1..])
  {
    hide LiveOf, Live;
    LiveSplit(attributes, p);
    forall q | 0 <= q < p ensures LiveOf(attributes[q].extents) == [] { assert attributes[q].id < attributes[p].id; }
    LiveNone(attributes, p);
    assert Live(attributes[..p]) + LiveOf(attributes[p].extents) == LiveOf(attributes[p].extents);
  }

  lemma TrimShape(attributes: seq<Attribute>, p: nat, end: nat)
    requires p < |attributes| && Cleared(attributes, attributes[p].id)
    requires Ascending(attributes) && AllInOrder(attributes)
    ensures var trimmed := Trimmed(attributes, p, end);
            && Ids(trimmed) == Ids(attributes) && Ascending(trimmed) && AllInOrder(trimmed)
            && Cleared(trimmed, attributes[p].id)
  {
    hide LiveOf, Deleted, InOrder;
    DeletedInOrder(attributes[p].extents, end);
  }

  /** The first `k` records of attribute `p` are deallocated and deleted. */
  lemma TrimLive(attributes: seq<Attribute>, p: nat, k: nat, end: nat)
    requires p < |attributes| && LastEnd(attributes[p].extents, k, end) && Cleared(attributes, attributes[p].id)
    requires Ascending(attributes) && AllInOrder(attributes)
    ensures Live(attributes) == LiveOf(attributes[p].extents[..k]) + Live(Trimmed(attributes, p, end))
  {
    assert k <= |attributes[p].extents|;
    hide LiveOf, Live, Deleted, Cleared, InOrder, LastEnd, Ids;
    var extents, trimmed := attributes[p].extents, Trimmed(attributes, p, end);
    assert InOrder(extents);
    TrimShape(attributes, p, end);
    EarlierEmpty(attributes, p);
    EarlierEmpty(trimmed, p);
    assert trimmed[p + 1..] == attributes[p + 1..];
    DeletedLive(extents, k, end);
    Reassociate(LiveOf(extents[..k]), LiveOf(extents[k..]), Live(attributes[p + 1..]));
  }

  lemma Reassociate(a: seq<Range>, b: seq<Range>, c: seq<Range>)
    ensures a + b + c == a + (b + c)
  {
  }

  /** An attribute without data and those before it are done. */
  lemma NextCleared(attributes: seq<Attribute>, p: nat)
    requires p + 1 < |attributes| && Cleared(attributes, attributes[p].id) && Ascending(attributes)
    requires LiveOf(attributes[p].extents) == []
    ensures Cleared(attributes, attributes[p + 1].id) && attributes[p + 1].id in Ids(attributes)
  {
    hide LiveOf;
    assert forall a :: p + 1 < a < |attributes| ==> attributes[p + 1].id < attributes[a].id;
    forall a | 0 <= a < |attributes| && attributes[a].id < attributes[p + 1].id
      ensures LiveOf(attributes[a].extents) == []
    {
      if a < p { assert attributes[a].id < attributes[p].id; }
    }
    assert Ids(attributes)[p + 1] == attributes[p + 1].id;
  }

  lemma TrimSound(attributes: seq<Attribute>, size: nat, block: nat, p: nat, k: nat, end: nat)
    requires block > 0 && p < |attributes| && LastEnd(attributes[p].extents, k, end)
    requires Cleared(attributes, attributes[p].id)
    requires Ascending(attributes) && AllInOrder(attributes)
    requires Sound(attributes, size, block)
    ensures var bytes := Bytes(LiveOf(attributes[p].extents[..k]));
            bytes <= size && (bytes >= 0 ==> Sound(Trimmed(attributes, p, end), size - bytes, block))
  {
    hide LiveOf, Live, Cleared, Bytes, InOrder, Deleted;
    var trimmed := Trimmed(attributes, p, end);
    TrimLive(attributes, p, k, end);
    BytesConcat(LiveOf(attributes[p].extents[..k]), Live(trimmed));
    LiveBytes(trimmed);
    UsableTrimmed(attributes, block, p, k, end);
  }

  lemma UsableTrimmed(attributes: seq<Attribute>, block: nat, p: nat, k: nat, end: nat)
    requires block > 0 && p < |attributes| && LastEnd(attributes[p].extents, k, end) && AllUsable(attributes, block)
    requires InOrder(attributes[p].extents)
    ensures AllUsable(Trimmed(attributes, p, end), block)
  {
    hide Deleted, Usable, InOrder, LastEnd;
    DeletedUsable(attributes[p].extents, block, k, end);
  }

  lemma AllCleared(attributes: seq<Attribute>, id: nat)
    requires Cleared(attributes, id) && forall a :: 0 <= a < |attributes| ==> attributes[a].id < id
    ensures Live(attributes) == []
  {
    hide LiveOf;
    LiveNone(attributes, |attributes|);
    assert attributes[|attributes|..] == [];
  }

  lemma SkipTo(attributes: seq<Attribute>, p: nat, id: nat)
    requires p < |attributes| && Ascending(attributes) && Cleared(attributes, id)
    requires (forall q :: 0 <= q < p ==> attributes[q].id < id) && attributes[p].id > id
    ensures Cleared(attributes, attributes[p].id) && attributes[p].id in Ids(attributes)
  {
    hide LiveOf;
    assert forall a :: p < a < |attributes| ==> attributes[p].id < attributes[a].id;
    assert Ids(attributes)[p] == attributes[p].id;
  }

  ghost predicate Sound(attributes: seq<Attribute>, size: nat, block: nat)
    requires block > 0
  {
    AllUsable(attributes, block) && Bytes(Live(attributes)) <= size
  }

  /** The loop over the extents of one attribute: deallocates until the end or until the transaction
      is too big. */
  method Scan(extents: seq<FileExtent>, block: nat) returns (ok: bool, ranges: seq<Range>, k: nat, end: nat, full: bool)
    requires block > 0
    ensures !ok ==> exists i :: 0 <= i < |extents| && !Usable(extents[i], block)
    ensures ok ==>
              k <= |extents| && ranges == LiveOf(extents[..k]) && (full ==> |ranges| == MUTATION_THRESHOLD) &&
                  (!full ==> k == |extents|)
    ensures |ranges| <= MUTATION_THRESHOLD
    ensures ok && ranges == [] ==> !full
    ensures ok && ranges != [] ==> LastEnd(extents, k, end)
    ensures forall i :: 0 <= i < |ranges| ==> ranges[i].start < ranges[i].end
  {
    hide LiveOf, LastEnd;
    ranges, k, end, full := [], 0, 0, false;
    NothingThere();
    while k < |extents|
      invariant k <= |extents| && ranges == LiveOf(extents[..k]) && |ranges| < MUTATION_THRESHOLD && !full
      invariant ranges != [] ==> LastEnd(extents, k, end)
      invariant forall i :: 0 <= i < |ranges| ==> ranges[i].start < ranges[i].end
    {
      var e := extents[k];
      LiveOfNext(extents, k);
      LastEndNext(extents, k, end);
      if e.device.Some? {
        if e.start >= e.end {
          return false, ranges, k, end, false;
        }
        var r := DeviceRange(e);
        end := e.end;
        if r.start % block != 0 || r.end % block != 0 {
          return false, ranges, k, end, false;
        }
        ranges := ranges + [r];
        if |ranges| >= MUTATION_THRESHOLD {
          return true, ranges, k + 1, end, true;
        }
      }
      k := k + 1;
    }
    ok := true;
  }

  class StoredFile {
    const block: nat
    var attributes: seq<Attribute>
    var allocatedSize: nat
    var gone: bool

    ghost predicate Valid()
      reads this
    {
      block > 0 && Ascending(attributes) && AllInOrder(attributes) && (gone ==> attributes == [])
    }

    constructor (block: nat, attributes: seq<Attribute>, allocatedSize: nat)
      requires block > 0 && Ascending(attributes) && AllInOrder(attributes)
      ensures Valid() && this.block == block && this.attributes == attributes && this.allocatedSize == allocatedSize
      ensures !gone
    {
      this.block, this.attributes, this.allocatedSize, this.gone := block, attributes, allocatedSize, false;
    }

    /** One transaction of tombstoning. */
    method TrimSome(id: nat) returns (result: TrimResult, ranges: seq<Range>)
      requires Valid() && !gone && Cleared(attributes, id)
      modifies this
      ensures Valid()
      ensures result.Inconsistent? ==> unchanged(this) && !Sound(attributes, allocatedSize, block)
      ensures !result.Inconsistent? ==>
                old(Live(attributes)) == ranges + Live(attributes) && |ranges| <= MUTATION_THRESHOLD
      ensures result.Incomplete? || (result.Done? && result.next.Some?) ==>
                !gone && allocatedSize == old(allocatedSize) - Bytes(ranges) && Ids(attributes) == old(Ids(attributes))
      ensures result.Incomplete? ==> |ranges| == MUTATION_THRESHOLD && Cleared(attributes, id)
      ensures result.Done? && result.next.Some? ==>
                result.next.value > id && Cleared(attributes, result.next.value) && result.next.value in Ids(attributes)
      ensures result.Done? && result.next.None? ==> gone
      ensures !gone && old(Sound(attributes, allocatedSize, block)) ==> Sound(attributes, allocatedSize, block)
    {
      hide LiveOf, Live, Deleted, Bytes, AllUsable, Cleared, Ids, Sound;
      NothingBefore(attributes);
      var p := 0;
      while p < |attributes| && attributes[p].id < id
        invariant 0 <= p <= |attributes| && forall q :: 0 <= q < p ==> attributes[q].id < id
      {
        p := p + 1;
      }
      if p == |attributes| {
        AllCleared(attributes, id);
        gone, attributes := true, [];
        return Done(None), [];
      }
      if attributes[p].id != id {
        SkipTo(attributes, p, id);
        return Done(Some(attributes[p].id)), [];
      }
      result, ranges := TrimAttribute(p);
    }

    /** The same, for an attribute that is there. */
    method TrimAttribute(p: nat) returns (result: TrimResult, ranges: seq<Range>)
      requires Valid() && !gone && p < |attributes| && Cleared(attributes, attributes[p].id)
      modifies this
      ensures Valid()
      ensures result.Inconsistent? ==> unchanged(this) && !Sound(attributes, allocatedSize, block)
      ensures !result.Inconsistent? ==>
                old(Live(attributes)) == ranges + Live(attributes) && |ranges| <= MUTATION_THRESHOLD
      ensures result.Incomplete? || (result.Done? && result.next.Some?) ==>
                !gone && allocatedSize == old(allocatedSize) - Bytes(ranges) && Ids(attributes) == old(Ids(attributes))
      ensures result.Incomplete? ==> |ranges| == MUTATION_THRESHOLD && Cleared(attributes, old(attributes[p].id))
      ensures result.Done? && result.next.Some? ==>
                result.next.value > old(attributes[p].id) && Cleared(attributes, result.next.value) &&
                    result.next.value in Ids(attributes)
      ensures result.Done? && result.next.None? ==> gone
      ensures !gone && old(Sound(attributes, allocatedSize, block)) ==> Sound(attributes, allocatedSize, block)
    {
      hide LiveOf, Live, Deleted, Bytes, AllUsable, Cleared, Ids, Sound, Usable;
      NothingBefore(attributes);
      var extents := attributes[p].extents;
      var ok, k, end, full;
      ok, ranges, k, end, full := Scan(extents, block);
      if !ok {
        Unusable(attributes, allocatedSize, block, p);
        return Inconsistent, [];
      }
      BytesPositive(ranges);
      if ranges != [] {
        TrimShape(attributes, p, end);
        TrimLive(attributes, p, k, end);
        DeletedLive(extents, k, end);
        if Sound(attributes, allocatedSize, block) { TrimSound(attributes, allocatedSize, block, p, k, end); }
      }
      if !full && p + 1 == |attributes| {
        assert extents[..k] == extents && attributes[p + 1..] == [];
        EarlierEmpty(attributes, p);
        assert ranges + [] == ranges;
        gone, attributes := true, [];
        return Done(None), ranges;
      }
      var bytes := Sum(ranges);
      if allocatedSize < bytes {
        return Inconsistent, [];
      }
      if ranges != [] {
        attributes, allocatedSize := Trimmed(attributes, p, end), allocatedSize - bytes;
      }
      if full {
        return Incomplete, ranges;
      }
      assert extents[..k] == extents && extents[k..] == [];
      NothingThere();
      NextCleared(attributes, p);
      return Done(Some(attributes[p + 1].id)), ranges;
    }

    /** Tombstoning comes to an end, whatever the file looks like.  Unless the volume is inconsistent,
        its transactions together deallocate the device ranges of all live extents, each once and in
        order, and the file is gone. */
    method Tombstone() returns (ok: bool, log: seq<seq<Range>>)
      requires Valid() && !gone
      modifies this
      ensures Valid()
      ensures ok ==> gone && Flat(log) == old(Live(attributes)) && forall i :: 0 <= i < |log| ==>
              |log[i]| <= MUTATION_THRESHOLD
      ensures !ok ==> !old(Sound(attributes, allocatedSize, block))
    {
      hide LiveOf, Live, Bytes, AllUsable, Cleared, Sound, Ids, Flat;
      log := [];
      NothingBefore(attributes);
      var next := Some(0);
      ghost var sound := Sound(attributes, allocatedSize, block);
      ghost var all := Live(attributes);
      ghost var max := MaxId(attributes);
      while next.Some?
        invariant Valid() && (next.Some? ==> !gone && Cleared(attributes, next.value) && next.value <= max + 1)
        invariant next.None? ==> gone
        invariant Flat(log) + Live(attributes) == all
        invariant !gone ==> forall x :: x in Ids(attributes) ==> x <= max
        invariant sound && !gone ==> Sound(attributes, allocatedSize, block)
        invariant forall i :: 0 <= i < |log| ==> |log[i]| <= MUTATION_THRESHOLD
        decreases next.Some?, |Live(attributes)|, if next.Some? then max + 2 - next.value else 0
      {
        ghost var before := Live(attributes);
        var result, ranges := TrimSome(next.value);
        match result {
          case Inconsistent => return false, log;
          case Incomplete =>
          case Done(n) => next := n;
        }
        FlatPush(log, ranges);
        assert before == ranges + Live(attributes);
        assert Flat(log) + (ranges + Live(attributes)) == (Flat(log) + ranges) + Live(attributes);
        log := log + [ranges];
      }
      assert Flat(log) + [] == Flat(log);
      ok := true;
    }
  }

  ghost function MaxId(attributes: seq<Attribute>): (m: nat)
    requires Ascending(attributes)
    ensures forall x :: x in Ids(attributes) ==> x <= m
  {
    if attributes == [] then 0 else attributes[|attributes| - 1].id
  }

  method Sum(ranges: seq<Range>) returns (n: nat)
    requires forall i :: 0 <= i < |ranges| ==> ranges[i].start < ranges[i].end
    ensures n == Bytes(ranges)
  {
    n := 0;
    for i := 0 to |ranges|
      invariant n == Bytes(ranges[..i])
    {
      assert ranges[..i + 1] == ranges[..i] + [ranges[i]];
      BytesPush(ranges[..i], ranges[i]);
      n := n + (ranges[i].end - ranges[i].start);
    }
    assert ranges[..|ranges|] == ranges;
  }

  lemma {:induction false} BytesPositive(ranges: seq<Range>)
    requires forall i :: 0 <= i < |ranges| ==> ranges[i].start < ranges[i].end
    ensures Bytes(ranges) >= 0
    decreases |ranges|
  {
    if ranges != [] { BytesPositive(ranges[..|ranges| - 1]); }
  }

  lemma {:induction false} LiveOfBytes(extents: seq<FileExtent>)
    ensures Bytes(LiveOf(extents)) >= 0
    decreases |extents|
  {
    if extents != [] {
      var n := |extents| - 1;
      LiveOfBytes(extents[..n]);
      var e := extents[n];
      BytesConcat(LiveOf(extents[..n]), Ranges(e));
    }
  }

  lemma {:induction false} LiveBytes(attributes: seq<Attribute>)
    ensures Bytes(Live(attributes)) >= 0
    decreases |attributes|
  {
    if attributes != [] {
      LiveBytes(attributes[1..]);
      LiveOfBytes(attributes[0].extents);
      BytesConcat(LiveOf(attributes[0].extents), Live(attributes[1..]));
    }
  }

  lemma NothingBefore(attributes: seq<Attribute>)
    ensures Cleared(attributes, 0) && Flat([]) == [] && Live([]) == [] && Bytes([]) == 0
  {
  }

  lemma NothingThere()
    ensures LiveOf([]) == []
  {
  }

  lemma Unusable(attributes: seq<Attribute>, size: nat, block: nat, p: nat)
    requires block > 0 && p < |attributes|
    requires exists i :: 0 <= i < |attributes[p].extents| && !Usable(attributes[p].extents[i], block)
    ensures !Sound(attributes, size, block)
  {
  }
}
