/** The page cache of a file (src/data_buffer.rs, `MemDataBuffer`): which pages are present or being
    read, planning of reads, completion of fills, writes, truncation and the clean-up of reads that
    go away.  Every method is one section under the mutex; sections of different operations
    interleave freely.  The block size of the source is at most the page size. */
module PageCache {
  import opened LsmTypes
  import opened Arith

  const PAGE_SIZE: nat := 4096
  const READ_SIZE: nat := 131072

  type Byte = x: int | 0 <= x < 256

  datatype Span = Span(start: nat, end: nat)

  predicate Aligned(o: nat) { o % PAGE_SIZE == 0 }

  /** The offsets of the pages in a range. */
  predicate PageIn(o: nat, start: nat, end: nat) { Aligned(o) && start <= o < end }

  /** A page with bytes that a write covers and bytes that it does not. */
  ghost predicate Partial(o: nat, offset: nat, len: nat)
  {
    PageIn(o, RoundDown(offset, PAGE_SIZE), offset + len) && (o < offset || offset + len < o + PAGE_SIZE)
  }

  /** What is known of a page: present, or being read by a reader. */
  type Pages = map<nat, Option<nat>>
  type Readers = map<nat, Span>

  /** The page is being read by this reader. */
  predicate Awaits(pages: Pages, o: nat, key: nat) { o in pages && pages[o] == Some(key) }

  /** `ReadKeys` of an operation in flight: the reads it has scheduled, where it ends, and the pages
      `read_page` may still schedule for it. */
  datatype Operation = Operation(keys: seq<nat>, endOffset: nat, wants: set<nat>)
  type Operations = map<nat, Operation>

  // ---- Invariants ----

  /** Every page lies inside the file, and a page being read names a live reader of a range that
      contains it. */
  ghost predicate PagesOk(pages: Pages, readers: Readers, size: nat)
  {
    forall o: nat :: o in pages ==> Aligned(o) && o < size && (pages[o].Some? ==> Reads(readers, pages[o].value, o))
  }

  ghost predicate Reads(readers: Readers, key: nat, o: nat)
  {
    key in readers && readers[key].start <= o < readers[key].end
  }

  ghost predicate ReadersOk(readers: Readers)
  {
    forall k :: k in readers ==> Aligned(readers[k].start) && Aligned(readers[k].end)
  }

  ghost predicate Owns(ops: Operations, id: nat, k: nat) { id in ops && k in ops[id].keys }

  /** Every reader belongs to one operation. */
  ghost predicate OperationsOk(ops: Operations, readers: Readers)
  {
    && (forall id, k :: Owns(ops, id, k) ==> k in readers)
    && (forall k :: k in readers ==> exists id :: Owns(ops, id, k))
    && (forall id, id', k :: Owns(ops, id, k) && Owns(ops, id', k) ==> id == id')
    && (forall id :: id in ops ==> Distinct(ops[id].keys))
  }

  ghost predicate Distinct(keys: seq<nat>) { forall i, j :: 0 <= i < j < |keys| ==> keys[i] != keys[j] }

  /** A page that an operation may still read is inside the file, unless the operation was cut off
      before it. */
  ghost predicate WantsOk(ops: Operations, size: nat)
  {
    forall id: nat :: id in ops ==> WantOk(ops[id], size)
  }

  ghost predicate WantOk(op: Operation, size: nat)
  {
    forall o: nat :: o in op.wants ==> Aligned(o) && (op.endOffset > o ==> o < size)
  }

  /** `written[k]`: the pages written since reader `k` was scheduled.  It no longer reads them. */
  ghost predicate WrittenOk(written: map<nat, set<nat>>, pages: Pages, readers: Readers)
  {
    && written.Keys == readers.Keys
    && forall k, o :: k in readers && o in written[k] && o in pages ==> pages[o] != Some(k)
  }

  // ---- Pages in order ----

  ghost predicate Ascending(s: seq<nat>) { forall i, j :: 0 <= i < j < |s| ==> s[i] < s[j] }

  /** The pages from `start` to `end`, in order (the iteration `BTreeSet::range`). */
  method Range(pages: Pages, start: nat, end: nat) returns (s: seq<nat>)
    requires Aligned(start)
    ensures Ascending(s) && forall o: nat :: o in s <==> o in pages && PageIn(o, start, end)
  {
    s := [];
    var o := start;
    while o < end
      invariant Aligned(o) && o >= start && Ascending(s) && forall i :: 0 <= i < |s| ==> s[i] < o
      invariant forall p: nat :: p in s <==> p in pages && PageIn(p, start, end) && p < o
      decreases end - o
    {
      if o in pages { s := s + [o]; }
      o := o + PAGE_SIZE;
    }
  }

  /** All pages of a range, in order. */
  method Steps(start: nat, end: nat) returns (s: seq<nat>)
    requires Aligned(start)
    ensures Ascending(s) && forall o: nat :: o in s <==> PageIn(o, start, end)
  {
    s := [];
    var o := start;
    while o < end
      invariant Aligned(o) && o >= start && Ascending(s) && forall i :: 0 <= i < |s| ==> s[i] < o
      invariant forall p: nat :: p in s <==> PageIn(p, start, end) && p < o
      decreases end - o
    {
      s := s + [o];
      o := o + PAGE_SIZE;
    }
  }

  lemma AscendingConcat(a: seq<nat>, b: seq<nat>, m: nat)
    requires Ascending(a) && Ascending(b) && (forall o: nat :: o in a ==> o < m) && (forall o: nat :: o in b ==> o >= m)
    ensures Ascending(a + b)
  {
    forall i, j | 0 <= i < j < |a + b| ensures (a + b)[i] < (a + b)[j] {
      if i < |a| { assert a[i] in a; }
      if j >= |a| { assert b[j - |a|] in b; }
    }
  }

  // ---- mark_present ----

  ghost function Marked(pages: Pages, start: nat, end: nat): (r: Pages)
    ensures forall o: nat :: o in r <==> o in pages || PageIn(o, start, end)
    ensures forall o: nat :: o in r ==> r[o] == if PageIn(o, start, end) then None else pages[o]
  {
    var all := pages.Keys + set o: nat | o < end && PageIn(o, start, end);
    map o | o in all :: if PageIn(o, start, end) then None else pages[o]
  }

  /** Inserting pages that are not there; the source asserts that they are not. */
  method InsertAll(pages: Pages, absent: seq<nat>) returns (r: Pages)
    requires Ascending(absent) && forall o: nat :: o in absent ==> o !in pages
    ensures forall o: nat :: o in r <==> o in pages || o in absent
    ensures forall o: nat :: o in r ==> r[o] == if o in pages then pages[o] else None
  {
    r := pages;
    for i := 0 to |absent|
      invariant forall o: nat :: o in r <==> o in pages || o in absent[..i]
      invariant forall o: nat :: o in r ==> r[o] == if o in pages then pages[o] else None
    {
      assert absent[i] !in absent[..i];
      assert absent[i] !in r;           // the assertion of the source
      r := r[absent[i] := None];
      assert absent[..i + 1] == absent[..i] + [absent[i]];
    }
    assert absent[..|absent|] == absent;
  }

  /** No page of the sequence lies between its entries. */
  lemma NoneBetween(pages: Pages, s: seq<nat>, start: nat, end: nat, i: nat, offset: nat)
    requires Ascending(s) && (forall o: nat :: o in s <==> o in pages && PageIn(o, start, end))
    requires i < |s| && (forall j :: 0 <= j < i ==> s[j] < offset) && start <= offset
    ensures s[i] in pages && PageIn(s[i], start, end)
    ensures forall o: nat :: PageIn(o, offset, s[i]) ==> o !in pages
  {
    assert s[i] in s;
    forall o: nat | PageIn(o, offset, s[i]) ensures o !in pages {
      if o in pages {
        assert o in s;
        var j :| 0 <= j < |s| && s[j] == o;
        assert false;
      }
    }
  }

  ghost predicate PreemptedBelow(r: Pages, pages: Pages, from: nat, end: nat, offset: nat)
  {
    && (forall o: nat :: o in r <==> o in pages)
    && (forall o: nat :: o in r ==> r[o] == if PageIn(o, from, end) && o < offset then None else pages[o])
  }

  ghost predicate MissingBelow(missing: seq<nat>, pages: Pages, from: nat, end: nat, offset: nat)
  {
    Ascending(missing) && forall o: nat :: o in missing <==> o !in pages && PageIn(o, from, end) && o < offset
  }

  lemma PreemptOne(r: Pages, pages: Pages, from: nat, end: nat, offset: nat, page: nat)
    requires PreemptedBelow(r, pages, from, end, offset) && page in pages && PageIn(page, from, end) && Aligned(offset)
    requires from <= offset <= page && forall o: nat :: PageIn(o, offset, page) ==> o !in pages
    ensures PreemptedBelow(r[page := None], pages, from, end, page + PAGE_SIZE)
  {
  }

  lemma MissingMore(missing: seq<nat>, gap: seq<nat>, pages: Pages, from: nat, end: nat, offset: nat, page: nat)
    requires MissingBelow(missing, pages, from, end, offset) && page in pages && PageIn(page, from, end)
    requires Aligned(offset)
    requires from <= offset <= page && forall o: nat :: PageIn(o, offset, page) ==> o !in pages
    requires Ascending(gap) && forall o: nat :: o in gap <==> PageIn(o, offset, page)
    ensures MissingBelow(missing + gap, pages, from, end, page + PAGE_SIZE)
  {
    AscendingConcat(missing, gap, offset);
  }

  /** The first loop: pre-empts the reads of existing pages and finds the missing ones before the
      last of them. */
  method Preempt(pages: Pages, from: nat, end: nat) returns (r: Pages, missing: seq<nat>, offset: nat)
    requires Aligned(from)
    ensures Aligned(offset) && offset >= from && PreemptedBelow(r, pages, from, end, offset)
    ensures MissingBelow(missing, pages, from, end, offset)
    ensures forall o: nat :: PageIn(o, offset, end) ==> o !in pages
  {
    hide PreemptedBelow, MissingBelow;
    var existing := Range(pages, from, end);
    r, missing, offset := pages, [], from;
    assert PreemptedBelow(r, pages, from, end, offset) && MissingBelow(missing, pages, from, end, offset) by {
      StartBelow(pages, from, end);
    }
    forall j | 0 <= j < |existing| ensures existing[j] >= from { assert existing[j] in existing; }
    for i := 0 to |existing|
      invariant Aligned(offset) && offset >= from
      invariant forall j :: 0 <= j < i ==> existing[j] < offset
      invariant forall j :: i <= j < |existing| ==> existing[j] >= offset
      invariant PreemptedBelow(r, pages, from, end, offset) && MissingBelow(missing, pages, from, end, offset)
    {
      var page := existing[i];
      NoneBetween(pages, existing, from, end, i, offset);
      PreemptOne(r, pages, from, end, offset, page);
      r := r[page := None];
      var gap := Steps(offset, page);
      MissingMore(missing, gap, pages, from, end, offset, page);
      missing := missing + gap;
      forall j | i < j < |existing| ensures existing[j] >= page + PAGE_SIZE { assert existing[j] in existing; }
      offset := page + PAGE_SIZE;
    }
    assert forall o: nat :: PageIn(o, offset, end) && o in pages ==> o in existing;
  }

  lemma StartBelow(pages: Pages, from: nat, end: nat)
    ensures PreemptedBelow(pages, pages, from, end, from) && MissingBelow([], pages, from, end, from)
  {
  }

  method MarkPresent(pages: Pages, start: nat, end: nat) returns (r: Pages)
    ensures r == Marked(pages, RoundDown(start, PAGE_SIZE), end)
  {
    var from := RoundDown(start, PAGE_SIZE);
    var missing, offset;
    r, missing, offset := Preempt(pages, from, end);
    r := InsertAll(r, missing);
    var rest := Steps(offset, end);
    r := InsertAll(r, rest);
  }

  // ---- Scheduling reads ----

  /** A vacant key of the slab. */
  method Vacant(readers: Readers) returns (key: nat)
    ensures key !in readers
  {
    key := 0;
    ghost var below: set<nat> := {};
    while key in readers
      invariant below <= readers.Keys && |below| == key && forall k :: k in below ==> k < key
      decreases |readers.Keys - below|
    {
      ghost var rest := readers.Keys - below;
      below := below + {key};
      assert readers.Keys - below == rest - {key};
      key := key + 1;
    }
  }

  /** The pages of a range, as being read under a key. */
  ghost function PagesOf(span: Span, key: nat): (r: Pages)
    ensures forall o: nat :: o in r <==> PageIn(o, span.start, span.end)
    ensures forall o: nat :: o in r ==> r[o] == Some(key)
  {
    map o: nat | o < span.end && PageIn(o, span.start, span.end) :: Some(key)
  }

  /** `new_read`: a reader for the range, and a page of it for every page. */
  method NewRead(span: Span, readers: Readers,
                 scheduled: Pages) returns (key: nat, readers': Readers, scheduled': Pages)
    requires Aligned(span.start)
    ensures key !in readers && readers' == readers[key := span]
    ensures scheduled' == scheduled + PagesOf(span, key)
  {
    key := Vacant(readers);
    readers' := readers[key := span];
    scheduled' := scheduled;
    var s := Steps(span.start, span.end);
    for i := 0 to |s|
      invariant forall o: nat :: o in scheduled' <==> o in scheduled || o in s[..i]
      invariant forall o: nat :: o in scheduled' ==> scheduled'[o] == if o in s[..i] then Some(key) else scheduled[o]
    {
      scheduled' := scheduled'[s[i] := Some(key)];
      assert s[..i + 1] == s[..i] + [s[i]];
    }
    assert s[..|s|] == s;
  }

  // ---- Planning a read ----

  /** One part of a read: copied from a present page, taken from a page another read is filling, or
      filled by a new read of the pages of `span`. */
  datatype Segment =
    | Copy(from: nat, to: nat)
    | Wait(from: nat, to: nat)
    | Fill(from: nat, to: nat, span: Span, key: nat)

  ghost predicate InPage(o: nat, from: nat, to: nat) { Aligned(o) && o <= from <= to <= o + PAGE_SIZE }

  ghost predicate SegmentOk(g: Segment, pages: Pages, scheduled: Pages)
  {
    && g.from <= g.to
    && match g
       case Copy(from, to) => exists o :: o in pages && pages[o].None? && InPage(o, from, to)
       case Wait(from, to) => exists o :: o in pages && pages[o].Some? && InPage(o, from, to)
       case Fill(from, to, span, key) =>
         && span.start <= from && to <= span.end
         && forall o: nat :: PageIn(o, span.start, span.end) ==>
             o !in pages && o in scheduled && scheduled[o] == Some(key)
  }

  ghost predicate Consecutive(s: seq<Segment>, from: nat, to: nat)
  {
    if s == [] then from == to else s[|s| - 1].to == to && Consecutive(s[..|s| - 1], from, s[|s| - 1].from)
  }

  lemma ConsecutivePush(s: seq<Segment>, from: nat, g: Segment)
    requires Consecutive(s, from, g.from)
    ensures Consecutive(s + [g], from, g.to)
  {
    assert (s + [g])[..|s|] == s;
  }

  ghost predicate AllOk(s: seq<Segment>, pages: Pages, scheduled: Pages)
  {
    forall i :: 0 <= i < |s| ==> SegmentOk(s[i], pages, scheduled)
  }

  /** New pages keep the segments that are there. */
  lemma AllOkMore(s: seq<Segment>, pages: Pages, scheduled: Pages, more: Pages)
    requires AllOk(s, pages, scheduled) && forall o: nat :: o in more ==> o !in scheduled
    ensures AllOk(s, pages, scheduled + more)
  {
    forall i | 0 <= i < |s| ensures SegmentOk(s[i], pages, scheduled + more) {
      assert SegmentOk(s[i], pages, scheduled);
    }
  }

  /** What has been scheduled so far: pages that are not there yet, below `last`, each being read by
      its new reader. */
  ghost predicate ScheduledOk(scheduled: Pages, pages: Pages, readers: Readers, last: nat, end: nat)
  {
    forall o: nat :: o in scheduled ==>
      && Aligned(o) && o !in pages && o < last && o < end && scheduled[o].Some? && Reads(readers, scheduled[o].value, o)
  }

  lemma ScheduledMore(scheduled: Pages, pages: Pages, readers: Readers, last: nat, end: nat, span: Span, key: nat)
    requires ScheduledOk(scheduled, pages, readers, last, end) && key !in readers && Aligned(span.start)
    requires Aligned(span.end) && span.end <= end
    requires last <= span.start <= span.end && forall o: nat :: PageIn(o, span.start, span.end) ==> o !in pages
    ensures ScheduledOk(scheduled + PagesOf(span, key), pages, readers[key := span], span.end, end)
    ensures forall o: nat :: o in PagesOf(span, key) ==> o !in scheduled
  {
  }

  /** `align_range` with blocks no larger than pages. */
  function AlignRange(start: nat, end: nat, limit: nat): (r: Span)
    requires start < end && RoundUp(end, PAGE_SIZE) <= limit
    ensures r.start == RoundDown(start, PAGE_SIZE) && RoundUp(end, PAGE_SIZE) <= r.end <= limit
    ensures Aligned(limit) ==> Aligned(r.end)
    ensures r.end < limit ==> r.end - r.start >= READ_SIZE
    ensures r.end > RoundUp(end, PAGE_SIZE) ==> r.end - r.start <= READ_SIZE
  {
    var s, e := RoundDown(start, PAGE_SIZE), RoundUp(end, PAGE_SIZE);
    var e' := if e - s < READ_SIZE then s + READ_SIZE else e;
    Span(s, if e' > limit then limit else e')
  }

  lemma ScheduledBelow(scheduled: Pages, pages: Pages, readers: Readers, last: nat, last': nat, end: nat)
    requires ScheduledOk(scheduled, pages, readers, last, end) && last <= last'
    ensures ScheduledOk(scheduled, pages, readers, last', end)
  {
  }

  lemma AllOkPush(s: seq<Segment>, pages: Pages, scheduled: Pages, g: Segment)
    requires AllOk(s, pages, scheduled) && SegmentOk(g, pages, scheduled)
    ensures AllOk(s + [g], pages, scheduled)
  {
    hide SegmentOk;
  }

  lemma FillOk(g: Segment, pages: Pages, scheduled: Pages)
    requires g.Fill? && g.span.start <= g.from <= g.to <= g.span.end
    requires forall o: nat :: PageIn(o, g.span.start, g.span.end) ==> o !in pages
    ensures SegmentOk(g, pages, scheduled + PagesOf(g.span, g.key))
  {
  }

  /** Every read in the plan has its reader. */
  ghost predicate FillsRead(s: seq<Segment>, readers: Readers)
  {
    forall i :: 0 <= i < |s| && s[i].Fill? ==> s[i].key in readers && readers[s[i].key] == s[i].span
  }

  /** The state of the planning loop: the part of the request before `last` is planned. */
  ghost predicate Planned(segments: seq<Segment>, pages: Pages, scheduled: Pages, readers: Readers, offset: nat,
                          last: nat, done: nat, limit: nat)
  {
    && (last == offset || Aligned(last)) && offset <= last
    && Consecutive(segments, offset, done) && AllOk(segments, pages, scheduled) && FillsRead(segments, readers)
    && ScheduledOk(scheduled, pages, readers, RoundDown(last, PAGE_SIZE), limit)
  }

  /** Adding a read of the pages from `last` to `span.end`. */
  lemma PlanFill(segments: seq<Segment>, pages: Pages, scheduled: Pages, readers: Readers, offset: nat, last: nat,
                 limit: nat,
                 to: nat, span: Span, key: nat, next: nat)
    requires Planned(segments, pages, scheduled, readers, offset, last, last, limit) && key !in readers
    requires span.start == RoundDown(last, PAGE_SIZE) && Aligned(span.end) && last <= to <= span.end == next <= limit
    requires forall o: nat :: PageIn(o, span.start, span.end) ==> o !in pages
    ensures Planned(segments + [Fill(last, to, span, key)], pages, scheduled + PagesOf(span, key),
                    readers[key := span], offset, next, to, limit)
  {
    hide RoundDown, Consecutive, AllOk, ScheduledOk;
    ScheduledMore(scheduled, pages, readers, RoundDown(last, PAGE_SIZE), limit, span, key);
    assert RoundDown(next, PAGE_SIZE) == next;
    AllOkMore(segments, pages, scheduled, PagesOf(span, key));
    ConsecutivePush(segments, offset, Fill(last, to, span, key));
    FillOk(Fill(last, to, span, key), pages, scheduled);
    AllOkPush(segments, pages, scheduled + PagesOf(span, key), Fill(last, to, span, key));
  }

  /** Adding the rest of an existing page. */
  lemma PlanPage(segments: seq<Segment>, pages: Pages, scheduled: Pages, readers: Readers, offset: nat, last: nat,
                 limit: nat, page: nat, g: Segment)
    requires Planned(segments, pages, scheduled, readers, offset, last, last, limit) && page in pages && Aligned(page)
    requires page <= last < page + PAGE_SIZE && InPage(page, last, g.to) && g.from == last
    requires (g.Copy? && pages[page].None?) || (g.Wait? && pages[page].Some?)
    ensures Planned(segments + [g], pages, scheduled, readers, offset, page + PAGE_SIZE, g.to, limit)
  {
    hide RoundDown, Consecutive, AllOk, ScheduledOk;
    ConsecutivePush(segments, offset, g);
    assert SegmentOk(g, pages, scheduled);
    AllOkPush(segments, pages, scheduled, g);
    ScheduledBelow(scheduled, pages, readers, RoundDown(last, PAGE_SIZE), RoundDown(page + PAGE_SIZE, PAGE_SIZE),
                   limit);
  }

  /** The length of the buffer that a read really fills, and the offset it ends at. */
  function ReadEnd(size: nat, offset: nat, len: nat): (r: (nat, nat))
    requires offset < size
    ensures offset <= r.1 <= r.0 && r.1 <= size && r.0 <= offset + len && RoundUp(r.1, PAGE_SIZE) >= r.0
    ensures r.1 == if offset + len < size then offset + len else size
  {
    if size - offset < len then
      var aligned := RoundUp(size, PAGE_SIZE);
      (if aligned - offset < len then aligned else offset + len, size)
    else (offset + len, offset + len)
  }

  ghost predicate NewKeys(readers: Readers, readers': Readers, keys: seq<nat>)
  {
    && Distinct(keys)
    && (forall k :: k in keys ==> k !in readers)
    && (forall k :: k in readers' <==> k in readers || k in keys)
    && (forall k :: k in readers ==> readers'[k] == readers[k])
  }

  /** The scheduled pages are all read by new readers. */
  ghost predicate KeysNew(readers: Readers, scheduled: Pages)
  {
    forall o: nat :: o in scheduled ==> scheduled[o].Some? && scheduled[o].value !in readers
  }

  lemma KeysNewMore(before: Readers, readers: Readers, keys: seq<nat>, scheduled: Pages, span: Span, key: nat)
    requires KeysNew(before, scheduled) && NewKeys(before, readers, keys) && key !in readers
    ensures KeysNew(before, scheduled + PagesOf(span, key))
  {
  }

  lemma NewKeysPush(readers: Readers, readers': Readers, keys: seq<nat>, key: nat, span: Span)
    requires NewKeys(readers, readers', keys) && key !in readers' && ReadersOk(readers') && Aligned(span.start)
    requires Aligned(span.end)
    ensures NewKeys(readers, readers'[key := span], keys + [key]) && ReadersOk(readers'[key := span])
  {
  }

  ghost predicate NothingIn(pages: Pages, start: nat, end: nat)
  {
    forall o: nat :: PageIn(o, start, end) ==> o !in pages
  }

  lemma PlanNothing(pages: Pages, readers: Readers, offset: nat, limit: nat)
    ensures Planned([], pages, map[], readers, offset, offset, offset, limit) && NewKeys(readers, readers, [])
    ensures KeysNew(readers, map[])
  {
  }

  /** What the loop leaves to the end: nothing is there between `last` and the read-ahead limit. */
  lemma NothingLeft(pages: Pages, order: seq<nat>, start: nat, limit: nat, i: nat, last: nat)
    requires Ascending(order) && (forall o: nat :: o in order <==> o in pages && PageIn(o, start, limit))
    requires i <= |order| && (forall j :: 0 <= j < i ==> order[j] < last) && start <= last
    ensures NothingIn(pages, last, if i < |order| then order[i] else limit)
  {
    var end := if i < |order| then order[i] else limit;
    if i < |order| { assert order[i] in order; }
    forall o: nat | PageIn(o, last, end) ensures o !in pages {
      assert o in pages ==> o in order;
    }
  }

  lemma NothingSub(pages: Pages, start: nat, end: nat, end': nat)
    requires NothingIn(pages, start, end) && end' <= end
    ensures NothingIn(pages, start, end')
  {
  }

  lemma PlanDone(segments: seq<Segment>, pages: Pages, scheduled: Pages, readers: Readers, offset: nat, last: nat,
                 done: nat, limit: nat)
    requires Planned(segments, pages, scheduled, readers, offset, last, done, limit) && last <= limit
    ensures Consecutive(segments, offset, done) && AllOk(segments, pages, scheduled) && FillsRead(segments, readers)
    ensures ScheduledOk(scheduled, pages, readers, limit, limit)
  {
    ScheduledBelow(scheduled, pages, readers, RoundDown(last, PAGE_SIZE), limit, limit);
  }

  /** Schedules a read of pages that are not there, for the part of the request up to `to`. */
  method ScheduleFill(span: Span, to: nat, ghost pages: Pages, segments: seq<Segment>, readers: Readers,
                      scheduled: Pages, keys: seq<nat>,
                      ghost before: Readers, ghost offset: nat, last: nat, ghost limit: nat)
    returns (segments': seq<Segment>, readers': Readers, scheduled': Pages, keys': seq<nat>)
    requires Planned(segments, pages, scheduled, readers, offset, last, last, limit) && NewKeys(before, readers, keys)
    requires KeysNew(before, scheduled) && ReadersOk(readers)
    requires span.start == RoundDown(last, PAGE_SIZE) && Aligned(span.end) && last <= to <= span.end <= limit
    requires NothingIn(pages, span.start, span.end)
    ensures Planned(segments', pages, scheduled', readers', offset, span.end, to, limit)
    ensures NewKeys(before, readers', keys') && KeysNew(before, scheduled') && ReadersOk(readers')
  {
    hide RoundDown, Planned, NewKeys, KeysNew, ReadersOk;
    var key;
    key, readers', scheduled' := NewRead(span, readers, scheduled);
    PlanFill(segments, pages, scheduled, readers, offset, last, limit, to, span, key, span.end);
    NewKeysPush(before, readers, keys, key, span);
    KeysNewMore(before, readers, keys, scheduled, span, key);
    segments', keys' := segments + [Fill(last, to, span, key)], keys + [key];
  }

  ghost predicate Listed(order: seq<nat>, pages: Pages, start: nat, limit: nat)
  {
    Ascending(order) && forall o: nat :: o in order <==> o in pages && PageIn(o, start, limit)
  }

  method List(pages: Pages, start: nat, limit: nat) returns (order: seq<nat>)
    requires Aligned(start)
    ensures Listed(order, pages, start, limit)
  {
    order := Range(pages, start, limit);
  }

  lemma ListedAt(order: seq<nat>, pages: Pages, start: nat, limit: nat, i: nat)
    requires Listed(order, pages, start, limit) && i < |order|
    ensures order[i] in pages && Aligned(order[i]) && Aligned(order[i] + PAGE_SIZE) && start <= order[i]
    ensures order[i] + PAGE_SIZE <= RoundUp(limit, PAGE_SIZE)
  {
    hide RoundUp;
    assert order[i] in order;
  }

  lemma RoundDownAligned(x: nat)
    ensures Aligned(RoundDown(x, PAGE_SIZE))
  {
    hide RoundDown;
  }

  lemma AlignedBelow(x: nat, page: nat)
    requires Aligned(x) && Aligned(page) && x < page + PAGE_SIZE
    ensures x <= page
  {
  }

  lemma RoundUpAligned(x: nat)
    requires Aligned(x)
    ensures RoundUp(x, PAGE_SIZE) == x
  {
    hide RoundUp;
  }

  /** Handles a page that is there, and the gap before it. */
  method PlanExisting(page: nat, pages: Pages, segments: seq<Segment>, readers: Readers, scheduled: Pages,
                      keys: seq<nat>,
                      ghost before: Readers, offset: nat, last: nat, bufEnd: nat, ghost limit: nat)
    returns (segments': seq<Segment>, readers': Readers, scheduled': Pages, keys': seq<nat>, done: nat)
    requires Planned(segments, pages, scheduled, readers, offset, last, last, limit) && NewKeys(before, readers, keys)
    requires KeysNew(before, scheduled) && ReadersOk(readers)
    requires page in pages && Aligned(page) && last < page + PAGE_SIZE && page + PAGE_SIZE <= limit && page <= bufEnd
    requires last <= bufEnd
    requires page > last ==> NothingIn(pages, RoundDown(last, PAGE_SIZE), page)
    ensures Planned(segments', pages, scheduled', readers', offset, page + PAGE_SIZE, done, limit)
    ensures done == Min(page + PAGE_SIZE, bufEnd)
    ensures NewKeys(before, readers', keys') && KeysNew(before, scheduled') && ReadersOk(readers')
  {
    hide RoundDown, Planned, NewKeys, KeysNew, ReadersOk, NothingIn;
    var from := last;
    segments', readers', scheduled', keys' := segments, readers, scheduled, keys;
    if page > last {
      segments', readers', scheduled', keys' :=
        ScheduleFill(Span(RoundDown(last, PAGE_SIZE), page), page, pages, segments, readers, scheduled, keys, before,
                     offset, last, limit);
      from := page;
    }
    done := Min(page + PAGE_SIZE, bufEnd);
    var g := if pages[page].None? then Copy(from, done) else Wait(from, done);
    PlanPage(segments', pages, scheduled', readers', offset, from, limit, page, g);
    segments' := segments' + [g];
  }

  /** The loop over the pages that are there. */
  method PlanPages(pages: Pages, readers: Readers, limit: nat, offset: nat, bufEnd: nat, endOffset: nat)
    returns (segments: seq<Segment>, readers': Readers, scheduled: Pages, keys: seq<nat>, last: nat, done: nat,
             readahead: nat)
    requires ReadersOk(readers) && Aligned(limit) && offset <= endOffset <= bufEnd && endOffset <= limit
    requires offset < limit
    ensures Planned(segments, pages, scheduled, readers', offset, last, done, limit) && NewKeys(readers, readers', keys)
    ensures KeysNew(readers, scheduled) && ReadersOk(readers')
    ensures (last == offset || Aligned(last)) && offset <= last <= limit && done == Min(last, bufEnd)
    ensures NothingIn(pages, RoundDown(last, PAGE_SIZE), readahead) && Aligned(readahead)
    ensures endOffset <= readahead <= limit
  {
    hide RoundUp, RoundDown, Planned, ReadersOk, NewKeys, KeysNew, NothingIn, Listed, ScheduledOk, Aligned;
    var start := RoundDown(offset, PAGE_SIZE);
    RoundDownAligned(offset);
    var order := List(pages, start, limit);
    readahead := limit;
    last, done := offset, offset;
    segments, readers', scheduled, keys := [], readers, map[], [];
    PlanNothing(pages, readers, offset, limit);
    RoundUpAligned(limit);
    var i := 0;
    while i < |order|
      invariant 0 <= i <= |order| && readahead == limit
      invariant Planned(segments, pages, scheduled, readers', offset, last, done, limit)
      invariant (last == offset || Aligned(last)) && offset <= last <= limit && done == Min(last, bufEnd)
      invariant forall j :: 0 <= j < i ==> order[j] + PAGE_SIZE <= last
      invariant ReadersOk(readers') && NewKeys(readers, readers', keys) && KeysNew(readers, scheduled)
    {
      var page := order[i];
      ListedAt(order, pages, start, limit, i);
      if page + PAGE_SIZE <= last {
        i := i + 1;
        continue;
      }
      if page >= endOffset {
        readahead := page;
        break;
      }
      if last != offset { AlignedBelow(last, page); }
      NothingBefore(pages, order, start, limit, i, offset, last);
      segments, readers', scheduled, keys, done :=
        PlanExisting(page, pages, segments, readers', scheduled, keys, readers, offset, last, bufEnd, limit);
      last := page + PAGE_SIZE;
      i := i + 1;
    }
    NothingBefore(pages, order, start, limit, i, offset, last);
  }

  lemma NothingBefore(pages: Pages, order: seq<nat>, start: nat, limit: nat, i: nat, offset: nat, last: nat)
    requires Listed(order, pages, start, limit) && start == RoundDown(offset, PAGE_SIZE) && offset <= last
    requires i <= |order| && (forall j :: 0 <= j < i ==> order[j] + PAGE_SIZE <= last)
    ensures NothingIn(pages, RoundDown(last, PAGE_SIZE), if i < |order| then order[i] else limit)
  {
    hide RoundDown;
    forall j | 0 <= j < i ensures order[j] < RoundDown(last, PAGE_SIZE) { assert order[j] in order; }
    NothingLeft(pages, order, start, limit, i, RoundDown(last, PAGE_SIZE));
  }

  /** The plan of a read: what is done for each part of it, the new readers and pages. */
  method PlanRead(pages: Pages, readers: Readers, size: nat, offset: nat, len: nat)
    returns (segments: seq<Segment>, readers': Readers, scheduled: Pages, keys: seq<nat>)
    requires ReadersOk(readers) && offset < size
    ensures Consecutive(segments, offset, ReadEnd(size, offset, len).0) && AllOk(segments, pages, scheduled)
    ensures ScheduledOk(scheduled, pages, readers', RoundUp(size, PAGE_SIZE), RoundUp(size, PAGE_SIZE))
    ensures ReadersOk(readers') && NewKeys(readers, readers', keys) && KeysNew(readers, scheduled)
    ensures FillsRead(segments, readers')
  {
    hide RoundUp, RoundDown, Planned, ReadersOk, NewKeys, KeysNew, NothingIn, Consecutive, AllOk, ScheduledOk, ReadEnd;
    hide FillsRead;
    hide AlignRange;
    var (bufEnd, endOffset) := ReadEnd(size, offset, len);
    var limit := RoundUp(size, PAGE_SIZE);
    var last, done, readahead;
    segments, readers', scheduled, keys, last, done, readahead := PlanPages(pages, readers, limit, offset, bufEnd,
        endOffset);
    if done < bufEnd {
      TailStarts(size, offset, len, last);
      var from := if last == offset then RoundDown(offset, PAGE_SIZE) else last;
      var span := AlignRange(from, endOffset, readahead);
      NothingSub(pages, RoundDown(last, PAGE_SIZE), readahead, span.end);
      segments, readers', scheduled, keys := ScheduleFill(span, bufEnd, pages, segments, readers', scheduled, keys,
                                                          readers, offset, last, limit);
      last, done := span.end, bufEnd;
    }
    PlanDone(segments, pages, scheduled, readers', offset, last, done, limit);
  }

  /** What is left at the end starts inside the file. */
  lemma TailStarts(size: nat, offset: nat, len: nat, last: nat)
    requires offset < size && offset <= last < ReadEnd(size, offset, len).0 && (last == offset || Aligned(last))
    ensures var (bufEnd, end) := ReadEnd(size, offset, len);
            && last < end && bufEnd <= RoundUp(end, PAGE_SIZE)
            && (forall limit :: Aligned(limit) && end <= limit ==> RoundUp(end, PAGE_SIZE) <= limit)
            && RoundDown(if last == offset then RoundDown(offset, PAGE_SIZE) else last, PAGE_SIZE) ==
                RoundDown(last, PAGE_SIZE)
  {
    hide RoundUp, RoundDown, ReadEnd;
    var (bufEnd, end) := ReadEnd(size, offset, len);
    var r := RoundUp(end, PAGE_SIZE);
    assert r < end + PAGE_SIZE;
  }

  // ---- What each operation does to the invariants ----

  function Shorten(ops: Operations, size: nat): Operations
  {
    map id | id in ops :: ops[id].(endOffset := Min(ops[id].endOffset, size))
  }

  function KeepBelow(pages: Pages, size: nat): Pages { map o | o in pages && o < size :: pages[o] }

  /** Pages written in a range, as the readers in flight have to see it. */
  ghost function Note(written: map<nat, set<nat>>, start: nat, end: nat): map<nat, set<nat>>
  {
    map k | k in written :: written[k] + set o: nat | o < end && PageIn(o, start, end)
  }

  lemma MarkedOk(pages: Pages, readers: Readers, size: nat, written: map<nat, set<nat>>, start: nat, end: nat)
    requires PagesOk(pages, readers, size) && WrittenOk(written, pages, readers) && Aligned(start)
    requires end <= RoundUp(size, PAGE_SIZE)
    ensures PagesOk(Marked(pages, start, end), readers, size)
    ensures WrittenOk(Note(written, start, end), Marked(pages, start, end), readers)
  {
    hide RoundUp, Marked;
  }

  lemma PagesGrow(pages: Pages, readers: Readers, size: nat, size': nat)
    requires PagesOk(pages, readers, size) && size <= size'
    ensures PagesOk(pages, readers, size')
  {
  }

  lemma KeptOk(pages: Pages, readers: Readers, size: nat, size': nat, written: map<nat, set<nat>>)
    requires PagesOk(pages, readers, size) && WrittenOk(written, pages, readers)
    ensures PagesOk(KeepBelow(pages, size'), readers, size') && WrittenOk(written, KeepBelow(pages, size'), readers)
  {
  }

  lemma ShortenOk(ops: Operations, readers: Readers, size: nat, size': nat)
    requires OperationsOk(ops, readers) && WantsOk(ops, size)
    ensures OperationsOk(Shorten(ops, size'), readers) && WantsOk(Shorten(ops, size'), size')
  {
    OwnsSame(ops, Shorten(ops, size'));
    hide Owns;
    forall k | k in readers ensures exists id :: Owns(Shorten(ops, size'), id, k) {
      var id :| Owns(ops, id, k);
      assert Owns(Shorten(ops, size'), id, k);
    }
  }

  lemma OwnsSame(ops: Operations, ops': Operations)
    requires ops.Keys == ops'.Keys && forall id :: id in ops ==> ops'[id].keys == ops[id].keys
    ensures forall id, k :: Owns(ops', id, k) == Owns(ops, id, k)
  {
  }

  lemma OwnsPut(ops: Operations, ops': Operations, id: nat, op: Operation)
    requires ops' == ops[id := op]
    ensures forall i, k :: Owns(ops', i, k) == if i == id then k in op.keys else Owns(ops, i, k)
    ensures forall i :: i in ops' ==> i == id || (i in ops && ops'[i] == ops[i])
  {
  }

  /** New readers with their pages, for a new operation or one that is there. */
  lemma ScheduleOk(pages: Pages, scheduled: Pages, readers: Readers, readers': Readers, size: nat)
    requires PagesOk(pages, readers, size)
    requires ScheduledOk(scheduled, pages, readers', RoundUp(size, PAGE_SIZE), RoundUp(size, PAGE_SIZE))
    requires forall k :: k in readers ==> k in readers' && readers'[k] == readers[k]
    ensures PagesOk(pages + scheduled, readers', size) && forall o :: o in scheduled ==> o !in pages
  {
    hide RoundUp;
  }

  ghost function WithKeys(written: map<nat, set<nat>>, readers: Readers): map<nat, set<nat>>
  {
    map k | k in readers :: if k in written then written[k] else {}
  }

  lemma WrittenMore(written: map<nat, set<nat>>, pages: Pages, scheduled: Pages, readers: Readers, readers': Readers)
    requires WrittenOk(written, pages, readers) && (forall k :: k in readers ==> k in readers')
    requires forall o :: o in scheduled ==> o !in pages && scheduled[o].Some? && scheduled[o].value !in readers
    ensures WrittenOk(WithKeys(written, readers'), pages + scheduled, readers')
  {
  }

  lemma OperationsAdd(ops: Operations, readers: Readers, readers': Readers, keys: seq<nat>, id: nat, op: Operation)
    requires OperationsOk(ops, readers) && NewKeys(readers, readers', keys) && id !in ops && op.keys == keys
    ensures OperationsOk(ops[id := op], readers')
  {
    var ops' := ops[id := op];
    assert forall k :: !Owns(ops, id, k);
    OwnsPut(ops, ops', id, op);
    hide Owns, Distinct;
    forall k | k in readers' ensures exists i :: Owns(ops', i, k) {
      if k in keys {
        assert Owns(ops', id, k);
      } else {
        var i :| Owns(ops, i, k);
        assert Owns(ops', i, k);
      }
    }
  }

  lemma OperationsPush(ops: Operations, readers: Readers, key: nat, span: Span, id: nat)
    requires OperationsOk(ops, readers) && key !in readers && id in ops
    ensures OperationsOk(ops[id := ops[id].(keys := ops[id].keys + [key])], readers[key := span])
  {
    var op := ops[id].(keys := ops[id].keys + [key]);
    var ops' := ops[id := op];
    OwnsPut(ops, ops', id, op);
    assert forall k :: k in ops[id].keys <==> Owns(ops, id, k);
    assert forall k :: k in op.keys <==> k == key || k in ops[id].keys by { assert op.keys[|ops[id].keys|] == key; }
    assert !Owns(ops, id, key) && Distinct(op.keys);
    hide Owns, Distinct;
    var readers' := readers[key := span];
    forall k | k in readers' ensures exists i :: Owns(ops', i, k) {
      if k == key {
        assert Owns(ops', id, k);
      } else {
        var i :| Owns(ops, i, k);
        assert Owns(ops', i, k);
      }
    }
  }

  function Without(pages: Pages, key: nat): Pages { map o | o in pages && pages[o] != Some(key) :: pages[o] }

  function Present(pages: Pages, key: nat): Pages
  {
    map o | o in pages :: if pages[o] == Some(key) then None else pages[o]
  }

  lemma WithoutOk(pages: Pages, readers: Readers, size: nat, key: nat)
    requires PagesOk(pages, readers, size) && ReadersOk(readers)
    ensures PagesOk(Without(pages, key), readers - {key}, size) && ReadersOk(readers - {key})
  {
  }

  lemma PresentOk(pages: Pages, readers: Readers, size: nat, key: nat, written: map<nat, set<nat>>)
    requires PagesOk(pages, readers, size) && WrittenOk(written, pages, readers)
    ensures PagesOk(Present(pages, key), readers, size) && WrittenOk(written, Present(pages, key), readers)
  {
  }

  // ---- The cache ----

  /** What `read_page` finds. */
  datatype PageState = CutOff | Schedule(key: nat) | Pending(key: nat) | Ready

  class Cache {
    var size: nat
    var buf: seq<Byte>
    var pages: Pages
    var readers: Readers
    var ops: Operations
    ghost var written: map<nat, set<nat>>

    ghost predicate Valid()
      reads this
    {
      && |buf| == RoundUp(size, PAGE_SIZE)
      && PagesOk(pages, readers, size) && ReadersOk(readers)
      && OperationsOk(ops, readers) && WantsOk(ops, size)
      && WrittenOk(written, pages, readers)
    }

    constructor (size: nat)
      ensures Valid() && this.size == size && pages == map[] && readers == map[] && ops == map[]
    {
      this.size := size;
      this.buf := seq(RoundUp(size, PAGE_SIZE), i => 0);
      this.pages, this.readers, this.ops, this.written := map[], map[], map[], map[];
    }

    /** The locked part of `resize`. */
    method Resize(newSize: nat)
      requires Valid()
      modifies this
      ensures Valid() && size == newSize && readers == old(readers) && ops == Shorten(old(ops), newSize)
      ensures forall i :: 0 <= i < |buf| ==>
                buf[i] == if i < |old(buf)| && !(newSize <= i < old(size)) then old(buf)[i] else 0
      ensures pages == if newSize < old(size) then KeepBelow(old(pages), newSize)
              else Marked(old(pages), RoundDown(old(size), PAGE_SIZE), |buf|)
    {
      hide RoundUp, RoundDown, PagesOk, ReadersOk, OperationsOk, WantsOk, WrittenOk, Marked;
      var aligned := RoundUp(newSize, PAGE_SIZE);
      var oldSize, oldBuf := size, buf;
      buf := seq(aligned, i requires 0 <= i < aligned =>
        if i < |oldBuf| && !(newSize <= i < oldSize) then oldBuf[i] else 0);
      ShortenOk(ops, readers, size, newSize);
      size := newSize;
      if newSize < oldSize {
        KeptOk(pages, readers, oldSize, newSize, written);
        pages := KeepBelow(pages, newSize);
      } else {
        PagesGrow(pages, readers, oldSize, newSize);
        MarkedOk(pages, readers, newSize, written, RoundDown(oldSize, PAGE_SIZE), aligned);
        written := Note(written, RoundDown(oldSize, PAGE_SIZE), aligned);
        pages := MarkPresent(pages, oldSize, aligned);
      }
      ops := Shorten(ops, newSize);
    }

    /** The locked end of `write`: the data goes in and its pages are present, whoever was reading
        them. */
    method Write(offset: nat, data: seq<Byte>)
      requires Valid()
      modifies this
      ensures Valid() && readers == old(readers)
      ensures size == Max(old(size), offset + |data|)
      ensures ops == if size > old(size) then Shorten(old(ops), size) else old(ops)
      ensures buf[offset..offset + |data|] == data
      ensures forall i :: 0 <= i < |buf| && !(offset <= i < offset + |data|) ==>
                buf[i] == if i < |old(buf)| then old(buf)[i] else 0
      ensures forall o: nat :: PageIn(o, RoundDown(offset, PAGE_SIZE), offset + |data|) ==> o in pages && pages[o].None?
      ensures forall o: nat ::
                size > old(size) && PageIn(o, RoundDown(old(size), PAGE_SIZE), |buf|) ==> o in pages && pages[o].None?
      ensures forall o: nat ::
                !PageIn(o, RoundDown(offset, PAGE_SIZE), offset + |data|)
                && !(size > old(size) && PageIn(o, RoundDown(old(size), PAGE_SIZE), |buf|)) ==>
                (o in pages <==> o in old(pages)) && (o in pages ==> pages[o] == old(pages)[o])
      ensures forall k, o: nat :: k in readers && PageIn(o, RoundDown(offset, PAGE_SIZE), offset + |data|) ==>
              k in written && o in written[k]
    {
      hide RoundUp, RoundDown, PagesOk, ReadersOk, OperationsOk, WantsOk, Marked;
      var end := offset + |data|;
      if end > size {
        Resize(end);
      }
      MarkedOk(pages, readers, size, written, RoundDown(offset, PAGE_SIZE), end);
      buf := buf[..offset] + data + buf[end..];
      pages := MarkPresent(pages, offset, end);
      written := Note(written, RoundDown(offset, PAGE_SIZE), end);
    }

    /** The locked start of `read`: plans the parts of the request, in order and without a gap, and
        schedules reads of exactly the pages that are not there. */
    method BeginRead(id: nat, offset: nat, len: nat) returns (segments: seq<Segment>)
      requires Valid() && id !in ops
      modifies this
      ensures Valid() && size == old(size) && buf == old(buf)
      ensures offset >= old(size) ==>
                segments == [] && pages == old(pages) && readers == old(readers) && ops == old(ops)
      ensures offset < old(size) ==>
                && Consecutive(segments, offset, ReadEnd(size, offset, len).0) && AllOk(segments, old(pages), pages)
                && (forall o :: o in old(pages) ==> o in pages && pages[o] == old(pages)[o])
                && id in ops && ops == old(ops)[id := ops[id]] && ops[id].endOffset == ReadEnd(size, offset, len).1
                && NewKeys(old(readers), readers, ops[id].keys) && FillsRead(segments, readers)
    {
      hide RoundUp, RoundDown, PagesOk, ReadersOk, OperationsOk, WantsOk, WrittenOk, Consecutive, AllOk, ReadEnd;
      hide NewKeys, KeysNew, ScheduledOk, FillsRead;
      if offset >= size {
        return [];
      }
      var readers', scheduled, keys;
      segments, readers', scheduled, keys := PlanRead(pages, readers, size, offset, len);
      var endOffset := ReadEnd(size, offset, len).1;
      var wants := set o | o in pages && pages[o].Some? && o < endOffset;
      var op := Operation(keys, endOffset, wants);
      PlanKeeps(pages, scheduled, readers, readers', keys, size, written, segments);
      OperationsAdd(ops, readers, readers', keys, id, op);
      WantsAdd(ops, id, op, pages, readers, size);
      assert forall o :: o in scheduled ==> o !in pages;       // the assertion of the source
      pages, readers := pages + scheduled, readers';
      ops := ops[id := op];
      written := WithKeys(written, readers');
    }

    /** The pages at the two ends of a write that must be there first. */
    method BeginWrite(id: nat, offset: nat, len: nat)
      requires Valid() && id !in ops
      modifies this
      ensures Valid() && size == old(size) && buf == old(buf) && pages == old(pages) && readers == old(readers)
      ensures ops == old(ops) || (id in ops && ops == old(ops)[id := Operation([], offset + len, ops[id].wants)])
      ensures id in ops ==> ops[id].wants != {}
      ensures forall o: nat :: id in ops && o in ops[id].wants <==> Partial(o, offset, len) && o < size && o != offset
      ensures (forall o: nat :: Partial(o, offset, len) && o < size ==> id in ops && o in ops[id].wants) <==>
                !(Aligned(offset) && 0 < len < PAGE_SIZE && offset < size)
    {
      hide RoundUp, RoundDown, PagesOk, ReadersOk, WrittenOk, OperationsOk, WantsOk, Partial;
      var start, end := RoundDown(offset, PAGE_SIZE), offset + len;
      var alignedEnd := RoundDown(end, PAGE_SIZE);
      var wants: set<nat> := {};
      EndPages(offset, len);
      if start != offset && start < size { wants := wants + {start}; }
      if alignedEnd != end && alignedEnd != offset && alignedEnd < size { wants := wants + {alignedEnd}; }
      if wants != {} {
        var op := Operation([], end, wants);
        OperationsNone(ops, readers, id, op);
        WantsPut(ops, id, op, size);
        ops := ops[id := op];
      }
      assert forall o: nat :: Partial(o, offset, len) && o < size && o != offset ==> id in ops && o in ops[id].wants;
      assert id in ops ==> offset !in ops[id].wants;
    }

    /** One round of `read_page`. */
    method ReadPage(id: nat, o: nat) returns (state: PageState)
      requires Valid() && id in ops && o in ops[id].wants
      modifies this
      ensures Valid() && size == old(size) && buf == old(buf)
      ensures state.CutOff? <==> old(ops)[id].endOffset <= o
      ensures state.Ready? <==> old(ops)[id].endOffset > o && o in old(pages) && old(pages)[o].None?
      ensures state.Pending? ==> state.key in readers && o in old(pages) && old(pages)[o] == Some(state.key)
      ensures state.Schedule? ==>
                && o !in old(pages) && state.key !in old(readers) && pages == old(pages)[o := Some(state.key)]
                && readers == old(readers)[state.key := Span(o, o + PAGE_SIZE)]
      ensures state.Schedule? ==> ops == old(ops)[id := old(ops)[id].(keys := old(ops)[id].keys + [state.key])]
      ensures !state.Schedule? ==> pages == old(pages) && readers == old(readers) && ops == old(ops)
    {
      hide RoundUp, ReadersOk, OperationsOk;
      if ops[id].endOffset <= o {
        return CutOff;
      }
      if o in pages {
        if pages[o].None? {
          return Ready;
        }
        assert pages[o].value in readers;        // the lookup of the reader does not fail
        return Pending(pages[o].value);
      }
      var span := Span(o, o + PAGE_SIZE);
      var key := Vacant(readers);
      assert o !in pages;                        // the assertion of the source
      OperationsPush(ops, readers, key, span, id);
      OneReader(readers, key, span);
      ScheduleOne(pages, readers, written, size, o, key);
      WantsSame(ops, size, id, ops[id].(keys := ops[id].keys + [key]));
      pages := pages[o := Some(key)];
      readers := readers[key := span];
      ops := ops[id := ops[id].(keys := ops[id].keys + [key])];
      written := written[key := {}];
      return Schedule(key);
    }

    /** The locked end of `read_some`: what was read goes into the pages that still wait for this
        reader; pages written since are left alone. */
    method CompleteFill(key: nat, data: seq<Byte>)
      requires Valid() && key in readers && |data| == readers[key].end - readers[key].start
      modifies this
      ensures Valid() && size == old(size) && readers == old(readers) && ops == old(ops)
      ensures pages == Present(old(pages), key)
      ensures |buf| == |old(buf)|
      ensures forall i :: 0 <= i < |buf| && buf[i] != old(buf)[i] ==>
                var o := RoundDown(i, PAGE_SIZE); Awaits(old(pages), o, key) && o !in written[key]
      ensures forall i :: 0 <= i < |buf| && Awaits(old(pages), RoundDown(i, PAGE_SIZE), key) ==>
                readers[key].start <= i < readers[key].end && buf[i] == data[i - readers[key].start]
    {
      hide RoundUp, RoundDown, Present, PagesOk, ReadersOk, OperationsOk, WantsOk, WrittenOk;
      PresentOk(pages, readers, size, key, written);
      NotWritten(written, pages, readers, key);
      var span := readers[key];
      FillBounds(pages, readers, size, key);
      buf := Filled(buf, pages, key, span, data);
      pages := Present(pages, key);
    }

    /** The operation goes away, finished or not: its readers go and so do the pages still waiting
        for them. */
    method Drop(id: nat)
      requires Valid() && id in ops
      modifies this
      ensures Valid() && size == old(size) && buf == old(buf) && ops == old(ops) - {id}
      ensures forall k :: k in readers <==> k in old(readers) && k !in old(ops)[id].keys
      ensures pages == WithoutAll(old(pages), old(ops)[id].keys)
    {
      hide RoundUp, PagesOk, ReadersOk, WrittenOk, Without, WithoutAll, WantsOk;
      var keys := ops[id].keys;
      NothingDropped(pages);
      for i := 0 to |keys|
        invariant size == old(size) && buf == old(buf) && ops == old(ops) && |buf| == RoundUp(size, PAGE_SIZE)
        invariant forall k :: k in readers <==> k in old(readers) && k !in keys[..i]
        invariant PagesOk(pages, readers, size) && ReadersOk(readers) && WrittenOk(written, pages, readers)
        invariant pages == WithoutAll(old(pages), keys[..i])
      {
        var key := keys[i];
        assert Owns(old(ops), id, key) && key !in keys[..i];
        assert key in readers;                   // removing it from the slab does not fail
        WithoutOk(pages, readers, size, key);
        WrittenWithout(written, pages, readers, key);
        WithoutNext(old(pages), keys[..i], key);
        assert keys[..i + 1] == keys[..i] + [key];
        readers := readers - {key};
        pages := Without(pages, key);
        written := written - {key};
      }
      assert keys[..|keys|] == keys;
      OperationsDrop(old(ops), old(readers), readers, id);
      WantsDrop(ops, size, id);
      ops := ops - {id};
    }

    /** With no operation in flight, every page is present. */
    lemma Quiet()
      requires Valid() && ops == map[]
      ensures readers == map[] && forall o :: o in pages ==> pages[o].None?
    {
      assert readers.Keys == {};
    }
  }

  /** A file of one page, none of it read: a write of its first byte waits for nothing, and then the
      whole page counts as present. */
  method WriteUnread(x: Byte) returns (c: Cache)
    ensures fresh(c) && c.Valid() && c.size == PAGE_SIZE && c.ops == map[] && c.readers == map[]
    ensures c.pages == map[0 := None]
  {
    hide RoundUp, RoundDown, PagesOk, ReadersOk, OperationsOk, WantsOk, WrittenOk, Partial, Aligned;
    c := new Cache(PAGE_SIZE);
    c.BeginWrite(0, 0, 1);
    EndPages(0, 1);
    c.Write(0, [x]);
    OnePage();
    assert forall o: nat :: o in c.pages <==> o == 0;
  }

  /** A file of one byte, not read: growing it makes the page of that byte present. */
  method GrowUnread() returns (c: Cache)
    ensures fresh(c) && c.Valid() && c.size == 2 && c.ops == map[] && c.readers == map[]
    ensures c.pages == map[0 := None]
  {
    hide RoundUp, RoundDown, PagesOk, ReadersOk, OperationsOk, WantsOk, WrittenOk, Marked;
    c := new Cache(1);
    c.Resize(2);
    OnePage();
    assert |c.buf| == PAGE_SIZE;
    assert forall o: nat :: o in c.pages <==> o == 0;
  }

  lemma OnePage()
    ensures RoundDown(0, PAGE_SIZE) == 0 && RoundDown(1, PAGE_SIZE) == 0 && RoundUp(2, PAGE_SIZE) == PAGE_SIZE
    ensures forall o: nat :: Aligned(o) && o < PAGE_SIZE ==> o == 0
  {
    hide RoundDown, RoundUp;
    assert forall r: nat :: r % PAGE_SIZE == 0 && r < PAGE_SIZE ==> r == 0;
    assert RoundUp(2, PAGE_SIZE) <= PAGE_SIZE + 1;
  }

  function Filled(buf: seq<Byte>, pages: Pages, key: nat, span: Span, data: seq<Byte>): (r: seq<Byte>)
    requires |data| == span.end - span.start
    requires forall o: nat :: Awaits(pages, o, key) ==> span.start <= o && o + PAGE_SIZE <= span.end
    ensures |r| == |buf|
    ensures forall i :: 0 <= i < |buf| ==>
              r[i] == if Awaits(pages, RoundDown(i, PAGE_SIZE), key) then data[i - span.start] else buf[i]
  {
    hide RoundDown, Aligned;
    seq(|buf|, i requires 0 <= i < |buf| =>
      if Awaits(pages, RoundDown(i, PAGE_SIZE), key) then data[i - span.start] else buf[i])
  }

  lemma FillBounds(pages: Pages, readers: Readers, size: nat, key: nat)
    requires PagesOk(pages, readers, size) && ReadersOk(readers) && key in readers
    ensures forall o: nat :: Awaits(pages, o, key) ==>
              readers[key].start <= o && o + PAGE_SIZE <= readers[key].end
  {
  }

  lemma OneReader(readers: Readers, key: nat, span: Span)
    requires ReadersOk(readers) && Aligned(span.start) && Aligned(span.end)
    ensures ReadersOk(readers[key := span])
  {
  }

  lemma OperationsNone(ops: Operations, readers: Readers, id: nat, op: Operation)
    requires OperationsOk(ops, readers) && op.keys == [] && id !in ops
    ensures OperationsOk(ops[id := op], readers)
  {
    assert NewKeys(readers, readers, []);
    OperationsAdd(ops, readers, readers, [], id, op);
  }

  lemma OperationsDrop(ops: Operations, readers: Readers, readers': Readers, id: nat)
    requires OperationsOk(ops, readers) && id in ops
    requires forall k :: k in readers' <==> k in readers && k !in ops[id].keys
    ensures OperationsOk(ops - {id}, readers')
  {
    assert forall k :: k in ops[id].keys <==> Owns(ops, id, k);
    assert forall i, k :: Owns(ops - {id}, i, k) == (i != id && Owns(ops, i, k));
    hide Owns;
    forall k | k in readers' ensures exists i :: Owns(ops - {id}, i, k) {
      var i :| Owns(ops, i, k);
      assert Owns(ops - {id}, i, k);
    }
  }

  lemma WantsAdd(ops: Operations, id: nat, op: Operation, pages: Pages, readers: Readers, size: nat)
    requires WantsOk(ops, size) && PagesOk(pages, readers, size) && forall o :: o in op.wants ==> o in pages
    ensures WantsOk(ops[id := op], size)
  {
    hide Aligned, Reads;
    forall o | o in op.wants ensures Aligned(o) && o < size { assert o in pages; }
    WantsPut(ops, id, op, size);
  }

  /** The pages a write covers in part are those at its two ends. */
  lemma EndPages(offset: nat, len: nat)
    ensures var start, last := RoundDown(offset, PAGE_SIZE), RoundDown(offset + len, PAGE_SIZE);
            && Aligned(start) && Aligned(last) && (Aligned(offset) <==> start == offset)
            && forall o: nat :: Partial(o, offset, len) <==>
                                (o == start && start != offset) || (o == last && last != offset + len)
    ensures Partial(offset, offset, len) <==> Aligned(offset) && 0 < len < PAGE_SIZE
  {
    hide RoundDown;
  }

  lemma WantsPut(ops: Operations, id: nat, op: Operation, size: nat)
    requires WantsOk(ops, size) && forall o :: o in op.wants ==> Aligned(o) && o < size
    ensures WantsOk(ops[id := op], size)
  {
    assert WantOk(op, size);
    hide WantOk;
  }

  lemma PlanKeeps(pages: Pages, scheduled: Pages, readers: Readers, readers': Readers, keys: seq<nat>, size: nat,
                  written: map<nat, set<nat>>, segments: seq<Segment>)
    requires PagesOk(pages, readers, size) && WrittenOk(written, pages, readers) && NewKeys(readers, readers', keys)
    requires ScheduledOk(scheduled, pages, readers', RoundUp(size, PAGE_SIZE), RoundUp(size, PAGE_SIZE))
    requires AllOk(segments, pages, scheduled)
    requires KeysNew(readers, scheduled)
    ensures PagesOk(pages + scheduled, readers', size)
    ensures WrittenOk(WithKeys(written, readers'), pages + scheduled, readers')
    ensures AllOk(segments, pages, pages + scheduled) && forall o :: o in scheduled ==> o !in pages
  {
    hide RoundUp, AllOk, WrittenOk, PagesOk, WithKeys;
    ScheduleOk(pages, scheduled, readers, readers', size);
    WrittenMore(written, pages, scheduled, readers, readers');
    AllOkUnder(segments, pages, scheduled);
  }

  lemma AllOkUnder(s: seq<Segment>, pages: Pages, scheduled: Pages)
    requires AllOk(s, pages, scheduled) && forall o :: o in scheduled ==> o !in pages
    ensures AllOk(s, pages, pages + scheduled)
  {
    forall i | 0 <= i < |s| ensures SegmentOk(s[i], pages, pages + scheduled) {
      assert SegmentOk(s[i], pages, scheduled);
    }
  }

  /** One more page being read. */
  lemma ScheduleOne(pages: Pages, readers: Readers, written: map<nat, set<nat>>, size: nat, o: nat, key: nat)
    requires PagesOk(pages, readers, size) && WrittenOk(written, pages, readers) && key !in readers && Aligned(o)
    requires o < size && o !in pages
    ensures var readers' := readers[key := Span(o, o + PAGE_SIZE)];
            PagesOk(pages[o := Some(key)], readers', size) &&
                WrittenOk(written[key := {}], pages[o := Some(key)], readers')
  {
  }

  ghost function WithoutAll(pages: Pages, keys: seq<nat>): Pages
  {
    map o | o in pages && !(pages[o].Some? && pages[o].value in keys) :: pages[o]
  }

  lemma NothingDropped(pages: Pages)
    ensures WithoutAll(pages, []) == pages
  {
  }

  lemma WantsSame(ops: Operations, size: nat, id: nat, op: Operation)
    requires WantsOk(ops, size) && id in ops && op.wants == ops[id].wants && op.endOffset == ops[id].endOffset
    ensures WantsOk(ops[id := op], size)
  {
    assert WantOk(ops[id], size);
    assert WantOk(op, size);
    hide WantOk;
  }

  lemma WantsDrop(ops: Operations, size: nat, id: nat)
    requires WantsOk(ops, size)
    ensures WantsOk(ops - {id}, size)
  {
    hide WantOk;
  }

  lemma WithoutNext(pages: Pages, keys: seq<nat>, key: nat)
    ensures Without(WithoutAll(pages, keys), key) == WithoutAll(pages, keys + [key])
  {
  }

  lemma WrittenWithout(written: map<nat, set<nat>>, pages: Pages, readers: Readers, key: nat)
    requires WrittenOk(written, pages, readers)
    ensures WrittenOk(written - {key}, Without(pages, key), readers - {key})
  {
  }

  lemma NotWritten(written: map<nat, set<nat>>, pages: Pages, readers: Readers, key: nat)
    requires WrittenOk(written, pages, readers) && key in readers
    ensures key in written && forall o: nat :: Awaits(pages, o, key) ==> o !in written[key]
  {
  }
}
