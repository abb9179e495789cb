/** The cross-check of allocations (src/fsck.rs, `verify_allocations`): the records of the allocator
    against those rebuilt from the extents found in the scanned stores. */
module Fsck {
  import opened LsmTypes
  import opened RangeLayers
  import opened AllocatorMerge
  import opened Coalescing

  /** Tombstones count for the invalid object id. */
  function OwnerOf(v: AllocatorValue): nat { if v.Abs? then v.owner else 0 }

  /** The records of scanned owners. */
  function Scanned(s: seq<Extent>, owners: set<nat>): seq<Extent>
  {
    if s == [] then []
    else Scanned(s[..|s| - 1], owners) + if OwnerOf(s[|s| - 1].value) in owners then [s[|s| - 1]] else []
  }

  ghost function Restrict(v: Option<AllocatorValue>, owners: set<nat>): Option<AllocatorValue>
  {
    if v.Some? && OwnerOf(v.value) in owners then v else None
  }

  lemma {:induction false} AtLast(s: seq<Extent>, e: Extent, b: nat)
    ensures ValueAt(s + [e], b) ==
            if ValueAt(s, b).Some? then ValueAt(s, b) else if Covers(e, b) then Some(e.value) else None
    decreases |s|
  {
    if s == [] {
      assert [e][1..] == [];
    } else {
      assert (s + [e])[1..] == s[1..] + [e];
      AtLast(s[1..], e, b);
    }
  }

  ghost predicate EndsBy(s: seq<Extent>, x: nat) { forall p :: 0 <= p < |s| ==> s[p].key.end <= x }

  lemma {:induction false} ScannedEnds(s: seq<Extent>, owners: set<nat>, x: nat)
    requires EndsBy(s, x)
    ensures EndsBy(Scanned(s, owners), x)
    decreases |s|
  {
    if s != [] { ScannedEnds(s[..|s| - 1], owners, x); }
  }

  lemma InitNormal(s: seq<Extent>)
    requires Normal(s) && s != []
    ensures Normal(s[..|s| - 1]) && EndsBy(s[..|s| - 1], s[|s| - 1].key.start)
  {
  }

  lemma {:induction false} LastOf(s: seq<Extent>, owners: set<nat>)
    ensures Scanned(s, owners) != [] ==>
              var l := Scanned(s, owners)[|Scanned(s, owners)| - 1];
              exists p :: 0 <= p < |s| && s[p] == l && OwnerOf(l.value) in owners && forall q :: p < q < |s| ==>
                  OwnerOf(s[q].value) !in owners
    decreases |s|
  {
    if s != [] {
      var n := |s| - 1;
      LastOf(s[..n], owners);
      if OwnerOf(s[n].value) in owners {
        assert s[n] == Scanned(s, owners)[|Scanned(s, owners)| - 1];
      } else if Scanned(s, owners) != [] {
        var l := Scanned(s, owners)[|Scanned(s, owners)| - 1];
        var p :| 0 <= p < n && s[..n][p] == l && OwnerOf(l.value) in owners && forall q :: p < q < n ==>
            OwnerOf(s[..n][q].value) !in owners;
        forall q | p < q < |s| ensures OwnerOf(s[q].value) !in owners { if q < n { assert s[..n][q] == s[q]; } }
      }
    }
  }

  /** Leaving out the records of other owners keeps a normal form, and restricts the map. */
  lemma {:induction false} ScannedNormal(s: seq<Extent>, owners: set<nat>)
    requires Normal(s)
    ensures Normal(Scanned(s, owners))
    ensures forall b: nat :: ValueAt(Scanned(s, owners), b) == Restrict(ValueAt(s, b), owners)
    decreases |s|
  {
    hide ValueAt;
    if s == [] {
      forall b: nat ensures ValueAt<AllocatorValue>([], b) == None { Nothing(b); }
    } else {
      var n := |s| - 1;
      var init, e := s[..n], s[n];
      InitNormal(s);
      ScannedNormal(init, owners);
      ScannedEnds(init, owners, e.key.start);
      var t := Scanned(init, owners);
      assert s == init + [e] && t + [] == t;
      forall b: nat ensures ValueAt(Scanned(s, owners), b) == Restrict(ValueAt(s, b), owners) {
        AtLast(init, e, b);
        AtLast(t, e, b);
        if Covers(e, b) {
          AtAbove(init, e.key.start, b);
          AtAbove(t, e.key.start, b);
        }
      }
      if OwnerOf(e.value) in owners { PushNormal(init, e, owners); }
    }
  }

  lemma PushNormal(init: seq<Extent>, e: Extent, owners: set<nat>)
    requires Normal(init + [e]) && Normal(Scanned(init, owners)) && EndsBy(Scanned(init, owners), e.key.start)
    requires OwnerOf(e.value) in owners
    ensures Normal(Scanned(init, owners) + [e])
  {
    var t := Scanned(init, owners);
    var s := init + [e];
    if t != [] {
      LastOf(init, owners);
      var l := t[|t| - 1];
      var p :| 0 <= p < |init| && init[p] == l && forall q :: p < q < |init| ==> OwnerOf(init[q].value) !in owners;
      assert s[p] == l && s[|init|] == e;
      if p + 1 < |init| {
        // a record of another owner lies between
        assert s[p + 1] == init[p + 1];
        assert l.key.end <= s[p + 1].key.start < s[p + 1].key.end <= e.key.start;
      }
      assert !Joins(l, e);
    }
    assert e.key.start < e.key.end by { assert s[|init|] == e; }
  }

  datatype Report = Report(missing: nat, extra: nat, mismatched: nat)
  {
    predicate Clean() { missing == 0 && extra == 0 && mismatched == 0 }
  }

  predicate Equal(a: Extent, b: Extent) { a.key == b.key && a.value == b.value }

  ghost function TotalOf(s: seq<Extent>, owner: nat): int
  {
    if s == [] then 0
    else TotalOf(s[..|s| - 1], owner)
         + if OwnerOf(s[|s| - 1].value) == owner then s[|s| - 1].key.end - s[|s| - 1].key.start else 0
  }

  lemma {:induction false} ScannedPrefix(s: seq<Extent>, owners: set<nat>, i: nat)
    requires i <= |s|
    ensures |Scanned(s[..i], owners)| <= |Scanned(s, owners)|
    ensures Scanned(s[..i], owners) == Scanned(s, owners)[..|Scanned(s[..i], owners)|]
    decreases |s|
  {
    if i < |s| {
      var n := |s| - 1;
      ScannedPrefix(s[..n], owners, i);
      assert s[..n][..i] == s[..i];
    } else {
      assert s[..i] == s;
    }
  }

  lemma ScannedNext(s: seq<Extent>, owners: set<nat>, i: nat)
    requires i < |s|
    ensures Scanned(s[..i + 1], owners) == Scanned(s[..i], owners) + if OwnerOf(s[i].value) in owners then [s[i]]
            else []
  {
    assert s[..i + 1][..i] == s[..i];
  }

  lemma TotalNext(s: seq<Extent>, i: nat, o: nat)
    requires i < |s|
    ensures TotalOf(s[..i + 1], o) ==
            TotalOf(s[..i], o) + if OwnerOf(s[i].value) == o then s[i].key.end - s[i].key.start else 0
  {
    assert s[..i + 1][..i] == s[..i];
  }

  /** Two lists that agree so far but not on the next record are not the same. */
  lemma Differ(actual: seq<Extent>, expected: seq<Extent>, owners: set<nat>, i: nat, j: nat)
    requires i < |actual| && j <= |expected| && OwnerOf(actual[i].value) in owners
    requires Same(Scanned(actual[..i], owners), expected[..j])
    requires j == |expected| || !Equal(actual[i], expected[j])
    ensures !Same(Scanned(actual, owners), expected)
  {
    ScannedPrefix(actual, owners, i + 1);
    ScannedNext(actual, owners, i);
    assert Scanned(actual[..i + 1], owners)[j] == actual[i];
    assert Scanned(actual, owners)[j] == actual[i];
  }

  function Get(totals: map<nat, int>, o: nat): int { if o in totals then totals[o] else 0 }

  /** The totals are those of the records before `i`, except that records at which a missing
      allocation was reported have been counted again. */
  ghost predicate TotalsOk(totals: map<nat, int>, actual: seq<Extent>, i: nat, again: nat, dup: nat)
    requires i <= |actual|
  {
    && (again == 0 ==> forall o: nat :: Get(totals, o) == TotalOf(actual[..i], o))
    && (again > 0 ==> Get(totals, dup) > TotalOf(actual[..i], dup))
  }

  lemma TotalsStep(totals: map<nat, int>, actual: seq<Extent>, i: nat, again: nat, dup: nat)
    requires i < |actual| && TotalsOk(totals, actual, i, again, dup) && actual[i].key.start < actual[i].key.end
    ensures var o, len := OwnerOf(actual[i].value), actual[i].key.end - actual[i].key.start;
            var totals' := totals[o := Get(totals, o) + len];
            && TotalsOk(totals', actual, i + 1, again, dup)
            && TotalsOk(totals', actual, i, again + 1, if again == 0 then o else dup)
  {
    forall o: nat
      ensures TotalOf(actual[..i + 1], o) == TotalOf(actual[..i], o)
              + if OwnerOf(actual[i].value) == o then actual[i].key.end - actual[i].key.start else 0
    {
      TotalNext(actual, i, o);
    }
    hide TotalOf;
    var owner, len := OwnerOf(actual[i].value), actual[i].key.end - actual[i].key.start;
    var totals' := totals[owner := Get(totals, owner) + len];
    assert forall o: nat :: Get(totals', o) == Get(totals, o) + if o == owner then len else 0;
    assert again == 0 ==> forall o: nat :: Get(totals, o) == TotalOf(actual[..i], o);
  }

  ghost predicate IsScanned(e: Extent, owners: set<nat>) { OwnerOf(e.value) in owners }

  /** Some scanned record of the allocator is the expected one. */
  ghost predicate Matched(actual: seq<Extent>, e: Extent, owners: set<nat>)
  {
    exists i :: 0 <= i < |actual| && IsScanned(actual[i], owners) && Equal(actual[i], e)
  }

  ghost predicate EndsBefore(e: Extent, a: Extent) { e.key.end <= a.key.start }

  /** An expected record that the allocator lacks lies before a scanned record of the allocator. */
  ghost predicate Skipped(actual: seq<Extent>, expected: seq<Extent>, owners: set<nat>)
  {
    exists i, j :: 0 <= i < |actual| && 0 <= j < |expected| && IsScanned(actual[i], owners) &&
        EndsBefore(expected[j], actual[i])
                   && !Matched(actual, expected[j], owners)
  }

  /** No scanned record before `i` is, or lies after, an expected record from `j` on. */
  ghost predicate Ahead(actual: seq<Extent>, expected: seq<Extent>, owners: set<nat>, i: nat, j: nat)
  {
    forall p, q :: 0 <= p < i && p < |actual| && j <= q < |expected| && IsScanned(actual[p], owners) ==>
      !Equal(actual[p], expected[q]) && !EndsBefore(expected[q], actual[p])
  }

  /** An expected record that ends before the current one, and was not met so far, is missing. */
  lemma MissingIsSkipped(actual: seq<Extent>, expected: seq<Extent>, owners: set<nat>, i: nat, j: nat)
    requires Disjoint(actual) && Disjoint(expected) && i < |actual| && j < |expected|
    requires Ahead(actual, expected, owners, i, j)
    requires IsScanned(actual[i], owners) && EndsBefore(expected[j], actual[i])
    ensures Skipped(actual, expected, owners)
  {
    forall p | 0 <= p < |actual| && IsScanned(actual[p], owners) ensures !Equal(actual[p], expected[j]) {
      if p > i { assert actual[i].key.end <= actual[p].key.start; }
    }
  }

  /** Once the records of the allocator have run out without such a report, nothing was skipped. */
  lemma NothingSkipped(actual: seq<Extent>, expected: seq<Extent>, owners: set<nat>, j: nat)
    requires Ahead(actual, expected, owners, |actual|, j) && j <= |expected|
    requires forall q :: 0 <= q < j ==> Matched(actual, expected[q], owners)
    ensures !Skipped(actual, expected, owners)
  {
  }

  /** Moving on from the current record, or from both. */
  lemma AheadNext(actual: seq<Extent>, expected: seq<Extent>, owners: set<nat>, i: nat, j: nat)
    requires Disjoint(actual) && Disjoint(expected) && i < |actual| && j <= |expected|
    requires Ahead(actual, expected, owners, i, j)
    requires IsScanned(actual[i], owners) && j < |expected| ==> !EndsBefore(expected[j], actual[i])
    ensures IsScanned(actual[i], owners) && j < |expected| && Equal(actual[i], expected[j]) ==>
              Ahead(actual, expected, owners, i + 1, j + 1)
    ensures !(IsScanned(actual[i], owners) && j < |expected| && Equal(actual[i], expected[j])) ==>
              Ahead(actual, expected, owners, i + 1, j)
  {
    forall q | j < q < |expected| && IsScanned(actual[i], owners)
      ensures !EndsBefore(expected[q], actual[i])
      ensures !(j < |expected| && Equal(actual[i], expected[j]) && Equal(actual[i], expected[q]))
    {
      assert expected[j].key.end <= expected[q].key.start;
    }
  }

  // ---- What is counted ----

  ghost function Count(s: seq<Extent>, p: Extent -> bool): nat
  {
    if s == [] then 0 else Count(s[..|s| - 1], p) + if p(s[|s| - 1]) then 1 else 0
  }

  lemma CountNext(s: seq<Extent>, i: nat, p: Extent -> bool)
    requires i < |s|
    ensures Count(s[..i + 1], p) == Count(s[..i], p) + if p(s[i]) then 1 else 0
  {
    assert s[..i + 1][..i] == s[..i];
  }

  ghost predicate Touches(a: Extent, expected: seq<Extent>)
  {
    exists q :: 0 <= q < |expected| && !EndsBefore(expected[q], a) && !EndsBefore(a, expected[q])
  }

  ghost predicate IsExpected(a: Extent, expected: seq<Extent>)
  {
    exists q :: 0 <= q < |expected| && Equal(a, expected[q])
  }

  /** The expected records that no scanned record equals. */
  ghost function Missing(actual: seq<Extent>, owners: set<nat>): Extent -> bool
  {
    (e: Extent) => !Matched(actual, e, owners)
  }

  /** The scanned records that no expected record overlaps. */
  ghost function Extra(expected: seq<Extent>, owners: set<nat>): Extent -> bool
  {
    (a: Extent) => IsScanned(a, owners) && !Touches(a, expected)
  }

  /** The scanned records that an expected record overlaps and none equals. */
  ghost function Mismatched(expected: seq<Extent>, owners: set<nat>): Extent -> bool
  {
    (a: Extent) => IsScanned(a, owners) && Touches(a, expected) && !IsExpected(a, expected)
  }

  /** The first expected record that does not end before the current one decides what it is. */
  lemma Classify(a: Extent, expected: seq<Extent>, j: nat)
    requires Disjoint(expected) && a.key.start < a.key.end && j <= |expected|
    requires forall q :: 0 <= q < j ==> EndsBefore(expected[q], a)
    requires j < |expected| ==> !EndsBefore(expected[j], a)
    ensures Touches(a, expected) <==> j < |expected| && !EndsBefore(a, expected[j])
    ensures IsExpected(a, expected) <==> j < |expected| && Equal(a, expected[j])
  {
    forall q | j < q < |expected|
      ensures j < |expected| && EndsBefore(a, expected[j]) ==> EndsBefore(a, expected[q])
      ensures j < |expected| && !EndsBefore(a, expected[q]) ==> !EndsBefore(a, expected[j])
      ensures !Equal(a, expected[q])
    {
      assert expected[j].key.end <= expected[q].key.start;
    }
  }

  /** An expected record that was not met, and that the current record or nothing follows. */
  lemma IsMissing(actual: seq<Extent>, expected: seq<Extent>, owners: set<nat>, i: nat, j: nat)
    requires Disjoint(actual) && Disjoint(expected) && i <= |actual| && j < |expected|
    requires Ahead(actual, expected, owners, i, j) && (i < |actual| ==> EndsBefore(expected[j], actual[i]))
    ensures !Matched(actual, expected[j], owners)
  {
    forall p | 0 <= p < |actual| && IsScanned(actual[p], owners) ensures !Equal(actual[p], expected[j]) {
      if p > i { assert actual[i].key.end <= actual[p].key.start; }
    }
  }

  /** The report is right for the records before both cursors. */
  ghost predicate Counted(actual: seq<Extent>, expected: seq<Extent>, owners: set<nat>, i: nat, j: nat, r: Report)
    requires i <= |actual| && j <= |expected|
  {
    && (i < |actual| ==> forall q :: 0 <= q < j ==> EndsBefore(expected[q], actual[i]))
    && r.missing == Count(expected[..j], Missing(actual, owners))
    && r.extra == Count(actual[..i], Extra(expected, owners))
    && r.mismatched == Count(actual[..i], Mismatched(expected, owners))
  }

  lemma CountedNext(actual: seq<Extent>, expected: seq<Extent>, owners: set<nat>, i: nat, j: nat, r: Report)
    requires Disjoint(actual) && Disjoint(expected) && i < |actual| && j <= |expected|
    requires Ahead(actual, expected, owners, i, j) && Counted(actual, expected, owners, i, j, r)
    ensures var a := actual[i];
            if !IsScanned(a, owners) then Counted(actual, expected, owners, i + 1, j, r)
            else if j == |expected| then Counted(actual, expected, owners, i + 1, j, r.(extra := r.extra + 1))
            else if EndsBefore(expected[j], a) then
              Counted(actual, expected, owners, i, j + 1, r.(missing := r.missing + 1))
            else if EndsBefore(a, expected[j]) then
              Counted(actual, expected, owners, i + 1, j, r.(extra := r.extra + 1))
            else if Equal(a, expected[j]) then Counted(actual, expected, owners, i + 1, j + 1, r)
            else Counted(actual, expected, owners, i + 1, j, r.(mismatched := r.mismatched + 1))
  {
    var a := actual[i];
    hide Count, Matched, Touches, IsExpected, Ahead;
    if i + 1 < |actual| { assert a.key.end <= actual[i + 1].key.start; }
    CountNext(actual, i, Extra(expected, owners));
    CountNext(actual, i, Mismatched(expected, owners));
    if IsScanned(a, owners) {
      if j < |expected| && EndsBefore(expected[j], a) {
        CountNext(expected, j, Missing(actual, owners));
        IsMissing(actual, expected, owners, i, j);
      } else {
        Classify(a, expected, j);
        if j < |expected| && Equal(a, expected[j]) {
          CountNext(expected, j, Missing(actual, owners));
          MatchedHere(actual, expected[j], owners, i);
        }
      }
    }
  }

  lemma CountedLast(actual: seq<Extent>, expected: seq<Extent>, owners: set<nat>, j: nat, r: Report)
    requires Disjoint(actual) && Disjoint(expected) && j < |expected| && Ahead(actual, expected, owners, |actual|, j)
    requires Counted(actual, expected, owners, |actual|, j, r)
    ensures Counted(actual, expected, owners, |actual|, j + 1, r.(missing := r.missing + 1))
  {
    hide Count;
    CountNext(expected, j, Missing(actual, owners));
    IsMissing(actual, expected, owners, |actual|, j);
  }

  lemma CountedAll(actual: seq<Extent>, expected: seq<Extent>, owners: set<nat>, r: Report)
    requires Counted(actual, expected, owners, |actual|, |expected|, r)
    ensures r.missing == Count(expected, Missing(actual, owners))
    ensures r.extra == Count(actual, Extra(expected, owners))
    ensures r.mismatched == Count(actual, Mismatched(expected, owners))
  {
    assert actual[..|actual|] == actual && expected[..|expected|] == expected;
  }

  /** The loop with two cursors, on the coalesced records of both sides.  It reports nothing exactly
      if the records of scanned owners are the expected ones.  Each missing allocation reported before
      the records of the allocator run out makes the current record count once more, so the totals are
      right exactly if no expected record that the allocator lacks lies before a scanned one. */
  method CrossCheck(actual: seq<Extent>, expected: seq<Extent>, owners: set<nat>)
    returns (report: Report, totals: map<nat, int>)
    requires Disjoint(actual) && Disjoint(expected)
    ensures report.missing == Count(expected, Missing(actual, owners))
    ensures report.extra == Count(actual, Extra(expected, owners))
    ensures report.mismatched == Count(actual, Mismatched(expected, owners))
    ensures report.Clean() <==> Same(Scanned(actual, owners), expected)
    ensures (forall o: nat :: Get(totals, o) == TotalOf(actual, o)) <==> !Skipped(actual, expected, owners)
  {
    hide Scanned, TotalOf, TotalsOk, Skipped, Matched, Ahead, Counted, Count;
    var missing: nat, extra: nat, mismatched: nat := 0, 0, 0;
    totals := map[];
    var i: nat, j: nat := 0, 0;
    ghost var again: nat, dup: nat := 0, 0;
    Start(actual, expected, owners);
    while i < |actual|
      invariant i <= |actual| && j <= |expected|
      invariant missing + extra + mismatched == 0 ==> Same(Scanned(actual[..i], owners), expected[..j])
      invariant missing + extra + mismatched > 0 ==> !Same(Scanned(actual, owners), expected)
      invariant TotalsOk(totals, actual, i, again, dup) && Ahead(actual, expected, owners, i, j)
      invariant again > 0 ==> Skipped(actual, expected, owners)
      invariant again == 0 ==> forall q :: 0 <= q < j ==> Matched(actual, expected[q], owners)
      invariant Counted(actual, expected, owners, i, j, Report(missing, extra, mismatched))
      decreases |actual| - i + |expected| - j
    {
      var a := actual[i];
      var owner := OwnerOf(a.value);
      ScannedNext(actual, owners, i);
      CountedNext(actual, expected, owners, i, j, Report(missing, extra, mismatched));
      TotalsStep(totals, actual, i, again, dup);
      totals := totals[owner := Get(totals, owner) + (a.key.end - a.key.start)];
      if owner in owners && j < |expected| && expected[j].key.end <= a.key.start {
        MissingIsSkipped(actual, expected, owners, i, j);
      } else {
        AheadNext(actual, expected, owners, i, j);
      }
      if owner !in owners {
        i := i + 1;
        continue;
      }
      if missing + extra + mismatched == 0 && (j == |expected| || !Equal(a, expected[j])) {
        Differ(actual, expected, owners, i, j);
      }
      if j == |expected| {
        extra := extra + 1;
        i := i + 1;
        continue;
      }
      var e := expected[j];
      if a.key.end <= e.key.start {
        extra := extra + 1;
        i := i + 1;
        continue;
      }
      if e.key.end <= a.key.start {
        missing, again := missing + 1, again + 1;
        if again == 1 { dup := owner; }
        AheadMore(actual, expected, owners, i, j);
        j := j + 1;
        continue;
      }
      if a.key != e.key || a.value != e.value {
        mismatched := mismatched + 1;
        i := i + 1;
        continue;
      }
      MatchedHere(actual, e, owners, i);
      assert expected[..j + 1] == expected[..j] + [e];
      i, j := i + 1, j + 1;
    }
    assert actual[..i] == actual;
    TotalsEnd(totals, actual, again, dup);
    if again == 0 { NothingSkipped(actual, expected, owners, j); }
    while j < |expected|
      invariant j <= |expected|
      invariant missing + extra + mismatched == 0 ==> Same(Scanned(actual, owners), expected[..j])
      invariant missing + extra + mismatched > 0 ==> !Same(Scanned(actual, owners), expected)
      invariant Ahead(actual, expected, owners, |actual|, j)
      invariant Counted(actual, expected, owners, |actual|, j, Report(missing, extra, mismatched))
    {
      CountedLast(actual, expected, owners, j, Report(missing, extra, mismatched));
      AheadMore(actual, expected, owners, |actual|, j);
      missing, j := missing + 1, j + 1;
    }
    assert expected[..j] == expected;
    report := Report(missing, extra, mismatched);
    CountedAll(actual, expected, owners, report);
  }

  lemma AheadMore(actual: seq<Extent>, expected: seq<Extent>, owners: set<nat>, i: nat, j: nat)
    requires Ahead(actual, expected, owners, i, j)
    ensures Ahead(actual, expected, owners, i, j + 1)
  {
  }

  lemma MatchedHere(actual: seq<Extent>, e: Extent, owners: set<nat>, i: nat)
    requires i < |actual| && IsScanned(actual[i], owners) && Equal(actual[i], e)
    ensures Matched(actual, e, owners)
  {
  }

  function ByteOf(b: nat): Extent { Item(Range(b, b + 1), Abs(1, 7), 0) }

  /** Two neighbouring bytes of one owner, of which the allocator has the second only. */
  lemma OneSkipped()
    ensures Disjoint([ByteOf(1)]) && Disjoint([ByteOf(0)]) && Skipped([ByteOf(1)], [ByteOf(0)], {7})
  {
    assert IsScanned([ByteOf(1)][0], {7}) && EndsBefore([ByteOf(0)][0], [ByteOf(1)][0]);
    assert !Matched([ByteOf(1)], [ByteOf(0)][0], {7});
  }

  /** On that input the totals are wrong: the missing byte makes the other one count again. */
  method WrongTotals() returns (totals: map<nat, int>)
    ensures exists o: nat :: Get(totals, o) != TotalOf([ByteOf(1)], o)
  {
    OneSkipped();
    var report;
    report, totals := CrossCheck([ByteOf(1)], [ByteOf(0)], {7});
  }

  lemma Start(actual: seq<Extent>, expected: seq<Extent>, owners: set<nat>)
    ensures Scanned(actual[..0], owners) == [] && TotalsOk(map[], actual, 0, 0, 0)
    ensures Counted(actual, expected, owners, 0, 0, Report(0, 0, 0))
    ensures Ahead(actual, expected, owners, 0, 0)
  {
  }

  lemma TotalsEnd(totals: map<nat, int>, actual: seq<Extent>, again: nat, dup: nat)
    requires TotalsOk(totals, actual, |actual|, again, dup)
    ensures again == 0 <==> forall o: nat :: Get(totals, o) == TotalOf(actual, o)
  {
    assert actual[..|actual|] == actual;
  }

  /** Both sides say the same about every byte, as far as scanned owners go. */
  ghost predicate Agree(records: seq<Extent>, extents: seq<Extent>, owners: set<nat>)
  {
    forall b: nat :: Restrict(ValueAt(records, b), owners) == ValueAt(extents, b)
  }

  /** What the check means: with the records of the allocator and those rebuilt from extents, each
      sorted and without overlaps, nothing is reported exactly if they agree. */
  method VerifyAllocations(records: seq<Extent>, extents: seq<Extent>, owners: set<nat>)
    returns (report: Report, totals: map<nat, int>)
    requires Disjoint(records) && Disjoint(extents)
    ensures report.Clean() <==> Agree(records, extents, owners)
    ensures (forall o: nat :: Get(totals, o) == TotalOf(Coalesce(records), o)) <==>
              !Skipped(Coalesce(records), Coalesce(extents), owners)
    ensures report.Clean() ==> forall o: nat :: Get(totals, o) == TotalOf(Coalesce(records), o)
  {
    CoalescedSides(records, extents, owners);
    report, totals := CrossCheck(Coalesce(records), Coalesce(extents), owners);
    if report.Clean() { SameIsMatched(Coalesce(records), Coalesce(extents), owners); }
  }

  lemma {:induction false} ScannedAre(s: seq<Extent>, owners: set<nat>)
    ensures forall e :: e in Scanned(s, owners) ==> e in s && IsScanned(e, owners)
    decreases |s|
  {
    if s != [] { ScannedAre(s[..|s| - 1], owners); }
  }

  lemma SameIsMatched(actual: seq<Extent>, expected: seq<Extent>, owners: set<nat>)
    requires Same(Scanned(actual, owners), expected)
    ensures !Skipped(actual, expected, owners)
  {
    hide Scanned;
    ScannedAre(actual, owners);
    forall j | 0 <= j < |expected| ensures Matched(actual, expected[j], owners) {
      var e := Scanned(actual, owners)[j];
      assert e in Scanned(actual, owners);
      var i :| 0 <= i < |actual| && actual[i] == e;
      assert IsScanned(actual[i], owners) && Equal(actual[i], expected[j]);
    }
  }

  lemma CoalescedSides(records: seq<Extent>, extents: seq<Extent>, owners: set<nat>)
    requires Disjoint(records) && Disjoint(extents)
    ensures Disjoint(Coalesce(records)) && Disjoint(Coalesce(extents))
    ensures Same(Scanned(Coalesce(records), owners), Coalesce(extents)) <==> Agree(records, extents, owners)
  {
    hide ValueAt, Coalesce, Scanned;
    CoalesceIsNormal(records);
    CoalesceIsNormal(extents);
    ScannedNormal(Coalesce(records), owners);
    var a, e := Scanned(Coalesce(records), owners), Coalesce(extents);
    assert forall b: nat :: ValueAt(a, b) == Restrict(ValueAt(records, b), owners);
    assert forall b: nat :: ValueAt(e, b) == ValueAt(extents, b);
    if Same(a, e) {
      forall b: nat ensures Restrict(ValueAt(records, b), owners) == ValueAt(extents, b) { SameView(a, e, b); }
    }
    if Agree(records, extents, owners) {
      NormalIsUnique(a, e);
    }
  }

  // ---- The totals per owner ----

  function SumOf(s: seq<(nat, int)>): int { if s == [] then 0 else s[0].1 + SumOf(s[1..]) }

  /** The last comparison: the sums, and the entries of the two maps (in key order) as far as both
      have any. */
  method TotalsMismatch(found: seq<(nat, int)>, kept: seq<(nat, int)>) returns (mismatch: bool)
    ensures !mismatch <==> SumOf(found) == SumOf(kept) && forall i :: 0 <= i < |found| && i < |kept| ==>
            found[i] == kept[i]
  {
    var count, i := 0, 0;
    while i < |found| && i < |kept|
      invariant 0 <= i <= |found| && i <= |kept|
      invariant count == 0 <==> forall j :: 0 <= j < i ==> found[j] == kept[j]
      invariant count >= 0
    {
      if found[i] != kept[i] { count := count + 1; }
      i := i + 1;
    }
    mismatch := SumOf(found) != SumOf(kept) || count != 0;
  }

  ghost predicate NonNegative(s: seq<(nat, int)>) { forall i :: 0 <= i < |s| ==> s[i].1 >= 0 }

  lemma {:induction false} SumPrefix(s: seq<(nat, int)>, n: nat)
    requires NonNegative(s) && n <= |s|
    ensures SumOf(s) == SumOf(s[..n]) + SumOf(s[n..]) && SumOf(s[n..]) >= 0
    ensures SumOf(s[n..]) == 0 <==> forall i :: n <= i < |s| ==> s[i].1 == 0
    decreases |s|
  {
    if n > 0 {
      SumPrefix(s[1..], n - 1);
      assert s[..n][1..] == s[1..][..n - 1] && s[1..][n - 1..] == s[n..];
      assert forall i :: n <= i < |s| ==> s[i] == s[1..][i - 1];
    } else if s != [] {
      SumPrefix(s[1..], 0);
      assert s[0..] == s && s[1..][0..] == s[1..];
      assert forall i :: 1 <= i < |s| ==> s[i] == s[1..][i - 1];
    }
  }

  ghost predicate ZeroFrom(s: seq<(nat, int)>, n: nat) { forall i :: n <= i < |s| ==> s[i].1 == 0 }

  /** Nothing is reported exactly if one map continues the other with zeros. */
  lemma TotalsMeaning(found: seq<(nat, int)>, kept: seq<(nat, int)>)
    requires NonNegative(found) && NonNegative(kept)
    ensures (SumOf(found) == SumOf(kept) && forall i :: 0 <= i < |found| && i < |kept| ==> found[i] == kept[i]) <==>
            ((found <= kept && ZeroFrom(kept, |found|)) || (kept <= found && ZeroFrom(found, |kept|)))
  {
    if |found| <= |kept| { LongerIsZeros(found, kept); } else { LongerIsZeros(kept, found); }
  }

  lemma LongerIsZeros(a: seq<(nat, int)>, b: seq<(nat, int)>)
    requires NonNegative(a) && NonNegative(b) && |a| <= |b|
    ensures (SumOf(a) == SumOf(b) && forall i :: 0 <= i < |a| ==> a[i] == b[i]) <==> (a <= b && ZeroFrom(b, |a|))
  {
    SumPrefix(b, |a|);
    if forall i :: 0 <= i < |a| ==> a[i] == b[i] {
      assert b[..|a|] == a;
    }
  }

  /** So an owner whose bytes are all gone but whose entry is still there can raise a false alarm:
      the totals of all owners agree and the check reports a mismatch. */
  method FalseAlarm() returns (mismatch: bool)
    ensures mismatch
  {
    var found, kept := [(2, 5)], [(1, 0), (2, 5)];
    mismatch := TotalsMismatch(found, kept);
    assert found[0] != kept[0];
  }
}
