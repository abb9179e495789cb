/** Coalescing of allocator records (src/object_store/allocator.rs, `CoalescingIterator`). */
module Coalescing {
  import opened LsmTypes
  import opened RangeLayers
  import opened AllocatorMerge

  predicate Joins(a: Extent, b: Extent) { a.key.end == b.key.start && a.value == b.value }

  function Join(a: Extent, b: Extent): Extent { a.(key := Range(a.key.start, b.key.end)) }

  /** Records that touch and have the same value become one. */
  function Coalesce(s: seq<Extent>): seq<Extent>
    decreases |s|
  {
    if |s| < 2 then s
    else if Joins(s[0], s[1]) then Coalesce([Join(s[0], s[1])] + s[2..])
    else [s[0]] + Coalesce(s[1..])
  }

  /** No two neighbours could be joined. */
  ghost predicate Normal(s: seq<Extent>)
  {
    Disjoint(s) && forall p, q :: 0 <= p < q < |s| && q == p + 1 ==> !Joins(s[p], s[q])
  }

  lemma JoinView(s: seq<Extent>)
    requires Disjoint(s) && |s| >= 2 && Joins(s[0], s[1])
    ensures var t := [Join(s[0], s[1])] + s[2..];
            Disjoint(t) && forall b: nat :: ValueAt(t, b) == ValueAt(s, b)
  {
    var t := [Join(s[0], s[1])] + s[2..];
    forall b: nat ensures ValueAt(t, b) == ValueAt(s, b) {
      AtCons(Join(s[0], s[1]), s[2..], b);
      assert s[1..][1..] == s[2..];
    }
  }

  lemma TailDisjoint(s: seq<Extent>)
    requires Disjoint(s) && s != []
    ensures Disjoint(s[1..]) && From(s[1..], s[0].key.end) && s == [s[0]] + s[1..]
  {
  }

  /** Coalescing keeps the value of every byte and cannot be taken further. */
  lemma {:induction false} CoalesceIsNormal(s: seq<Extent>)
    requires Disjoint(s)
    ensures Normal(Coalesce(s)) && forall b: nat :: ValueAt(Coalesce(s), b) == ValueAt(s, b)
    ensures forall x :: From(s, x) ==> From(Coalesce(s), x)
    ensures s != [] ==>
              Coalesce(s) != [] && Coalesce(s)[0].key.start == s[0].key.start && Coalesce(s)[0].value == s[0].value
    decreases |s|
  {
    hide ValueAt;
    if |s| >= 2 {
      if Joins(s[0], s[1]) {
        var t := [Join(s[0], s[1])] + s[2..];
        JoinView(s);
        CoalesceIsNormal(t);
        forall x | From(s, x) ensures From(Coalesce(s), x) { assert From(t, x); }
      } else {
        TailDisjoint(s);
        CoalesceIsNormal(s[1..]);
        var rest := Coalesce(s[1..]);
        forall x | From(s, x) ensures From(Coalesce(s), x) { assert From(rest, x); }
        forall b: nat ensures ValueAt(Coalesce(s), b) == ValueAt(s, b) {
          AtCons(s[0], rest, b);
          AtCons(s[0], s[1..], b);
        }
        DisjointCons(s[0], rest);
      }
    }
  }

  /** Same ranges and values; the sequence numbers of joined records mean nothing. */
  ghost predicate Same(a: seq<Extent>, b: seq<Extent>)
  {
    |a| == |b| && forall i :: 0 <= i < |a| ==> a[i].key == b[i].key && a[i].value == b[i].value
  }

  lemma FirstByte(a: seq<Extent>)
    requires Disjoint(a) && a != []
    ensures ValueAt(a, a[0].key.start) == Some(a[0].value)
    ensures forall b: nat :: b < a[0].key.start ==> ValueAt(a, b) == None
  {
    forall b: nat | b < a[0].key.start ensures ValueAt(a, b) == None { AtBelow(a, a[0].key.start, b); }
  }

  lemma InFirst(a: seq<Extent>, b: nat)
    requires a != [] && Covers(a[0], b)
    ensures ValueAt(a, b) == Some(a[0].value)
  {
  }

  lemma AfterFirst(a: seq<Extent>, b: nat)
    requires a != [] && !Covers(a[0], b)
    ensures ValueAt(a, b) == ValueAt(a[1..], b)
  {
  }

  /** Just after the first record of a normal form, its value does not go on. */
  lemma FirstEnds(a: seq<Extent>)
    requires Normal(a) && a != []
    ensures ValueAt(a, a[0].key.end) != Some(a[0].value)
  {
    var x := a[0].key.end;
    AfterFirst(a, x);
    TailDisjoint(a);
    if |a| > 1 {
      if a[1].key.start == x { InFirst(a[1..], x); } else { AtBelow(a[1..], a[1].key.start, x); }
    }
  }

  lemma FirstEqual(a: seq<Extent>, b: seq<Extent>)
    requires Normal(a) && Normal(b) && a != [] && b != [] && forall x: nat :: ValueAt(a, x) == ValueAt(b, x)
    ensures a[0].key == b[0].key && a[0].value == b[0].value
  {
    hide ValueAt;
    FirstByte(a);
    FirstByte(b);
    assert ValueAt(a, a[0].key.start) == ValueAt(b, a[0].key.start);
    assert ValueAt(a, b[0].key.start) == ValueAt(b, b[0].key.start);
    FirstEnds(a);
    FirstEnds(b);
    if a[0].key.end < b[0].key.end { InFirst(b, a[0].key.end); } else if b[0].key.end < a[0].key.end {
      InFirst(a, b[0].key.end);
    }
  }

  /** The normal form of a map from bytes to values is unique. */
  lemma {:induction false} NormalIsUnique(a: seq<Extent>, b: seq<Extent>)
    requires Normal(a) && Normal(b) && forall x: nat :: ValueAt(a, x) == ValueAt(b, x)
    ensures Same(a, b)
    decreases |a|
  {
    hide ValueAt;
    if a == [] || b == [] {
      if a != [] { FirstByte(a); Nothing(a[0].key.start); } else if b != [] { FirstByte(b); Nothing(b[0].key.start); }
    } else {
      FirstEqual(a, b);
      TailDisjoint(a);
      TailDisjoint(b);
      forall x: nat ensures ValueAt(a[1..], x) == ValueAt(b[1..], x) {
        if x < a[0].key.end {
          AtBelow(a[1..], a[0].key.end, x);
          AtBelow(b[1..], a[0].key.end, x);
        } else {
          AfterFirst(a, x);
          AfterFirst(b, x);
        }
      }
      NormalIsUnique(a[1..], b[1..]);
    }
  }

  lemma Nothing(x: nat)
    ensures ValueAt<AllocatorValue>([], x) == None
  {
  }

  lemma {:induction false} SameView(a: seq<Extent>, b: seq<Extent>, x: nat)
    requires Same(a, b)
    ensures ValueAt(a, x) == ValueAt(b, x)
    decreases |a|
  {
    if a != [] { SameView(a[1..], b[1..], x); }
  }

  /** The iterator: `rest` are the records the underlying iterator is at. */
  class CoalescingIterator {
    var rest: seq<Extent>
    var item: Option<Extent>

    constructor (records: seq<Extent>)
      ensures rest == records && item == None
    {
      rest, item := records, None;
    }

    /** Moves to the next coalesced record; false if records overlap. */
    method Advance() returns (ok: bool)
      modifies this
      ensures Disjoint(old(rest)) ==> ok
      ensures ok && old(rest) == [] ==> item == None && rest == []
      ensures ok && old(rest) != [] ==> item.Some? && [item.value] + Coalesce(rest) == Coalesce(old(rest))
      ensures Disjoint(old(rest)) ==> Disjoint(rest)
    {
      if rest == [] {
        item := None;
        return true;
      }
      var left := rest[0];
      rest := rest[1..];
      assert [left] + rest == old(rest);
      while rest != []
        invariant Coalesce([left] + rest) == Coalesce(old(rest))
        invariant Disjoint(old(rest)) ==> Disjoint([left] + rest)
        decreases |rest|
      {
        var right := rest[0];
        if left.key.end > right.key.start {
          assert !Disjoint([left] + rest) by { assert ([left] + rest)[1] == right; }
          item := Some(left);
          return false;
        }
        if left.key.end < right.key.start || left.value != right.value {
          item := Some(left);
          assert ([left] + rest)[1..] == rest;
          DropFirst([left] + rest);
          return true;
        }
        ghost var s := [left] + rest;
        assert s[2..] == rest[1..] && s[1] == right;
        if Disjoint(s) { JoinView(s); }
        left := left.(key := Range(left.key.start, right.key.end));
        rest := rest[1..];
      }
      item := Some(left);
      return true;
    }
  }

  lemma DropFirst(s: seq<Extent>)
    requires s != []
    ensures Disjoint(s) ==> Disjoint(s[1..])
  {
  }
}
