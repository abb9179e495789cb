/** Layers of extents (src/lsm_tree/merge.rs, src/lsm_tree/types.rs): what a stack of layers with range
    keys says about each byte, and the passes of a merger that keep it. */
module RangeLayers {
  import opened LsmTypes
  import opened Merge

  datatype Range = Range(start: nat, end: nat)

  /** `cmp_upper_bound` of range keys: the ends decide. */
  predicate BeforeBound(key: Range, bound: Bound<Range>)
  {
    match bound
    case Unbounded => false
    case Included(k) => key.end < k.end
    case Excluded(k) => key.end <= k.end
  }

  type Extents<V> = seq<Item<Range, V>>
  type Cursors<V> = seq<Cursor<Range, V>>

  // ---- Meaning ----

  predicate Covers<V>(e: Item<Range, V>, b: nat) { e.key.start <= b < e.key.end }

  /** Extents of one layer: non-empty, in order and not overlapping. */
  ghost predicate Disjoint<V>(s: Extents<V>)
  {
    && (forall p :: 0 <= p < |s| ==> s[p].key.start < s[p].key.end)
    && (forall p, q :: 0 <= p < q < |s| ==> s[p].key.end <= s[q].key.start)
  }

  /** What one layer says about a byte. */
  ghost function ValueAt<V>(s: Extents<V>, b: nat): Option<V>
  {
    if s == [] then None else if Covers(s[0], b) then Some(s[0].value) else ValueAt(s[1..], b)
  }

  /** What the newest layer that mentions the byte says. */
  ghost function View<V>(cs: Cursors<V>, b: nat): Option<V>
  {
    if cs == [] then None
    else if ValueAt(cs[0].Items(), b).Some? then ValueAt(cs[0].Items(), b)
    else View(cs[1..], b)
  }

  ghost predicate From<V>(s: Extents<V>, x: int) { forall p :: 0 <= p < |s| ==> x <= s[p].key.start }

  ghost predicate AllFrom<V>(cs: Cursors<V>, x: int)
  {
    forall i :: 0 <= i < |cs| ==> From(cs[i].Items(), x)
  }

  ghost predicate AllDisjoint<V>(cs: Cursors<V>)
  {
    forall i :: 0 <= i < |cs| ==> Disjoint(cs[i].Items())
  }

  /** Bytes and records still to be merged. */
  ghost function Size<V>(s: Extents<V>): nat
  {
    if s == [] then 0
    else (if s[0].key.start < s[0].key.end then s[0].key.end - s[0].key.start else 0) + 1 + Size(s[1..])
  }

  ghost function TotalSize<V>(cs: Cursors<V>): nat
  {
    if cs == [] then 0 else Size(cs[0].Items()) + TotalSize(cs[1..])
  }

  lemma {:induction false} AtBelow<V>(s: Extents<V>, x: int, b: nat)
    requires From(s, x) && b < x
    ensures ValueAt(s, b) == None
  {
    if s != [] {
      assert x <= s[0].key.start;
      AtBelow(s[1..], x, b);
    }
  }

  /** The deciding layer. */
  lemma {:induction false} ViewIs<V>(cs: Cursors<V>, b: nat, i: nat)
    requires i < |cs| && ValueAt(cs[i].Items(), b).Some?
    requires forall j :: 0 <= j < i ==> ValueAt(cs[j].Items(), b) == None
    ensures View(cs, b) == ValueAt(cs[i].Items(), b)
    decreases |cs|
  {
    if i > 0 {
      assert ValueAt(cs[0].Items(), b) == None;
      ViewIs(cs[1..], b, i - 1);
    }
  }

  lemma {:induction false} ViewNone<V>(cs: Cursors<V>, b: nat)
    requires forall j :: 0 <= j < |cs| ==> ValueAt(cs[j].Items(), b) == None
    ensures View(cs, b) == None
    decreases |cs|
  {
    if cs != [] {
      assert ValueAt(cs[0].Items(), b) == None;
      ViewNone(cs[1..], b);
    }
  }

  lemma {:induction false} ViewSame<V>(cs: Cursors<V>, cs': Cursors<V>,
                                    b: nat)
    requires |cs| == |cs'| && forall j :: 0 <= j < |cs| ==> ValueAt(cs[j].Items(), b) == ValueAt(cs'[j].Items(), b)
    ensures View(cs, b) == View(cs', b)
    decreases |cs|
  {
    if cs != [] {
      assert ValueAt(cs[0].Items(), b) == ValueAt(cs'[0].Items(), b);
      ViewSame(cs[1..], cs'[1..], b);
    }
  }

  /** What an older layer says about a byte does not matter when a newer one mentions it. */
  lemma {:induction false} ViewHidden<V>(cs: Cursors<V>, cs': Cursors<V>,
                                      b: nat,
                                      newer: nat, older: nat)
    requires |cs| == |cs'| && newer < older < |cs| && ValueAt(cs[newer].Items(), b).Some?
    requires forall j :: 0 <= j < |cs| && j != older ==> ValueAt(cs[j].Items(), b) == ValueAt(cs'[j].Items(), b)
    ensures View(cs, b) == View(cs', b)
    decreases |cs|
  {
    assert ValueAt(cs[0].Items(), b) == ValueAt(cs'[0].Items(), b);
    if newer > 0 { ViewHidden(cs[1..], cs'[1..], b, newer - 1, older - 1); }
  }

  /** Of two neighbouring layers it does not matter which one mentions a byte, if both would say the
      same. */
  lemma {:induction false} ViewNeighbours<V>(cs: Cursors<V>, cs': Cursors<V>, b: nat, i: nat)
    requires |cs| == |cs'| && i + 1 < |cs|
    requires forall j :: 0 <= j < |cs| && j != i && j != i + 1 ==>
               ValueAt(cs[j].Items(), b) == ValueAt(cs'[j].Items(), b)
    requires First(ValueAt(cs[i].Items(), b), ValueAt(cs[i + 1].Items(), b)) ==
             First(ValueAt(cs'[i].Items(), b), ValueAt(cs'[i + 1].Items(), b))
    ensures View(cs, b) == View(cs', b)
    decreases |cs|
  {
    hide ValueAt;
    if i > 0 {
      assert ValueAt(cs[0].Items(), b) == ValueAt(cs'[0].Items(), b);
      ViewNeighbours(cs[1..], cs'[1..], b, i - 1);
    } else {
      assert cs[1..][1..] == cs[2..] && cs'[1..][1..] == cs'[2..];
      assert View(cs[1..], b) == First(ValueAt(cs[1].Items(), b), View(cs[2..], b));
      assert View(cs'[1..], b) == First(ValueAt(cs'[1].Items(), b), View(cs'[2..], b));
      forall j | 0 <= j < |cs| - 2 ensures ValueAt(cs[2..][j].Items(), b) == ValueAt(cs'[2..][j].Items(), b) {
        assert cs[2..][j] == cs[j + 2] && cs'[2..][j] == cs'[j + 2];
      }
      ViewSame(cs[2..], cs'[2..], b);
    }
  }

  ghost function First<T>(a: Option<T>, b: Option<T>): Option<T> { if a.Some? then a else b }

  lemma {:induction false} SizeUpdate<V>(cs: Cursors<V>, i: nat, c: Cursor<Range, V>)
    requires i < |cs|
    ensures TotalSize(cs[i := c]) == TotalSize(cs) - Size(cs[i].Items()) + Size(c.Items())
    decreases |cs|
  {
    if i > 0 {
      assert cs[i := c][1..] == cs[1..][i - 1 := c];
      SizeUpdate(cs[1..], i - 1, c);
    } else {
      assert cs[0 := c][1..] == cs[1..];
    }
  }

  lemma SizeCons<V>(x: Item<Range, V>, t: Extents<V>)
    requires x.key.start <= x.key.end
    ensures Size([x] + t) == x.key.end - x.key.start + 1 + Size(t)
  {
    assert ([x] + t)[1..] == t;
  }

  lemma AtCons<V>(x: Item<Range, V>, t: Extents<V>, b: nat)
    ensures ValueAt([x] + t, b) == if Covers(x, b) then Some(x.value) else ValueAt(t, b)
  {
    assert ([x] + t)[1..] == t;
  }

  lemma DisjointCons<V>(x: Item<Range, V>, t: Extents<V>)
    requires Disjoint(t) && x.key.start < x.key.end && From(t, x.key.end)
    ensures Disjoint([x] + t)
  {
  }

  /** A layer's iterator: its item, non-empty, and the rest, which starts after it. */
  lemma HeadTail<V>(c: Cursor<Range, V>)
    requires c.HasItem() && Disjoint(c.Items())
    ensures c.Items() == [c.Item()] + c.Items()[1..] && c.Item().key.start < c.Item().key.end
    ensures Disjoint(c.Items()[1..]) && From(c.Items()[1..], c.Item().key.end) && From(c.Items(), c.Item().key.start)
  {
  }

  // ---- One pass of the merger ----

  /** What one pass must do: the emitted extent comes before everything that remains and, together
      with what remains, says the same about every byte as before. */
  ghost predicate StepOk<V>(cs: Cursors<V>, e: Option<Item<Range, V>>,
                         cs': Cursors<V>)
  {
    && |cs'| == |cs| && AllDisjoint(cs') && TotalSize(cs') < TotalSize(cs)
    && (forall x :: AllFrom(cs, x) ==> AllFrom(cs', x) && (e.Some? ==> x <= e.value.key.start))
    && (e.Some? ==> e.value.key.start < e.value.key.end && AllFrom(cs', e.value.key.end))
    && (forall b :: View(cs, b) == if e.Some? && Covers(e.value, b) then Some(e.value.value) else View(cs', b))
  }

  /** The lowest and second lowest item and where everything else lies. */
  ghost predicate Pair<V>(cs: Cursors<V>, l: nat, s: nat)
  {
    && l < |cs| && s < |cs| && l != s && cs[l].HasItem() && cs[s].HasItem() && AllDisjoint(cs)
    && cs[l].Item().key.start <= cs[s].Item().key.start
    && (forall j :: 0 <= j < |cs| && j != l && j != s ==> From(cs[j].Items(), cs[s].Item().key.start))
  }

  lemma FromUpdate<V>(cs: Cursors<V>, i: nat, c: Cursor<Range, V>)
    requires i < |cs| && forall x :: From(cs[i].Items(), x) ==> From(c.Items(), x)
    ensures forall x :: AllFrom(cs, x) ==> AllFrom(cs[i := c], x)
  {
    forall x | AllFrom(cs, x) ensures AllFrom(cs[i := c], x) {
      assert From(cs[i].Items(), x);
    }
  }

  /** The lowest item lies before all others and is emitted. */
  lemma StepEmit<V>(cs: Cursors<V>, l: nat)
    requires l < |cs| && cs[l].HasItem() && AllDisjoint(cs)
    requires forall j :: 0 <= j < |cs| && j != l ==> From(cs[j].Items(), cs[l].Item().key.end)
    ensures StepOk(cs, Some(cs[l].Item()), cs[l := cs[l].Advance()])
  {
    hide View, ValueAt, Size, TotalSize, Cursor.Items;
    var c, e := cs[l], cs[l].Item();
    var cs' := cs[l := c.Advance()];
    HeadTail(c);
    SizeUpdate(cs, l, c.Advance());
    SizeCons(e, c.Items()[1..]);
    FromUpdate(cs, l, c.Advance());
    forall x | AllFrom(cs, x) ensures x <= e.key.start { assert From(c.Items(), x); }
    forall b: nat ensures View(cs, b) == if Covers(e, b) then Some(e.value) else View(cs', b) {
      AtCons(e, c.Items()[1..], b);
      if Covers(e, b) {
        forall j | 0 <= j < |cs| && j != l
          ensures ValueAt(cs[j].Items(), b) == None
        {
          AtBelow(cs[j].Items(), e.key.end, b);
        }
        ViewIs(cs, b, l);
      } else {
        ViewSame(cs, cs', b);
      }
    }
  }

  predicate Neighbours(i: nat, j: nat) { i + 1 == j || j + 1 == i }

  /** Extents with equal values that touch, or overlap in neighbouring layers: the left one is absorbed
      by the right one. */
  lemma StepJoin<V>(cs: Cursors<V>, l: nat, s: nat, joined: Item<Range, V>)
    requires Pair(cs, l, s) && cs[s].Item().key.start <= cs[l].Item().key.end < cs[s].Item().key.end
    requires cs[s].Item().key.start == cs[l].Item().key.end || Neighbours(l, s)
    requires cs[l].Item().value == cs[s].Item().value
    requires joined.key == Range(cs[l].Item().key.start, cs[s].Item().key.end) && joined.value == cs[l].Item().value
    ensures StepOk(cs, None, cs[l := cs[l].Apply(Discard)][s := cs[s].Apply(Replace(joined))])
  {
    hide View, ValueAt, Size, TotalSize, Cursor.Items;
    var a, b0 := cs[l], cs[s];
    var c, d := a.Apply(Discard), b0.Apply(Replace(joined));
    var mid := cs[l := c];
    var cs' := mid[s := d];
    HeadTail(a);
    HeadTail(b0);
    DisjointCons(joined, b0.Items()[1..]);
    SizeUpdate(cs, l, c);
    SizeUpdate(mid, s, d);
    SizeCons(a.Item(), a.Items()[1..]);
    SizeCons(b0.Item(), b0.Items()[1..]);
    SizeCons(joined, b0.Items()[1..]);
    forall x | AllFrom(cs, x) ensures AllFrom(cs', x) {
      assert From(a.Items(), x) && From(b0.Items(), x) && a.Items()[0].key.start >= x;
    }
    forall b: nat ensures View(cs, b) == View(cs', b) { JoinedByte(cs, l, s, joined, b); }
  }

  /** What the join says about one byte. */
  lemma JoinedByte<V>(cs: Cursors<V>, l: nat, s: nat, joined: Item<Range, V>, b: nat)
    requires Pair(cs, l, s) && cs[s].Item().key.start <= cs[l].Item().key.end < cs[s].Item().key.end
    requires cs[s].Item().key.start == cs[l].Item().key.end || Neighbours(l, s)
    requires cs[l].Item().value == cs[s].Item().value
    requires joined.key == Range(cs[l].Item().key.start, cs[s].Item().key.end) && joined.value == cs[l].Item().value
    ensures View(cs, b) == View(cs[l := cs[l].Apply(Discard)][s := cs[s].Apply(Replace(joined))], b)
  {
    hide View, ValueAt, Cursor.Items, Disjoint;
    var a, b0 := cs[l], cs[s];
    var cs' := cs[l := a.Apply(Discard)][s := b0.Apply(Replace(joined))];
    HeadTail(a);
    HeadTail(b0);
    AtCons(a.Item(), a.Items()[1..], b);
    AtCons(b0.Item(), b0.Items()[1..], b);
    AtCons(joined, b0.Items()[1..], b);
    if Covers(a.Item(), b) && b >= b0.Item().key.start {
      AtBelow(a.Items()[1..], a.Item().key.end, b);
      ViewNeighbours(cs, cs', b, if l < s then l else s);
    } else if Covers(a.Item(), b) {
      AtBelow(a.Items()[1..], a.Item().key.end, b);
      forall j | 0 <= j < |cs| && j != l && j != s ensures ValueAt(cs[j].Items(), b) == None {
        AtBelow(cs[j].Items(), b0.Item().key.start, b);
      }
      AtBelow(b0.Items(), b0.Item().key.start, b);
      ViewIs(cs, b, l);
      ViewIs(cs', b, s);
    } else {
      ViewSame(cs, cs', b);
    }
  }

  /** A newer extent hides the beginning of an older one. */
  lemma StepTrim<V>(cs: Cursors<V>, newer: nat, older: nat, trimmed: Item<Range, V>)
    requires newer < older < |cs| && cs[newer].HasItem() && cs[older].HasItem() && AllDisjoint(cs)
    requires var n, o := cs[newer].Item().key, cs[older].Item().key;
             n.start <= o.start < n.end < o.end && trimmed.key == Range(n.end, o.end)
    requires trimmed.value == cs[older].Item().value
    ensures StepOk(cs, None, cs[older := cs[older].Apply(Replace(trimmed))])
  {
    hide View, ValueAt, Size, TotalSize, Cursor.Items;
    var a, c := cs[newer], cs[older];
    var d := c.Apply(Replace(trimmed));
    var cs' := cs[older := d];
    HeadTail(a);
    HeadTail(c);
    DisjointCons(trimmed, c.Items()[1..]);
    SizeUpdate(cs, older, d);
    SizeCons(c.Item(), c.Items()[1..]);
    SizeCons(trimmed, c.Items()[1..]);
    forall x | From(c.Items(), x) ensures From(d.Items(), x) { assert x <= c.Items()[0].key.start; }
    FromUpdate(cs, older, d);
    forall b: nat ensures View(cs, b) == View(cs', b) {
      AtCons(a.Item(), a.Items()[1..], b);
      AtCons(c.Item(), c.Items()[1..], b);
      AtCons(trimmed, c.Items()[1..], b);
      if Covers(a.Item(), b) {
        ViewHidden(cs, cs', b, newer, older);
      } else {
        ViewSame(cs, cs', b);
      }
    }
  }

  /** A newer extent hides an older one altogether. */
  lemma StepDrop<V>(cs: Cursors<V>, newer: nat, older: nat)
    requires newer < older < |cs| && cs[newer].HasItem() && cs[older].HasItem() && AllDisjoint(cs)
    requires var n, o := cs[newer].Item().key, cs[older].Item().key; n.start <= o.start && o.end <= n.end
    ensures StepOk(cs, None, cs[older := cs[older].Apply(Discard)])
  {
    hide View, ValueAt, Size, TotalSize, Cursor.Items;
    var a, c := cs[newer], cs[older];
    var cs' := cs[older := c.Advance()];
    HeadTail(a);
    HeadTail(c);
    SizeUpdate(cs, older, c.Advance());
    SizeCons(c.Item(), c.Items()[1..]);
    FromUpdate(cs, older, c.Advance());
    forall b: nat ensures View(cs, b) == View(cs', b) {
      AtCons(a.Item(), a.Items()[1..], b);
      AtCons(c.Item(), c.Items()[1..], b);
      if Covers(c.Item(), b) {
        ViewHidden(cs, cs', b, newer, older);
      } else {
        ViewSame(cs, cs', b);
      }
    }
  }

  /** An extent of the next older layer that says the same hides a newer one. */
  lemma StepAbsorb<V>(cs: Cursors<V>, l: nat, s: nat)
    requires Pair(cs, l, s) && s + 1 == l && cs[s].Item().key.end <= cs[l].Item().key.end
    requires cs[l].Item().value == cs[s].Item().value
    ensures StepOk(cs, None, cs[s := cs[s].Apply(Discard)])
  {
    hide View, ValueAt, Size, TotalSize, Cursor.Items;
    var a, c := cs[l], cs[s];
    var cs' := cs[s := c.Advance()];
    HeadTail(a);
    HeadTail(c);
    SizeUpdate(cs, s, c.Advance());
    SizeCons(c.Item(), c.Items()[1..]);
    FromUpdate(cs, s, c.Advance());
    forall b: nat ensures View(cs, b) == View(cs', b) {
      AtCons(a.Item(), a.Items()[1..], b);
      AtCons(c.Item(), c.Items()[1..], b);
      if Covers(c.Item(), b) {
        AtBelow(c.Items()[1..], c.Item().key.end, b);
        ViewNeighbours(cs, cs', b, s);
      } else {
        ViewSame(cs, cs', b);
      }
    }
  }

  /** The part of the left extent before the right one is emitted. */
  lemma StepSplit<V>(cs: Cursors<V>, l: nat, s: nat, prefix: Item<Range, V>, suffix: Item<Range, V>)
    requires Pair(cs, l, s)
    requires var a, r := cs[l].Item().key, cs[s].Item().key;
             a.start < r.start < a.end && prefix.key == Range(a.start, r.start) && suffix.key == Range(r.start, a.end)
    requires prefix.value == suffix.value == cs[l].Item().value
    ensures StepOk(cs, Some(prefix), cs[l := cs[l].Apply(Replace(suffix))])
  {
    hide View, ValueAt, Size, TotalSize, Cursor.Items;
    var a := cs[l];
    var d := a.Apply(Replace(suffix));
    var cs' := cs[l := d];
    HeadTail(a);
    HeadTail(cs[s]);
    DisjointCons(suffix, a.Items()[1..]);
    SizeUpdate(cs, l, d);
    SizeCons(a.Item(), a.Items()[1..]);
    SizeCons(suffix, a.Items()[1..]);
    forall x | From(a.Items(), x) ensures From(d.Items(), x) { assert x <= a.Items()[0].key.start; }
    FromUpdate(cs, l, d);
    forall x | AllFrom(cs, x) ensures x <= prefix.key.start { assert From(a.Items(), x); }
    forall b: nat ensures View(cs, b) == if Covers(prefix, b) then Some(prefix.value) else View(cs', b) {
      AtCons(a.Item(), a.Items()[1..], b);
      AtCons(suffix, a.Items()[1..], b);
      if Covers(prefix, b) {
        forall j | 0 <= j < |cs| && j != l ensures ValueAt(cs[j].Items(), b) == None {
          AtBelow(cs[j].Items(), cs[s].Item().key.start, b);
        }
        ViewIs(cs, b, l);
      } else {
        ViewSame(cs, cs', b);
      }
    }
  }

  lemma AloneFrom<V>(cs: Cursors<V>, l: nat)
    requires l < |cs| && cs[l].HasItem() && forall j :: 0 <= j < |cs| && j != l ==> !cs[j].HasItem()
    ensures forall j :: 0 <= j < |cs| && j != l ==> From(cs[j].Items(), cs[l].Item().key.end)
  {
  }

  lemma OthersFrom<V>(cs: Cursors<V>, l: nat, s: nat)
    requires Pair(cs, l, s) && cs[l].Item().key.end <= cs[s].Item().key.start
    ensures forall j :: 0 <= j < |cs| && j != l ==> From(cs[j].Items(), cs[l].Item().key.end)
  {
    HeadTail(cs[s]);
    forall j | 0 <= j < |cs| && j != l ensures From(cs[j].Items(), cs[l].Item().key.end) {
      if j != s { assert From(cs[j].Items(), cs[s].Item().key.start); }
    }
  }

  // ---- The whole merge ----

  /** The merged extents are non-empty, ordered and non-overlapping and say about every byte of the
      device exactly what the newest layer mentioning it says. */
  ghost predicate MergedOk<V>(cs: Cursors<V>, out: Extents<V>)
  {
    && Disjoint(out)
    && (forall b :: ValueAt(out, b) == View(cs, b))
    && (forall x :: AllFrom(cs, x) ==> From(out, x))
  }

  lemma MergedCons<V>(cs: Cursors<V>, e: Option<Item<Range, V>>, cs': Cursors<V>,
                   rest: Extents<V>)
    requires StepOk(cs, e, cs') && MergedOk(cs', rest)
    ensures MergedOk(cs, (if e.Some? then [e.value] else []) + rest)
  {
    hide ValueAt, View, TotalSize, AllDisjoint;
    var out := (if e.Some? then [e.value] else []) + rest;
    if e.Some? {
      DisjointCons(e.value, rest);
      forall b ensures ValueAt(out, b) == View(cs, b) { AtCons(e.value, rest, b); }
    } else {
      assert out == rest;
    }
    forall x | AllFrom(cs, x) ensures From(out, x) { assert From(rest, x); }
  }

  lemma StepShrinks<V>(cs: Cursors<V>, e: Option<Item<Range, V>>, cs': Cursors<V>)
    requires StepOk(cs, e, cs')
    ensures AllDisjoint(cs') && TotalSize(cs') < TotalSize(cs)
  {
  }

  lemma {:induction false} AtConcat<V>(a: Extents<V>, b: Extents<V>, byte: nat)
    ensures ValueAt(a + b, byte) == if ValueAt(a, byte).Some? then ValueAt(a, byte) else ValueAt(b, byte)
  {
    if a == [] {
      assert a + b == b;
    } else {
      assert a + b == [a[0]] + (a[1..] + b);
      AtConcat(a[1..], b, byte);
    }
  }

  lemma {:induction false} AtAbove<V>(s: Extents<V>, x: nat, b: nat)
    requires (forall p :: 0 <= p < |s| ==> s[p].key.end <= x) && b >= x
    ensures ValueAt(s, b) == None
    decreases |s|
  {
    if s != [] { AtAbove(s[1..], x, b); }
  }
}
