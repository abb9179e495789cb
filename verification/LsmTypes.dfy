/** Types shared by the layers of the LSM tree (src/lsm_tree/types.rs). */
module LsmTypes {
  datatype Option<+T> = None | Some(value: T)

  datatype Item<+K, +V> = Item(key: K, value: V, sequence: nat)

  datatype Bound<+K> = Unbounded | Included(key: K) | Excluded(key: K)

  /** Keys of the layers modelled with integer keys are only ever compared; an integer stands for
      the rank of a key among all keys of a run. */
  predicate Before(key: int, bound: Bound<int>)
  {
    match bound
    case Unbounded => false
    case Included(k) => key < k
    case Excluded(k) => key <= k
  }

  predicate Sorted<V>(s: seq<Item<int, V>>)
  {
    forall i, j :: 0 <= i < j < |s| ==> s[i].key < s[j].key
  }

  /** The item stored under `key`. */
  ghost function Lookup<V>(s: seq<Item<int, V>>, key: int): Option<Item<int, V>>
  {
    if exists i :: 0 <= i < |s| && s[i].key == key then
      var i :| 0 <= i < |s| && s[i].key == key;
      Some(s[i])
    else None
  }

  lemma LookupAt<V>(s: seq<Item<int, V>>, i: nat)
    requires Sorted(s) && i < |s|
    ensures Lookup(s, s[i].key) == Some(s[i])
  {
  }

  lemma LookupNone<V>(s: seq<Item<int, V>>, key: int)
    requires forall i :: 0 <= i < |s| ==> s[i].key != key
    ensures Lookup(s, key) == None
  {
  }

  /** Two sorted sequences that hold the same items under every key are equal. */
  lemma {:induction false} SortedUnique<V>(a: seq<Item<int, V>>, b: seq<Item<int, V>>)
    requires Sorted(a) && Sorted(b) && forall key :: Lookup(a, key) == Lookup(b, key)
    ensures a == b
    decreases |a|
  {
    if a == [] {
      if b != [] { LookupAt(b, 0); LookupNone(a, b[0].key); }
    } else {
      LookupAt(a, 0);
      assert b != [];
      LookupAt(b, 0);
      assert a[0] == b[0];
      forall key ensures Lookup(a[1..], key) == Lookup(b[1..], key) {
        LookupTail(a, key);
        LookupTail(b, key);
      }
      SortedUnique(a[1..], b[1..]);
      assert a == [a[0]] + a[1..] && b == [b[0]] + b[1..];
    }
  }

  lemma LookupTail<V>(s: seq<Item<int, V>>, key: int)
    requires Sorted(s) && s != []
    ensures Lookup(s[1..], key) == if key == s[0].key then None else Lookup(s, key)
  {
    if i :| 0 <= i < |s| && s[i].key == key {
      LookupAt(s, i);
      if i > 0 {
        assert s[1..][i - 1] == s[i];
        LookupAt(s[1..], i - 1);
      } else {
        LookupNone(s[1..], key);
      }
    } else {
      LookupNone(s[1..], key);
      LookupNone(s, key);
    }
  }

  /** Putting `item` between the items below and the items above its key. */
  lemma LookupPut<V>(s: seq<Item<int, V>>, k: nat, j: nat, item: Item<int, V>, key: int)
    requires Sorted(s) && k <= j <= |s|
    requires forall i :: 0 <= i < k ==> s[i].key < item.key
    requires forall i :: k <= i < j ==> s[i].key == item.key
    requires forall i :: j <= i < |s| ==> item.key < s[i].key
    ensures Sorted(s[..k] + [item] + s[j..])
    ensures Lookup(s[..k] + [item] + s[j..], key) == if key == item.key then Some(item) else Lookup(s, key)
  {
    hide Lookup;
    var t := s[..k] + [item] + s[j..];
    SortedPut(s, k, j, item);
    if key == item.key {
      assert t[k] == item;
      LookupAt(t, k);
    } else if i :| 0 <= i < |s| && s[i].key == key {
      LookupAt(s, i);
      var i' := if i < k then i else i - j + k + 1;
      assert t[i'] == s[i];
      LookupAt(t, i');
    } else {
      LookupNone(s, key);
      forall p | 0 <= p < |t| ensures t[p].key != key {
        assert t[p] == if p < k then s[p] else if p == k then item else s[p - k - 1 + j];
      }
      LookupNone(t, key);
    }
  }

  lemma SortedPut<V>(s: seq<Item<int, V>>, k: nat, j: nat, item: Item<int, V>)
    requires Sorted(s) && k <= j <= |s|
    requires forall i :: 0 <= i < k ==> s[i].key < item.key
    requires forall i :: j <= i < |s| ==> item.key < s[i].key
    ensures Sorted(s[..k] + [item] + s[j..])
  {
    var t := s[..k] + [item] + s[j..];
    forall p, q | 0 <= p < q < |t| ensures t[p].key < t[q].key {
      assert t[p] == if p < k then s[p] else if p == k then item else s[p - k - 1 + j];
      assert t[q] == if q < k then s[q] else if q == k then item else s[q - k - 1 + j];
    }
  }
}
