/** Object ids of an encrypted store (src/object_store.rs). */
module ObjectIds {
  import opened LsmTypes
  import opened Ff1Cipher

  const MAX_HALF: nat := 0xffff_ffff

  /** A 64-bit object id, as its halves. */
  datatype Id = Id(hi: nat, lo: Word)

  predicate Above(a: Id, b: Id) { a.hi > b.hi || (a.hi == b.hi && a.lo > b.lo) }

  /** An id that the counter has passed. */
  ghost predicate Passed(x: Id, id: Id, cipher: Ff1)
  {
    x.hi < id.hi || (x.hi == id.hi && Decrypted(cipher, x.lo) <= id.lo)
  }

  lemma NextIsNew(x: Id, id: Id, cipher: Ff1)
    requires Passed(x, id, cipher) && id.lo != MAX_HALF
    ensures x != Id(id.hi, Encrypted(cipher, id.lo + 1))
  {
    hide Encrypted, Decrypted;
    CipherInverse(cipher, id.lo + 1);
  }

  /** `LastObjectId`.  `seen` are the ids handed out and the ids it was told of. */
  class LastObjectId {
    var id: Id
    var cipher: Ff1
    ghost var seen: set<Id>

    ghost predicate Valid()
      reads this
    {
      id.hi <= MAX_HALF && forall x :: x in seen ==> Passed(x, id, cipher)
    }

    /** A new encrypted store: the high half starts at one. */
    constructor (encryptBlock: Block -> Block)
      ensures Valid() && id.hi == 1 && seen == {} && cipher == New(encryptBlock)
    {
      this.id, this.cipher, this.seen := Id(1, 0), New(encryptBlock), {};
    }

    predicate ShouldCreateCipher()
      reads this
    {
      id.lo == MAX_HALF
    }

    /** Hands out an id that was never seen and is not the invalid one; none if the cipher must be
        rolled first. */
    method MaybeGetNext() returns (r: Option<Id>)
      requires Valid() && id.hi > 0
      modifies this
      ensures Valid() && id.hi == old(id.hi) && cipher == old(cipher)
      ensures r.None? <==> old(ShouldCreateCipher())
      ensures r.Some? ==> r.value !in old(seen) && r.value.hi != 0 && seen == old(seen) + {r.value}
      ensures r.Some? ==> id.lo == old(id.lo) + 1 && r.value == Id(id.hi, Encrypted(cipher, id.lo))
      ensures r.None? ==> unchanged(this)
    {
      hide Encrypted, Decrypted;
      if ShouldCreateCipher() {
        return None;
      }
      var lo := id.lo + 1;
      forall x | x in seen ensures x != Id(id.hi, Encrypted(cipher, lo)) && Passed(x, Id(id.hi, lo), cipher) {
        NextIsNew(x, id, cipher);
      }
      CipherInverse(cipher, lo);
      id := Id(id.hi, lo);
      assert id.hi != 0 && id.lo != 0;              // the assertions of the source
      var e := Encrypt(cipher, id.lo);
      seen := seen + {Id(id.hi, e)};
      return Some(Id(id.hi, e));
    }

    /** The check under the transaction lock: false if the ids have run out. */
    method CanRoll() returns (ok: bool)
      ensures ok <==> id.hi != MAX_HALF
    {
      ok := id.hi != MAX_HALF;
    }

    /** Installs a new cipher and hands out the first id under it. */
    method Roll(encryptBlock: Block -> Block) returns (r: Id)
      requires Valid() && id.hi < MAX_HALF
      modifies this
      ensures Valid() && id == Id(old(id.hi) + 1, 0) && cipher == New(encryptBlock)
      ensures r !in old(seen) && r.hi != 0 && seen == old(seen) + {r}
      ensures r == Id(id.hi, Encrypted(cipher, id.lo))
    {
      hide Encrypted, Decrypted;
      cipher := New(encryptBlock);
      id := Id(id.hi + 1, 0);
      CipherInverse(cipher, id.lo);
      var e := Encrypt(cipher, id.lo);
      r := Id(id.hi, e);
      seen := seen + {r};
    }

    /** Learns of an id in use; the low half is decrypted with the current cipher even if the id is
        from an older one. */
    method UpdateLastObjectId(x: Id)
      requires Valid() && x.hi <= MAX_HALF
      modifies this
      ensures Valid() && cipher == old(cipher) && seen == old(seen) + {x}
      ensures id == if Above(Id(x.hi, Decrypted(cipher, x.lo)), old(id)) then Id(x.hi, Decrypted(cipher, x.lo))
              else old(id)
      ensures id.hi >= old(id.hi) && id.hi >= x.hi
    {
      hide Decrypted;
      var lo := Decrypt(cipher, x.lo);
      var plain := Id(x.hi, lo);
      if Above(plain, id) {
        PassedUp(seen, id, plain, cipher);
        id := plain;
      }
      seen := seen + {x};
    }
  }

  lemma PassedUp(seen: set<Id>, id: Id, id': Id, cipher: Ff1)
    requires Above(id', id) && forall x :: x in seen ==> Passed(x, id, cipher)
    ensures forall x :: x in seen ==> Passed(x, id', cipher)
  {
    hide Decrypted;
  }

  /** Ids fed under one cipher, at least one of them with a high half: the next id is not one of
      them. */
  method FeedAndGet(last: LastObjectId, ids: seq<Id>, encryptBlock: Block -> Block) returns (r: Option<Id>)
    requires last.Valid() && forall i :: 0 <= i < |ids| ==> ids[i].hi <= MAX_HALF
    requires exists i :: 0 <= i < |ids| && ids[i].hi > 0
    modifies last
    ensures last.Valid()
    ensures r.Some? ==> r.value !in ids && r.value !in old(last.seen) && r.value.hi != 0
    ensures r.None? ==> last.id == Id(MAX_HALF, MAX_HALF)
  {
    for i := 0 to |ids|
      invariant last.Valid() && last.seen == old(last.seen) + set j | 0 <= j < i :: ids[j]
      invariant forall j :: 0 <= j < i ==> last.id.hi >= ids[j].hi
    {
      last.UpdateLastObjectId(ids[i]);
    }
    assert forall x :: x in ids ==> x in last.seen;
    r := last.MaybeGetNext();
    if r.None? {
      var ok := last.CanRoll();
      if ok {
        var x := last.Roll(encryptBlock);
        r := Some(x);
      }
    }
  }
}
