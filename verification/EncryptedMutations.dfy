/** Encrypted mutations of an object store (src/object_store.rs): how mutations seen during replay
    are collected, and how `unlock` decrypts and decodes them. */
module EncryptedMutations {
  import opened LsmTypes
  import opened Codecs

  type Bytes = seq<bv8>

  /** The stream cipher: the byte of the stream of a key at a position (ChaCha20 in the source). */
  type Stream = (nat, nat) -> bv8

  /** A stream cipher in use. */
  datatype Cipher = Cipher(key: nat, pos: nat)
  {
    function Skip(n: nat): Cipher { Cipher(key, pos + n) }
  }

  /** `apply_keystream` */
  function Apply(stream: Stream, c: Cipher, data: Bytes): (r: Bytes)
    ensures |r| == |data|
  {
    seq(|data|, i requires 0 <= i < |data| => data[i] ^ stream(c.key, c.pos + i))
  }

  lemma ApplyTwice(stream: Stream, c: Cipher, data: Bytes)
    ensures Apply(stream, c, Apply(stream, c, data)) == data
  {
    forall i | 0 <= i < |data| ensures Apply(stream, c, Apply(stream, c, data))[i] == data[i] {
      XorTwice(data[i], stream(c.key, c.pos + i));
    }
  }

  lemma XorTwice(a: bv8, b: bv8)
    ensures (a ^ b) ^ b == a
  {
  }

  lemma ApplyConcat(stream: Stream, c: Cipher, a: Bytes, b: Bytes)
    ensures Apply(stream, c, a + b) == Apply(stream, c, a) + Apply(stream, c.Skip(|a|), b)
  {
  }

  // ---- The collected mutations ----

  /** `EncryptedMutations`: per transaction the number of mutations, all the data, and where in the
      data a new key applies. */
  datatype Log = Log(transactions: seq<(nat, nat)>, data: Bytes, rolls: seq<(nat, nat)>)
  {
    function Push(at: nat, d: Bytes): Log
    {
      var n := |transactions|;
      if n > 0 && transactions[n - 1].0 == at then
        Log(transactions[n - 1 := (at, transactions[n - 1].1 + 1)], data + d, rolls)
      else Log(transactions + [(at, 1)], data + d, rolls)
    }

    function SetKey(key: nat): Log { Log(transactions, data, rolls + [(|data|, key)]) }

    function Extend(other: Log): Log
    {
      Log(transactions + other.transactions, data + other.data, rolls + Shifted(other.rolls, |data|))
    }
  }

  function Shifted(rolls: seq<(nat, nat)>, shift: nat): seq<(nat, nat)>
  {
    seq(|rolls|, i requires 0 <= i < |rolls| => (rolls[i].0 + shift, rolls[i].1))
  }

  function EmptyLog(): Log { Log([], [], []) }

  // ---- What was written ----

  /** What the journal holds for a store: a new key, or the encrypted bytes of one mutation in the
      transaction at `at`. */
  datatype Token = Roll(key: nat) | Data(at: nat, bytes: Bytes)

  ghost function DataOf(t: seq<Token>): Bytes
  {
    if t == [] then [] else DataOf(t[..|t| - 1]) + (if t[|t| - 1].Data? then t[|t| - 1].bytes else [])
  }

  ghost function RollsOf(t: seq<Token>): seq<(nat, nat)>
  {
    if t == [] then [] else
      var init, last := t[..|t| - 1], t[|t| - 1];
      RollsOf(init) + (if last.Roll? then [(|DataOf(init)|, last.key)] else [])
  }

  ghost function OffsetsOf(t: seq<Token>): seq<nat>
  {
    if t == [] then [] else OffsetsOf(t[..|t| - 1]) + (if t[|t| - 1].Data? then [t[|t| - 1].at] else [])
  }

  function Repeat(at: nat, n: nat): (r: seq<nat>)
    ensures |r| == n && forall i :: 0 <= i < n ==> r[i] == at
  {
    seq(n, i => at)
  }

  /** The transaction of each mutation. */
  ghost function Expand(transactions: seq<(nat, nat)>): seq<nat>
  {
    if transactions == [] then [] else
      var (at, n) := transactions[|transactions| - 1];
      Expand(transactions[..|transactions| - 1]) + Repeat(at, n)
  }

  /** The log records exactly the tokens. */
  ghost predicate Records(log: Log, t: seq<Token>)
  {
    log.data == DataOf(t) && log.rolls == RollsOf(t) && Expand(log.transactions) == OffsetsOf(t)
  }

  lemma RecordsEmpty()
    ensures Records(EmptyLog(), [])
  {
  }

  lemma RecordsPush(log: Log, t: seq<Token>, at: nat, d: Bytes)
    requires Records(log, t)
    ensures Records(log.Push(at, d), t + [Data(at, d)])
  {
    var n := |log.transactions|;
    assert (t + [Data(at, d)])[..|t|] == t;
    var ts := log.Push(at, d).transactions;
    if n > 0 && log.transactions[n - 1].0 == at {
      assert ts[..n - 1] == log.transactions[..n - 1];
      assert Repeat(at, log.transactions[n - 1].1 + 1) == Repeat(at, log.transactions[n - 1].1) + [at];
    } else {
      assert ts[..n] == log.transactions;
      assert Repeat(at, 1) == [at];
    }
  }

  lemma RecordsRoll(log: Log, t: seq<Token>, key: nat)
    requires Records(log, t)
    ensures Records(log.SetKey(key), t + [Roll(key)])
  {
    assert (t + [Roll(key)])[..|t|] == t;
  }

  lemma {:induction false} ExpandConcat(a: seq<(nat, nat)>, b: seq<(nat, nat)>)
    ensures Expand(a + b) == Expand(a) + Expand(b)
    decreases |b|
  {
    if b == [] {
      assert a + b == a;
    } else {
      var n := |b| - 1;
      assert (a + b)[..|a + b| - 1] == a + b[..n];
      ExpandConcat(a, b[..n]);
    }
  }

  lemma {:induction false} TokensConcat(a: seq<Token>, b: seq<Token>)
    ensures DataOf(a + b) == DataOf(a) + DataOf(b)
    ensures OffsetsOf(a + b) == OffsetsOf(a) + OffsetsOf(b)
    decreases |b|
  {
    if b == [] {
      assert a + b == a;
    } else {
      var n := |b| - 1;
      assert (a + b)[..|a + b| - 1] == a + b[..n];
      TokensConcat(a, b[..n]);
    }
  }

  lemma {:induction false} RollsConcat(a: seq<Token>, b: seq<Token>)
    ensures RollsOf(a + b) == RollsOf(a) + Shifted(RollsOf(b), |DataOf(a)|)
    decreases |b|
  {
    hide DataOf;
    if b == [] {
      assert a + b == a;
    } else {
      var n := |b| - 1;
      var init := b[..n];
      assert (a + b)[..|a + b| - 1] == a + init && (a + b)[|a + b| - 1] == b[n];
      RollsConcat(a, init);
      TokensConcat(a, init);
      if b[n].Roll? {
        ShiftedPush(RollsOf(init), (|DataOf(init)|, b[n].key), |DataOf(a)|);
      } else {
        assert RollsOf(b) == RollsOf(init);
      }
    }
  }

  lemma ShiftedPush(rolls: seq<(nat, nat)>, r: (nat, nat), shift: nat)
    ensures Shifted(rolls + [r], shift) == Shifted(rolls, shift) + [(r.0 + shift, r.1)]
  {
  }

  lemma RecordsExtend(x: Log, y: Log, a: seq<Token>, b: seq<Token>)
    requires Records(x, a) && Records(y, b)
    ensures Records(x.Extend(y), a + b)
  {
    TokensConcat(a, b);
    RollsConcat(a, b);
    ExpandConcat(x.transactions, y.transactions);
  }

  // ---- Reading tokens back ----

  /** The mutations the tokens hold, with their transactions, when reading starts with cipher `c`. */
  ghost function Reads(stream: Stream, c: Cipher, t: seq<Token>): seq<(nat, Bytes)>
    decreases |t|
  {
    if t == [] then [] else
      var init, last := t[..|t| - 1], t[|t| - 1];
      Reads(stream, c, init) + (if last.Data? then [(last.at, Apply(stream, After(c, init), last.bytes))] else [])
  }

  /** The cipher after the tokens. */
  ghost function After(c: Cipher, t: seq<Token>): Cipher
    decreases |t|
  {
    if t == [] then c
    else match t[|t| - 1] case Roll(key) => Cipher(key, 0) case Data(_, d) => After(c, t[..|t| - 1]).Skip(|d|)
  }

  lemma ReadsRoll(stream: Stream, c: Cipher, t: seq<Token>, key: nat)
    ensures Reads(stream, c, t + [Roll(key)]) == Reads(stream, c, t) && After(c, t + [Roll(key)]) == Cipher(key, 0)
  {
    hide Apply;
    assert (t + [Roll(key)])[..|t|] == t;
  }

  lemma ReadsData(stream: Stream, c: Cipher, t: seq<Token>, at: nat, d: Bytes)
    ensures Reads(stream, c, t + [Data(at, d)]) == Reads(stream, c, t) + [(at, Apply(stream, After(c, t), d))]
    ensures After(c, t + [Data(at, d)]) == After(c, t).Skip(|d|)
  {
    hide Apply;
    assert (t + [Data(at, d)])[..|t|] == t;
  }

  lemma {:induction false} AfterConcat(c: Cipher, a: seq<Token>, b: seq<Token>)
    ensures After(c, a + b) == After(After(c, a), b)
    decreases |b|
  {
    if b == [] {
      assert a + b == a;
    } else {
      assert (a + b)[..|a + b| - 1] == a + b[..|b| - 1];
      AfterConcat(c, a, b[..|b| - 1]);
    }
  }

  lemma {:induction false} ReadsConcat(stream: Stream, c: Cipher, a: seq<Token>, b: seq<Token>)
    ensures Reads(stream, c, a + b) == Reads(stream, c, a) + Reads(stream, After(c, a), b)
    decreases |b|
  {
    if b == [] {
      assert a + b == a;
    } else {
      var n := |b| - 1;
      assert (a + b)[..|a + b| - 1] == a + b[..n];
      ReadsConcat(stream, c, a, b[..n]);
      AfterConcat(c, a, b[..n]);
    }
  }

  ghost function Joined(w: seq<(nat, Bytes)>): Bytes
  {
    if w == [] then [] else Joined(w[..|w| - 1]) + w[|w| - 1].1
  }

  ghost function Offsets(w: seq<(nat, Bytes)>): seq<nat> { seq(|w|, i requires 0 <= i < |w| => w[i].0) }

  // ---- The decryption loop of `unlock` ----

  /** Decryption of data from position `base` on, switching keys at the recorded positions. */
  ghost function Decrypted(stream: Stream, c: Cipher, data: Bytes, rolls: seq<(nat, nat)>): Bytes
    requires InOrder(rolls, |data|)
    decreases |rolls|
  {
    if rolls == [] then Apply(stream, c, data) else
      var init, (at, key) := rolls[..|rolls| - 1], rolls[|rolls| - 1];
      Decrypted(stream, c, data[..at], init) + Apply(stream, Cipher(key, 0), data[at..])
  }

  ghost predicate InOrder(rolls: seq<(nat, nat)>, size: nat)
  {
    && (forall i :: 0 <= i < |rolls| ==> rolls[i].0 <= size)
    && (forall i, j :: 0 <= i < j < |rolls| ==> rolls[i].0 <= rolls[j].0)
  }

  lemma {:induction false} DecryptedSize(stream: Stream, c: Cipher, data: Bytes, rolls: seq<(nat, nat)>)
    requires InOrder(rolls, |data|)
    ensures |Decrypted(stream, c, data, rolls)| == |data|
    decreases |rolls|
  {
    if rolls != [] {
      var at := rolls[|rolls| - 1].0;
      DecryptedSize(stream, c, data[..at], rolls[..|rolls| - 1]);
    }
  }

  ghost function LastCipher(c: Cipher, rolls: seq<(nat, nat)>): Cipher
  {
    if rolls == [] then c else Cipher(rolls[|rolls| - 1].1, 0)
  }
  ghost function LastRoll(rolls: seq<(nat, nat)>): nat { if rolls == [] then 0 else rolls[|rolls| - 1].0 }

  /** One more key: the data up to it is decrypted with the cipher before it. */
  lemma DecryptedRoll(stream: Stream, c: Cipher, data: Bytes, rolls: seq<(nat, nat)>, at: nat)
    requires InOrder(rolls, |data|) && LastRoll(rolls) <= at <= |data|
    ensures InOrder(rolls, at)
    ensures Decrypted(stream, c, data[..at], rolls) ==
            Decrypted(stream, c, data[..LastRoll(rolls)], rolls) +
                Apply(stream, LastCipher(c, rolls), data[LastRoll(rolls)..at])
  {
    var l := LastRoll(rolls);
    ApplyNothing(stream, LastCipher(c, rolls));
    if rolls == [] {
      assert data[..0] == [] && data[..at] == data[0..at];
    } else {
      hide Apply;
      OrderInit(rolls, |data|);
      assert data[..at][..l] == data[..l] && data[..at][l..] == data[l..at];
      DecryptedLast(stream, c, data[..at], rolls);
      DecryptedLast(stream, c, data[..l], rolls);
      assert data[..l][..l] == data[..l] && data[..l][l..] == [];
    }
  }

  lemma ApplyNothing(stream: Stream, c: Cipher)
    ensures Apply(stream, c, []) == []
  {
  }

  lemma OrderInit(rolls: seq<(nat, nat)>, size: nat)
    requires rolls != [] && InOrder(rolls, size)
    ensures forall at :: LastRoll(rolls) <= at ==> InOrder(rolls, at)
    ensures InOrder(rolls[..|rolls| - 1], LastRoll(rolls))
  {
  }

  lemma DecryptedLast(stream: Stream, c: Cipher, data: Bytes, rolls: seq<(nat, nat)>)
    requires rolls != [] && InOrder(rolls, |data|) && InOrder(rolls[..|rolls| - 1], LastRoll(rolls))
    ensures Decrypted(stream, c, data, rolls) ==
            Decrypted(stream, c, data[..LastRoll(rolls)], rolls[..|rolls| - 1]) +
                Apply(stream, LastCipher(c, rolls), data[LastRoll(rolls)..])
  {
  }

  /** The loop: fails exactly if the positions are out of order or beyond the data. */
  method Decrypt(stream: Stream, c: Cipher, log: Log) returns (r: Option<Bytes>)
    ensures r.Some? <==> InOrder(log.rolls, |log.data|)
    ensures r.Some? ==> r.value == Decrypted(stream, c, log.data, log.rolls)
  {
    var cipher, last: nat, out: Bytes := c, 0, [];
    for i := 0 to |log.rolls|
      invariant InOrder(log.rolls[..i], |log.data|)
      invariant last == LastRoll(log.rolls[..i]) && last <= |log.data| && cipher == LastCipher(c, log.rolls[..i])
      invariant out == Decrypted(stream, c, log.data[..last], log.rolls[..i])
    {
      var (at, key) := log.rolls[i];
      assert log.rolls[..i + 1] == log.rolls[..i] + [log.rolls[i]];
      if at < last || at > |log.data| {
        if at < last { assert i > 0 && log.rolls[i].0 < log.rolls[i - 1].0; }
        return None;
      }
      DecryptedRoll(stream, c, log.data, log.rolls[..i], at);
      out := out + Apply(stream, cipher, log.data[last..at]);
      DecryptedEnd(stream, c, log.data, log.rolls[..i + 1]);
      cipher, last := Cipher(key, 0), at;
    }
    assert log.rolls[..|log.rolls|] == log.rolls;
    DecryptedRoll(stream, c, log.data, log.rolls, |log.data|);
    assert log.data[..|log.data|] == log.data && log.data[last..|log.data|] == log.data[last..];
    out := out + Apply(stream, cipher, log.data[last..]);
    return Some(out);
  }

  lemma DecryptedEnd(stream: Stream, c: Cipher, data: Bytes, rolls: seq<(nat, nat)>)
    requires rolls != [] && InOrder(rolls, |data|)
    ensures InOrder(rolls[..|rolls| - 1], LastRoll(rolls))
    ensures Decrypted(stream, c, data[..LastRoll(rolls)], rolls) ==
            Decrypted(stream, c, data[..LastRoll(rolls)], rolls[..|rolls| - 1])
  {
    hide Apply;
    var l := LastRoll(rolls);
    OrderInit(rolls, |data|);
    DecryptedLast(stream, c, data[..l], rolls);
    assert data[..l][..l] == data[..l] && data[..l][l..] == [];
    ApplyNothing(stream, LastCipher(c, rolls));
  }

  lemma DecryptedGrow(stream: Stream, c: Cipher, data: Bytes, d: Bytes, rolls: seq<(nat, nat)>)
    requires InOrder(rolls, |data|)
    ensures Decrypted(stream, c, data + d, rolls) ==
            Decrypted(stream, c, data, rolls) + Apply(stream, LastCipher(c, rolls).Skip(|data| - LastRoll(rolls)), d)
  {
    hide Apply;
    var l := LastRoll(rolls);
    if rolls == [] {
      ApplyConcat(stream, c, data, d);
    } else {
      OrderInit(rolls, |data|);
      DecryptedLast(stream, c, data + d, rolls);
      DecryptedLast(stream, c, data, rolls);
      assert (data + d)[..l] == data[..l] && (data + d)[l..] == data[l..] + d;
      ApplyConcat(stream, LastCipher(c, rolls), data[l..], d);
    }
  }

  /** Decrypting what was recorded gives the mutations that were written, one after the other. */
  lemma {:induction false} DecryptsRecorded(stream: Stream, c: Cipher, log: Log, t: seq<Token>)
    requires Records(log, t)
    ensures InOrder(log.rolls, |log.data|)
    ensures Decrypted(stream, c, log.data, log.rolls) == Joined(Reads(stream, c, t))
    ensures After(c, t) == LastCipher(c, log.rolls).Skip(|log.data| - LastRoll(log.rolls))
    decreases |t|
  {
    hide Apply, Expand, OffsetsOf;
    DecryptsTokens(stream, c, t);
  }

  ghost predicate Decrypts(stream: Stream, c: Cipher, data: Bytes, rolls: seq<(nat, nat)>, w: seq<(nat, Bytes)>,
                           end: Cipher)
  {
    && InOrder(rolls, |data|) && Decrypted(stream, c, data, rolls) == Joined(w)
    && end == LastCipher(c, rolls).Skip(|data| - LastRoll(rolls))
  }

  lemma DecryptsData(stream: Stream, c: Cipher, data: Bytes, rolls: seq<(nat, nat)>, w: seq<(nat, Bytes)>, end: Cipher,
                     at: nat, d: Bytes)
    requires Decrypts(stream, c, data, rolls, w, end)
    ensures Decrypts(stream, c, data + d, rolls, w + [(at, Apply(stream, end, d))], end.Skip(|d|))
  {
    hide Apply, Decrypted;
    DecryptedGrow(stream, c, data, d, rolls);
    assert (w + [(at, Apply(stream, end, d))])[..|w|] == w;
  }

  lemma DecryptedPush(stream: Stream, c: Cipher, data: Bytes, rolls: seq<(nat, nat)>, key: nat)
    requires InOrder(rolls, |data|)
    ensures InOrder(rolls + [(|data|, key)], |data|)
    ensures Decrypted(stream, c, data, rolls + [(|data|, key)]) == Decrypted(stream, c, data, rolls)
  {
    hide Apply;
    var rolls' := rolls + [(|data|, key)];
    assert rolls'[..|rolls|] == rolls && data[..|data|] == data && data[|data|..] == [];
    ApplyNothing(stream, Cipher(key, 0));
  }

  lemma DecryptsRoll(stream: Stream, c: Cipher, data: Bytes, rolls: seq<(nat, nat)>, w: seq<(nat, Bytes)>, end: Cipher,
                     key: nat)
    requires Decrypts(stream, c, data, rolls, w, end)
    ensures Decrypts(stream, c, data, rolls + [(|data|, key)], w, Cipher(key, 0))
  {
    hide Apply, Decrypted, Joined, InOrder;
    DecryptedPush(stream, c, data, rolls, key);
  }

  lemma {:induction false} DecryptsTokens(stream: Stream, c: Cipher, t: seq<Token>)
    ensures Decrypts(stream, c, DataOf(t), RollsOf(t), Reads(stream, c, t), After(c, t))
    decreases |t|
  {
    hide Apply, Decrypted, Decrypts;
    if t == [] {
      DecryptedEmpty(stream, c);
    } else {
      var init, last := t[..|t| - 1], t[|t| - 1];
      DecryptsTokens(stream, c, init);
      match last
      case Data(at, d) =>
        DecryptsData(stream, c, DataOf(init), RollsOf(init), Reads(stream, c, init), After(c, init), at, d);
        assert RollsOf(t) == RollsOf(init);
      case Roll(key) =>
        DecryptsRoll(stream, c, DataOf(init), RollsOf(init), Reads(stream, c, init), After(c, init), key);
        assert DataOf(t) == DataOf(init) && Reads(stream, c, t) == Reads(stream, c, init);
    }
  }

  lemma DecryptedEmpty(stream: Stream, c: Cipher)
    ensures Decrypts(stream, c, [], [], [], c)
  {
  }

  lemma {:induction false} ReadsOffsets(stream: Stream, c: Cipher, t: seq<Token>)
    ensures Offsets(Reads(stream, c, t)) == OffsetsOf(t)
    decreases |t|
  {
    if t != [] { ReadsOffsets(stream, c, t[..|t| - 1]); }
  }

  // ---- Decoding ----

  ghost function Encoded<M(!new)>(codec: Codec<M, bv8>, w: seq<(nat, M)>): seq<(nat, Bytes)>
  {
    seq(|w|, i requires 0 <= i < |w| => (w[i].0, codec.encode(w[i].1)))
  }

  lemma {:induction false} JoinedSplit(w: seq<(nat, Bytes)>, n: nat)
    requires n < |w|
    ensures exists rest :: Joined(w) == Joined(w[..n]) + (w[n].1 + rest)
    decreases |w|
  {
    var k := |w| - 1;
    if n == k {
      assert Joined(w) == Joined(w[..n]) + (w[n].1 + []);
    } else {
      JoinedSplit(w[..k], n);
      assert w[..k][..n] == w[..n];
      var rest :| Joined(w[..k]) == Joined(w[..n]) + (w[n].1 + rest);
      assert Joined(w) == Joined(w[..n]) + (w[n].1 + (rest + w[k].1));
    }
  }

  lemma JoinedNext(w: seq<(nat, Bytes)>, n: nat)
    requires n < |w|
    ensures Joined(w[..n + 1]) == Joined(w[..n]) + w[n].1
  {
    assert w[..n + 1][..n] == w[..n];
  }

  lemma {:induction false} ExpandPrefix(ts: seq<(nat, nat)>, i: nat)
    requires i < |ts|
    ensures |Expand(ts[..i])| + ts[i].1 <= |Expand(ts)|
    ensures forall q :: |Expand(ts[..i])| <= q < |Expand(ts[..i])| + ts[i].1 ==> Expand(ts)[q] == ts[i].0
    ensures |Expand(ts[..i + 1])| == |Expand(ts[..i])| + ts[i].1
  {
    assert ts == ts[..i + 1] + ts[i + 1..];
    ExpandConcat(ts[..i + 1], ts[i + 1..]);
    assert ts[..i + 1][..i] == ts[..i];
  }

  /** What the decoder finds after `n` mutations. */
  lemma {:induction false} DecodeAt<M(!new)>(codec: Codec<M, bv8>, w: seq<(nat, M)>, n: nat)
    requires codec.Valid() && n < |w|
    ensures var e := Encoded(codec, w);
            var data, pos, next := Joined(e), |Joined(e[..n])|, |Joined(e[..n + 1])|;
            pos <= next <= |data| && codec.decode(data[pos..]) == Some((w[n].1, next - pos))
  {
    hide Joined;
    var e := Encoded(codec, w);
    var data, pos := Joined(e), |Joined(e[..n])|;
    JoinedSplit(e, n);
    var rest :| Joined(e) == Joined(e[..n]) + (e[n].1 + rest);
    assert data[pos..] == codec.encode(w[n].1) + rest;
    JoinedNext(e, n);
  }

  /** The last loop of `unlock`: decodes the mutations of each transaction. */
  method Decode<M(!new)>(codec: Codec<M, bv8>, transactions: seq<(nat, nat)>, data: Bytes, ghost w: seq<(nat, M)>)
    returns (r: Option<seq<(nat, M)>>)
    requires codec.Valid() && data == Joined(Encoded(codec, w)) && Expand(transactions) == Offsets(Encoded(codec, w))
    ensures r == Some(w)
  {
    hide Joined, Expand;
    var out: seq<(nat, M)>, pos: nat := [], 0;
    ghost var e := Encoded(codec, w);
    assert e[..0] == [] && transactions[..0] == [];
    NothingJoined();
    for i := 0 to |transactions|
      invariant |out| == |Expand(transactions[..i])| && |out| <= |w| && out == w[..|out|]
      invariant pos == |Joined(e[..|out|])| && pos <= |data|
    {
      var (at, count) := transactions[i];
      ExpandPrefix(transactions, i);
      for j := 0 to count
        invariant |out| == |Expand(transactions[..i])| + j && |out| <= |w| && out == w[..|out|]
        invariant pos == |Joined(e[..|out|])| && pos <= |data|
      {
        ghost var n := |out|;
        DecodeAt(codec, w, n);
        var d := codec.decode(data[pos..]);
        if d.None? {
          return None;
        }
        assert Offsets(e)[n] == at;
        out := out + [(at, d.value.0)];
        pos := pos + d.value.1;
      }
    }
    assert transactions[..|transactions|] == transactions;
    assert |out| == |Offsets(e)| == |w| && w[..|w|] == w;
    return Some(out);
  }

  lemma NothingJoined()
    ensures Joined([]) == [] && Expand([]) == []
  {
  }

  // ---- `unlock` ----

  /** The logs appended to the file of encrypted mutations, one per flush of the locked store. */
  ghost predicate RecordsAll(file: seq<Log>, t: seq<Token>)
    decreases |file|
  {
    if file == [] then t == []
    else exists k :: 0 <= k <= |t| && RecordsAll(file[..|file| - 1], t[..k]) && Records(file[|file| - 1], t[k..])
  }

  lemma RecordsAppend(file: seq<Log>, log: Log, a: seq<Token>, b: seq<Token>)
    requires RecordsAll(file, a) && Records(log, b)
    ensures RecordsAll(file + [log], a + b)
  {
    assert (file + [log])[..|file|] == file;
    assert (a + b)[..|a|] == a && (a + b)[|a|..] == b;
  }

  function ExtendAll(file: seq<Log>): Log
  {
    if file == [] then EmptyLog() else ExtendAll(file[..|file| - 1]).Extend(file[|file| - 1])
  }

  lemma {:induction false} RecordsExtendAll(file: seq<Log>, t: seq<Token>)
    requires RecordsAll(file, t)
    ensures Records(ExtendAll(file), t)
    decreases |file|
  {
    hide Records, Log.Extend;
    if file == [] {
      RecordsEmpty();
    } else {
      var n := |file| - 1;
      var k :| 0 <= k <= |t| && RecordsAll(file[..n], t[..k]) && Records(file[n], t[k..]);
      RecordsExtendAll(file[..n], t[..k]);
      RecordsExtend(ExtendAll(file[..n]), file[n], t[..k], t[k..]);
      assert t[..k] + t[k..] == t;
    }
  }

  /** `unlock` on what the file and the journal have: all mutations, in order, each with its own
      transaction. */
  method Unlock<M(!new)>(stream: Stream, codec: Codec<M, bv8>, c: Cipher, file: seq<Log>, journaled: Log,
                         ghost a: seq<Token>, ghost b: seq<Token>, ghost w: seq<(nat, M)>)
    returns (r: Option<seq<(nat, M)>>)
    requires codec.Valid() && RecordsAll(file, a) && Records(journaled, b)
    requires Reads(stream, c, a + b) == Encoded(codec, w)
    ensures r == Some(w)
  {
    var log := EmptyLog();
    for i := 0 to |file|
      invariant log == ExtendAll(file[..i])
    {
      log := log.Extend(file[i]);
      assert file[..i + 1][..i] == file[..i];
    }
    assert file[..|file|] == file;
    RecordsExtendAll(file, a);
    RecordsExtend(log, journaled, a, b);
    log := log.Extend(journaled);
    DecryptsRecorded(stream, c, log, a + b);
    ReadsOffsets(stream, c, a + b);
    var plain := Decrypt(stream, c, log);
    if plain.None? {
      return None;
    }
    r := Decode(codec, log.transactions, plain.value, w);
  }
}
