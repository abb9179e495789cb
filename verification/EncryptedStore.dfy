/** The life of an encrypted object store (src/object_store.rs, src/object_store/flush.rs): writes
    under a stream cipher, key rolls, flushes while unlocked and while locked, crashes with replay,
    and unlocking. */
module EncryptedStore {
  import opened LsmTypes
  import opened Codecs
  import opened EncryptedMutations
  import opened JournalCheckpoints

  datatype Entry = NewKey(key: nat) | Encrypted(bytes: Bytes) | BeginFlush | EndFlush

  /** A journal record of the store; `offset` is the checkpoint of its transaction. */
  datatype Record = Record(entry: Entry, offset: nat)

  // ---- Replay ----

  /** `StoreOrReplayInfo::Replay`: a deque of logs, the most recent first.  `tokens` mirrors the
      logs and says what they record. */
  datatype Replayed = Replayed(logs: seq<Log>, tokens: seq<seq<Token>>, checkpoints: Checkpoints)

  function InitReplayed(): Replayed { Replayed([EmptyLog()], [[]], NoCheckpoint) }

  ghost predicate Shape(m: Replayed)
  {
    |m.logs| == |m.tokens| >= 1 && forall i :: 0 <= i < |m.logs| ==> Records(m.logs[i], m.tokens[i])
  }

  /** `apply_mutation` while replaying. */
  function ReplayRecord(m: Replayed, r: Record): Replayed
    requires m.logs != [] && m.tokens != []
  {
    match r.entry
    case NewKey(key) =>
      Replayed(m.logs[0 := m.logs[0].SetKey(key)], m.tokens[0 := m.tokens[0] + [Roll(key)]],
               m.checkpoints.Touch(r.offset))
    case Encrypted(d) =>
      Replayed(m.logs[0 := m.logs[0].Push(r.offset, d)], m.tokens[0 := m.tokens[0] + [Data(r.offset, d)]],
               m.checkpoints.Touch(r.offset))
    case BeginFlush => Replayed([EmptyLog()] + m.logs, [[]] + m.tokens, m.checkpoints.Begin())
    case EndFlush => Replayed(m.logs[..1], m.tokens[..1], m.checkpoints.End())
  }

  /** Replaying the records whose transaction is not before `start`. */
  function Replay(journal: seq<Record>, start: nat): (m: Replayed)
    ensures m.logs != [] && m.tokens != []
  {
    if journal == [] then InitReplayed()
    else
      var m, r := Replay(journal[..|journal| - 1], start), journal[|journal| - 1];
      if r.offset >= start then ReplayRecord(m, r) else m
  }

  lemma {:induction false} ReplayShape(journal: seq<Record>, start: nat)
    ensures Shape(Replay(journal, start))
    decreases |journal|
  {
    hide Records, Log.Push, Log.SetKey;
    if journal == [] {
      RecordsEmpty();
    } else {
      var m, r := Replay(journal[..|journal| - 1], start), journal[|journal| - 1];
      ReplayShape(journal[..|journal| - 1], start);
      match r.entry
      case NewKey(key) => RecordsRoll(m.logs[0], m.tokens[0], key);
      case Encrypted(d) => RecordsPush(m.logs[0], m.tokens[0], r.offset, d);
      case BeginFlush => RecordsEmpty();
      case EndFlush =>
    }
  }

  lemma ReplayPush(journal: seq<Record>, r: Record, start: nat)
    ensures Replay(journal + [r], start) == if r.offset >= start then ReplayRecord(Replay(journal, start), r)
            else Replay(journal, start)
  {
    assert (journal + [r])[..|journal|] == journal;
  }

  lemma {:induction false} ReplayNothing(journal: seq<Record>, start: nat)
    requires forall i :: 0 <= i < |journal| ==> journal[i].offset < start
    ensures Replay(journal, start) == InitReplayed()
    decreases |journal|
  {
    if journal != [] { ReplayNothing(journal[..|journal| - 1], start); }
  }

  /** The replay information of a store as it is changed record by record. */
  class ReplayInfos {
    var logs: seq<Log>

    constructor ()
      ensures logs == InitReplayed().logs
    {
      logs := [EmptyLog()];
    }

    method BeginFlush()
      modifies this
      ensures logs == [EmptyLog()] + old(logs)
    {
      logs := [EmptyLog()] + logs;
    }

    method EndFlush()
      requires logs != []
      modifies this
      ensures logs == [old(logs)[0]]
    {
      logs := logs[..1];
    }

    method PushEncryptedMutation(offset: nat, data: Bytes)
      requires logs != []
      modifies this
      ensures logs == old(logs)[0 := old(logs)[0].Push(offset, data)]
    {
      logs := logs[0 := logs[0].Push(offset, data)];
    }

    method SetMutationsKey(key: nat)
      requires logs != []
      modifies this
      ensures logs == old(logs)[0 := old(logs)[0].SetKey(key)]
    {
      logs := logs[0 := logs[0].SetKey(key)];
    }

    /** Opening the store: merges the logs, the oldest first. */
    method Merge() returns (log: Log)
      ensures log == Merged(logs)
    {
      log := EmptyLog();
      var i := |logs|;
      while i > 0
        invariant 0 <= i <= |logs| && log == Merged(logs[i..])
      {
        i := i - 1;
        assert logs[i..][1..] == logs[i + 1..];
        log := log.Extend(logs[i]);
      }
      assert logs[0..] == logs;
    }
  }

  /** Replaying a journal: what the store holds then, and where it records every mutation. */
  method ReplayAndOpen(journal: seq<Record>, start: nat) returns (log: Log)
    ensures log == Merged(Replay(journal, start).logs) && Records(log, Flat(Replay(journal, start).tokens))
  {
    hide Log.Push, Log.SetKey;
    var infos := new ReplayInfos();
    for i := 0 to |journal|
      invariant infos.logs == Replay(journal[..i], start).logs
    {
      var r := journal[i];
      assert journal[..i + 1][..i] == journal[..i];
      if r.offset >= start {
        match r.entry {
          case NewKey(key) => infos.SetMutationsKey(key);
          case Encrypted(d) => infos.PushEncryptedMutation(r.offset, d);
          case BeginFlush => infos.BeginFlush();
          case EndFlush => infos.EndFlush();
        }
      }
    }
    assert journal[..|journal|] == journal;
    log := infos.Merge();
    ReplayShape(journal, start);
    MergedRecords(Replay(journal, start).logs, Replay(journal, start).tokens);
  }

  /** Opening the store merges the logs, the oldest first. */
  function Merged(logs: seq<Log>): Log
  {
    if logs == [] then EmptyLog() else Merged(logs[1..]).Extend(logs[0])
  }

  ghost function Flat(tokens: seq<seq<Token>>): seq<Token>
  {
    if tokens == [] then [] else Flat(tokens[1..]) + tokens[0]
  }

  lemma {:induction false} MergedRecords(logs: seq<Log>, tokens: seq<seq<Token>>)
    requires |logs| == |tokens| && forall i :: 0 <= i < |logs| ==> Records(logs[i], tokens[i])
    ensures Records(Merged(logs), Flat(tokens))
    decreases |logs|
  {
    hide Records, Log.Extend;
    if logs == [] {
      RecordsEmpty();
    } else {
      MergedRecords(logs[1..], tokens[1..]);
      RecordsExtend(Merged(logs[1..]), logs[0], Flat(tokens[1..]), tokens[0]);
    }
  }

  // ---- The store ----

  /** What `StoreInfo` says on disk: the cipher to start decrypting with, and the logs in the file of
      encrypted mutations (none if there is no file). */
  datatype Info = Info(cipher: Cipher, logs: seq<Log>, tokens: seq<Token>)

  datatype Live = Unlocked(cipher: Cipher) | Locked(info: Cipher, log: Log, tokens: seq<Token>)

  /** A flush under way: the info it will write, and how many of the mutations it covers. */
  datatype Pending = Pending(info: Info, mark: nat)

  /** `since` are the mutations (serialized, with their transactions) that no completed flush of the
      unlocked store covers. */
  datatype State = State(journal: seq<Record>, start: nat, offset: nat, file: Info, live: Live,
                         checkpoints: Checkpoints,
                         pending: Option<Pending>, since: seq<(nat, Bytes)>)

  datatype Step =
    | Write(bytes: Bytes) | RollKey(key: nat)
    | Begin | End | AbandonFlush
    | EndTransaction | WriteSuperBlock | Crash
    | UnlockStore(key: nat) | LockStore(stale: nat)

  /** A new store is created unlocked, with a fresh key. */
  ghost function Init(key: nat): State
  {
    State([], 0, 0, Info(Cipher(key, 0), [], []), Unlocked(Cipher(key, 0)), NoCheckpoint, None, [])
  }

  ghost predicate Boundary(s: State) { s.journal == [] || s.journal[|s.journal| - 1].offset < s.offset }

  ghost predicate BeganHere(s: State) { s.journal != [] && s.journal[|s.journal| - 1] == Record(BeginFlush, s.offset) }

  ghost predicate Enabled(s: State, step: Step)
  {
    match step
    case Write(_) => s.live.Unlocked? && !BeganHere(s)
    case RollKey(_) => s.live.Unlocked?
    case Begin =>
      // the journal or the file has something to flush
      Boundary(s) && s.pending.None? && (s.checkpoints != NoCheckpoint || (s.live.Unlocked? && s.file.logs != []))
    case End => s.pending.Some? && !BeganHere(s)
    case AbandonFlush => true
    case EndTransaction => true
    case WriteSuperBlock => Boundary(s)
    case Crash => Boundary(s)
    case UnlockStore(_) => s.live.Locked? && s.pending.None?
    case LockStore(_) => s.live.Unlocked? && s.pending.None? && s.checkpoints == NoCheckpoint && s.file.logs == []
  }

  /** `write_mutation`: the key goes first if it has not been used. */
  function WriteRecords(stream: Stream, c: Cipher, bytes: Bytes, offset: nat): seq<Record>
  {
    (if c.pos == 0 then [Record(NewKey(c.key), offset)] else []) + [Record(Encrypted(Apply(stream, c, bytes)), offset)]
  }

  ghost function Next(stream: Stream, s: State, step: Step): State
    requires Enabled(s, step)
  {
    match step
    case Write(bytes) =>
      s.(journal := s.journal + WriteRecords(stream, s.live.cipher, bytes, s.offset),
         live := Unlocked(s.live.cipher.Skip(|bytes|)),
         checkpoints := s.checkpoints.Touch(s.offset), since := s.since + [(s.offset, bytes)])
    case RollKey(key) => s.(live := Unlocked(Cipher(key, 0)))
    case Begin =>
      var pending := match s.live
                     case Unlocked(c) => Pending(Info(c, [], []), |s.since|)
                     case Locked(c, log, tokens) => Pending(Info(c, s.file.logs + [log], s.file.tokens + tokens), 0);
      s.(journal := s.journal + [Record(BeginFlush, s.offset)], checkpoints := s.checkpoints.Begin(),
         pending := Some(pending))
    case End =>
      s.(journal := s.journal + [Record(EndFlush, s.offset)], checkpoints := s.checkpoints.End(), pending := None,
         file := s.pending.value.info,
         since := if s.pending.value.mark <= |s.since| then s.since[s.pending.value.mark..] else [],
         live := if s.live.Locked? then Locked(s.live.info, EmptyLog(), []) else s.live)
    case AbandonFlush => s.(pending := None)
    case EndTransaction => s.(offset := s.offset + 1)
    case WriteSuperBlock => s.(start := s.checkpoints.Earliest(s.offset))
    case Crash =>
      var m := Replay(s.journal, s.start);
      s.(live := Locked(s.file.cipher, Merged(m.logs), Flat(m.tokens)), checkpoints := m.checkpoints, pending := None)
    case UnlockStore(key) => s.(live := Unlocked(Cipher(key, 0)))       // unlocking always rolls the key
    case LockStore(stale) => s.(live := Locked(Cipher(s.live.cipher.key, stale), EmptyLog(), []))
  }

  // ---- What every reachable state satisfies ----

  /** Reading the tokens from cipher `c` gives `w`, and ends where the live cipher is (or the live
      cipher is unused, and will announce itself). */
  ghost predicate Decodes(stream: Stream, c: Cipher, t: seq<Token>, w: seq<(nat, Bytes)>, live: Live)
  {
    Reads(stream, c, t) == w && (live.Unlocked? && live.cipher.pos != 0 ==> After(c, t) == live.cipher)
  }

  ghost predicate Complete(stream: Stream, m: Replayed, s: State)
  {
    Decodes(stream, s.file.cipher, s.file.tokens + Flat(m.tokens), s.since, s.live)
  }

  ghost predicate Follows(stream: Stream, front: seq<Token>, s: State)
  {
    s.pending.Some? ==>
      && s.pending.value.mark <= |s.since|
      && Decodes(stream, s.pending.value.info.cipher, s.pending.value.info.tokens + front,
                 s.since[s.pending.value.mark..], s.live)
  }

  ghost predicate Rel(stream: Stream, m: Replayed, s: State)
  {
    m.tokens != [] && Complete(stream, m, s) && m.checkpoints == s.checkpoints && Follows(stream, m.tokens[0], s)
  }

  ghost predicate Young(stream: Stream, m: Replayed, at: nat, s: State)
  {
    |m.tokens| == 1 && m.checkpoints == Current(at) && Follows(stream, m.tokens[0], s)
  }

  ghost predicate Blank(m: Replayed)
  {
    m.tokens != [] && m.tokens[0] == [] && Flat(m.tokens) == [] && m.checkpoints == NoCheckpoint
  }

  ghost predicate JournalOk(journal: seq<Record>, offset: nat)
  {
    && (forall i :: 0 <= i < |journal| ==> journal[i].offset <= offset)
    && (forall i, j :: 0 <= i < j < |journal| ==> journal[i].offset <= journal[j].offset)
  }

  ghost predicate FlushOk(stream: Stream, s: State)
  {
    s.pending.Some? ==>
      match s.checkpoints
      case Old(_) => Follows(stream, [], s) && (Boundary(s) || BeganHere(s))
      case Both(_, at) => at <= s.offset && Young(stream, Replay(s.journal, at), at, s)
      case _ => true
  }

  /** What a locked store has in memory and in the file gives all the mutations. */
  ghost predicate LockedOk(stream: Stream, s: State)
  {
    s.live.Locked? ==>
      && Records(s.live.log, s.live.tokens) && Reads(stream, s.live.info, s.file.tokens + s.live.tokens) == s.since
      && (s.checkpoints != NoCheckpoint ==> s.live.info == s.file.cipher)
      && (s.pending.Some? ==>
          s.pending.value == Pending(Info(s.live.info, s.file.logs + [s.live.log], s.file.tokens + s.live.tokens), 0))
  }

  ghost predicate FilesOk(s: State)
  {
    RecordsAll(s.file.logs, s.file.tokens) &&
        (s.pending.Some? ==> RecordsAll(s.pending.value.info.logs, s.pending.value.info.tokens))
  }

  ghost predicate Inv(stream: Stream, s: State)
  {
    && JournalOk(s.journal, s.offset) && s.start <= s.offset && s.checkpoints.Earliest(s.offset) <= s.offset
    && Rel(stream, Replay(s.journal, s.start), s)
    && Rel(stream, Replay(s.journal, s.checkpoints.Earliest(s.offset)), s)
    && (s.checkpoints.NoCheckpoint? ==> Blank(Replay(s.journal, s.offset)))
    && FlushOk(stream, s) && LockedOk(stream, s) && FilesOk(s)
  }

  // ---- Writing ----

  function WriteTokens(stream: Stream, c: Cipher, bytes: Bytes, offset: nat): seq<Token>
  {
    (if c.pos == 0 then [Roll(c.key)] else []) + [Data(offset, Apply(stream, c, bytes))]
  }

  /** What a write adds is read back as what was written, wherever reading starts. */
  lemma WriteDecodes(stream: Stream, c: Cipher, t: seq<Token>, w: seq<(nat, Bytes)>, live: Live, bytes: Bytes,
                     offset: nat)
    requires live.Unlocked? && Decodes(stream, c, t, w, live)
    ensures Decodes(stream, c, t + WriteTokens(stream, live.cipher, bytes, offset), w + [(offset, bytes)],
                    Unlocked(live.cipher.Skip(|bytes|)))
  {
    hide Apply, Reads, After;
    var k, d := live.cipher, Apply(stream, live.cipher, bytes);
    ApplyTwice(stream, k, bytes);
    if k.pos == 0 {
      var u := t + [Roll(k.key)];
      ReadsRoll(stream, c, t, k.key);
      ReadsData(stream, c, u, offset, d);
      assert u + [Data(offset, d)] == t + WriteTokens(stream, k, bytes, offset);
    } else {
      ReadsData(stream, c, t, offset, d);
      assert t + [Data(offset, d)] == t + WriteTokens(stream, k, bytes, offset);
    }
  }

  ghost predicate Wrote(m: Replayed, m': Replayed, t: seq<Token>, offset: nat)
    requires m.tokens != []
  {
    m'.tokens == m.tokens[0 := m.tokens[0] + t] && m'.checkpoints == m.checkpoints.Touch(offset)
  }

  lemma ReplayWrite(stream: Stream, journal: seq<Record>, c: Cipher, bytes: Bytes, offset: nat, start: nat)
    requires start <= offset
    ensures Wrote(Replay(journal, start), Replay(journal + WriteRecords(stream, c, bytes, offset), start),
                  WriteTokens(stream, c, bytes, offset), offset)
  {
    hide Apply, Log.Push, Log.SetKey;
    var d, m := Apply(stream, c, bytes), Replay(journal, start);
    if c.pos == 0 {
      var j := journal + [Record(NewKey(c.key), offset)];
      ReplayPush(journal, Record(NewKey(c.key), offset), start);
      ReplayPush(j, Record(Encrypted(d), offset), start);
      assert j + [Record(Encrypted(d), offset)] == journal + WriteRecords(stream, c, bytes, offset);
      var m2 := Replay(journal + WriteRecords(stream, c, bytes, offset), start);
      assert m2.tokens[0] == m.tokens[0] + ([Roll(c.key)] + [Data(offset, d)]);
    } else {
      ReplayPush(journal, Record(Encrypted(d), offset), start);
      assert [] + [Record(Encrypted(d), offset)] == WriteRecords(stream, c, bytes, offset);
      assert WriteTokens(stream, c, bytes, offset) == [Data(offset, d)];
    }
  }

  lemma FlatPush(tokens: seq<seq<Token>>, t: seq<Token>, prefix: seq<Token>)
    requires tokens != []
    ensures prefix + Flat(tokens[0 := tokens[0] + t]) == (prefix + Flat(tokens)) + t
  {
    assert tokens[0 := tokens[0] + t][1..] == tokens[1..];
  }

  lemma FollowsWrite(stream: Stream, front: seq<Token>, s: State, bytes: Bytes)
    requires Follows(stream, front, s) && Enabled(s, Write(bytes))
    ensures Follows(stream, front + WriteTokens(stream, s.live.cipher, bytes, s.offset), Next(stream, s, Write(bytes)))
  {
    hide Apply, Reads, After, Decodes, WriteTokens;
    if s.pending.Some? {
      var p, t := s.pending.value, WriteTokens(stream, s.live.cipher, bytes, s.offset);
      WriteDecodes(stream, p.info.cipher, p.info.tokens + front, s.since[p.mark..], s.live, bytes, s.offset);
      assert (s.since + [(s.offset, bytes)])[p.mark..] == s.since[p.mark..] + [(s.offset, bytes)];
      assert (p.info.tokens + front) + t == p.info.tokens + (front + t);
    }
  }

  lemma RelWrite(stream: Stream, m: Replayed, m': Replayed, s: State, bytes: Bytes)
    requires Rel(stream, m, s) && Enabled(s, Write(bytes))
    requires Wrote(m, m', WriteTokens(stream, s.live.cipher, bytes, s.offset), s.offset)
    ensures Rel(stream, m', Next(stream, s, Write(bytes)))
  {
    hide Apply, Reads, After, Decodes, WriteTokens, Flat;
    var t := WriteTokens(stream, s.live.cipher, bytes, s.offset);
    WriteDecodes(stream, s.file.cipher, s.file.tokens + Flat(m.tokens), s.since, s.live, bytes, s.offset);
    FlatPush(m.tokens, t, s.file.tokens);
    FollowsWrite(stream, m.tokens[0], s, bytes);
  }

  lemma WriteFlush(stream: Stream, s: State, bytes: Bytes)
    requires Inv(stream, s) && Enabled(s, Write(bytes))
    ensures FlushOk(stream, Next(stream, s, Write(bytes)))
  {
    hide Apply, Reads, After, Decodes, WriteTokens, WriteRecords, Flat, Replay, Follows, Rel, Blank, FilesOk;
    if s.pending.Some? {
      match s.checkpoints
      case Old(_) =>
        ReplayNothing(s.journal, s.offset);
        ReplayWrite(stream, s.journal, s.live.cipher, bytes, s.offset, s.offset);
        FollowsWrite(stream, [], s, bytes);
      case Both(_, at) =>
        ReplayWrite(stream, s.journal, s.live.cipher, bytes, s.offset, at);
        FollowsWrite(stream, Replay(s.journal, at).tokens[0], s, bytes);
      case _ =>
    }
  }

  lemma JournalWrite(stream: Stream, journal: seq<Record>, c: Cipher, bytes: Bytes, offset: nat)
    requires JournalOk(journal, offset)
    ensures JournalOk(journal + WriteRecords(stream, c, bytes, offset), offset)
  {
  }

  lemma WriteOk(stream: Stream, s: State, bytes: Bytes)
    requires Inv(stream, s) && Enabled(s, Write(bytes))
    ensures Inv(stream, Next(stream, s, Write(bytes)))
  {
    hide Apply, Reads, After, Decodes, WriteTokens, WriteRecords, Flat, Replay, Follows, Rel, Blank, FlushOk, JournalOk;
    var s' := Next(stream, s, Write(bytes));
    JournalWrite(stream, s.journal, s.live.cipher, bytes, s.offset);
    WriteFlush(stream, s, bytes);
    ReplayWrite(stream, s.journal, s.live.cipher, bytes, s.offset, s.start);
    RelWrite(stream, Replay(s.journal, s.start), Replay(s'.journal, s.start), s, bytes);
    var c := s.checkpoints.Earliest(s.offset);
    ReplayWrite(stream, s.journal, s.live.cipher, bytes, s.offset, c);
    RelWrite(stream, Replay(s.journal, c), Replay(s'.journal, c), s, bytes);
  }

  // ---- Flushing ----

  lemma BeginFollows(stream: Stream, s: State)
    requires Inv(stream, s) && Enabled(s, Begin)
    ensures Follows(stream, [], Next(stream, s, Begin))
  {
    hide Replay, Rel, Blank, FlushOk, JournalOk, FilesOk;
    var p := Next(stream, s, Begin).pending.value;
    assert p.info.tokens + [] == p.info.tokens;
  }

  lemma RelBegin(stream: Stream, m: Replayed, s: State)
    requires Inv(stream, s) && Enabled(s, Begin) && Rel(stream, m, s) && m.logs != []
    ensures Rel(stream, ReplayRecord(m, Record(BeginFlush, s.offset)), Next(stream, s, Begin))
  {
    hide Replay, Blank, FlushOk, JournalOk, FilesOk, Decodes, Follows;
    BeginFollows(stream, s);
    var m' := ReplayRecord(m, Record(BeginFlush, s.offset));
    assert m'.tokens[1..] == m.tokens && m'.tokens[0] == [];
    assert Flat(m'.tokens) == Flat(m.tokens) + [] == Flat(m.tokens);
    assert Complete(stream, m', Next(stream, s, Begin));
  }

  lemma BeginOk(stream: Stream, s: State)
    requires Inv(stream, s) && Enabled(s, Begin)
    ensures Inv(stream, Next(stream, s, Begin))
  {
    hide Replay, Decodes, Follows, Rel, RecordsAll, Records, Reads, After;
    var s', r := Next(stream, s, Begin), Record(BeginFlush, s.offset);
    BeginFollows(stream, s);
    ReplayPush(s.journal, r, s.start);
    RelBegin(stream, Replay(s.journal, s.start), s);
    var c := s.checkpoints.Earliest(s.offset);
    ReplayPush(s.journal, r, c);
    RelBegin(stream, Replay(s.journal, c), s);
    assert BeganHere(s');
    assert Flat([]) == [] && Flat([[]]) == [];
    match s.live
    case Unlocked(_) => assert RecordsAll([], []) by { RecordsNone(); }
    case Locked(_, log, tokens) => RecordsAppend(s.file.logs, log, s.file.tokens, tokens);
    if s.checkpoints.NoCheckpoint? {
      BlankBegin(Replay(s.journal, s.offset), s.offset);
    }
  }

  lemma RecordsNone()
    ensures RecordsAll([], [])
  {
  }

  lemma BlankBegin(m: Replayed, offset: nat)
    requires Blank(m) && m.logs != []
    ensures Blank(ReplayRecord(m, Record(BeginFlush, offset)))
  {
    var m' := ReplayRecord(m, Record(BeginFlush, offset));
    assert m'.tokens[1..] == m.tokens;
  }

  lemma BlankInit()
    ensures Blank(InitReplayed())
  {
    FlatOne([]);
  }

  lemma BlankEnd(m: Replayed, offset: nat)
    requires Blank(m) && m.logs != []
    ensures Blank(ReplayRecord(m, Record(EndFlush, offset)))
  {
    assert m.tokens[..1] == [[]];
    FlatOne([]);
  }

  lemma RelEnd(stream: Stream, m: Replayed, s: State)
    requires Inv(stream, s) && Enabled(s, End) && m.logs != [] && m.tokens != [] && Follows(stream, m.tokens[0], s)
    requires m.checkpoints.End() == s.checkpoints.End()
    ensures Rel(stream, ReplayRecord(m, Record(EndFlush, s.offset)), Next(stream, s, End))
  {
    hide Replay, Blank, FlushOk, JournalOk, FilesOk, Reads, After, LockedOk;
    var m' := ReplayRecord(m, Record(EndFlush, s.offset));
    assert m'.tokens == [m.tokens[0]];
    FlatOne(m.tokens[0]);
  }

  lemma FlatOne(t: seq<Token>)
    ensures Flat([t]) == t
  {
    assert Flat([t][1..]) == [];
  }

  lemma EndLocked(stream: Stream, s: State)
    requires Inv(stream, s) && Enabled(s, End)
    ensures LockedOk(stream, Next(stream, s, End))
  {
    hide Replay, Blank, FlushOk, JournalOk, FilesOk, Reads, After, Rel;
    if s.live.Locked? {
      RecordsEmpty();
      assert s.since[0..] == s.since;
      var t := s.file.tokens + s.live.tokens;
      assert t + [] == t;
    }
  }

  lemma EndOk(stream: Stream, s: State)
    requires Inv(stream, s) && Enabled(s, End)
    ensures Inv(stream, Next(stream, s, End))
  {
    hide Replay, Decodes, RecordsAll, LockedOk, Reads, After, Complete, Blank, Flat;
    var s', r := Next(stream, s, End), Record(EndFlush, s.offset);
    EndLocked(stream, s);
    ReplayPush(s.journal, r, s.start);
    RelEnd(stream, Replay(s.journal, s.start), s);
    match s.checkpoints
    case Old(_) =>
      ReplayNothing(s.journal, s.offset);
      ReplayPush(s.journal, r, s.offset);
      RelEnd(stream, InitReplayed(), s);
      BlankInit();
      BlankEnd(InitReplayed(), s.offset);
    case Both(_, at) =>
      ReplayPush(s.journal, r, at);
      RelEnd(stream, Replay(s.journal, at), s);
    case Current(at) =>
      ReplayPush(s.journal, r, at);
      RelEnd(stream, Replay(s.journal, at), s);
    case NoCheckpoint =>
      ReplayPush(s.journal, r, s.offset);
      RelEnd(stream, Replay(s.journal, s.offset), s);
      BlankEnd(Replay(s.journal, s.offset), s.offset);
  }

  // ---- The other steps ----

  lemma RelLive(stream: Stream, m: Replayed, s: State, live: Live)
    requires Rel(stream, m, s) && (live.Unlocked? ==> live.cipher.pos == 0)
    ensures Rel(stream, m, s.(live := live))
  {
    hide Reads, After, Flat;
  }

  lemma FlushLive(stream: Stream, s: State, live: Live)
    requires FlushOk(stream, s) && (live.Unlocked? ==> live.cipher.pos == 0)
    ensures FlushOk(stream, s.(live := live))
  {
    hide Reads, After, Flat, Replay;
  }

  /** Changing to an unused key. */
  lemma FreshKeyOk(stream: Stream, s: State, key: nat)
    requires Inv(stream, s) && (s.live.Unlocked? || s.pending.None?)
    ensures Inv(stream, s.(live := Unlocked(Cipher(key, 0))))
  {
    hide Replay, Follows, Complete, Rel, FlushOk, Blank, RecordsAll, Reads, After, JournalOk;
    var live := Unlocked(Cipher(key, 0));
    RelLive(stream, Replay(s.journal, s.start), s, live);
    RelLive(stream, Replay(s.journal, s.checkpoints.Earliest(s.offset)), s, live);
    FlushLive(stream, s, live);
  }

  lemma LockOk(stream: Stream, s: State, stale: nat)
    requires Inv(stream, s) && Enabled(s, LockStore(stale))
    ensures Inv(stream, Next(stream, s, LockStore(stale)))
  {
    hide Replay, Follows, Rel, FlushOk, RecordsAll, Reads, After, JournalOk;
    var live := Next(stream, s, LockStore(stale)).live;
    RelLive(stream, Replay(s.journal, s.start), s, live);
    RelLive(stream, Replay(s.journal, s.checkpoints.Earliest(s.offset)), s, live);
    FlushLive(stream, s, live);
    RecordsEmpty();
    NothingSince(stream, s, live.info);
  }

  lemma NothingSince(stream: Stream, s: State, c: Cipher)
    requires Inv(stream, s) && s.checkpoints == NoCheckpoint && s.file.logs == []
    ensures s.file.tokens == [] && s.since == [] == Reads(stream, c, s.file.tokens + [])
  {
    hide Replay, Follows, FlushOk, JournalOk, LockedOk;
    var m := Replay(s.journal, s.offset);
    assert s.file.tokens + Flat(m.tokens) == [];
  }

  lemma CrashOk(stream: Stream, s: State)
    requires Inv(stream, s) && Enabled(s, Crash)
    ensures Inv(stream, Next(stream, s, Crash))
  {
    hide Replay, FlushOk, RecordsAll, Reads, After, JournalOk, Records, Flat, Merged;
    var m := Replay(s.journal, s.start);
    ReplayShape(s.journal, s.start);
    MergedRecords(m.logs, m.tokens);
    FlushNone(stream, Next(stream, s, Crash));
  }

  lemma FlushNone(stream: Stream, s: State)
    requires s.pending.None?
    ensures FlushOk(stream, s)
  {
  }

  lemma EndTransactionOk(stream: Stream, s: State)
    requires Inv(stream, s)
    ensures Inv(stream, Next(stream, s, EndTransaction))
  {
    hide Replay, RecordsAll, Reads, After, Decodes, LockedOk;
    if s.checkpoints.NoCheckpoint? {
      ReplayNothing(s.journal, s.offset + 1);
      FlatOne([]);
    }
    LockedSame(stream, s, Next(stream, s, EndTransaction));
  }

  lemma LockedSame(stream: Stream, s: State, s': State)
    requires LockedOk(stream, s) && s'.live == s.live && s'.file == s.file && s'.since == s.since
    requires s'.checkpoints == s.checkpoints
    requires s'.pending == s.pending || s'.pending.None?
    ensures LockedOk(stream, s')
  {
  }

  lemma AbandonOk(stream: Stream, s: State)
    requires Inv(stream, s)
    ensures Inv(stream, Next(stream, s, AbandonFlush))
  {
    hide Replay, RecordsAll, Reads, After, Decodes, LockedOk;
    LockedSame(stream, s, Next(stream, s, AbandonFlush));
  }

  lemma SuperBlockOk(stream: Stream, s: State)
    requires Inv(stream, s) && Boundary(s)
    ensures Inv(stream, Next(stream, s, WriteSuperBlock))
  {
    hide Replay, RecordsAll, Reads, After, Decodes, LockedOk;
    LockedSame(stream, s, Next(stream, s, WriteSuperBlock));
  }

  lemma StepOk(stream: Stream, s: State, step: Step)
    requires Inv(stream, s) && Enabled(s, step)
    ensures Inv(stream, Next(stream, s, step))
  {
    hide Inv;
    match step
    case Write(bytes) => WriteOk(stream, s, bytes);
    case RollKey(key) => FreshKeyOk(stream, s, key);
    case Begin => BeginOk(stream, s);
    case End => EndOk(stream, s);
    case AbandonFlush => AbandonOk(stream, s);
    case EndTransaction => EndTransactionOk(stream, s);
    case WriteSuperBlock => SuperBlockOk(stream, s);
    case Crash => CrashOk(stream, s);
    case UnlockStore(key) => FreshKeyOk(stream, s, key);
    case LockStore(stale) => LockOk(stream, s, stale);
  }

  // ---- Runs ----

  ghost predicate IsRun(stream: Stream, key: nat, states: seq<State>, steps: seq<Step>)
  {
    && |states| == |steps| + 1 && states[0] == Init(key)
    && (forall k :: 0 <= k < |steps| ==> Enabled(states[k], steps[k]))
    && (forall k, k' :: 0 <= k < |steps| && k' == k + 1 ==> states[k'] == Next(stream, states[k], steps[k]))
  }

  lemma InitOk(stream: Stream, key: nat)
    ensures Inv(stream, Init(key))
  {
    var s := Init(key);
    assert Replay([], 0) == InitReplayed();
    FlatOne([]);
    assert s.file.tokens + [] == [];
  }

  lemma {:induction false} RunOk(stream: Stream, key: nat, states: seq<State>, steps: seq<Step>, k: nat)
    requires IsRun(stream, key, states, steps) && k <= |steps|
    ensures Inv(stream, states[k])
    decreases k
  {
    hide Inv, Enabled, Next;
    if k == 0 {
      InitOk(stream, key);
    } else {
      RunOk(stream, key, states, steps, k - 1);
      StepOk(stream, states[k - 1], steps[k - 1]);
    }
  }

  /** In every run, if the system stops now, what replay and the file of encrypted mutations hold
      reads back as exactly the mutations that no completed flush of the unlocked store covers. */
  lemma NothingIsLost(stream: Stream, key: nat, states: seq<State>, steps: seq<Step>, k: nat)
    requires IsRun(stream, key, states, steps) && k <= |steps|
    ensures var s := states[k];
            var m := Replay(s.journal, s.start);
            && Records(Merged(m.logs), Flat(m.tokens)) && RecordsAll(s.file.logs, s.file.tokens)
            && Reads(stream, s.file.cipher, s.file.tokens + Flat(m.tokens)) == s.since
  {
    hide Replay, Merged, Flat, Reads, After, Enabled, Next, RecordsAll, Records;
    var s := states[k];
    RunOk(stream, key, states, steps, k);
    ReplayShape(s.journal, s.start);
    var m := Replay(s.journal, s.start);
    MergedRecords(m.logs, m.tokens);
  }

  /** Unlocking in any reachable locked state returns exactly those mutations, in order, each under
      its own transaction. */
  method UnlockAfterRun<M(!new)>(stream: Stream, codec: Codec<M, bv8>, info: Cipher, file: seq<Log>, log: Log,
                                 ghost key: nat, ghost states: seq<State>, ghost steps: seq<Step>,
                                 ghost w: seq<(nat, M)>)
    returns (r: Option<seq<(nat, M)>>)
    requires codec.Valid() && IsRun(stream, key, states, steps)
    requires var s := states[|steps|];
             && s.live.Locked? && s.live.info == info && s.live.log == log && s.file.logs == file
             && s.since == Encoded(codec, w)
    ensures r == Some(w)
  {
    ghost var s := states[|steps|];
    UnlockReady(stream, key, states, steps);
    r := Unlock(stream, codec, info, file, log, s.file.tokens, s.live.tokens, w);
  }

  lemma UnlockReady(stream: Stream, key: nat, states: seq<State>, steps: seq<Step>)
    requires IsRun(stream, key, states, steps) && states[|steps|].live.Locked?
    ensures var s := states[|steps|];
            && RecordsAll(s.file.logs, s.file.tokens) && Records(s.live.log, s.live.tokens)
            && Reads(stream, s.live.info, s.file.tokens + s.live.tokens) == s.since
  {
    hide Replay, Rel, FlushOk, Blank, JournalOk, Enabled, Next, RecordsAll, Records, Reads;
    RunOk(stream, key, states, steps, |steps|);
  }
}
