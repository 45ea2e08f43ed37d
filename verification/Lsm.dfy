/** The database as a state machine, and what every run of it guarantees
    (db/db_impl.cc; flush and compaction are separate atomic steps).
 */
module Lsm {
  import opened DbFormat
  import opened Version
  import opened CompactionInputs
  import opened CompactionSetup
  import opened CompactionWork
  import opened CompactionReads
  import opened VersionBuilder
  import opened Install

  // ----- the specification: a history of writes ----------------------------

  /** What one sequence number was spent on; Skipped if its write never reached the memtable. */
  datatype Change = Put(user: UserKey, value: Value) | Remove(user: UserKey) | Skipped

  /** The value of `user` after the first `n` writes: the map (user key, snapshot) -> value. */
  function SpecRead(history: seq<Change>, user: UserKey, n: nat): Option<Value>
    requires n <= |history|
  {
    if n == 0 then None
    else match history[n - 1]
      case Put(k, v) => if k == user then Some(v) else SpecRead(history, user, n - 1)
      case Remove(k) => if k == user then None else SpecRead(history, user, n - 1)
      case Skipped => SpecRead(history, user, n - 1)
  }

  /** Later writes do not change what an earlier snapshot reads. */
  lemma {:induction false} SpecReadStable(history: seq<Change>, more: seq<Change>, user: UserKey, n: nat)
    requires n <= |history|
    ensures SpecRead(history + more, user, n) == SpecRead(history, user, n)
  {
    if n > 0 {
      SpecReadStable(history, more, user, n - 1);
    }
  }

  // ----- memtables ---------------------------------------------------------

  /** MemTable::Add into the ordered table. */
  function InsertEntry(es: seq<Entry>, e: Entry): seq<Entry> {
    var p := LowerBound(es, e.key);
    es[..p] + [e] + es[p..]
  }

  function EntryOf(op: Change, sequence: nat): Entry
    requires !op.Skipped?
  {
    match op
    case Put(k, v) => Entry(InternalKey(k, sequence, TypeValue), v)
    case Remove(k) => Entry(InternalKey(k, sequence, TypeDeletion), [])
  }

  predicate IsBatch(ops: seq<Change>) {
    forall i :: 0 <= i < |ops| ==> !ops[i].Skipped?
  }

  /** The memtable after the first `n` operations of a batch whose first sequence is `first`. */
  function InsertTo(mem: seq<Entry>, ops: seq<Change>, n: nat, first: nat): seq<Entry>
    requires n <= |ops| && IsBatch(ops)
  {
    if n == 0 then mem else InsertEntry(InsertTo(mem, ops, n - 1, first), EntryOf(ops[n - 1], first + n - 1))
  }

  ghost function SetOf(es: seq<Entry>): set<Entry> {
    set e | e in es
  }

  ghost function ImmSet(imm: Option<seq<Entry>>): set<Entry> {
    if imm.None? then {} else SetOf(imm.value)
  }

  lemma {:induction false} AboveBound(es: seq<Entry>, e: Entry, i: nat)
    requires Sorted(es) && LowerBound(es, e.key) <= i < |es| && es[i].key != e.key
    requires es[LowerBound(es, e.key)].key != e.key
    ensures Less(e.key, es[i].key)
  {
    var p := LowerBound(es, e.key);
    assert Compare(e.key, es[p].key) < 0;
    assert p == i || Less(es[p].key, es[i].key);
  }

  lemma {:induction false} SpliceSorted(es: seq<Entry>, p: nat, e: Entry)
    requires Sorted(es) && p <= |es|
    requires forall i :: 0 <= i < p ==> Less(es[i].key, e.key)
    requires forall i :: p <= i < |es| ==> Less(e.key, es[i].key)
    ensures Sorted(es[..p] + [e] + es[p..])
  {
    var r := es[..p] + [e] + es[p..];
    assert forall i :: 0 <= i < |r| ==> r[i] == if i < p then es[i] else if i == p then e else es[i - 1];
  }

  lemma {:induction false} SpliceSet(es: seq<Entry>, p: nat, e: Entry)
    requires p <= |es|
    ensures SetOf(es[..p] + [e] + es[p..]) == SetOf(es) + {e}
  {
    assert es == es[..p] + es[p..];
  }

  lemma {:induction false} InsertEntrySorted(es: seq<Entry>, e: Entry)
    requires Sorted(es) && forall i :: 0 <= i < |es| ==> es[i].key != e.key
    ensures Sorted(InsertEntry(es, e)) && SetOf(InsertEntry(es, e)) == SetOf(es) + {e}
  {
    var p := LowerBound(es, e.key);
    forall i | p <= i < |es| ensures Less(e.key, es[i].key) {
      AboveBound(es, e, i);
    }
    SpliceSorted(es, p, e);
    SpliceSet(es, p, e);
  }

  // ----- states ------------------------------------------------------------

  datatype State = State(mem: seq<Entry>, imm: Option<seq<Entry>>, levels: Levels, lastSequence: nat,
                         nextFile: nat, snapshots: seq<nat>, history: seq<Change>)

  /** The memtables' entries. */
  ghost function Memory(s: State): set<Entry> {
    SetOf(s.mem) + ImmSet(s.imm)
  }

  /** All entries of the database. */
  ghost function Db(s: State): set<Entry> {
    Memory(s) + AllEntries(s.levels)
  }

  ghost function FilesOf(v: Levels): set<File> {
    set l, f | 0 <= l < |v| && f in v[l] :: f
  }

  /** The oldest snapshot in use, or the latest sequence if there is none. */
  function SmallestSnapshot(s: State): nat {
    if s.snapshots == [] then s.lastSequence else s.snapshots[0]
  }

  ghost predicate SequencesUpTo(db: set<Entry>, n: nat) {
    forall e :: e in db ==> e.key.sequence <= n
  }

  ghost predicate SnapshotsOk(snapshots: seq<nat>, last: nat) {
    (forall i, j :: 0 <= i < j < |snapshots| ==> snapshots[i] <= snapshots[j])
    && forall i :: 0 <= i < |snapshots| ==> snapshots[i] <= last
  }

  ghost predicate FilesNumbered(v: Levels, nextFile: nat) {
    AllKnown(v, FilesOf(v)) && forall f :: f in FilesOf(v) ==> f.number < nextFile
  }

  /** What every reachable state keeps. */
  ghost predicate Inv(s: State) {
    && LevelOrder(s.levels) && FilesNumbered(s.levels, s.nextFile)
    && Sorted(s.mem) && (s.imm.Some? ==> Sorted(s.imm.value))
    && UniqueSequences(Db(s)) && SequencesUpTo(Db(s), s.lastSequence)
    && AllNewer(SetOf(s.mem), ImmSet(s.imm) + AllEntries(s.levels))
    && AllNewer(ImmSet(s.imm), AllEntries(s.levels))
    && |s.history| == s.lastSequence < MAX_SEQUENCE
    && SnapshotsOk(s.snapshots, s.lastSequence)
  }

  /** At and after `from`, the entries read as the history says. */
  ghost predicate Matches(db: set<Entry>, history: seq<Change>, from: nat) {
    forall user, n: nat :: from <= n <= |history| ==> Read(db, user, n) == SpecRead(history, user, n)
  }

  /** Every live snapshot, and the present, read as the history says. */
  ghost predicate ReadsMatch(s: State) {
    Matches(Db(s), s.history, SmallestSnapshot(s))
  }

  // ----- writing -----------------------------------------------------------

  /** Entries newer than the snapshot, or of other keys, do not matter to a read. */
  lemma {:induction false} InvisibleEntry(db: set<Entry>, e: Entry, user: UserKey, n: nat)
    requires UniqueSequences(db + {e}) && !Visible(e, user, n)
    ensures Read(db + {e}, user, n) == Read(db, user, n)
  {
    SubsetUnique(db, db + {e});
    var found := ReadHasAnswer(db, user, n);
    AnswerIsRead(db, user, n, found);
    assert Answers(db + {e}, user, n, found);
    AnswerIsRead(db + {e}, user, n, found);
  }

  lemma {:induction false} ReadAtEnd(db: set<Entry>, user: UserKey, n: nat)
    requires UniqueSequences(db) && SequencesUpTo(db, n)
    ensures Read(db, user, n + 1) == Read(db, user, n)
  {
    var found := ReadHasAnswer(db, user, n);
    AnswerIsRead(db, user, n, found);
    assert forall x :: x in db ==> (Visible(x, user, n) <==> Visible(x, user, n + 1));
    assert Answers(db, user, n + 1, found);
    AnswerIsRead(db, user, n + 1, found);
  }

  lemma {:induction false} FreshSequenceUnique(db: set<Entry>, e: Entry, n: nat)
    requires UniqueSequences(db) && SequencesUpTo(db, n) && e.key.sequence == n + 1
    ensures UniqueSequences(db + {e}) && SequencesUpTo(db + {e}, n + 1)
  {
  }

  /** The operation itself is what its own sequence number reads. */
  lemma {:induction false} NewOpReads(db: set<Entry>, history: seq<Change>, op: Change)
    requires !op.Skipped? && UniqueSequences(db + {EntryOf(op, |history| + 1)}) && SequencesUpTo(db, |history|)
    ensures Read(db + {EntryOf(op, |history| + 1)}, op.user, |history| + 1) == SpecRead(history + [op], op.user, |history| + 1)
  {
    hide Read;
    var e := EntryOf(op, |history| + 1);
    assert Newest(db + {e}, op.user, |history| + 1, e);
    AnswerIsRead(db + {e}, op.user, |history| + 1, Some(e));
  }

  /** One more operation in both the database and the history. */
  lemma {:induction false} AddOp(db: set<Entry>, history: seq<Change>, from: nat, op: Change)
    requires UniqueSequences(db) && SequencesUpTo(db, |history|) && from <= |history|
    requires Matches(db, history, from) && !op.Skipped?
    ensures var e := EntryOf(op, |history| + 1);
            UniqueSequences(db + {e}) && SequencesUpTo(db + {e}, |history| + 1)
            && Matches(db + {e}, history + [op], from)
  {
    hide Read, UniqueSequences, SequencesUpTo;
    var e := EntryOf(op, |history| + 1);
    FreshSequenceUnique(db, e, |history|);
    forall user, n: nat | from <= n <= |history + [op]|
      ensures Read(db + {e}, user, n) == SpecRead(history + [op], user, n)
    {
      if n <= |history| {
        SpecReadStable(history, [op], user, n);
        InvisibleEntry(db, e, user, n);
      } else if op.user == user {
        NewOpReads(db, history, op);
      } else {
        InvisibleEntry(db, e, user, n);
        ReadAtEnd(db, user, |history|);
        SpecReadStable(history, [op], user, n - 1);
      }
    }
  }

  /** A sequence number spent on a failed write changes no read. */
  lemma {:induction false} SkipOp(db: set<Entry>, history: seq<Change>, from: nat)
    requires UniqueSequences(db) && SequencesUpTo(db, |history|) && from <= |history|
    requires Matches(db, history, from)
    ensures SequencesUpTo(db, |history| + 1) && Matches(db, history + [Skipped], from)
  {
    forall user, n: nat | from <= n <= |history| + 1
      ensures Read(db, user, n) == SpecRead(history + [Skipped], user, n)
    {
      if n <= |history| {
        SpecReadStable(history, [Skipped], user, n);
      } else {
        ReadAtEnd(db, user, |history|);
        SpecReadStable(history, [Skipped], user, n - 1);
      }
    }
  }

  function Skips(n: nat): seq<Change> {
    seq(n, _ => Skipped)
  }

  function WriteOne(s: State, op: Change): State
    requires !op.Skipped?
  {
    s.(mem := InsertEntry(s.mem, EntryOf(op, s.lastSequence + 1)),
       lastSequence := s.lastSequence + 1, history := s.history + [op])
  }

  lemma {:induction false} NewestIsNewer(mem: set<Entry>, older: set<Entry>, e: Entry, n: nat)
    requires AllNewer(mem, older) && SequencesUpTo(older, n) && e.key.sequence == n + 1
    ensures AllNewer(mem + {e}, older)
  {
  }

  lemma {:induction false} WriteOneKeeps(s: State, op: Change, from: nat)
    requires Inv(s) && !op.Skipped? && s.lastSequence + 1 < MAX_SEQUENCE
    requires from <= s.lastSequence
    ensures Inv(WriteOne(s, op))
    ensures Matches(Db(s), s.history, from) ==> Matches(Db(WriteOne(s, op)), WriteOne(s, op).history, from)
  {
    hide LevelOrder, FilesNumbered, AllEntries, InsertEntry, UniqueSequences;
    var e := EntryOf(op, s.lastSequence + 1);
    var t := WriteOne(s, op);
    forall i | 0 <= i < |s.mem| ensures s.mem[i].key != e.key {
      assert s.mem[i] in Db(s);
    }
    InsertEntrySorted(s.mem, e);
    assert Db(t) == Db(s) + {e};
    FreshSequenceUnique(Db(s), e, s.lastSequence);
    NewestIsNewer(SetOf(s.mem), ImmSet(s.imm) + AllEntries(s.levels), e, s.lastSequence);
    if Matches(Db(s), s.history, from) {
      AddOp(Db(s), s.history, from, op);
    }
  }

  /** The state after the first `n` operations of a batch. */
  function WriteTo(s: State, ops: seq<Change>, n: nat): State
    requires n <= |ops| && IsBatch(ops)
  {
    if n == 0 then s else WriteOne(WriteTo(s, ops, n - 1), ops[n - 1])
  }

  lemma {:induction false} WriteToIs(s: State, ops: seq<Change>, n: nat)
    requires n <= |ops| && IsBatch(ops)
    ensures WriteTo(s, ops, n) ==
            s.(mem := InsertTo(s.mem, ops, n, s.lastSequence + 1),
               lastSequence := s.lastSequence + n, history := s.history + ops[..n])
  {
    hide InsertEntry, EntryOf;
    if n > 0 {
      WriteToIs(s, ops, n - 1);
      var u := WriteTo(s, ops, n - 1);
      assert ops[..n] == ops[..n - 1] + [ops[n - 1]];
      assert u.history + [ops[n - 1]] == s.history + ops[..n];
    } else {
      assert s.history + ops[..0] == s.history;
    }
  }

  lemma {:induction false} WriteToKeeps(s: State, ops: seq<Change>, n: nat, from: nat)
    requires n <= |ops| && IsBatch(ops)
    requires Inv(s) && s.lastSequence + n < MAX_SEQUENCE && from <= s.lastSequence
    ensures Inv(WriteTo(s, ops, n)) && WriteTo(s, ops, n).lastSequence == s.lastSequence + n
    ensures Matches(Db(s), s.history, from) ==> Matches(Db(WriteTo(s, ops, n)), WriteTo(s, ops, n).history, from)
  {
    hide Inv, Matches, Db, InsertEntry, EntryOf;
    if n > 0 {
      WriteToKeeps(s, ops, n - 1, from);
      WriteOneKeeps(WriteTo(s, ops, n - 1), ops[n - 1], from);
    }
  }

  function SkipOne(s: State): State {
    s.(lastSequence := s.lastSequence + 1, history := s.history + [Skipped])
  }

  lemma {:induction false} SkipOneKeeps(s: State, from: nat)
    requires Inv(s) && s.lastSequence + 1 < MAX_SEQUENCE && from <= s.lastSequence
    ensures Inv(SkipOne(s))
    ensures Matches(Db(s), s.history, from) ==> Matches(Db(SkipOne(s)), SkipOne(s).history, from)
  {
    hide LevelOrder, FilesNumbered, Matches, AllNewer;
    if Matches(Db(s), s.history, from) {
      SkipOp(Db(s), s.history, from);
    }
  }

  /** The state after `n` sequence numbers were lost to a write that failed. */
  function SkipTo(s: State, n: nat): State {
    s.(lastSequence := s.lastSequence + n, history := s.history + Skips(n))
  }

  lemma {:induction false} SkipsKeep(s: State, n: nat, from: nat)
    requires Inv(s) && s.lastSequence + n < MAX_SEQUENCE && from <= s.lastSequence
    ensures Inv(SkipTo(s, n))
    ensures Matches(Db(s), s.history, from) ==> Matches(Db(SkipTo(s, n)), SkipTo(s, n).history, from)
  {
    hide Inv, Matches, Db;
    if n > 0 {
      SkipsKeep(s, n - 1, from);
      SkipOneKeeps(SkipTo(s, n - 1), from);
      assert s.history + Skips(n) == s.history + Skips(n - 1) + [Skipped];
    } else {
      assert SkipTo(s, 0) == s;
    }
  }

  // ----- the steps ---------------------------------------------------------

  /** A group of writes reaches the memtable, or fails and only uses up its sequence numbers. */
  ghost predicate WriteStep(s: State, t: State, ops: seq<Change>, ok: bool) {
    && IsBatch(ops) && s.lastSequence + |ops| < MAX_SEQUENCE
    && t == s.(mem := if ok then InsertTo(s.mem, ops, |ops|, s.lastSequence + 1) else s.mem,
               lastSequence := s.lastSequence + |ops|,
               history := s.history + if ok then ops else Skips(|ops|))
  }

  /** MakeRoomForWrite: the full memtable becomes immutable; a log file number is used. */
  ghost predicate SwitchStep(s: State, t: State) {
    s.imm.None? && t == s.(mem := [], imm := Some(s.mem), nextFile := s.nextFile + 1)
  }

  /** CompactMemTable: a non-empty immutable memtable becomes a file at `level`. */
  ghost predicate FlushStep(s: State, t: State, level: nat, f: File) {
    && s.imm.Some? && t == s.(imm := None, levels := t.levels, nextFile := s.nextFile + 1)
    && (s.imm.value == [] ==> t.levels == s.levels)
    && (s.imm.value != [] ==>
          && FileOk(f) && f.entries == s.imm.value && f.number == s.nextFile
          && |s.levels| == NUM_LEVELS && MayPlace(s.levels, level, f) && FileAdded(s.levels, t.levels, level, f))
  }

  /** A trivial move of one file to the next level. */
  ghost predicate MoveStep(s: State, t: State, level: nat, f: File) {
    && WellChosen(s.levels, level, [f], [])
    && Replaced(s.levels, t.levels, level, [f], [], [f])
    && t == s.(levels := t.levels)
  }

  ghost predicate CompactStep(s: State, t: State, level: nat, inputs0: seq<File>, inputs1: seq<File>,
                              es: seq<Entry>, outputs: seq<File>) {
    && WellChosen(s.levels, level, inputs0, inputs1)
    && IsMerge(es, EntrySet(inputs0) + EntrySet(inputs1))
    && FilesOk(outputs)
    && ConcatTo(outputs, |outputs|) == KeptTo(es, |es|, SmallestSnapshot(s), s.levels, level)
    && (forall i :: 0 <= i < |outputs| ==> outputs[i].number == s.nextFile + i)
    && Replaced(s.levels, t.levels, level, inputs0, inputs1, outputs)
    && t == s.(levels := t.levels, nextFile := s.nextFile + |outputs|)
  }

  /** Whether that compaction would bring a deleted value back. */
  ghost predicate LeakFree(s: State, level: nat, inputs0: seq<File>, inputs1: seq<File>)
    requires level + 1 < |s.levels|
  {
    !Leaks(PartsOf(Memory(s), s.levels, level, inputs0, inputs1), SmallestSnapshot(s), s.levels, level)
  }

  ghost predicate SnapshotStep(s: State, t: State) {
    t == s.(snapshots := s.snapshots + [s.lastSequence])
  }

  ghost predicate ReleaseStep(s: State, t: State, i: nat) {
    i < |s.snapshots| && t == s.(snapshots := s.snapshots[..i] + s.snapshots[i + 1..])
  }

  // ----- each step keeps the invariant and the reads -----------------------

  lemma {:induction false} LaterSnapshotMatches(db: set<Entry>, history: seq<Change>, from: nat, later: nat)
    requires Matches(db, history, from) && from <= later
    ensures Matches(db, history, later)
  {
  }

  lemma {:induction false} WriteKeeps(s: State, t: State, ops: seq<Change>, ok: bool)
    requires Inv(s) && WriteStep(s, t, ops, ok)
    ensures Inv(t)
    ensures ReadsMatch(s) ==> ReadsMatch(t)
  {
    var from := SmallestSnapshot(s);
    if ok {
      WriteToIs(s, ops, |ops|);
      assert ops[..|ops|] == ops;
      assert t == WriteTo(s, ops, |ops|);
      WriteToKeeps(s, ops, |ops|, from);
    } else {
      assert t == SkipTo(s, |ops|);
      SkipsKeep(s, |ops|, from);
    }
    if ReadsMatch(s) {
      LaterSnapshotMatches(Db(t), t.history, from, SmallestSnapshot(t));
    }
  }

  lemma {:induction false} SwitchKeeps(s: State, t: State)
    requires Inv(s) && SwitchStep(s, t)
    ensures Inv(t) && Db(t) == Db(s)
    ensures ReadsMatch(s) ==> ReadsMatch(t)
  {
    assert Db(t) == Db(s);
  }

  lemma {:induction false} OneMoreFile(v: Levels, v': Levels, level: nat, f: File, nextFile: nat)
    requires FilesNumbered(v, nextFile) && FileAdded(v, v', level, f) && f.number == nextFile
    ensures FilesNumbered(v', nextFile + 1)
  {
    forall g | g in FilesOf(v') ensures g in FilesOf(v) || g == f {
      var l :| 0 <= l < |v'| && g in v'[l];
    }
    forall l | 0 <= l < |v'| ensures Known(v'[l], FilesOf(v')) {
      assert forall g :: g in v'[l] ==> g in FilesOf(v');
    }
  }

  lemma {:induction false} NumberedBelow(v: Levels, nextFile: nat)
    requires FilesNumbered(v, nextFile) && |v| == NUM_LEVELS
    ensures forall g :: g in v[0] ==> g.number < nextFile
  {
    assert forall g :: g in v[0] ==> g in FilesOf(v);
  }

  lemma {:induction false} FlushKeeps(s: State, t: State, level: nat, f: File)
    requires Inv(s) && FlushStep(s, t, level, f)
    ensures Inv(t) && Db(t) == Db(s)
    ensures ReadsMatch(s) ==> ReadsMatch(t)
  {
    hide FilesNumbered, LevelEntries, AllEntries, UniqueSequences, FileAdded, MayPlace;
    if s.imm.value != [] {
      assert SetOf(s.imm.value) == set e | e in f.entries;
      NumberedBelow(s.levels, s.nextFile);
      hide LevelOrder, FileOk, AllNewer;
      FlushKeepsOrder(s.levels, t.levels, level, f);
      FlushedEntries(s.levels, t.levels, level, f);
      OneMoreFile(s.levels, t.levels, level, f, s.nextFile);
      FlushedIsOlder(SetOf(s.mem), SetOf(s.imm.value), AllEntries(s.levels));
    } else {
      AlreadyNumbered(s.levels, s.nextFile);
    }
    assert Db(t) == Db(s);
  }

  lemma {:induction false} AlreadyNumbered(v: Levels, nextFile: nat)
    requires FilesNumbered(v, nextFile)
    ensures FilesNumbered(v, nextFile + 1)
  {
  }

  lemma {:induction false} FlushedIsOlder(mem: set<Entry>, imm: set<Entry>, files: set<Entry>)
    requires AllNewer(mem, imm + files)
    ensures AllNewer(mem, {} + (files + imm)) && AllNewer({}, files + imm)
  {
  }

  lemma {:induction false} ReplacedNumbers(v: Levels, v': Levels, level: nat, inputs0: seq<File>, inputs1: seq<File>,
                        outputs: seq<File>, nextFile: nat, nextFile': nat)
    requires FilesNumbered(v, nextFile) && Replaced(v, v', level, inputs0, inputs1, outputs) && nextFile <= nextFile'
    requires NumbersIdentify(FilesOf(v) + set f | f in outputs)
    requires forall f :: f in outputs ==> f.number < nextFile'
    ensures FilesNumbered(v', nextFile')
  {
    forall g | g in FilesOf(v') ensures g in FilesOf(v) || g in outputs {
      var l :| 0 <= l < |v'| && g in v'[l];
      assert g in v[l] || g in outputs;
    }
    forall l | 0 <= l < |v'| ensures Known(v'[l], FilesOf(v')) {
      assert forall g :: g in v'[l] ==> g in FilesOf(v');
    }
  }

  lemma {:induction false} ReplacedSubset(v: Levels, v': Levels, level: nat, inputs0: seq<File>,
                                          inputs1: seq<File>, outputs: seq<File>)
    requires WellChosen(v, level, inputs0, inputs1) && Replaced(v, v', level, inputs0, inputs1, outputs)
    requires GoodOutputs(inputs0, inputs1, outputs)
    ensures AllEntries(v') <= AllEntries(v)
  {
    GoodInputsInLevel(level, v[level], inputs0);
    NextLevelInputs(v, level, inputs0, inputs1);
    hide Replaced, LevelEntries, LeftOut, AllEntries, WellChosen, EntrySet;
    var none: set<Entry> := {};
    ReplacedEntries(none, v, v', level, inputs0, inputs1, outputs);
    PartsCover(none, v, level, inputs0, inputs1);
    assert none + AllEntries(v') == AllEntries(v') && none + AllEntries(v) == AllEntries(v);
  }

  lemma {:induction false} NextLevelInputs(v: Levels, level: nat, inputs0: seq<File>, inputs1: seq<File>)
    requires WellChosen(v, level, inputs0, inputs1)
    ensures level + 1 < |v| && forall f :: f in inputs1 ==> f in v[level + 1]
  {
  }

  lemma {:induction false} ReplacedStateKeeps(s: State, t: State, level: nat, inputs0: seq<File>, inputs1: seq<File>,
                           outputs: seq<File>)
    requires Inv(s) && WellChosen(s.levels, level, inputs0, inputs1)
    requires Replaced(s.levels, t.levels, level, inputs0, inputs1, outputs)
    requires GoodOutputs(inputs0, inputs1, outputs)
    requires FilesNumbered(t.levels, t.nextFile)
    requires t == s.(levels := t.levels, nextFile := t.nextFile)
    ensures Inv(t)
    ensures Db(t) <= Db(s)
  {
    hide LevelOrder, FilesNumbered, Sorted, LevelEntries, AllEntries, UniqueSequences, AllNewer;
    SubsetUnique(AllEntries(s.levels), Db(s));
    ReplaceKeepsOrder(s.levels, t.levels, level, inputs0, inputs1, outputs);
    ReplacedSubset(s.levels, t.levels, level, inputs0, inputs1, outputs);
    SubsetUnique(Db(t), Db(s));
    AllNewerMonotone(SetOf(s.mem), ImmSet(s.imm) + AllEntries(s.levels),
                     SetOf(s.mem), ImmSet(s.imm) + AllEntries(t.levels));
    AllNewerMonotone(ImmSet(s.imm), AllEntries(s.levels), ImmSet(s.imm), AllEntries(t.levels));
  }

  lemma {:induction false} MovedFileIsOutput(fs: seq<File>, f: File)
    requires FilesOk(fs) && f in fs
    ensures GoodOutputs([f], [], [f])
  {
  }

  lemma {:induction false} MovedFileNumbers(v: Levels, v': Levels, level: nat, f: File, nextFile: nat)
    requires FilesNumbered(v, nextFile) && WellChosen(v, level, [f], []) && Replaced(v, v', level, [f], [], [f])
    ensures FilesNumbered(v', nextFile) && f in v[level]
  {
    GoodInputsInLevel(level, v[level], [f]);
    assert f in [f];
    assert f in v[level] && f in FilesOf(v);
    assert FilesOf(v) + (set g | g in [f]) == FilesOf(v);
    ReplacedNumbers(v, v', level, [f], [], [f], nextFile, nextFile);
  }

  lemma {:induction false} MovedEntries(rest: set<Entry>, v: Levels, v': Levels, level: nat, f: File)
    requires WellChosen(v, level, [f], []) && Replaced(v, v', level, [f], [], [f])
    ensures rest + AllEntries(v') == rest + AllEntries(v)
  {
    hide WellChosen, Replaced, AllEntries, LevelEntries, LeftOut;
    ReplacedEntries(rest, v, v', level, [f], [], [f]);
    MovedInputs(v, level, f);
    PartsCover(rest, v, level, [f], []);
    assert EntrySet([]) == {};
  }

  lemma {:induction false} MovedInputs(v: Levels, level: nat, f: File)
    requires WellChosen(v, level, [f], [])
    ensures level + 1 < |v| && f in v[level] && forall g :: g in [f] ==> g in v[level]
  {
    GoodInputsInLevel(level, v[level], [f]);
  }

  lemma {:induction false} InvFilesOk(s: State, level: nat)
    requires Inv(s) && level < NUM_LEVELS
    ensures FilesOk(s.levels[level]) && FilesNumbered(s.levels, s.nextFile)
  {
  }

  lemma {:induction false} MoveKeeps(s: State, t: State, level: nat, f: File)
    requires Inv(s) && MoveStep(s, t, level, f)
    ensures Inv(t) && Db(t) == Db(s)
    ensures ReadsMatch(s) ==> ReadsMatch(t)
  {
    MovedInputs(s.levels, level, f);
    hide Inv, WellChosen, Replaced, FilesNumbered, AllEntries, GoodOutputs;
    InvFilesOk(s, level);
    MovedFileNumbers(s.levels, t.levels, level, f, s.nextFile);
    MovedFileIsOutput(s.levels[level], f);
    ReplacedStateKeeps(s, t, level, [f], [], [f]);
    MovedEntries(Memory(s), s.levels, t.levels, level, f);
  }

  // ----- compaction --------------------------------------------------------

  lemma {:induction false} FreshNumbers(v: Levels, outputs: seq<File>, nextFile: nat)
    requires FilesNumbered(v, nextFile)
    requires forall i :: 0 <= i < |outputs| ==> outputs[i].number == nextFile + i
    ensures NumbersIdentify(FilesOf(v) + set f | f in outputs)
    ensures forall f :: f in outputs ==> nextFile <= f.number < nextFile + |outputs|
  {
    forall f | f in outputs ensures nextFile <= f.number < nextFile + |outputs| {
      var i :| 0 <= i < |outputs| && outputs[i] == f;
    }
    forall f, g | f in outputs && g in outputs && f.number == g.number ensures f == g {
      var i :| 0 <= i < |outputs| && outputs[i] == f;
      var j :| 0 <= j < |outputs| && outputs[j] == g;
    }
  }

  /** The outputs are good, and their entries are exactly the survivors. */
  lemma {:induction false} CompactionOutputs(v: Levels, level: nat, inputs0: seq<File>, inputs1: seq<File>,
                                             es: seq<Entry>, outputs: seq<File>, smallestSnapshot: nat)
    requires IsMerge(es, EntrySet(inputs0) + EntrySet(inputs1)) && Bounded(es)
    requires FilesOk(outputs) && ConcatTo(outputs, |outputs|) == KeptTo(es, |es|, smallestSnapshot, v, level)
    ensures GoodOutputs(inputs0, inputs1, outputs)
    ensures EntrySet(outputs) == KeptSet(es, smallestSnapshot, v, level)
  {
    var kept := KeptTo(es, |es|, smallestSnapshot, v, level);
    KeptPrefixSorted(es, |es|, smallestSnapshot, v, level);
    OutputsApart(outputs, kept);
    forall e | e in kept ensures e in es {
      var i :| 0 <= i < |kept| && kept[i] == e;
    }
  }

  lemma {:induction false} InputsBounded(s: State, level: nat, inputs0: seq<File>, inputs1: seq<File>, es: seq<Entry>)
    requires Inv(s) && WellChosen(s.levels, level, inputs0, inputs1)
    requires IsMerge(es, EntrySet(inputs0) + EntrySet(inputs1))
    ensures Bounded(es)
  {
    hide LevelOrder, FilesNumbered, WellChosen, UniqueSequences, AllNewer, Sorted;
    InputsInAll(s.levels, level, inputs0, inputs1);
    forall i | 0 <= i < |es| ensures es[i].key.sequence <= MAX_SEQUENCE {
      assert es[i] in es;
      assert es[i] in Db(s);
    }
  }

  /** A compaction keeps the order of the database, whatever it does to reads. */
  lemma {:induction false} CompactKeepsInv(s: State, t: State, level: nat, inputs0: seq<File>, inputs1: seq<File>,
                                           es: seq<Entry>, outputs: seq<File>)
    requires Inv(s) && CompactStep(s, t, level, inputs0, inputs1, es, outputs)
    ensures Inv(t) && Db(t) <= Db(s)
  {
    InputsBounded(s, level, inputs0, inputs1, es);
    CompactionOutputs(s.levels, level, inputs0, inputs1, es, outputs, SmallestSnapshot(s));
    InvFilesOk(s, 0);
    FreshNumbers(s.levels, outputs, s.nextFile);
    hide LevelOrder, FilesNumbered, WellChosen, Replaced, GoodOutputs, Inv;
    ReplacedNumbers(s.levels, t.levels, level, inputs0, inputs1, outputs, s.nextFile, t.nextFile);
    ReplacedStateKeeps(s, t, level, inputs0, inputs1, outputs);
  }

  lemma {:induction false} MemoryIsNewer(s: State)
    requires Inv(s)
    ensures AllNewer(Memory(s), AllEntries(s.levels))
    ensures UniqueSequences(Memory(s) + AllEntries(s.levels))
  {
  }

  /** The entries before and after, as the parts of the drop-rule argument. */
  lemma {:induction false} CompactParts(s: State, t: State, level: nat, inputs0: seq<File>, inputs1: seq<File>,
                                        es: seq<Entry>, outputs: seq<File>)
    requires Inv(s) && CompactStep(s, t, level, inputs0, inputs1, es, outputs)
    ensures var p := PartsOf(Memory(s), s.levels, level, inputs0, inputs1);
            PartsOk(p, s.levels, level) && IsMerge(es, p.inputs) && p.All() == Db(s)
            && After(p, es, SmallestSnapshot(s), s.levels, level) == Db(t)
  {
    InputsBounded(s, level, inputs0, inputs1, es);
    CompactionOutputs(s.levels, level, inputs0, inputs1, es, outputs, SmallestSnapshot(s));
    MemoryIsNewer(s);
    hide LevelOrder, FilesNumbered, WellChosen, Replaced, GoodOutputs, UniqueSequences, AllNewer, IsMerge, KeptSet,
      PartsOk;
    CompactionParts(Memory(s), s.levels, level, inputs0, inputs1);
    ReplacedEntries(Memory(s), s.levels, t.levels, level, inputs0, inputs1, outputs);
  }

  /** Exactly the compactions that do not leak keep what the oldest and all later snapshots read. */
  lemma {:induction false} CompactReadsIff(s: State, t: State, level: nat, inputs0: seq<File>, inputs1: seq<File>,
                                           es: seq<Entry>, outputs: seq<File>)
    requires Inv(s) && CompactStep(s, t, level, inputs0, inputs1, es, outputs)
    ensures ReadsAgree(Db(t), Db(s), SmallestSnapshot(s)) <==> LeakFree(s, level, inputs0, inputs1)
  {
    CompactParts(s, t, level, inputs0, inputs1, es, outputs);
    var p := PartsOf(Memory(s), s.levels, level, inputs0, inputs1);
    CompactionPreservesReadsIff(p, es, SmallestSnapshot(s), s.levels, level);
  }

  lemma {:induction false} CompactKeepsReads(s: State, t: State, level: nat, inputs0: seq<File>, inputs1: seq<File>,
                                             es: seq<Entry>, outputs: seq<File>)
    requires Inv(s) && CompactStep(s, t, level, inputs0, inputs1, es, outputs)
    requires LeakFree(s, level, inputs0, inputs1) && ReadsMatch(s)
    ensures ReadsMatch(t)
  {
    CompactReadsIff(s, t, level, inputs0, inputs1, es, outputs);
    hide Inv, CompactStep, LeakFree, Db;
    AgreeingReadsMatch(Db(t), Db(s), s.history, SmallestSnapshot(s));
    SameSnapshots(s, t, level, inputs0, inputs1, es, outputs);
  }

  lemma {:induction false} AgreeingReadsMatch(a: set<Entry>, b: set<Entry>, history: seq<Change>, from: nat)
    requires ReadsAgree(a, b, from) && Matches(b, history, from)
    ensures Matches(a, history, from)
  {
  }

  lemma {:induction false} SameSnapshots(s: State, t: State, level: nat, inputs0: seq<File>, inputs1: seq<File>,
                                         es: seq<Entry>, outputs: seq<File>)
    requires CompactStep(s, t, level, inputs0, inputs1, es, outputs)
    ensures t.history == s.history && SmallestSnapshot(t) == SmallestSnapshot(s) && t.snapshots == s.snapshots
  {
  }

  // ----- snapshots ---------------------------------------------------------

  lemma {:induction false} SnapshotKeeps(s: State, t: State)
    requires Inv(s) && SnapshotStep(s, t)
    ensures Inv(t) && Db(t) == Db(s)
    ensures ReadsMatch(s) ==> ReadsMatch(t)
  {
    hide LevelOrder, FilesNumbered, UniqueSequences, AllNewer, Sorted, AllEntries;
    assert Db(t) == Db(s);
  }

  lemma {:induction false} ReleaseKeeps(s: State, t: State, i: nat)
    requires Inv(s) && ReleaseStep(s, t, i)
    ensures Inv(t) && Db(t) == Db(s)
    ensures ReadsMatch(s) ==> ReadsMatch(t)
  {
    hide LevelOrder, FilesNumbered, UniqueSequences, AllNewer, Sorted, AllEntries;
    assert Db(t) == Db(s);
    assert SmallestSnapshot(s) <= SmallestSnapshot(t);
  }

  // ----- runs --------------------------------------------------------------

  /** Any step of the database. */
  ghost predicate Next(s: State, t: State) {
    || (exists ops, ok :: WriteStep(s, t, ops, ok))
    || SwitchStep(s, t)
    || (exists level, f :: FlushStep(s, t, level, f))
    || (exists level, f :: MoveStep(s, t, level, f))
    || (exists level, inputs0, inputs1, es, outputs :: CompactStep(s, t, level, inputs0, inputs1, es, outputs))
    || SnapshotStep(s, t)
    || (exists i :: ReleaseStep(s, t, i))
  }

  /** No compaction that explains this step brings a deleted value back. */
  ghost predicate StepLeakFree(s: State, t: State) {
    forall level, inputs0, inputs1, es, outputs :: CompactStep(s, t, level, inputs0, inputs1, es, outputs)
      ==> LeakFree(s, level, inputs0, inputs1)
  }

  ghost predicate Initial(s: State) {
    && s.mem == [] && s.imm.None? && s.levels == seq(NUM_LEVELS, _ => [])
    && s.lastSequence == 0 && s.snapshots == [] && s.history == []
  }

  ghost predicate Run(trace: seq<State>) {
    && trace != [] && Initial(trace[0])
    && forall i :: 0 <= i < |trace| - 1 ==> Next(trace[i], trace[i + 1])
  }

  ghost predicate RunLeakFree(trace: seq<State>) {
    forall i :: 0 <= i < |trace| - 1 ==> StepLeakFree(trace[i], trace[i + 1])
  }

  lemma {:induction false} InitialKeeps(s: State)
    requires Initial(s)
    ensures Inv(s) && ReadsMatch(s)
  {
    assert Db(s) == {};
    assert FilesOf(s.levels) == {};
  }

  /** Every step, leaking or not, keeps the invariant. */
  lemma {:induction false} NextKeepsInv(s: State, t: State)
    requires Inv(s) && Next(s, t)
    ensures Inv(t)
  {
    hide Inv, WriteStep, SwitchStep, FlushStep, MoveStep, CompactStep, SnapshotStep, ReleaseStep;
    if ops, ok :| WriteStep(s, t, ops, ok) {
      WriteKeeps(s, t, ops, ok);
    } else if SwitchStep(s, t) {
      SwitchKeeps(s, t);
    } else if level, f :| FlushStep(s, t, level, f) {
      FlushKeeps(s, t, level, f);
    } else if level, f :| MoveStep(s, t, level, f) {
      MoveKeeps(s, t, level, f);
    } else if level, inputs0, inputs1, es, outputs :| CompactStep(s, t, level, inputs0, inputs1, es, outputs) {
      CompactKeepsInv(s, t, level, inputs0, inputs1, es, outputs);
    } else if SnapshotStep(s, t) {
      SnapshotKeeps(s, t);
    } else {
      var i :| ReleaseStep(s, t, i);
      ReleaseKeeps(s, t, i);
    }
  }

  lemma {:induction false} NextKeepsReads(s: State, t: State)
    requires Inv(s) && Next(s, t) && StepLeakFree(s, t) && ReadsMatch(s)
    ensures ReadsMatch(t)
  {
    hide Inv, ReadsMatch, WriteStep, SwitchStep, FlushStep, MoveStep, CompactStep, SnapshotStep, ReleaseStep;
    if ops, ok :| WriteStep(s, t, ops, ok) {
      WriteKeeps(s, t, ops, ok);
    } else if SwitchStep(s, t) {
      SwitchKeeps(s, t);
    } else if level, f :| FlushStep(s, t, level, f) {
      FlushKeeps(s, t, level, f);
    } else if level, f :| MoveStep(s, t, level, f) {
      MoveKeeps(s, t, level, f);
    } else if level, inputs0, inputs1, es, outputs :| CompactStep(s, t, level, inputs0, inputs1, es, outputs) {
      CompactKeepsReads(s, t, level, inputs0, inputs1, es, outputs);
    } else if SnapshotStep(s, t) {
      SnapshotKeeps(s, t);
    } else {
      var i :| ReleaseStep(s, t, i);
      ReleaseKeeps(s, t, i);
    }
  }

  /** Every reachable state keeps the order of the levels and the ages of its entries. */
  lemma {:induction false} RunKeepsInv(trace: seq<State>, n: nat)
    requires Run(trace) && n < |trace|
    ensures Inv(trace[n])
  {
    if n == 0 {
      InitialKeeps(trace[0]);
    } else {
      RunKeepsInv(trace, n - 1);
      NextKeepsInv(trace[n - 1], trace[n]);
    }
  }

  /** In a run without leaking compactions, every reachable state reads as its history says. */
  lemma {:induction false} RunReadsMatch(trace: seq<State>, n: nat)
    requires Run(trace) && RunLeakFree(trace) && n < |trace|
    ensures ReadsMatch(trace[n])
  {
    if n == 0 {
      InitialKeeps(trace[0]);
    } else {
      RunReadsMatch(trace, n - 1);
      RunKeepsInv(trace, n - 1);
      NextKeepsReads(trace[n - 1], trace[n]);
    }
  }

  lemma {:induction false} NextExtendsHistory(s: State, t: State)
    requires Next(s, t)
    ensures s.history <= t.history
  {
    hide InsertTo, Skips, WellChosen, Replaced, IsMerge, FilesOk, FileAdded, MayPlace, FileOk;
  }

  lemma {:induction false} RunExtendsHistory(trace: seq<State>, i: nat, j: nat)
    requires Run(trace) && i <= j < |trace|
    ensures trace[i].history <= trace[j].history
    decreases j
  {
    if i < j {
      RunExtendsHistory(trace, i, j - 1);
      NextExtendsHistory(trace[j - 1], trace[j]);
    }
  }

  /** A snapshot taken by state `i` and still held at state `j` reads the same in both, whatever
      writes, flushes, moves, compactions and other snapshots came between. */
  lemma {:induction false} HeldSnapshotIsStable(trace: seq<State>, i: nat, j: nat, user: UserKey, snapshot: nat)
    requires Run(trace) && RunLeakFree(trace) && i <= j < |trace|
    requires snapshot in trace[i].snapshots && snapshot in trace[j].snapshots
    ensures Read(Db(trace[j]), user, snapshot) == Read(Db(trace[i]), user, snapshot)
  {
    hide Run, RunLeakFree, Inv, ReadsMatch, Db;
    RunKeepsInv(trace, i);
    RunKeepsInv(trace, j);
    RunReadsMatch(trace, i);
    RunReadsMatch(trace, j);
    RunExtendsHistory(trace, i, j);
    LiveRead(trace[i], user, snapshot);
    LiveRead(trace[j], user, snapshot);
    var more := trace[j].history[|trace[i].history|..];
    assert trace[j].history == trace[i].history + more;
    SpecReadStable(trace[i].history, more, user, snapshot);
  }

  /** A live snapshot, and the present, read as the history says. */
  lemma {:induction false} LiveRead(s: State, user: UserKey, snapshot: nat)
    requires Inv(s) && ReadsMatch(s) && (snapshot in s.snapshots || snapshot == s.lastSequence)
    ensures snapshot <= |s.history| && Read(Db(s), user, snapshot) == SpecRead(s.history, user, snapshot)
  {
    if snapshot in s.snapshots {
      var i :| 0 <= i < |s.snapshots| && s.snapshots[i] == snapshot;
    }
    assert SmallestSnapshot(s) <= snapshot <= s.lastSequence;
  }

  // ----- a condition that can be checked ------------------------------------

  /** Every compaction that explains this step takes the boundary files of inputs_[1] too. */
  ghost predicate StepClosed(s: State, t: State) {
    forall level, inputs0, inputs1, es, outputs :: CompactStep(s, t, level, inputs0, inputs1, es, outputs)
      ==> BoundaryClosed(s.levels[level + 1], inputs1)
  }

  ghost predicate RunClosed(trace: seq<State>) {
    forall i :: 0 <= i < |trace| - 1 ==> StepClosed(trace[i], trace[i + 1])
  }

  lemma {:induction false} ClosedStepIsLeakFree(s: State, t: State)
    requires Inv(s) && StepClosed(s, t)
    ensures StepLeakFree(s, t)
  {
    forall level, inputs0, inputs1, es, outputs | CompactStep(s, t, level, inputs0, inputs1, es, outputs)
      ensures LeakFree(s, level, inputs0, inputs1)
    {
      MemoryIsNewer(s);
      assert BoundaryClosed(s.levels[level + 1], inputs1) && LevelOrder(s.levels);
      hide Inv, LevelOrder, WellChosen, UniqueSequences, AllNewer, BoundaryClosed;
      BoundaryClosedNeverLeaks(Memory(s), s.levels, level, inputs0, inputs1, SmallestSnapshot(s));
    }
  }

  /** If no file beside the inputs ever continues the last user key of inputs_[1], every reachable state reads as its
      history says, and held snapshots are stable. */
  lemma {:induction false} ClosedRunIsLeakFree(trace: seq<State>)
    requires Run(trace) && RunClosed(trace)
    ensures RunLeakFree(trace)
    ensures forall n :: 0 <= n < |trace| ==> ReadsMatch(trace[n])
  {
    forall i | 0 <= i < |trace| - 1 ensures StepLeakFree(trace[i], trace[i + 1]) {
      RunKeepsInv(trace, i);
      ClosedStepIsLeakFree(trace[i], trace[i + 1]);
    }
    forall n | 0 <= n < |trace| ensures ReadsMatch(trace[n]) {
      RunReadsMatch(trace, n);
    }
  }
}
