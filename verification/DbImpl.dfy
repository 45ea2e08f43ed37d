/** The database object (db/db_impl.cc, class DBImpl): each operation is one step of Lsm. */
module DbImpl {
  import opened DbFormat
  import opened Version
  import opened CompactionInputs
  import opened CompactionSetup
  import opened CompactionWork
  import opened CompactionReads
  import opened VersionBuilder
  import opened Install
  import opened Lsm
  import Cursors
  import Merger
  import DbRuns
  import DbIter

  /** Searching newer data first: an answer there settles the read. */
  lemma {:induction false} NewerAnswerWins(newer: set<Entry>, older: set<Entry>, user: UserKey, snapshot: nat,
                                           found: Option<Entry>)
    requires AllNewer(newer, older)
    ensures found.Some? && Answers(newer, user, snapshot, found) ==> Answers(newer + older, user, snapshot, found)
    ensures Answers(newer, user, snapshot, None) && Answers(older, user, snapshot, found)
            ==> Answers(newer + older, user, snapshot, found)
  {
  }

  ghost predicate NoCommonKey(a: set<Entry>, b: set<Entry>) {
    forall e, x :: e in a && x in b ==> e.key != x.key
  }

  /** No key occurs in two of the files. */
  ghost predicate KeysApart(files: seq<File>) {
    forall i, j :: 0 <= i < j < |files| ==> NoCommonKey(SetOf(files[i].entries), SetOf(files[j].entries))
  }

  /** Merges one more table into a sorted run. */
  method MergeTable(run: seq<Entry>, table: seq<Entry>) returns (es: seq<Entry>)
    requires Sorted(run) && Sorted(table) && NoCommonKey(SetOf(run), SetOf(table))
    ensures Sorted(es) && SetOf(es) == SetOf(run) + SetOf(table)
  {
    es := run;
    for j := 0 to |table|
      invariant Sorted(es) && SetOf(es) == SetOf(run) + SetOf(table[..j])
    {
      forall k | 0 <= k < |es| ensures es[k].key != table[j].key {
        FreshInMerge(run, table, j, es, k);
      }
      InsertEntrySorted(es, table[j]);
      es := InsertEntry(es, table[j]);
      assert table[..j + 1] == table[..j] + [table[j]];
    }
    assert table[..|table|] == table;
  }

  lemma {:induction false} FreshInMerge(run: seq<Entry>, table: seq<Entry>, j: nat, es: seq<Entry>, k: nat)
    requires Sorted(table) && NoCommonKey(SetOf(run), SetOf(table)) && j < |table| && k < |es|
    requires SetOf(es) == SetOf(run) + SetOf(table[..j])
    ensures es[k].key != table[j].key
  {
    assert es[k] in SetOf(es);
    assert table[j] in SetOf(table);
    if es[k] !in SetOf(run) {
      var m :| 0 <= m < j && table[..j][m] == es[k];
      assert Less(table[m].key, table[j].key);
    }
  }

  ghost function EntriesTo(files: seq<File>, n: nat): set<Entry>
    requires n <= |files|
  {
    set k, e | 0 <= k < n && e in files[k].entries :: e
  }

  /** The sorted merge of the input tables (MakeInputIterator, read from first to last). */
  method ReadInputs(files: seq<File>) returns (es: seq<Entry>)
    requires FilesOk(files) && KeysApart(files)
    ensures IsMerge(es, EntrySet(files))
  {
    hide KeysApart, NoCommonKey;
    es := [];
    for i := 0 to |files|
      invariant Sorted(es) && SetOf(es) == EntriesTo(files, i)
    {
      TableApart(files, i);
      assert FileOk(files[i]);
      es := MergeTable(es, files[i].entries);
      assert EntriesTo(files, i + 1) == EntriesTo(files, i) + SetOf(files[i].entries);
    }
    AllEntriesTo(files);
    assert forall e :: e in es <==> e in SetOf(es);
  }

  lemma {:induction false} TableApart(files: seq<File>, i: nat)
    requires KeysApart(files) && i < |files|
    ensures NoCommonKey(EntriesTo(files, i), SetOf(files[i].entries))
  {
    forall e, x | e in EntriesTo(files, i) && x in SetOf(files[i].entries) ensures e.key != x.key {
      var k :| 0 <= k < i && e in files[k].entries;
      assert NoCommonKey(SetOf(files[k].entries), SetOf(files[i].entries));
      assert e in SetOf(files[k].entries);
    }
  }

  lemma {:induction false} AllEntriesTo(files: seq<File>)
    ensures EntriesTo(files, |files|) == EntrySet(files)
  {
    forall e | e in EntrySet(files) ensures e in EntriesTo(files, |files|) {
      var f :| f in files && e in f.entries;
      var k :| 0 <= k < |files| && files[k] == f;
    }
  }

  // ----- the inputs of a compaction have no key twice ------------------------

  lemma {:induction false} NewerNoCommonKey(f: File, g: File)
    requires NewerThan(f, g)
    ensures NoCommonKey(SetOf(f.entries), SetOf(g.entries)) && NoCommonKey(SetOf(g.entries), SetOf(f.entries))
  {
    forall e, x | e in f.entries && x in g.entries ensures e.key != x.key {
      assert e.key.user == x.key.user ==> e.key.sequence > x.key.sequence;
    }
  }

  lemma {:induction false} ApartNoCommonKey(f: File, g: File)
    requires FileOk(f) && FileOk(g) && Apart(f, g)
    ensures NoCommonKey(SetOf(f.entries), SetOf(g.entries))
  {
    forall e, x | e in f.entries && x in g.entries ensures e.key != x.key {
      EntryInRange(f, e);
      EntryInRange(g, x);
    }
  }

  lemma {:induction false} SameLevelNoCommonKey(v: Levels, l: nat, f: File, g: File)
    requires LevelOrder(v) && l < NUM_LEVELS && f in v[l] && g in v[l] && f != g
    ensures NoCommonKey(SetOf(f.entries), SetOf(g.entries))
  {
    assert FilesOk(v[l]) && (l > 0 ==> Disjoint(v[l])) && NumberedByAge(v[0]);
    hide LevelOrder, NoCommonKey, NewerThan;
    if l == 0 {
      OneIsNewer(v[0], f, g);
      if NewerThan(f, g) {
        NewerNoCommonKey(f, g);
      } else {
        NewerNoCommonKey(g, f);
      }
    } else {
      ApartFromDisjoint(v[l], f, g);
      ApartNoCommonKey(f, g);
    }
  }

  lemma {:induction false} OneIsNewer(fs: seq<File>, f: File, g: File)
    requires NumberedByAge(fs) && f in fs && g in fs && f != g
    ensures NewerThan(f, g) || NewerThan(g, f)
  {
    hide NewerThan;
    var a :| 0 <= a < |fs| && fs[a] == f;
    var b :| 0 <= b < |fs| && fs[b] == g;
  }

  lemma {:induction false} DistinctInOrder(fs: seq<File>, i: nat, j: nat)
    requires InOrder(fs) && i < j < |fs|
    ensures fs[i] != fs[j]
  {
    assert BySmallest(fs[i], fs[j]);
  }

  lemma {:induction false} LevelKeysApart(v: Levels, l: nat, ins: seq<File>)
    requires LevelOrder(v) && l < NUM_LEVELS && InOrder(ins) && forall f :: f in ins ==> f in v[l]
    ensures KeysApart(ins) && FilesOk(ins)
  {
    SubsetOk(v[l], ins);
    hide LevelOrder, NoCommonKey;
    forall i, j | 0 <= i < j < |ins| ensures NoCommonKey(SetOf(ins[i].entries), SetOf(ins[j].entries)) {
      DistinctInOrder(ins, i, j);
      assert ins[i] in ins && ins[j] in ins;
      SameLevelNoCommonKey(v, l, ins[i], ins[j]);
    }
  }

  lemma {:induction false} KeysApartConcat(a: seq<File>, b: seq<File>)
    requires KeysApart(a) && KeysApart(b) && FilesOk(a) && FilesOk(b)
    requires forall f, g :: f in a && g in b ==> NewerThan(f, g)
    ensures KeysApart(a + b) && FilesOk(a + b)
  {
    hide NoCommonKey, NewerThan, FileOk;
    var all := a + b;
    forall i, j | 0 <= i < j < |all| ensures NoCommonKey(SetOf(all[i].entries), SetOf(all[j].entries)) {
      if i < |a| <= j {
        assert all[i] == a[i] && all[i] in a && all[j] == b[j - |a|] && all[j] in b;
        NewerNoCommonKey(all[i], all[j]);
      }
    }
  }

  lemma {:induction false} ChosenLevels(v: Levels, level: nat, inputs0: seq<File>, inputs1: seq<File>)
    requires LevelOrder(v) && WellChosen(v, level, inputs0, inputs1)
    ensures |v| == NUM_LEVELS && level + 1 < NUM_LEVELS && InOrder(v[level]) && GoodInputs(level, v[level], inputs0)
    ensures LevelNewerThan(v[level], v[level + 1])
  {
    hide GoodInputs, InOrder, LevelNewerThan;
  }

  lemma {:induction false} InputsKeysApart(v: Levels, level: nat, inputs0: seq<File>, inputs1: seq<File>)
    requires LevelOrder(v) && WellChosen(v, level, inputs0, inputs1)
    ensures KeysApart(inputs0 + inputs1) && FilesOk(inputs0 + inputs1)
  {
    hide LevelOrder, WellChosen, GoodInputs, LevelNewerThan, InOrder, KeysApart, FilesOk, NewerThan;
    ChosenLevels(v, level, inputs0, inputs1);
    GoodInputsInLevel(level, v[level], inputs0);
    InputsInOrder(level, v[level], inputs0);
    NextInOrder(v, level, inputs0, inputs1);
    LevelKeysApart(v, level, inputs0);
    LevelKeysApart(v, level + 1, inputs1);
    forall f, g | f in inputs0 && g in inputs1 ensures NewerThan(f, g) {
      MembersByAge(v[level], v[level + 1], f, g);
    }
    KeysApartConcat(inputs0, inputs1);
  }

  lemma {:induction false} NextInOrder(v: Levels, level: nat, inputs0: seq<File>, inputs1: seq<File>)
    requires LevelOrder(v) && WellChosen(v, level, inputs0, inputs1)
    ensures InOrder(inputs1) && forall f :: f in inputs1 ==> f in v[level + 1]
  {
    var next := v[level + 1];
    var lo, hi :| IsRange(inputs0, lo, hi) && inputs1 == Overlapping(next, Some(lo.user), Some(hi.user));
    OverlappingInOrder(next, |next|, Some(lo.user), Some(hi.user));
  }

  // ----- edits -------------------------------------------------------------

  /** CompactMemTable's edit: one new file. */
  lemma {:induction false} AddFileEdit(v: Levels, v': Levels, level: nat, f: File, files: set<File>)
    requires AllKnown(v, FilesOf(v)) && |v| == NUM_LEVELS && level < NUM_LEVELS
    requires forall g :: g in FilesOf(v) ==> g.number < f.number
    requires Applied(v, v', FileEdit([], [(level, f)])) && files == FilesOf(v) + {f}
    ensures FileAdded(v, v', level, f)
  {
    var edit := FileEdit([], [(level, f)]);
    forall l | 0 <= l < NUM_LEVELS
      ensures InOrder(v'[l])
      ensures l != level ==> v'[l] == v[l]
      ensures l == level ==> forall g :: g in v'[l] <==> g in v[l] || g == f
    {
      forall g ensures EditAdds(edit, l, g) <==> l == level && g == f {
        assert edit.newFiles[0] == (level, f);
      }
      assert forall g :: g in v[l] ==> g in FilesOf(v);
      EditLevelMembers(v[l], edit, l, files);
      if l != level {
        OrderedFilesEqual(v'[l], v[l]);
      }
    }
  }

  /** AddInputDeletions and the outputs, or the one file of a trivial move. */
  method CompactionEdit(level: nat, inputs0: seq<File>, inputs1: seq<File>, outputs: seq<File>) returns (edit: FileEdit)
    requires level + 1 < NUM_LEVELS
    ensures Replaces(edit, level, inputs0, inputs1, outputs)
  {
    var deleted: seq<(nat, nat)> := [];
    for i := 0 to |inputs0|
      invariant |deleted| == i && forall k :: 0 <= k < i ==> deleted[k] == (level, inputs0[k].number)
    {
      deleted := deleted + [(level, inputs0[i].number)];
    }
    for i := 0 to |inputs1|
      invariant |deleted| == |inputs0| + i
      invariant forall k :: 0 <= k < |inputs0| ==> deleted[k] == (level, inputs0[k].number)
      invariant forall k :: |inputs0| <= k < |deleted| ==> deleted[k] == (level + 1, inputs1[k - |inputs0|].number)
    {
      deleted := deleted + [(level + 1, inputs1[i].number)];
    }
    var added: seq<(nat, File)> := [];
    for i := 0 to |outputs|
      invariant |added| == i && forall k :: 0 <= k < i ==> added[k] == (level + 1, outputs[k])
    {
      added := added + [(level + 1, outputs[i])];
    }
    edit := FileEdit(deleted, added);
    EditReplaces(edit, level, inputs0, inputs1, outputs);
  }

  lemma {:induction false} EditReplaces(edit: FileEdit, level: nat, inputs0: seq<File>, inputs1: seq<File>,
                                        outputs: seq<File>)
    requires level + 1 < NUM_LEVELS
    requires |edit.deletedFiles| == |inputs0| + |inputs1| && |edit.newFiles| == |outputs|
    requires forall k :: 0 <= k < |inputs0| ==> edit.deletedFiles[k] == (level, inputs0[k].number)
    requires forall k :: |inputs0| <= k < |edit.deletedFiles| ==>
               edit.deletedFiles[k] == (level + 1, inputs1[k - |inputs0|].number)
    requires forall k :: 0 <= k < |outputs| ==> edit.newFiles[k] == (level + 1, outputs[k])
    ensures Replaces(edit, level, inputs0, inputs1, outputs)
  {
    forall l: nat, n: nat
      ensures EditDeletes(edit, l, n) <==>
              (l == level && NumberIn(inputs0, n)) || (l == level + 1 && NumberIn(inputs1, n))
    {
      if EditDeletes(edit, l, n) {
        var k :| 0 <= k < |edit.deletedFiles| && edit.deletedFiles[k] == (l, n);
        if k < |inputs0| {
          assert inputs0[k] in inputs0;
        } else {
          assert inputs1[k - |inputs0|] in inputs1;
        }
      }
      if l == level && NumberIn(inputs0, n) {
        var f :| f in inputs0 && f.number == n;
        var k :| 0 <= k < |inputs0| && inputs0[k] == f;
        assert edit.deletedFiles[k] == (l, n);
      }
      if l == level + 1 && NumberIn(inputs1, n) {
        var f :| f in inputs1 && f.number == n;
        var k :| 0 <= k < |inputs1| && inputs1[k] == f;
        assert edit.deletedFiles[|inputs0| + k] == (l, n);
      }
    }
    forall l: nat, f ensures EditAdds(edit, l, f) <==> l == level + 1 && f in outputs {
      if l == level + 1 && f in outputs {
        var k :| 0 <= k < |outputs| && outputs[k] == f;
        assert edit.newFiles[k] == (l, f);
      }
    }
  }

  // ----- facts the methods take from the invariant --------------------------

  lemma {:induction false} InvParts(s: State)
    requires Inv(s)
    ensures LevelOrder(s.levels) && FilesNumbered(s.levels, s.nextFile)
    ensures Sorted(s.mem) && (s.imm.Some? ==> Sorted(s.imm.value))
    ensures AllNewer(SetOf(s.mem), ImmSet(s.imm) + AllEntries(s.levels))
    ensures AllNewer(ImmSet(s.imm), AllEntries(s.levels))
    ensures UniqueSequences(Db(s)) && SequencesUpTo(Db(s), s.lastSequence)
    ensures |s.history| == s.lastSequence < MAX_SEQUENCE && SnapshotsOk(s.snapshots, s.lastSequence)
  {
  }

  lemma {:induction false} ImmBounded(s: State)
    requires Inv(s) && s.imm.Some?
    ensures forall e :: e in s.imm.value ==> e.key.sequence <= MAX_SEQUENCE
  {
    InvParts(s);
    forall e | e in s.imm.value ensures e.key.sequence <= MAX_SEQUENCE {
      assert e in Db(s);
    }
  }

  /** Memtable, immutable memtable, files: the three searches of DBImpl::Get combined. */
  lemma {:induction false} ThreeSearches(s: State, user: UserKey, snapshot: nat, inMem: Option<Entry>,
                                         inImm: Option<Entry>, inFiles: Option<Entry>)
    requires Inv(s)
    requires Answers(SetOf(s.mem), user, snapshot, inMem)
    requires inMem.None? ==> Answers(ImmSet(s.imm), user, snapshot, inImm)
    requires inMem.None? && inImm.None? ==> Answers(AllEntries(s.levels), user, snapshot, inFiles)
    ensures Read(Db(s), user, snapshot) ==
            Outcome(if inMem.Some? then inMem else if inImm.Some? then inImm else inFiles)
  {
    InvParts(s);
    hide Inv, LevelOrder, FilesNumbered, AllNewer, AllEntries, UniqueSequences, Answers;
    var files := AllEntries(s.levels);
    var older := ImmSet(s.imm) + files;
    assert Db(s) == SetOf(s.mem) + older;
    var found := if inMem.Some? then inMem else if inImm.Some? then inImm else inFiles;
    if inMem.None? {
      NewerAnswerWins(ImmSet(s.imm), files, user, snapshot, found);
    }
    NewerAnswerWins(SetOf(s.mem), older, user, snapshot, found);
    AnswerIsRead(Db(s), user, snapshot, found);
  }

  lemma {:induction false} InsertToNext(mem: seq<Entry>, ops: seq<Change>, i: nat, first: nat)
    requires i < |ops| && IsBatch(ops)
    ensures InsertTo(mem, ops, i + 1, first) == InsertEntry(InsertTo(mem, ops, i, first), EntryOf(ops[i], first + i))
  {
  }

  /** LogAndApply with the edit of a flush. */
  method AddFile(v: Levels, level: nat, f: File, ghost nextFile: nat) returns (v': Levels)
    requires |v| == NUM_LEVELS && level < NUM_LEVELS && FilesNumbered(v, nextFile) && f.number == nextFile
    ensures FileAdded(v, v', level, f)
  {
    v' := LogAndApply(v, FileEdit([], [(level, f)]));
    AddFileEdit(v, v', level, f, FilesOf(v) + {f});
  }

  /** LogAndApply with the edit of a trivial move. */
  method MoveFile(v: Levels, level: nat, f: File, ghost nextFile: nat) returns (v': Levels)
    requires LevelOrder(v) && FilesNumbered(v, nextFile) && WellChosen(v, level, [f], [])
    ensures Replaced(v, v', level, [f], [], [f])
  {
    MovedInputs(v, level, f);
    NotAlsoBelow(v, level, f);
    var edit := CompactionEdit(level, [f], [], [f]);
    v' := LogAndApply(v, edit);
    hide LevelOrder, WellChosen;
    ReplaceFiles(v, v', edit, level, [f], [], [f], FilesOf(v));
  }

  /** LogAndApply with the edit of a compaction. */
  method InstallCompactionResults(v: Levels, job: Job, outputs: seq<File>, ghost nextFile: nat) returns (v': Levels)
    requires |v| == NUM_LEVELS && FilesNumbered(v, nextFile) && JobOk(v, job)
    requires forall i :: 0 <= i < |outputs| ==> outputs[i].number == nextFile + i
    ensures Replaced(v, v', job.level, job.inputs0, job.inputs1, outputs)
  {
    var edit := CompactionEdit(job.level, job.inputs0, job.inputs1, outputs);
    v' := LogAndApply(v, edit);
    InstalledOutputs(v, v', edit, job, outputs, nextFile);
  }

  /** WriteLevel0Table: the table of a non-empty memtable, and the version that holds it. */
  method WriteLevel0Table(v: Levels, es: seq<Entry>, number: nat, tableSize: seq<Entry> -> nat, overlapLimit: nat)
    returns (level: nat, f: File, v': Levels)
    requires LevelOrder(v) && FilesNumbered(v, number)
    requires es != [] && Sorted(es) && forall e :: e in es ==> e.key.sequence <= MAX_SEQUENCE
    ensures FileOk(f) && f.entries == es && f.number == number
    ensures MayPlace(v, level, f) && FileAdded(v, v', level, f)
    ensures FlushLevel(v, f.smallest.user, f.largest.user, overlapLimit, level)
  {
    f := File(number, tableSize(es), es[0].key, es[|es| - 1].key, es);
    assert FileOk(f);
    level := PickLevelForMemTableOutput(v, f.smallest.user, f.largest.user, overlapLimit);
    SunkenFileMayStay(v, level, f, overlapLimit);
    v' := AddFile(v, level, f, number);
  }

  /** DoCompactionWork on the files of a job. */
  method MergeFilesOf(v: Levels, job: Job, smallestSnapshot: nat, nextFile: nat,
                      stop: nat -> bool, full: seq<Entry> -> bool, tableSize: seq<Entry> -> nat)
    returns (outputs: seq<File>, next: nat, ghost es: seq<Entry>)
    requires LevelOrder(v) && JobOk(v, job) && smallestSnapshot < MAX_SEQUENCE
    ensures IsMerge(es, EntrySet(job.inputs0) + EntrySet(job.inputs1))
    ensures FilesOk(outputs) && next == nextFile + |outputs|
    ensures ConcatTo(outputs, |outputs|) == KeptTo(es, |es|, smallestSnapshot, v, job.level)
    ensures forall i :: 0 <= i < |outputs| ==> outputs[i].number == nextFile + i
  {
    InputsKeysApart(v, job.level, job.inputs0, job.inputs1);
    var merged := ReadInputs(job.inputs0 + job.inputs1);
    es := merged;
    assert EntrySet(job.inputs0 + job.inputs1) == EntrySet(job.inputs0) + EntrySet(job.inputs1);
    MergeBounded(job.inputs0 + job.inputs1, es);
    var compaction := new Compaction(v, job.level);
    hide LevelOrder, JobOk, IsMerge, Bounded, KeptTo;
    outputs, next := DoCompactionWork(merged, compaction, smallestSnapshot, nextFile, stop, full, tableSize);
  }

  lemma {:induction false} MergeBounded(files: seq<File>, es: seq<Entry>)
    requires FilesOk(files) && IsMerge(es, EntrySet(files))
    ensures Sorted(es) && Bounded(es)
  {
    forall i | 0 <= i < |es| ensures es[i].key.sequence <= MAX_SEQUENCE {
      assert es[i] in es;
      var f :| f in files && es[i] in f.entries;
    }
  }

  class DBImpl {
    var mem: seq<Entry>
    var imm: Option<seq<Entry>>
    var current: Levels
    var lastSequence: nat
    var nextFileNumber: nat
    var snapshots: seq<nat>
    ghost var history: seq<Change>

    ghost function View(): State
      reads this
    {
      State(mem, imm, current, lastSequence, nextFileNumber, snapshots, history)
    }

    ghost predicate Valid()
      reads this
    {
      Inv(View())
    }

    constructor ()
      ensures Initial(View()) && Valid()
    {
      mem, imm := [], None;
      current := seq(NUM_LEVELS, _ => []);
      lastSequence, nextFileNumber, snapshots, history := 0, 2, [], [];
      new;
      InitialKeeps(View());
    }

    /** The part of Write that logs and applies one group; `logged` tells whether the log accepted it. */
    method ApplyGroup(updates: seq<Change>, logged: bool)
      requires Valid() && IsBatch(updates) && lastSequence + |updates| < MAX_SEQUENCE
      modifies this
      ensures WriteStep(old(View()), View(), updates, logged)
      ensures lastSequence == old(lastSequence) + |updates| && (!logged ==> mem == old(mem))
      ensures logged ==> SetOf(mem) == old(SetOf(mem)) + Numbered(updates, old(lastSequence) + 1)
      ensures Valid()
    {
      hide Inv, InsertEntry, EntryOf, SetOf, Numbered;
      ghost var s := View();
      if logged {
        for i := 0 to |updates|
          invariant View() == s.(mem := InsertTo(s.mem, updates, i, s.lastSequence + 1))
        {
          InsertToNext(s.mem, updates, i, s.lastSequence + 1);
          mem := InsertEntry(mem, EntryOf(updates[i], lastSequence + 1 + i));
        }
        history := history + updates;
      } else {
        history := history + Skips(|updates|);
      }
      lastSequence := lastSequence + |updates|;
      InsertedSet(s.mem, updates, |updates|, s.lastSequence + 1);
      assert updates[..|updates|] == updates;
      WriteKeeps(s, View(), updates, logged);
    }

    /** The branch of MakeRoomForWrite that installs an empty memtable. */
    method SwitchMemTable()
      requires Valid() && imm.None?
      modifies this
      ensures SwitchStep(old(View()), View())
      ensures mem == [] && imm == Some(old(mem)) && current == old(current) && lastSequence == old(lastSequence)
      ensures Valid()
    {
      ghost var s := View();
      nextFileNumber := nextFileNumber + 1;
      imm, mem := Some(mem), [];
      SwitchKeeps(s, View());
    }

    /** Writes the immutable memtable to a file at the level PickLevelForMemTableOutput allows. */
    method CompactMemTable(tableSize: seq<Entry> -> nat, overlapLimit: nat)
      requires Valid() && imm.Some?
      modifies this
      ensures exists level, f :: FlushStep(old(View()), View(), level, f)
      ensures Flushed(old(View()), View(), overlapLimit)
      ensures Valid() && imm.None? && Db(View()) == old(Db(View()))
    {
      hide Inv, LevelOrder, FilesNumbered, MayPlace, FileAdded, FileOk, Db, Sorted, FlushLevel;
      ghost var s := View();
      InvParts(s);
      ImmBounded(s);
      var level, f := 0, File(0, 0, SeekKey(0.0, 0), SeekKey(0.0, 0), []);
      if imm.value != [] {
        level, f, current := WriteLevel0Table(current, imm.value, nextFileNumber, tableSize, overlapLimit);
      }
      nextFileNumber := nextFileNumber + 1;
      imm := None;
      assert FlushStep(s, View(), level, f);
      FlushKeeps(s, View(), level, f);
    }

    /** Moves or merges the files of a compaction chosen as PickCompaction and CompactRange do. */
    method RunCompaction(job: Job, isManual: bool, overlapLimit: nat,
                         stop: nat -> bool, full: seq<Entry> -> bool, tableSize: seq<Entry> -> nat)
      requires Valid() && JobOk(current, job)
      modifies this
      ensures Ran(old(View()), View(), job, isManual, overlapLimit)
      ensures Valid()
    {
      hide Inv, LevelOrder, FilesNumbered, Replaced;
      ghost var s := View();
      InvParts(s);
      if !isManual && |job.inputs0| == 1 && |job.inputs1| == 0 && TotalFileSize(job.grandparents) <= overlapLimit {
        var f := job.inputs0[0];
        assert job.inputs0 == [f] && job.inputs1 == [];
        current := MoveFile(current, job.level, f, nextFileNumber);
        assert MoveStep(s, View(), job.level, f);
        MoveKeeps(s, View(), job.level, f);
      } else {
        DoCompaction(job, stop, full, tableSize);
      }
    }

    method DoCompaction(job: Job, stop: nat -> bool, full: seq<Entry> -> bool, tableSize: seq<Entry> -> nat)
      requires Valid() && JobOk(current, job)
      modifies this
      ensures exists es, outputs :: CompactStep(old(View()), View(), job.level, job.inputs0, job.inputs1, es, outputs)
      ensures Valid()
    {
      hide Inv, LevelOrder, FilesNumbered, Replaced, IsMerge, FilesOk, KeptTo, JobOk, CompactStep, ConcatTo;
      ghost var s := View();
      InvParts(s);
      var smallestSnapshot := if snapshots == [] then lastSequence else snapshots[0];
      var outputs, next;
      ghost var es;
      outputs, next, es := MergeFilesOf(current, job, smallestSnapshot, nextFileNumber, stop, full, tableSize);
      var v := InstallCompactionResults(current, job, outputs, nextFileNumber);
      current, nextFileNumber := v, next;
      IsCompactStep(s, View(), job, es, outputs);
      CompactKeepsInv(s, View(), job.level, job.inputs0, job.inputs1, es, outputs);
    }

    /** BackgroundCompaction: a waiting memtable is flushed; otherwise a manual compaction is served, or the file `which`
        of `level` is compacted. `start` is what the job comes of. */
    method BackgroundCompaction(level: nat, which: nat, manual: Option<Manual>, fileSizeLimit: nat, expansionLimit: nat,
                                overlapLimit: nat, stop: nat -> bool, full: seq<Entry> -> bool,
                                tableSize: seq<Entry> -> nat) returns (job: Option<Job>, ghost start: seq<File>)
      requires Valid()
      requires imm.None? && manual.None? ==> level + 1 < NUM_LEVELS && which < |current[level]|
      requires manual.Some? ==> manual.value.level + 1 < NUM_LEVELS
      modifies this
      ensures old(imm).Some? ==> job.None? && Flushed(old(View()), View(), overlapLimit)
      ensures old(imm).None? && manual.None? ==>
                job.Some? && Picked(old(current), level, which, expansionLimit, start, job.value)
      ensures old(imm).None? && manual.Some? ==>
                Served(old(current), manual.value, fileSizeLimit, expansionLimit, start, job)
      ensures old(imm).None? && job.Some? ==> Ran(old(View()), View(), job.value, manual.Some?, overlapLimit)
      ensures old(imm).None? && job.None? ==> View() == old(View())
      ensures old(imm).None? && manual.None? ==>
                |current| == |old(current)| == NUM_LEVELS && old(current)[level][which] !in current[level]
      ensures Next(old(View()), View()) && Valid()
    {
      hide Inv, LevelOrder, FilesNumbered, JobOk, JobFrom, StartOfRange, Flushed, Ran, Reachable, Overlaps, Next;
      InvParts(View());
      ghost var s := View();
      job, start := None, [];
      if imm.Some? {
        CompactMemTable(tableSize, overlapLimit);
        FlushIsNext(s, View(), overlapLimit);
        return;
      }
      if manual.Some? {
        var m := manual.value;
        job, start := CompactRange(current, m.level, m.begin, m.end, fileSizeLimit, expansionLimit);
      } else {
        var picked;
        picked, start := PickCompaction(current, level, which, expansionLimit);
        job := Some(picked);
      }
      if job.Some? {
        RunCompaction(job.value, manual.Some?, overlapLimit, stop, full, tableSize);
        RunIsNext(s, View(), job.value, manual.Some?, overlapLimit);
        InputsLeave(s, View(), job.value, manual.Some?, overlapLimit);
      } else {
        IdleIsNext(s);
      }
    }

    /** TEST_CompactRange, as long as nobody else writes: serves the manual compaction until nothing is left of it. Each
        round goes on where the last input ended. */
    method CompactLevelRange(level: nat, begin: Option<UserKey>, end: Option<UserKey>, fileSizeLimit: nat,
                             expansionLimit: nat, overlapLimit: nat, stop: nat -> bool, full: seq<Entry> -> bool,
                             tableSize: seq<Entry> -> nat)
      requires Valid() && imm.None? && level + 1 < NUM_LEVELS
      modifies this
      ensures Valid() && mem == old(mem) && imm.None? && snapshots == old(snapshots) && history == old(history)
      ensures |current| == NUM_LEVELS && forall f :: f in current[level] ==> !Overlaps(f, begin, end)
    {
      hide Inv, Overlaps;
      SevenLevels(View());
      var manual := Manual(level, begin, end);
      var done := false;
      while !done
        invariant Valid() && imm.None? && mem == old(mem) && snapshots == old(snapshots) && history == old(history)
        invariant |current| == NUM_LEVELS && manual.level == level && manual.end == end
        invariant forall f :: f in current[level] && Overlaps(f, begin, end) ==> Overlaps(f, manual.begin, manual.end)
        invariant done ==> forall f :: f in current[level] ==> !Overlaps(f, manual.begin, manual.end)
        decreases FileSet(current[level]), !done
      {
        ghost var gone;
        ghost var was := FileSet(current[level]);
        manual, done, gone := CompactOnce(manual, fileSizeLimit, expansionLimit, overlapLimit, stop, full, tableSize);
        assert !done ==> gone in was && gone !in FileSet(current[level]) && FileSet(current[level]) <= was;
      }
    }

    /** One round of a manual compaction. */
    method CompactOnce(m: Manual, fileSizeLimit: nat, expansionLimit: nat, overlapLimit: nat, stop: nat -> bool,
                       full: seq<Entry> -> bool, tableSize: seq<Entry> -> nat)
      returns (rest: Manual, done: bool, ghost gone: File)
      requires Valid() && imm.None? && m.level + 1 < NUM_LEVELS && |current| == NUM_LEVELS
      modifies this
      ensures Valid() && mem == old(mem) && imm.None? && snapshots == old(snapshots) && history == old(history)
      ensures |current| == NUM_LEVELS && rest.level == m.level && rest.end == m.end
      ensures done ==> rest == m && current == old(current)
      ensures done ==> forall f :: f in current[m.level] ==> !Overlaps(f, m.begin, m.end)
      ensures !done ==> gone in old(current)[m.level] && gone !in current[m.level]
      ensures forall f :: f in current[m.level] ==> f in old(current)[m.level]
      ensures forall f :: f in current[m.level] && Overlaps(f, m.begin, m.end) ==> Overlaps(f, rest.begin, rest.end)
    {
      hide Inv, LevelOrder, FilesNumbered, Overlaps, JobFrom, JobOk, StartOfRange, Ran;
      ghost var s := View();
      InvParts(s);
      var job;
      ghost var start;
      job, start := BackgroundCompaction(0, 0, Some(m), fileSizeLimit, expansionLimit, overlapLimit, stop, full, tableSize);
      rest, done, gone := m, job.None?, File(0, 0, SeekKey(0.0, 0), SeekKey(0.0, 0), []);
      if job.Some? {
        var inputs := job.value.inputs0;
        OnlyLevelsChange(s, View(), job.value, overlapLimit);
        InputsLeave(s, View(), job.value, true, overlapLimit);
        RestOfRange(s.levels, m.level, m.begin, m.end, fileSizeLimit, start, expansionLimit, job.value);
        SameLevel(s.levels, m.level, start, expansionLimit, job.value);
        gone := inputs[0];
        rest := m.(begin := Some(inputs[|inputs| - 1].largest.user));
      }
    }

    method GetSnapshot() returns (snapshot: nat)
      requires Valid()
      modifies this
      ensures SnapshotStep(old(View()), View()) && snapshot == lastSequence
      ensures snapshots == old(snapshots) + [snapshot] && Db(View()) == old(Db(View()))
      ensures Valid()
    {
      ghost var s := View();
      snapshot := lastSequence;
      snapshots := snapshots + [snapshot];
      SnapshotKeeps(s, View());
    }

    method ReleaseSnapshot(i: nat)
      requires Valid() && i < |snapshots|
      modifies this
      ensures ReleaseStep(old(View()), View(), i)
      ensures snapshots == old(snapshots)[..i] + old(snapshots)[i + 1..] && Db(View()) == old(Db(View()))
      ensures Valid()
    {
      ghost var s := View();
      snapshots := snapshots[..i] + snapshots[i + 1..];
      ReleaseKeeps(s, View(), i);
    }

    /** DBImpl::Get: memtable, then immutable memtable, then the current version. */
    method Get(user: UserKey, at: Option<nat>) returns (value: Option<Value>)
      requires Valid()
      ensures value == Read(Db(View()), user, if at.Some? then at.value else lastSequence)
      ensures ReadsMatch(View()) && (at.Some? ==> at.value in snapshots) ==>
                var snapshot := if at.Some? then at.value else lastSequence;
                snapshot <= |history| && value == SpecRead(history, user, snapshot)
    {
      var snapshot := if at.Some? then at.value else lastSequence;
      InvParts(View());
      SeekFindsNewest(mem, user, snapshot);
      var found := Sought(mem, user, snapshot);
      ghost var inMem := found;
      ghost var inImm: Option<Entry> := None;
      ghost var inFiles: Option<Entry> := None;
      if found.None? {
        if imm.Some? {
          SeekFindsNewest(imm.value, user, snapshot);
          found := Sought(imm.value, user, snapshot);
          inImm := found;
        }
        if found.None? {
          found := Version.Get(current, user, snapshot);
          inFiles := found;
        }
      }
      ThreeSearches(View(), user, snapshot, inMem, inImm, inFiles);
      value := Outcome(found);
      if ReadsMatch(View()) && (at.Some? ==> at.value in snapshots) {
        LiveRead(View(), user, snapshot);
      }
    }

    /** The cursors over the memtables and the files, merged. */
    method NewInternalIterator() returns (it: Merger.MergingIterator, latest: nat)
      requires Valid()
      ensures latest == lastSequence
      ensures fresh(it) && forall i :: 0 <= i < |it.children| ==> fresh(it.children[i])
      ensures it.Ok() && it.Merged() == Merger.MergeAll(DbRuns.Runs(View()))
    {
      hide Inv, Merger.MergeAll, Merger.Apart, Db, Merger.MergingIterator.Ok, DbRuns.ImmRuns, DbRuns.FileRuns,
        DbRuns.DeepRuns, LevelOrder, FilesNumbered, Sorted;
      InvParts(View());
      DbRuns.RunsMerge(View());
      latest := lastSequence;
      var list := MemIterators(mem, imm);
      var files := AddIterators(current);
      RunsInTwo(View(), list, files);
      it := new Merger.MergingIterator(list + files);
    }

    method NewIterator(at: Option<nat>) returns (it: DbIter.DBIter)
      requires Valid()
      ensures fresh(it) && fresh(it.iter) && forall i :: 0 <= i < |it.iter.children| ==> fresh(it.iter.children[i])
      ensures it.Ok() && !it.valid && it.Entries() == Merger.MergeAll(DbRuns.Runs(View()))
      ensures it.sequence == if at.Some? then at.value else lastSequence
    {
      hide Inv;
      var inner, latest := NewInternalIterator();
      it := new DbIter.DBIter(inner, if at.Some? then at.value else latest);
    }
  }

  lemma {:induction false} RunsInTwo(s: State, a: seq<Cursors.Cursor>, b: seq<Cursors.Cursor>)
    requires |s.levels| > 0
    requires Merger.ListsOf(a) == [s.mem] + DbRuns.ImmRuns(s.imm)
    requires Merger.ListsOf(b) == DbRuns.FileRuns(s.levels[0]) + DbRuns.DeepRuns(s.levels, 1)
    ensures Merger.ListsOf(a + b) == DbRuns.Runs(s)
  {
    assert Merger.ListsOf(a + b) == Merger.ListsOf(a) + Merger.ListsOf(b);
  }

  method MemIterators(mem: seq<Entry>, imm: Option<seq<Entry>>) returns (iters: seq<Cursors.Cursor>)
    ensures forall i :: 0 <= i < |iters| ==> fresh(iters[i])
    ensures forall i, j :: 0 <= i < j < |iters| ==> iters[i] != iters[j]
    ensures Merger.ListsOf(iters) == [mem] + DbRuns.ImmRuns(imm)
  {
    var c := new Cursors.Cursor(mem);
    iters := [c];
    if imm.Some? {
      c := new Cursors.Cursor(imm.value);
      iters := iters + [c];
    }
  }

  /** Version::AddIterators: a cursor for each file of level 0, and one for each deeper level that is not empty, over
      its files one after the other. */
  method AddIterators(v: Levels) returns (iters: seq<Cursors.Cursor>)
    requires |v| == NUM_LEVELS
    ensures forall i :: 0 <= i < |iters| ==> fresh(iters[i])
    ensures forall i, j :: 0 <= i < j < |iters| ==> iters[i] != iters[j]
    ensures Merger.ListsOf(iters) == DbRuns.FileRuns(v[0]) + DbRuns.DeepRuns(v, 1)
  {
    iters := [];
    for i := 0 to |v[0]|
      invariant forall i :: 0 <= i < |iters| ==> fresh(iters[i])
      invariant forall i, j :: 0 <= i < j < |iters| ==> iters[i] != iters[j]
      invariant Merger.ListsOf(iters) == DbRuns.FileRuns(v[0])[..i]
    {
      var c := new Cursors.Cursor(v[0][i].entries);
      iters := iters + [c];
    }
    for level := 1 to NUM_LEVELS
      invariant forall i :: 0 <= i < |iters| ==> fresh(iters[i])
      invariant forall i, j :: 0 <= i < j < |iters| ==> iters[i] != iters[j]
      invariant Merger.ListsOf(iters) + DbRuns.DeepRuns(v, level) == DbRuns.FileRuns(v[0]) + DbRuns.DeepRuns(v, 1)
    {
      if v[level] != [] {
        ghost var before := Merger.ListsOf(iters);
        var c := new Cursors.Cursor(DbRuns.LevelRun(v[level]));
        iters := iters + [c];
        assert Merger.ListsOf(iters) == before + [DbRuns.LevelRun(v[level])];
      }
    }
  }

  /** Walks an iterator of the database from its first key to its last: exactly the keys a read finds, in order, each
      with the value read; for a live snapshot, the values last written before it. */
  method ReadAll(db: DBImpl, at: Option<nat>) returns (pairs: seq<(UserKey, Value)>)
    requires db.Valid()
    ensures forall i, j :: 0 <= i < j < |pairs| ==> pairs[i].0 < pairs[j].0
    ensures var snapshot := if at.Some? then at.value else db.lastSequence;
            forall user, value :: (user, value) in pairs <==> Read(Db(db.View()), user, snapshot) == Some(value)
    ensures ReadsMatch(db.View()) && (at.Some? ==> at.value in db.snapshots) ==>
              var snapshot := if at.Some? then at.value else db.lastSequence;
              snapshot <= |db.history|
              && forall user, value :: (user, value) in pairs <==> SpecRead(db.history, user, snapshot) == Some(value)
  {
    hide Inv, Read, Db, ReadsMatch, SpecRead, DbIter.LiveList, Merger.MergeAll, DbRuns.Runs, DbIter.DBIter.Ok;
    var it := db.NewIterator(at);
    pairs := DbIter.Collect(it);
    PairsAreReads(db.View(), it.sequence, pairs);
    if ReadsMatch(db.View()) && (at.Some? ==> at.value in db.snapshots) {
      forall user
        ensures it.sequence <= |db.history|
        ensures Read(Db(db.View()), user, it.sequence) == SpecRead(db.history, user, it.sequence)
      {
        LiveRead(db.View(), user, it.sequence);
      }
      assert it.sequence <= |db.history| by {
        LiveRead(db.View(), 0.0, it.sequence);
      }
    }
  }

  lemma {:induction false} PairsAreReads(s: State, snapshot: nat, pairs: seq<(UserKey, Value)>)
    requires Inv(s)
    requires var es := Merger.MergeAll(DbRuns.Runs(s));
             var l := DbIter.LiveList(es, snapshot);
             |pairs| == |l| && forall i :: 0 <= i < |pairs| ==> l[i] < |es| && pairs[i] == (es[l[i]].key.user, es[l[i]].value)
    ensures forall i, j :: 0 <= i < j < |pairs| ==> pairs[i].0 < pairs[j].0
    ensures forall user, value :: (user, value) in pairs <==> Read(Db(s), user, snapshot) == Some(value)
  {
    hide Inv, Read, Db, DbIter.LiveList, Merger.MergeAll, DbRuns.Runs;
    DbRuns.LiveKeysOfDb(s, snapshot, 0.0);
    forall user, value ensures (user, value) in pairs <==> Read(Db(s), user, snapshot) == Some(value) {
      DbRuns.LiveKeysOfDb(s, snapshot, user);
    }
  }

  ghost function FileSet(fs: seq<File>): set<File> {
    set f | f in fs
  }

  /** The entries of a batch, numbered from `first` on. */
  ghost function Numbered(updates: seq<Change>, first: nat): set<Entry>
    requires IsBatch(updates)
  {
    set i | 0 <= i < |updates| :: match updates[i]
      case Put(user, value) => Entry(InternalKey(user, first + i, TypeValue), value)
      case Remove(user) => Entry(InternalKey(user, first + i, TypeDeletion), [])
  }

  lemma {:induction false} InsertedSet(mem: seq<Entry>, ops: seq<Change>, n: nat, first: nat)
    requires n <= |ops| && IsBatch(ops)
    ensures SetOf(InsertTo(mem, ops, n, first)) == SetOf(mem) + Numbered(ops[..n], first)
  {
    hide Numbered, LowerBound, SetOf;
    if n == 0 {
      NumberedNone(ops, first);
    } else {
      InsertedSet(mem, ops, n - 1, first);
      var before, e := InsertTo(mem, ops, n - 1, first), EntryOf(ops[n - 1], first + n - 1);
      SpliceSet(before, LowerBound(before, e.key), e);
      NumberedNext(ops, n - 1, first);
    }
  }

  lemma {:induction false} NumberedNone(ops: seq<Change>, first: nat)
    requires IsBatch(ops)
    ensures IsBatch(ops[..0]) && Numbered(ops[..0], first) == {}
  {
  }

  lemma {:induction false} NumberedNext(ops: seq<Change>, i: nat, first: nat)
    requires i < |ops| && IsBatch(ops)
    ensures Numbered(ops[..i + 1], first) == Numbered(ops[..i], first) + {EntryOf(ops[i], first + i)}
  {
    var now, before := ops[..i + 1], ops[..i];
    assert forall k :: 0 <= k < i ==> now[k] == before[k];
    forall e | e in Numbered(before, first) ensures e in Numbered(now, first) {
    }
    assert now[i] == ops[i];
  }

  /** A manual compaction that waits to be served: its level and what is left of its range. */
  datatype Manual = Manual(level: nat, begin: Option<UserKey>, end: Option<UserKey>)

  /** The flush of CompactMemTable, at the level where its table belongs. */
  ghost predicate Flushed(s: State, t: State, overlapLimit: nat) {
    exists level, f ::
      && FlushStep(s, t, level, f)
      && (s.imm.value != [] ==> FlushLevel(s.levels, f.smallest.user, f.largest.user, overlapLimit, level))
  }

  /** What running a job does: an automatic job of one file, with nothing below it and not too many bytes two levels
      down, moves the file; any other merges its inputs. */
  ghost predicate Ran(s: State, t: State, job: Job, isManual: bool, overlapLimit: nat) {
    if !isManual && |job.inputs0| == 1 && |job.inputs1| == 0 && TotalFileSize(job.grandparents) <= overlapLimit
    then MoveStep(s, t, job.level, job.inputs0[0])
    else exists es, outputs :: CompactStep(s, t, job.level, job.inputs0, job.inputs1, es, outputs)
  }

  /** The job that comes of a picked file: of the file alone, or at level 0 of all files linked to it. */
  ghost predicate Picked(v: Levels, level: nat, which: nat, expansionLimit: nat, start: seq<File>, job: Job) {
    && |v| == NUM_LEVELS && level < NUM_LEVELS && which < |v[level]|
    && JobOk(v, job) && JobFrom(v, level, start, expansionLimit, job) && v[level][which] in job.inputs0
    && if level > 0 then start == [v[level][which]]
       else forall f :: f in start <==> Reachable(v[0], f, Some(v[0][which].smallest.user), Some(v[0][which].largest.user))
  }

  /** The job that comes of a manual compaction; none exactly if nothing overlaps its range. */
  ghost predicate Served(v: Levels, m: Manual, fileSizeLimit: nat, expansionLimit: nat, start: seq<File>,
                         job: Option<Job>) {
    && |v| == NUM_LEVELS && m.level < NUM_LEVELS
    && (job.None? <==> forall f :: f in v[m.level] ==> !Overlaps(f, m.begin, m.end))
    && (job.Some? ==> StartOfRange(m.level, v[m.level], m.begin, m.end, fileSizeLimit, start)
                      && JobOk(v, job.value) && JobFrom(v, m.level, start, expansionLimit, job.value))
  }

  lemma {:induction false} FlushIsNext(s: State, t: State, overlapLimit: nat)
    requires Flushed(s, t, overlapLimit)
    ensures Next(s, t)
  {
    hide FlushStep, FlushLevel;
  }

  lemma {:induction false} RunIsNext(s: State, t: State, job: Job, isManual: bool, overlapLimit: nat)
    requires Ran(s, t, job, isManual, overlapLimit)
    ensures Next(s, t)
  {
    hide MoveStep, CompactStep;
  }

  lemma {:induction false} IdleIsNext(s: State)
    requires Inv(s)
    ensures Next(s, s)
  {
    assert s.lastSequence < MAX_SEQUENCE && s.history + [] == s.history;
    assert InsertTo(s.mem, [], 0, s.lastSequence + 1) == s.mem && Skips(0) == [];
    assert WriteStep(s, s, [], true);
    hide WriteStep, Inv;
  }

  /** Exactly the first inputs leave their level. */
  lemma {:induction false} InputsLeave(s: State, t: State, job: Job, isManual: bool, overlapLimit: nat)
    requires Ran(s, t, job, isManual, overlapLimit)
    ensures |s.levels| == |t.levels| == NUM_LEVELS && job.level < NUM_LEVELS
    ensures forall f :: f in t.levels[job.level] <==> f in s.levels[job.level] && f !in job.inputs0
  {
    hide WellChosen, IsMerge, FilesOk, ConcatTo, KeptTo;
    if !isManual && |job.inputs0| == 1 && |job.inputs1| == 0 && TotalFileSize(job.grandparents) <= overlapLimit {
      assert job.inputs0 == [job.inputs0[0]];
    }
  }

  lemma {:induction false} SevenLevels(s: State)
    requires Inv(s)
    ensures |s.levels| == 7
  {
  }

  lemma {:induction false} SameLevel(v: Levels, level: nat, start: seq<File>, limit: nat, job: Job)
    requires JobFrom(v, level, start, limit, job)
    ensures job.level == level
  {
  }

  lemma {:induction false} OnlyLevelsChange(s: State, t: State, job: Job, overlapLimit: nat)
    requires Ran(s, t, job, true, overlapLimit)
    ensures t.mem == s.mem && t.imm == s.imm && t.snapshots == s.snapshots && t.history == s.history
  {
    hide WellChosen, IsMerge, FilesOk, ConcatTo, KeptTo, Replaced;
  }

  lemma {:induction false} IsCompactStep(s: State, t: State, job: Job, es: seq<Entry>, outputs: seq<File>)
    requires JobOk(s.levels, job) && IsMerge(es, EntrySet(job.inputs0) + EntrySet(job.inputs1))
    requires FilesOk(outputs)
    requires ConcatTo(outputs, |outputs|) == KeptTo(es, |es|, SmallestSnapshot(s), s.levels, job.level)
    requires forall i :: 0 <= i < |outputs| ==> outputs[i].number == s.nextFile + i
    requires Replaced(s.levels, t.levels, job.level, job.inputs0, job.inputs1, outputs)
    requires t == s.(levels := t.levels, nextFile := s.nextFile + |outputs|)
    ensures CompactStep(s, t, job.level, job.inputs0, job.inputs1, es, outputs)
  {
  }

  // ----- bridging lemmas ----------------------------------------------------

  lemma {:induction false} SunkenFileMayStay(v: Levels, level: nat, f: File, overlapLimit: nat)
    requires |v| == NUM_LEVELS && level <= MAX_MEM_COMPACT_LEVEL
    requires !NoOverlap(v[0], f.smallest.user, f.largest.user) ==> level == 0
    requires NoOverlap(v[0], f.smallest.user, f.largest.user) ==>
               forall l :: 0 <= l < level ==> MaySink(v, l, f.smallest.user, f.largest.user, overlapLimit)
    ensures MayPlace(v, level, f)
  {
    if level > 0 {
      forall l | 0 <= l <= level ensures NoOverlap(v[l], f.smallest.user, f.largest.user) {
        if l > 0 {
          assert MaySink(v, l - 1, f.smallest.user, f.largest.user, overlapLimit);
        }
      }
    }
  }

  lemma {:induction false} NotAlsoBelow(v: Levels, level: nat, f: File)
    requires LevelOrder(v) && level + 1 < NUM_LEVELS && f in v[level]
    ensures f !in v[level + 1]
  {
    assert FilesOk(v[level]) && LevelNewerThan(v[level], v[level + 1]);
    NotNewerThanSelf(f);
    if f in v[level + 1] {
      MembersByAge(v[level], v[level + 1], f, f);
    }
  }

  lemma {:induction false} NotNewerThanSelf(f: File)
    requires FileOk(f)
    ensures !NewerThan(f, f)
  {
    assert f.entries[0] in f.entries;
  }

  lemma {:induction false} InstalledOutputs(v: Levels, v': Levels, edit: FileEdit, job: Job, outputs: seq<File>,
                                            nextFile: nat)
    requires FilesNumbered(v, nextFile) && JobOk(v, job) && Applied(v, v', edit)
    requires Replaces(edit, job.level, job.inputs0, job.inputs1, outputs)
    requires forall i :: 0 <= i < |outputs| ==> outputs[i].number == nextFile + i
    ensures Replaced(v, v', job.level, job.inputs0, job.inputs1, outputs)
  {
    FreshNumbers(v, outputs, nextFile);
    GoodInputsInLevel(job.level, v[job.level], job.inputs0);
    var files := FilesOf(v) + set f | f in outputs;
    forall l | 0 <= l < |v| ensures Known(v[l], files) {
      assert forall g :: g in v[l] ==> g in FilesOf(v);
    }
    forall f | f in outputs ensures f in files && f !in v[job.level + 1] {
      assert f in v[job.level + 1] ==> f in FilesOf(v);
    }
    ReplaceFiles(v, v', edit, job.level, job.inputs0, job.inputs1, outputs, files);
  }
}
