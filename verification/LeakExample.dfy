/** A run in which a compaction brings a deleted key back. SetupOtherInputs adds boundary files at `level` only, so a
    file at `level + 1` that continues the user key at which the inputs end can stay behind; when the inputs hold the
    tombstone of that key, the tombstone is dropped and the value left behind becomes visible
    (db/version_set.cc:1403-1411, db/db_impl.cc:938-960).

    A snapshot keeps a value and its tombstone apart through a first CompactRange, whose outputs are cut between the
    two (keys and values may be large enough to fill a table); once the snapshot is released, a second one takes in the
    tombstone's file alone.
 */
module LeakExample {
  import opened DbFormat
  import opened Version
  import opened CompactionInputs
  import opened CompactionSetup
  import opened CompactionWork
  import opened CompactionReads
  import opened VersionBuilder
  import opened Install
  import opened Lsm

  const A1 := Entry(InternalKey(0.0, 1, TypeValue), "b")
  const OLD := Entry(InternalKey(1.0, 2, TypeValue), "old")
  const DEAD := Entry(InternalKey(1.0, 3, TypeDeletion), [])
  const A4 := Entry(InternalKey(0.0, 4, TypeValue), "a")

  function Table(number: nat, es: seq<Entry>): File
    requires es != []
  {
    File(number, 1, es[0].key, es[|es| - 1].key, es)
  }

  /** The first two flushed memtables, and the two files into which their compaction is cut. */
  const BASE := Table(3, [A1, OLD])
  const GRAVE := Table(5, [DEAD])
  const HEAD := Table(6, [A1, DEAD])
  const TAIL := Table(7, [OLD])
  /** The last flushed memtable, and what its compaction with HEAD writes. */
  const TOP := Table(9, [A4])
  const OUTPUT := Table(10, [A4])

  const EMPTY: Levels := [[], [], [], [], [], [], []]
  const FLUSHED: Levels := [[], [], [BASE], [], [], [], []]
  const BURIED: Levels := [[], [GRAVE], [BASE], [], [], [], []]
  const CUT: Levels := [[], [], [HEAD, TAIL], [], [], [], []]
  const BEFORE: Levels := [[], [TOP], [HEAD, TAIL], [], [], [], []]
  const AFTER: Levels := [[], [], [OUTPUT, TAIL], [], [], [], []]

  const FIRST: seq<Change> := [Put(0.0, "b"), Put(1.0, "old")]
  const SECOND: seq<Change> := FIRST + [Remove(1.0)]
  const HISTORY: seq<Change> := SECOND + [Put(0.0, "a")]

  /** Write two keys, flush, take a snapshot, delete one of the keys, CompactRange (which flushes and merges level 1
      into level 2), release the snapshot, overwrite the other key, CompactRange. */
  const TRACE: seq<State> := [
    State([], None, EMPTY, 0, 2, [], []),
    State([A1, OLD], None, EMPTY, 2, 2, [], FIRST),
    State([], Some([A1, OLD]), EMPTY, 2, 3, [], FIRST),
    State([], None, FLUSHED, 2, 4, [], FIRST),
    State([], None, FLUSHED, 2, 4, [2], FIRST),
    State([DEAD], None, FLUSHED, 3, 4, [2], SECOND),
    State([], Some([DEAD]), FLUSHED, 3, 5, [2], SECOND),
    State([], None, BURIED, 3, 6, [2], SECOND),
    State([], None, CUT, 3, 8, [2], SECOND),
    State([], None, CUT, 3, 8, [], SECOND),
    State([A4], None, CUT, 4, 8, [], HISTORY),
    State([], Some([A4]), CUT, 4, 9, [], HISTORY),
    State([], None, BEFORE, 4, 10, [], HISTORY),
    State([], None, AFTER, 4, 11, [], HISTORY)
  ]

  lemma {:induction false} FilesAreOk()
    ensures FileOk(BASE) && FileOk(GRAVE) && FileOk(HEAD) && FileOk(TAIL) && FileOk(TOP) && FileOk(OUTPUT)
    ensures BASE.entries == [A1, OLD] && GRAVE.entries == [DEAD]
    ensures HEAD.entries == [A1, DEAD] && TAIL.entries == [OLD]
    ensures TOP.entries == [A4] && OUTPUT.entries == [A4]
  {
  }

  // ----- writes and flushes --------------------------------------------------------------

  lemma {:induction false} FirstWrite()
    ensures WriteStep(TRACE[0], TRACE[1], FIRST, true)
  {
    var none: seq<Entry> := [];
    assert InsertTo(none, FIRST, 0, 1) == none;
    assert LowerBound(none, A1.key) == 0;
    assert InsertTo(none, FIRST, 1, 1) == [A1];
    assert LowerBound([A1], OLD.key) == 1;
    assert InsertTo(none, FIRST, 2, 1) == [A1, OLD];
  }

  lemma {:induction false} Deletion()
    ensures WriteStep(TRACE[4], TRACE[5], [Remove(1.0)], true)
  {
    var none: seq<Entry>, ops := [], [Remove(1.0)];
    assert InsertTo(none, ops, 0, 3) == none;
    assert LowerBound(none, DEAD.key) == 0;
    assert InsertTo(none, ops, 1, 3) == [DEAD];
  }

  lemma {:induction false} Overwrite()
    ensures WriteStep(TRACE[9], TRACE[10], [Put(0.0, "a")], true)
  {
    var none: seq<Entry>, ops := [], [Put(0.0, "a")];
    assert InsertTo(none, ops, 0, 4) == none;
    assert LowerBound(none, A4.key) == 0;
    assert InsertTo(none, ops, 1, 4) == [A4];
  }

  lemma {:induction false} FirstFlush()
    ensures FlushStep(TRACE[2], TRACE[3], 2, BASE)
  {
    FilesAreOk();
    assert forall l :: 0 <= l < NUM_LEVELS ==> EMPTY[l] == [];
  }

  lemma {:induction false} SecondFlush()
    ensures FlushStep(TRACE[6], TRACE[7], 1, GRAVE)
  {
    FilesAreOk();
    assert forall l :: 0 <= l < 2 ==> FLUSHED[l] == [];
  }

  lemma {:induction false} ThirdFlush()
    ensures FlushStep(TRACE[11], TRACE[12], 1, TOP)
  {
    FilesAreOk();
    assert forall l :: 0 <= l < 2 ==> CUT[l] == [];
    assert InOrder([HEAD, TAIL]);
  }

  // ----- the compaction that cuts ----------------------------------------------------------

  lemma {:induction false} OneFileChosen(v: Levels, f: File)
    requires |v| == NUM_LEVELS && v[1] == [f] && FileOk(f)
    ensures GoodInputs(1, v[1], [f]) && BoundaryClosed(v[1], [f]) && IsRange([f], f.smallest, f.largest)
  {
    assert IsRun(v[1], [f], 0, 1);
    assert f in [f];
    EntryInRange(f, f.entries[0]);
    forall k, g | IsLargestKey([f], k) && g in v[1] ensures !IsBoundary(g, k) {
      LargestKeyIsUnique([f], k, f.largest);
    }
  }

  lemma {:induction false} CutChosen()
    ensures WellChosen(BURIED, 1, [GRAVE], [BASE])
  {
    FilesAreOk();
    OneFileChosen(BURIED, GRAVE);
    var next := BURIED[2];
    var lo, hi := Some(GRAVE.smallest.user), Some(GRAVE.largest.user);
    assert OverlappingTo(next, 0, lo, hi) == [];
    assert OverlappingTo(next, 1, lo, hi) == [] + [BASE];
    assert Overlapping(next, lo, hi) == [BASE];
  }

  /** With the snapshot at 2 in use, nothing is dropped. */
  lemma {:induction false} CutSurvivors()
    ensures KeptTo([A1, DEAD, OLD], 3, 2, BURIED, 1) == [A1, DEAD, OLD]
  {
    var es := [A1, DEAD, OLD];
    assert KeptTo(es, 0, 2, BURIED, 1) == [];
    assert KeptTo(es, 1, 2, BURIED, 1) == [] + [A1];
    assert !Hidden(es, 1, 2) && !Obsolete(DEAD, 2, BURIED, 1);
    assert KeptTo(es, 2, 2, BURIED, 1) == [A1] + [DEAD];
    assert !Hidden(es, 2, 2) && !Obsolete(OLD, 2, BURIED, 1);
  }

  lemma {:induction false} CutInputs()
    ensures IsMerge([A1, DEAD, OLD], EntrySet([GRAVE]) + EntrySet([BASE]))
  {
    FilesAreOk();
    assert GRAVE in [GRAVE] && BASE in [BASE];
    assert DEAD in GRAVE.entries && A1 in BASE.entries && OLD in BASE.entries;
    assert EntrySet([GRAVE]) == {DEAD} && EntrySet([BASE]) == {A1, OLD};
  }

  lemma {:induction false} CutOutputs()
    ensures FilesOk([HEAD, TAIL]) && ConcatTo([HEAD, TAIL], 2) == [A1, DEAD, OLD]
  {
    FilesAreOk();
    assert ConcatTo([HEAD, TAIL], 0) == [];
    assert ConcatTo([HEAD, TAIL], 1) == HEAD.entries;
  }

  lemma {:induction false} CutReplaced()
    ensures Replaced(BURIED, CUT, 1, [GRAVE], [BASE], [HEAD, TAIL])
  {
    assert InOrder(CUT[2]);
  }

  lemma {:induction false} CutStep()
    ensures CompactStep(TRACE[7], TRACE[8], 1, [GRAVE], [BASE], [A1, DEAD, OLD], [HEAD, TAIL])
  {
    CutChosen();
    CutSurvivors();
    CutInputs();
    CutOutputs();
    CutReplaced();
    hide WellChosen, Replaced, KeptTo, FilesOk, IsMerge, EntrySet, ConcatTo;
  }

  // ----- the compaction that leaks ----------------------------------------------------------

  lemma {:induction false} LeakChosen()
    ensures WellChosen(BEFORE, 1, [TOP], [HEAD])
  {
    FilesAreOk();
    OneFileChosen(BEFORE, TOP);
    var next := BEFORE[2];
    var lo, hi := Some(TOP.smallest.user), Some(TOP.largest.user);
    assert OverlappingTo(next, 0, lo, hi) == [];
    assert OverlappingTo(next, 1, lo, hi) == [] + [HEAD];
    assert OverlappingTo(next, 2, lo, hi) == [HEAD];
    assert Overlapping(next, lo, hi) == [HEAD];
  }

  lemma {:induction false} LeakSurvivors()
    ensures KeptTo([A4, A1, DEAD], 3, 4, BEFORE, 1) == [A4]
  {
    var es := [A4, A1, DEAD];
    assert BaseLevel(BEFORE, 1, 1.0);
    assert KeptTo(es, 0, 4, BEFORE, 1) == [];
    assert KeptTo(es, 1, 4, BEFORE, 1) == [] + [A4];
    assert Hidden(es, 1, 4);
    assert KeptTo(es, 2, 4, BEFORE, 1) == [A4];
    assert Obsolete(DEAD, 4, BEFORE, 1);
  }

  lemma {:induction false} LeakInputs()
    ensures IsMerge([A4, A1, DEAD], EntrySet([TOP]) + EntrySet([HEAD]))
    ensures FilesOk([OUTPUT]) && ConcatTo([OUTPUT], 1) == [A4]
  {
    FilesAreOk();
    assert TOP in [TOP] && HEAD in [HEAD];
    assert A4 in TOP.entries && A1 in HEAD.entries && DEAD in HEAD.entries;
    assert EntrySet([TOP]) == {A4} && EntrySet([HEAD]) == {A1, DEAD};
    assert ConcatTo([OUTPUT], 0) == [];
    assert ConcatTo([OUTPUT], 1) == [] + OUTPUT.entries;
  }

  lemma {:induction false} LeakReplaced()
    ensures Replaced(BEFORE, AFTER, 1, [TOP], [HEAD], [OUTPUT])
  {
    assert InOrder(AFTER[2]);
    assert HEAD != TAIL && TAIL != OUTPUT;
  }

  lemma {:induction false} LeakStep()
    ensures CompactStep(TRACE[12], TRACE[13], 1, [TOP], [HEAD], [A4, A1, DEAD], [OUTPUT])
  {
    LeakChosen();
    LeakSurvivors();
    LeakInputs();
    LeakReplaced();
    hide WellChosen, Replaced, KeptTo, FilesOk, IsMerge, EntrySet, ConcatTo;
  }

  // ----- the run ----------------------------------------------------------------------------

  lemma {:induction false} StepOf(i: nat)
    requires i < 13
    ensures Next(TRACE[i], TRACE[i + 1])
  {
    hide WriteStep, FlushStep, CompactStep;
    if i == 0 {
      FirstWrite();
    } else if i == 2 {
      FirstFlush();
    } else if i == 3 {
      assert SnapshotStep(TRACE[3], TRACE[4]);
    } else if i == 4 {
      Deletion();
    } else if i == 6 {
      SecondFlush();
    } else if i == 7 {
      CutStep();
    } else if i == 8 {
      assert ReleaseStep(TRACE[8], TRACE[9], 0);
    } else if i == 9 {
      Overwrite();
    } else if i == 11 {
      ThirdFlush();
    } else if i == 12 {
      LeakStep();
    } else {
      assert SwitchStep(TRACE[i], TRACE[i + 1]);
    }
  }

  lemma {:induction false} TraceIsRun()
    ensures Run(TRACE) && |TRACE| == 14
  {
    forall i | 0 <= i < |TRACE| - 1 ensures Next(TRACE[i], TRACE[i + 1]) {
      StepOf(i);
    }
    assert EMPTY == seq(NUM_LEVELS, _ => []);
  }

  // ----- what is read ------------------------------------------------------------------------

  lemma {:induction false} EntriesBefore()
    ensures AllEntries(BEFORE) == {A4, A1, DEAD, OLD}
  {
    FilesAreOk();
    forall e ensures e in AllEntries(BEFORE) <==> e in {A4, A1, DEAD, OLD} {
      assert BEFORE[1] == [TOP] && BEFORE[2] == [HEAD, TAIL];
      assert TOP in BEFORE[1] && HEAD in BEFORE[2] && TAIL in BEFORE[2];
      assert A4 in TOP.entries && A1 in HEAD.entries && DEAD in HEAD.entries && OLD in TAIL.entries;
    }
  }

  lemma {:induction false} EntriesAfter()
    ensures AllEntries(AFTER) == {A4, OLD}
  {
    FilesAreOk();
    forall e ensures e in AllEntries(AFTER) <==> e in {A4, OLD} {
      assert AFTER[2] == [OUTPUT, TAIL];
      assert OUTPUT in AFTER[2] && TAIL in AFTER[2];
      assert A4 in OUTPUT.entries && OLD in TAIL.entries;
    }
  }

  lemma {:induction false} EntriesOf()
    ensures Db(TRACE[12]) == {A4, A1, DEAD, OLD} && Db(TRACE[13]) == {A4, OLD}
  {
    EntriesBefore();
    EntriesAfter();
    hide AllEntries;
    assert SetOf(TRACE[12].mem) == {} && SetOf(TRACE[13].mem) == {};
  }

  /** By the history user key 1 is deleted; it is before the compaction, and after it reads as its old value. */
  lemma {:induction false} DeletedKeyReads()
    ensures Read(Db(TRACE[12]), 1.0, 4) == None && Read(Db(TRACE[13]), 1.0, 4) == Some("old")
    ensures SpecRead(HISTORY, 1.0, 4) == None
  {
    EntriesOf();
    hide Db, AllEntries, Read;
    ReadsDeleted();
    assert SpecRead(HISTORY, 1.0, 4) == SpecRead(HISTORY, 1.0, 3);
  }

  lemma {:induction false} ReadsDeleted()
    ensures Read({A4, A1, DEAD, OLD}, 1.0, 4) == None && Read({A4, OLD}, 1.0, 4) == Some("old")
  {
    hide Read;
    var before, after := {A4, A1, DEAD, OLD}, {A4, OLD};
    assert Newest(before, 1.0, 4, DEAD) && Newest(after, 1.0, 4, OLD);
    AnswerIsRead(before, 1.0, 4, Some(DEAD));
    AnswerIsRead(after, 1.0, 4, Some(OLD));
  }

  /** A run from the empty database, through steps the code takes, whose last compaction resurrects a deleted key. */
  lemma {:induction false} CompactionResurrectsDeletedKey()
    ensures Run(TRACE) && |TRACE| == 14
    ensures CompactStep(TRACE[12], TRACE[13], 1, [TOP], [HEAD], [A4, A1, DEAD], [OUTPUT])
    ensures SpecRead(TRACE[13].history, 1.0, 4) == None
    ensures Read(Db(TRACE[12]), 1.0, 4) == None && Read(Db(TRACE[13]), 1.0, 4) == Some("old")
    ensures !LeakFree(TRACE[12], 1, [TOP], [HEAD])
  {
    TraceIsRun();
    LeakStep();
    DeletedKeyReads();
    RunKeepsInv(TRACE, 12);
    CompactReadsIff(TRACE[12], TRACE[13], 1, [TOP], [HEAD], [A4, A1, DEAD], [OUTPUT]);
    hide Run, Inv, CompactStep, LeakFree, Db, Read, SpecRead;
  }
}
