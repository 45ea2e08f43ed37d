/** The sorted runs of a database, over which its internal iterator merges (DBImpl::NewInternalIterator in db/db_impl.cc,
    Version::AddIterators in db/version_set.cc): memtables, level-0 files, and each deeper level as one run.
 */
module DbRuns {
  import opened DbFormat
  import opened Version
  import opened CompactionWork
  import opened CompactionReads
  import opened Install
  import opened Lsm
  import opened Merger
  import DbIter

  /** A deeper level, file after file. */
  function LevelRun(fs: seq<File>): seq<Entry> {
    ConcatTo(fs, |fs|)
  }

  function FileRuns(fs: seq<File>): seq<seq<Entry>> {
    seq(|fs|, i requires 0 <= i < |fs| => fs[i].entries)
  }

  /** One run for each level from `l` on that is not empty. */
  function DeepRuns(v: Levels, l: nat): seq<seq<Entry>>
    decreases |v| - l
  {
    if l >= |v| then []
    else if v[l] == [] then DeepRuns(v, l + 1)
    else [LevelRun(v[l])] + DeepRuns(v, l + 1)
  }

  function ImmRuns(imm: Option<seq<Entry>>): seq<seq<Entry>> {
    if imm.None? then [] else [imm.value]
  }

  function Runs(s: State): seq<seq<Entry>>
    requires |s.levels| > 0
  {
    [s.mem] + (ImmRuns(s.imm) + (FileRuns(s.levels[0]) + DeepRuns(s.levels, 1)))
  }

  /** The runs are sorted, share no key, and hold exactly the entries of `db`. */
  ghost predicate RunsOf(lists: seq<seq<Entry>>, db: set<Entry>) {
    Merger.Apart(lists) && forall e :: e in db <==> InSome(lists, e)
  }

  lemma {:induction false} NoRuns()
    ensures RunsOf([], {})
  {
  }

  lemma {:induction false} OneRun(es: seq<Entry>)
    requires Sorted(es)
    ensures RunsOf([es], SetOf(es))
  {
    forall e ensures e in SetOf(es) <==> InSome([es], e) {
      InSomeCons([es], e);
    }
  }

  lemma {:induction false} InSomeAppend(a: seq<seq<Entry>>, b: seq<seq<Entry>>, e: Entry)
    ensures InSome(a + b, e) <==> InSome(a, e) || InSome(b, e)
  {
    if InSome(a + b, e) {
      var i: nat, j: nat :| Merger.At(a + b, i, j, e);
      if i < |a| {
        assert Merger.At(a, i, j, e);
      } else {
        assert Merger.At(b, i - |a|, j, e);
      }
    }
    if InSome(a, e) {
      var i: nat, j: nat :| Merger.At(a, i, j, e);
      assert Merger.At(a + b, i, j, e);
    }
    if InSome(b, e) {
      var i: nat, j: nat :| Merger.At(b, i, j, e);
      assert Merger.At(a + b, |a| + i, j, e);
    }
  }

  lemma {:induction false} Member(lists: seq<seq<Entry>>, db: set<Entry>, i: nat, j: nat)
    requires RunsOf(lists, db) && i < |lists| && j < |lists[i]|
    ensures lists[i][j] in db
  {
    assert Merger.At(lists, i, j, lists[i][j]);
  }

  /** Runs of newer entries go before runs of older ones. */
  lemma {:induction false} AppendRuns(a: seq<seq<Entry>>, b: seq<seq<Entry>>, newer: set<Entry>, older: set<Entry>)
    requires RunsOf(a, newer) && RunsOf(b, older) && AllNewer(newer, older)
    ensures RunsOf(a + b, newer + older)
  {
    var all := a + b;
    forall i, k, j, m | 0 <= i < |a| && 0 <= k < |b| && 0 <= j < |a[i]| && 0 <= m < |b[k]|
      ensures a[i][j].key != b[k][m].key
    {
      Member(a, newer, i, j);
      Member(b, older, k, m);
    }
    forall e ensures e in newer + older <==> InSome(all, e) {
      InSomeAppend(a, b, e);
    }
  }

  lemma {:induction false} FileRunsApart(fs: seq<File>)
    requires FilesOk(fs) && NumberedByAge(fs)
    ensures RunsOf(FileRuns(fs), EntrySet(fs))
  {
    forall i: nat, k: nat, j: nat, m: nat | i < |fs| && k < |fs| && i != k && j < |fs[i].entries| && m < |fs[k].entries|
      ensures fs[i].entries[j].key != fs[k].entries[m].key
    {
      NumberedApart(fs, i, k, fs[i].entries[j], fs[k].entries[m]);
    }
    forall e ensures e in EntrySet(fs) <==> InSome(FileRuns(fs), e) {
      FileRunsHold(fs, e);
    }
  }

  lemma {:induction false} NumberedApart(fs: seq<File>, i: nat, k: nat, e: Entry, x: Entry)
    requires NumberedByAge(fs) && i < |fs| && k < |fs| && i != k && e in fs[i].entries && x in fs[k].entries
    ensures e.key != x.key
  {
    assert NewerThan(fs[i], fs[k]) || NewerThan(fs[k], fs[i]);
  }

  lemma {:induction false} FileRunsHold(fs: seq<File>, e: Entry)
    ensures e in EntrySet(fs) <==> InSome(FileRuns(fs), e)
  {
    var lists := FileRuns(fs);
    if e in EntrySet(fs) {
      var f :| f in fs && e in f.entries;
      var i :| 0 <= i < |fs| && fs[i] == f;
      var j :| 0 <= j < |f.entries| && f.entries[j] == e;
      assert Merger.At(lists, i, j, e);
    }
    if InSome(lists, e) {
      var i: nat, j: nat :| Merger.At(lists, i, j, e);
      assert lists[i] == fs[i].entries && fs[i] in fs && e in fs[i].entries;
    }
  }

  lemma {:induction false} LevelRunSorted(fs: seq<File>, n: nat)
    requires FilesOk(fs) && Disjoint(fs) && n <= |fs|
    ensures Sorted(ConcatTo(fs, n))
  {
    if n > 0 {
      LevelRunSorted(fs, n - 1);
      assert FileOk(fs[n - 1]);
      var before, last := ConcatTo(fs, n - 1), fs[n - 1].entries;
      forall i, j | 0 <= i < |before| && 0 <= j < |last| ensures Less(before[i].key, last[j].key) {
        hide Sorted;
        FileBefore(fs, n - 1, before[i], last[j]);
      }
      BothSorted(before, last);
    }
  }

  lemma {:induction false} FileBefore(fs: seq<File>, n: nat, e: Entry, x: Entry)
    requires FilesOk(fs) && Disjoint(fs) && n < |fs| && e in ConcatTo(fs, n) && x in fs[n].entries
    ensures Less(e.key, x.key)
  {
    hide FileOk, ConcatTo;
    ConcatMembers(fs, n, e);
    var k :| 0 <= k < n && e in fs[k].entries;
    EntryInRange(fs[k], e);
    EntryInRange(fs[n], x);
  }

  lemma {:induction false} BothSorted(a: seq<Entry>, b: seq<Entry>)
    requires Sorted(a) && Sorted(b)
    requires forall i, j :: 0 <= i < |a| && 0 <= j < |b| ==> Less(a[i].key, b[j].key)
    ensures Sorted(a + b)
  {
  }

  lemma {:induction false} LevelRunSet(fs: seq<File>)
    ensures SetOf(LevelRun(fs)) == EntrySet(fs)
  {
    forall e ensures e in SetOf(LevelRun(fs)) <==> e in EntrySet(fs) {
      ConcatMembers(fs, |fs|, e);
    }
  }

  /** Everything at a level is newer than what lies deeper. */
  lemma {:induction false} LevelIsNewer(v: Levels, l: nat)
    requires LevelOrder(v) && l < |v|
    ensures AllNewer(EntrySet(v[l]), LevelEntries(v, l + 1, |v|))
  {
    assert LevelsByAge(v);
    hide LevelOrder, FilesOk, InOrder, Disjoint, NumberedByAge;
    forall e, x | e in EntrySet(v[l]) && x in LevelEntries(v, l + 1, |v|) && e.key.user == x.key.user
      ensures e.key.sequence > x.key.sequence
    {
      var m, g :| l + 1 <= m < |v| && g in v[m] && x in g.entries;
      hide LevelsByAge;
      NewerAcrossLevels(v, l, m, e, x);
    }
  }

  lemma {:induction false} LevelsFrom(v: Levels, l: nat)
    requires l < |v|
    ensures LevelEntries(v, l, |v|) == EntrySet(v[l]) + LevelEntries(v, l + 1, |v|)
  {
  }

  lemma {:induction false} DeepRunsApart(v: Levels, l: nat)
    requires LevelOrder(v) && 1 <= l <= |v|
    ensures RunsOf(DeepRuns(v, l), LevelEntries(v, l, |v|))
    decreases |v| - l
  {
    if l == |v| {
      NoRuns();
      assert LevelEntries(v, l, |v|) == {};
    } else {
      DeepRunsApart(v, l + 1);
      LevelIsNewer(v, l);
      LevelsFrom(v, l);
      LevelRunSorted(v[l], |v[l]|);
      LevelRunSet(v[l]);
      OneRun(LevelRun(v[l]));
      hide LevelOrder, LevelRun, SetOf, EntrySet, LevelEntries, RunsOf, AllNewer;
      if v[l] == [] {
        NoEntries(v[l]);
        assert {} + LevelEntries(v, l + 1, |v|) == LevelEntries(v, l + 1, |v|);
      } else {
        AppendRuns([LevelRun(v[l])], DeepRuns(v, l + 1), EntrySet(v[l]), LevelEntries(v, l + 1, |v|));
      }
    }
  }

  lemma {:induction false} NoEntries(fs: seq<File>)
    requires fs == []
    ensures EntrySet(fs) == {}
  {
  }

  /** The runs of a reachable state share no key and hold exactly its entries, so the merge of them is the database in
      order. */
  lemma {:induction false} RunsMerge(s: State)
    requires Inv(s)
    ensures Merger.Apart(Runs(s))
    ensures Sorted(MergeAll(Runs(s))) && SetOf(MergeAll(Runs(s))) == Db(s)
  {
    RunsAreDb(s);
    hide Inv, Runs, Db, Sorted, Merger.Apart, InSome;
    MergeAllMerges(Runs(s));
    var es := MergeAll(Runs(s));
    assert forall e :: e in es <==> e in Db(s);
  }

  lemma {:induction false} FilesAreRuns(v: Levels)
    requires LevelOrder(v)
    ensures RunsOf(FileRuns(v[0]) + DeepRuns(v, 1), AllEntries(v))
  {
    assert |v| == NUM_LEVELS && FilesOk(v[0]) && NumberedByAge(v[0]);
    hide RunsOf, LevelOrder, FilesOk, NumberedByAge, EntrySet, LevelEntries, AllNewer;
    FileRunsApart(v[0]);
    DeepRunsApart(v, 1);
    LevelIsNewer(v, 0);
    LevelsFrom(v, 0);
    AppendRuns(FileRuns(v[0]), DeepRuns(v, 1), EntrySet(v[0]), LevelEntries(v, 1, |v|));
  }

  lemma {:induction false} ImmIsRun(imm: Option<seq<Entry>>)
    requires imm.Some? ==> Sorted(imm.value)
    ensures RunsOf(ImmRuns(imm), ImmSet(imm))
  {
    hide RunsOf;
    NoRuns();
    if imm.Some? {
      OneRun(imm.value);
    }
  }

  lemma {:induction false} RunsAreDb(s: State)
    requires Inv(s)
    ensures RunsOf(Runs(s), Db(s))
  {
    assert |s.levels| == NUM_LEVELS;
    hide RunsOf, LevelOrder, UniqueSequences, SequencesUpTo, AllNewer, FilesNumbered, SnapshotsOk, AllEntries, SetOf,
      ImmSet, ImmRuns, FileRuns, DeepRuns;
    OneRun(s.mem);
    ImmIsRun(s.imm);
    FilesAreRuns(s.levels);
    var files := FileRuns(s.levels[0]) + DeepRuns(s.levels, 1);
    AppendRuns(ImmRuns(s.imm), files, ImmSet(s.imm), AllEntries(s.levels));
    AppendRuns([s.mem], ImmRuns(s.imm) + files, SetOf(s.mem), ImmSet(s.imm) + AllEntries(s.levels));
    assert SetOf(s.mem) + (ImmSet(s.imm) + AllEntries(s.levels)) == Db(s);
  }

  /** The keys an iterator of the database visits ascend, and are exactly those that a read at its sequence finds, each
      with the value the read returns. */
  lemma {:induction false} LiveKeysOfDb(s: State, sequence: nat, user: UserKey)
    requires Inv(s)
    ensures var es := MergeAll(Runs(s));
            var l := DbIter.LiveList(es, sequence);
            && (forall k :: 0 <= k < |l| ==> l[k] < |es|)
            && (forall a, b :: 0 <= a < b < |l| ==> es[l[a]].key.user < es[l[b]].key.user)
            && (forall k :: 0 <= k < |l| && es[l[k]].key.user == user ==>
                  Read(Db(s), user, sequence) == Some(es[l[k]].value))
            && (Read(Db(s), user, sequence).Some? ==> exists k :: 0 <= k < |l| && es[l[k]].key.user == user)
  {
    RunsMerge(s);
    assert UniqueSequences(Db(s));
    hide Inv, Db, Runs, Read, UniqueSequences, DbIter.LiveList;
    var es := MergeAll(Runs(s));
    assert (set e | e in es) == Db(s);
    DbIter.LiveKeysAreReads(es, sequence, user);
  }
}
