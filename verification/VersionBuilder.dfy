/** Applying edits to a version and replaying them from the manifest
    (db/version_set.cc: VersionSet::Builder, LogAndApply, Recover, WriteSnapshot).
 */
module VersionBuilder {
  import opened DbFormat
  import opened Version

  /** The file changes of a VersionEdit; each change names its level. */
  datatype FileEdit = FileEdit(deletedFiles: seq<(nat, nat)>, newFiles: seq<(nat, File)>)

  predicate LevelsInRange(edit: FileEdit) {
    && (forall i :: 0 <= i < |edit.deletedFiles| ==> edit.deletedFiles[i].0 < NUM_LEVELS)
    && (forall i :: 0 <= i < |edit.newFiles| ==> edit.newFiles[i].0 < NUM_LEVELS)
  }

  datatype LevelState = LevelState(deleted: set<nat>, added: seq<File>)

  // ----- Apply -------------------------------------------------------------

  /** std::set insertion: ordered by BySmallest, an equivalent element stays. */
  function InsertFile(fs: seq<File>, f: File): seq<File> {
    if fs == [] then [f]
    else if BySmallest(fs[0], f) then [fs[0]] + InsertFile(fs[1..], f)
    else if BySmallest(f, fs[0]) then [f] + fs
    else fs
  }

  function DeletedTo(ds: seq<(nat, nat)>, n: nat, level: nat, deleted: set<nat>): set<nat>
    requires n <= |ds|
  {
    if n == 0 then deleted
    else if ds[n - 1].0 == level then DeletedTo(ds, n - 1, level, deleted) + {ds[n - 1].1}
    else DeletedTo(ds, n - 1, level, deleted)
  }

  function AddedTo(fs: seq<(nat, File)>, n: nat, level: nat, st: LevelState): LevelState
    requires n <= |fs|
  {
    if n == 0 then st
    else
      var prev := AddedTo(fs, n - 1, level, st);
      var f := fs[n - 1].1;
      if fs[n - 1].0 == level then LevelState(prev.deleted - {f.number}, InsertFile(prev.added, f))
      else prev
  }

  function ApplyLevel(st: LevelState, edit: FileEdit, level: nat): LevelState {
    AddedTo(edit.newFiles, |edit.newFiles|, level,
            LevelState(DeletedTo(edit.deletedFiles, |edit.deletedFiles|, level, st.deleted), st.added))
  }

  // ----- SaveTo ------------------------------------------------------------

  /** Both lists in one order; base files go before added files that tie with them. */
  function MergeFiles(base: seq<File>, added: seq<File>): seq<File>
    decreases |base| + |added|
  {
    if added == [] then base
    else if base == [] then added
    else if BySmallest(added[0], base[0]) then [added[0]] + MergeFiles(base, added[1..])
    else [base[0]] + MergeFiles(base[1..], added)
  }

  function Keep(fs: seq<File>, deleted: set<nat>): seq<File> {
    if fs == [] then []
    else if fs[0].number in deleted then Keep(fs[1..], deleted)
    else [fs[0]] + Keep(fs[1..], deleted)
  }

  function SaveLevel(base: seq<File>, st: LevelState): seq<File> {
    Keep(MergeFiles(base, st.added), st.deleted)
  }

  class Builder {
    const base: Levels
    const levels: array<LevelState>

    constructor (base: Levels)
      requires |base| == NUM_LEVELS
      ensures this.base == base && fresh(levels) && levels.Length == NUM_LEVELS
      ensures forall l :: 0 <= l < NUM_LEVELS ==> levels[l] == LevelState({}, [])
    {
      this.base := base;
      levels := new LevelState[NUM_LEVELS](_ => LevelState({}, []));
    }

    method Apply(edit: FileEdit)
      requires levels.Length == NUM_LEVELS && LevelsInRange(edit)
      modifies levels
      ensures forall l :: 0 <= l < NUM_LEVELS ==> levels[l] == ApplyLevel(old(levels[l]), edit, l)
    {
      for i := 0 to |edit.deletedFiles|
        invariant forall l :: 0 <= l < NUM_LEVELS ==>
          levels[l] == LevelState(DeletedTo(edit.deletedFiles, i, l, old(levels[l].deleted)), old(levels[l].added))
      {
        var (level, number) := edit.deletedFiles[i];
        levels[level] := levels[level].(deleted := levels[level].deleted + {number});
      }
      ghost var mid := levels[..];
      for i := 0 to |edit.newFiles|
        invariant forall l :: 0 <= l < NUM_LEVELS ==> levels[l] == AddedTo(edit.newFiles, i, l, mid[l])
      {
        var (level, f) := edit.newFiles[i];
        levels[level] := LevelState(levels[level].deleted - {f.number}, InsertFile(levels[level].added, f));
      }
    }

    method SaveTo() returns (v: Levels)
      requires levels.Length == NUM_LEVELS && |base| == NUM_LEVELS
      ensures |v| == NUM_LEVELS
      ensures forall l :: 0 <= l < NUM_LEVELS ==> v[l] == SaveLevel(base[l], levels[l])
    {
      v := [];
      for level := 0 to NUM_LEVELS
        invariant |v| == level
        invariant forall l :: 0 <= l < level ==> v[l] == SaveLevel(base[l], levels[l])
      {
        var files := MergeAndKeep(base[level], levels[level]);
        v := v + [files];
      }
    }
  }

  method MaybeAddFile(files: seq<File>, deleted: set<nat>, f: File) returns (r: seq<File>)
    ensures r == files + Keep([f], deleted)
  {
    if f.number in deleted {
      r := files;
    } else {
      r := files + [f];
    }
  }

  /** One level of SaveTo: walk the added files, letting the base files before each go first. */
  method MergeAndKeep(baseFiles: seq<File>, st: LevelState) returns (out: seq<File>)
    ensures out == SaveLevel(baseFiles, st)
  {
    RestEnds(baseFiles, st);
    hide Rest, SaveLevel;
    out := [];
    var b := 0;
    for a := 0 to |st.added|
      invariant b <= |baseFiles|
      invariant SaveLevel(baseFiles, st) == out + Rest(baseFiles, st, b, a)
    {
      while b < |baseFiles| && !BySmallest(st.added[a], baseFiles[b])
        invariant b <= |baseFiles|
        invariant SaveLevel(baseFiles, st) == out + Rest(baseFiles, st, b, a)
      {
        BaseFirst(baseFiles, st, b, a);
        out := MaybeAddFile(out, st.deleted, baseFiles[b]);
        b := b + 1;
      }
      AddedFirst(baseFiles, st, b, a);
      out := MaybeAddFile(out, st.deleted, st.added[a]);
    }
    while b < |baseFiles|
      invariant b <= |baseFiles|
      invariant SaveLevel(baseFiles, st) == out + Rest(baseFiles, st, b, |st.added|)
    {
      BaseFirst(baseFiles, st, b, |st.added|);
      out := MaybeAddFile(out, st.deleted, baseFiles[b]);
      b := b + 1;
    }
  }

  /** What remains to be saved from base file `b` and added file `a` on. */
  function Rest(base: seq<File>, st: LevelState, b: nat, a: nat): seq<File>
    requires b <= |base| && a <= |st.added|
  {
    Keep(MergeFiles(base[b..], st.added[a..]), st.deleted)
  }

  lemma {:induction false} RestEnds(base: seq<File>, st: LevelState)
    ensures Rest(base, st, 0, 0) == SaveLevel(base, st)
    ensures Rest(base, st, |base|, |st.added|) == []
  {
    assert base[0..] == base && st.added[0..] == st.added;
  }

  lemma {:induction false} BaseFirst(base: seq<File>, st: LevelState, b: nat, a: nat)
    requires b < |base| && a <= |st.added|
    requires a < |st.added| ==> !BySmallest(st.added[a], base[b])
    ensures Rest(base, st, b, a) == Keep([base[b]], st.deleted) + Rest(base, st, b + 1, a)
  {
    assert base[b..] == [base[b]] + base[b + 1..];
    KeepHead(base[b], MergeFiles(base[b + 1..], st.added[a..]), st.deleted);
  }

  lemma {:induction false} AddedFirst(base: seq<File>, st: LevelState, b: nat, a: nat)
    requires b <= |base| && a < |st.added|
    requires b < |base| ==> BySmallest(st.added[a], base[b])
    ensures Rest(base, st, b, a) == Keep([st.added[a]], st.deleted) + Rest(base, st, b, a + 1)
  {
    assert st.added[a..] == [st.added[a]] + st.added[a + 1..];
    KeepHead(st.added[a], MergeFiles(base[b..], st.added[a + 1..]), st.deleted);
  }

  lemma {:induction false} KeepHead(f: File, fs: seq<File>, deleted: set<nat>)
    ensures Keep([f] + fs, deleted) == Keep([f], deleted) + Keep(fs, deleted)
  {
    assert ([f] + fs)[1..] == fs;
  }

  // ----- what a saved level holds ------------------------------------------

  lemma {:induction false} InsertFileMembers(fs: seq<File>, f: File)
    requires InOrder(fs)
    requires forall g :: g in fs && g.number == f.number ==> g == f
    ensures InOrder(InsertFile(fs, f))
    ensures forall g :: g in InsertFile(fs, f) <==> g == f || g in fs
  {
    if fs != [] {
      assert fs == [fs[0]] + fs[1..];
      if BySmallest(fs[0], f) {
        InsertFileMembers(fs[1..], f);
        var t := InsertFile(fs[1..], f);
        forall j | 0 <= j < |t| ensures BySmallest(fs[0], t[j]) {
          assert t[j] in t;
        }
      } else if BySmallest(f, fs[0]) {
      } else {
        assert fs[0].smallest == f.smallest && fs[0].number == f.number by {
          assert Compare(fs[0].smallest, f.smallest) == 0;
        }
      }
    }
  }

  lemma {:induction false} MergeMembers(base: seq<File>, added: seq<File>)
    requires InOrder(base) && InOrder(added)
    requires forall f, g :: f in base && g in added ==> BySmallest(f, g) || BySmallest(g, f)
    ensures InOrder(MergeFiles(base, added))
    ensures forall g :: g in MergeFiles(base, added) <==> g in base || g in added
    decreases |base| + |added|
  {
    if added != [] && base != [] {
      assert base == [base[0]] + base[1..];
      assert added == [added[0]] + added[1..];
      if BySmallest(added[0], base[0]) {
        MergeMembers(base, added[1..]);
        HeadFirst(added[0], MergeFiles(base, added[1..]));
      } else {
        assert base[0] in base && added[0] in added;
        MergeMembers(base[1..], added);
        HeadFirst(base[0], MergeFiles(base[1..], added));
      }
    }
  }

  lemma {:induction false} HeadFirst(f: File, t: seq<File>)
    requires InOrder(t) && forall g :: g in t ==> BySmallest(f, g)
    ensures InOrder([f] + t)
  {
    assert forall j :: 0 <= j < |t| ==> t[j] in t;
  }

  lemma {:induction false} KeepMembers(fs: seq<File>, deleted: set<nat>)
    requires InOrder(fs)
    ensures InOrder(Keep(fs, deleted))
    ensures forall g :: g in Keep(fs, deleted) <==> g in fs && g.number !in deleted
  {
    if fs != [] {
      assert fs == [fs[0]] + fs[1..];
      KeepMembers(fs[1..], deleted);
      forall g | g in Keep(fs[1..], deleted) ensures BySmallest(fs[0], g) {
        assert g in fs[1..];
      }
      HeadFirst(fs[0], Keep(fs[1..], deleted));
    }
  }

  /** A level is determined by its order and its members. */
  lemma {:induction false} OrderedFilesEqual(fs: seq<File>, gs: seq<File>)
    requires InOrder(fs) && InOrder(gs)
    requires forall f :: f in fs <==> f in gs
    ensures fs == gs
  {
    if fs == [] {
      assert forall k :: 0 <= k < |gs| ==> gs[k] in gs;
    } else {
      assert fs[0] in fs && gs != [] && gs[0] in gs;
      assert fs[0] == gs[0];
      assert fs == [fs[0]] + fs[1..] && gs == [gs[0]] + gs[1..];
      forall f ensures f in fs[1..] <==> f in gs[1..] {
        assert f in fs[1..] ==> f in fs && f != fs[0];
        assert f in gs[1..] ==> f in gs && f != gs[0];
      }
      OrderedFilesEqual(fs[1..], gs[1..]);
    }
  }

  // ----- one edit ----------------------------------------------------------

  /** A file number names one file: the rule NewFileNumber keeps. */
  ghost predicate NumbersIdentify(files: set<File>) {
    forall f, g :: f in files && g in files && f.number == g.number ==> f == g
  }

  ghost predicate Adds(fs: seq<(nat, File)>, n: nat, level: nat, f: File) {
    exists k :: 0 <= k < n <= |fs| && fs[k] == (level, f)
  }

  ghost predicate Deletes(ds: seq<(nat, nat)>, n: nat, level: nat, number: nat) {
    exists k :: 0 <= k < n <= |ds| && ds[k] == (level, number)
  }

  ghost predicate EditAdds(edit: FileEdit, level: nat, f: File) {
    Adds(edit.newFiles, |edit.newFiles|, level, f)
  }

  ghost predicate EditDeletes(edit: FileEdit, level: nat, number: nat) {
    Deletes(edit.deletedFiles, |edit.deletedFiles|, level, number)
  }

  lemma {:induction false} DeletedToMembers(ds: seq<(nat, nat)>, n: nat, level: nat, deleted: set<nat>)
    requires n <= |ds|
    ensures forall x :: x in DeletedTo(ds, n, level, deleted) <==> x in deleted || Deletes(ds, n, level, x)
  {
    if n > 0 {
      DeletedToMembers(ds, n - 1, level, deleted);
      forall x: nat ensures Deletes(ds, n, level, x) <==> Deletes(ds, n - 1, level, x) || ds[n - 1] == (level, x) {
      }
    }
  }

  lemma {:induction false} AddsStep(fs: seq<(nat, File)>, n: nat, level: nat, f: File)
    requires 0 < n <= |fs|
    ensures Adds(fs, n, level, f) <==> Adds(fs, n - 1, level, f) || fs[n - 1] == (level, f)
  {
  }

  /** Files of the universe, in order. */
  ghost predicate Known(fs: seq<File>, files: set<File>) {
    InOrder(fs) && forall f :: f in fs ==> f in files
  }

  lemma {:induction false} AddedToMembers(fs: seq<(nat, File)>, n: nat, level: nat, st: LevelState, files: set<File>)
    requires n <= |fs| && NumbersIdentify(files) && Known(st.added, files)
    requires forall f :: Adds(fs, n, level, f) ==> f in files
    ensures Known(AddedTo(fs, n, level, st).added, files)
    ensures forall f :: f in AddedTo(fs, n, level, st).added <==> f in st.added || Adds(fs, n, level, f)
    ensures forall f :: f in files ==>
              (f.number in AddedTo(fs, n, level, st).deleted <==> f.number in st.deleted && !Adds(fs, n, level, f))
  {
    if n > 0 {
      forall f ensures Adds(fs, n, level, f) <==> Adds(fs, n - 1, level, f) || fs[n - 1] == (level, f) {
        AddsStep(fs, n, level, f);
      }
      AddedToMembers(fs, n - 1, level, st, files);
      if fs[n - 1].0 == level {
        assert fs[n - 1] == (level, fs[n - 1].1);
        InsertFileMembers(AddedTo(fs, n - 1, level, st).added, fs[n - 1].1);
      }
    }
  }

  /** The files a builder state stands for. */
  ghost predicate Alive(st: LevelState, f: File) {
    f in st.added && f.number !in st.deleted
  }

  lemma {:induction false} ApplyLevelMembers(st: LevelState, edit: FileEdit, level: nat, files: set<File>)
    requires NumbersIdentify(files) && Known(st.added, files)
    requires forall f :: EditAdds(edit, level, f) ==> f in files
    ensures Known(ApplyLevel(st, edit, level).added, files)
    ensures forall f :: f in ApplyLevel(st, edit, level).added <==> f in st.added || EditAdds(edit, level, f)
    ensures forall f :: f in files ==>
              (f.number in ApplyLevel(st, edit, level).deleted <==>
               (f.number in st.deleted || EditDeletes(edit, level, f.number)) && !EditAdds(edit, level, f))
  {
    DeletedToMembers(edit.deletedFiles, |edit.deletedFiles|, level, st.deleted);
    AddedToMembers(edit.newFiles, |edit.newFiles|, level,
                   LevelState(DeletedTo(edit.deletedFiles, |edit.deletedFiles|, level, st.deleted), st.added), files);
  }

  lemma {:induction false} SaveLevelMembers(base: seq<File>, st: LevelState, files: set<File>)
    requires NumbersIdentify(files) && Known(base, files) && Known(st.added, files)
    requires forall f :: f in base ==> f !in st.added
    ensures Known(SaveLevel(base, st), files)
    ensures forall f :: f in SaveLevel(base, st) <==> (f in base || f in st.added) && f.number !in st.deleted
  {
    forall f, g | f in base && g in st.added ensures BySmallest(f, g) || BySmallest(g, f) {
      assert Compare(f.smallest, g.smallest) == 0 ==> f.number != g.number;
    }
    MergeMembers(base, st.added);
    KeepMembers(MergeFiles(base, st.added), st.deleted);
  }

  /** The level that LogAndApply installs for one edit. */
  function EditLevel(fs: seq<File>, edit: FileEdit, level: nat): seq<File> {
    SaveLevel(fs, ApplyLevel(LevelState({}, []), edit, level))
  }

  /** An edit only adds files the level does not hold yet, and never reuses a number. */
  ghost predicate EditFits(fs: seq<File>, edit: FileEdit, level: nat, files: set<File>) {
    forall f :: EditAdds(edit, level, f) ==> f in files && f !in fs
  }

  /** LogAndApply on one level: what was there and is not deleted, plus what is added. */
  lemma {:induction false} EditLevelMembers(fs: seq<File>, edit: FileEdit, level: nat, files: set<File>)
    requires NumbersIdentify(files) && Known(fs, files) && EditFits(fs, edit, level, files)
    ensures Known(EditLevel(fs, edit, level), files)
    ensures forall f :: f in EditLevel(fs, edit, level) <==>
              (f in fs && !EditDeletes(edit, level, f.number)) || EditAdds(edit, level, f)
  {
    var st := LevelState({}, []);
    ApplyLevelMembers(st, edit, level, files);
    SaveLevelMembers(fs, ApplyLevel(st, edit, level), files);
  }

  method LogAndApply(v: Levels, edit: FileEdit) returns (v': Levels)
    requires |v| == NUM_LEVELS && LevelsInRange(edit)
    ensures |v'| == NUM_LEVELS
    ensures forall l :: 0 <= l < NUM_LEVELS ==> v'[l] == EditLevel(v[l], edit, l)
  {
    var builder := new Builder(v);
    builder.Apply(edit);
    v' := builder.SaveTo();
  }

  // ----- replaying the manifest --------------------------------------------

  /** The level after installing the first `n` edits one at a time. */
  function LiveLevel(fs: seq<File>, edits: seq<FileEdit>, n: nat, level: nat): seq<File>
    requires n <= |edits|
  {
    if n == 0 then fs else EditLevel(LiveLevel(fs, edits, n - 1, level), edits[n - 1], level)
  }

  /** The builder's state for the level after absorbing the first `n` edits. */
  function ReplayState(st: LevelState, edits: seq<FileEdit>, n: nat, level: nat): LevelState
    requires n <= |edits|
  {
    if n == 0 then st else ApplyLevel(ReplayState(st, edits, n - 1, level), edits[n - 1], level)
  }

  /** Each of the first `n` edits fits the level it was applied to when it was logged. */
  ghost predicate HistoryFits(fs: seq<File>, edits: seq<FileEdit>, n: nat, level: nat, files: set<File>)
    requires n <= |edits|
  {
    forall k :: 0 <= k < n ==> EditFits(LiveLevel(fs, edits, k, level), edits[k], level, files)
  }

  lemma {:induction false} ReplayTracksLive(fs: seq<File>, st: LevelState, edits: seq<FileEdit>, n: nat, level: nat,
                                            files: set<File>)
    requires n <= |edits| && NumbersIdentify(files) && Known(fs, files) && Known(st.added, files)
    requires HistoryFits(fs, edits, n, level, files)
    requires forall f :: f in fs <==> Alive(st, f)
    ensures Known(LiveLevel(fs, edits, n, level), files)
    ensures Known(ReplayState(st, edits, n, level).added, files)
    ensures forall f :: f in LiveLevel(fs, edits, n, level) <==> Alive(ReplayState(st, edits, n, level), f)
  {
    hide EditLevel, ApplyLevel, Alive, NumbersIdentify, Known, EditFits;
    if n > 0 {
      ReplayTracksLive(fs, st, edits, n - 1, level, files);
      ReplayStep(LiveLevel(fs, edits, n - 1, level), ReplayState(st, edits, n - 1, level), edits[n - 1], level, files);
    }
  }

  lemma {:induction false} ReplayStep(fs: seq<File>, st: LevelState, edit: FileEdit, level: nat, files: set<File>)
    requires NumbersIdentify(files) && Known(fs, files) && Known(st.added, files)
    requires EditFits(fs, edit, level, files)
    requires forall f :: f in fs <==> Alive(st, f)
    ensures Known(EditLevel(fs, edit, level), files) && Known(ApplyLevel(st, edit, level).added, files)
    ensures forall f :: f in EditLevel(fs, edit, level) <==> Alive(ApplyLevel(st, edit, level), f)
  {
    EditLevelMembers(fs, edit, level, files);
    ApplyLevelMembers(st, edit, level, files);
  }

  /** WriteSnapshot: every file of the version as an added file. */
  ghost predicate IsSnapshot(edit: FileEdit, v: Levels) {
    && |v| == NUM_LEVELS && LevelsInRange(edit)
    && edit.deletedFiles == []
    && forall l, f :: 0 <= l < NUM_LEVELS ==> (EditAdds(edit, l, f) <==> f in v[l])
  }

  method WriteSnapshot(v: Levels) returns (edit: FileEdit)
    requires |v| == NUM_LEVELS
    ensures IsSnapshot(edit, v)
  {
    var files: seq<(nat, File)> := [];
    for level := 0 to NUM_LEVELS
      invariant forall i :: 0 <= i < |files| ==> files[i].0 < level && files[i].1 in v[files[i].0]
      invariant forall l, f :: 0 <= l < level && f in v[l] ==> (l, f) in files
    {
      for i := 0 to |v[level]|
        invariant forall k :: 0 <= k < |files| ==> files[k].0 <= level && files[k].1 in v[files[k].0]
        invariant forall l, f :: 0 <= l < level && f in v[l] ==> (l, f) in files
        invariant forall k :: 0 <= k < i ==> (level, v[level][k]) in files
      {
        files := files + [(level, v[level][i])];
      }
    }
    edit := FileEdit([], files);
    forall l, f | 0 <= l < NUM_LEVELS ensures EditAdds(edit, l, f) <==> f in v[l] {
      if EditAdds(edit, l, f) {
        var k :| 0 <= k < |files| && files[k] == (l, f);
      }
      if f in v[l] {
        assert (l, f) in files;
      }
    }
  }

  /** Recover: one builder over the empty version absorbs every record, then saves once. */
  method Recover(records: seq<FileEdit>) returns (v: Levels)
    requires forall i :: 0 <= i < |records| ==> LevelsInRange(records[i])
    ensures |v| == NUM_LEVELS
    ensures forall l :: 0 <= l < NUM_LEVELS ==>
              v[l] == SaveLevel([], ReplayState(LevelState({}, []), records, |records|, l))
  {
    var builder := new Builder(seq(NUM_LEVELS, _ => []));
    for i := 0 to |records|
      invariant forall l :: 0 <= l < NUM_LEVELS ==>
        builder.levels[l] == ReplayState(LevelState({}, []), records, i, l)
    {
      builder.Apply(records[i]);
    }
    v := builder.SaveTo();
  }

  // ----- when replay and history part ----------------------------------------

  lemma {:induction false} MergeCount(base: seq<File>, added: seq<File>, f: File)
    ensures multiset(MergeFiles(base, added))[f] == multiset(base)[f] + multiset(added)[f]
    decreases |base| + |added|
  {
    if added != [] && base != [] {
      assert base == [base[0]] + base[1..];
      assert added == [added[0]] + added[1..];
      if BySmallest(added[0], base[0]) {
        MergeCount(base, added[1..], f);
      } else {
        MergeCount(base[1..], added, f);
      }
    }
  }

  lemma {:induction false} KeepCount(fs: seq<File>, deleted: set<nat>, f: File)
    requires f.number !in deleted
    ensures multiset(Keep(fs, deleted))[f] == multiset(fs)[f]
  {
    if fs != [] {
      assert fs == [fs[0]] + fs[1..];
      KeepCount(fs[1..], deleted, f);
    }
  }

  lemma {:induction false} OrderedOnce(fs: seq<File>, f: File)
    requires InOrder(fs)
    ensures multiset(fs)[f] <= 1
  {
    if fs != [] {
      assert fs == [fs[0]] + fs[1..];
      OrderedOnce(fs[1..], f);
      if f in fs[1..] {
        var j :| 0 <= j < |fs[1..]| && fs[1..][j] == f;
        assert BySmallest(fs[0], fs[j + 1]);
        assert f != fs[0];
      }
    }
  }

  /** A file added to a level that holds it is there twice. */
  lemma {:induction false} MisfitIsTwice(fs: seq<File>, edit: FileEdit, level: nat, files: set<File>, f: File)
    requires NumbersIdentify(files) && (forall g :: EditAdds(edit, level, g) ==> g in files)
    requires EditAdds(edit, level, f) && f in fs
    ensures !InOrder(EditLevel(fs, edit, level))
  {
    var st := ApplyLevel(LevelState({}, []), edit, level);
    ApplyLevelMembers(LevelState({}, []), edit, level, files);
    assert f in st.added && f.number !in st.deleted;
    MergeCount(fs, st.added, f);
    KeepCount(MergeFiles(fs, st.added), st.deleted, f);
    if InOrder(EditLevel(fs, edit, level)) {
      OrderedOnce(EditLevel(fs, edit, level), f);
    }
  }

  /** All files that the edits add to the level. */
  ghost predicate AddsKnown(edits: seq<FileEdit>, level: nat, files: set<File>) {
    forall n, f :: 0 <= n < |edits| && EditAdds(edits[n], level, f) ==> f in files
  }

  /** Replaying the first `n` edits gives the level that installing them one at a time gave. */
  ghost predicate ReplayAgrees(fs: seq<File>, st: LevelState, edits: seq<FileEdit>, level: nat, n: nat)
    requires n <= |edits|
  {
    SaveLevel([], ReplayState(st, edits, n, level)) == LiveLevel(fs, edits, n, level)
  }

  lemma {:induction false} FittingAgrees(fs: seq<File>, st: LevelState, edits: seq<FileEdit>, level: nat, n: nat,
                                         files: set<File>)
    requires NumbersIdentify(files) && Known(fs, files) && Known(st.added, files)
    requires forall f :: f in fs <==> Alive(st, f)
    requires n <= |edits| && HistoryFits(fs, edits, n, level, files)
    ensures ReplayAgrees(fs, st, edits, level, n)
  {
    ReplayTracksLive(fs, st, edits, n, level, files);
    var final := ReplayState(st, edits, n, level);
    SaveLevelMembers([], final, files);
    OrderedFilesEqual(SaveLevel([], final), LiveLevel(fs, edits, n, level));
  }

  /** An edit that does not fit leaves a level that no replay gives. */
  lemma {:induction false} MisfitParts(fs: seq<File>, st: LevelState, edits: seq<FileEdit>, level: nat, n: nat,
                                       files: set<File>)
    requires NumbersIdentify(files) && Known(st.added, files) && AddsKnown(edits, level, files)
    requires n < |edits| && !EditFits(LiveLevel(fs, edits, n, level), edits[n], level, files)
    ensures !ReplayAgrees(fs, st, edits, level, n + 1)
  {
    hide EditLevel, ApplyLevel, SaveLevel, NumbersIdentify;
    var live := LiveLevel(fs, edits, n, level);
    var f :| EditAdds(edits[n], level, f) && f in live;
    MisfitIsTwice(live, edits[n], level, files, f);
    ReplayKnown(st, edits, n + 1, level, files);
    SaveLevelMembers([], ReplayState(st, edits, n + 1, level), files);
  }

  lemma {:induction false} ReplayKnown(st: LevelState, edits: seq<FileEdit>, n: nat, level: nat, files: set<File>)
    requires NumbersIdentify(files) && Known(st.added, files) && AddsKnown(edits, level, files) && n <= |edits|
    ensures Known(ReplayState(st, edits, n, level).added, files)
  {
    if n > 0 {
      ReplayKnown(st, edits, n - 1, level, files);
      ApplyLevelMembers(ReplayState(st, edits, n - 1, level), edits[n - 1], level, files);
    }
  }

  lemma {:induction false} SnapshotState(v: Levels, snapshot: FileEdit, level: nat, files: set<File>)
    requires IsSnapshot(snapshot, v) && level < NUM_LEVELS
    requires NumbersIdentify(files) && Known(v[level], files)
    ensures var st := ApplyLevel(LevelState({}, []), snapshot, level);
            Known(st.added, files) && forall f :: f in v[level] <==> Alive(st, f)
  {
    ApplyLevelMembers(LevelState({}, []), snapshot, level, files);
  }

  lemma {:induction false} ShiftedAgrees(fs: seq<File>, st: LevelState, first: FileEdit, edits: seq<FileEdit>,
                                         level: nat, n: nat)
    requires n <= |edits|
    ensures ReplayAgrees(fs, ApplyLevel(st, first, level), edits, level, n) <==>
            SaveLevel([], ReplayState(st, [first] + edits, n + 1, level)) == LiveLevel(fs, edits, n, level)
  {
    hide SaveLevel, LiveLevel, ReplayState, ApplyLevel;
    ReplayShift(st, first, edits, n, level);
  }

  lemma {:induction false} AgreesIff(fs: seq<File>, st: LevelState, edits: seq<FileEdit>, level: nat, files: set<File>)
    requires NumbersIdentify(files) && Known(fs, files) && Known(st.added, files) && AddsKnown(edits, level, files)
    requires forall f :: f in fs <==> Alive(st, f)
    ensures (forall n :: 0 <= n <= |edits| ==> ReplayAgrees(fs, st, edits, level, n)) <==>
            HistoryFits(fs, edits, |edits|, level, files)
  {
    hide ReplayAgrees, EditFits, Alive, NumbersIdentify, Known, AddsKnown, LiveLevel;
    if HistoryFits(fs, edits, |edits|, level, files) {
      forall n | 0 <= n <= |edits| ensures ReplayAgrees(fs, st, edits, level, n) {
        FittingAgrees(fs, st, edits, level, n, files);
      }
    } else {
      var n :| 0 <= n < |edits| && !EditFits(LiveLevel(fs, edits, n, level), edits[n], level, files);
      MisfitParts(fs, st, edits, level, n, files);
    }
  }

  /** Replaying a snapshot record and the edits after it gives, at every point, the very list of files that installing
      the edits one at a time gave, exactly if no edit adds a file to a level that holds it. */
  lemma {:induction false} ReplayEqualsHistoryIff(v: Levels, snapshot: FileEdit, edits: seq<FileEdit>, level: nat,
                                                  files: set<File>)
    requires IsSnapshot(snapshot, v) && level < NUM_LEVELS
    requires NumbersIdentify(files) && Known(v[level], files) && AddsKnown(edits, level, files)
    ensures (forall n :: 0 <= n <= |edits| ==>
               SaveLevel([], ReplayState(LevelState({}, []), [snapshot] + edits, n + 1, level)) ==
               LiveLevel(v[level], edits, n, level)) <==>
            HistoryFits(v[level], edits, |edits|, level, files)
  {
    hide SaveLevel, LiveLevel, ReplayState, ApplyLevel, ReplayAgrees, HistoryFits, Alive, NumbersIdentify, Known,
      AddsKnown;
    var empty := LevelState({}, []);
    var st := ApplyLevel(empty, snapshot, level);
    SnapshotState(v, snapshot, level, files);
    AgreesIff(v[level], st, edits, level, files);
    if HistoryFits(v[level], edits, |edits|, level, files) {
      forall n | 0 <= n <= |edits|
        ensures SaveLevel([], ReplayState(empty, [snapshot] + edits, n + 1, level)) == LiveLevel(v[level], edits, n, level)
      {
        assert ReplayAgrees(v[level], st, edits, level, n);
        ShiftedAgrees(v[level], empty, snapshot, edits, level, n);
      }
    } else {
      var n :| 0 <= n <= |edits| && !ReplayAgrees(v[level], st, edits, level, n);
      ShiftedAgrees(v[level], empty, snapshot, edits, level, n);
    }
  }

  /** Why the edits must fit: adding a file to the level that holds it already installs it
      twice, while replay keeps one copy. */
  lemma {:induction false} ReAddedFileDiverges(f: File)
    ensures EditLevel([f], FileEdit([], [(1, f)]), 1) == [f, f]
    ensures SaveLevel([], ReplayState(LevelState({}, []), [FileEdit([], [(1, f)]), FileEdit([], [(1, f)])], 2, 1)) == [f]
  {
    var edit := FileEdit([], [(1, f)]);
    var empty := LevelState({}, []);
    assert AddedTo(edit.newFiles, 1, 1, empty) == LevelState({}, [f]);
    assert AddedTo(edit.newFiles, 1, 1, LevelState({}, [f])) == LevelState({}, [f]);
    assert ApplyLevel(empty, edit, 1) == LevelState({}, [f]);
    assert MergeFiles([f], [f]) == [f] + MergeFiles([], [f]);
    assert Keep([f, f], {}) == [f] + Keep([f], {});
    assert ReplayState(empty, [edit, edit], 1, 1) == LevelState({}, [f]);
    assert ReplayState(empty, [edit, edit], 2, 1) == LevelState({}, [f]);
  }

  lemma {:induction false} ReplayShift(st: LevelState, first: FileEdit, edits: seq<FileEdit>, n: nat, level: nat)
    requires n <= |edits|
    ensures ReplayState(st, [first] + edits, n + 1, level) == ReplayState(ApplyLevel(st, first, level), edits, n, level)
  {
    if n > 0 {
      ReplayShift(st, first, edits, n - 1, level);
      assert ([first] + edits)[n] == edits[n - 1];
    }
  }
}
