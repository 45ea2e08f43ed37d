/** Installing a flush, a moved file or a compaction's outputs keeps the level order
    (db/db_impl.cc: CompactMemTable, BackgroundCompaction, InstallCompactionResults).
 */
module Install {
  import opened DbFormat
  import opened Version
  import opened CompactionInputs
  import opened CompactionSetup
  import opened CompactionWork
  import opened CompactionReads
  import opened VersionBuilder

  /** Entries of the level's files that are not inputs. */
  ghost function LeftOut(fs: seq<File>, ins: seq<File>): set<Entry> {
    set f, e | f in fs && f !in ins && e in f.entries :: e
  }

  ghost predicate NumberIn(fs: seq<File>, number: nat) {
    exists f :: f in fs && f.number == number
  }

  /** The edit that replaces `inputs0` at `level` and `inputs1` below it by `outputs` below it. */
  ghost predicate Replaces(edit: FileEdit, level: nat, inputs0: seq<File>, inputs1: seq<File>, outputs: seq<File>) {
    && LevelsInRange(edit)
    && (forall l, n :: EditDeletes(edit, l, n) <==>
                         (l == level && NumberIn(inputs0, n)) || (l == level + 1 && NumberIn(inputs1, n)))
    && (forall l, f :: EditAdds(edit, l, f) <==> l == level + 1 && f in outputs)
  }

  /** `v'` is `v` after that edit. */
  ghost predicate Replaced(v: Levels, v': Levels, level: nat, inputs0: seq<File>, inputs1: seq<File>,
                           outputs: seq<File>) {
    && |v| == |v'| == NUM_LEVELS && level + 1 < NUM_LEVELS
    && (forall l :: 0 <= l < NUM_LEVELS ==> InOrder(v'[l]))
    && (forall l :: 0 <= l < NUM_LEVELS && l != level && l != level + 1 ==> v'[l] == v[l])
    && (forall f :: f in v'[level] <==> f in v[level] && f !in inputs0)
    && (forall f :: f in v'[level + 1] <==> (f in v[level + 1] && f !in inputs1) || f in outputs)
  }

  ghost predicate AllKnown(v: Levels, files: set<File>) {
    NumbersIdentify(files) && forall l :: 0 <= l < |v| ==> Known(v[l], files)
  }

  ghost predicate Applied(v: Levels, v': Levels, edit: FileEdit) {
    |v| == |v'| == NUM_LEVELS && forall l :: 0 <= l < NUM_LEVELS ==> v'[l] == EditLevel(v[l], edit, l)
  }

  /** The edit does what Replaced says. */
  lemma {:induction false} ReplaceFiles(v: Levels, v': Levels, edit: FileEdit, level: nat, inputs0: seq<File>,
                                        inputs1: seq<File>,
                     outputs: seq<File>, files: set<File>)
    requires AllKnown(v, files) && Applied(v, v', edit) && level + 1 < NUM_LEVELS
    requires Replaces(edit, level, inputs0, inputs1, outputs)
    requires forall f :: f in inputs0 ==> f in v[level]
    requires forall f :: f in inputs1 ==> f in v[level + 1]
    requires forall f :: f in outputs ==> f in files && f !in v[level + 1]
    ensures Replaced(v, v', level, inputs0, inputs1, outputs)
    ensures AllKnown(v', files)
  {
    forall l | 0 <= l < NUM_LEVELS
      ensures Known(v'[l], files)
      ensures l != level && l != level + 1 ==> v'[l] == v[l]
      ensures forall f :: f in v'[l] <==> (f in v[l] && !EditDeletes(edit, l, f.number)) || EditAdds(edit, l, f)
    {
      EditLevelMembers(v[l], edit, l, files);
      if l != level && l != level + 1 {
        OrderedFilesEqual(v'[l], v[l]);
      }
    }
    forall f | f in v[level] ensures NumberIn(inputs0, f.number) <==> f in inputs0 {
      SameNumber(v[level], inputs0, f, files);
    }
    forall f | f in v[level + 1] ensures NumberIn(inputs1, f.number) <==> f in inputs1 {
      SameNumber(v[level + 1], inputs1, f, files);
    }
  }

  lemma {:induction false} SameNumber(fs: seq<File>, ins: seq<File>, f: File, files: set<File>)
    requires NumbersIdentify(files) && Known(fs, files) && f in fs
    requires forall g :: g in ins ==> g in fs
    ensures NumberIn(ins, f.number) <==> f in ins
  {
  }

  // ----- the parts of the database around a compaction ----------------------

  /** `rest` is what lies above the files: the memtables. */
  ghost function PartsOf(rest: set<Entry>, v: Levels, level: nat, inputs0: seq<File>, inputs1: seq<File>): Parts
    requires level + 1 < |v|
  {
    Parts(rest + LevelEntries(v, 0, level) + LeftOut(v[level], inputs0),
          EntrySet(inputs0) + EntrySet(inputs1),
          LeftOut(v[level + 1], inputs1),
          LevelEntries(v, level + 2, |v|))
  }

  lemma {:induction false} PartsCover(rest: set<Entry>, v: Levels, level: nat, inputs0: seq<File>, inputs1: seq<File>)
    requires level + 1 < |v|
    requires forall f :: f in inputs0 ==> f in v[level]
    requires forall f :: f in inputs1 ==> f in v[level + 1]
    ensures PartsOf(rest, v, level, inputs0, inputs1).All() == rest + AllEntries(v)
  {
    var p := PartsOf(rest, v, level, inputs0, inputs1);
    forall e | e in AllEntries(v) ensures e in p.All() {
      var l, f :| 0 <= l < |v| && f in v[l] && e in f.entries;
    }
    forall e | e in p.All() ensures e in rest + AllEntries(v) {
      if f :| f in inputs0 && e in f.entries {
        assert f in v[level];
      }
      if f :| f in inputs1 && e in f.entries {
        assert f in v[level + 1];
      }
    }
  }

  /** After the replacement the inputs' entries are gone and the outputs' are there. */
  lemma {:induction false} ReplacedEntries(rest: set<Entry>, v: Levels, v': Levels, level: nat, inputs0: seq<File>,
                        inputs1: seq<File>, outputs: seq<File>)
    requires Replaced(v, v', level, inputs0, inputs1, outputs)
    ensures var p := PartsOf(rest, v, level, inputs0, inputs1);
            rest + AllEntries(v') == p.newer + EntrySet(outputs) + p.left + p.deeper
  {
    var p := PartsOf(rest, v, level, inputs0, inputs1);
    var after := p.newer + EntrySet(outputs) + p.left + p.deeper;
    forall e | e in AllEntries(v') ensures e in after {
      var l, f :| 0 <= l < |v'| && f in v'[l] && e in f.entries;
    }
    forall e | e in after && e !in rest ensures e in AllEntries(v') {
      if e in EntrySet(outputs) {
        var f :| f in outputs && e in f.entries;
        assert f in v'[level + 1];
      } else if e in LeftOut(v[level], inputs0) {
        var f :| f in v[level] && f !in inputs0 && e in f.entries;
        assert f in v'[level];
      } else if e in p.left {
        var f :| f in v[level + 1] && f !in inputs1 && e in f.entries;
        assert f in v'[level + 1];
      } else {
        var l, f :| 0 <= l < |v| && l != level && l != level + 1 && f in v[l] && e in f.entries;
        assert v'[l] == v[l];
      }
    }
  }

  // ----- key ranges --------------------------------------------------------

  predicate Apart(f: File, g: File) {
    Less(f.largest, g.smallest) || Less(g.largest, f.smallest)
  }

  ghost predicate PairwiseApart(fs: seq<File>) {
    forall f, g :: f in fs && g in fs && f != g ==> Apart(f, g)
  }

  lemma {:induction false} DisjointFromApart(fs: seq<File>)
    requires RangesOk(fs) && InOrder(fs) && PairwiseApart(fs)
    ensures Disjoint(fs)
  {
    forall i, j | 0 <= i < j < |fs| ensures Less(fs[i].largest, fs[j].smallest) {
      assert BySmallest(fs[i], fs[j]);
      assert fs[i] in fs && fs[j] in fs;
      assert Apart(fs[i], fs[j]);
    }
  }

  lemma {:induction false} ApartFromDisjoint(fs: seq<File>, f: File, g: File)
    requires Disjoint(fs) && f in fs && g in fs && f != g
    ensures Apart(f, g)
  {
    var i :| 0 <= i < |fs| && fs[i] == f;
    var j :| 0 <= j < |fs| && fs[j] == g;
  }

  /** The file lies wholly before, or wholly after, all the given entries. */
  ghost predicate Beside(g: File, es: set<Entry>) {
    (forall e :: e in es ==> Less(g.largest, e.key)) || (forall e :: e in es ==> Less(e.key, g.smallest))
  }

  /** A file left out at the output level lies beside the whole compaction. */
  lemma {:induction false} LeftOutIsBeside(v: Levels, level: nat, inputs0: seq<File>, inputs1: seq<File>, g: File)
    requires LevelOrder(v) && WellChosen(v, level, inputs0, inputs1)
    requires g in v[level + 1] && g !in inputs1
    ensures Beside(g, EntrySet(inputs0) + EntrySet(inputs1))
  {
    var next := v[level + 1];
    var lo, hi :| IsRange(inputs0, lo, hi) && inputs1 == Overlapping(next, Some(lo.user), Some(hi.user));
    GoodInputsInLevel(level, v[level], inputs0);
    forall e | e in EntrySet(inputs0) + EntrySet(inputs1)
      ensures g.largest.user < lo.user ==> Less(g.largest, e.key)
      ensures hi.user < g.smallest.user ==> Less(e.key, g.smallest)
    {
      if e in EntrySet(inputs0) {
        var f :| f in inputs0 && e in f.entries;
        WithinRange(v[level], f, e, inputs0, lo, hi);
      } else {
        var f :| f in inputs1 && e in f.entries;
        ApartFromDisjoint(next, f, g);
        BesideOverlapping(next, f, g, e, lo, hi);
      }
    }
  }

  lemma {:induction false} WithinRange(fs: seq<File>, f: File, e: Entry, ins: seq<File>, lo: InternalKey,
                                       hi: InternalKey)
    requires FilesOk(fs) && f in fs && f in ins && e in f.entries && IsRange(ins, lo, hi)
    ensures lo.user <= e.key.user <= hi.user
  {
    EntryInRange(f, e);
  }

  lemma {:induction false} BesideOverlapping(fs: seq<File>, f: File, g: File, e: Entry, lo: InternalKey,
                                             hi: InternalKey)
    requires FilesOk(fs) && f in fs && g in fs && e in f.entries && Apart(f, g)
    requires Overlaps(f, Some(lo.user), Some(hi.user))
    ensures g.largest.user < lo.user ==> Less(g.largest, e.key)
    ensures hi.user < g.smallest.user ==> Less(e.key, g.smallest)
  {
    EntryInRange(f, e);
    EntryInRange(g, g.entries[0]);
  }

  lemma {:induction false} BesideIsApart(g: File, o: File, es: set<Entry>)
    requires Beside(g, es) && FileOk(o) && forall e :: e in o.entries ==> e in es
    ensures Apart(g, o)
  {
    assert o.entries[0] in o.entries && o.entries[|o.entries| - 1] in o.entries;
  }

  // ----- the order is kept -------------------------------------------------

  lemma {:induction false} NumberedSubset(fs: seq<File>, gs: seq<File>)
    requires NumberedByAge(fs) && InOrder(gs) && forall g :: g in gs ==> g in fs
    ensures NumberedByAge(gs)
  {
    forall i, j | 0 <= i < |gs| && 0 <= j < |gs| && i != j
      ensures gs[i].number != gs[j].number && (gs[i].number > gs[j].number ==> NewerThan(gs[i], gs[j]))
    {
      assert i < j ==> BySmallest(gs[i], gs[j]);
      assert j < i ==> BySmallest(gs[j], gs[i]);
      assert gs[i] in gs && gs[j] in gs;
      var a :| 0 <= a < |fs| && fs[a] == gs[i];
      var b :| 0 <= b < |fs| && fs[b] == gs[j];
    }
  }

  lemma {:induction false} FilesOkMembers(fs: seq<File>)
    requires forall f :: f in fs ==> FileOk(f)
    ensures FilesOk(fs)
  {
    assert forall i :: 0 <= i < |fs| ==> fs[i] in fs;
  }

  /** The outputs hold only entries of the inputs, in files of their own ranges. */
  ghost predicate GoodOutputs(inputs0: seq<File>, inputs1: seq<File>, outputs: seq<File>) {
    && FilesOk(outputs) && PairwiseApart(outputs)
    && EntrySet(outputs) <= EntrySet(inputs0) + EntrySet(inputs1)
  }

  lemma {:induction false} ReplacedLevelsDisjoint(v: Levels, v': Levels, level: nat, inputs0: seq<File>,
                                                  inputs1: seq<File>, outputs: seq<File>, l: nat)
    requires LevelOrder(v) && WellChosen(v, level, inputs0, inputs1)
    requires Replaced(v, v', level, inputs0, inputs1, outputs) && GoodOutputs(inputs0, inputs1, outputs)
    requires l < NUM_LEVELS
    ensures FilesOk(v'[l])
    ensures l > 0 ==> Disjoint(v'[l])
  {
    ReplacedMembers(v, v', level, inputs0, inputs1, outputs, l);
    forall f | f in v'[l] ensures FileOk(f) {
      assert f in v[l] || f in outputs;
    }
    FilesOkMembers(v'[l]);
    FilesHaveRanges(v'[l]);
    if l > 0 {
      ReplacedApart(v, v', level, inputs0, inputs1, outputs, l);
      DisjointFromApart(v'[l]);
    }
  }

  lemma {:induction false} ReplacedMembers(v: Levels, v': Levels, level: nat, inputs0: seq<File>,
                                           inputs1: seq<File>, outputs: seq<File>, l: nat)
    requires Replaced(v, v', level, inputs0, inputs1, outputs) && l < NUM_LEVELS
    ensures |v| == |v'| == NUM_LEVELS
    ensures forall f :: f in v'[l] ==> f in v[l] || (l == level + 1 && f in outputs)
    ensures forall f :: f in v'[l] && l == level + 1 && f !in outputs ==> f in v[l] && f !in inputs1
    ensures InOrder(v'[l])
  {
  }

  lemma {:induction false} ReplacedApart(v: Levels, v': Levels, level: nat, inputs0: seq<File>,
                                         inputs1: seq<File>, outputs: seq<File>, l: nat)
    requires LevelOrder(v) && WellChosen(v, level, inputs0, inputs1)
    requires Replaced(v, v', level, inputs0, inputs1, outputs) && GoodOutputs(inputs0, inputs1, outputs)
    requires 0 < l < NUM_LEVELS
    ensures PairwiseApart(v'[l])
  {
    assert |v'| == NUM_LEVELS;
    hide LevelOrder, WellChosen, Replaced, GoodOutputs, Apart;
    forall f, g | f in v'[l] && g in v'[l] && f != g ensures Apart(f, g) {
      ReplacedPairApart(v, v', level, inputs0, inputs1, outputs, l, f, g);
    }
  }

  lemma {:induction false} DisjointLevel(v: Levels, l: nat)
    requires LevelOrder(v) && 0 < l < NUM_LEVELS
    ensures |v| == NUM_LEVELS && Disjoint(v[l])
  {
  }

  lemma {:induction false} OutputsAreApart(inputs0: seq<File>, inputs1: seq<File>, outputs: seq<File>)
    requires GoodOutputs(inputs0, inputs1, outputs)
    ensures PairwiseApart(outputs)
  {
  }

  lemma {:induction false} ReplacedPairApart(v: Levels, v': Levels, level: nat, inputs0: seq<File>,
                                             inputs1: seq<File>, outputs: seq<File>, l: nat, f: File, g: File)
    requires LevelOrder(v) && WellChosen(v, level, inputs0, inputs1)
    requires Replaced(v, v', level, inputs0, inputs1, outputs) && GoodOutputs(inputs0, inputs1, outputs)
    requires 0 < l < NUM_LEVELS && f in v'[l] && g in v'[l] && f != g
    ensures Apart(f, g)
  {
    hide LevelOrder, WellChosen, Replaced, GoodOutputs, Apart, Disjoint, InOrder;
    ReplacedMembers(v, v', level, inputs0, inputs1, outputs, l);
    DisjointLevel(v, l);
    OutputsAreApart(inputs0, inputs1, outputs);
    if l == level + 1 && f in outputs && g !in outputs {
      LeftOutApartFromOutput(v, level, inputs0, inputs1, outputs, g, f);
    } else if l == level + 1 && f !in outputs && g in outputs {
      LeftOutApartFromOutput(v, level, inputs0, inputs1, outputs, f, g);
    } else if !(l == level + 1 && f in outputs) {
      ApartFromDisjoint(v[l], f, g);
    }
  }

  lemma {:induction false} LeftOutApartFromOutput(v: Levels, level: nat, inputs0: seq<File>, inputs1: seq<File>,
                                                  outputs: seq<File>,
                               g: File, o: File)
    requires LevelOrder(v) && WellChosen(v, level, inputs0, inputs1) && GoodOutputs(inputs0, inputs1, outputs)
    requires g in v[level + 1] && g !in inputs1 && o in outputs
    ensures Apart(g, o) && Apart(o, g)
  {
    LeftOutIsBeside(v, level, inputs0, inputs1, g);
    forall e | e in o.entries ensures e in EntrySet(inputs0) + EntrySet(inputs1) {
      assert e in EntrySet(outputs);
    }
    BesideIsApart(g, o, EntrySet(inputs0) + EntrySet(inputs1));
  }

  // ----- ages --------------------------------------------------------------

  lemma {:induction false} AllNewerIffLevels(fs: seq<File>, gs: seq<File>)
    ensures LevelNewerThan(fs, gs) <==> AllNewer(EntrySet(fs), EntrySet(gs))
  {
    if LevelNewerThan(fs, gs) {
      forall e, x | e in EntrySet(fs) && x in EntrySet(gs) && e.key.user == x.key.user
        ensures e.key.sequence > x.key.sequence
      {
        NewerBetween(fs, gs, e, x);
      }
    }
    if AllNewer(EntrySet(fs), EntrySet(gs)) {
      forall i, j | 0 <= i < |fs| && 0 <= j < |gs| ensures NewerThan(fs[i], gs[j]) {
        forall e, x | e in fs[i].entries && x in gs[j].entries && e.key.user == x.key.user
          ensures e.key.sequence > x.key.sequence
        {
          assert e in EntrySet(fs) && x in EntrySet(gs);
        }
      }
    }
  }

  lemma {:induction false} LevelsNewer(v: Levels, l: nat, m: nat)
    requires LevelsByAge(v) && l < m < |v|
    ensures AllNewer(EntrySet(v[l]), EntrySet(v[m]))
  {
    AllNewerIffLevels(v[l], v[m]);
  }

  lemma {:induction false} LeavesNewerEntries(fs: seq<File>, ins: seq<File>)
    requires LeavesNewer(fs, ins)
    ensures AllNewer(LeftOut(fs, ins), EntrySet(ins))
  {
    forall e, x | e in LeftOut(fs, ins) && x in EntrySet(ins) && e.key.user == x.key.user
      ensures e.key.sequence > x.key.sequence
    {
      var g :| g in fs && g !in ins && e in g.entries;
      var f :| f in ins && x in f.entries;
      assert NewerThan(g, f);
    }
  }

  lemma {:induction false} SubsetOfLevel(fs: seq<File>, ins: seq<File>)
    ensures LeftOut(fs, ins) <= EntrySet(fs)
    ensures (forall f :: f in ins ==> f in fs) ==> EntrySet(ins) <= EntrySet(fs)
  {
  }

  lemma {:induction false} LevelInAll(v: Levels, l: nat)
    requires l < |v|
    ensures EntrySet(v[l]) <= AllEntries(v)
  {
  }

  /** What stays at the level is newer than everything compacted. */
  lemma {:induction false} LeftOutIsNewer(v: Levels, level: nat, inputs0: seq<File>, inputs1: seq<File>)
    requires LevelOrder(v) && UniqueSequences(AllEntries(v)) && WellChosen(v, level, inputs0, inputs1)
    ensures AllNewer(LeftOut(v[level], inputs0), EntrySet(inputs0) + EntrySet(inputs1))
  {
    LevelInAll(v, level);
    SubsetUnique(EntrySet(v[level]), AllEntries(v));
    ClosedInputsLeaveNewer(level, v[level], inputs0);
    LeavesNewerEntries(v[level], inputs0);
    SubsetOfLevel(v[level], inputs0);
    SubsetOfLevel(v[level + 1], inputs1);
    LevelsNewer(v, level, level + 1);
    var left := LeftOut(v[level], inputs0);
    AllNewerMonotone(EntrySet(v[level]), EntrySet(v[level + 1]), left, EntrySet(inputs1));
    AllNewerUnion(left, EntrySet(inputs0), EntrySet(inputs1));
  }

  /** Where the entries of each new level come from. */
  lemma {:induction false} ReplacedOrigin(v: Levels, v': Levels, level: nat, inputs0: seq<File>, inputs1: seq<File>,
                       outputs: seq<File>, l: nat)
    requires Replaced(v, v', level, inputs0, inputs1, outputs) && GoodOutputs(inputs0, inputs1, outputs)
    requires WellChosen(v, level, inputs0, inputs1) && l < NUM_LEVELS
    ensures l != level + 1 ==> EntrySet(v'[l]) <= EntrySet(v[l])
    ensures l == level ==> EntrySet(v'[l]) == LeftOut(v[level], inputs0)
    ensures l == level + 1 ==> EntrySet(v'[l]) <= EntrySet(v[level + 1]) + EntrySet(inputs0)
    ensures EntrySet(inputs0) <= EntrySet(v[level]) && EntrySet(inputs1) <= EntrySet(v[level + 1])
  {
    GoodInputsInLevel(level, v[level], inputs0);
    forall e | e in EntrySet(v'[l])
      ensures l == level + 1 ==> e in EntrySet(v[level + 1]) + EntrySet(inputs0)
    {
      var f :| f in v'[l] && e in f.entries;
      if l == level + 1 && f in outputs {
        assert e in EntrySet(outputs);
        if e in EntrySet(inputs1) {
          var g :| g in inputs1 && e in g.entries;
          assert g in v[level + 1];
        }
      }
    }
  }

  lemma {:induction false} AllNewerMonotone(a: set<Entry>, b: set<Entry>, a': set<Entry>, b': set<Entry>)
    requires AllNewer(a, b) && a' <= a && b' <= b
    ensures AllNewer(a', b')
  {
  }

  lemma {:induction false} AllNewerUnion(a: set<Entry>, b: set<Entry>, c: set<Entry>)
    ensures AllNewer(a, b) && AllNewer(a, c) ==> AllNewer(a, b + c)
    ensures AllNewer(a, c) && AllNewer(b, c) ==> AllNewer(a + b, c)
  {
  }

  lemma {:induction false} ReplacedByAge(v: Levels, v': Levels, level: nat, inputs0: seq<File>, inputs1: seq<File>,
                      outputs: seq<File>, l: nat, m: nat)
    requires LevelOrder(v) && UniqueSequences(AllEntries(v)) && WellChosen(v, level, inputs0, inputs1)
    requires Replaced(v, v', level, inputs0, inputs1, outputs) && GoodOutputs(inputs0, inputs1, outputs)
    requires l < m < NUM_LEVELS
    ensures AllNewer(EntrySet(v'[l]), EntrySet(v'[m]))
  {
    OrderByAge(v);
    hide LevelOrder, LevelsByAge, Replaced, WellChosen, GoodOutputs, EntrySet, AllNewer, UniqueSequences, AllEntries,
      LeftOut;
    ChosenLevel(v, level, inputs0, inputs1);
    ReplacedOrigin(v, v', level, inputs0, inputs1, outputs, l);
    ReplacedOrigin(v, v', level, inputs0, inputs1, outputs, m);
    LevelsNewer(v, l, m);
    var above, below := EntrySet(v[level]), EntrySet(v[level + 1]);
    if m == level + 1 && l < level {
      LevelsNewer(v, l, level);
      AllNewerUnion(EntrySet(v[l]), below, above);
      AllNewerMonotone(EntrySet(v[l]), below + above, EntrySet(v'[l]), EntrySet(v'[m]));
    } else if m == level + 1 {
      LeftOutIsNewer(v, level, inputs0, inputs1);
      AllNewerMonotone(above, below, EntrySet(v'[l]), below);
      AllNewerMonotone(EntrySet(v'[l]), EntrySet(inputs0) + EntrySet(inputs1), EntrySet(v'[l]), EntrySet(inputs0));
      AllNewerUnion(EntrySet(v'[l]), below, EntrySet(inputs0));
      AllNewerMonotone(EntrySet(v'[l]), below + EntrySet(inputs0), EntrySet(v'[l]), EntrySet(v'[m]));
    } else if l == level + 1 {
      LevelsNewer(v, level, m);
      AllNewerUnion(below, above, EntrySet(v[m]));
      AllNewerMonotone(below + above, EntrySet(v[m]), EntrySet(v'[l]), EntrySet(v'[m]));
    } else {
      AllNewerMonotone(EntrySet(v[l]), EntrySet(v[m]), EntrySet(v'[l]), EntrySet(v'[m]));
    }
  }

  lemma {:induction false} OrderByAge(v: Levels)
    requires LevelOrder(v)
    ensures |v| == NUM_LEVELS && LevelsByAge(v)
  {
  }

  lemma {:induction false} ChosenLevel(v: Levels, level: nat, inputs0: seq<File>, inputs1: seq<File>)
    requires WellChosen(v, level, inputs0, inputs1)
    ensures level + 1 < NUM_LEVELS == |v|
  {
  }

  /** Compactions and moves keep the order of the levels. */
  lemma {:induction false} ReplaceKeepsOrder(v: Levels, v': Levels, level: nat, inputs0: seq<File>, inputs1: seq<File>,
                          outputs: seq<File>)
    requires LevelOrder(v) && UniqueSequences(AllEntries(v)) && WellChosen(v, level, inputs0, inputs1)
    requires Replaced(v, v', level, inputs0, inputs1, outputs) && GoodOutputs(inputs0, inputs1, outputs)
    ensures LevelOrder(v')
  {
    forall l | 0 <= l < NUM_LEVELS
      ensures FilesOk(v'[l])
      ensures l > 0 ==> Disjoint(v'[l])
    {
      ReplacedLevelsDisjoint(v, v', level, inputs0, inputs1, outputs, l);
    }
    NumberedSubset(v[0], v'[0]);
    forall l, m | 0 <= l < m < NUM_LEVELS ensures LevelNewerThan(v'[l], v'[m]) {
      ReplacedByAge(v, v', level, inputs0, inputs1, outputs, l, m);
      AllNewerIffLevels(v'[l], v'[m]);
    }
  }

  // ----- the outputs of the merge loop -------------------------------------

  lemma {:induction false} ConcatMembers(fs: seq<File>, n: nat, e: Entry)
    requires n <= |fs|
    ensures e in ConcatTo(fs, n) <==> exists k :: 0 <= k < n && e in fs[k].entries
  {
    if n > 0 {
      ConcatMembers(fs, n - 1, e);
    }
  }

  lemma {:induction false} ConcatApart(fs: seq<File>, n: nat)
    requires n <= |fs| && FilesOk(fs) && Sorted(ConcatTo(fs, n))
    ensures forall i, j :: 0 <= i < j < n ==> Less(fs[i].largest, fs[j].smallest)
  {
    if n > 0 {
      var head, last := ConcatTo(fs, n - 1), fs[n - 1].entries;
      PrefixSorted(head, last);
      ConcatApart(fs, n - 1);
      hide Sorted;
      forall i | 0 <= i < n - 1 ensures Less(fs[i].largest, fs[n - 1].smallest) {
        assert FileOk(fs[i]) && FileOk(fs[n - 1]);
        var e := fs[i].entries[|fs[i].entries| - 1];
        ConcatMembers(fs, n - 1, e);
        BeforeTail(head, last, e);
      }
    }
  }

  lemma {:induction false} PrefixSorted(head: seq<Entry>, last: seq<Entry>)
    requires Sorted(head + last)
    ensures Sorted(head)
  {
    forall i, j | 0 <= i < j < |head| ensures Less(head[i].key, head[j].key) {
      assert (head + last)[i] == head[i] && (head + last)[j] == head[j];
    }
  }

  lemma {:induction false} BeforeTail(head: seq<Entry>, last: seq<Entry>, e: Entry)
    requires Sorted(head + last) && e in head && last != []
    ensures Less(e.key, last[0].key)
  {
    var k :| 0 <= k < |head| && head[k] == e;
    assert (head + last)[k] == e && (head + last)[|head|] == last[0];
  }

  /** Tables cut out of a sorted run do not overlap and hold exactly its entries. */
  lemma {:induction false} OutputsApart(fs: seq<File>, kept: seq<Entry>)
    requires FilesOk(fs) && ConcatTo(fs, |fs|) == kept && Sorted(kept)
    ensures PairwiseApart(fs) && EntrySet(fs) == set e | e in kept
  {
    ConcatApart(fs, |fs|);
    forall f, g | f in fs && g in fs && f != g ensures Apart(f, g) {
      var i :| 0 <= i < |fs| && fs[i] == f;
      var j :| 0 <= j < |fs| && fs[j] == g;
    }
    forall e ensures e in EntrySet(fs) <==> e in kept {
      ConcatMembers(fs, |fs|, e);
      if e in EntrySet(fs) {
        var f :| f in fs && e in f.entries;
        var k :| 0 <= k < |fs| && fs[k] == f;
      }
    }
  }

  /** The pieces around a well chosen compaction are in the relation the drop rules count on. */
  lemma {:induction false} CompactionParts(rest: set<Entry>, v: Levels, level: nat, inputs0: seq<File>,
                                           inputs1: seq<File>)
    requires LevelOrder(v) && WellChosen(v, level, inputs0, inputs1)
    requires UniqueSequences(rest + AllEntries(v)) && AllNewer(rest, AllEntries(v))
    ensures PartsOk(PartsOf(rest, v, level, inputs0, inputs1), v, level)
    ensures PartsOf(rest, v, level, inputs0, inputs1).All() == rest + AllEntries(v)
  {
    GoodInputsInLevel(level, v[level], inputs0);
    PartsCover(rest, v, level, inputs0, inputs1);
    NewerPart(rest, v, level, inputs0, inputs1);
    LeftIsNotInput(v, level, inputs0, inputs1);
    DeeperPart(v, level);
  }

  lemma {:induction false} NewerPart(rest: set<Entry>, v: Levels, level: nat, inputs0: seq<File>, inputs1: seq<File>)
    requires LevelOrder(v) && WellChosen(v, level, inputs0, inputs1)
    requires UniqueSequences(rest + AllEntries(v)) && AllNewer(rest, AllEntries(v))
    ensures AllNewer(rest + LevelEntries(v, 0, level) + LeftOut(v[level], inputs0),
                     EntrySet(inputs0) + EntrySet(inputs1))
  {
    var inputs := EntrySet(inputs0) + EntrySet(inputs1);
    SubsetUnique(AllEntries(v), rest + AllEntries(v));
    InputsInAll(v, level, inputs0, inputs1);
    AllNewerMonotone(rest, AllEntries(v), rest, inputs);
    AboveIsNewer(v, level, inputs0, inputs1);
    LeftOutIsNewer(v, level, inputs0, inputs1);
    AllNewerUnion(rest, LevelEntries(v, 0, level), inputs);
    AllNewerUnion(rest + LevelEntries(v, 0, level), LeftOut(v[level], inputs0), inputs);
  }

  lemma {:induction false} DeeperPart(v: Levels, level: nat)
    requires LevelOrder(v)
    requires level + 2 <= |v|
    ensures forall x :: x in LevelEntries(v, level + 2, |v|) ==> !BaseLevel(v, level, x.key.user)
  {
    forall x | x in LevelEntries(v, level + 2, |v|) ensures !BaseLevel(v, level, x.key.user) {
      var l, f :| level + 2 <= l < |v| && f in v[l] && x in f.entries;
      NotBase(v, level, l, f, x);
    }
  }

  lemma {:induction false} NotBase(v: Levels, level: nat, l: nat, f: File, x: Entry)
    requires level + 2 <= l < |v| && FilesOk(v[l]) && f in v[l] && x in f.entries
    ensures !BaseLevel(v, level, x.key.user)
  {
    EntryInRange(f, x);
    assert Covers(f, x.key.user);
  }

  lemma {:induction false} InputsInAll(v: Levels, level: nat, inputs0: seq<File>, inputs1: seq<File>)
    requires WellChosen(v, level, inputs0, inputs1)
    ensures EntrySet(inputs0) + EntrySet(inputs1) <= AllEntries(v)
  {
    GoodInputsInLevel(level, v[level], inputs0);
    SubsetOfLevel(v[level], inputs0);
    SubsetOfLevel(v[level + 1], inputs1);
    LevelInAll(v, level);
    LevelInAll(v, level + 1);
  }

  lemma {:induction false} AboveIsNewer(v: Levels, level: nat, inputs0: seq<File>, inputs1: seq<File>)
    requires LevelOrder(v) && WellChosen(v, level, inputs0, inputs1)
    ensures AllNewer(LevelEntries(v, 0, level), EntrySet(inputs0) + EntrySet(inputs1))
  {
    var above := LevelEntries(v, 0, level);
    GoodInputsInLevel(level, v[level], inputs0);
    SubsetOfLevel(v[level], inputs0);
    SubsetOfLevel(v[level + 1], inputs1);
    AboveLevel(v, level, level);
    AboveLevel(v, level, level + 1);
    AllNewerMonotone(above, EntrySet(v[level]), above, EntrySet(inputs0));
    AllNewerMonotone(above, EntrySet(v[level + 1]), above, EntrySet(inputs1));
    AllNewerUnion(above, EntrySet(inputs0), EntrySet(inputs1));
  }

  lemma {:induction false} AboveLevel(v: Levels, level: nat, m: nat)
    requires LevelsByAge(v) && level <= m < |v|
    ensures AllNewer(LevelEntries(v, 0, level), EntrySet(v[m]))
  {
    forall e, x | e in LevelEntries(v, 0, level) && x in EntrySet(v[m]) && e.key.user == x.key.user
      ensures e.key.sequence > x.key.sequence
    {
      var l, f :| 0 <= l < level && f in v[l] && e in f.entries;
      NewerAcrossLevels(v, l, m, e, x);
    }
  }

  lemma {:induction false} LeftIsNotInput(v: Levels, level: nat, inputs0: seq<File>, inputs1: seq<File>)
    requires LevelOrder(v) && WellChosen(v, level, inputs0, inputs1)
    ensures EntrySet(inputs0) + EntrySet(inputs1) !! LeftOut(v[level + 1], inputs1)
  {
    forall e | e in LeftOut(v[level + 1], inputs1) ensures e !in EntrySet(inputs0) + EntrySet(inputs1) {
      var g :| g in v[level + 1] && g !in inputs1 && e in g.entries;
      LeftOutIsBeside(v, level, inputs0, inputs1, g);
      EntryInRange(g, e);
    }
  }

  // ----- flushing a memtable -----------------------------------------------

  /** `v'` is `v` with one more file at `level`. */
  ghost predicate FileAdded(v: Levels, v': Levels, level: nat, f: File) {
    && |v| == |v'| == NUM_LEVELS && level < NUM_LEVELS
    && (forall l :: 0 <= l < NUM_LEVELS ==> InOrder(v'[l]))
    && (forall l :: 0 <= l < NUM_LEVELS && l != level ==> v'[l] == v[l])
    && (forall g :: g in v'[level] <==> g in v[level] || g == f)
  }

  /** Where PickLevelForMemTableOutput lets a file over these keys go. */
  ghost predicate MayPlace(v: Levels, level: nat, f: File)
    requires |v| == NUM_LEVELS
  {
    && level <= MAX_MEM_COMPACT_LEVEL
    && (level > 0 ==> forall l :: 0 <= l <= level ==> NoOverlap(v[l], f.smallest.user, f.largest.user))
  }

  lemma {:induction false} NoOverlapIsApart(fs: seq<File>, f: File, g: File)
    requires FilesOk(fs) && FileOk(f) && g in fs && NoOverlap(fs, f.smallest.user, f.largest.user)
    ensures Apart(f, g) && Apart(g, f) && NewerThan(g, f)
  {
    assert !Overlaps(g, Some(f.smallest.user), Some(f.largest.user));
    forall e, x | e in g.entries && x in f.entries ensures e.key.user != x.key.user {
      EntryInRange(g, e);
      EntryInRange(f, x);
    }
  }

  /** A flush keeps the order of the levels and adds exactly the memtable's entries. */
  lemma {:induction false} FlushKeepsOrder(v: Levels, v': Levels, level: nat, f: File)
    requires LevelOrder(v) && FileAdded(v, v', level, f) && FileOk(f) && MayPlace(v, level, f)
    requires AllNewer((set e | e in f.entries), AllEntries(v))
    requires forall g :: g in v[0] ==> g.number < f.number
    ensures LevelOrder(v')
  {
    forall g | g in v'[level] ensures FileOk(g) {
    }
    FilesOkMembers(v'[level]);
    if level > 0 {
      FilesHaveRanges(v'[level]);
      forall a, b | a in v'[level] && b in v'[level] && a != b ensures Apart(a, b) {
        if a != f && b != f {
          ApartFromDisjoint(v[level], a, b);
        } else {
          NoOverlapIsApart(v[level], f, if a == f then b else a);
        }
      }
      DisjointFromApart(v'[level]);
    } else {
      NumberedWithFile(v[0], v'[0], f, AllEntries(v));
    }
    forall l, m | 0 <= l < m < NUM_LEVELS ensures LevelNewerThan(v'[l], v'[m]) {
      FlushByAge(v, v', level, f, l, m);
    }
  }

  lemma {:induction false} FileIsNewer(v: Levels, f: File, l: nat, g: File)
    requires AllNewer((set e | e in f.entries), AllEntries(v)) && l < |v| && g in v[l]
    ensures NewerThan(f, g)
  {
    forall e, x | e in f.entries && x in g.entries && e.key.user == x.key.user
      ensures e.key.sequence > x.key.sequence
    {
      assert x in AllEntries(v);
    }
  }

  lemma {:induction false} NumberedWithFile(fs: seq<File>, gs: seq<File>, f: File, es: set<Entry>)
    requires NumberedByAge(fs) && InOrder(gs) && EntrySet(fs) <= es
    requires forall g :: g in gs <==> g in fs || g == f
    requires forall g :: g in fs ==> g.number < f.number
    requires AllNewer((set e | e in f.entries), es)
    ensures NumberedByAge(gs)
  {
    forall i, j | 0 <= i < |gs| && 0 <= j < |gs| && i != j
      ensures gs[i].number != gs[j].number && (gs[i].number > gs[j].number ==> NewerThan(gs[i], gs[j]))
    {
      assert i < j ==> BySmallest(gs[i], gs[j]);
      assert j < i ==> BySmallest(gs[j], gs[i]);
      assert gs[i] in gs && gs[j] in gs;
      if gs[i] in fs && gs[j] in fs {
        var a :| 0 <= a < |fs| && fs[a] == gs[i];
        var b :| 0 <= b < |fs| && fs[b] == gs[j];
      } else if gs[i] == f {
        forall e, x | e in f.entries && x in gs[j].entries && e.key.user == x.key.user
          ensures e.key.sequence > x.key.sequence
        {
          assert x in EntrySet(fs);
        }
      }
    }
  }

  lemma {:induction false} FlushByAge(v: Levels, v': Levels, level: nat, f: File, l: nat, m: nat)
    requires LevelOrder(v) && FileAdded(v, v', level, f) && FileOk(f) && MayPlace(v, level, f)
    requires AllNewer((set e | e in f.entries), AllEntries(v))
    requires l < m < NUM_LEVELS
    ensures LevelNewerThan(v'[l], v'[m])
  {
    assert LevelNewerThan(v[l], v[m]);
    forall i, j | 0 <= i < |v'[l]| && 0 <= j < |v'[m]| ensures NewerThan(v'[l][i], v'[m][j]) {
      var a, b := v'[l][i], v'[m][j];
      assert a in v'[l] && b in v'[m];
      if a in v[l] && b in v[m] {
        MembersByAge(v[l], v[m], a, b);
      } else if a == f && l == level {
        FileIsNewer(v, f, m, b);
      } else {
        NoOverlapIsApart(v[l], f, a);
      }
    }
  }

  lemma {:induction false} MembersByAge(fs: seq<File>, gs: seq<File>, a: File, b: File)
    requires LevelNewerThan(fs, gs) && a in fs && b in gs
    ensures NewerThan(a, b)
  {
    var x :| 0 <= x < |fs| && fs[x] == a;
    var y :| 0 <= y < |gs| && gs[y] == b;
  }

  lemma {:induction false} FlushedEntries(v: Levels, v': Levels, level: nat, f: File)
    requires FileAdded(v, v', level, f)
    ensures AllEntries(v') == AllEntries(v) + set e | e in f.entries
  {
    forall e | e in AllEntries(v') ensures e in AllEntries(v) || e in f.entries {
      var l, g :| 0 <= l < |v'| && g in v'[l] && e in g.entries;
    }
    forall e | e in AllEntries(v) ensures e in AllEntries(v') {
      var l, g :| 0 <= l < |v| && g in v[l] && e in g.entries;
      assert g in v'[l];
    }
    forall e | e in f.entries ensures e in AllEntries(v') {
      assert f in v'[level];
    }
  }

  // ----- where a leak can come from ----------------------------------------

  lemma {:induction false} LargestKeyExists(fs: seq<File>) returns (f: File)
    requires fs != []
    ensures f in fs && IsLargestKey(fs, f.largest)
  {
    f := fs[0];
    for i := 1 to |fs|
      invariant f in fs[..i] && IsLargestKey(fs[..i], f.largest)
    {
      assert fs[..i + 1] == fs[..i] + [fs[i]];
      if Less(f.largest, fs[i].largest) {
        f := fs[i];
      }
    }
    assert fs[..|fs|] == fs;
  }

  lemma {:induction false} SharedWithLeftOut(v: Levels, level: nat, inputs0: seq<File>, inputs1: seq<File>,
                                             e: Entry, g: File, x: Entry)
    requires LevelOrder(v) && WellChosen(v, level, inputs0, inputs1)
    requires e in EntrySet(inputs0) + EntrySet(inputs1)
    requires g in v[level + 1] && g !in inputs1 && x in g.entries && e.key.user == x.key.user
    ensures e in EntrySet(inputs1) && forall f :: f in inputs1 ==> f in v[level + 1]
  {
    GoodInputsInLevel(level, v[level], inputs0);
    var lo, hi :| IsRange(inputs0, lo, hi) && inputs1 == Overlapping(v[level + 1], Some(lo.user), Some(hi.user));
    EntryInRange(g, x);
    if f :| f in inputs0 && e in f.entries {
      WithinRange(v[level], f, e, inputs0, lo, hi);
    }
  }

  /** The value a leak uncovers lies in a file of the output level that continues the last user
      key of inputs_[1]: one that AddBoundaryInputs, run on inputs_[1], would have added. */
  lemma {:induction false} LeakNeedsBoundaryFile(v: Levels, level: nat, inputs0: seq<File>, inputs1: seq<File>,
                                                 e: Entry, x: Entry)
    requires LevelOrder(v) && WellChosen(v, level, inputs0, inputs1)
    requires e in EntrySet(inputs0) + EntrySet(inputs1) && x in LeftOut(v[level + 1], inputs1)
    requires e.key.user == x.key.user && Less(e.key, x.key)
    ensures !BoundaryClosed(v[level + 1], inputs1)
  {
    var next := v[level + 1];
    var g :| g in next && g !in inputs1 && x in g.entries;
    LeftOutIsBeside(v, level, inputs0, inputs1, g);
    EntryInRange(g, x);
    SharedWithLeftOut(v, level, inputs0, inputs1, e, g, x);
    var f :| f in inputs1 && e in f.entries;
    assert FilesOk(next) && f in next;
    hide LevelOrder, WellChosen, LeftOut;
    EntryInRange(f, e);
    var last := LargestKeyExists(inputs1);
    InsideInputs(next, last, inputs1);
    assert Less(last.largest, g.smallest);
    assert !Less(last.largest, f.largest);
    assert IsBoundary(g, last.largest);
  }

  lemma {:induction false} InsideInputs(fs: seq<File>, f: File, ins: seq<File>)
    requires FilesOk(fs) && f in fs && f in ins
    ensures exists e :: e in EntrySet(ins) && e.key == f.largest
  {
    var e := f.entries[|f.entries| - 1];
    assert e in f.entries && e in EntrySet(ins);
  }

  /** With inputs_[1] closed under boundary files too, no compaction leaks. */
  lemma {:induction false} BoundaryClosedNeverLeaks(rest: set<Entry>, v: Levels, level: nat, inputs0: seq<File>,
                                                    inputs1: seq<File>, smallestSnapshot: nat)
    requires LevelOrder(v) && WellChosen(v, level, inputs0, inputs1)
    requires UniqueSequences(rest + AllEntries(v)) && AllNewer(rest, AllEntries(v))
    requires BoundaryClosed(v[level + 1], inputs1)
    ensures !Leaks(PartsOf(rest, v, level, inputs0, inputs1), smallestSnapshot, v, level)
  {
    var p := PartsOf(rest, v, level, inputs0, inputs1);
    forall e, x ensures !Uncovers(p, smallestSnapshot, v, level, e, x) {
      if Uncovers(p, smallestSnapshot, v, level, e, x) {
        LeakNeedsBoundaryFile(v, level, inputs0, inputs1, e, x);
      }
    }
  }
}
