/** Setting up a compaction (db/version_set.cc: SetupOtherInputs, PickCompaction,
    CompactRange, IsBaseLevelForKey) and placing a flushed memtable
    (PickLevelForMemTableOutput).
 */
module CompactionSetup {
  import opened DbFormat
  import opened Version
  import opened CompactionInputs

  function TotalFileSize(fs: seq<File>): nat {
    if fs == [] then 0 else TotalFileSize(fs[..|fs| - 1]) + fs[|fs| - 1].size
  }

  /** The size of no files, of one file, and of two lists of files. */
  lemma {:induction false} SizesAdd(f: File, a: seq<File>, b: seq<File>)
    ensures TotalFileSize([]) == 0 && TotalFileSize([f]) == f.size
    ensures TotalFileSize(a + b) == TotalFileSize(a) + TotalFileSize(b)
    decreases |b|
  {
    if b == [] {
      assert a + b == a;
    } else {
      var last := |b| - 1;
      SizesAdd(f, a, b[..last]);
      assert (a + b)[..|a + b| - 1] == a + b[..last];
    }
    assert [f][..0] == [];
  }

  ghost predicate IsSmallestKey(fs: seq<File>, k: InternalKey) {
    (exists f :: f in fs && f.smallest == k) && forall f :: f in fs ==> !Less(f.smallest, k)
  }

  /** [smallest, largest] is the tightest range over the files. */
  ghost predicate IsRange(fs: seq<File>, smallest: InternalKey, largest: InternalKey) {
    IsSmallestKey(fs, smallest) && IsLargestKey(fs, largest)
  }

  method GetRange(fs: seq<File>) returns (smallest: InternalKey, largest: InternalKey)
    requires fs != []
    ensures IsRange(fs, smallest, largest)
  {
    smallest, largest := fs[0].smallest, fs[0].largest;
    for i := 1 to |fs|
      invariant IsSmallestKey(fs[..i], smallest)
      invariant IsLargestKey(fs[..i], largest)
    {
      assert fs[..i + 1] == fs[..i] + [fs[i]];
      if Compare(fs[i].smallest, smallest) < 0 {
        smallest := fs[i].smallest;
      }
      if Compare(fs[i].largest, largest) > 0 {
        largest := fs[i].largest;
      }
    }
    assert fs[..|fs|] == fs;
  }

  // ----- facts about overlapping files -------------------------------------

  /** A wider range never loses a file; if it gains none either, it selects the same files. */
  lemma {:induction false} OverlapGrows(fs: seq<File>, n: nat, lo: UserKey, hi: UserKey, lo': UserKey, hi': UserKey)
    requires lo' <= lo && hi <= hi' && n <= |fs|
    ensures |OverlappingTo(fs, n, Some(lo), Some(hi))| <= |OverlappingTo(fs, n, Some(lo'), Some(hi'))|
    ensures |OverlappingTo(fs, n, Some(lo), Some(hi))| == |OverlappingTo(fs, n, Some(lo'), Some(hi'))| ==>
              OverlappingTo(fs, n, Some(lo), Some(hi)) == OverlappingTo(fs, n, Some(lo'), Some(hi'))
  {
    if n > 0 {
      OverlapGrows(fs, n - 1, lo, hi, lo', hi');
    }
  }

  lemma {:induction false} NoGap(fs: seq<File>, i: nat, j: nat, lo: Option<UserKey>, hi: Option<UserKey>)
    requires RangesOk(fs) && Disjoint(fs) && i < j < |fs|
    requires Overlaps(fs[i], lo, hi) && Overlaps(fs[j], lo, hi)
    ensures Overlaps(fs[i + 1], lo, hi)
  {
    LargestAscends(fs, i, i + 1);
    LargestAscends(fs, i + 1, j);
  }

  /** In a sorted level the overlapping files are contiguous. */
  lemma {:induction false} OverlappingIsRun(fs: seq<File>, n: nat, lo: Option<UserKey>, hi: Option<UserKey>)
    returns (from: nat, to: nat)
    requires RangesOk(fs) && Disjoint(fs) && n <= |fs|
    ensures from <= to <= n && OverlappingTo(fs, n, lo, hi) == fs[from..to]
    ensures from < to ==> Overlaps(fs[to - 1], lo, hi) && forall k :: to <= k < n ==> !Overlaps(fs[k], lo, hi)
  {
    hide Overlaps, RangesOk, Disjoint;
    if n == 0 {
      return 0, 0;
    }
    from, to := OverlappingIsRun(fs, n - 1, lo, hi);
    if Overlaps(fs[n - 1], lo, hi) {
      if from == to {
        from := n - 1;
      } else if to < n - 1 {
        NoGap(fs, to - 1, n - 1, lo, hi);
      }
      to := n;
      SliceSnoc(fs, from, n);
    }
  }

  lemma {:induction false} SliceSnoc(fs: seq<File>, from: nat, n: nat)
    requires from < n <= |fs|
    ensures fs[from..n] == fs[from..n - 1] + [fs[n - 1]]
  {
  }

  lemma {:induction false} OverlappingIsGood(level: nat, fs: seq<File>, lo: Option<UserKey>, hi: Option<UserKey>)
    requires level > 0 && RangesOk(fs) && Disjoint(fs) && Overlapping(fs, lo, hi) != []
    ensures GoodInputs(level, fs, Overlapping(fs, lo, hi))
  {
    var from, to := OverlappingIsRun(fs, |fs|, lo, hi);
    assert IsRun(fs, Overlapping(fs, lo, hi), from, to);
  }

  /** A part of the level lies in the overlap of any range that covers it. */
  lemma {:induction false} InsideOverlap(fs: seq<File>, ins: seq<File>, more: seq<File>, lo: InternalKey,
                                         hi: InternalKey)
    requires FilesOk(fs) && (forall f :: f in ins ==> f in fs) && IsRange(ins + more, lo, hi)
    ensures forall f :: f in ins ==> f in Overlapping(fs, Some(lo.user), Some(hi.user))
  {
    forall f | f in ins ensures f in Overlapping(fs, Some(lo.user), Some(hi.user)) {
      assert f in ins + more;
      EntryInRange(f, f.entries[0]);
    }
  }

  lemma {:induction false} WiderRange(ins: seq<File>, more: seq<File>, lo: InternalKey, hi: InternalKey,
                   lo': InternalKey, hi': InternalKey)
    requires IsRange(ins, lo, hi) && IsRange(more, lo', hi')
    requires forall f :: f in ins ==> f in more
    ensures lo'.user <= lo.user && hi.user <= hi'.user
  {
    var f :| f in ins && f.smallest == lo;
    var g :| g in ins && g.largest == hi;
    assert f in more && g in more;
  }

  // ----- the chosen files --------------------------------------------------

  /** What every compaction is built from: inputs at `level` whose user keys continue in no
      other file of the level, and all files of `level + 1` that overlap them. */
  ghost predicate WellChosen(v: Levels, level: nat, inputs0: seq<File>, inputs1: seq<File>) {
    && |v| == NUM_LEVELS && level + 1 < NUM_LEVELS
    && GoodInputs(level, v[level], inputs0)
    && BoundaryClosed(v[level], inputs0)
    && CoversNext(v[level + 1], inputs0, inputs1)
  }

  ghost predicate CoversNext(next: seq<File>, inputs0: seq<File>, inputs1: seq<File>) {
    exists lo, hi {:trigger IsRange(inputs0, lo, hi)} ::
      IsRange(inputs0, lo, hi) && inputs1 == Overlapping(next, Some(lo.user), Some(hi.user))
  }

  /** The first input set may grow to `bounded`: it is more files, not too many bytes with the second set, and these
      overlap as many files of the next level as before. */
  ghost predicate MayGrow(next: seq<File>, first0: seq<File>, inputs1: seq<File>, bounded: seq<File>, limit: nat) {
    && |bounded| > |first0| && TotalFileSize(inputs1) + TotalFileSize(bounded) < limit
    && exists lo, hi {:trigger IsRange(bounded, lo, hi)} ::
         IsRange(bounded, lo, hi) && |Overlapping(next, Some(lo.user), Some(hi.user))| == |inputs1|
  }

  /** `bounded` is what the range of both input sets, with boundary files, has at the level. */
  ghost predicate Candidate(level: nat, fs: seq<File>, first0: seq<File>, inputs1: seq<File>, bounded: seq<File>) {
    exists lo, hi, expanded {:trigger IsRange(first0 + inputs1, lo, hi), Continued(fs, expanded, bounded)} ::
      && IsRange(first0 + inputs1, lo, hi)
      && Found(level, fs, Some(lo.user), Some(hi.user), expanded) && Continued(fs, expanded, bounded)
  }

  /** The first input set grows exactly when it may. */
  ghost predicate Grown(level: nat, fs: seq<File>, next: seq<File>, first0: seq<File>, inputs1: seq<File>, limit: nat,
                        inputs0: seq<File>) {
    if inputs1 == [] then inputs0 == first0
    else exists bounded {:trigger Candidate(level, fs, first0, inputs1, bounded)} ::
      && Candidate(level, fs, first0, inputs1, bounded)
      && inputs0 == if MayGrow(next, first0, inputs1, bounded, limit) then bounded else first0
  }

  /** The inputs that come of the files `start`: with boundary files they are `first0`. */
  ghost predicate InputsOf(level: nat, fs: seq<File>, next: seq<File>, start: seq<File>, limit: nat, first0: seq<File>,
                           inputs0: seq<File>, inputs1: seq<File>) {
    Continued(fs, start, first0) && CoversNext(next, first0, inputs1)
    && Grown(level, fs, next, first0, inputs1, limit, inputs0)
  }

  lemma {:induction false} GoodInputsInLevel(level: nat, fs: seq<File>, ins: seq<File>)
    requires GoodInputs(level, fs, ins)
    ensures ins != [] && forall f :: f in ins ==> f in fs
  {
    if level > 0 {
      var from: nat, to: nat :| IsRun(fs, ins, from, to);
    } else {
      var lo, hi :| ins == Overlapping(fs, lo, hi);
    }
  }

  lemma {:induction false} SubsetOk(fs: seq<File>, ins: seq<File>)
    requires FilesOk(fs) && forall f :: f in ins ==> f in fs
    ensures FilesOk(ins)
  {
    forall i | 0 <= i < |ins| ensures FileOk(ins[i]) {
      assert ins[i] in fs;
    }
  }

  lemma {:induction false} OverlappingInOrder(fs: seq<File>, n: nat, lo: Option<UserKey>, hi: Option<UserKey>)
    requires InOrder(fs) && n <= |fs|
    ensures InOrder(OverlappingTo(fs, n, lo, hi))
    ensures forall f :: f in OverlappingTo(fs, n, lo, hi) ==> exists k :: 0 <= k < n && fs[k] == f
  {
    if n > 0 {
      OverlappingInOrder(fs, n - 1, lo, hi);
      var r := OverlappingTo(fs, n - 1, lo, hi);
      forall i | 0 <= i < |r| ensures BySmallest(r[i], fs[n - 1]) {
        assert r[i] in r;
      }
    }
  }

  /** The chosen inputs keep the order of their level, so no file is chosen twice. */
  lemma {:induction false} InputsInOrder(level: nat, fs: seq<File>, ins: seq<File>)
    requires InOrder(fs) && GoodInputs(level, fs, ins)
    ensures InOrder(ins)
  {
    if level == 0 {
      var lo, hi :| ins == Overlapping(fs, lo, hi);
      OverlappingInOrder(fs, |fs|, lo, hi);
    } else {
      var from: nat, to: nat :| IsRun(fs, ins, from, to);
      forall i, j | 0 <= i < j < |ins| ensures BySmallest(ins[i], ins[j]) {
        assert ins[i] == fs[from + i] && ins[j] == fs[from + j];
      }
    }
  }

  /** Adds the boundary files and the next level's files, then tries to grow the first
      set as long as the second stays the same. `first0` is the first set before growing. */
  method SetupOtherInputs(v: Levels, level: nat, start: seq<File>, expansionLimit: nat)
    returns (inputs0: seq<File>, inputs1: seq<File>, grandparents: seq<File>, pointer: InternalKey,
             ghost first0: seq<File>)
    requires LevelOrder(v) && level + 1 < NUM_LEVELS && GoodInputs(level, v[level], start)
    ensures WellChosen(v, level, inputs0, inputs1)
    ensures start <= first0 && BoundaryClosed(v[level], first0) && forall f :: f in first0 ==> f in inputs0
    ensures CoversNext(v[level + 1], first0, inputs1)
    ensures inputs0 != first0 ==> TotalFileSize(inputs1) + TotalFileSize(inputs0) < expansionLimit
    ensures IsLargestKey(inputs0, pointer)
    ensures level + 2 < NUM_LEVELS ==> CoversNext(v[level + 2], inputs0 + inputs1, grandparents)
    ensures level + 2 >= NUM_LEVELS ==> grandparents == []
    ensures InputsOf(level, v[level], v[level + 1], start, expansionLimit, first0, inputs0, inputs1)
  {
    LevelsOk(v, level);
    hide InputsOf, GoodInputs, Continued, BoundaryClosed, LevelOrder, LevelOk, FilesOk, CoversNext, IsLargestKey;
    inputs0, inputs1, pointer, first0 := ChooseInputs(level, v[level], v[level + 1], start, expansionLimit);
    GoodInputsInLevel(level, v[level], inputs0);
    grandparents := Grandparents(v, level, inputs0 + inputs1);
  }

  lemma {:induction false} LevelsOk(v: Levels, level: nat)
    requires LevelOrder(v) && level + 1 < NUM_LEVELS
    ensures |v| == NUM_LEVELS && LevelOk(level, v[level]) && FilesOk(v[level + 1])
  {
  }

  /** The files two levels down that overlap the inputs, if there is such a level. */
  method Grandparents(v: Levels, level: nat, inputs: seq<File>) returns (grandparents: seq<File>)
    requires LevelOrder(v) && inputs != []
    ensures level + 2 < NUM_LEVELS ==> CoversNext(v[level + 2], inputs, grandparents)
    ensures level + 2 >= NUM_LEVELS ==> grandparents == []
  {
    hide IsRange, Found;
    grandparents := [];
    if level + 2 < NUM_LEVELS {
      var allStart, allLimit := GetRange(inputs);
      ghost var lo, hi;
      grandparents, lo, hi := GetOverlappingInputs(level + 2, v[level + 2], Some(allStart.user), Some(allLimit.user));
    }
  }

  /** The part of SetupOtherInputs that settles the two input sets. */
  method ChooseInputs(level: nat, fs: seq<File>, next: seq<File>, start: seq<File>, expansionLimit: nat)
    returns (inputs0: seq<File>, inputs1: seq<File>, pointer: InternalKey, ghost first0: seq<File>)
    requires LevelOk(level, fs) && FilesOk(next) && GoodInputs(level, fs, start)
    ensures GoodInputs(level, fs, inputs0) && BoundaryClosed(fs, inputs0) && CoversNext(next, inputs0, inputs1)
    ensures start <= first0 && BoundaryClosed(fs, first0) && forall f :: f in first0 ==> f in inputs0
    ensures CoversNext(next, first0, inputs1)
    ensures inputs0 != first0 ==> TotalFileSize(inputs1) + TotalFileSize(inputs0) < expansionLimit
    ensures IsLargestKey(inputs0, pointer)
    ensures InputsOf(level, fs, next, start, expansionLimit, first0, inputs0, inputs1)
  {
    hide GoodInputs, Continued, Grown, BoundaryClosed, UserClosed;
    GoodInputsInLevel(level, fs, start);
    SubsetOk(fs, start);
    inputs0 := AddBoundaryInputs(level, fs, start);
    GoodInputsInLevel(level, fs, inputs0);
    first0 := inputs0;
    var smallest, largest := GetRange(inputs0);
    ghost var lo, hi;
    inputs1, lo, hi := GetOverlappingInputs(level + 1, next, Some(smallest.user), Some(largest.user));
    NotGrown(level, fs, next, first0, inputs1, expansionLimit);
    if inputs1 != [] {
      var grown, start', limit' := Expand(level, fs, next, inputs0, inputs1, smallest, largest, expansionLimit);
      inputs0 := grown;
      smallest, largest := start', limit';
    }
    pointer := largest;
  }

  lemma {:induction false} NotGrown(level: nat, fs: seq<File>, next: seq<File>, first0: seq<File>, inputs1: seq<File>,
                                    limit: nat)
    ensures inputs1 == [] ==> Grown(level, fs, next, first0, inputs1, limit, first0)
  {
  }

  method Expand(level: nat, fs: seq<File>, next: seq<File>, inputs0: seq<File>, inputs1: seq<File>,
                smallest: InternalKey, largest: InternalKey, expansionLimit: nat)
    returns (grown: seq<File>, start: InternalKey, limit: InternalKey)
    requires LevelOk(level, fs) && FilesOk(next) && GoodInputs(level, fs, inputs0) && BoundaryClosed(fs, inputs0)
    requires inputs0 != [] && IsRange(inputs0, smallest, largest)
    requires inputs1 == Overlapping(next, Some(smallest.user), Some(largest.user))
    ensures GoodInputs(level, fs, grown) && BoundaryClosed(fs, grown) && IsRange(grown, start, limit)
    ensures inputs1 == Overlapping(next, Some(start.user), Some(limit.user))
    ensures forall f :: f in inputs0 ==> f in grown
    ensures grown != inputs0 ==> TotalFileSize(inputs1) + TotalFileSize(grown) < expansionLimit
    ensures inputs1 != [] ==> Grown(level, fs, next, inputs0, inputs1, expansionLimit, grown)
  {
    hide GoodInputs, BoundaryClosed, UserClosed, Continued, Found, MayGrow, Grown, IsRange, LevelOk, FilesOk;
    grown, start, limit := inputs0, smallest, largest;
    var bounded0 := Candidates(level, fs, inputs0, inputs1);
    ghost var lo, hi;
    if |bounded0| > |inputs0| && TotalFileSize(inputs1) + TotalFileSize(bounded0) < expansionLimit {
      var newStart, newLimit := GetRange(bounded0);
      var expanded1;
      expanded1, lo, hi := GetOverlappingInputs(level + 1, next, Some(newStart.user), Some(newLimit.user));
      if |expanded1| == |inputs1| {
        WiderRange(inputs0, bounded0, smallest, largest, newStart, newLimit);
        OverlapGrows(next, |next|, smallest.user, largest.user, newStart.user, newLimit.user);
        grown, start, limit := bounded0, newStart, newLimit;
      }
      GrownIs(level, fs, next, inputs0, inputs1, expansionLimit, bounded0, newStart, newLimit);
    } else {
      MayNotGrow(level, fs, next, inputs0, inputs1, expansionLimit, bounded0);
    }
  }

  /** What the first input set may grow to. */
  method Candidates(level: nat, fs: seq<File>, inputs0: seq<File>, inputs1: seq<File>) returns (bounded0: seq<File>)
    requires LevelOk(level, fs) && GoodInputs(level, fs, inputs0) && inputs0 != []
    ensures GoodInputs(level, fs, bounded0) && BoundaryClosed(fs, bounded0) && bounded0 != []
    ensures forall f :: f in inputs0 ==> f in bounded0
    ensures Candidate(level, fs, inputs0, inputs1, bounded0)
  {
    hide GoodInputs, BoundaryClosed, UserClosed, Continued, Found, IsRange;
    var allStart, allLimit := GetRange(inputs0 + inputs1);
    ghost var lo, hi;
    var expanded0;
    expanded0, lo, hi := GetOverlappingInputs(level, fs, Some(allStart.user), Some(allLimit.user));
    ExpansionIsGood(level, fs, inputs0, inputs1, allStart, allLimit, expanded0, lo, hi);
    GoodInputsInLevel(level, fs, expanded0);
    bounded0 := AddBoundaryInputs(level, fs, expanded0);
  }

  lemma {:induction false} MayNotGrow(level: nat, fs: seq<File>, next: seq<File>, first0: seq<File>, inputs1: seq<File>,
                                      limit: nat, bounded: seq<File>)
    requires Candidate(level, fs, first0, inputs1, bounded)
    requires |bounded| <= |first0| || TotalFileSize(inputs1) + TotalFileSize(bounded) >= limit
    ensures inputs1 != [] ==> Grown(level, fs, next, first0, inputs1, limit, first0)
  {
  }

  lemma {:induction false} GrownIs(level: nat, fs: seq<File>, next: seq<File>, first0: seq<File>, inputs1: seq<File>,
                                   limit: nat, bounded: seq<File>, lo: InternalKey, hi: InternalKey)
    requires Candidate(level, fs, first0, inputs1, bounded) && IsRange(bounded, lo, hi)
    ensures inputs1 != [] ==>
              Grown(level, fs, next, first0, inputs1, limit,
                    if |bounded| > |first0| && TotalFileSize(inputs1) + TotalFileSize(bounded) < limit
                       && |Overlapping(next, Some(lo.user), Some(hi.user))| == |inputs1| then bounded else first0)
  {
    hide Candidate, Overlapping, TotalFileSize;
    if MayGrow(next, first0, inputs1, bounded, limit) {
      var lo', hi' :| IsRange(bounded, lo', hi') && |Overlapping(next, Some(lo'.user), Some(hi'.user))| == |inputs1|;
      RangeIsUnique(bounded, lo, hi, lo', hi');
    }
  }

  lemma {:induction false} RangeIsUnique(fs: seq<File>, lo: InternalKey, hi: InternalKey, lo': InternalKey,
                                         hi': InternalKey)
    requires IsRange(fs, lo, hi) && IsRange(fs, lo', hi')
    ensures lo == lo' && hi == hi'
  {
    assert Compare(lo, lo') == 0 && Compare(hi, hi') == 0;
  }

  lemma {:induction false} ExpansionIsGood(level: nat, fs: seq<File>, inputs0: seq<File>, inputs1: seq<File>,
                        allStart: InternalKey, allLimit: InternalKey, expanded0: seq<File>,
                        lo: Option<UserKey>, hi: Option<UserKey>)
    requires LevelOk(level, fs) && GoodInputs(level, fs, inputs0)
    requires IsRange(inputs0 + inputs1, allStart, allLimit)
    requires expanded0 == Overlapping(fs, lo, hi)
    requires level > 0 ==> lo == Some(allStart.user) && hi == Some(allLimit.user)
    requires level == 0 ==> forall f :: f in expanded0 <==> Reachable(fs, f, Some(allStart.user), Some(allLimit.user))
    requires level == 0 ==> UserClosed(fs, expanded0)
    ensures GoodInputs(level, fs, expanded0) && FilesOk(expanded0)
    ensures forall f :: f in inputs0 ==> f in expanded0
  {
    GoodInputsInLevel(level, fs, inputs0);
    InsideOverlap(fs, inputs0, inputs1, allStart, allLimit);
    forall f | f in inputs0 ensures f in expanded0 {
      if level == 0 {
        assert Linked(fs, f, Some(allStart.user), Some(allLimit.user), 0);
      }
    }
    assert inputs0[0] in expanded0;
    if level > 0 {
      FilesHaveRanges(fs);
      OverlappingIsGood(level, fs, lo, hi);
    }
    SubsetOk(fs, expanded0);
  }

  // ----- picking -----------------------------------------------------------

  datatype Job = Job(level: nat, inputs0: seq<File>, inputs1: seq<File>, grandparents: seq<File>, pointer: InternalKey)

  ghost predicate JobOk(v: Levels, job: Job) {
    WellChosen(v, job.level, job.inputs0, job.inputs1) && IsLargestKey(job.inputs0, job.pointer)
  }

  /** The job that comes of the files `start`: nothing about it is left open. */
  ghost predicate JobFrom(v: Levels, level: nat, start: seq<File>, limit: nat, job: Job) {
    && |v| == NUM_LEVELS && level + 1 < NUM_LEVELS && job.level == level
    && (exists first0 {:trigger Continued(v[level], start, first0)} ::
          InputsOf(level, v[level], v[level + 1], start, limit, first0, job.inputs0, job.inputs1))
    && (forall f :: f in start ==> f in job.inputs0)
    && IsLargestKey(job.inputs0, job.pointer)
    && if level + 2 < NUM_LEVELS then CoversNext(v[level + 2], job.inputs0 + job.inputs1, job.grandparents)
       else job.grandparents == []
  }

  lemma {:induction false} SingleFileIsGood(level: nat, fs: seq<File>, i: nat)
    requires level > 0 && i < |fs|
    ensures GoodInputs(level, fs, [fs[i]])
  {
    assert IsRun(fs, [fs[i]], i, i + 1);
  }

  /** The picked file; at level 0 with everything its range is linked to. */
  method StartingFiles(level: nat, fs: seq<File>, which: nat) returns (inputs0: seq<File>)
    requires FilesOk(fs) && which < |fs|
    ensures GoodInputs(level, fs, inputs0) && fs[which] in inputs0
    ensures level > 0 ==> inputs0 == [fs[which]]
    ensures level == 0 ==>
              forall f :: f in inputs0 <==>
                Reachable(fs, f, Some(fs[which].smallest.user), Some(fs[which].largest.user))
  {
    inputs0 := [fs[which]];
    if level == 0 {
      var smallest, largest := GetRange(inputs0);
      assert fs[which] in inputs0 && smallest == fs[which].smallest && largest == fs[which].largest;
      ghost var lo, hi;
      inputs0, lo, hi := GetOverlappingInputs(0, fs, Some(smallest.user), Some(largest.user));
      EntryInRange(fs[which], fs[which].entries[0]);
      assert Linked(fs, fs[which], Some(smallest.user), Some(largest.user), 0);
    } else {
      SingleFileIsGood(level, fs, which);
    }
  }

  /** Compacts file `which` of `level`; any level below the last and any file may be chosen. */
  method PickCompaction(v: Levels, level: nat, which: nat, expansionLimit: nat)
    returns (job: Job, ghost start: seq<File>)
    requires LevelOrder(v) && level + 1 < NUM_LEVELS && which < |v[level]|
    ensures job.level == level && JobOk(v, job) && v[level][which] in job.inputs0
    ensures JobFrom(v, level, start, expansionLimit, job)
    ensures level > 0 ==> start == [v[level][which]]
    ensures level == 0 ==>
              forall f :: f in start <==>
                Reachable(v[0], f, Some(v[0][which].smallest.user), Some(v[0][which].largest.user))
  {
    hide Reachable, InputsOf, GoodInputs, LevelOrder, WellChosen;
    LevelsOk(v, level);
    var files := StartingFiles(level, v[level], which);
    start := files;
    job := SetUp(v, level, files, expansionLimit);
  }

  /** SetupOtherInputs, as a job. */
  method SetUp(v: Levels, level: nat, start: seq<File>, expansionLimit: nat) returns (job: Job)
    requires LevelOrder(v) && level + 1 < NUM_LEVELS && GoodInputs(level, v[level], start)
    ensures job.level == level && JobOk(v, job) && JobFrom(v, level, start, expansionLimit, job)
  {
    hide InputsOf, GoodInputs, WellChosen, CoversNext, IsLargestKey, BoundaryClosed;
    var inputs0, inputs1, grandparents, pointer;
    ghost var first0;
    inputs0, inputs1, grandparents, pointer, first0 := SetupOtherInputs(v, level, start, expansionLimit);
    job := Job(level, inputs0, inputs1, grandparents, pointer);
    StartIn(v, level, start, expansionLimit, first0, job);
  }

  lemma {:induction false} StartIn(v: Levels, level: nat, start: seq<File>, limit: nat, first0: seq<File>, job: Job)
    requires |v| == NUM_LEVELS && level + 1 < NUM_LEVELS && job.level == level
    requires InputsOf(level, v[level], v[level + 1], start, limit, first0, job.inputs0, job.inputs1)
    requires forall f :: f in first0 ==> f in job.inputs0
    requires IsLargestKey(job.inputs0, job.pointer)
    requires if level + 2 < NUM_LEVELS then CoversNext(v[level + 2], job.inputs0 + job.inputs1, job.grandparents)
             else job.grandparents == []
    ensures JobFrom(v, level, start, limit, job)
  {
    hide CoversNext, IsLargestKey, Grown, BoundaryClosed, ContinuesNext;
    forall f | f in start ensures f in job.inputs0 {
      assert start <= first0;
      var i :| 0 <= i < |start| && start[i] == f;
      assert first0[i] == f;
    }
  }

  lemma {:induction false} PrefixIsGood(level: nat, fs: seq<File>, ins: seq<File>, n: nat)
    requires level > 0 && GoodInputs(level, fs, ins) && 0 < n <= |ins|
    ensures GoodInputs(level, fs, ins[..n])
  {
    var from: nat, to: nat :| IsRun(fs, ins, from, to);
    assert IsRun(fs, ins[..n], from, from + n);
  }

  /** `n` is the least positive number of files whose size reaches the limit; all of them if none does. */
  predicate CutAt(fs: seq<File>, limit: nat, n: nat) {
    && 0 < n <= |fs| && (n == |fs| || TotalFileSize(fs[..n]) >= limit)
    && forall m :: 0 < m < n ==> TotalFileSize(fs[..m]) < limit
  }

  /** What the compaction of a key range starts from: at level 0 every file linked to the range, deeper as many of the
      overlapping files, from the first on, as the size limit allows. */
  ghost predicate StartOfRange(level: nat, fs: seq<File>, begin: Option<UserKey>, end: Option<UserKey>, limit: nat,
                               start: seq<File>) {
    if level == 0 then forall f :: f in start <==> Reachable(fs, f, begin, end)
    else exists n: nat :: CutAt(Overlapping(fs, begin, end), limit, n) && start == Overlapping(fs, begin, end)[..n]
  }

  /** At level 0 every file that overlaps the range is compacted, deeper at least the first. */
  lemma {:induction false} RangeIsCompacted(v: Levels, level: nat, begin: Option<UserKey>, end: Option<UserKey>,
                                            fileSizeLimit: nat, start: seq<File>, limit: nat, job: Job)
    requires |v| == NUM_LEVELS && level < NUM_LEVELS
    requires StartOfRange(level, v[level], begin, end, fileSizeLimit, start) && JobFrom(v, level, start, limit, job)
    ensures level == 0 ==> forall f :: f in v[0] && Overlaps(f, begin, end) ==> f in job.inputs0
    ensures level > 0 ==> var o := Overlapping(v[level], begin, end); o != [] && o[0] in job.inputs0
  {
    hide InputsOf, CoversNext, IsLargestKey;
    if level == 0 {
      forall f | f in v[0] && Overlaps(f, begin, end) ensures f in job.inputs0 {
        assert Linked(v[0], f, begin, end, 0);
      }
    } else {
      assert start[0] in start;
    }
  }

  lemma {:induction false} FirstOverlap(fs: seq<File>, n: nat, lo: Option<UserKey>, hi: Option<UserKey>)
    requires n <= |fs|
    ensures var o := OverlappingTo(fs, n, lo, hi);
            o != [] ==> exists k :: 0 <= k < n && fs[k] == o[0] && forall j :: 0 <= j < k ==> !Overlaps(fs[j], lo, hi)
    ensures OverlappingTo(fs, n, lo, hi) == [] ==> forall j :: 0 <= j < n ==> !Overlaps(fs[j], lo, hi)
  {
    if n > 0 {
      FirstOverlap(fs, n - 1, lo, hi);
    }
  }

  /** What a round of a manual compaction leaves of its range lies at or after the end of the round's last input. */
  lemma {:induction false} RestOfRange(v: Levels, level: nat, begin: Option<UserKey>, end: Option<UserKey>,
                                       fileSizeLimit: nat, start: seq<File>, limit: nat, job: Job)
    requires LevelOrder(v) && JobOk(v, job) && JobFrom(v, level, start, limit, job)
    requires StartOfRange(level, v[level], begin, end, fileSizeLimit, start)
    ensures job.inputs0 != [] && job.inputs0[0] in v[level]
    ensures var last := job.inputs0[|job.inputs0| - 1];
            forall f :: f in v[level] && f !in job.inputs0 && Overlaps(f, begin, end) ==>
              Overlaps(f, Some(last.largest.user), end)
  {
    hide LevelOrder, LevelOk, JobFrom, JobOk, StartOfRange, Overlapping, GoodInputs, Overlaps;
    JobInputs(v, level, start, limit, job);
    LevelsOk(v, level);
    RangeIsCompacted(v, level, begin, end, fileSizeLimit, start, limit, job);
    GoodInputsInLevel(level, v[level], job.inputs0);
    assert job.inputs0[0] in job.inputs0;
    if level > 0 {
      RestOfRun(level, v[level], begin, end, job.inputs0);
    }
  }

  lemma {:induction false} JobInputs(v: Levels, level: nat, start: seq<File>, limit: nat, job: Job)
    requires JobOk(v, job) && JobFrom(v, level, start, limit, job)
    ensures level + 1 < NUM_LEVELS && job.level == level && GoodInputs(level, v[level], job.inputs0)
  {
    hide GoodInputs, InputsOf, CoversNext, BoundaryClosed, IsLargestKey;
  }

  lemma {:induction false} RestOfRun(level: nat, fs: seq<File>, begin: Option<UserKey>, end: Option<UserKey>,
                                     inputs0: seq<File>)
    requires level > 0 && LevelOk(level, fs) && GoodInputs(level, fs, inputs0) && inputs0 != []
    requires Overlapping(fs, begin, end) != [] && Overlapping(fs, begin, end)[0] in inputs0
    ensures var last := inputs0[|inputs0| - 1];
            forall f :: f in fs && f !in inputs0 && Overlaps(f, begin, end) ==> Overlaps(f, Some(last.largest.user), end)
  {
    hide FilesOk, Overlapping, Disjoint, RangesOk, Overlaps;
    FilesHaveRanges(fs);
    var from: nat, to: nat :| IsRun(fs, inputs0, from, to);
    FirstIsFirst(fs, begin, end);
    var first := Overlapping(fs, begin, end)[0];
    var k :| 0 <= k < |fs| && fs[k] == first && forall j :: 0 <= j < k ==> !Overlaps(fs[j], begin, end);
    var p :| 0 <= p < |inputs0| && inputs0[p] == first;
    assert fs[from + p] == first && inputs0[|inputs0| - 1] == fs[to - 1];
    forall f | f in fs && f !in inputs0 && Overlaps(f, begin, end) ensures Overlaps(f, Some(fs[to - 1].largest.user), end) {
      var q :| 0 <= q < |fs| && fs[q] == f;
      assert k <= q;
      AfterRun(fs, from, to, p, k, q);
      StillOverlaps(f, begin, end, fs[to - 1].largest.user);
    }
  }

  lemma {:induction false} StillOverlaps(f: File, begin: Option<UserKey>, end: Option<UserKey>, later: UserKey)
    requires Overlaps(f, begin, end) && later <= f.largest.user
    ensures Overlaps(f, Some(later), end)
  {
  }

  lemma {:induction false} FirstIsFirst(fs: seq<File>, lo: Option<UserKey>, hi: Option<UserKey>)
    ensures var o := Overlapping(fs, lo, hi);
            o != [] ==> exists k :: 0 <= k < |fs| && fs[k] == o[0] && forall j :: 0 <= j < k ==> !Overlaps(fs[j], lo, hi)
  {
    FirstOverlap(fs, |fs|, lo, hi);
  }

  /** A file outside a run of a sorted level, and not before a file of the run, lies after the run. */
  lemma {:induction false} AfterRun(fs: seq<File>, from: nat, to: nat, p: nat, k: nat, q: nat)
    requires RangesOk(fs) && Disjoint(fs) && from < to <= |fs| && from + p < to && k < |fs| && q < |fs|
    requires fs[from + p] == fs[k] && k <= q && fs[q] !in fs[from..to]
    ensures fs[to - 1].largest.user <= fs[q].smallest.user <= fs[q].largest.user
  {
    OneIndex(fs, from + p, k);
    InSlice(fs, from, to, q);
    RunsForward(fs, if q < to then q else to - 1, q);
  }

  lemma {:induction false} OneIndex(fs: seq<File>, a: nat, b: nat)
    requires RangesOk(fs) && Disjoint(fs) && a < |fs| && b < |fs| && fs[a] == fs[b]
    ensures a == b
  {
  }

  lemma {:induction false} InSlice(fs: seq<File>, from: nat, to: nat, q: nat)
    requires from <= to <= |fs| && q < |fs|
    ensures from <= q < to ==> fs[q] in fs[from..to]
  {
    if from <= q < to {
      assert fs[from..to][q - from] == fs[q];
    }
  }

  /** A manual compaction of a key range: nothing to do exactly when no file overlaps it. */
  method CompactRange(v: Levels, level: nat, begin: Option<UserKey>, end: Option<UserKey>,
                      fileSizeLimit: nat, expansionLimit: nat) returns (job: Option<Job>, ghost start: seq<File>)
    requires LevelOrder(v) && level + 1 < NUM_LEVELS
    ensures job.None? <==> forall f :: f in v[level] ==> !Overlaps(f, begin, end)
    ensures job.Some? ==>
              && job.value.level == level && JobOk(v, job.value) && JobFrom(v, level, start, expansionLimit, job.value)
              && StartOfRange(level, v[level], begin, end, fileSizeLimit, start)
  {
    hide GoodInputs, LevelOrder, WellChosen, InputsOf, Found, UserClosed, JobFrom, JobOk;
    LevelsOk(v, level);
    var inputs;
    ghost var lo, hi;
    inputs, lo, hi := GetOverlappingInputs(level, v[level], begin, end);
    RangeIsFound(level, v[level], begin, end, inputs);
    start := inputs;
    if inputs == [] {
      return None, start;
    }
    if level > 0 {
      inputs := CutInputs(level, v[level], inputs, fileSizeLimit);
    } else {
      ZeroIsGood(v[0], inputs, lo, hi);
    }
    start := inputs;
    var made := SetUp(v, level, inputs, expansionLimit);
    job := Some(made);
  }

  lemma {:induction false} ZeroIsGood(fs: seq<File>, inputs: seq<File>, lo: Option<UserKey>, hi: Option<UserKey>)
    requires inputs != [] && UserClosed(fs, inputs) && inputs == Overlapping(fs, lo, hi)
    ensures GoodInputs(0, fs, inputs)
  {
  }

  /** What is found for a range is empty exactly if nothing overlaps it, and at level 0 holds all that does. */
  lemma {:induction false} RangeIsFound(level: nat, fs: seq<File>, begin: Option<UserKey>, end: Option<UserKey>,
                                        inputs: seq<File>)
    requires Found(level, fs, begin, end, inputs)
    ensures inputs == [] <==> forall f :: f in fs ==> !Overlaps(f, begin, end)
    ensures forall f :: f in fs && Overlaps(f, begin, end) ==> f in inputs
    ensures level > 0 ==> inputs == Overlapping(fs, begin, end)
    ensures level == 0 ==> forall f :: f in inputs <==> Reachable(fs, f, begin, end)
  {
    forall f | f in fs && Overlaps(f, begin, end) ensures f in inputs {
      if level == 0 {
        assert Linked(fs, f, begin, end, 0);
      }
    }
    if inputs != [] {
      assert inputs[0] in inputs;
      if level == 0 {
        SomeFileOverlaps(fs, inputs[0], begin, end);
      }
    }
  }

  /** The files of the range from the first on, as many as the size limit allows. */
  method CutInputs(level: nat, fs: seq<File>, found: seq<File>, fileSizeLimit: nat) returns (inputs: seq<File>)
    requires level > 0 && LevelOk(level, fs) && found != [] && exists lo, hi :: found == Overlapping(fs, lo, hi)
    ensures GoodInputs(level, fs, inputs)
    ensures exists n: nat :: CutAt(found, fileSizeLimit, n) && inputs == found[..n]
    ensures inputs != [] && inputs[0] == found[0]
  {
    hide GoodInputs;
    FoundIsGood(level, fs, found);
    inputs := found;
    var total: nat, i := 0, 0;
    assert TotalFileSize(found[..0]) == 0;
    while i < |inputs|
      invariant i <= |inputs| && inputs == found && total == TotalFileSize(found[..i])
      invariant forall m :: 0 < m <= i ==> TotalFileSize(found[..m]) < fileSizeLimit
    {
      total := total + inputs[i].size;
      assert found[..i + 1][..i] == found[..i];
      if total >= fileSizeLimit {
        PrefixIsGood(level, fs, inputs, i + 1);
        inputs := inputs[..i + 1];
        assert CutAt(found, fileSizeLimit, i + 1);
        return;
      }
      i := i + 1;
    }
    assert found[..|found|] == found;
    assert CutAt(found, fileSizeLimit, |found|);
  }

  lemma {:induction false} FoundIsGood(level: nat, fs: seq<File>, found: seq<File>)
    requires level > 0 && LevelOk(level, fs) && found != [] && exists lo, hi :: found == Overlapping(fs, lo, hi)
    ensures GoodInputs(level, fs, found)
  {
    var lo, hi :| found == Overlapping(fs, lo, hi);
    FilesHaveRanges(fs);
    OverlappingIsGood(level, fs, lo, hi);
  }

  lemma {:induction false} SomeFileOverlaps(fs: seq<File>, f: File, begin: Option<UserKey>, end: Option<UserKey>)
    requires Reachable(fs, f, begin, end)
    ensures exists g :: g in fs && Overlaps(g, begin, end)
  {
    var n: nat :| Linked(fs, f, begin, end, n);
    ChainStart(fs, f, begin, end, n);
  }

  lemma {:induction false} ChainStart(fs: seq<File>, f: File, begin: Option<UserKey>, end: Option<UserKey>, n: nat)
    requires Linked(fs, f, begin, end, n)
    ensures exists g :: g in fs && Overlaps(g, begin, end)
    decreases n
  {
    if n > 0 {
      var g :| Linked(fs, g, begin, end, n - 1) && UserOverlap(f, g);
      ChainStart(fs, g, begin, end, n - 1);
    }
  }

  // ----- where a flushed memtable goes -------------------------------------

  ghost predicate NoOverlap(fs: seq<File>, lo: UserKey, hi: UserKey) {
    forall f :: f in fs ==> !Overlaps(f, Some(lo), Some(hi))
  }

  /** A file over [lo, hi] may sink from `level` to `level + 1`. */
  ghost predicate MaySink(v: Levels, level: nat, lo: UserKey, hi: UserKey, overlapLimit: nat)
    requires |v| == NUM_LEVELS && level + 1 < NUM_LEVELS
  {
    && NoOverlap(v[level + 1], lo, hi)
    && (level + 2 < NUM_LEVELS ==>
          TotalFileSize(Overlapping(v[level + 2], Some(lo), Some(hi))) <= overlapLimit)
  }

  /** The level a flushed file over [lo, hi] goes to: 0 if it overlaps level 0, else the deepest of the first three that
      it reaches by sinking. */
  ghost predicate FlushLevel(v: Levels, lo: UserKey, hi: UserKey, overlapLimit: nat, level: nat) {
    && |v| == NUM_LEVELS && level <= 2
    && if NoOverlap(v[0], lo, hi)
       then (forall l :: 0 <= l < level ==> MaySink(v, l, lo, hi, overlapLimit))
            && (level < 2 ==> !MaySink(v, level, lo, hi, overlapLimit))
       else level == 0
  }

  /** The deepest level, at most MAX_MEM_COMPACT_LEVEL, that the file reaches by sinking. */
  method PickLevelForMemTableOutput(v: Levels, lo: UserKey, hi: UserKey, overlapLimit: nat) returns (level: nat)
    requires LevelOrder(v)
    ensures level <= MAX_MEM_COMPACT_LEVEL
    ensures !NoOverlap(v[0], lo, hi) ==> level == 0
    ensures NoOverlap(v[0], lo, hi) ==> forall l :: 0 <= l < level ==> MaySink(v, l, lo, hi, overlapLimit)
    ensures NoOverlap(v[0], lo, hi) && level < MAX_MEM_COMPACT_LEVEL ==> !MaySink(v, level, lo, hi, overlapLimit)
    ensures FlushLevel(v, lo, hi, overlapLimit, level)
  {
    level := 0;
    var overlap := SomeFileOverlapsRange(false, v[0], Some(lo), Some(hi));
    if !overlap {
      while level < MAX_MEM_COMPACT_LEVEL
        invariant level <= MAX_MEM_COMPACT_LEVEL
        invariant forall l :: 0 <= l < level ==> MaySink(v, l, lo, hi, overlapLimit)
      {
        overlap := SomeFileOverlapsRange(true, v[level + 1], Some(lo), Some(hi));
        if overlap {
          break;
        }
        if level + 2 < NUM_LEVELS {
          var overlaps;
          ghost var a, b;
          overlaps, a, b := GetOverlappingInputs(level + 2, v[level + 2], Some(lo), Some(hi));
          if TotalFileSize(overlaps) > overlapLimit {
            break;
          }
        }
        level := level + 1;
      }
    }
  }

  // ----- IsBaseLevelForKey -------------------------------------------------

  /** No file two or more levels below `level` has `user` in its range. */
  ghost predicate BaseLevel(v: Levels, level: nat, user: UserKey) {
    forall l, f :: level + 2 <= l < |v| && f in v[l] ==> !Covers(f, user)
  }

  /** The moving pointers that answer IsBaseLevelForKey for ascending keys. */
  class Compaction {
    const version: Levels
    const level: nat
    const levelPtrs: array<nat>
    ghost var asked: Option<UserKey>

    constructor (v: Levels, level: nat)
      requires |v| == NUM_LEVELS
      ensures Valid() && fresh(levelPtrs) && version == v && this.level == level && asked == None
    {
      version, this.level := v, level;
      levelPtrs := new nat[NUM_LEVELS](_ => 0);
      asked := None;
    }

    /** Files passed over end before every key asked about so far. */
    ghost predicate Valid()
      reads this, levelPtrs
    {
      && |version| == NUM_LEVELS && levelPtrs.Length == NUM_LEVELS
      && (asked.None? ==> forall l :: 0 <= l < NUM_LEVELS ==> levelPtrs[l] == 0)
      && forall l :: 0 <= l < NUM_LEVELS ==> levelPtrs[l] <= |version[l]| && PassedOver(version[l], levelPtrs[l], asked)
    }

    method IsBaseLevelForKey(user: UserKey) returns (base: bool)
      requires Valid() && LevelOrder(version)
      requires asked.Some? ==> asked.value <= user
      modifies this`asked, levelPtrs
      ensures Valid() && asked == Some(user)
      ensures base <==> BaseLevel(version, level, user)
    {
      asked := Some(user);
      var lvl := level + 2;
      while lvl < NUM_LEVELS
        invariant level + 2 <= lvl
        invariant Valid() && asked == Some(user)
        invariant forall l, f :: level + 2 <= l < lvl && l < NUM_LEVELS && f in version[l] ==> !Covers(f, user)
      {
        var covered := LevelCovers(lvl, user);
        if covered {
          return false;
        }
        lvl := lvl + 1;
      }
      base := true;
    }

    /** Moves one level's pointer to the first file ending at or after `user`. */
    method LevelCovers(lvl: nat, user: UserKey) returns (covered: bool)
      requires Valid() && asked == Some(user) && 1 <= lvl < NUM_LEVELS
      requires FilesOk(version[lvl]) && Disjoint(version[lvl])
      modifies levelPtrs
      ensures Valid() && asked == Some(user)
      ensures covered <==> exists f :: f in version[lvl] && Covers(f, user)
    {
      var files := version[lvl];
      while levelPtrs[lvl] < |files|
        invariant Valid() && asked == Some(user)
        invariant levelPtrs[lvl] <= |files|
        decreases |files| - levelPtrs[lvl]
      {
        var f := files[levelPtrs[lvl]];
        if user <= f.largest.user {
          if user >= f.smallest.user {
            assert f in version[lvl] && Covers(f, user);
            return true;
          }
          break;
        }
        levelPtrs[lvl] := levelPtrs[lvl] + 1;
      }
      FilesHaveRanges(files);
      NotCovered(files, levelPtrs[lvl], user);
      covered := false;
    }
  }

  ghost predicate PassedOver(fs: seq<File>, n: nat, asked: Option<UserKey>) {
    n <= |fs| && (asked.Some? ==> forall k :: 0 <= k < n ==> fs[k].largest.user < asked.value)
  }

  lemma {:induction false} NotCovered(fs: seq<File>, n: nat, user: UserKey)
    requires RangesOk(fs) && Disjoint(fs) && PassedOver(fs, n, Some(user))
    requires n < |fs| ==> user < fs[n].smallest.user
    ensures forall f :: f in fs ==> !Covers(f, user)
  {
    forall f | f in fs ensures !Covers(f, user) {
      var k :| 0 <= k < |fs| && fs[k] == f;
      if k > n {
        LargestAscends(fs, n, k);
      }
    }
  }
}
