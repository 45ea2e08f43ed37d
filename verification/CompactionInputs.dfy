/** The files that overlap a range and those that continue its last key (db/version_set.cc:
    GetOverlappingInputs, FindLargestKey, AddBoundaryInputs).
 */
module CompactionInputs {
  import opened DbFormat
  import opened Version

  // ----- overlap -----------------------------------------------------------

  /** The files of `fs` that may hold a user key between `lo` and `hi`, in order. */
  function Overlapping(fs: seq<File>, lo: Option<UserKey>, hi: Option<UserKey>): (r: seq<File>)
    ensures forall f :: f in r <==> f in fs && Overlaps(f, lo, hi)
  {
    OverlappingToMembers(fs, |fs|, lo, hi);
    OverlappingTo(fs, |fs|, lo, hi)
  }

  function OverlappingTo(fs: seq<File>, n: nat, lo: Option<UserKey>, hi: Option<UserKey>): (r: seq<File>)
    requires n <= |fs|
  {
    if n == 0 then []
    else if Overlaps(fs[n - 1], lo, hi) then OverlappingTo(fs, n - 1, lo, hi) + [fs[n - 1]]
    else OverlappingTo(fs, n - 1, lo, hi)
  }

  lemma {:induction false} OverlappingToMembers(fs: seq<File>, n: nat, lo: Option<UserKey>, hi: Option<UserKey>)
    requires n <= |fs|
    ensures forall f :: f in OverlappingTo(fs, n, lo, hi) <==> f in fs[..n] && Overlaps(f, lo, hi)
    ensures fs[..|fs|] == fs
  {
    if n > 0 {
      OverlappingToMembers(fs, n - 1, lo, hi);
      assert fs[..n] == fs[..n - 1] + [fs[n - 1]];
    }
  }

  predicate Covers(f: File, user: UserKey) {
    f.smallest.user <= user <= f.largest.user
  }

  predicate UserOverlap(f: File, g: File) {
    f.smallest.user <= g.largest.user && g.smallest.user <= f.largest.user
  }

  predicate InRange(user: UserKey, lo: Option<UserKey>, hi: Option<UserKey>) {
    (lo.Some? ==> lo.value <= user) && (hi.Some? ==> user <= hi.value)
  }

  /** `f` is linked to the range by a chain of `n + 1` files, each overlapping the next. */
  ghost predicate Linked(fs: seq<File>, f: File, lo: Option<UserKey>, hi: Option<UserKey>, n: nat)
    decreases n
  {
    if n == 0 then f in fs && Overlaps(f, lo, hi)
    else f in fs && exists g :: Linked(fs, g, lo, hi, n - 1) && UserOverlap(f, g)
  }

  /** `f` must be compacted together with the range: some chain of overlapping files links it. */
  ghost predicate Reachable(fs: seq<File>, f: File, lo: Option<UserKey>, hi: Option<UserKey>) {
    exists n: nat :: Linked(fs, f, lo, hi, n)
  }

  /** A user key of the given range, or inside some reachable file. */
  ghost predicate Reached(fs: seq<File>, user: UserKey, lo: Option<UserKey>, hi: Option<UserKey>) {
    InRange(user, lo, hi) || exists f :: Reachable(fs, f, lo, hi) && Covers(f, user)
  }

  /** `f` lies inside the range on every bounded side. */
  predicate Within(f: File, lo: Option<UserKey>, hi: Option<UserKey>) {
    (lo.Some? ==> lo.value <= f.smallest.user) && (hi.Some? ==> f.largest.user <= hi.value)
  }

  /** [lo, hi] is a widening of [begin, end] to which every point is linked. */
  ghost predicate Widened(fs: seq<File>, begin: Option<UserKey>, end: Option<UserKey>,
                          lo: Option<UserKey>, hi: Option<UserKey>) {
    && (begin.None? <==> lo.None?) && (end.None? <==> hi.None?)
    && (lo.Some? ==> lo.value <= begin.value) && (hi.Some? ==> end.value <= hi.value)
    && (lo.Some? && hi.Some? && lo.value > hi.value ==> lo == begin && hi == end)
    && forall p :: InRange(p, lo, hi) ==> Reached(fs, p, begin, end)
  }

  lemma {:induction false} RangeIsWidened(fs: seq<File>, begin: Option<UserKey>, end: Option<UserKey>)
    ensures Widened(fs, begin, end, begin, end)
  {
  }

  lemma {:induction false} OverlapIsReachable(fs: seq<File>, f: File, begin: Option<UserKey>, end: Option<UserKey>,
                           lo: Option<UserKey>, hi: Option<UserKey>)
    requires f in fs && f.smallest.user <= f.largest.user
    requires Widened(fs, begin, end, lo, hi) && Overlaps(f, lo, hi)
    ensures Reachable(fs, f, begin, end)
  {
    if Overlaps(f, begin, end) {
      assert Linked(fs, f, begin, end, 0);
    } else {
      var p := if lo.Some? && lo.value > f.smallest.user then lo.value else f.smallest.user;
      assert InRange(p, lo, hi);
      assert Reached(fs, p, begin, end);
      var g :| Reachable(fs, g, begin, end) && Covers(g, p);
      var m: nat :| Linked(fs, g, begin, end, m);
      assert UserOverlap(f, g);
      assert Linked(fs, f, begin, end, m + 1);
    }
  }

  lemma {:induction false} WidenToFile(fs: seq<File>, f: File, begin: Option<UserKey>, end: Option<UserKey>,
                    lo: Option<UserKey>, hi: Option<UserKey>)
    requires f in fs && f.smallest.user <= f.largest.user
    requires Widened(fs, begin, end, lo, hi) && Overlaps(f, lo, hi)
    ensures lo.Some? && f.smallest.user < lo.value ==> Widened(fs, begin, end, Some(f.smallest.user), hi)
    ensures hi.Some? && hi.value < f.largest.user ==> Widened(fs, begin, end, lo, Some(f.largest.user))
  {
    OverlapIsReachable(fs, f, begin, end, lo, hi);
    if lo.Some? && f.smallest.user < lo.value {
      forall p | InRange(p, Some(f.smallest.user), hi) ensures Reached(fs, p, begin, end) {
        assert InRange(p, lo, hi) || Covers(f, p);
      }
    }
    if hi.Some? && hi.value < f.largest.user {
      forall p | InRange(p, lo, Some(f.largest.user)) ensures Reached(fs, p, begin, end) {
        assert InRange(p, lo, hi) || Covers(f, p);
      }
    }
  }

  lemma {:induction false} LinkedStaysInside(fs: seq<File>, f: File, begin: Option<UserKey>, end: Option<UserKey>,
                          lo: Option<UserKey>, hi: Option<UserKey>, n: nat)
    requires Widened(fs, begin, end, lo, hi)
    requires AllWithin(fs, lo, hi)
    requires Linked(fs, f, begin, end, n)
    ensures Overlaps(f, lo, hi)
    decreases n
  {
    if n > 0 {
      var g :| Linked(fs, g, begin, end, n - 1) && UserOverlap(f, g);
      LinkedStaysInside(fs, g, begin, end, lo, hi, n - 1);
      LinkedInFiles(fs, g, begin, end, n - 1);
    }
  }

  lemma {:induction false} LinkedInFiles(fs: seq<File>, f: File, begin: Option<UserKey>, end: Option<UserKey>, n: nat)
    requires Linked(fs, f, begin, end, n)
    ensures f in fs
  {
  }

  ghost function StartsBefore(fs: seq<File>, lo: Option<UserKey>): set<File> {
    set f | f in fs && lo.Some? && f.smallest.user < lo.value
  }

  ghost function EndsAfter(fs: seq<File>, hi: Option<UserKey>): set<File> {
    set f | f in fs && hi.Some? && f.largest.user > hi.value
  }

  lemma {:induction false} FewerOutside(fs: seq<File>, f: File, lo: Option<UserKey>, hi: Option<UserKey>)
    requires f in fs
    ensures lo.Some? && f.smallest.user < lo.value ==>
              StartsBefore(fs, Some(f.smallest.user)) < StartsBefore(fs, lo)
    ensures hi.Some? && hi.value < f.largest.user ==>
              EndsAfter(fs, Some(f.largest.user)) < EndsAfter(fs, hi)
  {
    assert f !in StartsBefore(fs, Some(f.smallest.user));
    assert f !in EndsAfter(fs, Some(f.largest.user));
    assert lo.Some? && f.smallest.user < lo.value ==> f in StartsBefore(fs, lo);
    assert hi.Some? && hi.value < f.largest.user ==> f in EndsAfter(fs, hi);
  }

  /** The files met so far, all of them inside the range. */
  ghost predicate AllWithin(fs: seq<File>, lo: Option<UserKey>, hi: Option<UserKey>) {
    forall k :: 0 <= k < |fs| && Overlaps(fs[k], lo, hi) ==> Within(fs[k], lo, hi)
  }

  lemma {:induction false} AllWithinStep(fs: seq<File>, i: nat, lo: Option<UserKey>, hi: Option<UserKey>)
    requires i < |fs| && AllWithin(fs[..i], lo, hi)
    ensures (Overlaps(fs[i], lo, hi) ==> Within(fs[i], lo, hi)) ==> AllWithin(fs[..i + 1], lo, hi)
  {
    assert forall k :: 0 <= k < i ==> fs[..i][k] == fs[k];
    assert forall k :: 0 <= k <= i ==> fs[..i + 1][k] == fs[k];
  }

  /** `r` is what the search for a range finds at `level`: at level 0 all files that a chain of overlapping files links to
      it, deeper exactly the overlapping ones, and both in the order of the level. */
  ghost predicate Found(level: nat, fs: seq<File>, begin: Option<UserKey>, end: Option<UserKey>, r: seq<File>) {
    if level > 0 then r == Overlapping(fs, begin, end)
    else (forall f :: f in r <==> Reachable(fs, f, begin, end)) && exists lo, hi :: r == Overlapping(fs, lo, hi)
  }

  /** Files at `level` for the range; at level 0 the range grows with each file found
      and the search starts over. */
  method GetOverlappingInputs(level: nat, fs: seq<File>, begin: Option<UserKey>, end: Option<UserKey>)
    returns (inputs: seq<File>, ghost lo: Option<UserKey>, ghost hi: Option<UserKey>)
    requires FilesOk(fs)
    ensures inputs == Overlapping(fs, lo, hi)
    ensures level > 0 ==> lo == begin && hi == end
    ensures level == 0 ==> forall f :: f in inputs <==> Reachable(fs, f, begin, end)
    ensures level == 0 ==> UserClosed(fs, inputs)
    ensures Found(level, fs, begin, end, inputs)
  {
    RangeIsWidened(fs, begin, end);
    var userBegin, userEnd := begin, end;
    inputs := [];
    var i := 0;
    while i < |fs|
      invariant i <= |fs|
      invariant level == 0 ==> Widened(fs, begin, end, userBegin, userEnd)
      invariant level > 0 ==> userBegin == begin && userEnd == end
      invariant inputs == OverlappingTo(fs, i, userBegin, userEnd)
      invariant level == 0 ==> AllWithin(fs[..i], userBegin, userEnd)
      decreases StartsBefore(fs, userBegin), EndsAfter(fs, userEnd), |fs| - i
    {
      var f := fs[i];
      EntryInRange(f, f.entries[0]);
      FewerOutside(fs, f, userBegin, userEnd);
      if level == 0 {
        AllWithinStep(fs, i, userBegin, userEnd);
      }
      i := i + 1;
      if AfterFile(userBegin, f) {
        // completely before the range
      } else if BeforeFile(userEnd, f) {
        // completely after the range
      } else {
        inputs := inputs + [f];
        if level == 0 {
          WidenToFile(fs, f, begin, end, userBegin, userEnd);
          if userBegin.Some? && f.smallest.user < userBegin.value {
            userBegin := Some(f.smallest.user);
            inputs := [];
            i := 0;
          } else if userEnd.Some? && f.largest.user > userEnd.value {
            userEnd := Some(f.largest.user);
            inputs := [];
            i := 0;
          }
        }
      }
    }
    assert fs[..|fs|] == fs;
    lo, hi := userBegin, userEnd;
    if level == 0 {
      ClosedRange(fs, begin, end, lo, hi);
    }
  }

  /** No file outside `ins` shares a user-key range with a file of `ins`. */
  ghost predicate UserClosed(fs: seq<File>, ins: seq<File>) {
    forall f, g :: f in ins && g in fs && UserOverlap(f, g) ==> g in ins
  }

  lemma {:induction false} ClosedRange(fs: seq<File>, begin: Option<UserKey>, end: Option<UserKey>,
                    lo: Option<UserKey>, hi: Option<UserKey>)
    requires FilesOk(fs) && Widened(fs, begin, end, lo, hi)
    requires AllWithin(fs, lo, hi)
    ensures forall f :: f in Overlapping(fs, lo, hi) <==> Reachable(fs, f, begin, end)
    ensures UserClosed(fs, Overlapping(fs, lo, hi))
  {
    forall f ensures f in Overlapping(fs, lo, hi) <==> Reachable(fs, f, begin, end) {
      if f in Overlapping(fs, lo, hi) {
        EntryInRange(f, f.entries[0]);
        OverlapIsReachable(fs, f, begin, end, lo, hi);
      }
      if Reachable(fs, f, begin, end) {
        var n: nat :| Linked(fs, f, begin, end, n);
        LinkedStaysInside(fs, f, begin, end, lo, hi, n);
        LinkedInFiles(fs, f, begin, end, n);
      }
    }
  }

  // ----- boundary files ----------------------------------------------------

  method FindLargestKey(fs: seq<File>) returns (largest: Option<InternalKey>)
    requires FilesOk(fs)
    ensures largest.None? <==> fs == []
    ensures largest.Some? ==> IsLargestKey(fs, largest.value)
  {
    if fs == [] {
      return None;
    }
    var k := fs[0].largest;
    assert fs[..1] == [fs[0]] && fs[0] in fs[..1];
    hide IsLargestKey;
    for i := 1 to |fs|
      invariant IsLargestKey(fs[..i], k)
    {
      LargerOf(fs, i, k);
      if Compare(fs[i].largest, k) > 0 {
        k := fs[i].largest;
      }
    }
    assert fs[..|fs|] == fs;
    largest := Some(k);
  }

  lemma {:induction false} LargerOf(fs: seq<File>, i: nat, k: InternalKey)
    requires i < |fs| && IsLargestKey(fs[..i], k)
    ensures IsLargestKey(fs[..i + 1], if Less(k, fs[i].largest) then fs[i].largest else k)
  {
    var before, now := fs[..i], fs[..i + 1];
    assert now == before + [fs[i]];
    assert fs[i] in now;
    var f :| f in before && f.largest == k;
    assert f in now;
  }

  ghost predicate IsLargestKey(fs: seq<File>, k: InternalKey) {
    (exists f :: f in fs && f.largest == k) && forall f :: f in fs ==> !Less(k, f.largest)
  }

  /** `f` starts with an older entry of the user key that ends at `largest`. */
  predicate IsBoundary(f: File, largest: InternalKey) {
    Less(largest, f.smallest) && f.smallest.user == largest.user
  }

  method FindSmallestBoundaryFile(levelFiles: seq<File>, largest: InternalKey) returns (found: Option<File>)
    ensures found.None? ==> forall f :: f in levelFiles ==> !IsBoundary(f, largest)
    ensures found.Some? ==> found.value in levelFiles && IsBoundary(found.value, largest)
                            && forall f :: f in levelFiles && IsBoundary(f, largest)
                                           ==> !Less(f.smallest, found.value.smallest)
  {
    found := None;
    for i := 0 to |levelFiles|
      invariant found.None? ==> forall k :: 0 <= k < i ==> !IsBoundary(levelFiles[k], largest)
      invariant found.Some? ==> found.value in levelFiles && IsBoundary(found.value, largest)
                                && forall k :: 0 <= k < i && IsBoundary(levelFiles[k], largest)
                                               ==> !Less(levelFiles[k].smallest, found.value.smallest)
    {
      var f := levelFiles[i];
      if Compare(f.smallest, largest) > 0 && f.smallest.user == largest.user {
        if found.None? || Compare(f.smallest, found.value.smallest) < 0 {
          found := Some(f);
        }
      }
    }
  }

  /** `ins` is a contiguous, non-empty part of the level. */
  ghost predicate IsRun(fs: seq<File>, ins: seq<File>, from: nat, to: nat) {
    from < to <= |fs| && ins == fs[from..to]
  }

  /** What a compaction may start from: a run of a sorted level, or an overlap-closed part of level 0. */
  ghost predicate GoodInputs(level: nat, fs: seq<File>, ins: seq<File>) {
    if level == 0 then ins != [] && UserClosed(fs, ins) && exists lo, hi :: ins == Overlapping(fs, lo, hi)
    else exists from: nat, to: nat :: IsRun(fs, ins, from, to)
  }

  ghost predicate LevelOk(level: nat, fs: seq<File>) {
    FilesOk(fs) && (level > 0 ==> Disjoint(fs))
  }

  /** Every file of the level that continues the last user key of the inputs has been added. */
  ghost predicate BoundaryClosed(fs: seq<File>, ins: seq<File>) {
    forall k, f :: IsLargestKey(ins, k) && f in fs ==> !IsBoundary(f, k)
  }

  /** `f` continues the last user key of `ins`, and is the first such file of the level. */
  ghost predicate ContinuesNext(fs: seq<File>, ins: seq<File>, f: File) {
    exists k :: IsLargestKey(ins, k) && FirstBoundary(fs, k, f)
  }

  ghost predicate FirstBoundary(fs: seq<File>, k: InternalKey, f: File) {
    f in fs && IsBoundary(f, k) && forall g :: g in fs && IsBoundary(g, k) ==> !Less(g.smallest, f.smallest)
  }

  /** `r` is `ins` and then, one after the other, exactly the files that continue the last user key so far. */
  ghost predicate Continued(fs: seq<File>, ins: seq<File>, r: seq<File>) {
    Chain(fs, ins, r) && (ins != [] ==> BoundaryClosed(fs, r))
  }

  ghost predicate Chain(fs: seq<File>, ins: seq<File>, r: seq<File>) {
    ins <= r && forall i :: |ins| <= i < |r| ==> ContinuesNext(fs, r[..i], r[i])
  }

  ghost function BoundaryFiles(fs: seq<File>, largest: InternalKey): set<File> {
    set f | f in fs && Less(largest, f.smallest)
  }

  /** A boundary file takes over as the one with the largest key, and fewer files lie above it. */
  lemma {:induction false} BoundaryExtends(fs: seq<File>, ins: seq<File>, largest: InternalKey, f: File)
    requires FilesOk(fs) && FilesOk(ins) && IsLargestKey(ins, largest) && f in fs && IsBoundary(f, largest)
    ensures FilesOk(ins + [f]) && IsLargestKey(ins + [f], f.largest)
    ensures BoundaryFiles(fs, f.largest) < BoundaryFiles(fs, largest)
  {
    EntryInRange(f, f.entries[0]);
    assert f in BoundaryFiles(fs, largest) && f !in BoundaryFiles(fs, f.largest);
  }

  method AddBoundaryInputs(level: nat, levelFiles: seq<File>, compactionFiles: seq<File>)
    returns (r: seq<File>)
    requires LevelOk(level, levelFiles) && FilesOk(compactionFiles)
    ensures compactionFiles <= r
    ensures FilesOk(r) && forall f :: f in r ==> f in compactionFiles || f in levelFiles
    ensures compactionFiles != [] ==> BoundaryClosed(levelFiles, r)
    ensures GoodInputs(level, levelFiles, compactionFiles) ==> GoodInputs(level, levelFiles, r)
    ensures level == 0 && GoodInputs(level, levelFiles, compactionFiles) ==> r == compactionFiles
    ensures Continued(levelFiles, compactionFiles, r)
  {
    hide BoundaryFiles, FileOk, Chain;
    ChainStarts(levelFiles, compactionFiles);
    r := compactionFiles;
    var largest := FindLargestKey(r);
    if largest.None? {
      return;
    }
    var largestKey := largest.value;
    var continueSearching := true;
    while continueSearching
      invariant compactionFiles <= r && FilesOk(r)
      invariant forall f :: f in r ==> f in compactionFiles || f in levelFiles
      invariant IsLargestKey(r, largestKey)
      invariant Chain(levelFiles, compactionFiles, r)
      invariant !continueSearching ==> forall f :: f in levelFiles ==> !IsBoundary(f, largestKey)
      invariant GoodInputs(level, levelFiles, compactionFiles) ==> GoodInputs(level, levelFiles, r)
      invariant level == 0 && GoodInputs(level, levelFiles, compactionFiles) ==> r == compactionFiles
      decreases BoundaryFiles(levelFiles, largestKey), continueSearching
    {
      var next := FindSmallestBoundaryFile(levelFiles, largestKey);
      if next.Some? {
        var f := next.value;
        BoundaryExtends(levelFiles, r, largestKey, f);
        BoundaryExtendsInputs(level, levelFiles, r, largestKey, f);
        ChainGrows(levelFiles, compactionFiles, r, largestKey, f);
        r := r + [f];
        largestKey := f.largest;
      } else {
        continueSearching := false;
      }
    }
  }

  lemma {:induction false} ChainStarts(fs: seq<File>, ins: seq<File>)
    ensures Chain(fs, ins, ins)
  {
  }

  lemma {:induction false} ChainGrows(fs: seq<File>, ins: seq<File>, r: seq<File>, largest: InternalKey, f: File)
    requires Chain(fs, ins, r) && IsLargestKey(r, largest) && FirstBoundary(fs, largest, f)
    ensures Chain(fs, ins, r + [f])
  {
    var more := r + [f];
    forall i | |ins| <= i < |more| ensures ContinuesNext(fs, more[..i], more[i]) {
      if i < |r| {
        assert more[..i] == r[..i];
      } else {
        assert more[..i] == r;
      }
    }
  }

  lemma {:induction false} BoundaryExtendsInputs(level: nat, fs: seq<File>, ins: seq<File>, largest: InternalKey,
                                                 f: File)
    requires LevelOk(level, fs) && FilesOk(ins) && IsLargestKey(ins, largest)
    requires f in fs && IsBoundary(f, largest)
    requires forall g :: g in fs && IsBoundary(g, largest) ==> !Less(g.smallest, f.smallest)
    ensures level == 0 ==> !GoodInputs(level, fs, ins)
    ensures level > 0 && GoodInputs(level, fs, ins) ==> GoodInputs(level, fs, ins + [f])
  {
    if GoodInputs(level, fs, ins) {
      if level == 0 {
        var last :| last in ins && last.largest == largest;
        EntryInRange(last, last.entries[0]);
        EntryInRange(f, f.entries[0]);
        assert UserOverlap(last, f);
      } else {
        var from: nat, to: nat :| IsRun(fs, ins, from, to);
        FilesHaveRanges(fs);
        BoundaryExtendsRun(fs, ins, from, to, largest, f);
      }
    }
  }

  lemma {:induction false} BoundaryExtendsRun(fs: seq<File>, ins: seq<File>, from: nat, to: nat, largest: InternalKey,
                                              f: File)
    requires RangesOk(fs) && Disjoint(fs) && IsRun(fs, ins, from, to) && IsLargestKey(ins, largest)
    requires f in fs && IsBoundary(f, largest)
    requires forall g :: g in fs && IsBoundary(g, largest) ==> !Less(g.smallest, f.smallest)
    ensures IsRun(fs, ins + [f], from, to + 1)
  {
    LargestOfRun(fs, ins, from, to);
    LargestKeyIsUnique(ins, largest, fs[to - 1].largest);
    var b :| 0 <= b < |fs| && fs[b] == f;
    BoundaryIsNext(fs, to, b);
    assert fs[from..to + 1] == fs[from..to] + [fs[to]];
  }

  lemma {:induction false} BoundaryIsNext(fs: seq<File>, to: nat, b: nat)
    requires RangesOk(fs) && Disjoint(fs)
    requires 0 < to <= |fs| && b < |fs|
    requires IsBoundary(fs[b], fs[to - 1].largest)
    requires forall g :: g in fs && IsBoundary(g, fs[to - 1].largest) ==> !Less(g.smallest, fs[b].smallest)
    ensures b == to
  {
    if b < to {
      RunsForward(fs, b, to - 1);
    } else if b > to {
      RunsForward(fs, to, b);
      assert Less(fs[to - 1].largest, fs[to].smallest);
      assert fs[to] in fs && IsBoundary(fs[to], fs[to - 1].largest);
    }
  }

  /** Bounds of files in a sorted level, as comparisons only. */
  lemma {:induction false} RunsForward(fs: seq<File>, i: nat, j: nat)
    requires RangesOk(fs) && Disjoint(fs) && i <= j < |fs|
    ensures !Less(fs[j].largest, fs[i].largest) && !Less(fs[j].largest, fs[i].smallest)
    ensures i < j ==> Less(fs[i].largest, fs[j].smallest) && Less(fs[i].smallest, fs[j].smallest)
  {
  }

  lemma {:induction false} LargestKeyIsUnique(ins: seq<File>, k: InternalKey, l: InternalKey)
    requires IsLargestKey(ins, k) && IsLargestKey(ins, l)
    ensures k == l
  {
    assert !Less(k, l) && !Less(l, k);
    assert Compare(k, l) == 0;
  }

  // ----- what stays behind is newer ----------------------------------------

  /** Files of the level that are not inputs hold only newer data for the inputs' user keys. */
  ghost predicate LeavesNewer(fs: seq<File>, ins: seq<File>) {
    forall f, g :: f in ins && g in fs && g !in ins ==> NewerThan(g, f)
  }

  lemma {:induction false} ClosedInputsLeaveNewer(level: nat, fs: seq<File>, ins: seq<File>)
    requires LevelOk(level, fs) && UniqueSequences(EntrySet(fs))
    requires GoodInputs(level, fs, ins) && BoundaryClosed(fs, ins)
    ensures LeavesNewer(fs, ins)
  {
    forall f, g | f in ins && g in fs && g !in ins ensures NewerThan(g, f) {
      if level == 0 {
        assert !UserOverlap(f, g);
      } else {
        FilesHaveRanges(fs);
        LeftOutOfRun(fs, ins, f, g);
      }
      RangesApart(fs, f, g);
    }
  }

  lemma {:induction false} RangesApart(fs: seq<File>, f: File, g: File)
    requires FilesOk(fs) && UniqueSequences(EntrySet(fs)) && f in fs && g in fs
    requires Less(g.largest, f.smallest) || f.largest.user < g.smallest.user || g.largest.user < f.smallest.user
    ensures NewerThan(g, f)
  {
    forall e, x | e in g.entries && x in f.entries && e.key.user == x.key.user
      ensures e.key.sequence > x.key.sequence
    {
      EntryInRange(g, e);
      EntryInRange(f, x);
      SortedBeforeIsNewer(EntrySet(fs), e, x);
    }
  }

  lemma {:induction false} SortedBeforeIsNewer(db: set<Entry>, e: Entry, x: Entry)
    requires UniqueSequences(db) && e in db && x in db
    requires e.key.user == x.key.user && Less(e.key, x.key)
    ensures e.key.sequence > x.key.sequence
  {
  }

  lemma {:induction false} LeftOutOfRun(fs: seq<File>, ins: seq<File>, f: File, g: File)
    requires RangesOk(fs) && Disjoint(fs)
    requires GoodInputs(1, fs, ins) && BoundaryClosed(fs, ins)
    requires f in ins && g in fs && g !in ins
    ensures f in fs
    ensures Less(g.largest, f.smallest) || f.largest.user < g.smallest.user
  {
    var from: nat, to: nat :| IsRun(fs, ins, from, to);
    LargestOfRun(fs, ins, from, to);
    LeftOutSide(fs, ins, from, to, f, g);
  }

  lemma {:induction false} LeftOutSide(fs: seq<File>, ins: seq<File>, from: nat, to: nat, f: File, g: File)
    requires RangesOk(fs) && Disjoint(fs) && IsRun(fs, ins, from, to)
    requires f in ins && g in fs && g !in ins
    requires to < |fs| ==> !IsBoundary(fs[to], fs[to - 1].largest)
    ensures f in fs
    ensures Less(g.largest, f.smallest) || f.largest.user < g.smallest.user
  {
    var a :| 0 <= a < |ins| && ins[a] == f;
    assert fs[from + a] == f;
    var b :| 0 <= b < |fs| && fs[b] == g;
    assert forall k :: from <= k < to ==> ins[k - from] == fs[k] && ins[k - from] in ins;
    NotSharedToTheRight(fs, from + a, b, to);
  }

  lemma {:induction false} NotSharedToTheRight(fs: seq<File>, a: nat, b: nat, to: nat)
    requires RangesOk(fs) && Disjoint(fs) && a < to <= |fs| && b < |fs|
    requires !(a <= b < to)
    requires b >= to ==> !IsBoundary(fs[to], fs[to - 1].largest)
    ensures b < a ==> Less(fs[b].largest, fs[a].smallest)
    ensures b >= to ==> fs[a].largest.user < fs[b].smallest.user
  {
    if b >= to {
      RunsForward(fs, a, to - 1);
      RunsForward(fs, to, b);
      assert Less(fs[to - 1].largest, fs[to].smallest);
    }
  }

  lemma {:induction false} LargestOfRun(fs: seq<File>, ins: seq<File>, from: nat, to: nat)
    requires RangesOk(fs) && Disjoint(fs) && IsRun(fs, ins, from, to)
    ensures IsLargestKey(ins, fs[to - 1].largest)
  {
    assert ins[|ins| - 1] == fs[to - 1] && ins[|ins| - 1] in ins;
    forall f | f in ins ensures !Less(fs[to - 1].largest, f.largest) {
      var a :| 0 <= a < |ins| && ins[a] == f;
      LargestAscends(fs, from + a, to - 1);
    }
  }
}
