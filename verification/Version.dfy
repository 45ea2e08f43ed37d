/** Files, levels and the lookups over them (db/version_set.cc, class Version). */
module Version {
  import opened DbFormat

  const MAX_MEM_COMPACT_LEVEL: nat := 2

  /** FileMetaData together with the entries of the table it describes. */
  datatype File = File(number: nat, size: nat, smallest: InternalKey, largest: InternalKey, entries: seq<Entry>)

  /** The sorted lists of files, one per level. */
  type Levels = seq<seq<File>>

  ghost predicate FileOk(f: File) {
    && f.entries != []
    && Sorted(f.entries)
    && f.smallest == f.entries[0].key
    && f.largest == f.entries[|f.entries| - 1].key
    && forall e :: e in f.entries ==> e.key.sequence <= MAX_SEQUENCE
  }

  ghost predicate FilesOk(fs: seq<File>) {
    forall i :: 0 <= i < |fs| ==> FileOk(fs[i])
  }

  /** Each file's range runs forward; all that arguments about key ranges alone need. */
  ghost predicate RangesOk(fs: seq<File>) {
    forall i :: 0 <= i < |fs| ==> !Less(fs[i].largest, fs[i].smallest)
  }

  /** Files in key order, no two of them overlapping. */
  ghost predicate Disjoint(fs: seq<File>) {
    forall i, j :: 0 <= i < j < |fs| ==> Less(fs[i].largest, fs[j].smallest)
  }

  ghost function EntrySet(fs: seq<File>): set<Entry> {
    set f, e | f in fs && e in f.entries :: e
  }

  /** Entries of the levels `from` up to, not including, `to`. */
  ghost function LevelEntries(v: Levels, from: nat, to: nat): set<Entry>
    requires to <= |v|
  {
    set l, f, e | from <= l < to && f in v[l] && e in f.entries :: e
  }

  ghost function AllEntries(v: Levels): set<Entry> {
    LevelEntries(v, 0, |v|)
  }

  lemma {:induction false} EntryInRange(f: File, e: Entry)
    requires FileOk(f) && e in f.entries
    ensures !Less(e.key, f.smallest) && !Less(f.largest, e.key)
    ensures f.smallest.user <= e.key.user <= f.largest.user
  {
    var i :| 0 <= i < |f.entries| && f.entries[i] == e;
    assert i == 0 || Less(f.entries[0].key, f.entries[i].key);
    assert i == |f.entries| - 1 || Less(f.entries[i].key, f.entries[|f.entries| - 1].key);
  }

  lemma {:induction false} FilesHaveRanges(fs: seq<File>)
    requires FilesOk(fs)
    ensures RangesOk(fs)
  {
    forall i | 0 <= i < |fs| ensures !Less(fs[i].largest, fs[i].smallest) {
      EntryInRange(fs[i], fs[i].entries[0]);
    }
  }

  // ----- FindFile and the overlap test -------------------------------------

  /** Index of the first file whose largest key is not below `key`. */
  method FindFile(fs: seq<File>, key: InternalKey) returns (r: nat)
    requires FilesOk(fs) && Disjoint(fs)
    ensures r <= |fs|
    ensures forall i :: 0 <= i < r ==> Less(fs[i].largest, key)
    ensures forall i :: r <= i < |fs| ==> !Less(fs[i].largest, key)
  {
    FilesHaveRanges(fs);
    var left, right := 0, |fs|;
    while left < right
      invariant 0 <= left <= right <= |fs|
      invariant forall i :: 0 <= i < left ==> Less(fs[i].largest, key)
      invariant forall i :: right <= i < |fs| ==> !Less(fs[i].largest, key)
    {
      var mid := (left + right) / 2;
      if Compare(fs[mid].largest, key) < 0 {
        forall i | 0 <= i <= mid ensures Less(fs[i].largest, key) {
          LargestAscends(fs, i, mid);
        }
        left := mid + 1;
      } else {
        forall i | mid <= i < |fs| ensures !Less(fs[i].largest, key) {
          LargestAscends(fs, mid, i);
        }
        right := mid;
      }
    }
    r := right;
  }

  lemma {:induction false} LargestAscends(fs: seq<File>, i: nat, j: nat)
    requires RangesOk(fs) && Disjoint(fs) && i <= j < |fs|
    ensures i == j || Less(fs[i].largest, fs[j].largest)
    ensures i == j || Less(fs[i].smallest, fs[j].smallest)
  {
  }

  predicate AfterFile(user: Option<UserKey>, f: File) {
    user.Some? && user.value > f.largest.user
  }

  predicate BeforeFile(user: Option<UserKey>, f: File) {
    user.Some? && user.value < f.smallest.user
  }

  /** Some user key between `lo` and `hi` (None: unbounded) may lie in `f`. */
  predicate Overlaps(f: File, lo: Option<UserKey>, hi: Option<UserKey>) {
    !AfterFile(lo, f) && !BeforeFile(hi, f)
  }

  method SomeFileOverlapsRange(disjointSorted: bool, fs: seq<File>, lo: Option<UserKey>, hi: Option<UserKey>)
    returns (b: bool)
    requires FilesOk(fs)
    requires disjointSorted ==> Disjoint(fs)
    ensures b <==> exists f :: f in fs && Overlaps(f, lo, hi)
  {
    if !disjointSorted {
      for i := 0 to |fs|
        invariant forall k :: 0 <= k < i ==> !Overlaps(fs[k], lo, hi)
      {
        if AfterFile(lo, fs[i]) || BeforeFile(hi, fs[i]) {
          // no overlap
        } else {
          assert fs[i] in fs;
          return true;
        }
      }
      return false;
    }
    FilesHaveRanges(fs);
    var index := 0;
    if lo.Some? {
      index := FindFile(fs, InternalKey(lo.value, MAX_SEQUENCE, TypeValue));
      forall i | 0 <= i < |fs| ensures i < index <==> fs[i].largest.user < lo.value {
        assert fs[i].entries[|fs[i].entries| - 1] in fs[i].entries;
      }
    }
    if index >= |fs| {
      return false;
    }
    forall i | index <= i < |fs| ensures fs[index].smallest.user <= fs[i].smallest.user {
      LargestAscends(fs, index, i);
    }
    b := !BeforeFile(hi, fs[index]);
    assert b ==> fs[index] in fs && Overlaps(fs[index], lo, hi);
  }

  // ----- the level order ---------------------------------------------------

  /** For every user key, each entry of `f` is newer than each entry of `g`. */
  ghost predicate NewerThan(f: File, g: File) {
    forall e, x :: e in f.entries && x in g.entries && e.key.user == x.key.user
                   ==> e.key.sequence > x.key.sequence
  }

  /** Order of BySmallestKey: smallest key, ties broken by file number. */
  predicate BySmallest(f: File, g: File) {
    Less(f.smallest, g.smallest) || (f.smallest == g.smallest && f.number < g.number)
  }

  ghost predicate InOrder(fs: seq<File>) {
    forall i, j :: 0 <= i < j < |fs| ==> BySmallest(fs[i], fs[j])
  }

  /** Level 0 may overlap; there a higher file number means newer data. */
  ghost predicate NumberedByAge(fs: seq<File>) {
    forall i, j :: 0 <= i < |fs| && 0 <= j < |fs| && i != j ==>
      fs[i].number != fs[j].number && (fs[i].number > fs[j].number ==> NewerThan(fs[i], fs[j]))
  }

  ghost predicate LevelNewerThan(fs: seq<File>, gs: seq<File>) {
    forall i, j :: 0 <= i < |fs| && 0 <= j < |gs| ==> NewerThan(fs[i], gs[j])
  }

  /** The order every installed version keeps. */
  ghost predicate LevelOrder(v: Levels) {
    && |v| == NUM_LEVELS
    && (forall l :: 0 <= l < NUM_LEVELS ==> FilesOk(v[l]))
    && (forall l :: 0 <= l < NUM_LEVELS ==> InOrder(v[l]))
    && (forall l :: 1 <= l < NUM_LEVELS ==> Disjoint(v[l]))
    && NumberedByAge(v[0])
    && LevelsByAge(v)
  }

  ghost predicate LevelsByAge(v: Levels) {
    forall l, m :: 0 <= l < m < |v| ==> LevelNewerThan(v[l], v[m])
  }

  // ----- Version::Get ------------------------------------------------------

  predicate NewestFirst(f: File, g: File) {
    f.number > g.number
  }

  ghost predicate SortedNewestFirst(fs: seq<File>) {
    forall i, j :: 0 <= i < j < |fs| ==> !NewestFirst(fs[j], fs[i])
  }

  function InsertNewestFirst(f: File, fs: seq<File>): (r: seq<File>)
    ensures forall g :: g in r <==> g == f || g in fs
    ensures SortedNewestFirst(fs) ==> SortedNewestFirst(r)
  {
    if fs == [] then [f]
    else if NewestFirst(fs[0], f) then
      var t := InsertNewestFirst(f, fs[1..]);
      assert forall j :: 0 <= j < |t| ==> t[j] in t;
      [fs[0]] + t
    else [f] + fs
  }

  /** What std::sort with NewestFirst does to the candidate files. */
  function SortNewestFirst(fs: seq<File>): (r: seq<File>)
    ensures forall g :: g in r <==> g in fs
    ensures SortedNewestFirst(r)
  {
    if fs == [] then [] else
      assert fs == [fs[0]] + fs[1..];
      InsertNewestFirst(fs[0], SortNewestFirst(fs[1..]))
  }

  lemma {:induction false} TableGetAnswers(f: File, user: UserKey, snapshot: nat)
    requires FileOk(f)
    ensures Answers((set e | e in f.entries), user, snapshot, Sought(f.entries, user, snapshot))
    ensures Sought(f.entries, user, snapshot).Some? ==> Sought(f.entries, user, snapshot).value in f.entries
  {
    SeekFindsNewest(f.entries, user, snapshot);
  }

  /** Level 0: the files whose range covers the key, newest first. */
  method CandidatesNewestFirst(fs: seq<File>, user: UserKey) returns (files: seq<File>)
    requires FilesOk(fs)
    ensures forall k :: 0 <= k < |files| ==> files[k] in fs
    ensures SortedNewestFirst(files)
    ensures forall f :: f in fs && f !in files ==> forall e :: e in f.entries ==> e.key.user != user
  {
    var tmp: seq<File> := [];
    for i := 0 to |fs|
      invariant forall k :: 0 <= k < |tmp| ==> tmp[k] in fs
      invariant forall k :: 0 <= k < i && fs[k].smallest.user <= user <= fs[k].largest.user ==> fs[k] in tmp
    {
      if user >= fs[i].smallest.user && user <= fs[i].largest.user {
        tmp := tmp + [fs[i]];
      }
    }
    files := SortNewestFirst(tmp);
    forall f | f in fs && f !in files ensures forall e :: e in f.entries ==> e.key.user != user {
      forall e | e in f.entries ensures e.key.user != user {
        var k :| 0 <= k < |fs| && fs[k] == f;
        EntryInRange(f, e);
      }
    }
    assert forall k :: 0 <= k < |files| ==> files[k] in files;
  }

  /** Searching files of falling number: the first hit is the newest visible entry. */
  method GetFromLevel0(fs: seq<File>, user: UserKey, snapshot: nat) returns (found: Option<Entry>)
    requires FilesOk(fs) && NumberedByAge(fs)
    ensures Answers(EntrySet(fs), user, snapshot, found)
  {
    var files := CandidatesNewestFirst(fs, user);
    for i := 0 to |files|
      invariant forall k, e :: 0 <= k < i && e in files[k].entries ==> !Visible(e, user, snapshot)
    {
      TableGetAnswers(files[i], user, snapshot);
      found := Sought(files[i].entries, user, snapshot);
      if found.Some? {
        NewestOfCandidates(fs, files, i, user, snapshot, found.value);
        return;
      }
    }
    forall x | x in EntrySet(fs) ensures !Visible(x, user, snapshot) {
      var f :| f in fs && x in f.entries;
    }
    found := None;
  }

  lemma {:induction false} NewestOfCandidates(fs: seq<File>, files: seq<File>, i: nat, user: UserKey, snapshot: nat,
                                              e: Entry)
    requires NumberedByAge(fs) && i < |files|
    requires files[i] in fs
    requires SortedNewestFirst(files)
    requires forall f :: f in fs && f !in files ==> forall x :: x in f.entries ==> x.key.user != user
    requires forall k, x :: 0 <= k < i && x in files[k].entries ==> !Visible(x, user, snapshot)
    requires Newest((set x | x in files[i].entries), user, snapshot, e)
    ensures Newest(EntrySet(fs), user, snapshot, e)
  {
    forall x | x in EntrySet(fs) && Visible(x, user, snapshot)
      ensures x.key.sequence <= e.key.sequence
    {
      var g :| g in fs && x in g.entries;
      if g != files[i] {
        var j :| 0 <= j < |files| && files[j] == g;
        assert i < j;
        OlderByNumber(fs, files[i], g);
      }
    }
  }

  lemma {:induction false} OlderByNumber(fs: seq<File>, f: File, g: File)
    requires NumberedByAge(fs) && f in fs && g in fs && f != g && !NewestFirst(g, f)
    ensures NewerThan(f, g)
  {
    var a :| 0 <= a < |fs| && fs[a] == f;
    var b :| 0 <= b < |fs| && fs[b] == g;
  }

  /** Deeper levels: at most one file can hold the newest visible entry. */
  method GetFromSortedLevel(fs: seq<File>, user: UserKey, snapshot: nat) returns (found: Option<Entry>)
    requires FilesOk(fs) && Disjoint(fs)
    ensures Answers(EntrySet(fs), user, snapshot, found)
  {
    FilesHaveRanges(fs);
    var ikey := SeekKey(user, snapshot);
    var index := FindFile(fs, ikey);
    forall e | e in EntrySet(fs) && Visible(e, user, snapshot)
      ensures index < |fs| && fs[index].smallest.user <= user
      ensures e !in fs[index].entries ==> Less(fs[index].largest, e.key)
    {
      VisibleFromIndex(fs, index, user, snapshot, e);
    }
    if index >= |fs| {
      return None;
    }
    var f := fs[index];
    if user < f.smallest.user {
      return None;
    }
    TableGetAnswers(f, user, snapshot);
    found := Sought(f.entries, user, snapshot);
    FoundInFile(f, user, snapshot);
    assert f in fs;
  }

  lemma {:induction false} VisibleFromIndex(fs: seq<File>, index: nat, user: UserKey, snapshot: nat, e: Entry)
    requires FilesOk(fs) && RangesOk(fs) && Disjoint(fs) && index <= |fs|
    requires forall i :: 0 <= i < index ==> Less(fs[i].largest, SeekKey(user, snapshot))
    requires e in EntrySet(fs) && Visible(e, user, snapshot)
    ensures index < |fs| && fs[index].smallest.user <= user
    ensures e !in fs[index].entries ==> Less(fs[index].largest, e.key)
  {
    var f :| f in fs && e in f.entries;
    var k :| 0 <= k < |fs| && fs[k] == f;
    EntryInRange(f, e);
    assert k >= index;
    LargestAscends(fs, index, k);
  }

  /** When the file reaches SeekKey, its hit outranks everything sorted after the file. */
  lemma {:induction false} FoundInFile(f: File, user: UserKey, snapshot: nat)
    requires FileOk(f) && !Less(f.largest, SeekKey(user, snapshot))
    ensures forall e :: Visible(e, user, snapshot) && Less(f.largest, e.key) ==>
              Sought(f.entries, user, snapshot).Some?
              && e.key.sequence <= Sought(f.entries, user, snapshot).value.key.sequence
  {
    var p := LowerBound(f.entries, SeekKey(user, snapshot));
    assert f.entries[|f.entries| - 1].key == f.largest;
    EntryInRange(f, f.entries[p]);
  }

  /** Version::Get: level by level, the first level that answers wins. */
  method Get(v: Levels, user: UserKey, snapshot: nat) returns (found: Option<Entry>)
    requires LevelOrder(v)
    ensures Answers(AllEntries(v), user, snapshot, found)
  {
    for level := 0 to NUM_LEVELS
      invariant forall l :: 0 <= l < level ==> NothingVisible(EntrySet(v[l]), user, snapshot)
    {
      if |v[level]| != 0 {
        if level == 0 {
          found := GetFromLevel0(v[level], user, snapshot);
        } else {
          found := GetFromSortedLevel(v[level], user, snapshot);
        }
        if found.Some? {
          FirstAnswerWins(v, level, user, snapshot, found.value);
          return;
        }
      }
    }
    forall x | x in AllEntries(v) ensures !Visible(x, user, snapshot) {
      var l := LevelOfEntry(v, x);
    }
    found := None;
  }

  lemma {:induction false} LevelOfEntry(v: Levels, e: Entry) returns (l: nat)
    requires e in AllEntries(v)
    ensures l < |v| && e in EntrySet(v[l])
  {
    var k, f :| 0 <= k < |v| && f in v[k] && e in f.entries;
    l := k;
  }

  lemma {:induction false} FirstAnswerWins(v: Levels, level: nat, user: UserKey, snapshot: nat, e: Entry)
    requires LevelOrder(v) && level < NUM_LEVELS
    requires forall l :: 0 <= l < level ==> NothingVisible(EntrySet(v[l]), user, snapshot)
    requires Newest(EntrySet(v[level]), user, snapshot, e)
    ensures Newest(AllEntries(v), user, snapshot, e)
  {
    forall x | x in AllEntries(v) && Visible(x, user, snapshot)
      ensures x.key.sequence <= e.key.sequence
    {
      var m := LevelOfEntry(v, x);
      if m > level {
        NewerAcrossLevels(v, level, m, e, x);
      }
    }
    var f :| f in v[level] && e in f.entries;
  }

  lemma {:induction false} NewerAcrossLevels(v: Levels, l: nat, m: nat, e: Entry, x: Entry)
    requires LevelsByAge(v) && l < m < |v|
    requires e in EntrySet(v[l]) && x in EntrySet(v[m]) && e.key.user == x.key.user
    ensures e.key.sequence > x.key.sequence
  {
    assert LevelNewerThan(v[l], v[m]);
    NewerBetween(v[l], v[m], e, x);
  }

  lemma {:induction false} NewerBetween(fs: seq<File>, gs: seq<File>, e: Entry, x: Entry)
    requires LevelNewerThan(fs, gs)
    requires e in EntrySet(fs) && x in EntrySet(gs) && e.key.user == x.key.user
    ensures e.key.sequence > x.key.sequence
  {
    var f :| f in fs && e in f.entries;
    var g :| g in gs && x in g.entries;
    assert NewerThan(f, g);
  }
}
