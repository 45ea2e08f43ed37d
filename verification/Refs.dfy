/** Reference counts of versions and files, and the removal of obsolete files (db/version_set.cc,
    db/db_impl.cc). The seven level lists of a version are taken as one list.
 */
module Refs {
  import opened DbFormat

  /** A file of a level. A file moved to another level gets another object, with the same number. */
  class FileMetaData {
    const level: nat
    const number: nat
    var refs: int

    constructor (level: nat, number: nat)
      ensures this.level == level && this.number == number && refs == 1
    {
      this.level, this.number, refs := level, number, 1;
    }

    function Place(): (nat, nat) { (level, number) }
  }

  class Version {
    const files: seq<FileMetaData>
    var refs: nat

    constructor (files: seq<FileMetaData>)
      ensures this.files == files && refs == 0
    {
      this.files, refs := files, 0;
    }
  }

  function Places(fs: seq<FileMetaData>): (r: seq<(nat, nat)>)
    ensures |r| == |fs|
  {
    seq(|fs|, i requires 0 <= i < |fs| => fs[i].Place())
  }

  /** How often each file occurs in `versions`. */
  ghost function Uses(versions: seq<Version>): multiset<FileMetaData> {
    if versions == [] then multiset{} else Uses(versions[..|versions| - 1]) + multiset(versions[|versions| - 1].files)
  }

  lemma {:induction false} UsesAppend(a: seq<Version>, b: seq<Version>)
    ensures Uses(a + b) == Uses(a) + Uses(b)
    decreases |b|
  {
    if b == [] {
      assert a + b == a;
    } else {
      UsesAppend(a, b[..|b| - 1]);
      assert (a + b)[..|a + b| - 1] == a + b[..|b| - 1];
    }
  }

  lemma {:induction false} UsesWithout(versions: seq<Version>, i: nat)
    requires i < |versions|
    ensures Uses(versions) == Uses(versions[..i] + versions[i + 1..]) + multiset(versions[i].files)
  {
    var one := [versions[i]];
    assert one[..0] == [] && Uses(one) == Uses(one[..0]) + multiset(versions[i].files);
    assert versions == (versions[..i] + one) + versions[i + 1..];
    UsesAppend(versions[..i] + one, versions[i + 1..]);
    UsesAppend(versions[..i], one);
    UsesAppend(versions[..i], versions[i + 1..]);
  }

  ghost predicate Distinct(versions: seq<Version>) {
    forall i, j :: 0 <= i < j < |versions| ==> versions[i] != versions[j]
  }

  lemma {:induction false} DistinctWithout(versions: seq<Version>, i: nat)
    requires Distinct(versions) && i < |versions|
    ensures var rest := versions[..i] + versions[i + 1..];
            Distinct(rest) && forall w :: w in rest <==> w in versions && w != versions[i]
  {
    var rest := versions[..i] + versions[i + 1..];
    assert versions == versions[..i] + [versions[i]] + versions[i + 1..];
    assert forall k :: 0 <= k < |rest| ==> rest[k] == if k < i then versions[k] else versions[k + 1];
    forall k | 0 <= k < |rest| ensures rest[k] != versions[i] {
    }
  }

  ghost function Count(fs: seq<FileMetaData>, f: FileMetaData): nat {
    multiset(fs)[f]
  }

  lemma {:induction false} CountStep(fs: seq<FileMetaData>, i: nat)
    requires i < |fs|
    ensures forall f :: Count(fs[..i + 1], f) == Count(fs[..i], f) + (if f == fs[i] then 1 else 0)
    ensures forall f :: Count(fs[i..], f) == Count(fs[i + 1..], f) + (if f == fs[i] then 1 else 0)
  {
    assert fs[..i + 1] == fs[..i] + [fs[i]];
    assert fs[i..] == [fs[i]] + fs[i + 1..];
  }

  /** Adds one reference to each file, as often as it is listed. */
  method RefFiles(fs: seq<FileMetaData>)
    modifies fs
    ensures forall f :: f in fs ==> f.refs == old(f.refs) + Count(fs, f)
  {
    hide Count;
    CountNone(fs[..0]);
    for i := 0 to |fs|
      invariant forall f :: f in fs ==> f.refs == old(f.refs) + Count(fs[..i], f)
    {
      CountStep(fs, i);
      fs[i].refs := fs[i].refs + 1;
    }
    assert fs[..|fs|] == fs;
  }

  lemma {:induction false} CountNone(fs: seq<FileMetaData>)
    requires fs == []
    ensures forall f :: Count(fs, f) == 0
  {
  }

  /** Drops one reference from each file, as often as it is listed; `freed` are those deleted. */
  method UnrefFiles(fs: seq<FileMetaData>) returns (ghost freed: set<FileMetaData>)
    requires forall f :: f in fs ==> f.refs >= Count(fs, f)
    modifies fs
    ensures forall f :: f in fs ==> f.refs == old(f.refs) - Count(fs, f)
    ensures forall f :: f in freed <==> f in fs && f.refs == 0
  {
    hide Count;
    freed := {};
    CountNone(fs[..0]);
    assert fs[0..] == fs;
    for i := 0 to |fs|
      invariant forall f :: f in fs ==> f.refs == old(f.refs) - Count(fs[..i], f)
      invariant forall f :: f in fs ==> f.refs >= Count(fs[i..], f)
      invariant forall f :: f in freed <==> f in fs[..i] && f.refs <= 0
    {
      CountStep(fs, i);
      assert fs[..i + 1] == fs[..i] + [fs[i]];
      fs[i].refs := fs[i].refs - 1;
      if fs[i].refs <= 0 {
        freed := freed + {fs[i]};
      }
    }
    assert fs[..|fs|] == fs;
  }

  /** Each file's count is the number of its uses, and the files that exist are those in use. */
  ghost predicate Counted(files: set<FileMetaData>, uses: multiset<FileMetaData>)
    reads files
  {
    && (forall f :: f in files ==> f.refs == uses[f] && f.refs > 0)
    && (forall f :: f in uses ==> f in files)
  }

  /** Takes one reference to each of `fs`, as often as it is listed. */
  method Acquire(fs: seq<FileMetaData>, ghost files: set<FileMetaData>, ghost uses: multiset<FileMetaData>)
    requires Counted(files, uses) && forall f :: f in fs ==> f in files
    modifies fs
    ensures Counted(files, uses + multiset(fs))
  {
    RefFiles(fs);
    assert forall f :: f !in fs ==> multiset(fs)[f] == 0;
  }

  /** Gives up one reference to each of `fs`, as often as it is listed; `left` are the files that remain. */
  method Drop(fs: seq<FileMetaData>, ghost files: set<FileMetaData>, ghost uses: multiset<FileMetaData>)
    returns (ghost left: set<FileMetaData>)
    requires Counted(files, uses) && multiset(fs) <= uses
    modifies fs
    ensures left <= files && Counted(left, uses - multiset(fs))
  {
    assert forall f :: f in fs ==> f in multiset(fs);
    assert forall f :: f in fs ==> f in files;
    ghost var freed := UnrefFiles(fs);
    assert forall f :: f !in fs ==> multiset(fs)[f] == 0;
    left := files - freed;
  }

  ghost function Total(versions: seq<Version>, loose: multiset<FileMetaData>): multiset<FileMetaData> {
    Uses(versions) + loose
  }

  /** Each listed version's count is that of its holders, and a version is listed exactly while held. */
  ghost predicate Listed(versions: seq<Version>, current: Version, held: multiset<Version>)
    reads versions
  {
    && Distinct(versions) && current in versions
    && (forall v :: v in versions ==> v.refs == held[v] + (if v == current then 1 else 0) && v.refs > 0)
    && (forall v :: v in held ==> v in versions)
  }

  lemma {:induction false} ListedNext(versions: seq<Version>, current: Version, held: multiset<Version>, v: Version)
    requires Listed(versions, current, held) && v !in versions && v.refs == 1
    ensures Listed(versions + [v], v, held + multiset{current})
  {
    assert v !in held;
  }

  class VersionSet {
    /** The linked list of versions, oldest first. */
    var versions: seq<Version>
    var current: Version
    /** Who else holds versions: readers, iterators, compactions, builders. */
    ghost var held: multiset<Version>
    /** References to files that are not those of listed versions. */
    ghost var loose: multiset<FileMetaData>
    /** The file objects that exist. */
    ghost var files: set<FileMetaData>

    constructor ()
      ensures Valid() && loose == multiset{} && held == multiset{} && files == {}
      ensures fresh(current) && versions == [current] && current.files == []
    {
      var v := new Version([]);
      v.refs := 1;
      versions, current := [v], v;
      held, loose, files := multiset{}, multiset{}, {};
      new;
      UsesAppend([], [v]);
    }

    /** How often each file is in use: by a listed version, or by a reference that is loose. */
    ghost function InUse(): multiset<FileMetaData>
      reads `versions, `loose
    {
      Total(versions, loose)
    }

    ghost predicate VersionsCounted()
      reads `versions, `current, `held, versions
    {
      Listed(versions, current, held)
    }

    ghost predicate Valid()
      reads this, files, versions
    {
      Counted(files, InUse()) && VersionsCounted()
    }

    /** Version::Ref, by a new holder. */
    method Ref(v: Version)
      requires Valid() && v in versions
      modifies `held, v
      ensures Valid() && versions == old(versions) && current == old(current) && loose == old(loose)
              && files == old(files)
      ensures held == old(held) + multiset{v}
    {
      hide Uses, Counted, InUse;
      v.refs := v.refs + 1;
      held := held + multiset{v};
    }

    /** Version::Unref by a holder; the last reference takes the version off the list and drops its files. */
    method Unref(v: Version)
      requires Valid() && v in held
      modifies `held, `versions, `files, v, v.files
      ensures Valid() && current == old(current) && loose == old(loose) && held == old(held) - multiset{v}
      ensures v == current || v in held ==> versions == old(versions)
      ensures forall w :: w in versions <==> w in old(versions) && (w != v || v == current || v in held)
    {
      hide Uses, Counted, InUse;
      held := held - multiset{v};
      v.refs := v.refs - 1;
      if v.refs == 0 {
        Remove(v);
      }
    }

    /** ~Version: unlinks a version nobody refers to and drops its files. */
    method Remove(v: Version)
      requires Counted(files, InUse()) && Distinct(versions) && v in versions && v.refs == 0
      requires current in versions && v != current && v !in held
      requires forall w :: w in versions && w != v ==> w.refs == held[w] + (if w == current then 1 else 0) && w.refs > 0
      requires forall w :: w in held ==> w in versions
      modifies `versions, `files, v.files
      ensures Valid() && current == old(current) && loose == old(loose) && held == old(held)
      ensures forall w :: w in versions <==> w in old(versions) && w != v
    {
      hide Uses, Counted, VersionsCounted;
      ghost var uses := InUse();
      InUseFiles(v);
      Unlink(v);
      files := Drop(v.files, files, uses);
      assert InUse() == uses - multiset(v.files);
    }

    lemma {:induction false} InUseFiles(v: Version)
      requires Counted(files, InUse()) && v in versions
      ensures multiset(v.files) <= InUse() && forall f :: f in v.files ==> f in files
    {
      var i: nat :| i < |versions| && versions[i] == v;
      UsesWithout(versions, i);
      assert forall f :: f in v.files ==> f in multiset(v.files);
    }

    method Unlink(v: Version)
      requires Distinct(versions) && v in versions
      requires current in versions && v != current && v !in held
      requires forall w :: w in versions && w != v ==> w.refs == held[w] + (if w == current then 1 else 0) && w.refs > 0
      requires forall w :: w in held ==> w in versions
      modifies `versions
      ensures VersionsCounted() && Uses(old(versions)) == Uses(versions) + multiset(v.files)
      ensures forall w :: w in versions <==> w in old(versions) && w != v
    {
      hide Uses, Distinct;
      var i: nat :| i < |versions| && versions[i] == v;
      UsesWithout(versions, i);
      DistinctWithout(versions, i);
      versions := versions[..i] + versions[i + 1..];
    }

    /** Makes a version current; its files carry the references it brings, and the reference to the old
        current version is left to the caller. */
    method Link(v: Version)
      requires Valid() && v.refs == 0 && v !in versions && multiset(v.files) <= loose
      modifies `versions, `current, `held, `loose, v
      ensures Valid() && current == v && files == old(files)
      ensures held == old(held) + multiset{old(current)} && loose == old(loose) - multiset(v.files)
      ensures versions == old(versions) + [v]
    {
      hide Uses, Counted, Listed;
      UsesNext(versions, v);
      ghost var uses := InUse();
      v.refs := v.refs + 1;
      ListedNext(versions, current, held, v);
      held := held + multiset{current};
      versions := versions + [v];
      loose := loose - multiset(v.files);
      current := v;
      assert InUse() == uses;
    }

    /** Makes a version current and lets go of the one before. */
    method AppendVersion(v: Version)
      requires Valid() && v.refs == 0 && v !in versions && multiset(v.files) <= loose
      modifies this, v, current, current.files
      ensures Valid() && current == v && held == old(held) && loose == old(loose) - multiset(v.files)
      ensures forall w :: w in versions <==> w == v || (w in old(versions) && (w != old(current) || w in held))
    {
      hide Counted, VersionsCounted;
      CurrentListed();
      var previous := current;
      Link(v);
      Unref(previous);
    }

    lemma {:induction false} CurrentListed()
      requires Valid()
      ensures current in versions
    {
    }

    /** A new file object, with the one reference its constructor gives it. */
    method NewFile(level: nat, number: nat) returns (f: FileMetaData)
      requires Valid()
      modifies `loose, `files
      ensures Valid() && loose == old(loose) + multiset{f} && files == old(files) + {f} && fresh(f)
      ensures f.Place() == (level, number)
    {
      hide Uses;
      f := new FileMetaData(level, number);
      loose := loose + multiset{f};
      files := files + {f};
    }

    method NewFiles(added: seq<(nat, nat)>) returns (fs: seq<FileMetaData>)
      requires Valid()
      modifies `loose, `files
      ensures Valid() && loose == old(loose) + multiset(fs) && files >= old(files)
      ensures Places(fs) == added
      ensures fresh(fs) && forall f :: f in fs ==> f in files
    {
      hide Uses, Counted, InUse, VersionsCounted, Valid;
      fs := [];
      for i := 0 to |added|
        invariant Valid() && loose == old(loose) + multiset(fs) && files >= old(files)
        invariant |fs| == i && forall j :: 0 <= j < i ==> fs[j].Place() == added[j]
        invariant fresh(fs) && forall f :: f in fs ==> f in files
      {
        var f := NewFile(added[i].0, added[i].1);
        fs := fs + [f];
      }
    }

    /** Takes one more reference to each of `fs`. */
    method AcquireFiles(fs: seq<FileMetaData>)
      requires Valid() && forall f :: f in fs ==> f in files
      modifies `loose, fs
      ensures Valid() && loose == old(loose) + multiset(fs)
      ensures versions == old(versions) && current == old(current) && held == old(held)
    {
      hide Uses, Counted, VersionsCounted;
      Acquire(fs, files, InUse());
      ghost var uses := InUse();
      loose := loose + multiset(fs);
      assert InUse() == uses + multiset(fs);
    }

    /** Gives up one reference to each of `fs`. */
    method ReleaseFiles(fs: seq<FileMetaData>)
      requires Valid() && multiset(fs) <= loose
      modifies `loose, `files, fs
      ensures Valid() && loose == old(loose) - multiset(fs)
      ensures versions == old(versions) && current == old(current) && held == old(held)
    {
      hide Uses, Counted, VersionsCounted, Total;
      TotalLess(versions, loose, multiset(fs));
      ghost var left, uses := loose - multiset(fs), InUse();
      ghost var remaining := Drop(fs, files, uses);
      assert VersionsCounted();
      files, loose := remaining, left;
      assert InUse() == uses - multiset(fs);
    }

    /** Builder's constructor, Apply and MaybeAddFile: the builder refers to the current version and to the
        files it adds, and each file the new version is to have gets a reference. */
    method Collect(deleted: set<(nat, nat)>, added: seq<(nat, nat)>)
      returns (saved: seq<FileMetaData>, brought: seq<FileMetaData>)
      requires Valid()
      modifies `held, `loose, `files, current, current.files
      ensures Valid() && held == old(held) + multiset{current} && current == old(current) && versions == old(versions)
      ensures loose == old(loose) + multiset(brought) + multiset(saved)
      ensures Places(saved) == Saved(Places(current.files), deleted, added)
      ensures fresh(brought)
      ensures fresh((set f | f in saved) - (set f | f in current.files))
    {
      hide Uses, Counted, VersionsCounted, Valid, InUse, Saved, Places;
      CurrentListed();
      CurrentFiles();
      Ref(current);
      brought := NewFiles(added);
      var kept := Keep(current.files, set p | p in deleted && p !in added);
      SavedPlaces(kept, brought, current.files, deleted, added);
      saved := kept + brought;
      assert forall i :: 0 <= i < |kept| ==> kept[i] in old(current.files);
      AcquireFiles(kept);
      AcquireFiles(brought);
      assert multiset(saved) == multiset(kept) + multiset(brought);
    }

    lemma {:induction false} CurrentFiles()
      requires Valid()
      ensures forall f :: f in current.files ==> f in files
    {
      InUseFiles(current);
    }

    /** The block of LogAndApply in which the builder lives. */
    method Build(deleted: set<(nat, nat)>, added: seq<(nat, nat)>) returns (v: Version)
      requires Valid()
      modifies `held, `versions, `loose, `files, current, current.files
      ensures Valid() && held == old(held) && loose == old(loose) + multiset(v.files)
      ensures versions == old(versions) && current == old(current)
      ensures fresh(v) && v.refs == 0 && Places(v.files) == Saved(Places(current.files), deleted, added)
      ensures fresh((set f | f in v.files) - (set f | f in current.files))
    {
      hide Uses, Counted, VersionsCounted, Valid, InUse, Saved, Places;
      CurrentListed();
      var base := current;
      var saved, brought := Collect(deleted, added);
      v := new Version(saved);
      assert Places(v.files) == Saved(Places(base.files), deleted, added);
      Cancel(old(loose), multiset(saved), multiset(brought));
      ReleaseFiles(brought);
      Cancel(old(held), multiset{}, multiset{base});
      Unref(base);
    }

    /** LogAndApply: `written` says whether the manifest took the edit. */
    method LogAndApply(deleted: set<(nat, nat)>, added: seq<(nat, nat)>, written: bool)
      requires Valid()
      modifies this, current, current.files
      ensures Valid() && loose == old(loose) && held == old(held)
      ensures written ==> fresh(current) && Places(current.files) == Saved(Places(old(current).files), deleted, added)
      ensures !written ==> current == old(current) && versions == old(versions)
      ensures written ==> forall w :: w in versions <==>
                w == current || (w in old(versions) && (w != old(current) || w in held))
    {
      hide Uses, Counted, VersionsCounted, Valid, InUse, Saved, Places;
      var v := Build(deleted, added);
      Cancel(old(loose), multiset{}, multiset(v.files));
      if written {
        AppendVersion(v);
      } else {
        ReleaseFiles(v.files);
      }
    }

    method AddLiveFiles(pending: set<nat>) returns (live: set<nat>)
      ensures forall n :: n in live <==> n in pending || Live(versions, n)
    {
      live := pending;
      for i := 0 to |versions|
        invariant forall n :: n in pending ==> n in live
        invariant forall j, f :: 0 <= j < i && f in versions[j].files ==> f.number in live
        invariant forall n :: n in live ==> n in pending || Live(versions, n)
      {
        live := AddFiles(live, versions[i]);
      }
    }

    method AddFiles(before: set<nat>, v: Version) returns (live: set<nat>)
      requires v in versions
      ensures forall n :: n in before ==> n in live
      ensures forall f :: f in v.files ==> f.number in live
      ensures forall n :: n in live ==> n in before || Live(versions, n)
    {
      live := before;
      for i := 0 to |v.files|
        invariant forall n :: n in before ==> n in live
        invariant forall j :: 0 <= j < i ==> v.files[j].number in live
        invariant forall n :: n in live ==> n in before || Live(versions, n)
      {
        live := live + {v.files[i].number};
      }
    }
  }

  /** The numbers of the files of `versions`. */
  ghost predicate Live(versions: seq<Version>, number: nat) {
    exists v, f :: v in versions && f in v.files && f.number == number
  }

  ghost predicate AllPresent(versions: seq<Version>, directory: seq<Name>) {
    forall v, f :: v in versions && f in v.files ==> Parsed(TableFile, f.number) in directory
  }

  lemma {:induction false} EditKeepsPresent(was: seq<Version>, base: Version, versions: seq<Version>, v: Version,
    deleted: set<(nat, nat)>, added: seq<(nat, nat)>, directory: seq<Name>)
    requires AllPresent(was, directory) && base in was
    requires Places(v.files) == Saved(Places(base.files), deleted, added)
    requires forall p :: p in added ==> Parsed(TableFile, p.1) in directory
    requires forall w :: w in versions ==> w == v || w in was
    ensures AllPresent(versions, directory)
  {
    forall f | f in v.files ensures Parsed(TableFile, f.number) in directory {
      var i :| 0 <= i < |v.files| && v.files[i] == f;
      assert Places(v.files)[i] == f.Place();
      if f.Place() !in added {
        assert f.Place() in Places(base.files);
        var j :| 0 <= j < |base.files| && base.files[j].Place() == f.Place();
        assert base.files[j] in base.files;
      }
    }
  }

  datatype FileType = LogFile | DescriptorFile | TableFile | TempFile | CurrentFile | LockFile | InfoLogFile

  /** What ParseFileName makes of a file name of the directory. */
  datatype Name = Parsed(kind: FileType, number: nat) | Unparsed(text: string)

  /** The numbers of the logs and of the manifest in use. */
  datatype Numbers = Numbers(log: nat, prevLog: nat, manifest: nat)

  predicate Kept(name: Name, numbers: Numbers, live: set<nat>) {
    match name
    case Unparsed(_) => true
    case Parsed(kind, number) =>
      match kind
      case LogFile => number >= numbers.log || number == numbers.prevLog
      case DescriptorFile => number >= numbers.manifest
      case TableFile => number in live
      case TempFile => number in live
      case CurrentFile => true
      case LockFile => true
      case InfoLogFile => true
  }

  /** CURRENT, LOCK, info logs and names that are no database file's. */
  predicate AlwaysStays(name: Name) {
    name.Unparsed? || name.kind == CurrentFile || name.kind == LockFile || name.kind == InfoLogFile
  }

  /** Insertion in ascending order. */
  function InsertNumber(s: seq<nat>, n: nat): (r: seq<nat>)
    requires forall i, j :: 0 <= i < j < |s| ==> s[i] <= s[j]
    ensures forall m :: m in r <==> m == n || m in s
    ensures forall i, j :: 0 <= i < j < |r| ==> r[i] <= r[j]
  {
    if s == [] then [n]
    else if s[|s| - 1] <= n then s + [n]
    else
      var last := s[|s| - 1];
      var r := InsertNumber(s[..|s| - 1], n);
      LastIsGreatest(s);
      ElementsBelow(r, last);
      r + [last]
  }

  lemma {:induction false} LastIsGreatest(s: seq<nat>)
    requires s != [] && forall i, j :: 0 <= i < j < |s| ==> s[i] <= s[j]
    ensures forall m :: m in s ==> m <= s[|s| - 1]
  {
    forall m | m in s ensures m <= s[|s| - 1] {
      var i :| 0 <= i < |s| && s[i] == m;
      assert i < |s| - 1 ==> s[i] <= s[|s| - 1];
    }
  }

  lemma {:induction false} ElementsBelow(r: seq<nat>, last: nat)
    requires forall m :: m in r ==> m <= last
    ensures forall i :: 0 <= i < |r| ==> r[i] <= last
  {
    forall i | 0 <= i < |r| ensures r[i] <= last {
      assert r[i] in r;
    }
  }

  /** The database's directory, with its versions. */
  class Database {
    const versionSet: VersionSet
    var numbers: Numbers
    var pendingOutputs: set<nat>
    var bgError: bool
    var directory: seq<Name>
    /** The logs of the memtable and of the immutable one. */
    var logFile: nat
    var immLog: Option<nat>

    /** An opened database has its manifest and its log. */
    constructor (directory: seq<Name>, numbers: Numbers, logFile: nat)
      requires numbers.log <= logFile
      ensures Valid() && fresh(versionSet) && this.numbers == numbers && this.logFile == logFile && immLog == None
      ensures this.directory == directory + [Parsed(DescriptorFile, numbers.manifest), Parsed(LogFile, logFile)]
      ensures pendingOutputs == {} && !bgError
    {
      versionSet := new VersionSet();
      this.directory := directory + [Parsed(DescriptorFile, numbers.manifest), Parsed(LogFile, logFile)];
      this.numbers, pendingOutputs, bgError := numbers, {}, false;
      this.logFile, immLog := logFile, None;
    }

    /** Outside a builder's lifetime only listed versions refer to files, and their tables are all there. So are the
        manifest and the logs of the memtables, which a recovery will read. */
    ghost predicate Valid()
      reads `directory, `numbers, `logFile, `immLog, versionSet, versionSet.files, versionSet.versions
    {
      && versionSet.Valid() && versionSet.loose == multiset{}
      && AllPresent(versionSet.versions, directory)
      && Parsed(DescriptorFile, numbers.manifest) in directory
      && Parsed(LogFile, logFile) in directory && numbers.log <= logFile
      && (immLog.Some? ==> Parsed(LogFile, immLog.value) in directory && numbers.log <= immLog.value < logFile)
    }

    /** MakeRoomForWrite: the memtable becomes immutable and a new log is started. */
    method SwitchLog(number: nat)
      requires Valid() && immLog.None? && number > logFile
      modifies `directory, `logFile, `immLog
      ensures Valid() && logFile == number && immLog == Some(old(logFile))
      ensures directory == old(directory) + [Parsed(LogFile, number)]
    {
      hide VersionSet.Valid;
      directory := directory + [Parsed(LogFile, number)];
      immLog, logFile := Some(logFile), number;
    }

    /** The logs that DBImpl::Recover replays, in the order they were written. */
    method LogsToReplay() returns (logs: seq<nat>)
      ensures forall n: nat :: n in logs <==> Parsed(LogFile, n) in directory && (n >= numbers.log || n == numbers.prevLog)
      ensures forall i, j :: 0 <= i < j < |logs| ==> logs[i] <= logs[j]
    {
      logs := [];
      for i := 0 to |directory|
        invariant forall n: nat :: n in logs <==>
                    Parsed(LogFile, n) in directory[..i] && (n >= numbers.log || n == numbers.prevLog)
        invariant forall i, j :: 0 <= i < j < |logs| ==> logs[i] <= logs[j]
      {
        var name := directory[i];
        if name.Parsed? && name.kind == LogFile && (name.number >= numbers.log || name.number == numbers.prevLog) {
          logs := InsertNumber(logs, name.number);
        }
      }
      assert directory[..|directory|] == directory;
    }

    /** Whatever was done before: a recovery finds the manifest, and replays the logs of both memtables, the older one
        first. */
    lemma {:induction false} RecoveryReads(logs: seq<nat>)
      requires Valid()
      requires forall n: nat :: n in logs <==> Parsed(LogFile, n) in directory && (n >= numbers.log || n == numbers.prevLog)
      requires forall i, j :: 0 <= i < j < |logs| ==> logs[i] <= logs[j]
      ensures Parsed(DescriptorFile, numbers.manifest) in directory
      ensures logFile in logs && (immLog.Some? ==> exists i, j :: 0 <= i < j < |logs| && logs[i] == immLog.value && logs[j] == logFile)
    {
      hide VersionSet.Valid;
      assert logFile in logs;
      var j :| 0 <= j < |logs| && logs[j] == logFile;
      if immLog.Some? {
        assert immLog.value in logs;
        var i :| 0 <= i < |logs| && logs[i] == immLog.value;
        assert i < j;
      }
    }

    /** A new table, protected until it is part of a version. */
    method OpenOutput(number: nat)
      requires Valid()
      modifies `pendingOutputs, `directory
      ensures Valid() && pendingOutputs == old(pendingOutputs) + {number}
      ensures directory == old(directory) + [Parsed(TableFile, number)]
    {
      pendingOutputs := pendingOutputs + {number};
      directory := directory + [Parsed(TableFile, number)];
    }

    /** Removes what nobody needs: a log that is older than the one the manifest names and not the one before, an older
        manifest, a table or temporary file that is neither in a listed version nor being written. */
    method DeleteObsoleteFiles() returns (ghost live: set<nat>)
      requires Valid()
      modifies `directory
      ensures Valid()
      ensures bgError ==> directory == old(directory)
      ensures forall name :: name in directory ==> name in old(directory)
      ensures !bgError ==> forall n :: n in live <==> n in pendingOutputs || Live(versionSet.versions, n)
      ensures !bgError ==> forall n: nat :: Parsed(TableFile, n) in directory <==> Parsed(TableFile, n) in old(directory) && n in live
      ensures !bgError ==> forall n: nat :: Parsed(TempFile, n) in directory <==> Parsed(TempFile, n) in old(directory) && n in live
      ensures !bgError ==> forall n: nat :: Parsed(LogFile, n) in directory <==>
                Parsed(LogFile, n) in old(directory) && (n >= numbers.log || n == numbers.prevLog)
      ensures !bgError ==> forall n: nat :: Parsed(DescriptorFile, n) in directory <==>
                Parsed(DescriptorFile, n) in old(directory) && n >= numbers.manifest
      ensures forall name :: name in old(directory) && AlwaysStays(name) ==> name in directory
    {
      hide VersionSet.Valid;
      if bgError {
        return {};
      }
      var liveFiles := versionSet.AddLiveFiles(pendingOutputs);
      live := liveFiles;
      var names := directory;
      directory := [];
      for i := 0 to |names|
        invariant forall name :: name in directory <==> name in names[..i] && Kept(name, numbers, liveFiles)
      {
        if Kept(names[i], numbers, liveFiles) {
          directory := directory + [names[i]];
        }
      }
      assert names[..|names|] == names;
    }

    /** A table is no longer an output being written. WriteLevel0Table does this just before the edit with the table
        is installed, CleanupCompaction after; the background thread alone does both and the deletion. */
    method EndProtection(number: nat)
      requires Valid()
      modifies `pendingOutputs
      ensures Valid() && pendingOutputs == old(pendingOutputs) - {number}
    {
      pendingOutputs := pendingOutputs - {number};
    }

    /** Installs an edit whose added files have been written. One that flushed the immutable memtable says that only the
        present log is still needed. */
    method Install(deleted: set<(nat, nat)>, added: seq<(nat, nat)>, flushed: bool, written: bool)
      requires Valid() && forall p :: p in added ==> Parsed(TableFile, p.1) in directory
      modifies `numbers, `immLog, `bgError, versionSet, versionSet.current, versionSet.current.files
      ensures Valid() && versionSet.held == old(versionSet.held) && directory == old(directory)
      ensures numbers == if written && flushed then old(numbers).(log := logFile, prevLog := 0) else old(numbers)
      ensures immLog == if written && flushed then None else old(immLog)
      ensures bgError == (old(bgError) || !written)
      ensures written ==> Places(versionSet.current.files) == Saved(Places(old(versionSet.current).files), deleted, added)
    {
      hide VersionSet.Valid, AllPresent, Places, Saved;
      versionSet.CurrentListed();
      ghost var was, base := versionSet.versions, versionSet.current;
      versionSet.LogAndApply(deleted, added, written);
      if written {
        if flushed {
          numbers := numbers.(log := logFile, prevLog := 0);
          immLog := None;
        }
        EditKeepsPresent(was, base, versionSet.versions, versionSet.current, deleted, added, directory);
      }
      bgError := bgError || !written;
    }

    /** A reader takes the current version; every file it may read stays until it lets go. */
    method Hold() returns (v: Version)
      requires Valid()
      modifies versionSet, versionSet.current
      ensures Valid() && v == versionSet.current && versionSet.held == old(versionSet.held) + multiset{v}
      ensures versionSet.versions == old(versionSet.versions) && v in versionSet.versions
    {
      hide VersionSet.Valid, AllPresent;
      v := versionSet.current;
      versionSet.CurrentListed();
      versionSet.Ref(v);
    }

    method LetGo(v: Version)
      requires Valid() && v in versionSet.held
      modifies versionSet, v, v.files
      ensures Valid() && versionSet.held == old(versionSet.held) - multiset{v}
    {
      hide VersionSet.Valid;
      versionSet.Unref(v);
    }

    /** The tables of every version someone holds are in the directory, after any of the steps above. */
    lemma {:induction false} HeldFilesRemain(v: Version, f: FileMetaData)
      requires Valid() && (v in versionSet.held || v == versionSet.current) && f in v.files
      ensures Parsed(TableFile, f.number) in directory && f in versionSet.files
      ensures f.refs == Uses(versionSet.versions)[f] > 0
    {
      hide Uses;
      versionSet.InUseFiles(v);
    }
  }

  lemma {:induction false} TotalLess(versions: seq<Version>, loose: multiset<FileMetaData>,
                                     less: multiset<FileMetaData>)
    requires less <= loose
    ensures Total(versions, loose - less) == Total(versions, loose) - less && less <= Total(versions, loose)
  {
  }

  lemma {:induction false} Cancel<T>(a: multiset<T>, b: multiset<T>, c: multiset<T>)
    ensures a + c + b - c == a + b && c <= a + c + b
    ensures a + b + c - c == a + b && c <= a + b + c
    ensures a + c - c == a && c <= a + c
  {
  }

  /** The places of the files an edit leaves of `base`: what it adds is no longer deleted. */
  function Saved(base: seq<(nat, nat)>, deleted: set<(nat, nat)>, added: seq<(nat, nat)>): seq<(nat, nat)> {
    Without(base, set p | p in deleted && p !in added) + added
  }

  function Without(base: seq<(nat, nat)>, dead: set<(nat, nat)>): (r: seq<(nat, nat)>)
    ensures forall p :: p in r <==> p in base && p !in dead
  {
    if base == [] then []
    else
      var last := base[|base| - 1];
      Without(base[..|base| - 1], dead) + (if last in dead then [] else [last])
  }

  /** The files whose place is not in `dead`. */
  method Keep(fs: seq<FileMetaData>, dead: set<(nat, nat)>) returns (kept: seq<FileMetaData>)
    ensures Places(kept) == Without(Places(fs), dead)
    ensures forall f :: f in kept ==> f in fs
  {
    kept := [];
    for i := 0 to |fs|
      invariant Places(kept) == Without(Places(fs[..i]), dead)
      invariant forall f :: f in kept ==> f in fs
    {
      assert Places(fs[..i + 1])[..i] == Places(fs[..i]);
      if fs[i].Place() !in dead {
        assert Places(kept + [fs[i]]) == Places(kept) + [fs[i].Place()];
        kept := kept + [fs[i]];
      }
    }
    assert fs[..|fs|] == fs;
  }

  lemma {:induction false} SavedPlaces(kept: seq<FileMetaData>, brought: seq<FileMetaData>, base: seq<FileMetaData>,
    deleted: set<(nat, nat)>, added: seq<(nat, nat)>)
    requires Places(kept) == Without(Places(base), set p | p in deleted && p !in added) && Places(brought) == added
    ensures Places(kept + brought) == Saved(Places(base), deleted, added)
  {
    assert Places(kept + brought) == Places(kept) + Places(brought);
  }

  lemma {:induction false} UsesNext(versions: seq<Version>, v: Version)
    ensures Uses(versions + [v]) == Uses(versions) + multiset(v.files)
  {
    assert (versions + [v])[..|versions|] == versions;
  }
}
