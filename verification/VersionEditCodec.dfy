/** The bytes of a manifest record (VersionEdit::EncodeTo and DecodeFrom, db/version_edit.cc).
    Internal keys are their encoded bytes.
 */
module VersionEditCodec {
  import opened DbFormat
  import opened Coding

  const COMPARATOR: Word32 := 1
  const LOG_NUMBER: Word32 := 2
  const NEXT_FILE_NUMBER: Word32 := 3
  const LAST_SEQUENCE: Word32 := 4
  const COMPACT_POINTER: Word32 := 5
  const DELETED_FILE: Word32 := 6
  const NEW_FILE: Word32 := 7
  const PREV_LOG_NUMBER: Word32 := 9

  datatype FileMetaData = FileMetaData(number: nat, fileSize: nat, smallest: Bytes, largest: Bytes)

  datatype Pointer = Pointer(level: nat, key: Bytes)

  datatype Deleted = Deleted(level: nat, number: nat)

  datatype Added = Added(level: nat, file: FileMetaData)

  /** The contents of an edit. `deleted` is an ordered set: it is listed in increasing order. */
  datatype Edit = Edit(comparator: Option<Bytes>, logNumber: Option<nat>, prevLogNumber: Option<nat>,
                       nextFileNumber: Option<nat>, lastSequence: Option<nat>,
                       compactPointers: seq<Pointer>, deleted: seq<Deleted>, added: seq<Added>)

  const EMPTY: Edit := Edit(None, None, None, None, None, [], [], [])

  predicate Before(a: Deleted, b: Deleted) {
    a.level < b.level || (a.level == b.level && a.number < b.number)
  }

  ghost predicate Ordered(ds: seq<Deleted>) {
    forall i, j :: 0 <= i < j < |ds| ==> Before(ds[i], ds[j])
  }

  /** Insertion into an ordered set. */
  function Insert(ds: seq<Deleted>, d: Deleted): seq<Deleted> {
    if ds == [] || Before(d, ds[0]) then [d] + ds
    else if ds[0] == d then ds
    else [ds[0]] + Insert(ds[1..], d)
  }

  // ----- records -----------------------------------------------------------

  /** One tagged field of the encoding. */
  datatype Record =
    | Comparator(name: Bytes)
    | LogNumber(number: nat)
    | PrevLogNumber(number: nat)
    | NextFileNumber(number: nat)
    | LastSequence(number: nat)
    | CompactPointer(pointer: Pointer)
    | DeletedFile(file: Deleted)
    | NewFile(added: Added)

  /** The record fits the widths it is stored in. */
  predicate Storable(r: Record) {
    match r
    case Comparator(name) => |name| < TWO_32
    case LogNumber(n) => n < TWO_64
    case PrevLogNumber(n) => n < TWO_64
    case NextFileNumber(n) => n < TWO_64
    case LastSequence(n) => n < TWO_64
    case CompactPointer(p) => p.level < NUM_LEVELS && |p.key| < TWO_32
    case DeletedFile(d) => d.level < NUM_LEVELS && d.number < TWO_64
    case NewFile(a) =>
      && a.level < NUM_LEVELS && a.file.number < TWO_64 && a.file.fileSize < TWO_64
      && |a.file.smallest| < TWO_32 && |a.file.largest| < TWO_32
  }

  predicate AllStorable(rs: seq<Record>) {
    forall i :: 0 <= i < |rs| ==> Storable(rs[i])
  }

  function Tag(r: Record): Word32 {
    match r
    case Comparator(_) => COMPARATOR
    case LogNumber(_) => LOG_NUMBER
    case PrevLogNumber(_) => PREV_LOG_NUMBER
    case NextFileNumber(_) => NEXT_FILE_NUMBER
    case LastSequence(_) => LAST_SEQUENCE
    case CompactPointer(_) => COMPACT_POINTER
    case DeletedFile(_) => DELETED_FILE
    case NewFile(_) => NEW_FILE
  }

  function Body(r: Record): Bytes
    requires Storable(r)
  {
    match r
    case Comparator(name) => LengthPrefixed(name)
    case LogNumber(n) => Varint(n)
    case PrevLogNumber(n) => Varint(n)
    case NextFileNumber(n) => Varint(n)
    case LastSequence(n) => Varint(n)
    case CompactPointer(p) => Varint(p.level) + LengthPrefixed(p.key)
    case DeletedFile(d) => Varint(d.level) + Varint(d.number)
    case NewFile(a) =>
      Varint(a.level) + (Varint(a.file.number) + (Varint(a.file.fileSize) + (LengthPrefixed(a.file.smallest) + LengthPrefixed(a.file.largest))))
  }

  function EncodeRecord(r: Record): (s: Bytes)
    requires Storable(r)
    ensures s != []
  {
    Varint(Tag(r)) + Body(r)
  }

  function EncodeRecords(rs: seq<Record>): Bytes
    requires AllStorable(rs)
  {
    if rs == [] then [] else EncodeRecord(rs[0]) + EncodeRecords(rs[1..])
  }

  function GetLevel(s: Bytes): (r: Option<Parsed<nat>>)
    ensures r.Some? ==> |r.value.rest| < |s|
  {
    match GetVarint32(s)
    case None => None
    case Some(v) => if v.value < NUM_LEVELS then Some(Parsed(v.value, v.rest)) else None
  }

  /** What follows a tag. */
  function ParseBody(tag: Word32, s: Bytes): (r: Option<Parsed<Record>>)
    ensures r.Some? ==> |r.value.rest| < |s|
  {
    if tag == COMPARATOR then
      match GetLengthPrefixed(s) case None => None case Some(v) => Some(Parsed(Comparator(v.value), v.rest))
    else if tag == LOG_NUMBER then
      match GetVarint64(s) case None => None case Some(v) => Some(Parsed(LogNumber(v.value), v.rest))
    else if tag == PREV_LOG_NUMBER then
      match GetVarint64(s) case None => None case Some(v) => Some(Parsed(PrevLogNumber(v.value), v.rest))
    else if tag == NEXT_FILE_NUMBER then
      match GetVarint64(s) case None => None case Some(v) => Some(Parsed(NextFileNumber(v.value), v.rest))
    else if tag == LAST_SEQUENCE then
      match GetVarint64(s) case None => None case Some(v) => Some(Parsed(LastSequence(v.value), v.rest))
    else if tag == COMPACT_POINTER then
      match GetLevel(s)
      case None => None
      case Some(l) =>
        match GetLengthPrefixed(l.rest)
        case None => None
        case Some(k) => Some(Parsed(CompactPointer(Pointer(l.value, k.value)), k.rest))
    else if tag == DELETED_FILE then
      match GetLevel(s)
      case None => None
      case Some(l) =>
        match GetVarint64(l.rest)
        case None => None
        case Some(n) => Some(Parsed(DeletedFile(Deleted(l.value, n.value)), n.rest))
    else if tag == NEW_FILE then
      match GetLevel(s) case None => None case Some(l) => ParseNewFile(l.value, l.rest)
    else None
  }

  function ParseNewFile(level: nat, s: Bytes): (r: Option<Parsed<Record>>)
    ensures r.Some? ==> |r.value.rest| < |s|
  {
    match GetVarint64(s)
    case None => None
    case Some(number) =>
      match GetVarint64(number.rest)
      case None => None
      case Some(size) =>
        match GetLengthPrefixed(size.rest)
        case None => None
        case Some(smallest) =>
          match GetLengthPrefixed(smallest.rest)
          case None => None
          case Some(largest) =>
            Some(Parsed(NewFile(Added(level, FileMetaData(number.value, size.value, smallest.value, largest.value))), largest.rest))
  }

  lemma {:induction false} BodyRoundTrip(r: Record, rest: Bytes)
    requires Storable(r)
    ensures ParseBody(Tag(r), Body(r) + rest) == Some(Parsed(r, rest))
  {
    hide GetVarint32, GetVarint64, GetLengthPrefixed, Varint, LengthPrefixed;
    var s := Body(r) + rest;
    match r
    case Comparator(name) => LengthPrefixedRoundTrip(name, rest);
    case LogNumber(n) => Varint64RoundTrip(n, rest);
    case PrevLogNumber(n) => Varint64RoundTrip(n, rest);
    case NextFileNumber(n) => Varint64RoundTrip(n, rest);
    case LastSequence(n) => Varint64RoundTrip(n, rest);
    case CompactPointer(p) =>
      assert s == Varint(p.level) + (LengthPrefixed(p.key) + rest);
      Varint32RoundTrip(p.level, LengthPrefixed(p.key) + rest);
      LengthPrefixedRoundTrip(p.key, rest);
    case DeletedFile(d) =>
      assert s == Varint(d.level) + (Varint(d.number) + rest);
      Varint32RoundTrip(d.level, Varint(d.number) + rest);
      Varint64RoundTrip(d.number, rest);
    case NewFile(a) => NewFileRoundTrip(a, rest);
  }

  lemma {:induction false} NewFileRoundTrip(a: Added, rest: Bytes)
    requires Storable(NewFile(a))
    ensures ParseBody(NEW_FILE, Body(NewFile(a)) + rest) == Some(Parsed(NewFile(a), rest))
  {
    hide GetVarint32, GetVarint64, GetLengthPrefixed, Varint, LengthPrefixed;
    var f := a.file;
    var s4 := LengthPrefixed(f.largest) + rest;
    var s3 := LengthPrefixed(f.smallest) + s4;
    var s2 := Varint(f.fileSize) + s3;
    var s1 := Varint(f.number) + s2;
    assert Body(NewFile(a)) + rest == Varint(a.level) + s1;
    Varint32RoundTrip(a.level, s1);
    Varint64RoundTrip(f.number, s2);
    Varint64RoundTrip(f.fileSize, s3);
    LengthPrefixedRoundTrip(f.smallest, s4);
    LengthPrefixedRoundTrip(f.largest, rest);
  }

  // ----- edits -------------------------------------------------------------

  /** The records of an edit, in the order EncodeTo writes them. */
  function Records(e: Edit): seq<Record> {
    (if e.comparator.None? then [] else [Comparator(e.comparator.value)])
    + (if e.logNumber.None? then [] else [LogNumber(e.logNumber.value)])
    + (if e.prevLogNumber.None? then [] else [PrevLogNumber(e.prevLogNumber.value)])
    + (if e.nextFileNumber.None? then [] else [NextFileNumber(e.nextFileNumber.value)])
    + (if e.lastSequence.None? then [] else [LastSequence(e.lastSequence.value)])
    + Pointers(e.compactPointers) + Deletions(e.deleted) + Additions(e.added)
  }

  function Pointers(ps: seq<Pointer>): (r: seq<Record>)
    ensures |r| == |ps|
  {
    seq(|ps|, i requires 0 <= i < |ps| => CompactPointer(ps[i]))
  }

  function Deletions(ds: seq<Deleted>): (r: seq<Record>)
    ensures |r| == |ds|
  {
    seq(|ds|, i requires 0 <= i < |ds| => DeletedFile(ds[i]))
  }

  function Additions(fs: seq<Added>): (r: seq<Record>)
    ensures |r| == |fs|
  {
    seq(|fs|, i requires 0 <= i < |fs| => NewFile(fs[i]))
  }

  /** What decoding one record does to the edit. */
  function Apply(e: Edit, r: Record): Edit {
    match r
    case Comparator(name) => e.(comparator := Some(name))
    case LogNumber(n) => e.(logNumber := Some(n))
    case PrevLogNumber(n) => e.(prevLogNumber := Some(n))
    case NextFileNumber(n) => e.(nextFileNumber := Some(n))
    case LastSequence(n) => e.(lastSequence := Some(n))
    case CompactPointer(p) => e.(compactPointers := e.compactPointers + [p])
    case DeletedFile(d) => e.(deleted := Insert(e.deleted, d))
    case NewFile(a) => e.(added := e.added + [a])
  }

  function ApplyAll(e: Edit, rs: seq<Record>): Edit
    decreases |rs|
  {
    if rs == [] then e else ApplyAll(Apply(e, rs[0]), rs[1..])
  }

  lemma {:induction false} ApplyAppend(e: Edit, a: seq<Record>, b: seq<Record>)
    ensures ApplyAll(e, a + b) == ApplyAll(ApplyAll(e, a), b)
    decreases |a|
  {
    if a == [] {
      assert a + b == b;
    } else {
      ApplyAppend(Apply(e, a[0]), a[1..], b);
      assert (a + b)[0] == a[0] && (a + b)[1..] == a[1..] + b;
    }
  }

  lemma {:induction false} ApplyPointers(e: Edit, ps: seq<Pointer>)
    ensures ApplyAll(e, Pointers(ps)) == e.(compactPointers := e.compactPointers + ps)
    decreases |ps|
  {
    if ps == [] {
      assert e.compactPointers + ps == e.compactPointers;
    } else {
      var e' := Apply(e, CompactPointer(ps[0]));
      ApplyPointers(e', ps[1..]);
      assert Pointers(ps)[1..] == Pointers(ps[1..]);
      assert e.compactPointers + [ps[0]] + ps[1..] == e.compactPointers + ps;
    }
  }

  lemma {:induction false} ApplyAdditions(e: Edit, fs: seq<Added>)
    ensures ApplyAll(e, Additions(fs)) == e.(added := e.added + fs)
    decreases |fs|
  {
    if fs == [] {
      assert e.added + fs == e.added;
    } else {
      var e' := Apply(e, NewFile(fs[0]));
      ApplyAdditions(e', fs[1..]);
      assert Additions(fs)[1..] == Additions(fs[1..]);
      assert e.added + [fs[0]] + fs[1..] == e.added + fs;
    }
  }

  lemma {:induction false} InsertLast(ds: seq<Deleted>, d: Deleted)
    requires forall i :: 0 <= i < |ds| ==> Before(ds[i], d)
    ensures Insert(ds, d) == ds + [d]
    decreases |ds|
  {
    if ds != [] {
      InsertLast(ds[1..], d);
      assert ds == [ds[0]] + ds[1..];
    }
  }

  lemma {:induction false} ApplyDeletions(e: Edit, ds: seq<Deleted>)
    requires Ordered(e.deleted + ds)
    ensures ApplyAll(e, Deletions(ds)) == e.(deleted := e.deleted + ds)
    decreases |ds|
  {
    if ds == [] {
      assert e.deleted + ds == e.deleted;
    } else {
      forall i | 0 <= i < |e.deleted| ensures Before(e.deleted[i], ds[0]) {
        assert (e.deleted + ds)[i] == e.deleted[i] && (e.deleted + ds)[|e.deleted|] == ds[0];
      }
      InsertLast(e.deleted, ds[0]);
      assert e.deleted + [ds[0]] + ds[1..] == e.deleted + ds;
      ApplyDeletions(Apply(e, DeletedFile(ds[0])), ds[1..]);
      assert Deletions(ds)[1..] == Deletions(ds[1..]);
    }
  }

  /** The records of an edit rebuild it, after the compaction pointers there were. */
  lemma {:induction false} RecordsRebuild(ps: seq<Pointer>, e: Edit)
    requires Ordered(e.deleted)
    ensures ApplyAll(EMPTY.(compactPointers := ps), Records(e)) == e.(compactPointers := ps + e.compactPointers)
  {
    hide Ordered, Insert, Pointers, Deletions, Additions;
    var e0 := EMPTY.(compactPointers := ps);
    var head := if e.comparator.None? then [] else [Comparator(e.comparator.value)];
    var e1 := e0.(comparator := e.comparator);
    assert ApplyAll(e0, head) == e1;
    var s1 := (if e.logNumber.None? then [] else [LogNumber(e.logNumber.value)]);
    var e2 := e1.(logNumber := e.logNumber);
    assert ApplyAll(e1, s1) == e2;
    var s2 := (if e.prevLogNumber.None? then [] else [PrevLogNumber(e.prevLogNumber.value)]);
    var e3 := e2.(prevLogNumber := e.prevLogNumber);
    assert ApplyAll(e2, s2) == e3;
    var s3 := (if e.nextFileNumber.None? then [] else [NextFileNumber(e.nextFileNumber.value)]);
    var e4 := e3.(nextFileNumber := e.nextFileNumber);
    assert ApplyAll(e3, s3) == e4;
    var s4 := (if e.lastSequence.None? then [] else [LastSequence(e.lastSequence.value)]);
    var e5 := e4.(lastSequence := e.lastSequence);
    assert ApplyAll(e4, s4) == e5;
    var e6 := e5.(compactPointers := ps + e.compactPointers);
    ApplyPointers(e5, e.compactPointers);
    assert [] + e.deleted == e.deleted;
    assert [] + e.added == e.added;
    ApplyDeletions(e6, e.deleted);
    var e7 := e6.(deleted := e.deleted);
    ApplyAdditions(e7, e.added);
    hide ApplyAll;
    ApplyAppend(e0, head, s1);
    ApplyAppend(e0, head + s1, s2);
    ApplyAppend(e0, head + s1 + s2, s3);
    ApplyAppend(e0, head + s1 + s2 + s3, s4);
    ApplyAppend(e0, head + s1 + s2 + s3 + s4, Pointers(e.compactPointers));
    ApplyAppend(e0, head + s1 + s2 + s3 + s4 + Pointers(e.compactPointers), Deletions(e.deleted));
    ApplyAppend(e0, head + s1 + s2 + s3 + s4 + Pointers(e.compactPointers) + Deletions(e.deleted), Additions(e.added));
  }

  predicate WellFormed(e: Edit) {
    AllStorable(Records(e))
  }

  /** VersionEdit::EncodeTo. */
  function Encode(e: Edit): Bytes
    requires WellFormed(e)
  {
    EncodeRecords(Records(e))
  }

  /** The edit and the status that decoding leaves behind. */
  datatype Decoding = Decoding(edit: Edit, ok: bool)

  /** Clear does not touch the compaction pointers. */
  function Cleared(e: Edit): Edit {
    EMPTY.(compactPointers := e.compactPointers)
  }

  /** Reads tagged records as long as there are any; what precedes an error has been applied. */
  function DecodeAll(e: Edit, s: Bytes): Decoding
    decreases |s|
  {
    match GetVarint32(s)
    case None => Decoding(e, s == [])
    case Some(tag) =>
      match ParseBody(tag.value, tag.rest)
      case None => Decoding(e, false)
      case Some(r) => DecodeAll(Apply(e, r.value), r.rest)
  }

  lemma {:induction false} DecodesRecords(e: Edit, rs: seq<Record>)
    requires AllStorable(rs)
    ensures DecodeAll(e, EncodeRecords(rs)) == Decoding(ApplyAll(e, rs), true)
    decreases |rs|
  {
    hide GetVarint32, ParseBody, Varint, Body, Apply;
    var s := EncodeRecords(rs);
    if rs == [] {
      NoVarint(s);
    } else {
      var rest := EncodeRecords(rs[1..]);
      assert s == Varint(Tag(rs[0])) + (Body(rs[0]) + rest);
      Varint32RoundTrip(Tag(rs[0]), Body(rs[0]) + rest);
      BodyRoundTrip(rs[0], rest);
      DecodesRecords(Apply(e, rs[0]), rs[1..]);
    }
  }

  lemma {:induction false} NoVarint(s: Bytes)
    requires s == []
    ensures GetVarint32(s) == None
  {
  }

  /** Decoding an encoded edit into one that was used before: the old compaction pointers stay in front, so the edit
      comes back exactly if there were none. */
  lemma {:induction false} ReusedEditRoundTrip(before: Edit, e: Edit)
    requires WellFormed(e) && Ordered(e.deleted)
    ensures DecodeAll(Cleared(before), Encode(e)) ==
            Decoding(e.(compactPointers := before.compactPointers + e.compactPointers), true)
    ensures DecodeAll(Cleared(before), Encode(e)) == Decoding(e, true) <==> before.compactPointers == []
  {
    hide Ordered, Records, EncodeRecords, DecodeAll;
    DecodesRecords(Cleared(before), Records(e));
    RecordsRebuild(before.compactPointers, e);
    var ps := before.compactPointers + e.compactPointers;
    assert ps == e.compactPointers ==> |before.compactPointers| == 0;
    assert before.compactPointers == [] ==> ps == e.compactPointers;
  }

  /** Decoding an encoded edit into a fresh one gives it back. */
  lemma {:induction false} EditRoundTrip(e: Edit)
    requires WellFormed(e) && Ordered(e.deleted)
    ensures DecodeAll(EMPTY, Encode(e)) == Decoding(e, true)
  {
    hide Ordered, Encode, DecodeAll, WellFormed;
    ReusedEditRoundTrip(EMPTY, e);
  }

  class VersionEdit {
    var comparator: Option<Bytes>
    var logNumber: Option<nat>
    var prevLogNumber: Option<nat>
    var nextFileNumber: Option<nat>
    var lastSequence: Option<nat>
    var compactPointers: seq<Pointer>
    var deleted: seq<Deleted>
    var added: seq<Added>

    constructor ()
      ensures View() == EMPTY
    {
      comparator, logNumber, prevLogNumber, nextFileNumber, lastSequence := None, None, None, None, None;
      compactPointers, deleted, added := [], [], [];
    }

    function View(): Edit
      reads this
    {
      Edit(comparator, logNumber, prevLogNumber, nextFileNumber, lastSequence, compactPointers, deleted, added)
    }

    method Clear()
      modifies this
      ensures View() == Cleared(old(View()))
    {
      comparator, logNumber, prevLogNumber, lastSequence, nextFileNumber := None, None, None, None, None;
      deleted, added := [], [];
    }

    /** Stores what one record says. */
    method Take(r: Record)
      modifies this
      ensures View() == Apply(old(View()), r)
    {
      match r
      case Comparator(name) => comparator := Some(name);
      case LogNumber(n) => logNumber := Some(n);
      case PrevLogNumber(n) => prevLogNumber := Some(n);
      case NextFileNumber(n) => nextFileNumber := Some(n);
      case LastSequence(n) => lastSequence := Some(n);
      case CompactPointer(p) => compactPointers := compactPointers + [p];
      case DeletedFile(d) => deleted := Insert(deleted, d);
      case NewFile(a) => added := added + [a];
    }

    method EncodeTo() returns (dst: Bytes)
      requires WellFormed(View())
      ensures dst == Encode(View())
    {
      hide EncodeRecord;
      var rs := Records(View());
      dst := [];
      for i := 0 to |rs|
        invariant dst + EncodeRecords(rs[i..]) == EncodeRecords(rs)
      {
        assert rs[i..][1..] == rs[i + 1..];
        dst := dst + EncodeRecord(rs[i]);
      }
    }

    method DecodeFrom(src: Bytes) returns (ok: bool)
      modifies this
      ensures Decoding(View(), ok) == DecodeAll(Cleared(old(View())), src)
    {
      hide GetVarint32, ParseBody, Apply;
      Clear();
      var input := src;
      var failed := false;
      while !failed && GetVarint32(input).Some?
        invariant failed ==> Decoding(View(), false) == DecodeAll(Cleared(old(View())), src)
        invariant !failed ==> DecodeAll(View(), input) == DecodeAll(Cleared(old(View())), src)
        decreases !failed, |input|
      {
        var tag := GetVarint32(input).value;
        match ParseBody(tag.value, tag.rest)
        case None =>
          failed := true;
        case Some(r) =>
          Take(r.value);
          input := r.rest;
      }
      ok := !failed && input == [];
    }
  }

  /** A fresh object that decodes what another encoded holds the same edit. */
  method CopyThroughBytes(from: VersionEdit) returns (to: VersionEdit, ok: bool)
    requires WellFormed(from.View()) && Ordered(from.deleted)
    ensures ok && to.View() == from.View()
  {
    var bytes := from.EncodeTo();
    to := new VersionEdit();
    ok := to.DecodeFrom(bytes);
    EditRoundTrip(from.View());
  }
}
