/** The formats of leveldb's files in plain numbers, read by readers that share nothing with the code that writes them
    (db/dbformat.h, db/write_batch.cc, db/version_edit.cc, db/log_format.h, table/block_builder.cc,
    table/filter_block.cc, table/format.cc).
 */
module Formats {
  import opened DbFormat
  import opened Coding
  import opened ByteReaders
  import WriteBatches
  import VersionEditCodec
  import Log
  import BlockFormat
  import Filters
  import TableFormat

  // ----- internal keys -----------------------------------------------------------

  /** The trailer of an internal key: the sequence number, then a byte 1 for a value or 0 for a deletion. It has eight
      bytes exactly up to the greatest sequence number. */
  lemma {:induction false} TrailerIs(k: InternalKey)
    ensures Tag(k) / 256 == k.sequence && Tag(k) % 256 == if k.kind == TypeValue then 1 else 0
    ensures k.sequence <= MAX_SEQUENCE <==> Tag(k) < 0x1_0000_0000_0000_0000
  {
  }

  // ----- write batches -------------------------------------------------------------

  /** A put is 1, the key, the value; a deletion is 0 and the key. */
  function ReadOp(s: Bytes): (r: Option<Parsed<WriteBatches.Op>>)
    ensures r.Some? ==> |r.value.rest| < |s|
  {
    if s == [] then None
    else match ReadCounted(s[1..])
      case None => None
      case Some(k) =>
        if s[0] == 0 then Some(Parsed(WriteBatches.Delete(k.value), k.rest))
        else if s[0] == 1 then
          match ReadCounted(k.rest)
          case None => None
          case Some(v) => Some(Parsed(WriteBatches.Put(k.value, v.value), v.rest))
        else None
  }

  function ReadOps(s: Bytes): Option<seq<WriteBatches.Op>>
    decreases |s|
  {
    if s == [] then Some([])
    else match ReadOp(s)
      case None => None
      case Some(p) => match ReadOps(p.rest) case None => None case Some(more) => Some([p.value] + more)
  }

  lemma {:induction false} OpReads(op: WriteBatches.Op, rest: Bytes)
    requires WriteBatches.Storable(op)
    ensures ReadOp(WriteBatches.EncodeOp(op) + rest) == Some(Parsed(op, rest))
  {
    hide ReadCounted, Varint, LengthPrefixed;
    var after := if op.Put? then LengthPrefixed(op.value) + rest else rest;
    var s := WriteBatches.EncodeOp(op) + rest;
    assert s[0] == (if op.Put? then 1 else 0) && s[1..] == LengthPrefixed(op.key) + after;
    PrefixReads(op.key, after);
    if op.Put? {
      PrefixReads(op.value, rest);
    }
  }

  lemma {:induction false} PrefixReads(b: Bytes, rest: Bytes)
    requires |b| < TWO_32
    ensures ReadCounted(LengthPrefixed(b) + rest) == Some(Parsed(b, rest))
  {
    hide ReadCounted, Varint;
    PrefixedReads(b, rest);
  }

  lemma {:induction false} OpsRead(ops: seq<WriteBatches.Op>, rest: Bytes)
    requires WriteBatches.AllStorable(ops) && ReadOps(rest).Some?
    ensures ReadOps(WriteBatches.EncodeOps(ops) + rest) == Some(ops + ReadOps(rest).value)
    decreases |ops|
  {
    hide WriteBatches.EncodeOp, ReadOp;
    if ops == [] {
      assert WriteBatches.EncodeOps(ops) + rest == rest && ops + ReadOps(rest).value == ReadOps(rest).value;
    } else {
      var n := |ops| - 1;
      var last := WriteBatches.EncodeOp(ops[n]) + rest;
      OpReads(ops[n], rest);
      OpStarts(last);
      OpsRead(ops[..n], last);
      assert WriteBatches.EncodeOps(ops) + rest == WriteBatches.EncodeOps(ops[..n]) + last;
      assert ops[..n] + ([ops[n]] + ReadOps(rest).value) == ops + ReadOps(rest).value;
    }
  }

  lemma {:induction false} OpStarts(s: Bytes)
    requires ReadOp(s).Some?
    ensures s != []
  {
  }

  /** A batch is its sequence number in eight bytes, the number of its operations in four, and the operations. */
  lemma {:induction false} BatchIs(sequence: nat, ops: seq<WriteBatches.Op>)
    requires sequence < 0x1_0000_0000_0000_0000 && |ops| < 0x1_0000_0000 && WriteBatches.AllStorable(ops)
    ensures var rep := WriteBatches.Rep(sequence, ops);
            && |rep| >= 12 && rep[..8] == LittleEndian(sequence, 8) && rep[8..12] == LittleEndian(|ops|, 4)
            && ReadOps(rep[12..]) == Some(ops)
  {
    hide WriteBatches.EncodeOps, EncodeFixed64, EncodeFixed32, LittleEndian, ReadOps;
    FixedBytes(sequence);
    FixedBytes(|ops|);
    NoOps();
    OpsRead(ops, []);
    var body := WriteBatches.EncodeOps(ops);
    assert |ops| % TWO_32 == |ops|;
    Sections(EncodeFixed64(sequence), EncodeFixed32(|ops|), body);
    assert body + [] == body && ops + [] == ops;
  }

  lemma {:induction false} Sections(a: Bytes, b: Bytes, c: Bytes)
    requires |a| == 8 && |b| == 4
    ensures (a + b + c)[..8] == a && (a + b + c)[8..12] == b && (a + b + c)[12..] == c
  {
  }

  lemma {:induction false} NoOps()
    ensures ReadOps([]) == Some([])
  {
  }

  // ----- manifest records ------------------------------------------------------------

  /** The fields of an edit by their numbers; level numbers and file numbers are varints, names and keys are counted. */
  function ReadField(s: Bytes): (r: Option<Parsed<VersionEditCodec.Record>>)
    ensures r.Some? ==> |r.value.rest| < |s|
  {
    match ReadVarint(s)
    case None => None
    case Some(tag) =>
      if tag.value == 1 then
        match ReadCounted(tag.rest) case None => None case Some(v) => Some(Parsed(VersionEditCodec.Comparator(v.value), v.rest))
      else
        match ReadVarint(tag.rest)
        case None => None
        case Some(n) =>
          if tag.value == 2 then Some(Parsed(VersionEditCodec.LogNumber(n.value), n.rest))
          else if tag.value == 3 then Some(Parsed(VersionEditCodec.NextFileNumber(n.value), n.rest))
          else if tag.value == 4 then Some(Parsed(VersionEditCodec.LastSequence(n.value), n.rest))
          else if tag.value == 9 then Some(Parsed(VersionEditCodec.PrevLogNumber(n.value), n.rest))
          else if tag.value == 5 then
            match ReadCounted(n.rest)
            case None => None
            case Some(k) =>
              Some(Parsed(VersionEditCodec.CompactPointer(VersionEditCodec.Pointer(n.value, k.value)), k.rest))
          else if tag.value == 6 then
            match ReadVarint(n.rest)
            case None => None
            case Some(f) => Some(Parsed(VersionEditCodec.DeletedFile(VersionEditCodec.Deleted(n.value, f.value)), f.rest))
          else if tag.value == 7 then ReadNewFile(n.value, n.rest)
          else None
  }

  function ReadNewFile(level: nat, s: Bytes): (r: Option<Parsed<VersionEditCodec.Record>>)
    ensures r.Some? ==> |r.value.rest| < |s|
  {
    match ReadVarint(s)
    case None => None
    case Some(number) =>
      match ReadVarint(number.rest)
      case None => None
      case Some(size) =>
        match ReadCounted(size.rest)
        case None => None
        case Some(low) =>
          match ReadCounted(low.rest)
          case None => None
          case Some(high) =>
            var file := VersionEditCodec.FileMetaData(number.value, size.value, low.value, high.value);
            Some(Parsed(VersionEditCodec.NewFile(VersionEditCodec.Added(level, file)), high.rest))
  }

  function ReadFields(s: Bytes): Option<seq<VersionEditCodec.Record>>
    decreases |s|
  {
    if s == [] then Some([])
    else match ReadField(s)
      case None => None
      case Some(p) => match ReadFields(p.rest) case None => None case Some(more) => Some([p.value] + more)
  }

  /** What follows a field's number. */
  lemma {:induction false} BodyIs(r: VersionEditCodec.Record, rest: Bytes)
    requires VersionEditCodec.Storable(r)
    ensures var body := VersionEditCodec.Body(r) + rest;
            match r
            case Comparator(name) => body == Varint(|name|) + name + rest
            case LogNumber(n) => body == Varint(n) + rest
            case PrevLogNumber(n) => body == Varint(n) + rest
            case NextFileNumber(n) => body == Varint(n) + rest
            case LastSequence(n) => body == Varint(n) + rest
            case CompactPointer(p) => body == Varint(p.level) + (Varint(|p.key|) + p.key + rest)
            case DeletedFile(d) => body == Varint(d.level) + (Varint(d.number) + rest)
            case NewFile(a) =>
              var f := a.file;
              body == Varint(a.level) + (Varint(f.number) + (Varint(f.fileSize) +
                        (Varint(|f.smallest|) + f.smallest + (Varint(|f.largest|) + f.largest + rest))))
  {
    hide Varint;
  }

  lemma {:induction false} FieldReads(r: VersionEditCodec.Record, rest: Bytes)
    requires VersionEditCodec.Storable(r)
    ensures ReadField(VersionEditCodec.EncodeRecord(r) + rest) == Some(Parsed(r, rest))
  {
    hide ReadVarint, ReadCounted, Varint, ReadNewFile, VersionEditCodec.Body;
    var tag, body := VersionEditCodec.Tag(r), VersionEditCodec.Body(r) + rest;
    assert VersionEditCodec.EncodeRecord(r) + rest == Varint(tag) + body;
    VarintReads(tag, body);
    BodyIs(r, rest);
    match r
    case Comparator(name) => PrefixedReads(name, rest);
    case LogNumber(n) => VarintReads(n, rest);
    case PrevLogNumber(n) => VarintReads(n, rest);
    case NextFileNumber(n) => VarintReads(n, rest);
    case LastSequence(n) => VarintReads(n, rest);
    case CompactPointer(p) =>
      VarintReads(p.level, Varint(|p.key|) + p.key + rest);
      PrefixedReads(p.key, rest);
    case DeletedFile(d) =>
      VarintReads(d.level, Varint(d.number) + rest);
      VarintReads(d.number, rest);
    case NewFile(a) =>
      var f := a.file;
      var s2 := Varint(|f.smallest|) + f.smallest + (Varint(|f.largest|) + f.largest + rest);
      VarintReads(a.level, Varint(f.number) + (Varint(f.fileSize) + s2));
      NewFileReads(a, rest);
  }

  lemma {:induction false} NewFileReads(a: VersionEditCodec.Added, rest: Bytes)
    ensures var f := a.file;
            var s1 := Varint(|f.largest|) + f.largest + rest;
            var s2 := Varint(|f.smallest|) + f.smallest + s1;
            var s3 := Varint(f.fileSize) + s2;
            ReadNewFile(a.level, Varint(f.number) + s3) == Some(Parsed(VersionEditCodec.NewFile(a), rest))
  {
    hide ReadVarint, ReadCounted, Varint;
    var f := a.file;
    var s1 := Varint(|f.largest|) + f.largest + rest;
    var s2 := Varint(|f.smallest|) + f.smallest + s1;
    var s3 := Varint(f.fileSize) + s2;
    VarintReads(f.number, s3);
    VarintReads(f.fileSize, s2);
    PrefixedReads(f.smallest, s1);
    PrefixedReads(f.largest, rest);
  }

  lemma {:induction false} FieldsRead(rs: seq<VersionEditCodec.Record>)
    requires VersionEditCodec.AllStorable(rs)
    ensures ReadFields(VersionEditCodec.EncodeRecords(rs)) == Some(rs)
    decreases |rs|
  {
    hide ReadField, VersionEditCodec.EncodeRecord;
    if rs != [] {
      var rest := VersionEditCodec.EncodeRecords(rs[1..]);
      FieldReads(rs[0], rest);
      FieldsRead(rs[1..]);
      assert rs == [rs[0]] + rs[1..];
    }
  }

  /** The bytes of an edit are its fields, each behind its number. */
  lemma {:induction false} EditIs(e: VersionEditCodec.Edit)
    requires VersionEditCodec.WellFormed(e)
    ensures ReadFields(VersionEditCodec.Encode(e)) == Some(VersionEditCodec.Records(e))
  {
    FieldsRead(VersionEditCodec.Records(e));
  }

  /** Whatever the bytes, what is read of them names a level from 0 to 6, or no level. */
  lemma {:induction false} LevelsAreSeven(tag: Word32, s: Bytes)
    ensures var r := VersionEditCodec.ParseBody(tag, s);
            r.Some? ==> match r.value.value
                        case CompactPointer(p) => p.level < 7
                        case DeletedFile(d) => d.level < 7
                        case NewFile(a) => a.level < 7
                        case _ => true
  {
    hide GetVarint32, GetVarint64, GetLengthPrefixed;
  }

  // ----- logs ------------------------------------------------------------------------

  /** A checksum as stored: rotated right by fifteen bits, plus a constant. */
  function Masked(crc: Word32): Word32 {
    ((crc / 32768 + crc % 32768 * 131072) % 0x1_0000_0000 + 0xa282ead8) % 0x1_0000_0000
  }

  /** One fragment in the file: its masked checksum, its type, its payload. */
  datatype Physical = Physical(sum: Bytes, kind: nat, payload: Bytes)

  /** Blocks of 32768 bytes; where fewer than seven are left in one, the next fragment is in the next block. A fragment is
      four bytes of checksum, two of length, one of type, and the payload, all in one block. */
  function ReadFragments(s: Bytes, at: nat): Option<seq<Physical>>
    decreases |s|
  {
    var room := 32768 - at % 32768;
    if s == [] then Some([])
    else if room < 7 then (if |s| < room then None else ReadFragments(s[room..], at + room))
    else if |s| < 7 then None
    else
      var size: nat := 7 + s[4] as nat + 256 * s[5] as nat;
      if |s| < size || room < size then None
      else match ReadFragments(s[size..], at + size)
        case None => None
        case Some(more) => Some([Physical(s[..4], s[6], s[7..size])] + more)
  }

  /** Types: 1 is a whole record, 2, 3 and 4 are the first, a middle and the last part of one. */
  function Assemble(fs: seq<Physical>, partial: Option<Bytes>): Option<seq<Bytes>>
    decreases |fs|
  {
    if fs == [] then (if partial.None? then Some([]) else None)
    else if fs[0].kind == 1 && partial.None? then
      match Assemble(fs[1..], None) case None => None case Some(more) => Some([fs[0].payload] + more)
    else if fs[0].kind == 2 && partial.None? then Assemble(fs[1..], Some(fs[0].payload))
    else if fs[0].kind == 3 && partial.Some? then Assemble(fs[1..], Some(partial.value + fs[0].payload))
    else if fs[0].kind == 4 && partial.Some? then
      match Assemble(fs[1..], None)
      case None => None
      case Some(more) => Some([partial.value + fs[0].payload] + more)
    else None
  }

  /** A fragment as the writer makes it: the checksum is over the type byte and the payload. */
  function InFile(crc: Crc, f: Log.Fragment): Physical {
    Physical(LittleEndian(Masked(crc([f.kind] + f.payload)), 4), f.kind, f.payload)
  }

  function AllInFile(crc: Crc, fs: seq<Log.Fragment>): (r: seq<Physical>)
    ensures |r| == |fs|
  {
    seq(|fs|, i requires 0 <= i < |fs| => InFile(crc, fs[i]))
  }

  lemma {:induction false} MaskedIs(crc: Word32)
    ensures Mask(crc) == Masked(crc)
  {
  }

  lemma {:induction false} HeaderIs(crc: Crc, f: Log.Fragment)
    requires |f.payload| < 0x1_0000
    ensures var h := Log.Header(crc, f);
            && h[..4] == InFile(crc, f).sum && h[4] as nat + 256 * h[5] as nat == |f.payload| && h[6] == f.kind
  {
    hide EncodeFixed32, LittleEndian, Mask, Masked;
    MaskedIs(crc([f.kind] + f.payload));
    FixedBytes(Mask(crc([f.kind] + f.payload)));
  }

  /** Seven header bytes and a payload within the block are a fragment. */
  lemma {:induction false} FragmentReads(h: Bytes, payload: Bytes, rest: Bytes, at: nat)
    requires |h| == 7 && h[4] as nat + 256 * h[5] as nat == |payload| && 7 + |payload| <= 32768 - at % 32768
    ensures ReadFragments(h + payload + rest, at) ==
            match ReadFragments(rest, at + 7 + |payload|)
            case None => None
            case Some(more) => Some([Physical(h[..4], h[6], payload)] + more)
  {
    var s, size := h + payload + rest, 7 + |payload|;
    assert s[..4] == h[..4] && s[4] == h[4] && s[5] == h[5] && s[6] == h[6];
    assert s[7..size] == payload && s[size..] == rest;
  }

  lemma {:induction false} PaddingSkipped(padding: Bytes, s: Bytes, at: nat)
    requires s != [] && (padding != [] ==> |padding| == 32768 - at % 32768 < 7)
    ensures ReadFragments(padding + s, at) == ReadFragments(s, at + |padding|)
  {
    if padding != [] {
      assert (padding + s)[|padding|..] == s;
    } else {
      assert padding + s == s;
    }
  }

  lemma {:induction false} StartAt(offset: nat, at: nat)
    requires offset <= 32768 && at % 32768 == offset % 32768
    ensures var padding := Log.Padding(offset);
            && (at + |padding|) % 32768 == Log.Start(offset) < 32768
            && (padding != [] ==> |padding| == 32768 - at % 32768 < 7)
  {
  }

  lemma {:induction false} SameRest(a: nat, b: nat, n: nat)
    requires a % 32768 == b % 32768
    ensures (a + n) % 32768 == (b + n) % 32768
  {
  }

  lemma {:induction false} PaddedFragmentReads(padding: Bytes, h: Bytes, payload: Bytes, rest: Bytes, at: nat)
    requires |h| == 7 && h[4] as nat + 256 * h[5] as nat == |payload|
    requires 7 + |payload| <= 32768 - (at + |padding|) % 32768
    requires padding != [] ==> |padding| == 32768 - at % 32768 < 7
    ensures ReadFragments(padding + h + payload + rest, at) ==
            match ReadFragments(rest, at + |padding + h + payload|)
            case None => None
            case Some(more) => Some([Physical(h[..4], h[6], payload)] + more)
  {
    hide ReadFragments;
    FragmentReads(h, payload, rest, at + |padding|);
    PaddingSkipped(padding, h + payload + rest, at);
    assert padding + h + payload + rest == padding + (h + payload + rest);
    assert at + |padding| + 7 + |payload| == at + |padding + h + payload|;
  }

  lemma {:induction false} PieceReads(crc: Crc, offset: nat, f: Log.Fragment, rest: Bytes, at: nat)
    requires Log.Fit(offset, [f]) && at % 32768 == offset % 32768
    ensures var next := at + |Log.Piece(crc, offset, f)|;
            && next % 32768 == (Log.Start(offset) + 7 + |f.payload|) % 32768
            && ReadFragments(Log.Piece(crc, offset, f) + rest, at) ==
               match ReadFragments(rest, next) case None => None case Some(more) => Some([InFile(crc, f)] + more)
  {
    hide ReadFragments, InFile, Log.Header, Log.Padding, Log.Start;
    StartAt(offset, at);
    SameRest(at + |Log.Padding(offset)|, Log.Start(offset), 7 + |f.payload|);
    HeaderIs(crc, f);
    Named(crc, f);
    PaddedFragmentReads(Log.Padding(offset), Log.Header(crc, f), f.payload, rest, at);
  }

  lemma {:induction false} Named(crc: Crc, f: Log.Fragment)
    ensures InFile(crc, f) == Physical(InFile(crc, f).sum, f.kind, f.payload)
  {
  }

  lemma {:induction false} FragmentsRead(crc: Crc, offset: nat, fs: seq<Log.Fragment>, at: nat)
    requires Log.Fit(offset, fs) && at % 32768 == offset % 32768
    ensures ReadFragments(Log.Layout(crc, offset, fs), at) == Some(AllInFile(crc, fs))
    decreases |fs|
  {
    hide Log.Piece, InFile, Log.Start;
    if fs != [] {
      Log.LayoutUnfolds(crc, offset, fs);
      var next := Log.Start(offset) + 7 + |fs[0].payload|;
      PieceReads(crc, offset, fs[0], Log.Layout(crc, next, fs[1..]), at);
      FragmentsRead(crc, next, fs[1..], at + |Log.Piece(crc, offset, fs[0])|);
      assert AllInFile(crc, fs) == [InFile(crc, fs[0])] + AllInFile(crc, fs[1..]);
    }
  }

  /** The last fragment of a record, or one that is not the last. */
  lemma {:induction false} AssembleOne(p: Physical, rest: seq<Physical>, begin: bool, end: bool, sofar: Bytes)
    requires p.kind == Log.Kind(begin, end) && (begin ==> sofar == [])
    ensures Assemble([p] + rest, if begin then None else Some(sofar)) ==
            if end then match Assemble(rest, None) case None => None case Some(more) => Some([sofar + p.payload] + more)
            else Assemble(rest, Some(sofar + p.payload))
  {
    assert ([p] + rest)[1..] == rest && [] + p.payload == p.payload;
  }

  /** The fragments of a record, behind what there is of it, make the record. */
  lemma {:induction false} RecordAssembles(crc: Crc, offset: nat, data: Bytes, begin: bool, sofar: Bytes,
                                           more: seq<Physical>)
    requires offset <= 32768 && (begin ==> sofar == [])
    ensures Assemble(AllInFile(crc, Log.Fragments(offset, data, begin)) + more, if begin then None else Some(sofar)) ==
            match Assemble(more, None) case None => None case Some(rs) => Some([sofar + data] + rs)
    decreases |data|, 32768 - Log.Start(offset) == 7
  {
    hide Assemble, InFile, Log.Kind, Log.Fit, Log.Fragments, Log.RecordBytes, Log.RecordEnd, Log.Piece;
    Log.RecordUnfolds(crc, offset, data, begin);
    var n := Log.Cut(offset, data);
    var next := Log.Start(offset) + 7 + n;
    var f := Log.Fragment(Log.Kind(begin, n == |data|), data[..n]);
    var tail := if n == |data| then [] else Log.Fragments(next, data[n..], false);
    Named(crc, f);
    assert AllInFile(crc, [f] + tail) + more == [InFile(crc, f)] + (AllInFile(crc, tail) + more);
    AssembleOne(InFile(crc, f), AllInFile(crc, tail) + more, begin, n == |data|, sofar);
    if n == |data| {
      assert data[..n] == data && AllInFile(crc, tail) + more == more;
    } else {
      RecordAssembles(crc, next, data[n..], false, sofar + data[..n], more);
      assert sofar + data[..n] + data[n..] == sofar + data;
    }
  }

  lemma {:induction false} RecordsAssemble(crc: Crc, offset: nat, records: seq<Bytes>)
    requires offset <= 32768
    ensures Assemble(AllInFile(crc, Log.RecordFragments(offset, records)), None) == Some(records)
    decreases |records|
  {
    hide Assemble, InFile, Log.Fragments, Log.After;
    if records != [] {
      var head := Log.Fragments(offset, records[0], true);
      var next := Log.After(offset, head);
      var tail := Log.RecordFragments(next, records[1..]);
      RecordsAssemble(crc, next, records[1..]);
      RecordAssembles(crc, offset, records[0], true, [], AllInFile(crc, tail));
      assert Log.RecordFragments(offset, records) == head + tail;
      assert AllInFile(crc, head + tail) == AllInFile(crc, head) + AllInFile(crc, tail);
      assert [] + records[0] == records[0] && records == [records[0]] + records[1..];
    } else {
      NothingAssembles();
      assert AllInFile(crc, Log.RecordFragments(offset, records)) == [];
    }
  }

  lemma {:induction false} NothingAssembles()
    ensures Assemble([], None) == Some([])
  {
  }

  /** A log is read block by block into fragments with the right checksums, and these make its records. */
  lemma {:induction false} LogIs(crc: Crc, records: seq<Bytes>)
    ensures var fs := Log.RecordFragments(0, records);
            && ReadFragments(Log.LogBytes(crc, 0, records), 0) == Some(AllInFile(crc, fs))
            && Assemble(AllInFile(crc, fs), None) == Some(records)
  {
    hide ReadFragments, Assemble, AllInFile, Log.RecordFragments;
    FragmentsRead(crc, 0, Log.RecordFragments(0, records), 0);
    RecordsAssemble(crc, 0, records);
  }

  // ----- blocks ----------------------------------------------------------------------

  /** An entry is three varints, how many bytes of the key before it shares, how many follow, and the length of its
      value; then those bytes and the value. */
  function ReadEntry(s: Bytes, last: Bytes): (r: Option<Parsed<BlockFormat.KeyValue>>)
    ensures r.Some? ==> |r.value.rest| < |s|
  {
    match ReadVarint(s)
    case None => None
    case Some(shared) =>
      match ReadVarint(shared.rest)
      case None => None
      case Some(more) =>
        match ReadVarint(more.rest)
        case None => None
        case Some(size) =>
          if shared.value > |last| || |size.rest| < more.value + size.value then None
          else
            var end := more.value + size.value;
            Some(Parsed(BlockFormat.KeyValue(last[..shared.value] + size.rest[..more.value], size.rest[more.value..end]),
                        size.rest[end..]))
  }

  function ReadEntries(s: Bytes, last: Bytes): Option<seq<BlockFormat.KeyValue>>
    decreases |s|
  {
    if s == [] then Some([])
    else match ReadEntry(s, last)
      case None => None
      case Some(p) =>
        match ReadEntries(p.rest, p.value.key) case None => None case Some(more) => Some([p.value] + more)
  }

  lemma {:induction false} EntryReads(shared: nat, e: BlockFormat.KeyValue, last: Bytes, rest: Bytes)
    requires BlockFormat.Storable(e) && shared <= |e.key| && shared <= |last| && last[..shared] == e.key[..shared]
    ensures ReadEntry(BlockFormat.EntryBytes(shared, e) + rest, last) == Some(Parsed(e, rest))
  {
    hide Varint, ReadVarint;
    var more, size := |e.key| - shared, |e.value|;
    var s3 := e.key[shared..] + e.value + rest;
    var s2 := Varint(size) + s3;
    var s1 := Varint(more) + s2;
    assert BlockFormat.EntryBytes(shared, e) + rest == Varint(shared) + s1;
    VarintReads(shared, s1);
    VarintReads(more, s2);
    VarintReads(size, s3);
    assert s3[..more] == e.key[shared..] && s3[more..more + size] == e.value && s3[more + size..] == rest;
    assert last[..shared] + e.key[shared..] == e.key;
  }

  /** The bytes of the entries from the `i`-th on. */
  function Tail(es: seq<BlockFormat.KeyValue>, starts: seq<nat>, i: nat): Bytes
    requires i <= |es| && BlockFormat.AllStorable(es)
    decreases |es| - i
  {
    if i == |es| then [] else BlockFormat.EntryBytes(BlockFormat.Shared(es, starts, i), es[i]) + Tail(es, starts, i + 1)
  }

  lemma {:induction false} TailIsRest(es: seq<BlockFormat.KeyValue>, starts: seq<nat>, i: nat)
    requires i <= |es| && BlockFormat.AllStorable(es)
    ensures BlockFormat.Encode(es, starts, |es|) == BlockFormat.Encode(es, starts, i) + Tail(es, starts, i)
    decreases |es| - i
  {
    hide BlockFormat.EntryBytes, BlockFormat.Shared, BlockFormat.Encode;
    if i < |es| {
      TailIsRest(es, starts, i + 1);
      EncodeUnfolds(es, starts, i);
      var b := BlockFormat.EntryBytes(BlockFormat.Shared(es, starts, i), es[i]);
      Associates(BlockFormat.Encode(es, starts, i), b, Tail(es, starts, i + 1));
    }
  }

  lemma {:induction false} EncodeUnfolds(es: seq<BlockFormat.KeyValue>, starts: seq<nat>, i: nat)
    requires i < |es| && BlockFormat.AllStorable(es)
    ensures BlockFormat.Encode(es, starts, i + 1) ==
            BlockFormat.Encode(es, starts, i) + BlockFormat.EntryBytes(BlockFormat.Shared(es, starts, i), es[i])
  {
    hide BlockFormat.EntryBytes, BlockFormat.Shared;
  }

  lemma {:induction false} Associates(a: Bytes, b: Bytes, c: Bytes)
    ensures a + b + c == a + (b + c) && a + [] == a
  {
  }

  /** From the key before, or from nothing at a restart, the entries read on to the end. */
  lemma {:induction false} TailReads(es: seq<BlockFormat.KeyValue>, starts: seq<nat>, i: nat, last: Bytes)
    requires i <= |es| && BlockFormat.AllStorable(es)
    requires i < |es| ==> i in starts || i == 0 || last == es[i - 1].key
    ensures ReadEntries(Tail(es, starts, i), last) == Some(es[i..])
    decreases |es| - i
  {
    hide ReadEntry, BlockFormat.EntryBytes;
    if i < |es| {
      var shared := BlockFormat.Shared(es, starts, i);
      SharedIsPrefix(es, starts, i, last);
      EntryReads(shared, es[i], last, Tail(es, starts, i + 1));
      TailReads(es, starts, i + 1, es[i].key);
      assert es[i..] == [es[i]] + es[i + 1..];
    } else {
      assert es[i..] == [];
    }
  }

  lemma {:induction false} SharedIsPrefix(es: seq<BlockFormat.KeyValue>, starts: seq<nat>, i: nat, last: Bytes)
    requires i < |es| && (i in starts || i == 0 || last == es[i - 1].key)
    ensures var shared := BlockFormat.Shared(es, starts, i);
            shared <= |last| && shared <= |es[i].key| && last[..shared] == es[i].key[..shared]
  {
  }

  /** The restart array: where entries can be read from nothing. */
  ghost predicate RestartAt(data: Bytes, body: nat, j: nat, es: seq<BlockFormat.KeyValue>)
    requires body + 4 * j + 4 <= |data|
  {
    exists o: nat ::
      && o <= body && data[body + 4 * j..body + 4 * j + 4] == LittleEndian(o, 4)
      && ReadEntries(data[o..body], []) == Some(es)
  }

  /** A block ends with the number of its restarts, in four bytes, and before it the offset of each, in four bytes; what
      is in front of them are the entries. From each restart on they can be read without the key before. */
  lemma {:induction false} BlockIs(data: Bytes, es: seq<BlockFormat.KeyValue>, starts: seq<nat>)
    requires BlockFormat.IsBlock(data, es, starts)
    ensures var n := |starts|;
            && 4 * n + 4 <= |data| && data[|data| - 4..] == LittleEndian(n, 4)
            && var body := |data| - 4 - 4 * n;
               && ReadEntries(data[..body], []) == Some(es)
               && forall j :: 0 <= j < n ==> starts[j] <= |es| && RestartAt(data, body, j, es[starts[j]..])
  {
    hide BlockFormat.Encode, EncodeFixed32, LittleEndian, Fixed32s, ReadEntries, Tail;
    var n, offsets := |starts|, BlockFormat.RestartOffsets(es, starts);
    var entries := BlockFormat.Encode(es, starts, |es|);
    var body := |entries|;
    FixedBytes(n);
    assert data[|data| - 4..] == EncodeFixed32(n);
    FirstTail(es, starts);
    TailReads(es, starts, 0, []);
    assert es[0..] == es && data[..body] == entries;
    forall j | 0 <= j < n ensures starts[j] <= |es| && RestartAt(data, body, j, es[starts[j]..]) {
      RestartReads(data, es, starts, j);
    }
  }

  lemma {:induction false} RestartReads(data: Bytes, es: seq<BlockFormat.KeyValue>, starts: seq<nat>, j: nat)
    requires BlockFormat.IsBlock(data, es, starts) && j < |starts|
    ensures var body := |data| - 4 - 4 * |starts|;
            body >= 0 && starts[j] <= |es| && RestartAt(data, body, j, es[starts[j]..])
  {
    hide BlockFormat.Encode, EncodeFixed32, LittleEndian, Fixed32s, ReadEntries, Tail;
    var offsets := BlockFormat.RestartOffsets(es, starts);
    var (body, words) := (|BlockFormat.Encode(es, starts, |es|)|, Fixed32s(offsets));
    var o := offsets[j];
    Fixed32sAt(offsets, j);
    FixedBytes(o);
    assert data[body + 4 * j..body + 4 * j + 4] == words[4 * j..4 * j + 4];
    TailIsRest(es, starts, starts[j]);
    assert data[o..body] == Tail(es, starts, starts[j]);
    TailReads(es, starts, starts[j], []);
  }

  lemma {:induction false} FirstTail(es: seq<BlockFormat.KeyValue>, starts: seq<nat>)
    requires BlockFormat.AllStorable(es)
    ensures BlockFormat.Encode(es, starts, |es|) == Tail(es, starts, 0)
  {
    TailIsRest(es, starts, 0);
  }

  /** An entry that is no restart shares with the key before it as many bytes as the two have in common. */
  lemma {:induction false} SharedIsLongest(es: seq<BlockFormat.KeyValue>, starts: seq<nat>, i: nat)
    requires 0 < i < |es| && i !in starts
    ensures var (n, a, b) := (BlockFormat.Shared(es, starts, i), es[i - 1].key, es[i].key);
            && n <= |a| && n <= |b| && a[..n] == b[..n] && (n == |a| || n == |b| || a[n] != b[n])
  {
  }

  // ----- filter blocks and block handles -----------------------------------------

  function Total(parts: seq<Bytes>): nat {
    if parts == [] then 0 else Total(parts[..|parts| - 1]) + |parts[|parts| - 1]|
  }

  lemma {:induction false} ConcatHasTotal(parts: seq<Bytes>)
    ensures |Filters.Concat(parts)| == Total(parts)
  {
    if parts != [] {
      ConcatHasTotal(parts[..|parts| - 1]);
    }
  }

  /** Filter `i` starts where those before it end; its start is word `i` of the array behind the filters. */
  ghost predicate FilterAt(contents: Bytes, body: nat, filters: seq<Bytes>, i: nat)
    requires i < |filters| && body + 4 * |filters| <= |contents|
  {
    var start := Total(filters[..i]);
    && contents[body + 4 * i..body + 4 * i + 4] == LittleEndian(start, 4)
    && start + |filters[i]| <= body && contents[start..start + |filters[i]|] == filters[i]
  }

  /** A filter block has the filters, where each starts, where the last ends, and at last a byte 11: there is
      one filter for every two to the eleventh bytes of the table. */
  lemma {:induction false} FilterBlockIs(contents: Bytes, filters: seq<Bytes>, offsets: seq<nat>)
    requires Filters.IsFilterBlock(contents, filters, offsets)
    ensures var n, body := |contents|, Total(filters);
            && n == body + 4 * |filters| + 5 && contents[n - 1] == 11 && contents[n - 5..n - 1] == LittleEndian(body, 4)
            && forall i :: 0 <= i < |filters| ==> FilterAt(contents, body, filters, i)
  {
    hide Filters.Concat, Fixed32s, EncodeFixed32, LittleEndian, Total;
    var body := Total(filters);
    ConcatHasTotal(filters);
    FixedBytes(body);
    assert contents[|contents| - 5..|contents| - 1] == EncodeFixed32(body);
    forall i | 0 <= i < |filters| ensures FilterAt(contents, body, filters, i) {
      ConcatHasTotal(filters[..i]);
      Filters.ConcatAt(filters, i);
      Fixed32sAt(offsets, i);
      FixedBytes(offsets[i]);
      var at := body + 4 * i;
      assert contents[at..at + 4] == Fixed32s(offsets)[4 * i..4 * i + 4];
      Filters.FilterAt(contents, filters, offsets, i);
    }
  }

  /** Two varints, the offset and the size of a block. */
  function ReadHandle(s: Bytes): Option<Parsed<TableFormat.Handle>> {
    match ReadVarint(s)
    case None => None
    case Some(offset) =>
      match ReadVarint(offset.rest)
      case None => None
      case Some(size) => Some(Parsed(TableFormat.Handle(offset.value, size.value), size.rest))
  }

  lemma {:induction false} HandleReads(h: TableFormat.Handle, rest: Bytes)
    requires h.offset < 0x1_0000_0000_0000_0000 && h.size < 0x1_0000_0000_0000_0000
    ensures ReadHandle(TableFormat.EncodeHandle(h) + rest) == Some(Parsed(h, rest))
  {
    hide Varint, ReadVarint;
    assert TableFormat.EncodeHandle(h) + rest == Varint(h.offset) + (Varint(h.size) + rest);
    VarintReads(h.offset, Varint(h.size) + rest);
    VarintReads(h.size, rest);
  }

  /** Behind a block stand a byte 0 and the masked checksum of the block and that byte. */
  lemma {:induction false} BlockTrailerIs(crc: Crc, contents: Bytes)
    ensures TableFormat.Trailer(crc, contents) == [0] + LittleEndian(Masked(crc(contents + [0])), 4)
  {
    hide EncodeFixed32, LittleEndian;
    MaskedIs(crc(contents + [0]));
    FixedBytes(Mask(crc(contents + [0])));
  }

  /** The footer has the handles of the metaindex and of the index, zeros up to byte 40, and eight fixed bytes. */
  lemma {:induction false} FooterIs(meta: TableFormat.Handle, index: TableFormat.Handle)
    requires TableFormat.HandleFits(meta) && TableFormat.HandleFits(index)
    ensures var s := TableFormat.EncodeFooter(meta, index);
            && s[40..] == [0x57, 0xfb, 0x80, 0x8b, 0x24, 0x75, 0x47, 0xdb]
            && var m := ReadHandle(s[..40]);
            && m.Some? && m.value.value == meta
            && var i := ReadHandle(m.value.rest);
            && i.Some? && i.value.value == index && forall k :: 0 <= k < |i.value.rest| ==> i.value.rest[k] == 0
  {
    hide TableFormat.EncodeHandle, ReadHandle, EncodeFixed32;
    var s := TableFormat.EncodeFooter(meta, index);
    var handles := TableFormat.EncodeHandle(meta) + TableFormat.EncodeHandle(index);
    var zeros := TableFormat.Padding(40 - |handles|);
    assert s[..40] == TableFormat.EncodeHandle(meta) + (TableFormat.EncodeHandle(index) + zeros);
    HandleReads(meta, TableFormat.EncodeHandle(index) + zeros);
    HandleReads(index, zeros);
    MagicBytes();
    assert s[40..] == EncodeFixed32(0x8b80_fb57) + EncodeFixed32(0xdb47_7524);
  }

  lemma {:induction false} MagicBytes()
    ensures EncodeFixed32(0x8b80_fb57) == [0x57, 0xfb, 0x80, 0x8b]
    ensures EncodeFixed32(0xdb47_7524) == [0x24, 0x75, 0x47, 0xdb]
  {
    hide EncodeFixed32;
    FourBytes(0x57, 0xfb, 0x80, 0x8b);
    FourBytes(0x24, 0x75, 0x47, 0xdb);
  }

  lemma {:induction false} FourBytes(a: Byte, b: Byte, c: Byte, d: Byte)
    ensures EncodeFixed32(a + 256 * b + 65536 * c + 16777216 * d) == [a, b, c, d]
  {
    hide EncodeFixed32;
    var n := a + 256 * b + 65536 * c + 16777216 * d;
    FixedIsOnlyLittleEndian(n);
    NextByte(a, b + 256 * c + 65536 * d, 3);
    NextByte(b, c + 256 * d, 2);
    NextByte(c, d, 1);
    NextByte(d, 0, 0);
  }

  lemma {:induction false} FixedIsOnlyLittleEndian(n: nat)
    requires n < 0x1_0000_0000
    ensures EncodeFixed32(n) == LittleEndian(n, 4)
  {
    hide EncodeFixed32, LittleEndian;
    FixedBytes(n);
  }

  lemma {:induction false} NextByte(low: Byte, high: nat, width: nat)
    ensures LittleEndian(low + 256 * high, width + 1) == [low] + LittleEndian(high, width)
    ensures LittleEndian(high, 0) == []
  {
  }
}
