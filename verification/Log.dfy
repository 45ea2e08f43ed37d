/** The record log (db/log_format.h, db/log_writer.cc, db/log_reader.cc): blocks of 32 KiB holding
    checksummed fragments. Whatever prefix of the file survives a crash, the reader returns exactly
    the records that lie whole in it.

    The checksum is an arbitrary function of the type byte and the payload.
 */
module Log {
  import opened DbFormat
  import opened Coding
  import LogScan

  const BLOCK: nat := 32768
  const HEADER: nat := 7

  const FULL: Byte := 1
  const FIRST: Byte := 2
  const MIDDLE: Byte := 3
  const LAST: Byte := 4
  const END_OF_FILE: Byte := 5
  const BAD_RECORD: Byte := 6

  datatype Fragment = Fragment(kind: Byte, payload: Bytes)

  // ----- the format --------------------------------------------------------

  /** Where in its block the next fragment starts: too short a trailer is skipped. */
  function Start(offset: nat): nat {
    if offset + HEADER > BLOCK then 0 else offset
  }

  function Padding(offset: nat): (s: Bytes)
    requires offset <= BLOCK
  {
    if offset + HEADER > BLOCK then seq(BLOCK - offset, i => 0) else []
  }

  function Header(crc: Crc, f: Fragment): (s: Bytes)
    requires |f.payload| < 0x1_0000
    ensures |s| == HEADER
  {
    EncodeFixed32(Mask(crc([f.kind] + f.payload))) + [|f.payload| % 256, |f.payload| / 256, f.kind]
  }

  /** Each fragment lies within one block when the first is written at `offset`. */
  predicate Fit(offset: nat, fs: seq<Fragment>)
    decreases |fs|
  {
    && offset <= BLOCK
    && (fs != [] ==> var next := Start(offset) + HEADER + |fs[0].payload|;
                     next <= BLOCK && FULL <= fs[0].kind <= LAST && Fit(next, fs[1..]))
  }

  /** The bytes of one fragment, after the trailer it skips. */
  function Piece(crc: Crc, offset: nat, f: Fragment): Bytes
    requires Fit(offset, [f])
  {
    Padding(offset) + Header(crc, f) + f.payload
  }

  function PieceSize(offset: nat, f: Fragment): nat
    requires offset <= BLOCK
  {
    |Padding(offset)| + HEADER + |f.payload|
  }

  /** The bytes of `fs` written from block offset `offset` on. */
  function Layout(crc: Crc, offset: nat, fs: seq<Fragment>): Bytes
    requires Fit(offset, fs)
    decreases |fs|
  {
    if fs == [] then []
    else Piece(crc, offset, fs[0]) + Layout(crc, Start(offset) + HEADER + |fs[0].payload|, fs[1..])
  }

  /** The block offset after writing `fs`. */
  function After(offset: nat, fs: seq<Fragment>): (r: nat)
    requires Fit(offset, fs)
    ensures r <= BLOCK
    decreases |fs|
  {
    if fs == [] then offset else After(Start(offset) + HEADER + |fs[0].payload|, fs[1..])
  }

  function Kind(begin: bool, end: bool): Byte {
    if begin && end then FULL else if begin then FIRST else if end then LAST else MIDDLE
  }

  /** How `data` is cut into fragments; a fragment may be empty when just a header fits its block. */
  function Fragments(offset: nat, data: Bytes, begin: bool): (fs: seq<Fragment>)
    requires offset <= BLOCK
    ensures fs != [] && Fit(offset, fs)
    decreases |data|, BLOCK - Start(offset) == HEADER
  {
    var avail := BLOCK - Start(offset) - HEADER;
    var n := if |data| < avail then |data| else avail;
    var head := Fragment(Kind(begin, n == |data|), data[..n]);
    if n == |data| then [head]
    else [head] + Fragments(Start(offset) + HEADER + n, data[n..], false)
  }

  function RecordFragments(offset: nat, records: seq<Bytes>): (fs: seq<Fragment>)
    requires offset <= BLOCK
    ensures Fit(offset, fs)
    decreases |records|
  {
    if records == [] then []
    else
      var head := Fragments(offset, records[0], true);
      FitAppend(offset, head, RecordFragments(After(offset, head), records[1..]));
      head + RecordFragments(After(offset, head), records[1..])
  }

  lemma {:induction false} FitAppend(offset: nat, fs: seq<Fragment>, gs: seq<Fragment>)
    requires Fit(offset, fs) && Fit(After(offset, fs), gs)
    ensures Fit(offset, fs + gs)
    decreases |fs|
  {
    if fs == [] {
      assert fs + gs == gs;
    } else {
      FitAppend(Start(offset) + HEADER + |fs[0].payload|, fs[1..], gs);
      assert (fs + gs)[1..] == fs[1..] + gs;
    }
  }

  lemma {:induction false} LayoutAppend(crc: Crc, offset: nat, fs: seq<Fragment>, gs: seq<Fragment>)
    requires Fit(offset, fs) && Fit(After(offset, fs), gs)
    ensures Fit(offset, fs + gs)
    ensures Layout(crc, offset, fs + gs) == Layout(crc, offset, fs) + Layout(crc, After(offset, fs), gs)
    ensures After(offset, fs + gs) == After(After(offset, fs), gs)
    decreases |fs|
  {
    hide Piece, Padding, Header, Layout, After, Fit, Start;
    FitAppend(offset, fs, gs);
    if fs == [] {
      assert fs + gs == gs;
      NoFragments(crc, offset, fs);
    } else {
      var next := Start(offset) + HEADER + |fs[0].payload|;
      assert (fs + gs)[0] == fs[0] && (fs + gs)[1..] == fs[1..] + gs;
      LayoutUnfolds(crc, offset, fs);
      LayoutUnfolds(crc, offset, fs + gs);
      LayoutAppend(crc, next, fs[1..], gs);
      Associates(Piece(crc, offset, fs[0]), Layout(crc, next, fs[1..]), Layout(crc, After(offset, fs), gs));
    }
  }

  lemma {:induction false} NoFragments(crc: Crc, offset: nat, fs: seq<Fragment>)
    requires offset <= BLOCK && fs == []
    ensures Fit(offset, fs) && Layout(crc, offset, fs) == [] && After(offset, fs) == offset
  {
  }

  lemma {:induction false} LayoutUnfolds(crc: Crc, offset: nat, fs: seq<Fragment>)
    requires Fit(offset, fs) && fs != []
    ensures var next := Start(offset) + HEADER + |fs[0].payload|;
            && Fit(offset, [fs[0]]) && Fit(next, fs[1..]) && After(offset, fs) == After(next, fs[1..])
            && Layout(crc, offset, fs) == Piece(crc, offset, fs[0]) + Layout(crc, next, fs[1..])
  {
    hide Piece;
  }

  /** The bytes of the rest `data` of a record. */
  function RecordBytes(crc: Crc, offset: nat, data: Bytes, begin: bool): Bytes
    requires offset <= BLOCK
  {
    Layout(crc, offset, Fragments(offset, data, begin))
  }

  function RecordEnd(offset: nat, data: Bytes, begin: bool): (r: nat)
    requires offset <= BLOCK
    ensures r <= BLOCK
  {
    After(offset, Fragments(offset, data, begin))
  }

  function Cut(offset: nat, data: Bytes): (n: nat)
    requires offset <= BLOCK
    ensures n <= |data|
  {
    var avail := BLOCK - Start(offset) - HEADER;
    if |data| < avail then |data| else avail
  }

  /** Writing the rest of a record is writing one fragment and then what is left. */
  lemma {:induction false} RecordUnfolds(crc: Crc, offset: nat, data: Bytes, begin: bool)
    requires offset <= BLOCK
    ensures var n := Cut(offset, data);
            var f := Fragment(Kind(begin, n == |data|), data[..n]);
            var next := Start(offset) + HEADER + n;
            && Fit(offset, [f]) && next <= BLOCK
            && Fragments(offset, data, begin) == [f] + (if n == |data| then [] else Fragments(next, data[n..], false))
            && RecordBytes(crc, offset, data, begin)
               == Piece(crc, offset, f) + (if n == |data| then [] else RecordBytes(crc, next, data[n..], false))
            && RecordEnd(offset, data, begin) == if n == |data| then next else RecordEnd(next, data[n..], false)
  {
    hide Piece, Padding, Header;
    var n := Cut(offset, data);
    var fs := Fragments(offset, data, begin);
    var next := Start(offset) + HEADER + n;
    if n == |data| {
      assert fs[1..] == [];
      assert Layout(crc, next, fs[1..]) == [] && After(next, fs[1..]) == next;
    } else {
      assert fs[1..] == Fragments(next, data[n..], false);
    }
  }

  // ----- the writer --------------------------------------------------------

  class Writer {
    const crc: Crc
    var dest: Bytes
    var blockOffset: nat

    /** Appends to a log that holds `contents`. */
    constructor (crc: Crc, contents: Bytes)
      ensures this.crc == crc && dest == contents && blockOffset == |contents| % BLOCK
    {
      this.crc, dest, blockOffset := crc, contents, |contents| % BLOCK;
    }

    method EmitPhysicalRecord(kind: Byte, payload: Bytes)
      requires Fit(blockOffset, [Fragment(kind, payload)]) && blockOffset + HEADER <= BLOCK
      modifies this
      ensures dest == old(dest) + Piece(crc, old(blockOffset), Fragment(kind, payload))
      ensures blockOffset == old(blockOffset) + HEADER + |payload|
    {
      var f := Fragment(kind, payload);
      dest := dest + Header(crc, f);
      dest := dest + payload;
      blockOffset := blockOffset + HEADER + |payload|;
      assert Padding(old(blockOffset)) == [];
    }

    method AddRecord(slice: Bytes)
      requires blockOffset <= BLOCK
      modifies this
      ensures dest == old(dest) + RecordBytes(crc, old(blockOffset), slice, true)
      ensures blockOffset == RecordEnd(old(blockOffset), slice, true)
    {
      hide RecordBytes, RecordEnd, Piece, Fragments, Layout;
      var left := slice;
      var begin := true;
      var more := true;
      while more
        invariant blockOffset <= BLOCK
        invariant dest + (if more then RecordBytes(crc, blockOffset, left, begin) else [])
                  == old(dest) + RecordBytes(crc, old(blockOffset), slice, true)
        invariant RecordEnd(old(blockOffset), slice, true)
                  == if more then RecordEnd(blockOffset, left, begin) else blockOffset
        decreases more, |left|, BLOCK - Start(blockOffset) == HEADER
      {
        ghost var offset, before := blockOffset, dest;
        RecordUnfolds(crc, blockOffset, left, begin);
        var leftover := BLOCK - blockOffset;
        if leftover < HEADER {
          dest := dest + seq(leftover, i => 0);
          blockOffset := 0;
        }
        assert dest == before + Padding(offset) && blockOffset == Start(offset);
        hide Padding;
        var avail := BLOCK - blockOffset - HEADER;
        var n := if |left| < avail then |left| else avail;
        var end := n == |left|;
        var kind := if begin && end then FULL else if begin then FIRST else if end then LAST else MIDDLE;
        ghost var f := Fragment(kind, left[..n]);
        PieceSplits(crc, offset, f);
        Associates(before, Padding(offset), Piece(crc, blockOffset, f));
        EmitPhysicalRecord(kind, left[..n]);
        assert dest == before + Piece(crc, offset, f);
        Associates(before, Piece(crc, offset, f), if end then [] else RecordBytes(crc, blockOffset, left[n..], false));
        left := left[n..];
        begin := false;
        more := |left| > 0;
      }
    }
  }

  lemma {:induction false} Associates(a: Bytes, b: Bytes, c: Bytes)
    ensures a + b + c == a + (b + c)
  {
  }

  lemma {:induction false} PieceSplits(crc: Crc, offset: nat, f: Fragment)
    requires Fit(offset, [f])
    ensures Fit(Start(offset), [f])
    ensures Piece(crc, offset, f) == Padding(offset) + Piece(crc, Start(offset), f)
  {
    assert Padding(Start(offset)) == [];
  }

  /** The bytes of `records` written from a block offset on. */
  function LogBytes(crc: Crc, offset: nat, records: seq<Bytes>): Bytes
    requires offset <= BLOCK
  {
    Layout(crc, offset, RecordFragments(offset, records))
  }

  lemma {:induction false} LogUnfolds(crc: Crc, offset: nat, records: seq<Bytes>)
    requires offset <= BLOCK && records != []
    ensures LogBytes(crc, offset, records)
            == RecordBytes(crc, offset, records[0], true) + LogBytes(crc, RecordEnd(offset, records[0], true), records[1..])
  {
    var head := Fragments(offset, records[0], true);
    LayoutAppend(crc, offset, head, RecordFragments(After(offset, head), records[1..]));
  }

  lemma {:induction false} LogEmpty(crc: Crc, offset: nat, records: seq<Bytes>)
    requires offset <= BLOCK && records == []
    ensures LogBytes(crc, offset, records) == []
  {
    assert RecordFragments(offset, records) == [];
  }

  /** Writes a log from the start of a file. */
  method WriteLog(crc: Crc, records: seq<Bytes>) returns (file: Bytes)
    ensures file == LogBytes(crc, 0, records)
  {
    hide RecordBytes, RecordEnd, LogBytes;
    var writer := new Writer(crc, []);
    var i := 0;
    assert records[0..] == records;
    while i < |records|
      invariant i <= |records| && writer.blockOffset <= BLOCK && writer.crc == crc
      invariant writer.dest + LogBytes(crc, writer.blockOffset, records[i..]) == LogBytes(crc, 0, records)
    {
      ghost var before, offset := writer.dest, writer.blockOffset;
      LogUnfolds(crc, offset, records[i..]);
      writer.AddRecord(records[i]);
      assert records[i..][1..] == records[i + 1..];
      i := i + 1;
      Associates(before, RecordBytes(crc, offset, records[i - 1], true), LogBytes(crc, writer.blockOffset,
        records[i..]));
    }
    LogEmpty(crc, writer.blockOffset, records[i..]);
    file := writer.dest;
  }

  // ----- the reader --------------------------------------------------------

  /** From position `p` on, `file` agrees with `stream` until it breaks off. */
  ghost predicate Follows(file: Bytes, p: nat, stream: Bytes) {
    p <= |file| <= p + |stream| && forall i :: 0 <= i < |file| - p ==> file[p + i] == stream[i]
  }

  lemma {:induction false} FollowsPrefix(file: Bytes, stream: Bytes)
    requires file <= stream
    ensures Follows(file, 0, stream)
  {
  }

  /** Passing over a part of the stream that lies whole in the file. */
  lemma {:induction false} FollowsOn(file: Bytes, p: nat, part: Bytes, more: Bytes)
    requires Follows(file, p, part + more) && p + |part| <= |file|
    ensures file[p..p + |part|] == part
    ensures Follows(file, p + |part|, more)
  {
    forall i | 0 <= i < |file| - p - |part| ensures file[p + |part| + i] == more[i] {
      assert file[p + (|part| + i)] == (part + more)[|part| + i];
    }
    forall i | 0 <= i < |part| ensures file[p + i] == part[i] {
      assert file[p + i] == (part + more)[i];
    }
  }

  lemma {:induction false} FollowsEnds(file: Bytes, p: nat)
    requires Follows(file, p, [])
    ensures p == |file|
  {
  }

  lemma {:induction false} SliceSlice(s: Bytes, i: nat, j: nat, a: nat, b: nat)
    requires i <= j <= |s| && a <= b <= j - i
    ensures s[i..j][a..b] == s[i + a..i + b]
  {
    var l, r := s[i..j][a..b], s[i + a..i + b];
    assert |l| == |r| && forall k :: 0 <= k < |l| ==> l[k] == r[k];
  }

  lemma {:induction false} HeaderShows(crc: Crc, f: Fragment)
    requires |f.payload| < 0x1_0000
    ensures var head := Header(crc, f);
            && head[4] as int + 256 * head[5] as int == |f.payload| && head[6] == f.kind
            && Unmask(DecodeFixed32(head[..4])) == crc([f.kind] + f.payload)
  {
    var sum := Mask(crc([f.kind] + f.payload));
    assert Header(crc, f)[..4] == EncodeFixed32(sum);
    UnmaskMask(crc([f.kind] + f.payload));
  }

  /** The bytes a reader resting before fragment `f` (if any) is to find. */
  function Stream(crc: Crc, offset: nat, f: Option<Fragment>, more: Bytes): Bytes
    requires f.Some? ==> Fit(offset, [f.value])
  {
    if f.None? then [] else Piece(crc, offset, f.value) + more
  }

  /** The stream behind a trailer too short for a header. */
  lemma {:induction false} SkipTrailer(crc: Crc, offset: nat, f: Option<Fragment>, more: Bytes, file: Bytes, p: nat)
    requires offset <= BLOCK && offset + HEADER > BLOCK && (f.Some? ==> Fit(offset, [f.value]))
    requires Follows(file, p, Stream(crc, offset, f, more)) && p + BLOCK - offset <= |file|
    ensures f.Some? ==> Fit(0, [f.value])
    ensures Follows(file, p + BLOCK - offset, Stream(crc, 0, f, more))
  {
    hide Follows;
    if f.Some? {
      PieceSplits(crc, offset, f.value);
      Associates(Padding(offset), Piece(crc, 0, f.value), more);
      FollowsOn(file, p, Padding(offset), Stream(crc, 0, f, more));
    } else {
      FollowsEnds(file, p);
    }
  }

  /** What the file shows where a fragment starts. */
  lemma {:induction false} ParseHeader(crc: Crc, offset: nat, f: Option<Fragment>, more: Bytes, file: Bytes, p: nat)
    requires offset + HEADER <= BLOCK && (f.Some? ==> Fit(offset, [f.value]))
    requires p + HEADER <= |file| && Follows(file, p, Stream(crc, offset, f, more))
    ensures f.Some? && PieceSize(offset, f.value) == HEADER + |f.value.payload|
    ensures var len := |f.value.payload|;
            && file[p + 4] as int + file[p + 5] as int * 256 == len && file[p + 6] == f.value.kind
            && offset + HEADER + len <= BLOCK && FULL <= f.value.kind <= LAST
            && (p + HEADER + len <= |file| ==>
                  && file[p + HEADER..p + HEADER + len] == f.value.payload
                  && Unmask(DecodeFixed32(file[p..p + 4])) == crc(file[p + 6..p + HEADER + len])
                  && Follows(file, p + HEADER + len, more))
  {
    hide Follows, Mask, Unmask, DecodeFixed32;
    if f.None? {
      FollowsEnds(file, p);
    }
    var head, payload := Header(crc, f.value), f.value.payload;
    HeaderShows(crc, f.value);
    assert Stream(crc, offset, f, more) == head + (payload + more);
    hide Header, Stream;
    FollowsOn(file, p, head, payload + more);
    HeaderBytes(file, p, head);
    if p + HEADER + |payload| <= |file| {
      FollowsOn(file, p + HEADER, payload, more);
      KindAndPayload(file, p, |payload|);
    }
  }

  /** The bytes of a header in the file. */
  lemma {:induction false} HeaderBytes(file: Bytes, p: nat, head: Bytes)
    requires p + HEADER <= |file| && |head| == HEADER && file[p..p + HEADER] == head
    ensures file[p + 4] == head[4] && file[p + 5] == head[5] && file[p + 6] == head[6] && file[p..p + 4] == head[..4]
  {
    var shown := file[p..p + HEADER];
    assert shown[4] == file[p + 4] && shown[5] == file[p + 5] && shown[6] == file[p + 6];
    SliceSlice(file, p, p + HEADER, 0, 4);
  }

  lemma {:induction false} KindAndPayload(file: Bytes, p: nat, n: nat)
    requires p + HEADER + n <= |file|
    ensures file[p + 6..p + HEADER + n] == [file[p + 6]] + file[p + HEADER..p + HEADER + n]
  {
  }

  /** The reader has got from `all` to `ahead` with `partial` in hand, and its reports from `from` to `reports`. */
  ghost predicate Reads(all: seq<LogScan.Event>, ahead: seq<LogScan.Event>, partial: Option<Bytes>, from: nat,
                        reports: nat) {
    && from <= reports
    && var q := LogScan.NextRecord(ahead, partial);
    LogScan.NextRecord(all, None) == q.(reports := reports - from + q.reports)
  }

  lemma {:induction false} StartsToRead(all: seq<LogScan.Event>, reports: nat)
    ensures Reads(all, all, None, reports, reports)
  {
  }

  /** Of the events ahead the first was read; at the end there is none. */
  ghost predicate TookFirst(events: seq<LogScan.Event>, reports0: nat, kind: Byte, payload: Bytes,
                            ahead: seq<LogScan.Event>, reports: nat) {
    if events == [] then kind == 5 && ahead == [] && reports == reports0
    else
      && ahead == events[1..]
      && match events[0]
         case Whole(k, p) => kind == k && payload == p && reports == reports0
         case Bad(reported) => kind == 6 && reports == if reported then reports0 + 1 else reports0
  }

  /** What reading a fragment does to the reading of a record, by the fragment's type. */
  lemma {:induction false} EventRead(all: seq<LogScan.Event>, was: seq<LogScan.Event>, partial: Option<Bytes>,
                                     from: nat, reports0: nat,
                                     kind: Byte, payload: Bytes, ahead: seq<LogScan.Event>, reports: nat)
    requires Reads(all, was, partial, from, reports0) && TookFirst(was, reports0, kind, payload, ahead, reports)
    ensures var lost, cut := if partial.Some? then 1 else 0, if partial.Some? && partial.value != [] then 1 else 0;
            if kind == 1 then LogScan.NextRecord(all, None) == LogScan.Read(Some(payload), ahead, reports + cut - from)
            else if kind == 2 then Reads(all, ahead, Some(payload), from, reports + cut)
            else if kind == 3 then
              if partial.None? then Reads(all, ahead, None, from, reports + 1)
              else Reads(all, ahead, Some(partial.value + payload), from, reports)
            else if kind == 4 then
              if partial.None? then Reads(all, ahead, None, from, reports + 1)
              else LogScan.NextRecord(all, None) == LogScan.Read(Some(partial.value + payload), ahead, reports - from)
            else if kind == 5 then LogScan.NextRecord(all, None) == LogScan.Read(None, ahead, reports - from)
            else if kind == 6 then Reads(all, ahead, None, from, reports + lost)
            else Reads(all, ahead, None, from, reports + 1)
  {
  }

  lemma {:induction false} EmptyBlock(crc: Crc)
    ensures LogScan.InBlock(crc, [], false) == [] == LogScan.InBlock(crc, [], true)
  {
  }

  /** What a reader that takes up a file at `pos` has ahead, before and after it fills its buffer. */
  lemma {:induction false} NextBlock(crc: Crc, file: Bytes, pos: nat, n: nat)
    requires pos <= |file| && n == if |file| - pos < BLOCK then |file| - pos else BLOCK
    ensures LogScan.InBlock(crc, [], false) + LogScan.InFile(crc, file[pos..])
            == if n < BLOCK then LogScan.InBlock(crc, file[pos..pos + n], true)
               else LogScan.InBlock(crc, file[pos..pos + n], false) + LogScan.InFile(crc, file[pos + n..])
  {
    var s := file[pos..];
    assert LogScan.InBlock(crc, [], false) == [];
    hide LogScan.InBlock;
    assert s[..n] == file[pos..pos + n] && s[n..] == file[pos + n..];
    assert n < BLOCK ==> s == file[pos..pos + n];
  }

  class Reader {
    const crc: Crc
    const file: Bytes
    var filePos: nat
    var buffer: Bytes
    var eof: bool
    /** Corruption reports so far. */
    var reports: nat

    constructor (crc: Crc, file: Bytes)
      ensures this.crc == crc && this.file == file && reports == 0
      ensures Sane() && Pos() == 0 && AtOffset(BLOCK) && Ahead() == LogScan.InFile(crc, file)
    {
      hide LogScan.InFile, LogScan.InBlock;
      EmptyBlock(crc);
      assert file[0..] == file;
      this.crc, this.file, filePos, buffer, eof, reports := crc, file, 0, [], false, 0;
    }

    /** What is still to be read. */
    ghost function Ahead(): seq<LogScan.Event>
      requires Sane()
      reads `filePos, `buffer, `eof
    {
      if eof then LogScan.InBlock(crc, buffer, true)
      else LogScan.InBlock(crc, buffer, false) + LogScan.InFile(crc, file[filePos..])
    }

    /** The position of the first byte not consumed yet. */
    function Pos(): int
      reads `filePos, `buffer
    {
      filePos - |buffer|
    }

    /** The buffer holds the file from the current position to where the file was read. */
    predicate Sane()
      reads `filePos, `buffer, `eof
    {
      && 0 <= Pos() <= filePos <= |file| && buffer == file[Pos()..filePos]
      && (eof ==> filePos == |file|)
    }

    /** The current position is `offset` bytes into its block. */
    predicate AtOffset(offset: nat)
      reads `buffer, `eof
    {
      offset <= BLOCK && |buffer| <= BLOCK - offset && (!eof ==> |buffer| == BLOCK - offset)
    }

    /** The next block of the file, or what is left of it. */
    method ReadBlock()
      requires Sane() && !eof && buffer == []
      modifies this
      ensures Sane() && reports == old(reports) && Pos() == old(Pos())
      ensures AtOffset(0)
      ensures !eof ==> filePos == old(filePos) + BLOCK
      ensures Ahead() == old(Ahead())
    {
      hide LogScan.InBlock, LogScan.InFile;
      var n := if |file| - filePos < BLOCK then |file| - filePos else BLOCK;
      buffer := file[filePos..filePos + n];
      NextBlock(crc, file, filePos, n);
      filePos := filePos + n;
      eof := n < BLOCK;
    }

    lemma {:induction false} TrailerIsNothing()
      requires Sane() && |buffer| < HEADER
      ensures LogScan.InBlock(crc, buffer, eof) == [] && LogScan.InBlock(crc, [], eof) == []
    {
    }

    method NextBuffer()
      requires Sane() && !eof && |buffer| < HEADER
      modifies this
      ensures Sane() && reports == old(reports) && Pos() == old(filePos) && AtOffset(0)
      ensures filePos >= old(filePos) && (!eof ==> filePos == old(filePos) + BLOCK)
      ensures Ahead() == old(Ahead())
    {
      hide LogScan.InBlock, LogScan.InFile;
      TrailerIsNothing();
      buffer := [];
      ReadBlock();
    }

    method DropTail()
      requires Sane() && eof && |buffer| < HEADER
      modifies this
      ensures Sane() && reports == old(reports) && Pos() == filePos == old(filePos) && Ahead() == old(Ahead()) == []
    {
      hide LogScan.InBlock, LogScan.InFile;
      TrailerIsNothing();
      buffer := [];
    }

    /** Drops a trailer too short for a header and reads on; `ended` when the file ends before the next header. */
    method Refill(ghost tracked: bool, ghost offset: nat, ghost f: Option<Fragment>, ghost more: Bytes)
      returns (ended: bool, ghost at: nat)
      requires Sane()
      requires tracked ==> Before(offset, f, more)
      modifies this
      ensures Sane() && reports == old(reports)
      ensures old(Pos()) <= Pos()
      ensures !ended ==> |buffer| >= HEADER
      ensures Ahead() == old(Ahead()) && (ended ==> Ahead() == [])
      ensures tracked && ended && f.Some? ==> |file| < old(Pos()) + PieceSize(offset, f.value)
      ensures tracked && !ended ==>
                Before(at, f, more) && at == Start(offset) && Pos() == old(Pos()) + |Padding(offset)|
    {
      hide Stream, Fit, Follows, Ahead;
      at := offset;
      while |buffer| < HEADER
        invariant Sane() && reports == old(reports) && old(Pos()) <= Pos() && Ahead() == old(Ahead())
        invariant tracked ==> Before(at, f, more)
        invariant tracked ==> if at == offset then Pos() == old(Pos()) || offset == 0
                              else at == 0 == Start(offset)
        invariant tracked ==> Pos() == old(Pos()) + if at == offset then 0 else |Padding(offset)|
        decreases |file| - filePos, !eof
      {
        if eof {
          DropTail();
          ended := true;
          return;
        }
        if tracked {
          SkipTrailer(crc, at, f, more, file, Pos());
        }
        NextBuffer();
        if tracked {
          at := 0;
        }
      }
      ended := false;
    }

    /** Resting before fragment `f`, if any, and `more`. */
    ghost predicate Before(offset: nat, f: Option<Fragment>, more: Bytes)
      reads `filePos, `buffer, `eof
    {
      && AtOffset(offset) && 0 <= Pos() && (f.Some? ==> Fit(offset, [f.value]))
      && Follows(file, Pos(), Stream(crc, offset, f, more))
    }

    /** What the header at the front of the buffer makes of the block. */
    lemma {:induction false} AheadIs()
      requires Sane() && |buffer| >= HEADER
      ensures var end := HEADER + buffer[4] as int + buffer[5] as int * 256;
              Ahead() == if end > |buffer| then if eof then [] else [LogScan.Bad(true)] + LogScan.InFile(crc, file[filePos..])
                         else if buffer[6] == 0 && end == HEADER then [LogScan.Bad(false)] + Rest()
                         else if Unmask(DecodeFixed32(buffer[..4])) != crc(buffer[6..end]) then [LogScan.Bad(true)] + Rest()
                         else [LogScan.Whole(buffer[6], buffer[HEADER..end])]
                              + (LogScan.InBlock(crc, buffer[end..], eof) + Rest())
      ensures LogScan.InBlock(crc, [], eof) == []
    {
      hide Unmask, DecodeFixed32;
    }

    /** The events behind the buffer. */
    ghost function Rest(): seq<LogScan.Event>
      requires Sane()
      reads `filePos, `buffer, `eof
    {
      if eof then [] else LogScan.InFile(crc, file[filePos..])
    }

    /** Takes `length` payload bytes after a header. */
    method TakePayload(length: nat) returns (payload: Bytes)
      requires Sane() && HEADER + length <= |buffer|
      modifies `buffer
      ensures Sane() && Pos() == old(Pos()) + HEADER + length
      ensures payload == file[old(Pos()) + HEADER..Pos()] && |buffer| == old(|buffer|) - HEADER - length
    {
      ghost var p := Pos();
      SliceSlice(file, p, filePos, HEADER, HEADER + length);
      SliceSlice(file, p, filePos, HEADER + length, filePos - p);
      payload := buffer[HEADER..HEADER + length];
      buffer := buffer[HEADER + length..];
    }

    /** The part of ReadPhysicalRecord that follows the refill. */
    method ParsePhysicalRecord() returns (kind: Byte, payload: Bytes)
      requires Sane() && |buffer| >= HEADER
      modifies this
      ensures Sane() && old(Pos()) < Pos() && TookFirst(old(Ahead()), old(reports), kind, payload, Ahead(), reports)
      ensures var p, b := old(Pos()), old(buffer);
              var end := HEADER + b[4] as int + b[5] as int * 256;
              && (end > |b| && old(eof) ==> kind == END_OF_FILE && reports == old(reports))
              && (end <= |b| && b[6] != 0 && Unmask(DecodeFixed32(file[p..p + 4])) == crc(file[p + 6..p + end]) ==>
                    && kind == b[6] && payload == file[p + HEADER..p + end] && reports == old(reports)
                    && Pos() == p + end && |buffer| == |b| - end && eof == old(eof))
    {
      hide Mask, Unmask, DecodeFixed32, LogScan.InBlock, LogScan.InFile;
      ghost var p := Pos();
      AheadIs();
      var length := buffer[4] as int + buffer[5] as int * 256;
      kind := buffer[6];
      payload := [];
      if HEADER + length > |buffer| {
        buffer := [];
        if !eof {
          reports := reports + 1;
          return BAD_RECORD, [];
        }
        return END_OF_FILE, [];
      }
      SliceSlice(file, p, filePos, 0, 4);
      SliceSlice(file, p, filePos, 6, HEADER + length);
      SliceSlice(file, p, filePos, HEADER, HEADER + length);
      if kind == 0 && length == 0 {
        buffer := [];
        return BAD_RECORD, [];
      }
      if Unmask(DecodeFixed32(buffer[..4])) != crc(buffer[6..HEADER + length]) {
        buffer := [];
        reports := reports + 1;
        return BAD_RECORD, [];
      }
      payload := TakePayload(length);
    }

    /** Before a fragment of a log that is followed, the fragment comes, or the end of the file. */
    method ParseFragment(ghost tracked: bool, ghost offset: nat, ghost f: Option<Fragment>, ghost more: Bytes)
      returns (kind: Byte, payload: Bytes)
      requires Sane() && |buffer| >= HEADER
      requires tracked ==> Before(offset, f, more)
      modifies this
      ensures Sane() && old(Pos()) < Pos() && TookFirst(old(Ahead()), old(reports), kind, payload, Ahead(), reports)
      ensures tracked ==>
                && f.Some? && PieceSize(offset, f.value) == HEADER + |f.value.payload| && reports == old(reports)
                && if old(Pos()) + PieceSize(offset, f.value) <= |file| then
                     && kind == f.value.kind && payload == f.value.payload
                     && Pos() == old(Pos()) + PieceSize(offset, f.value)
                     && AtOffset(offset + HEADER + |payload|) && Follows(file, Pos(), more)
                   else kind == END_OF_FILE
    {
      hide Stream, Fit, Mask, Unmask, DecodeFixed32, Follows, Padding, Ahead, TookFirst;
      if tracked {
        ParseHeader(crc, offset, f, more, file, Pos());
      }
      kind, payload := ParsePhysicalRecord();
    }

    method ReadPhysicalRecord(ghost tracked: bool, ghost offset: nat, ghost f: Option<Fragment>, ghost more: Bytes)
      returns (kind: Byte, payload: Bytes)
      requires Sane()
      requires tracked ==> Before(offset, f, more)
      modifies this
      ensures Sane() && old(Pos()) <= Pos() && TookFirst(old(Ahead()), old(reports), kind, payload, Ahead(), reports)
      ensures kind != END_OF_FILE ==> old(Pos()) < Pos()
      ensures tracked ==>
                && reports == old(reports)
                && if f.Some? && old(Pos()) + PieceSize(offset, f.value) <= |file| then
                     && kind == f.value.kind && payload == f.value.payload
                     && Pos() == old(Pos()) + PieceSize(offset, f.value)
                     && AtOffset(Start(offset) + HEADER + |payload|) && Follows(file, Pos(), more)
                   else kind == END_OF_FILE
    {
      hide Stream, Fit, Follows, Before, Padding, Ahead;
      var ended;
      ghost var at;
      ended, at := Refill(tracked, offset, f, more);
      if ended {
        return END_OF_FILE, [];
      }
      kind, payload := ParseFragment(tracked, at, f, more);
    }

    /** Part way through `record`: `scratch` is read, `left` is to come in `size` bytes, `after` follows. */
    ghost predicate Reading(at: nat, record: Bytes, scratch: Bytes, left: Bytes, begin: bool, after: Bytes, end: nat,
                            size: int)
      reads `filePos, `buffer, `eof
    {
      && AtOffset(at) && 0 <= Pos() && scratch + left == record && (begin ==> scratch == [])
      && Follows(file, Pos(), RecordBytes(crc, at, left, begin) + after)
      && RecordEnd(at, left, begin) == end && |RecordBytes(crc, at, left, begin)| == size
    }

    lemma {:induction false} StartReading(offset: nat, records: seq<Bytes>)
      requires AtOffset(offset) && 0 <= Pos() && Follows(file, Pos(), LogBytes(crc, offset, records))
      ensures records == [] ==> Before(offset, None, [])
      ensures records != [] ==>
                var end := RecordEnd(offset, records[0], true);
                Reading(offset, records[0], [], records[0], true, LogBytes(crc, end, records[1..]), end,
                        |RecordBytes(crc, offset, records[0], true)|)
    {
      hide Follows, RecordEnd, RecordBytes, LogBytes;
      if records == [] {
        LogEmpty(crc, offset, records);
      } else {
        LogUnfolds(crc, offset, records);
      }
    }

    /** The fragment a reader part way through a record comes to next. */
    lemma {:induction false} NextFragment(at: nat, record: Bytes, scratch: Bytes, left: Bytes, begin: bool,
                                          after: Bytes, end: nat, size: int)
      returns (f: Option<Fragment>, more: Bytes)
      requires Reading(at, record, scratch, left, begin, after, end, size)
      ensures at <= BLOCK && f.Some? && Before(at, f, more) && scratch + left == record && (begin ==> scratch == [])
      ensures var n := Cut(at, left);
              var next := Start(at) + HEADER + n;
              && f.value == Fragment(Kind(begin, n == |left|), left[..n]) && PieceSize(at, f.value) <= size
              && (n == |left| ==> more == after && PieceSize(at, f.value) == size && next == end)
              && (n < |left| ==> && more == RecordBytes(crc, next, left[n..], false) + after && next <= BLOCK
                                 && RecordEnd(next, left[n..], false) == end
                                 && |RecordBytes(crc, next, left[n..], false)| == size - PieceSize(at, f.value))
    {
      hide Follows, RecordBytes, RecordEnd, Fit, Fragments, Layout;
      RecordUnfolds(crc, at, left, begin);
      var n := Cut(at, left);
      var next := Start(at) + HEADER + n;
      f := Some(Fragment(Kind(begin, n == |left|), left[..n]));
      var tail := if n == |left| then [] else RecordBytes(crc, next, left[n..], false);
      more := tail + after;
      Associates(Piece(crc, at, f.value), tail, after);
    }

    /** The next fragment of the record being read, with `size` the bytes it took. */
    method ReadFragment(ghost tracked: bool, ghost some: bool, ghost at: nat, ghost record: Bytes, ghost scratch: Bytes,
                        ghost left: Bytes, ghost begin: bool, ghost after: Bytes, ghost end: nat, ghost remaining: int)
      returns (kind: Byte, fragment: Bytes, ghost size: nat)
      requires Sane() && (some ==> tracked)
      requires some ==> Reading(at, record, scratch, left, begin, after, end, remaining)
      requires tracked && !some ==> Before(at, None, [])
      modifies this
      ensures Sane() && old(Pos()) <= Pos() && TookFirst(old(Ahead()), old(reports), kind, fragment, Ahead(), reports)
      ensures kind != END_OF_FILE ==> old(Pos()) < Pos()
      ensures tracked ==> reports == old(reports)
      ensures tracked && !some ==> kind == END_OF_FILE
      ensures some && kind == END_OF_FILE ==> |file| < old(Pos()) + remaining
      ensures some && kind != END_OF_FILE ==>
                var n := Cut(at, left);
                && kind == Kind(begin, n == |left|) && fragment == left[..n]
                && Pos() == old(Pos()) + size
                && (begin ==> scratch + fragment == fragment) && (n == |left| ==> record == scratch + fragment)
                && (if n == |left| then remaining == size && AtOffset(end) && Follows(file, Pos(), after)
                    else Reading(Start(at) + HEADER + n, record, scratch + fragment, left[n..], false, after, end, remaining - size))
    {
      hide Before, Follows, Fit, RecordBytes, RecordEnd, Padding, Ahead, TookFirst, Reading, Cut;
      ghost var f, more: Bytes := None, [];
      if some {
        f, more := NextFragment(at, record, scratch, left, begin, after, end, remaining);
      }
      kind, fragment := ReadPhysicalRecord(tracked, at, f, more);
      size := if some then PieceSize(at, f.value) else 0;
      if some && kind != END_OF_FILE {
        FragmentTaken(at, record, scratch, left, begin, after, end, remaining, f.value, more);
      }
    }

    /** How the reading of a record stands after its next fragment. */
    lemma {:induction false} FragmentTaken(at: nat, record: Bytes, scratch: Bytes, left: Bytes, begin: bool,
                                           after: Bytes, end: nat,
                                           remaining: int, f: Fragment, more: Bytes)
      requires Sane() && at <= BLOCK && scratch + left == record && (begin ==> scratch == [])
      requires var n := Cut(at, left);
               var next := Start(at) + HEADER + n;
               && f == Fragment(Kind(begin, n == |left|), left[..n])
               && AtOffset(next) && Follows(file, Pos(), more)
               && (n == |left| ==> more == after && PieceSize(at, f) == remaining && next == end)
               && (n < |left| ==> && more == RecordBytes(crc, next, left[n..], false) + after && next <= BLOCK
                                  && RecordEnd(next, left[n..], false) == end
                                  && |RecordBytes(crc, next, left[n..], false)| == remaining - PieceSize(at, f))
      ensures var n, fragment, size := Cut(at, left), f.payload, PieceSize(at, f);
              && f.kind == Kind(begin, n == |left|) && fragment == left[..n]
              && (begin ==> scratch + fragment == fragment) && (n == |left| ==> record == scratch + fragment)
              && (if n == |left| then remaining == size && AtOffset(end) && Follows(file, Pos(), after)
                  else Reading(Start(at) + HEADER + n, record, scratch + fragment, left[n..], false, after, end, remaining - size))
    {
      hide Follows, RecordBytes, RecordEnd, Padding, Sane;
      var n := Cut(at, left);
      Associates(scratch, left[..n], left[n..]);
      assert left[..n] + left[n..] == left;
    }

    /** The next record; none at the end of the file or where its last record breaks off. */
    method ReadRecord(ghost tracked: bool, ghost offset: nat, ghost records: seq<Bytes>)
      returns (ok: bool, record: Bytes)
      requires Sane() && offset <= BLOCK
      requires tracked ==> AtOffset(offset) && Follows(file, Pos(), LogBytes(crc, offset, records))
      modifies this
      ensures Sane()
      ensures ok ==> old(Pos()) < Pos()
      ensures var r := LogScan.NextRecord(old(Ahead()), None);
              && r.record == (if ok then Some(record) else None) && r.rest == Ahead() && reports == old(reports) + r.reports
      ensures tracked ==>
                && reports == old(reports)
                && if records != [] && old(Pos()) + |RecordBytes(crc, offset, records[0], true)| <= |file| then
                     var end := RecordEnd(offset, records[0], true);
                     && ok && record == records[0] && AtOffset(end)
                     && Follows(file, Pos(), LogBytes(crc, end, records[1..]))
                     && Pos() == old(Pos()) + |RecordBytes(crc, offset, records[0], true)|
                   else !ok
    {
      hide RecordBytes, RecordEnd, LogBytes, Follows, Before, Reading, Ahead, LogScan.NextRecord, Reads, Cut, Start,
        Fit;
      StartsToRead(Ahead(), reports);
      ghost var some := tracked && records != [];
      ghost var at: nat, left: Bytes := offset, if records != [] then records[0] else [];
      ghost var after: Bytes, end: nat, total: nat := [], 0, 0;
      if records != [] {
        end := RecordEnd(offset, records[0], true);
        after := LogBytes(crc, end, records[1..]);
        total := |RecordBytes(crc, offset, records[0], true)|;
      }
      if tracked {
        StartReading(offset, records);
      }
      var scratch := [];
      var inFragmentedRecord := false;
      record := [];
      while true
        invariant Sane() && old(Pos()) <= Pos()
        invariant Reads(old(Ahead()), Ahead(), if inFragmentedRecord then Some(scratch) else None, old(reports), reports)
        invariant !inFragmentedRecord ==> scratch == []
        invariant tracked ==> reports == old(reports)
        invariant tracked && !some ==> Before(offset, None, [])
        invariant some ==> Reading(at, records[0], scratch, left, !inFragmentedRecord, after, end, total - (Pos() - old(Pos())))
        decreases |file| - Pos()
      {
        var kind, fragment;
        ghost var size, was, reports0 := 0, Ahead(), reports;
        kind, fragment, size := ReadFragment(tracked, some, if some then at else offset, if some then records[0] else [],
                                             scratch, left, !inFragmentedRecord, after, end, total - (Pos() - old(Pos())));
        EventRead(old(Ahead()), was, if inFragmentedRecord then Some(scratch) else None, old(reports), reports0, kind,
          fragment, Ahead(), reports);
        if some && kind != END_OF_FILE {
          at := Start(at) + HEADER + |fragment|;
          left := left[|fragment|..];
        }
        if kind == FULL {
          if inFragmentedRecord && |scratch| > 0 {
            reports := reports + 1;
          }
          return true, fragment;
        } else if kind == FIRST {
          if inFragmentedRecord && |scratch| > 0 {
            reports := reports + 1;
          }
          scratch := fragment;
          inFragmentedRecord := true;
        } else if kind == MIDDLE {
          if !inFragmentedRecord {
            reports := reports + 1;
          } else {
            scratch := scratch + fragment;
          }
        } else if kind == LAST {
          if !inFragmentedRecord {
            reports := reports + 1;
          } else {
            scratch := scratch + fragment;
            return true, scratch;
          }
        } else if kind == END_OF_FILE {
          return false, [];
        } else if kind == BAD_RECORD {
          if inFragmentedRecord {
            reports := reports + 1;
            inFragmentedRecord := false;
            scratch := [];
          }
        } else {
          reports := reports + 1;
          inFragmentedRecord := false;
          scratch := [];
        }
      }
    }
  }

  // ----- whole logs --------------------------------------------------------

  function LogEnd(offset: nat, records: seq<Bytes>): (r: nat)
    requires offset <= BLOCK
    ensures r <= BLOCK
  {
    After(offset, RecordFragments(offset, records))
  }

  lemma {:induction false} LogAppend(crc: Crc, offset: nat, records: seq<Bytes>, more: seq<Bytes>)
    requires offset <= BLOCK
    ensures LogBytes(crc, offset, records + more) == LogBytes(crc, offset, records) + LogBytes(crc, LogEnd(offset, records), more)
    ensures LogEnd(offset, records + more) == LogEnd(LogEnd(offset, records), more)
    decreases |records|
  {
    if records == [] {
      LogEmpty(crc, offset, records);
      assert records + more == more;
    } else {
      hide LogBytes, LogEnd, RecordBytes, RecordEnd;
      var next := RecordEnd(offset, records[0], true);
      LogAppend(crc, next, records[1..], more);
      assert (records + more)[0] == records[0] && (records + more)[1..] == records[1..] + more;
      LogUnfolds(crc, offset, records);
      LogUnfolds(crc, offset, records + more);
      EndUnfolds(offset, records);
      EndUnfolds(offset, records + more);
      Associates(RecordBytes(crc, offset, records[0], true), LogBytes(crc, next, records[1..]),
                 LogBytes(crc, LogEnd(next, records[1..]), more));
    }
  }

  lemma {:induction false} EndUnfolds(offset: nat, records: seq<Bytes>)
    requires offset <= BLOCK && records != []
    ensures LogEnd(offset, records) == LogEnd(RecordEnd(offset, records[0], true), records[1..])
  {
    var head := Fragments(offset, records[0], true);
    LayoutAppend(_ => 0, offset, head, RecordFragments(After(offset, head), records[1..]));
  }

  /** A full block and a fresh one are continued alike. */
  lemma {:induction false} FreshBlock(crc: Crc, records: seq<Bytes>)
    ensures LogBytes(crc, BLOCK, records) == LogBytes(crc, 0, records)
    ensures records != [] ==> LogEnd(BLOCK, records) == LogEnd(0, records)
  {
    if records == [] {
      LogEmpty(crc, BLOCK, records);
      LogEmpty(crc, 0, records);
    } else {
      FreshRecord(crc, records[0]);
      LogUnfolds(crc, BLOCK, records);
      LogUnfolds(crc, 0, records);
      EndUnfolds(0, records);
      EndUnfolds(BLOCK, records);
    }
  }

  lemma {:induction false} FreshRecord(crc: Crc, data: Bytes)
    ensures RecordBytes(crc, BLOCK, data, true) == RecordBytes(crc, 0, data, true)
    ensures RecordEnd(BLOCK, data, true) == RecordEnd(0, data, true)
  {
    assert Padding(BLOCK) == Padding(0) && Start(BLOCK) == Start(0) && Cut(BLOCK, data) == Cut(0, data);
    hide Padding, Header, Start, Cut, Fragments, RecordBytes, RecordEnd;
    RecordUnfolds(crc, BLOCK, data, true);
    RecordUnfolds(crc, 0, data, true);
  }

  /** The length of a file tells its block offset; `q` is the number of blocks it goes past. */
  lemma {:induction false} LengthIsOffset(crc: Crc, offset: nat, fs: seq<Fragment>) returns (q: nat)
    requires Fit(offset, fs)
    ensures offset + |Layout(crc, offset, fs)| == After(offset, fs) + q * BLOCK
    decreases |fs|
  {
    if fs == [] {
      q := 0;
    } else {
      hide Header;
      var next := Start(offset) + HEADER + |fs[0].payload|;
      q := LengthIsOffset(crc, next, fs[1..]);
      if |Padding(offset)| > 0 || offset == BLOCK {
        q := q + 1;
      }
    }
  }

  /** A writer that reopens a whole log by its length continues it as if it had never been closed. */
  lemma {:induction false} ReopenedLog(crc: Crc, records: seq<Bytes>, more: seq<Bytes>)
    ensures LogBytes(crc, 0, records + more)
            == LogBytes(crc, 0, records) + LogBytes(crc, |LogBytes(crc, 0, records)| % BLOCK, more)
  {
    var q := LengthIsOffset(crc, 0, RecordFragments(0, records));
    BlockRemainder(LogEnd(0, records), q);
    hide LogBytes, LogEnd;
    LogAppend(crc, 0, records, more);
    FreshBlock(crc, more);
  }

  lemma {:induction false} BlockRemainder(r: nat, q: nat)
    requires r <= BLOCK
    ensures (r + q * BLOCK) % BLOCK == if r == BLOCK then 0 else r
  {
  }

  /** Reads a log to its end. Of any bytes it gets what a scan block by block finds. Of a log that breaks off anywhere,
      exactly the records whose last fragment lies whole in the file come back, in order, and nothing is reported as
      corrupt. */
  method RecoverLog(crc: Crc, file: Bytes, ghost written: bool, ghost records: seq<Bytes>)
    returns (got: seq<Bytes>, reports: nat)
    requires written ==> file <= LogBytes(crc, 0, records)
    ensures (got, reports) == LogScan.Recovered(LogScan.InFile(crc, file))
    ensures written ==>
      && got <= records && reports == 0 && |LogBytes(crc, 0, got)| <= |file|
      && (|got| < |records| ==> |file| < |LogBytes(crc, 0, records[..|got| + 1])|)
  {
    hide LogBytes, LogEnd, RecordBytes, RecordEnd, Follows, LogScan.InFile, LogScan.Recovered, LogScan.NextRecord,
      Reader.Ahead,
      Reader.AtOffset, Reader.Pos;
    var reader := new Reader(crc, file);
    got := [];
    ghost var offset: nat := BLOCK;
    var more := true;
    if written {
      StartsTracked(crc, file, records);
    }
    ghost var all := LogScan.Recovered(LogScan.InFile(crc, file));
    assert [] + all.0 == all.0;
    while more
      invariant reader.Sane() && reader.crc == crc && reader.file == file && offset <= BLOCK
      invariant written ==> reader.reports == 0 && (more ==> reader.AtOffset(offset))
      invariant written ==> Tracks(crc, file, records, got, more, offset, reader.Pos())
      invariant if more then
                  all == (got + LogScan.Recovered(reader.Ahead()).0, reader.reports + LogScan.Recovered(reader.Ahead()).1)
                else (got, reader.reports) == all
      decreases more, |file| - reader.Pos()
    {
      ghost var k, pos, events := |got|, reader.Pos(), reader.Ahead();
      ghost var rest := if written then records[k..] else [];
      var record;
      more, record := reader.ReadRecord(written, offset, rest);
      RecoveredNext(events);
      if more {
        assert got + ([record] + LogScan.Recovered(reader.Ahead()).0) == got + [record] + LogScan.Recovered(reader.Ahead()).0;
      } else {
        assert got + [] == got;
      }
      if written {
        TracksNext(crc, file, records, got, offset, pos, more, record, reader.Pos());
      }
      if more {
        got := got + [record];
        offset := RecordEnd(offset, record, true);
      }
    }
    reports := reader.reports;
    if written {
      TrackedToEnd(crc, file, records, got, offset, reader.Pos());
    }
  }

  /** A reader of what begins like the log of `records` has `got`, and rests behind them at `pos`, unless it has come to
      the end. */
  ghost predicate Tracks(crc: Crc, file: Bytes, records: seq<Bytes>, got: seq<Bytes>, more: bool, offset: nat,
                         pos: int) {
    && got <= records && offset <= BLOCK && |LogBytes(crc, BLOCK, got)| <= |file|
    && (more ==> offset == LogEnd(BLOCK, got) && pos == |LogBytes(crc, BLOCK, got)|
                 && Follows(file, pos, LogBytes(crc, offset, records[|got|..])))
    && (!more && |got| < |records| ==> |file| < |LogBytes(crc, BLOCK, records[..|got| + 1])|)
  }

  lemma {:induction false} StartsTracked(crc: Crc, file: Bytes, records: seq<Bytes>)
    requires file <= LogBytes(crc, 0, records)
    ensures Tracks(crc, file, records, [], true, BLOCK, 0)
  {
    hide LogBytes, LogEnd, Follows;
    FreshBlock(crc, records);
    FollowsPrefix(file, LogBytes(crc, BLOCK, records));
    LogEmpty(crc, BLOCK, []);
    EndEmpty(BLOCK, []);
    assert records[0..] == records;
  }

  lemma {:induction false} TracksNext(crc: Crc, file: Bytes, records: seq<Bytes>, got: seq<Bytes>, offset: nat,
                                      pos: int,
                                      more: bool, record: Bytes, pos': int)
    requires pos >= 0 && Tracks(crc, file, records, got, true, offset, pos)
    requires var rest := records[|got|..];
             if rest != [] && pos + |RecordBytes(crc, offset, rest[0], true)| <= |file| then
               var end := RecordEnd(offset, rest[0], true);
               && more && record == rest[0] && pos' == pos + |RecordBytes(crc, offset, rest[0], true)|
               && pos' >= 0 && Follows(file, pos', LogBytes(crc, end, rest[1..]))
             else !more
    ensures if more then Tracks(crc, file, records, got + [record], true, RecordEnd(offset, record, true), pos')
            else Tracks(crc, file, records, got, false, offset, pos')
  {
    hide LogBytes, LogEnd, RecordBytes, RecordEnd, Follows;
    var k := |got|;
    if k < |records| {
      assert records[..k + 1] == got + [records[k]];
      LogSnoc(crc, BLOCK, got, records[k]);
      assert records[k..][1..] == records[k + 1..];
    }
  }

  lemma {:induction false} TrackedToEnd(crc: Crc, file: Bytes, records: seq<Bytes>, got: seq<Bytes>, offset: nat,
                                        pos: int)
    requires Tracks(crc, file, records, got, false, offset, pos)
    ensures got <= records && |LogBytes(crc, 0, got)| <= |file|
    ensures |got| < |records| ==> |file| < |LogBytes(crc, 0, records[..|got| + 1])|
  {
    hide LogBytes, LogEnd, Follows;
    FreshBlock(crc, got);
    if |got| < |records| {
      FreshBlock(crc, records[..|got| + 1]);
    }
  }

  lemma {:induction false} RecoveredNext(events: seq<LogScan.Event>)
    ensures var r := LogScan.NextRecord(events, None);
            LogScan.Recovered(events)
            == if r.record.None? then ([], r.reports)
               else ([r.record.value] + LogScan.Recovered(r.rest).0, r.reports + LogScan.Recovered(r.rest).1)
  {
    hide LogScan.NextRecord;
  }

  lemma {:induction false} EndEmpty(offset: nat, records: seq<Bytes>)
    requires offset <= BLOCK && records == []
    ensures LogEnd(offset, records) == offset
  {
    assert RecordFragments(offset, records) == [];
  }

  lemma {:induction false} LogSnoc(crc: Crc, offset: nat, records: seq<Bytes>, record: Bytes)
    requires offset <= BLOCK
    ensures var end := LogEnd(offset, records);
            LogBytes(crc, offset, records + [record]) == LogBytes(crc, offset, records) + RecordBytes(crc, end, record, true)
            && LogEnd(offset, records + [record]) == RecordEnd(end, record, true)
  {
    var end := LogEnd(offset, records);
    var one := [record];
    LogAppend(crc, offset, records, one);
    LogUnfolds(crc, end, one);
    EndUnfolds(end, one);
    LogEmpty(crc, RecordEnd(end, record, true), one[1..]);
    EndEmpty(RecordEnd(end, record, true), one[1..]);
  }

  lemma {:induction false} PrefixIsShorter(crc: Crc, records: seq<Bytes>, k: nat)
    requires k <= |records|
    ensures |LogBytes(crc, 0, records[..k])| <= |LogBytes(crc, 0, records)|
  {
    LogAppend(crc, 0, records[..k], records[k..]);
    assert records == records[..k] + records[k..];
  }

  /** Write a log, lose everything after the first `n` bytes, read it back. */
  method CrashAndRecover(crc: Crc, records: seq<Bytes>, n: nat) returns (got: seq<Bytes>, reports: nat)
    ensures got <= records && reports == 0
    ensures n >= |LogBytes(crc, 0, records)| ==> got == records
    ensures |LogBytes(crc, 0, got)| <= n
    ensures |got| < |records| ==> n < |LogBytes(crc, 0, records[..|got| + 1])|
  {
    var file := WriteLog(crc, records);
    var survived := if n < |file| then file[..n] else file;
    got, reports := RecoverLog(crc, survived, true, records);
    if n >= |file| && |got| < |records| {
      PrefixIsShorter(crc, records, |got| + 1);
    }
  }
}
