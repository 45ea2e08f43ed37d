/** What the parts of a table file look like (table/format.cc): block handles, the trailer behind every block, the footer.
    Blocks are not compressed.
 */
module TableFormat {
  import opened DbFormat
  import opened Coding

  // ----- block handles -----------------------------------------------------

  datatype Handle = Handle(offset: nat, size: nat)

  predicate HandleFits(h: Handle) {
    h.offset < TWO_64 && h.size < TWO_64
  }

  /** BlockHandle::EncodeTo; the two numbers have 64 bits. */
  function EncodeHandle(h: Handle): (s: Bytes)
    ensures |s| <= 20
  {
    Varint64Short(h.offset % TWO_64);
    Varint64Short(h.size % TWO_64);
    Varint(h.offset % TWO_64) + Varint(h.size % TWO_64)
  }

  lemma {:induction false} Varint64Short(v: nat)
    requires v < TWO_64
    ensures |Varint(v)| <= 10
  {
    Pow128();
    VarintLength(v, 10);
  }

  lemma {:induction false} VarintLength(v: nat, n: nat)
    requires n > 0 && v < Pow(128, n)
    ensures |Varint(v)| <= n
  {
    if v >= 128 {
      assert Pow(128, 1) == 128;
      VarintLength(v / 128, n - 1);
    }
  }

  /** BlockHandle::DecodeFrom. */
  function ParseHandle(s: Bytes): (r: Option<Parsed<Handle>>)
    ensures r.Some? ==> HandleFits(r.value.value)
  {
    match GetVarint64(s)
    case None => None
    case Some(offset) =>
      match GetVarint64(offset.rest)
      case None => None
      case Some(size) => Some(Parsed(Handle(offset.value, size.value), size.rest))
  }

  function DecodeHandle(s: Bytes): (r: Option<Handle>)
    ensures r.Some? ==> HandleFits(r.value)
  {
    match ParseHandle(s) case None => None case Some(p) => Some(p.value)
  }

  lemma {:induction false} ParsesHandle(h: Handle, rest: Bytes)
    requires HandleFits(h)
    ensures ParseHandle(EncodeHandle(h) + rest) == Some(Parsed(h, rest))
  {
    hide Varint, GetVarint64;
    assert EncodeHandle(h) + rest == Varint(h.offset) + (Varint(h.size) + rest);
    Varint64RoundTrip(h.offset, Varint(h.size) + rest);
    Varint64RoundTrip(h.size, rest);
  }

  lemma {:induction false} HandleRoundTrip(h: Handle)
    requires HandleFits(h)
    ensures DecodeHandle(EncodeHandle(h)) == Some(h)
  {
    hide EncodeHandle, ParseHandle;
    ParsesHandle(h, []);
    assert EncodeHandle(h) + [] == EncodeHandle(h);
  }

  // ----- blocks in a file ----------------------------------------------------

  const NO_COMPRESSION: Byte := 0

  /** What TableBuilder::WriteRawBlock puts behind a block: its type, and the masked checksum of block and type. */
  function Trailer(crc: Crc, contents: Bytes): (s: Bytes)
    ensures |s| == 5
  {
    [NO_COMPRESSION] + EncodeFixed32(Mask(crc(contents + [NO_COMPRESSION])))
  }

  /** The block and its trailer are in the file where the handle says. */
  predicate Stands(crc: Crc, file: Bytes, h: Handle, contents: Bytes) {
    && h.size == |contents| && h.offset + h.size + 5 <= |file|
    && file[h.offset..h.offset + h.size] == contents
    && file[h.offset + h.size..h.offset + h.size + 5] == Trailer(crc, contents)
  }

  /** ReadBlock: nothing when the file ends before the trailer does, when the checksum is wrong and is looked at, or when
      the type is unknown. */
  function ReadBlock(crc: Crc, file: Bytes, h: Handle, verify: bool): Option<Bytes> {
    if |file| < h.offset + h.size + 5 then None
    else
      var contents := file[h.offset..h.offset + h.size + 5];
      if verify && Unmask(DecodeFixed32(contents[h.size + 1..h.size + 5])) != crc(contents[..h.size + 1]) then None
      else if contents[h.size] != NO_COMPRESSION then None
      else Some(contents[..h.size])
  }

  /** A block that stands in a file is read from it. */
  lemma {:induction false} StandsReads(crc: Crc, file: Bytes, h: Handle, contents: Bytes, verify: bool)
    requires Stands(crc, file, h, contents)
    ensures ReadBlock(crc, file, h, verify) == Some(contents)
  {
    hide Mask, Unmask, EncodeFixed32, DecodeFixed32;
    var all := file[h.offset..h.offset + h.size + 5];
    var word := Mask(crc(contents + [NO_COMPRESSION]));
    assert all == contents + Trailer(crc, contents);
    assert all[h.size] == NO_COMPRESSION && all[..h.size] == contents
           && all[..h.size + 1] == contents + [NO_COMPRESSION];
    assert all[h.size + 1..h.size + 5] == EncodeFixed32(word);
    UnmaskMask(crc(contents + [NO_COMPRESSION]));
  }

  lemma {:induction false} StandsGrows(crc: Crc, file: Bytes, h: Handle, contents: Bytes, more: Bytes)
    requires Stands(crc, file, h, contents)
    ensures Stands(crc, file + more, h, contents)
  {
    hide Trailer;
    assert (file + more)[..|file|] == file;
  }

  lemma {:induction false} StandsLast(crc: Crc, file: Bytes, contents: Bytes)
    ensures Stands(crc, file + contents + Trailer(crc, contents), Handle(|file|, |contents|), contents)
  {
    hide Trailer;
  }

  // ----- the footer ------------------------------------------------------------

  const FOOTER_LENGTH: nat := 48
  const TABLE_MAGIC_NUMBER: nat := 0xdb47_7524_8b80_fb57

  function Padding(n: nat): (s: Bytes)
    ensures |s| == n
  {
    seq(n, _ => 0)
  }

  /** Footer::EncodeTo: the handles of the metaindex and of the index, padded, and the magic number in two halves. */
  function EncodeFooter(meta: Handle, index: Handle): (s: Bytes)
    ensures |s| == FOOTER_LENGTH
  {
    var handles := EncodeHandle(meta) + EncodeHandle(index);
    handles + Padding(40 - |handles|)
    + EncodeFixed32(TABLE_MAGIC_NUMBER % TWO_32) + EncodeFixed32(TABLE_MAGIC_NUMBER / TWO_32)
  }

  /** Footer::DecodeFrom. */
  function DecodeFooter(s: Bytes): Option<(Handle, Handle)>
    requires |s| == FOOTER_LENGTH
  {
    if DecodeFixed32(s[40..44]) + DecodeFixed32(s[44..48]) * TWO_32 != TABLE_MAGIC_NUMBER then None
    else
      match ParseHandle(s)
      case None => None
      case Some(meta) =>
        match ParseHandle(meta.rest)
        case None => None
        case Some(index) => Some((meta.value, index.value))
  }

  lemma {:induction false} FooterRoundTrip(meta: Handle, index: Handle)
    requires HandleFits(meta) && HandleFits(index)
    ensures DecodeFooter(EncodeFooter(meta, index)) == Some((meta, index))
  {
    hide EncodeHandle, ParseHandle, EncodeFixed32, DecodeFixed32;
    var handles, s := EncodeHandle(meta) + EncodeHandle(index), EncodeFooter(meta, index);
    assert s[40..44] == EncodeFixed32(TABLE_MAGIC_NUMBER % TWO_32);
    assert s[44..48] == EncodeFixed32(TABLE_MAGIC_NUMBER / TWO_32);
    var rest := s[|handles|..];
    assert s == EncodeHandle(meta) + (EncodeHandle(index) + rest);
    ParsesHandle(meta, EncodeHandle(index) + rest);
    ParsesHandle(index, rest);
  }
}
