/** The wire format of protocol buffers, as the Encoding guide gives it ("Base 128 Varints", "Message Structure"): a
    reader that knows no descriptor, and what it finds in the bytes nanopb's encoder writes.
 */
module PbWire {
  import opened DbFormat
  import opened Coding
  import opened ByteReaders
  import opened PbCommon
  import opened PbEncode

  type Value = PbCommon.Value

  // ----- a reader without a descriptor -----------------------------------------

  /** What follows a record's key: a varint for wire type 0, eight bytes for 1, counted bytes for 2, four bytes for 5. */
  datatype Content = Digits(n: nat) | Eight(bytes: Bytes) | Counted(bytes: Bytes) | Four(bytes: Bytes)

  datatype Record = Record(number: nat, content: Content)

  function ReadContent(wire: nat, s: Bytes): (r: Option<Parsed<Content>>)
    ensures r.Some? ==> |r.value.rest| < |s| || wire == 2
    ensures r.Some? ==> |r.value.rest| <= |s|
  {
    if wire == 0 then
      match ReadVarint(s)
      case None => None
      case Some(p) => Some(Parsed(Digits(p.value), p.rest))
    else if wire == 1 then
      if |s| < 8 then None else Some(Parsed(Eight(s[..8]), s[8..]))
    else if wire == 2 then
      match ReadCounted(s)
      case None => None
      case Some(p) => Some(Parsed(Counted(p.value), p.rest))
    else if wire == 5 then
      if |s| < 4 then None else Some(Parsed(Four(s[..4]), s[4..]))
    else None
  }

  /** A record's key is its field number times eight and its wire type. */
  function ReadRecord(s: Bytes): (r: Option<Parsed<Record>>)
    ensures r.Some? ==> |r.value.rest| < |s|
  {
    match ReadVarint(s)
    case None => None
    case Some(key) =>
      match ReadContent(key.value % 8, key.rest)
      case None => None
      case Some(p) => Some(Parsed(Record(key.value / 8, p.value), p.rest))
  }

  function ReadMessage(s: Bytes): Option<seq<Record>>
    decreases |s|
  {
    if s == [] then Some([])
    else match ReadRecord(s)
      case None => None
      case Some(p) =>
        match ReadMessage(p.rest)
        case None => None
        case Some(more) => Some([p.value] + more)
  }

  /** The values of a packed array of a wire type, one after the other. */
  function ReadPacked(wire: nat, s: Bytes): Option<seq<Content>>
    requires wire == 0 || wire == 1 || wire == 5
    decreases |s|
  {
    if s == [] then Some([])
    else match ReadContent(wire, s)
      case None => None
      case Some(p) =>
        match ReadPacked(wire, p.rest)
        case None => None
        case Some(more) => Some([p.value] + more)
  }

  // ----- what a message is on the wire -----------------------------------------

  /** A value by its type: integers as varints, negative ones of a plain type in two's complement of 64 bits and of a
      signed type folded to 1, 3, 5, ...; fixed ones as four or eight bytes; the rest as counted bytes. */
  function ContentOf(t: LType, v: Value): Content
    requires HasType(t, v)
  {
    match t
    case BoolType => Digits(v.n)
    case VarintType(_) =>
      var wrapped := v.n + 0x1_0000_0000_0000_0000;
      Digits(if v.n >= 0 then v.n else if wrapped >= 0 then wrapped else 0)
    case UVarintType(_) => Digits(if v.n >= 0 then v.n else 0)
    case SVarintType(_) => Digits(if v.n >= 0 then v.n * 2 else -v.n * 2 - 1)
    case Fixed32Type => Four(LittleEndian(v.n, 4))
    case Fixed64Type => Eight(LittleEndian(v.n, 8))
    case BytesType(_) => Counted(v.bytes)
    case StringType(_) => Counted(v.bytes)
    case FixedBytesType(_) => Counted(v.bytes)
    case SubmessageType(fields) => Counted(MessageBytes(fields, v.slots, 0))
  }

  /** The wire type of a data type, as a number. */
  function WireOf(t: LType): nat {
    match t
    case BoolType => 0
    case VarintType(_) => 0
    case UVarintType(_) => 0
    case SVarintType(_) => 0
    case Fixed32Type => 5
    case Fixed64Type => 1
    case _ => 2
  }

  function Contents(t: LType, vs: seq<Value>): (r: seq<Content>)
    requires AllTyped(t, vs)
    ensures |r| == |vs| && forall j :: 0 <= j < |vs| ==> r[j] == ContentOf(t, vs[j])
  {
    seq(|vs|, j requires 0 <= j < |vs| => ContentOf(t, vs[j]))
  }

  /** The records of one field: none if it is absent, empty, or a zero that is left out; one for a value or a packed
      array; one a value for an array that is not packed. */
  function FieldRecords(f: Field, s: Slot): seq<Record>
    requires SlotTyped(f, s)
  {
    match s
    case Absent => []
    case Present(v) => if f.rule.Singular? && IsZero(f.ltype, v) then [] else [Record(f.tag, ContentOf(f.ltype, v))]
    case Items(vs) =>
      if vs == [] then []
      else if WireOf(f.ltype) != 2 then [Record(f.tag, Counted(PackedBytes(f.ltype, vs, 0)))]
      else seq(|vs|, j requires 0 <= j < |vs| => Record(f.tag, ContentOf(f.ltype, vs[j])))
  }

  /** The records of the fields from the `i`-th on, in the order of the descriptor. */
  function MessageRecords(fields: seq<Field>, m: seq<Slot>, i: nat): seq<Record>
    requires Typed(fields, m) && i <= |fields|
    decreases |fields| - i
  {
    if i == |fields| then [] else FieldRecords(fields[i], m[i]) + MessageRecords(fields, m, i + 1)
  }

  // ----- reading what the encoder wrote ----------------------------------------

  lemma {:induction false} ContentReads(t: LType, v: Value, rest: Bytes)
    requires HasType(t, v) && ValueEncodable(t, v)
    ensures ReadContent(WireOf(t), ValueBytes(t, v) + rest) == Some(Parsed(ContentOf(t, v), rest))
  {
    hide Varint, ReadVarint, MessageBytes, LittleEndian, Fixed;
    var b := ValueBytes(t, v);
    if WireOf(t) == 0 {
      VarintReads(ContentOf(t, v).n, rest);
    } else if t.Fixed32Type? {
      FixedIsLittleEndian(v.n, 4);
      assert (b + rest)[..4] == b && (b + rest)[4..] == rest;
    } else if t.Fixed64Type? {
      FixedIsLittleEndian(v.n, 8);
      assert (b + rest)[..8] == b && (b + rest)[8..] == rest;
    } else {
      CountedReads(ContentOf(t, v).bytes, rest);
    }
  }

  lemma {:induction false} CountedReads(b: Bytes, rest: Bytes)
    ensures ReadContent(2, Delimited(b) + rest) == Some(Parsed(Counted(b), rest))
  {
    hide Varint, ReadCounted;
    PrefixedReads(b, rest);
  }

  /** The values of a packed array are there, one after the other. */
  lemma {:induction false} PackedSplits(t: LType, vs: seq<Value>, j: nat)
    requires AllTyped(t, vs) && AllEncodable(t, vs) && WireOf(t) != 2 && j <= |vs|
    ensures ReadPacked(WireOf(t), PackedBytes(t, vs, j)) == Some(Contents(t, vs)[j..])
    decreases |vs| - j
  {
    hide ContentOf, ValueBytes, ReadContent;
    if j < |vs| {
      var rest := PackedBytes(t, vs, j + 1);
      PackedSplits(t, vs, j + 1);
      ContentReads(t, vs[j], rest);
      assert PackedBytes(t, vs, j) == ValueBytes(t, vs[j]) + rest;
      ContentNotEmpty(WireOf(t), ValueBytes(t, vs[j]) + rest);
      assert Contents(t, vs)[j..] == [ContentOf(t, vs[j])] + Contents(t, vs)[j + 1..];
    } else {
      assert Contents(t, vs)[j..] == [];
    }
  }

  lemma {:induction false} ContentNotEmpty(wire: nat, s: Bytes)
    requires ReadContent(wire, s).Some?
    ensures s != []
  {
  }

  /** A key and a content are a record. */
  lemma {:induction false} RecordReads(number: nat, wire: nat, b: Bytes, rest: Bytes)
    requires wire < 8 && ReadContent(wire, b + rest).Some? && ReadContent(wire, b + rest).value.rest == rest
    ensures var c := ReadContent(wire, b + rest).value.value;
            ReadMessage(TagBytes(number, wire) + b + rest) ==
            match ReadMessage(rest) case None => None case Some(more) => Some([Record(number, c)] + more)
  {
    hide ReadContent, Varint, ReadVarint;
    var s := TagBytes(number, wire) + b + rest;
    assert s == Varint(number * 8 + wire) + (b + rest);
    VarintReads(number * 8 + wire, b + rest);
    assert (number * 8 + wire) / 8 == number && (number * 8 + wire) % 8 == wire;
    assert s != [];
  }

  lemma {:induction false} UnpackedReads(f: Field, vs: seq<Value>, j: nat, rest: Bytes)
    requires AllTyped(f.ltype, vs) && AllEncodable(f.ltype, vs) && j <= |vs| && WireType(f.ltype) == WireOf(f.ltype)
    requires ReadMessage(rest).Some?
    ensures ReadMessage(UnpackedBytes(f, vs, j) + rest) ==
            Some(seq(|vs| - j, k requires 0 <= k < |vs| - j => Record(f.tag, ContentOf(f.ltype, vs[j + k])))
                 + ReadMessage(rest).value)
    decreases |vs| - j
  {
    hide ReadMessage, ReadContent, ValueBytes, ContentOf, TagBytes;
    var records := seq(|vs| - j, k requires 0 <= k < |vs| - j => Record(f.tag, ContentOf(f.ltype, vs[j + k])));
    if j == |vs| {
      assert UnpackedBytes(f, vs, j) + rest == rest && records + ReadMessage(rest).value == ReadMessage(rest).value;
    } else {
      var after := UnpackedBytes(f, vs, j + 1) + rest;
      var b := ValueBytes(f.ltype, vs[j]);
      UnpackedReads(f, vs, j + 1, rest);
      ContentReads(f.ltype, vs[j], after);
      RecordReads(f.tag, WireOf(f.ltype), b, after);
      assert UnpackedBytes(f, vs, j) + rest == TagBytes(f.tag, WireOf(f.ltype)) + b + after;
      var more := seq(|vs| - j - 1, k requires 0 <= k < |vs| - j - 1 => Record(f.tag, ContentOf(f.ltype, vs[j + 1 + k])));
      assert records == [Record(f.tag, ContentOf(f.ltype, vs[j]))] + more;
      assert records + ReadMessage(rest).value
             == [Record(f.tag, ContentOf(f.ltype, vs[j]))] + (more + ReadMessage(rest).value);
    }
  }

  lemma {:induction false} FieldReads(f: Field, s: Slot, rest: Bytes)
    requires SlotTyped(f, s) && SlotEncodable(f, s) && ReadMessage(rest).Some?
    ensures ReadMessage(FieldBytes(f, s) + rest) == Some(FieldRecords(f, s) + ReadMessage(rest).value)
  {
    hide ReadMessage, ReadContent, ValueBytes, ContentOf, TagBytes, PackedBytes, UnpackedBytes, IsZero;
    var t := f.ltype;
    assert WireType(t) == WireOf(t);
    if FieldBytes(f, s) == [] && FieldRecords(f, s) == [] {
      assert FieldBytes(f, s) + rest == rest && FieldRecords(f, s) + ReadMessage(rest).value == ReadMessage(rest).value;
    } else if s.Present? {
      ContentReads(t, s.value, rest);
      RecordReads(f.tag, WireOf(t), ValueBytes(t, s.value), rest);
    } else if WireOf(t) != 2 {
      var b := PackedBytes(t, s.items, 0);
      CountedReads(b, rest);
      RecordReads(f.tag, 2, Delimited(b), rest);
    } else {
      var vs := s.items;
      UnpackedReads(f, vs, 0, rest);
      assert FieldRecords(f, s) ==
             seq(|vs| - 0, k requires 0 <= k < |vs| - 0 => Record(f.tag, ContentOf(f.ltype, vs[0 + k])));
    }
  }

  /** A reader without the descriptor splits an encoded message into exactly the records of its present fields, in order,
      and consumes all of it. */
  lemma {:induction false} MessageSplits(fields: seq<Field>, m: seq<Slot>, i: nat)
    requires Typed(fields, m) && Encodable(fields, m) && i <= |fields|
    ensures ReadMessage(MessageBytes(fields, m, i)) == Some(MessageRecords(fields, m, i))
    decreases |fields| - i
  {
    hide FieldBytes, FieldRecords, SlotTyped, SlotEncodable;
    if i < |fields| {
      MessageSplits(fields, m, i + 1);
      FieldReads(fields[i], m[i], MessageBytes(fields, m, i + 1));
    }
  }
}
