/** The decoder of nanopb (nanopb/pb_decode.c). Its methods take a value as ghost argument: if the stream holds the
    encoding of that value, decoding gives the value back.
 */
module PbDecode {
  import DbFormat
  import opened Coding
  import opened PbCommon
  import opened PbEncode
  import opened PbStream

  // ----- what decoding keeps and needs -------------------------------------------

  /** The value is within its storage. */
  predicate InBounds(t: LType, v: Value)
    requires HasType(t, v)
    decreases t
  {
    match t
    case BytesType(size) => v.bytes == [] || |v.bytes| + BYTES_HEADER <= size
    case SubmessageType(fields) => AllInBounds(fields, v.slots)
    case _ => true
  }

  predicate SlotInBounds(f: Field, s: Slot)
    requires SlotTyped(f, s)
    decreases f
  {
    match s
    case Absent => true
    case Present(v) => InBounds(f.ltype, v)
    case Items(vs) =>
      && (f.rule.Repeated? ==> |vs| <= f.rule.max)
      && forall j :: 0 <= j < |vs| ==> InBounds(f.ltype, vs[j])
  }

  predicate AllInBounds(fields: seq<Field>, m: seq<Slot>)
    requires Typed(fields, m)
    decreases fields
  {
    forall i :: 0 <= i < |fields| ==> SlotInBounds(fields[i], m[i])
  }

  lemma {:induction false} ZeroInBounds(t: LType)
    requires ValidType(t)
    ensures HasType(t, Zero(t)) && InBounds(t, Zero(t))
    decreases t, 0
  {
    ZeroTyped(t);
    if t.SubmessageType? {
      DefaultsInBounds(t.fields);
    }
  }

  lemma {:induction false} DefaultSlotInBounds(f: Field)
    requires ValidField(f)
    ensures SlotTyped(f, DefaultSlot(f)) && SlotInBounds(f, DefaultSlot(f))
    decreases f, 0
  {
    DefaultSlotTyped(f);
    ZeroInBounds(f.ltype);
  }

  lemma {:induction false} DefaultsInBounds(fields: seq<Field>)
    requires ValidFields(fields)
    ensures Typed(fields, Defaults(fields)) && AllInBounds(fields, Defaults(fields))
    decreases fields, 0
  {
    DefaultsTyped(fields);
    forall i | 0 <= i < |fields| ensures SlotInBounds(fields[i], Defaults(fields)[i]) {
      DefaultSlotInBounds(fields[i]);
    }
  }

  /** The submessages within the value are complete. */
  predicate ValueComplete(t: LType, v: Value)
    requires HasType(t, v)
    decreases t
  {
    t.SubmessageType? ==> Complete(t.fields, v.slots)
  }

  predicate SlotComplete(f: Field, s: Slot)
    requires SlotTyped(f, s)
    decreases f
  {
    match s
    case Absent => true
    case Present(v) => (f.rule.Singular? && IsZero(f.ltype, v)) || ValueComplete(f.ltype, v)
    case Items(vs) => forall j :: 0 <= j < |vs| ==> ValueComplete(f.ltype, vs[j])
  }

  /** Each of the first sixty-four required fields is present, here and in the submessages. */
  predicate Complete(fields: seq<Field>, m: seq<Slot>)
    requires Typed(fields, m)
    decreases fields
  {
    && RequiredPresent(fields, m)
    && forall i :: 0 <= i < |fields| ==> SlotComplete(fields[i], m[i])
  }

  /** Each of the first sixty-four required fields is present. */
  predicate RequiredPresent(fields: seq<Field>, m: seq<Slot>)
    requires |m| == |fields|
  {
    forall i :: 0 <= i < |fields| && IsCounted(fields, i) ==> m[i].Present?
  }

  /** A required field the mask has a bit for. */
  predicate IsCounted(fields: seq<Field>, i: nat)
    requires i < |fields|
  {
    fields[i].rule.Required? && RequiredBefore(fields, i) < MAX_REQUIRED_FIELDS
  }

  /** `v` is encoded at the front of `bytes`; a submessage is decoded into the defaults. */
  predicate Encoded(t: LType, v: Value, current: Value, bytes: Bytes, rest: Bytes) {
    && HasType(t, v) && ValueEncodable(t, v)
    && bytes == ValueBytes(t, v) + rest && |bytes| < TWO_32
    && (t.SubmessageType? ==> current == Zero(t))
  }

  // ----- numbers ---------------------------------------------------------------------

  /** The integer of `size` bytes with these low bits, as the conversion to a signed type gives it. */
  function Narrow(n: int, size: nat): int
    requires IsWidth(size)
  {
    var low := n % (2 * Half(size));
    if low >= Half(size) then low - 2 * Half(size) else low
  }

  lemma {:induction false} NarrowKeeps(n: int, size: nat)
    requires IsWidth(size)
    ensures Narrow(n, size) == n <==> IsSigned(n, size)
  {
    if size == 1 {
      NarrowKeeps1(n);
    } else if size == 2 {
      NarrowKeeps2(n);
    } else if size == 4 {
      NarrowKeeps4(n);
    } else {
      NarrowKeeps8(n);
    }
  }

  lemma {:induction false} NarrowKeeps1(n: int)
    ensures Narrow(n, 1) == n <==> IsSigned(n, 1)
  {
  }

  lemma {:induction false} NarrowKeeps2(n: int)
    ensures Narrow(n, 2) == n <==> IsSigned(n, 2)
  {
  }

  lemma {:induction false} NarrowKeeps4(n: int)
    ensures Narrow(n, 4) == n <==> IsSigned(n, 4)
  {
  }

  lemma {:induction false} NarrowKeeps8(n: int)
    ensures Narrow(n, 8) == n <==> IsSigned(n, 8)
  {
  }

  /** The bits of a negative number, sign-extended to 64, are those of the number in any width that holds it. */
  lemma {:induction false} UnsignedNarrows(n: int, size: nat)
    requires IsWidth(size) && IsSigned(n, size)
    ensures 0 <= Unsigned64(n) < TWO_64
    ensures if size == 8 then Narrow(Unsigned64(n), 8) == n else Narrow(Unsigned64(n), 4) == n
  {
    var u := Unsigned64(n);
    if size != 8 && n < 0 {
      assert u == TWO_32 * 0xFFFF_FFFF + (n + TWO_32);
      assert u % TWO_32 == n + TWO_32;
    }
  }

  lemma {:induction false} ZigZagBack(n: int, size: nat)
    requires IsWidth(size) && IsSigned(n, size)
    ensures ZigZag(n) < TWO_64
    ensures n == if ZigZag(n) % 2 == 1 then -(ZigZag(n) / 2) - 1 else ZigZag(n) / 2
  {
  }

  /** pb_dec_bool. */
  method DecodeBool(s: InputStream, ghost known: bool, ghost w: Value, ghost rest: Bytes) returns (ok: bool, v: Value)
    requires s.Valid() && (known ==> Encoded(BoolType, w, w, s.Rest(), rest))
    modifies s
    ensures s.Valid() && Follows(old(s.state), old(s.bytesLeft), s.state, s.bytesLeft)
    ensures ok ==> HasType(BoolType, v)
    ensures known ==> ok && v == w && s.Rest() == rest
  {
    hide Varint, ParseVarint, Fits32, Follows;
    if known {
      VarintFits32(w.n, rest);
    }
    var eof, n;
    ok, eof, n := DecodeVarint32(s);
    v := Number(if n != 0 then 1 else 0);
  }

  /** pb_dec_varint: a field of at most 32 bits takes the low 32 bits of the number. */
  method DecodeSigned(s: InputStream, size: nat, ghost known: bool, ghost w: Value, ghost rest: Bytes)
    returns (ok: bool, v: Value)
    requires s.Valid() && (known ==> Encoded(VarintType(size), w, w, s.Rest(), rest))
    modifies s
    ensures s.Valid() && Follows(old(s.state), old(s.bytesLeft), s.state, s.bytesLeft)
    ensures ok ==> HasType(VarintType(size), v)
    ensures known ==> ok && v == w && s.Rest() == rest
  {
    hide Varint, GetVarint64, Follows, Narrow, Unsigned64;
    if known {
      UnsignedNarrows(w.n, size);
      Varint64RoundTrip(Unsigned64(w.n), rest);
      NarrowKeeps(w.n, size);
    }
    v := Number(0);
    var value;
    ok, value := DecodeVarint(s);
    if !ok {
      return;
    }
    var svalue := if size == 8 then Narrow(value, 8) else Narrow(value, 4);
    if !IsWidth(size) {
      return false, v;
    }
    NarrowKeeps(svalue, size);
    if Narrow(svalue, size) != svalue {
      return false, v;
    }
    v := Number(svalue);
  }

  /** pb_dec_uvarint. */
  method DecodeUnsigned(s: InputStream, size: nat, ghost known: bool, ghost w: Value, ghost rest: Bytes)
    returns (ok: bool, v: Value)
    requires s.Valid() && (known ==> Encoded(UVarintType(size), w, w, s.Rest(), rest))
    modifies s
    ensures s.Valid() && Follows(old(s.state), old(s.bytesLeft), s.state, s.bytesLeft)
    ensures ok ==> HasType(UVarintType(size), v)
    ensures known ==> ok && v == w && s.Rest() == rest
  {
    hide Varint, GetVarint64, Follows;
    if known {
      Varint64RoundTrip(w.n, rest);
    }
    v := Number(0);
    var value;
    ok, value := DecodeVarint(s);
    if !ok {
      return;
    }
    if !IsWidth(size) {
      return false, v;
    }
    if value % (2 * Half(size)) != value {
      return false, v;
    }
    v := Number(value);
  }

  /** pb_dec_svarint. */
  method DecodeZigZag(s: InputStream, size: nat, ghost known: bool, ghost w: Value, ghost rest: Bytes)
    returns (ok: bool, v: Value)
    requires s.Valid() && (known ==> Encoded(SVarintType(size), w, w, s.Rest(), rest))
    modifies s
    ensures s.Valid() && Follows(old(s.state), old(s.bytesLeft), s.state, s.bytesLeft)
    ensures ok ==> HasType(SVarintType(size), v)
    ensures known ==> ok && v == w && s.Rest() == rest
  {
    hide Varint, GetVarint64, Follows, Narrow, ZigZag;
    if known {
      ZigZagBack(w.n, size);
      Varint64RoundTrip(ZigZag(w.n), rest);
      NarrowKeeps(w.n, size);
    }
    v := Number(0);
    var value;
    ok, value := DecodeVarint(s);
    if !ok {
      return;
    }
    var half: int := value / 2;
    var svalue := if value % 2 == 1 then -half - 1 else half;
    if !IsWidth(size) {
      return false, v;
    }
    NarrowKeeps(svalue, size);
    if Narrow(svalue, size) != svalue {
      return false, v;
    }
    v := Number(svalue);
  }

  /** pb_dec_fixed32 and pb_dec_fixed64. */
  method DecodeFixed(s: InputStream, t: LType, ghost known: bool, ghost w: Value, ghost rest: Bytes)
    returns (ok: bool, v: Value)
    requires s.Valid() && (t.Fixed32Type? || t.Fixed64Type?) && (known ==> Encoded(t, w, w, s.Rest(), rest))
    modifies s
    ensures s.Valid() && Follows(old(s.state), old(s.bytesLeft), s.state, s.bytesLeft)
    ensures ok ==> HasType(t, v)
    ensures known ==> ok && v == w && s.Rest() == rest
  {
    hide EncodeFixed32, EncodeFixed64, DecodeFixed32, DecodeFixed64, Follows;
    v := Number(0);
    if known {
      ghost var b := ValueBytes(t, w);
      assert (b + rest)[..|b|] == b && (b + rest)[|b|..] == rest;
    }
    var b;
    ok, b := s.Read(if t.Fixed32Type? then 4 else 8);
    if !ok {
      return;
    }
    v := Number(if t.Fixed32Type? then DecodeFixed32(b) else DecodeFixed64(b));
  }

  // ----- bytes and strings -------------------------------------------------------------

  /** The C string in a buffer. */
  function UpToNul(b: Bytes): (r: Bytes)
    ensures 0 !in r && |r| <= |b|
    ensures 0 !in b ==> r == b
  {
    if b == [] || b[0] == 0 then [] else [b[0]] + UpToNul(b[1..])
  }

  /** pb_dec_bytes, pb_dec_string and pb_dec_fixed_length_bytes. */
  method DecodeText(s: InputStream, t: LType, ghost known: bool, ghost w: Value, ghost rest: Bytes)
    returns (ok: bool, v: Value)
    requires s.Valid() && (t.BytesType? || t.StringType? || t.FixedBytesType?)
    requires known ==> Encoded(t, w, w, s.Rest(), rest)
    modifies s
    ensures s.Valid() && Follows(old(s.state), old(s.bytesLeft), s.state, s.bytesLeft)
    ensures ok ==> HasType(t, v) && InBounds(t, v)
    ensures known ==> ok && v == w && s.Rest() == rest
  {
    hide Varint, ParseVarint, Fits32, Follows, UpToNul;
    if known {
      TextFits32(w.bytes, s.Rest(), rest);
    }
    v := Text([]);
    var eof, size, b;
    ok, eof, size := DecodeVarint32(s);
    if !ok {
      return;
    }
    ghost var state, left := s.state, s.bytesLeft;
    match t {
      case BytesType(storage) =>
        if size + BYTES_HEADER > storage {
          return false, v;
        }
        ok, b := s.Read(size);
        v := Text(b);
      case StringType(storage) =>
        if size + 1 > storage {
          return false, v;
        }
        ok, b := s.Read(size);
        v := Text(UpToNul(b));
      case FixedBytesType(storage) =>
        if size == 0 {
          v := Text(seq(storage, _ => 0));
          if known {
            assert v.bytes == w.bytes;
          }
          return;
        }
        if size != storage {
          return false, v;
        }
        ok, b := s.Read(storage);
        v := Text(b);
    }
    FollowsOn(old(s.state), old(s.bytesLeft), state, left, s.state, s.bytesLeft);
  }

  lemma {:induction false} TextFits32(b: Bytes, bytes: Bytes, rest: Bytes)
    requires bytes == Delimited(b) + rest && |bytes| < TWO_32
    ensures Fits32(bytes) && ParseVarint(bytes, 5) == DbFormat.Some(Parsed(|b|, b + rest))
    ensures (b + rest)[..|b|] == b && (b + rest)[|b|..] == rest && (b == [] ==> b + rest == rest)
  {
    assert bytes == Varint(|b|) + (b + rest);
    VarintFits32(|b|, b + rest);
  }

  // ----- how far a field has been decoded ---------------------------------------------

  /** How many values of the field the encoding has. */
  function Units(f: Field, w: Slot): nat
    requires SlotTyped(f, w)
  {
    match w
    case Absent => 0
    case Present(v) => if f.rule.Singular? && IsZero(f.ltype, v) then 0 else 1
    case Items(vs) => |vs|
  }

  /** The array when `j` of its values have been decoded. */
  function Filled(f: Field, vs: seq<Value>, j: nat): seq<Value>
    requires j <= |vs|
  {
    if f.rule.FixedCount? then
      var zero := Zero(f.ltype);
      vs[..j] + seq(|vs| - j, _ => zero)
    else vs[..j]
  }

  /** The field when `j` of its values have been decoded. */
  function DoneSlot(f: Field, w: Slot, j: nat): Slot
    requires SlotTyped(f, w) && j <= Units(f, w)
  {
    match w
    case Absent => Absent
    case Present(_) => if j == Units(f, w) then w else DefaultSlot(f)
    case Items(vs) => Items(Filled(f, vs, j))
  }

  predicate IsPacked(f: Field, w: Slot) {
    w.Items? && Packable(f.ltype)
  }

  /** A record comes next: a packed array is one. */
  predicate HasRecord(f: Field, w: Slot, j: nat)
    requires SlotTyped(f, w)
  {
    j < Units(f, w) && (IsPacked(f, w) ==> j == 0)
  }

  function NextUnit(f: Field, w: Slot, j: nat): nat
    requires SlotTyped(f, w) && HasRecord(f, w, j)
  {
    if IsPacked(f, w) then Units(f, w) else j + 1
  }

  function RecordWire(f: Field, w: Slot): nat {
    if IsPacked(f, w) then WT_STRING else WireType(f.ltype)
  }

  function Payload(f: Field, w: Slot, j: nat): Bytes
    requires SlotTyped(f, w) && HasRecord(f, w, j)
  {
    match w
    case Present(v) => ValueBytes(f.ltype, v)
    case Items(vs) => if Packable(f.ltype) then Delimited(PackedBytes(f.ltype, vs, 0)) else ValueBytes(f.ltype, vs[j])
  }

  /** The records of the field from its `j`-th value on. */
  function SlotRest(f: Field, w: Slot, j: nat): Bytes
    requires SlotTyped(f, w) && j <= Units(f, w)
  {
    if j == Units(f, w) then []
    else if w.Items? && !Packable(f.ltype) then UnpackedBytes(f, w.items, j)
    else FieldBytes(f, w)
  }

  lemma {:induction false} SlotStarts(f: Field, w: Slot)
    requires SlotTyped(f, w)
    ensures SlotRest(f, w, 0) == FieldBytes(f, w) && DoneSlot(f, w, 0) == DefaultSlot(f)
  {
    if w.Present? && f.rule.Singular? && IsZero(f.ltype, w.value) {
      ZeroIsDefault(f.ltype, w.value);
    }
    if w.Items? {
      assert w.items[..0] == [];
    }
  }

  lemma {:induction false} SlotEnds(f: Field, w: Slot)
    requires SlotTyped(f, w)
    ensures SlotRest(f, w, Units(f, w)) == [] && DoneSlot(f, w, Units(f, w)) == w
  {
    if w.Items? {
      var vs := w.items;
      assert vs[..|vs|] == vs;
    }
  }

  lemma {:induction false} SlotStep(f: Field, w: Slot, j: nat)
    requires SlotTyped(f, w) && HasRecord(f, w, j)
    ensures NextUnit(f, w, j) <= Units(f, w)
    ensures SlotRest(f, w, j)
         == TagBytes(f.tag, RecordWire(f, w)) + (Payload(f, w, j) + SlotRest(f, w, NextUnit(f, w, j)))
  {
    var tag, payload := TagBytes(f.tag, RecordWire(f, w)), Payload(f, w, j);
    hide TagBytes, ValueBytes, PackedBytes, Delimited;
    assert tag + payload == tag + (payload + []);
    if w.Items? && !Packable(f.ltype) {
      var rest := UnpackedBytes(f, w.items, j + 1);
      assert tag + payload + rest == tag + (payload + rest);
    }
  }

  /** The values of the field decoded so far are complete. */
  predicate PartComplete(f: Field, w: Slot, j: nat)
    requires SlotTyped(f, w)
  {
    match w
    case Absent => true
    case Present(v) => j > 0 ==> ValueComplete(f.ltype, v)
    case Items(vs) => forall k :: 0 <= k < j && k < |vs| ==> ValueComplete(f.ltype, vs[k])
  }

  /** The next record holds complete values. */
  predicate RecordComplete(f: Field, w: Slot, j: nat)
    requires SlotTyped(f, w) && HasRecord(f, w, j)
  {
    match w
    case Present(v) => ValueComplete(f.ltype, v)
    case Items(vs) => Packable(f.ltype) || ValueComplete(f.ltype, vs[j])
  }

  lemma {:induction false} CompleteStep(f: Field, w: Slot, j: nat)
    requires SlotTyped(f, w) && HasRecord(f, w, j) && PartComplete(f, w, j)
    ensures RecordComplete(f, w, j) ==> PartComplete(f, w, NextUnit(f, w, j))
    ensures !RecordComplete(f, w, j) ==> !SlotComplete(f, w)
  {
  }

  lemma {:induction false} CompleteEnds(f: Field, w: Slot)
    requires SlotTyped(f, w)
    ensures PartComplete(f, w, 0)
    ensures PartComplete(f, w, Units(f, w)) ==> SlotComplete(f, w)
  {
  }

  // ----- fields ------------------------------------------------------------------------

  /** A stored array of the field: its values are typed and within their storage. */
  predicate ItemsStored(f: Field, items: seq<Value>) {
    forall k :: 0 <= k < |items| ==> HasType(f.ltype, items[k]) && InBounds(f.ltype, items[k])
  }

  /** The size of the array, and the number of its values decoded so far. */
  predicate ItemsSized(f: Field, items: seq<Value>, size: nat) {
    || (f.rule.Repeated? && |items| == size <= f.rule.max)
    || (f.rule.FixedCount? && |items| == f.rule.count && size <= f.rule.count)
  }

  function ArraySize(f: Field): nat
    requires f.rule.Repeated? || f.rule.FixedCount?
  {
    if f.rule.Repeated? then f.rule.max else f.rule.count
  }

  /** Stores a value at index `k` of an array in memory. */
  function Store(items: seq<Value>, k: nat, v: Value): seq<Value>
    requires k <= |items|
  {
    if k < |items| then items[k := v] else items + [v]
  }

  lemma {:induction false} StoreFacts(f: Field, items: seq<Value>, size: nat, v: Value)
    requires ItemsStored(f, items) && ItemsSized(f, items, size) && size < ArraySize(f)
    requires HasType(f.ltype, v) && InBounds(f.ltype, v)
    ensures ItemsStored(f, Store(items, size, v)) && ItemsSized(f, Store(items, size, v), size + 1)
  {
  }

  lemma {:induction false} StoreNext(f: Field, vs: seq<Value>, j: nat)
    requires SlotTyped(f, Items(vs)) && j < |vs|
    ensures |Filled(f, vs, j)| >= j && Store(Filled(f, vs, j), j, vs[j]) == Filled(f, vs, j + 1)
  {
    assert vs[..j + 1] == vs[..j] + [vs[j]];
  }

  /** Dispatches as PB_DECODERS does. `current` is what the field holds, which a submessage is decoded into. */
  method DecodeValue(s: InputStream, t: LType, current: Value, ghost known: bool, ghost w: Value, ghost rest: Bytes)
    returns (ok: bool, v: Value)
    requires s.Valid() && ValidType(t) && HasType(t, current) && InBounds(t, current)
    requires known ==> Encoded(t, w, current, s.Rest(), rest)
    modifies s
    ensures s.Valid() && (ok ==> Follows(old(s.state), old(s.bytesLeft), s.state, s.bytesLeft))
    ensures ok ==> HasType(t, v) && InBounds(t, v)
    ensures known ==> (ok <==> ValueComplete(t, w)) && (ok ==> v == w && s.Rest() == rest)
    decreases t, 0
  {
    hide ValueBytes, Follows, Complete, AllInBounds;
    match t
    case BoolType => ok, v := DecodeBool(s, known, w, rest);
    case VarintType(size) => ok, v := DecodeSigned(s, size, known, w, rest);
    case UVarintType(size) => ok, v := DecodeUnsigned(s, size, known, w, rest);
    case SVarintType(size) => ok, v := DecodeZigZag(s, size, known, w, rest);
    case Fixed32Type => ok, v := DecodeFixed(s, t, known, w, rest);
    case Fixed64Type => ok, v := DecodeFixed(s, t, known, w, rest);
    case BytesType(_) => ok, v := DecodeText(s, t, known, w, rest);
    case StringType(_) => ok, v := DecodeText(s, t, known, w, rest);
    case FixedBytesType(_) => ok, v := DecodeText(s, t, known, w, rest);
    case SubmessageType(fields) =>
      if known {
        SubmessageStarts(fields, w, current, s.Rest(), rest);
      }
      var m;
      ok, m := DecodeSubmessage(s, fields, current.slots, known, if known then w.slots else current.slots, rest);
      v := Message(m);
  }

  lemma {:induction false} SubmessageStarts(fields: seq<Field>, w: Value, current: Value, bytes: Bytes, rest: Bytes)
    requires Encoded(SubmessageType(fields), w, current, bytes, rest)
    ensures w.Message? && Typed(fields, w.slots) && Encodable(fields, w.slots) && current == Message(Defaults(fields))
    ensures StartsDelimited(bytes, MessageBytes(fields, w.slots, 0), rest)
  {
  }

  lemma {:induction false} OpenedValid(before: Bytes, left: nat, state: Bytes, bytesLeft: nat, size: nat)
    requires Opened(before, left, state, bytesLeft, size)
    ensures bytesLeft + size <= |state| && Follows(state, size, state, size)
  {
  }

  /** pb_dec_submessage, of a field that is not repeated or into the defaults. */
  method DecodeSubmessage(s: InputStream, fields: seq<Field>, current: seq<Slot>, ghost known: bool, ghost w: seq<Slot>,
    ghost rest: Bytes) returns (ok: bool, m: seq<Slot>)
    requires s.Valid() && ValidFields(fields) && Typed(fields, current) && AllInBounds(fields, current)
    requires known ==> Typed(fields, w) && Encodable(fields, w) && current == Defaults(fields)
    requires known ==> StartsDelimited(s.Rest(), MessageBytes(fields, w, 0), rest)
    modifies s
    ensures s.Valid() && (ok ==> Follows(old(s.state), old(s.bytesLeft), s.state, s.bytesLeft))
    ensures ok ==> Typed(fields, m) && AllInBounds(fields, m)
    ensures known ==> (ok <==> Complete(fields, w)) && (ok ==> m == w && s.Rest() == rest)
    decreases fields, |fields| + 2
  {
    hide MessageBytes, Follows, Opened, OpenRest, Complete, Typed, AllInBounds, Encodable, ValidFields;
    ghost var b := if known then MessageBytes(fields, w, 0) else [];
    m := current;
    var sub;
    ok, sub := MakeSubstream(s, b, rest);
    if !ok {
      return;
    }
    ghost var state, bytesLeft, size := s.state, s.bytesLeft, sub.bytesLeft;
    OpenedValid(old(s.state), old(s.bytesLeft), state, bytesLeft, size);
    if known {
      DelimitedLess(old(s.Rest()), b, rest);
    }
    var status;
    status, m := DecodeNoInit(sub, fields, current, known, w);
    if !status {
      return false, m;
    }
    ok := CloseSubstream(s, sub, old(s.state), old(s.bytesLeft), size);
  }

  lemma {:induction false} DelimitedLess(s: Bytes, b: Bytes, rest: Bytes)
    requires StartsDelimited(s, b, rest)
    ensures |b| < TWO_32
  {
  }

  /** The stream holds the encoding of `w`, and the message its defaults. */
  predicate MessageEncoded(fields: seq<Field>, w: seq<Slot>, dest: seq<Slot>, bytes: Bytes) {
    && Typed(fields, w) && Encodable(fields, w) && dest == Defaults(fields)
    && bytes == MessageBytes(fields, w, 0) && |bytes| < TWO_32
  }

  /** The next record of the field is at the front of the stream, after its tag; `j` values have been decoded. */
  predicate RecordEncoded(f: Field, w: Slot, j: nat, slot: Slot, size: nat, bytes: Bytes, rest: Bytes) {
    && SlotTyped(f, w) && SlotEncodable(f, w) && HasRecord(f, w, j)
    && slot == DoneSlot(f, w, j) && (f.rule.FixedCount? ==> size == j)
    && bytes == Payload(f, w, j) + rest && |bytes| < TWO_32
  }

  /** The packed values from the `j`-th on are those of the stream. */
  predicate PackedEncoded(f: Field, vs: seq<Value>, j: nat, items: seq<Value>, bytes: Bytes) {
    && SlotTyped(f, Items(vs)) && SlotEncodable(f, Items(vs)) && j <= |vs|
    && items == Filled(f, vs, j) && bytes == PackedBytes(f.ltype, vs, j) && |bytes| < TWO_32
  }

  lemma {:induction false} PackedStarts(f: Field, w: Slot, j: nat, slot: Slot, size: nat, bytes: Bytes, rest: Bytes)
    requires RecordEncoded(f, w, j, slot, size, bytes, rest) && IsPacked(f, w)
    ensures j == 0 && slot == Items(Filled(f, w.items, 0))
    ensures StartsDelimited(bytes, PackedBytes(f.ltype, w.items, 0), rest)
    ensures PackedEncoded(f, w.items, 0, slot.items, PackedBytes(f.ltype, w.items, 0))
  {
  }

  lemma {:induction false} PackedNext(f: Field, vs: seq<Value>, j: nat, items: seq<Value>, bytes: Bytes)
    requires PackedEncoded(f, vs, j, items, bytes) && Packable(f.ltype) && j < |vs|
    ensures bytes != [] && j < ArraySize(f) && |items| >= j
    ensures Encoded(f.ltype, vs[j], Zero(f.ltype), bytes, PackedBytes(f.ltype, vs, j + 1))
    ensures ValueComplete(f.ltype, vs[j])
    ensures PackedEncoded(f, vs, j + 1, Store(items, j, vs[j]), PackedBytes(f.ltype, vs, j + 1))
  {
    hide Varint, EncodeFixed32, EncodeFixed64, Filled, Store;
    StoreNext(f, vs, j);
    assert ValueEncodable(f.ltype, vs[j]);
    assert |ValueBytes(f.ltype, vs[j])| > 0;
  }

  lemma {:induction false} PackedEnds(f: Field, vs: seq<Value>, j: nat, items: seq<Value>, bytes: Bytes)
    requires PackedEncoded(f, vs, j, items, bytes) && j == |vs|
    ensures bytes == [] && items == vs
  {
    assert vs[..|vs|] == vs;
  }

  /** The packed array of decode_static_field. */
  method DecodePacked(s: InputStream, f: Field, before: seq<Value>, start: nat, ghost known: bool, ghost vs: seq<Value>,
    ghost rest: Bytes) returns (ok: bool, items: seq<Value>, size: nat)
    requires s.Valid() && ValidField(f) && Packable(f.ltype) && ItemsStored(f, before) && ItemsSized(f, before, start)
    requires known ==> SlotTyped(f, Items(vs)) && start == 0 && PackedEncoded(f, vs, 0, before, PackedBytes(f.ltype, vs, 0))
    requires known ==> StartsDelimited(s.Rest(), PackedBytes(f.ltype, vs, 0), rest)
    modifies s
    ensures s.Valid() && (ok ==> Follows(old(s.state), old(s.bytesLeft), s.state, s.bytesLeft))
    ensures ok ==> ItemsStored(f, items) && ItemsSized(f, items, size)
    ensures known ==> ok && items == vs && size == |vs| && s.Rest() == rest
    decreases f, 0
  {
    hide PackedEncoded, PackedBytes, Follows, Opened, OpenRest, Encoded, ItemsStored, Store, HasType, InBounds, Zero,
      ValueComplete, ValidType;
    items, size := before, start;
    var sub;
    ok, sub := MakeSubstream(s, if known then PackedBytes(f.ltype, vs, 0) else [], rest);
    if !ok {
      return;
    }
    ghost var state, bytesLeft, length := s.state, s.bytesLeft, sub.bytesLeft;
    OpenedValid(old(s.state), old(s.bytesLeft), state, bytesLeft, length);
    ZeroInBounds(f.ltype);
    while sub.bytesLeft > 0 && size < ArraySize(f)
      invariant s.state == state && s.bytesLeft == bytesLeft
      invariant sub.Valid() && Follows(state, length, sub.state, sub.bytesLeft)
      invariant ItemsStored(f, items) && ItemsSized(f, items, size)
      invariant known ==> PackedEncoded(f, vs, size, items, sub.Rest())
      decreases ArraySize(f) - size
    {
      ghost var subState, subLeft := sub.state, sub.bytesLeft;
      if known {
        SizeBelow(f, vs, size, items, sub.Rest());
        PackedNext(f, vs, size, items, sub.Rest());
      }
      var v;
      ok, v := DecodeValue(sub, f.ltype, Zero(f.ltype), known, if known then vs[size] else Number(0),
        if known then PackedBytes(f.ltype, vs, size + 1) else []);
      if !ok {
        return;
      }
      FollowsOn(state, length, subState, subLeft, sub.state, sub.bytesLeft);
      StoreFacts(f, items, size, v);
      items, size := Store(items, size, v), size + 1;
    }
    if known {
      AllPacked(f, vs, size, items, sub.Rest());
    }
    if sub.bytesLeft != 0 {
      return false, items, size;
    }
    ok := CloseSubstream(s, sub, old(s.state), old(s.bytesLeft), length);
  }

  /** While bytes are left, so are values. */
  lemma {:induction false} SizeBelow(f: Field, vs: seq<Value>, j: nat, items: seq<Value>, bytes: Bytes)
    requires PackedEncoded(f, vs, j, items, bytes) && bytes != []
    ensures j < |vs|
  {
  }

  /** The loop leaves nothing: the array has room for what is encoded. */
  lemma {:induction false} AllPacked(f: Field, vs: seq<Value>, j: nat, items: seq<Value>, bytes: Bytes)
    requires PackedEncoded(f, vs, j, items, bytes) && Packable(f.ltype) && (bytes == [] || j >= ArraySize(f))
    ensures bytes == [] && items == vs && j == |vs|
  {
    if j < |vs| {
      PackedNext(f, vs, j, items, bytes);
    }
    PackedEnds(f, vs, j, items, bytes);
  }

  /** What memory holds for a field that is not an array. */
  function Current(f: Field, slot: Slot): Value {
    if slot.Present? then slot.value else Zero(f.ltype)
  }

  lemma {:induction false} CurrentFacts(f: Field, slot: Slot)
    requires ValidField(f) && SlotTyped(f, slot) && SlotInBounds(f, slot)
    ensures ValidType(f.ltype) && HasType(f.ltype, Current(f, slot)) && InBounds(f.ltype, Current(f, slot))
  {
    ZeroInBounds(f.ltype);
  }

  lemma {:induction false} OneEncoded(f: Field, w: Slot, j: nat, slot: Slot, size: nat, bytes: Bytes, rest: Bytes)
    requires RecordEncoded(f, w, j, slot, size, bytes, rest) && !f.rule.Repeated? && !f.rule.FixedCount?
    ensures w.Present? && j == 0 && Encoded(f.ltype, w.value, Current(f, slot), bytes, rest)
    ensures NextUnit(f, w, j) == Units(f, w) && DoneSlot(f, w, Units(f, w)) == w
    ensures RecordComplete(f, w, j) == ValueComplete(f.ltype, w.value)
  {
  }

  lemma {:induction false} ItemEncoded(f: Field, w: Slot, j: nat, slot: Slot, size: nat, bytes: Bytes, rest: Bytes)
    requires RecordEncoded(f, w, j, slot, size, bytes, rest) && w.Items? && !IsPacked(f, w)
    requires slot.Items? && size == (if f.rule.FixedCount? then size else |slot.items|)
    ensures j < |w.items| && j == size < ArraySize(f) && size <= |slot.items|
    ensures Encoded(f.ltype, w.items[j], Zero(f.ltype), bytes, rest)
    ensures NextUnit(f, w, j) == j + 1 && DoneSlot(f, w, j + 1) == Items(Store(slot.items, size, w.items[j]))
    ensures RecordComplete(f, w, j) == ValueComplete(f.ltype, w.items[j])
  {
    StoreNext(f, w.items, j);
  }

  /** The arrays of decode_static_field: packed, or one value. */
  method DecodeArray(s: InputStream, wire: nat, f: Field, slot: Slot, start: nat, ghost known: bool, ghost w: Slot,
    ghost j: nat, ghost rest: Bytes) returns (ok: bool, items: seq<Value>, size: nat)
    requires s.Valid() && ValidField(f) && slot.Items? && ItemsStored(f, slot.items) && ItemsSized(f, slot.items, start)
    requires known ==> RecordEncoded(f, w, j, slot, start, s.Rest(), rest) && wire == RecordWire(f, w)
    modifies s
    ensures s.Valid() && (ok ==> Follows(old(s.state), old(s.bytesLeft), s.state, s.bytesLeft))
    ensures ok ==> ItemsStored(f, items) && ItemsSized(f, items, size)
    ensures known ==> (ok <==> RecordComplete(f, w, j)) && (ok ==> s.Rest() == rest)
    ensures known && ok ==> Items(items) == DoneSlot(f, w, NextUnit(f, w, j)) && size == NextUnit(f, w, j)
    decreases f, 1
  {
    hide RecordEncoded, Payload, Follows, ItemsStored, Store, Encoded, Zero, HasType, InBounds, Filled, SlotEncodable,
      PackedEncoded, PackedBytes, ValueComplete;
    if known {
      RecordItems(f, w, j, slot, start, s.Rest(), rest);
    }
    if wire == WT_STRING && Packable(f.ltype) {
      if known {
        PackedStarts(f, w, j, slot, start, s.Rest(), rest);
        SlotEnds(f, w);
      }
      ok, items, size := DecodePacked(s, f, slot.items, start, known, if known then w.items else [], rest);
    } else {
      items, size := slot.items, start;
      if known {
        ItemEncoded(f, w, j, slot, start, s.Rest(), rest);
      }
      if size >= ArraySize(f) {
        return false, items, size;
      }
      ZeroInBounds(f.ltype);
      var v;
      ok, v := DecodeValue(s, f.ltype, Zero(f.ltype), known, if known then w.items[j] else Number(0), rest);
      if !ok {
        return;
      }
      StoreFacts(f, items, size, v);
      items, size := Store(items, size, v), size + 1;
    }
  }

  lemma {:induction false} RecordItems(f: Field, w: Slot, j: nat, slot: Slot, size: nat, bytes: Bytes, rest: Bytes)
    requires RecordEncoded(f, w, j, slot, size, bytes, rest) && slot.Items?
    requires f.rule.Repeated? || f.rule.FixedCount?
    requires ItemsSized(f, slot.items, size)
    ensures w.Items? && HasRecord(f, w, j) && (IsPacked(f, w) ==> size == 0 && j == 0)
    ensures !IsPacked(f, w) ==> RecordWire(f, w) != WT_STRING || !Packable(f.ltype)
  {
  }

  /** decode_static_field. `start` is the number of values of a fixed count array decoded so far. */
  method DecodeStatic(s: InputStream, wire: nat, f: Field, slot: Slot, start: nat, ghost known: bool, ghost w: Slot,
    ghost j: nat, ghost rest: Bytes) returns (ok: bool, now: Slot, size: nat)
    requires s.Valid() && ValidField(f) && SlotTyped(f, slot) && SlotInBounds(f, slot)
    requires f.rule.FixedCount? ==> start <= f.rule.count
    requires known ==> RecordEncoded(f, w, j, slot, start, s.Rest(), rest) && wire == RecordWire(f, w)
    modifies s
    ensures s.Valid() && (ok ==> Follows(old(s.state), old(s.bytesLeft), s.state, s.bytesLeft))
    ensures ok ==> SlotTyped(f, now) && SlotInBounds(f, now) && (f.rule.Required? ==> now.Present?)
    ensures ok && f.rule.FixedCount? ==> size <= f.rule.count
    ensures known ==> (ok <==> RecordComplete(f, w, j))
    ensures known && ok ==> now == DoneSlot(f, w, NextUnit(f, w, j)) && s.Rest() == rest
    ensures known && ok && f.rule.FixedCount? ==> size == NextUnit(f, w, j)
    decreases f, 2
  {
    hide RecordEncoded, Payload, Follows, Store, Encoded, Zero, HasType, InBounds, Filled, SlotEncodable, Current,
      PackedEncoded, PackedBytes, ValueComplete;
    size := start;
    if f.rule.Repeated? || f.rule.FixedCount? {
      var items;
      if f.rule.Repeated? {
        size := |slot.items|;
        if known {
          SizeOfRepeated(f, w, j, slot, start, s.Rest(), rest);
        }
      }
      ok, items, size := DecodeArray(s, wire, f, slot, size, known, w, j, rest);
      now := Items(items);
    } else {
      CurrentFacts(f, slot);
      if known {
        OneEncoded(f, w, j, slot, start, s.Rest(), rest);
      }
      var v;
      ok, v := DecodeValue(s, f.ltype, Current(f, slot), known, if known then w.value else Number(0), rest);
      now := Present(v);
    }
  }

  lemma {:induction false} SizeOfRepeated(f: Field, w: Slot, j: nat, slot: Slot, size: nat, bytes: Bytes, rest: Bytes)
    requires RecordEncoded(f, w, j, slot, size, bytes, rest) && f.rule.Repeated? && slot.Items?
    ensures RecordEncoded(f, w, j, slot, |slot.items|, bytes, rest)
  {
  }

  // ----- messages ----------------------------------------------------------------------

  /** The message when the fields before the `i`-th, and `j` values of it, have been decoded. */
  function DoneMessage(fields: seq<Field>, w: seq<Slot>, i: nat, j: nat): (m: seq<Slot>)
    requires Typed(fields, w) && i <= |fields| && (i < |fields| ==> j <= Units(fields[i], w[i]))
    ensures |m| == |fields|
  {
    seq(|fields|, k requires 0 <= k < |fields| =>
      if k < i then w[k] else if k == i then DoneSlot(fields[k], w[k], j) else DefaultSlot(fields[k]))
  }

  /** The bytes that are left then. */
  function MessageRest(fields: seq<Field>, w: seq<Slot>, i: nat, j: nat): Bytes
    requires Typed(fields, w) && i <= |fields| && (i < |fields| ==> j <= Units(fields[i], w[i]))
  {
    if i == |fields| then [] else SlotRest(fields[i], w[i], j) + MessageBytes(fields, w, i + 1)
  }

  /** The decoder has come to value `j` of field `i` of the message whose encoding it reads. */
  ghost predicate At(fields: seq<Field>, w: seq<Slot>, i: nat, j: nat, m: seq<Slot>, bytes: Bytes) {
    && Typed(fields, w) && Encodable(fields, w) && |bytes| < TWO_32
    && i <= |fields| && (i < |fields| ==> j <= Units(fields[i], w[i]))
    && (i < |fields| && IsPacked(fields[i], w[i]) ==> j == 0 || j == Units(fields[i], w[i]))
    && m == DoneMessage(fields, w, i, j) && bytes == MessageRest(fields, w, i, j)
    && (forall k :: 0 <= k < i ==> SlotComplete(fields[k], w[k]))
    && (i < |fields| ==> PartComplete(fields[i], w[i], j))
  }

  /** ... and there is such a value, unless there are no more fields. */
  ghost predicate Ready(fields: seq<Field>, w: seq<Slot>, i: nat, j: nat, m: seq<Slot>, bytes: Bytes) {
    At(fields, w, i, j, m, bytes) && (i < |fields| ==> HasRecord(fields[i], w[i], j))
  }

  lemma {:induction false} MessageStarts(fields: seq<Field>, w: seq<Slot>, dest: seq<Slot>, bytes: Bytes)
    requires MessageEncoded(fields, w, dest, bytes)
    ensures At(fields, w, 0, 0, dest, bytes)
  {
    hide DefaultSlot, DoneSlot, SlotRest, FieldBytes, SlotTyped, SlotComplete, PartComplete, Units;
    if fields != [] {
      SlotStarts(fields[0], w[0]);
      CompleteEnds(fields[0], w[0]);
    }
    assert dest == DoneMessage(fields, w, 0, 0);
  }

  /** Past a field of which nothing is left. */
  lemma {:induction false} NextAt(fields: seq<Field>, w: seq<Slot>, i: nat, m: seq<Slot>, bytes: Bytes)
    requires i < |fields| && Typed(fields, w) && At(fields, w, i, Units(fields[i], w[i]), m, bytes)
    ensures At(fields, w, i + 1, 0, m, bytes)
  {
    hide DefaultSlot, DoneSlot, SlotRest, FieldBytes, SlotTyped, SlotComplete, PartComplete, Units;
    SlotEnds(fields[i], w[i]);
    CompleteEnds(fields[i], w[i]);
    if i + 1 < |fields| {
      SlotStarts(fields[i + 1], w[i + 1]);
      CompleteEnds(fields[i + 1], w[i + 1]);
    }
    assert m == DoneMessage(fields, w, i + 1, 0);
    assert bytes == MessageRest(fields, w, i + 1, 0);
  }

  /** To the next field that has a record. */
  lemma {:induction false} Settle(fields: seq<Field>, w: seq<Slot>, i: nat, j: nat, m: seq<Slot>, bytes: Bytes)
    returns (i': nat, j': nat)
    requires At(fields, w, i, j, m, bytes)
    ensures Ready(fields, w, i', j', m, bytes) && i' >= i && (i' == i ==> j' == j)
    ensures i' > i ==> j == Units(fields[i], w[i]) && j' == 0
    decreases |fields| - i
  {
    if i == |fields| || j < Units(fields[i], w[i]) {
      i', j' := i, j;
    } else {
      NextAt(fields, w, i, m, bytes);
      i', j' := Settle(fields, w, i + 1, 0, m, bytes);
    }
  }

  /** The bytes after the next record. */
  function AfterRecord(fields: seq<Field>, w: seq<Slot>, i: nat, j: nat): Bytes
    requires Typed(fields, w) && i < |fields| && HasRecord(fields[i], w[i], j)
    requires NextUnit(fields[i], w[i], j) <= Units(fields[i], w[i])
  {
    SlotRest(fields[i], w[i], NextUnit(fields[i], w[i], j)) + MessageBytes(fields, w, i + 1)
  }

  lemma {:induction false} ReadyRecord(fields: seq<Field>, w: seq<Slot>, i: nat, j: nat, m: seq<Slot>, bytes: Bytes)
    requires Ready(fields, w, i, j, m, bytes) && i < |fields| && ValidFields(fields)
    ensures NextUnit(fields[i], w[i], j) <= Units(fields[i], w[i]) && 0 < fields[i].tag < 0x2000_0000
    ensures var payload := Payload(fields[i], w[i], j) + AfterRecord(fields, w, i, j);
            && bytes == TagBytes(fields[i].tag, RecordWire(fields[i], w[i])) + payload
            && RecordEncoded(fields[i], w[i], j, m[i], j, payload, AfterRecord(fields, w, i, j))
  {
    assert ValidField(fields[i]) && SlotTyped(fields[i], w[i]) && SlotEncodable(fields[i], w[i]);
    hide TagBytes, Payload, SlotRest, MessageBytes, SlotTyped, SlotEncodable, DoneSlot, Units, PartComplete, SlotComplete,
      ValidField;
    SlotStep(fields[i], w[i], j);
    RecordFirst(TagBytes(fields[i].tag, RecordWire(fields[i], w[i])), Payload(fields[i], w[i], j),
                SlotRest(fields[i], w[i], NextUnit(fields[i], w[i], j)), MessageBytes(fields, w, i + 1));
    TagValid(fields[i]);
  }

  lemma {:induction false} RecordFirst(tag: Bytes, payload: Bytes, next: Bytes, rest: Bytes)
    ensures tag + (payload + next) + rest == tag + (payload + (next + rest))
  {
  }

  lemma {:induction false} TagValid(f: Field)
    requires ValidField(f)
    ensures 0 < f.tag < 0x2000_0000
  {
  }

  /** Where the decoder is when it has decoded a record. */
  lemma {:induction false} Advance(fields: seq<Field>, w: seq<Slot>, i: nat, j: nat, m: seq<Slot>, bytes: Bytes)
    requires Ready(fields, w, i, j, m, bytes) && i < |fields| && ValidFields(fields)
    requires NextUnit(fields[i], w[i], j) <= Units(fields[i], w[i])
    ensures var next := NextUnit(fields[i], w[i], j);
            RecordComplete(fields[i], w[i], j) ==>
              At(fields, w, i, next, m[i := DoneSlot(fields[i], w[i], next)], AfterRecord(fields, w, i, j))
    ensures !RecordComplete(fields[i], w[i], j) ==> !Complete(fields, w)
  {
    ReadyRecord(fields, w, i, j, m, bytes);
    hide TagBytes, Payload, SlotRest, MessageBytes, DoneSlot, DefaultSlot, SlotComplete, RecordComplete, PartComplete,
      RecordEncoded;
    var f, s := fields[i], w[i];
    var next := NextUnit(f, s, j);
    CompleteStep(f, s, j);
    if RecordComplete(f, s, j) {
      assert m[i := DoneSlot(f, s, next)] == DoneMessage(fields, w, i, next);
    }
  }

  lemma {:induction false} ReadyEnds(fields: seq<Field>, w: seq<Slot>, i: nat, j: nat, m: seq<Slot>, bytes: Bytes)
    requires Ready(fields, w, i, j, m, bytes)
    ensures i == |fields| <==> bytes == []
    ensures i == |fields| ==> m == w && (RequiredPresent(fields, m) <==> Complete(fields, w))
  {
    if i < |fields| {
      SlotStep(fields[i], w[i], j);
    } else {
      assert m == w;
    }
  }

  // ----- the required-field mask -------------------------------------------------------

  /** A bit of the mask is a required field that has been decoded; and the other way round, if the message had none
      at first. */
  ghost predicate Masked(fields: seq<Field>, m: seq<Slot>, seen: FieldsSeen, exact: bool)
    requires |m| == |fields|
  {
    && SeenBelow(seen, RequiredBefore(fields, |fields|))
    && (forall i :: 0 <= i < |fields| && IsCounted(fields, i) && Seen(seen, RequiredBefore(fields, i)) ==> m[i].Present?)
    && (exact ==> forall i :: 0 <= i < |fields| && IsCounted(fields, i) && m[i].Present? ==>
                    Seen(seen, RequiredBefore(fields, i)))
  }

  lemma {:induction false} MaskStarts(fields: seq<Field>, m: seq<Slot>, exact: bool)
    requires |m| == |fields| && (exact ==> m == Defaults(fields))
    ensures Masked(fields, m, FieldsSeen({}, {}), exact)
  {
  }

  /** The mask with the bit of the field at `i`, if it is one that is counted. */
  function MaskAfter(fields: seq<Field>, i: nat, seen: FieldsSeen): FieldsSeen
    requires i < |fields|
  {
    if IsCounted(fields, i) then See(seen, RequiredBefore(fields, i)) else seen
  }

  lemma {:induction false} MaskStep(fields: seq<Field>, m: seq<Slot>, seen: FieldsSeen, exact: bool, i: nat, now: Slot)
    requires |m| == |fields| && Masked(fields, m, seen, exact) && i < |fields|
    requires fields[i].rule.Required? ==> now.Present?
    ensures Masked(fields, Chosen(fields, m, i, now), MaskAfter(fields, i, seen), exact)
  {
    var after := MaskAfter(fields, i, seen);
    if IsCounted(fields, i) {
      RequiredBeforeGrows(fields, i, |fields|);
    }
    forall k | 0 <= k < |fields| && IsCounted(fields, k) && k != i && IsCounted(fields, i)
      ensures RequiredBefore(fields, k) != RequiredBefore(fields, i)
    {
      if k < i {
        RequiredBeforeGrows(fields, k, i);
      } else {
        RequiredBeforeGrows(fields, i, k);
      }
    }
  }

  /** The mask is full exactly if every required field that is counted has been decoded. */
  lemma {:induction false} MaskFull(fields: seq<Field>, m: seq<Slot>, seen: FieldsSeen, exact: bool, count: nat)
    requires |m| == |fields| && Masked(fields, m, seen, exact)
    requires count == if RequiredBefore(fields, |fields|) > MAX_REQUIRED_FIELDS then MAX_REQUIRED_FIELDS
                      else RequiredBefore(fields, |fields|)
    ensures SeenBelow(seen, count)
    ensures (forall k :: 0 <= k < count ==> Seen(seen, k)) ==> RequiredPresent(fields, m)
    ensures exact && RequiredPresent(fields, m) ==> forall k :: 0 <= k < count ==> Seen(seen, k)
  {
    forall i | 0 <= i < |fields| && IsCounted(fields, i) ensures RequiredBefore(fields, i) < count {
      RequiredBeforeGrows(fields, i, |fields|);
    }
    if exact && RequiredPresent(fields, m) {
      forall k | 0 <= k < count ensures Seen(seen, k) {
        var i := RequiredAt(fields, |fields|, k);
        assert IsCounted(fields, i);
      }
    }
  }

  /** The message with this field; in a oneof, it takes the place of the others. */
  function Chosen(fields: seq<Field>, m: seq<Slot>, i: nat, now: Slot): (r: seq<Slot>)
    requires |m| == |fields| && i < |fields|
    ensures |r| == |fields|
  {
    seq(|fields|, k requires 0 <= k < |fields| =>
      if k == i then now
      else if fields[i].rule.Oneof? && fields[k].rule == fields[i].rule then Absent
      else m[k])
  }

  lemma {:induction false} ChosenStored(fields: seq<Field>, m: seq<Slot>, i: nat, now: Slot)
    requires Typed(fields, m) && AllInBounds(fields, m) && i < |fields|
    requires SlotTyped(fields[i], now) && SlotInBounds(fields[i], now)
    ensures Typed(fields, Chosen(fields, m, i, now)) && AllInBounds(fields, Chosen(fields, m, i, now))
  {
    var r := Chosen(fields, m, i, now);
    assert forall k :: 0 <= k < |fields| ==> SlotTyped(fields[k], r[k]);
    assert forall k :: 0 <= k < |fields| ==> SlotInBounds(fields[k], r[k]);
    forall a, b | 0 <= a < b < |fields| ensures !BothPresent(fields, r, a, b) {
      assert !BothPresent(fields, m, a, b);
    }
  }

  /** Decoding an encoding, no other field of a oneof has been present. */
  lemma {:induction false} ChosenAlone(fields: seq<Field>, w: seq<Slot>, i: nat, j: nat, m: seq<Slot>, bytes: Bytes, now: Slot)
    requires Ready(fields, w, i, j, m, bytes) && i < |fields|
    ensures Chosen(fields, m, i, now) == m[i := now]
  {
    var f := fields[i];
    if f.rule.Oneof? {
      forall k | 0 <= k < |fields| && k != i && fields[k].rule == f.rule ensures m[k] == Absent {
        assert SlotTyped(fields[k], w[k]) && SlotTyped(f, w[i]);
        if k < i {
          assert !BothPresent(fields, w, k, i);
        }
      }
    }
  }

  // ----- arrays of a fixed count --------------------------------------------------------

  /** fixed_count_field, -1 for none, and fixed_count_size. */
  predicate FixedKept(fields: seq<Field>, fixedField: int, fixedSize: nat) {
    fixedField == -1
    || (0 <= fixedField < |fields| && fields[fixedField].rule.FixedCount? && fixedSize <= fields[fixedField].rule.count)
  }

  /** The last array of a fixed count is full, or the one being decoded. */
  ghost predicate Tracked(fields: seq<Field>, i: nat, j: nat, fixedField: int, fixedSize: nat) {
    && (i < |fields| && fields[i].rule.FixedCount? && j > 0 ==> fixedField == i)
    && fixedField <= i
    && (0 <= fixedField < |fields| && fields[fixedField].rule.FixedCount? ==>
          fixedSize == if fixedField == i then j else fields[fixedField].rule.count)
  }

  lemma {:induction false} TrackedStart(fields: seq<Field>, w: seq<Slot>, i: nat, j: nat, m: seq<Slot>, bytes: Bytes,
    fixedField: int, fixedSize: nat)
    requires Ready(fields, w, i, j, m, bytes) && i < |fields| && Tracked(fields, i, j, fixedField, fixedSize)
    requires FixedKept(fields, fixedField, fixedSize) && fields[i].rule.FixedCount?
    ensures fixedField != i ==> j == 0 && (fixedField == -1 || fixedSize == fields[fixedField].rule.count)
    ensures fixedField == i ==> fixedSize == j
    ensures Tracked(fields, i, j, i, j) && FixedKept(fields, i, j)
  {
    assert SlotTyped(fields[i], w[i]);
  }

  lemma {:induction false} TrackedNext(fields: seq<Field>, w: seq<Slot>, i: nat, j: nat, i': nat, j': nat,
    fixedField: int, fixedSize: nat)
    requires i < |fields| && Typed(fields, w) && j <= Units(fields[i], w[i])
    requires Tracked(fields, i, j, fixedField, fixedSize)
    requires i' >= i && (i' == i ==> j' == j) && (i' > i ==> j == Units(fields[i], w[i]) && j' == 0)
    ensures Tracked(fields, i', j', fixedField, fixedSize)
  {
    assert SlotTyped(fields[i], w[i]);
  }

  lemma {:induction false} TrackedRecord(fields: seq<Field>, i: nat, j: nat, next: nat, fixedBefore: int, sizeBefore: nat,
    fixedField: int, fixedSize: nat)
    requires i < |fields| && Tracked(fields, i, j, fixedBefore, sizeBefore)
    requires if fields[i].rule.FixedCount? then fixedField == i && fixedSize == next
             else fixedField == fixedBefore && fixedSize == sizeBefore
    ensures Tracked(fields, i, next, fixedField, fixedSize)
  {
  }

  /** The end of pb_decode_noinit: whether each required field that is counted has its bit. */
  method CheckRequired(iter: FieldIter, seen: FieldsSeen, ghost m: seq<Slot>, ghost exact: bool) returns (ok: bool)
    requires iter.Valid() && |m| == |iter.fields| && Masked(iter.fields, m, seen, exact)
    modifies iter
    ensures ok ==> RequiredPresent(iter.fields, m)
    ensures exact && RequiredPresent(iter.fields, m) ==> ok
  {
    hide Masked, RequiredPresent;
    var count := iter.requiredIndex;
    var last := iter.pos;
    var more := iter.Next();
    while more
      invariant iter.Valid() && (more ==> iter.pos == last + 1 < |iter.fields|)
      invariant !more ==> last + 1 >= |iter.fields|
      invariant last <= |iter.fields| && (last < |iter.fields| || iter.fields == [])
      invariant count == RequiredBefore(iter.fields, last)
      decreases more, |iter.fields| - last
    {
      count := iter.requiredIndex;
      last := iter.pos;
      more := iter.Next();
    }
    if |iter.fields| != 0 && iter.fields[last].rule.Required? {
      count := count + 1;
    }
    assert count == RequiredBefore(iter.fields, |iter.fields|);
    if count > MAX_REQUIRED_FIELDS {
      count := MAX_REQUIRED_FIELDS;
    }
    MaskFull(iter.fields, m, seen, exact, count);
    ok := AllSeen(seen, count);
  }

  lemma {:induction false} Begins(fields: seq<Field>, w: seq<Slot>, dest: seq<Slot>, bytes: Bytes) returns (i: nat, j: nat)
    requires MessageEncoded(fields, w, dest, bytes)
    ensures Ready(fields, w, i, j, dest, bytes) && Tracked(fields, i, j, -1, 0) && dest == Defaults(fields)
  {
    MessageStarts(fields, w, dest, bytes);
    i, j := Settle(fields, w, 0, 0, dest, bytes);
  }

  /** The part of pb_decode_noinit that decodes a record of the field at `pos`. */
  method DecodeField(s: InputStream, wire: nat, fields: seq<Field>, pos: nat, requiredIndex: nat, before: seq<Slot>,
    seenBefore: FieldsSeen, fixedFieldBefore: int, fixedSizeBefore: nat,
    ghost known: bool, ghost w: seq<Slot>, ghost i: nat, ghost j: nat, ghost bytes: Bytes)
    returns (ok: bool, m: seq<Slot>, seen: FieldsSeen, fixedField: int, fixedSize: nat, ghost i': nat, ghost j': nat)
    requires s.Valid() && ValidFields(fields) && Typed(fields, before) && AllInBounds(fields, before)
    requires pos < |fields| && requiredIndex == RequiredBefore(fields, pos)
    requires Masked(fields, before, seenBefore, known) && FixedKept(fields, fixedFieldBefore, fixedSizeBefore)
    requires known ==> pos == i && Ready(fields, w, i, j, before, bytes)
    requires known ==> Tracked(fields, i, j, fixedFieldBefore, fixedSizeBefore)
    requires known ==> RecordAt(fields, w, i, j, wire, s.Rest())
    modifies s
    ensures s.Valid() && (ok ==> Follows(old(s.state), old(s.bytesLeft), s.state, s.bytesLeft))
    ensures ok ==> |m| == |fields| && Typed(fields, m) && AllInBounds(fields, m) && Masked(fields, m, seen, known)
    ensures ok ==> FixedKept(fields, fixedField, fixedSize)
    ensures known && !ok ==> !Complete(fields, w)
    ensures known && ok ==> Ready(fields, w, i', j', m, s.Rest()) && Tracked(fields, i', j', fixedField, fixedSize)
    decreases fields, |fields|
  {
    hide Follows, Typed, AllInBounds, Masked, Ready, Tracked, RecordAt, Complete, SlotTyped, SlotInBounds, RecordEncoded,
      RecordComplete, ValidField, ValidFields, Chosen, DoneSlot, At;
    var f := fields[pos];
    m, seen, fixedField, fixedSize, i', j' := before, seenBefore, fixedFieldBefore, fixedSizeBefore, i, j;
    FieldFacts(fields, before, pos);
    ghost var rest: Bytes := [];
    ghost var next: nat := 0;
    if known {
      rest, next := RecordHere(fields, w, i, j, before, bytes, wire, s.Rest());
      if f.rule.FixedCount? {
        TrackedStart(fields, w, i, j, before, bytes, fixedField, fixedSize);
      }
    }
    if f.rule.FixedCount? && fixedField != pos {
      if fixedField != -1 && fixedSize != fields[fixedField].rule.count {
        return false, m, seen, fixedField, fixedSize, i, j;
      }
      fixedField, fixedSize := pos, 0;
    }
    if f.rule.Required? && requiredIndex < MAX_REQUIRED_FIELDS {
      seen := See(seen, requiredIndex);
    }
    assert seen == MaskAfter(fields, pos, seenBefore);
    var now, size;
    ok, now, size := DecodeStatic(s, wire, f, m[pos], if f.rule.FixedCount? then fixedSize else 0, known,
      if known then w[i] else Absent, j, rest);
    if !ok {
      return;
    }
    MaskStep(fields, before, seenBefore, known, pos, now);
    ChosenStored(fields, before, pos, now);
    m := Chosen(fields, before, pos, now);
    if f.rule.FixedCount? {
      fixedSize := size;
    }
    if known {
      ChosenAlone(fields, w, i, j, before, bytes, now);
      i', j' := Settle(fields, w, i, next, m, s.Rest());
      TrackedRecord(fields, i, j, next, fixedFieldBefore, fixedSizeBefore, fixedField, fixedSize);
      TrackedNext(fields, w, i, next, i', j', fixedField, fixedSize);
    }
  }

  /** The stream is at the record of value `j` of field `i`, after its tag. */
  ghost predicate RecordAt(fields: seq<Field>, w: seq<Slot>, i: nat, j: nat, wire: nat, bytes: Bytes) {
    && Typed(fields, w) && i < |fields| && HasRecord(fields[i], w[i], j)
    && NextUnit(fields[i], w[i], j) <= Units(fields[i], w[i])
    && wire == RecordWire(fields[i], w[i]) && bytes == Payload(fields[i], w[i], j) + AfterRecord(fields, w, i, j)
  }

  lemma {:induction false} RecordHere(fields: seq<Field>, w: seq<Slot>, i: nat, j: nat, m: seq<Slot>, before: Bytes,
    wire: nat, bytes: Bytes) returns (rest: Bytes, next: nat)
    requires Ready(fields, w, i, j, m, before) && i < |fields| && ValidFields(fields)
    requires RecordAt(fields, w, i, j, wire, bytes)
    ensures Typed(fields, w) && |m| == |w| == |fields| && SlotTyped(fields[i], w[i]) && HasRecord(fields[i], w[i], j)
    ensures next == NextUnit(fields[i], w[i], j) <= Units(fields[i], w[i]) && wire == RecordWire(fields[i], w[i])
    ensures RecordEncoded(fields[i], w[i], j, m[i], if fields[i].rule.FixedCount? then j else 0, bytes, rest)
    ensures RecordComplete(fields[i], w[i], j) ==> At(fields, w, i, next, m[i := DoneSlot(fields[i], w[i], next)], rest)
    ensures !RecordComplete(fields[i], w[i], j) ==> !Complete(fields, w)
  {
    hide Payload, SlotRest, MessageBytes, DoneSlot, RecordComplete, PartComplete, SlotComplete, Complete, TagBytes;
    rest, next := AfterRecord(fields, w, i, j), NextUnit(fields[i], w[i], j);
    ReadyRecord(fields, w, i, j, m, before);
    Advance(fields, w, i, j, m, before);
  }

  lemma {:induction false} FieldFacts(fields: seq<Field>, m: seq<Slot>, i: nat)
    requires ValidFields(fields) && Typed(fields, m) && AllInBounds(fields, m) && i < |fields|
    ensures |m| == |fields| && ValidField(fields[i]) && SlotTyped(fields[i], m[i]) && SlotInBounds(fields[i], m[i])
  {
  }
  /** pb_decode_noinit: decodes into a message. It succeeds only if the first sixty-four required fields are there,
      and gives a message back from its encoding exactly if they are, in the submessages too. */
  method DecodeNoInit(s: InputStream, fields: seq<Field>, dest: seq<Slot>, ghost known: bool, ghost w: seq<Slot>)
    returns (ok: bool, m: seq<Slot>)
    requires s.Valid() && ValidFields(fields) && Typed(fields, dest) && AllInBounds(fields, dest)
    requires known ==> MessageEncoded(fields, w, dest, s.Rest())
    modifies s
    ensures s.Valid() && (ok ==> Follows(old(s.state), old(s.bytesLeft), s.state, s.bytesLeft))
    ensures ok ==> Typed(fields, m) && AllInBounds(fields, m) && RequiredPresent(fields, m)
    ensures known ==> (ok <==> Complete(fields, w)) && (ok ==> m == w && s.bytesLeft == 0)
    decreases fields, |fields| + 1
  {
    hide Follows, Typed, AllInBounds, Masked, Ready, At, Tracked, RequiredPresent, Complete, MessageEncoded;
    m := dest;
    var iter := new FieldIter(fields);
    var seen := FieldsSeen({}, {});
    var fixedField: int, fixedSize: nat := -1, 0;
    ghost var i: nat, j: nat := 0, 0;
    FollowsSelf(s.state, s.bytesLeft);
    if known {
      i, j := Begins(fields, w, dest, s.Rest());
    }
    TypedLength(fields, dest);
    MaskStarts(fields, dest, known);
    while s.bytesLeft > 0
      invariant s.Valid() && Follows(old(s.state), old(s.bytesLeft), s.state, s.bytesLeft)
      invariant iter.Valid() && iter.fields == fields && |m| == |fields|
      invariant Typed(fields, m) && AllInBounds(fields, m) && Masked(fields, m, seen, known)
      invariant FixedKept(fields, fixedField, fixedSize)
      invariant known ==> Ready(fields, w, i, j, m, s.Rest()) && Tracked(fields, i, j, fixedField, fixedSize)
      decreases s.bytesLeft
    {
      ghost var bytes, state, left := s.Rest(), s.state, s.bytesLeft;
      ghost var number: nat, w0: nat, payload: Bytes := 0, 0, [];
      if known {
        ReadyEnds(fields, w, i, j, m, bytes);
        number, w0, payload := NextTag(fields, w, i, j, m, bytes);
      }
      var eof, tag, wire;
      ok, eof, tag, wire := DecodeTag(s, number, w0, payload);
      FollowsOn(old(s.state), old(s.bytesLeft), state, left, s.state, s.bytesLeft);
      if !ok {
        if eof {
          break;
        }
        return;
      }
      state, left := s.state, s.bytesLeft;
      var found := iter.Find(tag);
      if !found {
        ok := SkipField(s, wire);
        if !ok {
          return;
        }
        FollowsOn(old(s.state), old(s.bytesLeft), state, left, s.state, s.bytesLeft);
        continue;
      }
      if |fields| == 0 {
        // The terminator is found, and decoded as a bool that belongs to no field.
        var v;
        ok, v := DecodeBool(s, false, Number(0), []);
        if !ok {
          return;
        }
        FollowsOn(old(s.state), old(s.bytesLeft), state, left, s.state, s.bytesLeft);
        continue;
      }
      if known {
        SameTag(fields, iter.pos, i);
      }
      ok, m, seen, fixedField, fixedSize, i, j := DecodeField(s, wire, fields, iter.pos, iter.requiredIndex, m, seen,
        fixedField, fixedSize, known, w, i, j, bytes);
      if !ok {
        return;
      }
      FollowsOn(old(s.state), old(s.bytesLeft), state, left, s.state, s.bytesLeft);
    }
    if known {
      ReadyEnds(fields, w, i, j, m, s.Rest());
      TrackedEnds(fields, w, i, j, m, fixedField, fixedSize);
    }
    if fixedField != -1 && fixedSize != fields[fixedField].rule.count {
      return false, m;
    }
    ok := CheckRequired(iter, seen, m, known);
  }

  /** The tag of the next record, and what is after it. */
  lemma {:induction false} NextTag(fields: seq<Field>, w: seq<Slot>, i: nat, j: nat, m: seq<Slot>, bytes: Bytes)
    returns (number: nat, wire: nat, payload: Bytes)
    requires Ready(fields, w, i, j, m, bytes) && ValidFields(fields) && bytes != []
    ensures i < |fields| && number == fields[i].tag && 0 < number < 0x2000_0000 && wire < 8
    ensures bytes == TagBytes(number, wire) + payload && RecordAt(fields, w, i, j, wire, payload)
  {
    ReadyEnds(fields, w, i, j, m, bytes);
    ReadyRecord(fields, w, i, j, m, bytes);
    number, wire := fields[i].tag, RecordWire(fields[i], w[i]);
    payload := Payload(fields[i], w[i], j) + AfterRecord(fields, w, i, j);
  }

  lemma {:induction false} TypedLength(fields: seq<Field>, m: seq<Slot>)
    requires Typed(fields, m)
    ensures |m| == |fields|
  {
  }

  lemma {:induction false} SameTag(fields: seq<Field>, a: nat, b: nat)
    requires ValidFields(fields) && a < |fields| && b < |fields| && fields[a].tag == fields[b].tag
    ensures a == b
  {
  }

  lemma {:induction false} TrackedEnds(fields: seq<Field>, w: seq<Slot>, i: nat, j: nat, m: seq<Slot>,
    fixedField: int, fixedSize: nat)
    requires i == |fields| && Tracked(fields, i, j, fixedField, fixedSize) && FixedKept(fields, fixedField, fixedSize)
    ensures fixedField == -1 || fixedSize == fields[fixedField].rule.count
  {
  }

  /** pb_decode. */
  method Decode(s: InputStream, fields: seq<Field>, ghost known: bool, ghost w: seq<Slot>)
    returns (ok: bool, m: seq<Slot>)
    requires s.Valid() && ValidFields(fields)
    requires known ==> MessageEncoded(fields, w, Defaults(fields), s.Rest())
    modifies s
    ensures s.Valid()
    ensures ok ==> Typed(fields, m) && AllInBounds(fields, m) && RequiredPresent(fields, m)
    ensures known ==> (ok <==> Complete(fields, w)) && (ok ==> m == w && s.bytesLeft == 0)
  {
    DefaultsInBounds(fields);
    ok, m := DecodeNoInit(s, fields, Defaults(fields), known, w);
  }

  // ----- the round trip ----------------------------------------------------------------

  lemma {:induction false} WholeValueIsComplete(t: LType, v: Value)
    requires HasType(t, v) && ValueWhole(t, v)
    ensures ValueComplete(t, v)
    decreases t
  {
    if t.SubmessageType? {
      WholeIsComplete(t.fields, v.slots);
    }
  }

  lemma {:induction false} WholeSlotIsComplete(f: Field, s: Slot)
    requires SlotTyped(f, s) && SlotWhole(f, s)
    ensures SlotComplete(f, s)
    decreases f
  {
    match s
    case Absent =>
    case Present(v) => WholeValueIsComplete(f.ltype, v);
    case Items(vs) =>
      forall j | 0 <= j < |vs| ensures ValueComplete(f.ltype, vs[j]) {
        WholeValueIsComplete(f.ltype, vs[j]);
      }
  }

  /** A message in memory has all its required fields, so the mask accepts its encoding. */
  lemma {:induction false} WholeIsComplete(fields: seq<Field>, m: seq<Slot>)
    requires Typed(fields, m) && Whole(fields, m)
    ensures Complete(fields, m)
    decreases fields
  {
    forall i | 0 <= i < |fields| ensures SlotComplete(fields[i], m[i]) {
      WholeSlotIsComplete(fields[i], m[i]);
    }
    forall i | 0 <= i < |fields| && IsCounted(fields, i) ensures m[i].Present? {
      assert SlotWhole(fields[i], m[i]) && SlotTyped(fields[i], m[i]);
    }
  }

  /** Leaving a required field out of an encoding is noticed exactly if sixty-four required fields do not come before
      it. */
  lemma {:induction false} MissingIsNoticed(fields: seq<Field>, m: seq<Slot>, k: nat)
    requires Typed(fields, m) && Complete(fields, m) && k < |fields| && fields[k].rule.Required?
    ensures Typed(fields, m[k := Absent])
    ensures Complete(fields, m[k := Absent]) <==> RequiredBefore(fields, k) >= MAX_REQUIRED_FIELDS
  {
    var less := m[k := Absent];
    forall a, b | 0 <= a < b < |fields| ensures !BothPresent(fields, less, a, b) {
      assert !BothPresent(fields, m, a, b);
    }
    forall i | 0 <= i < |fields| ensures SlotTyped(fields[i], less[i]) && SlotComplete(fields[i], less[i]) {
      assert SlotTyped(fields[i], m[i]);
    }
    if RequiredBefore(fields, k) < MAX_REQUIRED_FIELDS {
      assert IsCounted(fields, k) && less[k] == Absent;
    } else {
      forall i | 0 <= i < |fields| && IsCounted(fields, i) ensures less[i].Present? {
        assert i != k;
      }
    }
  }

  /** Decoding gives back the message that was encoded. */
  method EncodeThenDecode(fields: seq<Field>, m: seq<Slot>, bufferSize: nat)
    returns (error: Error, ok: bool, back: seq<Slot>)
    requires ValidFields(fields) && Typed(fields, m) && Whole(fields, m)
    ensures error.NoError? <==> Encodable(fields, m) && |MessageBytes(fields, m, 0)| <= bufferSize
    ensures error.NoError? && |MessageBytes(fields, m, 0)| < TWO_32 ==> ok && back == m
  {
    hide Encodable, MessageBytes, Typed, Whole, Complete, ValidFields, Defaults;
    var out := new OutputStream(false, bufferSize);
    error := Encode(out, fields, m);
    ok, back := false, [];
    if error == NoError {
      WholeIsComplete(fields, m);
      var input := new InputStream(out.written, out.bytesWritten);
      ok, back := Decode(input, fields, |MessageBytes(fields, m, 0)| < TWO_32, m);
    }
  }
}
