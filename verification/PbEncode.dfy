/** The encoder of nanopb (nanopb/pb_encode.c): one pass over a message that sizes it, and one that writes it. */
module PbEncode {
  import opened Coding
  import opened PbCommon

  // ----- the bytes of a message ------------------------------------------------

  function Unsigned64(n: int): int {
    if n < 0 then n + TWO_64 else n
  }

  function ZigZag(n: int): nat {
    if n < 0 then -2 * n - 1 else 2 * n
  }

  function TagBytes(tag: nat, wire: nat): Bytes {
    Varint(tag * 8 + wire)
  }

  function Delimited(b: Bytes): Bytes {
    Varint(|b|) + b
  }

  function ValueBytes(t: LType, v: Value): (b: Bytes)
    requires HasType(t, v)
    decreases t, 0
  {
    match t
    case BoolType => Varint(v.n)
    case VarintType(size) => if IsWidth(size) then Varint(Unsigned64(v.n)) else []
    case UVarintType(size) => if IsWidth(size) then Varint(v.n) else []
    case SVarintType(size) => if IsWidth(size) then Varint(ZigZag(v.n)) else []
    case Fixed32Type => EncodeFixed32(v.n)
    case Fixed64Type => EncodeFixed64(v.n)
    case BytesType(_) => Delimited(v.bytes)
    case StringType(_) => Delimited(v.bytes)
    case SubmessageType(fields) => Delimited(MessageBytes(fields, v.slots, 0))
    case FixedBytesType(_) => Delimited(v.bytes)
  }

  ghost predicate AllTyped(t: LType, vs: seq<Value>) {
    forall j :: 0 <= j < |vs| ==> HasType(t, vs[j])
  }

  /** The values from the `j`-th on, one after the other. */
  function PackedBytes(t: LType, vs: seq<Value>, j: nat): Bytes
    requires AllTyped(t, vs) && j <= |vs|
    decreases t, 1, |vs| - j
  {
    if j == |vs| then [] else ValueBytes(t, vs[j]) + PackedBytes(t, vs, j + 1)
  }

  /** A record for each value from the `j`-th on. */
  function UnpackedBytes(f: Field, vs: seq<Value>, j: nat): Bytes
    requires AllTyped(f.ltype, vs) && j <= |vs|
    decreases f, 0, |vs| - j
  {
    if j == |vs| then []
    else TagBytes(f.tag, WireType(f.ltype)) + ValueBytes(f.ltype, vs[j]) + UnpackedBytes(f, vs, j + 1)
  }

  function FieldBytes(f: Field, s: Slot): Bytes
    requires SlotTyped(f, s)
    decreases f, 1
  {
    match s
    case Absent => []
    case Present(v) =>
      if f.rule.Singular? && IsZero(f.ltype, v) then []
      else TagBytes(f.tag, WireType(f.ltype)) + ValueBytes(f.ltype, v)
    case Items(vs) =>
      if vs == [] then []
      else if Packable(f.ltype) then TagBytes(f.tag, WT_STRING) + Delimited(PackedBytes(f.ltype, vs, 0))
      else UnpackedBytes(f, vs, 0)
  }

  /** The fields from the `i`-th on, in the order of the descriptor. */
  function MessageBytes(fields: seq<Field>, m: seq<Slot>, i: nat): Bytes
    requires Typed(fields, m) && i <= |fields|
    decreases fields, |fields| - i
  {
    if i == |fields| then [] else FieldBytes(fields[i], m[i]) + MessageBytes(fields, m, i + 1)
  }

  // ----- what can be encoded -----------------------------------------------------

  predicate ValueEncodable(t: LType, v: Value)
    requires HasType(t, v)
    decreases t
  {
    match t
    case VarintType(size) => IsWidth(size)
    case UVarintType(size) => IsWidth(size)
    case SVarintType(size) => IsWidth(size)
    case BytesType(size) => |v.bytes| + BYTES_HEADER <= size
    case SubmessageType(fields) => Encodable(fields, v.slots)
    case _ => true
  }

  predicate SlotEncodable(f: Field, s: Slot)
    requires SlotTyped(f, s)
    decreases f
  {
    match s
    case Absent => true
    case Present(v) => (f.rule.Singular? && IsZero(f.ltype, v)) || ValueEncodable(f.ltype, v)
    case Items(vs) =>
      && (f.rule.Repeated? ==> |vs| <= f.rule.max)
      && forall j :: 0 <= j < |vs| ==> ValueEncodable(f.ltype, vs[j])
  }

  /** Arrays are within their bounds and integers have a size the encoder knows. */
  predicate Encodable(fields: seq<Field>, m: seq<Slot>)
    requires Typed(fields, m)
    decreases fields
  {
    forall i :: 0 <= i < |fields| ==> SlotEncodable(fields[i], m[i])
  }

  predicate ValueWhole(t: LType, v: Value)
    requires HasType(t, v)
    decreases t
  {
    t.SubmessageType? ==> Whole(t.fields, v.slots)
  }

  predicate SlotWhole(f: Field, s: Slot)
    requires SlotTyped(f, s)
    decreases f
  {
    match s
    case Absent => !f.rule.Required?
    case Present(v) => ValueWhole(f.ltype, v)
    case Items(vs) => forall j :: 0 <= j < |vs| ==> ValueWhole(f.ltype, vs[j])
  }

  /** Required fields have a value, as they have in memory. */
  predicate Whole(fields: seq<Field>, m: seq<Slot>)
    requires Typed(fields, m)
    decreases fields
  {
    forall i :: 0 <= i < |fields| ==> SlotWhole(fields[i], m[i])
  }

  // ----- output streams ------------------------------------------------------------

  datatype Error = NoError | StreamFull | ArrayTooLong | BytesTooLong | BadDataSize | SubmessageSizeChanged

  datatype Out = Out(written: Bytes, count: nat)

  /** A stream without a callback, which sizes, or one that writes to a buffer. */
  class OutputStream {
    const sizing: bool
    const maxSize: nat
    var written: Bytes
    var bytesWritten: nat

    ghost predicate Valid()
      reads this
    {
      if sizing then written == [] else |written| == bytesWritten <= maxSize
    }

    constructor (sizing: bool, maxSize: nat)
      ensures Valid() && this.sizing == sizing && this.maxSize == maxSize && written == [] && bytesWritten == 0
    {
      this.sizing, this.maxSize := sizing, maxSize;
      written, bytesWritten := [], 0;
    }

    function State(): Out
      reads this
    {
      Out(written, bytesWritten)
    }

    /** pb_write. */
    method Write(b: Bytes) returns (error: Error)
      requires Valid()
      modifies this
      ensures Valid() && Outcome(sizing, maxSize, old(State()), State(), b, true, error)
    {
      if |b| > 0 && !sizing {
        if bytesWritten + |b| > maxSize {
          return StreamFull;
        }
        written := written + b;
      }
      bytesWritten := bytesWritten + |b|;
      error := NoError;
    }

    /** pb_write of a null buffer to a sizing stream. */
    method Skip(ghost b: Bytes, size: nat) returns (error: Error)
      requires Valid() && sizing && size == |b|
      modifies this
      ensures Valid() && Outcome(sizing, maxSize, old(State()), State(), b, true, error)
    {
      bytesWritten := bytesWritten + size;
      error := NoError;
    }
  }

  /** An encoder has written `b`, or counted its bytes; it fails exactly if it cannot encode or `b` does not fit. */
  predicate Outcome(sizing: bool, maxSize: nat, before: Out, after: Out, b: Bytes, encodable: bool, error: Error) {
    && error != SubmessageSizeChanged
    && (error.NoError? <==> encodable && (sizing || before.count + |b| <= maxSize))
    && (error.NoError? ==> after == Out(if sizing then before.written else before.written + b, before.count + |b|))
  }

  lemma {:induction false} OutcomeThen(sizing: bool, maxSize: nat, o0: Out, o1: Out, o2: Out, b1: Bytes, e1: bool,
    b2: Bytes, e2: bool, error: Error)
    requires Outcome(sizing, maxSize, o0, o1, b1, e1, NoError)
    requires Outcome(sizing, maxSize, o1, o2, b2, e2, error)
    ensures Outcome(sizing, maxSize, o0, o2, b1 + b2, e1 && e2, error)
  {
    assert o0.written + b1 + b2 == o0.written + (b1 + b2);
  }

  lemma {:induction false} OutcomeStops(sizing: bool, maxSize: nat, o0: Out, o1: Out, b1: Bytes, e1: bool, b2: Bytes, e2: bool,
    error: Error)
    requires Outcome(sizing, maxSize, o0, o1, b1, e1, error) && !error.NoError?
    ensures Outcome(sizing, maxSize, o0, o1, b1 + b2, e1 && e2, error)
  {
  }

  // ----- the encoder ---------------------------------------------------------------

  /** One more byte in the buffer of pb_encode_varint; `done` is what the buffer is to become, but for the top bit of
      the last byte. */
  lemma {:induction false} NextDigit(value: nat, b: Bytes, v: nat)
    requires v > 0 && Varint(value) == b + Varint(v)
    ensures v / 128 > 0 ==> Varint(value) == (b + [v % 128 + 128]) + Varint(v / 128)
    ensures v / 128 == 0 ==> Varint(value) == b + [v % 128]
  {
    if v >= 128 {
      VarintStep(v);
      assert b + ([v % 128 + 128] + Varint(v / 128)) == (b + [v % 128 + 128]) + Varint(v / 128);
    }
  }

  /** The buffer pb_encode_varint fills. */
  method VarintBuffer(value: nat) returns (b: Bytes)
    ensures b == Varint(value)
  {
    if value <= 0x7F {
      return [value];
    }
    hide Varint;
    var v: nat := value;
    ghost var front: Bytes := [];
    ghost var last: nat := 0;
    b := [];
    assert Varint(value) == b + Varint(v);
    while v != 0
      invariant v > 0 ==> Varint(value) == b + Varint(v)
      invariant v == 0 ==> last < 128 && b == front + [last + 128] && Varint(value) == front + [last]
      decreases v
    {
      NextDigit(value, b, v);
      front, last := b, v % 128;
      b, v := b + [v % 128 + 128], v / 128;
    }
    b := b[..|b| - 1] + [b[|b| - 1] - 128];
  }

  /** pb_encode_varint. */
  method EncodeVarint(s: OutputStream, value: nat) returns (error: Error)
    requires s.Valid()
    modifies s
    ensures s.Valid() && Outcome(s.sizing, s.maxSize, old(s.State()), s.State(), Varint(value), true, error)
  {
    hide Outcome, Varint;
    var buffer := VarintBuffer(value);
    error := s.Write(buffer);
  }

  /** In 64 bits, the complement of a negative number's double is its zigzag number. */
  lemma {:induction false} ShiftedSign(n: int)
    requires -(TWO_64 as int) / 2 <= n < TWO_64 / 2
    ensures Unsigned64(n) >= 0
    ensures n < 0 ==> TWO_64 - 1 - Unsigned64(n) * 2 % TWO_64 == ZigZag(n)
    ensures n >= 0 ==> Unsigned64(n) * 2 % TWO_64 == ZigZag(n)
  {
    if n < 0 {
      assert Unsigned64(n) * 2 == TWO_64 + (TWO_64 + 2 * n);
    }
  }

  /** pb_encode_svarint. */
  method EncodeSVarint(s: OutputStream, value: int) returns (error: Error)
    requires s.Valid() && -(TWO_64 as int) / 2 <= value < TWO_64 / 2
    modifies s
    ensures s.Valid() && Outcome(s.sizing, s.maxSize, old(s.State()), s.State(), Varint(ZigZag(value)), true, error)
  {
    hide Outcome, Varint;
    ShiftedSign(value);
    hide Unsigned64, ZigZag;
    var shifted := Unsigned64(value) * 2 % TWO_64;
    var zigzagged := if value < 0 then TWO_64 - 1 - shifted else shifted;
    error := EncodeVarint(s, zigzagged);
  }

  /** pb_encode_tag. */
  method EncodeTag(s: OutputStream, wire: nat, tag: nat) returns (error: Error)
    requires s.Valid()
    modifies s
    ensures s.Valid() && Outcome(s.sizing, s.maxSize, old(s.State()), s.State(), TagBytes(tag, wire), true, error)
  {
    error := EncodeVarint(s, tag * 8 + wire);
  }

  /** pb_encode_string. */
  method EncodeString(s: OutputStream, b: Bytes) returns (error: Error)
    requires s.Valid()
    modifies s
    ensures s.Valid() && Outcome(s.sizing, s.maxSize, old(s.State()), s.State(), Delimited(b), true, error)
  {
    hide Varint, Outcome;
    error := EncodeVarint(s, |b|);
    if error != NoError {
      OutcomeStops(s.sizing, s.maxSize, old(s.State()), s.State(), Varint(|b|), true, b, true, error);
      return;
    }
    ghost var o := s.State();
    error := s.Write(b);
    OutcomeThen(s.sizing, s.maxSize, old(s.State()), o, s.State(), Varint(|b|), true, b, true, error);
  }

  /** pb_check_proto3_default_value of a submessage. */
  method CheckDefaults(fields: seq<Field>, m: seq<Slot>) returns (all: bool)
    requires Typed(fields, m)
    ensures all == AllDefault(fields, m)
    decreases fields, 0
  {
    var iter := new FieldIter(fields);
    var more := iter.Begin();
    ghost var i := 0;
    while more
      invariant iter.Valid() && i <= |fields| && (more ==> i == iter.pos < |fields|) && (!more ==> i == |fields|)
      invariant forall k :: 0 <= k < i ==> SlotIsDefault(fields[k], m[k])
      decreases |fields| - i
    {
      var isDefault := CheckDefault(fields[iter.pos], m[iter.pos]);
      if !isDefault {
        return false;
      }
      i := i + 1;
      more := iter.Next();
    }
    all := true;
  }

  /** pb_check_proto3_default_value. */
  method CheckDefault(f: Field, s: Slot) returns (isDefault: bool)
    requires SlotTyped(f, s)
    ensures isDefault == SlotIsDefault(f, s)
    decreases f, 0
  {
    match f.rule
    case Required => isDefault := false;
    case Repeated(_) => isDefault := |s.items| == 0;
    case FixedCount(_) => isDefault := false;
    case Oneof(_) => isDefault := s.Absent?;
    case Optional => isDefault := s.Absent?;
    case Singular =>
      match f.ltype
      case BytesType(_) => isDefault := |s.value.bytes| == 0;
      case StringType(_) => isDefault := |s.value.bytes| == 0;
      case FixedBytesType(size) => isDefault := size == 0;
      case SubmessageType(fields) => isDefault := CheckDefaults(fields, s.value.slots);
      case _ => isDefault := s.value.n == 0;
  }

  /** The encoders of PB_ENCODERS. */
  method EncodeValue(s: OutputStream, t: LType, v: Value) returns (error: Error)
    requires s.Valid() && HasType(t, v) && ValueWhole(t, v)
    modifies s
    ensures s.Valid()
    ensures Outcome(s.sizing, s.maxSize, old(s.State()), s.State(), ValueBytes(t, v), ValueEncodable(t, v), error)
    decreases t, 0
  {
    hide Outcome, Varint, Delimited;
    match t
    case BoolType => error := EncodeVarint(s, v.n);
    case VarintType(size) =>
      if !IsWidth(size) {
        Refused(s, ValueBytes(t, v), BadDataSize);
        return BadDataSize;
      }
      error := EncodeVarint(s, Unsigned64(v.n));
    case UVarintType(size) =>
      if !IsWidth(size) {
        Refused(s, ValueBytes(t, v), BadDataSize);
        return BadDataSize;
      }
      error := EncodeVarint(s, v.n);
    case SVarintType(size) =>
      if !IsWidth(size) {
        Refused(s, ValueBytes(t, v), BadDataSize);
        return BadDataSize;
      }
      error := EncodeSVarint(s, v.n);
    case Fixed32Type => error := s.Write(EncodeFixed32(v.n));
    case Fixed64Type => error := s.Write(EncodeFixed64(v.n));
    case BytesType(size) =>
      if |v.bytes| + BYTES_HEADER > size {
        Refused(s, ValueBytes(t, v), BytesTooLong);
        return BytesTooLong;
      }
      error := EncodeString(s, v.bytes);
    case StringType(_) => error := EncodeString(s, v.bytes);
    case SubmessageType(fields) => error := EncodeSubmessage(s, fields, v.slots);
    case FixedBytesType(_) => error := EncodeString(s, v.bytes);
  }

  lemma {:induction false} Refused(s: OutputStream, b: Bytes, error: Error)
    requires error != NoError && error != SubmessageSizeChanged
    ensures Outcome(s.sizing, s.maxSize, s.State(), s.State(), b, false, error)
  {
  }

  /** pb_encode_submessage: sizes the submessage, then writes it to a stream of that size. */
  method EncodeSubmessage(s: OutputStream, fields: seq<Field>, m: seq<Slot>) returns (error: Error)
    requires s.Valid() && Typed(fields, m) && Whole(fields, m)
    modifies s
    ensures s.Valid()
    ensures Outcome(s.sizing, s.maxSize, old(s.State()), s.State(), Delimited(MessageBytes(fields, m, 0)),
                    Encodable(fields, m), error)
    decreases fields, |fields| + 1
  {
    hide Varint, MessageBytes, Encodable, Typed, Whole;
    ghost var b, encodable := MessageBytes(fields, m, 0), Encodable(fields, m);
    var sizes := new OutputStream(true, 0);
    error := Encode(sizes, fields, m);
    if error != NoError {
      return;
    }
    var size := sizes.bytesWritten;
    assert size == |b|;
    ghost var o0 := s.State();
    error := EncodeVarint(s, size);
    if error != NoError {
      OutcomeStops(s.sizing, s.maxSize, o0, s.State(), Varint(size), true, b, encodable, error);
      return;
    }
    ghost var o1 := s.State();
    if s.sizing {
      error := s.Skip(b, size);
      OutcomeThen(s.sizing, s.maxSize, o0, o1, s.State(), Varint(size), true, b, encodable, error);
      return;
    }
    if s.bytesWritten + size > s.maxSize {
      return StreamFull;
    }
    var substream := new OutputStream(false, size);
    error := Encode(substream, fields, m);
    s.written := s.written + substream.written;
    s.bytesWritten := s.bytesWritten + substream.bytesWritten;
    if substream.bytesWritten != size {
      return SubmessageSizeChanged;
    }
    OutcomeThen(s.sizing, s.maxSize, o0, o1, s.State(), Varint(size), true, b, encodable, error);
  }

  /** pb_encode. */
  method Encode(s: OutputStream, fields: seq<Field>, m: seq<Slot>) returns (error: Error)
    requires s.Valid() && Typed(fields, m) && Whole(fields, m)
    modifies s
    ensures s.Valid()
    ensures Outcome(s.sizing, s.maxSize, old(s.State()), s.State(), MessageBytes(fields, m, 0), Encodable(fields, m), error)
    decreases fields, |fields|
  {
    hide Outcome, MessageBytes, Encodable, FieldBytes, SlotEncodable, SlotWhole, SlotTyped;
    var iter := new FieldIter(fields);
    var more := iter.Begin();
    error := NoError;
    ghost var i := 0;
    ghost var sofar: Bytes := [];
    Nothing(s.sizing, s.maxSize, s.State());
    while more
      invariant s.Valid() && iter.Valid() && i <= |fields| && error == NoError
      invariant (more ==> i == iter.pos < |fields|) && (!more ==> i == |fields|)
      invariant Outcome(s.sizing, s.maxSize, old(s.State()), s.State(), sofar, true, NoError)
      invariant sofar + MessageBytes(fields, m, i) == MessageBytes(fields, m, 0)
      invariant forall k :: 0 <= k < i ==> SlotEncodable(fields[k], m[k])
      decreases |fields| - i
    {
      ghost var o := s.State();
      ghost var b, e := FieldBytes(fields[i], m[i]), SlotEncodable(fields[i], m[i]);
      error := EncodeField(s, fields[iter.pos], m[iter.pos]);
      NextField(fields, m, i);
      OutcomeStep(s.sizing, s.maxSize, old(s.State()), o, s.State(), sofar, b, e, MessageBytes(fields, m, i + 1),
                  Encodable(fields, m), error);
      if error != NoError {
        return;
      }
      sofar, i := sofar + b, i + 1;
      more := iter.Next();
    }
    NoMoreFields(fields, m);
    assert sofar == MessageBytes(fields, m, 0);
  }

  lemma {:induction false} Nothing(sizing: bool, maxSize: nat, o: Out)
    requires sizing || o.count <= maxSize
    ensures Outcome(sizing, maxSize, o, o, [], true, NoError)
  {
  }

  lemma {:induction false} NextField(fields: seq<Field>, m: seq<Slot>, i: nat)
    requires Typed(fields, m) && i < |fields|
    ensures MessageBytes(fields, m, i) == FieldBytes(fields[i], m[i]) + MessageBytes(fields, m, i + 1)
    ensures !SlotEncodable(fields[i], m[i]) ==> !Encodable(fields, m)
  {
  }

  lemma {:induction false} NoMoreFields(fields: seq<Field>, m: seq<Slot>)
    requires Typed(fields, m)
    ensures MessageBytes(fields, m, |fields|) == []
    ensures (forall i :: 0 <= i < |fields| ==> SlotEncodable(fields[i], m[i])) ==> Encodable(fields, m)
  {
  }

  /** One step of a loop of encoders: `b` after what is written so far, and before what is left. If it fails, so has
      the whole. */
  lemma {:induction false} OutcomeStep(sizing: bool, maxSize: nat, o0: Out, o1: Out, o2: Out, sofar: Bytes, b: Bytes, e: bool,
    left: Bytes, all: bool, error: Error)
    requires Outcome(sizing, maxSize, o0, o1, sofar, true, NoError)
    requires Outcome(sizing, maxSize, o1, o2, b, e, error) && (all ==> e)
    ensures error.NoError? ==> e && Outcome(sizing, maxSize, o0, o2, sofar + b, true, NoError)
    ensures !error.NoError? ==> Outcome(sizing, maxSize, o0, o2, sofar + (b + left), all, error)
    ensures sofar + (b + left) == (sofar + b) + left
  {
    OutcomeThen(sizing, maxSize, o0, o1, o2, sofar, true, b, e, error);
    if !error.NoError? {
      OutcomeStops(sizing, maxSize, o0, o2, sofar + b, e, left, all, error);
    }
  }

  predicate AllEncodable(t: LType, vs: seq<Value>)
    requires AllTyped(t, vs)
  {
    forall j :: 0 <= j < |vs| ==> ValueEncodable(t, vs[j])
  }

  /** Encodes the values of an array one after the other, without tags. */
  method EncodeValues(s: OutputStream, t: LType, vs: seq<Value>) returns (error: Error)
    requires s.Valid() && AllTyped(t, vs) && !t.SubmessageType?
    modifies s
    ensures s.Valid()
    ensures Outcome(s.sizing, s.maxSize, old(s.State()), s.State(), PackedBytes(t, vs, 0), AllEncodable(t, vs), error)
    decreases t, 1
  {
    hide Outcome, ValueBytes, ValueEncodable, HasType;
    error := NoError;
    ghost var sofar: Bytes := [];
    Nothing(s.sizing, s.maxSize, s.State());
    for j := 0 to |vs|
      invariant s.Valid() && error == NoError
      invariant Outcome(s.sizing, s.maxSize, old(s.State()), s.State(), sofar, true, NoError)
      invariant sofar + PackedBytes(t, vs, j) == PackedBytes(t, vs, 0)
      invariant forall k :: 0 <= k < j ==> ValueEncodable(t, vs[k])
    {
      ghost var o := s.State();
      ghost var b, e := ValueBytes(t, vs[j]), ValueEncodable(t, vs[j]);
      error := EncodeValue(s, t, vs[j]);
      OutcomeStep(s.sizing, s.maxSize, old(s.State()), o, s.State(), sofar, b, e, PackedBytes(t, vs, j + 1),
                  AllEncodable(t, vs), error);
      if error != NoError {
        return;
      }
      sofar := sofar + b;
    }
    assert sofar == PackedBytes(t, vs, 0);
  }

  lemma {:induction false} FixedSizes(t: LType, vs: seq<Value>, j: nat)
    requires (t.Fixed32Type? || t.Fixed64Type?) && AllTyped(t, vs) && j <= |vs|
    ensures |PackedBytes(t, vs, j)| == (if t.Fixed32Type? then 4 else 8) * (|vs| - j) && AllEncodable(t, vs)
    decreases |vs| - j
  {
    if j < |vs| {
      FixedSizes(t, vs, j + 1);
    }
  }

  /** The size of a packed array. */
  method PackedSize(t: LType, vs: seq<Value>) returns (size: nat, error: Error)
    requires AllTyped(t, vs) && !t.SubmessageType?
    ensures error != SubmessageSizeChanged && (error.NoError? <==> AllEncodable(t, vs))
    ensures error.NoError? ==> size == |PackedBytes(t, vs, 0)|
    decreases t, 2
  {
    hide ValueBytes, ValueEncodable, HasType, PackedBytes;
    size, error := 0, NoError;
    if t.Fixed32Type? {
      FixedSizes(t, vs, 0);
      size := 4 * |vs|;
    } else if t.Fixed64Type? {
      FixedSizes(t, vs, 0);
      size := 8 * |vs|;
    } else {
      var sizes := new OutputStream(true, 0);
      error := EncodeValues(sizes, t, vs);
      size := sizes.bytesWritten;
    }
  }

  /** encode_array of a type that can be packed, after the tag. */
  method EncodePacked(s: OutputStream, t: LType, vs: seq<Value>) returns (error: Error)
    requires s.Valid() && AllTyped(t, vs) && !t.SubmessageType?
    modifies s
    ensures s.Valid()
    ensures Outcome(s.sizing, s.maxSize, old(s.State()), s.State(), Delimited(PackedBytes(t, vs, 0)), AllEncodable(t, vs),
                    error)
    decreases t, 3
  {
    hide Varint, PackedBytes, AllEncodable, AllTyped, ValueEncodable, HasType;
    ghost var b, e := PackedBytes(t, vs, 0), AllEncodable(t, vs);
    var size;
    size, error := PackedSize(t, vs);
    if error != NoError {
      return;
    }
    hide Outcome;
    ghost var o0 := s.State();
    error := EncodeVarint(s, size);
    if error != NoError {
      OutcomeStops(s.sizing, s.maxSize, o0, s.State(), Varint(size), true, b, e, error);
      return;
    }
    ghost var o1 := s.State();
    if s.sizing {
      error := s.Skip(b, size);
      OutcomeThen(s.sizing, s.maxSize, o0, o1, s.State(), Varint(size), true, b, true, error);
    } else {
      error := EncodeValues(s, t, vs);
      OutcomeThen(s.sizing, s.maxSize, o0, o1, s.State(), Varint(size), true, b, e, error);
    }
  }

  /** encode_array: packed if the type allows it, a record for each value if not. */
  method EncodeArray(s: OutputStream, f: Field, vs: seq<Value>, max: nat) returns (error: Error)
    requires s.Valid() && AllTyped(f.ltype, vs) && forall j :: 0 <= j < |vs| ==> ValueWhole(f.ltype, vs[j])
    requires SlotTyped(f, Items(vs)) && max == if f.rule.Repeated? then f.rule.max else f.rule.count
    modifies s
    ensures s.Valid()
    ensures Outcome(s.sizing, s.maxSize, old(s.State()), s.State(), FieldBytes(f, Items(vs)), SlotEncodable(f, Items(vs)),
                    error)
    decreases f, 1
  {
    hide Outcome, TagBytes, Delimited, PackedBytes;
    if |vs| == 0 {
      Nothing(s.sizing, s.maxSize, s.State());
      return NoError;
    }
    if |vs| > max {
      Refused(s, FieldBytes(f, Items(vs)), ArrayTooLong);
      return ArrayTooLong;
    }
    assert SlotEncodable(f, Items(vs)) == AllEncodable(f.ltype, vs);
    if Packable(f.ltype) {
      hide AllEncodable, SlotEncodable;
      ghost var o0 := s.State();
      ghost var b1, b2, e := TagBytes(f.tag, WT_STRING), Delimited(PackedBytes(f.ltype, vs, 0)), AllEncodable(f.ltype, vs);
      error := EncodeTag(s, WT_STRING, f.tag);
      if error != NoError {
        OutcomeStops(s.sizing, s.maxSize, o0, s.State(), b1, true, b2, e, error);
        return;
      }
      ghost var o1 := s.State();
      error := EncodePacked(s, f.ltype, vs);
      OutcomeThen(s.sizing, s.maxSize, o0, o1, s.State(), b1, true, b2, e, error);
    } else {
      error := EncodeRecords(s, f, vs);
    }
  }

  /** encode_array of a type that cannot be packed. */
  method EncodeRecords(s: OutputStream, f: Field, vs: seq<Value>) returns (error: Error)
    requires s.Valid() && AllTyped(f.ltype, vs) && forall j :: 0 <= j < |vs| ==> ValueWhole(f.ltype, vs[j])
    modifies s
    ensures s.Valid()
    ensures Outcome(s.sizing, s.maxSize, old(s.State()), s.State(), UnpackedBytes(f, vs, 0), AllEncodable(f.ltype, vs), error)
    decreases f, 0, 1
  {
    hide Outcome, ValueBytes, ValueEncodable, HasType, TagBytes;
    error := NoError;
    ghost var sofar: Bytes := [];
    Nothing(s.sizing, s.maxSize, s.State());
    for j := 0 to |vs|
      invariant s.Valid() && error == NoError
      invariant Outcome(s.sizing, s.maxSize, old(s.State()), s.State(), sofar, true, NoError)
      invariant sofar + UnpackedBytes(f, vs, j) == UnpackedBytes(f, vs, 0)
      invariant forall k :: 0 <= k < j ==> ValueEncodable(f.ltype, vs[k])
    {
      ghost var o := s.State();
      ghost var b, e := TagBytes(f.tag, WireType(f.ltype)) + ValueBytes(f.ltype, vs[j]), ValueEncodable(f.ltype, vs[j]);
      error := EncodeRecord(s, f, vs[j]);
      OutcomeStep(s.sizing, s.maxSize, old(s.State()), o, s.State(), sofar, b, e, UnpackedBytes(f, vs, j + 1),
                  AllEncodable(f.ltype, vs), error);
      if error != NoError {
        return;
      }
      sofar := sofar + b;
    }
    assert sofar == UnpackedBytes(f, vs, 0);
  }

  /** encode_basic_field of a static field. */
  method EncodeField(s: OutputStream, f: Field, slot: Slot) returns (error: Error)
    requires s.Valid() && SlotTyped(f, slot) && SlotWhole(f, slot)
    modifies s
    ensures s.Valid()
    ensures Outcome(s.sizing, s.maxSize, old(s.State()), s.State(), FieldBytes(f, slot), SlotEncodable(f, slot), error)
    decreases f, 2
  {
    hide Outcome;
    Nothing(s.sizing, s.maxSize, s.State());
    match f.rule
    case Required => error := EncodeRecord(s, f, slot.value);
    case Optional =>
      if slot.Absent? {
        return NoError;
      }
      error := EncodeRecord(s, f, slot.value);
    case Singular =>
      var isDefault := CheckDefault(f, slot);
      if isDefault {
        return NoError;
      }
      error := EncodeRecord(s, f, slot.value);
    case Repeated(max) => error := EncodeArray(s, f, slot.items, max);
    case FixedCount(count) => error := EncodeArray(s, f, slot.items, count);
    case Oneof(_) =>
      if slot.Absent? {
        return NoError;
      }
      error := EncodeRecord(s, f, slot.value);
  }

  /** pb_encode_tag_for_field, and the value. */
  method EncodeRecord(s: OutputStream, f: Field, v: Value) returns (error: Error)
    requires s.Valid() && HasType(f.ltype, v) && ValueWhole(f.ltype, v)
    modifies s
    ensures s.Valid()
    ensures Outcome(s.sizing, s.maxSize, old(s.State()), s.State(),
                    TagBytes(f.tag, WireType(f.ltype)) + ValueBytes(f.ltype, v), ValueEncodable(f.ltype, v), error)
    decreases f, 0, 0
  {
    hide Outcome, ValueBytes, ValueEncodable, HasType, ValueWhole, TagBytes;
    ghost var o0 := s.State();
    ghost var b1, b2, e := TagBytes(f.tag, WireType(f.ltype)), ValueBytes(f.ltype, v), ValueEncodable(f.ltype, v);
    error := EncodeTag(s, WireType(f.ltype), f.tag);
    if error != NoError {
      OutcomeStops(s.sizing, s.maxSize, o0, s.State(), b1, true, b2, e, error);
      return;
    }
    ghost var o1 := s.State();
    error := EncodeValue(s, f.ltype, v);
    OutcomeThen(s.sizing, s.maxSize, o0, o1, s.State(), b1, true, b2, e, error);
  }

  /** pb_get_encoded_size. */
  method GetEncodedSize(fields: seq<Field>, m: seq<Slot>) returns (size: nat, error: Error)
    requires Typed(fields, m) && Whole(fields, m)
    ensures error != SubmessageSizeChanged && (error.NoError? <==> Encodable(fields, m))
    ensures error.NoError? ==> size == |MessageBytes(fields, m, 0)|
  {
    hide Encodable, MessageBytes, Typed, Whole;
    var sizes := new OutputStream(true, 0);
    error := Encode(sizes, fields, m);
    size := sizes.bytesWritten;
  }

  /** The two passes agree: a buffer of the size the first pass counts is filled exactly by the second, and a smaller
      one is too small. */
  method SizeThenWrite(fields: seq<Field>, m: seq<Slot>, less: nat) returns (size: nat, written: Bytes, error: Error)
    requires Typed(fields, m) && Whole(fields, m)
    ensures error != SubmessageSizeChanged
    ensures !Encodable(fields, m) ==> !error.NoError?
    ensures Encodable(fields, m) && less == 0 ==> error.NoError? && |written| == size && written == MessageBytes(fields, m, 0)
    ensures Encodable(fields, m) && 0 < less <= size ==> !error.NoError?
  {
    hide Encodable, MessageBytes, Typed, Whole;
    written := [];
    size, error := GetEncodedSize(fields, m);
    if error != NoError {
      return;
    }
    var out := new OutputStream(false, if less <= size then size - less else 0);
    error := Encode(out, fields, m);
    written := out.written;
  }
}
