/** Message descriptors and messages in memory, the field iterator and the mask of required fields of nanopb
    (nanopb/pb.h, nanopb/pb_common.c). Fields are static: no callbacks, extensions or pointers.
 */
module PbCommon {
  import opened Coding

  /** The data types of fields, with the size of their storage. */
  datatype LType =
    | BoolType
    | VarintType(size: nat)
    | UVarintType(size: nat)
    | SVarintType(size: nat)
    | Fixed32Type
    | Fixed64Type
    | BytesType(size: nat)
    | StringType(size: nat)
    | SubmessageType(fields: seq<Field>)
    | FixedBytesType(size: nat)

  /** The repetition rules. `Singular` is an optional field without a has_ flag, `FixedCount` a repeated one without
      a count; the fields of one oneof have the same group. */
  datatype Rule =
    | Required
    | Optional
    | Singular
    | Repeated(max: nat)
    | FixedCount(count: nat)
    | Oneof(group: nat)

  datatype Field = Field(tag: nat, rule: Rule, ltype: LType)

  datatype Value = Number(n: int) | Text(bytes: Bytes) | Message(slots: seq<Slot>)

  /** What a message holds for a field. A required field is absent until it is decoded. */
  datatype Slot = Absent | Present(value: Value) | Items(items: seq<Value>)

  /** The bytes of a `bytes` array before its contents: pb_size_t has 32 bits. */
  const BYTES_HEADER: nat := 4
  const MAX_REQUIRED_FIELDS: nat := 64

  const WT_VARINT: nat := 0
  const WT_64BIT: nat := 1
  const WT_STRING: nat := 2
  const WT_32BIT: nat := 5

  predicate Packable(t: LType) {
    t.BoolType? || t.VarintType? || t.UVarintType? || t.SVarintType? || t.Fixed32Type? || t.Fixed64Type?
  }

  function WireType(t: LType): (w: nat)
    ensures w < 8
  {
    match t
    case BoolType => WT_VARINT
    case VarintType(_) => WT_VARINT
    case UVarintType(_) => WT_VARINT
    case SVarintType(_) => WT_VARINT
    case Fixed32Type => WT_32BIT
    case Fixed64Type => WT_64BIT
    case BytesType(_) => WT_STRING
    case StringType(_) => WT_STRING
    case SubmessageType(_) => WT_STRING
    case FixedBytesType(_) => WT_STRING
  }

  predicate IsWidth(size: nat) {
    size == 1 || size == 2 || size == 4 || size == 8
  }

  /** Half the number of values of an integer of `size` bytes. */
  function Half(size: nat): (h: nat)
    requires IsWidth(size)
    ensures 0 < h <= TWO_64 / 2
  {
    if size == 1 then 0x80 else if size == 2 then 0x8000 else if size == 4 then 0x8000_0000 else 0x8000_0000_0000_0000
  }

  predicate IsSigned(n: int, size: nat) {
    IsWidth(size) ==> -(Half(size) as int) <= n < Half(size)
  }

  predicate IsUnsigned(n: int, size: nat) {
    IsWidth(size) ==> 0 <= n < 2 * Half(size)
  }

  /** The value has the type of its storage. A C string ends at its first NUL, within its buffer. */
  predicate HasType(t: LType, v: Value)
    decreases t
  {
    match t
    case BoolType => v.Number? && (v.n == 0 || v.n == 1)
    case VarintType(size) => v.Number? && IsSigned(v.n, size)
    case UVarintType(size) => v.Number? && IsUnsigned(v.n, size)
    case SVarintType(size) => v.Number? && IsSigned(v.n, size)
    case Fixed32Type => v.Number? && 0 <= v.n < TWO_32
    case Fixed64Type => v.Number? && 0 <= v.n < TWO_64
    case BytesType(_) => v.Text?
    case StringType(size) => v.Text? && |v.bytes| < size && 0 !in v.bytes
    case SubmessageType(fields) => v.Message? && Typed(fields, v.slots)
    case FixedBytesType(size) => v.Text? && |v.bytes| == size
  }

  predicate SlotTyped(f: Field, s: Slot)
    decreases f
  {
    match s
    case Absent => f.rule.Required? || f.rule.Optional? || f.rule.Oneof?
    case Present(v) => !f.rule.Repeated? && !f.rule.FixedCount? && HasType(f.ltype, v)
    case Items(vs) =>
      && (f.rule.Repeated? || (f.rule.FixedCount? && |vs| == f.rule.count))
      && forall j :: 0 <= j < |vs| ==> HasType(f.ltype, vs[j])
  }

  predicate Typed(fields: seq<Field>, m: seq<Slot>)
    decreases fields
  {
    && |m| == |fields|
    && (forall i :: 0 <= i < |fields| ==> SlotTyped(fields[i], m[i]))
    && forall i, j :: 0 <= i < j < |fields| ==> !BothPresent(fields, m, i, j)
  }

  /** Two fields of the same oneof are present. */
  predicate BothPresent(fields: seq<Field>, m: seq<Slot>, i: nat, j: nat)
    requires |m| == |fields| && i < j < |fields|
  {
    fields[i].rule.Oneof? && fields[i].rule == fields[j].rule && m[i].Present? && m[j].Present?
  }

  // ----- the value a message starts with ----------------------------------------

  function Zero(t: LType): (v: Value)
    decreases t
  {
    match t
    case BytesType(_) => Text([])
    case StringType(_) => Text([])
    case SubmessageType(fields) => Message(Defaults(fields))
    case FixedBytesType(size) => Text(seq(size, _ => 0))
    case _ => Number(0)
  }

  function DefaultSlot(f: Field): Slot
    decreases f
  {
    match f.rule
    case Required => Absent
    case Optional => Absent
    case Singular => Present(Zero(f.ltype))
    case Repeated(_) => Items([])
    case FixedCount(count) =>
      var zero := Zero(f.ltype);
      Items(seq(count, _ => zero))
    case Oneof(_) => Absent
  }

  /** pb_message_set_to_defaults, with all defaults zero. */
  function Defaults(fields: seq<Field>): (m: seq<Slot>)
    ensures |m| == |fields|
    decreases fields
  {
    seq(|fields|, i requires 0 <= i < |fields| => DefaultSlot(fields[i]))
  }

  /** pb_check_proto3_default_value, of a field's value by its type. */
  predicate IsZero(t: LType, v: Value)
    requires HasType(t, v)
    decreases t
  {
    match t
    case BytesType(_) => v.bytes == []
    case StringType(_) => v.bytes == []
    case SubmessageType(fields) => AllDefault(fields, v.slots)
    case FixedBytesType(size) => size == 0
    case _ => v.n == 0
  }

  predicate AllDefault(fields: seq<Field>, m: seq<Slot>)
    requires Typed(fields, m)
    decreases fields
  {
    forall i :: 0 <= i < |fields| ==> SlotIsDefault(fields[i], m[i])
  }

  /** pb_check_proto3_default_value. */
  predicate SlotIsDefault(f: Field, s: Slot)
    requires SlotTyped(f, s)
    decreases f
  {
    match f.rule
    case Required => false
    case Optional => s.Absent?
    case Singular => s.Present? && IsZero(f.ltype, s.value)
    case Repeated(_) => s.Items? && s.items == []
    case FixedCount(_) => false
    case Oneof(_) => s.Absent?
  }

  /** A value that counts as zero is the one a message starts with. */
  lemma {:induction false} ZeroIsDefault(t: LType, v: Value)
    requires HasType(t, v) && IsZero(t, v)
    ensures v == Zero(t)
    decreases t
  {
    if t.SubmessageType? {
      AllDefaultIsDefaults(t.fields, v.slots);
    } else if t.FixedBytesType? {
      assert v.bytes == seq(t.size, _ => 0);
    }
  }

  lemma {:induction false} AllDefaultIsDefaults(fields: seq<Field>, m: seq<Slot>)
    requires Typed(fields, m) && AllDefault(fields, m)
    ensures m == Defaults(fields)
    decreases fields
  {
    forall i | 0 <= i < |fields| ensures m[i] == DefaultSlot(fields[i]) {
      SlotDefault(fields[i], m[i]);
    }
  }

  lemma {:induction false} SlotDefault(f: Field, s: Slot)
    requires SlotTyped(f, s) && SlotIsDefault(f, s)
    ensures s == DefaultSlot(f)
    decreases f
  {
    if f.rule.Singular? {
      ZeroIsDefault(f.ltype, s.value);
    }
  }

  /** String storage needs room for the NUL of the empty string. */
  predicate ValidType(t: LType)
    decreases t
  {
    match t
    case StringType(size) => size > 0
    case SubmessageType(fields) => ValidFields(fields)
    case _ => true
  }

  predicate ValidField(f: Field)
    decreases f
  {
    0 < f.tag < 0x2000_0000 && ValidType(f.ltype)
  }

  /** Field numbers are distinct, and fit a tag with a wire type in 32 bits. */
  predicate ValidFields(fields: seq<Field>)
    decreases fields
  {
    && (forall i :: 0 <= i < |fields| ==> ValidField(fields[i]))
    && forall i, j :: 0 <= i < j < |fields| ==> fields[i].tag != fields[j].tag
  }

  lemma {:induction false} ZeroTyped(t: LType)
    requires ValidType(t)
    ensures HasType(t, Zero(t))
    decreases t, 0
  {
    if t.SubmessageType? {
      DefaultsTyped(t.fields);
    }
  }

  lemma {:induction false} DefaultSlotTyped(f: Field)
    requires ValidField(f)
    ensures SlotTyped(f, DefaultSlot(f))
    decreases f, 0
  {
    ZeroTyped(f.ltype);
  }

  /** A message starts as one of its type. */
  lemma {:induction false} DefaultsTyped(fields: seq<Field>)
    requires ValidFields(fields)
    ensures Typed(fields, Defaults(fields))
    decreases fields, 0
  {
    var m := Defaults(fields);
    forall i | 0 <= i < |fields| ensures SlotTyped(fields[i], m[i]) {
      DefaultSlotTyped(fields[i]);
    }
  }

  // ----- the field iterator ------------------------------------------------------

  /** How many of the first `n` fields are required. */
  function RequiredBefore(fields: seq<Field>, n: nat): (c: nat)
    requires n <= |fields|
    ensures c <= n
  {
    if n == 0 then 0 else RequiredBefore(fields, n - 1) + (if fields[n - 1].rule.Required? then 1 else 0)
  }

  lemma {:induction false} RequiredBeforeGrows(fields: seq<Field>, a: nat, b: nat)
    requires a < b <= |fields|
    ensures RequiredBefore(fields, a) + (if fields[a].rule.Required? then 1 else 0) <= RequiredBefore(fields, b)
    decreases b
  {
    if a < b - 1 {
      RequiredBeforeGrows(fields, a, b - 1);
    }
  }

  /** The `k`-th required field. */
  lemma {:induction false} RequiredAt(fields: seq<Field>, n: nat, k: nat) returns (i: nat)
    requires n <= |fields| && k < RequiredBefore(fields, n)
    ensures i < n && fields[i].rule.Required? && RequiredBefore(fields, i) == k
  {
    if k == RequiredBefore(fields, n - 1) {
      i := n - 1;
    } else {
      i := RequiredAt(fields, n - 1, k);
    }
  }

  class FieldIter {
    const fields: seq<Field>
    var pos: nat
    var requiredIndex: nat

    /** The iterator is at a field, and knows how many required ones come before; in a message without fields it
        stays at the terminator. */
    ghost predicate Valid()
      reads this
    {
      && (pos < |fields| || (fields == [] && pos == 0))
      && requiredIndex == RequiredBefore(fields, pos)
    }

    constructor (fields: seq<Field>)
      ensures Valid() && this.fields == fields && pos == 0
    {
      this.fields := fields;
      pos, requiredIndex := 0, 0;
    }

    method Begin() returns (any: bool)
      modifies this
      ensures Valid() && pos == 0 && any == (fields != [])
    {
      pos, requiredIndex := 0, 0;
      any := |fields| != 0;
    }

    /** To the next field; from the last to the first, which is said by `more`. */
    method Next() returns (more: bool)
      requires Valid()
      modifies this
      ensures Valid() && more == (old(pos) + 1 < |fields|)
      ensures pos == if more then old(pos) + 1 else 0
    {
      if pos == |fields| {
        return false;
      }
      var prev := fields[pos];
      if pos + 1 == |fields| {
        var any := Begin();
        return false;
      }
      if prev.rule.Required? {
        requiredIndex := requiredIndex + 1;
      }
      pos := pos + 1;
      more := true;
    }

    /** From where it is, once around: finds a field of this number, if there is one. In a message without fields
        it stays at the terminator, whose number is zero. */
    method Find(tag: nat) returns (found: bool)
      requires Valid()
      modifies this
      ensures Valid()
      ensures found <==> (exists i :: 0 <= i < |fields| && fields[i].tag == tag) || (fields == [] && tag == 0)
      ensures found && fields != [] ==> pos < |fields| && fields[pos].tag == tag
      ensures !found ==> pos == old(pos)
    {
      var start := pos;
      var first := true;
      while first || pos != start
        invariant Valid() && start == old(pos)
        invariant !first ==> forall i :: 0 <= i < |fields| && Passed(start, pos, i) ==> fields[i].tag != tag
        invariant !first && fields == [] ==> tag != 0
        invariant first ==> pos == start
        decreases first, if first then 0 else if pos <= start then start - pos else start + |fields| - pos
      {
        if (if pos < |fields| then fields[pos].tag else 0) == tag {
          return true;
        }
        first := false;
        var more := Next();
      }
      found := false;
    }
  }

  /** Between `start` and `pos`, around the end; everything if they are the same. */
  predicate Passed(start: nat, pos: nat, i: nat) {
    if start < pos then start <= i < pos else start <= i || i < pos
  }

  // ----- the mask of required fields ---------------------------------------------

  /** The bits of a 32-bit word. */
  const ALL_BITS: set<nat> := set k: nat | k < 32

  /** The two words of fields_seen, as the sets of their bits. */
  datatype FieldsSeen = FieldsSeen(low: set<nat>, high: set<nat>)

  predicate Seen(s: FieldsSeen, index: nat)
    requires index < MAX_REQUIRED_FIELDS
  {
    index % 32 in if index / 32 == 0 then s.low else s.high
  }

  function See(s: FieldsSeen, index: nat): (r: FieldsSeen)
    requires index < MAX_REQUIRED_FIELDS
    ensures forall k :: 0 <= k < MAX_REQUIRED_FIELDS ==> (Seen(r, k) <==> k == index || Seen(s, k))
  {
    if index / 32 == 0 then s.(low := s.low + {index % 32}) else s.(high := s.high + {index % 32})
  }

  ghost predicate SeenBelow(s: FieldsSeen, count: nat) {
    && s.low <= ALL_BITS && s.high <= ALL_BITS
    && forall k :: 0 <= k < MAX_REQUIRED_FIELDS && Seen(s, k) ==> k < count
  }

  /** The bits below `n`: all of them shifted right by 32 - n. */
  function LowBits(n: nat): set<nat> {
    set k: nat | k in ALL_BITS && k < n
  }

  /** The end of pb_decode_noinit: whether each of the first `count` required fields has been seen. */
  method AllSeen(s: FieldsSeen, count: nat) returns (all: bool)
    requires count <= MAX_REQUIRED_FIELDS && SeenBelow(s, count)
    ensures all <==> forall k :: 0 <= k < count ==> Seen(s, k)
  {
    var words := [s.low, s.high];
    for i := 0 to count / 32
      invariant forall k :: 0 <= k < 32 * i ==> Seen(s, k)
    {
      if words[i] != ALL_BITS {
        MissingBit(s, words[i], i, 32);
        return false;
      }
      assert forall k :: 32 * i <= k < 32 * i + 32 ==> k % 32 in words[i];
    }
    if count % 32 != 0 {
      var i := count / 32;
      if words[i] != LowBits(count % 32) {
        MissingBit(s, words[i], i, count % 32);
        return false;
      }
      assert forall k :: 32 * i <= k < count ==> k % 32 in words[i];
    }
    all := true;
  }

  lemma {:induction false} MissingBit(s: FieldsSeen, word: set<nat>, i: nat, n: nat)
    requires i < 2 && 0 < n <= 32 && word == (if i == 0 then s.low else s.high) && word != LowBits(n)
    requires SeenBelow(s, 32 * i + n) || n == 32
    requires word <= ALL_BITS
    ensures exists k :: 32 * i <= k < 32 * i + n && !Seen(s, k)
  {
    var lacking, more := LowBits(n) - word, word - LowBits(n);
    if lacking != {} {
      var b :| b in lacking;
      assert !Seen(s, 32 * i + b);
    } else {
      forall b | b in LowBits(n) ensures b in word {
        assert b !in lacking;
      }
      assert more != {};
      var b :| b in more;
      assert b < 32;
      assert Seen(s, 32 * i + b);
      assert false;
    }
  }
}
