/** Reading a block (table/block.cc): decoding entries, and an iterator that moves forward, moves back by
    rescanning from a restart point, and seeks by binary search over the restart points.

    Keys are compared by their rank under the block's comparator.
 */
module Blocks {
  import opened DbFormat
  import opened Coding
  import opened BlockFormat

  /** The restart array's place and length, None if the contents cannot be a block (Block::Block). */
  datatype Trailer = Trailer(restarts: nat, count: nat)

  function OpenBlock(data: Bytes): Option<Trailer> {
    if |data| < 4 then None
    else
      var count := DecodeFixed32(data[|data| - 4..]);
      if count > (|data| - 4) / 4 then None else Some(Trailer(|data| - (1 + count) * 4, count))
  }

  lemma {:induction false} OpensBlock(data: Bytes, es: seq<KeyValue>, starts: seq<nat>)
    requires IsBlock(data, es, starts)
    ensures OpenBlock(data) == Some(Trailer(Offset(es, starts, |es|), |starts|))
  {
    hide Encode, Fixed32s, EncodeFixed32, DecodeFixed32, AllStorable;
    assert data[|data| - 4..] == EncodeFixed32(|starts|);
  }

  lemma {:induction false} RestartPoint(data: Bytes, es: seq<KeyValue>, starts: seq<nat>, i: nat)
    requires IsBlock(data, es, starts) && i < |starts|
    ensures var at := Offset(es, starts, |es|) + 4 * i;
            at + 4 <= |data| && DecodeFixed32(data[at..at + 4]) == Offset(es, starts, starts[i])
  {
    hide Encode, Fixed32s, EncodeFixed32, DecodeFixed32, AllStorable;
    var offsets := RestartOffsets(es, starts);
    var body, points := Encode(es, starts, |es|), Fixed32s(offsets);
    Fixed32sAt(offsets, i);
    assert data[|body| + 4 * i..|body| + 4 * i + 4] == points[4 * i..4 * i + 4];
  }

  /** A decoded entry header, with the position of its key bytes. */
  datatype Decoded = Decoded(shared: nat, nonShared: nat, valueLength: nat, keyAt: nat)

  /** The three lengths at position `p`, None if the entry cannot lie before `limit`. */
  function DecodeEntry(data: Bytes, p: nat, limit: nat): (r: Option<Decoded>)
    requires limit <= |data|
    ensures r.Some? ==> p + 3 <= r.value.keyAt <= limit
  {
    if limit < p + 3 then None
    else
      var header :=
        if data[p] < 128 && data[p + 1] < 128 && data[p + 2] < 128
        then Some(Decoded(data[p], data[p + 1], data[p + 2], p + 3))
        else DecodeLengths(data[p..limit], limit);
      if header.Some? && limit - header.value.keyAt >= (header.value.nonShared + header.value.valueLength) % TWO_32
      then header else None
  }

  /** The three varints at the front of `s`, which ends at position `limit`. */
  function DecodeLengths(s: Bytes, limit: nat): (r: Option<Decoded>)
    requires |s| <= limit
    ensures r.Some? ==> limit - |s| + 3 <= r.value.keyAt <= limit
  {
    match GetVarint32(s)
    case None => None
    case Some(a) =>
      match GetVarint32(a.rest)
      case None => None
      case Some(b) =>
        match GetVarint32(b.rest)
        case None => None
        case Some(c) => Some(Decoded(a.value, b.value, c.value, limit - |c.rest|))
  }

  lemma {:induction false} VarintStarts(v: Word32, rest: Bytes)
    ensures v < 128 ==> Varint(v) + rest == [v] + rest
    ensures v >= 128 ==> (Varint(v) + rest)[0] >= 128
  {
  }

  /** The slow path reads three varints back. */
  lemma {:induction false} LengthsRoundTrip(a: Word32, b: Word32, c: Word32, rest: Bytes, limit: nat)
    requires var s := Varint(a) + (Varint(b) + (Varint(c) + rest)); |s| <= limit
    ensures var s := Varint(a) + (Varint(b) + (Varint(c) + rest));
            DecodeLengths(s, limit) == Some(Decoded(a, b, c, limit - |rest|))
  {
    hide Varint, GetVarint32;
    Varint32RoundTrip(a, Varint(b) + (Varint(c) + rest));
    Varint32RoundTrip(b, Varint(c) + rest);
    Varint32RoundTrip(c, rest);
  }

  /** The fast path is taken exactly when all three lengths take one byte. */
  lemma {:induction false} FastPath(a: Word32, b: Word32, c: Word32, rest: Bytes)
    ensures var s := Varint(a) + (Varint(b) + (Varint(c) + rest));
            && |s| >= 3
            && (s[0] < 128 && s[1] < 128 && s[2] < 128 <==> a < 128 && b < 128 && c < 128)
            && (a < 128 && b < 128 && c < 128 ==> s[0] == a && s[1] == b && s[2] == c && s[3..] == rest)
  {
    VarintStarts(a, Varint(b) + (Varint(c) + rest));
    VarintStarts(b, Varint(c) + rest);
    VarintStarts(c, rest);
    assert |Varint(a)| >= 1 && |Varint(b)| >= 1 && |Varint(c)| >= 1;
    hide Varint;
    var s2 := Varint(c) + rest;
    var s1 := Varint(b) + s2;
    var s0 := Varint(a) + s1;
    if a < 128 {
      assert s0[1] == s1[0];
      if b < 128 {
        assert s0[2] == s2[0];
      }
    }
  }

  /** Three lengths decode, on either path, if what they announce is there. */
  lemma {:induction false} DecodesHeader(data: Bytes, p: nat, limit: nat, a: Word32, b: Word32, c: Word32, tail: Bytes)
    requires p <= limit <= |data| && data[p..limit] == Varint(a) + (Varint(b) + (Varint(c) + tail))
    requires b + c <= |tail| && b + c < TWO_32
    ensures DecodeEntry(data, p, limit) == Some(Decoded(a, b, c, limit - |tail|))
  {
    hide Varint, DecodeLengths;
    var s := data[p..limit];
    FastPath(a, b, c, tail);
    LengthsRoundTrip(a, b, c, tail, limit);
    assert data[p] == s[0] && data[p + 1] == s[1] && data[p + 2] == s[2];
  }

  /** At `p` the data shows entry `e`, sharing `shared` key bytes, and ends it at `next`. */
  ghost predicate DecodesTo(data: Bytes, p: nat, limit: nat, shared: nat, e: KeyValue, next: nat)
    requires limit <= |data| && shared <= |e.key|
  {
    var d := DecodeEntry(data, p, limit);
    && d.Some? && d.value.shared == shared && d.value.nonShared == |e.key| - shared && d.value.valueLength == |e.value|
    && var at := d.value.keyAt;
       && at + |e.key| - shared + |e.value| == next <= limit
       && data[at..at + |e.key| - shared] == e.key[shared..]
       && data[at + |e.key| - shared..next] == e.value
  }

  /** An encoded entry decodes to its lengths, and its key and value bytes follow. */
  lemma {:induction false} DecodesEntry(data: Bytes, p: nat, limit: nat, shared: nat, e: KeyValue, rest: Bytes)
    requires Storable(e) && shared <= |e.key| && |e.key| - shared + |e.value| < TWO_32 && p <= limit <= |data|
    requires data[p..limit] == EntryBytes(shared, e) + rest
    ensures DecodesTo(data, p, limit, shared, e, p + |EntryBytes(shared, e)|)
  {
    var a: Word32, b: Word32, c: Word32 := shared, |e.key| - shared, |e.value|;
    var key := e.key[shared..];
    var tail := (key + e.value) + rest;
    hide Varint, DecodeEntry;
    Regroup(Varint(a), Varint(b), Varint(c), key + e.value, rest);
    DecodesHeader(data, p, limit, a, b, c, tail);
    var lengths := Varint(a) + (Varint(b) + Varint(c));
    Regroup2(Varint(a), Varint(b), Varint(c), tail);
    TailShows(data, p, limit, lengths, key, e.value, rest);
  }

  lemma {:induction false} Regroup2(a: Bytes, b: Bytes, c: Bytes, d: Bytes)
    ensures (a + (b + c)) + d == a + (b + (c + d))
  {
  }

  /** Where the parts of a stretch of data are. */
  lemma {:induction false} TailShows(data: Bytes, p: nat, limit: nat, lengths: Bytes, key: Bytes, value: Bytes,
                                     rest: Bytes)
    requires p <= limit <= |data| && data[p..limit] == lengths + ((key + value) + rest)
    ensures var at := p + |lengths|;
            && at + |key| + |value| + |rest| == limit
            && data[at..at + |key|] == key && data[at + |key|..at + |key| + |value|] == value
  {
    var at := p + |lengths|;
    var s := lengths + ((key + value) + rest);
    assert |s| == limit - p;
    assert forall i :: 0 <= i < |s| ==> data[p + i] == data[p..limit][i] == s[i];
    assert forall i :: 0 <= i < |key| ==> data[at + i] == s[|lengths| + i] == key[i];
    assert forall i :: 0 <= i < |value| ==> data[at + |key| + i] == s[|lengths| + |key| + i] == value[i];
  }

  lemma {:induction false} Regroup(a: Bytes, b: Bytes, c: Bytes, d: Bytes, e: Bytes)
    ensures (a + (b + (c + d))) + e == a + (b + (c + (d + e)))
  {
  }

  /** Entry `i` of a block decodes at its offset. */
  lemma {:induction false} EntryAt(data: Bytes, es: seq<KeyValue>, starts: seq<nat>, i: nat)
    requires IsBlock(data, es, starts) && i < |es|
    ensures var p, limit := Offset(es, starts, i), Offset(es, starts, |es|);
            && p < Offset(es, starts, i + 1) <= limit <= |data|
            && DecodesTo(data, p, limit, Shared(es, starts, i), es[i], Offset(es, starts, i + 1))
  {
    hide Encode, EntryBytes, DecodeEntry, DecodesTo, Shared, IsBlock, AllStorable;
    BlockFacts(data, es, starts);
    EncodeStep(es, starts, i);
    EncodePrefix(es, starts, i + 1, |es|);
    var all, before := Encode(es, starts, |es|), Encode(es, starts, i);
    var shared := Shared(es, starts, i);
    var piece := EntryBytes(shared, es[i]);
    EntrySize(shared, es[i]);
    SplitsAt(data, all, before, piece);
    DecodesEntry(data, |before|, |all|, shared, es[i], all[|before| + |piece|..]);
  }

  lemma {:induction false} BlockFacts(data: Bytes, es: seq<KeyValue>, starts: seq<nat>)
    requires IsBlock(data, es, starts)
    ensures AllStorable(es) && Encode(es, starts, |es|) <= data && Offset(es, starts, |es|) < TWO_32
  {
    hide Encode, Fixed32s, RestartOffsets, AllStorable;
  }

  lemma {:induction false} EncodeStep(es: seq<KeyValue>, starts: seq<nat>, i: nat)
    requires i < |es| && AllStorable(es)
    ensures Storable(es[i])
    ensures Encode(es, starts, i + 1) == Encode(es, starts, i) + EntryBytes(Shared(es, starts, i), es[i])
  {
  }

  lemma {:induction false} EntrySize(shared: nat, e: KeyValue)
    requires Storable(e) && shared <= |e.key|
    ensures |e.key| - shared + |e.value| <= |EntryBytes(shared, e)|
  {
  }

  lemma {:induction false} SplitsAt(data: Bytes, all: Bytes, before: Bytes, piece: Bytes)
    requires all <= data && before + piece <= all
    ensures data[|before|..|all|] == piece + all[|before| + |piece|..]
  {
    assert data[..|all|] == all;
    assert all[..|before| + |piece|] == before + piece;
    assert data[|before|..|all|] == all[|before|..];
  }

  /** Bytes of the block; nothing past its end. */
  function Slice(data: Bytes, at: nat, length: nat): Bytes {
    if at + length <= |data| then data[at..at + length] else []
  }

  class BlockIter {
    const data: Bytes
    const restarts: nat
    const numRestarts: nat
    const rank: Bytes -> real
    /** Whether a builder wrote the block, and from what. */
    ghost const intact: bool
    ghost const entries: seq<KeyValue>
    ghost const starts: seq<nat>
    var current: nat
    var restartIndex: nat
    var key: Bytes
    var valueAt: nat
    var valueLength: nat
    var corrupt: bool
    /** Index of the current entry; their number when the iterator is not valid. */
    ghost var cur: nat

    constructor (data: Bytes, rank: Bytes -> real, ghost intact: bool, ghost entries: seq<KeyValue>,
                 ghost starts: seq<nat>)
      requires OpenBlock(data).Some? && OpenBlock(data).value.count > 0
      requires intact ==> IsBlock(data, entries, starts)
      ensures Ok() && !Valid() && this.intact == intact && this.entries == entries && this.rank == rank
    {
      hide Encode, Fixed32s, RestartOffsets, AllStorable;
      if intact {
        OpensBlock(data, entries, starts);
      }
      var trailer := OpenBlock(data).value;
      this.data, restarts, numRestarts, this.rank := data, trailer.restarts, trailer.count, rank;
      this.intact, this.entries, this.starts := intact, entries, starts;
      current, restartIndex := trailer.restarts, trailer.count;
      key, valueAt, valueLength, corrupt := [], 0, 0, false;
      cur := |entries|;
    }

    ghost predicate Shape() {
      && restarts + 4 * numRestarts + 4 == |data| && numRestarts > 0
      && (intact ==>
            IsBlock(data, entries, starts) && restarts == Offset(entries, starts, |entries|) && numRestarts == |starts|)
    }

    ghost function At(i: nat): nat
      requires IsBlock(data, entries, starts) && i <= |entries|
    {
      Offset(entries, starts, i)
    }

    /** Key, value and position are those of the current entry. */
    ghost predicate Parsed()
      requires Shape() && intact
      reads this
    {
      && cur < |entries| && current == At(cur) && key == entries[cur].key
      && valueAt + valueLength == At(cur + 1) <= |data| && data[valueAt..valueAt + valueLength] == entries[cur].value
    }

    /** The entry lies in the region of restart point `r`, or is the one the next region starts with. */
    ghost predicate InRegion(r: nat)
      reads this
    {
      r < |starts| && starts[r] <= cur && (r + 1 < |starts| ==> cur <= starts[r + 1])
    }

    ghost predicate Ok()
      reads this
    {
      && Shape() && restartIndex <= numRestarts
      && (Valid() ==> restartIndex < numRestarts && current < NextEntryOffset())
      && (intact ==>
            && cur <= |entries| && !corrupt
            && (cur == |entries| ==> current == restarts)
            && (cur < |entries| ==> Parsed() && InRegion(restartIndex)))
    }

    /** Ready to parse entry `i`: the last value ends where it starts, and its shared key bytes are at hand. */
    ghost predicate BeforeEntry(i: nat)
      reads this
    {
      && Shape() && restartIndex < numRestarts
      && (intact ==>
            && i <= |entries| && !corrupt && valueAt + valueLength == At(i)
            && (i < |entries| && Shared(entries, starts, i) > 0 ==> i > 0 && key == entries[i - 1].key)
            && starts[restartIndex] <= i
            && (restartIndex + 1 < |starts| ==> i <= starts[restartIndex + 1] + 1))
    }

    predicate Valid()
      reads this
    {
      current < restarts
    }

    lemma {:induction false} ValidIs()
      requires Ok() && intact
      ensures cur <= |entries| && (Valid() <==> cur < |entries|)
    {
      hide Encode, Fixed32s, RestartOffsets, AllStorable;
      OffsetOrder(entries, starts, cur, |entries|);
    }

    method Key() returns (key: Bytes)
      requires Ok() && Valid()
      ensures intact ==> cur < |entries| && key == entries[cur].key
    {
      if intact {
        ValidIs();
      }
      key := this.key;
    }

    method Value() returns (value: Bytes)
      requires Ok() && Valid()
      ensures intact ==> cur < |entries| && value == entries[cur].value
    {
      if intact {
        ValidIs();
      }
      value := Slice(data, valueAt, valueLength);
    }

    function NextEntryOffset(): nat
      reads this
    {
      valueAt + valueLength
    }

    function GetRestartPoint(index: nat): nat
      requires restarts + 4 * index + 4 <= |data|
    {
      DecodeFixed32(data[restarts + 4 * index..restarts + 4 * index + 4])
    }

    lemma {:induction false} RestartIs(index: nat)
      requires Shape() && intact && index < numRestarts
      ensures starts[index] <= |entries| && GetRestartPoint(index) == At(starts[index])
    {
      RestartPoint(data, entries, starts, index);
    }

    method CorruptionError()
      modifies this
      ensures corrupt && !Valid() && restartIndex == numRestarts
    {
      current, restartIndex, corrupt, key, valueAt, valueLength := restarts, numRestarts, true, [], 0, 0;
    }

    method ParseNextKey(ghost i: nat) returns (ok: bool)
      requires BeforeEntry(i)
      modifies this
      ensures Ok() && (ok <==> Valid())
      ensures Valid() ==> current == old(NextEntryOffset())
      ensures intact ==> cur == i
    {
      hide Encode, Fixed32s, RestartOffsets, AllStorable, IsBlock, DecodeEntry, Shared, Slice;
      if intact {
        OffsetsFit(i);
      }
      current := NextEntryOffset();
      cur := i;
      if current >= restarts {
        current, restartIndex := restarts, numRestarts;
        return false;
      }
      if intact {
        EntryDecodes(i, key);
      }
      var p := DecodeEntry(data, current, restarts);
      if p.None? || |key| < p.value.shared {
        CorruptionError();
        return false;
      }
      key := key[..p.value.shared];
      key := key + Slice(data, p.value.keyAt, p.value.nonShared);
      valueAt, valueLength := p.value.keyAt + p.value.nonShared, p.value.valueLength;
      AdvanceRestart();
      ok := true;
    }

    /** Moves on to the region of the entry just parsed. */
    method AdvanceRestart()
      requires Shape() && restartIndex < numRestarts && Valid() && current < NextEntryOffset()
      requires intact ==>
        && !corrupt && Parsed() && starts[restartIndex] <= cur
        && (restartIndex + 1 < |starts| ==> cur <= starts[restartIndex + 1] + 1)
      modifies `restartIndex
      ensures Ok()
    {
      hide Encode, Fixed32s, RestartOffsets, AllStorable, IsBlock;
      while restartIndex + 1 < numRestarts && GetRestartPoint(restartIndex + 1) < current
        invariant restartIndex < numRestarts
        invariant intact ==>
          && starts[restartIndex] <= cur
          && (restartIndex + 1 < |starts| ==> cur <= starts[restartIndex + 1] + 1)
        decreases numRestarts - restartIndex
      {
        if intact {
          RestartIs(restartIndex + 1);
          OffsetsCompare(starts[restartIndex + 1], cur);
          StartsIncrease(restartIndex + 1);
        }
        restartIndex := restartIndex + 1;
      }
      if intact && restartIndex + 1 < numRestarts {
        RestartIs(restartIndex + 1);
        OffsetsCompare(starts[restartIndex + 1], cur);
      }
    }

    lemma {:induction false} OffsetsFit(i: nat)
      requires Shape() && intact && i <= |entries|
      ensures At(i) <= restarts <= |data| && (At(i) < restarts <==> i < |entries|)
    {
      hide Encode, Fixed32s, RestartOffsets, AllStorable;
      OffsetOrder(entries, starts, i, |entries|);
      OffsetOrder(entries, starts, |entries|, i);
    }

    lemma {:induction false} OffsetsCompare(i: nat, j: nat)
      requires Shape() && intact && i <= |entries| && j <= |entries|
      ensures At(i) < At(j) <==> i < j
    {
      OffsetOrder(entries, starts, i, j);
    }

    lemma {:induction false} StartsIncrease(r: nat)
      requires Shape() && intact && r < |starts|
      ensures r + 1 < |starts| ==> starts[r] < starts[r + 1]
    {
    }

    /** Parsing entry `i` after key `was` yields its key and where its value is. */
    lemma {:induction false} EntryDecodes(i: nat, was: Bytes)
      requires Shape() && intact && i < |entries|
      requires Shared(entries, starts, i) > 0 ==> i > 0 && was == entries[i - 1].key
      ensures var p := DecodeEntry(data, At(i), restarts);
              && p.Some? && p.value.shared <= |was|
              && was[..p.value.shared] + Slice(data, p.value.keyAt, p.value.nonShared) == entries[i].key
              && var at := p.value.keyAt + p.value.nonShared;
                 at + p.value.valueLength == At(i + 1) <= |data|
                 && data[at..at + p.value.valueLength] == entries[i].value
    {
      hide Encode, Fixed32s, RestartOffsets, AllStorable, IsBlock, DecodeEntry, Shared;
      EntryAt(data, entries, starts, i);
      KeyRebuilt(i, was);
    }

    /** The shared bytes of the last key and the new ones make the next key. */
    lemma {:induction false} KeyRebuilt(i: nat, was: Bytes)
      requires Shape() && intact && i < |entries|
      requires Shared(entries, starts, i) > 0 ==> i > 0 && was == entries[i - 1].key
      ensures var n := Shared(entries, starts, i);
              n <= |was| && was[..n] + entries[i].key[n..] == entries[i].key
    {
      var n := Shared(entries, starts, i);
      if n > 0 {
        assert was[..n] == entries[i].key[..n];
      }
    }

    method SeekToRestartPoint(index: nat)
      requires Shape() && index < numRestarts && (intact ==> !corrupt)
      modifies this
      ensures BeforeEntry(if intact then starts[index] else 0)
      ensures restartIndex == index && NextEntryOffset() == GetRestartPoint(index) && corrupt == old(corrupt)
              && current == old(current) && cur == old(cur)
    {
      hide Encode, Fixed32s, RestartOffsets, AllStorable;
      key := [];
      restartIndex := index;
      valueAt, valueLength := GetRestartPoint(index), 0;
      if intact {
        RestartIs(index);
        assert starts[index] in starts;
        StartsIncrease(index);
      }
    }

    method Next()
      requires Ok() && Valid()
      modifies this
      ensures Ok() && (intact ==> cur == old(cur) + 1)
    {
      hide Encode, Fixed32s, RestartOffsets, AllStorable, IsBlock;
      if intact {
        ValidIs();
      }
      var ok := ParseNextKey(cur + 1);
    }

    method Prev()
      requires Ok() && Valid()
      modifies this
      ensures Ok() && (intact ==> cur == if old(cur) == 0 then |entries| else old(cur) - 1)
    {
      hide Encode, Fixed32s, RestartOffsets, AllStorable, IsBlock;
      var original := current;
      ghost var was := cur;
      if intact {
        ValidIs();
        RestartIs(restartIndex);
        OffsetsCompare(starts[restartIndex], was);
      }
      while GetRestartPoint(restartIndex) >= original
        invariant restartIndex < numRestarts && current == original && cur == was && (intact ==> !corrupt)
        invariant intact ==> was < |entries| && original == At(was) && starts[restartIndex] <= was
        invariant intact ==> (GetRestartPoint(restartIndex) < original <==> starts[restartIndex] < was)
        decreases restartIndex
      {
        if restartIndex == 0 {
          current := restarts;
          restartIndex := numRestarts;
          cur := |entries|;
          if intact {
            FirstStart();
          }
          return;
        }
        restartIndex := restartIndex - 1;
        if intact {
          StartsIncrease(restartIndex);
          RestartIs(restartIndex);
          OffsetsCompare(starts[restartIndex], was);
        }
      }
      SeekToRestartPoint(restartIndex);
      ScanTo(if intact then starts[restartIndex] else 0, was, original);
    }

    lemma {:induction false} FirstStart()
      requires Shape() && intact
      ensures starts[0] == 0
    {
    }

    /** Parses on until the end of the entry parsed reaches `end`, the offset of entry `last`. */
    method ScanTo(ghost first: nat, ghost last: nat, end: nat)
      requires BeforeEntry(first)
      requires intact ==> last <= |entries| && end == At(last) && (first < last || first == last == |entries|)
      modifies this
      ensures Ok() && (intact ==> cur == if first < last then last - 1 else |entries|)
    {
      hide Encode, Fixed32s, RestartOffsets, AllStorable, IsBlock;
      var ok := ParseNextKey(first);
      if intact {
        ValidIs();
      }
      while ok && NextEntryOffset() < end
        invariant Ok() && (ok <==> Valid())
        invariant intact ==> if first < last then first <= cur < last else cur == |entries|
        decreases ok, end - current
      {
        if intact {
          ValidIs();
          OffsetsCompare(cur + 1, last);
        }
        ok := ParseNextKey(cur + 1);
        if intact {
          ValidIs();
        }
      }
      if intact {
        ValidIs();
        if ok {
          OffsetsCompare(cur + 1, last);
        }
      }
    }

    method SeekToFirst()
      requires Ok()
      modifies this
      ensures Ok() && (intact ==> cur == 0)
    {
      hide Encode, Fixed32s, RestartOffsets, AllStorable, IsBlock;
      if intact {
        FirstStart();
      }
      SeekToRestartPoint(0);
      var ok := ParseNextKey(0);
    }

    method SeekToLast()
      requires Ok()
      modifies this
      ensures Ok() && (intact ==> cur == if entries == [] then 0 else |entries| - 1)
    {
      hide Encode, Fixed32s, RestartOffsets, AllStorable, IsBlock;
      if intact {
        LastStart();
      }
      SeekToRestartPoint(numRestarts - 1);
      ScanTo(if intact then starts[numRestarts - 1] else 0, |entries|, restarts);
    }

    lemma {:induction false} LastStart()
      requires Shape() && intact
      ensures if entries == [] then starts[numRestarts - 1] == 0 else starts[numRestarts - 1] < |entries|
    {
    }

    /** Binary search for the last restart point with a key below the target. */
    method SearchRestarts(target: Bytes) returns (found: bool, left: nat)
      requires Ok()
      modifies this
      ensures Ok() && left < numRestarts && (intact ==> found)
      ensures intact && left > 0 ==> starts[left] < |entries| && rank(entries[starts[left]].key) < rank(target)
    {
      hide Encode, Fixed32s, RestartOffsets, AllStorable, IsBlock, DecodeEntry;
      left := 0;
      var right := numRestarts - 1;
      while left < right
        invariant left <= right < numRestarts && Ok()
        invariant intact && left > 0 ==> starts[left] < |entries| && rank(entries[starts[left]].key) < rank(target)
      {
        var mid := (left + right + 1) / 2;
        var regionOffset := GetRestartPoint(mid);
        if intact {
          RestartEntry(mid);
        }
        var p := DecodeEntry(data, regionOffset, restarts);
        if p.None? || p.value.shared != 0 {
          CorruptionError();
          return false, 0;
        }
        var midKey := Slice(data, p.value.keyAt, p.value.nonShared);
        if rank(midKey) < rank(target) {
          left := mid;
        } else {
          right := mid - 1;
        }
      }
      found := true;
    }

    /** At a restart point the whole key is stored. */
    lemma {:induction false} RestartEntry(index: nat)
      requires Shape() && intact && 0 < index < numRestarts
      ensures starts[index] < |entries|
      ensures var p := DecodeEntry(data, GetRestartPoint(index), restarts);
              && p.Some? && p.value.shared == 0
              && Slice(data, p.value.keyAt, p.value.nonShared) == entries[starts[index]].key
    {
      hide Encode, Fixed32s, RestartOffsets, AllStorable, DecodeEntry;
      RestartIs(index);
      assert starts[index] in starts;
      EntryAt(data, entries, starts, starts[index]);
      var key := entries[starts[index]].key;
      assert key[0..] == key;
    }

    /** The keys rise in rank. */
    ghost predicate Increasing() {
      forall i, j :: 0 <= i < j < |entries| ==> rank(entries[i].key) < rank(entries[j].key)
    }

    /** The keys of the first `n` entries are below the target. */
    ghost predicate AllBelow(n: nat, target: Bytes)
      requires n <= |entries|
    {
      forall k :: 0 <= k < n ==> rank(entries[k].key) < rank(target)
    }

    lemma {:induction false} BelowTo(n: nat, target: Bytes)
      requires Increasing() && n < |entries| && rank(entries[n].key) < rank(target)
      ensures AllBelow(n, target) && AllBelow(n + 1, target)
    {
    }

    lemma {:induction false} NotBelowFrom(n: nat, target: Bytes)
      requires Increasing() && n <= |entries| && AllBelow(n, target)
      requires n < |entries| ==> rank(entries[n].key) >= rank(target)
      ensures forall k :: 0 <= k < |entries| ==> (k < n <==> rank(entries[k].key) < rank(target))
    {
    }

    /** Parses entries from `first` on up to one whose key is not below the target. */
    method LinearScan(target: Bytes, ghost first: nat)
      requires BeforeEntry(first)
      requires intact && Increasing() ==> AllBelow(first, target)
      modifies this
      ensures Ok() && (intact ==> cur <= |entries|)
      ensures intact && Increasing() ==> AllBelow(cur, target)
      ensures intact && cur < |entries| ==> rank(entries[cur].key) >= rank(target)
    {
      hide Encode, Fixed32s, RestartOffsets, AllStorable, IsBlock, AllBelow, Increasing;
      var ok := ParseNextKey(first);
      while ok && rank(key) < rank(target)
        invariant Ok() && (ok <==> Valid()) && (intact ==> cur <= |entries|)
        invariant intact && Increasing() ==> AllBelow(cur, target)
        decreases ok, restarts - current
      {
        if intact {
          ValidIs();
          if Increasing() {
            BelowTo(cur, target);
          }
        }
        ok := ParseNextKey(cur + 1);
      }
      if intact {
        ValidIs();
      }
    }

    /** The first entry whose key is not below the target: what a linear scan would find. */
    method Seek(target: Bytes)
      requires Ok()
      modifies this
      ensures Ok()
      ensures intact && Increasing() ==>
                forall k :: 0 <= k < |entries| ==> (k < cur <==> rank(entries[k].key) < rank(target))
    {
      hide Encode, Fixed32s, RestartOffsets, AllStorable, IsBlock, Increasing;
      var found, left := SearchRestarts(target);
      if !found {
        return;
      }
      if intact {
        FirstStart();
        if left > 0 && Increasing() {
          BelowTo(starts[left], target);
        }
      }
      SeekToRestartPoint(left);
      LinearScan(target, if intact then starts[left] else 0);
      if intact && Increasing() {
        NotBelowFrom(cur, target);
      }
    }
  }

  // ----- building a block and reading it back ------------------------------

  method BuildBlock(es: seq<KeyValue>, interval: nat) returns (block: Bytes)
    requires interval >= 1 && AllStorable(es)
    ensures block == BlockBytes(es, interval)
  {
    hide Encode, EntryBytes, IsBlock, RestartOffsets, BlockBytes, Starts;
    var builder := new BlockBuilder(interval);
    for i := 0 to |es|
      invariant builder.Valid() && !builder.finished && builder.entries == es[..i]
    {
      builder.Add(es[i].key, es[i].value);
      assert es[..i + 1] == es[..i] + [KeyValue(es[i].key, es[i].value)];
    }
    assert es[..|es|] == es;
    block := builder.Finish();
  }

  /** Whatever the restart interval, reading a block built from `es` gives `es` from front to back, and
      from back to front. */
  method BlockRoundTrip(es: seq<KeyValue>, interval: nat, rank: Bytes -> real)
    returns (forward: seq<KeyValue>, backward: seq<KeyValue>)
    requires interval >= 1 && AllStorable(es) && |BlockBytes(es, interval)| < TWO_32
    ensures forward == es
    ensures |backward| == |es| && forall i :: 0 <= i < |es| ==> backward[i] == es[|es| - 1 - i]
  {
    hide Encode, IsBlock, BlockBytes, AllStorable, Starts;
    var block := BuildBlock(es, interval);
    BlockBytesIs(es, interval);
    BlockOpens(block, es, Starts(|es|, interval));
    var iter := new BlockIter(block, rank, true, es, Starts(|es|, interval));
    forward := ScanForward(iter);
    backward := ScanBackward(iter);
    assert es[..|es|] == es;
  }

  lemma {:induction false} BlockOpens(data: Bytes, es: seq<KeyValue>, starts: seq<nat>)
    requires IsBlock(data, es, starts)
    ensures OpenBlock(data).Some? && OpenBlock(data).value.count > 0
  {
    hide Encode, Fixed32s, RestartOffsets, AllStorable;
    OpensBlock(data, es, starts);
  }

  method ScanForward(iter: BlockIter) returns (read: seq<KeyValue>)
    requires iter.Ok() && iter.intact
    modifies iter
    ensures iter.Ok() && read == iter.entries
  {
    hide BlockIter.Shape, BlockIter.Parsed, BlockIter.InRegion;
    read := [];
    iter.SeekToFirst();
    iter.ValidIs();
    while iter.Valid()
      invariant iter.Ok() && iter.cur <= |iter.entries| && read == iter.entries[..iter.cur]
      invariant iter.Valid() <==> iter.cur < |iter.entries|
      decreases |iter.entries| - iter.cur
    {
      var key := iter.Key();
      var value := iter.Value();
      read := read + [KeyValue(key, value)];
      iter.Next();
      iter.ValidIs();
    }
  }

  method ScanBackward(iter: BlockIter) returns (read: seq<KeyValue>)
    requires iter.Ok() && iter.intact
    modifies iter
    ensures iter.Ok() && |read| == |iter.entries|
    ensures forall i :: 0 <= i < |read| ==> read[i] == iter.entries[|read| - 1 - i]
  {
    hide BlockIter.Shape, BlockIter.Parsed, BlockIter.InRegion;
    read := [];
    iter.SeekToLast();
    iter.ValidIs();
    while iter.Valid()
      invariant iter.Ok() && (iter.Valid() <==> iter.cur < |iter.entries|)
      invariant if iter.Valid() then |read| == |iter.entries| - 1 - iter.cur else |read| == |iter.entries|
      invariant forall i :: 0 <= i < |read| ==> read[i] == iter.entries[|iter.entries| - 1 - i]
      decreases |iter.entries| - |read|, iter.Valid()
    {
      var key := iter.Key();
      var value := iter.Value();
      read := read + [KeyValue(key, value)];
      iter.Prev();
      iter.ValidIs();
    }
  }
}
