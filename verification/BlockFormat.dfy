/** The layout of a block and the builder that writes it (table/block_builder.cc). */
module BlockFormat {
  import opened DbFormat
  import opened Coding

  datatype KeyValue = KeyValue(key: Bytes, value: Bytes)

  predicate Storable(e: KeyValue) {
    |e.key| < TWO_32 && |e.value| < TWO_32
  }

  predicate AllStorable(es: seq<KeyValue>) {
    forall i :: 0 <= i < |es| ==> Storable(es[i])
  }

  /** Length of the common prefix from position `i` on, `i` included. */
  function CommonFrom(a: Bytes, b: Bytes, i: nat): (n: nat)
    requires i <= |a| && i <= |b|
    ensures i <= n <= |a| && n <= |b|
    ensures forall k :: i <= k < n ==> a[k] == b[k]
    ensures n < |a| && n < |b| ==> a[n] != b[n]
    decreases |a| - i
  {
    if i < |a| && i < |b| && a[i] == b[i] then CommonFrom(a, b, i + 1) else i
  }

  /** The entries at which compression starts over: increasing, the first of all among them. */
  ghost predicate Restarts(starts: seq<nat>, n: nat) {
    && starts != [] && starts[0] == 0
    && (forall i, j :: 0 <= i < j < |starts| ==> starts[i] < starts[j])
    && (forall i :: 1 <= i < |starts| ==> starts[i] < n)
  }

  /** How many bytes entry `i` shares with the key before it. */
  function Shared(es: seq<KeyValue>, starts: seq<nat>, i: nat): (n: nat)
    requires i < |es|
    ensures n <= |es[i].key|
  {
    if i == 0 || i in starts then 0 else CommonFrom(es[i - 1].key, es[i].key, 0)
  }

  function EntryBytes(shared: nat, e: KeyValue): (s: Bytes)
    requires Storable(e) && shared <= |e.key|
    ensures |s| >= 3
  {
    Varint(shared) + (Varint(|e.key| - shared) + (Varint(|e.value|) + (e.key[shared..] + e.value)))
  }

  /** The bytes of the first `n` entries. */
  function Encode(es: seq<KeyValue>, starts: seq<nat>, n: nat): Bytes
    requires n <= |es| && AllStorable(es)
  {
    if n == 0 then [] else Encode(es, starts, n - 1) + EntryBytes(Shared(es, starts, n - 1), es[n - 1])
  }

  function Offset(es: seq<KeyValue>, starts: seq<nat>, n: nat): nat
    requires n <= |es| && AllStorable(es)
  {
    |Encode(es, starts, n)|
  }

  lemma {:induction false} EncodePrefix(es: seq<KeyValue>, starts: seq<nat>, m: nat, n: nat)
    requires m <= n <= |es| && AllStorable(es)
    ensures Encode(es, starts, m) <= Encode(es, starts, n)
    ensures m < n ==> Offset(es, starts, m) + 3 <= Offset(es, starts, n)
    decreases n
  {
    hide EntryBytes, Shared;
    if m < n {
      EncodePrefix(es, starts, m, n - 1);
    }
  }

  /** Offsets increase with entries. */
  lemma {:induction false} OffsetOrder(es: seq<KeyValue>, starts: seq<nat>, m: nat, n: nat)
    requires m <= |es| && n <= |es| && AllStorable(es)
    ensures Offset(es, starts, m) < Offset(es, starts, n) <==> m < n
  {
    if m < n {
      EncodePrefix(es, starts, m, n);
    } else {
      EncodePrefix(es, starts, n, m);
    }
  }

  /** Later entries and restarts do not change what is written. */
  lemma {:induction false} EncodeStable(es: seq<KeyValue>, more: seq<KeyValue>, starts: seq<nat>, starts': seq<nat>,
                                        n: nat)
    requires n <= |es| && AllStorable(es) && AllStorable(es + more)
    requires forall i: nat :: i < n ==> (i in starts <==> i in starts')
    ensures Encode(es, starts, n) == Encode(es + more, starts', n)
  {
    if n > 0 {
      EncodeStable(es, more, starts, starts', n - 1);
    }
  }

  ghost function RestartOffsets(es: seq<KeyValue>, starts: seq<nat>): (offsets: seq<nat>)
    requires AllStorable(es) && forall i :: 0 <= i < |starts| ==> starts[i] <= |es|
    ensures |offsets| == |starts|
  {
    seq(|starts|, i requires 0 <= i < |starts| && starts[i] <= |es| => Offset(es, starts, starts[i]))
  }

  /** A block: entries, then the restart array, then its length. */
  ghost predicate IsBlock(data: Bytes, es: seq<KeyValue>, starts: seq<nat>) {
    && AllStorable(es) && Restarts(starts, |es|) && (forall i :: 0 <= i < |starts| ==> starts[i] <= |es|)
    && |starts| < TWO_32 && Offset(es, starts, |es|) < TWO_32
    && (forall i :: 0 <= i < |starts| ==> RestartOffsets(es, starts)[i] < TWO_32)
    && data == Encode(es, starts, |es|) + Fixed32s(RestartOffsets(es, starts)) + EncodeFixed32(|starts|)
  }

  // ----- the builder -------------------------------------------------------

  /** Where compression starts over among `n` entries: at every `interval`-th. */
  function Starts(n: nat, interval: nat): (starts: seq<nat>)
    requires interval >= 1
    ensures starts != [] && starts[0] == 0 && (n == 0 ==> |starts| == 1)
    ensures forall i :: 0 <= i < |starts| ==> starts[i] == i * interval && (n > 0 ==> starts[i] < n)
    ensures n > 0 ==> n <= |starts| * interval
  {
    var count := if n == 0 then 1 else (n - 1) / interval + 1;
    assert forall i :: 0 <= i < count ==> i * interval >= 0;
    if n > 0 then
      LastStartFits(n, interval);
      seq(count, i requires 0 <= i < count => i * interval)
    else [0]
  }

  lemma {:induction false} LastStartFits(n: nat, interval: nat)
    requires interval >= 1 && n > 0
    ensures var last := (n - 1) / interval; last * interval < n <= (last + 1) * interval
    ensures forall i: nat :: i <= (n - 1) / interval ==> i * interval < n
  {
    var last := (n - 1) / interval;
    assert n - 1 == interval * last + (n - 1) % interval;
    assert (last + 1) * interval == last * interval + interval;
    forall i: nat | i <= last ensures i * interval < n {
      assert i * interval <= last * interval;
    }
  }

  /** The bytes of a finished block; the numbers behind the entries are stored in 32 bits. */
  ghost function BlockBytes(es: seq<KeyValue>, interval: nat): (data: Bytes)
    requires interval >= 1 && AllStorable(es)
    ensures |data| == Offset(es, Starts(|es|, interval), |es|) + 4 * |Starts(|es|, interval)| + 4
  {
    var starts := Starts(|es|, interval);
    StartsFit(|es|, interval);
    Encode(es, starts, |es|) + Fixed32s(Low(RestartOffsets(es, starts))) + EncodeFixed32(|starts| % TWO_32)
  }

  lemma {:induction false} StartsFit(n: nat, interval: nat)
    requires interval >= 1
    ensures forall i :: 0 <= i < |Starts(n, interval)| ==> Starts(n, interval)[i] <= n
    ensures Restarts(Starts(n, interval), n)
  {
    var starts := Starts(n, interval);
    hide Starts;
    assert forall i :: 0 <= i < |starts| ==> starts[i] == i * interval;
    forall i, j | 0 <= i < j < |starts| ensures starts[i] < starts[j] {
      MultiplesRise(i, j, interval);
    }
    if n > 0 {
      assert forall i :: 0 <= i < |starts| ==> starts[i] < n;
    }
  }

  lemma {:induction false} MultiplesRise(i: nat, j: nat, interval: nat)
    requires i < j && interval >= 1
    ensures i * interval < j * interval
  {
    assert j * interval == i * interval + (j - i) * interval;
  }

  /** A block of less than 4 GiB has all its numbers whole. */
  lemma {:induction false} BlockBytesIs(es: seq<KeyValue>, interval: nat)
    requires interval >= 1 && AllStorable(es) && |BlockBytes(es, interval)| < TWO_32
    ensures IsBlock(BlockBytes(es, interval), es, Starts(|es|, interval))
  {
    hide Encode, Fixed32s, EncodeFixed32, Starts, AllStorable;
    var starts := Starts(|es|, interval);
    StartsFit(|es|, interval);
    forall i | 0 <= i < |starts| ensures RestartOffsets(es, starts)[i] < TWO_32 {
      EncodePrefix(es, starts, starts[i], |es|);
    }
    LowWords(RestartOffsets(es, starts));
  }

  /** Compression that starts over every `interval` entries does so at the multiples of it. */
  lemma {:induction false} SpacedIs(interval: nat, n: nat, starts: seq<nat>, counter: nat)
    requires Spaced(interval, n, starts, counter)
    ensures starts == Starts(n, interval)
  {
    hide Starts;
    var last := |starts| - 1;
    SpacedAt(interval, n, starts, counter, last);
    forall i | 0 <= i < |starts| ensures starts[i] == i * interval {
      SpacedAt(interval, n, starts, counter, i);
    }
    if n > 0 {
      var whole := Starts(n, interval);
      assert whole[|whole| - 1] == (|whole| - 1) * interval < n;
      assert counter > 0 && (last + 1) * interval == last * interval + interval;
      SameCount(n, interval, last, |whole| - 1);
    }
  }

  lemma {:induction false} SpacedAt(interval: nat, n: nat, starts: seq<nat>, counter: nat, i: nat)
    requires Spaced(interval, n, starts, counter) && i < |starts|
    ensures starts[i] == i * interval
  {
    if i > 0 {
      SpacedAt(interval, n, starts, counter, i - 1);
    }
  }

  lemma {:induction false} SameCount(n: nat, interval: nat, a: nat, b: nat)
    requires a * interval < n <= (a + 1) * interval && b * interval < n <= (b + 1) * interval
    ensures a == b
  {
    if a < b {
      NotBefore(a + 1, b, interval);
    } else if b < a {
      NotBefore(b + 1, a, interval);
    }
  }

  lemma {:induction false} NotBefore(a: nat, b: nat, interval: nat)
    requires a <= b
    ensures a * interval <= b * interval
  {
  }

  /** What the builder's fields hold after adding `es`, compression having started over at `starts`. */
  ghost predicate Built(interval: nat, es: seq<KeyValue>, starts: seq<nat>, buffer: Bytes, restarts: seq<nat>,
                        counter: nat, lastKey: Bytes) {
    && AllStorable(es) && Spaced(interval, |es|, starts, counter)
    && buffer == Encode(es, starts, |es|)
    && restarts == RestartOffsets(es, starts)
    && lastKey == (if es == [] then [] else es[|es| - 1].key)
  }

  /** Compression starts over every `interval` entries, the last time `counter` entries ago. */
  ghost predicate Spaced(interval: nat, n: nat, starts: seq<nat>, counter: nat) {
    && interval >= 1 && Restarts(starts, n) && (forall i :: 0 <= i < |starts| ==> starts[i] <= n)
    && counter <= interval && counter == n - starts[|starts| - 1]
    && forall i :: 0 <= i < |starts| - 1 ==> starts[i + 1] == starts[i] + interval
  }

  lemma {:induction false} SpacedRestart(interval: nat, n: nat, starts: seq<nat>, counter: nat, starts': seq<nat>)
    requires Spaced(interval, n, starts, counter) && counter == interval && starts' == starts + [n]
    ensures Spaced(interval, n + 1, starts', 1)
  {
  }

  class BlockBuilder {
    const interval: nat
    var buffer: Bytes
    var restarts: seq<nat>
    var counter: nat
    var lastKey: Bytes
    var finished: bool
    /** The entries added, and those at which compression started over. */
    ghost var entries: seq<KeyValue>
    ghost var starts: seq<nat>

    constructor (interval: nat)
      requires interval >= 1
      ensures Valid() && this.interval == interval && entries == [] && !finished
    {
      this.interval, buffer, restarts, counter, lastKey, finished := interval, [], [0], 0, [], false;
      entries, starts := [], [0];
    }

    ghost predicate Valid()
      reads this
    {
      if finished then IsBlock(buffer, entries, starts)
      else Built(interval, entries, starts, buffer, restarts, counter, lastKey)
    }

    method Reset()
      requires interval >= 1
      modifies this
      ensures Valid() && entries == [] && !finished
    {
      buffer, restarts, counter, finished, lastKey := [], [0], 0, false, [];
      entries, starts := [], [0];
    }

    /** How much of `key` the last key already holds. */
    method SharedWithLast(key: Bytes) returns (shared: nat)
      ensures shared == CommonFrom(lastKey, key, 0)
    {
      var minLength := if |lastKey| < |key| then |lastKey| else |key|;
      shared := 0;
      while shared < minLength && lastKey[shared] == key[shared]
        invariant shared <= minLength
        invariant CommonFrom(lastKey, key, 0) == CommonFrom(lastKey, key, shared)
      {
        shared := shared + 1;
      }
    }

    method Add(key: Bytes, value: Bytes)
      requires Valid() && !finished && |key| < TWO_32 && |value| < TWO_32
      modifies this
      ensures Valid() && !finished && entries == old(entries) + [KeyValue(key, value)]
    {
      hide EntryBytes, Built, Varint;
      ghost var e := KeyValue(key, value);
      BuiltShape(interval, entries, starts, buffer, restarts, counter, lastKey);
      var shared := 0;
      if counter < interval {
        shared := SharedWithLast(key);
        ContinueKeeps(interval, entries, starts, buffer, restarts, counter, lastKey, e);
      } else {
        RestartKeeps(interval, entries, starts, buffer, restarts, counter, lastKey, e, starts + [|entries|],
          restarts + [|buffer|]);
        starts := starts + [|entries|];
        restarts := restarts + [|buffer|];
        counter := 0;
      }
      var nonShared := |key| - shared;
      EntryInPieces(buffer, shared, e);
      buffer := buffer + Varint(shared);
      buffer := buffer + Varint(nonShared);
      buffer := buffer + Varint(|value|);
      buffer := buffer + key[shared..];
      buffer := buffer + value;
      lastKey := lastKey[..shared];
      lastKey := lastKey + key[shared..];
      assert lastKey == key;
      counter := counter + 1;
      entries := entries + [e];
    }

    /** BlockBuilder::CurrentSizeEstimate: what the finished block will have. */
    method CurrentSizeEstimate() returns (size: nat)
      requires Valid() && !finished
      ensures AllStorable(entries) && interval >= 1 && size == |BlockBytes(entries, interval)|
    {
      hide Encode, AllStorable, Starts;
      SpacedIs(interval, |entries|, starts, counter);
      size := |buffer| + |restarts| * 4 + 4;
    }

    /** Appends the restart array; offsets are stored in 32 bits. */
    method Finish() returns (block: Bytes)
      requires Valid() && !finished
      modifies this
      ensures finished && entries == old(entries) && starts == old(starts) && block == buffer
      ensures AllStorable(entries) && interval >= 1 && block == BlockBytes(entries, interval)
      ensures |block| < TWO_32 ==> Valid()
    {
      hide Encode, EncodeFixed32, AllStorable, Starts;
      SpacedIs(interval, |entries|, starts, counter);
      ghost var body, words := buffer, Low(restarts);
      for i := 0 to |restarts|
        invariant unchanged(`restarts, `entries, `starts)
        invariant buffer == body + Fixed32s(words[..i])
      {
        assert words[..i + 1][..i] == words[..i];
        buffer := buffer + EncodeFixed32(restarts[i] % TWO_32);
      }
      assert words[..|words|] == words;
      buffer := buffer + EncodeFixed32(|restarts| % TWO_32);
      finished := true;
      block := buffer;
      if |block| < TWO_32 {
        BlockBytesIs(entries, interval);
      }
    }
  }

  lemma {:induction false} BuiltShape(interval: nat, es: seq<KeyValue>, starts: seq<nat>, buffer: Bytes,
                                      restarts: seq<nat>, counter: nat, lastKey: Bytes)
    requires Built(interval, es, starts, buffer, restarts, counter, lastKey)
    ensures counter <= interval
  {
  }

  lemma {:induction false} ContinueKeeps(interval: nat, es: seq<KeyValue>, starts: seq<nat>, buffer: Bytes,
                                         restarts: seq<nat>, counter: nat, lastKey: Bytes, e: KeyValue)
    requires Built(interval, es, starts, buffer, restarts, counter, lastKey) && counter < interval && Storable(e)
    ensures Built(interval, es + [e], starts, buffer + EntryBytes(CommonFrom(lastKey, e.key, 0), e), restarts, counter + 1, e.key)
  {
    hide EntryBytes, RestartOffsets;
    if es != [] {
      StartsBelow(starts, |es|);
    }
    NoRestart(es, starts, e);
    EncodeNext(es + [e], starts);
  }

  lemma {:induction false} StartsBelow(starts: seq<nat>, n: nat)
    requires Restarts(starts, n) && n > 0
    ensures forall i :: 0 <= i < |starts| ==> starts[i] < n
  {
  }

  lemma {:induction false} RestartKeeps(interval: nat, es: seq<KeyValue>, starts: seq<nat>, buffer: Bytes,
                                        restarts: seq<nat>, counter: nat, lastKey: Bytes, e: KeyValue,
                                        starts': seq<nat>, restarts': seq<nat>)
    requires Built(interval, es, starts, buffer, restarts, counter, lastKey) && counter == interval && Storable(e)
    requires starts' == starts + [|es|] && restarts' == restarts + [|buffer|]
    ensures Built(interval, es + [e], starts', buffer + EntryBytes(0, e), restarts', 1, e.key)
  {
    hide EntryBytes, RestartOffsets;
    StartsBelow(starts, |es|);
    SpacedRestart(interval, |es|, starts, counter, starts');
    NewRestart(es, starts, e, starts');
    hide Encode;
    EncodeNext(es + [e], starts');
    hide Spaced, Shared;
  }

  lemma {:induction false} EntryInPieces(before: Bytes, shared: nat, e: KeyValue)
    requires Storable(e) && shared <= |e.key|
    ensures before + Varint(shared) + Varint(|e.key| - shared) + Varint(|e.value|) + e.key[shared..] + e.value
            == before + EntryBytes(shared, e)
  {
    hide Varint;
    assert EntryBytes(shared, e) == Varint(shared) + (Varint(|e.key| - shared) + (Varint(|e.value|) + (e.key[shared..] + e.value)));
  }

  lemma {:induction false} EncodeNext(es: seq<KeyValue>, starts: seq<nat>)
    requires es != [] && AllStorable(es)
    ensures var n := |es| - 1;
            Encode(es, starts, n + 1) == Encode(es, starts, n) + EntryBytes(Shared(es, starts, n), es[n])
  {
  }

  /** A further entry that continues the compression. */
  lemma {:induction false} NoRestart(es: seq<KeyValue>, starts: seq<nat>, e: KeyValue)
    requires AllStorable(es) && Storable(e) && Restarts(starts, |es|) && forall i :: 0 <= i < |starts| ==> starts[i] <= |es|
    requires es != [] ==> starts[|starts| - 1] < |es|
    ensures AllStorable(es + [e]) && Encode(es + [e], starts, |es|) == Encode(es, starts, |es|)
    ensures RestartOffsets(es + [e], starts) == RestartOffsets(es, starts)
    ensures Shared(es + [e], starts, |es|) == if es == [] then 0 else CommonFrom(es[|es| - 1].key, e.key, 0)
  {
    EncodeStable(es, [e], starts, starts, |es|);
    forall i | 0 <= i < |starts| ensures Offset(es + [e], starts, starts[i]) == Offset(es, starts, starts[i]) {
      EncodeStable(es, [e], starts, starts, starts[i]);
    }
  }

  /** A further entry at which the compression starts over. */
  lemma {:induction false} NewRestart(es: seq<KeyValue>, starts: seq<nat>, e: KeyValue, starts': seq<nat>)
    requires AllStorable(es) && Storable(e) && Restarts(starts, |es|) && forall i :: 0 <= i < |starts| ==> starts[i] < |es|
    requires starts' == starts + [|es|]
    ensures AllStorable(es + [e]) && Encode(es + [e], starts', |es|) == Encode(es, starts, |es|)
    ensures RestartOffsets(es + [e], starts') == RestartOffsets(es, starts) + [Offset(es, starts, |es|)]
    ensures Shared(es + [e], starts', |es|) == 0
    ensures Restarts(starts', |es| + 1)
  {
    EncodeStable(es, [e], starts, starts', |es|);
    forall i | 0 <= i < |starts| ensures Offset(es + [e], starts', starts[i]) == Offset(es, starts, starts[i]) {
      EncodeStable(es, [e], starts, starts', starts[i]);
    }
    assert |es| in starts';
  }
}
