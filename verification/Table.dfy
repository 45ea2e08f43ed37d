/** Building a table and looking a key up in it (table/table_builder.cc, Table::InternalGet in table/table.cc): index,
    filter and data blocks.

    A data block in progress is represented by its entries; what is written of it are the bytes of the block builder.
    TableFile.dfy opens the file and reads it back.
 */
module Tables {
  import opened DbFormat
  import opened Coding
  import Separators
  import opened BlockFormat
  import opened TableFormat
  import opened Filters
  import Blocks

  type Key = Separators.Key
  type Entry = Separators.Entry

  // ----- internal keys as bytes ----------------------------------------------

  predicate KeyFits(k: Key) {
    k.tag < TWO_64
  }

  /** AppendInternalKey, and the key that LookupKey builds. */
  function EncodeKey(k: Key): (b: Bytes)
    requires KeyFits(k)
    ensures |b| == |k.user| + 8
  {
    k.user + EncodeFixed64(k.tag)
  }

  function DecodeKey(b: Bytes): (k: Key)
    requires |b| >= 8
    ensures KeyFits(k)
  {
    Separators.Key(b[..|b| - 8], DecodeFixed64(b[|b| - 8..]))
  }

  lemma {:induction false} KeyRoundTrip(k: Key)
    requires KeyFits(k)
    ensures DecodeKey(EncodeKey(k)) == k
  {
    hide DecodeFixed64, EncodeFixed64;
    var b := EncodeKey(k);
    assert b[..|b| - 8] == k.user && b[|b| - 8..] == EncodeFixed64(k.tag);
  }

  /** The tag has 64 bits, and 32 bits suffice for the lengths of key and value. */
  predicate EntryFits(e: Entry) {
    KeyFits(e.key) && |e.key.user| + 8 < TWO_32 && |e.value| < TWO_32
  }

  predicate AllFit(es: seq<Entry>) {
    forall i :: 0 <= i < |es| ==> EntryFits(es[i])
  }

  function Pair(e: Entry): (r: KeyValue)
    requires EntryFits(e)
    ensures Storable(r)
  {
    KeyValue(EncodeKey(e.key), e.value)
  }

  function Pairs(es: seq<Entry>): (r: seq<KeyValue>)
    requires AllFit(es)
    ensures |r| == |es| && AllStorable(r) && forall i :: 0 <= i < |es| ==> r[i] == Pair(es[i])
  {
    seq(|es|, i requires 0 <= i < |es| => Pair(es[i]))
  }

  /** The block that is written for `es`. */
  ghost function DataBytes(es: seq<Entry>, interval: nat): Bytes
    requires AllFit(es) && interval >= 1
  {
    BlockBytes(Pairs(es), interval)
  }

  // ----- lookup ------------------------------------------------------------

  /** The first entry whose key is not below `k`. */
  function Seek(es: seq<Entry>, k: Key): (p: nat)
    ensures p <= |es|
    ensures forall i :: 0 <= i < p ==> Separators.Less(es[i].key, k)
    ensures p < |es| ==> !Separators.Less(es[p].key, k)
  {
    if es == [] || !Separators.Less(es[0].key, k) then 0 else 1 + Seek(es[1..], k)
  }

  /** An opened table: index block, data blocks by offset, filter block. */
  datatype Table = Table(index: seq<Entry>, blocks: map<nat, seq<Entry>>, filter: Option<Bytes>)

  /** Table::InternalGet: what it hands to the caller's function, if anything. */
  method InternalGet(t: Table, policy: Policy, k: Key) returns (found: Option<Entry>)
    ensures found == Lookup(t, policy, k)
  {
    found := None;
    var i := Seek(t.index, k);
    if i < |t.index| {
      var handle := DecodeHandle(t.index[i].value);
      if t.filter.Some? && handle.Some? && !FilterMayMatch(policy, t.filter.value, handle.value.offset, k.user) {
        // not found
      } else if handle.Some? && handle.value.offset in t.blocks {
        var block := t.blocks[handle.value.offset];
        var j := Seek(block, k);
        if j < |block| {
          found := Some(block[j]);
        }
      }
    }
  }

  function Lookup(t: Table, policy: Policy, k: Key): Option<Entry> {
    var i := Seek(t.index, k);
    if i == |t.index| then None
    else
      var handle := DecodeHandle(t.index[i].value);
      if handle.None? || (t.filter.Some? && !FilterMayMatch(policy, t.filter.value, handle.value.offset, k.user))
         || handle.value.offset !in t.blocks
      then None
      else
        var block := t.blocks[handle.value.offset];
        var j := Seek(block, k);
        if j < |block| then Some(block[j]) else None
  }

  ghost predicate InOrder(es: seq<Entry>) {
    forall i, j :: 0 <= i < j < |es| ==> Separators.Less(es[i].key, es[j].key)
  }

  /** Block `i` is the stretch of entries from cut `i` to the next. */
  ghost predicate Cuts(cuts: seq<nat>, n: nat) {
    && cuts != [] && cuts[0] == 0
    && (forall i, j :: 0 <= i < j < |cuts| ==> cuts[i] < cuts[j])
    && forall i :: 0 <= i < |cuts| ==> cuts[i] <= n
  }

  /** The index key of a block stands between its last key and the next block's first. */
  ghost predicate Divides(entries: seq<Entry>, cut: nat, key: Key)
    requires 0 < cut <= |entries|
  {
    var last := entries[cut - 1].key;
    if cut < |entries| then
      Separators.Separator(last, entries[cut].key, key) && Separators.KeySeparator(last, entries[cut].key, key)
    else (key == last || Separators.Lex(last.user, key.user)) && Separators.KeySuccessor(last, key)
  }

  /** Block `i` as written: its place in the index, its entries. */
  ghost predicate BlockWritten(index: seq<Entry>, blocks: map<nat, seq<Entry>>, entries: seq<Entry>, lo: nat, hi: nat,
                               h: Handle, i: nat)
    requires i < |index| && lo < hi <= |entries|
  {
    && index[i].value == EncodeHandle(h)
    && h.offset in blocks && blocks[h.offset] == entries[lo..hi]
    && Divides(entries, hi, index[i].key)
  }

  /** The filter lets every key of a block at `offset` through. */
  ghost predicate FilterPasses(policy: Policy, filter: Option<Bytes>, entries: seq<Entry>, lo: nat, hi: nat,
                               offset: nat)
    requires lo <= hi <= |entries|
  {
    filter.Some? ==> forall j :: lo <= j < hi ==> FilterMayMatch(policy, filter.value, offset, entries[j].key.user)
  }

  /** `t` is a finished table of `entries`, cut into blocks at `cuts`, written at `handles`. */
  ghost predicate IsTable(t: Table, policy: Policy, entries: seq<Entry>, cuts: seq<nat>, handles: seq<Handle>) {
    && InOrder(entries) && Cuts(cuts, |entries|) && cuts[|cuts| - 1] == |entries|
    && |t.index| == |handles| == |cuts| - 1
    && forall i :: 0 <= i < |handles| ==>
         && BlockWritten(t.index, t.blocks, entries, cuts[i], cuts[i + 1], handles[i], i)
         && FilterPasses(policy, t.filter, entries, cuts[i], cuts[i + 1], handles[i].offset)
         && HandleFits(handles[i])
  }

  /** `e` belongs to `user` and is not newer than the sought tag. */
  predicate Visible(e: Entry, k: Key) {
    e.key.user == k.user && e.key.tag <= k.tag
  }

  /** The block that an entry lies in. */
  lemma {:induction false} BlockOf(cuts: seq<nat>, n: nat, p: nat, c: nat) returns (b: nat)
    requires Cuts(cuts, n) && c < |cuts| && p < cuts[c]
    ensures b + 1 <= c && cuts[b] <= p < cuts[b + 1]
    decreases c
  {
    assert c > 0;
    if cuts[c - 1] <= p {
      b := c - 1;
    } else {
      b := BlockOf(cuts, n, p, c - 1);
    }
  }

  lemma {:induction false} UsersAscend(entries: seq<Entry>, i: nat, j: nat)
    requires InOrder(entries) && i <= j < |entries|
    ensures entries[i].key.user == entries[j].key.user || Separators.Lex(entries[i].key.user, entries[j].key.user)
  {
    if i < j {
      assert Separators.Less(entries[i].key, entries[j].key);
    }
  }

  /** An index key before the block of a visible entry is below the sought key. */
  lemma {:induction false} IndexBelow(entries: seq<Entry>, cut: nat, key: Key, k: Key, p: nat)
    requires InOrder(entries) && 0 < cut <= p < |entries| && Divides(entries, cut, key)
    requires entries[p].key.user == k.user && (forall i :: 0 <= i < p ==> Separators.Less(entries[i].key, k))
    ensures Separators.Less(key, k)
  {
    hide Separators.KeySeparator, Separators.KeySuccessor;
    UsersAscend(entries, cut, p);
    if key != entries[cut - 1].key && entries[cut].key.user != k.user {
      Separators.LexTransitive(key.user, entries[cut].key.user, k.user);
    }
  }

  /** The index key of the block of a visible entry, or of a later block, is not below the sought key. */
  lemma {:induction false} IndexNotBelow(entries: seq<Entry>, cut: nat, key: Key, k: Key, p: nat)
    requires InOrder(entries) && p < cut <= |entries| && Divides(entries, cut, key)
    requires Visible(entries[p], k)
    ensures !Separators.Less(key, k)
  {
    hide Separators.KeySeparator, Separators.KeySuccessor;
    var last := entries[cut - 1].key;
    UsersAscend(entries, p, cut - 1);
    if key == last {
      if p < cut - 1 {
        assert Separators.Less(entries[p].key, last);
      }
      Separators.LessTotal(key, k);
      Separators.LexTotal(last.user, k.user);
    } else {
      if last.user != k.user {
        Separators.LexTransitive(k.user, last.user, key.user);
      }
      Separators.LexTotal(k.user, key.user);
    }
  }

  lemma {:induction false} SeekIs(es: seq<Entry>, k: Key, p: nat)
    requires p <= |es| && (forall i :: 0 <= i < p ==> Separators.Less(es[i].key, k))
    requires p < |es| ==> !Separators.Less(es[p].key, k)
    ensures Seek(es, k) == p
  {
    var q := Seek(es, k);
    assert forall i :: 0 <= i < q ==> Separators.Less(es[i].key, k);
    assert q < |es| ==> !Separators.Less(es[q].key, k);
  }

  /** The first entry at or after the sought key, if of the sought user key, is found. */
  lemma {:induction false} LookupFinds(t: Table, policy: Policy, entries: seq<Entry>, cuts: seq<nat>,
                                       handles: seq<Handle>, k: Key, p: nat)
    requires IsTable(t, policy, entries, cuts, handles)
    requires p == Seek(entries, k) && p < |entries| && entries[p].key.user == k.user
    ensures Lookup(t, policy, k) == Some(entries[p])
  {
    hide DecodeHandle, EncodeHandle, FilterMayMatch, Seek, InOrder, Divides;
    var b := BlockOf(cuts, |entries|, p, |cuts| - 1);
    NotLessVisible(entries[p].key, k);
    assert BlockWritten(t.index, t.blocks, entries, cuts[b], cuts[b + 1], handles[b], b);
    forall i | 0 <= i < b ensures Separators.Less(t.index[i].key, k) {
      assert BlockWritten(t.index, t.blocks, entries, cuts[i], cuts[i + 1], handles[i], i);
      assert cuts[i + 1] <= cuts[b];
      IndexBelow(entries, cuts[i + 1], t.index[i].key, k, p);
    }
    IndexNotBelow(entries, cuts[b + 1], t.index[b].key, k, p);
    SeekIs(t.index, k, b);
    var block := entries[cuts[b]..cuts[b + 1]];
    assert forall j :: 0 <= j < |block| ==> block[j] == entries[cuts[b] + j];
    SeekIs(block, k, p - cuts[b]);
    assert FilterPasses(policy, t.filter, entries, cuts[b], cuts[b + 1], handles[b].offset);
    HandleRoundTrip(handles[b]);
  }

  lemma {:induction false} NotLessVisible(a: Key, k: Key)
    requires a.user == k.user
    ensures !Separators.Less(a, k) <==> a.tag <= k.tag
  {
    Separators.LexTotal(a.user, k.user);
  }

  /** What a lookup yields lies in the table, at or after the sought key. */
  lemma {:induction false} LookupYields(t: Table, policy: Policy, entries: seq<Entry>, cuts: seq<nat>,
                                        handles: seq<Handle>, k: Key)
    requires IsTable(t, policy, entries, cuts, handles) && Lookup(t, policy, k).Some?
    ensures exists j :: 0 <= j < |entries| && entries[j] == Lookup(t, policy, k).value
                        && (entries[j].key.user == k.user ==> Visible(entries[j], k))
  {
    hide DecodeHandle, EncodeHandle, FilterMayMatch, InOrder, Divides;
    var i := Seek(t.index, k);
    assert BlockWritten(t.index, t.blocks, entries, cuts[i], cuts[i + 1], handles[i], i);
    HandleRoundTrip(handles[i]);
    var block := entries[cuts[i]..cuts[i + 1]];
    var j := Seek(block, k);
    assert block[j] == entries[cuts[i] + j];
    if block[j].key.user == k.user {
      NotLessVisible(block[j].key, k);
    }
  }

  /** Whatever the blocks, the separators and the filter: if the table has an entry of the user key that
      the snapshot may see, the lookup yields the newest one; otherwise it yields nothing of that key. */
  lemma {:induction false} LookupIsExact(t: Table, policy: Policy, entries: seq<Entry>, cuts: seq<nat>,
                                         handles: seq<Handle>, k: Key)
    requires IsTable(t, policy, entries, cuts, handles)
    ensures var r := Lookup(t, policy, k);
            if exists j :: 0 <= j < |entries| && Visible(entries[j], k) then
              && r.Some? && Visible(r.value, k) && r.value in entries
              && forall j :: 0 <= j < |entries| && Visible(entries[j], k) ==> entries[j].key.tag <= r.value.key.tag
            else r.None? || r.value.key.user != k.user
  {
    hide DecodeHandle, EncodeHandle, FilterMayMatch, Lookup, Divides;
    var r := Lookup(t, policy, k);
    if j :| 0 <= j < |entries| && Visible(entries[j], k) {
      var p := Seek(entries, k);
      FirstVisible(entries, k, j);
      LookupFinds(t, policy, entries, cuts, handles, k, p);
      forall j | 0 <= j < |entries| && Visible(entries[j], k) ensures entries[j].key.tag <= entries[p].key.tag {
        FirstVisible(entries, k, j);
      }
    } else if r.Some? {
      LookupYields(t, policy, entries, cuts, handles, k);
    }
  }

  /** The first entry at or after the sought key is the newest visible one, if any is visible. */
  lemma {:induction false} FirstVisible(entries: seq<Entry>, k: Key, j: nat)
    requires InOrder(entries) && j < |entries| && Visible(entries[j], k)
    ensures var p := Seek(entries, k);
            p <= j && Visible(entries[p], k) && entries[j].key.tag <= entries[p].key.tag
  {
    var p := Seek(entries, k);
    NotLessVisible(entries[j].key, k);
    assert p <= j;
    UsersAscend(entries, p, j);
    Separators.LessTotal(entries[p].key, k);
    Separators.LexTotal(entries[p].key.user, k.user);
    if p < j {
      assert Separators.Less(entries[p].key, entries[j].key);
    }
  }

  // ----- building ----------------------------------------------------------

  /** The key of the filter in the metaindex block: "filter." and the policy's name. */
  function FilterKey(name: Bytes): Bytes {
    [0x66, 0x69, 0x6c, 0x74, 0x65, 0x72, 0x2e] + name
  }

  /** The metaindex block's entries. */
  function MetaPairs(name: Bytes, filter: Option<Handle>): (r: seq<KeyValue>)
    requires |name| + 7 < TWO_32
    ensures AllStorable(r)
  {
    match filter
    case None => []
    case Some(h) => [KeyValue(FilterKey(name), EncodeHandle(h))]
  }

  /** Where the blocks behind the data blocks are. */
  datatype Footer = Footer(filter: Handle, meta: Handle, index: Handle)

  /** Behind the data blocks stand the filter block, if any, the metaindex block that names it, the index block, and at
      the very end the footer. */
  ghost predicate FileEnds(crc: Crc, interval: nat, name: Bytes, file: Bytes, index: seq<Entry>,
                           filter: Option<Bytes>, f: Footer) {
    && interval >= 1 && AllFit(index) && |name| + 7 < TWO_32
    && |file| >= FOOTER_LENGTH && file[|file| - FOOTER_LENGTH..] == EncodeFooter(f.meta, f.index)
    && Stands(crc, file, f.index, DataBytes(index, 1))
    && Stands(crc, file, f.meta, BlockBytes(MetaPairs(name, if filter.Some? then Some(f.filter) else None), interval))
    && (filter.Some? ==> Stands(crc, file, f.filter, filter.value))
  }

  class TableBuilder {
    const policy: Policy
    const name: Bytes
    const crc: Crc
    const interval: nat
    const blockSize: nat
    const filter: FilterBlockBuilder?
    /** The entries of the data block and of the index block. */
    var dataBlock: seq<Entry>
    var index: seq<Entry>
    var file: Bytes
    var offset: nat
    var lastKey: Key
    var pendingIndexEntry: bool
    var pendingHandle: Handle
    var closed: bool
    /** All entries added; where the written blocks start and end; their handles; the blocks by offset. */
    ghost var entries: seq<Entry>
    ghost var cuts: seq<nat>
    ghost var handles: seq<Handle>
    ghost var blocks: map<nat, seq<Entry>>

    constructor (policy: Policy, name: Bytes, filtered: bool, crc: Crc, interval: nat, blockSize: nat)
      requires Sound(policy) && interval >= 1 && |name| + 7 < TWO_32
      ensures Valid() && entries == [] && file == [] && !closed
      ensures this.policy == policy && this.name == name && this.crc == crc && this.interval == interval
              && this.blockSize == blockSize
      ensures (filter != null) == filtered && (filter != null ==> fresh(filter))
    {
      hide Shape, Fits, ShapeOf, AllFit, AllWritten, AllStand, Filtered, FilterBlockBuilder.Valid, Sound, Closed;
      var f: FilterBlockBuilder? := null;
      if filtered {
        f := new FilterBlockBuilder(policy);
        f.StartBlock(0);
      }
      this.policy, this.name, this.crc, this.interval, this.blockSize, filter := policy, name, crc, interval, blockSize, f;
      dataBlock, index, file, offset, lastKey := [], [], [], 0, Separators.Key([], 0);
      pendingIndexEntry, pendingHandle, closed := false, Handle(0, 0), false;
      entries, cuts, handles, blocks := [], [0], [], map[];
      new;
      NothingBuilt();
    }

    lemma {:induction false} NothingBuilt()
      requires dataBlock == [] && index == [] && file == [] && offset == 0 && entries == [] && cuts == [0]
               && handles == []
      requires !pendingIndexEntry && lastKey == Separators.Key([], 0) && interval >= 1 && |name| + 7 < TWO_32
      ensures Consistent()
    {
    }

    /** What the filter has been given. */
    ghost function Keyed(): Option<set<Added>>
      reads this, filter
    {
      if filter == null then None else Some(filter.added)
    }

    ghost predicate Shape()
      reads this
    {
      ShapeOf(entries, cuts, handles, index, dataBlock, lastKey, pendingIndexEntry, pendingHandle, closed)
    }

    ghost predicate FilterReady()
      reads `offset, filter
    {
      filter != null ==> filter.Valid() && filter.policy == policy && |filter.filters| == offset / FILTER_BASE
    }

    ghost predicate Fits()
      reads this
    {
      && interval >= 1 && |name| + 7 < TWO_32
      && AllFit(entries) && AllFit(dataBlock) && AllFit(index) && EntryFits(Separators.Entry(lastKey, []))
    }

    /** All but the filter's own state. */
    ghost predicate Consistent()
      reads this, filter
    {
      && Shape() && Fits() && Filtered(Keyed(), entries, cuts[|cuts| - 1], |entries|, offset)
      && AllWritten(index, blocks, entries, cuts, handles, offset, Keyed())
      && AllStand(crc, interval, file, offset, entries, cuts, handles)
    }

    ghost predicate Valid()
      reads this, filter
    {
      Consistent() && FilterReady()
    }

    /** Appends a block and its trailer. */
    method WriteRawBlock(contents: Bytes) returns (h: Handle)
      requires offset == |file|
      modifies `file, `offset
      ensures file == old(file) + contents + Trailer(crc, contents) && offset == |file|
      ensures h == Handle(old(offset), |contents|)
    {
      h := Handle(offset, |contents|);
      file := file + contents;
      file := file + Trailer(crc, contents);
      offset := offset + |contents| + 5;
    }

    /** Writes the data block; its index entry is due. */
    method WriteBlock()
      requires Consistent() && !closed && dataBlock != []
      modifies `file, `offset, `pendingHandle, `blocks, `handles, `cuts, `dataBlock, `pendingIndexEntry
      ensures Consistent() && !closed && offset > old(offset) && pendingIndexEntry
      ensures WroteBlock(crc, interval, old(file), file, entries, old(cuts), cuts, old(handles), handles)
      ensures dataBlock == []
    {
      hide AllWritten, Filtered, DataBytes, Trailer, AllFit, AllStand, ShapeOf, Cuts, EntryFits, EncodeHandle,
        WroteBlock, Consistent;
      ConsistentMeans();
      CutsEnd(entries, cuts, handles, index, dataBlock, lastKey, pendingIndexEntry, pendingHandle, closed);
      var raw := BuildData();
      WriteKeeps(index, blocks, entries, cuts, handles, Handle(offset, |raw|), Keyed(), offset + |raw| + 5);
      StandsNext(crc, interval, file, offset, entries, cuts, handles);
      ShapeWrites(entries, cuts, handles, index, dataBlock, lastKey, pendingIndexEntry, pendingHandle, closed,
        Handle(offset, |raw|));
      WroteIs(crc, interval, file, entries, cuts, handles);
      NoneFit();
      RecordBlock(raw);
      ConsistentAgain();
    }

    /** The block goes into the file, and its handle waits for an index entry. */
    method RecordBlock(raw: Bytes)
      requires offset == |file|
      modifies `file, `offset, `pendingHandle, `blocks, `handles, `cuts, `dataBlock, `pendingIndexEntry
      ensures file == old(file) + raw + Trailer(crc, raw) && offset == |file|
              && pendingHandle == Handle(old(offset), |raw|)
      ensures blocks == old(blocks)[old(offset) := old(dataBlock)] && handles == old(handles) + [pendingHandle]
      ensures cuts == old(cuts) + [|entries|] && dataBlock == [] && pendingIndexEntry
    {
      ghost var at := offset;
      pendingHandle := WriteRawBlock(raw);
      blocks := blocks[at := dataBlock];
      handles := handles + [pendingHandle];
      cuts := cuts + [|entries|];
      dataBlock := [];
      pendingIndexEntry := true;
    }

    lemma {:induction false} ConsistentMeans()
      requires Consistent()
      ensures Shape() && Fits() && cuts != [] && cuts[|cuts| - 1] <= |entries| && |handles| == |cuts| - 1
              && Cuts(cuts, |entries|)
      ensures Filtered(Keyed(), entries, cuts[|cuts| - 1], |entries|, offset) && offset == |file|
      ensures AllWritten(index, blocks, entries, cuts, handles, offset, Keyed())
      ensures AllStand(crc, interval, file, offset, entries, cuts, handles)
    {
    }

    lemma {:induction false} ConsistentAgain()
      requires Shape() && Fits() && Cuts(cuts, |entries|) && |handles| == |cuts| - 1
      requires Filtered(Keyed(), entries, cuts[|cuts| - 1], |entries|, offset)
      requires AllWritten(index, blocks, entries, cuts, handles, offset, Keyed())
      requires AllStand(crc, interval, file, offset, entries, cuts, handles)
      ensures Consistent()
    {
    }

    /** The index entry that is due: a key between the last one and the next, and the block's handle. */
    method AddIndexEntry(separator: Key)
      requires pendingIndexEntry
      modifies `index, `pendingIndexEntry
      ensures !pendingIndexEntry && index == old(index) + [Separators.Entry(separator, EncodeHandle(pendingHandle))]
    {
      index := index + [Separators.Entry(separator, EncodeHandle(pendingHandle))];
      pendingIndexEntry := false;
    }

    /** The bytes of the data block. */
    method BuildData() returns (raw: Bytes)
      requires Fits()
      ensures raw == DataBytes(dataBlock, interval)
    {
      raw := Blocks.BuildBlock(Pairs(dataBlock), interval);
    }

    lemma {:induction false} IndexedBlocksEnd()
      requires Shape() && !closed
      ensures |index| <= |handles| && forall i :: 1 <= i <= |index| ==> cuts[i] < |entries|
    {
      forall i | 1 <= i <= |index| ensures cuts[i] < |entries| {
        if i < |cuts| - 1 {
          assert cuts[i] < cuts[|cuts| - 1];
        }
      }
    }

    /** The index entry due before `key`, if there is one. */
    method IndexBefore(key: Key)
      requires Shape() && Fits() && !closed
      modifies `index, `pendingIndexEntry
      ensures Fits() && !pendingIndexEntry && NextIndex(old(index), index, entries, cuts, handles, key)
    {
      hide Cuts, InOrder, EncodeHandle, AllFit, Separators.Separator, Separators.KeySeparator;
      if pendingIndexEntry {
        PendingShape();
        var separator := Separators.SeparatorFor(lastKey, key);
        FitsMore(index, Separators.Entry(separator, EncodeHandle(pendingHandle)));
        AddIndexEntry(separator);
      }
    }

    lemma {:induction false} PendingShape()
      requires Shape() && pendingIndexEntry
      ensures cuts[|cuts| - 1] == |entries| > 0 && |index| + 1 == |handles| && pendingHandle == handles[|index|]
      ensures lastKey == entries[|entries| - 1].key
    {
      assert cuts[|cuts| - 2] < cuts[|cuts| - 1];
    }

    method AddToFilter(user: Bytes)
      requires FilterReady()
      modifies filter
      ensures FilterReady() && (Keyed().Some? <==> old(Keyed()).Some?)
      ensures Keyed().Some? ==> Keyed().value == old(Keyed()).value + {Added(offset / FILTER_BASE, user)}
    {
      hide FilterBlockBuilder.Valid;
      if filter != null {
        filter.AddKey(user);
      }
    }

    /** Appends an entry to the data block. */
    method Append(key: Key, value: Bytes)
      requires Valid() && !closed && (entries != [] ==> Separators.Less(lastKey, key))
      requires EntryFits(Separators.Entry(key, value))
      modifies this, filter
      ensures Valid() && !closed && entries == old(entries) + [Separators.Entry(key, value)]
      ensures dataBlock == old(dataBlock) + [Separators.Entry(key, value)] && file == old(file) && offset == old(offset)
      ensures cuts == old(cuts) && handles == old(handles) && Keyed() == MoreKeyed(old(Keyed()), old(offset), key.user)
      ensures NextIndex(old(index), index, old(entries), cuts, handles, key)
    {
      hide AllWritten, Filtered, ShapeOf, Cuts, FilterReady, NextIndex, InOrder, AllFit, AllStand;
      var e := Separators.Entry(key, value);
      ghost var was, keyed, pending := index, Keyed(), pendingIndexEntry;
      IndexedBlocksEnd();
      CutsBelow();
      IndexBefore(key);
      AddToFilter(key.user);
      ShapeGrows(entries, cuts, handles, was, dataBlock, lastKey, pending, pendingHandle, closed, e, index,
        pendingHandle);
      AddKeeps(was, index, blocks, entries, cuts, handles, offset, keyed, e, Keyed());
      StandMore(crc, interval, file, offset, entries, cuts, handles, e);
      FitsMore(entries, e);
      FitsMore(dataBlock, e);
      lastKey := key;
      dataBlock := dataBlock + [e];
      entries := entries + [e];
    }

    lemma {:induction false} CutsBelow()
      requires Shape()
      ensures cuts != [] && cuts[|cuts| - 1] <= |entries| && Cuts(cuts, |entries|) && |handles| == |cuts| - 1
    {
    }

    /** A data block that has reached the block size is written. */
    method Add(key: Key, value: Bytes)
      requires Valid() && !closed && (entries != [] ==> Separators.Less(lastKey, key))
      requires EntryFits(Separators.Entry(key, value))
      modifies this, filter
      ensures Valid() && !closed && entries == old(entries) + [Separators.Entry(key, value)]
      ensures NextIndex(old(index), index, old(entries), old(cuts), old(handles), key)
      ensures Keyed() == MoreKeyed(old(Keyed()), old(offset), key.user)
      ensures var es := old(dataBlock) + [Separators.Entry(key, value)];
              && AllFit(es)
              && if |DataBytes(es, interval)| >= blockSize then
                   dataBlock == []
                   && WroteBlock(crc, interval, old(file), file, entries, old(cuts), cuts, old(handles), handles)
                 else dataBlock == es && file == old(file) && cuts == old(cuts) && handles == old(handles)
    {
      hide FilterReady, Consistent, NextIndex, DataBytes, WroteBlock, AllFit;
      Append(key, value);
      DataFits();
      var raw := BuildData();
      if |raw| >= blockSize {
        Flush();
      }
    }

    lemma {:induction false} DataFits()
      requires Valid()
      ensures Fits() && AllFit(dataBlock)
    {
    }

    method StartFilter()
      requires filter != null ==> filter.Valid() && filter.policy == policy && |filter.filters| <= offset / FILTER_BASE
      modifies filter
      ensures FilterReady() && Keyed() == old(Keyed())
    {
      hide FilterBlockBuilder.Valid;
      if filter != null {
        filter.StartBlock(offset);
      }
    }

    /** Writes the data block, if there is anything in it. */
    method Flush()
      requires Valid() && !closed
      modifies this, filter
      ensures Valid() && !closed && entries == old(entries) && dataBlock == [] && index == old(index)
      ensures Keyed() == old(Keyed())
      ensures if old(dataBlock) == [] then file == old(file) && cuts == old(cuts) && handles == old(handles)
              else WroteBlock(crc, interval, old(file), file, entries, old(cuts), cuts, old(handles), handles)
    {
      hide Shape, Fits, AllWritten, AllStand, Filtered, Consistent, WroteBlock, Cuts, FilterBlockBuilder.Valid;
      if dataBlock == [] {
        return;
      }
      WriteBlock();
      ConsistentMeans();
      StartFilter();
      ConsistentAgain();
    }

    /** The index entry of the last block. */
    method IndexLast()
      requires ShapeOf(entries, cuts, handles, index, dataBlock, lastKey, pendingIndexEntry, pendingHandle, false)
               && dataBlock == []
      requires AllFit(index) && EntryFits(Separators.Entry(lastKey, []))
      modifies `index, `pendingIndexEntry
      ensures AllFit(index) && LastIndex(old(index), index, entries, cuts, handles)
    {
      hide Cuts, InOrder, EncodeHandle, AllFit, Separators.Lex, Separators.KeySuccessor;
      NoEntries();
      if pendingIndexEntry {
        var successor := Separators.SuccessorOf(lastKey);
        FitsMore(index, Separators.Entry(successor, EncodeHandle(pendingHandle)));
        AddIndexEntry(successor);
      }
    }

    lemma {:induction false} NoEntries()
      requires ShapeOf(entries, cuts, handles, index, dataBlock, lastKey, pendingIndexEntry, pendingHandle, false)
               && dataBlock == []
      ensures cuts != [] && cuts[|cuts| - 1] == |entries| && (handles == [] <==> entries == [])
      ensures InOrder(entries) && Cuts(cuts, |entries|) && |handles| == |cuts| - 1
    {
    }

    /** The filter block, if any, and the metaindex block. */
    method WriteMeta(contents: Option<Bytes>) returns (filterHandle: Option<Handle>, metaHandle: Handle)
      requires offset == |file| && interval >= 1 && |name| + 7 < TWO_32
      modifies `file, `offset
      ensures offset == |file| && old(file) <= file
      ensures filterHandle.Some? <==> contents.Some?
      ensures contents.Some? ==> Stands(crc, file, filterHandle.value, contents.value)
      ensures Stands(crc, file, metaHandle, BlockBytes(MetaPairs(name, filterHandle), interval))
    {
      hide Trailer, Stands, BlockBytes, EncodeHandle, MetaPairs;
      filterHandle := None;
      if contents.Some? {
        StandsLast(crc, file, contents.value);
        var h := WriteRawBlock(contents.value);
        filterHandle := Some(h);
      }
      ghost var filtered := file;
      var meta := Blocks.BuildBlock(MetaPairs(name, filterHandle), interval);
      StandsLast(crc, file, meta);
      metaHandle := WriteRawBlock(meta);
      if contents.Some? {
        StandsGrows(crc, filtered, filterHandle.value, contents.value, meta + Trailer(crc, meta));
        assert file == filtered + (meta + Trailer(crc, meta));
      }
    }

    /** Writes what stands behind the data blocks: filter block, metaindex block, index block and footer. */
    method WriteTail(contents: Option<Bytes>) returns (ghost f: Footer)
      requires offset == |file| && interval >= 1 && |name| + 7 < TWO_32 && AllFit(index)
      modifies `file, `offset
      ensures FileEnds(crc, interval, name, file, index, contents, f) && old(file) <= file
    {
      hide Trailer, Stands, BlockBytes, DataBytes, EncodeFooter, EncodeHandle, MetaPairs, AllFit;
      var filterHandle, metaHandle := WriteMeta(contents);
      ghost var was := file;
      var raw := BuildIndex();
      StandsLast(crc, file, raw);
      var indexHandle := WriteRawBlock(raw);
      var footer := EncodeFooter(metaHandle, indexHandle);
      ghost var all := file;
      file := file + footer;
      offset := offset + |footer|;
      f := Footer(if filterHandle.Some? then filterHandle.value else metaHandle, metaHandle, indexHandle);
      StandsGrows(crc, all, indexHandle, raw, footer);
      ghost var behind := raw + Trailer(crc, raw) + footer;
      assert file == was + behind;
      StandsGrows(crc, was, metaHandle, BlockBytes(MetaPairs(name, filterHandle), interval), behind);
      if contents.Some? {
        StandsGrows(crc, was, filterHandle.value, contents.value, behind);
      }
    }

    method BuildIndex() returns (raw: Bytes)
      requires AllFit(index)
      ensures raw == DataBytes(index, 1)
    {
      raw := Blocks.BuildBlock(Pairs(index), 1);
    }

    /** The filter block, if there is one, lets the keys through that it was given. */
    method FinishFilter() returns (contents: Option<Bytes>)
      requires FilterReady()
      modifies filter
      ensures contents.Some? <==> filter != null
      ensures contents.Some? && |contents.value| < TWO_32 ==> Passes(policy, contents.value, old(Keyed()).value)
    {
      hide FilterBlockBuilder.Valid, IsFilterBlock, Passes, Concat;
      contents := None;
      if filter != null {
        var c := filter.Finish();
        contents := Some(c);
        if |c| < TWO_32 {
          AllPass(policy, c, filter.filters, filter.filterOffsets, filter.added);
        }
      }
    }

    /** Writes the last data block and what stands behind the data blocks. */
    method Finish() returns (ghost t: Table, ghost f: Footer)
      requires Valid() && !closed
      modifies this, filter
      ensures closed && entries == old(entries) && (t.filter.Some? <==> filter != null)
      ensures FileEnds(crc, interval, name, file, t.index, t.filter, f)
      ensures EachStands(crc, interval, file, entries, cuts, handles) && old(file) <= file
      ensures |file| < TWO_32 ==> IsTable(t, policy, entries, cuts, handles)
    {
      hide AllWritten, Filtered, FilterBlockBuilder.Valid, IsTable, LastIndex, Passes, AllFit, AllStand, FileEnds,
        ShapeOf, WroteBlock, Cuts, InOrder, EachStands;
      ghost var first, cuts0, handles0 := file, cuts, handles;
      Flush();
      WroteGrows(crc, interval, first, file, entries, cuts0, cuts, handles0, handles);
      NoEntries();
      ConsistentMeans();
      closed := true;
      ghost var keyed, was, end, data := Keyed(), index, offset, file;
      var contents := FinishFilter();
      IndexLast();
      f := WriteTail(contents);
      t := Table(index, blocks, contents);
      StandInMore(crc, interval, data, end, entries, cuts, handles, file);
      if |file| < TWO_32 {
        HandlesFit(crc, interval, file, entries, cuts, handles);
        FilterFits(crc, interval, name, file, index, contents, f);
        FinishedTable(was, index, blocks, entries, cuts, handles, end, keyed, policy, contents);
      }
    }
  }

  // ----- what the builder keeps --------------------------------------------------

  lemma {:induction false} FitsMore(es: seq<Entry>, e: Entry)
    requires AllFit(es) && EntryFits(e)
    ensures AllFit(es + [e])
  {
  }

  lemma {:induction false} NoneFit()
    ensures AllFit([])
  {
  }

  /** The filter was given the key for the block being collected. */
  ghost function MoreKeyed(keyed: Option<set<Added>>, offset: nat, user: Bytes): Option<set<Added>> {
    match keyed
    case None => None
    case Some(added) => Some(added + {Added(offset / 2048, user)})
  }

  /** The entries since the last cut were written as a block. */
  ghost predicate WroteBlock(crc: Crc, interval: nat, file: Bytes, file': Bytes, entries: seq<Entry>,
                             cuts: seq<nat>, cuts': seq<nat>, handles: seq<Handle>, handles': seq<Handle>) {
    && interval >= 1 && cuts != [] && cuts[|cuts| - 1] <= |entries| && AllFit(entries[cuts[|cuts| - 1]..])
    && var data := DataBytes(entries[cuts[|cuts| - 1]..], interval);
    && file' == file + data + Trailer(crc, data)
    && cuts' == cuts + [|entries|] && handles' == handles + [Handle(|file|, |data|)]
  }

  lemma {:induction false} WroteIs(crc: Crc, interval: nat, file: Bytes, entries: seq<Entry>, cuts: seq<nat>,
                                   handles: seq<Handle>)
    requires interval >= 1 && cuts != [] && cuts[|cuts| - 1] <= |entries| && AllFit(entries[cuts[|cuts| - 1]..])
    ensures var data := DataBytes(entries[cuts[|cuts| - 1]..], interval);
            WroteBlock(crc, interval, file, file + data + Trailer(crc, data), entries, cuts, cuts + [|entries|], handles,
                       handles + [Handle(|file|, |data|)])
  {
    hide AllFit, DataBytes, Trailer;
  }

  lemma {:induction false} WroteGrows(crc: Crc, interval: nat, file: Bytes, file': Bytes, entries: seq<Entry>,
                                      cuts: seq<nat>, cuts': seq<nat>, handles: seq<Handle>, handles': seq<Handle>)
    ensures WroteBlock(crc, interval, file, file', entries, cuts, cuts', handles, handles') ==> file <= file'
  {
    hide AllFit, DataBytes, Trailer;
  }

  /** Each block stands in the file under its handle. */
  ghost predicate AllStand(crc: Crc, interval: nat, file: Bytes, offset: nat, entries: seq<Entry>, cuts: seq<nat>,
                           handles: seq<Handle>)
    requires Cuts(cuts, |entries|) && |handles| == |cuts| - 1
  {
    && interval >= 1 && |file| == offset
    && forall i :: 0 <= i < |handles| ==> BlockStands(crc, interval, file, entries[cuts[i]..cuts[i + 1]], handles[i])
  }

  ghost predicate EachStands(crc: Crc, interval: nat, file: Bytes, entries: seq<Entry>, cuts: seq<nat>,
                             handles: seq<Handle>) {
    && interval >= 1 && Cuts(cuts, |entries|) && |handles| == |cuts| - 1
    && forall i :: 0 <= i < |handles| ==> BlockStands(crc, interval, file, entries[cuts[i]..cuts[i + 1]], handles[i])
  }

  /** What is written behind the blocks leaves them where they are. */
  lemma {:induction false} StandInMore(crc: Crc, interval: nat, file: Bytes, offset: nat, entries: seq<Entry>,
                                       cuts: seq<nat>, handles: seq<Handle>,
                                       file': Bytes)
    requires Cuts(cuts, |entries|) && |handles| == |cuts| - 1
             && AllStand(crc, interval, file, offset, entries, cuts, handles)
    requires file <= file'
    ensures EachStands(crc, interval, file', entries, cuts, handles)
  {
    hide Stands, AllFit, DataBytes;
    forall i | 0 <= i < |handles| ensures BlockStands(crc, interval, file', entries[cuts[i]..cuts[i + 1]], handles[i]) {
      assert BlockStands(crc, interval, file, entries[cuts[i]..cuts[i + 1]], handles[i]);
      StandsGrows(crc, file, handles[i], DataBytes(entries[cuts[i]..cuts[i + 1]], interval), file'[|file|..]);
      assert file' == file + file'[|file|..];
    }
  }

  lemma {:induction false} HandlesFit(crc: Crc, interval: nat, file: Bytes, entries: seq<Entry>, cuts: seq<nat>,
                                      handles: seq<Handle>)
    requires EachStands(crc, interval, file, entries, cuts, handles) && |file| < TWO_64
    ensures forall i :: 0 <= i < |handles| ==> HandleFits(handles[i])
  {
    hide AllFit, DataBytes, Trailer;
    forall i | 0 <= i < |handles| ensures HandleFits(handles[i]) {
      assert BlockStands(crc, interval, file, entries[cuts[i]..cuts[i + 1]], handles[i]);
    }
  }

  lemma {:induction false} FilterFits(crc: Crc, interval: nat, name: Bytes, file: Bytes, index: seq<Entry>,
                                      filter: Option<Bytes>, f: Footer)
    requires FileEnds(crc, interval, name, file, index, filter, f)
    ensures filter.Some? ==> |filter.value| <= |file|
  {
    hide AllFit, DataBytes, BlockBytes, Trailer, EncodeFooter;
  }

  ghost predicate BlockStands(crc: Crc, interval: nat, file: Bytes, es: seq<Entry>, h: Handle)
    requires interval >= 1
  {
    AllFit(es) && Stands(crc, file, h, DataBytes(es, interval))
  }

  lemma {:induction false} StandMore(crc: Crc, interval: nat, file: Bytes, offset: nat, entries: seq<Entry>,
                                     cuts: seq<nat>, handles: seq<Handle>, e: Entry)
    requires Cuts(cuts, |entries|) && |handles| == |cuts| - 1
             && AllStand(crc, interval, file, offset, entries, cuts, handles)
    ensures Cuts(cuts, |entries| + 1) && AllStand(crc, interval, file, offset, entries + [e], cuts, handles)
  {
    hide BlockStands;
    forall i | 0 <= i < |handles| ensures BlockStands(crc, interval, file, (entries + [e])[cuts[i]..cuts[i + 1]], handles[i]) {
      assert (entries + [e])[cuts[i]..cuts[i + 1]] == entries[cuts[i]..cuts[i + 1]];
    }
  }

  lemma {:induction false} StandsNext(crc: Crc, interval: nat, file: Bytes, offset: nat, entries: seq<Entry>,
                                      cuts: seq<nat>, handles: seq<Handle>)
    requires Cuts(cuts, |entries|) && |handles| == |cuts| - 1
             && AllStand(crc, interval, file, offset, entries, cuts, handles)
    requires cuts[|cuts| - 1] < |entries| && AllFit(entries[cuts[|cuts| - 1]..])
    ensures var data := DataBytes(entries[cuts[|cuts| - 1]..], interval);
            && Cuts(cuts + [|entries|], |entries|)
            && AllStand(crc, interval, file + data + Trailer(crc, data), offset + |data| + 5, entries,
                        cuts + [|entries|], handles + [Handle(offset, |data|)])
  {
    hide Stands, AllFit, DataBytes, Trailer;
    var last := entries[cuts[|cuts| - 1]..];
    var data := DataBytes(last, interval);
    var file', cuts', handles' := file + data + Trailer(crc, data), cuts + [|entries|], handles + [Handle(offset, |data|)];
    StandsLast(crc, file, data);
    forall i | 0 <= i < |handles'| ensures BlockStands(crc, interval, file', entries[cuts'[i]..cuts'[i + 1]], handles'[i]) {
      if i < |handles| {
        assert BlockStands(crc, interval, file, entries[cuts[i]..cuts[i + 1]], handles[i]);
        StandsGrows(crc, file, handles[i], DataBytes(entries[cuts[i]..cuts[i + 1]], interval),
          data + Trailer(crc, data));
        assert file' == file + (data + Trailer(crc, data));
      } else {
        assert entries[cuts'[i]..cuts'[i + 1]] == last;
      }
    }
  }

  lemma {:induction false} OrderGrows(entries: seq<Entry>, e: Entry)
    requires InOrder(entries) && (entries != [] ==> Separators.Less(entries[|entries| - 1].key, e.key))
    ensures InOrder(entries + [e])
  {
    var all := entries + [e];
    forall i, j | 0 <= i < j < |all| ensures Separators.Less(all[i].key, all[j].key) {
      if j == |entries| && i < |entries| - 1 {
        assert Separators.Less(entries[i].key, entries[|entries| - 1].key);
        Separators.LessTransitive(entries[i].key, entries[|entries| - 1].key, e.key);
      }
    }
  }

  lemma {:induction false} SliceGrows(entries: seq<Entry>, e: Entry, at: nat)
    requires at <= |entries|
    ensures (entries + [e])[at..] == entries[at..] + [e]
  {
  }

  /** All blocks are in the index already, or the last one is put there with a key before `key`. */
  ghost predicate NextIndex(index: seq<Entry>, index': seq<Entry>, entries: seq<Entry>, cuts: seq<nat>,
                            handles: seq<Handle>, key: Key)
    requires cuts != []
  {
    if |index| == |handles| then index' == index
    else
      && |index| + 1 == |handles| && cuts[|cuts| - 1] == |entries| > 0
      && |index'| == |index| + 1 && index <= index'
      && Separators.Separator(entries[|entries| - 1].key, key, index'[|index|].key)
      && Separators.KeySeparator(entries[|entries| - 1].key, key, index'[|index|].key)
      && index'[|index|].value == EncodeHandle(handles[|index|])
  }

  /** One more entry, and the index entry that was due before it. */
  lemma {:induction false} AddKeeps(index: seq<Entry>, index': seq<Entry>, blocks: map<nat, seq<Entry>>,
                                    entries: seq<Entry>, cuts: seq<nat>, handles: seq<Handle>,
                                    end: nat, keyed: Option<set<Added>>, e: Entry, keyed': Option<set<Added>>)
    requires Cuts(cuts, |entries|) && |handles| == |cuts| - 1
    requires AllWritten(index, blocks, entries, cuts, handles, end, keyed)
    requires keyed.Some? <==> keyed'.Some?
    requires keyed.Some? ==> keyed'.value == keyed.value + {Added(end / FILTER_BASE, e.key.user)}
    requires Filtered(keyed, entries, cuts[|cuts| - 1], |entries|, end)
    requires |index| <= |handles| && forall i :: 1 <= i <= |index| ==> cuts[i] < |entries|
    requires NextIndex(index, index', entries, cuts, handles, e.key)
    ensures Cuts(cuts, |entries| + 1)
    ensures AllWritten(index', blocks, entries + [e], cuts, handles, end, keyed')
    ensures Filtered(keyed', entries + [e], cuts[|cuts| - 1], |entries| + 1, end)
  {
    hide EncodeHandle, Separators.KeySeparator, Separators.KeySuccessor, Separators.Separator;
    var all := entries + [e];
    forall i | 0 <= i < |handles| ensures Written(index', blocks, all, cuts, handles, end, keyed', i) {
      assert Written(index, blocks, entries, cuts, handles, end, keyed, i);
      assert all[cuts[i]..cuts[i + 1]] == entries[cuts[i]..cuts[i + 1]];
    }
  }

  /** How the builder's fields stand to the entries added. */
  ghost predicate ShapeOf(entries: seq<Entry>, cuts: seq<nat>, handles: seq<Handle>, index: seq<Entry>,
                          dataBlock: seq<Entry>,
                          lastKey: Key, pending: bool, handle: Handle, closed: bool)
  {
    && InOrder(entries) && Cuts(cuts, |entries|) && |handles| == |cuts| - 1
    && |index| == |handles| - (if pending then 1 else 0)
    && dataBlock == entries[cuts[|cuts| - 1]..]
    && (!closed && handles != [] && dataBlock == [] ==> pending)
    && (pending ==> handles != [] && dataBlock == [] && handle == handles[|handles| - 1])
    && (entries != [] ==> lastKey == entries[|entries| - 1].key)
  }

  lemma {:induction false} CutsEnd(entries: seq<Entry>, cuts: seq<nat>, handles: seq<Handle>, index: seq<Entry>,
                                   dataBlock: seq<Entry>,
                                   lastKey: Key, pending: bool, handle: Handle, closed: bool)
    requires ShapeOf(entries, cuts, handles, index, dataBlock, lastKey, pending, handle, closed)
    ensures |handles| == |cuts| - 1 && |index| <= |handles| && cuts[|cuts| - 1] <= |entries| && Cuts(cuts, |entries|)
    ensures dataBlock == entries[cuts[|cuts| - 1]..] && (dataBlock != [] ==> cuts[|cuts| - 1] < |entries|)
  {
  }

  lemma {:induction false} ShapeWrites(entries: seq<Entry>, cuts: seq<nat>, handles: seq<Handle>, index: seq<Entry>,
                                       dataBlock: seq<Entry>,
                                       lastKey: Key, pending: bool, handle: Handle, closed: bool, h: Handle)
    requires ShapeOf(entries, cuts, handles, index, dataBlock, lastKey, pending, handle, closed) && dataBlock != []
    ensures ShapeOf(entries, cuts + [|entries|], handles + [h], index, [], lastKey, true, h, closed)
  {
    hide InOrder;
  }

  lemma {:induction false} ShapeGrows(entries: seq<Entry>, cuts: seq<nat>, handles: seq<Handle>, index: seq<Entry>,
                                      dataBlock: seq<Entry>,
                                      lastKey: Key, pending: bool, handle: Handle, closed: bool, e: Entry, index': seq<Entry>,
                                      handle': Handle)
    requires ShapeOf(entries, cuts, handles, index, dataBlock, lastKey, pending, handle, closed)
    requires entries != [] ==> Separators.Less(lastKey, e.key)
    requires NextIndex(index, index', entries, cuts, handles, e.key)
    ensures ShapeOf(entries + [e], cuts, handles, index', dataBlock + [e], e.key, false, handle', closed)
  {
    OrderGrows(entries, e);
    SliceGrows(entries, e, cuts[|cuts| - 1]);
    hide InOrder;
  }

  /** The filter, if there is one, has been given the keys from `lo` to `hi` for a block at `offset`. */
  ghost predicate Filtered(keyed: Option<set<Added>>, entries: seq<Entry>, lo: nat, hi: nat, offset: nat)
    requires lo <= hi <= |entries|
  {
    keyed.Some? ==> forall j :: lo <= j < hi ==> Added(offset / FILTER_BASE, entries[j].key.user) in keyed.value
  }

  /** Block `i` is stored and filtered, and in the index if that is due. */
  ghost predicate Written(index: seq<Entry>, blocks: map<nat, seq<Entry>>, entries: seq<Entry>, cuts: seq<nat>,
                          handles: seq<Handle>,
                          end: nat, keyed: Option<set<Added>>, i: nat)
    requires Cuts(cuts, |entries|) && |handles| == |cuts| - 1 && i < |handles|
  {
    && handles[i].offset < end && handles[i].offset in blocks
    && blocks[handles[i].offset] == entries[cuts[i]..cuts[i + 1]]
    && Filtered(keyed, entries, cuts[i], cuts[i + 1], handles[i].offset)
    && (i < |index| ==> BlockWritten(index, blocks, entries, cuts[i], cuts[i + 1], handles[i], i))
  }

  ghost predicate AllWritten(index: seq<Entry>, blocks: map<nat, seq<Entry>>, entries: seq<Entry>, cuts: seq<nat>,
                             handles: seq<Handle>,
                             end: nat, keyed: Option<set<Added>>)
    requires Cuts(cuts, |entries|) && |handles| == |cuts| - 1
  {
    forall i :: 0 <= i < |handles| ==> Written(index, blocks, entries, cuts, handles, end, keyed, i)
  }

  lemma {:induction false} WriteKeeps(index: seq<Entry>, blocks: map<nat, seq<Entry>>, entries: seq<Entry>,
                                      cuts: seq<nat>, handles: seq<Handle>,
                                      h: Handle, keyed: Option<set<Added>>, end': nat)
    requires Cuts(cuts, |entries|) && |handles| == |cuts| - 1 && |index| <= |handles| && cuts[|cuts| - 1] < |entries|
    requires AllWritten(index, blocks, entries, cuts, handles, h.offset, keyed) && h.offset < end'
    requires Filtered(keyed, entries, cuts[|cuts| - 1], |entries|, h.offset)
    ensures Cuts(cuts + [|entries|], |entries|)
    ensures AllWritten(index, blocks[h.offset := entries[cuts[|cuts| - 1]..]], entries, cuts + [|entries|], handles + [h], end', keyed)
    ensures Filtered(keyed, entries, |entries|, |entries|, end')
  {
    var cuts', handles', blocks' := cuts + [|entries|], handles + [h], blocks[h.offset := entries[cuts[|cuts| - 1]..]];
    hide Filtered, Divides, EncodeHandle;
    forall i | 0 <= i < |handles'| ensures Written(index, blocks', entries, cuts', handles', end', keyed, i) {
      if i < |handles| {
        assert Written(index, blocks, entries, cuts, handles, h.offset, keyed, i);
      }
    }
    assert Filtered(keyed, entries, |entries|, |entries|, end') by {
      NothingFiltered(keyed, entries, end');
    }
  }

  lemma {:induction false} NothingFiltered(keyed: Option<set<Added>>, entries: seq<Entry>, offset: nat)
    ensures Filtered(keyed, entries, |entries|, |entries|, offset)
  {
  }

  /** All blocks are in the index, the last one with a key at or after its own last. */
  ghost predicate LastIndex(index: seq<Entry>, index': seq<Entry>, entries: seq<Entry>, cuts: seq<nat>,
                            handles: seq<Handle>) {
    if handles == [] then index' == [] && entries == []
    else
      && |index| + 1 == |handles| && entries != []
      && |index'| == |index| + 1 && index <= index'
      && (var last, key := entries[|entries| - 1].key, index'[|index|].key;
          (key == last || Separators.Lex(last.user, key.user)) && Separators.KeySuccessor(last, key))
      && index'[|index|].value == EncodeHandle(handles[|index|])
  }

  /** The filter block lets every key through that was added for its block offset. */
  ghost predicate Passes(policy: Policy, contents: Bytes, keyed: set<Added>) {
    forall offset: nat, key :: Added(offset / FILTER_BASE, key) in keyed ==> FilterMayMatch(policy, contents, offset, key)
  }

  lemma {:induction false} AllPass(policy: Policy, contents: Bytes, filters: seq<Bytes>, starts: seq<nat>,
                                   keyed: set<Added>)
    requires IsFilterBlock(contents, filters, starts)
    requires forall a :: a in keyed ==> a.index < |filters| && policy.mayMatch(a.key, filters[a.index])
    ensures Passes(policy, contents, keyed)
  {
    hide IsFilterBlock, FilterMayMatch;
    forall offset: nat, key | Added(offset / FILTER_BASE, key) in keyed ensures FilterMayMatch(policy, contents, offset, key) {
      ReaderAsksFilter(policy, contents, filters, starts, offset, key);
    }
  }

  lemma {:induction false} FinishedTable(index: seq<Entry>, index': seq<Entry>, blocks: map<nat, seq<Entry>>,
                                         entries: seq<Entry>, cuts: seq<nat>, handles: seq<Handle>,
                                         end: nat, keyed: Option<set<Added>>, policy: Policy, contents: Option<Bytes>)
    requires InOrder(entries) && Cuts(cuts, |entries|) && cuts[|cuts| - 1] == |entries| && |handles| == |cuts| - 1
    requires AllWritten(index, blocks, entries, cuts, handles, end, keyed)
    requires LastIndex(index, index', entries, cuts, handles)
    requires contents.Some? ==> keyed.Some? && Passes(policy, contents.value, keyed.value)
    requires forall i :: 0 <= i < |handles| ==> HandleFits(handles[i])
    ensures IsTable(Table(index', blocks, contents), policy, entries, cuts, handles)
  {
    hide EncodeHandle, FilterMayMatch, InOrder, LastIndex, Written;
    IndexWhole(index, index', entries, cuts, handles);
    forall i | 0 <= i < |handles|
      ensures BlockWritten(index', blocks, entries, cuts[i], cuts[i + 1], handles[i], i)
      ensures FilterPasses(policy, contents, entries, cuts[i], cuts[i + 1], handles[i].offset)
    {
      assert Written(index, blocks, entries, cuts, handles, end, keyed, i);
      FinishedBlock(index, index', blocks, entries, cuts, handles, end, keyed, policy, contents, i);
    }
  }

  lemma {:induction false} IndexWhole(index: seq<Entry>, index': seq<Entry>, entries: seq<Entry>, cuts: seq<nat>,
                                      handles: seq<Handle>)
    requires LastIndex(index, index', entries, cuts, handles)
    ensures |index'| == |handles|
  {
  }

  lemma {:induction false} FinishedBlock(index: seq<Entry>, index': seq<Entry>, blocks: map<nat, seq<Entry>>,
                                         entries: seq<Entry>, cuts: seq<nat>, handles: seq<Handle>,
                                         end: nat, keyed: Option<set<Added>>, policy: Policy, contents: Option<Bytes>, i: nat)
    requires Cuts(cuts, |entries|) && cuts[|cuts| - 1] == |entries| && i < |handles| == |cuts| - 1
    requires Written(index, blocks, entries, cuts, handles, end, keyed, i)
    requires LastIndex(index, index', entries, cuts, handles)
    requires contents.Some? ==> keyed.Some? && Passes(policy, contents.value, keyed.value)
    ensures |index'| == |handles|
    ensures BlockWritten(index', blocks, entries, cuts[i], cuts[i + 1], handles[i], i)
    ensures FilterPasses(policy, contents, entries, cuts[i], cuts[i + 1], handles[i].offset)
  {
    hide EncodeHandle, FilterMayMatch, Separators.KeySeparator, Separators.KeySuccessor, Separators.Separator,
      Separators.Lex;
    assert i < |index| ==> index'[i] == index[i];
    assert i == |index| ==> cuts[i + 1] == |entries|;
  }
}
