/** A table in its file (table/table.cc): Table::Open finds the index and the filter from the footer, and
    Table::InternalGet reads blocks and seeks in them with block iterators.
    The comparator of internal keys is the bytewise one; a block iterator compares ranks, so that order is given one.
 */
module TableFile {
  import opened DbFormat
  import opened Coding
  import Separators
  import opened Filters
  import opened BlockFormat
  import opened Blocks
  import opened TableFormat
  import opened Tables

  type Entry = Separators.Entry

  // ----- the rank of an internal key -----------------------------------------

  /** A fraction in base 257: the bytes of the user key as digits from 1 on, then the tag, greater tags first. */
  function Rank(user: Bytes, tag: nat): (r: real)
    requires tag < TWO_64
    ensures 0.0 <= r < 1.0
  {
    if user == [] then (TWO_64 - 1 - tag) as real / TWO_64 as real / 257.0
    else (user[0] as real + 1.0 + Rank(user[1..], tag)) / 257.0
  }

  lemma {:induction false} RankRises(a: Key, b: Key)
    requires KeyFits(a) && KeyFits(b) && Separators.Less(a, b)
    ensures Rank(a.user, a.tag) < Rank(b.user, b.tag)
    decreases |a.user|
  {
    if a.user != [] && b.user != [] && a.user[0] == b.user[0] {
      RankRises(Separators.Key(a.user[1..], a.tag), Separators.Key(b.user[1..], b.tag));
    }
  }

  lemma {:induction false} RankIsOrder(a: Key, b: Key)
    requires KeyFits(a) && KeyFits(b)
    ensures Rank(a.user, a.tag) < Rank(b.user, b.tag) <==> Separators.Less(a, b)
  {
    hide Rank;
    Separators.LessTotal(a, b);
    if Separators.Less(a, b) {
      RankRises(a, b);
    } else if Separators.Less(b, a) {
      RankRises(b, a);
    }
  }

  function RankOf(b: Bytes): real {
    if |b| < 8 then 0.0
    else
      var k := DecodeKey(b);
      Rank(k.user, k.tag)
  }

  lemma {:induction false} RankOfEncoded(a: Key, b: Key)
    requires KeyFits(a) && KeyFits(b)
    ensures RankOf(EncodeKey(a)) < RankOf(EncodeKey(b)) <==> Separators.Less(a, b)
  {
    KeyRoundTrip(a);
    KeyRoundTrip(b);
    RankIsOrder(a, b);
  }

  // ----- seeking in the bytes of a block -------------------------------------------

  ghost predicate StoresBlock(data: Bytes, es: seq<Entry>) {
    AllFit(es) && exists starts :: IsBlock(data, Pairs(es), starts)
  }

  /** What a seek in the entries yields, as bytes. */
  function SoughtPair(es: seq<Entry>, k: Key): Option<KeyValue>
    requires AllFit(es)
  {
    var j := Seek(es, k);
    if j < |es| then Some(Pair(es[j])) else None
  }

  /** Seeks in any bytes, those of a block of rising entries or others. */
  method SeekIn(data: Bytes, rank: Bytes -> real, target: Bytes, ghost intact: bool, ghost pairs: seq<KeyValue>,
                ghost starts: seq<nat>) returns (found: Option<KeyValue>, ghost at: nat)
    requires intact ==> IsBlock(data, pairs, starts)
    ensures intact && Rises(pairs, rank) ==>
              && at <= |pairs| && found == (if at < |pairs| then Some(pairs[at]) else None)
              && forall i :: 0 <= i < |pairs| ==> (i < at <==> rank(pairs[i].key) < rank(target))
  {
    hide IsBlock, BlockIter.Ok, BlockIter.Valid;
    found, at := None, 0;
    if intact {
      BlockOpens(data, pairs, starts);
    }
    var trailer := OpenBlock(data);
    if trailer.None? || trailer.value.count == 0 {
      return;
    }
    var iter := new BlockIter(data, rank, intact, pairs, starts);
    iter.Seek(target);
    at := iter.cur;
    if intact {
      iter.ValidIs();
    }
    if iter.Valid() {
      var key := iter.Key();
      var value := iter.Value();
      found := Some(KeyValue(key, value));
    }
  }

  ghost predicate Rises(pairs: seq<KeyValue>, rank: Bytes -> real) {
    forall i, j :: 0 <= i < j < |pairs| ==> rank(pairs[i].key) < rank(pairs[j].key)
  }

  /** Seeks an internal key in the bytes of a block. */
  method BlockGet(data: Bytes, k: Key, ghost stored: bool, ghost es: seq<Entry>) returns (found: Option<KeyValue>)
    requires KeyFits(k) && (stored ==> StoresBlock(data, es) && InOrder(es))
    ensures stored ==> found == SoughtPair(es, k)
  {
    hide IsBlock, Seek, RankOf, InOrder;
    ghost var pairs: seq<KeyValue>, starts: seq<nat>, at := [], [], 0;
    if stored {
      pairs := Pairs(es);
      starts :| IsBlock(data, Pairs(es), starts);
      PairsRise(es);
    }
    found, at := SeekIn(data, RankOf, EncodeKey(k), stored, pairs, starts);
    if stored {
      SeekAgrees(es, k, at);
    }
  }

  lemma {:induction false} PairsRise(es: seq<Entry>)
    requires AllFit(es) && InOrder(es)
    ensures Rises(Pairs(es), RankOf)
  {
    hide RankOf;
    forall i, j | 0 <= i < j < |es| ensures RankOf(Pairs(es)[i].key) < RankOf(Pairs(es)[j].key) {
      RankOfEncoded(es[i].key, es[j].key);
    }
  }

  /** Where a seek in the bytes of a block ends, a seek in the entries does. */
  lemma {:induction false} SeekAgrees(es: seq<Entry>, k: Key, at: nat)
    requires AllFit(es) && KeyFits(k) && at <= |es|
    requires forall i :: 0 <= i < |es| ==> (i < at <==> RankOf(Pairs(es)[i].key) < RankOf(EncodeKey(k)))
    ensures Seek(es, k) == at
  {
    hide RankOf;
    forall i | 0 <= i < |es| ensures i < at <==> Separators.Less(es[i].key, k) {
      assert Pairs(es)[i] == Pair(es[i]);
      RankOfEncoded(es[i].key, k);
    }
    SeekIs(es, k, at);
  }

  // ----- index and blocks in order --------------------------------------------------

  /** The index and the blocks it names are in order. */
  ghost predicate Seekable(t: Table) {
    && InOrder(t.index)
    && forall i :: 0 <= i < |t.index| ==>
         var h := DecodeHandle(t.index[i].value);
         h.Some? && h.value.offset in t.blocks ==> InOrder(t.blocks[h.value.offset])
  }

  lemma {:induction false} TableIsSeekable(t: Table, policy: Policy, entries: seq<Entry>, cuts: seq<nat>,
                                           handles: seq<Handle>)
    requires IsTable(t, policy, entries, cuts, handles)
    ensures Seekable(t)
  {
    hide DecodeHandle, EncodeHandle, FilterMayMatch, Divides;
    forall i, j | 0 <= i < j < |t.index| ensures Separators.Less(t.index[i].key, t.index[j].key) {
      assert BlockWritten(t.index, t.blocks, entries, cuts[i], cuts[i + 1], handles[i], i);
      assert BlockWritten(t.index, t.blocks, entries, cuts[j], cuts[j + 1], handles[j], j);
      assert cuts[i + 1] <= cuts[j] < cuts[j + 1] <= |entries|;
      IndexKeysRise(entries, cuts[i + 1], cuts[j + 1], t.index[i].key, t.index[j].key);
    }
    forall i | 0 <= i < |t.index|
      ensures var h := DecodeHandle(t.index[i].value);
              h.Some? && h.value.offset in t.blocks ==> InOrder(t.blocks[h.value.offset])
    {
      assert BlockWritten(t.index, t.blocks, entries, cuts[i], cuts[i + 1], handles[i], i);
      HandleRoundTrip(handles[i]);
    }
  }

  lemma {:induction false} IndexKeysRise(entries: seq<Entry>, cut: nat, cut': nat, key: Key, key': Key)
    requires InOrder(entries) && 0 < cut < cut' <= |entries| && Divides(entries, cut, key)
             && Divides(entries, cut', key')
    ensures Separators.Less(key, key')
  {
    hide Separators.KeySeparator, Separators.KeySuccessor;
    var next, last := entries[cut].key, entries[cut' - 1].key;
    Separators.SeparatorOrder(entries[cut - 1].key, next, key);
    assert last == next || Separators.Less(next, last);
    if cut < cut' - 1 {
      Separators.LessTransitive(key, next, last);
    }
    if key' != last {
      if cut' < |entries| {
        Separators.SeparatorOrder(last, entries[cut'].key, key');
      }
      Separators.LessTransitive(key, last, key');
    }
  }

  // ----- opening a table --------------------------------------------------------------

  /** An opened table: the file, the index block and the filter block. */
  datatype Opened = Opened(file: Bytes, index: Bytes, filter: Option<Bytes>)

  function PlainRank(b: Bytes): real {
    Rank(b, 0)
  }

  /** Table::ReadMeta: the filter block that the metaindex block names, if there is one for the policy. What cannot be
      read counts as no filter. */
  method ReadMeta(crc: Crc, file: Bytes, h: Handle, verify: bool, name: Bytes, ghost written: bool,
                  ghost meta: seq<KeyValue>,
                  ghost interval: nat) returns (filter: Option<Bytes>)
    requires written ==>
      && interval >= 1 && AllStorable(meta) && |meta| <= 1
      && Stands(crc, file, h, BlockBytes(meta, interval)) && h.size < TWO_32
    ensures written ==> filter == Named(crc, file, verify, FilterKey(name), meta)
  {
    hide BlockBytes, Starts, Rank, ParseHandle, TableFormat.Trailer, IsBlock;
    filter := None;
    if written {
      StandsReads(crc, file, h, BlockBytes(meta, interval), verify);
      BlockBytesIs(meta, interval);
      OneRank(meta, FilterKey(name));
    }
    hide Stands;
    var contents := ReadBlock(crc, file, h, verify);
    if contents.None? {
      return;
    }
    ghost var starts: seq<nat>, at := [], 0;
    if written {
      starts := Starts(|meta|, interval);
    }
    var found;
    found, at := SeekIn(contents.value, PlainRank, FilterKey(name), written, meta, starts);
    if found.Some? && found.value.key == FilterKey(name) {
      var handle := DecodeHandle(found.value.value);
      if handle.Some? {
        filter := ReadBlock(crc, file, handle.value, verify);
      }
    }
  }

  /** The block that the entry of a key names. */
  function Named(crc: Crc, file: Bytes, verify: bool, key: Bytes, meta: seq<KeyValue>): Option<Bytes>
    requires |meta| <= 1
  {
    if meta == [] || meta[0].key != key then None
    else match DecodeHandle(meta[0].value)
      case None => None
      case Some(h) => ReadBlock(crc, file, h, verify)
  }

  lemma {:induction false} OneRank(meta: seq<KeyValue>, key: Bytes)
    requires |meta| <= 1
    ensures Rises(meta, PlainRank)
  {
  }

  /** Table::Open; `name` is the filter policy's, if the options have one. Bytes that do not end like a table do not
      open; a file that a builder wrote does, with the filter if it is that of the policy. */
  method Open(crc: Crc, file: Bytes, verify: bool, name: Option<Bytes>, ghost written: bool, ghost interval: nat,
              ghost builtName: Bytes, ghost index: seq<Entry>, ghost filter: Option<Bytes>, ghost f: Footer)
    returns (t: Option<Opened>)
    requires written ==> FileEnds(crc, interval, builtName, file, index, filter, f) && |file| < TWO_32
    ensures written ==>
      && t.Some? && t.value.file == file && StoresBlock(t.value.index, index)
      && t.value.filter == if name == Some(builtName) then filter else None
  {
    hide DataBytes, TableFormat.Trailer, BlockBytes, EncodeFooter, DecodeFooter, EncodeHandle, Stands, ReadBlock,
      StoresBlock, Named, MetaPairs, FilterKey;
    if |file| < FOOTER_LENGTH {
      return None;
    }
    if written {
      EndsRead(crc, interval, builtName, file, index, filter, f, verify);
    }
    var footer := DecodeFooter(file[|file| - FOOTER_LENGTH..]);
    if footer.None? {
      return None;
    }
    var contents := ReadBlock(crc, file, footer.value.1, verify);
    if contents.None? {
      return None;
    }
    var found: Option<Bytes> := None;
    if name.Some? {
      ghost var meta := [];
      if written {
        meta := MetaPairs(builtName, if filter.Some? then Some(f.filter) else None);
        FilterNamed(crc, interval, builtName, file, index, filter, f, verify, name.value);
      }
      found := ReadMeta(crc, file, footer.value.0, verify, name.value, written, meta, interval);
    }
    t := Some(Opened(file, contents.value, found));
  }

  /** What a reader finds at the end of a built file. */
  lemma {:induction false} EndsRead(crc: Crc, interval: nat, name: Bytes, file: Bytes, index: seq<Entry>,
                                    filter: Option<Bytes>, f: Footer,
                                    verify: bool)
    requires FileEnds(crc, interval, name, file, index, filter, f) && |file| < TWO_32
    ensures |file| >= FOOTER_LENGTH && DecodeFooter(file[|file| - FOOTER_LENGTH..]) == Some((f.meta, f.index))
    ensures ReadBlock(crc, file, f.index, verify) == Some(DataBytes(index, 1))
            && StoresBlock(DataBytes(index, 1), index)
    ensures f.meta.size < TWO_32
  {
    hide TableFormat.Trailer, BlockBytes, EncodeFooter, DecodeFooter, ReadBlock, IsBlock, AllFit, MetaPairs, Starts;
    FooterRoundTrip(f.meta, f.index);
    StandsReads(crc, file, f.index, DataBytes(index, 1), verify);
    BlockBytesIs(Pairs(index), 1);
  }

  lemma {:induction false} FilterNamed(crc: Crc, interval: nat, builtName: Bytes, file: Bytes, index: seq<Entry>,
                                       filter: Option<Bytes>,
                                       f: Footer, verify: bool, name: Bytes)
    requires FileEnds(crc, interval, builtName, file, index, filter, f) && |file| < TWO_32
    ensures var meta := MetaPairs(builtName, if filter.Some? then Some(f.filter) else None);
            |meta| <= 1 && Named(crc, file, verify, FilterKey(name), meta) == if name == builtName then filter else None
  {
    hide TableFormat.Trailer, BlockBytes, DataBytes, EncodeFooter, EncodeHandle, DecodeHandle, ReadBlock, AllFit;
    if filter.Some? {
      StandsReads(crc, file, f.filter, filter.value, verify);
      HandleRoundTrip(f.filter);
      assert FilterKey(name)[7..] == name && FilterKey(builtName)[7..] == builtName;
    }
  }

  // ----- looking a key up --------------------------------------------------------------

  /** The opened table holds the blocks of `t`. */
  ghost predicate Stores(crc: Crc, o: Opened, verify: bool, t: Table) {
    && StoresBlock(o.index, t.index) && o.filter == t.filter
    && forall i :: 0 <= i < |t.index| ==> StoresIndexed(crc, o.file, verify, t, i)
  }

  ghost predicate StoresIndexed(crc: Crc, file: Bytes, verify: bool, t: Table, i: nat)
    requires i < |t.index|
  {
    match DecodeHandle(t.index[i].value)
    case None => false
    case Some(h) =>
      && h.offset in t.blocks
      && match ReadBlock(crc, file, h, verify)
         case None => false
         case Some(b) => StoresBlock(b, t.blocks[h.offset])
  }

  /** Table::InternalGet over bytes; `t` is the table they store, if they store one. */
  method InternalGet(crc: Crc, o: Opened, verify: bool, policy: Policy, k: Key, ghost stored: bool, ghost t: Table)
    returns (found: Option<KeyValue>)
    requires KeyFits(k) && (stored ==> Stores(crc, o, verify, t) && Seekable(t))
    ensures stored ==>
      && (Lookup(t, policy, k).Some? ==> EntryFits(Lookup(t, policy, k).value))
      && found == match Lookup(t, policy, k) case None => None case Some(e) => Some(KeyValue(EncodeKey(e.key), e.value))
  {
    hide StoresBlock, Seek, DecodeHandle, ReadBlock, FilterMayMatch, InOrder, EncodeKey;
    found := None;
    var entry := BlockGet(o.index, k, stored, t.index);
    if stored {
      BlockFits(o.index, t.index);
      assert Seek(t.index, k) < |t.index| ==> StoresIndexed(crc, o.file, verify, t, Seek(t.index, k));
    }
    if entry.Some? {
      var handle := DecodeHandle(entry.value.value);
      if handle.Some? {
        if o.filter.Some? && !FilterMayMatch(policy, o.filter.value, handle.value.offset, k.user) {
          // not found
        } else {
          var contents := ReadBlock(crc, o.file, handle.value, verify);
          if contents.Some? {
            if stored {
              BlockFits(contents.value, t.blocks[handle.value.offset]);
            }
            found := BlockGet(contents.value, k, stored, if stored then t.blocks[handle.value.offset] else []);
          }
        }
      }
    }
  }

  lemma {:induction false} BlockFits(data: Bytes, es: seq<Entry>)
    requires StoresBlock(data, es)
    ensures AllFit(es)
  {
  }

  /** A file of less than 4 GiB stores the table that was built. */
  lemma {:induction false} BuiltStores(crc: Crc, interval: nat, o: Opened, verify: bool, t: Table, policy: Policy,
                                       entries: seq<Entry>,
                                       cuts: seq<nat>, handles: seq<Handle>)
    requires EachStands(crc, interval, o.file, entries, cuts, handles) && |o.file| < TWO_32
    requires IsTable(t, policy, entries, cuts, handles) && StoresBlock(o.index, t.index) && o.filter == t.filter
    ensures Stores(crc, o, verify, t)
  {
    hide StoresBlock, BlockStands, BlockWritten, FilterPasses, InOrder, StoresIndexed;
    forall i | 0 <= i < |t.index| ensures StoresIndexed(crc, o.file, verify, t, i) {
      assert BlockStands(crc, interval, o.file, entries[cuts[i]..cuts[i + 1]], handles[i]);
      assert BlockWritten(t.index, t.blocks, entries, cuts[i], cuts[i + 1], handles[i], i);
      BlockReads(crc, interval, o.file, verify, t, entries, cuts[i], cuts[i + 1], handles[i], i);
    }
  }

  lemma {:induction false} BlockReads(crc: Crc, interval: nat, file: Bytes, verify: bool, t: Table,
                                      entries: seq<Entry>, lo: nat, hi: nat,
                                      h: Handle, i: nat)
    requires lo < hi <= |entries| && i < |t.index| && interval >= 1 && HandleFits(h) && |file| < TWO_32
    requires BlockStands(crc, interval, file, entries[lo..hi], h)
             && BlockWritten(t.index, t.blocks, entries, lo, hi, h, i)
    ensures StoresIndexed(crc, file, verify, t, i)
  {
    hide TableFormat.Trailer, BlockBytes, EncodeHandle, DecodeHandle, ReadBlock, IsBlock, AllFit, Divides, Starts;
    StandsReads(crc, file, h, DataBytes(entries[lo..hi], interval), verify);
    HandleRoundTrip(h);
    BlockBytesIs(Pairs(entries[lo..hi]), interval);
  }

  /** Without the filter it is still a table of the entries. */
  lemma {:induction false} Unfiltered(t: Table, policy: Policy, entries: seq<Entry>, cuts: seq<nat>,
                                      handles: seq<Handle>)
    requires IsTable(t, policy, entries, cuts, handles)
    ensures IsTable(t.(filter := None), policy, entries, cuts, handles)
  {
    hide InOrder, BlockWritten, FilterMayMatch;
    assert forall i :: 0 <= i < |handles| ==> BlockWritten(t.index, t.blocks, entries, cuts[i], cuts[i + 1], handles[i], i);
  }

  /** What a lookup must find: the newest entry of the user key that the sequence may see; if there is none, nothing of
      that key. */
  ghost predicate FoundNewest(entries: seq<Entry>, k: Key, found: Option<KeyValue>) {
    if exists j :: 0 <= j < |entries| && Tables.Visible(entries[j], k) then
      exists i :: 0 <= i < |entries| && EntryFits(entries[i]) && found == Some(Pair(entries[i])) && Tables.Visible(entries[i], k)
                  && forall j :: 0 <= j < |entries| && Tables.Visible(entries[j], k) ==> entries[j].key.tag <= entries[i].key.tag
    else found.None? || (|found.value.key| >= 8 && DecodeKey(found.value.key).user != k.user)
  }

  lemma {:induction false} FoundIs(t: Table, policy: Policy, entries: seq<Entry>, cuts: seq<nat>,
                                   handles: seq<Handle>, k: Key,
                                   found: Option<KeyValue>)
    requires IsTable(t, policy, entries, cuts, handles)
    requires var r := Lookup(t, policy, k);
             && (r.Some? ==> EntryFits(r.value))
             && found == match r case None => None case Some(e) => Some(KeyValue(EncodeKey(e.key), e.value))
    ensures FoundNewest(entries, k, found)
  {
    hide IsTable, Lookup, EncodeKey, DecodeKey;
    LookupIsExact(t, policy, entries, cuts, handles, k);
    var r := Lookup(t, policy, k);
    if r.Some? {
      KeyRoundTrip(r.value.key);
      if j :| 0 <= j < |entries| && Tables.Visible(entries[j], k) {
        var i :| 0 <= i < |entries| && entries[i] == r.value;
        assert found == Some(Pair(entries[i]));
      }
    }
  }

  /** Builds a table file. */
  method Build(entries: seq<Entry>, policy: Policy, name: Bytes, filtered: bool, crc: Crc, interval: nat,
               blockSize: nat)
    returns (builder: TableBuilder, ghost t: Table, ghost f: Footer)
    requires Sound(policy) && interval >= 1 && |name| + 7 < TWO_32 && InOrder(entries) && AllFit(entries)
    ensures builder.entries == entries && builder.policy == policy && (t.filter.Some? <==> filtered)
    ensures FileEnds(crc, interval, name, builder.file, t.index, t.filter, f)
    ensures EachStands(crc, interval, builder.file, entries, builder.cuts, builder.handles)
    ensures |builder.file| < TWO_32 ==> IsTable(t, policy, entries, builder.cuts, builder.handles)
  {
    hide TableBuilder.Valid, NextIndex, WroteBlock, DataBytes, IsTable, FileEnds, EachStands, EntryFits, MoreKeyed,
      Sound, InOrder;
    builder := new TableBuilder(policy, name, filtered, crc, interval, blockSize);
    for i := 0 to |entries|
      invariant builder.Valid() && !builder.closed && builder.entries == entries[..i] && fresh(builder)
      invariant builder.filter != null ==> fresh(builder.filter)
    {
      NextRises(builder, entries, i);
      builder.Add(entries[i].key, entries[i].value);
      assert entries[..i + 1] == entries[..i] + [Separators.Entry(entries[i].key, entries[i].value)];
    }
    assert entries[..|entries|] == entries;
    t, f := builder.Finish();
  }

  lemma {:induction false} NextRises(builder: TableBuilder, entries: seq<Entry>, i: nat)
    requires builder.Valid() && i < |entries| && builder.entries == entries[..i] && InOrder(entries)
    ensures builder.entries != [] ==> Separators.Less(builder.lastKey, entries[i].key)
  {
    hide AllWritten, AllStand, Filtered, AllFit, Cuts, Separators.Less;
  }

  /** Building a table file, opening it and looking a key up. */
  method BuildAndGet(entries: seq<Entry>, policy: Policy, name: Bytes, filtered: bool, crc: Crc, interval: nat,
                     blockSize: nat,
                     wanted: Option<Bytes>, verify: bool, k: Key) returns (file: Bytes, found: Option<KeyValue>)
    requires Sound(policy) && interval >= 1 && |name| + 7 < TWO_32 && InOrder(entries) && AllFit(entries) && KeyFits(k)
    ensures |file| < TWO_32 ==> FoundNewest(entries, k, found)
  {
    hide IsTable, FileEnds, EachStands, Stores, Seekable, Lookup, InOrder, AllFit, FoundNewest, StoresBlock,
      EncodeKey, Sound;
    var builder;
    ghost var t, f;
    builder, t, f := Build(entries, policy, name, filtered, crc, interval, blockSize);
    file := builder.file;
    found := None;
    ghost var written := |file| < TWO_32;
    var table := Open(crc, file, verify, wanted, written, interval, name, t.index, t.filter, f);
    ghost var t' := if wanted == Some(name) then t else t.(filter := None);
    if written {
      Unfiltered(t, policy, entries, builder.cuts, builder.handles);
      BuiltStores(crc, interval, table.value, verify, t', policy, entries, builder.cuts, builder.handles);
      TableIsSeekable(t', policy, entries, builder.cuts, builder.handles);
    }
    if table.Some? {
      found := InternalGet(crc, table.value, verify, policy, k, written, t');
    }
    if written {
      FoundIs(t', policy, entries, builder.cuts, builder.handles, k, found);
    }
  }
}
