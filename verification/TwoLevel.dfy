/** The two-level iterator (table/two_level_iterator.cc): an index cursor whose values name blocks, and
    a cursor over the current block. Empty blocks are passed over in both directions.
 */
module TwoLevel {
  import opened DbFormat
  import opened Cursors

  type Blocks = Value -> seq<Entry>

  /** The entries of the blocks that the first `n` index entries name. */
  function Flat(index: seq<Entry>, blocks: Blocks, n: nat): seq<Entry>
    requires n <= |index|
  {
    if n == 0 then [] else Flat(index, blocks, n - 1) + blocks(index[n - 1].value)
  }

  /** Each index key is at or after the keys of its block and before those of later blocks. */
  ghost predicate Separates(index: seq<Entry>, blocks: Blocks) {
    && Sorted(index)
    && (forall i :: 0 <= i < |index| ==> Sorted(blocks(index[i].value)))
    && (forall i, j :: 0 <= i < |index| && 0 <= j < |blocks(index[i].value)| ==>
          !Less(index[i].key, blocks(index[i].value)[j].key))
    && (forall i, i', j :: 0 <= i < i' < |index| && 0 <= j < |blocks(index[i'].value)| ==>
          Less(index[i].key, blocks(index[i'].value)[j].key))
  }

  lemma {:induction false} FlatGrows(index: seq<Entry>, blocks: Blocks, m: nat, n: nat)
    requires m <= n <= |index|
    ensures Flat(index, blocks, m) <= Flat(index, blocks, n)
    decreases n
  {
    if m < n {
      FlatGrows(index, blocks, m, n - 1);
    }
  }

  /** Entry `j` of block `i` has its place in the whole. */
  lemma {:induction false} FlatAt(index: seq<Entry>, blocks: Blocks, i: nat, j: nat)
    requires i < |index| && j < |blocks(index[i].value)|
    ensures var at := |Flat(index, blocks, i)| + j;
            at < |Flat(index, blocks, |index|)| && Flat(index, blocks, |index|)[at] == blocks(index[i].value)[j]
  {
    FlatGrows(index, blocks, i + 1, |index|);
  }

  /** Entries of the first `n` blocks. */
  lemma {:induction false} FlatBelow(index: seq<Entry>, blocks: Blocks, n: nat, target: InternalKey)
    requires Separates(index, blocks) && n <= |index|
    requires forall i :: 0 <= i < n ==> Less(index[i].key, target)
    ensures forall a :: 0 <= a < |Flat(index, blocks, n)| ==> Less(Flat(index, blocks, n)[a].key, target)
  {
    if n > 0 {
      FlatBelow(index, blocks, n - 1, target);
      var block := blocks(index[n - 1].value);
      forall j | 0 <= j < |block| ensures Less(block[j].key, target) {
        LessOrNot(block[j].key, index[n - 1].key, target);
      }
    }
  }

  lemma {:induction false} LessOrNot(a: InternalKey, b: InternalKey, c: InternalKey)
    requires !Less(b, a) && Less(b, c)
    ensures Less(a, c)
  {
    assert Compare(a, b) <= 0;
  }

  /** The whole is sorted. */
  lemma {:induction false} FlatSorted(index: seq<Entry>, blocks: Blocks, n: nat)
    requires Separates(index, blocks) && n <= |index|
    ensures Sorted(Flat(index, blocks, n))
  {
    if n > 0 {
      FlatSorted(index, blocks, n - 1);
      var before, block := Flat(index, blocks, n - 1), blocks(index[n - 1].value);
      forall j | 0 <= j < |block| ensures forall a :: 0 <= a < |before| ==> Less(before[a].key, block[j].key) {
        FlatBelow(index, blocks, n - 1, block[j].key);
      }
    }
  }

  /** Where a target falls in the whole: in the block of the first index key at or after it. */
  lemma {:induction false} SeekPlace(index: seq<Entry>, blocks: Blocks, target: InternalKey)
    requires Separates(index, blocks)
    ensures var b := LowerBound(index, target);
            var all := Flat(index, blocks, |index|);
            LowerBound(all, target)
            == |Flat(index, blocks, b)| + (if b < |index| then LowerBound(blocks(index[b].value), target) else 0)
  {
    var b := LowerBound(index, target);
    var all, before := Flat(index, blocks, |index|), Flat(index, blocks, b);
    FlatBelow(index, blocks, b, target);
    FlatGrows(index, blocks, b, |index|);
    FlatSorted(index, blocks, |index|);
    if b < |index| {
      var block := blocks(index[b].value);
      var j := LowerBound(block, target);
      var p := |before| + j;
      FlatGrows(index, blocks, b + 1, |index|);
      assert Flat(index, blocks, b + 1) == before + block;
      forall a | 0 <= a < p ensures Less(all[a].key, target) {
        if a >= |before| {
          assert all[a] == block[a - |before|];
        }
      }
      if p < |all| {
        NotBelow(index, blocks, target, p);
      }
      LowerBoundIs(all, target, p);
    } else {
      LowerBoundIs(all, target, |before|);
    }
  }

  /** The entry where a seek should land is not below the target. */
  lemma {:induction false} NotBelow(index: seq<Entry>, blocks: Blocks, target: InternalKey, p: nat)
    requires Separates(index, blocks) && p < |Flat(index, blocks, |index|)|
    requires var b := LowerBound(index, target);
             b < |index| && p == |Flat(index, blocks, b)| + LowerBound(blocks(index[b].value), target)
    ensures !Less(Flat(index, blocks, |index|)[p].key, target)
  {
    hide Flat;
    var b := LowerBound(index, target);
    var block := blocks(index[b].value);
    var j := LowerBound(block, target);
    if j < |block| {
      FlatAt(index, blocks, b, j);
    } else {
      var i, j' := BlockOf(index, blocks, |index|, p);
      FlatAt(index, blocks, i, j');
      if i <= b {
        BlockBefore(index, blocks, i, b);
      } else {
        assert Less(index[b].key, blocks(index[i].value)[j'].key);
        assert !Less(index[b].key, target);
      }
    }
  }

  lemma {:induction false} BlockBefore(index: seq<Entry>, blocks: Blocks, i: nat, b: nat)
    requires i <= b < |index|
    ensures |Flat(index, blocks, i)| + |blocks(index[i].value)| <= |Flat(index, blocks, b)| + |blocks(index[b].value)|
  {
    FlatGrows(index, blocks, i + 1, b + 1);
  }

  /** The block that an entry of the whole comes from. */
  lemma {:induction false} BlockOf(index: seq<Entry>, blocks: Blocks, n: nat, p: nat) returns (i: nat, j: nat)
    requires n <= |index| && p < |Flat(index, blocks, n)|
    ensures i < n && j < |blocks(index[i].value)| && p == |Flat(index, blocks, i)| + j
  {
    if p < |Flat(index, blocks, n - 1)| {
      i, j := BlockOf(index, blocks, n - 1, p);
    } else {
      i, j := n - 1, p - |Flat(index, blocks, n - 1)|;
    }
  }

  // ----- the iterator ------------------------------------------------------

  class TwoLevelIterator {
    const index: Cursor
    const blocks: Blocks
    var data: Cursor?
    /** The index value that `data` was made from. */
    var handle: Value
    /** Position in the whole; its length when the iterator is not valid. */
    ghost var cur: nat

    constructor (index: Cursor, blocks: Blocks)
      requires Separates(index.entries, blocks)
      ensures Ok() && !Valid() && this.index == index && this.blocks == blocks
    {
      this.index, this.blocks, data, handle := index, blocks, null, [];
      new;
      cur := |All()|;
    }

    ghost function All(): seq<Entry> {
      Flat(index.entries, blocks, |index.entries|)
    }

    /** Entries before block `n`. */
    ghost function Offset(n: nat): nat
      requires n <= |index.entries|
    {
      |Flat(index.entries, blocks, n)|
    }

    function Block(n: nat): seq<Entry>
      requires n < |index.entries|
    {
      blocks(index.entries[n].value)
    }

    ghost predicate Shape()
      reads this
    {
      && Separates(index.entries, blocks)
      && (data != null ==> data != index && data.entries == blocks(handle))
    }

    predicate Valid()
      reads this, data
    {
      data != null && data.Valid()
    }

    /** `data` is the block of the current index entry. */
    ghost predicate InBlock()
      reads this, index
    {
      index.Valid() && data != null && data.entries == Block(index.pos) && handle == index.Value()
    }

    ghost predicate Ok()
      reads this, index, data
    {
      && Shape() && cur <= |All()|
      && (!Valid() ==> cur == |All()|)
      && (Valid() ==> InBlock() && cur == Offset(index.pos) + data.pos && cur < |All()|)
    }

    method Key() returns (key: InternalKey)
      requires Ok() && Valid()
      ensures cur < |All()| && key == All()[cur].key
    {
      FlatAt(index.entries, blocks, index.pos, data.pos);
      key := data.Key();
    }

    method Value() returns (value: Value)
      requires Ok() && Valid()
      ensures cur < |All()| && value == All()[cur].value
    {
      FlatAt(index.entries, blocks, index.pos, data.pos);
      value := data.Value();
    }

    /** Makes `data` the block of the index entry, or nothing past the ends of the index. */
    method InitDataBlock()
      requires Shape()
      modifies this`data, this`handle
      ensures Shape() && (if index.Valid() then InBlock() else data == null)
      ensures data == null || data == old(data) || fresh(data)
    {
      if !index.Valid() {
        data := null;
      } else {
        var value := index.Value();
        if data != null && value == handle {
        } else {
          data := new Cursor(blocks(value));
          handle := value;
        }
      }
    }

    /** Passes over empty blocks; `p` is the position to come to. */
    method SkipEmptyDataBlocksForward(ghost p: nat)
      requires Shape()
      requires index.Valid() ==> InBlock() && data.pos <= |data.entries| && p == Offset(index.pos) + data.pos
      requires !index.Valid() ==> data == null && p == |All()|
      modifies this, index, data
      ensures Ok() && cur == p
      ensures data == null || data == old(data) || fresh(data)
    {
      while data == null || !data.Valid()
        invariant Shape() && (data == null || data == old(data) || fresh(data))
        invariant index.Valid() ==> InBlock() && data.pos <= |data.entries| && p == Offset(index.pos) + data.pos
        invariant !index.Valid() ==> data == null && p == |All()|
        decreases |index.entries| - index.pos
      {
        if !index.Valid() {
          data := null;
          cur := |All()|;
          return;
        }
        index.Next();
        InitDataBlock();
        if data != null {
          data.SeekToFirst();
        }
      }
      cur := p;
      FlatAt(index.entries, blocks, index.pos, data.pos);
    }

    /** Passes over empty blocks backward; `p` entries are before the position to leave. */
    method SkipEmptyDataBlocksBackward(ghost p: nat)
      requires Shape() && p <= |All()|
      requires index.Valid() ==> (InBlock()
                 && p == Offset(index.pos) + (if data.Valid() then data.pos + 1 else 0))
      requires !index.Valid() ==> data == null && p == 0
      modifies this, index, data
      ensures Ok() && cur == if p == 0 then |All()| else p - 1
      ensures data == null || data == old(data) || fresh(data)
    {
      while data == null || !data.Valid()
        invariant Shape() && (data == null || data == old(data) || fresh(data))
        invariant index.Valid() ==> (InBlock()
                    && p == Offset(index.pos) + (if data.Valid() then data.pos + 1 else 0))
        invariant !index.Valid() ==> data == null && p == 0
        decreases if index.Valid() then index.pos + 1 else 0
      {
        if !index.Valid() {
          data := null;
          cur := |All()|;
          return;
        }
        index.Prev();
        InitDataBlock();
        if data != null {
          data.SeekToLast();
        }
      }
      cur := p - 1;
      FlatAt(index.entries, blocks, index.pos, data.pos);
    }

    /** The first entry of the whole at or after `target`. */
    method Seek(target: InternalKey)
      requires Ok()
      modifies this, index, data
      ensures Ok() && cur == LowerBound(All(), target)
      ensures data == null || data == old(data) || fresh(data)
    {
      SeekPlace(index.entries, blocks, target);
      index.Seek(target);
      InitDataBlock();
      if data != null {
        data.Seek(target);
      }
      SkipEmptyDataBlocksForward(LowerBound(All(), target));
    }

    method SeekToFirst()
      requires Ok()
      modifies this, index, data
      ensures Ok() && cur == 0
      ensures data == null || data == old(data) || fresh(data)
    {
      index.SeekToFirst();
      InitDataBlock();
      if data != null {
        data.SeekToFirst();
      }
      SkipEmptyDataBlocksForward(0);
    }

    method SeekToLast()
      requires Ok()
      modifies this, index, data
      ensures Ok() && cur == if |All()| == 0 then 0 else |All()| - 1
      ensures data == null || data == old(data) || fresh(data)
    {
      index.SeekToLast();
      InitDataBlock();
      if data != null {
        data.SeekToLast();
      }
      SkipEmptyDataBlocksBackward(|All()|);
    }

    method Next()
      requires Ok() && Valid()
      modifies this, index, data
      ensures Ok() && cur == old(cur) + 1
      ensures data == null || data == old(data) || fresh(data)
    {
      ghost var p := cur + 1;
      data.Next();
      SkipEmptyDataBlocksForward(p);
    }

    method Prev()
      requires Ok() && Valid()
      modifies this, index, data
      ensures Ok() && cur == if old(cur) == 0 then |All()| else old(cur) - 1
      ensures data == null || data == old(data) || fresh(data)
    {
      ghost var p := cur;
      data.Prev();
      SkipEmptyDataBlocksBackward(p);
    }
  }
}
