/** The cache's hash table (util/cache.cc). A bucket's chain of next_hash pointers is a sequence. */
module HandleTables {
  type Key = string

  class LRUHandle {
    const key: Key
    const hash: nat
    const value: int
    const charge: nat
    var inCache: bool
    var refs: nat

    constructor (key: Key, hash: nat, value: int, charge: nat)
      ensures this.key == key && this.hash == hash && this.value == value && this.charge == charge
      ensures !inCache && refs == 1
    {
      this.key, this.hash, this.value, this.charge := key, hash, value, charge;
      inCache, refs := false, 1;
    }

    function Id(): (Key, nat) { (key, hash) }
  }

  type Entries = map<(Key, nat), LRUHandle>

  predicate NoDup(s: seq<LRUHandle>) {
    forall i, j :: 0 <= i < j < |s| ==> s[i] != s[j]
  }

  lemma {:induction false} WithoutAt(s: seq<LRUHandle>, p: nat)
    requires NoDup(s) && p < |s|
    ensures var r := s[..p] + s[p + 1..]; NoDup(r) && forall h :: h in r <==> h in s && h != s[p]
  {
    var r := s[..p] + s[p + 1..];
    assert forall j :: 0 <= j < |r| ==> r[j] == s[if j < p then j else j + 1];
    forall h | h in s && h != s[p] ensures h in r {
      var j :| 0 <= j < |s| && s[j] == h;
      assert r[if j < p then j else j - 1] == h;
    }
  }

  ghost predicate ById(entries: Entries) {
    forall k :: k in entries ==> entries[k].Id() == k
  }

  /** The chain holds exactly the entries that hash into bucket `b` of `n`. */
  ghost predicate IsChain(chain: seq<LRUHandle>, b: nat, n: nat, entries: Entries)
    requires n > 0
  {
    && NoDup(chain)
    && (forall h :: h in chain ==> h.hash % n == b && h.Id() in entries && entries[h.Id()] == h)
    && (forall k :: k in entries && k.1 % n == b ==> entries[k] in chain)
  }

  ghost predicate Buckets(lists: seq<seq<LRUHandle>>, entries: Entries) {
    && ById(entries)
    && (|lists| == 0 ==> entries == map[])
    && forall b :: 0 <= b < |lists| ==> IsChain(lists[b], b, |lists|, entries)
  }

  ghost predicate PowerOfTwo(n: nat) {
    n == 1 || (n > 1 && n % 2 == 0 && PowerOfTwo(n / 2))
  }

  /** One chain changes when one identity changes. */
  lemma {:induction false} BucketsUpdate(lists: seq<seq<LRUHandle>>, entries: Entries, id: (Key, nat),
    chain: seq<LRUHandle>, after: Entries)
    requires Buckets(lists, entries) && |lists| > 0 && ById(after)
    requires forall k :: k in entries && k != id ==> k in after && after[k] == entries[k]
    requires after.Keys <= entries.Keys + {id}
    requires IsChain(chain, id.1 % |lists|, |lists|, after)
    ensures Buckets(lists[id.1 % |lists| := chain], after)
  {
    var n, at := |lists|, id.1 % |lists|;
    var now := lists[at := chain];
    forall b | 0 <= b < n ensures IsChain(now[b], b, n, after) {
      if b != at {
        assert IsChain(lists[b], b, n, entries);
      }
    }
  }

  /** The first place in the chain with this key and hash, or the end of the chain. */
  method FindPointer(chain: seq<LRUHandle>, id: (Key, nat)) returns (p: nat)
    ensures p <= |chain| && (p < |chain| ==> chain[p].Id() == id)
    ensures forall j :: 0 <= j < p ==> chain[j].Id() != id
  {
    p := 0;
    while p < |chain| && (chain[p].hash != id.1 || chain[p].key != id.0)
      invariant p <= |chain| && forall j :: 0 <= j < p ==> chain[j].Id() != id
    {
      p := p + 1;
    }
  }

  lemma {:induction false} FoundIsEntry(chain: seq<LRUHandle>, p: nat, id: (Key, nat), n: nat, entries: Entries)
    requires n > 0 && IsChain(chain, id.1 % n, n, entries) && ById(entries)
    requires p <= |chain| && (p < |chain| ==> chain[p].Id() == id) && forall j :: 0 <= j < p ==> chain[j].Id() != id
    ensures p < |chain| <==> id in entries
    ensures p < |chain| ==> entries[id] == chain[p]
  {
    if p < |chain| {
      assert chain[p] in chain;
    }
    if id in entries {
      var j :| 0 <= j < |chain| && chain[j] == entries[id];
    }
  }

  lemma {:induction false} PutInChain(chain: seq<LRUHandle>, p: nat, h: LRUHandle, n: nat, entries: Entries)
    requires n > 0 && IsChain(chain, h.hash % n, n, entries) && ById(entries)
    requires p <= |chain| && (p < |chain| <==> h.Id() in entries) && (p < |chain| ==> entries[h.Id()] == chain[p])
    ensures IsChain(if p < |chain| then chain[p := h] else chain + [h], h.hash % n, n, entries[h.Id() := h])
    ensures ById(entries[h.Id() := h])
  {
    var after := entries[h.Id() := h];
    var now := if p < |chain| then chain[p := h] else chain + [h];
    assert forall j :: 0 <= j < |now| ==> now[j] == (if j == p then h else chain[j]);
    forall j | 0 <= j < |chain| && j != p ensures chain[j].Id() in entries && chain[j].Id() != h.Id() {
      assert chain[j] in chain;
    }
    forall k | k in after && k.1 % n == h.hash % n ensures after[k] in now {
      if k == h.Id() {
        assert now[p] == h;
      } else {
        var j :| 0 <= j < |chain| && chain[j] == entries[k];
        assert now[j] == chain[j];
      }
    }
  }

  lemma {:induction false} DropFromChain(chain: seq<LRUHandle>, p: nat, id: (Key, nat), n: nat, entries: Entries)
    requires n > 0 && IsChain(chain, id.1 % n, n, entries) && ById(entries)
    requires p < |chain| && id in entries && entries[id] == chain[p]
    ensures IsChain(chain[..p] + chain[p + 1..], id.1 % n, n, entries - {id}) && ById(entries - {id})
  {
    WithoutAt(chain, p);
    forall h | h in chain && h != chain[p] ensures h.Id() != id {
    }
  }

  /** At the head of a chain, where Resize puts what it moves. */
  lemma {:induction false} PushOnChain(chain: seq<LRUHandle>, h: LRUHandle, n: nat, entries: Entries)
    requires n > 0 && IsChain(chain, h.hash % n, n, entries) && ById(entries) && h.Id() !in entries
    ensures IsChain([h] + chain, h.hash % n, n, entries[h.Id() := h]) && ById(entries[h.Id() := h])
  {
    var now := [h] + chain;
    assert forall x :: x in chain ==> x != h;
    assert forall j :: 0 < j < |now| ==> now[j] in chain;
    forall k | k in entries && k.1 % n == h.hash % n ensures entries[k] in now {
      assert entries[k] in chain;
    }
  }

  lemma {:induction false} BucketsFacts(lists: seq<seq<LRUHandle>>, entries: Entries, b: nat)
    requires Buckets(lists, entries) && b < |lists|
    ensures ById(entries) && IsChain(lists[b], b, |lists|, entries)
  {
  }

  lemma {:induction false} EmptyBuckets(lists: seq<seq<LRUHandle>>)
    requires forall b :: 0 <= b < |lists| ==> lists[b] == []
    ensures Buckets(lists, map[])
  {
  }

  method NewLength(elems: nat) returns (n: nat)
    ensures n >= 4 && PowerOfTwo(n) && elems <= n && (n == 4 || n / 2 < elems)
  {
    hide PowerOfTwo;
    n := 4;
    FourIsPower();
    while n < elems
      invariant n >= 4 && PowerOfTwo(n) && (n == 4 || n / 2 < elems)
    {
      TwicePower(n);
      n := n * 2;
    }
  }

  lemma {:induction false} FourIsPower()
    ensures PowerOfTwo(4)
  {
    assert PowerOfTwo(2);
  }

  lemma {:induction false} TwicePower(n: nat)
    requires PowerOfTwo(n) && n > 0
    ensures PowerOfTwo(n * 2)
  {
  }

  /** `moved` are the entries of the first `i` of `n` buckets and of `part`, which are from the next. */
  ghost predicate Moved(n: nat, entries: Entries, moved: Entries, i: nat, part: seq<LRUHandle>) {
    && (forall k :: k in moved ==> n > 0 && k in entries && moved[k] == entries[k])
    && (forall k :: k in moved ==> k.1 % n < i || (k.1 % n == i && entries[k] in part))
    && (forall k :: k in entries && n > 0 && (k.1 % n < i || (k.1 % n == i && entries[k] in part)) ==> k in moved)
  }

  lemma {:induction false} MoveNext(chain: seq<LRUHandle>, j: nat, n: nat, entries: Entries, moved: Entries, i: nat)
    requires n > 0 && ById(entries) && IsChain(chain, i, n, entries) && j < |chain|
    requires Moved(n, entries, moved, i, chain[..j])
    ensures chain[j].Id() !in moved && Moved(n, entries, moved[chain[j].Id() := chain[j]], i, chain[..j + 1])
  {
    var h := chain[j];
    assert h in chain && entries[h.Id()] == h;
    assert chain[..j + 1] == chain[..j] + [h];
    assert h !in chain[..j];
    var after := moved[h.Id() := h];
    forall k | k in entries && (k.1 % n < i || (k.1 % n == i && entries[k] in chain[..j + 1])) ensures k in after {
      if k !in moved {
        assert entries[k] == h;
      }
    }
  }

  lemma {:induction false} ChainMoved(chain: seq<LRUHandle>, n: nat, entries: Entries, moved: Entries, i: nat)
    requires n > 0 && IsChain(chain, i, n, entries) && Moved(n, entries, moved, i, chain)
    ensures Moved(n, entries, moved, i + 1, [])
  {
  }

  lemma {:induction false} AllMoved(lists: seq<seq<LRUHandle>>, entries: Entries, moved: Entries)
    requires Buckets(lists, entries) && Moved(|lists|, entries, moved, |lists|, [])
    ensures moved == entries
  {
  }

  class HandleTable {
    var elems: nat
    var list: array<seq<LRUHandle>>
    ghost var entries: Entries

    ghost predicate Valid()
      reads this, list
    {
      && Buckets(list[..], entries) && elems == |entries|
      && elems <= list.Length && list.Length > 0 && PowerOfTwo(list.Length)
    }

    constructor ()
      ensures Valid() && entries == map[] && fresh(list)
    {
      elems, entries := 0, map[];
      list := new seq<LRUHandle>[0];
      new;
      Resize();
    }

    method Lookup(key: Key, hash: nat) returns (h: LRUHandle?)
      requires Valid()
      ensures h == if (key, hash) in entries then entries[(key, hash)] else null
    {
      var chain := list[hash % list.Length];
      assert list[..][hash % list.Length] == chain;
      var p := FindPointer(chain, (key, hash));
      FoundIsEntry(chain, p, (key, hash), list.Length, entries);
      h := if p < |chain| then chain[p] else null;
    }

    /** Puts `h` in the place of the entry it replaces, which it returns, or at the end of its chain. */
    method Insert(h: LRUHandle) returns (was: LRUHandle?)
      requires Valid()
      modifies this, list
      ensures Valid() && entries == old(entries)[h.Id() := h] && (list == old(list) || fresh(list))
      ensures was == if h.Id() in old(entries) then old(entries)[h.Id()] else null
    {
      hide Buckets, IsChain, ById, PowerOfTwo;
      var n := list.Length;
      var b := h.hash % n;
      var chain := list[b];
      BucketsFacts(list[..], entries, b);
      var p := FindPointer(chain, h.Id());
      FoundIsEntry(chain, p, h.Id(), n, entries);
      PutInChain(chain, p, h, n, entries);
      BucketsUpdate(list[..], entries, h.Id(), if p < |chain| then chain[p := h] else chain + [h],
        entries[h.Id() := h]);
      was := if p < |chain| then chain[p] else null;
      list[b] := if p < |chain| then chain[p := h] else chain + [h];
      assert list[..] == old(list[..])[b := list[b]];
      entries := entries[h.Id() := h];
      if was == null {
        elems := elems + 1;
        if elems > list.Length {
          Resize();
        }
      }
    }

    method Remove(key: Key, hash: nat) returns (was: LRUHandle?)
      requires Valid()
      modifies this, list
      ensures Valid() && entries == old(entries) - {(key, hash)} && list == old(list)
      ensures was == if (key, hash) in old(entries) then old(entries)[(key, hash)] else null
    {
      hide Buckets, IsChain, ById, PowerOfTwo;
      var n := list.Length;
      var b := hash % n;
      var chain := list[b];
      BucketsFacts(list[..], entries, b);
      var p := FindPointer(chain, (key, hash));
      FoundIsEntry(chain, p, (key, hash), n, entries);
      was := if p < |chain| then chain[p] else null;
      ghost var after := entries - {(key, hash)};
      RemovedCount(entries, (key, hash));
      if was != null {
        DropFromChain(chain, p, (key, hash), n, entries);
        BucketsUpdate(list[..], entries, (key, hash), chain[..p] + chain[p + 1..], after);
        list[b] := chain[..p] + chain[p + 1..];
        assert list[..] == old(list[..])[b := list[b]];
        entries, elems := after, elems - 1;
      }
    }

    /** Moves every entry to a table of the least power of two, at least four, that is not below `elems`. */
    method Resize()
      requires Buckets(list[..], entries) && elems == |entries|
      modifies this
      ensures Valid() && fresh(list) && entries == old(entries)
      ensures list.Length == 4 || list.Length / 2 < elems
    {
      hide Buckets, IsChain, ById;
      var newLength := NewLength(elems);
      var newList := new seq<LRUHandle>[newLength](_ => []);
      EmptyBuckets(newList[..]);
      ghost var moved: Entries := map[];
      var count := 0;
      NoneMoved(list.Length, entries);
      for i := 0 to list.Length
        invariant fresh(newList) && newList.Length == newLength && newList != list
        invariant list == old(list) && list[..] == old(list[..]) && entries == old(entries) && elems == old(elems)
        invariant Buckets(newList[..], moved) && count == |moved|
        invariant Moved(list.Length, entries, moved, i, [])
      {
        moved, count := MoveChain(newList, moved, count, i);
      }
      AllMoved(list[..], entries, moved);
      assert elems == count;
      list := newList;
    }

    /** Moves the entries of bucket `i`, each to the head of its new chain. */
    method MoveChain(newList: array<seq<LRUHandle>>, ghost before: Entries, countBefore: nat, i: nat)
      returns (ghost moved: Entries, count: nat)
      requires i < list.Length && newList != list && newList.Length > 0
      requires Buckets(list[..], entries) && Buckets(newList[..], before) && countBefore == |before|
      requires Moved(list.Length, entries, before, i, [])
      modifies newList
      ensures Buckets(newList[..], moved) && count == |moved|
      ensures Moved(list.Length, entries, moved, i + 1, [])
    {
      hide Buckets, IsChain, ById, Moved;
      var chain := list[i];
      BucketsFacts(list[..], entries, i);
      moved, count := before, countBefore;
      assert chain[..0] == [];
      for j := 0 to |chain|
        invariant Buckets(newList[..], moved) && count == |moved|
        invariant Moved(list.Length, entries, moved, i, chain[..j])
      {
        var h := chain[j];
        MoveNext(chain, j, list.Length, entries, moved, i);
        var b := h.hash % newList.Length;
        BucketsFacts(newList[..], moved, b);
        PushOnChain(newList[b], h, newList.Length, moved);
        BucketsUpdate(newList[..], moved, h.Id(), [h] + newList[b], moved[h.Id() := h]);
        ghost var lists := newList[..];
        newList[b] := [h] + newList[b];
        assert newList[..] == lists[b := [h] + lists[b]];
        moved, count := moved[h.Id() := h], count + 1;
      }
      assert chain[..|chain|] == chain;
      ChainMoved(chain, list.Length, entries, moved, i);
    }
  }

  lemma {:induction false} RemovedCount(entries: Entries, id: (Key, nat))
    ensures |entries - {id}| == |entries| - (if id in entries then 1 else 0)
    ensures id !in entries ==> entries - {id} == entries
  {
    assert (entries - {id}).Keys == entries.Keys - {id};
  }

  lemma {:induction false} NoneMoved(n: nat, entries: Entries)
    ensures Moved(n, entries, map[], 0, [])
  {
  }
}
