/** The LRU cache (util/cache.cc): one shard. The two circular lists of handles are sequences, oldest first. */
module Caches {
  import opened HandleTables

  function Charges(s: seq<LRUHandle>): nat {
    if s == [] then 0 else Charges(s[..|s| - 1]) + s[|s| - 1].charge
  }

  lemma {:induction false} ChargesAppend(a: seq<LRUHandle>, b: seq<LRUHandle>)
    ensures Charges(a + b) == Charges(a) + Charges(b)
    decreases |b|
  {
    if b == [] {
      assert a + b == a;
    } else {
      ChargesAppend(a, b[..|b| - 1]);
      assert (a + b)[..|a + b| - 1] == a + b[..|b| - 1];
    }
  }

  /** The list without `e`, the others in their order. */
  function Without(s: seq<LRUHandle>, e: LRUHandle): (r: seq<LRUHandle>) {
    if s == [] then []
    else
      var last := s[|s| - 1];
      Without(s[..|s| - 1], e) + (if last == e then [] else [last])
  }

  lemma {:induction false} WithoutFacts(s: seq<LRUHandle>, e: LRUHandle)
    requires NoDup(s)
    ensures NoDup(Without(s, e)) && forall h :: h in Without(s, e) ==> h in s && h != e
    ensures forall h :: h in s && h != e ==> h in Without(s, e)
    ensures Charges(Without(s, e)) == Charges(s) - (if e in s then e.charge else 0)
    ensures e !in s ==> Without(s, e) == s
  {
    if s != [] {
      var front, last := s[..|s| - 1], s[|s| - 1];
      assert s == front + [last];
      FrontNoDup(s);
      WithoutFacts(front, e);
      var rest := Without(front, e);
      AppendFacts(rest, last);
      var r := Without(s, e);
      assert r == if last == e then rest else rest + [last];
      hide NoDup, Without, Charges;
      assert forall h :: h in s <==> h in front || h == last;
      if last == e {
        assert e !in front && rest == front;
      } else if e !in s {
        assert rest == front;
      }
    }
  }

  lemma {:induction false} FrontNoDup(s: seq<LRUHandle>)
    requires NoDup(s) && s != []
    ensures NoDup(s[..|s| - 1]) && s[|s| - 1] !in s[..|s| - 1]
    ensures Charges(s) == Charges(s[..|s| - 1]) + s[|s| - 1].charge
  {
  }

  lemma {:induction false} AppendFacts(s: seq<LRUHandle>, e: LRUHandle)
    ensures NoDup(s) && e !in s ==> NoDup(s + [e])
    ensures Charges(s + [e]) == Charges(s) + e.charge
    ensures e in s + [e] && (forall h :: h in s ==> h in s + [e]) && forall h :: h in s + [e] ==> h in s || h == e
  {
    assert (s + [e])[..|s|] == s;
  }

  lemma {:induction false} WithoutFirst(s: seq<LRUHandle>)
    requires NoDup(s) && s != []
    ensures Without(s, s[0]) == s[1..]
  {
    if |s| > 1 {
      var front, last := s[..|s| - 1], s[|s| - 1];
      WithoutFirst(front);
      assert front[1..] + [last] == s[1..];
    }
  }

  /** The two lists hold the cached entries: `inUse` those clients refer to, and `lru` the others. */
  ghost predicate Listed(lru: seq<LRUHandle>, inUse: seq<LRUHandle>, cached: set<LRUHandle>,
                         clients: multiset<LRUHandle>) {
    && NoDup(lru) && NoDup(inUse)
    && (forall e :: e in lru ==> e in cached && e !in clients)
    && (forall e :: e in inUse ==> e in cached && e in clients)
    && (forall e :: e in cached ==> if e in clients then e in inUse else e in lru)
  }

  /** A handle's count is that of its clients and of the cache. */
  ghost predicate Counted(handles: set<LRUHandle>, cached: set<LRUHandle>, clients: multiset<LRUHandle>)
    reads handles
  {
    && cached <= handles
    && (forall e :: e in clients ==> e in handles)
    && forall e :: e in handles ==>
         e.refs > 0 && e.inCache == (e in cached) && e.refs == clients[e] + (if e in cached then 1 else 0)
  }

  /** The hash table finds the cached entries, each under its own key and hash. */
  ghost predicate Indexed(entries: Entries, cached: set<LRUHandle>) {
    && (forall k :: k in entries ==> entries[k] in cached && entries[k].Id() == k)
    && (forall e :: e in cached ==> e.Id() in entries && entries[e.Id()] == e)
  }

  lemma {:induction false} FirstReference(lru: seq<LRUHandle>, inUse: seq<LRUHandle>, cached: set<LRUHandle>,
    clients: multiset<LRUHandle>, e: LRUHandle)
    requires Listed(lru, inUse, cached, clients) && e in cached && e !in clients
    ensures Listed(Without(lru, e), inUse + [e], cached, clients + multiset{e})
    ensures Charges(Without(lru, e)) + Charges(inUse + [e]) == Charges(lru) + Charges(inUse)
  {
    hide NoDup, Without, Charges;
    WithoutFacts(lru, e);
    AppendFacts(inUse, e);
    var idle, used := Without(lru, e), inUse + [e];
    var left := clients + multiset{e};
    assert forall x :: x in idle ==> x in cached && x !in left;
    assert forall x :: x in used ==> x in cached && x in left;
    assert forall x :: x in cached ==> if x in left then x in used else x in idle;
  }

  lemma {:induction false} AnotherReference(lru: seq<LRUHandle>, inUse: seq<LRUHandle>, cached: set<LRUHandle>,
    clients: multiset<LRUHandle>, e: LRUHandle)
    requires Listed(lru, inUse, cached, clients) && (e in clients || e !in cached)
    ensures Listed(lru, inUse, cached, clients + multiset{e}) && Without(lru, e) == lru
  {
    hide NoDup, Without, Charges;
    WithoutFacts(lru, e);
    var idle, used := lru, inUse;
    var left := clients + multiset{e};
    assert forall x :: x in idle ==> x in cached && x !in left;
    assert forall x :: x in used ==> x in cached && x in left;
    assert forall x :: x in cached ==> if x in left then x in used else x in idle;
  }

  lemma {:induction false} LastReference(lru: seq<LRUHandle>, inUse: seq<LRUHandle>, cached: set<LRUHandle>,
    clients: multiset<LRUHandle>, e: LRUHandle)
    requires Listed(lru, inUse, cached, clients) && clients[e] == 1 && e in cached
    ensures Listed(lru + [e], Without(inUse, e), cached, clients - multiset{e})
    ensures Charges(lru + [e]) + Charges(Without(inUse, e)) == Charges(lru) + Charges(inUse)
  {
    hide NoDup, Without, Charges;
    WithoutFacts(inUse, e);
    AppendFacts(lru, e);
    var idle, used := lru + [e], Without(inUse, e);
    var left := clients - multiset{e};
    assert forall x :: x in idle ==> x in cached && x !in left;
    assert forall x :: x in used ==> x in cached && x in left;
    assert forall x :: x in cached ==> if x in left then x in used else x in idle;
  }

  lemma {:induction false} LessReferences(lru: seq<LRUHandle>, inUse: seq<LRUHandle>, cached: set<LRUHandle>,
    clients: multiset<LRUHandle>, e: LRUHandle)
    requires Listed(lru, inUse, cached, clients) && e in clients && (clients[e] > 1 || e !in cached)
    ensures Listed(lru, inUse, cached, clients - multiset{e})
  {
    hide NoDup, Without, Charges;
    var idle, used := lru, inUse;
    var left := clients - multiset{e};
    assert forall x :: x in idle ==> x in cached && x !in left;
    assert forall x :: x in used ==> x in cached && x in left;
    assert forall x :: x in cached ==> if x in left then x in used else x in idle;
  }

  lemma {:induction false} DetachListed(lru: seq<LRUHandle>, inUse: seq<LRUHandle>, cached: set<LRUHandle>,
    clients: multiset<LRUHandle>, e: LRUHandle)
    requires Listed(lru, inUse, cached, clients) && e in cached
    ensures Listed(Without(lru, e), Without(inUse, e), cached - {e}, clients + multiset{e})
    ensures Charges(Without(lru, e)) + Charges(Without(inUse, e)) == Charges(lru) + Charges(inUse) - e.charge
  {
    hide NoDup, Without, Charges;
    WithoutFacts(lru, e);
    WithoutFacts(inUse, e);
    var idle, used := Without(lru, e), Without(inUse, e);
    var kept, left := cached - {e}, clients + multiset{e};
    assert forall x :: x in idle ==> x in kept && x !in left;
    assert forall x :: x in used ==> x in kept && x in left;
    assert forall x :: x in kept ==> if x in left then x in used else x in idle;
  }

  lemma {:induction false} AttachListed(lru: seq<LRUHandle>, inUse: seq<LRUHandle>, cached: set<LRUHandle>,
    clients: multiset<LRUHandle>, e: LRUHandle)
    requires Listed(lru, inUse, cached, clients) && e !in cached && e in clients
    ensures Listed(lru, inUse + [e], cached + {e}, clients)
    ensures Charges(inUse + [e]) == Charges(inUse) + e.charge
  {
    hide NoDup, Charges;
    AppendFacts(inUse, e);
  }

  /** How many of `lru`, oldest first, are evicted to bring `usage` within `capacity`. */
  function Excess(lru: seq<LRUHandle>, usage: int, capacity: nat): (n: nat)
    ensures n <= |lru|
  {
    if usage <= capacity || lru == [] then 0 else 1 + Excess(lru[1..], usage - lru[0].charge, capacity)
  }

  lemma {:induction false} ExcessIsLeast(lru: seq<LRUHandle>, usage: int, capacity: nat)
    ensures var n := Excess(lru, usage, capacity);
            && (usage - Charges(lru[..n]) <= capacity || n == |lru|)
            && forall m :: 0 <= m < n ==> usage - Charges(lru[..m]) > capacity
  {
    if usage > capacity && lru != [] {
      var rest := lru[1..];
      var n := Excess(rest, usage - lru[0].charge, capacity);
      ExcessIsLeast(rest, usage - lru[0].charge, capacity);
      forall m | 1 <= m <= |lru| ensures Charges(lru[..m]) == lru[0].charge + Charges(rest[..m - 1]) {
        assert lru[..m] == [lru[0]] + rest[..m - 1];
        ChargesAppend([lru[0]], rest[..m - 1]);
        ChargesAppend([], [lru[0]]);
      }
    }
  }

  method CountUp(e: LRUHandle, ghost handles: set<LRUHandle>, ghost cached: set<LRUHandle>,
    ghost clients: multiset<LRUHandle>)
    requires Counted(handles, cached, clients) && e in handles
    modifies e
    ensures Counted(handles, cached, clients + multiset{e})
  {
    e.refs := e.refs + 1;
  }

  method CountDown(e: LRUHandle, ghost handles: set<LRUHandle>, ghost cached: set<LRUHandle>,
    ghost clients: multiset<LRUHandle>)
    requires Counted(handles, cached, clients) && e in clients
    modifies e
    ensures e.refs == old(e.refs) - 1 && e.inCache == old(e.inCache)
    ensures e.refs > 0 ==> Counted(handles, cached, clients - multiset{e})
    ensures e.refs == 0 ==> Counted(handles - {e}, cached, clients - multiset{e})
  {
    e.refs := e.refs - 1;
  }

  /** The cache's reference to an entry is from here on counted as a client's. */
  method Uncache(e: LRUHandle, ghost handles: set<LRUHandle>, ghost cached: set<LRUHandle>,
    ghost clients: multiset<LRUHandle>)
    requires Counted(handles, cached, clients) && e in cached
    modifies e
    ensures Counted(handles, cached - {e}, clients + multiset{e})
  {
    e.inCache := false;
  }

  /** The entries nobody uses, oldest first, the total charge, and the handles deleted. */
  datatype Lists = Lists(lru: seq<LRUHandle>, usage: int, deleted: seq<LRUHandle>)

  /** The lists when an entry of this charge comes, and the entry that `id` had in `entries` leaves. */
  ghost function AfterPut(lists: Lists, entries: Entries, clients: multiset<LRUHandle>, id: (Key, nat),
                          charge: nat): Lists {
    if id !in entries then lists.(usage := lists.usage + charge)
    else
      var d := entries[id];
      Lists(Without(lists.lru, d), lists.usage + charge - d.charge,
            if d in clients then lists.deleted else lists.deleted + [d])
  }

  lemma {:induction false} SameAfterPut(lists: Lists, entries: Entries, clients: multiset<LRUHandle>, e: LRUHandle,
                                        charge: nat)
    requires e.Id() in entries ==> entries[e.Id()] != e
    ensures AfterPut(lists, entries, clients + multiset{e}, e.Id(), charge) == AfterPut(lists, entries, clients, e.Id(), charge)
  {
  }

  /** The lists when the `n` oldest entries leave. */
  ghost function Evict(lists: Lists, n: nat): Lists
    requires n <= |lists.lru|
  {
    Lists(lists.lru[n..], lists.usage - Charges(lists.lru[..n]), lists.deleted + lists.lru[..n])
  }

  class LRUCache {
    var capacity: nat
    var usage: nat
    var lru: seq<LRUHandle>
    var inUse: seq<LRUHandle>
    const table: HandleTable
    /** The handles that exist, those that are in the cache, and those that clients have not released. */
    ghost var handles: set<LRUHandle>
    ghost var cached: set<LRUHandle>
    ghost var clients: multiset<LRUHandle>
    /** The calls of deleters, in order. */
    ghost var deleted: seq<LRUHandle>

    ghost predicate Core()
      reads `usage, `lru, `inUse, `handles, `cached, `clients, handles
    {
      && Counted(handles, cached, clients) && Listed(lru, inUse, cached, clients)
      && usage == Charges(lru) + Charges(inUse)
    }

    ghost predicate Valid()
      reads `usage, `lru, `inUse, `handles, `cached, `clients, handles, table, table.list
    {
      Core() && table.Valid() && Indexed(table.entries, cached)
    }

    ghost function Visible(): Lists
      reads `lru, `usage, `deleted
    {
      Lists(lru, usage, deleted)
    }

    constructor (capacity: nat)
      ensures Valid() && table.entries == map[] && lru == [] && inUse == [] && usage == 0
      ensures clients == multiset{} && deleted == [] && this.capacity == capacity && fresh(table) && fresh(table.list)
    {
      this.capacity, usage, lru, inUse := capacity, 0, [], [];
      table := new HandleTable();
      handles, cached, clients, deleted := {}, {}, multiset{}, [];
    }

    /** A client takes a reference. */
    method Ref(e: LRUHandle)
      requires Core() && e in handles
      modifies `lru, `inUse, `clients, e
      ensures Core() && clients == old(clients) + multiset{e}
      ensures lru == Without(old(lru), e)
    {
      hide Listed, Charges, Without, Counted;
      ghost var was := clients;
      CountOf(handles, cached, was, e);
      if e.refs == 1 && e.inCache {
        FirstReference(lru, inUse, cached, was, e);
        lru, inUse := Without(lru, e), inUse + [e];
      } else {
        AnotherReference(lru, inUse, cached, was, e);
      }
      CountUp(e, handles, cached, was);
      clients := was + multiset{e};
    }

    /** A client gives up a reference. */
    method Unref(e: LRUHandle)
      requires Core() && e in clients
      modifies `lru, `inUse, `clients, `handles, `deleted, e
      ensures Core() && clients == old(clients) - multiset{e}
      ensures lru == if e in cached && e !in clients then old(lru) + [e] else old(lru)
      ensures deleted == if e !in cached && e !in clients then old(deleted) + [e] else old(deleted)
      ensures handles == if e !in cached && e !in clients then old(handles) - {e} else old(handles)
    {
      hide Listed, Charges, Without, Counted;
      CountOf(handles, cached, clients, e);
      ghost var was, left := clients, clients - multiset{e};
      CountDown(e, handles, cached, was);
      clients := left;
      if e.refs == 0 {
        LessReferences(lru, inUse, cached, was, e);
        handles, deleted := handles - {e}, deleted + [e];
      } else if e.inCache && e.refs == 1 {
        LastReference(lru, inUse, cached, was, e);
        lru, inUse := lru + [e], Without(inUse, e);
      } else {
        LessReferences(lru, inUse, cached, was, e);
      }
    }

    /** Ends the cache's reference to an entry that is no longer in the hash table. */
    method FinishErase(e: LRUHandle)
      requires Core() && e in cached
      modifies `usage, `lru, `inUse, `handles, `cached, `clients, `deleted, e
      ensures Core() && cached == old(cached) - {e} && clients == old(clients)
      ensures lru == Without(old(lru), e) && usage == old(usage) - e.charge
      ensures deleted == if e in clients then old(deleted) else old(deleted) + [e]
      ensures handles == if e in clients then old(handles) else old(handles) - {e}
    {
      hide Listed, Charges, Without, Counted;
      CountOf(handles, cached, clients, e);
      DetachListed(lru, inUse, cached, clients, e);
      lru, inUse := Without(lru, e), Without(inUse, e);
      usage := usage - e.charge;
      Uncache(e, handles, cached, clients);
      cached, clients := cached - {e}, clients + multiset{e};
      Unref(e);
      assert clients == old(clients);
    }

    /** Puts a new handle, which its client refers to, in the cache; an entry it replaces leaves. */
    method Put(e: LRUHandle)
      requires Valid() && e in clients && e !in cached
      modifies `usage, `lru, `inUse, `handles, `cached, `clients, `deleted, table, table.list, handles
      ensures Valid() && clients == old(clients) && handles <= old(handles)
      ensures table.entries == old(table.entries)[e.Id() := e]
      ensures (table.list == old(table.list) || fresh(table.list))
      ensures Visible() == AfterPut(old(Visible()), old(table.entries), clients, e.Id(), e.charge)
    {
      hide Charges, Without, Core, Indexed, HandleTable.Valid;
      CoreFacts(e);
      Attach(e);
      PutIndexed(table.entries, old(cached), e);
      var was := table.Insert(e);
      if was != null {
        CoreFacts(was);
        FinishErase(was);
      }
    }

    lemma {:induction false} CoreFacts(e: LRUHandle)
      requires Core() && (e in handles || e in clients || e in cached)
      ensures e in handles
    {
    }

    /** The cache takes a reference to a handle, and the handle joins the list of those in use. */
    method Attach(e: LRUHandle)
      requires Core() && e in clients && e !in cached
      modifies `usage, `inUse, `cached, e
      ensures Core() && cached == old(cached) + {e} && usage == old(usage) + e.charge
    {
      hide Listed, Charges, Counted;
      AttachListed(lru, inUse, cached, clients, e);
      Encache(e, handles, cached, clients);
      inUse := inUse + [e];
      usage := usage + e.charge;
      cached := cached + {e};
    }

    /** The body of the loops of Insert and Prune: the oldest entry nobody uses leaves the cache. */
    method EvictOldest()
      requires Valid() && lru != []
      modifies `usage, `lru, `inUse, `handles, `cached, `clients, `deleted, table, table.list, lru[0]
      ensures Valid() && clients == old(clients) && table.list == old(table.list)
      ensures lru == old(lru)[1..] && usage == old(usage) - old(lru)[0].charge
              && deleted == old(deleted) + [old(lru)[0]]
      ensures table.entries == old(table.entries) - {old(lru)[0].Id()}
      ensures handles == old(handles) - {old(lru)[0]}
    {
      hide Charges, Without, Core, Indexed, HandleTable.Valid;
      var e := lru[0];
      OldestFacts();
      CachedEntry(table.entries, cached, e);
      DropIndexed(table.entries, cached, e.Id());
      var was := table.Remove(e.key, e.hash);
      FinishErase(was);
    }

    lemma {:induction false} OldestFacts()
      requires Core() && lru != []
      ensures lru[0] in cached && lru[0] in handles && lru[0] !in clients && Without(lru, lru[0]) == lru[1..]
    {
      WithoutFirst(lru);
    }

    /** The loop of Insert. */
    method EvictExcess()
      requires Valid()
      modifies `usage, `lru, `inUse, `handles, `cached, `clients, `deleted, table, table.list, handles
      ensures Valid() && clients == old(clients) && table.list == old(table.list) && handles <= old(handles)
      ensures var n := Excess(old(lru), old(usage), capacity);
              Visible() == Evict(old(Visible()), n) && table.entries == old(table.entries) - Ids(old(lru)[..n])
      ensures usage <= capacity || lru == []
    {
      hide Charges, Without, Core, Indexed, HandleTable.Valid, Evicting, Excess, Evict, Ids;
      ghost var n: nat := 0;
      EvictingStarts(Visible(), table.entries, capacity);
      while usage > capacity && lru != []
        invariant Valid() && clients == old(clients) && table.list == old(table.list) && handles <= old(handles)
        invariant Evicting(old(Visible()), old(table.entries), capacity, n, Visible(), table.entries)
        decreases |lru|
      {
        OldestFacts();
        EvictingStep(old(Visible()), old(table.entries), capacity, n, Visible(), table.entries);
        EvictOldest();
        n := n + 1;
      }
      EvictingEnds(old(Visible()), old(table.entries), capacity, n, Visible(), table.entries);
    }

    method Prune()
      requires Valid()
      modifies `usage, `lru, `inUse, `handles, `cached, `clients, `deleted, table, table.list, handles
      ensures Valid() && clients == old(clients) && lru == []
      ensures deleted == old(deleted) + old(lru) && usage == old(usage) - Charges(old(lru))
      ensures table.entries == old(table.entries) - Ids(old(lru))
    {
      hide Charges, Without, Core, Indexed, HandleTable.Valid;
      ghost var n: nat := 0;
      NoCharge(lru[..0]);
      while lru != []
        invariant Valid() && clients == old(clients) && table.list == old(table.list) && handles <= old(handles)
        invariant n <= |old(lru)| && lru == old(lru)[n..] && usage == old(usage) - Charges(old(lru)[..n])
        invariant deleted == old(deleted) + old(lru)[..n] && table.entries == old(table.entries) - Ids(old(lru)[..n])
        decreases |lru|
      {
        OldestFacts();
        TakeNext(old(lru), n);
        EvictOldest();
        n := n + 1;
      }
      assert old(lru)[..n] == old(lru);
    }

    method Insert(key: Key, hash: nat, value: int, charge: nat) returns (e: LRUHandle)
      requires Valid()
      modifies `usage, `lru, `inUse, `handles, `cached, `clients, `deleted, table, table.list, handles
      ensures Valid() && fresh(e) && clients == old(clients) + multiset{e}
      ensures e.Id() == (key, hash) && e.value == value && e.charge == charge
      ensures usage <= capacity || lru == []
      ensures var was := old(table.entries);
              var put := if capacity > 0 then AfterPut(old(Visible()), was, old(clients), (key, hash), charge)
                         else old(Visible());
              var n := Excess(put.lru, put.usage, capacity);
              && Visible() == Evict(put, n)
              && table.entries == (if capacity > 0 then was[(key, hash) := e] else was) - Ids(put.lru[..n])
    {
      hide Charges, Without, Core, Indexed, HandleTable.Valid, Excess, AfterPut, Evict;
      e := new LRUHandle(key, hash, value, charge);
      AddHandle(e);
      SameAfterPut(old(Visible()), table.entries, old(clients), e, charge);
      if capacity > 0 {
        Put(e);
      }
      EvictExcess();
    }

    /** The handle Insert returns to its caller. */
    ghost method AddHandle(e: LRUHandle)
      requires Core() && e !in handles && e.refs == 1 && !e.inCache
      modifies `handles, `clients
      ensures Core() && handles == old(handles) + {e} && clients == old(clients) + multiset{e} && e !in cached
    {
      hide Listed, Charges, Without;
      NewCount(handles, cached, clients, e);
      AnotherReference(lru, inUse, cached, clients, e);
      handles, clients := handles + {e}, clients + multiset{e};
    }

    method Lookup(key: Key, hash: nat) returns (e: LRUHandle?)
      requires Valid()
      modifies `lru, `inUse, `clients, handles
      ensures Valid()
      ensures e == if (key, hash) in table.entries then table.entries[(key, hash)] else null
      ensures e == null ==> lru == old(lru) && clients == old(clients)
      ensures e != null ==> lru == Without(old(lru), e) && clients == old(clients) + multiset{e}
    {
      hide Charges, Without, Core, HandleTable.Valid;
      e := table.Lookup(key, hash);
      if e != null {
        CoreFacts(e);
        Ref(e);
      }
    }

    /** The entry nobody else uses becomes the newest of `lru`, or is deleted if it has left the cache. */
    method Release(handle: LRUHandle)
      requires Valid() && handle in clients
      modifies `lru, `inUse, `clients, `handles, `deleted, handle
      ensures Valid() && clients == old(clients) - multiset{handle} && table.entries == old(table.entries)
      ensures var (idle, listed) := (handle !in clients, handle in table.entries.Values);
              && lru == (if idle && listed then old(lru) + [handle] else old(lru))
              && deleted == (if idle && !listed then old(deleted) + [handle] else old(deleted))
    {
      hide Charges, Without, Core, HandleTable.Valid;
      Unref(handle);
      assert handle in cached <==> handle in table.entries.Values;
    }

    method Erase(key: Key, hash: nat)
      requires Valid()
      modifies `usage, `lru, `inUse, `handles, `cached, `clients, `deleted, table, table.list, handles
      ensures Valid() && clients == old(clients) && table.entries == old(table.entries) - {(key, hash)}
      ensures Visible() == AfterPut(old(Visible()), old(table.entries), clients, (key, hash), 0)
    {
      hide Charges, Without, Core, Indexed, HandleTable.Valid;
      if (key, hash) in table.entries {
        DropIndexed(table.entries, cached, (key, hash));
      }
      RemovedCount(table.entries, (key, hash));
      var was := table.Remove(key, hash);
      if was != null {
        CoreFacts(was);
        FinishErase(was);
      }
    }

    /** A handle in the cache is in the hash table and, once, in exactly one list, by its count; any other is in
        neither, and is its clients' alone. */
    lemma {:induction false} EachEntryInOneList(e: LRUHandle)
      requires Valid() && e in handles
      ensures e.inCache <==> e.Id() in table.entries && table.entries[e.Id()] == e
      ensures NoDup(lru) && NoDup(inUse) && !(e in lru && e in inUse)
      ensures e in lru <==> e.inCache && e.refs == 1
      ensures e in inUse <==> e.inCache && e.refs >= 2
      ensures e.refs == clients[e] + (if e.inCache then 1 else 0)
      ensures usage == Charges(lru) + Charges(inUse)
    {
      hide Charges, NoDup, HandleTable.Valid;
    }

    /** No handle that a client holds has been freed, and none is kept that nobody refers to. */
    lemma {:induction false} HandlesInUse(e: LRUHandle)
      requires Valid()
      ensures e in handles <==> e in clients || (e.Id() in table.entries && table.entries[e.Id()] == e)
    {
      hide Charges, NoDup, HandleTable.Valid;
    }
  }

  method Encache(e: LRUHandle, ghost handles: set<LRUHandle>, ghost cached: set<LRUHandle>,
    ghost clients: multiset<LRUHandle>)
    requires Counted(handles, cached, clients) && e in clients && e !in cached
    modifies e
    ensures Counted(handles, cached + {e}, clients)
  {
    e.refs := e.refs + 1;
    e.inCache := true;
  }

  lemma {:induction false} DropIndexed(entries: Entries, cached: set<LRUHandle>, id: (Key, nat))
    requires Indexed(entries, cached) && id in entries
    ensures entries[id] in cached && Indexed(entries - {id}, cached - {entries[id]})
  {
  }

  lemma {:induction false} CachedEntry(entries: Entries, cached: set<LRUHandle>, e: LRUHandle)
    requires Indexed(entries, cached) && e in cached
    ensures e.Id() in entries && entries[e.Id()] == e
  {
  }

  function Ids(s: seq<LRUHandle>): set<(Key, nat)> {
    set e | e in s :: e.Id()
  }

  /** The `n` oldest entries have left, and Excess more are to leave. */
  ghost predicate Evicting(before: Lists, was: Entries, capacity: nat, n: nat, lists: Lists, entries: Entries) {
    && n <= |before.lru| && lists == Evict(before, n) && entries == was - Ids(before.lru[..n])
    && Excess(before.lru, before.usage, capacity) == n + Excess(lists.lru, lists.usage, capacity)
  }

  lemma {:induction false} EvictingStarts(lists: Lists, entries: Entries, capacity: nat)
    ensures Evicting(lists, entries, capacity, 0, lists, entries)
  {
    NoCharge(lists.lru[..0]);
  }

  lemma {:induction false} EvictingStep(before: Lists, was: Entries, capacity: nat, n: nat, lists: Lists,
                                        entries: Entries)
    requires Evicting(before, was, capacity, n, lists, entries) && lists.usage > capacity && lists.lru != []
    ensures var e := lists.lru[0];
            Evicting(before, was, capacity, n + 1,
                     Lists(lists.lru[1..], lists.usage - e.charge, lists.deleted + [e]), entries - {e.Id()})
  {
    hide Charges, Ids;
    TakeNext(before.lru, n);
    assert was - Ids(before.lru[..n]) - {before.lru[n].Id()} == was - (Ids(before.lru[..n]) + {before.lru[n].Id()});
  }

  lemma {:induction false} EvictingEnds(before: Lists, was: Entries, capacity: nat, n: nat, lists: Lists,
                                        entries: Entries)
    requires Evicting(before, was, capacity, n, lists, entries) && (lists.usage <= capacity || lists.lru == [])
    ensures var k := Excess(before.lru, before.usage, capacity);
            lists == Evict(before, k) && entries == was - Ids(before.lru[..k])
  {
  }

  lemma {:induction false} NoCharge(s: seq<LRUHandle>)
    requires s == []
    ensures Charges(s) == 0
  {
  }

  lemma {:induction false} TakeNext(s: seq<LRUHandle>, n: nat)
    requires n < |s|
    ensures Charges(s[..n + 1]) == Charges(s[..n]) + s[n].charge && Ids(s[..n + 1]) == Ids(s[..n]) + {s[n].Id()}
    ensures s[..n + 1] == s[..n] + [s[n]] && s[n..][1..] == s[n + 1..] && s[n..][0] == s[n]
  {
    AppendFacts(s[..n], s[n]);
    assert s[..n + 1] == s[..n] + [s[n]];
  }

  lemma {:induction false} NewCount(handles: set<LRUHandle>, cached: set<LRUHandle>, clients: multiset<LRUHandle>,
    e: LRUHandle)
    requires Counted(handles, cached, clients) && e !in handles && e.refs == 1 && !e.inCache
    ensures Counted(handles + {e}, cached, clients + multiset{e}) && e !in cached
  {
  }

  lemma {:induction false} PutIndexed(entries: Entries, cached: set<LRUHandle>, e: LRUHandle)
    requires Indexed(entries, cached) && e !in cached
    ensures var after := entries[e.Id() := e];
            if e.Id() in entries then entries[e.Id()] in cached && Indexed(after, cached + {e} - {entries[e.Id()]})
            else Indexed(after, cached + {e})
  {
  }

  lemma {:induction false} CountOf(handles: set<LRUHandle>, cached: set<LRUHandle>, clients: multiset<LRUHandle>,
    e: LRUHandle)
    requires Counted(handles, cached, clients) && (e in handles || e in clients || e in cached)
    ensures e in handles && e.refs == clients[e] + (if e in cached then 1 else 0) && e.inCache == (e in cached)
  {
  }
}
