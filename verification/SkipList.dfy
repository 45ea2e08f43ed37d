/** The skip list of the memtable (db/skiplist.h): in-place insertion, and readers that run between
    the single stores of an insertion.

    A key is its rank under the list's comparator, as for user keys. Loads and stores interleave one
    at a time.
 */
module SkipLists {
  import opened DbFormat

  type Key = real

  const MAX_HEIGHT: nat := 12

  // ----- towers: which node is linked at which level -----------------------

  /** The node after position `i` among those linked above `level`; `|linked|` if there is none.
      Position 0 is the head. */
  function NextAt(linked: seq<nat>, i: nat, level: nat): (j: nat)
    requires i < |linked|
    ensures IsNext(linked, i, level, j)
    decreases |linked| - i
  {
    if i + 1 == |linked| || linked[i + 1] > level then i + 1 else NextAt(linked, i + 1, level)
  }

  predicate IsNext(linked: seq<nat>, i: nat, level: nat, j: nat) {
    && i < j <= |linked| && (j < |linked| ==> linked[j] > level)
    && forall k :: i < k < j ==> linked[k] <= level
  }

  lemma {:induction false} NextIsUnique(linked: seq<nat>, i: nat, level: nat, j: nat)
    requires i < |linked| && IsNext(linked, i, level, j)
    ensures j == NextAt(linked, i, level)
  {
  }

  /** The published keys in order, how many levels each node is linked at (the head first), and the
      height readers start from. */
  datatype Towers = Towers(keys: seq<Key>, linked: seq<nat>, maxHeight: nat)

  ghost predicate Ordered(keys: seq<Key>) {
    forall i, j :: 0 <= i < j < |keys| ==> keys[i] < keys[j]
  }

  ghost predicate Inv(s: Towers) {
    && Ordered(s.keys) && |s.linked| == |s.keys| + 1 && s.linked[0] == MAX_HEIGHT
    && 1 <= s.maxHeight <= MAX_HEIGHT
    && forall i :: 1 <= i < |s.linked| ==> 1 <= s.linked[i] <= s.maxHeight
  }

  function Splice<T>(s: seq<T>, p: nat, x: T): (r: seq<T>)
    requires p <= |s|
    ensures |r| == |s| + 1 && r[p] == x
    ensures forall i :: 0 <= i < p ==> r[i] == s[i]
    ensures forall i :: p < i < |r| ==> r[i] == s[i - 1]
  {
    s[..p] + [x] + s[p..]
  }

  /** `key` goes to position `q`. */
  ghost predicate Slot(s: Towers, q: nat, key: Key) {
    && 1 <= q <= |s.keys| + 1
    && (forall i :: 0 <= i < q - 1 && i < |s.keys| ==> s.keys[i] < key)
    && (forall i :: q - 1 <= i < |s.keys| ==> key < s.keys[i])
  }

  /** A store of Insert, as readers see it: the height is raised, a new node is linked at level 0, or
      a node is linked one level up. */
  datatype Store = Raise(height: nat) | Publish(key: Key, at: nat) | LinkUp(at: nat)

  ghost predicate Permitted(s: Towers, e: Store) {
    match e
    case Raise(h) => s.maxHeight < h <= MAX_HEIGHT
    case Publish(key, q) => Inv(s) && Slot(s, q, key)
    case LinkUp(q) => 1 <= q < |s.linked| && s.linked[q] < s.maxHeight
  }

  ghost function Stored(s: Towers, e: Store): Towers
    requires Permitted(s, e)
  {
    match e
    case Raise(h) => s.(maxHeight := h)
    case Publish(key, q) =>
      s.(keys := Splice(s.keys, q - 1, key), linked := Splice(s.linked, q, 1))
    case LinkUp(q) => s.(linked := s.linked[q := s.linked[q] + 1])
  }

  /** Every single store keeps every level sorted and nested in the one below. */
  lemma {:induction false} StoreKeepsInv(s: Towers, e: Store)
    requires Inv(s) && Permitted(s, e)
    ensures Inv(Stored(s, e))
  {
    if e.Publish? {
      hide Splice;
      SpliceOrdered(s.keys, e.at - 1, e.key);
    }
  }

  lemma {:induction false} SpliceOrdered(keys: seq<Key>, p: nat, key: Key)
    requires Ordered(keys) && p <= |keys|
    requires (forall i :: 0 <= i < p ==> keys[i] < key) && (forall i :: p <= i < |keys| ==> key < keys[i])
    ensures Ordered(Splice(keys, p, key))
  {
    hide Splice;
  }

  /** Where position `j` moves when a node is put at `q`. */
  function Moved(j: nat, q: nat): nat {
    if j < q then j else j + 1
  }

  /** Linking a node at level 0 redirects only the link of the node before it. */
  lemma {:induction false} PublishMoves(linked: seq<nat>, q: nat, i: nat, level: nat)
    requires 1 <= q <= |linked| && i < |linked| && forall k :: 1 <= k < |linked| ==> linked[k] >= 1
    ensures var linked' := Splice(linked, q, 1);
            NextAt(linked', Moved(i, q), level)
            == if level == 0 && i == q - 1 then q else Moved(NextAt(linked, i, level), q)
  {
    var linked' := Splice(linked, q, 1);
    var j := NextAt(linked, i, level);
    if level == 0 {
      NextIsUnique(linked, i, 0, i + 1);
      NextIsUnique(linked', Moved(i, q), 0, Moved(i, q) + 1);
    } else {
      NextIsUnique(linked', Moved(i, q), level, Moved(j, q));
    }
  }

  /** Linking node `q` one level up redirects, at that level, exactly the links that passed over it. */
  lemma {:induction false} LinkUpMoves(linked: seq<nat>, q: nat, i: nat, level: nat)
    requires q < |linked| && i < |linked|
    ensures var linked' := linked[q := linked[q] + 1];
            NextAt(linked', i, level)
            == if level == linked[q] && i < q < NextAt(linked, i, level) then q else NextAt(linked, i, level)
  {
    var linked' := linked[q := linked[q] + 1];
    var j := NextAt(linked, i, level);
    NextIsUnique(linked', i, level, if level == linked[q] && i < q < j then q else j);
  }

  // ----- readers between the stores ----------------------------------------

  /** A search in progress: the node reached (None is the head) and the level; or its result. */
  datatype Search = Searching(at: Option<Key>, level: nat) | Found(result: Option<Key>)

  /** `i` is the position of the node `at`. */
  predicate Holds(s: Towers, at: Option<Key>, i: nat) {
    if at.None? then i == 0 else 1 <= i <= |s.keys| && s.keys[i - 1] == at.value
  }

  /** The search stands at a published node below the target, linked at the current level. */
  ghost predicate OnCourse(s: Towers, r: Search, target: Key) {
    r.Searching? ==>
      && (r.at.Some? ==> r.at.value < target)
      && exists i: nat :: Holds(s, r.at, i) && i < |s.linked| && r.level < s.linked[i]
  }

  /** What FindGreaterOrEqual does on finding the node at position `j` next. */
  function Advance(s: Towers, r: Search, target: Key, j: nat): Search
    requires r.Searching? && 1 <= j <= |s.keys| + 1
  {
    if j <= |s.keys| && s.keys[j - 1] < target then Searching(Some(s.keys[j - 1]), r.level)
    else if r.level == 0 then Found(if j <= |s.keys| then Some(s.keys[j - 1]) else None)
    else Searching(r.at, r.level - 1)
  }

  /** One load of a next pointer. */
  ghost predicate LoadStep(s: Towers, r: Search, r': Search, target: Key) {
    && r.Searching? && |s.linked| == |s.keys| + 1
    && exists i: nat :: i < |s.linked| && Holds(s, r.at, i) && r' == Advance(s, r, target, NextAt(s.linked, i, r.level))
  }

  /** `result` is the least key at or above `target`. */
  ghost predicate LeastAtOrAbove(keys: seq<Key>, target: Key, result: Option<Key>) {
    match result
    case None => forall k :: k in keys ==> k < target
    case Some(r) => r in keys && r >= target && forall k :: k in keys && k >= target ==> r <= k
  }

  lemma {:induction false} LoadStaysOnCourse(s: Towers, r: Search, r': Search, target: Key)
    requires Inv(s) && OnCourse(s, r, target) && LoadStep(s, r, r', target)
    ensures OnCourse(s, r', target)
    ensures r'.Found? ==> LeastAtOrAbove(s.keys, target, r'.result)
  {
    var i: nat :| i < |s.linked| && Holds(s, r.at, i) && r' == Advance(s, r, target, NextAt(s.linked, i, r.level));
    var i': nat :| Holds(s, r.at, i') && i' < |s.linked| && r.level < s.linked[i'];
    assert i == i';
    AdvanceStaysOnCourse(s, r, target, i);
  }

  lemma {:induction false} AdvanceStaysOnCourse(s: Towers, r: Search, target: Key, i: nat)
    requires Inv(s) && OnCourse(s, r, target) && r.Searching? && |s.linked| == |s.keys| + 1
    requires Holds(s, r.at, i) && i < |s.linked| && r.level < s.linked[i]
    ensures var r' := Advance(s, r, target, NextAt(s.linked, i, r.level));
            OnCourse(s, r', target) && (r'.Found? ==> LeastAtOrAbove(s.keys, target, r'.result))
  {
    var j := NextAt(s.linked, i, r.level);
    var r' := Advance(s, r, target, j);
    if r'.Searching? {
      assert Holds(s, r'.at, if r'.at == r.at then i else j);
    } else {
      NextIsUnique(s.linked, i, 0, i + 1);
      hide LeastAtOrAbove, NextAt;
      LeastIsNext(s.keys, target, i);
    }
  }

  /** When the key before position `i` is below the target and the one at it is not. */
  lemma {:induction false} LeastIsNext(keys: seq<Key>, target: Key, i: nat)
    requires Ordered(keys) && i <= |keys| && (i > 0 ==> keys[i - 1] < target) && (i < |keys| ==> keys[i] >= target)
    ensures LeastAtOrAbove(keys, target, if i < |keys| then Some(keys[i]) else None)
  {
    forall k | k in keys ensures if i < |keys| then k < target || keys[i] <= k else k < target {
      var j :| 0 <= j < |keys| && keys[j] == k;
      assert j < i ==> keys[j] <= keys[i - 1];
    }
  }

  lemma {:induction false} StoreKeepsKeys(s: Towers, e: Store)
    requires Permitted(s, e)
    ensures forall k :: k in s.keys ==> k in Stored(s, e).keys
  {
    hide Splice, Inv;
    if e.Publish? {
      var t := Stored(s, e);
      forall k | k in s.keys ensures k in t.keys {
        var j :| 0 <= j < |s.keys| && s.keys[j] == k;
        assert t.keys[if j < e.at - 1 then j else j + 1] == k;
      }
    }
  }

  lemma {:induction false} StoreKeepsCourse(s: Towers, e: Store, r: Search, target: Key)
    requires Inv(s) && Permitted(s, e) && OnCourse(s, r, target)
    ensures OnCourse(Stored(s, e), r, target)
    ensures forall k :: k in s.keys ==> k in Stored(s, e).keys
  {
    hide Splice;
    StoreKeepsKeys(s, e);
    if r.Searching? {
      var t := Stored(s, e);
      var i: nat :| Holds(s, r.at, i) && i < |s.linked| && r.level < s.linked[i];
      var i' := if e.Publish? then Moved(i, e.at) else i;
      assert Holds(t, r.at, i') && i' < |t.linked| && r.level < t.linked[i'];
    }
  }

  /** An interleaving of one reader with the stores of any number of insertions. */
  datatype Event = Write(store: Store) | Load(after: Search)

  ghost predicate Interleaves(s: Towers, r: Search, events: seq<Event>, t: Towers, r': Search, target: Key)
    decreases |events|
  {
    if events == [] then s == t && r == r'
    else match events[0]
      case Write(e) => Permitted(s, e) && Interleaves(Stored(s, e), r, events[1..], t, r', target)
      case Load(q) => LoadStep(s, r, q, target) && Interleaves(s, q, events[1..], t, r', target)
  }

  lemma {:induction false} InterleavingStaysOnCourse(s: Towers, r: Search, events: seq<Event>, t: Towers, r': Search,
      target: Key)
    requires Inv(s) && OnCourse(s, r, target) && Interleaves(s, r, events, t, r', target)
    ensures Inv(t) && OnCourse(t, r', target) && forall k :: k in s.keys ==> k in t.keys
    decreases |events|
  {
    hide Inv, OnCourse, Permitted, Stored, LoadStep;
    if events != [] {
      match events[0]
      case Write(e) =>
        StoreKeepsInv(s, e);
        StoreKeepsCourse(s, e, r, target);
        InterleavingStaysOnCourse(Stored(s, e), r, events[1..], t, r', target);
      case Load(q) =>
        LoadStaysOnCourse(s, r, q, target);
        InterleavingStaysOnCourse(s, q, events[1..], t, r', target);
    }
  }

  /** A search that starts between any two stores, from any height readers may have seen, and whose
      last load comes after any further stores, returns the least key published at that moment that
      is not below the target. No key present at its start is missed. */
  lemma {:induction false} ConcurrentSearchIsCorrect(s: Towers, level: nat, events: seq<Event>, t: Towers, last: Search,
                                                     target: Key, result: Option<Key>)
    requires Inv(s) && level < MAX_HEIGHT
    requires Interleaves(s, Searching(None, level), events, t, last, target)
    requires LoadStep(t, last, Found(result), target)
    ensures LeastAtOrAbove(t.keys, target, result)
    ensures forall k :: k in s.keys && k >= target ==> result.Some? && result.value <= k
  {
    assert Holds(s, None, 0);
    InterleavingStaysOnCourse(s, Searching(None, level), events, t, last, target);
    LoadStaysOnCourse(t, last, Found(result), target);
  }

  // ----- the list in memory ------------------------------------------------

  class Node {
    const key: Key
    /** One link for each level the node may reach. */
    const next: array<Node?>

    constructor (key: Key, height: nat)
      ensures this.key == key && fresh(next) && next.Length == height
      ensures forall i :: 0 <= i < height ==> next[i] == null
    {
      this.key, this.next := key, new Node?[height](_ => null);
    }
  }

  /** The keys of all nodes but the head. */
  ghost function KeysOf(nodes: seq<Node>): seq<Key> {
    seq(if nodes == [] then 0 else |nodes| - 1, i requires 0 <= i < |nodes| - 1 => nodes[i + 1].key)
  }

  lemma {:induction false} SpliceKeys(nodes: seq<Node>, q: nat, x: Node)
    requires 1 <= q <= |nodes|
    ensures KeysOf(Splice(nodes, q, x)) == Splice(KeysOf(nodes), q - 1, x.key)
  {
    hide Splice;
  }

  ghost function ArraysOf(nodes: seq<Node>): set<array<Node?>> {
    set n | n in nodes :: n.next
  }

  /** The links of every node. */
  ghost function TableOf(nodes: seq<Node>): (table: seq<seq<Node?>>)
    reads ArraysOf(nodes)
    ensures |table| == |nodes|
  {
    seq(|nodes|, i requires 0 <= i < |nodes| reads ArraysOf(nodes) => nodes[i].next[..])
  }

  lemma {:induction false} SpliceTable(nodes: seq<Node>, q: nat, x: Node)
    requires q <= |nodes|
    ensures TableOf(Splice(nodes, q, x)) == Splice(TableOf(nodes), q, x.next[..])
  {
    hide Splice;
  }

  ghost predicate Roomy(nodes: seq<Node>, linked: seq<nat>) {
    |nodes| == |linked| && forall i :: 0 <= i < |nodes| ==> linked[i] <= nodes[i].next.Length
  }

  ghost predicate Apart(nodes: seq<Node>) {
    forall i, j :: 0 <= i < j < |nodes| ==> nodes[i].next != nodes[j].next
  }

  ghost predicate ApartFrom(nodes: seq<Node>, x: Node) {
    forall i :: 0 <= i < |nodes| ==> nodes[i].next != x.next
  }

  lemma {:induction false} RoomAt(nodes: seq<Node>, linked: seq<nat>, i: nat)
    requires Roomy(nodes, linked) && i < |nodes|
    ensures |nodes| == |linked| && linked[i] <= nodes[i].next.Length
  {
  }

  lemma {:induction false} SpliceApart(nodes: seq<Node>, linked: seq<nat>, q: nat, x: Node)
    requires Roomy(nodes, linked) && Apart(nodes) && q <= |nodes|
    requires 1 <= x.next.Length && ApartFrom(nodes, x)
    ensures Roomy(Splice(nodes, q, x), Splice(linked, q, 1)) && Apart(Splice(nodes, q, x))
  {
    hide Splice;
  }

  ghost function At(nodes: seq<Node>, j: nat): Node? {
    if j < |nodes| then nodes[j] else null
  }

  /** Every link of `table` leads to the next node linked at its level. */
  ghost predicate LinksOk(nodes: seq<Node>, linked: seq<nat>, table: seq<seq<Node?>>) {
    && |nodes| == |linked| == |table|
    && (forall i :: 0 <= i < |nodes| ==> linked[i] <= |table[i]|)
    && forall i: nat, l: nat :: i < |nodes| && l < linked[i] ==> table[i][l] == At(nodes, NextAt(linked, i, l))
  }

  /** Publishing `x`, whose links are `row`, at position `q`: one link of the node before it changes. */
  lemma {:induction false} PublishLinks(nodes: seq<Node>, linked: seq<nat>, table: seq<seq<Node?>>, x: Node,
                                        row: seq<Node?>, q: nat)
    requires LinksOk(nodes, linked, table) && 1 <= q <= |nodes|
    requires forall k :: 0 <= k < |linked| ==> linked[k] >= 1
    requires row != [] && row[0] == table[q - 1][0]
    ensures LinksOk(Splice(nodes, q, x), Splice(linked, q, 1), Splice(table[q - 1 := table[q - 1][0 := x]], q, row))
  {
    hide Splice;
    var nodes', linked' := Splice(nodes, q, x), Splice(linked, q, 1);
    var table' := Splice(table[q - 1 := table[q - 1][0 := x]], q, row);
    NextIsUnique(linked, q - 1, 0, q);
    forall i: nat, l: nat | i < |nodes'| && l < linked'[i] ensures table'[i][l] == At(nodes', NextAt(linked', i, l)) {
      if i == q {
        NextIsUnique(linked', q, 0, q + 1);
        SpliceAt(nodes, q, x, q);
      } else {
        PublishLinkAt(nodes, linked, table, x, q, if i < q then i else i - 1, l);
      }
    }
  }

  lemma {:induction false} SpliceAt(nodes: seq<Node>, q: nat, x: Node, j: nat)
    requires q <= |nodes|
    ensures At(Splice(nodes, q, x), Moved(j, q)) == At(nodes, j)
    ensures At(Splice(nodes, q, x), q) == x
  {
  }

  lemma {:induction false} PublishLinkAt(nodes: seq<Node>, linked: seq<nat>, table: seq<seq<Node?>>, x: Node, q: nat,
                                         k: nat, l: nat)
    requires LinksOk(nodes, linked, table) && 1 <= q <= |nodes|
    requires forall k :: 0 <= k < |linked| ==> linked[k] >= 1
    requires k < |nodes| && l < linked[k]
    ensures (table[q - 1 := table[q - 1][0 := x]])[k][l]
            == At(Splice(nodes, q, x), NextAt(Splice(linked, q, 1), Moved(k, q), l))
  {
    hide Splice;
    PublishMoves(linked, q, k, l);
    SpliceAt(nodes, q, x, NextAt(linked, k, l));
  }

  /** Linking the node at `q` one level up, behind the node at `p`. */
  lemma {:induction false} LinkUpLinks(nodes: seq<Node>, linked: seq<nat>, table: seq<seq<Node?>>, q: nat, p: nat)
    requires LinksOk(nodes, linked, table) && p < q < |nodes|
    requires var l := linked[q]; l < linked[p] && NextAt(linked, p, l) > q && l < |table[q]|
    ensures var l := linked[q];
            LinksOk(nodes, linked[q := l + 1], table[q := table[q][l := table[p][l]]][p := table[p][l := nodes[q]]])
  {
    var up := linked[q];
    var linked' := linked[q := up + 1];
    var table' := table[q := table[q][up := table[p][up]]][p := table[p][up := nodes[q]]];
    forall i: nat, l: nat | i < |nodes| && l < linked'[i] ensures table'[i][l] == At(nodes, NextAt(linked', i, l)) {
      LinkUpMoves(linked, q, i, l);
      if i == q && l == up {
        NextIsUnique(linked', q, up, NextAt(linked, p, up));
      } else if l == up && i < q < NextAt(linked, i, l) {
        OnlyOnePasses(linked, q, up, i, p);
      }
    }
  }

  /** At each level one node's link passes over a position. */
  lemma {:induction false} OnlyOnePasses(linked: seq<nat>, q: nat, l: nat, i: nat, p: nat)
    requires i < q < |linked| && p < q && l < linked[i] && l < linked[p]
    requires NextAt(linked, i, l) > q && NextAt(linked, p, l) > q
    ensures i == p
  {
  }

  class SkipList {
    const head: Node
    var maxHeight: nat
    /** The head and the published nodes in order, and how many levels each is linked at. */
    ghost var nodes: seq<Node>
    ghost var linked: seq<nat>

    constructor ()
      ensures Valid() && Keys() == [] && linked == [12] && maxHeight == 1 && fresh(Arrays())
    {
      head := new Node(0.0, MAX_HEIGHT);
      maxHeight := 1;
      nodes := [head];
      linked := [MAX_HEIGHT];
    }

    ghost function Arrays(): set<array<Node?>>
      reads this
    {
      ArraysOf(nodes)
    }

    /** The published keys in order. */
    ghost function Keys(): seq<Key>
      reads this
    {
      KeysOf(nodes)
    }

    ghost function View(): Towers
      reads this
    {
      Towers(Keys(), linked, maxHeight)
    }

    ghost function NodeAt(j: nat): Node?
      reads this
    {
      At(nodes, j)
    }

    ghost predicate Shape()
      reads this
    {
      Inv(View()) && |nodes| == |linked| && nodes[0] == head && Roomy(nodes, linked) && Apart(nodes)
    }

    /** The links of every node. */
    ghost function Table(): seq<seq<Node?>>
      reads this, Arrays()
    {
      TableOf(nodes)
    }

    ghost predicate Valid()
      reads this, Arrays()
    {
      Shape() && LinksOk(nodes, linked, Table())
    }

    /** `i` is the last node below `key` at level `l`. */
    ghost predicate Before(key: Key, i: nat, l: nat)
      requires Shape()
      reads this
    {
      && i < |nodes| && l < linked[i] && (i > 0 ==> nodes[i].key < key)
      && var j := NextAt(linked, i, l);
         j < |nodes| ==> nodes[j].key >= key
    }

    /** All of `prev` is filled in up to the height of the list. */
    ghost predicate Befores(key: Key, prev: seq<Node?>, at: seq<nat>, low: nat)
      requires Shape()
      reads this
    {
      && |at| == |prev| == MAX_HEIGHT
      && forall l :: low <= l < maxHeight ==> Before(key, at[l], l) && prev[l] == nodes[at[l]]
    }

    predicate KeyIsAfterNode(key: Key, n: Node?) {
      n != null && n.key < key
    }

    /** The first node not below `key`, at position `q`; the last node below it at each level. */
    method FindGreaterOrEqual(key: Key) returns (x: Node?, prev: seq<Node?>, ghost at: seq<nat>, ghost q: nat)
      requires Valid()
      ensures 1 <= q <= |nodes| && x == NodeAt(q)
      ensures forall i :: 1 <= i < q ==> nodes[i].key < key
      ensures forall i :: q <= i < |nodes| ==> nodes[i].key >= key
      ensures Befores(key, prev, at, 0)
    {
      var node: Node := head;
      var level := maxHeight - 1;
      ghost var i: nat := 0;
      prev := seq(MAX_HEIGHT, _ => null);
      at := seq(MAX_HEIGHT, _ => 0);
      while true
        invariant 0 <= level < maxHeight && i < |nodes| && node == nodes[i] && level < linked[i]
        invariant i > 0 ==> node.key < key
        invariant Befores(key, prev, at, level + 1)
        decreases level, |nodes| - i
      {
        ghost var j := NextAt(linked, i, level);
        var next := node.next[level];
        assert next == NodeAt(j);
        if KeyIsAfterNode(key, next) {
          node := next;
          i := j;
        } else {
          prev := prev[level := node];
          at := at[level := i];
          if level == 0 {
            x, q := next, j;
            NextIsUnique(linked, i, 0, i + 1);
            KeysAround(key, i);
            return;
          } else {
            level := level - 1;
          }
        }
      }
    }

    /** Nodes are in key order. */
    lemma {:induction false} NodesAscend(i: nat, j: nat)
      requires Shape() && 1 <= i <= j < |nodes|
      ensures nodes[i].key <= nodes[j].key && (i < j ==> nodes[i].key < nodes[j].key)
    {
      assert Keys()[i - 1] == nodes[i].key && Keys()[j - 1] == nodes[j].key;
    }

    lemma {:induction false} KeysAround(key: Key, i: nat)
      requires Shape() && i < |nodes| && (i > 0 ==> nodes[i].key < key) && (i + 1 < |nodes| ==> nodes[i + 1].key >= key)
      ensures forall k :: 1 <= k <= i ==> nodes[k].key < key
      ensures forall k :: i < k < |nodes| ==> nodes[k].key >= key
    {
      forall k | 1 <= k <= i ensures nodes[k].key < key {
        NodesAscend(k, i);
      }
      forall k | i < k < |nodes| ensures nodes[k].key >= key {
        NodesAscend(i + 1, k);
      }
    }

    /** A search that did not find `key` shows where it goes. */
    lemma {:induction false} NewSlot(key: Key, q: nat)
      requires Valid() && key !in Keys() && 1 <= q <= |nodes|
      requires forall i :: 1 <= i < q ==> nodes[i].key < key
      requires forall i :: q <= i < |nodes| ==> nodes[i].key >= key
      ensures Slot(View(), q, key)
      ensures forall i :: q <= i < |nodes| ==> nodes[i].key > key
    {
      forall i | q <= i < |nodes| ensures nodes[i].key > key {
        assert Keys()[i - 1] == nodes[i].key;
      }
    }

    lemma {:induction false} HeadIsFirst(i: nat)
      requires Shape() && i < |nodes|
      ensures nodes[i] == head <==> i == 0
    {
      assert i == 0 || nodes[0].next != nodes[i].next;
    }

    method Contains(key: Key) returns (found: bool)
      requires Valid()
      ensures found <==> key in Keys()
    {
      var x, prev;
      ghost var at, q;
      x, prev, at, q := FindGreaterOrEqual(key);
      found := x != null && x.key == key;
      if found {
        assert Keys()[q - 1] == key;
      }
      forall i | 1 <= i < |nodes| && nodes[i].key == key ensures found {
        NodesAscend(q, i);
      }
      assert forall k :: 0 <= k < |Keys()| ==> Keys()[k] == nodes[k + 1].key;
    }

    /** The last node below `key`; the head if there is none. */
    method FindLessThan(key: Key) returns (x: Node, ghost i: nat)
      requires Valid()
      ensures i < |nodes| && x == nodes[i]
      ensures forall k :: 1 <= k <= i ==> nodes[k].key < key
      ensures forall k :: i < k < |nodes| ==> nodes[k].key >= key
    {
      x := head;
      i := 0;
      var level := maxHeight - 1;
      while true
        invariant 0 <= level < maxHeight && i < |nodes| && x == nodes[i] && level < linked[i]
        invariant i > 0 ==> x.key < key
        decreases level, |nodes| - i
      {
        ghost var j := NextAt(linked, i, level);
        var next := x.next[level];
        assert next == NodeAt(j);
        if next == null || next.key >= key {
          if level == 0 {
            NextIsUnique(linked, i, 0, i + 1);
            KeysAround(key, i);
            return;
          } else {
            level := level - 1;
          }
        } else {
          x := next;
          i := j;
        }
      }
    }

    /** The last node; the head if the list is empty. */
    method FindLast() returns (x: Node)
      requires Valid()
      ensures x == nodes[|nodes| - 1]
    {
      x := head;
      ghost var i: nat := 0;
      var level := maxHeight - 1;
      while true
        invariant 0 <= level < maxHeight && i < |nodes| && x == nodes[i] && level < linked[i]
        decreases level, |nodes| - i
      {
        ghost var j := NextAt(linked, i, level);
        var next := x.next[level];
        assert next == NodeAt(j);
        if next == null {
          if level == 0 {
            NextIsUnique(linked, i, 0, i + 1);
            return;
          } else {
            level := level - 1;
          }
        } else {
          x := next;
          i := j;
        }
      }
    }

    // ----- insertion -------------------------------------------------------

    /** At a level the node before `q` that a search for its key stopped at: its link passes over `q`. */
    ghost predicate Passes(p: nat, q: nat, l: nat)
      requires |nodes| == |linked|
      reads this
    {
      p < q <= |nodes| && p < |nodes| && l < linked[p] && NextAt(linked, p, l) >= q
    }

    /** The two stores that link `x` at level 0, which publishes it at position `q`. */
    method Publish(x: Node, before: Node, ghost q: nat)
      requires Valid() && Slot(View(), q, x.key) && before == nodes[q - 1]
      requires x.next !in Arrays() && 1 <= x.next.Length <= MAX_HEIGHT
      modifies `nodes, `linked, x.next, before.next
      ensures Valid() && nodes == Splice(old(nodes), q, x) && linked == Splice(old(linked), q, 1)
      ensures View() == Stored(old(View()), Store.Publish(x.key, q))
    {
      ghost var s, wasNodes, table := View(), nodes, Table();
      NotAmong(x);
      RoomAt(nodes, linked, q - 1);
      LinkedAll(s);
      hide Splice, LinksOk, Inv, Roomy, KeysOf, ArraysOf;
      StoreLinks(x, before, 0);
      assert TableOf(nodes) == table[q - 1 := table[q - 1][0 := x]];
      hide TableOf;
      nodes := Splice(nodes, q, x);
      linked := Splice(linked, q, 1);
      Published(s, wasNodes, table, x, q);
    }

    lemma {:induction false} Published(s: Towers, was: seq<Node>, table: seq<seq<Node?>>, x: Node, q: nat)
      requires Inv(s) && Slot(s, q, x.key) && s.keys == KeysOf(was) && was != [] && was[0] == head
               && s.maxHeight == maxHeight
      requires Roomy(was, s.linked) && Apart(was) && ApartFrom(was, x) && 1 <= x.next.Length
      requires LinksOk(was, s.linked, table) && x.next[0] == table[q - 1][0]
      requires TableOf(was) == table[q - 1 := table[q - 1][0 := x]]
      requires nodes == Splice(was, q, x) && linked == Splice(s.linked, q, 1)
      ensures Valid() && View() == Stored(s, Store.Publish(x.key, q))
    {
      StoreKeepsInv(s, Store.Publish(x.key, q));
      assert 1 <= q <= |was|;
      LinkedAll(s);
      hide Inv, Slot, Splice, LinksOk, Roomy, Apart, ApartFrom, KeysOf, TableOf, ArraysOf;
      SpliceApart(was, s.linked, q, x);
      SpliceKeys(was, q, x);
      SpliceTable(was, q, x);
      PublishLinks(was, s.linked, table, x, x.next[..], q);
    }

    lemma {:induction false} NotAmong(x: Node)
      requires x.next !in Arrays()
      ensures ApartFrom(nodes, x)
    {
      forall i | 0 <= i < |nodes| ensures nodes[i].next != x.next {
        assert nodes[i] in nodes;
      }
    }

    /** The two stores at one level: `x` takes over the link of the node before it, which then leads to `x`. */
    method StoreLinks(x: Node, before: Node, level: nat)
      requires x.next != before.next && level < x.next.Length && level < before.next.Length
      modifies x.next, before.next
      ensures x.next[..] == old(x.next[..])[level := old(before.next[level])]
      ensures before.next[..] == old(before.next[..])[level := x]
    {
      x.next[level] := before.next[level];
      before.next[level] := x;
    }

    /** The two stores that link the node at `q` one level up, behind the node at `p`. */
    method LinkUp(x: Node, before: Node, level: nat, ghost p: nat, ghost q: nat)
      requires Valid() && 1 <= q < |nodes| && x == nodes[q] && p < q && before == nodes[p]
      requires level == linked[q] < maxHeight && level < x.next.Length
      requires level < linked[p] && NextAt(linked, p, level) > q
      modifies `linked, x.next, before.next
      ensures Valid() && nodes == old(nodes) && linked == old(linked)[q := level + 1]
      ensures View() == Stored(old(View()), Store.LinkUp(q))
    {
      ghost var s, table := View(), Table();
      RoomAt(nodes, linked, p);
      assert x.next != before.next;
      hide LinksOk, Inv, Roomy, KeysOf;
      StoreLinks(x, before, level);
      assert TableOf(nodes) == table[q := table[q][level := table[p][level]]][p := table[p][level := x]];
      hide TableOf, ArraysOf, Apart;
      linked := linked[q := level + 1];
      Linked(s, table, q, p);
    }

    lemma {:induction false} Linked(s: Towers, table: seq<seq<Node?>>, q: nat, p: nat)
      requires Inv(s) && Permitted(s, Store.LinkUp(q)) && Roomy(nodes, s.linked) && Apart(nodes)
      requires s.keys == Keys() && s.maxHeight == maxHeight && linked == s.linked[q := s.linked[q] + 1]
      requires 1 <= q < |nodes| && p < q && nodes[0] == head
      requires var l := s.linked[q];
               && LinksOk(nodes, s.linked, table) && l < nodes[q].next.Length && l < |table[q]|
               && l < s.linked[p] && NextAt(s.linked, p, l) > q
               && TableOf(nodes) == table[q := table[q][l := table[p][l]]][p := table[p][l := nodes[q]]]
      ensures Valid() && View() == Stored(s, Store.LinkUp(q))
    {
      StaysRoomy(s, q);
      hide Inv, Roomy, Apart, KeysOf, TableOf, ArraysOf, LinksOk, NextAt;
      LinkedShape(s, q);
      LinkUpLinks(nodes, s.linked, table, q, p);
    }

    lemma {:induction false} LinkedShape(s: Towers, q: nat)
      requires Inv(s) && Permitted(s, Store.LinkUp(q)) && Roomy(nodes, linked) && Apart(nodes)
      requires s.keys == Keys() && s.maxHeight == maxHeight && 1 <= q < |nodes| && nodes[0] == head
      requires q < |s.linked| == |nodes| && linked == s.linked[q := s.linked[q] + 1]
      ensures Shape() && View() == Stored(s, Store.LinkUp(q))
    {
      hide Inv, Roomy, Apart, KeysOf;
      StoreKeepsInv(s, Store.LinkUp(q));
    }

    lemma {:induction false} StaysRoomy(s: Towers, q: nat)
      requires Roomy(nodes, s.linked) && q < |nodes| == |s.linked| && linked == s.linked[q := s.linked[q] + 1]
      requires s.linked[q] < nodes[q].next.Length
      ensures Roomy(nodes, linked)
    {
    }

    // ----- the whole insertion ---------------------------------------------

    lemma {:induction false} SearchPasses(key: Key, prev: seq<Node?>, at: seq<nat>, q: nat)
      requires Valid() && Befores(key, prev, at, 0) && 1 <= q <= |nodes|
      requires forall i :: 1 <= i < q ==> nodes[i].key < key
      requires forall i :: q <= i < |nodes| ==> nodes[i].key > key
      ensures at[0] == q - 1 && Stops(nodes, linked, prev, at, q, 0, maxHeight)
    {
      forall l | 0 <= l < maxHeight ensures Stop(nodes, linked, prev, at, q, l) && (l == 0 ==> at[l] == q - 1) {
        assert Before(key, at[l], l);
        if l == 0 {
          NextIsUnique(linked, at[0], 0, at[0] + 1);
        }
      }
    }

    /** Finds where `key` goes; above the list's height the head comes before everything. */
    method FindPrev(key: Key, height: nat) returns (prev: seq<Node?>, ghost at: seq<nat>, ghost q: nat)
      requires Valid() && key !in Keys() && 1 <= height <= MAX_HEIGHT
      ensures Slot(View(), q, key) && |prev| == |at| == MAX_HEIGHT && at[0] == q - 1 && q <= |nodes|
      ensures Stops(nodes, linked, prev, at, q, 0, height)
    {
      var x;
      x, prev, at, q := FindGreaterOrEqual(key);
      NewSlot(key, q);
      SearchPasses(key, prev, at, q);
      if height > maxHeight {
        for i := maxHeight to height
          invariant |prev| == |at| == MAX_HEIGHT && at[0] == q - 1
          invariant Stops(nodes, linked, prev, at, q, 0, i)
        {
          NextIsUnique(linked, 0, i, |nodes|);
          ghost var prev0, at0 := prev, at;
          prev, at := prev[i := head], at[i := 0];
          forall l | 0 <= l <= i ensures Stop(nodes, linked, prev, at, q, l) {
            if l < i {
              assert Stop(nodes, linked, prev0, at0, q, l);
            }
          }
        }
      }
    }

    /** Links the node published at `q` at its higher levels, from the bottom up. */
    method LinkLevels(x: Node, prev: seq<Node?>, height: nat, ghost at: seq<nat>, ghost q: nat,
                      ghost trace0: seq<Towers>)
      returns (ghost trace: seq<Towers>)
      requires Valid() && 1 <= q < |nodes| && x == nodes[q] && linked[q] == 1 && 1 <= height <= x.next.Length
               && height <= maxHeight
      requires Stops(nodes, linked, prev, at, q + 1, 1, height)
      requires trace0 != [] && trace0[|trace0| - 1] == View() && SingleStores(trace0)
      modifies `linked, Arrays()
      ensures Valid() && nodes == old(nodes) && linked == old(linked)[q := height]
      ensures |trace| >= |trace0| && trace[0] == trace0[0] && trace[|trace| - 1] == View() && SingleStores(trace)
    {
      hide LinksOk, Inv, Roomy, Apart, KeysOf, TableOf, SingleStores, Stops;
      trace := trace0;
      for i := 1 to height
        invariant Valid() && nodes == old(nodes) && maxHeight == old(maxHeight) && linked == old(linked)[q := i]
        invariant Stops(nodes, linked, prev, at, q + 1, i, height)
        invariant |trace| >= |trace0| && trace[0] == trace0[0] && trace[|trace| - 1] == View() && SingleStores(trace)
      {
        StopAt(nodes, linked, prev, at, q + 1, i, height);
        LinkUpStops(nodes, linked, prev, at, q, i, height);
        InArrays(at[i]);
        InArrays(q);
        trace := TraceGrows(trace, Store.LinkUp(q));
        LinkUp(x, prev[i], i, at[i], q);
      }
    }

    lemma {:induction false} InArrays(i: nat)
      requires i < |nodes|
      ensures nodes[i].next in Arrays()
    {
    }

    method RaiseTo(height: nat, ghost trace0: seq<Towers>) returns (ghost trace: seq<Towers>)
      requires Valid() && height <= MAX_HEIGHT && trace0 == [View()]
      modifies `maxHeight
      ensures Valid() && Keys() == old(Keys()) && maxHeight == if height > old(maxHeight) then height else old(maxHeight)
      ensures trace != [] && trace[0] == trace0[0] && trace[|trace| - 1] == View() && SingleStores(trace)
    {
      hide LinksOk, SingleStores;
      trace := trace0;
      OneState(trace);
      if height > maxHeight {
        StoreKeepsInv(View(), Raise(height));
        trace := TraceGrows(trace, Raise(height));
        ghost var table := Table();
        maxHeight := height;
        assert Table() == table;
      }
    }

    /** Publishes a new node and links it at its levels. */
    method LinkNode(x: Node, prev: seq<Node?>, height: nat, ghost at: seq<nat>, ghost q: nat, ghost trace0: seq<Towers>)
      returns (ghost trace: seq<Towers>)
      requires Valid() && Slot(View(), q, x.key) && x.next !in Arrays() && 1 <= height == x.next.Length <= maxHeight
      requires Stops(nodes, linked, prev, at, q, 0, height) && at != [] && at[0] == q - 1
      requires trace0 != [] && trace0[|trace0| - 1] == View() && SingleStores(trace0)
      modifies `linked, `nodes, x.next, Arrays()
      ensures Valid() && nodes == Splice(old(nodes), q, x) && linked == Splice(old(linked), q, height)
      ensures trace != [] && trace[0] == trace0[0] && trace[|trace| - 1] == View() && SingleStores(trace)
    {
      LinkedAll(View());
      assert q <= |nodes|;
      hide LinksOk, Inv, Roomy, Apart, TableOf, SingleStores, Stops, Splice, KeysOf, Stop;
      FirstStop(nodes, linked, prev, at, q, height);
      InArrays(q - 1);
      PublishStops(nodes, linked, prev, at, q, height, x);
      trace := TraceGrows(trace0, Store.Publish(x.key, q));
      Publish(x, prev[0], q);
      SplicedArrays(old(nodes), q, x);
      trace := LinkLevels(x, prev, height, at, q, trace);
      SpliceThenRaise(old(linked), q, height);
    }

    /** RandomHeight is any height from 1 to the maximum. `trace` is what readers could see after each store. */
    method Insert(key: Key, height: nat) returns (ghost trace: seq<Towers>, ghost q: nat)
      requires Valid() && key !in Keys() && 1 <= height <= 12
      modifies this, Arrays()
      ensures Valid() && fresh(Arrays() - old(Arrays()))
      ensures q <= |old(Keys())| && Keys() == Splice(old(Keys()), q, key)
      ensures q < |old(linked)| && linked == old(linked)[..q + 1] + [height] + old(linked)[q + 1..]
      ensures maxHeight == if height > old(maxHeight) then height else old(maxHeight)
      ensures trace != [] && trace[0] == old(View()) && trace[|trace| - 1] == View() && SingleStores(trace)
    {
      hide LinksOk, Inv, Roomy, Apart, TableOf, SingleStores, Stops, Splice, KeysOf;
      var prev;
      ghost var at, p;
      prev, at, p := FindPrev(key, height);
      trace := RaiseTo(height, [View()]);
      var x := new Node(key, height);
      SpliceKeys(nodes, p, x);
      SplicedArrays(nodes, p, x);
      SpliceThenRaise(linked, p, height);
      trace := LinkNode(x, prev, height, at, p, trace);
      q := p - 1;
    }
  }

  lemma {:induction false} SpliceThenRaise(linked: seq<nat>, q: nat, height: nat)
    requires q <= |linked|
    ensures Splice(linked, q, 1)[q := height] == Splice(linked, q, height)
    ensures Splice(linked, q, height) == linked[..q] + [height] + linked[q..]
  {
  }

  lemma {:induction false} SplicedArrays(nodes: seq<Node>, q: nat, x: Node)
    requires q <= |nodes|
    ensures ArraysOf(Splice(nodes, q, x)) == ArraysOf(nodes) + {x.next}
  {
    var r := Splice(nodes, q, x);
    assert nodes == nodes[..q] + nodes[q..];
    assert forall n :: n in r <==> n in nodes || n == x;
  }

  lemma {:induction false} OneState(trace: seq<Towers>)
    requires |trace| == 1
    ensures SingleStores(trace)
  {
  }

  /** At level `l` a search for a new key stopped at a node whose link goes at least to position `q`. */
  ghost predicate Stop(nodes: seq<Node>, linked: seq<nat>, prev: seq<Node?>, at: seq<nat>, q: nat, l: nat) {
    && |prev| == |at| == MAX_HEIGHT && l < MAX_HEIGHT && |nodes| == |linked|
    && at[l] < q <= |nodes| && prev[l] == nodes[at[l]] && l < linked[at[l]] && NextAt(linked, at[l], l) >= q
  }

  ghost predicate Stops(nodes: seq<Node>, linked: seq<nat>, prev: seq<Node?>, at: seq<nat>, q: nat, low: nat,
                        high: nat) {
    forall l: nat :: low <= l < high ==> Stop(nodes, linked, prev, at, q, l)
  }

  lemma {:induction false} StopAt(nodes: seq<Node>, linked: seq<nat>, prev: seq<Node?>, at: seq<nat>, q: nat, l: nat,
                                  high: nat)
    requires Stops(nodes, linked, prev, at, q, l, high) && l < high
    ensures Stop(nodes, linked, prev, at, q, l)
  {
  }

  lemma {:induction false} FirstStop(nodes: seq<Node>, linked: seq<nat>, prev: seq<Node?>, at: seq<nat>, q: nat,
                                     high: nat)
    requires Stops(nodes, linked, prev, at, q, 0, high) && high > 0 && at != [] && at[0] == q - 1
    ensures |prev| == MAX_HEIGHT && q - 1 < |nodes| && prev[0] == nodes[q - 1]
  {
    assert Stop(nodes, linked, prev, at, q, 0);
  }

  /** Publishing the new node leaves the links at higher levels passing over it. */
  lemma {:induction false} PublishStops(nodes: seq<Node>, linked: seq<nat>, prev: seq<Node?>, at: seq<nat>, q: nat,
                                        high: nat, x: Node)
    requires Stops(nodes, linked, prev, at, q, 0, high) && 1 <= q <= |nodes| == |linked|
    requires forall k :: 1 <= k < |linked| ==> linked[k] >= 1
    ensures Stops(Splice(nodes, q, x), Splice(linked, q, 1), prev, at, q + 1, 1, high)
  {
    hide Splice;
    var r, nodes', linked' := q + 1, Splice(nodes, q, x), Splice(linked, q, 1);
    forall l: nat | 1 <= l < high ensures Stop(nodes', linked', prev, at, r, l) {
      assert Stop(nodes, linked, prev, at, q, l);
      PublishMoves(linked, q, at[l], l);
    }
  }

  /** Linking the new node one level up leaves the links at the levels above passing over it. */
  lemma {:induction false} LinkUpStops(nodes: seq<Node>, linked: seq<nat>, prev: seq<Node?>, at: seq<nat>, q: nat,
                                       i: nat, high: nat)
    requires Stops(nodes, linked, prev, at, q + 1, i, high) && q < |linked| && linked[q] == i
    ensures Stops(nodes, linked[q := i + 1], prev, at, q + 1, i + 1, high)
  {
    var r, linked' := q + 1, linked[q := i + 1];
    forall l: nat | i < l < high ensures Stop(nodes, linked', prev, at, r, l) {
      assert Stop(nodes, linked, prev, at, r, l);
      LinkUpMoves(linked, q, at[l], l);
    }
  }

  lemma {:induction false} LinkedAll(s: Towers)
    requires Inv(s)
    ensures s.linked != [] && s.linked[0] == MAX_HEIGHT && forall k :: 0 <= k < |s.linked| ==> 1 <= s.linked[k] <= MAX_HEIGHT
  {
  }

  ghost predicate OneStore(s: Towers, t: Towers) {
    exists e :: Permitted(s, e) && t == Stored(s, e)
  }

  /** Each state follows from the one before by one store. */
  ghost predicate SingleStores(trace: seq<Towers>) {
    forall i :: 0 <= i < |trace| - 1 ==> OneStore(trace[i], trace[i + 1])
  }

  lemma {:induction false} TraceGrows(trace: seq<Towers>, e: Store) returns (grown: seq<Towers>)
    requires trace != [] && SingleStores(trace) && Permitted(trace[|trace| - 1], e)
    ensures grown == trace + [Stored(trace[|trace| - 1], e)] && SingleStores(grown)
  {
    grown := trace + [Stored(trace[|trace| - 1], e)];
    forall i | 0 <= i < |grown| - 1 ensures OneStore(grown[i], grown[i + 1]) {
      if i < |trace| - 1 {
        assert OneStore(trace[i], trace[i + 1]);
      }
    }
  }

  /** A position in the list: `index` among the keys, their number when not valid. */
  class ListIterator {
    const list: SkipList
    var node: Node?
    ghost var index: nat

    constructor (list: SkipList)
      requires list.Valid()
      ensures Ok() && this.list == list && !Valid()
    {
      this.list, node := list, null;
      new;
      index := |list.Keys()|;
    }

    ghost predicate Ok()
      reads this, list, list.Arrays()
    {
      && list.Valid() && index <= |list.Keys()|
      && node == list.NodeAt(index + 1)
    }

    predicate Valid()
      reads this
    {
      node != null
    }

    function Key(): Key
      requires Valid()
      reads this
    {
      node.key
    }

    lemma {:induction false} AtIndex()
      requires Ok()
      ensures Valid() <==> index < |list.Keys()|
      ensures Valid() ==> Key() == list.Keys()[index]
      ensures |list.nodes| == |list.Keys()| + 1 && list.nodes[0] == list.head
    {
    }

    method Next()
      requires Ok() && Valid()
      modifies this
      ensures Ok() && index == old(index) + 1
    {
      NextIsUnique(list.linked, index + 1, 0, index + 2);
      assert list.Table()[index + 1][0] == node.next[0];
      node := node.next[0];
      index := index + 1;
    }

    method Prev()
      requires Ok() && Valid()
      modifies this
      ensures Ok() && index == if old(index) == 0 then |list.Keys()| else old(index) - 1
    {
      hide LinksOk, Inv, Roomy, Apart;
      AtIndex();
      ghost var table := list.Table();
      ghost var before;
      var less;
      less, before := list.FindLessThan(node.key);
      assert list.Table() == table;
      if before < index {
        list.NodesAscend(before + 1, index + 1);
      }
      list.HeadIsFirst(before);
      node := if less == list.head then null else less;
      index := if index == 0 then |list.Keys()| else index - 1;
      assert list.Table() == table;
    }

    /** The first key not below the target. */
    method Seek(target: Key)
      requires Ok()
      modifies this
      ensures Ok()
      ensures forall k :: 0 <= k < |list.Keys()| ==> (k < index <==> list.Keys()[k] < target)
    {
      hide LinksOk, Inv, Roomy, Apart;
      AtIndex();
      ghost var table := list.Table();
      var x, prev;
      ghost var at, q;
      x, prev, at, q := list.FindGreaterOrEqual(target);
      node := x;
      index := q - 1;
      assert list.Table() == table;
      assert forall k :: 0 <= k < |list.Keys()| ==> list.Keys()[k] == list.nodes[k + 1].key;
    }

    method SeekToFirst()
      requires Ok()
      modifies this
      ensures Ok() && index == 0
    {
      NextIsUnique(list.linked, 0, 0, 1);
      assert list.Table()[0][0] == list.head.next[0];
      node := list.head.next[0];
      index := 0;
    }

    method SeekToLast()
      requires Ok()
      modifies this
      ensures Ok() && index == if list.Keys() == [] then 0 else |list.Keys()| - 1
    {
      hide Inv, Roomy, Apart;
      AtIndex();
      node := list.FindLast();
      list.HeadIsFirst(|list.nodes| - 1);
      if node == list.head {
        node := null;
        index := 0;
      } else {
        index := |list.Keys()| - 1;
      }
    }
  }
}
