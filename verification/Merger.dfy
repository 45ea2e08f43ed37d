/** The merging iterator (table/merger.cc): a cursor over the sorted merge of its children, which all
    rest after the current key when it moves forward and before it when it moves back.
 */
module Merger {
  import opened DbFormat
  import opened Cursors

  // ----- the merge ---------------------------------------------------------

  /** Entry `j` of list `i` is `e`. */
  predicate At(lists: seq<seq<Entry>>, i: nat, j: nat, e: Entry) {
    i < |lists| && j < |lists[i]| && lists[i][j] == e
  }

  ghost predicate InSome(lists: seq<seq<Entry>>, e: Entry) {
    exists i: nat, j: nat :: At(lists, i, j, e)
  }

  /** `merged` is sorted and holds exactly the entries of the lists. */
  ghost predicate Merges(lists: seq<seq<Entry>>, merged: seq<Entry>) {
    Sorted(merged) && forall e :: e in merged <==> InSome(lists, e)
  }

  /** Sorted lists that share no key. */
  ghost predicate Apart(lists: seq<seq<Entry>>) {
    && (forall i :: 0 <= i < |lists| ==> Sorted(lists[i]))
    && forall i, j, i', j' :: 0 <= i < |lists| && 0 <= i' < |lists| && i != i' && 0 <= j < |lists[i]| && 0 <= j' < |lists[i']|
         ==> lists[i][j].key != lists[i'][j'].key
  }

  /** Merges two lists. */
  function Merge2(a: seq<Entry>, b: seq<Entry>): seq<Entry> {
    if a == [] then b
    else if b == [] then a
    else if Less(a[0].key, b[0].key) then [a[0]] + Merge2(a[1..], b)
    else [b[0]] + Merge2(a, b[1..])
  }

  function MergeAll(lists: seq<seq<Entry>>): seq<Entry> {
    if lists == [] then [] else Merge2(lists[0], MergeAll(lists[1..]))
  }

  ghost predicate NoSharedKeys(a: seq<Entry>, b: seq<Entry>) {
    forall i, j :: 0 <= i < |a| && 0 <= j < |b| ==> a[i].key != b[j].key
  }

  ghost predicate StartsAbove(k: InternalKey, s: seq<Entry>) {
    s != [] ==> Less(k, s[0].key)
  }

  lemma {:induction false} ConsSorted(e: Entry, s: seq<Entry>)
    requires Sorted(s) && StartsAbove(e.key, s)
    ensures Sorted([e] + s)
  {
    var r := [e] + s;
    forall i, j | 0 <= i < j < |r| ensures Less(r[i].key, r[j].key) {
      if i == 0 && j > 1 {
        assert Less(s[0].key, s[j - 1].key);
      }
    }
  }

  lemma {:induction false} Merge2Sorted(a: seq<Entry>, b: seq<Entry>)
    requires Sorted(a) && Sorted(b) && NoSharedKeys(a, b)
    ensures Sorted(Merge2(a, b))
    ensures forall e :: e in Merge2(a, b) <==> e in a || e in b
    ensures forall k :: StartsAbove(k, a) && StartsAbove(k, b) ==> StartsAbove(k, Merge2(a, b))
    decreases |a| + |b|
  {
    if a != [] && b != [] {
      if Less(a[0].key, b[0].key) {
        Merge2Sorted(a[1..], b);
        ConsSorted(a[0], Merge2(a[1..], b));
        assert a == [a[0]] + a[1..];
      } else {
        assert Compare(b[0].key, a[0].key) < 0;
        Merge2Sorted(a, b[1..]);
        ConsSorted(b[0], Merge2(a, b[1..]));
        assert b == [b[0]] + b[1..];
      }
    }
  }

  lemma {:induction false} InSomeCons(lists: seq<seq<Entry>>, e: Entry)
    requires lists != []
    ensures InSome(lists, e) <==> e in lists[0] || InSome(lists[1..], e)
  {
    if InSome(lists, e) {
      var i: nat, j: nat :| At(lists, i, j, e);
      if i > 0 {
        assert At(lists[1..], i - 1, j, e);
      }
    }
    if e in lists[0] {
      var j :| 0 <= j < |lists[0]| && lists[0][j] == e;
      assert At(lists, 0, j, e);
    }
    if InSome(lists[1..], e) {
      var i: nat, j: nat :| At(lists[1..], i, j, e);
      assert At(lists, i + 1, j, e);
    }
  }

  lemma {:induction false} ApartTail(lists: seq<seq<Entry>>)
    requires lists != [] && Apart(lists)
    ensures Apart(lists[1..])
  {
    var rest := lists[1..];
    assert forall i :: 0 <= i < |rest| ==> rest[i] == lists[i + 1];
  }

  lemma {:induction false} NoKeyInRest(lists: seq<seq<Entry>>, merged: seq<Entry>)
    requires lists != [] && Apart(lists) && Merges(lists[1..], merged)
    ensures NoSharedKeys(lists[0], merged)
  {
    forall i, k | 0 <= i < |lists[0]| && 0 <= k < |merged| ensures lists[0][i].key != merged[k].key {
      assert merged[k] in merged;
      var i': nat, j': nat :| At(lists[1..], i', j', merged[k]);
      assert lists[i' + 1][j'] == merged[k];
    }
  }

  lemma {:induction false} MergeAllMerges(lists: seq<seq<Entry>>)
    requires Apart(lists)
    ensures Merges(lists, MergeAll(lists))
    decreases |lists|
  {
    if lists != [] {
      var rest := MergeAll(lists[1..]);
      ApartTail(lists);
      MergeAllMerges(lists[1..]);
      NoKeyInRest(lists, rest);
      Merge2Sorted(lists[0], rest);
      hide Apart, InSome, Sorted;
      forall e ensures e in MergeAll(lists) <==> InSome(lists, e) {
        InSomeCons(lists, e);
      }
    }
  }

  // ----- positions of the children -----------------------------------------

  /** How many entries of `es` come before position `k` of the merge. */
  function Below(es: seq<Entry>, merged: seq<Entry>, k: nat): (n: nat)
    ensures n <= |es|
  {
    if k < |merged| then LowerBound(es, merged[k].key) else |es|
  }

  /** Which child holds an entry of the merge. */
  lemma {:induction false} Home(lists: seq<seq<Entry>>, merged: seq<Entry>, k: nat) returns (i: nat, j: nat)
    requires Merges(lists, merged) && k < |merged|
    ensures At(lists, i, j, merged[k])
  {
    assert merged[k] in merged;
    i, j :| At(lists, i, j, merged[k]);
  }

  lemma {:induction false} PlaceIn(lists: seq<seq<Entry>>, merged: seq<Entry>, i: nat, j: nat) returns (k: nat)
    requires Merges(lists, merged) && i < |lists| && j < |lists[i]|
    ensures k < |merged| && merged[k] == lists[i][j]
  {
    assert At(lists, i, j, lists[i][j]);
    assert InSome(lists, lists[i][j]);
    var m :| 0 <= m < |merged| && merged[m] == lists[i][j];
    k := m;
  }

  /** In a sorted run, an entry's own key is its lower bound. */
  lemma {:induction false} OwnBound(es: seq<Entry>, j: nat)
    requires Sorted(es) && j < |es|
    ensures LowerBound(es, es[j].key) == j
  {
    LowerBoundIs(es, es[j].key, j);
  }

  /** One step further in the merge, one child has one more entry behind it. */
  lemma {:induction false} BelowNext(lists: seq<seq<Entry>>, merged: seq<Entry>, k: nat, c: nat, j: nat, i: nat)
    requires Apart(lists) && Merges(lists, merged) && k < |merged| && At(lists, c, j, merged[k]) && i < |lists|
    ensures Below(lists[i], merged, k + 1) == if i == c then j + 1 else Below(lists[i], merged, k)
    ensures i == c ==> Below(lists[i], merged, k) == j
    ensures i != c ==> forall j' :: 0 <= j' < |lists[i]| ==> lists[i][j'].key != merged[k].key
  {
    var es := lists[i];
    var p: nat := if i == c then j + 1 else Below(es, merged, k);
    if i == c {
      OwnBound(es, j);
    }
    forall j' | 0 <= j' < |es| ensures j' < p <==> k + 1 == |merged| || Less(es[j'].key, merged[k + 1].key) {
      var m := PlaceIn(lists, merged, i, j');
      assert m < k ==> Less(merged[m].key, merged[k].key);
      assert m > k ==> Less(merged[k].key, merged[m].key);
      assert k + 1 < |merged| && m < k + 1 ==> Less(merged[m].key, merged[k + 1].key);
      assert k + 1 < |merged| && m > k + 1 ==> Less(merged[k + 1].key, merged[m].key);
      if i == c {
        assert j' < j ==> Less(es[j'].key, es[j].key);
        assert j' > j ==> Less(es[j].key, es[j'].key);
      } else {
        assert es[j'].key != lists[c][j].key;
        SideOf(es, merged[k].key, j');
      }
    }
    if k + 1 < |merged| {
      LowerBoundIs(es, merged[k + 1].key, p);
    } else if p < |es| {
      var m := PlaceIn(lists, merged, i, p);
    }
  }

  lemma {:induction false} SideOf(es: seq<Entry>, k: InternalKey, j: nat)
    requires Sorted(es) && j < |es|
    ensures j < LowerBound(es, k) <==> Less(es[j].key, k)
  {
    var p := LowerBound(es, k);
    if p < j {
      assert Less(es[p].key, es[j].key);
    }
  }

  /** Children that seek a target stand where the merge would. */
  lemma {:induction false} BelowTarget(lists: seq<seq<Entry>>, merged: seq<Entry>, target: InternalKey, i: nat)
    requires Apart(lists) && Merges(lists, merged) && i < |lists|
    ensures LowerBound(lists[i], target) == Below(lists[i], merged, LowerBound(merged, target))
  {
    var k := LowerBound(merged, target);
    var es := lists[i];
    forall j | 0 <= j < |es| ensures Less(es[j].key, target) <==> k == |merged| || Less(es[j].key, merged[k].key) {
      var m := PlaceIn(lists, merged, i, j);
      SideOf(merged, target, m);
      assert m < k && k < |merged| ==> Less(merged[m].key, merged[k].key);
      assert k < m ==> Less(merged[k].key, merged[m].key);
    }
    var p := Below(es, merged, k);
    forall j | 0 <= j < |es| ensures j < p <==> Less(es[j].key, target) {
      if k < |merged| {
        SideOf(es, merged[k].key, j);
      }
    }
    LowerBoundIs(es, target, p);
  }

  // ----- the iterator ------------------------------------------------------

  datatype Direction = Forward | Reverse

  ghost function ListsOf(children: seq<Cursor>): seq<seq<Entry>> {
    seq(|children|, i requires 0 <= i < |children| => children[i].entries)
  }

  class MergingIterator {
    const children: seq<Cursor>
    var current: Option<nat>
    var direction: Direction
    /** Index into the merge; its length when the iterator is not valid. */
    ghost var cur: nat

    constructor (children: seq<Cursor>)
      requires Apart(ListsOf(children)) && forall i, j :: 0 <= i < j < |children| ==> children[i] != children[j]
      ensures Ok() && !Valid() && this.children == children
    {
      this.children, current, direction := children, None, Forward;
      new;
      cur := |Merged()|;
      MergeAllMerges(Lists());
    }

    ghost function Lists(): seq<seq<Entry>> {
      ListsOf(children)
    }

    /** The sorted merge of the children. */
    ghost function Merged(): seq<Entry> {
      MergeAll(Lists())
    }

    ghost predicate Shape() {
      && Apart(Lists()) && Merges(Lists(), Merged())
      && forall i, j :: 0 <= i < j < |children| ==> children[i] != children[j]
    }

    ghost function ForwardPos(i: nat, k: nat): nat
      requires i < |children|
    {
      Below(children[i].entries, Merged(), k)
    }

    /** Where a child rests that is to be before position `k` of the merge. */
    ghost function ReversePos(i: nat, k: nat): nat
      requires i < |children|
    {
      var p := Below(children[i].entries, Merged(), k);
      if p == 0 then |children[i].entries| else p - 1
    }

    ghost predicate AllForward(k: nat)
      reads children
    {
      forall i :: 0 <= i < |children| ==> children[i].pos == ForwardPos(i, k)
    }

    ghost predicate AllReverse(k: nat)
      reads children
    {
      forall i :: 0 <= i < |children| ==> children[i].pos == ReversePos(i, k)
    }

    /** `current` is the child that holds entry `k` of the merge, and rests on it. */
    ghost predicate CurrentIs(k: nat)
      reads `current, children
    {
      && k < |Merged()| && current.Some? && current.value < |children|
      && var c := children[current.value];
         c.pos < |c.entries| && c.entries[c.pos] == Merged()[k]
    }

    ghost predicate Ok()
      reads this, children
    {
      && Shape() && cur <= |Merged()|
      && (cur == |Merged()| ==> current == None)
      && (cur < |Merged()| ==>
            && CurrentIs(cur)
            && if direction == Forward then AllForward(cur) else AllReverse(cur + 1))
    }

    predicate Valid()
      reads this
    {
      current.Some?
    }

    method Key() returns (key: InternalKey)
      requires Ok() && Valid()
      ensures cur < |Merged()| && key == Merged()[cur].key
    {
      key := children[current.value].Key();
    }

    method Value() returns (value: Value)
      requires Ok() && Valid()
      ensures cur < |Merged()| && value == Merged()[cur].value
    {
      value := children[current.value].Value();
    }

    /** Some child is read, and none valid before `n` is less (`least`) or greater than it. */
    predicate Extreme(found: Option<nat>, low: nat, high: nat, least: bool)
      requires high <= |children|
      reads children
    {
      match found
      case None => forall i :: low <= i < high ==> !children[i].Valid()
      case Some(s) =>
        && low <= s < high && children[s].Valid()
        && forall i :: low <= i < high && children[i].Valid() ==>
             if least then !Less(children[i].Key(), children[s].Key()) else !Less(children[s].Key(), children[i].Key())
    }

    method FindSmallest()
      modifies this`current
      ensures Extreme(current, 0, |children|, true)
    {
      var smallest: Option<nat> := None;
      for i := 0 to |children|
        invariant Extreme(smallest, 0, i, true)
      {
        var child := children[i];
        if child.Valid() {
          if smallest.None? {
            smallest := Some(i);
          } else if Less(child.Key(), children[smallest.value].Key()) {
            smallest := Some(i);
          }
        }
      }
      current := smallest;
    }

    method FindLargest()
      modifies this`current
      ensures Extreme(current, 0, |children|, false)
    {
      var largest: Option<nat> := None;
      for i := |children| downto 0
        invariant Extreme(largest, i, |children|, false)
      {
        var child := children[i];
        if child.Valid() {
          if largest.None? {
            largest := Some(i);
          } else if Less(children[largest.value].Key(), child.Key()) {
            largest := Some(i);
          }
        }
      }
      current := largest;
    }

    /** Reading the smallest child when all rest at position `k` of the merge reads entry `k`. */
    lemma {:induction false} SmallestIs(k: nat)
      requires Shape() && k <= |Merged()| && AllForward(k) && Extreme(current, 0, |children|, true)
      ensures k == |Merged()| ==> current == None
      ensures k < |Merged()| ==> CurrentIs(k)
    {
      hide Apart, Merges, MergeAll;
      if k < |Merged()| {
        var c, j := Home(Lists(), Merged(), k);
        BelowNext(Lists(), Merged(), k, c, j, c);
        assert children[c].Valid() && children[c].pos == j;
        var s := current.value;
        if s != c {
          BelowNext(Lists(), Merged(), k, c, j, s);
          ShapeSorted(s);
          SideOf(children[s].entries, Merged()[k].key, children[s].pos);
          KeysDiffer(children[s].Key(), Merged()[k].key);
        }
      }
    }

    /** Reading the largest child when all rest before position `k` of the merge reads the entry before. */
    lemma {:induction false} LargestIs(k: nat)
      requires Shape() && k <= |Merged()| && AllReverse(k) && Extreme(current, 0, |children|, false)
      ensures k == 0 ==> current == None
      ensures k > 0 ==> CurrentIs(k - 1)
    {
      hide Apart, Merges, MergeAll;
      if k == 0 {
        NothingBelow();
        forall i | 0 <= i < |children| ensures children[i].pos == |children[i].entries| {
          assert ForwardPos(i, 0) == 0;
        }
      } else {
        var c, j := Home(Lists(), Merged(), k - 1);
        BelowNext(Lists(), Merged(), k - 1, c, j, c);
        assert children[c].Valid() && children[c].pos == j;
        var s := current.value;
        if s != c {
          ShapeSorted(s);
          SideOf(children[s].entries, Merged()[k - 1].key, children[s].pos);
          BelowNext(Lists(), Merged(), k - 1, c, j, s);
        }
      }
    }

    lemma {:induction false} ShapeSorted(i: nat)
      requires Shape() && i < |children|
      ensures Sorted(children[i].entries)
    {
      assert Lists()[i] == children[i].entries;
    }

    lemma {:induction false} KeysDiffer(a: InternalKey, b: InternalKey)
      requires a != b && !Less(a, b)
      ensures Less(b, a)
    {
      assert Compare(a, b) > 0;
    }

    /** No entry of a child comes before the first of the merge. */
    lemma {:induction false} NothingBelow()
      requires Shape()
      ensures forall i :: 0 <= i < |children| ==> ForwardPos(i, 0) == 0
    {
      forall i | 0 <= i < |children| ensures ForwardPos(i, 0) == 0 {
        var es := children[i].entries;
        if es != [] {
          var m := PlaceIn(Lists(), Merged(), i, 0);
          SideOf(es, Merged()[0].key, 0);
          assert m > 0 ==> Less(Merged()[0].key, Merged()[m].key);
        }
      }
    }

    method SeekToFirst()
      requires Ok()
      modifies this, children
      ensures Ok() && cur == 0
    {
      hide Apart, Merges, MergeAll, Below;
      NothingBelow();
      for i := 0 to |children|
        invariant Shape() && forall j :: 0 <= j < i ==> children[j].pos == 0
      {
        children[i].SeekToFirst();
      }
      FindSmallest();
      direction := Forward;
      cur := 0;
      SmallestIs(0);
    }

    method SeekToLast()
      requires Ok()
      modifies this, children
      ensures Ok() && cur == if |Merged()| == 0 then 0 else |Merged()| - 1
    {
      hide Apart, Merges, MergeAll;
      ghost var k := |Merged()|;
      for i := 0 to |children|
        invariant Shape() && forall j :: 0 <= j < i ==> children[j].pos == ReversePos(j, k)
      {
        children[i].SeekToLast();
      }
      FindLargest();
      direction := Reverse;
      cur := if k == 0 then 0 else k - 1;
      LargestIs(k);
    }

    /** The first entry of the merge at or after `target`. */
    method Seek(target: InternalKey)
      requires Ok()
      modifies this, children
      ensures Ok() && cur == LowerBound(Merged(), target)
    {
      hide Apart, Merges, MergeAll, Below, LowerBound;
      ghost var k := LowerBound(Merged(), target);
      for i := 0 to |children|
        invariant Shape() && forall j :: 0 <= j < i ==> children[j].pos == ForwardPos(j, k)
      {
        BelowTarget(Lists(), Merged(), target, i);
        children[i].Seek(target);
      }
      FindSmallest();
      direction := Forward;
      cur := k;
      SmallestIs(k);
    }

    /** Past entry `k`, only the child that holds it has one more entry behind. */
    lemma {:induction false} OneFurther(k: nat, c: nat, i: nat)
      requires Shape() && k < |Merged()| && c < |children| && i < |children|
      requires children[c].pos < |children[c].entries| && children[c].entries[children[c].pos] == Merged()[k]
      ensures ForwardPos(c, k) == children[c].pos
      ensures ForwardPos(i, k + 1) == if i == c then children[c].pos + 1 else ForwardPos(i, k)
      ensures ForwardPos(i, k) == LowerBound(children[i].entries, Merged()[k].key)
      ensures i != c ==> forall j :: 0 <= j < |children[i].entries| ==> children[i].entries[j].key != Merged()[k].key
    {
      hide Apart, Merges, MergeAll;
      assert At(Lists(), c, children[c].pos, Merged()[k]);
      BelowNext(Lists(), Merged(), k, c, children[c].pos, c);
      BelowNext(Lists(), Merged(), k, c, children[c].pos, i);
    }

    /** Puts every child but the current one at its first entry after the current key. */
    method TurnForward()
      requires Ok() && Valid() && direction == Reverse
      modifies this`direction, children
      ensures Ok() && direction == Forward
    {
      hide Apart, Merges, MergeAll, Below, LowerBound;
      var key := children[current.value].Key();
      for i := 0 to |children|
        invariant Shape() && CurrentIs(cur)
        invariant forall j :: 0 <= j < i ==> children[j].pos == ForwardPos(j, cur)
      {
        OneFurther(cur, current.value, i);
        if i != current.value {
          var child := children[i];
          child.Seek(key);
          if child.Valid() && key == child.Key() {
            child.Next();
          }
        }
      }
      direction := Forward;
    }

    /** Puts every child but the current one at its last entry before the current key. */
    method TurnReverse()
      requires Ok() && Valid() && direction == Forward
      modifies this`direction, children
      ensures Ok() && direction == Reverse
    {
      hide Apart, Merges, MergeAll, Below, LowerBound;
      var key := children[current.value].Key();
      for i := 0 to |children|
        invariant Shape() && CurrentIs(cur)
        invariant forall j :: 0 <= j < i ==> children[j].pos == ReversePos(j, cur + 1)
      {
        OneFurther(cur, current.value, i);
        if i != current.value {
          var child := children[i];
          child.Seek(key);
          if child.Valid() {
            child.Prev();
          } else {
            child.SeekToLast();
          }
        }
      }
      direction := Reverse;
    }

    /** Moving the current child on leaves all children after the current key. */
    method MoveOn(ghost k: nat)
      requires Shape() && CurrentIs(k) && AllForward(k)
      modifies children
      ensures AllForward(k + 1)
    {
      hide Apart, Merges, MergeAll, Below, LowerBound;
      forall i | 0 <= i < |children|
        ensures ForwardPos(i, k + 1) == if i == current.value then children[i].pos + 1 else children[i].pos
      {
        OneFurther(k, current.value, i);
      }
      hide Shape;
      children[current.value].Next();
    }

    /** Moving the current child back leaves all children before the current key. */
    method MoveBack(ghost k: nat)
      requires Shape() && CurrentIs(k) && AllReverse(k + 1)
      modifies children
      ensures AllReverse(k)
    {
      hide Apart, Merges, MergeAll, Below, LowerBound;
      forall i | 0 <= i < |children|
        ensures var p := children[i].pos;
                ReversePos(i, k) == if i != current.value then p else if p == 0 then |children[i].entries| else p - 1
      {
        OneFurther(k, current.value, i);
      }
      hide Shape;
      children[current.value].Prev();
    }

    method Next()
      requires Ok() && Valid()
      modifies this, children
      ensures Ok() && cur == old(cur) + 1
    {
      hide Apart, Merges, MergeAll, AllForward, AllReverse, CurrentIs, Extreme, Shape;
      if direction != Forward {
        TurnForward();
      }
      MoveOn(cur);
      FindSmallest();
      SmallestIs(cur + 1);
      cur := cur + 1;
    }

    method Prev()
      requires Ok() && Valid()
      modifies this, children
      ensures Ok() && cur == if old(cur) == 0 then |Merged()| else old(cur) - 1
    {
      hide Apart, Merges, MergeAll, AllForward, AllReverse, CurrentIs, Extreme, Shape;
      if direction != Reverse {
        TurnReverse();
      }
      MoveBack(cur);
      FindLargest();
      LargestIs(cur);
      cur := if cur == 0 then |Merged()| else cur - 1;
    }
  }
}
