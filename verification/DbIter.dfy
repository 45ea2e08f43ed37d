/** The user-facing iterator (db/db_iter.cc): a cursor over the keys that are alive at a snapshot,
    built on the merging iterator over all internal entries.
 */
module DbIter {
  import opened DbFormat
  import opened Merger

  // ----- the live keys -----------------------------------------------------

  predicate Seen(es: seq<Entry>, snapshot: nat, i: nat)
    requires i < |es|
  {
    es[i].key.sequence <= snapshot
  }

  /** Entry `i` is a value, and the newest entry of its user key that the snapshot sees. */
  ghost predicate Live(es: seq<Entry>, snapshot: nat, i: nat) {
    && i < |es| && Seen(es, snapshot, i) && es[i].key.kind.TypeValue?
    && forall j :: 0 <= j < i && es[j].key.user == es[i].key.user ==> !Seen(es, snapshot, j)
  }

  /** The positions of the live entries among the first `n`. */
  ghost function LiveTo(es: seq<Entry>, snapshot: nat, n: nat): seq<nat> {
    if n == 0 then []
    else if Live(es, snapshot, n - 1) then LiveTo(es, snapshot, n - 1) + [n - 1]
    else LiveTo(es, snapshot, n - 1)
  }

  /** The positions an iterator at this snapshot visits, first to last. */
  ghost function LiveList(es: seq<Entry>, snapshot: nat): seq<nat> {
    LiveTo(es, snapshot, |es|)
  }

  ghost predicate Ascending(l: seq<nat>) {
    forall i, j :: 0 <= i < j < |l| ==> l[i] < l[j]
  }

  lemma {:induction false} LiveToFacts(es: seq<Entry>, snapshot: nat, n: nat)
    ensures Ascending(LiveTo(es, snapshot, n))
    ensures forall k :: 0 <= k < |LiveTo(es, snapshot, n)| ==>
              LiveTo(es, snapshot, n)[k] < n && Live(es, snapshot, LiveTo(es, snapshot, n)[k])
    ensures forall i :: 0 <= i < n && Live(es, snapshot, i) ==> i in LiveTo(es, snapshot, n)
  {
    if n > 0 {
      LiveToFacts(es, snapshot, n - 1);
    }
  }

  /** Entries of one user key are contiguous, newest first. */
  lemma {:induction false} UsersAscend(es: seq<Entry>, i: nat, j: nat)
    requires Sorted(es) && i <= j < |es|
    ensures es[i].key.user <= es[j].key.user
    ensures es[i].key.user == es[j].key.user ==> es[i].key.sequence >= es[j].key.sequence
  {
  }

  /** The live keys ascend, and each carries exactly what a read at the snapshot returns. */
  lemma {:induction false} LiveKeysAreReads(es: seq<Entry>, snapshot: nat, user: UserKey)
    requires Sorted(es)
    ensures var l := LiveList(es, snapshot);
            var db := set e | e in es;
            (forall k :: 0 <= k < |l| ==> l[k] < |es|)
            && (forall a, b :: 0 <= a < b < |l| ==> es[l[a]].key.user < es[l[b]].key.user)
            && (UniqueSequences(db) ==>
                  (forall k :: 0 <= k < |l| && es[l[k]].key.user == user ==>
                     Read(db, user, snapshot) == Some(es[l[k]].value))
                  && (Read(db, user, snapshot).Some? ==> exists k :: 0 <= k < |l| && es[l[k]].key.user == user))
  {
    var l := LiveList(es, snapshot);
    var db := set e | e in es;
    LiveToFacts(es, snapshot, |es|);
    forall a, b | 0 <= a < b < |l| ensures es[l[a]].key.user < es[l[b]].key.user {
      UsersAscend(es, l[a], l[b]);
      assert Live(es, snapshot, l[a]) && Live(es, snapshot, l[b]);
    }
    if UniqueSequences(db) {
      forall k | 0 <= k < |l| && es[l[k]].key.user == user
        ensures Read(db, user, snapshot) == Some(es[l[k]].value)
      {
        LiveIsNewest(es, snapshot, l[k]);
        AnswerIsRead(db, user, snapshot, Some(es[l[k]]));
      }
      if Read(db, user, snapshot).Some? {
        var i := ReadIsLive(es, snapshot, user);
        var k :| 0 <= k < |l| && l[k] == i;
      }
    }
  }

  lemma {:induction false} LiveIsNewest(es: seq<Entry>, snapshot: nat, i: nat)
    requires Sorted(es) && Live(es, snapshot, i)
    ensures Newest((set e | e in es), es[i].key.user, snapshot, es[i])
  {
    forall x | x in es && Visible(x, es[i].key.user, snapshot) ensures x.key.sequence <= es[i].key.sequence {
      var j :| 0 <= j < |es| && es[j] == x;
      assert Seen(es, snapshot, j);
      UsersAscend(es, i, j);
    }
  }

  lemma {:induction false} ReadIsLive(es: seq<Entry>, snapshot: nat, user: UserKey) returns (i: nat)
    requires Sorted(es) && UniqueSequences(set e | e in es)
    requires Read((set e | e in es), user, snapshot).Some?
    ensures Live(es, snapshot, i) && es[i].key.user == user
  {
    var db := set e | e in es;
    var found := ReadHasAnswer(db, user, snapshot);
    AnswerIsRead(db, user, snapshot, found);
    var k :| 0 <= k < |es| && es[k] == found.value;
    i := k;
    forall j | 0 <= j < i && es[j].key.user == user ensures !Seen(es, snapshot, j) {
      assert Less(es[j].key, es[i].key);
      assert es[j] in db;
      assert Seen(es, snapshot, j) ==> Visible(es[j], user, snapshot);
    }
  }

  /** `c` of the live positions lie below `bound`. */
  ghost predicate SplitsAt(l: seq<nat>, bound: nat, c: nat) {
    c <= |l| && (forall k :: 0 <= k < c ==> l[k] < bound) && (forall k :: c <= k < |l| ==> l[k] >= bound)
  }

  /** Some live entry lies at a position in [lo, hi). */
  ghost predicate LiveWithin(es: seq<Entry>, snapshot: nat, lo: nat, hi: nat) {
    exists i :: lo <= i < hi && Live(es, snapshot, i)
  }

  /** How many live entries lie below position `bound`. */
  ghost function CountBelow(es: seq<Entry>, snapshot: nat, bound: nat): nat {
    |LiveTo(es, snapshot, bound)|
  }

  lemma {:induction false} CountSplits(es: seq<Entry>, snapshot: nat, bound: nat, n: nat)
    requires bound <= n
    ensures SplitsAt(LiveTo(es, snapshot, n), bound, CountBelow(es, snapshot, bound))
  {
    LiveToFacts(es, snapshot, n);
    if bound < n {
      CountSplits(es, snapshot, bound, n - 1);
      assert forall k :: 0 <= k < |LiveTo(es, snapshot, n - 1)| ==> LiveTo(es, snapshot, n)[k] == LiveTo(es, snapshot, n - 1)[k];
    }
  }

  lemma {:induction false} ListSplits(es: seq<Entry>, snapshot: nat, bound: nat)
    requires bound <= |es|
    ensures SplitsAt(LiveList(es, snapshot), bound, CountBelow(es, snapshot, bound))
  {
    CountSplits(es, snapshot, bound, |es|);
  }

  lemma {:induction false} SplitBelow(l: seq<nat>, bound: nat, c: nat, k: nat)
    requires SplitsAt(l, bound, c) && k < c
    ensures l[k] < bound
  {
  }

  /** Only one count splits the list at a bound. */
  lemma {:induction false} SplitIsUnique(es: seq<Entry>, snapshot: nat, bound: nat, c: nat)
    requires bound <= |es| && SplitsAt(LiveList(es, snapshot), bound, c)
    ensures c == CountBelow(es, snapshot, bound)
  {
    var l := LiveList(es, snapshot);
    var d: nat := CountBelow(es, snapshot, bound);
    ListSplits(es, snapshot, bound);
    if c < d {
      SplitBelow(l, bound, d, c);
    } else if d < c {
      SplitBelow(l, bound, c, d);
    }
  }

  /** The first live position at or above `bound` is the one the list shows there. */
  lemma {:induction false} FirstFrom(es: seq<Entry>, snapshot: nat, bound: nat, p: nat, c: nat)
    requires p <= |es| && !LiveWithin(es, snapshot, bound, p)
    requires p < |es| ==> bound <= p && Live(es, snapshot, p)
    requires SplitsAt(LiveList(es, snapshot), bound, c)
    ensures if p < |es| then c < |LiveList(es, snapshot)| && LiveList(es, snapshot)[c] == p
            else c == |LiveList(es, snapshot)|
  {
    var l := LiveList(es, snapshot);
    LiveToFacts(es, snapshot, |es|);
    if c < |l| {
      assert Live(es, snapshot, l[c]);
    }
    if p < |es| {
      var k :| 0 <= k < |l| && l[k] == p;
    }
  }

  /** The last live position below `bound` is the one the list shows there. */
  lemma {:induction false} LastBelow(es: seq<Entry>, snapshot: nat, bound: nat, p: nat, c: nat)
    requires p < bound <= |es| && !LiveWithin(es, snapshot, p + 1, bound) && Live(es, snapshot, p)
    requires SplitsAt(LiveList(es, snapshot), bound, c)
    ensures c > 0 && LiveList(es, snapshot)[c - 1] == p
  {
    var l := LiveList(es, snapshot);
    LiveToFacts(es, snapshot, |es|);
    var k :| 0 <= k < |l| && l[k] == p;
    assert k < c;
    assert Live(es, snapshot, l[c - 1]) && l[c - 1] < bound;
    assert l[c - 1] <= p;
  }

  lemma {:induction false} SomeBelow(es: seq<Entry>, snapshot: nat, bound: nat)
    requires bound <= |es| && CountBelow(es, snapshot, bound) > 0
    ensures LiveWithin(es, snapshot, 0, bound)
  {
    LiveToFacts(es, snapshot, bound);
    assert Live(es, snapshot, LiveTo(es, snapshot, bound)[0]);
  }

  lemma {:induction false} LivePositions(es: seq<Entry>, snapshot: nat, c: nat)
    requires c < |LiveList(es, snapshot)|
    ensures var l := LiveList(es, snapshot);
            Live(es, snapshot, l[c]) && SplitsAt(l, l[c], c) && SplitsAt(l, l[c] + 1, c + 1)
  {
    LiveToFacts(es, snapshot, |es|);
  }

  // ----- invariants of the two scans ---------------------------------------

  /** Entries at `j` are to be passed over. */
  predicate Skips(skipping: bool, skip: Option<UserKey>, user: UserKey) {
    skipping && skip.Some? && user <= skip.value
  }

  /** FindNextUserEntry at position `p`, looking for the first live entry at or above `bound`:
      what it will skip is not wanted, and what an earlier entry hides it will skip. */
  ghost predicate ScanningForward(es: seq<Entry>, snapshot: nat, bound: nat, p: nat, skipping: bool,
                                  skip: Option<UserKey>) {
    && p <= |es|
    && (skipping ==> skip.Some?)
    && (forall j :: p <= j < |es| && Skips(skipping, skip, es[j].key.user) ==> j < bound || !Live(es, snapshot, j))
    && (forall i, j :: 0 <= i < p <= j < |es| && Seen(es, snapshot, i) && es[i].key.user == es[j].key.user
          ==> Skips(skipping, skip, es[j].key.user))
    && (forall j :: p <= j < |es| && j < bound ==> Skips(skipping, skip, es[j].key.user))
    && (skipping ==> forall j :: p <= j < |es| && Seen(es, snapshot, j) ==> skip.value <= es[j].key.user)
    && !LiveWithin(es, snapshot, bound, p)
  }

  lemma {:induction false} ForwardStep(es: seq<Entry>, snapshot: nat, bound: nat, p: nat, skipping: bool,
                                       skip: Option<UserKey>,
                                       skipping': bool, skip': Option<UserKey>)
    requires Sorted(es) && p < |es|
    requires ScanningForward(es, snapshot, bound, p, skipping, skip)
    requires
      var k := es[p].key;
      if Seen(es, snapshot, p) && k.kind.TypeDeletion? then skipping' && skip' == Some(k.user)
      else skipping' == skipping && skip' == skip
           && (Seen(es, snapshot, p) ==> Skips(skipping, skip, k.user))
    ensures ScanningForward(es, snapshot, bound, p + 1, skipping', skip')
  {
    forall j | p <= j < |es| ensures es[p].key.user <= es[j].key.user {
      UsersAscend(es, p, j);
    }
    forall i | 0 <= i <= p ensures es[i].key.user <= es[p].key.user {
      UsersAscend(es, i, p);
    }
  }

  lemma {:induction false} ForwardFinds(es: seq<Entry>, snapshot: nat, bound: nat, p: nat, skipping: bool,
                                        skip: Option<UserKey>)
    requires Sorted(es) && p < |es|
    requires ScanningForward(es, snapshot, bound, p, skipping, skip)
    requires Seen(es, snapshot, p) && es[p].key.kind.TypeValue? && !Skips(skipping, skip, es[p].key.user)
    ensures ForwardAt(es, snapshot, bound, p)
  {
  }

  /** The end of the scan: `p` is the first live position at or above `bound`, or there is none. */
  lemma {:induction false} ForwardEnds(es: seq<Entry>, snapshot: nat, bound: nat, p: nat, found: bool, skipping: bool,
                                       skip: Option<UserKey>)
    requires if found then p < |es| && ForwardAt(es, snapshot, bound, p)
             else p >= |es| && ScanningForward(es, snapshot, bound, p, skipping, skip)
    ensures !LiveWithin(es, snapshot, bound, p) && p <= |es| && (found ==> bound <= p && Live(es, snapshot, p))
  {
  }

  ghost predicate ForwardAt(es: seq<Entry>, snapshot: nat, bound: nat, p: nat) {
    bound <= p && Live(es, snapshot, p) && !LiveWithin(es, snapshot, bound, p)
  }

  /** FindPrevUserEntry, having read back from `top` to above `p`: `c` is the last seen entry it read. */
  ghost predicate ScanningBack(es: seq<Entry>, snapshot: nat, top: nat, p: int, c: nat) {
    && -1 <= p < c <= top <= |es|
    && (c < top ==> Seen(es, snapshot, c))
    && (forall i :: p < i < c ==> !Seen(es, snapshot, i))
    && !LiveWithin(es, snapshot, c + 1, top)
  }

  lemma {:induction false} BackStarts(es: seq<Entry>, snapshot: nat, top: nat)
    requires top <= |es|
    ensures ScanningBack(es, snapshot, top, top - 1, top)
  {
  }

  lemma {:induction false} BackStep(es: seq<Entry>, snapshot: nat, top: nat, p: nat, c: nat)
    requires Sorted(es) && ScanningBack(es, snapshot, top, p, c)
    requires Seen(es, snapshot, p)
    requires c < top && es[c].key.kind.TypeValue? ==> es[p].key.user >= es[c].key.user
    ensures ScanningBack(es, snapshot, top, p - 1, p)
  {
    if c < top {
      UsersAscend(es, p, c);
    }
  }

  lemma {:induction false} BackFindsNone(es: seq<Entry>, snapshot: nat, top: nat, c: nat)
    requires ScanningBack(es, snapshot, top, -1, c)
    requires c < top ==> es[c].key.kind.TypeDeletion?
    ensures !LiveWithin(es, snapshot, 0, top)
  {
    forall i: nat | i < top ensures !Live(es, snapshot, i) {
      if i > c {
        assert !LiveWithin(es, snapshot, c + 1, top);
      }
    }
  }

  lemma {:induction false} BackFinds(es: seq<Entry>, snapshot: nat, top: nat, p: int, c: nat, rest: nat)
    requires Sorted(es) && ScanningBack(es, snapshot, top, p, c)
    requires if p >= 0 then rest == p && Seen(es, snapshot, p) else rest >= |es|
    requires c < top && es[c].key.kind.TypeValue?
    requires p >= 0 ==> es[p].key.user < es[c].key.user
    ensures Live(es, snapshot, c) && BeforeUser(es, snapshot, rest, es[c].key.user)
  {
    if p >= 0 {
      forall j | 0 <= j <= p ensures es[j].key.user < es[c].key.user {
        UsersAscend(es, j, p);
      }
    }
    forall j | c <= j < |es| ensures es[c].key.user <= es[j].key.user {
      UsersAscend(es, c, j);
    }
  }

  /** `p` is the last seen entry of a user key before `user`; past the end if there is none. */
  ghost predicate BeforeUser(es: seq<Entry>, snapshot: nat, p: nat, user: UserKey) {
    && (p < |es| ==> Seen(es, snapshot, p) && es[p].key.user < user)
    && forall i :: 0 <= i < |es| && Seen(es, snapshot, i) && es[i].key.user < user ==> p < |es| && i <= p
  }

  /** Between an iterator resting before a live entry and that entry, nothing is live. */
  lemma {:induction false} NothingBetween(es: seq<Entry>, snapshot: nat, p: nat, i: nat)
    requires Sorted(es) && Live(es, snapshot, i) && BeforeUser(es, snapshot, p, es[i].key.user)
    ensures !LiveWithin(es, snapshot, if p < |es| then p + 1 else 0, i)
    ensures p < |es| ==> p < i
  {
    if p < |es| && p >= i {
      UsersAscend(es, i, p);
    }
    forall j: nat | j < i && (p < |es| ==> p < j) ensures !Live(es, snapshot, j) {
      UsersAscend(es, j, i);
    }
  }

  /** Turning forward: the scan resumes after the resting place and skips the current user key. */
  lemma {:induction false} TurnForward(es: seq<Entry>, snapshot: nat, p: nat, i: nat)
    requires Sorted(es) && Live(es, snapshot, i) && BeforeUser(es, snapshot, p, es[i].key.user)
    ensures ScanningForward(es, snapshot, i + 1, if p < |es| then p + 1 else 0, true, Some(es[i].key.user))
  {
    NothingBetween(es, snapshot, p, i);
    var q := if p < |es| then p + 1 else 0;
    var skip := es[i].key.user;
    forall j | q <= j < |es| && es[j].key.user <= skip ensures j < i + 1 || !Live(es, snapshot, j) {
      if j > i {
        UsersAscend(es, i, j);
      }
    }
    forall a, j | 0 <= a < q <= j < |es| && Seen(es, snapshot, a) && es[a].key.user == es[j].key.user
      ensures es[j].key.user <= skip
    {
      UsersAscend(es, a, p);
    }
    forall j | q <= j < i + 1 ensures es[j].key.user <= skip {
      UsersAscend(es, j, i);
    }
  }

  lemma {:induction false} LiveInBounds(es: seq<Entry>, snapshot: nat, i: nat)
    requires Live(es, snapshot, i)
    ensures i < |es|
  {
  }

  /** Moving on from a live entry: the scan skips its user key. */
  lemma {:induction false} KeepForward(es: seq<Entry>, snapshot: nat, i: nat)
    requires Sorted(es) && Live(es, snapshot, i)
    ensures ScanningForward(es, snapshot, i + 1, i, true, Some(es[i].key.user))
  {
    forall j | i <= j < |es| ensures es[i].key.user <= es[j].key.user {
      UsersAscend(es, i, j);
    }
    forall a, j | 0 <= a < i <= j < |es| && es[a].key.user == es[j].key.user
      ensures es[j].key.user <= es[i].key.user
    {
      UsersAscend(es, a, i);
    }
  }

  class DBIter {
    const iter: MergingIterator
    const sequence: nat
    var direction: Direction
    var valid: bool
    var savedKey: Option<UserKey>
    var savedValue: Value
    /** Index into the live list; its length when the iterator is not valid. */
    ghost var cur: nat

    constructor (iter: MergingIterator, sequence: nat)
      requires iter.Ok()
      ensures Ok() && !valid && this.iter == iter && this.sequence == sequence
    {
      this.iter, this.sequence := iter, sequence;
      direction, valid, savedKey, savedValue := Forward, false, None, [];
      new;
      cur := |Keys()|;
    }

    /** What the inner iterator runs over. */
    ghost function Entries(): seq<Entry> {
      iter.Merged()
    }

    /** Positions of the live entries. */
    ghost function Keys(): seq<nat> {
      LiveList(Entries(), sequence)
    }

    /** The position of the inner iterator, -1 when it ran off the front. */
    ghost function At(): int
      reads iter
    {
      if iter.Valid() then iter.cur else -1
    }

    lemma {:induction false} InnerIs()
      requires iter.Ok()
      ensures Sorted(Entries()) && iter.cur <= |Entries()| && (iter.Valid() <==> iter.cur < |Entries()|)
    {
    }

    ghost predicate Ok()
      reads this, iter, iter.children
    {
      && iter.Ok()
      && (valid <==> cur < |Keys()|) && cur <= |Keys()|
      && (valid && direction == Forward ==> iter.cur == Keys()[cur])
      && (valid && direction == Reverse ==>
            var p := Keys()[cur];
            && p < |Entries()|
            && savedKey == Some(Entries()[p].key.user) && savedValue == Entries()[p].value
            && BeforeUser(Entries(), sequence, iter.cur, savedKey.value))
    }

    lemma {:induction false} ValidIs()
      requires Ok()
      ensures cur <= |Keys()| && (valid <==> cur < |Keys()|)
    {
    }

    /** Key and value at a position of the cursor. */
    ghost function PairAt(k: nat): (UserKey, Value)
      requires k < |Keys()| && Keys()[k] < |Entries()|
    {
      (Entries()[Keys()[k]].key.user, Entries()[Keys()[k]].value)
    }

    method Key() returns (user: UserKey)
      requires Ok() && valid
      ensures Keys()[cur] < |Entries()| && user == Entries()[Keys()[cur]].key.user
    {
      LivePositions(Entries(), sequence, cur);
      if direction == Forward {
        var key := iter.Key();
        user := key.user;
      } else {
        user := savedKey.value;
      }
    }

    method Value() returns (value: Value)
      requires Ok() && valid
      ensures Keys()[cur] < |Entries()| && value == Entries()[Keys()[cur]].value
    {
      LivePositions(Entries(), sequence, cur);
      if direction == Forward {
        value := iter.Value();
      } else {
        value := savedValue;
      }
    }

    /** Rests on the first live entry at or above `bound`. */
    method FindNextUserEntry(skip0: bool, ghost bound: nat)
      requires iter.Ok() && direction == Forward && iter.Valid() && bound <= |Entries()|
      requires ScanningForward(Entries(), sequence, bound, iter.cur, skip0, savedKey)
      requires skip0 ==> savedKey.Some?
      modifies this, iter, iter.children
      ensures Ok() && direction == Forward
      ensures cur == CountBelow(Entries(), sequence, bound)
    {
      hide ScanningForward, LiveList, Live, LiveWithin, SplitsAt, Sorted, MergingIterator.Ok, MergingIterator.Merged;
      ghost var es := Entries();
      var skipping := skip0;
      var found := false;
      while iter.Valid() && !found
        invariant iter.Ok() && direction == Forward
        invariant skipping ==> savedKey.Some?
        invariant if found then iter.Valid() && ForwardAt(es, sequence, bound, iter.cur)
                  else ScanningForward(es, sequence, bound, iter.cur, skipping, savedKey)
        decreases |es| - iter.cur, !found
      {
        InnerIs();
        var key := iter.Key();
        ghost var wasSkipping, wasSkip := skipping, savedKey;
        if key.sequence <= sequence {
          match key.kind
          case TypeDeletion =>
            savedKey, skipping := Some(key.user), true;
          case TypeValue =>
            if !(skipping && key.user <= savedKey.value) {
              ForwardFinds(es, sequence, bound, iter.cur, skipping, savedKey);
              found := true;
            }
        }
        if !found {
          ForwardStep(es, sequence, bound, iter.cur, wasSkipping, wasSkip, skipping, savedKey);
          iter.Next();
        }
      }
      InnerIs();
      ghost var wasSaved := savedKey;
      savedKey := None;
      valid := found;
      cur := CountBelow(es, sequence, bound);
      ListSplits(es, sequence, bound);
      ForwardEnds(es, sequence, bound, iter.cur, found, skipping, wasSaved);
      if found {
        FirstFrom(es, sequence, bound, iter.cur, cur);
      } else {
        FirstFrom(es, sequence, bound, |es|, cur);
      }
    }

    /** The key after the current one. */
    method Next()
      requires Ok() && valid
      modifies this, iter, iter.children
      ensures Ok() && direction == Forward
      ensures cur == old(cur) + 1
    {
      hide ScanningForward, LiveList, Live, LiveWithin, SplitsAt, Sorted, BeforeUser, MergingIterator.Ok,
        MergingIterator.Merged;
      InnerIs();
      ghost var es, at := Entries(), Keys()[cur];
      LivePositions(es, sequence, cur);
      LiveInBounds(es, sequence, at);
      if direction == Reverse {
        TurnForward(es, sequence, iter.cur, at);
        NothingBetween(es, sequence, iter.cur, at);
        direction := Forward;
        if !iter.Valid() {
          iter.SeekToFirst();
          InnerIs();
        } else {
          iter.Next();
          InnerIs();
        }
      } else {
        KeepForward(es, sequence, at);
        var key := iter.Key();
        savedKey := Some(key.user);
      }
      ghost var was := cur;
      FindNextUserEntry(true, at + 1);
      SplitIsUnique(es, sequence, at + 1, was + 1);
    }

    /** The end of FindPrevUserEntry: `c` is the last entry it read that the sequence sees. */
    method RestBack(valueType: ValueType, ghost top: nat, ghost c: nat)
      requires iter.Ok() && direction == Reverse && ScanningBack(Entries(), sequence, top, At(), c)
      requires valueType == if c < top then Entries()[c].key.kind else TypeDeletion
      requires valueType.TypeValue? ==> savedKey == Some(Entries()[c].key.user) && savedValue == Entries()[c].value
      requires iter.Valid() ==> valueType.TypeValue? && iter.cur < |Entries()| && Seen(Entries(), sequence, iter.cur)
                                && Entries()[iter.cur].key.user < Entries()[c].key.user
      modifies this
      ensures Ok()
      ensures var n := CountBelow(Entries(), sequence, top); cur == if n > 0 then n - 1 else |Keys()|
    {
      hide LiveList, Live, LiveWithin, SplitsAt, Sorted, BeforeUser, CountBelow, MergingIterator.Ok,
        MergingIterator.Merged;
      ghost var es := Entries();
      InnerIs();
      ghost var count := CountBelow(es, sequence, top);
      ListSplits(es, sequence, top);
      if valueType == TypeDeletion {
        valid, savedKey, savedValue, direction := false, None, [], Forward;
        cur := |Keys()|;
        BackFindsNone(es, sequence, top, c);
        if count > 0 {
          SomeBelow(es, sequence, top);
        }
      } else {
        valid := true;
        BackFinds(es, sequence, top, At(), c, iter.cur);
        LastBelow(es, sequence, top, c, count);
        cur := count - 1;
      }
    }

    /** Rests on the last live entry below `top`, in reverse; not valid, and forward, if there is none. */
    method FindPrevUserEntry(ghost top: nat)
      requires iter.Ok() && direction == Reverse && top <= |Entries()|
      requires top == At() + 1
      modifies this, iter, iter.children
      ensures Ok()
      ensures var c := CountBelow(Entries(), sequence, top); cur == if c > 0 then c - 1 else |Keys()|
    {
      hide LiveList, Live, LiveWithin, SplitsAt, Sorted, BeforeUser, CountBelow, MergingIterator.Ok,
        MergingIterator.Merged;
      InnerIs();
      ghost var es := Entries();
      var valueType := TypeDeletion;
      ghost var c: nat := top;
      BackStarts(es, sequence, top);
      var stop := false;
      while iter.Valid() && !stop
        invariant iter.Ok() && direction == Reverse
        invariant ScanningBack(es, sequence, top, At(), c)
        invariant valueType == if c < top then es[c].key.kind else TypeDeletion
        invariant valueType.TypeValue? ==> savedKey == Some(es[c].key.user) && savedValue == es[c].value
        invariant stop ==> valueType.TypeValue? && iter.Valid() && Seen(es, sequence, iter.cur)
                           && es[iter.cur].key.user < es[c].key.user
        decreases At() + 1, !stop
      {
        var key := iter.Key();
        if key.sequence <= sequence {
          if valueType != TypeDeletion && key.user < savedKey.value {
            stop := true;
          } else {
            BackStep(es, sequence, top, iter.cur, c);
            c := iter.cur;
            valueType := key.kind;
            if valueType == TypeDeletion {
              savedKey, savedValue := None, [];
            } else {
              savedKey := Some(key.user);
              savedValue := iter.Value();
            }
          }
        }
        if !stop {
          iter.Prev();
          InnerIs();
        }
      }
      RestBack(valueType, top, c);
    }

    /** The turn from forward: moves before all entries of the current user key. */
    method StepBefore(ghost at: nat)
      requires iter.Ok() && iter.Valid() && iter.cur == at
      modifies this`savedKey, iter, iter.children
      ensures iter.Ok() && at < |Entries()| && savedKey == Some(Entries()[at].key.user)
      ensures iter.Valid() ==> iter.cur < at && Entries()[iter.cur].key.user < savedKey.value
      ensures forall i :: At() + 1 <= i < at ==> Entries()[i].key.user >= savedKey.value
    {
      hide MergingIterator.Ok, MergingIterator.Merged;
      InnerIs();
      ghost var es := Entries();
      var key := iter.Key();
      savedKey := Some(key.user);
      iter.Prev();
      InnerIs();
      var before := false;
      while iter.Valid() && !before
        invariant iter.Ok() && savedKey == Some(es[at].key.user)
        invariant iter.Valid() ==> iter.cur < at
        invariant before ==> iter.Valid() && es[iter.cur].key.user < savedKey.value
        invariant forall i :: At() + 1 <= i < at ==> es[i].key.user >= savedKey.value
        decreases At() + 1, !before
      {
        key := iter.Key();
        before := key.user < savedKey.value;
        if !before {
          InnerIs();
          iter.Prev();
          InnerIs();
        }
      }
    }

    /** The key before the current one; none before the first. */
    method Prev()
      requires Ok() && valid
      modifies this, iter, iter.children
      ensures Ok()
      ensures cur == if old(cur) > 0 then old(cur) - 1 else |Keys()|
    {
      hide MergingIterator.Ok, MergingIterator.Merged, Live, LiveList, LiveWithin, SplitsAt, Sorted;
      InnerIs();
      ghost var es, at := Entries(), Keys()[cur];
      LivePositions(es, sequence, cur);
      if direction == Forward {
        StepBefore(at);
        NothingPassed(es, sequence, At() + 1, at);
        if !iter.Valid() {
          SplitsSame(es, sequence, 0, at, cur);
          SplitIsUnique(es, sequence, 0, cur);
          valid, savedKey, savedValue := false, None, [];
          cur := |Keys()|;
          return;
        }
        direction := Reverse;
      } else {
        NothingBetween(es, sequence, iter.cur, at);
      }
      InnerIs();
      ghost var top := At() + 1;
      SplitsSame(es, sequence, top, at, cur);
      FindPrevUserEntry(top);
      SplitIsUnique(es, sequence, top, old(cur));
    }

    /** The first live key at or after `target`. */
    method Seek(target: UserKey)
      requires Ok()
      modifies this, iter, iter.children
      ensures Ok()
      ensures forall k :: 0 <= k < |Keys()| ==>
                Keys()[k] < |Entries()| && (k < cur <==> Entries()[Keys()[k]].key.user < target)
    {
      hide MergingIterator.Ok, MergingIterator.Merged, Live, LiveList, LowerBound;
      ghost var es := Entries();
      direction, savedValue := Forward, [];
      var seekKey := SeekKey(target, sequence);
      iter.Seek(seekKey);
      InnerIs();
      ghost var bound := iter.cur;
      savedKey := None;
      StartsAt(es, sequence, target);
      if iter.Valid() {
        FindNextUserEntry(false, bound);
      } else {
        valid := false;
        cur := |Keys()|;
      }
      ListSplits(es, sequence, bound);
      forall k | 0 <= k < |Keys()| ensures Keys()[k] < |es| && (k < cur <==> es[Keys()[k]].key.user < target) {
        LivePositions(es, sequence, k);
        SeekSide(es, sequence, target, Keys()[k]);
      }
    }

    method SeekToFirst()
      requires Ok()
      modifies this, iter, iter.children
      ensures Ok() && cur == 0
    {
      hide MergingIterator.Ok, MergingIterator.Merged, Live, LiveWithin, SplitsAt, Sorted, ScanningForward;
      direction, savedValue := Forward, [];
      iter.SeekToFirst();
      InnerIs();
      StartsAtFront(Entries(), sequence, savedKey);
      if iter.Valid() {
        FindNextUserEntry(false, 0);
        SplitIsUnique(Entries(), sequence, 0, 0);
      } else {
        valid := false;
        cur := 0;
      }
    }

    method SeekToLast()
      requires Ok()
      modifies this, iter, iter.children
      ensures Ok() && cur == if Keys() == [] then 0 else |Keys()| - 1
    {
      ghost var es := Entries();
      direction, savedValue := Reverse, [];
      iter.SeekToLast();
      InnerIs();
      FindPrevUserEntry(|es|);

    }
  }

  /** Bounds with nothing live between them split the list alike. */
  lemma {:induction false} SplitsSame(es: seq<Entry>, snapshot: nat, lo: nat, hi: nat, c: nat)
    requires lo <= hi && !LiveWithin(es, snapshot, lo, hi)
    requires SplitsAt(LiveList(es, snapshot), hi, c)
    ensures SplitsAt(LiveList(es, snapshot), lo, c)
  {
    var l := LiveList(es, snapshot);
    LiveToFacts(es, snapshot, |es|);
    assert forall k :: 0 <= k < c ==> Live(es, snapshot, l[k]);
  }

  /** Entries before a live one whose user keys are not less are hidden by none, and so not live. */
  lemma {:induction false} NothingPassed(es: seq<Entry>, snapshot: nat, lo: nat, i: nat)
    requires Sorted(es) && Live(es, snapshot, i)
    requires forall j :: lo <= j < i ==> es[j].key.user >= es[i].key.user
    ensures !LiveWithin(es, snapshot, lo, i)
  {
    forall j | lo <= j < i ensures !Live(es, snapshot, j) {
      UsersAscend(es, j, i);
    }
  }

  lemma {:induction false} StartsAtFront(es: seq<Entry>, snapshot: nat, skip: Option<UserKey>)
    ensures ScanningForward(es, snapshot, 0, 0, false, skip)
  {
  }

  /** A seek starts a forward scan: nothing before its landing place hides anything after it. */
  lemma {:induction false} StartsAt(es: seq<Entry>, snapshot: nat, target: UserKey)
    requires Sorted(es)
    ensures var p := LowerBound(es, SeekKey(target, snapshot));
            ScanningForward(es, snapshot, p, p, false, None)
  {
    var p := LowerBound(es, SeekKey(target, snapshot));
    forall i, j | 0 <= i < p <= j < |es| && es[i].key.user == es[j].key.user ensures !Seen(es, snapshot, i) {
      assert Less(es[i].key, SeekKey(target, snapshot));
      UsersAscend(es, p, j);
    }
  }

  /** A live entry lies below the landing place of a seek exactly if its user key is below the target. */
  lemma {:induction false} SeekSide(es: seq<Entry>, snapshot: nat, target: UserKey, i: nat)
    requires Sorted(es) && Live(es, snapshot, i)
    ensures i < LowerBound(es, SeekKey(target, snapshot)) <==> es[i].key.user < target
  {
    var p := LowerBound(es, SeekKey(target, snapshot));
    if i >= p {
      UsersAscend(es, p, i);
    }
  }

  /** Walks from the first key to the last. */
  method Collect(it: DBIter) returns (pairs: seq<(UserKey, Value)>)
    requires it.Ok()
    modifies it, it.iter, it.iter.children
    ensures it.Ok() && !it.valid && |pairs| == |it.Keys()|
    ensures forall i :: 0 <= i < |pairs| ==> it.Keys()[i] < |it.Entries()| && pairs[i] == it.PairAt(i)
  {
    hide DBIter.Ok, DBIter.Keys, DBIter.Entries;
    it.SeekToFirst();
    it.ValidIs();
    pairs := [];
    while it.valid
      invariant it.Ok() && |pairs| == it.cur <= |it.Keys()| && (it.valid <==> it.cur < |it.Keys()|)
      invariant forall i :: 0 <= i < |pairs| ==> it.Keys()[i] < |it.Entries()| && pairs[i] == it.PairAt(i)
      decreases |it.Keys()| - it.cur
    {
      var user := it.Key();
      var value := it.Value();
      pairs := pairs + [(user, value)];
      it.Next();
      it.ValidIs();
    }
  }

  /** Stepping on and back returns to the same key and value, whatever the direction was. */
  method NextThenPrev(it: DBIter) returns (user: UserKey, value: Value)
    requires it.Ok() && it.valid && it.cur + 1 < |it.Keys()|
    modifies it, it.iter, it.iter.children
    ensures it.Ok() && it.valid && it.cur == old(it.cur)
    ensures var p := it.Keys()[it.cur];
            p < |it.Entries()| && user == it.Entries()[p].key.user && value == it.Entries()[p].value
  {
    it.Next();
    it.Prev();
    user := it.Key();
    value := it.Value();
  }
}
