/** When a compaction leaves every read unchanged (db/db_impl.cc:938-963), and when it does not. */
module CompactionReads {
  import opened DbFormat
  import opened Version
  import opened CompactionInputs
  import opened CompactionSetup
  import opened CompactionWork

  /** For every user key, each entry of `a` is newer than each entry of `b`. */
  ghost predicate AllNewer(a: set<Entry>, b: set<Entry>) {
    forall e, x :: e in a && x in b && e.key.user == x.key.user ==> e.key.sequence > x.key.sequence
  }

  /** The database split around a compaction: what is newer than its inputs, the inputs, what
      stays behind at the output level, and what lies deeper. */
  datatype Parts = Parts(newer: set<Entry>, inputs: set<Entry>, left: set<Entry>, deeper: set<Entry>)
  {
    ghost function All(): set<Entry> {
      newer + inputs + left + deeper
    }
  }

  ghost predicate PartsOk(p: Parts, v: Levels, level: nat) {
    && UniqueSequences(p.All())
    && AllNewer(p.newer, p.inputs)
    && p.inputs !! p.left
    && forall x :: x in p.deeper ==> !BaseLevel(v, level, x.key.user)
  }

  /** `es` is the sorted merge of the inputs. */
  ghost predicate IsMerge(es: seq<Entry>, inputs: set<Entry>) {
    Sorted(es) && forall e :: e in es <==> e in inputs
  }

  ghost function KeptSet(es: seq<Entry>, smallestSnapshot: nat, v: Levels, level: nat): set<Entry> {
    set e | e in KeptTo(es, |es|, smallestSnapshot, v, level)
  }

  ghost function After(p: Parts, es: seq<Entry>, smallestSnapshot: nat, v: Levels, level: nat): set<Entry> {
    p.newer + KeptSet(es, smallestSnapshot, v, level) + p.left + p.deeper
  }

  /** `x` is the newest left-behind entry under `e`. */
  ghost predicate NextOlder(left: set<Entry>, e: Entry, x: Entry) {
    && x in left && x.key.user == e.key.user && x.key.sequence < e.key.sequence
    && forall y :: y in left && y.key.user == e.key.user && y.key.sequence < e.key.sequence
                   ==> y.key.sequence <= x.key.sequence
  }

  /** The tombstone `e` is what readers at the oldest snapshot see; it is dropped, and the value
      `x` it covered stays. */
  ghost predicate Uncovers(p: Parts, smallestSnapshot: nat, v: Levels, level: nat, e: Entry, x: Entry) {
    && e in p.inputs && Obsolete(e, smallestSnapshot, v, level)
    && Newest(p.All(), e.key.user, smallestSnapshot, e)
    && NextOlder(p.left, e, x) && x.key.kind.TypeValue?
  }

  ghost predicate Leaks(p: Parts, smallestSnapshot: nat, v: Levels, level: nat) {
    exists e, x :: Uncovers(p, smallestSnapshot, v, level, e, x)
  }

  lemma {:induction false} KeptSetMembers(es: seq<Entry>, smallestSnapshot: nat, v: Levels, level: nat, e: Entry)
    ensures e in KeptSet(es, smallestSnapshot, v, level) <==>
            exists k :: 0 <= k < |es| && es[k] == e && !Dropped(es, k, smallestSnapshot, v, level)
  {
    KeptMembers(es, |es|, smallestSnapshot, v, level, e);
  }

  lemma {:induction false} SortedIndex(es: seq<Entry>, i: nat, k: nat)
    requires Sorted(es) && i < |es| && k < |es| && Less(es[i].key, es[k].key)
    ensures i < k
  {
  }

  /** Nothing older than an entry that every snapshot sees survives beside it. */
  lemma {:induction false} OlderInputsAreDropped(es: seq<Entry>, smallestSnapshot: nat, v: Levels, level: nat,
                                                 e: Entry, x: Entry)
    requires Sorted(es) && e in es && x in es && e.key.user == x.key.user
    requires x.key.sequence < e.key.sequence <= smallestSnapshot
    ensures x !in KeptSet(es, smallestSnapshot, v, level)
  {
    KeptSetMembers(es, smallestSnapshot, v, level, x);
    var i :| 0 <= i < |es| && es[i] == e;
    forall k | 0 <= k < |es| && es[k] == x ensures Hidden(es, k, smallestSnapshot) {
      SortedIndex(es, i, k);
      assert i == k - 1 || Less(es[i].key, es[k - 1].key);
      assert Less(es[k - 1].key, es[k].key);
    }
  }

  /** The newest visible input is never hidden by rule (A). */
  lemma {:induction false} NewestInputSurvives(p: Parts, es: seq<Entry>, smallestSnapshot: nat, v: Levels, level: nat,
                            user: UserKey, snapshot: nat, e: Entry)
    requires UniqueSequences(p.All()) && IsMerge(es, p.inputs) && smallestSnapshot <= snapshot
    requires Newest(p.All(), user, snapshot, e) && e in p.inputs
    requires !Obsolete(e, smallestSnapshot, v, level)
    ensures e in KeptSet(es, smallestSnapshot, v, level)
  {
    KeptSetMembers(es, smallestSnapshot, v, level, e);
    var k :| 0 <= k < |es| && es[k] == e;
    if Hidden(es, k, smallestSnapshot) {
      var prev := es[k - 1];
      assert Less(prev.key, e.key);
      assert prev in es;
      assert prev in p.All() && Visible(prev, user, snapshot);
    }
  }

  lemma {:induction false} SubsetUnique(a: set<Entry>, b: set<Entry>)
    requires UniqueSequences(b) && a <= b
    ensures UniqueSequences(a)
  {
  }

  lemma {:induction false} AfterIsSubset(p: Parts, es: seq<Entry>, smallestSnapshot: nat, v: Levels, level: nat)
    requires IsMerge(es, p.inputs)
    ensures After(p, es, smallestSnapshot, v, level) <= p.All()
  {
    forall e | e in KeptSet(es, smallestSnapshot, v, level) ensures e in p.inputs {
      KeptSetMembers(es, smallestSnapshot, v, level, e);
    }
  }

  /** What a reader sees once the newest entry `e`, an obsolete tombstone, is gone. */
  lemma {:induction false} UnderTheTombstone(p: Parts, es: seq<Entry>, smallestSnapshot: nat, v: Levels, level: nat,
                          user: UserKey, snapshot: nat, e: Entry, y: Entry)
    requires PartsOk(p, v, level) && IsMerge(es, p.inputs) && smallestSnapshot <= snapshot
    requires Newest(p.All(), user, snapshot, e) && e in p.inputs && Obsolete(e, smallestSnapshot, v, level)
    requires y in After(p, es, smallestSnapshot, v, level) && Visible(y, user, snapshot)
    ensures y in p.left && y.key.sequence < e.key.sequence
  {
    AfterIsSubset(p, es, smallestSnapshot, v, level);
    assert y.key.sequence <= e.key.sequence;
    KeptSetMembers(es, smallestSnapshot, v, level, e);
    assert e !in KeptSet(es, smallestSnapshot, v, level) by {
      forall k | 0 <= k < |es| && es[k] == e ensures Dropped(es, k, smallestSnapshot, v, level) {
      }
    }
    if y in KeptSet(es, smallestSnapshot, v, level) {
      KeptSetMembers(es, smallestSnapshot, v, level, y);
      assert y in es && y != e;
      OlderInputsAreDropped(es, smallestSnapshot, v, level, e, y);
    }
  }

  /** Every read at or above the oldest snapshot is unchanged, unless a dropped tombstone
      uncovers a value left behind at the output level. */
  lemma {:induction false} CompactionKeepsRead(p: Parts, es: seq<Entry>, smallestSnapshot: nat, v: Levels, level: nat,
                            user: UserKey, snapshot: nat)
    requires PartsOk(p, v, level) && IsMerge(es, p.inputs) && smallestSnapshot <= snapshot
    requires !Leaks(p, smallestSnapshot, v, level)
    ensures Read(After(p, es, smallestSnapshot, v, level), user, snapshot) == Read(p.All(), user, snapshot)
  {
    var after := After(p, es, smallestSnapshot, v, level);
    AfterIsSubset(p, es, smallestSnapshot, v, level);
    SubsetUnique(after, p.All());
    var found := ReadHasAnswer(p.All(), user, snapshot);
    AnswerIsRead(p.All(), user, snapshot, found);
    if found.None? {
      AnswerIsRead(after, user, snapshot, None);
    } else {
      var e := found.value;
      if e in p.inputs && Obsolete(e, smallestSnapshot, v, level) {
        TombstoneStaysDead(p, es, smallestSnapshot, v, level, user, snapshot, e);
      } else {
        if e in p.inputs {
          NewestInputSurvives(p, es, smallestSnapshot, v, level, user, snapshot, e);
        }
        assert Newest(after, user, snapshot, e);
        AnswerIsRead(after, user, snapshot, found);
      }
    }
  }

  lemma {:induction false} TombstoneStaysDead(p: Parts, es: seq<Entry>, smallestSnapshot: nat, v: Levels, level: nat,
                           user: UserKey, snapshot: nat, e: Entry)
    requires PartsOk(p, v, level) && IsMerge(es, p.inputs) && smallestSnapshot <= snapshot
    requires !Leaks(p, smallestSnapshot, v, level)
    requires Newest(p.All(), user, snapshot, e) && e in p.inputs && Obsolete(e, smallestSnapshot, v, level)
    ensures Read(After(p, es, smallestSnapshot, v, level), user, snapshot) == None
  {
    var after := After(p, es, smallestSnapshot, v, level);
    AfterIsSubset(p, es, smallestSnapshot, v, level);
    SubsetUnique(after, p.All());
    var found := ReadHasAnswer(after, user, snapshot);
    AnswerIsRead(after, user, snapshot, found);
    if found.Some? {
      var x := found.value;
      UnderTheTombstone(p, es, smallestSnapshot, v, level, user, snapshot, e, x);
      assert Newest(p.All(), user, smallestSnapshot, e);
      forall y | y in p.left && y.key.user == user && y.key.sequence < e.key.sequence
        ensures y.key.sequence <= x.key.sequence
      {
        assert y in after && Visible(y, user, snapshot);
      }
      assert NextOlder(p.left, e, x);
      assert !Uncovers(p, smallestSnapshot, v, level, e, x);
    }
  }

  /** A leak changes what the oldest snapshot reads: a deleted key comes back. */
  lemma {:induction false} LeakResurrects(p: Parts, es: seq<Entry>, smallestSnapshot: nat, v: Levels, level: nat,
                                          e: Entry, x: Entry)
    requires PartsOk(p, v, level) && IsMerge(es, p.inputs)
    requires Uncovers(p, smallestSnapshot, v, level, e, x)
    ensures Read(p.All(), e.key.user, smallestSnapshot) == None
    ensures Read(After(p, es, smallestSnapshot, v, level), e.key.user, smallestSnapshot) == Some(x.value)
  {
    var after := After(p, es, smallestSnapshot, v, level);
    var user := e.key.user;
    AnswerIsRead(p.All(), user, smallestSnapshot, Some(e));
    AfterIsSubset(p, es, smallestSnapshot, v, level);
    SubsetUnique(after, p.All());
    forall y | y in after && Visible(y, user, smallestSnapshot) ensures y.key.sequence <= x.key.sequence {
      UnderTheTombstone(p, es, smallestSnapshot, v, level, user, smallestSnapshot, e, y);
    }
    assert Newest(after, user, smallestSnapshot, x);
    AnswerIsRead(after, user, smallestSnapshot, Some(x));
  }

  ghost predicate ReadsAgree(a: set<Entry>, b: set<Entry>, smallestSnapshot: nat) {
    forall user, snapshot: nat :: smallestSnapshot <= snapshot ==> Read(a, user, snapshot) == Read(b, user, snapshot)
  }

  /** A compaction preserves every read that a live snapshot can make exactly when it does not leak. */
  lemma {:induction false} CompactionPreservesReadsIff(p: Parts, es: seq<Entry>, smallestSnapshot: nat, v: Levels,
      level: nat)
    requires PartsOk(p, v, level) && IsMerge(es, p.inputs)
    ensures ReadsAgree(After(p, es, smallestSnapshot, v, level), p.All(), smallestSnapshot) <==>
            !Leaks(p, smallestSnapshot, v, level)
  {
    if Leaks(p, smallestSnapshot, v, level) {
      var e, x :| Uncovers(p, smallestSnapshot, v, level, e, x);
      LeakResurrects(p, es, smallestSnapshot, v, level, e, x);
    } else {
      forall user, snapshot: nat | smallestSnapshot <= snapshot
        ensures Read(After(p, es, smallestSnapshot, v, level), user, snapshot) == Read(p.All(), user, snapshot)
      {
        CompactionKeepsRead(p, es, smallestSnapshot, v, level, user, snapshot);
      }
    }
  }
}
