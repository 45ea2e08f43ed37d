/** The merge loop of a compaction and its two drop rules (db/db_impl.cc: DoCompactionWork). */
module CompactionWork {
  import opened DbFormat
  import opened Version
  import opened CompactionInputs
  import opened CompactionSetup

  /** Rule (A): the entry just before, of the same user key, is already visible to every snapshot. */
  predicate Hidden(es: seq<Entry>, i: nat, smallestSnapshot: nat)
    requires i < |es|
  {
    i > 0 && es[i - 1].key.user == es[i].key.user && es[i - 1].key.sequence <= smallestSnapshot
  }

  /** A tombstone every snapshot sees, with nothing below it. */
  ghost predicate Obsolete(e: Entry, smallestSnapshot: nat, v: Levels, level: nat) {
    e.key.kind.TypeDeletion? && e.key.sequence <= smallestSnapshot && BaseLevel(v, level, e.key.user)
  }

  ghost predicate Dropped(es: seq<Entry>, i: nat, smallestSnapshot: nat, v: Levels, level: nat)
    requires i < |es|
  {
    Hidden(es, i, smallestSnapshot) || Obsolete(es[i], smallestSnapshot, v, level)
  }

  /** The two drop rules written out. */
  lemma {:induction false} DroppedMeans(es: seq<Entry>, i: nat, smallestSnapshot: nat, v: Levels, level: nat)
    requires i < |es| && |v| == 7
    ensures Dropped(es, i, smallestSnapshot, v, level) <==>
              (i > 0 && es[i - 1].key.user == es[i].key.user && es[i - 1].key.sequence <= smallestSnapshot)
              || (es[i].key.kind == TypeDeletion && es[i].key.sequence <= smallestSnapshot
                  && forall l, f :: level + 2 <= l < 7 && f in v[l] ==>
                       !(f.smallest.user <= es[i].key.user <= f.largest.user))
  {
    var user := es[i].key.user;
    if BaseLevel(v, level, user) {
      forall l, f | level + 2 <= l < 7 && f in v[l] ensures !(f.smallest.user <= user <= f.largest.user) {
        assert !Covers(f, user);
      }
    }
    if forall l, f :: level + 2 <= l < 7 && f in v[l] ==> !(f.smallest.user <= user <= f.largest.user) {
      assert BaseLevel(v, level, user);
    }
  }

  /** The entries among the first `n` that survive. */
  ghost function KeptTo(es: seq<Entry>, n: nat, smallestSnapshot: nat, v: Levels, level: nat): seq<Entry>
    requires n <= |es|
  {
    if n == 0 then []
    else if Dropped(es, n - 1, smallestSnapshot, v, level) then KeptTo(es, n - 1, smallestSnapshot, v, level)
    else KeptTo(es, n - 1, smallestSnapshot, v, level) + [es[n - 1]]
  }

  /** The entries among the first `n` that the loop writes. */
  ghost function WrittenTo(es: seq<Entry>, n: nat, smallestSnapshot: nat, v: Levels, level: nat): seq<Entry>
    requires n <= |es|
  {
    if smallestSnapshot >= MAX_SEQUENCE then [] else KeptTo(es, n, smallestSnapshot, v, level)
  }

  function ConcatTo(fs: seq<File>, n: nat): seq<Entry>
    requires n <= |fs|
  {
    if n == 0 then [] else ConcatTo(fs, n - 1) + fs[n - 1].entries
  }

  lemma {:induction false} ConcatExtends(fs: seq<File>, f: File, n: nat)
    requires n <= |fs|
    ensures ConcatTo(fs + [f], n) == ConcatTo(fs, n)
  {
    if n > 0 {
      ConcatExtends(fs, f, n - 1);
    }
  }

  ghost predicate Bounded(es: seq<Entry>) {
    forall i :: 0 <= i < |es| ==> es[i].key.sequence <= MAX_SEQUENCE
  }

  /** Finished tables, the entries of the open one, its number, and the next number to hand out. */
  datatype CompactionState = CompactionState(outputs: seq<File>, builder: seq<Entry>, number: nat, nextNumber: nat)

  /** The state has written exactly `kept`, in tables numbered from `first`. */
  ghost predicate Wrote(st: CompactionState, first: nat, kept: seq<Entry>) {
    && FilesOk(st.outputs)
    && st.nextNumber == first + |st.outputs| + (if st.builder == [] then 0 else 1)
    && (st.builder != [] ==> st.number == first + |st.outputs|)
    && (forall k :: 0 <= k < |st.outputs| ==> st.outputs[k].number == first + k)
    && ConcatTo(st.outputs, |st.outputs|) + st.builder == kept
  }

  /** FinishCompactionOutputFile: the entries collected so far become the next table. */
  method FinishCompactionOutputFile(st: CompactionState, tableSize: seq<Entry> -> nat,
                                    ghost first: nat, ghost kept: seq<Entry>) returns (r: CompactionState)
    requires Wrote(st, first, kept) && Sorted(kept) && Bounded(kept) && st.builder != []
    ensures Wrote(r, first, kept) && r.builder == []
  {
    TailSorted(ConcatTo(st.outputs, |st.outputs|), st.builder);
    var f := File(st.number, tableSize(st.builder), st.builder[0].key, st.builder[|st.builder| - 1].key, st.builder);
    ConcatExtends(st.outputs, f, |st.outputs|);
    r := st.(outputs := st.outputs + [f], builder := []);
  }

  /** One surviving entry: opens a table if none is open, closes it when it is full. */
  method AddEntry(st: CompactionState, e: Entry, full: seq<Entry> -> bool, tableSize: seq<Entry> -> nat,
                  ghost first: nat, ghost kept: seq<Entry>) returns (r: CompactionState)
    requires Wrote(st, first, kept) && Sorted(kept + [e]) && Bounded(kept + [e])
    ensures Wrote(r, first, kept + [e])
  {
    r := st;
    if r.builder == [] {
      r := r.(number := r.nextNumber, nextNumber := r.nextNumber + 1);
    }
    r := r.(builder := r.builder + [e]);
    assert ConcatTo(r.outputs, |r.outputs|) + r.builder == kept + [e];
    if full(r.builder) {
      r := FinishCompactionOutputFile(r, tableSize, first, kept + [e]);
    }
  }

  /** The two variables that carry the previous entry from one round of the loop to the next. */
  datatype LastKey = LastKey(user: Option<UserKey>, sequence: nat)

  ghost predicate Follows(last: LastKey, es: seq<Entry>, i: nat)
    requires i <= |es|
  {
    last.user == (if i == 0 then None else Some(es[i - 1].key.user))
    && (i > 0 ==> last.sequence == es[i - 1].key.sequence)
  }

  /** Decides whether the loop drops entry `i`. A smallest snapshot of MAX_SEQUENCE would look newer than an entry not yet
      seen, and drop them all. */
  method DropEntry(es: seq<Entry>, i: nat, last: LastKey, compaction: Compaction, smallestSnapshot: nat)
    returns (drop: bool, next: LastKey)
    requires i < |es| && Follows(last, es, i) && Bounded(es)
    requires compaction.Valid() && LevelOrder(compaction.version)
    requires compaction.asked.Some? ==> compaction.asked.value <= es[i].key.user
    modifies compaction`asked, compaction.levelPtrs
    ensures compaction.Valid()
    ensures compaction.asked == old(compaction.asked) || compaction.asked == Some(es[i].key.user)
    ensures Follows(next, es, i + 1)
    ensures drop <==>
            smallestSnapshot >= MAX_SEQUENCE || Dropped(es, i, smallestSnapshot, compaction.version, compaction.level)
  {
    var ikey := es[i].key;
    drop, next := false, last;
    if next.user.None? || ikey.user != next.user.value {
      next := LastKey(Some(ikey.user), MAX_SEQUENCE);
    }
    if next.sequence <= smallestSnapshot {
      drop := true;
    } else if ikey.kind.TypeDeletion? && ikey.sequence <= smallestSnapshot {
      drop := compaction.IsBaseLevelForKey(ikey.user);
    }
    next := next.(sequence := ikey.sequence);
  }

  /** The survivors in order, cut into tables. `stop(i)` and `full(es)` say where ShouldStopBefore
      and the size limit cut; both only choose the borders between tables. */
  method DoCompactionWork(es: seq<Entry>, compaction: Compaction, smallestSnapshot: nat, nextFileNumber: nat,
                          stop: nat -> bool, full: seq<Entry> -> bool, tableSize: seq<Entry> -> nat)
    returns (outputs: seq<File>, nextNumber: nat)
    requires Sorted(es) && Bounded(es)
    requires compaction.Valid() && compaction.asked.None? && LevelOrder(compaction.version)
    modifies compaction`asked, compaction.levelPtrs
    ensures FilesOk(outputs)
    ensures ConcatTo(outputs, |outputs|) ==
            WrittenTo(es, |es|, smallestSnapshot, compaction.version, compaction.level)
    ensures nextNumber == nextFileNumber + |outputs|
    ensures forall i :: 0 <= i < |outputs| ==> outputs[i].number == nextFileNumber + i
  {
    hide LevelOrder, Wrote, Dropped, BaseLevel, WrittenTo, Bounded, Sorted;
    NoneWritten(es, smallestSnapshot, compaction.version, compaction.level);
    ghost var v, level := compaction.version, compaction.level;
    var st := CompactionState([], [], 0, nextFileNumber);
    NothingWritten(nextFileNumber);
    var last := LastKey(None, MAX_SEQUENCE);
    for i := 0 to |es|
      invariant compaction.Valid() && Follows(last, es, i)
      invariant compaction.asked.Some? ==> i > 0 && compaction.asked.value <= es[i - 1].key.user
      invariant Wrote(st, nextFileNumber, WrittenTo(es, i, smallestSnapshot, v, level))
    {
      ghost var kept := WrittenTo(es, i, smallestSnapshot, v, level);
      WrittenSorted(es, i, smallestSnapshot, v, level);
      WrittenSorted(es, i + 1, smallestSnapshot, v, level);
      WrittenNext(es, i, smallestSnapshot, v, level);
      Ascending(es, i);
      if stop(i) && st.builder != [] {
        st := FinishCompactionOutputFile(st, tableSize, nextFileNumber, kept);
      }
      var drop;
      drop, last := DropEntry(es, i, last, compaction, smallestSnapshot);
      if !drop {
        st := AddEntry(st, es[i], full, tableSize, nextFileNumber, kept);
      }
    }
    if st.builder != [] {
      WrittenSorted(es, |es|, smallestSnapshot, v, level);
      st := FinishCompactionOutputFile(st, tableSize, nextFileNumber, WrittenTo(es, |es|, smallestSnapshot, v, level));
    }
    AllWritten(st, nextFileNumber, WrittenTo(es, |es|, smallestSnapshot, v, level));
    outputs, nextNumber := st.outputs, st.nextNumber;
  }

  lemma {:induction false} NoneWritten(es: seq<Entry>, smallestSnapshot: nat, v: Levels, level: nat)
    ensures WrittenTo(es, 0, smallestSnapshot, v, level) == []
  {
  }

  lemma {:induction false} WrittenNext(es: seq<Entry>, i: nat, smallestSnapshot: nat, v: Levels, level: nat)
    requires i < |es|
    ensures var kept := WrittenTo(es, i, smallestSnapshot, v, level);
            WrittenTo(es, i + 1, smallestSnapshot, v, level)
            == if smallestSnapshot >= MAX_SEQUENCE || Dropped(es, i, smallestSnapshot, v, level) then kept
               else kept + [es[i]]
  {
    hide Dropped;
  }

  lemma {:induction false} Ascending(es: seq<Entry>, i: nat)
    requires Sorted(es) && i < |es|
    ensures i > 0 ==> Less(es[i - 1].key, es[i].key)
  {
  }

  lemma {:induction false} NothingWritten(first: nat)
    ensures Wrote(CompactionState([], [], 0, first), first, [])
  {
  }

  lemma {:induction false} AllWritten(st: CompactionState, first: nat, kept: seq<Entry>)
    requires Wrote(st, first, kept) && st.builder == []
    ensures FilesOk(st.outputs) && ConcatTo(st.outputs, |st.outputs|) == kept
    ensures st.nextNumber == first + |st.outputs|
    ensures forall i :: 0 <= i < |st.outputs| ==> st.outputs[i].number == first + i
  {
    assert ConcatTo(st.outputs, |st.outputs|) + [] == ConcatTo(st.outputs, |st.outputs|);
  }

  lemma {:induction false} TailSorted(a: seq<Entry>, b: seq<Entry>)
    requires Sorted(a + b) && Bounded(a + b)
    ensures Sorted(b) && Bounded(b)
  {
    forall i, j | 0 <= i < j < |b| ensures Less(b[i].key, b[j].key) {
      assert (a + b)[|a| + i] == b[i] && (a + b)[|a| + j] == b[j];
    }
    forall i | 0 <= i < |b| ensures b[i].key.sequence <= MAX_SEQUENCE {
      assert (a + b)[|a| + i] == b[i];
    }
  }

  lemma {:induction false} KeptPrefixSorted(es: seq<Entry>, n: nat, smallestSnapshot: nat, v: Levels, level: nat)
    requires n <= |es| && Sorted(es) && Bounded(es)
    ensures var kept := KeptTo(es, n, smallestSnapshot, v, level);
            Sorted(kept) && Bounded(kept)
            && forall i :: 0 <= i < |kept| ==> exists k :: 0 <= k < n && es[k] == kept[i]
  {
    if n > 0 {
      KeptPrefixSorted(es, n - 1, smallestSnapshot, v, level);
    }
  }

  lemma {:induction false} WrittenSorted(es: seq<Entry>, n: nat, smallestSnapshot: nat, v: Levels, level: nat)
    requires n <= |es| && Sorted(es) && Bounded(es)
    ensures var kept := WrittenTo(es, n, smallestSnapshot, v, level);
            Sorted(kept) && Bounded(kept)
  {
    KeptPrefixSorted(es, n, smallestSnapshot, v, level);
  }

  lemma {:induction false} KeptMembers(es: seq<Entry>, n: nat, smallestSnapshot: nat, v: Levels, level: nat, e: Entry)
    requires n <= |es|
    ensures e in KeptTo(es, n, smallestSnapshot, v, level) <==>
            exists k :: 0 <= k < n && es[k] == e && !Dropped(es, k, smallestSnapshot, v, level)
  {
    if n > 0 {
      KeptMembers(es, n - 1, smallestSnapshot, v, level, e);
    }
  }
}
