/** Internal keys, their order, and what a read at a snapshot means
    (db/dbformat.h, db/dbformat.cc).

    A user key is represented by its rank under the database's comparator.
    The comparator is a total order on byte strings; there are countably many
    byte strings, and every countable total order embeds in the rationals, so
    `real` ranks stand for an arbitrary comparator.
 */
module DbFormat {
  type UserKey = real
  type Value = string

  const NUM_LEVELS: nat := 7
  const MAX_SEQUENCE: nat := 0xFF_FFFF_FFFF_FFFF

  datatype ValueType = TypeDeletion | TypeValue

  datatype InternalKey = InternalKey(user: UserKey, sequence: nat, kind: ValueType)

  datatype Entry = Entry(key: InternalKey, value: Value)

  datatype Option<+T> = None | Some(value: T)

  /** The 64-bit trailer of an internal key: sequence in the upper bits, type in the low eight. */
  function Tag(k: InternalKey): nat {
    k.sequence * 256 + if k.kind.TypeValue? then 1 else 0
  }

  /** Increasing user key, then decreasing tag. */
  predicate Less(a: InternalKey, b: InternalKey) {
    a.user < b.user || (a.user == b.user && Tag(a) > Tag(b))
  }

  /** The three-way comparison of InternalKeyComparator. */
  function Compare(a: InternalKey, b: InternalKey): (r: int)
    ensures r < 0 <==> Less(a, b)
    ensures r > 0 <==> Less(b, a)
    ensures r == 0 <==> a == b
  {
    if a.user < b.user then -1
    else if a.user > b.user then 1
    else if Tag(a) > Tag(b) then -1
    else if Tag(a) < Tag(b) then 1
    else 0
  }

  /** The internal key that LookupKey and DBIter::Seek build to find `user` at `snapshot`. */
  function SeekKey(user: UserKey, snapshot: nat): InternalKey {
    InternalKey(user, snapshot, TypeValue)
  }

  /** `e` belongs to `user` and is not newer than `snapshot`. */
  predicate Visible(e: Entry, user: UserKey, snapshot: nat) {
    e.key.user == user && e.key.sequence <= snapshot
  }

  ghost predicate Sorted(es: seq<Entry>) {
    forall i, j :: 0 <= i < j < |es| ==> Less(es[i].key, es[j].key)
  }

  /** Index of the first entry whose key is not below `k`. */
  function LowerBound(es: seq<Entry>, k: InternalKey): (r: nat)
    ensures r <= |es|
    ensures forall i :: 0 <= i < r ==> Less(es[i].key, k)
    ensures r < |es| ==> !Less(es[r].key, k)
  {
    if es == [] || !Less(es[0].key, k) then 0
    else 1 + LowerBound(es[1..], k)
  }

  /** A bound is where the keys change sides. */
  lemma {:induction false} LowerBoundIs(es: seq<Entry>, k: InternalKey, p: nat)
    requires p <= |es| && (forall j :: 0 <= j < p ==> Less(es[j].key, k))
    requires p < |es| ==> !Less(es[p].key, k)
    ensures LowerBound(es, k) == p
  {
    var q := LowerBound(es, k);
    assert forall j :: 0 <= j < q ==> Less(es[j].key, k);
    assert q < |es| ==> !Less(es[q].key, k);
  }

  /** MemTable::Get, and Table::InternalGet with SaveValue: the entry a seek to (user, snapshot) lands on, if it is of
      this user key. */
  function Sought(es: seq<Entry>, user: UserKey, snapshot: nat): Option<Entry> {
    var p := LowerBound(es, SeekKey(user, snapshot));
    if p < |es| && es[p].key.user == user then Some(es[p]) else None
  }

  // ----- what a read means -------------------------------------------------

  /** `e` is the newest entry of `user` in `db` that a reader at `snapshot` may see. */
  ghost predicate Newest(db: set<Entry>, user: UserKey, snapshot: nat, e: Entry) {
    && e in db && Visible(e, user, snapshot)
    && forall x :: x in db && Visible(x, user, snapshot) ==> x.key.sequence <= e.key.sequence
  }

  ghost predicate NothingVisible(db: set<Entry>, user: UserKey, snapshot: nat) {
    forall x :: x in db ==> !Visible(x, user, snapshot)
  }

  /** No two entries of one user key share a sequence number. */
  ghost predicate UniqueSequences(db: set<Entry>) {
    forall x, y :: x in db && y in db && x.key.user == y.key.user && x.key.sequence == y.key.sequence
                   ==> x == y
  }

  function Contents(e: Entry): Option<Value> {
    if e.key.kind.TypeDeletion? then None else Some(e.value)
  }

  /** The value a reader at `snapshot` must get for `user` out of the entries `db`. */
  ghost function Read(db: set<Entry>, user: UserKey, snapshot: nat): Option<Value> {
    if exists e :: Newest(db, user, snapshot, e) then
      var e :| Newest(db, user, snapshot, e);
      Contents(e)
    else None
  }

  /** `found` is what a search for `user` at `snapshot` has to produce. */
  ghost predicate Answers(db: set<Entry>, user: UserKey, snapshot: nat, found: Option<Entry>) {
    match found
    case Some(e) => Newest(db, user, snapshot, e)
    case None => NothingVisible(db, user, snapshot)
  }

  function Outcome(found: Option<Entry>): Option<Value> {
    if found.None? then None else Contents(found.value)
  }

  lemma {:induction false} NewestExists(db: set<Entry>, user: UserKey, snapshot: nat)
    requires !NothingVisible(db, user, snapshot)
    ensures exists e :: Newest(db, user, snapshot, e)
  {
    var x :| x in db && Visible(x, user, snapshot);
    var rest := db - {x};
    if NothingVisible(rest, user, snapshot) {
      assert Newest(db, user, snapshot, x);
    } else {
      NewestExists(rest, user, snapshot);
      var y :| Newest(rest, user, snapshot, y);
      if x.key.sequence <= y.key.sequence {
        assert Newest(db, user, snapshot, y);
      } else {
        assert Newest(db, user, snapshot, x);
      }
    }
  }

  lemma {:induction false} NewestIsUnique(db: set<Entry>, user: UserKey, snapshot: nat, a: Entry, b: Entry)
    requires UniqueSequences(db)
    requires Newest(db, user, snapshot, a) && Newest(db, user, snapshot, b)
    ensures a == b
  {
    assert Visible(a, user, snapshot) && Visible(b, user, snapshot);
    assert a.key.sequence == b.key.sequence;
  }

  /** A search that answers correctly yields exactly the value that Read demands. */
  lemma {:induction false} AnswerIsRead(db: set<Entry>, user: UserKey, snapshot: nat, found: Option<Entry>)
    requires UniqueSequences(db)
    requires Answers(db, user, snapshot, found)
    ensures Read(db, user, snapshot) == Outcome(found)
  {
    if found.Some? {
      assert Newest(db, user, snapshot, found.value);
      var e :| Newest(db, user, snapshot, e) && Read(db, user, snapshot) == Contents(e);
      NewestIsUnique(db, user, snapshot, e, found.value);
    }
  }

  /** Every read has an answer. */
  lemma {:induction false} ReadHasAnswer(db: set<Entry>, user: UserKey, snapshot: nat) returns (found: Option<Entry>)
    ensures Answers(db, user, snapshot, found)
  {
    if NothingVisible(db, user, snapshot) {
      found := None;
    } else {
      NewestExists(db, user, snapshot);
      var e :| Newest(db, user, snapshot, e);
      found := Some(e);
    }
  }

  /** In a sorted run, the entry a seek lands on is the newest visible one, or there is none. */
  lemma {:induction false} SeekFindsNewest(es: seq<Entry>, user: UserKey, snapshot: nat)
    requires Sorted(es)
    ensures Answers((set e | e in es), user, snapshot, Sought(es, user, snapshot))
  {
    var p := LowerBound(es, SeekKey(user, snapshot));
    forall x | x in es && Visible(x, user, snapshot)
      ensures p < |es| && es[p].key.user == user && x.key.sequence <= es[p].key.sequence
    {
      var i :| 0 <= i < |es| && es[i] == x;
      assert i >= p;
      assert i == p || Less(es[p].key, es[i].key);
    }
  }
}
