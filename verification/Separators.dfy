/** The bytewise comparator and the keys it puts between blocks (util/comparator.cc, db/dbformat.cc). */
module Separators {
  import opened DbFormat
  import opened Coding

  // ----- byte strings in order ---------------------------------------------

  predicate Lex(a: Bytes, b: Bytes) {
    if b == [] then false
    else if a == [] then true
    else a[0] < b[0] || (a[0] == b[0] && Lex(a[1..], b[1..]))
  }

  /** Strings that first differ at position `d` are ordered by that byte. */
  lemma {:induction false} LexAt(a: Bytes, b: Bytes, d: nat)
    requires d < |a| && d < |b| && a[..d] == b[..d] && a[d] < b[d]
    ensures Lex(a, b)
    decreases d
  {
    if d > 0 {
      assert a[0] == a[..d][0] && b[0] == b[..d][0];
      assert a[1..][..d - 1] == a[..d][1..] && b[1..][..d - 1] == b[..d][1..];
      LexAt(a[1..], b[1..], d - 1);
    }
  }

  lemma {:induction false} LexTransitive(a: Bytes, b: Bytes, c: Bytes)
    requires Lex(a, b) && Lex(b, c)
    ensures Lex(a, c)
    decreases |a|
  {
    if a != [] && a[0] == b[0] && b[0] == c[0] {
      LexTransitive(a[1..], b[1..], c[1..]);
    }
  }

  lemma {:induction false} LexTotal(a: Bytes, b: Bytes)
    ensures Lex(a, b) || a == b || Lex(b, a)
    ensures !(Lex(a, b) && Lex(b, a))
    ensures a == b ==> !Lex(a, b)
    decreases |a|
  {
    if a != [] && b != [] {
      LexTotal(a[1..], b[1..]);
      assert a == [a[0]] + a[1..] && b == [b[0]] + b[1..];
    }
  }

  /** The strings first differ at byte `d`. */
  predicate Differ(a: Bytes, b: Bytes, d: nat) {
    d < |a| && d < |b| && a[..d] == b[..d] && a[d] != b[d]
  }

  /** The separator of two strings: if at the byte where they first differ there is room for one more value in between,
      the first string up to there and that byte plus one; else the first string itself. */
  ghost predicate ShortSeparator(start: Bytes, limit: Bytes, r: Bytes) {
    && (forall d: nat :: Differ(start, limit, d) ==>
          r == if start[d] as int + 1 < limit[d] then start[..d] + [start[d] + 1] else start)
    && ((forall d: nat :: !Differ(start, limit, d)) ==> r == start)
  }

  /** The successor of a string: up to the first byte that is not 0xff, and that byte plus one; the string itself if all
      are. */
  ghost predicate ShortSuccessor(key: Bytes, r: Bytes) {
    && (forall i :: 0 <= i < |key| && key[i] != 0xff && (forall k :: 0 <= k < i ==> key[k] == 0xff) ==>
          r == key[..i] + [key[i] + 1])
    && ((forall i :: 0 <= i < |key| ==> key[i] == 0xff) ==> r == key)
  }

  /** BytewiseComparator::FindShortestSeparator: either unchanged, or strictly between. */
  method FindShortestSeparator(start: Bytes, limit: Bytes) returns (r: Bytes)
    ensures r == start || (Lex(start, r) && Lex(r, limit))
    ensures |r| <= |start|
    ensures ShortSeparator(start, limit, r)
  {
    var minLength := if |start| < |limit| then |start| else |limit|;
    var d := 0;
    while d < minLength && start[d] == limit[d]
      invariant d <= minLength && start[..d] == limit[..d]
    {
      d := d + 1;
    }
    r := start;
    SeparatorAt(start, limit, d);
    if d < minLength {
      var diffByte: nat := start[d];
      if diffByte < 0xff && diffByte + 1 < limit[d] {
        r := start[..d] + [diffByte + 1];
        assert r[..d] == start[..d];
        LexAt(start, r, d);
        LexAt(r, limit, d);
      }
    }
  }

  /** Where the common prefix ends, the strings differ, or one is a prefix of the other. */
  lemma {:induction false} SeparatorAt(start: Bytes, limit: Bytes, d: nat)
    requires d <= |start| && d <= |limit| && start[..d] == limit[..d]
    requires d < |start| && d < |limit| ==> start[d] != limit[d]
    ensures Differ(start, limit, d) <==> d < |start| && d < |limit|
    ensures forall e: nat :: Differ(start, limit, e) ==> e == d
  {
    forall e: nat | Differ(start, limit, e) ensures e == d {
      OneDifference(start, limit, d, e);
    }
  }

  lemma {:induction false} OneDifference(start: Bytes, limit: Bytes, d: nat, e: nat)
    requires d <= |start| && d <= |limit| && start[..d] == limit[..d]
    requires d < |start| && d < |limit| ==> start[d] != limit[d]
    requires Differ(start, limit, e)
    ensures e == d
  {
    PrefixAgrees(start, limit, d);
    PrefixAgrees(start, limit, e);
  }

  lemma {:induction false} PrefixAgrees(a: Bytes, b: Bytes, n: nat)
    requires n <= |a| && n <= |b| && a[..n] == b[..n]
    ensures forall i :: 0 <= i < n ==> a[i] == b[i]
  {
    forall i | 0 <= i < n ensures a[i] == b[i] {
      assert a[i] == a[..n][i];
    }
  }

  /** BytewiseComparator::FindShortSuccessor: unchanged if all bytes are 0xff, else greater. */
  method FindShortSuccessor(key: Bytes) returns (r: Bytes)
    ensures r == key || Lex(key, r)
    ensures |r| <= |key|
    ensures r == key <==> forall i :: 0 <= i < |key| ==> key[i] == 0xff
    ensures ShortSuccessor(key, r)
  {
    for i := 0 to |key|
      invariant forall k :: 0 <= k < i ==> key[k] == 0xff
    {
      if key[i] != 0xff {
        r := key[..i] + [key[i] + 1];
        assert r[..i] == key[..i];
        LexAt(key, r, i);
        assert r[i] != key[i];
        return;
      }
    }
    r := key;
  }

  // ----- internal keys -----------------------------------------------------

  const MAX_TAG: nat := 0xFFFF_FFFF_FFFF_FF01

  /** A user key and the eight-byte trailer. */
  datatype Key = Key(user: Bytes, tag: nat)

  datatype Entry = Entry(key: Key, value: Bytes)

  predicate Less(a: Key, b: Key) {
    Lex(a.user, b.user) || (a.user == b.user && a.tag > b.tag)
  }

  lemma {:induction false} LessTransitive(a: Key, b: Key, c: Key)
    requires Less(a, b) && Less(b, c)
    ensures Less(a, c)
  {
    if Lex(a.user, b.user) && Lex(b.user, c.user) {
      LexTransitive(a.user, b.user, c.user);
    }
  }

  lemma {:induction false} LessTotal(a: Key, b: Key)
    ensures Less(a, b) || a == b || Less(b, a)
    ensures !(Less(a, b) && Less(b, a))
    ensures a == b ==> !Less(a, b)
  {
    LexTotal(a.user, b.user);
  }

  /** `r` can stand between a block that ends with `start` and one that starts with `limit`. It is the
      last key itself, or its user key lies strictly between the two. */
  predicate Separator(start: Key, limit: Key, r: Key) {
    r == start || (Lex(start.user, r.user) && Lex(r.user, limit.user))
  }

  lemma {:induction false} SeparatorOrder(start: Key, limit: Key, r: Key)
    requires Separator(start, limit, r) && Less(start, limit)
    ensures (r == start || Less(start, r)) && Less(r, limit)
  {
  }

  /** The separator of two internal keys: where the separator of the user keys is shorter and greater, that with the tag
      that sorts first; else the first key itself. */
  ghost predicate KeySeparator(start: Key, limit: Key, r: Key) {
    exists user :: ShortSeparator(start.user, limit.user, user)
      && r == if |user| < |start.user| && Lex(start.user, user) then Key(user, 0xFFFF_FFFF_FFFF_FF01) else start
  }

  ghost predicate KeySuccessor(key: Key, r: Key) {
    exists user :: ShortSuccessor(key.user, user)
      && r == if |user| < |key.user| && Lex(key.user, user) then Key(user, 0xFFFF_FFFF_FFFF_FF01) else key
  }

  /** InternalKeyComparator::FindShortestSeparator. */
  method SeparatorFor(start: Key, limit: Key) returns (r: Key)
    ensures KeySeparator(start, limit, r)
    ensures Separator(start, limit, r)
    ensures Less(start, limit) ==> (r == start || Less(start, r)) && Less(r, limit)
  {
    var tmp := FindShortestSeparator(start.user, limit.user);
    LexTotal(start.user, tmp);
    if |tmp| < |start.user| && Lex(start.user, tmp) {
      r := Key(tmp, MAX_TAG);
    } else {
      r := start;
    }
    if Less(start, limit) {
      SeparatorOrder(start, limit, r);
    }
  }

  /** InternalKeyComparator::FindShortSuccessor. */
  method SuccessorOf(key: Key) returns (r: Key)
    ensures r == key || Lex(key.user, r.user)
    ensures KeySuccessor(key, r)
  {
    var tmp := FindShortSuccessor(key.user);
    if |tmp| < |key.user| && Lex(key.user, tmp) {
      r := Key(tmp, MAX_TAG);
    } else {
      r := key;
    }
  }
}
