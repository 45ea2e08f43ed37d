/** Write batches (db/write_batch.cc): an eight-byte sequence number, a four-byte count, and the
    operations one after the other.
 */
module WriteBatches {
  import opened DbFormat
  import opened Coding

  const BATCH_HEADER: nat := 12

  datatype Op = Put(key: Bytes, value: Bytes) | Delete(key: Bytes)

  /** Lengths are stored in 32 bits. */
  predicate Storable(op: Op) {
    |op.key| < TWO_32 && (op.Put? ==> |op.value| < TWO_32)
  }

  predicate AllStorable(ops: seq<Op>) {
    forall i :: 0 <= i < |ops| ==> Storable(ops[i])
  }

  function EncodeOp(op: Op): Bytes
    requires Storable(op)
  {
    match op
    case Put(k, v) => [1] + (LengthPrefixed(k) + LengthPrefixed(v))
    case Delete(k) => [0] + LengthPrefixed(k)
  }

  function EncodeOps(ops: seq<Op>): Bytes
    requires AllStorable(ops)
  {
    if ops == [] then [] else EncodeOps(ops[..|ops| - 1]) + EncodeOp(ops[|ops| - 1])
  }

  /** The contents of a batch that holds `ops`. */
  function Rep(sequence: nat, ops: seq<Op>): Bytes
    requires sequence < TWO_64 && AllStorable(ops)
  {
    EncodeFixed64(sequence) + EncodeFixed32(|ops| % TWO_32) + EncodeOps(ops)
  }

  /** The operations a batch body shows before it ends or turns out malformed. */
  datatype Reading = Reading(ops: seq<Op>, wellFormed: bool)

  /** The operation at the front of a batch body, None if malformed. */
  function ParseOp(s: Bytes): (r: Option<Parsed<Op>>)
    requires s != []
    ensures r.Some? ==> |r.value.rest| < |s|
  {
    if s[0] == 1 then
      match GetLengthPrefixed(s[1..])
      case None => None
      case Some(k) =>
        match GetLengthPrefixed(k.rest)
        case None => None
        case Some(v) => Some(Parsed(Put(k.value, v.value), v.rest))
    else if s[0] == 0 then
      match GetLengthPrefixed(s[1..])
      case None => None
      case Some(k) => Some(Parsed(Delete(k.value), k.rest))
    else None
  }

  function ParseOps(s: Bytes): Reading
    decreases |s|
  {
    if s == [] then Reading([], true)
    else match ParseOp(s)
      case None => Reading([], false)
      case Some(p) =>
        var rest := ParseOps(p.rest);
        Reading([p.value] + rest.ops, rest.wellFormed)
  }

  lemma {:induction false} OpRoundTrip(op: Op, rest: Bytes)
    requires Storable(op)
    ensures ParseOp(EncodeOp(op) + rest) == Some(Parsed(op, rest))
  {
    hide LengthPrefixed, GetLengthPrefixed;
    var s := EncodeOp(op) + rest;
    match op
    case Put(k, v) =>
      assert s[1..] == LengthPrefixed(k) + (LengthPrefixed(v) + rest);
      LengthPrefixedRoundTrip(k, LengthPrefixed(v) + rest);
      LengthPrefixedRoundTrip(v, rest);
    case Delete(k) =>
      assert s[1..] == LengthPrefixed(k) + rest;
      LengthPrefixedRoundTrip(k, rest);
  }

  /** A body reads back as the operations put in, followed by whatever comes after. */
  lemma {:induction false} OpsRoundTrip(ops: seq<Op>, rest: Bytes)
    requires AllStorable(ops)
    ensures var r := ParseOps(rest);
            ParseOps(EncodeOps(ops) + rest) == Reading(ops + r.ops, r.wellFormed)
    decreases |ops|
  {
    hide EncodeOp, ParseOp;
    if ops == [] {
      assert EncodeOps(ops) + rest == rest;
    } else {
      var n := |ops| - 1;
      var last := EncodeOp(ops[n]) + rest;
      OpRoundTrip(ops[n], rest);
      OpsRoundTrip(ops[..n], last);
      assert EncodeOps(ops) + rest == EncodeOps(ops[..n]) + last;
      assert last != [];
      assert ParseOps(last) == Reading([ops[n]] + ParseOps(rest).ops, ParseOps(rest).wellFormed);
      assert ops == ops[..n] + [ops[n]];
    }
  }

  lemma {:induction false} BodyRoundTrip(ops: seq<Op>)
    requires AllStorable(ops)
    ensures ParseOps(EncodeOps(ops)) == Reading(ops, true)
  {
    OpsRoundTrip(ops, []);
    assert EncodeOps(ops) + [] == EncodeOps(ops) && ops + [] == ops;
  }

  lemma {:induction false} EncodeAppend(a: seq<Op>, b: seq<Op>)
    requires AllStorable(a) && AllStorable(b)
    ensures AllStorable(a + b) && EncodeOps(a + b) == EncodeOps(a) + EncodeOps(b)
    decreases |b|
  {
    hide EncodeOp;
    if b == [] {
      assert a + b == a;
    } else {
      var n := |b| - 1;
      EncodeAppend(a, b[..n]);
      assert (a + b)[..|a + b| - 1] == a + b[..n];
    }
  }

  lemma {:induction false} RepShows(sequence: nat, ops: seq<Op>)
    requires sequence < TWO_64 && AllStorable(ops)
    ensures var rep := Rep(sequence, ops);
            && |rep| >= BATCH_HEADER && rep[..8] == EncodeFixed64(sequence)
            && rep[8..12] == EncodeFixed32(|ops| % TWO_32) && rep[12..] == EncodeOps(ops)
  {
    hide EncodeFixed32, EncodeFixed64, EncodeOps;
  }

  /** One memtable insertion. */
  datatype Insertion = Insertion(sequence: nat, op: Op)

  /** The insertions of `ops` under consecutive sequence numbers. */
  function Insertions(first: nat, ops: seq<Op>): (r: seq<Insertion>)
    ensures |r| == |ops|
  {
    seq(|ops|, i requires 0 <= i < |ops| => Insertion(first + i, ops[i]))
  }

  class WriteBatch {
    var rep: Bytes

    constructor ()
      ensures IsEmpty()
    {
      rep := [0, 0, 0, 0, 0, 0, 0, 0, 0, 0, 0, 0];
      new;
      ZeroRep();
    }

    static lemma {:induction false} ZeroRep()
      ensures Rep(0, []) == [0, 0, 0, 0, 0, 0, 0, 0, 0, 0, 0, 0]
    {
      var none: seq<Op> := [];
      assert Fixed(0, 4) == [0, 0, 0, 0];
      assert Fixed(0, 8) == [0, 0, 0, 0] + Fixed(0, 4);
      assert EncodeOps(none) == [];
    }

    /** The batch holds `ops`. */
    ghost predicate Holds(ops: seq<Op>)
      reads this
    {
      AllStorable(ops) && exists sequence: nat :: sequence < TWO_64 && rep == Rep(sequence, ops)
    }

    ghost predicate IsEmpty()
      reads this
    {
      rep == Rep(0, [])
    }

    method Clear()
      modifies this
      ensures IsEmpty()
    {
      rep := [0, 0, 0, 0, 0, 0, 0, 0, 0, 0, 0, 0];
      ZeroRep();
    }

    function Count(): Word32
      requires |rep| >= BATCH_HEADER
      reads this
    {
      DecodeFixed32(rep[8..12])
    }

    method SetCount(n: int)
      requires |rep| >= BATCH_HEADER
      modifies this
      ensures rep == old(rep)[..8] + EncodeFixed32(n % TWO_32) + old(rep)[12..]
    {
      rep := rep[..8] + EncodeFixed32(n % TWO_32) + rep[12..];
    }

    method SetSequence(sequence: nat)
      requires |rep| >= BATCH_HEADER && sequence < TWO_64
      modifies this
      ensures rep == EncodeFixed64(sequence) + old(rep)[8..]
      ensures forall ops :: old(Holds(ops)) ==> rep == Rep(sequence, ops)
    {
      hide Rep, EncodeFixed64;
      rep := EncodeFixed64(sequence) + rep[8..];
      forall ops | old(Holds(ops)) ensures rep == Rep(sequence, ops) {
        var other: nat :| other < TWO_64 && old(rep) == Rep(other, ops);
        Renumbered(other, sequence, ops);
      }
    }

    static lemma {:induction false} Renumbered(other: nat, sequence: nat, ops: seq<Op>)
      requires other < TWO_64 && sequence < TWO_64 && AllStorable(ops)
      ensures |Rep(other, ops)| >= 8 && EncodeFixed64(sequence) + Rep(other, ops)[8..] == Rep(sequence, ops)
    {
      hide EncodeFixed32, EncodeOps, AllStorable;
    }

    method Put(key: Bytes, value: Bytes)
      requires |rep| >= BATCH_HEADER && |key| < TWO_32 && |value| < TWO_32
      modifies this
      ensures forall ops :: old(Holds(ops)) ==> Holds(ops + [Op.Put(key, value)])
    {
      hide LengthPrefixed, EncodeFixed32, DecodeFixed32, Rep, Appended;
      SetCount(Count() + 1);
      rep := rep + [1];
      rep := rep + LengthPrefixed(key);
      rep := rep + LengthPrefixed(value);
      InPieces(old(rep), [1], LengthPrefixed(key), LengthPrefixed(value));
      assert rep == Appended(old(rep), 1, EncodeOp(Op.Put(key, value)));
      forall ops | old(Holds(ops)) ensures Holds(ops + [Op.Put(key, value)]) {
        var sequence: nat :| sequence < TWO_64 && old(rep) == Rep(sequence, ops);
        Grown(sequence, ops, Op.Put(key, value));
      }
    }

    method Delete(key: Bytes)
      requires |rep| >= BATCH_HEADER && |key| < TWO_32
      modifies this
      ensures forall ops :: old(Holds(ops)) ==> Holds(ops + [Op.Delete(key)])
    {
      hide LengthPrefixed, EncodeFixed32, DecodeFixed32, Rep, Appended;
      SetCount(Count() + 1);
      rep := rep + [0];
      rep := rep + LengthPrefixed(key);
      InPieces(old(rep), [0], LengthPrefixed(key), []);
      assert rep == Appended(old(rep), 1, EncodeOp(Op.Delete(key)));
      forall ops | old(Holds(ops)) ensures Holds(ops + [Op.Delete(key)]) {
        var sequence: nat :| sequence < TWO_64 && old(rep) == Rep(sequence, ops);
        Grown(sequence, ops, Op.Delete(key));
      }
    }

    static lemma {:induction false} InPieces(rep: Bytes, tag: Bytes, a: Bytes, b: Bytes)
      requires |rep| >= BATCH_HEADER
      ensures var counted := rep[..8] + EncodeFixed32((DecodeFixed32(rep[8..12]) + 1) % TWO_32) + rep[12..];
              && Appended(rep, 1, tag + (a + b)) == counted + tag + a + b
              && Appended(rep, 1, tag + a) == counted + tag + a
    {
      hide EncodeFixed32, DecodeFixed32;
    }

    /** The contents after `more` operations, encoded as `body`, are added to `rep`. */
    static function Appended(rep: Bytes, more: nat, body: Bytes): Bytes
      requires |rep| >= BATCH_HEADER
    {
      rep[..8] + EncodeFixed32((DecodeFixed32(rep[8..12]) + more) % TWO_32) + rep[12..] + body
    }

    static lemma {:induction false} AppendedHolds(sequence: nat, ops: seq<Op>, more: seq<Op>)
      requires sequence < TWO_64 && AllStorable(ops) && AllStorable(more)
      ensures AllStorable(ops + more)
      ensures |Rep(sequence, ops)| >= BATCH_HEADER
      ensures Appended(Rep(sequence, ops), |more| % TWO_32, EncodeOps(more)) == Rep(sequence, ops + more)
    {
      hide EncodeFixed32, DecodeFixed32, EncodeFixed64, EncodeOps, AllStorable;
      RepShows(sequence, ops);
      EncodeAppend(ops, more);
      assert (|ops| % TWO_32 + |more| % TWO_32) % TWO_32 == |ops + more| % TWO_32;
    }

    static lemma {:induction false} Grown(sequence: nat, ops: seq<Op>, op: Op)
      requires sequence < TWO_64 && AllStorable(ops) && Storable(op)
      ensures AllStorable(ops + [op]) && |Rep(sequence, ops)| >= BATCH_HEADER
      ensures Appended(Rep(sequence, ops), 1, EncodeOp(op)) == Rep(sequence, ops + [op])
    {
      hide EncodeFixed32, DecodeFixed32, EncodeFixed64, EncodeOp, Rep, Appended;
      var one := [op];
      assert EncodeOps(one[..0]) == [] && EncodeOps(one) == EncodeOp(op);
      AppendedHolds(sequence, ops, one);
    }

    /** Appends the operations of `src`, another batch. */
    method Append(src: WriteBatch)
      requires |rep| >= BATCH_HEADER && |src.rep| >= BATCH_HEADER && src != this
      modifies this
      ensures |rep| >= BATCH_HEADER
      ensures forall ops, more :: old(Holds(ops)) && src.Holds(more) ==> Holds(ops + more)
    {
      hide EncodeFixed32, DecodeFixed32, Rep;
      SetCount(Count() + src.Count());
      rep := rep + src.rep[12..];
      forall ops, more | old(Holds(ops)) && src.Holds(more) ensures Holds(ops + more) {
        var sequence: nat :| sequence < TWO_64 && old(rep) == Rep(sequence, ops);
        var other: nat :| other < TWO_64 && src.rep == Rep(other, more);
        AppendedHolds(sequence, ops, more);
        RepShows(other, more);
      }
    }

    /** WriteBatch::Iterate: hands every operation to the handler, whose calls are recorded in order.
        What precedes the first malformed byte has been handed over when the status is false. */
    method Iterate() returns (calls: seq<Op>, ok: bool)
      ensures |rep| < BATCH_HEADER ==> calls == [] && !ok
      ensures |rep| >= BATCH_HEADER ==>
                var r := ParseOps(rep[12..]);
                calls == r.ops && (ok <==> r.wellFormed && |r.ops| % TWO_32 == Count())
    {
      hide ParseOp, DecodeFixed32;
      calls := [];
      if |rep| < BATCH_HEADER {
        return [], false;
      }
      var input := rep[12..];
      var found := 0;
      while input != []
        invariant found == |calls|
        invariant var r, whole := ParseOps(input), ParseOps(rep[12..]);
                  whole.ops == calls + r.ops && whole.wellFormed == r.wellFormed
        decreases |input|
      {
        found := found + 1;
        match ParseOp(input)
        case None =>
          return calls, false;
        case Some(p) =>
          calls := calls + [p.value];
          input := p.rest;
      }
      ok := found % TWO_32 == Count();
    }

    /** InsertInto: the memtable insertions, numbered from the batch's own sequence number on. */
    method InsertInto() returns (inserted: seq<Insertion>, ok: bool)
      requires |rep| >= BATCH_HEADER
      ensures forall ops, first: nat :: first < TWO_64 && AllStorable(ops) && rep == Rep(first, ops) ==>
                ok && inserted == Insertions(first, ops)
    {
      hide EncodeFixed32, DecodeFixed32, EncodeFixed64, DecodeFixed64, EncodeOps, Rep, ParseOps;
      var calls;
      calls, ok := Iterate();
      inserted := Insertions(DecodeFixed64(rep[..8]), calls);
      forall ops, first: nat | first < TWO_64 && AllStorable(ops) && rep == Rep(first, ops)
        ensures ok && calls == ops && DecodeFixed64(rep[..8]) == first
      {
        RepShows(first, ops);
        BodyRoundTrip(ops);
      }
    }
  }
}
