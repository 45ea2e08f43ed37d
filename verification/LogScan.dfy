/** What any bytes read as when they are read as a log, block by block of 32768 bytes (db/log_format.h, db/log_reader.cc).
    The reader of Log.dfy is proved to find exactly this.
 */
module LogScan {
  import opened DbFormat
  import opened Coding

  /** A fragment whose checksum is right, or a place from which the rest of the block is dropped. */
  datatype Event = Whole(kind: Byte, payload: Bytes) | Bad(reported: bool)

  /** The fragments of a block, or of what is left of it. In the file's last block, a fragment that breaks off ends
      the log; in others its length is wrong. */
  function InBlock(crc: Crc, b: Bytes, last: bool): seq<Event> {
    if |b| < 7 then []
    else
      var end := 7 + b[4] as nat + 256 * b[5] as nat;
      if end > |b| then if last then [] else [Bad(true)]
      else if b[6] == 0 && end == 7 then [Bad(false)]
      else if Unmask(DecodeFixed32(b[..4])) != crc(b[6..end]) then [Bad(true)]
      else [Whole(b[6], b[7..end])] + InBlock(crc, b[end..], last)
  }

  function InFile(crc: Crc, s: Bytes): seq<Event> {
    if |s| < 32768 then InBlock(crc, s, true)
    else InBlock(crc, s[..32768], false) + InFile(crc, s[32768..])
  }

  /** What an event does when `partial` is what was read of a record: it ends the reading of a record, with one or at the
      end of the file, or the reading goes on. */
  datatype Step = Done(record: Option<Bytes>, reports: nat) | More(partial: Option<Bytes>, reports: nat)

  /** Types 1 to 4 are a whole record, its first, middle and last fragment; type 5 is taken for the end of the file. */
  function Take(e: Event, partial: Option<Bytes>): Step {
    var lost := if partial.Some? then 1 else 0;
    var cut := if partial.Some? && partial.value != [] then 1 else 0;
    match e
    case Bad(reported) => More(None, if reported then 1 + lost else lost)
    case Whole(kind, p) =>
      if kind == 1 then Done(Some(p), cut)
      else if kind == 2 then More(Some(p), cut)
      else if kind == 3 then if partial.None? then More(None, 1) else More(Some(partial.value + p), 0)
      else if kind == 4 then if partial.None? then More(None, 1) else Done(Some(partial.value + p), 0)
      else if kind == 5 then Done(None, 0)
      else if kind == 6 then More(None, lost)
      else More(None, 1)
  }

  /** A record, the events behind it, and the reports on the way. */
  datatype Read = Read(record: Option<Bytes>, rest: seq<Event>, reports: nat)

  /** The next record. */
  function NextRecord(es: seq<Event>, partial: Option<Bytes>): (r: Read)
    ensures |r.rest| <= |es| && (r.record.Some? ==> |r.rest| < |es|)
  {
    if es == [] then Read(None, [], 0)
    else
      match Take(es[0], partial)
      case Done(record, reports) => Read(record, es[1..], reports)
      case More(partial', reports) =>
        var r := NextRecord(es[1..], partial');
        r.(reports := reports + r.reports)
  }

  /** The records up to the end, and the reports. */
  function Recovered(es: seq<Event>): (r: (seq<Bytes>, nat))
    decreases |es|
  {
    var next := NextRecord(es, None);
    if next.record.None? then ([], next.reports)
    else
      var more := Recovered(next.rest);
      ([next.record.value] + more.0, next.reports + more.1)
  }

  // ----- damage --------------------------------------------------------------------

  /** No fragment that was written has another type than 1 to 4. */
  predicate Typed(es: seq<Event>) {
    forall i :: 0 <= i < |es| && es[i].Whole? ==> 1 <= es[i].kind <= 4
  }

  /** What was read of a record is forgotten at a bad place. */
  lemma {:induction false} NextAcrossBad(before: seq<Event>, reported: bool, behind: seq<Event>, partial: Option<Bytes>)
    requires Typed(before)
    ensures var r, alone := NextRecord(before + [Bad(reported)] + behind, partial), NextRecord(before, partial);
            if alone.record.Some? then r.record == alone.record && r.rest == alone.rest + [Bad(reported)] + behind && Typed(alone.rest)
            else r.record == NextRecord(behind, None).record && r.rest == NextRecord(behind, None).rest
  {
    var es := before + [Bad(reported)] + behind;
    if before == [] {
      assert es[1..] == behind;
    } else {
      assert es[0] == before[0] && es[1..] == before[1..] + [Bad(reported)] + behind;
      var step := Take(before[0], partial);
      if step.More? {
        NextAcrossBad(before[1..], reported, behind, step.partial);
      }
    }
  }

  /** The records before a bad place and those behind it are read as if there were nothing else. */
  lemma {:induction false} BadSeparates(before: seq<Event>, reported: bool, behind: seq<Event>)
    requires Typed(before)
    ensures Recovered(before + [Bad(reported)] + behind).0 == Recovered(before).0 + Recovered(behind).0
    decreases |before|
  {
    hide NextRecord;
    NextAcrossBad(before, reported, behind, None);
    var alone := NextRecord(before, None);
    if alone.record.Some? {
      BadSeparates(alone.rest, reported, behind);
    } else {
      RecoveredBy(before + [Bad(reported)] + behind, behind);
    }
  }

  lemma {:induction false} RecoveredBy(a: seq<Event>, b: seq<Event>)
    requires NextRecord(a, None).record == NextRecord(b, None).record
             && NextRecord(a, None).rest == NextRecord(b, None).rest
    ensures Recovered(a).0 == Recovered(b).0
  {
  }

  /** The fragments of whole blocks. */
  function InBlocks(crc: Crc, s: Bytes): seq<Event>
    requires |s| % 32768 == 0
  {
    if s == [] then [] else InBlock(crc, s[..32768], false) + InBlocks(crc, s[32768..])
  }

  lemma {:induction false} BlocksThenRest(crc: Crc, a: Bytes, c: Bytes)
    requires |a| % 32768 == 0
    ensures InFile(crc, a + c) == InBlocks(crc, a) + InFile(crc, c)
  {
    hide InBlock;
    if a == [] {
      assert a + c == c;
    } else {
      BlocksThenRest(crc, a[32768..], c);
      assert (a + c)[..32768] == a[..32768] && (a + c)[32768..] == a[32768..] + c;
    }
  }

  /** A block that is bad from its start, as when its first header or checksum is damaged, costs no record but those
      that reach into it: the blocks before it and the file behind it are read as if they were alone. */
  lemma {:induction false} DamageIsContained(crc: Crc, a: Bytes, b: Bytes, c: Bytes, reported: bool)
    requires |a| % 32768 == 0 && |b| == 32768 && InBlock(crc, b, false) == [Bad(reported)] && Typed(InBlocks(crc, a))
    ensures Recovered(InFile(crc, a + b + c)).0 == Recovered(InBlocks(crc, a)).0 + Recovered(InFile(crc, c)).0
  {
    hide InBlock, Recovered;
    BlocksThenRest(crc, a, b + c);
    assert a + b + c == a + (b + c);
    assert (b + c)[..32768] == b && (b + c)[32768..] == c;
    BadSeparates(InBlocks(crc, a), reported, InFile(crc, c));
    assert InBlocks(crc, a) + ([Bad(reported)] + InFile(crc, c)) == InBlocks(crc, a) + [Bad(reported)] + InFile(crc, c);
  }
}
