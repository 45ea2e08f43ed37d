/** Group commit (DBImpl::Write and BuildBatchGroup, db/db_impl.cc): writers queue up, the one at the
    front writes for a whole group, and the lock is given up while it logs and inserts. The protocol
    is a state machine whose steps are what happens between two points where the lock is free.

    Batches are made by Put and Delete, so they are well formed.
 */
module GroupCommit {
  import opened DbFormat
  import opened Coding
  import opened WriteBatches

  const MAX_GROUP: nat := 1048576
  const SMALL_WRITE: nat := 131072

  /** A queued write; `batch` is None for the null batch that forces a memtable switch. */
  datatype Writer = Writer(batch: Option<seq<Op>>, sync: bool)

  predicate WellFormed(w: Writer) {
    w.batch.Some? ==> AllStorable(w.batch.value)
  }

  predicate AllWellFormed(ws: seq<Writer>) {
    forall i :: 0 <= i < |ws| ==> WellFormed(ws[i])
  }

  // ----- the group ---------------------------------------------------------

  function ByteSize(ops: seq<Op>): nat
    requires AllStorable(ops)
  {
    BATCH_HEADER + |EncodeOps(ops)|
  }

  function SizeLimit(size: nat): nat {
    if size <= SMALL_WRITE then size + SMALL_WRITE else MAX_GROUP
  }

  /** Where the group that has `size` bytes before position `i` ends. */
  function EndFrom(queue: seq<Writer>, i: nat, size: nat, limit: nat): (end: nat)
    requires 1 <= i <= |queue| && AllWellFormed(queue)
    ensures i <= end <= |queue|
    decreases |queue| - i
  {
    if i == |queue| || (queue[i].sync && !queue[0].sync) then i
    else if queue[i].batch.None? then EndFrom(queue, i + 1, size, limit)
    else
      var grown := size + ByteSize(queue[i].batch.value);
      if grown > limit then i else EndFrom(queue, i + 1, grown, limit)
  }

  /** How many writers from the front on are served together. */
  function GroupEnd(queue: seq<Writer>): (end: nat)
    requires queue != [] && queue[0].batch.Some? && AllWellFormed(queue)
    ensures 1 <= end <= |queue|
  {
    var size := ByteSize(queue[0].batch.value);
    EndFrom(queue, 1, size, SizeLimit(size))
  }

  function BatchOps(w: Writer): seq<Op> {
    if w.batch.None? then [] else w.batch.value
  }

  /** The operations of `ws` in queue order. */
  function OpsOf(ws: seq<Writer>): seq<Op> {
    if ws == [] then [] else OpsOf(ws[..|ws| - 1]) + BatchOps(ws[|ws| - 1])
  }

  lemma {:induction false} OpsStorable(ws: seq<Writer>)
    requires AllWellFormed(ws)
    ensures AllStorable(OpsOf(ws))
    decreases |ws|
  {
    if ws != [] {
      OpsStorable(ws[..|ws| - 1]);
    }
  }

  lemma {:induction false} OpsOfNext(ws: seq<Writer>, i: nat)
    requires i < |ws|
    ensures OpsOf(ws[..i + 1]) == OpsOf(ws[..i]) + BatchOps(ws[i])
  {
    assert ws[..i + 1][..i] == ws[..i];
  }

  /** A sync write is never carried by a leader that does not sync. */
  lemma {:induction false} SyncNeedsSyncLeader(queue: seq<Writer>, i: nat, size: nat, limit: nat, j: nat)
    requires 1 <= i <= |queue| && AllWellFormed(queue)
    requires i <= j < EndFrom(queue, i, size, limit)
    ensures queue[j].sync ==> queue[0].sync
    decreases |queue| - i
  {
    if i < j {
      var grown := if queue[i].batch.None? then size else size + ByteSize(queue[i].batch.value);
      SyncNeedsSyncLeader(queue, i + 1, grown, limit, j);
    }
  }

  /** The bytes of the batches of `ws`. */
  function TotalSize(ws: seq<Writer>): nat
    requires AllWellFormed(ws)
  {
    if ws == [] then 0
    else TotalSize(ws[..|ws| - 1])
         + (if ws[|ws| - 1].batch.None? then 0 else ByteSize(ws[|ws| - 1].batch.value))
  }

  lemma {:induction false} TotalSizeNext(ws: seq<Writer>, i: nat)
    requires i < |ws| && AllWellFormed(ws)
    ensures TotalSize(ws[..i + 1]) == TotalSize(ws[..i]) + (if ws[i].batch.None? then 0 else ByteSize(ws[i].batch.value))
  {
    assert ws[..i + 1][..i] == ws[..i];
  }

  /** A group of several batches stays within the limit, and ends only where the next writer may not join. */
  lemma {:induction false} GroupIsMaximal(queue: seq<Writer>, i: nat, limit: nat)
    requires 1 <= i <= |queue| && AllWellFormed(queue)
    ensures var end := EndFrom(queue, i, TotalSize(queue[..i]), limit);
            && (end > i ==> TotalSize(queue[..end]) <= limit || TotalSize(queue[..end]) == TotalSize(queue[..i]))
            && (end < |queue| ==>
                  (queue[end].sync && !queue[0].sync) ||
                  (queue[end].batch.Some? && TotalSize(queue[..end + 1]) > limit))
    decreases |queue| - i
  {
    hide ByteSize, WellFormed;
    var end := EndFrom(queue, i, TotalSize(queue[..i]), limit);
    if i < |queue| {
      TotalSizeNext(queue, i);
      if end > i {
        GroupIsMaximal(queue, i + 1, limit);
      }
    }
  }

  /** Writer `j` may follow the ones before it into the group. */
  predicate MayJoin(queue: seq<Writer>, j: nat, limit: nat)
    requires j < |queue| && AllWellFormed(queue)
  {
    && (queue[j].sync ==> queue[0].sync)
    && (queue[j].batch.Some? ==> TotalSize(queue[..j + 1]) <= limit)
  }

  /** A writer is served together with the leader exactly if it and all before it may join. */
  lemma {:induction false} ServedIff(queue: seq<Writer>, i: nat, limit: nat, k: nat)
    requires 1 <= i <= k < |queue| && AllWellFormed(queue)
    ensures k < EndFrom(queue, i, TotalSize(queue[..i]), limit) <==> forall j :: i <= j <= k ==> MayJoin(queue, j, limit)
    decreases k - i
  {
    hide ByteSize, WellFormed;
    TotalSizeNext(queue, i);
    if MayJoin(queue, i, limit) && i < k {
      ServedIff(queue, i + 1, limit, k);
    }
  }

  /** A null batch behind a leader with a batch is absorbed by its group, wherever it stands, exactly if all before it
      are in the group and it does not ask for a sync that the leader does not make; it adds nothing to what the group
      does. */
  lemma {:induction false} NullBatchIsAbsorbedIff(queue: seq<Writer>, k: nat)
    requires 1 <= k < |queue| && AllWellFormed(queue) && queue[0].batch.Some? && queue[k].batch.None?
    ensures var limit := SizeLimit(ByteSize(queue[0].batch.value));
            k < GroupEnd(queue) <==>
            (forall j :: 1 <= j < k ==> MayJoin(queue, j, limit)) && (queue[k].sync ==> queue[0].sync)
    ensures k < GroupEnd(queue) <==> k <= GroupEnd(queue) && (queue[k].sync ==> queue[0].sync)
    ensures OpsOf(queue[..k + 1]) == OpsOf(queue[..k])
  {
    hide ByteSize, EndFrom;
    var limit := SizeLimit(ByteSize(queue[0].batch.value));
    TotalSizeNext(queue, 0);
    assert queue[..0] == [];
    ServedIff(queue, 1, limit, k);
    assert MayJoin(queue, k, limit) <==> (queue[k].sync ==> queue[0].sync);
    if k > 1 {
      ServedIff(queue, 1, limit, k - 1);
    }
    OpsOfNext(queue, k);
  }

  /** A group led by a batch of `s` bytes: with at most 128 KiB it grows by 128 KiB at most, and else to 1 MiB at most,
      unless it is the leader's batch alone. It ends only before a sync write that its leader does not carry or a batch
      that would go beyond that. */
  predicate WithinLimits(queue: seq<Writer>, end: nat)
    requires queue != [] && queue[0].batch.Some? && AllWellFormed(queue)
  {
    var s := 12 + |EncodeOps(queue[0].batch.value)|;
    && 1 <= end <= |queue|
    && (s <= 131072 ==> TotalSize(queue[..end]) <= s + 131072)
    && (s > 131072 ==> TotalSize(queue[..end]) <= 1048576 || TotalSize(queue[..end]) == s)
    && (end < |queue| ==>
          || (queue[end].sync && !queue[0].sync)
          || (queue[end].batch.Some?
              && TotalSize(queue[..end + 1]) > if s <= 131072 then s + 131072 else 1048576))
  }

  lemma {:induction false} GroupLimits(queue: seq<Writer>)
    requires queue != [] && queue[0].batch.Some? && AllWellFormed(queue)
    ensures WithinLimits(queue, GroupEnd(queue))
  {
    hide EncodeOps, EndFrom;
    var size := ByteSize(queue[0].batch.value);
    TotalSizeNext(queue, 0);
    assert queue[..0] == [];
    GroupIsMaximal(queue, 1, SizeLimit(size));
  }

  // ----- the objects -------------------------------------------------------

  class QueuedWriter {
    const batch: WriteBatch?
    const sync: bool

    constructor (batch: WriteBatch?, sync: bool)
      ensures this.batch == batch && this.sync == sync
    {
      this.batch, this.sync := batch, sync;
    }
  }

  /** The queued objects stand for `queue`. */
  ghost predicate Stands(writers: seq<QueuedWriter>, queue: seq<Writer>)
    reads set w | w in writers && w.batch != null :: w.batch
  {
    && |writers| == |queue| && AllWellFormed(queue)
    && forall i :: 0 <= i < |writers| ==> StandsFor(writers[i], queue[i])
  }

  ghost predicate StandsFor(w: QueuedWriter, q: Writer)
    reads if w.batch == null then {} else {w.batch}
  {
    && WellFormed(q) && w.sync == q.sync && (w.batch == null <==> q.batch.None?)
    && (w.batch != null ==> w.batch.Holds(q.batch.value))
  }

  lemma {:induction false} HoldsSize(b: WriteBatch, ops: seq<Op>)
    requires b.Holds(ops)
    ensures AllStorable(ops) && |b.rep| == ByteSize(ops) >= BATCH_HEADER
  {
    var sequence: nat :| sequence < TWO_64 && b.rep == Rep(sequence, ops);
    RepShows(sequence, ops);
  }

  method BuildBatchGroup(writers: seq<QueuedWriter>, tmp: WriteBatch, ghost queue: seq<Writer>)
    returns (result: WriteBatch, end: nat)
    requires Stands(writers, queue) && queue != [] && queue[0].batch.Some?
    requires tmp.IsEmpty() && forall i :: 0 <= i < |writers| ==> writers[i].batch != tmp
    modifies tmp
    ensures end == GroupEnd(queue)
    ensures WithinLimits(queue, end)
    ensures result.Holds(OpsOf(queue[..end]))
    ensures result == tmp || (result == writers[0].batch && tmp.IsEmpty())
  {
    hide WithinLimits, WriteBatch.Holds, WriteBatch.IsEmpty, Rep, AllStorable, ByteSize, OpsOf, EncodeOps;
    GroupLimits(queue);
    var first := writers[0];
    assert StandsFor(writers[0], queue[0]);
    HoldsSize(first.batch, queue[0].batch.value);
    result := first.batch;
    var size: nat := |first.batch.rep|;
    var limit := if size <= SMALL_WRITE then size + SMALL_WRITE else MAX_GROUP;
    FrontOps(queue);
    end := 1;
    while end < |writers|
      invariant 1 <= end <= |writers|
      invariant EndFrom(queue, end, size, limit) == GroupEnd(queue)
      invariant result.Holds(OpsOf(queue[..end]))
      invariant result == tmp || (result == first.batch && tmp.IsEmpty())
      invariant Stands(writers, queue)
    {
      var w := writers[end];
      assert StandsFor(writers[end], queue[end]);
      if w.sync && !first.sync {
        break;
      }
      OpsOfNext(queue, end);
      if w.batch != null {
        HoldsSize(w.batch, queue[end].batch.value);
        size := size + |w.batch.rep|;
        if size > limit {
          break;
        }
        if result == first.batch {
          result := tmp;
          EmptyHolds(tmp);
          HoldsSize(tmp, []);
          result.Append(first.batch);
          AppendFirst([], OpsOf(queue[..end]));
        }
        HoldsSize(result, OpsOf(queue[..end]));
        result.Append(w.batch);
      } else {
        AppendNone(OpsOf(queue[..end]));
      }
      end := end + 1;
    }
  }

  lemma {:induction false} EmptyHolds(b: WriteBatch)
    requires b.IsEmpty()
    ensures b.Holds([])
  {
  }

  lemma {:induction false} AppendFirst(none: seq<Op>, ops: seq<Op>)
    requires none == []
    ensures none + ops == ops
  {
  }

  lemma {:induction false} AppendNone(ops: seq<Op>)
    ensures ops + [] == ops
  {
  }

  lemma {:induction false} FrontOps(queue: seq<Writer>)
    requires queue != []
    ensures OpsOf(queue[..1]) == BatchOps(queue[0])
  {
    assert queue[..1][..0] == [];
  }

  lemma {:induction false} RepCount(sequence: nat, ops: seq<Op>)
    requires sequence < TWO_64 && AllStorable(ops) && |ops| < TWO_32
    ensures var rep := Rep(sequence, ops);
            |rep| >= BATCH_HEADER && DecodeFixed32(rep[8..12]) == |ops|
  {
    hide Rep, DecodeFixed32, EncodeFixed64, EncodeOps, AllStorable, Fixed;
    RepShows(sequence, ops);
  }

  /** What the leader does with its group while the lock is free: number it, log it, insert it. */
  method CommitGroup(writers: seq<QueuedWriter>, tmp: WriteBatch, lastSequence: nat, ghost queue: seq<Writer>)
    returns (end: nat, record: Bytes, inserted: seq<Insertion>, newLast: nat)
    requires Stands(writers, queue) && queue != [] && queue[0].batch.Some?
    requires tmp.IsEmpty() && forall i :: 0 <= i < |writers| ==> writers[i].batch != tmp
    requires lastSequence + 1 < TWO_64 && |OpsOf(queue[..GroupEnd(queue)])| < 0x8000_0000
    modifies tmp, writers[0].batch
    ensures end == GroupEnd(queue) && tmp.IsEmpty()
    ensures var ops := OpsOf(queue[..end]);
            && AllStorable(ops) && record == Rep(lastSequence + 1, ops)
            && inserted == Insertions(lastSequence + 1, ops)
            && newLast == lastSequence + |ops|
  {
    hide Rep, Stands, WriteBatch.Holds, WriteBatch.IsEmpty, OpsOf, AllWellFormed, EncodeOps, Insertions, DecodeFixed32;
    var updates;
    updates, end := BuildBatchGroup(writers, tmp, queue);
    ghost var ops := OpsOf(queue[..end]);
    HoldsSize(updates, ops);
    updates.SetSequence(lastSequence + 1);
    RepCount(lastSequence + 1, ops);
    newLast := lastSequence + updates.Count();
    record := updates.rep;
    var ok;
    inserted, ok := updates.InsertInto();
    if updates == tmp {
      tmp.Clear();
    }
  }

  // ----- the protocol ------------------------------------------------------

  /** A writer that returned: whether its status is OK, the first sequence number that was its to use,
      whether its operations were numbered at all, the log record that carries them, whether the memtable was
      switched while it led, and how many insertions the memtable held when it returned. */
  datatype Done = Done(writer: Writer, ok: bool, first: nat, numbered: bool, record: nat, switched: bool, held: nat)

  datatype LogRecord = LogRecord(first: nat, ops: seq<Op>, synced: bool, file: nat)

  /** Where the leader is. In the last four it leads the first `end` writers and has given up the lock. */
  datatype Phase =
    | Idle
    | MakingRoom
    | Logging(end: nat)
    | Syncing(end: nat)
    | Inserting(end: nat, count: nat)
    | Ending(end: nat, ok: bool, syncError: bool)

  /** `applied` is every memtable insertion so far, of which the first `older` are in memtables that were switched;
      `switched` tells whether the present leader has switched memtables; `arrivals` is every writer that ever queued
      up; `lost` a group that was logged but whose sync failed. */
  datatype State = State(queue: seq<Writer>, phase: Phase, base: nat, lastSequence: nat, log: seq<LogRecord>,
                         logFile: nat, applied: seq<Insertion>, older: nat, switched: bool, bgError: bool,
                         done: seq<Done>, arrivals: seq<Writer>, lost: seq<Insertion>)

  predicate Init(s: State) {
    && s.queue == [] && s.phase == Idle && s.base == s.lastSequence && s.log == [] && s.applied == [] && s.older == 0
    && s.done == [] && s.arrivals == [] && s.lost == []
  }

  function Group(s: State): seq<Writer>
    requires !s.phase.Idle? && !s.phase.MakingRoom? && s.phase.end <= |s.queue|
  {
    s.queue[..s.phase.end]
  }

  datatype Event =
    | Arrive(w: Writer) | Lead | SwitchLog | RoomFails | RoomForNull | Build
    | LogAppended | LogFailed | Synced | SyncFailed | InsertOne | Finish | BackgroundError

  predicate HasGroup(s: State) {
    !s.phase.Idle? && !s.phase.MakingRoom? && 1 <= s.phase.end <= |s.queue|
  }

  /** Event `e` may happen in `s`. */
  predicate Enabled(s: State, e: Event) {
    match e
    case Arrive(w) => WellFormed(w)
    case Lead => s.phase.Idle? && s.queue != []
    case SwitchLog => s.phase.MakingRoom? && !s.bgError
    case RoomFails => s.phase.MakingRoom? && s.queue != []
    case RoomForNull => s.phase.MakingRoom? && !s.bgError && s.queue != [] && s.queue[0].batch.None? && s.switched
    case Build => s.phase.MakingRoom? && !s.bgError && s.queue != [] && s.queue[0].batch.Some? && AllWellFormed(s.queue)
    case LogAppended => s.phase.Logging? && HasGroup(s)
    case LogFailed => s.phase.Logging?
    case Synced => s.phase.Syncing? && s.log != []
    case SyncFailed => s.phase.Syncing? && HasGroup(s)
    case InsertOne => s.phase.Inserting? && HasGroup(s) && s.phase.count < |OpsOf(Group(s))|
    case Finish => HasGroup(s) && (s.phase.Ending? || (s.phase.Inserting? && s.phase.count == |OpsOf(Group(s))|))
    case BackgroundError => true
  }

  /** The records of the current log file become durable. */
  function SyncFile(log: seq<LogRecord>, file: nat): seq<LogRecord> {
    seq(|log|, i requires 0 <= i < |log| => if log[i].file == file then log[i].(synced := true) else log[i])
  }

  /** How many insertions the memtable holds. */
  function Held(s: State): nat {
    if s.older <= |s.applied| then |s.applied| - s.older else 0
  }

  /** How the writers of a finished group return, of which `d` tells what they share. */
  function Returned(ws: seq<Writer>, d: Done): (r: seq<Done>)
    ensures |r| == |ws|
  {
    seq(|ws|, i requires 0 <= i < |ws| => ReturnedAt(ws, d, i))
  }

  /** Only the first of a group led it. */
  function ReturnedAt(ws: seq<Writer>, d: Done, i: nat): Done
    requires i < |ws|
  {
    d.(writer := ws[i], first := d.first + |OpsOf(ws[..i])|, switched := d.switched && i == 0)
  }

  /** What the writers of the group that is about to return share. */
  function Share(s: State): Done
    requires Enabled(s, Finish)
  {
    Done(s.queue[0], s.phase.Inserting? || s.phase.ok, s.lastSequence + 1, true, if |s.log| > 0 then |s.log| - 1 else 0,
         s.switched, Held(s))
  }

  /** How a leader without a group returns. */
  function Alone(s: State, ok: bool): Done
    requires s.queue != []
  {
    Done(s.queue[0], ok, s.lastSequence + 1, false, 0, s.switched, Held(s))
  }

  /** The state after `e`. */
  function Apply(s: State, e: Event): State
    requires Enabled(s, e)
  {
    match e
    case Arrive(w) => s.(queue := s.queue + [w], arrivals := s.arrivals + [w])
    case Lead => s.(phase := MakingRoom, switched := false)
    case SwitchLog => s.(logFile := s.logFile + 1, older := |s.applied|, switched := true)
    case RoomFails => s.(phase := Idle, queue := s.queue[1..], done := s.done + [Alone(s, false)])
    case RoomForNull => s.(phase := Idle, queue := s.queue[1..], done := s.done + [Alone(s, true)])
    case Build => s.(phase := Logging(GroupEnd(s.queue)))
    case LogAppended =>
      s.(log := s.log + [LogRecord(s.lastSequence + 1, OpsOf(Group(s)), false, s.logFile)],
         phase := if s.queue[0].sync then Syncing(s.phase.end) else Inserting(s.phase.end, 0))
    case LogFailed => s.(phase := Ending(s.phase.end, false, false))
    case Synced => s.(log := SyncFile(s.log, s.logFile), phase := Inserting(s.phase.end, 0))
    case SyncFailed =>
      s.(phase := Ending(s.phase.end, false, true), lost := s.lost + Insertions(s.lastSequence + 1, OpsOf(Group(s))))
    case InsertOne =>
      s.(applied := s.applied + [Insertion(s.lastSequence + 1 + s.phase.count, OpsOf(Group(s))[s.phase.count])],
         phase := Inserting(s.phase.end, s.phase.count + 1))
    case Finish =>
      s.(phase := Idle, queue := s.queue[s.phase.end..], lastSequence := s.lastSequence + |OpsOf(Group(s))|,
         bgError := s.bgError || (s.phase.Ending? && s.phase.syncError),
         done := s.done + Returned(Group(s), Share(s)))
    case BackgroundError => s.(bgError := true)
  }

  // ----- what the finished writers account for -----------------------------

  /** Sequence numbers used by a finished writer. */
  function Used(d: Done): nat {
    if d.numbered then |BatchOps(d.writer)| else 0
  }

  function Spent(ds: seq<Done>): nat {
    if ds == [] then 0 else Spent(ds[..|ds| - 1]) + Used(ds[|ds| - 1])
  }

  /** The insertions of one finished writer. */
  function Effect(d: Done): seq<Insertion> {
    if d.ok then Insertions(d.first, BatchOps(d.writer)) else []
  }

  /** The insertions of all finished writers, in queue order. */
  function Effects(ds: seq<Done>): seq<Insertion> {
    if ds == [] then [] else Effects(ds[..|ds| - 1]) + Effect(ds[|ds| - 1])
  }

  function WritersOf(ds: seq<Done>): seq<Writer> {
    seq(|ds|, i requires 0 <= i < |ds| => ds[i].writer)
  }

  /** Each finished writer's numbers start where the previous ones ended. */
  ghost predicate Contiguous(base: nat, ds: seq<Done>) {
    forall i :: 0 <= i < |ds| ==> ds[i].first == base + 1 + Spent(ds[..i])
  }

  function LogInsertions(log: seq<LogRecord>): seq<Insertion> {
    if log == [] then []
    else LogInsertions(log[..|log| - 1]) + Insertions(log[|log| - 1].first, log[|log| - 1].ops)
  }

  /** A writer that returned OK is in its log record, which is durable if the writer asked for it. */
  ghost predicate Recorded(log: seq<LogRecord>, d: Done) {
    d.ok && d.writer.batch.Some? ==>
      && d.record < |log|
      && var r, ops := log[d.record], d.writer.batch.value;
         && r.first <= d.first && d.first + |ops| <= r.first + |r.ops|
         && r.ops[d.first - r.first..d.first - r.first + |ops|] == ops
         && (d.writer.sync ==> r.synced)
  }

  ghost predicate AllRecorded(log: seq<LogRecord>, ds: seq<Done>) {
    forall i :: 0 <= i < |ds| ==> Recorded(log, ds[i])
  }

  /** The insertions of the group in progress that were made. */
  function InProgress(s: State): seq<Insertion> {
    if s.phase.Inserting? && HasGroup(s) && s.phase.count <= |OpsOf(Group(s))|
    then Insertions(s.lastSequence + 1, OpsOf(Group(s)))[..s.phase.count] else []
  }

  /** The group in progress as logged so far. */
  function Logged(s: State): seq<Insertion> {
    if (s.phase.Syncing? || s.phase.Inserting?) && HasGroup(s)
    then Insertions(s.lastSequence + 1, OpsOf(Group(s))) else []
  }

  ghost predicate GroupInv(s: State) {
    if s.phase.Idle? then true
    else if s.phase.MakingRoom? then s.queue != []
    else
      && HasGroup(s) && s.queue[0].batch.Some?
      && (forall i :: 0 <= i < s.phase.end ==> s.queue[i].sync ==> s.queue[0].sync)
      && (s.phase.Ending? ==> !s.phase.ok)
      && (s.phase.Inserting? ==> s.phase.count <= |OpsOf(Group(s))|)
      && (s.phase.Syncing? || s.phase.Inserting? ==>
            && s.log != []
            && var r := s.log[|s.log| - 1];
               r.first == s.lastSequence + 1 && r.ops == OpsOf(Group(s))
               && (s.phase.Syncing? ==> r.file == s.logFile)
               && (s.phase.Inserting? && s.queue[0].sync ==> r.synced))
  }

  ghost predicate Inv(s: State) {
    && AllWellFormed(s.queue)
    && s.arrivals == WritersOf(s.done) + s.queue
    && Contiguous(s.base, s.done)
    && s.lastSequence == s.base + Spent(s.done)
    && s.applied == Effects(s.done) + InProgress(s)
    && GroupInv(s)
    && AllRecorded(s.log, s.done)
    && LogInsertions(s.log) == Effects(s.done) + s.lost + Logged(s)
    && (s.lost != [] ==> s.bgError || (s.phase.Ending? && s.phase.syncError))
    && (s.lost != [] ==> s.phase.Idle? || s.phase.MakingRoom? || (s.phase.Ending? && s.phase.syncError))
  }

  // ----- every step keeps the invariant ------------------------------------

  lemma {:induction false} InsertionsAppend(first: nat, a: seq<Op>, b: seq<Op>)
    ensures Insertions(first, a + b) == Insertions(first, a) + Insertions(first + |a|, b)
  {
  }

  lemma {:induction false} InsertionsEmpty(first: nat, ops: seq<Op>)
    requires ops == []
    ensures Insertions(first, ops) == []
  {
  }

  lemma {:induction false} SpentSnoc(ds: seq<Done>, d: Done)
    ensures Spent(ds + [d]) == Spent(ds) + Used(d)
    ensures Effects(ds + [d]) == Effects(ds) + Effect(d)
  {
    assert (ds + [d])[..|ds|] == ds;
  }

  lemma {:induction false} ReturnedPrefix(ws: seq<Writer>, d: Done)
    requires ws != []
    ensures var n := |ws| - 1; Returned(ws, d) == Returned(ws[..n], d) + [ReturnedAt(ws, d, n)]
  {
    var n := |ws| - 1;
    assert forall i :: 0 <= i < n ==> ws[..n][..i] == ws[..i];
  }

  /** A returning group uses up the numbers of its operations and, if it went well, has inserted them all. */
  lemma {:induction false} ReturnedAccounts(ds: seq<Done>, ws: seq<Writer>, d: Done)
    requires d.numbered
    ensures Spent(ds + Returned(ws, d)) == Spent(ds) + |OpsOf(ws)|
    ensures Effects(ds + Returned(ws, d)) == Effects(ds) + (if d.ok then Insertions(d.first, OpsOf(ws)) else [])
    decreases |ws|
  {
    hide Insertions, Effects, Spent, Returned;
    if ws == [] {
      InsertionsEmpty(d.first, OpsOf(ws));
      assert ds + Returned(ws, d) == ds;
    } else {
      var n := |ws| - 1;
      var last := ReturnedAt(ws, d, n);
      ReturnedAccounts(ds, ws[..n], d);
      ReturnedPrefix(ws, d);
      var before := ds + Returned(ws[..n], d);
      assert ds + Returned(ws, d) == before + [last];
      SpentSnoc(before, last);
      InsertionsAppend(d.first, OpsOf(ws[..n]), BatchOps(ws[n]));
      assert d.ok ==> Effects(ds) + Insertions(d.first, OpsOf(ws[..n])) + Effect(last)
                      == Effects(ds) + (Insertions(d.first, OpsOf(ws[..n])) + Effect(last));
    }
  }

  lemma {:induction false} ReturnedContiguous(base: nat, ds: seq<Done>, ws: seq<Writer>, d: Done)
    requires Contiguous(base, ds) && d.numbered && d.first == base + Spent(ds) + 1
    ensures Contiguous(base, ds + Returned(ws, d))
  {
    hide Spent, Effects, OpsOf, Insertions;
    var all := ds + Returned(ws, d);
    forall i | 0 <= i < |all| ensures all[i].first == base + 1 + Spent(all[..i]) {
      if i < |ds| {
        assert all[..i] == ds[..i];
      } else {
        var k := i - |ds|;
        assert all[..i] == ds + Returned(ws[..k], d) by {
          assert forall j :: 0 <= j < k ==> ws[..k][..j] == ws[..j];
        }
        ReturnedAccounts(ds, ws[..k], d);
      }
    }
  }

  lemma {:induction false} ContiguousSnoc(base: nat, ds: seq<Done>, d: Done)
    requires Contiguous(base, ds) && d.first == base + 1 + Spent(ds)
    ensures Contiguous(base, ds + [d])
  {
    var all := ds + [d];
    forall i | 0 <= i < |all| ensures all[i].first == base + 1 + Spent(all[..i]) {
      if i < |ds| {
        assert all[..i] == ds[..i];
      } else {
        assert all[..i] == ds;
      }
    }
  }

  lemma {:induction false} OpsOfPrefix(ws: seq<Writer>, i: nat)
    requires i <= |ws|
    ensures OpsOf(ws[..i]) <= OpsOf(ws)
    decreases |ws|
  {
    if i < |ws| {
      var n := |ws| - 1;
      assert ws[..n][..i] == ws[..i];
      OpsOfPrefix(ws[..n], i);
    } else {
      assert ws[..i] == ws;
    }
  }

  lemma {:induction false} ReturnedRecorded(log: seq<LogRecord>, ws: seq<Writer>, d: Done, i: nat)
    requires i < |ws|
    requires d.ok ==> && d.record < |log| && log[d.record].first == d.first && log[d.record].ops == OpsOf(ws)
                      && (ws[i].sync ==> log[d.record].synced)
    ensures Recorded(log, Returned(ws, d)[i])
  {
    OpsOfPrefix(ws, i + 1);
    OpsOfNext(ws, i);
    var lo := |OpsOf(ws[..i])|;
    var ops := BatchOps(ws[i]);
    assert OpsOf(ws)[..lo + |ops|] == OpsOf(ws[..i]) + ops;
    assert OpsOf(ws)[lo..lo + |ops|] == OpsOf(ws)[..lo + |ops|][lo..];
  }

  /** The log only grows, and durable records stay durable. */
  ghost predicate LogGrows(log: seq<LogRecord>, log': seq<LogRecord>) {
    |log| <= |log'| && forall i :: 0 <= i < |log| ==>
      log'[i].first == log[i].first && log'[i].ops == log[i].ops && (log[i].synced ==> log'[i].synced)
  }

  lemma {:induction false} StaysRecorded(log: seq<LogRecord>, log': seq<LogRecord>, ds: seq<Done>)
    requires LogGrows(log, log') && AllRecorded(log, ds)
    ensures AllRecorded(log', ds)
  {
    forall i | 0 <= i < |ds| ensures Recorded(log', ds[i]) {
      assert Recorded(log, ds[i]);
    }
  }

  lemma {:induction false} SyncKeepsInsertions(log: seq<LogRecord>, file: nat)
    ensures LogInsertions(SyncFile(log, file)) == LogInsertions(log)
  {
    if log != [] {
      var n := |log| - 1;
      SyncKeepsInsertions(log[..n], file);
      assert SyncFile(log, file)[..n] == SyncFile(log[..n], file);
    }
  }

  lemma {:induction false} LogSnoc(log: seq<LogRecord>, r: LogRecord)
    ensures LogInsertions(log + [r]) == LogInsertions(log) + Insertions(r.first, r.ops)
  {
    assert (log + [r])[..|log|] == log;
  }

  lemma {:induction false} ArriveKeeps(s: State, w: Writer)
    requires Inv(s) && Enabled(s, Arrive(w))
    ensures Inv(Apply(s, Arrive(w)))
  {
    hide Insertions, OpsOf, Effects, Spent, LogInsertions, AllRecorded, Contiguous, WellFormed, WritersOf;
    var t := Apply(s, Arrive(w));
    if HasGroup(s) {
      assert Group(t) == Group(s);
    }
  }

  /** Lead, SwitchLog, LogFailed and BackgroundError move no writer and no insertion. */
  lemma {:induction false} QuietKeeps(s: State, e: Event)
    requires Inv(s) && Enabled(s, e) && (e.Lead? || e.SwitchLog? || e.LogFailed? || e.BackgroundError?)
    ensures Inv(Apply(s, e))
  {
    hide Insertions, OpsOf, Effects, Spent, LogInsertions, AllRecorded, Contiguous, WellFormed, WritersOf;
    var t := Apply(s, e);
    if HasGroup(s) {
      assert Group(t) == Group(s);
    }
  }

  lemma {:induction false} DropFront(ds: seq<Done>, queue: seq<Writer>, d: Done)
    requires queue != [] && d.writer == queue[0]
    ensures WritersOf(ds + [d]) + queue[1..] == WritersOf(ds) + queue
  {
    assert WritersOf(ds + [d]) == WritersOf(ds) + [queue[0]];
  }

  /** The front writer returns without a group: no room was made, or it had no batch. */
  lemma {:induction false} AloneKeeps(s: State, e: Event)
    requires Inv(s) && Enabled(s, e) && (e.RoomFails? || e.RoomForNull?)
    ensures Inv(Apply(s, e))
  {
    hide Insertions, OpsOf, Effects, Spent, LogInsertions, Contiguous, WellFormed, WritersOf;
    var d := Alone(s, e.RoomForNull?);
    SpentSnoc(s.done, d);
    ContiguousSnoc(s.base, s.done, d);
    DropFront(s.done, s.queue, d);
    assert Effect(d) == [];
    assert Recorded(s.log, d);
  }

  lemma {:induction false} BuildKeeps(s: State)
    requires Inv(s) && Enabled(s, Build)
    ensures Inv(Apply(s, Build))
  {
    GroupSync(s.queue);
    hide Insertions, OpsOf, Effects, Spent, LogInsertions, AllRecorded, Contiguous, AllWellFormed, WritersOf, GroupEnd;
    assert GroupInv(Apply(s, Build)) && Logged(Apply(s, Build)) == Logged(s)
           && InProgress(Apply(s, Build)) == InProgress(s);
    hide GroupInv, Logged, InProgress;
  }

  lemma {:induction false} GroupSync(queue: seq<Writer>)
    requires queue != [] && queue[0].batch.Some? && AllWellFormed(queue)
    ensures forall i :: 0 <= i < GroupEnd(queue) ==> queue[i].sync ==> queue[0].sync
  {
    var size := ByteSize(queue[0].batch.value);
    forall i | 0 <= i < GroupEnd(queue) ensures queue[i].sync ==> queue[0].sync {
      if i > 0 {
        SyncNeedsSyncLeader(queue, 1, size, SizeLimit(size), i);
      }
    }
  }

  lemma {:induction false} LogAppendedKeeps(s: State)
    requires Inv(s) && Enabled(s, LogAppended)
    ensures Inv(Apply(s, LogAppended))
  {
    hide Insertions, OpsOf, Effects, Spent, LogInsertions, AllRecorded, Contiguous, WellFormed, WritersOf;
    var t := Apply(s, LogAppended);
    var r := LogRecord(s.lastSequence + 1, OpsOf(Group(s)), false, s.logFile);
    assert Group(t) == Group(s);
    LogSnoc(s.log, r);
    StaysRecorded(s.log, t.log, s.done);
    assert s.lost == [];
    assert Effects(s.done) + s.lost + Logged(s) + Insertions(r.first, r.ops) == Effects(s.done) + s.lost + Logged(t);
  }

  lemma {:induction false} SyncedKeeps(s: State)
    requires Inv(s) && Enabled(s, Synced)
    ensures Inv(Apply(s, Synced))
  {
    hide Insertions, OpsOf, Effects, Spent, LogInsertions, AllRecorded, Contiguous, WellFormed, WritersOf;
    var t := Apply(s, Synced);
    assert Group(t) == Group(s);
    SyncKeepsInsertions(s.log, s.logFile);
    StaysRecorded(s.log, t.log, s.done);
  }

  lemma {:induction false} SyncFailedKeeps(s: State)
    requires Inv(s) && Enabled(s, SyncFailed)
    ensures Inv(Apply(s, SyncFailed))
  {
    hide Insertions, OpsOf, Effects, Spent, LogInsertions, AllRecorded, Contiguous, WellFormed, WritersOf;
    var t := Apply(s, SyncFailed);
    assert Group(t) == Group(s);
  }

  /** One more insertion of the group in progress is the next of its insertions. */
  lemma {:induction false} InsertOneApplies(s: State)
    requires Inv(s) && Enabled(s, InsertOne)
    ensures var t := Apply(s, InsertOne); t.applied == Effects(s.done) + InProgress(t) && Logged(t) == Logged(s)
  {
    hide OpsOf, Effects, Spent, LogInsertions, AllRecorded, Contiguous, AllWellFormed, WritersOf;
    var t := Apply(s, InsertOne);
    assert Group(t) == Group(s);
    var all, n := Insertions(s.lastSequence + 1, OpsOf(Group(s))), s.phase.count;
    assert all[..n + 1] == all[..n] + [all[n]];
  }

  lemma {:induction false} InsertOneKeeps(s: State)
    requires Inv(s) && Enabled(s, InsertOne)
    ensures Inv(Apply(s, InsertOne))
  {
    hide Insertions, OpsOf, Effects, Spent, LogInsertions, AllRecorded, Contiguous, AllWellFormed, WritersOf,
      InProgress,
      Logged;
    InsertOneApplies(s);
  }

  lemma {:induction false} FinishRecords(s: State)
    requires Inv(s) && Enabled(s, Finish)
    ensures var t := Apply(s, Finish);
            AllRecorded(t.log, t.done) && Contiguous(t.base, t.done)
  {
    hide Insertions, OpsOf, Effects, Spent, LogInsertions, Contiguous, WellFormed, WritersOf;
    var t := Apply(s, Finish);
    ReturnedContiguous(s.base, s.done, Group(s), Share(s));
    forall i | 0 <= i < |t.done| ensures Recorded(t.log, t.done[i]) {
      if i < |s.done| {
        assert Recorded(s.log, s.done[i]);
      } else {
        ReturnedRecorded(s.log, Group(s), Share(s), i - |s.done|);
      }
    }
  }

  lemma {:induction false} ReturnedWriters(ws: seq<Writer>, d: Done)
    ensures WritersOf(Returned(ws, d)) == ws
  {
  }

  /** Of a group that went well all insertions have been made and logged. */
  lemma {:induction false} FinishAccounts(s: State)
    requires Inv(s) && Enabled(s, Finish)
    ensures var d := Share(s);
            var effect := if d.ok then Insertions(d.first, OpsOf(Group(s))) else [];
            && s.applied == Effects(s.done) + effect
            && LogInsertions(s.log) == Effects(s.done) + effect + s.lost && (d.ok ==> s.lost == [])
  {
    hide Insertions, OpsOf, Effects, Spent, LogInsertions, AllRecorded, Contiguous, AllWellFormed, WritersOf;
    var all := Insertions(s.lastSequence + 1, OpsOf(Group(s)));
    assert all[..|all|] == all;
  }

  lemma {:induction false} FinishQueue(s: State)
    requires Inv(s) && Enabled(s, Finish)
    ensures var t := Apply(s, Finish);
            t.arrivals == WritersOf(t.done) + t.queue && AllWellFormed(t.queue)
  {
    hide Insertions, OpsOf, Effects, Spent, LogInsertions, AllRecorded, Contiguous, WellFormed, Returned, InProgress,
      Logged, GroupInv;
    var t, ws, d := Apply(s, Finish), Group(s), Share(s);
    ReturnedWriters(ws, d);
    assert WritersOf(t.done) == WritersOf(s.done) + ws;
    assert s.queue == ws + t.queue;
  }

  lemma {:induction false} FinishKeeps(s: State)
    requires Inv(s) && Enabled(s, Finish)
    ensures Inv(Apply(s, Finish))
  {
    hide Insertions, OpsOf, Effects, Spent, LogInsertions, AllRecorded, Contiguous, AllWellFormed, WritersOf, Returned,
      InProgress, Logged;
    FinishQueue(s);
    FinishRecords(s);
    FinishAccounts(s);
    ReturnedAccounts(s.done, Group(s), Share(s));
    NothingInProgress(Apply(s, Finish));
  }

  lemma {:induction false} NothingInProgress(s: State)
    requires s.phase.Idle?
    ensures InProgress(s) == [] && Logged(s) == []
  {
  }

  lemma {:induction false} StepKeepsInv(s: State, e: Event)
    requires Inv(s) && Enabled(s, e)
    ensures Inv(Apply(s, e))
  {
    hide Inv, Apply;
    match e
    case Arrive(w) => ArriveKeeps(s, w);
    case Lead => QuietKeeps(s, e);
    case SwitchLog => QuietKeeps(s, e);
    case RoomFails => AloneKeeps(s, e);
    case RoomForNull => AloneKeeps(s, e);
    case Build => BuildKeeps(s);
    case LogAppended => LogAppendedKeeps(s);
    case LogFailed => QuietKeeps(s, e);
    case Synced => SyncedKeeps(s);
    case SyncFailed => SyncFailedKeeps(s);
    case InsertOne => InsertOneKeeps(s);
    case Finish => FinishKeeps(s);
    case BackgroundError => QuietKeeps(s, e);
  }

  // ----- every run ---------------------------------------------------------

  /** The events `es` lead from `s` to `t`. */
  predicate Steps(s: State, es: seq<Event>, t: State)
    decreases |es|
  {
    if es == [] then s == t
    else Enabled(s, es[0]) && Steps(Apply(s, es[0]), es[1..], t)
  }

  lemma {:induction false} InitInv(s: State)
    requires Init(s)
    ensures Inv(s)
  {
  }

  lemma {:induction false} RunKeepsInv(s: State, es: seq<Event>, t: State)
    requires Inv(s) && Steps(s, es, t)
    ensures Inv(t)
    decreases |es|
  {
    hide Inv, Apply;
    if es != [] {
      StepKeepsInv(s, es[0]);
      RunKeepsInv(Apply(s, es[0]), es[1..], t);
    }
  }

  /** The insertions a reader at sequence `n` sees. */
  function VisibleTo(applied: seq<Insertion>, n: nat): seq<Insertion> {
    if applied == [] then []
    else
      var last := applied[|applied| - 1];
      VisibleTo(applied[..|applied| - 1], n) + (if last.sequence <= n then [last] else [])
  }

  ghost predicate AllAbove(applied: seq<Insertion>, n: nat) {
    forall i :: 0 <= i < |applied| ==> applied[i].sequence > n
  }

  ghost predicate AllUpTo(applied: seq<Insertion>, n: nat) {
    forall i :: 0 <= i < |applied| ==> applied[i].sequence <= n
  }

  lemma {:induction false} VisibleSkips(a: seq<Insertion>, b: seq<Insertion>, n: nat)
    requires AllAbove(b, n)
    ensures VisibleTo(a + b, n) == VisibleTo(a, n)
    decreases |b|
  {
    if b == [] {
      assert a + b == a;
    } else {
      VisibleSkips(a, b[..|b| - 1], n);
      assert (a + b)[..|a + b| - 1] == a + b[..|b| - 1];
    }
  }

  lemma {:induction false} VisibleAll(a: seq<Insertion>, n: nat)
    requires AllUpTo(a, n)
    ensures VisibleTo(a, n) == a
  {
    if a != [] {
      var last := |a| - 1;
      assert a[last].sequence <= n;
      VisibleAll(a[..last], n);
      assert a == a[..last] + [a[last]];
    }
  }

  ghost predicate Rising(applied: seq<Insertion>) {
    forall i, j :: 0 <= i < j < |applied| ==> applied[i].sequence < applied[j].sequence
  }

  lemma {:induction false} RangeStep(before: seq<Insertion>, more: seq<Insertion>, base: nat, first: nat, end: nat)
    requires first > base && AllAbove(before, base) && AllUpTo(before, first - 1) && Rising(before)
    requires |more| <= end + 1 - first && forall i :: 0 <= i < |more| ==> more[i].sequence == first + i
    requires end >= first - 1
    ensures AllAbove(before + more, base) && AllUpTo(before + more, end) && Rising(before + more)
  {
    var all := before + more;
    forall i, j | 0 <= i < j < |all| ensures all[i].sequence < all[j].sequence {
      if i < |before| <= j {
        assert before[i].sequence <= first - 1;
      }
    }
  }

  lemma {:induction false} ContiguousPrefix(base: nat, ds: seq<Done>)
    requires Contiguous(base, ds) && ds != []
    ensures var n := |ds| - 1;
            Contiguous(base, ds[..n]) && ds[n].first == base + 1 + Spent(ds[..n])
            && Spent(ds) == Spent(ds[..n]) + Used(ds[n])
  {
    var n := |ds| - 1;
    assert forall i :: 0 <= i < n ==> ds[..n][..i] == ds[..i];
  }

  /** The effects of finished writers use rising numbers within what was spent. */
  lemma {:induction false} EffectsRange(base: nat, ds: seq<Done>)
    requires Contiguous(base, ds)
    requires forall i :: 0 <= i < |ds| ==> ds[i].ok && ds[i].writer.batch.Some? ==> ds[i].numbered
    ensures AllAbove(Effects(ds), base) && AllUpTo(Effects(ds), base + Spent(ds)) && Rising(Effects(ds))
  {
    hide Contiguous;
    if ds != [] {
      var n := |ds| - 1;
      ContiguousPrefix(base, ds);
      hide AllAbove, AllUpTo, Rising, Spent;
      EffectsRange(base, ds[..n]);
      RangeStep(Effects(ds[..n]), Effect(ds[n]), base, ds[n].first, base + Spent(ds));
    } else {
      assert Effects(ds) == [];
    }
  }

  lemma {:induction false} InvAccounts(s: State)
    requires Inv(s)
    ensures Contiguous(s.base, s.done) && s.lastSequence == s.base + Spent(s.done)
    ensures s.applied == Effects(s.done) + InProgress(s)
    ensures forall i :: 0 <= i < |InProgress(s)| ==> InProgress(s)[i].sequence == s.lastSequence + 1 + i
  {
    hide Contiguous, AllRecorded, WellFormed;
  }

  /** A reader at the last sequence sees finished groups whole and nothing of the one in progress. */
  lemma {:induction false} GroupsAreAtomic(s: State)
    requires Inv(s) && NumberedIfOk(s)
    ensures VisibleTo(s.applied, s.lastSequence) == Effects(s.done)
    ensures Rising(s.applied)
  {
    hide Inv, Contiguous, InProgress, Effects, Spent, VisibleTo, Rising, AllUpTo;
    InvAccounts(s);
    EffectsRange(s.base, s.done);
    VisibleAll(Effects(s.done), s.lastSequence);
    VisibleSkips(Effects(s.done), InProgress(s), s.lastSequence);
    RangeStep(Effects(s.done), InProgress(s), s.base, s.lastSequence + 1, s.lastSequence + |InProgress(s)|);
  }

  /** Only a null batch returns OK without having been numbered. */
  ghost predicate NumberedIfOk(s: State) {
    forall i :: 0 <= i < |s.done| ==> s.done[i].ok && s.done[i].writer.batch.Some? ==> s.done[i].numbered
  }

  lemma {:induction false} StepKeepsNumbered(s: State, e: Event)
    requires NumberedIfOk(s) && Enabled(s, e)
    ensures NumberedIfOk(Apply(s, e))
  {
    hide OpsOf, GroupEnd, SyncFile;
  }

  lemma {:induction false} RunKeepsNumbered(s: State, es: seq<Event>, t: State)
    requires NumberedIfOk(s) && Steps(s, es, t)
    ensures NumberedIfOk(t)
    decreases |es|
  {
    hide Apply, Enabled, NumberedIfOk;
    if es != [] {
      StepKeepsNumbered(s, es[0]);
      RunKeepsNumbered(Apply(s, es[0]), es[1..], t);
    }
  }

  /** One step only adds insertions, all above the last sequence. */
  lemma {:induction false} StepAdds(s: State, e: Event)
    requires Enabled(s, e)
    ensures var t := Apply(s, e);
            && s.lastSequence <= t.lastSequence && s.done <= t.done && s.arrivals <= t.arrivals
            && VisibleTo(t.applied, s.lastSequence) == VisibleTo(s.applied, s.lastSequence)
            && forall n: nat :: n <= s.lastSequence ==> VisibleTo(t.applied, n) == VisibleTo(s.applied, n)
  {
    hide OpsOf, GroupEnd, SyncFile, VisibleTo;
    if e.InsertOne? {
      var more := [Insertion(s.lastSequence + 1 + s.phase.count, OpsOf(Group(s))[s.phase.count])];
      forall n: nat | n <= s.lastSequence ensures VisibleTo(s.applied + more, n) == VisibleTo(s.applied, n) {
        VisibleSkips(s.applied, more, n);
      }
    }
  }

  /** What a snapshot sees never changes, and neither does how a writer returned. */
  lemma {:induction false} SnapshotsAreStable(s: State, es: seq<Event>, t: State, n: nat)
    requires Steps(s, es, t) && n <= s.lastSequence
    ensures s.lastSequence <= t.lastSequence && s.done <= t.done && s.arrivals <= t.arrivals
    ensures VisibleTo(t.applied, n) == VisibleTo(s.applied, n)
    decreases |es|
  {
    hide Apply, VisibleTo;
    if es != [] {
      StepAdds(s, es[0]);
      SnapshotsAreStable(Apply(s, es[0]), es[1..], t, n);
    }
  }

  /** In every run, over every interleaving: the writers that returned and those that wait are the
      arrivals in order; the numbers of the returned ones are contiguous from the first on; a reader at
      the last sequence sees exactly the batches that returned OK, each once, in queue order. */
  lemma {:induction false} EveryRunCommitsInOrder(s: State, es: seq<Event>, t: State)
    requires Init(s) && Steps(s, es, t)
    ensures t.arrivals == WritersOf(t.done) + t.queue
    ensures Contiguous(s.base, t.done) && t.lastSequence == s.base + Spent(t.done)
    ensures VisibleTo(t.applied, t.lastSequence) == Effects(t.done) && Rising(t.applied)
    ensures !t.bgError && t.phase.Idle? ==> LogInsertions(t.log) == t.applied == Effects(t.done)
  {
    InitInv(s);
    RunKeepsInv(s, es, t);
    RunKeepsNumbered(s, es, t);
    BaseIsConstant(s, es, t);
    GroupsAreAtomic(t);
  }

  lemma {:induction false} BaseIsConstant(s: State, es: seq<Event>, t: State)
    requires Steps(s, es, t)
    ensures t.base == s.base
    decreases |es|
  {
    if es != [] {
      BaseIsConstant(Apply(s, es[0]), es[1..], t);
    }
  }

  /** Operation `k` of a batch whose writer returned OK has been inserted under its own number, and nothing
      else has been. */
  lemma {:induction false} EachOperationOnce(s: State, es: seq<Event>, t: State, i: nat, k: nat) returns (at: nat)
    requires Init(s) && Steps(s, es, t)
    requires i < |t.done| && t.done[i].ok && k < |BatchOps(t.done[i].writer)|
    ensures at < |t.applied| && t.applied[at] == Insertion(t.done[i].first + k, BatchOps(t.done[i].writer)[k])
    ensures forall j :: 0 <= j < |t.applied| && j != at ==> t.applied[j].sequence != t.applied[at].sequence
  {
    EveryRunCommitsInOrder(s, es, t);
    RunKeepsInv(s, es, t) by { InitInv(s); }
    at := EffectAt(t.done, i, k);
    assert t.applied[at] == Effects(t.done)[at];
    forall j | 0 <= j < |t.applied| && j != at ensures t.applied[j].sequence != t.applied[at].sequence {
      if j < at {
        assert t.applied[j].sequence < t.applied[at].sequence;
      } else {
        assert t.applied[at].sequence < t.applied[j].sequence;
      }
    }
  }

  lemma {:induction false} EffectAt(ds: seq<Done>, i: nat, k: nat) returns (at: nat)
    requires i < |ds| && ds[i].ok && k < |BatchOps(ds[i].writer)|
    ensures at < |Effects(ds)| && Effects(ds)[at] == Insertion(ds[i].first + k, BatchOps(ds[i].writer)[k])
    decreases |ds|
  {
    var n := |ds| - 1;
    if i < n {
      at := EffectAt(ds[..n], i, k);
    } else {
      at := |Effects(ds[..n])| + k;
      assert Effect(ds[n])[k] == Insertion(ds[i].first + k, BatchOps(ds[i].writer)[k]);
    }
  }

  /** A sync write that returned OK lies whole in one durable log record. */
  lemma {:induction false} SyncWritesAreDurable(s: State, es: seq<Event>, t: State, i: nat)
    requires Init(s) && Steps(s, es, t)
    requires i < |t.done| && t.done[i].ok && t.done[i].writer.batch.Some?
    ensures t.done[i].record < |t.log|
    ensures var d, r := t.done[i], t.log[t.done[i].record];
            var ops := d.writer.batch.value;
            && r.first <= d.first && d.first + |ops| <= r.first + |r.ops|
            && r.ops[d.first - r.first..d.first - r.first + |ops|] == ops
            && (d.writer.sync ==> r.synced)
  {
    hide Inv, Init, Steps;
    InitInv(s);
    RunKeepsInv(s, es, t);
    InvRecords(t, i);
  }

  lemma {:induction false} InvRecords(s: State, i: nat)
    requires Inv(s) && i < |s.done|
    ensures Recorded(s.log, s.done[i])
  {
  }

  // ----- the switch a null batch asks for ------------------------------------

  /** A null batch that returned OK either led, had the memtable switched and left an empty one, or it went with a
      group, whose operations are all still in the memtable. */
  ghost predicate Answered(log: seq<LogRecord>, d: Done) {
    d.ok && d.writer.batch.None? ==>
      && (d.switched <==> !d.numbered)
      && if d.numbered then d.record < |log| && |log[d.record].ops| <= d.held else d.held == 0
  }

  ghost predicate AllAnswered(log: seq<LogRecord>, ds: seq<Done>) {
    forall i :: 0 <= i < |ds| ==> Answered(log, ds[i])
  }

  ghost predicate SwitchInv(s: State) {
    && s.older <= |s.applied|
    && (s.phase.MakingRoom? && s.switched ==> s.older == |s.applied|)
    && (s.phase.Inserting? ==> s.older + s.phase.count <= |s.applied|)
    && AllAnswered(s.log, s.done)
  }

  lemma {:induction false} StaysAnswered(log: seq<LogRecord>, log': seq<LogRecord>, ds: seq<Done>)
    requires LogGrows(log, log') && AllAnswered(log, ds)
    ensures AllAnswered(log', ds)
  {
    forall i | 0 <= i < |ds| ensures Answered(log', ds[i]) {
      assert Answered(log, ds[i]);
    }
  }

  lemma {:induction false} GroupAnswered(s: State)
    requires Inv(s) && SwitchInv(s) && Enabled(s, Finish)
    ensures AllAnswered(s.log, s.done + Returned(Group(s), Share(s)))
  {
    hide Insertions, OpsOf, Effects, Spent, LogInsertions, Contiguous, AllWellFormed, WritersOf, AllRecorded;
    var all := s.done + Returned(Group(s), Share(s));
    forall i | 0 <= i < |all| ensures Answered(s.log, all[i]) {
      if i < |s.done| {
        assert Answered(s.log, s.done[i]);
      } else if i == |s.done| {
        assert all[i].writer == s.queue[0];
      } else if all[i].ok {
        assert s.phase.Inserting?;
      }
    }
  }

  lemma {:induction false} AloneAnswered(s: State, e: Event)
    requires Inv(s) && SwitchInv(s) && Enabled(s, e) && (e.RoomFails? || e.RoomForNull?)
    ensures AllAnswered(s.log, s.done + [Alone(s, e.RoomForNull?)])
  {
    hide Inv;
    var d := Alone(s, e.RoomForNull?);
    assert Answered(s.log, d);
  }

  lemma {:induction false} StepKeepsSwitch(s: State, e: Event)
    requires Inv(s) && SwitchInv(s) && Enabled(s, e)
    ensures SwitchInv(Apply(s, e))
  {
    hide Inv, OpsOf, GroupEnd, AllAnswered, Returned, Share, Alone;
    if e.Finish? {
      GroupAnswered(s);
    } else if e.RoomFails? || e.RoomForNull? {
      AloneAnswered(s, e);
    } else {
      LogOnlyGrows(s, e);
      StaysAnswered(s.log, Apply(s, e).log, s.done);
    }
  }

  lemma {:induction false} LogOnlyGrows(s: State, e: Event)
    requires Enabled(s, e)
    ensures LogGrows(s.log, Apply(s, e).log)
  {
    hide OpsOf, GroupEnd, Returned, Share, Alone;
  }

  lemma {:induction false} RunKeepsSwitch(s: State, es: seq<Event>, t: State)
    requires Inv(s) && SwitchInv(s) && Steps(s, es, t)
    ensures SwitchInv(t)
    decreases |es|
  {
    hide Inv, SwitchInv, Apply;
    if es != [] {
      StepKeepsInv(s, es[0]);
      StepKeepsSwitch(s, es[0]);
      RunKeepsSwitch(Apply(s, es[0]), es[1..], t);
    }
  }

  /** In every run: a null-batch writer that returned OK had the switch it asked for if and only if it led. Then no
      insertion made before was left in the memtable; else those of its group were. */
  lemma {:induction false} NullBatchSwitchesIffItLed(s: State, es: seq<Event>, t: State, i: nat)
    requires Init(s) && Steps(s, es, t)
    requires i < |t.done| && t.done[i].ok && t.done[i].writer.batch.None?
    ensures t.done[i].switched <==> !t.done[i].numbered
    ensures !t.done[i].numbered ==> t.done[i].held == 0
    ensures t.done[i].numbered ==> t.done[i].record < |t.log| && |t.log[t.done[i].record].ops| <= t.done[i].held
  {
    InitInv(s);
    hide Inv, Steps;
    RunKeepsSwitch(s, es, t);
    assert Answered(t.log, t.done[i]);
  }
}
