/**
 * Concurrent writers: they queue up, the one in front commits a group of batches for itself and the ones behind it.
 * The state changes only where a writer holds the mutex or, as the leader, may work without it.
 */
module GroupCommit {
  import opened ByteOrder
  import opened DbFormat
  import opened Coding
  import opened KeyOrder
  import opened Database
  import opened WriteBatches

  /** A call of DBImpl::Write; no batch asks for a compaction of the memtable. */
  datatype Writer = Writer(id: nat, batch: Option<seq<WriteOp>>, sync: bool)

  function OpsOf(w: Writer): seq<WriteOp> {
    if w.batch.Some? then w.batch.value else []
  }

  function ByteSize(w: Writer): nat {
    if w.batch.Some? then HEADER + |EncodeOps(w.batch.value, |w.batch.value|)| else 0
  }

  // ----- The group -----

  /** A small write in front keeps its group small. */
  function MaxSize(first: Writer): nat {
    if ByteSize(first) <= 0x2_0000 then ByteSize(first) + 0x2_0000 else 0x10_0000
  }

  /** Writer `i` may join a group that has `size` bytes so far. */
  predicate MayJoin(ws: seq<Writer>, i: nat, size: nat)
    requires 0 < i < |ws|
  {
    (ws[i].sync ==> ws[0].sync) && (ws[i].batch.Some? ==> size + ByteSize(ws[i]) <= MaxSize(ws[0]))
  }

  function GroupFrom(ws: seq<Writer>, i: nat, size: nat): (n: nat)
    requires 0 < i <= |ws|
    ensures i <= n <= |ws|
    decreases |ws| - i
  {
    if i < |ws| && MayJoin(ws, i, size) then GroupFrom(ws, i + 1, size + ByteSize(ws[i])) else i
  }

  /** How many writers the leader commits. */
  function GroupSize(ws: seq<Writer>): (n: nat)
    requires ws != []
    ensures 1 <= n <= |ws|
  {
    GroupFrom(ws, 1, ByteSize(ws[0]))
  }

  /** The operations of the first `n` writers. */
  function GroupOps(ws: seq<Writer>, n: nat): seq<WriteOp>
    requires n <= |ws|
  {
    if n == 0 then [] else Joined(GroupOps(ws, n - 1), OpsOf(ws[n - 1]))
  }

  function GroupBytes(ws: seq<Writer>, n: nat): nat
    requires n <= |ws|
  {
    if n == 0 then 0 else GroupBytes(ws, n - 1) + ByteSize(ws[n - 1])
  }

  lemma {:induction false} GroupFromIsRight(ws: seq<Writer>, i: nat, size: nat, j: nat)
    requires 0 < i <= |ws| && size == GroupBytes(ws, i) && i <= j <= GroupFrom(ws, i, size)
    ensures i < j ==> GroupBytes(ws, j) <= MaxSize(ws[0]) || GroupBytes(ws, j) == GroupBytes(ws, i)
    ensures j < GroupFrom(ws, i, size) ==> MayJoin(ws, j, GroupBytes(ws, j))
    ensures j == GroupFrom(ws, i, size) < |ws| ==> !MayJoin(ws, j, GroupBytes(ws, j))
    decreases |ws| - i
  {
    hide EncodeOps, MaxSize;
    if i < |ws| && MayJoin(ws, i, size) {
      if i < j {
        GroupFromIsRight(ws, i + 1, size + ByteSize(ws[i]), j);
      }
    }
  }

  /** No sync writer rides on a leader that does not sync; and the group stops only where the next writer may not join. */
  lemma {:induction false} GroupIsRight(ws: seq<Writer>)
    requires ws != []
    ensures forall j :: 0 <= j < GroupSize(ws) && ws[j].sync ==> ws[0].sync
    ensures GroupSize(ws) < |ws| ==> !MayJoin(ws, GroupSize(ws), GroupBytes(ws, GroupSize(ws)))
    ensures GroupBytes(ws, GroupSize(ws)) <= MaxSize(ws[0]) || GroupBytes(ws, GroupSize(ws)) == ByteSize(ws[0])
  {
    assert GroupBytes(ws, 0) == 0;
    forall j | 0 <= j < GroupSize(ws) && ws[j].sync
      ensures ws[0].sync
    {
      if j > 0 { GroupFromIsRight(ws, 1, ByteSize(ws[0]), j); }
    }
    GroupFromIsRight(ws, 1, ByteSize(ws[0]), GroupSize(ws));
  }

  /** The writer in the queue: its batch is an object of the caller. */
  datatype PendingWriter = PendingWriter(batch: WriteBatch?, sync: bool)

  ghost predicate Represents(p: PendingWriter, w: Writer)
    reads p.batch
  {
    && p.sync == w.sync && (p.batch == null <==> w.batch.None?)
    && (p.batch != null ==> p.batch.Valid() && p.batch.ops == w.batch.value)
  }

  ghost predicate RepresentAll(ps: seq<PendingWriter>, ws: seq<Writer>)
    reads set p | p in ps :: p.batch
  {
    |ps| == |ws| && forall i :: 0 <= i < |ps| ==> Represents(ps[i], ws[i])
  }

  /** The batches of the group end up in the batch of the first writer, or in `tmpBatch` if there are others. */
  method BuildBatchGroup(writers: seq<PendingWriter>, tmpBatch: WriteBatch, ghost ws: seq<Writer>)
    returns (result: WriteBatch, lastWriter: nat)
    requires RepresentAll(writers, ws) && writers != [] && writers[0].batch != null
    requires tmpBatch.Valid() && tmpBatch.ops == [] && forall p :: p in writers ==> p.batch != tmpBatch
    modifies tmpBatch
    ensures lastWriter + 1 == GroupSize(ws)
    ensures result.Valid() && result.ops == GroupOps(ws, lastWriter + 1)
    ensures result == tmpBatch || result == writers[0].batch
    ensures RepresentAll(writers, ws)
  {
    hide ByteSize, WriteBatch.Valid;
    var first := writers[0];
    result := first.batch;
    var size := |first.batch.rep|;
    BatchSize(first, ws[0]);
    var maxSize := 0x10_0000;
    if size <= 0x2_0000 {
      maxSize := size + 0x2_0000;
    }
    lastWriter := 0;
    assert GroupOps(ws, 0) == [];
    var i := 1;
    while i < |writers|
      invariant 1 <= i <= |writers| && lastWriter == i - 1 && maxSize == MaxSize(ws[0]) && size == GroupBytes(ws, i)
      invariant GroupSize(ws) == GroupFrom(ws, i, size)
      invariant RepresentAll(writers, ws) && result.Valid() && result.ops == GroupOps(ws, i)
      invariant if result == first.batch then tmpBatch.Valid() && tmpBatch.ops == [] else result == tmpBatch
    {
      var w := writers[i];
      assert w in writers && Represents(w, ws[i]);
      if w.sync && !first.sync {
        break;
      }
      if w.batch != null {
        BatchSize(w, ws[i]);
        size := size + |w.batch.rep|;
        if size > maxSize {
          break;
        }
        if result == first.batch {
          result := tmpBatch;
          result.Append(first.batch);
        }
        result.Append(w.batch);
      } else {
        NothingJoins(ws, i);
      }
      lastWriter := i;
      i := i + 1;
    }
  }

  lemma {:induction false} NothingJoins(ws: seq<Writer>, i: nat)
    requires i < |ws| && ws[i].batch.None?
    ensures GroupOps(ws, i + 1) == GroupOps(ws, i) && ByteSize(ws[i]) == 0
  {
    JoinedNothing(GroupOps(ws, i));
  }

  lemma {:induction false} BatchSize(p: PendingWriter, w: Writer)
    requires Represents(p, w) && p.batch != null
    ensures |p.batch.rep| == ByteSize(w)
  {
  }

  // ----- The state of all writers -----

  /** A record of the log, with the writers whose batches it holds. */
  datatype Record = Record(sequence: nat, ops: seq<WriteOp>, members: seq<Writer>)

  datatype Stage = Built | Logged | Synced

  /** The writer in front at work on a group of `count` writers. */
  datatype Leader = Leader(count: nat, ops: seq<WriteOp>, inserted: nat, stage: Stage)

  /**
   * `db` is the database as of the last sequence number that readers see, `mem` the memtable as it is,
   * `log` the log file of the memtable and `immLog` that of the immutable memtable, each with its number of synced records.
   * `started` is the sequence number before the first record of the log.
   */
  datatype State = State(
    db: DbState,
    mem: seq<Entry>,
    queue: seq<Writer>,
    leader: Option<Leader>,
    log: seq<Record>,
    durable: nat,
    started: nat,
    immLog: seq<Record>,
    immDurable: nat,
    immStarted: nat,
    arrived: seq<Writer>,
    completed: seq<Writer>)

  datatype Step =
    | Arrive(w: Writer)
    | Lead                       // BuildBatchGroup and SetSequence, then the mutex is released
    | AppendLog
    | SyncLog
    | InsertOne                  // one operation of the group into the memtable
    | Complete                   // SetLastSequence, and the whole group leaves the queue
    | PassEmpty                  // a writer without batch leaves alone
    | Background(a: Action)      // everything else that goes on in the database

  ghost predicate Ready(s: State, step: Step) {
    match step
    case Arrive(w) => (forall x :: x in s.arrived ==> x.id != w.id) && ByteSize(w) < 0x1_0000_0000 && forall op :: op in OpsOf(w) ==> OpFits(op)
    case Lead =>
      && s.leader.None? && s.queue != [] && s.queue[0].batch.Some?
      && Enabled(s.db, Write(GroupOps(s.queue, GroupSize(s.queue))))
    case AppendLog => s.leader.Some? && s.leader.value.stage.Built?
    case SyncLog => s.leader.Some? && s.leader.value.stage.Logged? && s.queue != [] && s.queue[0].sync
    case InsertOne => MayInsert(s) && s.leader.value.inserted < |s.leader.value.ops|
    case Complete => MayInsert(s) && s.leader.value.inserted == |s.leader.value.ops| && s.leader.value.count <= |s.queue|
    case PassEmpty => s.leader.None? && s.queue != [] && s.queue[0].batch.None?
    case Background(a) => !a.Write? && Enabled(s.db, a) && (a.SwitchMemtable? ==> s.leader.None? && s.queue != [])
  }

  /** The record is in the log, and on disk if the leader asked for that. */
  ghost predicate MayInsert(s: State) {
    s.leader.Some? && s.queue != [] && s.leader.value.stage == if s.queue[0].sync then Synced else Logged
  }

  ghost function Next(s: State, step: Step): State
    requires Ready(s, step)
  {
    match step
    case Arrive(w) => s.(queue := Joined(s.queue, [w]), arrived := Joined(s.arrived, [w]))
    case Lead =>
      var n := GroupSize(s.queue);
      s.(leader := Some(Leader(n, GroupOps(s.queue, n), 0, Built)))
    case AppendLog =>
      var l := s.leader.value;
      s.(leader := Some(l.(stage := Logged)), log := Joined(s.log, [RecordOf(s)]))
    case SyncLog => s.(leader := Some(s.leader.value.(stage := Synced)), durable := |s.log|)
    case InsertOne =>
      var l := s.leader.value;
      s.(leader := Some(l.(inserted := l.inserted + 1)),
         mem := AddToMem(s.mem, EntryOf(l.ops[l.inserted], s.db.lastSequence + 1 + l.inserted)))
    case Complete =>
      var l := s.leader.value;
      s.(db := WriteAll(s.db, l.ops), leader := None, queue := s.queue[l.count..],
         completed := Joined(s.completed, s.queue[..l.count]))
    case PassEmpty => s.(queue := s.queue[1..], completed := Joined(s.completed, [s.queue[0]]))
    case Background(a) =>
      var db := Do(s.db, a);
      if a.SwitchMemtable? then
        s.(db := db, mem := db.mem, log := [], durable := 0, started := s.db.lastSequence,
           immLog := s.log, immDurable := s.durable, immStarted := s.started)
      else s.(db := db)
  }

  ghost function RecordOf(s: State): Record
    requires s.leader.Some?
  {
    var l := s.leader.value;
    Record(s.db.lastSequence + 1, l.ops, if l.count <= |s.queue| then s.queue[..l.count] else [])
  }

  // ----- What the log says -----

  function SequenceAfter(log: seq<Record>, n: nat, started: nat): nat
    requires n <= |log|
  {
    if n == 0 then started else SequenceAfter(log, n - 1, started) + |log[n - 1].ops|
  }

  /** The memtable that the first `n` records rebuild. */
  function MemOf(log: seq<Record>, n: nat): seq<Entry>
    requires n <= |log|
  {
    if n == 0 then [] else AddAll(MemOf(log, n - 1), log[n - 1].ops, |log[n - 1].ops|, log[n - 1].sequence)
  }

  ghost predicate RecordOk(log: seq<Record>, j: nat, started: nat)
    requires j < |log|
  {
    && log[j].sequence == SequenceAfter(log, j, started) + 1
    && log[j].ops == GroupOps(log[j].members, |log[j].members|)
    && |log[j].ops| < 0x1_0000_0000 && forall op :: op in log[j].ops ==> OpFits(op)
  }

  /** The first `n` records follow each other and rebuild `mem`; those of sync writers are on disk. */
  ghost predicate LogOk(log: seq<Record>, n: nat, started: nat, durable: nat, mem: seq<Entry>) {
    && n <= |log| && durable <= |log| && mem == MemOf(log, n)
    && (forall j: nat :: j < |log| ==> RecordOk(log, j, started))
    && forall j: nat, w :: j < n && w in log[j].members && w.sync ==> j < durable
  }

  // ----- The invariant -----

  ghost predicate GroupOk(s: State) {
    s.leader.Some? ==>
      var l := s.leader.value;
      && 1 <= l.count <= |s.queue| && l.ops == GroupOps(s.queue, l.count) && l.inserted <= |l.ops|
      && Enabled(s.db, Write(l.ops))
      && (forall j :: 0 <= j < l.count && s.queue[j].sync ==> s.queue[0].sync)
      && |l.ops| < 0x1_0000_0000 && (forall op :: op in l.ops ==> OpFits(op))
      && (l.stage.Synced? ==> s.queue[0].sync) && (l.inserted > 0 ==> MayInsert(s))
  }

  /** How many records belong to groups that have completed. */
  ghost function Settled(s: State): nat {
    if s.leader.Some? && !s.leader.value.stage.Built? && s.log != [] then |s.log| - 1 else |s.log|
  }

  ghost predicate LogsOk(s: State) {
    && LogOk(s.log, Settled(s), s.started, s.durable, s.db.mem)
    && SequenceAfter(s.log, Settled(s), s.started) == s.db.lastSequence
    && (s.leader.Some? && !s.leader.value.stage.Built? ==> s.log != [] && s.log[|s.log| - 1] == RecordOf(s))
    && (s.leader.Some? && s.leader.value.stage.Synced? ==> s.durable == |s.log|)
    && (s.db.imm.Some? ==> LogOk(s.immLog, |s.immLog|, s.immStarted, s.immDurable, s.db.imm.value))
    && (s.db.imm.Some? ==> SequenceAfter(s.immLog, |s.immLog|, s.immStarted) == s.started)
  }

  ghost predicate MemOk(s: State) {
    s.mem == if s.leader.Some? && s.leader.value.inserted <= |s.leader.value.ops|
             then AddAll(s.db.mem, s.leader.value.ops, s.leader.value.inserted, s.db.lastSequence + 1) else s.db.mem
  }

  /** The effect of the first `n` batches, each applied alone. */
  function Effects(d: DbState, ws: seq<Writer>, n: nat): DbState
    requires n <= |ws|
  {
    if n == 0 then d else WriteAll(Effects(d, ws, n - 1), OpsOf(ws[n - 1]))
  }

  /** What was written, in which order and at which sequence numbers. */
  ghost predicate SameWrites(d: DbState, e: DbState) {
    d.history == e.history && d.lastSequence == e.lastSequence
  }

  ghost predicate DistinctIds(ws: seq<Writer>) {
    forall i, j :: 0 <= i < j < |ws| ==> ws[i].id != ws[j].id
  }

  ghost predicate WritersOk(s: State) {
    && s.arrived == Joined(s.completed, s.queue)
    && DistinctIds(s.arrived)
    && (forall w :: w in s.arrived ==> ByteSize(w) < 0x1_0000_0000 && forall op :: op in OpsOf(w) ==> OpFits(op))
  }

  ghost predicate CommitInv(base: DbState, s: State) {
    && Order(s.db) && WritersOk(s) && GroupOk(s) && LogsOk(s) && MemOk(s)
    && SameWrites(s.db, Effects(base, s.completed, |s.completed|))
  }

  // ----- Applying batches one after the other -----

  lemma {:induction false} WriteAllStep(d: DbState, ops: seq<WriteOp>, op: WriteOp)
    ensures WriteAll(d, Joined(ops, [op])) == WriteOne(WriteAll(d, ops), op)
  {
    assert Joined(ops, [op])[..|ops|] == ops;
  }

  lemma {:induction false} WriteAllJoined(d: DbState, a: seq<WriteOp>, b: seq<WriteOp>)
    ensures WriteAll(d, Joined(a, b)) == WriteAll(WriteAll(d, a), b)
    decreases |b|
  {
    hide WriteOne;
    if b == [] {
      JoinedNothing(a);
    } else {
      var n := |b| - 1;
      WriteAllJoined(d, a, b[..n]);
      assert Joined(b[..n], [b[n]]) == b;
      JoinedAssociates(a, b[..n], [b[n]]);
      WriteAllStep(d, Joined(a, b[..n]), b[n]);
      WriteAllStep(WriteAll(d, a), b[..n], b[n]);
    }
  }

  lemma {:induction false} AddAllOfPrefix(mem: seq<Entry>, ops: seq<WriteOp>, more: seq<WriteOp>, n: nat, sequence: nat)
    requires n <= |ops| <= |more| && forall i :: 0 <= i < |ops| ==> more[i] == ops[i]
    ensures AddAll(mem, more, n, sequence) == AddAll(mem, ops, n, sequence)
  {
    hide AddToMem, EntryOf;
    if n > 0 {
      AddAllOfPrefix(mem, ops, more, n - 1, sequence);
    }
  }

  /** Writing a batch inserts its operations at consecutive sequence numbers, and changes nothing else but the history. */
  lemma {:induction false} WriteAllInserts(d: DbState, ops: seq<WriteOp>)
    ensures var w := WriteAll(d, ops);
            && w.mem == AddAll(d.mem, ops, |ops|, d.lastSequence + 1) && w.lastSequence == d.lastSequence + |ops|
            && w == d.(mem := w.mem, lastSequence := w.lastSequence, history := w.history)
    decreases |ops|
  {
    hide AddToMem, EntryOf;
    if ops != [] {
      WriteAllInserts(d, ops[..|ops| - 1]);
      AddAllOfPrefix(d.mem, ops[..|ops| - 1], ops, |ops| - 1, d.lastSequence + 1);
    }
  }

  lemma {:induction false} SameWritesStay(d: DbState, e: DbState, ops: seq<WriteOp>)
    requires SameWrites(d, e)
    ensures SameWrites(WriteAll(d, ops), WriteAll(e, ops))
    decreases |ops|
  {
    hide AddToMem, EntryOf;
    if ops != [] {
      SameWritesStay(d, e, ops[..|ops| - 1]);
    }
  }

  lemma {:induction false} GroupOpsOfPrefix(ws: seq<Writer>, more: seq<Writer>, n: nat)
    requires n <= |ws| && n <= |more| && forall i :: 0 <= i < n ==> more[i] == ws[i]
    ensures GroupOps(more, n) == GroupOps(ws, n)
  {
    hide OpsOf;
    if n > 0 {
      GroupOpsOfPrefix(ws, more, n - 1);
    }
  }

  lemma {:induction false} EffectsOfPrefix(d: DbState, ws: seq<Writer>, more: seq<Writer>, n: nat)
    requires n <= |ws| <= |more| && forall i :: 0 <= i < |ws| ==> more[i] == ws[i]
    ensures Effects(d, more, n) == Effects(d, ws, n)
  {
    hide OpsOf, WriteAll;
    if n > 0 {
      EffectsOfPrefix(d, ws, more, n - 1);
    }
  }

  /** A group has the effect of its batches applied alone, in the order of the queue. */
  lemma {:induction false} GroupEffects(d: DbState, before: seq<Writer>, ws: seq<Writer>, n: nat)
    requires n <= |ws|
    ensures Effects(d, Joined(before, ws), |before| + n) == WriteAll(Effects(d, before, |before|), GroupOps(ws, n))
  {
    hide OpsOf, WriteOne;
    if n == 0 {
      EffectsOfPrefix(d, before, Joined(before, ws), |before|);
    } else {
      GroupEffects(d, before, ws, n - 1);
      WriteAllJoined(Effects(d, before, |before|), GroupOps(ws, n - 1), OpsOf(ws[n - 1]));
      assert Joined(before, ws)[|before| + n - 1] == ws[n - 1];
    }
  }

  // ----- How large a group can be -----

  lemma {:induction false} EncodedSize(ops: seq<WriteOp>, n: nat)
    requires n <= |ops|
    ensures 2 * n <= |EncodeOps(ops, n)|
  {
    hide EncodeOp;
    if n > 0 {
      EncodedSize(ops, n - 1);
    }
  }

  lemma {:induction false} GroupOpsSize(ws: seq<Writer>, n: nat)
    requires n <= |ws|
    ensures 2 * |GroupOps(ws, n)| <= GroupBytes(ws, n)
  {
    hide EncodeOps;
    if n > 0 {
      GroupOpsSize(ws, n - 1);
      EncodedSize(OpsOf(ws[n - 1]), |OpsOf(ws[n - 1])|);
    }
  }

  lemma {:induction false} GroupOpsFit(ws: seq<Writer>, n: nat)
    requires n <= |ws| && forall w, op :: w in ws && op in OpsOf(w) ==> OpFits(op)
    ensures forall op :: op in GroupOps(ws, n) ==> OpFits(op)
  {
    hide OpsOf, OpFits;
    if n > 0 {
      GroupOpsFit(ws, n - 1);
      assert ws[n - 1] in ws;
    }
  }

  // ----- Records -----

  lemma {:induction false} LogOfPrefix(log: seq<Record>, more: seq<Record>, n: nat, started: nat)
    requires n <= |log| <= |more| && forall i :: 0 <= i < |log| ==> more[i] == log[i]
    ensures SequenceAfter(more, n, started) == SequenceAfter(log, n, started) && MemOf(more, n) == MemOf(log, n)
  {
    hide AddAll;
    if n > 0 {
      LogOfPrefix(log, more, n - 1, started);
    }
  }

  lemma {:induction false} RecordStays(log: seq<Record>, more: seq<Record>, j: nat, started: nat)
    requires j < |log| <= |more| && (forall i :: 0 <= i < |log| ==> more[i] == log[i]) && RecordOk(log, j, started)
    ensures RecordOk(more, j, started)
  {
    hide GroupOps, OpFits, SequenceAfter;
    LogOfPrefix(log, more, j, started);
  }

  lemma {:induction false} LogGrows(log: seq<Record>, r: Record, started: nat, durable: nat, mem: seq<Entry>)
    requires LogOk(log, |log|, started, durable, mem)
    requires r.sequence == SequenceAfter(log, |log|, started) + 1 && r.ops == GroupOps(r.members, |r.members|)
    requires |r.ops| < 0x1_0000_0000 && forall op :: op in r.ops ==> OpFits(op)
    ensures LogOk(Joined(log, [r]), |log|, started, durable, mem)
    ensures SequenceAfter(Joined(log, [r]), |log|, started) == SequenceAfter(log, |log|, started)
  {
    hide GroupOps, OpFits, SequenceAfter, MemOf, RecordOk;
    var more := Joined(log, [r]);
    LogOfPrefix(log, more, |log|, started);
    forall j: nat | j < |more|
      ensures RecordOk(more, j, started)
    {
      if j < |log| { RecordStays(log, more, j, started); } else { RecordIsOk(more, r, started); }
    }
  }

  lemma {:induction false} RecordIsOk(more: seq<Record>, r: Record, started: nat)
    requires more != [] && more[|more| - 1] == r && r.sequence == SequenceAfter(more, |more| - 1, started) + 1
    requires r.ops == GroupOps(r.members, |r.members|) && |r.ops| < 0x1_0000_0000 && forall op :: op in r.ops ==> OpFits(op)
    ensures RecordOk(more, |more| - 1, started)
  {
  }

  /** The record in the making counts when its group completes. */
  lemma {:induction false} LastRecordSettles(log: seq<Record>, started: nat, durable: nat, mem: seq<Entry>)
    requires log != [] && LogOk(log, |log| - 1, started, durable, mem)
    requires (exists w :: w in log[|log| - 1].members && w.sync) ==> durable == |log|
    ensures var r := log[|log| - 1];
            && LogOk(log, |log|, started, durable, AddAll(mem, r.ops, |r.ops|, r.sequence))
            && SequenceAfter(log, |log|, started) == SequenceAfter(log, |log| - 1, started) + |r.ops|
  {
    hide AddAll, RecordOk;
  }

  // ----- Every step keeps the invariant -----

  lemma {:induction false} ArriveKeepsInv(base: DbState, s: State, w: Writer)
    requires CommitInv(base, s) && Ready(s, Arrive(w))
    ensures CommitInv(base, Next(s, Arrive(w)))
  {
    hide Order, LogOk, AddAll, Effects, SameWrites, ByteSize, OpsOf, OpFits, GroupOps;
    JoinedAssociates(s.completed, s.queue, [w]);
    if s.leader.Some? {
      var n := s.leader.value.count;
      GroupOpsOfPrefix(s.queue, Joined(s.queue, [w]), n);
      assert Joined(s.queue, [w])[..n] == s.queue[..n];
    }
  }

  lemma {:induction false} LeadKeepsInv(base: DbState, s: State)
    requires CommitInv(base, s) && Ready(s, Lead)
    ensures CommitInv(base, Next(s, Lead))
  {
    hide Order, LogOk, Effects, SameWrites, ByteSize, OpsOf, OpFits, GroupOps, GroupSize, MaxSize;
    var n := GroupSize(s.queue);
    GroupIsRight(s.queue);
    forall w, op | w in s.queue && op in OpsOf(w)
      ensures OpFits(op)
    {
      assert w in s.arrived;
    }
    GroupOpsFit(s.queue, n);
    GroupOpsSize(s.queue, n);
    assert s.queue[0] in s.queue && s.queue[0] in s.arrived;
    SmallGroup(s.queue[0]);
  }

  lemma {:induction false} SmallGroup(first: Writer)
    requires ByteSize(first) < 0x1_0000_0000
    ensures MaxSize(first) < 0x2_0000_0000
  {
  }

  lemma {:induction false} AppendKeepsInv(base: DbState, s: State)
    requires CommitInv(base, s) && Ready(s, AppendLog)
    ensures CommitInv(base, Next(s, AppendLog))
  {
    hide Order, LogOk, AddAll, Effects, SameWrites, ByteSize, OpsOf, OpFits, GroupOps, SequenceAfter;
    var l := s.leader.value;
    GroupOpsOfPrefix(s.queue, s.queue[..l.count], l.count);
    LogGrows(s.log, RecordOf(s), s.started, s.durable, s.db.mem);
  }

  lemma {:induction false} DurableGrows(log: seq<Record>, n: nat, started: nat, durable: nat, mem: seq<Entry>)
    requires LogOk(log, n, started, durable, mem)
    ensures LogOk(log, n, started, |log|, mem)
  {
    hide RecordOk;
  }

  lemma {:induction false} SyncKeepsInv(base: DbState, s: State)
    requires CommitInv(base, s) && Ready(s, SyncLog)
    ensures CommitInv(base, Next(s, SyncLog))
  {
    hide Order, LogOk, AddAll, Effects, SameWrites, ByteSize, OpsOf, OpFits, GroupOps, SequenceAfter;
    DurableGrows(s.log, Settled(s), s.started, s.durable, s.db.mem);
  }

  lemma {:induction false} InsertKeepsInv(base: DbState, s: State)
    requires CommitInv(base, s) && Ready(s, InsertOne)
    ensures CommitInv(base, Next(s, InsertOne))
  {
    hide Order, LogOk, Effects, SameWrites, ByteSize, OpsOf, OpFits, GroupOps, SequenceAfter, AddToMem, EntryOf;
  }

  lemma {:induction false} CompleteKeepsInv(base: DbState, s: State)
    requires CommitInv(base, s) && Ready(s, Complete)
    ensures CommitInv(base, Next(s, Complete))
  {
    hide Order, WritersOk, LogsOk, SameWrites, MemOk, Effects;
    CompleteKeepsWriters(base, s);
    CompleteKeepsLogs(base, s);
  }

  lemma {:induction false} CompleteKeepsWriters(base: DbState, s: State)
    requires CommitInv(base, s) && Ready(s, Complete)
    ensures var t := Next(s, Complete);
            Order(t.db) && WritersOk(t) && SameWrites(t.db, Effects(base, t.completed, |t.completed|))
  {
    hide Order, LogsOk, MemOk, ByteSize, OpsOf, OpFits, GroupOps, WriteAll, Effects, SameWrites;
    var l := s.leader.value;
    StepKeepsOrder(s.db, Write(l.ops));
    GroupLeaves(s.completed, s.queue, l.count);
    GroupOpsOfPrefix(s.queue, s.queue[..l.count], l.count);
    GroupEffects(base, s.completed, s.queue[..l.count], l.count);
    SameWritesStay(s.db, Effects(base, s.completed, |s.completed|), l.ops);
  }

  lemma {:induction false} GroupLeaves(completed: seq<Writer>, queue: seq<Writer>, n: nat)
    requires n <= |queue|
    ensures Joined(completed, queue) == Joined(Joined(completed, queue[..n]), queue[n..])
    ensures |Joined(completed, queue[..n])| == |completed| + n
  {
    JoinedAssociates(completed, queue[..n], queue[n..]);
    assert Joined(queue[..n], queue[n..]) == queue;
  }

  lemma {:induction false} CompleteKeepsLogs(base: DbState, s: State)
    requires CommitInv(base, s) && Ready(s, Complete)
    ensures LogsOk(Next(s, Complete)) && MemOk(Next(s, Complete))
  {
    hide Order, WritersOk, SameWrites, Effects, LogOk, OpFits, GroupOps, WriteAll, AddAll, SequenceAfter;
    var l := s.leader.value;
    WriteAllInserts(s.db, l.ops);
    LastRecordSettles(s.log, s.started, s.durable, s.db.mem);
  }

  lemma {:induction false} PassKeepsInv(base: DbState, s: State)
    requires CommitInv(base, s) && Ready(s, PassEmpty)
    ensures CommitInv(base, Next(s, PassEmpty))
  {
    hide Order, LogOk, ByteSize, OpsOf, OpFits, SequenceAfter, SameWrites, Effects, GroupOps, AddAll;
    GroupLeaves(s.completed, s.queue, 1);
    assert s.queue[..1] == [s.queue[0]];
    NoBatchNoEffect(base, s.completed, s.queue[0]);
  }

  lemma {:induction false} NoBatchNoEffect(d: DbState, ws: seq<Writer>, w: Writer)
    requires w.batch.None?
    ensures Effects(d, Joined(ws, [w]), |ws| + 1) == Effects(d, ws, |ws|)
  {
    GroupEffects(d, ws, [w], 1);
    assert GroupOps([w], 0) == [] && GroupOps([w], 1) == [];
  }

  /** What goes on in the background writes nothing. */
  lemma {:induction false} BackgroundWritesNothing(d: DbState, a: Action)
    requires Enabled(d, a) && !a.Write?
    ensures SameWrites(Do(d, a), d)
    ensures if a.SwitchMemtable? then Do(d, a).mem == [] && Do(d, a).imm == Some(d.mem)
            else Do(d, a).mem == d.mem && (Do(d, a).imm == d.imm || Do(d, a).imm.None?)
  {
  }

  lemma {:induction false} WriteStaysEnabled(d: DbState, e: DbState)
    requires SameWrites(d, e)
    ensures forall ops :: Enabled(d, Write(ops)) <==> Enabled(e, Write(ops))
  {
  }

  lemma {:induction false} BackgroundKeepsInv(base: DbState, s: State, a: Action)
    requires CommitInv(base, s) && Ready(s, Background(a))
    ensures CommitInv(base, Next(s, Background(a)))
  {
    hide Order, LogOk, AddAll, Effects, ByteSize, OpsOf, OpFits, GroupOps, Do, Enabled, SequenceAfter;
    BackgroundWritesNothing(s.db, a);
    WriteStaysEnabled(s.db, Do(s.db, a));
    StepKeepsOrder(s.db, a);
    NoRecords(s.db.lastSequence);
  }

  lemma {:induction false} NoRecords(started: nat)
    ensures LogOk([], 0, started, 0, []) && SequenceAfter([], 0, started) == started
  {
  }

  lemma {:induction false} CommitStepKeepsInv(base: DbState, s: State, step: Step)
    requires CommitInv(base, s) && Ready(s, step)
    ensures CommitInv(base, Next(s, step))
  {
    hide CommitInv, Ready, Next;
    match step
    case Arrive(w) => ArriveKeepsInv(base, s, w);
    case Lead => LeadKeepsInv(base, s);
    case AppendLog => AppendKeepsInv(base, s);
    case SyncLog => SyncKeepsInv(base, s);
    case InsertOne => InsertKeepsInv(base, s);
    case Complete => CompleteKeepsInv(base, s);
    case PassEmpty => PassKeepsInv(base, s);
    case Background(a) => BackgroundKeepsInv(base, s, a);
  }

  // ----- Over every run -----

  /** An opened database: nothing in memory, a new log, no writers. */
  ghost predicate Opened(base: DbState) {
    Order(base) && base.mem == [] && base.imm.None?
  }

  function Start(base: DbState): State {
    State(base, [], [], None, [], 0, base.lastSequence, [], 0, 0, [], [])
  }

  ghost predicate IsCommitRun(base: DbState, states: seq<State>, steps: seq<Step>) {
    && Opened(base) && |states| == |steps| + 1 && states[0] == Start(base)
    && forall i :: 0 <= i < |steps| ==> Ready(states[i], steps[i]) && states[i + 1] == Next(states[i], steps[i])
  }

  lemma {:induction false} StartInv(base: DbState)
    requires Opened(base)
    ensures CommitInv(base, Start(base))
  {
    hide Order, ByteSize, OpsOf;
    NoRecords(base.lastSequence);
  }

  lemma {:induction false} CommitRunKeepsInv(base: DbState, states: seq<State>, steps: seq<Step>, i: nat)
    requires IsCommitRun(base, states, steps) && i < |states|
    ensures CommitInv(base, states[i])
  {
    hide CommitInv, Ready, Next;
    if i == 0 {
      StartInv(base);
    } else {
      CommitRunKeepsInv(base, states, steps, i - 1);
      CommitStepKeepsInv(base, states[i - 1], steps[i - 1]);
    }
  }

  /** Writers complete in the order in which they came, each of them once. */
  lemma {:induction false} WritersCompleteInOrder(base: DbState, states: seq<State>, steps: seq<Step>, i: nat)
    requires IsCommitRun(base, states, steps) && i < |steps|
    ensures states[i + 1].arrived == Joined(states[i + 1].completed, states[i + 1].queue)
    ensures states[i].arrived <= states[i + 1].arrived && states[i].completed <= states[i + 1].completed
    ensures DistinctIds(states[i + 1].completed)
  {
    hide Order, LogsOk, MemOk, SameWrites, Effects, ByteSize, OpsOf, OpFits;
    CommitRunKeepsInv(base, states, steps, i + 1);
    var s := states[i + 1];
    forall j, k | 0 <= j < k < |s.completed|
      ensures s.completed[j].id != s.completed[k].id
    {
      assert s.completed[j] == s.arrived[j] && s.completed[k] == s.arrived[k];
    }
  }

  /** Groups leave the same writes behind as the batches one by one. */
  lemma {:induction false} GroupsWriteLikeSingles(base: DbState, states: seq<State>, steps: seq<Step>, i: nat)
    requires IsCommitRun(base, states, steps) && i < |states|
    ensures SameWrites(states[i].db, Effects(base, states[i].completed, |states[i].completed|))
  {
    hide Order, WritersOk, GroupOk, LogsOk, MemOk;
    CommitRunKeepsInv(base, states, steps, i);
  }

  /** When a group with a sync writer completes, its record has reached the disk. */
  lemma {:induction false} SyncWritersAreOnDisk(base: DbState, s: State, w: Writer)
    requires CommitInv(base, s) && Ready(s, Complete)
    requires w in s.queue[..s.leader.value.count] && w.sync
    ensures s.log != [] && w in s.log[|s.log| - 1].members && s.log[|s.log| - 1].ops == s.leader.value.ops
    ensures s.durable == |s.log|
  {
    hide Order, WritersOk, MemOk, SameWrites, Effects, LogOk, SequenceAfter, GroupOps;
  }

  // ----- Progress -----

  /** A step of the writer in front. */
  predicate OfLeader(step: Step) {
    !step.Arrive? && !step.Background?
  }

  function SyncSteps(s: State): nat
    requires s.queue != []
  {
    if s.queue[0].sync then 1 else 0
  }

  /** How many steps of its own the writer in front is away from its completion. */
  function StepsLeft(s: State): nat
    requires s.queue != []
  {
    if s.leader.Some? then
      var l := s.leader.value;
      (if l.inserted <= |l.ops| then |l.ops| - l.inserted else 0) + 1
      + (if l.stage.Built? then 1 + SyncSteps(s) else if l.stage.Logged? then SyncSteps(s) else 0)
    else if s.queue[0].batch.None? then 1
    else 3 + SyncSteps(s) + |GroupOps(s.queue, GroupSize(s.queue))|
  }

  /** The group of the writer in front can be numbered. */
  ghost predicate HasRoom(s: State) {
    s.leader.None? && s.queue != [] && s.queue[0].batch.Some? ==> Enabled(s.db, Write(GroupOps(s.queue, GroupSize(s.queue))))
  }

  /** Wherever writers wait, exactly one step of the writer in front can be taken. */
  lemma {:induction false} LeaderGoesOn(base: DbState, s: State) returns (step: Step)
    requires CommitInv(base, s) && s.queue != [] && HasRoom(s)
    ensures OfLeader(step) && Ready(s, step)
    ensures forall other :: OfLeader(other) && Ready(s, other) ==> other == step
  {
    hide Order, WritersOk, LogsOk, MemOk, SameWrites, Effects, Enabled, GroupOps, GroupSize, OpFits;
    if s.leader.None? {
      step := if s.queue[0].batch.Some? then Lead else PassEmpty;
    } else {
      var l := s.leader.value;
      step := if l.stage.Built? then AppendLog
              else if l.stage.Logged? && s.queue[0].sync then SyncLog
              else if l.inserted < |l.ops| then InsertOne
              else Complete;
    }
  }

  /** Each such step brings the writer in front one step nearer to its completion; the last one completes it. */
  lemma {:induction false} LeaderComesNearer(base: DbState, s: State, step: Step)
    requires CommitInv(base, s) && OfLeader(step) && Ready(s, step)
    ensures s.queue != []
    ensures var t := Next(s, step);
            if StepsLeft(s) > 1 then t.queue == s.queue && t.completed == s.completed && StepsLeft(t) == StepsLeft(s) - 1
            else |t.queue| < |s.queue| && s.completed + [s.queue[0]] <= t.completed
  {
    hide Order, WritersOk, LogsOk, MemOk, SameWrites, Effects, Enabled, GroupOps, GroupSize, OpFits, WriteAll, AddToMem, EntryOf;
  }

  /** Nobody else takes it further away. */
  lemma {:induction false} OthersWait(base: DbState, s: State, step: Step)
    requires CommitInv(base, s) && !OfLeader(step) && Ready(s, step) && s.leader.Some?
    ensures s.queue != [] && s.queue <= Next(s, step).queue && StepsLeft(Next(s, step)) == StepsLeft(s)
    ensures Next(s, step).completed == s.completed
  {
    hide Order, WritersOk, LogsOk, MemOk, SameWrites, Effects, Enabled, GroupOps, GroupSize, OpFits, Do, ByteSize, OpsOf;
  }

  // ----- Every writer completes -----

  ghost predicate IsPath(states: seq<State>, steps: seq<Step>) {
    && |states| == |steps| + 1
    && forall i :: 0 <= i < |steps| ==> OfLeader(steps[i]) && Ready(states[i], steps[i]) && states[i + 1] == Next(states[i], steps[i])
  }

  /** All that waits can be numbered. */
  predicate HasRoomForAll(s: State) {
    s.db.lastSequence + |GroupOps(s.queue, |s.queue|)| < MAX_SEQUENCE_NUMBER
  }

  lemma {:induction false} GroupOpsGrow(ws: seq<Writer>, m: nat, n: nat)
    requires m <= n <= |ws|
    ensures |GroupOps(ws, n)| == |GroupOps(ws, m)| + |GroupOps(ws[m..], n - m)|
  {
    hide OpsOf;
    if m < n {
      GroupOpsGrow(ws, m, n - 1);
    }
  }

  lemma {:induction false} RoomStays(base: DbState, s: State, step: Step)
    requires CommitInv(base, s) && OfLeader(step) && Ready(s, step) && HasRoomForAll(s)
    ensures HasRoomForAll(Next(s, step))
  {
    hide Order, WritersOk, LogsOk, MemOk, SameWrites, Effects, GroupSize, OpFits, WriteAll, AddToMem, EntryOf, OpsOf, GroupOps;
    if step.Complete? {
      var l := s.leader.value;
      WriteAllInserts(s.db, l.ops);
      GroupOpsGrow(s.queue, l.count, |s.queue|);
    } else if step.PassEmpty? {
      GroupOpsGrow(s.queue, 1, |s.queue|);
    }
  }

  lemma {:induction false} RoomForFront(s: State)
    requires HasRoomForAll(s)
    ensures HasRoom(s)
  {
    hide GroupOps, GroupSize;
    if s.queue != [] {
      GroupOpsGrow(s.queue, GroupSize(s.queue), |s.queue|);
    }
  }

  /** From every state the writers, by their own steps alone, bring all of them to completion. */
  lemma {:induction false} AllWritersComplete(base: DbState, s: State) returns (states: seq<State>, steps: seq<Step>)
    requires CommitInv(base, s) && HasRoomForAll(s)
    ensures IsPath(states, steps) && states[0] == s
    ensures var t := states[|steps|]; CommitInv(base, t) && t.queue == [] && t.completed == s.arrived
    decreases |s.queue|, if s.queue != [] then StepsLeft(s) else 0
  {
    hide CommitInv, Ready, Next, StepsLeft, HasRoomForAll;
    if s.queue == [] {
      states, steps := [s], [];
      NobodyWaits(base, s);
    } else {
      RoomForFront(s);
      var step := LeaderGoesOn(base, s);
      var t := Next(s, step);
      LeaderComesNearer(base, s, step);
      CommitStepKeepsInv(base, s, step);
      RoomStays(base, s, step);
      LeaderKeepsArrived(s, step);
      var later, rest := AllWritersComplete(base, t);
      states, steps := [s] + later, [step] + rest;
    }
  }

  lemma {:induction false} NobodyWaits(base: DbState, s: State)
    requires CommitInv(base, s) && s.queue == []
    ensures s.completed == s.arrived
  {
    hide Order, GroupOk, LogsOk, MemOk, SameWrites, Effects;
    JoinedNothing(s.completed);
  }

  lemma {:induction false} LeaderKeepsArrived(s: State, step: Step)
    requires OfLeader(step) && Ready(s, step)
    ensures Next(s, step).arrived == s.arrived
  {
  }

  // ----- Readers beside a group that is being inserted -----

  ghost predicate LaterThan(es: set<Entry>, s: nat) {
    forall e :: e in es ==> e.key.sequence > s
  }

  lemma {:induction false} AddAllAdds(mem: seq<Entry>, ops: seq<WriteOp>, n: nat, sequence: nat)
    requires n <= |ops| && Sorted(mem) && forall x :: x in mem ==> x.key.sequence < sequence
    ensures Sorted(AddAll(mem, ops, n, sequence))
    ensures forall x :: x in AddAll(mem, ops, n, sequence) ==> x in mem || sequence <= x.key.sequence < sequence + n
    ensures forall x :: x in mem ==> x in AddAll(mem, ops, n, sequence)
  {
    hide Sorted, AddToMem;
    if n > 0 {
      AddAllAdds(mem, ops, n - 1, sequence);
      var before := AddAll(mem, ops, n - 1, sequence);
      var e := EntryOf(ops[n - 1], sequence + n - 1);
      AddToMemMembers(before, e);
      AddToMemIsSorted(before, e);
      forall x | x in AddToMem(before, e)
        ensures x in mem || sequence <= x.key.sequence < sequence + n
      {
        assert x in Elements(AddToMem(before, e));
      }
      forall x | x in mem
        ensures x in AddToMem(before, e)
      {
        assert x in Elements(AddToMem(before, e));
      }
    }
  }

  /** What the readers look up in the memtable does not show a group that is not complete. */
  lemma {:induction false} InFlightIsInvisible(base: DbState, s: State, user: Bytes, snapshot: nat)
    requires CommitInv(base, s) && snapshot <= s.db.lastSequence
    ensures Lookup(s.mem, user, snapshot) == Lookup(s.db.mem, user, snapshot)
  {
    hide WritersOk, GroupOk, LogsOk, SameWrites, Effects, Lookup, AddAll;
    forall x | x in s.db.mem
      ensures x.key.sequence < s.db.lastSequence + 1 && x in AllEntries(s.db)
    {
      assert x in Elements(s.db.mem);
    }
    if s.leader.Some? && s.leader.value.inserted <= |s.leader.value.ops| {
      AddAllAdds(s.db.mem, s.leader.value.ops, s.leader.value.inserted, s.db.lastSequence + 1);
    }
    LookupFindsNewest(s.mem, user, snapshot);
    LookupFindsNewest(s.db.mem, user, snapshot);
    SameNewest(Elements(s.db.mem), Elements(s.mem), user, snapshot, Lookup(s.db.mem, user, snapshot), Lookup(s.mem, user, snapshot));
  }

  lemma {:induction false} SameNewest(older: set<Entry>, all: set<Entry>, user: Bytes, s: nat, r: Option<Entry>, q: Option<Entry>)
    requires older <= all && LaterThan(all - older, s) && UniqueSequences(older)
    requires IsNewest(older, user, s, r) && IsNewest(all, user, s, q)
    ensures q == r
  {
    if q.Some? { assert q.value in older; }
  }
}
