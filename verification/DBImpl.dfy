/** The database object: its methods carry out the steps of module Database. */
module DBImplementation {
  import opened ByteOrder
  import opened DbFormat
  import opened Version
  import opened CompactionInputs
  import opened CompactionWork
  import opened CompactionReads
  import opened VersionBuilder
  import opened Install
  import opened MemtableFlush
  import opened Database
  import opened ClosedInputs

  class DBImpl {
    const maxFileSize: nat
    var mem: seq<Entry>
    var imm: Option<seq<Entry>>
    var version: Levels
    var lastSequence: nat
    var snapshots: seq<nat>
    var nextFileNumber: nat
    ghost var history: seq<Entry>
    ghost var horizon: nat

    ghost function State(): DbState
      reads this
    {
      DbState(mem, imm, version, lastSequence, snapshots, nextFileNumber, history, horizon)
    }

    constructor (maxFileSize: nat)
      ensures State() == EMPTY_DB && Inv(State()) && this.maxFileSize == maxFileSize
    {
      this.maxFileSize := maxFileSize;
      mem, imm, version, lastSequence, snapshots, nextFileNumber := [], None, EMPTY_VERSION, 0, [], 2;
      history, horizon := [], 0;
      new;
      EmptyDbInv();
    }

    /** Every key that was read right is read right. */
    static ghost predicate KeepsReads(d: DbState, w: DbState) {
      forall user, m :: FaithfulFrom(d, user, m) ==> FaithfulFrom(w, user, m)
    }

    method Write(ops: seq<WriteOp>)
      requires Order(State()) && Enabled(State(), Action.Write(ops))
      modifies this
      ensures State() == Do(old(State()), Action.Write(ops)) && Order(State())
      ensures KeepsReads(old(State()), State())
      ensures forall i :: 0 <= i < |ops| ==> FaithfulFrom(State(), ops[i].key, old(lastSequence) + 1 + i)
    {
      hide Order, FaithfulFrom, WriteAll;
      StepIsSafe(State(), Action.Write(ops));
      forall i | 0 <= i < |ops|
        ensures FaithfulFrom(WriteAll(State(), ops), ops[i].key, lastSequence + 1 + i)
      {
        WriteAllIsRead(State(), ops, i);
      }
      InsertInto(ops);
    }

    static lemma {:induction false} StepIsSafe(d: DbState, a: Action)
      requires Order(d) && Enabled(d, a) && !a.Compact?
      ensures Order(Do(d, a)) && KeepsReads(d, Do(d, a))
    {
      hide Order, FaithfulFrom, Enabled, Do;
      StepKeepsOrder(d, a);
      forall user, m | FaithfulFrom(d, user, m)
        ensures FaithfulFrom(Do(d, a), user, m)
      {
        StepKeepsReads(d, a, user, m);
      }
    }

    /** WriteBatchInternal::InsertInto, then SetLastSequence. */
    method InsertInto(ops: seq<WriteOp>)
      modifies this
      ensures State() == WriteAll(old(State()), ops)
    {
      for i := 0 to |ops|
        invariant State() == WriteAll(old(State()), ops[..i])
      {
        assert ops[..i + 1][..i] == ops[..i];
        var e := EntryOf(ops[i], lastSequence + 1);
        mem := AddToMem(mem, e);
        lastSequence := lastSequence + 1;
        history := history + [e];
      }
      assert ops[..|ops|] == ops;
    }

    /** The switch at the end of MakeRoomForWrite. */
    method SwitchToNewMemtable()
      requires Order(State()) && imm.None?
      modifies this
      ensures State() == Do(old(State()), SwitchMemtable) && Order(State()) && KeepsReads(old(State()), State())
    {
      hide Order, KeepsReads;
      StepIsSafe(State(), SwitchMemtable);
      imm := Some(mem);
      mem := [];
    }

    method LogAndApply(e: VersionEdit)
      requires ValidEdit(e)
      modifies this`version
      ensures version == ApplyEdit(old(version), e)
    {
      var builder := new Builder(version);
      builder.Apply(e);
      var v := builder.SaveTo();
      assert v == ApplyEdit(version, e);
      version := v;
    }

    method PickFlushLevel(f: FileMeta) returns (level: nat)
      requires Order(State())
      ensures FlushLevelOk(version, level, f)
      ensures DeepestAllowed(version, level, f.smallest.user, f.largest.user, maxFileSize)
    {
      TreeIsBounded(State());
      level := PickLevelForMemTableOutput(version, f.smallest.user, f.largest.user, maxFileSize);
      PickedLevelIsOk(version, level, f);
    }

    lemma TreeIsBounded(d: DbState)
      requires Order(d)
      ensures BoundedSequences(d.version)
    {
      assert VersionEntries(d.version) <= AllEntries(d);
    }

    lemma PickedLevelIsOk(v: Levels, level: nat, f: FileMeta)
      requires level <= MAX_MEM_COMPACT_LEVEL
      requires level > 0 ==> forall l :: 0 <= l <= level ==> !LevelMeets(v, l, f.smallest.user, f.largest.user)
      ensures FlushLevelOk(v, level, f)
    {
      forall l, g | level > 0 && 0 <= l <= level && g in v[l]
        ensures !Overlaps(g, Some(f.smallest.user), Some(f.largest.user))
      {
        assert !LevelMeets(v, l, f.smallest.user, f.largest.user);
      }
    }

    /** CompactMemTable with WriteLevel0Table; `size` is the size of the table that BuildTable wrote. */
    method CompactMemTable(size: nat) returns (level: nat)
      requires Order(State()) && imm.Some?
      modifies this
      ensures Enabled(old(State()), Flush(level, size))
      ensures imm.None? && State() == Do(old(State()), Flush(level, size)) && Order(State()) && KeepsReads(old(State()), State())
      ensures old(imm).value != [] ==>
                var f := FlushedFile(old(State()), size);
                DeepestAllowed(old(version), level, f.smallest.user, f.largest.user, maxFileSize)
    {
      hide Order, KeepsReads, DeepestAllowed, FlushLevelOk;
      var es := imm.value;
      if es == [] {
        level := 0;
        StepIsSafe(State(), Flush(level, size));
      } else {
        var f := FileMeta(nextFileNumber, size, es[0].key, es[|es| - 1].key, es);
        level := PickFlushLevel(f);
        StepIsSafe(State(), Flush(level, size));
        LogAndApply(FlushEdit(f, level));
      }
      nextFileNumber := nextFileNumber + 1;
      imm := None;
    }

    predicate IsTrivialMove(c: Compaction) {
      |c.inputs0| == 1 && c.inputs1 == [] && TotalFileSize(c.grandparents) <= 10 * maxFileSize
    }

    /** A compaction of the file that the size or seek trigger selected. */
    method BackgroundCompaction(level: nat, file: FileMeta, stopBefore: seq<bool>, fileSize: seq<Entry> -> nat)
      returns (c: Compaction, outputs: seq<FileMeta>)
      requires Order(State()) && level + 1 < NUM_LEVELS && file in version[level]
      modifies this
      ensures c.level == level && ValidCompaction(old(version), c) && file in c.inputs0
      ensures PickedFor(old(version), level, file, maxFileSize, c)
      ensures IsTrivialMove(c) ==> Enabled(old(State()), Move(c)) && State() == Do(old(State()), Move(c))
      ensures IsTrivialMove(c) ==> Order(State()) && KeepsReads(old(State()), State())
      ensures !IsTrivialMove(c) ==> Compacted(old(State()), State(), c, outputs)
    {
      hide KeepsReads, Compacted, PickedFor;
      c := PickCompaction(version, level, file, maxFileSize);
      outputs := [];
      if IsTrivialMove(c) {
        StepIsSafe(State(), Move(c));
        var f := c.inputs0[0];
        assert c.inputs0 == [f];
        LogAndApply(PushDownEdit(c, c.inputs0));
      } else {
        outputs := CompactFiles(c, stopBefore, fileSize);
      }
    }

    /** A manual compaction of a key range of one level; such a compaction is never a trivial move. */
    method ManualCompaction(level: nat, begin: Option<InternalKey>, end: Option<InternalKey>, stopBefore: seq<bool>, fileSize: seq<Entry> -> nat)
      returns (r: Option<Compaction>, outputs: seq<FileMeta>)
      requires Order(State()) && level + 1 < NUM_LEVELS
      modifies this
      ensures r.None? ==> State() == old(State())
      ensures r.Some? ==> ValidCompaction(old(version), r.value) && Compacted(old(State()), State(), r.value, outputs)
    {
      outputs := [];
      r := CompactRange(version, level, begin, end, maxFileSize);
      if r.Some? {
        outputs := CompactFiles(r.value, stopBefore, fileSize);
      }
    }

    /**
     * The step is the compaction of module Database. It always keeps the order; and a key that was read right from the
     * smallest snapshot on still is if and only if the chosen inputs leave no older version of its dropped marker beside them.
     */
    static ghost predicate Compacted(d: DbState, w: DbState, c: Compaction, outputs: seq<FileMeta>)
      requires c.level + 1 < NUM_LEVELS
    {
      && CompactionDone(d, c, outputs)
      && w == AfterCompaction(d, c, outputs)
      && Order(w)
      && (forall user :: FaithfulFrom(d, user, SmallestSnapshot(d)) ==> (FaithfulFrom(w, user, 0) <==> !LosesKey(d, c, user)))
      && forall user, m :: FaithfulFrom(d, user, m) && !LosesKey(d, c, user) ==> FaithfulFrom(w, user, m)
    }

    method RunCompaction(c: Compaction, stopBefore: seq<bool>, fileSize: seq<Entry> -> nat) returns (outputs: seq<FileMeta>)
      requires ValidVersion(version) && lastSequence < MAX_SEQUENCE_NUMBER && SnapshotsInOrder(State())
      requires ValidCompaction(version, c)
      ensures CompactionDone(State(), c, outputs)
    {
      var merged := MergedInput(c);
      InputsMerge(version, c);
      var smallestSnapshot := if snapshots == [] then lastSequence else snapshots[0];
      var stops := seq(|merged|, i requires 0 <= i => i < |stopBefore| && stopBefore[i]);
      outputs := DoCompactionWork(version, c, merged, smallestSnapshot, stops, fileSize, maxFileSize, nextFileNumber);
    }

    method CompactFiles(c: Compaction, stopBefore: seq<bool>, fileSize: seq<Entry> -> nat) returns (outputs: seq<FileMeta>)
      requires Order(State()) && ValidCompaction(version, c)
      modifies this
      ensures Compacted(old(State()), State(), c, outputs)
    {
      outputs := RunCompaction(c, stopBefore, fileSize);
      CompactionOutcome(State(), c, outputs);
      InstallCompactionResults(c, outputs);
    }

    method InstallCompactionResults(c: Compaction, outputs: seq<FileMeta>)
      requires ValidEdit(PushDownEdit(c, outputs)) && SnapshotsInOrder(State())
      modifies this
      ensures State() == AfterCompaction(old(State()), c, outputs)
    {
      horizon := SmallestSnapshot(State());
      nextFileNumber := nextFileNumber + |outputs|;
      LogAndApply(PushDownEdit(c, outputs));
    }

    method GetSnapshot() returns (s: nat)
      requires Order(State())
      modifies this
      ensures s == lastSequence
      ensures State() == Do(old(State()), TakeSnapshot) && Order(State()) && KeepsReads(old(State()), State())
    {
      hide Order, KeepsReads;
      StepIsSafe(State(), TakeSnapshot);
      s := lastSequence;
      snapshots := snapshots + [s];
    }

    method ReleaseSnapshot(index: nat)
      requires Order(State()) && index < |snapshots|
      modifies this
      ensures State() == Do(old(State()), Action.ReleaseSnapshot(index)) && Order(State()) && KeepsReads(old(State()), State())
    {
      hide Order, KeepsReads;
      StepIsSafe(State(), Action.ReleaseSnapshot(index));
      snapshots := snapshots[..index] + snapshots[index + 1..];
    }

    function ReadSequence(snapshot: Option<nat>): nat
      reads this
    {
      if snapshot.Some? then snapshot.value else lastSequence
    }

    /**
     * Memtable, then immutable memtable, then the tree: the value of the newest entry of the whole store, and for a
     * key that is read right the value that the log of writes gives.
     */
    method Get(user: Bytes, snapshot: Option<nat>) returns (value: Option<Bytes>)
      requires Order(State())
      requires snapshot.Some? ==> snapshot.value in snapshots
      ensures exists r :: IsNewest(AllEntries(State()), user, ReadSequence(snapshot), r) && value == ValueOf(r)
      ensures FaithfulFrom(State(), user, ReadSequence(snapshot)) ==> value == ReadLog(history, user, ReadSequence(snapshot))
    {
      var s := ReadSequence(snapshot);
      LookupFindsNewest(mem, user, s);
      var r := Lookup(mem, user, s);
      if r.None? && imm.Some? {
        LookupFindsNewest(imm.value, user, s);
        r := Lookup(imm.value, user, s);
      }
      if r.None? {
        r := Version.Get(version, user, s);
      }
      assert IsNewest(AllEntries(State()), user, s, r);
      value := ValueOf(r);
    }
  }

  lemma CompactionOutcome(d: DbState, c: Compaction, outputs: seq<FileMeta>)
    requires Order(d) && ValidCompaction(d.version, c) && CompactionDone(d, c, outputs)
    ensures DBImpl.Compacted(d, AfterCompaction(d, c, outputs), c, outputs)
  {
    hide Order, FaithfulFrom, LosesKey, CompactionDone;
    CompactKeepsOrder(d, c, outputs);
    forall user | FaithfulFrom(d, user, SmallestSnapshot(d))
      ensures FaithfulFrom(AfterCompaction(d, c, outputs), user, 0) <==> !LosesKey(d, c, user)
    {
      CompactReadsOf(d, c, outputs, user);
    }
    forall user, m | FaithfulFrom(d, user, m) && !LosesKey(d, c, user)
      ensures FaithfulFrom(AfterCompaction(d, c, outputs), user, m)
    {
      CompactKeepsReads(d, c, outputs, user, m);
    }
  }

  /** A compaction that splits no user key keeps the whole invariant. */
  lemma {:induction false} ClosedCompactionKeepsInv(d: DbState, w: DbState, c: Compaction, outputs: seq<FileMeta>)
    requires Inv(d) && ValidCompaction(d.version, c) && ParentClosed(d.version, c) && DBImpl.Compacted(d, w, c, outputs)
    ensures Inv(w)
  {
    hide Order, FaithfulFrom, LosesKey, CompactionDone, ParentClosed;
    InvHasOrder(d);
    forall user
      ensures FaithfulFrom(w, user, 0)
    {
      ClosedStepLosesNothing(d, Compact(c, outputs), user);
    }
  }

  /**
   * Over every run: what Get returns at a live snapshot, or at the present, is the newest write not after it,
   * deletions reading as nothing, unless a compaction has lost the deletion of that very key.
   */
  method GetAfterRun(db: DBImpl, ghost states: seq<DbState>, ghost actions: seq<Action>, user: Bytes, snapshot: Option<nat>)
    returns (value: Option<Bytes>)
    requires IsRun(states, actions) && db.State() == states[|actions|]
    requires snapshot.Some? ==> snapshot.value in db.snapshots
    ensures exists r :: IsNewest(AllEntries(db.State()), user, db.ReadSequence(snapshot), r) && value == ValueOf(r)
    ensures KeepsKey(states, actions, 0, |actions|, user) ==>
              value == ReadLog(WritesOf(actions, |actions|), user, db.ReadSequence(snapshot))
  {
    hide IsRun, Order, WritesOf, KeepsKey, AllEntries;
    LastState(states, actions);
    RunKeepsOrder(states, actions, |actions|);
    HistoryIsWrites(states, actions, |actions|);
    if KeepsKey(states, actions, 0, |actions|, user) {
      KeptKeyIsFaithful(states, actions, |actions|, user);
    }
    value := db.Get(user, snapshot);
  }

  lemma {:induction false} LastState(states: seq<DbState>, actions: seq<Action>)
    requires IsRun(states, actions)
    ensures |states| == |actions| + 1
  {
  }
}
