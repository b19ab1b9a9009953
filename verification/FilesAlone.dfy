/**
 * The table files seen as a database of their own: what remains of a database if a crash takes all logs. Its writes are
 * those that have been flushed.
 */
module FilesAlone {
  import opened ByteOrder
  import opened DbFormat
  import opened Coding
  import opened Version
  import opened CompactionInputs
  import opened CompactionWork
  import opened CompactionReads
  import opened VersionBuilder
  import opened Install
  import opened Database
  import opened ClosedInputs
  import opened WriteBatches
  import opened GroupCommit
  import opened LogReplay

  // ----- The files as a database -----

  /** All writes with sequence numbers up to this one are in the files. */
  function FiledUpTo(s: State): nat {
    if s.db.imm.Some? then s.immStarted else s.started
  }

  /** The log of the immutable memtable, as long as there is one; older logs are not read again. */
  function ImmLog(s: State): seq<Record> {
    if s.db.imm.Some? then s.immLog else []
  }

  ghost function ImmLogged(s: State): seq<Entry> {
    EntriesOf(ImmLog(s), |ImmLog(s)|)
  }

  /** The writes that are in logs only. */
  ghost function Logged(s: State): seq<Entry> {
    Joined(ImmLogged(s), EntriesOf(s.log, Settled(s)))
  }

  ghost predicate FilesOk(s: State) {
    && |Logged(s)| <= |s.db.history| && s.db.history == Joined(FiledHistory(s), Logged(s))
    && forall e :: e in VersionEntries(s.db.version) ==> e.key.sequence <= FiledUpTo(s)
  }

  ghost function FiledHistory(s: State): seq<Entry> {
    if |Logged(s)| <= |s.db.history| then s.db.history[..|s.db.history| - |Logged(s)|] else []
  }

  function Min(a: nat, b: nat): nat {
    if a <= b then a else b
  }

  ghost function FileView(s: State): DbState {
    DbState([], None, s.db.version, FiledUpTo(s), [], s.db.nextFileNumber, FiledHistory(s), Min(s.db.horizon, FiledUpTo(s)))
  }

  /** The same with one snapshot, which is the smallest that compactions look at. */
  ghost function Clipped(s: State): DbState {
    FileView(s).(snapshots := [Min(SmallestSnapshot(s.db), FiledUpTo(s))])
  }

  /** The compaction loses the deletion of the key as far as the files alone go. */
  ghost predicate FilesLose(s: State, a: Action, user: Bytes) {
    Loses(Clipped(s), a, user)
  }

  // ----- The files are in order -----

  lemma NoRecordsNoEntries()
    ensures EntriesOf([], 0) == []
  {
  }

  lemma {:induction false} LoggedNumbers(base: DbState, s: State)
    requires CommitInv(base, s)
    ensures FiledUpTo(s) + |Logged(s)| == s.db.lastSequence
    ensures forall i: nat :: i < |Logged(s)| ==> Logged(s)[i].key.sequence == FiledUpTo(s) + 1 + i
  {
    hide Order, WritersOk, GroupOk, MemOk, SameWrites, Effects, RecordOk, SequenceAfter, MemOf, EntriesOf;
    EntriesAreNumbered(s.log, Settled(s), s.started);
    if s.db.imm.Some? {
      EntriesAreNumbered(s.immLog, |s.immLog|, s.immStarted);
    } else {
      NoRecordsNoEntries();
    }
  }

  lemma {:induction false} FilesInOrder(base: DbState, s: State)
    requires CommitInv(base, s) && FilesOk(s)
    ensures Order(FileView(s))
  {
    hide WritersOk, GroupOk, LogsOk, MemOk, SameWrites, Effects, Logged, TreeInOrder;
    var d, e := s.db, FileView(s);
    LoggedNumbers(base, s);
    assert AllEntries(e) == VersionEntries(d.version) <= AllEntries(d);
    forall i | 0 <= i < |e.history|
      ensures e.history[i].key.sequence <= FiledUpTo(s)
    {
      assert e.history[i] == d.history[i];
      if Logged(s) != [] {
        assert d.history[|e.history|] == Logged(s)[0];
      }
    }
    SameTree(d, e);
  }

  lemma {:induction false} SameTree(d: DbState, e: DbState)
    requires TreeInOrder(d) && e.version == d.version && e.nextFileNumber == d.nextFileNumber
    ensures TreeInOrder(e)
  {
  }

  // ----- Steps that leave the files as they are -----

  lemma {:induction false} WriterStepKeepsLogged(base: DbState, s: State, step: Step)
    requires CommitInv(base, s) && Ready(s, step) && !step.Complete? && !step.Background?
    ensures var t := Next(s, step); t.db == s.db && FiledUpTo(t) == FiledUpTo(s) && Logged(t) == Logged(s)
  {
    hide Order, WritersOk, MemOk, SameWrites, Effects, LogOk, SequenceAfter, EntriesOf, GroupOps, GroupSize, Enabled, OpFits, AddToMem, EntryOf;
    var t := Next(s, step);
    if step.AppendLog? {
      EntriesOfPrefix(s.log, t.log, |s.log|);
    }
  }

  lemma {:induction false} CompleteLogs(base: DbState, s: State)
    requires CommitInv(base, s) && Ready(s, Complete)
    ensures var t, written := Next(s, Complete), Numbered(s.leader.value.ops, |s.leader.value.ops|, s.db.lastSequence + 1);
            && t.db.history == Joined(s.db.history, written) && Logged(t) == Joined(Logged(s), written)
            && FiledUpTo(t) == FiledUpTo(s) && t.db == s.db.(mem := t.db.mem, lastSequence := t.db.lastSequence, history := t.db.history)
  {
    hide Order, WritersOk, MemOk, SameWrites, Effects, LogOk, SequenceAfter, GroupOps, OpFits, Numbered, WriteAll, AddAll, Enabled;
    var l := s.leader.value;
    WriteAllHistory(s.db, l.ops);
    WriteAllInserts(s.db, l.ops);
    JoinedAssociates(ImmLogged(s), EntriesOf(s.log, |s.log| - 1), Numbered(l.ops, |l.ops|, s.db.lastSequence + 1));
  }

  lemma {:induction false} SwitchLogs(base: DbState, s: State)
    requires CommitInv(base, s) && Ready(s, Background(SwitchMemtable))
    ensures var t := Next(s, Background(SwitchMemtable));
            FiledUpTo(t) == FiledUpTo(s) && Logged(t) == Logged(s)
            && t.db.history == s.db.history && t.db.version == s.db.version && t.db.horizon == s.db.horizon
            && t.db.nextFileNumber == s.db.nextFileNumber
  {
    hide Order, WritersOk, GroupOk, LogsOk, MemOk, SameWrites, Effects;
    assert EntriesOf([], 0) == [];
    JoinedNothing(EntriesOf(s.log, |s.log|));
  }

  /** Steps other than flushes and compactions do not touch the files. */
  ghost predicate LeavesFiles(step: Step) {
    step.Background? ==> step.a.SwitchMemtable? || step.a.TakeSnapshot? || step.a.ReleaseSnapshot?
  }

  lemma {:induction false} FilesStay(base: DbState, s: State, step: Step)
    requires CommitInv(base, s) && FilesOk(s) && Ready(s, step) && LeavesFiles(step)
    ensures FilesOk(Next(s, step)) && FileView(Next(s, step)) == FileView(s)
  {
    assert step.Complete? ==> s.leader.Some?;
    hide CommitInv, Ready, Next, Logged, FilesOk, FileView, FiledUpTo, FiledHistory, ImmLogged, Numbered, Settled, LeavesFiles;
    if step.Complete? {
      CompleteLogs(base, s);
      LogGrowsBy(s, Next(s, step), Numbered(s.leader.value.ops, |s.leader.value.ops|, s.db.lastSequence + 1));
    } else if !step.Background? {
      WriterStepKeepsLogged(base, s, step);
      SameLogged(s, Next(s, step));
    } else if step.a.SwitchMemtable? {
      SwitchLogs(base, s);
      SameLogged(s, Next(s, step));
    } else {
      OtherStep(step);
      SnapshotStep(s, step.a);
      SameLogged(s, Next(s, step));
    }
    SameView(s, Next(s, step));
  }

  lemma OtherStep(step: Step)
    requires LeavesFiles(step) && step.Background? && !step.a.SwitchMemtable?
    ensures step.a.TakeSnapshot? || step.a.ReleaseSnapshot?
  {
  }

  lemma {:induction false} SameLogged(s: State, t: State)
    requires FilesOk(s) && t.db.history == s.db.history && Logged(t) == Logged(s)
    ensures |Logged(t)| <= |t.db.history| && FiledHistory(t) == FiledHistory(s) && t.db.history == Joined(FiledHistory(t), Logged(t))
  {
    hide Logged;
  }

  lemma {:induction false} SameView(s: State, t: State)
    requires FilesOk(s) && |Logged(t)| <= |t.db.history| && FiledHistory(t) == FiledHistory(s) && t.db.history == Joined(FiledHistory(t), Logged(t))
    requires FiledUpTo(t) == FiledUpTo(s) && t.db.version == s.db.version && t.db.horizon == s.db.horizon
    requires t.db.nextFileNumber == s.db.nextFileNumber
    ensures FilesOk(t) && FileView(t) == FileView(s)
  {
    hide Logged, FiledHistory, VersionEntries;
  }

  lemma {:induction false} LogGrowsBy(s: State, t: State, written: seq<Entry>)
    requires FilesOk(s) && t.db.history == Joined(s.db.history, written) && Logged(t) == Joined(Logged(s), written)
    ensures |Logged(t)| <= |t.db.history| && FiledHistory(t) == FiledHistory(s) && t.db.history == Joined(FiledHistory(t), Logged(t))
  {
    hide Logged;
    JoinedLength(s.db.history, written);
    JoinedLength(Logged(s), written);
    JoinedAssociates(FiledHistory(s), Logged(s), written);
  }

  lemma {:induction false} SnapshotStep(s: State, a: Action)
    requires Ready(s, Background(a)) && (a.TakeSnapshot? || a.ReleaseSnapshot?)
    ensures var t := Next(s, Background(a));
            t.db == s.db.(snapshots := t.db.snapshots) && FiledUpTo(t) == FiledUpTo(s) && Logged(t) == Logged(s)
  {
  }

  // ----- A flush -----

  const Never: Policy := Policy(_ => false, _ => 0)

  /** The immutable memtable holds what its log holds. */
  lemma {:induction false} ReplayOneMem(d: DbState, log: seq<Record>, n: nat, started: nat)
    requires Order(d) && d.imm.None? && d.mem == [] && d.lastSequence <= started && n <= |log|
    requires (forall j: nat :: j < n ==> RecordOk(log, j, started)) && SequenceAfter(log, n, started) < MAX_SEQUENCE_NUMBER
    ensures var w := Replay(d, log, n, Never);
            w.mem == MemOf(log, n) && w.version == d.version && w.nextFileNumber == d.nextFileNumber
  {
    hide Order, AllEntries, FaithfulFrom, RecordOk, SequenceAfter, Insert, AddAll, Grows;
    if n > 0 {
      assert RecordOk(log, n - 1, started);
      NextSequence(log, n - 1, started);
      ReplayOneMem(d, log, n - 1, started);
      ReplayGrows(d, log, n - 1, Never, started);
      GrownIsInOrder(d, Replay(d, log, n - 1, Never), EntriesOf(log, n - 1));
      InsertGrows(Replay(d, log, n - 1, Never), log[n - 1]);
    }
  }

  /** What the files and the log of the immutable memtable say together. */
  lemma {:induction false} ImmReplays(base: DbState, s: State)
    requires CommitInv(base, s) && FilesOk(s) && s.db.imm.Some?
    ensures var w := Replay(FileView(s), s.immLog, |s.immLog|, Never);
            Grows(FileView(s), w, ImmLogged(s)) && w.mem == s.db.imm.value && w.version == s.db.version && w.lastSequence <= s.started
    ensures s.started < MAX_SEQUENCE_NUMBER
  {
    FilesInOrder(base, s);
    hide Order, WritersOk, GroupOk, MemOk, SameWrites, Effects, RecordOk, SequenceAfter, MemOf, EntriesOf, Grows, Replay;
    var d := FileView(s);
    SettledInRange(base, s);
    ReplayGrows(d, s.immLog, |s.immLog|, Never, s.immStarted);
    ReplayOneMem(d, s.immLog, |s.immLog|, s.immStarted);
    StartsAt(s.immLog, |s.immLog|, s.immStarted);
  }

  lemma {:induction false} SettledInRange(base: DbState, s: State)
    requires CommitInv(base, s)
    ensures s.started <= s.db.lastSequence < MAX_SEQUENCE_NUMBER
  {
    hide WritersOk, GroupOk, MemOk, SameWrites, Effects, LogOk, SequenceAfter, MemoryInOrder, TreeInOrder, HistoryInOrder, SnapshotsInOrder;
    StartsAt(s.log, Settled(s), s.started);
  }

  lemma {:induction false} FlushedVersion(d: DbState, level: nat, size: nat)
    requires Order(d) && Enabled(d, Flush(level, size))
    ensures var w := Do(d, Flush(level, size)); VersionEntries(w.version) == ImmEntries(d) + VersionEntries(d.version)
    ensures var w := Do(d, Flush(level, size)); w == d.(imm := None, version := w.version, nextFileNumber := d.nextFileNumber + 1)
  {
    if d.imm.value != [] {
      FlushInstalls(d, level, size);
    }
  }

  lemma {:induction false} EntriesOfView(s: State)
    requires FilesOk(s)
    ensures AllEntries(FileView(s)) == VersionEntries(s.db.version)
  {
    hide Logged;
  }

  lemma {:induction false} ReplayedEntries(s: State, w: DbState)
    requires FilesOk(s) && s.db.imm.Some? && w.imm.None? && w.mem == s.db.imm.value && w.version == s.db.version
    ensures AllEntries(w) == ImmEntries(s.db) + VersionEntries(s.db.version)
  {
    hide Logged;
  }

  lemma {:induction false} LaterHorizon(d: DbState, w: DbState, user: Bytes, m: nat)
    requires FaithfulFrom(d, user, m) && AllEntries(w) == AllEntries(d) && w.history == d.history && d.horizon <= w.horizon
    ensures FaithfulFrom(w, user, m)
  {
  }

  lemma {:induction false} FlushState(s: State, level: nat, size: nat)
    requires Order(s.db) && Ready(s, Background(Flush(level, size)))
    ensures var t := Next(s, Background(Flush(level, size)));
            && s.db.imm.Some? && t.db.imm.None? && t.db.history == s.db.history && t.db.horizon == s.db.horizon
            && VersionEntries(t.db.version) == ImmEntries(s.db) + VersionEntries(s.db.version)
            && FiledUpTo(t) == s.started && Logged(t) == EntriesOf(s.log, Settled(s))
  {
    FlushedVersion(s.db, level, size);
    hide Order, VersionEntries, EntriesOf, FlushLevelOk;
  }

  lemma {:induction false} FlushedHistory(s: State, t: State)
    requires FilesOk(s) && t.db.history == s.db.history && Logged(s) == Joined(ImmLogged(s), Logged(t))
    ensures |Logged(t)| <= |t.db.history| && FiledHistory(t) == Joined(FiledHistory(s), ImmLogged(s))
    ensures t.db.history == Joined(FiledHistory(t), Logged(t))
  {
    hide Logged, ImmLogged;
    JoinedAssociates(FiledHistory(s), ImmLogged(s), Logged(t));
    JoinedLength(FiledHistory(s), ImmLogged(s));
    JoinedLength(ImmLogged(s), Logged(t));
    JoinedLength(FiledHistory(s), Logged(s));
  }

  lemma {:induction false} FlushLogs(base: DbState, s: State, level: nat, size: nat)
    requires CommitInv(base, s) && FilesOk(s) && Ready(s, Background(Flush(level, size)))
    ensures var t := Next(s, Background(Flush(level, size)));
            && FilesOk(t) && FiledHistory(t) == Joined(FiledHistory(s), ImmLogged(s)) && FiledUpTo(t) == s.started
            && AllEntries(FileView(t)) == ImmEntries(s.db) + VersionEntries(s.db.version)
            && t.db.horizon == s.db.horizon
  {
    OrderIsKnown(base, s);
    FlushState(s, level, size);
    ImmReplays(base, s);
    hide CommitInv, Ready, Next, Order, Logged, ImmLogged, VersionEntries, Replay, Settled, EntriesOf, Grows, FiledUpTo;
    var t := Next(s, Background(Flush(level, size)));
    var w := Replay(FileView(s), s.immLog, |s.immLog|, Never);
    LoggedSplits(s);
    FlushedHistory(s, t);
    ReplayedEntries(s, w);
    GrownIsInOrder(FileView(s), w, ImmLogged(s));
    InOrderUpTo(w);
    forall e | e in VersionEntries(t.db.version)
      ensures e.key.sequence <= FiledUpTo(t)
    {
      assert e in AllEntries(w);
    }
    EntriesOfView(t);
  }

  lemma {:induction false} LoggedSplits(s: State)
    ensures Logged(s) == Joined(ImmLogged(s), EntriesOf(s.log, Settled(s)))
  {
    hide EntriesOf;
  }

  lemma {:induction false} OrderIsKnown(base: DbState, s: State)
    requires CommitInv(base, s)
    ensures Order(s.db)
  {
    hide Order;
  }

  lemma {:induction false} InOrderUpTo(d: DbState)
    requires Order(d)
    ensures d.horizon <= d.lastSequence && forall e :: e in AllEntries(d) ==> e.key.sequence <= d.lastSequence
  {
  }

  lemma {:induction false} SameAsReplayed(d: DbState, w: DbState, e: DbState, written: seq<Entry>, user: Bytes, m: nat)
    requires Grows(d, w, written) && FaithfulFrom(d, user, m)
    requires AllEntries(e) == AllEntries(w) && e.history == Joined(d.history, written) && w.horizon <= e.horizon
    ensures FaithfulFrom(e, user, m)
  {
    hide AllEntries, Order;
    LaterHorizon(w, e, user, m);
  }

  lemma {:induction false} ViewGrows(s: State, t: State, w: DbState)
    requires FilesOk(s) && FilesOk(t) && FiledHistory(t) == Joined(FiledHistory(s), ImmLogged(s)) && FiledUpTo(t) == s.started
    requires t.db.horizon == s.db.horizon && w.horizon == FileView(s).horizon && w.horizon <= w.lastSequence <= s.started
    ensures FileView(t).history == Joined(FileView(s).history, ImmLogged(s)) && w.horizon <= FileView(t).horizon
  {
    hide FilesOk, Logged, ImmLogged, FiledHistory;
  }

  lemma {:induction false} FlushHasImm(s: State, level: nat, size: nat)
    requires Ready(s, Background(Flush(level, size)))
    ensures s.db.imm.Some?
  {
    hide FlushLevelOk, FlushedFile;
  }

  /** A flush moves writes from the logs to the files. */
  lemma {:induction false} FlushKeepsFileReads(base: DbState, s: State, level: nat, size: nat, user: Bytes, m: nat)
    requires CommitInv(base, s) && FilesOk(s) && Ready(s, Background(Flush(level, size))) && FaithfulFrom(FileView(s), user, m)
    ensures var t := Next(s, Background(Flush(level, size))); FilesOk(t) && FaithfulFrom(FileView(t), user, m)
  {
    FlushHasImm(s, level, size);
    hide CommitInv, Ready, Next, FilesOk, FileView, Logged, ImmLogged, AllEntries, FaithfulFrom, Replay, Order, Settled, FiledUpTo, FiledHistory;
    var t := Next(s, Background(Flush(level, size)));
    var w := Replay(FileView(s), s.immLog, |s.immLog|, Never);
    ImmReplays(base, s);
    FlushLogs(base, s, level, size);
    ReplayedEntries(s, w);
    InOrderUpTo(w);
    ViewGrows(s, t, w);
    SameAsReplayed(FileView(s), w, FileView(t), ImmLogged(s), user, m);
  }

  // ----- Moves and compactions -----

  /** Above all sequence numbers of its inputs, how large the smallest snapshot is makes no difference. */
  lemma {:induction false} KeptIsClipped(v: Levels, level: nat, merged: seq<Entry>, n: nat, m: nat, top: nat)
    requires n <= |merged| && forall e :: e in merged ==> e.key.sequence <= top
    ensures Kept(v, level, merged, n, Min(m, top)) == Kept(v, level, merged, n, m)
  {
    hide BaseLevel;
    if n > 0 {
      KeptIsClipped(v, level, merged, n - 1, m, top);
      assert merged[n - 1] in merged;
      if n > 1 { assert merged[n - 2] in merged; }
    }
  }

  lemma {:induction false} ClippedInOrder(base: DbState, s: State)
    requires CommitInv(base, s) && FilesOk(s)
    ensures Order(Clipped(s)) && SmallestSnapshot(Clipped(s)) == Min(SmallestSnapshot(s.db), FiledUpTo(s))
  {
    FilesInOrder(base, s);
    OrderIsKnown(base, s);
    HorizonIsBelow(s.db);
    hide CommitInv, Order, FilesOk, Logged, FiledHistory;
    SnapshotsKeepOrder(FileView(s), Clipped(s).snapshots);
  }

  lemma {:induction false} HorizonIsBelow(d: DbState)
    requires Order(d)
    ensures d.horizon <= SmallestSnapshot(d)
  {
  }

  lemma {:induction false} MergedAreFiled(s: State, c: Compaction)
    requires Order(s.db) && FilesOk(s) && ValidCompaction(s.db.version, c)
    ensures forall e :: e in MergedInput(c) ==> e.key.sequence <= FiledUpTo(s)
  {
    hide Logged, FiledUpTo, FiledHistory, MergedInput, ValidCompaction, ValidVersion;
    TreeIsValid(s.db);
    InputsMerge(s.db.version, c);
    VersionSplits(s.db.version, c);
    forall e | e in MergedInput(c)
      ensures e.key.sequence <= FiledUpTo(s)
    {
      assert e in Elements(MergedInput(c));
    }
  }

  lemma {:induction false} TreeIsValid(d: DbState)
    requires Order(d)
    ensures ValidVersion(d.version)
  {
  }

  /** For the files alone it is the same compaction. */
  lemma {:induction false} ClippedCompacts(base: DbState, s: State, c: Compaction, outputs: seq<FileMeta>)
    requires CommitInv(base, s) && FilesOk(s) && Enabled(s.db, Compact(c, outputs))
    ensures Enabled(Clipped(s), Compact(c, outputs))
  {
    OrderIsKnown(base, s);
    ClippedInOrder(base, s);
    MergedAreFiled(s, c);
    hide CommitInv, Order, FilesOk, Logged, FiledHistory, Kept, MergedInput, ValidCompaction;
    KeptIsClipped(s.db.version, c.level, MergedInput(c), |MergedInput(c)|, SmallestSnapshot(s.db), FiledUpTo(s));
  }

  lemma {:induction false} VersionChanges(s: State, t: State)
    requires FilesOk(s) && t == s.(db := t.db) && t.db.imm == s.db.imm && t.db.history == s.db.history
    requires VersionEntries(t.db.version) <= VersionEntries(s.db.version)
    ensures FilesOk(t) && FiledHistory(t) == FiledHistory(s) && FiledUpTo(t) == FiledUpTo(s)
  {
    assert Logged(t) == Logged(s);
    hide Logged, VersionEntries;
  }

  lemma {:induction false} CompactLogs(base: DbState, s: State, c: Compaction, outputs: seq<FileMeta>)
    requires CommitInv(base, s) && FilesOk(s) && Enabled(s.db, Compact(c, outputs))
    ensures var t := s.(db := AfterCompaction(s.db, c, outputs));
            FilesOk(t) && FileView(t) == AfterCompaction(Clipped(s), c, outputs).(snapshots := [])
  {
    OrderIsKnown(base, s);
    ClippedInOrder(base, s);
    FilesShrink(s.db, c, outputs);
    hide CommitInv, Order, ApplyEdit, CompactionDone, ValidCompaction, VersionEntries, FiledUpTo, Logged, FilesOk, FiledHistory;
    VersionChanges(s, s.(db := AfterCompaction(s.db, c, outputs)));
  }

  lemma {:induction false} FilesShrink(d: DbState, c: Compaction, outputs: seq<FileMeta>)
    requires Order(d) && Enabled(d, Compact(c, outputs))
    ensures VersionEntries(AfterCompaction(d, c, outputs).version) <= VersionEntries(d.version)
  {
    hide ApplyEdit, ValidVersion;
    CompactShrinks(d, c, outputs);
  }

  lemma {:induction false} CompactKeepsFileReads(base: DbState, s: State, c: Compaction, outputs: seq<FileMeta>, user: Bytes, m: nat)
    requires CommitInv(base, s) && FilesOk(s) && Enabled(s.db, Compact(c, outputs))
    requires FaithfulFrom(FileView(s), user, m) && !FilesLose(s, Compact(c, outputs), user)
    ensures var t := s.(db := AfterCompaction(s.db, c, outputs)); FilesOk(t) && FaithfulFrom(FileView(t), user, m)
  {
    ClippedInOrder(base, s);
    ClippedCompacts(base, s, c, outputs);
    CompactLogs(base, s, c, outputs);
    LevelIsBelow(s.db, c, outputs);
    hide CommitInv, Order, FilesOk, FaithfulFrom, CompactionDone, ValidCompaction, AfterCompaction, FileView, LosesKey;
    SnapshotsKeepReads(FileView(s), Clipped(s), user, m);
    CompactKeepsReads(Clipped(s), c, outputs, user, m);
    SnapshotsKeepReads(AfterCompaction(Clipped(s), c, outputs), AfterCompaction(Clipped(s), c, outputs).(snapshots := []), user, m);
  }

  lemma LevelIsBelow(d: DbState, c: Compaction, outputs: seq<FileMeta>)
    requires Enabled(d, Compact(c, outputs))
    ensures c.level + 1 < NUM_LEVELS
  {
  }

  lemma {:induction false} MoveLogs(base: DbState, s: State, c: Compaction)
    requires CommitInv(base, s) && FilesOk(s) && Enabled(s.db, Move(c))
    ensures var t := s.(db := Do(s.db, Move(c)));
            FilesOk(t) && AllEntries(FileView(t)) == AllEntries(FileView(s))
            && FileView(t).history == FileView(s).history && FileView(t).horizon == FileView(s).horizon
  {
    OrderIsKnown(base, s);
    MovedFiles(s.db, c);
    hide CommitInv, Order, ApplyEdit, ValidCompaction, VersionEntries, FiledUpTo, Logged, AllEntries, FilesOk, FiledHistory;
    var t := s.(db := Do(s.db, Move(c)));
    VersionChanges(s, t);
    EntriesOfView(s);
    EntriesOfView(t);
  }

  lemma {:induction false} MovedFiles(d: DbState, c: Compaction)
    requires Order(d) && Enabled(d, Move(c))
    ensures VersionEntries(Do(d, Move(c)).version) == VersionEntries(d.version)
  {
    hide ApplyEdit, ValidVersion;
    MoveInstalls(d, c);
  }

  // ----- Every step -----

  /** The files stay in order, and hold a beginning of the history. */
  lemma {:induction false} StepKeepsFiles(base: DbState, s: State, step: Step)
    requires CommitInv(base, s) && FilesOk(s) && Ready(s, step)
    ensures FilesOk(Next(s, step))
  {
    NextOfBackground(s, step);
    hide CommitInv, Ready, Next, FilesOk, Enabled, Do, AfterCompaction;
    if step.Background? && step.a.Flush? {
      FlushLogs(base, s, step.a.level, step.a.size);
    } else if step.Background? && step.a.Move? {
      MoveLogs(base, s, step.a.c);
    } else if step.Background? && step.a.Compact? {
      CompactLogs(base, s, step.a.c, step.a.outputs);
    } else {
      FilesStay(base, s, step);
    }
  }

  lemma {:induction false} NextOfBackground(s: State, step: Step)
    requires Ready(s, step)
    ensures step.Background? && step.a.Move? ==> Enabled(s.db, step.a) && Next(s, step) == s.(db := Do(s.db, step.a))
    ensures step.Background? && step.a.Compact? ==>
              Enabled(s.db, step.a) && Next(s, step) == s.(db := AfterCompaction(s.db, step.a.c, step.a.outputs))
    ensures step.Background? ==> !step.a.Write?
  {
    hide Enabled, ApplyEdit, AfterCompaction;
  }

  /** Reads of the files alone stay as they are unless a compaction loses the deletion of the key. */
  lemma {:induction false} StepKeepsFileReads(base: DbState, s: State, step: Step, user: Bytes, m: nat)
    requires CommitInv(base, s) && FilesOk(s) && Ready(s, step) && FaithfulFrom(FileView(s), user, m)
    requires step.Background? ==> !FilesLose(s, step.a, user)
    ensures FilesOk(Next(s, step)) && FaithfulFrom(FileView(Next(s, step)), user, m)
  {
    NextOfBackground(s, step);
    hide CommitInv, Ready, Next, FilesOk, FileView, Enabled, Do, AfterCompaction, FilesLose, FaithfulFrom;
    if step.Background? && step.a.Flush? {
      FlushKeepsFileReads(base, s, step.a.level, step.a.size, user, m);
    } else if step.Background? && step.a.Move? {
      MoveLogs(base, s, step.a.c);
      SameEntriesSameReads(FileView(s), FileView(Next(s, step)), user, m);
    } else if step.Background? && step.a.Compact? {
      CompactKeepsFileReads(base, s, step.a.c, step.a.outputs, user, m);
    } else {
      FilesStay(base, s, step);
    }
  }

  /** A compaction that splits no user key loses nothing in the files either. */
  lemma {:induction false} ClosedStepKeepsFiles(base: DbState, s: State, a: Action, user: Bytes)
    requires CommitInv(base, s) && FilesOk(s) && ClosedStep(s.db, a)
    ensures !FilesLose(s, a, user)
  {
    if a.Compact? {
      ClippedInOrder(base, s);
      ClippedCompacts(base, s, a.c, a.outputs);
      hide CommitInv, Order, FilesOk, CompactionDone, ValidCompaction, Loses;
      ClosedStepLosesNothing(Clipped(s), a, user);
    }
  }
}
