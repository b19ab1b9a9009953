/**
 * Crashes of the whole database: what the manifest and the two logs give back, and runs that go on after any number of
 * crashes.
 */
module CrashRecovery {
  import opened ByteOrder
  import opened DbFormat
  import opened Coding
  import opened KeyOrder
  import opened Version
  import opened VersionBuilder
  import CompactionInputs
  import opened CompactionReads
  import opened Install
  import opened Database
  import opened ClosedInputs
  import opened WriteBatches
  import opened GroupCommit
  import opened LogReplay
  import opened LogRecovery
  import opened FilesAlone
  import opened DBImplementation
  import ManifestReplay
  import LogFormat
  import LogFile

  // ----- A crash -----

  /**
   * A crash and the recovery after it: how many records are left of each log, the last sequence number and the next
   * file number in the manifest, and when recovery writes out memtables.
   */
  datatype Crash = Crash(immKept: nat, kept: nat, sequence: nat, fileNumber: nat, policy: Policy)

  function ImmDurable(s: State): nat {
    if s.db.imm.Some? then s.immDurable else 0
  }

  /** Synced records are not lost; the manifest is synced at every change of the version. */
  ghost predicate Possible(s: State, x: Crash) {
    && ImmDurable(s) <= x.immKept <= |ImmLog(s)|
    && s.durable <= x.kept <= |s.log|
    && FiledUpTo(s) <= x.sequence <= s.db.lastSequence
    && s.db.nextFileNumber <= x.fileNumber
  }

  ghost function AfterImmLog(s: State, x: Crash): DbState
    requires Possible(s, x)
  {
    ReplayLog(FileView(s).(nextFileNumber := x.fileNumber), ImmLog(s), x.immKept, x.policy)
  }

  /** The database after recovery: the files, and what is left of the two logs, as tables of level 0. */
  ghost function Reopened(s: State, x: Crash): DbState
    requires Possible(s, x)
  {
    SkipTo(ReplayLog(AfterImmLog(s, x), s.log, x.kept, x.policy), x.sequence)
  }

  /** What is left of the logs. */
  ghost function Saved(s: State, x: Crash): seq<Entry>
    requires Possible(s, x)
  {
    Joined(EntriesOf(ImmLog(s), x.immKept), EntriesOf(s.log, x.kept))
  }

  lemma {:induction false} LogNumbers(log: seq<Record>, k: nat, n: nat, started: nat)
    requires k <= n <= |log| && SequenceAfter(log, n, started) < MAX_SEQUENCE_NUMBER
    ensures SequenceAfter(log, k, started) < MAX_SEQUENCE_NUMBER
  {
    SequencesAscend(log, started, k, n);
  }

  /** Both logs can be replayed, also with a record at the end whose group is not complete. */
  lemma {:induction false} LogsReplay(base: DbState, s: State)
    requires CommitInv(base, s)
    ensures forall j: nat :: j < |s.log| ==> RecordOk(s.log, j, s.started)
    ensures SequenceAfter(s.log, |s.log|, s.started) < MAX_SEQUENCE_NUMBER
    ensures forall j: nat :: j < |ImmLog(s)| ==> RecordOk(ImmLog(s), j, FiledUpTo(s))
    ensures FiledUpTo(s) <= s.started && SequenceAfter(ImmLog(s), |ImmLog(s)|, FiledUpTo(s)) == s.started < MAX_SEQUENCE_NUMBER
  {
    SettledInRange(base, s);
    hide Order, WritersOk, MemOk, SameWrites, Effects, MemOf, GroupOps, OpFits;
    StartsAt(ImmLog(s), |ImmLog(s)|, FiledUpTo(s));
  }

  lemma {:induction false} FileNumbersSkip(d: DbState, n: nat)
    requires Order(d) && d.nextFileNumber <= n && d.imm.None?
    ensures Grows(d, d.(nextFileNumber := n), [])
  {
    var w := d.(nextFileNumber := n);
    assert Memory(w) == Memory(d) && AllEntries(w) == AllEntries(d);
    JoinedNothing(d.history);
    NoElements();
    assert AllEntries(d) + {} == AllEntries(d);
  }

  lemma {:induction false} SkipGrows(d: DbState, n: nat)
    requires Order(d) && n < MAX_SEQUENCE_NUMBER && d.imm.None?
    ensures Grows(d, SkipTo(d, n), [])
  {
    hide Order, AllEntries, FaithfulFrom;
    SkipKeeps(d, n);
    JoinedNothing(d.history);
    NoElements();
    assert AllEntries(d) + {} == AllEntries(d);
  }

  lemma {:induction false} ImmLogGrows(base: DbState, s: State, x: Crash)
    requires CommitInv(base, s) && FilesOk(s) && Possible(s, x)
    ensures Grows(FileView(s), AfterImmLog(s, x), EntriesOf(ImmLog(s), x.immKept)) && AfterImmLog(s, x).mem == []
    ensures AfterImmLog(s, x).lastSequence == if x.immKept == 0 then FiledUpTo(s) else SequenceAfter(ImmLog(s), x.immKept, FiledUpTo(s))
  {
    FilesInOrder(base, s);
    LogsReplay(base, s);
    ViewParts(s);
    hide CommitInv, FilesOk, Order, FileView, FiledUpTo, ImmLog, EntriesOf, SequenceAfter, RecordOk, ReplayLog, Grows;
    var d := FileView(s);
    var e := d.(nextFileNumber := x.fileNumber);
    FileNumbersSkip(d, x.fileNumber);
    GrownIsInOrder(d, e, []);
    LogNumbers(ImmLog(s), x.immKept, |ImmLog(s)|, FiledUpTo(s));
    ReplayLogGrows(e, ImmLog(s), x.immKept, x.policy, FiledUpTo(s));
    GrowsOn(d, e, AfterImmLog(s, x), [], EntriesOf(ImmLog(s), x.immKept));
  }

  lemma {:induction false} ViewParts(s: State)
    ensures var d := FileView(s);
            && d.mem == [] && d.imm.None? && d.version == s.db.version && d.lastSequence == FiledUpTo(s) && d.snapshots == []
            && d.nextFileNumber == s.db.nextFileNumber && d.history == FiledHistory(s)
  {
  }

  lemma {:induction false} ImmLogEnds(base: DbState, s: State, x: Crash)
    requires CommitInv(base, s) && FilesOk(s) && Possible(s, x)
    ensures AfterImmLog(s, x).lastSequence <= s.started && Order(AfterImmLog(s, x)) && AfterImmLog(s, x).imm.None?
  {
    ImmLogGrows(base, s, x);
    LogsReplay(base, s);
    hide CommitInv, FilesOk, Order, FileView, FiledUpTo, ImmLog, EntriesOf, RecordOk, AfterImmLog, SequenceAfter;
    SequencesAscend(ImmLog(s), FiledUpTo(s), x.immKept, |ImmLog(s)|);
  }

  /** Replaying one more log on what an earlier one left. */
  lemma {:induction false} SecondLogGrows(d: DbState, e: DbState, before: seq<Entry>, log: seq<Record>, k: nat, p: Policy, started: nat, n: nat)
    requires Grows(d, e, before) && e.mem == [] && e.lastSequence <= started && k <= |log| && n < MAX_SEQUENCE_NUMBER
    requires (forall j: nat :: j < k ==> RecordOk(log, j, started)) && SequenceAfter(log, k, started) < MAX_SEQUENCE_NUMBER
    ensures var w := SkipTo(ReplayLog(e, log, k, p), n); Grows(d, w, Joined(before, EntriesOf(log, k))) && w.mem == []
  {
    hide Order, EntriesOf, RecordOk, ReplayLog, SequenceAfter, Grows;
    var f, written := ReplayLog(e, log, k, p), EntriesOf(log, k);
    GrownIsInOrder(d, e, before);
    ReplayLogGrows(e, log, k, p, started);
    GrownIsInOrder(e, f, written);
    GrowsOn(d, e, f, before, written);
    SkipGrows(f, n);
    GrowsOn(d, f, SkipTo(f, n), Joined(before, written), []);
    JoinedNothing(Joined(before, written));
  }

  lemma {:induction false} ReopenedGrows(base: DbState, s: State, x: Crash)
    requires CommitInv(base, s) && FilesOk(s) && Possible(s, x)
    ensures Grows(FileView(s), Reopened(s, x), Saved(s, x)) && Reopened(s, x).mem == []
  {
    ImmLogGrows(base, s, x);
    ImmLogEnds(base, s, x);
    LogsReplay(base, s);
    SettledInRange(base, s);
    hide CommitInv, FilesOk, Order, FileView, FiledUpTo, ImmLog, EntriesOf, RecordOk, ReplayLog, AfterImmLog, SequenceAfter, Grows, SkipTo, Joined;
    LogNumbers(s.log, x.kept, |s.log|, s.started);
    SecondLogGrows(FileView(s), AfterImmLog(s, x), EntriesOf(ImmLog(s), x.immKept), s.log, x.kept, x.policy, s.started, x.sequence);
  }

  /**
   * What comes back is a database in order, ready to be opened. Its history is that of the files followed by what is
   * left of the logs, and keys that the files read right are read right.
   */
  lemma {:induction false} ReopenedIsRight(base: DbState, s: State, x: Crash)
    requires CommitInv(base, s) && FilesOk(s) && Possible(s, x)
    ensures Opened(Reopened(s, x)) && Reopened(s, x).snapshots == []
    ensures Reopened(s, x).history == Joined(FiledHistory(s), Saved(s, x))
    ensures AllEntries(Reopened(s, x)) == VersionEntries(s.db.version) + Elements(Saved(s, x))
    ensures forall user, m :: FaithfulFrom(FileView(s), user, m) ==> FaithfulFrom(Reopened(s, x), user, m)
  {
    ReopenedGrows(base, s, x);
    ViewParts(s);
    EntriesOfView(s);
    hide CommitInv, FilesOk, Order, FileView, FiledHistory, Saved, Reopened, AllEntries, FaithfulFrom, VersionEntries;
  }

  // ----- What lasts -----

  /** One of the first `n` records is that of a group with a sync writer and holds the entry. */
  ghost predicate InSyncRecord(log: seq<Record>, n: nat, e: Entry)
    requires n <= |log|
  {
    exists j: nat, w :: j < n && w in log[j].members && w.sync && e in Numbered(log[j].ops, |log[j].ops|, log[j].sequence)
  }

  /** In a file, or in the record of a completed group with a sync writer. */
  ghost predicate Lasting(s: State, e: Entry) {
    e in FiledHistory(s) || InSyncRecord(ImmLog(s), |ImmLog(s)|, e) || InSyncRecord(s.log, Settled(s), e)
  }

  lemma {:induction false} RecordIsKept(log: seq<Record>, j: nat, n: nat, e: Entry)
    requires j < n <= |log| && e in Numbered(log[j].ops, |log[j].ops|, log[j].sequence)
    ensures e in EntriesOf(log, n)
    decreases n - j
  {
    hide Numbered;
    if j < n - 1 {
      RecordIsKept(log, j, n - 1, e);
    }
  }

  lemma {:induction false} SyncRecordIsKept(log: seq<Record>, n: nat, k: nat, started: nat, durable: nat, mem: seq<Entry>, e: Entry)
    requires LogOk(log, n, started, durable, mem) && InSyncRecord(log, n, e) && durable <= k <= |log|
    ensures e in EntriesOf(log, k)
  {
    hide RecordOk, Numbered;
    var j: nat, w :| j < n && w in log[j].members && w.sync && e in Numbered(log[j].ops, |log[j].ops|, log[j].sequence);
    RecordIsKept(log, j, k, e);
  }

  lemma {:induction false} LogsAreOk(base: DbState, s: State)
    requires CommitInv(base, s)
    ensures LogOk(s.log, Settled(s), s.started, s.durable, s.db.mem)
    ensures s.db.imm.Some? ==> LogOk(ImmLog(s), |ImmLog(s)|, FiledUpTo(s), ImmDurable(s), s.db.imm.value)
  {
    hide Order, WritersOk, GroupOk, MemOk, SameWrites, Effects, LogOk, SequenceAfter;
  }

  /** No crash takes what lasts. */
  lemma {:induction false} LastingSurvives(base: DbState, s: State, x: Crash, e: Entry)
    requires CommitInv(base, s) && FilesOk(s) && Possible(s, x) && Lasting(s, e)
    ensures e in Reopened(s, x).history
  {
    ReopenedIsRight(base, s, x);
    LogsAreOk(base, s);
    hide CommitInv, FilesOk, LogOk, Reopened, EntriesOf, Settled, FiledHistory, ImmLog, FiledUpTo, InSyncRecord;
    if InSyncRecord(s.log, Settled(s), e) {
      SyncRecordIsKept(s.log, Settled(s), x.kept, s.started, s.durable, s.db.mem, e);
    } else if InSyncRecord(ImmLog(s), |ImmLog(s)|, e) {
      SomeImmLog(s, e);
      SyncRecordIsKept(ImmLog(s), |ImmLog(s)|, x.immKept, FiledUpTo(s), ImmDurable(s), s.db.imm.value, e);
    }
  }

  lemma {:induction false} SomeImmLog(s: State, e: Entry)
    requires InSyncRecord(ImmLog(s), |ImmLog(s)|, e)
    ensures s.db.imm.Some?
  {
    hide Numbered;
  }

  /** It is part of the history. */
  lemma {:induction false} LastingIsWritten(base: DbState, s: State, e: Entry)
    requires CommitInv(base, s) && FilesOk(s) && Lasting(s, e)
    ensures e in s.db.history
  {
    assert Settled(s) <= |s.log|;
    hide CommitInv, EntriesOf, Settled, FiledHistory, ImmLog, FiledUpTo, Numbered;
    LoggedSplits(s);
    if InSyncRecord(s.log, Settled(s), e) {
      var j: nat, w :| j < Settled(s) && w in s.log[j].members && w.sync && e in Numbered(s.log[j].ops, |s.log[j].ops|, s.log[j].sequence);
      RecordIsKept(s.log, j, Settled(s), e);
    } else if InSyncRecord(ImmLog(s), |ImmLog(s)|, e) {
      var log := ImmLog(s);
      var j: nat, w :| j < |log| && w in log[j].members && w.sync && e in Numbered(log[j].ops, |log[j].ops|, log[j].sequence);
      RecordIsKept(log, j, |log|, e);
    }
  }

  lemma {:induction false} SyncRecordStays(log: seq<Record>, more: seq<Record>, n: nat, m: nat, e: Entry)
    requires n <= |log| && n <= m <= |more| && (forall i :: 0 <= i < n ==> more[i] == log[i]) && InSyncRecord(log, n, e)
    ensures InSyncRecord(more, m, e)
  {
    hide Numbered;
    var j: nat, w :| j < n && w in log[j].members && w.sync && e in Numbered(log[j].ops, |log[j].ops|, log[j].sequence);
    assert w in more[j].members;
  }

  /** How a step changes the logs. */
  lemma {:induction false} LogsAfterStep(base: DbState, s: State, step: Step)
    requires CommitInv(base, s) && Ready(s, step)
    ensures var t := Next(s, step);
            if step.Background? && step.a.SwitchMemtable? then s.db.imm.None? && ImmLog(t) == s.log && Settled(s) == |s.log|
            else
              && Settled(s) <= Settled(t) && Settled(s) <= |s.log| <= |t.log| && (forall i :: 0 <= i < Settled(s) ==> t.log[i] == s.log[i])
              && (ImmLog(t) == ImmLog(s) || (step.Background? && step.a.Flush?))
  {
    hide Order, WritersOk, MemOk, SameWrites, Effects, LogOk, SequenceAfter, GroupOps, GroupSize, OpFits, WriteAll, AddToMem, EntryOf, ApplyEdit;
    if step.Complete? {
      WriteAllInserts(s.db, s.leader.value.ops);
    }
  }

  lemma {:induction false} FiledGrows(base: DbState, s: State, step: Step, e: Entry)
    requires CommitInv(base, s) && FilesOk(s) && Ready(s, step)
    ensures e in FiledHistory(s) ==> e in FiledHistory(Next(s, step))
    ensures step.Background? && step.a.Flush? && e in ImmLogged(s) ==> e in FiledHistory(Next(s, step))
  {
    NextOfBackground(s, step);
    ViewParts(s);
    ViewParts(Next(s, step));
    hide CommitInv, Ready, Next, FilesOk, FileView, FiledHistory, ImmLogged, Enabled, Do, AfterCompaction;
    if step.Background? && step.a.Flush? {
      FlushLogs(base, s, step.a.level, step.a.size);
    } else if step.Background? && step.a.Move? {
      MoveLogs(base, s, step.a.c);
    } else if step.Background? && step.a.Compact? {
      CompactLogs(base, s, step.a.c, step.a.outputs);
      CompactionWritesNothing(Clipped(s), step.a.c, step.a.outputs);
      ViewParts(s);
      ClippedHistory(s);
    } else {
      FilesStay(base, s, step);
    }
  }

  lemma CompactionWritesNothing(d: DbState, c: CompactionInputs.Compaction, outputs: seq<FileMeta>)
    ensures AfterCompaction(d, c, outputs).history == d.history
  {
  }

  lemma ClippedHistory(s: State)
    ensures Clipped(s).history == FileView(s).history
  {
  }

  /** What lasts, lasts through every step. */
  lemma {:induction false} LastingStays(base: DbState, s: State, step: Step, e: Entry)
    requires CommitInv(base, s) && FilesOk(s) && Ready(s, step) && Lasting(s, e)
    ensures Lasting(Next(s, step), e)
  {
    LogsAfterStep(base, s, step);
    FiledGrows(base, s, step, e);
    hide CommitInv, Ready, Next, FilesOk, FiledHistory, InSyncRecord, ImmLog, Settled, EntriesOf;
    var t := Next(s, step);
    if InSyncRecord(s.log, Settled(s), e) {
      if step.Background? && step.a.SwitchMemtable? {
        SyncRecordStays(s.log, ImmLog(t), |s.log|, |s.log|, e);
      } else {
        SyncRecordStays(s.log, t.log, Settled(s), Settled(t), e);
      }
    } else if InSyncRecord(ImmLog(s), |ImmLog(s)|, e) {
      SomeImmLog(s, e);
      SyncRecordIsLogged(s, e);
    }
  }

  lemma {:induction false} SyncRecordIsLogged(s: State, e: Entry)
    requires InSyncRecord(ImmLog(s), |ImmLog(s)|, e)
    ensures e in ImmLogged(s)
  {
    hide ImmLog, Numbered, EntriesOf;
    var log := ImmLog(s);
    var j: nat, w :| j < |log| && w in log[j].members && w.sync && e in Numbered(log[j].ops, |log[j].ops|, log[j].sequence);
    RecordIsKept(log, j, |log|, e);
  }

  /** The writes of a group with a sync writer last from its completion on. */
  lemma {:induction false} SyncGroupLasts(base: DbState, s: State, w: Writer, e: Entry)
    requires CommitInv(base, s) && Ready(s, Complete) && w in s.queue[..s.leader.value.count] && w.sync
    requires e in Numbered(s.leader.value.ops, |s.leader.value.ops|, s.db.lastSequence + 1)
    ensures Lasting(Next(s, Complete), e)
  {
    hide Order, WritersOk, MemOk, SameWrites, Effects, LogOk, SequenceAfter, GroupOps, OpFits, Numbered, WriteAll, Enabled, FiledHistory;
    var t := Next(s, Complete);
    var j := |s.log| - 1;
    assert t.log == s.log && t.log[j] == RecordOf(s) && Settled(t) == |s.log|;
    assert w in t.log[j].members;
  }

  // ----- What is lost in the middle -----

  /** Every write that a log has got, also of a group that is not complete. */
  ghost function AllWrites(s: State): seq<Entry> {
    Joined(FiledHistory(s), Joined(ImmLogged(s), EntriesOf(s.log, |s.log|)))
  }

  lemma {:induction false} EntriesArePrefix(log: seq<Record>, k: nat, n: nat)
    requires k <= n <= |log|
    ensures EntriesOf(log, k) <= EntriesOf(log, n)
    decreases n - k
  {
    hide Numbered;
    if k < n {
      EntriesArePrefix(log, k, n - 1);
    }
  }

  lemma {:induction false} PrefixOfThree(f: seq<Entry>, a: seq<Entry>, b: seq<Entry>, i: nat, j: nat)
    requires i <= |a| && j <= |b|
    requires i < |a| && j > 0 ==> a[i] != b[0]
    ensures Joined(f, Joined(a[..i], b[..j])) <= Joined(f, Joined(a, b)) <==> i == |a| || j == 0
  {
    var some, all := Joined(f, Joined(a[..i], b[..j])), Joined(f, Joined(a, b));
    if i == |a| || j == 0 {
      assert some == all[..|f| + i + j];
    } else {
      assert some[|f| + i] == b[0] && all[|f| + i] == a[i];
    }
  }

  /** Whatever is in the newer log has larger sequence numbers. */
  lemma {:induction false} NewerLogIsLater(base: DbState, s: State, i: nat, j: nat)
    requires CommitInv(base, s) && i < |ImmLogged(s)| && j < |EntriesOf(s.log, |s.log|)|
    ensures ImmLogged(s)[i] != EntriesOf(s.log, |s.log|)[j]
  {
    LogsReplay(base, s);
    hide CommitInv, FiledUpTo, ImmLog, EntriesOf, RecordOk, SequenceAfter;
    EntriesAreNumbered(ImmLog(s), |ImmLog(s)|, FiledUpTo(s));
    EntriesAreNumbered(s.log, |s.log|, s.started);
  }

  /**
   * The history that comes back is a beginning of what was written, unless the log of the immutable memtable has lost
   * a write and the newer log has kept one.
   */
  lemma {:induction false} LostInTheMiddle(base: DbState, s: State, x: Crash)
    requires CommitInv(base, s) && FilesOk(s) && Possible(s, x)
    ensures Reopened(s, x).history <= AllWrites(s) <==>
            EntriesOf(ImmLog(s), x.immKept) == ImmLogged(s) || EntriesOf(s.log, x.kept) == []
  {
    ReopenedIsRight(base, s, x);
    hide CommitInv, FilesOk, Reopened, FiledHistory, FiledUpTo, ImmLog, EntriesOf, Joined;
    var a, b := ImmLogged(s), EntriesOf(s.log, |s.log|);
    EntriesArePrefix(ImmLog(s), x.immKept, |ImmLog(s)|);
    EntriesArePrefix(s.log, x.kept, |s.log|);
    var i, j := |EntriesOf(ImmLog(s), x.immKept)|, |EntriesOf(s.log, x.kept)|;
    if i < |a| && j > 0 {
      NewerLogIsLater(base, s, i, 0);
    }
    PrefixOfThree(FiledHistory(s), a, b, i, j);
    SameLengthSamePrefix(EntriesOf(ImmLog(s), x.immKept), a);
    SameLengthSamePrefix(EntriesOf(s.log, x.kept), b);
  }

  lemma SameLengthSamePrefix(a: seq<Entry>, b: seq<Entry>)
    requires a <= b
    ensures b[..|a|] == a && (|a| == |b| <==> a == b)
  {
  }

  /** If only the process crashes, and the logs are whole, no write is lost. */
  lemma {:induction false} WholeLogsLoseNothing(base: DbState, s: State, x: Crash)
    requires CommitInv(base, s) && FilesOk(s) && Possible(s, x) && x.immKept == |ImmLog(s)| && x.kept == |s.log|
    ensures Reopened(s, x).history == AllWrites(s) && s.db.history <= AllWrites(s)
  {
    ReopenedIsRight(base, s, x);
    LoggedSplits(s);
    assert Settled(s) <= |s.log|;
    hide CommitInv, Reopened, FiledHistory, FiledUpTo, ImmLog, EntriesOf, FilesAlone.Logged, Settled, ImmLogged, VersionEntries;
    EntriesArePrefix(s.log, Settled(s), |s.log|);
    LongerTail(FiledHistory(s), ImmLogged(s), EntriesOf(s.log, Settled(s)), EntriesOf(s.log, |s.log|));
  }

  lemma LongerTail(f: seq<Entry>, a: seq<Entry>, b: seq<Entry>, c: seq<Entry>)
    requires b <= c
    ensures Joined(f, Joined(a, b)) <= Joined(f, Joined(a, c))
  {
  }

  // ----- Runs with crashes -----

  /** A database that has been opened on `base`, and its state. */
  datatype Process = Process(base: DbState, s: State)

  datatype Event = Take(step: Step) | CrashAndReopen(x: Crash)

  ghost predicate Occurs(p: Process, event: Event) {
    match event
    case Take(step) => Ready(p.s, step)
    case CrashAndReopen(x) => Possible(p.s, x)
  }

  ghost function Afterwards(p: Process, event: Event): Process
    requires Occurs(p, event)
  {
    match event
    case Take(step) => p.(s := Next(p.s, step))
    case CrashAndReopen(x) => Process(Reopened(p.s, x), Start(Reopened(p.s, x)))
  }

  ghost predicate IsCrashRun(ps: seq<Process>, events: seq<Event>) {
    && |ps| == |events| + 1 && ps[0] == Process(EMPTY_DB, Start(EMPTY_DB))
    && forall i :: 0 <= i < |events| ==> Occurs(ps[i], events[i]) && ps[i + 1] == Afterwards(ps[i], events[i])
  }

  ghost predicate ProcessOk(p: Process) {
    Opened(p.base) && CommitInv(p.base, p.s) && FilesOk(p.s)
  }

  lemma {:induction false} JustOpened(base: DbState)
    requires Opened(base) && base.snapshots == []
    ensures ProcessOk(Process(base, Start(base))) && FileView(Start(base)) == base && FiledHistory(Start(base)) == base.history
  {
    StartInv(base);
    StartIsFiled(base);
  }

  lemma {:induction false} StartIsFiled(base: DbState)
    requires Opened(base) && base.snapshots == []
    ensures FilesOk(Start(base)) && FileView(Start(base)) == base && FiledHistory(Start(base)) == base.history
  {
    var s := Start(base);
    NoRecordsNoEntries();
    assert FilesAlone.Logged(s) == [];
    JoinedNothing(base.history);
    HorizonInRange(base);
    VersionInRange(base);
    hide Order, VersionEntries;
  }

  lemma HorizonInRange(d: DbState)
    requires Order(d)
    ensures d.horizon <= d.lastSequence
  {
  }

  lemma VersionInRange(d: DbState)
    requires Order(d)
    ensures forall e :: e in VersionEntries(d.version) ==> e.key.sequence <= d.lastSequence
  {
    assert VersionEntries(d.version) <= AllEntries(d);
  }

  lemma {:induction false} EventKeepsOk(p: Process, event: Event)
    requires ProcessOk(p) && Occurs(p, event)
    ensures ProcessOk(Afterwards(p, event))
  {
    hide Opened, CommitInv, FilesOk, Ready, Next, Possible, Reopened, Start;
    match event
    case Take(step) =>
      CommitStepKeepsInv(p.base, p.s, step);
      StepKeepsFiles(p.base, p.s, step);
    case CrashAndReopen(x) =>
      ReopenedIsRight(p.base, p.s, x);
      JustOpened(Reopened(p.s, x));
  }

  lemma {:induction false} EmptyIsOpened()
    ensures Opened(EMPTY_DB) && EMPTY_DB.snapshots == [] && Faithful(EMPTY_DB)
  {
    EmptyDbInv();
  }

  /** Over every run with any number of crashes, the store, its logs and its files stay in order. */
  lemma {:induction false} CrashRunKeepsOrder(ps: seq<Process>, events: seq<Event>, i: nat)
    requires IsCrashRun(ps, events) && i < |ps|
    ensures ProcessOk(ps[i])
  {
    hide ProcessOk, Occurs, Afterwards, Start;
    if i == 0 {
      EmptyIsOpened();
      JustOpened(EMPTY_DB);
    } else {
      CrashRunKeepsOrder(ps, events, i - 1);
      EventKeepsOk(ps[i - 1], events[i - 1]);
    }
  }

  lemma {:induction false} EventKeepsLasting(p: Process, event: Event, e: Entry)
    requires ProcessOk(p) && Occurs(p, event) && Lasting(p.s, e)
    ensures Lasting(Afterwards(p, event).s, e)
  {
    hide Opened, CommitInv, FilesOk, Ready, Next, Possible, Reopened, Start, InSyncRecord;
    match event
    case Take(step) => LastingStays(p.base, p.s, step, e);
    case CrashAndReopen(x) =>
      ReopenedIsRight(p.base, p.s, x);
      JustOpened(Reopened(p.s, x));
      LastingSurvives(p.base, p.s, x, e);
  }

  /** A write of a sync writer that has completed is part of the history ever after, whatever crashes come. */
  lemma {:induction false} LastingForever(ps: seq<Process>, events: seq<Event>, j: nat, i: nat, e: Entry)
    requires IsCrashRun(ps, events) && j <= i < |ps| && Lasting(ps[j].s, e)
    ensures Lasting(ps[i].s, e) && e in ps[i].s.db.history
  {
    hide ProcessOk, Occurs, Afterwards, Lasting;
    if j < i {
      LastingForever(ps, events, j, i - 1, e);
      CrashRunKeepsOrder(ps, events, i - 1);
      EventKeepsLasting(ps[i - 1], events[i - 1], e);
    }
    CrashRunKeepsOrder(ps, events, i);
    LastingInProcess(ps[i], e);
  }

  lemma {:induction false} LastingInProcess(p: Process, e: Entry)
    requires ProcessOk(p) && Lasting(p.s, e)
    ensures e in p.s.db.history
  {
    hide Opened, CommitInv, FilesOk, Lasting;
    LastingIsWritten(p.base, p.s, e);
  }

  // ----- Reads in runs with crashes -----

  /** No compaction among the first `n` events loses the deletion of the key, be it in the store or in the files alone. */
  ghost predicate KeptThroughCrashes(ps: seq<Process>, events: seq<Event>, n: nat, user: Bytes)
    requires |ps| == |events| + 1 && n <= |events|
  {
    forall k :: 0 <= k < n && events[k].Take? && events[k].step.Background? ==>
      !Loses(ps[k].s.db, events[k].step.a, user) && !FilesLose(ps[k].s, events[k].step.a, user)
  }

  lemma {:induction false} CommitStepKeepsReads(base: DbState, s: State, step: Step, user: Bytes, m: nat)
    requires CommitInv(base, s) && Ready(s, step) && FaithfulFrom(s.db, user, m)
    requires step.Background? ==> !Loses(s.db, step.a, user)
    ensures FaithfulFrom(Next(s, step).db, user, m)
  {
    DbAfterStep(base, s, step);
    OrderIsKnown(base, s);
    hide CommitInv, Ready, Next, Order, FaithfulFrom, Enabled, Do, Loses;
    if step.Complete? {
      StepKeepsReads(s.db, Write(s.leader.value.ops), user, m);
    } else if step.Background? {
      StepKeepsReads(s.db, step.a, user, m);
    }
  }

  lemma {:induction false} DbAfterStep(base: DbState, s: State, step: Step)
    requires CommitInv(base, s) && Ready(s, step)
    ensures if step.Complete? then
              s.leader.Some? && var a := Write(s.leader.value.ops); Enabled(s.db, a) && Next(s, step).db == Do(s.db, a)
            else if step.Background? then Enabled(s.db, step.a) && Next(s, step).db == Do(s.db, step.a)
            else Next(s, step).db == s.db
  {
    hide Order, WritersOk, LogsOk, MemOk, SameWrites, Effects, GroupOps, GroupSize, OpFits, WriteAll, AddToMem, EntryOf, ApplyEdit;
  }

  /** Over every run with crashes: a key whose deletion is never lost is read as its newest write that is left. */
  lemma {:induction false} CrashRunKeepsReads(ps: seq<Process>, events: seq<Event>, i: nat, user: Bytes)
    requires IsCrashRun(ps, events) && i < |ps| && KeptThroughCrashes(ps, events, i, user)
    ensures FaithfulFrom(ps[i].s.db, user, 0) && FaithfulFrom(FileView(ps[i].s), user, 0)
  {
    hide ProcessOk, Occurs, Afterwards, Start, FaithfulFrom, FileView, Loses, FilesLose;
    if i == 0 {
      EmptyIsOpened();
      JustOpened(EMPTY_DB);
      StartHasBase(EMPTY_DB);
    } else {
      CrashRunKeepsReads(ps, events, i - 1, user);
      CrashRunKeepsOrder(ps, events, i - 1);
      EventKeepsReads(ps[i - 1], events[i - 1], user);
    }
  }

  lemma StartHasBase(base: DbState)
    ensures Start(base).db == base
  {
  }

  lemma {:induction false} EventKeepsReads(p: Process, event: Event, user: Bytes)
    requires ProcessOk(p) && Occurs(p, event) && FaithfulFrom(p.s.db, user, 0) && FaithfulFrom(FileView(p.s), user, 0)
    requires event.Take? && event.step.Background? ==> !Loses(p.s.db, event.step.a, user) && !FilesLose(p.s, event.step.a, user)
    ensures var q := Afterwards(p, event); FaithfulFrom(q.s.db, user, 0) && FaithfulFrom(FileView(q.s), user, 0)
  {
    hide Opened, CommitInv, FilesOk, Ready, Next, Possible, Reopened, Start, FaithfulFrom, FileView, Loses, FilesLose;
    match event
    case Take(step) =>
      CommitStepKeepsReads(p.base, p.s, step, user, 0);
      StepKeepsFileReads(p.base, p.s, step, user, 0);
    case CrashAndReopen(x) =>
      ReopenedIsRight(p.base, p.s, x);
      JustOpened(Reopened(p.s, x));
      StartHasBase(Reopened(p.s, x));
  }

  /** Compactions that split no user key lose no deletion in any such run. */
  lemma {:induction false} ClosedCrashRunKeepsAll(ps: seq<Process>, events: seq<Event>, n: nat, user: Bytes)
    requires IsCrashRun(ps, events) && n <= |events|
    requires forall k :: 0 <= k < n && events[k].Take? && events[k].step.Background? ==> ClosedStep(ps[k].s.db, events[k].step.a)
    ensures KeptThroughCrashes(ps, events, n, user)
  {
    hide ProcessOk, Occurs, Afterwards, Start, ClosedStep, Loses, FilesLose;
    forall k | 0 <= k < n && events[k].Take? && events[k].step.Background?
      ensures !Loses(ps[k].s.db, events[k].step.a, user) && !FilesLose(ps[k].s, events[k].step.a, user)
    {
      CrashRunKeepsOrder(ps, events, k);
      ClosedLosesNothing(ps[k], events[k].step.a, user);
    }
  }

  lemma {:induction false} ClosedLosesNothing(p: Process, a: Action, user: Bytes)
    requires ProcessOk(p) && ClosedStep(p.s.db, a)
    ensures !Loses(p.s.db, a, user) && !FilesLose(p.s, a, user)
  {
    ProcessInOrder(p);
    hide Opened, CommitInv, FilesOk, Order, ClosedStep, Loses, FilesLose;
    ClosedStepLosesNothing(p.s.db, a, user);
    ClosedStepKeepsFiles(p.base, p.s, a, user);
  }

  /**
   * Over every run with crashes: Get at a live snapshot, or at the present, returns the newest write that is left and
   * not after it, deletions reading as nothing, unless a compaction has lost the deletion of that very key.
   */
  method GetAfterCrashes(db: DBImpl, ghost ps: seq<Process>, ghost events: seq<Event>, user: Bytes, snapshot: Option<nat>)
    returns (value: Option<Bytes>)
    requires IsCrashRun(ps, events) && db.State() == ps[|events|].s.db
    requires snapshot.Some? ==> snapshot.value in db.snapshots
    ensures KeptThroughCrashes(ps, events, |events|, user) ==> value == ReadLog(db.history, user, db.ReadSequence(snapshot))
  {
    CrashRunKeepsOrder(ps, events, |events|);
    ProcessInOrder(ps[|events|]);
    hide ProcessOk, Occurs, Afterwards, Start, Order, KeptThroughCrashes, AllEntries;
    if KeptThroughCrashes(ps, events, |events|, user) {
      CrashRunKeepsReads(ps, events, |events|, user);
    }
    value := db.Get(user, snapshot);
  }

  lemma {:induction false} ProcessInOrder(p: Process)
    requires ProcessOk(p)
    ensures Order(p.s.db)
  {
    OrderIsKnown(p.base, p.s);
  }

  // ----- Recovery from the bytes of the logs -----

  /** The records in the log files; those that are synced are in the file up to `size`, whatever the crash cut off. */
  ghost predicate LogFileCut(sum: LogFormat.Checksum, records: seq<Bytes>, log: seq<Record>, started: nat, durable: nat, size: nat) {
    && EncodesLog(records, log, started) && durable <= |records|
    && |LogFormat.EncodeLog(sum, records, durable)| <= size <= |LogFormat.EncodeLog(sum, records, |records|)|
  }

  /** WriteLevel0Table for one table after the other. */
  method WriteTables(tables: seq<seq<Entry>>, number: nat, size: seq<Entry> -> nat) returns (edit: VersionEdit, next: nat)
    ensures edit == VersionEdit({}, TableFiles(tables, |tables|, number, size)) && next == number + |tables|
  {
    var files: seq<(nat, FileMeta)> := [];
    next := number;
    for i := 0 to |tables|
      invariant files == TableFiles(tables, i, number, size) && next == number + i
    {
      var es := tables[i];
      if es != [] {
        files := Joined(files, [(0, FileMeta(next, size(es), es[0].key, es[|es| - 1].key, es))]);
      }
      next := next + 1;
    }
    edit := VersionEdit({}, files);
  }

  lemma {:induction false} TablesFollow(v: Levels, a: seq<seq<Entry>>, b: seq<seq<Entry>>, n: nat, number: nat, size: seq<Entry> -> nat)
    requires n <= |b|
    ensures AfterTables(v, a + b, |a| + n, number, size) == AfterTables(AfterTables(v, a, |a|, number, size), b, n, number + |a|, size)
  {
    hide ApplyEdit, TableOf;
    if n == 0 {
      AfterTablesOfPrefix(v, a, a + b, |a|, number, size);
    } else {
      TablesFollow(v, a, b, n - 1, number, size);
      assert (a + b)[|a| + n - 1] == b[n - 1];
    }
  }

  lemma {:induction false} TreeIsSorted(d: DbState)
    requires Order(d)
    ensures ManifestReplay.LevelsSorted(d.version) && NumbersBelow(d.version, d.nextFileNumber)
  {
    assert forall level :: 0 <= level < NUM_LEVELS ==> ValidLevel(level, d.version[level]);
  }

  lemma {:induction false} TablesOfTwo(d: DbState, a: seq<Record>, i: nat, startedA: nat, b: seq<Record>, j: nat, startedB: nat, p: Policy)
    requires Order(d) && d.imm.None? && d.mem == [] && d.lastSequence <= startedA && i <= |a| && j <= |b|
    requires (forall k: nat :: k < i ==> RecordOk(a, k, startedA)) && SequenceAfter(a, i, startedA) < MAX_SEQUENCE_NUMBER
    requires (forall k: nat :: k < j ==> RecordOk(b, k, startedB)) && SequenceAfter(b, j, startedB) < MAX_SEQUENCE_NUMBER
    requires ReplayLog(d, a, i, p).lastSequence <= startedB
    ensures var w := ReplayLog(ReplayLog(d, a, i, p), b, j, p);
            var all := AllTables(TakeRecords(a, i, p.full)) + AllTables(TakeRecords(b, j, p.full));
            && w.version == AfterTables(d.version, all, |all|, d.nextFileNumber, p.size)
            && w.nextFileNumber == d.nextFileNumber + |all|
  {
    hide Order, RecordOk, ReplayLog, SequenceAfter, Grows, AfterTables, TakeRecords, AllTables;
    var e := ReplayLog(d, a, i, p);
    var first, second := AllTables(TakeRecords(a, i, p.full)), AllTables(TakeRecords(b, j, p.full));
    ReplayLogGrows(d, a, i, p, startedA);
    GrownIsInOrder(d, e, EntriesOf(a, i));
    ReplayLogMatches(d, a, i, p, startedA);
    ReplayLogMatches(e, b, j, p, startedB);
    TablesFollow(d.version, first, second, |second|, d.nextFileNumber, p.size);
  }

  /** The version and the next file number after recovery, from the tables of both logs. */
  lemma {:induction false} TablesOfBothLogs(base: DbState, s: State, x: Crash)
    requires CommitInv(base, s) && FilesOk(s) && Possible(s, x)
    ensures var all := TablesLeft(s, x);
            && Reopened(s, x).version == AfterTables(s.db.version, all, |all|, x.fileNumber, x.policy.size)
            && Reopened(s, x).nextFileNumber == x.fileNumber + |all|
  {
    FilesInOrder(base, s);
    ImmLogEnds(base, s, x);
    LogsReplay(base, s);
    ViewParts(s);
    hide CommitInv, FilesOk, Order, FileView, FiledUpTo, ImmLog, RecordOk, ReplayLog, SequenceAfter, Grows, AfterTables, TakeRecords, AllTables, SkipTo;
    var d := FileView(s).(nextFileNumber := x.fileNumber);
    FileNumbersSkip(FileView(s), x.fileNumber);
    GrownIsInOrder(FileView(s), d, []);
    LogNumbers(ImmLog(s), x.immKept, |ImmLog(s)|, FiledUpTo(s));
    LogNumbers(s.log, x.kept, |s.log|, s.started);
    TablesOfTwo(d, ImmLog(s), x.immKept, FiledUpTo(s), s.log, x.kept, s.started, x.policy);
    SkipKeepsFiles(ReplayLog(AfterImmLog(s, x), s.log, x.kept, x.policy), x.sequence);
  }

  /** The memtables that recovery writes out. */
  function TablesLeft(s: State, x: Crash): seq<seq<Entry>>
    requires x.immKept <= |ImmLog(s)| && x.kept <= |s.log|
  {
    AllTables(TakeRecords(ImmLog(s), x.immKept, x.policy.full)) + AllTables(TakeRecords(s.log, x.kept, x.policy.full))
  }

  lemma SkipKeepsFiles(d: DbState, n: nat)
    ensures SkipTo(d, n).version == d.version && SkipTo(d, n).nextFileNumber == d.nextFileNumber
  {
  }

  /** The largest sequence number left in the logs. */
  function MaxSequence(s: State, x: Crash): nat
    requires x.immKept <= |ImmLog(s)| && x.kept <= |s.log|
  {
    if x.kept > 0 then SequenceAfter(s.log, x.kept, s.started)
    else if x.immKept > 0 then SequenceAfter(ImmLog(s), x.immKept, FiledUpTo(s))
    else 0
  }

  lemma {:induction false} LastOfLog(e: DbState, log: seq<Record>, k: nat, p: Policy, started: nat, n: nat)
    requires Order(e) && e.imm.None? && e.mem == [] && e.lastSequence <= started && k <= |log|
    requires (forall j: nat :: j < k ==> RecordOk(log, j, started)) && SequenceAfter(log, k, started) < MAX_SEQUENCE_NUMBER
    ensures var last := if k == 0 then e.lastSequence else SequenceAfter(log, k, started);
            SkipTo(ReplayLog(e, log, k, p), n).lastSequence == if n < last then last else n
  {
    hide Order, RecordOk, ReplayLog, SequenceAfter, Grows;
    ReplayLogGrows(e, log, k, p, started);
  }

  lemma {:induction false} LastSequenceLeft(base: DbState, s: State, x: Crash)
    requires CommitInv(base, s) && FilesOk(s) && Possible(s, x)
    ensures Reopened(s, x).lastSequence == if x.sequence < MaxSequence(s, x) then MaxSequence(s, x) else x.sequence
  {
    ImmLogEnds(base, s, x);
    ImmLogGrows(base, s, x);
    LogsReplay(base, s);
    hide CommitInv, FilesOk, Order, FileView, FiledUpTo, ImmLog, RecordOk, ReplayLog, SequenceAfter, Grows, SkipTo, AfterImmLog;
    LogNumbers(s.log, x.kept, |s.log|, s.started);
    LastOfLog(AfterImmLog(s, x), s.log, x.kept, x.policy, s.started, x.sequence);
  }

  /** All of the database that comes back, as the code puts it together. */
  lemma {:induction false} ReopenedIs(base: DbState, s: State, x: Crash)
    requires CommitInv(base, s) && FilesOk(s) && Possible(s, x)
    ensures var w, all := Reopened(s, x), TablesLeft(s, x);
            w == DbState([], None, ApplyEdit(s.db.version, VersionEdit({}, TableFiles(all, |all|, x.fileNumber, x.policy.size))),
                   if x.sequence < MaxSequence(s, x) then MaxSequence(s, x) else x.sequence, [], x.fileNumber + |all|, w.history, w.horizon)
  {
    hide CommitInv, FilesOk, Reopened, TablesLeft, MaxSequence, ApplyEdit, TableFiles, AfterTables;
    TablesOfBothLogs(base, s, x);
    LastSequenceLeft(base, s, x);
    ReopenedParts(base, s, x);
    VersionIsSorted(base, s, x.fileNumber);
    EditIsTables(s.db.version, TablesLeft(s, x), |TablesLeft(s, x)|, x.fileNumber, x.policy.size);
  }

  /** Of the file, cut off at `size`, exactly the first `k` records are whole. */
  ghost predicate WholeRecords(crc: (Byte, Bytes) -> Word, records: seq<Bytes>, size: nat, k: nat) {
    var sum := LogFile.MaskedCrc(crc);
    && size <= |LogFormat.EncodeLog(sum, records, |records|)|
    && LogFormat.FirstNotWhole(sum, LogFormat.EncodeLog(sum, records, |records|)[..size], records, k)
  }

  /** DBImpl::Recover: the tables and the largest sequence number from what is left of the two log files. */
  method RecoverLogs(crc: (Byte, Bytes) -> Word, paranoid: bool, policy: Policy, sequence: nat, fileNumber: nat,
                     immRecords: seq<Bytes>, immSize: nat, records: seq<Bytes>, size: nat, ghost base: DbState, ghost s: State)
    returns (ok: bool, tables: seq<seq<Entry>>, maxSequence: nat, ghost x: Crash)
    requires CommitInv(base, s) && FiledUpTo(s) <= sequence <= s.db.lastSequence && s.db.nextFileNumber <= fileNumber
    requires LogFileCut(LogFile.MaskedCrc(crc), immRecords, ImmLog(s), FiledUpTo(s), ImmDurable(s), immSize)
    requires LogFileCut(LogFile.MaskedCrc(crc), records, s.log, s.started, s.durable, size)
    ensures ok && Possible(s, x) && x.sequence == sequence && x.fileNumber == fileNumber && x.policy == policy
    ensures tables == TablesLeft(s, x) && maxSequence == MaxSequence(s, x)
    ensures WholeRecords(crc, immRecords, immSize, x.immKept) && WholeRecords(crc, records, size, x.kept)
  {
    LogsReplay(base, s);
    hide CommitInv, FiledUpTo, ImmLog, ImmDurable, RecordOk, SequenceAfter, TakeRecords, AllTables, EncodesLog,
      LogFormat.EncodeLog, LogFormat.FirstNotWhole, LogFile.MaskedCrc;
    var immOk, immTables, middle, immKept := CrashAndRecover(crc, immRecords, immSize, paranoid, policy.full, 0, ImmLog(s), FiledUpTo(s), ImmDurable(s));
    MiddleIsBelow(base, s, immKept, middle);
    var restOk, restTables, last, kept := CrashAndRecover(crc, records, size, paranoid, policy.full, middle, s.log, s.started, s.durable);
    ok, tables, maxSequence := immOk && restOk, immTables + restTables, last;
    x := Crash(immKept, kept, sequence, fileNumber, policy);
  }

  /**
   * DB::Open: the version and the numbers come from the manifest, the rest from the logs; all tables enter the version
   * with one edit. The database that is opened is `Reopened`.
   */
  method Reopen(crc: (Byte, Bytes) -> Word, paranoid: bool, policy: Policy, maxFileSize: nat, sequence: nat, fileNumber: nat, version: Levels,
                immRecords: seq<Bytes>, immSize: nat, records: seq<Bytes>, size: nat, ghost base: DbState, ghost s: State)
    returns (ok: bool, db: DBImpl, ghost x: Crash)
    requires CommitInv(base, s) && FilesOk(s)
    requires version == s.db.version && FiledUpTo(s) <= sequence <= s.db.lastSequence && s.db.nextFileNumber <= fileNumber
    requires LogFileCut(LogFile.MaskedCrc(crc), immRecords, ImmLog(s), FiledUpTo(s), ImmDurable(s), immSize)
    requires LogFileCut(LogFile.MaskedCrc(crc), records, s.log, s.started, s.durable, size)
    ensures ok && fresh(db) && db.maxFileSize == maxFileSize
    ensures Possible(s, x) && db.State() == Reopened(s, x)
    ensures WholeRecords(crc, immRecords, immSize, x.immKept) && WholeRecords(crc, records, size, x.kept)
  {
    hide CommitInv, FilesOk, FiledUpTo, LogFileCut, WholeRecords, Possible, Reopened, TablesLeft, MaxSequence, TableFiles, ApplyEdit, LogFile.MaskedCrc;
    var tables, maxSequence;
    ok, tables, maxSequence, x := RecoverLogs(crc, paranoid, policy, sequence, fileNumber, immRecords, immSize, records, size, base, s);
    ReopenedIs(base, s, x);
    var edit, next := WriteTables(tables, fileNumber, policy.size);
    EditIsValid(tables, fileNumber, policy.size);
    db := new DBImpl(maxFileSize);
    db.version := version;
    db.LogAndApply(edit);
    db.nextFileNumber := next;
    db.lastSequence := if sequence < maxSequence then maxSequence else sequence;
    db.history, db.horizon := Reopened(s, x).history, Reopened(s, x).horizon;
  }

  lemma {:induction false} EditIsValid(tables: seq<seq<Entry>>, number: nat, size: seq<Entry> -> nat)
    ensures ValidEdit(VersionEdit({}, TableFiles(tables, |tables|, number, size)))
  {
    TableNumbers(tables, |tables|, number, size);
  }

  lemma {:induction false} MiddleIsBelow(base: DbState, s: State, immKept: nat, middle: nat)
    requires CommitInv(base, s) && immKept <= |ImmLog(s)|
    requires middle == if immKept == 0 then 0 else SequenceAfter(ImmLog(s), immKept, FiledUpTo(s))
    ensures middle <= s.started
  {
    LogsReplay(base, s);
    hide CommitInv, FiledUpTo, ImmLog, RecordOk, SequenceAfter;
    SequencesAscend(ImmLog(s), FiledUpTo(s), immKept, |ImmLog(s)|);
  }

  lemma {:induction false} VersionIsSorted(base: DbState, s: State, number: nat)
    requires CommitInv(base, s) && s.db.nextFileNumber <= number
    ensures ManifestReplay.LevelsSorted(s.db.version) && NumbersBelow(s.db.version, number)
  {
    OrderIsKnown(base, s);
    hide CommitInv, Order;
    TreeIsSorted(s.db);
  }

  lemma {:induction false} ReopenedParts(base: DbState, s: State, x: Crash)
    requires CommitInv(base, s) && FilesOk(s) && Possible(s, x)
    ensures Reopened(s, x).mem == [] && Reopened(s, x).imm.None? && Reopened(s, x).snapshots == []
  {
    ReopenedIsRight(base, s, x);
    hide CommitInv, FilesOk, Order, Reopened;
  }
}
