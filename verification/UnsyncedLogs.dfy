/**
 * A write that is not synced can be lost although a later, synced one is kept: when the memtable is switched in between,
 * syncing the new log leaves the old one as it is.
 */
module UnsyncedLogs {
  import opened ByteOrder
  import opened DbFormat
  import opened Coding
  import opened Version
  import opened CompactionReads
  import opened Database
  import opened WriteBatches
  import opened GroupCommit
  import opened LogReplay
  import opened FilesAlone
  import opened CrashRecovery

  // ----- Twelve steps, for any two operations a and b -----

  function First(a: WriteOp): Writer { Writer(1, Some([a]), false) }

  function Second(b: WriteOp): Writer { Writer(2, Some([b]), true) }

  function FirstRecord(a: WriteOp): Record { Record(1, [a], [First(a)]) }

  function SecondRecord(b: WriteOp): Record { Record(2, [b], [Second(b)]) }

  function Steps(a: WriteOp, b: WriteOp): seq<Step> {
    [ Arrive(First(a)), Lead, AppendLog, InsertOne, Complete,
      Arrive(Second(b)), Background(SwitchMemtable), Lead, AppendLog, SyncLog, InsertOne, Complete ]
  }

  function Written(a: WriteOp): DbState {
    DbState([EntryOf(a, 1)], None, EMPTY_VERSION, 1, [], 2, [EntryOf(a, 1)], 0)
  }

  function Switched(a: WriteOp): DbState {
    DbState([], Some([EntryOf(a, 1)]), EMPTY_VERSION, 1, [], 2, [EntryOf(a, 1)], 0)
  }

  function Both(a: WriteOp, b: WriteOp): DbState {
    DbState([EntryOf(b, 2)], Some([EntryOf(a, 1)]), EMPTY_VERSION, 2, [], 2, [EntryOf(a, 1), EntryOf(b, 2)], 0)
  }

  function States(a: WriteOp, b: WriteOp): seq<State> {
    var v, w, r, q := First(a), Second(b), FirstRecord(a), SecondRecord(b);
    var d, e := [EntryOf(a, 1)], [EntryOf(b, 2)];
    [ Start(EMPTY_DB),
      State(EMPTY_DB, [], [v], None, [], 0, 0, [], 0, 0, [v], []),
      State(EMPTY_DB, [], [v], Some(Leader(1, [a], 0, Built)), [], 0, 0, [], 0, 0, [v], []),
      State(EMPTY_DB, [], [v], Some(Leader(1, [a], 0, Stage.Logged)), [r], 0, 0, [], 0, 0, [v], []),
      State(EMPTY_DB, d, [v], Some(Leader(1, [a], 1, Stage.Logged)), [r], 0, 0, [], 0, 0, [v], []),
      State(Written(a), d, [], None, [r], 0, 0, [], 0, 0, [v], [v]),
      State(Written(a), d, [w], None, [r], 0, 0, [], 0, 0, [v, w], [v]),
      State(Switched(a), [], [w], None, [], 0, 1, [r], 0, 0, [v, w], [v]),
      State(Switched(a), [], [w], Some(Leader(1, [b], 0, Built)), [], 0, 1, [r], 0, 0, [v, w], [v]),
      State(Switched(a), [], [w], Some(Leader(1, [b], 0, Stage.Logged)), [q], 0, 1, [r], 0, 0, [v, w], [v]),
      State(Switched(a), [], [w], Some(Leader(1, [b], 0, Synced)), [q], 1, 1, [r], 0, 0, [v, w], [v]),
      State(Switched(a), e, [w], Some(Leader(1, [b], 1, Synced)), [q], 1, 1, [r], 0, 0, [v, w], [v]),
      State(Both(a, b), e, [], None, [q], 1, 1, [r], 0, 0, [v, w], [v, w]) ]
  }

  /** The batches can be written. */
  ghost predicate Fitting(op: WriteOp) {
    OpFits(op) && HEADER + |EncodeOps([op], 1)| < 0x1_0000_0000
  }

  lemma {:induction false} OneInGroup(w: Writer, op: WriteOp)
    requires w.batch == Some([op])
    ensures GroupSize([w]) == 1 && GroupOps([w], 1) == [op]
  {
    assert GroupOps([w], 0) == [];
  }

  lemma {:induction false} OneAdded(d: DbState, op: WriteOp)
    requires d.mem == []
    ensures AddToMem([], EntryOf(op, d.lastSequence + 1)) == [EntryOf(op, d.lastSequence + 1)]
    ensures WriteAll(d, [op]) == d.(mem := [EntryOf(op, d.lastSequence + 1)], lastSequence := d.lastSequence + 1,
                                    history := d.history + [EntryOf(op, d.lastSequence + 1)])
  {
    assert [op][..0] == [] && WriteAll(d, []) == d;
  }

  lemma {:induction false} FirstSteps(a: WriteOp, b: WriteOp, i: nat)
    requires Fitting(a) && Fitting(b) && i < 6
    ensures Ready(States(a, b)[i], Steps(a, b)[i]) && States(a, b)[i + 1] == Next(States(a, b)[i], Steps(a, b)[i])
  {
    hide OpFits, EncodeOps, GroupSize, GroupOps, EntryOf, AddToMem, WriteAll;
    OneInGroup(First(a), a);
    OneAdded(EMPTY_DB, a);
    assert [First(a)][..1] == [First(a)];
  }

  lemma {:induction false} SecondSteps(a: WriteOp, b: WriteOp, i: nat)
    requires Fitting(a) && Fitting(b) && 6 <= i < 12
    ensures Ready(States(a, b)[i], Steps(a, b)[i]) && States(a, b)[i + 1] == Next(States(a, b)[i], Steps(a, b)[i])
  {
    hide OpFits, EncodeOps, GroupSize, GroupOps, EntryOf, AddToMem, WriteAll;
    OneInGroup(Second(b), b);
    OneAdded(Switched(a), b);
    assert [Second(b)][..1] == [Second(b)];
  }

  ghost function Processes(a: WriteOp, b: WriteOp): seq<Process> {
    seq(13, i requires 0 <= i < 13 => Process(EMPTY_DB, States(a, b)[i]))
  }

  function Events(a: WriteOp, b: WriteOp): seq<Event> {
    seq(12, i requires 0 <= i < 12 => Take(Steps(a, b)[i]))
  }

  /** These steps are a run from the empty database. */
  lemma {:induction false} IsARun(a: WriteOp, b: WriteOp)
    requires Fitting(a) && Fitting(b)
    ensures IsCrashRun(Processes(a, b), Events(a, b))
  {
    hide States, Steps, Ready, Next, Fitting, Start;
    StatesStart(a, b);
    forall i: nat | i < 12
      ensures Ready(States(a, b)[i], Steps(a, b)[i]) && States(a, b)[i + 1] == Next(States(a, b)[i], Steps(a, b)[i])
    {
      if i < 6 { FirstSteps(a, b, i); } else { SecondSteps(a, b, i); }
    }
  }

  lemma StatesStart(a: WriteOp, b: WriteOp)
    ensures |States(a, b)| == 13 && |Steps(a, b)| == 12 && States(a, b)[0] == Start(EMPTY_DB)
  {
  }

  /** The crash takes the record of the old log, which was never synced. */
  ghost predicate TakesFirst(x: Crash) {
    x.immKept == 0 && x.kept == 1 && 0 <= x.sequence <= 2 && x.fileNumber >= 2
  }

  /** What the two logs hold at the end. */
  lemma {:induction false} BothLogs(a: WriteOp, b: WriteOp)
    ensures var s := States(a, b)[12];
            && ImmLogged(s) == [EntryOf(a, 1)] && EntriesOf(s.log, 1) == [EntryOf(b, 2)] && EntriesOf(ImmLog(s), 0) == []
            && FiledHistory(s) == [] && s.db.history == [EntryOf(a, 1), EntryOf(b, 2)]
  {
    hide EntryOf;
    var s := States(a, b)[12];
    assert Numbered([a], 0, 1) == [] && Numbered([a], 1, 1) == [EntryOf(a, 1)];
    assert Numbered([b], 0, 2) == [] && Numbered([b], 1, 2) == [EntryOf(b, 2)];
    assert EntriesOf([FirstRecord(a)], 0) == [] && EntriesOf([SecondRecord(b)], 0) == [];
    assert EntriesOf([FirstRecord(a)], 1) == [EntryOf(a, 1)] && EntriesOf([SecondRecord(b)], 1) == [EntryOf(b, 2)];
    assert FilesAlone.Logged(s) == [EntryOf(a, 1), EntryOf(b, 2)];
  }

  /**
   * The synced write is kept and the one before it is lost: what comes back is no beginning of what was written. A call
   * of fsync on one file, which the option is compared to, would have kept both.
   */
  lemma {:induction false} LaterWriteIsKept(a: WriteOp, b: WriteOp, x: Crash)
    requires Fitting(a) && Fitting(b) && TakesFirst(x)
    ensures IsCrashRun(Processes(a, b), Events(a, b))
    ensures var s := Processes(a, b)[12].s;
            && s.db.history == [EntryOf(a, 1), EntryOf(b, 2)] && s.completed == [First(a), Second(b)]
            && Possible(s, x) && Reopened(s, x).history == [EntryOf(b, 2)] && !(Reopened(s, x).history <= AllWrites(s))
  {
    IsARun(a, b);
    BothLogs(a, b);
    LastState(a, b, x);
    hide IsCrashRun, Fitting, EntryOf, States, Reopened, EntriesOf, ImmLogged, FiledHistory, ProcessOk, ImmLog, Possible, TakesFirst, AllWrites;
    CrashRunKeepsOrder(Processes(a, b), Events(a, b), 12);
    LastIsOk(a, b);
    OnlyTheLater(EMPTY_DB, States(a, b)[12], x, EntryOf(a, 1), EntryOf(b, 2));
  }

  lemma {:induction false} OnlyTheLater(base: DbState, s: State, x: Crash, d: Entry, e: Entry)
    requires CommitInv(base, s) && FilesOk(s) && Possible(s, x) && x.immKept == 0 && x.kept == 1 && |s.log| >= 1
    requires ImmLogged(s) == [d] && EntriesOf(s.log, 1) == [e] && EntriesOf(ImmLog(s), 0) == [] && FiledHistory(s) == []
    ensures Reopened(s, x).history == [e] && !(Reopened(s, x).history <= AllWrites(s))
  {
    hide CommitInv, FilesOk, Reopened, EntriesOf, ImmLogged, FiledHistory, ImmLog, AllWrites;
    ReopenedIsRight(base, s, x);
    LostInTheMiddle(base, s, x);
  }

  lemma LastState(a: WriteOp, b: WriteOp, x: Crash)
    requires TakesFirst(x)
    ensures var s := States(a, b)[12]; Possible(s, x) && s.completed == [First(a), Second(b)]
  {
  }

  lemma {:induction false} LastIsOk(a: WriteOp, b: WriteOp)
    requires ProcessOk(Processes(a, b)[12])
    ensures CommitInv(EMPTY_DB, States(a, b)[12]) && FilesOk(States(a, b)[12])
  {
    hide CommitInv, FilesOk, States, Opened;
  }
}
