/** The database as a state machine: every run keeps the tree in order and every reader gets its value. */
module Database {
  import opened ByteOrder
  import opened DbFormat
  import opened Version
  import opened CompactionInputs
  import opened CompactionWork
  import opened CompactionReads
  import opened VersionBuilder
  import opened Install
  import opened MemtableFlush

  datatype WriteOp = Put(key: Bytes, value: Bytes) | Delete(key: Bytes)

  /**
   * `history` (every write so far, oldest first) and `horizon` (the oldest sequence number that compactions
   * have kept readable) record the past; no operation reads them.
   */
  datatype DbState = DbState(
    mem: seq<Entry>,
    imm: Option<seq<Entry>>,
    version: Levels,
    lastSequence: nat,
    snapshots: seq<nat>,
    nextFileNumber: nat,
    history: seq<Entry>,
    horizon: nat)

  // ----- The reference: reading the log of writes backwards -----

  ghost function ReadLog(history: seq<Entry>, user: Bytes, s: nat): Option<Bytes> {
    if history == [] then None
    else
      var n := |history| - 1;
      if Visible(history[n], user, s) then ValueOf(Some(history[n])) else ReadLog(history[..n], user, s)
  }

  // ----- Where entries are -----

  ghost function ImmEntries(d: DbState): set<Entry> {
    if d.imm.Some? then Elements(d.imm.value) else {}
  }

  ghost function Memory(d: DbState): set<Entry> {
    Elements(d.mem) + ImmEntries(d)
  }

  ghost function AllEntries(d: DbState): set<Entry> {
    Memory(d) + VersionEntries(d.version)
  }

  // ----- The invariant -----

  ghost predicate MemoryInOrder(d: DbState) {
    && Sorted(d.mem)
    && (d.imm.Some? ==> Sorted(d.imm.value))
    && Above(Elements(d.mem), ImmEntries(d))
    && Above(Memory(d), VersionEntries(d.version))
  }

  ghost predicate TreeInOrder(d: DbState) {
    && ValidVersion(d.version)
    && NumbersUnique(d.version)
    && NumbersBelow(d.version, d.nextFileNumber)
  }

  ghost predicate SequencesInOrder(d: DbState) {
    && UniqueSequences(AllEntries(d))
    && d.lastSequence < MAX_SEQUENCE_NUMBER
    && (forall e :: e in AllEntries(d) ==> e.key.sequence <= d.lastSequence)
  }

  ghost predicate HistoryInOrder(d: DbState) {
    && (forall i :: 0 <= i < |d.history| ==> d.history[i].key.sequence <= d.lastSequence)
    && forall i, j :: 0 <= i < j < |d.history| ==> d.history[i].key.sequence < d.history[j].key.sequence
  }

  ghost predicate SnapshotsInOrder(d: DbState) {
    && d.horizon <= d.lastSequence
    && (forall i :: 0 <= i < |d.snapshots| ==> d.horizon <= d.snapshots[i] <= d.lastSequence)
    && forall i, j :: 0 <= i < j < |d.snapshots| ==> d.snapshots[i] <= d.snapshots[j]
  }

  /** What holds in every state of every run: sorted levels, newer above older, numbers in order. */
  ghost predicate Order(d: DbState) {
    && MemoryInOrder(d)
    && TreeInOrder(d)
    && SequencesInOrder(d)
    && HistoryInOrder(d)
    && SnapshotsInOrder(d)
  }

  /** From `m` and the horizon on, whatever is newest for the key reads as the log of writes says. */
  ghost predicate FaithfulFrom(d: DbState, user: Bytes, m: nat) {
    forall s, r :: m <= s && d.horizon <= s && IsNewest(AllEntries(d), user, s, r) ==> ValueOf(r) == ReadLog(d.history, user, s)
  }

  ghost predicate Faithful(d: DbState) {
    forall user :: FaithfulFrom(d, user, 0)
  }

  ghost predicate Inv(d: DbState) {
    Order(d) && Faithful(d)
  }

  // ----- Steps -----

  const EMPTY_VERSION: Levels := [[], [], [], [], [], [], []]

  const EMPTY_DB := DbState([], None, EMPTY_VERSION, 0, [], 2, [], 0)

  function EntryOf(op: WriteOp, sequence: nat): Entry {
    match op
    case Put(k, v) => Entry(InternalKey(k, sequence, Value), v)
    case Delete(k) => Entry(InternalKey(k, sequence, Deletion), [])
  }

  /** MemTable::Add. */
  function AddToMem(mem: seq<Entry>, e: Entry): seq<Entry> {
    var i := SeekIndex(mem, e.key);
    mem[..i] + [e] + mem[i..]
  }

  function WriteOne(d: DbState, op: WriteOp): DbState {
    var e := EntryOf(op, d.lastSequence + 1);
    d.(mem := AddToMem(d.mem, e), lastSequence := d.lastSequence + 1, history := d.history + [e])
  }

  function WriteAll(d: DbState, ops: seq<WriteOp>): DbState {
    if ops == [] then d else WriteOne(WriteAll(d, ops[..|ops| - 1]), ops[|ops| - 1])
  }

  function SmallestSnapshot(d: DbState): nat {
    if d.snapshots == [] then d.lastSequence else d.snapshots[0]
  }

  /** BuildTable on the immutable memtable. */
  function FlushedFile(d: DbState, size: nat): FileMeta
    requires d.imm.Some? && d.imm.value != []
  {
    var es := d.imm.value;
    FileMeta(d.nextFileNumber, size, es[0].key, es[|es| - 1].key, es)
  }

  function MergedInput(c: Compaction): seq<Entry> {
    MergeFiles(c.inputs0 + c.inputs1)
  }

  /** The store seen from one compaction. */
  ghost function SplitOf(d: DbState, c: Compaction): Split
    requires c.level + 1 < NUM_LEVELS
  {
    Split(
      Memory(d) + (set l, g, x | 0 <= l <= c.level && g in d.version[l] && !IsInput(c, l, g) && x in g.entries :: x),
      MergedInput(c),
      SetEntries(LeftOut(d.version[c.level + 1], c.inputs1)),
      set l, x | c.level + 2 <= l < NUM_LEVELS && x in FilesEntries(d.version[l]) :: x)
  }

  datatype Action =
    | Write(ops: seq<WriteOp>)
    | SwitchMemtable
    | Flush(level: nat, size: nat)
    | Move(c: Compaction)
    | Compact(c: Compaction, outputs: seq<FileMeta>)
    | TakeSnapshot
    | ReleaseSnapshot(index: nat)

  ghost predicate CompactionDone(d: DbState, c: Compaction, outputs: seq<FileMeta>)
    requires c.level + 1 < NUM_LEVELS
  {
    var merged := MergedInput(c);
    && Flatten(outputs) == Kept(d.version, c.level, merged, |merged|, SmallestSnapshot(d))
    && (forall o :: o in outputs ==> Described(o))
    && NumberedFrom(outputs, d.nextFileNumber)
  }

  ghost function AfterCompaction(d: DbState, c: Compaction, outputs: seq<FileMeta>): DbState {
    d.(version := ApplyEdit(d.version, PushDownEdit(c, outputs)),
       nextFileNumber := d.nextFileNumber + |outputs|, horizon := SmallestSnapshot(d))
  }

  ghost predicate Enabled(d: DbState, a: Action) {
    match a
    case Write(ops) => d.lastSequence + |ops| < MAX_SEQUENCE_NUMBER
    case SwitchMemtable => d.imm.None?
    case Flush(level, size) =>
      && d.imm.Some?
      && (d.imm.value != [] ==> FlushLevelOk(d.version, level, FlushedFile(d, size)))
    case Move(c) => ValidCompaction(d.version, c) && |c.inputs0| == 1 && c.inputs1 == []
    case Compact(c, outputs) =>
      && ValidCompaction(d.version, c)
      && CompactionDone(d, c, outputs)
    case TakeSnapshot => true
    case ReleaseSnapshot(index) => index < |d.snapshots|
  }

  ghost function Do(d: DbState, a: Action): DbState
    requires Enabled(d, a)
  {
    match a
    case Write(ops) => WriteAll(d, ops)
    case SwitchMemtable => d.(mem := [], imm := Some(d.mem))
    case Flush(level, size) =>
      if d.imm.value == [] then d.(imm := None, nextFileNumber := d.nextFileNumber + 1)
      else d.(imm := None, nextFileNumber := d.nextFileNumber + 1,
              version := ApplyEdit(d.version, FlushEdit(FlushedFile(d, size), level)))
    case Move(c) => d.(version := ApplyEdit(d.version, PushDownEdit(c, c.inputs0)))
    case Compact(c, outputs) => AfterCompaction(d, c, outputs)
    case TakeSnapshot => d.(snapshots := d.snapshots + [d.lastSequence])
    case ReleaseSnapshot(index) => d.(snapshots := d.snapshots[..index] + d.snapshots[index + 1..])
  }

  /** The compaction drops a deletion marker of the key while the left-out files still hold an older value. */
  ghost predicate LosesKey(d: DbState, c: Compaction, user: Bytes)
    requires c.level + 1 < NUM_LEVELS
  {
    ResurrectsKey(SplitOf(d, c), d.version, c.level, SmallestSnapshot(d), user)
  }

  ghost predicate Loses(d: DbState, a: Action, user: Bytes) {
    a.Compact? && a.c.level + 1 < NUM_LEVELS && LosesKey(d, a.c, user)
  }

  // ----- Writes -----

  lemma AddToMemMembers(mem: seq<Entry>, e: Entry)
    ensures Elements(AddToMem(mem, e)) == Elements(mem) + {e}
  {
    var i := SeekIndex(mem, e.key);
    assert mem == mem[..i] + mem[i..];
  }

  lemma AddToMemIsSorted(mem: seq<Entry>, e: Entry)
    requires Sorted(mem) && forall x :: x in mem ==> x.key.sequence < e.key.sequence
    ensures Sorted(AddToMem(mem, e))
  {
    var i := SeekIndex(mem, e.key);
    forall j | i <= j < |mem|
      ensures KeyLt(e.key, mem[j].key)
    {
      var r := CompareKeys(e.key, mem[i].key);
      assert mem[i] in mem;
      if i < j { assert KeyLt(mem[i].key, mem[j].key); }
    }
  }

  lemma NewestAfterWrite(es: set<Entry>, e: Entry, user: Bytes, s: nat, r: Option<Entry>)
    requires forall x :: x in es ==> x.key.sequence < e.key.sequence
    requires IsNewest(es + {e}, user, s, r)
    ensures if Visible(e, user, s) then r == Some(e) else IsNewest(es, user, s, r)
  {
    assert e in es + {e};
    if r.Some? && !Visible(e, user, s) {
      assert r.value in es;
    }
  }

  lemma WriteOneEntries(d: DbState, op: WriteOp)
    requires MemoryInOrder(d) && SequencesInOrder(d)
    ensures var w, e := WriteOne(d, op), EntryOf(op, d.lastSequence + 1);
            MemoryInOrder(w) && AllEntries(w) == AllEntries(d) + {e}
  {
    var e := EntryOf(op, d.lastSequence + 1);
    var w := WriteOne(d, op);
    AddToMemMembers(d.mem, e);
    forall x | x in d.mem
      ensures x.key.sequence < e.key.sequence
    {
      assert x in AllEntries(d);
    }
    AddToMemIsSorted(d.mem, e);
    assert Memory(w) == Memory(d) + {e};
    assert AllEntries(w) == AllEntries(d) + {e};
  }

  lemma WriteOneKeepsReads(d: DbState, op: WriteOp, user: Bytes, m: nat)
    requires Order(d) && FaithfulFrom(d, user, m)
    ensures FaithfulFrom(WriteOne(d, op), user, m)
  {
    var w, e := WriteOne(d, op), EntryOf(op, d.lastSequence + 1);
    WriteOneEntries(d, op);
    assert w.history[..|w.history| - 1] == d.history;
    forall s, r | m <= s && w.horizon <= s && IsNewest(AllEntries(w), user, s, r)
      ensures ValueOf(r) == ReadLog(w.history, user, s)
    {
      NewestAfterWrite(AllEntries(d), e, user, s, r);
    }
  }

  /** A write of a key is read from its sequence number on, whatever was wrong with the key before. */
  lemma WriteOneIsRead(d: DbState, op: WriteOp)
    requires Order(d)
    ensures FaithfulFrom(WriteOne(d, op), op.key, d.lastSequence + 1)
  {
    var w, e := WriteOne(d, op), EntryOf(op, d.lastSequence + 1);
    WriteOneEntries(d, op);
    forall s, r | d.lastSequence + 1 <= s && w.horizon <= s && IsNewest(AllEntries(w), op.key, s, r)
      ensures ValueOf(r) == ReadLog(w.history, op.key, s)
    {
      NewestAfterWrite(AllEntries(d), e, op.key, s, r);
    }
  }

  lemma WriteOneKeepsOrder(d: DbState, op: WriteOp)
    requires Order(d) && d.lastSequence + 1 < MAX_SEQUENCE_NUMBER
    ensures Order(WriteOne(d, op))
  {
    WriteOneEntries(d, op);
    WriteOneKeepsSequences(d, op);
  }

  lemma WriteOneKeepsSequences(d: DbState, op: WriteOp)
    requires SequencesInOrder(d) && d.lastSequence + 1 < MAX_SEQUENCE_NUMBER
    requires AllEntries(WriteOne(d, op)) == AllEntries(d) + {EntryOf(op, d.lastSequence + 1)}
    ensures SequencesInOrder(WriteOne(d, op))
  {
  }

  lemma {:induction false} WriteAllKeepsOrder(d: DbState, ops: seq<WriteOp>)
    requires Order(d) && d.lastSequence + |ops| < MAX_SEQUENCE_NUMBER
    ensures Order(WriteAll(d, ops)) && WriteAll(d, ops).lastSequence == d.lastSequence + |ops|
  {
    hide Order, AddToMem, EntryOf;
    if ops != [] {
      var rest := ops[..|ops| - 1];
      WriteAllKeepsOrder(d, rest);
      WriteOneKeepsOrder(WriteAll(d, rest), ops[|ops| - 1]);
    }
  }

  lemma {:induction false} WriteAllKeepsReads(d: DbState, ops: seq<WriteOp>, user: Bytes, m: nat)
    requires Order(d) && d.lastSequence + |ops| < MAX_SEQUENCE_NUMBER && FaithfulFrom(d, user, m)
    ensures FaithfulFrom(WriteAll(d, ops), user, m)
  {
    hide Order, FaithfulFrom, WriteOne;
    if ops != [] {
      var rest := ops[..|ops| - 1];
      WriteAllKeepsOrder(d, rest);
      WriteAllKeepsReads(d, rest, user, m);
      WriteOneKeepsReads(WriteAll(d, rest), ops[|ops| - 1], user, m);
    }
  }

  lemma {:induction false} WriteAllIsRead(d: DbState, ops: seq<WriteOp>, i: nat)
    requires Order(d) && d.lastSequence + |ops| < MAX_SEQUENCE_NUMBER && i < |ops|
    ensures FaithfulFrom(WriteAll(d, ops), ops[i].key, d.lastSequence + 1 + i)
    decreases |ops|
  {
    hide Order, FaithfulFrom, WriteOne;
    var rest, op := ops[..|ops| - 1], ops[|ops| - 1];
    WriteAllKeepsOrder(d, rest);
    if i < |rest| {
      WriteAllIsRead(d, rest, i);
      WriteOneKeepsReads(WriteAll(d, rest), op, ops[i].key, d.lastSequence + 1 + i);
    } else {
      WriteOneIsRead(WriteAll(d, rest), op);
    }
  }

  // ----- Flush -----

  lemma FlushedFileIsValid(d: DbState, size: nat)
    requires MemoryInOrder(d) && d.imm.Some? && d.imm.value != []
    ensures ValidFile(FlushedFile(d, size))
    ensures Elements(FlushedFile(d, size).entries) == ImmEntries(d)
  {
  }

  lemma FlushInstalls(d: DbState, level: nat, size: nat)
    requires Order(d) && Enabled(d, Flush(level, size)) && d.imm.value != []
    ensures var w := Do(d, Flush(level, size));
            TreeInOrder(w) && VersionEntries(w.version) == ImmEntries(d) + VersionEntries(d.version)
  {
    FlushedFileIsValid(d, size);
    assert ImmEntries(d) + VersionEntries(d.version) <= AllEntries(d);
    FlushIsValid(d.version, FlushedFile(d, size), level);
  }

  /** Moving entries between sources changes nothing that a reader or the log can tell. */
  lemma SameEntriesKeepOrder(d: DbState, w: DbState)
    requires Order(d) && MemoryInOrder(w) && TreeInOrder(w)
    requires AllEntries(w) == AllEntries(d)
    requires w.lastSequence == d.lastSequence && w.snapshots == d.snapshots && w.history == d.history && w.horizon == d.horizon
    ensures Order(w)
  {
  }

  lemma SameEntriesSameReads(d: DbState, w: DbState, user: Bytes, m: nat)
    requires FaithfulFrom(d, user, m) && AllEntries(w) == AllEntries(d) && w.history == d.history && w.horizon == d.horizon
    ensures FaithfulFrom(w, user, m)
  {
  }

  lemma SwitchMovesEntries(d: DbState)
    requires Order(d) && Enabled(d, SwitchMemtable)
    ensures Order(Do(d, SwitchMemtable)) && AllEntries(Do(d, SwitchMemtable)) == AllEntries(d)
  {
    var w := Do(d, SwitchMemtable);
    assert Memory(w) == Memory(d);
    SameEntriesKeepOrder(d, w);
  }

  lemma FlushMovesEntries(d: DbState, level: nat, size: nat)
    requires Order(d) && Enabled(d, Flush(level, size))
    ensures var w := Do(d, Flush(level, size)); Order(w) && AllEntries(w) == AllEntries(d)
  {
    var w := Do(d, Flush(level, size));
    if d.imm.value != [] {
      FlushInstalls(d, level, size);
    }
    assert Memory(w) == Elements(d.mem);
    assert AllEntries(w) == AllEntries(d);
    SameEntriesKeepOrder(d, w);
  }

  // ----- Move -----

  lemma MovedFileIsGoodOutput(v: Levels, c: Compaction)
    requires ValidVersion(v) && NumbersUnique(v) && ValidCompaction(v, c) && |c.inputs0| == 1
    ensures GoodOutputs(v, c, c.inputs0)
  {
    InputsAreValid(v, c);
    assert ValidLevel(c.level, v[c.level]);
    forall o, l, g | o in c.inputs0 && 0 <= l < NUM_LEVELS && g in v[l] && g.number == o.number
      ensures l == c.level && g in c.inputs0
    {
      if l == c.level && g != o {
        NumberNames(v[l], g, o);
      }
    }
  }

  lemma RestIsInVersion(v: Levels, c: Compaction)
    ensures RestEntries(v, c) <= VersionEntries(v)
  {
    forall x | x in RestEntries(v, c)
      ensures x in VersionEntries(v)
    {
      var l, g :| 0 <= l < NUM_LEVELS && g in v[l] && !IsInput(c, l, g) && x in g.entries;
      EntryPlace(v, l, g, x);
    }
  }

  lemma MovedEntries(v: Levels, c: Compaction)
    requires ValidCompaction(v, c) && c.inputs1 == []
    ensures FilesEntries(c.inputs0) + RestEntries(v, c) == VersionEntries(v)
  {
    VersionSplits(v, c);
    assert InputEntries(c) == FilesEntries(c.inputs0);
  }

  lemma MoveInstalls(d: DbState, c: Compaction)
    requires TreeInOrder(d) && ValidCompaction(d.version, c) && |c.inputs0| == 1 && c.inputs1 == []
    ensures var w := d.(version := ApplyEdit(d.version, PushDownEdit(c, c.inputs0)));
            TreeInOrder(w) && VersionEntries(w.version) == VersionEntries(d.version)
  {
    MovedFileIsGoodOutput(d.version, c);
    PushIsValid(d.version, c, c.inputs0, d.nextFileNumber);
    MovedEntries(d.version, c);
  }

  lemma MoveMovesEntries(d: DbState, c: Compaction)
    requires Order(d) && Enabled(d, Move(c))
    ensures Order(Do(d, Move(c))) && AllEntries(Do(d, Move(c))) == AllEntries(d)
  {
    MoveInstalls(d, c);
    SameEntriesKeepOrder(d, Do(d, Move(c)));
  }

  // ----- Compaction -----

  lemma PlacesDiffer(v: Levels, l: nat, f: FileMeta, m: nat, g: FileMeta, x: Entry, y: Entry)
    requires ValidVersion(v) && l < NUM_LEVELS && m < NUM_LEVELS && f in v[l] && g in v[m] && (l != m || f != g)
    requires x in f.entries && y in g.entries
    ensures x.key != y.key
  {
    EntryPlace(v, l, f, x);
    EntryPlace(v, m, g, y);
    if l < m {
      assert Above(FilesEntries(v[l]), FilesEntries(v[m]));
    } else if m < l {
      assert Above(FilesEntries(v[m]), FilesEntries(v[l]));
    } else {
      assert ValidLevel(l, v[l]);
      NumberNames(v[l], f, g);
      if l == 0 {
        assert if f.number > g.number then Above(Elements(f.entries), Elements(g.entries)) else Above(Elements(g.entries), Elements(f.entries));
      } else {
        DisjointOrder(v[l], f, g);
        FileSpan(f);
        FileSpan(g);
      }
    }
  }

  lemma InputsMerge(v: Levels, c: Compaction)
    requires ValidVersion(v) && ValidCompaction(v, c)
    ensures Sorted(MergedInput(c))
    ensures Elements(MergedInput(c)) == InputEntries(c)
  {
    var files := c.inputs0 + c.inputs1;
    InputsAreValid(v, c);
    forall i, j | 0 <= i < j < |files|
      ensures DistinctKeys(files[i].entries, files[j].entries)
    {
      forall x, y | x in files[i].entries && y in files[j].entries
        ensures x.key != y.key
      {
        var l := if i < |c.inputs0| then c.level else c.level + 1;
        var m := if j < |c.inputs0| then c.level else c.level + 1;
        InputIndex(c, i);
        InputIndex(c, j);
        PlacesDiffer(v, l, files[i], m, files[j], x, y);
      }
    }
    MergeFilesIsSorted(files);
    assert FilesEntries(files) == InputEntries(c);
  }

  lemma InputIndex(c: Compaction, i: nat)
    requires i < |c.inputs0| + |c.inputs1|
    ensures if i < |c.inputs0| then (c.inputs0 + c.inputs1)[i] == c.inputs0[i] && c.inputs0[i] in c.inputs0
            else (c.inputs0 + c.inputs1)[i] == c.inputs1[i - |c.inputs0|] && c.inputs1[i - |c.inputs0|] in c.inputs1
  {
  }

  lemma OutputsAreGood(d: DbState, c: Compaction, outputs: seq<FileMeta>)
    requires TreeInOrder(d) && ValidCompaction(d.version, c) && CompactionDone(d, c, outputs)
    ensures GoodOutputs(d.version, c, outputs)
    ensures FilesEntries(outputs) == Elements(Flatten(outputs))
    ensures forall o :: o in outputs ==> o.number < d.nextFileNumber + |outputs|
  {
    var merged := MergedInput(c);
    InputsMerge(d.version, c);
    KeptIsSorted(d.version, c.level, merged, |merged|, SmallestSnapshot(d));
    KeptMembers(d.version, c.level, merged, |merged|, SmallestSnapshot(d));
    CutIsDisjoint(outputs);
    FlattenMembers(outputs);
    assert FilesEntries(outputs) <= Elements(merged);
    assert forall o :: o in outputs ==> d.nextFileNumber <= o.number;
  }

  lemma CompactInstalls(d: DbState, c: Compaction, outputs: seq<FileMeta>)
    requires TreeInOrder(d) && ValidCompaction(d.version, c) && CompactionDone(d, c, outputs)
    ensures var w := ApplyEdit(d.version, PushDownEdit(c, outputs));
            && ValidVersion(w) && NumbersUnique(w) && NumbersBelow(w, d.nextFileNumber + |outputs|)
            && VersionEntries(w) == Elements(Flatten(outputs)) + RestEntries(d.version, c)
  {
    OutputsAreGood(d, c, outputs);
    PushIsValid(d.version, c, outputs, d.nextFileNumber + |outputs|);
  }

  // ----- The store around a compaction -----

  lemma RestEntrySplits(d: DbState, c: Compaction, x: Entry)
    requires ValidCompaction(d.version, c) && x in RestEntries(d.version, c)
    ensures var p := SplitOf(d, c); x in p.upper || x in p.beside || x in p.deeper
  {
    var l, g :| 0 <= l < NUM_LEVELS && g in d.version[l] && !IsInput(c, l, g) && x in g.entries;
    if l >= c.level + 2 {
      assert x in FilesEntries(d.version[l]);
      assert x in SplitOf(d, c).deeper;
    } else if l == c.level + 1 {
      assert g in LeftOut(d.version[l], c.inputs1);
    }
  }

  lemma RestSplits(d: DbState, c: Compaction)
    requires ValidCompaction(d.version, c)
    ensures var p := SplitOf(d, c);
            p.upper + p.beside + p.deeper == Memory(d) + RestEntries(d.version, c)
  {
    var p := SplitOf(d, c);
    forall x | x in RestEntries(d.version, c)
      ensures x in p.upper + p.beside + p.deeper
    {
      RestEntrySplits(d, c, x);
    }
    forall x | x in p.beside
      ensures x in RestEntries(d.version, c)
    {
      var g :| g in LeftOut(d.version[c.level + 1], c.inputs1) && x in g.entries;
      assert !IsInput(c, c.level + 1, g);
    }
    forall x | x in p.deeper
      ensures x in RestEntries(d.version, c)
    {
      var l :| c.level + 2 <= l < NUM_LEVELS && x in FilesEntries(d.version[l]);
      var g :| g in d.version[l] && x in g.entries;
      assert !IsInput(c, l, g);
    }
  }

  lemma VersionSplits(v: Levels, c: Compaction)
    requires ValidCompaction(v, c)
    ensures InputEntries(c) + RestEntries(v, c) == VersionEntries(v)
  {
    RestIsInVersion(v, c);
    forall x | x in VersionEntries(v)
      ensures x in InputEntries(c) + RestEntries(v, c)
    {
      var l :| 0 <= l < NUM_LEVELS && x in FilesEntries(v[l]);
      var g :| g in v[l] && x in g.entries;
      if !IsInput(c, l, g) {
        assert x in RestEntries(v, c);
      }
    }
    forall x | x in InputEntries(c)
      ensures x in VersionEntries(v)
    {
      var l := InputLevel(v, c, x);
    }
  }

  lemma InputLevel(v: Levels, c: Compaction, x: Entry) returns (l: nat)
    requires ValidCompaction(v, c) && x in InputEntries(c)
    ensures l == c.level || l == c.level + 1
    ensures x in FilesEntries(v[l])
    ensures x in FilesEntries(if l == c.level then c.inputs0 else c.inputs1)
  {
    if x in FilesEntries(c.inputs0) {
      l := c.level;
      var g :| g in c.inputs0 && x in g.entries;
    } else {
      l := c.level + 1;
      var g :| g in c.inputs1 && x in g.entries;
    }
  }

  lemma UpperFileIsAbove(v: Levels, c: Compaction, l: nat, g: FileMeta, x: Entry, y: Entry)
    requires ValidCompaction(v, c) && l <= c.level && g in v[l] && !IsInput(c, l, g) && x in g.entries
    requires forall i, j :: 0 <= i < j < NUM_LEVELS ==> Above(FilesEntries(v[i]), FilesEntries(v[j]))
    requires y in InputEntries(c) && x.key.user == y.key.user
    ensures x.key.sequence > y.key.sequence
  {
    var m := InputLevel(v, c, y);
    EntryPlace(v, l, g, x);
    if l < m {
      assert Above(FilesEntries(v[l]), FilesEntries(v[m]));
    } else {
      assert g in LeftOut(v[l], c.inputs0);
      LeftIsNewerThanMoved(v[l], c.inputs0, x, y);
    }
  }

  lemma UpperIsAbove(d: DbState, c: Compaction, x: Entry, y: Entry)
    requires Above(Memory(d), VersionEntries(d.version)) && ValidCompaction(d.version, c)
    requires forall i, j :: 0 <= i < j < NUM_LEVELS ==> Above(FilesEntries(d.version[i]), FilesEntries(d.version[j]))
    requires x in SplitOf(d, c).upper && y in InputEntries(c) && x.key.user == y.key.user
    ensures x.key.sequence > y.key.sequence
  {
    if x in Memory(d) {
      VersionSplits(d.version, c);
    } else {
      var l, g :| 0 <= l <= c.level && g in d.version[l] && !IsInput(c, l, g) && x in g.entries;
      UpperFileIsAbove(d.version, c, l, g, x, y);
    }
  }

  lemma BesideIsApart(v: Levels, c: Compaction, x: Entry)
    requires ValidVersion(v) && ValidCompaction(v, c)
    requires x in SetEntries(LeftOut(v[c.level + 1], c.inputs1))
    ensures x !in InputEntries(c)
  {
    var g :| g in LeftOut(v[c.level + 1], c.inputs1) && x in g.entries;
    var after := LeftOutIsBeside(v, c, g);
    FileSpan(g);
  }

  lemma DeeperIsApart(v: Levels, c: Compaction, l: nat, x: Entry)
    requires ValidVersion(v) && ValidCompaction(v, c) && c.level + 2 <= l < NUM_LEVELS
    requires x in FilesEntries(v[l])
    ensures x !in InputEntries(c) && !BaseLevel(v, c.level, x.key.user)
  {
    var g :| g in v[l] && x in g.entries;
    assert ValidLevel(l, v[l]);
    FileSpan(g);
    assert InUserRange(g, x.key.user);
    forall y | y in InputEntries(c)
      ensures x != y
    {
      var m := InputLevel(v, c, y);
      assert Above(FilesEntries(v[m]), FilesEntries(v[l]));
    }
  }

  lemma Regroup(upper: set<Entry>, middle: set<Entry>, beside: set<Entry>, deeper: set<Entry>, memory: set<Entry>, rest: set<Entry>)
    requires upper + beside + deeper == memory + rest
    ensures upper + middle + beside + deeper == memory + (middle + rest)
  {
    assert upper + middle + beside + deeper == middle + (upper + beside + deeper);
  }

  lemma SplitIsTheStore(d: DbState, c: Compaction)
    requires ValidVersion(d.version) && ValidCompaction(d.version, c)
    ensures Before(SplitOf(d, c)) == AllEntries(d)
  {
    var p := SplitOf(d, c);
    InputsMerge(d.version, c);
    RestSplits(d, c);
    VersionSplits(d.version, c);
    Regroup(p.upper, Elements(p.merged), p.beside, p.deeper, Memory(d), RestEntries(d.version, c));
  }

  lemma SplitUpper(d: DbState, c: Compaction)
    requires Above(Memory(d), VersionEntries(d.version)) && ValidVersion(d.version) && ValidCompaction(d.version, c)
    ensures Above(SplitOf(d, c).upper, InputEntries(c))
  {
    forall x, y | x in SplitOf(d, c).upper && y in InputEntries(c) && x.key.user == y.key.user
      ensures x.key.sequence > y.key.sequence
    {
      UpperIsAbove(d, c, x, y);
    }
  }

  lemma SplitBeside(d: DbState, c: Compaction)
    requires ValidVersion(d.version) && ValidCompaction(d.version, c)
    ensures SplitOf(d, c).beside !! InputEntries(c)
  {
    forall x | x in SplitOf(d, c).beside
      ensures x !in InputEntries(c)
    {
      BesideIsApart(d.version, c, x);
    }
  }

  lemma SplitDeeper(d: DbState, c: Compaction)
    requires ValidVersion(d.version) && ValidCompaction(d.version, c)
    ensures SplitOf(d, c).deeper !! InputEntries(c)
    ensures forall x :: x in SplitOf(d, c).deeper ==> !BaseLevel(d.version, c.level, x.key.user)
  {
    forall x | x in SplitOf(d, c).deeper
      ensures x !in InputEntries(c) && !BaseLevel(d.version, c.level, x.key.user)
    {
      var l :| c.level + 2 <= l < NUM_LEVELS && x in FilesEntries(d.version[l]);
      DeeperIsApart(d.version, c, l, x);
    }
  }

  lemma SplitIsValid(d: DbState, c: Compaction)
    requires Above(Memory(d), VersionEntries(d.version)) && ValidVersion(d.version)
    requires UniqueSequences(AllEntries(d)) && ValidCompaction(d.version, c)
    ensures ValidSplit(SplitOf(d, c), d.version, c.level)
  {
    SplitIsTheStore(d, c);
    InputsMerge(d.version, c);
    SplitUpper(d, c);
    SplitBeside(d, c);
    SplitDeeper(d, c);
  }

  lemma AfterIsTheStore(d: DbState, c: Compaction, outputs: seq<FileMeta>)
    requires TreeInOrder(d) && ValidCompaction(d.version, c) && CompactionDone(d, c, outputs)
    ensures var w := ApplyEdit(d.version, PushDownEdit(c, outputs));
            After(SplitOf(d, c), d.version, c.level, SmallestSnapshot(d)) == Memory(d) + VersionEntries(w)
  {
    var p := SplitOf(d, c);
    CompactInstalls(d, c, outputs);
    RestSplits(d, c);
    Regroup(p.upper, Elements(Flatten(outputs)), p.beside, p.deeper, Memory(d), RestEntries(d.version, c));
  }

  lemma {:induction false} SplitOfStore(d: DbState, c: Compaction, outputs: seq<FileMeta>)
    requires MemoryInOrder(d) && TreeInOrder(d) && UniqueSequences(AllEntries(d))
    requires ValidCompaction(d.version, c) && CompactionDone(d, c, outputs)
    ensures ValidSplit(SplitOf(d, c), d.version, c.level) && Before(SplitOf(d, c)) == AllEntries(d)
    ensures After(SplitOf(d, c), d.version, c.level, SmallestSnapshot(d)) == AllEntries(AfterCompaction(d, c, outputs))
  {
    SplitIsValid(d, c);
    SplitIsTheStore(d, c);
    AfterIsTheStore(d, c, outputs);
    AfterIsAllEntries(d, c, outputs);
  }

  /** Reads from the smallest snapshot on survive a compaction exactly when no deleted key comes back. */
  lemma ReadsAcrossCompaction(d: DbState, c: Compaction, outputs: seq<FileMeta>)
    requires MemoryInOrder(d) && TreeInOrder(d) && UniqueSequences(AllEntries(d))
    requires ValidCompaction(d.version, c) && CompactionDone(d, c, outputs)
    ensures SameReads(AllEntries(d), AllEntries(AfterCompaction(d, c, outputs)), SmallestSnapshot(d))
       <==> !Resurrects(SplitOf(d, c), d.version, c.level, SmallestSnapshot(d))
  {
    hide SplitOf, ValidSplit, Before, After, AllEntries, AfterCompaction, SameReads, Resurrects, CompactionDone;
    SplitOfStore(d, c, outputs);
    CompactionKeepsReads(SplitOf(d, c), d.version, c.level, SmallestSnapshot(d));
  }

  lemma AfterIsAllEntries(d: DbState, c: Compaction, outputs: seq<FileMeta>)
    ensures AllEntries(AfterCompaction(d, c, outputs)) == Memory(d) + VersionEntries(ApplyEdit(d.version, PushDownEdit(c, outputs)))
  {
  }

  /** After a compaction a key reads as the log says if and only if its deletion was not lost. */
  lemma CompactReadsOf(d: DbState, c: Compaction, outputs: seq<FileMeta>, user: Bytes)
    requires Order(d) && Enabled(d, Compact(c, outputs)) && FaithfulFrom(d, user, SmallestSnapshot(d))
    ensures FaithfulFrom(AfterCompaction(d, c, outputs), user, 0) <==> !LosesKey(d, c, user)
  {
    hide SplitOf, ValidSplit, Before, After, AllEntries, CompactionDone, SameReadsOf, ResurrectsKey, FaithfulFrom;
    var w, m := AfterCompaction(d, c, outputs), SmallestSnapshot(d);
    SplitOfStore(d, c, outputs);
    CompactionKeepsReadsOf(SplitOf(d, c), d.version, c.level, m, user);
    SameReadsMeanFaithful(d, w, user, m);
  }

  lemma SameReadsMeanFaithful(d: DbState, w: DbState, user: Bytes, m: nat)
    requires FaithfulFrom(d, user, m) && d.horizon <= m == w.horizon && w.history == d.history
    ensures FaithfulFrom(w, user, 0) <==> SameReadsOf(AllEntries(d), AllEntries(w), user, m)
  {
    hide AllEntries, IsNewest;
    forall s, r | m <= s && IsNewest(AllEntries(w), user, s, r) && SameReadsOf(AllEntries(d), AllEntries(w), user, m)
      ensures ValueOf(r) == ReadLog(w.history, user, s)
    {
      var q := NewestExists(AllEntries(d), user, s);
    }
  }

  lemma CompactKeepsReads(d: DbState, c: Compaction, outputs: seq<FileMeta>, user: Bytes, m: nat)
    requires Order(d) && Enabled(d, Compact(c, outputs)) && FaithfulFrom(d, user, m) && !LosesKey(d, c, user)
    ensures FaithfulFrom(AfterCompaction(d, c, outputs), user, m)
  {
    hide SplitOf, ValidSplit, Before, After, AllEntries, CompactionDone, ResurrectsKey;
    var w, smallest := AfterCompaction(d, c, outputs), SmallestSnapshot(d);
    SplitOfStore(d, c, outputs);
    CompactionKeepsReadsOf(SplitOf(d, c), d.version, c.level, smallest, user);
    forall s, r | m <= s && smallest <= s && IsNewest(AllEntries(w), user, s, r)
      ensures ValueOf(r) == ReadLog(w.history, user, s)
    {
      var q := NewestExists(AllEntries(d), user, s);
    }
  }

  lemma CompactShrinks(d: DbState, c: Compaction, outputs: seq<FileMeta>)
    requires TreeInOrder(d) && ValidCompaction(d.version, c) && CompactionDone(d, c, outputs)
    ensures VersionEntries(ApplyEdit(d.version, PushDownEdit(c, outputs))) <= VersionEntries(d.version)
  {
    CompactInstalls(d, c, outputs);
    OutputsAreGood(d, c, outputs);
    VersionSplits(d.version, c);
  }

  lemma CompactKeepsOrder(d: DbState, c: Compaction, outputs: seq<FileMeta>)
    requires Order(d) && Enabled(d, Compact(c, outputs))
    ensures Order(AfterCompaction(d, c, outputs))
  {
    CompactInstalls(d, c, outputs);
    CompactShrinks(d, c, outputs);
    FewerEntriesKeepOrder(d, AfterCompaction(d, c, outputs));
  }

  /** Dropping entries disturbs no order. */
  lemma FewerEntriesKeepOrder(d: DbState, w: DbState)
    requires Order(d) && TreeInOrder(w)
    requires w.mem == d.mem && w.imm == d.imm && w.lastSequence == d.lastSequence && w.snapshots == d.snapshots && w.history == d.history
    requires VersionEntries(w.version) <= VersionEntries(d.version)
    requires w.horizon == SmallestSnapshot(d)
    ensures Order(w)
  {
    assert AllEntries(w) <= AllEntries(d);
  }

  // ----- Every step -----

  /** Every step keeps the order, also a compaction that loses a deletion. */
  lemma StepKeepsOrder(d: DbState, a: Action)
    requires Order(d) && Enabled(d, a)
    ensures Order(Do(d, a))
  {
    hide Order, SnapshotsInOrder;
    var w := Do(d, a);
    match a
    case Write(ops) => WriteAllKeepsOrder(d, ops);
    case SwitchMemtable => SwitchMovesEntries(d);
    case Flush(level, size) => FlushMovesEntries(d, level, size);
    case Move(c) => MoveMovesEntries(d, c);
    case Compact(c, outputs) => CompactKeepsOrder(d, c, outputs);
    case TakeSnapshot => TakingKeepsOrder(d);
    case ReleaseSnapshot(index) => ReleasingKeepsOrder(d, index);
  }

  lemma TakingKeepsOrder(d: DbState)
    requires Order(d)
    ensures Order(d.(snapshots := d.snapshots + [d.lastSequence]))
  {
    SnapshotsKeepOrder(d, d.snapshots + [d.lastSequence]);
  }

  lemma ReleasingKeepsOrder(d: DbState, index: nat)
    requires Order(d) && index < |d.snapshots|
    ensures Order(d.(snapshots := d.snapshots[..index] + d.snapshots[index + 1..]))
  {
    SnapshotsKeepOrder(d, d.snapshots[..index] + d.snapshots[index + 1..]);
  }

  lemma SnapshotsKeepOrder(d: DbState, snapshots: seq<nat>)
    requires Order(d) && SnapshotsInOrder(d.(snapshots := snapshots))
    ensures Order(d.(snapshots := snapshots))
  {
    var w := d.(snapshots := snapshots);
    assert AllEntries(w) == AllEntries(d);
    assert Memory(w) == Memory(d);
  }

  /** A step keeps the reads of a key unless it is a compaction that loses its deletion. */
  lemma StepKeepsReads(d: DbState, a: Action, user: Bytes, m: nat)
    requires Order(d) && Enabled(d, a) && FaithfulFrom(d, user, m) && !Loses(d, a, user)
    ensures FaithfulFrom(Do(d, a), user, m)
  {
    hide Order, FaithfulFrom, AllEntries;
    var w := Do(d, a);
    match a
    case Write(ops) => WriteAllKeepsReads(d, ops, user, m);
    case SwitchMemtable =>
      SwitchMovesEntries(d);
      SameEntriesSameReads(d, w, user, m);
    case Flush(level, size) =>
      FlushMovesEntries(d, level, size);
      SameEntriesSameReads(d, w, user, m);
    case Move(c) =>
      MoveMovesEntries(d, c);
      SameEntriesSameReads(d, w, user, m);
    case Compact(c, outputs) => CompactKeepsReads(d, c, outputs, user, m);
    case TakeSnapshot => SnapshotsKeepReads(d, w, user, m);
    case ReleaseSnapshot(index) => SnapshotsKeepReads(d, w, user, m);
  }

  lemma SnapshotsKeepReads(d: DbState, w: DbState, user: Bytes, m: nat)
    requires w == d.(snapshots := w.snapshots) && FaithfulFrom(d, user, m)
    ensures FaithfulFrom(w, user, m)
  {
    assert AllEntries(w) == AllEntries(d);
  }

  lemma StepKeepsInv(d: DbState, a: Action)
    requires Inv(d) && Enabled(d, a) && forall user :: !Loses(d, a, user)
    ensures Inv(Do(d, a))
  {
    hide Order, FaithfulFrom, Enabled, Do, Loses;
    StepKeepsOrder(d, a);
    forall user
      ensures FaithfulFrom(Do(d, a), user, 0)
    {
      StepKeepsReads(d, a, user, 0);
    }
  }

  // ----- Runs -----

  lemma EmptyDbInv()
    ensures Inv(EMPTY_DB)
  {
    EmptyVersionIsValid();
    assert AllEntries(EMPTY_DB) == {};
  }

  lemma EmptyVersionIsValid()
    ensures ValidVersion(EMPTY_VERSION) && VersionEntries(EMPTY_VERSION) == {}
    ensures forall level :: 0 <= level < NUM_LEVELS ==> EMPTY_VERSION[level] == []
  {
    assert forall level :: 0 <= level < NUM_LEVELS ==> EMPTY_VERSION[level] == [];
    assert forall level :: 0 <= level < NUM_LEVELS ==> FilesEntries(EMPTY_VERSION[level]) == {};
  }

  /** The states of a run: each one by an enabled action from the one before. */
  ghost predicate IsRun(states: seq<DbState>, actions: seq<Action>) {
    && |states| == |actions| + 1
    && states[0] == EMPTY_DB
    && forall i :: 0 <= i < |actions| ==> Enabled(states[i], actions[i]) && states[i + 1] == Do(states[i], actions[i])
  }

  lemma {:induction false} RunGoesOn(states: seq<DbState>, actions: seq<Action>, a: Action, w: DbState)
    requires IsRun(states, actions) && Enabled(states[|actions|], a) && w == Do(states[|actions|], a)
    ensures IsRun(states + [w], actions + [a])
  {
    hide Enabled, Do;
  }

  /** Over every run, whatever its compactions drop, the store stays in order. */
  lemma {:induction false} RunKeepsOrder(states: seq<DbState>, actions: seq<Action>, i: nat)
    requires IsRun(states, actions) && i < |states|
    ensures Order(states[i])
  {
    hide Order, Enabled, Do;
    if i == 0 {
      EmptyDbInv();
      InvHasOrder(EMPTY_DB);
    } else {
      RunKeepsOrder(states, actions, i - 1);
      StepKeepsOrder(states[i - 1], actions[i - 1]);
    }
  }

  lemma InvHasOrder(d: DbState)
    requires Inv(d)
    ensures Order(d) && forall user :: FaithfulFrom(d, user, 0)
  {
  }

  /** None of the steps from the state with index `j` to that with index `i` lost a deletion of the key. */
  ghost predicate KeepsKey(states: seq<DbState>, actions: seq<Action>, j: nat, i: nat, user: Bytes)
    requires |states| == |actions| + 1 && j <= i < |states|
  {
    forall k :: j <= k < i ==> !Loses(states[k], actions[k], user)
  }

  /** What holds of the reads of a key lasts as long as no compaction loses its deletion. */
  lemma {:induction false} RunKeepsReads(states: seq<DbState>, actions: seq<Action>, j: nat, i: nat, user: Bytes, m: nat)
    requires IsRun(states, actions) && j <= i < |states|
    requires FaithfulFrom(states[j], user, m) && KeepsKey(states, actions, j, i, user)
    ensures FaithfulFrom(states[i], user, m)
  {
    hide Order, FaithfulFrom, Enabled, Do, Loses;
    if j < i {
      RunKeepsReads(states, actions, j, i - 1, user, m);
      RunKeepsOrder(states, actions, i - 1);
      StepKeepsReads(states[i - 1], actions[i - 1], user, m);
    }
  }

  /** A key whose deletion no compaction has lost is read as it was written. */
  lemma {:induction false} KeptKeyIsFaithful(states: seq<DbState>, actions: seq<Action>, i: nat, user: Bytes)
    requires IsRun(states, actions) && i < |states| && KeepsKey(states, actions, 0, i, user)
    ensures FaithfulFrom(states[i], user, 0)
  {
    hide Inv, FaithfulFrom, Enabled, Do, Loses;
    EmptyDbInv();
    InvHasOrder(EMPTY_DB);
    RunKeepsReads(states, actions, 0, i, user, 0);
  }

  /** A write mends its key: only compactions after it can disturb the reads from it on. */
  lemma {:induction false} WrittenKeyIsFaithful(states: seq<DbState>, actions: seq<Action>, j: nat, i: nat, n: nat)
    requires IsRun(states, actions) && j < i < |states| && actions[j].Write? && n < |actions[j].ops|
    requires KeepsKey(states, actions, j + 1, i, actions[j].ops[n].key)
    ensures FaithfulFrom(states[i], actions[j].ops[n].key, states[j].lastSequence + 1 + n)
  {
    hide Order, FaithfulFrom, WriteAll, Loses;
    RunKeepsOrder(states, actions, j);
    WriteAllIsRead(states[j], actions[j].ops, n);
    RunKeepsReads(states, actions, j + 1, i, actions[j].ops[n].key, states[j].lastSequence + 1 + n);
  }

  /** Over every run whose compactions lose no deletion, all reads are right. */
  lemma {:induction false} RunKeepsInv(states: seq<DbState>, actions: seq<Action>, i: nat)
    requires IsRun(states, actions) && i < |states|
    requires forall user :: KeepsKey(states, actions, 0, i, user)
    ensures Inv(states[i])
  {
    hide Order, FaithfulFrom, Enabled, Do, KeepsKey;
    RunKeepsOrder(states, actions, i);
    forall user
      ensures FaithfulFrom(states[i], user, 0)
    {
      KeptKeyIsFaithful(states, actions, i, user);
    }
  }

  /** Over every run: reading a key at a live snapshot, or at the present, gives its newest write not after it, unless its deletion was lost. */
  lemma EveryReadIsRight(states: seq<DbState>, actions: seq<Action>, i: nat, user: Bytes, s: nat, r: Option<Entry>)
    requires IsRun(states, actions) && i < |states| && KeepsKey(states, actions, 0, i, user)
    requires s in states[i].snapshots || s == states[i].lastSequence
    requires IsNewest(AllEntries(states[i]), user, s, r)
    ensures ValueOf(r) == ReadLog(states[i].history, user, s)
  {
    hide IsRun, MemoryInOrder, TreeInOrder, SequencesInOrder, HistoryInOrder, AllEntries, KeepsKey;
    RunKeepsOrder(states, actions, i);
    KeptKeyIsFaithful(states, actions, i, user);
  }
}
