/** The edits that a run of the database writes to its manifest: they rebuild its version, and no file number returns. */
module ManifestOfRuns {
  import opened ByteOrder
  import opened DbFormat
  import opened Version
  import opened VersionBuilder
  import opened CompactionInputs
  import opened CompactionWork
  import opened Install
  import opened ManifestReplay
  import opened Database

  /** The action puts a new version in place. */
  predicate ChangesVersion(d: DbState, a: Action) {
    a.Move? || a.Compact? || (a.Flush? && d.imm.Some? && d.imm.value != [])
  }

  function EditOf(d: DbState, a: Action): VersionEdit
    requires ChangesVersion(d, a)
  {
    match a
    case Flush(level, size) => FlushEdit(FlushedFile(d, size), level)
    case Move(c) => PushDownEdit(c, c.inputs0)
    case Compact(c, outputs) => PushDownEdit(c, outputs)
  }

  /** The edits of the first `n` actions. */
  function Edits(states: seq<DbState>, actions: seq<Action>, n: nat): seq<VersionEdit>
    requires n <= |actions| < |states|
  {
    if n == 0 then []
    else if ChangesVersion(states[n - 1], actions[n - 1]) then
      Edits(states, actions, n - 1) + [EditOf(states[n - 1], actions[n - 1])]
    else Edits(states, actions, n - 1)
  }

  /** Where the file numbers of the edits can be: a file of one level has not been in a deeper one. */
  ghost predicate Placed(v: Levels, es: seq<VersionEdit>, next: nat) {
    && (forall l, x :: 0 <= l < NUM_LEVELS && x in AddedNumbers(es, l) ==> x < next)
    && (forall l, f :: 0 <= l < NUM_LEVELS && f in v[l] ==> f.number in AddedNumbers(es, l))
    && forall l, m, f :: 0 <= l < m < NUM_LEVELS && f in v[l] ==> f.number !in AddedNumbers(es, m)
  }

  /** New files enter one level, with numbers that neither it nor a deeper level has had. */
  ghost predicate EntersOneLevel(v: Levels, es: seq<VersionEdit>, e: VersionEdit, level: nat, next: nat)
    requires level < NUM_LEVELS
  {
    && (forall p :: p in e.newFiles ==> p.0 == level && p.1.number < next)
    && FreshAt(e.newFiles, level, AddedNumbers(es, level))
    && (forall p, m :: p in e.newFiles && level <= m < NUM_LEVELS ==> p.1.number !in AddedNumbers(es, m))
    && forall p, l, g :: p in e.newFiles && 0 <= l < level && g in Remaining(v[l], DeletedAt(e, l)) ==> g.number != p.1.number
  }

  lemma {:induction false} NewNumbers(es: seq<VersionEdit>, e: VersionEdit, l: nat)
    ensures forall x :: x in AddedNumbers(es + [e], l) <==> x in AddedNumbers(es, l) || exists f :: f in NewAt(e.newFiles, l) && f.number == x
  {
    hide NewAt;
    var more := es + [e];
    assert more[..|es|] == es;
    AddedNumbersGrow(more, l);
  }

  lemma {:induction false} FreshForVersion(v: Levels, es: seq<VersionEdit>, e: VersionEdit, level: nat, next: nat)
    requires level < NUM_LEVELS && EntersOneLevel(v, es, e, level, next) && Placed(v, es, next)
    ensures FreshEdit(v, e)
    ensures forall l :: 0 <= l < NUM_LEVELS ==> FreshAt(e.newFiles, l, AddedNumbers(es, l))
  {
    forall l | 0 <= l < NUM_LEVELS
      ensures FreshAt(e.newFiles, l, AddedNumbers(es, l)) && FreshAt(e.newFiles, l, Numbers(v[l]))
    {
      forall i | 0 <= i < |e.newFiles|
        ensures e.newFiles[i].0 == level
      {
        assert e.newFiles[i] in e.newFiles;
      }
    }
  }

  lemma {:induction false} StaysPlaced(v: Levels, es: seq<VersionEdit>, e: VersionEdit, level: nat, next: nat)
    requires level < NUM_LEVELS && LevelsSorted(v) && Placed(v, es, next) && EntersOneLevel(v, es, e, level, next)
    ensures LevelsSorted(ApplyEdit(v, e)) && Placed(ApplyEdit(v, e), es + [e], next)
    ensures forall l :: 0 <= l < NUM_LEVELS ==> FreshAt(e.newFiles, l, AddedNumbers(es, l))
  {
    hide FreshAt, AddedNumbers, ApplyEdit, Numbers;
    FreshForVersion(v, es, e, level, next);
    forall l | 0 <= l < NUM_LEVELS
      ensures SortedFiles(ApplyEdit(v, e)[l]) && SameFiles(ApplyEdit(v, e)[l], EditedLevel(v, e, l))
    {
      EditMembers(v, e, l);
    }
    forall l
      ensures forall x :: x in AddedNumbers(es + [e], l) <==> x in AddedNumbers(es, l) || exists f :: f in NewAt(e.newFiles, l) && f.number == x
    {
      NewNumbers(es, e, l);
    }
  }

  // ----- Flushes, moves and compactions -----

  lemma {:induction false} MoreNumbers(v: Levels, es: seq<VersionEdit>, next: nat, more: nat)
    requires Placed(v, es, next) && next <= more
    ensures Placed(v, es, more)
  {
  }

  /** New numbers have been nowhere. */
  lemma {:induction false} NewNumbersEnter(v: Levels, es: seq<VersionEdit>, e: VersionEdit, level: nat, next: nat, more: nat)
    requires level < NUM_LEVELS && Placed(v, es, next) && NumbersBelow(v, next)
    requires forall i :: 0 <= i < |e.newFiles| ==> e.newFiles[i].0 == level && e.newFiles[i].1.number == next + i
    requires next + |e.newFiles| <= more
    ensures EntersOneLevel(v, es, e, level, more)
  {
    hide AddedNumbers;
    forall p | p in e.newFiles
      ensures p.0 == level && next <= p.1.number < more
    {
      var i :| 0 <= i < |e.newFiles| && e.newFiles[i] == p;
    }
  }

  /** A file that is moved down has not been there, nor any deeper. */
  lemma {:induction false} MovedFileEnters(v: Levels, es: seq<VersionEdit>, e: VersionEdit, level: nat, f: FileMeta, next: nat)
    requires level + 1 < NUM_LEVELS && Placed(v, es, next) && NumbersBelow(v, next) && NumbersUnique(v)
    requires f in v[level] && f.number in DeletedAt(e, level) && e.newFiles == [(level + 1, f)]
    ensures EntersOneLevel(v, es, e, level + 1, next)
  {
    hide AddedNumbers, DeletedAt;
  }

  lemma {:induction false} FlushEnters(d: DbState, es: seq<VersionEdit>, level: nat, size: nat)
    requires Order(d) && Placed(d.version, es, d.nextFileNumber) && Enabled(d, Flush(level, size)) && d.imm.value != []
    ensures level < NUM_LEVELS && EntersOneLevel(d.version, es, FlushEdit(FlushedFile(d, size), level), level, d.nextFileNumber + 1)
  {
    TreeParts(d);
    FlushGoesHigh(d, level, size);
    hide Order, Placed, EntersOneLevel, Enabled, NumbersBelow;
    NewNumbersEnter(d.version, es, FlushEdit(FlushedFile(d, size), level), level, d.nextFileNumber, d.nextFileNumber + 1);
  }

  lemma FlushGoesHigh(d: DbState, level: nat, size: nat)
    requires Enabled(d, Flush(level, size)) && d.imm.value != []
    ensures level < NUM_LEVELS
  {
  }

  lemma {:induction false} TreeParts(d: DbState)
    requires Order(d)
    ensures NumbersUnique(d.version) && NumbersBelow(d.version, d.nextFileNumber) && LevelsSorted(d.version)
    ensures forall l :: 0 <= l < NUM_LEVELS ==> DistinctNumbers(d.version[l])
  {
    assert forall l :: 0 <= l < NUM_LEVELS ==> ValidLevel(l, d.version[l]);
  }

  lemma {:induction false} DeletedInputs(c: Compaction, outputs: seq<FileMeta>)
    requires c.level + 1 < NUM_LEVELS
    ensures forall f :: f in c.inputs0 ==> f.number in DeletedAt(PushDownEdit(c, outputs), c.level)
    ensures forall p :: p in PushDownEdit(c, outputs).newFiles ==> p.0 == c.level + 1 && p.1 in outputs
    ensures |PushDownEdit(c, outputs).newFiles| == |outputs|
    ensures forall i :: 0 <= i < |outputs| ==> PushDownEdit(c, outputs).newFiles[i] == (c.level + 1, outputs[i])
  {
    var e := PushDownEdit(c, outputs);
    forall f | f in c.inputs0
      ensures f.number in DeletedAt(e, c.level)
    {
      assert (c.level, f.number) in e.deletedFiles;
    }
  }

  lemma {:induction false} MoveEnters(d: DbState, es: seq<VersionEdit>, c: Compaction)
    requires Order(d) && Placed(d.version, es, d.nextFileNumber) && Enabled(d, Move(c))
    ensures c.level + 1 < NUM_LEVELS
    ensures EntersOneLevel(d.version, es, PushDownEdit(c, c.inputs0), c.level + 1, d.nextFileNumber)
  {
    MovedFile(d.version, c);
    hide Order, Placed, EntersOneLevel, Enabled, NumbersBelow, NumbersUnique, PushDownEdit;
    TreeParts(d);
    DeletedInputs(c, c.inputs0);
    var e, f := PushDownEdit(c, c.inputs0), c.inputs0[0];
    assert e.newFiles == [(c.level + 1, f)];
    MovedFileEnters(d.version, es, e, c.level, f, d.nextFileNumber);
  }

  lemma {:induction false} MovedFile(v: Levels, c: Compaction)
    requires ValidCompaction(v, c) && |c.inputs0| == 1
    ensures c.level + 1 < NUM_LEVELS && c.inputs0 == [c.inputs0[0]] && c.inputs0[0] in v[c.level]
  {
    assert c.inputs0[0] in c.inputs0;
  }

  lemma {:induction false} CompactEnters(d: DbState, es: seq<VersionEdit>, c: Compaction, outputs: seq<FileMeta>)
    requires Order(d) && Placed(d.version, es, d.nextFileNumber) && Enabled(d, Compact(c, outputs))
    ensures c.level + 1 < NUM_LEVELS
    ensures EntersOneLevel(d.version, es, PushDownEdit(c, outputs), c.level + 1, d.nextFileNumber + |outputs|)
  {
    TreeParts(d);
    OutputNumbers(d, c, outputs);
    hide Order, Placed, EntersOneLevel, Enabled, NumbersBelow, PushDownEdit;
    DeletedInputs(c, outputs);
    NewNumbersEnter(d.version, es, PushDownEdit(c, outputs), c.level + 1, d.nextFileNumber, d.nextFileNumber + |outputs|);
  }

  lemma {:induction false} OutputNumbers(d: DbState, c: Compaction, outputs: seq<FileMeta>)
    requires Enabled(d, Compact(c, outputs))
    ensures c.level + 1 < NUM_LEVELS
    ensures forall i :: 0 <= i < |outputs| ==> outputs[i].number == d.nextFileNumber + i
  {
    hide ValidCompaction, Kept;
    LevelFits(d.version, c);
  }

  lemma LevelFits(v: Levels, c: Compaction)
    requires ValidCompaction(v, c)
    ensures c.level + 1 < NUM_LEVELS
  {
  }

  // ----- Runs -----

  lemma {:induction false} VersionAfter(d: DbState, a: Action)
    requires Enabled(d, a)
    ensures Do(d, a).version == if ChangesVersion(d, a) then ApplyEdit(d.version, EditOf(d, a)) else d.version
    ensures Do(d, a).nextFileNumber >= d.nextFileNumber
  {
    hide ApplyEdit, WriteAll;
    if a.Write? { WritesKeepFiles(d, a.ops); }
  }

  lemma {:induction false} WritesKeepFiles(d: DbState, ops: seq<WriteOp>)
    ensures WriteAll(d, ops).version == d.version && WriteAll(d, ops).nextFileNumber == d.nextFileNumber
    decreases |ops|
  {
    hide AddToMem, EntryOf;
    if ops != [] {
      WritesKeepFiles(d, ops[..|ops| - 1]);
    }
  }

  /** The level that an edit brings files to. */
  function EntryLevel(a: Action): nat
    requires a.Flush? || a.Move? || a.Compact?
  {
    match a
    case Flush(level, size) => level
    case Move(c) => c.level + 1
    case Compact(c, outputs) => c.level + 1
  }

  lemma {:induction false} EditEnters(d: DbState, a: Action, es: seq<VersionEdit>)
    requires Order(d) && Enabled(d, a) && Placed(d.version, es, d.nextFileNumber) && ChangesVersion(d, a)
    ensures EntryLevel(a) < NUM_LEVELS && EntersOneLevel(d.version, es, EditOf(d, a), EntryLevel(a), Do(d, a).nextFileNumber)
  {
    hide Order, Enabled, Do, Placed, EntersOneLevel, PushDownEdit, FlushEdit, FlushedFile;
    NextAfter(d, a);
    match a
    case Flush(level, size) => FlushEnters(d, es, level, size);
    case Move(c) => MoveEnters(d, es, c);
    case Compact(c, outputs) => CompactEnters(d, es, c, outputs);
  }

  lemma {:induction false} ActionKeepsPlaced(d: DbState, a: Action, es: seq<VersionEdit>)
    requires Order(d) && Enabled(d, a) && Placed(d.version, es, d.nextFileNumber)
    ensures var w := Do(d, a);
            if ChangesVersion(d, a) then
              Placed(w.version, es + [EditOf(d, a)], w.nextFileNumber)
              && forall l :: 0 <= l < NUM_LEVELS ==> FreshAt(EditOf(d, a).newFiles, l, AddedNumbers(es, l))
            else Placed(w.version, es, w.nextFileNumber)
  {
    hide Order, Enabled, Do, Placed, ApplyEdit, AddedNumbers, FreshAt, EntersOneLevel, LevelsSorted, EditOf, EntryLevel, ChangesVersion;
    VersionAfter(d, a);
    TreeParts(d);
    var next := Do(d, a).nextFileNumber;
    MoreNumbers(d.version, es, d.nextFileNumber, next);
    if ChangesVersion(d, a) {
      ChangingActions(d, a);
      EditEnters(d, a, es);
      StaysPlaced(d.version, es, EditOf(d, a), EntryLevel(a), next);
    }
  }

  lemma ChangingActions(d: DbState, a: Action)
    requires ChangesVersion(d, a)
    ensures a.Flush? || a.Move? || a.Compact?
  {
  }

  lemma {:induction false} NextAfter(d: DbState, a: Action)
    requires Enabled(d, a)
    ensures a.Flush? ==> Do(d, a).nextFileNumber == d.nextFileNumber + 1
    ensures a.Move? ==> Do(d, a).nextFileNumber == d.nextFileNumber
    ensures a.Compact? ==> Do(d, a).nextFileNumber == d.nextFileNumber + |a.outputs|
  {
    hide ApplyEdit;
  }

  lemma {:induction false} NothingPlaced()
    ensures Placed(EMPTY_VERSION, [], 2) && NumbersNeverReturn(EMPTY_VERSION, [])
  {
    EmptyVersionIsValid();
    assert forall l :: 0 <= l < NUM_LEVELS ==> AddedNumbers([], l) == {};
  }

  lemma {:induction false} OneMoreReturns(v: Levels, es: seq<VersionEdit>, e: VersionEdit)
    requires EmptyLevels(v) && NumbersNeverReturn(v, es)
    requires forall l :: 0 <= l < NUM_LEVELS ==> FreshAt(e.newFiles, l, AddedNumbers(es, l))
    ensures NumbersNeverReturn(v, es + [e])
  {
    hide FreshAt, AddedNumbers;
    var more := es + [e];
    forall l, i | 0 <= l < NUM_LEVELS && 0 <= i < |more|
      ensures FreshAt(more[i].newFiles, l, Numbers(v[l]) + AddedNumbers(more[..i], l))
    {
      assert Numbers(v[l]) == {};
      if i < |es| {
        assert more[..i] == es[..i];
        assert FreshAt(es[i].newFiles, l, Numbers(v[l]) + AddedNumbers(es[..i], l));
      } else {
        assert more[..i] == es && {} + AddedNumbers(es, l) == AddedNumbers(es, l);
      }
    }
  }

  /** Over every run: the edits rebuild the version, and no file number returns to a level. */
  lemma {:induction false} RunEditsNeverReturn(states: seq<DbState>, actions: seq<Action>, i: nat)
    requires IsRun(states, actions) && i <= |actions|
    ensures NumbersNeverReturn(EMPTY_VERSION, Edits(states, actions, i))
    ensures ApplyEdits(EMPTY_VERSION, Edits(states, actions, i)) == states[i].version
    ensures Placed(states[i].version, Edits(states, actions, i), states[i].nextFileNumber)
  {
    hide Order, Enabled, Do, Placed, ApplyEdit, AddedNumbers, FreshAt, NumbersNeverReturn, ChangesVersion, EditOf;
    EmptyVersionIsValid();
    if i == 0 {
      NothingPlaced();
    } else {
      RunEditsNeverReturn(states, actions, i - 1);
      RunKeepsOrder(states, actions, i - 1);
      var es := Edits(states, actions, i - 1);
      var d, a := states[i - 1], actions[i - 1];
      ActionKeepsPlaced(d, a, es);
      VersionAfter(d, a);
      if ChangesVersion(d, a) {
        OneMoreReturns(EMPTY_VERSION, es, EditOf(d, a));
        assert Edits(states, actions, i)[..|es|] == es;
      }
    }
  }

  /** So one builder that takes in all edits of a run rebuilds its version, level by level. */
  lemma {:induction false} ManifestRebuildsRun(states: seq<DbState>, actions: seq<Action>, i: nat, level: nat)
    requires IsRun(states, actions) && i <= |actions| && level < NUM_LEVELS
    ensures SaveLevel([], ApplyAll(EMPTY_STATE, level, Edits(states, actions, i))) == states[i].version[level]
  {
    hide Order, Enabled, Do, Placed, ApplyEdit, NumbersNeverReturn, ApplyAll, SaveLevel, Edits;
    EmptyVersionIsValid();
    RunEditsNeverReturn(states, actions, i);
    ReplayAtOnce(EMPTY_VERSION, Edits(states, actions, i), level);
  }

  // ----- A manifest that was begun in the middle of a run -----

  lemma {:induction false} EditsGrow(states: seq<DbState>, actions: seq<Action>, j: nat, i: nat)
    requires j <= i <= |actions| < |states|
    ensures Edits(states, actions, j) <= Edits(states, actions, i)
  {
    hide ChangesVersion, EditOf;
    if j < i {
      EditsGrow(states, actions, j, i - 1);
    }
  }

  /** The edits from the state with index `j` on. */
  function LaterEdits(states: seq<DbState>, actions: seq<Action>, j: nat, i: nat): seq<VersionEdit>
    requires j <= i <= |actions| < |states| && Edits(states, actions, j) <= Edits(states, actions, i)
  {
    Edits(states, actions, i)[|Edits(states, actions, j)|..]
  }

  lemma {:induction false} FewerUsed(files: seq<(nat, FileMeta)>, level: nat, used: set<nat>, some: set<nat>)
    requires FreshAt(files, level, used) && some <= used
    ensures FreshAt(files, level, some)
  {
  }

  lemma {:induction false} AddedByPart(es: seq<VersionEdit>, k: nat, n: nat, level: nat)
    requires k <= n <= |es|
    ensures AddedNumbers(es[..k], level) + AddedNumbers(es[k..n], level) <= AddedNumbers(es[..n], level)
  {
    hide NewAt;
    forall x | x in AddedNumbers(es[..k], level)
      ensures x in AddedNumbers(es[..n], level)
    {
      var i, f :| 0 <= i < k && f in NewAt(es[..k][i].newFiles, level) && f.number == x;
      assert es[..n][i] == es[..k][i];
    }
    forall x | x in AddedNumbers(es[k..n], level)
      ensures x in AddedNumbers(es[..n], level)
    {
      var i, f :| 0 <= i < n - k && f in NewAt(es[k..n][i].newFiles, level) && f.number == x;
      assert es[..n][k + i] == es[k..n][i];
    }
  }

  lemma {:induction false} RestNeverReturns(empty: Levels, v: Levels, es: seq<VersionEdit>, k: nat, next: nat)
    requires EmptyLevels(empty) && NumbersNeverReturn(empty, es) && k <= |es| && Placed(v, es[..k], next)
    ensures NumbersNeverReturn(v, es[k..])
  {
    hide FreshAt, AddedNumbers;
    var rest := es[k..];
    forall l, i | 0 <= l < NUM_LEVELS && 0 <= i < |rest|
      ensures FreshAt(rest[i].newFiles, l, Numbers(v[l]) + AddedNumbers(rest[..i], l))
    {
      var n := k + i;
      assert es[n] == rest[i] && rest[..i] == es[k..n];
      assert FreshAt(es[n].newFiles, l, Numbers(empty[l]) + AddedNumbers(es[..n], l));
      AddedByPart(es, k, n, l);
      FewerUsed(es[n].newFiles, l, Numbers(empty[l]) + AddedNumbers(es[..n], l), Numbers(v[l]) + AddedNumbers(rest[..i], l));
    }
  }

  lemma {:induction false} ApplyRest(v: Levels, es: seq<VersionEdit>, k: nat)
    requires k <= |es|
    ensures ApplyEdits(ApplyEdits(v, es[..k]), es[k..]) == ApplyEdits(v, es)
    decreases |es|
  {
    hide ApplyEdit;
    if k == |es| {
      assert es[..k] == es && es[k..] == [];
    } else {
      var n := |es| - 1;
      ApplyRest(v, es[..n], k);
      assert es[..n][..k] == es[..k] && es[..n][k..] == es[k..][..n - k];
    }
  }

  /**
   * A manifest that starts with a snapshot of any version of a run and holds the edits after it rebuilds the version
   * that the run has reached.
   */
  lemma {:induction false} SnapshotRebuildsRun(states: seq<DbState>, actions: seq<Action>, j: nat, i: nat, level: nat)
    requires IsRun(states, actions) && j <= i <= |actions| && level < NUM_LEVELS
    ensures Edits(states, actions, j) <= Edits(states, actions, i)
    ensures NumbersNeverReturn(states[j].version, LaterEdits(states, actions, j, i))
    ensures var snapshot := VersionEdit({}, SnapshotFiles(states[j].version, NUM_LEVELS));
            SaveLevel([], ApplyAll(EMPTY_STATE, level, [snapshot] + LaterEdits(states, actions, j, i))) == states[i].version[level]
  {
    hide Order, Enabled, Do, Placed, NumbersNeverReturn, ApplyAll, SaveLevel, Edits, ApplyEdits, SnapshotFiles;
    EmptyVersionIsValid();
    EditsGrow(states, actions, j, i);
    RunEditsNeverReturn(states, actions, j);
    RunEditsNeverReturn(states, actions, i);
    RunKeepsOrder(states, actions, j);
    TreeParts(states[j]);
    var es, k := Edits(states, actions, i), |Edits(states, actions, j)|;
    assert es[..k] == Edits(states, actions, j);
    RestNeverReturns(EMPTY_VERSION, states[j].version, es, k, states[j].nextFileNumber);
    ApplyRest(EMPTY_VERSION, es, k);
    RecoverRebuilds(states[j].version, es[k..], EMPTY_VERSION, level);
  }

  /** The next edit of the run brings no level a number that it has had since that manifest was begun. */
  lemma {:induction false} NextEditIsFresh(states: seq<DbState>, actions: seq<Action>, j: nat, i: nat, level: nat)
    requires IsRun(states, actions) && j <= i < |actions| && level < NUM_LEVELS && ChangesVersion(states[i], actions[i])
    ensures Edits(states, actions, j) <= Edits(states, actions, i)
    ensures var snapshot := VersionEdit({}, SnapshotFiles(states[j].version, NUM_LEVELS));
            FreshAt(EditOf(states[i], actions[i]).newFiles, level, AddedNumbers([snapshot] + LaterEdits(states, actions, j, i), level))
  {
    hide Order, Enabled, Do, ApplyAll, SaveLevel, ApplyEdits, SnapshotFiles, FreshAt, AddedNumbers, EditOf, ChangesVersion;
    EditsGrow(states, actions, j, i);
    SnapshotRebuildsRun(states, actions, j, i + 1, level);
    RunKeepsOrder(states, actions, j);
    TreeParts(states[j]);
    var v, before, after := states[j].version, LaterEdits(states, actions, j, i), LaterEdits(states, actions, j, i + 1);
    var n := |before|;
    assert after[n] == EditOf(states[i], actions[i]) && after[..n] == before;
    assert FreshAt(after[n].newFiles, level, Numbers(v[level]) + AddedNumbers(after[..n], level));
    SnapshotFilesFresh(v, NUM_LEVELS, level);
    SnapshotNumbers(v, after, VersionEdit({}, SnapshotFiles(v, NUM_LEVELS)), n, level);
  }
}
