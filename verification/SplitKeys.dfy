/**
 * The one way a compaction can lose a deletion, on a store that twelve steps build from nothing: the versions of a
 * user key are split between an input file of the output level and a file left out of it.
 */
module SplitKeys {
  import opened ByteOrder
  import opened DbFormat
  import opened Version
  import opened VersionBuilder
  import opened CompactionInputs
  import opened CompactionWork
  import opened CompactionReads
  import opened Install
  import opened MemtableFlush
  import opened Database
  import opened ClosedInputs
  import opened DBImplementation

  // ----- The entries and files -----

  /** Any two user keys a < b, any values and any sizes of the files. */
  datatype Plan = Plan(a: Bytes, b: Bytes, first: Bytes, live: Bytes, top: Bytes,
                       lower: nat, upper: nat, parent: nat, neighbour: nat, topSize: nat)

  function Old(k: Plan): Entry { Entry(InternalKey(k.a, 1, Value), k.first) }

  function Live(k: Plan): Entry { Entry(InternalKey(k.b, 2, Value), k.live) }

  function Marker(k: Plan): Entry { Entry(InternalKey(k.b, 3, Deletion), []) }

  function Top(k: Plan): Entry { Entry(InternalKey(k.a, 4, Value), k.top) }

  function Lower(k: Plan): FileMeta { FileMeta(2, k.lower, Old(k).key, Live(k).key, [Old(k), Live(k)]) }

  function Upper(k: Plan): FileMeta { FileMeta(3, k.upper, Marker(k).key, Marker(k).key, [Marker(k)]) }

  function Parent(k: Plan): FileMeta { FileMeta(4, k.parent, Old(k).key, Marker(k).key, [Old(k), Marker(k)]) }

  function Neighbour(k: Plan): FileMeta { FileMeta(5, k.neighbour, Live(k).key, Live(k).key, [Live(k)]) }

  function TopFile(k: Plan): FileMeta { FileMeta(6, k.topSize, Top(k).key, Top(k).key, [Top(k)]) }

  function TwoLevels(one: seq<FileMeta>, two: seq<FileMeta>): Levels { [[], one, two, [], [], [], []] }

  function Tree(k: Plan): Levels { TwoLevels([TopFile(k)], [Parent(k), Neighbour(k)]) }

  function Store(k: Plan): DbState {
    DbState([], None, Tree(k), 4, [], 7, [Old(k), Live(k), Marker(k), Top(k)], 2)
  }

  // ----- A run that ends in that store -----

  /**
   * While a snapshot still sees the deleted version of b, both versions stay. The output is cut between them,
   * as it is when the file has reached its size limit with the marker.
   */
  function FirstCompaction(k: Plan): Compaction { Compaction(1, [Upper(k)], [Lower(k)], []) }

  function Actions(k: Plan): seq<Action> {
    [ Write([Put(k.a, k.first), Put(k.b, k.live)]),
      SwitchMemtable,
      Flush(2, k.lower),
      TakeSnapshot,
      Write([Delete(k.b)]),
      SwitchMemtable,
      Flush(1, k.upper),
      Compact(FirstCompaction(k), [Parent(k), Neighbour(k)]),
      ReleaseSnapshot(0),
      Write([Put(k.a, k.top)]),
      SwitchMemtable,
      Flush(1, k.topSize) ]
  }

  function States(k: Plan): seq<DbState> {
    var two, three, four := [Old(k), Live(k)], [Old(k), Live(k), Marker(k)], [Old(k), Live(k), Marker(k), Top(k)];
    var one, both, down := TwoLevels([], [Lower(k)]), TwoLevels([Upper(k)], [Lower(k)]), TwoLevels([], [Parent(k), Neighbour(k)]);
    [ EMPTY_DB,
      DbState([Old(k), Live(k)], None, EMPTY_VERSION, 2, [], 2, two, 0),
      DbState([], Some([Old(k), Live(k)]), EMPTY_VERSION, 2, [], 2, two, 0),
      DbState([], None, one, 2, [], 3, two, 0),
      DbState([], None, one, 2, [2], 3, two, 0),
      DbState([Marker(k)], None, one, 3, [2], 3, three, 0),
      DbState([], Some([Marker(k)]), one, 3, [2], 3, three, 0),
      DbState([], None, both, 3, [2], 4, three, 0),
      DbState([], None, down, 3, [2], 6, three, 2),
      DbState([], None, down, 3, [], 6, three, 2),
      DbState([Top(k)], None, down, 4, [], 6, four, 2),
      DbState([], Some([Top(k)]), down, 4, [], 6, four, 2),
      Store(k) ]
  }

  lemma {:induction false} TwoPuts(k: Plan)
    requires Lt(k.a, k.b)
    ensures WriteAll(EMPTY_DB, [Put(k.a, k.first), Put(k.b, k.live)]) == States(k)[1]
  {
    var ops := [Put(k.a, k.first), Put(k.b, k.live)];
    assert ops[..1] == [Put(k.a, k.first)] && ops[..1][..0] == [];
    assert WriteAll(EMPTY_DB, []) == EMPTY_DB;
    assert WriteAll(EMPTY_DB, ops[..1]) == WriteOne(EMPTY_DB, Put(k.a, k.first));
    AddsAt([], Old(k), 0);
    AddsAt([Old(k)], Live(k), 1);
  }

  /** Where an entry goes in a memtable. */
  lemma {:induction false} AddsAt(mem: seq<Entry>, e: Entry, i: nat)
    requires i <= |mem|
    requires forall j :: 0 <= j < i ==> KeyLt(mem[j].key, e.key)
    requires i < |mem| ==> !KeyLt(mem[i].key, e.key)
    ensures AddToMem(mem, e) == mem[..i] + [e] + mem[i..]
  {
    var k := SeekIndex(mem, e.key);
    assert k == i;
  }

  lemma {:induction false} OneWrite(d: DbState, op: WriteOp)
    requires d.mem == []
    ensures WriteAll(d, [op]) == WriteOne(d, op) && WriteOne(d, op).mem == [EntryOf(op, d.lastSequence + 1)]
  {
    assert [op][..0] == [];
    assert WriteAll(d, []) == d;
    AddsAt([], EntryOf(op, d.lastSequence + 1), 0);
  }

  lemma {:induction false} OneWriteEach(k: Plan)
    ensures WriteAll(States(k)[4], [Delete(k.b)]) == States(k)[5]
    ensures WriteAll(States(k)[9], [Put(k.a, k.top)]) == States(k)[10]
  {
    OneWrite(States(k)[4], Delete(k.b));
    OneWrite(States(k)[9], Put(k.a, k.top));
  }

  // ----- Edits of nearly empty versions -----

  lemma {:induction false} DropsNothing(files: seq<FileMeta>)
    ensures DropDeleted(files, {}) == files
    decreases |files|
  {
    if files != [] {
      DropsNothing(files[1..]);
    }
  }

  lemma {:induction false} NothingFor(s: LevelState, level: nat, files: seq<(nat, FileMeta)>)
    requires forall p :: p in files ==> p.0 != level
    ensures AddFiles(s, level, files) == s
    decreases |files|
  {
    if files != [] {
      NothingFor(s, level, files[..|files| - 1]);
    }
  }

  lemma {:induction false} UntouchedLevel(v: Levels, e: VersionEdit, level: nat)
    requires level < NUM_LEVELS && DeletedAt(e, level) == {} && forall p :: p in e.newFiles ==> p.0 != level
    ensures ApplyEdit(v, e)[level] == v[level]
  {
    assert LevelState({} + DeletedAt(e, level), []) == EMPTY_STATE;
    NothingFor(EMPTY_STATE, level, e.newFiles);
    DropsNothing(v[level]);
  }

  /** A flush to an empty level. */
  lemma {:induction false} FlushFills(v: Levels, f: FileMeta, level: nat)
    requires level < NUM_LEVELS && v[level] == []
    ensures ApplyEdit(v, FlushEdit(f, level)) == v[level := [f]]
  {
    var e := FlushEdit(f, level);
    var w := ApplyEdit(v, e);
    forall l | 0 <= l < NUM_LEVELS
      ensures w[l] == v[level := [f]][l]
    {
      assert DeletedAt(e, l) == {};
      if l == level {
        assert e.newFiles[..0] == [] && {} + DeletedAt(e, l) == {} && {} - {f.number} == {};
        assert AddFiles(EMPTY_STATE, l, []) == EMPTY_STATE;
        assert ApplyToLevel(EMPTY_STATE, l, e) == LevelState({}, [f]);
        assert [f][1..] == [] && MergeFileLists([], []) == [];
        assert MergeFileLists([], [f]) == [f];
        DropsNothing([f]);
      } else {
        UntouchedLevel(v, e, l);
      }
    }
  }

  lemma {:induction false} FileLeaves(f: FileMeta, e: VersionEdit, level: nat)
    requires DeletedAt(e, level) == {f.number} && forall p :: p in e.newFiles ==> p.0 != level
    ensures SaveLevel([f], ApplyToLevel(EMPTY_STATE, level, e)) == []
  {
    NothingFor(LevelState({} + DeletedAt(e, level), []), level, e.newFiles);
    assert {} + DeletedAt(e, level) == {f.number} && [f][1..] == [];
    assert DropDeleted([f], {f.number}) == [] + DropDeleted([], {f.number});
  }

  lemma {:induction false} TwoFilesPending(p: FileMeta, n: FileMeta, number: nat, e: VersionEdit, level: nat)
    requires KeyLt(p.smallest, n.smallest) && e.newFiles == [(level, p), (level, n)] && DeletedAt(e, level) == {number}
    requires number < p.number && number < n.number
    ensures ApplyToLevel(EMPTY_STATE, level, e) == LevelState({number}, [p, n])
  {
    var first := e.newFiles[..1];
    assert first == [(level, p)] && first[..0] == [];
    assert {} + DeletedAt(e, level) == {number} && {number} - {p.number} == {number} && {number} - {n.number} == {number};
    assert AddFiles(LevelState({number}, []), level, []) == LevelState({number}, []);
    assert AddFiles(LevelState({number}, []), level, first) == LevelState({number}, [p]);
    assert CompareFiles(n, p) > 0 && [p][1..] == [];
    assert InsertFile([], n) == [n];
    assert InsertFile([p], n) == [p, n];
  }

  /** Two files take the place of one that starts with the same key. */
  lemma {:induction false} FileIsReplaced(f: FileMeta, p: FileMeta, n: FileMeta)
    requires p.smallest == f.smallest && f.number < p.number && f.number < n.number
    ensures SaveLevel([f], LevelState({f.number}, [p, n])) == [p, n]
  {
    assert CompareFiles(p, f) >= 0 && [f][1..] == [] && [p, n][1..] == [n] && [n][1..] == [];
    assert MergeFileLists([], []) == [];
    assert MergeFileLists([], [n]) == [n];
    assert MergeFileLists([], [p, n]) == [p, n];
    assert MergeFileLists([f], [p, n]) == [f, p, n];
    assert [f, p, n][1..] == [p, n];
    assert DropDeleted([n], {f.number}) == [n];
    assert DropDeleted([p, n], {f.number}) == [p, n];
  }

  lemma {:induction false} SplitsFile(k: Plan)
    requires Lt(k.a, k.b)
    ensures ApplyEdit(TwoLevels([Upper(k)], [Lower(k)]), PushDownEdit(FirstCompaction(k), [Parent(k), Neighbour(k)])) ==
            TwoLevels([], [Parent(k), Neighbour(k)])
  {
    hide AddFiles, SaveLevel, ApplyToLevel;
    var v, p, n := TwoLevels([Upper(k)], [Lower(k)]), Parent(k), Neighbour(k);
    var e := PushDownEdit(FirstCompaction(k), [p, n]);
    var w := ApplyEdit(v, e);
    assert e.newFiles == [(2, p), (2, n)];
    assert (1, 3) in e.deletedFiles && (2, 2) in e.deletedFiles && e.deletedFiles == {(1, 3), (2, 2)};
    forall l | 0 <= l < NUM_LEVELS
      ensures w[l] == TwoLevels([], [p, n])[l]
    {
      if l == 1 {
        assert DeletedAt(e, 1) == {3};
        FileLeaves(Upper(k), e, 1);
      } else if l == 2 {
        assert DeletedAt(e, 2) == {2};
        TwoFilesPending(p, n, 2, e, 2);
        FileIsReplaced(Lower(k), p, n);
      } else {
        assert DeletedAt(e, l) == {};
        UntouchedLevel(v, e, l);
      }
    }
  }

  // ----- The first compaction -----

  lemma {:induction false} LowerOverlaps(k: Plan)
    requires Lt(k.a, k.b)
    ensures OverlapFilter([Lower(k)], Some(k.b), Some(k.b)) == [Lower(k)]
  {
    assert [Lower(k)][..0] == [] && OverlapFilter([], Some(k.b), Some(k.b)) == [];
  }

  lemma {:induction false} FirstIsValid(k: Plan)
    requires Lt(k.a, k.b)
    ensures var v := TwoLevels([Upper(k)], [Lower(k)]);
            ValidCompaction(v, FirstCompaction(k)) && ParentClosed(v, FirstCompaction(k))
  {
    LowerOverlaps(k);
  }

  lemma {:induction false} FirstKeepsBoth(k: Plan)
    requires Lt(k.a, k.b)
    ensures CompactionDone(States(k)[7], FirstCompaction(k), [Parent(k), Neighbour(k)])
  {
    hide MergeFiles, Flatten, Kept;
    FirstMerges(k);
    SnapshotKeepsBoth(k);
    TwoOutputs(k);
  }

  lemma {:induction false} FirstMerges(k: Plan)
    requires Lt(k.a, k.b)
    ensures MergedInput(FirstCompaction(k)) == [Old(k), Marker(k), Live(k)]
  {
    var c := FirstCompaction(k);
    assert c.inputs0 + c.inputs1 == [Upper(k), Lower(k)] && [Upper(k), Lower(k)][1..] == [Lower(k)] && [Lower(k)][1..] == [];
    assert MergeFiles([]) == [] && Merge([Old(k), Live(k)], []) == [Old(k), Live(k)];
    assert MergeFiles([Lower(k)]) == [Old(k), Live(k)];
    assert [Old(k), Live(k)][1..] == [Live(k)] && [Marker(k)][1..] == [] && [Live(k)][1..] == [];
    assert Merge([], [Live(k)]) == [Live(k)];
    assert Merge([Marker(k)], [Live(k)]) == [Marker(k), Live(k)];
    assert Merge([Marker(k)], [Old(k), Live(k)]) == [Old(k), Marker(k), Live(k)];
  }

  lemma {:induction false} SnapshotKeepsBoth(k: Plan)
    requires Lt(k.a, k.b)
    ensures var es := [Old(k), Marker(k), Live(k)]; Kept(TwoLevels([Upper(k)], [Lower(k)]), 1, es, |es|, 2) == es
  {
    var v, es := TwoLevels([Upper(k)], [Lower(k)]), [Old(k), Marker(k), Live(k)];
    assert Kept(v, 1, es, 0, 2) == [];
    assert Kept(v, 1, es, 1, 2) == [Old(k)];
    assert Kept(v, 1, es, 2, 2) == [Old(k), Marker(k)];
    assert Kept(v, 1, es, 3, 2) == es;
  }

  lemma {:induction false} TwoOutputs(k: Plan)
    ensures Flatten([Parent(k), Neighbour(k)]) == [Old(k), Marker(k), Live(k)]
  {
    var outputs := [Parent(k), Neighbour(k)];
    assert outputs[..1] == [Parent(k)] && outputs[..1][..0] == [];
    assert Flatten([]) == [];
    assert Flatten(outputs[..1]) == [Old(k), Marker(k)];
  }

  // ----- The run -----

  lemma {:induction false} FlushStep(d: DbState, w: DbState, level: nat, size: nat, f: FileMeta)
    requires d.imm.Some? && d.imm.value != [] && level <= MAX_MEM_COMPACT_LEVEL && FlushedFile(d, size) == f
    requires forall l :: 0 <= l <= level ==> d.version[l] == []
    requires w == d.(imm := None, nextFileNumber := d.nextFileNumber + 1, version := d.version[level := [f]])
    ensures Enabled(d, Flush(level, size)) && Do(d, Flush(level, size)) == w
  {
    FlushFills(d.version, f, level);
  }

  lemma {:induction false} FlushSteps(k: Plan)
    ensures Enabled(States(k)[2], Flush(2, k.lower)) && Do(States(k)[2], Flush(2, k.lower)) == States(k)[3]
    ensures Enabled(States(k)[6], Flush(1, k.upper)) && Do(States(k)[6], Flush(1, k.upper)) == States(k)[7]
    ensures Enabled(States(k)[11], Flush(1, k.topSize)) && Do(States(k)[11], Flush(1, k.topSize)) == States(k)[12]
  {
    hide Enabled, Do;
    assert EMPTY_VERSION[2 := [Lower(k)]] == TwoLevels([], [Lower(k)]);
    FlushStep(States(k)[2], States(k)[3], 2, k.lower, Lower(k));
    assert TwoLevels([], [Lower(k)])[1 := [Upper(k)]] == TwoLevels([Upper(k)], [Lower(k)]);
    FlushStep(States(k)[6], States(k)[7], 1, k.upper, Upper(k));
    assert TwoLevels([], [Parent(k), Neighbour(k)])[1 := [TopFile(k)]] == Tree(k);
    FlushStep(States(k)[11], States(k)[12], 1, k.topSize, TopFile(k));
  }

  lemma {:induction false} CompactStep(k: Plan)
    requires Lt(k.a, k.b)
    ensures var act := Compact(FirstCompaction(k), [Parent(k), Neighbour(k)]);
            ClosedStep(States(k)[7], act) && Do(States(k)[7], act) == States(k)[8]
  {
    hide ValidCompaction, ParentClosed, CompactionDone, ApplyEdit;
    FirstIsValid(k);
    FirstKeepsBoth(k);
    SplitsFile(k);
  }

  lemma {:induction false} EveryStep(k: Plan, i: nat)
    requires Lt(k.a, k.b) && i < 12
    ensures ClosedStep(States(k)[i], Actions(k)[i]) && States(k)[i + 1] == Do(States(k)[i], Actions(k)[i])
  {
    hide WriteAll, ApplyEdit, ValidCompaction, CompactionDone, ParentClosed, FlushLevelOk;
    if i == 0 {
      TwoPuts(k);
    } else if i == 4 || i == 9 {
      OneWriteEach(k);
    } else if i == 2 || i == 6 || i == 11 {
      FlushSteps(k);
    } else if i == 7 {
      CompactStep(k);
    }
  }

  lemma {:induction false} FirstState(k: Plan)
    ensures |States(k)| == 13 && |Actions(k)| == 12 && States(k)[0] == EMPTY_DB && States(k)[12] == Store(k)
  {
  }

  /** The store is reached from nothing by steps none of which splits a user key among its inputs. */
  lemma {:induction false} StoreIsReachable(k: Plan)
    requires Lt(k.a, k.b)
    ensures IsClosedRun(States(k), Actions(k)) && States(k)[12] == Store(k)
    ensures Inv(Store(k))
  {
    hide Inv, ClosedStep, States, Actions, Do, Enabled;
    FirstState(k);
    forall i: nat | i < 12
      ensures ClosedStep(States(k)[i], Actions(k)[i]) && Enabled(States(k)[i], Actions(k)[i])
      ensures States(k)[i + 1] == Do(States(k)[i], Actions(k)[i])
    {
      EveryStep(k, i);
      ClosedIsEnabled(States(k)[i], Actions(k)[i]);
    }
    ClosedRunKeepsInv(States(k), Actions(k), 12);
  }

  lemma {:induction false} ClosedIsEnabled(d: DbState, a: Action)
    requires ClosedStep(d, a)
    ensures Enabled(d, a)
  {
  }

  // ----- The code takes these steps -----

  lemma {:induction false} VersionsAreValid(k: Plan, i: nat)
    requires Lt(k.a, k.b) && i <= 12
    ensures ValidVersion(States(k)[i].version) && BoundedSequences(States(k)[i].version)
  {
    hide Inv, Order, IsClosedRun, BoundedSequences;
    StoreIsReachable(k);
    FirstState(k);
    ClosedRunKeepsInv(States(k), Actions(k), i);
    InvHasOrder(States(k)[i]);
    TreeIsValid(States(k)[i]);
  }

  /** The code flushes to these levels, if the files on level 2 are not too large. */
  method FlushLevels(k: Plan, maxFileSize: nat) returns (first: nat, second: nat, third: nat)
    requires Lt(k.a, k.b) && k.lower <= 10 * maxFileSize && k.parent <= 10 * maxFileSize
    ensures first == 2 && second == 1 && third == 1
  {
    hide ValidVersion, BoundedSequences;
    VersionsAreValid(k, 2);
    VersionsAreValid(k, 6);
    VersionsAreValid(k, 11);
    NothingOverlaps(k);
    first := PickLevelForMemTableOutput(EMPTY_VERSION, k.a, k.b, maxFileSize);
    LowerOverlaps(k);
    SizeOfOne(Lower(k));
    MeetsLevel2(k);
    second := PickLevelForMemTableOutput(TwoLevels([], [Lower(k)]), k.b, k.b, maxFileSize);
    ParentOverlaps(k);
    SizeOfOne(Parent(k));
    third := PickLevelForMemTableOutput(TwoLevels([], [Parent(k), Neighbour(k)]), k.a, k.a, maxFileSize);
  }

  lemma {:induction false} NothingOverlaps(k: Plan)
    ensures forall lo: Option<Bytes>, hi: Option<Bytes> :: TotalFileSize(OverlapFilter([], lo, hi)) == 0
  {
  }

  lemma SizeOfOne(f: FileMeta)
    ensures TotalFileSize([f]) == f.size
  {
    assert [f][1..] == [] && TotalFileSize([]) == 0;
  }

  lemma {:induction false} MeetsLevel2(k: Plan)
    requires Lt(k.a, k.b)
    ensures LevelMeets(TwoLevels([], [Lower(k)]), 2, k.b, k.b)
    ensures LevelMeets(TwoLevels([], [Parent(k), Neighbour(k)]), 2, k.a, k.a)
  {
    assert Lower(k) in TwoLevels([], [Lower(k)])[2] && Parent(k) in TwoLevels([], [Parent(k), Neighbour(k)])[2];
  }

  lemma {:induction false} ParentOverlaps(k: Plan)
    requires Lt(k.a, k.b)
    ensures OverlapFilter([Parent(k), Neighbour(k)], Some(k.a), Some(k.a)) == [Parent(k)]
  {
    var parents := [Parent(k), Neighbour(k)];
    assert parents[..1] == [Parent(k)] && parents[..1][..0] == [];
    assert OverlapFilter([], Some(k.a), Some(k.a)) == [];
    assert OverlapFilter(parents[..1], Some(k.a), Some(k.a)) == [Parent(k)];
  }

  /** For the file of level 1 the code chooses the first compaction, which is no trivial move. */
  method ChooseFirst(k: Plan, maxFileSize: nat) returns (c: Compaction)
    requires Lt(k.a, k.b)
    ensures c == FirstCompaction(k)
  {
    hide ValidVersion, BoundedSequences, PickedFor;
    VersionsAreValid(k, 7);
    c := PickCompaction(TwoLevels([Upper(k)], [Lower(k)]), 1, Upper(k), maxFileSize);
    OnlyFirstChoice(k, c, maxFileSize);
  }

  lemma {:induction false} OnlyFirstChoice(k: Plan, c: Compaction, maxFileSize: nat)
    requires Lt(k.a, k.b) && c.level == 1
    requires var v := TwoLevels([Upper(k)], [Lower(k)]); ValidCompaction(v, c) && PickedFor(v, 1, Upper(k), maxFileSize, c)
    ensures c == FirstCompaction(k)
  {
    hide PickedFor, ChosenFrom, TakesOverlap, OverlapFilter;
    OnlyFirstInputs(k, c);
    NoGrandparents(TwoLevels([Upper(k)], [Lower(k)]), c, Upper(k), maxFileSize);
  }

  lemma {:induction false} OnlyFirstInputs(k: Plan, c: Compaction)
    requires Lt(k.a, k.b) && c.level == 1 && ValidCompaction(TwoLevels([Upper(k)], [Lower(k)]), c)
    ensures c.inputs0 == [Upper(k)] && c.inputs1 == [Lower(k)]
  {
    OneFileOnly(c.inputs0, Upper(k));
    assert Upper(k) in c.inputs0;
    assert IsSmallest(c.inputs0, Marker(k).key) && IsLargest(c.inputs0, Marker(k).key);
    LowerOverlaps(k);
  }

  /** Level 3 is empty. */
  lemma {:induction false} NoGrandparents(v: Levels, c: Compaction, f: FileMeta, maxFileSize: nat)
    requires c.level == 1 && v[3] == [] && c.inputs0 + c.inputs1 != []
    requires ValidCompaction(v, c) && PickedFor(v, 1, f, maxFileSize, c)
    ensures c.grandparents == []
  {
    hide IsExtension, Grown, ValidCompaction;
    var all := c.inputs0 + c.inputs1;
    var lo, hi := EndsOf(all);
    assert OverlapFilter(v[3], Some(lo.user), Some(hi.user)) == [];
  }

  // ----- The compaction that loses the deletion -----

  /** Whatever compaction of level 1 is chosen, it takes the top file and the one file that overlaps it. */
  lemma {:induction false} OnlyChoice(k: Plan, c: Compaction)
    requires Lt(k.a, k.b) && ValidCompaction(Tree(k), c) && c.level == 1
    ensures c.inputs0 == [TopFile(k)] && c.inputs1 == [Parent(k)]
  {
    OneFileOnly(c.inputs0, TopFile(k));
    assert TopFile(k) in c.inputs0;
    assert IsSmallest(c.inputs0, Top(k).key) && IsLargest(c.inputs0, Top(k).key);
    ParentOverlaps(k);
  }

  lemma {:induction false} IsThatFile(inputs: seq<FileMeta>, f: FileMeta, i: nat)
    requires i < |inputs| && SubFiles(inputs, [f])
    ensures inputs[i] == f
  {
    assert inputs[i] in inputs;
  }

  lemma {:induction false} OneFileOnly(inputs: seq<FileMeta>, f: FileMeta)
    requires inputs != [] && SubFiles(inputs, [f])
    ensures inputs == [f]
  {
    IsThatFile(inputs, f, 0);
    if |inputs| > 1 {
      IsThatFile(inputs, f, 1);
      assert false;
    }
  }

  /** The code chooses these inputs. */
  method ChooseInputs(k: Plan, maxFileSize: nat) returns (c: Compaction)
    requires Lt(k.a, k.b)
    ensures ValidCompaction(Tree(k), c) && c.level == 1 && c.inputs0 == [TopFile(k)] && c.inputs1 == [Parent(k)]
  {
    hide ValidVersion, BoundedSequences, PickedFor;
    VersionsAreValid(k, 12);
    c := PickCompaction(Tree(k), 1, TopFile(k), maxFileSize);
    OnlyChoice(k, c);
  }

  /**
   * The deleted key comes back: after every compaction of level 1 of that store, a reader of b finds the value
   * that was deleted, while the writes say that there is none.
   */
  lemma {:induction false} DeletionIsLost(k: Plan, c: Compaction, outputs: seq<FileMeta>)
    requires Lt(k.a, k.b) && c.level == 1 && ValidCompaction(Tree(k), c) && CompactionDone(Store(k), c, outputs)
    ensures var after := AfterCompaction(Store(k), c, outputs);
            && IsNewest(AllEntries(after), k.b, 4, Some(Live(k))) && ValueOf(Some(Live(k))) == Some(k.live)
            && ReadLog(after.history, k.b, 4) == None
            && LosesKey(Store(k), c, k.b) && !FaithfulFrom(after, k.b, 0)
  {
    hide Order, Inv, ValidCompaction, CompactionDone, ResurrectedBy, FaithfulFrom, CompactionReads.After;
    var d := Store(k);
    StoreIsReachable(k);
    InvHasOrder(d);
    MarkerComesBack(k, c);
    var p := SplitOf(d, c);
    StoreSplits(d, c, outputs);
    ResurrectedRead(p, d.version, 1, 4, Marker(k), Live(k));
    NothingInTheLog(k);
    NotFaithful(AfterCompaction(d, c, outputs), k.b, Live(k));
  }

  /** So a run of ordinary steps ends with a key that is read wrong, in a store that is in order. */
  lemma {:induction false} LossEndsARun(k: Plan, c: Compaction, outputs: seq<FileMeta>)
    requires Lt(k.a, k.b) && c.level == 1 && ValidCompaction(Tree(k), c) && CompactionDone(Store(k), c, outputs)
    ensures var after := AfterCompaction(Store(k), c, outputs);
            && IsRun(States(k) + [after], Actions(k) + [Compact(c, outputs)])
            && Order(after) && !FaithfulFrom(after, k.b, 0)
  {
    hide Order, Inv, Enabled, Do, States, Actions, FaithfulFrom, AfterCompaction;
    var after := AfterCompaction(Store(k), c, outputs);
    StoreIsReachable(k);
    FirstState(k);
    LastStep(Store(k), c, outputs);
    DeletionIsLost(k, c, outputs);
    RunGoesOn(States(k), Actions(k), Compact(c, outputs), after);
    InvHasOrder(Store(k));
    CompactKeepsOrder(Store(k), c, outputs);
  }

  lemma {:induction false} LastStep(d: DbState, c: Compaction, outputs: seq<FileMeta>)
    requires ValidCompaction(d.version, c) && CompactionDone(d, c, outputs)
    ensures Enabled(d, Compact(c, outputs)) && Do(d, Compact(c, outputs)) == AfterCompaction(d, c, outputs)
  {
  }

  lemma {:induction false} NotFaithful(w: DbState, b: Bytes, e: Entry)
    requires IsNewest(AllEntries(w), b, 4, Some(e)) && e.key.kind.Value? && ReadLog(w.history, b, 4) == None && w.horizon <= 4
    ensures !FaithfulFrom(w, b, 0)
  {
  }

  lemma {:induction false} StoreSplits(d: DbState, c: Compaction, outputs: seq<FileMeta>)
    requires Order(d) && ValidCompaction(d.version, c) && CompactionDone(d, c, outputs)
    ensures ValidSplit(SplitOf(d, c), d.version, c.level)
    ensures CompactionReads.After(SplitOf(d, c), d.version, c.level, SmallestSnapshot(d)) == AllEntries(AfterCompaction(d, c, outputs))
  {
    hide ValidSplit, AllEntries, CompactionReads.After, CompactionReads.Before;
    SplitOfStore(d, c, outputs);
  }

  lemma {:induction false} NothingInTheLog(k: Plan)
    requires k.a != k.b
    ensures ReadLog(Store(k).history, k.b, 4) == None
  {
    var all := Store(k).history;
    assert all[..3] == [Old(k), Live(k), Marker(k)];
    assert ReadLog(all[..3], k.b, 4) == None;
  }

  lemma {:induction false} TreeEntries(k: Plan, x: Entry)
    requires x in AllEntries(Store(k))
    ensures x == Old(k) || x == Live(k) || x == Marker(k) || x == Top(k)
  {
    var level :| 0 <= level < NUM_LEVELS && x in FilesEntries(Tree(k)[level]);
    var f :| f in Tree(k)[level] && x in f.entries;
  }

  lemma {:induction false} MarkerComesBack(k: Plan, c: Compaction)
    requires Lt(k.a, k.b) && c.level == 1 && ValidCompaction(Tree(k), c) && Order(Store(k))
    ensures ResurrectedBy(SplitOf(Store(k), c), Tree(k), 1, 4, Marker(k), Live(k))
  {
    hide Order, ValidCompaction;
    var d := Store(k);
    OnlyChoice(k, c);
    MarkerIsMerged(k, c);
    SplitHasStore(d, c);
    MarkerIsNewest(k, c);
    NothingDeeper(k);
  }

  lemma {:induction false} SplitHasStore(d: DbState, c: Compaction)
    requires Order(d) && ValidCompaction(d.version, c)
    ensures CompactionReads.Before(SplitOf(d, c)) == AllEntries(d)
  {
    SplitIsTheStore(d, c);
  }

  lemma {:induction false} TreeIsValid(d: DbState)
    requires Order(d)
    ensures ValidVersion(d.version) && BoundedSequences(d.version)
  {
    assert VersionEntries(d.version) <= AllEntries(d);
  }

  lemma {:induction false} MarkerIsMerged(k: Plan, c: Compaction)
    requires c.level == 1 && ValidCompaction(Tree(k), c) && Order(Store(k)) && c.inputs1 == [Parent(k)]
    ensures Marker(k) in SplitOf(Store(k), c).merged
  {
    hide ValidVersion, Order, ValidCompaction, Sorted;
    TreeIsValid(Store(k));
    InputsMerge(Tree(k), c);
    var parent := Parent(k);
    assert parent.entries[1] == Marker(k) && Marker(k) in parent.entries;
    assert c.inputs1[0] == parent && parent in c.inputs1;
    assert Marker(k) in FilesEntries(c.inputs1);
    assert Marker(k) in Elements(MergedInput(c));
  }

  lemma {:induction false} MarkerIsNewest(k: Plan, c: Compaction)
    requires k.a != k.b && c.level == 1 && c.inputs1 == [Parent(k)]
    requires CompactionReads.Before(SplitOf(Store(k), c)) == AllEntries(Store(k)) && Marker(k) in SplitOf(Store(k), c).merged
    ensures IsNewest(AllEntries(Store(k)), k.b, 4, Some(Marker(k)))
    ensures IsNewest(SplitOf(Store(k), c).beside, k.b, 4, Some(Live(k)))
  {
    hide AllEntries, SetEntries, LeftOut;
    forall x | x in AllEntries(Store(k)) && Visible(x, k.b, 4)
      ensures x.key.sequence <= 3
    {
      TreeEntries(k, x);
    }
    assert Marker(k) in Elements(SplitOf(Store(k), c).merged);
    LiveIsLeftOut(k);
  }

  /** Beside the inputs there is the live version of b only. */
  lemma {:induction false} LiveIsLeftOut(k: Plan)
    ensures SetEntries(LeftOut(Tree(k)[2], [Parent(k)])) == {Live(k)}
  {
    var n := Neighbour(k);
    var left := LeftOut(Tree(k)[2], [Parent(k)]);
    assert n in Tree(k)[2] && n != Parent(k) && n in left && Live(k) in n.entries;
    forall x | x in SetEntries(left)
      ensures x == Live(k)
    {
      var g :| g in left && x in g.entries;
      assert g in [Parent(k), n] && g != Parent(k);
    }
  }

  lemma {:induction false} NothingDeeper(k: Plan)
    ensures BaseLevel(Tree(k), 1, k.b)
  {
  }
}
