/** The iterator of the database: what it runs over, and that it shows what the log of writes says. */
module DatabaseIteration {
  import opened ByteOrder
  import opened DbFormat
  import opened Coding
  import opened Version
  import opened CompactionWork
  import opened CompactionReads
  import opened Database
  import opened ClosedInputs
  import opened DBImplementation
  import opened DBIteration
  import MergingIteration

  // ----- The sorted runs of the store -----

  /** NewConcatenatingIterator: the first `n` files of a level one after the other. */
  function LevelRun(files: seq<FileMeta>, n: nat): seq<Entry>
    requires n <= |files|
  {
    if n == 0 then [] else Joined(LevelRun(files, n - 1), files[n - 1].entries)
  }

  function MemoryRuns(mem: seq<Entry>, imm: Option<seq<Entry>>): (r: seq<seq<Entry>>)
    ensures r != []
  {
    if imm.Some? then [mem, imm.value] else [mem]
  }

  /** The first `n` files of level 0, each on its own. */
  function FileRuns(files: seq<FileMeta>, n: nat): (r: seq<seq<Entry>>)
    requires n <= |files|
    ensures |r| == n
  {
    if n == 0 then [] else Joined(FileRuns(files, n - 1), [files[n - 1].entries])
  }

  /** The levels from 1 up to `n`, without the empty ones. */
  function LevelRuns(v: Levels, n: nat): seq<seq<Entry>>
    requires n < NUM_LEVELS
  {
    if n == 0 then []
    else if v[n] == [] then LevelRuns(v, n - 1)
    else Joined(LevelRuns(v, n - 1), [LevelRun(v[n], |v[n]|)])
  }

  /** Version::AddIterators. */
  function VersionRuns(v: Levels): seq<seq<Entry>> {
    Joined(FileRuns(v[0], |v[0]|), LevelRuns(v, NUM_LEVELS - 1))
  }

  function InternalRuns(mem: seq<Entry>, imm: Option<seq<Entry>>, v: Levels): seq<seq<Entry>> {
    Joined(MemoryRuns(mem, imm), VersionRuns(v))
  }

  // ----- The runs are sorted, share nothing and hold all entries -----

  ghost function RunsEntries(runs: seq<seq<Entry>>): set<Entry> {
    set run, e | run in runs && e in run :: e
  }

  ghost predicate ApartFrom(run: seq<Entry>, es: set<Entry>) {
    forall e :: e in run ==> e !in es
  }

  /** Sorted runs, no entry in two of them, which together hold `es`. */
  ghost predicate GoodRuns(runs: seq<seq<Entry>>, es: set<Entry>) {
    && (forall run :: run in runs ==> Sorted(run))
    && MergingIteration.RunsApart(runs)
    && RunsEntries(runs) == es
  }

  lemma {:induction false} NoRuns()
    ensures GoodRuns([], {})
  {
  }

  lemma {:induction false} OneMoreRun(runs: seq<seq<Entry>>, es: set<Entry>, run: seq<Entry>)
    requires GoodRuns(runs, es) && Sorted(run) && ApartFrom(run, es)
    ensures GoodRuns(Joined(runs, [run]), es + Elements(run))
  {
    hide Sorted;
    var more := Joined(runs, [run]);
    forall e
      ensures e in RunsEntries(more) <==> e in es || e in run
    {
      assert more[|runs|] == run && forall i :: 0 <= i < |runs| ==> more[i] == runs[i];
      if e in es {
        var r :| r in runs && e in r;
        assert r in more;
      }
    }
    forall i, j, e | 0 <= i < |more| && 0 <= j < |more| && e in more[i] && e in more[j]
      ensures i == j
    {
      if i < |runs| { assert runs[i] in runs && e in RunsEntries(runs); }
      if j < |runs| { assert runs[j] in runs && e in RunsEntries(runs); }
    }
  }

  lemma {:induction false} MoreRuns(a: seq<seq<Entry>>, es: set<Entry>, b: seq<seq<Entry>>, fs: set<Entry>)
    requires GoodRuns(a, es) && GoodRuns(b, fs) && es !! fs
    ensures GoodRuns(Joined(a, b), es + fs)
  {
    hide Sorted;
    var more := Joined(a, b);
    assert forall i :: 0 <= i < |a| ==> more[i] == a[i];
    assert forall i :: |a| <= i < |more| ==> more[i] == b[i - |a|];
    forall e
      ensures e in RunsEntries(more) <==> e in es || e in fs
    {
      if e in es {
        var r :| r in a && e in r;
        assert r in more;
      }
      if e in fs {
        var r :| r in b && e in r;
        assert r in more;
      }
    }
    forall i, j, e | 0 <= i < |more| && 0 <= j < |more| && e in more[i] && e in more[j]
      ensures i == j
    {
      assert i < |a| ==> a[i] in a && e in RunsEntries(a);
      assert j < |a| ==> a[j] in a && e in RunsEntries(a);
      assert i >= |a| ==> b[i - |a|] in b && e in RunsEntries(b);
      assert j >= |a| ==> b[j - |a|] in b && e in RunsEntries(b);
    }
  }

  lemma AboveMeansApart(newer: set<Entry>, older: set<Entry>)
    requires Above(newer, older)
    ensures newer !! older
  {
  }

  lemma {:induction false} MemoryRunsAreGood(d: DbState)
    requires MemoryInOrder(d)
    ensures GoodRuns(MemoryRuns(d.mem, d.imm), Memory(d))
  {
    hide Sorted;
    NoRuns();
    OneMoreRun([], {}, d.mem);
    if d.imm.Some? {
      AboveMeansApart(Elements(d.mem), ImmEntries(d));
      OneMoreRun([d.mem], Elements(d.mem), d.imm.value);
    }
  }

  ghost predicate AllBefore(a: set<Entry>, b: seq<Entry>) {
    forall x, y :: x in a && y in b ==> KeyLt(x.key, y.key)
  }

  /** A file of a level comes behind the files before it. */
  lemma {:induction false} FileIsBehind(files: seq<FileMeta>, n: nat)
    requires n < |files| && Disjoint(files) && forall f :: f in files ==> ValidFile(f)
    ensures AllBefore(FilesEntries(files[..n]), files[n].entries)
  {
    hide ValidFile;
    forall x, y | x in FilesEntries(files[..n]) && y in files[n].entries
      ensures KeyLt(x.key, y.key)
    {
      var g :| g in files[..n] && x in g.entries;
      var i :| 0 <= i < n && files[i] == g;
      assert g in files && files[n] in files;
      assert KeyLt(files[i].largest, files[n].smallest);
      EntriesWithin(g, x);
      EntriesWithin(files[n], y);
    }
  }

  lemma {:induction false} LevelRunIsSorted(files: seq<FileMeta>, n: nat)
    requires n <= |files| && Disjoint(files) && forall f :: f in files ==> ValidFile(f)
    ensures Sorted(LevelRun(files, n)) && Elements(LevelRun(files, n)) == FilesEntries(files[..n])
  {
    if n > 0 {
      LevelRunIsSorted(files, n - 1);
      var before, f := LevelRun(files, n - 1), files[n - 1];
      FileIsBehind(files, n - 1);
      assert f in files && ValidFile(f);
      JoinedSorted(before, f.entries);
      assert files[..n] == files[..n - 1] + [f];
      FilesEntriesSplit(files[..n - 1], f);
    }
  }

  lemma EntriesWithin(f: FileMeta, x: Entry)
    requires ValidFile(f) && x in f.entries
    ensures !KeyLt(x.key, f.smallest) && !KeyLt(f.largest, x.key)
  {
    var i :| 0 <= i < |f.entries| && f.entries[i] == x;
    if i > 0 { assert KeyLt(f.entries[0].key, f.entries[i].key); }
    if i < |f.entries| - 1 { assert KeyLt(f.entries[i].key, f.entries[|f.entries| - 1].key); }
  }

  lemma {:induction false} JoinedSorted(a: seq<Entry>, b: seq<Entry>)
    requires Sorted(a) && Sorted(b) && AllBefore(Elements(a), b)
    ensures Sorted(Joined(a, b))
    ensures Elements(Joined(a, b)) == Elements(a) + Elements(b)
  {
    hide KeyLt;
    var c := Joined(a, b);
    forall i, j | 0 <= i < j < |c|
      ensures KeyLt(c[i].key, c[j].key)
    {
      if i < |a| <= j { assert c[i] in Elements(a) && c[j] in b; }
    }
    JoinedElements(a, b);
  }

  lemma {:induction false} JoinedElements(a: seq<Entry>, b: seq<Entry>)
    ensures Elements(Joined(a, b)) == Elements(a) + Elements(b)
  {
  }

  lemma FilesEntriesSplit(files: seq<FileMeta>, f: FileMeta)
    ensures FilesEntries(files + [f]) == FilesEntries(files) + Elements(f.entries)
  {
  }

  lemma {:induction false} FileIsApart(files: seq<FileMeta>, n: nat)
    requires n < |files| && ValidLevel(0, files)
    ensures ApartFrom(files[n].entries, FilesEntries(files[..n]))
  {
    hide ValidFile, SortedFiles;
    var f := files[n];
    forall e | e in f.entries && e in FilesEntries(files[..n])
      ensures false
    {
      var g :| g in files[..n] && e in g.entries;
      var i :| 0 <= i < n && files[i] == g;
      assert g in files && f in files && files[i].number != files[n].number;
      assert e in Elements(f.entries) && e in Elements(g.entries);
      if f.number > g.number {
        AboveMeansApart(Elements(f.entries), Elements(g.entries));
      } else {
        AboveMeansApart(Elements(g.entries), Elements(f.entries));
      }
    }
  }

  lemma {:induction false} FileRunsAreGood(files: seq<FileMeta>, n: nat)
    requires n <= |files| && ValidLevel(0, files)
    ensures GoodRuns(FileRuns(files, n), FilesEntries(files[..n]))
  {
    hide Sorted, GoodRuns, FilesEntries;
    if n == 0 {
      NoRuns();
      NothingInside();
      assert files[..0] == [];
    } else {
      FileRunsAreGood(files, n - 1);
      var f := files[n - 1];
      FileIsApart(files, n - 1);
      assert ValidFile(f);
      OneMoreRun(FileRuns(files, n - 1), FilesEntries(files[..n - 1]), f.entries);
      assert files[..n] == files[..n - 1] + [f];
      FilesEntriesSplit(files[..n - 1], f);
    }
  }

  ghost function EntriesOfLevels(v: Levels, n: nat): set<Entry>
    requires n < NUM_LEVELS
  {
    set level, e | 1 <= level <= n && e in FilesEntries(v[level]) :: e
  }

  lemma {:induction false} LevelRunsAreGood(v: Levels, n: nat)
    requires n < NUM_LEVELS && ValidVersion(v)
    ensures GoodRuns(LevelRuns(v, n), EntriesOfLevels(v, n))
  {
    hide Sorted, GoodRuns, FilesEntries, LevelRun;
    if n == 0 {
      NoRuns();
      assert EntriesOfLevels(v, 0) == {};
    } else {
      LevelRunsAreGood(v, n - 1);
      var es := EntriesOfLevels(v, n - 1);
      assert EntriesOfLevels(v, n) == es + FilesEntries(v[n]);
      if v[n] == [] {
        NothingInside();
        assert es + {} == es;
      } else {
        assert ValidLevel(n, v[n]);
        LevelRunIsSorted(v[n], |v[n]|);
        assert v[n][..|v[n]|] == v[n];
        forall e | e in LevelRun(v[n], |v[n]|)
          ensures e !in es
        {
          assert e in Elements(LevelRun(v[n], |v[n]|));
          if e in es {
            var level :| 1 <= level <= n - 1 && e in FilesEntries(v[level]);
            AboveMeansApart(FilesEntries(v[level]), FilesEntries(v[n]));
          }
        }
        OneMoreRun(LevelRuns(v, n - 1), es, LevelRun(v[n], |v[n]|));
      }
    }
  }

  lemma NothingInside()
    ensures FilesEntries([]) == {}
  {
  }

  lemma {:induction false} VersionRunsAreGood(v: Levels)
    requires ValidVersion(v)
    ensures GoodRuns(VersionRuns(v), VersionEntries(v))
  {
    hide Sorted, GoodRuns, FilesEntries, LevelRuns, FileRuns;
    assert ValidLevel(0, v[0]);
    FileRunsAreGood(v[0], |v[0]|);
    assert v[0][..|v[0]|] == v[0];
    LevelRunsAreGood(v, NUM_LEVELS - 1);
    var below := EntriesOfLevels(v, NUM_LEVELS - 1);
    forall e | e in FilesEntries(v[0])
      ensures e !in below
    {
      if e in below {
        var level :| 1 <= level <= NUM_LEVELS - 1 && e in FilesEntries(v[level]);
        AboveMeansApart(FilesEntries(v[0]), FilesEntries(v[level]));
      }
    }
    MoreRuns(FileRuns(v[0], |v[0]|), FilesEntries(v[0]), LevelRuns(v, NUM_LEVELS - 1), below);
    assert VersionEntries(v) == FilesEntries(v[0]) + below;
  }

  lemma {:induction false} StoreRunsAreGood(d: DbState)
    requires Order(d)
    ensures GoodRuns(InternalRuns(d.mem, d.imm, d.version), AllEntries(d))
  {
    hide GoodRuns, VersionRuns, MemoryRuns, ValidVersion, VersionEntries, Memory, SequencesInOrder;
    MemoryRunsAreGood(d);
    VersionRunsAreGood(d.version);
    AboveMeansApart(Memory(d), VersionEntries(d.version));
    MoreRuns(MemoryRuns(d.mem, d.imm), Memory(d), VersionRuns(d.version), VersionEntries(d.version));
  }

  // ----- Their merge -----

  ghost function MergeRuns(runs: seq<seq<Entry>>, n: nat): seq<Entry>
    requires n <= |runs|
  {
    if n == 0 then [] else Merge(MergeRuns(runs, n - 1), runs[n - 1])
  }

  ghost predicate MergedSoFar(runs: seq<seq<Entry>>, n: nat)
    requires n <= |runs|
  {
    && Sorted(MergeRuns(runs, n))
    && forall e :: e in MergeRuns(runs, n) <==> exists i :: 0 <= i < n && e in runs[i]
  }

  lemma {:induction false} RunsMerge(runs: seq<seq<Entry>>, es: set<Entry>, n: nat)
    requires n <= |runs| && GoodRuns(runs, es) && UniqueSequences(es)
    ensures MergedSoFar(runs, n)
  {
    hide Sorted, Merge;
    if n == 0 {
      EmptyIsSorted();
    } else {
      RunsMerge(runs, es, n - 1);
      var before, run := MergeRuns(runs, n - 1), runs[n - 1];
      assert run in runs;
      forall x, y | x in before && y in run
        ensures x.key != y.key
      {
        var i :| 0 <= i < n - 1 && x in runs[i];
        assert runs[i] in runs;
        assert x in RunsEntries(runs) && y in RunsEntries(runs);
      }
      MergeIsSorted(before, run);
    }
  }

  lemma EmptyIsSorted()
    ensures Sorted([])
  {
  }

  lemma {:induction false} RunsAreMerged(runs: seq<seq<Entry>>, es: set<Entry>)
    requires GoodRuns(runs, es) && UniqueSequences(es)
    ensures MergingIteration.IsMerge(MergeRuns(runs, |runs|), runs) && Elements(MergeRuns(runs, |runs|)) == es
  {
    hide Sorted, MergeRuns, UniqueSequences;
    RunsMerge(runs, es, |runs|);
    var merged := MergeRuns(runs, |runs|);
    forall i | 0 <= i < |runs|
      ensures MergingIteration.SubRun(merged, runs[i])
    {
      assert runs[i] in runs;
    }
    forall e
      ensures e in Elements(merged) <==> e in es
    {
      if e in merged {
        var i :| 0 <= i < |runs| && e in runs[i];
        assert runs[i] in runs;
      }
      if e in es {
        var run :| run in runs && e in run;
        var i :| 0 <= i < |runs| && runs[i] == run;
      }
    }
  }

  // ----- The iterators -----

  method NewInternalIterator(db: DBImpl) returns (iter: MergingIteration.MergingIterator)
    requires Order(db.State())
    ensures fresh(iter) && fresh(iter.pos) && iter.Valid() && Elements(iter.merged) == AllEntries(db.State())
  {
    hide Order, AllEntries, MergingIteration.MergingIterator.Valid, MergingIteration.IsMerge, GoodRuns, UniqueSequences, LevelRuns, LevelRun, FileRuns;
    var list := [db.mem];
    if db.imm.Some? {
      list := list + [db.imm.value];
    }
    var added := AddIterators(db.version);
    list := list + added;
    assert list == InternalRuns(db.mem, db.imm, db.version);
    StoreRunsAreGood(db.State());
    SequencesAreUnique(db.State());
    RunsAreMerged(list, AllEntries(db.State()));
    iter := new MergingIteration.MergingIterator(list, MergeRuns(list, |list|));
  }

  lemma SequencesAreUnique(d: DbState)
    requires Order(d)
    ensures UniqueSequences(AllEntries(d)) && d.horizon <= d.lastSequence
    ensures forall s :: s in d.snapshots ==> d.horizon <= s
  {
  }

  method AddIterators(v: Levels) returns (list: seq<seq<Entry>>)
    ensures list == VersionRuns(v)
  {
    hide LevelRun;
    list := [];
    for i := 0 to |v[0]|
      invariant list == FileRuns(v[0], i)
    {
      list := list + [v[0][i].entries];
    }
    ghost var files := list;
    JoinedNothing(files);
    for level := 1 to NUM_LEVELS
      invariant list == Joined(files, LevelRuns(v, level - 1))
    {
      if v[level] != [] {
        var run := Concatenated(v[level]);
        JoinedAssociates(files, LevelRuns(v, level - 1), [run]);
        list := list + [run];
      }
    }
  }

  method Concatenated(files: seq<FileMeta>) returns (run: seq<Entry>)
    ensures run == LevelRun(files, |files|)
  {
    run := [];
    for i := 0 to |files|
      invariant run == LevelRun(files, i)
    {
      JoinedNothing(run);
      run := run + files[i].entries;
    }
  }

  method NewIterator(db: DBImpl, snapshot: Option<nat>) returns (iter: DBIter)
    requires Order(db.State())
    ensures fresh(iter) && fresh(iter.iter) && fresh(iter.iter.pos) && iter.Valid() && !iter.valid
    ensures Elements(iter.es) == AllEntries(db.State()) && iter.sequence == db.ReadSequence(snapshot)
  {
    hide Order, AllEntries, MergingIteration.MergingIterator.Valid;
    var internal := NewInternalIterator(db);
    iter := new DBIter(internal, db.ReadSequence(snapshot));
  }

  // ----- What the iterator shows -----

  /** What is shown before place `n`, in the order of the keys. */
  ghost function ShownUpTo(es: seq<Entry>, s: nat, n: nat): seq<(Bytes, Bytes)>
    requires n <= |es|
  {
    if n == 0 then []
    else if Shows(es, s, n - 1) then Joined(ShownUpTo(es, s, n - 1), [(es[n - 1].key.user, es[n - 1].value)])
    else ShownUpTo(es, s, n - 1)
  }

  lemma {:induction false} NothingShownBetween(es: seq<Entry>, s: nat, from: nat, n: nat)
    requires from <= n <= |es| && forall j: nat :: from <= j < n ==> !Shows(es, s, j)
    ensures ShownUpTo(es, s, n) == ShownUpTo(es, s, from)
  {
    hide Shows;
    if from < n {
      NothingShownBetween(es, s, from, n - 1);
    }
  }

  ghost predicate KeysAscend(kvs: seq<(Bytes, Bytes)>) {
    forall i, j :: 0 <= i < j < |kvs| ==> Lt(kvs[i].0, kvs[j].0)
  }

  ghost predicate IsShown(es: seq<Entry>, s: nat, i: nat, kv: (Bytes, Bytes))
    requires i < |es|
  {
    Shows(es, s, i) && kv == (es[i].key.user, es[i].value)
  }

  lemma {:induction false} ShownMembers(es: seq<Entry>, s: nat, n: nat)
    requires n <= |es|
    ensures forall kv :: kv in ShownUpTo(es, s, n) <==> exists i: nat :: i < n && IsShown(es, s, i, kv)
  {
    hide Shows;
    if n > 0 {
      ShownMembers(es, s, n - 1);
      forall kv
        ensures kv in ShownUpTo(es, s, n) <==> exists i: nat :: i < n && IsShown(es, s, i, kv)
      {
        if kv in ShownUpTo(es, s, n) && kv !in ShownUpTo(es, s, n - 1) {
          assert IsShown(es, s, n - 1, kv);
        }
        if i: nat :| i < n && IsShown(es, s, i, kv) {
          if i < n - 1 { assert kv in ShownUpTo(es, s, n - 1); }
        }
      }
    }
  }

  /** Of one key at most one version is shown. */
  lemma {:induction false} LaterShownIsLarger(es: seq<Entry>, s: nat, i: nat, j: nat)
    requires Sorted(es) && i < j < |es| && Shows(es, s, i) && Shows(es, s, j)
    ensures Lt(es[i].key.user, es[j].key.user)
  {
    UsersAscend(es, i, j);
    RankIsInjective(es[i].key.user, es[j].key.user);
  }

  lemma {:induction false} ShownAscends(es: seq<Entry>, s: nat, n: nat)
    requires Sorted(es) && n <= |es|
    ensures KeysAscend(ShownUpTo(es, s, n))
  {
    hide Sorted, Shows;
    if n > 0 {
      ShownAscends(es, s, n - 1);
      var before := ShownUpTo(es, s, n - 1);
      if Shows(es, s, n - 1) {
        ShownMembers(es, s, n - 1);
        forall kv | kv in before
          ensures Lt(kv.0, es[n - 1].key.user)
        {
          var i: nat :| i < n - 1 && IsShown(es, s, i, kv);
          LaterShownIsLarger(es, s, i, n - 1);
        }
        LargerKeyLast(before, (es[n - 1].key.user, es[n - 1].value));
      }
    }
  }

  lemma {:induction false} LargerKeyLast(kvs: seq<(Bytes, Bytes)>, kv: (Bytes, Bytes))
    requires KeysAscend(kvs) && forall x :: x in kvs ==> Lt(x.0, kv.0)
    ensures KeysAscend(Joined(kvs, [kv]))
  {
    hide Lt;
  }

  ghost predicate HasValue(es: set<Entry>, user: Bytes, s: nat, value: Bytes) {
    exists r :: IsNewest(es, user, s, r) && ValueOf(r) == Some(value)
  }

  /** What is shown is the value of the newest entry; for a key that is read right it is that of the log of writes. */
  lemma {:induction false} ShownIsLog(d: DbState, es: seq<Entry>, s: nat, user: Bytes, value: Bytes)
    requires Order(d) && d.horizon <= s && Sorted(es) && Elements(es) == AllEntries(d)
    ensures (exists i: nat :: i < |es| && IsShown(es, s, i, (user, value))) <==> HasValue(AllEntries(d), user, s, value)
    ensures FaithfulFrom(d, user, s) ==> (HasValue(AllEntries(d), user, s, value) <==> ReadLog(d.history, user, s) == Some(value))
  {
    hide Sorted, Shows, AllEntries, Order, IsNewest, ReadLog, IsShown, UniqueSequences;
    SequencesAreUnique(d);
    var r := NewestExists(AllEntries(d), user, s);
    NewestIsShown(es, user, s, r);
    forall q | IsNewest(AllEntries(d), user, s, q)
      ensures q == r
    {
      NewestIsOne(AllEntries(d), user, s, q, r);
    }
  }

  lemma NewestIsOne(es: set<Entry>, user: Bytes, s: nat, q: Option<Entry>, r: Option<Entry>)
    requires UniqueSequences(es) && IsNewest(es, user, s, q) && IsNewest(es, user, s, r)
    ensures q == r
  {
  }

  lemma {:induction false} NewestIsShown(es: seq<Entry>, user: Bytes, s: nat, r: Option<Entry>)
    requires Sorted(es) && UniqueSequences(Elements(es)) && IsNewest(Elements(es), user, s, r)
    ensures forall value :: (exists i: nat :: i < |es| && IsShown(es, s, i, (user, value))) <==> ValueOf(r) == Some(value)
  {
    hide Sorted, Shows;
    forall i: nat | i < |es|
      ensures Shows(es, s, i) <==> es[i].key.kind.Value? && IsNewest(Elements(es), es[i].key.user, s, Some(es[i]))
    {
      ShowsNewest(es, s, i);
    }
    if r.Some? {
      var i: nat :| i < |es| && es[i] == r.value;
      assert r.value.key.kind.Value? ==> IsShown(es, s, i, (user, r.value.value));
    }
    forall i: nat, value | i < |es| && IsShown(es, s, i, (user, value))
      ensures r == Some(es[i])
    {
      assert es[i] in Elements(es);
      OneNewest(es, user, s, i, r);
    }
  }

  lemma {:induction false} OneNewest(es: seq<Entry>, user: Bytes, s: nat, i: nat, r: Option<Entry>)
    requires UniqueSequences(Elements(es)) && i < |es| && es[i].key.user == user
    requires IsNewest(Elements(es), user, s, Some(es[i])) && IsNewest(Elements(es), user, s, r)
    ensures r == Some(es[i])
  {
    assert es[i] in Elements(es);
  }

  /** In ascending order, each key with the value of its newest entry, and no key without one. */
  ghost predicate ShowsEntries(kvs: seq<(Bytes, Bytes)>, es: set<Entry>, s: nat) {
    && KeysAscend(kvs)
    && forall user, value :: (user, value) in kvs <==> HasValue(es, user, s, value)
  }

  /** The key is shown with the value that the log of writes gives, and not at all if the log gives none. */
  ghost predicate ShowsLog(kvs: seq<(Bytes, Bytes)>, history: seq<Entry>, user: Bytes, s: nat) {
    forall value :: (user, value) in kvs <==> ReadLog(history, user, s) == Some(value)
  }

  lemma {:induction false} AllShownIsView(d: DbState, es: seq<Entry>, s: nat)
    requires Order(d) && d.horizon <= s && Sorted(es) && Elements(es) == AllEntries(d)
    ensures ShowsEntries(ShownUpTo(es, s, |es|), AllEntries(d), s)
    ensures forall user :: FaithfulFrom(d, user, s) ==> ShowsLog(ShownUpTo(es, s, |es|), d.history, user, s)
  {
    hide Order, Sorted, AllEntries, ReadLog, ShownUpTo, IsShown, KeysAscend, HasValue, FaithfulFrom;
    ShownAscends(es, s, |es|);
    ShownMembers(es, s, |es|);
    forall user, value
      ensures (user, value) in ShownUpTo(es, s, |es|) <==> HasValue(AllEntries(d), user, s, value)
      ensures FaithfulFrom(d, user, s) ==> (HasValue(AllEntries(d), user, s, value) <==> ReadLog(d.history, user, s) == Some(value))
    {
      ShownIsLog(d, es, s, user, value);
    }
  }

  ghost function Stand(iter: DBIter): nat
    reads iter
  {
    if iter.valid then iter.cur else |iter.es|
  }

  /** From the first key to the last. */
  method ScanForward(iter: DBIter) returns (kvs: seq<(Bytes, Bytes)>)
    requires iter.Valid()
    modifies iter, iter.iter, iter.iter.pos
    ensures kvs == ShownUpTo(iter.es, iter.sequence, |iter.es|)
  {
    hide Shows, Sorted, ShownUpTo, MergingIteration.MergingIterator.Valid;
    kvs := [];
    iter.SeekToFirst();
    FirstStand(iter, 0);
    while iter.valid
      invariant iter.Valid() && kvs == ShownUpTo(iter.es, iter.sequence, Stand(iter))
      decreases |iter.es| - Stand(iter)
    {
      var k := iter.Key();
      var v := iter.Value();
      OneMoreShown(iter);
      kvs := kvs + [(k, v)];
      ghost var from := iter.cur + 1;
      iter.Next();
      FirstStand(iter, from);
    }
  }

  lemma {:induction false} FirstStand(iter: DBIter, from: nat)
    requires iter.Valid() && from <= |iter.es| && iter.IsFirstFrom(from, iter.Current())
    ensures from <= Stand(iter) <= |iter.es|
    ensures ShownUpTo(iter.es, iter.sequence, Stand(iter)) == ShownUpTo(iter.es, iter.sequence, from)
    ensures from == 0 ==> ShownUpTo(iter.es, iter.sequence, from) == []
  {
    hide Shows, Sorted, MergingIteration.MergingIterator.Valid;
    NothingShownBetween(iter.es, iter.sequence, from, Stand(iter));
  }

  lemma {:induction false} OneMoreShown(iter: DBIter)
    requires iter.Valid() && iter.valid
    ensures var before, e := ShownUpTo(iter.es, iter.sequence, iter.cur), iter.es[iter.cur];
            ShownUpTo(iter.es, iter.sequence, iter.cur + 1) == before + [(e.key.user, e.value)]
  {
    hide Shows, Sorted, MergingIteration.MergingIterator.Valid;
    JoinedIsPlus(ShownUpTo(iter.es, iter.sequence, iter.cur), (iter.es[iter.cur].key.user, iter.es[iter.cur].value));
  }

  lemma JoinedIsPlus(kvs: seq<(Bytes, Bytes)>, kv: (Bytes, Bytes))
    ensures Joined(kvs, [kv]) == kvs + [kv]
  {
  }

  /** From the last key to the first. */
  method ScanBackward(iter: DBIter) returns (kvs: seq<(Bytes, Bytes)>)
    requires iter.Valid()
    modifies iter, iter.iter, iter.iter.pos
    ensures kvs == ShownUpTo(iter.es, iter.sequence, |iter.es|)
  {
    hide Shows, Sorted, ShownUpTo, MergingIteration.MergingIterator.Valid;
    kvs := [];
    iter.SeekToLast();
    ghost var rest := ShownUpTo(iter.es, iter.sequence, |iter.es|);
    LastStand(iter, |iter.es|);
    while iter.valid
      invariant iter.Valid() && Before(iter) + kvs == rest
      decreases if iter.valid then iter.cur + 1 else 0
    {
      var k := iter.Key();
      var v := iter.Value();
      OneMoreShown(iter);
      ghost var before := ShownUpTo(iter.es, iter.sequence, iter.cur);
      MoveOver(before, (k, v), kvs);
      kvs := [(k, v)] + kvs;
      ghost var n := iter.cur;
      iter.Prev();
      LastStand(iter, n);
    }
  }

  /** What is shown up to the current entry and with it. */
  ghost function Before(iter: DBIter): seq<(Bytes, Bytes)>
    requires iter.Valid()
    reads iter, iter.iter, iter.iter.pos
  {
    if iter.valid then ShownUpTo(iter.es, iter.sequence, iter.cur + 1) else []
  }

  lemma MoveOver(before: seq<(Bytes, Bytes)>, kv: (Bytes, Bytes), kvs: seq<(Bytes, Bytes)>)
    ensures before + [kv] + kvs == before + ([kv] + kvs)
  {
  }

  lemma {:induction false} LastStand(iter: DBIter, n: nat)
    requires iter.Valid() && n <= |iter.es| && iter.IsLastBefore(n, iter.Current())
    ensures Before(iter) == ShownUpTo(iter.es, iter.sequence, n)
    ensures iter.valid ==> iter.cur < n
  {
    hide Shows, Sorted, MergingIteration.MergingIterator.Valid;
    NothingShownBetween(iter.es, iter.sequence, if iter.valid then iter.cur + 1 else 0, n);
  }

  /**
   * Over every run: an iterator at a live snapshot, or at the present, walks in order, in both directions, over exactly
   * the keys whose newest entry is a value, and shows a key as the writes left it unless a compaction has lost its deletion.
   */
  method ScanAfterRun(db: DBImpl, ghost states: seq<DbState>, ghost actions: seq<Action>, snapshot: Option<nat>, forward: bool)
    returns (kvs: seq<(Bytes, Bytes)>)
    requires IsRun(states, actions) && db.State() == states[|actions|]
    requires snapshot.Some? ==> snapshot.value in db.snapshots
    ensures ShowsEntries(kvs, AllEntries(db.State()), db.ReadSequence(snapshot))
    ensures forall user :: KeepsKey(states, actions, 0, |actions|, user) ==>
              ShowsLog(kvs, WritesOf(actions, |actions|), user, db.ReadSequence(snapshot))
  {
    hide IsRun, Order, WritesOf, AllEntries, Sorted, ShownUpTo, ShowsEntries, ShowsLog, KeepsKey, MergingIteration.MergingIterator.Valid;
    LastState(states, actions);
    RunKeepsOrder(states, actions, |actions|);
    HistoryIsWrites(states, actions, |actions|);
    var iter := NewIterator(db, snapshot);
    SequencesAreUnique(db.State());
    AllShownIsView(db.State(), iter.es, iter.sequence);
    forall user | KeepsKey(states, actions, 0, |actions|, user)
      ensures FaithfulFrom(db.State(), user, iter.sequence)
    {
      KeptKeyIsFaithful(states, actions, |actions|, user);
    }
    if forward {
      kvs := ScanForward(iter);
    } else {
      kvs := ScanBackward(iter);
    }
  }
}
