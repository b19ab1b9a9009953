/** Recovering a version from the manifest: one builder for all edits gives what applying them one by one gave. */
module ManifestReplay {
  import opened ByteOrder
  import opened DbFormat
  import opened Version
  import opened VersionBuilder

  /** What the builder has pending for one level after a list of edits. */
  ghost function ApplyAll(s: LevelState, level: nat, es: seq<VersionEdit>): LevelState {
    if es == [] then s else ApplyToLevel(ApplyAll(s, level, es[..|es| - 1]), level, es[|es| - 1])
  }

  ghost function AddedNumbers(es: seq<VersionEdit>, level: nat): set<nat> {
    set i, f | 0 <= i < |es| && f in NewAt(es[i].newFiles, level) :: f.number
  }

  /** No file number enters a level in which it is, or from which it was deleted earlier. */
  ghost predicate NumbersNeverReturn(v: Levels, es: seq<VersionEdit>) {
    forall level, i :: 0 <= level < NUM_LEVELS && 0 <= i < |es| ==>
      FreshAt(es[i].newFiles, level, Numbers(v[level]) + AddedNumbers(es[..i], level))
  }

  ghost predicate LevelsSorted(v: Levels) {
    forall level :: 0 <= level < NUM_LEVELS ==> SortedFiles(v[level])
  }

  lemma NumbersNeverReturnPrefix(v: Levels, es: seq<VersionEdit>, n: nat)
    requires NumbersNeverReturn(v, es) && n <= |es|
    ensures NumbersNeverReturn(v, es[..n])
  {
    forall level, i | 0 <= level < NUM_LEVELS && 0 <= i < n
      ensures FreshAt(es[..n][i].newFiles, level, Numbers(v[level]) + AddedNumbers(es[..n][..i], level))
    {
      assert es[..n][..i] == es[..i];
      assert FreshAt(es[i].newFiles, level, Numbers(v[level]) + AddedNumbers(es[..i], level));
    }
  }

  lemma AddedNumbersGrow(es: seq<VersionEdit>, level: nat)
    requires es != []
    ensures var n := |es| - 1;
            AddedNumbers(es, level) == AddedNumbers(es[..n], level) + set f | f in NewAt(es[n].newFiles, level) :: f.number
  {
    var n := |es| - 1;
    forall x | x in AddedNumbers(es[..n], level)
      ensures x in AddedNumbers(es, level)
    {
      var i, f :| 0 <= i < n && f in NewAt(es[..n][i].newFiles, level) && f.number == x;
      assert f in NewAt(es[i].newFiles, level);
    }
    forall x | x in AddedNumbers(es, level)
      ensures x in AddedNumbers(es[..n], level) || exists f :: f in NewAt(es[n].newFiles, level) && f.number == x
    {
      var i, f :| 0 <= i < |es| && f in NewAt(es[i].newFiles, level) && f.number == x;
      if i < n {
        assert es[..n][i] == es[i];
      }
    }
  }

  /** The builder's pending list is sorted and holds the numbers that the edits added. */
  lemma {:induction false} PendingIsSorted(v: Levels, es: seq<VersionEdit>, level: nat)
    requires NumbersNeverReturn(v, es) && level < NUM_LEVELS
    ensures var s := ApplyAll(EMPTY_STATE, level, es);
            && SortedFiles(s.added)
            && Numbers(s.added) == AddedNumbers(es, level)
            && Numbers(v[level]) !! Numbers(s.added)
  {
    if es == [] {
      assert Numbers([]) == {} && AddedNumbers([], level) == {};
    } else {
      var n := |es| - 1;
      NumbersNeverReturnPrefix(v, es, n);
      PendingIsSorted(v, es[..n], level);
      AddedNumbersGrow(es, level);
      assert FreshAt(es[n].newFiles, level, Numbers(v[level]) + AddedNumbers(es[..n], level));
      PendingGrows(v[level], ApplyAll(EMPTY_STATE, level, es[..n]), level, es[n]);
    }
  }

  lemma FreshMeansUnused(newFiles: seq<(nat, FileMeta)>, level: nat, used: set<nat>)
    requires FreshAt(newFiles, level, used)
    ensures forall g :: g in NewAt(newFiles, level) ==> g.number !in used
    ensures forall more :: more <= used ==> FreshAt(newFiles, level, more)
  {
    forall g | g in NewAt(newFiles, level)
      ensures g.number !in used
    {
      NewIsFresh(newFiles, level, used, g);
    }
  }

  lemma PendingGrows(base: seq<FileMeta>, s: LevelState, level: nat, e: VersionEdit)
    requires SortedFiles(s.added) && Numbers(base) !! Numbers(s.added)
    requires FreshAt(e.newFiles, level, Numbers(base) + Numbers(s.added))
    ensures var t := ApplyToLevel(s, level, e);
            && SortedFiles(t.added)
            && Numbers(t.added) == Numbers(s.added) + (set f | f in NewAt(e.newFiles, level) :: f.number)
            && Numbers(base) !! Numbers(t.added)
  {
    FreshMeansUnused(e.newFiles, level, Numbers(base) + Numbers(s.added));
    assert Numbers(s.added) <= Numbers(base) + Numbers(s.added);
    AddFilesMembers(LevelState(s.deleted + DeletedAt(e, level), s.added), level, e.newFiles);
  }

  /** Saving after one more edit equals saving before it and applying the edit to the saved level. */
  lemma SaveThenApply(base: seq<FileMeta>, s: LevelState, level: nat, e: VersionEdit)
    requires SortedFiles(base) && SortedFiles(s.added) && Numbers(base) !! Numbers(s.added)
    requires FreshAt(e.newFiles, level, Numbers(base) + Numbers(s.added))
    ensures SaveLevel(base, ApplyToLevel(s, level, e)) == SaveLevel(SaveLevel(base, s), ApplyToLevel(EMPTY_STATE, level, e))
    ensures SortedFiles(SaveLevel(base, s))
  {
    var saved := SaveLevel(base, s);
    SavedMembers(base, s);
    assert Numbers([]) == {};
    FreshMeansUnused(e.newFiles, level, Numbers(base) + Numbers(s.added));
    assert Numbers(saved) + Numbers([]) <= Numbers(base) + Numbers(s.added);
    SaveLevelMembers(base, s, level, e);
    SaveLevelMembers(saved, EMPTY_STATE, level, e);
    SortedFilesUnique(SaveLevel(base, ApplyToLevel(s, level, e)), SaveLevel(saved, ApplyToLevel(EMPTY_STATE, level, e)));
  }

  lemma SavedMembers(base: seq<FileMeta>, s: LevelState)
    requires SortedFiles(base) && SortedFiles(s.added) && Numbers(base) !! Numbers(s.added)
    ensures SortedFiles(SaveLevel(base, s))
    ensures forall g :: g in SaveLevel(base, s) <==> (g in base || g in s.added) && g.number !in s.deleted
  {
    forall f, g | f in base && g in s.added
      ensures f.number != g.number
    {
      assert f.number in Numbers(base) && g.number in Numbers(s.added);
    }
    MergeFileListsIsSorted(base, s.added);
    DropDeletedMembers(MergeFileLists(base, s.added), s.deleted);
  }

  /** The main result: one builder that applies every edit and saves once agrees with applying them one at a time. */
  lemma {:induction false} ReplayAtOnce(v: Levels, es: seq<VersionEdit>, level: nat)
    requires LevelsSorted(v) && NumbersNeverReturn(v, es) && level < NUM_LEVELS
    ensures SaveLevel(v[level], ApplyAll(EMPTY_STATE, level, es)) == ApplyEdits(v, es)[level]
    ensures SortedFiles(ApplyEdits(v, es)[level])
  {
    if es == [] {
      DropNothing(v[level]);
    } else {
      var n := |es| - 1;
      var s := ApplyAll(EMPTY_STATE, level, es[..n]);
      NumbersNeverReturnPrefix(v, es, n);
      ReplayAtOnce(v, es[..n], level);
      PendingIsSorted(v, es[..n], level);
      assert FreshAt(es[n].newFiles, level, Numbers(v[level]) + AddedNumbers(es[..n], level));
      SaveThenApply(v[level], s, level, es[n]);
      PendingIsSorted(v, es, level);
      SavedMembers(v[level], ApplyAll(EMPTY_STATE, level, es));
    }
  }

  lemma {:induction false} DropNothing(files: seq<FileMeta>)
    ensures SaveLevel(files, EMPTY_STATE) == files
  {
    if files != [] {
      DropNothing(files[1..]);
    }
  }

  // ----- The snapshot record -----

  function SnapshotLevel(files: seq<FileMeta>, level: nat): seq<(nat, FileMeta)> {
    seq(|files|, i requires 0 <= i < |files| => (level, files[i]))
  }

  function SnapshotFiles(v: Levels, n: nat): seq<(nat, FileMeta)>
    requires n <= NUM_LEVELS
  {
    if n == 0 then [] else SnapshotFiles(v, n - 1) + SnapshotLevel(v[n - 1], n - 1)
  }

  /** VersionSet::WriteSnapshot: every file of every level as a new file. */
  method WriteSnapshot(v: Levels) returns (e: VersionEdit)
    ensures e == VersionEdit({}, SnapshotFiles(v, NUM_LEVELS))
  {
    var files: seq<(nat, FileMeta)> := [];
    for level := 0 to NUM_LEVELS
      invariant files == SnapshotFiles(v, level)
    {
      ghost var start := files;
      for i := 0 to |v[level]|
        invariant files == start + SnapshotLevel(v[level], level)[..i]
      {
        files := files + [(level, v[level][i])];
      }
    }
    e := VersionEdit({}, files);
  }

  lemma SnapshotLevelNew(files: seq<FileMeta>, n: nat, level: nat)
    ensures NewAt(SnapshotLevel(files, n), level) == if level == n then set f | f in files else {}
  {
    var items := SnapshotLevel(files, n);
    forall f | f in files
      ensures level == n ==> f in NewAt(items, level)
    {
      var i :| 0 <= i < |files| && files[i] == f;
      assert items[i] == (n, f);
    }
  }

  lemma {:induction false} SnapshotFilesFresh(v: Levels, n: nat, level: nat)
    requires n <= NUM_LEVELS && level < NUM_LEVELS && DistinctNumbers(v[level])
    ensures FreshAt(SnapshotFiles(v, n), level, {})
    ensures forall i :: 0 <= i < |SnapshotFiles(v, n)| ==> SnapshotFiles(v, n)[i].0 < n
    ensures NewAt(SnapshotFiles(v, n), level) == if level < n then set f | f in v[level] else {}
  {
    if n > 0 {
      SnapshotFilesFresh(v, n - 1, level);
      var front, last := SnapshotFiles(v, n - 1), SnapshotLevel(v[n - 1], n - 1);
      assert NewAt(front + last, level) == NewAt(front, level) + NewAt(last, level);
      SnapshotLevelNew(v[n - 1], n - 1, level);
    }
  }

  lemma SnapshotRestores(v: Levels, empty: Levels, level: nat)
    requires level < NUM_LEVELS && SortedFiles(v[level]) && DistinctNumbers(v[level]) && empty[level] == []
    ensures ApplyEdit(empty, VersionEdit({}, SnapshotFiles(v, NUM_LEVELS)))[level] == v[level]
  {
    var e := VersionEdit({}, SnapshotFiles(v, NUM_LEVELS));
    SnapshotFilesFresh(v, NUM_LEVELS, level);
    assert Numbers([]) == {} && Numbers([]) + Numbers([]) == {};
    SaveLevelMembers([], EMPTY_STATE, level, e);
    SortedFilesUnique(ApplyEdit(empty, e)[level], v[level]);
  }

  ghost predicate EmptyLevels(v: Levels) {
    forall level :: 0 <= level < NUM_LEVELS ==> v[level] == []
  }

  lemma SnapshotNumbers(v: Levels, es: seq<VersionEdit>, snapshot: VersionEdit, i: nat, level: nat)
    requires i <= |es| && level < NUM_LEVELS && NewAt(snapshot.newFiles, level) == set f | f in v[level]
    ensures AddedNumbers([snapshot] + es[..i], level) == Numbers(v[level]) + AddedNumbers(es[..i], level)
  {
    var all := [snapshot] + es[..i];
    forall x | x in AddedNumbers(all, level)
      ensures x in Numbers(v[level]) + AddedNumbers(es[..i], level)
    {
      var j, f :| 0 <= j < |all| && f in NewAt(all[j].newFiles, level) && f.number == x;
      if j > 0 { assert all[j] == es[..i][j - 1]; }
    }
    forall x | x in Numbers(v[level])
      ensures x in AddedNumbers(all, level)
    {
      var f :| f in v[level] && f.number == x;
      assert f in NewAt(all[0].newFiles, level);
    }
    forall x | x in AddedNumbers(es[..i], level)
      ensures x in AddedNumbers(all, level)
    {
      var j, f :| 0 <= j < i && f in NewAt(es[..i][j].newFiles, level) && f.number == x;
      assert all[j + 1] == es[..i][j];
    }
  }

  /** VersionSet::Recover on a manifest that starts with a snapshot record of `v`. */
  lemma RecoverRebuilds(v: Levels, es: seq<VersionEdit>, empty: Levels, level: nat)
    requires level < NUM_LEVELS && EmptyLevels(empty) && LevelsSorted(v) && NumbersNeverReturn(v, es)
    requires forall l :: 0 <= l < NUM_LEVELS ==> DistinctNumbers(v[l])
    ensures var snapshot := VersionEdit({}, SnapshotFiles(v, NUM_LEVELS));
            SaveLevel(empty[level], ApplyAll(EMPTY_STATE, level, [snapshot] + es)) == ApplyEdits(v, es)[level]
  {
    var snapshot := VersionEdit({}, SnapshotFiles(v, NUM_LEVELS));
    var all := [snapshot] + es;
    forall l, i | 0 <= l < NUM_LEVELS && 0 <= i < |all|
      ensures FreshAt(all[i].newFiles, l, Numbers(empty[l]) + AddedNumbers(all[..i], l))
    {
      SnapshotFilesFresh(v, NUM_LEVELS, l);
      assert Numbers([]) == {};
      if i == 0 {
        assert AddedNumbers(all[..0], l) == {};
      } else {
        assert all[..i] == [snapshot] + es[..i - 1];
        SnapshotNumbers(v, es, snapshot, i - 1, l);
        assert FreshAt(es[i - 1].newFiles, l, Numbers(v[l]) + AddedNumbers(es[..i - 1], l));
      }
    }
    ReplayAtOnce(empty, all, level);
    ApplyAfterSnapshot(v, es, empty, snapshot);
  }

  lemma {:induction false} ApplyAfterSnapshot(v: Levels, es: seq<VersionEdit>, empty: Levels, snapshot: VersionEdit)
    requires snapshot == VersionEdit({}, SnapshotFiles(v, NUM_LEVELS))
    requires EmptyLevels(empty) && LevelsSorted(v) && forall l :: 0 <= l < NUM_LEVELS ==> DistinctNumbers(v[l])
    ensures ApplyEdits(empty, [snapshot] + es) == ApplyEdits(v, es)
  {
    var all := [snapshot] + es;
    if es == [] {
      assert all == [snapshot] && all[..0] == [];
      assert ApplyEdits(empty, all[..0]) == empty;
      forall l | 0 <= l < NUM_LEVELS
        ensures ApplyEdit(empty, snapshot)[l] == v[l]
      {
        SnapshotRestores(v, empty, l);
      }
      assert ApplyEdit(empty, snapshot) == v;
    } else {
      var n := |es| - 1;
      ApplyAfterSnapshot(v, es[..n], empty, snapshot);
      assert all[..|all| - 1] == [snapshot] + es[..n];
    }
  }
}
