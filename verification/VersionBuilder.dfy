/** Applying version edits: many edits at once, or one after the other. */
module VersionBuilder {
  import opened ByteOrder
  import opened DbFormat
  import opened Version

  datatype VersionEdit = VersionEdit(deletedFiles: set<(nat, nat)>, newFiles: seq<(nat, FileMeta)>)

  predicate ValidEdit(e: VersionEdit) {
    forall p :: p in e.newFiles ==> p.0 < NUM_LEVELS
  }

  /** Pending changes to one level. */
  datatype LevelState = LevelState(deleted: set<nat>, added: seq<FileMeta>)

  function CompareFiles(f: FileMeta, g: FileMeta): (r: int)
    ensures r < 0 <==> FileLt(f, g)
    ensures r > 0 <==> FileLt(g, f)
    ensures r == 0 ==> f.number == g.number
  {
    var r := CompareKeys(f.smallest, g.smallest);
    if r != 0 then r else f.number - g.number
  }

  // ----- The specification -----

  /** std::set::insert under BySmallestKey. */
  function InsertFile(files: seq<FileMeta>, f: FileMeta): seq<FileMeta> {
    if files == [] then [f]
    else
      var r := CompareFiles(f, files[0]);
      if r < 0 then [f] + files
      else if r == 0 then files
      else [files[0]] + InsertFile(files[1..], f)
  }

  ghost function DeletedAt(e: VersionEdit, level: nat): set<nat> {
    set p | p in e.deletedFiles && p.0 == level :: p.1
  }

  /** What the new files of the first `n` list items do to one level. */
  ghost function AddFiles(s: LevelState, level: nat, newFiles: seq<(nat, FileMeta)>): LevelState {
    if newFiles == [] then s
    else
      var n := |newFiles| - 1;
      var t := AddFiles(s, level, newFiles[..n]);
      if newFiles[n].0 != level then t
      else LevelState(t.deleted - {newFiles[n].1.number}, InsertFile(t.added, newFiles[n].1))
  }

  ghost function ApplyToLevel(s: LevelState, level: nat, e: VersionEdit): LevelState {
    AddFiles(LevelState(s.deleted + DeletedAt(e, level), s.added), level, e.newFiles)
  }

  /** Base files up to and including the place of an added file go before it. */
  function MergeFileLists(base: seq<FileMeta>, added: seq<FileMeta>): seq<FileMeta> {
    if added == [] then base
    else if base != [] && CompareFiles(added[0], base[0]) >= 0 then [base[0]] + MergeFileLists(base[1..], added)
    else [added[0]] + MergeFileLists(base, added[1..])
  }

  function DropDeleted(files: seq<FileMeta>, deleted: set<nat>): seq<FileMeta> {
    if files == [] then []
    else (if files[0].number in deleted then [] else [files[0]]) + DropDeleted(files[1..], deleted)
  }

  function SaveLevel(base: seq<FileMeta>, s: LevelState): seq<FileMeta> {
    DropDeleted(MergeFileLists(base, s.added), s.deleted)
  }

  const EMPTY_STATE := LevelState({}, [])

  /** One edit applied to a version on its own. */
  ghost function ApplyEdit(v: Levels, e: VersionEdit): Levels {
    seq(NUM_LEVELS, level requires 0 <= level < NUM_LEVELS => SaveLevel(v[level], ApplyToLevel(EMPTY_STATE, level, e)))
  }

  ghost function ApplyEdits(v: Levels, es: seq<VersionEdit>): Levels {
    if es == [] then v else ApplyEdit(ApplyEdits(v, es[..|es| - 1]), es[|es| - 1])
  }

  // ----- The builder -----

  class Builder {
    const base: Levels
    var levels: seq<LevelState>

    ghost predicate Valid()
      reads this
    {
      |levels| == NUM_LEVELS
    }

    constructor (base: Levels)
      ensures Valid() && this.base == base && forall level :: 0 <= level < NUM_LEVELS ==> levels[level] == EMPTY_STATE
    {
      this.base := base;
      levels := seq(NUM_LEVELS, _ => EMPTY_STATE);
    }

    method Apply(e: VersionEdit)
      requires Valid() && ValidEdit(e)
      modifies this
      ensures Valid()
      ensures forall level :: 0 <= level < NUM_LEVELS ==> levels[level] == ApplyToLevel(old(levels[level]), level, e)
    {
      ghost var start := levels;
      levels := seq(NUM_LEVELS, level requires 0 <= level < NUM_LEVELS && Valid() reads this =>
        LevelState(levels[level].deleted + (set p | p in e.deletedFiles && p.0 == level :: p.1), levels[level].added));
      for i := 0 to |e.newFiles|
        invariant Valid()
        invariant forall level :: 0 <= level < NUM_LEVELS ==>
                    levels[level] == AddFiles(LevelState(start[level].deleted + DeletedAt(e, level), start[level].added), level, e.newFiles[..i])
      {
        var (level, f) := e.newFiles[i];
        assert e.newFiles[i] in e.newFiles;
        assert e.newFiles[..i + 1][..i] == e.newFiles[..i];
        levels := levels[level := LevelState(levels[level].deleted - {f.number}, InsertFile(levels[level].added, f))];
      }
      assert e.newFiles[..|e.newFiles|] == e.newFiles;
    }

    method SaveTo() returns (v: Levels)
      requires Valid()
      ensures forall level :: 0 <= level < NUM_LEVELS ==> v[level] == SaveLevel(base[level], levels[level])
    {
      var out: seq<seq<FileMeta>> := [];
      for level := 0 to NUM_LEVELS
        invariant |out| == level
        invariant forall l :: 0 <= l < level ==> out[l] == SaveLevel(base[l], levels[l])
      {
        var files := SaveOneLevel(base[level], levels[level]);
        out := out + [files];
      }
      v := out;
    }

    method SaveOneLevel(baseFiles: seq<FileMeta>, s: LevelState) returns (files: seq<FileMeta>)
      ensures files == SaveLevel(baseFiles, s)
    {
      files := [];
      var b := 0;
      ghost var goal := SaveLevel(baseFiles, s);
      assert goal == files + Rest(baseFiles, 0, s, 0);
      for a := 0 to |s.added|
        invariant b <= |baseFiles|
        invariant files + Rest(baseFiles, b, s, a) == goal
      {
        while b < |baseFiles| && CompareFiles(s.added[a], baseFiles[b]) >= 0
          invariant b <= |baseFiles|
          invariant files + Rest(baseFiles, b, s, a) == goal
        {
          BaseFileIsNext(files, baseFiles, b, s, a);
          files := MaybeAddFile(files, baseFiles[b], s.deleted);
          b := b + 1;
        }
        AddedFileIsNext(files, baseFiles, b, s, a);
        files := MaybeAddFile(files, s.added[a], s.deleted);
      }
      while b < |baseFiles|
        invariant b <= |baseFiles|
        invariant files + Rest(baseFiles, b, s, |s.added|) == goal
      {
        BaseFileIsNext(files, baseFiles, b, s, |s.added|);
        files := MaybeAddFile(files, baseFiles[b], s.deleted);
        b := b + 1;
      }
    }

    /** What is still to be written after `b` base files and `a` added ones. */
    ghost function Rest(baseFiles: seq<FileMeta>, b: nat, s: LevelState, a: nat): seq<FileMeta>
      requires b <= |baseFiles| && a <= |s.added|
    {
      SaveLevel(baseFiles[b..], LevelState(s.deleted, s.added[a..]))
    }

    lemma BaseFileIsNext(files: seq<FileMeta>, baseFiles: seq<FileMeta>, b: nat, s: LevelState, a: nat)
      requires b < |baseFiles| && a <= |s.added| && (a == |s.added| || CompareFiles(s.added[a], baseFiles[b]) >= 0)
      ensures files + Rest(baseFiles, b, s, a) == MaybeAddFile(files, baseFiles[b], s.deleted) + Rest(baseFiles, b + 1, s, a)
    {
      assert baseFiles[b..][1..] == baseFiles[b + 1..];
    }

    lemma AddedFileIsNext(files: seq<FileMeta>, baseFiles: seq<FileMeta>, b: nat, s: LevelState, a: nat)
      requires b <= |baseFiles| && a < |s.added| && (b == |baseFiles| || CompareFiles(s.added[a], baseFiles[b]) < 0)
      ensures files + Rest(baseFiles, b, s, a) == MaybeAddFile(files, s.added[a], s.deleted) + Rest(baseFiles, b, s, a + 1)
    {
      assert s.added[a..][1..] == s.added[a + 1..];
    }

    function MaybeAddFile(files: seq<FileMeta>, f: FileMeta, deleted: set<nat>): seq<FileMeta> {
      if f.number in deleted then files else files + [f]
    }
  }

  // ----- What the saved lists contain -----

  ghost function Numbers(files: seq<FileMeta>): set<nat> {
    set f | f in files :: f.number
  }

  ghost function NewAt(newFiles: seq<(nat, FileMeta)>, level: nat): set<FileMeta> {
    set p | p in newFiles && p.0 == level :: p.1
  }

  /** The new files of one level have distinct numbers, none of them in `used`. */
  ghost predicate FreshAt(newFiles: seq<(nat, FileMeta)>, level: nat, used: set<nat>) {
    && (forall i :: 0 <= i < |newFiles| && newFiles[i].0 == level ==> newFiles[i].1.number !in used)
    && forall i, j :: 0 <= i < j < |newFiles| && newFiles[i].0 == level && newFiles[j].0 == level
         ==> newFiles[i].1.number != newFiles[j].1.number
  }

  lemma SortedFilesTail(files: seq<FileMeta>)
    requires SortedFiles(files) && files != []
    ensures SortedFiles(files[1..]) && forall g :: g in files[1..] ==> FileLt(files[0], g)
    ensures forall g :: g in files <==> g == files[0] || g in files[1..]
  {
    assert files == [files[0]] + files[1..];
  }

  lemma {:induction false} InsertFileIsSorted(files: seq<FileMeta>, f: FileMeta)
    requires SortedFiles(files) && f.number !in Numbers(files)
    ensures SortedFiles(InsertFile(files, f))
    ensures forall g :: g in InsertFile(files, f) <==> g == f || g in files
  {
    if files != [] {
      SortedFilesTail(files);
      var r := CompareFiles(f, files[0]);
      assert files[0].number in Numbers(files);
      if r > 0 {
        InsertFileIsSorted(files[1..], f);
      }
    }
  }

  lemma {:induction false} AddFilesMembers(s: LevelState, level: nat, newFiles: seq<(nat, FileMeta)>)
    requires SortedFiles(s.added) && FreshAt(newFiles, level, Numbers(s.added))
    ensures var t := AddFiles(s, level, newFiles);
            && SortedFiles(t.added)
            && (forall g :: g in t.added <==> g in s.added || g in NewAt(newFiles, level))
            && (forall n :: n in t.deleted <==> n in s.deleted && forall g :: g in NewAt(newFiles, level) ==> g.number != n)
  {
    if newFiles != [] {
      var n := |newFiles| - 1;
      var rest := newFiles[..n];
      AddFilesMembers(s, level, rest);
      assert newFiles == rest + [newFiles[n]];
      if newFiles[n].0 == level {
        var f := newFiles[n].1;
        assert NewAt(newFiles, level) == NewAt(rest, level) + {f};
        var t := AddFiles(s, level, rest);
        forall g | g in t.added
          ensures g.number != f.number
        {
          if g !in s.added {
            var p :| p in rest && p.0 == level && p.1 == g;
            var i :| 0 <= i < n && rest[i] == p;
            assert newFiles[i] == p;
          } else {
            assert g.number in Numbers(s.added);
          }
        }
        InsertFileIsSorted(t.added, f);
      } else {
        assert NewAt(newFiles, level) == NewAt(rest, level);
      }
    }
  }

  lemma PrependFile(f: FileMeta, files: seq<FileMeta>)
    requires SortedFiles(files) && forall g :: g in files ==> FileLt(f, g)
    ensures SortedFiles([f] + files)
  {
  }

  lemma {:induction false} MergeFileListsIsSorted(base: seq<FileMeta>, added: seq<FileMeta>)
    requires SortedFiles(base) && SortedFiles(added)
    requires forall f, g :: f in base && g in added ==> f.number != g.number
    ensures SortedFiles(MergeFileLists(base, added))
    ensures forall g :: g in MergeFileLists(base, added) <==> g in base || g in added
    decreases |base| + |added|
  {
    if added != [] {
      SortedFilesTail(added);
      if base != [] && CompareFiles(added[0], base[0]) >= 0 {
        SortedFilesTail(base);
        MergeFileListsIsSorted(base[1..], added);
        PrependFile(base[0], MergeFileLists(base[1..], added));
      } else {
        if base != [] { SortedFilesTail(base); }
        MergeFileListsIsSorted(base, added[1..]);
        PrependFile(added[0], MergeFileLists(base, added[1..]));
      }
    }
  }

  lemma {:induction false} DropDeletedMembers(files: seq<FileMeta>, deleted: set<nat>)
    requires SortedFiles(files)
    ensures SortedFiles(DropDeleted(files, deleted))
    ensures forall g :: g in DropDeleted(files, deleted) <==> g in files && g.number !in deleted
  {
    if files != [] {
      SortedFilesTail(files);
      DropDeletedMembers(files[1..], deleted);
    }
  }

  lemma NoMembers(a: seq<FileMeta>, b: seq<FileMeta>)
    requires forall g :: g in a <==> g in b
    ensures a == [] <==> b == []
  {
    assert a != [] ==> a[0] in a;
    assert b != [] ==> b[0] in b;
  }

  lemma {:induction false} SortedFilesUnique(a: seq<FileMeta>, b: seq<FileMeta>)
    requires SortedFiles(a) && SortedFiles(b)
    requires forall g :: g in a <==> g in b
    ensures a == b
  {
    if a == [] || b == [] {
      NoMembers(a, b);
    } else {
      assert a[0] in b;
      SortedFilesTail(a);
      SortedFilesTail(b);
      assert b[0] in a;
      assert a[0] == b[0];
      forall g
        ensures g in a[1..] <==> g in b[1..]
      {
        assert g in a <==> g in b;
      }
      SortedFilesUnique(a[1..], b[1..]);
    }
  }

  /** One level after applying an edit whose new files carry fresh numbers. */
  lemma SaveLevelMembers(base: seq<FileMeta>, s: LevelState, level: nat, e: VersionEdit)
    requires SortedFiles(base) && SortedFiles(s.added) && Numbers(base) !! Numbers(s.added)
    requires FreshAt(e.newFiles, level, Numbers(base) + Numbers(s.added))
    ensures var r := SaveLevel(base, ApplyToLevel(s, level, e));
            && SortedFiles(r)
            && forall g :: g in r <==>
                 || g in NewAt(e.newFiles, level)
                 || ((g in base || g in s.added) && g.number !in s.deleted && g.number !in DeletedAt(e, level))
  {
    var s0 := LevelState(s.deleted + DeletedAt(e, level), s.added);
    AddFilesMembers(s0, level, e.newFiles);
    var t := ApplyToLevel(s, level, e);
    forall g | g in t.added
      ensures g.number !in Numbers(base)
    {
      if g in s.added {
        assert g.number in Numbers(s.added);
      } else {
        NewIsFresh(e.newFiles, level, Numbers(base) + Numbers(s.added), g);
      }
    }
    MergeFileListsIsSorted(base, t.added);
    DropDeletedMembers(MergeFileLists(base, t.added), t.deleted);
    forall g, h | (g in base || g in s.added) && h in NewAt(e.newFiles, level)
      ensures g.number != h.number
    {
      NewIsFresh(e.newFiles, level, Numbers(base) + Numbers(s.added), h);
      assert g.number in Numbers(base) + Numbers(s.added);
    }
  }

  lemma NewIsFresh(newFiles: seq<(nat, FileMeta)>, level: nat, used: set<nat>, g: FileMeta)
    requires FreshAt(newFiles, level, used) && g in NewAt(newFiles, level)
    ensures g.number !in used
  {
    var p :| p in newFiles && p.0 == level && p.1 == g;
    var i :| 0 <= i < |newFiles| && newFiles[i] == p;
  }
}
