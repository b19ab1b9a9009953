/** Installing the result of a flush, a move or a compaction keeps the version well formed. */
module Install {
  import opened ByteOrder
  import opened DbFormat
  import opened Version
  import opened CompactionInputs
  import opened CompactionWork
  import opened VersionBuilder

  // ----- Levels as sets of files -----

  ghost predicate SameFiles(a: seq<FileMeta>, b: set<FileMeta>) {
    forall g :: g in a <==> g in b
  }

  ghost function SetOf(files: seq<FileMeta>): set<FileMeta> {
    set f | f in files
  }

  ghost function SetEntries(fs: set<FileMeta>): set<Entry> {
    set f, e | f in fs && e in f.entries :: e
  }

  ghost predicate Separate(f: FileMeta, g: FileMeta) {
    KeyLt(f.largest, g.smallest) || KeyLt(g.largest, f.smallest)
  }

  /** ValidLevel, said of the set of files. */
  ghost predicate GoodFiles(level: nat, fs: set<FileMeta>) {
    && (forall f :: f in fs ==> ValidFile(f))
    && (forall f, g :: f in fs && g in fs && f.number == g.number ==> f == g)
    && (level == 0 ==> forall f, g :: f in fs && g in fs && f.number > g.number ==> Above(Elements(f.entries), Elements(g.entries)))
    && (level != 0 ==> forall f, g :: f in fs && g in fs && f != g ==> Separate(f, g))
  }

  lemma GoodFilesAreValid(level: nat, files: seq<FileMeta>, fs: set<FileMeta>)
    requires SortedFiles(files) && SameFiles(files, fs) && GoodFiles(level, fs)
    ensures ValidLevel(level, files)
  {
    forall i, j | 0 <= i < j < |files|
      ensures files[i] != files[j]
      ensures level != 0 ==> KeyLt(files[i].largest, files[j].smallest)
    {
      assert FileLt(files[i], files[j]);
      assert files[i] in fs && files[j] in fs;
      if level != 0 {
        FileEnds(files[i]);
        FileEnds(files[j]);
        assert Separate(files[i], files[j]);
      }
    }
  }

  lemma ValidLevelIsGood(level: nat, files: seq<FileMeta>)
    requires ValidLevel(level, files)
    ensures GoodFiles(level, SetOf(files))
  {
    forall f, g | f in files && g in files && f != g
      ensures f.number != g.number
      ensures level != 0 ==> Separate(f, g)
    {
      NumberNames(files, f, g);
      if level != 0 {
        DisjointOrder(files, f, g);
      }
    }
  }

  // ----- File numbers across the tree -----

  ghost predicate NumbersUnique(v: Levels) {
    forall i, j, f, g :: 0 <= i < NUM_LEVELS && 0 <= j < NUM_LEVELS && f in v[i] && g in v[j] && f.number == g.number ==> i == j
  }

  ghost predicate NumbersBelow(v: Levels, n: nat) {
    forall i, f :: 0 <= i < NUM_LEVELS && f in v[i] ==> f.number < n
  }

  // ----- Applying an edit, level by level -----

  ghost predicate FreshEdit(v: Levels, e: VersionEdit) {
    forall level :: 0 <= level < NUM_LEVELS ==> FreshAt(e.newFiles, level, Numbers(v[level]))
  }

  ghost function Remaining(files: seq<FileMeta>, deleted: set<nat>): set<FileMeta> {
    set g | g in files && g.number !in deleted
  }

  ghost function EditedLevel(v: Levels, e: VersionEdit, level: nat): set<FileMeta>
    requires level < NUM_LEVELS
  {
    NewAt(e.newFiles, level) + Remaining(v[level], DeletedAt(e, level))
  }

  lemma EditMembers(v: Levels, e: VersionEdit, level: nat)
    requires level < NUM_LEVELS && FreshEdit(v, e) && SortedFiles(v[level])
    ensures SortedFiles(ApplyEdit(v, e)[level])
    ensures SameFiles(ApplyEdit(v, e)[level], EditedLevel(v, e, level))
  {
    assert Numbers([]) == {};
    assert Numbers(v[level]) + Numbers([]) == Numbers(v[level]);
    SaveLevelMembers(v[level], EMPTY_STATE, level, e);
  }

  ghost function EditedEntries(v: Levels, e: VersionEdit): set<Entry> {
    set level, x | 0 <= level < NUM_LEVELS && x in SetEntries(EditedLevel(v, e, level)) :: x
  }

  /** An edit whose level sets are good and keep the order between levels yields a valid version. */
  lemma EditIsValid(v: Levels, e: VersionEdit)
    requires ValidVersion(v) && FreshEdit(v, e)
    requires forall level :: 0 <= level < NUM_LEVELS ==> GoodFiles(level, EditedLevel(v, e, level))
    requires forall i, j :: 0 <= i < j < NUM_LEVELS ==> Above(SetEntries(EditedLevel(v, e, i)), SetEntries(EditedLevel(v, e, j)))
    requires UniqueSequences(EditedEntries(v, e))
    ensures ValidVersion(ApplyEdit(v, e))
    ensures VersionEntries(ApplyEdit(v, e)) == EditedEntries(v, e)
    ensures forall level :: 0 <= level < NUM_LEVELS ==> SameFiles(ApplyEdit(v, e)[level], EditedLevel(v, e, level))
  {
    var w := ApplyEdit(v, e);
    forall level | 0 <= level < NUM_LEVELS
      ensures ValidLevel(level, w[level]) && SameFiles(w[level], EditedLevel(v, e, level))
      ensures FilesEntries(w[level]) == SetEntries(EditedLevel(v, e, level))
    {
      assert ValidLevel(level, v[level]);
      EditMembers(v, e, level);
      GoodFilesAreValid(level, w[level], EditedLevel(v, e, level));
    }
  }

  lemma EntryPlace(v: Levels, level: nat, f: FileMeta, e: Entry)
    requires level < NUM_LEVELS && f in v[level] && e in f.entries
    ensures e in FilesEntries(v[level]) && e in VersionEntries(v)
  {
  }

  // ----- Flush -----

  function FlushEdit(f: FileMeta, level: nat): VersionEdit {
    VersionEdit({}, [(level, f)])
  }

  /** No file in the levels down to `level` meets the user-key range of `f`, unless `level` is 0. */
  ghost predicate FlushLevelOk(v: Levels, level: nat, f: FileMeta) {
    && level <= MAX_MEM_COMPACT_LEVEL
    && (level > 0 ==> forall l, g :: 0 <= l <= level && g in v[l] ==> !Overlaps(g, Some(f.smallest.user), Some(f.largest.user)))
  }

  lemma FlushedLevel(v: Levels, f: FileMeta, level: nat, l: nat)
    requires level < NUM_LEVELS && l < NUM_LEVELS
    ensures EditedLevel(v, FlushEdit(f, level), l) == SetOf(v[l]) + if l == level then {f} else {}
    ensures SetEntries(EditedLevel(v, FlushEdit(f, level), l)) == FilesEntries(v[l]) + if l == level then Elements(f.entries) else {}
  {
    var e := FlushEdit(f, level);
    assert NewAt(e.newFiles, l) == if l == level then {f} else {};
    assert DeletedAt(e, l) == {};
  }

  lemma ApartShareNothing(f: FileMeta, g: FileMeta)
    requires ValidFile(f) && ValidFile(g)
    requires Lt(g.largest.user, f.smallest.user) || Lt(f.largest.user, g.smallest.user)
    ensures Separate(f, g)
    ensures Above(Elements(f.entries), Elements(g.entries)) && Above(Elements(g.entries), Elements(f.entries))
  {
    FileSpan(f);
    FileSpan(g);
  }

  lemma FlushKeepsOrder(v: Levels, f: FileMeta, level: nat, i: nat, j: nat)
    requires ValidVersion(v) && ValidFile(f) && FlushLevelOk(v, level, f) && i < j < NUM_LEVELS
    requires Above(Elements(f.entries), VersionEntries(v))
    ensures Above(FilesEntries(v[i]) + (if i == level then Elements(f.entries) else {}),
                  FilesEntries(v[j]) + (if j == level then Elements(f.entries) else {}))
  {
    assert Above(FilesEntries(v[i]), FilesEntries(v[j]));
    if j == level {
      forall a, b | a in FilesEntries(v[i]) && b in f.entries
        ensures a.key.user != b.key.user
      {
        var g :| g in v[i] && a in g.entries;
        assert ValidLevel(i, v[i]);
        assert !Overlaps(g, Some(f.smallest.user), Some(f.largest.user));
        FileSpan(f);
        FileSpan(g);
      }
    }
  }

  lemma FlushGoodFiles(v: Levels, f: FileMeta, level: nat, l: nat)
    requires ValidVersion(v) && ValidFile(f) && FlushLevelOk(v, level, f) && l < NUM_LEVELS
    requires NumbersBelow(v, f.number) && Above(Elements(f.entries), VersionEntries(v))
    ensures GoodFiles(l, SetOf(v[l]) + if l == level then {f} else {})
  {
    assert ValidLevel(l, v[l]);
    ValidLevelIsGood(l, v[l]);
    if l == level {
      forall g | g in v[l]
        ensures g.number < f.number
        ensures l == 0 ==> Above(Elements(f.entries), Elements(g.entries))
        ensures l != 0 ==> Separate(f, g)
      {
        if l == 0 {
          forall x | x in g.entries ensures x in VersionEntries(v) { EntryPlace(v, l, g, x); }
        } else {
          assert !Overlaps(g, Some(f.smallest.user), Some(f.largest.user));
          ApartShareNothing(f, g);
        }
      }
    }
  }

  lemma FlushEntries(v: Levels, f: FileMeta, level: nat)
    requires level < NUM_LEVELS
    ensures EditedEntries(v, FlushEdit(f, level)) == Elements(f.entries) + VersionEntries(v)
  {
    var e := FlushEdit(f, level);
    forall l | 0 <= l < NUM_LEVELS
      ensures SetEntries(EditedLevel(v, e, l)) == FilesEntries(v[l]) + if l == level then Elements(f.entries) else {}
    {
      FlushedLevel(v, f, level, l);
    }
    forall x | x in f.entries
      ensures x in EditedEntries(v, e)
    {
      assert x in SetEntries(EditedLevel(v, e, level));
    }
  }

  lemma FlushNumbers(v: Levels, f: FileMeta, level: nat, w: Levels)
    requires NumbersUnique(v) && NumbersBelow(v, f.number) && level < NUM_LEVELS
    requires forall l :: 0 <= l < NUM_LEVELS ==> SameFiles(w[l], EditedLevel(v, FlushEdit(f, level), l))
    ensures NumbersUnique(w) && NumbersBelow(w, f.number + 1)
  {
    forall l, g | 0 <= l < NUM_LEVELS && g in w[l]
      ensures g in v[l] || (l == level && g == f)
    {
      FlushedLevel(v, f, level, l);
    }
  }

  lemma FlushIsValid(v: Levels, f: FileMeta, level: nat)
    requires ValidVersion(v) && NumbersUnique(v) && NumbersBelow(v, f.number)
    requires ValidFile(f) && FlushLevelOk(v, level, f)
    requires Above(Elements(f.entries), VersionEntries(v))
    requires UniqueSequences(Elements(f.entries) + VersionEntries(v))
    ensures var w := ApplyEdit(v, FlushEdit(f, level));
            && ValidVersion(w) && NumbersUnique(w) && NumbersBelow(w, f.number + 1)
            && VersionEntries(w) == Elements(f.entries) + VersionEntries(v)
  {
    hide ValidFile, Above, UniqueSequences, SortedFiles, Disjoint, DistinctNumbers, GoodFiles;
    var e := FlushEdit(f, level);
    forall l | 0 <= l < NUM_LEVELS
      ensures FreshAt(e.newFiles, l, Numbers(v[l]))
      ensures GoodFiles(l, EditedLevel(v, e, l))
    {
      FlushedLevel(v, f, level, l);
      FlushGoodFiles(v, f, level, l);
    }
    forall i, j | 0 <= i < j < NUM_LEVELS
      ensures Above(SetEntries(EditedLevel(v, e, i)), SetEntries(EditedLevel(v, e, j)))
    {
      FlushedLevel(v, f, level, i);
      FlushedLevel(v, f, level, j);
      FlushKeepsOrder(v, f, level, i, j);
    }
    FlushEntries(v, f, level);
    EditIsValid(v, e);
    FlushNumbers(v, f, level, ApplyEdit(v, e));
  }

  // ----- Trivial move and compaction: inputs leave, outputs enter the next level -----

  function PushDownEdit(c: Compaction, outputs: seq<FileMeta>): VersionEdit {
    VersionEdit(
      (set f | f in c.inputs0 :: (c.level, f.number)) + (set f | f in c.inputs1 :: (c.level + 1, f.number)),
      seq(|outputs|, i requires 0 <= i < |outputs| => (c.level + 1, outputs[i])))
  }

  ghost function LeftOut(files: seq<FileMeta>, inputs: seq<FileMeta>): set<FileMeta> {
    set g | g in files && g !in inputs
  }

  ghost function InputEntries(c: Compaction): set<Entry> {
    FilesEntries(c.inputs0) + FilesEntries(c.inputs1)
  }

  /** Output files that may replace the inputs: a trivially moved file, or new tables cut from the merge. */
  ghost predicate GoodOutputs(v: Levels, c: Compaction, outputs: seq<FileMeta>) {
    && (forall o :: o in outputs ==> ValidFile(o))
    && DistinctNumbers(outputs)
    && Disjoint(outputs)
    && FilesEntries(outputs) <= InputEntries(c)
    && forall o, l, g :: o in outputs && 0 <= l < NUM_LEVELS && g in v[l] && g.number == o.number ==> l == c.level && g in c.inputs0
  }

  lemma RemainingIsLeftOut(files: seq<FileMeta>, inputs: seq<FileMeta>, deleted: set<nat>)
    requires DistinctNumbers(files) && forall f :: f in inputs ==> f in files
    requires deleted == set f | f in inputs :: f.number
    ensures Remaining(files, deleted) == LeftOut(files, inputs)
  {
    forall f, g | f in files && g in files && f != g
      ensures f.number != g.number
    {
      NumberNames(files, f, g);
    }
  }

  ghost function PushedLevel(v: Levels, c: Compaction, outputs: seq<FileMeta>, l: nat): set<FileMeta>
    requires l < NUM_LEVELS
  {
    if l == c.level then LeftOut(v[l], c.inputs0)
    else if l == c.level + 1 then SetOf(outputs) + LeftOut(v[l], c.inputs1)
    else SetOf(v[l])
  }

  lemma PushDeletes(c: Compaction, outputs: seq<FileMeta>, l: nat)
    requires c.level + 1 < NUM_LEVELS
    ensures DeletedAt(PushDownEdit(c, outputs), l) ==
            if l == c.level then set f | f in c.inputs0 :: f.number
            else if l == c.level + 1 then set f | f in c.inputs1 :: f.number
            else {}
  {
    var e := PushDownEdit(c, outputs);
    forall f | f in c.inputs0 ensures (c.level, f.number) in e.deletedFiles {}
    forall f | f in c.inputs1 ensures (c.level + 1, f.number) in e.deletedFiles {}
  }

  lemma PushAdds(c: Compaction, outputs: seq<FileMeta>, l: nat)
    requires c.level + 1 < NUM_LEVELS
    ensures NewAt(PushDownEdit(c, outputs).newFiles, l) == if l == c.level + 1 then SetOf(outputs) else {}
  {
    var e := PushDownEdit(c, outputs);
    forall o | o in outputs
      ensures (c.level + 1, o) in e.newFiles
    {
      var i :| 0 <= i < |outputs| && outputs[i] == o;
      assert e.newFiles[i] == (c.level + 1, o);
    }
  }

  lemma PushedLevelIsEdited(v: Levels, c: Compaction, outputs: seq<FileMeta>, l: nat)
    requires ValidVersion(v) && ValidCompaction(v, c) && l < NUM_LEVELS
    ensures EditedLevel(v, PushDownEdit(c, outputs), l) == PushedLevel(v, c, outputs, l)
  {
    hide PushDownEdit, DeletedAt, NewAt, LeftOut, ValidFile, BaseLevel;
    var e := PushDownEdit(c, outputs);
    assert ValidLevel(l, v[l]);
    PushDeletes(c, outputs, l);
    PushAdds(c, outputs, l);
    if l == c.level {
      RemainingIsLeftOut(v[l], c.inputs0, DeletedAt(e, l));
    } else if l == c.level + 1 {
      RemainingIsLeftOut(v[l], c.inputs1, DeletedAt(e, l));
    }
  }

  lemma PushIsFresh(v: Levels, c: Compaction, outputs: seq<FileMeta>)
    requires GoodOutputs(v, c, outputs)
    ensures FreshEdit(v, PushDownEdit(c, outputs))
  {
    var e := PushDownEdit(c, outputs);
    forall level, i | 0 <= level < NUM_LEVELS && 0 <= i < |e.newFiles| && e.newFiles[i].0 == level
      ensures e.newFiles[i].1.number !in Numbers(v[level])
    {
      assert outputs[i] in outputs;
    }
  }

  lemma EntriesInUserRange(files: seq<FileMeta>, lo: InternalKey, hi: InternalKey, e: Entry)
    requires forall f :: f in files ==> ValidFile(f)
    requires IsSmallest(files, lo) && IsLargest(files, hi) && e in FilesEntries(files)
    ensures Le(lo.user, e.key.user) && Le(e.key.user, hi.user)
  {
    var f :| f in files && e in f.entries;
    FileSpan(f);
  }

  /** The order of `g` and an overlapping file of the same level, when `g` misses the range [lo, hi]. */
  lemma BesideOverlapping(parents: seq<FileMeta>, lo: Bytes, hi: Bytes, g: FileMeta, h: FileMeta)
    requires Disjoint(parents) && g in parents && h in parents && ValidFile(g) && ValidFile(h)
    requires !Overlaps(g, Some(lo), Some(hi)) && Overlaps(h, Some(lo), Some(hi)) && Le(lo, hi)
    ensures if Lt(hi, g.smallest.user) then KeyLt(h.largest, g.smallest) else KeyLt(g.largest, h.smallest)
  {
    FileEnds(g);
    FileEnds(h);
    DisjointOrder(parents, g, h);
  }

  lemma InputsAreValid(v: Levels, c: Compaction)
    requires ValidVersion(v) && ValidCompaction(v, c)
    ensures forall f :: f in c.inputs0 || f in c.inputs1 ==> ValidFile(f)
    ensures Disjoint(v[c.level + 1]) && forall g :: g in v[c.level + 1] ==> ValidFile(g)
  {
    assert ValidLevel(c.level, v[c.level]) && ValidLevel(c.level + 1, v[c.level + 1]);
  }

  lemma BesideInputs(parents: seq<FileMeta>, c: Compaction, g: FileMeta) returns (after: bool)
    requires forall f :: f in c.inputs0 || f in c.inputs1 || f in parents ==> ValidFile(f)
    requires Disjoint(parents) && c.inputs0 != [] && TakesOverlap(parents, c.inputs0, c.inputs1)
    requires g in LeftOut(parents, c.inputs1)
    ensures after ==> forall e :: e in InputEntries(c) ==> KeyLt(e.key, g.smallest)
    ensures !after ==> forall e :: e in InputEntries(c) ==> KeyLt(g.largest, e.key)
    ensures forall e :: e in FilesEntries(c.inputs0) ==> Lt(e.key.user, g.smallest.user) || Lt(g.largest.user, e.key.user)
  {
    var lo, hi := EndsOf(c.inputs0);
    var last :| last in c.inputs0 && last.largest == hi;
    OverlapFilterMembers(parents, Some(lo.user), Some(hi.user));
    after := Lt(hi.user, g.smallest.user);
    FileEnds(g);
    FileEnds(last);
    forall e | e in FilesEntries(c.inputs0)
      ensures Le(lo.user, e.key.user) && Le(e.key.user, hi.user)
    {
      EntriesInUserRange(c.inputs0, lo, hi, e);
    }
    forall e | e in FilesEntries(c.inputs1)
      ensures if after then KeyLt(e.key, g.smallest) else KeyLt(g.largest, e.key)
    {
      var h :| h in c.inputs1 && e in h.entries;
      FileSpan(h);
      BesideOverlapping(parents, lo.user, hi.user, g, h);
    }
  }

  /** A file of the output level that is left out lies wholly before or wholly after everything merged. */
  lemma LeftOutIsBeside(v: Levels, c: Compaction, g: FileMeta) returns (after: bool)
    requires ValidVersion(v) && ValidCompaction(v, c) && g in LeftOut(v[c.level + 1], c.inputs1)
    ensures ValidFile(g)
    ensures after ==> forall e :: e in InputEntries(c) ==> KeyLt(e.key, g.smallest)
    ensures !after ==> forall e :: e in InputEntries(c) ==> KeyLt(g.largest, e.key)
    ensures forall e :: e in FilesEntries(c.inputs0) ==> Lt(e.key.user, g.smallest.user) || Lt(g.largest.user, e.key.user)
  {
    InputsAreValid(v, c);
    after := BesideInputs(v[c.level + 1], c, g);
  }

  lemma OutputIsSeparate(v: Levels, c: Compaction, outputs: seq<FileMeta>, o: FileMeta, g: FileMeta)
    requires ValidVersion(v) && ValidCompaction(v, c) && GoodOutputs(v, c, outputs)
    requires o in outputs && g in LeftOut(v[c.level + 1], c.inputs1)
    ensures Separate(o, g) && o.number != g.number
  {
    OutputEnds(v, c, outputs, o);
    hide ValidVersion, InputEntries, Disjoint, DistinctNumbers, ValidFile;
    var after := LeftOutIsBeside(v, c, g);
  }

  /** An output begins and ends with entries of the inputs. */
  lemma OutputEnds(v: Levels, c: Compaction, outputs: seq<FileMeta>, o: FileMeta)
    requires GoodOutputs(v, c, outputs) && o in outputs
    ensures exists e :: e in InputEntries(c) && e.key == o.smallest
    ensures exists e :: e in InputEntries(c) && e.key == o.largest
  {
    hide InputEntries;
    var first, last := o.entries[0], o.entries[|o.entries| - 1];
    assert first in o.entries && last in o.entries;
    assert first in FilesEntries(outputs) && last in FilesEntries(outputs);
    assert first in InputEntries(c) && first.key == o.smallest;
    assert last in InputEntries(c) && last.key == o.largest;
  }

  lemma GoodSubset(level: nat, fs: set<FileMeta>, gs: set<FileMeta>)
    requires GoodFiles(level, fs) && gs <= fs
    ensures GoodFiles(level, gs)
  {
  }

  lemma GoodUnion(level: nat, outputs: seq<FileMeta>, rest: set<FileMeta>)
    requires level != 0 && GoodFiles(level, rest)
    requires Disjoint(outputs) && DistinctNumbers(outputs) && forall o :: o in outputs ==> ValidFile(o)
    requires forall o, g :: o in outputs && g in rest ==> Separate(o, g) && o.number != g.number
    ensures GoodFiles(level, SetOf(outputs) + rest)
  {
    hide ValidFile, Separate, Disjoint, DistinctNumbers;
    forall o, g | o in outputs && g in outputs && o != g
      ensures Separate(o, g) && Separate(g, o) && o.number != g.number
    {
      OutputsAreApart(outputs, o, g);
      OutputsAreApart(outputs, g, o);
    }
    forall o, g | o in outputs && g in rest
      ensures Separate(g, o)
    {
      SeparateBothWays(o, g);
    }
  }

  lemma OutputsAreApart(outputs: seq<FileMeta>, o: FileMeta, g: FileMeta)
    requires Disjoint(outputs) && DistinctNumbers(outputs) && (forall o :: o in outputs ==> ValidFile(o))
    requires o in outputs && g in outputs && o != g
    ensures Separate(o, g) && o.number != g.number
  {
    DisjointOrder(outputs, o, g);
    NumberNames(outputs, o, g);
  }

  lemma SeparateBothWays(o: FileMeta, g: FileMeta)
    requires Separate(o, g)
    ensures Separate(g, o)
  {
  }

  lemma LevelIsGood(v: Levels, l: nat)
    requires ValidVersion(v) && l < NUM_LEVELS
    ensures GoodFiles(l, SetOf(v[l]))
  {
    assert ValidLevel(l, v[l]);
    ValidLevelIsGood(l, v[l]);
  }

  lemma PushGoodFiles(v: Levels, c: Compaction, outputs: seq<FileMeta>, l: nat)
    requires ValidVersion(v) && ValidCompaction(v, c) && GoodOutputs(v, c, outputs) && l < NUM_LEVELS
    ensures GoodFiles(l, PushedLevel(v, c, outputs, l))
  {
    hide ValidVersion, ValidLevel, ValidCompaction, GoodOutputs, GoodFiles;
    LevelIsGood(v, l);
    if l == c.level + 1 {
      GoodSubset(l, SetOf(v[l]), LeftOut(v[l], c.inputs1));
      OutputLevelIsGood(v, c, outputs, LeftOut(v[l], c.inputs1));
    } else {
      GoodSubset(l, SetOf(v[l]), PushedLevel(v, c, outputs, l));
    }
  }

  lemma OutputLevelIsGood(v: Levels, c: Compaction, outputs: seq<FileMeta>, rest: set<FileMeta>)
    requires ValidVersion(v) && ValidCompaction(v, c) && GoodOutputs(v, c, outputs)
    requires rest == LeftOut(v[c.level + 1], c.inputs1) && GoodFiles(c.level + 1, rest)
    ensures GoodFiles(c.level + 1, SetOf(outputs) + rest)
  {
    hide ValidVersion, ValidFile, Separate, ValidCompaction, Disjoint, DistinctNumbers, LeftOut, GoodFiles;
    forall o, g | o in outputs && g in rest
      ensures Separate(o, g) && o.number != g.number
    {
      OutputIsSeparate(v, c, outputs, o, g);
    }
    GoodUnion(c.level + 1, outputs, rest);
  }

  lemma LeftIsNewerThanMoved(files: seq<FileMeta>, inputs0: seq<FileMeta>, x: Entry, y: Entry)
    requires LeavesNewer(files, inputs0)
    requires x in SetEntries(LeftOut(files, inputs0)) && y in FilesEntries(inputs0) && x.key.user == y.key.user
    ensures x.key.sequence > y.key.sequence
  {
    var h :| h in LeftOut(files, inputs0) && x in h.entries;
    var f :| f in inputs0 && y in f.entries;
    assert Above(Elements(h.entries), Elements(f.entries));
  }

  /** The levels stay ordered by age when entries of the inputs reappear one level down. */
  lemma PushKeepsOrder(v: Levels, c: Compaction, outputs: seq<FileMeta>, i: nat, j: nat)
    requires ValidVersion(v) && ValidCompaction(v, c) && GoodOutputs(v, c, outputs) && i < j < NUM_LEVELS
    ensures Above(SetEntries(PushedLevel(v, c, outputs, i)), SetEntries(PushedLevel(v, c, outputs, j)))
  {
    forall x, y | x in SetEntries(PushedLevel(v, c, outputs, i)) && y in SetEntries(PushedLevel(v, c, outputs, j)) && x.key.user == y.key.user
      ensures x.key.sequence > y.key.sequence
    {
      PushKeepsPairOrder(v, c, outputs, i, j, x, y);
    }
  }

  lemma PushKeepsPairOrder(v: Levels, c: Compaction, outputs: seq<FileMeta>, i: nat, j: nat, x: Entry, y: Entry)
    requires ValidCompaction(v, c) && GoodOutputs(v, c, outputs) && i < j < NUM_LEVELS
    requires forall i, j :: 0 <= i < j < NUM_LEVELS ==> Above(FilesEntries(v[i]), FilesEntries(v[j]))
    requires x in SetEntries(PushedLevel(v, c, outputs, i)) && y in SetEntries(PushedLevel(v, c, outputs, j))
    requires x.key.user == y.key.user
    ensures x.key.sequence > y.key.sequence
  {
    var p := CameFrom(v, c, outputs, i, x);
    var q := CameFrom(v, c, outputs, j, y);
    if p < q {
      assert Above(FilesEntries(v[p]), FilesEntries(v[q]));
    } else {
      // Only `y` moved down, out of the level where `x` was left.
      LeftIsNewerThanMoved(v[c.level], c.inputs0, x, y);
    }
  }

  /** The level an entry was in before the push. */
  lemma CameFrom(v: Levels, c: Compaction, outputs: seq<FileMeta>, l: nat, x: Entry) returns (p: nat)
    requires ValidCompaction(v, c) && GoodOutputs(v, c, outputs) && l < NUM_LEVELS
    requires x in SetEntries(PushedLevel(v, c, outputs, l))
    ensures p < NUM_LEVELS && x in FilesEntries(v[p])
    ensures p == l || (l == c.level + 1 && p == c.level && x in FilesEntries(c.inputs0) && x in FilesEntries(outputs))
  {
    hide ValidFile, DistinctNumbers, Disjoint, LeavesNewer, TakesOverlap;
    var g :| g in PushedLevel(v, c, outputs, l) && x in g.entries;
    if l == c.level + 1 && g in outputs {
      assert x in FilesEntries(outputs);
      if x in FilesEntries(c.inputs0) {
        p := c.level;
      } else {
        p := l;
      }
    } else {
      p := l;
    }
  }

  lemma PushedEntry(v: Levels, c: Compaction, outputs: seq<FileMeta>, l: nat, x: Entry)
    requires ValidCompaction(v, c) && GoodOutputs(v, c, outputs) && l < NUM_LEVELS
    requires x in SetEntries(PushedLevel(v, c, outputs, l))
    ensures x in FilesEntries(outputs) + RestEntries(v, c) && x in VersionEntries(v)
  {
    var g :| g in PushedLevel(v, c, outputs, l) && x in g.entries;
    if l != c.level + 1 || g !in outputs {
      assert g in v[l] && !IsInput(c, l, g);
    }
    var p := CameFrom(v, c, outputs, l, x);
  }

  lemma RestIsPushed(v: Levels, c: Compaction, outputs: seq<FileMeta>, x: Entry) returns (l: nat)
    requires ValidCompaction(v, c) && x in FilesEntries(outputs) + RestEntries(v, c)
    ensures l < NUM_LEVELS && x in SetEntries(PushedLevel(v, c, outputs, l))
  {
    if x in FilesEntries(outputs) {
      l := c.level + 1;
    } else {
      var k, g :| 0 <= k < NUM_LEVELS && g in v[k] && !IsInput(c, k, g) && x in g.entries;
      l := k;
      assert g in PushedLevel(v, c, outputs, l);
    }
  }

  lemma PushEntries(v: Levels, c: Compaction, outputs: seq<FileMeta>)
    requires ValidCompaction(v, c) && GoodOutputs(v, c, outputs)
    requires forall l :: 0 <= l < NUM_LEVELS ==> EditedLevel(v, PushDownEdit(c, outputs), l) == PushedLevel(v, c, outputs, l)
    ensures EditedEntries(v, PushDownEdit(c, outputs)) == FilesEntries(outputs) + RestEntries(v, c)
    ensures EditedEntries(v, PushDownEdit(c, outputs)) <= VersionEntries(v)
  {
    forall x | x in EditedEntries(v, PushDownEdit(c, outputs))
      ensures x in FilesEntries(outputs) + RestEntries(v, c) && x in VersionEntries(v)
    {
      var l :| 0 <= l < NUM_LEVELS && x in SetEntries(EditedLevel(v, PushDownEdit(c, outputs), l));
      PushedEntry(v, c, outputs, l, x);
    }
    forall x | x in FilesEntries(outputs) + RestEntries(v, c)
      ensures x in EditedEntries(v, PushDownEdit(c, outputs))
    {
      var l := RestIsPushed(v, c, outputs, x);
    }
  }

  ghost predicate IsInput(c: Compaction, l: nat, g: FileMeta) {
    (l == c.level && g in c.inputs0) || (l == c.level + 1 && g in c.inputs1)
  }

  /** The entries of all files that are not inputs. */
  ghost function RestEntries(v: Levels, c: Compaction): set<Entry> {
    set l, g, x | 0 <= l < NUM_LEVELS && g in v[l] && !IsInput(c, l, g) && x in g.entries :: x
  }

  lemma PushNumbers(v: Levels, c: Compaction, outputs: seq<FileMeta>, w: Levels, n: nat)
    requires NumbersUnique(v) && NumbersBelow(v, n) && ValidCompaction(v, c) && GoodOutputs(v, c, outputs)
    requires forall o :: o in outputs ==> o.number < n
    requires forall l :: 0 <= l < NUM_LEVELS ==> SameFiles(w[l], PushedLevel(v, c, outputs, l))
    ensures NumbersUnique(w) && NumbersBelow(w, n)
  {
    forall l, g | 0 <= l < NUM_LEVELS && g in w[l]
      ensures g in v[l] || (l == c.level + 1 && g in outputs)
    {
      assert g in PushedLevel(v, c, outputs, l);
    }
  }

  lemma PushIsValid(v: Levels, c: Compaction, outputs: seq<FileMeta>, n: nat)
    requires ValidVersion(v) && ValidCompaction(v, c) && GoodOutputs(v, c, outputs)
    requires NumbersUnique(v) && NumbersBelow(v, n) && forall o :: o in outputs ==> o.number < n
    ensures var w := ApplyEdit(v, PushDownEdit(c, outputs));
            && ValidVersion(w) && NumbersUnique(w) && NumbersBelow(w, n)
            && VersionEntries(w) == FilesEntries(outputs) + RestEntries(v, c)
  {
    var e := PushDownEdit(c, outputs);
    PushIsFresh(v, c, outputs);
    forall l | 0 <= l < NUM_LEVELS
      ensures EditedLevel(v, e, l) == PushedLevel(v, c, outputs, l)
      ensures GoodFiles(l, EditedLevel(v, e, l))
    {
      PushedLevelIsEdited(v, c, outputs, l);
      PushGoodFiles(v, c, outputs, l);
    }
    forall i, j | 0 <= i < j < NUM_LEVELS
      ensures Above(SetEntries(EditedLevel(v, e, i)), SetEntries(EditedLevel(v, e, j)))
    {
      PushKeepsOrder(v, c, outputs, i, j);
    }
    PushEntries(v, c, outputs);
    EditIsValid(v, e);
    PushNumbers(v, c, outputs, ApplyEdit(v, e), n);
  }
}
