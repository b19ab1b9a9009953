/** The version set: every change of version is an edit in the manifest, and the manifest rebuilds the version set. */
module VersionSets {
  import opened ByteOrder
  import opened DbFormat
  import opened Coding
  import opened KeyOrder
  import opened Version
  import opened VersionBuilder
  import opened ManifestReplay
  import opened VersionEdits
  import opened TableLookup
  import LogFormat
  import LogFile

  /** The contents of the table files by their numbers. */
  type Tables = nat -> seq<Entry>

  const NO_FILES: Levels := [[], [], [], [], [], [], []]

  const NO_KEYS: seq<Bytes> := [[], [], [], [], [], [], []]

  // ----- Files in memory and in the manifest -----

  function DecodeKey(b: Bytes): InternalKey {
    InternalKey(ExtractUserKey(b), Tag(b) / 256, if Tag(b) % 256 == 1 then Value else Deletion)
  }

  lemma DecodeEncodeKey(k: InternalKey)
    requires InRange(k)
    ensures DecodeKey(EncodeKey(k)) == k
  {
    hide Tagged, ExtractUserKey, Tag, PutFixed64;
    TaggedReadsBack(k.user, PackSequenceAndType(k));
  }

  function FileOf(f: FileRecord, tables: Tables): FileMeta {
    FileMeta(f.number, f.size, DecodeKey(f.smallest), DecodeKey(f.largest), tables(f.number))
  }

  ghost predicate KeyFits(k: InternalKey) {
    InRange(k) && |k.user| + 8 < 0x1_0000_0000
  }

  /** A file that can be written to the manifest. */
  ghost predicate Recordable(f: FileMeta, tables: Tables) {
    && f.number < 0x1_0000_0000_0000_0000 && f.size < 0x1_0000_0000_0000_0000
    && KeyFits(f.smallest) && KeyFits(f.largest)
    && f.entries == tables(f.number)
  }

  function RecordOf(f: FileMeta, ghost tables: Tables): FileRecord
    requires Recordable(f, tables)
  {
    FileRecord(f.number, f.size, EncodeKey(f.smallest), EncodeKey(f.largest))
  }

  lemma FileReadsBack(f: FileMeta, tables: Tables)
    requires Recordable(f, tables)
    ensures FileOf(RecordOf(f, tables), tables) == f
  {
    DecodeEncodeKey(f.smallest);
    DecodeEncodeKey(f.largest);
  }

  lemma DecodedIsRecordable(p: (Level, FileRecord), tables: Tables)
    requires FileFits(p)
    ensures Recordable(FileOf(p.1, tables), tables)
  {
  }

  ghost predicate PairRecordable(p: (nat, FileMeta), tables: Tables) {
    p.0 < NUM_LEVELS && Recordable(p.1, tables)
  }

  function RecordsOf(files: seq<(nat, FileMeta)>, n: nat, ghost tables: Tables): (r: seq<(Level, FileRecord)>)
    requires n <= |files| && forall p :: p in files ==> PairRecordable(p, tables)
    ensures |r| == n
  {
    if n == 0 then []
    else
      assert PairRecordable(files[n - 1], tables);
      Joined(RecordsOf(files, n - 1, tables), [(files[n - 1].0, RecordOf(files[n - 1].1, tables))])
  }

  function FilesOf(files: seq<(Level, FileRecord)>, tables: Tables, n: nat): (r: seq<(nat, FileMeta)>)
    requires n <= |files|
    ensures |r| == n
  {
    if n == 0 then [] else Joined(FilesOf(files, tables, n - 1), [(files[n - 1].0, FileOf(files[n - 1].1, tables))])
  }

  lemma {:induction false} FilesOfPrefix(files: seq<(Level, FileRecord)>, more: seq<(Level, FileRecord)>, tables: Tables, n: nat)
    requires n <= |files| <= |more| && forall i :: 0 <= i < |files| ==> more[i] == files[i]
    ensures FilesOf(more, tables, n) == FilesOf(files, tables, n)
  {
    if n > 0 {
      FilesOfPrefix(files, more, tables, n - 1);
    }
  }

  lemma {:induction false} FilesReadBack(files: seq<(nat, FileMeta)>, tables: Tables, n: nat)
    requires n <= |files| && forall p :: p in files ==> PairRecordable(p, tables)
    ensures FilesOf(RecordsOf(files, n, tables), tables, n) == files[..n]
  {
    hide FileOf, RecordOf, Recordable;
    if n > 0 {
      FilesReadBack(files, tables, n - 1);
      FilesOfPrefix(RecordsOf(files, n - 1, tables), RecordsOf(files, n, tables), tables, n - 1);
      assert PairRecordable(files[n - 1], tables);
      FileReadsBack(files[n - 1].1, tables);
      assert files[..n] == Joined(files[..n - 1], [files[n - 1]]);
    }
  }

  /** What an edit of the manifest means for the version. */
  function EditOf(r: EditRecord, tables: Tables): VersionEdit {
    VersionEdit((set p | p in r.deletedFiles), FilesOf(r.newFiles, tables, |r.newFiles|))
  }

  function EditsOf(rs: seq<EditRecord>, tables: Tables, n: nat): (r: seq<VersionEdit>)
    requires n <= |rs|
    ensures |r| == n
  {
    if n == 0 then [] else Joined(EditsOf(rs, tables, n - 1), [EditOf(rs[n - 1], tables)])
  }

  lemma {:induction false} FilesOfMembers(files: seq<(Level, FileRecord)>, tables: Tables, n: nat)
    requires n <= |files|
    ensures forall p :: p in FilesOf(files, tables, n) ==> p.0 < NUM_LEVELS
    ensures (forall p :: p in files ==> FileFits(p)) ==> forall p :: p in FilesOf(files, tables, n) ==> PairRecordable(p, tables)
  {
    hide Recordable, FileOf, FileFits;
    if n > 0 {
      FilesOfMembers(files, tables, n - 1);
      if FileFits(files[n - 1]) {
        DecodedIsRecordable(files[n - 1], tables);
      }
    }
  }

  // ----- Compaction pointers -----

  function SetPointers(pointers: seq<Bytes>, changes: seq<(Level, Bytes)>, n: nat): (r: seq<Bytes>)
    requires |pointers| == NUM_LEVELS && n <= |changes|
    ensures |r| == NUM_LEVELS
  {
    if n == 0 then pointers else SetPointers(pointers, changes, n - 1)[changes[n - 1].0 := changes[n - 1].1]
  }

  function PointersAfter(pointers: seq<Bytes>, rs: seq<EditRecord>, n: nat): (r: seq<Bytes>)
    requires |pointers| == NUM_LEVELS && n <= |rs|
    ensures |r| == NUM_LEVELS
  {
    if n == 0 then pointers
    else SetPointers(PointersAfter(pointers, rs, n - 1), rs[n - 1].compactPointers, |rs[n - 1].compactPointers|)
  }

  ghost function LastChange(changes: seq<(Level, Bytes)>, n: nat, level: Level): Option<Bytes>
    requires n <= |changes|
  {
    if n == 0 then None
    else if changes[n - 1].0 == level then Some(changes[n - 1].1)
    else LastChange(changes, n - 1, level)
  }

  lemma {:induction false} LastChangeCounts(pointers: seq<Bytes>, changes: seq<(Level, Bytes)>, n: nat, level: Level)
    requires |pointers| == NUM_LEVELS && n <= |changes|
    ensures var last := LastChange(changes, n, level);
            SetPointers(pointers, changes, n)[level] == if last.Some? then last.value else pointers[level]
  {
    if n > 0 {
      LastChangeCounts(pointers, changes, n - 1, level);
    }
  }

  /** Setting the same pointers again changes nothing. */
  lemma {:induction false} SetAgain(pointers: seq<Bytes>, changes: seq<(Level, Bytes)>)
    requires |pointers| == NUM_LEVELS
    ensures var once := SetPointers(pointers, changes, |changes|); SetPointers(once, changes, |changes|) == once
  {
    hide SetPointers;
    var once := SetPointers(pointers, changes, |changes|);
    var twice := SetPointers(once, changes, |changes|);
    forall level: Level
      ensures once[level] == twice[level]
    {
      LastChangeCounts(pointers, changes, |changes|, level);
      LastChangeCounts(once, changes, |changes|, level);
    }
  }

  function SnapshotPointers(pointers: seq<Bytes>, n: nat): seq<(Level, Bytes)>
    requires |pointers| == NUM_LEVELS && n <= NUM_LEVELS
  {
    if n == 0 then []
    else if pointers[n - 1] == [] then SnapshotPointers(pointers, n - 1)
    else Joined(SnapshotPointers(pointers, n - 1), [(n - 1, pointers[n - 1])])
  }

  lemma {:induction false} ChangesOfPrefix(pointers: seq<Bytes>, changes: seq<(Level, Bytes)>, more: seq<(Level, Bytes)>, n: nat)
    requires |pointers| == NUM_LEVELS && n <= |changes| <= |more| && forall i :: 0 <= i < |changes| ==> more[i] == changes[i]
    ensures SetPointers(pointers, more, n) == SetPointers(pointers, changes, n)
  {
    if n > 0 {
      ChangesOfPrefix(pointers, changes, more, n - 1);
    }
  }

  lemma {:induction false} SnapshotRestoresPointers(pointers: seq<Bytes>, n: nat)
    requires |pointers| == NUM_LEVELS && n <= NUM_LEVELS
    ensures var changes := SnapshotPointers(pointers, n);
            forall level :: 0 <= level < NUM_LEVELS ==>
              SetPointers(NO_KEYS, changes, |changes|)[level] == if level < n then pointers[level] else []
    ensures forall p :: p in SnapshotPointers(pointers, n) ==> p.1 in pointers
  {
    hide SetPointers;
    if n == 0 {
      NoChange(NO_KEYS);
    } else {
      SnapshotRestoresPointers(pointers, n - 1);
      if pointers[n - 1] != [] {
        OneMoreChange(NO_KEYS, SnapshotPointers(pointers, n - 1), (n - 1, pointers[n - 1]));
      }
    }
  }

  lemma NoChange(pointers: seq<Bytes>)
    requires |pointers| == NUM_LEVELS
    ensures SetPointers(pointers, [], 0) == pointers
  {
  }

  lemma {:induction false} OneMoreChange(pointers: seq<Bytes>, changes: seq<(Level, Bytes)>, change: (Level, Bytes))
    requires |pointers| == NUM_LEVELS
    ensures var more := Joined(changes, [change]);
            SetPointers(pointers, more, |more|) == SetPointers(pointers, changes, |changes|)[change.0 := change.1]
  {
    ChangesOfPrefix(pointers, changes, Joined(changes, [change]), |changes|);
  }

  // ----- Numbers -----

  datatype Latest = Latest(log: Option<Long>, prevLog: Option<Long>, nextFile: Option<Long>, lastSequence: Option<Long>)

  function Later(a: Option<Long>, b: Option<Long>): Option<Long> {
    if b.Some? then b else a
  }

  /** The last of each number in the first `n` edits. */
  function LatestOf(rs: seq<EditRecord>, n: nat): Latest
    requires n <= |rs|
  {
    if n == 0 then Latest(None, None, None, None)
    else LaterNumbers(LatestOf(rs, n - 1), rs[n - 1])
  }

  function LaterNumbers(s: Latest, r: EditRecord): Latest {
    Latest(Later(s.log, r.logNumber), Later(s.prevLog, r.prevLogNumber), Later(s.nextFile, r.nextFileNumber),
      Later(s.lastSequence, r.lastSequence))
  }

  predicate Complete(s: Latest) {
    s.nextFile.Some? && s.log.Some? && s.lastSequence.Some?
  }

  // ----- Records -----

  predicate NameOk(r: EditRecord, name: Bytes) {
    r.comparator.Some? ==> r.comparator.value == name
  }

  /** The first `n` records decoded; None when one is corrupt or names another comparator. */
  function DecodeAll(records: seq<Bytes>, name: Bytes, n: nat): (r: Option<seq<EditRecord>>)
    requires n <= |records|
    ensures r.Some? ==> |r.value| == n
  {
    if n == 0 then Some([])
    else
      var before := DecodeAll(records, name, n - 1);
      var last := Decode(records[n - 1]);
      if before.None? || last.None? || !NameOk(last.value, name) then None
      else Some(Joined(before.value, [last.value]))
  }

  ghost predicate RecordOk(records: seq<Bytes>, rs: seq<EditRecord>, name: Bytes, i: nat)
    requires i < |records| && i < |rs|
  {
    records[i] == Encode(rs[i]) && Fits(rs[i]) && NameOk(rs[i], name)
  }

  ghost predicate RecordsOk(records: seq<Bytes>, rs: seq<EditRecord>, name: Bytes) {
    |records| == |rs| && forall i: nat :: i < |rs| ==> RecordOk(records, rs, name, i)
  }

  lemma {:induction false} RecordsReadBack(records: seq<Bytes>, rs: seq<EditRecord>, name: Bytes, n: nat)
    requires RecordsOk(records, rs, name) && n <= |rs|
    ensures DecodeAll(records, name, n) == Some(rs[..n])
  {
    hide Decode, Encode, Fits, NameOk;
    if n > 0 {
      RecordsReadBack(records, rs, name, n - 1);
      assert RecordOk(records, rs, name, n - 1);
      EditReadsBack(rs[n - 1]);
      assert rs[..n] == Joined(rs[..n - 1], [rs[n - 1]]);
    }
  }

  // ----- What a list of edits has built -----

  ghost predicate AllRecordable(e: VersionEdit, tables: Tables) {
    forall p :: p in e.newFiles ==> PairRecordable(p, tables)
  }

  ghost predicate GoodLevel(files: seq<FileMeta>, tables: Tables) {
    SortedFiles(files) && DistinctNumbers(files) && forall f :: f in files ==> Recordable(f, tables)
  }

  ghost predicate GoodLevels(v: Levels, tables: Tables) {
    forall level :: 0 <= level < NUM_LEVELS ==> GoodLevel(v[level], tables)
  }

  lemma {:induction false} SameNumberSameFile(files: seq<FileMeta>)
    requires SortedFiles(files) && forall f, g :: f in files && g in files && f.number == g.number ==> f == g
    ensures DistinctNumbers(files)
  {
    forall i, j | 0 <= i < j < |files|
      ensures files[i].number != files[j].number
    {
      assert FileLt(files[i], files[j]);
      assert files[i] in files && files[j] in files;
    }
  }

  lemma {:induction false} DistinctMembers(files: seq<FileMeta>)
    requires DistinctNumbers(files)
    ensures forall f, g :: f in files && g in files && f.number == g.number ==> f == g
  {
  }

  lemma {:induction false} NewDistinct(newFiles: seq<(nat, FileMeta)>, level: nat, used: set<nat>)
    requires FreshAt(newFiles, level, used)
    ensures forall f, g :: f in NewAt(newFiles, level) && g in NewAt(newFiles, level) && f.number == g.number ==> f == g
  {
    forall f, g | f in NewAt(newFiles, level) && g in NewAt(newFiles, level) && f.number == g.number
      ensures f == g
    {
      var i :| 0 <= i < |newFiles| && newFiles[i] == (level, f);
      var j :| 0 <= j < |newFiles| && newFiles[j] == (level, g);
      assert newFiles[i].0 == level && newFiles[j].0 == level;
    }
  }

  /** One level after one edit with fresh numbers. */
  lemma {:induction false} GoodLevelAfter(files: seq<FileMeta>, level: nat, e: VersionEdit, used: set<nat>, tables: Tables)
    requires GoodLevel(files, tables) && FreshAt(e.newFiles, level, used) && Numbers(files) <= used && AllRecordable(e, tables)
    ensures var r := SaveLevel(files, ApplyToLevel(EMPTY_STATE, level, e));
            GoodLevel(r, tables) && Numbers(r) <= used + set f | f in NewAt(e.newFiles, level) :: f.number
  {
    hide SaveLevel, ApplyToLevel, Recordable;
    var r := SaveLevel(files, ApplyToLevel(EMPTY_STATE, level, e));
    assert Numbers([]) == {};
    FreshMeansUnused(e.newFiles, level, used);
    assert Numbers(files) + Numbers([]) <= used;
    SaveLevelMembers(files, EMPTY_STATE, level, e);
    DistinctMembers(files);
    NewDistinct(e.newFiles, level, used);
    forall f, g | f in r && g in r && f.number == g.number
      ensures f == g
    {
      assert f in files ==> f.number in Numbers(files);
      assert g in files ==> g.number in Numbers(files);
    }
    SameNumberSameFile(r);
    forall f | f in r
      ensures Recordable(f, tables)
    {
      if f in NewAt(e.newFiles, level) {
        assert (level, f) in e.newFiles;
        assert PairRecordable((level, f), tables);
      }
    }
  }

  lemma {:induction false} HistoryIsGood(es: seq<VersionEdit>, n: nat, level: nat, tables: Tables)
    requires NumbersNeverReturn(NO_FILES, es) && n <= |es| && level < NUM_LEVELS
    requires forall e :: e in es ==> AllRecordable(e, tables)
    ensures var files := ApplyEdits(NO_FILES, es[..n])[level];
            GoodLevel(files, tables) && Numbers(files) <= AddedNumbers(es[..n], level)
  {
    hide AllRecordable, SaveLevel, ApplyToLevel, GoodLevel, FreshAt, AddedNumbers;
    if n == 0 {
      NothingIsGood(tables);
      assert ApplyEdits(NO_FILES, es[..0])[level] == [] && Numbers([]) == {};
    } else {
      HistoryIsGood(es, n - 1, level, tables);
      var before := ApplyEdits(NO_FILES, es[..n - 1])[level];
      assert es[..n][..n - 1] == es[..n - 1];
      var used := Numbers(NO_FILES[level]) + AddedNumbers(es[..n - 1], level);
      assert FreshAt(es[n - 1].newFiles, level, used);
      assert es[n - 1] in es;
      GoodLevelAfter(before, level, es[n - 1], used, tables);
      AddedNumbersGrow(es[..n], level);
      assert Numbers(NO_FILES[level]) == {};
    }
  }

  lemma NothingIsGood(tables: Tables)
    ensures GoodLevel([], tables)
  {
  }

  /** The version and the compaction pointers are what the edits built from nothing. */
  ghost predicate Describes(rs: seq<EditRecord>, tables: Tables, v: Levels, pointers: seq<Bytes>) {
    && NumbersNeverReturn(NO_FILES, EditsOf(rs, tables, |rs|))
    && v == ApplyEdits(NO_FILES, EditsOf(rs, tables, |rs|))
    && pointers == PointersAfter(NO_KEYS, rs, |rs|)
  }

  lemma {:induction false} EditsOfPrefix(rs: seq<EditRecord>, more: seq<EditRecord>, tables: Tables, n: nat)
    requires n <= |rs| <= |more| && forall i :: 0 <= i < |rs| ==> more[i] == rs[i]
    ensures EditsOf(more, tables, n) == EditsOf(rs, tables, n)
    ensures PointersAfter(NO_KEYS, more, n) == PointersAfter(NO_KEYS, rs, n)
    ensures LatestOf(more, n) == LatestOf(rs, n)
  {
    hide EditOf, SetPointers, LaterNumbers;
    if n > 0 {
      EditsOfPrefix(rs, more, tables, n - 1);
    }
  }

  lemma {:induction false} AllEditsRecordable(rs: seq<EditRecord>, tables: Tables, n: nat)
    requires n <= |rs| && forall r :: r in rs ==> Fits(r)
    ensures forall e :: e in EditsOf(rs, tables, n) ==> AllRecordable(e, tables) && ValidEdit(e)
  {
    hide Fits, PairRecordable;
    if n > 0 {
      AllEditsRecordable(rs, tables, n - 1);
      OneEditRecordable(rs[n - 1], tables);
    }
  }

  lemma {:induction false} OneEditRecordable(r: EditRecord, tables: Tables)
    ensures ValidEdit(EditOf(r, tables))
    ensures Fits(r) ==> AllRecordable(EditOf(r, tables), tables)
  {
    hide PairRecordable, FileFits;
    FilesOfMembers(r.newFiles, tables, |r.newFiles|);
  }

  /** Edits with fresh numbers keep every level sorted, without double numbers and recordable. */
  lemma {:induction false} DescribedIsGood(rs: seq<EditRecord>, tables: Tables, v: Levels, pointers: seq<Bytes>)
    requires Describes(rs, tables, v, pointers) && forall r :: r in rs ==> Fits(r)
    ensures GoodLevels(v, tables)
  {
    hide Fits, GoodLevel, AllRecordable, PointersAfter;
    var es := EditsOf(rs, tables, |rs|);
    AllEditsRecordable(rs, tables, |rs|);
    assert es[..|es|] == es;
    forall level | 0 <= level < NUM_LEVELS
      ensures GoodLevel(v[level], tables)
    {
      HistoryIsGood(es, |es|, level, tables);
    }
  }

  lemma {:induction false} OneMoreEdit(rs: seq<EditRecord>, r: EditRecord, tables: Tables, v: Levels, pointers: seq<Bytes>)
    requires Describes(rs, tables, v, pointers)
    requires forall level :: 0 <= level < NUM_LEVELS ==>
               FreshAt(EditOf(r, tables).newFiles, level, AddedNumbers(EditsOf(rs, tables, |rs|), level))
    ensures |pointers| == NUM_LEVELS
    ensures Describes(rs + [r], tables, ApplyEdit(v, EditOf(r, tables)), SetPointers(pointers, r.compactPointers, |r.compactPointers|))
  {
    hide ApplyEdit, SetPointers, FreshAt, AddedNumbers, EditOf;
    var es, more := EditsOf(rs, tables, |rs|), EditsOf(rs + [r], tables, |rs| + 1);
    EditsOfPrefix(rs, rs + [r], tables, |rs|);
    assert more == Joined(es, [EditOf(r, tables)]);
    assert more[..|es|] == es;
    forall level, i | 0 <= level < NUM_LEVELS && 0 <= i < |more|
      ensures FreshAt(more[i].newFiles, level, Numbers(NO_FILES[level]) + AddedNumbers(more[..i], level))
    {
      assert Numbers(NO_FILES[level]) == {};
      if i < |es| {
        assert more[..i] == es[..i];
        assert FreshAt(es[i].newFiles, level, Numbers(NO_FILES[level]) + AddedNumbers(es[..i], level));
      } else {
        assert Numbers(NO_FILES[level]) + AddedNumbers(es, level) == AddedNumbers(es, level);
      }
    }
  }

  // ----- Snapshots -----

  lemma {:induction false} SnapshotRecordable(v: Levels, n: nat, tables: Tables)
    requires GoodLevels(v, tables) && n <= NUM_LEVELS
    ensures forall p :: p in SnapshotFiles(v, n) ==> PairRecordable(p, tables)
  {
    hide Recordable;
    if n > 0 {
      SnapshotRecordable(v, n - 1, tables);
      assert GoodLevel(v[n - 1], tables);
    }
  }

  /** WriteSnapshot's edit. */
  function SnapshotRecord(v: Levels, pointers: seq<Bytes>, name: Bytes, ghost tables: Tables): EditRecord
    requires |pointers| == NUM_LEVELS && forall p :: p in SnapshotFiles(v, NUM_LEVELS) ==> PairRecordable(p, tables)
  {
    var files := SnapshotFiles(v, NUM_LEVELS);
    EditRecord(Some(name), None, None, None, None, SnapshotPointers(pointers, NUM_LEVELS), [], RecordsOf(files, |files|, tables))
  }

  ghost predicate PointersFit(pointers: seq<Bytes>) {
    |pointers| == NUM_LEVELS && forall p :: p in pointers ==> |p| < 0x1_0000_0000
  }

  lemma {:induction false} RecordsFit(files: seq<(nat, FileMeta)>, n: nat, tables: Tables)
    requires n <= |files| && forall p :: p in files ==> PairRecordable(p, tables)
    ensures forall p :: p in RecordsOf(files, n, tables) ==> FileFits(p)
  {
    hide EncodeKey;
    if n > 0 {
      RecordsFit(files, n - 1, tables);
      assert PairRecordable(files[n - 1], tables);
      EncodedLength(files[n - 1].1.smallest);
      EncodedLength(files[n - 1].1.largest);
    }
  }

  lemma EncodedLength(k: InternalKey)
    requires InRange(k)
    ensures |EncodeKey(k)| == |k.user| + 8
  {
  }

  /** A snapshot alone describes the version and the pointers. */
  lemma {:induction false} SnapshotDescribes(v: Levels, pointers: seq<Bytes>, name: Bytes, tables: Tables)
    requires GoodLevels(v, tables) && PointersFit(pointers) && |name| < 0x1_0000_0000
    ensures forall p :: p in SnapshotFiles(v, NUM_LEVELS) ==> PairRecordable(p, tables)
    ensures var r := SnapshotRecord(v, pointers, name, tables);
            Fits(r) && NameOk(r, name) && Describes([r], tables, v, pointers)
            && forall level :: 0 <= level < NUM_LEVELS ==> AddedNumbers(EditsOf([r], tables, 1), level) == Numbers(v[level])
  {
    hide Recordable, RecordsOf, FilesOf, SaveLevel, ApplyToLevel, SnapshotFiles, SnapshotPointers, SetPointers;
    SnapshotRecordable(v, NUM_LEVELS, tables);
    var files := SnapshotFiles(v, NUM_LEVELS);
    var r := SnapshotRecord(v, pointers, name, tables);
    var e := VersionEdit({}, files);
    RecordsFit(files, |files|, tables);
    FilesReadBack(files, tables, |files|);
    assert EditOf(r, tables) == e;
    SnapshotRestoresPointers(pointers, NUM_LEVELS);
    assert SetPointers(NO_KEYS, r.compactPointers, |r.compactPointers|) == pointers;
    assert EditsOf([r], tables, 1) == [e] by { assert EditsOf([r], tables, 0) == []; }
    assert PointersAfter(NO_KEYS, [r], 0) == NO_KEYS;
    SnapshotEditRestores(v, e, tables);
  }

  lemma {:induction false} SnapshotEditRestores(v: Levels, e: VersionEdit, tables: Tables)
    requires GoodLevels(v, tables) && e == VersionEdit({}, SnapshotFiles(v, NUM_LEVELS))
    ensures NumbersNeverReturn(NO_FILES, [e]) && ApplyEdits(NO_FILES, [e]) == v
    ensures forall level :: 0 <= level < NUM_LEVELS ==> AddedNumbers([e], level) == Numbers(v[level])
  {
    hide Recordable, SaveLevel, ApplyToLevel, SnapshotFiles;
    assert [e][..0] == [];
    assert ApplyEdits(NO_FILES, [e][..0]) == NO_FILES;
    forall level | 0 <= level < NUM_LEVELS
      ensures FreshAt(e.newFiles, level, Numbers(NO_FILES[level]) + AddedNumbers([], level))
      ensures ApplyEdit(NO_FILES, e)[level] == v[level]
      ensures AddedNumbers([e], level) == Numbers(v[level])
    {
      assert GoodLevel(v[level], tables);
      SnapshotFilesFresh(v, NUM_LEVELS, level);
      SnapshotRestores(v, NO_FILES, level);
      assert Numbers(NO_FILES[level]) + AddedNumbers([], level) == {};
      AddedNumbersGrow([e], level);
    }
  }

  lemma {:induction false} SetPointersFit(pointers: seq<Bytes>, r: EditRecord, n: nat)
    requires PointersFit(pointers) && Fits(r) && n <= |r.compactPointers|
    ensures PointersFit(SetPointers(pointers, r.compactPointers, n))
  {
    if n > 0 {
      SetPointersFit(pointers, r, n - 1);
      assert PointerFits(r.compactPointers[n - 1]);
    }
  }

  // ----- The version set -----

  class VersionSet {
    const comparatorName: Bytes
    const tables: Tables
    var current: Levels
    var compactPointer: seq<Bytes>
    var logNumber: Long
    var prevLogNumber: Long
    var nextFileNumber: Long
    var lastSequence: Long
    /** The records of the manifest being written, if there is one. */
    var descriptorLog: Option<seq<Bytes>>
    ghost var records: seq<EditRecord>

    /** The manifest rebuilds the version set, with a next file number and a last sequence number not beyond the present ones. */
    ghost predicate Manifested(manifest: seq<Bytes>)
      reads this
    {
      && RecordsOk(manifest, records, comparatorName)
      && Describes(records, tables, current, compactPointer)
      && var s := LatestOf(records, |records|);
      && s.log == Some(logNumber) && s.prevLog == Some(prevLogNumber)
      && s.nextFile.Some? && s.nextFile.value <= nextFileNumber
      && s.lastSequence.Some? && s.lastSequence.value <= lastSequence
    }

    ghost predicate Valid()
      reads this
    {
      && |comparatorName| < 0x1_0000_0000 && PointersFit(compactPointer) && GoodLevels(current, tables)
      && (descriptorLog.Some? ==> Manifested(descriptorLog.value))
    }

    constructor (comparatorName: Bytes, tables: Tables)
      requires |comparatorName| < 0x1_0000_0000
      ensures Valid() && this.comparatorName == comparatorName && this.tables == tables && IsNew()
    {
      this.comparatorName, this.tables := comparatorName, tables;
      current, compactPointer := NO_FILES, NO_KEYS;
      logNumber, prevLogNumber, nextFileNumber, lastSequence := 0, 0, 2, 0;
      descriptorLog, records := None, [];
    }

    ghost predicate IsNew()
      reads this
    {
      current == NO_FILES && compactPointer == NO_KEYS && descriptorLog == None
    }

    method NewFileNumber() returns (number: Long)
      requires Valid() && nextFileNumber + 1 < 0x1_0000_0000_0000_0000
      modifies `nextFileNumber
      ensures Valid() && number == old(nextFileNumber) && nextFileNumber == number + 1
    {
      hide RecordsOk, Describes, PointersFit, GoodLevels;
      number := nextFileNumber;
      nextFileNumber := nextFileNumber + 1;
    }

    method SetLastSequence(s: Long)
      requires Valid() && s >= lastSequence
      modifies `lastSequence
      ensures Valid() && lastSequence == s
    {
      hide RecordsOk, Describes, PointersFit, GoodLevels;
      lastSequence := s;
    }

    /** The edit with the numbers that LogAndApply puts in. */
    function Completed(edit: EditRecord): EditRecord
      reads this
    {
      edit.(logNumber := if edit.logNumber.Some? then edit.logNumber else Some(logNumber),
            prevLogNumber := if edit.prevLogNumber.Some? then edit.prevLogNumber else Some(prevLogNumber),
            nextFileNumber := Some(nextFileNumber), lastSequence := Some(lastSequence))
    }

    /** The file numbers that a level has had since the manifest was begun. */
    ghost function Seen(level: nat): set<nat>
      requires level < NUM_LEVELS
      reads this
    {
      if descriptorLog.None? then Numbers(current[level]) else AddedNumbers(EditsOf(records, tables, |records|), level)
    }

    /** File numbers are handed out once, and a file only moves down. */
    ghost predicate Fresh(edit: EditRecord)
      reads this
    {
      forall level :: 0 <= level < NUM_LEVELS ==> FreshAt(EditOf(edit, tables).newFiles, level, Seen(level))
    }

    method SetCompactPointers(edit: EditRecord)
      requires |compactPointer| == NUM_LEVELS
      modifies `compactPointer
      ensures compactPointer == SetPointers(old(compactPointer), edit.compactPointers, |edit.compactPointers|)
    {
      for i := 0 to |edit.compactPointers|
        invariant |compactPointer| == NUM_LEVELS
        invariant compactPointer == SetPointers(old(compactPointer), edit.compactPointers, i)
      {
        compactPointer := compactPointer[edit.compactPointers[i].0 := edit.compactPointers[i].1];
      }
    }

    method WriteSnapshot() returns (record: Bytes, edit: EditRecord)
      requires PointersFit(compactPointer) && GoodLevels(current, tables) && |comparatorName| < 0x1_0000_0000
      ensures record == Encode(edit) && Fits(edit) && NameOk(edit, comparatorName)
      ensures Describes([edit], tables, current, compactPointer)
      ensures forall level :: 0 <= level < NUM_LEVELS ==> AddedNumbers(EditsOf([edit], tables, 1), level) == Numbers(current[level])
    {
      hide SnapshotFiles, Encode, Describes, Fits, GoodLevels, Recordable, FilesOf, AddedNumbers;
      var pointers: seq<(Level, Bytes)> := [];
      for level := 0 to NUM_LEVELS
        invariant pointers == SnapshotPointers(compactPointer, level)
      {
        if compactPointer[level] != [] {
          pointers := pointers + [(level, compactPointer[level])];
        }
      }
      SnapshotDescribes(current, compactPointer, comparatorName, tables);
      var e := ManifestReplay.WriteSnapshot(current);
      var files: seq<(Level, FileRecord)> := [];
      for i := 0 to |e.newFiles|
        invariant files == RecordsOf(e.newFiles, i, tables)
      {
        assert PairRecordable(e.newFiles[i], tables);
        files := files + [(e.newFiles[i].0, RecordOf(e.newFiles[i].1, tables))];
      }
      edit := EditRecord(Some(comparatorName), None, None, None, None, pointers, [], files);
      record := EncodeTo(edit);
    }

    /** LogAndApply, the write of the record succeeding. */
    method LogAndApply(edit0: EditRecord)
      requires Valid() && Fits(edit0) && NameOk(edit0, comparatorName)
      requires edit0.logNumber.Some? ==> logNumber <= edit0.logNumber.value < nextFileNumber
      requires Fresh(edit0)
      modifies this
      ensures Valid() && descriptorLog.Some?
      ensures current == ApplyEdit(old(current), EditOf(edit0, tables))
      ensures compactPointer == SetPointers(old(compactPointer), edit0.compactPointers, |edit0.compactPointers|)
      ensures Some(logNumber) == old(Completed(edit0)).logNumber && Some(prevLogNumber) == old(Completed(edit0)).prevLogNumber
      ensures nextFileNumber == old(nextFileNumber) && lastSequence == old(lastSequence)
      ensures |records| > 0 && records[|records| - 1] == old(Completed(edit0))
      ensures old(descriptorLog.Some?) ==>
                && records == old(records) + [old(Completed(edit0))]
                && descriptorLog.value == old(descriptorLog.value) + [Encode(old(Completed(edit0)))]
    {
      hide Encode, Describes, Fits, GoodLevels, FreshAt, AddedNumbers, EditOf, EditsOf, SetPointers, Numbers, RecordsOk, LatestOf;
      var edit := Completed(edit0);
      CompletedFits(edit0);
      OneEditRecordable(edit, tables);
      ghost var seen := seq(NUM_LEVELS, level requires 0 <= level < NUM_LEVELS reads this => Seen(level));
      FreshAgain(edit0, edit, seen);
      var builder := new Builder(current);
      builder.Apply(EditOf(edit, tables));
      var v := builder.SaveTo();
      assert v == ApplyEdit(current, EditOf(edit, tables));
      SetPointersFit(compactPointer, edit, |edit.compactPointers|);
      SetCompactPointers(edit);
      Prepare(edit, seen, old(compactPointer));
      AddRecord(edit);
      current := v;
      logNumber, prevLogNumber := edit.logNumber.value, edit.prevLogNumber.value;
      RecordsFitAll(descriptorLog.value, records);
      DescribedIsGood(records, tables, current, compactPointer);
    }

    /** Begins a manifest if there is none; one more edit will then be in order. */
    method Prepare(edit: EditRecord, ghost seen: seq<set<nat>>, ghost pointers: seq<Bytes>)
      requires PointersFit(compactPointer) && GoodLevels(current, tables) && |comparatorName| < 0x1_0000_0000
      requires |seen| == NUM_LEVELS && forall level :: 0 <= level < NUM_LEVELS ==> seen[level] == Seen(level)
      requires forall level :: 0 <= level < NUM_LEVELS ==> FreshAt(EditOf(edit, tables).newFiles, level, seen[level])
      requires |pointers| == NUM_LEVELS && compactPointer == SetPointers(pointers, edit.compactPointers, |edit.compactPointers|)
      requires descriptorLog.Some? ==>
                 RecordsOk(descriptorLog.value, records, comparatorName) && Describes(records, tables, current, pointers)
      modifies `descriptorLog, `records
      ensures descriptorLog.Some? && RecordsOk(descriptorLog.value, records, comparatorName)
      ensures Describes(records + [edit], tables, ApplyEdit(current, EditOf(edit, tables)), compactPointer)
      ensures old(descriptorLog.Some?) ==> unchanged(this)
    {
      hide Encode, Describes, GoodLevels, FreshAt, AddedNumbers, EditOf, EditsOf, SetPointers, Numbers, RecordsOk, PointersFit, ApplyEdit;
      SetAgain(pointers, edit.compactPointers);
      if descriptorLog.None? {
        StartManifest();
        assert forall level :: 0 <= level < NUM_LEVELS ==> seen[level] == AddedNumbers(EditsOf(records, tables, |records|), level);
        OneMoreEdit(records, edit, tables, current, compactPointer);
      } else {
        assert forall level :: 0 <= level < NUM_LEVELS ==> seen[level] == AddedNumbers(EditsOf(records, tables, |records|), level);
        OneMoreEdit(records, edit, tables, current, pointers);
      }
    }

    /** A new manifest begins with a snapshot. */
    method StartManifest()
      requires descriptorLog.None? && PointersFit(compactPointer) && GoodLevels(current, tables) && |comparatorName| < 0x1_0000_0000
      modifies `descriptorLog, `records
      ensures descriptorLog.Some? && |records| == 1 && RecordsOk(descriptorLog.value, records, comparatorName)
      ensures Describes(records, tables, current, compactPointer)
      ensures forall level :: 0 <= level < NUM_LEVELS ==>
                AddedNumbers(EditsOf(records, tables, |records|), level) == Numbers(current[level])
    {
      hide Encode, Describes, Fits, GoodLevels, AddedNumbers, EditsOf, Numbers;
      var snapshot, first := WriteSnapshot();
      descriptorLog := Some([snapshot]);
      records := [first];
      assert RecordOk([snapshot], records, comparatorName, 0);
    }

    method AddRecord(edit: EditRecord)
      requires descriptorLog.Some? && RecordsOk(descriptorLog.value, records, comparatorName)
      requires Fits(edit) && NameOk(edit, comparatorName)
      modifies `descriptorLog, `records
      ensures descriptorLog == Some(old(descriptorLog).value + [Encode(edit)]) && records == old(records) + [edit]
      ensures RecordsOk(descriptorLog.value, records, comparatorName)
      ensures LatestOf(records, |records|) == LaterNumbers(LatestOf(old(records), |old(records)|), edit)
    {
      hide Encode, RecordsOk, LatestOf, Fits, NameOk;
      var record := EncodeTo(edit);
      OneMoreRecord(descriptorLog.value, records, record, edit);
      descriptorLog := Some(descriptorLog.value + [record]);
      records := records + [edit];
    }

    lemma {:induction false} FreshAgain(edit0: EditRecord, edit: EditRecord, seen: seq<set<nat>>)
      requires Fresh(edit0) && EditOf(edit, tables) == EditOf(edit0, tables)
      requires |seen| == NUM_LEVELS && forall level :: 0 <= level < NUM_LEVELS ==> seen[level] == Seen(level)
      ensures forall level :: 0 <= level < NUM_LEVELS ==> FreshAt(EditOf(edit, tables).newFiles, level, seen[level])
    {
      hide FreshAt, EditOf;
    }

    lemma {:induction false} CompletedFits(edit: EditRecord)
      ensures EditOf(Completed(edit), tables) == EditOf(edit, tables)
      ensures Fits(edit) ==> Fits(Completed(edit))
    {
    }

    lemma {:induction false} OneMoreRecord(manifest: seq<Bytes>, rs: seq<EditRecord>, record: Bytes, r: EditRecord)
      requires RecordsOk(manifest, rs, comparatorName) && record == Encode(r) && Fits(r) && NameOk(r, comparatorName)
      ensures RecordsOk(manifest + [record], rs + [r], comparatorName)
      ensures LatestOf(rs + [r], |rs| + 1) == LaterNumbers(LatestOf(rs, |rs|), r)
    {
      hide Encode, Fits, NameOk, LaterNumbers;
      EditsOfPrefix(rs, rs + [r], tables, |rs|);
      forall i: nat | i < |rs| + 1
        ensures RecordOk(manifest + [record], rs + [r], comparatorName, i)
      {
        if i < |rs| { assert RecordOk(manifest, rs, comparatorName, i); }
      }
    }

    lemma {:induction false} RecordsFitAll(manifest: seq<Bytes>, rs: seq<EditRecord>)
      requires RecordsOk(manifest, rs, comparatorName)
      ensures forall r :: r in rs ==> Fits(r)
    {
      hide Encode, Fits, NameOk;
      forall r | r in rs
        ensures Fits(r)
      {
        var i: nat :| i < |rs| && rs[i] == r;
        assert RecordOk(manifest, rs, comparatorName, i);
      }
    }

    // ----- Recovery -----

    method MarkFileNumberUsed(number: Long)
      modifies `nextFileNumber
      ensures nextFileNumber == if old(nextFileNumber) <= number then (number + 1) % 0x1_0000_0000_0000_0000 else old(nextFileNumber)
    {
      if nextFileNumber <= number {
        nextFileNumber := (number + 1) % 0x1_0000_0000_0000_0000;
      }
    }

    /** What the edits `rs` say of the state. */
    ghost predicate Rebuilt(rs: seq<EditRecord>)
      reads this
    {
      && (forall level :: 0 <= level < NUM_LEVELS ==>
            current[level] == SaveLevel([], ApplyAll(EMPTY_STATE, level, EditsOf(rs, tables, |rs|))))
      && compactPointer == PointersAfter(NO_KEYS, rs, |rs|)
      && var s := LatestOf(rs, |rs|);
      && Complete(s)
      && logNumber == s.log.value && lastSequence == s.lastSequence.value
      && prevLogNumber == (if s.prevLog.Some? then s.prevLog.value else 0)
      && nextFileNumber == (s.nextFile.value + 1) % 0x1_0000_0000_0000_0000
    }

    lemma {:induction false} StaysCorrupt(manifest: seq<Bytes>, i: nat, n: nat)
      requires i <= n <= |manifest| && DecodeAll(manifest, comparatorName, i).None?
      ensures DecodeAll(manifest, comparatorName, n).None?
      decreases n - i
    {
      hide Decode, NameOk;
      if i < n {
        StaysCorrupt(manifest, i, n - 1);
      }
    }

    lemma {:induction false} OneMoreReplayed(rs: seq<EditRecord>, r: EditRecord)
      ensures forall level :: ApplyAll(EMPTY_STATE, level, EditsOf(rs + [r], tables, |rs| + 1)) ==
                                ApplyToLevel(ApplyAll(EMPTY_STATE, level, EditsOf(rs, tables, |rs|)), level, EditOf(r, tables))
      ensures PointersAfter(NO_KEYS, rs + [r], |rs| + 1) ==
                SetPointers(PointersAfter(NO_KEYS, rs, |rs|), r.compactPointers, |r.compactPointers|)
      ensures LatestOf(rs + [r], |rs| + 1) == LaterNumbers(LatestOf(rs, |rs|), r)
    {
      hide EditOf, ApplyToLevel, SetPointers, LaterNumbers;
      EditsOfPrefix(rs, rs + [r], tables, |rs|);
      var es, more := EditsOf(rs, tables, |rs|), EditsOf(rs + [r], tables, |rs| + 1);
      assert more[..|more| - 1] == es;
    }

    /** Recover, from the records that the log reader delivers: one builder, all edits, one save. */
    method Recover(manifest: seq<Bytes>) returns (ok: bool)
      requires IsNew()
      modifies this
      ensures descriptorLog.None?
      ensures var rs := DecodeAll(manifest, comparatorName, |manifest|);
              && (ok <==> rs.Some? && Complete(LatestOf(rs.value, |manifest|)))
              && (ok ==> Rebuilt(rs.value))
    {
      hide Decode, EditOf, SaveLevel, ApplyToLevel, ApplyAll, EditsOf, SetPointers, PointersAfter, LatestOf, LaterNumbers, NameOk;
      ghost var rs: seq<EditRecord> := [];
      var latest := Latest(None, None, None, None);
      var builder := new Builder(current);
      NothingReplayed();
      for i := 0 to |manifest|
        invariant DecodeAll(manifest, comparatorName, i) == Some(rs) && |rs| == i
        invariant builder.Valid() && fresh(builder) && builder.base == NO_FILES && descriptorLog == None
        invariant forall level :: 0 <= level < NUM_LEVELS ==> builder.levels[level] == ApplyAll(EMPTY_STATE, level, EditsOf(rs, tables, i))
        invariant compactPointer == PointersAfter(NO_KEYS, rs, i)
        invariant latest == LatestOf(rs, i)
      {
        var decoded, edit := DecodeFrom(manifest[i]);
        if !decoded || !NameOk(edit, comparatorName) {
          ok := false;
          StaysCorrupt(manifest, i + 1, |manifest|);
          return;
        }
        OneMoreReplayed(rs, edit);
        OneEditRecordable(edit, tables);
        builder.Apply(EditOf(edit, tables));
        SetCompactPointers(edit);
        assert Joined(rs, [edit]) == rs + [edit];
        assert DecodeAll(manifest, comparatorName, i + 1) == Some(rs + [edit]);
        rs := rs + [edit];
        latest := LaterNumbers(latest, edit);
      }
      if !Complete(latest) {
        return false;
      }
      var prevLog := if latest.prevLog.Some? then latest.prevLog.value else 0;
      MarkFileNumberUsed(prevLog);
      MarkFileNumberUsed(latest.log.value);
      current := builder.SaveTo();
      nextFileNumber := (latest.nextFile.value + 1) % 0x1_0000_0000_0000_0000;
      lastSequence, logNumber, prevLogNumber := latest.lastSequence.value, latest.log.value, prevLog;
      ok := true;
    }

    lemma {:induction false} NothingReplayed()
      ensures forall level :: ApplyAll(EMPTY_STATE, level, EditsOf([], tables, 0)) == EMPTY_STATE
      ensures PointersAfter(NO_KEYS, [], 0) == NO_KEYS && LatestOf([], 0) == Latest(None, None, None, None)
    {
    }
  }

  // ----- A restart -----

  lemma {:induction false} PrefixDescribes(rs: seq<EditRecord>, tables: Tables, k: nat)
    requires k <= |rs| && NumbersNeverReturn(NO_FILES, EditsOf(rs, tables, |rs|))
    ensures Describes(rs[..k], tables, ApplyEdits(NO_FILES, EditsOf(rs[..k], tables, k)), PointersAfter(NO_KEYS, rs[..k], k))
  {
    hide EditOf;
    EditsAreCut(rs, tables, k, |rs|);
    EditsOfPrefix(rs[..k], rs, tables, k);
    NumbersNeverReturnPrefix(NO_FILES, EditsOf(rs, tables, |rs|), k);
  }

  lemma {:induction false} EditsAreCut(rs: seq<EditRecord>, tables: Tables, k: nat, n: nat)
    requires k <= n <= |rs|
    ensures EditsOf(rs, tables, n)[..k] == EditsOf(rs, tables, k)
    decreases n - k
  {
    hide EditOf;
    if k < n {
      EditsAreCut(rs, tables, k, n - 1);
    }
  }

  /** What one builder made of a list of edits is what they made one after the other. */
  lemma {:induction false} RebuiltIsDescribed(rs: seq<EditRecord>, tables: Tables, v: Levels)
    requires NumbersNeverReturn(NO_FILES, EditsOf(rs, tables, |rs|))
    requires forall level :: 0 <= level < NUM_LEVELS ==>
               v[level] == SaveLevel([], ApplyAll(EMPTY_STATE, level, EditsOf(rs, tables, |rs|)))
    ensures v == ApplyEdits(NO_FILES, EditsOf(rs, tables, |rs|))
  {
    hide SaveLevel, ApplyToLevel, EditsOf, ApplyEdits, ApplyAll;
    var es := EditsOf(rs, tables, |rs|);
    forall level | 0 <= level < NUM_LEVELS
      ensures v[level] == ApplyEdits(NO_FILES, es)[level]
    {
      ReplayAtOnce(NO_FILES, es, level);
    }
  }

  /**
   * The manifest in its log file, cut off at any byte by a crash and read again. With `k` whole records left, recovery
   * succeeds if and only if they hold all the numbers it needs, and then the version is the one that the first `k` edits
   * made. If nothing is lost, it is the version set of before.
   */
  method CrashAndRestart(vs: VersionSet, crc: (Byte, Bytes) -> Word, size: nat)
    returns (ok: bool, next: VersionSet, k: nat)
    requires vs.Valid() && vs.descriptorLog.Some?
    requires var sum := LogFile.MaskedCrc(crc); size <= |LogFormat.EncodeLog(sum, vs.descriptorLog.value, |vs.descriptorLog.value|)|
    ensures fresh(next) && next.comparatorName == vs.comparatorName && next.tables == vs.tables && k <= |vs.records|
    ensures var sum, manifest := LogFile.MaskedCrc(crc), vs.descriptorLog.value;
            LogFormat.FirstNotWhole(sum, LogFormat.EncodeLog(sum, manifest, |manifest|)[..size], manifest, k)
    ensures ok <==> Complete(LatestOf(vs.records, k))
    ensures ok ==>
              && next.Valid()
              && next.current == ApplyEdits(NO_FILES, EditsOf(vs.records, vs.tables, k))
              && next.compactPointer == PointersAfter(NO_KEYS, vs.records, k)
    ensures k == |vs.records| ==>
              && ok && next.current == vs.current && next.compactPointer == vs.compactPointer
              && next.logNumber == vs.logNumber && next.prevLogNumber == vs.prevLogNumber && next.lastSequence <= vs.lastSequence
  {
    hide LogFormat.EncodeLog, LogFormat.FirstNotWhole, LogFile.MaskedCrc, Describes, RecordOk, ApplyEdits, EditsOf, PointersAfter, LatestOf,
      ApplyAll, SaveLevel, DecodeAll, GoodLevels;
    var recovered := LogFile.CrashAndRecover(crc, vs.descriptorLog.value, size);
    k := |recovered|;
    next := new VersionSet(vs.comparatorName, vs.tables);
    ghost var rs := vs.records[..k];
    RecordsCut(vs.descriptorLog.value, vs.records, vs.comparatorName, k);
    RecordsReadBack(recovered, rs, vs.comparatorName, k);
    assert rs[..k] == rs;
    EditsOfPrefix(rs, vs.records, vs.tables, k);
    DescribedNumbers(vs.records, vs.tables, vs.current, vs.compactPointer);
    PrefixDescribes(vs.records, vs.tables, k);
    vs.RecordsFitAll(vs.descriptorLog.value, vs.records);
    DescribedIsGood(rs, vs.tables, ApplyEdits(NO_FILES, EditsOf(rs, vs.tables, k)), PointersAfter(NO_KEYS, rs, k));
    ok := next.Recover(recovered);
    if ok {
      DescribedNumbers(rs, vs.tables, ApplyEdits(NO_FILES, EditsOf(rs, vs.tables, k)), PointersAfter(NO_KEYS, rs, k));
      RebuiltIsDescribed(rs, vs.tables, next.current);
      PointersAfterFit(rs, k);
    }
  }

  lemma {:induction false} RecordsCut(manifest: seq<Bytes>, rs: seq<EditRecord>, name: Bytes, k: nat)
    requires RecordsOk(manifest, rs, name) && k <= |rs|
    ensures RecordsOk(manifest[..k], rs[..k], name)
  {
    hide Encode, Fits, NameOk;
    forall i: nat | i < k
      ensures RecordOk(manifest[..k], rs[..k], name, i)
    {
      assert RecordOk(manifest, rs, name, i);
    }
  }

  lemma {:induction false} DescribedNumbers(rs: seq<EditRecord>, tables: Tables, v: Levels, pointers: seq<Bytes>)
    requires Describes(rs, tables, v, pointers)
    ensures NumbersNeverReturn(NO_FILES, EditsOf(rs, tables, |rs|))
    ensures v == ApplyEdits(NO_FILES, EditsOf(rs, tables, |rs|)) && pointers == PointersAfter(NO_KEYS, rs, |rs|)
  {
  }

  lemma {:induction false} PointersAfterFit(rs: seq<EditRecord>, n: nat)
    requires n <= |rs| && forall r :: r in rs ==> Fits(r)
    ensures PointersFit(PointersAfter(NO_KEYS, rs, n))
  {
    hide SetPointers, Fits;
    if n > 0 {
      PointersAfterFit(rs, n - 1);
      SetPointersFit(PointersAfter(NO_KEYS, rs, n - 1), rs[n - 1], |rs[n - 1].compactPointers|);
    }
  }
}
