/** Opening a database again: the records of a log rebuild memtables, which become tables of level 0. */
module LogRecovery {
  import opened ByteOrder
  import opened DbFormat
  import opened Coding
  import opened KeyOrder
  import opened Database
  import opened WriteBatches
  import opened GroupCommit
  import opened LogReplay
  import opened Version
  import opened VersionBuilder
  import opened Install
  import ManifestReplay
  import LogFormat
  import LogFile

  ghost predicate RecordEncoded(records: seq<Bytes>, log: seq<Record>, started: nat, j: nat)
    requires j < |records| && j < |log|
  {
    RecordOk(log, j, started) && log[j].sequence < 0x1_0000_0000_0000_0000 && records[j] == EncodeBatch(log[j].sequence, log[j].ops)
  }

  /** The encoded records of a log. */
  ghost predicate EncodesLog(records: seq<Bytes>, log: seq<Record>, started: nat) {
    |records| == |log| && forall j: nat :: j < |records| ==> RecordEncoded(records, log, started, j)
  }

  /** What a record does to the recovered memtable. */
  lemma {:induction false} RecordReads(record: Bytes, r: Record)
    requires |r.ops| < 0x1_0000_0000 && (forall op :: op in r.ops ==> OpFits(op))
    requires r.sequence < 0x1_0000_0000_0000_0000 && record == EncodeBatch(r.sequence, r.ops)
    ensures |record| >= HEADER && Fixed64At(record, 0) == r.sequence && Fixed32At(record, 8) == |r.ops|
    ensures ParseFrom(record, HEADER) == Contents(r.ops, true)
  {
    hide EncodeBatch, ParseFrom, Fixed64At, Fixed32At, OpFits;
    BatchReadsBack(r.sequence, r.ops);
  }

  /**
   * RecoverLogFile. Without paranoid checks, records that cannot be applied are applied as far as possible and skipped.
   * A memtable that is `full` is written out at once, the last one at the end. `initial` is the largest sequence number
   * known before.
   */
  method RecoverLogFile(records: seq<Bytes>, paranoid: bool, full: seq<Entry> -> bool, initial: nat, ghost log: seq<Record>, ghost started: nat)
    returns (ok: bool, tables: seq<seq<Entry>>, maxSequence: nat)
    ensures !paranoid ==> ok
    ensures EncodesLog(records, log, started) ==> ok && tables == AllTables(TakeRecords(log, |log|, full))
    ensures EncodesLog(records, log, started) && initial <= started ==>
              maxSequence == if log == [] then initial else SequenceAfter(log, |log|, started)
  {
    hide AddAll, EncodeBatch, ParseFrom, Fixed64At, Fixed32At, OpFits;
    ok, tables, maxSequence := true, [], initial;
    var mem: Option<seq<Entry>> := None;
    for i := 0 to |records|
      invariant !paranoid ==> ok
      invariant EncodesLog(records, log, started) ==> ok && Rebuilt(tables, mem) == TakeRecords(log, i, full)
      invariant EncodesLog(records, log, started) && initial <= started ==>
                  maxSequence == if i == 0 then initial else SequenceAfter(log, i, started)
    {
      var record := records[i];
      if EncodesLog(records, log, started) {
        assert RecordEncoded(records, log, started, i);
        RecordReads(record, log[i]);
        SequenceGrows(log, started, i);
      }
      if |record| < HEADER {
        if paranoid {
          ok := false;
          return;
        }
      } else {
        var rebuilt;
        ok, rebuilt := InsertInto(record, if mem.Some? then mem.value else []);
        if !ok {
          if paranoid {
            return;
          }
          ok := true;
        }
        var lastSeq := Fixed64At(record, 0) + Fixed32At(record, 8) - 1;
        if lastSeq > maxSequence {
          maxSequence := lastSeq;
        }
        if full(rebuilt) {
          tables := tables + [rebuilt];
          mem := None;
        } else {
          mem := Some(rebuilt);
        }
      }
    }
    if mem.Some? {
      tables := tables + [mem.value];
    }
  }

  lemma {:induction false} SequenceGrows(log: seq<Record>, started: nat, i: nat)
    requires i < |log|
    ensures started <= SequenceAfter(log, i, started) <= SequenceAfter(log, i + 1, started)
    ensures SequenceAfter(log, i + 1, started) == SequenceAfter(log, i, started) + |log[i].ops|
  {
    if i > 0 {
      SequenceGrows(log, started, i - 1);
    }
  }

  lemma {:induction false} EncodesPrefix(records: seq<Bytes>, log: seq<Record>, started: nat, k: nat)
    requires EncodesLog(records, log, started) && k <= |records|
    ensures EncodesLog(records[..k], log[..k], started) && SequenceAfter(log[..k], k, started) == SequenceAfter(log, k, started)
    ensures forall full :: TakeRecords(log[..k], k, full) == TakeRecords(log, k, full)
  {
    hide RecordOk, MemOf, EncodeBatch, SequenceAfter, AddAll;
    LogOfPrefix(log[..k], log, k, started);
    TablesOfLogPrefix(log[..k], log, k);
    forall j: nat | j < k
      ensures RecordEncoded(records[..k], log[..k], started, j)
    {
      assert RecordEncoded(records, log, started, j);
      RecordOfPrefix(log, k, j, started);
    }
  }

  lemma {:induction false} TablesOfLogPrefix(log: seq<Record>, more: seq<Record>, n: nat)
    requires n <= |log| <= |more| && forall i :: 0 <= i < |log| ==> more[i] == log[i]
    ensures forall full :: TakeRecords(more, n, full) == TakeRecords(log, n, full)
  {
    hide AddAll, TakeRecord;
    if n > 0 {
      TablesOfLogPrefix(log, more, n - 1);
    }
  }

  lemma {:induction false} RecordOfPrefix(log: seq<Record>, k: nat, j: nat, started: nat)
    requires j < k <= |log| && RecordOk(log, j, started)
    ensures RecordOk(log[..k], j, started)
  {
    hide GroupOps, OpFits, MemOf;
    LogOfPrefix(log[..k], log, j, started);
  }

  lemma {:induction false} SequencesAscend(log: seq<Record>, started: nat, j: nat, n: nat)
    requires j <= n <= |log|
    ensures SequenceAfter(log, j, started) <= SequenceAfter(log, n, started)
    decreases n - j
  {
    if j < n {
      SequencesAscend(log, started, j, n - 1);
    }
  }

  /** The log of every run can be recovered from: its records are what AppendLog wrote. */
  lemma {:induction false} LogOfRunEncodes(base: DbState, s: State, records: seq<Bytes>)
    requires CommitInv(base, s) && |records| == |s.log|
    requires forall j :: 0 <= j < |records| && s.log[j].sequence < 0x1_0000_0000_0000_0000 ==>
                           records[j] == EncodeBatch(s.log[j].sequence, s.log[j].ops)
    ensures EncodesLog(records, s.log, s.started)
  {
    hide WritersOk, GroupOk, MemOk, SameWrites, Effects, MemOf, SequenceAfter, EncodeBatch, GroupOps;
    forall j: nat | j < |records|
      ensures RecordEncoded(records, s.log, s.started, j)
    {
      assert RecordOk(s.log, j, s.started);
      SequencesAscend(s.log, s.started, j, Settled(s));
    }
  }

  /** So can that of the immutable memtable. */
  lemma {:induction false} ImmLogOfRunEncodes(base: DbState, s: State, records: seq<Bytes>)
    requires CommitInv(base, s) && s.db.imm.Some? && |records| == |s.immLog|
    requires forall j :: 0 <= j < |records| && s.immLog[j].sequence < 0x1_0000_0000_0000_0000 ==>
                           records[j] == EncodeBatch(s.immLog[j].sequence, s.immLog[j].ops)
    ensures EncodesLog(records, s.immLog, s.immStarted)
  {
    hide WritersOk, GroupOk, MemOk, SameWrites, Effects, MemOf, SequenceAfter, EncodeBatch, GroupOps;
    SequencesAscend(s.log, s.started, 0, Settled(s));
    SequenceFrom(s.log, s.started);
    forall j: nat | j < |records|
      ensures RecordEncoded(records, s.immLog, s.immStarted, j)
    {
      assert RecordOk(s.immLog, j, s.immStarted);
      SequencesAscend(s.immLog, s.immStarted, j, |s.immLog|);
    }
  }

  lemma SequenceFrom(log: seq<Record>, started: nat)
    ensures SequenceAfter(log, 0, started) == started
  {
  }

  /** Every settled record that has a sync writer among its members is one of the first `k`. */
  ghost predicate SyncRecordsWithin(s: State, k: nat) {
    forall j: nat, w :: j < |s.log| && j < Settled(s) && w in s.log[j].members && w.sync ==> j < k
  }

  /** What recovers after a crash that keeps the first `k` records, the synced ones among them. */
  lemma {:induction false} SyncedRecordsSurvive(base: DbState, s: State, k: nat)
    requires CommitInv(base, s) && s.durable <= k <= |s.log|
    ensures SyncRecordsWithin(s, k)
    ensures k == Settled(s) ==> MemOf(s.log, k) == s.db.mem && SequenceAfter(s.log, k, s.started) == s.db.lastSequence
  {
    hide Order, WritersOk, GroupOk, MemOk, SameWrites, Effects, RecordOk, SequenceAfter, MemOf;
  }

  /** What was synced is whole in every file that is at least as long as the log was then. */
  lemma {:induction false} SyncedAreWhole(sum: LogFormat.Checksum, records: seq<Bytes>, durable: nat, size: nat, k: nat)
    requires durable <= |records| && |LogFormat.EncodeLog(sum, records, durable)| <= size <= |LogFormat.EncodeLog(sum, records, |records|)|
    requires LogFormat.FirstNotWhole(sum, LogFormat.EncodeLog(sum, records, |records|)[..size], records, k)
    ensures durable <= k
  {
    hide LogFormat.EncodeLog;
    if k < durable {
      LogFormat.EncodeLogGrows(sum, records, k + 1, durable);
    }
  }

  /**
   * A log, cut off at any byte behind its first `durable` records by a crash and read again: recovery rebuilds the
   * tables of the groups whose records are wholly inside, each group whole, in the order in which they were committed.
   */
  method CrashAndRecover(crc: (Byte, Bytes) -> Word, records: seq<Bytes>, size: nat, paranoid: bool, full: seq<Entry> -> bool, initial: nat,
                         ghost log: seq<Record>, ghost started: nat, ghost durable: nat)
    returns (ok: bool, tables: seq<seq<Entry>>, maxSequence: nat, k: nat)
    requires EncodesLog(records, log, started) && initial <= started && durable <= |records|
    requires var sum := LogFile.MaskedCrc(crc);
             |LogFormat.EncodeLog(sum, records, durable)| <= size <= |LogFormat.EncodeLog(sum, records, |records|)|
    ensures ok && durable <= k <= |log| && tables == AllTables(TakeRecords(log, k, full))
    ensures maxSequence == if k == 0 then initial else SequenceAfter(log, k, started)
    ensures var sum := LogFile.MaskedCrc(crc);
            LogFormat.FirstNotWhole(sum, LogFormat.EncodeLog(sum, records, |records|)[..size], records, k)
  {
    hide EncodesLog, TakeRecords, SequenceAfter, LogFormat.EncodeLog, LogFormat.FirstNotWhole, LogFile.MaskedCrc;
    var recovered := LogFile.CrashAndRecover(crc, records, size);
    k := |recovered|;
    SyncedAreWhole(LogFile.MaskedCrc(crc), records, durable, size, k);
    EncodesPrefix(records, log, started, k);
    SameLength(records, log, started);
    ok, tables, maxSequence := RecoverLogFile(recovered, paranoid, full, initial, log[..k], started);
  }

  lemma {:induction false} SameLength(records: seq<Bytes>, log: seq<Record>, started: nat)
    requires EncodesLog(records, log, started)
    ensures |records| == |log|
  {
  }

  // ----- The edit that recovery applies -----

  lemma {:induction false} TableNumbers(tables: seq<seq<Entry>>, n: nat, number: nat, size: seq<Entry> -> nat)
    requires n <= |tables|
    ensures forall p :: p in TableFiles(tables, n, number, size) ==> p.0 == 0 && number <= p.1.number < number + n
    ensures forall i, j :: 0 <= i < j < |TableFiles(tables, n, number, size)| ==>
              TableFiles(tables, n, number, size)[i].1.number < TableFiles(tables, n, number, size)[j].1.number
  {
    if n > 0 {
      TableNumbers(tables, n - 1, number, size);
    }
  }

  lemma {:induction false} OtherLevelStays(v: Levels, e: VersionEdit, level: nat)
    requires level < NUM_LEVELS && e.deletedFiles == {} && forall p :: p in e.newFiles ==> p.0 != level
    ensures ApplyEdit(v, e)[level] == v[level]
  {
    assert DeletedAt(e, level) == {} && {} + DeletedAt(e, level) == {};
    NothingAdded(EMPTY_STATE, level, e.newFiles);
    ManifestReplay.DropNothing(v[level]);
  }

  lemma {:induction false} NothingAdded(s: LevelState, level: nat, files: seq<(nat, FileMeta)>)
    requires forall p :: p in files ==> p.0 != level
    ensures AddFiles(s, level, files) == s
  {
    if files != [] {
      NothingAdded(s, level, files[..|files| - 1]);
    }
  }

  /** One more new file in an edit is one more edit. */
  lemma {:induction false} OneMoreFile(v: Levels, files: seq<(nat, FileMeta)>, f: FileMeta)
    requires ManifestReplay.LevelsSorted(v) && forall p :: p in files ==> p.0 == 0 && p.1.number < f.number
    requires FreshAt(files, 0, Numbers(v[0])) && f.number !in Numbers(v[0])
    ensures ApplyEdit(v, VersionEdit({}, Joined(files, [(0, f)]))) == ApplyEdit(ApplyEdit(v, VersionEdit({}, files)), FlushEdit(f, 0))
  {
    hide SaveLevel, AddFiles, Numbers;
    var e, more, last := VersionEdit({}, files), VersionEdit({}, Joined(files, [(0, f)])), FlushEdit(f, 0);
    forall level | 0 <= level < NUM_LEVELS
      ensures ApplyEdit(v, more)[level] == ApplyEdit(ApplyEdit(v, e), last)[level]
    {
      if level > 0 {
        OtherLevelStays(v, e, level);
        OtherLevelStays(v, more, level);
        OtherLevelStays(ApplyEdit(v, e), last, level);
      } else {
        OneMoreAtLevel0(v, files, f);
      }
    }
  }

  lemma {:induction false} OneMoreAtLevel0(v: Levels, files: seq<(nat, FileMeta)>, f: FileMeta)
    requires SortedFiles(v[0]) && forall p :: p in files ==> p.0 == 0 && p.1.number < f.number
    requires FreshAt(files, 0, Numbers(v[0])) && f.number !in Numbers(v[0])
    ensures var e, more, last := VersionEdit({}, files), VersionEdit({}, Joined(files, [(0, f)])), FlushEdit(f, 0);
            ApplyEdit(v, more)[0] == ApplyEdit(ApplyEdit(v, e), last)[0]
  {
    hide SaveLevel, AddFiles;
    var e, more, last := VersionEdit({}, files), VersionEdit({}, Joined(files, [(0, f)])), FlushEdit(f, 0);
    var s := ApplyToLevel(EMPTY_STATE, 0, e);
    PendingFiles(files, v[0]);
    assert DeletedAt(e, 0) == {} && DeletedAt(more, 0) == {} && DeletedAt(last, 0) == {};
    AddsOneMore(LevelState({}, []), files, f);
    assert ApplyToLevel(EMPTY_STATE, 0, more) == ApplyToLevel(s, 0, last) by {
      assert {} + DeletedAt(e, 0) == {} && {} + DeletedAt(more, 0) == {} && s.deleted + DeletedAt(last, 0) == s.deleted;
    }
    assert FreshAt(last.newFiles, 0, Numbers(v[0]) + Numbers(s.added));
    ManifestReplay.SaveThenApply(v[0], s, 0, last);
  }

  lemma {:induction false} AddsOneMore(s: LevelState, files: seq<(nat, FileMeta)>, f: FileMeta)
    ensures AddFiles(s, 0, Joined(files, [(0, f)])) == AddFiles(AddFiles(s, 0, files), 0, [(0, f)])
  {
    hide InsertFile;
    var more := Joined(files, [(0, f)]);
    assert more[..|files|] == files && [(0, f)][..0] == [];
    var t := AddFiles(s, 0, files);
    assert AddFiles(t, 0, []) == t;
  }

  /** What the builder holds for level 0 after an edit with files of that level only. */
  lemma {:induction false} PendingFiles(files: seq<(nat, FileMeta)>, base: seq<FileMeta>)
    requires (forall p :: p in files ==> p.0 == 0) && FreshAt(files, 0, Numbers(base))
    ensures var s := ApplyToLevel(EMPTY_STATE, 0, VersionEdit({}, files));
            && SortedFiles(s.added) && Numbers(base) !! Numbers(s.added)
            && forall g :: g in s.added ==> exists p :: p in files && p.1 == g
  {
    hide AddFiles;
    var e := VersionEdit({}, files);
    assert Numbers([]) == {} && FreshAt(files, 0, Numbers([]));
    AddFilesMembers(LevelState({} + DeletedAt(e, 0), []), 0, files);
    var s := ApplyToLevel(EMPTY_STATE, 0, e);
    forall g | g in s.added
      ensures g.number !in Numbers(base)
    {
      assert g in NewAt(files, 0);
      NewIsFresh(files, 0, Numbers(base), g);
    }
  }

  /** One edit with all tables makes the version that one edit for each of them makes. */
  lemma {:induction false} EditIsTables(v: Levels, tables: seq<seq<Entry>>, n: nat, number: nat, size: seq<Entry> -> nat)
    requires n <= |tables| && ManifestReplay.LevelsSorted(v) && NumbersBelow(v, number)
    ensures ApplyEdit(v, VersionEdit({}, TableFiles(tables, n, number, size))) == AfterTables(v, tables, n, number, size)
  {
    hide ApplyEdit, ManifestReplay.LevelsSorted, NumbersBelow, FreshAt, Numbers;
    if n == 0 {
      EmptyEdit(v);
    } else {
      EditIsTables(v, tables, n - 1, number, size);
      if tables[n - 1] != [] {
        var files := TableFiles(tables, n - 1, number, size);
        FreshTables(v, tables, n - 1, number, size);
        OneMoreFile(v, files, TableOf(tables[n - 1], number + n - 1, size(tables[n - 1])));
      }
    }
  }

  lemma {:induction false} FreshTables(v: Levels, tables: seq<seq<Entry>>, n: nat, number: nat, size: seq<Entry> -> nat)
    requires n <= |tables| && NumbersBelow(v, number)
    ensures var files := TableFiles(tables, n, number, size);
            && (forall p :: p in files ==> p.0 == 0 && p.1.number < number + n) && FreshAt(files, 0, Numbers(v[0]))
            && number + n !in Numbers(v[0])
  {
    hide TableFiles;
    TableNumbers(tables, n, number, size);
    var files := TableFiles(tables, n, number, size);
    forall i | 0 <= i < |files|
      ensures files[i].1.number !in Numbers(v[0])
    {
      assert files[i] in files;
    }
  }

  lemma {:induction false} EmptyEdit(v: Levels)
    ensures ApplyEdit(v, VersionEdit({}, [])) == v
  {
    forall level | 0 <= level < NUM_LEVELS
      ensures ApplyEdit(v, VersionEdit({}, []))[level] == v[level]
    {
      OtherLevelStays(v, VersionEdit({}, []), level);
    }
  }
}
