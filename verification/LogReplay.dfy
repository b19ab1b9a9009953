/** Replaying a log: its records are written again, and full memtables become tables of level 0. */
module LogReplay {
  import opened ByteOrder
  import opened DbFormat
  import opened Coding
  import opened Version
  import opened VersionBuilder
  import opened Install
  import opened Database
  import opened WriteBatches
  import opened GroupCommit

  // ----- The writes that the logs hold -----

  /** The first `n` operations at consecutive sequence numbers. */
  function Numbered(ops: seq<WriteOp>, n: nat, sequence: nat): (r: seq<Entry>)
    requires n <= |ops|
    ensures |r| == n
  {
    if n == 0 then [] else Joined(Numbered(ops, n - 1, sequence), [EntryOf(ops[n - 1], sequence + n - 1)])
  }

  /** What the first `n` records wrote. */
  function EntriesOf(log: seq<Record>, n: nat): seq<Entry>
    requires n <= |log|
  {
    if n == 0 then [] else Joined(EntriesOf(log, n - 1), Numbered(log[n - 1].ops, |log[n - 1].ops|, log[n - 1].sequence))
  }

  lemma {:induction false} NumberedOfPrefix(ops: seq<WriteOp>, more: seq<WriteOp>, n: nat, sequence: nat)
    requires n <= |ops| <= |more| && forall i :: 0 <= i < |ops| ==> more[i] == ops[i]
    ensures Numbered(more, n, sequence) == Numbered(ops, n, sequence)
  {
    hide EntryOf;
    if n > 0 {
      NumberedOfPrefix(ops, more, n - 1, sequence);
    }
  }

  lemma {:induction false} NumberedAt(ops: seq<WriteOp>, n: nat, sequence: nat, i: nat)
    requires i < n <= |ops|
    ensures Numbered(ops, n, sequence)[i].key.sequence == sequence + i
  {
    if i < n - 1 {
      NumberedAt(ops, n - 1, sequence, i);
    }
  }

  lemma {:induction false} EntriesOfPrefix(log: seq<Record>, more: seq<Record>, n: nat)
    requires n <= |log| && n <= |more| && forall i :: 0 <= i < n ==> more[i] == log[i]
    ensures EntriesOf(more, n) == EntriesOf(log, n)
  {
    hide Numbered;
    if n > 0 {
      EntriesOfPrefix(log, more, n - 1);
    }
  }

  /** The writes of a log carry the numbers from `started` on. */
  lemma {:induction false} EntriesAreNumbered(log: seq<Record>, n: nat, started: nat)
    requires n <= |log| && forall j: nat :: j < n ==> RecordOk(log, j, started)
    ensures started + |EntriesOf(log, n)| == SequenceAfter(log, n, started)
    ensures forall i: nat :: i < |EntriesOf(log, n)| ==> EntriesOf(log, n)[i].key.sequence == started + 1 + i
  {
    hide Numbered, GroupOps, OpFits;
    if n > 0 {
      EntriesAreNumbered(log, n - 1, started);
      var before, r := EntriesOf(log, n - 1), log[n - 1];
      assert RecordOk(log, n - 1, started);
      forall i: nat | i < |EntriesOf(log, n)|
        ensures EntriesOf(log, n)[i].key.sequence == started + 1 + i
      {
        if i >= |before| { NumberedAt(r.ops, |r.ops|, r.sequence, i - |before|); }
      }
    }
  }

  lemma {:induction false} WriteAllHistory(d: DbState, ops: seq<WriteOp>)
    ensures WriteAll(d, ops).history == Joined(d.history, Numbered(ops, |ops|, d.lastSequence + 1))
    ensures WriteAll(d, ops).lastSequence == d.lastSequence + |ops|
    decreases |ops|
  {
    hide AddToMem, EntryOf;
    if ops == [] {
      JoinedNothing(d.history);
    } else {
      var n := |ops| - 1;
      WriteAllHistory(d, ops[..n]);
      NumberedOfPrefix(ops[..n], ops, n, d.lastSequence + 1);
      JoinedAssociates(d.history, Numbered(ops, n, d.lastSequence + 1), [EntryOf(ops[n], d.lastSequence + 1 + n)]);
    }
  }

  lemma {:induction false} WriteAllEntries(d: DbState, ops: seq<WriteOp>)
    requires Order(d) && d.lastSequence + |ops| < MAX_SEQUENCE_NUMBER
    ensures AllEntries(WriteAll(d, ops)) == AllEntries(d) + Elements(Numbered(ops, |ops|, d.lastSequence + 1))
    decreases |ops|
  {
    hide Order, AddToMem, EntryOf, AllEntries;
    if ops == [] {
      assert Elements([]) == {};
    } else {
      var n := |ops| - 1;
      var e := WriteAll(d, ops[..n]);
      WriteAllEntries(d, ops[..n]);
      WriteAllKeepsOrder(d, ops[..n]);
      NumberedOfPrefix(ops[..n], ops, n, d.lastSequence + 1);
      OneMoreEntry(e, ops[n]);
      ElementsJoined(Numbered(ops, n, d.lastSequence + 1), [EntryOf(ops[n], d.lastSequence + 1 + n)]);
      assert Elements([EntryOf(ops[n], d.lastSequence + 1 + n)]) == {EntryOf(ops[n], d.lastSequence + 1 + n)};
    }
  }

  lemma OneMoreEntry(d: DbState, op: WriteOp)
    requires Order(d)
    ensures AllEntries(WriteOne(d, op)) == AllEntries(d) + {EntryOf(op, d.lastSequence + 1)}
  {
    WriteOneEntries(d, op);
  }

  lemma {:induction false} ElementsJoined(a: seq<Entry>, b: seq<Entry>)
    ensures Elements(Joined(a, b)) == Elements(a) + Elements(b)
  {
  }

  // ----- One record -----

  /** Sequence numbers that were given out and lost are not given out again. */
  ghost function SkipTo(d: DbState, n: nat): DbState {
    if n <= d.lastSequence then d else d.(lastSequence := n)
  }

  function TableOf(mem: seq<Entry>, number: nat, size: nat): FileMeta
    requires mem != []
  {
    FileMeta(number, size, mem[0].key, mem[|mem| - 1].key, mem)
  }

  /** WriteLevel0Table: the memtable becomes a table of level 0; an empty one only uses up a file number. */
  ghost function Dump(d: DbState, size: nat): DbState {
    if d.mem == [] then d.(nextFileNumber := d.nextFileNumber + 1)
    else d.(mem := [], nextFileNumber := d.nextFileNumber + 1,
            version := ApplyEdit(d.version, FlushEdit(TableOf(d.mem, d.nextFileNumber, size), 0)))
  }

  lemma {:induction false} DumpIsFlush(d: DbState, size: nat)
    requires d.imm.None?
    ensures Dump(d, size) == Do(Do(d, SwitchMemtable), Flush(0, size))
  {
  }

  function FirstOf(r: Record): nat {
    if r.sequence > 0 then r.sequence - 1 else 0
  }

  ghost function Insert(d: DbState, r: Record): DbState {
    WriteAll(SkipTo(d, FirstOf(r)), r.ops)
  }

  lemma {:induction false} SkipKeeps(d: DbState, n: nat)
    requires Order(d) && n < MAX_SEQUENCE_NUMBER
    ensures Order(SkipTo(d, n)) && AllEntries(SkipTo(d, n)) == AllEntries(d)
    ensures forall user, m :: FaithfulFrom(d, user, m) ==> FaithfulFrom(SkipTo(d, n), user, m)
  {
    var w := SkipTo(d, n);
    assert Memory(w) == Memory(d) && AllEntries(w) == AllEntries(d);
  }

  /** All that a step of recovery says of the state before and after it. */
  ghost predicate Grows(d: DbState, w: DbState, written: seq<Entry>) {
    && Order(w) && w.imm.None?
    && AllEntries(w) == AllEntries(d) + Elements(written)
    && w.history == Joined(d.history, written)
    && w.snapshots == d.snapshots && w.horizon == d.horizon && w.nextFileNumber >= d.nextFileNumber
    && forall user, m :: FaithfulFrom(d, user, m) ==> FaithfulFrom(w, user, m)
  }

  lemma {:induction false} InsertGrows(d: DbState, r: Record)
    requires Order(d) && d.imm.None? && d.lastSequence < r.sequence && r.sequence + |r.ops| <= MAX_SEQUENCE_NUMBER
    ensures Grows(d, Insert(d, r), Numbered(r.ops, |r.ops|, r.sequence))
    ensures Insert(d, r).lastSequence == r.sequence + |r.ops| - 1
    ensures Insert(d, r).mem == AddAll(d.mem, r.ops, |r.ops|, r.sequence)
    ensures Insert(d, r).version == d.version && Insert(d, r).nextFileNumber == d.nextFileNumber
  {
    hide Order, AllEntries, FaithfulFrom, AddAll, Numbered, WriteAll;
    var e := SkipTo(d, FirstOf(r));
    SkipKeeps(d, FirstOf(r));
    WriteAllKeepsOrder(e, r.ops);
    WriteAllEntries(e, r.ops);
    WriteAllHistory(e, r.ops);
    WriteAllInserts(e, r.ops);
    forall user, m | FaithfulFrom(d, user, m)
      ensures FaithfulFrom(WriteAll(e, r.ops), user, m)
    {
      WriteAllKeepsReads(e, r.ops, user, m);
    }
  }

  lemma {:induction false} DumpGrows(d: DbState, size: nat)
    requires Order(d) && d.imm.None?
    ensures Grows(d, Dump(d, size), []) && Dump(d, size).mem == [] && Dump(d, size).lastSequence == d.lastSequence
  {
    hide Order, AllEntries, FaithfulFrom, ApplyEdit;
    var e := Do(d, SwitchMemtable);
    DumpIsFlush(d, size);
    SwitchMovesEntries(d);
    FlushMovesEntries(e, 0, size);
    JoinedNothing(d.history);
    assert Elements([]) == {} && AllEntries(d) + {} == AllEntries(d);
    forall user, m | FaithfulFrom(d, user, m)
      ensures FaithfulFrom(Dump(d, size), user, m)
    {
      SameEntriesSameReads(d, e, user, m);
      SameEntriesSameReads(e, Dump(d, size), user, m);
    }
  }

  lemma {:induction false} GrowsOn(d: DbState, e: DbState, w: DbState, a: seq<Entry>, b: seq<Entry>)
    requires Grows(d, e, a) && Grows(e, w, b)
    ensures Grows(d, w, Joined(a, b))
  {
    hide Order, AllEntries, FaithfulFrom;
    JoinedAssociates(d.history, a, b);
    ElementsJoined(a, b);
    assert AllEntries(d) + Elements(a) + Elements(b) == AllEntries(d) + (Elements(a) + Elements(b));
  }

  lemma {:induction false} GrowsByNothing(d: DbState)
    requires Order(d) && d.imm.None?
    ensures Grows(d, d, [])
  {
    hide Order, AllEntries, FaithfulFrom;
    JoinedNothing(d.history);
    assert Elements([]) == {} && AllEntries(d) + {} == AllEntries(d);
  }

  // ----- A whole log -----

  /** When the memtable counts as full, and how large the table of a memtable is. */
  datatype Policy = Policy(full: seq<Entry> -> bool, size: seq<Entry> -> nat)

  ghost function ReplayOne(d: DbState, r: Record, p: Policy): DbState {
    var e := Insert(d, r);
    if p.full(e.mem) then Dump(e, p.size(e.mem)) else e
  }

  ghost function Replay(d: DbState, log: seq<Record>, n: nat, p: Policy): DbState
    requires n <= |log|
  {
    if n == 0 then d else ReplayOne(Replay(d, log, n - 1, p), log[n - 1], p)
  }

  /** A memtable is left over at the end of the log. */
  ghost predicate Pending(d: DbState, log: seq<Record>, n: nat, p: Policy)
    requires n <= |log|
  {
    n > 0 && !p.full(Insert(Replay(d, log, n - 1, p), log[n - 1]).mem)
  }

  ghost function ReplayLog(d: DbState, log: seq<Record>, n: nat, p: Policy): DbState
    requires n <= |log|
  {
    var e := Replay(d, log, n, p);
    if Pending(d, log, n, p) then Dump(e, p.size(e.mem)) else e
  }

  lemma {:induction false} ReplayOneGrows(d: DbState, r: Record, p: Policy)
    requires Order(d) && d.imm.None? && d.lastSequence < r.sequence && r.sequence + |r.ops| <= MAX_SEQUENCE_NUMBER
    ensures Grows(d, ReplayOne(d, r, p), Numbered(r.ops, |r.ops|, r.sequence))
    ensures ReplayOne(d, r, p).lastSequence == r.sequence + |r.ops| - 1
    ensures p.full(Insert(d, r).mem) ==> ReplayOne(d, r, p).mem == []
  {
    hide Order, AllEntries, FaithfulFrom, Numbered, Insert, Dump, AddAll;
    var e, written := Insert(d, r), Numbered(r.ops, |r.ops|, r.sequence);
    InsertGrows(d, r);
    if p.full(e.mem) {
      DumpGrows(e, p.size(e.mem));
      GrowsOn(d, e, Dump(e, p.size(e.mem)), written, []);
      JoinedNothing(written);
    }
  }

  lemma {:induction false} NextSequence(log: seq<Record>, n: nat, started: nat)
    requires n < |log| && RecordOk(log, n, started)
    ensures SequenceAfter(log, n + 1, started) == log[n].sequence + |log[n].ops| - 1
    ensures started < log[n].sequence == SequenceAfter(log, n, started) + 1
  {
    StartsAt(log, n, started);
  }

  lemma {:induction false} StartsAt(log: seq<Record>, n: nat, started: nat)
    requires n <= |log|
    ensures started <= SequenceAfter(log, n, started)
  {
    if n > 0 {
      StartsAt(log, n - 1, started);
    }
  }

  /** Replaying adds exactly what the log holds, in order, and disturbs nothing. */
  lemma {:induction false} ReplayGrows(d: DbState, log: seq<Record>, n: nat, p: Policy, started: nat)
    requires Order(d) && d.imm.None? && d.lastSequence <= started && n <= |log|
    requires (forall j: nat :: j < n ==> RecordOk(log, j, started)) && SequenceAfter(log, n, started) < MAX_SEQUENCE_NUMBER
    ensures Grows(d, Replay(d, log, n, p), EntriesOf(log, n))
    ensures Replay(d, log, n, p).lastSequence == if n == 0 then d.lastSequence else SequenceAfter(log, n, started)
  {
    hide Order, AllEntries, FaithfulFrom, Numbered, ReplayOne, RecordOk, SequenceAfter;
    if n == 0 {
      GrowsByNothing(d);
    } else {
      assert RecordOk(log, n - 1, started);
      NextSequence(log, n - 1, started);
      ReplayGrows(d, log, n - 1, p, started);
      var e := Replay(d, log, n - 1, p);
      ReplayOneGrows(e, log[n - 1], p);
      GrowsOn(d, e, Replay(d, log, n, p), EntriesOf(log, n - 1), Numbered(log[n - 1].ops, |log[n - 1].ops|, log[n - 1].sequence));
    }
  }

  lemma {:induction false} ReplayLogGrows(d: DbState, log: seq<Record>, n: nat, p: Policy, started: nat)
    requires Order(d) && d.imm.None? && d.mem == [] && d.lastSequence <= started && n <= |log|
    requires (forall j: nat :: j < n ==> RecordOk(log, j, started)) && SequenceAfter(log, n, started) < MAX_SEQUENCE_NUMBER
    ensures Grows(d, ReplayLog(d, log, n, p), EntriesOf(log, n)) && ReplayLog(d, log, n, p).mem == []
    ensures ReplayLog(d, log, n, p).lastSequence == if n == 0 then d.lastSequence else SequenceAfter(log, n, started)
  {
    hide Order, AllEntries, FaithfulFrom, EntriesOf, Dump, RecordOk, SequenceAfter, Insert, Grows;
    ReplayGrows(d, log, n, p, started);
    var e := Replay(d, log, n, p);
    GrownIsInOrder(d, e, EntriesOf(log, n));
    if Pending(d, log, n, p) {
      DumpGrows(e, p.size(e.mem));
      GrowsOn(d, e, Dump(e, p.size(e.mem)), EntriesOf(log, n), []);
      JoinedNothing(EntriesOf(log, n));
    } else if n > 0 {
      LastIsDumped(d, log, n, p);
    }
  }

  lemma {:induction false} LastIsDumped(d: DbState, log: seq<Record>, n: nat, p: Policy)
    requires 0 < n <= |log| && !Pending(d, log, n, p)
    ensures Replay(d, log, n, p).mem == []
  {
    hide Insert;
  }

  lemma {:induction false} GrownIsInOrder(d: DbState, w: DbState, written: seq<Entry>)
    requires Grows(d, w, written)
    ensures Order(w) && w.imm.None?
  {
  }

  // ----- The tables that a log leaves behind -----

  /** The memtables written out so far, and the one being filled, if there is one. */
  datatype Rebuilt = Rebuilt(tables: seq<seq<Entry>>, mem: Option<seq<Entry>>)

  function MemOrNone(t: Rebuilt): seq<Entry> {
    if t.mem.Some? then t.mem.value else []
  }

  function TakeRecord(t: Rebuilt, r: Record, full: seq<Entry> -> bool): Rebuilt {
    var mem := AddAll(MemOrNone(t), r.ops, |r.ops|, r.sequence);
    if full(mem) then Rebuilt(t.tables + [mem], None) else Rebuilt(t.tables, Some(mem))
  }

  function TakeRecords(log: seq<Record>, n: nat, full: seq<Entry> -> bool): Rebuilt
    requires n <= |log|
  {
    if n == 0 then Rebuilt([], None) else TakeRecord(TakeRecords(log, n - 1, full), log[n - 1], full)
  }

  function AllTables(t: Rebuilt): seq<seq<Entry>> {
    if t.mem.Some? then t.tables + [t.mem.value] else t.tables
  }

  /** The entries of all tables together. */
  ghost function TableEntries(tables: seq<seq<Entry>>, n: nat): set<Entry>
    requires n <= |tables|
  {
    if n == 0 then {} else TableEntries(tables, n - 1) + Elements(tables[n - 1])
  }

  lemma {:induction false} TablesOfPrefix(tables: seq<seq<Entry>>, more: seq<seq<Entry>>, n: nat)
    requires n <= |tables| <= |more| && forall i :: 0 <= i < |tables| ==> more[i] == tables[i]
    ensures TableEntries(more, n) == TableEntries(tables, n)
  {
    if n > 0 {
      TablesOfPrefix(tables, more, n - 1);
    }
  }

  lemma {:induction false} AddAllMembers(mem: seq<Entry>, ops: seq<WriteOp>, n: nat, sequence: nat)
    requires n <= |ops|
    ensures Elements(AddAll(mem, ops, n, sequence)) == Elements(mem) + Elements(Numbered(ops, n, sequence))
  {
    hide AddToMem, EntryOf;
    if n == 0 {
      assert Elements([]) == {} && Elements(mem) + {} == Elements(mem);
    } else {
      AddAllMembers(mem, ops, n - 1, sequence);
      var e := EntryOf(ops[n - 1], sequence + n - 1);
      AddToMemMembers(AddAll(mem, ops, n - 1, sequence), e);
      ElementsJoined(Numbered(ops, n - 1, sequence), [e]);
      assert Elements([e]) == {e};
    }
  }

  ghost function RebuiltEntries(t: Rebuilt): set<Entry> {
    TableEntries(t.tables, |t.tables|) + Elements(MemOrNone(t))
  }

  lemma {:induction false} RecordAdds(t: Rebuilt, r: Record, full: seq<Entry> -> bool)
    ensures RebuiltEntries(TakeRecord(t, r, full)) == RebuiltEntries(t) + Elements(Numbered(r.ops, |r.ops|, r.sequence))
  {
    hide AddAll, Numbered, Elements;
    var mem := AddAll(MemOrNone(t), r.ops, |r.ops|, r.sequence);
    AddAllMembers(MemOrNone(t), r.ops, |r.ops|, r.sequence);
    if full(mem) {
      TablesOfPrefix(t.tables, t.tables + [mem], |t.tables|);
      NoElements();
    }
  }

  lemma NoElements()
    ensures Elements([]) == {}
  {
  }

  /** Wherever memtables are written out, together they hold what the log holds. */
  lemma {:induction false} TablesHoldLog(log: seq<Record>, n: nat, full: seq<Entry> -> bool)
    requires n <= |log|
    ensures RebuiltEntries(TakeRecords(log, n, full)) == Elements(EntriesOf(log, n))
  {
    hide AddAll, Numbered, Elements, TakeRecord;
    if n == 0 {
      NoElements();
    } else {
      TablesHoldLog(log, n - 1, full);
      RecordAdds(TakeRecords(log, n - 1, full), log[n - 1], full);
      ElementsJoined(EntriesOf(log, n - 1), Numbered(log[n - 1].ops, |log[n - 1].ops|, log[n - 1].sequence));
    }
  }

  /** The files of the tables, at consecutive file numbers; empty tables leave none. */
  function TableFiles(tables: seq<seq<Entry>>, n: nat, number: nat, size: seq<Entry> -> nat): seq<(nat, FileMeta)>
    requires n <= |tables|
  {
    if n == 0 then []
    else
      var files := TableFiles(tables, n - 1, number, size);
      if tables[n - 1] == [] then files else Joined(files, [(0, TableOf(tables[n - 1], number + n - 1, size(tables[n - 1])))])
  }

  /** The version with one table more of level 0 after the other. */
  ghost function AfterTables(v: Levels, tables: seq<seq<Entry>>, n: nat, number: nat, size: seq<Entry> -> nat): Levels
    requires n <= |tables|
  {
    if n == 0 then v
    else
      var w := AfterTables(v, tables, n - 1, number, size);
      if tables[n - 1] == [] then w else ApplyEdit(w, FlushEdit(TableOf(tables[n - 1], number + n - 1, size(tables[n - 1])), 0))
  }

  lemma {:induction false} AfterTablesOfPrefix(v: Levels, tables: seq<seq<Entry>>, more: seq<seq<Entry>>, n: nat, number: nat, size: seq<Entry> -> nat)
    requires n <= |tables| <= |more| && forall i :: 0 <= i < |tables| ==> more[i] == tables[i]
    ensures AfterTables(v, more, n, number, size) == AfterTables(v, tables, n, number, size)
  {
    hide ApplyEdit, TableOf;
    if n > 0 {
      AfterTablesOfPrefix(v, tables, more, n - 1, number, size);
    }
  }

  lemma AfterNoTables(v: Levels, number: nat, size: seq<Entry> -> nat)
    ensures AfterTables(v, [], 0, number, size) == v
  {
  }

  ghost predicate Matches(d: DbState, e: DbState, t: Rebuilt, p: Policy) {
    && e.mem == MemOrNone(t) && e.nextFileNumber == d.nextFileNumber + |t.tables|
    && e.version == AfterTables(d.version, t.tables, |t.tables|, d.nextFileNumber, p.size)
  }

  lemma {:induction false} DumpMatches(d: DbState, e: DbState, tables: seq<seq<Entry>>, p: Policy)
    requires e.nextFileNumber == d.nextFileNumber + |tables|
    requires e.version == AfterTables(d.version, tables, |tables|, d.nextFileNumber, p.size)
    ensures Matches(d, Dump(e, p.size(e.mem)), Rebuilt(tables + [e.mem], None), p)
  {
    hide ApplyEdit;
    var more := tables + [e.mem];
    AfterTablesOfPrefix(d.version, tables, more, |tables|, d.nextFileNumber, p.size);
  }

  /** Replaying the log on a database does to its version what the tables do. */
  lemma {:induction false} ReplayMatches(d: DbState, log: seq<Record>, n: nat, p: Policy, started: nat)
    requires Order(d) && d.imm.None? && d.mem == [] && d.lastSequence <= started && n <= |log|
    requires (forall j: nat :: j < n ==> RecordOk(log, j, started)) && SequenceAfter(log, n, started) < MAX_SEQUENCE_NUMBER
    ensures Matches(d, Replay(d, log, n, p), TakeRecords(log, n, p.full), p)
    ensures Pending(d, log, n, p) <==> TakeRecords(log, n, p.full).mem.Some?
  {
    hide Order, RecordOk, SequenceAfter, Insert, AddAll, Grows, Dump, ApplyEdit, AfterTables;
    if n == 0 {
      AfterNoTables(d.version, d.nextFileNumber, p.size);
    } else {
      assert RecordOk(log, n - 1, started);
      NextSequence(log, n - 1, started);
      ReplayMatches(d, log, n - 1, p, started);
      ReplayGrows(d, log, n - 1, p, started);
      var e, t, r := Replay(d, log, n - 1, p), TakeRecords(log, n - 1, p.full), log[n - 1];
      GrownIsInOrder(d, e, EntriesOf(log, n - 1));
      InsertGrows(e, r);
      if p.full(Insert(e, r).mem) {
        DumpMatches(d, Insert(e, r), t.tables, p);
      }
    }
  }

  lemma {:induction false} ReplayLogMatches(d: DbState, log: seq<Record>, n: nat, p: Policy, started: nat)
    requires Order(d) && d.imm.None? && d.mem == [] && d.lastSequence <= started && n <= |log|
    requires (forall j: nat :: j < n ==> RecordOk(log, j, started)) && SequenceAfter(log, n, started) < MAX_SEQUENCE_NUMBER
    ensures var w, tables := ReplayLog(d, log, n, p), AllTables(TakeRecords(log, n, p.full));
            && w.version == AfterTables(d.version, tables, |tables|, d.nextFileNumber, p.size)
            && w.nextFileNumber == d.nextFileNumber + |tables|
  {
    hide Order, RecordOk, SequenceAfter, Dump, ApplyEdit, AfterTables, Replay, TakeRecords, Pending;
    ReplayMatches(d, log, n, p, started);
    var e, t := Replay(d, log, n, p), TakeRecords(log, n, p.full);
    if Pending(d, log, n, p) {
      DumpMatches(d, e, t.tables, p);
    }
  }
}
