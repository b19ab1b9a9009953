/** The writer and the reader of a log file. */
module LogFile {
  import opened ByteOrder
  import opened DbFormat
  import opened Coding
  import opened LogFormat

  // ----- The checksum of the format: a masked CRC -----

  const MASK_DELTA: Word := 0xa282ead8

  /** Rotated right by 15 bits, plus a constant, in 32 bits. */
  function Mask(crc: Word): Word {
    (crc / 0x8000 + crc % 0x8000 * 0x2_0000 + MASK_DELTA) % 0x1_0000_0000
  }

  function Unmask(masked: Word): Word {
    var rot := (masked + 0x1_0000_0000 - MASK_DELTA) % 0x1_0000_0000;
    rot / 0x2_0000 + rot % 0x2_0000 * 0x8000
  }

  lemma UnmaskMask(crc: Word)
    ensures Unmask(Mask(crc)) == crc
  {
    var rot := crc / 0x8000 + crc % 0x8000 * 0x2_0000;
    assert rot % 0x2_0000 == crc / 0x8000;
    assert rot / 0x2_0000 == crc % 0x8000;
  }

  /** `crc` is the CRC of the type byte followed by the payload. */
  function MaskedCrc(crc: (Byte, Bytes) -> Word): Checksum {
    Checksum(
      (kind: Byte, payload: Bytes) => EncodeFixed32(Mask(crc(kind, payload))),
      (stamp: Fixed32, kind: Byte, payload: Bytes) => Unmask(DecodeFixed32(stamp)) == crc(kind, payload))
  }

  lemma MaskedCrcAcceptsOwn(crc: (Byte, Bytes) -> Word)
    ensures AcceptsOwn(MaskedCrc(crc))
  {
    forall kind, payload
      ensures MaskedCrc(crc).accepts(MaskedCrc(crc).stamp(kind, payload), kind, payload)
    {
      UnmaskMask(crc(kind, payload));
      DecodeEncodeFixed32(Mask(crc(kind, payload)));
    }
  }

  // ----- The writer -----

  /** A full block and a new one are written to in the same way. */
  lemma OffsetWraps(sum: Checksum, offset: nat, data: Bytes)
    requires offset <= BLOCK_SIZE
    ensures EncodeRecord(sum, offset, data, 0, true) == EncodeRecord(sum, offset % 32768, data, 0, true)
  {
    if offset < 32768 {
      assert offset % 32768 == offset;
    } else {
      assert offset == 32768 && offset % 32768 == 0;
    }
  }

  lemma {:induction false} EarlierRecordsOnly(sum: Checksum, records: seq<Bytes>, r: Bytes, n: nat)
    requires n <= |records|
    ensures EncodeLog(sum, records + [r], n) == EncodeLog(sum, records, n)
  {
    if n > 0 {
      EarlierRecordsOnly(sum, records, r, n - 1);
    }
  }

  class Writer {
    const sum: Checksum
    var dest: Bytes
    var blockOffset: nat
    ghost var written: seq<Bytes>

    ghost predicate Valid()
      reads this
    {
      && blockOffset <= BLOCK_SIZE && blockOffset % 32768 == |dest| % 32768
      && dest == EncodeLog(sum, written, |written|)
    }

    constructor (sum: Checksum)
      ensures Valid() && this.sum == sum && dest == [] && written == []
    {
      this.sum := sum;
      dest, blockOffset, written := [], 0, [];
    }

    /** Goes on with a log that an earlier writer left. */
    constructor Reopen(sum: Checksum, dest: Bytes, ghost written: seq<Bytes>)
      requires dest == EncodeLog(sum, written, |written|)
      ensures Valid() && this.sum == sum && this.dest == dest && this.written == written
    {
      this.sum := sum;
      this.dest, blockOffset, this.written := dest, |dest| % 32768, written;
    }

    method AddRecord(slice: Bytes)
      requires Valid()
      modifies this
      ensures Valid() && written == old(written) + [slice]
      ensures dest == Joined(old(dest), EncodeRecord(sum, |old(dest)| % 32768, slice, 0, true))
    {
      OffsetWraps(sum, blockOffset, slice);
      EarlierRecordsOnly(sum, written, slice, |written|);
      AppendFragments(slice);
      written := written + [slice];
    }

    /** The do-while loop: one fragment a round, at least one round. */
    method AppendFragments(slice: Bytes)
      requires blockOffset <= BLOCK_SIZE && blockOffset % 32768 == |dest| % 32768
      modifies this`dest, this`blockOffset
      ensures blockOffset <= BLOCK_SIZE && blockOffset % 32768 == |dest| % 32768
      ensures dest == Joined(old(dest), EncodeRecord(sum, old(blockOffset), slice, 0, true))
    {
      var ptr, begin, more := 0, true, true;
      ghost var goal := Joined(dest, EncodeRecord(sum, blockOffset, slice, 0, true));
      while more
        invariant ptr <= |slice| && blockOffset <= BLOCK_SIZE && blockOffset % 32768 == |dest| % 32768
        invariant goal == if more then Joined(dest, EncodeRecord(sum, blockOffset, slice, ptr, begin)) else dest
        decreases more, |slice| - ptr, if blockOffset == BLOCK_SIZE - HEADER_SIZE then 1 else 0
      {
        ptr := AppendFragment(slice, ptr, begin);
        begin := false;
        more := ptr < |slice|;
      }
    }

    method AppendFragment(slice: Bytes, start: nat, begin: bool) returns (ptr: nat)
      requires blockOffset <= BLOCK_SIZE && blockOffset % 32768 == |dest| % 32768 && start <= |slice|
      modifies this`dest, this`blockOffset
      ensures blockOffset <= BLOCK_SIZE && blockOffset % 32768 == |dest| % 32768
      ensures start <= ptr <= |slice|
      ensures start == ptr < |slice| ==> old(blockOffset) == BLOCK_SIZE - HEADER_SIZE && blockOffset == BLOCK_SIZE
      ensures old(Joined(dest, EncodeRecord(sum, blockOffset, slice, start, begin))) ==
              if ptr < |slice| then Joined(dest, EncodeRecord(sum, blockOffset, slice, ptr, false)) else dest
    {
      hide EncodeRecord, EncodeFragment, Joined;
      SwitchBlock(slice, start, begin);
      var available := BLOCK_SIZE - blockOffset - HEADER_SIZE;
      var left := |slice| - start;
      var fragmentLength := if left < available then left else available;
      var end := left == fragmentLength;
      var kind := if begin && end then FULL_TYPE else if begin then FIRST_TYPE else if end then LAST_TYPE else MIDDLE_TYPE;
      FragmentIsNext(sum, dest, blockOffset, slice, start, begin);
      EmitPhysicalRecord(kind, slice[start..start + fragmentLength]);
      ptr := start + fragmentLength;
    }

    /** Zeros where no header fits. */
    method SwitchBlock(ghost slice: Bytes, ghost ptr: nat, ghost begin: bool)
      requires blockOffset <= BLOCK_SIZE && blockOffset % 32768 == |dest| % 32768 && ptr <= |slice|
      modifies this`dest, this`blockOffset
      ensures blockOffset <= BLOCK_SIZE - HEADER_SIZE && blockOffset % 32768 == |dest| % 32768
      ensures blockOffset == old(blockOffset) || (blockOffset == 0 && old(blockOffset) != BLOCK_SIZE - HEADER_SIZE)
      ensures Joined(dest, EncodeRecord(sum, blockOffset, slice, ptr, begin)) ==
              old(Joined(dest, EncodeRecord(sum, blockOffset, slice, ptr, begin)))
    {
      var leftover := BLOCK_SIZE - blockOffset;
      if leftover < HEADER_SIZE {
        if leftover > 0 {
          TrailerIsNext(sum, dest, blockOffset, slice, ptr, begin);
          dest := dest + Zeros(leftover);
        }
        blockOffset := 0;
      }
    }

    method EmitPhysicalRecord(kind: Byte, payload: Bytes)
      requires blockOffset + HEADER_SIZE + |payload| <= BLOCK_SIZE && blockOffset % 32768 == |dest| % 32768
      modifies this`dest, this`blockOffset
      ensures dest == Joined(old(dest), EncodeFragment(sum, kind, payload))
      ensures blockOffset == old(blockOffset) + HEADER_SIZE + |payload| && blockOffset % 32768 == |dest| % 32768
    {
      var s := sum.stamp(kind, payload);
      var buf := [s.b0, s.b1, s.b2, s.b3, |payload| % 0x100, |payload| / 0x100, kind];
      assert buf + payload == EncodeFragment(sum, kind, payload);
      JoinedAgain(dest, buf, payload);
      dest := dest + buf;
      dest := dest + payload;
      blockOffset := blockOffset + HEADER_SIZE + |payload|;
    }
  }

  lemma TrailerIsNext(sum: Checksum, dest: Bytes, offset: nat, slice: Bytes, ptr: nat, begin: bool)
    requires BLOCK_SIZE - HEADER_SIZE < offset < BLOCK_SIZE && ptr <= |slice|
    ensures Joined(dest, EncodeRecord(sum, offset, slice, ptr, begin)) ==
            Joined(Joined(dest, Zeros(BLOCK_SIZE - offset)), EncodeRecord(sum, 0, slice, ptr, begin))
  {
  }

  lemma FragmentIsNext(sum: Checksum, dest: Bytes, offset: nat, slice: Bytes, ptr: nat, begin: bool)
    requires offset <= BLOCK_SIZE - HEADER_SIZE && ptr <= |slice|
    ensures var n := FragmentLength(offset, |slice| - ptr);
            var dest' := Joined(dest, EncodeFragment(sum, KindOf(begin, ptr + n == |slice|), slice[ptr..ptr + n]));
            Joined(dest, EncodeRecord(sum, offset, slice, ptr, begin)) ==
            if ptr + n == |slice| then dest'
            else Joined(dest', EncodeRecord(sum, offset + HEADER_SIZE + n, slice, ptr + n, false))
  {
  }

  // ----- The reader -----

  class Reader {
    const sum: Checksum
    const file: Bytes
    var filePos: nat                 // what has been read into `buffer` so far
    var buffer: Bytes
    var eof: bool
    var reports: seq<Drop>

    ghost function Position(): nat
      reads this
      requires |buffer| <= filePos
    {
      filePos - |buffer|
    }

    ghost predicate Valid()
      reads this
    {
      && |buffer| <= filePos <= |file| && buffer == file[filePos - |buffer|..filePos]
      && if eof then filePos == |file| && |buffer| <= |file| % 32768
         else filePos % 32768 == 0 && |buffer| <= BLOCK_SIZE
    }

    constructor (sum: Checksum, file: Bytes)
      ensures Valid() && this.sum == sum && this.file == file && Position() == 0 && reports == []
    {
      this.sum, this.file := sum, file;
      filePos, buffer, eof, reports := 0, [], false, [];
    }

    lemma BufferEndsBlock()
      requires Valid()
      ensures |buffer| > 0 || eof ==> BlockEnd(|file|, Position()) == filePos
      ensures eof ==> BlockEnd(|file|, Position()) == |file|
    {
    }

    method ReadPhysicalRecord() returns (kind: Byte, fragment: Bytes)
      requires Valid()
      modifies this
      ensures Valid()
      ensures var f := PhysicalAt(sum, file, old(Position()));
              kind == f.kind && fragment == f.payload && Position() == f.next && reports == old(reports) + f.drops
    {
      while |buffer| < HEADER_SIZE
        invariant Valid() && reports == old(reports)
        invariant PhysicalAt(sum, file, Position()) == PhysicalAt(sum, file, old(Position()))
        decreases |file| - filePos + if eof then 0 else 1
      {
        BufferEndsBlock();
        if !eof {
          ReadBlock();
        } else {
          buffer := [];
          return END_OF_FILE, [];
        }
      }
      BufferEndsBlock();
      kind, fragment := ParseBuffer();
    }

    /** Drops a trailer and reads the next block. */
    method ReadBlock()
      requires Valid() && !eof && |buffer| < HEADER_SIZE
      modifies this`buffer, this`filePos, this`eof
      ensures Valid() && filePos >= old(filePos) && (eof || filePos > old(filePos))
      ensures PhysicalAt(sum, file, Position()) == PhysicalAt(sum, file, old(Position()))
    {
      hide ParseAt;
      BufferEndsBlock();
      var n := if |file| - filePos < BLOCK_SIZE then |file| - filePos else BLOCK_SIZE;
      buffer := file[filePos..filePos + n];
      filePos := filePos + n;
      if n < BLOCK_SIZE {
        eof := true;
      }
    }

    /** The part of ReadPhysicalRecord after the header is in the buffer. */
    method ParseBuffer() returns (kind: Byte, fragment: Bytes)
      requires Valid() && |buffer| >= HEADER_SIZE && BlockEnd(|file|, Position()) == filePos
      modifies this`buffer, this`reports
      ensures Valid()
      ensures var f := ParseAt(sum, file, old(Position()), filePos);
              kind == f.kind && fragment == f.payload && Position() == f.next && reports == old(reports) + f.drops
    {
      ghost var p := Position();
      assert forall i :: 0 <= i < |buffer| ==> buffer[i] == file[p + i];
      var length := buffer[4] as int + buffer[5] as int * 0x100;
      kind, fragment := buffer[6], [];
      if HEADER_SIZE + length > |buffer| {
        var dropSize := |buffer|;
        buffer := [];
        if !eof {
          reports := reports + [Drop(dropSize, BadLength)];
          return BAD_RECORD, [];
        }
        return END_OF_FILE, [];
      }
      if kind == ZERO_TYPE && length == 0 {
        buffer := [];
        return BAD_RECORD, [];
      }
      var payload := buffer[HEADER_SIZE..HEADER_SIZE + length];
      assert payload == file[p + HEADER_SIZE..p + HEADER_SIZE + length];
      if !sum.accepts(Fixed32(buffer[0], buffer[1], buffer[2], buffer[3]), kind, payload) {
        var dropSize := |buffer|;
        buffer := [];
        reports := reports + [Drop(dropSize, BadChecksum)];
        return BAD_RECORD, [];
      }
      buffer := buffer[HEADER_SIZE + length..];
      fragment := payload;
    }

    /** The next record, put together from its fragments; None at the end of the file. */
    method ReadRecord() returns (record: Option<Bytes>)
      requires Valid()
      modifies this
      ensures Valid()
      ensures var r := LogicalAt(sum, file, old(Position()), None);
              record == r.record && Position() == r.next && reports == old(reports) + r.drops
    {
      hide LogicalAt, PhysicalAt, Continue;
      var scratch: Bytes, inFragmentedRecord := [], false;
      ghost var goal := LogicalAt(sum, file, Position(), None);
      while true
        invariant Valid() && (!inFragmentedRecord ==> scratch == [])
        invariant StillToRead(goal, old(reports), reports, LogicalAt(sum, file, Position(), Held(inFragmentedRecord, scratch)))
        decreases |file| - Position()
      {
        ghost var p, partial, before := Position(), Held(inFragmentedRecord, scratch), reports;
        var kind, fragment := ReadPhysicalRecord();
        ReadsOn(sum, file, p, partial, goal, old(reports), before);
        if kind == FULL_TYPE {
          if inFragmentedRecord && scratch != [] {
            reports := reports + [Drop(|scratch|, PartialRecord)];
          }
          return Some(fragment);
        } else if kind == LAST_TYPE && inFragmentedRecord {
          return Some(Joined(scratch, fragment));
        } else if kind == END_OF_FILE {
          return None;
        }
        scratch, inFragmentedRecord := ContinueRecord(kind, fragment, scratch, inFragmentedRecord, PhysicalAt(sum, file, p));
      }
    }

    /** The cases of the switch after which ReadRecord goes on with the next fragment. */
    method ContinueRecord(kind: Byte, fragment: Bytes, scratch0: Bytes, inFragmentedRecord0: bool, ghost f: Physical)
      returns (scratch: Bytes, inFragmentedRecord: bool)
      requires kind != FULL_TYPE && kind != END_OF_FILE && !(kind == LAST_TYPE && inFragmentedRecord0)
      requires !inFragmentedRecord0 ==> scratch0 == []
      requires f.kind == kind && f.payload == fragment
      modifies this`reports
      ensures !inFragmentedRecord ==> scratch == []
      ensures var (partial, more) := Continue(f, Held(inFragmentedRecord0, scratch0));
              partial == Held(inFragmentedRecord, scratch) && reports == old(reports) + more
    {
      scratch, inFragmentedRecord := scratch0, inFragmentedRecord0;
      if kind == FIRST_TYPE {
        if inFragmentedRecord && scratch != [] {
          reports := reports + [Drop(|scratch|, PartialRecord)];
        }
        scratch, inFragmentedRecord := fragment, true;
      } else if kind == MIDDLE_TYPE || kind == LAST_TYPE {
        if !inFragmentedRecord {
          reports := reports + [Drop(|fragment|, MissingStart)];
        } else {
          scratch := Joined(scratch, fragment);
        }
      } else if kind == BAD_RECORD {
        if inFragmentedRecord {
          reports := reports + [Drop(|scratch|, ErrorInMiddle)];
          scratch, inFragmentedRecord := [], false;
        }
      } else {
        reports := reports + [Drop(|fragment| + if inFragmentedRecord then |scratch| else 0, UnknownType)];
        scratch, inFragmentedRecord := [], false;
      }
    }

    static function Held(inFragmentedRecord: bool, scratch: Bytes): Option<Bytes> {
      if inFragmentedRecord then Some(scratch) else None
    }
  }

  /** Reading on gives the rest of `goal`. */
  ghost predicate StillToRead(goal: Logical, before: seq<Drop>, reports: seq<Drop>, r: Logical) {
    goal.record == r.record && goal.next == r.next && before + goal.drops == reports + r.drops
  }

  /** One physical record of a logical one. */
  lemma ReadsOn(sum: Checksum, file: Bytes, p: nat, partial: Option<Bytes>, goal: Logical, before: seq<Drop>, reports: seq<Drop>)
    requires p <= |file| && StillToRead(goal, before, reports, LogicalAt(sum, file, p, partial))
    ensures var f := PhysicalAt(sum, file, p);
            var reports' := reports + f.drops;
            if f.kind == END_OF_FILE then goal.record == None && goal.next == f.next && before + goal.drops == reports'
            else if f.kind == FULL_TYPE then
              goal.record == Some(f.payload) && goal.next == f.next && before + goal.drops == reports' + Abandoned(partial)
            else if f.kind == LAST_TYPE && partial.Some? then
              goal.record == Some(Joined(partial.value, f.payload)) && goal.next == f.next && before + goal.drops == reports'
            else
              var (partial', drops) := Continue(f, partial);
              StillToRead(goal, before, reports' + drops, LogicalAt(sum, file, f.next, partial'))
  {
  }

  /** The loop of RecoverLogFile over the records of a log. */
  method ReadRecords(reader: Reader) returns (records: seq<Bytes>)
    requires reader.Valid() && reader.Position() == 0 && reader.reports == []
    modifies reader
    ensures (records, reader.reports) == ReadAll(reader.sum, reader.file, 0)
  {
    records := [];
    var more := true;
    ghost var goal := ReadAll(reader.sum, reader.file, 0);
    while more
      invariant reader.Valid()
      invariant if more then AllToRead(reader.sum, reader.file, reader.Position(), goal, records, reader.reports)
                else goal == (records, reader.reports)
      decreases more, |reader.file| - reader.Position()
    {
      ReadsAllOn(reader.sum, reader.file, reader.Position(), goal, records, reader.reports);
      var record := reader.ReadRecord();
      if record.Some? {
        records := records + [record.value];
      } else {
        more := false;
      }
    }
  }

  /** `goal` is what has been read and all there is from `p` on. */
  ghost predicate AllToRead(sum: Checksum, file: Bytes, p: nat, goal: (seq<Bytes>, seq<Drop>), records: seq<Bytes>, reports: seq<Drop>)
    requires p <= |file|
  {
    var rest := ReadAll(sum, file, p);
    goal == (Joined(records, rest.0), Joined(reports, rest.1))
  }

  lemma ReadsAllOn(sum: Checksum, file: Bytes, p: nat, goal: (seq<Bytes>, seq<Drop>), records: seq<Bytes>, reports: seq<Drop>)
    requires p <= |file| && AllToRead(sum, file, p, goal, records, reports)
    ensures var r := LogicalAt(sum, file, p, None);
            if r.record.None? then goal == (records, reports + r.drops)
            else AllToRead(sum, file, r.next, goal, records + [r.record.value], reports + r.drops)
  {
    var r := LogicalAt(sum, file, p, None);
    assert ReadAll(sum, file, p) == if r.record.None? then ([], r.drops)
           else ([r.record.value] + ReadAll(sum, file, r.next).0, r.drops + ReadAll(sum, file, r.next).1);
    if r.record.Some? {
      var rest := ReadAll(sum, file, r.next);
      JoinedAgain(records, [r.record.value], rest.0);
      JoinedAgain(reports, r.drops, rest.1);
    } else {
      assert Joined(records, []) == records;
      JoinedAgain(reports, r.drops, []);
    }
  }

  lemma JoinedAgain<T>(a: seq<T>, b: seq<T>, c: seq<T>)
    ensures Joined(a, b + c) == Joined(a + b, c)
    ensures Joined(a, b) == a + b
  {
    assert a + (b + c) == a + b + c;
    if a == [] {
      assert a + b == b;
    }
    if a + b == [] {
      assert a == [] && b == [];
      assert b + c == c;
    }
  }

  lemma SomeNotWhole(sum: Checksum, file: Bytes, records: seq<Bytes>, n: nat) returns (k: nat)
    requires IsPrefix(sum, file, records) && n <= |records| && |EncodeLog(sum, records, n)| <= |file|
    ensures FirstNotWhole(sum, file, records, k)
    decreases |records| - n
  {
    k := n;
    if n < |records| && |EncodeLog(sum, records, n + 1)| <= |file| {
      k := SomeNotWhole(sum, file, records, n + 1);
    }
  }

  /** Whatever prefix of the file a crash leaves: the records wholly inside it come back, and nothing is reported. */
  method CrashAndRecover(crc: (Byte, Bytes) -> Word, records: seq<Bytes>, size: nat) returns (recovered: seq<Bytes>)
    requires size <= |EncodeLog(MaskedCrc(crc), records, |records|)|
    ensures |recovered| <= |records| && recovered == records[..|recovered|]
    ensures FirstNotWhole(MaskedCrc(crc), EncodeLog(MaskedCrc(crc), records, |records|)[..size], records, |recovered|)
  {
    var writer := WriteRecords(MaskedCrc(crc), records);
    var reader := new Reader(writer.sum, writer.dest[..size]);
    recovered := ReadRecords(reader);
    ghost var k := SomeNotWhole(reader.sum, reader.file, records, 0);
    MaskedCrcAcceptsOwn(crc);
    PrefixReadsWholeRecords(reader.sum, reader.file, records, k);
  }

  method WriteRecords(sum: Checksum, records: seq<Bytes>) returns (writer: Writer)
    ensures fresh(writer) && writer.sum == sum && writer.dest == EncodeLog(sum, records, |records|)
  {
    writer := new Writer(sum);
    for i := 0 to |records|
      invariant writer.Valid() && writer.sum == sum && writer.written == records[..i] && fresh(writer)
    {
      writer.AddRecord(records[i]);
    }
    assert records[..|records|] == records;
  }
}
