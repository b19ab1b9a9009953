/** The log file: fragmenting records over blocks, and what a reader finds in a file. */
module LogFormat {
  import opened ByteOrder
  import opened DbFormat
  import opened Coding

  const BLOCK_SIZE := 32768

  const HEADER_SIZE := 7

  const ZERO_TYPE: Byte := 0
  const FULL_TYPE: Byte := 1
  const FIRST_TYPE: Byte := 2
  const MIDDLE_TYPE: Byte := 3
  const LAST_TYPE: Byte := 4
  const END_OF_FILE: Byte := 5
  const BAD_RECORD: Byte := 6

  // ----- Stored checksums -----

  /** How a physical record is stamped, and which stamp a reader accepts for its type and payload. */
  datatype Checksum = Checksum(stamp: (Byte, Bytes) -> Fixed32, accepts: (Fixed32, Byte, Bytes) -> bool)

  ghost predicate AcceptsOwn(sum: Checksum) {
    forall kind, payload :: sum.accepts(sum.stamp(kind, payload), kind, payload)
  }

  function Header(sum: Checksum, kind: Byte, payload: Bytes): (h: Bytes)
    requires |payload| <= 0xffff
    ensures |h| == HEADER_SIZE
  {
    var s := sum.stamp(kind, payload);
    [s.b0, s.b1, s.b2, s.b3, |payload| % 0x100, |payload| / 0x100, kind]
  }

  // ----- Encoding -----

  function Zeros(n: nat): (z: Bytes)
    ensures |z| == n
  {
    if n == 0 then [] else [0] + Zeros(n - 1)
  }

  /** Where in its block the next header goes, `offset` bytes of the block being used; 0 is in a new block. */
  function HeaderOffset(offset: nat): nat
    requires offset <= BLOCK_SIZE
  {
    if BLOCK_SIZE - offset < HEADER_SIZE then 0 else offset
  }

  function KindOf(begin: bool, end: bool): Byte {
    if begin && end then FULL_TYPE else if begin then FIRST_TYPE else if end then LAST_TYPE else MIDDLE_TYPE
  }

  /** How many of `left` bytes fit behind a header at `at` of its block. */
  function FragmentLength(at: nat, left: nat): (n: nat)
    requires at + HEADER_SIZE <= BLOCK_SIZE
    ensures n <= left && at + HEADER_SIZE + n <= BLOCK_SIZE
  {
    var available := BLOCK_SIZE - at - HEADER_SIZE;
    if left < available then left else available
  }

  function EncodeFragment(sum: Checksum, kind: Byte, payload: Bytes): Bytes
    requires |payload| <= 0xffff
  {
    Header(sum, kind, payload) + payload
  }

  /**
   * The bytes that hold `data` from `i` on when `offset` bytes of the current block are used: zeros where no
   * header fits, then fragments.
   */
  function EncodeRecord(sum: Checksum, offset: nat, data: Bytes, i: nat, begin: bool): (r: Bytes)
    requires offset <= BLOCK_SIZE && i <= |data|
    ensures |r| > 0
    decreases |data| - i, if offset == BLOCK_SIZE - HEADER_SIZE then 2 else if HeaderOffset(offset) == offset then 0 else 1
  {
    if HeaderOffset(offset) == offset then
      var n := FragmentLength(offset, |data| - i);
      EncodeFragment(sum, KindOf(begin, i + n == |data|), data[i..i + n])
      + if i + n == |data| then [] else EncodeRecord(sum, offset + HEADER_SIZE + n, data, i + n, false)
    else if offset == BLOCK_SIZE then EncodeRecord(sum, 0, data, i, begin)
    else Zeros(BLOCK_SIZE - offset) + EncodeRecord(sum, 0, data, i, begin)
  }

  /** The log of the first `n` records. */
  function EncodeLog(sum: Checksum, records: seq<Bytes>, n: nat): Bytes
    requires n <= |records|
  {
    if n == 0 then []
    else
      var log := EncodeLog(sum, records, n - 1);
      Joined(log, EncodeRecord(sum, |log| % 32768, records[n - 1], 0, true))
  }

  // ----- What a reader finds -----

  datatype Reason = BadLength | BadChecksum | PartialRecord | MissingStart | ErrorInMiddle | UnknownType

  datatype Drop = Drop(bytes: nat, reason: Reason)

  /** A physical record, or END_OF_FILE or BAD_RECORD as its kind; `next` is where reading goes on. */
  datatype Physical = Physical(kind: Byte, payload: Bytes, next: nat, drops: seq<Drop>)

  function BlockEnd(size: nat, p: nat): (end: nat)
    requires p <= size
    ensures p <= end <= size
  {
    var end := p - p % 32768 + BLOCK_SIZE;
    if end <= size then end else size
  }

  function PhysicalAt(sum: Checksum, file: Bytes, p: nat): (r: Physical)
    requires p <= |file|
    ensures p <= r.next <= |file| && (r.kind == END_OF_FILE || p < r.next)
    decreases |file| - p
  {
    var end := BlockEnd(|file|, p);
    if end - p >= HEADER_SIZE then ParseAt(sum, file, p, end)
    else if end < |file| then PhysicalAt(sum, file, end)
    else Physical(END_OF_FILE, [], |file|, [])
  }

  function StampAt(file: Bytes, p: nat): Fixed32
    requires p + 4 <= |file|
  {
    Fixed32(file[p], file[p + 1], file[p + 2], file[p + 3])
  }

  /** The physical record whose header is at `p`, in a block that ends at `end`. */
  function ParseAt(sum: Checksum, file: Bytes, p: nat, end: nat): (r: Physical)
    requires p + HEADER_SIZE <= end <= |file|
    ensures p < r.next <= |file|
  {
    var length := file[p + 4] as int + file[p + 5] as int * 0x100;
    var kind := file[p + 6];
    if HEADER_SIZE + length > end - p then
      if end % 32768 == 0 then Physical(BAD_RECORD, [], end, [Drop(end - p, BadLength)])
      else Physical(END_OF_FILE, [], |file|, [])
    else if kind == ZERO_TYPE && length == 0 then Physical(BAD_RECORD, [], end, [])
    else if !sum.accepts(StampAt(file, p), kind, file[p + HEADER_SIZE..p + HEADER_SIZE + length]) then
      Physical(BAD_RECORD, [], end, [Drop(end - p, BadChecksum)])
    else Physical(kind, file[p + HEADER_SIZE..p + HEADER_SIZE + length], p + HEADER_SIZE + length, [])
  }

  /** The next logical record, if any, and everything reported on the way to it. */
  datatype Logical = Logical(record: Option<Bytes>, next: nat, drops: seq<Drop>)

  function LogicalAt(sum: Checksum, file: Bytes, p: nat, partial: Option<Bytes>): (r: Logical)
    requires p <= |file|
    ensures p <= r.next <= |file|
    ensures r.record.Some? ==> p < r.next
    decreases |file| - p
  {
    var f := PhysicalAt(sum, file, p);
    if f.kind == END_OF_FILE then Logical(None, f.next, f.drops)
    else if f.kind == FULL_TYPE then Logical(Some(f.payload), f.next, f.drops + Abandoned(partial))
    else if f.kind == LAST_TYPE && partial.Some? then Logical(Some(Joined(partial.value, f.payload)), f.next, f.drops)
    else
      var (partial', drops) := Continue(f, partial);
      var r := LogicalAt(sum, file, f.next, partial');
      r.(drops := f.drops + drops + r.drops)
  }

  function Abandoned(partial: Option<Bytes>): seq<Drop> {
    if partial.Some? && partial.value != [] then [Drop(|partial.value|, PartialRecord)] else []
  }

  /** A physical record that does not complete a logical one. */
  function Continue(f: Physical, partial: Option<Bytes>): (Option<Bytes>, seq<Drop>) {
    if f.kind == FIRST_TYPE then (Some(f.payload), Abandoned(partial))
    else if f.kind == MIDDLE_TYPE || f.kind == LAST_TYPE then
      if partial.None? then (None, [Drop(|f.payload|, MissingStart)])
      else (Some(Joined(partial.value, f.payload)), [])
    else if f.kind == BAD_RECORD then
      (None, if partial.Some? then [Drop(|partial.value|, ErrorInMiddle)] else [])
    else
      (None, [Drop(|f.payload| + if partial.Some? then |partial.value| else 0, UnknownType)])
  }

  /** All records from `p` to the end of the file. */
  function ReadAll(sum: Checksum, file: Bytes, p: nat): (seq<Bytes>, seq<Drop>)
    requires p <= |file|
    decreases |file| - p
  {
    var r := LogicalAt(sum, file, p, None);
    if r.record.None? then ([], r.drops)
    else
      var (records, drops) := ReadAll(sum, file, r.next);
      ([r.record.value] + records, r.drops + drops)
  }

  // ----- Reading back what was written -----

  ghost predicate ByteStands(file: Bytes, p: nat, bytes: Bytes, i: nat) {
    i < |bytes| && p + i < |file| ==> file[p + i] == bytes[i]
  }

  /** `bytes` stand in the file at `p`, cut off where the file ends. */
  ghost predicate StandsAt(file: Bytes, p: nat, bytes: Bytes) {
    p <= |file| && forall i: nat :: ByteStands(file, p, bytes, i)
  }

  lemma StandsSplit(file: Bytes, p: nat, ab: Bytes, a: Bytes, b: Bytes, mid: nat)
    requires StandsAt(file, p, ab) && ab == a + b && mid == p + |a|
    ensures StandsAt(file, p, a)
    ensures mid <= |file| ==> StandsAt(file, mid, b)
  {
    forall i: nat
      ensures ByteStands(file, p, a, i)
      ensures ByteStands(file, mid, b, i)
    {
      assert ByteStands(file, p, ab, i);
      assert ByteStands(file, p, ab, |a| + i);
    }
  }

  lemma StandsSlice(file: Bytes, p: nat, bytes: Bytes)
    requires StandsAt(file, p, bytes) && p + |bytes| <= |file|
    ensures file[p..p + |bytes|] == bytes
  {
    forall i | 0 <= i < |bytes|
      ensures file[p + i] == bytes[i]
    {
      assert ByteStands(file, p, bytes, i);
    }
  }

  ghost predicate BlockStart(block: nat) {
    block % 32768 == 0
  }

  /** A block ends where the next one starts, or with the file. */
  lemma BlockEndOf(size: nat, block: nat, offset: nat)
    requires BlockStart(block) && offset < BLOCK_SIZE && block + offset <= size
    ensures BlockEnd(size, block + offset) == if block + BLOCK_SIZE <= size then block + BLOCK_SIZE else size
    ensures block < size < block + BLOCK_SIZE ==> size % 32768 != 0
    ensures BlockStart(block + BLOCK_SIZE)
  {
    var b := block / 32768;
    assert (block + offset) / 32768 == b;
    if size < block + BLOCK_SIZE {
      assert size / 32768 == b;
    }
  }

  /** A written fragment is parsed back, or its missing end is taken for the end of the file. */
  lemma FragmentParses(sum: Checksum, file: Bytes, p: nat, block: nat, at: nat, kind: Byte, payload: Bytes)
    requires AcceptsOwn(sum)
    requires BlockStart(block) && p == block + at && at + HEADER_SIZE + |payload| <= BLOCK_SIZE && kind != ZERO_TYPE
    requires StandsAt(file, p, EncodeFragment(sum, kind, payload))
    ensures PhysicalAt(sum, file, p) == FragmentRead(file, p, kind, payload)
  {
    hide AcceptsOwn, EncodeFragment, ParseAt, LogicalAt;
    BlockEndOf(|file|, block, at);
    if p + HEADER_SIZE + |payload| <= |file| {
      WholeParses(sum, file, p, BlockEnd(|file|, p), kind, payload);
    } else if p + HEADER_SIZE <= |file| {
      CutParses(sum, file, p, kind, payload);
    }
  }

  /** What is read of a fragment whose header starts at `start`. */
  function FragmentRead(file: Bytes, start: nat, kind: Byte, payload: Bytes): Physical {
    var next := start + HEADER_SIZE + |payload|;
    if next <= |file| then Physical(kind, payload, next, []) else Physical(END_OF_FILE, [], |file|, [])
  }

  lemma WholeParses(sum: Checksum, file: Bytes, p: nat, end: nat, kind: Byte, payload: Bytes)
    requires |payload| <= 0xffff && p + HEADER_SIZE + |payload| <= end <= |file| && kind != ZERO_TYPE
    requires AcceptsOwn(sum) && StandsAt(file, p, EncodeFragment(sum, kind, payload))
    ensures ParseAt(sum, file, p, end) == Physical(kind, payload, p + HEADER_SIZE + |payload|, [])
  {
    HeaderStands(sum, file, p, kind, payload);
    StandsSplit(file, p, EncodeFragment(sum, kind, payload), Header(sum, kind, payload), payload, p + HEADER_SIZE);
    StandsSlice(file, p + HEADER_SIZE, payload);
  }

  lemma CutParses(sum: Checksum, file: Bytes, p: nat, kind: Byte, payload: Bytes)
    requires |payload| <= 0xffff && p + HEADER_SIZE <= |file| < p + HEADER_SIZE + |payload| && |file| % 32768 != 0
    requires StandsAt(file, p, EncodeFragment(sum, kind, payload))
    ensures ParseAt(sum, file, p, |file|) == Physical(END_OF_FILE, [], |file|, [])
  {
    HeaderStands(sum, file, p, kind, payload);
  }

  lemma HeaderStands(sum: Checksum, file: Bytes, p: nat, kind: Byte, payload: Bytes)
    requires |payload| <= 0xffff && p + HEADER_SIZE <= |file|
    requires StandsAt(file, p, EncodeFragment(sum, kind, payload))
    ensures StampAt(file, p) == sum.stamp(kind, payload)
    ensures file[p + 4] as int + file[p + 5] as int * 0x100 == |payload| && file[p + 6] == kind
  {
    var h := Header(sum, kind, payload);
    StandsSplit(file, p, EncodeFragment(sum, kind, payload), h, payload, p + HEADER_SIZE);
    StandsSlice(file, p, h);
    forall i | 0 <= i < HEADER_SIZE
      ensures file[p + i] == h[i]
    {
      assert file[p + i] == file[p..p + HEADER_SIZE][i];
    }
  }

  /** A trailer is skipped. */
  lemma TrailerIsSkipped(sum: Checksum, file: Bytes, p: nat, block: nat, offset: nat)
    requires BlockStart(block) && BLOCK_SIZE - HEADER_SIZE < offset < BLOCK_SIZE && p == block + offset && p <= |file|
    ensures PhysicalAt(sum, file, p) ==
            if block + BLOCK_SIZE <= |file| then PhysicalAt(sum, file, block + BLOCK_SIZE)
            else Physical(END_OF_FILE, [], |file|, [])
  {
    BlockEndOf(|file|, block, offset);
    if |file| == block + BLOCK_SIZE {
      BlockEndOf(|file|, block + BLOCK_SIZE, 0);
    }
  }

  /** What the reader holds of a record of which `i` bytes have been read. */
  function Partial(data: Bytes, i: nat, begin: bool): Option<Bytes>
    requires i <= |data|
  {
    if begin then None else Some(data[..i])
  }

  lemma PartialGrows(data: Bytes, i: nat, n: nat, begin: bool)
    requires i + n <= |data| && (begin ==> i == 0)
    ensures (if begin then data[i..i + n] else Joined(data[..i], data[i..i + n])) == data[..i + n]
    ensures data[..|data|] == data
  {
  }

  /** A fragment that does not end its record is remembered. */
  lemma StepContinues(sum: Checksum, file: Bytes, p: nat, f: Physical, partial: Option<Bytes>, partial': Bytes)
    requires p <= |file| && f == PhysicalAt(sum, file, p) && f.drops == []
    requires if partial.None? then f.kind == FIRST_TYPE && partial' == f.payload
             else f.kind == MIDDLE_TYPE && partial' == Joined(partial.value, f.payload)
    ensures LogicalAt(sum, file, p, partial) == LogicalAt(sum, file, f.next, Some(partial'))
  {
  }

  lemma StepEnds(sum: Checksum, file: Bytes, p: nat, f: Physical, partial: Option<Bytes>, data: Bytes)
    requires p <= |file| && f == PhysicalAt(sum, file, p) && f.drops == []
    requires if partial.None? then f.kind == FULL_TYPE && data == f.payload
             else f.kind == LAST_TYPE && data == Joined(partial.value, f.payload)
    ensures LogicalAt(sum, file, p, partial) == Logical(Some(data), f.next, [])
  {
  }

  /** A fragment that the end of the file cuts off ends the reading. */
  lemma {:induction false} StepCut(sum: Checksum, file: Bytes, p: nat, partial: Option<Bytes>)
    requires p <= |file| && PhysicalAt(sum, file, p) == Physical(END_OF_FILE, [], |file|, [])
    ensures LogicalAt(sum, file, p, partial) == Logical(None, |file|, [])
  {
    hide PhysicalAt;
  }

  /** A fragment completes the record, or is remembered, or is cut off. */
  lemma LogicalStep(sum: Checksum, file: Bytes, p: nat, data: Bytes, i: nat, n: nat, begin: bool)
    requires p <= |file| && i + n <= |data| && (begin ==> i == 0)
    requires PhysicalAt(sum, file, p) == FragmentRead(file, p, KindOf(begin, i + n == |data|), data[i..i + n])
    ensures LogicalAt(sum, file, p, Partial(data, i, begin)) == StepRead(sum, file, p, data, i, n)
  {
    hide PhysicalAt, LogicalAt;
    PartialGrows(data, i, n, begin);
    var f := PhysicalAt(sum, file, p);
    if p + HEADER_SIZE + n <= |file| {
      if i + n == |data| {
        StepEnds(sum, file, p, f, Partial(data, i, begin), data);
      } else {
        StepContinues(sum, file, p, f, Partial(data, i, begin), data[..i + n]);
      }
    } else {
      StepCut(sum, file, p, Partial(data, i, begin));
    }
  }

  /** What is read from `p` on, where a fragment of `n` bytes stands. */
  function StepRead(sum: Checksum, file: Bytes, p: nat, data: Bytes, i: nat, n: nat): Logical
    requires p <= |file| && i + n <= |data|
  {
    var next := p + HEADER_SIZE + n;
    if next > |file| then Logical(None, |file|, [])
    else if i + n == |data| then Logical(Some(data), next, [])
    else LogicalAt(sum, file, next, Partial(data, i + n, false))
  }

  /** One written record, whole or cut off, seen from its first byte. */
  lemma {:induction false} RecordReadsBack(sum: Checksum, file: Bytes, p: nat, block: nat, offset: nat, data: Bytes, i: nat, begin: bool)
    requires AcceptsOwn(sum)
    requires BlockStart(block) && offset <= BLOCK_SIZE && p == block + offset && i <= |data| && (begin ==> i == 0)
    requires StandsAt(file, p, EncodeRecord(sum, offset, data, i, begin))
    ensures LogicalAt(sum, file, p, Partial(data, i, begin)) == ReadBack(file, p + |EncodeRecord(sum, offset, data, i, begin)|, data)
    decreases |data| - i, if offset == BLOCK_SIZE - HEADER_SIZE then 2 else if HeaderOffset(offset) == offset then 0 else 1, 1
  {
    hide LogicalAt, StandsAt, PhysicalAt, Partial, AcceptsOwn;
    BlockEndOf(block, block, 0);
    if HeaderOffset(offset) == offset {
      FragmentsReadBack(sum, file, p, block, offset, data, i, begin);
    } else if offset == BLOCK_SIZE {
      RecordReadsBack(sum, file, p, block + BLOCK_SIZE, 0, data, i, begin);
    } else {
      TrailerReadsBack(sum, file, p, block, offset, data, i, begin);
    }
  }

  lemma {:induction false} TrailerReadsBack(sum: Checksum, file: Bytes, p: nat, block: nat, offset: nat, data: Bytes, i: nat, begin: bool)
    requires AcceptsOwn(sum)
    requires BlockStart(block) && BlockStart(block + BLOCK_SIZE) && p == block + offset && i <= |data| && (begin ==> i == 0)
    requires BLOCK_SIZE - HEADER_SIZE < offset < BLOCK_SIZE
    requires StandsAt(file, p, EncodeRecord(sum, offset, data, i, begin))
    ensures LogicalAt(sum, file, p, Partial(data, i, begin)) == ReadBack(file, p + |EncodeRecord(sum, offset, data, i, begin)|, data)
    decreases |data| - i, 1, 0
  {
    hide LogicalAt, EncodeRecord, StandsAt, AcceptsOwn, Partial;
    var start := block + BLOCK_SIZE;
    TrailerReads(sum, file, p, block, offset, data, i, begin);
    if start <= |file| {
      RecordReadsBack(sum, file, start, start, 0, data, i, begin);
    }
    TrailerSize(sum, offset, data, i, begin);
  }

  lemma {:induction false} FragmentsReadBack(sum: Checksum, file: Bytes, p: nat, block: nat, offset: nat, data: Bytes, i: nat, begin: bool)
    requires AcceptsOwn(sum)
    requires BlockStart(block) && offset <= BLOCK_SIZE - HEADER_SIZE && p == block + offset && i <= |data| && (begin ==> i == 0)
    requires StandsAt(file, p, EncodeRecord(sum, offset, data, i, begin))
    ensures LogicalAt(sum, file, p, Partial(data, i, begin)) == ReadBack(file, p + |EncodeRecord(sum, offset, data, i, begin)|, data)
    decreases |data| - i, if offset == BLOCK_SIZE - HEADER_SIZE then 2 else 0, 0
  {
    hide LogicalAt, EncodeRecord, StandsAt, PhysicalAt, Partial, AcceptsOwn;
    var n := FragmentLength(offset, |data| - i);
    var next := p + HEADER_SIZE + n;
    FragmentStep(sum, file, p, block, offset, data, i, n, begin);
    if i + n < |data| && next <= |file| {
      RecordReadsBack(sum, file, next, block, offset + HEADER_SIZE + n, data, i + n, false);
    }
  }

  lemma FragmentStep(sum: Checksum, file: Bytes, p: nat, block: nat, offset: nat, data: Bytes, i: nat, n: nat, begin: bool)
    requires AcceptsOwn(sum)
    requires BlockStart(block) && offset <= BLOCK_SIZE - HEADER_SIZE && p == block + offset && i <= |data| && (begin ==> i == 0)
    requires StandsAt(file, p, EncodeRecord(sum, offset, data, i, begin)) && n == FragmentLength(offset, |data| - i)
    ensures p + HEADER_SIZE + n > |file| ==> LogicalAt(sum, file, p, Partial(data, i, begin)) == Logical(None, |file|, [])
    ensures p + HEADER_SIZE + n <= |file| && i + n == |data| ==>
              LogicalAt(sum, file, p, Partial(data, i, begin)) == Logical(Some(data), p + HEADER_SIZE + n, [])
    ensures p + HEADER_SIZE + n <= |file| && i + n < |data| ==>
              LogicalAt(sum, file, p, Partial(data, i, begin)) == LogicalAt(sum, file, p + HEADER_SIZE + n, Partial(data, i + n, false))
    ensures i + n < |data| && p + HEADER_SIZE + n <= |file| ==>
              StandsAt(file, p + HEADER_SIZE + n, EncodeRecord(sum, offset + HEADER_SIZE + n, data, i + n, false))
    ensures |EncodeRecord(sum, offset, data, i, begin)| == HEADER_SIZE + n +
            if i + n == |data| then 0 else |EncodeRecord(sum, offset + HEADER_SIZE + n, data, i + n, false)|
  {
    hide EncodeRecord, StandsAt, PhysicalAt, AcceptsOwn, LogicalAt, Partial;
    FragmentStands(sum, file, p, offset, data, i, n, begin);
    FragmentSize(sum, offset, data, i, n, begin);
    FragmentReads(sum, file, p, block, offset, data, i, n, begin);
  }

  lemma TrailerReads(sum: Checksum, file: Bytes, p: nat, block: nat, offset: nat, data: Bytes, i: nat, begin: bool)
    requires BlockStart(block) && BLOCK_SIZE - HEADER_SIZE < offset < BLOCK_SIZE && p == block + offset && i <= |data|
    requires StandsAt(file, p, EncodeRecord(sum, offset, data, i, begin))
    ensures block + BLOCK_SIZE <= |file| ==> StandsAt(file, block + BLOCK_SIZE, EncodeRecord(sum, 0, data, i, begin))
    ensures LogicalAt(sum, file, p, Partial(data, i, begin)) ==
            if block + BLOCK_SIZE > |file| then Logical(None, |file|, [])
            else LogicalAt(sum, file, block + BLOCK_SIZE, Partial(data, i, begin))
  {
    var zeros, rest := Zeros(BLOCK_SIZE - offset), EncodeRecord(sum, 0, data, i, begin);
    StandsSplit(file, p, zeros + rest, zeros, rest, block + BLOCK_SIZE);
    TrailerIsSkipped(sum, file, p, block, offset);
    SamePhysical(sum, file, p, block + BLOCK_SIZE, Partial(data, i, begin));
  }

  lemma TrailerSize(sum: Checksum, offset: nat, data: Bytes, i: nat, begin: bool)
    requires BLOCK_SIZE - HEADER_SIZE < offset < BLOCK_SIZE && i <= |data|
    ensures |EncodeRecord(sum, offset, data, i, begin)| == BLOCK_SIZE - offset + |EncodeRecord(sum, 0, data, i, begin)|
  {
  }

  lemma SamePhysical(sum: Checksum, file: Bytes, p: nat, q: nat, partial: Option<Bytes>)
    requires p <= q && p <= |file|
    requires PhysicalAt(sum, file, p) == if q <= |file| then PhysicalAt(sum, file, q) else Physical(END_OF_FILE, [], |file|, [])
    ensures LogicalAt(sum, file, p, partial) == if q <= |file| then LogicalAt(sum, file, q, partial) else Logical(None, |file|, [])
  {
  }

  /** The first fragment completes the record, or is cut off, or leaves the rest of the record to be read. */
  lemma FragmentReads(sum: Checksum, file: Bytes, p: nat, block: nat, offset: nat, data: Bytes, i: nat, n: nat, begin: bool)
    requires BlockStart(block) && p == block + offset && i <= |data| && (begin ==> i == 0)
    requires offset <= BLOCK_SIZE - HEADER_SIZE && n == FragmentLength(offset, |data| - i)
    requires AcceptsOwn(sum)
    requires StandsAt(file, p, EncodeFragment(sum, KindOf(begin, i + n == |data|), data[i..i + n]))
    ensures LogicalAt(sum, file, p, Partial(data, i, begin)) == StepRead(sum, file, p, data, i, n)
  {
    hide EncodeRecord, StandsAt, PhysicalAt, AcceptsOwn, LogicalAt, Partial, EncodeFragment, StepRead, FragmentRead;
    FragmentParses(sum, file, p, block, offset, KindOf(begin, i + n == |data|), data[i..i + n]);
    LogicalStep(sum, file, p, data, i, n, begin);
  }

  lemma FragmentStands(sum: Checksum, file: Bytes, p: nat, offset: nat, data: Bytes, i: nat, n: nat, begin: bool)
    requires offset <= BLOCK_SIZE - HEADER_SIZE && i <= |data| && n == FragmentLength(offset, |data| - i)
    requires StandsAt(file, p, EncodeRecord(sum, offset, data, i, begin))
    ensures StandsAt(file, p, EncodeFragment(sum, KindOf(begin, i + n == |data|), data[i..i + n]))
    ensures i + n < |data| && p + HEADER_SIZE + n <= |file| ==>
              StandsAt(file, p + HEADER_SIZE + n, EncodeRecord(sum, offset + HEADER_SIZE + n, data, i + n, false))
  {
    hide StandsAt;
    var fragment := EncodeFragment(sum, KindOf(begin, i + n == |data|), data[i..i + n]);
    var rest := if i + n == |data| then [] else EncodeRecord(sum, offset + HEADER_SIZE + n, data, i + n, false);
    StandsSplit(file, p, fragment + rest, fragment, rest, p + HEADER_SIZE + n);
  }

  lemma FragmentSize(sum: Checksum, offset: nat, data: Bytes, i: nat, n: nat, begin: bool)
    requires offset <= BLOCK_SIZE - HEADER_SIZE && i <= |data| && n == FragmentLength(offset, |data| - i)
    ensures |EncodeRecord(sum, offset, data, i, begin)| == HEADER_SIZE + n +
            if i + n == |data| then 0 else |EncodeRecord(sum, offset + HEADER_SIZE + n, data, i + n, false)|
  {
    var fragment := EncodeFragment(sum, KindOf(begin, i + n == |data|), data[i..i + n]);
    assert |fragment| == HEADER_SIZE + n;
  }

  /** The record, when the file reaches its end; otherwise the quiet end of the file. */
  function ReadBack(file: Bytes, end: nat, record: Bytes): Logical {
    if end <= |file| then Logical(Some(record), end, []) else Logical(None, |file|, [])
  }

  // ----- Whole logs -----

  /** The file is a prefix of the log. */
  ghost predicate IsPrefix(sum: Checksum, file: Bytes, records: seq<Bytes>) {
    && |file| <= |EncodeLog(sum, records, |records|)|
    && file == EncodeLog(sum, records, |records|)[..|file|]
  }

  lemma {:induction false} EncodeLogGrows(sum: Checksum, records: seq<Bytes>, n: nat, m: nat)
    requires n <= m <= |records|
    ensures EncodeLog(sum, records, n) <= EncodeLog(sum, records, m)
    decreases m - n
  {
    if n < m {
      EncodeLogGrows(sum, records, n, m - 1);
      PrefixChain(EncodeLog(sum, records, n), EncodeLog(sum, records, m - 1), EncodeLog(sum, records, m));
    }
  }

  lemma PrefixChain(a: Bytes, b: Bytes, c: Bytes)
    requires a <= b <= c
    ensures a <= c
  {
  }

  /** Record `k` is the first one not wholly inside the file. */
  ghost predicate FirstNotWhole(sum: Checksum, file: Bytes, records: seq<Bytes>, k: nat) {
    && k <= |records| && |EncodeLog(sum, records, k)| <= |file|
    && (k < |records| ==> |file| < |EncodeLog(sum, records, k + 1)|)
  }

  /** From the end of record `n` on, the reader finds the remaining whole records of the prefix. */
  lemma {:induction false} ReadFrom(sum: Checksum, file: Bytes, records: seq<Bytes>, n: nat, k: nat)
    requires AcceptsOwn(sum)
    requires IsPrefix(sum, file, records) && FirstNotWhole(sum, file, records, k) && n <= k
    ensures |EncodeLog(sum, records, n)| <= |file|
    ensures ReadAll(sum, file, |EncodeLog(sum, records, n)|) == (records[n..k], [])
    decreases k - n
  {
    EncodeLogGrows(sum, records, n, k);
    if n < k {
      ReadFrom(sum, file, records, n + 1, k);
      ReadFromStep(sum, file, records, n, k);
    } else {
      ReadEnds(sum, file, records, n);
      assert records[n..k] == [];
    }
  }

  lemma ReadFromStep(sum: Checksum, file: Bytes, records: seq<Bytes>, n: nat, k: nat)
    requires AcceptsOwn(sum)
    requires IsPrefix(sum, file, records) && n < k <= |records| && |EncodeLog(sum, records, n + 1)| <= |file|
    requires ReadAll(sum, file, |EncodeLog(sum, records, n + 1)|) == (records[n + 1..k], [])
    ensures |EncodeLog(sum, records, n)| <= |file|
    ensures ReadAll(sum, file, |EncodeLog(sum, records, n)|) == (records[n..k], [])
  {
    hide EncodeLog, ReadAll, LogicalAt, AcceptsOwn;
    var p, next := |EncodeLog(sum, records, n)|, |EncodeLog(sum, records, n + 1)|;
    EncodeLogGrows(sum, records, n, n + 1);
    NextReads(sum, file, records, n);
    assert records[n..k] == [records[n]] + records[n + 1..k];
    ReadAllStep(sum, file, p, records[n], next, records[n + 1..k]);
  }

  lemma ReadEnds(sum: Checksum, file: Bytes, records: seq<Bytes>, n: nat)
    requires AcceptsOwn(sum)
    requires IsPrefix(sum, file, records) && FirstNotWhole(sum, file, records, n)
    ensures ReadAll(sum, file, |EncodeLog(sum, records, n)|) == ([], [])
  {
    if n == |records| {
      EmptyRest(sum, file);
    } else {
      NextReads(sum, file, records, n);
    }
  }

  lemma ReadAllStep(sum: Checksum, file: Bytes, p: nat, record: Bytes, next: nat, rest: seq<Bytes>)
    requires p <= |file| && LogicalAt(sum, file, p, None) == Logical(Some(record), next, [])
    requires ReadAll(sum, file, next) == (rest, [])
    ensures ReadAll(sum, file, p) == ([record] + rest, [])
  {
  }

  lemma EmptyRest(sum: Checksum, file: Bytes)
    ensures LogicalAt(sum, file, |file|, None) == Logical(None, |file|, [])
  {
  }

  lemma NextReads(sum: Checksum, file: Bytes, records: seq<Bytes>, n: nat)
    requires AcceptsOwn(sum)
    requires IsPrefix(sum, file, records) && n < |records| && |EncodeLog(sum, records, n)| <= |file|
    ensures LogicalAt(sum, file, |EncodeLog(sum, records, n)|, None) ==
            ReadBack(file, |EncodeLog(sum, records, n + 1)|, records[n])
  {
    hide EncodeRecord, StandsAt, LogicalAt;
    EncodeLogGrows(sum, records, n + 1, |records|);
    var before := EncodeLog(sum, records, n);
    BlockSplit(|before|);
    var offset := |before| % 32768;
    NextStands(file, EncodeLog(sum, records, |records|), before, EncodeRecord(sum, offset, records[n], 0, true));
    RecordReadsBack(sum, file, |before|, |before| - offset, offset, records[n], 0, true);
  }

  lemma BlockSplit(p: nat)
    ensures 0 <= p % 32768 < BLOCK_SIZE && p >= p % 32768 && BlockStart(p - p % 32768)
  {
  }

  lemma NextStands(file: Bytes, log: Bytes, before: Bytes, record: Bytes)
    requires Joined(before, record) <= log && |before| <= |file| <= |log| && file == log[..|file|]
    ensures StandsAt(file, |before|, record)
  {
    forall i: nat
      ensures ByteStands(file, |before|, record, i)
    {
      if i < |record| && |before| + i < |file| {
        assert log[|before| + i] == Joined(before, record)[|before| + i];
      }
    }
  }

  /** The main result: any prefix of a log reads as the records wholly inside it, and nothing is reported. */
  lemma PrefixReadsWholeRecords(sum: Checksum, file: Bytes, records: seq<Bytes>, k: nat)
    requires AcceptsOwn(sum)
    requires IsPrefix(sum, file, records) && FirstNotWhole(sum, file, records, k)
    ensures ReadAll(sum, file, 0) == (records[..k], [])
  {
    assert records[0..k] == records[..k];
    ReadFrom(sum, file, records, 0, k);
  }
}
