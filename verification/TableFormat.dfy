/** What a table file consists of: blocks with trailers, handles that point to them, and a footer. */
module TableFormat {
  import opened ByteOrder
  import opened DbFormat
  import opened Coding
  import opened KeyOrder
  import opened Block
  import LogFile
  import opened FilterBlock

  type Crc = Bytes -> Word

  // ----- Handles -----

  datatype BlockHandle = BlockHandle(offset: nat, size: nat)

  ghost predicate Fits(h: BlockHandle) {
    h.offset < 0x1_0000_0000_0000_0000 && h.size < 0x1_0000_0000_0000_0000
  }

  function EncodeHandle(h: BlockHandle): Bytes {
    PutVarint(h.offset) + PutVarint(h.size)
  }

  datatype HandleRead = HandleRead(handle: BlockHandle, next: nat)

  function DecodeHandle(b: Bytes, p: nat, limit: nat): (r: Option<HandleRead>)
    requires limit <= |b|
    ensures r.Some? ==> p < r.value.next <= limit
  {
    var offset := GetVarint64(b, p, limit);
    if offset.None? then None
    else
      var size := GetVarint64(b, offset.value.next, limit);
      if size.None? then None else Some(HandleRead(BlockHandle(offset.value.value, size.value.value), size.value.next))
  }

  lemma {:induction false} HandleReadsBack(b: Bytes, p: nat, limit: nat, h: BlockHandle)
    requires Fits(h) && limit <= |b| && At(b, p, EncodeHandle(h)) && p + |EncodeHandle(h)| <= limit
    ensures DecodeHandle(b, p, limit) == Some(HandleRead(h, p + |EncodeHandle(h)|))
  {
    var mid := p + |PutVarint(h.offset)|;
    AtSplit(b, p, EncodeHandle(h), PutVarint(h.offset), PutVarint(h.size), mid);
    Varint64ReadsBack(b, p, limit, h.offset);
    Varint64ReadsBack(b, mid, limit, h.size);
  }

  lemma {:induction false} WholeHandleReadsBack(b: Bytes, h: BlockHandle)
    requires Fits(h) && b == EncodeHandle(h)
    ensures DecodeHandle(b, 0, |b|) == Some(HandleRead(h, |b|))
  {
    SliceAt(b, 0, b);
    HandleReadsBack(b, 0, |b|, h);
  }

  /** Blocks at different places have different handles. */
  lemma {:induction false} HandlesDiffer(g: BlockHandle, h: BlockHandle)
    requires Fits(g) && Fits(h) && g != h
    ensures EncodeHandle(g) != EncodeHandle(h)
  {
    WholeHandleReadsBack(EncodeHandle(g), g);
    WholeHandleReadsBack(EncodeHandle(h), h);
  }

  lemma {:induction false} HandleLength(h: BlockHandle)
    requires Fits(h)
    ensures |EncodeHandle(h)| <= 20
  {
    TenBytesSuffice();
    VarintLength(h.offset, 10);
    VarintLength(h.size, 10);
  }

  // ----- Blocks in the file -----

  const BLOCK_TRAILER_SIZE: nat := 5

  const NO_COMPRESSION: Byte := 0

  function Trailer(crc: Crc, contents: Bytes): (r: Bytes)
    ensures |r| == BLOCK_TRAILER_SIZE
  {
    [NO_COMPRESSION] + PutFixed32(LogFile.Mask(crc(contents + [NO_COMPRESSION])))
  }

  /** A contiguous part of the file with its trailer. */
  ghost predicate RawStands(file: Bytes, crc: Crc, h: BlockHandle, contents: Bytes) {
    h.size == |contents| && At(file, h.offset, contents) && At(file, h.offset + h.size, Trailer(crc, contents))
  }

  /** What stands in a file still stands when the file has grown. */
  lemma {:induction false} AtGrown(b: Bytes, longer: Bytes, p: nat, bytes: Bytes)
    requires At(b, p, bytes) && b <= longer
    ensures At(longer, p, bytes)
  {
    forall i: nat
      ensures ByteIs(longer, p, bytes, i)
    {
      assert ByteIs(b, p, bytes, i);
    }
  }

  lemma {:induction false} RawStandsGrown(file: Bytes, longer: Bytes, crc: Crc, h: BlockHandle, contents: Bytes)
    requires RawStands(file, crc, h, contents) && file <= longer
    ensures RawStands(longer, crc, h, contents)
  {
    AtGrown(file, longer, h.offset, contents);
    AtGrown(file, longer, h.offset + h.size, Trailer(crc, contents));
  }

  function ReadBlock(file: Bytes, crc: Crc, verifyChecksums: bool, h: BlockHandle): (r: Option<Bytes>)
    ensures r.Some? ==> |r.value| == h.size && h.offset + h.size + BLOCK_TRAILER_SIZE <= |file|
  {
    var end := h.offset + h.size;
    if end + BLOCK_TRAILER_SIZE > |file| then None
    else if verifyChecksums && LogFile.Unmask(Fixed32At(file, end + 1)) != crc(file[h.offset..end + 1]) then None
    else if file[end] == NO_COMPRESSION then Some(file[h.offset..end])
    else None
  }

  lemma {:induction false} TrailerReadsBack(file: Bytes, crc: Crc, end: nat, contents: Bytes)
    requires At(file, end, Trailer(crc, contents))
    ensures end + BLOCK_TRAILER_SIZE <= |file| && file[end] == NO_COMPRESSION
    ensures LogFile.Unmask(Fixed32At(file, end + 1)) == crc(contents + [NO_COMPRESSION])
  {
    var stamp := LogFile.Mask(crc(contents + [NO_COMPRESSION]));
    AtSplit(file, end, Trailer(crc, contents), [NO_COMPRESSION], PutFixed32(stamp), end + 1);
    Fixed32ReadsBack(file, end + 1, stamp);
    LogFile.UnmaskMask(crc(contents + [NO_COMPRESSION]));
    assert ByteIs(file, end, [NO_COMPRESSION], 0);
  }

  lemma {:induction false} SliceGrows(b: Bytes, i: nat, j: nat, slice: Bytes, last: Byte)
    requires i <= j < |b| && b[i..j] == slice && b[j] == last
    ensures b[i..j + 1] == slice + [last]
  {
  }

  lemma {:induction false} RawReadsBack(file: Bytes, crc: Crc, verifyChecksums: bool, h: BlockHandle, contents: Bytes)
    requires RawStands(file, crc, h, contents)
    ensures ReadBlock(file, crc, verifyChecksums, h) == Some(contents)
  {
    hide At, Trailer, LogFile.Unmask;
    AtSlice(file, h.offset, contents);
    TrailerReadsBack(file, crc, h.offset + h.size, contents);
    SliceGrows(file, h.offset, h.offset + h.size, contents, NO_COMPRESSION);
  }

  /** What a finished block holds. */
  ghost predicate IsBlockOf(contents: Bytes, l: Layout) {
    && WellFormed(l) && RestartOffset(contents) == Some(l.offsets[|l.entries|]) && NumRestarts(contents) == |l.restarts|
    && Holds(contents, RestartOffset(contents).value, l)
  }

  /** A block that the builder wrote. */
  datatype Stored = Stored(handle: BlockHandle, contents: Bytes, layout: Layout)

  ghost predicate Stands(file: Bytes, crc: Crc, s: Stored) {
    && RawStands(file, crc, s.handle, s.contents)
    && (|s.contents| < 0x1_0000_0000 ==> IsBlockOf(s.contents, s.layout))
  }

  // ----- The footer -----

  const FOOTER_SIZE: nat := 48

  const MAGIC_LOW: Word := 0x8b80fb57

  const MAGIC_HIGH: Word := 0xdb477524

  function Zeros(n: nat): (r: Bytes)
    ensures |r| == n
  {
    if n == 0 then [] else [0] + Zeros(n - 1)
  }

  /** std::string::resize. */
  function Resized(b: Bytes, n: nat): (r: Bytes)
    ensures |r| == n
  {
    if |b| <= n then Joined(b, Zeros(n - |b|)) else b[..n]
  }

  function EncodeFooter(meta: BlockHandle, index: BlockHandle): (r: Bytes)
    ensures |r| == FOOTER_SIZE
  {
    Resized(EncodeHandle(meta) + EncodeHandle(index), 40) + (PutFixed32(MAGIC_LOW) + PutFixed32(MAGIC_HIGH))
  }

  datatype FooterRead = FooterRead(meta: BlockHandle, index: BlockHandle)

  /** The last bytes of a file. */
  function DecodeFooter(file: Bytes): Option<FooterRead>
    requires |file| >= FOOTER_SIZE
  {
    var p: nat := |file| - FOOTER_SIZE;
    if Fixed32At(file, p + 40) != MAGIC_LOW || Fixed32At(file, p + 44) != MAGIC_HIGH then None
    else
      var meta := DecodeHandle(file, p, |file|);
      if meta.None? then None
      else
        var index := DecodeHandle(file, meta.value.next, |file|);
        if index.None? then None else Some(FooterRead(meta.value.handle, index.value.handle))
  }

  lemma {:induction false} FooterReadsBack(file: Bytes, p: nat, meta: BlockHandle, index: BlockHandle)
    requires Fits(meta) && Fits(index) && |file| == p + FOOTER_SIZE && At(file, p, EncodeFooter(meta, index))
    ensures DecodeFooter(file) == Some(FooterRead(meta, index))
  {
    hide EncodeHandle, DecodeHandle, PutFixed32, Fixed32At, At, Zeros;
    var handles := EncodeHandle(meta) + EncodeHandle(index);
    HandleLength(meta);
    HandleLength(index);
    AtThree(file, p, EncodeFooter(meta, index), Resized(handles, 40), PutFixed32(MAGIC_LOW), PutFixed32(MAGIC_HIGH));
    Fixed32ReadsBack(file, p + 40, MAGIC_LOW);
    Fixed32ReadsBack(file, p + 44, MAGIC_HIGH);
    AtJoined(file, p, handles, Zeros(40 - |handles|));
    var mid := p + |EncodeHandle(meta)|;
    AtSplit(file, p, handles, EncodeHandle(meta), EncodeHandle(index), mid);
    HandleReadsBack(file, p, |file|, meta);
    HandleReadsBack(file, mid, |file|, index);
  }

  // ----- The table as a list of entries -----

  /** How many entries the first `n` blocks hold. */
  function StartOf(blocks: seq<Stored>, n: nat): nat
    requires n <= |blocks|
  {
    if n == 0 then 0 else StartOf(blocks, n - 1) + |blocks[n - 1].layout.entries|
  }

  /** The entries of the first `n` blocks. */
  function Flat(blocks: seq<Stored>, n: nat): (r: seq<KeyValue>)
    requires n <= |blocks|
    ensures |r| == StartOf(blocks, n)
  {
    if n == 0 then [] else Joined(Flat(blocks, n - 1), blocks[n - 1].layout.entries)
  }

  lemma {:induction false} StartsAscend(blocks: seq<Stored>, b: nat, n: nat)
    requires b <= n <= |blocks|
    ensures StartOf(blocks, b) <= StartOf(blocks, n)
    ensures b < n ==> StartOf(blocks, b) + |blocks[b].layout.entries| == StartOf(blocks, b + 1) <= StartOf(blocks, n)
    decreases n - b
  {
    if b < n {
      StartsAscend(blocks, b + 1, n);
    }
  }

  lemma {:induction false} FlatAt(blocks: seq<Stored>, n: nat, b: nat, i: nat)
    requires b < n <= |blocks| && i < |blocks[b].layout.entries|
    ensures StartOf(blocks, b) + i < StartOf(blocks, n)
    ensures Flat(blocks, n)[StartOf(blocks, b) + i] == blocks[b].layout.entries[i]
    decreases n
  {
    if b < n - 1 {
      FlatAt(blocks, n - 1, b, i);
    }
  }

  lemma {:induction false} FlatOfPrefix(blocks: seq<Stored>, more: Stored, n: nat)
    requires n <= |blocks|
    ensures Flat(blocks + [more], n) == Flat(blocks, n)
    ensures StartOf(blocks + [more], n) == StartOf(blocks, n)
  {
    if n > 0 {
      FlatOfPrefix(blocks, more, n - 1);
    }
  }

  /** Blocks of ascending entries are ascending themselves. */
  lemma {:induction false} BlockAscends(rank: Bytes -> real, blocks: seq<Stored>, b: nat)
    requires b < |blocks| && Ascending(rank, Flat(blocks, |blocks|))
    ensures Ascending(rank, blocks[b].layout.entries)
  {
    var es := blocks[b].layout.entries;
    forall i, j | 0 <= i < j < |es|
      ensures rank(es[i].key) < rank(es[j].key)
    {
      FlatAt(blocks, |blocks|, b, i);
      FlatAt(blocks, |blocks|, b, j);
    }
  }

  /** The index key of the block whose entries end before number `end`. */
  ghost predicate IndexKeyOk(c: Comparator, rank: Bytes -> real, entries: seq<KeyValue>, end: nat, key: Bytes) {
    && 0 < end <= |entries| && rank(entries[end - 1].key) <= rank(key)
    && (end < |entries| ==> Between(rank, c.group, entries[end - 1].key, entries[end].key, key))
  }

  ghost predicate IndexEntryOk(c: Comparator, rank: Bytes -> real, entries: seq<KeyValue>, blocks: seq<Stored>, e: KeyValue, b: nat)
    requires b < |blocks|
  {
    e.value == EncodeHandle(blocks[b].handle) && IndexKeyOk(c, rank, entries, StartOf(blocks, b + 1), e.key)
  }

  /** The index has an entry for each of the first blocks. */
  ghost predicate IndexOk(c: Comparator, rank: Bytes -> real, entries: seq<KeyValue>, blocks: seq<Stored>, index: seq<KeyValue>) {
    |index| <= |blocks| && forall b: nat :: b < |index| ==> IndexEntryOk(c, rank, entries, blocks, index[b], b)
  }

  lemma {:induction false} IndexAscends(c: Comparator, rank: Bytes -> real, entries: seq<KeyValue>, blocks: seq<Stored>, index: seq<KeyValue>)
    requires IndexOk(c, rank, entries, blocks, index) && Ascending(rank, entries)
    requires forall b: nat :: b < |blocks| ==> blocks[b].layout.entries != []
    ensures Ascending(rank, index)
  {
    forall i, j | 0 <= i < j < |index|
      ensures rank(index[i].key) < rank(index[j].key)
    {
      assert IndexEntryOk(c, rank, entries, blocks, index[i], i) && IndexEntryOk(c, rank, entries, blocks, index[j], j);
      StartsAscend(blocks, i + 1, j);
      StartsAscend(blocks, j, j + 1);
    }
  }

  /** Each block ends before the next one starts. */
  ghost predicate Placed(blocks: seq<Stored>, size: nat) {
    && (forall b: nat :: b < |blocks| ==> EndOf(blocks[b]) <= size)
    && forall b: nat, d: nat :: b < d < |blocks| ==> EndOf(blocks[b]) <= blocks[d].handle.offset
  }

  ghost function EndOf(s: Stored): nat {
    s.handle.offset + s.handle.size + BLOCK_TRAILER_SIZE
  }

  /** Different blocks have different handles. */
  lemma {:induction false} BlocksDiffer(file: Bytes, crc: Crc, blocks: seq<Stored>, b: nat, d: nat)
    requires b < d < |blocks| && Placed(blocks, |file|) && |file| < 0x1_0000_0000_0000_0000
    requires RawStands(file, crc, blocks[b].handle, blocks[b].contents) && RawStands(file, crc, blocks[d].handle, blocks[d].contents)
    ensures EncodeHandle(blocks[b].handle) != EncodeHandle(blocks[d].handle)
  {
    hide RawStands, EncodeHandle;
    RawFits(file, crc, blocks[b].handle, blocks[b].contents);
    RawFits(file, crc, blocks[d].handle, blocks[d].contents);
    HandlesDiffer(blocks[b].handle, blocks[d].handle);
  }

  // ----- The parts of a finished table -----

  datatype FilterPolicy = FilterPolicy(name: Bytes, policy: Policy)

  /** "filter." and the name of the policy. */
  function FilterKey(name: Bytes): Bytes {
    [102, 105, 108, 116, 101, 114, 46] + name
  }

  datatype Parts = Parts(blocks: seq<Stored>, index: Stored, meta: Stored, filter: BlockHandle, filterContents: Bytes)

  ghost function Entries(t: Parts): seq<KeyValue> {
    Flat(t.blocks, |t.blocks|)
  }

  ghost predicate BlockOk(file: Bytes, crc: Crc, s: Stored) {
    Stands(file, crc, s) && s.layout.entries != []
  }

  /** The filter lets every key of every block through. */
  ghost predicate FilterOk(policy: Policy, contents: Bytes, blocks: seq<Stored>) {
    FindsOwn(policy) && |contents| < 0x1_0000_0000 ==>
      forall b: nat, e :: b < |blocks| && e in blocks[b].layout.entries ==> MayMatch(policy, contents, blocks[b].handle.offset, e.key)
  }

  ghost predicate IsTable(file: Bytes, crc: Crc, c: Comparator, rank: Bytes -> real, fp: Option<FilterPolicy>, t: Parts) {
    && |file| < 0x1_0000_0000_0000_0000
    && (forall b: nat :: b < |t.blocks| ==> BlockOk(file, crc, t.blocks[b])) && Placed(t.blocks, |file|)
    && Ascending(rank, Entries(t))
    && Stands(file, crc, t.index) && |t.index.layout.entries| == |t.blocks|
    && IndexOk(c, rank, Entries(t), t.blocks, t.index.layout.entries)
    && Stands(file, crc, t.meta) && MetaOk(file, crc, fp, t)
    && |file| >= FOOTER_SIZE && At(file, |file| - FOOTER_SIZE, EncodeFooter(t.meta.handle, t.index.handle))
  }

  /** The metaindex tells where the filter is. */
  ghost function MetaEntries(fp: Option<FilterPolicy>, filter: BlockHandle): seq<KeyValue> {
    if fp.None? then [] else [KeyValue(FilterKey(fp.value.name), EncodeHandle(filter))]
  }

  ghost predicate MetaOk(file: Bytes, crc: Crc, fp: Option<FilterPolicy>, t: Parts) {
    && t.meta.layout.entries == MetaEntries(fp, t.filter) && (fp.None? ==> t.filterContents == [])
    && (fp.Some? ==> RawStands(file, crc, t.filter, t.filterContents) && FilterOk(fp.value.policy, t.filterContents, t.blocks))
  }

  /** Restart points are 32 bits wide: no block may be larger. */
  ghost predicate Readable(t: Parts) {
    && (forall b: nat :: b < |t.blocks| ==> |t.blocks[b].contents| < 0x1_0000_0000)
    && |t.index.contents| < 0x1_0000_0000 && |t.meta.contents| < 0x1_0000_0000 && |t.filterContents| < 0x1_0000_0000
  }

  lemma {:induction false} RawFits(file: Bytes, crc: Crc, h: BlockHandle, contents: Bytes)
    requires RawStands(file, crc, h, contents) && |file| < 0x1_0000_0000_0000_0000
    ensures Fits(h) && h.offset + h.size + BLOCK_TRAILER_SIZE <= |file|
  {
  }

  /** A file below 4 GB can be read. */
  lemma {:induction false} SmallFileIsReadable(file: Bytes, crc: Crc, c: Comparator, rank: Bytes -> real, fp: Option<FilterPolicy>, t: Parts)
    requires IsTable(file, crc, c, rank, fp, t) && |file| < 0x1_0000_0000
    ensures Readable(t)
  {
    hide IndexOk, FilterOk, Ascending, Placed, IsBlockOf, RawStands;
    forall b: nat | b < |t.blocks|
      ensures |t.blocks[b].contents| < 0x1_0000_0000
    {
      assert BlockOk(file, crc, t.blocks[b]);
      RawIsWithin(file, crc, t.blocks[b].handle, t.blocks[b].contents);
    }
    RawIsWithin(file, crc, t.index.handle, t.index.contents);
    RawIsWithin(file, crc, t.meta.handle, t.meta.contents);
    if fp.Some? { RawIsWithin(file, crc, t.filter, t.filterContents); }
  }

  lemma {:induction false} RawIsWithin(file: Bytes, crc: Crc, h: BlockHandle, contents: Bytes)
    requires RawStands(file, crc, h, contents)
    ensures |contents| < |file|
  {
  }
}
