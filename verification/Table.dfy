/** Reading a table: point lookups through index and filter, and the iterator over all entries. */
module Tables {
  import opened ByteOrder
  import opened DbFormat
  import opened Coding
  import opened KeyOrder
  import opened Block
  import opened FilterBlock
  import opened TableFormat

  /** Number `i` is the first entry from `k` on, or there is none. */
  ghost predicate IsFirst(rank: Bytes -> real, entries: seq<KeyValue>, k: Bytes, i: nat) {
    && i <= |entries| && (forall j :: 0 <= j < i ==> rank(entries[j].key) < rank(k))
    && (i < |entries| ==> rank(k) <= rank(entries[i].key))
  }

  /** A lookup hands out the first entry from the key on, and does so whenever that is one of the same group. */
  ghost predicate IsAnswer(rank: Bytes -> real, group: Bytes -> Bytes, entries: seq<KeyValue>, k: Bytes, r: Option<KeyValue>, i: nat) {
    IsFirst(rank, entries, k, i) ==>
      && (r.Some? ==> i < |entries| && r.value == entries[i])
      && (i < |entries| && group(entries[i].key) == group(k) ==> r == Some(entries[i]))
  }

  /** A filter policy looks only at what a lookup must meet exactly. */
  ghost predicate SeesGroups(policy: Policy, group: Bytes -> Bytes) {
    forall a, b, filter :: group(a) == group(b) ==> policy.mayMatch(a, filter) == policy.mayMatch(b, filter)
  }

  lemma {:induction false} SameGroupMatches(policy: Policy, group: Bytes -> Bytes, contents: Bytes, blockOffset: nat, a: Bytes, b: Bytes)
    requires SeesGroups(policy, group) && group(a) == group(b)
    ensures MayMatch(policy, contents, blockOffset, a) == MayMatch(policy, contents, blockOffset, b)
  {
  }

  // ----- Where the first entry from a key on can be -----

  /** It is not in a block whose index key is smaller. */
  lemma {:induction false} NotBefore(c: Comparator, rank: Bytes -> real, entries: seq<KeyValue>, blocks: seq<Stored>, index: seq<KeyValue>, k: Bytes, b: nat)
    requires Ascending(rank, entries) && IndexOk(c, rank, entries, blocks, index) && b <= |index|
    requires b > 0 ==> rank(index[b - 1].key) < rank(k)
    ensures StartOf(blocks, b) <= |entries|
    ensures forall j :: 0 <= j < StartOf(blocks, b) ==> rank(entries[j].key) < rank(k)
  {
    if b > 0 {
      assert IndexEntryOk(c, rank, entries, blocks, index[b - 1], b - 1);
    }
  }

  /** It is the first of the block of the index entry, if that has one; otherwise it is further on. */
  lemma {:induction false} FirstInBlock(rank: Bytes -> real, blocks: seq<Stored>, k: Bytes, b: nat, j: nat)
    requires b < |blocks| && Ascending(rank, Flat(blocks, |blocks|))
    requires forall i :: 0 <= i < StartOf(blocks, b) ==> i < |Flat(blocks, |blocks|)| && rank(Flat(blocks, |blocks|)[i].key) < rank(k)
    requires IsFirst(rank, blocks[b].layout.entries, k, j)
    ensures StartOf(blocks, b) + j <= |Flat(blocks, |blocks|)|
    ensures if j < |blocks[b].layout.entries| then IsFirst(rank, Flat(blocks, |blocks|), k, StartOf(blocks, b) + j)
            else forall i :: 0 <= i < StartOf(blocks, b + 1) ==> i < |Flat(blocks, |blocks|)| && rank(Flat(blocks, |blocks|)[i].key) < rank(k)
  {
    StartsAscend(blocks, b, |blocks|);
    var start := StartOf(blocks, b);
    forall i | start <= i < start + j
      ensures rank(Flat(blocks, |blocks|)[i].key) < rank(k)
    {
      FlatAt(blocks, |blocks|, b, i - start);
    }
    if j < |blocks[b].layout.entries| {
      FlatAt(blocks, |blocks|, b, j);
    }
  }

  /** Past the block, keys up to the index key find no entry of their group. */
  lemma {:induction false} NothingPastBlock(c: Comparator, rank: Bytes -> real, entries: seq<KeyValue>, blocks: seq<Stored>, index: seq<KeyValue>,
                         k: Bytes, b: nat, i: nat)
    requires Ascending(rank, entries) && IndexOk(c, rank, entries, blocks, index) && b < |index|
    requires rank(k) <= rank(index[b].key) && StartOf(blocks, b + 1) <= i < |entries|
    requires forall j :: 0 <= j < StartOf(blocks, b + 1) ==> rank(entries[j].key) < rank(k)
    ensures c.group(entries[i].key) != c.group(k)
  {
    assert IndexEntryOk(c, rank, entries, blocks, index[b], b);
    var end := StartOf(blocks, b + 1);
    assert rank(entries[end].key) <= rank(entries[i].key);
  }

  /** The first entry from a key on comes right after the block when the block has none. */
  lemma {:induction false} FirstPastBlock(c: Comparator, rank: Bytes -> real, entries: seq<KeyValue>, blocks: seq<Stored>, index: seq<KeyValue>, k: Bytes, b: nat)
    requires IndexOk(c, rank, entries, blocks, index) && b < |index| && rank(k) <= rank(index[b].key)
    requires forall j :: 0 <= j < StartOf(blocks, b + 1) ==> j < |entries| && rank(entries[j].key) < rank(k)
    ensures IsFirst(rank, entries, k, StartOf(blocks, b + 1))
  {
    assert IndexEntryOk(c, rank, entries, blocks, index[b], b);
  }

  lemma {:induction false} FirstIsUnique(rank: Bytes -> real, entries: seq<KeyValue>, k: Bytes, i: nat, j: nat)
    requires IsFirst(rank, entries, k, i) && IsFirst(rank, entries, k, j)
    ensures i == j
  {
  }

  // ----- The answers of a lookup -----

  /** No index key reaches `k`: neither does an entry. */
  lemma {:induction false} PastTheIndex(c: Comparator, rank: Bytes -> real, blocks: seq<Stored>, index: seq<KeyValue>, k: Bytes, i: nat)
    requires Ascending(rank, Flat(blocks, |blocks|)) && IndexOk(c, rank, Flat(blocks, |blocks|), blocks, index) && |index| == |blocks|
    requires |index| > 0 ==> rank(index[|index| - 1].key) < rank(k)
    ensures IsAnswer(rank, c.group, Flat(blocks, |blocks|), k, None, i)
  {
    NotBefore(c, rank, Flat(blocks, |blocks|), blocks, index, k, |index|);
  }

  /** The block of the first index key from `k` on was searched. */
  lemma {:induction false} BlockAnswers(c: Comparator, rank: Bytes -> real, blocks: seq<Stored>, index: seq<KeyValue>, k: Bytes, b: nat, j: nat, i: nat)
    requires Ascending(rank, Flat(blocks, |blocks|)) && IndexOk(c, rank, Flat(blocks, |blocks|), blocks, index) && b < |index|
    requires (b > 0 ==> rank(index[b - 1].key) < rank(k)) && rank(k) <= rank(index[b].key)
    requires IsFirst(rank, blocks[b].layout.entries, k, j)
    ensures var es := blocks[b].layout.entries;
            IsAnswer(rank, c.group, Flat(blocks, |blocks|), k, if j < |es| then Some(es[j]) else None, i)
  {
    var entries := Flat(blocks, |blocks|);
    NotBefore(c, rank, entries, blocks, index, k, b);
    FirstInBlock(rank, blocks, k, b, j);
    if IsFirst(rank, entries, k, i) {
      if j < |blocks[b].layout.entries| {
        FirstIsUnique(rank, entries, k, i, StartOf(blocks, b) + j);
        FlatAt(blocks, |blocks|, b, j);
      } else if i < |entries| {
        FirstPastBlock(c, rank, entries, blocks, index, k, b);
        FirstIsUnique(rank, entries, k, i, StartOf(blocks, b + 1));
        NothingPastBlock(c, rank, entries, blocks, index, k, b, i);
      }
    }
  }

  /** A block that the filter rules out has no entry of the group. */
  lemma {:induction false} FilterAnswers(c: Comparator, rank: Bytes -> real, blocks: seq<Stored>, index: seq<KeyValue>, k: Bytes, b: nat, i: nat,
                      policy: Policy, contents: Bytes)
    requires Ascending(rank, Flat(blocks, |blocks|)) && IndexOk(c, rank, Flat(blocks, |blocks|), blocks, index) && b < |index|
    requires (b > 0 ==> rank(index[b - 1].key) < rank(k)) && rank(k) <= rank(index[b].key)
    requires FilterOk(policy, contents, blocks) && FindsOwn(policy) && |contents| < 0x1_0000_0000 && SeesGroups(policy, c.group)
    requires !MayMatch(policy, contents, blocks[b].handle.offset, k)
    ensures IsAnswer(rank, c.group, Flat(blocks, |blocks|), k, None, i)
  {
    var es := blocks[b].layout.entries;
    BlockAscends(rank, blocks, b);
    var j := FirstIndex(rank, es, k, 0);
    BlockAnswers(c, rank, blocks, index, k, b, j, i);
    if j < |es| {
      assert es[j] in es;
      if c.group(es[j].key) == c.group(k) {
        SameGroupMatches(policy, c.group, contents, blocks[b].handle.offset, es[j].key, k);
      }
    }
  }

  ghost function FirstIndex(rank: Bytes -> real, entries: seq<KeyValue>, k: Bytes, i: nat): (r: nat)
    requires i <= |entries| && forall j :: 0 <= j < i ==> rank(entries[j].key) < rank(k)
    ensures IsFirst(rank, entries, k, r)
    decreases |entries| - i
  {
    if i == |entries| || rank(k) <= rank(entries[i].key) then i else FirstIndex(rank, entries, k, i + 1)
  }

  // ----- The table -----

  /** Block::NewIterator; null stands for the iterators without entries. */
  method NewIterator(contents: Bytes, ordering: Ordering, ghost rank: Bytes -> real, ghost l: Layout) returns (iter: Iter?)
    ensures iter != null ==> fresh(iter) && iter.Valid() && iter.comparator == ordering
    ensures IsBlockOf(contents, l) && Orders(ordering, rank) && Ascending(rank, l.entries) ==> iter != null && Runs(iter, l, rank)
  {
    hide Holds, Ascending, Orders;
    iter := null;
    var restartOffset := RestartOffset(contents);
    if IsBlockOf(contents, l) { assert RestartOk(l, 0); }
    if restartOffset.Some? && NumRestarts(contents) > 0 {
      iter := new Iter(ordering, contents, restartOffset.value, NumRestarts(contents), rank, l);
    }
  }

  /** The iterator is a cursor over the entries of `l`. */
  ghost predicate Runs(iter: Iter, l: Layout, rank: Bytes -> real)
    reads iter
  {
    iter.Valid() && iter.IsBlock() && iter.layout == l && iter.rank == rank && iter.at <= |l.entries|
  }

  /** The filter has been read, the handle can be read, and the filter says no. */
  predicate Excludes(filter: FilterBlockReader, handleValue: Bytes, k: Bytes) {
    var handle := DecodeHandle(handleValue, 0, |handleValue|);
    handle.Some? && !MayMatch(filter.policy, filter.contents, handle.value.handle.offset, k)
  }

  datatype FilterBlockReader = FilterBlockReader(policy: Policy, contents: Bytes)

  class Table {
    const comparator: Comparator
    const file: Bytes
    const crc: Crc
    const filterPolicy: Option<FilterPolicy>
    const indexBlock: Bytes
    const filter: Option<FilterBlockReader>
    ghost const rank: Bytes -> real
    ghost const written: Option<FilterPolicy>   // the filter policy of the writer
    ghost const t: Parts

    ghost predicate Valid() {
      && Suits(comparator, rank) && IsTable(file, crc, comparator, rank, written, t) && Readable(t)
      && indexBlock == t.index.contents
      && (filter.Some? ==>
            && filterPolicy.Some? && filter.value == FilterBlockReader(filterPolicy.value.policy, t.filterContents)
            && FilterOk(filter.value.policy, filter.value.contents, t.blocks))
    }

    constructor (comparator: Comparator, file: Bytes, crc: Crc, filterPolicy: Option<FilterPolicy>, indexBlock: Bytes, filter: Option<FilterBlockReader>,
                 ghost rank: Bytes -> real, ghost written: Option<FilterPolicy>, ghost t: Parts)
      ensures this.comparator == comparator && this.file == file && this.crc == crc && this.filterPolicy == filterPolicy
      ensures this.indexBlock == indexBlock && this.filter == filter && this.rank == rank && this.written == written && this.t == t
    {
      this.comparator, this.file, this.crc, this.filterPolicy := comparator, file, crc, filterPolicy;
      this.indexBlock, this.filter, this.rank, this.written, this.t := indexBlock, filter, rank, written, t;
    }

    /** A table of a writer opens; null stands for the errors on other files. */
    static method Open(comparator: Comparator, file: Bytes, crc: Crc, filterPolicy: Option<FilterPolicy>, paranoid: bool,
                       ghost rank: Bytes -> real, ghost written: Option<FilterPolicy>, ghost t: Parts) returns (table: Table?)
      requires filterPolicy.Some? && written.Some? && filterPolicy.value.name == written.value.name ==> filterPolicy == written
      ensures table != null ==> fresh(table) && table.comparator == comparator && table.filterPolicy == filterPolicy && table.t == t && table.rank == rank
      ensures Suits(comparator, rank) && IsTable(file, crc, comparator, rank, written, t) && Readable(t) ==>
                table != null && table.Valid() && (table.filter.Some? <==> filterPolicy.Some? && filterPolicy == written)
    {
      hide BlockOk, Placed, Ascending, IndexOk, FilterOk, Suits, At, IsBlockOf, RawStands;
      if |file| < FOOTER_SIZE {
        return null;
      }
      if IsTable(file, crc, comparator, rank, written, t) {
        RawFits(file, crc, t.meta.handle, t.meta.contents);
        RawFits(file, crc, t.index.handle, t.index.contents);
        FooterReadsBack(file, |file| - FOOTER_SIZE, t.meta.handle, t.index.handle);
        RawReadsBack(file, crc, paranoid, t.index.handle, t.index.contents);
      }
      var footer := DecodeFooter(file);
      if footer.None? {
        return null;
      }
      var index := ReadBlock(file, crc, paranoid, footer.value.index);
      if index.None? {
        return null;
      }
      var filter := ReadMeta(file, crc, filterPolicy, paranoid, footer.value.meta, rank, comparator, written, t);
      var reader := if filter.Some? then Some(FilterBlockReader(filterPolicy.value.policy, filter.value)) else None;
      table := new Table(comparator, file, crc, filterPolicy, index.value, reader, rank, written, t);
    }

    /** The filter, if the metaindex knows one of that name. */
    static method ReadMeta(file: Bytes, crc: Crc, filterPolicy: Option<FilterPolicy>, paranoid: bool, handle: BlockHandle,
                           ghost rank: Bytes -> real, ghost comparator: Comparator, ghost written: Option<FilterPolicy>, ghost t: Parts)
      returns (filter: Option<Bytes>)
      requires filterPolicy.Some? && written.Some? && filterPolicy.value.name == written.value.name ==> filterPolicy == written
      ensures filter.Some? ==> filterPolicy.Some?
      ensures IsTable(file, crc, comparator, rank, written, t) && Readable(t) && handle == t.meta.handle && filter.Some? ==>
                filter.value == t.filterContents && FilterOk(filterPolicy.value.policy, filter.value, t.blocks)
      ensures IsTable(file, crc, comparator, rank, written, t) && Readable(t) && handle == t.meta.handle ==>
                (filter.Some? <==> filterPolicy.Some? && filterPolicy == written)
    {
      hide BlockOk, Placed, Ascending, IndexOk, FilterOk, Suits, At, IsBlockOf, RawStands, Orders, OrdersAt;
      if filterPolicy.None? {
        return None;
      }
      ghost var good := IsTable(file, crc, comparator, rank, written, t) && Readable(t) && handle == t.meta.handle;
      if good { RawReadsBack(file, crc, paranoid, t.meta.handle, t.meta.contents); }
      var contents := ReadBlock(file, crc, paranoid, handle);
      if contents.None? {
        return None;
      }
      BytewiseSuits();
      MetaAscends(written, t.filter);
      SuitsOrders(BytewiseComparator(), Rank);
      var iter := NewIterator(contents.value, Compare, Rank, t.meta.layout);
      if iter == null {
        return None;
      }
      var key := FilterKey(filterPolicy.value.name);
      iter.Seek(key);
      if good {
        iter.OnKeyIffOnEntry();
        SeekFindsOnly(t.meta.layout.entries, key, iter.at);
      }
      if !iter.OnKey() || iter.key != key {
        return None;
      }
      if good { NamesMatch(filterPolicy.value.name, written.value.name); }
      filter := ReadFilter(file, crc, paranoid, iter.Value(), if good then t.filterContents else [], t.filter, good);
    }

    static method ReadFilter(file: Bytes, crc: Crc, paranoid: bool, value: Bytes, ghost contents: Bytes, ghost handle: BlockHandle, ghost good: bool)
      returns (filter: Option<Bytes>)
      ensures good && value == EncodeHandle(handle) && |file| < 0x1_0000_0000_0000_0000 && RawStands(file, crc, handle, contents) ==>
                filter == Some(contents)
    {
      hide RawStands;
      if value == EncodeHandle(handle) && |file| < 0x1_0000_0000_0000_0000 && RawStands(file, crc, handle, contents) {
        RawFits(file, crc, handle, contents);
        WholeHandleReadsBack(value, handle);
        RawReadsBack(file, crc, paranoid, handle, contents);
      }
      var filterHandle := DecodeHandle(value, 0, |value|);
      if filterHandle.None? {
        return None;
      }
      filter := ReadBlock(file, crc, paranoid, filterHandle.value.handle);
    }

    /** An iterator over the block that an index value points to. */
    method BlockReader(verifyChecksums: bool, indexValue: Bytes, ghost b: nat) returns (iter: Iter?)
      ensures iter != null ==> fresh(iter) && iter.Valid()
      ensures Valid() && b < |t.blocks| && indexValue == EncodeHandle(t.blocks[b].handle) ==>
                iter != null && Runs(iter, t.blocks[b].layout, rank) && iter.comparator == comparator.compare
    {
      hide BlockOk, Placed, IndexOk, FilterOk, Suits, Stands, IsBlockOf, RawStands, Ascending, Orders;
      ghost var good := Valid() && b < |t.blocks| && indexValue == EncodeHandle(t.blocks[b].handle);
      ghost var l := if good then t.blocks[b].layout else Layout([], [0], [], [0]);
      if good {
        assert BlockOk(file, crc, t.blocks[b]);
        HandleFindsBlock(file, crc, verifyChecksums, t.blocks[b], indexValue);
        BlockAscends(rank, t.blocks, b);
        SuitsOrders(comparator, rank);
      }
      iter := null;
      var handle := DecodeHandle(indexValue, 0, |indexValue|);
      if handle.Some? {
        var contents := ReadBlock(file, crc, verifyChecksums, handle.value.handle);
        if contents.Some? {
          iter := NewIterator(contents.value, comparator.compare, rank, l);
        }
      }
    }

    /** The filter is one of the user's policy, which never hides a key it has seen. */
    ghost predicate Trusted() {
      filterPolicy.Some? ==> FindsOwn(filterPolicy.value.policy) && SeesGroups(filterPolicy.value.policy, comparator.group)
    }

    method InternalGet(verifyChecksums: bool, k: Bytes) returns (r: Option<KeyValue>)
      ensures Valid() && Trusted() ==> AllAnswer(rank, comparator.group, Entries(t), k, r)
    {
      hide IsTable, Readable, FilterOk, Suits, AllAnswer, MayMatch, SeesGroups, FindsOwn, IndexSeeks;
      r := None;
      var iiter := IndexIterator();
      if iiter == null {
        return;
      }
      iiter.Seek(k);
      ghost var b := iiter.at;
      if Valid() {
        TableFacts();
        iiter.OnKeyIffOnEntry();
        SeekFindsIndex(iiter, k);
      }
      if iiter.OnKey() {
        if Valid() { HandleIsRead(b, iiter.Value()); }
        if filter.Some? && Excludes(filter.value, iiter.Value(), k) {
          if Valid() && Trusted() {
            FilterTells(comparator, rank, t, k, b, filter.value.policy, filter.value.contents);
          }
        } else {
          r := BlockGet(verifyChecksums, iiter.Value(), k, b);
        }
      } else if Valid() {
        SearchAnswers(comparator, rank, t, k, b, 0);
      }
    }

    /** The first entry from `k` on in one block. */
    method BlockGet(verifyChecksums: bool, indexValue: Bytes, k: Bytes, ghost b: nat) returns (r: Option<KeyValue>)
      requires Valid() ==>
                 && b < |t.blocks| == |t.index.layout.entries| && indexValue == EncodeHandle(t.blocks[b].handle)
                 && Ascending(rank, Entries(t)) && IndexOk(comparator, rank, Entries(t), t.blocks, t.index.layout.entries)
                 && IndexSeeks(rank, t.index.layout.entries, k, b)
      ensures Valid() ==> AllAnswer(rank, comparator.group, Entries(t), k, r)
    {
      hide Valid, Ascending, IndexOk, IndexSeeks, AllAnswer;
      r := None;
      var blockIter := BlockReader(verifyChecksums, indexValue, b);
      if blockIter != null {
        blockIter.Seek(k);
        if Valid() {
          blockIter.OnKeyIffOnEntry();
          SearchAnswers(comparator, rank, t, k, b, blockIter.at);
        }
        if blockIter.OnKey() {
          r := Some(KeyValue(blockIter.key, blockIter.Value()));
        }
      }
    }

    lemma {:induction false} TableFacts()
      requires Valid()
      ensures Ascending(rank, Entries(t)) && |t.index.layout.entries| == |t.blocks|
      ensures IndexOk(comparator, rank, Entries(t), t.blocks, t.index.layout.entries)
      ensures |t.filterContents| < 0x1_0000_0000
    {
    }

    lemma {:induction false} HandleIsRead(b: nat, value: Bytes)
      requires Valid() && b < |t.blocks| && value == t.index.layout.entries[b].value
      ensures value == EncodeHandle(t.blocks[b].handle)
      ensures DecodeHandle(value, 0, |value|) == Some(HandleRead(t.blocks[b].handle, |value|))
    {
      hide Ascending, IndexKeyOk, FilterOk, IsBlockOf, At, Suits;
      assert IndexEntryOk(comparator, rank, Entries(t), t.blocks, t.index.layout.entries[b], b);
      assert BlockOk(file, crc, t.blocks[b]);
      RawFits(file, crc, t.blocks[b].handle, t.blocks[b].contents);
      WholeHandleReadsBack(value, t.blocks[b].handle);
    }

    lemma {:induction false} SeekFindsIndex(iiter: Iter, k: Bytes)
      requires Runs(iiter, t.index.layout, rank) && iiter.AtSeek(k)
      ensures IndexSeeks(rank, t.index.layout.entries, k, iiter.at)
    {
    }

    method IndexIterator() returns (iter: Iter?)
      ensures iter != null ==> fresh(iter) && iter.Valid()
      ensures Valid() ==> iter != null && Runs(iter, t.index.layout, rank) && iter.comparator == comparator.compare
    {
      hide BlockOk, Placed, IndexOk, FilterOk, IsBlockOf, RawStands, Ascending, Suits, Orders;
      if Valid() {
        BlocksHaveEntries(file, crc, t.blocks);
        IndexAscends(comparator, rank, Entries(t), t.blocks, t.index.layout.entries);
        SuitsOrders(comparator, rank);
      }
      iter := NewIterator(indexBlock, comparator.compare, rank, t.index.layout);
    }
  }

  ghost predicate AllAnswer(rank: Bytes -> real, group: Bytes -> Bytes, entries: seq<KeyValue>, k: Bytes, r: Option<KeyValue>) {
    forall i: nat :: IsAnswer(rank, group, entries, k, r, i)
  }

  /** What a cursor at the first index key from `k` on tells. */
  ghost predicate IndexSeeks(rank: Bytes -> real, index: seq<KeyValue>, k: Bytes, b: nat) {
    && b <= |index| && (b > 0 ==> rank(index[b - 1].key) < rank(k)) && (b < |index| ==> rank(k) <= rank(index[b].key))
  }

  lemma {:induction false} SearchAnswers(c: Comparator, rank: Bytes -> real, t: Parts, k: Bytes, b: nat, j: nat)
    requires Ascending(rank, Entries(t)) && |t.index.layout.entries| == |t.blocks|
    requires IndexOk(c, rank, Entries(t), t.blocks, t.index.layout.entries) && IndexSeeks(rank, t.index.layout.entries, k, b)
    requires b < |t.blocks| ==> IsFirst(rank, t.blocks[b].layout.entries, k, j)
    ensures AllAnswer(rank, c.group, Entries(t), k,
                      if b < |t.blocks| && j < |t.blocks[b].layout.entries| then Some(t.blocks[b].layout.entries[j]) else None)
  {
    hide Ascending, IndexOk, IsFirst, IsAnswer;
    var r := if b < |t.blocks| && j < |t.blocks[b].layout.entries| then Some(t.blocks[b].layout.entries[j]) else None;
    forall i: nat
      ensures IsAnswer(rank, c.group, Entries(t), k, r, i)
    {
      if b < |t.blocks| {
        BlockAnswers(c, rank, t.blocks, t.index.layout.entries, k, b, j, i);
      } else {
        PastTheIndex(c, rank, t.blocks, t.index.layout.entries, k, i);
      }
    }
  }

  lemma {:induction false} FilterTells(c: Comparator, rank: Bytes -> real, t: Parts, k: Bytes, b: nat, policy: Policy, contents: Bytes)
    requires Ascending(rank, Entries(t)) && b < |t.index.layout.entries| == |t.blocks|
    requires IndexOk(c, rank, Entries(t), t.blocks, t.index.layout.entries) && IndexSeeks(rank, t.index.layout.entries, k, b)
    requires FilterOk(policy, contents, t.blocks) && FindsOwn(policy) && |contents| < 0x1_0000_0000 && SeesGroups(policy, c.group)
    requires !MayMatch(policy, contents, t.blocks[b].handle.offset, k)
    ensures AllAnswer(rank, c.group, Entries(t), k, None)
  {
    hide Ascending, IndexOk, IsFirst, IsAnswer, FilterOk, MayMatch, SeesGroups;
    forall i: nat
      ensures IsAnswer(rank, c.group, Entries(t), k, None, i)
    {
      FilterAnswers(c, rank, t.blocks, t.index.layout.entries, k, b, i, policy, contents);
    }
  }

  lemma {:induction false} HandleFindsBlock(file: Bytes, crc: Crc, verifyChecksums: bool, s: Stored, indexValue: Bytes)
    requires BlockOk(file, crc, s) && |file| < 0x1_0000_0000_0000_0000 && |s.contents| < 0x1_0000_0000 && indexValue == EncodeHandle(s.handle)
    ensures DecodeHandle(indexValue, 0, |indexValue|) == Some(HandleRead(s.handle, |indexValue|))
    ensures ReadBlock(file, crc, verifyChecksums, s.handle) == Some(s.contents) && IsBlockOf(s.contents, s.layout)
  {
    hide IsBlockOf, RawStands;
    RawFits(file, crc, s.handle, s.contents);
    WholeHandleReadsBack(indexValue, s.handle);
    RawReadsBack(file, crc, verifyChecksums, s.handle, s.contents);
  }

  lemma {:induction false} SuitsOrders(c: Comparator, rank: Bytes -> real)
    requires Suits(c, rank)
    ensures Orders(c.compare, rank)
  {
  }

  lemma {:induction false} BlocksHaveEntries(file: Bytes, crc: Crc, blocks: seq<Stored>)
    requires forall b: nat :: b < |blocks| ==> BlockOk(file, crc, blocks[b])
    ensures forall b: nat :: b < |blocks| ==> blocks[b].layout.entries != []
  {
    forall b: nat | b < |blocks|
      ensures blocks[b].layout.entries != []
    {
      assert BlockOk(file, crc, blocks[b]);
    }
  }

  lemma {:induction false} MetaAscends(fp: Option<FilterPolicy>, filter: BlockHandle)
    ensures Ascending(Rank, MetaEntries(fp, filter))
  {
  }

  lemma {:induction false} NamesMatch(a: Bytes, b: Bytes)
    requires FilterKey(a) == FilterKey(b)
    ensures a == b
  {
    assert FilterKey(a)[7..] == a && FilterKey(b)[7..] == b;
  }

  /** In a list with one entry, seeking its key finds it, and seeking another key finds no entry with that key. */
  lemma {:induction false} SeekFindsOnly(entries: seq<KeyValue>, key: Bytes, at: nat)
    requires |entries| <= 1 && at <= |entries|
    requires forall j :: 0 <= j < at ==> Rank(entries[j].key) < Rank(key)
    ensures at < |entries| && entries[at].key == key <==> entries != [] && entries[0].key == key
  {
  }
}
