/** Building a table file: data blocks, an index with shortened keys, a filter block and a footer. */
module TableBuilding {
  import opened ByteOrder
  import opened DbFormat
  import opened Coding
  import opened KeyOrder
  import opened Block
  import opened FilterBlock
  import opened TableFormat

  // ----- What holds between the calls -----

  /** The written blocks and the entries of the block being built make up all entries. */
  ghost predicate BlocksOk(file: Bytes, crc: Crc, rank: Bytes -> real, entries: seq<KeyValue>, stored: seq<Stored>, data: seq<KeyValue>) {
    && (forall b: nat :: b < |stored| ==> BlockOk(file, crc, stored[b])) && Placed(stored, |file|)
    && entries == Joined(Flat(stored, |stored|), data) && Ascending(rank, entries)
  }

  /** The first `n` keys were added to the filter of a slot. */
  ghost predicate Covers(added: set<(nat, Bytes)>, slot: nat, entries: seq<KeyValue>, n: nat)
    requires n <= |entries|
  {
    n == 0 || (Covers(added, slot, entries, n - 1) && (slot, entries[n - 1].key) in added)
  }

  /** The keys of the first `n` blocks were added to the filters of their slots. */
  ghost predicate AllCovered(added: set<(nat, Bytes)>, stored: seq<Stored>, n: nat)
    requires n <= |stored|
  {
    if n == 0 then true
    else
      var s := stored[n - 1];
      AllCovered(added, stored, n - 1) && Covers(added, s.handle.offset / 2048, s.layout.entries, |s.layout.entries|)
  }

  lemma {:induction false} CoversGrows(added: set<(nat, Bytes)>, slot: nat, entries: seq<KeyValue>, more: set<(nat, Bytes)>, entries': seq<KeyValue>, n: nat)
    requires n <= |entries| <= |entries'| && Covers(added, slot, entries, n) && added <= more
    requires forall i :: 0 <= i < |entries| ==> entries'[i] == entries[i]
    ensures Covers(more, slot, entries', n)
  {
    if n > 0 {
      CoversGrows(added, slot, entries, more, entries', n - 1);
    }
  }

  lemma {:induction false} KeyIsCovered(added: set<(nat, Bytes)>, slot: nat, entries: seq<KeyValue>, kv: KeyValue)
    requires Covers(added, slot, entries, |entries|)
    ensures Covers(added + {(slot, kv.key)}, slot, Joined(entries, [kv]), |entries| + 1)
  {
    CoversGrows(added, slot, entries, added + {(slot, kv.key)}, Joined(entries, [kv]), |entries|);
  }

  lemma {:induction false} AllCoveredGrows(added: set<(nat, Bytes)>, stored: seq<Stored>, more: set<(nat, Bytes)>, stored': seq<Stored>, n: nat)
    requires n <= |stored| <= |stored'| && AllCovered(added, stored, n) && added <= more
    requires forall i :: 0 <= i < |stored| ==> stored'[i] == stored[i]
    ensures AllCovered(more, stored', n)
  {
    if n > 0 {
      AllCoveredGrows(added, stored, more, stored', n - 1);
      var s := stored[n - 1];
      CoversGrows(added, s.handle.offset / 2048, s.layout.entries, more, s.layout.entries, |s.layout.entries|);
    }
  }

  lemma {:induction false} CoveredKey(added: set<(nat, Bytes)>, slot: nat, entries: seq<KeyValue>, n: nat, i: nat)
    requires i < n <= |entries| && Covers(added, slot, entries, n)
    ensures (slot, entries[i].key) in added
  {
    if i < n - 1 {
      CoveredKey(added, slot, entries, n - 1, i);
    }
  }

  lemma {:induction false} CoveredBlock(added: set<(nat, Bytes)>, stored: seq<Stored>, n: nat, b: nat)
    requires b < n <= |stored| && AllCovered(added, stored, n)
    ensures var s := stored[b]; Covers(added, s.handle.offset / 2048, s.layout.entries, |s.layout.entries|)
  {
    if b < n - 1 {
      CoveredBlock(added, stored, n - 1, b);
    }
  }

  ghost predicate FilterHolds(added: set<(nat, Bytes)>, stored: seq<Stored>, data: seq<KeyValue>, offset: nat) {
    AllCovered(added, stored, |stored|) && Covers(added, offset / 2048, data, |data|)
  }

  lemma {:induction false} FilterHoldsKey(added: set<(nat, Bytes)>, stored: seq<Stored>, data: seq<KeyValue>, offset: nat, kv: KeyValue)
    requires FilterHolds(added, stored, data, offset)
    ensures FilterHolds(added + {(offset / 2048, kv.key)}, stored, Joined(data, [kv]), offset)
  {
    KeyIsCovered(added, offset / 2048, data, kv);
    AllCoveredGrows(added, stored, added + {(offset / 2048, kv.key)}, stored, |stored|);
  }

  lemma {:induction false} FilterHoldsBlock(added: set<(nat, Bytes)>, stored: seq<Stored>, s: Stored, offset: nat, offset': nat)
    requires FilterHolds(added, stored, s.layout.entries, offset) && s.handle.offset == offset
    ensures FilterHolds(added, stored + [s], [], offset')
  {
    AllCoveredGrows(added, stored, added, stored + [s], |stored|);
  }

  /** An index entry waits for the next key exactly when the last block has been written and no key followed. */
  ghost predicate PendingOk(stored: seq<Stored>, data: seq<KeyValue>, index: seq<KeyValue>, pending: bool, handle: BlockHandle) {
    if pending then data == [] && |index| + 1 == |stored| && handle == stored[|stored| - 1].handle
    else |index| == |stored| && (stored != [] ==> data != [])
  }

  lemma {:induction false} BlocksGrown(file: Bytes, longer: Bytes, crc: Crc, stored: seq<Stored>)
    requires (forall b: nat :: b < |stored| ==> BlockOk(file, crc, stored[b])) && Placed(stored, |file|) && file <= longer
    ensures (forall b: nat :: b < |stored| ==> BlockOk(longer, crc, stored[b])) && Placed(stored, |longer|)
  {
    forall b: nat | b < |stored|
      ensures BlockOk(longer, crc, stored[b])
    {
      assert BlockOk(file, crc, stored[b]);
      RawStandsGrown(file, longer, crc, stored[b].handle, stored[b].contents);
    }
  }

  lemma {:induction false} PlacedAfter(file: Bytes, longer: Bytes, crc: Crc, stored: seq<Stored>, s: Stored)
    requires Placed(stored, |file|) && BlockOk(longer, crc, s) && s.handle.offset == |file| <= |longer|
    ensures Placed(stored + [s], |longer|)
  {
    assert EndOf(s) <= |longer|;
  }

  /** The block with the last entries joins the others. */
  lemma {:induction false} BlockIsStored(file: Bytes, longer: Bytes, crc: Crc, rank: Bytes -> real, entries: seq<KeyValue>, stored: seq<Stored>, s: Stored)
    requires BlocksOk(file, crc, rank, entries, stored, s.layout.entries) && file <= longer
    requires BlockOk(longer, crc, s) && s.handle.offset == |file|
    ensures BlocksOk(longer, crc, rank, entries, stored + [s], [])
  {
    hide BlockOk, Ascending, Placed, Joined;
    BlocksGrown(file, longer, crc, stored);
    PlacedAfter(file, longer, crc, stored, s);
    FlatOfPrefix(stored, s, |stored|);
    var more := stored + [s];
    forall b: nat | b < |more|
      ensures BlockOk(longer, crc, more[b])
    {
    }
    JoinedNothing(entries);
  }

  /** An index entry stays right when an entry follows that does not touch its boundary. */
  lemma {:induction false} IndexKeyStays(c: Comparator, rank: Bytes -> real, entries: seq<KeyValue>, kv: KeyValue, end: nat, key: Bytes)
    requires IndexKeyOk(c, rank, entries, end, key) && end < |entries|
    ensures IndexKeyOk(c, rank, entries + [kv], end, key)
  {
  }

  lemma {:induction false} IndexStays(c: Comparator, rank: Bytes -> real, entries: seq<KeyValue>, kv: KeyValue, stored: seq<Stored>, index: seq<KeyValue>)
    requires IndexOk(c, rank, entries, stored, index)
    requires index != [] ==> StartOf(stored, |index|) < |entries|
    ensures IndexOk(c, rank, Joined(entries, [kv]), stored, index)
  {
    forall b: nat | b < |index|
      ensures IndexEntryOk(c, rank, Joined(entries, [kv]), stored, index[b], b)
    {
      assert IndexEntryOk(c, rank, entries, stored, index[b], b);
      StartsAscend(stored, b + 1, |index|);
      IndexKeyStays(c, rank, entries, kv, StartOf(stored, b + 1), index[b].key);
    }
  }

  /** A block moved to the file leaves the index of the others alone. */
  lemma {:induction false} IndexOfMore(c: Comparator, rank: Bytes -> real, entries: seq<KeyValue>, stored: seq<Stored>, s: Stored, index: seq<KeyValue>)
    requires IndexOk(c, rank, entries, stored, index)
    ensures IndexOk(c, rank, entries, stored + [s], index)
  {
    forall b: nat | b < |index|
      ensures IndexEntryOk(c, rank, entries, stored + [s], index[b], b)
    {
      assert IndexEntryOk(c, rank, entries, stored, index[b], b);
      FlatOfPrefix(stored, s, b + 1);
    }
  }

  lemma {:induction false} IndexGrows(c: Comparator, rank: Bytes -> real, entries: seq<KeyValue>, stored: seq<Stored>, index: seq<KeyValue>, e: KeyValue)
    requires IndexOk(c, rank, entries, stored, index) && |index| < |stored|
    requires IndexEntryOk(c, rank, entries, stored, e, |index|)
    ensures IndexOk(c, rank, entries, stored, Joined(index, [e]))
  {
    forall b: nat | b < |index| + 1
      ensures IndexEntryOk(c, rank, entries, stored, Joined(index, [e])[b], b)
    {
      if b < |index| { assert IndexEntryOk(c, rank, entries, stored, index[b], b); }
    }
  }

  /** The index entry of the last block, once the next key is known. */
  lemma {:induction false} PendingEntry(file: Bytes, crc: Crc, c: Comparator, rank: Bytes -> real, entries: seq<KeyValue>, stored: seq<Stored>,
                                        lastKey: Bytes, kv: KeyValue)
    requires BlocksOk(file, crc, rank, entries, stored, []) && stored != [] && |file| < 0x1_0000_0000_0000_0000 && Suits(c, rank)
    requires (entries != [] ==> lastKey == entries[|entries| - 1].key) && rank(lastKey) < rank(kv.key)
    ensures var n := |stored| - 1;
            && Fits(stored[n].handle) && |c.separator(lastKey, kv.key)| <= |lastKey| && StartOf(stored, n) < |entries|
            && IndexEntryOk(c, rank, Joined(entries, [kv]), stored, KeyValue(c.separator(lastKey, kv.key), EncodeHandle(stored[n].handle)), n)
  {
    assert SeparatesAt(c, rank, lastKey, kv.key);
    assert BlockOk(file, crc, stored[|stored| - 1]);
  }

  lemma {:induction false} AscendingGrows(rank: Bytes -> real, entries: seq<KeyValue>, kv: KeyValue)
    requires Ascending(rank, entries) && (entries != [] ==> rank(entries[|entries| - 1].key) < rank(kv.key))
    ensures Ascending(rank, Joined(entries, [kv]))
  {
  }

  lemma {:induction false} EntryIsAdded(file: Bytes, crc: Crc, rank: Bytes -> real, entries: seq<KeyValue>, stored: seq<Stored>, data: seq<KeyValue>, kv: KeyValue)
    requires BlocksOk(file, crc, rank, entries, stored, data) && (entries != [] ==> rank(entries[|entries| - 1].key) < rank(kv.key))
    ensures BlocksOk(file, crc, rank, Joined(entries, [kv]), stored, Joined(data, [kv]))
  {
    JoinedAssociates(Flat(stored, |stored|), data, [kv]);
    AscendingGrows(rank, entries, kv);
  }

  /** An entry of the index waits only after an entry; otherwise an entry follows the indexed blocks. */
  lemma {:induction false} EntriesFollow(file: Bytes, crc: Crc, rank: Bytes -> real, entries: seq<KeyValue>, stored: seq<Stored>, data: seq<KeyValue>,
                      index: seq<KeyValue>, pending: bool, handle: BlockHandle)
    requires BlocksOk(file, crc, rank, entries, stored, data) && PendingOk(stored, data, index, pending, handle)
    ensures if pending then entries != [] else index != [] ==> StartOf(stored, |index|) < |entries|
  {
    if pending {
      assert BlockOk(file, crc, stored[|stored| - 1]);
    }
  }

  lemma {:induction false} CoveredKeysMatch(policy: Policy, added: set<(nat, Bytes)>, stored: seq<Stored>, data: seq<KeyValue>, offset: nat, contents: Bytes)
    requires FilterHolds(added, stored, data, offset)
    requires FindsOwn(policy) && |contents| < 0x1_0000_0000 ==>
               forall a, blockOffset: nat :: a in added && a.0 == blockOffset / 2048 ==> MayMatch(policy, contents, blockOffset, a.1)
    ensures FilterOk(policy, contents, stored)
  {
    if FindsOwn(policy) && |contents| < 0x1_0000_0000 {
      forall b: nat, e | b < |stored| && e in stored[b].layout.entries
        ensures MayMatch(policy, contents, stored[b].handle.offset, e.key)
      {
        CoveredBlock(added, stored, |stored|, b);
        var i :| 0 <= i < |stored[b].layout.entries| && stored[b].layout.entries[i] == e;
        CoveredKey(added, stored[b].handle.offset / 2048, stored[b].layout.entries, |stored[b].layout.entries|, i);
      }
    }
  }

  /** What was written one after the other is a table. */
  lemma {:induction false} PartsMakeTable(data: Bytes, afterFilter: Bytes, afterMeta: Bytes, afterIndex: Bytes, file: Bytes, crc: Crc, c: Comparator,
                       rank: Bytes -> real, fp: Option<FilterPolicy>, entries: seq<KeyValue>, t: Parts)
    requires data <= afterFilter && afterFilter <= afterMeta && afterMeta <= afterIndex && afterIndex <= file
    requires |file| == |afterIndex| + FOOTER_SIZE < 0x1_0000_0000_0000_0000
    requires BlocksOk(data, crc, rank, entries, t.blocks, [])
    requires fp.None? ==> t.filterContents == []
    requires fp.Some? ==> RawStands(afterFilter, crc, t.filter, t.filterContents) && FilterOk(fp.value.policy, t.filterContents, t.blocks)
    requires Stands(afterMeta, crc, t.meta)
    requires t.meta.layout.entries == MetaEntries(fp, t.filter)
    requires Stands(afterIndex, crc, t.index) && |t.index.layout.entries| == |t.blocks|
    requires IndexOk(c, rank, entries, t.blocks, t.index.layout.entries)
    requires At(file, |afterIndex|, EncodeFooter(t.meta.handle, t.index.handle))
    ensures IsTable(file, crc, c, rank, fp, t) && Entries(t) == entries
  {
    hide RawStands, IndexOk, FilterOk, At, Ascending, IsBlockOf;
    JoinedNothing(Flat(t.blocks, |t.blocks|));
    assert data <= file && afterFilter <= file && afterMeta <= file;
    BlocksGrown(data, file, crc, t.blocks);
    if fp.Some? { RawStandsGrown(afterFilter, file, crc, t.filter, t.filterContents); }
    RawStandsGrown(afterMeta, file, crc, t.meta.handle, t.meta.contents);
    RawStandsGrown(afterIndex, file, crc, t.index.handle, t.index.contents);
  }

  /** When the last block is in the file, the index lacks at most its entry. */
  lemma {:induction false} LastBlockStored(file: Bytes, crc: Crc, rank: Bytes -> real, entries: seq<KeyValue>, stored: seq<Stored>,
                        index: seq<KeyValue>, pending: bool, handle: BlockHandle)
    requires BlocksOk(file, crc, rank, entries, stored, []) && PendingOk(stored, [], index, pending, handle)
    requires |file| < 0x1_0000_0000_0000_0000
    ensures entries == Flat(stored, |stored|)
    ensures pending ==> entries != [] && Fits(handle)
  {
    JoinedNothing(Flat(stored, |stored|));
    if pending {
      assert BlockOk(file, crc, stored[|stored| - 1]);
    }
  }

  // ----- How large a table can get -----

  /** What the metaindex, the footer and the ends of the blocks take. */
  function Overhead(fp: Option<FilterPolicy>): nat {
    134 + if fp.Some? then |fp.value.name| else 0
  }

  /** Enough bytes for a table of `count` entries with `bytes` bytes of keys and values. */
  function TableRoom(bytes: nat, count: nat, filterRoom: nat, fp: Option<FilterPolicy>): nat {
    3 * bytes + 103 * count + filterRoom + Overhead(fp)
  }

  class TableBuilder {
    const comparator: Comparator
    const blockSize: nat
    const filterPolicy: Option<FilterPolicy>
    const crc: Crc
    const capacity: nat   // how many bytes the file system takes
    ghost const rank: Bytes -> real
    ghost const perKey: nat   // the bytes of a filter for each key

    const dataBlock: BlockBuilder
    const indexBlock: BlockBuilder
    const filterBlock: FilterBlockBuilder?
    var file: Bytes
    var offset: nat
    var ok: bool
    var lastKey: Bytes
    var numEntries: nat
    var closed: bool
    var pendingIndexEntry: bool
    var pendingHandle: BlockHandle

    ghost var entries: seq<KeyValue>   // all that was added
    ghost var stored: seq<Stored>      // the data blocks in the file
    ghost var bytes: nat               // of all keys and values that were to be added
    ghost var count: nat               // how many there were
    ghost var filterRoom: nat          // what their filters may take

    ghost predicate Objects()
      reads this, dataBlock, indexBlock, filterBlock
    {
      && dataBlock != indexBlock && dataBlock.Valid() && !dataBlock.finished && indexBlock.Valid() && !indexBlock.finished
      && (filterBlock != null <==> filterPolicy.Some?)
      && (filterBlock != null ==>
            filterBlock.Valid() && filterBlock.policy == filterPolicy.value.policy && filterBlock.perKey == perKey && |filterBlock.filterOffsets| == offset / 2048)
      && Suits(comparator, rank) && capacity < 0x1_0000_0000_0000_0000 && |lastKey| < 0x1_0000_0000
      && (filterPolicy.Some? ==> |filterPolicy.value.name| < 0x1000_0000)
    }

    ghost predicate Good()
      reads this, dataBlock, indexBlock, filterBlock
    {
      && offset == |file| <= capacity
      && BlocksOk(file, crc, rank, entries, stored, dataBlock.layout.entries)
      && PendingOk(stored, dataBlock.layout.entries, indexBlock.layout.entries, pendingIndexEntry, pendingHandle)
      && IndexOk(comparator, rank, entries, stored, indexBlock.layout.entries)
      && (filterBlock != null ==> FilterHolds(filterBlock.added, stored, dataBlock.layout.entries, offset))
      && numEntries == |entries| && (entries != [] ==> lastKey == entries[|entries| - 1].key)
    }

    ghost function DataSize(): nat
      reads this, dataBlock
    {
      if dataBlock.layout.entries == [] then 0 else dataBlock.CurrentSizeEstimate() + BLOCK_TRAILER_SIZE
    }

    /** The index entry that the last key will take. */
    ghost function NextIndexEntry(): nat
      reads this, dataBlock
    {
      if pendingIndexEntry || dataBlock.layout.entries != [] then |lastKey| + 39 else 0
    }

    ghost predicate Sized()
      reads this, dataBlock, indexBlock, filterBlock
    {
      && |file| + DataSize() <= bytes + 32 * count
      && (dataBlock.layout.entries == [] ==> dataBlock.CurrentSizeEstimate() == 8)
      && indexBlock.CurrentSizeEstimate() + NextIndexEntry() <= 8 + bytes + 39 * count
      && (filterBlock != null && Frugal(filterBlock.policy, perKey) ==> filterBlock.Load() <= filterRoom)
    }

    /** The filters are not larger than assumed. */
    ghost predicate Fair() {
      filterPolicy.Some? ==> Frugal(filterPolicy.value.policy, perKey)
    }

    ghost function Room(): nat
      reads this
    {
      TableRoom(bytes, count, filterRoom, filterPolicy)
    }

    ghost predicate Valid()
      reads this, dataBlock, indexBlock, filterBlock
    {
      Objects() && (ok ==> Good() && Sized()) && (!ok && Fair() ==> capacity < Room())
    }

    constructor (comparator: Comparator, ghost rank: Bytes -> real, blockSize: nat, blockRestartInterval: nat,
                 filterPolicy: Option<FilterPolicy>, crc: Crc, capacity: nat, ghost perKey: nat)
      requires Suits(comparator, rank) && blockRestartInterval >= 1 && capacity < 0x1_0000_0000_0000_0000
      requires filterPolicy.Some? ==> |filterPolicy.value.name| < 0x1000_0000
      ensures Valid() && ok && !closed && entries == [] && bytes == 0 && count == 0 && filterRoom == 0
      ensures fresh(dataBlock) && fresh(indexBlock) && (filterBlock != null ==> fresh(filterBlock))
      ensures this.comparator == comparator && this.rank == rank && this.filterPolicy == filterPolicy && this.crc == crc
      ensures this.capacity == capacity && this.perKey == perKey
    {
      this.comparator, this.rank, this.blockSize, this.filterPolicy := comparator, rank, blockSize, filterPolicy;
      this.crc, this.capacity, this.perKey := crc, capacity, perKey;
      dataBlock := new BlockBuilder(blockRestartInterval);
      indexBlock := new BlockBuilder(1);
      if filterPolicy.Some? {
        filterBlock := new FilterBlockBuilder(filterPolicy.value.policy, perKey);
      } else {
        filterBlock := null;
      }
      file, offset, ok, lastKey, numEntries, closed := [], 0, true, [], 0, false;
      pendingIndexEntry, pendingHandle := false, BlockHandle(0, 0);
      entries, stored, bytes, count, filterRoom := [], [], 0, 0, 0;
      new;
      if filterBlock != null {
        filterBlock.StartBlock(0);
      }
    }

    lemma {:induction false} LastKeyIsLast()
      requires Valid() && ok
      ensures numEntries == |entries| && (entries != [] ==> lastKey == entries[|entries| - 1].key)
    {
    }

    /** Keys are added in ascending order; it fails only for want of room. */
    method Add(key: Bytes, value: Bytes)
      requires Valid() && !closed && |key| < 0x1_0000_0000 && |value| < 0x1_0000_0000
      requires ok && numEntries > 0 ==> comparator.compare(key, lastKey) > 0
      modifies this, dataBlock, indexBlock, filterBlock
      ensures Valid() && !closed && (ok ==> old(ok) && entries == Joined(old(entries), [KeyValue(key, value)]))
      ensures bytes == old(bytes) + |key| + |value| && count == old(count) + 1 && filterRoom == old(filterRoom) + perKey
    {
      hide BlocksOk, FilterHolds, IndexOk, PendingOk, Frugal, BlockBuilder.Valid, FilterBlockBuilder.Valid, Suits, BlockBuilder.CurrentSizeEstimate,
        FilterBlockBuilder.Load, Ascending;
      bytes, count, filterRoom := bytes + |key| + |value|, count + 1, filterRoom + perKey;
      if !ok {
        return;
      }
      AddEntry(key, value);
      var estimatedBlockSize := dataBlock.CurrentSizeEstimate();
      if estimatedBlockSize >= blockSize {
        Flush();
      }
    }

    /** The sizes before an entry that is already counted. */
    ghost predicate SizedBut(size: nat)
      reads this, dataBlock, indexBlock, filterBlock
    {
      && |file| + DataSize() + size + 32 <= bytes + 32 * count
      && (dataBlock.layout.entries == [] ==> dataBlock.CurrentSizeEstimate() == 8)
      && indexBlock.CurrentSizeEstimate() + NextIndexEntry() + size + 39 <= 8 + bytes + 39 * count
      && (filterBlock != null && Frugal(filterBlock.policy, perKey) ==> filterBlock.Load() + perKey <= filterRoom)
    }

    method AddEntry(key: Bytes, value: Bytes)
      requires Objects() && Good() && SizedBut(|key| + |value|) && ok && |key| < 0x1_0000_0000 && |value| < 0x1_0000_0000
      requires numEntries > 0 ==> comparator.compare(key, lastKey) > 0
      modifies this`lastKey, this`numEntries, this`entries, this`pendingIndexEntry, dataBlock, indexBlock, filterBlock
      ensures Objects() && Good() && Sized() && entries == Joined(old(entries), [KeyValue(key, value)])
    {
      hide BlocksOk, FilterHolds, IndexOk, PendingOk, Frugal, BlockBuilder.Valid, FilterBlockBuilder.Valid, Suits, BlockBuilder.CurrentSizeEstimate,
        FilterBlockBuilder.Load, Ascending;
      if numEntries > 0 { LaterKey(key); }
      EntriesFollow(file, crc, rank, entries, stored, dataBlock.layout.entries, indexBlock.layout.entries, pendingIndexEntry, pendingHandle);
      if pendingIndexEntry {
        PendingMeansEmpty();
        AddIndexEntry(comparator.separator(lastKey, key), KeyValue(key, value));
      } else {
        NothingPending();
        IndexStays(comparator, rank, entries, KeyValue(key, value), stored, indexBlock.layout.entries);
      }
      AddToBlock(key, value);
    }

    lemma {:induction false} LaterKey(key: Bytes)
      requires Suits(comparator, rank) && comparator.compare(key, lastKey) > 0
      ensures rank(lastKey) < rank(key)
    {
      assert OrdersAt(comparator.compare, rank, key, lastKey);
    }

    lemma {:induction false} PendingMeansEmpty()
      requires Objects() && Good() && pendingIndexEntry
      ensures dataBlock.layout.entries == []
    {
      hide BlocksOk, FilterHolds, IndexOk;
    }

    lemma {:induction false} NothingPending()
      requires Objects() && Good() && !pendingIndexEntry
      ensures |indexBlock.layout.entries| == |stored|
    {
      hide BlocksOk, FilterHolds, IndexOk;
    }

    /** The entry of the block before `kv`; its key separates them. */
    method AddIndexEntry(key: Bytes, ghost kv: KeyValue)
      requires Objects() && Good() && pendingIndexEntry
      requires rank(lastKey) < rank(kv.key) && key == comparator.separator(lastKey, kv.key)
      modifies indexBlock, this`pendingIndexEntry
      ensures indexBlock.Valid() && !indexBlock.finished && !pendingIndexEntry && |indexBlock.layout.entries| == |stored|
      ensures IndexOk(comparator, rank, Joined(entries, [kv]), stored, indexBlock.layout.entries)
      ensures indexBlock.CurrentSizeEstimate() <= old(indexBlock.CurrentSizeEstimate()) + |lastKey| + 39
    {
      hide BlocksOk, FilterHolds, IndexOk, IndexEntryOk, Suits, Fits, EncodeHandle;
      ghost var index := indexBlock.layout.entries;
      PendingEntry(file, crc, comparator, rank, entries, stored, lastKey, kv);
      HandleLength(pendingHandle);
      IndexStays(comparator, rank, entries, kv, stored, index);
      IndexGrows(comparator, rank, Joined(entries, [kv]), stored, index, KeyValue(key, EncodeHandle(pendingHandle)));
      indexBlock.Add(key, EncodeHandle(pendingHandle));
      pendingIndexEntry := false;
    }

    method AddToBlock(key: Bytes, value: Bytes)
      requires Objects() && offset == |file| <= capacity && |key| < 0x1_0000_0000 && |value| < 0x1_0000_0000
      requires BlocksOk(file, crc, rank, entries, stored, dataBlock.layout.entries)
      requires filterBlock != null ==> FilterHolds(filterBlock.added, stored, dataBlock.layout.entries, offset)
      requires !pendingIndexEntry && |indexBlock.layout.entries| == |stored| && numEntries == |entries|
      requires entries != [] ==> lastKey == entries[|entries| - 1].key && rank(lastKey) < rank(key)
      requires IndexOk(comparator, rank, Joined(entries, [KeyValue(key, value)]), stored, indexBlock.layout.entries)
      modifies this`lastKey, this`numEntries, this`entries, dataBlock, filterBlock
      ensures Objects() && Good() && dataBlock.layout.entries != [] && lastKey == key
      ensures entries == Joined(old(entries), [KeyValue(key, value)])
      ensures dataBlock.CurrentSizeEstimate() <= old(dataBlock.CurrentSizeEstimate()) + |key| + |value| + 19
      ensures filterBlock != null ==> filterBlock.Load() == old(filterBlock.Load()) + perKey
    {
      hide BlocksOk, FilterHolds, IndexOk, BlockBuilder.Valid, FilterBlockBuilder.Valid, BlockBuilder.CurrentSizeEstimate, FilterBlockBuilder.Load, Suits, Ascending;
      if filterBlock != null {
        FilterHoldsKey(filterBlock.added, stored, dataBlock.layout.entries, offset, KeyValue(key, value));
        filterBlock.AddKey(key);
      }
      EntryIsAdded(file, crc, rank, entries, stored, dataBlock.layout.entries, KeyValue(key, value));
      entries := Joined(entries, [KeyValue(key, value)]);
      lastKey := key;
      numEntries := numEntries + 1;
      dataBlock.Add(key, value);
    }

    method Flush()
      requires Valid() && !closed
      modifies this`file, this`offset, this`ok, this`pendingIndexEntry, this`pendingHandle, this`stored, dataBlock, filterBlock
      ensures Valid() && (ok ==> old(ok) && dataBlock.layout.entries == [])
    {
      hide FilterHolds, IndexOk, BlocksOk, PendingOk, Suits, Frugal, FilterBlockBuilder.Load, FilterBlockBuilder.Valid,
        BlockBuilder.Valid, BlockBuilder.CurrentSizeEstimate, BlockBuilder.Empty;
      dataBlock.EmptyWithoutEntries();
      if !ok || dataBlock.Empty() {
        return;
      }
      FullBlock();
      StoreBlock();
      if filterBlock != null {
        filterBlock.StartBlock(offset);
      }
    }

    /** All but the filter's part of it. */
    method StoreBlock()
      requires ok && Objects() && Good() && Sized() && dataBlock.layout.entries != []
      requires |indexBlock.layout.entries| == |stored| && !pendingIndexEntry
      modifies this`file, this`offset, this`ok, this`pendingIndexEntry, this`pendingHandle, this`stored, dataBlock
      ensures dataBlock.Valid() && !dataBlock.finished && offset >= old(offset)
      ensures if ok then Good() && Sized() && dataBlock.layout.entries == [] else capacity < bytes + 32 * count
    {
      hide FilterHolds, IndexOk, BlocksOk, Ascending, Stands, SharesOk, Suits, Frugal, FilterBlockBuilder.Load, FilterBlockBuilder.Valid,
        BlockBuilder.Valid, BlockBuilder.CurrentSizeEstimate;
      ghost var before := file;
      ghost var data := dataBlock.layout.entries;
      var handle, s := WriteBlock(dataBlock);
      pendingHandle := handle;
      if ok {
        pendingIndexEntry := true;
        BlockStands(s);
        BlockIsStored(before, file, crc, rank, entries, stored, s);
        IndexOfMore(comparator, rank, entries, stored, s, indexBlock.layout.entries);
        if filterBlock != null { FilterHoldsBlock(filterBlock.added, stored, s, |before|, offset); }
        stored := stored + [s];
      }
    }

    lemma {:induction false} FullBlock()
      requires Objects() && Good() && dataBlock.layout.entries != []
      ensures |indexBlock.layout.entries| == |stored| && !pendingIndexEntry
    {
      hide BlocksOk, FilterHolds, IndexOk;
    }

    lemma {:induction false} BlockStands(s: Stored)
      requires Stands(file, crc, s) && s.layout.entries != [] && EndOf(s) <= |file|
      ensures BlockOk(file, crc, s)
    {
    }

    method WriteBlock(block: BlockBuilder) returns (handle: BlockHandle, ghost s: Stored)
      requires ok && offset == |file| && block.Valid() && !block.finished
      modifies this`file, this`offset, this`ok, block
      ensures block.Valid() && !block.finished && block.layout.entries == [] && offset >= old(offset) && block.CurrentSizeEstimate() == 8
      ensures ok ==> Stands(file, crc, s) && s.layout == old(block.layout) && s.handle == handle
      ensures ok ==> offset == |file| <= capacity && old(file) <= file && handle.offset == old(|file|) && EndOf(s) <= |file|
      ensures var end := old(|file| + block.CurrentSizeEstimate()) + BLOCK_TRAILER_SIZE; if ok then |file| == end else capacity < end
    {
      var raw := block.Finish();
      handle := WriteRawBlock(raw);
      s := Stored(handle, raw, block.layout);
      block.Reset();
    }

    method WriteRawBlock(contents: Bytes) returns (handle: BlockHandle)
      requires ok && offset == |file|
      modifies this`file, this`offset, this`ok
      ensures offset >= old(offset) && handle == BlockHandle(old(offset), |contents|)
      ensures ok ==> RawStands(file, crc, handle, contents) && offset == |file| <= capacity && old(file) <= file
      ensures var end := old(|file|) + |contents| + BLOCK_TRAILER_SIZE; if ok then |file| == end else capacity < end
    {
      handle := BlockHandle(offset, |contents|);
      ghost var before := file;
      Append(contents);
      if ok {
        AtEnd(before, contents);
        ghost var middle := file;
        var trailer := Trailer(crc, contents);
        Append(trailer);
        if ok {
          AtEnd(middle, trailer);
          AtGrown(middle, file, |before|, contents);
          offset := offset + |contents| + BLOCK_TRAILER_SIZE;
        }
      }
    }

    /** Writes what is left, then filter, metaindex, index and footer. It succeeds whenever there is room for the table. */
    method Finish() returns (ghost t: Parts)
      requires Valid() && !closed
      modifies this, dataBlock, indexBlock, filterBlock
      ensures closed && entries == old(entries) && (ok ==> old(ok))
      ensures ok ==> IsTable(file, crc, comparator, rank, filterPolicy, t) && Entries(t) == entries
      ensures Fair() && old(Room()) <= capacity ==> ok
    {
      hide BlocksOk, FilterHolds, IndexOk, PendingOk, BlockBuilder.Valid, FilterBlockBuilder.Valid, Suits, BlockBuilder.CurrentSizeEstimate,
        FilterBlockBuilder.Load, IsTable, Entries, Frugal, TableRoom;
      Flush();
      closed := true;
      t := Parts([], Stored(BlockHandle(0, 0), [], Layout([], [0], [], [0])), Stored(BlockHandle(0, 0), [], Layout([], [0], [], [0])), BlockHandle(0, 0), []);
      if ok {
        t := WriteRest();
      }
    }

    /** Filter, metaindex, index and footer behind the data blocks. */
    method WriteRest() returns (ghost t: Parts)
      requires ok && Objects() && Good() && Sized() && dataBlock.layout.entries == []
      modifies this`file, this`offset, this`ok, this`pendingIndexEntry, indexBlock, filterBlock
      ensures ok ==> IsTable(file, crc, comparator, rank, filterPolicy, t) && Entries(t) == entries
      ensures Fair() && Room() <= capacity ==> ok
    {
      hide Sized, TableRoom, Overhead, FilterHolds, IndexOk, BlocksOk, Stands, RawStands, FilterOk, Suits, Ascending, Frugal, BlockBuilder.Valid,
        FilterBlockBuilder.Valid, BlockBuilder.CurrentSizeEstimate, FilterBlockBuilder.Load, PendingOk, Fits, EncodeFooter, At, IsTable, Entries, StartOf;
      RestExceeds();
      RestIsReady();
      ghost var data := file;
      var filterHandle, filter := WriteFilter();
      var metaHandle, indexHandle := BlockHandle(0, 0), BlockHandle(0, 0);
      ghost var afterFilter, afterMeta := file, file;
      ghost var meta, index := Stored(metaHandle, [], Layout([], [0], [], [0])), Stored(metaHandle, [], Layout([], [0], [], [0]));
      if ok {
        metaHandle, indexHandle, meta, index, afterMeta := WriteIndexes(filterHandle);
      }
      t := Parts(stored, index, meta, filterHandle, filter);
      if ok {
        ghost var afterIndex := file;
        WriteFooter(metaHandle, indexHandle);
        if ok {
          PartsMakeTable(data, afterFilter, afterMeta, afterIndex, file, crc, comparator, rank, filterPolicy, entries, t);
        }
      }
    }

    lemma {:induction false} RestIsReady()
      requires Objects() && Good() && dataBlock.layout.entries == []
      ensures |file| < 0x1_0000_0000_0000_0000 && StartOf(stored, |stored|) == |entries|
      ensures pendingIndexEntry ==> entries != [] && Fits(pendingHandle) && lastKey == entries[|entries| - 1].key
      ensures PendingOk(stored, [], indexBlock.layout.entries, pendingIndexEntry, pendingHandle)
      ensures BlocksOk(file, crc, rank, entries, stored, [])
    {
      hide FilterHolds, IndexOk, BlocksOk, Suits, Frugal, PendingOk, BlockBuilder.Valid, FilterBlockBuilder.Valid;
      LastBlockStored(file, crc, rank, entries, stored, indexBlock.layout.entries, pendingIndexEntry, pendingHandle);
    }

    lemma {:induction false} RestExceeds()
      requires Objects() && Good() && Sized() && dataBlock.layout.entries == []
      ensures dataBlock.blockRestartInterval >= 1
      ensures 2 * |file| + filterRoom + indexBlock.CurrentSizeEstimate() + NextIndexEntry() + Overhead(filterPolicy) - 8 <= Room()
      ensures Overhead(filterPolicy) >= 134
    {
      hide FilterHolds, IndexOk, BlocksOk, Suits, Frugal, PendingOk, BlockBuilder.CurrentSizeEstimate, FilterBlockBuilder.Valid;
    }

    method WriteIndexes(filterHandle: BlockHandle)
      returns (metaHandle: BlockHandle, indexHandle: BlockHandle, ghost meta: Stored, ghost index: Stored, ghost afterMeta: Bytes)
      requires ok && offset == |file| && dataBlock.blockRestartInterval >= 1 && indexBlock.Valid() && !indexBlock.finished && Suits(comparator, rank)
      requires filterPolicy.Some? ==> |filterPolicy.value.name| < 0x1000_0000 && Fits(filterHandle)
      requires PendingOk(stored, [], indexBlock.layout.entries, pendingIndexEntry, pendingHandle) && dataBlock.layout.entries == []
      requires IndexOk(comparator, rank, entries, stored, indexBlock.layout.entries) && StartOf(stored, |stored|) == |entries|
      requires pendingIndexEntry ==> entries != [] && lastKey == entries[|entries| - 1].key && |lastKey| < 0x1_0000_0000 && Fits(pendingHandle)
      modifies this`file, this`offset, this`ok, this`pendingIndexEntry, indexBlock
      ensures ok ==> offset == |file| <= capacity && old(file) <= afterMeta && afterMeta <= file
      ensures ok ==> Stands(afterMeta, crc, meta) && meta.handle == metaHandle && meta.layout.entries == MetaEntries(filterPolicy, filterHandle)
      ensures ok ==> Stands(file, crc, index) && index.handle == indexHandle
      ensures ok ==> |index.layout.entries| == |stored| && IndexOk(comparator, rank, entries, stored, index.layout.entries)
      ensures var end := old(|file| + indexBlock.CurrentSizeEstimate() + NextIndexEntry()) + Overhead(filterPolicy) - 70;
              if ok then |file| <= end else capacity < end
    {
      hide IndexOk, Stands, Suits, BlockBuilder.Valid, BlockBuilder.CurrentSizeEstimate, PendingOk, Fits, StartOf;
      indexHandle, index := BlockHandle(0, 0), Stored(BlockHandle(0, 0), [], Layout([], [0], [], [0]));
      metaHandle, meta := WriteMetaIndex(filterHandle);
      afterMeta := file;
      if ok {
        indexHandle, index := WriteIndex();
      }
    }

    /** The offsets of the filters take less than the data does. */
    method WriteFilter() returns (handle: BlockHandle, ghost contents: Bytes)
      requires Objects() && Good() && Sized() && ok
      modifies this`file, this`offset, this`ok, filterBlock
      ensures ok ==> offset == |file| <= capacity && old(file) <= file
      ensures filterPolicy.None? ==> contents == []
      ensures ok && filterPolicy.Some? ==> Fits(handle) && RawStands(file, crc, handle, contents) && FilterOk(filterPolicy.value.policy, contents, stored)
      ensures Fair() ==> var end := 2 * old(|file|) + filterRoom + 14; if ok then |file| <= end else capacity < end
    {
      hide BlocksOk, IndexOk, FilterHolds, FilterOk, RawStands, Frugal, FilterBlockBuilder.Load;
      handle, contents := BlockHandle(0, 0), [];
      if filterBlock != null {
        ghost var added := filterBlock.added;
        var filter := filterBlock.Finish();
        CoveredKeysMatch(filterPolicy.value.policy, added, stored, dataBlock.layout.entries, offset, filter);
        handle := WriteRawBlock(filter);
        contents := filter;
      }
    }

    method WriteMetaIndex(filterHandle: BlockHandle) returns (handle: BlockHandle, ghost s: Stored)
      requires ok && offset == |file| && dataBlock.blockRestartInterval >= 1
      requires filterPolicy.Some? ==> |filterPolicy.value.name| < 0x1000_0000 && Fits(filterHandle)
      modifies this`file, this`offset, this`ok
      ensures ok ==> offset == |file| <= capacity && old(file) <= file && Stands(file, crc, s) && s.handle == handle
      ensures ok ==> s.layout.entries == MetaEntries(filterPolicy, filterHandle)
      ensures var end := old(|file|) + Overhead(filterPolicy) - 75; if ok then |file| <= end else capacity < end
    {
      hide Stands, BlockBuilder.CurrentSizeEstimate, BlockBuilder.Valid, EncodeHandle, Fits;
      var metaIndexBlock := new BlockBuilder(dataBlock.blockRestartInterval);
      if filterPolicy.Some? {
        HandleLength(filterHandle);
        metaIndexBlock.Add(FilterKey(filterPolicy.value.name), EncodeHandle(filterHandle));
      }
      handle, s := WriteBlock(metaIndexBlock);
    }

    /** The entry of the last block is followed by no key. */
    method WriteIndex() returns (handle: BlockHandle, ghost s: Stored)
      requires ok && offset == |file| && indexBlock.Valid() && !indexBlock.finished && Suits(comparator, rank)
      requires PendingOk(stored, [], indexBlock.layout.entries, pendingIndexEntry, pendingHandle) && dataBlock.layout.entries == []
      requires IndexOk(comparator, rank, entries, stored, indexBlock.layout.entries) && StartOf(stored, |stored|) == |entries|
      requires pendingIndexEntry ==> entries != [] && lastKey == entries[|entries| - 1].key && |lastKey| < 0x1_0000_0000 && Fits(pendingHandle)
      modifies this`file, this`offset, this`ok, this`pendingIndexEntry, indexBlock
      ensures ok ==> offset == |file| <= capacity && old(file) <= file && Stands(file, crc, s) && s.handle == handle
      ensures ok ==> |s.layout.entries| == |stored| && IndexOk(comparator, rank, entries, stored, s.layout.entries)
      ensures var end := old(|file| + indexBlock.CurrentSizeEstimate() + NextIndexEntry()) + BLOCK_TRAILER_SIZE; if ok then |file| <= end else capacity < end
    {
      hide Stands, BlockBuilder.CurrentSizeEstimate, BlockBuilder.Valid, EncodeHandle, Fits, IndexOk, StartOf;
      if pendingIndexEntry {
        LastIndexEntry();
        HandleLength(pendingHandle);
        var key := comparator.successor(lastKey);
        IndexGrows(comparator, rank, entries, stored, indexBlock.layout.entries, KeyValue(key, EncodeHandle(pendingHandle)));
        indexBlock.Add(key, EncodeHandle(pendingHandle));
        pendingIndexEntry := false;
      }
      handle, s := WriteBlock(indexBlock);
    }

    lemma {:induction false} LastIndexEntry()
      requires Suits(comparator, rank) && pendingIndexEntry && PendingOk(stored, [], indexBlock.layout.entries, true, pendingHandle)
      requires StartOf(stored, |stored|) == |entries| && entries != [] && lastKey == entries[|entries| - 1].key
      ensures var key := comparator.successor(lastKey);
              && |key| <= |lastKey| && |indexBlock.layout.entries| < |stored|
              && IndexEntryOk(comparator, rank, entries, stored, KeyValue(key, EncodeHandle(pendingHandle)), |indexBlock.layout.entries|)
    {
      assert SucceedsAt(comparator, rank, lastKey);
    }

    method WriteFooter(meta: BlockHandle, index: BlockHandle)
      requires ok
      modifies this`file, this`offset, this`ok
      ensures ok ==> |file| <= capacity && old(file) <= file && |file| == old(|file|) + FOOTER_SIZE
      ensures ok ==> At(file, old(|file|), EncodeFooter(meta, index))
      ensures !ok ==> capacity < old(|file|) + FOOTER_SIZE
    {
      ghost var before := file;
      var footer := EncodeFooter(meta, index);
      AtEnd(before, footer);
      Append(footer);
      if ok {
        offset := offset + |footer|;
      }
    }

    /** The file system takes all of the data or reports an error. */
    method Append(data: Bytes)
      modifies this`file, this`ok
      ensures ok <==> old(|file|) + |data| <= capacity
      ensures ok ==> file == Joined(old(file), data) && old(file) <= file
      ensures !ok ==> file == old(file)
    {
      ok := |file| + |data| <= capacity;
      if ok {
        file := Joined(file, data);
      }
    }
  }
}
