/** The iterator over all entries of a table: an index cursor and a cursor in one data block. */
module TwoLevelIteration {
  import opened ByteOrder
  import opened DbFormat
  import opened Coding
  import opened KeyOrder
  import opened Block
  import opened FilterBlock
  import opened TableFormat
  import opened Tables

  class TwoLevelIterator {
    const table: Table
    const verifyChecksums: bool
    const indexIter: Iter
    var dataIter: Iter?
    var dataBlockHandle: Bytes
    ghost var block: nat   // the number of the block that dataIter runs over

    ghost predicate Base()
      reads this, indexIter, dataIter
    {
      && table.Valid() && Runs(indexIter, table.t.index.layout, table.rank)
      && |table.t.index.layout.entries| == |table.t.blocks|
      && (dataIter != null ==> dataIter != indexIter && DataRuns())
    }

    ghost predicate DataRuns()
      reads this, dataIter
      requires dataIter != null
    {
      && block < |table.t.blocks| && Runs(dataIter, table.t.blocks[block].layout, table.rank)
      && dataBlockHandle == EncodeHandle(table.t.blocks[block].handle)
    }

    /** Off the table, or on an entry of the block that the index points to. */
    ghost predicate Valid()
      reads this, indexIter, dataIter
    {
      Base() && (dataIter != null ==> block == indexIter.at && dataIter.at < |dataIter.layout.entries|)
    }

    ghost function Total(): nat {
      StartOf(table.t.blocks, |table.t.blocks|)
    }

    /** The number of the entry in the table; the number of entries when off the table. */
    ghost function Place(): nat
      reads this, dataIter
      requires dataIter != null ==> block <= |table.t.blocks|
    {
      if dataIter == null then Total() else StartOf(table.t.blocks, block) + dataIter.at
    }

    predicate OnData()
      reads this, dataIter
    {
      dataIter != null && dataIter.OnKey()
    }

    constructor (table: Table, verifyChecksums: bool, indexIter: Iter)
      requires table.Valid() && Runs(indexIter, table.t.index.layout, table.rank)
      ensures Valid() && dataIter == null && this.table == table && this.indexIter == indexIter
    {
      this.table, this.verifyChecksums, this.indexIter := table, verifyChecksums, indexIter;
      dataIter, dataBlockHandle, block := null, [], 0;
    }

    /** The entry under the cursor. */
    lemma {:induction false} OnEntry()
      requires Valid()
      ensures Place() <= Total() == |Entries(table.t)| && (OnData() <==> Place() < Total())
      ensures OnData() ==> dataIter.valueStart <= dataIter.valueEnd <= |dataIter.data|
                           && KeyValue(dataIter.key, dataIter.Value()) == Entries(table.t)[Place()]
    {
      hide Table.Valid;
      if dataIter != null {
        dataIter.OnKeyIffOnEntry();
        FlatAt(table.t.blocks, |table.t.blocks|, block, dataIter.at);
      }
    }

    method InitDataBlock()
      requires Base()
      modifies this
      ensures Base() && (dataIter == null || dataIter == old(dataIter) || fresh(dataIter))
      ensures dataIter == null <==> indexIter.at == |table.t.blocks|
      ensures dataIter != null ==> block == indexIter.at
    {
      hide Table.Valid;
      indexIter.OnKeyIffOnEntry();
      if !indexIter.OnKey() {
        dataIter := null;
      } else {
        var handle := indexIter.Value();
        table.HandleIsRead(indexIter.at, handle);
        if dataIter != null && handle == dataBlockHandle { SameHandleSameBlock(block, indexIter.at); }
        if dataIter != null && handle == dataBlockHandle {
        } else {
          var iter := table.BlockReader(verifyChecksums, handle, indexIter.at);
          dataBlockHandle := handle;
          dataIter := iter;
          block := indexIter.at;
        }
      }
    }

    lemma {:induction false} SameHandleSameBlock(b: nat, d: nat)
      requires table.Valid() && b < |table.t.blocks| && d < |table.t.blocks|
      requires EncodeHandle(table.t.blocks[b].handle) == EncodeHandle(table.t.blocks[d].handle)
      ensures b == d
    {
      hide IndexOk, FilterOk, Ascending, IsBlockOf, RawStands, EncodeHandle, Suits, Placed, At;
      if b != d {
        var low, high := if b < d then b else d, if b < d then d else b;
        assert BlockOk(table.file, table.crc, table.t.blocks[b]) && BlockOk(table.file, table.crc, table.t.blocks[d]);
        BlocksDiffer(table.file, table.crc, table.t.blocks, low, high);
      }
    }

    /** Leaves a block that has no entry left for the next one. */
    method SkipEmptyDataBlocksForward()
      requires Base() && (dataIter == null ==> indexIter.at == |table.t.blocks|) && (dataIter != null ==> block == indexIter.at)
      modifies this, indexIter, dataIter
      ensures Valid() && Place() == old(Place()) && (dataIter == null || dataIter == old(dataIter) || fresh(dataIter))
    {
      hide Table.Valid, StartOf, Iter.IsBlock;
      while dataIter == null || !dataIter.OnKey()
        invariant Base() && (dataIter == null ==> indexIter.at == |table.t.blocks|) && (dataIter != null ==> block == indexIter.at)
        invariant Place() == old(Place()) && (dataIter == null || dataIter == old(dataIter) || fresh(dataIter))
        decreases |table.t.blocks| - indexIter.at, dataIter != null
      {
        indexIter.OnKeyIffOnEntry();
        if !indexIter.OnKey() {
          dataIter := null;
          return;
        }
        dataIter.OnKeyIffOnEntry();
        BlockEnds(block);
        indexIter.Next();
        InitDataBlock();
        if dataIter != null { dataIter.SeekToFirst(); }
      }
      dataIter.OnKeyIffOnEntry();
    }

    lemma {:induction false} BlockEnds(b: nat)
      requires b < |table.t.blocks|
      ensures StartOf(table.t.blocks, b) + |table.t.blocks[b].layout.entries| == StartOf(table.t.blocks, b + 1)
    {
    }

    /** The place under the data cursor, or the one before its block. */
    ghost predicate Wants(want: int)
      reads this, dataIter
      requires dataIter != null && block <= |table.t.blocks|
    {
      want == StartOf(table.t.blocks, block) + if dataIter.at < |dataIter.layout.entries| then dataIter.at else -1
    }

    /** Leaves a block before its first entry for the one before; `want` is the place to reach, -1 for none. */
    method SkipEmptyDataBlocksBackward(ghost want: int)
      requires Base() && (dataIter == null ==> indexIter.at == |table.t.blocks| && want == -1)
      requires dataIter != null ==> block == indexIter.at && Wants(want)
      modifies this, indexIter, dataIter
      ensures Valid() && Place() == (if want == -1 then Total() else want) && (dataIter == null || dataIter == old(dataIter) || fresh(dataIter))
    {
      hide Table.Valid, StartOf;
      while dataIter == null || !dataIter.OnKey()
        invariant Base() && (dataIter == null ==> indexIter.at == |table.t.blocks| && want == -1)
        invariant dataIter != null ==> block == indexIter.at && Wants(want)
        invariant dataIter == null || dataIter == old(dataIter) || fresh(dataIter)
        decreases if dataIter == null then 0 else indexIter.at + 1
      {
        indexIter.OnKeyIffOnEntry();
        if !indexIter.OnKey() {
          dataIter := null;
          return;
        }
        dataIter.OnKeyIffOnEntry();
        PreviousBlock(want);
      }
      dataIter.OnKeyIffOnEntry();
    }

    method PreviousBlock(ghost want: int)
      requires Base() && dataIter != null && dataIter.at == |dataIter.layout.entries| && block == indexIter.at && Wants(want)
      modifies this, indexIter, dataIter
      ensures Base() && (dataIter == null || dataIter == old(dataIter) || fresh(dataIter))
      ensures dataIter == null ==> indexIter.at == |table.t.blocks| && want == -1
      ensures dataIter != null ==> block == indexIter.at < old(indexIter.at) && Wants(want)
    {
      hide Table.Valid, StartOf;
      StartOfFirst();
      if block > 0 { BlockEnds(block - 1); NoEmptyBlock(block - 1); }
      indexIter.OnKeyIffOnEntry();
      indexIter.Prev();
      InitDataBlock();
      if dataIter != null { dataIter.SeekToLast(); }
    }

    lemma {:induction false} StartOfFirst()
      ensures StartOf(table.t.blocks, 0) == 0
    {
    }

    lemma {:induction false} NoEmptyBlock(b: nat)
      requires table.Valid() && b < |table.t.blocks|
      ensures table.t.blocks[b].layout.entries != []
    {
      hide Stands, IndexOk, FilterOk, Ascending, Placed, At, Suits;
      assert BlockOk(table.file, table.crc, table.t.blocks[b]);
    }

    /** The cursor is at the first entry from `target` on. */
    method Seek(target: Bytes)
      requires Base()
      modifies this, indexIter, dataIter
      ensures Valid() && IsFirst(table.rank, Entries(table.t), target, Place())
      ensures dataIter == null || dataIter == old(dataIter) || fresh(dataIter)
    {
      hide Table.Valid, IsFirst, StartOf, Ascending, IndexOk;
      indexIter.Seek(target);
      table.SeekFindsIndex(indexIter, target);
      InitDataBlock();
      if dataIter != null {
        dataIter.Seek(target);
      }
      SeekIsFirst(target);
      SkipEmptyDataBlocksForward();
    }

    lemma {:induction false} SeekIsFirst(target: Bytes)
      requires Base() && IndexSeeks(table.rank, table.t.index.layout.entries, target, indexIter.at)
      requires if dataIter == null then indexIter.at == |table.t.blocks| else block == indexIter.at && dataIter.AtSeek(target)
      ensures IsFirst(table.rank, Entries(table.t), target, Place())
    {
      hide Table.Valid, Ascending, IndexOk;
      table.TableFacts();
      var t := table.t;
      NotBefore(table.comparator, table.rank, Entries(t), t.blocks, t.index.layout.entries, target, indexIter.at);
      if dataIter != null {
        FirstInBlock(table.rank, t.blocks, target, block, dataIter.at);
        BlockEnds(block);
        if dataIter.at == |t.blocks[block].layout.entries| {
          FirstPastBlock(table.comparator, table.rank, Entries(t), t.blocks, t.index.layout.entries, target, block);
        }
      }
    }

    method SeekToFirst()
      requires Base()
      modifies this, indexIter, dataIter
      ensures Valid() && Place() == 0
      ensures dataIter == null || dataIter == old(dataIter) || fresh(dataIter)
    {
      hide Table.Valid, StartOf;
      indexIter.SeekToFirst();
      InitDataBlock();
      StartOfFirst();
      if dataIter != null {
        dataIter.SeekToFirst();
      }
      SkipEmptyDataBlocksForward();
    }

    /** On the last entry, if there is one. */
    method SeekToLast()
      requires Base()
      modifies this, indexIter, dataIter
      ensures Valid() && Place() == (if Total() == 0 then 0 else Total() - 1)
      ensures dataIter == null || dataIter == old(dataIter) || fresh(dataIter)
    {
      hide Table.Valid, StartOf;
      indexIter.SeekToLast();
      InitDataBlock();
      StartOfFirst();
      if dataIter != null {
        dataIter.SeekToLast();
        BlockEnds(block);
        NoEmptyBlock(block);
      }
      SkipEmptyDataBlocksBackward(Total() - 1);
    }

    method Next()
      requires Valid() && OnData()
      modifies this, indexIter, dataIter
      ensures Valid() && Place() == old(Place()) + 1
      ensures dataIter == null || dataIter == old(dataIter) || fresh(dataIter)
    {
      hide Table.Valid, StartOf;
      dataIter.Next();
      SkipEmptyDataBlocksForward();
    }

    /** Before the first entry the cursor is off the table. */
    method Prev()
      requires Valid() && OnData()
      modifies this, indexIter, dataIter
      ensures Valid() && Place() == (if old(Place()) == 0 then Total() else old(Place()) - 1)
      ensures dataIter == null || dataIter == old(dataIter) || fresh(dataIter)
    {
      hide Table.Valid, StartOf;
      ghost var want := Place() - 1;
      dataIter.Prev();
      SkipEmptyDataBlocksBackward(want);
    }
  }
}
