/** A table of internal keys answers lookups like the sorted run of entries that went into it. */
module TableLookup {
  import opened ByteOrder
  import opened DbFormat
  import opened Coding
  import opened KeyOrder
  import opened Block
  import opened FilterBlock
  import opened TableFormat
  import opened TableBuilding
  import opened Tables
  import opened TwoLevelIteration

  ghost predicate InRange(k: InternalKey) {
    k.sequence <= MAX_SEQUENCE_NUMBER
  }

  function EncodeKey(k: InternalKey): Bytes
    requires InRange(k)
  {
    Tagged(k.user, PackSequenceAndType(k))
  }

  function EncodeEntryOf(e: Entry): KeyValue
    requires InRange(e.key)
  {
    KeyValue(EncodeKey(e.key), e.value)
  }

  ghost predicate EncodesAt(es: seq<Entry>, kvs: seq<KeyValue>, i: nat)
    requires i < |es| && i < |kvs|
  {
    InRange(es[i].key) && kvs[i] == EncodeEntryOf(es[i])
  }

  ghost predicate Encodes(es: seq<Entry>, kvs: seq<KeyValue>) {
    |kvs| == |es| && forall i: nat :: i < |es| ==> EncodesAt(es, kvs, i)
  }

  lemma {:induction false} RankOfEncoded(a: InternalKey, b: InternalKey)
    requires InRange(a) && InRange(b)
    ensures InternalRank(EncodeKey(a)) < InternalRank(EncodeKey(b)) <==> KeyLt(a, b)
    ensures ExtractUserKey(EncodeKey(a)) == a.user
  {
    TaggedReadsBack(a.user, PackSequenceAndType(a));
    TaggedReadsBack(b.user, PackSequenceAndType(b));
    InternalRankSplits(EncodeKey(a), EncodeKey(b));
  }

  /** SaveValue: what a lookup found counts when it is of the user key. */
  function Saved(r: Option<KeyValue>, user: Bytes): Option<KeyValue> {
    if r.Some? && ExtractUserKey(r.value.key) == user then r else None
  }

  lemma {:induction false} SeekIndexIsFirst(es: seq<Entry>, kvs: seq<KeyValue>, k: InternalKey)
    requires Encodes(es, kvs) && InRange(k)
    ensures IsFirst(InternalRank, kvs, EncodeKey(k), SeekIndex(es, k))
  {
    var i := SeekIndex(es, k);
    forall j: nat | j < i
      ensures InternalRank(kvs[j].key) < InternalRank(EncodeKey(k))
    {
      assert EncodesAt(es, kvs, j);
      RankOfEncoded(es[j].key, k);
    }
    if i < |es| {
      assert EncodesAt(es, kvs, i);
      RankOfEncoded(es[i].key, k);
    }
  }

  /** The answers of the table are those of the sorted run. */
  lemma {:induction false} AnswerIsLookup(es: seq<Entry>, kvs: seq<KeyValue>, user: Bytes, s: nat, r: Option<KeyValue>)
    requires Encodes(es, kvs) && s <= MAX_SEQUENCE_NUMBER
    requires AllAnswer(InternalRank, ExtractUserKey, kvs, EncodeKey(SeekKey(user, s)), r)
    ensures match Lookup(es, user, s)
            case None => Saved(r, user) == None
            case Some(e) => InRange(e.key) && Saved(r, user) == Some(EncodeEntryOf(e))
  {
    var k := SeekKey(user, s);
    var i := SeekIndex(es, k);
    SeekIndexIsFirst(es, kvs, k);
    assert IsAnswer(InternalRank, ExtractUserKey, kvs, EncodeKey(k), r, i);
    RankOfEncoded(k, k);
    if i < |es| {
      assert EncodesAt(es, kvs, i);
      RankOfEncoded(es[i].key, k);
    }
  }

  // ----- The filter policy on internal keys -----

  function UserKeys(keys: seq<Bytes>): (r: seq<Bytes>) {
    seq(|keys|, i requires 0 <= i < |keys| => ExtractUserKey(keys[i]))
  }

  /** InternalFilterPolicy: the user's policy on the user keys. */
  function InternalFilterPolicy(user: Policy): Policy {
    Policy((keys: seq<Bytes>) => user.create(UserKeys(keys)), (key: Bytes, filter: Bytes) => user.mayMatch(ExtractUserKey(key), filter))
  }

  lemma {:induction false} InternalPolicyIsTrusted(user: Policy)
    requires FindsOwn(user)
    ensures FindsOwn(InternalFilterPolicy(user)) && SeesGroups(InternalFilterPolicy(user), ExtractUserKey)
  {
    var policy := InternalFilterPolicy(user);
    forall keys, key | key in keys
      ensures policy.mayMatch(key, policy.create(keys))
    {
      var i :| 0 <= i < |keys| && keys[i] == key;
      assert UserKeys(keys)[i] == ExtractUserKey(key);
      assert ExtractUserKey(key) in UserKeys(keys);
    }
  }

  // ----- Building a table and reading it -----

  ghost predicate Storable(es: seq<Entry>) {
    forall e :: e in es ==> InRange(e.key) && |e.key.user| < 0xffff_0000 && |e.value| < 0x1_0000_0000
  }

  datatype TableOptions = TableOptions(blockSize: nat, blockRestartInterval: nat, filterPolicy: Option<FilterPolicy>, crc: Crc)

  ghost predicate Usable(options: TableOptions) {
    && options.blockRestartInterval >= 1
    && (options.filterPolicy.Some? ==> |options.filterPolicy.value.name| < 0x1000_0000 && FindsOwn(options.filterPolicy.value.policy))
  }

  function InternalOptions(fp: Option<FilterPolicy>): Option<FilterPolicy> {
    if fp.None? then None else Some(FilterPolicy(fp.value.name, InternalFilterPolicy(fp.value.policy)))
  }

  /** The bytes of the first `n` keys and values; a key carries eight more. */
  function EntryBytes(es: seq<Entry>, n: nat): nat
    requires n <= |es|
  {
    if n == 0 then 0 else EntryBytes(es, n - 1) + |es[n - 1].key.user| + 8 + |es[n - 1].value|
  }

  /** The file system takes a table of these entries, if filters take at most `perKey` bytes for each key. */
  ghost predicate HasRoom(es: seq<Entry>, options: TableOptions, capacity: nat, perKey: nat) {
    && TableRoom(EntryBytes(es, |es|), |es|, FilterSize(perKey, |es|), options.filterPolicy) <= capacity
    && (options.filterPolicy.Some? ==> Frugal(options.filterPolicy.value.policy, perKey))
  }

  lemma {:induction false} InternalPolicyIsFrugal(user: Policy, perKey: nat)
    requires Frugal(user, perKey)
    ensures Frugal(InternalFilterPolicy(user), perKey)
  {
    var policy := InternalFilterPolicy(user);
    forall keys | keys != []
      ensures |policy.create(keys)| <= FilterSize(perKey, |keys|)
    {
      assert UserKeys(keys) != [] && |UserKeys(keys)| == |keys|;
    }
  }

  lemma NoBytes(es: seq<Entry>)
    ensures EntryBytes(es, 0) == 0
  {
  }

  lemma OneMoreEntryBytes(es: seq<Entry>, i: nat)
    requires i < |es| && InRange(es[i].key)
    ensures EntryBytes(es, i + 1) == EntryBytes(es, i) + |EncodeKey(es[i].key)| + |es[i].value|
    ensures |EncodeKey(es[i].key)| == |es[i].key.user| + 8
  {
  }

  lemma {:induction false} RoomIsFair(es: seq<Entry>, options: TableOptions, capacity: nat, perKey: nat)
    requires HasRoom(es, options, capacity, perKey)
    ensures var fp := InternalOptions(options.filterPolicy);
            && TableRoom(EntryBytes(es, |es|), |es|, FilterSize(perKey, |es|), fp) <= capacity
            && (fp.Some? ==> Frugal(fp.value.policy, perKey))
  {
    hide Frugal, FilterSize, EntryBytes;
    if options.filterPolicy.Some? {
      InternalPolicyIsFrugal(options.filterPolicy.value.policy, perKey);
    }
  }

  method BuildTable(es: seq<Entry>, options: TableOptions, capacity: nat, ghost perKey: nat)
    returns (ok: bool, file: Bytes, ghost t: Parts)
    requires Sorted(es) && Storable(es) && Usable(options) && capacity < 0x1_0000_0000_0000_0000
    ensures HasRoom(es, options, capacity, perKey) ==> ok
    ensures ok ==> IsTable(file, options.crc, InternalKeyComparator(), InternalRank, InternalOptions(options.filterPolicy), t)
    ensures ok ==> Encodes(es, Entries(t))
  {
    hide Suits, Sorted, TableBuilder.Good, TableBuilder.Objects, TableBuilder.Sized, IsTable, Encodes, Frugal, FilterSize, TableRoom,
      HasRoom, EntryBytes, EncodeKey;
    InternalSuits();
    OneMoreKey(perKey, 0);
    NoBytes(es);
    var builder := new TableBuilder(InternalKeyComparator(), InternalRank, options.blockSize, options.blockRestartInterval,
                                    InternalOptions(options.filterPolicy), options.crc, capacity, perKey);
    NothingEncodes();
    for i := 0 to |es|
      invariant builder.Valid() && !builder.closed && fresh(builder) && fresh(builder.dataBlock) && fresh(builder.indexBlock)
      invariant builder.filterBlock != null ==> fresh(builder.filterBlock)
      invariant builder.comparator == InternalKeyComparator() && builder.rank == InternalRank && builder.crc == options.crc
      invariant builder.filterPolicy == InternalOptions(options.filterPolicy)
      invariant builder.capacity == capacity && builder.perKey == perKey
      invariant builder.bytes == EntryBytes(es, i) && builder.count == i && builder.filterRoom == FilterSize(perKey, i)
      invariant builder.ok ==> Encodes(es[..i], builder.entries)
    {
      assert es[i] in es;
      if builder.ok {
        builder.LastKeyIsLast();
        NextKeyIsLater(es, i, builder.entries);
      }
      ghost var before := builder.entries;
      OneMoreKey(perKey, i);
      OneMoreEntryBytes(es, i);
      builder.Add(EncodeKey(es[i].key), es[i].value);
      if builder.ok { OneMoreEncodes(es, i, before, builder.entries); }
    }
    if HasRoom(es, options, capacity, perKey) { RoomIsFair(es, options, capacity, perKey); }
    t := builder.Finish();
    ok, file := builder.ok, builder.file;
    assert es[..|es|] == es;
  }

  lemma {:induction false} NothingEncodes()
    ensures Encodes([], [])
  {
  }

  lemma {:induction false} OneMoreEncodes(es: seq<Entry>, i: nat, kvs: seq<KeyValue>, more: seq<KeyValue>)
    requires i < |es| && InRange(es[i].key) && more == Joined(kvs, [EncodeEntryOf(es[i])])
    requires Encodes(es[..i], kvs)
    ensures Encodes(es[..i + 1], more)
  {
    var end := es[..i + 1];
    forall j: nat | j < |end|
      ensures EncodesAt(end, more, j)
    {
      if j < i { assert EncodesAt(es[..i], kvs, j); }
    }
  }

  lemma {:induction false} NextKeyIsLater(es: seq<Entry>, i: nat, kvs: seq<KeyValue>)
    requires i < |es| && Sorted(es) && Encodes(es[..i], kvs) && InRange(es[i].key)
    ensures |kvs| == i && (i > 0 ==> CompareInternal(EncodeKey(es[i].key), kvs[i - 1].key) > 0)
  {
    if i > 0 {
      assert EncodesAt(es[..i], kvs, i - 1);
      RankOfEncoded(es[i - 1].key, es[i].key);
      InternalOrders(EncodeKey(es[i].key), kvs[i - 1].key);
    }
  }

  /** Building a table and looking a key up in it is a lookup in the entries. */
  method BuildAndGet(es: seq<Entry>, options: TableOptions, capacity: nat, user: Bytes, s: nat, verifyChecksums: bool, ghost perKey: nat)
    returns (ok: bool, file: Bytes, found: Option<KeyValue>, ghost t: Parts)
    requires Sorted(es) && Storable(es) && Usable(options) && capacity < 0x1_0000_0000_0000_0000 && s <= MAX_SEQUENCE_NUMBER
    ensures HasRoom(es, options, capacity, perKey) ==> ok
    ensures ok && (Readable(t) || |file| < 0x1_0000_0000) ==>
              match Lookup(es, user, s)
              case None => found == None
              case Some(e) => InRange(e.key) && found == Some(EncodeEntryOf(e))
  {
    hide Sorted, IsTable, Encodes, Readable, Table.Valid, AllAnswer, Lookup, FindsOwn, SeesGroups, Suits;
    ok, file, t := BuildTable(es, options, capacity, perKey);
    found := None;
    var policy := InternalOptions(options.filterPolicy);
    if ok && |file| < 0x1_0000_0000 {
      SmallFileIsReadable(file, options.crc, InternalKeyComparator(), InternalRank, policy, t);
    }
    if options.filterPolicy.Some? { InternalPolicyIsTrusted(options.filterPolicy.value.policy); }
    InternalSuits();
    var table := Table.Open(InternalKeyComparator(), file, options.crc, policy, verifyChecksums, InternalRank, policy, t);
    if ok && table != null {
      var r := table.InternalGet(verifyChecksums, EncodeKey(SeekKey(user, s)));
      found := Saved(r, user);
      if Readable(t) { AnswerIsLookup(es, Entries(t), user, s, r); }
    }
  }

  /** Reading a built table from the front gives back exactly what went in. */
  method BuildAndScan(es: seq<Entry>, options: TableOptions, capacity: nat, verifyChecksums: bool, ghost perKey: nat)
    returns (ok: bool, file: Bytes, scanned: seq<KeyValue>)
    requires Sorted(es) && Storable(es) && Usable(options) && capacity < 0x1_0000_0000_0000_0000
    ensures HasRoom(es, options, capacity, perKey) ==> ok
    ensures ok && |file| < 0x1_0000_0000 ==> Encodes(es, scanned)
  {
    hide Sorted, IsTable, Encodes, Readable, Table.Valid, Suits;
    ghost var t: Parts;
    ok, file, t := BuildTable(es, options, capacity, perKey);
    scanned := [];
    var policy := InternalOptions(options.filterPolicy);
    if ok && |file| < 0x1_0000_0000 {
      SmallFileIsReadable(file, options.crc, InternalKeyComparator(), InternalRank, policy, t);
    }
    InternalSuits();
    var table := Table.Open(InternalKeyComparator(), file, options.crc, policy, verifyChecksums, InternalRank, policy, t);
    if ok && |file| < 0x1_0000_0000 && table != null {
      scanned := Scan(table, verifyChecksums);
    }
  }

  method Scan(table: Table, verifyChecksums: bool) returns (scanned: seq<KeyValue>)
    requires table.Valid()
    ensures scanned == Entries(table.t)
  {
    hide Table.Valid, StartOf, Flat, Iter.Valid, Iter.IsBlock;
    scanned := [];
    var indexIter := table.IndexIterator();
    if indexIter != null {
      var iter := new TwoLevelIterator(table, verifyChecksums, indexIter);
      iter.SeekToFirst();
      iter.OnEntry();
      while iter.OnData()
        invariant iter.Valid() && fresh(iter) && fresh(iter.indexIter) && (iter.dataIter != null ==> fresh(iter.dataIter))
        invariant iter.table == table && iter.Place() <= iter.Total() == |Entries(table.t)|
        invariant scanned == Entries(table.t)[..iter.Place()] && (iter.OnData() <==> iter.Place() < iter.Total())
        decreases iter.Total() - iter.Place()
      {
        iter.OnEntry();
        scanned := scanned + [KeyValue(iter.dataIter.key, iter.dataIter.Value())];
        iter.Next();
        iter.OnEntry();
      }
    }
  }
}
