/** Internal keys, entries and lookups in one sorted run of entries. */
module DbFormat {
  import opened ByteOrder

  const MAX_SEQUENCE_NUMBER: nat := 0x100_0000_0000_0000 - 1

  datatype ValueType = Deletion | Value

  datatype InternalKey = InternalKey(user: Bytes, sequence: nat, kind: ValueType)

  datatype Entry = Entry(key: InternalKey, value: Bytes)

  datatype Option<+T> = None | Some(value: T)

  /** PackSequenceAndType: the 64-bit tag that ends an encoded internal key. */
  function PackSequenceAndType(k: InternalKey): int {
    k.sequence * 256 + if k.kind.Value? then 1 else 0
  }

  /** Ascending user key, then descending tag. */
  function CompareKeys(a: InternalKey, b: InternalKey): (r: int)
    ensures r < 0 <==> KeyLt(a, b)
    ensures r == 0 <==> a == b
    ensures r > 0 <==> KeyLt(b, a)
  {
    var r := Compare(a.user, b.user);
    if r != 0 then r
    else if PackSequenceAndType(a) > PackSequenceAndType(b) then -1
    else if PackSequenceAndType(a) < PackSequenceAndType(b) then 1
    else 0
  }

  ghost predicate KeyLt(a: InternalKey, b: InternalKey)
    ensures Rank(a.user) == Rank(b.user) <==> a.user == b.user
  {
    RankIsInjective(a.user, b.user);
    Rank(a.user) < Rank(b.user) || (a.user == b.user && PackSequenceAndType(a) > PackSequenceAndType(b))
  }

  ghost predicate Sorted(es: seq<Entry>) {
    forall i, j :: 0 <= i < j < |es| ==> KeyLt(es[i].key, es[j].key)
  }

  /** The key that a lookup of `user` at sequence number `s` seeks to. */
  function SeekKey(user: Bytes, s: nat): InternalKey {
    InternalKey(user, s, Value)
  }

  /** Index of the first entry at or after `k`. */
  function SeekIndex(es: seq<Entry>, k: InternalKey): (i: nat)
    ensures i <= |es|
    ensures forall j :: 0 <= j < i ==> KeyLt(es[j].key, k)
    ensures i < |es| ==> !KeyLt(es[i].key, k)
  {
    if es == [] || CompareKeys(es[0].key, k) >= 0 then 0 else 1 + SeekIndex(es[1..], k)
  }

  ghost predicate Visible(e: Entry, user: Bytes, s: nat) {
    e.key.user == user && e.key.sequence <= s
  }

  /** `r` is the newest entry of `user` in `es` not newer than `s`, or None when there is none. */
  ghost predicate IsNewest(es: set<Entry>, user: Bytes, s: nat, r: Option<Entry>) {
    match r
    case Some(e) =>
      && e in es && Visible(e, user, s)
      && forall x :: x in es && Visible(x, user, s) ==> x.key.sequence <= e.key.sequence
    case None =>
      forall x :: x in es ==> !Visible(x, user, s)
  }

  /** Every entry of `newer` is newer than every entry of `older` for the same user key. */
  ghost predicate Above(newer: set<Entry>, older: set<Entry>) {
    forall a, b :: a in newer && b in older && a.key.user == b.key.user ==> a.key.sequence > b.key.sequence
  }

  /** A user key is written at most once at any sequence number. */
  ghost predicate UniqueSequences(es: set<Entry>) {
    forall a, b :: a in es && b in es && a.key.user == b.key.user && a.key.sequence == b.key.sequence ==> a == b
  }

  ghost function Elements(es: seq<Entry>): set<Entry> {
    set e | e in es
  }

  /** What MemTable::Get and Table::InternalGet with SaveValue find in one sorted run. */
  function Lookup(es: seq<Entry>, user: Bytes, s: nat): Option<Entry> {
    var i := SeekIndex(es, SeekKey(user, s));
    if i < |es| && es[i].key.user == user then Some(es[i]) else None
  }

  lemma LookupFindsNewest(es: seq<Entry>, user: Bytes, s: nat)
    requires Sorted(es)
    ensures IsNewest(Elements(es), user, s, Lookup(es, user, s))
  {
    var k := SeekKey(user, s);
    var i := SeekIndex(es, k);
    forall x | x in es && Visible(x, user, s)
      ensures i < |es| && es[i].key.user == user && x.key.sequence <= es[i].key.sequence
    {
      var j :| 0 <= j < |es| && es[j] == x;
      assert !KeyLt(x.key, k);
      assert i <= j;
      if i < j {
        assert KeyLt(es[i].key, es[j].key);
      }
    }
  }
}
