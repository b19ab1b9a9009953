/** Comparators on encoded keys, and the short keys they find for the index of a table. */
module KeyOrder {
  import opened ByteOrder
  import opened DbFormat
  import opened Coding

  type Ordering = (Bytes, Bytes) -> int

  /** `group` is the part of a key that a lookup must meet exactly. */
  datatype Comparator = Comparator(
    compare: Ordering, separator: (Bytes, Bytes) -> Bytes, successor: Bytes -> Bytes, group: Bytes -> Bytes)

  /** A comparator orders keys like the numbers that `rank` gives them. */
  ghost predicate OrdersAt(cmp: Ordering, rank: Bytes -> real, a: Bytes, b: Bytes) {
    (cmp(a, b) < 0 <==> rank(a) < rank(b)) && (cmp(a, b) == 0 <==> rank(a) == rank(b))
  }

  ghost predicate Orders(cmp: Ordering, rank: Bytes -> real) {
    forall a, b :: OrdersAt(cmp, rank, a, b)
  }

  /**
   * `key` can stand in an index between a block that ends with `last` and the next one, which starts with `first`:
   * whatever is looked up between the two is not in the later blocks.
   */
  ghost predicate Between(rank: Bytes -> real, group: Bytes -> Bytes, last: Bytes, first: Bytes, key: Bytes) {
    && rank(last) <= rank(key) < rank(first)
    && forall k, x :: rank(last) < rank(k) <= rank(key) && rank(first) <= rank(x) ==> group(k) != group(x)
  }

  ghost predicate SeparatesAt(c: Comparator, rank: Bytes -> real, start: Bytes, limit: Bytes) {
    && |c.separator(start, limit)| <= |start|
    && (rank(start) < rank(limit) ==> Between(rank, c.group, start, limit, c.separator(start, limit)))
  }

  ghost predicate SucceedsAt(c: Comparator, rank: Bytes -> real, key: Bytes) {
    |c.successor(key)| <= |key| && rank(key) <= rank(c.successor(key))
  }

  /** What a table asks of its comparator. */
  ghost predicate Suits(c: Comparator, rank: Bytes -> real) {
    && Orders(c.compare, rank)
    && (forall start, limit :: SeparatesAt(c, rank, start, limit))
    && (forall key :: SucceedsAt(c, rank, key))
  }

  // ----- User keys -----

  function DiffIndex(a: Bytes, b: Bytes, i: nat): (d: nat)
    requires i <= |a| && i <= |b| && a[..i] == b[..i]
    ensures i <= d <= |a| && d <= |b| && a[..d] == b[..d]
    ensures d < |a| && d < |b| ==> a[d] != b[d]
    decreases |a| - i
  {
    if i < |a| && i < |b| && a[i] == b[i] then
      assert a[..i + 1] == a[..i] + [a[i]] && b[..i + 1] == b[..i] + [b[i]];
      DiffIndex(a, b, i + 1)
    else i
  }

  function ShortestSeparator(start: Bytes, limit: Bytes): (r: Bytes)
    ensures |r| <= |start|
  {
    var d := DiffIndex(start, limit, 0);
    if d < |start| && d < |limit| && start[d] < 255 && start[d] + 1 < limit[d] then
      start[..d] + [start[d] + 1]
    else start
  }

  /** Changes the string in place. */
  method FindShortestSeparator(start: Bytes, limit: Bytes) returns (r: Bytes)
    ensures r == ShortestSeparator(start, limit)
  {
    var minLength := if |start| < |limit| then |start| else |limit|;
    var diffIndex := 0;
    while diffIndex < minLength && start[diffIndex] == limit[diffIndex]
      invariant diffIndex <= minLength && start[..diffIndex] == limit[..diffIndex]
      invariant DiffIndex(start, limit, 0) == DiffIndex(start, limit, diffIndex)
    {
      diffIndex := diffIndex + 1;
    }
    r := start;
    if diffIndex < minLength {
      var diffByte := start[diffIndex];
      if diffByte < 0xff && diffByte + 1 < limit[diffIndex] {
        r := r[diffIndex := diffByte + 1];
        r := r[..diffIndex + 1];
        assert r == start[..diffIndex] + [diffByte + 1];
      }
    }
  }

  lemma {:induction false} CompareSkips(a: Bytes, b: Bytes, i: nat, d: nat)
    requires i <= d <= |a| && d <= |b| && a[..d] == b[..d]
    ensures CompareFrom(a, b, i) == CompareFrom(a, b, d)
    decreases d - i
  {
    if i < d {
      assert a[i] == a[..d][i] == b[..d][i] == b[i];
      CompareSkips(a, b, i + 1, d);
    }
  }

  /** The first byte that differs decides. */
  lemma DifferenceDecides(a: Bytes, b: Bytes, d: nat)
    requires d < |a| && d < |b| && a[..d] == b[..d] && a[d] < b[d]
    ensures Lt(a, b)
  {
    CompareSkips(a, b, 0, d);
    assert Compare(a, b) < 0;
  }

  lemma SeparatorLiesBetween(start: Bytes, limit: Bytes)
    ensures Le(start, ShortestSeparator(start, limit))
    ensures Lt(start, limit) ==> Lt(ShortestSeparator(start, limit), limit)
    ensures ShortestSeparator(start, limit) != start ==> Lt(start, ShortestSeparator(start, limit)) && Lt(ShortestSeparator(start, limit), limit)
  {
    var d := DiffIndex(start, limit, 0);
    var r := ShortestSeparator(start, limit);
    if r != start {
      assert r[..d] == start[..d] && r[d] == start[d] + 1;
      DifferenceDecides(start, r, d);
      DifferenceDecides(r, limit, d);
    }
  }

  function SuccessorFrom(key: Bytes, i: nat): (r: Bytes)
    requires i <= |key|
    ensures |r| <= |key|
    decreases |key| - i
  {
    if i == |key| then key
    else if key[i] != 255 then key[..i] + [key[i] + 1]
    else SuccessorFrom(key, i + 1)
  }

  /** Changes the string in place. */
  method FindShortSuccessor(key: Bytes) returns (r: Bytes)
    ensures r == SuccessorFrom(key, 0)
  {
    r := key;
    for i := 0 to |key|
      invariant r == key && SuccessorFrom(key, 0) == SuccessorFrom(key, i)
    {
      var byte := key[i];
      if byte != 0xff {
        r := r[i := byte + 1];
        r := r[..i + 1];
        assert r == key[..i] + [byte + 1];
        return;
      }
    }
  }

  lemma {:induction false} SuccessorIsLater(key: Bytes, i: nat)
    requires i <= |key|
    ensures Le(key, SuccessorFrom(key, i))
    decreases |key| - i
  {
    if i < |key| {
      if key[i] != 255 {
        var r := key[..i] + [key[i] + 1];
        assert r[..i] == key[..i];
        DifferenceDecides(key, r, i);
      } else {
        SuccessorIsLater(key, i + 1);
      }
    }
  }

  function BytewiseComparator(): Comparator {
    Comparator(Compare, ShortestSeparator, (key: Bytes) => SuccessorFrom(key, 0), (key: Bytes) => key)
  }

  lemma BytewiseSuits()
    ensures Suits(BytewiseComparator(), Rank)
  {
    var c := BytewiseComparator();
    forall a, b
      ensures OrdersAt(c.compare, Rank, a, b)
    {
      RankIsInjective(a, b);
      var r := Compare(a, b);
    }
    forall start, limit
      ensures SeparatesAt(c, Rank, start, limit)
    {
      SeparatorLiesBetween(start, limit);
    }
    forall key
      ensures SucceedsAt(c, Rank, key)
    {
      SuccessorIsLater(key, 0);
    }
  }

  // ----- Internal keys -----

  type Long = x: int | 0 <= x < 0x1_0000_0000_0000_0000

  function PutFixed64(v: Long): (r: Bytes)
    ensures |r| == 8
  {
    PutFixed32(v % 0x1_0000_0000) + PutFixed32(v / 0x1_0000_0000)
  }

  function Fixed64At(b: Bytes, p: nat): Long
    requires p + 8 <= |b|
  {
    Fixed32At(b, p) + 0x1_0000_0000 * Fixed32At(b, p + 4)
  }

  lemma Fixed64ReadsBack(b: Bytes, p: nat, v: Long)
    requires At(b, p, PutFixed64(v))
    ensures Fixed64At(b, p) == v
  {
    AtSplit(b, p, PutFixed64(v), PutFixed32(v % 0x1_0000_0000), PutFixed32(v / 0x1_0000_0000), p + 4);
    Fixed32ReadsBack(b, p, v % 0x1_0000_0000);
    Fixed32ReadsBack(b, p + 4, v / 0x1_0000_0000);
  }

  /** AppendInternalKey: the user key, then its tag. */
  function Tagged(user: Bytes, tag: Long): (r: Bytes)
    ensures |r| == |user| + 8
  {
    user + PutFixed64(tag)
  }

  /** Encoded internal keys have at least eight bytes; shorter strings count as an empty user key. */
  function ExtractUserKey(key: Bytes): (r: Bytes) {
    if |key| < 8 then [] else key[..|key| - 8]
  }

  function Tag(key: Bytes): Long {
    if |key| < 8 then 0 else Fixed64At(key, |key| - 8)
  }

  lemma TaggedReadsBack(user: Bytes, tag: Long)
    ensures ExtractUserKey(Tagged(user, tag)) == user && Tag(Tagged(user, tag)) == tag
  {
    assert Joined(user, PutFixed64(tag)) == user + PutFixed64(tag);
    AtEnd(user, PutFixed64(tag));
    Fixed64ReadsBack(Tagged(user, tag), |user|, tag);
  }

  const SEEK_TAG: Long := 0xffff_ffff_ffff_ff01

  /** Ascending user key, then descending tag. */
  function CompareInternal(a: Bytes, b: Bytes): int {
    var r := Compare(ExtractUserKey(a), ExtractUserKey(b));
    if r != 0 then r
    else if Tag(a) > Tag(b) then -1
    else if Tag(a) < Tag(b) then 1
    else 0
  }

  /** A shorter user key that is larger gets the earliest tag. */
  function InternalSeparator(start: Bytes, limit: Bytes): Bytes {
    var user := ExtractUserKey(start);
    var tmp := ShortestSeparator(user, ExtractUserKey(limit));
    if |tmp| < |user| && Compare(user, tmp) < 0 then Tagged(tmp, SEEK_TAG) else start
  }

  function InternalSuccessor(key: Bytes): Bytes {
    var user := ExtractUserKey(key);
    var tmp := SuccessorFrom(user, 0);
    if |tmp| < |user| && Compare(user, tmp) < 0 then Tagged(tmp, SEEK_TAG) else key
  }

  function InternalKeyComparator(): Comparator {
    Comparator(CompareInternal, InternalSeparator, InternalSuccessor, ExtractUserKey)
  }

  /** A user key as a fraction in base 257, with room for `tail` after it. */
  ghost function Tailed(s: Bytes, i: nat, tail: real): real
    requires i <= |s|
    decreases |s| - i
  {
    if i == |s| then tail / 257.0 else (s[i] as real + 1.0 + Tailed(s, i + 1, tail)) / 257.0
  }

  lemma {:induction false} TailedBounds(s: Bytes, i: nat, tail: real)
    requires i <= |s| && 0.0 <= tail < 1.0
    ensures 0.0 <= Tailed(s, i, tail) < 1.0
    ensures if i == |s| then Tailed(s, i, tail) < 1.0 / 257.0 else 1.0 / 257.0 <= Tailed(s, i, tail)
    decreases |s| - i
  {
    if i < |s| {
      TailedBounds(s, i + 1, tail);
    }
  }

  lemma {:induction false} TailedOrders(a: Bytes, b: Bytes, i: nat, g: real, h: real)
    requires i <= |a| && i <= |b| && 0.0 <= g < 1.0 && 0.0 <= h < 1.0
    ensures var c := CompareFrom(a, b, i);
            && (Tailed(a, i, g) < Tailed(b, i, h) <==> c < 0 || (c == 0 && g < h))
            && (Tailed(a, i, g) == Tailed(b, i, h) <==> c == 0 && g == h)
    decreases |a| - i
  {
    TailedBounds(a, i, g);
    TailedBounds(b, i, h);
    if i < |a| && i < |b| {
      TailedBounds(a, i + 1, g);
      TailedBounds(b, i + 1, h);
      if a[i] == b[i] {
        TailedOrders(a, b, i + 1, g, h);
      }
    }
  }

  ghost function TagFraction(tag: Long): (r: real)
    ensures 0.0 <= r < 1.0
  {
    (0xffff_ffff_ffff_ffff - tag) as real / 18446744073709551616.0
  }

  /** The place of an encoded internal key in the order. */
  ghost function InternalRank(key: Bytes): real {
    Tailed(ExtractUserKey(key), 0, TagFraction(Tag(key)))
  }

  lemma InternalOrders(a: Bytes, b: Bytes)
    ensures OrdersAt(CompareInternal, InternalRank, a, b)
  {
    TailedOrders(ExtractUserKey(a), ExtractUserKey(b), 0, TagFraction(Tag(a)), TagFraction(Tag(b)));
  }

  /** The order on ranks, spelled out. */
  lemma InternalRankSplits(a: Bytes, b: Bytes)
    ensures InternalRank(a) < InternalRank(b) <==>
              Lt(ExtractUserKey(a), ExtractUserKey(b)) || (ExtractUserKey(a) == ExtractUserKey(b) && Tag(a) > Tag(b))
    ensures InternalRank(a) == InternalRank(b) <==> ExtractUserKey(a) == ExtractUserKey(b) && Tag(a) == Tag(b)
  {
    InternalOrders(a, b);
    var r := Compare(ExtractUserKey(a), ExtractUserKey(b));
  }

  lemma ShortKeyIsLater(key: Bytes, user: Bytes)
    requires Lt(ExtractUserKey(key), user)
    ensures InternalRank(key) < InternalRank(Tagged(user, SEEK_TAG))
  {
    TaggedReadsBack(user, SEEK_TAG);
    InternalRankSplits(key, Tagged(user, SEEK_TAG));
  }

  lemma InternalSeparates(start: Bytes, limit: Bytes)
    ensures SeparatesAt(InternalKeyComparator(), InternalRank, start, limit)
  {
    var sep := InternalSeparator(start, limit);
    var user := ExtractUserKey(start);
    var tmp := ShortestSeparator(user, ExtractUserKey(limit));
    SeparatorLiesBetween(user, ExtractUserKey(limit));
    if sep != start {
      ShortKeyIsLater(start, tmp);
      TaggedReadsBack(tmp, SEEK_TAG);
      if InternalRank(start) < InternalRank(limit) {
        InternalRankSplits(sep, limit);
        forall k, x | InternalRank(start) < InternalRank(k) <= InternalRank(sep) && InternalRank(limit) <= InternalRank(x)
          ensures ExtractUserKey(k) != ExtractUserKey(x)
        {
          InternalRankSplits(sep, k);
          InternalRankSplits(x, limit);
          RankIsInjective(ExtractUserKey(k), ExtractUserKey(sep));
          RankIsInjective(ExtractUserKey(x), ExtractUserKey(limit));
        }
      }
    }
  }

  lemma InternalSucceeds(key: Bytes)
    ensures SucceedsAt(InternalKeyComparator(), InternalRank, key)
  {
    var tmp := SuccessorFrom(ExtractUserKey(key), 0);
    if InternalSuccessor(key) != key {
      ShortKeyIsLater(key, tmp);
    }
  }

  lemma InternalSuits()
    ensures Suits(InternalKeyComparator(), InternalRank)
  {
    var c := InternalKeyComparator();
    forall a, b
      ensures OrdersAt(c.compare, InternalRank, a, b)
    {
      InternalOrders(a, b);
    }
    forall start, limit
      ensures SeparatesAt(c, InternalRank, start, limit)
    {
      InternalSeparates(start, limit);
    }
    forall key
      ensures SucceedsAt(c, InternalRank, key)
    {
      InternalSucceeds(key);
    }
  }
}
