/** Fixed-width and variable-width integers in byte strings. */
module Coding {
  import opened ByteOrder
  import opened DbFormat

  type Word = x: int | 0 <= x < 0x1_0000_0000

  // ----- Byte strings inside others -----

  /** a + b. */
  function Joined<T>(a: seq<T>, b: seq<T>): seq<T> {
    if a == [] then b else a + b
  }

  lemma JoinedLength<T>(a: seq<T>, b: seq<T>)
    ensures |Joined(a, b)| == |a| + |b|
  {
  }

  lemma JoinedNothing<T>(a: seq<T>)
    ensures Joined(a, []) == a
  {
    if a != [] {
      assert a + [] == a;
    }
  }

  lemma JoinedAssociates<T>(a: seq<T>, b: seq<T>, c: seq<T>)
    ensures Joined(Joined(a, b), c) == Joined(a, Joined(b, c))
  {
    if a == [] {
    } else if b == [] {
      assert a + b == a;
    } else {
      assert (a + b) + c == a + (b + c);
    }
  }

  ghost predicate ByteIs(b: Bytes, p: nat, bytes: Bytes, i: nat)
    requires p + |bytes| <= |b|
  {
    i < |bytes| ==> b[p + i] == bytes[i]
  }

  /** `bytes` are what `b` holds from `p` on. */
  ghost predicate At(b: Bytes, p: nat, bytes: Bytes) {
    p + |bytes| <= |b| && forall i: nat :: ByteIs(b, p, bytes, i)
  }

  lemma AtSplit(b: Bytes, p: nat, xy: Bytes, x: Bytes, y: Bytes, mid: nat)
    requires At(b, p, xy) && xy == x + y && mid == p + |x|
    ensures At(b, p, x) && At(b, mid, y)
  {
    forall i: nat
      ensures ByteIs(b, p, x, i) && ByteIs(b, mid, y, i)
    {
      assert ByteIs(b, p, xy, i) && ByteIs(b, p, xy, |x| + i);
    }
  }

  lemma AtJoined(b: Bytes, p: nat, x: Bytes, y: Bytes)
    requires At(b, p, Joined(x, y))
    ensures At(b, p, x) && At(b, p + |x|, y)
  {
    assert Joined(x, y) == x + y;
    AtSplit(b, p, Joined(x, y), x, y, p + |x|);
  }

  lemma AtThree(b: Bytes, p: nat, xyz: Bytes, x: Bytes, y: Bytes, z: Bytes)
    requires At(b, p, xyz) && xyz == x + (y + z)
    ensures At(b, p, x) && At(b, p + |x|, y) && At(b, p + |x| + |y|, z)
  {
    AtSplit(b, p, xyz, x, y + z, p + |x|);
    AtSplit(b, p + |x|, y + z, y, z, p + |x| + |y|);
  }

  lemma SliceOfLeft(a: Bytes, b: Bytes, i: nat, j: nat)
    requires i <= j <= |a|
    ensures (a + b)[i..j] == a[i..j]
  {
  }

  lemma SliceOfRight(a: Bytes, b: Bytes)
    ensures (a + b)[|a|..] == b
  {
  }

  lemma AtSlice(b: Bytes, p: nat, bytes: Bytes)
    requires At(b, p, bytes)
    ensures b[p..p + |bytes|] == bytes
  {
    forall i | 0 <= i < |bytes|
      ensures b[p + i] == bytes[i]
    {
      assert ByteIs(b, p, bytes, i);
    }
  }

  lemma SliceAt(b: Bytes, p: nat, bytes: Bytes)
    requires p + |bytes| <= |b| && b[p..p + |bytes|] == bytes
    ensures At(b, p, bytes)
  {
    forall i: nat
      ensures ByteIs(b, p, bytes, i)
    {
      if i < |bytes| { assert b[p..p + |bytes|][i] == b[p + i]; }
    }
  }

  /** What was in a string is still there after something is appended. */
  lemma AtGrows(b: Bytes, p: nat, bytes: Bytes, more: Bytes)
    requires At(b, p, bytes)
    ensures At(Joined(b, more), p, bytes)
  {
    forall i: nat
      ensures ByteIs(Joined(b, more), p, bytes, i)
    {
      assert ByteIs(b, p, bytes, i);
    }
  }

  lemma AtEnd(b: Bytes, bytes: Bytes)
    ensures At(Joined(b, bytes), |b|, bytes)
  {
    forall i: nat
      ensures ByteIs(Joined(b, bytes), |b|, bytes, i)
    {
    }
  }

  // ----- Fixed width -----

  /** The four bytes of a fixed-width word. */
  datatype Fixed32 = Fixed32(b0: Byte, b1: Byte, b2: Byte, b3: Byte)

  function EncodeFixed32(w: Word): Fixed32 {
    Fixed32(w % 0x100, w / 0x100 % 0x100, w / 0x100 / 0x100 % 0x100, w / 0x100 / 0x100 / 0x100)
  }

  function DecodeFixed32(b: Fixed32): Word {
    b.b0 as int + b.b1 as int * 0x100 + b.b2 as int * 0x1_0000 + b.b3 as int * 0x100_0000
  }

  lemma DecodeEncodeFixed32(w: Word)
    ensures DecodeFixed32(EncodeFixed32(w)) == w
  {
    var q := w / 0x100;
    var r := q / 0x100;
    assert w == w % 0x100 + (q % 0x100 + (r % 0x100 + r / 0x100 * 0x100) * 0x100) * 0x100;
  }

  function PutFixed32(w: Word): (r: Bytes)
    ensures |r| == 4
  {
    var f := EncodeFixed32(w);
    [f.b0, f.b1, f.b2, f.b3]
  }

  function Fixed32At(b: Bytes, p: nat): Word
    requires p + 4 <= |b|
  {
    DecodeFixed32(Fixed32(b[p], b[p + 1], b[p + 2], b[p + 3]))
  }

  lemma Fixed32ReadsBack(b: Bytes, p: nat, w: Word)
    requires At(b, p, PutFixed32(w))
    ensures Fixed32At(b, p) == w
  {
    DecodeEncodeFixed32(w);
    assert ByteIs(b, p, PutFixed32(w), 0) && ByteIs(b, p, PutFixed32(w), 1);
    assert ByteIs(b, p, PutFixed32(w), 2) && ByteIs(b, p, PutFixed32(w), 3);
  }

  /** The first `n` of some fixed-width words. */
  function WordArray(words: seq<Word>, n: nat): (r: Bytes)
    requires n <= |words|
    ensures |r| == 4 * n
  {
    if n == 0 then [] else Joined(WordArray(words, n - 1), PutFixed32(words[n - 1]))
  }

  lemma {:induction false} WordReadsBack(b: Bytes, p: nat, words: seq<Word>, n: nat, i: nat)
    requires i < n <= |words| && At(b, p, WordArray(words, n))
    ensures p + 4 * i + 4 <= |b| && Fixed32At(b, p + 4 * i) == words[i]
  {
    WordSplits(b, p, words, n);
    if i == n - 1 {
      Fixed32ReadsBack(b, p + 4 * i, words[i]);
    } else {
      WordReadsBack(b, p, words, n - 1, i);
    }
  }

  lemma WordSplits(b: Bytes, p: nat, words: seq<Word>, n: nat)
    requires 0 < n <= |words| && At(b, p, WordArray(words, n))
    ensures At(b, p, WordArray(words, n - 1)) && At(b, p + 4 * (n - 1), PutFixed32(words[n - 1]))
  {
    var before, last := WordArray(words, n - 1), PutFixed32(words[n - 1]);
    assert Joined(before, last) == before + last;
    AtSplit(b, p, Joined(before, last), before, last, p + 4 * (n - 1));
  }

  // ----- Variable width -----

  /** EncodeVarint32 and EncodeVarint64: seven bits a byte, the lowest first. */
  function PutVarint(v: nat): (r: Bytes)
    ensures |r| > 0
  {
    if v < 128 then [v] else [v % 128 + 128] + PutVarint(v / 128)
  }

  const MAX_VARINT32_BYTES: nat := 5

  const MAX_VARINT64_BYTES: nat := 10

  datatype Parsed = Parsed(value: nat, next: nat)

  /** A number of at most `n` bytes before `limit`, before it is cut to the width of the result. */
  function VarintAt(b: Bytes, p: nat, limit: nat, n: nat): (r: Option<Parsed>)
    requires limit <= |b|
    ensures r.Some? ==> p < r.value.next <= limit
    decreases n
  {
    if n == 0 || p >= limit then None
    else if b[p] < 128 then Some(Parsed(b[p], p + 1))
    else
      var rest := VarintAt(b, p + 1, limit, n - 1);
      if rest.None? then None else Some(Parsed(b[p] - 128 + 128 * rest.value.value, rest.value.next))
  }

  /** GetVarint32Ptr. */
  function GetVarint32(b: Bytes, p: nat, limit: nat): (r: Option<Parsed>)
    requires limit <= |b|
    ensures r.Some? ==> p < r.value.next <= limit && r.value.value < 0x1_0000_0000
  {
    var r := VarintAt(b, p, limit, MAX_VARINT32_BYTES);
    if r.None? then None else Some(Parsed(r.value.value % 0x1_0000_0000, r.value.next))
  }

  /** GetVarint64Ptr. */
  function GetVarint64(b: Bytes, p: nat, limit: nat): (r: Option<Parsed>)
    requires limit <= |b|
    ensures r.Some? ==> p < r.value.next <= limit
  {
    var r := VarintAt(b, p, limit, MAX_VARINT64_BYTES);
    if r.None? then None else Some(Parsed(r.value.value % 0x1_0000_0000_0000_0000, r.value.next))
  }

  ghost function Power128(n: nat): nat {
    if n == 0 then 1 else 128 * Power128(n - 1)
  }

  lemma {:induction false} VarintReadsBack(b: Bytes, p: nat, limit: nat, v: nat, n: nat)
    requires limit <= |b| && At(b, p, PutVarint(v)) && p + |PutVarint(v)| <= limit
    requires n >= 1 && v < Power128(n)
    ensures VarintAt(b, p, limit, n) == Some(Parsed(v, p + |PutVarint(v)|))
    decreases n
  {
    assert ByteIs(b, p, PutVarint(v), 0);
    if v >= 128 {
      assert Power128(1) == 128;
      AtSplit(b, p, PutVarint(v), [v % 128 + 128], PutVarint(v / 128), p + 1);
      VarintReadsBack(b, p + 1, limit, v / 128, n - 1);
    }
  }

  lemma Varint32ReadsBack(b: Bytes, p: nat, limit: nat, v: Word)
    requires limit <= |b| && At(b, p, PutVarint(v)) && p + |PutVarint(v)| <= limit
    ensures GetVarint32(b, p, limit) == Some(Parsed(v, p + |PutVarint(v)|))
  {
    FiveBytesSuffice();
    VarintReadsBack(b, p, limit, v, MAX_VARINT32_BYTES);
  }

  lemma {:induction false} VarintLength(v: nat, n: nat)
    requires n >= 1 && v < Power128(n)
    ensures |PutVarint(v)| <= n
    decreases n
  {
    assert Power128(1) == 128;
    if v >= 128 {
      VarintLength(v / 128, n - 1);
    }
  }

  lemma FiveBytesSuffice()
    ensures Power128(5) >= 0x1_0000_0000
  {
    assert Power128(1) == 128;
    assert Power128(2) == 128 * 128;
    assert Power128(3) == 128 * 128 * 128;
    assert Power128(4) == 128 * 128 * 128 * 128;
  }

  lemma Varint64ReadsBack(b: Bytes, p: nat, limit: nat, v: nat)
    requires v < 0x1_0000_0000_0000_0000
    requires limit <= |b| && At(b, p, PutVarint(v)) && p + |PutVarint(v)| <= limit
    ensures GetVarint64(b, p, limit) == Some(Parsed(v, p + |PutVarint(v)|))
  {
    TenBytesSuffice();
    VarintReadsBack(b, p, limit, v, MAX_VARINT64_BYTES);
  }

  lemma TenBytesSuffice()
    ensures Power128(10) >= 0x1_0000_0000_0000_0000
  {
    assert Power128(5) == 128 * 128 * 128 * 128 * 128;
    assert Power128(6) == 128 * 128 * 128 * 128 * 128 * 128;
    assert Power128(7) == 128 * 128 * 128 * 128 * 128 * 128 * 128;
    assert Power128(8) == 128 * 128 * 128 * 128 * 128 * 128 * 128 * 128;
    assert Power128(9) == 128 * 128 * 128 * 128 * 128 * 128 * 128 * 128 * 128;
  }

  // ----- Length prefixes -----

  function LengthPrefixed(s: Bytes): (r: Bytes)
    ensures |r| > |s|
  {
    PutVarint(|s|) + s
  }

  datatype ParsedBytes = ParsedBytes(bytes: Bytes, next: nat)

  /** GetLengthPrefixedSlice. */
  function LengthPrefixedAt(b: Bytes, p: nat): (r: Option<ParsedBytes>)
    ensures r.Some? ==> p < r.value.next <= |b|
  {
    var n := GetVarint32(b, p, |b|);
    if n.None? || n.value.next + n.value.value > |b| then None
    else Some(ParsedBytes(b[n.value.next..n.value.next + n.value.value], n.value.next + n.value.value))
  }

  lemma {:induction false} LengthPrefixedReadsBack(b: Bytes, p: nat, s: Bytes)
    requires At(b, p, LengthPrefixed(s)) && |s| < 0x1_0000_0000
    ensures LengthPrefixedAt(b, p) == Some(ParsedBytes(s, p + |LengthPrefixed(s)|))
  {
    var start := p + |PutVarint(|s|)|;
    AtSplit(b, p, LengthPrefixed(s), PutVarint(|s|), s, start);
    Varint32ReadsBack(b, p, |b|, |s|);
    AtSlice(b, start, s);
  }
}
