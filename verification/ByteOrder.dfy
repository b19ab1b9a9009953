/** Byte strings and the bytewise order used for user keys. */
module ByteOrder {

  type Byte = x: int | 0 <= x < 256

  type Bytes = seq<Byte>

  /** memcmp from position `i`, then the shorter string first. */
  function CompareFrom(a: Bytes, b: Bytes, i: nat): (r: int)
    requires i <= |a| && i <= |b|
    decreases |a| - i
  {
    if i == |a| then
      if i == |b| then 0 else -1
    else if i == |b| then 1
    else if a[i] != b[i] then
      if a[i] < b[i] then -1 else 1
    else CompareFrom(a, b, i + 1)
  }

  /** The bytes from `i` on, read as the digits of a fraction in base 257. */
  ghost function Fraction(s: Bytes, i: nat): real
    requires i <= |s|
    decreases |s| - i
  {
    if i == |s| then 0.0 else (s[i] as real + 1.0 + Fraction(s, i + 1)) / 257.0
  }

  lemma FractionBounds(s: Bytes, i: nat)
    requires i <= |s|
    ensures 0.0 <= Fraction(s, i) < 1.0
    ensures i < |s| ==> 0.0 < Fraction(s, i)
    decreases |s| - i
  {
    if i < |s| {
      FractionBounds(s, i + 1);
    }
  }

  lemma {:induction false} CompareFromEmbeds(a: Bytes, b: Bytes, i: nat)
    requires i <= |a| && i <= |b|
    ensures CompareFrom(a, b, i) < 0 <==> Fraction(a, i) < Fraction(b, i)
    ensures CompareFrom(a, b, i) == 0 <==> Fraction(a, i) == Fraction(b, i)
    ensures CompareFrom(a, b, i) == 0 <==> a[i..] == b[i..]
    decreases |a| - i
  {
    FractionBounds(a, i);
    FractionBounds(b, i);
    if i < |a| && i < |b| {
      FractionBounds(a, i + 1);
      FractionBounds(b, i + 1);
      if a[i] != b[i] {
        assert a[i..][0] != b[i..][0];
      } else {
        assert a[i..] == [a[i]] + a[i + 1..];
        assert b[i..] == [b[i]] + b[i + 1..];
        CompareFromEmbeds(a, b, i + 1);
      }
    }
  }

  ghost predicate OrderEmbedding(f: Bytes -> real) {
    forall a, b {:trigger CompareFrom(a, b, 0)} ::
      && (CompareFrom(a, b, 0) < 0 <==> f(a) < f(b))
      && (CompareFrom(a, b, 0) == 0 <==> f(a) == f(b))
      && (f(a) == f(b) <==> a == b)
  }

  lemma SomeOrderEmbedding()
    ensures exists f :: OrderEmbedding(f)
  {
    var f := (s: Bytes) => Fraction(s, 0);
    forall a, b
      ensures CompareFrom(a, b, 0) < 0 <==> f(a) < f(b)
      ensures CompareFrom(a, b, 0) == 0 <==> f(a) == f(b)
      ensures f(a) == f(b) <==> a == b
    {
      CompareFromEmbeds(a, b, 0);
      assert a[0..] == a && b[0..] == b;
    }
    assert OrderEmbedding(f);
  }

  ghost function Embedding(): (f: Bytes -> real)
    ensures OrderEmbedding(f)
  {
    SomeOrderEmbedding();
    var f :| OrderEmbedding(f);
    f
  }

  /** The place of a byte string in the order; every order law follows from it. */
  ghost function Rank(s: Bytes): real {
    Embedding()(s)
  }

  lemma RankIsInjective(a: Bytes, b: Bytes)
    ensures Rank(a) == Rank(b) <==> a == b
  {
    var r := CompareFrom(a, b, 0);
  }

  ghost predicate Lt(a: Bytes, b: Bytes)
    ensures Rank(a) == Rank(b) <==> a == b
  {
    RankIsInjective(a, b);
    Rank(a) < Rank(b)
  }

  ghost predicate Le(a: Bytes, b: Bytes)
    ensures Rank(a) == Rank(b) <==> a == b
  {
    RankIsInjective(a, b);
    Rank(a) <= Rank(b)
  }

  /** Slice::compare. */
  function Compare(a: Bytes, b: Bytes): (r: int)
    ensures r < 0 <==> Lt(a, b)
    ensures r == 0 <==> a == b
    ensures r > 0 <==> Lt(b, a)
  {
    CompareFrom(a, b, 0)
  }
}
