/** Bloom filters: whatever hash is used, a key that went into a filter is found in it. */
module BloomFilter {
  import opened ByteOrder
  import opened DbFormat
  import opened Coding

  /** BloomHash; the results hold for any hash. */
  type Hash = Bytes -> Word

  // ----- Bits of a byte -----

  predicate HasBit(b: nat, i: nat) {
    if i == 0 then b % 2 == 1 else HasBit(b / 2, i - 1)
  }

  /** b | (1 << i). */
  function SetBit(b: nat, i: nat): nat {
    if i > 0 then b % 2 + 2 * SetBit(b / 2, i - 1)
    else if b % 2 == 1 then b else b + 1
  }

  ghost function Power2(n: nat): nat {
    if n == 0 then 1 else 2 * Power2(n - 1)
  }

  lemma {:induction false} SetBitSets(b: nat, i: nat, j: nat)
    ensures HasBit(SetBit(b, i), j) <==> i == j || HasBit(b, j)
  {
    if i > 0 && j > 0 {
      assert SetBit(b, i) / 2 == SetBit(b / 2, i - 1);
      SetBitSets(b / 2, i - 1, j - 1);
    } else if j > 0 {
      assert SetBit(b, 0) / 2 == b / 2;
    }
  }

  lemma {:induction false} SetBitFits(b: nat, i: nat, n: nat)
    requires b < Power2(n) && i < n
    ensures SetBit(b, i) < Power2(n)
  {
    if i > 0 {
      SetBitFits(b / 2, i - 1, n - 1);
    } else {
      PowersAreEven(n);
    }
  }

  lemma PowersAreEven(n: nat)
    requires n > 0
    ensures Power2(n) % 2 == 0
  {
  }

  lemma BytesHaveEightBits()
    ensures Power2(8) == 256
  {
  }

  // ----- Bit arrays -----

  predicate IsSet(a: Bytes, pos: nat)
    requires pos < 8 * |a|
  {
    HasBit(a[pos / 8], pos % 8)
  }

  function SetAt(a: Bytes, pos: nat): (r: Bytes)
    requires pos < 8 * |a|
    ensures |r| == |a|
  {
    BytesHaveEightBits();
    SetBitFits(a[pos / 8], pos % 8, 8);
    a[pos / 8 := SetBit(a[pos / 8], pos % 8)]
  }

  lemma SetAtSets(a: Bytes, pos: nat, q: nat)
    requires pos < 8 * |a| && q < 8 * |a|
    ensures IsSet(SetAt(a, pos), q) <==> q == pos || IsSet(a, q)
  {
    SetBitSets(a[pos / 8], pos % 8, q % 8);
    assert q == q / 8 * 8 + q % 8 && pos == pos / 8 * 8 + pos % 8;
  }

  // ----- Probes -----

  function Add32(a: Word, b: Word): Word {
    (a + b) % 0x1_0000_0000
  }

  /** Rotated right by 17 bits. */
  function Delta(h: Word): Word {
    h / 0x2_0000 + h % 0x2_0000 * 0x8000
  }

  /** The bits probed from hash `h` on, `k` of them. */
  function SetProbes(a: Bytes, h: Word, delta: Word, k: nat): (r: Bytes)
    requires |a| > 0
    ensures |r| == |a|
    decreases k
  {
    if k == 0 then a else SetProbes(SetAt(a, h % (8 * |a|)), Add32(h, delta), delta, k - 1)
  }

  predicate AllProbesSet(a: Bytes, h: Word, delta: Word, k: nat)
    requires |a| > 0
    decreases k
  {
    k == 0 || (IsSet(a, h % (8 * |a|)) && AllProbesSet(a, Add32(h, delta), delta, k - 1))
  }

  ghost predicate MoreBits(a: Bytes, b: Bytes)
    requires |a| == |b|
  {
    forall q :: 0 <= q < 8 * |a| && IsSet(a, q) ==> IsSet(b, q)
  }

  lemma {:induction false} ProbesOnlySet(a: Bytes, h: Word, delta: Word, k: nat)
    requires |a| > 0
    ensures MoreBits(a, SetProbes(a, h, delta, k))
    decreases k
  {
    if k > 0 {
      var b := SetAt(a, h % (8 * |a|));
      ProbesOnlySet(b, Add32(h, delta), delta, k - 1);
      forall q | 0 <= q < 8 * |a| && IsSet(a, q)
        ensures IsSet(SetProbes(a, h, delta, k), q)
      {
        SetAtSets(a, h % (8 * |a|), q);
      }
    }
  }

  lemma {:induction false} ProbesAreSet(a: Bytes, h: Word, delta: Word, k: nat)
    requires |a| > 0
    ensures AllProbesSet(SetProbes(a, h, delta, k), h, delta, k)
    decreases k
  {
    if k > 0 {
      var pos := h % (8 * |a|);
      var b := SetAt(a, pos);
      SetAtSets(a, pos, pos);
      ProbesOnlySet(b, Add32(h, delta), delta, k - 1);
      ProbesAreSet(b, Add32(h, delta), delta, k - 1);
    }
  }

  lemma {:induction false} ProbesStaySet(a: Bytes, b: Bytes, h: Word, delta: Word, k: nat)
    requires |a| == |b| > 0 && MoreBits(a, b) && AllProbesSet(a, h, delta, k)
    ensures AllProbesSet(b, h, delta, k)
    decreases k
  {
    if k > 0 {
      ProbesStaySet(a, b, Add32(h, delta), delta, k - 1);
    }
  }

  // ----- Filters -----

  function SetKeys(hash: Hash, k: nat, a: Bytes, keys: seq<Bytes>): (r: Bytes)
    requires |a| > 0
    ensures |r| == |a|
  {
    if keys == [] then a
    else
      var h := hash(keys[|keys| - 1]);
      SetProbes(SetKeys(hash, k, a, keys[..|keys| - 1]), h, Delta(h), k)
  }

  /** At least 64 bits, in whole bytes. */
  function FilterBytes(n: nat, bitsPerKey: nat): (r: nat)
    ensures r >= 8
  {
    var bits := n * bitsPerKey;
    ((if bits < 64 then 64 else bits) + 7) / 8
  }

  function ZeroBytes(n: nat): (r: Bytes)
    ensures |r| == n
  {
    if n == 0 then [] else [0] + ZeroBytes(n - 1)
  }

  /** The filter of some keys: the bit array and the number of probes. */
  function FilterOf(hash: Hash, k: nat, bitsPerKey: nat, keys: seq<Bytes>): Bytes
    requires 1 <= k <= 30
  {
    SetKeys(hash, k, ZeroBytes(FilterBytes(|keys|, bitsPerKey)), keys) + [k]
  }

  /** KeyMayMatch. */
  predicate MayMatch(hash: Hash, key: Bytes, filter: Bytes) {
    var len := |filter|;
    len >= 2 && (filter[len - 1] > 30 || AllProbesSet(filter[..len - 1], hash(key), Delta(hash(key)), filter[len - 1]))
  }

  lemma {:induction false} KeysAreSet(hash: Hash, k: nat, a: Bytes, keys: seq<Bytes>, i: nat)
    requires |a| > 0 && i < |keys|
    ensures AllProbesSet(SetKeys(hash, k, a, keys), hash(keys[i]), Delta(hash(keys[i])), k)
  {
    var n := |keys| - 1;
    var before := SetKeys(hash, k, a, keys[..n]);
    var h := hash(keys[n]);
    if i == n {
      ProbesAreSet(before, h, Delta(h), k);
    } else {
      assert keys[..n][i] == keys[i];
      KeysAreSet(hash, k, a, keys[..n], i);
      ProbesOnlySet(before, h, Delta(h), k);
      ProbesStaySet(before, SetKeys(hash, k, a, keys), hash(keys[i]), Delta(hash(keys[i])), k);
    }
  }

  /** No false negatives. */
  lemma KeysMatch(hash: Hash, k: nat, bitsPerKey: nat, keys: seq<Bytes>, key: Bytes)
    requires 1 <= k <= 30 && key in keys
    ensures MayMatch(hash, key, FilterOf(hash, k, bitsPerKey, keys))
  {
    var i :| 0 <= i < |keys| && keys[i] == key;
    var bitArray := SetKeys(hash, k, ZeroBytes(FilterBytes(|keys|, bitsPerKey)), keys);
    assert (bitArray + [k])[..|bitArray|] == bitArray;
    KeysAreSet(hash, k, ZeroBytes(FilterBytes(|keys|, bitsPerKey)), keys, i);
  }

  /** CreateFilter with its two loops; `dst` gets the filter behind what it holds. */
  method CreateFilter(hash: Hash, k: nat, bitsPerKey: nat, keys: seq<Bytes>, dst: Bytes) returns (r: Bytes)
    requires 1 <= k <= 30
    ensures r == dst + FilterOf(hash, k, bitsPerKey, keys)
  {
    var bits := |keys| * bitsPerKey;
    if bits < 64 {
      bits := 64;
    }
    var bytes := (bits + 7) / 8;
    bits := bytes * 8;
    var bitArray := ZeroBytes(bytes);
    for i := 0 to |keys|
      invariant |bitArray| == bytes && bitArray == SetKeys(hash, k, ZeroBytes(bytes), keys[..i])
    {
      assert keys[..i + 1][..i] == keys[..i];
      bitArray := SetKeyBits(hash(keys[i]), k, bitArray);
    }
    assert keys[..|keys|] == keys;
    r := dst + (bitArray + [k]);
  }

  method SetKeyBits(h0: Word, k: nat, bits0: Bytes) returns (bitArray: Bytes)
    requires |bits0| > 0
    ensures bitArray == SetProbes(bits0, h0, Delta(h0), k)
  {
    var h: Word, delta: Word := h0, Delta(h0);
    bitArray := bits0;
    for j := 0 to k
      invariant |bitArray| == |bits0|
      invariant SetProbes(bitArray, h, delta, k - j) == SetProbes(bits0, h0, delta, k)
    {
      var bitpos := h % (8 * |bitArray|);
      bitArray := SetAt(bitArray, bitpos);
      h := Add32(h, delta);
    }
  }

  method KeyMayMatch(hash: Hash, key: Bytes, filter: Bytes) returns (r: bool)
    ensures r <==> MayMatch(hash, key, filter)
  {
    var len := |filter|;
    if len < 2 {
      return false;
    }
    var bitArray, k: nat := filter[..len - 1], filter[len - 1];
    if k > 30 {
      return true;
    }
    var h: Word, delta: Word := hash(key), Delta(hash(key));
    for j := 0 to k
      invariant AllProbesSet(bitArray, h, delta, k - j) <==> AllProbesSet(bitArray, hash(key), delta, k)
    {
      var bitpos := h % (8 * |bitArray|);
      if !IsSet(bitArray, bitpos) {
        return false;
      }
      h := Add32(h, delta);
    }
    return true;
  }
}
