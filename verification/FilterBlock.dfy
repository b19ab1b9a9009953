/** The filter block of a table: one filter for every 2 KB of data blocks. */
module FilterBlock {
  import opened ByteOrder
  import opened DbFormat
  import opened Coding
  import Bloom = BloomFilter

  const FILTER_BASE_LG: Byte := 11

  datatype Policy = Policy(create: seq<Bytes> -> Bytes, mayMatch: (Bytes, Bytes) -> bool)

  /** Filters take at most so many bytes for each key. */
  ghost predicate Frugal(policy: Policy, perKey: nat) {
    forall keys :: keys != [] ==> |policy.create(keys)| <= FilterSize(perKey, |keys|)
  }

  ghost function FilterSize(perKey: nat, n: nat): nat {
    perKey * n
  }

  lemma OneMoreKey(perKey: nat, n: nat)
    ensures FilterSize(perKey, n + 1) == FilterSize(perKey, n) + perKey
    ensures FilterSize(perKey, 0) == 0
  {
  }

  ghost predicate FindsOwn(policy: Policy) {
    forall keys, key :: key in keys ==> policy.mayMatch(key, policy.create(keys))
  }

  function BloomPolicy(hash: Bloom.Hash, k: nat, bitsPerKey: nat): Policy
    requires 1 <= k <= 30
  {
    Policy((keys: seq<Bytes>) => Bloom.FilterOf(hash, k, bitsPerKey, keys),
           (key: Bytes, filter: Bytes) => Bloom.MayMatch(hash, key, filter))
  }

  lemma BloomFindsOwn(hash: Bloom.Hash, k: nat, bitsPerKey: nat)
    requires 1 <= k <= 30
    ensures FindsOwn(BloomPolicy(hash, k, bitsPerKey))
  {
    forall keys, key | key in keys
      ensures BloomPolicy(hash, k, bitsPerKey).mayMatch(key, BloomPolicy(hash, k, bitsPerKey).create(keys))
    {
      Bloom.KeysMatch(hash, k, bitsPerKey, keys, key);
    }
  }

  // ----- The builder -----

  /** The keys flattened into `keys`, each from its start to the next one's. */
  ghost function KeyList(keys: Bytes, start: seq<nat>): seq<Bytes>
    requires StartsInOrder(keys, start)
  {
    seq(|start|, i requires 0 <= i < |start| => keys[start[i]..if i + 1 < |start| then start[i + 1] else |keys|])
  }

  ghost predicate StartsInOrder(keys: Bytes, start: seq<nat>) {
    && (forall i :: 0 <= i < |start| ==> start[i] <= |keys|)
    && forall i, j :: 0 <= i <= j < |start| ==> start[i] <= start[j]
  }

  lemma KeyListGrows(keys: Bytes, start: seq<nat>, key: Bytes)
    requires StartsInOrder(keys, start) && (start == [] ==> keys == [])
    ensures StartsInOrder(keys + key, start + [|keys|])
    ensures KeyList(keys + key, start + [|keys|]) == KeyList(keys, start) + [key]
  {
    var more := start + [|keys|];
    assert StartsInOrder(keys + key, more);
    forall i | 0 <= i < |more|
      ensures KeyList(keys + key, more)[i] == (KeyList(keys, start) + [key])[i]
    {
      if i + 1 < |more| {
        assert (keys + key)[more[i]..more[i + 1]] == keys[more[i]..more[i + 1]];
      } else {
        assert (keys + key)[|keys|..|keys + key|] == key;
      }
    }
  }

  /** Filter `i` of the block: nothing when it has no keys. */
  ghost predicate FilterStands(policy: Policy, result: Bytes, offsets: seq<Word>, sets: seq<seq<Bytes>>, i: nat)
    requires i < |offsets| == |sets|
  {
    var limit := if i + 1 < |offsets| then offsets[i + 1] else |result|;
    offsets[i] <= limit <= |result| && result[offsets[i]..limit] == if sets[i] == [] then [] else policy.create(sets[i])
  }

  ghost predicate FiltersStand(policy: Policy, result: Bytes, offsets: seq<Word>, sets: seq<seq<Bytes>>) {
    |sets| == |offsets| && forall i: nat :: i < |sets| ==> FilterStands(policy, result, offsets, sets, i)
  }

  class FilterBlockBuilder {
    const policy: Policy
    ghost const perKey: nat
    var keys: Bytes
    var start: seq<nat>
    var result: Bytes
    var filterOffsets: seq<Word>
    ghost var sets: seq<seq<Bytes>>      // the keys of the filters made so far
    ghost var added: set<(nat, Bytes)>   // every key with the number of its 2 KB slot

    ghost predicate Valid()
      reads this
    {
      && StartsInOrder(keys, start) && (start == [] ==> keys == [])
      && |sets| == |filterOffsets|
      && (|result| < 0x1_0000_0000 ==> FiltersStand(policy, result, filterOffsets, sets))
      && forall a :: a in added ==>
           if a.0 < |sets| then a.1 in sets[a.0] else a.0 == |sets| && a.1 in KeyList(keys, start)
    }

    /** The filters made so far, and room for one more with the keys at hand. */
    ghost function Load(): nat
      reads this
    {
      |result| + FilterSize(perKey, |start|)
    }

    constructor (policy: Policy, ghost perKey: nat)
      ensures Valid() && this.policy == policy && this.perKey == perKey && added == {} && filterOffsets == [] && Load() == 0
    {
      this.policy, this.perKey := policy, perKey;
      keys, start, result, filterOffsets, sets, added := [], [], [], [], [], {};
    }

    method StartBlock(blockOffset: nat)
      requires Valid() && blockOffset / 2048 >= |filterOffsets|
      modifies this
      ensures Valid() && |filterOffsets| == blockOffset / 2048 && added == old(added)
      ensures Frugal(policy, perKey) ==> Load() <= old(Load())
    {
      var filterIndex := blockOffset / 2048;
      while filterIndex > |filterOffsets|
        invariant Valid() && |filterOffsets| <= filterIndex && added == old(added)
        invariant Frugal(policy, perKey) ==> Load() <= old(Load())
        decreases filterIndex - |filterOffsets|
      {
        GenerateFilter();
      }
    }

    method AddKey(key: Bytes)
      requires Valid()
      modifies this
      ensures Valid() && filterOffsets == old(filterOffsets) && Load() == old(Load()) + perKey
      ensures added == old(added) + {(|filterOffsets|, key)}
    {
      hide FilterSize;
      KeyListGrows(keys, start, key);
      OneMoreKey(perKey, |start|);
      start := start + [|keys|];
      keys := keys + key;
      added := added + {(|filterOffsets|, key)};
    }

    method GenerateFilter()
      requires Valid()
      modifies this
      ensures Valid() && |filterOffsets| == |old(filterOffsets)| + 1 && added == old(added) && start == []
      ensures Frugal(policy, perKey) ==> Load() <= old(Load())
    {
      hide FilterSize;
      OneMoreKey(perKey, 0);
      var numKeys := |start|;
      if numKeys == 0 {
        if |result| < 0x1_0000_0000 {
          FilterIsAppended(policy, result, filterOffsets, sets, [], []);
          assert result + [] == result;
        }
        filterOffsets := filterOffsets + [|result| % 0x1_0000_0000];
        sets := sets + [[]];
        return;
      }
      var tmpKeys := SplitKeys();
      var filter := policy.create(tmpKeys);
      if |result| < 0x1_0000_0000 {
        FilterIsAppended(policy, result, filterOffsets, sets, tmpKeys, filter);
      }
      filterOffsets := filterOffsets + [|result| % 0x1_0000_0000];
      result := result + filter;
      sets := sets + [tmpKeys];
      keys, start := [], [];
    }

    /** The list of keys from their flattened form. */
    method SplitKeys() returns (tmpKeys: seq<Bytes>)
      requires Valid()
      ensures tmpKeys == KeyList(keys, start)
    {
      var starts := start + [|keys|];
      tmpKeys := [];
      for i := 0 to |start|
        invariant tmpKeys == KeyList(keys, start)[..i]
      {
        tmpKeys := tmpKeys + [keys[starts[i]..starts[i + 1]]];
      }
    }

    /** Every key is found again at every offset of its slot, as long as the block stays below 4 GB. */
    method Finish() returns (contents: Bytes)
      requires Valid()
      modifies this
      ensures added == old(added)
      ensures Frugal(policy, perKey) ==> |contents| <= old(Load()) + 4 * |old(filterOffsets)| + 9
      ensures FindsOwn(policy) && |contents| < 0x1_0000_0000 ==>
                forall a, blockOffset: nat :: a in added && a.0 == blockOffset / 2048 ==> MayMatch(policy, contents, blockOffset, a.1)
    {
      hide FilterSize;
      OneMoreKey(perKey, 0);
      if start != [] {
        GenerateFilter();
      }
      contents := AppendOffsets(result, filterOffsets);
      if FindsOwn(policy) && |contents| < 0x1_0000_0000 {
        AllAddedMatch(policy, result, filterOffsets, sets, added, filterOffsets + [|result| % 0x1_0000_0000], contents);
      }
      result := contents;
    }
  }

  /** The contents of a finished block: filters, their offsets, where the offsets start, and the slot size. */
  function Contents(result: Bytes, words: seq<Word>): Bytes {
    Joined(result, Joined(WordArray(words, |words|), [FILTER_BASE_LG]))
  }

  method AppendOffsets(result: Bytes, offsets: seq<Word>) returns (contents: Bytes)
    ensures contents == Contents(result, offsets + [|result| % 0x1_0000_0000])
  {
    var words := offsets + [|result| % 0x1_0000_0000];
    contents := result;
    for i := 0 to |words|
      invariant contents == Joined(result, WordArray(words, i))
    {
      JoinedAssociates(result, WordArray(words, i), PutFixed32(words[i]));
      contents := Joined(contents, PutFixed32(words[i]));
    }
    JoinedAssociates(result, WordArray(words, |words|), [FILTER_BASE_LG]);
    contents := Joined(contents, [FILTER_BASE_LG]);
  }

  lemma ContentsStand(result: Bytes, words: seq<Word>)
    requires |words| > 0
    ensures var contents := Contents(result, words);
            && |contents| == |result| + 4 * |words| + 1 && contents[|contents| - 1] == FILTER_BASE_LG
            && At(contents, |result|, WordArray(words, |words|))
            && contents[..|result|] == result
  {
    ContentsSplit(result, WordArray(words, |words|), Contents(result, words));
  }

  lemma ContentsSplit(result: Bytes, words: Bytes, contents: Bytes)
    requires contents == Joined(result, Joined(words, [FILTER_BASE_LG])) && |words| > 0
    ensures |contents| == |result| + |words| + 1 && contents[|contents| - 1] == FILTER_BASE_LG
    ensures At(contents, |result|, words)
    ensures contents[..|result|] == result
  {
    AtEnd(result, words + [FILTER_BASE_LG]);
    AtSplit(contents, |result|, words + [FILTER_BASE_LG], words, [FILTER_BASE_LG], |contents| - 1);
    assert ByteIs(contents, |contents| - 1, [FILTER_BASE_LG], 0);
  }

  /** The filters' offsets, then where they start. */
  ghost predicate WordsOf(words: seq<Word>, offsets: seq<Word>, arrayOffset: nat) {
    && |words| == |offsets| + 1 && words[|offsets|] == arrayOffset
    && forall i :: 0 <= i < |offsets| ==> words[i] == offsets[i]
  }

  lemma AllAddedMatch(policy: Policy, result: Bytes, offsets: seq<Word>, sets: seq<seq<Bytes>>, added: set<(nat, Bytes)>,
                      words: seq<Word>, contents: Bytes)
    requires FindsOwn(policy) && FiltersStand(policy, result, offsets, sets)
    requires forall a :: a in added ==> a.0 < |sets| && a.1 in sets[a.0]
    requires WordsOf(words, offsets, |result|) && contents == Contents(result, words)
    ensures forall a, blockOffset: nat :: a in added && a.0 == blockOffset / 2048 ==> MayMatch(policy, contents, blockOffset, a.1)
  {
    forall a, blockOffset: nat | a in added && a.0 == blockOffset / 2048
      ensures MayMatch(policy, contents, blockOffset, a.1)
    {
      AddedMatches(policy, result, offsets, sets, words, contents, blockOffset, a.1);
    }
  }

  lemma AddedMatches(policy: Policy, result: Bytes, offsets: seq<Word>, sets: seq<seq<Bytes>>, words: seq<Word>, contents: Bytes,
                     blockOffset: nat, key: Bytes)
    requires FindsOwn(policy) && FiltersStand(policy, result, offsets, sets)
    requires blockOffset / 2048 < |sets| && key in sets[blockOffset / 2048]
    requires WordsOf(words, offsets, |result|) && contents == Contents(result, words)
    ensures MayMatch(policy, contents, blockOffset, key)
  {
    WordStands(result, words, contents, |offsets|);
    SlotsAre2K(blockOffset);
    IndexMatches(policy, result, offsets, sets, words, contents, blockOffset / 2048, key);
    LastWordRead(policy, contents, |result|, blockOffset, key);
  }

  lemma IndexMatches(policy: Policy, result: Bytes, offsets: seq<Word>, sets: seq<seq<Bytes>>, words: seq<Word>, contents: Bytes,
                     index: nat, key: Bytes)
    requires FindsOwn(policy) && FiltersStand(policy, result, offsets, sets) && index < |sets| && key in sets[index]
    requires WordsOf(words, offsets, |result|) && contents == Contents(result, words) && |result| + 5 <= |contents|
    ensures MatchesAt(policy, contents, |result|, index, key)
  {
    WordStands(result, words, contents, index);
    WordStands(result, words, contents, index + 1);
    SlotMatches(policy, result, offsets, sets, contents, index, key);
  }

  lemma LastWordRead(policy: Policy, contents: Bytes, lastWord: nat, blockOffset: nat, key: Bytes)
    requires lastWord + 5 <= |contents| && Fixed32At(contents, |contents| - 5) == lastWord
    requires MatchesAt(policy, contents, lastWord, ShiftRight(blockOffset, contents[|contents| - 1]), key)
    ensures MayMatch(policy, contents, blockOffset, key)
  {
  }

  lemma WordStands(result: Bytes, words: seq<Word>, contents: Bytes, i: nat)
    requires contents == Contents(result, words) && i < |words|
    ensures |contents| == |result| + 4 * |words| + 1 && contents[|contents| - 1] == FILTER_BASE_LG
    ensures Fixed32At(contents, |result| + 4 * i) == words[i]
    ensures contents[..|result|] == result
  {
    ContentsStand(result, words);
    WordReadsBack(contents, |result|, words, |words|, i);
  }

  lemma SlotsAre2K(blockOffset: nat)
    ensures ShiftRight(blockOffset, FILTER_BASE_LG) == blockOffset / 2048
  {
    var x := blockOffset;
    assert ShiftRight(x, 11) == x / 2 / 2 / 2 / 2 / 2 / 2 / 2 / 2 / 2 / 2 / 2;
    assert x / 2 / 2 == x / 4 && x / 4 / 2 == x / 8 && x / 8 / 2 == x / 16 && x / 16 / 2 == x / 32 && x / 32 / 2 == x / 64;
    assert x / 64 / 2 == x / 128 && x / 128 / 2 == x / 256 && x / 256 / 2 == x / 512 && x / 512 / 2 == x / 1024;
    assert x / 1024 / 2 == x / 2048;
  }

  lemma SlotMatches(policy: Policy, result: Bytes, offsets: seq<Word>, sets: seq<seq<Bytes>>, contents: Bytes, index: nat, key: Bytes)
    requires FindsOwn(policy) && FiltersStand(policy, result, offsets, sets)
    requires index < |sets| && key in sets[index]
    requires |contents| == |result| + 4 * |offsets| + 5 && contents[..|result|] == result
    requires Fixed32At(contents, |result| + 4 * index) == offsets[index]
    requires Fixed32At(contents, |result| + 4 * (index + 1)) == if index + 1 < |offsets| then offsets[index + 1] else |result|
    ensures MatchesAt(policy, contents, |result|, index, key)
  {
    assert FilterStands(policy, result, offsets, sets, index);
    var limit := if index + 1 < |offsets| then offsets[index + 1] else |result|;
    SliceOfPrefix(contents, |result|, offsets[index], limit);
    FindsKey(policy, sets[index], key);
  }

  lemma SliceOfPrefix(a: Bytes, n: nat, i: nat, j: nat)
    requires i <= j <= n <= |a|
    ensures a[i..j] == a[..n][i..j]
  {
  }

  lemma FindsKey(policy: Policy, keys: seq<Bytes>, key: Bytes)
    requires FindsOwn(policy) && key in keys
    ensures policy.mayMatch(key, policy.create(keys))
  {
  }

  lemma FilterIsAppended(policy: Policy, result: Bytes, offsets: seq<Word>, sets: seq<seq<Bytes>>, keys: seq<Bytes>, filter: Bytes)
    requires |result| < 0x1_0000_0000 && FiltersStand(policy, result, offsets, sets)
    requires filter == if keys == [] then [] else policy.create(keys)
    ensures FiltersStand(policy, result + filter, offsets + [|result|], sets + [keys])
  {
    forall i: nat | i < |sets| + 1
      ensures FilterStands(policy, result + filter, offsets + [|result|], sets + [keys], i)
    {
      if i < |sets| {
        assert FilterStands(policy, result, offsets, sets, i);
        if i + 1 < |sets| { assert FilterStands(policy, result, offsets, sets, i + 1); }
        var limit := if i + 1 < |offsets| then offsets[i + 1] else |result|;
        SliceOfLeft(result, filter, offsets[i], limit);
      } else {
        SliceOfRight(result, filter);
      }
    }
  }

  // ----- The reader -----

  function ShiftRight(x: nat, n: nat): nat
    decreases n
  {
    if n == 0 then x else ShiftRight(x / 2, n - 1)
  }

  /** The constructor of FilterBlockReader and KeyMayMatch; errors count as possible matches. */
  predicate MayMatch(policy: Policy, contents: Bytes, blockOffset: nat, key: Bytes) {
    var n := |contents|;
    n >= 5 && Fixed32At(contents, n - 5) <= n - 5 ==>
      MatchesAt(policy, contents, Fixed32At(contents, n - 5), ShiftRight(blockOffset, contents[n - 1]), key)
  }

  predicate MatchesAt(policy: Policy, contents: Bytes, lastWord: nat, index: nat, key: Bytes)
    requires lastWord + 5 <= |contents|
  {
    index < (|contents| - 5 - lastWord) / 4 ==>
      var start := Fixed32At(contents, lastWord + 4 * index);
      var limit := Fixed32At(contents, lastWord + 4 * index + 4);
      if start <= limit && limit <= lastWord then policy.mayMatch(key, contents[start..limit])
      else start != limit
  }
}
