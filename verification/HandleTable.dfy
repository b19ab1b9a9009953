/**
 * The hash table of the block cache. Handles live in an arena, so a pointer is an index into it; the buckets are chained
 * through a link in each handle.
 */
module HandleTables {
  import opened ByteOrder
  import opened DbFormat
  import opened Coding

  /** Key and hash of a handle. */
  datatype Id = Id(key: Bytes, hash: Word)

  /** A place that holds a pointer: a bucket of the table, or the link of a handle. */
  datatype Slot = InList(b: nat) | InHandle(h: nat)

  ghost predicate PowerOfTwo(n: nat) {
    n == 1 || (n > 1 && n % 2 == 0 && PowerOfTwo(n / 2))
  }

  /** hash & (length - 1), the length being a power of two. */
  function Bucket(id: Id, length: nat): (b: nat)
    requires length > 0
    ensures b < length
  {
    id.hash % length
  }

  // ----- Chains -----

  function PointerTo(chain: seq<nat>, i: nat): Option<nat> {
    if i < |chain| then Some(chain[i]) else None
  }

  /** Following the links from `first` visits `chain`. */
  ghost predicate IsChain(nextHash: seq<Option<nat>>, first: Option<nat>, chain: seq<nat>) {
    && first == PointerTo(chain, 0)
    && forall i: nat :: i < |chain| ==> Linked(nextHash, chain, i)
  }

  ghost predicate Linked(nextHash: seq<Option<nat>>, chain: seq<nat>, i: nat)
    requires i < |chain|
  {
    chain[i] < |nextHash| && nextHash[chain[i]] == PointerTo(chain, i + 1)
  }

  predicate HasId(ids: seq<Id>, h: nat, id: Id) {
    h < |ids| && ids[h] == id
  }

  ghost predicate Differ(ids: seq<Id>, g: nat, h: nat) {
    g < |ids| && h < |ids| && ids[g] != ids[h]
  }

  /** The handles of a chain belong into bucket `b`, and no two have the same key and hash. */
  ghost predicate Belongs(ids: seq<Id>, length: nat, b: nat, chain: seq<nat>) {
    && (forall h :: h in chain ==> h < |ids| && length > 0 && Bucket(ids[h], length) == b)
    && forall i, j :: 0 <= i < j < |chain| ==> Differ(ids, chain[i], chain[j])
  }

  ghost predicate BucketOk(ids: seq<Id>, nextHash: seq<Option<nat>>, list: seq<Option<nat>>, chains: seq<seq<nat>>, b: nat)
    requires b < |list| && b < |chains|
  {
    IsChain(nextHash, list[b], chains[b]) && Belongs(ids, |list|, b, chains[b])
  }

  ghost predicate TableOk(ids: seq<Id>, nextHash: seq<Option<nat>>, list: seq<Option<nat>>, chains: seq<seq<nat>>) {
    && |list| == |chains| > 0 && |nextHash| == |ids|
    && forall b: nat :: b < |list| ==> BucketOk(ids, nextHash, list, chains, b)
  }

  ghost function Members(chains: seq<seq<nat>>): set<nat> {
    set chain, h | chain in chains && h in chain :: h
  }

  lemma MemberAt(chains: seq<seq<nat>>, b: nat, h: nat)
    requires b < |chains| && h in chains[b]
    ensures h in Members(chains)
  {
  }

  lemma BucketOf(chains: seq<seq<nat>>, h: nat) returns (b: nat)
    requires h in Members(chains)
    ensures b < |chains| && h in chains[b]
  {
    var chain :| chain in chains && h in chain;
    b :| b < |chains| && chains[b] == chain;
  }

  /** A handle is in the bucket of its hash, and no other handle has its key and hash. */
  lemma OneOfItsKind(ids: seq<Id>, nextHash: seq<Option<nat>>, list: seq<Option<nat>>, chains: seq<seq<nat>>, g: nat, h: nat)
    requires TableOk(ids, nextHash, list, chains) && g in Members(chains) && h in Members(chains)
    ensures g < |ids| && h < |ids| && g in chains[Bucket(ids[g], |list|)]
    ensures ids[g] == ids[h] ==> g == h
  {
    var b := BucketOf(chains, g);
    var c := BucketOf(chains, h);
    assert BucketOk(ids, nextHash, list, chains, b) && BucketOk(ids, nextHash, list, chains, c);
    if ids[g] == ids[h] {
      var i :| 0 <= i < |chains[b]| && chains[b][i] == g;
      var j :| 0 <= j < |chains[b]| && chains[b][j] == h;
      assert i < j ==> Differ(ids, g, h);
      assert j < i ==> Differ(ids, h, g);
    }
  }

  /** A store elsewhere leaves a chain alone. */
  lemma ChainStays(nextHash: seq<Option<nat>>, first: Option<nat>, chain: seq<nat>, h: nat, p: Option<nat>)
    requires IsChain(nextHash, first, chain) && h < |nextHash| && h !in chain
    ensures IsChain(nextHash[h := p], first, chain)
  {
    var after := nextHash[h := p];
    forall i: nat | i < |chain|
      ensures Linked(after, chain, i)
    {
      assert Linked(nextHash, chain, i);
    }
  }

  /** The chain from its `i`-th handle on. */
  lemma ChainRest(nextHash: seq<Option<nat>>, first: Option<nat>, chain: seq<nat>, i: nat)
    requires IsChain(nextHash, first, chain) && i <= |chain|
    ensures IsChain(nextHash, PointerTo(chain, i), chain[i..])
  {
    forall j: nat | j < |chain[i..]|
      ensures Linked(nextHash, chain[i..], j)
    {
      var k := i + j;
      assert Linked(nextHash, chain, k);
    }
  }

  /** A handle put before a chain. */
  lemma ChainPrepended(nextHash: seq<Option<nat>>, first: Option<nat>, chain: seq<nat>, h: nat)
    requires IsChain(nextHash, first, chain) && h < |nextHash| && nextHash[h] == first
    ensures IsChain(nextHash, Some(h), [h] + chain)
  {
    forall j: nat | j < |chain| + 1
      ensures Linked(nextHash, [h] + chain, j)
    {
      if j > 0 {
        var k := j - 1;
        assert Linked(nextHash, chain, k);
      }
    }
  }

  /** Storing `p` behind the first `i` handles continues the chain with the one that starts at `p`. */
  lemma ChainSpliced(nextHash: seq<Option<nat>>, first: Option<nat>, chain: seq<nat>, i: nat, p: Option<nat>, tail: seq<nat>)
    requires IsChain(nextHash, first, chain) && 0 < i <= |chain| && IsChain(nextHash, p, tail)
    requires chain[i - 1] !in tail && forall j :: 0 <= j < i - 1 ==> chain[j] != chain[i - 1]
    ensures chain[i - 1] < |nextHash| && IsChain(nextHash[chain[i - 1] := p], first, chain[..i] + tail)
  {
    var last := chain[i - 1];
    assert Linked(nextHash, chain, i - 1);
    var after, whole := nextHash[last := p], chain[..i] + tail;
    forall j: nat | j < |whole|
      ensures Linked(after, whole, j)
    {
      if j < i {
        assert Linked(nextHash, chain, j);
      } else {
        var k := j - i;
        assert Linked(nextHash, tail, k) && whole[j] == tail[k];
        assert tail[k] in tail;
      }
    }
  }

  /** `r` is the handle of `contents` with this key and hash, if there is one. */
  ghost predicate Answers(ids: seq<Id>, contents: set<nat>, id: Id, r: Option<nat>) {
    if r.Some? then r.value in contents && HasId(ids, r.value, id)
    else forall h :: h in contents ==> !HasId(ids, h, id)
  }

  /** `h` is in a bucket other than `b`. */
  ghost predicate Elsewhere(chains: seq<seq<nat>>, b: nat, h: nat) {
    exists c :: 0 <= c < |chains| && c != b && h in chains[c]
  }

  lemma ChangedMembers(chains: seq<seq<nat>>, b: nat, chain: seq<nat>)
    requires b < |chains|
    ensures forall h :: h in Members(chains[b := chain]) <==> h in chain || Elsewhere(chains, b, h)
    ensures forall h :: h in Members(chains) <==> h in chains[b] || Elsewhere(chains, b, h)
  {
    SplitMembers(chains, b);
    var after := chains[b := chain];
    SplitMembers(after, b);
    forall h
      ensures Elsewhere(after, b, h) <==> Elsewhere(chains, b, h)
    {
      if c :| 0 <= c < |chains| && c != b && h in chains[c] { assert after[c] == chains[c]; }
      if c :| 0 <= c < |chains| && c != b && h in after[c] { assert after[c] == chains[c]; }
    }
  }

  lemma SplitMembers(chains: seq<seq<nat>>, b: nat)
    requires b < |chains|
    ensures forall h :: h in Members(chains) <==> h in chains[b] || Elsewhere(chains, b, h)
  {
    forall h
      ensures h in Members(chains) <==> h in chains[b] || Elsewhere(chains, b, h)
    {
      if h in Members(chains) { var c := BucketOf(chains, h); }
      if h in chains[b] { MemberAt(chains, b, h); }
      if c :| 0 <= c < |chains| && c != b && h in chains[c] { MemberAt(chains, c, h); }
    }
  }

  /** A link that no chain runs through. */
  lemma UnlinkedStore(ids: seq<Id>, nextHash: seq<Option<nat>>, list: seq<Option<nat>>, chains: seq<seq<nat>>, h: nat, p: Option<nat>)
    requires TableOk(ids, nextHash, list, chains) && h < |ids| && h !in Members(chains)
    ensures |nextHash| == |ids| && TableOk(ids, nextHash[h := p], list, chains)
  {
    hide Bucket;
    var after := nextHash[h := p];
    forall b: nat | b < |list|
      ensures BucketOk(ids, after, list, chains, b)
    {
      assert BucketOk(ids, nextHash, list, chains, b);
      if h in chains[b] { MemberAt(chains, b, h); }
      ChainStays(nextHash, list[b], chains[b], h, p);
    }
  }

  ghost predicate AllBelong(ids: seq<Id>, chains: seq<seq<nat>>) {
    forall b: nat :: b < |chains| ==> Belongs(ids, |chains|, b, chains[b])
  }

  lemma TableBelongs(ids: seq<Id>, nextHash: seq<Option<nat>>, list: seq<Option<nat>>, chains: seq<seq<nat>>)
    requires TableOk(ids, nextHash, list, chains)
    ensures AllBelong(ids, chains) && |chains| == |list| > 0 && |nextHash| == |ids|
    ensures forall b: nat :: b < |chains| ==> IsChain(nextHash, list[b], chains[b])
  {
    hide Bucket;
    forall b: nat | b < |chains|
      ensures Belongs(ids, |chains|, b, chains[b]) && IsChain(nextHash, list[b], chains[b])
    {
      assert BucketOk(ids, nextHash, list, chains, b);
    }
  }

  /** Handles at different places of the table differ in key or hash. */
  lemma PlacesDiffer(ids: seq<Id>, chains: seq<seq<nat>>, b: nat, i: nat, c: nat, j: nat)
    requires AllBelong(ids, chains) && b < |chains| && i < |chains[b]| && c < |chains| && j < |chains[c]|
    requires b != c || i != j
    ensures Differ(ids, chains[b][i], chains[c][j])
  {
    hide Bucket;
    assert Belongs(ids, |chains|, b, chains[b]) && Belongs(ids, |chains|, c, chains[c]);
    assert chains[b][i] in chains[b] && chains[c][j] in chains[c];
    if b == c && j < i { assert Differ(ids, chains[b][j], chains[b][i]); }
  }

  // ----- The table -----

  class HandleTable {
    var ids: seq<Id>                 // key and hash of all handles, in the table or not
    var nextHash: seq<Option<nat>>   // their links
    var list: seq<Option<nat>>
    var elems: nat
    ghost var chains: seq<seq<nat>>

    ghost function Contents(): set<nat>
      reads this
    {
      Members(chains)
    }

    ghost predicate Valid()
      reads this
    {
      && TableOk(ids, nextHash, list, chains)
      && elems == |Contents()| <= |list| && PowerOfTwo(|list|)
    }

    constructor ()
      ensures Valid() && Contents() == {} && ids == []
    {
      ids, nextHash, elems := [], [], 0;
      list, chains := [None, None, None, None], [[], [], [], []];
      new;
      FourBuckets();
    }

    lemma FourBuckets()
      ensures PowerOfTwo(4) && Members([[], [], [], []]) == {}
    {
      assert PowerOfTwo(2);
    }

    /** A handle that is not in the table yet. */
    method Allocate(id: Id, link: Option<nat>)
      requires Valid()
      modifies this`ids, this`nextHash
      ensures Valid() && ids == old(ids) + [id] && Contents() == old(Contents())
    {
      forall b: nat | b < |list|
        ensures BucketOk(ids + [id], nextHash + [link], list, chains, b)
      {
        assert BucketOk(ids, nextHash, list, chains, b);
        forall i: nat | i < |chains[b]|
          ensures Linked(nextHash + [link], chains[b], i)
        {
          assert Linked(nextHash, chains[b], i);
        }
      }
      ids := ids + [id];
      nextHash := nextHash + [link];
    }

    ghost predicate SlotExists(slot: Slot)
      reads this
    {
      match slot
      case InList(b) => b < |list|
      case InHandle(h) => h < |nextHash|
    }

    function Load(slot: Slot): Option<nat>
      requires SlotExists(slot)
      reads this
    {
      match slot
      case InList(b) => list[b]
      case InHandle(h) => nextHash[h]
    }

    /** The slot that points to the `i`-th handle of bucket `b`, or ends the chain. */
    ghost predicate SlotIs(slot: Slot, b: nat, i: nat)
      requires b < |chains|
      reads this
    {
      i <= |chains[b]| && slot == if i == 0 then InList(b) else InHandle(chains[b][i - 1])
    }

    ghost predicate Found(id: Id, b: nat, i: nat)
      requires b < |chains| && i <= |chains[b]|
      reads this
    {
      && (forall j :: 0 <= j < i ==> !HasId(ids, chains[b][j], id))
      && (i < |chains[b]| ==> HasId(ids, chains[b][i], id))
    }

    method FindPointer(id: Id) returns (slot: Slot, ghost b: nat, ghost i: nat)
      requires Valid()
      ensures b == Bucket(id, |list|) < |chains| && SlotIs(slot, b, i) && SlotExists(slot)
      ensures BucketOk(ids, nextHash, list, chains, b) && Found(id, b, i)
      ensures Load(slot) == PointerTo(chains[b], i)
    {
      hide Bucket, PowerOfTwo, Members;
      var n := Bucket(id, |list|);
      slot, b, i := InList(n), n, 0;
      assert BucketOk(ids, nextHash, list, chains, b);
      while Load(slot).Some? && !HasId(ids, Load(slot).value, id)
        invariant SlotIs(slot, b, i) && SlotExists(slot) && Load(slot) == PointerTo(chains[b], i)
        invariant forall j :: 0 <= j < i ==> !HasId(ids, chains[b][j], id)
        decreases |chains[b]| - i
      {
        assert Linked(nextHash, chains[b], i);
        slot, i := InHandle(Load(slot).value), i + 1;
      }
    }

    method StoreAt(slot: Slot, p: Option<nat>)
      requires SlotExists(slot)
      modifies this`list, this`nextHash
      ensures slot.InList? ==> list == old(list)[slot.b := p] && nextHash == old(nextHash)
      ensures slot.InHandle? ==> nextHash == old(nextHash)[slot.h := p] && list == old(list)
    {
      match slot
      case InList(b) => list := list[b := p];
      case InHandle(h) => nextHash := nextHash[h := p];
    }

    lemma FoundAnswers(id: Id, b: nat, i: nat)
      requires Valid() && b == Bucket(id, |list|) && i <= |chains[b]| && BucketOk(ids, nextHash, list, chains, b) && Found(id, b, i)
      ensures Answers(ids, Contents(), id, PointerTo(chains[b], i))
    {
      hide Bucket, PowerOfTwo;
      if i < |chains[b]| {
        MemberAt(chains, b, chains[b][i]);
      } else {
        forall h | h in Contents()
          ensures !HasId(ids, h, id)
        {
          OneOfItsKind(ids, nextHash, list, chains, h, h);
          if h in chains[b] {
            var j :| 0 <= j < |chains[b]| && chains[b][j] == h;
          }
        }
      }
    }

    method Lookup(id: Id) returns (r: Option<nat>)
      requires Valid()
      ensures Answers(ids, Contents(), id, r)
    {
      hide Bucket, PowerOfTwo, Valid, TableOk, Members;
      var slot, b, i := FindPointer(id);
      FoundAnswers(id, b, i);
      r := Load(slot);
    }

    /** The buckets with bucket `b` changed. */
    ghost predicate OneBucketChanged(nextHash0: seq<Option<nat>>, list0: seq<Option<nat>>, chains0: seq<seq<nat>>, b: nat)
      reads this
    {
      && b < |list0| == |chains0| && |nextHash| == |nextHash0| && |list| == |list0| && |chains| == |chains0|
      && BucketOk(ids, nextHash, list, chains, b)
      && forall c: nat :: c < |list0| && c != b ==>
           list[c] == list0[c] && chains[c] == chains0[c] && IsChain(nextHash, list[c], chains[c])
    }

    lemma ChangedIsOk(nextHash0: seq<Option<nat>>, list0: seq<Option<nat>>, chains0: seq<seq<nat>>, b: nat)
      requires TableOk(ids, nextHash0, list0, chains0) && OneBucketChanged(nextHash0, list0, chains0, b)
      ensures TableOk(ids, nextHash, list, chains)
    {
      forall c: nat | c < |list|
        ensures BucketOk(ids, nextHash, list, chains, c)
      {
        if c != b { assert BucketOk(ids, nextHash0, list0, chains0, c); }
      }
    }

    /** The store at the `i`-th slot of bucket `b`, after which the chain goes on with `tail`. */
    method Splice(slot: Slot, ghost b: nat, ghost i: nat, p: Option<nat>, ghost tail: seq<nat>)
      requires TableOk(ids, nextHash, list, chains) && b < |chains| && SlotIs(slot, b, i) && SlotExists(slot)
      requires IsChain(nextHash, p, tail) && Belongs(ids, |list|, b, chains[b][..i] + tail)
      modifies this`list, this`nextHash, this`chains
      ensures TableOk(ids, nextHash, list, chains)
      ensures |list| == old(|list|) && chains == old(chains)[b := old(chains)[b][..i] + tail]
    {
      hide Bucket, Members;
      ghost var chain := chains[b];
      ghost var nextHash0, list0, chains0 := nextHash, list, chains;
      assert BucketOk(ids, nextHash, list, chains, b);
      if i > 0 { PrefixIsApart(ids, |list|, b, chain, i, tail); ChainSpliced(nextHash, list[b], chain, i, p, tail); }
      OthersStay(b, i, p);
      StoreAt(slot, p);
      chains := chains[b := chain[..i] + tail];
      if i == 0 { assert chain[..0] + tail == tail; }
      ChangedIsOk(nextHash0, list0, chains0, b);
    }

    lemma PrefixIsApart(ids: seq<Id>, length: nat, b: nat, chain: seq<nat>, i: nat, tail: seq<nat>)
      requires 0 < i <= |chain| && Belongs(ids, length, b, chain[..i] + tail)
      ensures chain[i - 1] !in tail && forall j :: 0 <= j < i - 1 ==> chain[j] != chain[i - 1]
    {
      hide Bucket;
      var whole := chain[..i] + tail;
      assert forall j :: 0 <= j < i ==> whole[j] == chain[j];
      forall j | 0 <= j < |whole| && j != i - 1
        ensures whole[j] != chain[i - 1]
      {
        assert j < i - 1 ==> Differ(ids, whole[j], whole[i - 1]);
        assert j > i - 1 ==> Differ(ids, whole[i - 1], whole[j]);
      }
      forall j | 0 <= j < i - 1
        ensures chain[j] != chain[i - 1]
      {
        assert whole[j] != chain[i - 1];
      }
      assert forall j :: 0 <= j < |tail| ==> whole[i + j] == tail[j];
    }

    /** The other chains do not run through the slot. */
    lemma OthersStay(b: nat, i: nat, p: Option<nat>)
      requires TableOk(ids, nextHash, list, chains) && b < |chains| && i <= |chains[b]|
      ensures i > 0 ==> chains[b][i - 1] < |nextHash| && forall c: nat :: c < |list| && c != b ==>
                IsChain(nextHash[chains[b][i - 1] := p], list[c], chains[c])
      ensures forall c: nat :: c < |list| ==> IsChain(nextHash, list[c], chains[c])
    {
      hide Bucket;
      assert BucketOk(ids, nextHash, list, chains, b);
      forall c: nat | c < |list|
        ensures IsChain(nextHash, list[c], chains[c])
      {
        assert BucketOk(ids, nextHash, list, chains, c);
      }
      if i > 0 {
        var h := chains[b][i - 1];
        assert h in chains[b];
        forall c: nat | c < |list| && c != b
          ensures IsChain(nextHash[h := p], list[c], chains[c])
        {
          assert BucketOk(ids, nextHash, list, chains, c);
          ChainStays(nextHash, list[c], chains[c], h, p);
        }
      }
    }

    /** The handle with the id of `h` replaced by `h`, or `h` at the end. */
    static ghost function Replaced(chain: seq<nat>, i: nat, h: nat): seq<nat>
      requires i <= |chain|
    {
      [h] + if i < |chain| then chain[i + 1..] else []
    }

    lemma ReplacedBelongs(length: nat, b: nat, chain: seq<nat>, i: nat, h: nat)
      requires 0 < length && Belongs(ids, length, b, chain) && i <= |chain|
      requires h < |ids| && Bucket(ids[h], length) == b
      requires forall j :: 0 <= j < i ==> !HasId(ids, chain[j], ids[h])
      requires i < |chain| ==> HasId(ids, chain[i], ids[h])
      ensures Belongs(ids, length, b, chain[..i] + Replaced(chain, i, h))
    {
      hide Bucket;
      var whole := if i < |chain| then chain[i := h] else chain + [h];
      assert chain[..i] + Replaced(chain, i, h) == whole;
      forall x | x in whole
        ensures x < |ids| && Bucket(ids[x], length) == b
      {
        assert x == h || x in chain;
      }
      forall k, l | 0 <= k < l < |whole|
        ensures Differ(ids, whole[k], whole[l])
      {
        if k == i {
          assert Differ(ids, chain[i], chain[l]);
        } else if l == i {
          assert !HasId(ids, chain[k], ids[h]) && chain[k] in chain;
        } else {
          assert Differ(ids, chain[k], chain[l]);
        }
      }
    }

    lemma RemovedBelongs(length: nat, b: nat, chain: seq<nat>, i: nat)
      requires 0 < length && Belongs(ids, length, b, chain) && i < |chain|
      ensures Belongs(ids, length, b, chain[..i] + chain[i + 1..])
    {
      hide Bucket;
      var whole := chain[..i] + chain[i + 1..];
      forall k | 0 <= k < |whole|
        ensures whole[k] == chain[if k < i then k else k + 1] && whole[k] in chain
      {
      }
      forall k, l | 0 <= k < l < |whole|
        ensures Differ(ids, whole[k], whole[l])
      {
        assert Differ(ids, chain[if k < i then k else k + 1], chain[if l < i then l else l + 1]);
      }
    }

    /** A handle of a chain is in no other chain, and only once in its own. */
    lemma OnlyThere(b: nat, i: nat)
      requires AllBelong(ids, chains) && b < |chains| && i < |chains[b]|
      ensures forall c :: 0 <= c < |chains| && c != b ==> chains[b][i] !in chains[c]
      ensures !Elsewhere(chains, b, chains[b][i])
      ensures forall j :: 0 <= j < |chains[b]| && j != i ==> chains[b][j] != chains[b][i]
    {
      hide AllBelong;
      forall c, j | 0 <= c < |chains| && 0 <= j < |chains[c]| && (c != b || j != i)
        ensures chains[c][j] != chains[b][i]
      {
        PlacesDiffer(ids, chains, b, i, c, j);
      }
    }

    lemma ReplacedMembers(b: nat, i: nat, h: nat)
      requires TableOk(ids, nextHash, list, chains) && b < |chains| && i <= |chains[b]| && h !in Contents()
      ensures Members(chains[b := chains[b][..i] + Replaced(chains[b], i, h)]) ==
                (if i < |chains[b]| then Contents() - {chains[b][i]} else Contents()) + {h}
      ensures |Members(chains[b := chains[b][..i] + Replaced(chains[b], i, h)])| == |Contents()| + if i < |chains[b]| then 0 else 1
    {
      hide TableOk, Members, Elsewhere, AllBelong;
      var chain := chains[b];
      var whole := chain[..i] + Replaced(chain, i, h);
      TableBelongs(ids, nextHash, list, chains);
      ChangedMembers(chains, b, whole);
      if i < |chain| {
        OnlyThere(b, i);
        MemberAt(chains, b, chain[i]);
        WithoutOne(chain, i);
      } else {
        assert chain[..i] == chain;
      }
      ghost var goal := (if i < |chain| then Contents() - {chain[i]} else Contents()) + {h};
      forall x
        ensures x in Members(chains[b := whole]) <==> x in goal
      {
        assert x in whole <==> x == h || x in chain[..i] || (i < |chain| && x in chain[i + 1..]);
        assert x in Members(chains[b := whole]) <==> x in whole || Elsewhere(chains, b, x);
        assert x in Contents() <==> x in chain || Elsewhere(chains, b, x);
      }
      assert Members(chains[b := whole]) == goal;
    }

    lemma WithoutOne(chain: seq<nat>, i: nat)
      requires i < |chain| && forall j :: 0 <= j < |chain| && j != i ==> chain[j] != chain[i]
      ensures forall h :: h in chain[..i] || h in chain[i + 1..] <==> h in chain && h != chain[i]
    {
      assert chain == chain[..i] + [chain[i]] + chain[i + 1..];
      assert chain[i] !in chain[..i] && chain[i] !in chain[i + 1..];
    }

    lemma RemovedMembers(b: nat, i: nat)
      requires TableOk(ids, nextHash, list, chains) && b < |chains| && i < |chains[b]|
      ensures chains[b][i] in Contents()
      ensures Members(chains[b := chains[b][..i] + chains[b][i + 1..]]) == Contents() - {chains[b][i]}
    {
      hide TableOk, Members, Elsewhere, AllBelong;
      var chain := chains[b];
      TableBelongs(ids, nextHash, list, chains);
      OnlyThere(b, i);
      MemberAt(chains, b, chain[i]);
      WithoutOne(chain, i);
      var rest := chain[..i] + chain[i + 1..];
      ChangedMembers(chains, b, rest);
      forall x
        ensures x in Members(chains[b := rest]) <==> x in Contents() && x != chain[i]
      {
        assert x in rest <==> x in chain[..i] || x in chain[i + 1..];
        assert x in Members(chains[b := rest]) <==> x in rest || Elsewhere(chains, b, x);
        assert x in Contents() <==> x in chain || Elsewhere(chains, b, x);
      }
    }

    lemma FoundLink(b: nat, i: nat)
      requires TableOk(ids, nextHash, list, chains) && b < |chains| && i < |chains[b]|
      ensures chains[b][i] < |nextHash| && nextHash[chains[b][i]] == PointerTo(chains[b], i + 1)
      ensures IsChain(nextHash, PointerTo(chains[b], i + 1), chains[b][i + 1..])
    {
      assert BucketOk(ids, nextHash, list, chains, b);
      assert Linked(nextHash, chains[b], i);
      ChainRest(nextHash, list[b], chains[b], i + 1);
    }

    lemma TailReplaced(b: nat, i: nat, h: nat, after: Option<nat>)
      requires TableOk(ids, nextHash, list, chains) && b < |chains| && i <= |chains[b]| && h !in Contents() && h < |ids|
      requires after == if i < |chains[b]| then PointerTo(chains[b], i + 1) else None
      ensures IsChain(nextHash[h := after], Some(h), Replaced(chains[b], i, h))
    {
      hide Bucket;
      var chain := chains[b];
      if h in chain { MemberAt(chains, b, h); }
      if i < |chain| {
        FoundLink(b, i);
        ChainStays(nextHash, after, chain[i + 1..], h, after);
        ChainPrepended(nextHash[h := after], after, chain[i + 1..], h);
      } else {
        ChainPrepended(nextHash[h := after], None, [], h);
      }
    }

    /** Takes the place of the handle with the same key and hash, if there is one. */
    method Insert(h: nat) returns (previous: Option<nat>)
      requires Valid() && h < |ids| && h !in Contents()
      modifies this`nextHash, this`list, this`elems, this`chains
      ensures Valid() && Answers(ids, old(Contents()), ids[h], previous)
      ensures Contents() == (if previous.Some? then old(Contents()) - {previous.value} else old(Contents())) + {h}
    {
      hide Bucket, PowerOfTwo, TableOk, Members, IsChain, Belongs;
      var slot, b, i := FindPointer(ids[h]);
      FoundAnswers(ids[h], b, i);
      previous := Load(slot);
      ghost var chain := chains[b];
      if i < |chain| { FoundLink(b, i); }
      if i > 0 { MemberAt(chains, b, chain[i - 1]); }
      var after := if previous.None? then None else nextHash[previous.value];
      UnlinkedStore(ids, nextHash, list, chains, h, after);
      TailReplaced(b, i, h, after);
      ReplacedBelongs(|list|, b, chain, i, h);
      ReplacedMembers(b, i, h);
      nextHash := nextHash[h := after];
      Splice(slot, b, i, Some(h), Replaced(chain, i, h));
      if previous.None? {
        elems := elems + 1;
        if elems > |list| {
          Resize();
        }
      }
    }

    method Remove(id: Id) returns (result: Option<nat>)
      requires Valid()
      modifies this`nextHash, this`list, this`elems, this`chains
      ensures Valid() && Answers(ids, old(Contents()), id, result)
      ensures Contents() == if result.Some? then old(Contents()) - {result.value} else old(Contents())
    {
      hide Bucket, PowerOfTwo, TableOk, Members, IsChain, Belongs;
      var slot, b, i := FindPointer(id);
      FoundAnswers(id, b, i);
      result := Load(slot);
      if result.Some? {
        ghost var chain := chains[b];
        FoundLink(b, i);
        RemovedBelongs(|list|, b, chain, i);
        RemovedMembers(b, i);
        Splice(slot, b, i, nextHash[result.value], chain[i + 1..]);
        elems := elems - 1;
      }
    }

    // ----- Resizing -----

    method NewLength() returns (length: nat)
      ensures length >= 4 && length >= elems && PowerOfTwo(length)
    {
      length := 4;
      FourBuckets();
      while length < elems
        invariant length >= 4 && PowerOfTwo(length)
      {
        length := length * 2;
      }
    }

    /** The handles of the buckets before `i` and of the first `k` places of bucket `i`. */
    static ghost predicate Passed(chains: seq<seq<nat>>, i: nat, k: nat, h: nat) {
      || (exists c :: 0 <= c < |chains| && c < i && h in chains[c])
      || (i < |chains| && k <= |chains[i]| && h in chains[i][..k])
    }

    /** The new buckets are in order and hold what was passed. */
    ghost predicate HoldPassed(memory: seq<Option<nat>>, newList: seq<Option<nat>>, newChains: seq<seq<nat>>, i: nat, k: nat)
      reads this
    {
      TableOk(ids, memory, newList, newChains) && forall h :: h in Members(newChains) <==> Passed(chains, i, k, h)
    }

    /** The old chains from bucket `i` on are still whole. */
    ghost predicate StillChained(memory: seq<Option<nat>>, i: nat)
      reads this
    {
      |chains| == |list| && forall c: nat :: i <= c < |list| ==> IsChain(memory, list[c], chains[c])
    }

    method Resize()
      requires TableOk(ids, nextHash, list, chains) && elems == |Contents()|
      modifies this`nextHash, this`list, this`chains
      ensures Valid() && Contents() == old(Contents())
    {
      hide Bucket, PowerOfTwo, TableOk, Members, IsChain, Belongs;
      var length := NewLength();
      var newList: seq<Option<nat>> := seq(length, _ => None);
      ghost var newChains: seq<seq<nat>> := seq(length, _ => []);
      TableBelongs(ids, nextHash, list, chains);
      NewIsEmpty(length, newList, newChains);
      for i := 0 to |list|
        invariant |newList| == |newChains| == length && |nextHash| == |ids| && AllBelong(ids, chains)
        invariant chains == old(chains) && list == old(list) && StillChained(nextHash, i) && HoldPassed(nextHash, newList, newChains, i, 0)
      {
        newList, newChains := MoveBucket(i, newList, newChains);
      }
      AllPassed();
      list, chains := newList, newChains;
      assert Contents() == old(Contents());
    }

    lemma AllPassed()
      ensures forall h :: Passed(chains, |chains|, 0, h) <==> h in Contents()
    {
      forall h
        ensures Passed(chains, |chains|, 0, h) <==> h in Contents()
      {
        if h in Contents() { var b := BucketOf(chains, h); }
        if Passed(chains, |chains|, 0, h) {
          var c :| 0 <= c < |chains| && h in chains[c];
          MemberAt(chains, c, h);
        }
      }
    }

    lemma NewIsEmpty(length: nat, newList: seq<Option<nat>>, newChains: seq<seq<nat>>)
      requires |nextHash| == |ids| && length > 0 && |newList| == |newChains| == length
      requires forall b :: 0 <= b < length ==> newList[b] == None && newChains[b] == []
      ensures HoldPassed(nextHash, newList, newChains, 0, 0)
    {
    }

    /** One old bucket, handle by handle, to the heads of the new ones. */
    method MoveBucket(i: nat, newList0: seq<Option<nat>>, ghost newChains0: seq<seq<nat>>)
      returns (newList: seq<Option<nat>>, ghost newChains: seq<seq<nat>>)
      requires i < |list| && |newList0| == |newChains0| > 0 && |nextHash| == |ids| && AllBelong(ids, chains)
      requires StillChained(nextHash, i) && HoldPassed(nextHash, newList0, newChains0, i, 0)
      modifies this`nextHash
      ensures |newList| == |newChains| == |newList0| && |nextHash| == |ids|
      ensures StillChained(nextHash, i + 1) && HoldPassed(nextHash, newList, newChains, i + 1, 0)
    {
      hide Bucket, TableOk, Members, IsChain, Belongs, AllBelong, Passed;
      newList, newChains := newList0, newChains0;
      var h := list[i];
      ghost var k: nat := 0;
      assert chains[i][0..] == chains[i];
      while h.Some?
        invariant k <= |chains[i]| && |newList| == |newChains| == |newList0| && |nextHash| == |ids|
        invariant IsChain(nextHash, h, chains[i][k..]) && StillChained(nextHash, i + 1) && HoldPassed(nextHash, newList, newChains, i, k)
        decreases |chains[i]| - k
      {
        var next, b := MoveHandle(i, k, h.value, newList, newChains);
        newChains := newChains[b := [h.value] + newChains[b]];
        newList := newList[b := h];
        h, k := next, k + 1;
      }
      BucketPassed(i, k, nextHash);
    }

    lemma BucketPassed(i: nat, k: nat, nextHash: seq<Option<nat>>)
      requires i < |chains| && k <= |chains[i]| && IsChain(nextHash, None, chains[i][k..])
      ensures forall h :: Passed(chains, i + 1, 0, h) <==> Passed(chains, i, k, h)
    {
      assert k == |chains[i]| && chains[i][..k] == chains[i];
    }

    method MoveHandle(i: nat, ghost k: nat, h: nat, newList: seq<Option<nat>>, ghost newChains: seq<seq<nat>>)
      returns (next: Option<nat>, b: nat)
      requires |list| == |chains| && i < |list| && k <= |chains[i]| && |newList| == |newChains| > 0 && |nextHash| == |ids| && AllBelong(ids, chains)
      requires IsChain(nextHash, Some(h), chains[i][k..]) && StillChained(nextHash, i + 1) && HoldPassed(nextHash, newList, newChains, i, k)
      modifies this`nextHash
      ensures k < |chains[i]| && b < |newList| && |nextHash| == |ids|
      ensures IsChain(nextHash, next, chains[i][k + 1..]) && StillChained(nextHash, i + 1)
      ensures HoldPassed(nextHash, newList[b := Some(h)], newChains[b := [h] + newChains[b]], i, k + 1)
    {
      hide Bucket, TableOk, Members, Belongs, AllBelong, Passed;
      assert Linked(nextHash, chains[i][k..], 0) && h == chains[i][k];
      ChainRest(nextHash, Some(h), chains[i][k..], 1);
      assert chains[i][k..][1..] == chains[i][k + 1..];
      IsNew(i, k, newList, newChains);
      next := nextHash[h];
      b := Bucket(ids[h], |newList|);
      RestStays(i, k, next, newList[b]);
      PushedOk(newList, newChains, h, b);
      OneMorePassed(i, k);
      ghost var pushed := newChains[b := [h] + newChains[b]];
      forall x
        ensures x in Members(pushed) <==> Passed(chains, i, k + 1, x)
      {
        assert x in Members(newChains) <==> Passed(chains, i, k, x);
      }
      nextHash := nextHash[h := newList[b]];
    }

    lemma IsNew(i: nat, k: nat, newList: seq<Option<nat>>, newChains: seq<seq<nat>>)
      requires i < |chains| && k < |chains[i]| && AllBelong(ids, chains) && HoldPassed(nextHash, newList, newChains, i, k)
      ensures chains[i][k] < |ids| && chains[i][k] !in Members(newChains)
      ensures forall x :: x in Members(newChains) ==> Differ(ids, chains[i][k], x)
    {
      hide Bucket, TableOk, Members, AllBelong;
      TheFirstBelongs(i, k);
      forall x | x in Members(newChains)
        ensures Differ(ids, chains[i][k], x)
      {
        assert Passed(chains, i, k, x);
        if c :| 0 <= c < |chains| && c < i && x in chains[c] {
          var j :| 0 <= j < |chains[c]| && chains[c][j] == x;
          PlacesDiffer(ids, chains, i, k, c, j);
        } else {
          var j :| 0 <= j < k && chains[i][j] == x;
          PlacesDiffer(ids, chains, i, k, i, j);
        }
      }
    }

    lemma TheFirstBelongs(i: nat, k: nat)
      requires i < |chains| && k < |chains[i]| && AllBelong(ids, chains)
      ensures chains[i][k] < |ids|
    {
      hide Bucket;
      assert Belongs(ids, |chains|, i, chains[i]) && chains[i][k] in chains[i];
    }

    /** The old chains still to be passed do not run through the handle. */
    lemma RestStays(i: nat, k: nat, next: Option<nat>, p: Option<nat>)
      requires i < |chains| && k < |chains[i]| && AllBelong(ids, chains) && |nextHash| == |ids|
      requires IsChain(nextHash, next, chains[i][k + 1..]) && StillChained(nextHash, i + 1)
      ensures chains[i][k] < |ids|
      ensures var after := nextHash[chains[i][k] := p]; IsChain(after, next, chains[i][k + 1..]) && StillChained(after, i + 1)
    {
      hide Bucket, AllBelong, IsChain;
      TheFirstBelongs(i, k);
      OnlyThere(i, k);
      var h := chains[i][k];
      var after := nextHash[h := p];
      assert h !in chains[i][k + 1..];
      ChainStays(nextHash, next, chains[i][k + 1..], h, p);
      forall c: nat | i + 1 <= c < |list|
        ensures IsChain(after, list[c], chains[c])
      {
        ChainStays(nextHash, list[c], chains[c], h, p);
      }
    }

    /** A handle unlike all others put at the head of its bucket. */
    lemma PushedOk(newList: seq<Option<nat>>, newChains: seq<seq<nat>>, h: nat, b: nat)
      requires TableOk(ids, nextHash, newList, newChains) && h < |ids| && h !in Members(newChains)
      requires |newList| > 0 && b == Bucket(ids[h], |newList|) && forall x :: x in Members(newChains) ==> Differ(ids, h, x)
      ensures TableOk(ids, nextHash[h := newList[b]], newList[b := Some(h)], newChains[b := [h] + newChains[b]])
      ensures forall x :: x in Members(newChains[b := [h] + newChains[b]]) <==> x in Members(newChains) || x == h
    {
      hide Bucket, Members, Elsewhere;
      var chain := [h] + newChains[b];
      var after, list1, chains1 := nextHash[h := newList[b]], newList[b := Some(h)], newChains[b := chain];
      UnlinkedStore(ids, nextHash, newList, newChains, h, newList[b]);
      forall c: nat | c < |newList|
        ensures BucketOk(ids, after, list1, chains1, c)
      {
        assert BucketOk(ids, after, newList, newChains, c);
        if c == b {
          ChainPrepended(after, newList[b], newChains[b], h);
          forall j | 0 <= j < |newChains[b]|
            ensures Differ(ids, h, newChains[b][j])
          {
            MemberAt(newChains, b, newChains[b][j]);
          }
          PrependedBelongs(ids, |newList|, b, newChains[b], h);
        }
      }
      ChangedMembers(newChains, b, chain);
      forall x
        ensures x in Members(chains1) <==> x in Members(newChains) || x == h
      {
        assert x in chain <==> x == h || x in newChains[b];
        assert x in Members(chains1) <==> x in chain || Elsewhere(newChains, b, x);
        assert x in Members(newChains) <==> x in newChains[b] || Elsewhere(newChains, b, x);
      }
    }

    lemma PrependedBelongs(ids: seq<Id>, length: nat, b: nat, chain: seq<nat>, h: nat)
      requires 0 < length && Belongs(ids, length, b, chain) && h < |ids| && Bucket(ids[h], length) == b
      requires forall j :: 0 <= j < |chain| ==> Differ(ids, h, chain[j])
      ensures Belongs(ids, length, b, [h] + chain)
    {
      hide Bucket;
      var whole := [h] + chain;
      assert forall x :: x in whole ==> x == h || x in chain;
      forall i, j | 0 <= i < j < |whole|
        ensures Differ(ids, whole[i], whole[j])
      {
        if i > 0 { assert Differ(ids, chain[i - 1], chain[j - 1]); }
      }
    }

    lemma OneMorePassed(i: nat, k: nat)
      requires i < |chains| && k < |chains[i]|
      ensures forall x :: Passed(chains, i, k + 1, x) <==> Passed(chains, i, k, x) || x == chains[i][k]
    {
      assert chains[i][..k + 1] == chains[i][..k] + [chains[i][k]];
    }
  }
}
