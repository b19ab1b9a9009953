/**
 * One shard of the block cache: handles with reference counts, two circular lists and a hash table. Handles live in an
 * arena and pointers are indexes into it; indexes 0 and 1 are the dummy heads of the two lists.
 */
module LruCaches {
  import opened ByteOrder
  import opened DbFormat
  import opened Coding
  import opened HandleTables
  import opened Rings

  const LRU: nat := 0

  const IN_USE: nat := 1

  // ----- Charges -----

  ghost function ChargeOf(charge: seq<nat>, e: nat): nat {
    if e < |charge| then charge[e] else 0
  }

  ghost function Sum(charge: seq<nat>, list: seq<nat>): nat {
    if list == [] then 0 else Sum(charge, list[..|list| - 1]) + ChargeOf(charge, list[|list| - 1])
  }

  lemma {:induction false} SumAppend(charge: seq<nat>, list: seq<nat>, e: nat)
    ensures Sum(charge, list + [e]) == Sum(charge, list) + ChargeOf(charge, e)
  {
    assert (list + [e])[..|list|] == list;
  }

  lemma {:induction false} SumWithout(charge: seq<nat>, list: seq<nat>, e: nat)
    requires e in list
    ensures Sum(charge, Without(list, e)) + ChargeOf(charge, e) == Sum(charge, list)
  {
    var n := |list| - 1;
    if list[n] != e {
      SumWithout(charge, list[..n], e);
      SumAppend(charge, Without(list[..n], e), list[n]);
    }
  }

  lemma {:induction false} SumOfMore(charge: seq<nat>, c: nat, list: seq<nat>)
    requires forall e :: e in list ==> e < |charge|
    ensures Sum(charge + [c], list) == Sum(charge, list)
  {
    if list != [] {
      var n := |list| - 1;
      assert forall e :: e in list[..n] ==> e in list;
      SumOfMore(charge, c, list[..n]);
      assert list[n] in list;
    }
  }

  // ----- Counts and places -----

  /** Of each handle whether it is cached, its references, those of them that clients hold; and what is where. */
  datatype Counts = Counts(
    lru: seq<nat>, inUse: seq<nat>, deleted: seq<nat>, inCache: seq<bool>, refs: seq<nat>, clients: seq<nat>)

  ghost predicate IsHandleOf(c: Counts, e: nat) {
    2 <= e < |c.refs|
  }

  /** A cached handle is in the LRU list when only the cache refers to it, and in use otherwise; at no references it is gone. */
  ghost predicate Placed(c: Counts, e: nat)
    requires e < |c.refs| && e < |c.inCache| && e < |c.clients|
  {
    && (e in c.lru <==> c.inCache[e] && c.refs[e] == 1)
    && (e in c.inUse <==> c.inCache[e] && c.refs[e] >= 2)
    && c.refs[e] == c.clients[e] + (if c.inCache[e] then 1 else 0)
    && (e in c.deleted <==> c.refs[e] == 0)
  }

  /** All handles but `x` are in their places. */
  ghost predicate Consistent(c: Counts, x: nat) {
    && |c.inCache| == |c.refs| == |c.clients| >= 2 && !c.inCache[LRU] && !c.inCache[IN_USE]
    && Distinct(c.lru) && Distinct(c.inUse) && Distinct(c.deleted)
    && (forall e :: e in c.lru || e in c.inUse || e in c.deleted ==> IsHandleOf(c, e))
    && forall e: nat :: IsHandleOf(c, e) && e != x ==> Placed(c, e)
  }

  /** A handle is in exactly one list while it is cached, and in none later; it is deleted when no client is left, once. */
  lemma {:induction false} OnePlace(c: Counts, e: nat)
    requires Consistent(c, LRU) && IsHandleOf(c, e)
    ensures c.inCache[e] ==> (e in c.lru <==> c.clients[e] == 0) && (e in c.inUse <==> c.clients[e] > 0) && e !in c.deleted
    ensures !c.inCache[e] ==> e !in c.lru && e !in c.inUse && (e in c.deleted <==> c.clients[e] == 0)
    ensures multiset(c.lru)[e] <= 1 && multiset(c.inUse)[e] <= 1 && multiset(c.deleted)[e] <= 1
  {
    assert Placed(c, e);
    DistinctCounts(c.lru, e);
    DistinctCounts(c.inUse, e);
    DistinctCounts(c.deleted, e);
  }

  ghost function Referenced(c: Counts, e: nat): Counts
    requires e < |c.refs| && e < |c.clients| && e < |c.inCache|
  {
    var moves := c.inCache[e] && c.refs[e] == 1;
    Counts(if moves then Without(c.lru, e) else c.lru, if moves then c.inUse + [e] else c.inUse, c.deleted, c.inCache,
           c.refs[e := c.refs[e] + 1], c.clients[e := c.clients[e] + 1])
  }

  lemma {:induction false} ReferencedIsConsistent(c: Counts, e: nat)
    requires Consistent(c, LRU) && IsHandleOf(c, e) && c.refs[e] > 0
    ensures Consistent(Referenced(c, e), LRU)
  {
    hide Distinct, Without;
    var d := Referenced(c, e);
    assert Placed(c, e);
    WithoutMembers(c.lru, e);
    if e !in c.inUse { DistinctGrows(c.inUse, e); }
    forall x: nat | IsHandleOf(d, x)
      ensures Placed(d, x)
    {
      assert IsHandleOf(c, x) && Placed(c, x);
    }
  }

  /** One reference less, after which handle `e` may go to the LRU list or be deleted. */
  ghost function Dropped(c: Counts, e: nat): Counts
    requires e < |c.refs| && e < |c.inCache| && c.refs[e] > 0
  {
    var left := c.refs[e] - 1;
    var moves := c.inCache[e] && left == 1;
    Counts(if moves then c.lru + [e] else c.lru, if moves then Without(c.inUse, e) else c.inUse,
           if left == 0 then c.deleted + [e] else c.deleted, c.inCache, c.refs[e := left], c.clients)
  }

  /** A reference of `e` no longer counts for its holder. */
  ghost predicate GivenUp(c: Counts, e: nat) {
    && Consistent(c, e) && IsHandleOf(c, e) && c.refs[e] > 0 && e !in c.deleted && e !in c.lru
    && c.refs[e] - 1 == c.clients[e] + (if c.inCache[e] then 1 else 0)
    && (e in c.inUse <==> c.inCache[e])
  }

  lemma {:induction false} DroppedIsConsistent(c: Counts, e: nat)
    requires GivenUp(c, e)
    ensures Consistent(Dropped(c, e), LRU)
  {
    hide Distinct, Without;
    var d := Dropped(c, e);
    WithoutMembers(c.inUse, e);
    DistinctGrows(c.lru, e);
    DistinctGrows(c.deleted, e);
    forall x: nat | IsHandleOf(d, x)
      ensures Placed(d, x)
    {
      assert IsHandleOf(c, x);
      assert x != e ==> Placed(c, x);
    }
  }

  ghost function Uncached(c: Counts, e: nat): Counts
    requires e < |c.inCache|
  {
    c.(lru := Without(c.lru, e), inUse := Without(c.inUse, e), inCache := c.inCache[e := false])
  }

  lemma {:induction false} UncachedIsGivenUp(c: Counts, e: nat)
    requires Consistent(c, LRU) && IsHandleOf(c, e) && c.inCache[e]
    ensures GivenUp(Uncached(c, e), e) && (e in c.lru || e in c.inUse) && (c.refs[e] == 1 <==> e in c.lru)
  {
    hide Distinct, Without;
    var d := Uncached(c, e);
    assert Placed(c, e);
    WithoutMembers(c.lru, e);
    WithoutMembers(c.inUse, e);
    forall x: nat | IsHandleOf(d, x) && x != e
      ensures Placed(d, x)
    {
      assert IsHandleOf(c, x) && Placed(c, x);
    }
  }

  ghost function Released(c: Counts, e: nat): Counts
    requires e < |c.clients| && c.clients[e] > 0
  {
    c.(clients := c.clients[e := c.clients[e] - 1])
  }

  lemma {:induction false} ReleasedIsGivenUp(c: Counts, e: nat)
    requires Consistent(c, LRU) && IsHandleOf(c, e) && c.clients[e] > 0
    ensures GivenUp(Released(c, e), e)
  {
    hide Distinct;
    var d := Released(c, e);
    assert Placed(c, e);
    forall x: nat | IsHandleOf(d, x) && x != e
      ensures Placed(d, x)
    {
      assert IsHandleOf(c, x) && Placed(c, x);
    }
  }

  /** A new handle, which the client holds; cached, it is in use. */
  ghost function Created(c: Counts, cached: bool): Counts {
    Counts(c.lru, if cached then c.inUse + [|c.refs|] else c.inUse, c.deleted, c.inCache + [cached],
           c.refs + [if cached then 2 else 1], c.clients + [1])
  }

  lemma {:induction false} CreatedIsConsistent(c: Counts, cached: bool)
    requires Consistent(c, LRU)
    ensures Consistent(Created(c, cached), LRU)
  {
    hide Distinct;
    var d := Created(c, cached);
    assert !IsHandleOf(c, |c.refs|);
    DistinctGrows(c.inUse, |c.refs|);
    forall x: nat | IsHandleOf(d, x)
      ensures Placed(d, x)
    {
      if x < |c.refs| { assert IsHandleOf(c, x) && Placed(c, x); }
    }
  }

  /** The charges of all cached handles. */
  ghost function Charges(charge: seq<nat>, c: Counts): nat {
    Sum(charge, c.lru) + Sum(charge, c.inUse)
  }

  /** Moving a handle from one list to the other does not change what the cache is charged. */
  lemma {:induction false} MovesAreFree(charge: seq<nat>, c: Counts, e: nat)
    requires e < |charge| && e < |c.refs| && e < |c.clients| && e < |c.inCache|
    ensures Consistent(c, LRU) && IsHandleOf(c, e) ==> Charges(charge, Referenced(c, e)) == Charges(charge, c)
    ensures GivenUp(c, e) ==> Charges(charge, Dropped(c, e)) == Charges(charge, c)
    ensures Consistent(c, LRU) && IsHandleOf(c, e) && c.inCache[e] ==> Charges(charge, Uncached(c, e)) + charge[e] == Charges(charge, c)
  {
    hide Sum, Without, Distinct;
    if e in c.lru { SumWithout(charge, c.lru, e); }
    if e in c.inUse { SumWithout(charge, c.inUse, e); }
    SumAppend(charge, c.lru, e);
    SumAppend(charge, c.inUse, e);
    if Consistent(c, LRU) && IsHandleOf(c, e) {
      assert Placed(c, e);
    }
  }

  // ----- The cache -----

  class LRUCache {
    const capacity: nat
    const table: HandleTable
    var next: seq<nat>
    var prev: seq<nat>
    var charge: seq<nat>
    var inCache: seq<bool>
    var refs: seq<nat>
    var usage: nat
    var deleted: seq<nat>       // the handles passed to their deleter and freed, in order
    ghost var lru: seq<nat>     // the rings
    ghost var inUse: seq<nat>
    ghost var clients: seq<nat> // how many references the clients hold

    ghost function Now(): Counts
      reads this
    {
      Counts(lru, inUse, deleted, inCache, refs, clients)
    }

    ghost predicate Rings()
      reads this`next, this`prev, this`lru, this`inUse
    {
      && IsRing(next, prev, LRU, lru) && IsRing(next, prev, IN_USE, inUse)
      && IN_USE !in lru && LRU !in inUse && forall e :: e in lru ==> e !in inUse
    }

    /** Everything but the hash table, and but the place of handle `x`. */
    ghost predicate Core(x: nat)
      reads this
    {
      && |next| == |charge| == |refs| && Rings() && Consistent(Now(), x) && usage == Charges(charge, Now())
    }

    /** The hash table holds exactly the cached handles. */
    ghost predicate Tabled()
      reads this, table
    {
      && table.Valid() && |table.ids| == |inCache|
      && forall e: nat :: e in table.Contents() <==> e < |inCache| && inCache[e]
    }

    ghost predicate Valid()
      reads this, table
    {
      Core(LRU) && Tabled()
    }

    constructor (capacity: nat)
      ensures Valid() && fresh(table) && this.capacity == capacity && table.Contents() == {} && deleted == []
    {
      this.capacity := capacity;
      table := new HandleTable();
      next, prev, charge, inCache, refs := [LRU, IN_USE], [LRU, IN_USE], [0, 0], [false, false], [0, 0];
      usage, deleted, lru, inUse, clients := 0, [], [], [], [0, 0];
      new;
      table.Allocate(Id([], 0), None);
      table.Allocate(Id([], 0), None);
    }

    // ----- The lists -----

    method LruRemove(e: nat)
      requires Rings() && e < |next| && (e in lru || e in inUse)
      modifies this`next, this`prev, this`lru, this`inUse
      ensures Rings() && |next| == old(|next|) && lru == Without(old(lru), e) && inUse == Without(old(inUse), e)
    {
      hide IsRing, Distinct, Without;
      RemovedFromRings(e);
      var n, p := next[e], prev[e];
      prev := prev[n := p];
      next := next[p := n];
      lru, inUse := Without(lru, e), Without(inUse, e);
    }

    lemma RemovedFromRings(e: nat)
      requires Rings() && (e in lru || e in inUse)
      ensures e < |next| == |prev| && next[e] < |next| && prev[e] < |next| && next[e] != e
      ensures var next1, prev1 := next[prev[e] := next[e]], prev[next[e] := prev[e]];
              var lru1, inUse1 := Without(lru, e), Without(inUse, e);
              && IsRing(next1, prev1, LRU, lru1) && IsRing(next1, prev1, IN_USE, inUse1)
              && IN_USE !in lru1 && LRU !in inUse1 && forall x :: x in lru1 ==> x !in inUse1
    {
      hide Without;
      if e in lru {
        RemovedFromOne(LRU, lru, IN_USE, inUse, e);
      } else {
        RemovedFromOne(IN_USE, inUse, LRU, lru, e);
      }
    }

    lemma RemovedFromOne(head: nat, list: seq<nat>, head1: nat, list1: seq<nat>, e: nat)
      requires IsRing(next, prev, head, list) && IsRing(next, prev, head1, list1) && e in list
      requires head != head1 && head1 !in list && head !in list1 && forall x :: x in list ==> x !in list1
      ensures e < |next| == |prev| && next[e] < |next| && prev[e] < |next| && next[e] != e
      ensures var next1, prev1 := next[prev[e] := next[e]], prev[next[e] := prev[e]];
              IsRing(next1, prev1, head, Without(list, e)) && IsRing(next1, prev1, head1, list1)
    {
      hide Without, Distinct;
      var k :| 0 <= k < |list| && list[k] == e;
      RingLosesOne(next, prev, head, list, k);
      WithoutIs(list, k);
      assert Joint(next, prev, head, list, k) && Joint(next, prev, head, list, k + 1);
      assert prev[e] == head || prev[e] in list;
      assert next[e] == head || next[e] in list;
      RingStays(next, prev, next[prev[e] := next[e]], prev[next[e] := prev[e]], head1, list1);
    }

    method LruAppend(list: nat, e: nat)
      requires Rings() && 2 <= e < |next| && e !in lru && e !in inUse && (list == LRU || list == IN_USE)
      modifies this`next, this`prev, this`lru, this`inUse
      ensures Rings() && |next| == old(|next|)
      ensures list == LRU ==> lru == old(lru) + [e] && inUse == old(inUse)
      ensures list == IN_USE ==> inUse == old(inUse) + [e] && lru == old(lru)
    {
      hide IsRing, Distinct;
      if list == LRU {
        AppendedToOne(LRU, lru, IN_USE, inUse, e);
        lru := lru + [e];
      } else {
        AppendedToOne(IN_USE, inUse, LRU, lru, e);
        inUse := inUse + [e];
      }
      next := next[e := list];
      prev := prev[e := prev[list]];
      next := next[prev[e] := e];
      prev := prev[next[e] := e];
    }

    lemma AppendedToOne(head: nat, list: seq<nat>, head1: nat, list1: seq<nat>, e: nat)
      requires IsRing(next, prev, head, list) && IsRing(next, prev, head1, list1) && e < |next| && e != head && e != head1
      requires e !in list && e !in list1
      requires head != head1 && head1 !in list && head !in list1 && forall x :: x in list ==> x !in list1
      ensures |prev| == |next| && head < |next| && prev[head] < |next| && prev[head] != e
      ensures var next1, prev1 := next[e := head][prev[head] := e], prev[e := prev[head]][head := e];
              IsRing(next1, prev1, head, list + [e]) && IsRing(next1, prev1, head1, list1)
    {
      hide Distinct;
      RingGainsOne(next, prev, head, list, e);
      assert Joint(next, prev, head, list, |list|);
      assert prev[head] == head || prev[head] in list;
      RingStays(next, prev, next[e := head][prev[head] := e], prev[e := prev[head]][head := e], head1, list1);
    }

    // ----- References -----

    method Ref(e: nat)
      requires Core(LRU) && IsHandleOf(Now(), e) && refs[e] > 0
      modifies this`next, this`prev, this`lru, this`inUse, this`refs, this`clients
      ensures Core(LRU) && Now() == Referenced(old(Now()), e)
    {
      hide Rings, Charges, Without, Distinct;
      ReferencedIsConsistent(Now(), e);
      MovesAreFree(charge, Now(), e);
      assert Placed(Now(), e);
      if refs[e] == 1 && inCache[e] {
        WithoutMembers(lru, e);
        LruRemove(e);
        LruAppend(IN_USE, e);
      }
      refs := refs[e := refs[e] + 1];
      clients := clients[e := clients[e] + 1];
    }

    /** A reference that its holder has given up is dropped. */
    method Unref(e: nat)
      requires |next| == |charge| == |refs| && Rings() && usage == Charges(charge, Now()) && GivenUp(Now(), e)
      modifies this`next, this`prev, this`lru, this`inUse, this`refs, this`deleted
      ensures Core(LRU) && Now() == Dropped(old(Now()), e)
    {
      hide Rings, Charges, Without, Distinct, Placed;
      DroppedIsConsistent(Now(), e);
      MovesAreFree(charge, Now(), e);
      refs := refs[e := refs[e] - 1];
      if refs[e] == 0 {
        deleted := deleted + [e];
      } else if inCache[e] && refs[e] == 1 {
        WithoutMembers(inUse, e);
        LruRemove(e);
        LruAppend(LRU, e);
      }
    }

    /** Finishes removing a handle that is out of the hash table. */
    method FinishErase(e: Option<nat>) returns (erased: bool)
      requires Core(LRU) && (e.Some? ==> IsHandleOf(Now(), e.value) && inCache[e.value])
      modifies this`next, this`prev, this`lru, this`inUse, this`refs, this`deleted, this`inCache, this`usage
      ensures Core(LRU) && erased == e.Some?
      ensures e.None? ==> Now() == old(Now()) && usage == old(usage)
      ensures e.Some? ==> GivenUp(Uncached(old(Now()), e.value), e.value)
      ensures e.Some? ==> Now() == Dropped(Uncached(old(Now()), e.value), e.value) && usage == old(usage) - charge[e.value]
    {
      hide Rings, Charges, Without, Distinct;
      erased := e.Some?;
      if e.Some? {
        UncachedIsGivenUp(Now(), e.value);
        MovesAreFree(charge, Now(), e.value);
        LruRemove(e.value);
        inCache := inCache[e.value := false];
        usage := usage - charge[e.value];
        Unref(e.value);
      }
    }

    // ----- Operations -----

    method Lookup(id: Id) returns (r: Option<nat>)
      requires Valid()
      modifies this`next, this`prev, this`lru, this`inUse, this`refs, this`clients
      ensures Valid() && Answers(table.ids, table.Contents(), id, r)
      ensures r.None? ==> Now() == old(Now())
      ensures r.Some? ==> IsHandleOf(old(Now()), r.value) && Now() == Referenced(old(Now()), r.value)
    {
      hide HandleTable.Valid, Rings, Charges, Without, Distinct, Members, HasId;
      r := table.Lookup(id);
      if r.Some? {
        CachedIsHandle(r.value);
        Ref(r.value);
      }
    }

    lemma CachedIsHandle(e: nat)
      requires Valid() && e in table.Contents()
      ensures IsHandleOf(Now(), e) && inCache[e] && refs[e] > 0 && (e in lru || e in inUse)
    {
      assert IsHandleOf(Now(), e) && Placed(Now(), e);
    }

    method Release(e: nat)
      requires Valid() && IsHandleOf(Now(), e) && clients[e] > 0
      modifies this`next, this`prev, this`lru, this`inUse, this`refs, this`clients, this`deleted
      ensures Valid() && Now() == Dropped(Released(old(Now()), e), e)
    {
      hide HandleTable.Valid, Rings, Charges, Without, Distinct, Members;
      ReleasedIsGivenUp(Now(), e);
      SameCharges(charge, Now(), Released(Now(), e));
      clients := clients[e := clients[e] - 1];
      Unref(e);
    }

    lemma SameCharges(charge: seq<nat>, c: Counts, d: Counts)
      requires c.lru == d.lru && c.inUse == d.inUse
      ensures Charges(charge, c) == Charges(charge, d)
    {
    }

    /** Of the cached handles at most one has a given key and hash. */
    lemma OneHandlePerId(id: Id)
      requires Tabled()
      ensures forall g, h :: g in table.Contents() && h in table.Contents() && HasId(table.ids, g, id) && HasId(table.ids, h, id) ==> g == h
    {
      hide Members;
      forall g, h | g in table.Contents() && h in table.Contents() && HasId(table.ids, g, id) && HasId(table.ids, h, id)
        ensures g == h
      {
        OneOfItsKind(table.ids, table.nextHash, table.list, table.chains, g, h);
      }
    }

    /** The cached handle with this key and hash, if there is one, leaves the cache. */
    method Erase(id: Id) returns (ghost removed: Option<nat>)
      requires Valid()
      modifies this, table
      ensures Valid() && table.ids == old(table.ids) && Answers(table.ids, old(table.Contents()), id, removed)
      ensures forall h: nat :: h in table.Contents() <==> h in old(table.Contents()) && !HasId(table.ids, h, id)
      ensures removed.None? ==> Now() == old(Now())
      ensures removed.Some? ==> GivenUp(Uncached(old(Now()), removed.value), removed.value)
      ensures removed.Some? ==> Now() == Dropped(Uncached(old(Now()), removed.value), removed.value)
    {
      hide HandleTable.Valid, Rings, Charges, Without, Distinct, Members, HasId, Placed;
      OneHandlePerId(id);
      var taken := table.Remove(id);
      removed := taken;
      var erased := FinishErase(taken);
    }

    /** When the loops over the LRU list go on. */
    lemma GuardMeans()
      requires Valid()
      ensures LRU < |next| && (next[LRU] == LRU <==> lru == [])
    {
      OldestIsFirst();
    }

    lemma OldestIsFirst()
      requires Valid()
      ensures LRU < |next| && next[LRU] == (if lru == [] then LRU else lru[0])
      ensures lru != [] ==>
                && IsHandleOf(Now(), lru[0]) && inCache[lru[0]] && refs[lru[0]] == 1 && lru[0] !in inUse
                && lru[0] in table.Contents() && lru[0] < |table.ids|
                && Without(lru, lru[0]) == lru[1..]
    {
      hide Without, HandleTable.Valid;
      assert Joint(next, prev, LRU, lru, 0);
      if lru != [] {
        assert lru[0] in lru;
        assert IsHandleOf(Now(), lru[0]) && Placed(Now(), lru[0]);
        WithoutIs(lru, 0);
      }
    }

    /** The oldest handle that nobody uses leaves the cache and is deleted. */
    method EvictOldest()
      requires Valid() && lru != []
      modifies this, table
      ensures Valid() && table.ids == old(table.ids) && charge == old(charge)
      ensures lru == old(lru)[1..] && inUse == old(inUse) && clients == old(clients) && deleted == old(deleted) + [old(lru)[0]]
      ensures usage == old(usage) - ChargeOf(charge, old(lru)[0])
      ensures table.Contents() == old(table.Contents()) - {old(lru)[0]}
    {
      hide HandleTable.Valid, Rings, Charges, Without, Distinct, Members, Placed;
      OldestIsFirst();
      var oldest := next[LRU];
      OneHandlePerId(table.ids[oldest]);
      var removed := table.Remove(table.ids[oldest]);
      assert removed == Some(oldest);
      var erased := FinishErase(removed);
    }

    method Prune()
      requires Valid()
      modifies this, table
      ensures Valid() && lru == [] && inUse == old(inUse) && clients == old(clients) && deleted == old(deleted) + old(lru)
      ensures table.ids == old(table.ids) && forall h :: h in table.Contents() <==> h in old(table.Contents()) && h !in old(lru)
    {
      hide Valid, ChargeOf, Without, Members;
      GuardMeans();
      ghost var k: nat := 0;
      while next[LRU] != LRU
        invariant Valid() && k <= |old(lru)| && LRU < |next| && (next[LRU] == LRU <==> lru == [])
        invariant lru == old(lru)[k..] && deleted == old(deleted) + old(lru)[..k]
        invariant inUse == old(inUse) && clients == old(clients) && table.ids == old(table.ids)
        invariant forall h :: h in table.Contents() <==> h in old(table.Contents()) && h !in old(lru)[..k]
        decreases |lru|
      {
        EvictOldest();
        GuardMeans();
        NextEvicted(old(lru), k);
        k := k + 1;
      }
      assert old(lru)[..k] == old(lru);
    }

    lemma NextEvicted(list: seq<nat>, k: nat)
      requires k < |list|
      ensures list[k..][0] == list[k] && list[k..][1..] == list[k + 1..] && list[..k] + [list[k]] == list[..k + 1]
    {
    }

    // ----- Insertion -----

    /** A new handle, held by the client and not cached. */
    method Allocate(id: Id, c: nat, ghost before: Counts) returns (e: nat)
      requires Valid() && before == Now()
      modifies this, table
      ensures Valid() && Consistent(before, LRU) && Now() == Created(before, false) && e == |before.refs| < |next|
      ensures HasId(table.ids, e, id)
      ensures charge == old(charge) + [c] && table.ids == old(table.ids) + [id] && table.Contents() == old(table.Contents())
    {
      hide HandleTable.Valid, Distinct, Members, Sum, Placed;
      e := |refs|;
      CreatedIsConsistent(before, false);
      SumOfMore(charge, c, lru);
      SumOfMore(charge, c, inUse);
      RingsGrow(next + [e], prev + [e]);
      next, prev, charge, inCache, refs := next + [e], prev + [e], charge + [c], inCache + [false], refs + [1];
      clients := clients + [1];
      table.Allocate(id, None);
    }

    lemma RingsGrow(next1: seq<nat>, prev1: seq<nat>)
      requires Rings() && |next1| == |prev1| == |next| + 1 && next1[..|next|] == next && prev1[..|prev|] == prev
      ensures IsRing(next1, prev1, LRU, lru) && IsRing(next1, prev1, IN_USE, inUse)
    {
      hide Distinct;
      assert forall x :: 0 <= x < |next| ==> next1[..|next|][x] == next1[x] && prev1[..|prev|][x] == prev1[x];
      RingStays(next, prev, next1, prev1, LRU, lru);
      RingStays(next, prev, next1, prev1, IN_USE, inUse);
    }

    /** The cache takes a reference to the new handle. */
    method AddToCache(e: nat, ghost before: Counts)
      requires Core(LRU) && Consistent(before, LRU) && Now() == Created(before, false) && e == |before.refs| < |next|
      modifies this
      ensures Core(LRU) && Now() == Created(before, true) && charge == old(charge) && usage == old(usage) + charge[e]
    {
      hide Rings, Distinct, Sum, Placed;
      CreatedIsConsistent(before, true);
      assert !IsHandleOf(before, e);
      SumAppend(charge, inUse, e);
      refs := refs[e := refs[e] + 1];
      inCache := inCache[e := true];
      LruAppend(IN_USE, e);
      usage := usage + charge[e];
      assert refs == before.refs + [2];
      assert inCache == before.inCache + [true];
    }

    /** What Insert has done before it makes room. */
    ghost predicate Entered(before: Counts, previous: Option<nat>, c: Counts) {
      var created := Created(before, capacity > 0);
      if previous.None? then c == created
      else
        && previous.value < |created.inCache| && GivenUp(Uncached(created, previous.value), previous.value)
        && c == Dropped(Uncached(created, previous.value), previous.value)
    }

    /**
     * The client holds the new handle. With a capacity it is cached in place of the handle with its key and hash; then the
     * first `k` of the handles nobody uses are evicted, no more than needed.
     */
    method Insert(id: Id, c: nat) returns (e: nat, ghost previous: Option<nat>, ghost entered: Counts, ghost k: nat)
      requires Valid()
      modifies this, table
      ensures Valid() && e == old(|refs|) && table.ids == old(table.ids) + [id] && charge == old(charge) + [c]
      ensures if capacity > 0 then Answers(table.ids, old(table.Contents()), id, previous) else previous == None
      ensures Entered(old(Now()), previous, entered) && k <= |entered.lru|
      ensures lru == entered.lru[k..] && inUse == entered.inUse && clients == entered.clients
      ensures deleted == entered.deleted + entered.lru[..k]
      ensures usage <= capacity || lru == []
      ensures k > 0 ==> usage + ChargeOf(charge, entered.lru[k - 1]) > capacity
      ensures forall h: nat :: h in table.Contents() <==>
                && h !in entered.lru[..k]
                && if capacity > 0 then h == e || (h in old(table.Contents()) && !HasId(table.ids, h, id)) else h in old(table.Contents())
    {
      hide HandleTable.Valid, Core, Consistent, Without, Members, Placed, Distinct, HasId, Created, Dropped, Uncached, GivenUp;
      ghost var before := Now();
      e := Allocate(id, c, before);
      previous := None;
      if capacity > 0 {
        previous := Cache(e, id, before);
      }
      entered := Now();
      k := MakeRoom(entered);
    }

    /** Evicts from the old end of the LRU list until the charges fit or nothing is left there. */
    method MakeRoom(ghost entered: Counts) returns (ghost k: nat)
      requires Valid() && Now() == entered
      modifies this, table
      ensures Valid() && table.ids == old(table.ids) && charge == old(charge) && k <= |entered.lru|
      ensures lru == entered.lru[k..] && inUse == entered.inUse && clients == entered.clients
      ensures deleted == entered.deleted + entered.lru[..k]
      ensures usage <= capacity || lru == []
      ensures k > 0 ==> usage + ChargeOf(charge, entered.lru[k - 1]) > capacity
      ensures forall h: nat :: h in table.Contents() <==> h in old(table.Contents()) && h !in entered.lru[..k]
    {
      hide Valid, ChargeOf, Without, Members;
      k := 0;
      GuardMeans();
      while usage > capacity && next[LRU] != LRU
        invariant Valid() && k <= |entered.lru| && LRU < |next| && (next[LRU] == LRU <==> lru == [])
        invariant lru == entered.lru[k..] && deleted == entered.deleted + entered.lru[..k]
        invariant inUse == entered.inUse && clients == entered.clients
        invariant table.ids == old(table.ids) && charge == old(charge)
        invariant k > 0 ==> usage + ChargeOf(charge, entered.lru[k - 1]) > capacity
        invariant forall h: nat :: h in table.Contents() <==> h in old(table.Contents()) && h !in entered.lru[..k]
        decreases |lru|
      {
        EvictOldest();
        GuardMeans();
        NextEvicted(entered.lru, k);
        k := k + 1;
      }
    }

    method Cache(e: nat, id: Id, ghost before: Counts) returns (ghost previous: Option<nat>)
      requires Valid() && capacity > 0 && Consistent(before, LRU) && Now() == Created(before, false) && e == |before.refs| < |next|
      requires HasId(table.ids, e, id)
      modifies this, table
      ensures Valid() && charge == old(charge) && table.ids == old(table.ids)
      ensures Answers(table.ids, old(table.Contents()), id, previous) && Entered(before, previous, Now())
      ensures forall h: nat :: h in table.Contents() <==> h == e || (h in old(table.Contents()) && !HasId(table.ids, h, id))
    {
      hide HandleTable.Valid, Rings, Charges, Without, Distinct, Members, Placed;
      OneHandlePerId(id);
      AddToCache(e, before);
      var old_ := table.Insert(e);
      previous := old_;
      var erased := FinishErase(old_);
    }

    // ----- The end -----

    /** The destructor, when no client holds a cached handle: what is left in the cache is deleted. */
    method Destroy()
      requires Valid() && inUse == []
      modifies this
      ensures deleted == old(deleted) + old(lru) && Distinct(deleted)
      ensures forall e: nat :: IsHandleOf(old(Now()), e) && old(clients)[e] == 0 ==> e in deleted
    {
      hide HandleTable.Valid, Members, Without, Sum, IsRing, Distinct;
      Unused(Now());
      OneAfterTheOther(0);
      var e := next[LRU];
      ghost var i: nat := 0;
      while e != LRU
        invariant i <= |lru| && lru == old(lru) && next == old(next) && prev == old(prev) && e == NodeAt(LRU, lru, i + 1)
        invariant deleted == old(deleted) + lru[..i] && |refs| == |inCache| == |next| && IsRing(next, prev, LRU, lru)
        invariant forall j :: i <= j < |lru| ==> lru[j] < |refs| && refs[lru[j]] == 1
        decreases |lru| - i
      {
        OneAfterTheOther(i + 1);
        OthersDiffer(LRU, lru, i);
        var after := next[e];
        inCache := inCache[e := false];
        refs := refs[e := refs[e] - 1];
        if refs[e] == 0 {
          deleted := deleted + [e];
        }
        e, i := after, i + 1;
      }
      assert lru[..i] == lru;
    }

    lemma OneAfterTheOther(i: nat)
      requires IsRing(next, prev, LRU, lru) && i <= |lru|
      ensures NodeAt(LRU, lru, i) < |next| && next[NodeAt(LRU, lru, i)] == NodeAt(LRU, lru, i + 1)
      ensures NodeAt(LRU, lru, i + 1) == LRU <==> i == |lru|
    {
      assert Joint(next, prev, LRU, lru, i);
      if i < |lru| { assert lru[i] in lru; }
    }

    lemma OthersDiffer(head: nat, list: seq<nat>, i: nat)
      requires IsRing(next, prev, head, list) && i < |list|
      ensures forall j :: 0 <= j < |list| && j != i ==> list[j] != list[i]
    {
      forall j | 0 <= j < |list| && j != i
        ensures list[j] != list[i]
      {
        NodesDiffer(head, list, i + 1, j + 1);
      }
    }

    lemma Unused(c: Counts)
      requires Consistent(c, LRU) && c.inUse == []
      ensures forall e: nat :: IsHandleOf(c, e) && c.clients[e] == 0 ==> e in c.deleted + c.lru
      ensures Distinct(c.deleted + c.lru)
      ensures forall j :: 0 <= j < |c.lru| ==> c.lru[j] < |c.refs| && c.refs[c.lru[j]] == 1
    {
      forall e: nat | IsHandleOf(c, e) && c.clients[e] == 0
        ensures e in c.deleted + c.lru
      {
        assert Placed(c, e);
      }
      forall j | 0 <= j < |c.lru|
        ensures c.lru[j] < |c.refs| && c.refs[c.lru[j]] == 1 && c.lru[j] !in c.deleted
      {
        assert c.lru[j] in c.lru;
        assert IsHandleOf(c, c.lru[j]) && Placed(c, c.lru[j]);
      }
    }
  }
}
