/** The list of live snapshots. */
module Snapshots {
  import opened Rings

  const HEAD: nat := 0

  ghost predicate Ordered(numbers: seq<nat>) {
    forall i, j :: 0 <= i < j < |numbers| ==> numbers[i] <= numbers[j]
  }

  /** Snapshots live in an arena; index 0 is the dummy head. */
  class SnapshotList {
    var next: seq<nat>
    var prev: seq<nat>
    var number: seq<nat>
    ghost var list: seq<nat>

    /** The sequence numbers of the live snapshots, in the order of the list. */
    ghost function Numbers(): (r: seq<nat>)
      reads this
      ensures |r| == |list|
    {
      seq(|list|, i requires 0 <= i < |list| reads this => if list[i] < |number| then number[list[i]] else 0)
    }

    ghost predicate Valid()
      reads this
    {
      IsRing(next, prev, HEAD, list) && |number| == |next| && Ordered(Numbers())
    }

    constructor ()
      ensures Valid() && Numbers() == []
    {
      next, prev, number, list := [HEAD], [HEAD], [0], [];
    }

    lemma Ends()
      requires Valid()
      ensures HEAD < |next| == |prev|
      ensures next[HEAD] == (if list == [] then HEAD else list[0]) && prev[HEAD] == (if list == [] then HEAD else list[|list| - 1])
      ensures list != [] ==> list[0] != HEAD && list[|list| - 1] != HEAD && list[0] < |number| && list[|list| - 1] < |number|
    {
      assert Joint(next, prev, HEAD, list, 0) && Joint(next, prev, HEAD, list, |list|);
      if list != [] { assert list[0] in list && list[|list| - 1] in list; }
    }

    method Empty() returns (r: bool)
      requires Valid()
      ensures r <==> Numbers() == []
    {
      Ends();
      r := next[HEAD] == HEAD;
    }

    /** No live snapshot is older. */
    method Oldest() returns (s: nat)
      requires Valid() && Numbers() != []
      ensures s in Numbers() && forall x :: x in Numbers() ==> s <= x
    {
      Ends();
      s := number[next[HEAD]];
      assert s == Numbers()[0];
    }

    method Newest() returns (s: nat)
      requires Valid() && Numbers() != []
      ensures s in Numbers() && forall x :: x in Numbers() ==> x <= s
    {
      Ends();
      s := number[prev[HEAD]];
      assert s == Numbers()[|list| - 1];
    }

    method New(s: nat) returns (snapshot: nat)
      requires Valid() && forall x :: x in Numbers() ==> x <= s
      modifies this
      ensures Valid() && Numbers() == old(Numbers()) + [s] && list == old(list) + [snapshot] && number == old(number) + [s]
    {
      hide IsRing, Ordered;
      ghost var before, list0 := Numbers(), list;
      snapshot := |next|;
      Grow(next + [HEAD], prev + [HEAD]);
      next, prev, number := next + [HEAD], prev + [HEAD], number + [s];
      Appended(snapshot);
      next := next[snapshot := HEAD];
      prev := prev[snapshot := prev[HEAD]];
      next := next[prev[snapshot] := snapshot];
      prev := prev[next[snapshot] := snapshot];
      list := list + [snapshot];
      OrderedAppend(before, s);
      assert Numbers() == before + [s];
    }

    lemma Grow(next1: seq<nat>, prev1: seq<nat>)
      requires IsRing(next, prev, HEAD, list) && next1 == next + [HEAD] && prev1 == prev + [HEAD]
      ensures |next| == |prev| && IsRing(next1, prev1, HEAD, list)
      ensures |next| !in list && HEAD < |next| && forall e :: e in list ==> e < |next|
    {
      RingStays(next, prev, next1, prev1, HEAD, list);
    }

    lemma Appended(e: nat)
      requires IsRing(next, prev, HEAD, list) && e < |next| && e != HEAD && e !in list
      ensures |prev| == |next| && HEAD < |next| && prev[HEAD] < |next| && prev[HEAD] != e
      ensures IsRing(next[e := HEAD][prev[HEAD] := e], prev[e := prev[HEAD]][HEAD := e], HEAD, list + [e])
    {
      RingGainsOne(next, prev, HEAD, list, e);
    }

    lemma OrderedAppend(numbers: seq<nat>, s: nat)
      requires Ordered(numbers) && forall x :: x in numbers ==> x <= s
      ensures Ordered(numbers + [s])
    {
      assert forall i :: 0 <= i < |numbers| ==> numbers[i] in numbers;
    }

    /** The `k`-th snapshot of the list goes. */
    method Delete(snapshot: nat, ghost k: nat)
      requires Valid() && k < |list| && list[k] == snapshot
      modifies this
      ensures Valid() && Numbers() == old(Numbers())[..k] + old(Numbers())[k + 1..] && list == old(list)[..k] + old(list)[k + 1..]
    {
      hide IsRing, Ordered;
      ghost var before := Numbers();
      Removed(k);
      next := next[prev[snapshot] := next[snapshot]];
      prev := prev[next[snapshot] := prev[snapshot]];
      list := list[..k] + list[k + 1..];
      OrderedWithout(before, k);
      assert Numbers() == before[..k] + before[k + 1..];
    }

    lemma Removed(k: nat)
      requires IsRing(next, prev, HEAD, list) && k < |list|
      ensures var e := list[k];
              && e < |next| == |prev| && next[e] < |next| && prev[e] < |next| && next[e] != e && prev[e] != e
              && IsRing(next[prev[e] := next[e]], prev[next[e] := prev[e]], HEAD, list[..k] + list[k + 1..])
    {
      RingLosesOne(next, prev, HEAD, list, k);
      assert Joint(next, prev, HEAD, list, k);
      NodesDiffer(HEAD, list, k, k + 1);
    }

    lemma OrderedWithout(numbers: seq<nat>, k: nat)
      requires Ordered(numbers) && k < |numbers|
      ensures Ordered(numbers[..k] + numbers[k + 1..])
    {
    }
  }
}
