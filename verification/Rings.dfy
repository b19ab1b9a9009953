/** Circular lists, linked in both directions, with a dummy head. Nodes are indexes into two arrays of links. */
module Rings {
  ghost predicate Distinct(list: seq<nat>) {
    forall i, j :: 0 <= i < j < |list| ==> list[i] != list[j]
  }

  /** The `i`-th node of a ring that starts and ends at its head. */
  function NodeAt(head: nat, list: seq<nat>, i: nat): nat {
    if 0 < i <= |list| then list[i - 1] else head
  }

  ghost predicate Joint(next: seq<nat>, prev: seq<nat>, head: nat, list: seq<nat>, i: nat) {
    var a, b := NodeAt(head, list, i), NodeAt(head, list, i + 1);
    a < |next| && b < |prev| && next[a] == b && prev[b] == a
  }

  /** The links in both directions run through `list`, from its head and back to it. */
  ghost predicate IsRing(next: seq<nat>, prev: seq<nat>, head: nat, list: seq<nat>) {
    && |next| == |prev| && head < |next| && head !in list && Distinct(list)
    && (forall e :: e in list ==> e < |next|)
    && forall i: nat :: i <= |list| ==> Joint(next, prev, head, list, i)
  }

  lemma NodesDiffer(head: nat, list: seq<nat>, i: nat, j: nat)
    requires Distinct(list) && head !in list && i <= |list| && j <= |list| && i != j
    ensures NodeAt(head, list, i) != NodeAt(head, list, j)
  {
    if 0 < i && 0 < j {
      assert i < j ==> list[i - 1] != list[j - 1];
      assert j < i ==> list[j - 1] != list[i - 1];
    }
  }

  /** The list without `e`. */
  ghost function Without(list: seq<nat>, e: nat): (r: seq<nat>)
    ensures e !in list ==> r == list
    ensures forall x :: x in r ==> x in list
  {
    if list == [] then []
    else
      var n := |list| - 1;
      if list[n] == e then list[..n] else Without(list[..n], e) + [list[n]]
  }

  lemma {:induction false} WithoutIs(list: seq<nat>, k: nat)
    requires Distinct(list) && k < |list|
    ensures Without(list, list[k]) == list[..k] + list[k + 1..]
  {
    var n := |list| - 1;
    if k < n {
      WithoutIs(list[..n], k);
      assert list[..n][k + 1..] + [list[n]] == list[k + 1..];
      assert list[..n][..k] == list[..k];
    }
  }

  lemma {:induction false} WithoutMembers(list: seq<nat>, e: nat)
    requires Distinct(list)
    ensures Distinct(Without(list, e)) && forall x :: x in Without(list, e) <==> x in list && x != e
  {
    if e in list {
      var k :| 0 <= k < |list| && list[k] == e;
      WithoutIs(list, k);
      var rest := Without(list, e);
      assert forall i :: 0 <= i < |rest| ==> rest[i] == list[if i < k then i else i + 1];
      forall x | x in list && x != e
        ensures x in rest
      {
        var i :| 0 <= i < |list| && list[i] == x;
        assert rest[if i < k then i else i - 1] == x;
      }
    }
  }

  /** The two stores of LRU_Remove. */
  lemma {:induction false} RingLosesOne(next: seq<nat>, prev: seq<nat>, head: nat, list: seq<nat>, k: nat)
    requires IsRing(next, prev, head, list) && k < |list|
    ensures list[k] < |next| && next[list[k]] < |next| && prev[list[k]] < |next|
    ensures next[list[k]] != list[k]
    ensures var e := list[k]; IsRing(next[prev[e] := next[e]], prev[next[e] := prev[e]], head, list[..k] + list[k + 1..])
  {
    hide Distinct;
    var e := list[k];
    assert Joint(next, prev, head, list, k) && Joint(next, prev, head, list, k + 1);
    var rest := list[..k] + list[k + 1..];
    var next1, prev1 := next[prev[e] := next[e]], prev[next[e] := prev[e]];
    NextIsOther(head, list, k);
    WithoutIs(list, k);
    WithoutMembers(list, e);
    forall i: nat | i <= |rest|
      ensures Joint(next1, prev1, head, rest, i)
    {
      assert NodeAt(head, rest, i) == NodeAt(head, list, if i <= k then i else i + 1);
      assert NodeAt(head, rest, i + 1) == NodeAt(head, list, if i < k then i + 1 else i + 2);
      JointStays(next, prev, head, list, k, i);
    }
  }

  lemma NextIsOther(head: nat, list: seq<nat>, k: nat)
    requires Distinct(list) && head !in list && k < |list|
    ensures NodeAt(head, list, k + 2) != list[k]
  {
    if k + 1 < |list| { NodesDiffer(head, list, k + 1, k + 2); }
  }

  lemma JointStays(next: seq<nat>, prev: seq<nat>, head: nat, list: seq<nat>, k: nat, i: nat)
    requires IsRing(next, prev, head, list) && k < |list| && i < |list|
    requires list[k] < |next| && next[list[k]] < |next| && prev[list[k]] < |next|
    ensures var e := list[k];
            var next1, prev1 := next[prev[e] := next[e]], prev[next[e] := prev[e]];
            var a, b := NodeAt(head, list, if i <= k then i else i + 1), NodeAt(head, list, if i < k then i + 1 else i + 2);
            a < |next1| && b < |prev1| && next1[a] == b && prev1[b] == a
  {
    hide Distinct;
    assert Joint(next, prev, head, list, k) && Joint(next, prev, head, list, k + 1);
    if i < k {
      assert Joint(next, prev, head, list, i);
      NodesDiffer(head, list, i, k);
      if k + 2 <= |list| { NodesDiffer(head, list, i + 1, k + 2); } else { NodesDiffer(head, list, i + 1, 0); }
    } else if i > k {
      assert Joint(next, prev, head, list, i + 1);
      NodesDiffer(head, list, i + 1, k);
      if i + 2 <= |list| { NodesDiffer(head, list, i + 2, k + 2); } else { NodesDiffer(head, list, 0, k + 2); }
    }
  }

  /** The four stores of LRU_Append. */
  lemma {:induction false} RingGainsOne(next: seq<nat>, prev: seq<nat>, head: nat, list: seq<nat>, e: nat)
    requires IsRing(next, prev, head, list) && e < |next| && e != head && e !in list
    ensures prev[head] < |next| && prev[head] != e
    ensures IsRing(next[e := head][prev[head] := e], prev[e := prev[head]][head := e], head, list + [e])
  {
    hide Distinct;
    var n, last := |list|, NodeAt(head, list, |list|);
    assert Joint(next, prev, head, list, n);
    assert last == head || last in list;
    var more := list + [e];
    var next1, prev1 := next[e := head][last := e], prev[e := last][head := e];
    DistinctGrows(list, e);
    forall i: nat | i <= |more|
      ensures Joint(next1, prev1, head, more, i)
    {
      assert i <= n ==> NodeAt(head, more, i) == NodeAt(head, list, i);
      if i < n {
        assert Joint(next, prev, head, list, i);
        assert NodeAt(head, list, i) == head || NodeAt(head, list, i) in list;
        assert NodeAt(head, list, i + 1) in list;
        NodesDiffer(head, list, i, n);
      }
    }
  }

  lemma DistinctGrows(list: seq<nat>, e: nat)
    requires Distinct(list) && e !in list
    ensures Distinct(list + [e])
  {
  }

  /** Stores into nodes of no concern leave a ring alone. */
  lemma {:induction false} RingStays(next: seq<nat>, prev: seq<nat>, next1: seq<nat>, prev1: seq<nat>, head: nat, list: seq<nat>)
    requires IsRing(next, prev, head, list) && |next1| == |prev1| >= |next|
    requires forall x :: x == head || x in list ==> x < |next| && next1[x] == next[x] && prev1[x] == prev[x]
    ensures IsRing(next1, prev1, head, list)
  {
    hide Distinct;
    forall i: nat | i <= |list|
      ensures Joint(next1, prev1, head, list, i)
    {
      assert Joint(next, prev, head, list, i);
      assert NodeAt(head, list, i) == head || NodeAt(head, list, i) in list;
      assert NodeAt(head, list, i + 1) == head || NodeAt(head, list, i + 1) in list;
    }
  }

  lemma {:induction false} DistinctCounts(list: seq<nat>, e: nat)
    requires Distinct(list)
    ensures multiset(list)[e] <= 1
  {
    if list != [] {
      var n := |list| - 1;
      DistinctCounts(list[..n], e);
      assert list == list[..n] + [list[n]];
      if list[n] == e { assert e !in list[..n]; }
    }
  }
}
