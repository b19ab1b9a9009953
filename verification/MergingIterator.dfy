/** The n-way merging iterator: a cursor over the sorted merge of its children. */
module MergingIteration {
  import opened ByteOrder
  import opened DbFormat

  datatype Direction = Forward | Reverse

  /** A sorted run all of whose entries are in `merged`. */
  ghost predicate SubRun(merged: seq<Entry>, run: seq<Entry>) {
    Sorted(run) && forall e :: e in run ==> e in merged
  }

  ghost predicate Covered(merged: seq<Entry>, runs: seq<seq<Entry>>) {
    forall e :: e in merged ==> exists i :: 0 <= i < |runs| && e in runs[i]
  }

  ghost predicate RunsApart(runs: seq<seq<Entry>>) {
    forall i, j, e :: 0 <= i < |runs| && 0 <= j < |runs| && e in runs[i] && e in runs[j] ==> i == j
  }

  /** `merged` is the sorted merge of runs that share no entry. */
  ghost predicate IsMerge(merged: seq<Entry>, runs: seq<seq<Entry>>) {
    && Sorted(merged)
    && (forall i :: 0 <= i < |runs| ==> SubRun(merged, runs[i]))
    && Covered(merged, runs)
    && RunsApart(runs)
  }

  lemma SortedIndex(es: seq<Entry>, p: nat, q: nat)
    requires Sorted(es) && p < |es| && q < |es|
    ensures KeyLt(es[p].key, es[q].key) <==> p < q
    ensures es[p].key == es[q].key <==> p == q
  {
  }

  lemma SeekIndexFits(es: seq<Entry>, k: InternalKey, p: nat)
    requires Sorted(es) && p < |es|
    ensures p < SeekIndex(es, k) <==> KeyLt(es[p].key, k)
  {
    var n := SeekIndex(es, k);
    if n < |es| {
      SortedIndex(es, n, p);
    }
  }

  lemma PlaceOf(merged: seq<Entry>, run: seq<Entry>, p: nat) returns (q: nat)
    requires SubRun(merged, run) && p < |run|
    ensures q < |merged| && merged[q] == run[p]
  {
    assert run[p] in merged;
    q :| 0 <= q < |merged| && merged[q] == run[p];
  }

  /** How many entries of the run come before place `m` of the merge. */
  ghost function Below(merged: seq<Entry>, run: seq<Entry>, m: nat): (n: nat)
    ensures n <= |run|
  {
    if m < |merged| then SeekIndex(run, merged[m].key) else |run|
  }

  lemma BelowMeans(merged: seq<Entry>, run: seq<Entry>, m: nat, p: nat, q: nat)
    requires Sorted(merged) && Sorted(run) && m <= |merged| && p < |run| && q < |merged| && merged[q] == run[p]
    ensures p < Below(merged, run, m) <==> q < m
  {
    if m < |merged| {
      SeekIndexFits(run, merged[m].key, p);
      SortedIndex(merged, q, m);
    }
  }

  /** An entry at place `m` is the first of its run that is not before `m`. */
  lemma BelowOwn(merged: seq<Entry>, run: seq<Entry>, m: nat, p: nat)
    requires Sorted(merged) && SubRun(merged, run) && p < |run| && m < |merged| && run[p] == merged[m]
    ensures Below(merged, run, m) == p
  {
    BelowMeans(merged, run, m, p, m);
    var n := Below(merged, run, m);
    var q := PlaceOf(merged, run, n);
    BelowMeans(merged, run, m, n, q);
    SortedIndex(run, n, p);
    SortedIndex(merged, m, q);
  }

  lemma Owner(merged: seq<Entry>, runs: seq<seq<Entry>>, m: nat) returns (i: nat)
    requires IsMerge(merged, runs) && m < |merged|
    ensures i < |runs| && Below(merged, runs[i], m) < |runs[i]| && runs[i][Below(merged, runs[i], m)] == merged[m]
  {
    assert merged[m] in merged;
    var j :| 0 <= j < |runs| && merged[m] in runs[j];
    i := j;
    var p :| 0 <= p < |runs[i]| && runs[i][p] == merged[m];
    BelowOwn(merged, runs[i], m, p);
  }

  /** One place further, the run that owns the place has one more entry behind it and the others none. */
  lemma BelowStep(merged: seq<Entry>, run: seq<Entry>, m: nat)
    requires Sorted(merged) && SubRun(merged, run) && m < |merged|
    ensures var n := Below(merged, run, m);
            Below(merged, run, m + 1) == if n < |run| && run[n] == merged[m] then n + 1 else n
  {
    var n, n' := Below(merged, run, m), Below(merged, run, m + 1);
    if n < |run| { BelowStepOne(merged, run, m, n); }
    if n + 1 < |run| {
      BelowStepOne(merged, run, m, n + 1);
      SortedIndex(run, n, n + 1);
    }
    if 0 < n { BelowStepOne(merged, run, m, n - 1); }
  }

  lemma BelowStepOne(merged: seq<Entry>, run: seq<Entry>, m: nat, p: nat)
    requires Sorted(merged) && SubRun(merged, run) && m < |merged| && p < |run|
    ensures p < Below(merged, run, m + 1) <==> p < Below(merged, run, m) || run[p] == merged[m]
  {
    var q := PlaceOf(merged, run, p);
    BelowMeans(merged, run, m, p, q);
    BelowMeans(merged, run, m + 1, p, q);
    SortedIndex(merged, q, m);
  }

  lemma LastOwner(merged: seq<Entry>, runs: seq<seq<Entry>>, m: nat) returns (i: nat)
    requires IsMerge(merged, runs) && 0 < m <= |merged|
    ensures i < |runs| && 0 < Below(merged, runs[i], m) && runs[i][Below(merged, runs[i], m) - 1] == merged[m - 1]
  {
    i := Owner(merged, runs, m - 1);
    assert SubRun(merged, runs[i]);
    BelowStep(merged, runs[i], m - 1);
  }

  lemma BelowFirst(merged: seq<Entry>, run: seq<Entry>)
    requires Sorted(merged) && SubRun(merged, run)
    ensures Below(merged, run, 0) == 0
  {
    if |run| > 0 {
      var q := PlaceOf(merged, run, 0);
      BelowMeans(merged, run, 0, 0, q);
    }
  }

  lemma BelowSeek(merged: seq<Entry>, run: seq<Entry>, target: InternalKey)
    requires Sorted(merged) && SubRun(merged, run)
    ensures SeekIndex(run, target) == Below(merged, run, SeekIndex(merged, target))
  {
    var m := SeekIndex(merged, target);
    var n, b := SeekIndex(run, target), Below(merged, run, m);
    if n < |run| { SeekBothSides(merged, run, target, n); }
    if b < |run| { SeekBothSides(merged, run, target, b); }
  }

  lemma SeekBothSides(merged: seq<Entry>, run: seq<Entry>, target: InternalKey, p: nat)
    requires Sorted(merged) && SubRun(merged, run) && p < |run|
    ensures p < SeekIndex(run, target) <==> p < Below(merged, run, SeekIndex(merged, target))
  {
    var q := PlaceOf(merged, run, p);
    SeekIndexFits(run, target, p);
    SeekIndexFits(merged, target, q);
    BelowMeans(merged, run, SeekIndex(merged, target), p, q);
  }

  class MergingIterator {
    const runs: seq<seq<Entry>>
    const pos: array<nat>            // the children; |runs[i]| when child i is not valid
    var current: nat                 // |runs| when there is none
    var direction: Direction
    ghost const merged: seq<Entry>
    ghost var at: nat                // the place in `merged`; |merged| when not valid

    /** Every child stands at its first entry from place `m` of the merge on. */
    ghost predicate AllFrom(m: nat)
      requires pos.Length == |runs|
      reads pos
    {
      forall i :: 0 <= i < |runs| ==> pos[i] == Below(merged, runs[i], m)
    }

    /** The index of the last entry of run `i` before place `m`; not valid when there is none. */
    ghost function Prior(i: nat, m: nat): nat
      requires i < |runs|
    {
      var n := Below(merged, runs[i], m);
      if n == 0 then |runs[i]| else n - 1
    }

    /** Every child except `skip` stands at its last entry before place `m`. */
    ghost predicate AllBefore(m: nat, skip: nat)
      requires pos.Length == |runs|
      reads pos
    {
      forall i :: 0 <= i < |runs| && i != skip ==> pos[i] == Prior(i, m)
    }

    ghost predicate Valid()
      reads this, pos
    {
      && IsMerge(merged, runs) && pos.Length == |runs|
      && (forall i :: 0 <= i < |runs| ==> pos[i] <= |runs[i]|)
      && at <= |merged| && current <= |runs|
      && (at == |merged| <==> current == |runs|)
      && (current < |runs| ==>
            && pos[current] < |runs[current]| && runs[current][pos[current]] == merged[at]
            && if direction == Forward then AllFrom(at) else AllBefore(at, current))
    }

    constructor (runs: seq<seq<Entry>>, ghost merged: seq<Entry>)
      requires IsMerge(merged, runs)
      ensures Valid() && fresh(pos) && this.runs == runs && this.merged == merged && at == |merged|
    {
      this.runs := runs;
      this.merged := merged;
      pos := new nat[|runs|](i requires 0 <= i < |runs| => |runs[i]|);
      current := |runs|;
      direction := Forward;
      at := |merged|;
    }

    /** Valid() of the iterator. */
    predicate OnEntry()
      reads this
    {
      current < |runs|
    }

    function Key(): (k: InternalKey)
      requires Valid() && OnEntry()
      reads this, pos
      ensures k == merged[at].key
    {
      runs[current][pos[current]].key
    }

    function Value(): (v: Bytes)
      requires Valid() && OnEntry()
      reads this, pos
      ensures v == merged[at].value
    {
      runs[current][pos[current]].value
    }

    lemma Facts()
      requires Valid()
      ensures Sorted(merged) && at <= |merged| && (OnEntry() <==> at < |merged|)
    {
    }

    // ----- Choosing the current child -----

    /** `c` is the valid child with the smallest key, if any is valid. */
    ghost predicate IsSmallestChild(c: nat)
      requires pos.Length == |runs| && forall i :: 0 <= i < |runs| ==> pos[i] <= |runs[i]|
      reads pos
    {
      && c <= |runs|
      && (c == |runs| ==> forall i :: 0 <= i < |runs| ==> pos[i] == |runs[i]|)
      && (c < |runs| ==> pos[c] < |runs[c]|)
      && (c < |runs| ==> forall i :: 0 <= i < |runs| && pos[i] < |runs[i]| ==> !KeyLt(runs[i][pos[i]].key, runs[c][pos[c]].key))
    }

    ghost predicate IsLargestChild(c: nat)
      requires pos.Length == |runs| && forall i :: 0 <= i < |runs| ==> pos[i] <= |runs[i]|
      reads pos
    {
      && c <= |runs|
      && (c == |runs| ==> forall i :: 0 <= i < |runs| ==> pos[i] == |runs[i]|)
      && (c < |runs| ==> pos[c] < |runs[c]|)
      && (c < |runs| ==> forall i :: 0 <= i < |runs| && pos[i] < |runs[i]| ==> !KeyLt(runs[c][pos[c]].key, runs[i][pos[i]].key))
    }

    method FindSmallest()
      requires pos.Length == |runs| && forall i :: 0 <= i < |runs| ==> pos[i] <= |runs[i]|
      modifies this`current
      ensures IsSmallestChild(current)
    {
      current := |runs|;
      for i := 0 to |runs|
        invariant current == |runs| || current < i
        invariant current == |runs| ==> forall j :: 0 <= j < i ==> pos[j] == |runs[j]|
        invariant current < |runs| ==> pos[current] < |runs[current]|
        invariant current < |runs| ==>
                    forall j :: 0 <= j < i && pos[j] < |runs[j]| ==> !KeyLt(runs[j][pos[j]].key, runs[current][pos[current]].key)
      {
        if pos[i] < |runs[i]| {
          if current == |runs| {
            current := i;
          } else if CompareKeys(runs[i][pos[i]].key, runs[current][pos[current]].key) < 0 {
            current := i;
          }
        }
      }
    }

    method FindLargest()
      requires pos.Length == |runs| && forall i :: 0 <= i < |runs| ==> pos[i] <= |runs[i]|
      modifies this`current
      ensures IsLargestChild(current)
    {
      current := |runs|;
      for i := |runs| downto 0
        invariant current == |runs| || i <= current
        invariant current <= |runs|
        invariant current == |runs| ==> forall j :: i <= j < |runs| ==> pos[j] == |runs[j]|
        invariant current < |runs| ==> pos[current] < |runs[current]|
        invariant current < |runs| ==>
                    forall j :: i <= j < |runs| && pos[j] < |runs[j]| ==> !KeyLt(runs[current][pos[current]].key, runs[j][pos[j]].key)
      {
        if pos[i] < |runs[i]| {
          if current == |runs| {
            current := i;
          } else if CompareKeys(runs[i][pos[i]].key, runs[current][pos[current]].key) > 0 {
            current := i;
          }
        }
      }
    }

    ghost predicate Shape()
      reads pos
    {
      IsMerge(merged, runs) && pos.Length == |runs| && forall i :: 0 <= i < |runs| ==> pos[i] <= |runs[i]|
    }

    /** Of two runs' entries with different places, the keys are ordered like the places. */
    lemma KeysOrderPlaces(i: nat, p: nat, j: nat, q: nat, a: nat, b: nat)
      requires IsMerge(merged, runs) && i < |runs| && j < |runs| && p < |runs[i]| && q < |runs[j]|
      requires a < |merged| && b < |merged| && merged[a] == runs[i][p] && merged[b] == runs[j][q]
      ensures KeyLt(runs[i][p].key, runs[j][q].key) <==> a < b
      ensures a == b ==> i == j
    {
      SortedIndex(merged, a, b);
      assert runs[i][p] in runs[i] && runs[j][q] in runs[j];
    }

    lemma SmallestIsNext(m: nat)
      requires Shape() && m <= |merged| && AllFrom(m) && IsSmallestChild(current)
      ensures current == |runs| <==> m == |merged|
      ensures current < |runs| ==> runs[current][pos[current]] == merged[m]
    {
      if m < |merged| {
        var i := Owner(merged, runs, m);
        assert pos[i] < |runs[i]|;
        var c := current;
        assert SubRun(merged, runs[c]);
        var q := PlaceOf(merged, runs[c], pos[c]);
        BelowMeans(merged, runs[c], m, pos[c], q);
        KeysOrderPlaces(i, pos[i], c, pos[c], m, q);
      }
    }

    lemma LargestOwns(m: nat, i: nat)
      requires Shape() && 0 < m <= |merged| && AllBefore(m, |runs|) && IsLargestChild(current)
      requires i < |runs| && pos[i] < |runs[i]| && runs[i][pos[i]] == merged[m - 1]
      ensures current == i
    {
      var c := current;
      assert SubRun(merged, runs[c]);
      var q := PlaceOf(merged, runs[c], pos[c]);
      BelowMeans(merged, runs[c], m, pos[c], q);
      KeysOrderPlaces(c, pos[c], i, pos[i], q, m - 1);
    }

    lemma NothingBefore()
      requires Shape() && AllBefore(0, |runs|)
      ensures forall i :: 0 <= i < |runs| ==> pos[i] == |runs[i]|
    {
      forall i | 0 <= i < |runs|
        ensures pos[i] == |runs[i]|
      {
        assert SubRun(merged, runs[i]);
        BelowFirst(merged, runs[i]);
      }
    }

    lemma LargestIsPrevious(m: nat)
      requires Shape() && 0 < m <= |merged| && AllBefore(m, |runs|) && IsLargestChild(current)
      ensures current < |runs| && pos[current] < |runs[current]| && runs[current][pos[current]] == merged[m - 1]
    {
      var i := OwnerStandsBack(m);
      LargestOwns(m, i);
    }

    lemma OwnerStandsBack(m: nat) returns (i: nat)
      requires Shape() && 0 < m <= |merged| && AllBefore(m, |runs|)
      ensures i < |runs| && pos[i] < |runs[i]| && runs[i][pos[i]] == merged[m - 1]
    {
      i := LastOwner(merged, runs, m);
      assert pos[i] == Prior(i, m);
    }

    lemma OthersStepBack(m: nat)
      requires Shape() && 0 < m <= |merged| && AllBefore(m, |runs|)
      requires current < |runs| && pos[current] < |runs[current]| && runs[current][pos[current]] == merged[m - 1]
      ensures AllBefore(m - 1, current)
    {
      forall j | 0 <= j < |runs| && j != current
        ensures pos[j] == Prior(j, m - 1)
      {
        BelowStays(j, m - 1);
      }
    }

    lemma BelowStays(j: nat, m: nat)
      requires Shape() && m < |merged| && j < |runs| && j != current
      requires current < |runs| && pos[current] < |runs[current]| && runs[current][pos[current]] == merged[m]
      ensures Below(merged, runs[j], m + 1) == Below(merged, runs[j], m)
    {
      assert SubRun(merged, runs[j]);
      BelowStep(merged, runs[j], m);
      NotTheOwner(j, m);
    }

    lemma NotTheOwner(j: nat, m: nat)
      requires Shape() && m < |merged| && j < |runs| && j != current
      requires current < |runs| && pos[current] < |runs[current]| && runs[current][pos[current]] == merged[m]
      ensures forall p :: 0 <= p < |runs[j]| ==> runs[j][p] != merged[m]
    {
      assert merged[m] in runs[current];
      assert merged[m] !in runs[j];
    }

    // ----- Cursor operations -----

    /** FindSmallest with every child at or after place `m`. */
    method FinishForward(ghost m: nat)
      requires Shape() && m <= |merged| && AllFrom(m)
      modifies this`current, this`direction, this`at
      ensures Valid() && at == m && direction == Forward
    {
      FindSmallest();
      direction := Forward;
      SmallestIsNext(m);
      at := m;
    }

    /** FindLargest with every child before place `m`. */
    method FinishReverse(ghost m: nat)
      requires Shape() && m <= |merged| && AllBefore(m, |runs|)
      modifies this`current, this`direction, this`at
      ensures Valid() && at == (if m == 0 then |merged| else m - 1) && direction == Reverse
    {
      FindLargest();
      direction := Reverse;
      if m == 0 {
        NothingBefore();
        at := |merged|;
      } else {
        LargestIsPrevious(m);
        OthersStepBack(m);
        at := m - 1;
      }
    }

    method SeekToFirst()
      requires Valid()
      modifies this`current, this`direction, this`at, pos
      ensures Valid() && at == 0
    {
      for i := 0 to |runs|
        invariant forall j :: 0 <= j < i ==> pos[j] == 0
      {
        pos[i] := 0;
      }
      forall i | 0 <= i < |runs|
        ensures pos[i] == Below(merged, runs[i], 0)
      {
        assert SubRun(merged, runs[i]);
        BelowFirst(merged, runs[i]);
      }
      FinishForward(0);
    }

    method Seek(target: InternalKey)
      requires Valid()
      modifies this`current, this`direction, this`at, pos
      ensures Valid() && at == SeekIndex(merged, target)
    {
      for i := 0 to |runs|
        invariant forall j :: 0 <= j < i ==> pos[j] == SeekIndex(runs[j], target)
      {
        pos[i] := SeekIndex(runs[i], target);
      }
      ghost var m := SeekIndex(merged, target);
      forall i | 0 <= i < |runs|
        ensures pos[i] == Below(merged, runs[i], m)
      {
        assert SubRun(merged, runs[i]);
        BelowSeek(merged, runs[i], target);
      }
      FinishForward(m);
    }

    method SeekToLast()
      requires Valid()
      modifies this`current, this`direction, this`at, pos
      ensures Valid() && at == if |merged| == 0 then 0 else |merged| - 1
    {
      for i := 0 to |runs|
        invariant forall j :: 0 <= j < i ==> pos[j] == Prior(j, |merged|)
      {
        pos[i] := if |runs[i]| == 0 then 0 else |runs[i]| - 1;
      }
      FinishReverse(|merged|);
    }

    lemma CurrentStands(m: nat)
      requires Shape() && m < |merged| && current < |runs|
      requires pos[current] < |runs[current]| && runs[current][pos[current]] == merged[m]
      ensures pos[current] == Below(merged, runs[current], m)
    {
      assert SubRun(merged, runs[current]);
      BelowOwn(merged, runs[current], m, pos[current]);
    }

    /** Child `i` goes to its first entry after `key`. */
    method SeekPast(i: nat, key: InternalKey)
      requires i < |runs| && pos.Length == |runs|
      modifies pos
      ensures pos[i] == Past(runs[i], key)
      ensures forall j :: 0 <= j < |runs| && j != i ==> pos[j] == old(pos[j])
    {
      pos[i] := SeekIndex(runs[i], key);
      if pos[i] < |runs[i]| && CompareKeys(key, runs[i][pos[i]].key) == 0 {
        pos[i] := pos[i] + 1;
      }
    }

    function Past(es: seq<Entry>, key: InternalKey): nat {
      var n := SeekIndex(es, key);
      if n < |es| && es[n].key == key then n + 1 else n
    }

    /** The direction switch of Next: every other child goes to its first entry after the current key. */
    method PositionAfter()
      requires Valid() && at < |merged| && direction == Reverse
      modifies this`direction, pos
      ensures Valid() && direction == Forward
    {
      CurrentStands(at);
      var key := runs[current][pos[current]].key;
      for i := 0 to |runs|
        invariant forall j :: 0 <= j < i && j != current ==> pos[j] == Past(runs[j], key)
        invariant pos[current] == old(pos[current])
      {
        if i != current {
          SeekPast(i, key);
        }
      }
      OthersArePast(key);
      direction := Forward;
    }

    lemma OthersArePast(key: InternalKey)
      requires IsMerge(merged, runs) && at < |merged| && key == merged[at].key && pos.Length == |runs|
      requires current < |runs| && pos[current] < |runs[current]| && runs[current][pos[current]] == merged[at]
      ensures forall j :: 0 <= j < |runs| && j != current ==> Past(runs[j], key) == Below(merged, runs[j], at)
    {
      forall j | 0 <= j < |runs| && j != current
        ensures Past(runs[j], key) == Below(merged, runs[j], at)
      {
        var n := SeekIndex(runs[j], key);
        if n < |runs[j]| {
          assert SubRun(merged, runs[j]);
          var q := PlaceOf(merged, runs[j], n);
          KeysOrderPlaces(current, pos[current], j, n, at, q);
          SortedIndex(merged, q, at);
        }
      }
    }

    method Next()
      requires Valid() && at < |merged|
      modifies this`current, this`direction, this`at, pos
      ensures Valid() && at == old(at) + 1
    {
      if direction != Forward {
        PositionAfter();
      }
      StepCurrent();
      FinishForward(at + 1);
    }

    /** The current child moves on; all children then stand at the next place. */
    method StepCurrent()
      requires Valid() && at < |merged| && direction == Forward
      modifies pos
      ensures Shape() && AllFrom(at + 1)
    {
      AdvanceCurrent(at);
      pos[current] := pos[current] + 1;
    }

    /** Moving the current child one entry on brings all children to the next place. */
    lemma AdvanceCurrent(m: nat)
      requires Shape() && m < |merged| && AllFrom(m)
      requires current < |runs| && pos[current] < |runs[current]| && runs[current][pos[current]] == merged[m]
      ensures forall i :: 0 <= i < |runs| ==> Below(merged, runs[i], m + 1) == if i == current then pos[i] + 1 else pos[i]
    {
      forall i | 0 <= i < |runs|
        ensures Below(merged, runs[i], m + 1) == if i == current then pos[i] + 1 else pos[i]
      {
        assert SubRun(merged, runs[i]);
        if i == current { BelowOwn(merged, runs[i], m, pos[i]); BelowStep(merged, runs[i], m); } else { BelowStays(i, m); }
      }
    }

    /** The direction switch of Prev: every other child goes to its last entry before the current key. */
    method PositionBefore()
      requires Valid() && at < |merged| && direction == Forward
      modifies this`direction, pos
      ensures Valid() && direction == Reverse
    {
      var key := runs[current][pos[current]].key;
      for i := 0 to |runs|
        invariant forall j :: 0 <= j < i && j != current ==> pos[j] == Prior(j, at)
        invariant forall j :: i <= j < |runs| || j == current ==> 0 <= j < |runs| ==> pos[j] == old(pos[j])
      {
        if i != current {
          pos[i] := SeekIndex(runs[i], key);
          if pos[i] < |runs[i]| {
            pos[i] := if pos[i] == 0 then |runs[i]| else pos[i] - 1;
          } else {
            pos[i] := if |runs[i]| == 0 then 0 else |runs[i]| - 1;
          }
        }
      }
      direction := Reverse;
    }

    method Prev()
      requires Valid() && at < |merged|
      modifies this`current, this`direction, this`at, pos
      ensures Valid() && at == if old(at) == 0 then |merged| else old(at) - 1
    {
      if direction != Reverse {
        PositionBefore();
      }
      StepCurrentBack(at);
      FinishReverse(at);
    }

    /** The current child steps back; all children then stand before the current place. */
    method StepCurrentBack(ghost m: nat)
      requires Shape() && m < |merged| && current < |runs| && AllBefore(m, current)
      requires pos[current] < |runs[current]| && runs[current][pos[current]] == merged[m]
      modifies pos
      ensures Shape() && AllBefore(m, |runs|)
    {
      CurrentStands(m);
      pos[current] := if pos[current] == 0 then |runs[current]| else pos[current] - 1;
    }
  }
}
