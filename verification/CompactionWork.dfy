/** Running a compaction: merge the inputs, drop what no reader can need, cut the rest into files. */
module CompactionWork {
  import opened ByteOrder
  import opened DbFormat
  import opened Version
  import opened CompactionInputs

  // ----- The merged input -----

  function Merge(a: seq<Entry>, b: seq<Entry>): seq<Entry> {
    if a == [] then b
    else if b == [] then a
    else if CompareKeys(a[0].key, b[0].key) < 0 then [a[0]] + Merge(a[1..], b)
    else [b[0]] + Merge(a, b[1..])
  }

  function MergeFiles(files: seq<FileMeta>): seq<Entry> {
    if files == [] then [] else Merge(files[0].entries, MergeFiles(files[1..]))
  }

  ghost predicate DistinctKeys(a: seq<Entry>, b: seq<Entry>) {
    forall x, y :: x in a && y in b ==> x.key != y.key
  }

  lemma SortedTail(es: seq<Entry>)
    requires Sorted(es) && es != []
    ensures Sorted(es[1..]) && forall x :: x in es[1..] ==> KeyLt(es[0].key, x.key)
    ensures forall x :: x in es <==> x == es[0] || x in es[1..]
  {
    assert es == [es[0]] + es[1..];
  }

  lemma PrependSorted(e: Entry, es: seq<Entry>)
    requires Sorted(es) && forall x :: x in es ==> KeyLt(e.key, x.key)
    ensures Sorted([e] + es)
  {
  }

  lemma {:induction false} MergeIsSorted(a: seq<Entry>, b: seq<Entry>)
    requires Sorted(a) && Sorted(b) && DistinctKeys(a, b)
    ensures Sorted(Merge(a, b))
    ensures forall e :: e in Merge(a, b) <==> e in a || e in b
    decreases |a| + |b|
  {
    if a != [] && b != [] {
      var r := CompareKeys(a[0].key, b[0].key);
      SortedTail(a);
      SortedTail(b);
      if r < 0 {
        MergeIsSorted(a[1..], b);
        PrependSorted(a[0], Merge(a[1..], b));
      } else {
        MergeIsSorted(a, b[1..]);
        PrependSorted(b[0], Merge(a, b[1..]));
      }
    }
  }

  /** No two of the files hold the same internal key. */
  ghost predicate KeysApart(files: seq<FileMeta>) {
    forall i, j :: 0 <= i < j < |files| ==> DistinctKeys(files[i].entries, files[j].entries)
  }

  lemma {:induction false} MergeFilesIsSorted(files: seq<FileMeta>)
    requires KeysApart(files) && forall f :: f in files ==> Sorted(f.entries)
    ensures Sorted(MergeFiles(files))
    ensures forall e :: e in MergeFiles(files) <==> e in FilesEntries(files)
  {
    if files != [] {
      var rest := files[1..];
      assert files == [files[0]] + rest;
      forall i, j | 0 <= i < j < |rest|
        ensures DistinctKeys(rest[i].entries, rest[j].entries)
      {
        assert rest[i] == files[i + 1] && rest[j] == files[j + 1];
      }
      MergeFilesIsSorted(rest);
      forall x, y | x in files[0].entries && y in MergeFiles(rest)
        ensures x.key != y.key
      {
        var f :| f in rest && y in f.entries;
        var j :| 0 <= j < |rest| && rest[j] == f;
        assert DistinctKeys(files[0].entries, files[j + 1].entries);
      }
      MergeIsSorted(files[0].entries, MergeFiles(rest));
    }
  }

  // ----- Which entries survive -----

  /** No file below the output level can hold `user`. */
  ghost predicate BaseLevel(v: Levels, level: nat, user: Bytes) {
    forall lvl, f :: level + 2 <= lvl < NUM_LEVELS && f in v[lvl] ==> !InUserRange(f, user)
  }

  /** Rule (A): a newer version of the same key is already old enough for every snapshot. */
  ghost predicate Hidden(merged: seq<Entry>, i: nat, smallestSnapshot: nat)
    requires i < |merged|
  {
    i > 0 && merged[i - 1].key.user == merged[i].key.user && merged[i - 1].key.sequence <= smallestSnapshot
  }

  /** A deletion marker with nothing below it left to delete. */
  ghost predicate Obsolete(v: Levels, level: nat, e: Entry, smallestSnapshot: nat) {
    e.key.kind.Deletion? && e.key.sequence <= smallestSnapshot && BaseLevel(v, level, e.key.user)
  }

  ghost predicate Dropped(v: Levels, level: nat, merged: seq<Entry>, i: nat, smallestSnapshot: nat)
    requires i < |merged|
  {
    Hidden(merged, i, smallestSnapshot) || Obsolete(v, level, merged[i], smallestSnapshot)
  }

  ghost function Kept(v: Levels, level: nat, merged: seq<Entry>, n: nat, smallestSnapshot: nat): seq<Entry>
    requires n <= |merged|
  {
    if n == 0 then []
    else
      var before := Kept(v, level, merged, n - 1, smallestSnapshot);
      if Dropped(v, level, merged, n - 1, smallestSnapshot) then before else before + [merged[n - 1]]
  }

  lemma {:induction false} KeptMembers(v: Levels, level: nat, merged: seq<Entry>, n: nat, m: nat)
    requires n <= |merged|
    ensures forall e :: e in Kept(v, level, merged, n, m) <==> exists i :: 0 <= i < n && merged[i] == e && !Dropped(v, level, merged, i, m)
  {
    if n > 0 {
      KeptMembers(v, level, merged, n - 1, m);
      forall e | e in Kept(v, level, merged, n, m)
        ensures exists i :: 0 <= i < n && merged[i] == e && !Dropped(v, level, merged, i, m)
      {
        if e in Kept(v, level, merged, n - 1, m) {
          var i :| 0 <= i < n - 1 && merged[i] == e && !Dropped(v, level, merged, i, m);
        } else {
          assert merged[n - 1] == e;
        }
      }
    }
  }

  lemma {:induction false} KeptIsSorted(v: Levels, level: nat, merged: seq<Entry>, n: nat, m: nat)
    requires n <= |merged| && Sorted(merged)
    ensures Sorted(Kept(v, level, merged, n, m))
  {
    if n > 0 {
      KeptIsSorted(v, level, merged, n - 1, m);
      KeptMembers(v, level, merged, n - 1, m);
      AppendSorted(Kept(v, level, merged, n - 1, m), merged[n - 1]);
    }
  }

  lemma AppendSorted(es: seq<Entry>, e: Entry)
    requires Sorted(es) && forall x :: x in es ==> KeyLt(x.key, e.key)
    ensures Sorted(es + [e])
  {
  }

  // ----- The drop rule, with the monotone pointers of IsBaseLevelForKey -----

  class DropRule {
    const v: Levels
    const level: nat
    const smallestSnapshot: nat
    const levelPtrs: array<nat>
    var currentUserKey: Option<Bytes>
    var lastSequenceForKey: nat
    ghost var last: Option<Bytes>  // the user key asked last

    ghost predicate Passed(lvl: nat, n: nat)
      requires lvl < NUM_LEVELS && n <= |v[lvl]|
      reads `last
    {
      forall i :: 0 <= i < n ==> last.Some? && Lt(v[lvl][i].largest.user, last.value)
    }

    ghost predicate Valid()
      reads `last, levelPtrs
    {
      && level + 1 < NUM_LEVELS
      && levelPtrs.Length == NUM_LEVELS
      && (forall lvl :: 0 <= lvl < NUM_LEVELS ==> ValidLevel(lvl, v[lvl]))
      && (forall lvl :: level + 2 <= lvl < NUM_LEVELS ==> levelPtrs[lvl] <= |v[lvl]| && Passed(lvl, levelPtrs[lvl]))
    }

    /** The state after the first `i` entries of `merged`. */
    ghost predicate After(merged: seq<Entry>, i: nat)
      requires i <= |merged|
      reads this
    {
      && (last.Some? ==> i > 0 && Le(last.value, merged[i - 1].key.user))
      && if i == 0 then currentUserKey == None
         else currentUserKey == Some(merged[i - 1].key.user) && lastSequenceForKey == merged[i - 1].key.sequence
    }

    constructor (v: Levels, level: nat, smallestSnapshot: nat)
      requires ValidVersion(v) && level + 1 < NUM_LEVELS
      ensures Valid() && fresh(levelPtrs)
      ensures this.v == v && this.level == level && this.smallestSnapshot == smallestSnapshot
      ensures last == None && currentUserKey == None
    {
      this.v := v;
      this.level := level;
      this.smallestSnapshot := smallestSnapshot;
      currentUserKey := None;
      lastSequenceForKey := MAX_SEQUENCE_NUMBER;
      levelPtrs := new nat[NUM_LEVELS](_ => 0);
      last := None;
    }

    /** Keys must be asked in ascending order. */
    method IsBaseLevelForKey(user: Bytes) returns (r: bool)
      requires Valid()
      requires last.Some? ==> Le(last.value, user)
      modifies this`last, levelPtrs
      ensures Valid() && last == Some(user)
      ensures r <==> BaseLevel(v, level, user)
    {
      last := Some(user);
      for lvl := level + 2 to NUM_LEVELS
        invariant Valid() && last == Some(user)
        invariant forall l, f :: level + 2 <= l < lvl && f in v[l] ==> !InUserRange(f, user)
      {
        var files := v[lvl];
        while levelPtrs[lvl] < |files|
          invariant Valid() && last == Some(user)
          decreases |files| - levelPtrs[lvl]
        {
          var f := files[levelPtrs[lvl]];
          if Compare(user, f.largest.user) <= 0 {
            if Compare(user, f.smallest.user) >= 0 {
              assert f in v[lvl] && InUserRange(f, user);
              return false;
            }
            break;
          }
          levelPtrs[lvl] := levelPtrs[lvl] + 1;
        }
        NoFileHolds(lvl, user);
      }
      return true;
    }

    /** Decides about the next merged entry and remembers it. */
    method ShouldDrop(merged: seq<Entry>, i: nat) returns (drop: bool)
      requires Valid() && i < |merged| && Sorted(merged) && After(merged, i)
      requires smallestSnapshot < MAX_SEQUENCE_NUMBER
      modifies this, levelPtrs
      ensures Valid() && After(merged, i + 1)
      ensures drop <==> Dropped(v, level, merged, i, smallestSnapshot)
    {
      var e := merged[i];
      if i > 0 { assert KeyLt(merged[i - 1].key, e.key); }
      if currentUserKey != Some(e.key.user) {
        currentUserKey := Some(e.key.user);
        lastSequenceForKey := MAX_SEQUENCE_NUMBER;
      }
      drop := false;
      if lastSequenceForKey <= smallestSnapshot {
        drop := true;
      } else if e.key.kind.Deletion? && e.key.sequence <= smallestSnapshot {
        drop := IsBaseLevelForKey(e.key.user);
      }
      lastSequenceForKey := e.key.sequence;
    }

    lemma NoFileHolds(lvl: nat, user: Bytes)
      requires Valid() && last == Some(user) && level + 2 <= lvl < NUM_LEVELS
      requires levelPtrs[lvl] < |v[lvl]| ==> Lt(user, v[lvl][levelPtrs[lvl]].smallest.user)
      ensures forall f :: f in v[lvl] ==> !InUserRange(f, user)
    {
      assert ValidLevel(lvl, v[lvl]);
      forall f | f in v[lvl]
        ensures !InUserRange(f, user)
      {
        var i :| 0 <= i < |v[lvl]| && v[lvl][i] == f;
        var p := levelPtrs[lvl];
        if p < i {
          FileEnds(v[lvl][p]);
          assert KeyLt(v[lvl][p].largest, v[lvl][i].smallest);
        }
      }
    }
  }

  // ----- The compaction loop -----

  ghost function Flatten(files: seq<FileMeta>): seq<Entry> {
    if files == [] then [] else Flatten(files[..|files| - 1]) + files[|files| - 1].entries
  }

  /** A finished table whose metadata describes its entries. */
  ghost predicate Described(f: FileMeta) {
    f.entries != [] && f.smallest == f.entries[0].key && f.largest == f.entries[|f.entries| - 1].key
  }

  /** Numbers are taken from the counter in order. */
  ghost predicate NumberedFrom(files: seq<FileMeta>, first: nat) {
    forall i :: 0 <= i < |files| ==> files[i].number == first + i
  }

  /**
   * The loop of DoCompactionWork. `stopBefore` are the answers of ShouldStopBefore and `fileSize` is the
   * size of the table built so far; the result holds for any of them.
   */
  method DoCompactionWork(v: Levels, c: Compaction, merged: seq<Entry>, smallestSnapshot: nat,
                          stopBefore: seq<bool>, fileSize: seq<Entry> -> nat, maxFileSize: nat, firstNumber: nat)
    returns (outputs: seq<FileMeta>)
    requires ValidVersion(v) && c.level + 1 < NUM_LEVELS
    requires Sorted(merged) && |stopBefore| == |merged|
    requires smallestSnapshot < MAX_SEQUENCE_NUMBER
    ensures Flatten(outputs) == Kept(v, c.level, merged, |merged|, smallestSnapshot)
    ensures forall f :: f in outputs ==> Described(f)
    ensures NumberedFrom(outputs, firstNumber)
  {
    var rule := new DropRule(v, c.level, smallestSnapshot);
    outputs := [];
    var builder: seq<Entry> := [];  // the table being built; empty when no output file is open
    for i := 0 to |merged|
      invariant rule.Valid() && fresh(rule) && fresh(rule.levelPtrs) && rule.After(merged, i)
      invariant rule.v == v && rule.level == c.level && rule.smallestSnapshot == smallestSnapshot
      invariant Flatten(outputs) + builder == Kept(v, c.level, merged, i, smallestSnapshot)
      invariant forall f :: f in outputs ==> Described(f)
      invariant NumberedFrom(outputs, firstNumber)
    {
      if stopBefore[i] && builder != [] {
        outputs := FinishOutput(outputs, builder, fileSize, firstNumber);
        builder := [];
      }
      var drop := rule.ShouldDrop(merged, i);
      if !drop {
        outputs, builder := AddToOutput(outputs, builder, merged[i], fileSize, maxFileSize, firstNumber);
      }
    }
    if builder != [] {
      outputs := FinishOutput(outputs, builder, fileSize, firstNumber);
    }
  }

  method AddToOutput(outputs: seq<FileMeta>, builder: seq<Entry>, e: Entry, fileSize: seq<Entry> -> nat, maxFileSize: nat, firstNumber: nat)
    returns (r: seq<FileMeta>, b: seq<Entry>)
    requires forall f :: f in outputs ==> Described(f)
    requires NumberedFrom(outputs, firstNumber)
    ensures Flatten(r) + b == Flatten(outputs) + builder + [e]
    ensures forall f :: f in r ==> Described(f)
    ensures NumberedFrom(r, firstNumber)
  {
    r, b := outputs, builder + [e];
    if fileSize(b) >= maxFileSize {
      r := FinishOutput(outputs, b, fileSize, firstNumber);
      b := [];
    }
  }

  method FinishOutput(outputs: seq<FileMeta>, builder: seq<Entry>, fileSize: seq<Entry> -> nat, firstNumber: nat)
    returns (r: seq<FileMeta>)
    requires builder != []
    requires forall f :: f in outputs ==> Described(f)
    requires NumberedFrom(outputs, firstNumber)
    ensures Flatten(r) == Flatten(outputs) + builder
    ensures forall f :: f in r ==> Described(f)
    ensures NumberedFrom(r, firstNumber)
  {
    var f := FileMeta(firstNumber + |outputs|, fileSize(builder), builder[0].key, builder[|builder| - 1].key, builder);
    r := outputs + [f];
    assert r[..|r| - 1] == outputs;
  }

  // ----- The output files -----

  lemma {:induction false} FlattenMembers(files: seq<FileMeta>)
    ensures Elements(Flatten(files)) == FilesEntries(files)
  {
    if files != [] {
      var n := |files| - 1;
      FlattenMembers(files[..n]);
      assert files == files[..n] + [files[n]];
      assert FilesEntries(files) == FilesEntries(files[..n]) + Elements(files[n].entries);
    }
  }

  /** Cutting a sorted run gives valid files, in order and disjoint. */
  lemma {:induction false} CutIsDisjoint(files: seq<FileMeta>)
    requires Sorted(Flatten(files)) && forall f :: f in files ==> Described(f)
    ensures forall f :: f in files ==> ValidFile(f)
    ensures Disjoint(files)
  {
    if files != [] {
      var n := |files| - 1;
      var last := files[n];
      var front := Flatten(files[..n]);
      SplitSorted(front, last.entries);
      CutIsDisjoint(files[..n]);
      assert last in files;
      assert files == files[..n] + [last];
      forall i | 0 <= i < n
        ensures KeyLt(files[i].largest, last.smallest)
      {
        FlattenMembers(files[..n]);
        var f := files[i];
        assert f in files[..n];
        var e := f.entries[|f.entries| - 1];
        assert e in f.entries;
        assert e in FilesEntries(files[..n]);
        assert e in Elements(front) && e in front;
      }
    }
  }

  lemma SplitSorted(a: seq<Entry>, b: seq<Entry>)
    requires Sorted(a + b)
    ensures Sorted(a) && Sorted(b)
    ensures b != [] ==> forall x :: x in a ==> KeyLt(x.key, b[0].key)
  {
    assert forall i :: 0 <= i < |a| ==> a[i] == (a + b)[i];
    assert forall i :: 0 <= i < |b| ==> b[i] == (a + b)[|a| + i];
  }
}
