/** Choosing the input files of a compaction. */
module CompactionInputs {
  import opened ByteOrder
  import opened DbFormat
  import opened Version

  datatype Compaction = Compaction(level: nat, inputs0: seq<FileMeta>, inputs1: seq<FileMeta>, grandparents: seq<FileMeta>)

  // ----- Files overlapping a user-key range; None is an open end -----

  ghost predicate Overlaps(f: FileMeta, begin: Option<Bytes>, end: Option<Bytes>) {
    && !(begin.Some? && Lt(f.largest.user, begin.value))
    && !(end.Some? && Lt(end.value, f.smallest.user))
  }

  ghost function OverlapFilter(files: seq<FileMeta>, begin: Option<Bytes>, end: Option<Bytes>): seq<FileMeta> {
    if files == [] then []
    else
      var n := |files| - 1;
      OverlapFilter(files[..n], begin, end) + if Overlaps(files[n], begin, end) then [files[n]] else []
  }

  lemma {:induction false} OverlapFilterMembers(files: seq<FileMeta>, begin: Option<Bytes>, end: Option<Bytes>)
    ensures forall f :: f in OverlapFilter(files, begin, end) <==> f in files && Overlaps(f, begin, end)
  {
    if files != [] {
      var n := |files| - 1;
      OverlapFilterMembers(files[..n], begin, end);
      assert files == files[..n] + [files[n]];
    }
  }

  lemma {:induction false} OverlapFilterDistinct(files: seq<FileMeta>, begin: Option<Bytes>, end: Option<Bytes>)
    requires DistinctNumbers(files)
    ensures DistinctNumbers(OverlapFilter(files, begin, end))
  {
    if files != [] {
      var n := |files| - 1;
      OverlapFilterDistinct(files[..n], begin, end);
      OverlapFilterMembers(files[..n], begin, end);
      forall f | f in files[..n]
        ensures f.number != files[n].number
      {
      }
    }
  }

  /** [outerBegin, outerEnd] contains [begin, end]. */
  ghost predicate Covers(outerBegin: Option<Bytes>, outerEnd: Option<Bytes>, begin: Option<Bytes>, end: Option<Bytes>) {
    && (outerBegin.None? || (begin.Some? && Le(outerBegin.value, begin.value)))
    && (outerEnd.None? || (end.Some? && Le(end.value, outerEnd.value)))
  }

  /** No file sticks out of the range that it overlaps. */
  ghost predicate ClosedRange(files: seq<FileMeta>, begin: Option<Bytes>, end: Option<Bytes>) {
    forall f :: f in files && Overlaps(f, begin, end) ==> Covers(begin, end, Some(f.smallest.user), Some(f.largest.user))
  }

  ghost predicate LeastClosed(files: seq<FileMeta>, b: Option<Bytes>, e: Option<Bytes>, begin: Option<Bytes>, end: Option<Bytes>) {
    && Covers(b, e, begin, end)
    && ClosedRange(files, b, e)
    && WithinClosures(files, b, e, begin, end)
  }

  ghost predicate WithinClosures(files: seq<FileMeta>, b: Option<Bytes>, e: Option<Bytes>, begin: Option<Bytes>, end: Option<Bytes>) {
    forall x, y :: Covers(x, y, begin, end) && ClosedRange(files, x, y) ==> Covers(x, y, b, e)
  }

  ghost function StartingBefore(files: seq<FileMeta>, b: Option<Bytes>): set<FileMeta> {
    set f | f in files && b.Some? && Lt(f.smallest.user, b.value)
  }

  ghost function EndingAfter(files: seq<FileMeta>, e: Option<Bytes>): set<FileMeta> {
    set f | f in files && e.Some? && Lt(e.value, f.largest.user)
  }

  /** A file that overlaps [b, e] and sticks out must be inside every closed range around [b, e]. */
  lemma GrowOnce(files: seq<FileMeta>, f: FileMeta, b: Option<Bytes>, e: Option<Bytes>, begin: Option<Bytes>, end: Option<Bytes>)
    requires f in files && Le(f.smallest.user, f.largest.user) && Overlaps(f, b, e)
    requires Covers(b, e, begin, end) && WithinClosures(files, b, e, begin, end)
    ensures b.Some? && Lt(f.smallest.user, b.value) ==>
              && Covers(Some(f.smallest.user), e, begin, end)
              && WithinClosures(files, Some(f.smallest.user), e, begin, end)
              && StartingBefore(files, Some(f.smallest.user)) < StartingBefore(files, b)
    ensures e.Some? && Lt(e.value, f.largest.user) ==>
              && Covers(b, Some(f.largest.user), begin, end)
              && WithinClosures(files, b, Some(f.largest.user), begin, end)
              && EndingAfter(files, Some(f.largest.user)) < EndingAfter(files, e)
  {
    if b.Some? && Lt(f.smallest.user, b.value) {
      assert f in StartingBefore(files, b) && f !in StartingBefore(files, Some(f.smallest.user));
    }
    if e.Some? && Lt(e.value, f.largest.user) {
      assert f in EndingAfter(files, e) && f !in EndingAfter(files, Some(f.largest.user));
    }
  }

  function UserOf(k: Option<InternalKey>): Option<Bytes> {
    if k.Some? then Some(k.value.user) else None
  }

  ghost predicate EndsInOrder(files: seq<FileMeta>) {
    forall f :: f in files ==> Le(f.smallest.user, f.largest.user)
  }

  lemma ValidEndsInOrder(v: Levels, level: nat)
    requires level < NUM_LEVELS && ValidLevel(level, v[level])
    ensures EndsInOrder(v[level])
  {
    forall f | f in v[level]
      ensures Le(f.smallest.user, f.largest.user)
    {
      FileEnds(f);
    }
  }

  /** The restart rule of level 0: `f` sticks out of the range, so the range grows to take in its end. */
  method GrowRange(files: seq<FileMeta>, f: FileMeta, userBegin: Option<Bytes>, userEnd: Option<Bytes>,
                   ghost begin: Option<Bytes>, ghost end: Option<Bytes>)
    returns (b: Option<Bytes>, e: Option<Bytes>, grown: bool)
    requires f in files && Le(f.smallest.user, f.largest.user) && Overlaps(f, userBegin, userEnd)
    requires Covers(userBegin, userEnd, begin, end) && WithinClosures(files, userBegin, userEnd, begin, end)
    ensures Covers(b, e, begin, end) && WithinClosures(files, b, e, begin, end)
    ensures (b.Some? <==> userBegin.Some?) && (e.Some? <==> userEnd.Some?)
    ensures !grown ==> b == userBegin && e == userEnd && Covers(b, e, Some(f.smallest.user), Some(f.largest.user))
    ensures grown ==>
              || StartingBefore(files, b) < StartingBefore(files, userBegin)
              || (b == userBegin && EndingAfter(files, e) < EndingAfter(files, userEnd))
  {
    GrowOnce(files, f, userBegin, userEnd, begin, end);
    b, e, grown := userBegin, userEnd, false;
    if userBegin.Some? && Compare(f.smallest.user, userBegin.value) < 0 {
      b, grown := Some(f.smallest.user), true;
    } else if userEnd.Some? && Compare(f.largest.user, userEnd.value) > 0 {
      e, grown := Some(f.largest.user), true;
    }
  }

  /** The files of a level that overlap [begin, end], at level 0 the least closed range around it. */
  ghost predicate OverlapOf(v: Levels, level: nat, begin: Option<Bytes>, end: Option<Bytes>, inputs: seq<FileMeta>)
    requires level < NUM_LEVELS
  {
    if level == 0 then exists b, e :: inputs == OverlapFilter(v[0], b, e) && LeastClosed(v[0], b, e, begin, end)
    else inputs == OverlapFilter(v[level], begin, end)
  }

  /** All files of `level` overlapping [begin, end]; at level 0 the range first grows to its least closure. */
  method GetOverlappingInputs(v: Levels, level: nat, begin: Option<InternalKey>, end: Option<InternalKey>)
    returns (inputs: seq<FileMeta>, ghost b: Option<Bytes>, ghost e: Option<Bytes>)
    requires level < NUM_LEVELS && EndsInOrder(v[level])
    ensures OverlapOf(v, level, UserOf(begin), UserOf(end), inputs) && inputs == OverlapFilter(v[level], b, e)
    ensures if level == 0 then LeastClosed(v[level], b, e, UserOf(begin), UserOf(end))
            else b == UserOf(begin) && e == UserOf(end)
  {
    hide WithinClosures, StartingBefore, EndingAfter, ClosedRange, Covers, OverlapFilter;
    var userBegin, userEnd := UserOf(begin), UserOf(end);
    var files := v[level];
    inputs := [];
    var i := 0;
    NothingRead(files, userBegin, userEnd);
    while i < |files|
      invariant 0 <= i <= |files|
      invariant inputs == OverlapFilter(files[..i], userBegin, userEnd)
      invariant level != 0 ==> userBegin == UserOf(begin) && userEnd == UserOf(end)
      invariant Covers(userBegin, userEnd, UserOf(begin), UserOf(end))
      invariant userBegin.Some? <==> begin.Some?
      invariant userEnd.Some? <==> end.Some?
      invariant level == 0 ==> ClosedRange(files[..i], userBegin, userEnd)
      invariant WithinClosures(files, userBegin, userEnd, UserOf(begin), UserOf(end))
      decreases StartingBefore(files, userBegin), EndingAfter(files, userEnd), |files| - i
    {
      var f := files[i];
      OneMoreRead(files, i, userBegin, userEnd);
      i := i + 1;
      if userBegin.Some? && Compare(f.largest.user, userBegin.value) < 0 {
      } else if userEnd.Some? && Compare(f.smallest.user, userEnd.value) > 0 {
      } else {
        inputs := inputs + [f];
        if level == 0 {
          assert f in files;
          var grown;
          userBegin, userEnd, grown := GrowRange(files, f, userBegin, userEnd, UserOf(begin), UserOf(end));
          if grown {
            NothingRead(files, userBegin, userEnd);
            inputs := [];
            i := 0;
          }
        }
      }
    }
    assert files[..|files|] == files;
    b, e := userBegin, userEnd;
  }

  lemma {:induction false} NothingRead(files: seq<FileMeta>, b: Option<Bytes>, e: Option<Bytes>)
    ensures OverlapFilter(files[..0], b, e) == [] && ClosedRange(files[..0], b, e)
    ensures WithinClosures(files, b, e, b, e) && Covers(b, e, b, e)
  {
  }

  lemma {:induction false} OneMoreRead(files: seq<FileMeta>, i: nat, b: Option<Bytes>, e: Option<Bytes>)
    requires i < |files|
    ensures OverlapFilter(files[..i + 1], b, e) == OverlapFilter(files[..i], b, e) + if Overlaps(files[i], b, e) then [files[i]] else []
    ensures ClosedRange(files[..i], b, e) && (Overlaps(files[i], b, e) ==> Covers(b, e, Some(files[i].smallest.user), Some(files[i].largest.user))) ==>
              ClosedRange(files[..i + 1], b, e)
  {
    hide Overlaps, Covers;
    assert files[..i + 1] == files[..i] + [files[i]];
    assert files[..i + 1][..i] == files[..i];
  }

  // ----- Key ranges of a set of files -----

  ghost predicate IsLargest(files: seq<FileMeta>, key: InternalKey) {
    && (exists f :: f in files && f.largest == key)
    && forall f :: f in files ==> !KeyLt(key, f.largest)
  }

  ghost predicate IsSmallest(files: seq<FileMeta>, key: InternalKey) {
    && (exists f :: f in files && f.smallest == key)
    && forall f :: f in files ==> !KeyLt(f.smallest, key)
  }

  method GetRange(inputs: seq<FileMeta>) returns (smallest: InternalKey, largest: InternalKey)
    requires inputs != []
    ensures IsSmallest(inputs, smallest) && IsLargest(inputs, largest)
  {
    smallest, largest := inputs[0].smallest, inputs[0].largest;
    for i := 1 to |inputs|
      invariant IsSmallest(inputs[..i], smallest) && IsLargest(inputs[..i], largest)
    {
      hide IsSmallest, IsLargest;
      var f := inputs[i];
      assert inputs[..i + 1] == inputs[..i] + [f];
      OneMoreFile(inputs[..i], f, smallest, largest);
      if CompareKeys(f.smallest, smallest) < 0 {
        smallest := f.smallest;
      }
      if CompareKeys(f.largest, largest) > 0 {
        largest := f.largest;
      }
    }
    assert inputs[..|inputs|] == inputs;
  }

  lemma OneMoreFile(files: seq<FileMeta>, f: FileMeta, smallest: InternalKey, largest: InternalKey)
    requires IsSmallest(files, smallest) && IsLargest(files, largest)
    ensures IsSmallest(files + [f], if KeyLt(f.smallest, smallest) then f.smallest else smallest)
    ensures IsLargest(files + [f], if KeyLt(largest, f.largest) then f.largest else largest)
  {
    assert forall g :: g in files + [f] <==> g in files || g == f;
  }

  lemma {:induction false} EndsOf(files: seq<FileMeta>) returns (lo: InternalKey, hi: InternalKey)
    requires files != []
    ensures IsSmallest(files, lo) && IsLargest(files, hi)
  {
    lo, hi := files[0].smallest, files[0].largest;
    for i := 1 to |files|
      invariant IsSmallest(files[..i], lo) && IsLargest(files[..i], hi)
    {
      hide IsSmallest, IsLargest;
      assert files[..i + 1] == files[..i] + [files[i]];
      OneMoreFile(files[..i], files[i], lo, hi);
      if KeyLt(files[i].smallest, lo) {
        lo := files[i].smallest;
      }
      if KeyLt(hi, files[i].largest) {
        hi := files[i].largest;
      }
    }
    assert files[..|files|] == files;
  }

  method FindLargestKey(files: seq<FileMeta>) returns (r: Option<InternalKey>)
    ensures r.None? <==> files == []
    ensures r.Some? ==> IsLargest(files, r.value)
  {
    if files == [] {
      return None;
    }
    var largest := files[0].largest;
    for i := 1 to |files|
      invariant IsLargest(files[..i], largest)
    {
      assert files[..i + 1] == files[..i] + [files[i]];
      if CompareKeys(files[i].largest, largest) > 0 {
        largest := files[i].largest;
      }
    }
    assert files[..|files|] == files;
    return Some(largest);
  }

  // ----- Boundary files -----

  /** `f` starts after `key` but with the same user key. */
  predicate Continues(f: FileMeta, key: InternalKey)
    ensures Continues(f, key) <==> KeyLt(key, f.smallest) && f.smallest.user == key.user
  {
    CompareKeys(f.smallest, key) > 0 && f.smallest.user == key.user
  }

  /** Of the files that continue the user key of `key`, `f` is the one that starts first. */
  ghost predicate IsBoundaryFile(files: seq<FileMeta>, key: InternalKey, f: FileMeta) {
    f in files && Continues(f, key) && forall g :: g in files && Continues(g, key) ==> !KeyLt(g.smallest, f.smallest)
  }

  method FindSmallestBoundaryFile(files: seq<FileMeta>, key: InternalKey) returns (r: Option<FileMeta>)
    ensures r.None? ==> forall f :: f in files ==> !Continues(f, key)
    ensures r.Some? ==> IsBoundaryFile(files, key, r.value)
  {
    r := None;
    for i := 0 to |files|
      invariant r.None? ==> forall f :: f in files[..i] ==> !Continues(f, key)
      invariant r.Some? ==> r.value in files && Continues(r.value, key)
      invariant r.Some? ==> forall f :: f in files[..i] && Continues(f, key) ==> !KeyLt(f.smallest, r.value.smallest)
    {
      var f := files[i];
      assert files[..i + 1] == files[..i] + [f];
      if Continues(f, key) {
        if r.None? || CompareKeys(f.smallest, r.value.smallest) < 0 {
          r := Some(f);
        }
      }
    }
    assert files[..|files|] == files;
  }

  ghost predicate SubFiles(inputs: seq<FileMeta>, files: seq<FileMeta>) {
    && (forall f :: f in inputs ==> f in files)
    && DistinctNumbers(inputs)
  }

  /** No file of the level lies between two chosen ones without being chosen. */
  ghost predicate Convex(files: seq<FileMeta>, inputs: seq<FileMeta>) {
    forall f, g, h :: f in inputs && g in inputs && h in files && KeyLt(f.largest, h.smallest) && KeyLt(h.largest, g.smallest)
      ==> h in inputs
  }

  /** Every file left out lies in user keys strictly to one side of every chosen file. */
  ghost predicate UserApart(files: seq<FileMeta>, inputs: seq<FileMeta>) {
    forall f, h :: f in inputs && h in files && h !in inputs ==> Lt(h.largest.user, f.smallest.user) || Lt(f.largest.user, h.smallest.user)
  }

  /** What the choice of level-`level` inputs must satisfy before the boundary files are added. */
  ghost predicate GoodStart(level: nat, files: seq<FileMeta>, inputs: seq<FileMeta>) {
    SubFiles(inputs, files) && if level == 0 then UserApart(files, inputs) else Convex(files, inputs)
  }

  /** No file of the level continues the last user key of the inputs. */
  ghost predicate BoundaryClosed(files: seq<FileMeta>, inputs: seq<FileMeta>) {
    forall key :: IsLargest(inputs, key) ==> NothingContinues(files, key)
  }

  ghost predicate NothingContinues(files: seq<FileMeta>, key: InternalKey) {
    forall h :: h in files ==> !Continues(h, key)
  }

  ghost function EndingBeyond(files: seq<FileMeta>, key: InternalKey): set<FileMeta> {
    set h | h in files && KeyLt(key, h.largest)
  }

  lemma LargestIsUnique(files: seq<FileMeta>, j: InternalKey, k: InternalKey)
    requires IsLargest(files, j) && IsLargest(files, k)
    ensures j == k
  {
    var r := CompareKeys(j, k);
  }

  /** The `i`-th input continues the user key of the largest of the inputs before it. */
  ghost predicate BoundaryAt(files: seq<FileMeta>, inputs: seq<FileMeta>, i: nat)
    requires i < |inputs|
  {
    forall key :: IsLargest(inputs[..i], key) ==> IsBoundaryFile(files, key, inputs[i])
  }

  /** `inputs` are `start` and the boundary files after it, one after the other, as long as there are any. */
  ghost predicate IsExtension(files: seq<FileMeta>, start: seq<FileMeta>, inputs: seq<FileMeta>) {
    && start <= inputs && BoundaryClosed(files, inputs)
    && forall i: nat :: |start| <= i < |inputs| ==> BoundaryAt(files, inputs, i)
  }

  /** There is only one such extension. */
  lemma {:induction false} ExtensionIsUnique(level: nat, files: seq<FileMeta>, start: seq<FileMeta>, a: seq<FileMeta>, b: seq<FileMeta>)
    requires 0 < level && ValidLevel(level, files) && start != []
    requires IsExtension(files, start, a) && IsExtension(files, start, b)
    ensures a == b
  {
    hide ValidLevel, BoundaryClosed;
    if |a| <= |b| { ExtensionsAgree(level, files, start, a, b, |a|); } else { ExtensionsAgree(level, files, start, b, a, |b|); }
    var short, long := if |a| <= |b| then a else b, if |a| <= |b| then b else a;
    if |short| < |long| {
      var low, key := EndsOf(short);
      assert long[..|short|] == short;
      assert BoundaryAt(files, long, |short|);
      ClosedHasNone(files, short, key, long[|short|]);
    }
  }

  lemma ClosedHasNone(files: seq<FileMeta>, inputs: seq<FileMeta>, key: InternalKey, f: FileMeta)
    requires BoundaryClosed(files, inputs) && IsLargest(inputs, key)
    ensures !IsBoundaryFile(files, key, f)
  {
    assert NothingContinues(files, key);
  }

  lemma {:induction false} ExtensionsAgree(level: nat, files: seq<FileMeta>, start: seq<FileMeta>, a: seq<FileMeta>, b: seq<FileMeta>, n: nat)
    requires 0 < level && ValidLevel(level, files) && start != [] && |start| <= n <= |a| && n <= |b|
    requires IsExtension(files, start, a) && IsExtension(files, start, b)
    ensures a[..n] == b[..n]
  {
    hide ValidLevel, BoundaryClosed;
    if n > |start| {
      ExtensionsAgree(level, files, start, a, b, n - 1);
      var low, key := EndsOf(a[..n - 1]);
      assert BoundaryAt(files, a, n - 1) && BoundaryAt(files, b, n - 1);
      BoundaryFileIsUnique(level, files, key, a[n - 1], b[n - 1]);
      assert a[..n] == a[..n - 1] + [a[n - 1]] && b[..n] == b[..n - 1] + [b[n - 1]];
    } else {
      assert a[..n] == start && b[..n] == start;
    }
  }

  lemma {:induction false} BoundaryFileIsUnique(level: nat, files: seq<FileMeta>, key: InternalKey, f: FileMeta, g: FileMeta)
    requires 0 < level && ValidLevel(level, files) && IsBoundaryFile(files, key, f) && IsBoundaryFile(files, key, g)
    ensures f == g
  {
    FileEnds(f);
    FileEnds(g);
    var r := CompareKeys(f.smallest, g.smallest);
    if f != g { DisjointOrder(files, f, g); }
  }

  method AddBoundaryInputs(level: nat, files: seq<FileMeta>, compactionFiles: seq<FileMeta>) returns (inputs: seq<FileMeta>)
    requires ValidLevel(level, files)
    requires GoodStart(level, files, compactionFiles)
    ensures GoodStart(level, files, inputs)
    ensures BoundaryClosed(files, inputs)
    ensures IsExtension(files, compactionFiles, inputs)
    ensures level == 0 ==> inputs == compactionFiles
  {
    hide ValidLevel, GoodStart, BoundaryAt, IsLargest, EndingBeyond, IsBoundaryFile, IsExtension, BoundaryClosed;
    inputs := compactionFiles;
    var first := FindLargestKey(compactionFiles);
    if first.None? {
      NothingToExtend(files);
      return;
    }
    var largest := first.value;
    var searching := true;
    while searching
      invariant GoodStart(level, files, inputs) && compactionFiles <= inputs
      invariant forall i: nat :: |compactionFiles| <= i < |inputs| ==> BoundaryAt(files, inputs, i)
      invariant IsLargest(inputs, largest)
      invariant level == 0 ==> inputs == compactionFiles
      invariant !searching ==> NothingContinues(files, largest)
      decreases searching, EndingBeyond(files, largest)
    {
      var boundary := FindSmallestBoundaryFile(files, largest);
      if boundary.Some? {
        var b := boundary.value;
        BoundaryTaken(level, files, inputs, largest, b);
        OneMoreBoundary(files, inputs, |compactionFiles|, largest, b);
        inputs := inputs + [b];
        largest := b.largest;
      } else {
        searching := false;
      }
    }
    ExtensionIsDone(files, compactionFiles, inputs, largest);
  }

  lemma {:induction false} NothingToExtend(files: seq<FileMeta>)
    ensures BoundaryClosed(files, []) && IsExtension(files, [], [])
  {
  }

  lemma {:induction false} BoundaryTaken(level: nat, files: seq<FileMeta>, inputs: seq<FileMeta>, largest: InternalKey, b: FileMeta)
    requires ValidLevel(level, files) && GoodStart(level, files, inputs) && IsLargest(inputs, largest) && IsBoundaryFile(files, largest, b)
    ensures GoodStart(level, files, inputs + [b]) && IsLargest(inputs + [b], b.largest) && level != 0
    ensures EndingBeyond(files, b.largest) < EndingBeyond(files, largest)
  {
    BoundaryKeepsStart(level, files, inputs, largest, b);
    FileEnds(b);
    assert b in EndingBeyond(files, largest) && b !in EndingBeyond(files, b.largest);
  }

  lemma {:induction false} ExtensionIsDone(files: seq<FileMeta>, start: seq<FileMeta>, inputs: seq<FileMeta>, largest: InternalKey)
    requires start <= inputs && IsLargest(inputs, largest) && NothingContinues(files, largest)
    requires forall i: nat :: |start| <= i < |inputs| ==> BoundaryAt(files, inputs, i)
    ensures BoundaryClosed(files, inputs) && IsExtension(files, start, inputs)
  {
    hide NothingContinues, BoundaryAt, IsLargest;
    forall key | IsLargest(inputs, key)
      ensures NothingContinues(files, key)
    {
      LargestIsUnique(inputs, key, largest);
    }
  }

  lemma OneMoreBoundary(files: seq<FileMeta>, inputs: seq<FileMeta>, n: nat, largest: InternalKey, b: FileMeta)
    requires IsLargest(inputs, largest) && IsBoundaryFile(files, largest, b)
    requires forall i: nat :: n <= i < |inputs| ==> BoundaryAt(files, inputs, i)
    ensures forall i: nat :: n <= i < |inputs| + 1 ==> BoundaryAt(files, inputs + [b], i)
  {
    hide IsLargest, IsBoundaryFile;
    var more := inputs + [b];
    forall i: nat, key | n <= i < |inputs| + 1 && IsLargest(more[..i], key)
      ensures IsBoundaryFile(files, key, more[i])
    {
      if i < |inputs| {
        assert more[..i] == inputs[..i];
        assert BoundaryAt(files, inputs, i);
      } else {
        assert more[..i] == inputs;
        LargestIsUnique(inputs, key, largest);
      }
    }
  }

  lemma DisjointOrder(files: seq<FileMeta>, f: FileMeta, g: FileMeta)
    requires Disjoint(files) && f in files && g in files && f != g
    ensures KeyLt(f.largest, g.smallest) || KeyLt(g.largest, f.smallest)
  {
    var i :| 0 <= i < |files| && files[i] == f;
    var j :| 0 <= j < |files| && files[j] == g;
  }

  lemma NumberNames(files: seq<FileMeta>, f: FileMeta, g: FileMeta)
    requires DistinctNumbers(files) && f in files && g in files && f != g
    ensures f.number != g.number
  {
    var i :| 0 <= i < |files| && files[i] == f;
    var j :| 0 <= j < |files| && files[j] == g;
  }

  lemma BoundaryIsNew(level: nat, files: seq<FileMeta>, inputs: seq<FileMeta>, largest: InternalKey, b: FileMeta)
    requires ValidLevel(level, files) && GoodStart(level, files, inputs) && IsLargest(inputs, largest)
    requires b in files && Continues(b, largest)
    ensures level != 0
    ensures SubFiles(inputs + [b], files) && IsLargest(inputs + [b], b.largest)
  {
    FileEnds(b);
    var m :| m in inputs && m.largest == largest;
    FileEnds(m);
    assert b !in inputs;
    forall f | f in inputs
      ensures f.number != b.number
    {
      NumberNames(files, f, b);
    }
  }

  lemma NothingBetween(files: seq<FileMeta>, inputs: seq<FileMeta>, m: FileMeta, b: FileMeta, f: FileMeta, g: FileMeta, h: FileMeta)
    requires Disjoint(files) && ValidFile(h) && ValidFile(m) && ValidFile(b) && ValidFile(g)
    requires Convex(files, inputs) && m in inputs && m in files && IsLargest(inputs, m.largest)
    requires Continues(b, m.largest) && !(Continues(h, m.largest) && KeyLt(h.smallest, b.smallest))
    requires f in inputs + [b] && g in inputs + [b] && h in files
    requires KeyLt(f.largest, h.smallest) && KeyLt(h.largest, g.smallest)
    ensures h in inputs + [b]
  {
    FileEnds(h);
    if h != m {
      DisjointOrder(files, h, m);
      FileEnds(m);
      FileEnds(g);
      if g in inputs {
        assert !KeyLt(m.largest, g.largest);
        FileEnds(b);
        assert f in inputs;
      } else {
        assert g == b;
        if KeyLt(h.largest, m.smallest) {
          FileEnds(b);
          assert f in inputs;
        }
      }
    }
  }

  lemma BoundaryKeepsStart(level: nat, files: seq<FileMeta>, inputs: seq<FileMeta>, largest: InternalKey, b: FileMeta)
    requires ValidLevel(level, files) && GoodStart(level, files, inputs) && IsLargest(inputs, largest)
    requires b in files && Continues(b, largest)
    requires forall f :: f in files && Continues(f, largest) ==> !KeyLt(f.smallest, b.smallest)
    ensures level != 0
    ensures GoodStart(level, files, inputs + [b]) && IsLargest(inputs + [b], b.largest)
  {
    BoundaryIsNew(level, files, inputs, largest, b);
    var m :| m in inputs && m.largest == largest;
    forall f, g, h | f in inputs + [b] && g in inputs + [b] && h in files && KeyLt(f.largest, h.smallest) && KeyLt(h.largest, g.smallest)
      ensures h in inputs + [b]
    {
      NothingBetween(files, inputs, m, b, f, g, h);
    }
  }

  // ----- The complete choice -----

  /** Everything left behind in the level is newer than what moves down. */
  ghost predicate LeavesNewer(files: seq<FileMeta>, inputs: seq<FileMeta>) {
    forall f, h :: f in inputs && h in files && h !in inputs ==> Above(Elements(h.entries), Elements(f.entries))
  }

  /** `inputs1` are the files of the next level that overlap the user-key range of `inputs0`. */
  ghost predicate TakesOverlap(parents: seq<FileMeta>, inputs0: seq<FileMeta>, inputs1: seq<FileMeta>) {
    forall lo, hi :: IsSmallest(inputs0, lo) && IsLargest(inputs0, hi) ==> inputs1 == OverlapFilter(parents, Some(lo.user), Some(hi.user))
  }

  ghost predicate ValidCompaction(v: Levels, c: Compaction) {
    && c.level + 1 < NUM_LEVELS
    && c.inputs0 != []
    && SubFiles(c.inputs0, v[c.level])
    && SubFiles(c.inputs1, v[c.level + 1])
    && LeavesNewer(v[c.level], c.inputs0)
    && TakesOverlap(v[c.level + 1], c.inputs0, c.inputs1)
  }

  function TotalFileSize(files: seq<FileMeta>): nat {
    if files == [] then 0 else files[0].size + TotalFileSize(files[1..])
  }

  lemma OverlapIsTaken(parents: seq<FileMeta>, inputs0: seq<FileMeta>, inputs1: seq<FileMeta>, lo: InternalKey, hi: InternalKey)
    requires DistinctNumbers(parents)
    requires IsSmallest(inputs0, lo) && IsLargest(inputs0, hi)
    requires inputs1 == OverlapFilter(parents, Some(lo.user), Some(hi.user))
    ensures TakesOverlap(parents, inputs0, inputs1) && SubFiles(inputs1, parents)
  {
    forall k | IsSmallest(inputs0, k)
      ensures k == lo
    {
      var r := CompareKeys(k, lo);
    }
    forall k | IsLargest(inputs0, k)
      ensures k == hi
    {
      LargestIsUnique(inputs0, k, hi);
    }
    OverlapFilterMembers(parents, Some(lo.user), Some(hi.user));
    OverlapFilterDistinct(parents, Some(lo.user), Some(hi.user));
  }

  lemma OverlapFilterInOrder(files: seq<FileMeta>, b: Option<Bytes>, e: Option<Bytes>)
    requires Disjoint(files)
    ensures Disjoint(OverlapFilter(files, b, e))
  {
    if files != [] {
      var n := |files| - 1;
      OverlapFilterInOrder(files[..n], b, e);
      OverlapFilterMembers(files[..n], b, e);
      var rest := OverlapFilter(files[..n], b, e);
      forall i | 0 <= i < |rest|
        ensures KeyLt(rest[i].largest, files[n].smallest)
      {
        assert rest[i] in files[..n];
      }
    }
  }

  lemma OverlapIsGoodStart(level: nat, files: seq<FileMeta>, inputs: seq<FileMeta>, b: Option<Bytes>, e: Option<Bytes>)
    requires ValidLevel(level, files)
    requires inputs == OverlapFilter(files, b, e)
    requires level == 0 ==> ClosedRange(files, b, e)
    ensures GoodStart(level, files, inputs)
  {
    OverlapFilterMembers(files, b, e);
    OverlapFilterDistinct(files, b, e);
    if level == 0 {
      forall f, h | f in inputs && h in files && h !in inputs
        ensures Lt(h.largest.user, f.smallest.user) || Lt(f.largest.user, h.smallest.user)
      {
        assert Covers(b, e, Some(f.smallest.user), Some(f.largest.user));
      }
    } else {
      forall f, g, h | f in inputs && g in inputs && h in files && KeyLt(f.largest, h.smallest) && KeyLt(h.largest, g.smallest)
        ensures h in inputs
      {
        FileEnds(h);
      }
    }
  }

  lemma PrefixIsGoodStart(files: seq<FileMeta>, inputs: seq<FileMeta>, n: nat)
    requires Convex(files, inputs) && SubFiles(inputs, files) && Disjoint(inputs) && n <= |inputs|
    requires forall f :: f in files ==> ValidFile(f)
    ensures SubFiles(inputs[..n], files) && Convex(files, inputs[..n])
  {
    forall f, g, h | f in inputs[..n] && g in inputs[..n] && h in files && KeyLt(f.largest, h.smallest) && KeyLt(h.largest, g.smallest)
      ensures h in inputs[..n]
    {
      assert h in inputs;
      var i :| 0 <= i < |inputs| && inputs[i] == h;
      var j :| 0 <= j < n && inputs[j] == g;
      FileEnds(h);
      FileEnds(g);
      assert j < i ==> KeyLt(g.largest, h.smallest);
      assert i < n;
    }
  }

  /** Of two disjoint files of a level that share a user key, the earlier one holds the newer versions. */
  lemma EarlierFileIsNewer(v: Levels, level: nat, h: FileMeta, f: FileMeta)
    requires ValidVersion(v) && level < NUM_LEVELS && h in v[level] && f in v[level]
    requires KeyLt(h.largest, f.smallest)
    ensures Above(Elements(h.entries), Elements(f.entries))
  {
    FileSpan(h);
    FileSpan(f);
    forall a, b | a in h.entries && b in f.entries && a.key.user == b.key.user
      ensures a.key.sequence > b.key.sequence
    {
      assert KeyLt(a.key, b.key);
      assert a in FilesEntries(v[level]) && b in FilesEntries(v[level]);
      assert a in VersionEntries(v) && b in VersionEntries(v);
    }
  }

  lemma ClosedLeavesNewer(v: Levels, level: nat, inputs: seq<FileMeta>)
    requires ValidVersion(v) && level < NUM_LEVELS
    requires GoodStart(level, v[level], inputs) && BoundaryClosed(v[level], inputs)
    ensures LeavesNewer(v[level], inputs)
  {
    forall f, h | f in inputs && h in v[level] && h !in inputs
      ensures Above(Elements(h.entries), Elements(f.entries))
    {
      assert ValidLevel(level, v[level]);
      if level == 0 {
        FileSpan(f);
        FileSpan(h);
      } else {
        DisjointOrder(v[level], f, h);
        if KeyLt(h.largest, f.smallest) {
          EarlierFileIsNewer(v, level, h, f);
        } else {
          LaterFileSharesNothing(v[level], inputs, f, h);
        }
      }
    }
  }

  lemma LaterFileSharesNothing(files: seq<FileMeta>, inputs: seq<FileMeta>, f: FileMeta, h: FileMeta)
    requires Disjoint(files) && forall g :: g in files ==> ValidFile(g)
    requires SubFiles(inputs, files) && Convex(files, inputs) && BoundaryClosed(files, inputs)
    requires f in inputs && h in files && h !in inputs && KeyLt(f.largest, h.smallest)
    ensures Lt(f.largest.user, h.smallest.user)
    ensures Above(Elements(h.entries), Elements(f.entries))
  {
    var m := LastFile(inputs);
    FileEnds(m);
    FileEnds(h);
    DisjointOrder(files, h, m);
    assert KeyLt(m.largest, h.smallest);
    assert NothingContinues(files, m.largest);
    assert !Continues(h, m.largest);
    FileSpan(f);
    FileSpan(h);
  }

  lemma LastFile(inputs: seq<FileMeta>) returns (m: FileMeta)
    requires inputs != []
    ensures m in inputs && IsLargest(inputs, m.largest)
  {
    var lo, hi := EndsOf(inputs);
    m :| m in inputs && m.largest == hi;
  }

  /** Inputs of the two levels that fit together. */
  ghost predicate GoodPair(v: Levels, level: nat, inputs0: seq<FileMeta>, inputs1: seq<FileMeta>)
    requires level + 1 < NUM_LEVELS
  {
    && inputs0 != []
    && GoodStart(level, v[level], inputs0)
    && BoundaryClosed(v[level], inputs0)
    && SubFiles(inputs1, v[level + 1])
    && TakesOverlap(v[level + 1], inputs0, inputs1)
  }

  /** The files of the next level that overlap `inputs0`. */
  method TakeOverlap(v: Levels, level: nat, inputs0: seq<FileMeta>) returns (inputs1: seq<FileMeta>)
    requires ValidVersion(v) && level + 1 < NUM_LEVELS && inputs0 != []
    ensures SubFiles(inputs1, v[level + 1]) && TakesOverlap(v[level + 1], inputs0, inputs1)
  {
    assert ValidLevel(level + 1, v[level + 1]);
    ValidEndsInOrder(v, level + 1);
    var smallest, largest := GetRange(inputs0);
    ghost var b, e;
    inputs1, b, e := GetOverlappingInputs(v, level + 1, Some(smallest), Some(largest));
    OverlapIsTaken(v[level + 1], inputs0, inputs1, smallest, largest);
  }

  lemma RangeCoversInputs(files: seq<FileMeta>, inputs0: seq<FileMeta>, inputs1: seq<FileMeta>, lo: InternalKey, hi: InternalKey,
                          expanded: seq<FileMeta>, b: Option<Bytes>, e: Option<Bytes>)
    requires SubFiles(inputs0, files) && forall f :: f in files ==> ValidFile(f)
    requires IsSmallest(inputs0 + inputs1, lo) && IsLargest(inputs0 + inputs1, hi)
    requires Covers(b, e, Some(lo.user), Some(hi.user)) && expanded == OverlapFilter(files, b, e)
    ensures forall f :: f in inputs0 ==> f in expanded
  {
    OverlapFilterMembers(files, b, e);
    forall f | f in inputs0
      ensures f in expanded
    {
      FileEnds(f);
      assert f in inputs0 + inputs1;
    }
  }

  /** The files of the level that overlap the whole range of `all`, and their boundary files. */
  ghost predicate IsExpansion(v: Levels, level: nat, all: seq<FileMeta>, expanded: seq<FileMeta>)
    requires level < NUM_LEVELS
  {
    exists lo: InternalKey, hi: InternalKey, overlap ::
      IsSmallest(all, lo) && IsLargest(all, hi) && OverlapOf(v, level, Some(lo.user), Some(hi.user), overlap) && IsExtension(v[level], overlap, expanded)
  }

  lemma IsExpanded(v: Levels, level: nat, all: seq<FileMeta>, lo: InternalKey, hi: InternalKey, overlap: seq<FileMeta>,
                   b: Option<Bytes>, e: Option<Bytes>, expanded: seq<FileMeta>)
    requires level < NUM_LEVELS && IsSmallest(all, lo) && IsLargest(all, hi) && overlap == OverlapFilter(v[level], b, e)
    requires if level == 0 then LeastClosed(v[level], b, e, Some(lo.user), Some(hi.user)) else b == Some(lo.user) && e == Some(hi.user)
    requires IsExtension(v[level], overlap, expanded)
    ensures IsExpansion(v, level, all, expanded)
  {
    hide IsSmallest, IsLargest, IsExtension, LeastClosed;
    assert OverlapOf(v, level, Some(lo.user), Some(hi.user), overlap);
  }

  /** The larger choice counts if the next level then has as many files as before. */
  ghost predicate KeepsCount(v: Levels, level: nat, start0: seq<FileMeta>, start1: seq<FileMeta>, expanded0: seq<FileMeta>, expanded1: seq<FileMeta>,
                             inputs0: seq<FileMeta>, inputs1: seq<FileMeta>)
    requires level + 1 < NUM_LEVELS
  {
    && TakesOverlap(v[level + 1], expanded0, expanded1)
    && (inputs0, inputs1) == if |expanded1| == |start1| then (expanded0, expanded1) else (start0, start1)
  }

  /** The inputs that grow out of `start0` and `start1`, or these. */
  ghost predicate Grown(v: Levels, level: nat, start0: seq<FileMeta>, start1: seq<FileMeta>, maxFileSize: nat,
                        inputs0: seq<FileMeta>, inputs1: seq<FileMeta>)
    requires level + 1 < NUM_LEVELS
  {
    if start1 == [] then (inputs0, inputs1) == (start0, start1)
    else exists expanded0 :: GrownBy(v, level, start0, start1, maxFileSize, expanded0, inputs0, inputs1)
  }

  ghost predicate GrownBy(v: Levels, level: nat, start0: seq<FileMeta>, start1: seq<FileMeta>, maxFileSize: nat, expanded0: seq<FileMeta>,
                          inputs0: seq<FileMeta>, inputs1: seq<FileMeta>)
    requires level + 1 < NUM_LEVELS
  {
    && IsExpansion(v, level, start0 + start1, expanded0)
    && if |expanded0| > |start0| && TotalFileSize(start1) + TotalFileSize(expanded0) < 25 * maxFileSize then
         exists expanded1 :: KeepsCount(v, level, start0, start1, expanded0, expanded1, inputs0, inputs1)
       else (inputs0, inputs1) == (start0, start1)
  }

  /** Grows the inputs of the upper level if that leaves the number of lower files as it is. */
  method GrowInputs(v: Levels, level: nat, start0: seq<FileMeta>, start1: seq<FileMeta>, maxFileSize: nat)
    returns (inputs0: seq<FileMeta>, inputs1: seq<FileMeta>)
    requires ValidVersion(v) && level + 1 < NUM_LEVELS
    requires GoodPair(v, level, start0, start1)
    ensures GoodPair(v, level, inputs0, inputs1)
    ensures forall f :: f in start0 ==> f in inputs0
    ensures Grown(v, level, start0, start1, maxFileSize, inputs0, inputs1)
  {
    hide IsExpansion, IsExtension, TotalFileSize, OverlapFilter, BoundaryClosed, LeastClosed;
    assert ValidLevel(level, v[level]);
    ValidEndsInOrder(v, level);
    inputs0, inputs1 := start0, start1;
    if start1 != [] {
      var expanded0 := Expand(v, level, start0, start1);
      if |expanded0| > |start0| && TotalFileSize(start1) + TotalFileSize(expanded0) < 25 * maxFileSize {
        var expanded1 := TakeOverlap(v, level, expanded0);
        if |expanded1| == |start1| {
          inputs0, inputs1 := expanded0, expanded1;
        }
        assert KeepsCount(v, level, start0, start1, expanded0, expanded1, inputs0, inputs1);
      }
      assert GrownBy(v, level, start0, start1, maxFileSize, expanded0, inputs0, inputs1);
    }
  }

  /** What the inputs of the upper level would grow to. */
  method Expand(v: Levels, level: nat, start0: seq<FileMeta>, start1: seq<FileMeta>) returns (expanded0: seq<FileMeta>)
    requires ValidVersion(v) && level + 1 < NUM_LEVELS && GoodPair(v, level, start0, start1)
    ensures IsExpansion(v, level, start0 + start1, expanded0)
    ensures expanded0 != [] && GoodStart(level, v[level], expanded0) && BoundaryClosed(v[level], expanded0)
    ensures forall f :: f in start0 ==> f in expanded0
  {
    hide IsExpansion, OverlapFilter, BoundaryClosed, ClosedRange, Covers, WithinClosures, TakesOverlap, Convex, UserApart, IsExtension, IsSmallest, IsLargest, ValidFile;
    assert ValidLevel(level, v[level]);
    ValidEndsInOrder(v, level);
    var allStart, allLimit := GetRange(start0 + start1);
    var expanded, b, e := GetOverlappingInputs(v, level, Some(allStart), Some(allLimit));
    OverlapIsGoodStart(level, v[level], expanded, b, e);
    CoversOwn(level, v[level], allStart, allLimit, b, e);
    RangeCoversInputs(v[level], start0, start1, allStart, allLimit, expanded, b, e);
    expanded0 := AddBoundaryInputs(level, v[level], expanded);
    ExtensionContains(v[level], expanded, expanded0);
    assert start0[0] in start0;
    IsExpanded(v, level, start0 + start1, allStart, allLimit, expanded, b, e, expanded0);
  }

  lemma CoversOwn(level: nat, files: seq<FileMeta>, lo: InternalKey, hi: InternalKey, b: Option<Bytes>, e: Option<Bytes>)
    requires if level == 0 then LeastClosed(files, b, e, Some(lo.user), Some(hi.user)) else b == Some(lo.user) && e == Some(hi.user)
    ensures Covers(b, e, Some(lo.user), Some(hi.user))
  {
  }

  /** The files two levels down that overlap the whole compaction. */
  method FindGrandparents(v: Levels, level: nat, inputs: seq<FileMeta>) returns (grandparents: seq<FileMeta>)
    requires ValidVersion(v) && inputs != []
    ensures level + 2 < NUM_LEVELS ==> TakesOverlap(v[level + 2], inputs, grandparents)
    ensures level + 2 >= NUM_LEVELS ==> grandparents == []
  {
    grandparents := [];
    if level + 2 < NUM_LEVELS {
      assert ValidLevel(level + 2, v[level + 2]);
      ValidEndsInOrder(v, level + 2);
      var allStart, allLimit := GetRange(inputs);
      ghost var b, e;
      grandparents, b, e := GetOverlappingInputs(v, level + 2, Some(allStart), Some(allLimit));
      OverlapIsTaken(v[level + 2], inputs, grandparents, allStart, allLimit);
    }
  }

  /** Everything that SetupOtherInputs decides, starting from `start`. */
  ghost predicate ChosenFrom(v: Levels, start: seq<FileMeta>, maxFileSize: nat, c: Compaction) {
    && c.level + 1 < NUM_LEVELS
    && (exists inputs0, inputs1 ::
          && IsExtension(v[c.level], start, inputs0) && TakesOverlap(v[c.level + 1], inputs0, inputs1)
          && Grown(v, c.level, inputs0, inputs1, maxFileSize, c.inputs0, c.inputs1))
    && if c.level + 2 < NUM_LEVELS then TakesOverlap(v[c.level + 2], c.inputs0 + c.inputs1, c.grandparents) else c.grandparents == []
  }

  method SetupOtherInputs(v: Levels, level: nat, start: seq<FileMeta>, maxFileSize: nat) returns (c: Compaction)
    requires ValidVersion(v) && level + 1 < NUM_LEVELS
    requires start != [] && GoodStart(level, v[level], start)
    ensures ValidCompaction(v, c) && c.level == level && ChosenFrom(v, start, maxFileSize, c)
    ensures forall f :: f in start ==> f in c.inputs0
  {
    hide Grown, IsExtension, TakesOverlap;
    assert ValidLevel(level, v[level]);
    var start0 := AddBoundaryInputs(level, v[level], start);
    ExtensionContains(v[level], start, start0);
    var start1 := TakeOverlap(v, level, start0);
    var inputs0, inputs1 := GrowInputs(v, level, start0, start1, maxFileSize);
    var grandparents := FindGrandparents(v, level, inputs0 + inputs1);
    ClosedLeavesNewer(v, level, inputs0);
    c := Compaction(level, inputs0, inputs1, grandparents);
  }

  lemma ExtensionContains(files: seq<FileMeta>, start: seq<FileMeta>, inputs: seq<FileMeta>)
    requires IsExtension(files, start, inputs)
    ensures forall f :: f in start ==> f in inputs
    ensures start != [] ==> inputs != []
  {
  }

  /** The files of level 0 that go with `file`; on other levels it goes alone. */
  ghost predicate StartsWith(v: Levels, level: nat, file: FileMeta, start: seq<FileMeta>)
    requires level < NUM_LEVELS
  {
    if level == 0 then OverlapOf(v, 0, Some(file.smallest.user), Some(file.largest.user), start) else start == [file]
  }

  ghost predicate PickedFor(v: Levels, level: nat, file: FileMeta, maxFileSize: nat, c: Compaction)
    requires level < NUM_LEVELS
  {
    c.level == level && exists start :: StartsWith(v, level, file, start) && ChosenFrom(v, start, maxFileSize, c)
  }

  /** PickCompaction for the file that the size or seek trigger selected. */
  method PickCompaction(v: Levels, level: nat, file: FileMeta, maxFileSize: nat) returns (c: Compaction)
    requires ValidVersion(v) && level + 1 < NUM_LEVELS && file in v[level]
    ensures ValidCompaction(v, c) && c.level == level && file in c.inputs0
    ensures PickedFor(v, level, file, maxFileSize, c)
  {
    hide ChosenFrom;
    assert ValidLevel(level, v[level]);
    ValidEndsInOrder(v, level);
    var inputs := [file];
    if level == 0 {
      var smallest, largest := GetRange(inputs);
      ghost var b, e;
      inputs, b, e := GetOverlappingInputs(v, 0, Some(smallest), Some(largest));
      OverlapIsGoodStart(0, v[0], inputs, b, e);
      OverlapFilterMembers(v[0], b, e);
      FileEnds(file);
      assert file in inputs;
      OneFileRange(file, smallest, largest);
    } else {
      FileEnds(file);
    }
    assert StartsWith(v, level, file, inputs);
    c := SetupOtherInputs(v, level, inputs, maxFileSize);
  }

  lemma OneFileRange(file: FileMeta, lo: InternalKey, hi: InternalKey)
    requires IsSmallest([file], lo) && IsLargest([file], hi)
    ensures lo == file.smallest && hi == file.largest
  {
  }

  /** Above level 0 the files up to the first one with which they reach one file's size. */
  ghost predicate CutTo(level: nat, overlap: seq<FileMeta>, maxFileSize: nat, start: seq<FileMeta>) {
    if level == 0 then start == overlap
    else
      && start != [] && start <= overlap
      && (forall n :: 0 < n < |start| ==> TotalFileSize(overlap[..n]) < maxFileSize)
      && (|start| < |overlap| ==> TotalFileSize(start) >= maxFileSize)
  }

  lemma {:induction false} TotalGrows(files: seq<FileMeta>, f: FileMeta)
    ensures TotalFileSize(files + [f]) == TotalFileSize(files) + f.size
  {
    if files != [] {
      TotalGrows(files[1..], f);
      assert (files + [f])[1..] == files[1..] + [f];
    }
  }

  method CutLength(level: nat, inputs: seq<FileMeta>, maxFileSize: nat) returns (n: nat)
    requires level > 0 && inputs != []
    ensures 0 < n <= |inputs| && CutTo(level, inputs, maxFileSize, inputs[..n])
  {
    hide TotalFileSize;
    NoFilesNoSize();
    var total := 0;
    n := |inputs|;
    for i := 0 to |inputs|
      invariant n == |inputs| && total == TotalFileSize(inputs[..i])
      invariant forall m :: 0 < m <= i ==> TotalFileSize(inputs[..m]) < maxFileSize
    {
      assert inputs[..i + 1] == inputs[..i] + [inputs[i]];
      TotalGrows(inputs[..i], inputs[i]);
      total := total + inputs[i].size;
      if total >= maxFileSize {
        n := i + 1;
        break;
      }
    }
  }

  lemma NoFilesNoSize()
    ensures TotalFileSize([]) == 0
  {
  }

  /** Manual compaction of [begin, end]; above level 0 the inputs are cut once they reach one file's size. */
  method CompactRange(v: Levels, level: nat, begin: Option<InternalKey>, end: Option<InternalKey>, maxFileSize: nat)
    returns (r: Option<Compaction>)
    requires ValidVersion(v) && level + 1 < NUM_LEVELS
    ensures r.Some? ==> ValidCompaction(v, r.value) && r.value.level == level
    ensures r.None? ==> forall f :: f in v[level] ==> !Overlaps(f, UserOf(begin), UserOf(end))
    ensures r.Some? ==> exists overlap, start ::
              OverlapOf(v, level, UserOf(begin), UserOf(end), overlap) && CutTo(level, overlap, maxFileSize, start) && ChosenFrom(v, start, maxFileSize, r.value)
  {
    hide ChosenFrom, OverlapFilter;
    assert ValidLevel(level, v[level]);
    ValidEndsInOrder(v, level);
    var inputs, b, e := GetOverlappingInputs(v, level, begin, end);
    OverlapFilterMembers(v[level], b, e);
    OverlapIsGoodStart(level, v[level], inputs, b, e);
    if inputs == [] {
      return None;
    }
    ghost var overlap := inputs;
    assert OverlapOf(v, level, UserOf(begin), UserOf(end), overlap);
    if level > 0 {
      OverlapFilterInOrder(v[level], b, e);
      var n := CutLength(level, inputs, maxFileSize);
      PrefixIsGoodStart(v[level], inputs, n);
      inputs := inputs[..n];
    }
    assert CutTo(level, overlap, maxFileSize, inputs);
    var c := SetupOtherInputs(v, level, inputs, maxFileSize);
    return Some(c);
  }
}
