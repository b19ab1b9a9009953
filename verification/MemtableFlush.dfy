/** Choosing the level for a flushed memtable. */
module MemtableFlush {
  import opened ByteOrder
  import opened DbFormat
  import opened Version
  import opened CompactionInputs
  import opened Install

  method SomeFileOverlapsRange(disjointSortedFiles: bool, files: seq<FileMeta>, smallestUserKey: Option<Bytes>, largestUserKey: Option<Bytes>)
    returns (r: bool)
    requires forall f :: f in files ==> ValidFile(f) && f.largest.sequence <= MAX_SEQUENCE_NUMBER
    requires disjointSortedFiles ==> Disjoint(files)
    ensures r <==> exists f :: f in files && Overlaps(f, smallestUserKey, largestUserKey)
  {
    if !disjointSortedFiles {
      for i := 0 to |files|
        invariant forall f :: f in files[..i] ==> !Overlaps(f, smallestUserKey, largestUserKey)
      {
        var f := files[i];
        assert files[..i + 1] == files[..i] + [f];
        if (smallestUserKey.Some? && Compare(smallestUserKey.value, f.largest.user) > 0)
          || (largestUserKey.Some? && Compare(largestUserKey.value, f.smallest.user) < 0) {
          // no overlap
        } else {
          assert f in files;
          return true;
        }
      }
      assert files[..|files|] == files;
      return false;
    }
    var index := 0;
    if smallestUserKey.Some? {
      index := FindFile(files, InternalKey(smallestUserKey.value, MAX_SEQUENCE_NUMBER, Value));
      AllBeforeAreBelow(files, index, smallestUserKey.value);
    }
    if index >= |files| {
      return false;
    }
    r := !(largestUserKey.Some? && Compare(largestUserKey.value, files[index].smallest.user) < 0);
    if r {
      assert files[index] in files;
    } else {
      AllAfterAreAbove(files, index, largestUserKey.value);
    }
  }

  lemma AllBeforeAreBelow(files: seq<FileMeta>, index: nat, user: Bytes)
    requires index <= |files| && forall f :: f in files ==> f.largest.sequence <= MAX_SEQUENCE_NUMBER
    requires forall i :: 0 <= i < index ==> KeyLt(files[i].largest, InternalKey(user, MAX_SEQUENCE_NUMBER, Value))
    requires forall i :: index <= i < |files| ==> !KeyLt(files[i].largest, InternalKey(user, MAX_SEQUENCE_NUMBER, Value))
    ensures forall i :: 0 <= i < index ==> Lt(files[i].largest.user, user)
    ensures forall i :: index <= i < |files| ==> Le(user, files[i].largest.user)
  {
    forall i | 0 <= i < index
      ensures Lt(files[i].largest.user, user)
    {
      assert files[i] in files;
    }
  }

  lemma AllAfterAreAbove(files: seq<FileMeta>, index: nat, user: Bytes)
    requires Disjoint(files) && (forall f :: f in files ==> ValidFile(f)) && index < |files|
    requires Lt(user, files[index].smallest.user)
    ensures forall i :: index <= i < |files| ==> Lt(user, files[i].smallest.user)
  {
    FileEnds(files[index]);
  }

  ghost predicate LevelMeets(v: Levels, level: nat, lo: Bytes, hi: Bytes)
    requires level < NUM_LEVELS
  {
    exists f :: f in v[level] && Overlaps(f, Some(lo), Some(hi))
  }

  /** The level is as deep as the three stopping rules allow. */
  ghost predicate DeepestAllowed(v: Levels, level: nat, lo: Bytes, hi: Bytes, maxFileSize: nat)
    requires level <= MAX_MEM_COMPACT_LEVEL
  {
    || level == MAX_MEM_COMPACT_LEVEL
    || LevelMeets(v, level + 1, lo, hi)
    || (level == 0 && LevelMeets(v, 0, lo, hi))
    || TotalFileSize(OverlapFilter(v[level + 2], Some(lo), Some(hi))) > 10 * maxFileSize
  }

  method OverlappingSize(v: Levels, level: nat, smallestUserKey: Bytes, largestUserKey: Bytes) returns (sum: nat)
    requires ValidVersion(v) && 0 < level < NUM_LEVELS
    ensures sum == TotalFileSize(OverlapFilter(v[level], Some(smallestUserKey), Some(largestUserKey)))
  {
    var start, limit := InternalKey(smallestUserKey, MAX_SEQUENCE_NUMBER, Value), InternalKey(largestUserKey, 0, Deletion);
    assert ValidLevel(level, v[level]);
    ValidEndsInOrder(v, level);
    var overlaps, b, e := GetOverlappingInputs(v, level, Some(start), Some(limit));
    sum := TotalFileSize(overlaps);
  }

  method PickLevelForMemTableOutput(v: Levels, smallestUserKey: Bytes, largestUserKey: Bytes, maxFileSize: nat) returns (level: nat)
    requires ValidVersion(v) && BoundedSequences(v)
    ensures level <= MAX_MEM_COMPACT_LEVEL
    ensures level > 0 ==> forall l :: 0 <= l <= level ==> !LevelMeets(v, l, smallestUserKey, largestUserKey)
    ensures DeepestAllowed(v, level, smallestUserKey, largestUserKey, maxFileSize)
  {
    level := 0;
    var overlap := OverlapInLevel(v, 0, smallestUserKey, largestUserKey);
    if !overlap {
      while level < MAX_MEM_COMPACT_LEVEL
        invariant level <= MAX_MEM_COMPACT_LEVEL
        invariant forall l :: 0 <= l <= level ==> !LevelMeets(v, l, smallestUserKey, largestUserKey)
      {
        overlap := OverlapInLevel(v, level + 1, smallestUserKey, largestUserKey);
        if overlap {
          break;
        }
        var sum := OverlappingSize(v, level + 2, smallestUserKey, largestUserKey);
        if sum > 10 * maxFileSize {
          break;
        }
        level := level + 1;
      }
    }
  }

  ghost predicate BoundedSequences(v: Levels) {
    forall e :: e in VersionEntries(v) ==> e.key.sequence <= MAX_SEQUENCE_NUMBER
  }

  method OverlapInLevel(v: Levels, level: nat, lo: Bytes, hi: Bytes) returns (r: bool)
    requires ValidVersion(v) && BoundedSequences(v) && level < NUM_LEVELS
    ensures r <==> LevelMeets(v, level, lo, hi)
  {
    assert ValidLevel(level, v[level]);
    forall f | f in v[level]
      ensures f.largest.sequence <= MAX_SEQUENCE_NUMBER
    {
      var e := f.entries[|f.entries| - 1];
      assert e in f.entries;
      EntryPlace(v, level, f, e);
    }
    r := SomeFileOverlapsRange(level > 0, v[level], Some(lo), Some(hi));
  }
}
