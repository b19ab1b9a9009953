/** One version of the tree: seven levels of table files, and point lookup through them. */
module Version {
  import opened ByteOrder
  import opened DbFormat

  const NUM_LEVELS: nat := 7
  const MAX_MEM_COMPACT_LEVEL: nat := 2

  datatype FileMeta = FileMeta(number: nat, size: nat, smallest: InternalKey, largest: InternalKey, entries: seq<Entry>)

  type Levels = v: seq<seq<FileMeta>> | |v| == NUM_LEVELS witness [[], [], [], [], [], [], []]

  ghost predicate ValidFile(f: FileMeta) {
    && f.entries != []
    && Sorted(f.entries)
    && f.smallest == f.entries[0].key
    && f.largest == f.entries[|f.entries| - 1].key
  }

  ghost predicate Disjoint(files: seq<FileMeta>) {
    forall i, j :: 0 <= i < j < |files| ==> KeyLt(files[i].largest, files[j].smallest)
  }

  ghost function FilesEntries(files: seq<FileMeta>): set<Entry> {
    set f, e | f in files && e in f.entries :: e
  }

  ghost function VersionEntries(v: Levels): set<Entry> {
    set level, e | 0 <= level < NUM_LEVELS && e in FilesEntries(v[level]) :: e
  }

  /** Level-0 files carry their age in the file number. */
  ghost predicate NewerFileNewerEntries(files: seq<FileMeta>) {
    forall f, g :: f in files && g in files && f.number > g.number ==> Above(Elements(f.entries), Elements(g.entries))
  }

  ghost predicate DistinctNumbers(files: seq<FileMeta>) {
    forall i, j :: 0 <= i < j < |files| ==> files[i].number != files[j].number
  }

  /** BySmallestKey: by smallest key, ties broken by file number. */
  ghost predicate FileLt(f: FileMeta, g: FileMeta) {
    KeyLt(f.smallest, g.smallest) || (f.smallest == g.smallest && f.number < g.number)
  }

  ghost predicate SortedFiles(files: seq<FileMeta>) {
    forall i, j :: 0 <= i < j < |files| ==> FileLt(files[i], files[j])
  }

  ghost predicate ValidLevel(level: nat, files: seq<FileMeta>) {
    && (forall f :: f in files ==> ValidFile(f))
    && DistinctNumbers(files)
    && SortedFiles(files)
    && if level == 0 then NewerFileNewerEntries(files) else Disjoint(files)
  }

  ghost predicate ValidVersion(v: Levels) {
    && (forall level :: 0 <= level < NUM_LEVELS ==> ValidLevel(level, v[level]))
    && (forall i, j :: 0 <= i < j < NUM_LEVELS ==> Above(FilesEntries(v[i]), FilesEntries(v[j])))
    && UniqueSequences(VersionEntries(v))
  }

  /** Smallest index of a file whose largest key is at or after `key`. */
  method FindFile(files: seq<FileMeta>, key: InternalKey) returns (right: nat)
    requires Disjoint(files) && forall f :: f in files ==> ValidFile(f)
    ensures right <= |files|
    ensures forall i :: 0 <= i < right ==> KeyLt(files[i].largest, key)
    ensures forall i :: right <= i < |files| ==> !KeyLt(files[i].largest, key)
  {
    var left := 0;
    right := |files|;
    while left < right
      invariant 0 <= left <= right <= |files|
      invariant forall i :: 0 <= i < left ==> KeyLt(files[i].largest, key)
      invariant forall i :: right <= i < |files| ==> !KeyLt(files[i].largest, key)
    {
      var mid := (left + right) / 2;
      forall i | 0 <= i < mid
        ensures KeyLt(files[i].largest, files[mid].largest)
      {
        FileEnds(files[mid]);
        assert KeyLt(files[i].largest, files[mid].smallest);
      }
      forall i | mid < i < |files|
        ensures KeyLt(files[mid].largest, files[i].largest)
      {
        FileEnds(files[i]);
        assert KeyLt(files[mid].largest, files[i].smallest);
      }
      if CompareKeys(files[mid].largest, key) < 0 {
        left := mid + 1;
      } else {
        right := mid;
      }
    }
  }

  lemma FileEnds(f: FileMeta)
    requires ValidFile(f)
    ensures !KeyLt(f.largest, f.smallest)
  {
  }

  lemma FileSpan(f: FileMeta)
    requires ValidFile(f)
    ensures !KeyLt(f.largest, f.smallest)
    ensures forall e :: e in f.entries ==> !KeyLt(e.key, f.smallest) && !KeyLt(f.largest, e.key)
  {
    forall e | e in f.entries
      ensures !KeyLt(e.key, f.smallest) && !KeyLt(f.largest, e.key)
    {
      var i :| 0 <= i < |f.entries| && f.entries[i] == e;
      if 0 < i { assert KeyLt(f.entries[0].key, f.entries[i].key); }
      if i < |f.entries| - 1 { assert KeyLt(f.entries[i].key, f.entries[|f.entries| - 1].key); }
    }
    assert f.entries[0] in f.entries;
  }

  predicate InUserRange(f: FileMeta, user: Bytes)
    ensures InUserRange(f, user) <==> Le(f.smallest.user, user) && Le(user, f.largest.user)
  {
    Compare(user, f.smallest.user) >= 0 && Compare(user, f.largest.user) <= 0
  }

  lemma OutOfUserRange(f: FileMeta, user: Bytes)
    requires ValidFile(f) && !InUserRange(f, user)
    ensures forall e :: e in f.entries ==> e.key.user != user
  {
    FileSpan(f);
  }

  /** The one file that FindFile selects answers for the whole level, even when a user key spans files. */
  lemma OneFileAnswersLevel(files: seq<FileMeta>, index: nat, user: Bytes, s: nat)
    requires Disjoint(files) && forall f :: f in files ==> ValidFile(f)
    requires index <= |files|
    requires forall i :: 0 <= i < index ==> KeyLt(files[i].largest, SeekKey(user, s))
    requires index < |files| ==> !KeyLt(files[index].largest, SeekKey(user, s))
    ensures IsNewest(FilesEntries(files), user, s,
              if index < |files| && !Lt(user, files[index].smallest.user) then Lookup(files[index].entries, user, s) else None)
  {
    var key := SeekKey(user, s);
    forall e | e in FilesEntries(files) && Visible(e, user, s)
      ensures index < |files| && (e in files[index].entries || KeyLt(files[index].largest, e.key))
    {
      var f :| f in files && e in f.entries;
      var i :| 0 <= i < |files| && files[i] == f;
      FileSpan(f);
      assert !KeyLt(e.key, key);
      assert index <= i;
      if index < i {
        assert KeyLt(files[index].largest, files[i].smallest);
      }
    }
    if index < |files| {
      var f := files[index];
      FileSpan(f);
      LookupFindsNewest(f.entries, user, s);
      var i := SeekIndex(f.entries, key);
      assert i < |f.entries|;
      assert f.entries[i] in f.entries;
      assert f.entries[i] in FilesEntries(files);
      if f.entries[i].key.user == user {
        forall e | e in FilesEntries(files) && Visible(e, user, s)
          ensures e.key.sequence <= f.entries[i].key.sequence
        {
        }
      }
    }
  }

  /** Level-0 files that may hold `user`, in list order. */
  method CollectOverlapping(files: seq<FileMeta>, user: Bytes) returns (tmp: seq<FileMeta>)
    requires DistinctNumbers(files)
    ensures DistinctNumbers(tmp)
    ensures forall f :: f in tmp <==> f in files && InUserRange(f, user)
  {
    tmp := [];
    for i := 0 to |files|
      invariant DistinctNumbers(tmp)
      invariant forall f :: f in tmp <==> f in files[..i] && InUserRange(f, user)
    {
      assert files[..i + 1] == files[..i] + [files[i]];
      assert forall f :: f in tmp ==> f.number != files[i].number;
      if InUserRange(files[i], user) {
        tmp := tmp + [files[i]];
      }
    }
    assert files[..|files|] == files;
  }

  ghost predicate NewestFirst(files: seq<FileMeta>) {
    forall i, j :: 0 <= i < j < |files| ==> files[i].number > files[j].number
  }

  /** std::sort with NewestFirst. */
  function SortNewestFirst(files: seq<FileMeta>): (r: seq<FileMeta>)
    requires DistinctNumbers(files)
    ensures NewestFirst(r)
    ensures forall f :: f in r <==> f in files
  {
    if files == [] then []
    else
      assert files == [files[0]] + files[1..];
      InsertByAge(files[0], SortNewestFirst(files[1..]))
  }

  function InsertByAge(f: FileMeta, files: seq<FileMeta>): (r: seq<FileMeta>)
    requires NewestFirst(files)
    requires forall g :: g in files ==> g.number != f.number
    ensures NewestFirst(r)
    ensures forall g :: g in r <==> g == f || g in files
  {
    if files == [] || f.number > files[0].number then [f] + files
    else
      assert files == [files[0]] + files[1..];
      var rest := InsertByAge(f, files[1..]);
      assert forall g :: g in rest ==> g.number < files[0].number;
      [files[0]] + rest
  }

  /** Search of the sorted level-0 candidates, newest file first. */
  method SearchNewestFirst(files: seq<FileMeta>, user: Bytes, s: nat) returns (r: Option<Entry>)
    requires NewestFirst(files) && NewerFileNewerEntries(files)
    requires forall f :: f in files ==> ValidFile(f)
    ensures IsNewest(FilesEntries(files), user, s, r)
  {
    r := None;
    for i := 0 to |files|
      invariant r.None?
      invariant forall j :: 0 <= j < i ==> IsNewest(Elements(files[j].entries), user, s, None)
    {
      var f := files[i];
      assert f in files;
      LookupFindsNewest(f.entries, user, s);
      r := Lookup(f.entries, user, s);
      if r.Some? {
        NewestFileHides(files, i, user, s, r);
        return;
      }
    }
  }

  lemma NewestFileHides(files: seq<FileMeta>, i: nat, user: Bytes, s: nat, r: Option<Entry>)
    requires NewestFirst(files) && NewerFileNewerEntries(files) && i < |files|
    requires forall j :: 0 <= j < i ==> IsNewest(Elements(files[j].entries), user, s, None)
    requires r.Some? && IsNewest(Elements(files[i].entries), user, s, r)
    ensures IsNewest(FilesEntries(files), user, s, r)
  {
    forall e | e in FilesEntries(files) && Visible(e, user, s)
      ensures e.key.sequence <= r.value.key.sequence
    {
      var g :| g in files && e in g.entries;
      var j :| 0 <= j < |files| && files[j] == g;
      assert e in Elements(g.entries);
      if i < j {
        assert Above(Elements(files[i].entries), Elements(g.entries));
      }
    }
  }

  /** Version::Get: level by level, stopping at the first file that knows the key. */
  method Get(v: Levels, user: Bytes, s: nat) returns (r: Option<Entry>)
    requires ValidVersion(v)
    ensures IsNewest(VersionEntries(v), user, s, r)
  {
    r := None;
    for level := 0 to NUM_LEVELS
      invariant r.None?
      invariant forall l :: 0 <= l < level ==> IsNewest(FilesEntries(v[l]), user, s, None)
    {
      if level == 0 {
        var tmp := CollectOverlapping(v[0], user);
        var sorted := SortNewestFirst(tmp);
        r := SearchNewestFirst(sorted, user, s);
        SkippedFilesDoNotMatter(v[0], sorted, user, s, r);
      } else {
        var index := FindFile(v[level], SeekKey(user, s));
        OneFileAnswersLevel(v[level], index, user, s);
        if index < |v[level]| && Compare(user, v[level][index].smallest.user) >= 0 {
          r := Lookup(v[level][index].entries, user, s);
        }
      }
      if r.Some? {
        assert forall l :: level < l < NUM_LEVELS ==> Above(FilesEntries(v[level]), FilesEntries(v[l]));
        HitEndsSearch(v, level, user, s, r);
        return;
      }
    }
  }

  lemma SkippedFilesDoNotMatter(files: seq<FileMeta>, kept: seq<FileMeta>, user: Bytes, s: nat, r: Option<Entry>)
    requires forall f :: f in files ==> ValidFile(f)
    requires forall f :: f in kept <==> f in files && InUserRange(f, user)
    requires IsNewest(FilesEntries(kept), user, s, r)
    ensures IsNewest(FilesEntries(files), user, s, r)
  {
    forall e | e in FilesEntries(files) && Visible(e, user, s)
      ensures e in FilesEntries(kept)
    {
      var f :| f in files && e in f.entries;
      if !InUserRange(f, user) {
        OutOfUserRange(f, user);
      }
    }
  }

  lemma HitEndsSearch(v: Levels, level: nat, user: Bytes, s: nat, r: Option<Entry>)
    requires level < NUM_LEVELS
    requires forall l :: level < l < NUM_LEVELS ==> Above(FilesEntries(v[level]), FilesEntries(v[l]))
    requires forall l :: 0 <= l < level ==> IsNewest(FilesEntries(v[l]), user, s, None)
    requires r.Some? && IsNewest(FilesEntries(v[level]), user, s, r)
    ensures IsNewest(VersionEntries(v), user, s, r)
  {
    forall e | e in VersionEntries(v) && Visible(e, user, s)
      ensures e.key.sequence <= r.value.key.sequence
    {
      var l :| 0 <= l < NUM_LEVELS && e in FilesEntries(v[l]);
      assert level <= l;
    }
  }
}
