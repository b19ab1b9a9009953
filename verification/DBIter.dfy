/** The user-level iterator: a cursor over the keys visible at one sequence number. */
module DBIteration {
  import opened ByteOrder
  import opened DbFormat
  import MergingIteration

  datatype Direction = Forward | Reverse

  /** Entry `i` is what the iterator shows for its key: the newest one not after `s`, and not a deletion. */
  ghost predicate Shows(es: seq<Entry>, s: nat, i: nat)
    requires i < |es|
  {
    && es[i].key.sequence <= s
    && es[i].key.kind.Value?
    && forall j :: 0 <= j < i && es[j].key.user == es[i].key.user ==> es[j].key.sequence > s
  }

  /** The keys shown are those whose newest visible version is a value. */
  lemma ShowsNewest(es: seq<Entry>, s: nat, i: nat)
    requires Sorted(es) && i < |es|
    ensures Shows(es, s, i) <==> es[i].key.kind.Value? && IsNewest(Elements(es), es[i].key.user, s, Some(es[i]))
  {
    assert es[i] in Elements(es);
    if Shows(es, s, i) {
      forall x | x in es && Visible(x, es[i].key.user, s)
        ensures x.key.sequence <= es[i].key.sequence
      {
        var j :| 0 <= j < |es| && es[j] == x;
        if i < j { assert KeyLt(es[i].key, es[j].key); }
      }
    }
    if es[i].key.kind.Value? && IsNewest(Elements(es), es[i].key.user, s, Some(es[i])) {
      forall j | 0 <= j < i && es[j].key.user == es[i].key.user
        ensures es[j].key.sequence > s
      {
        assert KeyLt(es[j].key, es[i].key);
        assert es[j] in Elements(es);
      }
    }
  }

  lemma UsersAscend(es: seq<Entry>, i: nat, j: nat)
    requires Sorted(es) && i <= j < |es|
    ensures Le(es[i].key.user, es[j].key.user)
  {
    if i < j { assert KeyLt(es[i].key, es[j].key); }
  }

  lemma UsersUpTo(es: seq<Entry>, p: nat)
    requires Sorted(es) && p < |es|
    ensures forall j :: 0 <= j <= p ==> Le(es[j].key.user, es[p].key.user)
  {
    forall j | 0 <= j <= p
      ensures Le(es[j].key.user, es[p].key.user)
    {
      UsersAscend(es, j, p);
    }
  }

  class DBIter {
    const iter: MergingIteration.MergingIterator
    const sequence: nat
    var direction: Direction
    var valid: bool
    var savedKey: Bytes
    var savedValue: Bytes
    ghost const es: seq<Entry>  // the merged entries under the internal iterator
    ghost var cur: nat          // the entry shown

    ghost predicate Quiet(from: nat, to: nat)
      requires from <= to <= |es|
    {
      forall j :: from <= j < to ==> es[j].key.sequence > sequence
    }

    /** Reverse position: the iterator stands before the current key, past nothing visible. */
    ghost predicate StandsBefore(start: nat)
      reads this, iter
    {
      && start <= |es|
      && if iter.at < |es| then iter.at < start && Lt(es[iter.at].key.user, savedKey) && Quiet(iter.at + 1, start) else Quiet(0, start)
    }

    ghost predicate FirstOfUser(start: nat, i: nat)
      requires i < |es|
    {
      && start <= i
      && (forall j :: start <= j <= i ==> es[j].key.user == es[i].key.user)
      && (start > 0 ==> es[start - 1].key.user != es[i].key.user)
    }

    /** The internal iterator is a cursor over `es`. */
    ghost predicate OverEntries()
      reads iter, iter.pos
    {
      iter.Valid() && es == iter.merged && Sorted(es) && iter.at <= |es|
    }

    ghost predicate Valid()
      reads this, iter, iter.pos
    {
      && OverEntries()
      && (valid ==> cur < |es| && Shows(es, sequence, cur))
      && (valid && direction == Forward ==> iter.at == cur)
      && (valid && direction == Reverse ==>
            && savedKey == es[cur].key.user && savedValue == es[cur].value
            && exists start :: FirstOfUser(start, cur) && StandsBefore(start))
    }

    /** The entry shown, if any. */
    ghost function Current(): Option<nat>
      reads this
    {
      if valid then Some(cur) else None
    }

    /** `r` is the first shown entry at or after `from` whose key satisfies the bound. */
    ghost predicate IsFirstFrom(from: nat, r: Option<nat>) {
      match r
      case Some(i) => from <= i < |es| && Shows(es, sequence, i) && NothingShown(from, i)
      case None => NothingShown(from, |es|)
    }

    ghost predicate IsLastBefore(to: nat, r: Option<nat>)
      requires to <= |es|
    {
      match r
      case Some(i) => i < to && Shows(es, sequence, i) && NothingShown(i + 1, to)
      case None => NothingShown(0, to)
    }

    constructor (iter: MergingIteration.MergingIterator, sequence: nat)
      requires iter.Valid()
      ensures Valid() && !valid && this.iter == iter && this.es == iter.merged && this.sequence == sequence
    {
      this.iter := iter;
      this.es := iter.merged;
      this.sequence := sequence;
      direction := Forward;
      valid := false;
      savedKey, savedValue := [], [];
      cur := 0;
      new;
      iter.Facts();
    }

    method Key() returns (k: Bytes)
      requires Valid() && valid
      ensures k == es[cur].key.user
    {
      iter.Facts();
      k := if direction == Forward then iter.Key().user else savedKey;
    }

    method Value() returns (v: Bytes)
      requires Valid() && valid
      ensures v == es[cur].value
    {
      iter.Facts();
      v := if direction == Forward then iter.Value() else savedValue;
    }

    // ----- Forward -----

    /** Wanted by FindNextUserEntry: shown, and past the key to skip. */
    ghost predicate Wanted(i: nat, skipping: bool, skip: Bytes)
      requires i < |es|
    {
      Shows(es, sequence, i) && (skipping ==> Lt(skip, es[i].key.user))
    }

    ghost predicate NothingWanted(from: nat, to: nat, skipping: bool, skip: Bytes)
      requires to <= |es|
    {
      forall j: nat :: from <= j < to ==> !Wanted(j, skipping, skip)
    }

    ghost predicate NothingShown(from: nat, to: nat)
      requires to <= |es|
    {
      forall j: nat :: from <= j < to ==> !Shows(es, sequence, j)
    }

    /** Nothing visible before `start` belongs to a key that still needs to be hidden unless it is being skipped. */
    ghost predicate CleanStart(start: nat, skipping: bool, skip: Bytes)
      requires start <= |es|
    {
      && (forall j, p :: 0 <= j < start <= p < |es| && es[j].key.sequence <= sequence && es[j].key.user == es[p].key.user
           ==> skipping && Le(es[p].key.user, skip))
      && (skipping ==> forall p :: start <= p < |es| && es[p].key.sequence <= sequence ==> Le(skip, es[p].key.user))
    }

    /** The key being skipped is the one given, or that of an entry passed since. */
    ghost predicate SkipsFrom(start: nat, p: nat, skipping0: bool, skip0: Bytes, skip: Bytes)
      requires p <= |es|
    {
      || (skipping0 && skip == skip0)
      || exists j :: start <= j < p && es[j].key.sequence <= sequence && es[j].key.user == skip
    }

    method FindNextUserEntry(skipping0: bool, skip0: Bytes)
      requires OverEntries() && iter.OnEntry() && direction == Forward
      requires CleanStart(iter.at, skipping0, skip0)
      modifies this, iter, iter.pos
      ensures Valid() && direction == Forward
      ensures valid ==> old(iter.at) <= cur && Wanted(cur, skipping0, skip0)
      ensures NothingWanted(old(iter.at), if valid then cur else |es|, skipping0, skip0)
    {
      hide MergingIteration.MergingIterator.Valid, Sorted, CleanStart, Compare, Rank, Wanted, SkipsFrom, SeenUpTo, NothingWanted, Shows;
      var skipping, skip := skipping0, skip0;
      iter.Facts();
      ghost var start := iter.at;
      valid := false;
      NothingYet(start, skipping0, skip0);
      while iter.OnEntry()
        invariant OverEntries() && (iter.OnEntry() <==> iter.at < |es|)
        invariant start <= iter.at && direction == Forward && !valid
        invariant NothingWanted(start, iter.at, skipping0, skip0)
        invariant SeenUpTo(start, iter.at, skipping, skip)
        invariant skipping0 ==> skipping && Le(skip0, skip)
        invariant skipping ==> SkipsFrom(start, iter.at, skipping0, skip0, skip)
        decreases |es| - iter.at
      {
        var key := iter.Key();
        ghost var p := iter.at;
        if key.sequence <= sequence {
          NotBeforeSkip(start, p, skipping0, skip0);
          if key.kind.Deletion? {
            MarkerIsSeen(start, p, skipping0, skip0, skipping, skip);
            skip := key.user;
            skipping := true;
          } else if skipping && Compare(key.user, skip) <= 0 {
            HiddenIsNotWanted(start, p, skipping0, skip0, skip);
            HiddenIsSeen(start, p, skipping0, skip0, skip);
          } else {
            NewKeyIsWanted(start, p, skipping0, skip0, skipping, skip);
            valid := true;
            savedKey := [];
            cur := iter.at;
            return;
          }
        } else {
          LaterIsPassed(start, p, skipping0, skip0, skipping, skip);
        }
        iter.Next();
        iter.Facts();
      }
      savedKey := [];
    }

    /** What was passed and visible is of keys up to the one being skipped. */
    ghost predicate SeenUpTo(start: nat, p: nat, skipping: bool, skip: Bytes)
      requires p <= |es|
    {
      forall j :: start <= j < p && es[j].key.sequence <= sequence ==> skipping && Le(es[j].key.user, skip)
    }

    lemma NothingYet(start: nat, skipping0: bool, skip0: Bytes)
      requires start <= |es|
      ensures NothingWanted(start, start, skipping0, skip0) && SeenUpTo(start, start, skipping0, skip0)
      ensures skipping0 ==> SkipsFrom(start, start, skipping0, skip0, skip0)
    {
    }

    lemma MarkerIsSeen(start: nat, p: nat, skipping0: bool, skip0: Bytes, skipping: bool, skip: Bytes)
      requires Sorted(es) && start <= p < |es| && es[p].key.sequence <= sequence && es[p].key.kind.Deletion?
      requires NothingWanted(start, p, skipping0, skip0)
      ensures NothingWanted(start, p + 1, skipping0, skip0) && SeenUpTo(start, p + 1, true, es[p].key.user)
      ensures SkipsFrom(start, p + 1, skipping0, skip0, es[p].key.user)
    {
      hide Sorted;
      UsersUpTo(es, p);
    }

    lemma HiddenIsSeen(start: nat, p: nat, skipping0: bool, skip0: Bytes, skip: Bytes)
      requires start <= p < |es| && Le(es[p].key.user, skip) && !Wanted(p, skipping0, skip0)
      requires NothingWanted(start, p, skipping0, skip0) && SeenUpTo(start, p, true, skip) && SkipsFrom(start, p, skipping0, skip0, skip)
      ensures NothingWanted(start, p + 1, skipping0, skip0) && SeenUpTo(start, p + 1, true, skip)
      ensures SkipsFrom(start, p + 1, skipping0, skip0, skip)
    {
      hide Wanted;
    }

    lemma LaterIsPassed(start: nat, p: nat, skipping0: bool, skip0: Bytes, skipping: bool, skip: Bytes)
      requires start <= p < |es| && es[p].key.sequence > sequence
      requires NothingWanted(start, p, skipping0, skip0) && SeenUpTo(start, p, skipping, skip)
      ensures NothingWanted(start, p + 1, skipping0, skip0) && SeenUpTo(start, p + 1, skipping, skip)
      ensures SkipsFrom(start, p, skipping0, skip0, skip) ==> SkipsFrom(start, p + 1, skipping0, skip0, skip)
    {
    }

    lemma NewKeyIsWanted(start: nat, p: nat, skipping0: bool, skip0: Bytes, skipping: bool, skip: Bytes)
      requires Sorted(es) && start <= p < |es| && es[p].key.sequence <= sequence && es[p].key.kind.Value?
      requires CleanStart(start, skipping0, skip0) && SeenUpTo(start, p, skipping, skip) && (skipping ==> Lt(skip, es[p].key.user))
      requires skipping0 ==> skipping && Le(skip0, skip)
      ensures Wanted(p, skipping0, skip0) && Shows(es, sequence, p)
    {
      hide Sorted, CleanStart;
      FreshIsShown(start, p, skipping0, skip0);
    }

    lemma NotBeforeSkip(start: nat, p: nat, skipping0: bool, skip0: Bytes)
      requires start <= p < |es| && CleanStart(start, skipping0, skip0) && es[p].key.sequence <= sequence
      ensures skipping0 ==> Le(skip0, es[p].key.user)
    {
    }

    lemma HiddenIsNotWanted(start: nat, p: nat, skipping0: bool, skip0: Bytes, skip: Bytes)
      requires Sorted(es) && start <= p < |es| && Le(es[p].key.user, skip)
      requires SkipsFrom(start, p, skipping0, skip0, skip)
      ensures !Wanted(p, skipping0, skip0)
    {
      if !(skipping0 && skip == skip0) {
        var j :| start <= j < p && es[j].key.sequence <= sequence && es[j].key.user == skip;
        UsersAscend(es, j, p);
      }
    }

    lemma FreshIsShown(start: nat, p: nat, skipping0: bool, skip0: Bytes)
      requires Sorted(es) && start <= p < |es|
      requires CleanStart(start, skipping0, skip0)
      requires es[p].key.sequence <= sequence && es[p].key.kind.Value?
      requires forall j :: start <= j < p && es[j].key.sequence <= sequence ==> es[j].key.user != es[p].key.user
      requires skipping0 ==> Lt(skip0, es[p].key.user)
      ensures Shows(es, sequence, p)
    {
    }

    method Next()
      requires Valid() && valid
      modifies this, iter, iter.pos
      ensures Valid() && IsFirstFrom(old(cur) + 1, Current())
    {
      hide MergingIteration.MergingIterator.Valid;
      ghost var c := cur;
      ghost var from := iter.at;
      if direction == Reverse {
        direction := Forward;
        StandingBeforeIsClean();
        iter.Facts();
        if iter.OnEntry() {
          iter.Next();
        } else {
          iter.SeekToFirst();
        }
        iter.Facts();
        from := iter.at;
        FindNextUserEntry(true, savedKey);
      } else {
        iter.Facts();
        savedKey := iter.Key().user;
        CurrentIsClean(c);
        FindNextUserEntry(true, savedKey);
      }
      NextIsPastCurrent(c, from, Current());
    }

    lemma CurrentIsClean(c: nat)
      requires Sorted(es) && c < |es| && Shows(es, sequence, c)
      ensures CleanStart(c, true, es[c].key.user)
    {
      forall j, p | 0 <= j < c <= p < |es| && es[j].key.user == es[p].key.user
        ensures Le(es[p].key.user, es[c].key.user)
      {
        UsersAscend(es, j, c);
      }
      forall p | c <= p < |es|
        ensures Le(es[c].key.user, es[p].key.user)
      {
        UsersAscend(es, c, p);
      }
    }

    lemma StandingBeforeIsClean()
      requires Sorted(es) && cur < |es| && iter.at <= |es| && savedKey == es[cur].key.user
      requires exists start :: FirstOfUser(start, cur) && StandsBefore(start)
      ensures var from := if iter.at == |es| then 0 else iter.at + 1;
              from <= cur && CleanStart(from, true, savedKey)
    {
      var start :| FirstOfUser(start, cur) && StandsBefore(start);
      var from := if iter.at == |es| then 0 else iter.at + 1;
      forall j, p | 0 <= j < from <= p < |es| && es[j].key.user == es[p].key.user
        ensures Le(es[p].key.user, savedKey)
      {
        UsersAscend(es, j, iter.at);
      }
      forall p | from <= p < |es| && es[p].key.sequence <= sequence
        ensures Le(savedKey, es[p].key.user)
      {
        UsersAscend(es, start, p);
      }
    }

    lemma NextIsPastCurrent(c: nat, from: nat, r: Option<nat>)
      requires Sorted(es) && from <= c < |es| && Shows(es, sequence, c)
      requires r.Some? ==> r.value < |es| && Wanted(r.value, true, es[c].key.user)
      requires NothingWanted(from, if r.Some? then r.value else |es|, true, es[c].key.user)
      ensures IsFirstFrom(c + 1, r)
    {
      var to := if r.Some? then r.value else |es|;
      if r.Some? && r.value <= c {
        UsersAscend(es, r.value, c);
      }
      forall j: nat | c < j < to
        ensures !Shows(es, sequence, j)
      {
        UsersAscend(es, c, j);
        assert !Wanted(j, true, es[c].key.user);
      }
    }

    lemma UnskippedIsShown(from: nat, to: nat, skip: Bytes)
      requires to <= |es| && NothingWanted(from, to, false, skip)
      ensures NothingShown(from, to)
    {
      forall j: nat | from <= j < to
        ensures !Shows(es, sequence, j)
      {
        assert !Wanted(j, false, skip);
      }
    }

    method Seek(target: Bytes)
      requires Valid()
      modifies this, iter, iter.pos
      ensures Valid()
      ensures valid ==> Le(target, es[cur].key.user)
      ensures forall j :: 0 <= j < |es| && Shows(es, sequence, j) && Le(target, es[j].key.user) ==> valid && cur <= j
    {
      hide MergingIteration.MergingIterator.Valid;
      direction := Forward;
      savedKey, savedValue := target, [];
      iter.Seek(SeekKey(target, sequence));
      iter.Facts();
      SeekIsClean(target, iter.at);
      ghost var from := iter.at;
      if iter.OnEntry() {
        FindNextUserEntry(false, savedKey);
        UnskippedIsShown(from, if valid then cur else |es|, target);
      } else {
        valid := false;
      }
    }

    lemma SeekIsClean(target: Bytes, p: nat)
      requires Sorted(es) && p == SeekIndex(es, SeekKey(target, sequence))
      ensures CleanStart(p, false, target)
      ensures forall j :: 0 <= j < p && es[j].key.sequence <= sequence ==> Lt(es[j].key.user, target)
      ensures forall j :: p <= j < |es| ==> Le(target, es[j].key.user)
    {
      forall j | p <= j < |es|
        ensures Le(target, es[j].key.user)
      {
        UsersAscend(es, p, j);
      }
    }

    method SeekToFirst()
      requires Valid()
      modifies this, iter, iter.pos
      ensures Valid() && IsFirstFrom(0, Current())
    {
      hide MergingIteration.MergingIterator.Valid;
      direction := Forward;
      savedValue := [];
      iter.SeekToFirst();
      iter.Facts();
      ghost var skip := savedKey;
      if iter.OnEntry() {
        FindNextUserEntry(false, savedKey);
        UnskippedIsShown(0, if valid then cur else |es|, skip);
      } else {
        valid := false;
      }
    }

    // ----- Reverse -----

    /** `j` is the first visible entry in [from, to); none when `j` is `to`. */
    ghost predicate FirstVisible(from: nat, to: nat, j: nat)
      requires from <= to <= |es|
    {
      from <= j <= to && Quiet(from, j) && (j < to ==> es[j].key.sequence <= sequence)
    }

    method FindPrevUserEntry(ghost to: nat)
      requires OverEntries() && direction == Reverse && to <= |es|
      requires to == if iter.at < |es| then iter.at + 1 else 0
      modifies this, iter, iter.pos
      ensures Valid() && IsLastBefore(to, Current())
    {
      hide MergingIteration.MergingIterator.Valid, Sorted, Compare, Rank, FirstVisible, NothingShown, Quiet, Shows, FirstOfUser;
      var kind := Deletion;
      iter.Facts();
      ghost var j: nat := to;     // the first visible entry passed
      ghost var from: nat := to;  // entries [from, to) are passed
      NothingPassed(to);
      while iter.OnEntry()
        invariant OverEntries() && (iter.OnEntry() <==> iter.at < |es|)
        invariant direction == Reverse && from <= to && from == if iter.at < |es| then iter.at + 1 else 0
        invariant from <= j <= to && FirstVisible(from, to, j)
        invariant NothingShown(j + 1, to)
        invariant if kind.Deletion? then j == to || es[j].key.kind.Deletion?
                  else j < to && es[j].key.kind.Value? && savedKey == es[j].key.user && savedValue == es[j].value
        decreases if iter.at < |es| then iter.at + 1 else 0
      {
        var key := iter.Key();
        if key.sequence <= sequence {
          if kind.Value? && Compare(key.user, savedKey) < 0 {
            break;
          }
          VisiblePassed(iter.at, to, j);
          kind := key.kind;
          j := iter.at;
          if kind.Deletion? {
            savedKey, savedValue := [], [];
          } else {
            savedKey, savedValue := key.user, iter.Value();
          }
        } else {
          LaterPassed(iter.at, to, j);
        }
        from := iter.at;
        iter.Prev();
        iter.Facts();
      }
      if kind.Deletion? {
        NothingLeft(from, to, j);
        valid := false;
        savedKey, savedValue := [], [];
        direction := Forward;
      } else {
        valid := true;
        cur := j;
        ReverseIsPlaced(from, to, j);
      }
    }

    lemma NothingPassed(to: nat)
      requires to <= |es|
      ensures FirstVisible(to, to, to) && NothingShown(to + 1, to)
    {
    }

    lemma VisiblePassed(p: nat, to: nat, j: nat)
      requires Sorted(es) && p < to <= |es| && FirstVisible(p + 1, to, j) && NothingShown(j + 1, to)
      requires es[p].key.sequence <= sequence && (j < to && es[j].key.kind.Value? ==> !Lt(es[p].key.user, es[j].key.user))
      ensures FirstVisible(p, to, p) && NothingShown(p + 1, to)
    {
      if j < to { UsersAscend(es, p, j); }
    }

    lemma LaterPassed(p: nat, to: nat, j: nat)
      requires p < to <= |es| && FirstVisible(p + 1, to, j) && es[p].key.sequence > sequence
      ensures FirstVisible(p, to, j)
    {
    }

    lemma NothingLeft(from: nat, to: nat, j: nat)
      requires to <= |es| && from == 0 <= to && FirstVisible(from, to, j) && NothingShown(j + 1, to)
      requires j == to || es[j].key.kind.Deletion?
      ensures NothingShown(0, to)
    {
    }

    lemma ReverseIsPlaced(from: nat, to: nat, j: nat)
      requires Sorted(es) && from <= to <= |es| && FirstVisible(from, to, j) && j < to
      requires es[j].key.kind.Value? && savedKey == es[j].key.user
      requires from == if iter.at < |es| then iter.at + 1 else 0
      requires iter.at < |es| ==> es[iter.at].key.sequence <= sequence && Lt(es[iter.at].key.user, savedKey)
      ensures Shows(es, sequence, j)
      ensures exists start :: FirstOfUser(start, j) && StandsBefore(start)
    {
      forall i | 0 <= i < j && es[i].key.user == es[j].key.user
        ensures i >= from
      {
        if iter.at < |es| && i <= iter.at { UsersAscend(es, i, iter.at); }
      }
      var start := GroupStart(j);
      assert FirstOfUser(start, j) && StandsBefore(start);
    }

    lemma GroupStart(i: nat) returns (start: nat)
      requires Sorted(es) && i < |es|
      ensures FirstOfUser(start, i)
    {
      start := i;
      while start > 0 && es[start - 1].key.user == es[i].key.user
        invariant start <= i && forall j :: start <= j <= i ==> es[j].key.user == es[i].key.user
      {
        start := start - 1;
      }
    }

    method Prev()
      requires Valid() && valid
      modifies this, iter, iter.pos
      ensures Valid() && IsLastBefore(old(cur), Current())
    {
      hide MergingIteration.MergingIterator.Valid;
      ghost var c := cur;
      iter.Facts();
      if direction == Forward {
        savedKey := iter.Key().user;
        var searching := true;
        while searching
          invariant OverEntries() && iter.OnEntry()
          invariant valid && direction == Forward && cur == c && savedKey == es[c].key.user
          invariant iter.at <= c && forall j :: iter.at <= j <= c ==> es[j].key.user == savedKey || !searching
          invariant !searching ==> Lt(es[iter.at].key.user, savedKey) && forall j :: iter.at < j <= c ==> es[j].key.user == savedKey
          decreases searching, iter.at
        {
          iter.Prev();
          iter.Facts();
          if !iter.OnEntry() {
            NothingShownInGroup(0, c);
            valid := false;
            savedKey, savedValue := [], [];
            return;
          }
          UsersAscend(es, iter.at, c);
          if Compare(iter.Key().user, savedKey) < 0 {
            searching := false;
          }
        }
        direction := Reverse;
        NothingShownInGroup(iter.at + 1, c);
        FindPrevUserEntry(iter.at + 1);
      } else {
        NothingShownBetween(c);
        FindPrevUserEntry(if iter.at < |es| then iter.at + 1 else 0);
      }
    }

    lemma NothingShownInGroup(from: nat, c: nat)
      requires from <= c < |es| && Shows(es, sequence, c)
      requires forall j :: from <= j <= c ==> es[j].key.user == es[c].key.user
      ensures NothingShown(from, c)
    {
    }

    lemma NothingShownBetween(c: nat)
      requires Sorted(es) && c < |es| && Shows(es, sequence, c) && iter.at <= |es|
      requires exists start :: FirstOfUser(start, c) && StandsBefore(start)
      ensures var from := if iter.at < |es| then iter.at + 1 else 0;
              from <= c && NothingShown(from, c)
    {
      var start :| FirstOfUser(start, c) && StandsBefore(start);
      NothingShownInGroup(start, c);
    }

    method SeekToLast()
      requires Valid()
      modifies this, iter, iter.pos
      ensures Valid() && IsLastBefore(|es|, Current())
    {
      hide MergingIteration.MergingIterator.Valid;
      direction := Reverse;
      savedValue := [];
      iter.SeekToLast();
      iter.Facts();
      FindPrevUserEntry(|es|);
    }
  }
}
