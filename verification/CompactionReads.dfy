/** When a compaction changes what a reader sees, stated on the sets of entries involved. */
module CompactionReads {
  import opened ByteOrder
  import opened DbFormat
  import opened Version
  import opened CompactionInputs
  import opened CompactionWork

  /** What a reader gets from the newest visible entry: a deletion marker reads as nothing. */
  function ValueOf(r: Option<Entry>): Option<Bytes> {
    if r.Some? && r.value.key.kind.Value? then Some(r.value.value) else None
  }

  lemma NewestExists(es: set<Entry>, user: Bytes, s: nat) returns (r: Option<Entry>)
    ensures IsNewest(es, user, s, r)
  {
    var todo := es;
    r := None;
    while todo != {}
      invariant todo <= es && IsNewest(es - todo, user, s, r)
      decreases todo
    {
      var e :| e in todo;
      if Visible(e, user, s) && (r.None? || r.value.key.sequence < e.key.sequence) {
        r := Some(e);
      }
      todo := todo - {e};
    }
    assert es - todo == es;
  }

  /**
   * The entries of a database around one compaction: newer sources, the merged input,
   * the files of the output level that are left out, and the deeper levels.
   */
  datatype Split = Split(upper: set<Entry>, merged: seq<Entry>, beside: set<Entry>, deeper: set<Entry>)

  ghost function Before(p: Split): set<Entry> {
    p.upper + Elements(p.merged) + p.beside + p.deeper
  }

  ghost function After(p: Split, v: Levels, level: nat, m: nat): set<Entry> {
    p.upper + Elements(Kept(v, level, p.merged, |p.merged|, m)) + p.beside + p.deeper
  }

  ghost predicate ValidSplit(p: Split, v: Levels, level: nat) {
    && Sorted(p.merged)
    && UniqueSequences(Before(p))
    && Above(p.upper, Elements(p.merged))
    && p.beside !! Elements(p.merged)
    && p.deeper !! Elements(p.merged)
    && (forall e :: e in p.deeper ==> !BaseLevel(v, level, e.key.user))
  }

  /** At snapshot `m` the key reads as deleted by a dropped marker, while a left-out file still holds a value. */
  ghost predicate ResurrectedBy(p: Split, v: Levels, level: nat, m: nat, t: Entry, w: Entry) {
    && t in p.merged && Obsolete(v, level, t, m)
    && IsNewest(Before(p), t.key.user, m, Some(t))
    && IsNewest(p.beside, t.key.user, m, Some(w))
    && w.key.kind.Value?
  }

  /** The deletion of this key is lost. */
  ghost predicate ResurrectsKey(p: Split, v: Levels, level: nat, m: nat, user: Bytes) {
    exists t, w :: ResurrectedBy(p, v, level, m, t, w) && t.key.user == user
  }

  ghost predicate Resurrects(p: Split, v: Levels, level: nat, m: nat) {
    exists user :: ResurrectsKey(p, v, level, m, user)
  }

  ghost predicate SameReadsOf(before: set<Entry>, after: set<Entry>, user: Bytes, m: nat) {
    forall s, q, r :: m <= s && IsNewest(before, user, s, q) && IsNewest(after, user, s, r) ==> ValueOf(q) == ValueOf(r)
  }

  ghost predicate SameReads(before: set<Entry>, after: set<Entry>, m: nat) {
    forall user :: SameReadsOf(before, after, user, m)
  }

  /** A merged entry that is dropped is hidden by its predecessor or is an obsolete marker. */
  lemma WhyDropped(p: Split, v: Levels, level: nat, m: nat, e: Entry)
    requires Sorted(p.merged) && e in p.merged
    ensures var kept := Kept(v, level, p.merged, |p.merged|, m);
            e in kept || Obsolete(v, level, e, m)
            || exists n :: n in p.merged && n.key.user == e.key.user && n.key.sequence <= m
                 && PackSequenceAndType(n.key) > PackSequenceAndType(e.key)
  {
    KeptMembers(v, level, p.merged, |p.merged|, m);
    var i :| 0 <= i < |p.merged| && p.merged[i] == e;
    if Hidden(p.merged, i, m) {
      assert KeyLt(p.merged[i - 1].key, p.merged[i].key);
      assert p.merged[i - 1] in p.merged;
    }
  }

  lemma IndexOrder(es: seq<Entry>, i: nat, j: nat)
    requires Sorted(es) && i < |es| && j < |es| && KeyLt(es[i].key, es[j].key)
    ensures i < j
  {
  }

  /** Below an entry that every snapshot may see, nothing of the same key is kept. */
  lemma {:induction false} OlderIsNotKept(merged: seq<Entry>, v: Levels, level: nat, m: nat, e: Entry, x: Entry)
    requires Sorted(merged) && e in merged && x in merged
    requires x.key.user == e.key.user && x.key.sequence < e.key.sequence <= m
    ensures x !in Kept(v, level, merged, |merged|, m)
  {
    KeptMembers(v, level, merged, |merged|, m);
    var i :| 0 <= i < |merged| && merged[i] == e;
    forall j | 0 <= j < |merged| && merged[j] == x
      ensures Hidden(merged, j, m)
    {
      IndexOrder(merged, i, j);
      var n := merged[j - 1];
      assert i < j - 1 ==> KeyLt(merged[i].key, n.key);
      assert KeyLt(n.key, merged[j].key);
    }
  }

  lemma KeptAreMerged(p: Split, v: Levels, level: nat, m: nat)
    ensures After(p, v, level, m) <= Before(p)
  {
    KeptMembers(v, level, p.merged, |p.merged|, m);
  }

  /** After dropping marker `t`, only left-out files can still answer for its key at `s`. */
  lemma OnlyBesideRemains(p: Split, v: Levels, level: nat, m: nat, t: Entry, s: nat, x: Entry)
    requires ValidSplit(p, v, level)
    requires t in p.merged && Obsolete(v, level, t, m) && m <= s
    requires IsNewest(Before(p), t.key.user, s, Some(t))
    requires t !in Kept(v, level, p.merged, |p.merged|, m)
    requires x in After(p, v, level, m) && Visible(x, t.key.user, s)
    ensures x in p.beside && x.key.sequence < t.key.sequence
  {
    KeptAreMerged(p, v, level, m);
    assert x.key.sequence <= t.key.sequence;
    assert x != t;
    assert x.key.sequence < t.key.sequence;
    assert x !in p.upper;
    if x in Elements(p.merged) {
      OlderIsNotKept(p.merged, v, level, m, t, x);
    }
    assert x !in p.deeper;
  }

  lemma DroppedNewestIsObsolete(p: Split, v: Levels, level: nat, m: nat, user: Bytes, s: nat, e: Entry)
    requires ValidSplit(p, v, level) && m <= s
    requires IsNewest(Before(p), user, s, Some(e)) && e !in After(p, v, level, m)
    ensures e in p.merged && Obsolete(v, level, e, m)
  {
    WhyDropped(p, v, level, m, e);
    forall n | n in p.merged && n.key.user == user && n.key.sequence <= m
      ensures n == e || PackSequenceAndType(n.key) < PackSequenceAndType(e.key)
    {
      assert Visible(n, user, s);
    }
  }

  /** Reads of one key survive the compaction exactly when its deletion is not lost. */
  lemma CompactionKeepsReadsOf(p: Split, v: Levels, level: nat, m: nat, user: Bytes)
    requires ValidSplit(p, v, level)
    ensures SameReadsOf(Before(p), After(p, v, level, m), user, m) <==> !ResurrectsKey(p, v, level, m, user)
  {
    hide ValidSplit, Before, After;
    if ResurrectsKey(p, v, level, m, user) {
      ResurrectionIsSeen(p, v, level, m, user);
    } else {
      forall s, q, r | m <= s && IsNewest(Before(p), user, s, q) && IsNewest(After(p, v, level, m), user, s, r)
        ensures ValueOf(q) == ValueOf(r)
      {
        ReadSurvives(p, v, level, m, user, s, q, r);
      }
    }
  }

  /** The main result: reads survive the compaction exactly when no deleted key comes back. */
  lemma CompactionKeepsReads(p: Split, v: Levels, level: nat, m: nat)
    requires ValidSplit(p, v, level)
    ensures SameReads(Before(p), After(p, v, level, m), m) <==> !Resurrects(p, v, level, m)
  {
    hide ValidSplit, Before, After, ResurrectsKey, SameReadsOf;
    forall user
      ensures SameReadsOf(Before(p), After(p, v, level, m), user, m) <==> !ResurrectsKey(p, v, level, m, user)
    {
      CompactionKeepsReadsOf(p, v, level, m, user);
    }
  }

  lemma ResurrectionIsSeen(p: Split, v: Levels, level: nat, m: nat, user: Bytes)
    requires ValidSplit(p, v, level) && ResurrectsKey(p, v, level, m, user)
    ensures !SameReadsOf(Before(p), After(p, v, level, m), user, m)
  {
    hide ValidSplit, Before, After;
    var t, w :| ResurrectedBy(p, v, level, m, t, w) && t.key.user == user;
    ResurrectedRead(p, v, level, m, t, w);
    assert ValueOf(Some(t)) != ValueOf(Some(w));
  }

  /** The value in the left-out file is what a reader finds instead of the dropped marker. */
  lemma ResurrectedRead(p: Split, v: Levels, level: nat, m: nat, t: Entry, w: Entry)
    requires ValidSplit(p, v, level) && ResurrectedBy(p, v, level, m, t, w)
    ensures IsNewest(After(p, v, level, m), t.key.user, m, Some(w))
  {
    KeptMembers(v, level, p.merged, |p.merged|, m);
    assert t !in Kept(v, level, p.merged, |p.merged|, m);
    forall x | x in After(p, v, level, m) && Visible(x, t.key.user, m)
      ensures x.key.sequence <= w.key.sequence
    {
      OnlyBesideRemains(p, v, level, m, t, m, x);
    }
  }

  lemma AnswerBesideResurrects(p: Split, v: Levels, level: nat, m: nat, s: nat, t: Entry, w: Entry)
    requires ValidSplit(p, v, level) && m <= s
    requires t in p.merged && Obsolete(v, level, t, m) && t !in After(p, v, level, m)
    requires IsNewest(Before(p), t.key.user, s, Some(t)) && IsNewest(After(p, v, level, m), t.key.user, s, Some(w))
    requires w.key.kind.Value?
    ensures ResurrectsKey(p, v, level, m, t.key.user)
  {
    OnlyBesideRemains(p, v, level, m, t, s, w);
    assert IsNewest(p.beside, t.key.user, m, Some(w));
    assert IsNewest(Before(p), t.key.user, m, Some(t));
    assert ResurrectedBy(p, v, level, m, t, w);
  }

  lemma ReadSurvives(p: Split, v: Levels, level: nat, m: nat, user: Bytes, s: nat, q: Option<Entry>, r: Option<Entry>)
    requires ValidSplit(p, v, level) && !ResurrectsKey(p, v, level, m, user) && m <= s
    requires IsNewest(Before(p), user, s, q) && IsNewest(After(p, v, level, m), user, s, r)
    ensures ValueOf(q) == ValueOf(r)
  {
    var after := After(p, v, level, m);
    KeptAreMerged(p, v, level, m);
    if q.Some? && q.value !in after {
      var t := q.value;
      DroppedNewestIsObsolete(p, v, level, m, user, s, t);
      if r.Some? && r.value.key.kind.Value? {
        var w := r.value;
        AnswerBesideResurrects(p, v, level, m, s, t, w);
        assert false;
      }
    }
  }
}
