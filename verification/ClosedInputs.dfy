/** Compactions whose inputs split no user key, and runs in which all compactions are like that. */
module ClosedInputs {
  import opened ByteOrder
  import opened DbFormat
  import opened Version
  import opened CompactionInputs
  import opened CompactionWork
  import opened CompactionReads
  import opened Install
  import opened Database

  ghost predicate ShareUserKey(f: FileMeta, g: FileMeta) {
    exists a, b :: a in f.entries && b in g.entries && a.key.user == b.key.user
  }

  /** No user key is split between an input of the output level and a file left out of it. */
  ghost predicate ParentClosed(v: Levels, c: Compaction)
    requires c.level + 1 < NUM_LEVELS
  {
    forall h, g :: h in c.inputs1 && g in LeftOut(v[c.level + 1], c.inputs1) ==> !ShareUserKey(h, g)
  }

  lemma LeftOutSharesNoUser(v: Levels, c: Compaction, g: FileMeta, t: Entry, w: Entry)
    requires ValidVersion(v) && ValidCompaction(v, c) && ParentClosed(v, c)
    requires t in InputEntries(c) && g in LeftOut(v[c.level + 1], c.inputs1) && w in g.entries
    ensures t.key.user != w.key.user
  {
    if t in FilesEntries(c.inputs0) {
      MissesUpperInputs(v, c, g, t, w);
    } else {
      var h :| h in c.inputs1 && t in h.entries;
      assert !ShareUserKey(h, g);
    }
  }

  lemma MissesUpperInputs(v: Levels, c: Compaction, g: FileMeta, t: Entry, w: Entry)
    requires ValidVersion(v) && ValidCompaction(v, c)
    requires t in FilesEntries(c.inputs0) && g in LeftOut(v[c.level + 1], c.inputs1) && w in g.entries
    ensures t.key.user != w.key.user
  {
    var after := LeftOutIsBeside(v, c, g);
    FileSpan(g);
  }

  lemma MergedSharesNoUser(v: Levels, c: Compaction, t: Entry, w: Entry)
    requires ValidVersion(v) && ValidCompaction(v, c) && ParentClosed(v, c)
    requires t in MergedInput(c) && w in SetEntries(LeftOut(v[c.level + 1], c.inputs1))
    ensures t.key.user != w.key.user
  {
    InputsMerge(v, c);
    assert t in Elements(MergedInput(c));
    var g :| g in LeftOut(v[c.level + 1], c.inputs1) && w in g.entries;
    LeftOutSharesNoUser(v, c, g, t, w);
  }

  lemma ResurrectionNeedsSharedKey(p: Split, v: Levels, level: nat, m: nat, t: Entry, w: Entry)
    requires ResurrectedBy(p, v, level, m, t, w)
    ensures t in p.merged && w in p.beside && t.key.user == w.key.user
  {
  }

  /** With inputs closed under user key no deletion is ever lost. */
  lemma ClosedInputsKeepReads(d: DbState, c: Compaction, m: nat)
    requires ValidVersion(d.version) && ValidCompaction(d.version, c) && ParentClosed(d.version, c)
    ensures !Resurrects(SplitOf(d, c), d.version, c.level, m)
  {
    forall t, w | ResurrectedBy(SplitOf(d, c), d.version, c.level, m, t, w)
      ensures false
    {
      ResurrectionNeedsSharedKey(SplitOf(d, c), d.version, c.level, m, t, w);
      MergedSharesNoUser(d.version, c, t, w);
    }
  }

  // ----- Runs -----

  /** A step of the database; a compaction leaves no user key split. */
  ghost predicate ClosedStep(d: DbState, a: Action) {
    Enabled(d, a) && (a.Compact? ==> ParentClosed(d.version, a.c))
  }

  lemma {:induction false} ClosedStepLosesNothing(d: DbState, a: Action, user: Bytes)
    requires Order(d) && ClosedStep(d, a)
    ensures !Loses(d, a, user)
  {
    if a.Compact? {
      ClosedInputsKeepReads(d, a.c, SmallestSnapshot(d));
    }
  }

  ghost predicate IsClosedRun(states: seq<DbState>, actions: seq<Action>) {
    && IsRun(states, actions)
    && forall i :: 0 <= i < |actions| ==> ClosedStep(states[i], actions[i])
  }

  /** A condition on the chosen files alone that saves every deletion. */
  lemma {:induction false} ClosedRunKeepsInv(states: seq<DbState>, actions: seq<Action>, i: nat)
    requires IsClosedRun(states, actions) && i < |states|
    ensures Inv(states[i])
  {
    hide Inv, Order, ClosedStep, Enabled, Do, Loses;
    forall user
      ensures KeepsKey(states, actions, 0, i, user)
    {
      forall k | 0 <= k < i
        ensures !Loses(states[k], actions[k], user)
      {
        RunKeepsOrder(states, actions, k);
        ClosedStepLosesNothing(states[k], actions[k], user);
      }
    }
    RunKeepsInv(states, actions, i);
  }

  // ----- What was written, from the actions alone -----

  /** The operations after earlier writes, at the next sequence numbers. */
  function Written(before: seq<Entry>, ops: seq<WriteOp>, n: nat): (r: seq<Entry>)
    requires n <= |ops|
    ensures |r| == |before| + n
  {
    if n == 0 then before else Written(before, ops, n - 1) + [EntryOf(ops[n - 1], |before| + n)]
  }

  ghost function WritesOf(actions: seq<Action>, n: nat): seq<Entry>
    requires n <= |actions|
  {
    if n == 0 then []
    else if actions[n - 1].Write? then Written(WritesOf(actions, n - 1), actions[n - 1].ops, |actions[n - 1].ops|)
    else WritesOf(actions, n - 1)
  }

  lemma {:induction false} WrittenOfPrefix(before: seq<Entry>, ops: seq<WriteOp>, more: seq<WriteOp>, n: nat)
    requires n <= |ops| <= |more| && forall i :: 0 <= i < |ops| ==> more[i] == ops[i]
    ensures Written(before, more, n) == Written(before, ops, n)
  {
    hide EntryOf;
    if n > 0 {
      WrittenOfPrefix(before, ops, more, n - 1);
    }
  }

  lemma {:induction false} WriteAllWrites(d: DbState, ops: seq<WriteOp>)
    requires |d.history| == d.lastSequence
    ensures var w := WriteAll(d, ops); w.history == Written(d.history, ops, |ops|) && |w.history| == w.lastSequence
    decreases |ops|
  {
    hide AddToMem, EntryOf;
    if ops != [] {
      WriteAllWrites(d, ops[..|ops| - 1]);
      WrittenOfPrefix(d.history, ops[..|ops| - 1], ops, |ops| - 1);
    }
  }

  lemma {:induction false} OthersWriteNothing(d: DbState, a: Action)
    requires Enabled(d, a) && !a.Write?
    ensures Do(d, a).history == d.history && Do(d, a).lastSequence == d.lastSequence
  {
  }

  /** Over every run the history is what the write actions wrote, numbered from 1. */
  lemma {:induction false} HistoryIsWrites(states: seq<DbState>, actions: seq<Action>, i: nat)
    requires IsRun(states, actions) && i < |states|
    ensures states[i].history == WritesOf(actions, i) && states[i].lastSequence == |states[i].history|
  {
    hide Enabled, Do, Written;
    if i > 0 {
      HistoryIsWrites(states, actions, i - 1);
      if actions[i - 1].Write? {
        WriteIsAll(states[i - 1], actions[i - 1]);
        WriteAllWrites(states[i - 1], actions[i - 1].ops);
      } else {
        OthersWriteNothing(states[i - 1], actions[i - 1]);
      }
    }
  }

  lemma {:induction false} WriteIsAll(d: DbState, a: Action)
    requires Enabled(d, a) && a.Write?
    ensures Do(d, a) == WriteAll(d, a.ops)
  {
  }
}
