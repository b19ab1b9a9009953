/** Batches of writes in their encoded form, and their way into the memtable. */
module WriteBatches {
  import opened ByteOrder
  import opened DbFormat
  import opened Coding
  import opened KeyOrder
  import opened Database

  const HEADER: nat := 12

  // ----- Encoding -----

  function EncodeOp(op: WriteOp): (r: Bytes)
    ensures |r| > 1
  {
    match op
    case Put(key, value) => [1] + (LengthPrefixed(key) + LengthPrefixed(value))
    case Delete(key) => [0] + LengthPrefixed(key)
  }

  /** The first `n` operations one after the other. */
  function EncodeOps(ops: seq<WriteOp>, n: nat): Bytes
    requires n <= |ops|
  {
    if n == 0 then [] else Joined(EncodeOps(ops, n - 1), EncodeOp(ops[n - 1]))
  }

  /** Sequence number, count, operations. */
  function EncodeBatch(sequence: Long, ops: seq<WriteOp>): Bytes {
    PutFixed64(sequence) + (PutFixed32(|ops| % 0x1_0000_0000) + EncodeOps(ops, |ops|))
  }

  lemma {:induction false} EncodeOpsOfPrefix(ops: seq<WriteOp>, more: seq<WriteOp>, n: nat)
    requires n <= |ops| <= |more| && forall i :: 0 <= i < |ops| ==> more[i] == ops[i]
    ensures EncodeOps(more, n) == EncodeOps(ops, n)
  {
    hide EncodeOp, Joined;
    if n > 0 {
      EncodeOpsOfPrefix(ops, more, n - 1);
    }
  }

  /** Operations appended are encodings appended. */
  lemma {:induction false} EncodeOpsJoined(a: seq<WriteOp>, b: seq<WriteOp>, n: nat)
    requires n <= |b|
    ensures EncodeOps(Joined(a, b), |a| + n) == Joined(EncodeOps(a, |a|), EncodeOps(b, n))
  {
    hide EncodeOp;
    if n == 0 {
      EncodeOpsOfPrefix(a, Joined(a, b), |a|);
      JoinedNothing(EncodeOps(a, |a|));
    } else {
      EncodeOpsJoined(a, b, n - 1);
      JoinedAssociates(EncodeOps(a, |a|), EncodeOps(b, n - 1), EncodeOp(b[n - 1]));
      assert Joined(a, b)[|a| + n - 1] == b[n - 1];
    }
  }

  // ----- Parsing -----

  datatype ParsedOp = ParsedOp(op: WriteOp, next: nat)

  function OpAt(b: Bytes, p: nat): (r: Option<ParsedOp>)
    requires p < |b|
    ensures r.Some? ==> p < r.value.next <= |b|
  {
    var key := LengthPrefixedAt(b, p + 1);
    if b[p] == 1 then
      if key.None? then None
      else
        var value := LengthPrefixedAt(b, key.value.next);
        if value.None? then None else Some(ParsedOp(Put(key.value.bytes, value.value.bytes), value.value.next))
    else if b[p] == 0 then
      if key.None? then None else Some(ParsedOp(Delete(key.value.bytes), key.value.next))
    else None
  }

  /** What a batch does: the operations up to its end or up to the first error. */
  datatype Contents = Contents(ops: seq<WriteOp>, complete: bool)

  function ParseFrom(b: Bytes, p: nat): Contents
    requires p <= |b|
    decreases |b| - p
  {
    if p == |b| then Contents([], true)
    else
      var o := OpAt(b, p);
      if o.None? then Contents([], false)
      else
        var rest := ParseFrom(b, o.value.next);
        Contents([o.value.op] + rest.ops, rest.complete)
  }

  ghost predicate OpFits(op: WriteOp) {
    |op.key| < 0x1_0000_0000 && (op.Put? ==> |op.value| < 0x1_0000_0000)
  }

  lemma {:induction false} OpReadsBack(b: Bytes, p: nat, op: WriteOp)
    requires At(b, p, EncodeOp(op)) && OpFits(op)
    ensures p < |b| && OpAt(b, p) == Some(ParsedOp(op, p + |EncodeOp(op)|))
  {
    hide LengthPrefixed, LengthPrefixedAt, At, OpAt;
    match op
    case Put(key, value) =>
      var middle := p + 1 + |LengthPrefixed(key)|;
      AtThree(b, p, EncodeOp(op), [1], LengthPrefixed(key), LengthPrefixed(value));
      TagStands(b, p, 1);
      LengthPrefixedReadsBack(b, p + 1, key);
      LengthPrefixedReadsBack(b, middle, value);
      PutIsRead(b, p, key, value, middle, middle + |LengthPrefixed(value)|);
    case Delete(key) =>
      AtSplit(b, p, EncodeOp(op), [0], LengthPrefixed(key), p + 1);
      TagStands(b, p, 0);
      LengthPrefixedReadsBack(b, p + 1, key);
      DeleteIsRead(b, p, key, p + 1 + |LengthPrefixed(key)|);
  }

  lemma {:induction false} PutIsRead(b: Bytes, p: nat, key: Bytes, value: Bytes, middle: nat, next: nat)
    requires p < |b| && b[p] == 1 && LengthPrefixedAt(b, p + 1) == Some(ParsedBytes(key, middle))
    requires LengthPrefixedAt(b, middle) == Some(ParsedBytes(value, next))
    ensures OpAt(b, p) == Some(ParsedOp(Put(key, value), next))
  {
    hide LengthPrefixedAt;
  }

  lemma {:induction false} DeleteIsRead(b: Bytes, p: nat, key: Bytes, next: nat)
    requires p < |b| && b[p] == 0 && LengthPrefixedAt(b, p + 1) == Some(ParsedBytes(key, next))
    ensures OpAt(b, p) == Some(ParsedOp(Delete(key), next))
  {
    hide LengthPrefixedAt;
  }

  lemma {:induction false} TagStands(b: Bytes, p: nat, tag: Byte)
    requires At(b, p, [tag])
    ensures p < |b| && b[p] == tag
  {
    assert ByteIs(b, p, [tag], 0);
  }

  lemma {:induction false} OpStands(b: Bytes, p: nat, ops: seq<WriteOp>, n: nat, i: nat)
    requires i < n <= |ops| && At(b, p, EncodeOps(ops, n))
    ensures At(b, p + |EncodeOps(ops, i)|, EncodeOp(ops[i]))
  {
    hide At, EncodeOp, Joined;
    AtJoined(b, p, EncodeOps(ops, n - 1), EncodeOp(ops[n - 1]));
    if i < n - 1 {
      OpStands(b, p, ops, n - 1, i);
    }
  }

  lemma {:induction false} EncodedLengthGrows(ops: seq<WriteOp>, i: nat)
    requires i < |ops|
    ensures |EncodeOps(ops, i + 1)| == |EncodeOps(ops, i)| + |EncodeOp(ops[i])|
  {
  }

  /** Parsing from operation `i` on gives the rest of the operations. */
  lemma {:induction false} OpsReadBack(b: Bytes, p: nat, ops: seq<WriteOp>, i: nat)
    requires i <= |ops| && At(b, p, EncodeOps(ops, |ops|)) && |b| == p + |EncodeOps(ops, |ops|)|
    requires forall op :: op in ops ==> OpFits(op)
    ensures p + |EncodeOps(ops, i)| <= |b| && ParseFrom(b, p + |EncodeOps(ops, i)|) == Contents(ops[i..], true)
    decreases |ops| - i
  {
    hide EncodeOps, At, OpAt, EncodeOp;
    if i < |ops| {
      OpsReadBack(b, p, ops, i + 1);
      OpStands(b, p, ops, |ops|, i);
      OpReadsBack(b, p + |EncodeOps(ops, i)|, ops[i]);
      EncodedLengthGrows(ops, i);
      assert ops[i..] == [ops[i]] + ops[i + 1..];
    }
  }

  /** A batch in its encoded form can be read back, number, count and operations. */
  ghost predicate Reads(rep: Bytes, sequence: Long, ops: seq<WriteOp>) {
    && |rep| >= HEADER && Fixed64At(rep, 0) == sequence && Fixed32At(rep, 8) == |ops| % 0x1_0000_0000
    && ParseFrom(rep, HEADER) == Contents(ops, true)
  }

  lemma {:induction false} BatchReadsBack(sequence: Long, ops: seq<WriteOp>)
    requires forall op :: op in ops ==> OpFits(op)
    ensures Reads(EncodeBatch(sequence, ops), sequence, ops)
  {
    hide At, EncodeOps, ParseFrom, PutFixed64, PutFixed32, Fixed64At, Fixed32At;
    var rep := EncodeBatch(sequence, ops);
    var count := PutFixed32(|ops| % 0x1_0000_0000);
    SliceAt(rep, 0, rep);
    AtThree(rep, 0, rep, PutFixed64(sequence), count, EncodeOps(ops, |ops|));
    Fixed64ReadsBack(rep, 0, sequence);
    Fixed32ReadsBack(rep, 8, |ops| % 0x1_0000_0000);
    EmptyEncoding(ops);
    OpsReadBack(rep, HEADER, ops, 0);
    assert ops[0..] == ops;
  }

  lemma {:induction false} EmptyEncoding(ops: seq<WriteOp>)
    ensures EncodeOps(ops, 0) == []
  {
  }

  // ----- The batch object -----

  class WriteBatch {
    var rep: Bytes
    ghost var sequence: Long
    ghost var ops: seq<WriteOp>

    ghost predicate Valid()
      reads this
    {
      rep == EncodeBatch(sequence, ops)
    }

    constructor ()
      ensures Valid() && sequence == 0 && ops == []
    {
      rep := [0, 0, 0, 0, 0, 0, 0, 0, 0, 0, 0, 0];
      sequence, ops := 0, [];
    }

    method Clear()
      modifies this
      ensures Valid() && sequence == 0 && ops == []
    {
      rep := [0, 0, 0, 0, 0, 0, 0, 0, 0, 0, 0, 0];
      sequence, ops := 0, [];
    }

    lemma {:induction false} Parts()
      requires Valid()
      ensures |rep| >= HEADER && rep[..8] == PutFixed64(sequence) && rep[8..12] == PutFixed32(|ops| % 0x1_0000_0000)
      ensures rep[12..] == EncodeOps(ops, |ops|) && Fixed32At(rep, 8) == |ops| % 0x1_0000_0000
    {
      hide EncodeOps, PutFixed32, PutFixed64, Fixed32At;
      SliceAt(rep, 8, PutFixed32(|ops| % 0x1_0000_0000));
      Fixed32ReadsBack(rep, 8, |ops| % 0x1_0000_0000);
    }

    method Count() returns (n: Word)
      requires Valid()
      ensures n == |ops| % 0x1_0000_0000
    {
      Parts();
      n := Fixed32At(rep, 8);
    }

    method SetSequence(s: Long)
      requires Valid()
      modifies this
      ensures Valid() && sequence == s && ops == old(ops)
    {
      hide EncodeOps, PutFixed32, PutFixed64;
      Parts();
      rep := PutFixed64(s) + rep[8..];
      sequence := s;
      assert rep == PutFixed64(s) + (old(rep)[8..12] + old(rep)[12..]);
    }

    /** The header counts `more` operations, whose encoding follows the others. */
    method Grow(more: Word, encoded: Bytes, ghost added: seq<WriteOp>)
      requires Valid() && more == |added| % 0x1_0000_0000 && encoded == EncodeOps(added, |added|)
      modifies this
      ensures Valid() && sequence == old(sequence) && ops == Joined(old(ops), added)
    {
      hide EncodeOps, PutFixed32, PutFixed64, Fixed32At;
      Parts();
      EncodeOpsJoined(ops, added, |added|);
      CountsAdd(|ops|, |added|);
      var count := (Fixed32At(rep, 8) + more) % 0x1_0000_0000;
      rep := rep[..8] + PutFixed32(count) + rep[12..];
      rep := rep + encoded;
      ops := Joined(ops, added);
      assert Joined(EncodeOps(old(ops), |old(ops)|), encoded) == EncodeOps(old(ops), |old(ops)|) + encoded;
      assert rep == PutFixed64(sequence) + (PutFixed32(count) + (EncodeOps(old(ops), |old(ops)|) + encoded));
    }

    method Put(key: Bytes, value: Bytes)
      requires Valid()
      modifies this
      ensures Valid() && sequence == old(sequence) && ops == Joined(old(ops), [WriteOp.Put(key, value)])
    {
      EncodeOne(WriteOp.Put(key, value));
      Grow(1, [1] + (LengthPrefixed(key) + LengthPrefixed(value)), [WriteOp.Put(key, value)]);
    }

    method Delete(key: Bytes)
      requires Valid()
      modifies this
      ensures Valid() && sequence == old(sequence) && ops == Joined(old(ops), [WriteOp.Delete(key)])
    {
      EncodeOne(WriteOp.Delete(key));
      Grow(1, [0] + LengthPrefixed(key), [WriteOp.Delete(key)]);
    }

    method Append(source: WriteBatch)
      requires Valid() && source.Valid() && source != this
      modifies this
      ensures Valid() && sequence == old(sequence) && ops == Joined(old(ops), source.ops)
    {
      source.Parts();
      Grow(Fixed32At(source.rep, 8), source.rep[HEADER..], source.ops);
    }
  }

  lemma {:induction false} CountsAdd(a: nat, b: nat)
    ensures (a % 0x1_0000_0000 + b % 0x1_0000_0000) % 0x1_0000_0000 == (a + b) % 0x1_0000_0000
  {
  }

  lemma {:induction false} EncodeOne(op: WriteOp)
    ensures EncodeOps([op], 1) == EncodeOp(op)
  {
    assert EncodeOps([op], 0) == [];
  }

  // ----- Insertion into a memtable -----

  /** The memtable after the first `n` operations, the first of them at `sequence`. */
  function AddAll(mem: seq<Entry>, ops: seq<WriteOp>, n: nat, sequence: nat): seq<Entry>
    requires n <= |ops|
  {
    if n == 0 then mem else AddToMem(AddAll(mem, ops, n - 1, sequence), EntryOf(ops[n - 1], sequence + n - 1))
  }

  class MemTableInserter {
    var sequence: nat
    var mem: seq<Entry>

    constructor (sequence: nat, mem: seq<Entry>)
      ensures this.sequence == sequence && this.mem == mem
    {
      this.sequence, this.mem := sequence, mem;
    }

    method Put(key: Bytes, value: Bytes)
      modifies this
      ensures sequence == old(sequence) + 1 && mem == AddToMem(old(mem), EntryOf(WriteOp.Put(key, value), old(sequence)))
    {
      mem := AddToMem(mem, Entry(InternalKey(key, sequence, Value), value));
      sequence := sequence + 1;
    }

    method Delete(key: Bytes)
      modifies this
      ensures sequence == old(sequence) + 1 && mem == AddToMem(old(mem), EntryOf(WriteOp.Delete(key), old(sequence)))
    {
      mem := AddToMem(mem, Entry(InternalKey(key, sequence, Deletion), []));
      sequence := sequence + 1;
    }
  }

  /** Hands every operation to the inserter up to the first error. */
  method Iterate(rep: Bytes, handler: MemTableInserter) returns (ok: bool)
    modifies handler
    ensures |rep| < HEADER ==> !ok && handler.mem == old(handler.mem)
    ensures |rep| >= HEADER ==>
              var c := ParseFrom(rep, HEADER);
              && ok == (c.complete && |c.ops| == Fixed32At(rep, 8))
              && handler.mem == AddAll(old(handler.mem), c.ops, |c.ops|, old(handler.sequence))
  {
    hide ParseFrom, OpAt, AddToMem, EntryOf;
    if |rep| < HEADER {
      return false;
    }
    var p: nat := HEADER;
    var found := 0;
    ghost var c := ParseFrom(rep, HEADER);
    while p < |rep|
      invariant HEADER <= p <= |rep| && found <= |c.ops|
      invariant ParseFrom(rep, p) == Contents(c.ops[found..], c.complete)
      invariant handler.sequence == old(handler.sequence) + found
      invariant handler.mem == AddAll(old(handler.mem), c.ops, found, old(handler.sequence))
      decreases |rep| - p
    {
      ParseStep(rep, p, c.ops, found);
      var o := OpAt(rep, p);
      if o.None? {
        return false;
      }
      found := found + 1;
      match o.value.op {
        case Put(key, value) => handler.Put(key, value);
        case Delete(key) => handler.Delete(key);
      }
      p := o.value.next;
    }
    ParseEnds(rep, c.ops, found);
    ok := found == Fixed32At(rep, 8);
  }

  /** One more operation, or none at all. */
  lemma {:induction false} ParseStep(rep: Bytes, p: nat, ops: seq<WriteOp>, i: nat)
    requires p < |rep| && i <= |ops| && ParseFrom(rep, p).ops == ops[i..]
    ensures var o := OpAt(rep, p);
            if o.None? then i == |ops| && !ParseFrom(rep, p).complete
            else
              && i < |ops| && ops[i] == o.value.op
              && ParseFrom(rep, o.value.next) == Contents(ops[i + 1..], ParseFrom(rep, p).complete)
  {
    hide OpAt;
    var o := OpAt(rep, p);
    if o.Some? {
      RestOfOps(ops, i, o.value.op, ParseFrom(rep, o.value.next).ops);
    }
  }

  lemma {:induction false} ParseEnds(rep: Bytes, ops: seq<WriteOp>, i: nat)
    requires i <= |ops| && ParseFrom(rep, |rep|).ops == ops[i..]
    ensures i == |ops| && ParseFrom(rep, |rep|).complete
  {
  }

  lemma {:induction false} RestOfOps(ops: seq<WriteOp>, i: nat, op: WriteOp, rest: seq<WriteOp>)
    requires i <= |ops| && ops[i..] == [op] + rest
    ensures i < |ops| && ops[i] == op && ops[i + 1..] == rest
  {
    assert ops[i..][0] == ops[i];
    assert ops[i + 1..] == ops[i..][1..];
  }

  method InsertInto(rep: Bytes, mem: seq<Entry>) returns (ok: bool, result: seq<Entry>)
    requires |rep| >= HEADER
    ensures var c := ParseFrom(rep, HEADER);
            && ok == (c.complete && |c.ops| == Fixed32At(rep, 8))
            && result == AddAll(mem, c.ops, |c.ops|, Fixed64At(rep, 0))
  {
    var inserter := new MemTableInserter(Fixed64At(rep, 0), mem);
    ok := Iterate(rep, inserter);
    result := inserter.mem;
  }
}
