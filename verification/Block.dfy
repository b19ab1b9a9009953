/** Blocks of a table: keys with shared prefixes, restart points, and the iterator over them. */
module Block {
  import opened ByteOrder
  import opened DbFormat
  import opened Coding
  import opened KeyOrder

  datatype KeyValue = KeyValue(key: Bytes, value: Bytes)

  ghost predicate Ascending(rank: Bytes -> real, entries: seq<KeyValue>) {
    forall i, j :: 0 <= i < j < |entries| ==> rank(entries[i].key) < rank(entries[j].key)
  }

  // ----- Encoded entries -----

  function Lengths(shared: nat, nonShared: nat, valueSize: nat): (r: Bytes)
    ensures |r| >= 3
  {
    PutVarint(shared) + (PutVarint(nonShared) + PutVarint(valueSize))
  }

  function EncodeEntry(shared: nat, e: KeyValue): (r: Bytes)
    requires shared <= |e.key|
    ensures |r| == |Lengths(shared, |e.key| - shared, |e.value|)| + |e.key| - shared + |e.value|
  {
    Lengths(shared, |e.key| - shared, |e.value|) + Joined(e.key[shared..], e.value)
  }

  /** What DecodeEntry reads: three lengths, and where the key delta starts. */
  datatype Decoded = Decoded(shared: nat, nonShared: nat, valueLength: nat, delta: nat)

  function ThreeVarints(b: Bytes, p: nat, limit: nat): (r: Option<Decoded>)
    requires limit <= |b|
    ensures r.Some? ==> p + 3 <= r.value.delta <= limit
  {
    var s := GetVarint32(b, p, limit);
    if s.None? then None
    else
      var n := GetVarint32(b, s.value.next, limit);
      if n.None? then None
      else
        var v := GetVarint32(b, n.value.next, limit);
        if v.None? then None else Some(Decoded(s.value.value, n.value.value, v.value.value, v.value.next))
  }

  /** The lengths must leave room for what they announce. */
  function DecodeEntry(b: Bytes, p: nat, limit: nat): (r: Option<Decoded>)
    requires limit <= |b|
    ensures r.Some? ==> p + 3 <= r.value.delta && r.value.delta + r.value.nonShared + r.value.valueLength <= limit
  {
    var d := ThreeVarints(b, p, limit);
    if d.None? || limit - d.value.delta < d.value.nonShared + d.value.valueLength then None else d
  }

  /** The fast path for one-byte lengths reads the same. */
  method DecodeEntryFast(b: Bytes, p: nat, limit: nat) returns (r: Option<Decoded>)
    requires limit <= |b|
    ensures r == DecodeEntry(b, p, limit)
  {
    if limit - p < 3 {
      assert ThreeVarints(b, p, limit).None?;
      return None;
    }
    var d: Option<Decoded>;
    if b[p] < 128 && b[p + 1] < 128 && b[p + 2] < 128 {
      d := Some(Decoded(b[p], b[p + 1], b[p + 2], p + 3));
      ShortVarint(b, p, limit);
      ShortVarint(b, p + 1, limit);
      ShortVarint(b, p + 2, limit);
    } else {
      d := ThreeVarints(b, p, limit);
      if d.None? {
        return None;
      }
    }
    if limit - d.value.delta < d.value.nonShared + d.value.valueLength {
      return None;
    }
    r := d;
  }

  /** The check for room as the code does it, in 32-bit arithmetic. */
  predicate RoomCheck(room: nat, nonShared: Word, valueLength: Word) {
    room % 0x1_0000_0000 >= (nonShared + valueLength) % 0x1_0000_0000
  }

  /** Below 4 GiB it is the check of DecodeEntry exactly when the sum of the lengths does not wrap into the room. */
  lemma RoomCheckWraps(room: Word, nonShared: Word, valueLength: Word)
    ensures (RoomCheck(room, nonShared, valueLength) <==> nonShared + valueLength <= room) <==>
              !(0x1_0000_0000 <= nonShared + valueLength <= 0x1_0000_0000 + room)
    ensures RoomCheck(0, 0xffff_ffff, 1)
  {
    var sum := nonShared + valueLength;
    if sum >= 0x1_0000_0000 {
      assert sum % 0x1_0000_0000 == sum - 0x1_0000_0000;
    }
  }

  lemma ShortVarint(b: Bytes, p: nat, limit: nat)
    requires p < limit <= |b| && b[p] < 128
    ensures GetVarint32(b, p, limit) == Some(Parsed(b[p], p + 1))
  {
  }

  // ----- Reading an entry back -----

  lemma LengthsReadBack(b: Bytes, p: nat, limit: nat, shared: Word, nonShared: Word, valueSize: Word)
    requires limit <= |b| && At(b, p, Lengths(shared, nonShared, valueSize))
    requires p + |Lengths(shared, nonShared, valueSize)| <= limit
    ensures ThreeVarints(b, p, limit) ==
            Some(Decoded(shared, nonShared, valueSize, p + |Lengths(shared, nonShared, valueSize)|))
  {
    var q1 := p + |PutVarint(shared)|;
    var q2 := q1 + |PutVarint(nonShared)|;
    LengthsStand(b, p, shared, nonShared, valueSize, q1, q2);
    VarintsReadBack(b, p, limit, shared, nonShared, valueSize, q1, q2, q2 + |PutVarint(valueSize)|);
  }

  lemma LengthsStand(b: Bytes, p: nat, shared: nat, nonShared: nat, valueSize: nat, q1: nat, q2: nat)
    requires At(b, p, Lengths(shared, nonShared, valueSize))
    requires q1 == p + |PutVarint(shared)| && q2 == q1 + |PutVarint(nonShared)|
    ensures At(b, p, PutVarint(shared)) && At(b, q1, PutVarint(nonShared)) && At(b, q2, PutVarint(valueSize))
  {
    AtThree(b, p, Lengths(shared, nonShared, valueSize), PutVarint(shared), PutVarint(nonShared), PutVarint(valueSize));
  }

  lemma VarintsReadBack(b: Bytes, p: nat, limit: nat, shared: Word, nonShared: Word, valueSize: Word, q1: nat, q2: nat, q3: nat)
    requires limit <= |b| && q3 <= limit
    requires At(b, p, PutVarint(shared)) && At(b, q1, PutVarint(nonShared)) && At(b, q2, PutVarint(valueSize))
    requires q1 == p + |PutVarint(shared)| && q2 == q1 + |PutVarint(nonShared)| && q3 == q2 + |PutVarint(valueSize)|
    ensures ThreeVarints(b, p, limit) == Some(Decoded(shared, nonShared, valueSize, q3))
  {
    hide PutVarint, At, GetVarint32, ThreeVarints;
    Varint32ReadsBack(b, p, limit, shared);
    Varint32ReadsBack(b, q1, limit, nonShared);
    Varint32ReadsBack(b, q2, limit, valueSize);
    ThreeRead(b, p, limit, shared, q1, nonShared, q2, valueSize, q3);
  }

  lemma ThreeRead(b: Bytes, p: nat, limit: nat, s: nat, q1: nat, n: nat, q2: nat, v: nat, q3: nat)
    requires limit <= |b| && GetVarint32(b, p, limit) == Some(Parsed(s, q1))
    requires GetVarint32(b, q1, limit) == Some(Parsed(n, q2)) && GetVarint32(b, q2, limit) == Some(Parsed(v, q3))
    ensures ThreeVarints(b, p, limit) == Some(Decoded(s, n, v, q3))
  {
  }

  /** The entry at `p` in `b` is `e`, with `shared` bytes of its key left to the key before it. */
  ghost predicate EntryStands(b: Bytes, p: nat, limit: nat, shared: nat, e: KeyValue)
    requires limit <= |b|
  {
    && shared <= |e.key|
    && var d := DecodeEntry(b, p, limit);
       && d.Some? && d.value.shared == shared && d.value.nonShared == |e.key| - shared && d.value.valueLength == |e.value|
       && d.value.delta + |e.key| - shared + |e.value| <= limit
       && b[d.value.delta..d.value.delta + |e.key| - shared] == e.key[shared..]
       && b[d.value.delta + |e.key| - shared..d.value.delta + |e.key| - shared + |e.value|] == e.value
  }

  lemma EntryReadsBack(b: Bytes, p: nat, limit: nat, shared: nat, e: KeyValue)
    requires limit <= |b| && limit < 0x1_0000_0000 && shared <= |e.key| && |e.key| < 0x1_0000_0000
    requires At(b, p, EncodeEntry(shared, e)) && p + |EncodeEntry(shared, e)| <= limit
    ensures EntryStands(b, p, limit, shared, e)
    ensures DecodeEntry(b, p, limit).value.delta + |e.key| - shared + |e.value| == p + |EncodeEntry(shared, e)|
  {
    var lengths := Lengths(shared, |e.key| - shared, |e.value|);
    var delta := p + |lengths|;
    EntrySplits(b, p, shared, e, delta);
    LengthsReadBack(b, p, limit, shared, |e.key| - shared, |e.value|);
    DecodedStands(b, p, limit, shared, e, delta);
  }

  lemma EntrySplits(b: Bytes, p: nat, shared: nat, e: KeyValue, delta: nat)
    requires shared <= |e.key| && At(b, p, EncodeEntry(shared, e)) && delta == p + |Lengths(shared, |e.key| - shared, |e.value|)|
    ensures At(b, p, Lengths(shared, |e.key| - shared, |e.value|)) && At(b, delta, Joined(e.key[shared..], e.value))
  {
    AtSplit(b, p, EncodeEntry(shared, e), Lengths(shared, |e.key| - shared, |e.value|), Joined(e.key[shared..], e.value), delta);
  }

  lemma DecodedStands(b: Bytes, p: nat, limit: nat, shared: nat, e: KeyValue, delta: nat)
    requires limit <= |b| && limit < 0x1_0000_0000 && shared <= |e.key|
    requires ThreeVarints(b, p, limit) == Some(Decoded(shared, |e.key| - shared, |e.value|, delta))
    requires At(b, delta, Joined(e.key[shared..], e.value)) && delta + |e.key| - shared + |e.value| <= limit
    ensures EntryStands(b, p, limit, shared, e)
    ensures DecodeEntry(b, p, limit) == Some(Decoded(shared, |e.key| - shared, |e.value|, delta))
  {
    DeltaReadsBack(b, delta, e.key[shared..], e.value);
  }

  lemma DeltaReadsBack(b: Bytes, p: nat, delta: Bytes, value: Bytes)
    requires At(b, p, Joined(delta, value))
    ensures p + |delta| + |value| <= |b|
    ensures b[p..p + |delta|] == delta && b[p + |delta|..p + |delta| + |value|] == value
  {
    AtJoined(b, p, delta, value);
    AtSlice(b, p, delta);
    AtSlice(b, p + |delta|, value);
  }

  // ----- The layout of a block -----

  /** Where each entry starts, how much of its key it leaves to the one before, and which entries are restarts. */
  datatype Layout = Layout(entries: seq<KeyValue>, offsets: seq<nat>, shares: seq<nat>, restarts: seq<nat>)

  /** The key before entry `i` supplies the shared bytes. */
  ghost predicate SharesOk(l: Layout, i: nat)
    requires i < |l.entries| == |l.shares|
  {
    var n := l.shares[i];
    n <= |l.entries[i].key| && (n > 0 ==> i > 0 && n <= |l.entries[i - 1].key| && l.entries[i].key[..n] == l.entries[i - 1].key[..n])
  }

  ghost predicate EntryOk(l: Layout, i: nat)
    requires i < |l.entries| == |l.shares| && |l.offsets| == |l.entries| + 1
  {
    SharesOk(l, i) && l.offsets[i + 1] == l.offsets[i] + |EncodeEntry(l.shares[i], l.entries[i])|
  }

  ghost predicate RestartOk(l: Layout, r: nat)
    requires r < |l.restarts| && |l.shares| == |l.entries|
  {
    && (if r == 0 then l.restarts[r] == 0 else l.restarts[r - 1] < l.restarts[r] < |l.entries|)
    && (l.restarts[r] < |l.entries| ==> l.shares[l.restarts[r]] == 0)
  }

  ghost predicate WellFormed(l: Layout) {
    && |l.shares| == |l.entries| && |l.offsets| == |l.entries| + 1 && l.offsets[0] == 0 && |l.restarts| > 0
    && (forall i: nat :: i < |l.entries| ==> EntryOk(l, i))
    && (forall r: nat :: r < |l.restarts| ==> RestartOk(l, r))
  }

  ghost predicate DataHolds(b: Bytes, l: Layout, i: nat)
    requires WellFormed(l) && i < |l.entries|
  {
    EntryOk(l, i) && At(b, l.offsets[i], EncodeEntry(l.shares[i], l.entries[i]))
  }

  /** The data part of the block holds the entries one after the other. */
  ghost predicate DataStands(b: Bytes, l: Layout) {
    WellFormed(l) && forall i: nat :: i < |l.entries| ==> DataHolds(b, l, i)
  }

  lemma {:induction false} OffsetsAscend(l: Layout, i: nat, j: nat)
    requires WellFormed(l) && i <= j <= |l.entries|
    ensures l.offsets[i] <= l.offsets[j] && (i < j ==> l.offsets[i] < l.offsets[j])
    decreases j - i
  {
    if i < j {
      assert EntryOk(l, j - 1);
      OffsetsAscend(l, i, j - 1);
    }
  }

  lemma {:induction false} RestartsAscend(l: Layout, r: nat, q: nat)
    requires WellFormed(l) && r <= q < |l.restarts|
    ensures l.restarts[r] <= l.restarts[q] <= |l.entries| && (r < q ==> l.restarts[r] < l.restarts[q] < |l.entries|)
    decreases q - r
  {
    assert RestartOk(l, q);
    if r < q {
      RestartsAscend(l, r, q - 1);
    }
  }

  /** `m` is `l` with one more entry, a restart point or not. */
  ghost predicate Extends(l: Layout, m: Layout, e: KeyValue, shared: nat, restart: bool) {
    var n := |l.entries|;
    && |m.entries| == |m.shares| == n + 1 && |m.offsets| == n + 2 && |l.shares| == n && |l.offsets| == n + 1
    && (forall i :: 0 <= i < n ==> m.entries[i] == l.entries[i] && m.shares[i] == l.shares[i])
    && (forall i :: 0 <= i <= n ==> m.offsets[i] == l.offsets[i])
    && m.entries[n] == e && m.shares[n] == shared <= |e.key|
    && m.offsets[n + 1] == l.offsets[n] + |EncodeEntry(shared, e)|
    && |m.restarts| == |l.restarts| + (if restart then 1 else 0)
    && (forall r :: 0 <= r < |l.restarts| ==> m.restarts[r] == l.restarts[r])
    && (restart ==> m.restarts[|l.restarts|] == n)
  }

  ghost function Extended(l: Layout, e: KeyValue, shared: nat, restart: bool): Layout
    requires WellFormed(l) && shared <= |e.key|
    ensures Extends(l, Extended(l, e, shared, restart), e, shared, restart)
  {
    var n := |l.entries|;
    Layout(Joined(l.entries, [e]), Joined(l.offsets, [l.offsets[n] + |EncodeEntry(shared, e)|]), Joined(l.shares, [shared]),
           if restart then Joined(l.restarts, [n]) else l.restarts)
  }

  lemma ExtendedIsWellFormed(l: Layout, m: Layout, e: KeyValue, shared: nat, restart: bool)
    requires WellFormed(l) && Extends(l, m, e, shared, restart)
    requires shared > 0 ==> |l.entries| > 0 && shared <= |l.entries[|l.entries| - 1].key| && e.key[..shared] == l.entries[|l.entries| - 1].key[..shared]
    requires l.entries == [] ==> l.restarts == [0] && shared == 0 && !restart
    requires forall r :: 0 <= r < |l.restarts| && l.entries != [] ==> l.restarts[r] < |l.entries|
    requires restart ==> shared == 0
    ensures WellFormed(m)
  {
    forall i: nat | i < |m.entries|
      ensures EntryOk(m, i)
    {
      if i < |l.entries| { assert EntryOk(l, i); }
    }
    forall r: nat | r < |m.restarts|
      ensures RestartOk(m, r)
    {
      if r < |l.restarts| { assert RestartOk(l, r); }
    }
  }

  lemma ExtendedStands(b: Bytes, l: Layout, m: Layout, e: KeyValue, shared: nat, restart: bool)
    requires DataStands(b, l) && Extends(l, m, e, shared, restart) && WellFormed(m) && l.offsets[|l.entries|] == |b|
    ensures DataStands(Joined(b, EncodeEntry(shared, e)), m)
  {
    var more := EncodeEntry(shared, e);
    forall i: nat | i < |m.entries|
      ensures DataHolds(Joined(b, more), m, i)
    {
      assert EntryOk(m, i);
      if i < |l.entries| {
        assert DataHolds(b, l, i);
        AtGrows(b, l.offsets[i], EncodeEntry(l.shares[i], l.entries[i]), more);
      } else {
        AtEnd(b, more);
      }
    }
  }

  // ----- The builder -----

  /** How many bytes the two keys have in common at their start. */
  ghost predicate IsCommonPrefix(a: Bytes, b: Bytes, n: nat) {
    n <= |a| && n <= |b| && a[..n] == b[..n]
  }

  /** The restart points, as long as offsets fit in 32 bits. */
  ghost predicate RestartsStand(restarts: seq<Word>, l: Layout, size: nat)
    requires WellFormed(l)
  {
    && |restarts| == |l.restarts|
    && (size < 0x1_0000_0000 ==>
          forall r :: 0 <= r < |restarts| ==> l.restarts[r] <= |l.entries| && restarts[r] == l.offsets[l.restarts[r]])
  }

  lemma RestartsGrow(restarts: seq<Word>, restarts': seq<Word>, l: Layout, m: Layout, e: KeyValue, shared: nat, restart: bool)
    requires WellFormed(l) && WellFormed(m) && Extends(l, m, e, shared, restart)
    requires RestartsStand(restarts, l, l.offsets[|l.entries|])
    requires restarts' == if restart then restarts + [l.offsets[|l.entries|] % 0x1_0000_0000] else restarts
    ensures RestartsStand(restarts', m, m.offsets[|m.entries|])
  {
  }

  class BlockBuilder {
    const blockRestartInterval: nat
    var buffer: Bytes
    var restarts: seq<Word>
    var counter: nat
    var finished: bool
    var lastKey: Bytes
    ghost var layout: Layout

    ghost predicate Valid()
      reads this
    {
      && blockRestartInterval >= 1 && counter <= blockRestartInterval
      && DataStands(buffer, layout) && layout.offsets[|layout.entries|] == |buffer|
      && (forall e :: e in layout.entries ==> |e.key| < 0x1_0000_0000)
      && (layout.entries == [] ==> lastKey == [] && counter == 0)
      && (layout.entries != [] ==> lastKey == layout.entries[|layout.entries| - 1].key)
      && (layout.entries == [] ==> layout.restarts == [0])
      && RestartsStand(restarts, layout, |buffer|)
    }

    constructor (blockRestartInterval: nat)
      requires blockRestartInterval >= 1
      ensures Valid() && !finished && layout.entries == [] && CurrentSizeEstimate() == 8
    {
      this.blockRestartInterval := blockRestartInterval;
      buffer, restarts, counter, finished, lastKey := [], [0], 0, false, [];
      layout := Layout([], [0], [], [0]);
    }

    method Reset()
      requires blockRestartInterval >= 1
      modifies this
      ensures Valid() && !finished && layout.entries == [] && CurrentSizeEstimate() == 8
    {
      buffer, restarts, counter, finished, lastKey := [], [0], 0, false, [];
      layout := Layout([], [0], [], [0]);
    }

    predicate Empty()
      reads this
    {
      buffer == []
    }

    lemma EmptyWithoutEntries()
      requires Valid()
      ensures Empty() <==> layout.entries == []
    {
      OffsetsAscend(layout, 0, |layout.entries|);
    }

    function CurrentSizeEstimate(): nat
      reads this
    {
      |buffer| + |restarts| * 4 + 4
    }

    /** Appends an entry; the caller keeps the keys ascending. */
    method Add(key: Bytes, value: Bytes)
      requires Valid() && !finished && |key| < 0x1_0000_0000 && |value| < 0x1_0000_0000
      modifies this
      ensures Valid() && !finished && layout.entries == Joined(old(layout.entries), [KeyValue(key, value)])
      ensures CurrentSizeEstimate() <= old(CurrentSizeEstimate()) + |key| + |value| + 19
    {
      hide EntryOk, RestartOk, DataHolds, EncodeEntry;
      ghost var restart := counter >= blockRestartInterval;
      ghost var before := layout;
      ghost var data := buffer;
      var shared := StartEntry(key);
      ghost var e := KeyValue(key, value);
      layout := Extended(before, e, shared, restart);
      AddKeepsLayout(before, layout, e, shared, restart, data, lastKey);
      RestartsGrow(old(restarts), restarts, before, layout, e, shared, restart);
      EntrySize(shared, e);
      AppendEntry(shared, key, value);
      RememberKey(shared, key);
      counter := counter + 1;
    }

    /** Shared bytes with the key before, or a restart point. */
    method StartEntry(key: Bytes) returns (shared: nat)
      requires Valid()
      modifies this`restarts, this`counter
      ensures IsCommonPrefix(lastKey, key, shared)
      ensures if old(counter) < blockRestartInterval then restarts == old(restarts) && counter == old(counter)
              else shared == 0 && restarts == old(restarts) + [|buffer| % 0x1_0000_0000] && counter == 0
    {
      shared := 0;
      if counter < blockRestartInterval {
        shared := CommonPrefix(lastKey, key);
      } else {
        restarts := restarts + [|buffer| % 0x1_0000_0000];
        counter := 0;
      }
    }

    method RememberKey(shared: nat, key: Bytes)
      requires IsCommonPrefix(lastKey, key, shared)
      modifies this`lastKey
      ensures lastKey == key
    {
      lastKey := lastKey[..shared];
      lastKey := lastKey + key[shared..];
    }

    method AppendEntry(shared: nat, key: Bytes, value: Bytes)
      requires shared <= |key|
      modifies this`buffer
      ensures buffer == Joined(old(buffer), EncodeEntry(shared, KeyValue(key, value)))
    {
      var nonShared := |key| - shared;
      FiveAppends(buffer, PutVarint(shared), PutVarint(nonShared), PutVarint(|value|), key[shared..], value);
      buffer := buffer + PutVarint(shared);
      buffer := buffer + PutVarint(nonShared);
      buffer := buffer + PutVarint(|value|);
      buffer := buffer + key[shared..];
      buffer := buffer + value;
    }

    /** The finished block: entries, restart points, and how many there are. */
    method Finish() returns (contents: Bytes)
      requires Valid() && !finished
      modifies this
      ensures finished && layout == old(layout) && |contents| == old(CurrentSizeEstimate())
      ensures contents == Joined(old(buffer), WordArray(old(restarts) + [|old(restarts)| % 0x1_0000_0000], |old(restarts)| + 1))
      ensures |contents| < 0x1_0000_0000 ==>
                && RestartOffset(contents) == Some(|old(buffer)|) && NumRestarts(contents) == |layout.restarts|
                && Holds(contents, |old(buffer)|, layout)
    {
      var words := restarts + [|restarts| % 0x1_0000_0000];
      ghost var start := buffer;
      for i := 0 to |words|
        invariant buffer == Joined(start, WordArray(words, i)) && layout == old(layout) && restarts == old(restarts)
      {
        JoinedAssociates(start, WordArray(words, i), PutFixed32(words[i]));
        buffer := Joined(buffer, PutFixed32(words[i]));
      }
      finished := true;
      contents := buffer;
      if |contents| < 0x1_0000_0000 {
        FinishedHolds(start, restarts, layout, words, contents);
      }
    }
  }

  lemma {:induction false} EntrySize(shared: nat, e: KeyValue)
    requires shared <= |e.key| < 0x1_0000_0000 && |e.value| < 0x1_0000_0000
    ensures |EncodeEntry(shared, e)| <= |e.key| + |e.value| + 15
  {
    FiveBytesSuffice();
    VarintLength(shared, 5);
    VarintLength(|e.key| - shared, 5);
    VarintLength(|e.value|, 5);
  }

  lemma FiveAppends(b: Bytes, s: Bytes, n: Bytes, v: Bytes, d: Bytes, w: Bytes)
    ensures b + s + n + v + d + w == Joined(b, s + (n + v) + Joined(d, w))
  {
    assert Joined(d, w) == d + w;
    assert Joined(b, s + (n + v) + (d + w)) == b + (s + (n + v) + (d + w));
  }

  lemma AddKeepsLayout(l: Layout, m: Layout, e: KeyValue, shared: nat, restart: bool, b: Bytes, lastKey: Bytes)
    requires DataStands(b, l) && l.offsets[|l.entries|] == |b| && Extends(l, m, e, shared, restart)
    requires l.entries == [] ==> lastKey == [] && l.restarts == [0] && !restart
    requires l.entries != [] ==> lastKey == l.entries[|l.entries| - 1].key
    requires IsCommonPrefix(lastKey, e.key, shared) && (restart ==> shared == 0)
    ensures DataStands(Joined(b, EncodeEntry(shared, e)), m)
  {
    forall r | 0 <= r < |l.restarts| && l.entries != []
      ensures l.restarts[r] < |l.entries|
    {
      assert RestartOk(l, r);
    }
    ExtendedIsWellFormed(l, m, e, shared, restart);
    ExtendedStands(b, l, m, e, shared, restart);
  }

  method CommonPrefix(a: Bytes, b: Bytes) returns (shared: nat)
    ensures IsCommonPrefix(a, b, shared)
    ensures shared < |a| && shared < |b| ==> a[shared] != b[shared]
  {
    shared := 0;
    var minLength := if |a| < |b| then |a| else |b|;
    while shared < minLength && a[shared] == b[shared]
      invariant shared <= minLength && a[..shared] == b[..shared]
    {
      shared := shared + 1;
    }
  }

  // ----- The contents of a finished block -----

  ghost predicate EntryHolds(data: Bytes, limit: nat, l: Layout, i: nat)
    requires WellFormed(l) && i < |l.entries| && limit <= |data|
  {
    && EntryStands(data, l.offsets[i], limit, l.shares[i], l.entries[i])
    && var d := DecodeEntry(data, l.offsets[i], limit).value;
       l.offsets[i + 1] == d.delta + d.nonShared + d.valueLength
  }

  ghost predicate RestartHolds(data: Bytes, limit: nat, l: Layout, r: nat)
    requires WellFormed(l) && r < |l.restarts|
  {
    && limit + 4 * r + 4 <= |data| && l.restarts[r] <= |l.entries|
    && Fixed32At(data, limit + 4 * r) == l.offsets[l.restarts[r]]
  }

  /** `data` is a block whose restart array starts at `limit`. */
  ghost predicate Holds(data: Bytes, limit: nat, l: Layout) {
    && WellFormed(l) && limit == l.offsets[|l.entries|] <= |data|
    && (forall i: nat :: i < |l.entries| ==> EntryHolds(data, limit, l, i))
    && forall r: nat :: r < |l.restarts| ==> RestartHolds(data, limit, l, r)
  }

  /** The constructor of Block: the number of restart points stands last, the restart points before it. */
  function NumRestarts(data: Bytes): nat
    requires |data| >= 4
  {
    Fixed32At(data, |data| - 4)
  }

  /** Where the restart array starts; None marks contents that cannot be a block. */
  function RestartOffset(data: Bytes): (r: Option<nat>)
    ensures r.Some? ==> |data| >= 4 && r.value + 4 * NumRestarts(data) + 4 == |data|
  {
    if |data| < 4 || NumRestarts(data) > (|data| - 4) / 4 then None
    else Some(|data| - (1 + NumRestarts(data)) * 4)
  }

  lemma FinishedHolds(buffer: Bytes, restarts: seq<Word>, l: Layout, words: seq<Word>, contents: Bytes)
    requires DataStands(buffer, l) && l.offsets[|l.entries|] == |buffer| && |contents| < 0x1_0000_0000
    requires forall e :: e in l.entries ==> |e.key| < 0x1_0000_0000
    requires |restarts| == |l.restarts|
    requires forall r :: 0 <= r < |restarts| ==> l.restarts[r] <= |l.entries| && restarts[r] == l.offsets[l.restarts[r]]
    requires |words| == |restarts| + 1 && words[|restarts|] == |restarts| && forall r :: 0 <= r < |restarts| ==> words[r] == restarts[r]
    requires contents == Joined(buffer, WordArray(words, |words|))
    ensures RestartOffset(contents) == Some(|buffer|) && NumRestarts(contents) == |l.restarts|
    ensures Holds(contents, |buffer|, l)
  {
    hide WordArray, At, Fixed32At, EntryHolds, RestartHolds;
    AtEnd(buffer, WordArray(words, |words|));
    WordReadsBack(contents, |buffer|, words, |words|, |restarts|);
    RestartsAreHeld(contents, |buffer|, restarts, l, words, |words|);
    forall i: nat | i < |l.entries|
      ensures EntryHolds(contents, |buffer|, l, i)
    {
      EntryIsHeld(buffer, l, WordArray(words, |words|), i);
    }
  }

  lemma RestartsAreHeld(contents: Bytes, p: nat, restarts: seq<Word>, l: Layout, words: seq<Word>, n: nat)
    requires WellFormed(l) && n <= |words| && At(contents, p, WordArray(words, n)) && |restarts| == |l.restarts| <= n
    requires forall r :: 0 <= r < |restarts| ==> l.restarts[r] <= |l.entries| && words[r] == restarts[r] == l.offsets[l.restarts[r]]
    ensures forall r: nat :: r < |l.restarts| ==> RestartHolds(contents, p, l, r)
  {
    forall r: nat | r < |l.restarts|
      ensures RestartHolds(contents, p, l, r)
    {
      WordReadsBack(contents, p, words, n, r);
    }
  }

  lemma EntryIsHeld(buffer: Bytes, l: Layout, more: Bytes, i: nat)
    requires DataStands(buffer, l) && l.offsets[|l.entries|] == |buffer| && |buffer| < 0x1_0000_0000
    requires i < |l.entries| && |l.entries[i].key| < 0x1_0000_0000
    ensures EntryHolds(Joined(buffer, more), |buffer|, l, i)
  {
    assert DataHolds(buffer, l, i);
    AtGrows(buffer, l.offsets[i], EncodeEntry(l.shares[i], l.entries[i]), more);
    OffsetsAscend(l, i + 1, |l.entries|);
    EntryReadsBack(Joined(buffer, more), l.offsets[i], |buffer|, l.shares[i], l.entries[i]);
  }

  // ----- The iterator -----

  /**
   * The iterator runs over any contents; on the contents of a finished block it is a cursor over its entries:
   * `at` is the number of the current one, or how many there are when the cursor is off the block.
   */
  class Iter {
    const comparator: Ordering
    const data: Bytes
    const restarts: nat
    const numRestarts: nat
    var current: nat
    var restartIndex: nat
    var key: Bytes
    var valueStart: nat
    var valueEnd: nat
    var corrupt: bool
    ghost const rank: Bytes -> real
    ghost const layout: Layout
    ghost var at: nat

    /** The contents are those of a finished block with ascending keys. */
    ghost predicate IsBlock() {
      && Holds(data, restarts, layout) && numRestarts == |layout.restarts|
      && Orders(comparator, rank) && Ascending(rank, layout.entries)
    }

    ghost predicate Bounds()
      reads this
    {
      0 < numRestarts && restarts + 4 * numRestarts <= |data|
    }

    /** The next entry to be parsed is number `j`. */
    ghost predicate Before(j: nat)
      reads this
    {
      IsBlock() ==>
        && j <= |layout.entries| && valueEnd == layout.offsets[j]
        && restartIndex < numRestarts && layout.restarts[restartIndex] <= j
        && (j < |layout.entries| ==> PrefixOk(layout, j, key))
    }

    ghost predicate OnEntry()
      reads this
    {
      && at < |layout.entries| == |layout.offsets| - 1
      && current == layout.offsets[at] && key == layout.entries[at].key
      && valueStart <= valueEnd <= |data| && data[valueStart..valueEnd] == layout.entries[at].value
      && valueEnd == layout.offsets[at + 1]
      && restartIndex < numRestarts == |layout.restarts| && layout.restarts[restartIndex] <= at
      && (restartIndex + 1 < numRestarts ==> at <= layout.restarts[restartIndex + 1])
    }

    ghost predicate Valid()
      reads this
    {
      && Bounds() && (OnKey() ==> valueStart <= valueEnd <= |data|)
      && (IsBlock() ==> !corrupt && if at < |layout.entries| then OnEntry() else at == |layout.entries| && current == restarts)
    }

    constructor (comparator: Ordering, data: Bytes, restarts: nat, numRestarts: nat, ghost rank: Bytes -> real, ghost layout: Layout)
      requires 0 < numRestarts && restarts + 4 * numRestarts <= |data|
      ensures Valid() && this.data == data && this.restarts == restarts && this.numRestarts == numRestarts
      ensures this.comparator == comparator && this.rank == rank && this.layout == layout && at == |layout.entries|
    {
      this.comparator, this.data, this.restarts, this.numRestarts := comparator, data, restarts, numRestarts;
      current, restartIndex, key, valueStart, valueEnd, corrupt := restarts, numRestarts, [], 0, 0, false;
      this.rank, this.layout, at := rank, layout, |layout.entries|;
    }

    /** Valid() of the iterator: on an entry. */
    predicate OnKey()
      reads this
    {
      current < restarts
    }

    lemma OnKeyIffOnEntry()
      requires Valid() && IsBlock()
      ensures OnKey() <==> at < |layout.entries|
      ensures OnKey() ==> key == layout.entries[at].key && valueStart <= valueEnd <= |data| && Value() == layout.entries[at].value
    {
      if at < |layout.entries| {
        OffsetsAscend(layout, at, |layout.entries|);
      }
    }

    function Value(): Bytes
      reads this
      requires valueStart <= valueEnd <= |data|
    {
      data[valueStart..valueEnd]
    }

    function GetRestartPoint(index: nat): nat
      requires index < numRestarts && restarts + 4 * numRestarts <= |data|
    {
      Fixed32At(data, restarts + 4 * index)
    }

    lemma RestartPoint(index: nat)
      requires Holds(data, restarts, layout) && index < numRestarts == |layout.restarts| && restarts + 4 * numRestarts <= |data|
      ensures layout.restarts[index] <= |layout.entries| && GetRestartPoint(index) == layout.offsets[layout.restarts[index]]
    {
      assert RestartHolds(data, restarts, layout, index);
    }

    method SeekToRestartPoint(index: nat)
      requires Bounds() && index < numRestarts
      modifies this`key, this`restartIndex, this`valueStart, this`valueEnd
      ensures restartIndex == index && (IsBlock() ==> index < |layout.restarts| && Before(layout.restarts[index]))
    {
      key := [];
      restartIndex := index;
      valueStart := GetRestartPoint(index);
      valueEnd := valueStart;
      if IsBlock() {
        RestartPoint(index);
        assert RestartOk(layout, index);
        if layout.restarts[index] < |layout.entries| { assert EntryOk(layout, layout.restarts[index]); }
      }
    }

    /** Decodes the next entry; `j` is its number. */
    method ParseNextKey(ghost j: nat) returns (more: bool)
      requires Bounds() && Before(j) && (IsBlock() ==> !corrupt)
      modifies this
      ensures Valid()
      ensures IsBlock() ==> at == j && (more <==> j < |layout.entries|)
      ensures more ==> old(valueEnd) < valueEnd <= |data|
    {
      hide DecodeEntry, Orders, Ascending, SharesOk;
      current := valueEnd;
      at := j;
      if IsBlock() { OffsetsAscend(layout, j, |layout.entries|); }
      if current >= restarts {
        current, restartIndex := restarts, numRestarts;
        return false;
      }
      var d := DecodeEntryFast(data, current, restarts);
      if IsBlock() { assert EntryHolds(data, restarts, layout, j); }
      if d.None? || |key| < d.value.shared {
        CorruptionError();
        return false;
      }
      if IsBlock() { KeyIsDecoded(data, restarts, layout, j, key, d.value); }
      TakeEntry(d.value);
      AdvanceRestart(j);
      more := true;
    }

    method TakeEntry(d: Decoded)
      requires d.shared <= |key| && d.delta + d.nonShared + d.valueLength <= |data|
      modifies this`key, this`valueStart, this`valueEnd
      ensures key == old(key)[..d.shared] + data[d.delta..d.delta + d.nonShared]
      ensures valueStart == d.delta + d.nonShared && valueEnd == valueStart + d.valueLength
    {
      key := key[..d.shared];
      key := key + data[d.delta..d.delta + d.nonShared];
      valueStart := d.delta + d.nonShared;
      valueEnd := valueStart + d.valueLength;
    }

    /** After an entry comes the next one. */
    lemma NextIsReady()
      requires Valid() && IsBlock() && at < |layout.entries|
      ensures Before(at + 1)
    {
      if at + 1 < |layout.entries| { assert EntryOk(layout, at + 1); }
    }

    method Next()
      requires Valid() && current < restarts
      requires IsBlock() ==> at < |layout.entries|
      modifies this
      ensures Valid() && (IsBlock() ==> at == old(at) + 1)
    {
      if IsBlock() { NextIsReady(); }
      var more := ParseNextKey(at + 1);
    }

    method Prev()
      requires Valid() && current < restarts && restartIndex < numRestarts
      requires IsBlock() ==> at < |layout.entries|
      modifies this
      ensures Valid() && (IsBlock() ==> at == if old(at) == 0 then |layout.entries| else old(at) - 1)
    {
      var original := current;
      ghost var start := at;
      while GetRestartPoint(restartIndex) >= original
        invariant restartIndex < numRestarts && current == original && at == start && corrupt == old(corrupt)
        decreases restartIndex
      {
        if IsBlock() { RestartBefore(restartIndex, start); }
        if restartIndex == 0 {
          if IsBlock() { assert RestartOk(layout, 0); }
          current, restartIndex := restarts, numRestarts;
          at := |layout.entries|;
          return;
        }
        restartIndex := restartIndex - 1;
      }
      if IsBlock() { RestartBefore(restartIndex, start); }
      ghost var r := restartIndex;
      SeekToRestartPoint(restartIndex);
      ScanTo(original, start, if IsBlock() then layout.restarts[r] else 0);
    }

    /** Parses on until the end of an entry meets the start of entry `start`. */
    method ScanTo(original: nat, ghost start: nat, ghost j0: nat)
      requires Bounds() && (IsBlock() ==> !corrupt) && Before(j0)
      requires IsBlock() ==> j0 < start <= |layout.entries| || j0 == start == |layout.entries| == 0
      requires IsBlock() ==> original == layout.offsets[start]
      modifies this
      ensures Valid() && (IsBlock() ==> at == if start == 0 then 0 else start - 1)
    {
      ghost var j: nat := j0;
      var more := true;
      while more
        invariant Bounds() && (IsBlock() ==> !corrupt)
        invariant more ==> Before(j) && (IsBlock() ==> j < start || j == start == |layout.entries| == 0)
        invariant !more ==> Valid() && (IsBlock() ==> at == if start == 0 then 0 else start - 1)
        decreases more, |data| - valueEnd
      {
        var parsed := ParseNextKey(j);
        if IsBlock() && j < start { EndsBefore(j, start); }
        more := parsed && valueEnd < original;
        if more && IsBlock() { NextIsReady(); }
        j := j + 1;
      }
    }

    lemma EndsBefore(j: nat, start: nat)
      requires IsBlock() && j < start <= |layout.entries|
      ensures layout.offsets[j + 1] < layout.offsets[start] <==> j + 1 < start
    {
      OffsetsAscend(layout, j + 1, start);
    }

    /** Every entry before `j` has a smaller key than `target`. */
    ghost predicate AllSmaller(j: nat, target: Bytes) {
      j <= |layout.entries| && forall i :: 0 <= i < j ==> rank(layout.entries[i].key) < rank(target)
    }

    /** The cursor is at the first entry with a key from `target` on. */
    ghost predicate AtSeek(target: Bytes)
      reads this
    {
      AllSmaller(at, target) && (at < |layout.entries| ==> rank(layout.entries[at].key) >= rank(target))
    }

    method Seek(target: Bytes)
      requires Bounds() && (IsBlock() ==> !corrupt)
      modifies this
      ensures Valid() && (IsBlock() ==> AtSeek(target))
    {
      var left: nat, right: nat := 0, numRestarts - 1;
      if IsBlock() { assert RestartOk(layout, 0); }
      while left < right
        invariant left <= right < numRestarts && corrupt == old(corrupt)
        invariant IsBlock() ==> AllSmaller(layout.restarts[left], target)
      {
        var mid: nat := (left + right + 1) / 2;
        var midKey := RestartKey(mid);
        if midKey.None? {
          CorruptionError();
          return;
        }
        if IsBlock() { KeysCompare(layout.restarts[mid], target); }
        if comparator(midKey.value, target) < 0 {
          left := mid;
        } else {
          right := mid - 1;
        }
      }
      ghost var j: nat := if IsBlock() then layout.restarts[left] else 0;
      SeekToRestartPoint(left);
      ScanFor(target, j);
    }

    /** The whole key of a restart point; None when the entry cannot be one. */
    method RestartKey(mid: nat) returns (r: Option<Bytes>)
      requires Bounds() && mid < numRestarts
      ensures IsBlock() && mid > 0 ==>
                layout.restarts[mid] < |layout.entries| && r == Some(layout.entries[layout.restarts[mid]].key)
    {
      var regionOffset := GetRestartPoint(mid);
      var d := DecodeEntryFast(data, regionOffset, restarts);
      if IsBlock() && mid > 0 {
        RestartPoint(mid);
        assert RestartOk(layout, mid);
        assert EntryHolds(data, restarts, layout, layout.restarts[mid]);
      }
      if d.None? || d.value.shared != 0 {
        return None;
      }
      return Some(data[d.value.delta..d.value.delta + d.value.nonShared]);
    }

    /** Parses on until a key is not smaller than `target`. */
    method ScanFor(target: Bytes, ghost j0: nat)
      requires Bounds() && (IsBlock() ==> !corrupt) && Before(j0)
      requires IsBlock() ==> AllSmaller(j0, target)
      modifies this
      ensures Valid() && (IsBlock() ==> AtSeek(target))
    {
      ghost var j: nat := j0;
      while true
        invariant Bounds() && (IsBlock() ==> !corrupt) && Before(j) && (IsBlock() ==> AllSmaller(j, target))
        decreases |data| - valueEnd
      {
        var more := ParseNextKey(j);
        if !more {
          return;
        }
        if IsBlock() { KeysCompare(j, target); }
        if comparator(key, target) >= 0 {
          return;
        }
        if IsBlock() { NextIsReady(); }
        j := j + 1;
      }
    }

    /** Comparing with the key of entry `j` tells about all entries up to it. */
    lemma KeysCompare(j: nat, target: Bytes)
      requires IsBlock() && j < |layout.entries|
      ensures comparator(layout.entries[j].key, target) < 0 <==> rank(layout.entries[j].key) < rank(target)
      ensures comparator(layout.entries[j].key, target) < 0 ==> AllSmaller(j + 1, target)
    {
      assert OrdersAt(comparator, rank, layout.entries[j].key, target);
    }

    method SeekToLast()
      requires Bounds() && (IsBlock() ==> !corrupt)
      modifies this
      ensures Valid() && (IsBlock() ==> at == if |layout.entries| == 0 then 0 else |layout.entries| - 1)
    {
      if IsBlock() {
        assert RestartOk(layout, numRestarts - 1);
      }
      SeekToRestartPoint(numRestarts - 1);
      ScanTo(restarts, |layout.entries|, if IsBlock() then layout.restarts[numRestarts - 1] else 0);
    }

    method SeekToFirst()
      requires Bounds() && (IsBlock() ==> !corrupt)
      modifies this
      ensures Valid() && (IsBlock() ==> at == 0)
    {
      SeekToRestartPoint(0);
      if IsBlock() { assert RestartOk(layout, 0); }
      var more := ParseNextKey(0);
    }

    method CorruptionError()
      modifies this`current, this`restartIndex, this`corrupt, this`key, this`valueStart, this`valueEnd
      ensures corrupt && current == restarts && valueStart == valueEnd == 0
    {
      current, restartIndex := restarts, numRestarts;
      corrupt := true;
      key, valueStart, valueEnd := [], 0, 0;
    }

    /** The restart index catches up with the current entry. */
    method AdvanceRestart(ghost j: nat)
      requires Bounds()
      requires IsBlock() ==>
                 restartIndex < numRestarts && j < |layout.entries| && current == layout.offsets[j] && layout.restarts[restartIndex] <= j
      modifies this`restartIndex
      ensures IsBlock() ==>
                && restartIndex < numRestarts && layout.restarts[restartIndex] <= j
                && (restartIndex + 1 < numRestarts ==> j <= layout.restarts[restartIndex + 1])
    {
      while restartIndex + 1 < numRestarts && GetRestartPoint(restartIndex + 1) < current
        invariant IsBlock() ==> restartIndex < numRestarts && layout.restarts[restartIndex] <= j
        decreases numRestarts - restartIndex
      {
        if IsBlock() { RestartBefore(restartIndex + 1, j); }
        restartIndex := restartIndex + 1;
      }
      if IsBlock() && restartIndex + 1 < numRestarts { RestartBefore(restartIndex + 1, j); }
    }

    lemma RestartBefore(r: nat, j: nat)
      requires IsBlock() && Bounds() && r < numRestarts && j <= |layout.entries|
      ensures GetRestartPoint(r) < layout.offsets[j] <==> layout.restarts[r] < j
    {
      RestartPoint(r);
      if layout.restarts[r] < j { OffsetsAscend(layout, layout.restarts[r], j); } else { OffsetsAscend(layout, j, layout.restarts[r]); }
    }
  }

  lemma KeyIsDecoded(data: Bytes, limit: nat, l: Layout, j: nat, key: Bytes, d: Decoded)
    requires WellFormed(l) && j < |l.entries| && limit <= |data| && EntryHolds(data, limit, l, j) && PrefixOk(l, j, key)
    requires DecodeEntry(data, l.offsets[j], limit) == Some(d)
    ensures d.shared <= |key| && key[..d.shared] + data[d.delta..d.delta + d.nonShared] == l.entries[j].key
    ensures data[d.delta + d.nonShared..d.delta + d.nonShared + d.valueLength] == l.entries[j].value
    ensures d.delta + d.nonShared + d.valueLength == l.offsets[j + 1]
  {
    var k := l.entries[j].key;
    assert k[..d.shared] + k[d.shared..] == k;
  }

  /** `key` supplies what entry `j` shares with the key before it. */
  ghost predicate PrefixOk(l: Layout, j: nat, key: Bytes)
    requires WellFormed(l) && j < |l.entries|
  {
    EntryOk(l, j) && l.shares[j] <= |key| && key[..l.shares[j]] == l.entries[j].key[..l.shares[j]]
  }

  // ----- Building and scanning -----

  /** Reading a built block from the front gives back exactly what went in. */
  method BuildAndScan(cmp: Ordering, ghost rank: Bytes -> real, interval: nat, entries: seq<KeyValue>)
    returns (contents: Bytes, scanned: seq<KeyValue>)
    requires Orders(cmp, rank) && Ascending(rank, entries) && interval >= 1
    requires forall e :: e in entries ==> |e.key| < 0x1_0000_0000 && |e.value| < 0x1_0000_0000
    ensures |contents| < 0x1_0000_0000 ==> scanned == entries
  {
    var builder := new BlockBuilder(interval);
    for i := 0 to |entries|
      invariant builder.Valid() && !builder.finished && fresh(builder) && builder.layout.entries == entries[..i]
    {
      builder.Add(entries[i].key, entries[i].value);
      assert Joined(entries[..i], [entries[i]]) == entries[..i + 1];
    }
    assert entries[..|entries|] == entries;
    contents := builder.Finish();
    scanned := [];
    if |contents| < 0x1_0000_0000 {
      scanned := Scan(cmp, rank, contents, RestartOffset(contents).value, NumRestarts(contents), builder.layout);
    }
  }

  method Scan(cmp: Ordering, ghost rank: Bytes -> real, data: Bytes, restarts: nat, numRestarts: nat, ghost l: Layout)
    returns (scanned: seq<KeyValue>)
    requires Holds(data, restarts, l) && numRestarts == |l.restarts| && restarts + 4 * numRestarts <= |data|
    requires Orders(cmp, rank) && Ascending(rank, l.entries)
    ensures scanned == l.entries
  {
    var iter := new Iter(cmp, data, restarts, numRestarts, rank, l);
    iter.SeekToFirst();
    scanned := [];
    while iter.current < iter.restarts
      invariant iter.Valid() && fresh(iter) && iter.data == data && iter.restarts == restarts && iter.numRestarts == numRestarts
      invariant iter.comparator == cmp && iter.rank == rank && iter.layout == l
      invariant iter.at <= |l.entries| && scanned == l.entries[..iter.at]
      decreases |l.entries| - iter.at
    {
      assert iter.IsBlock();
      scanned := scanned + [KeyValue(iter.key, iter.data[iter.valueStart..iter.valueEnd])];
      iter.Next();
    }
    assert iter.IsBlock();
    if iter.at < |l.entries| { OffsetsAscend(l, iter.at, |l.entries|); }
  }
}
