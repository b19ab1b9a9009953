/** Input streams: varints of both widths, tags, substreams and skipping. */
module PbStream {
  import opened ByteOrder
  import opened DbFormat
  import opened Coding
  import opened KeyOrder
  import opened PbFormat

  class IStream {
    const data: Bytes
    var pos: nat
    var bytesLeft: nat

    ghost predicate Valid()
      reads this
    {
      pos + bytesLeft <= |data|
    }

    /** The bytes come next. */
    ghost predicate Next(bytes: Bytes)
      reads this
    {
      |bytes| <= bytesLeft && At(data, pos, bytes)
    }

    /** `n` bytes were taken since the old state. */
    twostate predicate Took(n: nat)
      reads this
    {
      pos == old(pos) + n && bytesLeft + n == old(bytesLeft)
    }

    /** The stream is still within what it had. */
    twostate predicate Within()
      reads this
    {
      Valid() && pos >= old(pos) && bytesLeft <= old(bytesLeft) && pos + bytesLeft <= old(pos + bytesLeft)
    }

    constructor (data: Bytes, pos: nat, bytesLeft: nat)
      requires pos + bytesLeft <= |data|
      ensures Valid() && this.data == data && this.pos == pos && this.bytesLeft == bytesLeft
    {
      this.data, this.pos, this.bytesLeft := data, pos, bytesLeft;
    }

    method Read(count: nat) returns (ok: bool, bytes: Bytes)
      requires Valid()
      modifies this
      ensures Valid() && (ok <==> count <= old(bytesLeft))
      ensures ok ==> Took(count) && bytes == data[old(pos)..old(pos) + count]
      ensures !ok ==> pos == old(pos) && bytesLeft == old(bytesLeft)
    {
      if count > bytesLeft {
        return false, [];
      }
      bytes := data[pos..pos + count];
      pos, bytesLeft := pos + count, bytesLeft - count;
      ok := true;
    }

    method ReadByte() returns (ok: bool, byte: Byte)
      requires Valid()
      modifies this
      ensures Valid() && (ok <==> old(bytesLeft) > 0)
      ensures ok ==> Took(1) && byte == data[old(pos)]
      ensures !ok ==> pos == old(pos) && bytesLeft == old(bytesLeft)
    {
      if bytesLeft == 0 {
        return false, 0;
      }
      ok, byte := true, data[pos];
      pos, bytesLeft := pos + 1, bytesLeft - 1;
    }

    /** pb_decode_varint: at most ten bytes, cut to 64 bits. */
    method DecodeVarint() returns (ok: bool, value: nat)
      requires Valid()
      modifies this
      ensures Valid() && pos >= old(pos) && pos + bytesLeft == old(pos + bytesLeft)
      ensures var r := old(GetVarint64(data, pos, pos + bytesLeft));
              && (ok <==> r.Some?)
              && (ok ==> value == r.value.value && Took(r.value.next - old(pos)))
    {
      hide VarintAt, Continues, Shifted;
      ghost var limit := pos + bytesLeft;
      ghost var whole := VarintAt(data, pos, limit, MAX_VARINT64_BYTES);
      ghost var total: nat := 0;
      var count: nat, scale: nat, more := 0, 1, true;   // bitpos is 7 * count
      value := 0;
      StartsWhole(whole);
      while more
        invariant Valid() && pos + bytesLeft == limit && count <= MAX_VARINT64_BYTES && pos == old(pos) + count
        invariant value == total % 0x1_0000_0000_0000_0000
        invariant more ==> Continues(whole, total, scale, VarintAt(data, pos, limit, MAX_VARINT64_BYTES - count))
        invariant !more ==> whole == Some(Parsed(total, pos))
        decreases more, MAX_VARINT64_BYTES - count
      {
        VarintStep(data, pos, limit, MAX_VARINT64_BYTES - count, whole, total, scale);
        if count == MAX_VARINT64_BYTES {
          return false, 0;
        }
        var read, byte := ReadByte();
        if !read {
          return false, 0;
        }
        AddsUp(total, Shifted(byte, scale));
        total := total + Shifted(byte, scale);
        value := (value + Shifted(byte, scale)) % 0x1_0000_0000_0000_0000;
        count := count + 1;
        scale := scale * 128;
        more := byte >= 128;
      }
      ok := true;
    }

    /** pb_decode_varint32_eof, but a varint of more than ten bytes is refused. */
    method DecodeVarint32() returns (ok: bool, value: Word, eof: bool)
      requires Valid()
      modifies this
      ensures Valid() && (eof <==> old(bytesLeft) == 0) && pos >= old(pos) && pos + bytesLeft == old(pos + bytesLeft)
      ensures var r := old(VarintAt(data, pos, pos + bytesLeft, MAX_VARINT32_BYTES));
              r.Some? && r.value.value < 0x1_0000_0000 ==> ok && value == r.value.value && Took(r.value.next - old(pos))
      ensures var r := old(VarintAt(data, pos, pos + bytesLeft, MAX_VARINT64_BYTES));
              && (ok <==> r.Some? && Accepts32(data, old(pos), r.value))
              && (ok ==> value == r.value.value % 0x1_0000_0000 && Took(r.value.next - old(pos)))
    {
      hide VarintAt, Power128, Shifted, HighByteOk, Progress, Accepts32;
      ghost var limit, start := pos + bytesLeft, pos;
      ProgressStarts(data, start, limit);
      ok, value, eof := false, 0, bytesLeft == 0;
      ghost var total: nat := 0;
      var count: nat, scale: nat, byte: Byte := 0, 1, 128;
      while byte >= 128
        invariant Valid() && pos + bytesLeft == limit && pos == start + count && count <= MAX_VARINT64_BYTES
        invariant scale == Power128(count) && (eof <==> start == limit)
        invariant Progress(data, start, limit, count, total, value, byte)
        decreases byte >= 128, MAX_VARINT64_BYTES - count
      {
        ProgressEnds(data, start, limit, count, total, value, byte);
        if count == MAX_VARINT64_BYTES {
          return;
        }
        ghost var last := byte;
        var read;
        read, byte := ReadByte();
        if !read {
          return;
        }
        ProgressStep(data, start, limit, count, total, value, last);
        if count >= MAX_VARINT32_BYTES {
          var signExtension := if count < 9 then 0xff else 0x01;
          HighByteIs(data, start, count, value);
          if byte % 128 != 0 && (value / 0x8000_0000 == 0 || byte != signExtension) {
            return;
          }
        } else {
          value := (value + Shifted(byte, scale)) % 0x1_0000_0000;
        }
        total := total + Shifted(byte, scale);
        count := count + 1;
        scale := scale * 128;
      }
      ok := !(count == MAX_VARINT32_BYTES && byte % 128 / 16 != 0);
      ProgressDone(data, start, limit, count, total, value, byte);
    }

    /** A number below 2^32 as the encoder writes it. */
    lemma {:induction false} NextWord(v: Word)
      requires Valid() && Next(PutVarint(v))
      ensures VarintAt(data, pos, pos + bytesLeft, MAX_VARINT32_BYTES) == Some(Parsed(v, pos + |PutVarint(v)|))
    {
      FiveBytesSuffice();
      VarintReadsBack(data, pos, pos + bytesLeft, v, MAX_VARINT32_BYTES);
    }

    /** pb_decode_tag: a zero ends the message, too. */
    method DecodeTag() returns (ok: bool, wireType: nat, tag: nat, eof: bool)
      requires Valid()
      modifies this
      ensures Within() && (ok ==> bytesLeft < old(bytesLeft) && wireType < 8)
      ensures forall t: nat, w: nat :: 0 < t < 0x2000_0000 && w < 8 && old(Next(WireTag(t, w))) ==>
                ok && tag == t && wireType == w && Took(|WireTag(t, w)|)
    {
      forall t: nat, w: nat | 0 < t < 0x2000_0000 && w < 8 && Next(WireTag(t, w))
        ensures VarintAt(data, pos, pos + bytesLeft, MAX_VARINT32_BYTES) == Some(Parsed(t * 8 + w, pos + |WireTag(t, w)|))
      {
        NextWord(t * 8 + w);
      }
      hide Accepts32, HighByteOk, VarintAt;
      var temp;
      ok, temp, eof := DecodeVarint32();
      wireType, tag := 0, 0;
      if !ok {
        return;
      }
      if temp == 0 {
        return false, 0, 0, true;
      }
      tag, wireType := temp / 8, temp % 8;
    }

    /** pb_skip_varint. */
    method SkipVarint() returns (ok: bool)
      requires Valid()
      modifies this
      ensures Within()
      ensures var r := old(VarintAt(data, pos, pos + bytesLeft, MAX_VARINT64_BYTES));
              r.Some? ==> ok && Took(r.value.next - old(pos))
    {
      hide VarintAt, Continues, Shifted;
      ghost var limit := pos + bytesLeft;
      ghost var whole := VarintAt(data, pos, limit, MAX_VARINT64_BYTES);
      ghost var count: nat, total: nat, scale: nat := 0, 0, 1;
      StartsWhole(whole);
      var byte: Byte := 128;
      while byte >= 128
        invariant Valid() && pos + bytesLeft == limit && pos >= old(pos)
        invariant whole.Some? ==> count <= MAX_VARINT64_BYTES
        invariant whole.Some? && byte >= 128 ==> Continues(whole, total, scale, VarintAt(data, pos, limit, MAX_VARINT64_BYTES - count))
        invariant whole.Some? && byte < 128 ==> whole == Some(Parsed(total, pos))
        decreases bytesLeft, byte >= 128
      {
        if whole.Some? { VarintStep(data, pos, limit, MAX_VARINT64_BYTES - count, whole, total, scale); }
        ok, byte := ReadByte();
        if !ok {
          return;
        }
        count, total, scale := count + 1, total + Shifted(byte, scale), scale * 128;
      }
      ok := true;
    }

    method SkipString() returns (ok: bool)
      requires Valid()
      modifies this
      ensures Within()
      ensures forall s: Bytes :: |s| < 0x1_0000_0000 && old(Next(Delimited(s))) ==> ok && Took(|Delimited(s)|)
    {
      hide Accepts32, HighByteOk, VarintAt;
      forall s: Bytes | |s| < 0x1_0000_0000 && Next(Delimited(s))
        ensures VarintAt(data, pos, pos + bytesLeft, MAX_VARINT32_BYTES) == Some(Parsed(|s|, pos + |PutVarint(|s|)|))
      {
        NextLength(s);
      }
      var length, eof, bytes;
      ok, length, eof := DecodeVarint32();
      if ok {
        ok, bytes := Read(length);
      }
    }

    lemma {:induction false} NextLength(s: Bytes)
      requires Valid() && |s| < 0x1_0000_0000 && Next(Delimited(s))
      ensures VarintAt(data, pos, pos + bytesLeft, MAX_VARINT32_BYTES) == Some(Parsed(|s|, pos + |PutVarint(|s|)|))
      ensures At(data, pos + |PutVarint(|s|)|, s)
    {
      hide PutVarint;
      AtSplit(data, pos, Delimited(s), PutVarint(|s|), s, pos + |PutVarint(|s|)|);
      NextWord(|s|);
    }

    /** pb_skip_field. */
    method SkipField(wireType: nat) returns (ok: bool)
      requires Valid()
      modifies this
      ensures Within()
      ensures wireType == WT_64BIT ==> (ok <==> old(bytesLeft) >= 8) && (ok ==> Took(8))
      ensures wireType == WT_32BIT ==> (ok <==> old(bytesLeft) >= 4) && (ok ==> Took(4))
      ensures wireType == WT_VARINT ==>
                var r := old(VarintAt(data, pos, pos + bytesLeft, MAX_VARINT64_BYTES));
                r.Some? ==> ok && Took(r.value.next - old(pos))
      ensures wireType == WT_STRING ==>
                forall s: Bytes :: |s| < 0x1_0000_0000 && old(Next(Delimited(s))) ==> ok && Took(|Delimited(s)|)
      ensures wireType !in {WT_VARINT, WT_64BIT, WT_STRING, WT_32BIT} ==> !ok
    {
      var bytes;
      if wireType == WT_VARINT {
        ok := SkipVarint();
      } else if wireType == WT_64BIT {
        ok, bytes := Read(8);
      } else if wireType == WT_STRING {
        ok := SkipString();
      } else if wireType == WT_32BIT {
        ok, bytes := Read(4);
      } else {
        ok := false;
      }
    }

    /** pb_make_string_substream: the announced bytes belong to the substream; null stands for the errors. */
    method MakeSubstream(ghost s: Bytes) returns (substream: IStream?)
      requires Valid()
      modifies this
      ensures Within()
      ensures substream != null ==>
                && fresh(substream) && substream.Valid() && substream.data == data && substream.pos == pos
                && pos + bytesLeft + substream.bytesLeft == old(pos + bytesLeft)
      ensures |s| < 0x1_0000_0000 && old(Next(Delimited(s))) ==>
                && substream != null && substream.bytesLeft == |s| && substream.Next(s)
                && bytesLeft + |Delimited(s)| == old(bytesLeft) && substream.pos + |s| == old(pos) + |Delimited(s)|
    {
      hide VarintAt, Delimited;
      ghost var good := |s| < 0x1_0000_0000 && Next(Delimited(s));
      if good { NextLength(s); DelimitedSize(s); }
      var ok, size, eof := DecodeVarint32();
      if !ok || bytesLeft < size {
        return null;
      }
      substream := new IStream(data, pos, size);
      bytesLeft := bytesLeft - size;
    }

    /** pb_close_string_substream: what the substream left is skipped. */
    method CloseSubstream(substream: IStream) returns (ok: bool)
      requires Valid() && substream.Valid() && substream != this && substream.data == data
      requires substream.pos + substream.bytesLeft + bytesLeft <= |data|
      modifies this, substream
      ensures ok && Valid() && bytesLeft == old(bytesLeft) && pos == old(substream.pos + substream.bytesLeft)
    {
      var bytes;
      ok := true;
      if substream.bytesLeft > 0 {
        ok, bytes := substream.Read(substream.bytesLeft);
      }
      pos := substream.pos;
    }
  }

  // ----- Which numbers are taken as 32 bits -----

  /** A byte from the sixth on has no bits, or those that extend the sign. */
  ghost predicate HighByteOk(b: Bytes, p: nat, i: nat, low: Word)
    requires p + i < |b|
  {
    b[p + i] % 128 == 0 || (low >= 0x8000_0000 && b[p + i] == if i < 9 then 0xff else 0x01)
  }

  /** The fifth byte is checked only if it is the last one. */
  ghost predicate Accepts32(b: Bytes, p: nat, r: Parsed)
    requires p < r.next <= |b|
  {
    && (r.next - p == MAX_VARINT32_BYTES ==> b[p + 4] < 16)
    && forall i: nat :: MAX_VARINT32_BYTES <= i < r.next - p ==> HighByteOk(b, p, i, r.value % 0x1_0000_0000)
  }

  lemma HighByteIs(b: Bytes, p: nat, i: nat, low: Word)
    requires p + i < |b|
    ensures HighByteOk(b, p, i, low) <==> !(b[p + i] % 128 != 0 && (low / 0x8000_0000 == 0 || b[p + i] != if i < 9 then 0xff else 0x01))
  {
  }

  /** Five bytes with too large a number are refused, but the same number in six bytes is taken and loses its upper bits. */
  lemma {:induction false} WideNumberIsCut()
    ensures var b := [0x80, 0x80, 0x80, 0x80, 0x10];
            VarintAt(b, 0, 5, 10) == Some(Parsed(0x1_0000_0000, 5)) && !Accepts32(b, 0, Parsed(0x1_0000_0000, 5))
    ensures var b := [0x80, 0x80, 0x80, 0x80, 0x90, 0x00];
            VarintAt(b, 0, 6, 10) == Some(Parsed(0x1_0000_0000, 6)) && Accepts32(b, 0, Parsed(0x1_0000_0000, 6))
  {
    var b := [0x80, 0x80, 0x80, 0x80, 0x10];
    assert VarintAt(b, 4, 5, 6) == Some(Parsed(16, 5));
    assert VarintAt(b, 3, 5, 7) == Some(Parsed(16 * 128, 5));
    assert VarintAt(b, 2, 5, 8) == Some(Parsed(16 * 128 * 128, 5));
    assert VarintAt(b, 1, 5, 9) == Some(Parsed(16 * 128 * 128 * 128, 5));
    var c := [0x80, 0x80, 0x80, 0x80, 0x90, 0x00];
    assert VarintAt(c, 5, 6, 5) == Some(Parsed(0, 6));
    assert VarintAt(c, 4, 6, 6) == Some(Parsed(16, 6));
    assert VarintAt(c, 3, 6, 7) == Some(Parsed(16 * 128, 6));
    assert VarintAt(c, 2, 6, 8) == Some(Parsed(16 * 128 * 128, 6));
    assert VarintAt(c, 1, 6, 9) == Some(Parsed(16 * 128 * 128 * 128, 6));
  }

  /** From the sixth byte on nothing reaches the lower 32 bits. */
  lemma {:induction false} RestVanishes(whole: Option<Parsed>, total: nat, scale: nat, rest: Option<Parsed>, n: nat, p: nat)
    requires Continues(whole, total, scale, rest) && scale == Power128(n) && (rest.Some? ==> rest.value.next > p)
    ensures n >= 5 && whole.Some? ==> whole.value.value % 0x1_0000_0000 == total % 0x1_0000_0000 && whole.value.next > p
  {
    hide Power128;
    if n >= 5 && whole.Some? {
      var k := HighPower(n);
      Scales(rest.value.value, k, scale);
      MultipleVanishes(total, rest.value.value * k);
    }
  }

  /** What is known of a varint from `start` on after `count` bytes, the last of them `byte`, that add up to `total`. */
  ghost predicate Progress(b: Bytes, start: nat, limit: nat, count: nat, total: nat, value: Word, byte: Byte)
    requires limit <= |b|
  {
    && count <= MAX_VARINT64_BYTES && start + count <= limit && value == total % 0x1_0000_0000
    && (byte >= 128 ==>
          && Continues(VarintAt(b, start, limit, MAX_VARINT64_BYTES), total, Power128(count), VarintAt(b, start + count, limit, MAX_VARINT64_BYTES - count))
          && (count <= MAX_VARINT32_BYTES ==>
                Continues(VarintAt(b, start, limit, MAX_VARINT32_BYTES), total, Power128(count), VarintAt(b, start + count, limit, MAX_VARINT32_BYTES - count)))
          && (count > MAX_VARINT32_BYTES ==> VarintAt(b, start, limit, MAX_VARINT32_BYTES) == None))
    && (byte < 128 ==>
          && count > 0 && VarintAt(b, start, limit, MAX_VARINT64_BYTES) == Some(Parsed(total, start + count))
          && VarintAt(b, start, limit, MAX_VARINT32_BYTES) == if count <= MAX_VARINT32_BYTES then Some(Parsed(total, start + count)) else None)
    && (count == MAX_VARINT32_BYTES ==> total >= byte % 128 / 16 * 0x1_0000_0000)
    && (count > 0 ==> byte == b[start + count - 1])
    && forall i: nat :: MAX_VARINT32_BYTES <= i < count ==> HighByteOk(b, start, i, value)
  }

  lemma {:induction false} ProgressStarts(b: Bytes, start: nat, limit: nat)
    requires start <= limit <= |b|
    ensures Progress(b, start, limit, 0, 0, 0, 128) && Power128(0) == 1
  {
    hide VarintAt, HighByteOk, Power128;
    PowerOfNothing();
    StartsWhole(VarintAt(b, start, limit, MAX_VARINT64_BYTES));
    StartsWhole(VarintAt(b, start, limit, MAX_VARINT32_BYTES));
  }

  lemma {:induction false} ProgressEnds(b: Bytes, start: nat, limit: nat, count: nat, total: nat, value: Word, byte: Byte)
    requires limit <= |b| && Progress(b, start, limit, count, total, value, byte) && byte >= 128
    ensures count == MAX_VARINT64_BYTES || start + count == limit ==>
              VarintAt(b, start, limit, MAX_VARINT64_BYTES) == None && VarintAt(b, start, limit, MAX_VARINT32_BYTES) == None
  {
    hide HighByteOk, VarintAt, Power128;
    var whole, short := VarintAt(b, start, limit, MAX_VARINT64_BYTES), VarintAt(b, start, limit, MAX_VARINT32_BYTES);
    VarintStep(b, start + count, limit, MAX_VARINT64_BYTES - count, whole, total, Power128(count));
    if count <= MAX_VARINT32_BYTES {
      VarintStep(b, start + count, limit, MAX_VARINT32_BYTES - count, short, total, Power128(count));
    }
  }

  /** One byte more: either it is in order, or the number is not taken. */
  lemma {:induction false} ProgressStep(b: Bytes, start: nat, limit: nat, count: nat, total: nat, value: Word, last: Byte)
    requires limit <= |b| && Progress(b, start, limit, count, total, value, last) && last >= 128
    requires start + count < limit && count < MAX_VARINT64_BYTES
    ensures Power128(count + 1) == Power128(count) * 128
    ensures var byte, scale := b[start + count], Power128(count);
            if count >= MAX_VARINT32_BYTES && !HighByteOk(b, start, count, value) then
              && VarintAt(b, start, limit, MAX_VARINT32_BYTES) == None
              && var r := VarintAt(b, start, limit, MAX_VARINT64_BYTES); r.Some? ==> !Accepts32(b, start, r.value)
            else Progress(b, start, limit, count + 1, total + Shifted(byte, scale),
                   if count >= MAX_VARINT32_BYTES then value else (value + Shifted(byte, scale)) % 0x1_0000_0000, byte)
  {
    hide HighByteOk, VarintAt, Power128, Shifted;
    var byte, scale, p := b[start + count], Power128(count), start + count;
    var whole, short := VarintAt(b, start, limit, MAX_VARINT64_BYTES), VarintAt(b, start, limit, MAX_VARINT32_BYTES);
    PowerGrows(count);
    RestVanishes(whole, total, scale, VarintAt(b, p, limit, MAX_VARINT64_BYTES - count), count, p);
    VarintStep(b, p, limit, MAX_VARINT64_BYTES - count, whole, total, scale);
    if count <= MAX_VARINT32_BYTES {
      VarintStep(b, p, limit, MAX_VARINT32_BYTES - count, short, total, scale);
    }
    ByteTaken(total, byte, count, scale, value);
    if count >= MAX_VARINT32_BYTES && !HighByteOk(b, start, count, value) && whole.Some? {
      assert count < whole.value.next - start;
    }
  }

  lemma {:induction false} ProgressDone(b: Bytes, start: nat, limit: nat, count: nat, total: nat, value: Word, byte: Byte)
    requires limit <= |b| && Progress(b, start, limit, count, total, value, byte) && byte < 128
    ensures var r, short := Parsed(total, start + count), VarintAt(b, start, limit, MAX_VARINT32_BYTES);
            && count > 0 && VarintAt(b, start, limit, MAX_VARINT64_BYTES) == Some(r) && value == total % 0x1_0000_0000
            && (Accepts32(b, start, r) <==> !(count == MAX_VARINT32_BYTES && byte % 128 / 16 != 0))
            && (short.Some? && short.value.value < 0x1_0000_0000 ==>
                  short == Some(r) && value == total && !(count == MAX_VARINT32_BYTES && byte % 128 / 16 != 0))
  {
    hide HighByteOk, VarintAt, Power128;
  }

  lemma {:induction false} DelimitedSize(s: Bytes)
    ensures |Delimited(s)| == |PutVarint(|s|)| + |s|
  {
  }

  lemma {:induction false} PowerOfNothing()
    ensures Power128(0) == 1
  {
  }

  lemma {:induction false} PowerGrows(n: nat)
    ensures Power128(n + 1) == Power128(n) * 128
    ensures n == MAX_VARINT32_BYTES - 1 ==> Power128(n) == 0x1000_0000
  {
    assert Power128(1) == 128;
    assert Power128(2) == 128 * 128;
    assert Power128(3) == 128 * 128 * 128;
  }

  lemma {:induction false} HighPower(n: nat) returns (k: nat)
    requires n >= 5
    ensures Power128(n) == 0x1_0000_0000 * k
    decreases n
  {
    if n == 5 {
      PowerGrows(4);
      k := 8;
    } else {
      k := HighPower(n - 1);
      k := 128 * k;
    }
  }

  lemma {:induction false} HighBitsVanish(total: nat, byte: Byte, n: nat)
    requires n >= 5
    ensures (total + Shifted(byte, Power128(n))) % 0x1_0000_0000 == total % 0x1_0000_0000
  {
    var k := HighPower(n);
    Scales(byte % 128, k, Power128(n));
    MultipleVanishes(total, byte % 128 * k);
  }

  lemma {:induction false} Scales(c: nat, k: nat, power: nat)
    requires power == 0x1_0000_0000 * k
    ensures c * power == 0x1_0000_0000 * (c * k)
  {
  }

  lemma {:induction false} MultipleVanishes(total: nat, m: nat)
    ensures (total + 0x1_0000_0000 * m) % 0x1_0000_0000 == total % 0x1_0000_0000
  {
  }

  lemma {:induction false} LastBits(total: nat, byte: Byte, scale: nat)
    requires scale == 0x1000_0000
    ensures total + Shifted(byte, scale) >= byte % 128 / 16 * 0x1_0000_0000
  {
  }

  lemma {:induction false} ByteTaken(total: nat, byte: Byte, count: nat, scale: nat, value: Word)
    requires value == total % 0x1_0000_0000 && scale == Power128(count)
    ensures var sum := total + Shifted(byte, scale);
            && (count >= MAX_VARINT32_BYTES ==> sum % 0x1_0000_0000 == value)
            && (value + Shifted(byte, scale)) % 0x1_0000_0000 == sum % 0x1_0000_0000
            && (count == MAX_VARINT32_BYTES - 1 ==> sum >= byte % 128 / 16 * 0x1_0000_0000)
  {
    hide Power128, Shifted;
    AddsUp32(total, Shifted(byte, scale));
    if count >= MAX_VARINT32_BYTES {
      HighBitsVanish(total, byte, count);
    } else if count == MAX_VARINT32_BYTES - 1 {
      PowerGrows(count);
      LastBits(total, byte, scale);
    }
  }

  lemma {:induction false} AddsUp32(a: nat, b: nat)
    ensures (a % 0x1_0000_0000 + b) % 0x1_0000_0000 == (a + b) % 0x1_0000_0000
  {
  }

  lemma {:induction false} AddsUp(a: nat, b: nat)
    ensures (a % 0x1_0000_0000_0000_0000 + b) % 0x1_0000_0000_0000_0000 == (a + b) % 0x1_0000_0000_0000_0000
  {
  }

  lemma {:induction false} StartsWhole(whole: Option<Parsed>)
    ensures Continues(whole, 0, 1, whole)
  {
  }

  /** One more byte of a varint of at most `n` bytes. */
  lemma {:induction false} VarintStep(b: Bytes, p: nat, limit: nat, n: nat, whole: Option<Parsed>, total: nat, scale: nat)
    requires limit <= |b| && Continues(whole, total, scale, VarintAt(b, p, limit, n))
    ensures n == 0 || p >= limit ==> whole == None
    ensures n > 0 && p < limit && b[p] < 128 ==> whole == Some(Parsed(total + Shifted(b[p], scale), p + 1))
    ensures n > 0 && p < limit && b[p] >= 128 ==>
              Continues(whole, total + Shifted(b[p], scale), scale * 128, VarintAt(b, p + 1, limit, n - 1))
  {
    if n > 0 && p < limit && b[p] >= 128 {
      var rest := VarintAt(b, p + 1, limit, n - 1);
      if rest.Some? { Shifts(scale, b[p] - 128, rest.value.value); }
    }
  }

  /** Seven bits at their place in the number. */
  function Shifted(byte: Byte, scale: nat): nat {
    byte % 128 * scale
  }

  /** The bytes read so far and the rest make up the whole number. */
  ghost predicate Continues(whole: Option<Parsed>, total: nat, scale: nat, rest: Option<Parsed>) {
    match rest
    case None => whole == None
    case Some(r) => whole == Some(Parsed(total + scale * r.value, r.next))
  }

  lemma {:induction false} Shifts(scale: nat, low: nat, high: nat)
    ensures scale * (low + 128 * high) == low * scale + scale * 128 * high
  {
  }
}
