/** The encoder: streams that write or only count, arrays, and submessages whose length is computed first. */
module PbEncoding {
  import opened ByteOrder
  import opened DbFormat
  import opened Coding
  import opened KeyOrder
  import opened PbFormat

  /** What the encoder checks: counts and byte strings within their storage. */
  ghost predicate ValueEncodable(kind: Kind, v: Value)
    requires Shaped(kind, v)
    decreases kind, 0
  {
    match kind
    case ByteArray(size) => |v.s| <= size
    case Submessage(fields) => AllEncodable(fields, v.slots, |fields|)
    case _ => true
  }

  ghost predicate SlotEncodable(f: Field, slot: Slot)
    requires SlotShaped(f, slot)
    decreases f, 1
  {
    if f.rule.Repeated? then |slot.values| <= f.rule.max && ValuesEncodable(f, slot.values, |slot.values|)
    else slot.has ==> ValueEncodable(f.kind, slot.value)
  }

  ghost predicate ValuesEncodable(f: Field, vs: seq<Value>, n: nat)
    requires n <= |vs| && forall i :: 0 <= i < |vs| ==> Shaped(f.kind, vs[i])
    decreases f, 0, n
  {
    n == 0 || (ValuesEncodable(f, vs, n - 1) && ValueEncodable(f.kind, vs[n - 1]))
  }

  ghost predicate AllEncodable(fields: seq<Field>, slots: seq<Slot>, n: nat)
    requires n <= |fields| && AllShaped(fields, slots)
    decreases fields, 1, n
  {
    n == 0 || (AllEncodable(fields, slots, n - 1) && SlotEncodable(fields[n - 1], slots[n - 1]))
  }

  /** Whether the required fields hold values; in a C structure they always do. */
  ghost predicate AllGiven(fields: seq<Field>, slots: seq<Slot>)
    requires AllShaped(fields, slots)
    decreases fields, 0
  {
    forall i :: 0 <= i < |fields| ==> SlotGiven(fields[i], slots[i])
  }

  ghost predicate SlotGiven(f: Field, slot: Slot)
    requires SlotShaped(f, slot)
    decreases f, 0
  {
    && (f.rule.Required? ==> slot.has)
    && if f.rule.Repeated? then forall i :: 0 <= i < |slot.values| ==> ValueGiven(f.kind, slot.values[i]) else ValueGiven(f.kind, slot.value)
  }

  ghost predicate ValueGiven(kind: Kind, v: Value)
    requires Shaped(kind, v)
    decreases kind, 0
  {
    kind.Submessage? ==> AllGiven(kind.fields, v.slots)
  }

  class OStream {
    const sizing: bool
    const maxSize: nat
    var buffer: Bytes
    var bytesWritten: nat

    constructor (sizing: bool, buffer: Bytes, maxSize: nat)
      ensures this.sizing == sizing && this.buffer == buffer && this.maxSize == maxSize && bytesWritten == 0
    {
      this.sizing, this.buffer, this.maxSize, bytesWritten := sizing, buffer, maxSize, 0;
    }

    ghost predicate Room(n: nat)
      reads this
    {
      sizing || n == 0 || bytesWritten + n <= maxSize
    }

    /** `bytes` were written since the old state; a sizing stream only counts them. */
    twostate predicate Wrote(bytes: Bytes)
      reads this
    {
      && bytesWritten == old(bytesWritten) + |bytes|
      && buffer == if sizing then old(buffer) else Joined(old(buffer), bytes)
    }

    /** pb_write with the callback of a buffer. */
    method Write(bytes: Bytes) returns (ok: bool)
      modifies this
      ensures ok <==> old(Room(|bytes|))
      ensures ok ==> Wrote(bytes)
    {
      JoinedNothing(buffer);
      if |bytes| > 0 && !sizing {
        if bytesWritten + |bytes| > maxSize {
          return false;
        }
        buffer := Joined(buffer, bytes);
      }
      bytesWritten := bytesWritten + |bytes|;
      return true;
    }

    /** Counts bytes that are not there. */
    method Skip(n: nat)
      requires sizing
      modifies this`bytesWritten
      ensures bytesWritten == old(bytesWritten) + n
    {
      bytesWritten := bytesWritten + n;
    }
  }

  /** Seven bits a byte; the top bit of the last byte is cleared in the end. */
  method EncodeVarint(stream: OStream, value: nat) returns (ok: bool)
    requires value < 0x1_0000_0000_0000_0000
    modifies stream
    ensures ok <==> old(stream.Room(|PutVarint(value)|))
    ensures ok ==> stream.Wrote(PutVarint(value))
  {
    if value <= 0x7f {
      ok := stream.Write([value]);
      return;
    }
    var bytes: Bytes := [];
    var rest: nat := value;
    while rest > 0
      invariant unchanged(stream)
      invariant rest == 0 ==> bytes != [] && Joined(bytes[..|bytes| - 1], PutVarint(bytes[|bytes| - 1] % 128)) == PutVarint(value)
      invariant rest == 0 ==> bytes[|bytes| - 1] >= 128
      invariant rest > 0 ==> Joined(bytes, PutVarint(rest)) == PutVarint(value)
      decreases rest
    {
      OneMoreByte(bytes, rest, value);
      bytes := bytes + [rest % 128 + 128];
      rest := rest / 128;
    }
    var last := |bytes| - 1;
    ghost var before := bytes;
    bytes := bytes[last := bytes[last] % 128];
    assert bytes == before[..last] + [bytes[last]];
    assert PutVarint(bytes[last]) == [bytes[last]];
    assert bytes == PutVarint(value);
    ok := stream.Write(bytes);
  }

  lemma {:induction false} OneMoreByte(bytes: Bytes, rest: nat, value: nat)
    requires rest > 0 && Joined(bytes, PutVarint(rest)) == PutVarint(value)
    ensures var more := bytes + [rest % 128 + 128];
            if rest / 128 == 0 then Joined(more[..|bytes|], PutVarint(more[|bytes|] % 128)) == PutVarint(value)
            else Joined(more, PutVarint(rest / 128)) == PutVarint(value)
  {
    var more := bytes + [rest % 128 + 128];
    assert more[..|bytes|] == bytes;
    if rest / 128 > 0 {
      assert PutVarint(rest) == [rest % 128 + 128] + PutVarint(rest / 128);
      assert bytes + ([rest % 128 + 128] + PutVarint(rest / 128)) == more + PutVarint(rest / 128);
    }
  }

  method EncodeTag(stream: OStream, wireType: nat, tag: nat) returns (ok: bool)
    requires tag < 0x1_0000_0000 && wireType < 8
    modifies stream
    ensures ok <==> old(stream.Room(|WireTag(tag, wireType)|))
    ensures ok ==> stream.Wrote(WireTag(tag, wireType))
  {
    ok := EncodeVarint(stream, tag * 8 + wireType);
  }

  /** pb_encode_string. */
  method EncodeString(stream: OStream, s: Bytes) returns (ok: bool)
    requires |s| < 0x1_0000_0000_0000_0000
    modifies stream
    ensures ok <==> old(stream.Room(|Delimited(s)|))
    ensures ok ==> stream.Wrote(Delimited(s))
  {
    JoinedAssociates(stream.buffer, PutVarint(|s|), s);
    assert Joined(PutVarint(|s|), s) == Delimited(s);
    JoinedNothing(Joined(stream.buffer, PutVarint(|s|)));
    ok := EncodeVarint(stream, |s|);
    if ok {
      ok := stream.Write(s);
    }
  }

  /** A value without its tag: PB_ENCODERS, indexed by the kind. */
  method EncodeItem(stream: OStream, kind: Kind, v: Value) returns (ok: bool)
    requires Shaped(kind, v) && ValueGiven(kind, v) && KindTagsOk(kind) && Small(|EncodeValue(kind, v)|)
    modifies stream
    ensures ok <==> ValueEncodable(kind, v) && old(stream.Room(|EncodeValue(kind, v)|))
    ensures ok ==> stream.Wrote(EncodeValue(kind, v))
    decreases kind, 0
  {
    if Packable(kind) {
      ok := EncodeScalar(stream, kind, v.n);
    } else if kind.Submessage? {
      ok := EncodeSubmessage(stream, kind.fields, v.slots);
    } else if kind.ByteArray? && |v.s| > kind.size {
      ok := false;
    } else {
      ok := EncodeString(stream, v.s);
    }
  }

  /** Lengths are 64 bits wide. */
  ghost predicate Small(n: nat) {
    n < 0x1_0000_0000_0000_0000
  }

  method EncodeScalar(stream: OStream, kind: Kind, n: int) returns (ok: bool)
    requires Packable(kind) && Shaped(kind, Number(n))
    modifies stream
    ensures ok <==> old(stream.Room(|EncodeNumber(kind, n)|))
    ensures ok ==> stream.Wrote(EncodeNumber(kind, n))
  {
    hide PutVarint, PutFixed32, PutFixed64;
    if kind.Fixed32Bits? {
      ok := stream.Write(PutFixed32(n));
    } else if kind.Fixed64Bits? {
      ok := stream.Write(PutFixed64(n));
    } else if kind.SVarint? {
      var zigzagged := if n < 0 then 2 * (-n) - 1 else 2 * n;
      ok := EncodeVarint(stream, zigzagged);
    } else {
      WrapsAround(n);
      ok := EncodeVarint(stream, n % 0x1_0000_0000_0000_0000);
    }
  }

  lemma {:induction false} WrapsAround(n: int)
    requires -0x8000_0000_0000_0000 <= n < 0x1_0000_0000_0000_0000
    ensures n % 0x1_0000_0000_0000_0000 == if n < 0 then 0x1_0000_0000_0000_0000 + n else n
  {
  }

  /** The length comes from a first pass that writes nothing; the second pass must not write more. */
  method EncodeSubmessage(stream: OStream, fields: seq<Field>, slots: seq<Slot>) returns (ok: bool)
    requires AllShaped(fields, slots) && AllGiven(fields, slots) && TagsOk(fields) && Small(|Delimited(EncodeFields(fields, slots, |fields|))|)
    modifies stream
    ensures ok <==> AllEncodable(fields, slots, |fields|) && old(stream.Room(|Delimited(EncodeFields(fields, slots, |fields|))|))
    ensures ok ==> stream.Wrote(Delimited(EncodeFields(fields, slots, |fields|)))
    decreases fields, 1
  {
    hide AllShaped, PutVarint;
    ghost var body := EncodeFields(fields, slots, |fields|);
    DelimitedJoins(stream.buffer, body);
    var sizes := new OStream(true, [], 0);
    ok := PbEncode(sizes, fields, slots);
    if !ok {
      return;
    }
    var size := sizes.bytesWritten;
    ok := EncodeVarint(stream, size);
    if !ok {
      return;
    }
    if stream.sizing {
      stream.Skip(size);
      return;
    }
    if stream.bytesWritten + size > stream.maxSize {
      return false;
    }
    var substream := new OStream(false, stream.buffer, size);
    ok := PbEncode(substream, fields, slots);
    stream.bytesWritten := stream.bytesWritten + substream.bytesWritten;
    stream.buffer := substream.buffer;
    if substream.bytesWritten != size {
      return false;
    }
  }

  lemma {:induction false} DelimitedJoins(before: Bytes, s: Bytes)
    ensures Joined(Joined(before, PutVarint(|s|)), s) == Joined(before, Delimited(s))
  {
    hide PutVarint;
    JoinedAssociates(before, PutVarint(|s|), s);
    assert Joined(PutVarint(|s|), s) == Delimited(s);
  }

  /** A packed array has its length computed first, too. */
  method EncodeArray(stream: OStream, f: Field, vs: seq<Value>) returns (ok: bool)
    requires f.rule.Repeated? && SlotShaped(f, Many(vs)) && SlotGiven(f, Many(vs)) && FieldTagOk(f) && Small(|EncodeField(f, Many(vs))|)
    modifies stream
    ensures ok <==> SlotEncodable(f, Many(vs)) && old(stream.Room(|EncodeField(f, Many(vs))|))
    ensures ok ==> stream.Wrote(EncodeField(f, Many(vs)))
    decreases f, 2
  {
    if |vs| == 0 {
      JoinedNothing(stream.buffer);
      return true;
    }
    if |vs| > f.rule.max {
      return false;
    }
    if Packable(f.kind) {
      ScalarsEncodable(f, vs, |vs|);
      ok := EncodePackedArray(stream, f, vs);
    } else {
      ok := EncodeUnpackedArray(stream, f, vs);
    }
  }

  method PackedSize(f: Field, vs: seq<Value>) returns (size: nat)
    requires Packable(f.kind) && forall i :: 0 <= i < |vs| ==> Shaped(f.kind, vs[i])
    ensures size == |EncodePacked(f.kind, vs, |vs|)|
  {
    hide EncodeNumber;
    if f.kind.Fixed32Bits? || f.kind.Fixed64Bits? {
      FixedSize(f.kind, vs, |vs|);
      size := if f.kind.Fixed32Bits? then 4 * |vs| else 8 * |vs|;
    } else {
      var sizes := new OStream(true, [], 0);
      for i := 0 to |vs|
        invariant sizes.bytesWritten == |EncodePacked(f.kind, vs, i)|
      {
        var ok := EncodeScalar(sizes, f.kind, vs[i].n);
      }
      size := sizes.bytesWritten;
    }
  }

  lemma {:induction false} FixedSize(kind: Kind, vs: seq<Value>, n: nat)
    requires n <= |vs| && (kind.Fixed32Bits? || kind.Fixed64Bits?) && forall i :: 0 <= i < |vs| ==> Shaped(kind, vs[i])
    ensures |EncodePacked(kind, vs, n)| == if kind.Fixed32Bits? then 4 * n else 8 * n
  {
    if n > 0 {
      FixedSize(kind, vs, n - 1);
    }
  }

  lemma {:induction false} ScalarsEncodable(f: Field, vs: seq<Value>, n: nat)
    requires n <= |vs| && Packable(f.kind) && forall i :: 0 <= i < |vs| ==> Shaped(f.kind, vs[i])
    ensures ValuesEncodable(f, vs, n)
  {
    if n > 0 {
      ScalarsEncodable(f, vs, n - 1);
    }
  }

  lemma {:induction false} PackedGrows(kind: Kind, vs: seq<Value>, i: nat, n: nat)
    requires i <= n <= |vs| && Packable(kind) && forall i :: 0 <= i < |vs| ==> Shaped(kind, vs[i])
    ensures |EncodePacked(kind, vs, i)| <= |EncodePacked(kind, vs, n)|
    decreases n - i
  {
    hide EncodeNumber;
    if i < n {
      PackedGrows(kind, vs, i, n - 1);
    }
  }

  lemma {:induction false} ItemsGrow(f: Field, vs: seq<Value>, i: nat, n: nat)
    requires i <= n <= |vs| && forall i :: 0 <= i < |vs| ==> Shaped(f.kind, vs[i])
    ensures |EncodeItems(f, vs, i)| <= |EncodeItems(f, vs, n)|
    ensures ValuesEncodable(f, vs, n) ==> ValuesEncodable(f, vs, i)
    decreases n - i
  {
    hide EncodeValue, WireTag, ValueEncodable, Shaped;
    if i < n {
      ItemsGrow(f, vs, i, n - 1);
    }
  }

  lemma {:induction false} FieldsGrow(fields: seq<Field>, slots: seq<Slot>, i: nat, n: nat)
    requires i <= n <= |fields| && AllShaped(fields, slots)
    ensures |EncodeFields(fields, slots, i)| <= |EncodeFields(fields, slots, n)|
    ensures AllEncodable(fields, slots, n) ==> AllEncodable(fields, slots, i)
    decreases n - i
  {
    hide EncodeField, SlotEncodable, SlotShaped;
    if i < n {
      FieldsGrow(fields, slots, i, n - 1);
    }
  }

  /** Tag and length, then the numbers one by one; a sizing stream takes only the length of the numbers. */
  method EncodePackedArray(stream: OStream, f: Field, vs: seq<Value>) returns (ok: bool)
    requires Packable(f.kind) && (forall i :: 0 <= i < |vs| ==> Shaped(f.kind, vs[i])) && FieldTagOk(f)
    requires Small(|EncodePacked(f.kind, vs, |vs|)|)
    modifies stream
    ensures var bytes := WireTag(f.tag, WT_STRING) + Delimited(EncodePacked(f.kind, vs, |vs|));
            && (ok <==> old(stream.Room(|bytes|)))
            && (ok ==> stream.Wrote(bytes))
  {
    hide EncodePacked, EncodeNumber, PutVarint, WireTag;
    ghost var packed := EncodePacked(f.kind, vs, |vs|);
    ghost var tag := WireTag(f.tag, WT_STRING);
    JoinedAssociates(stream.buffer, tag, Delimited(packed));
    DelimitedJoins(Joined(stream.buffer, tag), packed);
    assert Joined(tag, Delimited(packed)) == tag + Delimited(packed) by { TagIsSomething(f.tag, WT_STRING); }
    ok := EncodeTag(stream, WT_STRING, f.tag);
    if !ok {
      return;
    }
    var size := PackedSize(f, vs);
    ok := EncodeVarint(stream, size);
    if !ok {
      return;
    }
    if stream.sizing {
      stream.Skip(size);
      return;
    }
    ok := EncodeNumbers(stream, f.kind, vs);
  }

  lemma {:induction false} TagIsSomething(tag: nat, wireType: nat)
    ensures WireTag(tag, wireType) != []
  {
  }

  method EncodeNumbers(stream: OStream, kind: Kind, vs: seq<Value>) returns (ok: bool)
    requires Packable(kind) && forall i :: 0 <= i < |vs| ==> Shaped(kind, vs[i])
    modifies stream
    ensures ok <==> old(stream.Room(|EncodePacked(kind, vs, |vs|)|))
    ensures ok ==> stream.Wrote(EncodePacked(kind, vs, |vs|))
  {
    hide EncodeNumber, Half, Joined;
    JoinedNothing(stream.buffer);
    for i := 0 to |vs|
      invariant stream.Wrote(EncodePacked(kind, vs, i)) && old(stream.Room(|EncodePacked(kind, vs, i)|))
    {
      JoinedAssociates(old(stream.buffer), EncodePacked(kind, vs, i), EncodeNumber(kind, vs[i].n));
      JoinedLength(EncodePacked(kind, vs, i), EncodeNumber(kind, vs[i].n));
      PackedGrows(kind, vs, i + 1, |vs|);
      ok := EncodeScalar(stream, kind, vs[i].n);
      if !ok {
        return;
      }
    }
    ok := true;
  }

  /** Every value with its tag. */
  method EncodeUnpackedArray(stream: OStream, f: Field, vs: seq<Value>) returns (ok: bool)
    requires !Packable(f.kind) && (forall i :: 0 <= i < |vs| ==> Shaped(f.kind, vs[i]) && ValueGiven(f.kind, vs[i])) && FieldTagOk(f)
    requires Small(|EncodeItems(f, vs, |vs|)|) && vs != []
    modifies stream
    ensures ok <==> ValuesEncodable(f, vs, |vs|) && old(stream.Room(|EncodeItems(f, vs, |vs|)|))
    ensures ok ==> stream.Wrote(EncodeItems(f, vs, |vs|))
    decreases f, 1
  {
    hide EncodeValue, WireTag, ValueEncodable, Shaped, ValueGiven, FieldTagOk;
    JoinedNothing(stream.buffer);
    for i := 0 to |vs|
      invariant stream.Wrote(EncodeItems(f, vs, i)) && ValuesEncodable(f, vs, i) && old(stream.Room(|EncodeItems(f, vs, i)|))
    {
      ghost var item := WireTag(f.tag, WireType(f.kind)) + EncodeValue(f.kind, vs[i]);
      JoinedAssociates(old(stream.buffer), EncodeItems(f, vs, i), item);
      ItemsGrow(f, vs, i + 1, |vs|);
      ok := EncodeTagged(stream, f, vs[i]);
      if !ok {
        return;
      }
    }
    ok := true;
  }

  /** pb_encode_tag_for_field, then the value. */
  method EncodeTagged(stream: OStream, f: Field, v: Value) returns (ok: bool)
    requires Shaped(f.kind, v) && ValueGiven(f.kind, v) && FieldTagOk(f) && Small(|EncodeValue(f.kind, v)|)
    modifies stream
    ensures var bytes := WireTag(f.tag, WireType(f.kind)) + EncodeValue(f.kind, v);
            && (ok <==> ValueEncodable(f.kind, v) && old(stream.Room(|bytes|)))
            && (ok ==> stream.Wrote(bytes))
    decreases f, 0
  {
    hide EncodeValue, WireTag, ValueEncodable, Shaped;
    ghost var tag := WireTag(f.tag, WireType(f.kind));
    TagIsSomething(f.tag, WireType(f.kind));
    assert Joined(tag, EncodeValue(f.kind, v)) == tag + EncodeValue(f.kind, v);
    JoinedAssociates(stream.buffer, tag, EncodeValue(f.kind, v));
    ok := EncodeTag(stream, WireType(f.kind), f.tag);
    if ok {
      ok := EncodeItem(stream, f.kind, v);
    }
  }

  /** encode_basic_field: a required field is always given. */
  method EncodeBasicField(stream: OStream, f: Field, slot: Slot) returns (ok: bool)
    requires SlotShaped(f, slot) && SlotGiven(f, slot) && FieldTagOk(f) && Small(|EncodeField(f, slot)|)
    modifies stream
    ensures ok <==> SlotEncodable(f, slot) && old(stream.Room(|EncodeField(f, slot)|))
    ensures ok ==> stream.Wrote(EncodeField(f, slot))
    decreases f, 3
  {
    hide EncodeValue, WireTag, ValueEncodable, Shaped, EncodeItems, EncodePacked;
    match f.rule {
      case Required =>
        ok := EncodeTagged(stream, f, slot.value);
      case Repeated(_) =>
        assert slot == Many(slot.values);
        ok := EncodeArray(stream, f, slot.values);
      case _ =>
        if slot.has {
          ok := EncodeTagged(stream, f, slot.value);
        } else {
          JoinedNothing(stream.buffer);
          ok := true;
        }
    }
  }

  /** pb_encode: all fields in the order of the descriptor. */
  method PbEncode(stream: OStream, fields: seq<Field>, slots: seq<Slot>) returns (ok: bool)
    requires AllShaped(fields, slots) && AllGiven(fields, slots) && TagsOk(fields) && Small(|EncodeFields(fields, slots, |fields|)|)
    modifies stream
    ensures ok <==> AllEncodable(fields, slots, |fields|) && old(stream.Room(|EncodeFields(fields, slots, |fields|)|))
    ensures ok ==> stream.Wrote(EncodeFields(fields, slots, |fields|))
    decreases fields, 0
  {
    hide EncodeField, SlotEncodable, SlotShaped, SlotGiven, FieldTagOk, Joined;
    JoinedNothing(stream.buffer);
    for i := 0 to |fields|
      invariant stream.Wrote(EncodeFields(fields, slots, i)) && AllEncodable(fields, slots, i)
      invariant old(stream.Room(|EncodeFields(fields, slots, i)|))
    {
      JoinedAssociates(old(stream.buffer), EncodeFields(fields, slots, i), EncodeField(fields[i], slots[i]));
      JoinedLength(EncodeFields(fields, slots, i), EncodeField(fields[i], slots[i]));
      FieldsGrow(fields, slots, i + 1, |fields|);
      ok := EncodeBasicField(stream, fields[i], slots[i]);
      if !ok {
        return;
      }
    }
    ok := true;
  }
}
