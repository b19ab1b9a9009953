/** The decoder: numbers, byte strings, submessages in substreams, and the loop over the fields of a message. */
module PbDecoding {
  import opened ByteOrder
  import opened DbFormat
  import opened Coding
  import opened KeyOrder
  import opened PbFormat
  import opened PbEncoding
  import opened PbMessages
  import opened PbStream

  // ----- Defaults -----

  /** Storage of zero bytes. */
  function ZeroValue(kind: Kind): (v: Value)
    ensures Shaped(kind, v)
    decreases kind, 0
  {
    match kind
    case ByteArray(_) => Blob([])
    case Text(_) => Blob([])
    case FixedLengthBytes(size) => Blob(ZeroBytes(size))
    case Submessage(fields) => Message(ZeroSlots(fields, |fields|))
    case _ => Number(0)
  }

  function ZeroBytes(n: nat): (r: Bytes)
    ensures |r| == n
  {
    if n == 0 then [] else [0] + ZeroBytes(n - 1)
  }

  function ZeroSlots(fields: seq<Field>, n: nat): (slots: seq<Slot>)
    requires n <= |fields|
    ensures |slots| == n && forall i :: 0 <= i < n ==> SlotShaped(fields[i], slots[i])
    decreases fields, 0, n
  {
    if n == 0 then []
    else Joined(ZeroSlots(fields, n - 1), [ZeroSlot(fields[n - 1])])
  }

  function ZeroSlot(f: Field): (slot: Slot)
    ensures SlotShaped(f, slot)
    decreases f, 0
  {
    if f.rule.Repeated? then Many([]) else One(false, ZeroValue(f.kind))
  }

  /** pb_message_set_to_defaults. */
  method SetToDefaults(fields: seq<Field>, slots: seq<Slot>) returns (r: seq<Slot>)
    requires AllShaped(fields, slots) && InitialsOk(fields)
    ensures AllShaped(fields, r) && AllBlank(fields, r)
    decreases fields, 1
  {
    hide SlotShaped, BlankSlot, FieldInitialOk;
    r := [];
    for i := 0 to |fields|
      invariant |r| == i && forall k :: 0 <= k < i ==> SlotShaped(fields[k], r[k]) && BlankSlot(fields[k], r[k])
    {
      var slot := SetToDefault(fields[i], slots[i]);
      r := r + [slot];
    }
  }

  /** pb_field_set_to_default: counts and flags are cleared; the storage of a oneof stays as it is. */
  method SetToDefault(f: Field, slot: Slot) returns (r: Slot)
    requires SlotShaped(f, slot) && FieldInitialOk(f)
    ensures SlotShaped(f, r) && BlankSlot(f, r)
    decreases f, 0
  {
    if f.rule.Repeated? {
      r := Many([]);
    } else if f.rule.OneOf? {
      r := One(false, slot.value);
    } else if f.kind.Submessage? {
      var slots := SetToDefaults(f.kind.fields, slot.value.slots);
      r := One(false, Message(slots));
    } else {
      r := One(false, f.initial);
    }
  }

  // ----- Values -----

  /** The low bits of a number as a signed one of that width. */
  function Wrapped(width: Width, n: int): (r: int)
    ensures -Half(width) <= r < Half(width)
    ensures -Half(width) <= n < Half(width) ==> r == n
  {
    match width
    case W8 => (n + 0x80) % 0x100 - 0x80
    case W16 => (n + 0x8000) % 0x1_0000 - 0x8000
    case W32 => (n + 0x8000_0000) % 0x1_0000_0000 - 0x8000_0000
    case W64 => (n + 0x8000_0000_0000_0000) % 0x1_0000_0000_0000_0000 - 0x8000_0000_0000_0000
  }

  /** pb_dec_bool to pb_dec_fixed64; numbers too large for their storage are refused. */
  method DecodeScalar(stream: IStream, kind: Kind, ghost want: int) returns (ok: bool, n: int)
    requires stream.Valid() && Packable(kind)
    modifies stream
    ensures stream.Within() && (ok ==> Shaped(kind, Number(n)) && stream.bytesLeft < old(stream.bytesLeft))
    ensures Shaped(kind, Number(want)) && old(stream.Next(EncodeNumber(kind, want))) ==>
              ok && n == want && stream.Took(|EncodeNumber(kind, want)|)
  {
    hide PutVarint, PutFixed32, PutFixed64, At, VarintAt, GetVarint64, ToWire, Half;
    if kind.Fixed32Bits? || kind.Fixed64Bits? {
      ok, n := DecodeFixed(stream, kind, want);
    } else if kind.Bool? {
      ok, n := DecodeBool(stream, want);
    } else {
      ok, n := DecodeInteger(stream, kind, want);
    }
  }

  method DecodeBool(stream: IStream, ghost want: int) returns (ok: bool, n: int)
    requires stream.Valid()
    modifies stream
    ensures stream.Within() && (ok ==> 0 <= n <= 1 && stream.bytesLeft < old(stream.bytesLeft))
    ensures 0 <= want <= 1 && old(stream.Next(EncodeNumber(Bool, want))) ==> ok && n == want && stream.Took(|EncodeNumber(Bool, want)|)
  {
    hide PutVarint, At, VarintAt;
    if 0 <= want <= 1 && stream.Next(EncodeNumber(Bool, want)) { stream.NextWord(want); }
    var word, eof;
    ok, word, eof := stream.DecodeVarint32();
    n := if word != 0 then 1 else 0;
  }

  method DecodeInteger(stream: IStream, kind: Kind, ghost want: int) returns (ok: bool, n: int)
    requires stream.Valid() && (kind.Varint? || kind.UVarint? || kind.SVarint?)
    modifies stream
    ensures stream.Within() && (ok ==> Shaped(kind, Number(n)) && stream.bytesLeft < old(stream.bytesLeft))
    ensures Shaped(kind, Number(want)) && old(stream.Next(EncodeNumber(kind, want))) ==>
              ok && n == want && stream.Took(|EncodeNumber(kind, want)|)
  {
    hide PutVarint, At, VarintAt, ToWire, Half;
    if Shaped(kind, Number(want)) && stream.Next(EncodeNumber(kind, want)) { NextVarint(stream, ToWire(kind, want)); }
    var value;
    n := 0;
    ok, value := stream.DecodeVarint();
    if ok {
      ok, n := ClampToWidth(kind, value, want);
    }
  }

  lemma {:induction false} NextVarint(stream: IStream, v: nat)
    requires stream.Valid() && stream.Next(PutVarint(v)) && v < 0x1_0000_0000_0000_0000
    ensures GetVarint64(stream.data, stream.pos, stream.pos + stream.bytesLeft) == Some(Parsed(v, stream.pos + |PutVarint(v)|))
  {
    hide PutVarint, VarintAt;
    Varint64ReadsBack(stream.data, stream.pos, stream.pos + stream.bytesLeft, v);
  }

  /** Cast to the storage of the field, with a check that nothing was lost. */
  method ClampToWidth(kind: Kind, value: nat, ghost want: int) returns (ok: bool, n: int)
    requires (kind.Varint? || kind.UVarint? || kind.SVarint?) && value < 0x1_0000_0000_0000_0000
    ensures ok ==> Shaped(kind, Number(n))
    ensures Shaped(kind, Number(want)) && value == ToWire(kind, want) ==> ok && n == want
  {
    hide Wrapped;
    var clamped;
    if kind.Varint? {
      if Shaped(kind, Number(want)) { SignedReadsBack(kind.width, want, value); }
      n := if kind.width.W64? then Wrapped(W64, value) else Wrapped(W32, value);
      clamped := Wrapped(kind.width, n);
    } else if kind.UVarint? {
      InRange(kind.width, value);
      n := value;
      clamped := value % (2 * Half(kind.width));
    } else {
      n := if value % 2 == 1 then -(value / 2) - 1 else value / 2;
      clamped := Wrapped(kind.width, n);
    }
    ok := clamped == n;
  }

  lemma {:induction false} SignedReadsBack(width: Width, want: int, value: nat)
    requires -Half(width) <= want < Half(width)
    ensures value == (if want < 0 then 0x1_0000_0000_0000_0000 + want else want) ==>
              (if width.W64? then Wrapped(W64, value) else Wrapped(W32, value)) == want
  {
  }

  lemma {:induction false} InRange(width: Width, n: int)
    ensures n == n % (2 * Half(width)) ==> 0 <= n < 2 * Half(width)
    ensures 0 <= n < 2 * Half(width) ==> n == n % (2 * Half(width))
  {
  }

  method DecodeFixed(stream: IStream, kind: Kind, ghost want: int) returns (ok: bool, n: int)
    requires stream.Valid() && (kind.Fixed32Bits? || kind.Fixed64Bits?)
    modifies stream
    ensures stream.Within() && (ok ==> Shaped(kind, Number(n)) && stream.bytesLeft < old(stream.bytesLeft))
    ensures Shaped(kind, Number(want)) && old(stream.Next(EncodeNumber(kind, want))) ==>
              ok && n == want && stream.Took(|EncodeNumber(kind, want)|)
  {
    hide PutFixed32, PutFixed64, At, Fixed32At, Fixed64At;
    ghost var p := stream.pos;
    if Shaped(kind, Number(want)) && stream.Next(EncodeNumber(kind, want)) {
      if kind.Fixed32Bits? { Fixed32ReadsBack(stream.data, p, want); } else { Fixed64ReadsBack(stream.data, p, want); }
    }
    var bytes;
    ok, bytes := stream.Read(if kind.Fixed32Bits? then 4 else 8);
    n := 0;
    if ok {
      n := if kind.Fixed32Bits? then Fixed32At(bytes, 0) else Fixed64At(bytes, 0);
      SameFixed(stream.data, p, bytes);
    }
  }

  lemma {:induction false} SameFixed(data: Bytes, p: nat, bytes: Bytes)
    requires p + |bytes| <= |data| && bytes == data[p..p + |bytes|] && |bytes| >= 4
    ensures Fixed32At(bytes, 0) == Fixed32At(data, p)
    ensures |bytes| >= 8 ==> Fixed64At(bytes, 0) == Fixed64At(data, p)
  {
    assert forall i :: 0 <= i < |bytes| ==> bytes[i] == data[p + i];
  }

  /** A string ends at its first zero byte. */
  function UpToZero(s: Bytes, i: nat): (r: Bytes)
    requires i <= |s| && 0 !in s[..i]
    ensures |r| <= |s| && 0 !in r && (0 !in s ==> r == s)
    decreases |s| - i
  {
    if i == |s| then s[..i]
    else if s[i] == 0 then s[..i]
    else
      assert s[..i + 1] == s[..i] + [s[i]];
      UpToZero(s, i + 1)
  }

  /** The length in front of a string; then comes the string. */
  method DecodeSize(stream: IStream, ghost want: Bytes) returns (ok: bool, size: Word)
    requires stream.Valid()
    modifies stream
    ensures stream.Within() && stream.pos + stream.bytesLeft == old(stream.pos + stream.bytesLeft)
    ensures |want| < 0x1_0000_0000 && old(stream.Next(Delimited(want))) ==>
              && ok && size == |want| <= stream.bytesLeft && stream.data[stream.pos..stream.pos + size] == want
              && stream.pos + size == old(stream.pos) + |Delimited(want)|
  {
    hide At, PutVarint, VarintAt, Accepts32, HighByteOk, Delimited;
    if |want| < 0x1_0000_0000 && stream.Next(Delimited(want)) {
      stream.NextLength(want);
      DelimitedSize(want);
      AtSlice(stream.data, stream.pos + |PutVarint(|want|)|, want);
    }
    var eof;
    ok, size, eof := stream.DecodeVarint32();
  }

  /** pb_dec_bytes, pb_dec_string and pb_dec_fixed_length_bytes. */
  method DecodeBlob(stream: IStream, kind: Kind, ghost want: Bytes) returns (ok: bool, s: Bytes)
    requires stream.Valid() && !Packable(kind) && !kind.Submessage?
    modifies stream
    ensures stream.Within() && (ok ==> Shaped(kind, Blob(s)))
    ensures Shaped(kind, Blob(want)) && |want| < 0x1_0000_0000 && ValueEncodable(kind, Blob(want)) && old(stream.Next(Delimited(want))) ==>
              && (ok <==> Receivable(kind, Blob(want)))
              && (ok ==> s == want && stream.Took(|Delimited(want)|))
  {
    hide At, PutVarint, Delimited;
    s := [];
    var size;
    ok, size := DecodeSize(stream, want);
    if !ok {
      return;
    }
    match kind {
      case ByteArray(capacity) =>
        if size > capacity {
          return false, [];
        }
        ok, s := stream.Read(size);
      case Text(capacity) =>
        if size + 1 > capacity {
          return false, [];
        }
        ok, s := stream.Read(size);
        s := UpToZero(s, 0);
      case FixedLengthBytes(length) =>
        if size == 0 {
          s := ZeroBytes(length);
          return;
        }
        if size != length {
          return false, [];
        }
        ok, s := stream.Read(size);
    }
  }

  // ----- Values with their fields -----

  ghost predicate ValueSent(kind: Kind, v: Value)
    requires Shaped(kind, v)
  {
    ValueEncodable(kind, v) && ValueExclusive(kind, v)
  }

  ghost predicate AllSent(fields: seq<Field>, slots: seq<Slot>)
    requires AllShaped(fields, slots)
  {
    AllEncodable(fields, slots, |fields|) && AllExclusive(fields, slots)
  }

  /** PB_DECODERS; array items start from defaults, other submessages from what is there. */
  method DecodeItem(stream: IStream, kind: Kind, inArray: bool, initial: Value, ghost want: Value) returns (ok: bool, v: Value)
    requires stream.Valid() && Shaped(kind, initial) && KindOk(kind)
    modifies stream
    ensures stream.Within()
    ensures Shaped(kind, v)
    ensures Shaped(kind, want) && ValueSent(kind, want) && |stream.data| < 0x1_0000_0000 && old(stream.Next(EncodeValue(kind, want)))
            && (kind.Submessage? && !inArray ==> AllBlank(kind.fields, initial.slots)) ==>
              && (ok <==> Receivable(kind, want))
              && (ok ==> SameValue(kind, v, want) && stream.Took(|EncodeValue(kind, want)|))
    decreases kind, 0
  {
    v := initial;
    if Packable(kind) {
      var n;
      ok, n := DecodeScalar(stream, kind, if want.Number? then want.n else 0);
      v := if ok then Number(n) else initial;
    } else if kind.Submessage? {
      var slots;
      ok, slots := DecodeSubmessage(stream, kind.fields, inArray, initial.slots, if want.Message? then want.slots else []);
      v := Message(slots);
    } else {
      var s;
      ok, s := DecodeBlob(stream, kind, if want.Blob? then want.s else []);
      v := if ok then Blob(s) else initial;
    }
  }

  /** pb_dec_submessage. */
  method DecodeSubmessage(stream: IStream, fields: seq<Field>, inArray: bool, slots: seq<Slot>, ghost want: seq<Slot>)
    returns (ok: bool, r: seq<Slot>)
    requires stream.Valid() && AllShaped(fields, slots) && DescriptorOk(fields)
    modifies stream
    ensures stream.Within()
    ensures AllShaped(fields, r)
    ensures AllShaped(fields, want) && AllSent(fields, want) && |stream.data| < 0x1_0000_0000
            && old(stream.Next(Delimited(EncodeFields(fields, want, |fields|)))) && (!inArray ==> AllBlank(fields, slots)) ==>
              && (ok <==> AllReceivable(fields, want))
              && (ok ==> AllSame(fields, r, want) && stream.Took(|Delimited(EncodeFields(fields, want, |fields|))|))
    decreases fields, 4
  {
    hide AllShaped, AllReceivable, AllSame, AllBlank, AllExclusive, AllEncodable, EncodeFields, InitialsOk, PutVarint, At;
    ghost var body := if AllShaped(fields, want) then EncodeFields(fields, want, |fields|) else [];
    DelimitedSize(body);
    r := slots;
    var substream := stream.MakeSubstream(body);
    if substream == null {
      return false, slots;
    }
    if inArray {
      r := SetToDefaults(fields, slots);
    }
    ok, r := PbDecodeNoInit(substream, fields, r, want);
    var closed := stream.CloseSubstream(substream);
  }

  /** One piece of a field: a value, one item of an array, or a packed array. */
  method DecodeSlot(stream: IStream, wireType: nat, f: Field, slot: Slot, ghost want: Slot, ghost t: nat) returns (ok: bool, r: Slot)
    requires stream.Valid() && SlotShaped(f, slot) && FieldOk(f)
    modifies stream
    ensures stream.Within() && SlotShaped(f, r)
    ensures old(PieceComes(stream, f, slot, want, t)) && wireType == PieceWireType(f) ==>
              && (ok <==> PieceReceivable(f, want, t))
              && (ok ==> Arrived(f, r, want, t + 1) && stream.Took(|Piece(f, want, t)|))
    ensures !f.rule.Repeated? && ok ==> r.has
    decreases f, 1
  {
    hide Shaped, Receivable, SameValue, ValueEncodable, ValueExclusive, EncodeValue, At, PutVarint, BlankValue;
    if f.rule.Repeated? {
      if wireType == WT_STRING && Packable(f.kind) {
        ok, r := DecodePacked(stream, f, slot, want);
      } else {
        ok, r := DecodeRepeated(stream, f, slot, want, t);
      }
    } else {
      ok, r := DecodeSingle(stream, f, slot, want);
    }
  }

  /** Piece number `t` is what the stream has next, and the slot holds the pieces before it. */
  ghost predicate PieceComes(stream: IStream, f: Field, slot: Slot, want: Slot, t: nat)
    requires SlotShaped(f, slot)
    reads stream
  {
    && |stream.data| < 0x1_0000_0000 && SlotShaped(f, want) && SlotEncodable(f, want) && SlotExclusive(f, want)
    && t < Pieces(f, want) && Arrived(f, slot, want, t) && stream.Next(Piece(f, want, t))
  }

  method DecodeSingle(stream: IStream, f: Field, slot: Slot, ghost want: Slot) returns (ok: bool, r: Slot)
    requires stream.Valid() && SlotShaped(f, slot) && FieldOk(f) && !f.rule.Repeated?
    modifies stream
    ensures stream.Within() && SlotShaped(f, r) && r.has
    ensures old(PieceComes(stream, f, slot, want, 0)) ==>
              && (ok <==> PieceReceivable(f, want, 0))
              && (ok ==> Arrived(f, r, want, 1) && stream.Took(|Piece(f, want, 0)|))
    decreases f, 0
  {
    hide Shaped, Receivable, SameValue, ValueEncodable, ValueExclusive, EncodeValue, At, AllBlank, DescriptorOk;
    var initial := slot.value;
    if PieceComes(stream, f, slot, want, 0) { BlankStarts(f, slot); }
    if f.rule.OneOf? && f.kind.Submessage? && !slot.has {
      // memset to zero, then defaults
      var slots := FreshSlots(f.kind.fields);
      initial := Message(slots);
      assert Shaped(f.kind, initial) by { MessageIsShaped(f.kind, slots); }
    }
    var v;
    ok, v := DecodeItem(stream, f.kind, false, initial, if want.One? then want.value else initial);
    r := One(true, v);
  }

  lemma {:induction false} BlankStarts(f: Field, slot: Slot)
    requires !f.rule.Repeated? && SlotShaped(f, slot) && Shaped(f.kind, slot.value) && BlankSlot(f, slot)
    ensures !slot.has && (!f.rule.OneOf? && f.kind.Submessage? ==> AllBlank(f.kind.fields, slot.value.slots))
  {
    assert f.rule.OneOf? || BlankValue(f, slot.value);
  }

  method FreshSlots(fields: seq<Field>) returns (slots: seq<Slot>)
    requires DescriptorOk(fields)
    ensures AllShaped(fields, slots) && AllBlank(fields, slots)
  {
    slots := SetToDefaults(fields, ZeroSlots(fields, |fields|));
  }

  lemma {:induction false} MessageIsShaped(kind: Kind, slots: seq<Slot>)
    requires kind.Submessage? && AllShaped(kind.fields, slots)
    ensures Shaped(kind, Message(slots))
  {
  }

  method DecodeRepeated(stream: IStream, f: Field, slot: Slot, ghost want: Slot, ghost t: nat) returns (ok: bool, r: Slot)
    requires stream.Valid() && SlotShaped(f, slot) && FieldOk(f) && f.rule.Repeated?
    modifies stream
    ensures stream.Within() && SlotShaped(f, r)
    ensures old(PieceComes(stream, f, slot, want, t)) && !Packable(f.kind) ==>
              && (ok <==> PieceReceivable(f, want, t))
              && (ok ==> Arrived(f, r, want, t + 1) && stream.Took(|Piece(f, want, t)|))
    decreases f, 0
  {
    hide Shaped, Receivable, SameValue, ValueEncodable, ValueExclusive, EncodeValue, At, DescriptorOk, ZeroValue;
    r := slot;
    if |slot.values| >= f.rule.max {
      return false, slot;
    }
    ghost var item := if want.Many? && t < |want.values| then want.values[t] else ZeroValue(f.kind);
    if PieceComes(stream, f, slot, want, t) { ItemIsSent(f, want, t); }
    var v;
    ok, v := DecodeItem(stream, f.kind, true, ZeroValue(f.kind), item);
    r := Many(slot.values + [v]);
  }

  lemma {:induction false} ItemIsSent(f: Field, want: Slot, t: nat)
    requires SlotShaped(f, want) && SlotEncodable(f, want) && SlotExclusive(f, want) && f.rule.Repeated? && t < |want.values|
    ensures Shaped(f.kind, want.values[t]) && ValueSent(f.kind, want.values[t]) && |want.values| <= f.rule.max
  {
    hide ValueEncodable, ValueExclusive, Shaped;
    EachEncodable(f, want.values, |want.values|, t);
  }

  lemma {:induction false} EachEncodable(f: Field, vs: seq<Value>, n: nat, t: nat)
    requires t < n <= |vs| && (forall i :: 0 <= i < |vs| ==> Shaped(f.kind, vs[i])) && ValuesEncodable(f, vs, n)
    ensures ValueEncodable(f.kind, vs[t])
  {
    hide ValueEncodable, Shaped;
    if t < n - 1 {
      EachEncodable(f, vs, n - 1, t);
    }
  }

  /** The numbers of a packed array, as many as there is room for. */
  method DecodePacked(stream: IStream, f: Field, slot: Slot, ghost want: Slot) returns (ok: bool, r: Slot)
    requires stream.Valid() && SlotShaped(f, slot) && f.rule.Repeated? && Packable(f.kind)
    modifies stream
    ensures stream.Within() && SlotShaped(f, r)
    ensures old(PieceComes(stream, f, slot, want, 0)) ==> ok && SameSlot(f, r, want) && stream.Took(|Piece(f, want, 0)|)
  {
    hide EncodeNumber, At, PutVarint;
    ghost var good := PieceComes(stream, f, slot, want, 0);
    ghost var vs: seq<Value> := if good then want.values else [];
    ghost var packed := EncodePacked(f.kind, vs, |vs|);
    if good { DelimitedSize(packed); }
    r := slot;
    var values := slot.values;
    var substream := stream.MakeSubstream(packed);
    if substream == null {
      return false, slot;
    }
    ok := true;
    ghost var start, end := substream.pos, substream.pos + substream.bytesLeft;
    ghost var pos, left := stream.pos, stream.bytesLeft;
    while substream.bytesLeft > 0 && |values| < f.rule.max
      invariant substream.Valid() && fresh(substream) && substream.data == stream.data && SlotShaped(f, Many(values)) && ok
      invariant start <= substream.pos && substream.pos + substream.bytesLeft <= end && stream.pos == pos && stream.bytesLeft == left
      invariant good ==> HasNumbers(f.kind, vs, values, start, substream.pos, substream.bytesLeft)
      decreases substream.bytesLeft
    {
      ghost var k := |values|;
      if good { NumberComes(stream.data, f.kind, vs, values, start, substream.pos, substream.bytesLeft); }
      var n;
      ok, n := DecodeScalar(substream, f.kind, if good then vs[k].n else 0);
      if !ok {
        break;
      }
      values := values + [Number(n)];
    }
    if good { NumbersEnd(f.kind, vs, values, start, substream.pos, substream.bytesLeft); }
    r := Many(values);
    if substream.bytesLeft != 0 {
      return false, r;
    }
    var closed := stream.CloseSubstream(substream);
  }

  /** `values` are the first of the numbers, the others come next. */
  ghost predicate HasNumbers(kind: Kind, vs: seq<Value>, values: seq<Value>, start: nat, pos: nat, left: nat)
    requires Packable(kind) && forall i :: 0 <= i < |vs| ==> Shaped(kind, vs[i])
  {
    && |values| <= |vs| && values == vs[..|values|] && pos == start + |EncodePacked(kind, vs, |values|)|
    && left + |EncodePacked(kind, vs, |values|)| == |EncodePacked(kind, vs, |vs|)|
  }

  lemma {:induction false} NumberComes(data: Bytes, kind: Kind, vs: seq<Value>, values: seq<Value>, start: nat, pos: nat, left: nat)
    requires Packable(kind) && (forall i :: 0 <= i < |vs| ==> Shaped(kind, vs[i])) && left > 0
    requires HasNumbers(kind, vs, values, start, pos, left) && At(data, start, EncodePacked(kind, vs, |vs|))
    ensures var k := |values|;
            && k < |vs| && At(data, pos, EncodeNumber(kind, vs[k].n)) && |EncodeNumber(kind, vs[k].n)| <= left
            && HasNumbers(kind, vs, values + [vs[k]], start, pos + |EncodeNumber(kind, vs[k].n)|, left - |EncodeNumber(kind, vs[k].n)|)
  {
    hide At, EncodeNumber, Joined;
    var k := |values|;
    NumberStands(data, start, kind, vs, |vs|, k);
    PackedGrows(kind, vs, k + 1, |vs|);
    JoinedLength(EncodePacked(kind, vs, k), EncodeNumber(kind, vs[k].n));
    assert vs[..k + 1] == vs[..k] + [vs[k]];
  }

  lemma {:induction false} NumberStands(data: Bytes, start: nat, kind: Kind, vs: seq<Value>, n: nat, k: nat)
    requires Packable(kind) && (forall i :: 0 <= i < |vs| ==> Shaped(kind, vs[i])) && k < n <= |vs|
    requires At(data, start, EncodePacked(kind, vs, n))
    ensures At(data, start + |EncodePacked(kind, vs, k)|, EncodeNumber(kind, vs[k].n))
  {
    hide At, EncodeNumber, Joined;
    AtJoined(data, start, EncodePacked(kind, vs, n - 1), EncodeNumber(kind, vs[n - 1].n));
    if k < n - 1 {
      NumberStands(data, start, kind, vs, n - 1, k);
    }
  }

  /** No bytes left means no numbers left. */
  lemma {:induction false} NumbersEnd(kind: Kind, vs: seq<Value>, values: seq<Value>, start: nat, pos: nat, left: nat)
    requires Packable(kind) && (forall i :: 0 <= i < |vs| ==> Shaped(kind, vs[i]))
    requires HasNumbers(kind, vs, values, start, pos, left)
    ensures left == 0 <==> |values| == |vs|
    ensures |values| == |vs| ==> values == vs
  {
    hide EncodeNumber;
    if |values| < |vs| {
      PackedGrows(kind, vs, |values| + 1, |vs|);
    }
  }

  // ----- The fields of a message -----

  /** Field `i` of a oneof takes the place of the others. */
  method ClearOthers(fields: seq<Field>, slots: seq<Slot>, i: nat) returns (r: seq<Slot>)
    requires AllShaped(fields, slots) && i < |fields|
    ensures AllShaped(fields, r) && r[i] == slots[i]
    ensures forall k :: 0 <= k < |fields| && k != i ==> r[k] == WithoutOthers(fields, slots, i, k)
  {
    hide Shaped;
    r := slots;
    if fields[i].rule.OneOf? {
      for k := 0 to |fields|
        invariant AllShaped(fields, r) && r[i] == slots[i]
        invariant forall l :: 0 <= l < |fields| && l != i ==> r[l] == if l < k then WithoutOthers(fields, slots, i, l) else slots[l]
      {
        if k != i && fields[k].rule == fields[i].rule {
          assert SlotShaped(fields[k], slots[k]);
          r := r[k := One(false, slots[k].value)];
        }
      }
    }
  }

  /** The slot of another field after field `i` has been received. */
  function WithoutOthers(fields: seq<Field>, slots: seq<Slot>, i: nat, k: nat): Slot
    requires AllShaped(fields, slots) && i < |fields| && k < |fields|
  {
    assert SlotShaped(fields[k], slots[k]);
    if fields[i].rule.OneOf? && fields[k].rule == fields[i].rule then One(false, slots[k].value) else slots[k]
  }

  /** decode_static_field. */
  method DecodeField(stream: IStream, wireType: nat, fields: seq<Field>, i: nat, slots: seq<Slot>, ghost want: Slot, ghost t: nat)
    returns (ok: bool, r: seq<Slot>)
    requires stream.Valid() && AllShaped(fields, slots) && DescriptorOk(fields) && i < |fields|
    modifies stream
    ensures stream.Within() && AllShaped(fields, r)
    ensures SlotShaped(fields[i], slots[i]) && SlotShaped(fields[i], r[i])
    ensures forall k :: 0 <= k < |fields| && k != i ==> r[k] == WithoutOthers(fields, slots, i, k)
    ensures old(PieceComes(stream, fields[i], slots[i], want, t)) && wireType == PieceWireType(fields[i]) ==>
              && (ok <==> PieceReceivable(fields[i], want, t))
              && (ok ==> Arrived(fields[i], r[i], want, t + 1) && stream.Took(|Piece(fields[i], want, t)|))
    decreases fields, 2, 0
  {
    hide DescriptorOk, PieceComes, PieceReceivable, Arrived, Piece, Shaped;
    FieldsAreOk(fields, i);
    assert SlotShaped(fields[i], slots[i]);
    var slot;
    ok, slot := DecodeSlot(stream, wireType, fields[i], slots[i], want, t);
    r := slots[i := slot];
    assert AllShaped(fields, r);
    r := ClearOthers(fields, r, i);
  }

  class FieldIter {
    const fields: seq<Field>
    var pos: nat
    var requiredFieldIndex: nat

    ghost predicate Valid()
      reads this
    {
      if fields == [] then pos == 0 && requiredFieldIndex == 0
      else pos < |fields| && requiredFieldIndex == RequiredBefore(fields, pos)
    }

    constructor (fields: seq<Field>)
      ensures Valid() && this.fields == fields && pos == 0
    {
      this.fields, pos, requiredFieldIndex := fields, 0, 0;
    }

    /** pb_field_iter_next: after the last field comes the first one again. */
    method Next() returns (more: bool)
      requires Valid()
      modifies this
      ensures Valid() && (more <==> old(pos) + 1 < |fields|)
      ensures pos == if more then old(pos) + 1 else 0
    {
      if fields == [] {
        return false;
      }
      if pos + 1 == |fields| {
        pos, requiredFieldIndex := 0, 0;
        return false;
      }
      if fields[pos].rule.Required? {
        requiredFieldIndex := requiredFieldIndex + 1;
      }
      pos := pos + 1;
      more := true;
    }

    /** pb_field_iter_find: once around from where the iterator stands. */
    method Find(tag: nat) returns (found: bool)
      requires Valid()
      modifies this
      ensures Valid() && (found <==> exists f :: f in fields && f.tag == tag)
      ensures found ==> pos < |fields| && fields[pos].tag == tag
    {
      if fields == [] {
        return false;
      }
      var start := pos;
      ghost var wrapped := false;
      var first := true;
      while first || pos != start
        invariant Valid() && (first ==> pos == start && !wrapped) && (!first && !wrapped ==> pos > start)
        invariant wrapped ==> pos <= start
        invariant forall k :: 0 <= k < |fields| && (if wrapped then k < pos || k >= start else start <= k < pos) ==> fields[k].tag != tag
        decreases first, !wrapped, |fields| - pos
      {
        if fields[pos].tag == tag {
          return true;
        }
        ghost var at := pos;
        var more := Next();
        wrapped := wrapped || !more;
        first := false;
      }
      found := false;
    }

    /** Around to the first field: the number of required fields, at most as many as are tracked. */
    method CountRequired() returns (count: nat)
      requires Valid()
      modifies this
      ensures Valid() && count == if RequiredBefore(fields, |fields|) > MAX_REQUIRED_FIELDS then MAX_REQUIRED_FIELDS else RequiredBefore(fields, |fields|)
    {
      count := requiredFieldIndex;
      if fields == [] {
        return;
      }
      var last, more := fields[pos].rule, true;
      while more
        invariant Valid()
        invariant more ==> pos < |fields|
        invariant !more ==> count == RequiredBefore(fields, |fields| - 1) && last == fields[|fields| - 1].rule
        decreases more, |fields| - pos
      {
        count, last := requiredFieldIndex, fields[pos].rule;
        more := Next();
      }
      if last.Required? {
        count := count + 1;
      }
      if count > MAX_REQUIRED_FIELDS {
        count := MAX_REQUIRED_FIELDS;
      }
    }
  }

  /** The bits of the required fields that were seen, in words of 32. */
  method AllSeen(seen: seq<bool>, count: nat) returns (ok: bool)
    requires |seen| == MAX_REQUIRED_FIELDS && count <= MAX_REQUIRED_FIELDS
    requires forall k :: count <= k < MAX_REQUIRED_FIELDS ==> !seen[k]
    ensures ok <==> forall k :: 0 <= k < count ==> seen[k]
  {
    for i := 0 to count / 32
      invariant forall k :: 0 <= k < 32 * i ==> seen[k]
    {
      if seen[32 * i..32 * i + 32] != Ones(32) {
        ghost var k :| 0 <= k < 32 && seen[32 * i..32 * i + 32][k] != Ones(32)[k];
        assert !seen[32 * i + k];
        return false;
      }
      WordIsOnes(seen, 32 * i, 32);
    }
    var word := count / 32;
    var rest := count % 32;
    if rest != 0 {
      if seen[32 * word..32 * word + 32] != Joined(Ones(rest), Zeroes(32 - rest)) {
        ghost var k :| 0 <= k < 32 && seen[32 * word..32 * word + 32][k] != Joined(Ones(rest), Zeroes(32 - rest))[k];
        assert seen[32 * word + k] == seen[32 * word..32 * word + 32][k];
        return false;
      }
      WordStartsWithOnes(seen, 32 * word, rest);
    }
    ok := true;
  }

  function Ones(n: nat): (r: seq<bool>)
    ensures |r| == n && forall k :: 0 <= k < n ==> r[k]
  {
    if n == 0 then [] else [true] + Ones(n - 1)
  }

  function Zeroes(n: nat): (r: seq<bool>)
    ensures |r| == n && forall k :: 0 <= k < n ==> !r[k]
  {
    if n == 0 then [] else [false] + Zeroes(n - 1)
  }

  lemma {:induction false} WordStartsWithOnes(seen: seq<bool>, start: nat, n: nat)
    requires start + 32 <= |seen| && n <= 32 && seen[start..start + 32] == Joined(Ones(n), Zeroes(32 - n))
    ensures forall k :: start <= k < start + n ==> seen[k]
  {
    forall k | start <= k < start + n
      ensures seen[k]
    {
      assert seen[k] == seen[start..start + 32][k - start];
    }
  }

  lemma {:induction false} WordIsOnes(seen: seq<bool>, start: nat, n: nat)
    requires start + n <= |seen| && seen[start..start + n] == Ones(n)
    ensures forall k :: start <= k < start + n ==> seen[k]
  {
    forall k | start <= k < start + n
      ensures seen[k]
    {
      assert seen[k] == seen[start..start + n][k - start];
    }
  }

  // ----- How far a message has arrived -----

  /** How many pieces of field `i` have arrived when `t` of field `j` have and all of those before. */
  ghost function CountAt(fields: seq<Field>, want: seq<Slot>, i: nat, j: nat, t: nat): nat
    requires AllShaped(fields, want) && i < |fields|
  {
    assert SlotShaped(fields[i], want[i]);
    if i < j then Pieces(fields[i], want[i]) else if i == j then t else 0
  }

  ghost predicate ArrivedAt(fields: seq<Field>, slots: seq<Slot>, want: seq<Slot>, i: nat, n: nat)
    requires AllShaped(fields, slots) && AllShaped(fields, want) && i < |fields|
  {
    assert SlotShaped(fields[i], slots[i]) && SlotShaped(fields[i], want[i]);
    n <= Pieces(fields[i], want[i]) && Arrived(fields[i], slots[i], want[i], n) && PiecesReceivable(fields[i], want[i], n)
  }

  ghost predicate PiecesReceivable(f: Field, want: Slot, n: nat)
    requires SlotShaped(f, want) && n <= Pieces(f, want)
  {
    forall s: nat :: s < n ==> PieceReceivable(f, want, s)
  }

  ghost predicate Progress(fields: seq<Field>, slots: seq<Slot>, want: seq<Slot>, j: nat, t: nat)
    requires AllShaped(fields, slots) && AllShaped(fields, want)
  {
    && j <= |fields| && (j == |fields| ==> t == 0)
    && forall i: nat :: i < |fields| ==> ArrivedAt(fields, slots, want, i, CountAt(fields, want, i, j, t))
  }

  ghost function Offset(fields: seq<Field>, want: seq<Slot>, j: nat, t: nat): nat
    requires AllShaped(fields, want) && j <= |fields|
  {
    |EncodeFields(fields, want, j)| +
    if j < |fields| then
      assert SlotShaped(fields[j], want[j]);
      if t <= Pieces(fields[j], want[j]) then |EncodePieces(fields[j], want[j], t)| else 0
    else 0
  }

  ghost predicate SeenAt(fields: seq<Field>, want: seq<Slot>, seen: seq<bool>, i: nat, n: nat)
    requires |seen| == MAX_REQUIRED_FIELDS && i < |fields|
  {
    fields[i].rule.Required? && RequiredBefore(fields, i) < MAX_REQUIRED_FIELDS ==> (seen[RequiredBefore(fields, i)] <==> n > 0)
  }

  ghost predicate SeenOk(fields: seq<Field>, want: seq<Slot>, seen: seq<bool>, j: nat, t: nat)
    requires AllShaped(fields, want) && |seen| == MAX_REQUIRED_FIELDS
  {
    forall i: nat :: i < |fields| ==> SeenAt(fields, want, seen, i, CountAt(fields, want, i, j, t))
  }

  /** Bits beyond the required fields stay clear. */
  ghost predicate BitsOk(fields: seq<Field>, seen: seq<bool>) {
    |seen| == MAX_REQUIRED_FIELDS && forall k :: RequiredBefore(fields, |fields|) <= k < MAX_REQUIRED_FIELDS ==> !seen[k]
  }

  /** A message that may be sent is being received, up to piece `t` of field `j`. */
  ghost predicate Receiving(stream: IStream, fields: seq<Field>, slots: seq<Slot>, want: seq<Slot>, seen: seq<bool>, start: nat, j: nat, t: nat)
    requires AllShaped(fields, slots)
    reads stream
  {
    && |stream.data| < 0x1_0000_0000 && |seen| == MAX_REQUIRED_FIELDS && AllShaped(fields, want) && AllSent(fields, want)
    && Progress(fields, slots, want, j, t) && SeenOk(fields, want, seen, j, t)
    && At(stream.data, start, EncodeFields(fields, want, |fields|))
    && stream.pos == start + Offset(fields, want, j, t)
    && stream.bytesLeft + Offset(fields, want, j, t) == |EncodeFields(fields, want, |fields|)|
  }

  // ----- From one field to the next -----

  lemma {:induction false} FieldIsSent(fields: seq<Field>, want: seq<Slot>, j: nat, n: nat)
    requires AllShaped(fields, want) && j < n <= |fields| && AllEncodable(fields, want, n)
    ensures SlotShaped(fields[j], want[j]) && SlotEncodable(fields[j], want[j])
  {
    hide SlotShaped, SlotEncodable;
    if j < n - 1 {
      FieldIsSent(fields, want, j, n - 1);
    }
  }

  /** A field that has arrived as a whole leaves the next one to come. */
  lemma {:induction false} NextField(fields: seq<Field>, slots: seq<Slot>, want: seq<Slot>, seen: seq<bool>, j: nat)
    requires AllShaped(fields, slots) && AllShaped(fields, want) && j < |fields| && |seen| == MAX_REQUIRED_FIELDS
    requires SlotShaped(fields[j], want[j])
    requires Progress(fields, slots, want, j, Pieces(fields[j], want[j])) && SeenOk(fields, want, seen, j, Pieces(fields[j], want[j]))
    ensures Progress(fields, slots, want, j + 1, 0) && SeenOk(fields, want, seen, j + 1, 0)
    ensures Offset(fields, want, j + 1, 0) == Offset(fields, want, j, Pieces(fields[j], want[j]))
  {
    hide SlotShaped, ArrivedAt, Pieces, EncodeField, SeenAt;
    var t, next := Pieces(fields[j], want[j]), j + 1;
    forall i: nat | i < |fields|
      ensures ArrivedAt(fields, slots, want, i, CountAt(fields, want, i, next, 0))
      ensures SeenAt(fields, want, seen, i, CountAt(fields, want, i, next, 0))
    {
      assert CountAt(fields, want, i, next, 0) == CountAt(fields, want, i, j, t);
      assert ArrivedAt(fields, slots, want, i, CountAt(fields, want, i, j, t));
      assert SeenAt(fields, want, seen, i, CountAt(fields, want, i, j, t));
    }
    PiecesMakeField(fields[j], want[j]);
    JoinedLength(EncodeFields(fields, want, j), EncodeField(fields[j], want[j]));
  }

  /** Passes over fields that have nothing more to come. */
  lemma {:induction false} Settle(fields: seq<Field>, slots: seq<Slot>, want: seq<Slot>, seen: seq<bool>, j: nat, t: nat) returns (j': nat, t': nat)
    requires AllShaped(fields, slots) && AllShaped(fields, want) && |seen| == MAX_REQUIRED_FIELDS
    requires Progress(fields, slots, want, j, t) && SeenOk(fields, want, seen, j, t)
    ensures Progress(fields, slots, want, j', t') && SeenOk(fields, want, seen, j', t')
    ensures j' <= |fields| && (j' == |fields| ==> t' == 0) && Offset(fields, want, j', t') == Offset(fields, want, j, t)
    ensures j' < |fields| ==> SlotShaped(fields[j'], want[j']) && t' < Pieces(fields[j'], want[j'])
    decreases |fields| - j
  {
    hide SlotShaped, Pieces, SeenAt, SeenOk, Offset, Arrived, PiecesReceivable;
    j', t' := j, t;
    if j < |fields| {
      assert SlotShaped(fields[j], want[j]);
      assert ArrivedAt(fields, slots, want, j, CountAt(fields, want, j, j, t));
      if t == Pieces(fields[j], want[j]) {
        NextField(fields, slots, want, seen, j);
        j', t' := Settle(fields, slots, want, seen, j + 1, 0);
      }
    }
  }

  lemma {:induction false} FieldStands(data: Bytes, start: nat, fields: seq<Field>, want: seq<Slot>, n: nat, j: nat)
    requires AllShaped(fields, want) && j < n <= |fields| && At(data, start, EncodeFields(fields, want, n))
    ensures SlotShaped(fields[j], want[j]) && At(data, start + |EncodeFields(fields, want, j)|, EncodeField(fields[j], want[j]))
    ensures |EncodeFields(fields, want, j)| + |EncodeField(fields[j], want[j])| <= |EncodeFields(fields, want, n)|
  {
    hide At, EncodeField, Joined, SlotShaped;
    AtJoined(data, start, EncodeFields(fields, want, n - 1), EncodeField(fields[n - 1], want[n - 1]));
    JoinedLength(EncodeFields(fields, want, n - 1), EncodeField(fields[n - 1], want[n - 1]));
    if j < n - 1 {
      FieldStands(data, start, fields, want, n - 1, j);
    }
  }

  lemma {:induction false} PieceOfField(data: Bytes, start: nat, f: Field, want: Slot, n: nat, t: nat)
    requires SlotShaped(f, want) && t < n <= Pieces(f, want) && At(data, start, EncodePieces(f, want, n))
    ensures At(data, start + |EncodePieces(f, want, t)|, WireTag(f.tag, PieceWireType(f)) + Piece(f, want, t))
    ensures |EncodePieces(f, want, t)| + |WireTag(f.tag, PieceWireType(f)) + Piece(f, want, t)| <= |EncodePieces(f, want, n)|
  {
    hide At, Joined, Piece, WireTag, Pieces, PieceWireType, SlotShaped;
    var last := WireTag(f.tag, PieceWireType(f)) + Piece(f, want, n - 1);
    AtJoined(data, start, EncodePieces(f, want, n - 1), last);
    JoinedLength(EncodePieces(f, want, n - 1), last);
    if t < n - 1 {
      PieceOfField(data, start, f, want, n - 1, t);
    }
  }

  /** The tag and the content of the piece that comes next. */
  lemma {:induction false} PieceStands(data: Bytes, start: nat, fields: seq<Field>, want: seq<Slot>, j: nat, t: nat)
    requires AllShaped(fields, want) && j < |fields| && At(data, start, EncodeFields(fields, want, |fields|))
    requires SlotShaped(fields[j], want[j]) && t < Pieces(fields[j], want[j])
    ensures var tag, piece := WireTag(fields[j].tag, PieceWireType(fields[j])), Piece(fields[j], want[j], t);
            var p := start + Offset(fields, want, j, t);
            && At(data, p, tag) && At(data, p + |tag|, piece)
            && Offset(fields, want, j, t + 1) == Offset(fields, want, j, t) + |tag| + |piece| <= |EncodeFields(fields, want, |fields|)|
  {
    hide At, Joined, Piece, WireTag, Pieces, PieceWireType, SlotShaped, EncodeField, EncodeFields;
    var f := fields[j];
    var tag, piece := WireTag(f.tag, PieceWireType(f)), Piece(f, want[j], t);
    var p := start + |EncodeFields(fields, want, j)|;
    FieldStands(data, start, fields, want, |fields|, j);
    PiecesMakeField(f, want[j]);
    PieceOfField(data, p, f, want[j], Pieces(f, want[j]), t);
    AtSplit(data, p + |EncodePieces(f, want[j], t)|, tag + piece, tag, piece, p + |EncodePieces(f, want[j], t)| + |tag|);
    JoinedLength(EncodePieces(f, want[j], t), tag + piece);
  }

  // ----- One more piece -----

  /** No other field of the oneof is set in the message. */
  lemma {:induction false} OthersAreOff(fields: seq<Field>, want: seq<Slot>, j: nat, i: nat)
    requires AllShaped(fields, want) && AllExclusive(fields, want) && i < |fields| && j < |fields| && i != j
    requires SlotShaped(fields[i], want[i]) && SlotShaped(fields[j], want[j])
    requires fields[j].rule.OneOf? && fields[i].rule == fields[j].rule && Pieces(fields[j], want[j]) > 0
    ensures Pieces(fields[i], want[i]) == 0
  {
    hide SlotShaped;
    var low, high := if i < j then i else j, if i < j then j else i;
    assert SlotShaped(fields[low], want[low]) && SlotShaped(fields[high], want[high]);
    assert Apart(fields[low], want[low], fields[high], want[high]);
  }

  lemma {:induction false} ClearedStaysBlank(f: Field, slot: Slot)
    requires f.rule.OneOf? && SlotShaped(f, slot) && BlankSlot(f, slot)
    ensures slot.One? && One(false, slot.value) == slot
  {
  }

  /** The other fields are where they were. */
  lemma {:induction false} OtherStays(fields: seq<Field>, slots: seq<Slot>, r: seq<Slot>, want: seq<Slot>, j: nat, t: nat, i: nat)
    requires AllShaped(fields, slots) && AllShaped(fields, r) && AllShaped(fields, want) && AllExclusive(fields, want)
    requires j < |fields| && i < |fields| && i != j && SlotShaped(fields[j], want[j]) && t < Pieces(fields[j], want[j])
    requires ArrivedAt(fields, slots, want, i, CountAt(fields, want, i, j, t)) && r[i] == WithoutOthers(fields, slots, j, i)
    ensures ArrivedAt(fields, r, want, i, CountAt(fields, want, i, j, t + 1))
  {
    hide AllExclusive, Pieces, Arrived, PiecesReceivable, Shaped;
    assert SlotShaped(fields[i], slots[i]) && SlotShaped(fields[i], want[i]);
    if fields[j].rule.OneOf? && fields[i].rule == fields[j].rule {
      OthersAreOff(fields, want, j, i);
      assert CountAt(fields, want, i, j, t) == 0;
      NothingArrived(fields[i], slots[i], want[i]);
      ClearedStaysBlank(fields[i], slots[i]);
    }
  }

  lemma {:induction false} NothingArrived(f: Field, slot: Slot, want: Slot)
    requires SlotShaped(f, slot) && SlotShaped(f, want) && Arrived(f, slot, want, 0)
    ensures BlankSlot(f, slot)
  {
  }

  lemma {:induction false} OneMoreReceivable(f: Field, want: Slot, t: nat)
    requires SlotShaped(f, want) && t < Pieces(f, want) && PiecesReceivable(f, want, t) && PieceReceivable(f, want, t)
    ensures PiecesReceivable(f, want, t + 1)
  {
    hide PieceReceivable;
  }

  lemma {:induction false} PieceProgress(fields: seq<Field>, slots: seq<Slot>, r: seq<Slot>, want: seq<Slot>, j: nat, t: nat)
    requires AllShaped(fields, slots) && AllShaped(fields, r) && AllShaped(fields, want) && AllExclusive(fields, want)
    requires Progress(fields, slots, want, j, t) && j < |fields|
    requires SlotShaped(fields[j], want[j]) && SlotShaped(fields[j], r[j]) && t < Pieces(fields[j], want[j])
    requires Arrived(fields[j], r[j], want[j], t + 1) && PieceReceivable(fields[j], want[j], t)
    requires forall k :: 0 <= k < |fields| && k != j ==> r[k] == WithoutOthers(fields, slots, j, k)
    ensures Progress(fields, r, want, j, t + 1)
  {
    hide AllExclusive, Pieces, Arrived, PiecesReceivable, PieceReceivable, SlotShaped, WithoutOthers;
    var more := t + 1;
    forall i: nat | i < |fields|
      ensures ArrivedAt(fields, r, want, i, CountAt(fields, want, i, j, more))
    {
      assert ArrivedAt(fields, slots, want, i, CountAt(fields, want, i, j, t));
      if i == j {
        OneMoreReceivable(fields[j], want[j], t);
      } else {
        OtherStays(fields, slots, r, want, j, t, i);
      }
    }
  }

  lemma {:induction false} SameField(fields: seq<Field>, i: nat, j: nat)
    requires DescriptorOk(fields) && i < |fields| && j < |fields| && fields[i].tag == fields[j].tag
    ensures i == j
  {
  }

  /** What piece `t` of field `j` is to its decoder. */
  lemma {:induction false} SentPiece(fields: seq<Field>, slots: seq<Slot>, want: seq<Slot>, j: nat, t: nat)
    requires AllShaped(fields, slots) && AllShaped(fields, want) && AllSent(fields, want) && Progress(fields, slots, want, j, t) && j < |fields|
    ensures AllExclusive(fields, want)
    ensures SlotShaped(fields[j], slots[j]) && SlotShaped(fields[j], want[j]) && SlotEncodable(fields[j], want[j]) && SlotExclusive(fields[j], want[j])
    ensures t <= Pieces(fields[j], want[j]) && Arrived(fields[j], slots[j], want[j], t)
  {
    hide Pieces, Arrived, SlotEncodable, SlotShaped;
    FieldIsSent(fields, want, j, |fields|);
    assert SlotExclusive(fields[j], want[j]) && SlotShaped(fields[j], slots[j]);
    assert ArrivedAt(fields, slots, want, j, CountAt(fields, want, j, j, t));
  }

  lemma {:induction false} BitsGrow(fields: seq<Field>, seen: seq<bool>, i: nat)
    requires BitsOk(fields, seen) && i < |fields| && fields[i].rule.Required? && RequiredBefore(fields, i) < MAX_REQUIRED_FIELDS
    ensures BitsOk(fields, seen[RequiredBefore(fields, i) := true])
  {
    RequiredGrows(fields, i, |fields|);
  }

  lemma {:induction false} RequiredGrows(fields: seq<Field>, i: nat, j: nat)
    requires i <= j <= |fields|
    ensures RequiredBefore(fields, i) <= RequiredBefore(fields, j)
    ensures i < j && fields[i].rule.Required? ==> RequiredBefore(fields, i) < RequiredBefore(fields, j)
    decreases j - i
  {
    if i < j {
      RequiredGrows(fields, i, j - 1);
    }
  }

  /** The bit of a required field belongs to it alone. */
  lemma {:induction false} PieceSeen(fields: seq<Field>, want: seq<Slot>, seen: seq<bool>, seen': seq<bool>, j: nat, t: nat)
    requires AllShaped(fields, want) && j < |fields| && |seen| == |seen'| == MAX_REQUIRED_FIELDS
    requires SeenOk(fields, want, seen, j, t)
    requires seen' == if fields[j].rule.Required? && RequiredBefore(fields, j) < MAX_REQUIRED_FIELDS
                      then seen[RequiredBefore(fields, j) := true] else seen
    ensures SeenOk(fields, want, seen', j, t + 1)
  {
    hide AllShaped, Pieces, RequiredBefore;
    var more := t + 1;
    forall i: nat | i < |fields|
      ensures SeenAt(fields, want, seen', i, CountAt(fields, want, i, j, more))
    {
      assert SeenAt(fields, want, seen, i, CountAt(fields, want, i, j, t));
      RequiredGrows(fields, if i < j then i else j, if i < j then j else i);
    }
  }

  // ----- The loop -----

  /** A tag and what follows it. Without `go` the loop ends, with the result `ok`. */
  method DecodeNext(stream: IStream, iter: FieldIter, slots: seq<Slot>, seen: seq<bool>, ghost want: seq<Slot>,
                    ghost good: bool, ghost start: nat, ghost j: nat, ghost t: nat)
    returns (go: bool, ok: bool, r: seq<Slot>, seen': seq<bool>)
    requires stream.Valid() && iter.Valid() && AllShaped(iter.fields, slots) && DescriptorOk(iter.fields) && BitsOk(iter.fields, seen)
    requires good ==>
               && Receiving(stream, iter.fields, slots, want, seen, start, j, t)
               && j < |iter.fields| && SlotShaped(iter.fields[j], want[j]) && t < Pieces(iter.fields[j], want[j])
    modifies stream, iter
    ensures stream.Within() && iter.Valid() && AllShaped(iter.fields, r) && BitsOk(iter.fields, seen')
    ensures go ==> stream.bytesLeft < old(stream.bytesLeft)
    ensures good ==>
              && (go <==> PieceReceivable(iter.fields[j], want[j], t)) && (!go ==> !ok)
              && (go ==> Receiving(stream, iter.fields, r, want, seen', start, j, t + 1))
    decreases iter.fields, 2, 1
  {
    hide SlotShaped, DescriptorOk, AllSent, Progress, SeenOk, At, EncodeFields, Pieces, Piece, PieceReceivable, Offset, WireTag, WithoutOthers,
         SlotEncodable, SlotExclusive, Arrived, AllExclusive;
    ghost var fields := iter.fields;
    if good {
      PieceStands(stream.data, start, fields, want, j, t);
      FieldsAreOk(fields, j);
      SentPiece(fields, slots, want, j, t);
    }
    ghost var f: Field := if good then fields[j] else Field(0, Required, Bool, Number(0));
    ghost var slot: Slot := if good then want[j] else Many([]);
    go, ok, r, seen' := false, false, slots, seen;
    var decoded, wireType, tag, eof := stream.DecodeTag();
    if !decoded {
      ok := eof;
      return;
    }
    var found := iter.Find(tag);
    if !found {
      go := stream.SkipField(wireType);
      return;
    }
    if good { SameField(fields, iter.pos, j); }
    if iter.fields[iter.pos].rule.Required? && iter.requiredFieldIndex < MAX_REQUIRED_FIELDS {
      BitsGrow(fields, seen, iter.pos);
      seen' := seen[iter.requiredFieldIndex := true];
    }
    go, r := DecodeField(stream, wireType, iter.fields, iter.pos, slots, slot, t);
    if good && go {
      PieceProgress(fields, slots, r, want, j, t);
      PieceSeen(fields, want, seen, seen', j, t);
    }
  }

  // ----- Begin and end -----

  lemma {:induction false} NothingYet(fields: seq<Field>, slots: seq<Slot>, want: seq<Slot>, seen: seq<bool>)
    requires AllShaped(fields, slots) && AllShaped(fields, want) && AllBlank(fields, slots)
    requires |seen| == MAX_REQUIRED_FIELDS && forall k :: 0 <= k < |seen| ==> !seen[k]
    ensures Progress(fields, slots, want, 0, 0) && SeenOk(fields, want, seen, 0, 0) && Offset(fields, want, 0, 0) == 0
  {
    hide BlankSlot, Pieces, SlotShaped;
    forall i: nat | i < |fields|
      ensures ArrivedAt(fields, slots, want, i, CountAt(fields, want, i, 0, 0))
    {
      assert SlotShaped(fields[i], slots[i]) && SlotShaped(fields[i], want[i]) && BlankSlot(fields[i], slots[i]);
    }
  }

  lemma {:induction false} EveryPieceReceivable(fields: seq<Field>, want: seq<Slot>, j: nat, t: nat)
    requires AllShaped(fields, want) && j < |fields| && SlotShaped(fields[j], want[j]) && t < Pieces(fields[j], want[j])
    ensures AllReceivable(fields, want) ==> PieceReceivable(fields[j], want[j], t)
  {
    hide Shaped, Receivable;
    if AllReceivable(fields, want) {
      assert SlotReceivable(fields[j], want[j]);
    }
  }

  lemma {:induction false} AllPiecesReceived(f: Field, want: Slot)
    requires SlotShaped(f, want) && PiecesReceivable(f, want, Pieces(f, want))
    ensures SlotReceivable(f, want)
  {
    if f.rule.Repeated? {
      forall i | 0 <= i < |want.values|
        ensures Receivable(f.kind, want.values[i])
      {
        if !Packable(f.kind) { assert PieceReceivable(f, want, i); }
      }
    } else if want.has {
      assert PieceReceivable(f, want, 0);
    }
  }

  /** All fields have arrived. */
  lemma {:induction false} MessageArrived(fields: seq<Field>, slots: seq<Slot>, want: seq<Slot>)
    requires AllShaped(fields, slots) && AllShaped(fields, want) && Progress(fields, slots, want, |fields|, 0)
    ensures AllSame(fields, slots, want)
    ensures forall i :: 0 <= i < |fields| ==> SlotShaped(fields[i], want[i]) && SlotReceivable(fields[i], want[i])
  {
    hide Arrived, PiecesReceivable, SlotShaped, SlotReceivable, SameSlot, Pieces;
    forall i: nat | i < |fields|
      ensures SlotShaped(fields[i], slots[i]) && SlotShaped(fields[i], want[i])
      ensures SameSlot(fields[i], slots[i], want[i]) && SlotReceivable(fields[i], want[i])
    {
      assert SlotShaped(fields[i], slots[i]) && SlotShaped(fields[i], want[i]);
      assert ArrivedAt(fields, slots, want, i, CountAt(fields, want, i, |fields|, 0));
      AllArrived(fields[i], slots[i], want[i]);
      AllPiecesReceived(fields[i], want[i]);
    }
  }

  lemma {:induction false} RequiredAt(fields: seq<Field>, n: nat, k: nat) returns (i: nat)
    requires n <= |fields| && k < RequiredBefore(fields, n)
    ensures i < n && fields[i].rule.Required? && RequiredBefore(fields, i) == k
    decreases n
  {
    if k == RequiredBefore(fields, n - 1) {
      i := n - 1;
    } else {
      i := RequiredAt(fields, n - 1, k);
    }
  }

  /** The bits say which of the tracked required fields were given. */
  lemma {:induction false} BitsTell(fields: seq<Field>, want: seq<Slot>, seen: seq<bool>, count: nat)
    requires AllShaped(fields, want) && |seen| == MAX_REQUIRED_FIELDS && SeenOk(fields, want, seen, |fields|, 0)
    requires count == if RequiredBefore(fields, |fields|) > MAX_REQUIRED_FIELDS then MAX_REQUIRED_FIELDS else RequiredBefore(fields, |fields|)
    ensures (forall k :: 0 <= k < count ==> seen[k]) <==> (forall i: nat :: i < |fields| ==> RequiredGiven(fields, want, i))
  {
    hide RequiredBefore, Shaped;
    if forall k :: 0 <= k < count ==> seen[k] {
      forall i: nat | i < |fields|
        ensures RequiredGiven(fields, want, i)
      {
        assert SlotShaped(fields[i], want[i]);
        assert SeenAt(fields, want, seen, i, CountAt(fields, want, i, |fields|, 0));
        RequiredGrows(fields, i, |fields|);
      }
    }
    if forall i: nat :: i < |fields| ==> RequiredGiven(fields, want, i) {
      forall k: nat | k < count
        ensures seen[k]
      {
        var i := RequiredAt(fields, |fields|, k);
        assert SlotShaped(fields[i], want[i]) && RequiredGiven(fields, want, i);
        assert SeenAt(fields, want, seen, i, CountAt(fields, want, i, |fields|, 0));
      }
    }
  }

  lemma {:induction false} MessageReceived(fields: seq<Field>, slots: seq<Slot>, want: seq<Slot>, seen: seq<bool>, count: nat)
    requires AllShaped(fields, slots) && AllShaped(fields, want) && |seen| == MAX_REQUIRED_FIELDS
    requires Progress(fields, slots, want, |fields|, 0) && SeenOk(fields, want, seen, |fields|, 0)
    requires count == if RequiredBefore(fields, |fields|) > MAX_REQUIRED_FIELDS then MAX_REQUIRED_FIELDS else RequiredBefore(fields, |fields|)
    ensures AllSame(fields, slots, want)
    ensures AllReceivable(fields, want) <==> forall k :: 0 <= k < count ==> seen[k]
  {
    hide SlotShaped, SlotReceivable, RequiredGiven, AllSame, RequiredBefore, SeenOk, Progress;
    MessageArrived(fields, slots, want);
    BitsTell(fields, want, seen, count);
  }

  /** Bytes left are those of a piece to come. */
  lemma {:induction false} MoreToCome(data: Bytes, start: nat, fields: seq<Field>, want: seq<Slot>, j: nat, t: nat)
    requires AllShaped(fields, want) && j <= |fields| && At(data, start, EncodeFields(fields, want, |fields|))
    requires j < |fields| ==> SlotShaped(fields[j], want[j]) && t < Pieces(fields[j], want[j])
    ensures Offset(fields, want, j, t) < |EncodeFields(fields, want, |fields|)| <==> j < |fields|
  {
    if j < |fields| {
      PieceStands(data, start, fields, want, j, t);
    }
  }

  /**
   * pb_decode_noinit on storage with defaults. A message that may be sent is taken exactly when its strings have
   * room for their terminators and the tracked required fields are there; then all its fields have arrived.
   */
  method PbDecodeNoInit(stream: IStream, fields: seq<Field>, slots: seq<Slot>, ghost want: seq<Slot>)
    returns (ok: bool, r: seq<Slot>)
    requires stream.Valid() && AllShaped(fields, slots) && DescriptorOk(fields)
    modifies stream
    ensures stream.Within()
    ensures AllShaped(fields, r)
    ensures AllShaped(fields, want) && AllSent(fields, want) && AllBlank(fields, slots) && |stream.data| < 0x1_0000_0000
            && old(stream.Next(EncodeFields(fields, want, |fields|)) && stream.bytesLeft == |EncodeFields(fields, want, |fields|)|) ==>
              && (ok <==> AllReceivable(fields, want))
              && (ok ==> AllSame(fields, r, want) && stream.Took(|EncodeFields(fields, want, |fields|)|))
    decreases fields, 3
  {
    hide AllShaped, DescriptorOk, AllSent, AllBlank, Progress, SeenOk, EncodeFields, At, PieceReceivable, AllReceivable, AllSame, Offset, Pieces,
         SlotShaped, RequiredBefore;
    ghost var good := AllShaped(fields, want) && AllSent(fields, want) && AllBlank(fields, slots) && |stream.data| < 0x1_0000_0000
                      && stream.Next(EncodeFields(fields, want, |fields|)) && stream.bytesLeft == |EncodeFields(fields, want, |fields|)|;
    ghost var start, j: nat, t: nat := stream.pos, 0, 0;
    var seen := Zeroes(MAX_REQUIRED_FIELDS);
    var iter := new FieldIter(fields);
    r := slots;
    if good { NothingYet(fields, slots, want, seen); }
    while stream.bytesLeft > 0
      invariant stream.Within() && iter.Valid() && iter.fields == fields && fresh(iter) && AllShaped(fields, r) && BitsOk(fields, seen)
      invariant good ==> Receiving(stream, fields, r, want, seen, start, j, t)
      decreases stream.bytesLeft
    {
      if good {
        j, t := Settle(fields, r, want, seen, j, t);
        MoreToCome(stream.data, start, fields, want, j, t);
      }
      var go;
      go, ok, r, seen := DecodeNext(stream, iter, r, seen, want, good, start, j, t);
      if !go {
        if good { EveryPieceReceivable(fields, want, j, t); }
        if !ok {
          return;
        }
        break;
      }
      t := t + 1;
    }
    if good {
      j, t := Settle(fields, r, want, seen, j, t);
      MoreToCome(stream.data, start, fields, want, j, t);
    }
    var count := iter.CountRequired();
    if good { MessageReceived(fields, r, want, seen, count); }
    ok := AllSeen(seen, count);
  }

  /** pb_decode: defaults first. */
  method PbDecode(stream: IStream, fields: seq<Field>, slots: seq<Slot>, ghost want: seq<Slot>) returns (ok: bool, r: seq<Slot>)
    requires stream.Valid() && AllShaped(fields, slots) && DescriptorOk(fields)
    modifies stream
    ensures stream.Within() && AllShaped(fields, r)
    ensures AllShaped(fields, want) && AllSent(fields, want) && |stream.data| < 0x1_0000_0000
            && old(stream.Next(EncodeFields(fields, want, |fields|)) && stream.bytesLeft == |EncodeFields(fields, want, |fields|)|) ==>
              (ok <==> AllReceivable(fields, want)) && (ok ==> AllSame(fields, r, want))
  {
    r := SetToDefaults(fields, slots);
    ok, r := PbDecodeNoInit(stream, fields, r, want);
  }

  /** What pb_encode wrote into a buffer, decoded into any other storage, is the same message. */
  method EncodeAndDecode(fields: seq<Field>, message: seq<Slot>, storage: seq<Slot>, maxSize: nat) returns (sent: bool, received: bool, r: seq<Slot>)
    requires AllShaped(fields, message) && AllShaped(fields, storage) && AllGiven(fields, message) && DescriptorOk(fields)
    requires AllExclusive(fields, message) && maxSize < 0x1_0000_0000 && Small(|EncodeFields(fields, message, |fields|)|)
    ensures sent <==> AllEncodable(fields, message, |fields|) && |EncodeFields(fields, message, |fields|)| <= maxSize
    ensures AllShaped(fields, r)
    ensures sent ==> (received <==> AllReceivable(fields, message)) && (received ==> AllSame(fields, r, message))
  {
    hide AllShaped, AllGiven, AllExclusive, AllReceivable, AllSame, EncodeFields;
    ghost var body := EncodeFields(fields, message, |fields|);
    received, r := false, storage;
    var output := new OStream(false, [], maxSize);
    sent := PbEncode(output, fields, message);
    if sent {
      SliceAt(output.buffer, 0, body);
      var input := new IStream(output.buffer, 0, |output.buffer|);
      received, r := PbDecode(input, fields, storage, message);
    }
  }
}
