/** Message descriptors, messages as value trees, and their wire format. */
module PbFormat {
  import opened ByteOrder
  import opened DbFormat
  import opened Coding
  import opened KeyOrder

  // ----- Descriptors -----

  datatype Width = W8 | W16 | W32 | W64

  /** Sizes are those of the static storage: `size` bytes, or a string with its terminator. */
  datatype Kind =
    | Bool
    | Varint(width: Width)
    | UVarint(width: Width)
    | SVarint(width: Width)
    | Fixed32Bits
    | Fixed64Bits
    | ByteArray(size: nat)
    | Text(size: nat)
    | Submessage(fields: seq<Field>)
    | FixedLengthBytes(size: nat)

  datatype Rule = Required | Optional | Repeated(max: nat) | OneOf(group: nat)

  datatype Field = Field(tag: nat, rule: Rule, kind: Kind, initial: Value)

  // ----- Messages -----

  datatype Value = Number(n: int) | Blob(s: Bytes) | Message(slots: seq<Slot>)

  /**
   * The storage of one field. `has` is the flag of an optional field, or says that a oneof holds this field;
   * for a required field, whether it has been given.
   */
  datatype Slot = One(has: bool, value: Value) | Many(values: seq<Value>)

  predicate Packable(kind: Kind) {
    !kind.ByteArray? && !kind.Text? && !kind.Submessage? && !kind.FixedLengthBytes?
  }

  /** The value is one of the C type of the field. */
  ghost predicate Shaped(kind: Kind, v: Value)
    decreases kind, 0
  {
    match kind
    case Bool => v.Number? && 0 <= v.n <= 1
    case Varint(w) => v.Number? && -Half(w) <= v.n < Half(w)
    case UVarint(w) => v.Number? && 0 <= v.n < 2 * Half(w)
    case SVarint(w) => v.Number? && -Half(w) <= v.n < Half(w)
    case Fixed32Bits => v.Number? && 0 <= v.n < 0x1_0000_0000
    case Fixed64Bits => v.Number? && 0 <= v.n < 0x1_0000_0000_0000_0000
    case ByteArray(size) => v.Blob? && |v.s| < 0x1_0000_0000
    case Text(size) => v.Blob? && |v.s| <= size && 0 !in v.s
    case Submessage(fields) => v.Message? && AllShaped(fields, v.slots)
    case FixedLengthBytes(size) => v.Blob? && |v.s| == size
  }

  function Half(w: Width): int {
    match w
    case W8 => 0x80
    case W16 => 0x8000
    case W32 => 0x8000_0000
    case W64 => 0x8000_0000_0000_0000
  }

  ghost predicate SlotShaped(f: Field, slot: Slot)
    decreases f, 0
  {
    if f.rule.Repeated? then slot.Many? && forall i :: 0 <= i < |slot.values| ==> Shaped(f.kind, slot.values[i])
    else slot.One? && Shaped(f.kind, slot.value)
  }

  ghost predicate AllShaped(fields: seq<Field>, slots: seq<Slot>)
    decreases fields, 0
  {
    |slots| == |fields| && forall i :: 0 <= i < |fields| ==> SlotShaped(fields[i], slots[i])
  }

  /** Field numbers of the protocol. */
  ghost predicate TagsOk(fields: seq<Field>)
    decreases fields, 0
  {
    forall i :: 0 <= i < |fields| ==> FieldTagOk(fields[i])
  }

  ghost predicate FieldTagOk(f: Field)
    decreases f, 0
  {
    0 < f.tag < 0x2000_0000 && KindTagsOk(f.kind)
  }

  ghost predicate KindTagsOk(kind: Kind)
    decreases kind, 0
  {
    kind.Submessage? ==> TagsOk(kind.fields)
  }

  // ----- The wire format -----

  const WT_VARINT: nat := 0
  const WT_64BIT: nat := 1
  const WT_STRING: nat := 2
  const WT_32BIT: nat := 5

  function WireType(kind: Kind): (r: nat)
    ensures r < 8
  {
    match kind
    case Fixed32Bits => WT_32BIT
    case Fixed64Bits => WT_64BIT
    case Bool => WT_VARINT
    case Varint(_) => WT_VARINT
    case UVarint(_) => WT_VARINT
    case SVarint(_) => WT_VARINT
    case _ => WT_STRING
  }

  function WireTag(tag: nat, wireType: nat): Bytes {
    PutVarint(tag * 8 + wireType)
  }

  /** Negative numbers as 64-bit two's complement, or zigzag for the svarint kinds. */
  function ToWire(kind: Kind, n: int): (r: nat)
    requires Packable(kind) && Shaped(kind, Number(n))
    ensures r < 0x1_0000_0000_0000_0000
  {
    if kind.SVarint? then if n < 0 then -2 * n - 1 else 2 * n
    else if n < 0 then 0x1_0000_0000_0000_0000 + n
    else n
  }

  function Delimited(s: Bytes): Bytes {
    PutVarint(|s|) + s
  }

  function EncodeNumber(kind: Kind, n: int): (r: Bytes)
    requires Packable(kind) && Shaped(kind, Number(n))
    ensures |r| > 0
  {
    if kind.Fixed32Bits? then PutFixed32(n)
    else if kind.Fixed64Bits? then PutFixed64(n)
    else PutVarint(ToWire(kind, n))
  }

  function EncodeValue(kind: Kind, v: Value): (r: Bytes)
    requires Shaped(kind, v)
    ensures |r| > 0
    decreases kind, 0
  {
    if Packable(kind) then EncodeNumber(kind, v.n)
    else if kind.Submessage? then Delimited(EncodeFields(kind.fields, v.slots, |kind.fields|))
    else Delimited(v.s)
  }

  /** The first `n` values of a packed array. */
  function EncodePacked(kind: Kind, vs: seq<Value>, n: nat): (r: Bytes)
    requires n <= |vs| && Packable(kind) && forall i :: 0 <= i < |vs| ==> Shaped(kind, vs[i])
    ensures |r| >= n
  {
    if n == 0 then [] else Joined(EncodePacked(kind, vs, n - 1), EncodeNumber(kind, vs[n - 1].n))
  }

  /** The first `n` values, each with its tag. */
  function EncodeItems(f: Field, vs: seq<Value>, n: nat): (r: Bytes)
    requires n <= |vs| && forall i :: 0 <= i < |vs| ==> Shaped(f.kind, vs[i])
    decreases f, 0, n
  {
    if n == 0 then []
    else Joined(EncodeItems(f, vs, n - 1), WireTag(f.tag, WireType(f.kind)) + EncodeValue(f.kind, vs[n - 1]))
  }

  function EncodeField(f: Field, slot: Slot): Bytes
    requires SlotShaped(f, slot)
    decreases f, 1
  {
    if !f.rule.Repeated? then
      if slot.has then WireTag(f.tag, WireType(f.kind)) + EncodeValue(f.kind, slot.value) else []
    else if slot.values == [] then []
    else if Packable(f.kind) then WireTag(f.tag, WT_STRING) + Delimited(EncodePacked(f.kind, slot.values, |slot.values|))
    else EncodeItems(f, slot.values, |slot.values|)
  }

  /** The first `n` fields in the order of the descriptor. */
  function EncodeFields(fields: seq<Field>, slots: seq<Slot>, n: nat): Bytes
    requires n <= |fields| && AllShaped(fields, slots)
    decreases fields, 1, n
  {
    if n == 0 then [] else Joined(EncodeFields(fields, slots, n - 1), EncodeField(fields[n - 1], slots[n - 1]))
  }
}
