/** What a receiver gets of a message: same fields, defaults where nothing was sent, and what it refuses. */
module PbMessages {
  import opened ByteOrder
  import opened DbFormat
  import opened Coding
  import opened PbFormat
  import opened PbEncoding

  // ----- Descriptors a decoder can use -----

  ghost predicate TagsDistinct(fields: seq<Field>)
    decreases fields, 0
  {
    && (forall i, j :: 0 <= i < j < |fields| ==> fields[i].tag != fields[j].tag)
    && forall i :: 0 <= i < |fields| ==> FieldDistinct(fields[i])
  }

  ghost predicate FieldDistinct(f: Field)
    decreases f, 0
  {
    f.kind.Submessage? ==> TagsDistinct(f.kind.fields)
  }

  /** Initial values have the type of their field. */
  ghost predicate InitialsOk(fields: seq<Field>)
    decreases fields, 0
  {
    forall i :: 0 <= i < |fields| ==> FieldInitialOk(fields[i])
  }

  ghost predicate FieldInitialOk(f: Field)
    decreases f, 0
  {
    if f.kind.Submessage? then InitialsOk(f.kind.fields) else Shaped(f.kind, f.initial)
  }

  ghost predicate DescriptorOk(fields: seq<Field>) {
    TagsOk(fields) && TagsDistinct(fields) && InitialsOk(fields)
  }

  ghost predicate KindOk(kind: Kind) {
    kind.Submessage? ==> DescriptorOk(kind.fields)
  }

  ghost predicate FieldOk(f: Field) {
    0 < f.tag < 0x2000_0000 && KindOk(f.kind) && FieldInitialOk(f)
  }

  lemma {:induction false} FieldsAreOk(fields: seq<Field>, i: nat)
    requires DescriptorOk(fields) && i < |fields|
    ensures FieldOk(fields[i])
  {
    assert FieldTagOk(fields[i]) && FieldDistinct(fields[i]) && FieldInitialOk(fields[i]);
    assert KindTagsOk(fields[i].kind);
  }

  // ----- At most one field of a oneof is set -----

  ghost predicate ValueExclusive(kind: Kind, v: Value)
    requires Shaped(kind, v)
    decreases kind, 0
  {
    kind.Submessage? ==> AllExclusive(kind.fields, v.slots)
  }

  ghost predicate SlotExclusive(f: Field, slot: Slot)
    requires SlotShaped(f, slot)
    decreases f, 0
  {
    if f.rule.Repeated? then forall i :: 0 <= i < |slot.values| ==> ValueExclusive(f.kind, slot.values[i])
    else slot.has ==> ValueExclusive(f.kind, slot.value)
  }

  ghost predicate AllExclusive(fields: seq<Field>, slots: seq<Slot>)
    requires AllShaped(fields, slots)
    decreases fields, 0
  {
    && (forall i :: 0 <= i < |fields| ==> SlotExclusive(fields[i], slots[i]))
    && forall i, j :: 0 <= i < j < |fields| ==> Apart(fields[i], slots[i], fields[j], slots[j])
  }

  ghost predicate Apart(f: Field, x: Slot, g: Field, y: Slot)
    requires SlotShaped(f, x) && SlotShaped(g, y)
  {
    f.rule.OneOf? && g.rule == f.rule ==> !(x.has && y.has)
  }

  // ----- What a decoder accepts -----

  const MAX_REQUIRED_FIELDS: nat := 64

  /** The number of required fields before field `i`. */
  function RequiredBefore(fields: seq<Field>, i: nat): (r: nat)
    requires i <= |fields|
    ensures r <= i
  {
    if i == 0 then 0 else RequiredBefore(fields, i - 1) + if fields[i - 1].rule.Required? then 1 else 0
  }

  /** Strings must leave room for their terminator, and the first 64 required fields must be there. */
  ghost predicate Receivable(kind: Kind, v: Value)
    requires Shaped(kind, v)
    decreases kind, 0
  {
    match kind
    case Text(size) => |v.s| < size
    case Submessage(fields) => AllReceivable(fields, v.slots)
    case _ => true
  }

  ghost predicate SlotReceivable(f: Field, slot: Slot)
    requires SlotShaped(f, slot)
    decreases f, 0
  {
    if f.rule.Repeated? then forall i :: 0 <= i < |slot.values| ==> Receivable(f.kind, slot.values[i])
    else slot.has ==> Receivable(f.kind, slot.value)
  }

  ghost predicate RequiredGiven(fields: seq<Field>, slots: seq<Slot>, i: nat)
    requires i < |fields| && AllShaped(fields, slots)
  {
    assert SlotShaped(fields[i], slots[i]);
    fields[i].rule.Required? && RequiredBefore(fields, i) < MAX_REQUIRED_FIELDS ==> slots[i].has
  }

  ghost predicate AllReceivable(fields: seq<Field>, slots: seq<Slot>)
    requires AllShaped(fields, slots)
    decreases fields, 0
  {
    && (forall i :: 0 <= i < |fields| ==> SlotReceivable(fields[i], slots[i]))
    && forall i: nat :: i < |fields| ==> RequiredGiven(fields, slots, i)
  }

  // ----- Nothing received yet -----

  ghost predicate BlankValue(f: Field, v: Value)
    requires Shaped(f.kind, v)
    decreases f, 0
  {
    if f.kind.Submessage? then AllBlank(f.kind.fields, v.slots) else v == f.initial
  }

  /** Not set, and at its default; the storage of a oneof is not initialized. */
  ghost predicate BlankSlot(f: Field, slot: Slot)
    requires SlotShaped(f, slot)
    decreases f, 1
  {
    if f.rule.Repeated? then slot.values == [] else !slot.has && (f.rule.OneOf? || BlankValue(f, slot.value))
  }

  ghost predicate AllBlank(fields: seq<Field>, slots: seq<Slot>)
    requires AllShaped(fields, slots)
    decreases fields, 0
  {
    forall i :: 0 <= i < |fields| ==> BlankSlot(fields[i], slots[i])
  }

  // ----- The same message -----

  ghost predicate SameValue(kind: Kind, v: Value, want: Value)
    requires Shaped(kind, v) && Shaped(kind, want)
    decreases kind, 0
  {
    if kind.Submessage? then AllSame(kind.fields, v.slots, want.slots) else v == want
  }

  /** The same is set, to the same values; what is not set has its default. */
  ghost predicate SameSlot(f: Field, slot: Slot, want: Slot)
    requires SlotShaped(f, slot) && SlotShaped(f, want)
    decreases f, 0
  {
    if f.rule.Repeated? then
      |slot.values| == |want.values| && forall i :: 0 <= i < |slot.values| ==> SameValue(f.kind, slot.values[i], want.values[i])
    else if want.has then slot.has && SameValue(f.kind, slot.value, want.value)
    else BlankSlot(f, slot)
  }

  ghost predicate AllSame(fields: seq<Field>, slots: seq<Slot>, want: seq<Slot>)
    requires AllShaped(fields, slots) && AllShaped(fields, want)
    decreases fields, 0
  {
    forall i :: 0 <= i < |fields| ==> SameSlot(fields[i], slots[i], want[i])
  }

  // ----- Fields in pieces: what follows one tag -----

  predicate InPacks(f: Field) {
    f.rule.Repeated? && Packable(f.kind)
  }

  ghost function Pieces(f: Field, want: Slot): nat
    requires SlotShaped(f, want)
  {
    if !f.rule.Repeated? then if want.has then 1 else 0
    else if InPacks(f) then if want.values == [] then 0 else 1
    else |want.values|
  }

  ghost function Piece(f: Field, want: Slot, t: nat): Bytes
    requires SlotShaped(f, want) && t < Pieces(f, want)
  {
    if !f.rule.Repeated? then EncodeValue(f.kind, want.value)
    else if InPacks(f) then Delimited(EncodePacked(f.kind, want.values, |want.values|))
    else EncodeValue(f.kind, want.values[t])
  }

  ghost function PieceWireType(f: Field): (r: nat)
    ensures r < 8
  {
    if InPacks(f) then WT_STRING else WireType(f.kind)
  }

  ghost function EncodePieces(f: Field, want: Slot, t: nat): Bytes
    requires SlotShaped(f, want) && t <= Pieces(f, want)
  {
    if t == 0 then [] else Joined(EncodePieces(f, want, t - 1), WireTag(f.tag, PieceWireType(f)) + Piece(f, want, t - 1))
  }

  lemma {:induction false} PiecesMakeField(f: Field, want: Slot)
    requires SlotShaped(f, want)
    ensures EncodePieces(f, want, Pieces(f, want)) == EncodeField(f, want)
  {
    if f.rule.Repeated? && !Packable(f.kind) {
      PiecesMakeItems(f, want, |want.values|);
      assert EncodeItems(f, want.values, 0) == [];
    } else if Pieces(f, want) == 1 {
      assert EncodePieces(f, want, 0) == [];
    }
  }

  lemma {:induction false} PiecesMakeItems(f: Field, want: Slot, t: nat)
    requires SlotShaped(f, want) && f.rule.Repeated? && !Packable(f.kind) && t <= |want.values|
    ensures EncodePieces(f, want, t) == EncodeItems(f, want.values, t)
  {
    hide WireTag, EncodeValue;
    if t > 0 {
      PiecesMakeItems(f, want, t - 1);
    }
  }

  /** The first `t` pieces have arrived. */
  ghost predicate Arrived(f: Field, slot: Slot, want: Slot, t: nat)
    requires SlotShaped(f, slot) && SlotShaped(f, want) && t <= Pieces(f, want)
  {
    if t == 0 then BlankSlot(f, slot)
    else if f.rule.Repeated? && !Packable(f.kind) then
      |slot.values| == t && forall i :: 0 <= i < t ==> SameValue(f.kind, slot.values[i], want.values[i])
    else SameSlot(f, slot, want)
  }

  lemma {:induction false} AllArrived(f: Field, slot: Slot, want: Slot)
    requires SlotShaped(f, slot) && SlotShaped(f, want) && Arrived(f, slot, want, Pieces(f, want))
    ensures SameSlot(f, slot, want)
  {
    hide SameValue, Shaped;
  }

  ghost predicate PieceReceivable(f: Field, want: Slot, t: nat)
    requires SlotShaped(f, want) && t < Pieces(f, want)
  {
    if !f.rule.Repeated? then Receivable(f.kind, want.value)
    else InPacks(f) || Receivable(f.kind, want.values[t])
  }
}
