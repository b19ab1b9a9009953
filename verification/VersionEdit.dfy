/** Version edits in the encoded form in which the manifest keeps them. */
module VersionEdits {
  import opened ByteOrder
  import opened DbFormat
  import opened Coding
  import opened KeyOrder
  import opened Version

  type Level = x: int | 0 <= x < 7

  /** What an edit says of a new file; the keys are encoded internal keys. */
  datatype FileRecord = FileRecord(number: Long, size: Long, smallest: Bytes, largest: Bytes)

  /** `deletedFiles` is a std::set of pairs, kept in its own order. */
  datatype EditRecord = EditRecord(
    comparator: Option<Bytes>, logNumber: Option<Long>, prevLogNumber: Option<Long>, nextFileNumber: Option<Long>,
    lastSequence: Option<Long>, compactPointers: seq<(Level, Bytes)>, deletedFiles: seq<(Level, Long)>,
    newFiles: seq<(Level, FileRecord)>)

  const CLEAR := EditRecord(None, None, None, None, None, [], [], [])

  /** One tagged item of an encoded edit. */
  datatype Item =
    | ComparatorName(name: Bytes)
    | LogNumber(number: Long)
    | NextFileNumber(number: Long)
    | LastSequence(number: Long)
    | CompactPointer(level: Level, key: Bytes)
    | DeletedFile(level: Level, number: Long)
    | NewFile(level: Level, file: FileRecord)
    | PrevLogNumber(number: Long)

  // ----- The set of deleted files -----

  predicate PairLt(a: (Level, Long), b: (Level, Long)) {
    a.0 < b.0 || (a.0 == b.0 && a.1 < b.1)
  }

  /** std::set::insert. */
  function InsertPair(pairs: seq<(Level, Long)>, p: (Level, Long)): seq<(Level, Long)> {
    if pairs == [] then [p]
    else if PairLt(p, pairs[0]) then [p] + pairs
    else if p == pairs[0] then pairs
    else [pairs[0]] + InsertPair(pairs[1..], p)
  }

  ghost predicate Ascending(pairs: seq<(Level, Long)>) {
    forall i, j :: 0 <= i < j < |pairs| ==> PairLt(pairs[i], pairs[j])
  }

  lemma {:induction false} LargestGoesLast(pairs: seq<(Level, Long)>, p: (Level, Long))
    requires forall i :: 0 <= i < |pairs| ==> PairLt(pairs[i], p)
    ensures InsertPair(pairs, p) == pairs + [p]
  {
    if pairs != [] {
      LargestGoesLast(pairs[1..], p);
    }
  }

  // ----- Encoding -----

  function TagOf(item: Item): (r: Word) {
    match item
    case ComparatorName(_) => 1
    case LogNumber(_) => 2
    case NextFileNumber(_) => 3
    case LastSequence(_) => 4
    case CompactPointer(_, _) => 5
    case DeletedFile(_, _) => 6
    case NewFile(_, _) => 7
    case PrevLogNumber(_) => 9
  }

  function EncodeFile(f: FileRecord): Bytes {
    PutVarint(f.number) + (PutVarint(f.size) + (LengthPrefixed(f.smallest) + LengthPrefixed(f.largest)))
  }

  /** What follows the tag. */
  function Payload(item: Item): Bytes {
    match item
    case ComparatorName(name) => LengthPrefixed(name)
    case CompactPointer(level, key) => PutVarint(level) + LengthPrefixed(key)
    case DeletedFile(level, number) => PutVarint(level) + PutVarint(number)
    case NewFile(level, f) => PutVarint(level) + EncodeFile(f)
    case _ => PutVarint(item.number)
  }

  function EncodeItem(item: Item): (r: Bytes)
    ensures |r| > 0
  {
    PutVarint(TagOf(item)) + Payload(item)
  }

  /** The first `n` items one after the other. */
  function EncodeItems(items: seq<Item>, n: nat): Bytes
    requires n <= |items|
  {
    if n == 0 then [] else Joined(EncodeItems(items, n - 1), EncodeItem(items[n - 1]))
  }

  function PointerItems(pointers: seq<(Level, Bytes)>, n: nat): (r: seq<Item>)
    requires n <= |pointers|
    ensures |r| == n
  {
    if n == 0 then [] else Joined(PointerItems(pointers, n - 1), [CompactPointer(pointers[n - 1].0, pointers[n - 1].1)])
  }

  function DeletedItems(deleted: seq<(Level, Long)>, n: nat): (r: seq<Item>)
    requires n <= |deleted|
    ensures |r| == n
  {
    if n == 0 then [] else Joined(DeletedItems(deleted, n - 1), [DeletedFile(deleted[n - 1].0, deleted[n - 1].1)])
  }

  function NewFileItems(files: seq<(Level, FileRecord)>, n: nat): (r: seq<Item>)
    requires n <= |files|
    ensures |r| == n
  {
    if n == 0 then [] else Joined(NewFileItems(files, n - 1), [NewFile(files[n - 1].0, files[n - 1].1)])
  }

  function NumberItems(r: EditRecord): seq<Item> {
    Joined(if r.comparator.Some? then [ComparatorName(r.comparator.value)] else [],
    Joined(if r.logNumber.Some? then [LogNumber(r.logNumber.value)] else [],
    Joined(if r.prevLogNumber.Some? then [PrevLogNumber(r.prevLogNumber.value)] else [],
    Joined(if r.nextFileNumber.Some? then [NextFileNumber(r.nextFileNumber.value)] else [],
           if r.lastSequence.Some? then [LastSequence(r.lastSequence.value)] else []))))
  }

  function FileItems(r: EditRecord): seq<Item> {
    Joined(PointerItems(r.compactPointers, |r.compactPointers|),
    Joined(DeletedItems(r.deletedFiles, |r.deletedFiles|), NewFileItems(r.newFiles, |r.newFiles|)))
  }

  /** The items of an edit, in the order in which they are written. */
  function Items(r: EditRecord): seq<Item> {
    Joined(NumberItems(r), FileItems(r))
  }

  function Encode(r: EditRecord): Bytes {
    EncodeItems(Items(r), |Items(r)|)
  }

  // ----- Decoding -----

  datatype ParsedItem = ParsedItem(item: Item, next: nat)

  /** GetLevel. */
  function LevelAt(b: Bytes, p: nat): (r: Option<Parsed>)
    requires p <= |b|
    ensures r.Some? ==> p < r.value.next <= |b| && r.value.value < NUM_LEVELS
  {
    var v := GetVarint32(b, p, |b|);
    if v.None? || v.value.value >= NUM_LEVELS then None else v
  }

  function NumberAt(b: Bytes, p: nat): (r: Option<Parsed>)
    requires p <= |b|
    ensures r.Some? ==> p < r.value.next <= |b| && r.value.value < 0x1_0000_0000_0000_0000
  {
    GetVarint64(b, p, |b|)
  }

  datatype ParsedFile = ParsedFile(file: FileRecord, next: nat)

  function FileAt(b: Bytes, p: nat): (r: Option<ParsedFile>)
    requires p <= |b|
    ensures r.Some? ==> p < r.value.next <= |b|
  {
    var number := NumberAt(b, p);
    if number.None? then None
    else
      var size := NumberAt(b, number.value.next);
      if size.None? then None
      else
        var smallest := LengthPrefixedAt(b, size.value.next);
        if smallest.None? then None
        else
          var largest := LengthPrefixedAt(b, smallest.value.next);
          if largest.None? then None
          else Some(ParsedFile(FileRecord(number.value.value, size.value.value, smallest.value.bytes, largest.value.bytes), largest.value.next))
  }

  function NumberItem(tag: Word, number: Long): (r: Item)
    requires tag == 2 || tag == 3 || tag == 4 || tag == 9
    ensures TagOf(r) == tag
  {
    if tag == 2 then LogNumber(number) else if tag == 3 then NextFileNumber(number)
    else if tag == 4 then LastSequence(number) else PrevLogNumber(number)
  }

  /** What follows a tag, or None when it is not well formed or the tag is unknown. */
  function PayloadAt(b: Bytes, p: nat, tag: Word): (r: Option<ParsedItem>)
    requires p <= |b|
    ensures r.Some? ==> p < r.value.next <= |b|
  {
    if tag == 1 then
      var name := LengthPrefixedAt(b, p);
      if name.None? then None else Some(ParsedItem(ComparatorName(name.value.bytes), name.value.next))
    else if tag == 2 || tag == 3 || tag == 4 || tag == 9 then
      var number := NumberAt(b, p);
      if number.None? then None else Some(ParsedItem(NumberItem(tag, number.value.value), number.value.next))
    else if tag == 5 || tag == 6 || tag == 7 then
      var level := LevelAt(b, p);
      if level.None? then None
      else LeveledAt(b, level.value.next, tag, level.value.value)
    else None
  }

  function LeveledAt(b: Bytes, p: nat, tag: Word, level: Level): (r: Option<ParsedItem>)
    requires p <= |b| && (tag == 5 || tag == 6 || tag == 7)
    ensures r.Some? ==> p < r.value.next <= |b|
  {
    if tag == 5 then
      var key := LengthPrefixedAt(b, p);
      if key.None? then None else Some(ParsedItem(CompactPointer(level, key.value.bytes), key.value.next))
    else if tag == 6 then
      var number := NumberAt(b, p);
      if number.None? then None else Some(ParsedItem(DeletedFile(level, number.value.value), number.value.next))
    else
      var file := FileAt(b, p);
      if file.None? then None else Some(ParsedItem(NewFile(level, file.value.file), file.value.next))
  }

  /** What an item read does to the edit. */
  function Noted(r: EditRecord, item: Item): EditRecord {
    match item
    case ComparatorName(name) => r.(comparator := Some(name))
    case LogNumber(n) => r.(logNumber := Some(n))
    case PrevLogNumber(n) => r.(prevLogNumber := Some(n))
    case NextFileNumber(n) => r.(nextFileNumber := Some(n))
    case LastSequence(n) => r.(lastSequence := Some(n))
    case CompactPointer(level, key) => r.(compactPointers := Joined(r.compactPointers, [(level, key)]))
    case DeletedFile(level, number) => r.(deletedFiles := InsertPair(r.deletedFiles, (level, number)))
    case NewFile(level, file) => r.(newFiles := Joined(r.newFiles, [(level, file)]))
  }

  /** The edit read from `p` on into `r`, or None for a corrupt one. */
  function DecodeOn(b: Bytes, p: nat, r: EditRecord): Option<EditRecord>
    requires p <= |b|
    decreases |b| - p
  {
    if p == |b| then Some(r)
    else
      var tag := GetVarint32(b, p, |b|);
      if tag.None? then None
      else
        var parsed := PayloadAt(b, tag.value.next, tag.value.value);
        if parsed.None? then None else DecodeOn(b, parsed.value.next, Noted(r, parsed.value.item))
  }

  function Decode(b: Bytes): Option<EditRecord> {
    DecodeOn(b, 0, CLEAR)
  }

  // ----- The two methods -----

  method EncodeTo(r: EditRecord) returns (dst: Bytes)
    ensures dst == Encode(r)
  {
    hide Payload, EncodeItem, EncodeItems;
    dst := [];
    dst := AppendItems(dst, NumberItems(r));
    dst := AppendItems(dst, PointerItems(r.compactPointers, |r.compactPointers|));
    dst := AppendItems(dst, DeletedItems(r.deletedFiles, |r.deletedFiles|));
    dst := AppendItems(dst, NewFileItems(r.newFiles, |r.newFiles|));
    EncodedInOrder(r);
  }

  method AppendItems(start: Bytes, items: seq<Item>) returns (dst: Bytes)
    ensures dst == Joined(start, EncodeItems(items, |items|))
  {
    hide Payload;
    dst := start;
    JoinedNothing(start);
    for i := 0 to |items|
      invariant dst == Joined(start, EncodeItems(items, i))
    {
      JoinedAssociates(start, EncodeItems(items, i), EncodeItem(items[i]));
      dst := dst + PutVarint(TagOf(items[i]));
      dst := dst + Payload(items[i]);
      assert dst == Joined(Joined(start, EncodeItems(items, i)), EncodeItem(items[i]));
    }
  }

  method DecodeFrom(src: Bytes) returns (ok: bool, r: EditRecord)
    ensures ok <==> Decode(src).Some?
    ensures ok ==> r == Decode(src).value
  {
    hide PayloadAt, GetVarint32, Noted;
    ok, r := true, CLEAR;
    var input := 0;
    while input < |src|
      invariant input <= |src| && ok
      invariant Decode(src) == DecodeOn(src, input, r)
    {
      var tag := GetVarint32(src, input, |src|);
      if tag.None? {
        return false, r;
      }
      var parsed := PayloadAt(src, tag.value.next, tag.value.value);
      if parsed.None? {
        return false, r;
      }
      r := Noted(r, parsed.value.item);
      input := parsed.value.next;
    }
  }

  // ----- What was encoded is decoded -----

  /** Lengths are written as 32-bit numbers. */
  ghost predicate ItemFits(item: Item) {
    match item
    case ComparatorName(name) => |name| < 0x1_0000_0000
    case CompactPointer(_, key) => |key| < 0x1_0000_0000
    case NewFile(_, f) => |f.smallest| < 0x1_0000_0000 && |f.largest| < 0x1_0000_0000
    case _ => true
  }

  ghost predicate PointerFits(p: (Level, Bytes)) {
    |p.1| < 0x1_0000_0000
  }

  ghost predicate FileFits(p: (Level, FileRecord)) {
    |p.1.smallest| < 0x1_0000_0000 && |p.1.largest| < 0x1_0000_0000
  }

  ghost predicate Fits(r: EditRecord) {
    && Ascending(r.deletedFiles)
    && (r.comparator.Some? ==> |r.comparator.value| < 0x1_0000_0000)
    && (forall p :: p in r.compactPointers ==> PointerFits(p))
    && (forall p :: p in r.newFiles ==> FileFits(p))
  }

  ghost predicate AllFit(items: seq<Item>) {
    forall item :: item in items ==> ItemFits(item)
  }

  lemma {:induction false} JoinedFit(a: seq<Item>, b: seq<Item>)
    requires AllFit(a) && AllFit(b)
    ensures AllFit(Joined(a, b))
  {
  }

  lemma {:induction false} PointerItemsFit(pointers: seq<(Level, Bytes)>, n: nat)
    requires n <= |pointers| && forall p :: p in pointers ==> PointerFits(p)
    ensures AllFit(PointerItems(pointers, n))
  {
    if n > 0 {
      PointerItemsFit(pointers, n - 1);
      assert PointerFits(pointers[n - 1]);
      JoinedFit(PointerItems(pointers, n - 1), [CompactPointer(pointers[n - 1].0, pointers[n - 1].1)]);
    }
  }

  lemma {:induction false} DeletedItemsFit(deleted: seq<(Level, Long)>, n: nat)
    requires n <= |deleted|
    ensures AllFit(DeletedItems(deleted, n))
  {
    if n > 0 {
      DeletedItemsFit(deleted, n - 1);
      JoinedFit(DeletedItems(deleted, n - 1), [DeletedFile(deleted[n - 1].0, deleted[n - 1].1)]);
    }
  }

  lemma {:induction false} NewFileItemsFit(files: seq<(Level, FileRecord)>, n: nat)
    requires n <= |files| && forall p :: p in files ==> FileFits(p)
    ensures AllFit(NewFileItems(files, n))
  {
    if n > 0 {
      NewFileItemsFit(files, n - 1);
      assert FileFits(files[n - 1]);
      JoinedFit(NewFileItems(files, n - 1), [NewFile(files[n - 1].0, files[n - 1].1)]);
    }
  }

  lemma {:induction false} ItemsFit(r: EditRecord)
    requires Fits(r)
    ensures AllFit(Items(r))
  {
    hide PointerItems, DeletedItems, NewFileItems, NumberItems, Ascending, AllFit, Joined;
    PointerItemsFit(r.compactPointers, |r.compactPointers|);
    DeletedItemsFit(r.deletedFiles, |r.deletedFiles|);
    NewFileItemsFit(r.newFiles, |r.newFiles|);
    NumberItemsFit(r);
    JoinedFit(DeletedItems(r.deletedFiles, |r.deletedFiles|), NewFileItems(r.newFiles, |r.newFiles|));
    JoinedFit(PointerItems(r.compactPointers, |r.compactPointers|),
      Joined(DeletedItems(r.deletedFiles, |r.deletedFiles|), NewFileItems(r.newFiles, |r.newFiles|)));
    JoinedFit(NumberItems(r), FileItems(r));
  }

  lemma {:induction false} NumberItemsFit(r: EditRecord)
    requires r.comparator.Some? ==> |r.comparator.value| < 0x1_0000_0000
    ensures AllFit(NumberItems(r))
  {
    hide Joined;
    var c: seq<Item> := if r.comparator.Some? then [ComparatorName(r.comparator.value)] else [];
    var l: seq<Item> := if r.logNumber.Some? then [LogNumber(r.logNumber.value)] else [];
    var p: seq<Item> := if r.prevLogNumber.Some? then [PrevLogNumber(r.prevLogNumber.value)] else [];
    var n: seq<Item> := if r.nextFileNumber.Some? then [NextFileNumber(r.nextFileNumber.value)] else [];
    var s: seq<Item> := if r.lastSequence.Some? then [LastSequence(r.lastSequence.value)] else [];
    JoinedFit(n, s);
    JoinedFit(p, Joined(n, s));
    JoinedFit(l, Joined(p, Joined(n, s)));
    JoinedFit(c, Joined(l, Joined(p, Joined(n, s))));
  }

  lemma {:induction false} LevelReadsBack(b: Bytes, p: nat, level: Level)
    requires At(b, p, PutVarint(level))
    ensures LevelAt(b, p) == Some(Parsed(level, p + |PutVarint(level)|))
  {
    hide At, PutVarint, GetVarint32;
    AtLength(b, p, PutVarint(level));
    Varint32ReadsBack(b, p, |b|, level);
  }

  lemma {:induction false} NumberReadsBack(b: Bytes, p: nat, number: Long)
    requires At(b, p, PutVarint(number))
    ensures NumberAt(b, p) == Some(Parsed(number, p + |PutVarint(number)|))
  {
    hide At, PutVarint, GetVarint64;
    AtLength(b, p, PutVarint(number));
    Varint64ReadsBack(b, p, |b|, number);
  }

  lemma {:induction false} AtLength(b: Bytes, p: nat, bytes: Bytes)
    requires At(b, p, bytes)
    ensures p + |bytes| <= |b|
  {
  }

  lemma {:induction false} FileReadsBack(b: Bytes, p: nat, f: FileRecord)
    requires At(b, p, EncodeFile(f)) && |f.smallest| < 0x1_0000_0000 && |f.largest| < 0x1_0000_0000
    ensures FileAt(b, p) == Some(ParsedFile(f, p + |EncodeFile(f)|))
  {
    hide At, PutVarint, LengthPrefixed, LengthPrefixedAt, NumberAt;
    var rest := PutVarint(f.size) + (LengthPrefixed(f.smallest) + LengthPrefixed(f.largest));
    var p1 := p + |PutVarint(f.number)|;
    var p2 := p1 + |PutVarint(f.size)|;
    var p3 := p2 + |LengthPrefixed(f.smallest)|;
    AtSplit(b, p, EncodeFile(f), PutVarint(f.number), rest, p1);
    AtThree(b, p1, rest, PutVarint(f.size), LengthPrefixed(f.smallest), LengthPrefixed(f.largest));
    NumberReadsBack(b, p, f.number);
    NumberReadsBack(b, p1, f.size);
    LengthPrefixedReadsBack(b, p2, f.smallest);
    LengthPrefixedReadsBack(b, p3, f.largest);
    FileIsRead(b, p, f, p1, p2, p3, p3 + |LengthPrefixed(f.largest)|);
  }

  lemma {:induction false} FileIsRead(b: Bytes, p: nat, f: FileRecord, p1: nat, p2: nat, p3: nat, p4: nat)
    requires p <= p1 <= p2 <= |b| && NumberAt(b, p) == Some(Parsed(f.number, p1)) && NumberAt(b, p1) == Some(Parsed(f.size, p2))
    requires LengthPrefixedAt(b, p2) == Some(ParsedBytes(f.smallest, p3)) && LengthPrefixedAt(b, p3) == Some(ParsedBytes(f.largest, p4))
    ensures FileAt(b, p) == Some(ParsedFile(f, p4))
  {
    hide NumberAt, LengthPrefixedAt;
  }

  lemma {:induction false} PayloadReadsBack(b: Bytes, p: nat, item: Item)
    requires At(b, p, Payload(item)) && ItemFits(item)
    ensures p <= |b| && PayloadAt(b, p, TagOf(item)) == Some(ParsedItem(item, p + |Payload(item)|))
  {
    hide At, PutVarint, LengthPrefixed, LengthPrefixedAt, NumberAt, LevelAt, LeveledAt;
    AtLength(b, p, Payload(item));
    match item
    case ComparatorName(name) => LengthPrefixedReadsBack(b, p, name);
    case CompactPointer(level, key) => LeveledReadsBack(b, p, item);
    case DeletedFile(level, number) => LeveledReadsBack(b, p, item);
    case NewFile(level, f) => LeveledReadsBack(b, p, item);
    case _ => NumberReadsBack(b, p, item.number);
  }

  /** What follows the level. */
  function AfterLevel(item: Item): Bytes
    requires item.CompactPointer? || item.DeletedFile? || item.NewFile?
  {
    match item
    case CompactPointer(_, key) => LengthPrefixed(key)
    case DeletedFile(_, number) => PutVarint(number)
    case NewFile(_, f) => EncodeFile(f)
  }

  lemma {:induction false} LeveledReadsBack(b: Bytes, p: nat, item: Item)
    requires item.CompactPointer? || item.DeletedFile? || item.NewFile?
    requires At(b, p, Payload(item)) && ItemFits(item)
    ensures p <= |b| && PayloadAt(b, p, TagOf(item)) == Some(ParsedItem(item, p + |Payload(item)|))
  {
    hide At, PutVarint, LengthPrefixed, LengthPrefixedAt, NumberAt, LevelAt, EncodeFile, FileAt;
    var mid := p + |PutVarint(item.level)|;
    AtLength(b, p, Payload(item));
    AtSplit(b, p, Payload(item), PutVarint(item.level), AfterLevel(item), mid);
    AtLength(b, mid, AfterLevel(item));
    LevelReadsBack(b, p, item.level);
    match item
    case CompactPointer(level, key) => LengthPrefixedReadsBack(b, mid, key);
    case DeletedFile(level, number) => NumberReadsBack(b, mid, number);
    case NewFile(level, f) => FileReadsBack(b, mid, f);
  }

  /** One item further: what decoding goes on with. */
  lemma {:induction false} ItemReadsBack(b: Bytes, p: nat, item: Item, r: EditRecord)
    requires At(b, p, EncodeItem(item)) && ItemFits(item)
    ensures p + |EncodeItem(item)| <= |b|
    ensures DecodeOn(b, p, r) == DecodeOn(b, p + |EncodeItem(item)|, Noted(r, item))
  {
    hide At, PutVarint, Payload, PayloadAt, GetVarint32, Noted;
    var mid := p + |PutVarint(TagOf(item))|;
    AtLength(b, p, EncodeItem(item));
    AtSplit(b, p, EncodeItem(item), PutVarint(TagOf(item)), Payload(item), mid);
    AtLength(b, p, PutVarint(TagOf(item)));
    Varint32ReadsBack(b, p, |b|, TagOf(item));
    PayloadReadsBack(b, mid, item);
  }

  /** The first `n` items taken up one after the other. */
  function Collect(r: EditRecord, items: seq<Item>, n: nat): EditRecord
    requires n <= |items|
  {
    if n == 0 then r else Noted(Collect(r, items, n - 1), items[n - 1])
  }

  lemma {:induction false} ItemsReadBack(b: Bytes, p: nat, items: seq<Item>, n: nat, r: EditRecord)
    requires n <= |items| && At(b, p, EncodeItems(items, n)) && AllFit(items)
    ensures p + |EncodeItems(items, n)| <= |b|
    ensures DecodeOn(b, p, r) == DecodeOn(b, p + |EncodeItems(items, n)|, Collect(r, items, n))
  {
    hide At, EncodeItem, DecodeOn, Noted, ItemFits, Joined;
    if n == 0 {
      AtLength(b, p, EncodeItems(items, 0));
    } else {
      var before, last := EncodeItems(items, n - 1), EncodeItem(items[n - 1]);
      AtJoined(b, p, before, last);
      JoinedLength(before, last);
      ItemsReadBack(b, p, items, n - 1, r);
      ItemReadsBack(b, p + |before|, items[n - 1], Collect(r, items, n - 1));
    }
  }

  lemma {:induction false} ItemsOfPrefix(items: seq<Item>, more: seq<Item>, n: nat, r: EditRecord)
    requires n <= |items| <= |more| && forall i :: 0 <= i < |items| ==> more[i] == items[i]
    ensures EncodeItems(more, n) == EncodeItems(items, n) && Collect(r, more, n) == Collect(r, items, n)
  {
    hide EncodeItem, Joined, Noted;
    if n > 0 {
      ItemsOfPrefix(items, more, n - 1, r);
    }
  }

  /** Items appended: their encodings are appended, and they are taken up after the others. */
  lemma {:induction false} ItemsJoined(a: seq<Item>, b: seq<Item>, n: nat, r: EditRecord)
    requires n <= |b|
    ensures EncodeItems(Joined(a, b), |a| + n) == Joined(EncodeItems(a, |a|), EncodeItems(b, n))
    ensures Collect(r, Joined(a, b), |a| + n) == Collect(Collect(r, a, |a|), b, n)
  {
    hide EncodeItem, Noted;
    if n == 0 {
      ItemsOfPrefix(a, Joined(a, b), |a|, r);
      JoinedNothing(EncodeItems(a, |a|));
    } else {
      ItemsJoined(a, b, n - 1, r);
      JoinedAssociates(EncodeItems(a, |a|), EncodeItems(b, n - 1), EncodeItem(b[n - 1]));
      assert Joined(a, b)[|a| + n - 1] == b[n - 1];
    }
  }

  lemma {:induction false} AllItemsJoined(a: seq<Item>, b: seq<Item>, r: EditRecord)
    ensures EncodeItems(Joined(a, b), |Joined(a, b)|) == Joined(EncodeItems(a, |a|), EncodeItems(b, |b|))
    ensures Collect(r, Joined(a, b), |Joined(a, b)|) == Collect(Collect(r, a, |a|), b, |b|)
  {
    hide EncodeItems, Collect, Joined;
    JoinedLength(a, b);
    ItemsJoined(a, b, |b|, r);
  }

  lemma {:induction false} EncodedInOrder(r: EditRecord)
    ensures Encode(r) ==
      var numbers, pointers := NumberItems(r), PointerItems(r.compactPointers, |r.compactPointers|);
      var deleted, files := DeletedItems(r.deletedFiles, |r.deletedFiles|), NewFileItems(r.newFiles, |r.newFiles|);
      Joined(Joined(Joined(Joined([], EncodeItems(numbers, |numbers|)), EncodeItems(pointers, |pointers|)),
        EncodeItems(deleted, |deleted|)), EncodeItems(files, |files|))
  {
    hide EncodeItems, NumberItems, PointerItems, DeletedItems, NewFileItems;
    var numbers, pointers := NumberItems(r), PointerItems(r.compactPointers, |r.compactPointers|);
    var deleted, files := DeletedItems(r.deletedFiles, |r.deletedFiles|), NewFileItems(r.newFiles, |r.newFiles|);
    AllItemsJoined(numbers, FileItems(r), r);
    AllItemsJoined(pointers, Joined(deleted, files), r);
    AllItemsJoined(deleted, files, r);
    JoinedAssociates(EncodeItems(numbers, |numbers|), EncodeItems(pointers, |pointers|),
      Joined(EncodeItems(deleted, |deleted|), EncodeItems(files, |files|)));
    JoinedAssociates(Joined(EncodeItems(numbers, |numbers|), EncodeItems(pointers, |pointers|)),
      EncodeItems(deleted, |deleted|), EncodeItems(files, |files|));
  }

  lemma {:induction false} PointersCollect(r: EditRecord, pointers: seq<(Level, Bytes)>, n: nat)
    requires n <= |pointers| && r.compactPointers == []
    ensures Collect(r, PointerItems(pointers, n), n) == r.(compactPointers := pointers[..n])
  {
    hide PutVarint, EncodeItem, EncodeItems;
    if n > 0 {
      var item := CompactPointer(pointers[n - 1].0, pointers[n - 1].1);
      PointersCollect(r, pointers, n - 1);
      ItemsJoined(PointerItems(pointers, n - 1), [item], 0, r);
      assert pointers[..n] == Joined(pointers[..n - 1], [pointers[n - 1]]);
    }
  }

  lemma {:induction false} DeletedCollect(r: EditRecord, deleted: seq<(Level, Long)>, n: nat)
    requires n <= |deleted| && r.deletedFiles == [] && Ascending(deleted)
    ensures Collect(r, DeletedItems(deleted, n), n) == r.(deletedFiles := deleted[..n])
  {
    hide PutVarint, EncodeItem, EncodeItems;
    if n > 0 {
      var item := DeletedFile(deleted[n - 1].0, deleted[n - 1].1);
      DeletedCollect(r, deleted, n - 1);
      ItemsJoined(DeletedItems(deleted, n - 1), [item], 0, r);
      LargestGoesLast(deleted[..n - 1], deleted[n - 1]);
      assert deleted[..n] == deleted[..n - 1] + [deleted[n - 1]];
    }
  }

  lemma {:induction false} NewFilesCollect(r: EditRecord, files: seq<(Level, FileRecord)>, n: nat)
    requires n <= |files| && r.newFiles == []
    ensures Collect(r, NewFileItems(files, n), n) == r.(newFiles := files[..n])
  {
    hide PutVarint, EncodeItem, EncodeItems;
    if n > 0 {
      var item := NewFile(files[n - 1].0, files[n - 1].1);
      NewFilesCollect(r, files, n - 1);
      ItemsJoined(NewFileItems(files, n - 1), [item], 0, r);
      assert files[..n] == Joined(files[..n - 1], [files[n - 1]]);
    }
  }

  lemma {:induction false} OneCollects(r: EditRecord, item: Item)
    ensures Collect(r, [item], 1) == Noted(r, item)
  {
    hide Noted;
    assert Collect(r, [item], 0) == r;
  }

  lemma {:induction false} NumbersCollect(r: EditRecord)
    ensures Collect(CLEAR, NumberItems(r), |NumberItems(r)|) ==
              EditRecord(r.comparator, r.logNumber, r.prevLogNumber, r.nextFileNumber, r.lastSequence, [], [], [])
  {
    hide Joined, Collect;
    var c: seq<Item> := if r.comparator.Some? then [ComparatorName(r.comparator.value)] else [];
    var l: seq<Item> := if r.logNumber.Some? then [LogNumber(r.logNumber.value)] else [];
    var p: seq<Item> := if r.prevLogNumber.Some? then [PrevLogNumber(r.prevLogNumber.value)] else [];
    var n: seq<Item> := if r.nextFileNumber.Some? then [NextFileNumber(r.nextFileNumber.value)] else [];
    var s: seq<Item> := if r.lastSequence.Some? then [LastSequence(r.lastSequence.value)] else [];
    var r1 := CLEAR.(comparator := r.comparator);
    var r2 := r1.(logNumber := r.logNumber);
    var r3 := r2.(prevLogNumber := r.prevLogNumber);
    var r4 := r3.(nextFileNumber := r.nextFileNumber);
    AllItemsJoined(c, Joined(l, Joined(p, Joined(n, s))), CLEAR);
    AllItemsJoined(l, Joined(p, Joined(n, s)), r1);
    AllItemsJoined(p, Joined(n, s), r2);
    AllItemsJoined(n, s, r3);
    OptionalCollects(CLEAR, c);
    OptionalCollects(r1, l);
    OptionalCollects(r2, p);
    OptionalCollects(r3, n);
    OptionalCollects(r4, s);
  }

  lemma {:induction false} OptionalCollects(r: EditRecord, items: seq<Item>)
    requires |items| <= 1
    ensures Collect(r, items, |items|) == if items == [] then r else Noted(r, items[0])
  {
    hide Noted;
    if items != [] {
      OneCollects(r, items[0]);
      assert items == [items[0]];
    }
  }

  /** Taking up all items of an edit rebuilds it. */
  lemma {:induction false} ItemsCollect(r: EditRecord)
    requires Ascending(r.deletedFiles)
    ensures Collect(CLEAR, Items(r), |Items(r)|) == r
  {
    hide Joined, Collect, NumberItems, PointerItems, DeletedItems, NewFileItems, Ascending;
    var pointers := PointerItems(r.compactPointers, |r.compactPointers|);
    var deleted := DeletedItems(r.deletedFiles, |r.deletedFiles|);
    var files := NewFileItems(r.newFiles, |r.newFiles|);
    var r0 := EditRecord(r.comparator, r.logNumber, r.prevLogNumber, r.nextFileNumber, r.lastSequence, [], [], []);
    var r1 := r0.(compactPointers := r.compactPointers);
    var r2 := r1.(deletedFiles := r.deletedFiles);
    AllItemsJoined(NumberItems(r), FileItems(r), CLEAR);
    NumbersCollect(r);
    AllItemsJoined(pointers, Joined(deleted, files), r0);
    PointersCollect(r0, r.compactPointers, |r.compactPointers|);
    AllItemsJoined(deleted, files, r1);
    DeletedCollect(r1, r.deletedFiles, |r.deletedFiles|);
    NewFilesCollect(r2, r.newFiles, |r.newFiles|);
    assert r.compactPointers[..|r.compactPointers|] == r.compactPointers;
    assert r.deletedFiles[..|r.deletedFiles|] == r.deletedFiles;
    assert r.newFiles[..|r.newFiles|] == r.newFiles;
  }

  /** DecodeFrom undoes EncodeTo. */
  lemma {:induction false} EditReadsBack(r: EditRecord)
    requires Fits(r)
    ensures Decode(Encode(r)) == Some(r)
  {
    hide At, EncodeItems, Collect, Items, AllFit;
    var b := Encode(r);
    ItemsFit(r);
    assert b[0..0 + |b|] == b;
    SliceAt(b, 0, b);
    ItemsReadBack(b, 0, Items(r), |Items(r)|, CLEAR);
    ItemsCollect(r);
    DecodingEnds(b, r);
  }

  lemma {:induction false} DecodingEnds(b: Bytes, r: EditRecord)
    ensures DecodeOn(b, |b|, r) == Some(r)
  {
  }
}
