/**
 * CRC32C (section 12.1 of RFC 3720): the four-stride loop computes the bit-at-a-time remainder.
 * The lookup tables are given by the equations that their entries satisfy.
 */
module Crc32c {

  /** A map on remainders, such as taking in some zero bits. */
  type Advance = bv32 -> bv32

  /** Adding remainders, and the maps that take in one, four and sixteen zero bytes. */
  datatype Zeros = Zeros(plus: (bv32, bv32) -> bv32, byte: Advance, word: Advance, stride: Advance)

  // ----- Laws, one instance at a time -----

  ghost predicate LinearAt(z: Zeros, f: Advance, a: bv32, b: bv32) {
    f(z.plus(a, b)) == z.plus(f(a), f(b))
  }

  ghost predicate Linear(z: Zeros, f: Advance) {
    forall a, b :: LinearAt(z, f, a, b)
  }

  ghost predicate XorAt(z: Zeros, a: bv32, b: bv32) {
    z.plus(a, b) == a ^ b
  }

  ghost predicate SumsAt(z: Zeros, a: bv32, b: bv32, c: bv32) {
    && z.plus(z.plus(a, b), c) == z.plus(a, z.plus(b, c))
    && z.plus(a, b) == z.plus(b, a)
    && z.plus(z.plus(a, b), b) == a
    && z.plus(0, a) == a
  }

  /** A byte above the lowest one only moves down. */
  ghost predicate ShiftsAt(f: Advance, l: bv32) {
    l & 0xff == 0 ==> f(l) == l >> 8
  }

  ghost predicate FourTimesAt(g: Advance, f: Advance, l: bv32) {
    g(l) == f(f(f(f(l))))
  }

  ghost predicate Lawful(z: Zeros) {
    && (forall a, b :: XorAt(z, a, b))
    && (forall a, b, c :: SumsAt(z, a, b, c))
    && Linear(z, z.byte) && Linear(z, z.word) && Linear(z, z.stride)
    && (forall l :: ShiftsAt(z.byte, l))
    && (forall l :: FourTimesAt(z.word, z.byte, l))
    && (forall l :: FourTimesAt(z.stride, z.word, l))
  }

  // ----- What is computed -----

  const CRC32_XOR: bv32 := 0xffff_ffff

  /** The remainder after one more byte. */
  function ByteStep(z: Zeros, l: bv32, b: bv8): bv32 {
    z.byte(z.plus(l, b as bv32))
  }

  function Remainder(z: Zeros, l: bv32, data: seq<bv8>): bv32 {
    if data == [] then l else ByteStep(z, Remainder(z, l, data[..|data| - 1]), data[|data| - 1])
  }

  /** The CRC of `data` after what `crc` stands for. */
  function Crc(z: Zeros, crc: bv32, data: seq<bv8>): bv32 {
    z.plus(Remainder(z, z.plus(crc, CRC32_XOR), data), CRC32_XOR)
  }

  lemma {:induction false} RemainderAppends(z: Zeros, l: bv32, a: seq<bv8>, b: seq<bv8>)
    ensures Remainder(z, l, a + b) == Remainder(z, Remainder(z, l, a), b)
  {
    if b == [] {
      assert a + b == a;
    } else {
      RemainderAppends(z, l, a, b[..|b| - 1]);
      assert (a + b)[..|a + b| - 1] == a + b[..|b| - 1];
    }
  }

  /** A CRC can be computed piece by piece. */
  lemma CrcAppends(z: Zeros, crc: bv32, a: seq<bv8>, b: seq<bv8>)
    requires Lawful(z)
    ensures Crc(z, crc, a + b) == Crc(z, Crc(z, crc, a), b)
  {
    RemainderAppends(z, z.plus(crc, CRC32_XOR), a, b);
    assert SumsAt(z, Remainder(z, z.plus(crc, CRC32_XOR), a), CRC32_XOR, 0);
  }

  // ----- Four bytes make a word -----

  /** Adding `b` after a zero byte is adding `c`, which that byte moves down to `b`, before it. */
  lemma AddEarlier(z: Zeros, f: Advance, l: bv32, b: bv32, c: bv32)
    requires Linear(z, f) && f(c) == b
    ensures z.plus(f(l), b) == f(z.plus(l, c))
  {
    assert LinearAt(z, f, l, c);
  }

  lemma AddBefore(z: Zeros, l: bv32, b: bv32, c: bv32)
    requires Lawful(z) && z.byte(c) == b
    ensures z.plus(z.byte(l), b) == z.byte(z.plus(l, c))
  {
    AddEarlier(z, z.byte, l, b, c);
  }

  lemma AddTwoBefore(z: Zeros, l: bv32, b: bv32, c: bv32)
    requires Lawful(z) && z.byte(z.byte(c)) == b
    ensures z.plus(z.byte(z.byte(l)), b) == z.byte(z.byte(z.plus(l, c)))
  {
    AddBefore(z, z.byte(l), b, z.byte(c));
    AddBefore(z, l, z.byte(c), c);
  }

  lemma AddThreeBefore(z: Zeros, l: bv32, b: bv32, c: bv32)
    requires Lawful(z) && z.byte(z.byte(z.byte(c))) == b
    ensures z.plus(z.byte(z.byte(z.byte(l))), b) == z.byte(z.byte(z.byte(z.plus(l, c))))
  {
    AddBefore(z, z.byte(z.byte(l)), b, z.byte(z.byte(c)));
    AddTwoBefore(z, l, z.byte(z.byte(c)), c);
  }

  /** Four bytes are taken in like one word, c1, c2 and c3 being the last three in their lanes. */
  lemma WordStep(z: Zeros, l: bv32, b0: bv32, b1: bv32, b2: bv32, b3: bv32, c1: bv32, c2: bv32, c3: bv32)
    requires Lawful(z)
    requires z.byte(c1) == b1 && z.byte(z.byte(c2)) == b2 && z.byte(z.byte(z.byte(c3))) == b3
    ensures z.byte(z.plus(z.byte(z.plus(z.byte(z.plus(z.byte(z.plus(l, b0)), b1)), b2)), b3)) ==
            z.word(z.plus(z.plus(z.plus(z.plus(l, b0), c1), c2), c3))
  {
    var l0 := z.plus(l, b0);
    var l1 := z.plus(l0, c1);
    var l2 := z.plus(l1, c2);
    AddBefore(z, l0, b1, c1);
    AddTwoBefore(z, l1, b2, c2);
    AddThreeBefore(z, l2, b3, c3);
    assert FourTimesAt(z.word, z.byte, z.plus(l2, c3));
  }

  lemma SumOfFive(z: Zeros, l: bv32, b: bv32, c: bv32, d: bv32, e: bv32)
    requires Lawful(z)
    ensures z.plus(z.plus(z.plus(z.plus(l, b), c), d), e) == z.plus(l, z.plus(z.plus(z.plus(b, c), d), e))
  {
    assert SumsAt(z, l, b, c);
    assert SumsAt(z, l, z.plus(b, c), d);
    assert SumsAt(z, l, z.plus(z.plus(b, c), d), e);
  }

  // ----- Four strides -----

  /** The remainder that four partial results stand for, `crc0` being the oldest word. */
  function Combined(z: Zeros, crc0: bv32, crc1: bv32, crc2: bv32, crc3: bv32): bv32 {
    z.word(z.plus(z.word(z.plus(z.word(z.plus(z.word(crc0), crc1)), crc2)), crc3))
  }

  /** A linear map takes a common summand out of a Horner step. */
  lemma Push(z: Zeros, x: bv32, y: bv32, c: bv32)
    requires Lawful(z)
    ensures z.word(z.plus(z.plus(x, y), c)) == z.plus(z.word(x), z.word(z.plus(y, c)))
  {
    assert SumsAt(z, x, y, c);
    assert LinearAt(z, z.word, x, z.plus(y, c));
  }

  /** The oldest partial result counts a stride more than the rest. */
  lemma CombinedSplits(z: Zeros, c0: bv32, c1: bv32, c2: bv32, c3: bv32)
    requires Lawful(z)
    ensures Combined(z, c0, c1, c2, c3) == z.plus(z.stride(c0), z.word(z.plus(z.word(z.plus(z.word(c1), c2)), c3)))
  {
    var w1 := z.word(c0);
    var w2 := z.word(w1);
    var w3 := z.word(w2);
    assert LinearAt(z, z.word, w1, c1);
    Push(z, w2, z.word(c1), c2);
    Push(z, w3, z.word(z.plus(z.word(c1), c2)), c3);
    assert FourTimesAt(z.stride, z.word, c0);
  }

  /** Advancing the oldest partial result by a stride and making it the newest takes in one word. */
  lemma StrideStep(z: Zeros, c0: bv32, c1: bv32, c2: bv32, c3: bv32, w: bv32)
    requires Lawful(z)
    ensures Combined(z, c1, c2, c3, z.plus(w, z.stride(c0))) == z.word(z.plus(Combined(z, c0, c1, c2, c3), w))
  {
    CombinedSplits(z, c0, c1, c2, c3);
    var s, y := z.stride(c0), z.word(z.plus(z.word(z.plus(z.word(c1), c2)), c3));
    assert SumsAt(z, y, w, s);
    assert SumsAt(z, z.plus(y, w), s, 0);
    assert SumsAt(z, s, y, w);
  }

  // ----- The lookup tables and the words of the code -----

  /** kByteExtensionTable and kStrideExtensionTable0 to 3. */
  datatype Tables = Tables(byte: Advance, stride0: Advance, stride1: Advance, stride2: Advance, stride3: Advance)

  /** The byte table takes in a zero byte; the stride tables advance a byte in each lane by 16 zero bytes. */
  ghost predicate EntryAt(t: Tables, z: Zeros, c: bv32) {
    c <= 0xff ==>
      && t.byte(c) == z.byte(c)
      && t.stride3(c) == z.stride(c)
      && t.stride2(c) == z.stride(c << 8)
      && t.stride1(c) == z.stride(c << 16)
      && t.stride0(c) == z.stride(c << 24)
  }

  ghost predicate TablesFor(t: Tables, z: Zeros) {
    forall c :: EntryAt(t, z, c)
  }

  lemma ByteEntry(t: Tables, z: Zeros, l: bv32)
    requires TablesFor(t, z)
    ensures t.byte(l & 0xff) == z.byte(l & 0xff)
  {
    assert EntryAt(t, z, l & 0xff);
  }

  lemma StrideEntries(t: Tables, z: Zeros, l: bv32)
    requires TablesFor(t, z)
    ensures t.stride3(l & 0xff) == z.stride(l & 0xff)
    ensures t.stride2((l >> 8) & 0xff) == z.stride(((l >> 8) & 0xff) << 8)
    ensures t.stride1((l >> 16) & 0xff) == z.stride(((l >> 16) & 0xff) << 16)
    ensures t.stride0(l >> 24) == z.stride((l >> 24) << 24)
  {
    assert EntryAt(t, z, l & 0xff);
    assert EntryAt(t, z, (l >> 8) & 0xff);
    assert EntryAt(t, z, (l >> 16) & 0xff);
    assert EntryAt(t, z, l >> 24);
  }

  method Xor(ghost z: Zeros, a: bv32, b: bv32) returns (c: bv32)
    requires Lawful(z)
    ensures c == z.plus(a, b) == a ^ b
  {
    c := a ^ b;
    assert XorAt(z, a, b);
  }

  lemma SplitLowByte(l: bv32)
    ensures (l & 0xff) ^ (l & 0xffff_ff00) == l
    ensures (l & 0xffff_ff00) & 0xff == 0 && (l & 0xffff_ff00) >> 8 == l >> 8
  {
  }

  lemma LowByteSplits(z: Zeros, l: bv32)
    requires Lawful(z)
    ensures z.plus(l & 0xff, l & 0xffff_ff00) == l
  {
    SplitLowByte(l);
    assert XorAt(z, l & 0xff, l & 0xffff_ff00);
  }

  lemma RestShifts(z: Zeros, l: bv32)
    requires Lawful(z)
    ensures z.byte(l & 0xffff_ff00) == l >> 8
  {
    SplitLowByte(l);
    assert ShiftsAt(z.byte, l & 0xffff_ff00);
  }

  lemma PartsAdvance(z: Zeros, l: bv32, low: bv32, rest: bv32, shifted: bv32)
    requires Lawful(z) && z.plus(low, rest) == l && z.byte(rest) == shifted
    ensures z.plus(z.byte(low), shifted) == z.byte(l)
  {
    assert LinearAt(z, z.byte, low, rest);
  }

  /** One lookup takes in a zero byte. */
  lemma TableStep(z: Zeros, l: bv32)
    requires Lawful(z)
    ensures z.plus(z.byte(l & 0xff), l >> 8) == z.byte(l)
  {
    LowByteSplits(z, l);
    RestShifts(z, l);
    PartsAdvance(z, l, l & 0xff, l & 0xffff_ff00, l >> 8);
  }

  lemma LowByte(l: bv32, b: bv8)
    ensures (l & 0xff) ^ (b as bv32) == (l ^ (b as bv32)) & 0xff
    ensures l >> 8 == (l ^ (b as bv32)) >> 8
  {
  }

  method Step1(ghost z: Zeros, t: Tables, l0: bv32, b: bv8) returns (l: bv32)
    requires Lawful(z) && TablesFor(t, z)
    ensures l == ByteStep(z, l0, b)
  {
    var c := Xor(z, l0 & 0xff, b as bv32);
    ghost var m := l0 ^ (b as bv32);
    LowByte(l0, b);
    assert XorAt(z, l0, b as bv32);
    ByteEntry(t, z, m);
    TableStep(z, m);
    l := Xor(z, t.byte(c), l0 >> 8);
  }

  /** The loop of STEP4W: a word that has taken in `l`, advanced by four zero bytes. */
  method Step4W(ghost z: Zeros, t: Tables, w0: bv32, l0: bv32) returns (l: bv32)
    requires Lawful(z) && TablesFor(t, z)
    ensures l == z.word(z.plus(w0, l0))
  {
    var w := Xor(z, w0, l0);
    w := ZeroByteStep(z, t, w);
    w := ZeroByteStep(z, t, w);
    w := ZeroByteStep(z, t, w);
    w := ZeroByteStep(z, t, w);
    assert FourTimesAt(z.word, z.byte, z.plus(w0, l0));
    l := w;
  }

  method ZeroByteStep(ghost z: Zeros, t: Tables, w: bv32) returns (r: bv32)
    requires Lawful(z) && TablesFor(t, z)
    ensures r == z.byte(w)
  {
    ByteEntry(t, z, w);
    TableStep(z, w);
    r := Xor(z, w >> 8, t.byte(w & 0xff));
    assert SumsAt(z, w >> 8, z.byte(w & 0xff), 0);
  }

  // ----- Words read from the data -----

  /** ReadUint32LE. */
  function ReadWord(data: seq<bv8>, p: nat): bv32
    requires p + 4 <= |data|
  {
    Word(data[p], data[p + 1], data[p + 2], data[p + 3])
  }

  function Word(b0: bv8, b1: bv8, b2: bv8, b3: bv8): bv32 {
    (b0 as bv32) | ((b1 as bv32) << 8) | ((b2 as bv32) << 16) | ((b3 as bv32) << 24)
  }

  lemma WordXors(b0: bv8, b1: bv8, b2: bv8, b3: bv8)
    ensures Word(b0, b1, b2, b3) == (b0 as bv32) ^ ((b1 as bv32) << 8) ^ ((b2 as bv32) << 16) ^ ((b3 as bv32) << 24)
  {
  }

  lemma ThreeXors(z: Zeros, a: bv32, b: bv32, c: bv32, d: bv32)
    requires Lawful(z)
    ensures z.plus(z.plus(z.plus(a, b), c), d) == a ^ b ^ c ^ d
  {
    assert XorAt(z, a, b);
    assert XorAt(z, a ^ b, c);
    assert XorAt(z, a ^ b ^ c, d);
  }

  lemma LanesComeDown(z: Zeros, b1: bv8, b2: bv8, b3: bv8)
    requires Lawful(z)
    ensures z.byte((b1 as bv32) << 8) == b1 as bv32
    ensures z.byte(z.byte((b2 as bv32) << 16)) == b2 as bv32
    ensures z.byte(z.byte(z.byte((b3 as bv32) << 24))) == b3 as bv32
  {
    LaneComesDown(z, b1 as bv32, (b1 as bv32) << 8);
    LaneComesDown(z, (b2 as bv32) << 8, (b2 as bv32) << 16);
    LaneComesDown(z, b2 as bv32, (b2 as bv32) << 8);
    LaneComesDown(z, (b3 as bv32) << 16, (b3 as bv32) << 24);
    LaneComesDown(z, (b3 as bv32) << 8, (b3 as bv32) << 16);
    LaneComesDown(z, b3 as bv32, (b3 as bv32) << 8);
  }

  lemma LaneComesDown(z: Zeros, b: bv32, c: bv32)
    requires Lawful(z) && c & 0xff == 0 && c >> 8 == b
    ensures z.byte(c) == b
  {
    assert ShiftsAt(z.byte, c);
  }

  /** Four bytes of the data are taken in like the word read from them. */
  lemma RemainderWord(z: Zeros, l: bv32, data: seq<bv8>, p: nat)
    requires Lawful(z) && p + 4 <= |data|
    ensures Remainder(z, l, data[..p + 4]) == z.word(z.plus(Remainder(z, l, data[..p]), ReadWord(data, p)))
  {
    FourBytes(z, l, data, p);
    BytesAreWord(z, Remainder(z, l, data[..p]), data[p], data[p + 1], data[p + 2], data[p + 3]);
  }

  lemma FourBytes(z: Zeros, l: bv32, data: seq<bv8>, p: nat)
    requires p + 4 <= |data|
    ensures Remainder(z, l, data[..p + 4]) ==
            ByteStep(z, ByteStep(z, ByteStep(z, ByteStep(z, Remainder(z, l, data[..p]), data[p]), data[p + 1]), data[p + 2]), data[p + 3])
  {
    OneByte(z, l, data, p);
    OneByte(z, l, data, p + 1);
    OneByte(z, l, data, p + 2);
    OneByte(z, l, data, p + 3);
  }

  lemma OneByte(z: Zeros, l: bv32, data: seq<bv8>, p: nat)
    requires p < |data|
    ensures Remainder(z, l, data[..p + 1]) == ByteStep(z, Remainder(z, l, data[..p]), data[p])
  {
    assert data[..p + 1][..p] == data[..p];
  }

  lemma BytesAreWord(z: Zeros, l: bv32, b0: bv8, b1: bv8, b2: bv8, b3: bv8)
    requires Lawful(z)
    ensures ByteStep(z, ByteStep(z, ByteStep(z, ByteStep(z, l, b0), b1), b2), b3) == z.word(z.plus(l, Word(b0, b1, b2, b3)))
  {
    LanesComeDown(z, b1, b2, b3);
    WordStep(z, l, b0 as bv32, b1 as bv32, b2 as bv32, b3 as bv32, (b1 as bv32) << 8, (b2 as bv32) << 16, (b3 as bv32) << 24);
    SumOfFive(z, l, b0 as bv32, (b1 as bv32) << 8, (b2 as bv32) << 16, (b3 as bv32) << 24);
    WordIsSum(z, b0, b1, b2, b3);
  }

  lemma WordIsSum(z: Zeros, b0: bv8, b1: bv8, b2: bv8, b3: bv8)
    requires Lawful(z)
    ensures z.plus(z.plus(z.plus(b0 as bv32, (b1 as bv32) << 8), (b2 as bv32) << 16), (b3 as bv32) << 24) == Word(b0, b1, b2, b3)
  {
    ThreeXors(z, b0 as bv32, (b1 as bv32) << 8, (b2 as bv32) << 16, (b3 as bv32) << 24);
    WordXors(b0, b1, b2, b3);
  }

  // ----- The loops -----

  lemma Lanes(c: bv32)
    ensures c == (c & 0xff) ^ (((c >> 8) & 0xff) << 8) ^ (((c >> 16) & 0xff) << 16) ^ ((c >> 24) << 24)
  {
  }

  lemma LanesAdvance(z: Zeros, c: bv32, c3: bv32, c2: bv32, c1: bv32, c0: bv32)
    requires Lawful(z) && z.plus(z.plus(z.plus(c3, c2), c1), c0) == c
    ensures z.plus(z.plus(z.plus(z.stride(c3), z.stride(c2)), z.stride(c1)), z.stride(c0)) == z.stride(c)
  {
    assert LinearAt(z, z.stride, c3, c2);
    assert LinearAt(z, z.stride, z.plus(c3, c2), c1);
    assert LinearAt(z, z.stride, z.plus(z.plus(c3, c2), c1), c0);
  }

  /** Four lookups advance a word by 16 zero bytes. */
  lemma StrideTables(z: Zeros, c: bv32)
    requires Lawful(z)
    ensures z.plus(z.plus(z.plus(z.stride(c & 0xff), z.stride(((c >> 8) & 0xff) << 8)), z.stride(((c >> 16) & 0xff) << 16)),
                   z.stride((c >> 24) << 24)) == z.stride(c)
  {
    ThreeXors(z, c & 0xff, ((c >> 8) & 0xff) << 8, ((c >> 16) & 0xff) << 16, (c >> 24) << 24);
    Lanes(c);
    LanesAdvance(z, c, c & 0xff, ((c >> 8) & 0xff) << 8, ((c >> 16) & 0xff) << 16, (c >> 24) << 24);
  }

  method Step4(ghost z: Zeros, t: Tables, crc: bv32, w: bv32) returns (r: bv32)
    requires Lawful(z) && TablesFor(t, z)
    ensures r == z.plus(w, z.stride(crc))
  {
    r := Xor(z, w, t.stride3(crc & 0xff));
    r := Xor(z, r, t.stride2((crc >> 8) & 0xff));
    r := Xor(z, r, t.stride1((crc >> 16) & 0xff));
    r := Xor(z, r, t.stride0(crc >> 24));
    StrideEntries(t, z, crc);
    StrideTables(z, crc);
    SumOfFive(z, w, t.stride3(crc & 0xff), t.stride2((crc >> 8) & 0xff), t.stride1((crc >> 16) & 0xff), t.stride0(crc >> 24));
  }

  /** `crc0`..`crc3` stand for the remainder of the first `p` bytes. */
  ghost predicate Strides(z: Zeros, l: bv32, data: seq<bv8>, p: nat, crc0: bv32, crc1: bv32, crc2: bv32, crc3: bv32)
    requires p <= |data|
  {
    Remainder(z, l, data[..p]) == Combined(z, crc0, crc1, crc2, crc3)
  }

  lemma StridesAdvance(z: Zeros, l: bv32, data: seq<bv8>, p: nat, c0: bv32, c1: bv32, c2: bv32, c3: bv32)
    requires Lawful(z) && p + 4 <= |data| && Strides(z, l, data, p, c0, c1, c2, c3)
    ensures Strides(z, l, data, p + 4, c1, c2, c3, z.plus(ReadWord(data, p), z.stride(c0)))
  {
    RemainderWord(z, l, data, p);
    StrideStep(z, c0, c1, c2, c3, ReadWord(data, p));
  }

  /** Loading the first 16 bytes, the first word having taken in what was there before. */
  lemma StridesStart(z: Zeros, l: bv32, data: seq<bv8>, p: nat)
    requires Lawful(z) && p + 16 <= |data|
    ensures Strides(z, l, data, p + 16, z.plus(ReadWord(data, p), Remainder(z, l, data[..p])),
                    ReadWord(data, p + 4), ReadWord(data, p + 8), ReadWord(data, p + 12))
  {
    RemainderWord(z, l, data, p);
    RemainderWord(z, l, data, p + 4);
    RemainderWord(z, l, data, p + 8);
    RemainderWord(z, l, data, p + 12);
    assert SumsAt(z, Remainder(z, l, data[..p]), ReadWord(data, p), 0);
  }

  /** `address` is where `data` starts in memory; only its alignment matters. */
  method Extend(ghost z: Zeros, t: Tables, crc: bv32, data: seq<bv8>, address: nat) returns (r: bv32)
    requires Lawful(z) && TablesFor(t, z)
    ensures r == Crc(z, crc, data)
  {
    var l := Xor(z, crc, CRC32_XOR);
    ghost var l0 := l;
    var p := 0;
    var x := (4 - address % 4) % 4;
    if x <= |data| {
      l, p := Step1s(z, t, l0, l, data, p, x);
    }
    if |data| - p >= 16 {
      l, p := WordSteps(z, t, l0, l, data, p);
    }
    l, p := Step1s(z, t, l0, l, data, p, |data|);
    assert data[..|data|] == data;
    r := Xor(z, l, CRC32_XOR);
  }

  /** STEP1 up to byte `end`. */
  method Step1s(ghost z: Zeros, t: Tables, ghost l0: bv32, l1: bv32, data: seq<bv8>, start: nat, end: nat) returns (l: bv32, p: nat)
    requires Lawful(z) && TablesFor(t, z)
    requires start <= end <= |data| && l1 == Remainder(z, l0, data[..start])
    ensures p == end && l == Remainder(z, l0, data[..p])
  {
    l, p := l1, start;
    while p != end
      invariant start <= p <= end && l == Remainder(z, l0, data[..p])
    {
      OneByte(z, l0, data, p);
      l := Step1(z, t, l, data[p]);
      p := p + 1;
    }
  }

  /** The four strides, and their combination. */
  method WordSteps(ghost z: Zeros, t: Tables, ghost l0: bv32, l1: bv32, data: seq<bv8>, start: nat) returns (l: bv32, p: nat)
    requires Lawful(z) && TablesFor(t, z)
    requires start + 16 <= |data| && l1 == Remainder(z, l0, data[..start])
    ensures start <= p <= |data| && |data| - p < 4 && l == Remainder(z, l0, data[..p])
  {
    p := start;
    StridesStart(z, l0, data, p);
    var crc0 := Xor(z, ReadWord(data, p), l1);
    var crc1 := ReadWord(data, p + 4);
    var crc2 := ReadWord(data, p + 8);
    var crc3 := ReadWord(data, p + 12);
    p := p + 16;
    while |data| - p >= 16
      invariant start <= p <= |data| && Strides(z, l0, data, p, crc0, crc1, crc2, crc3)
    {
      crc0, crc1, crc2, crc3 := Step16(z, t, l0, data, p, crc0, crc1, crc2, crc3);
      p := p + 16;
    }
    while |data| - p >= 4
      invariant start <= p <= |data| && Strides(z, l0, data, p, crc0, crc1, crc2, crc3)
    {
      StridesAdvance(z, l0, data, p, crc0, crc1, crc2, crc3);
      crc0 := Step4(z, t, crc0, ReadWord(data, p));
      crc0, crc1, crc2, crc3 := crc1, crc2, crc3, crc0;
      p := p + 4;
    }
    l := CombineStrides(z, t, crc0, crc1, crc2, crc3);
  }

  method CombineStrides(ghost z: Zeros, t: Tables, crc0: bv32, crc1: bv32, crc2: bv32, crc3: bv32) returns (l: bv32)
    requires Lawful(z) && TablesFor(t, z)
    ensures l == Combined(z, crc0, crc1, crc2, crc3)
  {
    l := 0;
    l := Step4W(z, t, crc0, l);
    assert SumsAt(z, crc0, 0, 0) && SumsAt(z, 0, crc0, 0);
    assert l == z.word(crc0);
    assert SumsAt(z, crc1, l, 0);
    l := Step4W(z, t, crc1, l);
    assert SumsAt(z, crc2, l, 0);
    l := Step4W(z, t, crc2, l);
    assert SumsAt(z, crc3, l, 0);
    l := Step4W(z, t, crc3, l);
  }

  method Step16(ghost z: Zeros, t: Tables, ghost l0: bv32, data: seq<bv8>, p: nat, c0: bv32, c1: bv32, c2: bv32, c3: bv32)
    returns (crc0: bv32, crc1: bv32, crc2: bv32, crc3: bv32)
    requires Lawful(z) && TablesFor(t, z)
    requires p + 16 <= |data| && Strides(z, l0, data, p, c0, c1, c2, c3)
    ensures Strides(z, l0, data, p + 16, crc0, crc1, crc2, crc3)
  {
    StridesAdvance(z, l0, data, p, c0, c1, c2, c3);
    crc0 := Step4(z, t, c0, ReadWord(data, p));
    StridesAdvance(z, l0, data, p + 4, c1, c2, c3, crc0);
    crc1 := Step4(z, t, c1, ReadWord(data, p + 4));
    StridesAdvance(z, l0, data, p + 8, c2, c3, crc0, crc1);
    crc2 := Step4(z, t, c2, ReadWord(data, p + 8));
    StridesAdvance(z, l0, data, p + 12, c3, crc0, crc1, crc2);
    crc3 := Step4(z, t, c3, ReadWord(data, p + 12));
  }

  // ----- The bit-at-a-time remainder obeys the laws -----

  /** One bit of a reflected division by the Castagnoli polynomial. */
  function BitStep(l: bv32): bv32 {
    if l & 1 == 1 then (l >> 1) ^ 0x82f6_3b78 else l >> 1
  }

  function Twice(f: Advance): Advance {
    (l: bv32) => f(f(l))
  }

  /** Taking in zero bits one by one. */
  function BitwiseZeros(): Zeros {
    var byte := Twice(Twice(Twice(BitStep)));
    var word := Twice(Twice(byte));
    Zeros((a: bv32, b: bv32) => a ^ b, byte, word, Twice(Twice(word)))
  }

  function BitwiseTables(): Tables {
    Tables(BitwiseZeros().byte, BitwiseStride0, BitwiseStride1, BitwiseStride2, BitwiseZeros().stride)
  }

  function BitwiseStride0(c: bv32): bv32 {
    BitwiseZeros().stride(c << 24)
  }

  function BitwiseStride1(c: bv32): bv32 {
    BitwiseZeros().stride(c << 16)
  }

  function BitwiseStride2(c: bv32): bv32 {
    BitwiseZeros().stride(c << 8)
  }

  lemma BothEven(a: bv32, b: bv32)
    requires a & 1 == 0 && b & 1 == 0
    ensures BitStep(a ^ b) == BitStep(a) ^ BitStep(b)
  {
  }

  lemma OneOdd(a: bv32, b: bv32)
    requires a & 1 == 1 && b & 1 == 0
    ensures BitStep(a ^ b) == BitStep(a) ^ BitStep(b)
    ensures BitStep(b ^ a) == BitStep(b) ^ BitStep(a)
  {
  }

  lemma BothOdd(a: bv32, b: bv32)
    requires a & 1 == 1 && b & 1 == 1
    ensures BitStep(a ^ b) == BitStep(a) ^ BitStep(b)
  {
  }

  lemma LowBit(a: bv32)
    ensures a & 1 == 0 || a & 1 == 1
  {
  }

  lemma BitStepXor(a: bv32, b: bv32)
    ensures BitStep(a ^ b) == BitStep(a) ^ BitStep(b)
  {
    LowBit(a);
    LowBit(b);
    if a & 1 == 0 {
      if b & 1 == 0 { BothEven(a, b); } else { OneOdd(b, a); }
    } else {
      if b & 1 == 0 { OneOdd(a, b); } else { BothOdd(a, b); }
    }
  }

  lemma BitwiseXors(a: bv32, b: bv32)
    ensures XorAt(BitwiseZeros(), a, b)
  {
  }

  lemma XorAssociates(a: bv32, b: bv32, c: bv32)
    ensures (a ^ b) ^ c == a ^ (b ^ c)
  {
  }

  lemma PlusAssociates(a: bv32, b: bv32, c: bv32)
    ensures var z := BitwiseZeros(); z.plus(z.plus(a, b), c) == z.plus(a, z.plus(b, c))
  {
    XorAssociates(a, b, c);
  }

  lemma PlusCommutes(a: bv32, b: bv32)
    ensures var z := BitwiseZeros(); z.plus(a, b) == z.plus(b, a) && z.plus(0, a) == a
  {
  }

  lemma XorTwice(a: bv32, b: bv32)
    ensures (a ^ b) ^ b == a
  {
  }

  lemma PlusTwice(a: bv32, b: bv32)
    ensures var z := BitwiseZeros(); z.plus(z.plus(a, b), b) == a
  {
    XorTwice(a, b);
  }

  lemma BitwiseSums(a: bv32, b: bv32, c: bv32)
    ensures SumsAt(BitwiseZeros(), a, b, c)
  {
    PlusAssociates(a, b, c);
    PlusCommutes(a, b);
    PlusTwice(a, b);
  }

  lemma BitStepIsLinearAt(z: Zeros, a: bv32, b: bv32)
    requires XorAt(z, a, b) && XorAt(z, BitStep(a), BitStep(b))
    ensures BitStep(z.plus(a, b)) == z.plus(BitStep(a), BitStep(b))
  {
    BitStepXor(a, b);
  }

  lemma BitStepIsLinear()
    ensures Linear(BitwiseZeros(), BitStep)
  {
    forall a, b
      ensures LinearAt(BitwiseZeros(), BitStep, a, b)
    {
      BitwiseXors(a, b);
      BitwiseXors(BitStep(a), BitStep(b));
      BitStepIsLinearAt(BitwiseZeros(), a, b);
    }
  }

  lemma TwiceIsLinear(z: Zeros, f: Advance)
    requires Linear(z, f)
    ensures Linear(z, Twice(f))
  {
    forall a, b
      ensures LinearAt(z, Twice(f), a, b)
    {
      assert LinearAt(z, f, a, b);
      assert LinearAt(z, f, f(a), f(b));
    }
  }

  lemma EightShifts(l: bv32)
    requires l & 0xff == 0
    ensures BitStep(l) == l >> 1 && BitStep(l >> 1) == l >> 2 && BitStep(l >> 2) == l >> 3 && BitStep(l >> 3) == l >> 4
    ensures BitStep(l >> 4) == l >> 5 && BitStep(l >> 5) == l >> 6 && BitStep(l >> 6) == l >> 7 && BitStep(l >> 7) == l >> 8
  {
  }

  lemma ByteShifts(l: bv32)
    ensures ShiftsAt(BitwiseZeros().byte, l)
  {
    if l & 0xff == 0 {
      EightShifts(l);
      var f, g := Twice(BitStep), Twice(Twice(BitStep));
      assert f(l) == l >> 2;
      assert f(l >> 2) == l >> 4;
      assert g(l) == l >> 4;
      assert f(l >> 4) == l >> 6;
      assert f(l >> 6) == l >> 8;
      assert g(l >> 4) == l >> 8;
    }
  }

  lemma TwiceTwice(f: Advance, l: bv32)
    ensures FourTimesAt(Twice(Twice(f)), f, l)
  {
  }

  lemma BitwiseIsLinear()
    ensures var z := BitwiseZeros(); Linear(z, z.byte) && Linear(z, z.word) && Linear(z, z.stride)
  {
    var z := BitwiseZeros();
    BitStepIsLinear();
    TwiceIsLinear(z, BitStep);
    TwiceIsLinear(z, Twice(BitStep));
    TwiceIsLinear(z, Twice(Twice(BitStep)));
    TwiceIsLinear(z, z.byte);
    TwiceIsLinear(z, Twice(z.byte));
    TwiceIsLinear(z, z.word);
    TwiceIsLinear(z, Twice(z.word));
  }

  lemma BitwiseIsLawful()
    ensures Lawful(BitwiseZeros())
  {
    var z := BitwiseZeros();
    BitwiseIsLinear();
    forall a, b, c
      ensures XorAt(z, a, b) && SumsAt(z, a, b, c)
    {
      BitwiseXors(a, b);
      BitwiseSums(a, b, c);
    }
    forall l
      ensures ShiftsAt(z.byte, l) && FourTimesAt(z.word, z.byte, l) && FourTimesAt(z.stride, z.word, l)
    {
      ByteShifts(l);
      TwiceTwice(z.byte, l);
      TwiceTwice(z.word, l);
    }
  }

  /** CRC32C by the four strides is CRC32C bit by bit, for every length, alignment and start value. */
  method Crc32cExtend(crc: bv32, data: seq<bv8>, address: nat) returns (r: bv32)
    ensures r == Crc(BitwiseZeros(), crc, data)
  {
    BitwiseIsLawful();
    assert TablesFor(BitwiseTables(), BitwiseZeros()) by {
      forall c
        ensures EntryAt(BitwiseTables(), BitwiseZeros(), c)
      {
      }
    }
    r := Extend(BitwiseZeros(), BitwiseTables(), crc, data, address);
  }
}
