/** CRC-32C (util/crc32c.cc): the polynomial of section 12.1 of RFC 3720, computed one bit at a time,
    one table byte at a time, and in four interleaved strides of words.

    A table entry is what the byte step makes of its index; the literal tables of util/crc32c.cc are not
    repeated.
 */
module Crc32c {
  type Word = bv32

  /** The Castagnoli polynomial, lowest power in the highest bit. */
  const POLYNOMIAL: Word := 0x82F6_3B78
  const ALL_ONES: Word := 0xFFFF_FFFF

  // ----- word operations, named so that proofs can leave their bits alone ---

  function Xor(x: Word, y: Word): Word {
    x ^ y
  }

  function LowByte(x: Word): Word {
    x & 0xff
  }

  function HighBytes(x: Word): Word {
    x >> 8
  }

  function Half(x: Word): Word {
    x >> 1
  }

  predicate Odd(x: Word) {
    x & 1 == 1
  }

  lemma {:induction false} XorCommutes(a: Word, b: Word)
    ensures Xor(a, b) == Xor(b, a)
  {
  }

  lemma {:induction false} XorAssociates(a: Word, b: Word, c: Word)
    ensures Xor(Xor(a, b), c) == Xor(a, Xor(b, c))
  {
  }

  lemma {:induction false} XorZero(a: Word)
    ensures Xor(a, 0) == a && Xor(0, a) == a && Xor(a, a) == 0
  {
  }

  lemma {:induction false} XorSwap(a: Word, b: Word, c: Word, d: Word)
    ensures Xor(Xor(a, b), Xor(c, d)) == Xor(Xor(a, c), Xor(b, d))
  {
    hide Xor;
    XorAssociates(a, b, Xor(c, d));
    XorAssociates(b, c, d);
    XorCommutes(b, c);
    XorAssociates(c, b, d);
    XorAssociates(a, c, Xor(b, d));
  }

  lemma {:induction false} XorCancels(a: Word, b: Word, p: Word)
    ensures Xor(Xor(a, p), Xor(b, p)) == Xor(a, b)
    ensures Xor(Xor(a, p), b) == Xor(Xor(a, b), p) == Xor(a, Xor(b, p))
  {
    hide Xor;
    XorSwap(a, p, b, p);
    XorZero(p);
    XorZero(Xor(a, b));
    XorAssociates(a, p, b);
    XorCommutes(p, b);
    XorAssociates(a, b, p);
  }

  lemma {:induction false} XorLowByte(x: Word, y: Word)
    ensures LowByte(Xor(x, y)) == Xor(LowByte(x), LowByte(y))
  {
  }

  lemma {:induction false} XorHighBytes(x: Word, y: Word)
    ensures HighBytes(Xor(x, y)) == Xor(HighBytes(x), HighBytes(y))
  {
  }

  lemma {:induction false} XorHalf(x: Word, y: Word)
    ensures Half(Xor(x, y)) == Xor(Half(x), Half(y))
  {
  }

  lemma {:induction false} XorOdd(x: Word, y: Word)
    ensures Odd(Xor(x, y)) <==> (Odd(x) != Odd(y))
  {
  }

  // ----- the definition, bit by bit ----------------------------------------

  /** Division by the polynomial: one more bit of zeros. */
  function ZeroBit(l: Word): Word {
    if Odd(l) then Xor(Half(l), POLYNOMIAL) else Half(l)
  }

  function ZeroBits(l: Word, n: nat): Word
    decreases n
  {
    if n == 0 then l else ZeroBits(ZeroBit(l), n - 1)
  }

  /** One more message bit. */
  function BitStep(l: Word, bit: bool): Word {
    if Odd(l) != bit then Xor(Half(l), POLYNOMIAL) else Half(l)
  }

  /** The lowest `n` bits of `b`, lowest first. */
  function BitSteps(l: Word, b: Word, n: nat): Word
    decreases n
  {
    if n == 0 then l else BitSteps(BitStep(l, Odd(b)), Half(b), n - 1)
  }

  /** The remainder of a message of whole bytes, bit by bit. */
  function Remainder(l: Word, data: seq<bv8>): Word {
    if data == [] then l else BitSteps(Remainder(l, data[..|data| - 1]), data[|data| - 1] as Word, 8)
  }

  // ----- the byte table ----------------------------------------------------

  /** kByteExtensionTable. */
  function ByteTable(i: Word): Word {
    ZeroBits(i, 8)
  }

  /** The literal entries of kByteExtensionTable at the powers of two, of which by linearity all the
      others are sums. */
  lemma {:induction false} ByteTableEntries()
    ensures ByteTable(0x01) == 0xf26b8303 && ByteTable(0x02) == 0xe13b70f7
    ensures ByteTable(0x04) == 0xc79a971f && ByteTable(0x08) == 0x8ad958cf
    ensures ByteTable(0x10) == 0x105ec76f && ByteTable(0x20) == 0x20bd8ede
    ensures ByteTable(0x40) == 0x417b1dbc && ByteTable(0x80) == 0x82f63b78
  {
    assert ZeroBits(0x80, 8) == ZeroBits(1, 1) == 0x82f63b78;
    assert ZeroBits(0x40, 8) == ZeroBits(0x82f63b78, 1);
    assert ZeroBits(0x20, 8) == ZeroBits(0x417b1dbc, 1);
    assert ZeroBits(0x10, 8) == ZeroBits(0x20bd8ede, 1);
    assert ZeroBits(0x08, 8) == ZeroBits(0x105ec76f, 1);
    assert ZeroBits(0x04, 8) == ZeroBits(0x8ad958cf, 1);
    assert ZeroBits(0x02, 8) == ZeroBits(0xc79a971f, 1);
    assert ZeroBits(0x01, 8) == ZeroBits(0xe13b70f7, 1);
  }

  /** One byte of zeros through the table. */
  function Shift(l: Word): Word {
    Xor(ByteTable(LowByte(l)), HighBytes(l))
  }

  function Shifts(l: Word, n: nat): Word
    decreases n
  {
    if n == 0 then l else Shifts(Shift(l), n - 1)
  }

  /** STEP1: the table at the low byte xored with the data. */
  function ByteStep(l: Word, b: Word): Word {
    Xor(ByteTable(Xor(LowByte(l), b)), HighBytes(l))
  }

  /** The byte-at-a-time checksum. */
  function Update(l: Word, data: seq<bv8>): Word {
    if data == [] then l else ByteStep(Update(l, data[..|data| - 1]), data[|data| - 1] as Word)
  }

  lemma {:induction false} ZeroBitLinear(x: Word, y: Word)
    ensures ZeroBit(Xor(x, y)) == Xor(ZeroBit(x), ZeroBit(y))
  {
    hide Xor, Half, Odd;
    XorHalf(x, y);
    XorOdd(x, y);
    XorCancels(Half(x), Half(y), POLYNOMIAL);
  }

  lemma {:induction false} ZeroBitsLinear(x: Word, y: Word, n: nat)
    ensures ZeroBits(Xor(x, y), n) == Xor(ZeroBits(x, n), ZeroBits(y, n))
    decreases n
  {
    hide ZeroBit, Xor;
    if n > 0 {
      ZeroBitLinear(x, y);
      ZeroBitsLinear(ZeroBit(x), ZeroBit(y), n - 1);
    }
  }

  lemma {:induction false} ShiftLinear(x: Word, y: Word)
    ensures Shift(Xor(x, y)) == Xor(Shift(x), Shift(y))
  {
    hide ZeroBits, Xor, LowByte, HighBytes;
    XorLowByte(x, y);
    XorHighBytes(x, y);
    ZeroBitsLinear(LowByte(x), LowByte(y), 8);
    XorSwap(ByteTable(LowByte(x)), ByteTable(LowByte(y)), HighBytes(x), HighBytes(y));
  }

  lemma {:induction false} ShiftsLinear(x: Word, y: Word, n: nat)
    ensures Shifts(Xor(x, y), n) == Xor(Shifts(x, n), Shifts(y, n))
    decreases n
  {
    hide Shift, Xor;
    if n > 0 {
      ShiftLinear(x, y);
      ShiftsLinear(Shift(x), Shift(y), n - 1);
    }
  }

  lemma {:induction false} ShiftsCompose(x: Word, m: nat, n: nat)
    ensures Shifts(Shifts(x, m), n) == Shifts(x, m + n)
    decreases m
  {
    hide Shift;
    if m > 0 {
      ShiftsCompose(Shift(x), m - 1, n);
    }
  }

  lemma {:induction false} ZeroTable(n: nat)
    ensures ZeroBits(0, n) == 0
  {
    if n > 0 {
      assert ZeroBit(0) == 0;
      ZeroTable(n - 1);
    }
  }

  /** A data byte can be xored in before the step. */
  lemma {:induction false} StepIsShift(l: Word, b: bv8)
    ensures ByteStep(l, b as Word) == Shift(Xor(l, b as Word))
  {
    ByteParts(b);
    hide Xor, LowByte, HighBytes, ByteTable;
    XorLowByte(l, b as Word);
    XorHighBytes(l, b as Word);
    XorZero(HighBytes(l));
  }

  lemma {:induction false} ByteParts(b: bv8)
    ensures LowByte(b as Word) == b as Word && HighBytes(b as Word) == 0
  {
  }

  // ----- the table step divides by the polynomial --------------------------

  lemma {:induction false} BitStepIsZeroBit(l: Word, b: Word)
    ensures Xor(BitStep(l, Odd(b)), Half(b)) == ZeroBit(Xor(l, b))
  {
    hide Xor, Half, Odd;
    XorHalf(l, b);
    XorOdd(l, b);
    XorCancels(Half(l), Half(b), POLYNOMIAL);
  }

  lemma {:induction false} BitStepsAreZeroBits(l: Word, b: Word, n: nat)
    ensures Xor(BitSteps(l, b, n), Halves(b, n)) == ZeroBits(Xor(l, b), n)
    decreases n
  {
    hide BitStep, ZeroBit, Half, Odd, Xor;
    if n > 0 {
      BitStepIsZeroBit(l, b);
      BitStepsAreZeroBits(BitStep(l, Odd(b)), Half(b), n - 1);
    }
  }

  function Halves(b: Word, n: nat): Word
    decreases n
  {
    if n == 0 then b else Halves(Half(b), n - 1)
  }

  /** The lowest `n` bits of `b` are zero. */
  predicate EvenFor(b: Word, n: nat)
    decreases n
  {
    n == 0 || (!Odd(b) && EvenFor(Half(b), n - 1))
  }

  lemma {:induction false} EvenZeroBits(b: Word, n: nat)
    requires EvenFor(b, n)
    ensures ZeroBits(b, n) == Halves(b, n)
    decreases n
  {
    hide Half, Odd, Xor;
    if n > 0 {
      EvenZeroBits(Half(b), n - 1);
    }
  }

  function HighPart(x: Word): Word {
    x & 0xffff_ff00
  }

  lemma {:induction false} SplitWord(x: Word)
    ensures x == Xor(LowByte(x), HighPart(x)) && HighBytes(x) == HighBytes(HighPart(x)) && LowByte(HighPart(x)) == 0
  {
  }

  function Down4(b: Word): Word {
    b >> 4
  }

  predicate LowNibbleZero(b: Word) {
    b & 0xf == 0
  }

  lemma {:induction false} HalvesAreDown4(b: Word)
    ensures Half(Half(Half(Half(b)))) == Down4(b)
    ensures LowNibbleZero(b) ==> !Odd(b) && !Odd(Half(b)) && !Odd(Half(Half(b))) && !Odd(Half(Half(Half(b))))
  {
  }

  lemma {:induction false} FourHalves(b: Word, n: nat)
    ensures Halves(b, n + 4) == Halves(Down4(b), n)
    ensures LowNibbleZero(b) && EvenFor(Down4(b), n) ==> EvenFor(b, n + 4)
  {
    hide Half, Odd, Down4, LowNibbleZero;
    HalvesAreDown4(b);
    var h1 := Half(b);
    var h2 := Half(h1);
    var h3 := Half(h2);
    var h4 := Half(h3);
    assert Halves(b, n + 4) == Halves(h1, n + 3) == Halves(h2, n + 2) == Halves(h3, n + 1) == Halves(h4, n);
    assert EvenFor(h3, n + 1) <==> !Odd(h3) && EvenFor(h4, n);
    assert EvenFor(h2, n + 2) <==> !Odd(h2) && EvenFor(h3, n + 1);
    assert EvenFor(h1, n + 3) <==> !Odd(h1) && EvenFor(h2, n + 2);
  }

  lemma {:induction false} DownTwice(b: Word)
    ensures Down4(Down4(b)) == HighBytes(b)
    ensures LowByte(b) == 0 ==> LowNibbleZero(b) && LowNibbleZero(Down4(b))
  {
  }

  lemma {:induction false} EightHalves(b: Word)
    ensures Halves(b, 8) == HighBytes(b)
    ensures LowByte(b) == 0 ==> EvenFor(b, 8)
  {
    hide Half, Odd, Down4, LowNibbleZero, LowByte, HighBytes;
    DownTwice(b);
    FourHalves(b, 4);
    FourHalves(Down4(b), 0);
  }

  /** A byte of zeros through the table is eight divisions. */
  lemma {:induction false} ShiftIsZeroBits(l: Word)
    ensures Shift(l) == ZeroBits(l, 8)
  {
    hide Xor, LowByte, HighBytes, HighPart, ZeroBits;
    SplitWord(l);
    ZeroBitsLinear(LowByte(l), HighPart(l), 8);
    EightHalves(HighPart(l));
    EvenZeroBits(HighPart(l), 8);
  }

  /** One table step is eight bit steps. */
  lemma {:induction false} ByteStepIsBitSteps(l: Word, b: bv8)
    ensures ByteStep(l, b as Word) == BitSteps(l, b as Word, 8)
  {
    var w := b as Word;
    ByteParts(b);
    EightHalves(w);
    hide Xor, LowByte, HighBytes, ZeroBits, ByteStep, BitSteps;
    BitStepsAreZeroBits(l, w, 8);
    XorZero(BitSteps(l, w, 8));
    StepIsShift(l, b);
    ShiftIsZeroBits(Xor(l, w));
  }

  /** The byte-at-a-time checksum is the remainder of the bitwise division. */
  lemma {:induction false} UpdateIsRemainder(l: Word, data: seq<bv8>)
    ensures Update(l, data) == Remainder(l, data)
    decreases |data|
  {
    hide ByteStep, BitSteps;
    if data != [] {
      var n := |data| - 1;
      UpdateIsRemainder(l, data[..n]);
      ByteStepIsBitSteps(Update(l, data[..n]), data[n]);
    }
  }

  // ----- words -------------------------------------------------------------

  /** Four bytes, the first lowest (ReadUint32LE). */
  function LoadWord(b0: bv8, b1: bv8, b2: bv8, b3: bv8): Word {
    b0 as Word | ((b1 as Word) << 8) | ((b2 as Word) << 16) | ((b3 as Word) << 24)
  }

  function Up(x: Word): Word {
    x << 8
  }

  lemma {:induction false} LoadSplits(b0: bv8, b1: bv8, b2: bv8, b3: bv8)
    ensures var w2 := Xor(b2 as Word, Up(b3 as Word));
            var w1 := Xor(b1 as Word, Up(w2));
            LoadWord(b0, b1, b2, b3) == Xor(b0 as Word, Up(w1)) && Fits(w2) && Fits(w1) && Fits(b3 as Word)
  {
  }

  predicate Fits(x: Word) {
    x & 0xff00_0000 == 0
  }

  lemma {:induction false} UpParts(x: Word)
    requires Fits(x)
    ensures LowByte(Up(x)) == 0 && HighBytes(Up(x)) == x
  {
  }

  /** Bytes above the lowest just move down. */
  lemma {:induction false} ShiftUp(x: Word)
    requires Fits(x)
    ensures Shift(Up(x)) == x
  {
    UpParts(x);
    ZeroTable(8);
    XorZero(x);
  }

  /** A data byte and what lies above it. */
  lemma {:induction false} StepBelow(l: Word, b: bv8, above: Word)
    requires Fits(above)
    ensures Xor(ByteStep(l, b as Word), above) == Shift(Xor(l, Xor(b as Word, Up(above))))
  {
    hide Xor, ByteStep, Shift, Up;
    StepIsShift(l, b);
    ShiftUp(above);
    ShiftLinear(Xor(l, b as Word), Up(above));
    XorAssociates(l, b as Word, Up(above));
  }

  /** Four byte steps at once. */
  lemma {:induction false} WordStep(l: Word, b0: bv8, b1: bv8, b2: bv8, b3: bv8)
    ensures ByteStep(ByteStep(ByteStep(ByteStep(l, b0 as Word), b1 as Word), b2 as Word), b3 as Word)
            == Shifts(Xor(l, LoadWord(b0, b1, b2, b3)), 4)
  {
    hide Xor, ByteStep, Shift, Up, LoadWord, Fits;
    LoadSplits(b0, b1, b2, b3);
    var w2 := Xor(b2 as Word, Up(b3 as Word));
    var w1 := Xor(b1 as Word, Up(w2));
    var l1 := ByteStep(l, b0 as Word);
    var l2 := ByteStep(l1, b1 as Word);
    var l3 := ByteStep(l2, b2 as Word);
    StepBelow(l, b0, w1);
    StepBelow(l1, b1, w2);
    StepBelow(l2, b2, b3 as Word);
    StepIsShift(l3, b3);
    var x := Xor(l, LoadWord(b0, b1, b2, b3));
    assert Shift(x) == Xor(l1, w1) && Shift(Xor(l1, w1)) == Xor(l2, w2) && Shift(Xor(l2, w2)) == Xor(l3, b3 as Word);
    assert Shifts(x, 4) == Shifts(Shift(x), 3) == Shifts(Shift(Shift(x)), 2) == Shifts(Shift(Shift(Shift(x))), 1);
    assert Shifts(Shift(Shift(Shift(x))), 1) == Shifts(Shift(Shift(Shift(Shift(x)))), 0);
  }

  /** ReadUint32LE. */
  function LoadAt(data: seq<bv8>, p: nat): Word
    requires p + 4 <= |data|
  {
    LoadWord(data[p], data[p + 1], data[p + 2], data[p + 3])
  }

  lemma {:induction false} UpdateNext(l: Word, data: seq<bv8>, p: nat)
    requires p < |data|
    ensures Update(l, data[..p + 1]) == ByteStep(Update(l, data[..p]), data[p] as Word)
  {
    assert data[..p + 1][..p] == data[..p];
  }

  /** One word is four bytes. */
  lemma {:induction false} UpdateWord(l: Word, data: seq<bv8>, p: nat)
    requires p + 4 <= |data|
    ensures Update(l, data[..p + 4]) == Shifts(Xor(Update(l, data[..p]), LoadAt(data, p)), 4)
  {
    hide ByteStep, Xor, LoadWord;
    UpdateNext(l, data, p);
    UpdateNext(l, data, p + 1);
    UpdateNext(l, data, p + 2);
    UpdateNext(l, data, p + 3);
    WordStep(Update(l, data[..p]), data[p], data[p + 1], data[p + 2], data[p + 3]);
  }

  // ----- strides -----------------------------------------------------------

  function Byte1(x: Word): Word {
    (x >> 8) & 0xff
  }

  function Byte2(x: Word): Word {
    (x >> 16) & 0xff
  }

  function Byte3(x: Word): Word {
    x >> 24
  }

  function Up2(x: Word): Word {
    x << 16
  }

  function Up3(x: Word): Word {
    x << 24
  }

  /** kStrideExtensionTable3 to 0: sixteen bytes of zeros after a byte in each place of a word. */
  function Stride3(i: Word): Word {
    Shifts(i, 16)
  }

  function Stride2(i: Word): Word {
    Shifts(Up(i), 16)
  }

  function Stride1(i: Word): Word {
    Shifts(Up2(i), 16)
  }

  function Stride0(i: Word): Word {
    Shifts(Up3(i), 16)
  }

  /** STEP4. */
  function StrideStep(crc: Word, word: Word): Word {
    Xor(Xor(Xor(Xor(word, Stride3(LowByte(crc))), Stride2(Byte1(crc))), Stride1(Byte2(crc))), Stride0(Byte3(crc)))
  }

  lemma {:induction false} FourBytes(x: Word)
    ensures x == Xor(Xor(Xor(LowByte(x), Up(Byte1(x))), Up2(Byte2(x))), Up3(Byte3(x)))
  {
  }

  /** A stride step is sixteen bytes of zeros and then the word. */
  lemma {:induction false} StrideStepIsShifts(crc: Word, word: Word)
    ensures StrideStep(crc, word) == Xor(word, Shifts(crc, 16))
  {
    hide Xor, LowByte, Byte1, Byte2, Byte3, Up, Up2, Up3, Shifts;
    FourBytes(crc);
    var a, b, c, d := LowByte(crc), Up(Byte1(crc)), Up2(Byte2(crc)), Up3(Byte3(crc));
    ShiftsLinear(Xor(Xor(a, b), c), d, 16);
    ShiftsLinear(Xor(a, b), c, 16);
    ShiftsLinear(a, b, 16);
    var a', b', c', d' := Shifts(a, 16), Shifts(b, 16), Shifts(c, 16), Shifts(d, 16);
    XorAssociates(word, a', b');
    XorAssociates(word, Xor(a', b'), c');
    XorAssociates(word, Xor(Xor(a', b'), c'), d');
  }

  /** What four partial results amount to: each is still short of some bytes of zeros. */
  function Combine(c0: Word, c1: Word, c2: Word, c3: Word): Word {
    Xor(Shifts(c0, 16), Xor(Shifts(c1, 12), Xor(Shifts(c2, 8), Shifts(c3, 4))))
  }

  /** STEP4W, four times from zero. */
  function Collect(c0: Word, c1: Word, c2: Word, c3: Word): Word {
    Shifts(Xor(c3, Shifts(Xor(c2, Shifts(Xor(c1, Shifts(c0, 4)), 4)), 4)), 4)
  }

  /** A word enters the oldest stride, which becomes the newest. */
  lemma {:induction false} CombineNext(c0: Word, c1: Word, c2: Word, c3: Word, word: Word)
    ensures Combine(c1, c2, c3, StrideStep(c0, word)) == Shifts(Xor(Combine(c0, c1, c2, c3), word), 4)
  {
    hide Xor, Shifts, StrideStep;
    StrideStepIsShifts(c0, word);
    var s0, s1, s2, s3 := Shifts(c0, 16), Shifts(c1, 12), Shifts(c2, 8), Shifts(c3, 4);
    var rest := Xor(s1, Xor(s2, s3));
    XorAssociates(s0, rest, word);
    XorCommutes(s0, Xor(rest, word));
    XorAssociates(rest, word, s0);
    ShiftsLinear(rest, Xor(word, s0), 4);
    ShiftsLinear(s1, Xor(s2, s3), 4);
    ShiftsLinear(s2, s3, 4);
    ShiftsCompose(c1, 12, 4);
    ShiftsCompose(c2, 8, 4);
    ShiftsCompose(c3, 4, 4);
    var t1, t2, t3, t0 := Shifts(c1, 16), Shifts(c2, 12), Shifts(c3, 8), Shifts(Xor(word, s0), 4);
    XorAssociates(t1, Xor(t2, t3), t0);
    XorAssociates(t2, t3, t0);
  }

  lemma {:induction false} CombineIsCollect(c0: Word, c1: Word, c2: Word, c3: Word)
    ensures Collect(c0, c1, c2, c3) == Combine(c0, c1, c2, c3)
  {
    hide Xor, Shifts;
    var l1 := Shifts(c0, 4);
    ShiftsLinear(c1, l1, 4);
    ShiftsCompose(c0, 4, 4);
    var l2 := Shifts(Xor(c1, l1), 4);
    ShiftsLinear(c2, l2, 4);
    ShiftsLinear(Shifts(c1, 4), Shifts(c0, 8), 4);
    ShiftsCompose(c1, 4, 4);
    ShiftsCompose(c0, 8, 4);
    var l3 := Shifts(Xor(c2, l2), 4);
    ShiftsLinear(c3, l3, 4);
    ShiftsLinear(Shifts(c2, 4), Xor(Shifts(c1, 8), Shifts(c0, 12)), 4);
    ShiftsLinear(Shifts(c1, 8), Shifts(c0, 12), 4);
    ShiftsCompose(c2, 4, 4);
    ShiftsCompose(c1, 8, 4);
    ShiftsCompose(c0, 12, 4);
    var s0, s1, s2, s3 := Shifts(c0, 16), Shifts(c1, 12), Shifts(c2, 8), Shifts(c3, 4);
    assert Collect(c0, c1, c2, c3) == Xor(s3, Xor(s2, Xor(s1, s0)));
    XorCommutes(s1, s0);
    XorCommutes(s2, Xor(s0, s1));
    XorCommutes(s3, Xor(Xor(s0, s1), s2));
    XorAssociates(Xor(s0, s1), s2, s3);
    XorAssociates(s0, s1, Xor(s2, s3));
  }

  /** The first swath. */
  lemma {:induction false} CombineStart(l: Word, data: seq<bv8>, p: nat)
    requires p + 16 <= |data|
    ensures Combine(Xor(LoadAt(data, p), Update(l, data[..p])), LoadAt(data, p + 4), LoadAt(data, p + 8), LoadAt(data, p + 12))
            == Update(l, data[..p + 16])
  {
    hide Xor, Shifts, LoadAt, Update;
    UpdateWord(l, data, p);
    UpdateWord(l, data, p + 4);
    UpdateWord(l, data, p + 8);
    UpdateWord(l, data, p + 12);
    var was := Update(l, data[..p]);
    var c0 := Xor(LoadAt(data, p), was);
    XorCommutes(LoadAt(data, p), was);
    XorCommutes(LoadAt(data, p + 4), Update(l, data[..p + 4]));
    XorCommutes(LoadAt(data, p + 8), Update(l, data[..p + 8]));
    XorCommutes(LoadAt(data, p + 12), Update(l, data[..p + 12]));
    CombineIsCollect(c0, LoadAt(data, p + 4), LoadAt(data, p + 8), LoadAt(data, p + 12));
  }

  /** STEP4W: `l` and the four bytes of `word`. */
  method FinishWord(word: Word, l: Word) returns (r: Word)
    ensures r == Shifts(Xor(word, l), 4)
  {
    hide Xor, Shift, ByteTable, LowByte, HighBytes;
    r := Xor(word, l);
    for i := 0 to 4
      invariant Shifts(r, 4 - i) == Shifts(Xor(word, l), 4)
    {
      ShiftSwapped(r);
      r := Xor(HighBytes(r), ByteTable(LowByte(r)));
    }
  }

  lemma {:induction false} ShiftSwapped(l: Word)
    ensures Xor(HighBytes(l), ByteTable(LowByte(l))) == Shift(l)
  {
    hide Xor;
    XorCommutes(HighBytes(l), ByteTable(LowByte(l)));
  }

  /** Extend, for a buffer that starts `misalignment` bytes past a four-byte boundary. */
  method Extend(crc: Word, data: seq<bv8>, misalignment: nat) returns (r: Word)
    requires misalignment < 4
    ensures r == Checksum(crc, data)
  {
    hide Xor, Shifts, ByteStep, StrideStep, LoadAt, Combine, Update;
    var l := Xor(crc, ALL_ONES);
    ghost var l0 := l;
    var p := 0;
    UpdateNothing(l, data);
    var x := if misalignment == 0 then 0 else 4 - misalignment;
    if x <= |data| {
      while p != x
        invariant p <= x && l == Update(l0, data[..p])
      {
        UpdateNext(l0, data, p);
        l := ByteStep(l, data[p] as Word);
        p := p + 1;
      }
    }
    if |data| - p >= 16 {
      CombineStart(l0, data, p);
      var crc0, crc1, crc2, crc3 := Xor(LoadAt(data, p), l), LoadAt(data, p + 4), LoadAt(data, p + 8), LoadAt(data, p + 12);
      p := p + 16;
      while |data| - p >= 16
        invariant p <= |data| && Combine(crc0, crc1, crc2, crc3) == Update(l0, data[..p])
      {
        StridesNext(l0, data, p, crc0, crc1, crc2, crc3);
        crc0 := StrideStep(crc0, LoadAt(data, p));
        StridesNext(l0, data, p + 4, crc1, crc2, crc3, crc0);
        crc1 := StrideStep(crc1, LoadAt(data, p + 4));
        StridesNext(l0, data, p + 8, crc2, crc3, crc0, crc1);
        crc2 := StrideStep(crc2, LoadAt(data, p + 8));
        StridesNext(l0, data, p + 12, crc3, crc0, crc1, crc2);
        crc3 := StrideStep(crc3, LoadAt(data, p + 12));
        p := p + 16;
      }
      while |data| - p >= 4
        invariant p <= |data| && Combine(crc0, crc1, crc2, crc3) == Update(l0, data[..p])
      {
        StridesNext(l0, data, p, crc0, crc1, crc2, crc3);
        crc0 := StrideStep(crc0, LoadAt(data, p));
        var tmp := crc0;
        crc0 := crc1;
        crc1 := crc2;
        crc2 := crc3;
        crc3 := tmp;
        p := p + 4;
      }
      CombineIsCollect(crc0, crc1, crc2, crc3);
      XorZero(crc0);
      l := 0;
      l := FinishWord(crc0, l);
      l := FinishWord(crc1, l);
      l := FinishWord(crc2, l);
      l := FinishWord(crc3, l);
    }
    while p != |data|
      invariant p <= |data| && l == Update(l0, data[..p])
      decreases |data| - p
    {
      UpdateNext(l0, data, p);
      l := ByteStep(l, data[p] as Word);
      p := p + 1;
    }
    assert data[..p] == data;
    r := Xor(l, ALL_ONES);
  }

  lemma {:induction false} UpdateNothing(l: Word, data: seq<bv8>)
    ensures Update(l, data[..0]) == l
  {
  }

  lemma {:induction false} StridesNext(l: Word, data: seq<bv8>, p: nat, c0: Word, c1: Word, c2: Word, c3: Word)
    requires p + 4 <= |data| && Combine(c0, c1, c2, c3) == Update(l, data[..p])
    ensures Combine(c1, c2, c3, StrideStep(c0, LoadAt(data, p))) == Update(l, data[..p + 4])
  {
    hide Xor, Shifts, StrideStep, LoadAt, Combine, Update;
    CombineNext(c0, c1, c2, c3, LoadAt(data, p));
    UpdateWord(l, data, p);
  }

  // ----- what Extend promises ----------------------------------------------

  /** The CRC of `data` after one whose CRC is `crc`: the bitwise remainder, conditioned with all ones. */
  function Checksum(crc: Word, data: seq<bv8>): Word {
    Xor(Update(Xor(crc, ALL_ONES), data), ALL_ONES)
  }

  lemma {:induction false} UpdateAppend(l: Word, a: seq<bv8>, b: seq<bv8>)
    ensures Update(l, a + b) == Update(Update(l, a), b)
    decreases |b|
  {
    hide ByteStep;
    if b == [] {
      assert a + b == a;
    } else {
      var n := |b| - 1;
      UpdateAppend(l, a, b[..n]);
      assert (a + b)[..|a + b| - 1] == a + b[..n];
    }
  }

  /** Extending by two pieces is extending by both at once. */
  lemma {:induction false} ExtendConcatenates(crc: Word, a: seq<bv8>, b: seq<bv8>)
    ensures Checksum(Checksum(crc, a), b) == Checksum(crc, a + b)
  {
    hide Xor, Update;
    var l := Xor(crc, ALL_ONES);
    UpdateAppend(l, a, b);
    XorAssociates(Update(l, a), ALL_ONES, ALL_ONES);
    XorZero(ALL_ONES);
    XorZero(Update(l, a));
  }

  /** The checksum is defined by bitwise division by the polynomial. */
  lemma {:induction false} ChecksumIsRemainder(crc: Word, data: seq<bv8>)
    ensures Checksum(crc, data) == Xor(Remainder(Xor(crc, ALL_ONES), data), ALL_ONES)
  {
    hide Xor, Update, Remainder;
    UpdateIsRemainder(Xor(crc, ALL_ONES), data);
  }

  // ----- a known checksum ----------------------------------------------------

  function Zeros(n: nat): seq<bv8> {
    seq(n, _ => 0)
  }

  lemma {:induction false} OneMoreZero(n: nat, l: Word, next: Word)
    requires Remainder(0xFFFF_FFFF, Zeros(n)) == l && BitSteps(l, 0, 8) == next
    ensures Remainder(0xFFFF_FFFF, Zeros(n + 1)) == next
  {
    hide BitSteps;
    assert Zeros(n + 1)[..n] == Zeros(n);
  }

  lemma {:induction false} EightZeros0(n: nat)
    requires Remainder(0xFFFF_FFFF, Zeros(n)) == 0xFFFF_FFFF
    ensures Remainder(0xFFFF_FFFF, Zeros(n + 8)) == 0x73D7_4D75
  {
    hide Remainder, Zeros;
    OneMoreZero(n + 0, 0xFFFF_FFFF, 0xAD82_ACAE) by { assert BitSteps(0xFFFF_FFFF, 0, 8) == 0xAD82_ACAE; }
    OneMoreZero(n + 1, 0xAD82_ACAE, 0x0E9E_882D) by { assert BitSteps(0xAD82_ACAE, 0, 8) == 0x0E9E_882D; }
    OneMoreZero(n + 2, 0x0E9E_882D, 0x9F9B_5C85) by { assert BitSteps(0x0E9E_882D, 0, 8) == 0x9F9B_5C85; }
    OneMoreZero(n + 3, 0x9F9B_5C85, 0xB798_B438) by { assert BitSteps(0x9F9B_5C85, 0, 8) == 0xB798_B438; }
    OneMoreZero(n + 4, 0xB798_B438, 0xBA8D_89CA) by { assert BitSteps(0xB798_B438, 0, 8) == 0xBA8D_89CA; }
    OneMoreZero(n + 5, 0xBA8D_89CA, 0xA8D5_8375) by { assert BitSteps(0xBA8D_89CA, 0, 8) == 0xA8D5_8375; }
    OneMoreZero(n + 6, 0xA8D5_8375, 0x44C1_9592) by { assert BitSteps(0xA8D5_8375, 0, 8) == 0x44C1_9592; }
    OneMoreZero(n + 7, 0x44C1_9592, 0x73D7_4D75) by { assert BitSteps(0x44C1_9592, 0, 8) == 0x73D7_4D75; }
  }

  lemma {:induction false} EightZeros1(n: nat)
    requires Remainder(0xFFFF_FFFF, Zeros(n)) == 0x73D7_4D75
    ensures Remainder(0xFFFF_FFFF, Zeros(n + 8)) == 0xBD8F_6515
  {
    hide Remainder, Zeros;
    OneMoreZero(n + 0, 0x73D7_4D75, 0x441A_975C) by { assert BitSteps(0x73D7_4D75, 0, 8) == 0x441A_975C; }
    OneMoreZero(n + 1, 0x441A_975C, 0x1C22_0F94) by { assert BitSteps(0x441A_975C, 0, 8) == 0x1C22_0F94; }
    OneMoreZero(n + 2, 0x1C22_0F94, 0x552E_4907) by { assert BitSteps(0x1C22_0F94, 0, 8) == 0x552E_4907; }
    OneMoreZero(n + 3, 0x552E_4907, 0xD49F_4AA2) by { assert BitSteps(0x552E_4907, 0, 8) == 0xD49F_4AA2; }
    OneMoreZero(n + 4, 0xD49F_4AA2, 0x43A4_5A1B) by { assert BitSteps(0xD49F_4AA2, 0, 8) == 0x43A4_5A1B; }
    OneMoreZero(n + 5, 0x43A4_5A1B, 0x8994_C80E) by { assert BitSteps(0x43A4_5A1B, 0, 8) == 0x8994_C80E; }
    OneMoreZero(n + 6, 0x8994_C80E, 0xACF1_2BEF) by { assert BitSteps(0x8994_C80E, 0, 8) == 0xACF1_2BEF; }
    OneMoreZero(n + 7, 0xACF1_2BEF, 0xBD8F_6515) by { assert BitSteps(0xACF1_2BEF, 0, 8) == 0xBD8F_6515; }
  }

  lemma {:induction false} EightZeros2(n: nat)
    requires Remainder(0xFFFF_FFFF, Zeros(n)) == 0xBD8F_6515
    ensures Remainder(0xFFFF_FFFF, Zeros(n + 8)) == 0x7B04_1311
  {
    hide Remainder, Zeros;
    OneMoreZero(n + 0, 0xBD8F_6515, 0x2512_5C16) by { assert BitSteps(0xBD8F_6515, 0, 8) == 0x2512_5C16; }
    OneMoreZero(n + 1, 0x2512_5C16, 0x36DA_32DB) by { assert BitSteps(0x2512_5C16, 0, 8) == 0x36DA_32DB; }
    OneMoreZero(n + 2, 0x36DA_32DB, 0x4A6C_90A2) by { assert BitSteps(0x36DA_32DB, 0, 8) == 0x4A6C_90A2; }
    OneMoreZero(n + 3, 0x4A6C_90A2, 0x433A_A9C1) by { assert BitSteps(0x4A6C_90A2, 0, 8) == 0x433A_A9C1; }
    OneMoreZero(n + 4, 0x433A_A9C1, 0x31A5_9F6E) by { assert BitSteps(0x433A_A9C1, 0, 8) == 0x31A5_9F6E; }
    OneMoreZero(n + 5, 0x31A5_9F6E, 0xCD8F_89DA) by { assert BitSteps(0x31A5_9F6E, 0, 8) == 0xCD8F_89DA; }
    OneMoreZero(n + 6, 0xCD8F_89DA, 0xB8FC_461A) by { assert BitSteps(0xCD8F_89DA, 0, 8) == 0xB8FC_461A; }
    OneMoreZero(n + 7, 0xB8FC_461A, 0x7B04_1311) by { assert BitSteps(0xB8FC_461A, 0, 8) == 0x7B04_1311; }
  }

  lemma {:induction false} EightZeros3(n: nat)
    requires Remainder(0xFFFF_FFFF, Zeros(n)) == 0x7B04_1311
    ensures Remainder(0xFFFF_FFFF, Zeros(n + 8)) == 0x756E_C955
  {
    hide Remainder, Zeros;
    OneMoreZero(n + 0, 0x7B04_1311, 0xE24E_407F) by { assert BitSteps(0x7B04_1311, 0, 8) == 0xE24E_407F; }
    OneMoreZero(n + 1, 0xE24E_407F, 0x2F69_2669) by { assert BitSteps(0xE24E_407F, 0, 8) == 0x2F69_2669; }
    OneMoreZero(n + 2, 0x2F69_2669, 0x195B_2188) by { assert BitSteps(0x2F69_2669, 0, 8) == 0x195B_2188; }
    OneMoreZero(n + 3, 0x195B_2188, 0x0836_3896) by { assert BitSteps(0x195B_2188, 0, 8) == 0x0836_3896; }
    OneMoreZero(n + 4, 0x0836_3896, 0xB401_2DC7) by { assert BitSteps(0x0836_3896, 0, 8) == 0xB401_2DC7; }
    OneMoreZero(n + 5, 0xB401_2DC7, 0x17F3_4302) by { assert BitSteps(0xB401_2DC7, 0, 8) == 0x17F3_4302; }
    OneMoreZero(n + 6, 0x17F3_4302, 0xE12C_83B4) by { assert BitSteps(0x17F3_4302, 0, 8) == 0xE12C_83B4; }
    OneMoreZero(n + 7, 0xE12C_83B4, 0x756E_C955) by { assert BitSteps(0xE12C_83B4, 0, 8) == 0x756E_C955; }
  }

  /** The example of section B.4 of RFC 3720: the checksum of thirty-two bytes of zeros. */
  lemma {:induction false} ThirtyTwoZeros()
    ensures Checksum(0, Zeros(32)) == 0x8A91_36AA
  {
    assert Remainder(0xFFFF_FFFF, Zeros(0)) == 0xFFFF_FFFF;
    assert Xor(0, ALL_ONES) == 0xFFFF_FFFF && Xor(0x756E_C955, ALL_ONES) == 0x8A91_36AA;
    hide Remainder, Zeros, Xor, Checksum;
    EightZeros0(0);
    EightZeros1(8);
    EightZeros2(16);
    EightZeros3(24);
    ChecksumIsRemainder(0, Zeros(32));
  }
}
