/** The input streams of nanopb and what is read from them: varints, tags and delimited substreams
    (nanopb/pb_decode.c).
 */
module PbStream {
  import opened DbFormat
  import opened Coding
  import opened PbCommon
  import opened PbEncode

  /** A stream that has read some bytes since it had `left` of `before`. */
  ghost predicate Follows(before: Bytes, left: nat, state: Bytes, bytesLeft: nat) {
    bytesLeft <= left <= |before| && state == before[left - bytesLeft..]
  }

  lemma {:induction false} FollowsOn(b0: Bytes, l0: nat, b1: Bytes, l1: nat, b2: Bytes, l2: nat)
    requires Follows(b0, l0, b1, l1) && Follows(b1, l1, b2, l2)
    ensures Follows(b0, l0, b2, l2) && l2 <= l1
  {
    assert b0[l0 - l1..][l1 - l2..] == b0[l0 - l2..];
  }

  lemma {:induction false} FollowsSelf(b: Bytes, l: nat)
    requires l <= |b|
    ensures Follows(b, l, b, l)
  {
  }

  /** A stream over a buffer: what follows the read position, and how much of it belongs to the stream. */
  class InputStream {
    var state: Bytes
    var bytesLeft: nat

    ghost predicate Valid()
      reads this
    {
      bytesLeft <= |state|
    }

    constructor (state: Bytes, bytesLeft: nat)
      requires bytesLeft <= |state|
      ensures Valid() && this.state == state && this.bytesLeft == bytesLeft
    {
      this.state, this.bytesLeft := state, bytesLeft;
    }

    ghost function Rest(): Bytes
      requires Valid()
      reads this
    {
      state[..bytesLeft]
    }

    /** pb_read. */
    method Read(count: nat) returns (ok: bool, b: Bytes)
      requires Valid()
      modifies this
      ensures Valid() && Follows(old(state), old(bytesLeft), state, bytesLeft)
      ensures ok <==> count <= old(bytesLeft)
      ensures ok ==> b == old(Rest())[..count] && Rest() == old(Rest())[count..]
      ensures !ok ==> bytesLeft == old(bytesLeft)
    {
      if count == 0 {
        return true, [];
      }
      if bytesLeft < count {
        return false, [];
      }
      b := state[..count];
      state := state[count..];
      bytesLeft := bytesLeft - count;
      ok := true;
    }

    /** pb_readbyte. */
    method ReadByte() returns (ok: bool, b: Byte)
      requires Valid()
      modifies this
      ensures Valid() && Follows(old(state), old(bytesLeft), state, bytesLeft)
      ensures ok <==> old(bytesLeft) > 0
      ensures ok ==> bytesLeft < old(bytesLeft) && b == old(Rest())[0] && Rest() == old(Rest())[1..]
      ensures !ok ==> bytesLeft == 0
    {
      if bytesLeft == 0 {
        return false, 0;
      }
      b := state[0];
      state := state[1..];
      bytesLeft := bytesLeft - 1;
      ok := true;
    }
  }

  // ----- varints -----------------------------------------------------------------

  /** Where pb_decode_varint is in a varint: `n` bytes at most are left, and the bytes before make `exact`. */
  ghost predicate ReadingWide(whole: Bytes, rest: Bytes, n: nat, exact: nat, unit: nat) {
    n <= 10 && ParseVarint(whole, 10) == Resume(exact, unit, ParseVarint(rest, n))
  }

  lemma {:induction false} ReadingWideEnds(whole: Bytes, rest: Bytes, n: nat, exact: nat, unit: nat)
    requires ReadingWide(whole, rest, n, exact, unit)
    ensures n == 0 || rest == [] ==> GetVarint64(whole) == None
  {
    hide ParseVarint, Resume;
    ResumeEnd(rest, n, exact, unit);
  }

  lemma {:induction false} ReadingWideStep(whole: Bytes, rest: Bytes, n: nat, exact: nat, unit: nat)
    requires ReadingWide(whole, rest, n, exact, unit) && n > 0 && rest != []
    ensures var more: nat := rest[0] % 128 * unit;
            && Truncated(Truncated(exact, true) + more, true) == Truncated(exact + more, true)
            && (if rest[0] >= 128 then ReadingWide(whole, rest[1..], n - 1, exact + more, unit * 128)
                else GetVarint64(whole) == Some(Parsed(Truncated(exact + more, true), rest[1..])))
  {
    hide ParseVarint, Resume, Truncated;
    TruncatedFacts(whole);
    TruncatedSum(exact, rest[0] % 128 * unit, true);
    ResumeEnd(rest, n, exact, unit);
    if rest[0] >= 128 {
      ResumeStep(rest, n, exact, unit);
    }
  }

  /** pb_decode_varint: ten bytes at most, bits above the sixty-fourth lost. */
  method DecodeVarint(s: InputStream) returns (ok: bool, value: nat)
    requires s.Valid()
    modifies s
    ensures s.Valid() && Follows(old(s.state), old(s.bytesLeft), s.state, s.bytesLeft)
    ensures ok <==> GetVarint64(old(s.Rest())).Some?
    ensures ok ==> GetVarint64(old(s.Rest())) == Some(Parsed(value, s.Rest()))
  {
    ghost var whole := s.Rest();
    ResumeStart(whole, 10);
    assert whole[0..] == whole && Truncated(0, true) == 0;
    hide ReadingWide, Truncated, Follows, GetVarint64;
    FollowsSelf(s.state, s.bytesLeft);
    var bitpos: nat, unit: nat := 0, 1;
    ghost var exact: nat := 0;
    ghost var n: nat := 10;
    var byte: Byte := 0x80;
    value := 0;
    while byte >= 0x80
      invariant s.Valid() && Follows(old(s.state), old(s.bytesLeft), s.state, s.bytesLeft)
      invariant n <= 10 && bitpos == 7 * (10 - n) && value == Truncated(exact, true)
      invariant byte >= 0x80 ==> ReadingWide(whole, s.Rest(), n, exact, unit)
      invariant byte < 0x80 ==> GetVarint64(whole) == Some(Parsed(value, s.Rest()))
      decreases byte >= 0x80, n
    {
      ghost var rest, state, left := s.Rest(), s.state, s.bytesLeft;
      ReadingWideEnds(whole, rest, n, exact, unit);
      if bitpos >= 64 {
        return false, 0;
      }
      var more;
      more, byte := s.ReadByte();
      if !more {
        FollowsOn(old(s.state), old(s.bytesLeft), state, left, s.state, s.bytesLeft);
        return false, 0;
      }
      FollowsOn(old(s.state), old(s.bytesLeft), state, left, s.state, s.bytesLeft);
      ReadingWideStep(whole, rest, n, exact, unit);
      var shifted: nat := byte % 128 * unit;
      value := Truncated(value + shifted, true);
      exact := exact + shifted;
      bitpos, unit, n := bitpos + 7, unit * 128, n - 1;
    }
    ok := true;
  }

  /** Bitwise or. */
  function Or(a: nat, b: nat): nat {
    if a == 0 then b
    else if b == 0 then a
    else 2 * Or(a / 2, b / 2) + (if a % 2 == 1 || b % 2 == 1 then 1 else 0)
  }

  lemma {:induction false} OrDisjoint(a: nat, c: nat, k: nat)
    requires a < Pow(2, k)
    ensures Or(a, c * Pow(2, k)) == a + c * Pow(2, k)
  {
    if k > 0 && a > 0 && c > 0 {
      var b := c * Pow(2, k);
      assert b == 2 * (c * Pow(2, k - 1));
      assert b / 2 == c * Pow(2, k - 1) && b % 2 == 0;
      OrDisjoint(a / 2, c, k - 1);
    }
  }

  /** A varint of at most five bytes that fits 32 bits: what any encoder writes for such a number. */
  ghost predicate Fits32(s: Bytes) {
    ParseVarint(s, 5).Some? && ParseVarint(s, 5).value.value < TWO_32
  }

  /** A byte of such a varint, after bytes worth `sofar`. */
  lemma {:induction false} Fits32Step(rest: Bytes, n: nat, sofar: nat, unit: nat, p: Parsed<nat>)
    requires Resume(sofar, unit, ParseVarint(rest, n)) == Some(p) && p.value < TWO_32
    ensures n > 0 && rest != []
    ensures var more := rest[0] % 128 * unit;
            && more < TWO_32 && sofar + more < TWO_32
            && (if rest[0] >= 128 then Resume(sofar + more, unit * 128, ParseVarint(rest[1..], n - 1)) == Some(p)
                else p == Parsed(sofar + more, rest[1..]))
  {
    hide ParseVarint, Resume;
    ResumeEnd(rest, n, sofar, unit);
    SevenLow(rest[0]);
    var more: nat := rest[0] % 128 * unit;
    if rest[0] >= 128 {
      ResumeStep(rest, n, sofar, unit);
      ResumeIsMore(sofar + more, unit * 128, ParseVarint(rest[1..], n - 1), p);
    }
  }

  lemma {:induction false} ResumeIsMore(sofar: nat, unit: nat, q: Option<Parsed<nat>>, p: Parsed<nat>)
    requires Resume(sofar, unit, q) == Some(p)
    ensures p.value >= sofar
  {
  }

  lemma {:induction false} SevenBits(k: nat)
    ensures Pow(2, k + 7) == Pow(2, k) * 128
  {
    assert Pow(2, k + 2) == 2 * Pow(2, k + 1);
    assert Pow(2, k + 4) == 2 * Pow(2, k + 3);
    assert Pow(2, k + 6) == 2 * Pow(2, k + 5);
  }

  lemma {:induction false} TwentyEightBits()
    ensures Pow(2, 0) == 1 && Pow(2, 7) == 128 && Pow(2, 28) == 0x1000_0000
  {
    SevenBits(0);
    SevenBits(7);
    SevenBits(14);
    SevenBits(21);
  }

  /** Where pb_decode_varint32_eof is in a varint that fits 32 bits: `n` bytes at most are left, and the bytes before
      make `value`. */
  ghost predicate Reading(whole: Bytes, rest: Bytes, n: nat, bitpos: nat, value: nat) {
    && n <= 4 && bitpos == 7 * (5 - n) && value < Pow(2, bitpos)
    && ParseVarint(whole, 5) == Resume(value, Pow(2, bitpos), ParseVarint(rest, n))
  }

  lemma {:induction false} ReadingStarts(whole: Bytes)
    requires Fits32(whole)
    ensures whole != []
    ensures whole[0] < 128 ==> ParseVarint(whole, 5) == Some(Parsed(whole[0], whole[1..]))
    ensures whole[0] >= 128 ==> Reading(whole, whole[1..], 4, 7, whole[0] % 128)
  {
    TwentyEightBits();
  }

  /** The seven low bits of a byte, at their place. */
  function Shifted(b: Byte, bitpos: nat): nat {
    b % 128 * Pow(2, bitpos)
  }

  /** One more byte, which the loop adds at `bitpos`. */
  lemma {:induction false} ReadingStep(whole: Bytes, rest: Bytes, n: nat, bitpos: nat, value: nat)
    requires Fits32(whole) && Reading(whole, rest, n, bitpos, value)
    ensures n > 0 && rest != [] && bitpos <= 28
    ensures var next := Or(value, Shifted(rest[0], bitpos) % TWO_32);
            && (rest[0] >= 128 ==> Reading(whole, rest[1..], n - 1, bitpos + 7, next))
            && (rest[0] < 128 ==> ParseVarint(whole, 5) == Some(Parsed(next, rest[1..])))
            && (bitpos == 28 ==> rest[0] % 128 < 16)
  {
    hide Or, Pow, ParseVarint, Resume;
    var p := ParseVarint(whole, 5).value;
    Fits32Step(rest, n, value, Pow(2, bitpos), p);
    AddDigit(value, rest[0] % 128, bitpos);
  }

  lemma {:induction false} AddDigit(value: nat, low: nat, bitpos: nat)
    requires value < Pow(2, bitpos) && low < 128 && low * Pow(2, bitpos) < TWO_32
    ensures Or(value, low * Pow(2, bitpos) % TWO_32) == value + low * Pow(2, bitpos) < Pow(2, bitpos + 7)
    ensures Pow(2, bitpos + 7) == Pow(2, bitpos) * 128 && (bitpos == 28 ==> low < 16)
  {
    hide Or, Pow;
    SevenBits(bitpos);
    TwentyEightBits();
    OrDisjoint(value, low, bitpos);
    Digit(value, low, Pow(2, bitpos));
    InWord(low * Pow(2, bitpos));
  }

  lemma {:induction false} InWord(shifted: nat)
    requires shifted < TWO_32
    ensures shifted % TWO_32 == shifted
  {
  }

  lemma {:induction false} Digit(value: nat, low: nat, unit: nat)
    requires value < unit && low < 128 && low * unit < TWO_32
    ensures value + low * unit < unit * 128
    ensures unit == 0x1000_0000 ==> low < 16
  {
    assert low * unit <= 127 * unit;
  }

  /** Where pb_decode_varint32_eof is in any varint: at most `m` of ten bytes are left, the bytes before make `exact`, of
      which `value` is the low word. */
  ghost predicate ReadingLow(whole: Bytes, rest: Bytes, m: nat, exact: nat, bitpos: nat, value: nat) {
    && m <= 9 && bitpos == 7 * (10 - m) && exact < Pow(2, bitpos) && value == exact % TWO_32
    && ReadingWide(whole, rest, m, exact, Pow(2, bitpos))
  }

  /** A varint of ten bytes at most ends with `value` as its low word. */
  ghost predicate EndsLow(whole: Bytes, rest: Bytes, value: nat) {
    ParseVarint(whole, 10).Some? ==>
      ParseVarint(whole, 10).value.rest == rest && ParseVarint(whole, 10).value.value % TWO_32 == value
  }

  /** No varint ends within ten bytes. */
  ghost predicate TooLong(whole: Bytes) {
    ParseVarint(whole, 10) == None
  }

  lemma {:induction false} TooLongEnds(whole: Bytes, rest: Bytes, value: nat)
    requires TooLong(whole)
    ensures EndsLow(whole, rest, value)
  {
  }

  lemma {:induction false} ReadingLowStarts(whole: Bytes)
    requires whole != []
    ensures whole[0] < 128 ==> EndsLow(whole, whole[1..], whole[0])
    ensures whole[0] >= 128 ==> ReadingLow(whole, whole[1..], 9, whole[0] % 128, 7, whole[0] % 128)
  {
    TwentyEightBits();
  }

  lemma {:induction false} WholeWords(k: nat) returns (q: nat)
    requires k >= 32
    ensures Pow(2, k) == q * TWO_32
    decreases k
  {
    if k == 32 {
      TwentyEightBits();
      SevenBits(28);
      assert Pow(2, 35) == 8 * Pow(2, 32) by {
        assert Pow(2, 33) == 2 * Pow(2, 32) && Pow(2, 34) == 2 * Pow(2, 33) && Pow(2, 35) == 2 * Pow(2, 34);
      }
      q := 1;
    } else {
      q := WholeWords(k - 1);
      q := 2 * q;
    }
  }

  lemma {:induction false} AddWords(exact: nat, low: nat, q: nat)
    ensures (exact + low * (q * TWO_32)) % TWO_32 == exact % TWO_32
  {
    assert exact + low * (q * TWO_32) == exact + (low * q) * TWO_32;
  }

  /** What the loop makes of one more digit is the low word of the sum. */
  lemma {:induction false} LowDigit(exact: nat, low: nat, bitpos: nat, value: nat)
    requires low < 128 && exact < Pow(2, bitpos) && value == exact % TWO_32
    requires bitpos == 7 || bitpos == 14 || bitpos == 21 || bitpos == 28 || bitpos >= 32
    ensures exact + low * Pow(2, bitpos) < Pow(2, bitpos + 7) == Pow(2, bitpos) * 128
    ensures bitpos >= 32 ==> (exact + low * Pow(2, bitpos)) % TWO_32 == value
    ensures bitpos < 32 ==> Or(value, low * Pow(2, bitpos) % TWO_32) == (exact + low * Pow(2, bitpos)) % TWO_32
  {
    hide Or, Pow;
    SevenBits(bitpos);
    BelowNext(exact, low, Pow(2, bitpos));
    if bitpos >= 32 {
      var q := WholeWords(bitpos);
      AddWords(exact, low, q);
    } else {
      DigitInWord(exact, low, bitpos);
    }
  }

  lemma {:induction false} DigitInWord(exact: nat, low: nat, bitpos: nat)
    requires low < 128 && exact < Pow(2, bitpos)
    requires bitpos == 7 || bitpos == 14 || bitpos == 21 || bitpos == 28
    ensures exact < TWO_32
    ensures Or(exact, low * Pow(2, bitpos) % TWO_32) == (exact + low * Pow(2, bitpos)) % TWO_32
  {
    hide Or, Pow;
    FewBits();
    if bitpos == 28 {
      OrDisjoint(exact, low % 16, 28);
      TopDigit(exact, low);
    } else {
      OrDisjoint(exact, low, bitpos);
    }
  }

  /** Of the digit at the top only four bits fit. */
  lemma {:induction false} TopDigit(exact: nat, low: nat)
    requires low < 128 && exact < 0x1000_0000
    ensures low * 0x1000_0000 % TWO_32 == low % 16 * 0x1000_0000
    ensures (exact + low * 0x1000_0000) % TWO_32 == exact + low % 16 * 0x1000_0000
  {
    var over := low / 16;
    assert low * 0x1000_0000 == over * TWO_32 + low % 16 * 0x1000_0000;
  }

  lemma {:induction false} FewBits()
    ensures Pow(2, 7) == 128 && Pow(2, 14) == 0x4000 && Pow(2, 21) == 0x20_0000 && Pow(2, 28) == 0x1000_0000
  {
    TwentyEightBits();
    SevenBits(7);
    SevenBits(14);
  }

  lemma {:induction false} BelowNext(exact: nat, low: nat, unit: nat)
    requires exact < unit && low < 128
    ensures exact + low * unit < unit * 128
  {
    assert low * unit <= 127 * unit;
  }

  lemma {:induction false} WideByte(whole: Bytes, rest: Bytes, m: nat, exact: nat, unit: nat)
    requires ReadingWide(whole, rest, m, exact, unit)
    ensures m == 0 || rest == [] ==> TooLong(whole)
    ensures m > 0 && rest != [] && rest[0] < 128 ==>
              ParseVarint(whole, 10) == Some(Parsed(exact + rest[0] % 128 * unit, rest[1..]))
    ensures m > 0 && rest != [] && rest[0] >= 128 ==>
              ReadingWide(whole, rest[1..], m - 1, exact + rest[0] % 128 * unit, unit * 128)
  {
    hide ParseVarint, Resume;
    ResumeEnd(rest, m, exact, unit);
    if rest != [] {
      SevenLow(rest[0]);
    }
    if m > 0 && rest != [] && rest[0] >= 128 {
      ResumeStep(rest, m, exact, unit);
    }
  }

  /** One more byte, which the loop adds at `bitpos` if that is within the word. */
  lemma {:induction false} ReadingLowStep(whole: Bytes, rest: Bytes, m: nat, exact: nat, bitpos: nat, value: nat)
    requires ReadingLow(whole, rest, m, exact, bitpos, value)
    ensures bitpos <= 70 && (m == 0 || rest == [] ==> TooLong(whole))
    ensures m > 0 && rest != [] ==>
              var more := Shifted(rest[0], bitpos);
              var next := if bitpos >= 32 then value else Or(value, more % TWO_32);
              && (rest[0] < 128 ==> EndsLow(whole, rest[1..], next))
              && (rest[0] >= 128 ==> ReadingLow(whole, rest[1..], m - 1, exact + more, bitpos + 7, next))
  {
    hide Or, Pow, ParseVarint, TooLong, ReadingWide;
    var unit := Pow(2, bitpos);
    WideByte(whole, rest, m, exact, unit);
    if m > 0 && rest != [] {
      var low := rest[0] % 128;
      LowDigit(exact, low, bitpos, value);
      var more := low * unit;
    }
  }

  lemma {:induction false} SevenLow(b: Byte)
    ensures b % 128 == if b < 128 then b else b - 128
  {
  }

  /** pb_decode_varint32_eof. The shift count is an eight-bit integer, and wraps. */
  method DecodeVarint32(s: InputStream) returns (ok: bool, eof: bool, value: nat)
    requires s.Valid()
    modifies s
    ensures s.Valid() && Follows(old(s.state), old(s.bytesLeft), s.state, s.bytesLeft)
    ensures ok ==> s.bytesLeft < old(s.bytesLeft)
    ensures Fits32(old(s.Rest())) ==> ok && ParseVarint(old(s.Rest()), 5) == Some(Parsed(value, s.Rest()))
    ensures ok ==> EndsLow(old(s.Rest()), s.Rest(), value)
  {
    hide Or, Reading, ReadingLow, EndsLow, TooLong, ParseVarint, Follows, Shifted, Fits32;
    ghost var whole := s.Rest();
    FollowsSelf(s.state, s.bytesLeft);
    if Fits32(whole) {
      ReadingStarts(whole);
    }
    if whole != [] {
      ReadingLowStarts(whole);
    }
    var byte;
    ok, byte := s.ReadByte();
    if !ok {
      return false, true, 0;
    }
    if byte < 0x80 {
      FollowsLess(old(s.state), old(s.bytesLeft), s.state, s.bytesLeft);
      return true, false, byte;
    }
    FollowsLess(old(s.state), old(s.bytesLeft), s.state, s.bytesLeft);
    var bitpos: nat := 7;
    value := byte % 128;
    ghost var n: nat, m: nat, exact: nat := 4, 9, value;
    while byte >= 0x80
      invariant s.Valid() && Follows(old(s.state), old(s.bytesLeft), s.state, s.bytesLeft)
      invariant s.bytesLeft < old(s.bytesLeft)
      invariant Fits32(whole) && byte >= 0x80 ==> Reading(whole, s.Rest(), n, bitpos, value)
      invariant Fits32(whole) && byte < 0x80 ==> ParseVarint(whole, 5) == Some(Parsed(value, s.Rest()))
      invariant Fits32(whole) && byte < 0x80 && bitpos == 35 ==> byte < 16
      invariant byte < 0x80 ==> EndsLow(whole, s.Rest(), value)
      invariant byte >= 0x80 ==> TooLong(whole) || ReadingLow(whole, s.Rest(), m, exact, bitpos, value)
      decreases byte >= 0x80, s.bytesLeft
    {
      if Fits32(whole) {
        ReadingStep(whole, s.Rest(), n, bitpos, value);
        n := n - 1;
      }
      ghost var rest := s.Rest();
      if !TooLong(whole) {
        ReadingLowStep(whole, rest, m, exact, bitpos, value);
        exact, m := exact + Shifted(rest[0], bitpos), m - 1;
      }
      ghost var state, left := s.state, s.bytesLeft;
      ok, byte := s.ReadByte();
      FollowsOn(old(s.state), old(s.bytesLeft), state, left, s.state, s.bytesLeft);
      if !ok {
        return false, false, 0;
      }
      if bitpos >= 32 {
        var signExtension := if bitpos < 63 then 0xFF else 0x01;
        if byte % 128 != 0 && (value < 0x8000_0000 || byte != signExtension) {
          return false, false, 0;
        }
      } else {
        value := Or(value, Shifted(byte, bitpos) % TWO_32);
      }
      if TooLong(whole) {
        TooLongEnds(whole, s.Rest(), value);
      }
      bitpos := (bitpos + 7) % 256;
    }
    if bitpos == 35 && byte >= 0x10 {
      return false, false, 0;
    }
    ok, eof := true, false;
  }

  lemma {:induction false} FollowsLess(before: Bytes, left: nat, state: Bytes, bytesLeft: nat)
    requires Follows(before, left, state, bytesLeft)
    ensures bytesLeft <= left
  {
  }

  lemma {:induction false} VarintFits32(v: nat, rest: Bytes)
    requires v < TWO_32
    ensures Fits32(Varint(v) + rest) && ParseVarint(Varint(v) + rest, 5) == Some(Parsed(v, rest))
  {
    Pow128();
    VarintRoundTrip(v, 5, rest);
  }

  /** pb_decode_tag. */
  method DecodeTag(s: InputStream, ghost field: nat, ghost w: nat, ghost rest: Bytes)
    returns (ok: bool, eof: bool, tag: nat, wire: nat)
    requires s.Valid()
    modifies s
    ensures s.Valid() && Follows(old(s.state), old(s.bytesLeft), s.state, s.bytesLeft)
    ensures ok ==> s.bytesLeft < old(s.bytesLeft) && (tag > 0 || wire > 0) && wire < 8
    ensures old(s.Rest()) == TagBytes(field, w) + rest && 0 < field < 0x2000_0000 && w < 8 ==>
              ok && tag == field && wire == w && s.Rest() == rest
  {
    hide Varint, ParseVarint, Fits32, Follows;
    if s.Rest() == TagBytes(field, w) + rest && 0 < field < 0x2000_0000 && w < 8 {
      VarintFits32(field * 8 + w, rest);
    }
    var temp;
    ok, eof, temp := DecodeVarint32(s);
    if !ok {
      return false, eof, 0, 0;
    }
    if temp == 0 {
      return false, true, 0, 0;
    }
    tag, wire := temp / 8, temp % 8;
  }

  /** What is behind the first byte below 128. */
  function AfterVarint(s: Bytes): Option<Bytes> {
    if s == [] then None else if s[0] < 128 then Some(s[1..]) else AfterVarint(s[1..])
  }

  /** pb_skip_field: a varint, eight bytes, counted bytes, four bytes, or nothing that could be skipped. */
  method SkipField(s: InputStream, wire: nat) returns (ok: bool)
    requires s.Valid()
    modifies s
    ensures s.Valid() && Follows(old(s.state), old(s.bytesLeft), s.state, s.bytesLeft)
    ensures wire == 0 ==> AfterVarint(old(s.Rest())) == if ok then Some(s.Rest()) else None
    ensures wire == 1 ==> (ok <==> |old(s.Rest())| >= 8) && (ok ==> s.Rest() == old(s.Rest())[8..])
    ensures wire == 2 && Fits32(old(s.Rest())) ==>
              var p := ParseVarint(old(s.Rest()), 5).value;
              (ok <==> p.value <= |p.rest|) && (ok ==> s.Rest() == p.rest[p.value..])
    ensures wire == 5 ==> (ok <==> |old(s.Rest())| >= 4) && (ok ==> s.Rest() == old(s.Rest())[4..])
    ensures wire !in {0, 1, 2, 5} ==> !ok
  {
    hide Follows, ParseVarint, AfterVarint, EndsLow;
    var b;
    if wire == WT_VARINT {
      ok := SkipVarint(s);
    } else if wire == WT_64BIT {
      ok, b := s.Read(8);
    } else if wire == WT_STRING {
      var eof, length;
      ok, eof, length := DecodeVarint32(s);
      if ok {
        ghost var state, left := s.state, s.bytesLeft;
        ok, b := s.Read(length);
        FollowsOn(old(s.state), old(s.bytesLeft), state, left, s.state, s.bytesLeft);
      }
    } else if wire == WT_32BIT {
      ok, b := s.Read(4);
    } else {
      FollowsSelf(s.state, s.bytesLeft);
      ok := false;
    }
  }

  /** pb_skip_varint. */
  method SkipVarint(s: InputStream) returns (ok: bool)
    requires s.Valid()
    modifies s
    ensures s.Valid() && Follows(old(s.state), old(s.bytesLeft), s.state, s.bytesLeft)
    ensures AfterVarint(old(s.Rest())) == if ok then Some(s.Rest()) else None
  {
    hide Follows;
    FollowsSelf(s.state, s.bytesLeft);
    var byte: Byte := 0x80;
    while byte >= 0x80
      invariant s.Valid() && Follows(old(s.state), old(s.bytesLeft), s.state, s.bytesLeft)
      invariant AfterVarint(old(s.Rest())) == if byte >= 0x80 then AfterVarint(s.Rest()) else Some(s.Rest())
      decreases byte >= 0x80, s.bytesLeft
    {
      ghost var state, left := s.state, s.bytesLeft;
      ok, byte := s.ReadByte();
      FollowsOn(old(s.state), old(s.bytesLeft), state, left, s.state, s.bytesLeft);
      if !ok {
        return;
      }
    }
    ok := true;
  }

  // ----- substreams ----------------------------------------------------------------

  /** `b` is at the front of the stream, with its length before it, and `rest` after it. */
  ghost predicate StartsDelimited(s: Bytes, b: Bytes, rest: Bytes) {
    |b| < TWO_32 && s == Delimited(b) + rest
  }

  /** pb_make_string_substream: a stream of the bytes whose length comes first. The stream itself has given them up,
      but stands before them until the substream is closed. */
  method MakeSubstream(s: InputStream, ghost b: Bytes, ghost rest: Bytes) returns (ok: bool, sub: InputStream)
    requires s.Valid()
    modifies s
    ensures fresh(sub) && sub.Valid() && s.bytesLeft <= old(s.bytesLeft) <= |old(s.state)|
    ensures !ok ==> s.Valid() && Follows(old(s.state), old(s.bytesLeft), s.state, s.bytesLeft)
    ensures ok ==> Opened(old(s.state), old(s.bytesLeft), s.state, s.bytesLeft, sub.bytesLeft) && sub.state == s.state
    ensures StartsDelimited(old(s.Rest()), b, rest) ==> ok && sub.Rest() == b && OpenRest(s.state, s.bytesLeft, |b|) == rest
  {
    hide Varint, ParseVarint, Fits32, Follows;
    ghost var whole := s.Rest();
    if StartsDelimited(whole, b, rest) {
      assert Delimited(b) + rest == Varint(|b|) + (b + rest);
      VarintFits32(|b|, b + rest);
    }
    var eof, size;
    ok, eof, size := DecodeVarint32(s);
    sub := new InputStream(s.state, s.bytesLeft);
    FollowsLess(old(s.state), old(s.bytesLeft), s.state, s.bytesLeft);
    if !ok {
      return;
    }
    if StartsDelimited(whole, b, rest) {
      OpenRestFacts(s.state, s.bytesLeft, b, rest);
    }
    if sub.bytesLeft < size {
      return false, sub;
    }
    OpenedFacts(old(s.state), old(s.bytesLeft), s.state, s.bytesLeft, size);
    sub.bytesLeft := size;
    s.bytesLeft := s.bytesLeft - size;
  }

  /** The stream is at `state` with `bytesLeft` after the `size` bytes of a substream. */
  ghost predicate Opened(before: Bytes, left: nat, state: Bytes, bytesLeft: nat, size: nat) {
    bytesLeft + size < left <= |before| && state == before[left - bytesLeft - size..]
  }

  /** What is left of the stream after the `size` bytes of the substream. */
  ghost function OpenRest(state: Bytes, bytesLeft: nat, size: nat): Bytes {
    if size + bytesLeft <= |state| then state[size..size + bytesLeft] else []
  }

  lemma {:induction false} OpenedFacts(before: Bytes, left: nat, state: Bytes, bytesLeft: nat, size: nat)
    requires Follows(before, left, state, bytesLeft) && size <= bytesLeft < left
    ensures Opened(before, left, state, bytesLeft - size, size)
  {
  }

  lemma {:induction false} OpenRestFacts(state: Bytes, bytesLeft: nat, b: Bytes, rest: Bytes)
    requires bytesLeft <= |state| && state[..bytesLeft] == b + rest
    ensures |b| <= bytesLeft && state[..|b|] == b && OpenRest(state, bytesLeft - |b|, |b|) == rest
  {
    assert state[..|b|] == state[..bytesLeft][..|b|];
    assert state[|b|..bytesLeft] == state[..bytesLeft][|b|..];
  }

  lemma {:induction false} ClosedFacts(before: Bytes, left: nat, state: Bytes, bytesLeft: nat, size: nat, after: Bytes)
    requires Opened(before, left, state, bytesLeft, size) && Follows(state, size, after, 0)
    ensures bytesLeft <= |after| && Follows(before, left, after, bytesLeft)
    ensures after[..bytesLeft] == OpenRest(state, bytesLeft, size)
  {
    assert before[left - bytesLeft - size..][size..] == before[left - bytesLeft..];
  }

  /** pb_close_string_substream: skips what is left of the substream, of `size` bytes at first. */
  method CloseSubstream(s: InputStream, sub: InputStream, ghost before: Bytes, ghost left: nat, ghost size: nat)
    returns (ok: bool)
    requires Opened(before, left, s.state, s.bytesLeft, size) && s != sub
    requires sub.Valid() && Follows(s.state, size, sub.state, sub.bytesLeft)
    modifies s, sub
    ensures ok && s.Valid() && s.bytesLeft == old(s.bytesLeft) < left && Follows(before, left, s.state, s.bytesLeft)
    ensures s.Rest() == OpenRest(old(s.state), s.bytesLeft, size)
  {
    hide Opened, OpenRest, Follows;
    ghost var state, subLeft := sub.state, sub.bytesLeft;
    if sub.bytesLeft > 0 {
      var b;
      ok, b := sub.Read(sub.bytesLeft);
      FollowsOn(s.state, size, state, subLeft, sub.state, sub.bytesLeft);
      if !ok {
        return;
      }
    }
    OpenedLess(before, left, s.state, s.bytesLeft, size);
    ClosedFacts(before, left, s.state, s.bytesLeft, size, sub.state);
    s.state := sub.state;
    ok := true;
  }

  lemma {:induction false} OpenedLess(before: Bytes, left: nat, state: Bytes, bytesLeft: nat, size: nat)
    requires Opened(before, left, state, bytesLeft, size)
    ensures bytesLeft < left
  {
  }
}
