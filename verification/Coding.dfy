/** Bytes, fixed-width and variable-length integers, length-prefixed slices (util/coding.cc). */
module Coding {
  import opened DbFormat

  type Byte = x: int | 0 <= x < 256
  type Bytes = seq<Byte>

  const TWO_32: nat := 0x1_0000_0000
  const TWO_64: nat := 0x1_0000_0000_0000_0000

  type Word32 = x: int | 0 <= x < 0x1_0000_0000

  /** A checksum of bytes, such as crc32c::Value. */
  type Crc = Bytes -> Word32

  /** A parsed value and the bytes after it. */
  datatype Parsed<+T> = Parsed(value: T, rest: Bytes)

  // ----- fixed width, little endian ----------------------------------------

  function Fixed(v: nat, width: nat): (s: Bytes)
    ensures |s| == width
  {
    if width == 0 then [] else [v % 256] + Fixed(v / 256, width - 1)
  }

  function Unfixed(s: Bytes): nat {
    if s == [] then 0 else s[0] + 256 * Unfixed(s[1..])
  }

  function Pow(base: nat, exponent: nat): (p: nat)
    ensures base > 0 ==> p > 0
  {
    if exponent == 0 then 1 else base * Pow(base, exponent - 1)
  }

  lemma {:induction false} UnfixedFixed(v: nat, width: nat)
    requires v < Pow(256, width)
    ensures Unfixed(Fixed(v, width)) == v
  {
    if width > 0 {
      assert v / 256 < Pow(256, width - 1);
      UnfixedFixed(v / 256, width - 1);
      assert Fixed(v, width)[1..] == Fixed(v / 256, width - 1);
    }
  }

  function EncodeFixed32(v: Word32): (s: Bytes)
    ensures |s| == 4
    ensures DecodeFixed32(s) == v
  {
    Pow256();
    UnfixedFixed(v, 4);
    Fixed(v, 4)
  }

  function DecodeFixed32(s: Bytes): Word32
    requires |s| == 4
  {
    UnfixedBound(s);
    Pow256();
    Unfixed(s)
  }

  function EncodeFixed64(v: nat): (s: Bytes)
    requires v < TWO_64
    ensures |s| == 8
    ensures DecodeFixed64(s) == v
  {
    Pow256();
    UnfixedFixed(v, 8);
    Fixed(v, 8)
  }

  function DecodeFixed64(s: Bytes): (v: nat)
    requires |s| == 8
    ensures v < TWO_64
  {
    UnfixedBound(s);
    Pow256();
    Unfixed(s)
  }

  lemma {:induction false} Pow256()
    ensures Pow(256, 4) == TWO_32 && Pow(256, 8) == TWO_64
  {
    assert Pow(256, 2) == 0x1_0000;
    assert Pow(256, 4) == TWO_32;
    assert Pow(256, 6) == 0x1_0000_0000_0000;
  }

  lemma {:induction false} UnfixedBound(s: Bytes)
    ensures Unfixed(s) < Pow(256, |s|)
  {
    if s != [] {
      UnfixedBound(s[1..]);
    }
  }

  /** A list of 32-bit values. */
  function Fixed32s(values: seq<nat>): (s: Bytes)
    requires forall i :: 0 <= i < |values| ==> values[i] < TWO_32
    ensures |s| == 4 * |values|
  {
    if values == [] then [] else Fixed32s(values[..|values| - 1]) + EncodeFixed32(values[|values| - 1])
  }

  lemma {:induction false} Fixed32sAt(values: seq<nat>, i: nat)
    requires i < |values| && forall i :: 0 <= i < |values| ==> values[i] < TWO_32
    ensures Fixed32s(values)[4 * i..4 * i + 4] == EncodeFixed32(values[i])
    decreases |values|
  {
    hide EncodeFixed32;
    var n := |values| - 1;
    if i < n {
      Fixed32sAt(values[..n], i);
      assert Fixed32s(values)[..4 * n] == Fixed32s(values[..n]);
      assert Fixed32s(values)[4 * i..4 * i + 4] == Fixed32s(values)[..4 * n][4 * i..4 * i + 4];
    }
  }

  /** The low 32 bits of each number. */
  function Low(values: seq<nat>): (r: seq<nat>)
    ensures |r| == |values| && forall i :: 0 <= i < |r| ==> r[i] < TWO_32
  {
    seq(|values|, i requires 0 <= i < |values| => values[i] % TWO_32)
  }

  lemma {:induction false} LowWords(values: seq<nat>)
    requires forall i :: 0 <= i < |values| ==> values[i] < TWO_32
    ensures Low(values) == values
  {
  }

  // ----- varints -----------------------------------------------------------

  /** Seven bits a byte, low bits first, the high bit set on all bytes but the last. */
  function Varint(v: nat): (s: Bytes)
    ensures |s| > 0
  {
    if v < 128 then [v] else [v % 128 + 128] + Varint(v / 128)
  }

  /** A varint of at most `n` bytes at the front of `s`; None if it does not end there. */
  function ParseVarint(s: Bytes, n: nat): (r: Option<Parsed<nat>>)
    ensures r.Some? ==> |r.value.rest| < |s|
  {
    if n == 0 || s == [] then None
    else if s[0] < 128 then Some(Parsed(s[0], s[1..]))
    else match ParseVarint(s[1..], n - 1)
      case None => None
      case Some(p) => Some(Parsed(s[0] - 128 + 128 * p.value, p.rest))
  }

  lemma {:induction false} VarintRoundTrip(v: nat, n: nat, rest: Bytes)
    requires n > 0 && v < Pow(128, n)
    ensures ParseVarint(Varint(v) + rest, n) == Some(Parsed(v, rest))
  {
    if v < 128 {
      assert (Varint(v) + rest)[1..] == rest;
    } else {
      assert Pow(128, 1) == 128;
      assert v / 128 < Pow(128, n - 1);
      VarintRoundTrip(v / 128, n - 1, rest);
      assert (Varint(v) + rest)[1..] == Varint(v / 128) + rest;
    }
  }

  /** GetVarint32: five bytes at most, bits above the thirty-second lost. */
  function GetVarint32(s: Bytes): (r: Option<Parsed<Word32>>)
    ensures r.Some? ==> |r.value.rest| < |s|
  {
    match ParseVarint(s, 5)
    case None => None
    case Some(p) => Some(Parsed(p.value % TWO_32, p.rest))
  }

  /** GetVarint64: ten bytes at most, bits above the sixty-fourth lost. */
  function GetVarint64(s: Bytes): (r: Option<Parsed<nat>>)
    ensures r.Some? ==> |r.value.rest| < |s| && r.value.value < TWO_64
  {
    match ParseVarint(s, 10)
    case None => None
    case Some(p) => Some(Parsed(p.value % TWO_64, p.rest))
  }

  lemma {:induction false} Varint32RoundTrip(v: Word32, rest: Bytes)
    ensures GetVarint32(Varint(v) + rest) == Some(Parsed(v, rest))
  {
    Pow128();
    VarintRoundTrip(v, 5, rest);
  }

  lemma {:induction false} Varint64RoundTrip(v: nat, rest: Bytes)
    requires v < TWO_64
    ensures GetVarint64(Varint(v) + rest) == Some(Parsed(v, rest))
  {
    Pow128();
    VarintRoundTrip(v, 10, rest);
  }

  lemma {:induction false} Pow128()
    ensures TWO_32 < Pow(128, 5) && TWO_64 < Pow(128, 10)
    ensures Pow(128, 1) == 128 && Pow(128, 2) == 0x4000 && Pow(128, 3) == 0x20_0000 && Pow(128, 4) == 0x1000_0000
  {
    assert Pow(128, 2) == 0x4000;
    assert Pow(128, 4) == 0x1000_0000;
    assert Pow(128, 5) == 128 * Pow(128, 4);
    assert Pow(128, 6) == 0x400_0000_0000;
    assert Pow(128, 8) == 0x100_0000_0000_0000;
    assert Pow(128, 10) == 0x40_0000_0000_0000_0000;
  }

  /** EncodeVarint32, one branch a length. */
  method EncodeVarint32(v: Word32) returns (s: Bytes)
    ensures s == Varint(v)
  {
    if v < 0x80 {
      s := [v];
    } else if v < 0x4000 {
      s := [v % 128 + 128, v / 0x80];
    } else if v < 0x20_0000 {
      s := [v % 128 + 128, v / 0x80 % 128 + 128, v / 0x4000];
      assert v / 0x80 / 128 == v / 0x4000;
      VarintStep(v / 0x80);
    } else if v < 0x1000_0000 {
      s := [v % 128 + 128, v / 0x80 % 128 + 128, v / 0x4000 % 128 + 128, v / 0x20_0000];
      assert v / 0x80 / 128 == v / 0x4000;
      assert v / 0x4000 / 128 == v / 0x20_0000;
      VarintStep(v / 0x4000);
    } else {
      s := [v % 128 + 128, v / 0x80 % 128 + 128, v / 0x4000 % 128 + 128, v / 0x20_0000 % 128 + 128, v / 0x1000_0000];
      assert v / 0x80 / 128 == v / 0x4000;
      assert v / 0x4000 / 128 == v / 0x20_0000;
      assert v / 0x20_0000 / 128 == v / 0x1000_0000;
      VarintStep(v / 0x4000);
      VarintStep(v / 0x20_0000);
    }
  }

  lemma {:induction false} VarintStep(v: nat)
    requires v >= 128
    ensures Varint(v) == [v % 128 + 128] + Varint(v / 128)
  {
  }

  /** EncodeVarint64. */
  method EncodeVarint64(value: nat) returns (s: Bytes)
    requires value < TWO_64
    ensures s == Varint(value)
  {
    var v := value;
    s := [];
    while v >= 128
      invariant Varint(value) == s + Varint(v)
    {
      s := s + [v % 128 + 128];
      v := v / 128;
    }
    s := s + [v];
  }

  method VarintLength(value: nat) returns (len: nat)
    requires value < TWO_64
    ensures len == |Varint(value)|
  {
    var v := value;
    len := 1;
    while v >= 128
      invariant |Varint(value)| == len - 1 + |Varint(v)|
    {
      v := v / 128;
      len := len + 1;
    }
  }

  /** What a parse yields whose first `k` bytes were continuation bytes worth `sofar`. */
  function Resume(sofar: nat, unit: nat, p: Option<Parsed<nat>>): Option<Parsed<nat>> {
    match p
    case None => None
    case Some(q) => Some(Parsed(sofar + unit * q.value, q.rest))
  }

  lemma {:induction false} ResumeStep(s: Bytes, n: nat, sofar: nat, unit: nat)
    requires n > 0 && s != [] && s[0] >= 128
    ensures Resume(sofar, unit, ParseVarint(s, n)) == Resume(sofar + (s[0] - 128) * unit, unit * 128, ParseVarint(s[1..], n - 1))
  {
    var p := ParseVarint(s[1..], n - 1);
    if p.Some? {
      var low, v := s[0] - 128, p.value.value;
      assert sofar + unit * (low + 128 * v) == sofar + low * unit + (unit * 128) * v;
    }
  }

  lemma {:induction false} ResumeEnd(s: Bytes, n: nat, sofar: nat, unit: nat)
    ensures n == 0 || s == [] ==> Resume(sofar, unit, ParseVarint(s, n)) == None
    ensures n > 0 && s != [] && s[0] < 128 ==>
              Resume(sofar, unit, ParseVarint(s, n)) == Some(Parsed(sofar + unit * s[0], s[1..]))
  {
  }

  /** The loop of GetVarint64Ptr (`wide`: ten bytes, 64 bits) and of GetVarint32PtrFallback (five
      bytes, 32 bits). Shifted bits that do not fit the word are lost. */
  method GetVarintPtr(s: Bytes, wide: bool) returns (r: Option<Parsed<nat>>)
    ensures wide ==> r == GetVarint64(s)
    ensures !wide ==> r == GetVarint32(s)
  {
    hide ParseVarint, Truncated, Resume;
    var limit: nat := if wide then 10 else 5;
    TruncatedFacts(s);
    ResumeStart(s, limit);
    var i := 0;
    var result: nat, unit: nat := 0, 1;
    ghost var exact: nat := 0;
    while i < limit && i < |s|
      invariant i <= limit && i <= |s|
      invariant result == Truncated(exact, wide)
      invariant ParseVarint(s, limit) == Resume(exact, unit, ParseVarint(s[i..], limit - i))
    {
      var byte: nat := s[i];
      var low: nat := if byte >= 128 then byte - 128 else byte;
      assert s[i..][1..] == s[i + 1..];
      var shifted := low * unit;
      TruncatedSum(exact, shifted, wide);
      result := Truncated(result + shifted, wide);
      if byte < 128 {
        ResumeEnd(s[i..], limit - i, exact, unit);
        return Some(Parsed(result, s[i + 1..]));
      }
      ResumeStep(s[i..], limit - i, exact, unit);
      exact := exact + shifted;
      i := i + 1;
      unit := unit * 128;
    }
    ResumeEnd(s[i..], limit - i, exact, unit);
    r := None;
  }

  lemma {:induction false} ResumeStart(s: Bytes, n: nat)
    ensures ParseVarint(s, n) == Resume(0, 1, ParseVarint(s[0..], n))
  {
    assert s[0..] == s;
  }

  lemma {:induction false} TruncatedFacts(s: Bytes)
    ensures Truncated(0, true) == 0 && Truncated(0, false) == 0
    ensures GetVarint64(s) == match ParseVarint(s, 10) case None => None case Some(p) => Some(Parsed(Truncated(p.value, true), p.rest))
    ensures GetVarint32(s) == match ParseVarint(s, 5) case None => None case Some(p) => Some(Parsed(Truncated(p.value, false), p.rest))
  {
  }

  /** The low 64 or 32 bits of `v`. */
  function Truncated(v: nat, wide: bool): nat {
    if wide then v % TWO_64 else v % TWO_32
  }

  lemma {:induction false} TruncatedSum(a: nat, b: nat, wide: bool)
    ensures Truncated(Truncated(a, wide) + b, wide) == Truncated(a + b, wide)
  {
  }

  // ----- length-prefixed slices --------------------------------------------

  function LengthPrefixed(s: Bytes): (r: Bytes)
    requires |s| < TWO_32
  {
    Varint(|s|) + s
  }

  function GetLengthPrefixed(s: Bytes): (r: Option<Parsed<Bytes>>)
    ensures r.Some? ==> |r.value.rest| < |s|
  {
    match GetVarint32(s)
    case None => None
    case Some(len) =>
      if len.value <= |len.rest| then Some(Parsed(len.rest[..len.value], len.rest[len.value..])) else None
  }

  lemma {:induction false} LengthPrefixedRoundTrip(s: Bytes, rest: Bytes)
    requires |s| < TWO_32
    ensures GetLengthPrefixed(LengthPrefixed(s) + rest) == Some(Parsed(s, rest))
  {
    assert LengthPrefixed(s) + rest == Varint(|s|) + (s + rest);
    Varint32RoundTrip(|s|, s + rest);
    assert (s + rest)[..|s|] == s && (s + rest)[|s|..] == rest;
  }

  // ----- masked checksums (util/crc32c.h) ----------------------------------

  const MASK_DELTA: Word32 := 0xa282ead8

  /** Rotate right by 15 bits and add a constant, in 32 bits. */
  function Mask(crc: Word32): Word32 {
    (crc / 0x8000 + crc % 0x8000 * 0x2_0000 + MASK_DELTA) % TWO_32
  }

  function Unmask(masked: Word32): Word32 {
    var rot := (masked - MASK_DELTA) % TWO_32;
    rot / 0x2_0000 + rot % 0x2_0000 * 0x8000
  }

  lemma {:induction false} UnmaskMask(crc: Word32)
    ensures Unmask(Mask(crc)) == crc
  {
    var high, low := crc / 0x8000, crc % 0x8000;
    var rot := high + low * 0x2_0000;
    assert (Mask(crc) - MASK_DELTA) % TWO_32 == rot;
    assert rot / 0x2_0000 == low && rot % 0x2_0000 == high;
  }
}
