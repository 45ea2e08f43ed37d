/** Reading bytes by the published encodings alone: base-128 varints and little-endian numbers, as in "Base 128 Varints"
    of the Protocol Buffers Encoding guide. The formats of leveldb and of protocol buffers are read with these.
 */
module ByteReaders {
  import opened DbFormat
  import opened Coding

  /** Seven bits a byte, low bits first, up to the first byte below 128. */
  function ReadVarint(s: Bytes): (r: Option<Parsed<nat>>)
    ensures r.Some? ==> |r.value.rest| < |s|
  {
    if s == [] then None
    else if s[0] < 128 then Some(Parsed(s[0], s[1..]))
    else match ReadVarint(s[1..])
      case None => None
      case Some(p) => Some(Parsed(s[0] - 128 + 128 * p.value, p.rest))
  }

  /** A varint and as many bytes as it says. */
  function ReadCounted(s: Bytes): (r: Option<Parsed<Bytes>>)
    ensures r.Some? ==> |r.value.rest| < |s|
  {
    match ReadVarint(s)
    case None => None
    case Some(n) => if |n.rest| < n.value then None else Some(Parsed(n.rest[..n.value], n.rest[n.value..]))
  }

  /** The bytes of a number, the least significant first. */
  function LittleEndian(n: nat, width: nat): (b: Bytes)
    ensures |b| == width
  {
    if width == 0 then [] else [n % 256] + LittleEndian(n / 256, width - 1)
  }

  // ----- what Coding writes ------------------------------------------------------

  /** A varint reads as its number, and has no byte too many. */
  lemma {:induction false} VarintReads(v: nat, rest: Bytes)
    ensures ReadVarint(Varint(v) + rest) == Some(Parsed(v, rest))
    ensures |Varint(v)| > 1 ==> Varint(v)[|Varint(v)| - 1] > 0
  {
    DigitsRead(v, rest);
    LastDigit(v);
  }

  lemma {:induction false} DigitsRead(v: nat, rest: Bytes)
    ensures ReadVarint(Varint(v) + rest) == Some(Parsed(v, rest))
  {
    var s := Varint(v) + rest;
    if v < 128 {
      assert s[0] == v && s[1..] == rest;
    } else {
      DigitsRead(v / 128, rest);
      assert s[0] == v % 128 + 128 && s[1..] == Varint(v / 128) + rest;
    }
  }

  lemma {:induction false} LastDigit(v: nat)
    ensures |Varint(v)| > 1 ==> Varint(v)[|Varint(v)| - 1] > 0
    ensures v > 0 ==> Varint(v)[|Varint(v)| - 1] > 0
  {
    if v >= 128 {
      LastDigit(v / 128);
    }
  }

  lemma {:induction false} FixedIsLittleEndian(n: nat, width: nat)
    ensures Fixed(n, width) == LittleEndian(n, width)
  {
    if width > 0 {
      FixedIsLittleEndian(n / 256, width - 1);
    }
  }

  /** EncodeFixed32 and EncodeFixed64 are little-endian. */
  lemma {:induction false} FixedBytes(n: nat)
    ensures n < 0x1_0000_0000 ==> EncodeFixed32(n) == LittleEndian(n, 4)
    ensures n < 0x1_0000_0000 ==> LittleEndian(n, 4) == [n % 256, n / 256 % 256, n / 65536 % 256, n / 16777216]
    ensures n < 0x1_0000_0000_0000_0000 ==> EncodeFixed64(n) == LittleEndian(n, 8)
  {
    hide Fixed;
    FixedIsLittleEndian(n, 4);
    FixedIsLittleEndian(n, 8);
    FourDigits(n);
  }

  lemma {:induction false} FourDigits(n: nat)
    ensures n < 0x1_0000_0000 ==> LittleEndian(n, 4) == [n % 256, n / 256 % 256, n / 65536 % 256, n / 16777216]
  {
    hide LittleEndian;
    var n1, n2, n3 := n / 256, n / 65536, n / 16777216;
    FirstDigit(n, 3);
    FirstDigit(n1, 2);
    FirstDigit(n2, 1);
    FirstDigit(n3, 0);
    assert n1 / 256 == n2 && n2 / 256 == n3;
  }

  lemma {:induction false} FirstDigit(n: nat, width: nat)
    ensures LittleEndian(n, width + 1) == [n % 256] + LittleEndian(n / 256, width) && LittleEndian(n / 256, 0) == []
  {
  }

  lemma {:induction false} PrefixedReads(b: Bytes, rest: Bytes)
    ensures ReadCounted(Varint(|b|) + b + rest) == Some(Parsed(b, rest))
  {
    hide Varint, ReadVarint;
    assert Varint(|b|) + b + rest == Varint(|b|) + (b + rest);
    VarintReads(|b|, b + rest);
    assert (b + rest)[..|b|] == b && (b + rest)[|b|..] == rest;
  }
}
