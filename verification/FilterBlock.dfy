/** Bloom filters (util/bloom.cc) and the filter block that holds one for every 2 KiB of table
    (table/filter_block.cc). The hash is an arbitrary function.
 */
module Filters {
  import opened DbFormat
  import opened Coding

  type Hash = Bytes -> Word32

  // ----- bits --------------------------------------------------------------

  /** Bit `j` of `b`. */
  predicate HasBit(b: nat, j: nat)
    decreases j
  {
    if j == 0 then b % 2 == 1 else HasBit(b / 2, j - 1)
  }

  /** `b | (1 << j)`. */
  function OrBit(b: nat, j: nat): nat
    decreases j
  {
    if j == 0 then b / 2 * 2 + 1 else OrBit(b / 2, j - 1) * 2 + b % 2
  }

  lemma {:induction false} OrBitKeeps(b: nat, j: nat, i: nat)
    ensures HasBit(OrBit(b, j), i) <==> i == j || HasBit(b, i)
    decreases j
  {
    var r := OrBit(b, j);
    if j == 0 {
      assert r / 2 == b / 2;
    } else {
      assert r / 2 == OrBit(b / 2, j - 1) && r % 2 == b % 2;
      if i > 0 {
        OrBitKeeps(b / 2, j - 1, i - 1);
      }
    }
  }

  lemma {:induction false} OrBitFits(b: nat, j: nat, n: nat)
    requires j < n && b < Pow(2, n)
    ensures OrBit(b, j) < Pow(2, n)
    decreases j
  {
    var half := Pow(2, n - 1);
    assert Pow(2, n) == 2 * half;
    hide Pow;
    if j == 0 {
      Doubled(b, b / 2, 1, half);
    } else {
      Doubled(b, b / 2, 0, half);
      OrBitFits(b / 2, j - 1, n - 1);
      Doubled(b, OrBit(b / 2, j - 1), b % 2, half);
    }
  }

  lemma {:induction false} Doubled(b: nat, high: nat, low: nat, half: nat)
    requires b < 2 * half && low < 2 && (high < half || high == b / 2)
    ensures high * 2 + low < 2 * half && b / 2 < half
  {
  }

  lemma {:induction false} Pow2Eight()
    ensures Pow(2, 8) == 256
  {
    assert Pow(2, 4) == 16;
  }

  function SetBit(b: Byte, j: nat): Byte
    requires j < 8
  {
    Pow2Eight();
    OrBitFits(b, j, 8);
    OrBit(b, j)
  }

  /** Bit `j` is the parity of what is left when `j` bits are shifted out. */
  lemma {:induction false} HasBitIs(b: nat, j: nat)
    ensures HasBit(b, j) <==> b / Pow(2, j) % 2 == 1
    decreases j
  {
    if j > 0 {
      HasBitIs(b / 2, j - 1);
      HalveAndDivide(b, Pow(2, j - 1));
    }
  }

  lemma {:induction false} HalveAndDivide(b: nat, n: nat)
    requires n > 0
    ensures b / 2 / n == b / (2 * n)
  {
    var q, r := b / 2 / n, b / 2 % n;
    assert b / 2 == n * q + r;
    assert 2 * (n * q) == 2 * n * q;
    QuotientIs(b, 2 * n, q, 2 * r + b % 2);
  }

  lemma {:induction false} QuotientIs(b: nat, d: nat, q: nat, low: nat)
    requires b == d * q + low && low < d
    ensures b / d == q
  {
    var x: int := b / d - q;
    assert d * x == d * (b / d) - d * q;
    assert b == d * (b / d) + b % d;
    OnlyZeroIsSmall(d, x);
  }

  lemma {:induction false} OnlyZeroIsSmall(d: int, x: int)
    requires d > 0
    ensures -d < d * x < d ==> x == 0
  {
    if x >= 1 {
      assert d * x == d + d * (x - 1) && d * (x - 1) >= 0;
    } else if x <= -1 {
      assert d * x == d * (x + 1) - d && d * (x + 1) <= 0;
    }
  }

  predicate BitOn(bits: Bytes, p: nat)
    requires p < 8 * |bits|
  {
    HasBit(bits[p / 8], p % 8)
  }

  function TurnOn(bits: Bytes, p: nat): (r: Bytes)
    requires p < 8 * |bits|
    ensures |r| == |bits|
  {
    bits[p / 8 := SetBit(bits[p / 8], p % 8)]
  }

  /** One bit goes on, the others stay. */
  lemma {:induction false} TurnOnIs(bits: Bytes, p: nat, q: nat)
    requires p < 8 * |bits| && q < 8 * |bits|
    ensures BitOn(TurnOn(bits, p), q) <==> q == p || BitOn(bits, q)
  {
    if p / 8 == q / 8 {
      OrBitKeeps(bits[p / 8], p % 8, q % 8);
    }
  }

  // ----- Bloom filters -----------------------------------------------------

  /** The hash rotated right by 17 bits. */
  function Delta(h: Word32): Word32 {
    h / 0x2_0000 + h % 0x2_0000 * 0x8000
  }

  /** Turns on the bits of `k` probes by double hashing. */
  function SetProbes(bits: Bytes, h: Word32, delta: Word32, k: nat): (r: Bytes)
    requires bits != []
    ensures |r| == |bits|
    decreases k
  {
    if k == 0 then bits else SetProbes(TurnOn(bits, h % (8 * |bits|)), (h + delta) % TWO_32, delta, k - 1)
  }

  predicate TestProbes(bits: Bytes, h: Word32, delta: Word32, k: nat)
    requires bits != []
    decreases k
  {
    k == 0 || (BitOn(bits, h % (8 * |bits|)) && TestProbes(bits, (h + delta) % TWO_32, delta, k - 1))
  }

  /** All bits on in `a` are on in `b`. */
  ghost predicate Covers(a: Bytes, b: Bytes) {
    |a| == |b| && forall q: nat :: q < 8 * |a| && BitOn(a, q) ==> BitOn(b, q)
  }

  lemma {:induction false} SetProbesCovers(bits: Bytes, h: Word32, delta: Word32, k: nat)
    requires bits != []
    ensures Covers(bits, SetProbes(bits, h, delta, k))
    decreases k
  {
    hide BitOn, TurnOn;
    if k > 0 {
      var p := h % (8 * |bits|);
      SetProbesCovers(TurnOn(bits, p), (h + delta) % TWO_32, delta, k - 1);
      forall q: nat | q < 8 * |bits| && BitOn(bits, q) ensures BitOn(TurnOn(bits, p), q) {
        TurnOnIs(bits, p, q);
      }
    }
  }

  lemma {:induction false} TestsSurvive(a: Bytes, b: Bytes, h: Word32, delta: Word32, k: nat)
    requires a != [] && Covers(a, b) && TestProbes(a, h, delta, k)
    ensures TestProbes(b, h, delta, k)
    decreases k
  {
    hide BitOn;
    if k > 0 {
      TestsSurvive(a, b, (h + delta) % TWO_32, delta, k - 1);
    }
  }

  lemma {:induction false} SetThenTest(bits: Bytes, h: Word32, delta: Word32, k: nat)
    requires bits != []
    ensures TestProbes(SetProbes(bits, h, delta, k), h, delta, k)
    decreases k
  {
    hide BitOn, TurnOn;
    if k > 0 {
      var on := TurnOn(bits, h % (8 * |bits|));
      TurnOnIs(bits, h % (8 * |bits|), h % (8 * |bits|));
      SetThenTest(on, (h + delta) % TWO_32, delta, k - 1);
      SetProbesCovers(on, (h + delta) % TWO_32, delta, k - 1);
    }
  }

  /** The bit array after adding the first `n` keys. */
  function AddKeys(hash: Hash, k: nat, bits: Bytes, keys: seq<Bytes>, n: nat): (r: Bytes)
    requires bits != [] && n <= |keys|
    ensures |r| == |bits|
  {
    if n == 0 then bits
    else
      var h := hash(keys[n - 1]);
      SetProbes(AddKeys(hash, k, bits, keys, n - 1), h, Delta(h), k)
  }

  function Zeros(n: nat): (s: Bytes)
    ensures |s| == n
  {
    seq(n, i => 0)
  }

  function FilterBytes(bitsPerKey: nat, n: nat): nat {
    ((if n * bitsPerKey < 64 then 64 else n * bitsPerKey) + 7) / 8
  }

  /** BloomFilterPolicy::CreateFilter; `k` is the number of probes, from 1 to 30. */
  function BloomFilter(hash: Hash, bitsPerKey: nat, k: nat, keys: seq<Bytes>): Bytes
    requires k <= 30
  {
    AddKeys(hash, k, Zeros(FilterBytes(bitsPerKey, |keys|)), keys, |keys|) + [k]
  }

  /** BloomFilterPolicy::KeyMayMatch. */
  predicate BloomMayMatch(hash: Hash, key: Bytes, filter: Bytes) {
    if |filter| < 2 then false
    else if filter[|filter| - 1] > 30 then true
    else
      var h := hash(key);
      TestProbes(filter[..|filter| - 1], h, Delta(h), filter[|filter| - 1])
  }

  lemma {:induction false} AddedKeyTests(hash: Hash, k: nat, bits: Bytes, keys: seq<Bytes>, n: nat, i: nat)
    requires bits != [] && i < n <= |keys|
    ensures TestProbes(AddKeys(hash, k, bits, keys, n), hash(keys[i]), Delta(hash(keys[i])), k)
  {
    var before := AddKeys(hash, k, bits, keys, n - 1);
    var h := hash(keys[n - 1]);
    if i == n - 1 {
      SetThenTest(before, h, Delta(h), k);
    } else {
      AddedKeyTests(hash, k, bits, keys, n - 1, i);
      SetProbesCovers(before, h, Delta(h), k);
      var h' := hash(keys[i]);
      TestsSurvive(before, AddKeys(hash, k, bits, keys, n), h', Delta(h'), k);
    }
  }

  /** A Bloom filter never rejects a key it was made from. */
  lemma {:induction false} BloomIsSound(hash: Hash, bitsPerKey: nat, k: nat, keys: seq<Bytes>, key: Bytes)
    requires k <= 30 && key in keys
    ensures BloomMayMatch(hash, key, BloomFilter(hash, bitsPerKey, k, keys))
  {
    var i :| 0 <= i < |keys| && keys[i] == key;
    var bits := Zeros(FilterBytes(bitsPerKey, |keys|));
    AddedKeyTests(hash, k, bits, keys, |keys|, i);
    var filter := BloomFilter(hash, bitsPerKey, k, keys);
    assert filter[..|filter| - 1] == AddKeys(hash, k, bits, keys, |keys|);
  }

  /** Probe `j` of a key with hash `h` into `bits` bits: every step adds the hash rotated right by 17 bits. */
  function Probe(h: Word32, j: nat, bits: nat): (p: nat)
    requires bits > 0
    ensures p < bits
  {
    (h + j * (h / 131072 + h % 131072 * 32768)) % 0x1_0000_0000 % bits
  }

  /** `q` is one of the first `k` probes of one of the first `n` keys. */
  ghost predicate Probed(hash: Hash, k: nat, keys: seq<Bytes>, n: nat, bits: nat, q: nat)
    requires bits > 0 && n <= |keys|
  {
    exists i, j :: 0 <= i < n && 0 <= j < k && q == Probe(hash(keys[i]), j, bits)
  }

  /** Where the probes stand after `j` steps of `delta`. */
  function Position(h: nat, delta: nat, j: nat, bits: nat): (p: nat)
    requires bits > 0
    ensures p < bits
  {
    (h + j * delta) % 0x1_0000_0000 % bits
  }

  lemma {:induction false} PositionNext(h: nat, delta: nat, j: nat, bits: nat)
    requires bits > 0
    ensures Position((h + delta) % TWO_32, delta, j, bits) == Position(h, delta, j + 1, bits)
  {
    assert h + (j + 1) * delta == h + delta + j * delta;
    DropMultiple(h + delta, j * delta);
  }

  lemma {:induction false} DropMultiple(a: nat, b: nat)
    ensures (a % TWO_32 + b) % TWO_32 == (a + b) % TWO_32
  {
  }

  lemma {:induction false} ProbesSet(bits: Bytes, h: Word32, delta: Word32, k: nat, q: nat)
    requires bits != [] && q < 8 * |bits|
    ensures BitOn(SetProbes(bits, h, delta, k), q) <==>
            BitOn(bits, q) || exists j :: 0 <= j < k && q == Position(h, delta, j, 8 * |bits|)
    decreases k
  {
    hide BitOn, TurnOn, Position;
    if k > 0 {
      var n := 8 * |bits|;
      var on, next := TurnOn(bits, h % n), (h + delta) % TWO_32;
      FirstPosition(h, delta, n);
      TurnOnIs(bits, h % n, q);
      ProbesSet(on, next, delta, k - 1, q);
      forall j: nat ensures Position(next, delta, j, n) == Position(h, delta, j + 1, n) {
        PositionNext(h, delta, j, n);
      }
      if j :| 0 <= j < k - 1 && q == Position(next, delta, j, n) {
        assert q == Position(h, delta, j + 1, n);
      }
      if j :| 0 < j < k && q == Position(h, delta, j, n) {
        assert q == Position(next, delta, j - 1, n);
      }
    }
  }

  lemma {:induction false} FirstPosition(h: Word32, delta: nat, bits: nat)
    requires bits > 0
    ensures Position(h, delta, 0, bits) == h % bits
  {
  }

  predicate PositionOn(bits: Bytes, h: Word32, delta: Word32, j: nat)
    requires bits != []
  {
    BitOn(bits, Position(h, delta, j, 8 * |bits|))
  }

  lemma {:induction false} ProbesTested(bits: Bytes, h: Word32, delta: Word32, k: nat)
    requires bits != []
    ensures TestProbes(bits, h, delta, k) <==> forall j :: 0 <= j < k ==> PositionOn(bits, h, delta, j)
    decreases k
  {
    hide BitOn, PositionOn;
    if k > 0 {
      var next := (h + delta) % TWO_32;
      FirstPositionOn(bits, h, delta);
      ProbesTested(bits, next, delta, k - 1);
      forall j: nat ensures PositionOn(bits, next, delta, j) == PositionOn(bits, h, delta, j + 1) {
        LaterPositionOn(bits, h, delta, j);
      }
      if TestProbes(bits, next, delta, k - 1) {
        forall j | 0 < j < k ensures PositionOn(bits, h, delta, j) {
          assert PositionOn(bits, next, delta, j - 1);
        }
      }
    }
  }

  lemma {:induction false} FirstPositionOn(bits: Bytes, h: Word32, delta: Word32)
    requires bits != []
    ensures PositionOn(bits, h, delta, 0) == BitOn(bits, h % (8 * |bits|))
  {
    hide BitOn;
    FirstPosition(h, delta, 8 * |bits|);
  }

  lemma {:induction false} LaterPositionOn(bits: Bytes, h: Word32, delta: Word32, j: nat)
    requires bits != []
    ensures PositionOn(bits, (h + delta) % TWO_32, delta, j) == PositionOn(bits, h, delta, j + 1)
  {
    hide BitOn;
    PositionNext(h, delta, j, 8 * |bits|);
  }

  lemma {:induction false} ProbeIs(h: Word32, j: nat, bits: nat)
    requires bits > 0
    ensures Position(h, Delta(h), j, bits) == Probe(h, j, bits)
  {
  }

  lemma {:induction false} KeysSet(hash: Hash, k: nat, bits: Bytes, keys: seq<Bytes>, n: nat, q: nat)
    requires bits != [] && n <= |keys| && q < 8 * |bits|
    ensures BitOn(AddKeys(hash, k, bits, keys, n), q) <==> BitOn(bits, q) || Probed(hash, k, keys, n, 8 * |bits|, q)
  {
    hide BitOn, Probe, Position, Delta;
    if n > 0 {
      KeysSet(hash, k, bits, keys, n - 1, q);
      var h := hash(keys[n - 1]);
      ProbesSet(AddKeys(hash, k, bits, keys, n - 1), h, Delta(h), k, q);
      forall j: nat ensures Position(h, Delta(h), j, 8 * |bits|) == Probe(h, j, 8 * |bits|) {
        ProbeIs(h, j, 8 * |bits|);
      }
    }
  }

  /** A Bloom filter has `bitsPerKey` bits a key, but at least 64, in whole bytes, and then the number of probes.
      The bits on are the probes of the keys and no others. */
  lemma {:induction false} BloomBits(hash: Hash, bitsPerKey: nat, k: nat, keys: seq<Bytes>)
    requires k <= 30
    ensures var filter := BloomFilter(hash, bitsPerKey, k, keys);
            var bytes := |filter| - 1;
            && 8 * bytes >= 64 && 8 * bytes >= |keys| * bitsPerKey
            && (bytes == 8 || 8 * (bytes - 1) < |keys| * bitsPerKey)
            && filter[bytes] == k
            && forall q :: 0 <= q < 8 * bytes ==>
                 (filter[q / 8] / Pow(2, q % 8) % 2 == 1 <==> Probed(hash, k, keys, |keys|, 8 * bytes, q))
  {
    hide SetProbes, Probed, Pow, HasBit;
    var zeros := Zeros(FilterBytes(bitsPerKey, |keys|));
    var filter := BloomFilter(hash, bitsPerKey, k, keys);
    forall q | 0 <= q < 8 * |zeros|
      ensures filter[q / 8] / Pow(2, q % 8) % 2 == 1 <==> Probed(hash, k, keys, |keys|, 8 * |zeros|, q)
    {
      KeysSet(hash, k, zeros, keys, |keys|, q);
      ZeroHasNone(q % 8);
      HasBitIs(filter[q / 8], q % 8);
    }
  }

  lemma {:induction false} ZeroHasNone(j: nat)
    ensures !HasBit(0, j)
    decreases j
  {
    if j > 0 {
      ZeroHasNone(j - 1);
    }
  }

  /** A key may match when all its probes are on. A filter of less than two bytes matches nothing,
      and one with more than 30 probes everything. */
  lemma {:induction false} BloomAnswers(hash: Hash, key: Bytes, filter: Bytes)
    ensures BloomMayMatch(hash, key, filter) <==>
            var bytes := |filter| - 1;
            bytes > 0 && (filter[bytes] <= 30 ==>
              forall j :: 0 <= j < filter[bytes] ==>
                var q := Probe(hash(key), j, 8 * bytes);
                filter[q / 8] / Pow(2, q % 8) % 2 == 1)
  {
    hide HasBit, Pow, Probe, TestProbes, Delta, Position;
    if |filter| >= 2 && filter[|filter| - 1] <= 30 {
      var bytes, h := |filter| - 1, hash(key);
      ProbesTested(filter[..bytes], h, Delta(h), filter[bytes]);
      forall j: nat
        ensures var q := Probe(h, j, 8 * bytes);
                PositionOn(filter[..bytes], h, Delta(h), j) <==> filter[q / 8] / Pow(2, q % 8) % 2 == 1
      {
        ProbeIs(h, j, 8 * bytes);
        var q := Probe(h, j, 8 * bytes);
        HasBitIs(filter[q / 8], q % 8);
      }
    }
  }

  /** The number of probes for `bitsPerKey`: 0.69 of it, rounded down, but from 1 to 30. */
  function ProbeCount(bitsPerKey: nat): (k: nat)
    ensures 1 <= k <= 30
    ensures (k == 1 || 100 * k <= 69 * bitsPerKey) && (k == 30 || 69 * bitsPerKey < 100 * (k + 1))
  {
    var k := bitsPerKey * 69 / 100;
    if k < 1 then 1 else if k > 30 then 30 else k
  }

  /** The inner loop of CreateFilter. */
  method AddKey(hash: Hash, k: nat, filter0: Bytes, key: Bytes) returns (filter: Bytes)
    requires filter0 != []
    ensures filter == SetProbes(filter0, hash(key), Delta(hash(key)), k)
  {
    hide TurnOn, Delta;
    var bits := 8 * |filter0|;
    filter := filter0;
    var h: Word32 := hash(key);
    var delta := Delta(h);
    for j := 0 to k
      invariant |filter| == |filter0|
      invariant SetProbes(filter, h, delta, k - j) == SetProbes(filter0, hash(key), delta, k)
    {
      var bitpos := h % bits;
      filter := TurnOn(filter, bitpos);
      h := (h + delta) % TWO_32;
    }
  }

  /** CreateFilter, appending to `dst0`. */
  method CreateFilter(hash: Hash, bitsPerKey: nat, k: nat, keys: seq<Bytes>, dst0: Bytes) returns (dst: Bytes)
    requires k <= 30
    ensures dst == dst0 + BloomFilter(hash, bitsPerKey, k, keys)
  {
    hide SetProbes, Delta;
    var bits := |keys| * bitsPerKey;
    if bits < 64 {
      bits := 64;
    }
    var bytes := (bits + 7) / 8;
    var filter := Zeros(bytes);
    for i := 0 to |keys|
      invariant |filter| == bytes && filter == AddKeys(hash, k, Zeros(bytes), keys, i)
    {
      filter := AddKey(hash, k, filter, keys[i]);
    }
    dst := dst0 + filter;
    dst := dst + [k];
    assert dst == dst0 + (filter + [k]);
  }

  /** The loop of KeyMayMatch. */
  method KeyMayMatch(hash: Hash, key: Bytes, filter: Bytes) returns (may: bool)
    ensures may == BloomMayMatch(hash, key, filter)
  {
    var len := |filter|;
    if len < 2 {
      return false;
    }
    var bits := (len - 1) * 8;
    var k: nat := filter[len - 1];
    if k > 30 {
      return true;
    }
    var h: Word32 := hash(key);
    var delta := Delta(h);
    var probes := filter[..len - 1];
    for j := 0 to k
      invariant TestProbes(probes, h, delta, k - j) == BloomMayMatch(hash, key, filter)
    {
      var bitpos := h % bits;
      if !BitOn(probes, bitpos) {
        return false;
      }
      h := (h + delta) % TWO_32;
    }
    may := true;
  }

  // ----- the filter block --------------------------------------------------

  const FILTER_BASE_LG: Byte := 11
  const FILTER_BASE: nat := 2048

  /** A filter policy: how filters are made from keys and asked about one. */
  datatype Policy = Policy(create: seq<Bytes> -> Bytes, mayMatch: (Bytes, Bytes) -> bool)

  /** A filter never rejects a key it was made from. */
  ghost predicate Sound(p: Policy) {
    forall keys, key :: key in keys ==> p.mayMatch(key, p.create(keys))
  }

  /** NewBloomFilterPolicy. */
  function BloomPolicy(hash: Hash, bitsPerKey: nat): Policy {
    var k := ProbeCount(bitsPerKey);
    Policy((keys: seq<Bytes>) => BloomFilter(hash, bitsPerKey, k, keys),
           (key: Bytes, filter: Bytes) => BloomMayMatch(hash, key, filter))
  }

  lemma {:induction false} BloomPolicyIsSound(hash: Hash, bitsPerKey: nat)
    ensures Sound(BloomPolicy(hash, bitsPerKey))
  {
    hide BloomFilter, BloomMayMatch;
    var p, k := BloomPolicy(hash, bitsPerKey), ProbeCount(bitsPerKey);
    forall keys, key | key in keys ensures p.mayMatch(key, p.create(keys)) {
      BloomIsSound(hash, bitsPerKey, k, keys, key);
    }
  }

  function Concat(parts: seq<Bytes>): Bytes {
    if parts == [] then [] else Concat(parts[..|parts| - 1]) + parts[|parts| - 1]
  }

  lemma {:induction false} ConcatNext(parts: seq<Bytes>, i: nat)
    requires i < |parts|
    ensures Concat(parts[..i + 1]) == Concat(parts[..i]) + parts[i]
  {
    assert parts[..i + 1][..i] == parts[..i];
  }

  lemma {:induction false} ConcatPrefix(parts: seq<Bytes>, i: nat, n: nat)
    requires i <= n <= |parts|
    ensures Concat(parts[..i]) <= Concat(parts[..n])
    decreases n
  {
    if i < n {
      ConcatPrefix(parts, i, n - 1);
      ConcatNext(parts, n - 1);
    }
  }

  lemma {:induction false} ConcatAt(parts: seq<Bytes>, i: nat)
    requires i < |parts|
    ensures |Concat(parts[..i])| + |parts[i]| == |Concat(parts[..i + 1])| <= |Concat(parts)|
    ensures Concat(parts)[|Concat(parts[..i])|..|Concat(parts[..i + 1])|] == parts[i]
  {
    ConcatNext(parts, i);
    ConcatPrefix(parts, i + 1, |parts|);
    assert parts[..|parts|] == parts;
    var lo, hi := |Concat(parts[..i])|, |Concat(parts[..i + 1])|;
    assert Concat(parts)[..hi] == Concat(parts[..i + 1]);
    assert Concat(parts)[lo..hi] == Concat(parts)[..hi][lo..];
  }

  /** Where each of `parts` starts in their concatenation. */
  ghost predicate Offsets(offsets: seq<nat>, parts: seq<Bytes>) {
    |offsets| == |parts| && forall i :: 0 <= i < |parts| ==> offsets[i] == |Concat(parts[..i])|
  }

  lemma {:induction false} OffsetsNext(offsets: seq<nat>, parts: seq<Bytes>, part: Bytes)
    requires Offsets(offsets, parts)
    ensures Offsets(offsets + [|Concat(parts)|], parts + [part])
    ensures Concat(parts + [part]) == Concat(parts) + part
  {
    var all := parts + [part];
    forall i | 0 <= i < |all| ensures (offsets + [|Concat(parts)|])[i] == |Concat(all[..i])| {
      assert all[..i] == parts[..i];
      assert parts[..|parts|] == parts;
    }
    assert all[..|parts|] == parts;
  }

  /** A finished filter block. */
  ghost predicate IsFilterBlock(contents: Bytes, filters: seq<Bytes>, offsets: seq<nat>) {
    && Offsets(offsets, filters) && |Concat(filters)| < TWO_32
    && (forall i :: 0 <= i < |offsets| ==> offsets[i] < TWO_32)
    && contents == Concat(filters) + Fixed32s(offsets) + EncodeFixed32(|Concat(filters)|) + [FILTER_BASE_LG]
  }

  /** `key` was added while filter `index` was being collected. */
  datatype Added = Added(index: nat, key: Bytes)

  /** Filter `i` is the policy's for the keys of group `i`; a group without keys has no bytes. */
  ghost predicate FiltersOf(policy: Policy, groups: seq<seq<Bytes>>, filters: seq<Bytes>) {
    && |filters| == |groups|
    && forall i :: 0 <= i < |groups| ==> filters[i] == if groups[i] == [] then [] else policy.create(groups[i])
  }

  /** The key is in group `a.index`, where the group that is still open comes last. */
  ghost predicate InGroup(a: Added, groups: seq<seq<Bytes>>, pending: seq<Bytes>) {
    if a.index < |groups| then a.key in groups[a.index] else a.index == |groups| && a.key in pending
  }

  /** Up to group `n`, the open group was closed first and the others stayed empty. */
  ghost predicate Closed(groups0: seq<seq<Bytes>>, pending0: seq<Bytes>, groups: seq<seq<Bytes>>, pending: seq<Bytes>,
                         n: nat) {
    && |groups| == n && groups0 <= groups
    && (if n == |groups0| then pending == pending0 else n > |groups0| && groups[|groups0|] == pending0 && pending == [])
    && forall i :: |groups0| < i < n ==> groups[i] == []
  }

  lemma {:induction false} OneMoreGroup(policy: Policy, groups: seq<seq<Bytes>>, filters: seq<Bytes>,
                                        keys: seq<Bytes>, filter: Bytes)
    requires FiltersOf(policy, groups, filters)
    requires filter == if keys == [] then [] else policy.create(keys)
    ensures FiltersOf(policy, groups + [keys], filters + [filter])
    ensures forall a :: InGroup(a, groups, keys) <==> InGroup(a, groups + [keys], [])
  {
  }

  class FilterBlockBuilder {
    const policy: Policy
    /** Flattened key contents, and where each key starts. */
    var keys: Bytes
    var start: seq<nat>
    var result: Bytes
    var filterOffsets: seq<nat>
    /** The keys of the filter being collected, those of the filters made, and these filters. */
    ghost var pending: seq<Bytes>
    ghost var groups: seq<seq<Bytes>>
    ghost var filters: seq<Bytes>
    ghost var added: set<Added>

    constructor (policy: Policy)
      requires Sound(policy)
      ensures Valid() && this.policy == policy && filters == [] && added == {} && groups == [] && pending == []
    {
      this.policy := policy;
      keys, start, result, filterOffsets := [], [], [], [];
      pending, groups, filters, added := [], [], [], {};
    }

    ghost predicate Valid()
      reads this
    {
      && Sound(policy)
      && keys == Concat(pending) && Offsets(start, pending)
      && result == Concat(filters) && Offsets(filterOffsets, filters)
      && FiltersOf(policy, groups, filters)
      && forall a :: a in added <==> InGroup(a, groups, pending)
    }

    method AddKey(key: Bytes)
      requires Valid()
      modifies this
      ensures Valid() && filters == old(filters) && added == old(added) + {Added(|filters|, key)}
      ensures pending == old(pending) + [key] && groups == old(groups)
    {
      hide Concat, Sound, Offsets;
      OffsetsNext(start, pending, key);
      start := start + [|keys|];
      keys := keys + key;
      pending := pending + [key];
      added := added + {Added(|filters|, key)};
    }

    method GenerateFilter()
      requires Valid()
      modifies this
      ensures Valid() && added == old(added) && pending == []
      ensures groups == old(groups) + [old(pending)] && old(filters) <= filters
    {
      hide Concat, Sound, FiltersOf, InGroup;
      GroupsOf();
      StartsOf(start, pending);
      if |start| == 0 {
        OneMoreGroup(policy, groups, filters, [], []);
        OffsetsNext(filterOffsets, filters, []);
        filterOffsets := filterOffsets + [|result|];
        filters := filters + [[]];
        groups := groups + [[]];
        return;
      }
      var tmpKeys := SplitKeys();
      var filter := policy.create(tmpKeys);
      OneMoreGroup(policy, groups, filters, pending, filter);
      OffsetsNext(filterOffsets, filters, filter);
      filterOffsets := filterOffsets + [|result|];
      result := result + filter;
      filters := filters + [filter];
      groups := groups + [pending];
      keys, start, pending := [], [], [];
      NothingConcat(pending);
    }

    lemma {:induction false} GroupsOf()
      requires Valid()
      ensures |groups| == |filters| == |filterOffsets|
    {
    }

    /** Cuts the flattened keys apart. */
    method SplitKeys() returns (tmpKeys: seq<Bytes>)
      requires Valid()
      ensures tmpKeys == pending
    {
      hide Concat, Sound;
      var starts := start + [|keys|];
      tmpKeys := [];
      for i := 0 to |start|
        invariant tmpKeys == pending[..i]
      {
        ConcatAt(pending, i);
        assert pending[..|pending|] == pending;
        tmpKeys := tmpKeys + [keys[starts[i]..starts[i + 1]]];
      }
    }

    /** Generates filters up to the one for `blockOffset`. */
    method StartBlock(blockOffset: nat)
      requires Valid() && blockOffset / FILTER_BASE >= |filters|
      modifies this
      ensures Valid() && added == old(added) && |filters| == blockOffset / 2048
      ensures Closed(old(groups), old(pending), groups, pending, blockOffset / 2048)
    {
      hide Concat, Sound, FiltersOf, InGroup, Valid;
      GroupsOf();
      var filterIndex := blockOffset / FILTER_BASE;
      while filterIndex > |filterOffsets|
        invariant Valid() && added == old(added) && |filters| == |groups| == |filterOffsets| <= filterIndex
        invariant Closed(old(groups), old(pending), groups, pending, |groups|)
      {
        GenerateFilter();
        GroupsOf();
      }
    }

    /** Appends the filter offsets, of which 32 bits are stored. */
    method Finish() returns (contents: Bytes)
      requires Valid()
      modifies this
      ensures added == old(added) && |filters| == |groups|
      ensures groups == if old(pending) == [] then old(groups) else old(groups) + [old(pending)]
      ensures |contents| >= |Concat(filters)|
      ensures |Concat(filters)| < TWO_32 ==> IsFilterBlock(contents, filters, filterOffsets)
      ensures FiltersOf(policy, groups, filters) && forall a :: a in added <==> InGroup(a, groups, [])
      ensures forall a :: a in added ==> a.index < |filters| && policy.mayMatch(a.key, filters[a.index])
    {
      hide Concat, Sound, Fixed32s, EncodeFixed32, FiltersOf, InGroup, IsFilterBlock, Low;
      StartsOf(start, pending);
      if |start| != 0 {
        GenerateFilter();
      }
      AllPassed();
      AppendArray();
      if |Concat(filters)| < TWO_32 {
        BlockFormed(filters, filterOffsets);
      }
      contents := result;
    }

    lemma {:induction false} AllPassed()
      requires Valid() && pending == []
      ensures |filters| == |groups|
      ensures forall a :: a in added ==> a.index < |filters| && policy.mayMatch(a.key, filters[a.index])
    {
      hide Concat, Offsets;
      forall a | a in added ensures a.index < |filters| && policy.mayMatch(a.key, filters[a.index]) {
        assert InGroup(a, groups, pending);
      }
    }

    method AppendArray()
      modifies `result
      ensures result == old(result) + Fixed32s(Low(filterOffsets)) + EncodeFixed32(|old(result)| % TWO_32) + [FILTER_BASE_LG]
    {
      hide EncodeFixed32;
      var arrayOffset := |result|;
      ghost var body, words := result, Low(filterOffsets);
      for i := 0 to |filterOffsets|
        invariant result == body + Fixed32s(words[..i])
      {
        assert words[..i + 1][..i] == words[..i];
        result := result + EncodeFixed32(filterOffsets[i] % TWO_32);
      }
      assert words[..|words|] == words;
      result := result + EncodeFixed32(arrayOffset % TWO_32);
      result := result + [FILTER_BASE_LG];
    }
  }

  /** Small enough, the filters and their offsets are stored whole. */
  lemma {:induction false} BlockFormed(filters: seq<Bytes>, offsets: seq<nat>)
    requires Offsets(offsets, filters) && |Concat(filters)| < TWO_32
    ensures IsFilterBlock(Concat(filters) + Fixed32s(Low(offsets)) + EncodeFixed32(|Concat(filters)| % TWO_32)
                          + [FILTER_BASE_LG], filters, offsets)
  {
    hide Concat, Fixed32s, EncodeFixed32;
    OffsetsFit(offsets, filters);
    LowWords(offsets);
  }

  lemma {:induction false} NothingConcat(parts: seq<Bytes>)
    requires parts == []
    ensures Concat(parts) == [] && Offsets([], parts)
  {
  }

  lemma {:induction false} StartsOf(start: seq<nat>, parts: seq<Bytes>)
    requires Offsets(start, parts)
    ensures |start| == |parts|
  {
  }

  lemma {:induction false} OffsetsFit(offsets: seq<nat>, parts: seq<Bytes>)
    requires Offsets(offsets, parts) && |Concat(parts)| < TWO_32
    ensures forall i :: 0 <= i < |offsets| ==> offsets[i] < TWO_32
  {
    forall i | 0 <= i < |offsets| ensures offsets[i] < TWO_32 {
      ConcatPrefix(parts, i, |parts|);
      assert parts[..|parts|] == parts;
    }
  }

  // ----- reading a filter block --------------------------------------------

  /** FilterBlockReader: contents too short or inconsistent have no filters. */
  datatype Reader = Reader(arrayAt: nat, count: nat, baseLg: nat)

  function OpenFilters(contents: Bytes): Reader {
    var n := |contents|;
    if n < 5 then Reader(0, 0, 0)
    else
      var lastWord := DecodeFixed32(contents[n - 5..n - 1]);
      if lastWord > n - 5 then Reader(0, 0, contents[n - 1])
      else Reader(lastWord, (n - 5 - lastWord) / 4, contents[n - 1])
  }

  function FixedAt(contents: Bytes, at: nat): Word32
    requires at + 4 <= |contents|
  {
    DecodeFixed32(contents[at..at + 4])
  }

  /** FilterBlockReader::KeyMayMatch; errors count as matches. */
  predicate FilterMayMatch(policy: Policy, contents: Bytes, blockOffset: nat, key: Bytes) {
    var r := OpenFilters(contents);
    var index := blockOffset / Pow(2, r.baseLg);
    if index < r.count then
      EntriesFit(contents, index);
      var start := FixedAt(contents, r.arrayAt + index * 4);
      var limit := FixedAt(contents, r.arrayAt + index * 4 + 4);
      if start <= limit && limit <= r.arrayAt then policy.mayMatch(key, contents[start..limit])
      else start != limit
    else true
  }

  lemma {:induction false} EntriesFit(contents: Bytes, index: nat)
    requires index < OpenFilters(contents).count
    ensures OpenFilters(contents).arrayAt + index * 4 + 8 <= |contents| && OpenFilters(contents).arrayAt <= |contents|
  {
  }

  lemma {:induction false} OpensFilters(contents: Bytes, filters: seq<Bytes>, offsets: seq<nat>)
    requires IsFilterBlock(contents, filters, offsets)
    ensures OpenFilters(contents) == Reader(|Concat(filters)|, |filters|, FILTER_BASE_LG)
  {
    hide Concat, Fixed32s, EncodeFixed32, DecodeFixed32, Offsets;
    var n := |contents|;
    StartsOf(offsets, filters);
    assert contents[n - 5..n - 1] == EncodeFixed32(|Concat(filters)|);
  }

  /** The word at position `i` of the offset array, or the array's own offset behind it. */
  lemma {:induction false} ArrayWord(contents: Bytes, filters: seq<Bytes>, offsets: seq<nat>, i: nat)
    requires IsFilterBlock(contents, filters, offsets) && i <= |filters|
    ensures var at := |Concat(filters)| + i * 4;
            at + 4 <= |contents| && FixedAt(contents, at) == |Concat(filters[..i])|
  {
    hide Concat, Fixed32s, EncodeFixed32, DecodeFixed32;
    var body, words := Concat(filters), Fixed32s(offsets);
    var at := |body| + 4 * i;
    if i < |filters| {
      Fixed32sAt(offsets, i);
      assert contents[at..at + 4] == words[4 * i..4 * i + 4];
    } else {
      assert filters[..i] == filters;
      assert contents[at..at + 4] == EncodeFixed32(|body|);
    }
  }

  /** A reader asks exactly the filter that covers the block offset. */
  lemma {:induction false} ReaderAsksFilter(policy: Policy, contents: Bytes, filters: seq<Bytes>, offsets: seq<nat>,
                                            blockOffset: nat, key: Bytes)
    requires IsFilterBlock(contents, filters, offsets)
    ensures var i := blockOffset / 2048;
            FilterMayMatch(policy, contents, blockOffset, key) == (i < |filters| ==> policy.mayMatch(key, filters[i]))
  {
    hide Fixed32s, EncodeFixed32, DecodeFixed32, Concat, Offsets, OpenFilters, Pow;
    OpensFilters(contents, filters, offsets);
    PowBase();
    var i := blockOffset / FILTER_BASE;
    if i < |filters| {
      ArrayWord(contents, filters, offsets, i);
      ArrayWord(contents, filters, offsets, i + 1);
      FilterAt(contents, filters, offsets, i);
    }
  }

  lemma {:induction false} FilterAt(contents: Bytes, filters: seq<Bytes>, offsets: seq<nat>, i: nat)
    requires IsFilterBlock(contents, filters, offsets) && i < |filters|
    ensures var lo, hi := |Concat(filters[..i])|, |Concat(filters[..i + 1])|;
            lo <= hi <= |Concat(filters)| <= |contents| && contents[lo..hi] == filters[i]
  {
    hide Fixed32s, EncodeFixed32, Concat, Offsets;
    ConcatAt(filters, i);
    var lo, hi := |Concat(filters[..i])|, |Concat(filters[..i + 1])|;
    assert contents[..|Concat(filters)|] == Concat(filters);
    assert contents[lo..hi] == contents[..|Concat(filters)|][lo..hi];
  }

  lemma {:induction false} PowBase()
    ensures Pow(2, FILTER_BASE_LG) == FILTER_BASE
  {
    assert Pow(2, 3) == 8;
    assert Pow(2, 7) == 128;
  }
}
