/**
 Bloom filters over the user keys of a table (src/util/bloom.rs, src/table/filter.rs).
 */
module Bloom {
  import opened Keys
  import opened Coding

  const BITS_PER_KEY: nat := 10

  /** 10 * 0.69 rounded, within 1 and 30. */
  const PROBES: nat := 7

  // ----- hashing, in 32-bit wrap-around arithmetic

  const TWO32: nat := 0x1_0000_0000

  /** Exclusive or of the low `n` bits. */
  function Xor(a: nat, b: nat, n: nat): nat {
    if n == 0 then 0 else (a + b) % 2 + 2 * Xor(a / 2, b / 2, n - 1)
  }

  function HashStep(hash: nat, byte: Byte): nat {
    (Xor(hash, byte, 32) * 16_777_619) % TWO32
  }

  function HashFrom(hash: nat, key: Bytes): nat
    decreases |key|
  {
    if key == [] then hash else HashFrom(HashStep(hash, key[0]), key[1..])
  }

  function BloomHash(key: Bytes): nat { HashFrom(2_166_136_261, key) }

  method HashKey(key: Bytes) returns (hash: nat)
    ensures hash == BloomHash(key)
  {
    hide HashStep;
    hash := 2_166_136_261;
    assert key[0..] == key;
    for i := 0 to |key|
      invariant HashFrom(hash, key[i..]) == BloomHash(key)
    {
      assert key[i..][1..] == key[i + 1..];
      hash := HashStep(hash, key[i]);
    }
  }

  predicate OddBit(n: nat, k: nat)
    decreases k
  {
    if k == 0 then n % 2 == 1 else OddBit(n / 2, k - 1)
  }

  /** Exclusive or, bit by bit. */
  lemma {:induction false} XorBits(a: nat, b: nat, n: nat, k: nat)
    ensures OddBit(Xor(a, b, n), k) <==> k < n && OddBit(a, k) != OddBit(b, k)
    decreases n + k
  {
    OddStep(a, k);
    OddStep(b, k);
    OddStep(Xor(a, b, n), k);
    if n == 0 {
      ZeroBits(k);
    } else {
      var low, rest := (a + b) % 2, Xor(a / 2, b / 2, n - 1);
      assert Xor(a, b, n) == low + 2 * rest;
      hide Xor, OddBit;
      SplitBit(low, rest);
      if k == 0 {
        SumParity(a, b);
      } else {
        XorBits(a / 2, b / 2, n - 1, k - 1);
      }
    }
  }

  lemma OddStep(n: nat, k: nat)
    ensures OddBit(n, k) <==> if k == 0 then n % 2 == 1 else OddBit(n / 2, k - 1)
  {
  }

  lemma SumParity(a: nat, b: nat)
    ensures (a + b) % 2 == 1 <==> (a % 2 == 1) != (b % 2 == 1)
  {
  }

  lemma {:induction false} ZeroBits(k: nat)
    ensures !OddBit(0, k)
  {
    if k > 0 { ZeroBits(k - 1); }
  }

  lemma SplitBit(low: nat, rest: nat)
    requires low < 2
    ensures (low + 2 * rest) % 2 == low && (low + 2 * rest) / 2 == rest
  {
  }

  /**
   The hash is FNV-1a: it starts at the offset basis, and each byte is exclusive-ored in and multiplied by the prime.
   */
  lemma {:induction false} HashSnoc(hash: nat, key: Bytes, byte: Byte)
    ensures HashFrom(hash, key + [byte]) == (Xor(HashFrom(hash, key), byte, 32) * 16_777_619) % 0x1_0000_0000
    decreases |key|
  {
    if key == [] {
      assert ([] + [byte])[1..] == [];
    } else {
      hide HashStep;
      assert (key + [byte])[1..] == key[1..] + [byte];
      HashSnoc(HashStep(hash, key[0]), key[1..], byte);
    }
  }

  lemma HashLaws(key: Bytes, byte: Byte)
    ensures BloomHash([]) == 0x811C_9DC5
    ensures BloomHash(key + [byte]) == (Xor(BloomHash(key), byte, 32) * 0x0100_0193) % 0x1_0000_0000
    ensures forall k: nat :: OddBit(Xor(BloomHash(key), byte, 32), k) <==> k < 32 && OddBit(BloomHash(key), k) != OddBit(byte, k)
  {
    HashSnoc(2_166_136_261, key, byte);
    forall k: nat ensures OddBit(Xor(BloomHash(key), byte, 32), k) <==> k < 32 && OddBit(BloomHash(key), k) != OddBit(byte, k) {
      XorBits(BloomHash(key), byte, 32, k);
    }
  }

  function TwoTo(n: nat): nat { if n == 0 then 1 else 2 * TwoTo(n - 1) }

  lemma {:induction false} XorZero(a: nat, n: nat)
    requires a < TwoTo(n)
    ensures Xor(a, 0, n) == a
  {
    if n > 0 { XorZero(a / 2, n - 1); }
  }

  lemma TwoTo32()
    ensures TwoTo(32) == TWO32
  {
    assert TwoTo(8) == 256;
    assert TwoTo(16) == 65536;
    assert TwoTo(24) == 16777216;
  }

  lemma HashOfZero()
    ensures BloomHash([]) == 0x811C_9DC5 && BloomHash([0]) == 0x050C_5D1F
  {
    TwoTo32();
    XorZero(0x811C_9DC5, 32);
    hide Xor;
    HashSnoc(0x811C_9DC5, [], 0);
    assert [] + [0] == [0];
  }

  function RotateRight17(hash: nat): nat {
    hash / 0x2_0000 + (hash % 0x2_0000) * 0x8000
  }

  lemma {:induction false} HashFits(hash: nat, key: Bytes)
    requires hash < TWO32
    ensures HashFrom(hash, key) < TWO32
    decreases |key|
  {
    if key != [] { HashFits(HashStep(hash, key[0]), key[1..]); }
  }

  /** The low 17 bits of a hash become the high ones of its rotation, and the others move down. */
  lemma RotationSwapsParts(key: Bytes)
    ensures RotateRight17(BloomHash(key)) < TWO32
    ensures RotateRight17(BloomHash(key)) / 0x8000 == BloomHash(key) % 0x2_0000
    ensures RotateRight17(BloomHash(key)) % 0x8000 == BloomHash(key) / 0x2_0000
  {
    HashFits(2_166_136_261, key);
    hide HashFrom;
  }

  /** The bit a probe tests. */
  function ProbeBit(hash: nat, probe: nat, bitLen: nat): (pos: nat)
    requires bitLen > 0
    ensures pos < bitLen
  {
    ((hash + (probe * RotateRight17(hash)) % TWO32) % TWO32) % bitLen
  }

  function Position(key: Bytes, probe: nat, bitLen: nat): (pos: nat)
    requires bitLen > 0
    ensures pos < bitLen
  {
    ProbeBit(BloomHash(key), probe, bitLen)
  }

  // ----- bits in bytes

  function Weight(k: nat): nat
    requires k < 8
  {
    [1, 2, 4, 8, 16, 32, 64, 128][k]
  }

  predicate BitOf(b: Byte, k: nat)
    requires k < 8
  {
    (b / Weight(k)) % 2 == 1
  }

  predicate BitAt(bits: Bytes, pos: nat)
    requires pos < 8 * |bits|
  {
    BitOf(bits[pos / 8], pos % 8)
  }

  function Bit(on: bool, weight: nat): nat { if on then weight else 0 }

  /** The byte whose `k`-th bit says whether `8 * i + k` is in the set. */
  function ByteOf(positions: set<nat>, i: nat): Byte {
    var at := 8 * i;
    Bit(at in positions, 1) + Bit(at + 1 in positions, 2) + Bit(at + 2 in positions, 4) + Bit(at + 3 in positions, 8) +
    Bit(at + 4 in positions, 16) + Bit(at + 5 in positions, 32) + Bit(at + 6 in positions, 64) + Bit(at + 7 in positions, 128)
  }

  lemma BitsOfByte(b0: bool, b1: bool, b2: bool, b3: bool, b4: bool, b5: bool, b6: bool, b7: bool, k: nat)
    requires k < 8
    ensures var low := Bit(b0, 1) + Bit(b1, 2) + Bit(b2, 4) + Bit(b3, 8);
            var b := low + Bit(b4, 16) + Bit(b5, 32) + Bit(b6, 64) + Bit(b7, 128);
            b < 256 && (BitOf(b, k) <==> [b0, b1, b2, b3, b4, b5, b6, b7][k])
  {
    var low := Bit(b0, 1) + Bit(b1, 2) + Bit(b2, 4) + Bit(b3, 8);
    var high := Bit(b4, 1) + Bit(b5, 2) + Bit(b6, 4) + Bit(b7, 8);
    var b := low + Bit(b4, 16) + Bit(b5, 32) + Bit(b6, 64) + Bit(b7, 128);
    assert b == low + 16 * high && low < 16;
    if k < 4 {
      Nibble(b0, b1, b2, b3, k);
      LowBits(low, high, k);
    } else {
      Nibble(b4, b5, b6, b7, k - 4);
      HighBits(low, high, k);
    }
  }

  lemma Nibble(b0: bool, b1: bool, b2: bool, b3: bool, k: nat)
    requires k < 4
    ensures BitOf(Bit(b0, 1) + Bit(b1, 2) + Bit(b2, 4) + Bit(b3, 8), k) <==> [b0, b1, b2, b3][k]
  {
    match k
    case 0 =>
    case 1 =>
    case 2 =>
    case 3 =>
  }

  lemma SameParity(x: nat, y: nat)
    ensures (x + 2 * y) % 2 == x % 2
  {
  }

  lemma LowBits(low: nat, high: nat, k: nat)
    requires low < 16 && high < 16 && k < 4
    ensures BitOf(low + 16 * high, k) == BitOf(low, k)
  {
    match k
    case 0 => SameParity(low, 8 * high);
    case 1 =>
      assert (low + 16 * high) / 2 == low / 2 + 2 * (4 * high);
      SameParity(low / 2, 4 * high);
    case 2 =>
      assert (low + 16 * high) / 4 == low / 4 + 2 * (2 * high);
      SameParity(low / 4, 2 * high);
    case 3 =>
      assert (low + 16 * high) / 8 == low / 8 + 2 * high;
      SameParity(low / 8, high);
  }

  lemma HighBits(low: nat, high: nat, k: nat)
    requires low < 16 && high < 16 && 4 <= k < 8
    ensures BitOf(low + 16 * high, k) == BitOf(high, k - 4)
  {
    var b := low + 16 * high;
    assert b / 16 == high;
    match k
    case 4 =>
    case 5 => assert b / 32 == high / 2;
    case 6 => assert b / 64 == high / 4;
    case 7 => assert b / 128 == high / 8;
  }

  lemma ByteOfBits(positions: set<nat>, i: nat, k: nat)
    requires k < 8
    ensures BitOf(ByteOf(positions, i), k) <==> 8 * i + k in positions
  {
    hide BitOf;
    var at := 8 * i;
    BitsOfByte(at in positions, at + 1 in positions, at + 2 in positions, at + 3 in positions,
               at + 4 in positions, at + 5 in positions, at + 6 in positions, at + 7 in positions, k);
  }

  lemma ByteOfAddHere(positions: set<nat>, i: nat, k: nat)
    requires k < 8 && 8 * i + k !in positions
    ensures ByteOf(positions + {8 * i + k}, i) == ByteOf(positions, i) + Weight(k)
  {
    match k
    case 0 =>
    case 1 =>
    case 2 =>
    case 3 =>
    case 4 =>
    case 5 =>
    case 6 =>
    case 7 =>
  }

  lemma ByteOfAddElsewhere(positions: set<nat>, pos: nat, i: nat)
    requires pos < 8 * i || 8 * i + 8 <= pos
    ensures ByteOf(positions + {pos}, i) == ByteOf(positions, i)
  {
  }

  lemma ByteOfAdd(positions: set<nat>, pos: nat, i: nat)
    ensures ByteOf(positions + {pos}, i) ==
            if i == pos / 8 && pos !in positions then ByteOf(positions, i) + Weight(pos % 8) else ByteOf(positions, i)
  {
    var k := pos % 8;
    assert pos == 8 * (pos / 8) + k;
    if pos in positions {
      assert positions + {pos} == positions;
    } else if i == pos / 8 {
      hide ByteOf;
      ByteOfAddHere(positions, i, k);
    } else {
      ByteOfAddElsewhere(positions, pos, i);
    }
  }

  lemma NoBits(byteLen: nat)
    ensures FilterBits({}, byteLen) == seq(byteLen, _ => 0)
  {
  }

  function FilterBits(positions: set<nat>, byteLen: nat): (bits: Bytes)
    ensures |bits| == byteLen
  {
    seq(byteLen, i requires 0 <= i < byteLen => ByteOf(positions, i))
  }

  lemma FilterBitsAt(positions: set<nat>, byteLen: nat, pos: nat)
    requires pos < 8 * byteLen
    ensures BitAt(FilterBits(positions, byteLen), pos) <==> pos in positions
  {
    ByteOfBits(positions, pos / 8, pos % 8);
  }

  // ----- building

  function BitLen(keys: nat): (n: nat)
    ensures n >= 64
  {
    if keys * BITS_PER_KEY > 64 then keys * BITS_PER_KEY else 64
  }

  function ByteLen(keys: nat): nat { (BitLen(keys) + 7) / 8 }

  lemma EnoughBytes(keys: nat)
    ensures BitLen(keys) <= 8 * ByteLen(keys)
  {
    hide BitLen;
  }

  function ProbesOf(key: Bytes, bitLen: nat, probes: nat): set<nat>
    requires bitLen > 0
  {
    set p | 0 <= p < probes :: Position(key, p, bitLen)
  }

  function Positions(keys: seq<Bytes>, bitLen: nat): (s: set<nat>)
    requires bitLen > 0
    ensures forall pos :: pos in s ==> pos < bitLen
  {
    if keys == [] then {} else Positions(keys[..|keys| - 1], bitLen) + ProbesOf(keys[|keys| - 1], bitLen, PROBES)
  }

  function FilterBytes(keys: seq<Bytes>): Bytes {
    if keys == [] then []
    else
      var bitLen := BitLen(|keys|);
      VarintBytes(AsU32(bitLen)) + FilterBits(Positions(keys, bitLen), ByteLen(|keys|)) + [PROBES]
  }

  /** `bits[pos / 8] |= 1 << (pos % 8)` */
  method SetBit(bits: array<Byte>, pos: nat, ghost positions: set<nat>)
    requires pos < 8 * bits.Length
    requires bits[..] == FilterBits(positions, bits.Length)
    modifies bits
    ensures bits[..] == FilterBits(positions + {pos}, bits.Length)
  {
    var i, k := pos / 8, pos % 8;
    ByteOfBits(positions, i, k);
    forall j | 0 <= j < bits.Length
      ensures ByteOf(positions + {pos}, j) ==
              if j == i && pos !in positions then ByteOf(positions, j) + Weight(k) else ByteOf(positions, j)
    {
      ByteOfAdd(positions, pos, j);
    }
    assert bits[i] == bits[..][i];
    if !BitOf(bits[i], k) {
      bits[i] := bits[i] + Weight(k);
    }
  }

  method AddKey(bits: array<Byte>, key: Bytes, bitLen: nat, ghost positions: set<nat>)
    requires 0 < bitLen <= 8 * bits.Length
    requires bits[..] == FilterBits(positions, bits.Length)
    modifies bits
    ensures bits[..] == FilterBits(positions + ProbesOf(key, bitLen, PROBES), bits.Length)
  {
    var hash := HashKey(key);
    assert positions + ProbesOf(key, bitLen, 0) == positions;
    for probe := 0 to PROBES
      invariant bits[..] == FilterBits(positions + ProbesOf(key, bitLen, probe), bits.Length)
    {
      var pos := ProbeBit(hash, probe, bitLen);
      ghost var before := positions + ProbesOf(key, bitLen, probe);
      SetBit(bits, pos, before);
      assert pos == Position(key, probe, bitLen);
      assert before + {pos} == positions + ProbesOf(key, bitLen, probe + 1);
    }
  }

  lemma PositionsSnoc(keys: seq<Bytes>, i: nat, bitLen: nat)
    requires bitLen > 0 && i < |keys|
    ensures Positions(keys[..i + 1], bitLen) == Positions(keys[..i], bitLen) + ProbesOf(keys[i], bitLen, PROBES)
  {
    hide ProbesOf;
    assert keys[..i + 1][..i] == keys[..i];
  }

  method SetBits(keys: seq<Bytes>, bitLen: nat, byteLen: nat) returns (r: Bytes)
    requires 0 < bitLen <= 8 * byteLen
    ensures r == FilterBits(Positions(keys, bitLen), byteLen)
  {
    assert Positions(keys[..0], bitLen) == {};
    hide FilterBits, ProbesOf, Positions;
    var bits := new Byte[byteLen](_ => 0);
    NoBits(byteLen);
    for i := 0 to |keys|
      invariant bits[..] == FilterBits(Positions(keys[..i], bitLen), byteLen)
    {
      PositionsSnoc(keys, i, bitLen);
      AddKey(bits, keys[i], bitLen, Positions(keys[..i], bitLen));
    }
    assert keys[..|keys|] == keys;
    r := bits[..];
  }

  method BuildBloomFilter(keys: seq<Bytes>) returns (encoded: Bytes)
    ensures encoded == FilterBytes(keys)
  {
    if keys == [] {
      return [];
    }
    hide BitLen, ByteLen, FilterBits, ProbesOf, Positions, VarintBytes, AsU32;
    var bitLen := BitLen(|keys|);
    var byteLen := ByteLen(|keys|);
    EnoughBytes(|keys|);
    var bits := SetBits(keys, bitLen, byteLen);
    encoded := PutVarU64([], AsU32(bitLen));
    assert encoded == VarintBytes(AsU32(bitLen));
    encoded := encoded + bits;
    encoded := encoded + [PROBES];
  }

  // ----- testing

  datatype BloomFilter = BloomFilter(bits: Bytes, bitLen: nat, probes: nat)

  function FromBytes(bytes: Bytes): Option<BloomFilter> {
    if bytes == [] then None
    else
      var n := |bytes| - 1;
      match GetVarU32(bytes[..n])
      case Corrupt => None
      case Done(bitLen, bits) => Some(BloomFilter(bits, bitLen, if bytes[n] == 0 then 1 else bytes[n]))
  }

  /** The bits a probe may test are there. */
  predicate Sound(f: BloomFilter) {
    f.bitLen <= 8 * |f.bits|
  }

  predicate MayContainKey(f: BloomFilter, key: Bytes)
    requires Sound(f)
  {
    f.bitLen == 0 || forall p :: 0 <= p < f.probes ==> BitAt(f.bits, Position(key, p, f.bitLen))
  }

  method MayContain(f: BloomFilter, key: Bytes) returns (r: bool)
    requires Sound(f)
    ensures r == MayContainKey(f, key)
  {
    if f.bitLen == 0 {
      return true;
    }
    var hash := HashKey(key);
    for probe := 0 to f.probes
      invariant forall p :: 0 <= p < probe ==> BitAt(f.bits, Position(key, p, f.bitLen))
    {
      var pos := ProbeBit(hash, probe, f.bitLen);
      assert pos == Position(key, probe, f.bitLen);
      if !BitOf(f.bits[pos / 8], pos % 8) {
        return false;
      }
    }
    r := true;
  }

  /** Some key of the table set this bit. */
  ghost predicate ProbedBy(keys: seq<Bytes>, bitLen: nat, pos: nat)
    requires bitLen > 0
  {
    exists k :: k in keys && pos in ProbesOf(k, bitLen, PROBES)
  }

  lemma {:induction false} PositionsOfKey(keys: seq<Bytes>, bitLen: nat, pos: nat)
    requires bitLen > 0
    ensures pos in Positions(keys, bitLen) <==> ProbedBy(keys, bitLen, pos)
    decreases |keys|
  {
    if keys != [] {
      var n := |keys| - 1;
      PositionsOfKey(keys[..n], bitLen, pos);
      assert forall k :: k in keys <==> k in keys[..n] || k == keys[n];
    }
  }

  /** A filter that was built reads back with its bits, within bounds. */
  lemma FilterReadsBack(keys: seq<Bytes>)
    requires keys != [] && |keys| * BITS_PER_KEY <= U32_MAX
    ensures FromBytes(FilterBytes(keys)) ==
            Some(BloomFilter(FilterBits(Positions(keys, BitLen(|keys|)), ByteLen(|keys|)), BitLen(|keys|), PROBES))
    ensures Sound(FromBytes(FilterBytes(keys)).value)
  {
    hide VarintBytes, GetVarU32, FilterBits, Positions;
    var bitLen := BitLen(|keys|);
    var bits := FilterBits(Positions(keys, bitLen), ByteLen(|keys|));
    var bytes := FilterBytes(keys);
    assert bytes[..|bytes| - 1] == VarintBytes(AsU32(bitLen)) + bits;
    VarU32RoundTrip(bitLen, bits);
  }

  /** A filter has ten bits a key but at least 64, and is probed seven times. */
  lemma FilterShape(keys: seq<Bytes>)
    requires keys != [] && |keys| * 10 <= U32_MAX
    ensures FromBytes(FilterBytes(keys)).Some?
    ensures var f := FromBytes(FilterBytes(keys)).value;
            f.bitLen == (if |keys| < 7 then 64 else 10 * |keys|) && f.probes == 7 && |f.bits| == (f.bitLen + 7) / 8
  {
    hide FilterBytes, FromBytes, FilterBits, Positions;
    FilterReadsBack(keys);
  }

  /**
   Through encoding and decoding a filter answers yes exactly for the keys all of whose probes were set by
   keys of the table; so never no for a key of the table.
   */
  lemma FilterExact(keys: seq<Bytes>, key: Bytes)
    requires keys != [] && |keys| * BITS_PER_KEY <= U32_MAX
    ensures FromBytes(FilterBytes(keys)).Some? && Sound(FromBytes(FilterBytes(keys)).value)
    ensures MayContainKey(FromBytes(FilterBytes(keys)).value, key) <==>
            forall p :: 0 <= p < PROBES ==> ProbedBy(keys, BitLen(|keys|), Position(key, p, BitLen(|keys|)))
  {
    hide FilterBytes, FilterBits, BitAt, FromBytes, Position, Positions, ProbedBy;
    FilterReadsBack(keys);
    var f := FromBytes(FilterBytes(keys)).value;
    var set_ := Positions(keys, f.bitLen);
    forall pos: nat | pos < f.bitLen ensures BitAt(f.bits, pos) <==> ProbedBy(keys, f.bitLen, pos) {
      FilterBitsAt(set_, ByteLen(|keys|), pos);
      PositionsOfKey(keys, f.bitLen, pos);
    }
  }

  /** What a table answers: no filter, or one that cannot be read, admits every key. */
  predicate Admits(filter: Bytes, key: Bytes)
    requires FromBytes(filter).Some? ==> Sound(FromBytes(filter).value)
  {
    FromBytes(filter).Some? ==> MayContainKey(FromBytes(filter).value, key)
  }

  lemma NoFalseNegatives(keys: seq<Bytes>, key: Bytes)
    requires |keys| * BITS_PER_KEY <= U32_MAX && key in keys
    ensures FromBytes(FilterBytes(keys)).Some? && Sound(FromBytes(FilterBytes(keys)).value)
    ensures Admits(FilterBytes(keys), key)
  {
    hide FilterBytes, FromBytes, MayContainKey, Position;
    FilterExact(keys, key);
  }

  lemma ProbesOfEmpty(p: nat)
    requires p < PROBES
    ensures ProbeBit(0x811C_9DC5, p, 64) == [5, 19, 33, 47, 61, 11, 25][p]
  {
    assert RotateRight17(0x811C_9DC5) == 1_323_483_278;
    match p
    case 0 =>
    case 1 =>
    case 2 =>
    case 3 =>
    case 4 =>
    case 5 =>
    case 6 =>
  }

  lemma FirstProbeOfZero()
    ensures ProbeBit(0x050C_5D1F, 0, 64) == 31
  {
  }

  /** A filter of the empty key alone refuses the key of one zero byte. */
  lemma AbsentKeyRefused()
    ensures var none: Bytes, zero: Bytes := [], [0];
            FromBytes(FilterBytes([none])).Some? && Sound(FromBytes(FilterBytes([none])).value) && !Admits(FilterBytes([none]), zero)
  {
    var none: Bytes, zero: Bytes := [], [0];
    FilterExact([none], zero);
    HashOfZero();
    FirstProbeOfZero();
    assert BitLen(1) == 64;
    assert Position(zero, 0, 64) == 31;
    forall p: nat | p < PROBES ensures Position(none, p, 64) != 31 {
      ProbesOfEmpty(p);
      hide ProbeBit, BloomHash;
    }
    hide FilterBytes, FromBytes, Position, MayContainKey, Sound;
    assert !ProbedBy([none], 64, 31);
  }

  lemma BitsOfEmpty()
    ensures var none: Bytes := []; Positions([none], 64) == {5, 19, 33, 47, 61, 11, 25}
  {
    var none: Bytes := [];
    var keys := [none];
    HashOfZero();
    assert keys[..0] == [] && Positions([], 64) == {};
    forall p: nat | p < PROBES ensures Position(none, p, 64) == [5, 19, 33, 47, 61, 11, 25][p] {
      ProbesOfEmpty(p);
    }
    hide Position;
    assert ProbesOf(none, 64, PROBES) == {5, 19, 33, 47, 61, 11, 25} by {
      assert 5 in ProbesOf(none, 64, PROBES) by { assert Position(none, 0, 64) == 5; }
      assert 19 in ProbesOf(none, 64, PROBES) by { assert Position(none, 1, 64) == 19; }
      assert 33 in ProbesOf(none, 64, PROBES) by { assert Position(none, 2, 64) == 33; }
      assert 47 in ProbesOf(none, 64, PROBES) by { assert Position(none, 3, 64) == 47; }
      assert 61 in ProbesOf(none, 64, PROBES) by { assert Position(none, 4, 64) == 61; }
      assert 11 in ProbesOf(none, 64, PROBES) by { assert Position(none, 5, 64) == 11; }
      assert 25 in ProbesOf(none, 64, PROBES) by { assert Position(none, 6, 64) == 25; }
    }
  }

  lemma ByteIs(set_: set<nat>, i: nat, on: seq<bool>)
    requires |on| == 8 && forall k :: 0 <= k < 8 ==> (8 * i + k in set_ <==> on[k])
    ensures ByteOf(set_, i) ==
            Bit(on[0], 1) + Bit(on[1], 2) + Bit(on[2], 4) + Bit(on[3], 8) +
            Bit(on[4], 16) + Bit(on[5], 32) + Bit(on[6], 64) + Bit(on[7], 128)
  {
    assert 8 * i + 0 in set_ <==> on[0];
  }

  lemma BytesOfEmpty(set_: set<nat>)
    requires set_ == {5, 19, 33, 47, 61, 11, 25}
    ensures FilterBits(set_, 8) == [32, 8, 8, 2, 2, 128, 0, 32]
  {
    hide ByteOf;
    var f, t := false, true;
    ByteIs(set_, 0, [f, f, f, f, f, t, f, f]);
    ByteIs(set_, 1, [f, f, f, t, f, f, f, f]);
    ByteIs(set_, 2, [f, f, f, t, f, f, f, f]);
    ByteIs(set_, 3, [f, t, f, f, f, f, f, f]);
    ByteIs(set_, 4, [f, t, f, f, f, f, f, f]);
    ByteIs(set_, 5, [f, f, f, f, f, f, f, t]);
    ByteIs(set_, 6, [f, f, f, f, f, f, f, f]);
    ByteIs(set_, 7, [f, f, f, f, f, t, f, f]);
  }

  /** The filter of the empty key: 64 bits, of which seven are set, and the number of probes. */
  lemma FilterExample()
    ensures var none: Bytes := []; FilterBytes([none]) == [64, 32, 8, 8, 2, 2, 128, 0, 32, 7]
  {
    var none: Bytes := [];
    BitsOfEmpty();
    BytesOfEmpty({5, 19, 33, 47, 61, 11, 25});
    SixtyFour();
    hide Positions, VarintBytes, BitLen, ByteLen, FilterBits, AsU32;
  }

  lemma SixtyFour()
    ensures BitLen(1) == 64 && ByteLen(1) == 8 && VarintBytes(AsU32(64)) == [64]
  {
  }
}
