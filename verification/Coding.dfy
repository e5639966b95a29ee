/**
 Variable-length and fixed-length integers, and the key, handle and footer codecs built on them
 (src/util/coding.rs, src/table/format.rs).

 Encoders append to a buffer.  Decoders consume a prefix of their input, so each is given as the value
 it reads together with the bytes that remain.
 */
module Coding {
  import opened Keys

  const U32_MAX: nat := 0xFFFF_FFFF

  /** The cast `as u32`. */
  function AsU32(n: nat): nat { n % 0x1_0000_0000 }

  datatype Parsed<+T> = Done(value: T, rest: Bytes) | Corrupt

  /** A list read so far, put in front of what a reader still gives. */
  function Prefixed<T>(head: seq<T>, p: Option<seq<T>>): Option<seq<T>> {
    match p
    case Some(tail) => Some(head + tail)
    case None => None
  }

  lemma PrefixedNothing<T>(p: Option<seq<T>>)
    ensures Prefixed([], p) == p
  {
    if p.Some? { assert [] + p.value == p.value; }
  }

  lemma PrefixedTwice<T>(a: seq<T>, x: T, p: Option<seq<T>>)
    ensures Prefixed(a, Prefixed([x], p)) == Prefixed(a + [x], p)
  {
    if p.Some? { assert a + ([x] + p.value) == (a + [x]) + p.value; }
  }

  lemma PrefixedAppend<T>(a: seq<T>, b: seq<T>, p: Option<seq<T>>)
    ensures Prefixed(a, Prefixed(b, p)) == Prefixed(a + b, p)
  {
    if p.Some? { assert a + (b + p.value) == (a + b) + p.value; }
  }

  // ----- varints

  function Pow128(k: nat): (p: nat)
    ensures p > 0
  {
    if k == 0 then 1 else 128 * Pow128(k - 1)
  }

  lemma Pow128Nine()
    ensures Pow128(9) == 0x8000_0000_0000_0000
  {
    assert Pow128(3) == 0x20_0000;
    assert Pow128(6) == 0x400_0000_0000;
  }

  /** Seven bits a byte, low bits first; all bytes but the last carry the top bit. */
  function VarintBytes(value: nat): (bytes: Bytes)
    ensures bytes != []
  {
    if value < 128 then [value] else [value % 128 + 128] + VarintBytes(value / 128)
  }

  /** What the `k`-th byte adds; the tenth keeps one bit, the others would be shifted out of 64 bits. */
  function Piece(b: Byte, k: nat): nat {
    (if k < 9 then b % 128 else b % 2) * Pow128(k)
  }

  /** Read from the `k`-th byte of a varint on. */
  function VarintFrom(src: Bytes, k: nat): (r: Parsed<nat>)
    ensures r.Done? ==> |r.rest| < |src|
  {
    if k >= 10 || src == [] then Corrupt
    else if src[0] < 128 then Done(Piece(src[0], k), src[1..])
    else
      match VarintFrom(src[1..], k + 1)
      case Done(high, rest) => Done(Piece(src[0], k) + high, rest)
      case Corrupt => Corrupt
  }

  function GetVarU64(src: Bytes): (r: Parsed<nat>)
    ensures r.Done? ==> |r.rest| < |src|
  {
    VarintFrom(src, 0)
  }

  function GetVarU32(src: Bytes): (r: Parsed<nat>)
    ensures r.Done? ==> |r.rest| < |src| && r.value <= U32_MAX
  {
    match GetVarU64(src)
    case Done(v, rest) => if v <= U32_MAX then Done(v, rest) else Corrupt
    case Corrupt => Corrupt
  }

  lemma Regroup(value: nat, p: nat)
    ensures (value % 128) * p + (value / 128) * (128 * p) == value * p
  {
    assert value == value % 128 + 128 * (value / 128);
    assert (value / 128) * (128 * p) == 128 * (value / 128) * p;
  }

  /** A value that fits at byte `k` leaves one bit for the tenth byte, and its upper part fits at the next. */
  lemma Room(value: nat, k: nat)
    requires k < 10 && value * Pow128(k) <= U64_MAX
    ensures k == 9 ==> value <= 1
    ensures value >= 128 ==> (value / 128) * Pow128(k + 1) <= U64_MAX
    ensures (value % 128) * Pow128(k) + (value / 128) * Pow128(k + 1) == value * Pow128(k)
  {
    assert Pow128(k + 1) == 128 * Pow128(k);
    hide Pow128;
    Pow128Nine();
    Regroup(value, Pow128(k));
  }

  lemma {:induction false} VarintRoundTripFrom(value: nat, k: nat, rest: Bytes)
    requires k < 10 && value * Pow128(k) <= U64_MAX
    ensures VarintFrom(VarintBytes(value) + rest, k) == Done(value * Pow128(k), rest)
    decreases value
  {
    hide Pow128;
    Room(value, k);
    var bytes := VarintBytes(value) + rest;
    if value < 128 {
      assert bytes[1..] == rest;
    } else {
      VarintRoundTripFrom(value / 128, k + 1, rest);
      assert bytes[1..] == VarintBytes(value / 128) + rest;
      assert bytes[0] % 128 == value % 128;
    }
  }

  /** Every u64 reads back, and exactly its own bytes are consumed, whatever follows. */
  lemma VarU64RoundTrip(value: nat, rest: Bytes)
    requires value <= U64_MAX
    ensures GetVarU64(VarintBytes(value) + rest) == Done(value, rest)
  {
    assert Pow128(0) == 1;
    hide VarintFrom, VarintBytes, Pow128;
    VarintRoundTripFrom(value, 0, rest);
  }

  lemma VarU32RoundTrip(value: nat, rest: Bytes)
    requires value <= U32_MAX
    ensures AsU32(value) == value
    ensures GetVarU32(VarintBytes(AsU32(value)) + rest) == Done(value, rest)
  {
    VarU64RoundTrip(value, rest);
  }

  /** A last byte comes within the ten bytes of a varint and within the input. */
  ghost predicate Terminated(src: Bytes, k: nat) {
    exists n :: 0 <= n < |src| && n + k < 10 && src[n] < 128
  }

  lemma TerminatedNext(src: Bytes, k: nat)
    requires src != [] && src[0] >= 128
    ensures Terminated(src, k) <==> Terminated(src[1..], k + 1)
  {
    if Terminated(src, k) {
      var n :| 0 <= n < |src| && n + k < 10 && src[n] < 128;
      assert src[1..][n - 1] == src[n];
    }
    if Terminated(src[1..], k + 1) {
      var n :| 0 <= n < |src[1..]| && n + k + 1 < 10 && src[1..][n] < 128;
      assert src[n + 1] < 128;
    }
  }

  lemma {:induction false} VarintStops(src: Bytes, k: nat)
    requires k <= 10
    ensures VarintFrom(src, k).Done? <==> Terminated(src, k)
    ensures VarintFrom(src, k).Done? ==>
              && |VarintFrom(src, k).rest| < |src| <= |VarintFrom(src, k).rest| + 10 - k
              && VarintFrom(src, k).rest == src[|src| - |VarintFrom(src, k).rest|..]
    decreases 10 - k
  {
    hide Piece, Pow128;
    if k < 10 && src != [] && src[0] >= 128 {
      VarintStops(src[1..], k + 1);
      TerminatedNext(src, k);
    }
  }

  lemma PieceAdds(low: nat, high: nat, k: nat)
    requires low < 128
    ensures low * Pow128(k) + high * Pow128(k + 1) == (low + 128 * high) * Pow128(k)
  {
    Regroup(low + 128 * high, Pow128(k));
  }

  lemma {:induction false} VarintValue(src: Bytes, k: nat) returns (m: nat)
    requires VarintFrom(src, k).Done?
    ensures k < 10 && VarintFrom(src, k).value == m * Pow128(k) && m < 2 * Pow128(9 - k)
    decreases 10 - k
  {
    assert Pow128(9 - k) == if k < 9 then 128 * Pow128(8 - k) else 1;
    hide Pow128;
    var low := if k < 9 then src[0] % 128 else src[0] % 2;
    if src[0] < 128 {
      m := low;
    } else {
      var high := VarintValue(src[1..], k + 1);
      PieceAdds(low, high, k);
      m := low + 128 * high;
    }
  }

  /** A varint is read exactly when a last byte comes in time; its value fits 64 bits and it takes at most ten bytes. */
  lemma VarintReads(src: Bytes)
    ensures GetVarU64(src).Done? <==> Terminated(src, 0)
    ensures GetVarU64(src).Done? ==>
              && GetVarU64(src).value <= U64_MAX
              && |GetVarU64(src).rest| < |src| <= |GetVarU64(src).rest| + 10
              && GetVarU64(src).rest == src[|src| - |GetVarU64(src).rest|..]
  {
    assert Pow128(0) == 1;
    hide Pow128;
    VarintStops(src, 0);
    Pow128Nine();
    if GetVarU64(src).Done? {
      var m := VarintValue(src, 0);
    }
  }

  method PutVarU64(dst: Bytes, value: nat) returns (out: Bytes)
    ensures out == dst + VarintBytes(value)
  {
    out := dst;
    var v := value;
    while v >= 128
      invariant out + VarintBytes(v) == dst + VarintBytes(value)
    {
      ghost var before := out;
      out := out + [v % 128 + 128];
      assert before + VarintBytes(v) == out + VarintBytes(v / 128);
      v := v / 128;
    }
    out := out + [v];
  }

  /** The pieces read so far, put in front of what is still to be read. */
  function Added(low: nat, p: Parsed<nat>): Parsed<nat> {
    match p
    case Done(v, rest) => Done(low + v, rest)
    case Corrupt => Corrupt
  }

  method ReadVarU64(input: Bytes) returns (r: Parsed<nat>)
    ensures r == GetVarU64(input)
  {
    var src, result: nat := input, 0;
    for k := 0 to 10
      invariant Added(result, VarintFrom(src, k)) == VarintFrom(input, 0)
    {
      if src == [] {
        return Corrupt;
      }
      var byte := src[0];
      src := src[1..];
      result := result + Piece(byte, k);
      if byte < 128 {
        return Done(result, src);
      }
    }
    r := Corrupt;
  }

  // ----- byte slices and fixed-width integers

  function TakeBytes(src: Bytes, len: nat): Parsed<Bytes> {
    if |src| < len then Corrupt else Done(src[..len], src[len..])
  }

  lemma TakeBytesBack(head: Bytes, rest: Bytes)
    ensures TakeBytes(head + rest, |head|) == Done(head, rest)
  {
  }

  /** A length followed by that many bytes. */
  function SliceBytes(b: Bytes): Bytes { VarintBytes(AsU32(|b|)) + b }

  function GetSlice(src: Bytes): Parsed<Bytes> {
    match GetVarU32(src)
    case Corrupt => Corrupt
    case Done(len, rest) => TakeBytes(rest, len)
  }

  lemma SliceRoundTrip(b: Bytes, rest: Bytes)
    requires |b| <= U32_MAX
    ensures GetSlice(SliceBytes(b) + rest) == Done(b, rest)
  {
    assert SliceBytes(b) + rest == VarintBytes(AsU32(|b|)) + (b + rest);
    VarU32RoundTrip(|b|, b + rest);
    TakeBytesBack(b, rest);
  }

  function Pow256(n: nat): (p: nat)
    ensures p > 0
  {
    if n == 0 then 1 else 256 * Pow256(n - 1)
  }

  function LeBytes(value: nat, n: nat): (b: Bytes)
    ensures |b| == n
  {
    if n == 0 then [] else [value % 256] + LeBytes(value / 256, n - 1)
  }

  function LeValue(b: Bytes): nat {
    if b == [] then 0 else b[0] + 256 * LeValue(b[1..])
  }

  /** The low bytes of an integer; all of it when it fits. */
  lemma {:induction false} LeRoundTrip(value: nat, n: nat)
    requires value < Pow256(n)
    ensures LeValue(LeBytes(value, n)) == value
  {
    if n > 0 {
      LeRoundTrip(value / 256, n - 1);
      assert LeBytes(value, n)[1..] == LeBytes(value / 256, n - 1);
    }
  }

  lemma Pow256Values()
    ensures Pow256(4) == U32_MAX + 1 && Pow256(8) == U64_MAX + 1
  {
    assert Pow256(4) == 0x1_0000_0000;
  }

  // ----- internal keys

  function KeyBytes(key: InternalKey): Bytes {
    SliceBytes(key.userKey) + VarintBytes(key.sequence) + [TypeCode(key.valueType)]
  }

  function DecodeValueType(b: Byte): Option<ValueType> {
    if b == 1 then Some(PutType) else if b == 2 then Some(DeleteType) else None
  }

  function GetKey(src: Bytes): Parsed<InternalKey> {
    match GetSlice(src)
    case Corrupt => Corrupt
    case Done(userKey, src1) =>
      match GetVarU64(src1)
      case Corrupt => Corrupt
      case Done(sequence, src2) =>
        match TakeBytes(src2, 1)
        case Corrupt => Corrupt
        case Done(tag, src3) =>
          match DecodeValueType(tag[0])
          case None => Corrupt
          case Some(valueType) => Done(InternalKey(userKey, sequence, valueType), src3)
  }

  predicate KeyFits(key: InternalKey) {
    |key.userKey| <= U32_MAX && key.sequence <= U64_MAX
  }

  lemma KeyRoundTrip(key: InternalKey, rest: Bytes)
    requires KeyFits(key)
    ensures GetKey(KeyBytes(key) + rest) == Done(key, rest)
  {
    hide SliceBytes, GetSlice, VarintBytes, GetVarU64;
    var tail := [TypeCode(key.valueType)] + rest;
    assert KeyBytes(key) + rest == SliceBytes(key.userKey) + (VarintBytes(key.sequence) + tail);
    SliceRoundTrip(key.userKey, VarintBytes(key.sequence) + tail);
    VarU64RoundTrip(key.sequence, tail);
  }

  // ----- block handles and the footer

  datatype BlockHandle = BlockHandle(offset: nat, size: nat)

  const TABLE_MAGIC: nat := 0x5459_4c53_4d44_4201
  const FOOTER_SIZE: nat := 40

  function HandleBytes(h: BlockHandle): (b: Bytes)
    ensures |b| == 16
  {
    LeBytes(h.offset, 8) + LeBytes(h.size, 8)
  }

  function DecodeHandle(src: Bytes): Option<BlockHandle> {
    if |src| != 16 then None else Some(BlockHandle(LeValue(src[0..8]), LeValue(src[8..16])))
  }

  predicate HandleFits(h: BlockHandle) {
    h.offset <= U64_MAX && h.size <= U64_MAX
  }

  lemma HandleRoundTrip(h: BlockHandle)
    requires HandleFits(h)
    ensures DecodeHandle(HandleBytes(h)) == Some(h)
  {
    Pow256Values();
    LeRoundTrip(h.offset, 8);
    LeRoundTrip(h.size, 8);
    assert HandleBytes(h)[0..8] == LeBytes(h.offset, 8);
    assert HandleBytes(h)[8..16] == LeBytes(h.size, 8);
  }

  function FooterBytes(properties: BlockHandle, index: BlockHandle): (b: Bytes)
    ensures |b| == FOOTER_SIZE
  {
    HandleBytes(properties) + HandleBytes(index) + LeBytes(TABLE_MAGIC, 8)
  }

  function DecodeFooter(src: Bytes): Option<(BlockHandle, BlockHandle)> {
    if |src| != FOOTER_SIZE then None
    else
      var properties, index := DecodeHandle(src[0..16]), DecodeHandle(src[16..32]);
      if properties.None? || index.None? || LeValue(src[32..40]) != TABLE_MAGIC then None
      else Some((properties.value, index.value))
  }

  lemma FooterRoundTrip(properties: BlockHandle, index: BlockHandle)
    requires HandleFits(properties) && HandleFits(index)
    ensures DecodeFooter(FooterBytes(properties, index)) == Some((properties, index))
  {
    hide HandleBytes, DecodeHandle, LeBytes, LeValue;
    var b := FooterBytes(properties, index);
    HandleRoundTrip(properties);
    HandleRoundTrip(index);
    Pow256Values();
    LeRoundTrip(TABLE_MAGIC, 8);
    assert b[0..16] == HandleBytes(properties);
    assert b[16..32] == HandleBytes(index);
    assert b[32..40] == LeBytes(TABLE_MAGIC, 8);
  }
}
