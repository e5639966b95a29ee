/**
 User keys, internal keys and entries (src/key/internal_key.rs, src/memtable/btree.rs).

 A user key is a byte string under the byte-wise lexicographic order.  An internal key
 adds a sequence number and a value type: user key ascending, sequence descending,
 value type ascending.
 */
module Keys {

  type Byte = b: int | 0 <= b < 256
  type Bytes = seq<Byte>

  /** Sequence numbers are u64 in the store; the model keeps them unbounded and names the bound where it matters. */
  const U64_MAX: nat := 0xFFFF_FFFF_FFFF_FFFF

  datatype Option<+T> = None | Some(value: T)

  datatype ValueType = PutType | DeleteType

  datatype ValueRecord = Put(value: Bytes) | Delete

  datatype InternalKey = InternalKey(userKey: Bytes, sequence: nat, valueType: ValueType)

  datatype Entry = Entry(key: InternalKey, value: ValueRecord)

  function TypeCode(t: ValueType): (c: Byte)
  {
    match t
    case PutType => 1
    case DeleteType => 2
  }

  function TypeOf(v: ValueRecord): ValueType
  {
    match v
    case Put(_) => PutType
    case Delete => DeleteType
  }

  /** The tag stored in the key agrees with the record it is stored with. */
  predicate Consistent(e: Entry) {
    e.key.valueType == TypeOf(e.value)
  }

  /** The byte-wise lexicographic order, comparing from position `i` on. */
  predicate LessFrom(a: Bytes, b: Bytes, i: nat)
    requires i <= |a| && i <= |b|
    decreases |a| - i
  {
    i < |b| && (i == |a| || a[i] < b[i] || (a[i] == b[i] && LessFrom(a, b, i + 1)))
  }

  predicate Less(a: Bytes, b: Bytes) {
    LessFrom(a, b, 0)
  }

  predicate Leq(a: Bytes, b: Bytes) {
    !Less(b, a)
  }

  predicate KeyLess(a: InternalKey, b: InternalKey) {
    || Less(a.userKey, b.userKey)
    || (a.userKey == b.userKey &&
        (a.sequence > b.sequence ||
         (a.sequence == b.sequence && TypeCode(a.valueType) < TypeCode(b.valueType))))
  }

  predicate KeyLeq(a: InternalKey, b: InternalKey) {
    !KeyLess(b, a)
  }

  lemma {:induction false} LessFromTrans(a: Bytes, b: Bytes, c: Bytes, i: nat)
    requires i <= |a| && i <= |b| && i <= |c|
    requires LessFrom(a, b, i) && LessFrom(b, c, i)
    ensures LessFrom(a, c, i)
    decreases |a| - i
  {
    if i < |a| && a[i] == b[i] && b[i] == c[i] {
      LessFromTrans(a, b, c, i + 1);
    }
  }

  lemma {:induction false} LessFromTotal(a: Bytes, b: Bytes, i: nat)
    requires i <= |a| && i <= |b|
    requires a[..i] == b[..i]
    ensures !(LessFrom(a, b, i) && LessFrom(b, a, i))
    ensures LessFrom(a, b, i) || LessFrom(b, a, i) || a == b
    decreases |a| - i
  {
    if i < |a| && i < |b| && a[i] == b[i] {
      assert a[..i + 1] == a[..i] + [a[i]];
      assert b[..i + 1] == b[..i] + [b[i]];
      LessFromTotal(a, b, i + 1);
    } else if i == |a| && i == |b| {
      assert a == a[..i] && b == b[..i];
    }
  }

  lemma LessTotal(a: Bytes, b: Bytes)
    ensures !(Less(a, b) && Less(b, a))
    ensures Less(a, b) || Less(b, a) || a == b
  {
    LessFromTotal(a, b, 0);
  }

  /** `Less` is a strict total order on user keys. */
  lemma UserKeyOrder()
    ensures forall a: Bytes :: !Less(a, a)
    ensures forall a, b :: !(Less(a, b) && Less(b, a))
    ensures forall a, b :: Less(a, b) || Less(b, a) || a == b
    ensures forall a, b, c :: Less(a, b) && Less(b, c) ==> Less(a, c)
  {
    forall a: Bytes, b: Bytes
      ensures !(Less(a, b) && Less(b, a)) && (Less(a, b) || Less(b, a) || a == b)
    {
      LessTotal(a, b);
    }
    forall a: Bytes, b: Bytes, c: Bytes | Less(a, b) && Less(b, c)
      ensures Less(a, c)
    {
      LessFromTrans(a, b, c, 0);
    }
  }

  lemma {:induction false} LessFromMeans(a: Bytes, b: Bytes, i: nat)
    requires i <= |a| && i <= |b| && a[..i] == b[..i]
    ensures LessFrom(a, b, i) <==>
            exists j :: 0 <= j <= |a| && j < |b| && a[..j] == b[..j] && (j == |a| || a[j] < b[j])
    decreases |a| - i
  {
    if i < |a| && i < |b| && a[i] == b[i] {
      assert a[..i + 1] == a[..i] + [a[i]] && b[..i + 1] == b[..i] + [b[i]];
      LessFromMeans(a, b, i + 1);
    } else {
      forall j | 0 <= j <= |a| && j < |b| && a[..j] == b[..j] && (j == |a| || a[j] < b[j]) ensures j == i {
        PrefixAgrees(a, b, i);
        PrefixAgrees(a, b, j);
      }
    }
  }

  lemma PrefixAgrees(a: Bytes, b: Bytes, n: nat)
    requires n <= |a| && n <= |b| && a[..n] == b[..n]
    ensures forall m :: 0 <= m < n ==> a[m] == b[m]
  {
    forall m | 0 <= m < n ensures a[m] == b[m] { assert a[..n][m] == b[..n][m]; }
  }

  /** One key is below another if it is a proper prefix of it, or has the smaller byte where they first differ. */
  lemma LessIsBytewise(a: Bytes, b: Bytes)
    ensures Less(a, b) <==>
            exists i :: 0 <= i <= |a| && i < |b| && a[..i] == b[..i] && (i == |a| || a[i] < b[i])
  {
    LessFromMeans(a, b, 0);
  }

  lemma LeqTrans(a: Bytes, b: Bytes, c: Bytes)
    requires Leq(a, b) && Leq(b, c)
    ensures Leq(a, c)
  {
    UserKeyOrder();
  }

  lemma LeqTransTo(a: Bytes, b: Bytes, c: Bytes)
    ensures Leq(a, b) && Leq(b, c) ==> Leq(a, c)
  {
    UserKeyOrder();
  }

  lemma LessLeqTrans(a: Bytes, b: Bytes, c: Bytes)
    ensures Less(a, b) && Leq(b, c) ==> Less(a, c)
    ensures Leq(a, b) && Less(b, c) ==> Less(a, c)
  {
    UserKeyOrder();
  }

  /** `KeyLess` is a strict total order on internal keys. */
  lemma InternalKeyOrder()
    ensures forall a: InternalKey :: !KeyLess(a, a)
    ensures forall a, b :: !(KeyLess(a, b) && KeyLess(b, a))
    ensures forall a, b :: KeyLess(a, b) || KeyLess(b, a) || a == b
    ensures forall a, b, c :: KeyLess(a, b) && KeyLess(b, c) ==> KeyLess(a, c)
  {
    UserKeyOrder();
  }

  /**
   Internal keys compare by the bytes of the user key first, then the larger sequence comes first, then a put comes
   before a deletion.
   */
  lemma InternalKeyMeans(a: InternalKey, b: InternalKey)
    ensures KeyLess(a, b) <==>
            || (exists i :: 0 <= i <= |a.userKey| && i < |b.userKey| && a.userKey[..i] == b.userKey[..i] &&
                            (i == |a.userKey| || a.userKey[i] < b.userKey[i]))
            || (a.userKey == b.userKey && a.sequence > b.sequence)
            || (a.userKey == b.userKey && a.sequence == b.sequence && a.valueType.PutType? && b.valueType.DeleteType?)
  {
    LessIsBytewise(a.userKey, b.userKey);
    hide Less;
  }
}
