/** Internal keys: a user key extended with a sequence number and a value type, and their two orders. */
module InternalKeys {
  import opened ByteStrings

  datatype ValueType = Put | Delete

  const MAX_SEQUENCE: nat := U64_LIMIT - 2
  const FOOTER_LEN: nat := 9

  datatype InternalKey = InternalKey(userKey: Bytes, seqno: nat, vtype: ValueType)

  function TypeByte(t: ValueType): Byte {
    match t
    case Put => 0
    case Delete => 1
  }

  function TypeFromByte(b: Byte): Option<ValueType> {
    if b == 0 then Some(Put) else if b == 1 then Some(Delete) else None
  }

  function Encode(ik: InternalKey): (b: Bytes)
    ensures |b| == |ik.userKey| + FOOTER_LEN
  {
    ik.userKey + LittleEndian(ik.seqno, 8) + [TypeByte(ik.vtype)]
  }

  function Decode(b: Bytes): Result<InternalKey> {
    if |b| < FOOTER_LEN then Corrupted
    else
      match TypeFromByte(b[|b| - 1])
      case None => Corrupted
      case Some(t) => Ok(InternalKey(b[..|b| - FOOTER_LEN], FromLittleEndian(b[|b| - FOOTER_LEN..|b| - 1]), t))
  }

  /** The user key of encoded bytes; bytes too short to carry a footer are taken whole. */
  function UserKeyOf(b: Bytes): Bytes {
    if |b| < FOOTER_LEN then b else b[..|b| - FOOTER_LEN]
  }

  function SeqOf(b: Bytes): Option<nat> {
    if |b| < FOOTER_LEN then None else Some(FromLittleEndian(b[|b| - FOOTER_LEN..|b| - 1]))
  }

  function TypeOf(b: Bytes): Option<ValueType> {
    if |b| < FOOTER_LEN then None else TypeFromByte(b[|b| - 1])
  }

  function SeqOrZero(b: Bytes): nat {
    match SeqOf(b)
    case None => 0
    case Some(s) => s
  }

  /** `internal_key_cmp`: user keys ascending, then sequence numbers descending; the type is ignored. */
  function InternalKeyCmp(a: Bytes, b: Bytes): Ordering {
    if UserKeyOf(a) != UserKeyOf(b) then Compare(UserKeyOf(a), UserKeyOf(b))
    else if SeqOrZero(a) > SeqOrZero(b) then Less
    else if SeqOrZero(a) == SeqOrZero(b) then Equal
    else Greater
  }

  /** The `Ord` of `InternalKey`: like `InternalKeyCmp`, with the type as the last tie-break. */
  predicate KeyBefore(a: InternalKey, b: InternalKey) {
    if a.userKey != b.userKey then Before(a.userKey, b.userKey)
    else if a.seqno != b.seqno then a.seqno > b.seqno
    else TypeByte(a.vtype) < TypeByte(b.vtype)
  }

  /** The sentinel a reader at `snapshot` searches for. */
  function LookupKey(userKey: Bytes, snapshot: nat): Bytes {
    Encode(InternalKey(userKey, snapshot, Put))
  }

  lemma {:induction false} LittleEndianOnto(b: Bytes)
    ensures LittleEndian(FromLittleEndian(b), |b|) == b
  {
    if b != [] {
      LittleEndianOnto(b[1..]);
      assert FromLittleEndian(b) % 256 == b[0] && FromLittleEndian(b) / 256 == FromLittleEndian(b[1..]);
      assert b == [b[0]] + b[1..];
    }
  }

  /** Bytes decode exactly if they are the encoding of some key, and then to that key. */
  lemma DecodeIff(b: Bytes)
    ensures Decode(b).Ok? <==> |b| >= FOOTER_LEN && b[|b| - 1] <= 1
    ensures Decode(b).Ok? ==> Encode(Decode(b).value) == b && Decode(b).value.seqno < U64_LIMIT
  {
    if Decode(b).Ok? {
      var footer := b[|b| - FOOTER_LEN..|b| - 1];
      WidthLimits();
      LittleEndianOnto(footer);
      FromLittleEndianBound(footer);
      assert b == b[..|b| - FOOTER_LEN] + footer + [b[|b| - 1]];
    }
  }

  /** Decoding inverts encoding, and the three byte-level accessors agree with the fields. */
  lemma EncodeRoundTrip(ik: InternalKey)
    requires ik.seqno < U64_LIMIT
    ensures Decode(Encode(ik)) == Ok(ik)
    ensures UserKeyOf(Encode(ik)) == ik.userKey
    ensures SeqOf(Encode(ik)) == Some(ik.seqno)
    ensures TypeOf(Encode(ik)) == Some(ik.vtype)
  {
    var b := Encode(ik);
    WidthLimits();
    LittleEndianRoundTrip(ik.seqno, 8);
    assert b[..|b| - FOOTER_LEN] == ik.userKey;
    assert b[|b| - FOOTER_LEN..|b| - 1] == LittleEndian(ik.seqno, 8);
  }

  /** The byte comparator orders encoded keys exactly as `Ord` orders the keys, up to the type of equal versions. */
  lemma CmpAgreesWithOrd(a: InternalKey, b: InternalKey)
    requires a.seqno < U64_LIMIT && b.seqno < U64_LIMIT
    ensures InternalKeyCmp(Encode(a), Encode(b)) == Equal <==> a.userKey == b.userKey && a.seqno == b.seqno
    ensures a.userKey != b.userKey || a.seqno != b.seqno
            ==> (InternalKeyCmp(Encode(a), Encode(b)) == Less <==> KeyBefore(a, b))
  {
    EncodeRoundTrip(a);
    EncodeRoundTrip(b);
    OrderFacts();
  }

  /** `KeyBefore` is a strict total order. */
  lemma KeyBeforeIsTotalOrder(a: InternalKey, b: InternalKey, c: InternalKey)
    ensures !KeyBefore(a, a)
    ensures a == b || KeyBefore(a, b) || KeyBefore(b, a)
    ensures !(KeyBefore(a, b) && KeyBefore(b, a))
    ensures KeyBefore(a, b) && KeyBefore(b, c) ==> KeyBefore(a, c)
  {
    OrderFacts();
  }

  /** A comparator a block can be searched with: a total preorder on byte strings. */
  ghost predicate TotalPreorder(cmp: (Bytes, Bytes) -> Ordering) {
    && (forall a, b :: cmp(a, b) == Less <==> cmp(b, a) == Greater)
    && (forall a, b :: cmp(a, b) == Equal <==> cmp(b, a) == Equal)
    && (forall a, b, c :: cmp(a, b) != Greater && cmp(b, c) != Greater ==> cmp(a, c) != Greater)
    && (forall a, b, c :: cmp(a, b) == Less && cmp(b, c) != Greater ==> cmp(a, c) == Less)
    && (forall a, b, c :: cmp(a, b) != Greater && cmp(b, c) == Less ==> cmp(a, c) == Less)
  }

  /** Both comparators the tables use are total preorders, on arbitrary (even malformed) bytes. */
  lemma ComparatorsAreTotalPreorders()
    ensures TotalPreorder(InternalKeyCmp)
    ensures TotalPreorder(Compare)
  {
    OrderFacts();
  }
}
