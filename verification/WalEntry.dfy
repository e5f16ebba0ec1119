/** The payload of a log record: one put or delete. */
module WalEntries {
  import opened ByteStrings
  import opened InternalKeys
  import opened Varints

  datatype WalEntry = WalEntry(vtype: ValueType, seqno: nat, key: Bytes, value: Bytes)

  /** vtype(1) | seq(8) | key_len | key | val_len | val. */
  function EncodeEntry(e: WalEntry): Bytes {
    [TypeByte(e.vtype)] + LittleEndian(e.seqno, 8) + Sized(e.key) + Sized(e.value)
  }

  /** Bytes after the value are ignored. */
  function DecodeEntry(data: Bytes): Result<WalEntry> {
    if |data| < 9 then Corrupted
    else
      match TypeFromByte(data[0])
      case None => Corrupted
      case Some(t) =>
        var key :- TakeSized(data[9..]);
        var value :- TakeSized(key.1);
        Ok(WalEntry(t, FromLittleEndian(data[1..9]), key.0, value.0))
  }

  lemma DecodeEncoded(e: WalEntry, rest: Bytes)
    requires e.seqno < U64_LIMIT && |e.key| < U32_LIMIT && |e.value| < U32_LIMIT
    ensures DecodeEntry(EncodeEntry(e) + rest) == Ok(e)
  {
    var data := EncodeEntry(e) + rest;
    WidthLimits();
    LittleEndianRoundTrip(e.seqno, 8);
    assert data[0] == TypeByte(e.vtype);
    assert data[1..9] == LittleEndian(e.seqno, 8);
    assert data[9..] == Sized(e.key) + (Sized(e.value) + rest);
    TakeSizedRoundTrip(e.key, Sized(e.value) + rest);
    TakeSizedRoundTrip(e.value, rest);
  }

  /** A payload that was cut short does not decode, and neither does one that starts with an unknown type. */
  lemma DamagedEntryFails(e: WalEntry, m: nat, data: Bytes)
    requires |e.key| < U32_LIMIT && |e.value| < U32_LIMIT && m < |EncodeEntry(e)|
    ensures DecodeEntry(EncodeEntry(e)[..m]) == Corrupted
    ensures data != [] && data[0] > 1 ==> DecodeEntry(data) == Corrupted
  {
    hide TakeSized, Sized;
    if m >= 9 {
      var rest := Sized(e.key) + Sized(e.value);
      assert EncodeEntry(e)[..m][9..] == rest[..m - 9];
      CutSized(e.key, Sized(e.value), m - 9);
      if m - 9 >= |Sized(e.key)| {
        assert Sized(e.value) + [] == Sized(e.value);
        CutSized(e.value, [], m - 9 - |Sized(e.key)|);
      }
    }
  }

  /** Decoding inverts encoding exactly when the sequence number fits u64 and both lengths fit their u32 casts. */
  lemma EntryRoundTrip(e: WalEntry)
    ensures DecodeEntry(EncodeEntry(e)) == Ok(e)
       <==> e.seqno < U64_LIMIT && |e.key| < U32_LIMIT && |e.value| < U32_LIMIT
  {
    var data := EncodeEntry(e);
    if e.seqno < U64_LIMIT && |e.key| < U32_LIMIT && |e.value| < U32_LIMIT {
      DecodeEncoded(e, []);
      assert data + [] == data;
    } else if DecodeEntry(data) == Ok(e) {
      WidthLimits();
      FromLittleEndianBound(data[1..9]);
    }
  }
}
