/** Version edits and their tag-based encoding, the records of the manifest. */
module Manifest {
  import opened ByteStrings
  import opened InternalKeys
  import opened Varints

  /** One table file: its number, its size and its first and last internal key. */
  datatype FileMeta = FileMeta(number: nat, size: nat, smallest: InternalKey, largest: InternalKey)

  datatype DeletedFile = DeletedFile(level: nat, number: nat)
  datatype NewFile = NewFile(level: nat, meta: FileMeta)
  datatype Pointer = Pointer(level: nat, key: Bytes)

  datatype VersionEdit = VersionEdit(
    comparator: Option<Bytes>,
    logNumber: Option<nat>,
    prevLogNumber: Option<nat>,
    nextFileNumber: Option<nat>,
    lastSequence: Option<nat>,
    deletedFiles: seq<DeletedFile>,
    newFiles: seq<NewFile>,
    compactPointers: seq<Pointer>)

  const EmptyEdit := VersionEdit(None, None, None, None, None, [], [], [])

  const TAG_COMPARATOR: Byte := 1
  const TAG_LOG_NUMBER: Byte := 2
  const TAG_NEXT_FILE_NUMBER: Byte := 3
  const TAG_LAST_SEQUENCE: Byte := 4
  const TAG_COMPACT_POINTER: Byte := 5
  const TAG_DELETED_FILE: Byte := 6
  const TAG_NEW_FILE: Byte := 7
  const TAG_PREV_LOG_NUMBER: Byte := 9

  /** One tagged field of an edit. */
  datatype Field =
    | ComparatorField(name: Bytes)
    | LogNumberField(n: nat)
    | PrevLogNumberField(n: nat)
    | NextFileNumberField(n: nat)
    | LastSequenceField(n: nat)
    | DeletedFileField(deleted: DeletedFile)
    | NewFileField(file: NewFile)
    | PointerField(pointer: Pointer)

  // ----- encoding -----------------------------------------------------------------------------

  function EncodeField(f: Field): (b: Bytes)
    ensures b != []
  {
    match f
    case ComparatorField(name) => [TAG_COMPARATOR] + Sized(name)
    case LogNumberField(n) => [TAG_LOG_NUMBER] + Varint(n)
    case PrevLogNumberField(n) => [TAG_PREV_LOG_NUMBER] + Varint(n)
    case NextFileNumberField(n) => [TAG_NEXT_FILE_NUMBER] + Varint(n)
    case LastSequenceField(n) => [TAG_LAST_SEQUENCE] + Varint(n)
    case DeletedFileField(d) => [TAG_DELETED_FILE] + Varint(d.level) + Varint(d.number)
    case NewFileField(f) =>
      [TAG_NEW_FILE] + Varint(f.level) + Varint(f.meta.number) + Varint(f.meta.size)
      + Sized(InternalKeys.Encode(f.meta.smallest)) + Sized(InternalKeys.Encode(f.meta.largest))
    case PointerField(p) => [TAG_COMPACT_POINTER] + Varint(p.level) + Sized(p.key)
  }

  function EncodeFields(fs: seq<Field>): Bytes {
    if fs == [] then [] else EncodeField(fs[0]) + EncodeFields(fs[1..])
  }

  /** The scalar fields that are present, in writing order. */
  function ScalarFields(e: VersionEdit): seq<Field> {
    (if e.comparator.Some? then [ComparatorField(e.comparator.value)] else [])
    + (if e.logNumber.Some? then [LogNumberField(e.logNumber.value)] else [])
    + (if e.prevLogNumber.Some? then [PrevLogNumberField(e.prevLogNumber.value)] else [])
    + (if e.nextFileNumber.Some? then [NextFileNumberField(e.nextFileNumber.value)] else [])
    + (if e.lastSequence.Some? then [LastSequenceField(e.lastSequence.value)] else [])
  }

  function DeletedFields(ds: seq<DeletedFile>): seq<Field> {
    seq(|ds|, i requires 0 <= i < |ds| => DeletedFileField(ds[i]))
  }

  function NewFileFields(fs: seq<NewFile>): seq<Field> {
    seq(|fs|, i requires 0 <= i < |fs| => NewFileField(fs[i]))
  }

  function PointerFields(ps: seq<Pointer>): seq<Field> {
    seq(|ps|, i requires 0 <= i < |ps| => PointerField(ps[i]))
  }

  function Fields(e: VersionEdit): seq<Field> {
    ScalarFields(e) + DeletedFields(e.deletedFiles) + NewFileFields(e.newFiles) + PointerFields(e.compactPointers)
  }

  function Encode(e: VersionEdit): Bytes {
    EncodeFields(Fields(e))
  }

  // ----- decoding -----------------------------------------------------------------------------

  function TakeVarint32(buf: Bytes): (r: Result<(nat, Bytes)>)
    ensures r.Ok? ==> |r.value.1| < |buf|
  {
    var p :- Decode32(buf);
    Ok((p.0, buf[p.1..]))
  }

  function TakeVarint64(buf: Bytes): (r: Result<(nat, Bytes)>)
    ensures r.Ok? ==> |r.value.1| < |buf|
  {
    var p :- Decode64(buf);
    Ok((p.0, buf[p.1..]))
  }

  function TakeInternalKey(buf: Bytes): (r: Result<(InternalKey, Bytes)>)
    ensures r.Ok? ==> |r.value.1| < |buf|
  {
    var s :- TakeSized(buf);
    var ik :- InternalKeys.Decode(s.0);
    Ok((ik, s.1))
  }

  function TakeNewFile(buf: Bytes): (r: Result<(Field, Bytes)>)
    ensures r.Ok? ==> |r.value.1| < |buf|
  {
    var level :- TakeVarint32(buf);
    var number :- TakeVarint64(level.1);
    var size :- TakeVarint64(number.1);
    var smallest :- TakeInternalKey(size.1);
    var largest :- TakeInternalKey(smallest.1);
    Ok((NewFileField(NewFile(level.0, FileMeta(number.0, size.0, smallest.0, largest.0))), largest.1))
  }

  /** Parses the field at the front of a non-empty buffer; unknown tags are corruption. */
  function TakeField(buf: Bytes): (r: Result<(Field, Bytes)>)
    requires buf != []
    ensures r.Ok? ==> |r.value.1| < |buf|
  {
    var tag, rest := buf[0], buf[1..];
    if tag == TAG_COMPARATOR then
      var s :- TakeSized(rest);
      Ok((ComparatorField(s.0), s.1))
    else if tag == TAG_LOG_NUMBER then
      var n :- TakeVarint64(rest);
      Ok((LogNumberField(n.0), n.1))
    else if tag == TAG_PREV_LOG_NUMBER then
      var n :- TakeVarint64(rest);
      Ok((PrevLogNumberField(n.0), n.1))
    else if tag == TAG_NEXT_FILE_NUMBER then
      var n :- TakeVarint64(rest);
      Ok((NextFileNumberField(n.0), n.1))
    else if tag == TAG_LAST_SEQUENCE then
      var n :- TakeVarint64(rest);
      Ok((LastSequenceField(n.0), n.1))
    else if tag == TAG_DELETED_FILE then
      var level :- TakeVarint32(rest);
      var number :- TakeVarint64(level.1);
      Ok((DeletedFileField(DeletedFile(level.0, number.0)), number.1))
    else if tag == TAG_NEW_FILE then
      TakeNewFile(rest)
    else if tag == TAG_COMPACT_POINTER then
      var level :- TakeVarint32(rest);
      var key :- TakeSized(level.1);
      Ok((PointerField(Pointer(level.0, key.0)), key.1))
    else Corrupted
  }

  /** Records a parsed field: scalars overwrite, groups accumulate. */
  function AddField(e: VersionEdit, f: Field): VersionEdit {
    match f
    case ComparatorField(name) => e.(comparator := Some(name))
    case LogNumberField(n) => e.(logNumber := Some(n))
    case PrevLogNumberField(n) => e.(prevLogNumber := Some(n))
    case NextFileNumberField(n) => e.(nextFileNumber := Some(n))
    case LastSequenceField(n) => e.(lastSequence := Some(n))
    case DeletedFileField(d) => e.(deletedFiles := e.deletedFiles + [d])
    case NewFileField(f) => e.(newFiles := e.newFiles + [f])
    case PointerField(p) => e.(compactPointers := e.compactPointers + [p])
  }

  function AddFields(e: VersionEdit, fs: seq<Field>): VersionEdit
    decreases |fs|
  {
    if fs == [] then e else AddFields(AddField(e, fs[0]), fs[1..])
  }

  function DecodeFields(buf: Bytes, e: VersionEdit): Result<VersionEdit>
    decreases |buf|
  {
    if buf == [] then Ok(e)
    else
      var p :- TakeField(buf);
      DecodeFields(p.1, AddField(e, p.0))
  }

  function Decode(buf: Bytes): Result<VersionEdit> {
    DecodeFields(buf, EmptyEdit)
  }

  /** `encode_to`: pushes the present fields one after the other. */
  method EncodeTo(e: VersionEdit, start: Bytes) returns (buf: Bytes)
    ensures buf == start + Encode(e)
  {
    hide EncodeField, EncodeFields, Fields, ScalarFields;
    buf := EncodeScalars(e, start);
    ghost var done := ScalarFields(e);
    for i := 0 to |e.deletedFiles|
      invariant buf == start + EncodeFields(done)
      invariant done == ScalarFields(e) + DeletedFields(e.deletedFiles)[..i]
    {
      buf := buf + EncodeField(DeletedFileField(e.deletedFiles[i]));
      done := PushField(start, done, DeletedFileField(e.deletedFiles[i]));
    }
    ghost var done1 := done;
    for i := 0 to |e.newFiles|
      invariant buf == start + EncodeFields(done)
      invariant done == done1 + NewFileFields(e.newFiles)[..i]
    {
      buf := buf + EncodeField(NewFileField(e.newFiles[i]));
      done := PushField(start, done, NewFileField(e.newFiles[i]));
    }
    ghost var done2 := done;
    for i := 0 to |e.compactPointers|
      invariant buf == start + EncodeFields(done)
      invariant done == done2 + PointerFields(e.compactPointers)[..i]
    {
      buf := buf + EncodeField(PointerField(e.compactPointers[i]));
      done := PushField(start, done, PointerField(e.compactPointers[i]));
    }
    AllFields(e, done);
  }

  method EncodeScalars(e: VersionEdit, start: Bytes) returns (buf: Bytes)
    ensures buf == start + EncodeFields(ScalarFields(e))
  {
    hide EncodeField, EncodeFields;
    ghost var done := [];
    buf := start;
    EncodeNoFields(start);
    if e.comparator.Some? {
      buf := buf + EncodeField(ComparatorField(e.comparator.value));
      done := PushField(start, done, ComparatorField(e.comparator.value));
    }
    ghost var one := if e.comparator.Some? then [ComparatorField(e.comparator.value)] else [];
    assert done == one;
    if e.logNumber.Some? {
      buf := buf + EncodeField(LogNumberField(e.logNumber.value));
      done := PushField(start, done, LogNumberField(e.logNumber.value));
    }
    ghost var two := one + if e.logNumber.Some? then [LogNumberField(e.logNumber.value)] else [];
    assert done == two;
    if e.prevLogNumber.Some? {
      buf := buf + EncodeField(PrevLogNumberField(e.prevLogNumber.value));
      done := PushField(start, done, PrevLogNumberField(e.prevLogNumber.value));
    }
    ghost var three := two + if e.prevLogNumber.Some? then [PrevLogNumberField(e.prevLogNumber.value)] else [];
    assert done == three;
    if e.nextFileNumber.Some? {
      buf := buf + EncodeField(NextFileNumberField(e.nextFileNumber.value));
      done := PushField(start, done, NextFileNumberField(e.nextFileNumber.value));
    }
    ghost var four := three + if e.nextFileNumber.Some? then [NextFileNumberField(e.nextFileNumber.value)] else [];
    assert done == four;
    if e.lastSequence.Some? {
      buf := buf + EncodeField(LastSequenceField(e.lastSequence.value));
      done := PushField(start, done, LastSequenceField(e.lastSequence.value));
    }
    assert done == ScalarFields(e);
  }

  lemma EncodeNoFields(start: Bytes)
    ensures start == start + EncodeFields([])
  {
  }

  lemma AllFields(e: VersionEdit, done: seq<Field>)
    requires done == ScalarFields(e) + DeletedFields(e.deletedFiles) + NewFileFields(e.newFiles)
                     + PointerFields(e.compactPointers)[..|e.compactPointers|]
    ensures done == Fields(e)
  {
  }

  lemma PushField(start: Bytes, done: seq<Field>, f: Field) returns (more: seq<Field>)
    ensures more == done + [f]
    ensures start + EncodeFields(more) == start + EncodeFields(done) + EncodeField(f)
  {
    more := done + [f];
    EncodeFieldsAppend(done, [f]);
    assert EncodeFields([f]) == EncodeField(f) + EncodeFields([]) == EncodeField(f);
    assert start + (EncodeFields(done) + EncodeField(f)) == (start + EncodeFields(done)) + EncodeField(f);
  }

  lemma {:induction false} EncodeFieldsAppend(a: seq<Field>, b: seq<Field>)
    ensures EncodeFields(a + b) == EncodeFields(a) + EncodeFields(b)
  {
    if a == [] {
      assert a + b == b;
    } else {
      assert (a + b)[0] == a[0] && (a + b)[1..] == a[1..] + b;
      EncodeFieldsAppend(a[1..], b);
    }
  }

  /** The loop of `decode`: consumes the buffer field by field, filling an edit. */
  method DecodeEdit(buf: Bytes) returns (r: Result<VersionEdit>)
    ensures r == Decode(buf)
  {
    var edit := EmptyEdit;
    var rest := buf;
    while rest != []
      invariant DecodeFields(rest, edit) == Decode(buf)
      decreases |rest|
    {
      var p := TakeField(rest);
      if p.Corrupted? {
        return Corrupted;
      }
      edit := AddField(edit, p.value.0);
      rest := p.value.1;
    }
    return Ok(edit);
  }

  // ----- round trip ---------------------------------------------------------------------------

  predicate FitsKey(ik: InternalKey) {
    ik.seqno < U64_LIMIT && |ik.userKey| + FOOTER_LEN < U32_LIMIT
  }

  predicate FitsMeta(m: FileMeta) {
    m.number < U64_LIMIT && m.size < U64_LIMIT && FitsKey(m.smallest) && FitsKey(m.largest)
  }

  /** The numbers of a field fit their integer types, and its lengths fit their u32 casts. */
  predicate FitsField(f: Field) {
    match f
    case ComparatorField(name) => |name| < U32_LIMIT
    case LogNumberField(n) => n < U64_LIMIT
    case PrevLogNumberField(n) => n < U64_LIMIT
    case NextFileNumberField(n) => n < U64_LIMIT
    case LastSequenceField(n) => n < U64_LIMIT
    case DeletedFileField(d) => d.level < U32_LIMIT && d.number < U64_LIMIT
    case NewFileField(f) => f.level < U32_LIMIT && FitsMeta(f.meta)
    case PointerField(p) => p.level < U32_LIMIT && |p.key| < U32_LIMIT
  }

  predicate FitsNumber(n: Option<nat>) {
    n.None? || n.value < U64_LIMIT
  }

  /** An edit whose numbers fit their integer types and whose lengths fit their u32 casts. */
  predicate Fits(e: VersionEdit) {
    && (e.comparator.None? || |e.comparator.value| < U32_LIMIT)
    && FitsNumber(e.logNumber) && FitsNumber(e.prevLogNumber)
    && FitsNumber(e.nextFileNumber) && FitsNumber(e.lastSequence)
    && (forall i :: 0 <= i < |e.deletedFiles| ==> FitsField(DeletedFileField(e.deletedFiles[i])))
    && (forall i :: 0 <= i < |e.newFiles| ==> FitsField(NewFileField(e.newFiles[i])))
    && (forall i :: 0 <= i < |e.compactPointers| ==> FitsField(PointerField(e.compactPointers[i])))
  }

  lemma TakeVarint64RoundTrip(n: nat, rest: Bytes)
    requires n < U64_LIMIT
    ensures TakeVarint64(Varint(n) + rest) == Ok((n, rest))
  {
    RoundTrip64(n, rest);
    assert (Varint(n) + rest)[|Varint(n)|..] == rest;
  }

  lemma TakeVarint32RoundTrip(n: nat, rest: Bytes)
    requires n < U32_LIMIT
    ensures TakeVarint32(Varint(n) + rest) == Ok((n, rest))
  {
    RoundTrip32(n, rest);
    assert (Varint(n) + rest)[|Varint(n)|..] == rest;
  }

  lemma TakeInternalKeyRoundTrip(ik: InternalKey, rest: Bytes)
    requires FitsKey(ik)
    ensures TakeInternalKey(Sized(InternalKeys.Encode(ik)) + rest) == Ok((ik, rest))
  {
    TakeSizedRoundTrip(InternalKeys.Encode(ik), rest);
    EncodeRoundTrip(ik);
  }

  lemma TakeNewFileRoundTrip(f: NewFile, rest: Bytes)
    requires FitsField(NewFileField(f))
    ensures EncodeField(NewFileField(f)) != [] && TakeNewFile(EncodeField(NewFileField(f))[1..] + rest) == Ok((NewFileField(f), rest))
  {
    hide TakeVarint32, TakeVarint64, TakeInternalKey, Sized, Varint;
    var b4 := Sized(InternalKeys.Encode(f.meta.largest)) + rest;
    var b3 := Sized(InternalKeys.Encode(f.meta.smallest)) + b4;
    var b2 := Varint(f.meta.size) + b3;
    var b1 := Varint(f.meta.number) + b2;
    TakeVarint32RoundTrip(f.level, b1);
    TakeVarint64RoundTrip(f.meta.number, b2);
    TakeVarint64RoundTrip(f.meta.size, b3);
    TakeInternalKeyRoundTrip(f.meta.smallest, b4);
    TakeInternalKeyRoundTrip(f.meta.largest, rest);
    assert EncodeField(NewFileField(f))[1..] + rest == Varint(f.level) + b1;
  }

  /** A field parses back from the front of any buffer that starts with its encoding. */
  lemma TakeFieldRoundTrip(f: Field, rest: Bytes)
    requires FitsField(f)
    ensures TakeField(EncodeField(f) + rest) == Ok((f, rest))
  {
    hide TakeVarint32, TakeVarint64, TakeInternalKey, TakeSized, TakeNewFile, Sized, Varint;
    var buf := EncodeField(f) + rest;
    assert buf[1..] == EncodeField(f)[1..] + rest;
    match f
    case ComparatorField(name) =>
      assert buf[1..] == Sized(name) + rest;
      TakeSizedRoundTrip(name, rest);
    case NewFileField(nf) =>
      TakeNewFileRoundTrip(nf, rest);
    case DeletedFileField(_) =>
      TakeLeveledRoundTrip(f, rest);
    case PointerField(_) =>
      TakeLeveledRoundTrip(f, rest);
    case _ =>
      TakeScalarRoundTrip(f, rest);
  }

  lemma TakeLeveledRoundTrip(f: Field, rest: Bytes)
    requires f.DeletedFileField? || f.PointerField?
    requires FitsField(f)
    ensures TakeField(EncodeField(f) + rest) == Ok((f, rest))
  {
    hide TakeVarint32, TakeVarint64, TakeSized, Sized, Varint;
    var buf := EncodeField(f) + rest;
    if f.DeletedFileField? {
      assert buf[1..] == Varint(f.deleted.level) + (Varint(f.deleted.number) + rest);
      TakeVarint32RoundTrip(f.deleted.level, Varint(f.deleted.number) + rest);
      TakeVarint64RoundTrip(f.deleted.number, rest);
    } else {
      assert buf[1..] == Varint(f.pointer.level) + (Sized(f.pointer.key) + rest);
      TakeVarint32RoundTrip(f.pointer.level, Sized(f.pointer.key) + rest);
      TakeSizedRoundTrip(f.pointer.key, rest);
    }
  }

  lemma TakeScalarRoundTrip(f: Field, rest: Bytes)
    requires f.LogNumberField? || f.PrevLogNumberField? || f.NextFileNumberField? || f.LastSequenceField?
    requires FitsField(f)
    ensures TakeField(EncodeField(f) + rest) == Ok((f, rest))
  {
    hide TakeVarint64, Varint;
    var buf := EncodeField(f) + rest;
    assert buf[1..] == Varint(f.n) + rest;
    TakeVarint64RoundTrip(f.n, rest);
  }

  lemma {:induction false} DecodeFieldsRoundTrip(fs: seq<Field>, e: VersionEdit)
    requires forall i :: 0 <= i < |fs| ==> FitsField(fs[i])
    ensures DecodeFields(EncodeFields(fs), e) == Ok(AddFields(e, fs))
    decreases |fs|
  {
    if fs != [] {
      TakeFieldRoundTrip(fs[0], EncodeFields(fs[1..]));
      DecodeFieldsRoundTrip(fs[1..], AddField(e, fs[0]));
    }
  }

  lemma {:induction false} DecodeFieldsThen(fs: seq<Field>, rest: Bytes, e: VersionEdit)
    requires forall i :: 0 <= i < |fs| ==> FitsField(fs[i])
    ensures DecodeFields(EncodeFields(fs) + rest, e) == DecodeFields(rest, AddFields(e, fs))
    decreases |fs|
  {
    hide TakeField, EncodeField, AddField, FitsField;
    if fs == [] {
      assert EncodeFields(fs) + rest == rest;
    } else {
      assert EncodeFields(fs) + rest == EncodeField(fs[0]) + (EncodeFields(fs[1..]) + rest);
      TakeFieldRoundTrip(fs[0], EncodeFields(fs[1..]) + rest);
      DecodeFieldsThen(fs[1..], rest, AddField(e, fs[0]));
    }
  }

  lemma {:induction false} AddFieldsAppend(e: VersionEdit, a: seq<Field>, b: seq<Field>)
    ensures AddFields(e, a + b) == AddFields(AddFields(e, a), b)
    decreases |a|
  {
    if a == [] {
      assert a + b == b;
    } else {
      assert (a + b)[0] == a[0] && (a + b)[1..] == a[1..] + b;
      AddFieldsAppend(AddField(e, a[0]), a[1..], b);
    }
  }

  lemma {:induction false} AddDeletedFields(e: VersionEdit, ds: seq<DeletedFile>)
    ensures AddFields(e, DeletedFields(ds)) == e.(deletedFiles := e.deletedFiles + ds)
    decreases |ds|
  {
    if ds == [] {
      assert e.deletedFiles + ds == e.deletedFiles;
    } else {
      assert DeletedFields(ds)[1..] == DeletedFields(ds[1..]);
      AddDeletedFields(e.(deletedFiles := e.deletedFiles + [ds[0]]), ds[1..]);
      assert e.deletedFiles + [ds[0]] + ds[1..] == e.deletedFiles + ds;
    }
  }

  lemma {:induction false} AddNewFileFields(e: VersionEdit, fs: seq<NewFile>)
    ensures AddFields(e, NewFileFields(fs)) == e.(newFiles := e.newFiles + fs)
    decreases |fs|
  {
    if fs == [] {
      assert e.newFiles + fs == e.newFiles;
    } else {
      assert NewFileFields(fs)[1..] == NewFileFields(fs[1..]);
      AddNewFileFields(e.(newFiles := e.newFiles + [fs[0]]), fs[1..]);
      assert e.newFiles + [fs[0]] + fs[1..] == e.newFiles + fs;
    }
  }

  lemma {:induction false} AddPointerFields(e: VersionEdit, ps: seq<Pointer>)
    ensures AddFields(e, PointerFields(ps)) == e.(compactPointers := e.compactPointers + ps)
    decreases |ps|
  {
    if ps == [] {
      assert e.compactPointers + ps == e.compactPointers;
    } else {
      assert PointerFields(ps)[1..] == PointerFields(ps[1..]);
      AddPointerFields(e.(compactPointers := e.compactPointers + [ps[0]]), ps[1..]);
      assert e.compactPointers + [ps[0]] + ps[1..] == e.compactPointers + ps;
    }
  }

  lemma AddOne(e: VersionEdit, f: Field)
    ensures AddFields(e, [f]) == AddField(e, f)
  {
  }

  lemma AddScalarFields(e: VersionEdit)
    ensures AddFields(EmptyEdit, ScalarFields(e))
         == VersionEdit(e.comparator, e.logNumber, e.prevLogNumber, e.nextFileNumber, e.lastSequence, [], [], [])
  {
    var s1 := if e.comparator.Some? then [ComparatorField(e.comparator.value)] else [];
    var s2 := if e.logNumber.Some? then [LogNumberField(e.logNumber.value)] else [];
    var s3 := if e.prevLogNumber.Some? then [PrevLogNumberField(e.prevLogNumber.value)] else [];
    var s4 := if e.nextFileNumber.Some? then [NextFileNumberField(e.nextFileNumber.value)] else [];
    var s5 := if e.lastSequence.Some? then [LastSequenceField(e.lastSequence.value)] else [];
    var e1 := VersionEdit(e.comparator, None, None, None, None, [], [], []);
    var e2 := e1.(logNumber := e.logNumber);
    var e3 := e2.(prevLogNumber := e.prevLogNumber);
    var e4 := e3.(nextFileNumber := e.nextFileNumber);
    AddFieldsAppend(EmptyEdit, s1 + s2 + s3 + s4, s5);
    AddFieldsAppend(EmptyEdit, s1 + s2 + s3, s4);
    AddFieldsAppend(EmptyEdit, s1 + s2, s3);
    AddFieldsAppend(EmptyEdit, s1, s2);
    forall e0: VersionEdit, f: Field ensures AddFields(e0, [f]) == AddField(e0, f) { AddOne(e0, f); }
    assert AddFields(EmptyEdit, s1) == e1;
    assert AddFields(e1, s2) == e2;
    assert AddFields(e2, s3) == e3;
    assert AddFields(e3, s4) == e4;
  }

  lemma FieldsRebuildEdit(e: VersionEdit)
    ensures AddFields(EmptyEdit, Fields(e)) == e
  {
    hide ScalarFields, AddFields;
    var s, d, n, p := ScalarFields(e), DeletedFields(e.deletedFiles), NewFileFields(e.newFiles), PointerFields(e.compactPointers);
    AddFieldsAppend(EmptyEdit, s + d + n, p);
    AddFieldsAppend(EmptyEdit, s + d, n);
    AddFieldsAppend(EmptyEdit, s, d);
    AddScalarFields(e);
    var e1 := AddFields(EmptyEdit, s);
    AddDeletedFields(e1, e.deletedFiles);
    var e2 := e1.(deletedFiles := [] + e.deletedFiles);
    AddNewFileFields(e2, e.newFiles);
    var e3 := e2.(newFiles := [] + e.newFiles);
    AddPointerFields(e3, e.compactPointers);
    assert [] + e.deletedFiles == e.deletedFiles && [] + e.newFiles == e.newFiles
        && [] + e.compactPointers == e.compactPointers;
  }

  lemma FittingFields(e: VersionEdit)
    requires Fits(e)
    ensures forall i :: 0 <= i < |Fields(e)| ==> FitsField(Fields(e)[i])
  {
  }

  /** Every field the decoder accepts fits. */
  lemma TakenFieldFits(buf: Bytes)
    requires buf != []
    ensures TakeField(buf).Ok? ==> FitsField(TakeField(buf).value.0)
  {
    hide Decode32, Decode64, TakeSized;
    forall b: Bytes ensures TakeInternalKey(b).Ok? ==> FitsKey(TakeInternalKey(b).value.0) {
      TakenInternalKeyFits(b);
    }
  }

  lemma TakenInternalKeyFits(b: Bytes)
    ensures TakeInternalKey(b).Ok? ==> FitsKey(TakeInternalKey(b).value.0)
  {
    var s := TakeSized(b);
    if TakeInternalKey(b).Ok? {
      var k := s.value.0;
      WidthLimits();
      FromLittleEndianBound(k[|k| - FOOTER_LEN..|k| - 1]);
    }
  }

  lemma AddFieldFits(e: VersionEdit, f: Field)
    requires Fits(e) && FitsField(f)
    ensures Fits(AddField(e, f))
  {
  }

  lemma {:induction false} DecodedEditFits(buf: Bytes, e: VersionEdit)
    requires Fits(e)
    ensures DecodeFields(buf, e).Ok? ==> Fits(DecodeFields(buf, e).value)
    decreases |buf|
  {
    hide TakeField, AddField, Fits;
    if buf != [] && TakeField(buf).Ok? {
      TakenFieldFits(buf);
      AddFieldFits(e, TakeField(buf).value.0);
      DecodedEditFits(TakeField(buf).value.1, AddField(e, TakeField(buf).value.0));
    }
  }

  /** Decoding inverts encoding exactly for the edits whose numbers and lengths fit. */
  lemma EditRoundTrip(e: VersionEdit)
    ensures Decode(Encode(e)) == Ok(e) <==> Fits(e)
  {
    if Fits(e) {
      FittingFields(e);
      DecodeFieldsRoundTrip(Fields(e), EmptyEdit);
      FieldsRebuildEdit(e);
    } else {
      DecodedEditFits(Encode(e), EmptyEdit);
    }
  }

  // ----- damaged edits ------------------------------------------------------------------------

  lemma CutVarint64(n: nat, rest: Bytes, m: nat)
    requires n < U64_LIMIT && m <= |Varint(n) + rest|
    ensures TakeVarint64((Varint(n) + rest)[..m]) == if m < |Varint(n)| then Corrupted else Ok((n, rest[..m - |Varint(n)|]))
  {
    hide Varint, Varints.Decode;
    if m < |Varint(n)| {
      assert (Varint(n) + rest)[..m] == Varint(n)[..m];
      CutVarintFails(n, m, MAX_VARINT64_LEN);
    } else {
      assert (Varint(n) + rest)[..m] == Varint(n) + rest[..m - |Varint(n)|];
      TakeVarint64RoundTrip(n, rest[..m - |Varint(n)|]);
    }
  }

  lemma CutVarint32(n: nat, rest: Bytes, m: nat)
    requires n < U32_LIMIT && m <= |Varint(n) + rest|
    ensures TakeVarint32((Varint(n) + rest)[..m]) == if m < |Varint(n)| then Corrupted else Ok((n, rest[..m - |Varint(n)|]))
  {
    hide Varint, Varints.Decode;
    if m < |Varint(n)| {
      assert (Varint(n) + rest)[..m] == Varint(n)[..m];
      CutVarintFails(n, m, MAX_VARINT32_LEN);
    } else {
      assert (Varint(n) + rest)[..m] == Varint(n) + rest[..m - |Varint(n)|];
      TakeVarint32RoundTrip(n, rest[..m - |Varint(n)|]);
    }
  }

  lemma CutInternalKey(ik: InternalKey, rest: Bytes, m: nat)
    requires FitsKey(ik) && m <= |Sized(InternalKeys.Encode(ik)) + rest|
    ensures var b := Sized(InternalKeys.Encode(ik));
            TakeInternalKey((b + rest)[..m]) == if m < |b| then Corrupted else Ok((ik, rest[..m - |b|]))
  {
    CutSized(InternalKeys.Encode(ik), rest, m);
    EncodeRoundTrip(ik);
    hide TakeSized, Sized, InternalKeys.Encode, InternalKeys.Decode;
  }

  lemma CutNewFileFails(f: NewFile, m: nat)
    requires FitsField(NewFileField(f)) && m + 1 < |EncodeField(NewFileField(f))|
    ensures TakeNewFile(EncodeField(NewFileField(f))[1..][..m]) == Corrupted
  {
    hide TakeVarint32, TakeVarint64, TakeInternalKey, Sized, Varint;
    var b4 := Sized(InternalKeys.Encode(f.meta.largest)) + [];
    var b3 := Sized(InternalKeys.Encode(f.meta.smallest)) + b4;
    var b2 := Varint(f.meta.size) + b3;
    var b1 := Varint(f.meta.number) + b2;
    assert EncodeField(NewFileField(f))[1..] == Varint(f.level) + b1;
    CutVarint32(f.level, b1, m);
    if m >= |Varint(f.level)| {
      var m1 := m - |Varint(f.level)|;
      CutVarint64(f.meta.number, b2, m1);
      if m1 >= |Varint(f.meta.number)| {
        var m2 := m1 - |Varint(f.meta.number)|;
        CutVarint64(f.meta.size, b3, m2);
        if m2 >= |Varint(f.meta.size)| {
          var m3 := m2 - |Varint(f.meta.size)|;
          CutInternalKey(f.meta.smallest, b4, m3);
          if m3 >= |Sized(InternalKeys.Encode(f.meta.smallest))| {
            CutInternalKey(f.meta.largest, [], m3 - |Sized(InternalKeys.Encode(f.meta.smallest))|);
          }
        }
      }
    }
  }

  lemma CutDeletedFileFails(d: DeletedFile, m: nat)
    requires FitsField(DeletedFileField(d)) && 0 < m < |EncodeField(DeletedFileField(d))|
    ensures TakeField(EncodeField(DeletedFileField(d))[..m]) == Corrupted
  {
    hide TakeVarint32, TakeVarint64, Varint;
    var rest := Varint(d.number);
    assert rest + [] == rest;
    assert EncodeField(DeletedFileField(d))[..m][1..] == (Varint(d.level) + rest)[..m - 1];
    CutVarint32(d.level, rest, m - 1);
    if m - 1 >= |Varint(d.level)| {
      CutVarint64(d.number, [], m - 1 - |Varint(d.level)|);
    }
  }

  lemma CutPointerFails(p: Pointer, m: nat)
    requires FitsField(PointerField(p)) && 0 < m < |EncodeField(PointerField(p))|
    ensures TakeField(EncodeField(PointerField(p))[..m]) == Corrupted
  {
    hide TakeVarint32, TakeSized, Sized, Varint;
    var rest := Sized(p.key);
    assert rest + [] == rest;
    assert EncodeField(PointerField(p))[..m][1..] == (Varint(p.level) + rest)[..m - 1];
    CutVarint32(p.level, rest, m - 1);
    if m - 1 >= |Varint(p.level)| {
      CutSized(p.key, [], m - 1 - |Varint(p.level)|);
    }
  }

  lemma CutScalarFails(f: Field, m: nat)
    requires f.LogNumberField? || f.PrevLogNumberField? || f.NextFileNumberField? || f.LastSequenceField?
    requires FitsField(f) && 0 < m < |EncodeField(f)|
    ensures TakeField(EncodeField(f)[..m]) == Corrupted
  {
    hide TakeVarint64, Varint;
    assert EncodeField(f)[..m][1..] == (Varint(f.n) + [])[..m - 1];
    CutVarint64(f.n, [], m - 1);
  }

  /** A field that was cut short does not parse. */
  lemma CutFieldFails(f: Field, m: nat)
    requires FitsField(f) && 0 < m < |EncodeField(f)|
    ensures TakeField(EncodeField(f)[..m]) == Corrupted
  {
    hide TakeVarint32, TakeVarint64, TakeInternalKey, TakeSized, TakeNewFile, Sized, Varint;
    match f
    case ComparatorField(name) =>
      assert EncodeField(f)[..m][1..] == (Sized(name) + [])[..m - 1];
      CutSized(name, [], m - 1);
    case NewFileField(nf) =>
      assert EncodeField(f)[..m][1..] == EncodeField(f)[1..][..m - 1];
      CutNewFileFails(nf, m - 1);
    case DeletedFileField(d) =>
      CutDeletedFileFails(d, m);
    case PointerField(p) =>
      CutPointerFails(p, m);
    case _ =>
      CutScalarFails(f, m);
  }

  lemma UnknownTagFails(junk: Bytes)
    requires junk != [] && (junk[0] == 0 || junk[0] == 8 || junk[0] > 9)
    ensures TakeField(junk) == Corrupted
  {
  }

  /** An edit is refused as a whole if a field cut short or an unknown tag follows its fields. */
  lemma DamagedEditFails(e: VersionEdit, f: Field, m: nat, junk: Bytes)
    requires Fits(e)
    ensures FitsField(f) && 0 < m < |EncodeField(f)| ==> Decode(Encode(e) + EncodeField(f)[..m]) == Corrupted
    ensures junk != [] && (junk[0] == 0 || junk[0] == 8 || junk[0] > 9) ==> Decode(Encode(e) + junk) == Corrupted
  {
    hide Fields, Fits, TakeField, EncodeField, FitsField;
    FittingFields(e);
    if FitsField(f) && 0 < m < |EncodeField(f)| {
      CutFieldFails(f, m);
      DecodeFieldsThen(Fields(e), EncodeField(f)[..m], EmptyEdit);
    }
    if junk != [] && (junk[0] == 0 || junk[0] == 8 || junk[0] > 9) {
      UnknownTagFails(junk);
      DecodeFieldsThen(Fields(e), junk, EmptyEdit);
    }
  }
}
