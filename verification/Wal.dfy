/** The write-ahead log: records split into checksummed pieces inside 32 KB blocks, and the reader that reassembles them. */
module Wal {
  import opened ByteStrings

  const BLOCK_SIZE: nat := 32768
  const HEADER_SIZE: nat := 7

  const FULL: Byte := 1
  const FIRST: Byte := 2
  const MIDDLE: Byte := 3
  const LAST: Byte := 4

  type Word32 = x: int | 0 <= x < 0x1_0000_0000

  /** The checksum is an arbitrary deterministic function of the bytes it covers. */
  const Checksum: Bytes -> Word32

  // ----- writing ------------------------------------------------------------------------------

  /** `encode_piece`: checksum(4) | length(2) | type(1) | data, the checksum covering type and data. */
  function Piece(rtype: Byte, data: Bytes): (b: Bytes)
    ensures |b| == HEADER_SIZE + |data|
  {
    LittleEndian(Checksum([rtype] + data), 4) + LittleEndian(|data|, 2) + [rtype] + data
  }

  function PieceType(first: bool, last: bool): Byte {
    if first then (if last then FULL else FIRST) else (if last then LAST else MIDDLE)
  }

  /** The file after the zero trailer, if the current block has no room for another header. */
  function Padded(file: Bytes): (f: Bytes)
    ensures file <= f
    ensures |f| % BLOCK_SIZE <= BLOCK_SIZE - HEADER_SIZE
    ensures f == file || (|f| % BLOCK_SIZE == 0 && |f| - |file| < HEADER_SIZE)
  {
    var leftover := BLOCK_SIZE - |file| % BLOCK_SIZE;
    if leftover < HEADER_SIZE then file + seq(leftover, _ => 0) else file
  }

  /** How much data the next piece can carry (possibly none, when exactly a header fits). */
  function Room(file: Bytes): (n: nat)
    ensures |Padded(file)| % BLOCK_SIZE + HEADER_SIZE + n == BLOCK_SIZE
    ensures n == 0 <==> |file| % BLOCK_SIZE == BLOCK_SIZE - HEADER_SIZE
  {
    BLOCK_SIZE - HEADER_SIZE - |Padded(file)| % BLOCK_SIZE
  }

  /** The file after writing the rest of a record from its current end. */
  function AddFragments(file: Bytes, data: Bytes, first: bool): (f: Bytes)
    ensures file < f
    decreases |data|, |file| % BLOCK_SIZE == BLOCK_SIZE - HEADER_SIZE
  {
    var avail := Room(file);
    if |data| <= avail then Padded(file) + Piece(PieceType(first, true), data)
    else AddFragments(Padded(file) + Piece(PieceType(first, false), data[..avail]), data[avail..], false)
  }

  /** One round of the writer: the next piece, and what is left for the rounds after it. */
  lemma OneFragment(file: Bytes, data: Bytes, first: bool, n: nat)
    requires n == if |data| < Room(file) then |data| else Room(file)
    ensures var f1 := Padded(file) + Piece(PieceType(first, n == |data|), data[..n]);
            AddFragments(file, data, first) == if n == |data| then f1 else AddFragments(f1, data[n..], false)
  {
    assert n == |data| ==> data[..n] == data;
  }

  /** The file after appending one record. */
  function WithRecord(file: Bytes, data: Bytes): (f: Bytes)
    ensures file < f
  {
    AddFragments(file, data, true)
  }

  /** The file after appending records in order. */
  function WithRecords(file: Bytes, records: seq<Bytes>): (f: Bytes)
    ensures file <= f
    decreases |records|
  {
    if records == [] then file else WithRecords(WithRecord(file, records[0]), records[1..])
  }

  class WalWriter {
    var file: Bytes
    /** Bytes already written in the current block; BLOCK_SIZE when the block is exactly full. */
    var blockOffset: nat

    ghost predicate Valid()
      reads this
    {
      blockOffset <= BLOCK_SIZE && blockOffset % BLOCK_SIZE == |file| % BLOCK_SIZE
    }

    /** Opens in append mode: writing resumes at the end of whatever the file holds. */
    constructor (existing: Bytes)
      ensures Valid()
      ensures file == existing
    {
      file := existing;
      blockOffset := |existing| % BLOCK_SIZE;
    }

    method AddRecord(data: Bytes)
      requires Valid()
      modifies this
      ensures Valid()
      ensures file == WithRecord(old(file), data)
    {
      hide AddFragments, Piece, Padded, Room, PieceType;
      var remaining := data;
      var first := true;
      var done := false;
      while !done
        invariant Valid()
        invariant if done then file == WithRecord(old(file), data)
                  else AddFragments(file, remaining, first) == WithRecord(old(file), data)
        decreases !done, |remaining|, |file| % BLOCK_SIZE == BLOCK_SIZE - HEADER_SIZE
      {
        ghost var before := file;
        Pad();
        var avail := BLOCK_SIZE - HEADER_SIZE - blockOffset;
        var pieceLen := if |remaining| < avail then |remaining| else avail;
        var last := pieceLen == |remaining|;
        OneFragment(before, remaining, first, pieceLen);
        WritePiece(PieceType(first, last), remaining[..pieceLen]);
        remaining := remaining[pieceLen..];
        first := false;
        done := remaining == [];
      }
    }

    /** Fills the rest of the block with zeros when no header fits in it. */
    method Pad()
      requires Valid()
      modifies this
      ensures Valid()
      ensures file == Padded(old(file)) && blockOffset == |file| % BLOCK_SIZE
    {
      var leftover := BLOCK_SIZE - blockOffset;
      if leftover < HEADER_SIZE {
        if leftover > 0 {
          file := file + seq(leftover, _ => 0);
        }
        blockOffset := 0;
      }
    }

    method WritePiece(rtype: Byte, data: Bytes)
      requires Valid() && blockOffset + HEADER_SIZE + |data| <= BLOCK_SIZE
      modifies this
      ensures Valid()
      ensures file == old(file) + Piece(rtype, data)
      ensures blockOffset == old(blockOffset) + HEADER_SIZE + |data|
    {
      file := file + Piece(rtype, data);
      blockOffset := blockOffset + HEADER_SIZE + |data|;
    }
  }

  // ----- reading ------------------------------------------------------------------------------

  /** What the reader does at a position: stop, move on without data, or accept one piece. */
  datatype Step = Stop | Skip(next: nat) | Accept(rtype: Byte, data: Bytes, next: nat)

  function Inspect(bytes: Bytes, pos: nat): (s: Step)
    ensures !s.Stop? ==> s.next > pos
  {
    if pos + HEADER_SIZE > |bytes| then Stop
    else
      var blockEnd := (pos / BLOCK_SIZE) * BLOCK_SIZE + BLOCK_SIZE;
      if blockEnd - pos < HEADER_SIZE || bytes[pos + 6] == 0 then Skip(blockEnd)
      else if bytes[pos + 6] > LAST then Stop
      else
        var rtype := bytes[pos + 6];
        var end := pos + HEADER_SIZE + FromLittleEndian(bytes[pos + 4..pos + 6]);
        if end > |bytes| then Stop
        else if Checksum([rtype] + bytes[pos + HEADER_SIZE..end]) != FromLittleEndian(bytes[pos..pos + 4]) then Stop
        else Accept(rtype, bytes[pos + HEADER_SIZE..end], end)
  }

  /** The fragment being assembled after a piece has been accepted. */
  function NextFragment(fragment: Option<Bytes>, rtype: Byte, data: Bytes): Option<Bytes> {
    if rtype == FIRST then Some(data)
    else if rtype == MIDDLE && fragment.Some? then Some(fragment.value + data)
    else None
  }

  /** The records completed by accepting a piece. */
  function Completed(fragment: Option<Bytes>, rtype: Byte, data: Bytes): seq<Bytes> {
    if rtype == FULL then [data]
    else if rtype == LAST && fragment.Some? then [fragment.value + data]
    else []
  }

  /** All records found from `pos` on, with `fragment` under assembly. */
  function ReadFrom(bytes: Bytes, pos: nat, fragment: Option<Bytes>): seq<Bytes>
    decreases |bytes| - pos
  {
    match Inspect(bytes, pos)
    case Stop => []
    case Skip(next) => ReadFrom(bytes, next, fragment)
    case Accept(rtype, data, next) =>
      Completed(fragment, rtype, data) + ReadFrom(bytes, next, NextFragment(fragment, rtype, data))
  }

  function ReadRecords(bytes: Bytes): seq<Bytes> {
    ReadFrom(bytes, 0, None)
  }

  lemma SkipsTo(bytes: Bytes, pos: nat, fragment: Option<Bytes>, next: nat)
    requires Inspect(bytes, pos) == Skip(next)
    ensures ReadFrom(bytes, pos, fragment) == ReadFrom(bytes, next, fragment)
  {
    hide Inspect;
  }

  lemma StopsAt(bytes: Bytes, pos: nat, fragment: Option<Bytes>)
    requires Inspect(bytes, pos) == Stop
    ensures ReadFrom(bytes, pos, fragment) == []
  {
    hide Inspect;
  }

  /** How an accepted piece changes the fragment, and what it completes. */
  lemma TakesPiece(fragment: Option<Bytes>, rtype: Byte, data: Bytes)
    requires FULL <= rtype <= LAST
    ensures Completed(fragment, rtype, data)
         == if rtype == FULL then [data] else if rtype == LAST && fragment.Some? then [fragment.value + data] else []
    ensures NextFragment(fragment, rtype, data)
         == if rtype == FIRST then Some(data) else if rtype == MIDDLE && fragment.Some? then Some(fragment.value + data) else None
  {
  }

  /** The scanning loop of `read_records`. */
  method ReadAll(bytes: Bytes) returns (records: seq<Bytes>)
    ensures records == ReadRecords(bytes)
  {
    hide ReadFrom, FromLittleEndian, Completed, NextFragment;
    records := [];
    var fragment: Option<Bytes> := None;
    var pos: nat := 0;
    while pos + HEADER_SIZE <= |bytes|
      invariant records + ReadFrom(bytes, pos, fragment) == ReadRecords(bytes)
      decreases |bytes| - pos
    {
      var blockStart := (pos / BLOCK_SIZE) * BLOCK_SIZE;
      if BLOCK_SIZE - (pos - blockStart) < HEADER_SIZE {
        SkipsTo(bytes, pos, fragment, blockStart + BLOCK_SIZE);
        pos := blockStart + BLOCK_SIZE;
        continue;
      }
      if bytes[pos + 6] == 0 {
        SkipsTo(bytes, pos, fragment, blockStart + BLOCK_SIZE);
        pos := blockStart + BLOCK_SIZE;
        continue;
      }
      if bytes[pos + 6] > LAST {
        break;
      }
      var rtype := bytes[pos + 6];
      var dataStart := pos + HEADER_SIZE;
      var dataEnd := dataStart + FromLittleEndian(bytes[pos + 4..pos + 6]);
      if dataEnd > |bytes| {
        break;
      }
      var data := bytes[dataStart..dataEnd];
      if Checksum([rtype] + data) != FromLittleEndian(bytes[pos..pos + 4]) {
        break;
      }
      ghost var before := records;
      ghost var fragmentBefore := fragment;
      assert Inspect(bytes, pos) == Accept(rtype, data, dataEnd);
      TakesPiece(fragment, rtype, data);
      if fragment.None? {
        if rtype == FULL {
          records := records + [data];
        } else if rtype == FIRST {
          fragment := Some(data);
        }
      } else if rtype == MIDDLE {
        fragment := Some(fragment.value + data);
      } else if rtype == LAST {
        records := records + [fragment.value + data];
        fragment := None;
      } else if rtype == FULL {
        records := records + [data];
        fragment := None;
      } else {
        fragment := Some(data);
      }
      AcceptedPiece(bytes, pos, rtype, data, dataEnd, fragmentBefore, before, records);
      pos := dataEnd;
    }
    assert Inspect(bytes, pos) == Stop;
    StopsAt(bytes, pos, fragment);
  }

  lemma AcceptedPiece(bytes: Bytes, pos: nat, rtype: Byte, data: Bytes, next: nat,
                      fragment: Option<Bytes>, before: seq<Bytes>, after: seq<Bytes>)
    requires Inspect(bytes, pos) == Accept(rtype, data, next)
    requires after == before + Completed(fragment, rtype, data)
    ensures before + ReadFrom(bytes, pos, fragment)
         == after + ReadFrom(bytes, next, NextFragment(fragment, rtype, data))
  {
  }

  // ----- crash semantics ----------------------------------------------------------------------

  /** A complete piece is accepted wherever it fits in its block. */
  lemma InspectPiece(pre: Bytes, rtype: Byte, data: Bytes, bytes: Bytes)
    requires FULL <= rtype <= LAST
    requires |pre| % BLOCK_SIZE + HEADER_SIZE + |data| <= BLOCK_SIZE
    requires pre + Piece(rtype, data) <= bytes
    ensures Inspect(bytes, |pre|) == Accept(rtype, data, |pre| + HEADER_SIZE + |data|)
  {
    var pos := |pre|;
    var all := pre + Piece(rtype, data);
    WidthLimits();
    LittleEndianRoundTrip(Checksum([rtype] + data), 4);
    LittleEndianRoundTrip(|data|, 2);
    assert bytes[pos..pos + 4] == all[pos..pos + 4] == LittleEndian(Checksum([rtype] + data), 4);
    assert bytes[pos + 4..pos + 6] == all[pos + 4..pos + 6] == LittleEndian(|data|, 2);
    assert bytes[pos + 6] == all[pos + 6] == rtype;
    assert bytes[pos + HEADER_SIZE..|all|] == all[pos + HEADER_SIZE..] == data;
  }

  /** A piece cut short by the end of the file stops the reader. */
  lemma InspectTornPiece(pre: Bytes, rtype: Byte, data: Bytes, n: nat)
    requires FULL <= rtype <= LAST
    requires |pre| % BLOCK_SIZE + HEADER_SIZE + |data| <= BLOCK_SIZE
    requires |pre| <= n < |pre| + HEADER_SIZE + |data|
    ensures Inspect((pre + Piece(rtype, data))[..n], |pre|) == Stop
  {
    var all := pre + Piece(rtype, data);
    var bytes := all[..n];
    var pos := |pre|;
    if pos + HEADER_SIZE <= n {
      WidthLimits();
      LittleEndianRoundTrip(|data|, 2);
      assert bytes[pos + 4..pos + 6] == all[pos + 4..pos + 6] == LittleEndian(|data|, 2);
      assert bytes[pos + 6] == all[pos + 6] == rtype;
    }
  }

  /** The reader crosses a trailer, complete or cut, without finding anything in it. */
  lemma ReadAcrossPadding(file: Bytes, bytes: Bytes, fragment: Option<Bytes>)
    requires |file| <= |bytes|
    ensures Padded(file) <= bytes ==> ReadFrom(bytes, |file|, fragment) == ReadFrom(bytes, |Padded(file)|, fragment)
    ensures |bytes| < |Padded(file)| ==> ReadFrom(bytes, |file|, fragment) == []
  {
    if |Padded(file)| != |file| && |file| + HEADER_SIZE <= |bytes| {
      assert Inspect(bytes, |file|) == Skip(|Padded(file)|);
    } else if |Padded(file)| != |file| {
      assert Inspect(bytes, |file|) == Stop && Inspect(bytes, |Padded(file)|) == Stop;
    }
  }

  /** Reading over the trailer and one complete piece. */
  lemma ReadOnePiece(file: Bytes, rtype: Byte, data: Bytes, fragment: Option<Bytes>, bytes: Bytes)
    requires FULL <= rtype <= LAST
    requires |Padded(file)| % BLOCK_SIZE + HEADER_SIZE + |data| <= BLOCK_SIZE
    requires Padded(file) + Piece(rtype, data) <= bytes
    ensures ReadFrom(bytes, |file|, fragment)
         == Completed(fragment, rtype, data)
          + ReadFrom(bytes, |Padded(file) + Piece(rtype, data)|, NextFragment(fragment, rtype, data))
  {
    var f0 := Padded(file);
    assert f0 <= f0 + Piece(rtype, data);
    ReadAcrossPadding(file, bytes, fragment);
    InspectPiece(f0, rtype, data, bytes);
  }

  /** The fragment under assembly when `acc` has been read of a record, or nothing at its start. */
  function Pending(first: bool, acc: Bytes): Option<Bytes> {
    if first then None else Some(acc)
  }

  lemma AssemblyProtocol(first: bool, acc: Bytes, data: Bytes)
    requires first ==> acc == []
    ensures Completed(Pending(first, acc), PieceType(first, true), data) == [acc + data]
    ensures NextFragment(Pending(first, acc), PieceType(first, true), data) == None
    ensures Completed(Pending(first, acc), PieceType(first, false), data) == []
    ensures NextFragment(Pending(first, acc), PieceType(first, false), data) == Pending(false, acc + data)
  {
    if first {
      assert acc + data == data;
    }
  }

  /** Reading a record's pieces back yields the record once, then whatever follows. */
  lemma {:induction false} ReadFragments(file: Bytes, data: Bytes, first: bool, acc: Bytes, bytes: Bytes)
    requires first ==> acc == []
    requires AddFragments(file, data, first) <= bytes
    ensures ReadFrom(bytes, |file|, Pending(first, acc))
         == [acc + data] + ReadFrom(bytes, |AddFragments(file, data, first)|, None)
    decreases |data|, |file| % BLOCK_SIZE == BLOCK_SIZE - HEADER_SIZE
  {
    hide AddFragments, Piece, Padded, Room, ReadFrom, Completed, NextFragment;
    var n := if |data| < Room(file) then |data| else Room(file);
    var rtype := PieceType(first, n == |data|);
    var f1 := Padded(file) + Piece(rtype, data[..n]);
    OneFragment(file, data, first, n);
    AssemblyProtocol(first, acc, data[..n]);
    if n == |data| {
      assert data[..n] == data;
      ReadOnePiece(file, rtype, data[..n], Pending(first, acc), bytes);
    } else {
      PrefixTransitive(f1, AddFragments(f1, data[n..], false), bytes);
      assert (acc + data[..n]) + data[n..] == acc + data;
      ReadFragments(f1, data[n..], false, acc + data[..n], bytes);
      calc {
        ReadFrom(bytes, |file|, Pending(first, acc));
        { ReadOnePiece(file, rtype, data[..n], Pending(first, acc), bytes); }
        [] + ReadFrom(bytes, |f1|, Pending(false, acc + data[..n]));
        ReadFrom(bytes, |f1|, Pending(false, acc + data[..n]));
      }
    }
  }

  lemma PrefixTransitive(a: Bytes, b: Bytes, c: Bytes)
    requires a <= b <= c
    ensures a <= c
  {
  }

  /** A file that ends inside a trailer or a piece yields nothing from there on. */
  lemma ReadTornPiece(file: Bytes, rtype: Byte, data: Bytes, fragment: Option<Bytes>, n: nat)
    requires FULL <= rtype <= LAST
    requires |Padded(file)| % BLOCK_SIZE + HEADER_SIZE + |data| <= BLOCK_SIZE
    requires |file| <= n < |Padded(file) + Piece(rtype, data)|
    ensures ReadFrom((Padded(file) + Piece(rtype, data))[..n], |file|, fragment) == []
  {
    var f0 := Padded(file);
    var bytes := (f0 + Piece(rtype, data))[..n];
    ReadAcrossPadding(file, bytes, fragment);
    if n >= |f0| {
      InspectTornPiece(f0, rtype, data, n);
      assert f0 <= bytes;
    }
  }

  /** Cut anywhere inside a record, the file yields nothing of that record. */
  lemma {:induction false} ReadTornFragments(file: Bytes, data: Bytes, first: bool, fragment: Option<Bytes>, n: nat)
    requires |file| <= n < |AddFragments(file, data, first)|
    ensures ReadFrom(AddFragments(file, data, first)[..n], |file|, fragment) == []
    decreases |data|, |file| % BLOCK_SIZE == BLOCK_SIZE - HEADER_SIZE
  {
    var k := if |data| < Room(file) then |data| else Room(file);
    var rtype := PieceType(first, k == |data|);
    var all := AddFragments(file, data, first);
    var f1 := Padded(file) + Piece(rtype, data[..k]);
    OneFragment(file, data, first, k);
    CutPrefix(f1, all, n);
    if n < |f1| {
      ReadTornPiece(file, rtype, data[..k], fragment, n);
    } else {
      ReadOnePiece(file, rtype, data[..k], fragment, all[..n]);
      ReadTornFragments(f1, data[k..], false, NextFragment(fragment, rtype, data[..k]), n);
      assert Completed(fragment, rtype, data[..k]) == [];
    }
  }

  lemma CutPrefix(a: Bytes, b: Bytes, n: nat)
    requires a <= b && n <= |b|
    ensures n <= |a| ==> b[..n] == a[..n]
    ensures |a| <= n ==> a <= b[..n]
  {
  }

  /** The number of records whose last byte lies within the first `n` bytes of the written file. */
  function CompleteBy(file: Bytes, records: seq<Bytes>, n: nat): (c: nat)
    ensures c <= |records|
    decreases |records|
  {
    if records == [] || |WithRecord(file, records[0])| > n then 0
    else 1 + CompleteBy(WithRecord(file, records[0]), records[1..], n)
  }

  lemma ReadAtEnd(bytes: Bytes, fragment: Option<Bytes>)
    ensures ReadFrom(bytes, |bytes|, fragment) == []
  {
  }

  /** Crash semantics, from the end of an arbitrary file. */
  lemma {:induction false} ReadPrefix(file: Bytes, records: seq<Bytes>, n: nat)
    requires |file| <= n <= |WithRecords(file, records)|
    ensures ReadFrom(WithRecords(file, records)[..n], |file|, None) == records[..CompleteBy(file, records, n)]
    decreases |records|
  {
    hide AddFragments, ReadFrom;
    var bytes := WithRecords(file, records)[..n];
    if records == [] {
      ReadAtEnd(bytes, None);
    } else {
      var next := WithRecord(file, records[0]);
      if |next| > n {
        assert bytes == next[..n];
        ReadTornFragments(file, records[0], true, None, n);
      } else {
        assert next <= bytes;
        ReadFragments(file, records[0], true, [], bytes);
        ReadPrefix(next, records[1..], n);
        assert [] + records[0] == records[0];
      }
    }
  }

  /** `CompleteBy` is exactly the longest prefix of the records that fits in `n` bytes. */
  lemma {:induction false} CompleteByIsLongestFit(file: Bytes, records: seq<Bytes>, n: nat, c: nat)
    requires |file| <= n && c <= |records|
    ensures |WithRecords(file, records[..c])| <= n <==> c <= CompleteBy(file, records, n)
    decreases |records|
  {
    if c > 0 {
      var next := WithRecord(file, records[0]);
      assert records[..c][0] == records[0] && records[..c][1..] == records[1..][..c - 1];
      if |next| <= n {
        CompleteByIsLongestFit(next, records[1..], n, c - 1);
      }
    }
  }

  /**
   * Crash semantics: the first `n` bytes of a log yield exactly the records written completely
   * within them, in order, never a partial or merged one.
   */
  lemma CrashYieldsCompleteRecords(records: seq<Bytes>, n: nat)
    requires n <= |WithRecords([], records)|
    ensures exists c: nat ::
              && c <= |records|
              && ReadRecords(WithRecords([], records)[..n]) == records[..c]
              && |WithRecords([], records[..c])| <= n
              && (c < |records| ==> n < |WithRecords([], records[..c + 1])|)
  {
    var c := CompleteBy([], records, n);
    ReadPrefix([], records, n);
    CompleteByIsLongestFit([], records, n, c);
    if c < |records| {
      CompleteByIsLongestFit([], records, n, c + 1);
    }
  }

  lemma {:induction false} AddRecordsAppend(file: Bytes, a: seq<Bytes>, b: seq<Bytes>)
    ensures WithRecords(file, a + b) == WithRecords(WithRecords(file, a), b)
    decreases |a|
  {
    if a == [] {
      assert a + b == b;
    } else {
      assert (a + b)[0] == a[0] && (a + b)[1..] == a[1..] + b;
      AddRecordsAppend(WithRecord(file, a[0]), a[1..], b);
    }
  }

  /** Round trip: everything written is read back. */
  lemma ReadsBackEverything(records: seq<Bytes>)
    ensures ReadRecords(WithRecords([], records)) == records
  {
    var bytes := WithRecords([], records);
    assert bytes[..|bytes|] == bytes;
    ReadPrefix([], records, |bytes|);
    CompleteByIsLongestFit([], records, |bytes|, |records|);
    assert records[..|records|] == records;
  }

  /** One more record after a complete log: a cut inside it yields the log, the whole of it yields both. */
  lemma ReadsAfterTornAppend(records: seq<Bytes>, data: Bytes, n: nat)
    requires |WithRecords([], records)| <= n <= |WithRecords([], records + [data])|
    ensures WithRecords([], records + [data]) == WithRecord(WithRecords([], records), data)
    ensures ReadRecords(WithRecords([], records + [data])[..n])
         == if n == |WithRecords([], records + [data])| then records + [data] else records
  {
    var all := records + [data];
    AddRecordsAppend([], records, [data]);
    assert WithRecords(WithRecords([], records), [data]) == WithRecord(WithRecords([], records), data);
    ReadPrefix([], all, n);
    assert all[..|records|] == records && all[..|all|] == all;
    CompleteByIsLongestFit([], all, n, |records|);
    CompleteByIsLongestFit([], all, n, |all|);
  }

  /** Reading through a complete log embedded at the front of a longer file. */
  lemma {:induction false} ReadThrough(file: Bytes, records: seq<Bytes>, bytes: Bytes)
    requires WithRecords(file, records) <= bytes
    ensures ReadFrom(bytes, |file|, None) == records + ReadFrom(bytes, |WithRecords(file, records)|, None)
    decreases |records|
  {
    hide AddFragments, ReadFrom;
    if records != [] {
      var next := WithRecord(file, records[0]);
      PrefixTransitive(next, WithRecords(file, records), bytes);
      ReadFragments(file, records[0], true, [], bytes);
      ReadThrough(next, records[1..], bytes);
      assert [] + records[0] == records[0];
      assert [records[0]] + records[1..] == records;
    }
  }

  /**
   * Appending after a torn tail is not safe: if a crash leaves one byte `b` of a record behind, a short
   * record appended after it in the same block is invisible to every later reader. The stray byte
   * shifts the header, so the high length byte 0 is read as the type of a trailer.
   */
  lemma TornTailHidesAppend(records: seq<Bytes>, b: Byte, data: Bytes)
    requires |data| < 256
    requires |WithRecords([], records)| % BLOCK_SIZE + 1 + HEADER_SIZE + |data| <= BLOCK_SIZE
    ensures ReadRecords(WithRecord(WithRecords([], records) + [b], data)) == records
  {
    hide ReadFrom;
    var log := WithRecords([], records);
    var torn := log + [b];
    var bytes := torn + Piece(FULL, data);
    OneByteLater(|log|);
    assert Padded(torn) == torn;
    assert WithRecord(torn, data) == bytes;
    assert bytes[|log| + 6] == Piece(FULL, data)[5] == LittleEndian(|data|, 2)[1];
    assert LittleEndian(|data|, 2)[1] == LittleEndian(|data| / 256, 1)[0] == 0;
    assert log <= bytes;
    ReadThrough([], records, bytes);
    var blockEnd := (|log| / BLOCK_SIZE) * BLOCK_SIZE + BLOCK_SIZE;
    assert Inspect(bytes, |log|) == Skip(blockEnd);
    SkipThenStop(bytes, |log|, blockEnd);
  }

  lemma OneByteLater(n: nat)
    requires n % BLOCK_SIZE + 1 < BLOCK_SIZE
    ensures (n + 1) % BLOCK_SIZE == n % BLOCK_SIZE + 1
  {
  }

  lemma SkipThenStop(bytes: Bytes, pos: nat, next: nat)
    requires Inspect(bytes, pos) == Skip(next) && next + HEADER_SIZE > |bytes|
    ensures ReadFrom(bytes, pos, None) == []
  {
    assert Inspect(bytes, next) == Stop;
  }

  // ----- pieces the reader does not take ------------------------------------------------------

  /**
   * Behind complete records, a piece whose type, length or stored checksum is wrong ends the log: nothing of
   * it and nothing after it is read.
   */
  lemma BadPieceEndsLog(records: seq<Bytes>, bytes: Bytes)
    requires WithRecords([], records) <= bytes && |WithRecords([], records)| + 7 <= |bytes|
    requires |WithRecords([], records)| % BLOCK_SIZE + 7 <= BLOCK_SIZE
    requires var pos := |WithRecords([], records)|;
             var end := pos + 7 + FromLittleEndian(bytes[pos + 4..pos + 6]);
             || bytes[pos + 6] > 4
             || (bytes[pos + 6] > 0 && end > |bytes|)
             || (bytes[pos + 6] > 0 && end <= |bytes| && FromLittleEndian(bytes[pos..pos + 4]) != Checksum(bytes[pos + 6..end]))
    ensures ReadRecords(bytes) == records
  {
    hide *;
    var pos := |WithRecords([], records)|;
    ReadThrough([], records, bytes);
    BadPieceStops(bytes, pos);
    AllRead(bytes);
    StopsAt(bytes, pos, None);
    assert records + [] == records;
  }

  lemma AllRead(bytes: Bytes)
    ensures ReadRecords(bytes) == ReadFrom(bytes, 0, None)
  {
  }

  lemma BadPieceStops(bytes: Bytes, pos: nat)
    requires pos + 7 <= |bytes| && pos % BLOCK_SIZE + 7 <= BLOCK_SIZE
    requires var end := pos + 7 + FromLittleEndian(bytes[pos + 4..pos + 6]);
             || bytes[pos + 6] > 4
             || (bytes[pos + 6] > 0 && end > |bytes|)
             || (bytes[pos + 6] > 0 && end <= |bytes| && FromLittleEndian(bytes[pos..pos + 4]) != Checksum(bytes[pos + 6..end]))
    ensures Inspect(bytes, pos) == Stop
  {
    hide FromLittleEndian;
    var end := pos + 7 + FromLittleEndian(bytes[pos + 4..pos + 6]);
    if end <= |bytes| {
      assert bytes[pos + 6..end] == [bytes[pos + 6]] + bytes[pos + 7..end];
    }
  }

  // ----- torn tails that hide nothing ---------------------------------------------------------

  /** Appending to a file torn inside its trailer completes the trailer. */
  lemma TornInTrailerIsHarmless(file: Bytes, n: nat, r: Bytes)
    requires |file| <= n <= |Padded(file)|
    ensures WithRecord(Padded(file)[..n], r) == WithRecord(file, r)
  {
    PaddedAlike(file, n);
    hide Piece, Padded;
  }

  lemma PaddedAlike(file: Bytes, n: nat)
    requires |file| <= n <= |Padded(file)|
    ensures Padded(Padded(file)[..n]) == Padded(file)
  {
    if n < |Padded(file)| {
      ModLater(|file|, n);
      assert Padded(file)[..n] == file + seq(n - |file|, _ => 0);
    } else {
      assert Padded(file)[..n] == Padded(file);
    }
  }

  lemma ModLater(a: nat, b: nat)
    requires a <= b && a % BLOCK_SIZE + (b - a) < BLOCK_SIZE
    ensures b % BLOCK_SIZE == a % BLOCK_SIZE + (b - a)
  {
  }

  /** A record reads back whatever an interrupted one left under assembly. */
  lemma ReadOverFragment(file: Bytes, data: Bytes, fragment: Option<Bytes>)
    ensures ReadFrom(WithRecord(file, data), |file|, fragment) == [data]
  {
    hide AddFragments, Piece, Padded, Room, ReadFrom;
    var n := if |data| < Room(file) then |data| else Room(file);
    var rtype, bytes := PieceType(true, n == |data|), WithRecord(file, data);
    var f1 := Padded(file) + Piece(rtype, data[..n]);
    OneFragment(file, data, true, n);
    if n == |data| {
      assert data[..n] == data;
      ReadOnePiece(file, rtype, data, fragment, bytes);
      ReadAtEnd(bytes, None);
    } else {
      ReadOnePiece(file, rtype, data[..n], fragment, bytes);
      ReadFragments(f1, data[n..], false, data[..n], bytes);
      ReadAtEnd(bytes, None);
      assert data[..n] + data[n..] == data;
    }
  }

  /** The file after at most `j` pieces of a record, none of them its last. */
  function WholePieces(file: Bytes, data: Bytes, first: bool, j: nat): (f: Bytes)
    ensures file <= f
    decreases j
  {
    if j == 0 || |data| <= Room(file) then file
    else WholePieces(Padded(file) + Piece(PieceType(first, false), data[..Room(file)]), data[Room(file)..], false, j - 1)
  }

  /** A crash may leave exactly those. */
  lemma {:induction false} WholePiecesAreACut(file: Bytes, data: Bytes, first: bool, j: nat)
    ensures WholePieces(file, data, first, j) <= AddFragments(file, data, first)
    decreases j
  {
    hide Piece, Padded, Room;
    if j > 0 && |data| > Room(file) {
      WholePiecesAreACut(Padded(file) + Piece(PieceType(first, false), data[..Room(file)]), data[Room(file)..], false, j - 1);
    }
  }

  lemma {:induction false} ReadOverWholePieces(file: Bytes, data: Bytes, first: bool, j: nat, fragment: Option<Bytes>, r: Bytes)
    ensures ReadFrom(WithRecord(WholePieces(file, data, first, j), r), |file|, fragment) == [r]
    decreases j
  {
    hide Piece, Padded, Room, ReadFrom, AddFragments;
    if j == 0 || |data| <= Room(file) {
      ReadOverFragment(file, r, fragment);
    } else {
      var n, rtype := Room(file), PieceType(first, false);
      var f1 := Padded(file) + Piece(rtype, data[..n]);
      var bytes := WithRecord(WholePieces(f1, data[n..], false, j - 1), r);
      PrefixTransitive(f1, WholePieces(f1, data[n..], false, j - 1), bytes);
      ReadOnePiece(file, rtype, data[..n], fragment, bytes);
      ReadOverWholePieces(f1, data[n..], false, j - 1, NextFragment(fragment, rtype, data[..n]), r);
    }
  }

  /** Appending after a record torn between two of its pieces is safe: the reader drops what there is of it. */
  lemma TornBetweenPiecesIsHarmless(records: seq<Bytes>, data: Bytes, j: nat, r: Bytes)
    ensures var log := WithRecords([], records);
            var torn := WholePieces(log, data, true, j);
            torn <= WithRecord(log, data) && ReadRecords(WithRecord(torn, r)) == records + [r]
  {
    hide WholePieces, AddFragments, ReadFrom;
    var log := WithRecords([], records);
    var torn := WholePieces(log, data, true, j);
    WholePiecesAreACut(log, data, true, j);
    PrefixTransitive(log, torn, WithRecord(torn, r));
    ReadThrough([], records, WithRecord(torn, r));
    ReadOverWholePieces(log, data, true, j, None, r);
  }

  /** Any number of clean sessions, each reopening the file where the last one ended, reads back as one log. */
  function Sessions(file: Bytes, sessions: seq<seq<Bytes>>): Bytes
    decreases |sessions|
  {
    if sessions == [] then file else Sessions(WithRecords(file, sessions[0]), sessions[1..])
  }

  lemma {:induction false} SessionsAreOneLog(file: Bytes, sessions: seq<seq<Bytes>>)
    ensures Sessions(file, sessions) == WithRecords(file, Concat(sessions))
    decreases |sessions|
  {
    if sessions != [] {
      SessionsAreOneLog(WithRecords(file, sessions[0]), sessions[1..]);
      AddRecordsAppend(file, sessions[0], Concat(sessions[1..]));
    }
  }

  lemma SessionsReadBack(sessions: seq<seq<Bytes>>)
    ensures ReadRecords(Sessions([], sessions)) == Concat(sessions)
  {
    SessionsAreOneLog([], sessions);
    ReadsBackEverything(Concat(sessions));
  }

  /** Every piece the reader accepts from `pos` on starts and ends inside one 32 KB block. */
  ghost predicate Confined(bytes: Bytes, pos: nat)
    decreases |bytes| - pos
  {
    match Inspect(bytes, pos)
    case Stop => true
    case Skip(next) => Confined(bytes, next)
    case Accept(_, data, next) => pos % BLOCK_SIZE + HEADER_SIZE + |data| <= BLOCK_SIZE && Confined(bytes, next)
  }

  lemma ConfinedOnePiece(file: Bytes, rtype: Byte, data: Bytes, bytes: Bytes)
    requires FULL <= rtype <= LAST
    requires |Padded(file)| % BLOCK_SIZE + HEADER_SIZE + |data| <= BLOCK_SIZE
    requires Padded(file) + Piece(rtype, data) <= bytes
    requires Confined(bytes, |Padded(file) + Piece(rtype, data)|)
    ensures Confined(bytes, |file|)
  {
    var f0 := Padded(file);
    assert f0 <= f0 + Piece(rtype, data);
    InspectPiece(f0, rtype, data, bytes);
    if |f0| != |file| {
      assert Inspect(bytes, |file|) == Skip(|f0|);
    }
  }

  lemma {:induction false} FragmentsAreConfined(file: Bytes, data: Bytes, first: bool, bytes: Bytes)
    requires AddFragments(file, data, first) <= bytes
    requires Confined(bytes, |AddFragments(file, data, first)|)
    ensures Confined(bytes, |file|)
    decreases |data|, |file| % BLOCK_SIZE == BLOCK_SIZE - HEADER_SIZE
  {
    var avail := Room(file);
    if |data| <= avail {
      ConfinedOnePiece(file, PieceType(first, true), data, bytes);
    } else {
      FragmentsAreConfined(Padded(file) + Piece(PieceType(first, false), data[..avail]), data[avail..], false, bytes);
      ConfinedOnePiece(file, PieceType(first, false), data[..avail], bytes);
    }
  }

  /** No piece of a written log crosses a block boundary. */
  lemma {:induction false} PiecesStayInTheirBlocks(file: Bytes, records: seq<Bytes>)
    ensures Confined(WithRecords(file, records), |file|)
    decreases |records|
  {
    if records != [] {
      PiecesStayInTheirBlocks(WithRecord(file, records[0]), records[1..]);
      FragmentsAreConfined(file, records[0], true, WithRecords(file, records));
    }
  }
}
