/** Table files: how a list of entries is laid out, and the builder that writes it. */
module Tables {
  import opened ByteStrings
  import opened InternalKeys
  import opened Varints
  import opened Blocks
  import opened Bloom

  const TABLE_FOOTER_LEN: nat := 48
  const MAGIC: nat := 0xdb47_7524_8b80_fb57

  /** "filter.mulan.BloomFilter" */
  const FILTER_META_KEY: Bytes :=
    [102, 105, 108, 116, 101, 114, 46, 109, 117, 108, 97, 110, 46, 66, 108, 111, 111, 109, 70, 105, 108, 116, 101, 114]

  // ----- handles ------------------------------------------------------------------------------

  datatype Handle = Handle(offset: nat, size: nat)

  function EncodeHandle(h: Handle): Bytes {
    Varint(h.offset) + Varint(h.size)
  }

  function DecodeHandle(buf: Bytes): (r: Result<(Handle, nat)>)
    ensures r.Ok? ==> r.value.1 <= |buf|
  {
    var a :- Decode64(buf);
    var b :- Decode64(buf[a.1..]);
    Ok((Handle(a.0, b.0), a.1 + b.1))
  }

  predicate FitsHandle(h: Handle) {
    h.offset < U64_LIMIT && h.size < U64_LIMIT
  }

  /** Two varint64s take at most twenty bytes and decode back, whatever follows them. */
  lemma HandleRoundTrip(h: Handle, rest: Bytes)
    requires FitsHandle(h)
    ensures DecodeHandle(EncodeHandle(h) + rest) == Ok((h, |EncodeHandle(h)|))
    ensures |EncodeHandle(h)| <= 2 * MAX_VARINT64_LEN
  {
    hide Varint, Decode64;
    RoundTrip64(h.offset, Varint(h.size) + rest);
    RoundTrip64(h.size, rest);
    var buf := EncodeHandle(h) + rest;
    assert buf == Varint(h.offset) + (Varint(h.size) + rest);
    assert buf[|Varint(h.offset)|..] == Varint(h.size) + rest;
  }

  // ----- the footer ---------------------------------------------------------------------------

  /** `resize`: cut off or padded with zeros. */
  function Resized(b: Bytes, n: nat): (r: Bytes)
    ensures |r| == n
  {
    if |b| >= n then b[..n] else b + seq(n - |b|, i => 0)
  }

  function Footer(meta: Handle, index: Handle): (b: Bytes)
    ensures |b| == TABLE_FOOTER_LEN
  {
    Resized(EncodeHandle(meta) + EncodeHandle(index), TABLE_FOOTER_LEN - 8) + LittleEndian(MAGIC, 8)
  }

  function ReadFooter(footer: Bytes): Result<(Handle, Handle)>
    requires |footer| == TABLE_FOOTER_LEN
  {
    if FromLittleEndian(footer[TABLE_FOOTER_LEN - 8..]) != MAGIC then Corrupted
    else
      var meta :- DecodeHandle(footer);
      var index :- DecodeHandle(footer[meta.1..]);
      Ok((meta.0, index.0))
  }

  /** Four varint64s never exceed the forty bytes before the magic, so both handles are read back. */
  lemma FooterRoundTrip(meta: Handle, index: Handle)
    requires FitsHandle(meta) && FitsHandle(index)
    ensures ReadFooter(Footer(meta, index)) == Ok((meta, index))
    ensures |EncodeHandle(meta)| + |EncodeHandle(index)| <= TABLE_FOOTER_LEN - 8
  {
    hide EncodeHandle, DecodeHandle, LittleEndian, FromLittleEndian, FitsHandle;
    HandleRoundTrip(meta, []);
    HandleRoundTrip(index, []);
    var a, b := EncodeHandle(meta), EncodeHandle(index);
    var pad: Bytes := seq(TABLE_FOOTER_LEN - 8 - |a + b|, i => 0);
    var magic := LittleEndian(MAGIC, 8);
    var footer := Footer(meta, index);
    assert footer == (a + b + pad) + magic;
    assert footer[TABLE_FOOTER_LEN - 8..] == magic;
    MagicRoundTrip();
    assert footer == a + (b + pad + magic);
    HandleRoundTrip(meta, b + pad + magic);
    assert footer[|a|..] == b + (pad + magic);
    HandleRoundTrip(index, pad + magic);
  }

  /** The handle of the metaindex comes first, and the last eight bytes are the magic number, least significant first. */
  lemma FooterLayout(meta: Handle, index: Handle)
    requires FitsHandle(meta) && FitsHandle(index)
    ensures var a, b := Varint(meta.offset) + Varint(meta.size), Varint(index.offset) + Varint(index.size);
            && |a + b| <= 40 && Footer(meta, index)[..|a + b|] == a + b
            && (forall i :: |a + b| <= i < 40 ==> Footer(meta, index)[i] == 0)
            && Footer(meta, index)[40..] == [0x57, 0xfb, 0x80, 0x8b, 0x24, 0x75, 0x47, 0xdb]
  {
    FooterRoundTrip(meta, index);
    MagicBytes();
    hide Varint, LittleEndian, FitsHandle, ReadFooter;
  }

  lemma LowestByte(n: nat, width: nat)
    ensures LittleEndian(n, width + 1) == [n % 256] + LittleEndian(n / 256, width) && LittleEndian(n, 0) == []
  {
  }

  lemma MagicBytes()
    ensures LittleEndian(MAGIC, 8) == [0x57, 0xfb, 0x80, 0x8b, 0x24, 0x75, 0x47, 0xdb]
  {
    hide LittleEndian;
    LowestByte(0xdb4775248b80fb57, 7);
    LowestByte(0xdb4775248b80fb, 6);
    LowestByte(0xdb4775248b80, 5);
    LowestByte(0xdb4775248b, 4);
    LowestByte(0xdb477524, 3);
    LowestByte(0xdb4775, 2);
    LowestByte(0xdb47, 1);
    LowestByte(0xdb, 0);
    LowestByte(0, 0);
  }

  lemma MagicRoundTrip()
    ensures FromLittleEndian(LittleEndian(MAGIC, 8)) == MAGIC
  {
    WidthLimits();
    LittleEndianRoundTrip(MAGIC, 8);
  }

  // ----- cutting entries into blocks ----------------------------------------------------------

  /** `current_size_estimate` of a block holding `es`. */
  function Estimate(es: seq<KV>): nat {
    |Body(es)| + 4 * |Restarts(es)| + 4
  }

  /** The finished data blocks and the open one. */
  datatype Cutter = Cutter(done: seq<seq<KV>>, cur: seq<KV>)

  /** An entry is added first; a block that then reaches the target is cut off. */
  function AddEntry(c: Cutter, kv: KV, target: nat): Cutter {
    var cur := c.cur + [kv];
    if Estimate(cur) >= target then Cutter(c.done + [cur], []) else Cutter(c.done, cur)
  }

  function AddEntries(c: Cutter, es: seq<KV>, target: nat): Cutter
    decreases |es|
  {
    if es == [] then c else AddEntries(AddEntry(c, es[0], target), es[1..], target)
  }

  function Closed(c: Cutter): seq<seq<KV>> {
    if c.cur == [] then c.done else c.done + [c.cur]
  }

  /** The data blocks of a table. */
  function DataBlocks(es: seq<KV>, target: nat): seq<seq<KV>> {
    Closed(AddEntries(Cutter([], []), es, target))
  }

  function FlatBlocks(blocks: seq<seq<KV>>): seq<KV> {
    if blocks == [] then [] else FlatBlocks(blocks[..|blocks| - 1]) + blocks[|blocks| - 1]
  }

  ghost predicate NoEmptyBlock(blocks: seq<seq<KV>>) {
    forall i :: 0 <= i < |blocks| ==> blocks[i] != []
  }

  lemma FlatBlocksPush(blocks: seq<seq<KV>>, last: seq<KV>)
    ensures FlatBlocks(blocks + [last]) == FlatBlocks(blocks) + last
  {
  }

  lemma AddEntryKeeps(c: Cutter, kv: KV, target: nat)
    requires NoEmptyBlock(c.done)
    ensures var r := AddEntry(c, kv, target);
            NoEmptyBlock(r.done) && FlatBlocks(r.done) + r.cur == FlatBlocks(c.done) + c.cur + [kv]
  {
  }

  lemma {:induction false} AddEntriesKeep(c: Cutter, es: seq<KV>, target: nat)
    requires NoEmptyBlock(c.done)
    ensures var r := AddEntries(c, es, target);
            NoEmptyBlock(r.done) && FlatBlocks(r.done) + r.cur == FlatBlocks(c.done) + c.cur + es
    decreases |es|
  {
    hide FlatBlocks, NoEmptyBlock, AddEntry;
    if es == [] {
      assert FlatBlocks(c.done) + c.cur + es == FlatBlocks(c.done) + c.cur;
    } else {
      AddEntryKeeps(c, es[0], target);
      AddEntriesKeep(AddEntry(c, es[0], target), es[1..], target);
      assert FlatBlocks(c.done) + c.cur + [es[0]] + es[1..] == FlatBlocks(c.done) + c.cur + es;
    }
  }

  /** The data blocks, concatenated, are the entries in order, and none is empty. */
  lemma DataBlocksPartition(es: seq<KV>, target: nat)
    ensures FlatBlocks(DataBlocks(es, target)) == es && NoEmptyBlock(DataBlocks(es, target))
  {
    AddEntriesKeep(Cutter([], []), es, target);
    var c := AddEntries(Cutter([], []), es, target);
    FlatBlocksPush(c.done, c.cur);
    assert FlatBlocks([]) + [] + es == es;
  }

  lemma {:induction false} AddEntriesPush(c: Cutter, es: seq<KV>, kv: KV, target: nat)
    ensures AddEntries(c, es + [kv], target) == AddEntry(AddEntries(c, es, target), kv, target)
    decreases |es|
  {
    hide AddEntry;
    if es == [] {
      assert es + [kv] == [kv] && [kv][1..] == [];
    } else {
      assert (es + [kv])[0] == es[0] && (es + [kv])[1..] == es[1..] + [kv];
      AddEntriesPush(AddEntry(c, es[0], target), es[1..], kv, target);
    }
  }

  /** The estimate is the length of the block, were it finished now. */
  lemma EstimateIsLength(es: seq<KV>)
    ensures Estimate(es) == |BlockBytes(es)|
  {
    hide Body, Restarts, RestartBytes, LittleEndian;
  }

  /** A finished block has reached the target, and had not before its last entry. */
  ghost predicate CutAtTarget(block: seq<KV>, target: nat) {
    |BlockBytes(block)| >= target && NotYet(block, target)
  }

  ghost predicate NotYet(block: seq<KV>, target: nat) {
    forall n :: 0 < n < |block| ==> |BlockBytes(block[..n])| < target
  }

  lemma AddEntryCuts(c: Cutter, kv: KV, target: nat)
    requires forall i :: 0 <= i < |c.done| ==> CutAtTarget(c.done[i], target)
    requires NotYet(c.cur, target) && (c.cur != [] ==> |BlockBytes(c.cur)| < target)
    ensures var r := AddEntry(c, kv, target);
            && (forall i :: 0 <= i < |r.done| ==> CutAtTarget(r.done[i], target))
            && NotYet(r.cur, target) && (r.cur != [] ==> |BlockBytes(r.cur)| < target)
  {
    hide BlockBytes, Estimate;
    var cur := c.cur + [kv];
    EstimateIsLength(cur);
    forall n | 0 < n < |cur| ensures |BlockBytes(cur[..n])| < target {
      assert cur[..n] == c.cur[..n];
      assert n == |c.cur| ==> c.cur[..n] == c.cur;
    }
  }

  lemma {:induction false} AddEntriesCut(c: Cutter, es: seq<KV>, target: nat)
    requires forall i :: 0 <= i < |c.done| ==> CutAtTarget(c.done[i], target)
    requires NotYet(c.cur, target) && (c.cur != [] ==> |BlockBytes(c.cur)| < target)
    ensures var r := AddEntries(c, es, target);
            && (forall i :: 0 <= i < |r.done| ==> CutAtTarget(r.done[i], target))
            && NotYet(r.cur, target) && (r.cur != [] ==> |BlockBytes(r.cur)| < target)
    decreases |es|
  {
    hide BlockBytes, CutAtTarget, NotYet, AddEntry;
    if es != [] {
      AddEntryCuts(c, es[0], target);
      AddEntriesCut(AddEntry(c, es[0], target), es[1..], target);
    }
  }

  /** Every data block is cut by the entry that brings it to the target; only the last may stay below. */
  lemma BlocksReachTarget(es: seq<KV>, target: nat)
    ensures var blocks := DataBlocks(es, target);
            forall i :: 0 <= i < |blocks| ==>
              NotYet(blocks[i], target) && (i + 1 < |blocks| ==> |BlockBytes(blocks[i])| >= target)
  {
    hide BlockBytes, AddEntries;
    AddEntriesCut(Cutter([], []), es, target);
  }

  // ----- the file -----------------------------------------------------------------------------

  function DataBytes(blocks: seq<seq<KV>>): Bytes {
    if blocks == [] then [] else DataBytes(blocks[..|blocks| - 1]) + BlockBytes(blocks[|blocks| - 1])
  }

  function HandleAt(blocks: seq<seq<KV>>, i: nat): Handle
    requires i < |blocks|
  {
    Handle(|DataBytes(blocks[..i])|, |BlockBytes(blocks[i])|)
  }

  function IndexEntry(blocks: seq<seq<KV>>, i: nat): KV
    requires i < |blocks| && blocks[i] != []
  {
    KV(blocks[i][|blocks[i]| - 1].key, EncodeHandle(HandleAt(blocks, i)))
  }

  /** One index entry per data block: its last key and its handle. */
  function IndexEntries(blocks: seq<seq<KV>>): (r: seq<KV>)
    requires NoEmptyBlock(blocks)
    ensures |r| == |blocks|
  {
    seq(|blocks|, i requires 0 <= i < |blocks| => IndexEntry(blocks, i))
  }

  function MetaEntries(filter: Handle): seq<KV> {
    [KV(FILTER_META_KEY, EncodeHandle(filter))]
  }

  function FilterHandle(data: Bytes, filter: Bytes): Handle {
    Handle(|data|, |filter|)
  }

  function MetaHandle(data: Bytes, filter: Bytes): Handle {
    Handle(|data| + |filter|, |BlockBytes(MetaEntries(FilterHandle(data, filter)))|)
  }

  function IndexHandle(data: Bytes, filter: Bytes, index: Bytes): Handle {
    Handle(MetaHandle(data, filter).offset + MetaHandle(data, filter).size, |index|)
  }

  /** data blocks | filter | metaindex | index | footer. */
  function Assembled(data: Bytes, filter: Bytes, index: Bytes): Bytes {
    data + filter + BlockBytes(MetaEntries(FilterHandle(data, filter))) + index
    + Footer(MetaHandle(data, filter), IndexHandle(data, filter, index))
  }

  function TableBytes(blocks: seq<seq<KV>>, filter: Bytes): Bytes
    requires NoEmptyBlock(blocks)
  {
    Assembled(DataBytes(blocks), filter, BlockBytes(IndexEntries(blocks)))
  }

  // ----- the builder --------------------------------------------------------------------------

  lemma DataBytesPush(blocks: seq<seq<KV>>, last: seq<KV>)
    ensures DataBytes(blocks + [last]) == DataBytes(blocks) + BlockBytes(last)
  {
    hide BlockBytes;
    assert (blocks + [last])[..|blocks|] == blocks;
  }

  lemma HandleKept(blocks: seq<seq<KV>>, last: seq<KV>, i: nat)
    requires i < |blocks|
    ensures HandleAt(blocks + [last], i) == HandleAt(blocks, i)
  {
    hide BlockBytes, DataBytes;
    assert (blocks + [last])[..i] == blocks[..i];
  }

  lemma LastHandle(blocks: seq<seq<KV>>, last: seq<KV>)
    ensures HandleAt(blocks + [last], |blocks|) == Handle(|DataBytes(blocks)|, |BlockBytes(last)|)
  {
    hide BlockBytes, DataBytes;
    assert (blocks + [last])[..|blocks|] == blocks;
  }

  lemma IndexEntriesPush(blocks: seq<seq<KV>>, last: seq<KV>)
    requires NoEmptyBlock(blocks) && last != []
    ensures NoEmptyBlock(blocks + [last])
    ensures IndexEntries(blocks + [last])
         == IndexEntries(blocks) + [KV(last[|last| - 1].key, EncodeHandle(Handle(|DataBytes(blocks)|, |BlockBytes(last)|)))]
  {
    hide BlockBytes, EncodeHandle, HandleAt, DataBytes;
    var more := blocks + [last];
    assert NoEmptyBlock(more);
    LastHandle(blocks, last);
    assert IndexEntry(more, |blocks|) == KV(last[|last| - 1].key, EncodeHandle(Handle(|DataBytes(blocks)|, |BlockBytes(last)|)));
    forall i | 0 <= i < |blocks| ensures IndexEntry(more, i) == IndexEntry(blocks, i) {
      HandleKept(blocks, last, i);
    }
    hide IndexEntry, NoEmptyBlock;
  }

  /** The index entry still to be written. */
  function IndexOf(pending: Option<(Bytes, Handle)>): seq<KV> {
    match pending
    case None => []
    case Some(p) => [KV(p.0, EncodeHandle(p.1))]
  }

  /** An unfinished builder's variables agree with the entries added so far. */
  ghost predicate Building(added: seq<KV>, target: nat, file: Bytes, data: seq<KV>, index: seq<KV>,
                           pending: Option<(Bytes, Handle)>, lastKey: Bytes, numEntries: nat) {
    var cut := AddEntries(Cutter([], []), added, target);
    && NoEmptyBlock(cut.done)
    && file == DataBytes(cut.done) && data == cut.cur
    && IndexEntries(cut.done) == index + IndexOf(pending)
    && (added != [] ==> lastKey == added[|added| - 1].key)
    && (data != [] ==> pending == None)
    && numEntries == |added|
  }

  lemma PendingWritten(added: seq<KV>, target: nat, file: Bytes, data: seq<KV>, index: seq<KV>,
                       pending: Option<(Bytes, Handle)>, lastKey: Bytes, n: nat)
    requires Building(added, target, file, data, index, pending, lastKey, n)
    ensures Building(added, target, file, data, index + IndexOf(pending), None, lastKey, n)
  {
    hide AddEntries, DataBytes, EncodeHandle, IndexEntries, NoEmptyBlock;
    assert index + IndexOf(pending) + IndexOf(None) == index + IndexOf(pending);
  }

  /** An added entry that leaves the block below its target. */
  lemma EntryStays(added: seq<KV>, target: nat, file: Bytes, data: seq<KV>, index: seq<KV>, lastKey: Bytes, n: nat, kv: KV)
    requires Building(added, target, file, data, index, None, lastKey, n) && Estimate(data + [kv]) < target
    ensures Building(added + [kv], target, file, data + [kv], index, None, kv.key, n + 1)
  {
    hide AddEntries, DataBytes, EncodeHandle, IndexEntries, NoEmptyBlock, Estimate;
    AddEntriesPush(Cutter([], []), added, kv, target);
  }

  /** An added entry that fills the block: the block is cut off and its index entry is pending. */
  lemma EntryCuts(added: seq<KV>, target: nat, file: Bytes, data: seq<KV>, index: seq<KV>, lastKey: Bytes, n: nat, kv: KV)
    requires Building(added, target, file, data, index, None, lastKey, n) && Estimate(data + [kv]) >= target
    ensures var block := BlockBytes(data + [kv]);
            Building(added + [kv], target, file + block, [], index, Some((kv.key, Handle(|file|, |block|))), kv.key, n + 1)
  {
    hide AddEntries, DataBytes, BlockBytes, EncodeHandle, IndexEntries, Estimate;
    var cut := AddEntries(Cutter([], []), added, target);
    AddEntriesPush(Cutter([], []), added, kv, target);
    DataBytesPush(cut.done, cut.cur + [kv]);
    IndexEntriesPush(cut.done, cut.cur + [kv]);
    assert (cut.cur + [kv])[|cut.cur|] == kv;
    assert index + IndexOf(None) == index;
  }

  /** At the end: the last open block, if any, is cut off like the others. */
  lemma LastCut(added: seq<KV>, target: nat, file: Bytes, data: seq<KV>, index: seq<KV>, pending: Option<(Bytes, Handle)>, lastKey: Bytes, n: nat)
    requires Building(added, target, file, data, index, pending, lastKey, n)
    ensures NoEmptyBlock(DataBlocks(added, target))
    ensures var block := BlockBytes(data);
            var blocks := DataBlocks(added, target);
            && DataBytes(blocks) == (if data == [] then file else file + block)
            && IndexEntries(blocks) == index + IndexOf(if data == [] then pending else Some((lastKey, Handle(|file|, |block|))))
  {
    DataBlocksPartition(added, target);
    LastKeyOfCut(added, target);
    hide AddEntries, DataBytes, BlockBytes, EncodeHandle, IndexEntries;
    var cut := AddEntries(Cutter([], []), added, target);
    if data != [] {
      DataBytesPush(cut.done, cut.cur);
      IndexEntriesPush(cut.done, cut.cur);
      assert index + IndexOf(None) == index;
    }
  }

  lemma LastKeyOfCut(added: seq<KV>, target: nat)
    ensures var cut := AddEntries(Cutter([], []), added, target);
            cut.cur != [] ==> added != [] && cut.cur[|cut.cur| - 1] == added[|added| - 1]
  {
    hide Estimate;
    if added != [] {
      var front := added[..|added| - 1];
      assert added == front + [added[|added| - 1]];
      AddEntriesPush(Cutter([], []), front, added[|added| - 1], target);
    }
  }

  lemma NothingBuilt(target: nat)
    ensures Building([], target, [], [], [], None, [], 0)
  {
  }

  /** The number of keys a filter is sized for. */
  function ExpectedKeys(blockTarget: nat): nat {
    if 50 * blockTarget / 32 > 1000 then 50 * blockTarget / 32 else 1000
  }

  /** The bits every builder starts from. */
  function FilterBits(blockTarget: nat, bitsPerKey: nat): Bytes {
    EmptyBits(ExpectedKeys(blockTarget), bitsPerKey)
  }

  /** Which block targets and bits per key give a filter that can be probed: all whose bit count is no multiple of 2^32. */
  lemma FilterIsUsableIff(blockTarget: nat, bitsPerKey: nat)
    ensures BitCount(FilterBits(blockTarget, bitsPerKey)) != 0
            <==> var keys := if 50 * blockTarget / 32 > 1000 then 50 * blockTarget / 32 else 1000;
                 bitsPerKey == 0 || ((keys * bitsPerKey + 7) / 8 * 8) % U32_LIMIT != 0
  {
    SizeIsUsableIff(ExpectedKeys(blockTarget), bitsPerKey);
    assert bitsPerKey > 0 ==> ExpectedKeys(blockTarget) * bitsPerKey >= 1000;
  }

  /** `current_size_estimate` of a builder that was given `es`: the blocks already written and the open one. */
  function BuilderEstimate(es: seq<KV>, target: nat): nat {
    var cut := AddEntries(Cutter([], []), es, target);
    |DataBytes(cut.done)| + Estimate(cut.cur)
  }

  class TableBuilder {
    /** The bytes written so far. */
    var file: Bytes
    var dataBlock: BlockBuilder
    var indexBlock: BlockBuilder
    var lastKey: Bytes
    var pending: Option<(Bytes, Handle)>
    var numEntries: nat
    var finished: bool
    const blockTarget: nat
    const bloom: BloomFilter
    /** The pairs and user keys added, and the empty filter. */
    ghost var added: seq<KV>
    ghost var userKeys: seq<Bytes>
    ghost const emptyBits: Bytes

    ghost predicate Valid()
      reads this, dataBlock, indexBlock, bloom
    {
      && dataBlock != indexBlock && dataBlock.Valid() && indexBlock.Valid()
      && bloom.bits == InsertedAll(emptyBits, bloom.k, userKeys)
      && (!finished ==>
            && !dataBlock.finished && !indexBlock.finished
            && Building(added, blockTarget, file, dataBlock.entries, indexBlock.entries, pending, lastKey, numEntries))
    }

    /** `with_options`; the filter is sized for the expected number of keys. */
    constructor (blockTarget: nat, k: Byte, bitsPerKey: nat)
      ensures Valid() && fresh(dataBlock) && fresh(indexBlock) && fresh(bloom)
      ensures !finished && added == [] && userKeys == [] && this.blockTarget == blockTarget && bloom.k == k
      ensures emptyBits == FilterBits(blockTarget, bitsPerKey)
    {
      hide Building, ExpectedKeys, EmptyBits, BlockBuilder.Valid;
      NothingBuilt(blockTarget);
      file, lastKey, pending, numEntries, finished := [], [], None, 0, false;
      dataBlock := new BlockBuilder();
      indexBlock := new BlockBuilder();
      this.blockTarget := blockTarget;
      var filter := new BloomFilter(k);
      filter.EnsureCapacity(ExpectedKeys(blockTarget), bitsPerKey);
      bloom := filter;
      added, userKeys := [], [];
      emptyBits := filter.bits;
    }

    /** The pending index entry is written when the next entry arrives, or at the end. */
    method WritePending()
      requires indexBlock.Valid() && !indexBlock.finished
      modifies this`pending, indexBlock
      ensures indexBlock.Valid() && !indexBlock.finished && pending == None
      ensures indexBlock.entries == old(indexBlock.entries) + IndexOf(old(pending))
    {
      hide EncodeHandle, Body, Restarts, SinceRestart;
      if pending.Some? {
        var done := indexBlock.Add(pending.value.0, EncodeHandle(pending.value.1));
        pending := None;
      }
    }

    /** `flush_data_block`: the open block goes to the file, its last key and handle wait for the index. */
    method FlushDataBlock()
      requires dataBlock.Valid() && !dataBlock.finished
      modifies this`file, this`dataBlock, this`pending, dataBlock
      ensures dataBlock.Valid() && !dataBlock.finished
      ensures old(dataBlock.entries) == [] ==>
                file == old(file) && pending == old(pending) && dataBlock == old(dataBlock) && dataBlock.entries == []
      ensures old(dataBlock.entries) != [] ==>
                && fresh(dataBlock) && dataBlock.entries == []
                && file == old(file) + BlockBytes(old(dataBlock.entries))
                && pending == Some((lastKey, Handle(|old(file)|, |BlockBytes(old(dataBlock.entries))|)))
    {
      hide BlockBuilder.Valid, BlockBytes;
      BuilderReads(dataBlock);
      if dataBlock.IsEmpty() {
        return;
      }
      var bytes := dataBlock.Finish();
      var handle := Handle(|file|, |bytes|);
      dataBlock := new BlockBuilder();
      file := file + bytes;
      pending := Some((lastKey, handle));
    }

    /** `add`: an encoded internal key, its user key for the filter, and the value. */
    method Add(userKey: Bytes, internalKey: Bytes, value: Bytes)
      requires Valid() && !finished
      modifies this, dataBlock, indexBlock, bloom
      ensures Valid() && !finished && indexBlock == old(indexBlock) && (dataBlock == old(dataBlock) || fresh(dataBlock))
      ensures added == old(added) + [KV(internalKey, value)] && userKeys == old(userKeys) + [userKey] && bloom.k == old(bloom.k)
    {
      hide Building, BlockBytes, BlockBuilder.Valid, InsertedAll, Inserted, IndexOf, Estimate;
      ghost var kv, data0, index0 := KV(internalKey, value), dataBlock.entries, indexBlock.entries;
      PendingWritten(added, blockTarget, file, data0, index0, pending, lastKey, numEntries);
      WritePending();
      var done := dataBlock.Add(internalKey, value);
      BuilderReads(dataBlock);
      if dataBlock.CurrentSizeEstimate() < blockTarget {
        EntryStays(added, blockTarget, file, data0, indexBlock.entries, lastKey, numEntries, kv);
      } else {
        EntryCuts(added, blockTarget, file, data0, indexBlock.entries, lastKey, numEntries, kv);
      }
      InsertedAllPush(emptyBits, bloom.k, userKeys, userKey);
      lastKey := internalKey;
      bloom.Insert(userKey);
      numEntries := numEntries + 1;
      added, userKeys := added + [kv], userKeys + [userKey];
      if dataBlock.CurrentSizeEstimate() >= blockTarget {
        FlushDataBlock();
      }
    }

    /** `current_size_estimate`, by which a compaction decides to start another file. */
    function CurrentSizeEstimate(): (n: nat)
      requires Valid() && !finished
      reads this, dataBlock, indexBlock, bloom
      ensures n == BuilderEstimate(added, blockTarget)
    {
      BuilderReads(dataBlock);
      |file| + dataBlock.CurrentSizeEstimate()
    }

    /** `finish`: the last block, the index, the filter, the metaindex and the footer. */
    method Finish() returns (bytes: Bytes)
      requires Valid() && !finished
      modifies this, dataBlock, indexBlock
      ensures finished && NoEmptyBlock(DataBlocks(added, blockTarget))
      ensures added == old(added) && userKeys == old(userKeys)
      ensures bytes == TableBytes(DataBlocks(added, blockTarget), Bloom.Finish(InsertedAll(emptyBits, bloom.k, userKeys), bloom.k))
    {
      hide Building, BlockBytes, BlockBuilder.Valid, InsertedAll, IndexOf, DataBlocks, DataBytes, IndexEntries, Assembled;
      LastCut(added, blockTarget, file, dataBlock.entries, indexBlock.entries, pending, lastKey, numEntries);
      BuilderReads(dataBlock);
      finished := true;
      if !dataBlock.IsEmpty() {
        FlushDataBlock();
      }
      WritePending();
      var filter := Bloom.Finish(bloom.bits, bloom.k);
      var index := indexBlock.Finish();
      bytes := Assemble(file, filter, index);
      file := bytes;
    }
  }

  /** The filter, the metaindex block that points to it, the index and the footer, behind the data blocks. */
  method Assemble(data: Bytes, filter: Bytes, index: Bytes) returns (bytes: Bytes)
    ensures bytes == Assembled(data, filter, index)
  {
    hide BlockBuilder.Valid, BlockBytes, Footer, EncodeHandle;
    var filterHandle := Handle(|data|, |filter|);
    var metaBlock := new BlockBuilder();
    var done := metaBlock.Add(FILTER_META_KEY, EncodeHandle(filterHandle));
    assert metaBlock.entries == MetaEntries(filterHandle);
    var meta := metaBlock.Finish();
    var metaHandle := Handle(|data| + |filter|, |meta|);
    var indexHandle := Handle(metaHandle.offset + metaHandle.size, |index|);
    bytes := data + filter + meta + index + Footer(metaHandle, indexHandle);
  }

  /** What the builder sees of an open block. */
  lemma BuilderReads(b: BlockBuilder)
    requires b.Valid() && !b.finished
    ensures b.CurrentSizeEstimate() == Estimate(b.entries)
    ensures b.IsEmpty() <==> b.entries == []
  {
  }

  lemma {:induction false} InsertedAllPush(bits: Bytes, k: nat, keys: seq<Bytes>, key: Bytes)
    ensures InsertedAll(bits, k, keys + [key]) == Inserted(InsertedAll(bits, k, keys), k, key)
    decreases |keys|
  {
    hide Inserted;
    if keys == [] {
      assert keys + [key] == [key] && [key][1..] == [];
    } else {
      assert (keys + [key])[0] == keys[0] && (keys + [key])[1..] == keys[1..] + [key];
      InsertedAllPush(Inserted(bits, k, keys[0]), k, keys[1..], key);
    }
  }
}
