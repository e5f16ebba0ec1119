/** Opening table files, point lookups through the index, and iteration; all against the entries that were added. */
module TableReaders {
  import opened ByteStrings
  import opened InternalKeys
  import opened Varints
  import opened Blocks
  import opened BlockReaders
  import opened BlockProofs
  import opened Bloom
  import opened VersionedEntries
  import opened Tables

  datatype Reader = Reader(data: Bytes, indexHandle: Handle, bloom: Option<(Bytes, Byte)>)

  /** `block_bytes`. */
  function Slice(data: Bytes, h: Handle): Result<Bytes> {
    if h.offset + h.size > |data| then Corrupted else Ok(data[h.offset..h.offset + h.size])
  }

  /** The filter, if the metaindex names one; anything malformed means none. */
  function ReadFilter(data: Bytes, meta: Handle): Option<(Bytes, Byte)> {
    match Slice(data, meta)
    case Corrupted => None
    case Ok(metaBytes) =>
      match ParseBlock(metaBytes)
      case Corrupted => None
      case Ok(block) =>
        match BlockReaders.Get(block, FILTER_META_KEY, Compare)
        case None => None
        case Some(handleBytes) =>
          match DecodeHandle(handleBytes)
          case Corrupted => None
          case Ok(h) =>
            match Slice(data, h.0)
            case Corrupted => None
            case Ok(bytes) => FromBytes(bytes)
  }

  /** `open`. */
  function Open(data: Bytes): Result<Reader> {
    if |data| < TABLE_FOOTER_LEN then Corrupted
    else
      var handles :- ReadFooter(data[|data| - TABLE_FOOTER_LEN..]);
      Ok(Reader(data, handles.1, ReadFilter(data, handles.0)))
  }

  /** Only bytes that end in the magic number open, and at least a footer of them. */
  lemma OpenNeedsMagic(data: Bytes)
    ensures Open(data).Ok? ==> |data| >= TABLE_FOOTER_LEN && FromLittleEndian(data[|data| - 8..]) == 0xdb47_7524_8b80_fb57
  {
    hide FromLittleEndian, DecodeHandle, ReadFilter;
    if Open(data).Ok? {
      assert data[|data| - TABLE_FOOTER_LEN..][TABLE_FOOTER_LEN - 8..] == data[|data| - 8..];
    }
  }

  /** A block to be searched; one without restart points cannot be. */
  function Searchable(bytes: Bytes): (r: Result<Block>)
    ensures r.Ok? ==> r.value.Valid() && r.value.numRestarts > 0
  {
    var b :- ParseBlock(bytes);
    if b.numRestarts == 0 then Corrupted else Ok(b)
  }

  /** `get_entry`: filter, index, data block. */
  function GetEntry(t: Reader, k: Bytes, s: nat): Result<Option<(ValueType, Bytes)>> {
    if t.bloom.Some? && !MayContain(t.bloom.value.0, t.bloom.value.1, k) then Ok(None)
    else
      var lookup := LookupKey(k, s);
      var indexBytes :- Slice(t.data, t.indexHandle);
      var index :- Searchable(indexBytes);
      match LowerBound(index, lookup, InternalKeyCmp)
      case None => Ok(None)
      case Some(entry) =>
        var h :- DecodeHandle(entry.value);
        var blockBytes :- Slice(t.data, h.0);
        var block :- Searchable(blockBytes);
        match LowerBound(block, lookup, InternalKeyCmp)
        case None => Ok(None)
        case Some(found) =>
          if UserKeyOf(found.key) != k then Ok(None)
          else
            match TypeOf(found.key)
            case None => Corrupted
            case Some(t) => Ok(Some((t, found.value)))
  }

  /** All a filter can do is turn a lookup into a miss; a table without a readable one is searched. */
  lemma FilterOnlyRejects(t: Reader, k: Bytes, s: nat)
    ensures GetEntry(t, k, s)
         == if t.bloom.Some? && !MayContain(t.bloom.value.0, t.bloom.value.1, k) then Ok(None) else GetEntry(t.(bloom := None), k, s)
  {
    hide MayContain, LowerBound, Searchable, Slice, DecodeHandle, LookupKey;
  }

  // ----- where things are ---------------------------------------------------------------------

  /** The finished file is small enough for its integers: blocks below 4 GiB, offsets below 2^64. */
  ghost predicate TableFits(blocks: seq<seq<KV>>, filter: Bytes)
    requires NoEmptyBlock(blocks)
  {
    && (forall i :: 0 <= i < |blocks| ==> Fits(blocks[i]))
    && Fits(IndexEntries(blocks))
    && |TableBytes(blocks, filter)| < U64_LIMIT
  }

  lemma SliceOfSum(a: Bytes, b: Bytes, c: Bytes)
    ensures (a + b + c)[|a|..|a| + |b|] == b
  {
  }

  lemma {:induction false} DataPrefix(blocks: seq<seq<KV>>, i: nat)
    requires i <= |blocks|
    ensures DataBytes(blocks[..i]) <= DataBytes(blocks)
    decreases |blocks|
  {
    hide BlockBytes;
    if i == |blocks| {
      assert blocks[..i] == blocks;
    } else {
      var front := blocks[..|blocks| - 1];
      assert front[..i] == blocks[..i];
      DataPrefix(front, i);
    }
  }

  /** Each data block sits at its handle. */
  lemma BlockAtHandle(blocks: seq<seq<KV>>, i: nat, rest: Bytes)
    requires i < |blocks|
    ensures Slice(DataBytes(blocks) + rest, HandleAt(blocks, i)) == Ok(BlockBytes(blocks[i]))
    ensures HandleAt(blocks, i).offset + HandleAt(blocks, i).size <= |DataBytes(blocks)|
  {
    hide BlockBytes;
    DataPrefix(blocks, i + 1);
    assert blocks[..i + 1] == blocks[..i] + [blocks[i]];
    DataBytesPush(blocks[..i], blocks[i]);
    var a, b, d := DataBytes(blocks[..i]), BlockBytes(blocks[i]), DataBytes(blocks);
    assert a + b <= d;
    hide DataBytes;
    PrefixSlice(a, b, d, rest);
  }

  lemma PrefixSlice(a: Bytes, b: Bytes, d: Bytes, rest: Bytes)
    requires a + b <= d
    ensures |a| + |b| <= |d| && (d + rest)[|a|..|a| + |b|] == b
  {
    assert d == a + b + d[|a| + |b|..];
    SliceOfSum(a, b, d[|a| + |b|..] + rest);
    assert d + rest == a + b + (d[|a| + |b|..] + rest);
  }

  /** The four parts behind the data blocks sit at their handles too. */
  lemma PartsAtHandles(data: Bytes, filter: Bytes, index: Bytes)
    ensures var bytes := Assembled(data, filter, index);
            && |bytes| >= TABLE_FOOTER_LEN
            && Slice(bytes, FilterHandle(data, filter)) == Ok(filter)
            && Slice(bytes, MetaHandle(data, filter)) == Ok(BlockBytes(MetaEntries(FilterHandle(data, filter))))
            && Slice(bytes, IndexHandle(data, filter, index)) == Ok(index)
            && bytes[|bytes| - TABLE_FOOTER_LEN..] == Footer(MetaHandle(data, filter), IndexHandle(data, filter, index))
            && IndexHandle(data, filter, index).offset + IndexHandle(data, filter, index).size + TABLE_FOOTER_LEN == |bytes|
  {
    hide BlockBytes, Footer, MetaEntries;
    var meta := BlockBytes(MetaEntries(FilterHandle(data, filter)));
    var footer := Footer(MetaHandle(data, filter), IndexHandle(data, filter, index));
    var bytes := Assembled(data, filter, index);
    assert bytes == data + filter + meta + index + footer;
    assert bytes == data + filter + (meta + index + footer);
    SliceOfSum(data, filter, meta + index + footer);
    assert bytes == (data + filter) + meta + (index + footer);
    SliceOfSum(data + filter, meta, index + footer);
    SliceOfSum(data + filter + meta, index, footer);
  }

  lemma AssembledStartsWithData(data: Bytes, filter: Bytes, index: Bytes)
    ensures exists rest :: Assembled(data, filter, index) == data + rest
  {
    hide BlockBytes, Footer, MetaEntries;
    var meta := BlockBytes(MetaEntries(FilterHandle(data, filter)));
    var footer := Footer(MetaHandle(data, filter), IndexHandle(data, filter, index));
    assert Assembled(data, filter, index) == data + (filter + meta + index + footer);
  }

  // ----- opening ------------------------------------------------------------------------------

  lemma MetaFits(h: Handle)
    requires FitsHandle(h)
    ensures Fits(MetaEntries(h))
  {
    hide EncodeHandle, EntryBytes;
    HandleRoundTrip(h, []);
    var kv := KV(FILTER_META_KEY, EncodeHandle(h));
    var es := MetaEntries(h);
    assert es == [kv] && es[..0] == [] && Body([]) == [];
    SmallEntry(kv);
  }

  lemma SmallEntry(kv: KV)
    requires |kv.key| < 1000 && |kv.value| < 1000
    ensures |EntryBytes(0, kv)| < U32_LIMIT
  {
    EntryLength(kv);
    hide Varint, EntryBytes;
    ShortVarint(0);
    ShortVarint(|kv.key|);
    ShortVarint(|kv.value|);
  }

  lemma ShortVarint(n: nat)
    requires n < 1000
    ensures |Varint(n % U32_LIMIT)| <= MAX_VARINT32_LEN
  {
    hide Varint;
    RoundTrip32(n, []);
  }

  lemma EntryLength(kv: KV)
    ensures |EntryBytes(0, kv)|
         == |Varint(0 % U32_LIMIT)| + |Varint(|kv.key| % U32_LIMIT)| + |Varint(|kv.value| % U32_LIMIT)| + |kv.key| + |kv.value|
  {
    hide Varint;
  }

  /** The metaindex block gives back the filter's handle. */
  lemma MetaGet(h: Handle)
    requires FitsHandle(h)
    ensures ParseBlock(BlockBytes(MetaEntries(h))) == Ok(Built(MetaEntries(h)))
    ensures BlockReaders.Get(Built(MetaEntries(h)), FILTER_META_KEY, Compare) == Some(EncodeHandle(h))
  {
    MetaFits(h);
    hide EncodeHandle, BlockBytes, Built;
    ParseBuilt(MetaEntries(h));
    ComparatorsAreTotalPreorders();
    GetRefinesLinearSearch(MetaEntries(h), FILTER_META_KEY, Compare);
  }

  /** Opening a finished file yields its bytes, its index handle and its filter. */
  lemma OpenBuilt(data: Bytes, filter: Bytes, index: Bytes)
    requires |Assembled(data, filter, index)| < U64_LIMIT
    ensures Open(Assembled(data, filter, index))
         == Ok(Reader(Assembled(data, filter, index), IndexHandle(data, filter, index), FromBytes(filter)))
  {
    PartsAtHandles(data, filter, index);
    assert FitsHandle(FilterHandle(data, filter)) && FitsHandle(MetaHandle(data, filter)) && FitsHandle(IndexHandle(data, filter, index));
    hide BlockBytes, Footer, ReadFooter, MetaEntries, EncodeHandle, DecodeHandle, Assembled, Built, Slice, FromBytes, FitsHandle;
    var h := FilterHandle(data, filter);
    FooterRoundTrip(MetaHandle(data, filter), IndexHandle(data, filter, index));
    MetaGet(h);
    HandleRoundTrip(h, []);
    assert EncodeHandle(h) + [] == EncodeHandle(h);
  }

  // ----- two-level search ---------------------------------------------------------------------

  lemma {:induction false} FlatPrefix(blocks: seq<seq<KV>>, i: nat)
    requires i <= |blocks|
    ensures FlatBlocks(blocks[..i]) <= FlatBlocks(blocks)
    decreases |blocks|
  {
    if i == |blocks| {
      assert blocks[..i] == blocks;
    } else {
      var front := blocks[..|blocks| - 1];
      assert front[..i] == blocks[..i];
      FlatPrefix(front, i);
    }
  }

  /** Where a block's entries are in the whole list. */
  lemma BlockInFlat(blocks: seq<seq<KV>>, i: nat, x: nat)
    requires i < |blocks| && x < |blocks[i]|
    ensures |FlatBlocks(blocks[..i + 1])| == |FlatBlocks(blocks[..i])| + |blocks[i]| <= |FlatBlocks(blocks)|
    ensures FlatBlocks(blocks)[|FlatBlocks(blocks[..i])| + x] == blocks[i][x]
  {
    assert blocks[..i + 1] == blocks[..i] + [blocks[i]];
    FlatBlocksPush(blocks[..i], blocks[i]);
    FlatPrefix(blocks, i + 1);
    var p := |FlatBlocks(blocks[..i])| + x;
    assert FlatBlocks(blocks[..i + 1])[p] == blocks[i][x];
  }

  lemma {:induction false} FlatGrows(blocks: seq<seq<KV>>, i: nat, j: nat)
    requires i < j <= |blocks|
    ensures |FlatBlocks(blocks[..i])| + |blocks[i]| <= |FlatBlocks(blocks[..j])|
    decreases j
  {
    assert blocks[..j] == blocks[..j - 1] + [blocks[j - 1]];
    FlatBlocksPush(blocks[..j - 1], blocks[j - 1]);
    if i < j - 1 {
      FlatGrows(blocks, i, j - 1);
    }
  }

  lemma LastKeysSorted(blocks: seq<seq<KV>>, cmp: Comparator)
    requires NoEmptyBlock(blocks) && StrictlySortedBy(cmp, FlatBlocks(blocks))
    ensures SortedBy(cmp, IndexEntries(blocks))
  {
    hide FlatBlocks, EncodeHandle, HandleAt;
    forall i, j | 0 <= i < j < |blocks|
      ensures cmp(IndexEntries(blocks)[i].key, IndexEntries(blocks)[j].key) != Greater
    {
      BlockInFlat(blocks, i, |blocks[i]| - 1);
      BlockInFlat(blocks, j, |blocks[j]| - 1);
      FlatGrows(blocks, i, j);
    }
  }

  lemma BlockSorted(blocks: seq<seq<KV>>, cmp: Comparator, i: nat)
    requires i < |blocks| && StrictlySortedBy(cmp, FlatBlocks(blocks))
    ensures SortedBy(cmp, blocks[i])
  {
    hide FlatBlocks;
    forall x, y | 0 <= x < y < |blocks[i]| ensures cmp(blocks[i][x].key, blocks[i][y].key) != Greater {
      BlockInFlat(blocks, i, x);
      BlockInFlat(blocks, i, y);
    }
  }

  lemma StrictIsSorted(cmp: Comparator, es: seq<KV>)
    requires StrictlySortedBy(cmp, es)
    ensures SortedBy(cmp, es)
  {
  }

  /** Everything before block `i` is below a target that the last key of the previous block is below. */
  lemma AllBelowBlock(blocks: seq<seq<KV>>, target: Bytes, cmp: Comparator, i: nat)
    requires NoEmptyBlock(blocks) && StrictlySortedBy(cmp, FlatBlocks(blocks)) && TotalPreorder(cmp) && i <= |blocks|
    requires i > 0 ==> cmp(target, blocks[i - 1][|blocks[i - 1]| - 1].key) == Greater
    ensures |FlatBlocks(blocks[..i])| <= |FlatBlocks(blocks)|
    ensures forall k :: 0 <= k < |FlatBlocks(blocks[..i])| ==> cmp(target, FlatBlocks(blocks)[k].key) == Greater
  {
    hide FlatBlocks, TotalPreorder;
    if i > 0 {
      BlockInFlat(blocks, i - 1, |blocks[i - 1]| - 1);
      StrictIsSorted(cmp, FlatBlocks(blocks));
      AllBelowRestart(FlatBlocks(blocks), target, cmp, |FlatBlocks(blocks[..i])| - 1);
    } else {
      assert blocks[..0] == [];
      NoBlocks();
    }
  }

  lemma NoBlocks()
    ensures FlatBlocks([]) == []
  {
  }

  /** The index picks the one data block that holds the first entry not below the target. */
  lemma TwoLevelSearch(blocks: seq<seq<KV>>, target: Bytes, cmp: Comparator, i: nat)
    requires NoEmptyBlock(blocks) && StrictlySortedBy(cmp, FlatBlocks(blocks)) && TotalPreorder(cmp)
    requires i == FirstNotBelow(IndexEntries(blocks), target, cmp)
    ensures i == |blocks| ==> LinearLowerBound(FlatBlocks(blocks), target, cmp) == None
    ensures i < |blocks| ==> LinearLowerBound(FlatBlocks(blocks), target, cmp) == LinearLowerBound(blocks[i], target, cmp)
  {
    hide FlatBlocks, TotalPreorder, IndexEntries, StrictlySortedBy, NoEmptyBlock, LinearLowerBound;
    LastKeys(blocks, target, cmp, i);
    AllBelowBlock(blocks, target, cmp, i);
    if i == |blocks| {
      assert blocks[..i] == blocks;
      AllBelow(FlatBlocks(blocks), target, cmp);
    } else {
      FoundInBlock(blocks, target, cmp, i, FirstNotBelow(blocks[i], target, cmp));
    }
  }

  lemma AllBelow(es: seq<KV>, target: Bytes, cmp: Comparator)
    requires forall k :: 0 <= k < |es| ==> cmp(target, es[k].key) == Greater
    ensures LinearLowerBound(es, target, cmp) == None
  {
    FirstNotBelowIsUnique(es, target, cmp, |es|);
  }

  lemma LastKeys(blocks: seq<seq<KV>>, target: Bytes, cmp: Comparator, i: nat)
    requires NoEmptyBlock(blocks) && i == FirstNotBelow(IndexEntries(blocks), target, cmp)
    ensures i > 0 ==> cmp(target, blocks[i - 1][|blocks[i - 1]| - 1].key) == Greater
    ensures i < |blocks| ==> FirstNotBelow(blocks[i], target, cmp) < |blocks[i]|
  {
    hide EncodeHandle, HandleAt;
    if i > 0 {
      assert cmp(target, IndexEntries(blocks)[i - 1].key) == Greater;
    }
  }

  lemma FoundInBlock(blocks: seq<seq<KV>>, target: Bytes, cmp: Comparator, i: nat, q: nat)
    requires i < |blocks| && q < |blocks[i]| && q == FirstNotBelow(blocks[i], target, cmp)
    requires |FlatBlocks(blocks[..i])| <= |FlatBlocks(blocks)|
    requires forall k :: 0 <= k < |FlatBlocks(blocks[..i])| ==> cmp(target, FlatBlocks(blocks)[k].key) == Greater
    ensures LinearLowerBound(FlatBlocks(blocks), target, cmp) == LinearLowerBound(blocks[i], target, cmp)
  {
    hide FlatBlocks;
    var p := |FlatBlocks(blocks[..i])|;
    BlockInFlat(blocks, i, q);
    forall k | 0 <= k < p + q ensures cmp(target, FlatBlocks(blocks)[k].key) == Greater {
      if k >= p {
        BlockInFlat(blocks, i, k - p);
      }
    }
    FirstNotBelowIsUnique(FlatBlocks(blocks), target, cmp, p + q);
  }

  // ----- entries as pairs ---------------------------------------------------------------------

  function Pair(e: Entry): KV {
    KV(InternalKeys.Encode(e.ik), e.value)
  }

  function Pairs(es: seq<Entry>): (r: seq<KV>)
    ensures |r| == |es|
  {
    seq(|es|, i requires 0 <= i < |es| => Pair(es[i]))
  }

  ghost predicate SeqnosFit(es: seq<Entry>) {
    forall e :: e in es ==> e.Seqno() < U64_LIMIT
  }

  lemma PairsSorted(es: seq<Entry>)
    requires Ascending(es) && SeqnosFit(es)
    ensures StrictlySortedBy(InternalKeyCmp, Pairs(es))
  {
    hide InternalKeyCmp, InternalKeys.Encode;
    forall i, j | 0 <= i < j < |es| ensures InternalKeyCmp(Pair(es[i]).key, Pair(es[j]).key) == Less {
      assert es[i] in es && es[j] in es && VersionBefore(es[i], es[j]);
      VersionOrder(es[i], es[j]);
    }
  }

  lemma VersionOrder(a: Entry, b: Entry)
    requires a.Seqno() < U64_LIMIT && b.Seqno() < U64_LIMIT && VersionBefore(a, b)
    ensures InternalKeyCmp(Pair(a).key, Pair(b).key) == Less
  {
    OrderFacts();
    CmpAgreesWithOrd(a.ik, b.ik);
  }

  /** Comparing with the sentinel decides whether a search walks past an entry. */
  lemma SentinelOrder(e: Entry, k: Bytes, s: nat)
    requires e.Seqno() < U64_LIMIT && s < U64_LIMIT
    ensures InternalKeyCmp(LookupKey(k, s), Pair(e).key) == Greater <==> PastLookup(e, k, s)
  {
    OrderFacts();
    EncodeRoundTrip(e.ik);
    EncodeRoundTrip(InternalKey(k, s, Put));
  }

  lemma SentinelSearch(es: seq<Entry>, k: Bytes, s: nat)
    requires SeqnosFit(es) && s < U64_LIMIT
    ensures LinearLowerBound(Pairs(es), LookupKey(k, s), InternalKeyCmp)
         == var i := FirstCandidate(es, k, s); if i < |es| then Some(Pair(es[i])) else None
  {
    hide InternalKeyCmp, LookupKey, Pair;
    var i := FirstCandidate(es, k, s);
    forall j | 0 <= j < |es| ensures InternalKeyCmp(LookupKey(k, s), Pairs(es)[j].key) == Greater <==> PastLookup(es[j], k, s) {
      assert es[j] in es;
      SentinelOrder(es[j], k, s);
    }
    FirstNotBelowIsUnique(Pairs(es), LookupKey(k, s), InternalKeyCmp, i);
  }

  // ----- the finished table -------------------------------------------------------------------

  /** The filter over the user keys of the entries. */
  function FilterOf(bits: Bytes, probes: Byte, es: seq<Entry>): Bytes {
    Bloom.Finish(InsertedAll(bits, probes, UserKeys(es)), probes)
  }

  function UserKeys(es: seq<Entry>): (r: seq<Bytes>)
    ensures |r| == |es|
  {
    seq(|es|, i requires 0 <= i < |es| => es[i].Key())
  }

  /** The file a builder writes for `es`. */
  function TableOf(es: seq<Entry>, target: nat, bits: Bytes, probes: Byte): Bytes {
    DataBlocksPartition(Pairs(es), target);
    TableBytes(DataBlocks(Pairs(es), target), FilterOf(bits, probes, es))
  }

  /** The whole of a flush or of one output file: every entry added in order, then the finished bytes. */
  method BuildTable(es: seq<Entry>, target: nat, probes: Byte, bitsPerKey: nat) returns (bytes: Bytes)
    ensures bytes == TableOf(es, target, FilterBits(target, bitsPerKey), probes)
  {
    hide TableBuilder.Valid, TableBytes, InsertedAll, DataBlocks, FilterBits;
    var builder := new TableBuilder(target, probes, bitsPerKey);
    ghost var bits := FilterBits(target, bitsPerKey);
    for i := 0 to |es|
      invariant builder.Valid() && !builder.finished && builder.blockTarget == target && builder.emptyBits == bits
      invariant fresh(builder) && fresh(builder.dataBlock) && fresh(builder.indexBlock) && fresh(builder.bloom)
      invariant builder.added == Pairs(es[..i]) && builder.userKeys == UserKeys(es[..i]) && builder.bloom.k == probes
    {
      assert es[..i + 1] == es[..i] + [es[i]];
      builder.Add(es[i].Key(), InternalKeys.Encode(es[i].ik), es[i].value);
      assert builder.added == Pairs(es[..i + 1]);
      assert builder.userKeys == UserKeys(es[..i + 1]);
    }
    assert es[..|es|] == es;
    bytes := builder.Finish();
  }

  ghost predicate TableOfFits(es: seq<Entry>, target: nat, bits: Bytes, probes: Byte) {
    DataBlocksPartition(Pairs(es), target);
    TableFits(DataBlocks(Pairs(es), target), FilterOf(bits, probes, es)) && SeqnosFit(es)
  }

  function ReaderOf(blocks: seq<seq<KV>>, filter: Bytes): Reader
    requires NoEmptyBlock(blocks)
  {
    Reader(TableBytes(blocks, filter), IndexHandle(DataBytes(blocks), filter, BlockBytes(IndexEntries(blocks))), FromBytes(filter))
  }

  lemma OpenTable(blocks: seq<seq<KV>>, filter: Bytes)
    requires NoEmptyBlock(blocks) && TableFits(blocks, filter)
    ensures Open(TableBytes(blocks, filter)) == Ok(ReaderOf(blocks, filter))
  {
    hide Assembled, Open, DataBytes, IndexEntries, IndexHandle;
    OpenBuilt(DataBytes(blocks), filter, BlockBytes(IndexEntries(blocks)));
  }

  /** The index block is found and parsed. */
  lemma IndexReads(blocks: seq<seq<KV>>, filter: Bytes)
    requires NoEmptyBlock(blocks) && TableFits(blocks, filter)
    ensures var t := ReaderOf(blocks, filter);
            && Slice(t.data, t.indexHandle) == Ok(BlockBytes(IndexEntries(blocks)))
            && Searchable(BlockBytes(IndexEntries(blocks))) == Ok(Built(IndexEntries(blocks)))
  {
    hide BlockBytes, DataBytes, IndexEntries, Assembled, Slice, IndexHandle;
    PartsAtHandles(DataBytes(blocks), filter, BlockBytes(IndexEntries(blocks)));
    ParseBuilt(IndexEntries(blocks));
  }

  /** Each data block is found through its index entry and parsed. */
  lemma DataBlockReads(blocks: seq<seq<KV>>, filter: Bytes, i: nat)
    requires NoEmptyBlock(blocks) && TableFits(blocks, filter) && i < |blocks|
    ensures DecodeHandle(IndexEntries(blocks)[i].value) == Ok((HandleAt(blocks, i), |EncodeHandle(HandleAt(blocks, i))|))
    ensures Slice(TableBytes(blocks, filter), HandleAt(blocks, i)) == Ok(BlockBytes(blocks[i]))
    ensures Searchable(BlockBytes(blocks[i])) == Ok(Built(blocks[i]))
  {
    hide BlockBytes, DataBytes, Assembled, Slice, HandleAt, EncodeHandle, DecodeHandle, Fits;
    var data, index := DataBytes(blocks), BlockBytes(IndexEntries(blocks));
    assert IndexEntries(blocks)[i].value == EncodeHandle(HandleAt(blocks, i)) && Fits(blocks[i]);
    hide IndexEntries;
    ParseBuilt(blocks[i]);
    AssembledStartsWithData(data, filter, index);
    var rest :| Assembled(data, filter, index) == data + rest;
    BlockAtHandle(blocks, i, rest);
    var h := HandleAt(blocks, i);
    assert h.offset + h.size < U64_LIMIT;
    HandleRoundTrip(h, []);
    assert EncodeHandle(h) + [] == EncodeHandle(h);
  }

  /** What the index search finds. */
  lemma IndexSearch(blocks: seq<seq<KV>>, filter: Bytes, lookup: Bytes, i: nat)
    requires NoEmptyBlock(blocks) && TableFits(blocks, filter) && StrictlySortedBy(InternalKeyCmp, FlatBlocks(blocks))
    requires i == FirstNotBelow(IndexEntries(blocks), lookup, InternalKeyCmp)
    ensures LowerBound(Built(IndexEntries(blocks)), lookup, InternalKeyCmp)
         == if i == |blocks| then None else Some(IndexEntries(blocks)[i])
  {
    assert Fits(IndexEntries(blocks));
    hide BlockBytes, TableBytes, IndexEntries, FlatBlocks, InternalKeyCmp, LowerBound, Built, TotalPreorder, SortedBy, StrictlySortedBy, Fits;
    ComparatorsAreTotalPreorders();
    LastKeysSorted(blocks, InternalKeyCmp);
    LowerBoundRefinesLinearSearch(IndexEntries(blocks), lookup, InternalKeyCmp);
  }

  lemma DataSearch(blocks: seq<seq<KV>>, filter: Bytes, lookup: Bytes, i: nat)
    requires NoEmptyBlock(blocks) && TableFits(blocks, filter) && StrictlySortedBy(InternalKeyCmp, FlatBlocks(blocks)) && i < |blocks|
    requires i == FirstNotBelow(IndexEntries(blocks), lookup, InternalKeyCmp)
    ensures LowerBound(Built(blocks[i]), lookup, InternalKeyCmp) == LinearLowerBound(FlatBlocks(blocks), lookup, InternalKeyCmp)
  {
    assert Fits(blocks[i]);
    hide BlockBytes, TableBytes, IndexEntries, FlatBlocks, InternalKeyCmp, LowerBound, Built, TotalPreorder, SortedBy, StrictlySortedBy, Fits, LinearLowerBound;
    ComparatorsAreTotalPreorders();
    TwoLevelSearch(blocks, lookup, InternalKeyCmp, i);
    BlockSorted(blocks, InternalKeyCmp, i);
    LowerBoundRefinesLinearSearch(blocks[i], lookup, InternalKeyCmp);
  }

  /** Past the filter, a lookup is the linear search over all pairs. */
  lemma LookupIsLinear(blocks: seq<seq<KV>>, filter: Bytes, k: Bytes, s: nat)
    requires NoEmptyBlock(blocks) && TableFits(blocks, filter) && StrictlySortedBy(InternalKeyCmp, FlatBlocks(blocks))
    requires var t := ReaderOf(blocks, filter); t.bloom.None? || MayContain(t.bloom.value.0, t.bloom.value.1, k)
    ensures GetEntry(ReaderOf(blocks, filter), k, s) == Found(LinearLowerBound(FlatBlocks(blocks), LookupKey(k, s), InternalKeyCmp), k)
  {
    hide BlockBytes, DataBytes, TableBytes, TableFits, Slice, HandleAt, EncodeHandle, DecodeHandle, IndexEntries, IndexHandle, FlatBlocks, InternalKeyCmp,
         LookupKey, Searchable, LowerBound, Built, FromBytes, MayContain, TotalPreorder, SortedBy, StrictlySortedBy, UserKeyOf, TypeOf, LinearLowerBound,
         FirstNotBelow;
    var lookup := LookupKey(k, s);
    var i := FirstNotBelow(IndexEntries(blocks), lookup, InternalKeyCmp);
    IndexReads(blocks, filter);
    IndexSearch(blocks, filter, lookup, i);
    if i < |blocks| {
      DataBlockReads(blocks, filter, i);
      DataSearch(blocks, filter, lookup, i);
    } else {
      NothingFound(blocks, lookup);
    }
  }

  lemma NothingFound(blocks: seq<seq<KV>>, lookup: Bytes)
    requires NoEmptyBlock(blocks) && StrictlySortedBy(InternalKeyCmp, FlatBlocks(blocks))
    requires FirstNotBelow(IndexEntries(blocks), lookup, InternalKeyCmp) == |blocks|
    ensures LinearLowerBound(FlatBlocks(blocks), lookup, InternalKeyCmp) == None
  {
    hide FlatBlocks, InternalKeyCmp, TotalPreorder, StrictlySortedBy, IndexEntries, LinearLowerBound;
    ComparatorsAreTotalPreorders();
    TwoLevelSearch(blocks, lookup, InternalKeyCmp, |blocks|);
  }

  /** The check of the found pair. */
  function Found(r: Option<KV>, k: Bytes): Result<Option<(ValueType, Bytes)>> {
    match r
    case None => Ok(None)
    case Some(found) =>
      if UserKeyOf(found.key) != k then Ok(None)
      else
        match TypeOf(found.key)
        case None => Corrupted
        case Some(t) => Ok(Some((t, found.value)))
  }

  // ----- the end-to-end lookup ----------------------------------------------------------------

  /** A lookup's answer for an entry. */
  function Answer(e: Option<Entry>): Option<(ValueType, Bytes)> {
    match e
    case None => None
    case Some(x) => Some((x.ik.vtype, x.value))
  }

  lemma FoundPair(e: Entry, k: Bytes)
    requires e.Seqno() < U64_LIMIT
    ensures Found(Some(Pair(e)), k) == Ok(if e.Key() == k then Some((e.ik.vtype, e.value)) else None)
  {
    hide UserKeyOf, TypeOf, InternalKeys.Encode;
    EncodeRoundTrip(e.ik);
  }

  lemma FilterReads(es: seq<Entry>, bits: Bytes, probes: Byte)
    ensures FromBytes(FilterOf(bits, probes, es)) == Some((InsertedAll(bits, probes, UserKeys(es)), probes))
  {
    var after := InsertedAll(bits, probes, UserKeys(es));
    assert (after + [probes])[..|after|] == after;
  }

  /** Every stored user key passes the filter. */
  lemma StoredKeyPasses(es: seq<Entry>, bits: Bytes, probes: Byte, e: Entry)
    requires BitCount(bits) != 0 && e in es
    ensures MayContain(InsertedAll(bits, probes, UserKeys(es)), probes, e.Key())
  {
    var j: nat :| j < |es| && es[j] == e;
    InsertedKeysAnswer(bits, probes, UserKeys(es), j);
  }

  lemma {:induction false} BitCountKept(bits: Bytes, k: nat, keys: seq<Bytes>)
    ensures BitCount(InsertedAll(bits, k, keys)) == BitCount(bits)
    decreases |keys|
  {
    hide Inserted;
    if keys != [] {
      BitCountKept(Inserted(bits, k, keys[0]), k, keys[1..]);
    }
  }

  lemma SearchIsNewest(es: seq<Entry>, k: Bytes, s: nat)
    requires Ascending(es) && SeqnosFit(es) && s < U64_LIMIT
    ensures Found(LinearLowerBound(Pairs(es), LookupKey(k, s), InternalKeyCmp), k) == Ok(Answer(Newest(SetOf(es), k, s)))
  {
    hide InternalKeyCmp, LookupKey, Pair, LinearLowerBound, Found, Ascending;
    SentinelSearch(es, k, s);
    SearchSortedIsNewest(es, k, s);
    var i := FirstCandidate(es, k, s);
    if i < |es| {
      assert es[i] in es;
      FoundPair(es[i], k);
    } else {
      NothingIsFound(k);
    }
  }

  lemma NothingIsFound(k: Bytes)
    ensures Found(None, k) == Ok(None)
  {
  }

  lemma TableOpens(es: seq<Entry>, target: nat, bits: Bytes, probes: Byte)
    requires Ascending(es) && TableOfFits(es, target, bits, probes)
    ensures var blocks := DataBlocks(Pairs(es), target);
            && NoEmptyBlock(blocks) && TableFits(blocks, FilterOf(bits, probes, es)) && FlatBlocks(blocks) == Pairs(es)
            && StrictlySortedBy(InternalKeyCmp, FlatBlocks(blocks))
            && Open(TableOf(es, target, bits, probes)) == Ok(ReaderOf(blocks, FilterOf(bits, probes, es)))
            && ReaderOf(blocks, FilterOf(bits, probes, es)).bloom == Some((InsertedAll(bits, probes, UserKeys(es)), probes))
  {
    DataBlocksPartition(Pairs(es), target);
    PairsSorted(es);
    FilterReads(es, bits, probes);
    hide DataBlocks, FlatBlocks, FilterOf, TableFits, TableBytes, Open, StrictlySortedBy, Ascending, FromBytes, DataBytes, IndexEntries, BlockBytes, IndexHandle;
    OpenTable(DataBlocks(Pairs(es), target), FilterOf(bits, probes, es));
  }

  /**
   * A table end to end: building, finishing and opening the file of any sorted list gives a lookup that
   * answers with the newest version of the key at or below the snapshot, deletions included.
   */
  lemma TableGetIsNewest(es: seq<Entry>, target: nat, bits: Bytes, probes: Byte, k: Bytes, s: nat)
    requires Ascending(es) && TableOfFits(es, target, bits, probes) && s < U64_LIMIT
    requires BitCount(bits) != 0
    ensures Open(TableOf(es, target, bits, probes)).Ok?
    ensures GetEntry(Open(TableOf(es, target, bits, probes)).value, k, s) == Ok(Answer(Newest(SetOf(es), k, s)))
  {
    hide DataBlocks, FlatBlocks, FilterOf, TableFits, TableBytes, Open, StrictlySortedBy, Ascending, ReaderOf, MayContain, Found, LinearLowerBound,
         InternalKeyCmp, LookupKey, InsertedAll, BitCount, Pairs, UserKeys, TableOf, TableOfFits, GetEntry;
    TableOpens(es, target, bits, probes);
    var blocks := DataBlocks(Pairs(es), target);
    var t := ReaderOf(blocks, FilterOf(bits, probes, es));
    if MayContain(t.bloom.value.0, t.bloom.value.1, k) {
      assert SeqnosFit(es) by { FitsSeqnos(es, target, bits, probes); }
      LookupIsLinear(blocks, FilterOf(bits, probes, es), k, s);
      SearchIsNewest(es, k, s);
    } else {
      FilterDenies(t, k, s);
      forall e | e in es ensures !VisibleAt(e, k, s) {
        StoredKeyPasses(es, bits, probes, e);
      }
      NothingVisible(SetOf(es), k, s);
    }
  }

  lemma FitsSeqnos(es: seq<Entry>, target: nat, bits: Bytes, probes: Byte)
    requires TableOfFits(es, target, bits, probes)
    ensures SeqnosFit(es)
  {
  }

  lemma FilterDenies(t: Reader, k: Bytes, s: nat)
    requires t.bloom.Some? && !MayContain(t.bloom.value.0, t.bloom.value.1, k)
    ensures GetEntry(t, k, s) == Ok(None)
  {
  }

  /**
   * The condition on the filter is exact: for a table that holds anything, lookups are right for every
   * key and snapshot if and only if the filter's bit count survives its cast to u32.
   */
  lemma TableGetIsNewestIff(es: seq<Entry>, target: nat, bits: Bytes, probes: Byte)
    requires Ascending(es) && es != [] && TableOfFits(es, target, bits, probes)
    ensures Open(TableOf(es, target, bits, probes)).Ok?
    ensures (forall k, s: nat :: s < U64_LIMIT ==>
               GetEntry(Open(TableOf(es, target, bits, probes)).value, k, s) == Ok(Answer(Newest(SetOf(es), k, s))))
            <==> BitCount(bits) != 0
  {
    TableOpens(es, target, bits, probes);
    FitsSeqnos(es, target, bits, probes);
    hide DataBlocks, FlatBlocks, FilterOf, TableFits, TableBytes, Open, StrictlySortedBy, Ascending, ReaderOf, InsertedAll, Pairs, UserKeys, TableOf, TableOfFits, GetEntry;
    if BitCount(bits) != 0 {
      forall k, s: nat | s < U64_LIMIT
        ensures GetEntry(Open(TableOf(es, target, bits, probes)).value, k, s) == Ok(Answer(Newest(SetOf(es), k, s)))
      {
        TableGetIsNewest(es, target, bits, probes, k, s);
      }
    } else {
      var e := es[0];
      assert e in es;
      BitCountKept(bits, probes, UserKeys(es));
      FilterDenies(Open(TableOf(es, target, bits, probes)).value, e.Key(), e.Seqno());
      NewestExists(SetOf(es), e.Key(), e.Seqno(), e);
    }
  }

  // ----- iteration ----------------------------------------------------------------------------

  /** `parse_data_handles`: an unreadable index or handle is an error. */
  function DataHandles(index: seq<KV>): Result<seq<Handle>> {
    if index == [] then Ok([])
    else
      var h :- DecodeHandle(index[0].value);
      var rest :- DataHandles(index[1..]);
      Ok([h.0] + rest)
  }

  function ReadHandles(data: Bytes, indexHandle: Handle): Result<seq<Handle>> {
    var bytes :- Slice(data, indexHandle);
    var index :- ParseBlock(bytes);
    DataHandles(BlockEntries(index))
  }

  /** The loop of `parse_data_handles` over the index block. */
  method ParseDataHandles(data: Bytes, indexHandle: Handle) returns (r: Result<seq<Handle>>)
    ensures r == ReadHandles(data, indexHandle)
  {
    hide DecodeHandle, ParseBlock, BlockEntries, DataHandles, Prepend, IterFrom, Slice;
    var bytes :- Slice(data, indexHandle);
    var index :- ParseBlock(bytes);
    var it := new BlockIter(index);
    var handles: seq<Handle> := [];
    ghost var all := it.Remaining();
    PrependMore([], Handle(0, 0), DataHandles(all));
    var entry := it.Next();
    ghost var left := FrontOf(entry, it.Remaining());
    while entry.Some?
      invariant it.block.Valid() && left == FrontOf(entry, it.Remaining())
      invariant Prepend(handles, DataHandles(left)) == DataHandles(all)
      decreases |left|
    {
      HandleOneMore(entry.value, it.Remaining());
      var h := DecodeHandle(entry.value.value);
      if h.Corrupted? {
        NoHandleRead(handles);
        return Corrupted;
      }
      PrependMore(handles, h.value.0, DataHandles(it.Remaining()));
      handles := handles + [h.value.0];
      entry := it.Next();
      left := FrontOf(entry, it.Remaining());
    }
    NoHandles();
    PrependMore(handles, Handle(0, 0), Ok([]));
    return Ok(handles);
  }

  /** The entry in hand and those behind it. */
  function FrontOf(entry: Option<KV>, rest: seq<KV>): seq<KV> {
    if entry.Some? then [entry.value] + rest else []
  }

  lemma HandleOneMore(entry: KV, rest: seq<KV>)
    ensures DataHandles([entry] + rest)
         == match DecodeHandle(entry.value)
            case Corrupted => Corrupted
            case Ok(h) => Prepend([h.0], DataHandles(rest))
  {
    hide DecodeHandle;
    assert ([entry] + rest)[1..] == rest;
  }

  lemma NoHandleRead(handles: seq<Handle>)
    ensures Prepend(handles, Corrupted) == Corrupted
  {
  }

  /** The entries of a data block; an unreadable one is skipped. */
  function EntriesAt(data: Bytes, h: Handle): Option<seq<KV>> {
    match Slice(data, h)
    case Corrupted => None
    case Ok(bytes) =>
      match ParseBlock(bytes)
      case Corrupted => None
      case Ok(block) => Some(BlockEntries(block))
  }

  function EntriesFrom(data: Bytes, handles: seq<Handle>): seq<KV> {
    if handles == [] then []
    else (match EntriesAt(data, handles[0]) case None => [] case Some(es) => es) + EntriesFrom(data, handles[1..])
  }

  /** An unreadable block costs its own entries and no others, and so does every other block. */
  lemma {:induction false} BlocksAreSeparate(data: Bytes, before: seq<Handle>, h: Handle, after: seq<Handle>)
    ensures EntriesFrom(data, before + [h] + after)
         == EntriesFrom(data, before) + (match EntriesAt(data, h) case None => [] case Some(es) => es) + EntriesFrom(data, after)
  {
    hide EntriesAt;
    if before == [] {
      assert (before + [h] + after)[1..] == after;
    } else {
      assert (before + [h] + after)[1..] == before[1..] + [h] + after;
      BlocksAreSeparate(data, before[1..], h, after);
    }
  }

  class TableIter {
    const data: Bytes
    const handles: seq<Handle>
    var handleIdx: nat
    var current: seq<KV>
    var currentPos: nat

    ghost predicate Valid()
      reads this
    {
      handleIdx <= |handles| && currentPos <= |current|
    }

    /** What the iterator has still to yield. */
    ghost function Remaining(): seq<KV>
      requires Valid()
      reads this
    {
      current[currentPos..] + EntriesFrom(data, handles[handleIdx..])
    }

    constructor (data: Bytes, handles: seq<Handle>)
      ensures Valid() && Remaining() == EntriesFrom(data, handles)
    {
      this.data := data;
      this.handles := handles;
      handleIdx, current, currentPos := 0, [], 0;
      new;
      assert handles[0..] == handles;
    }

    /** `into_table_iter`: only the handles are read, no data block is parsed; an unreadable index is an error. */
    static method Over(data: Bytes, indexHandle: Handle) returns (r: Result<TableIter>)
      ensures r.Ok? <==> ReadHandles(data, indexHandle).Ok?
      ensures r.Ok? ==> fresh(r.value) && r.value.Valid() && r.value.Remaining() == EntriesFrom(data, ReadHandles(data, indexHandle).value)
    {
      hide EntriesFrom;
      var handles :- ParseDataHandles(data, indexHandle);
      var it := new TableIter(data, handles);
      return Ok(it);
    }

    /** `advance_to_next_block`: the next readable block replaces the exhausted one. */
    method AdvanceToNextBlock() returns (found: bool)
      requires Valid() && currentPos == |current|
      modifies this
      ensures Valid() && Remaining() == old(Remaining())
      ensures found ==> handleIdx > old(handleIdx)
      ensures !found ==> Remaining() == [] && current == []
    {
      hide EntriesAt;
      while handleIdx < |handles|
        invariant Valid() && currentPos == |current| && handleIdx >= old(handleIdx)
        invariant Remaining() == old(Remaining())
      {
        var h := handles[handleIdx];
        assert handles[handleIdx..] == [h] + handles[handleIdx + 1..];
        handleIdx := handleIdx + 1;
        var entries := EntriesAt(data, h);
        if entries.Some? {
          current, currentPos := entries.value, 0;
          return true;
        }
      }
      current, currentPos := [], 0;
      return false;
    }

    /** `next`. */
    method Next() returns (r: Option<KV>)
      requires Valid()
      modifies this
      ensures Valid()
      ensures r.None? ==> old(Remaining()) == [] && Remaining() == []
      ensures r.Some? ==> old(Remaining()) == [r.value] + Remaining()
    {
      while true
        invariant Valid() && Remaining() == old(Remaining())
        decreases |handles| - handleIdx
      {
        if currentPos < |current| {
          var item := current[currentPos];
          assert current[currentPos..] == [item] + current[currentPos + 1..];
          currentPos := currentPos + 1;
          return Some(item);
        }
        var found := AdvanceToNextBlock();
        if !found {
          return None;
        }
      }
    }
  }

  lemma BlockEntriesRead(blocks: seq<seq<KV>>, filter: Bytes, i: nat)
    requires NoEmptyBlock(blocks) && TableFits(blocks, filter) && i < |blocks|
    ensures EntriesAt(TableBytes(blocks, filter), HandleAt(blocks, i)) == Some(blocks[i])
  {
    assert Fits(blocks[i]);
    hide BlockBytes, TableBytes, TableFits, HandleAt, Built, BlockEntries, Fits, ParseBlock, Slice;
    DataBlockReads(blocks, filter, i);
    ParseBuilt(blocks[i]);
    EntriesBuilt(blocks[i]);
  }

  function Handles(blocks: seq<seq<KV>>): (r: seq<Handle>)
    ensures |r| == |blocks|
  {
    seq(|blocks|, i requires 0 <= i < |blocks| => HandleAt(blocks, i))
  }

  lemma {:induction false} HandlesDecode(blocks: seq<seq<KV>>, filter: Bytes, i: nat)
    requires NoEmptyBlock(blocks) && TableFits(blocks, filter) && i <= |blocks|
    ensures DataHandles(IndexEntries(blocks)[i..]) == Ok(Handles(blocks)[i..])
    decreases |blocks| - i
  {
    hide TableFits, TableBytes, Slice, Searchable, BlockBytes, Built, HandleAt, EncodeHandle, DecodeHandle, IndexEntries, DataHandles, NoEmptyBlock;
    if i < |blocks| {
      DataBlockReads(blocks, filter, i);
      HandlesDecode(blocks, filter, i + 1);
      DataHandlesStep(IndexEntries(blocks), i, HandleAt(blocks, i));
      assert [Handles(blocks)[i]] + Handles(blocks)[i + 1..] == Handles(blocks)[i..];
    } else {
      NoHandles();
      assert IndexEntries(blocks)[i..] == [] && Handles(blocks)[i..] == [];
    }
  }

  lemma NoHandles()
    ensures DataHandles([]) == Ok([])
  {
  }

  lemma DataHandlesStep(index: seq<KV>, i: nat, h: Handle)
    requires i < |index| && DecodeHandle(index[i].value).Ok? && DecodeHandle(index[i].value).value.0 == h
    requires DataHandles(index[i + 1..]).Ok?
    ensures DataHandles(index[i..]) == Ok([h] + DataHandles(index[i + 1..]).value)
  {
    hide DecodeHandle;
    assert index[i..][1..] == index[i + 1..];
  }

  lemma {:induction false} AllEntriesRead(blocks: seq<seq<KV>>, filter: Bytes, i: nat)
    requires NoEmptyBlock(blocks) && TableFits(blocks, filter) && i <= |blocks|
    ensures FlatBlocks(blocks[..i]) + EntriesFrom(TableBytes(blocks, filter), Handles(blocks)[i..]) == FlatBlocks(blocks)
    decreases |blocks| - i
  {
    hide TableFits, HandleAt, TableBytes, EntriesAt, FlatBlocks;
    if i < |blocks| {
      BlockEntriesRead(blocks, filter, i);
      AllEntriesRead(blocks, filter, i + 1);
      assert Handles(blocks)[i..][1..] == Handles(blocks)[i + 1..];
      assert blocks[..i + 1] == blocks[..i] + [blocks[i]];
      FlatBlocksPush(blocks[..i], blocks[i]);
      var rest := EntriesFrom(TableBytes(blocks, filter), Handles(blocks)[i + 1..]);
      assert FlatBlocks(blocks[..i]) + blocks[i] + rest == FlatBlocks(blocks[..i]) + (blocks[i] + rest);
    } else {
      assert blocks[..i] == blocks;
      assert Handles(blocks)[i..] == [];
      assert FlatBlocks(blocks) + [] == FlatBlocks(blocks);
    }
  }

  lemma HandlesRead(blocks: seq<seq<KV>>, filter: Bytes)
    requires NoEmptyBlock(blocks) && TableFits(blocks, filter)
    ensures var t := ReaderOf(blocks, filter); ReadHandles(t.data, t.indexHandle) == Ok(Handles(blocks))
  {
    assert Fits(IndexEntries(blocks));
    hide BlockBytes, TableBytes, TableFits, Built, BlockEntries, Fits, ParseBlock, Slice, IndexEntries, DataHandles, Handles, IndexHandle, DataBytes, FromBytes;
    IndexReads(blocks, filter);
    ParseBuilt(IndexEntries(blocks));
    EntriesBuilt(IndexEntries(blocks));
    HandlesDecode(blocks, filter, 0);
    assert IndexEntries(blocks)[0..] == IndexEntries(blocks) && Handles(blocks)[0..] == Handles(blocks);
  }

  /** Iterating the file of any sorted list yields exactly the list, in order. */
  lemma TableIterYieldsAll(es: seq<Entry>, target: nat, bits: Bytes, probes: Byte)
    requires Ascending(es) && TableOfFits(es, target, bits, probes)
    ensures Open(TableOf(es, target, bits, probes)).Ok?
    ensures var t := Open(TableOf(es, target, bits, probes)).value;
            && ReadHandles(t.data, t.indexHandle).Ok?
            && EntriesFrom(t.data, ReadHandles(t.data, t.indexHandle).value) == Pairs(es)
  {
    hide DataBlocks, FlatBlocks, FilterOf, TableFits, TableBytes, Open, StrictlySortedBy, Ascending, Pairs, TableOf, TableOfFits,
         ReadHandles, EntriesFrom, InternalKeyCmp, Handles, IndexHandle, FromBytes, IndexEntries, DataBytes, BlockBytes;
    TableOpens(es, target, bits, probes);
    var blocks := DataBlocks(Pairs(es), target);
    HandlesRead(blocks, FilterOf(bits, probes, es));
    AllEntriesRead(blocks, FilterOf(bits, probes, es), 0);
    NoBlocks();
    assert blocks[..0] == [] && Handles(blocks)[0..] == Handles(blocks);
    assert [] + EntriesFrom(TableBytes(blocks, FilterOf(bits, probes, es)), Handles(blocks)) == EntriesFrom(TableBytes(blocks, FilterOf(bits, probes, es)), Handles(blocks));
  }
}
