/** The sizes a compaction and a flush go by, as the table builder reports them. */
module TableSizes {
  import opened ByteStrings
  import opened Varints
  import opened VersionedEntries
  import opened Blocks
  import opened Tables
  import opened TableReaders
  import opened Engine

  /** The options of a database: its thresholds, and the sizes of the tables its builder makes. */
  function ProgramOptions(flushEntries: nat, maxBytes: nat, blockTarget: nat, probes: Byte, bitsPerKey: nat): Options {
    Options(flushEntries, maxBytes,
            (es: seq<Entry>) => BuilderEstimate(Pairs(es), blockTarget),
            (es: seq<Entry>) => |TableOf(es, blockTarget, FilterBits(blockTarget, bitsPerKey), probes)|)
  }

  /** A table is never empty on disk. */
  lemma TableHasFooter(es: seq<Entry>, target: nat, bits: Bytes, probes: Byte)
    ensures |TableOf(es, target, bits, probes)| >= TABLE_FOOTER_LEN
  {
    DataBlocksPartition(Pairs(es), target);
    hide DataBlocks, DataBytes, BlockBytes, IndexEntries, Footer, EncodeHandle, FilterOf;
  }

  lemma OneInBlock(kv: KV)
    ensures Estimate([kv]) == |EntryBytes(0, kv)| + 8 && |BlockBytes([kv])| == |EntryBytes(0, kv)| + 8
    ensures Estimate([]) == 8
  {
    hide EntryBytes;
    assert [kv][..0] == [];
    assert Body([kv]) == Body([]) + EntryBytes(0, kv);
  }

  /** One entry: its encoding, and the bookkeeping of one or two blocks. */
  lemma EstimateOfOne(kv: KV, target: nat)
    ensures |EntryBytes(0, kv)| + 8 <= BuilderEstimate([kv], target) <= |EntryBytes(0, kv)| + 16
  {
    hide EntryBytes, Estimate, BlockBytes;
    OneInBlock(kv);
    assert [kv][1..] == [] && [] + [kv] == [kv];
    assert AddEntries(Cutter([], []), [kv], target) == AddEntry(Cutter([], []), kv, target);
    DataBytesPush([], [kv]);
    assert [] + [[kv]] == [[kv]];
  }

  /** Two entries whose keys share nothing take the space of both encodings, wherever a block ends. */
  lemma EstimateOfTwo(a: KV, b: KV, target: nat)
    requires CommonPrefix(a.key, b.key) == 0
    ensures BuilderEstimate([a, b], target) >= |EntryBytes(0, a)| + |EntryBytes(0, b)| + 8
  {
    hide EntryBytes, Estimate, BlockBytes, CommonPrefix;
    OneInBlock(a);
    OneInBlock(b);
    TwoInBlock(a, b);
    assert [] + [a] == [a] && [] + [b] == [b];
    var one := AddEntry(Cutter([], []), a, target);
    assert AddEntries(Cutter([], []), [a], target) == one by { assert [a][1..] == []; }
    AddEntriesPush(Cutter([], []), [a], b, target);
    assert [a] + [b] == [a, b];
    assert AddEntries(Cutter([], []), [a, b], target) == AddEntry(one, b, target);
    DataBytesPush([], [a]);
    DataBytesPush([], [a, b]);
    DataBytesPush([[a]], [b]);
    assert [] + [[a]] == [[a]] && [] + [[a, b]] == [[a, b]];
  }

  lemma TwoInBlock(a: KV, b: KV)
    requires CommonPrefix(a.key, b.key) == 0
    ensures Estimate([a, b]) == |EntryBytes(0, a)| + |EntryBytes(0, b)| + 8
    ensures |BlockBytes([a, b])| == |EntryBytes(0, a)| + |EntryBytes(0, b)| + 8
  {
    hide EntryBytes, CommonPrefix;
    OneInBlock(a);
    assert [a, b][..1] == [a];
    assert Body([a, b]) == Body([a]) + EntryBytes(0, b);
  }

  /** The length of an entry at a restart point whose key is short and whose value length takes three bytes. */
  lemma LongEntry(kv: KV)
    requires |kv.key| < 0x80 && 0x4000 <= |kv.value| < 0x20_0000
    ensures |EntryBytes(0, kv)| == 5 + |kv.key| + |kv.value|
  {
    assert |Varint(0)| == 1 && |Varint(|kv.key|)| == 1;
    var n := |kv.value|;
    assert |Varint(n / 0x80 / 0x80)| == 1;
    assert |Varint(n / 0x80)| == 2;
    assert |Varint(n)| == 3;
  }
}
