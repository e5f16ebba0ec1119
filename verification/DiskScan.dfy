/** Scans and compactions down to the bytes: tables read through their iterators, merged, and written again. */
module DiskScans {
  import opened ByteStrings
  import opened InternalKeys
  import opened VersionedEntries
  import opened Blocks
  import opened Bloom
  import opened Tables
  import opened TableReaders
  import opened Manifest
  import opened Versions
  import opened Compactions
  import opened CompactionOutputs
  import opened Iterators
  import opened Stores
  import opened Engine
  import opened CompactionRuns
  import opened Scans
  import opened DiskReads

  // ----- reading a file -----------------------------------------------------------------------

  /** A pair as an entry; one whose key does not decode is passed over. */
  function DecodedPair(kv: KV): seq<Entry> {
    match InternalKeys.Decode(kv.key)
    case Corrupted => []
    case Ok(ik) => [Entry(ik, kv.value)]
  }

  function Decoded(kvs: seq<KV>): seq<Entry> {
    if kvs == [] then [] else DecodedPair(kvs[0]) + Decoded(kvs[1..])
  }

  /** A pair whose key does not decode costs itself only. */
  lemma {:induction false} PairsAreSeparate(before: seq<KV>, kv: KV, after: seq<KV>)
    ensures Decoded(before + [kv] + after) == Decoded(before) + (if InternalKeys.Decode(kv.key).Ok? then DecodedPair(kv) else []) + Decoded(after)
  {
    hide InternalKeys.Decode;
    if before == [] {
      assert ([kv] + after)[1..] == after && before + [kv] + after == [kv] + after;
    } else {
      assert (before + [kv] + after)[1..] == before[1..] + [kv] + after;
      PairsAreSeparate(before[1..], kv, after);
    }
  }

  lemma {:induction false} DecodedPairs(es: seq<Entry>)
    requires SeqnosFit(es)
    ensures Decoded(Pairs(es)) == es
  {
    hide InternalKeys.Encode, InternalKeys.Decode;
    if es != [] {
      assert es[0] in es;
      EncodeRoundTrip(es[0].ik);
      assert Pairs(es)[0] == Pair(es[0]) && Pairs(es)[1..] == Pairs(es[1..]);
      DecodedPairs(es[1..]);
    }
  }

  /** What iterating the whole file gives. */
  function FileEntries(bytes: Bytes): Result<seq<Entry>> {
    var t :- TableReaders.Open(bytes);
    var handles :- ReadHandles(t.data, t.indexHandle);
    Ok(Decoded(EntriesFrom(t.data, handles)))
  }

  /** Opening a file and draining its iterator. */
  method LoadFile(bytes: Bytes) returns (r: Result<seq<Entry>>)
    ensures r == FileEntries(bytes)
  {
    hide TableReaders.Open, ReadHandles, EntriesFrom, DecodedPair;
    var t :- TableReaders.Open(bytes);
    var it :- TableIter.Over(t.data, t.indexHandle);
    ghost var all := it.Remaining();
    var es: seq<Entry> := [];
    while true
      invariant it.Valid() && es + Decoded(it.Remaining()) == Decoded(all)
      decreases |it.Remaining()|
    {
      ghost var left := it.Remaining();
      var kv := it.Next();
      if kv.None? {
        break;
      }
      assert left[1..] == it.Remaining();
      es := es + DecodedPair(kv.value);
    }
    assert es + Decoded([]) == es;
    return Ok(es);
  }

  /** The file of a table reads back as the table's entries. */
  lemma FileReadsBack(bytes: Bytes, es: seq<Entry>)
    requires FileHolds(bytes, es)
    ensures FileEntries(bytes) == Ok(es)
  {
    var target, bits, probes :|
      BitCount(bits) != 0 && TableOfFits(es, target, bits, probes) && bytes == TableOf(es, target, bits, probes);
    hide *;
    TableIterYieldsAll(es, target, bits, probes);
    FitsSeqnos(es, target, bits, probes);
    DecodedPairs(es);
    EntriesRead(bytes, Pairs(es));
  }

  lemma EntriesRead(bytes: Bytes, kvs: seq<KV>)
    requires TableReaders.Open(bytes).Ok?
    requires var t := TableReaders.Open(bytes).value;
             && ReadHandles(t.data, t.indexHandle).Ok?
             && EntriesFrom(t.data, ReadHandles(t.data, t.indexHandle).value) == kvs
    ensures FileEntries(bytes) == Ok(Decoded(kvs))
  {
    hide TableReaders.Open, ReadHandles, EntriesFrom;
  }

  /** These files are on disk with their contents. */
  ghost predicate Held(files: map<nat, Bytes>, metas: seq<FileMeta>, tables: map<nat, seq<Entry>>) {
    forall f :: f in metas ==> f.number in files && FileHolds(files[f.number], Contents(tables, f))
  }

  /** The file of this number is there and can be read. */
  predicate Readable(files: map<nat, Bytes>, n: nat) {
    n in files && FileEntries(files[n]).Ok?
  }

  /** Every file of a list, read whole; a missing or unreadable one is an error. */
  method LoadFiles(files: map<nat, Bytes>, metas: seq<FileMeta>, ghost tables: map<nat, seq<Entry>>) returns (r: Result<map<nat, seq<Entry>>>)
    ensures r.Ok? <==> forall i :: 0 <= i < |metas| ==> Readable(files, metas[i].number)
    ensures r.Ok? ==> forall i :: 0 <= i < |metas| ==> metas[i].number in r.value && FileEntries(files[metas[i].number]) == Ok(r.value[metas[i].number])
    ensures Held(files, metas, tables) ==> r.Ok? && forall f :: f in metas ==> Contents(r.value, f) == Contents(tables, f)
  {
    hide FileHolds, FileEntries;
    var loaded: map<nat, seq<Entry>> := map[];
    for i := 0 to |metas|
      invariant Held(files, metas, tables) ==> forall j :: 0 <= j < i ==> Contents(loaded, metas[j]) == Contents(tables, metas[j])
      invariant forall n :: n in loaded ==> n in files && FileEntries(files[n]) == Ok(loaded[n])
      invariant forall j :: 0 <= j < i ==> metas[j].number in loaded
    {
      var f := metas[i];
      if f.number !in files {
        assert !Readable(files, f.number);
        return Corrupted;
      }
      if Held(files, metas, tables) {
        FileReadsBack(files[f.number], Contents(tables, f));
        forall j | 0 <= j < i && metas[j].number == f.number ensures Contents(tables, metas[j]) == Contents(tables, f) { }
      }
      var es := LoadFile(files[f.number]);
      if es.Corrupted? {
        assert !Readable(files, f.number);
        return Corrupted;
      }
      loaded := loaded[f.number := es.value];
    }
    return Ok(loaded);
  }

  lemma LoadedAgree(v: Version, files: map<nat, Bytes>, tables: map<nat, seq<Entry>>, loaded: map<nat, seq<Entry>>)
    requires v.Valid() && forall f :: f in FilesFrom(v, 0) ==> Contents(loaded, f) == Contents(tables, f)
    ensures Agree(v, tables, loaded)
  {
    hide Contents, FilesFrom;
    forall l, f | 0 <= l < NUM_LEVELS && f in v.files[l] ensures Contents(loaded, f) == Contents(tables, f) {
      FilesFromMembers(v, 0, f);
    }
  }

  lemma AllAreHeld(v: Version, files: map<nat, Bytes>, tables: map<nat, seq<Entry>>)
    requires v.Valid() && FilesHold(v, files, tables)
    ensures Held(files, FilesFrom(v, 0), tables)
  {
    hide FileHolds, Contents, FilesFrom;
    forall f | f in FilesFrom(v, 0) ensures f.number in files && FileHolds(files[f.number], Contents(tables, f)) {
      FilesFromMembers(v, 0, f);
    }
  }

  /** A scan of the memtable and the table files: exactly the keys the store shows at `s`, ascending, each with its value. */
  method ScanFromDisk(v: Version, mem: seq<Entry>, files: map<nat, Bytes>, ghost tables: map<nat, seq<Entry>>, s: nat)
    returns (pairs: seq<(Bytes, Bytes)>)
    requires v.Valid() && FilesHold(v, files, tables) && Sound(Store(v, mem, tables)) && NoRepeats(v)
    ensures KeysAscend(pairs)
    ensures forall k, value :: (k, value) in pairs <==> View(Stored(Store(v, mem, tables)), k, s) == Some(value)
  {
    hide FilesHold, Sound, NoRepeats, Stored, View, Held, FilesFrom, Contents, KeysAscend, Agree;
    AllAreHeld(v, files, tables);
    var loading := LoadFiles(files, FilesFrom(v, 0), tables);
    var loaded := loading.value;
    LoadedAgree(v, files, tables, loaded);
    AgreeingIsSound(v, mem, tables, loaded);
    pairs := CollectScan(Store(v, mem, loaded), s);
  }

  // ----- compacting from the files ------------------------------------------------------------

  lemma InputsAreHeld(v: Version, c: Compaction, files: map<nat, Bytes>, tables: map<nat, seq<Entry>>)
    requires v.Valid() && FilesHold(v, files, tables) && Chosen(v, c)
    ensures Held(files, Inputs(c), tables)
  {
    hide FileHolds, Contents, Chosen;
    forall f | f in Inputs(c) ensures f.number in files && FileHolds(files[f.number], Contents(tables, f)) {
      InputsAreFiles(v, c, f);
    }
  }

  lemma {:induction false} SameAllContents(files: seq<FileMeta>, a: map<nat, seq<Entry>>, b: map<nat, seq<Entry>>)
    requires forall f :: f in files ==> Contents(b, f) == Contents(a, f)
    ensures AllContents(b, files) == AllContents(a, files)
  {
    hide Contents;
    if files != [] {
      SameAllContents(files[1..], a, b);
    }
  }

  /** `do_compaction` from the bytes of its inputs: the outputs the engine describes. */
  method CompactFromDisk(v: Version, c: Compaction, files: map<nat, Bytes>, ghost mem: seq<Entry>, ghost tables: map<nat, seq<Entry>>,
                         oldest: nat, first: nat, opts: Options)
    returns (newFiles: seq<OutputFile>)
    requires v.Valid() && FilesHold(v, files, tables) && Sound(Store(v, mem, tables)) && NoRepeats(v) && Chosen(v, c)
    ensures var lists := OutputLists(Store(v, mem, tables), c, oldest, opts);
            NonEmpty(lists) && newFiles == OutputFiles(lists, first, opts)
  {
    hide FilesHold, Sound, NoRepeats, Chosen, Held, Inputs, Contents, AllContents, Iterators.InOrder, OutputLists, OutputFiles, Placed, NonEmpty;
    ghost var st := Store(v, mem, tables);
    InputsAreHeld(v, c, files, tables);
    InputsInOrder(st, c);
    var loading := LoadFiles(files, Inputs(c), tables);
    var loaded := loading.value;
    SameAllContents(Inputs(c), tables, loaded);
    var deleted, next;
    ghost var merged;
    newFiles, deleted, next, merged := DoCompaction(Store(v, [], loaded), c, oldest, first, opts);
    MergeIsUnique(st, c, merged, oldest, opts);
  }

  // ----- writing files ------------------------------------------------------------------------

  /** Every table is on disk. */
  ghost predicate Durable(files: map<nat, Bytes>, tables: map<nat, seq<Entry>>) {
    forall n :: n in tables ==> n in files && FileHolds(files[n], tables[n])
  }

  lemma DurableHolds(v: Version, files: map<nat, Bytes>, tables: map<nat, seq<Entry>>)
    requires v.Valid() && Durable(files, tables) && FilesOk(v, tables)
    ensures FilesHold(v, files, tables)
  {
    hide FileHolds;
    forall l, f | 0 <= l < NUM_LEVELS && f in v.files[l] ensures f.number in files && FileHolds(files[f.number], Contents(tables, f)) {
      assert FileOk(tables, f);
    }
  }

  /** A sorted list whose offsets and lengths fit the fields of the format. */
  ghost predicate Storable(es: seq<Entry>, target: nat, probes: Byte, bitsPerKey: nat) {
    Ascending(es) && TableOfFits(es, target, FilterBits(target, bitsPerKey), probes)
  }

  /** What the builder writes is a table file of its entries whenever its filter can be probed. */
  lemma BuiltFileHolds(es: seq<Entry>, target: nat, probes: Byte, bitsPerKey: nat)
    requires Storable(es, target, probes, bitsPerKey) && BitCount(FilterBits(target, bitsPerKey)) != 0
    ensures FileHolds(TableOf(es, target, FilterBits(target, bitsPerKey), probes), es)
  {
    hide Ascending, TableOfFits, TableOf, FilterBits, BitCount;
  }

  /** The whole of a flush or of one output: the file appears beside the others. */
  method WriteFile(es: seq<Entry>, n: nat, files: map<nat, Bytes>, ghost tables: map<nat, seq<Entry>>, target: nat, probes: Byte, bitsPerKey: nat)
    returns (files': map<nat, Bytes>)
    ensures files' == files[n := TableOf(es, target, FilterBits(target, bitsPerKey), probes)]
    ensures Durable(files, tables) && Storable(es, target, probes, bitsPerKey) && BitCount(FilterBits(target, bitsPerKey)) != 0 ==>
              Durable(files', tables[n := es])
  {
    hide FileHolds, Storable, FilterBits, BitCount, TableOf;
    var bytes := BuildTable(es, target, probes, bitsPerKey);
    if Storable(es, target, probes, bitsPerKey) && BitCount(FilterBits(target, bitsPerKey)) != 0 {
      BuiltFileHolds(es, target, probes, bitsPerKey);
    }
    return files[n := bytes];
  }

  ghost predicate AllStorable(outs: seq<OutputFile>, target: nat, probes: Byte, bitsPerKey: nat) {
    forall o :: o in outs ==> Storable(o.entries, target, probes, bitsPerKey)
  }

  /** The files once the outputs are written. */
  function WithFiles(files: map<nat, Bytes>, outs: seq<OutputFile>, target: nat, probes: Byte, bitsPerKey: nat): map<nat, Bytes>
    decreases |outs|
  {
    if outs == [] then files
    else
      var bytes := TableOf(outs[0].entries, target, FilterBits(target, bitsPerKey), probes);
      WithFiles(files[outs[0].meta.number := bytes], outs[1..], target, probes, bitsPerKey)
  }

  /** All outputs of a compaction, in order. */
  method WriteOutputs(outs: seq<OutputFile>, files: map<nat, Bytes>, ghost tables: map<nat, seq<Entry>>, target: nat, probes: Byte, bitsPerKey: nat)
    returns (files': map<nat, Bytes>)
    ensures files' == WithFiles(files, outs, target, probes, bitsPerKey)
    ensures Durable(files, tables) && AllStorable(outs, target, probes, bitsPerKey) && BitCount(FilterBits(target, bitsPerKey)) != 0 ==>
              Durable(files', WithTables(tables, outs))
  {
    hide Durable, Storable, FilterBits, BitCount, TableOf;
    files' := files;
    ghost var done: map<nat, seq<Entry>> := tables;
    ghost var fine := Durable(files, tables) && AllStorable(outs, target, probes, bitsPerKey) && BitCount(FilterBits(target, bitsPerKey)) != 0;
    assert outs[0..] == outs;
    for i := 0 to |outs|
      invariant WithTables(done, outs[i..]) == WithTables(tables, outs)
      invariant WithFiles(files', outs[i..], target, probes, bitsPerKey) == WithFiles(files, outs, target, probes, bitsPerKey)
      invariant fine ==> Durable(files', done)
    {
      assert outs[i] in outs && outs[i..][1..] == outs[i + 1..];
      files' := WriteFile(outs[i].entries, outs[i].meta.number, files', done, target, probes, bitsPerKey);
      done := done[outs[i].meta.number := outs[i].entries];
    }
  }

  /**
   * A compaction from files to files: the outputs are those the engine describes, and every table of the
   * store it leaves, old or new, is on disk again.
   */
  method CompactOnDisk(v: Version, c: Compaction, files: map<nat, Bytes>, ghost mem: seq<Entry>, ghost tables: map<nat, seq<Entry>>,
                       oldest: nat, first: nat, opts: Options, target: nat, probes: Byte, bitsPerKey: nat)
    returns (newFiles: seq<OutputFile>, files': map<nat, Bytes>)
    requires v.Valid() && Durable(files, tables) && Sound(Store(v, mem, tables)) && NoRepeats(v) && Chosen(v, c)
    ensures var lists := OutputLists(Store(v, mem, tables), c, oldest, opts);
            && NonEmpty(lists) && newFiles == OutputFiles(lists, first, opts)
            && files' == WithFiles(files, newFiles, target, probes, bitsPerKey)
            && (AllStorable(newFiles, target, probes, bitsPerKey) && BitCount(FilterBits(target, bitsPerKey)) != 0 ==>
                  Durable(files', WithTables(tables, newFiles)))
  {
    assert FilesOk(v, tables);
    hide Durable, FilesHold, FilesOk, Sound, NoRepeats, Chosen, OutputLists, OutputFiles, NonEmpty, AllStorable, WithTables, WithFiles, FilterBits, BitCount;
    DurableHolds(v, files, tables);
    newFiles := CompactFromDisk(v, c, files, mem, tables, oldest, first, opts);
    files' := WriteOutputs(newFiles, files, tables, target, probes, bitsPerKey);
  }
}
