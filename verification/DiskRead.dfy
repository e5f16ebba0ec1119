/** Point reads from the bytes of the table files: where the file formats and the layered search meet. */
module DiskReads {
  import opened ByteStrings
  import opened InternalKeys
  import opened VersionedEntries
  import opened Manifest
  import opened Versions
  import opened Bloom
  import opened TableReaders
  import opened Stores
  import opened Lookups

  /** These are the bytes of a finished table of these entries, with a filter of a usable size. */
  ghost predicate FileHolds(bytes: Bytes, es: seq<Entry>) {
    && Ascending(es)
    && exists target, bits, probes ::
         BitCount(bits) != 0 && TableOfFits(es, target, bits, probes) && bytes == TableOf(es, target, bits, probes)
  }

  /** Every file of the version is on disk with its contents. */
  ghost predicate FilesHold(v: Version, files: map<nat, Bytes>, tables: map<nat, seq<Entry>>)
    requires v.Valid()
  {
    forall l, f :: 0 <= l < NUM_LEVELS && f in v.files[l] ==> f.number in files && FileHolds(files[f.number], Contents(tables, f))
  }

  /** Opening a file and looking the key up in it. */
  function FileGet(files: map<nat, Bytes>, n: nat, k: Bytes, s: nat): Result<Option<(ValueType, Bytes)>> {
    if n !in files then Corrupted
    else
      var t :- Open(files[n]);
      GetEntry(t, k, s)
  }

  /** A lookup in the bytes of a table is the sorted search of the entries it was built from. */
  lemma BytesAnswerLikeEntries(bytes: Bytes, es: seq<Entry>, k: Bytes, s: nat)
    requires FileHolds(bytes, es) && s < U64_LIMIT
    ensures Open(bytes).Ok? && GetEntry(Open(bytes).value, k, s) == Ok(Answer(SearchSorted(es, k, s)))
  {
    var target, bits, probes :|
      BitCount(bits) != 0 && TableOfFits(es, target, bits, probes) && bytes == TableOf(es, target, bits, probes);
    hide *;
    TableGetIsNewest(es, target, bits, probes, k, s);
    SearchSortedIsNewest(es, k, s);
  }

  lemma FileAnswersLikeEntries(v: Version, files: map<nat, Bytes>, tables: map<nat, seq<Entry>>, l: nat, f: FileMeta, k: Bytes, s: nat)
    requires v.Valid() && FilesHold(v, files, tables) && l < NUM_LEVELS && f in v.files[l] && s < U64_LIMIT
    ensures FileGet(files, f.number, k, s) == Ok(Answer(SearchSorted(Contents(tables, f), k, s)))
  {
    hide FileHolds, Open, GetEntry, SearchSorted, Contents;
    BytesAnswerLikeEntries(files[f.number], Contents(tables, f), k, s);
  }

  function ReadAnswer(a: Option<(ValueType, Bytes)>): Option<Bytes> {
    match a
    case None => None
    case Some(p) => if p.0.Put? then Some(p.1) else None
  }

  /** `get_from_sstables` over the files themselves. */
  method GetFromFiles(v: Version, files: map<nat, Bytes>, ghost tables: map<nat, seq<Entry>>, k: Bytes, s: nat) returns (r: Result<Option<Bytes>>)
    requires v.Valid() && s < U64_LIMIT
    ensures FilesHold(v, files, tables) ==> r == Ok(Read(SearchTables(v, tables, k, s)))
  {
    hide SearchSorted, FindFile, FilesHold, FileGet, Contents;
    ghost var holds := FilesHold(v, files, tables);
    var zero := v.files[0];
    var i: nat := |zero|;
    assert zero[..i] == zero;
    while i > 0
      invariant i <= |zero|
      invariant holds ==> SearchLevelZero(zero[..i], tables, k, s) == SearchLevelZero(zero, tables, k, s)
    {
      assert zero[..i][..i - 1] == zero[..i - 1];
      i := i - 1;
      if holds { FileAnswersLikeEntries(v, files, tables, 0, zero[i], k, s); }
      var hit := FileGet(files, zero[i].number, k, s);
      if hit.Corrupted? {
        return Corrupted;
      }
      if hit.value.Some? {
        return Ok(ReadAnswer(hit.value));
      }
    }
    var level := 1;
    while level < NUM_LEVELS
      invariant 1 <= level <= NUM_LEVELS
      invariant holds ==> SearchLevelZero(zero, tables, k, s) == None
      invariant holds ==> SearchDeeper(v, tables, k, s, level) == SearchDeeper(v, tables, k, s, 1)
    {
      var f := FindFileForKey(v.files[level], k);
      if f.Some? {
        if holds { FileAnswersLikeEntries(v, files, tables, level, f.value, k, s); }
        var hit := FileGet(files, f.value.number, k, s);
        if hit.Corrupted? {
          return Corrupted;
        }
        if hit.value.Some? {
          return Ok(ReadAnswer(hit.value));
        }
      }
      level := level + 1;
    }
    return Ok(None);
  }

  /** `get_at`, down to the bytes: memtable first, then the files. */
  method GetFromDisk(v: Version, mem: seq<Entry>, files: map<nat, Bytes>, ghost tables: map<nat, seq<Entry>>, k: Bytes, s: nat)
    returns (r: Result<Option<Bytes>>)
    requires v.Valid() && s < U64_LIMIT
    ensures var st := Store(v, mem, tables);
            FilesHold(v, files, tables) && LayersOk(st) && SortedLevels(v) ==> r == Ok(View(Stored(st), k, s))
  {
    ghost var st := Store(v, mem, tables);
    var hit := SearchSorted(mem, k, s);
    if LayersOk(st) && SortedLevels(v) { FirstHitIsNewest(st, k, s); }
    hide LayersOk, SortedLevels, FilesHold, SearchSorted, SearchTables, View;
    if hit.Some? {
      return Ok(Read(hit));
    }
    r := GetFromFiles(v, files, tables, k, s);
  }
}
