/** Point reads: memtable, then level 0 newest file first, then one file of each deeper level. */
module Lookups {
  import opened ByteStrings
  import opened InternalKeys
  import opened VersionedEntries
  import opened Manifest
  import opened Versions
  import opened Compactions
  import opened CompactionOutputs
  import opened Stores
  import opened Engine
  import opened Invariants

  // ----- finding the file ---------------------------------------------------------------------

  /** The binary search for the first file whose smallest key is past `k`, whether or not the files are sorted. */
  function Search(files: seq<FileMeta>, k: Bytes, lo: nat, hi: nat): (i: nat)
    requires lo <= hi <= |files|
    ensures lo <= i <= hi
    decreases hi - lo
  {
    if lo == hi then lo
    else
      var mid := (lo + hi) / 2;
      if !Before(k, Lo(files[mid])) then Search(files, k, mid + 1, hi) else Search(files, k, lo, mid)
  }

  /** `find_file_for_key`. */
  function FindFile(files: seq<FileMeta>, k: Bytes): (r: Option<FileMeta>)
    ensures r.Some? ==> r.value in files && !Before(Hi(r.value), k)
  {
    var i := Search(files, k, 0, |files|);
    if i == 0 || Before(Hi(files[i - 1]), k) then None else Some(files[i - 1])
  }

  /** `partition_point` as a loop, and the check of the file before it. */
  method FindFileForKey(files: seq<FileMeta>, k: Bytes) returns (r: Option<FileMeta>)
    ensures r == FindFile(files, k)
  {
    var lo: nat, hi: nat := 0, |files|;
    while lo < hi
      invariant lo <= hi <= |files|
      invariant Search(files, k, lo, hi) == Search(files, k, 0, |files|)
      decreases hi - lo
    {
      var mid := (lo + hi) / 2;
      if !Before(k, Lo(files[mid])) {
        lo := mid + 1;
      } else {
        hi := mid;
      }
    }
    if lo == 0 {
      return None;
    }
    var f := files[lo - 1];
    return if Before(Hi(f), k) then None else Some(f);
  }

  /** Each file ends before the next one begins. */
  ghost predicate SortedLevel(files: seq<FileMeta>) {
    forall i, j :: 0 <= i < j < |files| ==> Before2(files[i], files[j])
  }

  /** Wherever the search ends, both neighbours of the end were looked at. */
  lemma {:induction false} SearchProbed(files: seq<FileMeta>, k: Bytes, lo: nat, hi: nat)
    requires lo <= hi <= |files|
    ensures var i := Search(files, k, lo, hi);
            && (i < hi ==> Before(k, Lo(files[i])))
            && (i > lo ==> !Before(k, Lo(files[i - 1])))
    decreases hi - lo
  {
    hide Before, Lo;
    if lo < hi {
      var mid := (lo + hi) / 2;
      if !Before(k, Lo(files[mid])) {
        SearchProbed(files, k, mid + 1, hi);
      } else {
        SearchProbed(files, k, lo, mid);
      }
    }
  }

  /** In a sorted level, the file found is exactly the one whose range contains the key, if any does. */
  lemma FindFileIsExact(files: seq<FileMeta>, k: Bytes, f: FileMeta)
    requires SortedLevel(files) && ProperRanges(files)
    ensures FindFile(files, k) == Some(f) <==> f in files && Contains(f, k)
  {
    hide Search;
    SearchProbed(files, k, 0, |files|);
    if f in files && Contains(f, k) {
      var j: nat :| j < |files| && files[j] == f;
      SearchLandsAfter(files, k, j, Search(files, k, 0, |files|));
    }
  }

  lemma SearchLandsAfter(files: seq<FileMeta>, k: Bytes, j: nat, i: nat)
    requires SortedLevel(files) && ProperRanges(files)
    requires j < |files| && Contains(files[j], k)
    requires i <= |files| && (i < |files| ==> Before(k, Lo(files[i]))) && (i > 0 ==> !Before(k, Lo(files[i - 1])))
    ensures i == j + 1 && !Before(Hi(files[j]), k)
  {
    OrderFacts();
    assert forall f :: f in files ==> !Before(Hi(f), Lo(f));
    assert forall m :: 0 <= m < |files| ==> files[m] in files;
  }

  /**
   * The lookup of a level works, in that every file is found by its own smallest key, exactly when the
   * level is sorted. Nothing in the engine sorts a level: an edit appends its files.
   */
  lemma FoundByOwnKeyIffSorted(files: seq<FileMeta>)
    requires ProperRanges(files) && DisjointRanges(files) && NumbersDistinct(files)
    ensures (forall i :: 0 <= i < |files| ==> FindFile(files, Lo(files[i])) == Some(files[i])) <==> SortedLevel(files)
  {
    if SortedLevel(files) {
      forall i | 0 <= i < |files| ensures FindFile(files, Lo(files[i])) == Some(files[i]) {
        OrderFacts();
        assert files[i] in files;
        FindFileIsExact(files, Lo(files[i]), files[i]);
      }
    }
    if forall i :: 0 <= i < |files| ==> FindFile(files, Lo(files[i])) == Some(files[i]) {
      forall i: nat | i + 1 < |files| ensures Before(Lo(files[i]), Lo(files[i + 1])) {
        FoundMeansNextIsLater(files, i);
      }
      AscendingStarts(files);
    }
  }

  lemma FoundMeansNextIsLater(files: seq<FileMeta>, i: nat)
    requires NumbersDistinct(files) && i + 1 < |files|
    requires FindFile(files, Lo(files[i])) == Some(files[i])
    ensures Before(Lo(files[i]), Lo(files[i + 1]))
  {
    var k := Lo(files[i]);
    SearchProbed(files, k, 0, |files|);
    var p := Search(files, k, 0, |files|);
    assert files[p - 1].number == files[i].number;
    assert p - 1 == i;
  }

  lemma AscendingStarts(files: seq<FileMeta>)
    requires ProperRanges(files) && DisjointRanges(files) && NumbersDistinct(files)
    requires forall i: nat :: i + 1 < |files| ==> Before(Lo(files[i]), Lo(files[i + 1]))
    ensures SortedLevel(files)
  {
    OrderFacts();
    forall i: nat, j: nat | i < j < |files| ensures Before2(files[i], files[j]) {
      StartsBefore(files, i, j);
      assert files[i] in files && files[j] in files && files[i] != files[j];
      assert Before2(files[i], files[j]) || Before2(files[j], files[i]);
    }
  }

  lemma {:induction false} StartsBefore(files: seq<FileMeta>, i: nat, j: nat)
    requires i < j < |files|
    requires forall i: nat :: i + 1 < |files| ==> Before(Lo(files[i]), Lo(files[i + 1]))
    ensures Before(Lo(files[i]), Lo(files[j]))
    decreases j
  {
    OrderFacts();
    assert Before(Lo(files[j - 1]), Lo(files[j - 1 + 1]));
    if i < j - 1 {
      StartsBefore(files, i, j - 1);
    }
  }

  // ----- the read -----------------------------------------------------------------------------

  /** Level 0, newest file first. */
  function SearchLevelZero(files: seq<FileMeta>, tables: map<nat, seq<Entry>>, k: Bytes, s: nat): Option<Entry> {
    if files == [] then None
    else
      var hit := SearchSorted(Contents(tables, files[|files| - 1]), k, s);
      if hit.Some? then hit else SearchLevelZero(files[..|files| - 1], tables, k, s)
  }

  function SearchFile(files: seq<FileMeta>, tables: map<nat, seq<Entry>>, k: Bytes, s: nat): Option<Entry> {
    match FindFile(files, k)
    case None => None
    case Some(f) => SearchSorted(Contents(tables, f), k, s)
  }

  /** The deeper levels, one file of each. */
  function SearchDeeper(v: Version, tables: map<nat, seq<Entry>>, k: Bytes, s: nat, level: nat): Option<Entry>
    requires v.Valid() && level <= NUM_LEVELS
    decreases NUM_LEVELS - level
  {
    if level == NUM_LEVELS then None
    else
      var hit := SearchFile(v.files[level], tables, k, s);
      if hit.Some? then hit else SearchDeeper(v, tables, k, s, level + 1)
  }

  function SearchTables(v: Version, tables: map<nat, seq<Entry>>, k: Bytes, s: nat): Option<Entry>
    requires v.Valid()
  {
    var hit := SearchLevelZero(v.files[0], tables, k, s);
    if hit.Some? then hit else SearchDeeper(v, tables, k, s, 1)
  }

  /** The entry a read at `s` stops at; a deletion stops it too. */
  function Lookup(st: Store, k: Bytes, s: nat): Option<Entry>
    requires st.version.Valid()
  {
    var hit := SearchSorted(st.mem, k, s);
    if hit.Some? then hit else SearchTables(st.version, st.tables, k, s)
  }

  /** `get_from_sstables`, loop by loop. */
  method GetFromTables(v: Version, tables: map<nat, seq<Entry>>, k: Bytes, s: nat) returns (r: Option<Bytes>)
    requires v.Valid()
    ensures r == Read(SearchTables(v, tables, k, s))
  {
    hide SearchSorted, FindFile;
    var files := v.files[0];
    var i: nat := |files|;
    assert files[..i] == files;
    while i > 0
      invariant i <= |files|
      invariant SearchLevelZero(files[..i], tables, k, s) == SearchLevelZero(files, tables, k, s)
    {
      assert files[..i][..i - 1] == files[..i - 1];
      i := i - 1;
      var hit := SearchSorted(Contents(tables, files[i]), k, s);
      if hit.Some? {
        return Read(hit);
      }
    }
    var level := 1;
    while level < NUM_LEVELS
      invariant 1 <= level <= NUM_LEVELS
      invariant SearchDeeper(v, tables, k, s, level) == SearchDeeper(v, tables, k, s, 1)
    {
      var f := FindFileForKey(v.files[level], k);
      if f.Some? {
        var hit := SearchSorted(Contents(tables, f.value), k, s);
        if hit.Some? {
          return Read(hit);
        }
      }
      level := level + 1;
    }
    return None;
  }

  // ----- first hit is newest ------------------------------------------------------------------

  /** `r` is what a reader at `s` finds of `k` in `E`. */
  ghost predicate NewestOf(E: set<Entry>, k: Bytes, s: nat, r: Option<Entry>) {
    match r
    case None => forall e :: e in E ==> !VisibleAt(e, k, s)
    case Some(e) => IsNewest(E, k, s, e)
  }

  /** Every version of a key in `A` is newer than every version of it in `B`. */
  ghost predicate AllNewer(A: set<Entry>, B: set<Entry>) {
    forall a, b :: a in A && b in B && a.Key() == b.Key() ==> a.Seqno() > b.Seqno()
  }

  lemma FirstOfTwo(A: set<Entry>, B: set<Entry>, k: Bytes, s: nat, a: Option<Entry>, b: Option<Entry>)
    requires NewestOf(A, k, s, a) && NewestOf(B, k, s, b) && AllNewer(A, B)
    ensures NewestOf(A + B, k, s, if a.Some? then a else b)
  {
  }

  lemma NewestOfSorted(es: seq<Entry>, k: Bytes, s: nat)
    requires Ascending(es)
    ensures NewestOf(SetOf(es), k, s, SearchSorted(es, k, s))
  {
    hide Ascending, SearchSorted;
    SearchSortedIsNewest(es, k, s);
    if SearchSorted(es, k, s) == None {
      forall e | e in SetOf(es) ensures !VisibleAt(e, k, s) {
        if VisibleAt(e, k, s) { NewestExists(SetOf(es), k, s, e); }
      }
    }
  }

  ghost function FilesEntries(tables: map<nat, seq<Entry>>, files: seq<FileMeta>): set<Entry> {
    EntriesOf(tables, set f | f in files)
  }

  lemma FilesEntriesPush(tables: map<nat, seq<Entry>>, files: seq<FileMeta>)
    requires files != []
    ensures FilesEntries(tables, files) == SetOf(Contents(tables, files[|files| - 1])) + FilesEntries(tables, files[..|files| - 1])
  {
  }

  ghost predicate NewerLater(tables: map<nat, seq<Entry>>, files: seq<FileMeta>) {
    forall i, j :: 0 <= i < j < |files| ==> NewerThan(tables, files[j], files[i])
  }

  lemma LastIsNewer(tables: map<nat, seq<Entry>>, files: seq<FileMeta>)
    requires files != [] && NewerLater(tables, files)
    ensures AllNewer(SetOf(Contents(tables, files[|files| - 1])), FilesEntries(tables, files[..|files| - 1]))
    ensures NewerLater(tables, files[..|files| - 1])
  {
  }

  lemma {:induction false} LevelZeroHit(tables: map<nat, seq<Entry>>, files: seq<FileMeta>, k: Bytes, s: nat)
    requires NewerLater(tables, files)
    requires forall f :: f in files ==> Ascending(Contents(tables, f))
    ensures NewestOf(FilesEntries(tables, files), k, s, SearchLevelZero(files, tables, k, s))
    decreases |files|
  {
    hide NewerLater, SearchSorted, Ascending, NewestOf, AllNewer, Contents;
    if files == [] {
      NothingIn(tables, k, s);
    } else {
      var last, front := files[|files| - 1], files[..|files| - 1];
      LastIsNewer(tables, files);
      LevelZeroHit(tables, front, k, s);
      NewestOfSorted(Contents(tables, last), k, s);
      FilesEntriesPush(tables, files);
      FirstOfTwo(SetOf(Contents(tables, last)), FilesEntries(tables, front), k, s,
                 SearchSorted(Contents(tables, last), k, s), SearchLevelZero(front, tables, k, s));
    }
  }

  lemma NothingIn(tables: map<nat, seq<Entry>>, k: Bytes, s: nat)
    ensures NewestOf(FilesEntries(tables, []), k, s, None)
  {
  }

  /** In a sorted level, the one file looked at holds every version of the key the level has. */
  lemma LevelHit(tables: map<nat, seq<Entry>>, files: seq<FileMeta>, k: Bytes, s: nat)
    requires SortedLevel(files) && forall f :: f in files ==> FileOk(tables, f)
    ensures NewestOf(FilesEntries(tables, files), k, s, SearchFile(files, tables, k, s))
  {
    hide FindFile, SearchSorted, SortedLevel, FileOk, Contains;
    forall f | f in files ensures !Before(Hi(f), Lo(f)) { FileRangeIsProper(tables, f); }
    forall e | e in FilesEntries(tables, files) && e.Key() == k
      ensures FindFile(files, k).Some? && e in Contents(tables, FindFile(files, k).value)
    {
      var f :| f in files && e in Contents(tables, f);
      KeyInRange(tables, f, e);
      FindFileIsExact(files, k, f);
    }
    if FindFile(files, k).Some? {
      var f := FindFile(files, k).value;
      AscendingFile(tables, f);
      NewestOfSorted(Contents(tables, f), k, s);
      assert forall e :: e in Contents(tables, f) ==> e in FilesEntries(tables, files);
    }
  }

  lemma AscendingFile(tables: map<nat, seq<Entry>>, f: FileMeta)
    requires FileOk(tables, f)
    ensures Ascending(Contents(tables, f))
  {
  }

  /** The entries of `level` and below. */
  ghost function EntriesFrom(st: Store, level: nat): set<Entry>
    requires st.version.Valid() && level <= NUM_LEVELS
    decreases NUM_LEVELS - level
  {
    if level == NUM_LEVELS then {} else FilesEntries(st.tables, st.version.files[level]) + EntriesFrom(st, level + 1)
  }

  lemma {:induction false} EntriesFromLevel(st: Store, level: nat, e: Entry) returns (l: nat, f: FileMeta)
    requires st.version.Valid() && level <= NUM_LEVELS && e in EntriesFrom(st, level)
    ensures level <= l < NUM_LEVELS && f in st.version.files[l] && e in Contents(st.tables, f)
    decreases NUM_LEVELS - level
  {
    if e in FilesEntries(st.tables, st.version.files[level]) {
      l := level;
      f :| f in st.version.files[l] && e in Contents(st.tables, f);
    } else {
      l, f := EntriesFromLevel(st, level + 1, e);
    }
  }

  lemma {:induction false} LevelIsIn(st: Store, level: nat, l: nat, f: FileMeta, e: Entry)
    requires st.version.Valid() && level <= l < NUM_LEVELS && f in st.version.files[l] && e in Contents(st.tables, f)
    ensures e in EntriesFrom(st, level)
    decreases l - level
  {
    if level < l {
      LevelIsIn(st, level + 1, l, f, e);
    }
  }

  lemma UpperNewer(st: Store, level: nat)
    requires LayersOk(st) && level < NUM_LEVELS
    ensures AllNewer(FilesEntries(st.tables, st.version.files[level]), EntriesFrom(st, level + 1))
  {
    assert st.version.Valid() && LevelOrder(st.version, st.tables);
    hide LayersOk, Contents;
    forall a, b | a in FilesEntries(st.tables, st.version.files[level]) && b in EntriesFrom(st, level + 1) && a.Key() == b.Key()
      ensures a.Seqno() > b.Seqno()
    {
      var f :| f in st.version.files[level] && a in Contents(st.tables, f);
      var l, g := EntriesFromLevel(st, level + 1, b);
      assert NewerThan(st.tables, f, g);
    }
  }

  ghost predicate SortedLevels(v: Version)
    requires v.Valid()
  {
    forall l :: 1 <= l < NUM_LEVELS ==> SortedLevel(v.files[l])
  }

  lemma FilesAreOk(st: Store, level: nat)
    requires LayersOk(st) && level < NUM_LEVELS
    ensures forall f :: f in st.version.files[level] ==> FileOk(st.tables, f) && Ascending(Contents(st.tables, f))
  {
    hide LevelOrder, LevelZeroOrder, LevelsDisjoint, MemNewest, UniqueNumbers;
  }

  lemma {:induction false} DeeperHit(st: Store, k: Bytes, s: nat, level: nat)
    requires LayersOk(st) && SortedLevels(st.version) && 1 <= level <= NUM_LEVELS
    ensures NewestOf(EntriesFrom(st, level), k, s, SearchDeeper(st.version, st.tables, k, s, level))
    decreases NUM_LEVELS - level
  {
    assert st.version.Valid();
    if level < NUM_LEVELS {
      assert SortedLevel(st.version.files[level]);
    }
    hide LayersOk, SortedLevels, SearchFile, SortedLevel, FilesEntries, AllNewer, FileOk, Ascending;
    if level < NUM_LEVELS {
      hide NewestOf;
      FilesAreOk(st, level);
      LevelHit(st.tables, st.version.files[level], k, s);
      DeeperHit(st, k, s, level + 1);
      UpperNewer(st, level);
      FirstOfTwo(FilesEntries(st.tables, st.version.files[level]), EntriesFrom(st, level + 1), k, s,
                 SearchFile(st.version.files[level], st.tables, k, s), SearchDeeper(st.version, st.tables, k, s, level + 1));
    }
  }

  lemma StoredIsLayers(st: Store)
    requires st.version.Valid()
    ensures Stored(st) == SetOf(st.mem) + EntriesFrom(st, 0)
  {
    hide Contents;
    forall e | e in EntriesFrom(st, 0) ensures e in EntriesOf(st.tables, AllFiles(st.version)) {
      var l, f := EntriesFromLevel(st, 0, e);
      assert f in AllFiles(st.version);
    }
    forall e | e in EntriesOf(st.tables, AllFiles(st.version)) ensures e in EntriesFrom(st, 0) {
      var f :| f in AllFiles(st.version) && e in Contents(st.tables, f);
      var l: nat :| l < NUM_LEVELS && f in st.version.files[l];
      LevelIsIn(st, 0, l, f, e);
    }
  }

  lemma MemoryNewer(st: Store)
    requires LayersOk(st)
    ensures AllNewer(SetOf(st.mem), EntriesFrom(st, 0))
  {
    assert st.version.Valid() && MemNewest(st);
    hide LayersOk, EntriesOf, AllFiles, EntriesFrom;
    StoredIsLayers(st);
    forall a, b | a in SetOf(st.mem) && b in EntriesFrom(st, 0) && a.Key() == b.Key() ensures a.Seqno() > b.Seqno() {
      FromTables(st, b);
    }
  }

  lemma FromTables(st: Store, e: Entry)
    requires st.version.Valid() && e in EntriesFrom(st, 0)
    ensures e in EntriesOf(st.tables, AllFiles(st.version))
  {
  }

  lemma LevelZeroIsOrdered(st: Store)
    requires LayersOk(st)
    ensures st.version.Valid() && NewerLater(st.tables, st.version.files[0])
  {
    hide NewerThan, FilesOk, LevelOrder, LevelsDisjoint, MemNewest, UniqueNumbers, Ascending;
  }

  lemma TablesHit(st: Store, k: Bytes, s: nat)
    requires LayersOk(st) && SortedLevels(st.version)
    ensures NewestOf(EntriesFrom(st, 0), k, s, SearchTables(st.version, st.tables, k, s))
  {
    hide LayersOk, SortedLevels, SearchLevelZero, SearchDeeper, FilesEntries, AllNewer, NewestOf, FileOk, Ascending, NewerLater;
    LevelZeroIsOrdered(st);
    FilesAreOk(st, 0);
    LevelZeroHit(st.tables, st.version.files[0], k, s);
    DeeperHit(st, k, s, 1);
    UpperNewer(st, 0);
    FirstOfTwo(FilesEntries(st.tables, st.version.files[0]), EntriesFrom(st, 1), k, s,
               SearchLevelZero(st.version.files[0], st.tables, k, s), SearchDeeper(st.version, st.tables, k, s, 1));
  }

  /**
   * First hit is newest: with the layer invariants and sorted deeper levels, the layered search returns
   * exactly the newest visible version of all entries, so a read returns exactly the view.
   */
  lemma FirstHitIsNewest(st: Store, k: Bytes, s: nat)
    requires LayersOk(st) && SortedLevels(st.version)
    ensures Lookup(st, k, s) == Newest(Stored(st), k, s)
    ensures Read(Lookup(st, k, s)) == View(Stored(st), k, s)
  {
    assert st.version.Valid() && Ascending(st.mem);
    hide LayersOk, SortedLevels, SearchSorted, SearchTables, AllNewer, NewestOf, Ascending, Stored, EntriesFrom;
    NewestOfSorted(st.mem, k, s);
    TablesHit(st, k, s);
    MemoryNewer(st);
    StoredIsLayers(st);
    FirstOfTwo(SetOf(st.mem), EntriesFrom(st, 0), k, s, SearchSorted(st.mem, k, s), SearchTables(st.version, st.tables, k, s));
    LayersAreSound(st);
    StoredIsDistinct(st);
    NewestOfIsNewest(Stored(st), k, s, Lookup(st, k, s));
  }

  lemma NewestOfIsNewest(E: set<Entry>, k: Bytes, s: nat, r: Option<Entry>)
    requires Distinct(E) && NewestOf(E, k, s, r)
    ensures Newest(E, k, s) == r
  {
  }

  /** In a live database with sorted levels, every read at a readable snapshot returns what the history shows. */
  lemma ReadsShowHistory(db: Db, tr: Trace, k: Bytes, s: nat)
    requires Live(db, tr) && tr.layered && SortedLevels(db.vs.current) && Readable(db, s)
    ensures Read(Lookup(StoreOf(db), k, s)) == View(SetOf(tr.hist), k, s)
  {
    assert LayersOk(StoreOf(db)) && ViewsOk(db, tr.hist);
    hide Live, LayersOk, SortedLevels, Lookup, Stored, View;
    FirstHitIsNewest(StoreOf(db), k, s);
  }

  // ----- when a level stays sorted ------------------------------------------------------------

  /**
   * A commit appends its outputs, which ascend, to what it leaves of a sorted level. The result is sorted
   * exactly when everything left behind lies before every output.
   */
  lemma AppendKeepsSortedIff(kept: seq<FileMeta>, outs: seq<FileMeta>)
    requires SortedLevel(kept) && SortedLevel(outs)
    ensures SortedLevel(kept + outs) <==> forall f, g :: f in kept && g in outs ==> Before2(f, g)
  {
    if SortedLevel(kept + outs) {
      forall f, g | f in kept && g in outs ensures Before2(f, g) {
        var i: nat :| i < |kept| && kept[i] == f;
        var j: nat :| j < |outs| && outs[j] == g;
        assert (kept + outs)[i] == f && (kept + outs)[|kept| + j] == g;
      }
    }
  }
}
