/** The multi-level store: its layer invariants, and how flushing and compaction keep them. */
module Stores {
  import opened ByteStrings
  import opened InternalKeys
  import opened VersionedEntries
  import opened Manifest
  import opened Versions
  import opened Compactions
  import opened CompactionOutputs

  /** A version, the table contents it names, and the memtable. */
  datatype Store = Store(version: Version, mem: seq<Entry>, tables: map<nat, seq<Entry>>)

  function Contents(tables: map<nat, seq<Entry>>, f: FileMeta): seq<Entry> {
    if f.number in tables then tables[f.number] else []
  }

  ghost function AllFiles(v: Version): set<FileMeta>
    requires v.Valid()
  {
    set l, f | 0 <= l < NUM_LEVELS && f in v.files[l] :: f
  }

  ghost function EntriesOf(tables: map<nat, seq<Entry>>, files: set<FileMeta>): set<Entry> {
    set f, e | f in files && e in Contents(tables, f) :: e
  }

  /** Every entry of the store. */
  ghost function Stored(st: Store): set<Entry>
    requires st.version.Valid()
  {
    SetOf(st.mem) + EntriesOf(st.tables, AllFiles(st.version))
  }

  // ----- invariants ---------------------------------------------------------------------------

  /** A file's contents are a non-empty sorted list whose ends are the recorded bounds. */
  ghost predicate FileOk(tables: map<nat, seq<Entry>>, f: FileMeta) {
    && f.number in tables
    && tables[f.number] != []
    && Ascending(tables[f.number])
    && f.smallest == tables[f.number][0].ik
    && f.largest == tables[f.number][|tables[f.number]| - 1].ik
  }

  ghost predicate FilesOk(v: Version, tables: map<nat, seq<Entry>>)
    requires v.Valid()
  {
    forall l, f :: 0 <= l < NUM_LEVELS && f in v.files[l] ==> FileOk(tables, f)
  }

  /** A file number names one file of one level. */
  ghost predicate UniqueNumbers(v: Version)
    requires v.Valid()
  {
    forall l, m, f, g :: 0 <= l < NUM_LEVELS && 0 <= m < NUM_LEVELS && f in v.files[l] && g in v.files[m] ==>
      f.number == g.number ==> l == m && f == g
  }

  ghost predicate NumbersBelow(v: Version, n: nat)
    requires v.Valid()
  {
    forall l, f :: 0 <= l < NUM_LEVELS && f in v.files[l] ==> f.number < n
  }

  ghost predicate NumbersDistinct(files: seq<FileMeta>) {
    forall i, j :: 0 <= i < j < |files| ==> files[i].number != files[j].number
  }

  /** No level lists a file twice. */
  ghost predicate NoRepeats(v: Version)
    requires v.Valid()
  {
    forall l :: 0 <= l < NUM_LEVELS ==> NumbersDistinct(v.files[l])
  }

  /** Every version of a key in `f` is newer than every version of it in `g`. */
  ghost predicate NewerThan(tables: map<nat, seq<Entry>>, f: FileMeta, g: FileMeta) {
    forall a, b :: a in Contents(tables, f) && b in Contents(tables, g) && a.Key() == b.Key() ==> a.Seqno() > b.Seqno()
  }

  ghost predicate LevelZeroOrder(v: Version, tables: map<nat, seq<Entry>>)
    requires v.Valid()
  {
    forall i, j :: 0 <= i < j < |v.files[0]| ==> NewerThan(tables, v.files[0][j], v.files[0][i])
  }

  ghost predicate LevelOrder(v: Version, tables: map<nat, seq<Entry>>)
    requires v.Valid()
  {
    forall l, m, f, g :: 0 <= l < m < NUM_LEVELS && f in v.files[l] && g in v.files[m] ==> NewerThan(tables, f, g)
  }

  ghost predicate LevelsDisjoint(v: Version)
    requires v.Valid()
  {
    forall l :: 1 <= l < NUM_LEVELS ==> DisjointRanges(v.files[l])
  }

  ghost predicate MemNewest(st: Store)
    requires st.version.Valid()
  {
    forall a, b :: a in st.mem && b in EntriesOf(st.tables, AllFiles(st.version)) ==> a.Seqno() > b.Seqno()
  }

  /** The layer invariants. */
  ghost predicate LayersOk(st: Store) {
    && st.version.Valid()
    && FilesOk(st.version, st.tables)
    && UniqueNumbers(st.version)
    && LevelZeroOrder(st.version, st.tables)
    && LevelOrder(st.version, st.tables)
    && LevelsDisjoint(st.version)
    && Ascending(st.mem)
    && MemNewest(st)
  }

  /** Two files hold no version in common. */
  ghost predicate NothingShared(tables: map<nat, seq<Entry>>, f: FileMeta, g: FileMeta) {
    forall a, b :: a in Contents(tables, f) && b in Contents(tables, g) ==> a.Key() != b.Key() || a.Seqno() != b.Seqno()
  }

  ghost predicate NothingTwice(v: Version, tables: map<nat, seq<Entry>>)
    requires v.Valid()
  {
    forall f, g :: f in AllFiles(v) && g in AllFiles(v) && f != g ==> NothingShared(tables, f, g)
  }

  ghost predicate MemApart(st: Store)
    requires st.version.Valid()
  {
    forall a, b :: a in st.mem && b in EntriesOf(st.tables, AllFiles(st.version)) ==> a.Key() != b.Key() || a.Seqno() != b.Seqno()
  }

  /**
   * What holds whatever the order of the layers: sorted non-empty files under numbers of their own, a
   * sorted memtable, and no version of a key in two places.
   */
  ghost predicate Sound(st: Store) {
    && st.version.Valid()
    && FilesOk(st.version, st.tables)
    && UniqueNumbers(st.version)
    && NothingTwice(st.version, st.tables)
    && Ascending(st.mem)
    && MemApart(st)
  }

  lemma SoundParts(st: Store)
    requires Sound(st)
    ensures st.version.Valid() && Ascending(st.mem) && UniqueNumbers(st.version) && MemApart(st)
  {
    hide FilesOk, UniqueNumbers, NothingTwice, MemApart, Ascending;
  }

  lemma LayersParts(st: Store)
    requires LayersOk(st)
    ensures st.version.Valid() && Ascending(st.mem) && UniqueNumbers(st.version) && MemNewest(st)
  {
    hide FilesOk, UniqueNumbers, LevelZeroOrder, LevelOrder, LevelsDisjoint, MemNewest, Ascending;
  }

  lemma KeyInRange(tables: map<nat, seq<Entry>>, f: FileMeta, e: Entry)
    requires FileOk(tables, f) && e in Contents(tables, f)
    ensures !Before(e.Key(), Lo(f)) && !Before(Hi(f), e.Key())
    ensures Contains(f, e.Key())
  {
    OrderFacts();
    var c := tables[f.number];
    var i :| 0 <= i < |c| && c[i] == e;
    assert 0 < i ==> VersionBefore(c[0], c[i]);
    assert i < |c| - 1 ==> VersionBefore(c[i], c[|c| - 1]);
  }

  lemma FileRangeIsProper(tables: map<nat, seq<Entry>>, f: FileMeta)
    requires FileOk(tables, f)
    ensures !Before(Hi(f), Lo(f))
  {
    OrderFacts();
    KeyInRange(tables, f, tables[f.number][0]);
  }

  /** Two files that both hold a key cannot be range-disjoint. */
  lemma SharedKey(tables: map<nat, seq<Entry>>, f: FileMeta, g: FileMeta, a: Entry, b: Entry)
    requires FileOk(tables, f) && FileOk(tables, g)
    requires a in Contents(tables, f) && b in Contents(tables, g) && a.Key() == b.Key()
    ensures !Before2(f, g) && !Before2(g, f)
  {
    OrderFacts();
    KeyInRange(tables, f, a);
    KeyInRange(tables, g, b);
  }

  lemma SameVersionSameFile(st: Store, f: FileMeta, g: FileMeta, a: Entry, b: Entry)
    requires LayersOk(st)
    requires f in AllFiles(st.version) && g in AllFiles(st.version)
    requires a in Contents(st.tables, f) && b in Contents(st.tables, g)
    requires a.Key() == b.Key() && a.Seqno() == b.Seqno()
    ensures f == g
  {
    FilesAreOrdered(st, f, g);
    assert FileOk(st.tables, f) && FileOk(st.tables, g);
    SharedKey(st.tables, f, g, a, b);
  }

  /** Of two files, one holds the newer versions of every shared key, or their ranges are apart. */
  lemma FilesAreOrdered(st: Store, f: FileMeta, g: FileMeta)
    requires LayersOk(st)
    requires f in AllFiles(st.version) && g in AllFiles(st.version)
    ensures f == g || NewerThan(st.tables, f, g) || NewerThan(st.tables, g, f) || Before2(f, g) || Before2(g, f)
  {
  }

  /** The layer invariants leave no version in two places. */
  lemma LayersAreSound(st: Store)
    requires LayersOk(st)
    ensures Sound(st)
  {
    assert MemNewest(st) && st.version.Valid();
    hide LevelZeroOrder, LevelOrder, LevelsDisjoint, FilesOk, UniqueNumbers, Ascending, EntriesOf;
    forall f, g | f in AllFiles(st.version) && g in AllFiles(st.version) && f != g ensures NothingShared(st.tables, f, g) {
      DifferentFilesShareNothing(st, f, g);
    }
  }

  lemma DifferentFilesShareNothing(st: Store, f: FileMeta, g: FileMeta)
    requires LayersOk(st) && f in AllFiles(st.version) && g in AllFiles(st.version) && f != g
    ensures NothingShared(st.tables, f, g)
  {
    hide LayersOk, AllFiles, Contents;
    forall a, b | a in Contents(st.tables, f) && b in Contents(st.tables, g) ensures a.Key() != b.Key() || a.Seqno() != b.Seqno() {
      if a.Key() == b.Key() && a.Seqno() == b.Seqno() {
        SameVersionSameFile(st, f, g, a, b);
      }
    }
  }

  /** In a sound store no version of a key is stored twice. */
  lemma StoredIsDistinct(st: Store)
    requires Sound(st)
    ensures Distinct(Stored(st))
  {
    SoundParts(st);
    hide Sound, FileOk, Ascending, Contents, AllFiles;
    forall a, b | a in Stored(st) && b in Stored(st) && a.Key() == b.Key() && a.Seqno() == b.Seqno()
      ensures a == b
    {
      if a in SetOf(st.mem) && b in SetOf(st.mem) {
        AscendingIsDistinct(st.mem);
      } else if a !in SetOf(st.mem) && b !in SetOf(st.mem) {
        var f :| f in AllFiles(st.version) && a in Contents(st.tables, f);
        var g :| g in AllFiles(st.version) && b in Contents(st.tables, g);
        OneFileEach(st, f, g, a, b);
        AscendingIsDistinct(Contents(st.tables, f));
        assert a in SetOf(Contents(st.tables, f)) && b in SetOf(Contents(st.tables, f));
      }
    }
  }

  lemma OneFileEach(st: Store, f: FileMeta, g: FileMeta, a: Entry, b: Entry)
    requires Sound(st) && f in AllFiles(st.version) && g in AllFiles(st.version)
    requires a in Contents(st.tables, f) && b in Contents(st.tables, g) && a.Key() == b.Key() && a.Seqno() == b.Seqno()
    ensures f == g && Ascending(Contents(st.tables, f))
  {
    assert NothingTwice(st.version, st.tables);
    FileIsOk(st, f);
  }

  lemma FileIsOk(st: Store, f: FileMeta)
    requires Sound(st) && f in AllFiles(st.version)
    ensures FileOk(st.tables, f) && Ascending(Contents(st.tables, f))
  {
    hide NothingTwice, MemApart, UniqueNumbers, Ascending;
  }

  // ----- what an edit does to the levels ------------------------------------------------------

  predicate Deletes(ds: seq<DeletedFile>, level: nat, number: nat) {
    DeletedFile(level, number) in ds
  }

  lemma {:induction false} ApplyDeletesMembers(v: Version, ds: seq<DeletedFile>)
    requires v.Valid() && ApplyDeletes(v, ds).Ok?
    ensures var r := ApplyDeletes(v, ds).value;
            forall l: nat, f :: l < NUM_LEVELS ==> (f in r.files[l] <==> f in v.files[l] && !Deletes(ds, l, f.number))
    ensures forall l: nat :: l < NUM_LEVELS && (forall n :: !Deletes(ds, l, n)) ==> ApplyDeletes(v, ds).value.files[l] == v.files[l]
    decreases |ds|
  {
    if ds != [] {
      var d := ds[0];
      var next := Version(v.files[d.level := Retain(v.files[d.level], d.number)]);
      ApplyDeletesMembers(next, ds[1..]);
      forall l: nat, n: nat
        ensures Deletes(ds, l, n) <==> d == DeletedFile(l, n) || Deletes(ds[1..], l, n)
      {
        assert ds == [d] + ds[1..];
      }
      assert Deletes(ds, d.level, d.number);
    }
  }

  function MetasAt(fs: seq<NewFile>, level: nat): seq<FileMeta> {
    if fs == [] then []
    else (if fs[0].level == level then [fs[0].meta] else []) + MetasAt(fs[1..], level)
  }

  lemma {:induction false} ApplyAddsMembers(v: Version, fs: seq<NewFile>)
    requires v.Valid() && ApplyAdds(v, fs).Ok?
    ensures forall l: nat :: l < NUM_LEVELS ==> ApplyAdds(v, fs).value.files[l] == v.files[l] + MetasAt(fs, l)
    decreases |fs|
  {
    if fs != [] {
      ApplyAddsMembers(Version(v.files[fs[0].level := v.files[fs[0].level] + [fs[0].meta]]), fs[1..]);
    }
  }

  // ----- the same files in other tables -------------------------------------------------------

  /** The files of the version hold the same in both. */
  ghost predicate Agree(v: Version, a: map<nat, seq<Entry>>, b: map<nat, seq<Entry>>)
    requires v.Valid()
  {
    forall l, f :: 0 <= l < NUM_LEVELS && f in v.files[l] ==> Contents(b, f) == Contents(a, f)
  }

  /** Only the contents of the version's files matter. */
  lemma AgreeingIsSound(v: Version, mem: seq<Entry>, a: map<nat, seq<Entry>>, b: map<nat, seq<Entry>>)
    requires Sound(Store(v, mem, a)) && Agree(v, a, b)
    ensures Sound(Store(v, mem, b)) && Stored(Store(v, mem, b)) == Stored(Store(v, mem, a))
  {
    AgreeingEntries(v, a, b);
    AgreeingFiles(v, a, b);
    hide FilesOk, UniqueNumbers, NothingTwice, Ascending, EntriesOf, AllFiles, Agree;
  }

  lemma AgreeingEntries(v: Version, a: map<nat, seq<Entry>>, b: map<nat, seq<Entry>>)
    requires v.Valid() && Agree(v, a, b)
    ensures EntriesOf(b, AllFiles(v)) == EntriesOf(a, AllFiles(v))
  {
    hide Contents;
    forall f | f in AllFiles(v) ensures Contents(b, f) == Contents(a, f) {
      var l: nat :| l < NUM_LEVELS && f in v.files[l];
    }
  }

  lemma AgreeingFiles(v: Version, a: map<nat, seq<Entry>>, b: map<nat, seq<Entry>>)
    requires v.Valid() && Agree(v, a, b) && FilesOk(v, a) && NothingTwice(v, a)
    ensures FilesOk(v, b) && NothingTwice(v, b)
  {
    hide Ascending, NothingShared;
    forall l, f | 0 <= l < NUM_LEVELS && f in v.files[l] ensures FileOk(b, f) {
      assert FileOk(a, f) && Contents(b, f) == Contents(a, f);
    }
    hide Contents, FileOk, FilesOk;
    forall f, g | f in AllFiles(v) && g in AllFiles(v) && f != g ensures NothingShared(b, f, g) {
      var l: nat :| l < NUM_LEVELS && f in v.files[l];
      var m: nat :| m < NUM_LEVELS && g in v.files[m];
      SameShares(a, b, f, g);
    }
  }

  // ----- flushing -----------------------------------------------------------------------------

  /** The store after the memtable became the newest file of level 0. */
  function Flushed(st: Store, f: FileMeta): Store
    requires st.version.Valid()
  {
    Store(Version(st.version.files[0 := st.version.files[0] + [f]]), [], st.tables[f.number := st.mem])
  }

  /** A file for the memtable: fresh number, exact bounds. */
  ghost predicate CanFlush(st: Store, f: FileMeta) {
    && Sound(st) && st.mem != []
    && NumbersBelow(st.version, f.number)
    && f.smallest == st.mem[0].ik && f.largest == st.mem[|st.mem| - 1].ik
  }

  lemma FlushedMembers(st: Store, f: FileMeta, l: nat, g: FileMeta)
    requires CanFlush(st, f) && l < NUM_LEVELS
    ensures g in Flushed(st, f).version.files[l] <==> g in st.version.files[l] || (l == 0 && g == f)
    ensures g in st.version.files[l] ==> g.number < f.number && Contents(Flushed(st, f).tables, g) == Contents(st.tables, g)
                                         && (FileOk(st.tables, g) <==> FileOk(Flushed(st, f).tables, g))
    ensures Contents(Flushed(st, f).tables, f) == st.mem && FileOk(Flushed(st, f).tables, f)
  {
  }

  /** The memtable's entries are newer than those of any file. */
  lemma MemNewerThanFile(st: Store, f: FileMeta, l: nat, g: FileMeta)
    requires CanFlush(st, f) && LayersOk(st) && l < NUM_LEVELS && g in st.version.files[l]
    ensures NewerThan(Flushed(st, f).tables, f, g)
  {
    FlushedMembers(st, f, l, g);
    assert g in AllFiles(st.version);
    hide FilesOk, UniqueNumbers, LevelZeroOrder, LevelOrder, LevelsDisjoint, Ascending, AllFiles, Flushed;
    forall a, b | a in st.mem && b in Contents(st.tables, g) ensures a.Seqno() > b.Seqno() {
      assert b in EntriesOf(st.tables, AllFiles(st.version));
    }
  }

  lemma FlushedFilesOk(st: Store, f: FileMeta)
    requires CanFlush(st, f)
    ensures FilesOk(Flushed(st, f).version, Flushed(st, f).tables)
    ensures UniqueNumbers(Flushed(st, f).version)
    ensures NumbersBelow(Flushed(st, f).version, f.number + 1)
  {
    var st' := Flushed(st, f);
    hide Flushed, NothingTwice, MemApart, Ascending, FileOk, NumbersBelow;
    forall l, g | 0 <= l < NUM_LEVELS && g in st'.version.files[l] ensures FileOk(st'.tables, g) && g.number < f.number + 1 {
      FlushedMembers(st, f, l, g);
    }
    assert NumbersBelow(st'.version, f.number + 1) by { FlushedNumbers(st, f); }
    forall l, m, g, h | 0 <= l < NUM_LEVELS && 0 <= m < NUM_LEVELS && g in st'.version.files[l] && h in st'.version.files[m]
                        && g.number == h.number
      ensures l == m && g == h
    {
      FlushedMembers(st, f, l, g);
      FlushedMembers(st, f, m, h);
    }
  }

  lemma FlushedNumbers(st: Store, f: FileMeta)
    requires CanFlush(st, f)
    ensures NumbersBelow(Flushed(st, f).version, f.number + 1)
  {
  }

  lemma FlushedLevelZero(st: Store, f: FileMeta)
    requires CanFlush(st, f) && LayersOk(st)
    ensures LevelZeroOrder(Flushed(st, f).version, Flushed(st, f).tables)
  {
    var old0, st' := st.version.files[0], Flushed(st, f);
    assert st'.version.files[0] == old0 + [f];
    forall i, j | 0 <= i < j < |old0| + 1
      ensures NewerThan(st'.tables, (old0 + [f])[j], (old0 + [f])[i])
    {
      FlushedMembers(st, f, 0, old0[i]);
      if j == |old0| {
        MemNewerThanFile(st, f, 0, old0[i]);
      } else {
        FlushedMembers(st, f, 0, old0[j]);
        hide Flushed, FilesOk, UniqueNumbers, LevelOrder, LevelsDisjoint, MemNewest, Ascending, FileOk, NumbersBelow;
        assert NewerThan(st.tables, old0[j], old0[i]);
      }
    }
  }

  lemma FlushedLevelOrder(st: Store, f: FileMeta)
    requires CanFlush(st, f) && LayersOk(st)
    ensures LevelOrder(Flushed(st, f).version, Flushed(st, f).tables)
    ensures LevelsDisjoint(Flushed(st, f).version)
  {
    var st' := Flushed(st, f);
    forall l | 1 <= l < NUM_LEVELS ensures st'.version.files[l] == st.version.files[l] { }
    hide Flushed, FilesOk, UniqueNumbers, LevelZeroOrder, MemNewest, Ascending, FileOk, NumbersBelow, DisjointRanges;
    forall l, m, g, h | 0 <= l < m < NUM_LEVELS && g in st'.version.files[l] && h in st'.version.files[m]
      ensures NewerThan(st'.tables, g, h)
    {
      FlushedMembers(st, f, l, g);
      FlushedMembers(st, f, m, h);
      if g in st.version.files[l] {
        assert NewerThan(st.tables, g, h);
      } else {
        MemNewerThanFile(st, f, m, h);
      }
    }
  }

  lemma FlushedNoRepeats(st: Store, f: FileMeta)
    requires st.version.Valid() && NumbersBelow(st.version, f.number) && NoRepeats(st.version)
    ensures NoRepeats(Flushed(st, f).version)
  {
  }

  lemma FlushedEntries(st: Store, f: FileMeta)
    requires CanFlush(st, f)
    ensures EntriesOf(Flushed(st, f).tables, AllFiles(Flushed(st, f).version)) == Stored(st)
  {
    var st' := Flushed(st, f);
    hide Flushed, Sound, NumbersBelow;
    forall e | e in EntriesOf(st'.tables, AllFiles(st'.version)) ensures e in Stored(st) {
      var g :| g in AllFiles(st'.version) && e in Contents(st'.tables, g);
      var l: nat :| l < NUM_LEVELS && g in st'.version.files[l];
      FlushedMembers(st, f, l, g);
      assert g in st.version.files[l] ==> g in AllFiles(st.version);
    }
    forall e | e in Stored(st) ensures e in EntriesOf(st'.tables, AllFiles(st'.version)) {
      if e in SetOf(st.mem) {
        FlushedMembers(st, f, 0, f);
        assert f in AllFiles(st'.version);
      } else {
        var g :| g in AllFiles(st.version) && e in Contents(st.tables, g);
        var l: nat :| l < NUM_LEVELS && g in st.version.files[l];
        FlushedMembers(st, f, l, g);
        assert g in AllFiles(st'.version);
      }
    }
  }

  /** Flushing keeps the layer invariants and moves no entry in or out of the store. */
  lemma FlushKeepsLayers(st: Store, f: FileMeta)
    requires CanFlush(st, f) && LayersOk(st)
    ensures LayersOk(Flushed(st, f))
    ensures Stored(Flushed(st, f)) == Stored(st)
    ensures NumbersBelow(Flushed(st, f).version, f.number + 1)
  {
    assert st.version.Valid() && Flushed(st, f).version.Valid() && Flushed(st, f).mem == [];
    FlushedFilesOk(st, f);
    FlushedLevelZero(st, f);
    FlushedLevelOrder(st, f);
    FlushedEntries(st, f);
    hide Flushed, CanFlush, Sound, FilesOk, UniqueNumbers, LevelZeroOrder, LevelOrder, LevelsDisjoint, NumbersBelow, EntriesOf, AllFiles;
  }

  /** Flushing keeps a store sound, whatever the order of its layers. */
  lemma FlushKeepsSound(st: Store, f: FileMeta)
    requires CanFlush(st, f)
    ensures Sound(Flushed(st, f))
    ensures Stored(Flushed(st, f)) == Stored(st)
    ensures NumbersBelow(Flushed(st, f).version, f.number + 1)
  {
    var st' := Flushed(st, f);
    assert st.version.Valid() && st'.version.Valid() && st'.mem == [];
    FlushedFilesOk(st, f);
    FlushedEntries(st, f);
    hide Flushed, CanFlush, FilesOk, UniqueNumbers, NumbersBelow, EntriesOf, NothingShared;
    forall g, h | g in AllFiles(st'.version) && h in AllFiles(st'.version) && g != h ensures NothingShared(st'.tables, g, h) {
      var l: nat :| l < NUM_LEVELS && g in st'.version.files[l];
      var m: nat :| m < NUM_LEVELS && h in st'.version.files[m];
      FlushedApart(st, f, l, g, m, h);
    }
    hide AllFiles;
  }

  lemma FlushedApart(st: Store, f: FileMeta, l: nat, g: FileMeta, m: nat, h: FileMeta)
    requires CanFlush(st, f) && g != h
    requires l < NUM_LEVELS && g in Flushed(st, f).version.files[l] && m < NUM_LEVELS && h in Flushed(st, f).version.files[m]
    ensures NothingShared(Flushed(st, f).tables, g, h)
  {
    hide Flushed, CanFlush, Contents, NothingShared, FileOk;
    assert Sound(st) by { CanFlushParts(st, f); }
    FlushedMembers(st, f, l, g);
    FlushedMembers(st, f, m, h);
    hide Sound;
    if g in st.version.files[l] && h in st.version.files[m] {
      assert g in AllFiles(st.version) && h in AllFiles(st.version);
      SoundShares(st, g, h);
      SameShares(st.tables, Flushed(st, f).tables, g, h);
    } else if g in st.version.files[l] {
      MemFileApart(st, f, l, g);
      SharedNothingBack(Flushed(st, f).tables, f, g);
    } else {
      MemFileApart(st, f, m, h);
    }
  }

  lemma CanFlushParts(st: Store, f: FileMeta)
    requires CanFlush(st, f)
    ensures Sound(st) && st.version.Valid()
  {
    hide FilesOk, UniqueNumbers, NothingTwice, MemApart, Ascending, NumbersBelow;
  }

  lemma SameShares(a: map<nat, seq<Entry>>, b: map<nat, seq<Entry>>, f: FileMeta, g: FileMeta)
    requires NothingShared(a, f, g) && Contents(b, f) == Contents(a, f) && Contents(b, g) == Contents(a, g)
    ensures NothingShared(b, f, g)
  {
  }

  lemma MemFileApart(st: Store, f: FileMeta, l: nat, g: FileMeta)
    requires CanFlush(st, f) && l < NUM_LEVELS && g in st.version.files[l]
    ensures NothingShared(Flushed(st, f).tables, f, g)
  {
    CanFlushParts(st, f);
    SoundParts(st);
    FlushedMembers(st, f, l, g);
    assert g in AllFiles(st.version);
    hide CanFlush, Sound, Flushed, FileOk, AllFiles;
    forall a, b | a in st.mem && b in Contents(st.tables, g) ensures a.Key() != b.Key() || a.Seqno() != b.Seqno() {
      assert b in EntriesOf(st.tables, AllFiles(st.version));
    }
  }

  // ----- compaction ---------------------------------------------------------------------------

  datatype OutputFile = OutputFile(meta: FileMeta, entries: seq<Entry>)

  function Inputs(c: Compaction): seq<FileMeta> {
    c.inputs0 + c.inputs1
  }

  ghost function InputEntries(st: Store, c: Compaction): set<Entry> {
    EntriesOf(st.tables, set f | f in Inputs(c))
  }

  ghost function OutputEntries(outs: seq<OutputFile>): set<Entry> {
    set o, e | o in outs && e in o.entries :: e
  }

  /** Output files with fresh numbers, sorted contents, exact bounds and no version in common. */
  ghost predicate OutputsOk(tables: map<nat, seq<Entry>>, outs: seq<OutputFile>, next: nat) {
    && (forall o :: o in outs ==> FileOk(tables, o.meta) && tables[o.meta.number] == o.entries && o.meta.number >= next)
    && (forall o, p :: o in outs && p in outs && o != p ==> o.meta.number != p.meta.number && NothingShared(tables, o.meta, p.meta))
  }

  /** Disjoint user-key ranges. */
  ghost predicate OutputsApart(outs: seq<OutputFile>) {
    forall o, p :: o in outs && p in outs && o != p ==> Before2(o.meta, p.meta) || Before2(p.meta, o.meta)
  }

  ghost predicate IsOutput(outs: seq<OutputFile>, f: FileMeta) {
    exists o :: o in outs && o.meta == f
  }

  /** Tables only gain contents under numbers that no file of the version had. */
  ghost predicate TablesGrow(st: Store, tables: map<nat, seq<Entry>>)
    requires st.version.Valid()
  {
    && (forall n :: n in st.tables ==> n in tables)
    && (forall l, f :: 0 <= l < NUM_LEVELS && f in st.version.files[l] ==> Contents(tables, f) == Contents(st.tables, f))
  }

  ghost predicate OtherLevelsKept(v: Version, c: Compaction, v': Version)
    requires v.Valid() && v'.Valid()
  {
    forall l :: 0 <= l < NUM_LEVELS && l != c.level && l != c.level + 1 ==> v'.files[l] == v.files[l]
  }

  ghost predicate LevelLoses(before: seq<FileMeta>, after: seq<FileMeta>, taken: seq<FileMeta>) {
    forall f :: f in after <==> f in before && f !in taken
  }

  ghost predicate LevelGains(before: seq<FileMeta>, after: seq<FileMeta>, taken: seq<FileMeta>, outs: seq<OutputFile>) {
    forall f :: f in after <==> (f in before && f !in taken) || IsOutput(outs, f)
  }

  /** Inputs gone from two levels, outputs added to the lower one. */
  ghost predicate LevelsCompacted(v: Version, c: Compaction, outs: seq<OutputFile>, v': Version)
    requires v.Valid() && c.level + 1 < NUM_LEVELS
  {
    && v'.Valid()
    && OtherLevelsKept(v, c, v')
    && LevelLoses(v.files[c.level], v'.files[c.level], c.inputs0)
    && LevelGains(v.files[c.level + 1], v'.files[c.level + 1], c.inputs1, outs)
  }

  /** The store after committing a compaction. */
  ghost predicate CompactedTo(st: Store, c: Compaction, outs: seq<OutputFile>, st': Store)
    requires st.version.Valid() && c.level + 1 < NUM_LEVELS
  {
    LevelsCompacted(st.version, c, outs, st'.version) && st'.mem == st.mem && TablesGrow(st, st'.tables)
  }

  /** A compaction of a sound store, wherever its output is cut. */
  ghost predicate StepOk(st: Store, c: Compaction, outs: seq<OutputFile>, st': Store, next: nat) {
    && Sound(st) && NumbersBelow(st.version, next)
    && Chosen(st.version, c)
    && CompactedTo(st, c, outs, st')
    && OutputsOk(st'.tables, outs, next)
    && (forall e :: e in OutputEntries(outs) ==> e in InputEntries(st, c))
  }

  lemma StepShape(st: Store, c: Compaction, outs: seq<OutputFile>, st': Store, next: nat)
    requires StepOk(st, c, outs, st', next)
    ensures Sound(st) && st.version.Valid() && st'.version.Valid() && c.level + 1 < NUM_LEVELS
    ensures UniqueNumbers(st.version) && NumbersBelow(st.version, next)
    ensures Chosen(st.version, c) && CompactedTo(st, c, outs, st') && OutputsOk(st'.tables, outs, next)
    ensures OutputEntries(outs) <= InputEntries(st, c)
  {
    hide FilesOk, UniqueNumbers, NothingTwice, MemApart, Ascending, InputsFor, OtherLevelsKept, LevelLoses, LevelGains, TablesGrow,
         FileOk, InputEntries, OutputEntries, NumbersBelow, NothingShared;
  }

  /** A compaction of a layered store whose output is not cut inside a user key. */
  ghost predicate CompactionOk(st: Store, c: Compaction, outs: seq<OutputFile>, st': Store, next: nat) {
    StepOk(st, c, outs, st', next) && LayersOk(st) && OutputsApart(outs)
  }

  lemma LayeredShape(st: Store, c: Compaction, outs: seq<OutputFile>, st': Store, next: nat)
    requires CompactionOk(st, c, outs, st', next)
    ensures StepOk(st, c, outs, st', next) && LayersOk(st) && OutputsApart(outs)
    ensures st.version.Valid() && st'.version.Valid() && c.level + 1 < NUM_LEVELS && Chosen(st.version, c)
    ensures CompactedTo(st, c, outs, st')
  {
    hide StepOk, LayersOk, OutputsApart, Chosen, CompactedTo;
    StepShape(st, c, outs, st', next);
  }

  lemma InputsAreFiles(v: Version, c: Compaction, f: FileMeta)
    requires v.Valid() && Chosen(v, c)
    ensures c.level + 1 < NUM_LEVELS
    ensures f in c.inputs0 ==> f in v.files[c.level]
    ensures f in c.inputs1 ==> f in v.files[c.level + 1]
  {
    hide MinLo, MaxHi, Overlapping;
  }

  /** A file left behind in an input level shares no key with any input of that level or above. */
  lemma LeftBehindSharesNoKey(st: Store, c: Compaction, f: FileMeta, g: FileMeta, a: Entry, b: Entry)
    requires LayersOk(st) && Chosen(st.version, c)
    requires g in Inputs(c)
    requires a in Contents(st.tables, f) && b in Contents(st.tables, g) && a.Key() == b.Key()
    ensures !(f in st.version.files[c.level + 1] && f !in c.inputs1)
    ensures f in st.version.files[c.level] && f !in c.inputs0 ==> g !in c.inputs0
  {
    var v := st.version;
    InputsAreFiles(v, c, g);
    assert FileOk(st.tables, g);
    if f in v.files[c.level + 1] && f !in c.inputs1 {
      forall x | x in v.files[c.level + 1] ensures !Before(Hi(x), Lo(x)) { FileRangeIsProper(st.tables, x); }
      forall x | x in c.inputs0 ensures !Before(Hi(x), Lo(x)) {
        InputsAreFiles(v, c, x);
        FileRangeIsProper(st.tables, x);
      }
      assert DisjointRanges(v.files[c.level + 1]);
      LeftBehindIsApart(v, c, f);
      SharedKey(st.tables, f, g, a, b);
    }
    if f in v.files[c.level] && f !in c.inputs0 && g in c.inputs0 {
      assert DisjointRanges(v.files[c.level]);
      SharedKey(st.tables, f, g, a, b);
    }
  }

  /** An output entry was an input entry of some chosen file. */
  lemma OutputCameFrom(st: Store, c: Compaction, outs: seq<OutputFile>, st': Store, next: nat, f: FileMeta, e: Entry)
    returns (g: FileMeta)
    requires StepOk(st, c, outs, st', next)
    requires IsOutput(outs, f) && e in Contents(st'.tables, f)
    ensures g in Inputs(c) && e in Contents(st.tables, g)
    ensures (g in c.inputs0 && g in st.version.files[c.level]) || (g in c.inputs1 && g in st.version.files[c.level + 1])
  {
    var o :| o in outs && o.meta == f;
    assert e in OutputEntries(outs);
    g :| g in Inputs(c) && e in Contents(st.tables, g);
    InputsAreFiles(st.version, c, g);
  }

  /** A file of the new version is an output, or was left behind untouched. */
  lemma FileAfter(st: Store, c: Compaction, outs: seq<OutputFile>, st': Store, next: nat, l: nat, f: FileMeta)
    requires StepOk(st, c, outs, st', next)
    requires l < NUM_LEVELS && f in st'.version.files[l]
    ensures (l == c.level + 1 && IsOutput(outs, f)) || LeftBehind(st, c, st', l, f)
  {
    assert st.version.Valid() && c.level + 1 < NUM_LEVELS;
    if !(l == c.level + 1 && IsOutput(outs, f)) {
      hide Sound, OutputsOk, IsOutput, InputEntries, OutputEntries, Chosen;
      OldFileAfter(st, c, outs, st', l, f);
      RetainedIsNoInput(st, c, l, f);
    }
  }

  lemma OldFileAfter(st: Store, c: Compaction, outs: seq<OutputFile>, st': Store, l: nat, f: FileMeta)
    requires st.version.Valid() && c.level + 1 < NUM_LEVELS && CompactedTo(st, c, outs, st')
    requires l < NUM_LEVELS && f in st'.version.files[l] && !(l == c.level + 1 && IsOutput(outs, f))
    ensures f in st.version.files[l] && Contents(st'.tables, f) == Contents(st.tables, f)
    ensures (l == c.level ==> f !in c.inputs0) && (l == c.level + 1 ==> f !in c.inputs1)
  {
  }

  ghost predicate LeftBehind(st: Store, c: Compaction, st': Store, l: nat, f: FileMeta)
    requires st.version.Valid() && l < NUM_LEVELS
  {
    f in st.version.files[l] && f !in Inputs(c) && Contents(st'.tables, f) == Contents(st.tables, f)
  }

  lemma CompactedFilesOk(st: Store, c: Compaction, outs: seq<OutputFile>, st': Store, next: nat)
    requires StepOk(st, c, outs, st', next)
    ensures FilesOk(st'.version, st'.tables)
  {
    forall l, f | 0 <= l < NUM_LEVELS && f in st'.version.files[l] ensures FileOk(st'.tables, f) {
      FileAfter(st, c, outs, st', next, l, f);
      if IsOutput(outs, f) {
        OutputIsFresh(st, c, outs, st', next, f);
      } else {
        hide CompactedTo, OutputsOk, Chosen, IsOutput, InputEntries, OutputEntries;
        assert FileOk(st.tables, f);
        NamedTables(st, c, outs, st', next, f.number);
      }
    }
  }

  lemma NamedTables(st: Store, c: Compaction, outs: seq<OutputFile>, st': Store, next: nat, n: nat)
    requires StepOk(st, c, outs, st', next)
    ensures n in st.tables ==> n in st'.tables
  {
    hide OutputsOk, Chosen, Sound;
  }

  lemma OutputIsFresh(st: Store, c: Compaction, outs: seq<OutputFile>, st': Store, next: nat, f: FileMeta)
    requires StepOk(st, c, outs, st', next)
    requires IsOutput(outs, f)
    ensures f.number >= next && FileOk(st'.tables, f)
    ensures forall g :: IsOutput(outs, g) && g.number == f.number ==> g == f
    ensures forall g :: IsOutput(outs, g) && g != f ==> NothingShared(st'.tables, f, g)
  {
    hide CompactedTo, Chosen, Sound, InputEntries, OutputEntries, FileOk, NothingShared;
  }

  lemma CompactedUniqueNumbers(st: Store, c: Compaction, outs: seq<OutputFile>, st': Store, next: nat)
    requires StepOk(st, c, outs, st', next)
    ensures UniqueNumbers(st'.version)
  {
    var v' := st'.version;
    forall l, m, f, g | 0 <= l < NUM_LEVELS && 0 <= m < NUM_LEVELS && f in v'.files[l] && g in v'.files[m]
                        && f.number == g.number
      ensures l == m && f == g
    {
      FileAfter(st, c, outs, st', next, l, f);
      FileAfter(st, c, outs, st', next, m, g);
      hide *;
      if l == c.level + 1 && IsOutput(outs, f) {
        if LeftBehind(st, c, st', m, g) { LeftBehindIsOld(st, c, outs, st', next, m, g); }
        OutputIsFresh(st, c, outs, st', next, f);
      } else if m == c.level + 1 && IsOutput(outs, g) {
        LeftBehindIsOld(st, c, outs, st', next, l, f);
        OutputIsFresh(st, c, outs, st', next, g);
      } else {
        OldFilesUnique(st, c, outs, st', next, l, f, m, g);
      }
    }
  }

  lemma LeftBehindIsOld(st: Store, c: Compaction, outs: seq<OutputFile>, st': Store, next: nat, l: nat, f: FileMeta)
    requires StepOk(st, c, outs, st', next)
    requires l < NUM_LEVELS && LeftBehind(st, c, st', l, f)
    ensures f.number < next
  {
  }

  lemma OldFilesUnique(st: Store, c: Compaction, outs: seq<OutputFile>, st': Store, next: nat, l: nat, f: FileMeta, m: nat, g: FileMeta)
    requires StepOk(st, c, outs, st', next)
    requires l < NUM_LEVELS && LeftBehind(st, c, st', l, f)
    requires m < NUM_LEVELS && LeftBehind(st, c, st', m, g)
    requires f.number == g.number
    ensures l == m && f == g
  {
    hide CompactedTo, OutputsOk, Chosen, InputEntries, OutputEntries, LevelZeroOrder, LevelOrder, LevelsDisjoint, FilesOk, MemNewest;
  }

  lemma CompactedLevelZero(st: Store, c: Compaction, outs: seq<OutputFile>, st': Store, next: nat)
    requires CompactionOk(st, c, outs, st', next)
    ensures LevelZeroOrder(st'.version, st'.tables)
  {
    LayeredShape(st, c, outs, st', next);
    hide CompactionOk, StepOk, LayersOk, LevelsCompacted, Chosen, TablesGrow;
    if c.level == 0 {
      NothingAtZero(st, c, outs, st');
    } else {
      ZeroKept(st, c, outs, st');
      LayersHaveOrder(st);
    }
  }

  lemma LayersHaveOrder(st: Store)
    requires LayersOk(st)
    ensures LevelZeroOrder(st.version, st.tables)
  {
    hide FilesOk, UniqueNumbers, LevelZeroOrder, LevelOrder, LevelsDisjoint, MemNewest, Ascending;
  }

  lemma NothingAtZero(st: Store, c: Compaction, outs: seq<OutputFile>, st': Store)
    requires st.version.Valid() && Chosen(st.version, c) && CompactedTo(st, c, outs, st') && c.level == 0
    ensures st'.version.files[0] == []
  {
    hide InputsFor, LevelGains, TablesGrow, OtherLevelsKept;
    EmptyOrInhabited(st'.version.files[0]);
  }

  lemma ZeroKept(st: Store, c: Compaction, outs: seq<OutputFile>, st': Store)
    requires st.version.Valid() && c.level + 1 < NUM_LEVELS && CompactedTo(st, c, outs, st') && c.level != 0
    ensures LevelZeroOrder(st.version, st.tables) ==> LevelZeroOrder(st'.version, st'.tables)
  {
    hide LevelGains, LevelLoses;
    assert st'.version.files[0] == st.version.files[0];
    assert forall i :: 0 <= i < |st.version.files[0]| ==> st.version.files[0][i] in st.version.files[0];
  }

  lemma CompactedLevelOrder(st: Store, c: Compaction, outs: seq<OutputFile>, st': Store, next: nat)
    requires CompactionOk(st, c, outs, st', next)
    ensures LevelOrder(st'.version, st'.tables)
  {
    LayeredShape(st, c, outs, st', next);
    var v' := st'.version;
    forall l, m, f, g | 0 <= l < m < NUM_LEVELS && f in v'.files[l] && g in v'.files[m]
      ensures NewerThan(st'.tables, f, g)
    {
      FileAfter(st, c, outs, st', next, l, f);
      FileAfter(st, c, outs, st', next, m, g);
      hide *;
      if l == c.level + 1 && IsOutput(outs, f) {
        OutputAboveDeeper(st, c, outs, st', next, f, m, g);
      } else if m == c.level + 1 && IsOutput(outs, g) {
        ShallowerAboveOutput(st, c, outs, st', next, l, f, g);
      } else {
        LeftBehindOrder(st, c, st', l, f, m, g);
      }
    }
  }

  lemma LeftBehindOrder(st: Store, c: Compaction, st': Store, l: nat, f: FileMeta, m: nat, g: FileMeta)
    requires LayersOk(st) && l < m < NUM_LEVELS
    requires LeftBehind(st, c, st', l, f) && LeftBehind(st, c, st', m, g)
    ensures NewerThan(st'.tables, f, g)
  {
    hide LevelZeroOrder, LevelsDisjoint, FilesOk, MemNewest, UniqueNumbers, Ascending;
    assert NewerThan(st.tables, f, g);
  }

  lemma OutputAboveDeeper(st: Store, c: Compaction, outs: seq<OutputFile>, st': Store, next: nat, f: FileMeta, m: nat, g: FileMeta)
    requires CompactionOk(st, c, outs, st', next)
    requires IsOutput(outs, f) && c.level + 1 < m < NUM_LEVELS && LeftBehind(st, c, st', m, g)
    ensures NewerThan(st'.tables, f, g)
  {
    LayeredShape(st, c, outs, st', next);
    forall a, b | a in Contents(st'.tables, f) && b in Contents(st'.tables, g) && a.Key() == b.Key()
      ensures a.Seqno() > b.Seqno()
    {
      var x := OutputCameFrom(st, c, outs, st', next, f, a);
      assert NewerThan(st.tables, x, g);
    }
  }

  lemma ShallowerAboveOutput(st: Store, c: Compaction, outs: seq<OutputFile>, st': Store, next: nat, l: nat, f: FileMeta, g: FileMeta)
    requires CompactionOk(st, c, outs, st', next)
    requires IsOutput(outs, g) && l < c.level + 1
    requires LeftBehind(st, c, st', l, f)
    ensures NewerThan(st'.tables, f, g)
  {
    LayeredShape(st, c, outs, st', next);
    forall a, b | a in Contents(st'.tables, f) && b in Contents(st'.tables, g) && a.Key() == b.Key()
      ensures a.Seqno() > b.Seqno()
    {
      var x := OutputCameFrom(st, c, outs, st', next, g, b);
      assert a in Contents(st.tables, f);
      if l == c.level {
        LeftBehindSharesNoKey(st, c, f, x, a, b);
      }
      assert NewerThan(st.tables, f, x);
    }
  }

  lemma CompactedDisjoint(st: Store, c: Compaction, outs: seq<OutputFile>, st': Store, next: nat)
    requires CompactionOk(st, c, outs, st', next)
    ensures LevelsDisjoint(st'.version)
  {
    LayeredShape(st, c, outs, st', next);
    assert st'.version.Valid();
    hide CompactionOk;
    var v' := st'.version;
    forall l | 1 <= l < NUM_LEVELS ensures DisjointRanges(v'.files[l]) {
      forall f, g | f in v'.files[l] && g in v'.files[l] && f != g ensures Before2(f, g) || Before2(g, f) {
        CompactedDisjointFiles(st, c, outs, st', next, l, f, g);
      }
    }
  }

  lemma CompactedDisjointFiles(st: Store, c: Compaction, outs: seq<OutputFile>, st': Store, next: nat, l: nat, f: FileMeta, g: FileMeta)
    requires CompactionOk(st, c, outs, st', next)
    requires 1 <= l < NUM_LEVELS && f in st'.version.files[l] && g in st'.version.files[l] && f != g
    ensures Before2(f, g) || Before2(g, f)
  {
    LayeredShape(st, c, outs, st', next);
    hide *;
    FileAfter(st, c, outs, st', next, l, f);
    FileAfter(st, c, outs, st', next, l, g);
    if l == c.level + 1 && IsOutput(outs, f) {
      if IsOutput(outs, g) {
        OutputsLieApart(outs, f, g);
      } else {
        RetainedApartFromOutput(st, c, outs, st', next, g, f);
      }
    } else if l == c.level + 1 && IsOutput(outs, g) {
      RetainedApartFromOutput(st, c, outs, st', next, f, g);
    } else {
      LeftBehindDisjoint(st, c, st', l, f, g);
    }
  }

  lemma LeftBehindDisjoint(st: Store, c: Compaction, st': Store, l: nat, f: FileMeta, g: FileMeta)
    requires LayersOk(st) && 1 <= l < NUM_LEVELS && f != g
    requires LeftBehind(st, c, st', l, f) && LeftBehind(st, c, st', l, g)
    ensures Before2(f, g) || Before2(g, f)
  {
    hide LevelZeroOrder, LevelOrder, FilesOk, MemNewest, UniqueNumbers, Ascending;
    assert DisjointRanges(st.version.files[l]);
  }

  lemma OutputsLieApart(outs: seq<OutputFile>, f: FileMeta, g: FileMeta)
    requires OutputsApart(outs) && IsOutput(outs, f) && IsOutput(outs, g) && f != g
    ensures Before2(f, g) || Before2(g, f)
  {
    hide Before2;
  }

  /** A file left behind in the output level lies to one side of every output. */
  lemma RetainedApartFromOutput(st: Store, c: Compaction, outs: seq<OutputFile>, st': Store, next: nat, f: FileMeta, o: FileMeta)
    requires CompactionOk(st, c, outs, st', next)
    requires LeftBehind(st, c, st', c.level + 1, f) && IsOutput(outs, o)
    ensures Before2(f, o) || Before2(o, f)
  {
    hide CompactionOk, LayersOk, Chosen, CompactedTo, OutputsOk, FileOk, IsOutput;
    OrderFacts();
    LayeredShape(st, c, outs, st', next);
    ApartFromInputs(st, c, f);
    var es := Contents(st'.tables, o);
    OutputEnds(st, c, outs, st', next, o);
    var g := OutputCameFrom(st, c, outs, st', next, o, es[0]);
    var h := OutputCameFrom(st, c, outs, st', next, o, es[|es| - 1]);
    InputHolds(st, c, g, es[0]);
    InputHolds(st, c, h, es[|es| - 1]);
  }

  lemma OutputEnds(st: Store, c: Compaction, outs: seq<OutputFile>, st': Store, next: nat, o: FileMeta)
    requires StepOk(st, c, outs, st', next) && IsOutput(outs, o)
    ensures var es := Contents(st'.tables, o); es != [] && o.smallest == es[0].ik && o.largest == es[|es| - 1].ik
  {
    hide StepOk, Ascending;
    OutputIsFresh(st, c, outs, st', next, o);
  }

  lemma InputHolds(st: Store, c: Compaction, g: FileMeta, e: Entry)
    requires LayersOk(st) && Chosen(st.version, c) && g in Inputs(c) && e in Contents(st.tables, g)
    ensures !Before(e.Key(), Lo(g)) && !Before(Hi(g), e.Key())
  {
    InputsAreFiles(st.version, c, g);
    hide Chosen, LevelZeroOrder, LevelOrder, LevelsDisjoint, MemNewest, UniqueNumbers;
    assert FileOk(st.tables, g);
    KeyInRange(st.tables, g, e);
  }

  lemma ApartFromInputs(st: Store, c: Compaction, f: FileMeta)
    requires LayersOk(st) && Chosen(st.version, c) && f in st.version.files[c.level + 1] && f !in Inputs(c)
    ensures Apart(c, f)
  {
    var v := st.version;
    assert c.level + 1 < NUM_LEVELS && DisjointRanges(v.files[c.level + 1]);
    hide Chosen, LevelZeroOrder, LevelOrder, LevelsDisjoint, MemNewest, UniqueNumbers, Apart, DisjointRanges, Before, FileOk;
    forall x | x in v.files[c.level + 1] ensures !Before(Hi(x), Lo(x)) { FileRangeIsProper(st.tables, x); }
    forall x | x in c.inputs0 ensures !Before(Hi(x), Lo(x)) {
      InputsAreFiles(v, c, x);
      FileRangeIsProper(st.tables, x);
    }
    LeftBehindIsApart(v, c, f);
  }

  lemma CompactedEntries(st: Store, c: Compaction, outs: seq<OutputFile>, st': Store, next: nat, e: Entry)
    requires StepOk(st, c, outs, st', next)
    requires e in EntriesOf(st'.tables, AllFiles(st'.version))
    ensures e in EntriesOf(st.tables, AllFiles(st.version))
  {
    hide StepOk, Sound, Chosen, CompactedTo, OutputsOk, IsOutput, Contents;
    StepShape(st, c, outs, st', next);
    var f :| f in AllFiles(st'.version) && e in Contents(st'.tables, f);
    var l: nat :| l < NUM_LEVELS && f in st'.version.files[l];
    FileAfter(st, c, outs, st', next, l, f);
    if l == c.level + 1 && IsOutput(outs, f) {
      var g := OutputCameFrom(st, c, outs, st', next, f, e);
      assert g in AllFiles(st.version);
    } else {
      assert f in AllFiles(st.version);
    }
  }

  /** The files of two places after a compaction share no version. */
  lemma CompactedNothingTwice(st: Store, c: Compaction, outs: seq<OutputFile>, st': Store, next: nat)
    requires StepOk(st, c, outs, st', next)
    ensures NothingTwice(st'.version, st'.tables)
  {
    StepShape(st, c, outs, st', next);
    hide StepOk, Sound, Chosen, CompactedTo, OutputsOk, NothingShared;
    var v' := st'.version;
    forall f, g | f in AllFiles(v') && g in AllFiles(v') && f != g ensures NothingShared(st'.tables, f, g) {
      var l: nat :| l < NUM_LEVELS && f in v'.files[l];
      var m: nat :| m < NUM_LEVELS && g in v'.files[m];
      CompactedFilesApart(st, c, outs, st', next, l, f, m, g);
    }
  }

  lemma CompactedFilesApart(st: Store, c: Compaction, outs: seq<OutputFile>, st': Store, next: nat, l: nat, f: FileMeta, m: nat, g: FileMeta)
    requires StepOk(st, c, outs, st', next) && st'.version.Valid() && f != g
    requires l < NUM_LEVELS && f in st'.version.files[l] && m < NUM_LEVELS && g in st'.version.files[m]
    ensures NothingShared(st'.tables, f, g)
  {
    StepShape(st, c, outs, st', next);
    hide StepOk, Sound, Chosen, CompactedTo, OutputsOk, NothingShared;
    FileAfter(st, c, outs, st', next, l, f);
    FileAfter(st, c, outs, st', next, m, g);
    if l == c.level + 1 && IsOutput(outs, f) {
      if m == c.level + 1 && IsOutput(outs, g) {
        OutputIsFresh(st, c, outs, st', next, f);
      } else {
        OutputApartFromLeft(st, c, outs, st', next, f, m, g);
      }
    } else if m == c.level + 1 && IsOutput(outs, g) {
      OutputApartFromLeft(st, c, outs, st', next, g, l, f);
      SharedNothingBack(st'.tables, g, f);
    } else {
      LeftBehindApart(st, c, st', l, f, m, g);
    }
  }

  lemma SharedNothingBack(tables: map<nat, seq<Entry>>, f: FileMeta, g: FileMeta)
    requires NothingShared(tables, f, g)
    ensures NothingShared(tables, g, f)
  {
  }

  lemma LeftBehindApart(st: Store, c: Compaction, st': Store, l: nat, f: FileMeta, m: nat, g: FileMeta)
    requires Sound(st) && l < NUM_LEVELS && m < NUM_LEVELS && f != g
    requires LeftBehind(st, c, st', l, f) && LeftBehind(st, c, st', m, g)
    ensures NothingShared(st'.tables, f, g)
  {
    hide FilesOk, UniqueNumbers, MemApart, Ascending, Contents;
    assert f in AllFiles(st.version) && g in AllFiles(st.version);
    assert NothingShared(st.tables, f, g);
  }

  lemma OutputApartFromLeft(st: Store, c: Compaction, outs: seq<OutputFile>, st': Store, next: nat, f: FileMeta, m: nat, g: FileMeta)
    requires StepOk(st, c, outs, st', next)
    requires IsOutput(outs, f) && m < NUM_LEVELS && LeftBehind(st, c, st', m, g)
    ensures NothingShared(st'.tables, f, g)
  {
    StepShape(st, c, outs, st', next);
    hide *;
    forall a, b | a in Contents(st'.tables, f) && b in Contents(st'.tables, g) ensures a.Key() != b.Key() || a.Seqno() != b.Seqno() {
      var x := OutputCameFrom(st, c, outs, st', next, f, a);
      LeftAndTaken(st, c, st', m, g, x);
      NoSharedVersion(st.tables, x, g, a, b);
    }
    SharesNothing(st'.tables, f, g);
  }

  lemma LeftAndTaken(st: Store, c: Compaction, st': Store, m: nat, g: FileMeta, x: FileMeta)
    requires Sound(st) && Chosen(st.version, c) && m < NUM_LEVELS && LeftBehind(st, c, st', m, g) && x in Inputs(c)
    ensures NothingShared(st.tables, x, g) && Contents(st'.tables, g) == Contents(st.tables, g)
  {
    InputsAreFiles(st.version, c, x);
    hide Chosen, Sound;
    assert x in AllFiles(st.version) && g in AllFiles(st.version);
    SoundShares(st, x, g);
  }

  lemma NoSharedVersion(tables: map<nat, seq<Entry>>, f: FileMeta, g: FileMeta, a: Entry, b: Entry)
    requires NothingShared(tables, f, g) && a in Contents(tables, f) && b in Contents(tables, g)
    ensures a.Key() != b.Key() || a.Seqno() != b.Seqno()
  {
  }

  lemma SharesNothing(tables: map<nat, seq<Entry>>, f: FileMeta, g: FileMeta)
    requires forall a, b :: a in Contents(tables, f) && b in Contents(tables, g) ==> a.Key() != b.Key() || a.Seqno() != b.Seqno()
    ensures NothingShared(tables, f, g)
  {
  }

  lemma SoundShares(st: Store, f: FileMeta, g: FileMeta)
    requires Sound(st) && f in AllFiles(st.version) && g in AllFiles(st.version) && f != g
    ensures NothingShared(st.tables, f, g)
  {
    hide NothingShared, FilesOk, UniqueNumbers, MemApart, Ascending;
  }

  /** Compaction keeps the store sound, wherever its output is cut. */
  lemma CompactionKeepsSound(st: Store, c: Compaction, outs: seq<OutputFile>, st': Store, next: nat)
    requires StepOk(st, c, outs, st', next)
    ensures Sound(st')
  {
    StepShape(st, c, outs, st', next);
    hide StepOk, FilesOk, UniqueNumbers, NothingTwice, Chosen, OutputsOk, LevelsCompacted, Ascending;
    CompactedFilesOk(st, c, outs, st', next);
    CompactedUniqueNumbers(st, c, outs, st', next);
    CompactedNothingTwice(st, c, outs, st', next);
    assert MemApart(st);
    forall a, b | a in st'.mem && b in EntriesOf(st'.tables, AllFiles(st'.version)) ensures a.Key() != b.Key() || a.Seqno() != b.Seqno() {
      CompactedEntries(st, c, outs, st', next, b);
    }
  }

  /** Compaction keeps the layer invariants. */
  lemma CompactionKeepsLayers(st: Store, c: Compaction, outs: seq<OutputFile>, st': Store, next: nat)
    requires CompactionOk(st, c, outs, st', next)
    ensures LayersOk(st')
  {
    LayeredShape(st, c, outs, st', next);
    CompactedFilesOk(st, c, outs, st', next);
    CompactedUniqueNumbers(st, c, outs, st', next);
    CompactedLevelZero(st, c, outs, st', next);
    CompactedLevelOrder(st, c, outs, st', next);
    CompactedDisjoint(st, c, outs, st', next);
    hide StepOk, FilesOk, UniqueNumbers, LevelZeroOrder, LevelOrder, LevelsDisjoint, Chosen, OutputsOk;
    forall a, b | a in st'.mem && b in EntriesOf(st'.tables, AllFiles(st'.version)) ensures a.Seqno() > b.Seqno() {
      CompactedEntries(st, c, outs, st', next, b);
    }
  }

  // ----- compaction preserves every reader's view ---------------------------------------------

  /** The entries a compaction does not touch. */
  ghost function Remaining(st: Store, c: Compaction): set<Entry>
    requires st.version.Valid()
  {
    SetOf(st.mem) + EntriesOf(st.tables, set f | f in AllFiles(st.version) && f !in Inputs(c))
  }

  lemma StoredSplits(st: Store, c: Compaction)
    requires st.version.Valid() && Chosen(st.version, c)
    ensures Stored(st) == Remaining(st, c) + InputEntries(st, c)
  {
  }

  lemma StoredAfter(st: Store, c: Compaction, outs: seq<OutputFile>, st': Store, next: nat)
    requires StepOk(st, c, outs, st', next)
    ensures Stored(st') == Remaining(st, c) + OutputEntries(outs)
  {
    forall e | e in Stored(st') ensures e in Remaining(st, c) + OutputEntries(outs) {
      StoredAfterOnly(st, c, outs, st', next, e);
    }
    forall e | e in Remaining(st, c) + OutputEntries(outs) ensures e in Stored(st') {
      StoredAfterAll(st, c, outs, st', next, e);
    }
  }

  lemma StoredAfterOnly(st: Store, c: Compaction, outs: seq<OutputFile>, st': Store, next: nat, e: Entry)
    requires StepOk(st, c, outs, st', next)
    requires e in Stored(st')
    ensures e in Remaining(st, c) + OutputEntries(outs)
  {
    hide StepOk, Sound, Chosen, CompactedTo, OutputsOk, IsOutput, InputEntries, Contents;
    StepShape(st, c, outs, st', next);
    if e in EntriesOf(st'.tables, AllFiles(st'.version)) {
      var f :| f in AllFiles(st'.version) && e in Contents(st'.tables, f);
      var l: nat :| l < NUM_LEVELS && f in st'.version.files[l];
      FileAfter(st, c, outs, st', next, l, f);
      if l == c.level + 1 && IsOutput(outs, f) {
        InOutput(st, c, outs, st', next, f, e);
      } else {
        assert f in AllFiles(st.version);
      }
    } else {
      MemStays(st, c, outs, st', next);
    }
  }

  lemma InOutput(st: Store, c: Compaction, outs: seq<OutputFile>, st': Store, next: nat, f: FileMeta, e: Entry)
    requires StepOk(st, c, outs, st', next) && IsOutput(outs, f) && e in Contents(st'.tables, f)
    ensures e in OutputEntries(outs)
  {
    hide CompactedTo, Chosen, Sound, InputEntries;
    var o :| o in outs && o.meta == f;
    assert e in o.entries;
  }

  lemma StoredAfterAll(st: Store, c: Compaction, outs: seq<OutputFile>, st': Store, next: nat, e: Entry)
    requires StepOk(st, c, outs, st', next)
    requires e in Remaining(st, c) + OutputEntries(outs)
    ensures e in Stored(st')
  {
    hide StepOk, Sound, Chosen, CompactedTo, OutputsOk, Contents;
    StepShape(st, c, outs, st', next);
    if e in OutputEntries(outs) {
      var o :| o in outs && e in o.entries;
      OutputIsStored(st, c, outs, st', next, o);
      assert o.meta in AllFiles(st'.version);
    } else if e !in SetOf(st.mem) {
      var f :| f in AllFiles(st.version) && f !in Inputs(c) && e in Contents(st.tables, f);
      var l: nat :| l < NUM_LEVELS && f in st.version.files[l];
      FileStays(st, c, outs, st', next, l, f);
      assert f in AllFiles(st'.version);
    } else {
      MemStays(st, c, outs, st', next);
    }
  }

  lemma MemStays(st: Store, c: Compaction, outs: seq<OutputFile>, st': Store, next: nat)
    requires StepOk(st, c, outs, st', next)
    ensures st'.mem == st.mem
  {
    hide Chosen, Sound, OutputsOk;
  }

  lemma OutputIsStored(st: Store, c: Compaction, outs: seq<OutputFile>, st': Store, next: nat, o: OutputFile)
    requires StepOk(st, c, outs, st', next)
    requires o in outs
    ensures c.level + 1 < NUM_LEVELS && o.meta in st'.version.files[c.level + 1]
    ensures Contents(st'.tables, o.meta) == o.entries
  {
    hide StepOk, Sound, Chosen, Before2, Ascending, OtherLevelsKept, LevelLoses, TablesGrow;
    StepShape(st, c, outs, st', next);
    assert IsOutput(outs, o.meta);
  }

  lemma FileStays(st: Store, c: Compaction, outs: seq<OutputFile>, st': Store, next: nat, l: nat, f: FileMeta)
    requires StepOk(st, c, outs, st', next)
    requires l < NUM_LEVELS && f in st.version.files[l] && f !in Inputs(c)
    ensures f in st'.version.files[l] && Contents(st'.tables, f) == Contents(st.tables, f)
  {
    assert st.version.Valid() && c.level + 1 < NUM_LEVELS;
    hide Sound, InputEntries, OutputEntries, OutputsOk, IsOutput, Chosen;
    UntouchedFileStays(st, c, outs, st', l, f);
  }

  lemma UntouchedFileStays(st: Store, c: Compaction, outs: seq<OutputFile>, st': Store, l: nat, f: FileMeta)
    requires st.version.Valid() && c.level + 1 < NUM_LEVELS && CompactedTo(st, c, outs, st')
    requires l < NUM_LEVELS && f in st.version.files[l] && f !in Inputs(c)
    ensures f in st'.version.files[l] && Contents(st'.tables, f) == Contents(st.tables, f)
  {
  }

  lemma RetainedIsNoInput(st: Store, c: Compaction, l: nat, f: FileMeta)
    requires st.version.Valid() && UniqueNumbers(st.version) && Chosen(st.version, c)
    requires l < NUM_LEVELS && f in st.version.files[l]
    requires (l == c.level ==> f !in c.inputs0) && (l == c.level + 1 ==> f !in c.inputs1)
    ensures f !in Inputs(c)
  {
    InputsAreFiles(st.version, c, f);
  }

  /** At a key's base level, everything a compaction leaves behind of the key is newer than its inputs. */
  lemma BaseLevelMeansNewer(st: Store, c: Compaction, r: Entry, e: Entry)
    requires LayersOk(st) && Chosen(st.version, c)
    requires r in Remaining(st, c) && e in InputEntries(st, c) && r.Key() == e.Key()
    requires IsBaseLevel(st.version, c.level, e.Key())
    ensures r.Seqno() > e.Seqno()
  {
    var v := st.version;
    var g :| g in Inputs(c) && e in Contents(st.tables, g);
    InputsAreFiles(v, c, g);
    assert g in AllFiles(v);
    if r in SetOf(st.mem) {
      hide LevelZeroOrder, LevelOrder, LevelsDisjoint, UniqueNumbers, FilesOk, IsBaseLevel, Chosen;
      assert e in EntriesOf(st.tables, AllFiles(v));
    } else {
      var f :| f in AllFiles(v) && f !in Inputs(c) && r in Contents(st.tables, f);
      var l: nat :| l < NUM_LEVELS && f in v.files[l];
      hide *;
      BaseLevelFile(st, c, l, f, g, r, e);
    }
  }

  lemma BaseLevelFile(st: Store, c: Compaction, l: nat, f: FileMeta, g: FileMeta, r: Entry, e: Entry)
    requires LayersOk(st) && Chosen(st.version, c)
    requires l < NUM_LEVELS && f in st.version.files[l] && f !in Inputs(c) && r in Contents(st.tables, f)
    requires g in Inputs(c) && e in Contents(st.tables, g) && r.Key() == e.Key()
    requires IsBaseLevel(st.version, c.level, e.Key())
    ensures r.Seqno() > e.Seqno()
  {
    hide LayersOk, IsBaseLevel, Chosen;
    LayersParts(st);
    if l >= c.level + 2 {
      NoFileBelowBase(st, c.level, l, f, r);
    } else {
      LeftBehindSharesNoKey(st, c, f, g, r, e);
      InputsAreFiles(st.version, c, g);
      LevelsAreOrdered(st, l, if g in c.inputs0 then c.level else c.level + 1, f, g);
    }
  }

  lemma LevelsAreOrdered(st: Store, l: nat, m: nat, f: FileMeta, g: FileMeta)
    requires LayersOk(st) && l < m < NUM_LEVELS && f in st.version.files[l] && g in st.version.files[m]
    ensures NewerThan(st.tables, f, g)
  {
    hide LevelZeroOrder, LevelsDisjoint, UniqueNumbers, FilesOk, MemNewest, Ascending, NewerThan;
  }

  lemma NoFileBelowBase(st: Store, level: nat, l: nat, f: FileMeta, r: Entry)
    requires LayersOk(st) && level + 2 <= l < NUM_LEVELS
    requires f in st.version.files[l] && r in Contents(st.tables, f)
    ensures !IsBaseLevel(st.version, level, r.Key())
  {
    assert FileOk(st.tables, f);
    KeyInRange(st.tables, f, r);
    assert f in Overlapping(st.version.files[l], r.Key(), r.Key());
  }

  /** The drop rule takes away a deletion that hides an older value left behind. */
  ghost predicate Bares(st: Store, c: Compaction, oldest: nat)
    requires st.version.Valid()
  {
    Uncovers(Remaining(st, c), InputEntries(st, c), oldest, BaseLevelOf(st.version, c.level))
  }

  /** With the layers in order it never does. */
  lemma LayersBareNothing(st: Store, c: Compaction, oldest: nat)
    requires LayersOk(st) && st.version.Valid() && Chosen(st.version, c)
    ensures !Bares(st, c, oldest)
  {
    hide LayersOk, Chosen, Remaining, InputEntries, IsBaseLevel;
    var R, I, base := Remaining(st, c), InputEntries(st, c), BaseLevelOf(st.version, c.level);
    forall r, e | r in R && e in I && r.Key() == e.Key() && base(e.Key()) && e.Seqno() <= oldest ensures r.Seqno() > e.Seqno() {
      BaseLevelMeansNewer(st, c, r, e);
    }
    NewerMeansCovered(R, I, oldest, base);
  }

  /** What the outputs of a step hold: the survivors of the drop rule. */
  ghost predicate KeepsSurvivors(st: Store, c: Compaction, outs: seq<OutputFile>, oldest: nat)
    requires st.version.Valid()
  {
    forall e :: e in OutputEntries(outs) <==> Survives(InputEntries(st, c), e, oldest, BaseLevelOf(st.version, c.level))
  }

  /**
   * Replacing the chosen inputs by the survivors of the drop rule changes no reader's view at any `s`
   * that sees every entry the rule treats as old, unless it bares an older value.
   */
  lemma CompactionKeepsViews(st: Store, c: Compaction, outs: seq<OutputFile>, st': Store, next: nat, oldest: nat, k: Bytes, s: nat)
    requires StepOk(st, c, outs, st', next) && st.version.Valid() && KeepsSurvivors(st, c, outs, oldest) && !Bares(st, c, oldest)
    requires forall e :: e in Stored(st) && e.Seqno() <= oldest ==> e.Seqno() <= s
    ensures st'.version.Valid() && View(Stored(st'), k, s) == View(Stored(st), k, s)
  {
    StepShape(st, c, outs, st', next);
    hide StepOk, Sound, Chosen, CompactedTo, OutputsOk, Survives, Distinct, Uncovers, Stored, Remaining, InputEntries, OutputEntries, View;
    StoredSplits(st, c);
    StoredAfter(st, c, outs, st', next);
    StoredIsDistinct(st);
    CompactionPreservesView(Remaining(st, c), InputEntries(st, c), OutputEntries(outs), k, s, oldest, BaseLevelOf(st.version, c.level));
  }

  /** Exactly then: every view from `s0` on is kept if and only if nothing is bared. */
  lemma CompactionKeepsViewsIff(st: Store, c: Compaction, outs: seq<OutputFile>, st': Store, next: nat, oldest: nat, s0: nat)
    requires StepOk(st, c, outs, st', next) && st.version.Valid() && KeepsSurvivors(st, c, outs, oldest)
    requires forall e :: e in Stored(st) ==> (e.Seqno() <= oldest <==> e.Seqno() <= s0)
    ensures st'.version.Valid()
    ensures (forall k, s: nat :: s >= s0 ==> View(Stored(st'), k, s) == View(Stored(st), k, s)) <==> !Bares(st, c, oldest)
  {
    StepShape(st, c, outs, st', next);
    hide StepOk, Sound, Chosen, CompactedTo, OutputsOk, Survives, Distinct, Uncovers, Stored, Remaining, InputEntries, OutputEntries, View;
    StoredSplits(st, c);
    StoredAfter(st, c, outs, st', next);
    StoredIsDistinct(st);
    CompactionPreservesViewsIff(Remaining(st, c), InputEntries(st, c), OutputEntries(outs), s0, oldest, BaseLevelOf(st.version, c.level));
  }
}
