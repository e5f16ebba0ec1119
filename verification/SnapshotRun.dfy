/** Versions of one key and a snapshot between them: what a shared sequence number and a cut inside the key do. */
module SnapshotRuns {
  import opened ByteStrings
  import opened InternalKeys
  import opened VersionedEntries
  import opened Blocks
  import opened TableReaders
  import opened Tables
  import opened Manifest
  import opened Versions
  import opened Compactions
  import opened CompactionOutputs
  import opened Sorting
  import opened Stores
  import opened Engine
  import opened Invariants
  import opened CompactionSteps
  import opened Recovery
  import opened Runs
  import opened SteadyRuns
  import opened Lookups
  import opened Scenarios
  import opened TableSizes

  const KEY: Bytes := [1]
  const FIRST: Entry := Entry(InternalKey(KEY, 1, Put), [1])

  function Second(value: Bytes): Entry {
    Entry(InternalKey(KEY, 2, Put), value)
  }

  lemma ShowsOnly(E: set<Entry>, x: Entry, s: nat)
    requires x in E && x.Key() == KEY && x.Seqno() <= s && x.ik.vtype.Put?
    requires forall y :: y in E && y.Key() == KEY ==> y.Seqno() < x.Seqno() || y == x || y.Seqno() > s
    requires Distinct(E)
    ensures View(E, KEY, s) == Some(x.value)
  {
    assert IsNewest(E, KEY, s, x);
    NewestIsUnique(E, KEY, s, x);
  }

  lemma AtIsDistinct(db: Db, zero: seq<FileMeta>, one: seq<FileMeta>, snapshots: seq<nat>, writes: nat, n: nat, tables: map<nat, seq<Entry>>)
    requires At(db, zero, one, snapshots, writes, n, tables)
    ensures db.vs.Valid() && Distinct(Stored(StoreOf(db)))
  {
    hide *;
    AtParts(db, zero, one, snapshots, writes, n, tables);
    ReadyParts(db);
    SteadyParts(db);
    StoredIsDistinct(StoreOf(db));
  }

  // ----- two versions in level 0 --------------------------------------------------------------

  function Zeros(e: Entry, opts: Options): seq<FileMeta> {
    [MetaOf(3, [FIRST], opts), MetaOf(5, [e], opts)]
  }

  lemma FirstWrite(db: Db, opts: Options)
    requires At(db, [], [], [], 0, 3, map[]) && opts.flushEntries <= 1
    ensures At(Do(db, WriteOp(KEY, [1], Put), opts), [MetaOf(3, [FIRST], opts)], [], [], 1, 5, map[3 := [FIRST]])
  {
    hide At, Do, MetaOf;
    Writes(db, KEY, [1], Put, [], [], [], 0, 3, map[], opts);
    assert [] + [MetaOf(3, [FIRST], opts)] == [MetaOf(3, [FIRST], opts)];
  }

  lemma SecondWrite(db: Db, value: Bytes, snapshots: seq<nat>, opts: Options)
    requires At(db, [MetaOf(3, [FIRST], opts)], [], snapshots, 1, 5, map[3 := [FIRST]]) && opts.flushEntries <= 1
    ensures var e := Second(value);
            At(Do(db, WriteOp(KEY, value, Put), opts), Zeros(e, opts), [], snapshots, 2, 7, map[3 := [FIRST], 5 := [e]])
  {
    hide At, Do, MetaOf;
    Writes(db, KEY, value, Put, [MetaOf(3, [FIRST], opts)], [], snapshots, 1, 5, map[3 := [FIRST]], opts);
    assert map[3 := [FIRST]][5 := [Second(value)]] == map[3 := [FIRST], 5 := [Second(value)]];
    assert [MetaOf(3, [FIRST], opts)] + [MetaOf(5, [Second(value)], opts)] == Zeros(Second(value), opts);
  }

  lemma MergesBoth(st: Store, e: Entry, opts: Options)
    requires e.Key() == KEY && e.Seqno() == 2 && 3 in st.tables && st.tables[3] == [FIRST] && 5 in st.tables && st.tables[5] == [e]
    ensures Merged(st, Zero(Zeros(e, opts))) == [e, FIRST]
  {
    var a, b := MetaOf(3, [FIRST], opts), MetaOf(5, [e], opts);
    var files := Inputs(Zero(Zeros(e, opts)));
    assert files == [a, b] && files[1..] == [b] && [b][1..] == [];
    assert AllContents(st.tables, [b]) == [e] + AllContents(st.tables, []) == [e];
    assert AllContents(st.tables, files) == [FIRST] + [e] == [FIRST, e];
    assert [FIRST, e][1..] == [e] && [e][1..] == [];
    assert InsertAll([], [FIRST, e]) == InsertAll(Insert([], FIRST), [e]);
    assert Insert([], FIRST) == [FIRST];
    assert InsertAll([FIRST], [e]) == InsertAll(Insert([FIRST], e), []) == Insert([FIRST], e);
    OrderFacts();
    assert Insert([FIRST], e) == [e] + [FIRST];
  }

  /** With no snapshot left only the newer version survives; with one between them, both do. */
  lemma BothSurvive(st: Store, e: Entry, oldest: nat, opts: Options)
    requires st.version.Valid() && (oldest == 1 || oldest == MAX_SEQUENCE) && e.ik.vtype.Put?
    requires e.Key() == KEY && e.Seqno() == 2 && 3 in st.tables && st.tables[3] == [FIRST] && 5 in st.tables && st.tables[5] == [e]
    ensures SurvivorsOf(st, Zero(Zeros(e, opts)), oldest) == if oldest == 1 then [e, FIRST] else [e]
  {
    MergesBoth(st, e, opts);
    hide Merged, IsBaseLevel;
    var base := BaseLevelOf(st.version, 0);
    assert [e, FIRST][1..] == [FIRST] && [FIRST][1..] == [];
    var last := Some((e.Key(), e.Seqno()));
    assert Survivors([], Some((FIRST.Key(), FIRST.Seqno())), oldest, base) == [];
    assert Survivors([FIRST], last, oldest, base) == (if oldest == 1 then [FIRST] else []) + [];
    assert Survivors([e, FIRST], None, oldest, base) == [e] + Survivors([FIRST], last, oldest, base);
  }

  // ----- a shared sequence number -------------------------------------------------------------

  /** Two readers take a snapshot of the first version, one lets go, and the version is overwritten and compacted. */
  const SHARED: seq<Op> := [WriteOp(KEY, [1], Put), AcquireOp, AcquireOp, ReleaseOp(1), WriteOp(KEY, [2], Put), CompactOp]

  lemma SharedHalf(db: Db, opts: Options)
    requires At(db, [], [], [], 0, 3, map[]) && opts.flushEntries <= 1
    ensures var r := DoAll(db, Under(opts, SHARED[..3]));
            r.Some? && At(r.value, [MetaOf(3, [FIRST], opts)], [], [1, 1], 1, 5, map[3 := [FIRST]])
            && DoAll(db, Under(opts, SHARED)) == DoAll(r.value, Under(opts, SHARED[3..]))
  {
    hide Do, MetaOf, Ready, TwoLevels;
    var ops, zero := SHARED, [MetaOf(3, [FIRST], opts)];
    FirstWrite(db, opts);
    var a := Do(db, ops[0], opts);
    Acquires(a, zero, [], [], 1, 5, map[3 := [FIRST]], opts);
    var b := Do(a, AcquireOp, opts);
    assert [] + [1] == [1] && [1] + [1] == [1, 1];
    Acquires(b, zero, [], [1], 1, 5, map[3 := [FIRST]], opts);
    var c := Do(b, AcquireOp, opts);
    assert ops[..3] == [ops[0]] + ([AcquireOp] + ([AcquireOp] + []));
    NextOp(db, ops[0], [AcquireOp] + ([AcquireOp] + []), opts);
    NextOp(a, AcquireOp, [AcquireOp] + [], opts);
    NextOp(b, AcquireOp, [], opts);
    assert DoAll(c, []) == Some(c);
    assert Under(opts, ops) == Under(opts, ops[..3]) + Under(opts, ops[3..]) by {
      UnderAppend(opts, ops[..3], ops[3..]);
      assert ops[..3] + ops[3..] == ops;
    }
    DoAllAppend(db, Under(opts, ops[..3]), Under(opts, ops[3..]));
  }

  lemma OverwrittenLists(db: Db, e: Entry, opts: Options)
    requires At(db, Zeros(e, opts), [], [], 2, 7, map[3 := [FIRST], 5 := [e]]) && e == Second([2])
    ensures db.vs.Valid() && NonEmpty([[e]]) && ListsOf(db, Zero(Zeros(e, opts)), opts) == [[e]]
  {
    hide SurvivorsOf, Outputs, Ready, MetaOf;
    BothSurvive(StoreOf(db), e, MAX_SEQUENCE, opts);
    OneFileFor(e, opts.estimate);
  }

  lemma SharedEnd(db: Db, opts: Options)
    requires At(db, [MetaOf(3, [FIRST], opts)], [], [1, 1], 1, 5, map[3 := [FIRST]]) && opts.flushEntries <= 1
    ensures var e := Second([2]);
            var r := DoAll(db, Under(opts, SHARED[3..]));
            r.Some? && At(r.value, [], [MetaOf(7, [e], opts)], [], 2, 8, map[3 := [FIRST], 5 := [e], 7 := [e]])
  {
    hide Do, MetaOf, Ready, TwoLevels;
    var ops, e, zero := SHARED, Second([2]), [MetaOf(3, [FIRST], opts)];
    assert Released([1, 1], 1) == [] by { assert [1, 1][1..] == [1] && [1][1..] == []; }
    Releases(db, 1, zero, [], [1, 1], 1, 5, map[3 := [FIRST]], opts);
    var a := Do(db, ReleaseOp(1), opts);
    SecondWrite(a, [2], [], opts);
    var b := Do(a, ops[4], opts);
    OverwrittenLists(b, e, opts);
    assert TotalSize([]) == 0;
    CompactsZero(b, Zeros(e, opts), [], [], 2, 7, map[3 := [FIRST], 5 := [e]], [[e]], opts);
    var c := Do(b, CompactOp, opts);
    OneOutput([e], 7, map[3 := [FIRST], 5 := [e]], opts);
    assert [] + [MetaOf(7, [e], opts)] == [MetaOf(7, [e], opts)];
    assert ops[3..] == [ReleaseOp(1)] + ([ops[4]] + ([CompactOp] + []));
    NextOp(db, ReleaseOp(1), [ops[4]] + ([CompactOp] + []), opts);
    NextOp(a, ops[4], [CompactOp] + [], opts);
    NextOp(b, CompactOp, [], opts);
    assert DoAll(c, []) == Some(c);
  }

  /**
   * Two readers that took the same sequence number share one fate: once one of them lets go, a write and a
   * compaction take the version the other one is still reading.
   */
  lemma SharedSequenceLosesView(opts: Options)
    requires opts.flushEntries <= 1
    ensures var before := DoAll(CreateNew(), Under(opts, SHARED[..3]));
            var after := DoAll(CreateNew(), Under(opts, SHARED));
            && before.Some? && before.value.vs.Valid() && after.Some? && after.value.vs.Valid()
            && before.value.snapshots == [1, 1]
            && View(Stored(StoreOf(before.value)), KEY, 1) == Some([1])
            && View(Stored(StoreOf(after.value)), KEY, 1) == None
  {
    hide Do, CreateNew, Stored, At, MetaOf;
    Begins();
    SharedHalf(CreateNew(), opts);
    var before := DoAll(CreateNew(), Under(opts, SHARED[..3])).value;
    SharedEnd(before, opts);
    var after := DoAll(CreateNew(), Under(opts, SHARED)).value;
    FirstShows(before, opts);
    SecondOnly(after, opts);
  }

  lemma FirstShows(db: Db, opts: Options)
    requires At(db, [MetaOf(3, [FIRST], opts)], [], [1, 1], 1, 5, map[3 := [FIRST]])
    ensures db.vs.Valid() && db.snapshots == [1, 1] && View(Stored(StoreOf(db)), KEY, 1) == Some([1])
  {
    hide Stored, Ready, View, TwoLevels;
    var f := MetaOf(3, [FIRST], opts);
    StoredThere(db, [f], [], [1, 1], 1, 5, map[3 := [FIRST]]);
    AtIsDistinct(db, [f], [], [1, 1], 1, 5, map[3 := [FIRST]]);
    assert f in [f] && FIRST in Contents(map[3 := [FIRST]], f);
    ShowsOnly(Stored(StoreOf(db)), FIRST, 1);
  }

  lemma SecondOnly(db: Db, opts: Options)
    requires var e := Second([2]); At(db, [], [MetaOf(7, [e], opts)], [], 2, 8, map[3 := [FIRST], 5 := [e], 7 := [e]])
    ensures db.vs.Valid() && View(Stored(StoreOf(db)), KEY, 1) == None
  {
    hide Stored, Ready, TwoLevels;
    var e := Second([2]);
    StoredThere(db, [], [MetaOf(7, [e], opts)], [], 2, 8, map[3 := [FIRST], 5 := [e], 7 := [e]]);
    NothingVisible(Stored(StoreOf(db)), KEY, 1);
  }

  // ----- a cut inside the key -----------------------------------------------------------------

  /** A snapshot keeps the first version; the output is cut before it. */
  function CutOps(value: Bytes): seq<Op> {
    [WriteOp(KEY, [1], Put), AcquireOp, WriteOp(KEY, value, Put), CompactOp]
  }

  function CutTables(e: Entry): map<nat, seq<Entry>> {
    map[3 := [FIRST], 5 := [e], 7 := [e], 8 := [FIRST]]
  }

  function Halves(e: Entry, opts: Options): seq<FileMeta> {
    [MetaOf(7, [e], opts), MetaOf(8, [FIRST], opts)]
  }

  /** An open file that reached the target is cut before the next entry. */
  lemma CutAfterOne(e: Entry, estimate: seq<Entry> -> nat)
    requires estimate([e]) >= TARGET_FILE_SIZE
    ensures Outputs([e, FIRST], [], estimate) == [[e], [FIRST]]
  {
    assert [e, FIRST][1..] == [FIRST] && [FIRST][1..] == [];
    var one := Place(Start, e, [], estimate);
    var two := Place(one, FIRST, [], estimate);
    assert one == Splitter([], [e], 0, 0) && two == Splitter([[e]], [FIRST], 0, 0);
    assert PlaceAll(Start, [e, FIRST], [], estimate) == PlaceAll(one, [FIRST], [], estimate);
    assert PlaceAll(one, [FIRST], [], estimate) == PlaceAll(two, [], [], estimate) == two;
  }

  lemma CutLists(db: Db, e: Entry, opts: Options)
    requires At(db, Zeros(e, opts), [], [1], 2, 7, map[3 := [FIRST], 5 := [e]])
    requires e.Key() == KEY && e.Seqno() == 2 && e.ik.vtype.Put? && opts.estimate([e]) >= TARGET_FILE_SIZE
    ensures db.vs.Valid() && ListsOf(db, Zero(Zeros(e, opts)), opts) == [[e], [FIRST]]
  {
    hide SurvivorsOf, Outputs, Ready, MetaOf;
    BothSurvive(StoreOf(db), e, 1, opts);
    CutAfterOne(e, opts.estimate);
  }

  lemma CutRun(db: Db, value: Bytes, opts: Options)
    requires At(db, [], [], [], 0, 3, map[]) && opts.flushEntries <= 1 && opts.estimate([Second(value)]) >= TARGET_FILE_SIZE
    ensures var e := Second(value);
            var r := DoAll(db, Under(opts, CutOps(value)));
            r.Some? && At(r.value, [], Halves(e, opts), [1], 2, 9, CutTables(e))
  {
    hide Do, MetaOf, Ready, TwoLevels;
    var ops, e, zero := CutOps(value), Second(value), [MetaOf(3, [FIRST], opts)];
    FirstWrite(db, opts);
    var a := Do(db, ops[0], opts);
    Acquires(a, zero, [], [], 1, 5, map[3 := [FIRST]], opts);
    var b := Do(a, AcquireOp, opts);
    assert [] + [1] == [1];
    SecondWrite(b, value, [1], opts);
    var c := Do(b, ops[2], opts);
    CutLists(c, e, opts);
    TwoOutputs([e], [FIRST], 7, map[3 := [FIRST], 5 := [e]], opts);
    assert TotalSize([]) == 0;
    CompactsZero(c, Zeros(e, opts), [], [1], 2, 7, map[3 := [FIRST], 5 := [e]], [[e], [FIRST]], opts);
    var d := Do(c, CompactOp, opts);
    assert [] + Halves(e, opts) == Halves(e, opts);
    assert ops == [ops[0]] + ([AcquireOp] + ([ops[2]] + ([CompactOp] + [])));
    NextOp(db, ops[0], [AcquireOp] + ([ops[2]] + ([CompactOp] + [])), opts);
    NextOp(a, AcquireOp, [ops[2]] + ([CompactOp] + []), opts);
    NextOp(b, ops[2], [CompactOp] + [], opts);
    NextOp(c, CompactOp, [], opts);
    assert DoAll(d, []) == Some(d);
  }

  lemma CutShows(db: Db, e: Entry, opts: Options)
    requires At(db, [], Halves(e, opts), [1], 2, 9, CutTables(e)) && e == Second(e.value)
    ensures db.vs.Valid() && View(Stored(StoreOf(db)), KEY, 2) == Some(e.value)
  {
    hide Stored, Ready, View, TwoLevels;
    var one := Halves(e, opts);
    StoredThere(db, [], one, [1], 2, 9, CutTables(e));
    AtIsDistinct(db, [], one, [1], 2, 9, CutTables(e));
    assert one[0] in one && e in Contents(CutTables(e), one[0]);
    assert forall f :: f in one ==> f == one[0] || f == one[1];
    ShowsOnly(Stored(StoreOf(db)), e, 2);
  }

  lemma CutReadsFirst(db: Db, e: Entry, opts: Options)
    requires At(db, [], Halves(e, opts), [1], 2, 9, CutTables(e)) && e.Key() == KEY
    ensures db.vs.Valid() && Read(Lookup(StoreOf(db), KEY, 2)) == Some([1])
  {
    hide Ready;
    var one := Halves(e, opts);
    OrderFacts();
    assert Search(one, KEY, 0, 2) == Search(one, KEY, 2, 2) == 2;
    assert FindFile(one, KEY) == Some(one[1]);
    hide Search, FindFile;
    assert SearchSorted([FIRST], KEY, 2) == Some(FIRST);
    assert SearchFile(one, CutTables(e), KEY, 2) == Some(FIRST);
    hide SearchFile;
    assert SearchDeeper(db.vs.current, db.disk.tables, KEY, 2, 1) == Some(FIRST);
  }

  /**
   * From a new database, a cut inside a user key makes point reads return an overwritten value, whatever the
   * options that flush every write and call the newer version's file full.
   */
  lemma CutInsideKeyReadsStale(opts: Options, value: Bytes)
    requires opts.flushEntries <= 1 && opts.estimate([Second(value)]) >= TARGET_FILE_SIZE
    ensures var r := DoAll(CreateNew(), Under(opts, CutOps(value)));
            && r.Some? && r.value.vs.Valid() && Readable(r.value, 2)
            && Read(Lookup(StoreOf(r.value), KEY, 2)) == Some([1])
            && View(Stored(StoreOf(r.value)), KEY, 2) == Some(value)
  {
    hide Do, CreateNew, Stored, Lookup, View, MetaOf, Ready, TwoLevels;
    Begins();
    CutRun(CreateNew(), value, opts);
    var db := DoAll(CreateNew(), Under(opts, CutOps(value))).value;
    CutShows(db, Second(value), opts);
    CutReadsFirst(db, Second(value), opts);
  }

  /** With the builder's own sizes, overwriting with a value of the target size is such an input. */
  lemma LargeValueReadsStale(value: Bytes, maxBytes: nat, blockTarget: nat, probes: Byte, bitsPerKey: nat)
    requires |value| >= TARGET_FILE_SIZE
    ensures var opts := ProgramOptions(1, maxBytes, blockTarget, probes, bitsPerKey);
            var r := DoAll(CreateNew(), Under(opts, CutOps(value)));
            && r.Some? && r.value.vs.Valid() && Readable(r.value, 2)
            && Read(Lookup(StoreOf(r.value), KEY, 2)) == Some([1])
            && View(Stored(StoreOf(r.value)), KEY, 2) == Some(value)
  {
    hide Do, CreateNew, Stored, Lookup, View, BuilderEstimate, TableOf, EntryBytes, DoAll, Under, Readable;
    var opts, e := ProgramOptions(1, maxBytes, blockTarget, probes, bitsPerKey), Second(value);
    EstimateOfOne(Pair(e), blockTarget);
    assert Pairs([e]) == [Pair(e)];
    assert opts.estimate([e]) == BuilderEstimate([Pair(e)], blockTarget);
    CutInsideKeyReadsStale(opts, value);
  }

  // ----- a deletion that comes apart from what it deletes -------------------------------------

  const HIDDEN: Entry := Entry(InternalKey(KEY, 2, Put), [1])
  const GONE: Entry := Entry(InternalKey(KEY, 3, ValueType.Delete), [])

  /** The neighbour that comes before the key. */
  function Near(pad: Bytes): Entry {
    Entry(InternalKey([0], 1, Put), pad)
  }

  /** A neighbour, a value, a snapshot of it, its deletion, a compaction, and a snapshot of the deletion. */
  function HideOps(pad: Bytes): seq<Op> {
    [WriteOp([0], pad, Put), WriteOp(KEY, [1], Put), AcquireOp, WriteOp(KEY, [], ValueType.Delete), CompactOp, AcquireOp]
  }

  function Three(pad: Bytes, opts: Options): seq<FileMeta> {
    [MetaOf(3, [Near(pad)], opts), MetaOf(5, [HIDDEN], opts), MetaOf(7, [GONE], opts)]
  }

  function ThreeTables(pad: Bytes): map<nat, seq<Entry>> {
    map[3 := [Near(pad)], 5 := [HIDDEN], 7 := [GONE]]
  }

  function Parted(pad: Bytes, opts: Options): seq<FileMeta> {
    [MetaOf(9, [Near(pad), GONE], opts), MetaOf(10, [HIDDEN], opts)]
  }

  function PartedTables(pad: Bytes): map<nat, seq<Entry>> {
    ThreeTables(pad)[9 := [Near(pad), GONE]][10 := [HIDDEN]]
  }

  /** The file is full exactly when the deletion is in it. */
  ghost predicate FullAtDeletion(pad: Bytes, opts: Options) {
    opts.estimate([Near(pad)]) < TARGET_FILE_SIZE <= opts.estimate([Near(pad), GONE])
  }

  lemma ThreeWrites(db: Db, pad: Bytes, opts: Options)
    requires At(db, [], [], [], 0, 3, map[]) && opts.flushEntries <= 1
    ensures var r := DoAll(db, Under(opts, HideOps(pad)[..4]));
            r.Some? && At(r.value, Three(pad, opts), [], [2], 3, 9, ThreeTables(pad))
  {
    hide Do, At, MetaOf;
    var ops, nb := HideOps(pad), Near(pad);
    var one, two := [MetaOf(3, [nb], opts)], [MetaOf(3, [nb], opts), MetaOf(5, [HIDDEN], opts)];
    IsUp(db, [], [], [], 0, 3, map[]);
    Writes(db, [0], pad, Put, [], [], [], 0, 3, map[], opts);
    assert [] + [MetaOf(3, [nb], opts)] == one;
    var a := Do(db, ops[0], opts);
    IsUp(a, one, [], [], 1, 5, map[3 := [nb]]);
    Writes(a, KEY, [1], Put, one, [], [], 1, 5, map[3 := [nb]], opts);
    assert one + [MetaOf(5, [HIDDEN], opts)] == two;
    var b := Do(a, ops[1], opts);
    IsUp(b, two, [], [], 2, 7, map[3 := [nb]][5 := [HIDDEN]]);
    Acquires(b, two, [], [], 2, 7, map[3 := [nb]][5 := [HIDDEN]], opts);
    assert [] + [2] == [2];
    var c := Do(b, AcquireOp, opts);
    IsUp(c, two, [], [2], 2, 7, map[3 := [nb]][5 := [HIDDEN]]);
    Writes(c, KEY, [], ValueType.Delete, two, [], [2], 2, 7, map[3 := [nb]][5 := [HIDDEN]], opts);
    assert two + [MetaOf(7, [GONE], opts)] == Three(pad, opts);
    assert map[3 := [nb]][5 := [HIDDEN]][7 := [GONE]] == ThreeTables(pad);
    var d := Do(c, ops[3], opts);
    assert ops[..4] == [ops[0]] + ([ops[1]] + ([AcquireOp] + ([ops[3]] + [])));
    NextOp(db, ops[0], [ops[1]] + ([AcquireOp] + ([ops[3]] + [])), opts);
    NextOp(a, ops[1], [AcquireOp] + ([ops[3]] + []), opts);
    NextOp(b, AcquireOp, [ops[3]] + [], opts);
    NextOp(c, ops[3], [], opts);
    assert DoAll(d, []) == Some(d);
  }

  lemma IsUp(db: Db, zero: seq<FileMeta>, one: seq<FileMeta>, snapshots: seq<nat>, writes: nat, n: nat, tables: map<nat, seq<Entry>>)
    requires At(db, zero, one, snapshots, writes, n, tables)
    ensures db.vs.Valid() && db.walNumber in db.disk.logs && db.snapshots == snapshots
  {
    hide Ready, TwoLevels;
  }

  lemma MergesThree(st: Store, pad: Bytes, opts: Options)
    requires st.tables == ThreeTables(pad)
    ensures Merged(st, Zero(Three(pad, opts))) == [Near(pad), GONE, HIDDEN]
  {
    var nb := Near(pad);
    var a, b, c := MetaOf(3, [nb], opts), MetaOf(5, [HIDDEN], opts), MetaOf(7, [GONE], opts);
    var files := Inputs(Zero(Three(pad, opts)));
    assert files == [a, b, c] && files[1..] == [b, c] && [b, c][1..] == [c] && [c][1..] == [];
    assert AllContents(st.tables, [c]) == [GONE] + AllContents(st.tables, []) == [GONE];
    assert AllContents(st.tables, [b, c]) == [HIDDEN] + [GONE] == [HIDDEN, GONE];
    assert AllContents(st.tables, files) == [nb] + [HIDDEN, GONE] == [nb, HIDDEN, GONE];
    InsertsThree(nb);
  }

  lemma InsertsThree(nb: Entry)
    requires nb.Key() == [0]
    ensures InsertAll([], [nb, HIDDEN, GONE]) == [nb, GONE, HIDDEN]
  {
    assert [nb, HIDDEN, GONE][1..] == [HIDDEN, GONE] && [HIDDEN, GONE][1..] == [GONE] && [GONE][1..] == [];
    OrderFacts();
    assert Before([0], KEY);
    assert Insert([], nb) == [nb];
    assert [nb][1..] == [] && Insert([], HIDDEN) == [HIDDEN];
    assert Insert([nb], HIDDEN) == [nb] + [HIDDEN] == [nb, HIDDEN];
    assert [nb, HIDDEN][1..] == [HIDDEN];
    assert Insert([HIDDEN], GONE) == [GONE] + [HIDDEN];
    assert Insert([nb, HIDDEN], GONE) == [nb] + Insert([HIDDEN], GONE) == [nb, GONE, HIDDEN];
    assert InsertAll([], [nb, HIDDEN, GONE]) == InsertAll([nb], [HIDDEN, GONE]) == InsertAll([nb, HIDDEN], [GONE])
        == InsertAll([nb, GONE, HIDDEN], []);
  }

  /** With a snapshot of the value, all three stay. */
  lemma ThreeSurvive(st: Store, pad: Bytes, opts: Options)
    requires st.version.Valid() && st.tables == ThreeTables(pad)
    ensures SurvivorsOf(st, Zero(Three(pad, opts)), 2) == [Near(pad), GONE, HIDDEN]
  {
    MergesThree(st, pad, opts);
    hide Merged, IsBaseLevel;
    var base, nb := BaseLevelOf(st.version, 0), Near(pad);
    assert [nb, GONE, HIDDEN][1..] == [GONE, HIDDEN] && [GONE, HIDDEN][1..] == [HIDDEN] && [HIDDEN][1..] == [];
    assert Survivors([], Some((KEY, 2)), 2, base) == [];
    assert Survivors([HIDDEN], Some((KEY, 3)), 2, base) == [HIDDEN] + [];
    assert Survivors([GONE, HIDDEN], Some(([0], 1)), 2, base) == [GONE] + [HIDDEN];
    assert Survivors([nb, GONE, HIDDEN], None, 2, base) == [nb] + [GONE, HIDDEN];
  }

  lemma CutAfterTwo(pad: Bytes, opts: Options)
    requires FullAtDeletion(pad, opts)
    ensures Outputs([Near(pad), GONE, HIDDEN], [], opts.estimate) == [[Near(pad), GONE], [HIDDEN]]
  {
    var nb, estimate := Near(pad), opts.estimate;
    assert [nb, GONE, HIDDEN][1..] == [GONE, HIDDEN] && [GONE, HIDDEN][1..] == [HIDDEN] && [HIDDEN][1..] == [];
    var one := Place(Start, nb, [], estimate);
    var two := Place(one, GONE, [], estimate);
    var three := Place(two, HIDDEN, [], estimate);
    assert one == Splitter([], [nb], 0, 0);
    assert [nb] + [GONE] == [nb, GONE];
    assert two == Splitter([], [nb, GONE], 0, 0) && three == Splitter([[nb, GONE]], [HIDDEN], 0, 0);
    assert PlaceAll(Start, [nb, GONE, HIDDEN], [], estimate) == PlaceAll(one, [GONE, HIDDEN], [], estimate);
    assert PlaceAll(one, [GONE, HIDDEN], [], estimate) == PlaceAll(two, [HIDDEN], [], estimate);
    assert PlaceAll(two, [HIDDEN], [], estimate) == PlaceAll(three, [], [], estimate) == three;
  }

  lemma PartedLists(db: Db, pad: Bytes, opts: Options)
    requires At(db, Three(pad, opts), [], [2], 3, 9, ThreeTables(pad)) && FullAtDeletion(pad, opts)
    ensures db.vs.Valid() && ListsOf(db, Zero(Three(pad, opts)), opts) == [[Near(pad), GONE], [HIDDEN]]
  {
    hide SurvivorsOf, Outputs, Ready, MetaOf;
    ThreeSurvive(StoreOf(db), pad, opts);
    CutAfterTwo(pad, opts);
  }

  lemma HideRun(db: Db, pad: Bytes, opts: Options)
    requires At(db, [], [], [], 0, 3, map[]) && opts.flushEntries <= 1 && FullAtDeletion(pad, opts)
    ensures var r := DoAll(db, Under(opts, HideOps(pad)));
            r.Some? && At(r.value, [], Parted(pad, opts), [2, 3], 3, 11, PartedTables(pad))
  {
    hide Do, At, MetaOf, FullAtDeletion;
    var ops := HideOps(pad);
    ThreeWrites(db, pad, opts);
    var a := DoAll(db, Under(opts, ops[..4])).value;
    IsUp(a, Three(pad, opts), [], [2], 3, 9, ThreeTables(pad));
    PartedLists(a, pad, opts);
    TwoOutputs([Near(pad), GONE], [HIDDEN], 9, ThreeTables(pad), opts);
    assert TotalSize([]) == 0;
    CompactsZero(a, Three(pad, opts), [], [2], 3, 9, ThreeTables(pad), [[Near(pad), GONE], [HIDDEN]], opts);
    assert [] + Parted(pad, opts) == Parted(pad, opts);
    var b := Do(a, CompactOp, opts);
    IsUp(b, [], Parted(pad, opts), [2], 3, 11, PartedTables(pad));
    Acquires(b, [], Parted(pad, opts), [2], 3, 11, PartedTables(pad), opts);
    assert [2] + [3] == [2, 3];
    var c := Do(b, AcquireOp, opts);
    NextOp(a, CompactOp, [AcquireOp] + [], opts);
    NextOp(b, AcquireOp, [], opts);
    assert DoAll(c, []) == Some(c);
    assert ops == ops[..4] + ([CompactOp] + ([AcquireOp] + []));
    UnderAppend(opts, ops[..4], [CompactOp] + ([AcquireOp] + []));
    DoAllAppend(db, Under(opts, ops[..4]), Under(opts, [CompactOp] + ([AcquireOp] + [])));
  }

  lemma HiddenAtThree(db: Db, pad: Bytes, opts: Options)
    requires At(db, [], Parted(pad, opts), [2, 3], 3, 11, PartedTables(pad))
    ensures db.vs.Valid() && View(Stored(StoreOf(db)), KEY, 3) == None
  {
    hide Stored, Ready, TwoLevels, MetaOf;
    var one := Parted(pad, opts);
    StoredThere(db, [], one, [2, 3], 3, 11, PartedTables(pad));
    AtIsDistinct(db, [], one, [2, 3], 3, 11, PartedTables(pad));
    MetaNumbers(pad, opts);
    assert one[0] in one && GONE in Contents(PartedTables(pad), one[0]);
    assert IsNewest(Stored(StoreOf(db)), KEY, 3, GONE);
    NewestIsUnique(Stored(StoreOf(db)), KEY, 3, GONE);
  }

  lemma MetaNumbers(pad: Bytes, opts: Options)
    ensures Contents(PartedTables(pad), MetaOf(9, [Near(pad), GONE], opts)) == [Near(pad), GONE]
    ensures Contents(PartedTables(pad), MetaOf(10, [HIDDEN], opts)) == [HIDDEN]
  {
  }

  // ----- the half with the deletion is compacted away -----------------------------------------

  function Upper(pad: Bytes, opts: Options): Compaction {
    Compaction(1, [MetaOf(9, [Near(pad), GONE], opts)], [], [])
  }

  lemma OneWins(v: Version, one: seq<FileMeta>)
    requires TwoLevels(v, [], one) && TotalSize(one) > 0
    ensures BestLevel(v) == Some(1)
  {
    assert Score(v, 0) == 0.0;
    assert Score(v, 1) > 0.0;
    forall l | 2 <= l < NUM_LEVELS ensures Score(v, l) == 0.0 {
      EmptyLevelScoresZero(v, l);
    }
    hide Score, TotalSize;
    StaysBest(v, 2, 1);
  }

  lemma PicksUpper(v: Version, pointers: seq<Bytes>, pad: Bytes, opts: Options)
    requires TwoLevels(v, [], Parted(pad, opts)) && |pointers| == NUM_LEVELS && pointers[1] == [] && opts.fileSize([HIDDEN]) > 0
    ensures PickCompaction(v, pointers) == Some(Upper(pad, opts))
  {
    hide BestLevel, MinLo, MaxHi;
    assert Parted(pad, opts)[1..] == [MetaOf(10, [HIDDEN], opts)];
    OneWins(v, Parted(pad, opts));
  }

  lemma MergesUpper(st: Store, pad: Bytes, opts: Options)
    requires st.tables == PartedTables(pad)
    ensures Merged(st, Upper(pad, opts)) == [Near(pad), GONE]
  {
    var f, nb := MetaOf(9, [Near(pad), GONE], opts), Near(pad);
    MetaNumbers(pad, opts);
    assert Inputs(Upper(pad, opts)) == [f] && [f][1..] == [];
    assert AllContents(st.tables, [f]) == [nb, GONE] + AllContents(st.tables, []) == [nb, GONE];
    assert [nb, GONE][1..] == [GONE] && [GONE][1..] == [] && [nb][1..] == [];
    OrderFacts();
    assert Before([0], KEY);
    assert Insert([], nb) == [nb] && Insert([], GONE) == [GONE];
    assert Insert([nb], GONE) == [nb] + [GONE] == [nb, GONE];
    assert InsertAll([], [nb, GONE]) == InsertAll([nb], [GONE]) == InsertAll([nb, GONE], []);
  }

  /** Nothing lies below, so the deletion is dropped although the value is still above. */
  lemma UpperSurvivors(st: Store, pad: Bytes, opts: Options)
    requires TwoLevels(st.version, [], Parted(pad, opts)) && st.tables == PartedTables(pad)
    ensures SurvivorsOf(st, Upper(pad, opts), 3) == [Near(pad)]
  {
    MergesUpper(st, pad, opts);
    hide Merged;
    var base, nb := BaseLevelOf(st.version, 1), Near(pad);
    assert IsBaseLevel(st.version, 1, KEY);
    assert [nb, GONE][1..] == [GONE] && [GONE][1..] == [];
    assert Survivors([], Some((KEY, 3)), 3, base) == [];
    assert Survivors([GONE], Some(([0], 1)), 3, base) == [] + [];
    assert Survivors([nb, GONE], None, 3, base) == [nb] + [];
  }

  lemma UpperLeaves(st: Store, pad: Bytes, opts: Options)
    requires TwoLevels(st.version, [], Parted(pad, opts)) && st.tables == PartedTables(pad) && st.mem == []
    ensures HIDDEN in Remaining(st, Upper(pad, opts)) && GONE !in Remaining(st, Upper(pad, opts))
    ensures forall x :: x in Remaining(st, Upper(pad, opts)) ==> x == HIDDEN
  {
    var a, b := MetaOf(9, [Near(pad), GONE], opts), MetaOf(10, [HIDDEN], opts);
    MetaNumbers(pad, opts);
    hide Contents, MetaOf;
    var v := st.version;
    assert a != b by { MetasDiffer(pad, opts); }
    assert v.files[1] == [a, b];
    assert v.files[1][1] == b;
    assert b in v.files[1];
    assert b in AllFiles(v) && b !in Inputs(Upper(pad, opts));
    assert HIDDEN in Contents(st.tables, b);
    forall f | f in AllFiles(v) ensures f == a || f == b {
      var l: nat :| l < NUM_LEVELS && f in v.files[l];
    }
  }

  lemma MetasDiffer(pad: Bytes, opts: Options)
    ensures MetaOf(9, [Near(pad), GONE], opts) != MetaOf(10, [HIDDEN], opts)
  {
  }

  lemma OnlyNeighbour(pad: Bytes)
    ensures forall x :: x in SetOf([Near(pad)]) ==> x == Near(pad)
  {
  }

  lemma CompactsUpper(db: Db, pad: Bytes, opts: Options)
    requires At(db, [], Parted(pad, opts), [3], 3, 11, PartedTables(pad)) && opts.fileSize([HIDDEN]) > 0
    ensures var db' := Do(db, CompactOp, opts);
            db'.vs.Valid() && db'.snapshots == [3] && View(Stored(StoreOf(db')), KEY, 3) == Some([1])
  {
    var c := Upper(pad, opts);
    DoKeepsReady(db, CompactOp, opts);
    AtParts(db, [], Parted(pad, opts), [3], 3, 11, PartedTables(pad));
    ReadyParts(db);
    PicksUpper(db.vs.current, db.vs.compactPointers, pad, opts);
    assert Picks(db, c) && Do(db, CompactOp, opts) == Compact(db, opts);
    PickedIsChosen(db.vs.current, db.vs.compactPointers);
    assert OldestSnapshot([3]) == 3;
    hide *;
    CompactFields(db, c, opts);
    CompactKeepsSteady(db, c, opts);
    CompactionIsStep(db, c, opts);
    UpperSurvivors(StoreOf(db), pad, opts);
    UpperLeaves(StoreOf(db), pad, opts);
    OnlyNeighbour(pad);
    SteadyParts(Compact(db, opts));
    ComesBack(StoreOf(db), pad, CompactionOuts(db, c, opts), StoreOf(Compact(db, opts)), opts, db.nextNumber);
  }

  lemma ComesBack(st: Store, pad: Bytes, outs: seq<OutputFile>, st': Store, opts: Options, next: nat)
    requires StepOk(st, Upper(pad, opts), outs, st', next) && Sound(st') && st.version.Valid()
    requires HIDDEN in Remaining(st, Upper(pad, opts)) && forall x :: x in Remaining(st, Upper(pad, opts)) ==> x == HIDDEN
    requires forall x :: x in OutputEntries(outs) ==> x == Near(pad)
    ensures st'.version.Valid() && View(Stored(st'), KEY, 3) == Some([1])
  {
    hide *;
    StepShape(st, Upper(pad, opts), outs, st', next);
    StoredAfter(st, Upper(pad, opts), outs, st', next);
    StoredIsDistinct(st');
    ValueShows(Stored(st'), pad);
  }

  lemma ValueShows(E: set<Entry>, pad: Bytes)
    requires Distinct(E) && HIDDEN in E && forall y :: y in E ==> y == HIDDEN || y == Near(pad)
    ensures View(E, KEY, 3) == Some([1])
  {
    hide View;
    ShowsOnly(E, HIDDEN, 3);
  }

  /**
   * The oldest reader is all that holds such a store together: once it lets go, a compaction drops the
   * deletion at its base level while the value is left behind, and a reader of the deletion, live all along,
   * sees the value again.
   */
  lemma CutInsideKeyResurrects(opts: Options, pad: Bytes)
    requires opts.flushEntries <= 1 && opts.fileSize([HIDDEN]) > 0 && FullAtDeletion(pad, opts)
    ensures var before := DoAll(CreateNew(), Under(opts, HideOps(pad)));
            var after := DoAll(CreateNew(), Under(opts, HideOps(pad) + [ReleaseOp(2), CompactOp]));
            && before.Some? && before.value.vs.Valid() && after.Some? && after.value.vs.Valid()
            && before.value.snapshots == [2, 3] && after.value.snapshots == [3]
            && View(Stored(StoreOf(before.value)), KEY, 3) == None
            && View(Stored(StoreOf(after.value)), KEY, 3) == Some([1])
  {
    hide Do, CreateNew, Stored, View, MetaOf, At, FullAtDeletion;
    Begins();
    HideRun(CreateNew(), pad, opts);
    var before := DoAll(CreateNew(), Under(opts, HideOps(pad))).value;
    IsUp(before, [], Parted(pad, opts), [2, 3], 3, 11, PartedTables(pad));
    HiddenAtThree(before, pad, opts);
    Releases(before, 2, [], Parted(pad, opts), [2, 3], 3, 11, PartedTables(pad), opts);
    assert Released([2, 3], 2) == [3] by { assert [2, 3][1..] == [3] && [3][1..] == []; }
    var a := Do(before, ReleaseOp(2), opts);
    IsUp(a, [], Parted(pad, opts), [3], 3, 11, PartedTables(pad));
    CompactsUpper(a, pad, opts);
    NextOp(before, ReleaseOp(2), [CompactOp] + [], opts);
    NextOp(a, CompactOp, [], opts);
    assert DoAll(Do(a, CompactOp, opts), []) == Some(Do(a, CompactOp, opts));
    assert [ReleaseOp(2), CompactOp] == [ReleaseOp(2)] + ([CompactOp] + []);
    UnderAppend(opts, HideOps(pad), [ReleaseOp(2), CompactOp]);
    DoAllAppend(CreateNew(), Under(opts, HideOps(pad)), Under(opts, [ReleaseOp(2), CompactOp]));
  }

  /** With the builder's own sizes, a neighbour of this length is such an input for every block target. */
  lemma LongNeighbourResurrects(pad: Bytes, maxBytes: nat, blockTarget: nat, probes: Byte, bitsPerKey: nat)
    requires |pad| == TARGET_FILE_SIZE - 34
    ensures var opts := ProgramOptions(1, maxBytes, blockTarget, probes, bitsPerKey);
            var before := DoAll(CreateNew(), Under(opts, HideOps(pad)));
            var after := DoAll(CreateNew(), Under(opts, HideOps(pad) + [ReleaseOp(2), CompactOp]));
            && before.Some? && before.value.vs.Valid() && after.Some? && after.value.vs.Valid()
            && before.value.snapshots == [2, 3] && after.value.snapshots == [3]
            && View(Stored(StoreOf(before.value)), KEY, 3) == None
            && View(Stored(StoreOf(after.value)), KEY, 3) == Some([1])
  {
    hide Do, CreateNew, Stored, View, BuilderEstimate, TableOf, EntryBytes, DoAll, Under;
    var opts := ProgramOptions(1, maxBytes, blockTarget, probes, bitsPerKey);
    NeighbourFills(pad, blockTarget);
    assert Pairs([Near(pad)]) == [Pair(Near(pad))];
    assert opts.estimate([Near(pad)]) == BuilderEstimate([Pair(Near(pad))], blockTarget);
    assert Pairs([Near(pad), GONE]) == [Pair(Near(pad)), Pair(GONE)];
    assert opts.estimate([Near(pad), GONE]) == BuilderEstimate([Pair(Near(pad)), Pair(GONE)], blockTarget);
    TableHasFooter([HIDDEN], blockTarget, FilterBits(blockTarget, bitsPerKey), probes);
    CutInsideKeyResurrects(opts, pad);
  }

  lemma NeighbourFills(pad: Bytes, blockTarget: nat)
    requires |pad| == TARGET_FILE_SIZE - 34
    ensures BuilderEstimate([Pair(Near(pad))], blockTarget) < TARGET_FILE_SIZE
    ensures BuilderEstimate([Pair(Near(pad)), Pair(GONE)], blockTarget) >= TARGET_FILE_SIZE
  {
    var a, b := Pair(Near(pad)), Pair(GONE);
    hide BuilderEstimate, EntryBytes;
    assert a.key[0] == 0 && b.key[0] == 1;
    LongEntry(a);
    EstimateOfOne(a, blockTarget);
    EstimateOfTwo(a, b, blockTarget);
  }
}
