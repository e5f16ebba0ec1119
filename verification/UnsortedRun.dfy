/** Two writes and two compactions after which a stored key is not found: levels below 0 are not kept sorted. */
module UnsortedRuns {
  import opened ByteStrings
  import opened InternalKeys
  import opened VersionedEntries
  import opened Manifest
  import opened Versions
  import opened Compactions
  import opened CompactionOutputs
  import opened Sorting
  import opened Stores
  import opened Engine
  import opened Invariants
  import opened CompactionSteps
  import opened Recovery
  import opened Runs
  import opened SteadyRuns
  import opened Lookups
  import opened Scenarios

  const TWO: Entry := Entry(InternalKey([2], 1, Put), [])
  const ONE: Entry := Entry(InternalKey([1], 2, Put), [])

  /** Put key 2, compact, put key 1, compact. */
  const OPS: seq<Op> := [WriteOp([2], [], Put), CompactOp, WriteOp([1], [], Put), CompactOp]

  lemma LoneLists(db: Db, f: FileMeta, e: Entry, opts: Options)
    requires db.vs.Valid() && Contents(db.disk.tables, f) == [e] && e.ik.vtype.Put?
    ensures NonEmpty([[e]]) && ListsOf(db, Zero([f]), opts) == [[e]]
  {
    var st, oldest := StoreOf(db), OldestSnapshot(db.snapshots);
    assert Inputs(Zero([f])) == [f] && [f][1..] == [];
    assert AllContents(st.tables, [f]) == [e] + AllContents(st.tables, []) == [e];
    assert [e][1..] == [];
    assert InsertAll([], [e]) == InsertAll([e], []) == [e];
    assert Merged(st, Zero([f])) == [e];
    assert Survivors([e], None, oldest, BaseLevelOf(st.version, 0)) == [e] + [] == [e];
    OneFileFor(e, opts.estimate);
  }

  function FirstTables(): map<nat, seq<Entry>> {
    map[3 := [TWO]][5 := [TWO]]
  }

  function Unsorted(opts: Options): seq<FileMeta> {
    [MetaOf(5, [TWO], opts), MetaOf(8, [ONE], opts)]
  }

  lemma FirstHalf(db: Db, opts: Options)
    requires At(db, [], [], [], 0, 3, map[]) && opts.flushEntries <= 1
    ensures var r := DoAll(db, Under(opts, OPS[..2]));
            r.Some? && At(r.value, [], [MetaOf(5, [TWO], opts)], [], 1, 6, FirstTables())
  {
    hide Do, MetaOf, Ready, TwoLevels, ListsOf;
    var f := MetaOf(3, [TWO], opts);
    Writes(db, [2], [], Put, [], [], [], 0, 3, map[], opts);
    assert [] + [f] == [f];
    var a := Do(db, OPS[0], opts);
    HoldsOne(3, TWO, map[], opts);
    LoneLists(a, f, TWO, opts);
    assert TotalSize([]) == 0;
    CompactsZero(a, [f], [], [], 1, 5, map[3 := [TWO]], [[TWO]], opts);
    OneOutput([TWO], 5, map[3 := [TWO]], opts);
    assert [] + [MetaOf(5, [TWO], opts)] == [MetaOf(5, [TWO], opts)];
    var b := Do(a, CompactOp, opts);
    assert OPS[..2] == [OPS[0]] + ([CompactOp] + []);
    NextOp(db, OPS[0], [CompactOp] + [], opts);
    NextOp(a, CompactOp, [], opts);
    assert DoAll(b, []) == Some(b);
  }

  lemma HoldsOne(n: nat, e: Entry, tables: map<nat, seq<Entry>>, opts: Options)
    ensures Contents(tables[n := [e]], MetaOf(n, [e], opts)) == [e]
    ensures Lo(MetaOf(n, [e], opts)) == Hi(MetaOf(n, [e], opts)) == e.Key() && MetaOf(n, [e], opts).size == opts.fileSize([e])
  {
  }

  lemma OneIsClear(opts: Options)
    ensures Clear([MetaOf(5, [TWO], opts)], [MetaOf(6, [ONE], opts)])
  {
    assert Before([1], [2]);
  }

  lemma SecondHalf(db: Db, opts: Options)
    requires At(db, [], [MetaOf(5, [TWO], opts)], [], 1, 6, FirstTables()) && opts.flushEntries <= 1
    requires 4 * opts.fileSize([TWO]) <= MAX_BYTES_FOR_LEVEL_BASE
    ensures var r := DoAll(db, Under(opts, OPS[2..]));
            r.Some? && At(r.value, [], Unsorted(opts), [], 2, 9, FirstTables()[6 := [ONE]][8 := [ONE]])
  {
    hide Do, MetaOf, Ready, TwoLevels, ListsOf;
    var f, one := MetaOf(6, [ONE], opts), [MetaOf(5, [TWO], opts)];
    Writes(db, [1], [], Put, [], one, [], 1, 6, FirstTables(), opts);
    assert [] + [f] == [f];
    var a := Do(db, OPS[2], opts);
    HoldsOne(6, ONE, FirstTables(), opts);
    HoldsOne(5, TWO, map[3 := [TWO]], opts);
    LoneLists(a, f, ONE, opts);
    assert TotalSize(one) == opts.fileSize([TWO]) by { assert one[1..] == []; }
    OneIsClear(opts);
    CompactsZero(a, [f], one, [], 2, 8, FirstTables()[6 := [ONE]], [[ONE]], opts);
    OneOutput([ONE], 8, FirstTables()[6 := [ONE]], opts);
    assert one + [MetaOf(8, [ONE], opts)] == Unsorted(opts);
    var b := Do(a, CompactOp, opts);
    assert OPS[2..] == [OPS[2]] + ([CompactOp] + []);
    NextOp(db, OPS[2], [CompactOp] + [], opts);
    NextOp(a, CompactOp, [], opts);
    assert DoAll(b, []) == Some(b);
  }

  lemma MissesTwo(db: Db, opts: Options)
    requires At(db, [], Unsorted(opts), [], 2, 9, FirstTables()[6 := [ONE]][8 := [ONE]])
    ensures db.vs.Valid() && Lookup(StoreOf(db), [2], 2) == None
  {
    hide Ready;
    var files := db.vs.current.files;
    assert FindFile(files[1], [2]) == None;
    hide Search;
    forall l | 1 <= l < NUM_LEVELS ensures SearchFile(files[l], db.disk.tables, [2], 2) == None { }
    NothingDeeper(StoreOf(db), [2], 2, 1);
  }

  lemma {:induction false} NothingDeeper(st: Store, k: Bytes, s: nat, level: nat)
    requires st.version.Valid() && 1 <= level <= NUM_LEVELS
    requires forall l :: 1 <= l < NUM_LEVELS ==> SearchFile(st.version.files[l], st.tables, k, s) == None
    ensures SearchDeeper(st.version, st.tables, k, s, level) == None
    decreases NUM_LEVELS - level
  {
    hide SearchFile;
    if level < NUM_LEVELS {
      NothingDeeper(st, k, s, level + 1);
    }
  }

  lemma ShowsTwo(db: Db, opts: Options)
    requires At(db, [], Unsorted(opts), [], 2, 9, FirstTables()[6 := [ONE]][8 := [ONE]])
    ensures db.vs.Valid() && View(Stored(StoreOf(db)), [2], 2) == Some([])
  {
    hide Stored, Ready, TwoLevels;
    var one, tables := Unsorted(opts), FirstTables()[6 := [ONE]][8 := [ONE]];
    StoredThere(db, [], one, [], 2, 9, tables);
    assert one[0] in one && TWO in Contents(tables, one[0]);
    assert forall f :: f in one ==> f == one[0] || f == one[1];
    assert IsNewest(Stored(StoreOf(db)), [2], 2, TWO);
    NewestIsUnique(Stored(StoreOf(db)), [2], 2, TWO);
  }

  /**
   * From a new database, two puts and two compactions reach a state in which a key that is stored, and that
   * a scan shows, is not found by a point read: the second output was appended behind the first in level 1.
   * The options only have to flush every write and to make a table of one entry no more than 2.5 MiB long.
   */
  lemma StoredKeyIsMissed(opts: Options)
    requires opts.flushEntries <= 1 && 4 * opts.fileSize([TWO]) <= MAX_BYTES_FOR_LEVEL_BASE
    ensures var r := DoAll(CreateNew(), Under(opts, OPS));
            && r.Some? && r.value.vs.Valid()
            && Readable(r.value, 2)
            && Lookup(StoreOf(r.value), [2], 2) == None
            && View(Stored(StoreOf(r.value)), [2], 2) == Some([])
  {
    hide Do, CreateNew, Stored, Lookup, View, MetaOf, Ready, TwoLevels;
    Begins();
    FirstHalf(CreateNew(), opts);
    var half := DoAll(CreateNew(), Under(opts, OPS[..2])).value;
    SecondHalf(half, opts);
    UnderAppend(opts, OPS[..2], OPS[2..]);
    assert OPS[..2] + OPS[2..] == OPS;
    DoAllAppend(CreateNew(), Under(opts, OPS[..2]), Under(opts, OPS[2..]));
    var db := DoAll(half, Under(opts, OPS[2..])).value;
    MissesTwo(db, opts);
    ShowsTwo(db, opts);
  }
}
