/** Short runs from a new database, one operation after the other, with whatever options flush every write. */
module Scenarios {
  import opened ByteStrings
  import opened InternalKeys
  import opened VersionedEntries
  import opened Wal
  import opened Manifest
  import opened Versions
  import opened Compactions
  import opened CompactionOutputs
  import opened Stores
  import opened Engine
  import opened Invariants
  import opened CompactionSteps
  import opened Recovery
  import opened Runs
  import opened SteadyRuns

  ghost predicate TwoLevels(v: Version, zero: seq<FileMeta>, one: seq<FileMeta>) {
    && v.Valid() && v.files[0] == zero && v.files[1] == one
    && (forall l :: 2 <= l < NUM_LEVELS ==> v.files[l] == [])
  }

  /** A state between operations: nothing in memory, files in two levels, level 1 not compacted yet. */
  ghost predicate At(db: Db, zero: seq<FileMeta>, one: seq<FileMeta>, snapshots: seq<nat>, writes: nat, n: nat, tables: map<nat, seq<Entry>>) {
    && db.vs.Valid() && TwoLevels(db.vs.current, zero, one) && db.vs.compactPointers[1] == []
    && db.mem == [] && db.memSeq == db.vs.lastSequence == writes && db.nextNumber == n
    && db.walNumber in db.disk.logs && db.snapshots == snapshots && db.disk.tables == tables
    && Ready(db)
  }

  lemma Begins()
    ensures At(CreateNew(), [], [], [], 0, 3, map[])
  {
    hide CreateNew, Ready;
    NewIsReady();
    CreateNewFields();
    NoFiles();
  }

  lemma AtParts(db: Db, zero: seq<FileMeta>, one: seq<FileMeta>, snapshots: seq<nat>, writes: nat, n: nat, tables: map<nat, seq<Entry>>)
    requires At(db, zero, one, snapshots, writes, n, tables)
    ensures db.vs.Valid() && TwoLevels(db.vs.current, zero, one) && db.vs.compactPointers[1] == [] && Ready(db)
    ensures db.mem == [] && db.memSeq == db.vs.lastSequence == writes && db.nextNumber == n
    ensures db.walNumber in db.disk.logs && db.snapshots == snapshots && db.disk.tables == tables
  {
    hide Ready, TwoLevels;
  }

  lemma AtIf(db: Db, zero: seq<FileMeta>, one: seq<FileMeta>, snapshots: seq<nat>, writes: nat, n: nat, tables: map<nat, seq<Entry>>)
    requires db.vs.Valid() && TwoLevels(db.vs.current, zero, one) && db.vs.compactPointers[1] == [] && Ready(db)
    requires db.mem == [] && db.memSeq == db.vs.lastSequence == writes && db.nextNumber == n
    requires db.walNumber in db.disk.logs && db.snapshots == snapshots && db.disk.tables == tables
    ensures At(db, zero, one, snapshots, writes, n, tables)
  {
    hide Ready, TwoLevels;
  }

  // ----- a write, a snapshot ------------------------------------------------------------------

  lemma Writes(db: Db, k: Bytes, value: Bytes, vtype: ValueType, zero: seq<FileMeta>, one: seq<FileMeta>, snapshots: seq<nat>,
               writes: nat, n: nat, tables: map<nat, seq<Entry>>, opts: Options)
    requires At(db, zero, one, snapshots, writes, n, tables) && k != [] && opts.flushEntries <= 1
    ensures var e := Entry(InternalKey(k, writes + 1, vtype), value);
            At(Do(db, WriteOp(k, value, vtype), opts), zero + [MetaOf(n, [e], opts)], one, snapshots, writes + 1, n + 2, tables[n := [e]])
  {
    hide *;
    var e := Entry(InternalKey(k, writes + 1, vtype), value);
    AtParts(db, zero, one, snapshots, writes, n, tables);
    DoKeepsReady(db, WriteOp(k, value, vtype), opts);
    LevelsGrow(db.vs.current, zero, one, MetaOf(n, [e], opts));
    WriteIsFlushed(db, k, value, vtype, opts);
    LogsOne(db, e);
    FlushesOne(Logged(db, e), e, opts);
    AtIf(Do(db, WriteOp(k, value, vtype), opts), zero + [MetaOf(n, [e], opts)], one, snapshots, writes + 1, n + 2, tables[n := [e]]);
  }

  lemma LogsOne(db: Db, e: Entry)
    requires db.walNumber in db.disk.logs && db.mem == []
    ensures var logged := Logged(db, e);
            && logged.mem == [e] && logged.memSeq == e.ik.seqno && logged.vs == db.vs.(lastSequence := e.ik.seqno)
            && (db.vs.Valid() ==> logged.vs.Valid())
            && logged.disk.tables == db.disk.tables && logged.snapshots == db.snapshots && logged.nextNumber == db.nextNumber
  {
    hide WithRecord;
  }

  lemma FlushesOne(db: Db, e: Entry, opts: Options)
    requires db.vs.Valid() && db.mem == [e] && db.vs.lastSequence == db.memSeq
    ensures var db' := Flush(db, opts);
            && db'.vs.Valid() && db'.vs.current == Version(db.vs.current.files[0 := db.vs.current.files[0] + [MetaOf(db.nextNumber, [e], opts)]])
            && db'.vs.compactPointers == db.vs.compactPointers && db'.mem == [] && db'.memSeq == db'.vs.lastSequence == db.memSeq
            && db'.nextNumber == db.nextNumber + 2 && db'.walNumber in db'.disk.logs
            && db'.snapshots == db.snapshots && db'.disk.tables == db.disk.tables[db.nextNumber := [e]]
  {
    hide WithRecord, Flush, MetaOf;
    FlushFields(db, opts);
  }

  lemma WriteIsFlushed(db: Db, k: Bytes, value: Bytes, vtype: ValueType, opts: Options)
    requires db.vs.Valid() && db.walNumber in db.disk.logs && db.mem == [] && k != [] && opts.flushEntries <= 1
    ensures Do(db, WriteOp(k, value, vtype), opts) == Flush(Logged(db, Entry(InternalKey(k, db.memSeq + 1, vtype), value)), opts)
  {
    hide WithRecord, Flush;
    LogsOne(db, NextEntry(db, k, value, vtype));
  }

  lemma LevelsGrow(v: Version, zero: seq<FileMeta>, one: seq<FileMeta>, f: FileMeta)
    requires TwoLevels(v, zero, one)
    ensures TwoLevels(Version(v.files[0 := v.files[0] + [f]]), zero + [f], one)
  {
  }

  lemma Acquires(db: Db, zero: seq<FileMeta>, one: seq<FileMeta>, snapshots: seq<nat>, writes: nat, n: nat, tables: map<nat, seq<Entry>>, opts: Options)
    requires At(db, zero, one, snapshots, writes, n, tables)
    ensures At(Do(db, AcquireOp, opts), zero, one, snapshots + [writes], writes, n, tables)
  {
    DoKeepsReady(db, AcquireOp, opts);
    hide Ready;
  }

  lemma Releases(db: Db, s: nat, zero: seq<FileMeta>, one: seq<FileMeta>, snapshots: seq<nat>, writes: nat, n: nat, tables: map<nat, seq<Entry>>, opts: Options)
    requires At(db, zero, one, snapshots, writes, n, tables)
    ensures At(Do(db, ReleaseOp(s), opts), zero, one, Released(snapshots, s), writes, n, tables)
  {
    DoKeepsReady(db, ReleaseOp(s), opts);
    hide Ready;
  }

  // ----- a compaction of level 0 --------------------------------------------------------------

  /** All of level 0, where it meets nothing in level 1. */
  function Zero(zero: seq<FileMeta>): Compaction {
    Compaction(0, zero, [], [])
  }

  ghost predicate Clear(one: seq<FileMeta>, zero: seq<FileMeta>)
    requires zero != []
  {
    forall g :: g in one ==> !Overlaps(g, MinLo(zero), MaxHi(zero))
  }

  /** Nothing from `level` on scores more. */
  lemma {:induction false} StaysBest(v: Version, level: nat, best: nat)
    requires v.Valid() && best < level <= NUM_LEVELS && forall l :: level <= l < NUM_LEVELS ==> Score(v, l) <= Score(v, best)
    ensures BestFrom(v, level, Some(best)) == Some(best)
    decreases NUM_LEVELS - level
  {
    hide Score;
    if level < NUM_LEVELS {
      StaysBest(v, level + 1, best);
    }
  }

  lemma ZeroWins(v: Version, zero: seq<FileMeta>, one: seq<FileMeta>)
    requires TwoLevels(v, zero, one) && zero != [] && 4 * TotalSize(one) <= MAX_BYTES_FOR_LEVEL_BASE
    ensures BestLevel(v) == Some(0)
  {
    ScoresOfTwo(v);
    forall l | 2 <= l < NUM_LEVELS ensures Score(v, l) == 0.0 {
      EmptyLevelScoresZero(v, l);
    }
    hide Score, TotalSize;
    StaysBest(v, 1, 0);
  }

  lemma ScoresOfTwo(v: Version)
    requires v.Valid() && v.files[0] != [] && 4 * TotalSize(v.files[1]) <= MAX_BYTES_FOR_LEVEL_BASE
    ensures Score(v, 0) >= 0.25 && Score(v, 1) <= 0.25
  {
    hide TotalSize;
    assert MaxBytesForLevel(1) == MAX_BYTES_FOR_LEVEL_BASE;
  }

  lemma PicksZero(v: Version, pointers: seq<Bytes>, zero: seq<FileMeta>, one: seq<FileMeta>)
    requires TwoLevels(v, zero, one) && zero != [] && 4 * TotalSize(one) <= MAX_BYTES_FOR_LEVEL_BASE && |pointers| == NUM_LEVELS
    requires Clear(one, zero)
    ensures PickCompaction(v, pointers) == Some(Zero(zero))
  {
    hide BestLevel, Overlaps, TotalSize;
    ZeroWins(v, zero, one);
    var over := Overlapping(one, MinLo(zero), MaxHi(zero));
    EmptyOrInhabited(over);
    assert GetOverlaps(v, 1, MinLo(zero), MaxHi(zero)) == [];
    assert zero + [] == zero;
    assert GetOverlaps(v, 2, MinLo(zero), MaxHi(zero)) == [];
  }

  lemma ZeroCommits(v: Version, zero: seq<FileMeta>, one: seq<FileMeta>, outs: seq<OutputFile>)
    requires TwoLevels(v, zero, one) && UniqueNumbers(v) && Chosen(v, Zero(zero))
    ensures ApplyDeletes(v, DeletedInputs(Zero(zero))).Ok?
    ensures TwoLevels(CompactedVersion(v, Zero(zero), outs), [], one + Metas(outs))
  {
    var c := Zero(zero);
    DeletesApply(v, c);
    hide Chosen, ApplyDeletes, DeletedInputs, UniqueNumbers, Metas, CompactedVersion;
    ZeroTakesAll(v, zero);
    OneStays(v, zero);
    forall l | 2 <= l < NUM_LEVELS ensures ApplyDeletes(v, DeletedInputs(c)).value.files[l] == [] { OtherLevelsStay(v, c, l); }
    AddsToOne(v, zero, one, outs);
  }

  lemma AddsToOne(v: Version, zero: seq<FileMeta>, one: seq<FileMeta>, outs: seq<OutputFile>)
    requires v.Valid() && ApplyDeletes(v, DeletedInputs(Zero(zero))).Ok? && TwoLevels(ApplyDeletes(v, DeletedInputs(Zero(zero))).value, [], one)
    ensures TwoLevels(CompactedVersion(v, Zero(zero), outs), [], one + Metas(outs))
  {
    hide ApplyDeletes, DeletedInputs, Metas;
  }

  lemma ZeroTakesAll(v: Version, zero: seq<FileMeta>)
    requires v.Valid() && v.files[0] == zero && UniqueNumbers(v) && Chosen(v, Zero(zero)) && ApplyDeletes(v, DeletedInputs(Zero(zero))).Ok?
    ensures ApplyDeletes(v, DeletedInputs(Zero(zero))).value.files[0] == []
  {
    var w := ApplyDeletes(v, DeletedInputs(Zero(zero))).value;
    hide Chosen, ApplyDeletes, DeletedInputs, UniqueNumbers;
    forall f ensures f !in w.files[0] { LevelAfterDeletes(v, Zero(zero), 0, f); }
    EmptyOrInhabited(w.files[0]);
  }

  lemma OneStays(v: Version, zero: seq<FileMeta>)
    requires v.Valid() && ApplyDeletes(v, DeletedInputs(Zero(zero))).Ok?
    ensures ApplyDeletes(v, DeletedInputs(Zero(zero))).value.files[1] == v.files[1]
  {
    ApplyDeletesMembers(v, DeletedInputs(Zero(zero)));
    hide ApplyDeletes, DeletedInputs, Deletes;
    forall n ensures !Deletes(DeletedInputs(Zero(zero)), 1, n) { DeletesInputs(Zero(zero), 1, n); }
  }

  lemma PointerOf(db: Db, c: Compaction, opts: Options)
    requires db.vs.Valid() && c.level == 0
    ensures SetPointers(db.vs.compactPointers, EditOf(db, c, opts).compactPointers)[1] == db.vs.compactPointers[1]
  {
    hide CompactionOuts;
    var ps := EditOf(db, c, opts).compactPointers;
    if ps != [] {
      assert ps[1..] == [];
    }
  }

  /** What it leaves, given the lists it writes. */
  lemma CompactsZero(db: Db, zero: seq<FileMeta>, one: seq<FileMeta>, snapshots: seq<nat>, writes: nat, n: nat, tables: map<nat, seq<Entry>>,
                     lists: seq<seq<Entry>>, opts: Options)
    requires At(db, zero, one, snapshots, writes, n, tables) && zero != []
    requires 4 * TotalSize(one) <= MAX_BYTES_FOR_LEVEL_BASE && Clear(one, zero)
    requires NonEmpty(lists) && ListsOf(db, Zero(zero), opts) == lists
    ensures var outs := OutputFiles(lists, n, opts);
            At(Do(db, CompactOp, opts), [], one + Metas(outs), snapshots, writes, n + |lists|, WithTables(tables, outs))
  {
    var c := Zero(zero);
    DoKeepsReady(db, CompactOp, opts);
    ReadyParts(db);
    SteadyParts(db);
    hide Ready, Steady, Sound, UniqueNumbers, WithRecord, Advance, Manifest.Encode, Compact, PickCompaction, CompactionOuts, CompactedVersion, DeletedInputs,
         ApplyDeletes, WithTables, ListsOf, OutputFiles, Metas, Chosen, TotalSize, Clear, NoRepeats, NumbersBelow, EditOf, SetPointers;
    PicksZero(db.vs.current, db.vs.compactPointers, zero, one);
    CompactFields(db, c, opts);
    OutsAre(db, c, opts);
    ZeroCommits(db.vs.current, zero, one, CompactionOuts(db, c, opts));
    PointerOf(db, c, opts);
  }

  // ----- what is stored -----------------------------------------------------------------------

  lemma StoredThere(db: Db, zero: seq<FileMeta>, one: seq<FileMeta>, snapshots: seq<nat>, writes: nat, n: nat, tables: map<nat, seq<Entry>>)
    requires At(db, zero, one, snapshots, writes, n, tables)
    ensures forall x :: x in Stored(StoreOf(db)) <==> exists f :: (f in zero || f in one) && x in Contents(tables, f)
  {
    hide Contents, Ready;
    var v := db.vs.current;
    assert forall f :: f in AllFiles(v) <==> f in v.files[0] || f in v.files[1] by {
      assert forall l :: 2 <= l < NUM_LEVELS ==> v.files[l] == [];
    }
  }

  /** The two tables an output of two lists adds. */
  lemma TwoOutputs(a: seq<Entry>, b: seq<Entry>, n: nat, tables: map<nat, seq<Entry>>, opts: Options)
    requires a != [] && b != []
    ensures NonEmpty([a, b])
    ensures var outs := OutputFiles([a, b], n, opts);
            && Metas(outs) == [MetaOf(n, a, opts), MetaOf(n + 1, b, opts)]
            && WithTables(tables, outs) == tables[n := a][n + 1 := b]
  {
    var outs := OutputFiles([a, b], n, opts);
    assert outs == [OutputFile(MetaOf(n, a, opts), a), OutputFile(MetaOf(n + 1, b, opts), b)];
    assert outs[1..] == [outs[1]] && [outs[1]][1..] == [];
    assert Metas([outs[1]]) == [MetaOf(n + 1, b, opts)] + Metas([]);
    assert WithTables(tables, outs) == WithTables(tables[n := a], [outs[1]]);
    assert WithTables(tables[n := a], [outs[1]]) == WithTables(tables[n := a][n + 1 := b], []);
  }

  lemma OneOutput(a: seq<Entry>, n: nat, tables: map<nat, seq<Entry>>, opts: Options)
    requires a != []
    ensures NonEmpty([a])
    ensures var outs := OutputFiles([a], n, opts);
            Metas(outs) == [MetaOf(n, a, opts)] && WithTables(tables, outs) == tables[n := a]
  {
    var outs := OutputFiles([a], n, opts);
    assert outs == [OutputFile(MetaOf(n, a, opts), a)] && outs[1..] == [];
    assert WithTables(tables, outs) == WithTables(tables[n := a], []);
  }

  lemma OneFileFor(e: Entry, estimate: seq<Entry> -> nat)
    ensures Outputs([e], [], estimate) == [[e]]
  {
    assert [e][1..] == [];
    assert PlaceAll(Start, [e], [], estimate) == PlaceAll(Place(Start, e, [], estimate), [], [], estimate);
  }
}
