/**
 * Reads that run without the lock: a read captures the memtable's part and the version, lets go, and searches
 * the tables while writes, flushes and compactions go on.
 */
module CapturedReads {
  import opened ByteStrings
  import opened VersionedEntries
  import opened Manifest
  import opened Versions
  import opened Compactions
  import opened Stores
  import opened Engine
  import opened Invariants
  import opened CompactionSteps
  import opened Recovery
  import opened Runs
  import opened SteadyRuns
  import opened Isolation
  import opened Lookups
  import opened Scans

  // ----- tables are written once --------------------------------------------------------------

  /** No table below `n` has changed. */
  ghost predicate TablesStay(a: map<nat, seq<Entry>>, b: map<nat, seq<Entry>>, n: nat) {
    forall i: nat :: i < n ==> (i in b <==> i in a) && (i in a ==> b[i] == a[i])
  }

  ghost predicate Keeps(db: Db, db': Db) {
    db.nextNumber <= db'.nextNumber && TablesStay(db.disk.tables, db'.disk.tables, db.nextNumber)
  }

  lemma KeepsJoin(a: Db, b: Db, c: Db)
    requires Keeps(a, b) && Keeps(b, c)
    ensures Keeps(a, c)
  {
  }

  lemma SameTablesKeep(a: Db, b: Db)
    requires a.disk.tables == b.disk.tables && a.nextNumber == b.nextNumber
    ensures Keeps(a, b)
  {
  }

  lemma FlushKeeps(db: Db, opts: Options)
    requires db.vs.Valid()
    ensures Keeps(db, Flush(db, opts))
  {
    if db.mem != [] {
      FlushFields(db, opts);
      hide Flush, OpenLog;
    }
  }

  lemma WriteKeeps(db: Db, op: Op, opts: Options)
    requires db.vs.Valid() && db.walNumber in db.disk.logs && op.WriteOp?
    ensures Keeps(db, Write(db, op.key, op.value, op.vtype, opts))
  {
    var logged := Logged(db, NextEntry(db, op.key, op.value, op.vtype));
    assert logged.disk.tables == db.disk.tables && logged.nextNumber == db.nextNumber && logged.vs.Valid();
    hide Flush, Logged, Full, Keeps;
    SameTablesKeep(db, logged);
    FlushKeeps(logged, opts);
    KeepsJoin(db, logged, Flush(logged, opts));
  }

  lemma CompactKeeps(db: Db, opts: Options)
    requires Ready(db) && db.vs.Valid()
    ensures Keeps(db, Compact(db, opts))
  {
    match PickCompaction(db.vs.current, db.vs.compactPointers)
    case None => SameTablesKeep(db, db);
    case Some(c) =>
      assert Picks(db, c);
      ReadyParts(db);
      PickedIsChosen(db.vs.current, db.vs.compactPointers);
      hide *;
      CompactFields(db, c, opts);
      CompactionIsStep(db, c, opts);
      OutputsKeep(db, CompactionOuts(db, c, opts), Compact(db, opts));
  }

  lemma OutputsKeep(db: Db, outs: seq<OutputFile>, db': Db)
    requires Numbered(outs, db.nextNumber) && db'.disk.tables == WithTables(db.disk.tables, outs) && db'.nextNumber == db.nextNumber + |outs|
    ensures Keeps(db, db')
  {
    hide Numbered, WithTables;
    forall i: nat | i < db.nextNumber
      ensures (i in db'.disk.tables <==> i in db.disk.tables) && (i in db.disk.tables ==> db'.disk.tables[i] == db.disk.tables[i])
    {
      WithTablesKeeps(db.disk.tables, outs, db.nextNumber, i);
    }
  }

  /** No operation touches a table that exists. */
  lemma DoKeeps(db: Db, op: Op, opts: Options)
    requires Ready(db) && db.vs.Valid() && db.walNumber in db.disk.logs
    ensures Keeps(db, Do(db, op, opts))
  {
    hide Ready, Keeps, Write, Compact;
    match op
    case WriteOp(k, v, t) => if k == [] { SameTablesKeep(db, db); } else { WriteKeeps(db, op, opts); }
    case CompactOp => CompactKeeps(db, opts);
    case AcquireOp => SameTablesKeep(db, Acquire(db));
    case ReleaseOp(s) => SameTablesKeep(db, Release(db, s));
  }

  lemma {:induction false} DoAllKeeps(db: Db, steps: seq<Step>)
    requires Ready(db)
    ensures DoAll(db, steps).Some? && Keeps(db, DoAll(db, steps).value)
    decreases |steps|
  {
    hide Ready, Do, Keeps;
    ReadyParts(db);
    if steps == [] {
      SameTablesKeep(db, db);
    } else {
      var next := Do(db, steps[0].op, steps[0].opts);
      DoKeepsReady(db, steps[0].op, steps[0].opts);
      DoKeeps(db, steps[0].op, steps[0].opts);
      DoAllKeeps(next, steps[1..]);
      KeepsJoin(db, next, DoAll(next, steps[1..]).value);
    }
  }

  // ----- what a captured version answers ------------------------------------------------------

  lemma StayingAgrees(v: Version, a: map<nat, seq<Entry>>, b: map<nat, seq<Entry>>, n: nat)
    requires v.Valid() && NumbersBelow(v, n) && TablesStay(a, b, n)
    ensures Agree(v, a, b)
  {
  }

  lemma {:induction false} SameLevelZero(files: seq<FileMeta>, a: map<nat, seq<Entry>>, b: map<nat, seq<Entry>>, k: Bytes, s: nat)
    requires forall f :: f in files ==> Contents(b, f) == Contents(a, f)
    ensures SearchLevelZero(files, b, k, s) == SearchLevelZero(files, a, k, s)
  {
    hide SearchSorted, Contents;
    if files != [] {
      SameLevelZero(files[..|files| - 1], a, b, k, s);
    }
  }

  lemma {:induction false} SameDeeper(v: Version, a: map<nat, seq<Entry>>, b: map<nat, seq<Entry>>, k: Bytes, s: nat, level: nat)
    requires v.Valid() && Agree(v, a, b) && level <= NUM_LEVELS
    ensures SearchDeeper(v, b, k, s, level) == SearchDeeper(v, a, k, s, level)
    decreases NUM_LEVELS - level
  {
    hide SearchSorted, Contents, FindFile;
    if level < NUM_LEVELS {
      SameDeeper(v, a, b, k, s, level + 1);
    }
  }

  lemma SameLookup(v: Version, mem: seq<Entry>, a: map<nat, seq<Entry>>, b: map<nat, seq<Entry>>, k: Bytes, s: nat)
    requires v.Valid() && Agree(v, a, b)
    ensures Lookup(Store(v, mem, b), k, s) == Lookup(Store(v, mem, a), k, s)
  {
    hide SearchSorted, Contents, SearchLevelZero, SearchDeeper;
    SameLevelZero(v.files[0], a, b, k, s);
    SameDeeper(v, a, b, k, s, 1);
  }

  lemma {:induction false} SameContentsOf(files: seq<FileMeta>, a: map<nat, seq<Entry>>, b: map<nat, seq<Entry>>)
    requires forall f :: f in files ==> Contents(b, f) == Contents(a, f)
    ensures ContentsOf(b, files) == ContentsOf(a, files)
  {
    hide Contents;
    if files != [] {
      SameContentsOf(files[1..], a, b);
    }
  }

  lemma SameSources(v: Version, mem: seq<Entry>, a: map<nat, seq<Entry>>, b: map<nat, seq<Entry>>, s: nat)
    requires v.Valid() && Agree(v, a, b)
    ensures Sources(Store(v, mem, b), s) == Sources(Store(v, mem, a), s)
  {
    hide Contents, ContentsOf, FilesFrom;
    var files := FilesFrom(v, 0);
    forall f | f in files ensures Contents(b, f) == Contents(a, f) { FilesFromMembers(v, 0, f); }
    SameContentsOf(files, a, b);
  }

  /**
   * Whatever happens after the capture, the search of the captured version's tables, and the sources of a
   * scan over it, are those of the moment of the capture.
   */
  lemma CapturedVersionStays(db: Db, steps: seq<Step>, k: Bytes, s: nat)
    requires Ready(db)
    ensures db.vs.Valid() && DoAll(db, steps).Some?
    ensures var later := Store(db.vs.current, db.mem, DoAll(db, steps).value.disk.tables);
            Lookup(later, k, s) == Lookup(StoreOf(db), k, s) && Sources(later, s) == Sources(StoreOf(db), s)
  {
    hide *;
    ReadyParts(db);
    SteadyParts(db);
    StoreIs(db);
    DoAllKeeps(db, steps);
    var after := DoAll(db, steps).value;
    KeptTables(db, after);
    StayingAgrees(db.vs.current, db.disk.tables, after.disk.tables, db.nextNumber);
    SameLookup(db.vs.current, db.mem, db.disk.tables, after.disk.tables, k, s);
    SameSources(db.vs.current, db.mem, db.disk.tables, after.disk.tables, s);
  }

  lemma KeptTables(db: Db, db': Db)
    requires Keeps(db, db')
    ensures TablesStay(db.disk.tables, db'.disk.tables, db.nextNumber)
  {
  }

  lemma StoreIs(db: Db)
    requires db.vs.Valid()
    ensures db.vs.current.Valid() && StoreOf(db) == Store(db.vs.current, db.mem, db.disk.tables)
  {
  }

  /** So a read that captured its version shows the history of that moment, however late it gets to the tables. */
  lemma CapturedReadShowsHistory(db: Db, tr: Trace, steps: seq<Step>, k: Bytes, s: nat)
    requires Inv(db, tr) && tr.layered && db.vs.Valid() && SortedLevels(db.vs.current) && Readable(db, s)
    ensures DoAll(db, steps).Some?
    ensures Read(Lookup(Store(db.vs.current, db.mem, DoAll(db, steps).value.disk.tables), k, s)) == View(SetOf(tr.hist), k, s)
  {
    InvIsReady(db, tr);
    InvIsLive(db, tr);
    hide *;
    CapturedVersionStays(db, steps, k, s);
    ReadsShowHistory(db, tr, k, s);
  }
}
