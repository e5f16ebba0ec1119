/** What every sequence of operations keeps, wherever the outputs of its compactions are cut. */
module SteadyRuns {
  import opened VersionedEntries
  import opened Versions
  import opened Compactions
  import opened Sorting
  import opened Stores
  import opened Engine
  import opened Invariants
  import opened CompactionSteps
  import opened Recovery
  import opened Runs
  import opened Progress

  /** A steady engine that can take a write: nothing stored is newer than the memtable's sequence number. */
  ghost predicate Ready(db: Db) {
    && Steady(db) && db.walNumber in db.disk.logs
    && forall e :: e in Stored(StoreOf(db)) ==> e.Seqno() <= db.memSeq
  }

  lemma ReadyParts(db: Db)
    requires Ready(db)
    ensures Steady(db) && db.vs.Valid() && db.walNumber in db.disk.logs
    ensures forall e :: e in Stored(StoreOf(db)) ==> e.Seqno() <= db.memSeq
  {
    hide Sound, NoRepeats, NumbersBelow, Stored;
  }

  lemma LogKeepsReady(db: Db, e: Entry)
    requires Ready(db) && db.walNumber in db.disk.logs && e.Seqno() == db.memSeq + 1
    ensures Ready(Logged(db, e))
  {
    ReadyParts(db);
    SteadyParts(db);
    SoundParts(StoreOf(db));
    var db' := Logged(db, e);
    hide Ready, Steady, FilesOk, UniqueNumbers, NothingTwice, NoRepeats, NumbersBelow, EntriesOf, AllFiles, Ascending;
    assert NewVersion(db.mem, e);
    InsertKeepsOrder(db.mem, e);
    assert StoreOf(db') == StoreOf(db).(mem := Insert(db.mem, e));
    assert Sound(StoreOf(db'));
    assert Steady(db') by { SteadyIf(db'); }
    assert forall x :: x in Stored(StoreOf(db')) ==> x in Stored(StoreOf(db)) || x == e;
    ReadyIf(db');
  }

  lemma ReadyIf(db: Db)
    requires Steady(db) && db.vs.Valid() && db.walNumber in db.disk.logs
    requires forall e :: e in Stored(StoreOf(db)) ==> e.Seqno() <= db.memSeq
    ensures Ready(db)
  {
    hide Steady, Stored;
  }

  lemma FlushKeepsReady(db: Db, opts: Options)
    requires Ready(db) && db.vs.Valid()
    ensures Ready(Flush(db, opts))
  {
    if db.mem != [] {
      ReadyParts(db);
      SteadyParts(db);
      FlushFields(db, opts);
      var db', f := Flush(db, opts), FlushMeta(db, opts);
      assert CanFlush(StoreOf(db), f) by { hide Sound, Ready, Steady, NoRepeats, NumbersBelow, Flush; }
      hide Ready, Steady, Sound, CanFlush, NoRepeats, NumbersBelow, Flush, Flushed, Stored, FlushMeta;
      FlushKeepsSound(StoreOf(db), f);
      FlushedKeepsNoRepeats(db, opts);
      OneBelowTwo(db'.vs.current, db.nextNumber + 1, db.nextNumber + 2);
      SteadyIf(db');
      ReadyIf(db');
    }
  }

  lemma FlushedKeepsNoRepeats(db: Db, opts: Options)
    requires Steady(db) && db.mem != [] && db.vs.Valid()
    ensures Flush(db, opts).vs.Valid() && NoRepeats(Flush(db, opts).vs.current) && FlushMeta(db, opts).number == db.nextNumber
  {
    SteadyParts(db);
    FlushFields(db, opts);
    hide Steady, Sound, NoRepeats, NumbersBelow, Flush;
    FlushedNoRepeats(StoreOf(db), FlushMeta(db, opts));
  }

  lemma CompactKeepsReady(db: Db, opts: Options)
    requires Ready(db) && db.vs.Valid()
    ensures Ready(Compact(db, opts))
  {
    match PickCompaction(db.vs.current, db.vs.compactPointers)
    case None =>
    case Some(c) =>
      ReadyParts(db);
      assert Picks(db, c);
      CompactFields(db, c, opts);
      var db', outs := Compact(db, opts), CompactionOuts(db, c, opts);
      hide Ready, Steady, Compact, CompactedState, CompactedStore, CompactionOuts, Picks, PickCompaction, StepOk, Stored, Chosen, WithTables, ApplyDeletes, DeletedInputs, EditOf;
      CompactKeepsSteady(db, c, opts);
      StoredOnlyShrinks(StoreOf(db), c, outs, StoreOf(db'), db.nextNumber);
      SteadyParts(db');
      ReadyIf(db');
  }

  lemma StoredOnlyShrinks(st: Store, c: Compaction, outs: seq<OutputFile>, st': Store, next: nat)
    requires StepOk(st, c, outs, st', next)
    ensures st.version.Valid() && st'.version.Valid() && Stored(st') <= Stored(st)
  {
    hide StepOk, Sound, Chosen, CompactedTo, OutputsOk, Stored, InputEntries, OutputEntries, Remaining;
    StepShape(st, c, outs, st', next);
    StoredAfter(st, c, outs, st', next);
    StoredSplits(st, c);
  }

  /** No operation needs more, and none leaves less. */
  lemma DoKeepsReady(db: Db, op: Op, opts: Options)
    requires Ready(db) && db.vs.Valid() && db.walNumber in db.disk.logs
    ensures Ready(Do(db, op, opts))
  {
    match op
    case WriteOp(k, v, t) =>
      if k != [] {
        var e := NextEntry(db, k, v, t);
        LogKeepsReady(db, e);
        hide Ready, Logged, Flush, Full;
        ReadyParts(Logged(db, e));
        FlushKeepsReady(Logged(db, e), opts);
      }
    case CompactOp => CompactKeepsReady(db, opts);
    case AcquireOp => SnapshotsDoNotMatter(db, Acquire(db).snapshots);
    case ReleaseOp(s) => SnapshotsDoNotMatter(db, Release(db, s).snapshots);
  }

  lemma SnapshotsDoNotMatter(db: Db, snapshots: seq<nat>)
    requires Ready(db)
    ensures Ready(db.(snapshots := snapshots))
  {
    var db' := db.(snapshots := snapshots);
    ReadyParts(db);
    SteadyParts(db);
    assert StoreOf(db') == StoreOf(db);
    hide Ready, Steady, Sound, NoRepeats, NumbersBelow, Stored;
    SteadyIf(db');
    ReadyIf(db');
  }

  lemma {:induction false} DoAllKeepsReady(db: Db, steps: seq<Step>)
    requires Ready(db)
    ensures DoAll(db, steps).Some? && Ready(DoAll(db, steps).value)
    decreases |steps|
  {
    hide Ready, Do;
    ReadyParts(db);
    if steps != [] {
      DoKeepsReady(db, steps[0].op, steps[0].opts);
      DoAllKeepsReady(Do(db, steps[0].op, steps[0].opts), steps[1..]);
    }
  }

  /**
   * From a new database, every sequence of operations, each with any options, goes through and leaves a steady
   * engine, so scans and the compaction loop find the store they rely on, and compaction without writes ends.
   */
  lemma EveryRunIsSteady(steps: seq<Step>)
    ensures var r := DoAll(CreateNew(), steps);
            && r.Some? && r.value.vs.Valid()
            && Sound(StoreOf(r.value)) && NoRepeats(r.value.vs.current)
            && forall n: nat, o :: CompactsFor(r.value, n, o) ==> n <= Weight(StoreOf(r.value))
  {
    hide Ready, Do, CreateNew, Sound, NoRepeats, Weight, CompactsFor, DoAll;
    NewIsReady();
    DoAllKeepsReady(CreateNew(), steps);
    var db := DoAll(CreateNew(), steps).value;
    ReadyParts(db);
    hide Steady;
    SteadyParts(db);
    forall n: nat, o | CompactsFor(db, n, o) ensures n <= Weight(StoreOf(db)) {
      SteadyTerminates(db, n, o);
    }
  }

  lemma NewIsReady()
    ensures Ready(CreateNew())
  {
    CreateNewIsOk();
    CreateNewFields();
    hide CreateNew, Inv, Live, Steady;
    var db, tr := CreateNew(), Trace([Engine.InitialEdit], [], 0, true);
    assert Live(db, tr) by { InvHasManifest(db, tr); InvIsLive(db, tr); }
    LiveIsSteady(db, tr);
    NoFiles();
    assert Stored(StoreOf(db)) == {};
    ReadyIf(db);
  }

  lemma InvIsLive(db: Db, tr: Trace)
    requires Inv(db, tr)
    ensures Live(db, tr)
  {
    hide Live, Clean;
  }
}
