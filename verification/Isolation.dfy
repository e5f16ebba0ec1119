/**
 * Snapshot isolation, wherever compactions cut their output: as long as the oldest live snapshot stays, no
 * reader at or above it sees anything change.
 */
module Isolation {
  import opened ByteStrings
  import opened VersionedEntries
  import opened Versions
  import opened Compactions
  import opened CompactionOutputs
  import opened Sorting
  import opened Stores
  import opened Guards
  import opened Engine
  import opened Invariants
  import opened CompactionSteps
  import opened Recovery
  import opened Runs
  import opened SteadyRuns

  /** `s0` is live, no live snapshot is older, and it is not ahead of the writes. */
  ghost predicate IsOldest(db: Db, s0: nat) {
    && s0 in db.snapshots && (forall s :: s in db.snapshots ==> s0 <= s)
    && s0 <= db.memSeq && s0 <= db.vs.lastSequence
  }

  /** A steady engine whose store is guarded for its oldest reader. */
  ghost predicate Isolated(db: Db, s0: nat) {
    Ready(db) && Guarded(StoreOf(db), s0) && IsOldest(db, s0)
  }

  lemma IsolatedParts(db: Db, s0: nat)
    requires Isolated(db, s0)
    ensures Ready(db) && Guarded(StoreOf(db), s0) && IsOldest(db, s0) && Steady(db) && Sound(StoreOf(db))
    ensures db.vs.Valid() && db.walNumber in db.disk.logs
  {
    hide Ready, Guarded, Steady, Sound, IsOldest;
    ReadyParts(db);
    SteadyParts(db);
  }

  /** Nothing a reader at or above `s0` sees has changed. */
  ghost predicate SeesTheSame(db: Db, db': Db, s0: nat)
    requires db.vs.Valid()
  {
    && db'.vs.Valid() && db.memSeq <= db'.memSeq
    && forall k, s :: s0 <= s <= db.memSeq ==> View(Stored(StoreOf(db')), k, s) == View(Stored(StoreOf(db)), k, s)
  }

  lemma SeeTheSameJoin(a: Db, b: Db, c: Db, s0: nat)
    requires a.vs.Valid() && SeesTheSame(a, b, s0) && SeesTheSame(b, c, s0)
    ensures SeesTheSame(a, c, s0)
  {
    hide Stored, View;
  }

  lemma SameStoreSeesTheSame(a: Db, b: Db, s0: nat)
    requires a.vs.Valid() && b.vs.Valid() && Stored(StoreOf(b)) == Stored(StoreOf(a)) && a.memSeq == b.memSeq
    ensures SeesTheSame(a, b, s0)
  {
    hide Stored, View;
  }

  // ----- each operation -----------------------------------------------------------------------

  lemma LogIsolates(db: Db, e: Entry, s0: nat)
    requires Isolated(db, s0) && db.walNumber in db.disk.logs && e.Seqno() == db.memSeq + 1
    ensures db.vs.Valid() && Isolated(Logged(db, e), s0) && SeesTheSame(db, Logged(db, e), s0)
  {
    var db' := Logged(db, e);
    IsolatedParts(db, s0);
    ReadyParts(db);
    LogKeepsReady(db, e);
    hide Isolated, Ready, Steady, Sound, Guarded;
    ReadyParts(db');
    SteadyParts(db');
    var st := StoreOf(db);
    assert StoreOf(db') == st.(mem := db'.mem);
    InsertKeepsGuard(st, db'.mem, e, s0);
    IsolatedIf(db', s0);
    LoggedSeesTheSame(db, e, s0);
  }

  lemma IsolatedIf(db: Db, s0: nat)
    requires Ready(db) && Guarded(StoreOf(db), s0) && IsOldest(db, s0)
    ensures Isolated(db, s0)
  {
    hide Ready, Guarded, IsOldest;
  }

  /** A write is invisible to readers that came before it. */
  lemma LoggedSeesTheSame(db: Db, e: Entry, s0: nat)
    requires db.vs.Valid() && db.walNumber in db.disk.logs && e.Seqno() == db.memSeq + 1
    requires Sound(StoreOf(db)) && Sound(StoreOf(Logged(db, e)))
    ensures SeesTheSame(db, Logged(db, e), s0)
  {
    var A, B := Stored(StoreOf(db)), Stored(StoreOf(Logged(db, e)));
    StoredIsDistinct(StoreOf(db));
    StoredIsDistinct(StoreOf(Logged(db, e)));
    hide Sound, EntriesOf, AllFiles, View, Insert;
    assert forall x :: x in B <==> x in A || x == e;
    hide Stored;
    forall k, s | s0 <= s <= db.memSeq ensures View(B, k, s) == View(A, k, s) {
      ViewDependsOnVisible(B, A, k, s);
    }
  }

  lemma FlushIsolates(db: Db, opts: Options, s0: nat)
    requires Isolated(db, s0)
    ensures db.vs.Valid() && Isolated(Flush(db, opts), s0) && SeesTheSame(db, Flush(db, opts), s0)
  {
    IsolatedParts(db, s0);
    FlushKeepsReady(db, opts);
    if db.mem != [] {
      var db', f := Flush(db, opts), FlushMeta(db, opts);
      FlushFields(db, opts);
      MemMayFlush(db, opts);
      hide *;
      FlushKeepsGuard(StoreOf(db), f, s0);
      FlushKeepsSound(StoreOf(db), f);
      FlushedStaysOldest(db, opts, s0);
      IsolatedIf(db', s0);
      SameStoreSeesTheSame(db, db', s0);
    } else {
      hide Isolated, Stored, View;
    }
  }

  lemma MemMayFlush(db: Db, opts: Options)
    requires Steady(db) && db.mem != [] && db.vs.Valid()
    ensures CanFlush(StoreOf(db), FlushMeta(db, opts))
  {
    SteadyParts(db);
    hide Steady, Sound, NumbersBelow;
  }

  lemma FlushedStaysOldest(db: Db, opts: Options, s0: nat)
    requires IsOldest(db, s0) && db.vs.Valid() && db.mem != []
    ensures IsOldest(Flush(db, opts), s0) && Flush(db, opts).vs.Valid() && Flush(db, opts).memSeq == db.memSeq
  {
    FlushFields(db, opts);
    hide Flush;
  }

  lemma OldestIs(db: Db, s0: nat)
    requires IsOldest(db, s0)
    ensures OldestSnapshot(db.snapshots) == s0
  {
  }

  lemma CompactIsolates(db: Db, opts: Options, s0: nat)
    requires Isolated(db, s0)
    ensures db.vs.Valid() && Isolated(Compact(db, opts), s0) && SeesTheSame(db, Compact(db, opts), s0)
  {
    IsolatedParts(db, s0);
    match PickCompaction(db.vs.current, db.vs.compactPointers)
    case None =>
      hide Isolated, Stored, View;
    case Some(c) =>
      assert Picks(db, c);
      CompactKeepsReady(db, opts);
      hide *;
      CompactKeepsSteady(db, c, opts);
      OldestIs(db, s0);
      WritesSurvivors(db, c, opts);
      CompactedStaysOldest(db, c, opts, s0);
      StepIsolates(db, Compact(db, opts), c, CompactionOuts(db, c, opts), s0);
  }

  lemma CompactedStaysOldest(db: Db, c: Compaction, opts: Options, s0: nat)
    requires IsOldest(db, s0) && db.vs.Valid() && Picks(db, c)
    ensures IsOldest(Compact(db, opts), s0) && Compact(db, opts).vs.Valid() && Compact(db, opts).memSeq == db.memSeq
  {
    CompactFields(db, c, opts);
    hide Compact, Picks, Chosen, CompactedStore, CompactionOuts, CompactedState, WithTables, EditOf, ApplyDeletes, DeletedInputs;
  }

  lemma StepIsolates(db: Db, db': Db, c: Compaction, outs: seq<OutputFile>, s0: nat)
    requires Isolated(db, s0) && db.vs.Valid() && db'.vs.Valid() && Ready(db') && IsOldest(db', s0) && db'.memSeq == db.memSeq
    requires StepOk(StoreOf(db), c, outs, StoreOf(db'), db.nextNumber) && KeepsSurvivors(StoreOf(db), c, outs, s0)
    ensures Isolated(db', s0) && SeesTheSame(db, db', s0)
  {
    IsolatedParts(db, s0);
    hide Isolated, Ready, Guarded, Steady, Sound, IsOldest, StepOk, KeepsSurvivors, Stored, View, Bares, Chosen;
    CompactionKeepsGuard(StoreOf(db), c, outs, StoreOf(db'), db.nextNumber, s0);
    StepShape(StoreOf(db), c, outs, StoreOf(db'), db.nextNumber);
    GuardBaresNothing(StoreOf(db), c, s0);
    IsolatedIf(db', s0);
    forall k, s | s0 <= s <= db.memSeq ensures View(Stored(StoreOf(db')), k, s) == View(Stored(StoreOf(db)), k, s) {
      CompactionKeepsViews(StoreOf(db), c, outs, StoreOf(db'), db.nextNumber, s0, k, s);
    }
  }

  lemma SnapshotsIsolate(db: Db, snapshots: seq<nat>, s0: nat)
    requires Isolated(db, s0) && s0 in snapshots && forall s :: s in snapshots ==> s0 <= s
    ensures var db' := db.(snapshots := snapshots);
            db.vs.Valid() && Isolated(db', s0) && SeesTheSame(db, db', s0)
  {
    var db' := db.(snapshots := snapshots);
    IsolatedParts(db, s0);
    assert StoreOf(db') == StoreOf(db) && IsOldest(db', s0);
    hide *;
    SnapshotsDoNotMatter(db, snapshots);
    IsolatedIf(db', s0);
    SameStoreSeesTheSame(db, db', s0);
  }

  lemma WriteIsolates(db: Db, op: Op, opts: Options, s0: nat)
    requires Isolated(db, s0) && op.WriteOp? && op.key != [] && db.vs.Valid() && db.walNumber in db.disk.logs
    ensures var db' := Write(db, op.key, op.value, op.vtype, opts);
            Isolated(db', s0) && SeesTheSame(db, db', s0)
  {
    var e := NextEntry(db, op.key, op.value, op.vtype);
    assert e.Seqno() == db.memSeq + 1;
    hide Isolated, SeesTheSame, Logged, Flush, Full;
    LogIsolates(db, e, s0);
    if Full(Logged(db, e), opts) {
      FlushIsolates(Logged(db, e), opts, s0);
      SeeTheSameJoin(db, Logged(db, e), Flush(Logged(db, e), opts), s0);
    }
  }

  /** No operation but the release of the oldest snapshot itself changes a view at or above it. */
  lemma DoIsolates(db: Db, op: Op, opts: Options, s0: nat)
    requires Isolated(db, s0) && op != ReleaseOp(s0) && db.vs.Valid() && db.walNumber in db.disk.logs
    ensures Isolated(Do(db, op, opts), s0) && SeesTheSame(db, Do(db, op, opts), s0)
  {
    assert IsOldest(db, s0);
    hide Isolated, SeesTheSame, Write, Compact;
    match op
    case WriteOp(k, v, t) =>
      if k == [] {
        SnapshotsIsolate(db, db.snapshots, s0);
      } else {
        WriteIsolates(db, op, opts, s0);
      }
    case CompactOp => CompactIsolates(db, opts, s0);
    case AcquireOp => SnapshotsIsolate(db, Acquire(db).snapshots, s0);
    case ReleaseOp(s) => SnapshotsIsolate(db, Release(db, s).snapshots, s0);
  }

  /** While the oldest snapshot stays, no compaction bares an older value. */
  lemma OldestReaderCovers(db: Db, c: Compaction, s0: nat)
    requires Isolated(db, s0) && db.vs.Valid() && Picks(db, c)
    ensures !Bares(StoreOf(db), c, OldestSnapshot(db.snapshots))
  {
    PickedIsChosen(db.vs.current, db.vs.compactPointers);
    assert StoreOf(db).version == db.vs.current && Chosen(db.vs.current, c) && StoreOf(db).version.Valid();
    hide *;
    IsolatedParts(db, s0);
    OldestIs(db, s0);
    GuardBaresNothing(StoreOf(db), c, s0);
  }

  // ----- any number of operations -------------------------------------------------------------

  lemma {:induction false} DoAllIsolates(db: Db, steps: seq<Step>, s0: nat)
    requires Isolated(db, s0) && NoneReleases(steps, s0) && db.vs.Valid()
    ensures DoAll(db, steps).Some? && Isolated(DoAll(db, steps).value, s0) && SeesTheSame(db, DoAll(db, steps).value, s0)
    decreases |steps|
  {
    hide Isolated, Do, SeesTheSame;
    IsolatedParts(db, s0);
    if steps == [] {
      SnapshotsIsolate(db, db.snapshots, s0);
    } else {
      var next := Do(db, steps[0].op, steps[0].opts);
      DoIsolates(db, steps[0].op, steps[0].opts, s0);
      IsolatedParts(next, s0);
      assert NoneReleases(steps[1..], s0);
      DoAllIsolates(next, steps[1..], s0);
      SeeTheSameJoin(db, next, DoAll(next, steps[1..]).value, s0);
    }
  }

  /** A running database is isolated at its oldest live snapshot if its store is guarded for it. */
  lemma InvIsIsolated(db: Db, tr: Trace)
    requires Inv(db, tr) && db.snapshots != [] && Guarded(StoreOf(db), Smallest(db.snapshots))
    ensures Isolated(db, Smallest(db.snapshots))
  {
    var s0 := Smallest(db.snapshots);
    InvIsReady(db, tr);
    SequenceIsCount(db, tr);
    SnapshotIsReadable(db, tr, s0);
    assert IsOldest(db, s0);
    hide *;
    IsolatedIf(db, s0);
  }

  /** So it is as long as no compaction has cut inside a user key, whatever the snapshots. */
  lemma LayeredIsGuarded(db: Db, tr: Trace, s0: nat)
    requires Inv(db, tr) && tr.layered
    ensures Guarded(StoreOf(db), s0)
  {
    assert LayersOk(StoreOf(db));
    hide *;
    LayersAreGuarded(StoreOf(db), s0);
  }

  lemma InvIsReady(db: Db, tr: Trace)
    requires Inv(db, tr)
    ensures Ready(db)
  {
    InvIsLive(db, tr);
    SequenceIsCount(db, tr);
    hide Inv, Live, Steady, Stored, Shows, SetOf;
    LiveIsSteady(db, tr);
    LiveShows(db, tr);
    StoredBelow(db, tr);
    ReadyIf(db);
  }

  lemma StoredBelow(db: Db, tr: Trace)
    requires Shows(db, tr.hist) && db.memSeq == db.vs.lastSequence
    ensures forall e :: e in Stored(StoreOf(db)) ==> e.Seqno() <= db.memSeq
  {
    hide Sound, Distinct, Stored, View, Readable;
  }

  /**
   * Snapshot isolation: while the oldest live snapshot stays, any operations, each with any options and
   * with compactions that cut anywhere, leave every view at or above it as it is.
   */
  lemma SnapshotIsolation(db: Db, tr: Trace, steps: seq<Step>, s: nat, k: Bytes)
    requires Inv(db, tr) && db.snapshots != [] && NoneReleases(steps, Smallest(db.snapshots))
    requires tr.layered || Guarded(StoreOf(db), Smallest(db.snapshots))
    requires Smallest(db.snapshots) <= s <= db.memSeq
    ensures var db' := DoAll(db, steps);
            && db.vs.Valid() && db'.Some? && db'.value.vs.Valid()
            && Smallest(db.snapshots) in db'.value.snapshots
            && View(Stored(StoreOf(db'.value)), k, s) == View(Stored(StoreOf(db)), k, s)
  {
    if tr.layered {
      LayeredIsGuarded(db, tr, Smallest(db.snapshots));
    }
    InvIsIsolated(db, tr);
    IsolatedParts(db, Smallest(db.snapshots));
    hide Isolated, Inv, DoAll, NoneReleases, Stored, View, Smallest;
    DoAllIsolates(db, steps, Smallest(db.snapshots));
    IsolatedParts(DoAll(db, steps).value, Smallest(db.snapshots));
  }

  /**
   * The same from every running state a run reaches, through crashes and recoveries, if the run has not cut
   * inside a user key yet or its store is guarded for the oldest snapshot all the same.
   */
  lemma SnapshotsAreIsolatedInRuns(states: seq<System>, events: seq<Event>, steps: seq<Step>, s: nat, k: Bytes)
    requires Run(states, events) && states[|events|].Running?
    requires var db := states[|events|].db;
             && db.snapshots != [] && NoneReleases(steps, Smallest(db.snapshots)) && Smallest(db.snapshots) <= s <= db.memSeq
             && (NeverCuts(states, events) || Guarded(StoreOf(db), Smallest(db.snapshots)))
    ensures var db := states[|events|].db;
            var db' := DoAll(db, steps);
            && db.vs.Valid() && db'.Some? && db'.value.vs.Valid()
            && Smallest(db.snapshots) in db'.value.snapshots
            && View(Stored(StoreOf(db'.value)), k, s) == View(Stored(StoreOf(db)), k, s)
  {
    var tr := RunHolds(states, events);
    hide Inv, Run, Allowed, DoAll, NoneReleases, Stored, View, Smallest, Guarded, NeverCuts;
    SnapshotIsolation(states[|events|].db, tr, steps, s, k);
  }

  // ----- what runs assume of a compaction -----------------------------------------------------

  /** After a compaction the database still shows its history if and only if the compaction bares nothing. */
  lemma CompactionShowsHistoryIff(db: Db, tr: Trace, c: Compaction, opts: Options)
    requires Inv(db, tr) && db.vs.Valid() && Picks(db, c)
    ensures Shows(Compact(db, opts), tr.hist) <==> !Bares(StoreOf(db), c, OldestSnapshot(db.snapshots))
  {
    InvIsLive(db, tr);
    hide *;
    LiveIsSteady(db, tr);
    LiveShows(db, tr);
    CompactFields(db, c, opts);
    CompactKeepsSteady(db, c, opts);
    SteadyParts(Compact(db, opts));
    StoredOnlyShrinks(StoreOf(db), c, CompactionOuts(db, c, opts), StoreOf(Compact(db, opts)), db.nextNumber);
    CompactKeepsViewsIff(db, tr, c, opts);
    ShowsStill(db, Compact(db, opts), tr.hist);
  }

  lemma ShowsStill(db: Db, db': Db, hist: seq<Entry>)
    requires Shows(db, hist) && db.vs.Valid() && db'.vs.Valid() && Sound(StoreOf(db')) && Stored(StoreOf(db')) <= Stored(StoreOf(db))
    requires db'.snapshots == db.snapshots && db'.vs.lastSequence == db.vs.lastSequence
    ensures Shows(db', hist)
       <==> forall k, s :: Readable(db, s) ==> View(Stored(StoreOf(db')), k, s) == View(Stored(StoreOf(db)), k, s)
  {
    StoredIsDistinct(StoreOf(db'));
    assert forall s :: Readable(db', s) <==> Readable(db, s);
    hide Sound, Stored, View, Readable, Distinct;
    if Shows(db', hist) {
      forall k, s | Readable(db, s) ensures View(Stored(StoreOf(db')), k, s) == View(Stored(StoreOf(db)), k, s) {
        assert Readable(db', s);
      }
    }
  }
}
