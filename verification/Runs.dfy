/** Runs of the database: writes, compactions, snapshots, crashes and recoveries in any order. */
module Runs {
  import opened ByteStrings
  import opened InternalKeys
  import opened VersionedEntries
  import opened Varints
  import opened Wal
  import opened Manifest
  import opened Versions
  import opened Compactions
  import opened Sorting
  import opened Stores
  import opened Engine
  import opened Invariants
  import opened CompactionSteps
  import opened Recovery

  // ----- single operations --------------------------------------------------------------------

  /** An operation that runs to its end; a write with an empty key is refused. */
  function Do(db: Db, op: Op, opts: Options): Db
    requires db.vs.Valid() && db.walNumber in db.disk.logs
  {
    match op
    case WriteOp(k, v, t) => if k == [] then db else Write(db, k, v, t, opts)
    case CompactOp => Compact(db, opts)
    case AcquireOp => Acquire(db)
    case ReleaseOp(s) => Release(db, s)
  }

  /** What an operation adds to the history. */
  function Adds(hist: seq<Entry>, op: Op): seq<Entry> {
    match op
    case WriteOp(k, v, t) => if k == [] then [] else [Entry(InternalKey(k, |hist| + 1, t), v)]
    case CompactOp => []
    case AcquireOp => []
    case ReleaseOp(_) => []
  }

  lemma ReleaseNarrows(snapshots: seq<nat>, s: nat)
    requires Released(snapshots, s) != []
    ensures snapshots != [] && Smallest(snapshots) <= Smallest(Released(snapshots, s))
  {
  }

  lemma SnapshotsKeepClean(db: Db, tr: Trace, snapshots: seq<nat>)
    requires tr.flushed <= |tr.hist| && Clean(db, tr)
    ensures Clean(db.(snapshots := snapshots), tr)
  {
    hide AllFit, ManifestOf, Replay, LogOf;
  }

  lemma SnapshotsKeepLive(db: Db, tr: Trace, snapshots: seq<nat>)
    requires Live(db, tr)
    requires forall s :: s in snapshots ==> s <= |tr.hist|
    requires forall s :: Readable(db.(snapshots := snapshots), s) ==> Readable(db, s)
    ensures Live(db.(snapshots := snapshots), tr)
  {
  }

  lemma AcquireIsOk(db: Db, tr: Trace)
    requires Inv(db, tr)
    ensures Inv(Acquire(db), tr)
  {
    var snapshots := db.snapshots + [db.vs.lastSequence];
    assert db.vs.lastSequence == |tr.hist| && tr.flushed <= |tr.hist| && forall s :: s in db.snapshots ==> s <= |tr.hist| by {
      hide StoreOk, NoRepeats, HistoryOk, NumbersBelow, ViewsOk, Clean;
    }
    hide Live, Clean;
    SnapshotsKeepClean(db, tr, snapshots);
    SnapshotsKeepLive(db, tr, snapshots);
  }

  lemma ReleaseIsOk(db: Db, tr: Trace, s: nat)
    requires Inv(db, tr)
    ensures Inv(Release(db, s), tr)
  {
    var snapshots := Released(db.snapshots, s);
    assert tr.flushed <= |tr.hist| && forall s :: s in db.snapshots ==> s <= |tr.hist| by {
      hide StoreOk, NoRepeats, HistoryOk, NumbersBelow, ViewsOk, Clean;
    }
    hide Live, Clean;
    if snapshots != [] { ReleaseNarrows(db.snapshots, s); }
    SnapshotsKeepClean(db, tr, snapshots);
    SnapshotsKeepLive(db, tr, snapshots);
  }

  lemma WriteIsOk(db: Db, tr: Trace, op: Op, opts: Options) returns (tr': Trace)
    requires Inv(db, tr) && db.vs.Valid() && db.walNumber in db.disk.logs
    requires op.WriteOp? && op.key != [] && CanDo(db, op, opts)
    ensures Inv(Write(db, op.key, op.value, op.vtype, opts), tr')
    ensures tr'.hist == tr.hist + [NextEntry(db, op.key, op.value, op.vtype)] && tr'.layered == tr.layered
  {
    var e := NextEntry(db, op.key, op.value, op.vtype);
    hide Inv, Logged, Flush, CanFlushNow, FitsEntry, Full, FlushEdit;
    NextFits(db, tr, e);
    LoggedIsOk(db, tr, e);
    tr' := tr.(hist := tr.hist + [e]);
    if Full(Logged(db, e), opts) {
      FlushIsOk(Logged(db, e), tr', opts);
      tr' := tr'.(edits := tr'.edits + [FlushEdit(Logged(db, e), opts)], flushed := |tr'.hist|);
    }
  }

  /** Every operation keeps the invariant and extends the history by exactly what it writes. */
  lemma DoIsOk(db: Db, tr: Trace, op: Op, opts: Options) returns (tr': Trace)
    requires Inv(db, tr) && db.vs.Valid() && db.walNumber in db.disk.logs && CanDo(db, op, opts)
    ensures Inv(Do(db, op, opts), tr') && tr'.hist == tr.hist + Adds(tr.hist, op)
    ensures tr.layered && NoCut(db, op, opts) ==> tr'.layered
  {
    hide Inv, Write, Compact, Acquire, Release, CanFlushNow, FitsEntry, Full, CanCompact, Picks, Logged, EditOf, CleanCut;
    match op
    case WriteOp(k, v, t) =>
      if k == [] {
        tr' := tr;
      } else {
        tr' := WriteIsOk(db, tr, op, opts);
        SequenceIsCount(db, tr);
      }
    case CompactOp =>
      tr' := CompactOpIsOk(db, tr, opts);
    case AcquireOp =>
      AcquireIsOk(db, tr);
      tr' := tr;
    case ReleaseOp(s) =>
      ReleaseIsOk(db, tr, s);
      tr' := tr;
  }

  lemma SequenceIsCount(db: Db, tr: Trace)
    requires Inv(db, tr)
    ensures db.memSeq == db.vs.lastSequence == |tr.hist| && db.vs.Valid() && db.walNumber in db.disk.logs
  {
    hide StoreOk, NoRepeats, HistoryOk, NumbersBelow, ViewsOk, ManifestOk, LogOf, EmptyFrom, InsertAll;
  }

  lemma CompactOpIsOk(db: Db, tr: Trace, opts: Options) returns (tr': Trace)
    requires Inv(db, tr) && db.vs.Valid() && forall c :: Picks(db, c) ==> CanCompact(db, c, opts)
    ensures Inv(Compact(db, opts), tr') && tr'.hist == tr.hist
    ensures tr.layered && NoCut(db, CompactOp, opts) ==> tr'.layered
  {
    hide Inv, CanCompact, PickCompaction, CompactionOuts, Commit, CompactionEdit, CleanCut;
    match PickCompaction(db.vs.current, db.vs.compactPointers)
    case None =>
      tr' := tr;
    case Some(c) =>
      assert Picks(db, c);
      hide Compact;
      CompactIsOk(db, tr, c, opts);
      tr' := AfterCompaction(db, tr, c, opts);
  }

  // ----- snapshot isolation -------------------------------------------------------------------

  /** An operation and the options in force. */
  datatype Step = Step(op: Op, opts: Options)

  ghost function DoAll(db: Db, steps: seq<Step>): Option<Db>
    decreases |steps|
  {
    if steps == [] then Some(db)
    else if db.vs.Valid() && db.walNumber in db.disk.logs then DoAll(Do(db, steps[0].op, steps[0].opts), steps[1..])
    else None
  }

  /** The same options for every operation. */
  function Under(opts: Options, ops: seq<Op>): seq<Step> {
    if ops == [] then [] else [Step(ops[0], opts)] + Under(opts, ops[1..])
  }

  lemma NextOp(db: Db, op: Op, rest: seq<Op>, opts: Options)
    requires db.vs.Valid() && db.walNumber in db.disk.logs
    ensures DoAll(db, Under(opts, [op] + rest)) == DoAll(Do(db, op, opts), Under(opts, rest))
  {
    hide Do;
    assert ([op] + rest)[1..] == rest;
    assert ([Step(op, opts)] + Under(opts, rest))[1..] == Under(opts, rest);
  }

  lemma {:induction false} UnderAppend(opts: Options, a: seq<Op>, b: seq<Op>)
    ensures Under(opts, a + b) == Under(opts, a) + Under(opts, b)
  {
    if a == [] {
      assert a + b == b && Under(opts, a) + Under(opts, b) == Under(opts, b);
    } else {
      assert (a + b)[0] == a[0] && (a + b)[1..] == a[1..] + b;
      UnderAppend(opts, a[1..], b);
    }
  }

  lemma {:induction false} DoAllAppend(db: Db, a: seq<Step>, b: seq<Step>)
    requires DoAll(db, a).Some?
    ensures DoAll(db, a + b) == DoAll(DoAll(db, a).value, b)
    decreases |a|
  {
    hide Do;
    if a == [] {
      assert a + b == b;
    } else {
      assert (a + b)[0] == a[0] && (a + b)[1..] == a[1..] + b;
      DoAllAppend(Do(db, a[0].op, a[0].opts), a[1..], b);
    }
  }

  /** No step lets go of `s`. */
  ghost predicate NoneReleases(steps: seq<Step>, s: nat) {
    forall i :: 0 <= i < |steps| ==> steps[i].op != ReleaseOp(s)
  }

  ghost predicate CanDoAll(db: Db, steps: seq<Step>)
    decreases |steps|
  {
    steps == []
    || (db.vs.Valid() && db.walNumber in db.disk.logs
        && CanDo(db, steps[0].op, steps[0].opts) && CanDoAll(Do(db, steps[0].op, steps[0].opts), steps[1..]))
  }

  lemma {:induction false} DoAllIsOk(db: Db, tr: Trace, steps: seq<Step>) returns (db': Db, tr': Trace)
    requires Inv(db, tr) && CanDoAll(db, steps)
    ensures DoAll(db, steps) == Some(db') && Inv(db', tr') && tr.hist <= tr'.hist
    ensures forall s :: s in db.snapshots && NoneReleases(steps, s) ==> s in db'.snapshots
    decreases |steps|
  {
    hide Inv, Do, CanDo;
    if steps == [] {
      db', tr' := db, tr;
    } else {
      var op, opts := steps[0].op, steps[0].opts;
      var next := DoIsOk(db, tr, op, opts);
      KeepsSnapshots(db, op, opts);
      db', tr' := DoAllIsOk(Do(db, op, opts), next, steps[1..]);
    }
  }

  lemma KeepsSnapshots(db: Db, op: Op, opts: Options)
    requires db.vs.Valid() && db.walNumber in db.disk.logs
    ensures forall s :: s in db.snapshots && op != ReleaseOp(s) ==> s in Do(db, op, opts).snapshots
  {
    hide Advance, FlushEdit, EditOf, CompactionOuts, Full, Insert, PickCompaction, CompactionEdit, WithTables;
  }

  /** Later writes are invisible at an earlier sequence number. */
  lemma HistoryViewStays(a: seq<Entry>, b: seq<Entry>, k: Bytes, s: nat)
    requires HistoryOk(b) && a <= b && s <= |a|
    ensures View(SetOf(b), k, s) == View(SetOf(a), k, s)
  {
    HistoryPrefix(a, b);
    HistoryIsDistinct(a);
    HistoryIsDistinct(b);
    forall e | VisibleAt(e, k, s) ensures e in SetOf(b) <==> e in SetOf(a) {
      if e in b {
        var i :| 0 <= i < |b| && b[i] == e;
        assert e == a[i];
      }
      if e in a {
        var i :| 0 <= i < |a| && a[i] == e;
        assert e == b[i];
      }
    }
    ViewDependsOnVisible(SetOf(b), SetOf(a), k, s);
  }

  lemma HistoryPrefix(a: seq<Entry>, b: seq<Entry>)
    requires HistoryOk(b) && a <= b
    ensures HistoryOk(a)
  {
    hide FitsEntry;
  }

  lemma ReadableShowsHistory(db: Db, tr: Trace, k: Bytes, s: nat)
    requires Inv(db, tr) && Readable(db, s)
    ensures db.vs.Valid() && HistoryOk(tr.hist) && View(Stored(StoreOf(db)), k, s) == View(SetOf(tr.hist), k, s)
  {
    hide StoreOk, NoRepeats, HistoryOk, CountersOk, ContentsOk, Stored, View, Clean;
  }

  lemma SnapshotIsReadable(db: Db, tr: Trace, s: nat)
    requires Inv(db, tr) && s in db.snapshots
    ensures Readable(db, s) && s <= |tr.hist|
  {
    hide StoreOk, NoRepeats, HistoryOk, ViewsOk, NumbersBelow, ContentsOk, Clean;
  }

  /**
   * As long as no compaction bares an older value, every live snapshot keeps its view, also one that outlives
   * older snapshots. Releasing any snapshot with the same sequence number counts as releasing this one.
   */
  lemma ReadersKeepTheirViews(db: Db, tr: Trace, steps: seq<Step>, s: nat, k: Bytes)
    requires Inv(db, tr) && CanDoAll(db, steps)
    requires s in db.snapshots && NoneReleases(steps, s)
    ensures var db' := DoAll(db, steps);
            && db.vs.Valid() && db'.Some? && db'.value.vs.Valid()
            && s in db'.value.snapshots
            && View(Stored(StoreOf(db'.value)), k, s) == View(Stored(StoreOf(db)), k, s)
  {
    hide Inv, Stored, View, DoAll, CanDoAll, Readable, HistoryOk, NoneReleases;
    var db', tr' := DoAllIsOk(db, tr, steps);
    SnapshotIsReadable(db, tr, s);
    SnapshotIsReadable(db', tr', s);
    ReadableShowsHistory(db, tr, k, s);
    ReadableShowsHistory(db', tr', k, s);
    HistoryViewStays(tr.hist, tr'.hist, k, s);
  }

  // ----- whole runs ---------------------------------------------------------------------------

  /** A database process: running, or down with a disk. */
  datatype System = Running(db: Db) | Down(disk: Disk)

  /** What happens to it, and the options in force then: a database may be reopened with others. */
  datatype Event =
    | Did(op: Op, opts: Options)
    | Crashed(op: Op, opts: Options)
    | Reopened(opts: Options)
    | CrashedReopening(opts: Options)

  ghost predicate Next(s: System, ev: Event, t: System) {
    match (s, ev, t)
    case (Running(db), Did(op, opts), Running(db')) =>
      db.vs.Valid() && db.walNumber in db.disk.logs && CanDo(db, op, opts) && db' == Do(db, op, opts)
    case (Running(db), Crashed(op, opts), Down(d)) =>
      db.vs.Valid() && db.walNumber in db.disk.logs && CanDo(db, op, opts) && Crash(db, op, opts, d)
    case (Down(d), Reopened(opts), Running(db')) => RoomToRecover(d, opts) && Recover(d, opts) == Ok(db')
    case (Down(d), CrashedReopening(opts), Down(d')) => RoomToRecover(d, opts) && RecoveryCrash(d, opts, d')
    case _ => false
  }

  /** No compaction of this event cuts inside a user key. */
  ghost predicate CutsNothing(s: System, ev: Event) {
    match (s, ev)
    case (Running(db), Did(op, opts)) => db.vs.Valid() ==> NoCut(db, op, opts)
    case (Running(db), Crashed(op, opts)) => db.vs.Valid() ==> NoCut(db, op, opts)
    case _ => true
  }

  ghost predicate NeverCuts(states: seq<System>, events: seq<Event>) {
    |events| <= |states| && forall i :: 0 <= i < |events| ==> CutsNothing(states[i], events[i])
  }

  ghost predicate RoomToRecover(d: Disk, opts: Options) {
    Replayed(d).Ok? ==> CanRecover(Replayed(d).value, opts)
  }

  /** Every crash leaves a manifest that ends on a record boundary. */
  ghost predicate WholeIfDown(s: System) {
    s.Down? ==> WholeManifest(s.disk)
  }

  ghost predicate Run(states: seq<System>, events: seq<Event>) {
    && |states| == |events| + 1
    && states[0] == Running(CreateNew())
    && (forall i :: 0 <= i < |events| ==> Next(states[i], events[i], states[i + 1]))
    && (forall i :: 0 <= i < |states| ==> WholeIfDown(states[i]))
  }

  /**
   * The histories a sequence of events allows: every acknowledged write in order, and of the writes a
   * crash interrupted any selection, each in its place.
   */
  ghost predicate Allowed(events: seq<Event>, hist: seq<Entry>)
    decreases |events|
  {
    if events == [] then hist == []
    else
      var before, last := events[..|events| - 1], events[|events| - 1];
      match last
      case Did(op, _) => exists h :: Allowed(before, h) && hist == h + Adds(h, op)
      case Crashed(op, _) => Allowed(before, hist) || exists h :: Allowed(before, h) && hist == h + Adds(h, op)
      case Reopened(_) => Allowed(before, hist)
      case CrashedReopening(_) => Allowed(before, hist)
  }

  // ----- what an allowed history contains -----------------------------------------------------

  /** The writes behind a history, without their sequence numbers. */
  function WritesOf(hist: seq<Entry>): seq<Op> {
    if hist == [] then []
    else
      var e := hist[|hist| - 1];
      WritesOf(hist[..|hist| - 1]) + [WriteOp(e.Key(), e.value, e.ik.vtype)]
  }

  function WriteIn(op: Op): seq<Op> {
    if op.WriteOp? && op.key != [] then [op] else []
  }

  /** The writes that returned, in order. */
  function Acknowledged(events: seq<Event>): seq<Op> {
    if events == [] then []
    else
      var last := events[|events| - 1];
      Acknowledged(events[..|events| - 1]) + if last.Did? then WriteIn(last.op) else []
  }

  /** Those, and the ones a crash interrupted. */
  function Submitted(events: seq<Event>): seq<Op> {
    if events == [] then []
    else
      var last := events[|events| - 1];
      Submitted(events[..|events| - 1]) + if last.Did? || last.Crashed? then WriteIn(last.op) else []
  }

  predicate Subsequence(a: seq<Op>, b: seq<Op>)
    decreases |b|
  {
    a == []
    || (b != []
        && ((a[|a| - 1] == b[|b| - 1] && Subsequence(a[..|a| - 1], b[..|b| - 1])) || Subsequence(a, b[..|b| - 1])))
  }

  lemma SubsequenceGrows(a: seq<Op>, b: seq<Op>, op: Op)
    requires Subsequence(a, b)
    ensures Subsequence(a, b + WriteIn(op)) && Subsequence(a + WriteIn(op), b + WriteIn(op))
  {
    assert a + [] == a && b + [] == b;
    assert (a + [op])[..|a|] == a && (b + [op])[..|b|] == b;
  }

  lemma WritesGrow(hist: seq<Entry>, op: Op)
    ensures WritesOf(hist + Adds(hist, op)) == WritesOf(hist) + WriteIn(op)
  {
    var added := Adds(hist, op);
    if added == [] {
      assert hist + added == hist && WritesOf(hist) + [] == WritesOf(hist);
    } else {
      assert (hist + added)[..|hist|] == hist && (hist + added)[|hist|] == added[0];
    }
  }

  /** Nothing acknowledged is missing, nothing is invented, and the order is kept, over any number of crashes. */
  lemma {:induction false} AllowedIsBetween(events: seq<Event>, hist: seq<Entry>)
    requires Allowed(events, hist)
    ensures Subsequence(Acknowledged(events), WritesOf(hist)) && Subsequence(WritesOf(hist), Submitted(events))
    decreases |events|
  {
    if events != [] {
      var before, last := events[..|events| - 1], events[|events| - 1];
      hide Subsequence, WritesOf, WriteIn, Adds;
      if Allowed(before, hist) && !last.Did? {
        AllowedIsBetween(before, hist);
        if last.Crashed? {
          SubsequenceGrows(WritesOf(hist), Submitted(before), last.op);
        }
        assert Acknowledged(before) + [] == Acknowledged(before) && Submitted(before) + [] == Submitted(before);
      } else {
        var h :| Allowed(before, h) && hist == h + Adds(h, last.op);
        AllowedIsBetween(before, h);
        WritesGrow(h, last.op);
        SubsequenceGrows(Acknowledged(before), WritesOf(h), last.op);
        SubsequenceGrows(WritesOf(h), Submitted(before), last.op);
        assert Acknowledged(before) + [] == Acknowledged(before);
      }
    } else {
      assert WritesOf(hist) == [];
    }
  }

  /** Up to the first crash the history is exactly what was acknowledged, with or without the write in flight. */
  lemma FirstCrashKeepsPrefix(events: seq<Event>, op: Op, opts: Options, hist: seq<Entry>)
    requires (forall i :: 0 <= i < |events| ==> events[i].Did?) && Allowed(events + [Crashed(op, opts)], hist)
    ensures WritesOf(hist) == Acknowledged(events) || WritesOf(hist) == Acknowledged(events) + WriteIn(op)
  {
    assert (events + [Crashed(op, opts)])[..|events|] == events;
    if Allowed(events, hist) {
      UninterruptedIsExact(events, hist);
    } else {
      var h :| Allowed(events, h) && hist == h + Adds(h, op);
      UninterruptedIsExact(events, h);
      WritesGrow(h, op);
    }
  }

  lemma {:induction false} UninterruptedIsExact(events: seq<Event>, hist: seq<Entry>)
    requires (forall i :: 0 <= i < |events| ==> events[i].Did?) && Allowed(events, hist)
    ensures WritesOf(hist) == Acknowledged(events)
    decreases |events|
  {
    if events != [] {
      var before, last := events[..|events| - 1], events[|events| - 1];
      var h :| Allowed(before, h) && hist == h + Adds(h, last.op);
      UninterruptedIsExact(before, h);
      WritesGrow(h, last.op);
    }
  }

  /** What ties a state to a history: the invariant while running, recoverability while down. */
  ghost predicate Holds(s: System, tr: Trace) {
    match s
    case Running(db) => Inv(db, tr)
    case Down(d) => exists db0 :: Recoverable(d, db0, tr) && ManifestOk(db0, tr)
  }

  lemma DidHolds(db: Db, op: Op, opts: Options, events: seq<Event>, tr: Trace) returns (tr': Trace)
    requires Inv(db, tr) && db.vs.Valid() && db.walNumber in db.disk.logs && CanDo(db, op, opts)
    requires Allowed(events, tr.hist)
    ensures Inv(Do(db, op, opts), tr') && Allowed(events + [Did(op, opts)], tr'.hist)
    ensures tr.layered && NoCut(db, op, opts) ==> tr'.layered
  {
    hide Inv, Do, CanDo, Adds, NoCut;
    tr' := DoIsOk(db, tr, op, opts);
    assert (events + [Did(op, opts)])[..|events|] == events;
  }

  lemma CrashHolds(db: Db, op: Op, opts: Options, d: Disk, events: seq<Event>, tr: Trace) returns (db0: Db, tr': Trace)
    requires Inv(db, tr) && db.vs.Valid() && db.walNumber in db.disk.logs && CanDo(db, op, opts) && Crash(db, op, opts, d)
    requires Allowed(events, tr.hist)
    ensures Recoverable(d, db0, tr') && Allowed(events + [Crashed(op, opts)], tr'.hist)
    ensures tr.layered && NoCut(db, op, opts) ==> tr'.layered
  {
    hide Inv, Crash, CanDo, Recoverable, NoCut;
    db0, tr' := CrashIsRecoverable(db, tr, op, opts, d);
    SequenceIsCount(db, tr);
    assert (events + [Crashed(op, opts)])[..|events|] == events;
    assert tr'.hist == tr.hist || tr'.hist == tr.hist + Adds(tr.hist, op);
  }

  lemma AllowedSame(events: seq<Event>, ev: Event, hist: seq<Entry>)
    requires Allowed(events, hist) && (ev.Reopened? || ev.CrashedReopening?)
    ensures Allowed(events + [ev], hist)
  {
  }

  lemma NextHolds(s: System, ev: Event, t: System, events: seq<Event>, tr: Trace) returns (tr': Trace)
    requires Holds(s, tr) && Next(s, ev, t) && WholeIfDown(t) && Allowed(events, tr.hist)
    ensures Holds(t, tr') && Allowed(events + [ev], tr'.hist)
    ensures tr.layered && CutsNothing(s, ev) ==> tr'.layered
  {
    hide Inv, Do, CanDo, Crash, Recoverable, ManifestOk, WholeManifest, Allowed, RecoveryCrash, Recover, CanRecover, RecoveryEdit, Replayed, NoCut;
    match (s, ev, t)
    case (Running(db), Did(op, opts), Running(db')) =>
      tr' := DidHolds(db, op, opts, events, tr);
    case (Running(db), Crashed(op, opts), Down(d)) =>
      var db0, tr0 := CrashHolds(db, op, opts, d, events, tr);
      tr' := WholeManifestIsOk(d, db0, tr0);
    case (Down(d), Reopened(opts), Running(db')) =>
      var db0 :| Recoverable(d, db0, tr) && ManifestOk(db0, tr);
      ReplayedIs(d, db0, tr);
      RecoverIsOk(d, db0, tr, opts);
      tr' := tr.(edits := tr.edits + [RecoveryEdit(db0, opts)], flushed := |tr.hist|);
      AllowedSame(events, ev, tr.hist);
    case (Down(d), CrashedReopening(opts), Down(d')) =>
      var db0 :| Recoverable(d, db0, tr) && ManifestOk(db0, tr);
      ReplayedIs(d, db0, tr);
      var db1, tr1 := RecoveryCrashIsRecoverable(d, db0, tr, opts, d');
      tr' := WholeManifestIsOk(d', db1, tr1);
      AllowedSame(events, ev, tr.hist);
  }

  /** Every state of every run is tied to a history its events allow. */
  lemma {:induction false} RunHolds(states: seq<System>, events: seq<Event>) returns (tr: Trace)
    requires Run(states, events)
    ensures Holds(states[|events|], tr) && Allowed(events, tr.hist)
    ensures NeverCuts(states, events) ==> tr.layered
    decreases |events|
  {
    hide Inv, Next, WholeIfDown, CreateNew, InitialEdit, CutsNothing;
    if events == [] {
      CreateNewIsOk();
      tr := Trace([InitialEdit], [], 0, true);
    } else {
      var n := |events| - 1;
      assert events[..n] + [events[n]] == events;
      var before := RunHolds(states[..n + 1], events[..n]);
      assert states[..n + 1][n] == states[n];
      assert NeverCuts(states, events) ==> NeverCuts(states[..n + 1], events[..n]) && CutsNothing(states[n], events[n]);
      assert Next(states[n], events[n], states[n + 1]);
      tr := NextHolds(states[n], events[n], states[n + 1], events[..n], before);
    }
  }

  // ----- what this means for a user -----------------------------------------------------------

  /** The database shows exactly `hist`: its sequence counts it, and every readable snapshot reads it, no version stored twice. */
  ghost predicate Shows(db: Db, hist: seq<Entry>) {
    && db.vs.Valid()
    && Sound(StoreOf(db))
    && Distinct(Stored(StoreOf(db)))
    && db.vs.lastSequence == |hist|
    && (forall e :: e in Stored(StoreOf(db)) ==> e in hist && e.Seqno() <= db.vs.lastSequence)
    && (forall k, s :: Readable(db, s) ==> View(Stored(StoreOf(db)), k, s) == View(SetOf(hist), k, s))
  }

  lemma LiveShows(db: Db, tr: Trace)
    requires Live(db, tr)
    ensures Shows(db, tr.hist) && (tr.layered ==> LayersOk(StoreOf(db)))
  {
    StoreOkParts(StoreOf(db), tr.layered);
    hide StoreOk, Sound, LayersOk, NoRepeats, HistoryOk, ContentsOk, NumbersBelow, Stored, View;
    StoredIsHistory(db, tr);
  }

  /**
   * In every run, a running database shows a history its events allow; its layers are in order if no
   * compaction has cut inside a user key.
   */
  lemma RunningShowsAllowedHistory(states: seq<System>, events: seq<Event>)
    requires Run(states, events) && states[|events|].Running?
    ensures exists hist :: Allowed(events, hist) && Shows(states[|events|].db, hist)
    ensures NeverCuts(states, events) ==> LayersOk(StoreOf(states[|events|].db))
  {
    var tr := RunHolds(states, events);
    assert Live(states[|events|].db, tr);
    hide Live, Shows, Run, Allowed, NeverCuts, LayersOk;
    LiveShows(states[|events|].db, tr);
  }

  /**
   * Crash safety: after any run, a crash anywhere inside any operation, even one that tears the manifest,
   * leaves a disk from which recovery succeeds and shows every acknowledged write, and of the interrupted
   * ones some selection.
   */
  lemma CrashSafety(states: seq<System>, events: seq<Event>, op: Op, opts: Options, d: Disk, reopen: Options)
    requires Run(states, events)
    requires Next(states[|events|], Crashed(op, opts), Down(d)) && RoomToRecover(d, reopen)
    ensures Recover(d, reopen).Ok?
    ensures exists hist :: Allowed(events + [Crashed(op, opts)], hist) && Shows(Recover(d, reopen).value, hist)
    ensures NeverCuts(states, events) && CutsNothing(states[|events|], Crashed(op, opts)) ==> LayersOk(StoreOf(Recover(d, reopen).value))
  {
    assert |states| == |events| + 1;
    hide Inv, Shows, Run, Allowed, NeverCuts, NoCut, LayersOk, Crash, CanDo, Recoverable, CanRecover, Recover, Replayed;
    var tr := RunHolds(states, events);
    var db0, tr' := CrashHolds(states[|events|].db, op, opts, d, events, tr);
    ReplayedIs(d, db0, tr');
    RecoverIsLive(d, db0, tr', reopen);
    LiveShows(Recover(d, reopen).value, tr'.(flushed := |tr'.hist|));
  }

  // ----- a run that tears the manifest --------------------------------------------------------

  lemma InitialManifestIsShort()
    ensures |ManifestOf([InitialEdit])| < 100
  {
    var e := InitialEdit;
    hide AddFragments;
    OneEditManifest(e);
    InitialEditIsShort();
    OneFragment([], Manifest.Encode(e), true, |Manifest.Encode(e)|);
  }

  lemma InitialEditIsShort()
    ensures |Manifest.Encode(InitialEdit)| < 64
  {
    var a, b, c, d := ComparatorField(COMPARATOR), LogNumberField(2), NextFileNumberField(3), LastSequenceField(0);
    assert Fields(InitialEdit) == [a, b, c, d];
    assert [a, b, c, d][1..] == [b, c, d] && [b, c, d][1..] == [c, d] && [c, d][1..] == [d] && [d][1..] == [];
    assert |Varint(24)| == 1 && |Varint(2)| == 1 && |Varint(3)| == 1 && |Varint(0)| == 1;
    assert |EncodeField(a)| == 26;
  }

  /** Any quiet database may crash and then crash again one byte into the commit of its recovery. */
  lemma TornSteps(db: Db, tr: Trace, opts: Options) returns (b: Byte, torn: Disk)
    requires Inv(db, tr) && db.vs.Valid() && db.walNumber in db.disk.logs
    requires db.snapshots == [] && db.mem == [] && CanRecover(db, opts)
    ensures Next(Running(db), Crashed(AcquireOp, opts), Down(db.disk))
    ensures Next(Down(db.disk), CrashedReopening(opts), Down(torn))
    ensures torn.manifest == ManifestOf(tr.edits) + [b] && Recoverable(torn, db.(disk := torn), tr)
  {
    hide Inv, Recoverable, Replayed, RecoveryCrash, ManifestOf, CanRecover, ManifestOk;
    InvHasManifest(db, tr);
    DiskIsRecoverable(db, tr);
    assert db.(snapshots := []) == db;
    ReplayedIs(db.disk, db, tr);
    b, torn := TornManifestIsReached(db.disk, db, tr, opts);
  }

  /** If the next edit still fits the manifest's block, a write acknowledged after that is lost by the next crash. */
  lemma TornWriteIsLost(db: Db, tr: Trace, opts: Options, e: Entry) returns (torn: Disk)
    requires Inv(db, tr) && db.vs.Valid() && db.walNumber in db.disk.logs
    requires db.snapshots == [] && db.mem == [] && CanRecover(db, opts)
    requires |ManifestOf(tr.edits)| % BLOCK_SIZE + 1 + HEADER_SIZE + FRESH_EDIT_LIMIT <= BLOCK_SIZE
    ensures Next(Running(db), Crashed(AcquireOp, opts), Down(db.disk))
    ensures Next(Down(db.disk), CrashedReopening(opts), Down(torn))
    ensures Recover(torn, opts).Ok? && Recover(torn, opts).value.walNumber in Recover(torn, opts).value.disk.logs
    ensures var after := Logged(Recover(torn, opts).value, e).disk;
            Replayed(after) == Ok(db.(disk := after))
  {
    InvHasManifest(db, tr);
    var edits := tr.edits;
    assert AllFit(edits);
    hide *;
    var b;
    b, torn := TornSteps(db, tr, opts);
    TornManifestLosesWrite(torn, db.(disk := torn), tr, opts, edits, b, e);
    SameDisk(db, torn, Logged(Recover(torn, opts).value, e).disk);
  }

  lemma SameDisk(db: Db, a: Disk, b: Disk)
    ensures db.(disk := a).(disk := b) == db.(disk := b) && db.(disk := a).vs == db.vs && db.(disk := a).mem == db.mem
  {
  }

  /**
   * A new database crashes, crashes again one byte into the commit of its recovery, and recovers: the next
   * write is acknowledged, and gone after one more crash.
   */
  lemma TornManifestRun(opts: Options, e: Entry) returns (down: Disk, torn: Disk)
    ensures Next(Running(CreateNew()), Crashed(AcquireOp, opts), Down(down))
    ensures Next(Down(down), CrashedReopening(opts), Down(torn)) && Recover(torn, opts).Ok?
    ensures var db := Recover(torn, opts).value;
            && db.walNumber in db.disk.logs
            && var again := Replayed(Logged(db, e).disk);
            && again.Ok? && again.value.mem == [] && again.value.vs.current == EmptyVersion && again.value.vs.lastSequence == 0
  {
    var db, tr := CreateNew(), Trace([InitialEdit], [], 0, true);
    CreateNewIsOk();
    CreateNewFields();
    InitialManifestIsShort();
    RoomInBlock(|ManifestOf(tr.edits)|);
    hide *;
    down := db.disk;
    torn := TornWriteIsLost(db, tr, opts, e);
  }

  lemma RoomInBlock(n: nat)
    requires n < 100
    ensures n % BLOCK_SIZE + 1 + HEADER_SIZE + FRESH_EDIT_LIMIT <= BLOCK_SIZE
  {
  }

  lemma InvHasManifest(db: Db, tr: Trace)
    requires Inv(db, tr)
    ensures db.vs.Valid() && ManifestOk(db, tr)
    ensures AllFit(tr.edits) && Replay(InitialState, tr.edits) == Ok(db.vs.(lastSequence := tr.flushed))
  {
    hide StoreOk, NoRepeats, HistoryOk, CountersOk, ContentsOk, ViewsOk, LogsOk, ManifestOf, Replay;
  }
}
