/**
 * The program's file operations one after the other: an operation is a list of appends, creations and removals,
 * and a crash may come between any two of them or inside any of them.
 */
module FileSteps {
  import opened ByteStrings
  import opened VersionedEntries
  import opened WalEntries
  import opened Wal
  import opened Manifest
  import opened Versions
  import opened Compactions
  import opened CompactionOutputs
  import opened Stores
  import opened Engine
  import opened Invariants
  import opened CompactionSteps
  import opened Recovery
  import opened Runs

  datatype FileStep =
    | LogAppend(number: nat, record: Bytes)
    | LogCreate(number: nat)
    | LogRemove(number: nat)
    | TableWrite(number: nat, entries: seq<Entry>)
    | TableRemove(number: nat)
    | ManifestAppend(record: Bytes)

  function LogAt(d: Disk, n: nat): Bytes {
    if n in d.logs then d.logs[n] else []
  }

  /** The disk once a step is complete and synced. */
  function Finished(d: Disk, s: FileStep): Disk {
    match s
    case LogAppend(n, record) => d.(logs := d.logs[n := WithRecord(LogAt(d, n), record)])
    case LogCreate(n) => d.(logs := OpenLog(d.logs, n))
    case LogRemove(n) => d.(logs := d.logs - {n})
    case TableWrite(n, entries) => d.(tables := d.tables[n := entries])
    case TableRemove(n) => d.(tables := d.tables - {n})
    case ManifestAppend(record) => d.(manifest := WithRecord(d.manifest, record))
  }

  /** A step cut short: an append at any byte, a table at any point, with anything in it. */
  ghost predicate Interrupted(d: Disk, s: FileStep, d': Disk) {
    match s
    case LogAppend(n, record) =>
      exists k :: |LogAt(d, n)| <= k < |WithRecord(LogAt(d, n), record)| && d' == d.(logs := d.logs[n := WithRecord(LogAt(d, n), record)[..k]])
    case TableWrite(n, _) => n in d'.tables && d' == d.(tables := d.tables[n := d'.tables[n]])
    case ManifestAppend(record) => PartOfAppend(d.manifest, record, d'.manifest) && d' == d.(manifest := d'.manifest)
    case _ => false
  }

  function AllFinished(d: Disk, steps: seq<FileStep>): Disk
    decreases |steps|
  {
    if steps == [] then d else AllFinished(Finished(d, steps[0]), steps[1..])
  }

  /** What a crash leaves of these steps: some of them complete, and perhaps a part of the next one. */
  ghost predicate CutShort(d: Disk, steps: seq<FileStep>, d': Disk)
    decreases |steps|
  {
    d' == d || (steps != [] && (Interrupted(d, steps[0], d') || CutShort(Finished(d, steps[0]), steps[1..], d')))
  }

  // ----- the steps of each operation ----------------------------------------------------------

  /** A flush: the table, the next log, and only then the edit that names both. */
  function FlushSteps(db: Db, opts: Options): seq<FileStep>
    requires db.mem != []
  {
    [TableWrite(db.nextNumber, db.mem), LogCreate(db.nextNumber + 1), ManifestAppend(Manifest.Encode(FlushEdit(db, opts)))]
  }

  /** The output files, one after the other. */
  function TableWrites(outs: seq<OutputFile>): (steps: seq<FileStep>)
    ensures |steps| == |outs|
  {
    seq(|outs|, i requires 0 <= i < |outs| => TableWrite(outs[i].meta.number, outs[i].entries))
  }

  /** What an operation does to the files, in the program's order. */
  function StepsOf(db: Db, op: Op, opts: Options): seq<FileStep>
    requires db.vs.Valid() && db.walNumber in db.disk.logs
  {
    match op
    case WriteOp(k, v, t) =>
      if k == [] then []
      else
        var e := NextEntry(db, k, v, t);
        [LogAppend(db.walNumber, EncodeEntry(ToWal(e)))] + (if Full(Logged(db, e), opts) then FlushSteps(Logged(db, e), opts) else [])
    case CompactOp =>
      (match PickCompaction(db.vs.current, db.vs.compactPointers)
       case None => []
       case Some(c) => TableWrites(CompactionOuts(db, c, opts)) + [ManifestAppend(Manifest.Encode(EditOf(db, c, opts)))])
    case AcquireOp => []
    case ReleaseOp(_) => []
  }

  // ----- complete, they are the operation -----------------------------------------------------

  lemma {:induction false} AllFinishedThen(d: Disk, a: seq<FileStep>, b: seq<FileStep>)
    ensures AllFinished(d, a + b) == AllFinished(AllFinished(d, a), b)
    decreases |a|
  {
    hide Finished;
    if a == [] {
      assert a + b == b;
    } else {
      assert (a + b)[0] == a[0] && (a + b)[1..] == a[1..] + b;
      AllFinishedThen(Finished(d, a[0]), a[1..], b);
    }
  }

  lemma {:induction false} TablesWritten(d: Disk, outs: seq<OutputFile>)
    ensures AllFinished(d, TableWrites(outs)) == d.(tables := WithTables(d.tables, outs))
    decreases |outs|
  {
    if outs != [] {
      assert TableWrites(outs)[1..] == TableWrites(outs[1..]);
      TablesWritten(Finished(d, TableWrites(outs)[0]), outs[1..]);
    }
  }

  lemma OneStep(d: Disk, s: FileStep)
    ensures AllFinished(d, [s]) == Finished(d, s)
  {
    assert [s][1..] == [];
  }

  lemma ThreeSteps(d: Disk, a: FileStep, b: FileStep, c: FileStep)
    ensures AllFinished(d, [a, b, c]) == Finished(Finished(Finished(d, a), b), c)
  {
    hide Finished;
    assert [a, b, c][1..] == [b, c] && [b, c][1..] == [c];
    OneStep(Finished(Finished(d, a), b), c);
  }

  lemma FlushStepsDoIt(db: Db, opts: Options)
    requires db.vs.Valid() && db.mem != []
    ensures AllFinished(db.disk, FlushSteps(db, opts)) == Flush(db, opts).disk
  {
    hide Flush, WithRecord, Manifest.Encode, FlushEdit, OpenLog, AllFinished;
    var steps := FlushSteps(db, opts);
    ThreeSteps(db.disk, steps[0], steps[1], steps[2]);
    FlushFields(db, opts);
  }

  lemma CompactStepsDoIt(db: Db, c: Compaction, opts: Options)
    requires db.vs.Valid() && db.walNumber in db.disk.logs && Picks(db, c)
    ensures AllFinished(db.disk, StepsOf(db, CompactOp, opts)) == Compact(db, opts).disk
  {
    hide Compact, WithRecord, Manifest.Encode, CompactionOuts, WithTables, EditOf, AllFinished, Chosen, ApplyDeletes,
         DeletedInputs, CompactedState, CompactedStore,
         TableWrites, PickCompaction;
    CompactFields(db, c, opts);
    var outs, last := CompactionOuts(db, c, opts), ManifestAppend(Manifest.Encode(EditOf(db, c, opts)));
    TablesWritten(db.disk, outs);
    AllFinishedThen(db.disk, TableWrites(outs), [last]);
    OneStep(AllFinished(db.disk, TableWrites(outs)), last);
  }

  lemma WriteStepsDoIt(db: Db, op: Op, opts: Options)
    requires db.vs.Valid() && db.walNumber in db.disk.logs && op.WriteOp? && op.key != []
    ensures AllFinished(db.disk, StepsOf(db, op, opts)) == Write(db, op.key, op.value, op.vtype, opts).disk
  {
    hide Flush, WithRecord, EncodeEntry, Full, AllFinished, FlushSteps;
    var logged := Logged(db, NextEntry(db, op.key, op.value, op.vtype));
    var first := LogAppend(db.walNumber, EncodeEntry(ToWal(NextEntry(db, op.key, op.value, op.vtype))));
    OneStep(db.disk, first);
    if Full(logged, opts) && logged.mem != [] {
      AllFinishedThen(db.disk, [first], FlushSteps(logged, opts));
      FlushStepsDoIt(logged, opts);
    } else {
      assert [first] + [] == [first];
    }
  }

  /** Carried out completely, the steps leave the disk of the operation. */
  lemma StepsDoIt(db: Db, op: Op, opts: Options)
    requires db.vs.Valid() && db.walNumber in db.disk.logs
    ensures AllFinished(db.disk, StepsOf(db, op, opts)) == Do(db, op, opts).disk
  {
    hide Write, StepsOf, PickCompaction, AllFinished;
    if op.WriteOp? && op.key != [] {
      WriteStepsDoIt(db, op, opts);
    } else if op.CompactOp? && PickCompaction(db.vs.current, db.vs.compactPointers).Some? {
      CompactStepsDoIt(db, PickCompaction(db.vs.current, db.vs.compactPointers).value, opts);
    } else {
      NothingToDo(db, op, opts);
    }
  }

  lemma NothingToDo(db: Db, op: Op, opts: Options)
    requires db.vs.Valid() && db.walNumber in db.disk.logs
    requires op.WriteOp? ==> op.key == []
    requires op.CompactOp? ==> PickCompaction(db.vs.current, db.vs.compactPointers).None?
    ensures StepsOf(db, op, opts) == [] && AllFinished(db.disk, []) == db.disk && Do(db, op, opts).disk == db.disk
  {
    hide PickCompaction;
  }

  // ----- cut short, they are a crash ----------------------------------------------------------

  /** Up to the edit only files under new numbers have come about. */
  ghost predicate Prepared(db: Db, d: Disk) {
    && d.manifest == db.disk.manifest && SameBelow(db.nextNumber, db.disk.tables, d.tables)
    && SameLog(db.walNumber, db.disk.logs, d.logs) && EmptyFrom(d.logs, db.nextNumber)
  }

  predicate Prepares(s: FileStep, next: nat) {
    (s.TableWrite? || s.LogCreate?) && s.number >= next
  }

  predicate AllPrepare(steps: seq<FileStep>, next: nat) {
    forall i :: 0 <= i < |steps| ==> Prepares(steps[i], next)
  }

  lemma PreparingKeeps(db: Db, d: Disk, s: FileStep, d': Disk)
    requires Prepared(db, d) && db.walNumber < db.nextNumber && Prepares(s, db.nextNumber)
    ensures Prepared(db, Finished(d, s))
    ensures Interrupted(d, s, d') ==> Prepared(db, d')
  {
  }

  lemma PreparedIsBefore(db: Db, d: Disk, e: VersionEdit)
    requires Prepared(db, d)
    ensures BeforeCommit(db, e, d)
  {
    hide Manifest.Encode, SameBelow, EmptyFrom;
    assert d.manifest <= WithRecord(d.manifest, Manifest.Encode(e));
  }

  lemma CommitCut(db: Db, d: Disk, e: VersionEdit, d': Disk)
    requires Prepared(db, d) && Interrupted(d, ManifestAppend(Manifest.Encode(e)), d')
    ensures BeforeCommit(db, e, d')
  {
    hide Manifest.Encode, SameBelow, EmptyFrom, WithRecord;
  }

  lemma CutAtNothing(d: Disk, d': Disk)
    requires CutShort(d, [], d')
    ensures d' == d
  {
  }

  lemma {:induction false} CutBeforeCommit(db: Db, d: Disk, steps: seq<FileStep>, e: VersionEdit, d': Disk)
    requires Prepared(db, d) && db.walNumber < db.nextNumber && AllPrepare(steps, db.nextNumber)
    requires CutShort(d, steps + [ManifestAppend(Manifest.Encode(e))], d')
    ensures BeforeCommit(db, e, d') || d' == AllFinished(d, steps + [ManifestAppend(Manifest.Encode(e))])
    decreases |steps|
  {
    hide Prepared, Prepares, BeforeCommit, Interrupted, Finished, Manifest.Encode;
    var last := ManifestAppend(Manifest.Encode(e));
    PreparedIsBefore(db, d, e);
    if steps == [] {
      assert steps + [last] == [last] && [last][1..] == [];
      if d' != d {
        if Interrupted(d, last, d') {
          CommitCut(db, d, e, d');
        } else {
          CutAtNothing(Finished(d, last), d');
          OneStep(d, last);
        }
      }
    } else {
      assert (steps + [last])[0] == steps[0] && (steps + [last])[1..] == steps[1..] + [last];
      PreparingKeeps(db, d, steps[0], d');
      if Interrupted(d, steps[0], d') {
        PreparedIsBefore(db, d', e);
      } else if d' != d {
        CutBeforeCommit(db, Finished(d, steps[0]), steps[1..], e, d');
      }
    }
  }

  /** Logs under numbers not yet given out are empty, as in every state that satisfies the invariant. */
  ghost predicate Orderly(db: Db) {
    db.walNumber in db.disk.logs && db.walNumber < db.nextNumber && EmptyFrom(db.disk.logs, db.nextNumber)
  }

  lemma FlushCutShort(db: Db, opts: Options, d: Disk)
    requires db.vs.Valid() && db.mem != [] && Orderly(db) && CutShort(db.disk, FlushSteps(db, opts), d)
    ensures FlushCrash(db, opts, d)
  {
    hide CutShort, AllFinished, BeforeCommit, Flush, Manifest.Encode, FlushEdit, Prepared;
    var steps := [TableWrite(db.nextNumber, db.mem), LogCreate(db.nextNumber + 1)];
    assert FlushSteps(db, opts) == steps + [ManifestAppend(Manifest.Encode(FlushEdit(db, opts)))];
    AtFirst(db);
    CutBeforeCommit(db, db.disk, steps, FlushEdit(db, opts), d);
    FlushStepsDoIt(db, opts);
  }

  lemma AtFirst(db: Db)
    requires EmptyFrom(db.disk.logs, db.nextNumber)
    ensures Prepared(db, db.disk)
  {
  }

  lemma OutputsPrepare(outs: seq<OutputFile>, first: nat)
    requires Numbered(outs, first)
    ensures AllPrepare(TableWrites(outs), first)
  {
  }

  lemma CompactCutShort(db: Db, c: Compaction, opts: Options, d: Disk)
    requires db.vs.Valid() && Orderly(db) && Picks(db, c) && CutShort(db.disk, StepsOf(db, CompactOp, opts), d)
    ensures CompactCrash(db, opts, d)
  {
    hide CutShort, AllFinished, BeforeCommit, Compact, Manifest.Encode, EditOf, Prepared, AllPrepare, PickCompaction,
         CompactionOuts, ListsOf, Numbered, TableWrites;
    AtFirst(db);
    OutsAre(db, c, opts);
    OutputsAreNumbered(ListsOf(db, c, opts), db.nextNumber, opts);
    OutputsPrepare(CompactionOuts(db, c, opts), db.nextNumber);
    CutBeforeCommit(db, db.disk, TableWrites(CompactionOuts(db, c, opts)), EditOf(db, c, opts), d);
    CompactStepsDoIt(db, c, opts);
  }

  lemma OutputsAreNumbered(lists: seq<seq<Entry>>, first: nat, opts: Options)
    requires NonEmpty(lists)
    ensures Numbered(OutputFiles(lists, first, opts), first)
  {
  }

  lemma AppendCut(db: Db, e: Entry, steps: seq<FileStep>, d: Disk)
    requires db.walNumber in db.disk.logs
    requires CutShort(db.disk, [LogAppend(db.walNumber, EncodeEntry(ToWal(e)))] + steps, d)
    ensures TornWrite(db, e, d) || CutShort(Logged(db, e).disk, steps, d)
  {
    hide WithRecord, EncodeEntry, CutShort;
    var log, first := db.disk.logs[db.walNumber], LogAppend(db.walNumber, EncodeEntry(ToWal(e)));
    CutFirst(db.disk, first, steps, d);
    var whole := WithRecord(log, EncodeEntry(ToWal(e)));
    assert whole[..|log|] == log && db.disk.logs[db.walNumber := log] == db.disk.logs;
    assert d == db.disk ==> d == db.disk.(logs := db.disk.logs[db.walNumber := whole[..|log|]]);
  }

  lemma CutFirst(d: Disk, s: FileStep, steps: seq<FileStep>, d': Disk)
    requires CutShort(d, [s] + steps, d')
    ensures d' == d || Interrupted(d, s, d') || CutShort(Finished(d, s), steps, d')
  {
    assert ([s] + steps)[1..] == steps;
  }

  lemma WriteCutShort(db: Db, op: Op, opts: Options, d: Disk)
    requires db.vs.Valid() && Orderly(db) && op.WriteOp? && op.key != [] && CutShort(db.disk, StepsOf(db, op, opts), d)
    ensures WriteCrash(db, NextEntry(db, op.key, op.value, op.vtype), opts, d)
  {
    hide WithRecord, EncodeEntry, CutShort, FlushSteps, FlushCrash, Full;
    var e := NextEntry(db, op.key, op.value, op.vtype);
    var logged := Logged(db, e);
    AppendCut(db, e, if Full(logged, opts) then FlushSteps(logged, opts) else [], d);
    if !TornWrite(db, e, d) {
      if Full(logged, opts) {
        FlushCutShort(logged, opts, d);
      } else {
        CutAtNothing(logged.disk, d);
        WholeAppend(db, e);
      }
    }
  }

  lemma WholeAppend(db: Db, e: Entry)
    requires db.walNumber in db.disk.logs
    ensures TornWrite(db, e, Logged(db, e).disk)
  {
    hide WithRecord, EncodeEntry;
    var whole := WithRecord(db.disk.logs[db.walNumber], EncodeEntry(ToWal(e)));
    assert whole[..|whole|] == whole;
  }

  /** Between any two file operations and inside each of them, a crash leaves one of the disks the crash theorems speak of. */
  lemma CutShortIsCrash(db: Db, op: Op, opts: Options, d: Disk)
    requires db.vs.Valid() && Orderly(db) && CutShort(db.disk, StepsOf(db, op, opts), d)
    ensures Crash(db, op, opts, d)
  {
    hide StepsOf, CutShort, WriteCrash, CompactCrash, PickCompaction, EmptyFrom;
    if op.WriteOp? && op.key != [] {
      WriteCutShort(db, op, opts, d);
    } else if op.CompactOp? && PickCompaction(db.vs.current, db.vs.compactPointers).Some? {
      CompactCutShort(db, PickCompaction(db.vs.current, db.vs.compactPointers).value, opts, d);
    } else {
      NothingToDo(db, op, opts);
      CutAtNothing(db.disk, d);
      NothingCrashes(db, op, opts);
    }
  }

  lemma NothingCrashes(db: Db, op: Op, opts: Options)
    requires db.vs.Valid() && db.walNumber in db.disk.logs
    requires op.WriteOp? ==> op.key == []
    requires op.CompactOp? ==> PickCompaction(db.vs.current, db.vs.compactPointers).None?
    ensures Crash(db, op, opts, db.disk)
  {
    hide PickCompaction;
  }

  /** So wherever the program stops, the disk recovers to the history without or with the write in flight. */
  lemma CutShortRecovers(db: Db, tr: Trace, op: Op, opts: Options, d: Disk) returns (db0: Db, tr0: Trace)
    requires Inv(db, tr) && db.vs.Valid() && db.walNumber in db.disk.logs
    requires CanDo(db, op, opts) && CutShort(db.disk, StepsOf(db, op, opts), d)
    ensures Recoverable(d, db0, tr0) && Explains(db, tr.hist, op, tr0.hist) && (tr.layered && NoCut(db, op, opts) ==> tr0.layered)
  {
    hide *;
    InvIsOrderly(db, tr);
    CutShortIsCrash(db, op, opts, d);
    db0, tr0 := CrashIsRecoverable(db, tr, op, opts, d);
  }

  lemma InvIsOrderly(db: Db, tr: Trace)
    requires Inv(db, tr)
    ensures Orderly(db)
  {
    hide StoreOk, NoRepeats, ViewsOk, HistoryOk, NumbersBelow, ContentsOk, ManifestOk, EmptyFrom;
  }

  // ----- the steps of recovery ----------------------------------------------------------------

  /** Recovery's own commit; a fresh log is created only behind the edit that names it. */
  function SwitchSteps(db: Db, opts: Options): seq<FileStep> {
    if db.mem != [] then FlushSteps(db, opts) else [ManifestAppend(Manifest.Encode(FreshLogEdit(db))), LogCreate(db.nextNumber)]
  }

  /** The step removes a log that is not the live one, or a table no file of the version is stored in. */
  ghost predicate Obsolete(db: Db, s: FileStep)
    requires db.vs.Valid()
  {
    (s.LogRemove? && s.number != db.vs.logNumber) || (s.TableRemove? && !IsLive(db.vs.current, s.number))
  }

  ghost predicate AllObsolete(db: Db, rs: seq<FileStep>)
    requires db.vs.Valid()
  {
    forall s :: s in rs ==> Obsolete(db, s)
  }

  lemma SwitchStepsDoIt(db: Db, opts: Options)
    requires db.vs.Valid()
    ensures AllFinished(db.disk, SwitchSteps(db, opts)) == Switched(db, opts).disk
  {
    hide Flush, WithRecord, Manifest.Encode, FlushEdit, FreshLogEdit, AllFinished, FlushSteps, FreshLogCommitted, OpenLog;
    if db.mem != [] {
      FlushStepsDoIt(db, opts);
    } else {
      var commit, create := ManifestAppend(Manifest.Encode(FreshLogEdit(db))), LogCreate(db.nextNumber);
      FreshFields(db);
      AllFinishedThen(db.disk, [commit], [create]);
      OneStep(db.disk, commit);
      OneStep(Finished(db.disk, commit), create);
      assert [commit] + [create] == [commit, create];
    }
  }

  lemma {:induction false} CutThen(d: Disk, a: seq<FileStep>, b: seq<FileStep>, d': Disk)
    requires CutShort(d, a + b, d')
    ensures CutShort(d, a, d') || CutShort(AllFinished(d, a), b, d')
    decreases |a|
  {
    hide Finished, Interrupted;
    if a == [] {
      assert a + b == b;
    } else {
      assert (a + b)[0] == a[0] && (a + b)[1..] == a[1..] + b;
      if d' != d && !Interrupted(d, a[0], d') {
        CutThen(Finished(d, a[0]), a[1..], b, d');
      }
    }
  }

  lemma RemovalCleans(db: Db, d: Disk, s: FileStep)
    requires db.vs.Valid() && db.walNumber == db.vs.logNumber && PartlyCleaned(db, d) && Obsolete(db, s)
    ensures PartlyCleaned(db, Finished(d, s)) && forall d' :: !Interrupted(d, s, d')
  {
    forall l, f | 0 <= l < NUM_LEVELS && f in db.vs.current.files[l] ensures IsLive(db.vs.current, f.number) {
      var i :| 0 <= i < |db.vs.current.files[l]| && db.vs.current.files[l][i] == f;
    }
    hide IsLive;
  }

  lemma {:induction false} RemovalsCutShort(db: Db, d: Disk, rs: seq<FileStep>, d': Disk)
    requires db.vs.Valid() && db.walNumber == db.vs.logNumber && PartlyCleaned(db, d) && AllObsolete(db, rs) && CutShort(d, rs, d')
    ensures PartlyCleaned(db, d')
    decreases |rs|
  {
    hide PartlyCleaned, Obsolete, Finished, Interrupted;
    if d' != d {
      assert rs[0] in rs;
      RemovalCleans(db, d, rs[0]);
      RemovalsCutShort(db, Finished(d, rs[0]), rs[1..], d');
    }
  }

  lemma FreshCutShort(db: Db, d: Disk)
    requires db.vs.Valid() && EmptyFrom(db.disk.logs, db.nextNumber)
    requires CutShort(db.disk, [ManifestAppend(Manifest.Encode(FreshLogEdit(db))), LogCreate(db.nextNumber)], d)
    ensures BeforeCommit(db, FreshLogEdit(db), d) || d == FreshLogCommitted(db).disk || d == LogOpened(FreshLogCommitted(db)).disk
  {
    hide CutShort, BeforeCommit, Manifest.Encode, FreshLogEdit, Prepared, WithRecord, FreshLogCommitted, OpenLog;
    var commit, create := ManifestAppend(Manifest.Encode(FreshLogEdit(db))), LogCreate(db.nextNumber);
    assert [commit, create] == [commit] + [create] && [create] == [create] + [];
    AtFirst(db);
    PreparedIsBefore(db, db.disk, FreshLogEdit(db));
    FreshFields(db);
    CutFirst(db.disk, commit, [create], d);
    if Interrupted(db.disk, commit, d) {
      CommitCut(db, db.disk, FreshLogEdit(db), d);
    } else if d != db.disk {
      CutFirst(Finished(db.disk, commit), create, [], d);
      if CutShort(Finished(Finished(db.disk, commit), create), [], d) {
        CutAtNothing(Finished(Finished(db.disk, commit), create), d);
      }
    }
  }

  lemma SwitchCutShort(db: Db, opts: Options, d: Disk)
    requires db.vs.Valid() && db.walNumber < db.nextNumber && EmptyFrom(db.disk.logs, db.nextNumber) && CutShort(db.disk, SwitchSteps(db, opts), d)
    ensures BeforeCommit(db, RecoveryEdit(db, opts), d) || (db.mem == [] && d == FreshLogCommitted(db).disk) || d == Switched(db, opts).disk
  {
    hide CutShort, AllFinished, BeforeCommit, Flush, Manifest.Encode, FlushEdit, FreshLogEdit, Prepared, FreshLogCommitted;
    if db.mem != [] {
      var steps := [TableWrite(db.nextNumber, db.mem), LogCreate(db.nextNumber + 1)];
      assert FlushSteps(db, opts) == steps + [ManifestAppend(Manifest.Encode(FlushEdit(db, opts)))];
      AtFirst(db);
      CutBeforeCommit(db, db.disk, steps, FlushEdit(db, opts), d);
      FlushStepsDoIt(db, opts);
    } else {
      FreshCutShort(db, d);
    }
  }

  lemma SwitchedIsPartlyCleaned(db: Db, tr: Trace, opts: Options)
    requires Live(db, tr) && CanRecover(db, opts)
    ensures db.vs.Valid() && PartlyCleaned(Switched(db, opts), Switched(db, opts).disk)
    ensures Switched(db, opts).walNumber == Switched(db, opts).vs.logNumber
  {
    SwitchedIsLive(db, tr, opts);
    var db1, tr1 := Switched(db, opts), tr.(flushed := |tr.hist|);
    assert db1.walNumber == db1.vs.logNumber && db.vs.Valid() by { hide StoreOk, NoRepeats, HistoryOk, ContentsOk, ViewsOk, Switched, NumbersBelow; }
    hide Live, CanRecover, Switched, RemoveObsolete;
    LiveTablesStay(db1, tr1);
    SameTablesBack(db1.vs.current, db1.disk.tables, RemoveObsolete(db1).disk.tables);
  }

  lemma SameTablesBack(v: Version, a: map<nat, seq<Entry>>, b: map<nat, seq<Entry>>)
    requires v.Valid() && SameTables(v, a, b)
    ensures SameTables(v, b, a)
  {
  }

  /** Between and inside the file operations of recovery, a crash leaves one of the disks `RecoveryCrash` allows, whatever obsolete files go first. */
  lemma RecoveryCutShortIsCrash(d: Disk, db0: Db, tr: Trace, opts: Options, rs: seq<FileStep>, d': Disk)
    requires Recoverable(d, db0, tr) && db0.vs.Valid() && CanRecover(db0, opts) && AllObsolete(Switched(db0, opts), rs)
    requires CutShort(d, SwitchSteps(db0, opts) + rs, d')
    ensures RecoveryCrash(d, opts, d')
  {
    assert Live(db0, tr) && db0.disk == d && EmptyFrom(d.logs, db0.nextNumber) && db0.walNumber < db0.nextNumber by {
      hide StoreOk, NoRepeats, HistoryOk, ContentsOk, ViewsOk, NumbersBelow, EmptyFrom;
    }
    hide Recoverable, Live, CanRecover, CutShort, AllFinished, SwitchSteps, Switched, BeforeCommit, PartlyCleaned, Replayed,
         RecoveryEdit, FreshLogCommitted, AllObsolete,
         EmptyFrom;
    ReplayedIs(d, db0, tr);
    CutThen(d, SwitchSteps(db0, opts), rs, d');
    SwitchStepsDoIt(db0, opts);
    SwitchedIsPartlyCleaned(db0, tr, opts);
    if CutShort(d, SwitchSteps(db0, opts), d') {
      SwitchCutShort(db0, opts, d');
    } else {
      RemovalsCutShort(Switched(db0, opts), Switched(db0, opts).disk, rs, d');
    }
  }

  /** So recovery may stop anywhere as well: the disk still recovers to the same history. */
  lemma RecoveryCutShortRecovers(d: Disk, db0: Db, tr: Trace, opts: Options, rs: seq<FileStep>, d': Disk) returns (db1: Db, tr1: Trace)
    requires Recoverable(d, db0, tr) && ManifestOk(db0, tr) && db0.vs.Valid() && CanRecover(db0, opts) && AllObsolete(Switched(db0, opts), rs)
    requires CutShort(d, SwitchSteps(db0, opts) + rs, d')
    ensures Recoverable(d', db1, tr1) && tr1.hist == tr.hist && tr1.layered == tr.layered
  {
    hide *;
    RecoveryCutShortIsCrash(d, db0, tr, opts, rs, d');
    db1, tr1 := RecoveryCrashIsRecoverable(d, db0, tr, opts, d');
  }

  // ----- all obsolete files gone --------------------------------------------------------------

  /** Every file that is not in use is removed. */
  ghost predicate RemovesAll(db: Db, rs: seq<FileStep>)
    requires db.vs.Valid()
  {
    && (forall n :: n in db.disk.logs && n != db.vs.logNumber ==> LogRemove(n) in rs)
    && (forall n :: n in db.disk.tables && !IsLive(db.vs.current, n) ==> TableRemove(n) in rs)
  }

  lemma {:induction false} RemovalsRemove(db: Db, d: Disk, rs: seq<FileStep>)
    requires db.vs.Valid() && AllObsolete(db, rs)
    ensures var d' := AllFinished(d, rs);
            && d'.manifest == d.manifest
            && (forall n :: n in d'.logs <==> n in d.logs && LogRemove(n) !in rs) && (forall n :: n in d'.logs ==> d'.logs[n] == d.logs[n])
            && (forall n :: n in d'.tables <==> n in d.tables && TableRemove(n) !in rs) && (forall n :: n in d'.tables ==> d'.tables[n] == d.tables[n])
    decreases |rs|
  {
    hide IsLive;
    if rs != [] {
      assert rs[0] in rs && rs == [rs[0]] + rs[1..];
      RemovalsRemove(db, Finished(d, rs[0]), rs[1..]);
    }
  }

  lemma RemovedAre(db: Db, rs: seq<FileStep>)
    requires db.vs.Valid() && AllObsolete(db, rs) && RemovesAll(db, rs)
    ensures forall n :: n in db.disk.logs ==> (LogRemove(n) !in rs <==> n == db.vs.logNumber)
    ensures forall n :: n in db.disk.tables ==> (TableRemove(n) !in rs <==> IsLive(db.vs.current, n))
  {
    hide IsLive;
  }

  lemma RemovalsDoIt(db: Db, rs: seq<FileStep>)
    requires db.vs.Valid() && AllObsolete(db, rs) && RemovesAll(db, rs)
    ensures AllFinished(db.disk, rs) == RemoveObsolete(db).disk
  {
    hide AllFinished, IsLive, AllObsolete, RemovesAll;
    RemovalsRemove(db, db.disk, rs);
    RemovedAre(db, rs);
    assert AllFinished(db.disk, rs).logs == RemoveObsolete(db).disk.logs;
    assert AllFinished(db.disk, rs).tables == RemoveObsolete(db).disk.tables;
  }

  lemma RecoverUnfolds(d: Disk, opts: Options)
    requires Recover(d, opts).Ok?
    ensures Replayed(d).Ok? && Replayed(d).value.vs.Valid() && Replayed(d).value.disk == d
    ensures Recover(d, opts).value == RemoveObsolete(Switched(Replayed(d).value, opts))
  {
    hide Replayed, Switched, RemoveObsolete;
  }

  /** Carried out completely, in whatever order the obsolete files are listed, the steps leave the recovered disk. */
  lemma RecoveryStepsDoIt(d: Disk, opts: Options, rs: seq<FileStep>)
    requires Recover(d, opts).Ok? && Replayed(d).Ok? && Replayed(d).value.vs.Valid()
    requires AllObsolete(Switched(Replayed(d).value, opts), rs) && RemovesAll(Switched(Replayed(d).value, opts), rs)
    ensures AllFinished(d, SwitchSteps(Replayed(d).value, opts) + rs) == Recover(d, opts).value.disk
  {
    hide *;
    RecoverUnfolds(d, opts);
    var db0 := Replayed(d).value;
    AllFinishedThen(d, SwitchSteps(db0, opts), rs);
    SwitchStepsDoIt(db0, opts);
    RemovalsDoIt(Switched(db0, opts), rs);
  }
}
