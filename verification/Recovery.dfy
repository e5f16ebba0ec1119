/** Crashes and recovery: what a crash may leave on disk, and what recovery makes of it. */
module Recovery {
  import opened ByteStrings
  import opened InternalKeys
  import opened Varints
  import opened VersionedEntries
  import opened WalEntries
  import opened Wal
  import opened Manifest
  import opened Versions
  import opened Compactions
  import opened CompactionOutputs
  import opened Sorting
  import opened Stores
  import opened Engine
  import opened Invariants
  import opened CompactionSteps

  // ----- other tables, same files -------------------------------------------------------------

  /** The two disks agree on every table the version names. */
  ghost predicate SameTables(v: Version, a: map<nat, seq<Entry>>, b: map<nat, seq<Entry>>)
    requires v.Valid()
  {
    forall l, f :: 0 <= l < NUM_LEVELS && f in v.files[l] ==> f.number in a && f.number in b && a[f.number] == b[f.number]
  }

  lemma SameFile(st: Store, tables: map<nat, seq<Entry>>, l: nat, f: FileMeta)
    requires st.version.Valid() && SameTables(st.version, st.tables, tables) && l < NUM_LEVELS && f in st.version.files[l]
    ensures Contents(tables, f) == Contents(st.tables, f)
    ensures FileOk(st.tables, f) <==> FileOk(tables, f)
  {
    hide Ascending;
  }

  lemma SameEntries(st: Store, tables: map<nat, seq<Entry>>)
    requires st.version.Valid() && SameTables(st.version, st.tables, tables)
    ensures EntriesOf(tables, AllFiles(st.version)) == EntriesOf(st.tables, AllFiles(st.version))
    ensures Stored(st.(tables := tables)) == Stored(st)
  {
    hide SameTables, Contents;
    forall f | f in AllFiles(st.version) ensures Contents(tables, f) == Contents(st.tables, f) {
      var l: nat :| l < NUM_LEVELS && f in st.version.files[l];
      SameFile(st, tables, l, f);
    }
  }

  lemma SameOrders(st: Store, tables: map<nat, seq<Entry>>)
    requires LayersOk(st) && SameTables(st.version, st.tables, tables)
    ensures FilesOk(st.version, tables) && LevelOrder(st.version, tables) && LevelZeroOrder(st.version, tables)
  {
    var v := st.version;
    hide SameTables, Contents, LevelsDisjoint, UniqueNumbers, MemNewest, FileOk, Ascending;
    forall l, f | 0 <= l < NUM_LEVELS && f in v.files[l] ensures FileOk(tables, f) {
      assert FileOk(st.tables, f);
      SameFile(st, tables, l, f);
    }
    forall l, m, f, g | 0 <= l < m < NUM_LEVELS && f in v.files[l] && g in v.files[m] ensures NewerThan(tables, f, g) {
      assert NewerThan(st.tables, f, g);
      SameFile(st, tables, l, f);
      SameFile(st, tables, m, g);
    }
    forall i, j | 0 <= i < j < |v.files[0]| ensures NewerThan(tables, v.files[0][j], v.files[0][i]) {
      assert NewerThan(st.tables, v.files[0][j], v.files[0][i]);
      SameFile(st, tables, 0, v.files[0][j]);
      SameFile(st, tables, 0, v.files[0][i]);
    }
  }

  lemma SameLayers(st: Store, tables: map<nat, seq<Entry>>)
    requires LayersOk(st) && SameTables(st.version, st.tables, tables)
    ensures LayersOk(st.(tables := tables)) && Stored(st.(tables := tables)) == Stored(st)
    ensures EntriesOf(tables, AllFiles(st.version)) == EntriesOf(st.tables, AllFiles(st.version))
  {
    SameEntries(st, tables);
    SameOrders(st, tables);
    hide SameTables, FilesOk, LevelOrder, LevelZeroOrder, LevelsDisjoint, UniqueNumbers, Ascending, EntriesOf, AllFiles;
  }

  lemma SameStoreOk(st: Store, tables: map<nat, seq<Entry>>, layered: bool)
    requires StoreOk(st, layered) && st.version.Valid() && SameTables(st.version, st.tables, tables)
    ensures StoreOk(st.(tables := tables), layered) && Stored(st.(tables := tables)) == Stored(st)
    ensures EntriesOf(tables, AllFiles(st.version)) == EntriesOf(st.tables, AllFiles(st.version))
  {
    hide Sound, LayersOk, EntriesOf, AllFiles, Stored;
    SameEntries(st, tables);
    assert Agree(st.version, st.tables, tables) by { hide StoreOk; }
    assert Store(st.version, st.mem, st.tables) == st && Store(st.version, st.mem, tables) == st.(tables := tables);
    AgreeingIsSound(st.version, st.mem, st.tables, tables);
    if layered {
      SameLayers(st, tables);
    }
  }

  /** With the snapshots gone, only the latest state is read: any disk that keeps the version's tables will do. */
  lemma LiveOnDisk(db: Db, tr: Trace, d: Disk)
    requires Live(db, tr) && SameTables(db.vs.current, db.disk.tables, d.tables)
    ensures Live(db.(snapshots := [], disk := d), tr)
  {
    var db' := db.(snapshots := [], disk := d);
    hide StoreOk, NoRepeats, HistoryOk, EntriesOf, AllFiles, SameTables, NumbersBelow, InsertAll, View;
    SameStoreOk(StoreOf(db), d.tables, tr.layered);
    assert StoreOf(db') == StoreOf(db).(tables := d.tables);
    hide Stored;
    assert ViewsOk(db', tr.hist) by {
      forall k, s | Readable(db', s) ensures View(Stored(StoreOf(db')), k, s) == View(SetOf(tr.hist), k, s) {
        assert Readable(db, s);
      }
    }
  }

  /** Below the next file number, two disks hold the same tables. */
  ghost predicate SameBelow(next: nat, a: map<nat, seq<Entry>>, b: map<nat, seq<Entry>>) {
    forall n :: n in a && n < next ==> n in b && a[n] == b[n]
  }

  lemma NamedTablesKept(db: Db, tr: Trace, d: Disk)
    requires Live(db, tr) && SameBelow(db.nextNumber, db.disk.tables, d.tables)
    ensures SameTables(db.vs.current, db.disk.tables, d.tables)
  {
    var v := db.vs.current;
    assert FilesOk(v, db.disk.tables) && NumbersBelow(v, db.nextNumber) by { LiveFilesOk(db, tr); }
    hide Live, Ascending;
    forall l, f | 0 <= l < NUM_LEVELS && f in v.files[l]
      ensures f.number in db.disk.tables && f.number in d.tables && db.disk.tables[f.number] == d.tables[f.number]
    {
      assert FileOk(db.disk.tables, f);
    }
  }

  lemma LiveFilesOk(db: Db, tr: Trace)
    requires Live(db, tr)
    ensures db.vs.current.Valid() && FilesOk(db.vs.current, db.disk.tables) && NumbersBelow(db.vs.current, db.nextNumber)
  {
    assert Sound(StoreOf(db));
    hide LayersOk, NoRepeats, HistoryOk, ViewsOk, ContentsOk, Ascending, NothingTwice, MemApart, UniqueNumbers, NumbersBelow;
  }

  // ----- what recovery reads ------------------------------------------------------------------

  /** A disk from which replay reaches exactly the state `db0` with history `tr`. */
  ghost predicate Recoverable(d: Disk, db0: Db, tr: Trace) {
    && Live(db0, tr)
    && db0.disk == d && db0.snapshots == []
    && RecoverState(d.manifest) == Ok(db0.vs.(lastSequence := tr.flushed))
    && LiveLog(d, db0.vs.logNumber) == Ok(tr.hist[tr.flushed..])
    && EmptyFrom(d.logs, db0.nextNumber)
  }

  lemma NewestSeqno(hist: seq<Entry>, n: nat)
    requires HistoryOk(hist) && n <= |hist|
    ensures MaxSeqno(hist[n..], n) == |hist|
  {
    NoRepeatedSuffix(hist, n);
    hide FitsEntry;
    if n < |hist| {
      assert hist[|hist| - 1] == hist[n..][|hist| - 1 - n];
      assert hist[|hist| - 1] in hist[n..];
    }
  }

  lemma ReplayedIs(d: Disk, db0: Db, tr: Trace)
    requires Recoverable(d, db0, tr)
    ensures Replayed(d) == Ok(db0)
  {
    hide StoreOk, NoRepeats, ViewsOk, HistoryOk, InsertAll, RecoverState, LiveLog, NumbersBelow, EntriesOf, AllFiles, EmptyFrom, MaxSeqno;
    assert HistoryOk(tr.hist);
    NewestSeqno(tr.hist, tr.flushed);
  }

  /** Decoding gives back the entries that were logged. */
  lemma {:induction false} DecodeWalRoundTrip(es: seq<Entry>)
    requires forall i :: 0 <= i < |es| ==> FitsEntry(es[i])
    ensures DecodeWal(EncodeWal(es)) == Ok(es)
  {
    if es != [] {
      EntryFits(es[0]);
      assert EncodeWal(es)[1..] == EncodeWal(es[1..]) by { hide EncodeEntry; }
      DecodeWalRoundTrip(es[1..]);
      assert [es[0]] + es[1..] == es;
    }
  }

  lemma EntryFits(e: Entry)
    requires FitsEntry(e)
    ensures DecodeEntry(EncodeEntry(ToWal(e))) == Ok(ToWal(e)) && FromWal(ToWal(e)) == e
  {
    EntryRoundTrip(ToWal(e));
  }

  /** A log cut anywhere inside its last append reads as the entries before it. */
  lemma TornLogReads(wal: seq<Entry>, e: Entry, n: nat)
    requires forall i :: 0 <= i < |wal + [e]| ==> FitsEntry((wal + [e])[i])
    requires |LogOf(wal)| <= n <= |LogOf(wal + [e])|
    ensures DecodeWal(ReadRecords(LogOf(wal + [e])[..n])) == Ok(if n == |LogOf(wal + [e])| then wal + [e] else wal)
  {
    hide EncodeEntry, FitsEntry, ReadRecords, WithRecords, WithRecord;
    assert forall i :: 0 <= i < |wal| ==> wal[i] == (wal + [e])[i];
    LogGrows(wal, e);
    ReadsAfterTornAppend(EncodeWal(wal), EncodeEntry(ToWal(e)), n);
    DecodeWalRoundTrip(wal);
    DecodeWalRoundTrip(wal + [e]);
  }

  lemma WholeLogReads(wal: seq<Entry>)
    requires forall i :: 0 <= i < |wal| ==> FitsEntry(wal[i])
    ensures DecodeWal(ReadRecords(LogOf(wal))) == Ok(wal)
  {
    hide EncodeEntry, FitsEntry, ReadRecords, WithRecords;
    ReadsBackEverything(EncodeWal(wal));
    DecodeWalRoundTrip(wal);
  }

  // ----- what a crash leaves ------------------------------------------------------------------

  datatype Op =
    | WriteOp(key: Bytes, value: Bytes, vtype: ValueType)
    | CompactOp
    | AcquireOp
    | ReleaseOp(s: nat)

  /** `torn` is `file` with a proper part of one more record. */
  ghost predicate PartOfAppend(file: Bytes, record: Bytes, torn: Bytes) {
    |file| <= |torn| < |WithRecord(file, record)| && torn == WithRecord(file, record)[..|torn|]
  }

  ghost predicate SameLog(n: nat, a: map<nat, Bytes>, b: map<nat, Bytes>) {
    (n in a <==> n in b) && (n in a ==> a[n] == b[n])
  }

  /**
   * A crash before an edit is completely in the manifest: part of the record may be there, and files
   * under numbers not yet given out may exist, tables with any contents and logs still empty.
   */
  ghost predicate BeforeCommit(db: Db, e: VersionEdit, d: Disk) {
    && PartOfAppend(db.disk.manifest, Manifest.Encode(e), d.manifest)
    && SameBelow(db.nextNumber, db.disk.tables, d.tables)
    && SameLog(db.walNumber, db.disk.logs, d.logs)
    && EmptyFrom(d.logs, db.nextNumber)
  }

  /** A crash inside a log append, or right after it. */
  ghost predicate TornWrite(db: Db, e: Entry, d: Disk)
    requires db.walNumber in db.disk.logs
  {
    var log := db.disk.logs[db.walNumber];
    var whole := WithRecord(log, EncodeEntry(ToWal(e)));
    exists n :: |log| <= n <= |whole| && d == db.disk.(logs := db.disk.logs[db.walNumber := whole[..n]])
  }

  /** A crash during a flush. */
  ghost predicate FlushCrash(db: Db, opts: Options, d: Disk)
    requires db.vs.Valid() && db.mem != []
  {
    BeforeCommit(db, FlushEdit(db, opts), d) || d == Flush(db, opts).disk
  }

  ghost predicate WriteCrash(db: Db, e: Entry, opts: Options, d: Disk)
    requires db.vs.Valid() && db.walNumber in db.disk.logs
  {
    TornWrite(db, e, d) || (Full(Logged(db, e), opts) && FlushCrash(Logged(db, e), opts, d))
  }

  ghost predicate CompactCrash(db: Db, opts: Options, d: Disk)
    requires db.vs.Valid()
  {
    match PickCompaction(db.vs.current, db.vs.compactPointers)
    case None => d == db.disk
    case Some(c) => BeforeCommit(db, EditOf(db, c, opts), d) || d == Compact(db, opts).disk
  }

  /** The disks a crash during an operation may leave, with every finished write and rename synced. */
  ghost predicate Crash(db: Db, op: Op, opts: Options, d: Disk)
    requires db.vs.Valid() && db.walNumber in db.disk.logs
  {
    match op
    case WriteOp(k, v, t) => if k == [] then d == db.disk else WriteCrash(db, NextEntry(db, k, v, t), opts, d)
    case CompactOp => CompactCrash(db, opts, d)
    case AcquireOp => d == db.disk
    case ReleaseOp(_) => d == db.disk
  }

  // ----- every crash image is recoverable -----------------------------------------------------

  lemma ImageIsRecoverable(db: Db, tr: Trace, d: Disk)
    requires Live(db, tr)
    requires RecoverState(d.manifest) == Ok(db.vs.(lastSequence := tr.flushed))
    requires LiveLog(d, db.vs.logNumber) == Ok(tr.hist[tr.flushed..])
    requires EmptyFrom(d.logs, db.nextNumber) && SameTables(db.vs.current, db.disk.tables, d.tables)
    ensures Recoverable(d, db.(snapshots := [], disk := d), tr)
  {
    hide Live, RecoverState, LiveLog, EmptyFrom, SameTables;
    LiveOnDisk(db, tr, d);
  }

  lemma LogReads(db: Db, tr: Trace)
    requires Inv(db, tr)
    ensures LiveLog(db.disk, db.vs.logNumber) == Ok(tr.hist[tr.flushed..])
    ensures EmptyFrom(db.disk.logs, db.nextNumber)
  {
    hide StoreOk, NoRepeats, ViewsOk, NumbersBelow, ManifestOk, InsertAll, EntriesOf, AllFiles, ReadRecords, LogOf, FitsEntry;
    assert HistoryOk(tr.hist);
    WholeLogReads(tr.hist[tr.flushed..]);
  }

  lemma ManifestReads(db: Db, tr: Trace)
    requires db.vs.Valid() && ManifestOk(db, tr)
    ensures RecoverState(db.disk.manifest) == Ok(db.vs.(lastSequence := tr.flushed))
  {
    hide Fits, RecoverState, ManifestOf, Replay;
    ReplayEqualsLiveState(tr.edits);
  }

  /** The disk of a running database is recoverable as it stands. */
  lemma DiskIsRecoverable(db: Db, tr: Trace)
    requires Inv(db, tr)
    ensures Recoverable(db.disk, db.(snapshots := []), tr)
  {
    hide Live, ManifestOk, RecoverState, LiveLog, EmptyFrom, SameTables;
    assert Live(db, tr) && db.vs.Valid() && ManifestOk(db, tr) by { LiveParts(db, tr); }
    LogReads(db, tr);
    ManifestReads(db, tr);
    NamedTablesKept(db, tr, db.disk) by { SameBelowItself(db.nextNumber, db.disk.tables); }
    ImageIsRecoverable(db, tr, db.disk);
  }

  lemma LiveParts(db: Db, tr: Trace)
    requires Inv(db, tr)
    ensures db.vs.Valid() && Live(db, tr) && tr.flushed <= |tr.hist| && ManifestOk(db, tr)
    ensures db.walNumber == db.vs.logNumber < db.nextNumber && db.walNumber in db.disk.logs
    ensures db.disk.logs[db.walNumber] == LogOf(tr.hist[tr.flushed..]) && HistoryOk(tr.hist)
  {
    hide StoreOk, NoRepeats, ViewsOk, NumbersBelow, ManifestOk, InsertAll, EntriesOf, AllFiles, LogOf, HistoryOk;
  }

  /** Before the commit is complete, the state before it is recovered, whatever else is on disk. */
  lemma BeforeCommitRecovers(db: Db, tr: Trace, e: VersionEdit, d: Disk)
    requires Live(db, tr) && ManifestOk(db, tr) && Fits(e)
    requires LiveLog(db.disk, db.vs.logNumber) == Ok(tr.hist[tr.flushed..]) && db.walNumber == db.vs.logNumber
    requires BeforeCommit(db, e, d)
    ensures Recoverable(d, db.(snapshots := [], disk := d), tr)
  {
    hide Live, RecoverState, EmptyFrom, SameBelow, SameTables, Fits, ManifestOf, WithRecord, Manifest.Encode, Replay, DecodeWal, ReadRecords;
    ManifestGrows(tr.edits, e);
    RecoverAfterTornEdit(tr.edits, e, |d.manifest|);
    NamedTablesKept(db, tr, d);
    ImageIsRecoverable(db, tr, d);
  }

  lemma TornWriteRecovers(db: Db, tr: Trace, e: Entry, d: Disk, n: nat)
    requires Inv(db, tr) && CanWrite(tr, e) && db.walNumber in db.disk.logs
    requires |db.disk.logs[db.walNumber]| <= n < |WithRecord(db.disk.logs[db.walNumber], EncodeEntry(ToWal(e)))|
    requires d == db.disk.(logs := db.disk.logs[db.walNumber := WithRecord(db.disk.logs[db.walNumber], EncodeEntry(ToWal(e)))[..n]])
    ensures Recoverable(d, db.(snapshots := [], disk := d), tr)
  {
    hide Live, RecoverState, LiveLog, SameBelow, SameTables, ManifestOk, WithRecord, EncodeEntry, LogOf, HistoryOk, ReadRecords, FitsEntry, CanWrite;
    LiveParts(db, tr);
    ManifestReads(db, tr);
    LogReads(db, tr);
    var wal := tr.hist[tr.flushed..];
    LogGrows(wal, e);
    WalFits(tr, e);
    TornLogReads(wal, e, n);
    LiveLogIs(d, db.vs.logNumber);
    NamedTablesKept(db, tr, d) by { SameBelowItself(db.nextNumber, d.tables); }
    assert EmptyFrom(d.logs, db.nextNumber);
    ImageIsRecoverable(db, tr, d);
  }

  lemma LiveLogIs(d: Disk, n: nat)
    requires n in d.logs
    ensures LiveLog(d, n) == DecodeWal(ReadRecords(d.logs[n]))
  {
  }

  lemma SameBelowItself(next: nat, tables: map<nat, seq<Entry>>)
    ensures SameBelow(next, tables, tables)
  {
  }

  lemma WalFits(tr: Trace, e: Entry)
    requires HistoryOk(tr.hist) && tr.flushed <= |tr.hist| && CanWrite(tr, e)
    ensures var wal := tr.hist[tr.flushed..]; forall i :: 0 <= i < |wal + [e]| ==> FitsEntry((wal + [e])[i])
  {
    hide FitsEntry;
  }

  // ----- the hypotheses of a run --------------------------------------------------------------

  /** Room in the integer types, and no compaction that bares an older value. */
  ghost predicate CanDo(db: Db, op: Op, opts: Options)
    requires db.vs.Valid() && db.walNumber in db.disk.logs
  {
    match op
    case WriteOp(k, v, t) =>
      var e := NextEntry(db, k, v, t);
      k != [] ==> e.Seqno() <= MAX_SEQUENCE && FitsEntry(e) && (Full(Logged(db, e), opts) ==> CanFlushNow(Logged(db, e), opts))
    case CompactOp => forall c :: Picks(db, c) ==> CanCompact(db, c, opts)
    case AcquireOp => true
    case ReleaseOp(_) => true
  }

  /** A compaction does not cut inside a user key. */
  ghost predicate NoCut(db: Db, op: Op, opts: Options)
    requires db.vs.Valid()
  {
    op.CompactOp? ==> forall c :: Picks(db, c) ==> CleanCut(db, c, opts)
  }

  /** The history a recovered database may have: what was acknowledged, and possibly the write in flight. */
  ghost predicate Explains(db: Db, hist: seq<Entry>, op: Op, recovered: seq<Entry>) {
    recovered == hist || (op.WriteOp? && op.key != [] && recovered == hist + [NextEntry(db, op.key, op.value, op.vtype)])
  }

  /** A crash anywhere in a write recovers the history without it or with it. */
  lemma WriteCrashRecovers(db: Db, tr: Trace, op: Op, opts: Options, d: Disk) returns (db0: Db, tr0: Trace)
    requires op.WriteOp? && op.key != []
    requires Inv(db, tr) && db.vs.Valid() && db.walNumber in db.disk.logs
    requires CanDo(db, op, opts) && WriteCrash(db, NextEntry(db, op.key, op.value, op.vtype), opts, d)
    ensures Recoverable(d, db0, tr0) && Explains(db, tr.hist, op, tr0.hist) && tr0.layered == tr.layered
  {
    var e := NextEntry(db, op.key, op.value, op.vtype);
    hide Inv, Recoverable, Logged, EncodeEntry, FlushCrash, Full, WithRecord, CanWrite, CanFlushNow, FitsEntry, TornWrite;
    NextFits(db, tr, e);
    if TornWrite(db, e, d) {
      db0, tr0 := TornCrashRecovers(db, tr, e, d);
    } else {
      LoggedIsOk(db, tr, e);
      db0, tr0 := FlushCrashRecovers(Logged(db, e), tr.(hist := tr.hist + [e]), opts, d);
    }
  }

  lemma TornCrashRecovers(db: Db, tr: Trace, e: Entry, d: Disk) returns (db0: Db, tr0: Trace)
    requires Inv(db, tr) && db.vs.Valid() && db.walNumber in db.disk.logs && CanWrite(tr, e) && TornWrite(db, e, d)
    ensures Recoverable(d, db0, tr0) && (tr0.hist == tr.hist || tr0.hist == tr.hist + [e]) && tr0.layered == tr.layered
  {
    hide Inv, Recoverable, Logged, EncodeEntry, WithRecord, CanWrite;
    var log := db.disk.logs[db.walNumber];
    var whole := WithRecord(log, EncodeEntry(ToWal(e)));
    var n: nat :| |log| <= n <= |whole| && d == db.disk.(logs := db.disk.logs[db.walNumber := whole[..n]]);
    if n < |whole| {
      TornWriteRecovers(db, tr, e, d, n);
      db0, tr0 := db.(snapshots := [], disk := d), tr;
    } else {
      assert whole[..n] == whole;
      LoggedDisk(db, e, d);
      LoggedIsOk(db, tr, e);
      DiskIsRecoverable(Logged(db, e), tr.(hist := tr.hist + [e]));
      db0, tr0 := Logged(db, e).(snapshots := []), tr.(hist := tr.hist + [e]);
    }
  }

  lemma NextFits(db: Db, tr: Trace, e: Entry)
    requires Inv(db, tr) && e.Seqno() == db.memSeq + 1 <= MAX_SEQUENCE && FitsEntry(e)
    ensures CanWrite(tr, e)
  {
    hide StoreOk, NoRepeats, ViewsOk, HistoryOk, NumbersBelow, ContentsOk, Clean, FitsEntry;
  }

  lemma LoggedDisk(db: Db, e: Entry, d: Disk)
    requires db.walNumber in db.disk.logs
    requires d == db.disk.(logs := db.disk.logs[db.walNumber := WithRecord(db.disk.logs[db.walNumber], EncodeEntry(ToWal(e)))])
    ensures d == Logged(db, e).disk
  {
    hide WithRecord, EncodeEntry, Insert;
  }

  lemma FlushCrashRecovers(db: Db, tr: Trace, opts: Options, d: Disk) returns (db0: Db, tr0: Trace)
    requires Inv(db, tr) && db.vs.Valid() && CanFlushNow(db, opts) && FlushCrash(db, opts, d)
    ensures Recoverable(d, db0, tr0) && tr0.hist == tr.hist && tr0.layered == tr.layered
  {
    hide Live, Recoverable, ManifestOk, BeforeCommit, LogOf, Flush, FlushEdit, HistoryOk, LiveLog;
    LiveParts(db, tr);
    if BeforeCommit(db, FlushEdit(db, opts), d) {
      FlushEditFits(db, tr, opts);
      LogReads(db, tr);
      BeforeCommitRecovers(db, tr, FlushEdit(db, opts), d);
      db0, tr0 := db.(snapshots := [], disk := d), tr;
    } else {
      FlushIsOk(db, tr, opts);
      tr0 := tr.(edits := tr.edits + [FlushEdit(db, opts)], flushed := |tr.hist|);
      DiskIsRecoverable(Flush(db, opts), tr0);
      db0 := Flush(db, opts).(snapshots := []);
    }
  }

  lemma CompactCrashRecovers(db: Db, tr: Trace, opts: Options, d: Disk) returns (db0: Db, tr0: Trace)
    requires Inv(db, tr) && db.vs.Valid() && db.walNumber in db.disk.logs
    requires CanDo(db, CompactOp, opts) && CompactCrash(db, opts, d)
    ensures Recoverable(d, db0, tr0) && tr0.hist == tr.hist && (tr.layered && NoCut(db, CompactOp, opts) ==> tr0.layered)
  {
    hide Live, Recoverable, ManifestOk, BeforeCommit, LogOf, HistoryOk, LiveLog, PickCompaction, CanCompact, Compact, EditOf, CleanCut;
    LiveParts(db, tr);
    match PickCompaction(db.vs.current, db.vs.compactPointers)
    case None =>
      DiskIsRecoverable(db, tr);
      db0, tr0 := db.(snapshots := []), tr;
    case Some(c) =>
      assert Picks(db, c);
      PickedIsChosen(db.vs.current, db.vs.compactPointers);
      if BeforeCommit(db, EditOf(db, c, opts), d) {
        CompactEditFits(db, tr, c, opts);
        LogReads(db, tr);
        BeforeCommitRecovers(db, tr, EditOf(db, c, opts), d);
        db0, tr0 := db.(snapshots := [], disk := d), tr;
      } else {
        CompactIsOk(db, tr, c, opts);
        tr0 := AfterCompaction(db, tr, c, opts);
        DiskIsRecoverable(Compact(db, opts), tr0);
        db0 := Compact(db, opts).(snapshots := []);
      }
  }

  /** Whatever operation a crash interrupts, and wherever, the disk it leaves is recoverable. */
  lemma CrashIsRecoverable(db: Db, tr: Trace, op: Op, opts: Options, d: Disk) returns (db0: Db, tr0: Trace)
    requires Inv(db, tr) && db.vs.Valid() && db.walNumber in db.disk.logs
    requires CanDo(db, op, opts) && Crash(db, op, opts, d)
    ensures Recoverable(d, db0, tr0) && Explains(db, tr.hist, op, tr0.hist) && (tr.layered && NoCut(db, op, opts) ==> tr0.layered)
  {
    hide Inv, Recoverable, CompactCrash, WriteCrash, Picks, Full, CanFlushNow, FitsEntry, CanCompact, Logged;
    if op.WriteOp? && op.key != [] {
      db0, tr0 := WriteCrashRecovers(db, tr, op, opts, d);
    } else if op.CompactOp? {
      db0, tr0 := CompactCrashRecovers(db, tr, opts, d);
    } else {
      DiskIsRecoverable(db, tr);
      db0, tr0 := db.(snapshots := []), tr;
    }
  }

  // ----- recovery -----------------------------------------------------------------------------

  lemma FreshAdvances(st: VersionState, db: Db)
    requires st.Valid()
    ensures Advance(st, FreshLogEdit(db)) == Ok(st.(logNumber := db.nextNumber, nextFileNumber := db.nextNumber + 1))
  {
  }

  lemma FreshFields(db: Db)
    requires db.vs.Valid()
    ensures FreshLogCommitted(db)
         == db.(vs := db.vs.(logNumber := db.nextNumber, nextFileNumber := db.nextNumber + 1),
                nextNumber := db.nextNumber + 1, walNumber := db.nextNumber,
                disk := db.disk.(manifest := WithRecord(db.disk.manifest, Manifest.Encode(FreshLogEdit(db)))))
  {
    hide Advance, WithRecord, Manifest.Encode, FreshLogEdit;
    FreshAdvances(db.vs, db);
  }

  lemma NothingUnflushed(db: Db, tr: Trace)
    requires Live(db, tr) && db.mem == []
    ensures tr.flushed == |tr.hist| && tr.hist[tr.flushed..] == []
  {
    hide StoreOk, NoRepeats, ViewsOk, HistoryOk, NumbersBelow, EntriesOf, AllFiles, CountersOk;
  }

  lemma BelowMore(v: Version, n: nat)
    requires v.Valid() && NumbersBelow(v, n)
    ensures NumbersBelow(v, n + 1)
  {
  }

  lemma FreshKeepsLive(db: Db, tr: Trace)
    requires Live(db, tr) && db.mem == [] && db.nextNumber + 1 < U64_LIMIT
    ensures Live(FreshLogCommitted(db), tr)
  {
    hide StoreOk, NoRepeats, ViewsOk, HistoryOk, NumbersBelow, EntriesOf, AllFiles, InsertAll, FreshLogCommitted, WithRecord, Manifest.Encode, FreshLogEdit;
    FreshFields(db);
    var db' := FreshLogCommitted(db);
    BelowMore(db.vs.current, db.nextNumber);
    SameViews(db, db', tr.hist);
    assert StoreOf(db') == StoreOf(db);
  }

  lemma FreshKeepsManifest(db: Db, tr: Trace)
    requires Live(db, tr) && db.mem == [] && db.nextNumber + 1 < U64_LIMIT && ManifestOk(db, tr)
    ensures ManifestOk(FreshLogCommitted(db), tr.(edits := tr.edits + [FreshLogEdit(db)]))
  {
    hide Live, Fits, FreshLogCommitted, WithRecord, Manifest.Encode, FreshLogEdit, ManifestOf, Replay, Advance;
    FreshFields(db);
    var e := FreshLogEdit(db);
    FreshFits(db);
    FitsAppend(tr.edits, e);
    ManifestGrows(tr.edits, e);
    FreshAdvances(db.vs.(lastSequence := tr.flushed), db);
    ReplayNext(tr.edits, db.vs.(lastSequence := tr.flushed), e, FreshLogCommitted(db).vs.(lastSequence := tr.flushed));
  }

  lemma FreshFits(db: Db)
    requires db.nextNumber + 1 < U64_LIMIT
    ensures Fits(FreshLogEdit(db))
  {
  }

  /** Room for recovery's own numbers and table. */
  ghost predicate CanRecover(db: Db, opts: Options) {
    if db.mem != [] then CanFlushNow(db, opts) else db.nextNumber + 1 < U64_LIMIT
  }

  function RecoveryEdit(db: Db, opts: Options): VersionEdit {
    if db.mem != [] then FlushEdit(db, opts) else FreshLogEdit(db)
  }

  lemma LogOpenedKeepsLive(db: Db, tr: Trace)
    requires Live(db, tr)
    ensures Live(LogOpened(db), tr)
  {
    hide StoreOk, NoRepeats, ViewsOk, HistoryOk, NumbersBelow, EntriesOf, AllFiles, InsertAll;
    assert StoreOf(LogOpened(db)) == StoreOf(db);
    SameViews(db, LogOpened(db), tr.hist);
  }

  lemma SwitchedIsLive(db: Db, tr: Trace, opts: Options)
    requires Live(db, tr) && CanRecover(db, opts)
    ensures Live(Switched(db, opts), tr.(flushed := |tr.hist|))
  {
    assert db.vs.Valid();
    hide Live, Flush, FreshLogCommitted, LogOpened, CanFlushNow;
    if db.mem != [] {
      FlushKeepsLive(db, tr, opts);
    } else {
      NothingUnflushed(db, tr);
      FreshKeepsLive(db, tr);
      LogOpenedKeepsLive(FreshLogCommitted(db), tr);
      assert tr.(flushed := |tr.hist|) == tr;
    }
  }

  lemma LogOpenedIsClean(db: Db, tr: Trace)
    requires tr.flushed == |tr.hist| && ManifestOk(db, tr) && EmptyFrom(db.disk.logs, db.walNumber) && db.walNumber < db.nextNumber
    ensures Clean(LogOpened(db), tr)
  {
    hide AllFit, ManifestOf, Replay;
    assert tr.hist[tr.flushed..] == [];
    assert LogOf([]) == [] by { assert EncodeWal([]) == []; }
  }

  lemma SwitchedIsClean(db: Db, tr: Trace, opts: Options)
    requires Live(db, tr) && CanRecover(db, opts) && ManifestOk(db, tr) && EmptyFrom(db.disk.logs, db.nextNumber)
    ensures Clean(Switched(db, opts), tr.(edits := tr.edits + [RecoveryEdit(db, opts)], flushed := |tr.hist|))
  {
    assert db.vs.Valid();
    hide Live, Flush, FreshLogCommitted, LogOpened, CanFlushNow, Clean, ManifestOk, FlushEdit, FreshLogEdit, WithRecord, Manifest.Encode;
    if db.mem != [] {
      FlushKeepsClean(db, tr, opts);
    } else {
      NothingUnflushed(db, tr);
      FreshKeepsManifest(db, tr);
      FreshFields(db);
      LogOpenedIsClean(FreshLogCommitted(db), tr.(edits := tr.edits + [FreshLogEdit(db)]));
    }
  }

  lemma LiveTablesStay(db: Db, tr: Trace)
    requires Live(db, tr)
    ensures db.vs.Valid() && SameTables(db.vs.current, db.disk.tables, RemoveObsolete(db).disk.tables)
  {
    var v := db.vs.current;
    LiveFilesOk(db, tr);
    hide Live, Ascending, FilesOk;
    forall l, f | 0 <= l < NUM_LEVELS && f in v.files[l]
      ensures f.number in db.disk.tables && IsLive(v, f.number)
    {
      NamedIsLive(v, db.disk.tables, l, f);
    }
  }

  lemma NamedIsLive(v: Version, tables: map<nat, seq<Entry>>, l: nat, f: FileMeta)
    requires v.Valid() && FilesOk(v, tables) && l < NUM_LEVELS && f in v.files[l]
    ensures f.number in tables && IsLive(v, f.number)
  {
    assert FileOk(tables, f);
    var i :| 0 <= i < |v.files[l]| && v.files[l][i] == f;
  }

  lemma CleanedIsLive(db: Db, tr: Trace)
    requires Live(db, tr) && db.snapshots == []
    ensures Live(RemoveObsolete(db), tr)
  {
    LiveTablesStay(db, tr);
    LiveOnDisk(db, tr, RemoveObsolete(db).disk);
    hide Live, SameTables;
    assert RemoveObsolete(db) == db.(snapshots := [], disk := RemoveObsolete(db).disk);
  }

  lemma CleanedIsClean(db: Db, tr: Trace)
    requires db.vs.Valid() && tr.flushed <= |tr.hist| && Clean(db, tr) && db.walNumber == db.vs.logNumber
    ensures Clean(RemoveObsolete(db), tr)
  {
    hide AllFit, ManifestOf, Replay, LogOf, IsLive;
  }

  /** From a recoverable disk, recovery succeeds and reaches a live database with the same history, all flushed. */
  lemma RecoverIsLive(d: Disk, db0: Db, tr: Trace, opts: Options)
    requires Recoverable(d, db0, tr) && CanRecover(db0, opts)
    ensures Recover(d, opts).Ok? && Live(Recover(d, opts).value, tr.(flushed := |tr.hist|))
  {
    ReplayedIs(d, db0, tr);
    assert Live(db0, tr) && db0.snapshots == [] && db0.vs.Valid();
    hide Live, Replayed, Switched, RemoveObsolete, Recoverable;
    SwitchedIsLive(db0, tr, opts);
    SwitchedHasNoSnapshots(db0, opts);
    CleanedIsLive(Switched(db0, opts), tr.(flushed := |tr.hist|));
  }

  lemma SwitchedHasNoSnapshots(db: Db, opts: Options)
    requires db.vs.Valid() && db.snapshots == []
    ensures Switched(db, opts).snapshots == []
  {
    hide Advance, WithRecord, Manifest.Encode, FlushEdit, FreshLogEdit;
  }

  /** If the manifest also ends on a record boundary, the recovered database satisfies the whole invariant again. */
  lemma RecoverIsOk(d: Disk, db0: Db, tr: Trace, opts: Options)
    requires Recoverable(d, db0, tr) && CanRecover(db0, opts) && ManifestOk(db0, tr)
    ensures Recover(d, opts).Ok?
    ensures Inv(Recover(d, opts).value, tr.(edits := tr.edits + [RecoveryEdit(db0, opts)], flushed := |tr.hist|))
  {
    var db1 := Switched(db0, opts);
    var tr1 := tr.(edits := tr.edits + [RecoveryEdit(db0, opts)], flushed := |tr.hist|);
    assert Live(db0, tr) && db0.vs.Valid() && EmptyFrom(db0.disk.logs, db0.nextNumber);
    hide Live, Switched, RemoveObsolete, Recoverable, ManifestOk, Clean, CanRecover, RecoveryEdit, Replayed;
    ReplayedIs(d, db0, tr);
    RecoverIsLive(d, db0, tr, opts);
    LiveIgnoresEdits(Recover(d, opts).value, tr.(flushed := |tr.hist|), tr1);
    SwitchedIsClean(db0, tr, opts);
    SwitchedIsLive(db0, tr, opts);
    SwitchedLog(db1, tr.(flushed := |tr.hist|));
    CleanedIsClean(db1, tr1);
  }

  lemma SwitchedLog(db: Db, tr: Trace)
    requires Live(db, tr)
    ensures db.walNumber == db.vs.logNumber
  {
    hide StoreOk, NoRepeats, ViewsOk, HistoryOk, NumbersBelow, ContentsOk;
  }

  // ----- crashes during recovery --------------------------------------------------------------

  /** Some of the obsolete files are gone, none of the live ones. */
  ghost predicate PartlyCleaned(db: Db, d: Disk)
    requires db.vs.Valid()
  {
    && d.manifest == db.disk.manifest
    && (forall n :: n in d.logs ==> n in db.disk.logs && d.logs[n] == db.disk.logs[n])
    && SameLog(db.walNumber, db.disk.logs, d.logs)
    && SameTables(db.vs.current, RemoveObsolete(db).disk.tables, d.tables)
  }

  /** The disks a crash during recovery from `d` may leave. */
  ghost predicate RecoveryCrash(d: Disk, opts: Options, d': Disk) {
    match Replayed(d)
    case Corrupted => d' == d
    case Ok(db0) =>
      || BeforeCommit(db0, RecoveryEdit(db0, opts), d')
      || (db0.mem == [] && d' == FreshLogCommitted(db0).disk)
      || PartlyCleaned(Switched(db0, opts), d')
  }

  lemma RecoveryEditFits(db: Db, tr: Trace, opts: Options)
    requires Live(db, tr) && CanRecover(db, opts)
    ensures Fits(RecoveryEdit(db, opts))
  {
    hide Live, Fits, FlushEdit, FreshLogEdit, CanFlushNow;
    if db.mem != [] {
      FlushEditFits(db, tr, opts);
    } else {
      FreshFits(db);
    }
  }

  /** A fresh log that is missing or still empty holds nothing. */
  lemma FreshLogReads(d: Disk, n: nat)
    requires EmptyFrom(d.logs, n)
    ensures LiveLog(d, n) == Ok([])
  {
  }

  lemma FreshCrashRecovers(db: Db, tr: Trace)
    requires Live(db, tr) && db.mem == [] && db.nextNumber + 1 < U64_LIMIT && ManifestOk(db, tr)
    requires EmptyFrom(db.disk.logs, db.nextNumber) && db.snapshots == []
    ensures var db1 := FreshLogCommitted(db); Recoverable(db1.disk, db1, tr.(edits := tr.edits + [FreshLogEdit(db)]))
  {
    assert db.vs.Valid();
    var db1, tr1 := FreshLogCommitted(db), tr.(edits := tr.edits + [FreshLogEdit(db)]);
    hide Live, ManifestOk, RecoverState, LiveLog, SameTables, FreshLogCommitted, FreshLogEdit, WithRecord, Manifest.Encode;
    FreshKeepsLive(db, tr);
    FreshKeepsManifest(db, tr);
    FreshFields(db);
    LiveIgnoresEdits(db1, tr, tr1);
    NothingUnflushed(db, tr);
    ManifestReads(db1, tr1);
    FreshLogReads(db1.disk, db.nextNumber);
  }

  lemma CleaningRecovers(db: Db, tr: Trace, d: Disk)
    requires Inv(db, tr) && db.vs.Valid() && db.snapshots == [] && PartlyCleaned(db, d)
    ensures Recoverable(d, db.(disk := d), tr)
  {
    hide Live, ManifestOk, RecoverState, DecodeWal, ReadRecords, SameTables, RemoveObsolete, LogOf;
    LiveParts(db, tr);
    LogReads(db, tr);
    ManifestReads(db, tr);
    LiveTablesStay(db, tr);
    SameTablesTrans(db.vs.current, db.disk.tables, RemoveObsolete(db).disk.tables, d.tables);
    ImageIsRecoverable(db, tr, d);
    assert db.(snapshots := [], disk := d) == db.(disk := d);
  }

  lemma SameTablesTrans(v: Version, a: map<nat, seq<Entry>>, b: map<nat, seq<Entry>>, c: map<nat, seq<Entry>>)
    requires v.Valid() && SameTables(v, a, b) && SameTables(v, b, c)
    ensures SameTables(v, a, c)
  {
  }

  /** A crash during recovery leaves a disk from which the same history is recovered. */
  lemma RecoveryCrashIsRecoverable(d: Disk, db0: Db, tr: Trace, opts: Options, d': Disk) returns (db1: Db, tr1: Trace)
    requires Recoverable(d, db0, tr) && ManifestOk(db0, tr) && CanRecover(db0, opts)
    requires RecoveryCrash(d, opts, d')
    ensures Recoverable(d', db1, tr1) && tr1.hist == tr.hist && tr1.layered == tr.layered
  {
    assert Live(db0, tr) && db0.vs.Valid() && EmptyFrom(db0.disk.logs, db0.nextNumber) && db0.snapshots == [] && db0.disk == d
        && LiveLog(d, db0.vs.logNumber) == Ok(tr.hist[tr.flushed..]);
    hide Live, Recoverable, ManifestOk, BeforeCommit, PartlyCleaned, Replayed, RecoveryEdit, LiveLog, Switched, FreshLogCommitted, CanFlushNow, Clean;
    ReplayedIs(d, db0, tr);
    SwitchedLog(db0, tr);
    if BeforeCommit(db0, RecoveryEdit(db0, opts), d') {
      RecoveryEditFits(db0, tr, opts);
      BeforeCommitRecovers(db0, tr, RecoveryEdit(db0, opts), d');
      db1, tr1 := db0.(snapshots := [], disk := d'), tr;
    } else if db0.mem == [] && d' == FreshLogCommitted(db0).disk {
      FreshCrashRecovers(db0, tr);
      db1, tr1 := FreshLogCommitted(db0), tr.(edits := tr.edits + [FreshLogEdit(db0)]);
    } else {
      var db' := Switched(db0, opts);
      tr1 := tr.(edits := tr.edits + [RecoveryEdit(db0, opts)], flushed := |tr.hist|);
      SwitchedIsLive(db0, tr, opts);
      SwitchedIsClean(db0, tr, opts);
      SwitchedHasNoSnapshots(db0, opts);
      LiveIgnoresEdits(db', tr.(flushed := |tr.hist|), tr1);
      CleaningRecovers(db', tr1, d');
      db1 := db'.(disk := d');
    }
  }

  // ----- manifests that end on a record boundary ----------------------------------------------

  ghost predicate WholeManifest(d: Disk) {
    exists edits :: AllFit(edits) && d.manifest == ManifestOf(edits)
  }

  lemma WholeManifestIsOk(d: Disk, db0: Db, tr: Trace) returns (tr1: Trace)
    requires Recoverable(d, db0, tr) && WholeManifest(d)
    ensures Recoverable(d, db0, tr1) && ManifestOk(db0, tr1) && tr1.hist == tr.hist && tr1.layered == tr.layered
  {
    assert Live(db0, tr);
    var edits :| AllFit(edits) && d.manifest == ManifestOf(edits);
    hide Live, RecoverState, LiveLog, ManifestOf, Replay, Fits;
    ReplayEqualsLiveState(edits);
    tr1 := tr.(edits := edits);
    LiveIgnoresEdits(db0, tr, tr1);
  }

  /**
   * Without that, nothing is promised beyond the first recovery: the program appends to a torn manifest,
   * and a short edit after one stray byte is invisible to the next replay.
   */
  lemma TornManifestForgetsEdit(edits: seq<VersionEdit>, b: Byte, e: VersionEdit)
    requires AllFit(edits) && |Manifest.Encode(e)| < 256
    requires |ManifestOf(edits)| % BLOCK_SIZE + 1 + HEADER_SIZE + |Manifest.Encode(e)| <= BLOCK_SIZE
    ensures RecoverState(WithRecord(ManifestOf(edits) + [b], Manifest.Encode(e))) == Replay(InitialState, edits)
  {
    hide Fits, ReadRecords, WithRecord, WithRecords, Manifest.Encode;
    TornTailHidesAppend(EncodeEdits(edits), b, Manifest.Encode(e));
    DecodeEditsRoundTrip(edits);
  }

  /** The most bytes the edit of an empty recovery takes: two tagged varints. */
  const FRESH_EDIT_LIMIT: nat := 22

  lemma FreshEditIsShort(db: Db)
    requires db.nextNumber + 1 < U64_LIMIT
    ensures |Manifest.Encode(FreshLogEdit(db))| <= FRESH_EDIT_LIMIT
  {
    hide Varint;
    RoundTrip64(db.nextNumber, []);
    RoundTrip64(db.nextNumber + 1, []);
    var a, b := LogNumberField(db.nextNumber), NextFileNumberField(db.nextNumber + 1);
    assert Fields(FreshLogEdit(db)) == [a, b];
    assert [a, b][1..] == [b] && [b][1..] == [];
  }

  lemma FreshRecoveryDisk(d: Disk, db0: Db, tr: Trace, opts: Options)
    requires Recoverable(d, db0, tr) && db0.mem == [] && CanRecover(db0, opts)
    ensures Recover(d, opts).Ok?
    ensures var db := Recover(d, opts).value;
            && db.walNumber == db0.nextNumber
            && db.disk.manifest == WithRecord(d.manifest, Manifest.Encode(FreshLogEdit(db0)))
            && db.disk.logs.Keys == {db0.nextNumber}
  {
    assert db0.vs.Valid() && EmptyFrom(d.logs, db0.nextNumber);
    hide Live, Recoverable, Replayed, WithRecord, Manifest.Encode, FreshLogEdit, IsLive, FreshLogCommitted;
    ReplayedIs(d, db0, tr);
    FreshFields(db0);
    var db := Recover(d, opts).value;
    assert forall n :: n in db.disk.logs <==> n == db0.nextNumber;
  }

  /**
   * What that costs: after a crash that left one stray byte in the manifest and nothing to flush, recovery
   * deletes the old log and starts a new one; a write acknowledged then is gone after the next crash.
   */
  lemma TornManifestLosesWrite(d: Disk, db0: Db, tr: Trace, opts: Options, edits: seq<VersionEdit>, b: Byte, e: Entry)
    requires Recoverable(d, db0, tr) && db0.mem == [] && CanRecover(db0, opts)
    requires AllFit(edits) && Replay(InitialState, edits) == Ok(db0.vs.(lastSequence := tr.flushed))
    requires d.manifest == ManifestOf(edits) + [b]
    requires |ManifestOf(edits)| % BLOCK_SIZE + 1 + HEADER_SIZE + FRESH_EDIT_LIMIT <= BLOCK_SIZE
    ensures Recover(d, opts).Ok? && Recover(d, opts).value.walNumber in Recover(d, opts).value.disk.logs
    ensures var after := Logged(Recover(d, opts).value, e).disk; Replayed(after) == Ok(db0.(disk := after))
  {
    NothingUnflushed(db0, tr);
    LiveNumbers(db0, tr);
    assert db0.vs.Valid() && db0.snapshots == [] && db0.nextNumber + 1 < U64_LIMIT;
    assert db0.vs.(lastSequence := tr.flushed) == db0.vs;
    assert HEADER_SIZE + FRESH_EDIT_LIMIT < 256;
    hide *;
    FreshRecoveryDisk(d, db0, tr, opts);
    FreshEditIsShort(db0);
    TornManifestForgetsEdit(edits, b, FreshLogEdit(db0));
    var db := Recover(d, opts).value;
    LogOnlyGrows(db, e);
    NoLiveLog(Logged(db, e).disk, db0.vs.logNumber);
    ReplaysEmpty(Logged(db, e).disk, db0);
  }

  lemma LogOnlyGrows(db: Db, e: Entry)
    requires db.walNumber in db.disk.logs
    ensures Logged(db, e).disk.manifest == db.disk.manifest && Logged(db, e).disk.logs.Keys == db.disk.logs.Keys
  {
    hide WithRecord, EncodeEntry, Insert;
  }

  lemma NoLiveLog(d: Disk, n: nat)
    requires n !in d.logs.Keys
    ensures LiveLog(d, n) == Ok([])
  {
  }

  /** A manifest that names a log without entries replays to its own state. */
  lemma ReplaysEmpty(d: Disk, db0: Db)
    requires db0.vs.Valid() && RecoverState(d.manifest) == Ok(db0.vs) && LiveLog(d, db0.vs.logNumber) == Ok([])
    requires db0.mem == [] && db0.snapshots == [] && db0.memSeq == db0.vs.lastSequence
    requires db0.nextNumber == db0.vs.nextFileNumber && db0.walNumber == db0.vs.logNumber
    ensures Replayed(d) == Ok(db0.(disk := d))
  {
    hide RecoverState, LiveLog;
    assert MaxSeqno([], db0.vs.lastSequence) == db0.vs.lastSequence;
  }

  lemma RecordIsLong(file: Bytes, data: Bytes)
    ensures |WithRecord(file, data)| >= |file| + HEADER_SIZE
  {
    var n := if |data| < Room(file) then |data| else Room(file);
    OneFragment(file, data, true, n);
    hide AddFragments, Piece;
  }

  /** The first byte of a record may be all that reaches the disk. */
  lemma OneByteOfAppend(file: Bytes, record: Bytes) returns (b: Byte)
    ensures PartOfAppend(file, record, file + [b])
  {
    hide WithRecord;
    RecordIsLong(file, record);
    var whole := WithRecord(file, record);
    b := whole[|file|];
    assert whole[..|file| + 1] == file + [b];
  }

  /** A crash inside recovery's own commit leaves such a disk, whenever there was nothing to flush. */
  lemma TornManifestIsReached(d: Disk, db0: Db, tr: Trace, opts: Options) returns (b: Byte, torn: Disk)
    requires Recoverable(d, db0, tr) && ManifestOk(db0, tr) && db0.mem == [] && CanRecover(db0, opts)
    ensures torn == d.(manifest := ManifestOf(tr.edits) + [b])
    ensures RecoveryCrash(d, opts, torn) && Recoverable(torn, db0.(disk := torn), tr)
  {
    assert Live(db0, tr) && db0.disk == d && db0.snapshots == [] && d.manifest == ManifestOf(tr.edits);
    assert EmptyFrom(d.logs, db0.nextNumber) && LiveLog(d, db0.vs.logNumber) == Ok(tr.hist[tr.flushed..]);
    hide Live, Recoverable, Replayed, RecoverState, LiveLog, ManifestOf, Manifest.Encode, FreshLogEdit, PartOfAppend, EmptyFrom, Fits, SameBelow, SameLog, Replay;
    ReplayedIs(d, db0, tr);
    LiveNumbers(db0, tr);
    RecoveryEditFits(db0, tr, opts);
    b := OneByteOfAppend(d.manifest, Manifest.Encode(FreshLogEdit(db0)));
    torn := d.(manifest := d.manifest + [b]);
    SameBelowItself(db0.nextNumber, d.tables);
    SameLogItself(db0.walNumber, d.logs);
    assert BeforeCommit(db0, FreshLogEdit(db0), torn);
    BeforeCommitRecovers(db0, tr, FreshLogEdit(db0), torn);
    assert db0.(snapshots := [], disk := torn) == db0.(disk := torn);
  }

  lemma SameLogItself(n: nat, logs: map<nat, Bytes>)
    ensures SameLog(n, logs, logs)
  {
  }

  lemma LiveNumbers(db: Db, tr: Trace)
    requires Live(db, tr)
    ensures db.nextNumber == db.vs.nextFileNumber && db.walNumber == db.vs.logNumber < db.nextNumber
    ensures db.memSeq == db.vs.lastSequence == |tr.hist|
  {
    hide StoreOk, NoRepeats, HistoryOk, NumbersBelow, ViewsOk, ContentsOk;
  }
}
