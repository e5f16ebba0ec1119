/** The engine's invariant over runs: layers, counters, history and durable bytes. */
module Invariants {
  import opened ByteStrings
  import opened InternalKeys
  import opened VersionedEntries
  import opened WalEntries
  import opened Wal
  import opened Manifest
  import opened Versions
  import opened Compactions
  import opened CompactionOutputs
  import opened Sorting
  import opened Stores
  import opened Engine

  /** Ghost history: the edits logged, the writes issued in order, how many of them are flushed, and whether no compaction has cut inside a key yet. */
  datatype Trace = Trace(edits: seq<VersionEdit>, hist: seq<Entry>, flushed: nat, layered: bool)

  predicate FitsEntry(e: Entry) {
    FitsKey(e.ik) && |e.value| < U32_LIMIT
  }

  /** Writes carry consecutive sequence numbers from 1, and their lengths fit the formats. */
  ghost predicate HistoryOk(hist: seq<Entry>) {
    forall i :: 0 <= i < |hist| ==> hist[i].Seqno() == i + 1 && FitsEntry(hist[i])
  }

  /** The snapshots a reader may still use: the latest state, and anything from the oldest live snapshot on. */
  predicate Readable(db: Db, s: nat) {
    s >= db.vs.lastSequence || (db.snapshots != [] && s >= Smallest(db.snapshots))
  }

  /** Every readable snapshot sees exactly what the whole history shows. */
  ghost predicate ViewsOk(db: Db, hist: seq<Entry>)
    requires db.vs.Valid()
  {
    forall k, s :: Readable(db, s) ==> View(Stored(StoreOf(db)), k, s) == View(SetOf(hist), k, s)
  }

  ghost predicate CountersOk(db: Db, tr: Trace)
    requires db.vs.Valid()
  {
    && db.nextNumber == db.vs.nextFileNumber < U64_LIMIT
    && db.walNumber == db.vs.logNumber < db.nextNumber
    && db.memSeq == db.vs.lastSequence == |tr.hist| <= MAX_SEQUENCE
    && NumbersBelow(db.vs.current, db.nextNumber)
    && (forall s :: s in db.snapshots ==> s <= |tr.hist|)
  }

  /** The memtable holds the unflushed writes, and the tables only flushed ones. */
  ghost predicate ContentsOk(db: Db, tr: Trace)
    requires db.vs.Valid()
  {
    && tr.flushed <= |tr.hist|
    && db.mem == InsertAll([], tr.hist[tr.flushed..])
    && (forall e :: e in EntriesOf(db.disk.tables, AllFiles(db.vs.current)) ==> e.Seqno() <= tr.flushed && e in tr.hist)
  }

  /** A sound store, its layers in order as long as no compaction has cut inside a user key. */
  ghost predicate StoreOk(st: Store, layered: bool) {
    Sound(st) && (layered ==> LayersOk(st))
  }

  lemma StoreOkParts(st: Store, layered: bool)
    requires StoreOk(st, layered)
    ensures Sound(st) && st.version.Valid() && Ascending(st.mem) && UniqueNumbers(st.version)
    ensures layered ==> LayersOk(st)
  {
    SoundParts(st);
    hide Sound, LayersOk;
  }

  lemma LayersAreOk(st: Store, layered: bool)
    requires LayersOk(st)
    ensures StoreOk(st, layered)
  {
    hide LayersOk, Sound;
    LayersAreSound(st);
  }

  /** The in-memory half of the invariant. */
  ghost predicate Live(db: Db, tr: Trace) {
    && db.vs.Valid()
    && StoreOk(StoreOf(db), tr.layered) && NoRepeats(db.vs.current)
    && HistoryOk(tr.hist)
    && CountersOk(db, tr)
    && ContentsOk(db, tr)
    && ViewsOk(db, tr.hist)
  }

  /** Logs that a crash may have left behind for a number not yet given out were never written to. */
  ghost predicate EmptyFrom(logs: map<nat, Bytes>, next: nat) {
    forall n :: n in logs && n >= next ==> logs[n] == []
  }

  ghost predicate LogsOk(disk: Disk, logNumber: nat, wal: seq<Entry>, next: nat) {
    logNumber in disk.logs && disk.logs[logNumber] == LogOf(wal) && EmptyFrom(disk.logs, next)
  }

  /** The manifest is a whole number of edits that replay to the state, up to the unflushed writes. */
  ghost predicate ManifestOk(db: Db, tr: Trace) {
    && AllFit(tr.edits)
    && db.disk.manifest == ManifestOf(tr.edits)
    && Replay(InitialState, tr.edits) == Ok(db.vs.(lastSequence := tr.flushed))
  }

  /** The durable half: the manifest, and a log that holds the unflushed writes. */
  ghost predicate Clean(db: Db, tr: Trace)
    requires tr.flushed <= |tr.hist|
  {
    ManifestOk(db, tr) && LogsOk(db.disk, db.walNumber, tr.hist[tr.flushed..], db.nextNumber)
  }

  ghost predicate Inv(db: Db, tr: Trace) {
    Live(db, tr) && Clean(db, tr)
  }

  // ----- history ------------------------------------------------------------------------------

  lemma HistoryIsDistinct(hist: seq<Entry>)
    requires HistoryOk(hist)
    ensures Distinct(SetOf(hist))
    ensures forall e :: e in hist ==> 1 <= e.Seqno() <= |hist| && FitsEntry(e)
    ensures NoRepeatedVersion(hist)
  {
  }

  lemma NoRepeatedSuffix(hist: seq<Entry>, n: nat)
    requires HistoryOk(hist) && n <= |hist|
    ensures NoRepeatedVersion(hist[n..])
    ensures forall e :: e in hist[n..] ==> n < e.Seqno() <= |hist| && e in hist
  {
  }

  /** Adding one entry newer than everything keeps two equal views equal. */
  lemma AddNewestToBoth(A: set<Entry>, B: set<Entry>, e: Entry, k: Bytes, s: nat)
    requires Distinct(A) && Distinct(B)
    requires forall x :: x in A || x in B ==> x.Seqno() < e.Seqno()
    requires !VisibleAt(e, k, s) ==> View(A, k, s) == View(B, k, s)
    ensures View(A + {e}, k, s) == View(B + {e}, k, s)
  {
    assert Distinct(A + {e}) && Distinct(B + {e});
    if VisibleAt(e, k, s) {
      assert IsNewest(A + {e}, k, s, e);
      NewestIsUnique(A + {e}, k, s, e);
      assert IsNewest(B + {e}, k, s, e);
      NewestIsUnique(B + {e}, k, s, e);
    } else {
      ViewDependsOnVisible(A, A + {e}, k, s);
      ViewDependsOnVisible(B, B + {e}, k, s);
    }
  }

  // ----- a new database -----------------------------------------------------------------------

  lemma EmptyStore(tables: map<nat, seq<Entry>>)
    ensures LayersOk(Store(EmptyVersion, [], tables))
    ensures AllFiles(EmptyVersion) == {} && Stored(Store(EmptyVersion, [], tables)) == {}
    ensures NumbersBelow(EmptyVersion, 0)
  {
    NoFiles();
    hide EmptyVersion;
  }

  lemma NoFiles()
    ensures EmptyVersion.Valid() && forall l :: 0 <= l < NUM_LEVELS ==> EmptyVersion.files[l] == []
  {
  }

  lemma CreateNewAdvances()
    ensures Advance(InitialState, InitialEdit) == Ok(InitialState.(logNumber := 2, nextFileNumber := 3))
    ensures Fits(InitialEdit)
  {
  }

  lemma CreateNewFields()
    ensures var db := CreateNew();
            && db.vs == InitialState.(logNumber := 2, nextFileNumber := 3)
            && db.snapshots == [] && db.mem == [] && db.memSeq == 0 && db.nextNumber == 3 && db.walNumber == 2
            && db.disk == Disk(ManifestOf([InitialEdit]), map[2 := []], map[])
  {
    CreateNewAdvances();
    OneEditManifest(InitialEdit);
    hide Manifest.Encode, Advance, AddFragments;
  }

  lemma OneEditManifest(e: VersionEdit)
    ensures ManifestOf([e]) == WithRecord([], Manifest.Encode(e))
  {
    hide Manifest.Encode, WithRecord;
    var rs := EncodeEdits([e]);
    assert rs[0] == Manifest.Encode(e) && rs[1..] == [];
    assert WithRecords([], rs) == WithRecords(WithRecord([], rs[0]), rs[1..]);
  }

  lemma CreateNewReplays()
    ensures Replay(InitialState, [InitialEdit]) == Ok(InitialState.(logNumber := 2, nextFileNumber := 3))
  {
  }

  lemma CreateNewIsOk()
    ensures Inv(CreateNew(), Trace([InitialEdit], [], 0, true))
  {
    var db, tr := CreateNew(), Trace([InitialEdit], [], 0, true);
    NewIsLive();
    CreateNewFields();
    CreateNewReplays();
    CreateNewAdvances();
    assert tr.hist[0..] == [];
    assert LogOf([]) == [] by { assert EncodeWal([]) == []; }
    hide CreateNew, InitialEdit, ManifestOf, Fits, Replay, LogOf, Live;
    assert AllFit(tr.edits);
  }

  lemma NewIsLive()
    ensures Live(CreateNew(), Trace([InitialEdit], [], 0, true))
  {
    var db, tr := CreateNew(), Trace([InitialEdit], [], 0, true);
    CreateNewFields();
    EmptyStore(map[]);
    NoFiles();
    LayersAreOk(Store(EmptyVersion, [], map[]), true);
    assert tr.hist[0..] == [];
    hide CreateNew, StoreOk, InitialEdit, Stored, AllFiles, EntriesOf, ManifestOf;
    assert StoreOf(db) == Store(EmptyVersion, [], map[]);
    assert NoRepeats(db.vs.current);
    assert CountersOk(db, tr);
    assert ContentsOk(db, tr);
    assert ViewsOk(db, tr.hist);
  }

  // ----- writing ------------------------------------------------------------------------------

  lemma StoredIsHistory(db: Db, tr: Trace)
    requires Live(db, tr)
    ensures forall e :: e in Stored(StoreOf(db)) ==> e in tr.hist && 1 <= e.Seqno() <= |tr.hist|
    ensures Distinct(Stored(StoreOf(db))) && Distinct(SetOf(tr.hist))
  {
    HistoryIsDistinct(tr.hist);
    NoRepeatedSuffix(tr.hist, tr.flushed);
    StoreOkParts(StoreOf(db), tr.layered);
    StoredIsDistinct(StoreOf(db));
    hide StoreOk, ViewsOk, CountersOk, HistoryOk, AllFiles, EntriesOf;
  }

  /** The log grows by one record per write. */
  lemma LogGrows(wal: seq<Entry>, e: Entry)
    ensures WithRecord(LogOf(wal), EncodeEntry(ToWal(e))) == LogOf(wal + [e])
    ensures EncodeWal(wal + [e]) == EncodeWal(wal) + [EncodeEntry(ToWal(e))]
  {
    hide WithRecord, EncodeEntry;
    var r := EncodeEntry(ToWal(e));
    assert EncodeWal(wal + [e]) == EncodeWal(wal) + [r];
    AddRecordsAppend([], EncodeWal(wal), [r]);
    OneRecord(LogOf(wal), r);
  }

  lemma OneRecord(file: Bytes, r: Bytes)
    ensures WithRecords(file, [r]) == WithRecord(file, r)
  {
  }

  lemma SuffixGrows(hist: seq<Entry>, n: nat, e: Entry)
    requires n <= |hist|
    ensures (hist + [e])[n..] == hist[n..] + [e]
  {
  }

  lemma SetGrows(es: seq<Entry>, e: Entry)
    ensures SetOf(es + [e]) == SetOf(es) + {e}
  {
  }

  /** A write that the counters and formats have room for. */
  ghost predicate CanWrite(tr: Trace, e: Entry) {
    e.Seqno() == |tr.hist| + 1 <= MAX_SEQUENCE && FitsEntry(e)
  }

  lemma LoggedStore(db: Db, tr: Trace, e: Entry)
    requires Live(db, tr) && CanWrite(tr, e) && db.walNumber in db.disk.logs
    ensures StoreOk(StoreOf(Logged(db, e)), tr.layered)
    ensures Stored(StoreOf(Logged(db, e))) == Stored(StoreOf(db)) + {e}
    ensures Logged(db, e).mem == InsertAll([], (tr.hist + [e])[tr.flushed..])
  {
    assert StoreOk(StoreOf(db), tr.layered) && e.Seqno() == |tr.hist| + 1;
    assert StoreOf(Logged(db, e)) == StoreOf(db).(mem := Insert(StoreOf(db).mem, e)) by { hide Live, StoreOk, Insert; }
    hide Live, Sound, LayersOk, Stored, Insert, InsertAll, StoreOf;
    LoggedMem(db, tr, e);
    StoredIsHistory(db, tr);
    NewestKeepsSound(StoreOf(db), e);
    if tr.layered {
      NewestKeepsLayers(StoreOf(db), e);
    }
  }

  lemma NewestKeepsSound(st: Store, e: Entry)
    requires Sound(st) && forall x :: x in Stored(st) ==> x.Seqno() < e.Seqno()
    ensures var st' := st.(mem := Insert(st.mem, e)); Sound(st') && Stored(st') == Stored(st) + {e}
  {
    SoundParts(st);
    hide FilesOk, UniqueNumbers, NothingTwice, AllFiles, EntriesOf, KeyBefore, Insert;
    assert forall x :: x in st.mem ==> x in Stored(st);
    assert forall x :: x in EntriesOf(st.tables, AllFiles(st.version)) ==> x in Stored(st);
    hide Stored;
    InsertKeepsOrder(st.mem, e);
    assert Stored(st.(mem := Insert(st.mem, e))) == Stored(st) + {e} by { MemGrows(st, e); }
  }

  /** An entry newer than everything stored goes into the memtable. */
  lemma NewestKeepsLayers(st: Store, e: Entry)
    requires LayersOk(st) && forall x :: x in Stored(st) ==> x.Seqno() < e.Seqno()
    ensures var st' := st.(mem := Insert(st.mem, e)); LayersOk(st') && Stored(st') == Stored(st) + {e}
  {
    LayersParts(st);
    hide FilesOk, UniqueNumbers, LevelZeroOrder, LevelOrder, LevelsDisjoint, AllFiles, EntriesOf, KeyBefore, Insert;
    assert forall x :: x in st.mem ==> x in Stored(st);
    assert forall x :: x in EntriesOf(st.tables, AllFiles(st.version)) ==> x in Stored(st);
    hide Stored;
    InsertKeepsOrder(st.mem, e);
    assert Stored(st.(mem := Insert(st.mem, e))) == Stored(st) + {e} by { MemGrows(st, e); }
  }

  lemma MemGrows(st: Store, e: Entry)
    requires st.version.Valid()
    ensures Stored(st.(mem := Insert(st.mem, e))) == Stored(st) + {e}
  {
    hide AllFiles, EntriesOf, Insert;
  }

  lemma LoggedMem(db: Db, tr: Trace, e: Entry)
    requires Live(db, tr) && db.walNumber in db.disk.logs
    ensures Logged(db, e).mem == InsertAll([], (tr.hist + [e])[tr.flushed..])
  {
    assert tr.flushed <= |tr.hist| && db.mem == InsertAll([], tr.hist[tr.flushed..]);
    InsertAllAppend([], tr.hist[tr.flushed..], e);
    SuffixGrows(tr.hist, tr.flushed, e);
    hide Live, Insert, InsertAll, WithRecord, EncodeEntry;
  }

  lemma LoggedViews(db: Db, tr: Trace, e: Entry)
    requires Live(db, tr) && CanWrite(tr, e) && db.walNumber in db.disk.logs
    ensures ViewsOk(Logged(db, e), tr.hist + [e])
  {
    StoredIsHistory(db, tr);
    LoggedStore(db, tr, e);
    SetGrows(tr.hist, e);
    hide StoreOk, Stored, SetOf, View, HistoryOk, WithRecord, EncodeEntry, Insert;
    forall k, s | Readable(Logged(db, e), s)
      ensures View(Stored(StoreOf(Logged(db, e))), k, s) == View(SetOf(tr.hist + [e]), k, s)
    {
      assert !VisibleAt(e, k, s) ==> Readable(db, s) || e.Key() != k;
      assert Readable(db, s);
      OlderThanNew(tr.hist, db, tr, e);
      AddNewestToBoth(Stored(StoreOf(db)), SetOf(tr.hist), e, k, s);
    }
  }

  lemma OlderThanNew(hist: seq<Entry>, db: Db, tr: Trace, e: Entry)
    requires Live(db, tr) && CanWrite(tr, e) && hist == tr.hist
    ensures forall x :: x in Stored(StoreOf(db)) || x in SetOf(hist) ==> x.Seqno() < e.Seqno()
  {
  }

  lemma HistoryGrows(hist: seq<Entry>, e: Entry)
    requires HistoryOk(hist) && e.Seqno() == |hist| + 1 && FitsEntry(e)
    ensures HistoryOk(hist + [e])
  {
    hide FitsEntry;
  }

  lemma LoggedCounters(db: Db, tr: Trace, e: Entry)
    requires Live(db, tr) && CanWrite(tr, e) && db.walNumber in db.disk.logs
    ensures Logged(db, e).vs.Valid() && CountersOk(Logged(db, e), tr.(hist := tr.hist + [e]))
  {
    hide StoreOk, ViewsOk, ContentsOk, HistoryOk, WithRecord, EncodeEntry, Insert, NumbersBelow, FitsEntry;
    assert Logged(db, e).vs.current == db.vs.current;
  }

  lemma LoggedContents(db: Db, tr: Trace, e: Entry)
    requires Live(db, tr) && CanWrite(tr, e) && db.walNumber in db.disk.logs
    ensures Logged(db, e).vs.Valid() && ContentsOk(Logged(db, e), tr.(hist := tr.hist + [e]))
  {
    LoggedStore(db, tr, e);
    hide StoreOk, ViewsOk, CountersOk, HistoryOk, WithRecord, EncodeEntry, Insert, InsertAll, AllFiles, EntriesOf, FitsEntry, Stored;
    assert Logged(db, e).vs.current == db.vs.current && Logged(db, e).disk.tables == db.disk.tables;
    assert forall x :: x in tr.hist ==> x in tr.hist + [e];
  }

  lemma LoggedClean(db: Db, tr: Trace, e: Entry)
    requires tr.flushed <= |tr.hist| && Clean(db, tr) && db.walNumber < db.nextNumber
    ensures Clean(Logged(db, e), tr.(hist := tr.hist + [e]))
  {
    hide WithRecord, EncodeEntry, ToWal, Insert, LogOf, ManifestOf, Replay, AllFit;
    LogGrows(tr.hist[tr.flushed..], e);
    SuffixGrows(tr.hist, tr.flushed, e);
  }

  /** A logged write extends the history by one entry and keeps the invariant. */
  lemma LoggedIsOk(db: Db, tr: Trace, e: Entry)
    requires Inv(db, tr) && CanWrite(tr, e)
    ensures Inv(Logged(db, e), tr.(hist := tr.hist + [e]))
  {
    assert Live(db, tr) && Clean(db, tr) && db.walNumber in db.disk.logs && db.walNumber < db.nextNumber && tr.flushed <= |tr.hist|;
    LoggedStore(db, tr, e);
    LoggedViews(db, tr, e);
    LoggedCounters(db, tr, e);
    LoggedContents(db, tr, e);
    LoggedClean(db, tr, e);
    HistoryGrows(tr.hist, e);
    hide Clean, StoreOk, ViewsOk, CountersOk, ContentsOk, HistoryOk, Stored, Logged, InsertAll;
  }

  // ----- flushing -----------------------------------------------------------------------------

  /** The file and log numbers of a flush, and the table's size, fit their integers. */
  ghost predicate CanFlushNow(db: Db, opts: Options) {
    db.mem != [] && opts.fileSize(db.mem) < U64_LIMIT && db.nextNumber + 2 < U64_LIMIT
  }

  function FlushMeta(db: Db, opts: Options): FileMeta
    requires db.mem != []
  {
    MetaOf(db.nextNumber, db.mem, opts)
  }

  lemma FlushAdvances(st: VersionState, db: Db, opts: Options)
    requires st.Valid() && db.mem != []
    ensures Advance(st, FlushEdit(db, opts))
         == Ok(VersionState(Version(st.current.files[0 := st.current.files[0] + [FlushMeta(db, opts)]]),
                            db.nextNumber + 1, st.prevLogNumber, db.nextNumber + 2, db.memSeq, st.compactPointers))
  {
    hide MetaOf;
    var e := FlushEdit(db, opts);
    assert e.newFiles[1..] == [];
    ApplyOneAdd(st.current, e.newFiles[0]);
    assert ApplyDeletes(st.current, e.deletedFiles) == Ok(st.current);
  }

  lemma ApplyOneAdd(v: Version, f: NewFile)
    requires v.Valid() && f.level == 0
    ensures ApplyAdds(v, [f]) == Ok(Version(v.files[0 := v.files[0] + [f.meta]]))
  {
  }

  lemma FlushFields(db: Db, opts: Options)
    requires db.vs.Valid() && db.mem != []
    ensures var db' := Flush(db, opts);
            && db'.vs == VersionState(Version(db.vs.current.files[0 := db.vs.current.files[0] + [FlushMeta(db, opts)]]),
                                      db.nextNumber + 1, db.vs.prevLogNumber, db.nextNumber + 2, db.memSeq, db.vs.compactPointers)
            && db'.snapshots == db.snapshots && db'.mem == [] && db'.memSeq == db.memSeq
            && db'.nextNumber == db.nextNumber + 2 && db'.walNumber == db.nextNumber + 1
            && db'.disk == FlushPrepared(db).(manifest := WithRecord(db.disk.manifest, Manifest.Encode(FlushEdit(db, opts))))
    ensures StoreOf(Flush(db, opts)) == Flushed(StoreOf(db), FlushMeta(db, opts))
  {
    FlushAdvances(db.vs, db, opts);
    hide Advance, WithRecord, Manifest.Encode, FlushEdit;
  }

  lemma MemIsSuffix(db: Db, tr: Trace)
    requires Live(db, tr)
    ensures forall e :: e in db.mem <==> e in tr.hist[tr.flushed..]
  {
    hide StoreOk, ViewsOk, CountersOk, HistoryOk, InsertAll;
  }

  lemma MemCanFlush(db: Db, tr: Trace, opts: Options)
    requires Live(db, tr) && CanFlushNow(db, opts)
    ensures CanFlush(StoreOf(db), FlushMeta(db, opts))
  {
    assert StoreOk(StoreOf(db), tr.layered) && NumbersBelow(db.vs.current, db.nextNumber);
    hide Live, LayersOk, Sound, NumbersBelow;
  }

  lemma FlushedStoreOk(st: Store, meta: FileMeta, layered: bool)
    requires StoreOk(st, layered) && CanFlush(st, meta)
    ensures StoreOk(Flushed(st, meta), layered) && Stored(Flushed(st, meta)) == Stored(st)
    ensures NumbersBelow(Flushed(st, meta).version, meta.number + 1)
  {
    hide Sound, LayersOk, CanFlush, Flushed, Stored, NumbersBelow;
    FlushKeepsSound(st, meta);
    if layered {
      FlushKeepsLayers(st, meta);
    }
  }

  lemma FlushCounters(db: Db, tr: Trace, opts: Options)
    requires Live(db, tr) && CanFlushNow(db, opts)
    ensures CanFlush(StoreOf(db), FlushMeta(db, opts))
    ensures Flush(db, opts).vs.Valid() && CountersOk(Flush(db, opts), tr.(flushed := |tr.hist|))
  {
    FlushFields(db, opts);
    MemCanFlush(db, tr, opts);
    hide ViewsOk, ContentsOk, HistoryOk, StoreOk, CanFlush, Flush, Flushed, Ascending, NumbersBelow, NoRepeats;
    FlushKeepsSound(StoreOf(db), FlushMeta(db, opts));
    OneBelowTwo(Flush(db, opts).vs.current, db.nextNumber + 1, db.nextNumber + 2);
  }

  lemma OneBelowTwo(v: Version, a: nat, b: nat)
    requires v.Valid() && NumbersBelow(v, a) && a <= b
    ensures NumbersBelow(v, b)
  {
  }

  lemma FlushNoRepeats(db: Db, tr: Trace, opts: Options)
    requires Live(db, tr) && CanFlushNow(db, opts)
    ensures Flush(db, opts).vs.Valid() && NoRepeats(Flush(db, opts).vs.current)
  {
    FlushFields(db, opts);
    FlushedNoRepeats(StoreOf(db), FlushMeta(db, opts)) by {
      hide StoreOk, ViewsOk, ContentsOk, HistoryOk, Flush, Flushed;
    }
    hide StoreOk, ViewsOk, ContentsOk, HistoryOk, CountersOk, NoRepeats;
  }

  lemma FlushContents(db: Db, tr: Trace, opts: Options)
    requires Live(db, tr) && CanFlushNow(db, opts)
    ensures Flush(db, opts).vs.Valid() && ContentsOk(Flush(db, opts), tr.(flushed := |tr.hist|))
  {
    FlushFields(db, opts);
    FlushCounters(db, tr, opts);
    FlushedEntries(StoreOf(db), FlushMeta(db, opts));
    StoredIsHistory(db, tr);
    hide *;
    assert Live(db, tr);
    FlushedContents(Flush(db, opts), tr, Stored(StoreOf(db)));
  }

  lemma FlushedContents(db': Db, tr: Trace, stored: set<Entry>)
    requires db'.vs.Valid() && db'.mem == []
    requires EntriesOf(db'.disk.tables, AllFiles(db'.vs.current)) == stored
    requires forall e :: e in stored ==> e in tr.hist && e.Seqno() <= |tr.hist|
    ensures ContentsOk(db', tr.(flushed := |tr.hist|))
  {
  }

  /** A flush keeps the in-memory invariant, with everything now flushed. */
  lemma FlushKeepsLive(db: Db, tr: Trace, opts: Options)
    requires Live(db, tr) && CanFlushNow(db, opts)
    ensures Live(Flush(db, opts), tr.(flushed := |tr.hist|))
    ensures Stored(StoreOf(Flush(db, opts))) == Stored(StoreOf(db))
  {
    FlushFields(db, opts);
    FlushCounters(db, tr, opts);
    FlushContents(db, tr, opts);
    FlushNoRepeats(db, tr, opts);
    FlushedStoreOk(StoreOf(db), FlushMeta(db, opts), tr.layered);
    assert HistoryOk(tr.hist) && ViewsOk(db, tr.hist) && db.memSeq == db.vs.lastSequence;
    SameViews(db, Flush(db, opts), tr.hist);
    hide StoreOk, ViewsOk, CountersOk, ContentsOk, HistoryOk, Stored, Flush, Flushed, CanFlush;
  }

  /** Views depend only on the stored entries, the snapshots and the last sequence. */
  lemma SameViews(db: Db, db': Db, hist: seq<Entry>)
    requires db.vs.Valid() && db'.vs.Valid() && ViewsOk(db, hist)
    requires Stored(StoreOf(db')) == Stored(StoreOf(db))
    requires db'.snapshots == db.snapshots && db'.vs.lastSequence == db.vs.lastSequence
    ensures ViewsOk(db', hist)
  {
    hide Stored, View;
    forall k, s | Readable(db', s) ensures View(Stored(StoreOf(db')), k, s) == View(SetOf(hist), k, s) {
      assert Readable(db, s);
    }
  }

  lemma MemFits(db: Db, tr: Trace)
    requires Live(db, tr) && db.mem != []
    ensures FitsEntry(db.mem[0]) && FitsEntry(db.mem[|db.mem| - 1]) && db.memSeq <= MAX_SEQUENCE
  {
    MemIsSuffix(db, tr);
    NoRepeatedSuffix(tr.hist, tr.flushed);
    HistoryIsDistinct(tr.hist);
    assert db.mem[0] in db.mem && db.mem[|db.mem| - 1] in db.mem;
    hide StoreOk, ViewsOk, ContentsOk, HistoryOk, FitsEntry, NumbersBelow;
  }

  lemma FlushEditFits(db: Db, tr: Trace, opts: Options)
    requires Live(db, tr) && CanFlushNow(db, opts)
    ensures Fits(FlushEdit(db, opts))
  {
    MemFits(db, tr);
    hide Live;
  }

  lemma ReplayNext(edits: seq<VersionEdit>, st: VersionState, e: VersionEdit, next: VersionState)
    requires Replay(InitialState, edits) == Ok(st) && st.Valid() && Advance(st, e) == Ok(next)
    ensures Replay(InitialState, edits + [e]) == Ok(next)
  {
    ReplayAppend(InitialState, edits, e);
  }

  lemma FitsAppend(edits: seq<VersionEdit>, e: VersionEdit)
    requires AllFit(edits) && Fits(e)
    ensures AllFit(edits + [e])
  {
    hide Fits;
  }

  lemma ManifestGrows(edits: seq<VersionEdit>, e: VersionEdit)
    requires AllFit(edits) && Fits(e)
    ensures WithRecord(ManifestOf(edits), Manifest.Encode(e)) == ManifestOf(edits + [e])
  {
    RecoverAfterTornEdit(edits, e, |ManifestOf(edits)|) by {
      ManifestLonger(edits, e);
    }
  }

  lemma ManifestLonger(edits: seq<VersionEdit>, e: VersionEdit)
    ensures |ManifestOf(edits)| <= |ManifestOf(edits + [e])|
  {
    assert EncodeEdits(edits + [e]) == EncodeEdits(edits) + [Manifest.Encode(e)] by { hide Manifest.Encode; }
    AddRecordsAppend([], EncodeEdits(edits), [Manifest.Encode(e)]);
    hide WithRecord, Manifest.Encode;
  }

  lemma FlushKeepsClean(db: Db, tr: Trace, opts: Options)
    requires Live(db, tr) && ManifestOk(db, tr) && EmptyFrom(db.disk.logs, db.nextNumber) && CanFlushNow(db, opts)
    ensures Clean(Flush(db, opts), tr.(edits := tr.edits + [FlushEdit(db, opts)], flushed := |tr.hist|))
  {
    hide StoreOk, NoRepeats, ViewsOk, ContentsOk, HistoryOk, Flush, FlushEdit, ManifestOf, Replay, WithRecord, Manifest.Encode, LogOf, Advance, AllFit, Fits,
         NumbersBelow;
    FlushFields(db, opts);
    FlushEditFits(db, tr, opts);
    FitsAppend(tr.edits, FlushEdit(db, opts));
    ManifestGrows(tr.edits, FlushEdit(db, opts));
    FlushAdvances(db.vs.(lastSequence := tr.flushed), db, opts);
    ReplayNext(tr.edits, db.vs.(lastSequence := tr.flushed), FlushEdit(db, opts), Flush(db, opts).vs);
    assert tr.hist[|tr.hist|..] == [];
    NothingLogged();
  }

  lemma NothingLogged()
    ensures LogOf([]) == []
  {
  }

  /** Flushing logs one edit and keeps the invariant. */
  lemma FlushIsOk(db: Db, tr: Trace, opts: Options)
    requires Inv(db, tr) && CanFlushNow(db, opts)
    ensures Inv(Flush(db, opts), tr.(edits := tr.edits + [FlushEdit(db, opts)], flushed := |tr.hist|))
    ensures Stored(StoreOf(Flush(db, opts))) == Stored(StoreOf(db))
  {
    FlushKeepsLive(db, tr, opts);
    FlushKeepsClean(db, tr, opts);
    LiveIgnoresEdits(Flush(db, opts), tr.(flushed := |tr.hist|), tr.(edits := tr.edits + [FlushEdit(db, opts)], flushed := |tr.hist|));
    hide Live, Clean, Flush, FlushEdit, Stored;
  }

  lemma LiveIgnoresEdits(db: Db, a: Trace, b: Trace)
    requires Live(db, a) && a.hist == b.hist && a.flushed == b.flushed && a.layered == b.layered
    ensures Live(db, b)
  {
    hide StoreOk, ViewsOk, HistoryOk;
  }
}
