/** The database engine: its durable and volatile state, and the operations that change them. */
module Engine {
  import opened ByteStrings
  import opened InternalKeys
  import opened VersionedEntries
  import opened WalEntries
  import opened Wal
  import opened Manifest
  import opened Versions
  import opened Compactions
  import opened CompactionOutputs
  import opened Sorting
  import opened MemTables
  import opened Stores

  /** Thresholds, and the byte sizes of tables as functions of their entries. */
  datatype Options = Options(
    flushEntries: nat,
    maxBytes: nat,
    estimate: seq<Entry> -> nat,
    fileSize: seq<Entry> -> nat)

  /** What survives a crash: the manifest and log bytes, and the contents of synced tables. */
  datatype Disk = Disk(manifest: Bytes, logs: map<nat, Bytes>, tables: map<nat, seq<Entry>>)

  /** The fields of the running database. */
  datatype Db = Db(
    vs: VersionState,
    snapshots: seq<nat>,
    mem: seq<Entry>,
    memSeq: nat,
    nextNumber: nat,
    walNumber: nat,
    disk: Disk)

  function StoreOf(db: Db): Store {
    Store(db.vs.current, db.mem, db.disk.tables)
  }

  // ----- log records --------------------------------------------------------------------------

  function ToWal(e: Entry): WalEntry {
    WalEntry(e.ik.vtype, e.ik.seqno, e.ik.userKey, e.value)
  }

  function FromWal(w: WalEntry): Entry {
    Entry(InternalKey(w.key, w.seqno, w.vtype), w.value)
  }

  function EncodeWal(es: seq<Entry>): (r: seq<Bytes>)
    ensures |r| == |es|
  {
    seq(|es|, i requires 0 <= i < |es| => EncodeEntry(ToWal(es[i])))
  }

  function LogOf(es: seq<Entry>): Bytes {
    WithRecords([], EncodeWal(es))
  }

  function DecodeWal(records: seq<Bytes>): Result<seq<Entry>> {
    if records == [] then Ok([])
    else
      var w :- DecodeEntry(records[0]);
      var rest :- DecodeWal(records[1..]);
      Ok([FromWal(w)] + rest)
  }

  /** `WalWriter::create`: an existing file is kept and appended to. */
  function OpenLog(logs: map<nat, Bytes>, n: nat): map<nat, Bytes> {
    if n in logs then logs else logs[n := []]
  }

  // ----- committing an edit -------------------------------------------------------------------

  /** `write_new_version`: log the edit, then advance the state. */
  function Commit(db: Db, e: VersionEdit): Db
    requires db.vs.Valid()
  {
    db.(vs := match Advance(db.vs, e) case Ok(next) => next case Corrupted => db.vs,
        disk := db.disk.(manifest := WithRecord(db.disk.manifest, Manifest.Encode(e))))
  }

  function MetaOf(number: nat, es: seq<Entry>, opts: Options): FileMeta
    requires es != []
  {
    FileMeta(number, opts.fileSize(es), es[0].ik, es[|es| - 1].ik)
  }

  // ----- opening a new database ---------------------------------------------------------------

  /** "mulan.BytewiseComparator" */
  const COMPARATOR: Bytes :=
    [109, 117, 108, 97, 110, 46, 66, 121, 116, 101, 119, 105, 115, 101, 67, 111, 109, 112, 97, 114, 97, 116, 111, 114]

  const InitialEdit: VersionEdit :=
    EmptyEdit.(comparator := Some(COMPARATOR), logNumber := Some(2), nextFileNumber := Some(3), lastSequence := Some(0))

  /** `create_new`: manifest 1, log 2. */
  function CreateNew(): Db {
    var db := Db(InitialState, [], [], 0, 3, 2, Disk([], map[], map[]));
    var created := Commit(db, InitialEdit);
    created.(disk := created.disk.(logs := OpenLog(created.disk.logs, 2)))
  }

  // ----- writing ------------------------------------------------------------------------------

  predicate Full(db: Db, opts: Options) {
    || |db.mem| >= opts.flushEntries
    || (opts.maxBytes > 0 && ApproxBytes(db.mem) >= opts.maxBytes)
  }

  function NextEntry(db: Db, key: Bytes, value: Bytes, vtype: ValueType): Entry {
    Entry(InternalKey(key, db.memSeq + 1, vtype), value)
  }

  /** The log first, then the memtable, then `last_sequence`. */
  function Logged(db: Db, e: Entry): Db
    requires db.walNumber in db.disk.logs
  {
    db.(disk := db.disk.(logs := db.disk.logs[db.walNumber := WithRecord(db.disk.logs[db.walNumber], EncodeEntry(ToWal(e)))]),
        mem := Insert(db.mem, e),
        memSeq := e.Seqno(),
        vs := db.vs.(lastSequence := e.Seqno()))
  }

  function FlushEdit(db: Db, opts: Options): VersionEdit
    requires db.mem != []
  {
    EmptyEdit.(newFiles := [NewFile(0, MetaOf(db.nextNumber, db.mem, opts))],
               logNumber := Some(db.nextNumber + 1),
               nextFileNumber := Some(db.nextNumber + 2),
               lastSequence := Some(db.memSeq))
  }

  /** The disk once the table and the next log exist, before the manifest is touched. */
  function FlushPrepared(db: Db): Disk {
    db.disk.(tables := db.disk.tables[db.nextNumber := db.mem],
             logs := OpenLog(db.disk.logs, db.nextNumber + 1))
  }

  /** `flush_memtable`: write the table, create the next log, commit, switch logs. */
  function Flush(db: Db, opts: Options): Db
    requires db.vs.Valid()
  {
    if db.mem == [] then db
    else
      var committed := Commit(db.(disk := FlushPrepared(db)), FlushEdit(db, opts));
      committed.(mem := [], nextNumber := db.nextNumber + 2, walNumber := db.nextNumber + 1)
  }

  /** `write`, for a put or a delete. */
  function Write(db: Db, key: Bytes, value: Bytes, vtype: ValueType, opts: Options): Db
    requires db.vs.Valid() && db.walNumber in db.disk.logs
  {
    var logged := Logged(db, NextEntry(db, key, value, vtype));
    if Full(logged, opts) then Flush(logged, opts) else logged
  }

  // ----- compaction ---------------------------------------------------------------------------

  function AllContents(tables: map<nat, seq<Entry>>, files: seq<FileMeta>): seq<Entry> {
    if files == [] then [] else Contents(tables, files[0]) + AllContents(tables, files[1..])
  }

  /** The merge of the inputs. */
  function Merged(st: Store, c: Compaction): seq<Entry> {
    InsertAll([], AllContents(st.tables, Inputs(c)))
  }

  /** What the drop rule leaves of the merge. */
  function SurvivorsOf(st: Store, c: Compaction, oldest: nat): seq<Entry>
    requires st.version.Valid()
  {
    Survivors(Merged(st, c), None, oldest, BaseLevelOf(st.version, c.level))
  }

  function OutputLists(st: Store, c: Compaction, oldest: nat, opts: Options): seq<seq<Entry>>
    requires st.version.Valid()
  {
    Outputs(SurvivorsOf(st, c, oldest), c.grandparents, opts.estimate)
  }

  function OutputFiles(lists: seq<seq<Entry>>, first: nat, opts: Options): (r: seq<OutputFile>)
    requires NonEmpty(lists)
    ensures |r| == |lists|
  {
    seq(|lists|, i requires 0 <= i < |lists| => OutputFile(MetaOf(first + i, lists[i], opts), lists[i]))
  }

  function WithTables(tables: map<nat, seq<Entry>>, outs: seq<OutputFile>): map<nat, seq<Entry>>
    decreases |outs|
  {
    if outs == [] then tables else WithTables(tables[outs[0].meta.number := outs[0].entries], outs[1..])
  }

  function DeletedInputs(c: Compaction): seq<DeletedFile> {
    seq(|c.inputs0|, i requires 0 <= i < |c.inputs0| => DeletedFile(c.level, c.inputs0[i].number))
    + seq(|c.inputs1|, i requires 0 <= i < |c.inputs1| => DeletedFile(c.level + 1, c.inputs1[i].number))
  }

  function AddedOutputs(c: Compaction, outs: seq<OutputFile>): seq<NewFile> {
    seq(|outs|, i requires 0 <= i < |outs| => NewFile(c.level + 1, outs[i].meta))
  }

  function CompactionEdit(c: Compaction, outs: seq<OutputFile>, next: nat): VersionEdit {
    EmptyEdit.(newFiles := AddedOutputs(c, outs),
               deletedFiles := DeletedInputs(c),
               compactPointers := if outs == [] then [] else [Pointer(c.level, Hi(outs[|outs| - 1].meta))],
               nextFileNumber := Some(next))
  }

  function CompactionOuts(db: Db, c: Compaction, opts: Options): seq<OutputFile>
    requires db.vs.Valid()
  {
    var lists := OutputLists(StoreOf(db), c, OldestSnapshot(db.snapshots), opts);
    OutputsArePartition(SurvivorsOf(StoreOf(db), c, OldestSnapshot(db.snapshots)), c.grandparents, opts.estimate);
    OutputFiles(lists, db.nextNumber, opts)
  }

  /** `run_one_compaction`: pick, merge, write the outputs, commit. */
  function Compact(db: Db, opts: Options): Db
    requires db.vs.Valid()
  {
    match PickCompaction(db.vs.current, db.vs.compactPointers)
    case None => db
    case Some(c) =>
      var outs := CompactionOuts(db, c, opts);
      var written := db.(disk := db.disk.(tables := WithTables(db.disk.tables, outs)));
      Commit(written, CompactionEdit(c, outs, db.nextNumber + |outs|)).(nextNumber := db.nextNumber + |outs|)
  }

  // ----- snapshots ----------------------------------------------------------------------------

  function Acquire(db: Db): Db {
    db.(snapshots := db.snapshots + [db.vs.lastSequence])
  }

  function Release(db: Db, s: nat): Db {
    db.(snapshots := Released(db.snapshots, s))
  }

  // ----- recovery -----------------------------------------------------------------------------

  function MaxSeqno(es: seq<Entry>, least: nat): (m: nat)
    ensures m >= least && forall e :: e in es ==> e.Seqno() <= m
    ensures m == least || exists e :: e in es && e.Seqno() == m
    decreases |es|
  {
    if es == [] then least
    else
      assert es == [es[0]] + es[1..];
      MaxSeqno(es[1..], if es[0].Seqno() > least then es[0].Seqno() else least)
  }

  /** The entries of the live log; a missing file means none. */
  function LiveLog(disk: Disk, logNumber: nat): Result<seq<Entry>> {
    if logNumber in disk.logs then DecodeWal(ReadRecords(disk.logs[logNumber])) else Ok([])
  }

  /** The database after replaying the manifest and the live log, before anything is written. */
  function Replayed(disk: Disk): (r: Result<Db>)
    ensures r.Ok? ==> r.value.vs.Valid() && r.value.disk == disk
  {
    var vs :- RecoverState(disk.manifest);
    var entries :- LiveLog(disk, vs.logNumber);
    var last := MaxSeqno(entries, vs.lastSequence);
    Ok(Db(vs.(lastSequence := last), [], InsertAll([], entries), last, vs.nextFileNumber, vs.logNumber, disk))
  }

  /** With nothing to flush, recovery still moves on to a fresh log. */
  function FreshLogEdit(db: Db): VersionEdit {
    EmptyEdit.(logNumber := Some(db.nextNumber), nextFileNumber := Some(db.nextNumber + 1))
  }

  /** The edit is committed before the log exists. */
  function FreshLogCommitted(db: Db): Db
    requires db.vs.Valid()
  {
    Commit(db, FreshLogEdit(db)).(nextNumber := db.nextNumber + 1, walNumber := db.nextNumber)
  }

  function LogOpened(db: Db): Db {
    db.(disk := db.disk.(logs := OpenLog(db.disk.logs, db.walNumber)))
  }

  predicate IsLive(v: Version, n: nat)
    requires v.Valid()
  {
    exists l :: 0 <= l < NUM_LEVELS && exists i :: 0 <= i < |v.files[l]| && v.files[l][i].number == n
  }

  /** `remove_obsolete_files`: only the live log and the tables of the version stay. */
  function RemoveObsolete(db: Db): Db
    requires db.vs.Valid()
  {
    db.(disk := db.disk.(logs := map n | n in db.disk.logs && n == db.vs.logNumber :: db.disk.logs[n],
                         tables := map n | n in db.disk.tables && IsLive(db.vs.current, n) :: db.disk.tables[n]))
  }

  /** What recovery writes once the state is replayed: the memtable as a table, or just a fresh log. */
  function Switched(db: Db, opts: Options): (r: Db)
    requires db.vs.Valid()
    ensures r.vs.Valid()
  {
    if db.mem != [] then Flush(db, opts) else LogOpened(FreshLogCommitted(db))
  }

  /** `recover_open`. */
  function Recover(disk: Disk, opts: Options): Result<Db> {
    var db :- Replayed(disk);
    Ok(RemoveObsolete(Switched(db, opts)))
  }
}
