/** The running database as an object: its operations step by step, each proved against the engine's description. */
module Databases {
  import opened ByteStrings
  import opened InternalKeys
  import opened VersionedEntries
  import opened WalEntries
  import opened Wal
  import opened Manifest
  import opened Versions
  import opened Compactions
  import opened CompactionOutputs
  import opened Sorting
  import opened Iterators
  import opened SkipLists
  import opened MemTables
  import opened Stores
  import opened Engine
  import Invariants
  import Recovery
  import opened Lookups
  import opened Scans
  import opened CompactionSteps
  import opened CompactionRuns

  class DbInner {
    const versionSet: VersionSet
    var memtable: MemTable
    var wal: WalWriter
    var walNumber: nat
    /** The next number the id generator hands out. */
    var nextNumber: nat
    /** The other files of the directory: logs as last written, tables as entries. */
    var logs: map<nat, Bytes>
    var tables: map<nat, seq<Entry>>
    const opts: Options

    ghost predicate Valid()
      reads this, versionSet, versionSet.manifest, memtable, memtable.list, wal
    {
      versionSet.Valid() && memtable.Valid() && wal.Valid() && wal != versionSet.manifest
    }

    /** The state the engine describes. */
    ghost function State(): Db
      requires Valid()
      reads this, versionSet, versionSet.manifest, memtable, memtable.list, wal
    {
      Db(versionSet.state, versionSet.snapshots, memtable.Contents(), memtable.sequence, nextNumber, walNumber,
         Disk(versionSet.manifest.file, logs[walNumber := wal.file], tables))
    }

    constructor (opts: Options, versionSet: VersionSet, memtable: MemTable, wal: WalWriter, walNumber: nat, nextNumber: nat,
                 logs: map<nat, Bytes>, tables: map<nat, seq<Entry>>)
      requires versionSet.Valid() && memtable.Valid() && wal.Valid() && wal != versionSet.manifest
      ensures Valid() && this.opts == opts
      ensures this.versionSet == versionSet && this.memtable == memtable && this.wal == wal
      ensures State() == Db(versionSet.state, versionSet.snapshots, memtable.Contents(), memtable.sequence, nextNumber, walNumber,
                            Disk(versionSet.manifest.file, logs[walNumber := wal.file], tables))
    {
      this.opts, this.versionSet, this.memtable, this.wal := opts, versionSet, memtable, wal;
      this.walNumber, this.nextNumber, this.logs, this.tables := walNumber, nextNumber, logs, tables;
    }

    // ----- writing ----------------------------------------------------------------------------

    /** `put`: an empty key is refused. */
    method Put(key: Bytes, value: Bytes) returns (r: Result<()>)
      requires Valid()
      modifies this, versionSet, versionSet.manifest, memtable, memtable.list, wal
      ensures Valid()
      ensures r.Ok? <==> key != []
      ensures State() == if key == [] then old(State()) else Engine.Write(old(State()), key, value, ValueType.Put, opts)
    {
      if key == [] {
        return Corrupted;
      }
      Write(key, value, ValueType.Put);
      return Ok(());
    }

    /** `delete`: a deletion mark with an empty value. */
    method Delete(key: Bytes) returns (r: Result<()>)
      requires Valid()
      modifies this, versionSet, versionSet.manifest, memtable, memtable.list, wal
      ensures Valid()
      ensures r.Ok? <==> key != []
      ensures State() == if key == [] then old(State()) else Engine.Write(old(State()), key, [], ValueType.Delete, opts)
    {
      if key == [] {
        return Corrupted;
      }
      Write(key, [], ValueType.Delete);
      return Ok(());
    }

    /** `write`: the log, then the memtable, then the last sequence, then a flush if the memtable is full. */
    method Write(key: Bytes, value: Bytes, vtype: ValueType)
      requires Valid()
      modifies this, versionSet, versionSet.manifest, memtable, memtable.list, wal
      ensures Valid()
      ensures State() == Engine.Write(old(State()), key, value, vtype, opts)
    {
      var seqno := memtable.sequence + 1;
      LogAndApply(key, value, vtype, seqno);
      var entriesFull := memtable.numEntries >= opts.flushEntries;
      var bytesFull := opts.maxBytes > 0 && memtable.approxBytes >= opts.maxBytes;
      if entriesFull || bytesFull {
        FlushMemtable();
      }
    }

    method LogAndApply(key: Bytes, value: Bytes, vtype: ValueType, seqno: nat)
      requires Valid() && seqno == memtable.sequence + 1
      modifies this, versionSet, memtable, memtable.list, wal
      ensures Valid() && memtable == old(memtable) && wal == old(wal)
      ensures State() == Logged(old(State()), NextEntry(old(State()), key, value, vtype))
    {
      hide InsertAll, EncodeEntry, WithRecord, WellFormed, ApproxBytes;
      wal.AddRecord(EncodeEntry(WalEntry(vtype, seqno, key, value)));
      var height: nat :| 1 <= height <= MAX_HEIGHT;
      memtable.Apply(vtype, seqno, key, value, height);
      versionSet.SetLastSequence(seqno);
    }

    /** The memtable becomes a table, the next log is opened, and the edit that announces both is made. */
    method WriteTable() returns (edit: VersionEdit, newWal: WalWriter)
      requires Valid() && memtable.Contents() != []
      modifies this`nextNumber, this`tables, this`logs
      ensures Valid() && fresh(newWal) && newWal.Valid()
      ensures edit == FlushEdit(old(State()), opts) && PointerLevelsInRange(edit) && FileLevelsInRange(edit)
      ensures nextNumber == old(nextNumber) + 2 && tables == old(tables)[old(nextNumber) := memtable.Contents()]
      ensures logs[old(nextNumber) + 1 := newWal.file] == OpenLog(old(State()).disk.logs, old(nextNumber) + 1)
    {
      hide MemTable.Valid, MemTable.Contents, OpenLog;
      var entries, smallest, largest := memtable.FlushEntries();
      var sst, newLog := nextNumber, nextNumber + 1;
      var meta := FileMeta(sst, opts.fileSize(entries), smallest.value, largest.value);
      edit := EmptyEdit.(newFiles := [NewFile(0, meta)], logNumber := Some(newLog), nextFileNumber := Some(newLog + 1),
                         lastSequence := Some(memtable.sequence));
      nextNumber := nextNumber + 2;
      tables := tables[sst := entries];
      logs := logs[walNumber := wal.file];
      OpenedLog(logs, newLog);
      newWal := new WalWriter(if newLog in logs then logs[newLog] else []);
    }

    /** `flush_memtable`. */
    method FlushMemtable()
      requires Valid()
      modifies this, versionSet, versionSet.manifest
      ensures Valid() && (memtable == old(memtable) || (fresh(memtable) && fresh(memtable.list)))
      ensures wal == old(wal) || fresh(wal)
      ensures State() == Engine.Flush(old(State()), opts)
    {
      hide InsertAll, WellFormed, EntriesIn, ApproxBytes, Engine.Flush, MemTable.Valid, MemTable.Contents, WalWriter.Valid, FlushEdit, AfterFlush, Advance,
           FileLevelsInRange, PointerLevelsInRange;
      memtable.CountIsLength();
      FlushUnfolds(State(), opts);
      if memtable.numEntries > 0 {
        SwitchMemtable();
      }
    }

    /** With anything in the memtable: its table, the next log, the edit, and only then the switch. */
    method SwitchMemtable()
      requires Valid() && memtable.Contents() != []
      modifies this, versionSet, versionSet.manifest
      ensures Valid() && fresh(memtable) && fresh(memtable.list) && fresh(wal)
      ensures Advance(old(State()).vs, FlushEdit(old(State()), opts)).Ok?
      ensures State() == AfterFlush(old(State()), Advance(old(State()).vs, FlushEdit(old(State()), opts)).value, opts)
    {
      hide InsertAll, WithRecord, WellFormed, Advance, EntriesIn, ApproxBytes, Manifest.Encode, MemTable.Valid, MemTable.Contents, WalWriter.Valid,
           FileLevelsInRange, PointerLevelsInRange, FlushEdit, OpenLog, AfterFlush;
      ghost var before := State();
      var newLog := nextNumber + 1;
      var edit, newWal := WriteTable();
      var r := versionSet.WriteNewVersion(edit);
      wal := newWal;
      walNumber := newLog;
      memtable := new MemTable(memtable.sequence);
      AfterFlushIs(before, versionSet.state, opts);
    }

    // ----- compaction -------------------------------------------------------------------------

    /** `run_one_compaction`: whether anything was compacted. */
    method RunOneCompaction() returns (ran: bool)
      requires Valid()
      requires Sound(StoreOf(State())) && NoRepeats(versionSet.state.current)
      modifies this, versionSet, versionSet.manifest
      ensures Valid() && memtable == old(memtable) && wal == old(wal)
      ensures ran <==> PickCompaction(old(State()).vs.current, old(State()).vs.compactPointers).Some?
      ensures State() == Engine.Compact(old(State()), opts)
    {
      hide InsertAll, WithRecord, WellFormed, Advance, EntriesIn, ApproxBytes, Manifest.Encode, PickCompaction, Sound, NoRepeats, OutputFiles, OutputLists,
           WithTables, CompactionEdit, Chosen, CompactionOuts, EditOf, Inputs, IsMerge, Placed, Iterators.InOrder;
      var picked := PickCompaction(versionSet.state.current, versionSet.state.compactPointers);
      CompactUnfoldsNone(State(), opts);
      if picked.None? {
        return false;
      }
      var c := picked.value;
      PickedIsChosen(versionSet.state.current, versionSet.state.compactPointers);
      MemDoesNotMatter(StoreOf(State()), c, OldestSnapshot(versionSet.snapshots), opts);
      CompactUnfolds(State(), c, opts);
      OutsOf(State(), c, opts);
      ghost var before := State();
      var start := nextNumber;
      var st := Store(versionSet.state.current, [], tables);
      InputsInOrder(st, c);
      ghost var merged;
      var newFiles, deleted, next;
      newFiles, deleted, next, merged := DoCompaction(st, c, OldestSnapshot(versionSet.snapshots), start, opts);
      MergeIsUnique(st, c, merged, OldestSnapshot(versionSet.snapshots), opts);
      assert newFiles == CompactionOuts(before, c, opts);
      tables := WithTables(tables, newFiles);
      var edit := CompactionEdit(c, newFiles, next);
      CompactionLevels(c, newFiles, next);
      var r := versionSet.WriteNewVersion(edit);
      nextNumber := next;
      return true;
    }

    // ----- snapshots and reads ----------------------------------------------------------------

    /** `new_snapshot`: the last sequence, registered. */
    method NewSnapshot() returns (s: nat)
      requires Valid()
      modifies versionSet
      ensures Valid() && s == old(State()).vs.lastSequence && State() == Engine.Acquire(old(State()))
    {
      s := versionSet.state.lastSequence;
      versionSet.AcquireSnapshot(s);
    }

    /** Dropping a snapshot guard. */
    method DropSnapshot(s: nat)
      requires Valid()
      modifies versionSet
      ensures Valid() && State() == Engine.Release(old(State()), s)
    {
      versionSet.ReleaseSnapshot(s);
    }

    /** `get`: a read of the latest state. */
    method Get(key: Bytes) returns (r: Option<Bytes>)
      requires Valid()
      ensures r == Read(Lookup(StoreOf(State()), key, State().vs.lastSequence))
    {
      r := GetAt(key, versionSet.state.lastSequence);
    }

    /** `get_at`: memtable first, a deletion found there ends the search. */
    method GetAt(key: Bytes, s: nat) returns (r: Option<Bytes>)
      requires Valid()
      ensures r == Read(Lookup(StoreOf(State()), key, s))
    {
      hide SearchSorted, SearchTables, WellFormed, InsertAll, ApproxBytes;
      var hit := memtable.GetEntry(key, s);
      match hit
      case Some((vtype, value)) =>
        return if vtype.Put? then Some(value) else None;
      case None =>
        r := GetFromTables(versionSet.state.current, tables, key, s);
    }

    /** `new_iterator_at`: the visible memtable entries are cloned, every table is opened. */
    method ScanAt(s: nat) returns (it: DbIter)
      requires Valid() && Sound(StoreOf(State())) && NoRepeats(versionSet.state.current)
      ensures it.Valid() && fresh(it) && fresh(it.inner)
      ensures it.Shows() == ScanAll(InsertAll([], Concat(Sources(StoreOf(State()), s))), s)
    {
      hide Sound, NoRepeats, WellFormed, InsertAll, ApproxBytes, Concat, ScanAll, DbIter.Valid, DbIter.Shows, Sources, VisibleUpTo;
      ghost var st := StoreOf(State());
      var visible := memtable.SnapshotEntries(s);
      VisibleIsEnough(st, s);
      it := NewIteratorAt(Store(versionSet.state.current, visible, tables), s);
    }
  }

  lemma {:induction false} VisibleTwice(es: seq<Entry>, s: nat)
    ensures VisibleUpTo(VisibleUpTo(es, s), s) == VisibleUpTo(es, s)
  {
    if es != [] {
      VisibleTwice(es[1..], s);
      var rest := VisibleUpTo(es[1..], s);
      assert ([es[0]] + rest)[1..] == rest && [] + rest == rest;
    }
  }

  /** For a scan at `s`, the visible part of the memtable stands for all of it. */
  lemma VisibleIsEnough(st: Store, s: nat)
    requires Sound(st)
    ensures var st' := st.(mem := VisibleUpTo(st.mem, s)); Sound(st') && Sources(st', s) == Sources(st, s)
  {
    VisibleTwice(st.mem, s);
    assert Ascending(st.mem);
    VisibleUpToAscends(st.mem, s);
    hide FilesOk, UniqueNumbers, NothingTwice, EntriesOf, AllFiles, Ascending;
  }

  // ----- opening ------------------------------------------------------------------------------

  /** `create_new`: manifest, initial edit, log. */
  method CreateNew(opts: Options) returns (db: DbInner)
    ensures db.Valid() && fresh(db) && db.State() == Engine.CreateNew()
  {
    hide WithRecord, Advance, WellFormed, EntriesIn, ApproxBytes, Manifest.Encode, InsertAll;
    var versionSet := new VersionSet.NewPending();
    assert FileLevelsInRange(InitialEdit);
    var r := versionSet.WriteNewVersion(InitialEdit);
    var wal := new WalWriter([]);
    var memtable := new MemTable(0);
    db := new DbInner(opts, versionSet, memtable, wal, 2, 3, map[], map[]);
  }

  lemma {:induction false} MaxSeqnoPush(es: seq<Entry>, e: Entry, least: nat)
    ensures MaxSeqno(es + [e], least) == if e.Seqno() > MaxSeqno(es, least) then e.Seqno() else MaxSeqno(es, least)
    decreases |es|
  {
    if es == [] {
      assert es + [e] == [e] && [e][1..] == [];
    } else {
      assert (es + [e])[1..] == es[1..] + [e];
      MaxSeqnoPush(es[1..], e, if es[0].Seqno() > least then es[0].Seqno() else least);
    }
  }

  /** Entries already replayed, followed by what the rest of the log holds. */
  ghost function Following(done: seq<Entry>, rest: Result<seq<Entry>>): Result<seq<Entry>> {
    match rest
    case Corrupted => Corrupted
    case Ok(es) => Ok(done + es)
  }

  lemma ReplayOne(done: seq<Entry>, records: seq<Bytes>)
    requires records != []
    ensures DecodeEntry(records[0]).Corrupted? ==> Following(done, DecodeWal(records)) == Corrupted
    ensures DecodeEntry(records[0]).Ok? ==>
              Following(done, DecodeWal(records)) == Following(done + [FromWal(DecodeEntry(records[0]).value)], DecodeWal(records[1..]))
  {
    hide DecodeEntry, FromWal;
    var rest := DecodeWal(records[1..]);
    if DecodeEntry(records[0]).Ok? && rest.Ok? {
      var e := FromWal(DecodeEntry(records[0]).value);
      assert done + ([e] + rest.value) == done + [e] + rest.value;
    }
  }

  lemma NothingReplayed(r: Result<seq<Entry>>)
    ensures Following([], r) == r
  {
    if r.Ok? {
      assert [] + r.value == r.value;
    }
  }

  lemma EverythingReplayed(done: seq<Entry>)
    ensures Following(done, DecodeWal([])) == Ok(done)
  {
    assert done + [] == done;
  }

  /** The replay loop of `recover_open`: every record is applied under its own sequence number. */
  method ReplayLog(records: seq<Bytes>, memtable: MemTable) returns (ok: bool)
    requires memtable.Valid()
    modifies memtable, memtable.list
    ensures memtable.Valid()
    ensures ok <==> DecodeWal(records).Ok?
    ensures ok ==> memtable.applied == old(memtable.applied) + DecodeWal(records).value
    ensures ok ==> memtable.sequence == MaxSeqno(DecodeWal(records).value, old(memtable.sequence))
  {
    hide MemTable.Valid, DecodeEntry, MaxSeqno, DecodeWal, Following;
    var i := 0;
    ghost var done: seq<Entry> := [];
    assert records[0..] == records;
    NothingReplayed(DecodeWal(records));
    MaxSeqnoOfNothing(memtable.sequence);
    while i < |records|
      invariant 0 <= i <= |records| && memtable.Valid()
      invariant memtable.applied == old(memtable.applied) + done
      invariant memtable.sequence == MaxSeqno(done, old(memtable.sequence))
      invariant DecodeWal(records) == Following(done, DecodeWal(records[i..]))
    {
      assert records[i..][1..] == records[i + 1..];
      ReplayOne(done, records[i..]);
      var w := DecodeEntry(records[i]);
      if w.Corrupted? {
        return false;
      }
      var height: nat :| 1 <= height <= MAX_HEIGHT;
      memtable.Apply(w.value.vtype, w.value.seqno, w.value.key, w.value.value, height);
      MaxSeqnoPush(done, FromWal(w.value), old(memtable.sequence));
      done := done + [FromWal(w.value)];
      i := i + 1;
    }
    assert records[i..] == [];
    EverythingReplayed(done);
    return true;
  }

  lemma MaxSeqnoOfNothing(n: nat)
    ensures MaxSeqno([], n) == n
  {
  }

  /** The state after a flush whose edit leads to `vs`. */
  ghost function AfterFlush(db: Db, vs: VersionState, opts: Options): Db
    requires db.mem != []
  {
    db.(vs := vs, mem := [], nextNumber := db.nextNumber + 2, walNumber := db.nextNumber + 1,
        disk := FlushPrepared(db).(manifest := WithRecord(db.disk.manifest, Manifest.Encode(FlushEdit(db, opts)))))
  }

  lemma OpenedLog(logs: map<nat, Bytes>, n: nat)
    ensures logs[n := if n in logs then logs[n] else []] == OpenLog(logs, n)
  {
  }

  lemma AfterFlushIs(db: Db, vs: VersionState, opts: Options)
    requires db.mem != []
    ensures AfterFlush(db, vs, opts)
         == Db(vs, db.snapshots, [], db.memSeq, db.nextNumber + 2, db.nextNumber + 1,
               Disk(WithRecord(db.disk.manifest, Manifest.Encode(FlushEdit(db, opts))), OpenLog(db.disk.logs, db.nextNumber + 1),
                    db.disk.tables[db.nextNumber := db.mem]))
  {
  }

  lemma FlushUnfolds(db: Db, opts: Options)
    requires db.vs.Valid()
    ensures db.mem == [] ==> Engine.Flush(db, opts) == db
    ensures db.mem != [] ==> FileLevelsInRange(FlushEdit(db, opts)) && PointerLevelsInRange(FlushEdit(db, opts))
    ensures db.mem != [] && Advance(db.vs, FlushEdit(db, opts)).Ok? ==>
              Engine.Flush(db, opts) == AfterFlush(db, Advance(db.vs, FlushEdit(db, opts)).value, opts)
  {
    hide Advance, WithRecord, Manifest.Encode;
  }

  lemma CompactUnfoldsNone(db: Db, opts: Options)
    requires db.vs.Valid()
    ensures PickCompaction(db.vs.current, db.vs.compactPointers).None? ==> Compact(db, opts) == db
  {
    hide PickCompaction;
  }

  lemma OutsOf(db: Db, c: Compaction, opts: Options)
    requires db.vs.Valid()
    ensures NonEmpty(OutputLists(StoreOf(db), c, OldestSnapshot(db.snapshots), opts))
    ensures CompactionOuts(db, c, opts) == OutputFiles(OutputLists(StoreOf(db), c, OldestSnapshot(db.snapshots), opts), db.nextNumber, opts)
  {
    hide SurvivorsOf, Outputs;
    OutputsArePartition(SurvivorsOf(StoreOf(db), c, OldestSnapshot(db.snapshots)), c.grandparents, opts.estimate);
  }

  /** A compaction looks at tables only. */
  lemma MemDoesNotMatter(st: Store, c: Compaction, oldest: nat, opts: Options)
    requires Sound(st)
    ensures Sound(st.(mem := []))
    ensures OutputLists(st.(mem := []), c, oldest, opts) == OutputLists(st, c, oldest, opts)
  {
    hide Survivors, Outputs, FilesOk, UniqueNumbers, NothingTwice, EntriesOf, AllFiles;
  }

  lemma CompactionLevels(c: Compaction, outs: seq<OutputFile>, next: nat)
    requires c.level + 1 < NUM_LEVELS
    ensures FileLevelsInRange(CompactionEdit(c, outs, next)) && PointerLevelsInRange(CompactionEdit(c, outs, next))
  {
  }

  /** The manifest, then the live log into a memtable; a missing log holds nothing. */
  method ReplayDisk(disk: Disk) returns (r: Result<(VersionSet, MemTable)>)
    ensures r.Ok? <==> Replayed(disk).Ok?
    ensures r.Ok? ==>
              && r.value.0.Valid() && r.value.1.Valid() && fresh(r.value.0) && fresh(r.value.0.manifest) && fresh(r.value.1) && fresh(r.value.1.list)
              && r.value.0.manifest.file == disk.manifest && r.value.0.snapshots == []
              && Replayed(disk).value == Parts(r.value.0.state, r.value.1.Contents(), r.value.1.sequence, disk)
  {
    hide InsertAll, WellFormed, EntriesIn, ApproxBytes, RecoverState, ReadRecords, DecodeWal, MaxSeqno;
    var versionSet :- VersionSet.Recover(disk.manifest);
    var last := versionSet.state.lastSequence;
    var memtable := new MemTable(last);
    MaxSeqnoOfNothing(last);
    var logNumber := versionSet.state.logNumber;
    if logNumber in disk.logs {
      var records := ReadAll(disk.logs[logNumber]);
      var ok := ReplayLog(records, memtable);
      if !ok {
        return Corrupted;
      }
      assert memtable.applied == DecodeWal(ReadRecords(disk.logs[logNumber])).value;
    }
    assert LiveLog(disk, logNumber) == Ok(memtable.applied);
    assert memtable.sequence == MaxSeqno(memtable.applied, last);
    if memtable.sequence > last {
      versionSet.SetLastSequence(memtable.sequence);
    }
    return Ok((versionSet, memtable));
  }

  /** The database described by a recovered version set and memtable. */
  ghost function Parts(vs: VersionState, mem: seq<Entry>, memSeq: nat, disk: Disk): Db {
    Db(vs, [], mem, memSeq, vs.nextFileNumber, vs.logNumber, disk)
  }

  /** Recovery's own writes: the memtable as a table with the next log, or only a fresh log behind its edit. */
  method Switch(versionSet: VersionSet, memtable: MemTable, disk: Disk, opts: Options)
    returns (mem: MemTable, walNumber: nat, nextNumber: nat, logs: map<nat, Bytes>, tables: map<nat, seq<Entry>>)
    requires versionSet.Valid() && memtable.Valid() && versionSet.manifest.file == disk.manifest
    modifies versionSet, versionSet.manifest
    ensures versionSet.Valid() && mem.Valid() && (mem == memtable || (fresh(mem) && fresh(mem.list)))
    ensures walNumber in logs && versionSet.state.logNumber == walNumber && versionSet.snapshots == old(versionSet.snapshots)
    ensures Db(versionSet.state, [], mem.Contents(), mem.sequence, nextNumber, walNumber, Disk(versionSet.manifest.file, logs, tables))
         == Switched(Parts(old(versionSet.state), old(memtable.Contents()), old(memtable.sequence), disk), opts)
  {
    hide WithRecord, Advance, MemTable.Valid, MemTable.Contents, Manifest.Encode, Engine.Flush, FlushEdit, FreshLogEdit, FreshLogCommitted;
    ghost var before := Parts(versionSet.state, memtable.Contents(), memtable.sequence, disk);
    memtable.CountIsLength();
    if memtable.numEntries > 0 {
      FlushUnfolds(before, opts);
      mem, walNumber, nextNumber, logs, tables := FlushRecovered(versionSet, memtable, disk, opts);
    } else {
      var next := versionSet.state.nextFileNumber;
      var edit := EmptyEdit.(logNumber := Some(next), nextFileNumber := Some(next + 1));
      assert edit == FreshLogEdit(before) by { FreshEditIs(before); }
      Recovery.FreshFields(before);
      Recovery.FreshAdvances(before.vs, before);
      var r := versionSet.WriteNewVersion(edit);
      mem, walNumber, nextNumber := memtable, next, next + 1;
      logs, tables := OpenLog(disk.logs, next), disk.tables;
    }
  }

  lemma FreshEditIs(db: Db)
    ensures FreshLogEdit(db) == EmptyEdit.(logNumber := Some(db.nextNumber), nextFileNumber := Some(db.nextNumber + 1))
  {
  }

  /** The recovered memtable becomes a table of level 0. */
  method FlushRecovered(versionSet: VersionSet, memtable: MemTable, disk: Disk, opts: Options)
    returns (mem: MemTable, walNumber: nat, nextNumber: nat, logs: map<nat, Bytes>, tables: map<nat, seq<Entry>>)
    requires versionSet.Valid() && memtable.Valid() && versionSet.manifest.file == disk.manifest && memtable.Contents() != []
    modifies versionSet, versionSet.manifest
    ensures versionSet.Valid() && mem.Valid() && fresh(mem) && fresh(mem.list)
    ensures walNumber in logs && versionSet.state.logNumber == walNumber && versionSet.snapshots == old(versionSet.snapshots)
    ensures Db(versionSet.state, [], mem.Contents(), mem.sequence, nextNumber, walNumber, Disk(versionSet.manifest.file, logs, tables))
         == Engine.Flush(Parts(old(versionSet.state), old(memtable.Contents()), old(memtable.sequence), disk), opts)
  {
    hide WithRecord, Advance, MemTable.Valid, MemTable.Contents, Manifest.Encode, Engine.Flush;
    ghost var before := Parts(versionSet.state, memtable.Contents(), memtable.sequence, disk);
    FlushUnfolds(before, opts);
    Invariants.FlushAdvances(before.vs, before, opts);
    var entries, smallest, largest := memtable.FlushEntries();
    var sst := versionSet.state.nextFileNumber;
    var meta := FileMeta(sst, opts.fileSize(entries), smallest.value, largest.value);
    var edit := EmptyEdit.(newFiles := [NewFile(0, meta)], logNumber := Some(sst + 1), nextFileNumber := Some(sst + 2),
                           lastSequence := Some(memtable.sequence));
    assert edit == FlushEdit(before, opts);
    var r := versionSet.WriteNewVersion(edit);
    walNumber, nextNumber := sst + 1, sst + 2;
    tables := disk.tables[sst := entries];
    logs := OpenLog(disk.logs, sst + 1);
    mem := new MemTable(memtable.sequence);
  }

  /** `remove_obsolete_files`: only the live log stays. */
  function LiveLogs(logs: map<nat, Bytes>, live: nat): map<nat, Bytes> {
    map n | n in logs && n == live :: logs[n]
  }

  function LiveTables(tables: map<nat, seq<Entry>>, v: Version): map<nat, seq<Entry>>
    requires v.Valid()
  {
    map n | n in tables && IsLive(v, n) :: tables[n]
  }

  /** `recover_open`: replay, flush or fresh log, reopening of the log, removal of obsolete files. */
  method RecoverOpen(disk: Disk, opts: Options) returns (r: Result<DbInner>)
    ensures r.Ok? <==> Recover(disk, opts).Ok?
    ensures r.Ok? ==> r.value.Valid() && fresh(r.value) && r.value.State() == Recover(disk, opts).value
  {
    hide MemTable.Valid, MemTable.Contents, Replayed, Switched, IsLive;
    var replayed := ReplayDisk(disk);
    if replayed.Corrupted? {
      return Corrupted;
    }
    var versionSet := replayed.value.0;
    var mem, walNumber, nextNumber, logs, tables := Switch(versionSet, replayed.value.1, disk, opts);
    var wal := new WalWriter(logs[walNumber]);
    var liveLogs, liveTables := LiveLogs(logs, versionSet.state.logNumber), LiveTables(tables, versionSet.state.current);
    var db := new DbInner(opts, versionSet, mem, wal, walNumber, nextNumber, liveLogs, liveTables);
    assert liveLogs[walNumber := wal.file] == liveLogs;
    return Ok(db);
  }
}
