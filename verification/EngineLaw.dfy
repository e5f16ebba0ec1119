/**
 * What the operations do, said of the database before and after: when a write flushes, which entries a
 * compaction writes and where the next one starts, and what recovery removes.
 */
module EngineLaws {
  import opened ByteStrings
  import opened InternalKeys
  import opened VersionedEntries
  import opened WalEntries
  import opened Wal
  import opened Manifest
  import opened Versions
  import opened Compactions
  import opened CompactionOutputs
  import opened Sorting
  import opened MemTables
  import opened Stores
  import opened Engine
  import opened Invariants
  import opened CompactionSteps
  import opened Recovery
  import opened Scans

  // ----- when a write flushes -----------------------------------------------------------------

  /** The user keys and values of these writes, in bytes. */
  function WrittenBytes(es: seq<Entry>): nat {
    if es == [] then 0
    else
      var e := es[|es| - 1];
      WrittenBytes(es[..|es| - 1]) + |e.ik.userKey| + |e.value|
  }

  lemma {:induction false} BytesAreWritten(es: seq<Entry>)
    ensures ApproxBytes(InsertAll([], es)) == WrittenBytes(es)
  {
    if es != [] {
      var front, e := es[..|es| - 1], es[|es| - 1];
      assert es == front + [e];
      BytesAreWritten(front);
      InsertAllAppend([], front, e);
      InsertAddsBytes(InsertAll([], front), e);
    }
  }

  /** The writes since the last flush, this one included. */
  ghost function Unflushed(db: Db, tr: Trace, key: Bytes, value: Bytes, vtype: ValueType): (written: seq<Entry>)
    requires tr.flushed <= |tr.hist|
    ensures written != []
  {
    tr.hist[tr.flushed..] + [Entry(InternalKey(key, db.memSeq + 1, vtype), value)]
  }

  lemma NewerIsDistinct(hist: seq<Entry>, n: nat, e: Entry)
    requires HistoryOk(hist) && n <= |hist| && e.Seqno() == |hist| + 1
    ensures NoRepeatedVersion(hist[n..] + [e])
  {
  }

  lemma MemOfUnflushed(db: Db, tr: Trace, key: Bytes, value: Bytes, vtype: ValueType)
    requires Live(db, tr) && db.walNumber in db.disk.logs
    ensures tr.flushed <= |tr.hist| && db.mem == InsertAll([], tr.hist[tr.flushed..])
    ensures NoRepeatedVersion(Unflushed(db, tr, key, value, vtype))
    ensures var logged := Logged(db, NextEntry(db, key, value, vtype));
            && logged.mem == InsertAll([], Unflushed(db, tr, key, value, vtype))
            && logged.vs == db.vs.(lastSequence := db.memSeq + 1) && logged.disk.tables == db.disk.tables
            && logged.disk.logs.Keys == db.disk.logs.Keys && logged.nextNumber == db.nextNumber && logged.walNumber == db.walNumber
            && forall n :: n in db.disk.logs && n != db.walNumber ==> logged.disk.logs[n] == db.disk.logs[n]
  {
    assert tr.flushed <= |tr.hist| && db.mem == InsertAll([], tr.hist[tr.flushed..]);
    assert HistoryOk(tr.hist) && db.memSeq == |tr.hist|;
    hide Live, InsertAll, Insert, WithRecord, EncodeEntry, NoRepeatedVersion, HistoryOk;
    NewerIsDistinct(tr.hist, tr.flushed, NextEntry(db, key, value, vtype));
    InsertAllAppend([], tr.hist[tr.flushed..], NextEntry(db, key, value, vtype));
  }

  /** The file's entry in the manifest has the size of the table and its first and last key. */
  ghost predicate Describes(f: FileMeta, es: seq<Entry>, opts: Options) {
    && f.size == opts.fileSize(es)
    && (exists e :: e in es && e.ik == f.smallest) && (exists e :: e in es && e.ik == f.largest)
    && (forall e :: e in es ==> !KeyBefore(e.ik, f.smallest) && !KeyBefore(f.largest, e.ik))
  }

  lemma MetaDescribes(number: nat, es: seq<Entry>, opts: Options)
    requires es != [] && Ascending(es)
    ensures Describes(MetaOf(number, es, opts), es, opts)
  {
    OrderFacts();
    forall i | 0 <= i < |es| ensures !KeyBefore(es[i].ik, es[0].ik) && !KeyBefore(es[|es| - 1].ik, es[i].ik) {
      assert i > 0 ==> VersionBefore(es[0], es[i]);
      assert i < |es| - 1 ==> VersionBefore(es[i], es[|es| - 1]);
    }
  }

  /**
   * Level 0 has one more file, under the next number; its table holds these writes in storage order. The number
   * after it is that of the log that takes the next writes; a log of that number that was left behind is kept.
   */
  ghost predicate FlushedInto(db: Db, db': Db, written: seq<Entry>, opts: Options)
    requires db.vs.Valid() && db'.vs.Valid()
  {
    && db.nextNumber in db'.disk.tables
    && var table := db'.disk.tables[db.nextNumber];
    && multiset(table) == multiset(written) && Ascending(table) && db'.disk.tables == db.disk.tables[db.nextNumber := table]
    && (exists f :: HasNewFile(db.vs.current, db'.vs.current, f) && f.number == db.nextNumber && Describes(f, table, opts))
    && db'.walNumber == db.nextNumber + 1 && db'.vs.logNumber == db.nextNumber + 1 && db'.nextNumber == db.nextNumber + 2
    && db'.disk.logs.Keys == db.disk.logs.Keys + {db.nextNumber + 1}
    && (forall n :: n in db.disk.logs && n != db.walNumber ==> db'.disk.logs[n] == db.disk.logs[n])
    && (db.nextNumber + 1 !in db.disk.logs ==> db'.disk.logs[db.nextNumber + 1] == [])
  }

  predicate HasNewFile(v: Version, v': Version, f: FileMeta)
    requires v.Valid()
  {
    v'.files == v.files[0 := v.files[0] + [f]]
  }

  lemma LogIsOpened(logs: map<nat, Bytes>, number: nat)
    ensures OpenLog(logs, number).Keys == logs.Keys + {number}
    ensures forall n :: n in logs ==> OpenLog(logs, number)[n] == logs[n]
    ensures number !in logs ==> OpenLog(logs, number)[number] == []
  {
  }

  lemma FlushesInto(db: Db, logged: Db, written: seq<Entry>, opts: Options)
    requires db.vs.Valid() && logged.vs == db.vs.(lastSequence := db.memSeq + 1) && logged.nextNumber == db.nextNumber
    requires logged.disk.tables == db.disk.tables && logged.disk.logs.Keys == db.disk.logs.Keys
    requires forall n :: n in db.disk.logs && n != db.walNumber ==> logged.disk.logs[n] == db.disk.logs[n]
    requires logged.mem != [] && multiset(logged.mem) == multiset(written) && Ascending(logged.mem)
    ensures Flush(logged, opts).mem == [] && Flush(logged, opts).vs.Valid() && FlushedInto(db, Flush(logged, opts), written, opts)
  {
    hide Flush, WithRecord, Manifest.Encode, FlushEdit, Describes, Ascending;
    FlushFields(logged, opts);
    LogIsOpened(logged.disk.logs, db.nextNumber + 1);
    MetaDescribes(db.nextNumber, logged.mem, opts);
    assert HasNewFile(db.vs.current, Flush(logged, opts).vs.current, FlushMeta(logged, opts));
  }

  lemma FullIff(db: Db, written: seq<Entry>, opts: Options)
    requires db.mem == InsertAll([], written)
    ensures multiset(db.mem) == multiset(written) && (written != [] ==> db.mem != [])
    ensures Full(db, opts) <==> |written| >= opts.flushEntries || (opts.maxBytes > 0 && WrittenBytes(written) >= opts.maxBytes)
  {
    BytesAreWritten(written);
    InsertAllPermutes([], written);
    assert multiset([]) + multiset(written) == multiset(written);
    assert |db.mem| == |written|;
    hide InsertAll, ApproxBytes, WrittenBytes;
  }

  /** The memtable holds these writes; no table, version or log changes. */
  ghost predicate HeldInMemory(db: Db, db': Db, written: seq<Entry>) {
    && multiset(db'.mem) == multiset(written) && db'.disk.tables == db.disk.tables && db'.vs.current == db.vs.current
    && db'.nextNumber == db.nextNumber && db'.walNumber == db.walNumber && db'.disk.logs.Keys == db.disk.logs.Keys
  }

  lemma WriteUnfolds(db: Db, key: Bytes, value: Bytes, vtype: ValueType, opts: Options)
    requires db.vs.Valid() && db.walNumber in db.disk.logs
    ensures var logged := Logged(db, NextEntry(db, key, value, vtype));
            Write(db, key, value, vtype, opts) == if Full(logged, opts) then Flush(logged, opts) else logged
  {
    hide Full, Flush;
  }

  lemma LoggedIsHeld(db: Db, logged: Db, written: seq<Entry>)
    requires logged.vs == db.vs.(lastSequence := db.memSeq + 1) && logged.disk.tables == db.disk.tables && logged.walNumber == db.walNumber
    requires logged.disk.logs.Keys == db.disk.logs.Keys && logged.nextNumber == db.nextNumber && multiset(logged.mem) == multiset(written)
    ensures HeldInMemory(db, logged, written)
  {
  }

  /**
   * A write leaves its entry in the memtable as long as the writes since the last flush stay below both
   * limits, their number and, if one is set, their bytes; otherwise all of them go into one new table.
   */
  lemma WriteFlushesIff(db: Db, tr: Trace, key: Bytes, value: Bytes, vtype: ValueType, opts: Options)
    requires Live(db, tr) && db.vs.Valid() && db.walNumber in db.disk.logs
    ensures tr.flushed <= |tr.hist|
    ensures var written, db' := Unflushed(db, tr, key, value, vtype), Write(db, key, value, vtype, opts);
            if |written| < opts.flushEntries && (opts.maxBytes == 0 || WrittenBytes(written) < opts.maxBytes) then HeldInMemory(db, db', written)
            else db'.mem == [] && db'.vs.Valid() && FlushedInto(db, db', written, opts)
  {
    hide *;
    MemOfUnflushed(db, tr, key, value, vtype);
    var written, logged := Unflushed(db, tr, key, value, vtype), Logged(db, NextEntry(db, key, value, vtype));
    WriteUnfolds(db, key, value, vtype, opts);
    FullIff(logged, written, opts);
    if Full(logged, opts) {
      NothingAscends();
      InsertAllKeepsOrder([], written);
      FlushesInto(db, logged, written, opts);
    } else {
      LoggedIsHeld(db, logged, written);
    }
  }

  lemma NothingAscends()
    ensures Ascending([]) && forall e: Entry :: NewVersion([], e)
  {
  }

  // ----- what a compaction writes -------------------------------------------------------------

  /** Some file two or more levels below has the key in its range. */
  ghost predicate LiesBelow(v: Version, level: nat, k: Bytes)
    requires v.Valid()
  {
    exists l: nat, f :: level + 2 <= l < NUM_LEVELS && f in v.files[l] && !Before(k, f.smallest.userKey) && !Before(f.largest.userKey, k)
  }

  lemma BaseLevelIff(v: Version, level: nat, k: Bytes)
    requires v.Valid()
    ensures IsBaseLevel(v, level, k) <==> !LiesBelow(v, level, k)
  {
    forall l: nat | level + 2 <= l < NUM_LEVELS
      ensures Overlapping(v.files[l], k, k) == [] <==> forall f :: f in v.files[l] ==> Before(k, f.smallest.userKey) || Before(f.largest.userKey, k)
    {
      EmptyOrInhabited(Overlapping(v.files[l], k, k));
    }
  }

  /** An old entry is one that every live reader sees. */
  lemma OldestSnapshotIff(snapshots: seq<nat>, n: nat)
    requires n <= MAX_SEQUENCE
    ensures n <= OldestSnapshot(snapshots) <==> forall s :: s in snapshots ==> n <= s
  {
  }

  /**
   * A compaction writes an entry of its inputs exactly if none of them is a newer version that every reader
   * sees, and, for a deletion that every reader sees, some file below the output level covers its key.
   */
  lemma WrittenIff(db: Db, c: Compaction, opts: Options, e: Entry)
    requires Steady(db) && Picks(db, c) && db.vs.Valid()
    ensures var oldest, inputs := OldestSnapshot(db.snapshots), InputEntries(StoreOf(db), c);
            (exists o :: o in CompactionOuts(db, c, opts) && e in o.entries)
            <==> && e in inputs
                 && (forall x :: x in inputs && x.Key() == e.Key() && x.Seqno() > e.Seqno() ==> x.Seqno() > oldest)
                 && (e.ik.vtype.Delete? && e.Seqno() <= oldest ==> LiesBelow(db.vs.current, c.level, e.Key()))
  {
    assert BaseLevelOf(db.vs.current, c.level)(e.Key()) == IsBaseLevel(db.vs.current, c.level, e.Key());
    var outs, oldest, inputs := CompactionOuts(db, c, opts), OldestSnapshot(db.snapshots), InputEntries(StoreOf(db), c);
    SurvivesMeans(inputs, e, oldest, BaseLevelOf(db.vs.current, c.level));
    BaseLevelIff(db.vs.current, c.level, e.Key());
    IsWritten(outs, e);
    assert StoreOf(db).version == db.vs.current;
    hide Steady, Picks, CompactionOuts, InputEntries, IsBaseLevel, BaseLevelOf, LiesBelow, OldestSnapshot, OutputEntries, Survives;
    WritesSurvivors(db, c, opts);
  }

  lemma IsWritten(outs: seq<OutputFile>, e: Entry)
    ensures e in OutputEntries(outs) <==> exists o :: o in outs && e in o.entries
  {
  }

  lemma SurvivesMeans(inputs: set<Entry>, e: Entry, oldest: nat, base: Bytes -> bool)
    ensures Survives(inputs, e, oldest, base)
       <==> && e in inputs
            && (forall x :: x in inputs && x.Key() == e.Key() && x.Seqno() > e.Seqno() ==> x.Seqno() > oldest)
            && (e.ik.vtype.Delete? && e.Seqno() <= oldest ==> !base(e.Key()))
  {
  }

  lemma {:induction false} FlattenParts(lists: seq<seq<Entry>>, i: nat)
    requires SortedLists(lists) && i < |lists|
    ensures lists[i] != [] && Ascending(lists[i])
  {
    forall x, y | 0 <= x < y < |lists[i]| ensures VersionBefore(lists[i][x], lists[i][y]) {
      OutputOrder(lists, i, x, i, y);
    }
  }

  lemma OutputIs(lists: seq<seq<Entry>>, first: nat, opts: Options, i: nat)
    requires SortedLists(lists) && i < |lists|
    ensures var o := OutputFiles(lists, first, opts)[i]; o.meta.number == first + i && Ascending(o.entries) && Describes(o.meta, o.entries, opts)
  {
    FlattenParts(lists, i);
    MetaDescribes(first + i, lists[i], opts);
    hide SortedLists, Ascending, Describes;
  }

  lemma {:induction false} WithTablesOnly(tables: map<nat, seq<Entry>>, outs: seq<OutputFile>, first: nat, n: nat)
    requires Numbered(outs, first) && n >= first + |outs|
    ensures n in WithTables(tables, outs) <==> n in tables
    ensures n in tables ==> WithTables(tables, outs)[n] == tables[n]
    decreases |outs|
  {
    if outs != [] {
      WithTablesOnly(tables[outs[0].meta.number := outs[0].entries], outs[1..], first + 1, n);
    }
  }

  /**
   * The tables a compaction leaves: those there were, the inputs included, and under the next numbers the files
   * it wrote, each in storage order and described by its entry in the manifest.
   */
  lemma CompactWritesTables(db: Db, c: Compaction, opts: Options, n: nat)
    requires Steady(db) && Picks(db, c) && db.vs.Valid()
    ensures var outs, db' := CompactionOuts(db, c, opts), Compact(db, opts);
            && db'.nextNumber == db.nextNumber + |outs| && db'.disk.logs == db.disk.logs && db'.mem == db.mem && db'.snapshots == db.snapshots
            && if db.nextNumber <= n < db'.nextNumber then
                 var o := outs[n - db.nextNumber];
                 && n in db'.disk.tables && db'.disk.tables[n] == o.entries
                 && o.meta.number == n && Ascending(o.entries) && Describes(o.meta, o.entries, opts)
               else
                 (n in db'.disk.tables <==> n in db.disk.tables) && (n in db.disk.tables ==> db'.disk.tables[n] == db.disk.tables[n])
  {
    hide *;
    CompactSetsTables(db, c, opts);
    var outs, lists := CompactionOuts(db, c, opts), ListsOf(db, c, opts);
    OutsAre(db, c, opts);
    ListsAreSorted(db, c, opts);
    CompactionIsStep(db, c, opts);
    if n < db.nextNumber {
      WithTablesKeeps(db.disk.tables, outs, db.nextNumber, n);
    } else if n < db.nextNumber + |outs| {
      WithTablesHas(db.disk.tables, outs, db.nextNumber, n - db.nextNumber);
      OutputIs(lists, db.nextNumber, opts, n - db.nextNumber);
    } else {
      WithTablesOnly(db.disk.tables, outs, db.nextNumber, n);
    }
  }

  lemma CompactSetsTables(db: Db, c: Compaction, opts: Options)
    requires db.vs.Valid() && Picks(db, c)
    ensures Chosen(db.vs.current, c) && StoreOf(db).version.Valid()
    ensures var outs, db' := CompactionOuts(db, c, opts), Compact(db, opts);
            && db'.nextNumber == db.nextNumber + |outs| && db'.disk.logs == db.disk.logs && db'.mem == db.mem && db'.snapshots == db.snapshots
            && db'.disk.tables == WithTables(db.disk.tables, outs)
  {
    hide Picks, CompactionOuts, Compact, Chosen, CompactedVersion, ApplyDeletes, DeletedInputs, WithTables, WithRecord, Manifest.Encode,
         AddedOutputs, CompactedStore, CompactionEdit, CompactedState;
    CompactFields(db, c, opts);
  }

  // ----- where the next compaction starts -----------------------------------------------------

  lemma {:induction false} FlattenEnds(lists: seq<seq<Entry>>)
    requires NonEmpty(lists) && lists != []
    ensures var all, last := Flatten(lists), lists[|lists| - 1];
            all != [] && last != [] && all[|all| - 1] == last[|last| - 1]
  {
    hide Flatten;
    FlattenPush(lists[..|lists| - 1], lists[|lists| - 1]);
    assert lists[..|lists| - 1] + [lists[|lists| - 1]] == lists;
  }

  /** `k` is the greatest user key written. */
  ghost predicate GreatestWritten(outs: seq<OutputFile>, k: Bytes) {
    && (exists e :: e in OutputEntries(outs) && e.Key() == k)
    && (forall e :: e in OutputEntries(outs) ==> !Before(k, e.Key()))
  }

  lemma LastIsGreatest(es: seq<Entry>)
    requires Ascending(es) && es != []
    ensures forall e :: e in es ==> !Before(es[|es| - 1].Key(), e.Key())
  {
    OrderFacts();
    forall i | 0 <= i < |es| ensures !Before(es[|es| - 1].Key(), es[i].Key()) {
      assert i < |es| - 1 ==> VersionBefore(es[i], es[|es| - 1]);
    }
  }

  lemma SurvivorsAscend(db: Db, c: Compaction)
    requires Steady(db) && db.vs.Valid() && Chosen(db.vs.current, c)
    ensures Ascending(SurvivorsOf(StoreOf(db), c, OldestSnapshot(db.snapshots)))
  {
    hide Steady, Sound, NoRepeats, Chosen, Ascending, Merged, Survivors, InputEntries;
    SteadyParts(db);
    MergedIsSorted(StoreOf(db), c);
    SurvivorsAreSurviving(Merged(StoreOf(db), c), OldestSnapshot(db.snapshots), BaseLevelOf(db.vs.current, c.level));
  }

  lemma LastListIsGreatest(lists: seq<seq<Entry>>, es: seq<Entry>, outs: seq<OutputFile>, next: nat, opts: Options)
    requires NonEmpty(lists) && outs == OutputFiles(lists, next, opts) && Flatten(lists) == es && Ascending(es)
    requires OutputEntries(outs) == SetOf(es) && outs != []
    ensures GreatestWritten(outs, Hi(outs[|outs| - 1].meta))
  {
    FlattenEnds(lists);
    hide Flatten, OutputEntries, Ascending;
    LastIsGreatest(es);
    assert es[|es| - 1] in SetOf(es);
  }

  lemma LastOutputIsGreatest(db: Db, c: Compaction, opts: Options)
    requires Steady(db) && db.vs.Valid() && Chosen(db.vs.current, c) && CompactionOuts(db, c, opts) != []
    ensures var outs := CompactionOuts(db, c, opts); GreatestWritten(outs, Hi(outs[|outs| - 1].meta))
  {
    assert StoreOf(db).version.Valid();
    hide *;
    OutsAre(db, c, opts);
    ListsAreSorted(db, c, opts);
    SurvivorsAscend(db, c);
    CompactionIsStep(db, c, opts);
    LastListIsGreatest(ListsOf(db, c, opts), SurvivorsOf(StoreOf(db), c, OldestSnapshot(db.snapshots)), CompactionOuts(db, c, opts), db.nextNumber, opts);
  }

  /** If anything was written, the pointer of this level is the greatest user key written; nothing else moves. */
  ghost predicate MovesPointer(before: seq<Bytes>, after: seq<Bytes>, level: nat, outs: seq<OutputFile>) {
    && |after| == |before| && level < |before|
    && (forall l :: 0 <= l < |before| && l != level ==> after[l] == before[l])
    && (if outs == [] then after == before else GreatestWritten(outs, after[level]))
  }

  /** A compaction that wrote anything leaves its level's pointer at the greatest user key written. */
  lemma CompactMovesPointer(db: Db, c: Compaction, opts: Options)
    requires Steady(db) && Picks(db, c) && db.vs.Valid()
    ensures MovesPointer(db.vs.compactPointers, Compact(db, opts).vs.compactPointers, c.level, CompactionOuts(db, c, opts))
  {
    hide *;
    CompactSetsPointers(db, c, opts);
    var outs := CompactionOuts(db, c, opts);
    if outs != [] {
      LastOutputIsGreatest(db, c, opts);
    }
    PointerMoved(db.vs.compactPointers, c, outs, db.nextNumber + |outs|);
  }

  lemma PointerMoved(pointers: seq<Bytes>, c: Compaction, outs: seq<OutputFile>, next: nat)
    requires c.level < |pointers| && (outs != [] ==> GreatestWritten(outs, Hi(outs[|outs| - 1].meta)))
    ensures MovesPointer(pointers, SetPointers(pointers, CompactionEdit(c, outs, next).compactPointers), c.level, outs)
  {
    PointersAfter(pointers, c, outs, next);
    hide GreatestWritten, CompactionEdit, SetPointers;
  }

  lemma CompactSetsPointers(db: Db, c: Compaction, opts: Options)
    requires db.vs.Valid() && Picks(db, c)
    ensures c.level < |db.vs.compactPointers| && Chosen(db.vs.current, c)
    ensures var outs := CompactionOuts(db, c, opts);
            Compact(db, opts).vs.compactPointers == SetPointers(db.vs.compactPointers, CompactionEdit(c, outs, db.nextNumber + |outs|).compactPointers)
  {
    hide Picks, CompactionOuts, Compact, Chosen, CompactedVersion, ApplyDeletes, DeletedInputs, WithTables, WithRecord, Manifest.Encode,
         AddedOutputs, CompactedStore, CompactionEdit, SetPointers;
    CompactFields(db, c, opts);
  }

  lemma PointersAfter(pointers: seq<Bytes>, c: Compaction, outs: seq<OutputFile>, next: nat)
    requires c.level < |pointers|
    ensures SetPointers(pointers, CompactionEdit(c, outs, next).compactPointers)
         == if outs == [] then pointers else pointers[c.level := Hi(outs[|outs| - 1].meta)]
  {
    hide AddedOutputs, DeletedInputs;
    if outs != [] {
      var p := Pointer(c.level, Hi(outs[|outs| - 1].meta));
      assert [p][1..] == [];
    }
  }

  /** The file reaches past the pointer; an empty pointer is before everything. */
  predicate Past(f: FileMeta, pointer: Bytes) {
    pointer == [] || Before(pointer, f.largest.userKey)
  }

  lemma {:induction false} FirstPastIs(files: seq<FileMeta>, pointer: Bytes)
    ensures match FirstPast(files, pointer)
            case None => forall i :: 0 <= i < |files| ==> !Past(files[i], pointer)
            case Some(f) => exists i :: 0 <= i < |files| && files[i] == f && Past(f, pointer) && forall j :: 0 <= j < i ==> !Past(files[j], pointer)
  {
    if files != [] && !Past(files[0], pointer) {
      FirstPastIs(files[1..], pointer);
      var r := FirstPast(files[1..], pointer);
      if r.Some? {
        var i :| 0 <= i < |files[1..]| && files[1..][i] == r.value && Past(r.value, pointer) && forall j :: 0 <= j < i ==> !Past(files[1..][j], pointer);
        assert files[i + 1] == r.value;
        forall j | 0 <= j < i + 1 ensures !Past(files[j], pointer) {
          assert j > 0 ==> files[1..][j - 1] == files[j];
        }
      } else {
        forall i | 0 <= i < |files| ensures !Past(files[i], pointer) {
          assert i > 0 ==> files[1..][i - 1] == files[i];
        }
      }
    }
  }

  /** Level `l` is the first with the greatest positive score. */
  ghost predicate MostLoaded(v: Version, l: nat)
    requires v.Valid()
  {
    && l < NUM_LEVELS && Score(v, l) > 0.0
    && (forall m :: 0 <= m < NUM_LEVELS ==> Score(v, m) <= Score(v, l))
    && (forall m :: 0 <= m < l ==> Score(v, m) < Score(v, l))
  }

  lemma {:induction false} BestFromIs(v: Version, level: nat, best: Option<nat>)
    requires v.Valid() && level <= NUM_LEVELS && (best.Some? ==> best.value < level) && IsBestBelow(v, level, best)
    ensures IsBestBelow(v, NUM_LEVELS, BestFrom(v, level, best))
    decreases NUM_LEVELS - level
  {
    hide Score, IsBestBelow, BestFrom;
    if level < NUM_LEVELS {
      BestStep(v, level, best);
      var better := Score(v, level) > 0.0 && (best.None? || Score(v, level) > Score(v, best.value));
      BestFromIs(v, level + 1, if better then Some(level) else best);
    } else {
      BestEnds(v, best);
    }
  }

  lemma BestLevelIs(v: Version)
    requires v.Valid()
    ensures match BestLevel(v)
            case None => forall l :: 0 <= l < NUM_LEVELS ==> Score(v, l) == 0.0
            case Some(l) => MostLoaded(v, l)
  {
    NothingBelow(v);
    BestFromIs(v, 0, None);
    hide Score, BestFrom;
  }

  /**
   * What is compacted next: of the most loaded level all files if it is level 0, and else the first that
   * reaches past the level's pointer. Nothing, if no level is loaded, the last one is the most loaded, or
   * no file of the most loaded one reaches past its pointer.
   */
  lemma PickedIs(v: Version, pointers: seq<Bytes>)
    requires v.Valid() && |pointers| == NUM_LEVELS
    ensures match PickCompaction(v, pointers)
            case None =>
              || (forall l :: 0 <= l < NUM_LEVELS ==> Score(v, l) == 0.0)
              || MostLoaded(v, NUM_LEVELS - 1)
              || (exists l :: 1 <= l < NUM_LEVELS - 1 && MostLoaded(v, l) && forall f :: f in v.files[l] ==> !Past(f, pointers[l]))
            case Some(c) =>
              && c.level < NUM_LEVELS - 1 && MostLoaded(v, c.level)
              && (if c.level == 0 then c.inputs0 == v.files[0]
                  else exists i :: 0 <= i < |v.files[c.level]| && c.inputs0 == [v.files[c.level][i]] && Past(v.files[c.level][i], pointers[c.level])
                                   && forall j :: 0 <= j < i ==> !Past(v.files[c.level][j], pointers[c.level]))
  {
    BestLevelIs(v);
    LoadedZero(v);
    var best := BestLevel(v);
    if best.Some? {
      FirstPastIs(v.files[best.value], pointers[best.value]);
    }
    hide BestLevel, Score, FirstPast, MinLo, MaxHi, GetOverlaps, MostLoaded;
  }

  lemma LoadedZero(v: Version)
    requires v.Valid()
    ensures MostLoaded(v, 0) ==> v.files[0] != []
  {
  }

  /** Four files load level 0 fully; 10 MiB load level 1, and ten times as much each level below. */
  lemma ScoreIs(v: Version, l: nat)
    requires v.Valid() && l < NUM_LEVELS
    ensures l == 0 ==> Score(v, l) * 4.0 == |v.files[0]| as real
    ensures l == 1 ==> Score(v, l) * 10485760.0 == TotalSize(v.files[l]) as real
    ensures l >= 1 ==> MaxBytesForLevel(l + 1) == 10 * MaxBytesForLevel(l)
    ensures l >= 1 ==> Score(v, l) * MaxBytesForLevel(l) as real == TotalSize(v.files[l]) as real
  {
    hide TotalSize;
  }

  /** The file's range meets the span of these files. */
  ghost predicate MeetsSpan(f: FileMeta, files: seq<FileMeta>) {
    && (exists a :: a in files && !Before(f.largest.userKey, a.smallest.userKey))
    && (exists b :: b in files && !Before(b.largest.userKey, f.smallest.userKey))
  }

  lemma OverlapsIsMeeting(f: FileMeta, files: seq<FileMeta>)
    requires files != []
    ensures Overlaps(f, MinLo(files), MaxHi(files)) <==> MeetsSpan(f, files)
  {
    OrderFacts();
  }

  /**
   * The other inputs are the files of the next level that meet the span of the chosen ones, and the
   * grandparents those of the level after it that meet the span of all inputs.
   */
  lemma InputsMeetSpans(v: Version, c: Compaction, f: FileMeta)
    requires v.Valid() && Chosen(v, c)
    ensures f in c.inputs1 <==> f in v.files[c.level + 1] && MeetsSpan(f, c.inputs0)
    ensures f in c.grandparents <==> c.level + 2 < NUM_LEVELS && f in v.files[c.level + 2] && MeetsSpan(f, c.inputs0 + c.inputs1)
  {
    hide MinLo, MaxHi, MeetsSpan, Overlaps, Overlapping;
    OverlapMeets(v.files[c.level + 1], c.inputs0, f);
    if c.level + 2 < NUM_LEVELS {
      OverlapMeets(v.files[c.level + 2], c.inputs0 + c.inputs1, f);
    }
  }

  lemma OverlapMeets(files: seq<FileMeta>, inputs: seq<FileMeta>, f: FileMeta)
    requires inputs != []
    ensures f in Overlapping(files, MinLo(inputs), MaxHi(inputs)) <==> f in files && MeetsSpan(f, inputs)
  {
    OverlapsIsMeeting(f, inputs);
    hide MinLo, MaxHi, MeetsSpan;
  }

  // ----- what recovery removes ----------------------------------------------------------------

  /** Some file of the version carries the number. */
  ghost predicate Carried(v: Version, n: nat)
    requires v.Valid()
  {
    exists l: nat, f :: l < NUM_LEVELS && f in v.files[l] && f.number == n
  }

  lemma LiveIffCarried(v: Version, n: nat)
    requires v.Valid()
    ensures IsLive(v, n) <==> Carried(v, n)
  {
    if l :| 0 <= l < NUM_LEVELS && exists i :: 0 <= i < |v.files[l]| && v.files[l][i].number == n {
      var i :| 0 <= i < |v.files[l]| && v.files[l][i].number == n;
      assert v.files[l][i] in v.files[l];
    }
    if l: nat, f :| l < NUM_LEVELS && f in v.files[l] && f.number == n {
      var i :| 0 <= i < |v.files[l]| && v.files[l][i] == f;
    }
  }

  lemma SwitchedHasLog(db: Db, opts: Options)
    requires db.vs.Valid()
    ensures var db1 := Switched(db, opts);
            && db1.walNumber == db1.vs.logNumber && db1.vs.logNumber in db1.disk.logs
            && (forall n :: n in db.disk.tables ==> n in db1.disk.tables)
            && (forall n :: n in db1.disk.tables ==> n in db.disk.tables || (db.mem != [] && n == db.nextNumber))
            && db1.mem == [] && db1.snapshots == db.snapshots
            && db1.disk.logs[db1.vs.logNumber] == (if db1.vs.logNumber in db.disk.logs then db.disk.logs[db1.vs.logNumber] else [])
            && db1.vs.logNumber == db.nextNumber + (if db.mem != [] then 1 else 0) && db1.nextNumber == db1.vs.logNumber + 1
  {
    hide WithRecord, Manifest.Encode, Flush, FlushEdit, FreshLogEdit, FreshLogCommitted;
    if db.mem != [] {
      FlushFields(db, opts);
    } else {
      FreshFields(db);
    }
  }

  /**
   * Opening leaves one log, the live one, and of the tables, with the one it may have flushed, exactly those
   * that some file of the recovered version carries.
   */
  lemma RecoveryKeepsOnlyCarried(disk: Disk, opts: Options, n: nat)
    requires Recover(disk, opts).Ok?
    ensures Replayed(disk).Ok? && Recover(disk, opts).value.vs.Valid()
    ensures var db0, db := Replayed(disk).value, Recover(disk, opts).value;
            && db.mem == [] && db.disk.logs.Keys == {db.vs.logNumber} && db.walNumber == db.vs.logNumber
            && db.disk.logs[db.vs.logNumber] == (if db.vs.logNumber in disk.logs then disk.logs[db.vs.logNumber] else [])
            && db.vs.logNumber == db0.nextNumber + (if db0.mem != [] then 1 else 0) && db.nextNumber == db.vs.logNumber + 1
            && (n in db.disk.tables ==> Carried(db.vs.current, n))
            && (Carried(db.vs.current, n) && n in disk.tables ==> n in db.disk.tables)
            && (n in db.disk.tables ==> n in disk.tables || (db0.mem != [] && n == db0.nextNumber))
  {
    var db0 := Replayed(disk).value;
    hide Replayed, Switched, IsLive, Carried;
    SwitchedHasLog(db0, opts);
    LiveIffCarried(Switched(db0, opts).vs.current, n);
    assert Recover(disk, opts).value == RemoveObsolete(Switched(db0, opts));
  }

  /** Every record of a log must decode: one that does not makes the whole replay fail, and nothing is left out. */
  lemma {:induction false} DecodeWalIff(records: seq<Bytes>)
    ensures DecodeWal(records).Ok? <==> forall i :: 0 <= i < |records| ==> DecodeEntry(records[i]).Ok?
    ensures DecodeWal(records).Ok? ==>
              && |DecodeWal(records).value| == |records|
              && forall i :: 0 <= i < |records| ==> DecodeEntry(records[i]) == Ok(ToWal(DecodeWal(records).value[i]))
  {
    hide DecodeEntry;
    if records != [] {
      DecodeWalIff(records[1..]);
      assert forall i :: 1 <= i < |records| ==> records[i] == records[1..][i - 1];
      assert DecodeWal(records).Ok? ==> DecodeEntry(records[0]).Ok?;
    }
  }

  /** The manifest of a new database is one edit: the comparator's name, log 2, next file 3, and no writes yet. */
  lemma NewManifestIs()
    ensures var records := ReadRecords(CreateNew().disk.manifest);
            && |records| == 1 && Manifest.Decode(records[0]).Ok?
            && var e := Manifest.Decode(records[0]).value;
            && e.comparator.Some? && |e.comparator.value| == 24
            && (forall i :: 0 <= i < 24 ==> e.comparator.value[i] == "mulan.BytewiseComparator"[i] as int)
            && e.logNumber == Some(2) && e.nextFileNumber == Some(3) && e.lastSequence == Some(0) && e.prevLogNumber == None
            && e.deletedFiles == [] && e.newFiles == [] && e.compactPointers == []
  {
    CreateNewFields();
    CreateNewAdvances();
    EditRoundTrip(InitialEdit);
    NameIsSpelled();
    hide CreateNew, Manifest.Encode, Manifest.Decode, ReadRecords, WithRecords, Fits;
    ReadsBackEverything(EncodeEdits([InitialEdit]));
  }

  lemma NameIsSpelled()
    ensures |COMPARATOR| == 24 && forall i :: 0 <= i < 24 ==> COMPARATOR[i] == "mulan.BytewiseComparator"[i] as int
  {
  }
}
