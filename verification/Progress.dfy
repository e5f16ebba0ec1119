/** Repeated compaction without writes comes to an end. */
module Progress {
  import opened ByteStrings
  import opened InternalKeys
  import opened VersionedEntries
  import opened Manifest
  import opened Versions
  import opened Compactions
  import opened CompactionOutputs
  import opened Sorting
  import opened Stores
  import opened Engine
  import opened Invariants
  import opened CompactionSteps

  /** The entries stored at one level. */
  ghost function LevelEntries(st: Store, l: nat): set<Entry>
    requires st.version.Valid() && l < NUM_LEVELS
  {
    EntriesOf(st.tables, set f | f in st.version.files[l])
  }

  /** Every stored entry weighs the number of levels it can still sink. */
  ghost function WeightFrom(st: Store, l: nat): nat
    requires st.version.Valid() && l <= NUM_LEVELS
    decreases NUM_LEVELS - l
  {
    if l == NUM_LEVELS then 0 else (NUM_LEVELS - 1 - l) * |LevelEntries(st, l)| + WeightFrom(st, l + 1)
  }

  ghost function Weight(st: Store): nat
    requires st.version.Valid()
  {
    WeightFrom(st, 0)
  }

  // ----- counting sets ------------------------------------------------------------------------

  lemma UnionAtMost<T>(a: set<T>, b: set<T>)
    ensures |a + b| <= |a| + |b|
  {
  }

  lemma {:induction false} DisjointUnion<T>(a: set<T>, b: set<T>)
    requires a !! b
    ensures |a + b| == |a| + |b|
    decreases |b|
  {
  }

  lemma {:induction false} SubsetAtMost<T>(a: set<T>, b: set<T>)
    requires a <= b
    ensures |a| <= |b|
  {
    DisjointUnion(a, b - a);
    assert b == a + (b - a);
  }

  // ----- one compaction -----------------------------------------------------------------------

  ghost function Without(files: seq<FileMeta>, taken: seq<FileMeta>): set<FileMeta> {
    set f | f in files && f !in taken
  }

  ghost function EntriesOfList(tables: map<nat, seq<Entry>>, files: seq<FileMeta>): set<Entry> {
    EntriesOf(tables, set f | f in files)
  }

  /** Taking some files of a level away takes exactly their entries away. */
  lemma LevelSplits(st: Store, l: nat, taken: seq<FileMeta>, rest: set<Entry>)
    requires Sound(st) && l < NUM_LEVELS
    requires forall f :: f in taken ==> f in st.version.files[l]
    requires rest == EntriesOf(st.tables, Without(st.version.files[l], taken))
    ensures rest + EntriesOfList(st.tables, taken) == LevelEntries(st, l)
    ensures rest !! EntriesOfList(st.tables, taken)
  {
    SoundParts(st);
    hide Sound, NothingShared, Contents;
    forall e | e in rest && e in EntriesOfList(st.tables, taken) ensures false {
      var f :| f in st.version.files[l] && f !in taken && e in Contents(st.tables, f);
      var g :| g in taken && e in Contents(st.tables, g);
      assert f in AllFiles(st.version) && g in AllFiles(st.version);
      OneFileEach(st, f, g, e, e);
    }
  }

  /** The level the inputs leave. */
  lemma UpperLevelAfter(st: Store, c: Compaction, outs: seq<OutputFile>, st': Store)
    requires st.version.Valid() && c.level + 1 < NUM_LEVELS && CompactedTo(st, c, outs, st')
    ensures LevelEntries(st', c.level) == EntriesOf(st.tables, Without(st.version.files[c.level], c.inputs0))
  {
  }

  /** The level the outputs reach holds nothing but what was there and the outputs. */
  lemma LowerLevelAfter(st: Store, c: Compaction, outs: seq<OutputFile>, st': Store)
    requires st.version.Valid() && c.level + 1 < NUM_LEVELS && CompactedTo(st, c, outs, st')
    requires forall o :: o in outs ==> Contents(st'.tables, o.meta) == o.entries
    ensures LevelEntries(st', c.level + 1)
         <= EntriesOf(st.tables, Without(st.version.files[c.level + 1], c.inputs1)) + OutputEntries(outs)
  {
  }

  lemma OutputContents(tables: map<nat, seq<Entry>>, outs: seq<OutputFile>, next: nat)
    requires OutputsOk(tables, outs, next)
    ensures forall o :: o in outs ==> Contents(tables, o.meta) == o.entries
  {
    hide Ascending, NothingShared;
  }

  lemma InputEntriesSplit(st: Store, c: Compaction)
    ensures InputEntries(st, c) == EntriesOfList(st.tables, c.inputs0) + EntriesOfList(st.tables, c.inputs1)
  {
  }

  lemma InputsHoldSomething(st: Store, c: Compaction)
    requires Sound(st) && Chosen(st.version, c)
    ensures |EntriesOfList(st.tables, c.inputs0)| > 0
  {
    var f := c.inputs0[0];
    assert f in c.inputs0 && f in Inputs(c);
    hide *;
    FirstEntry(st, c, f);
  }

  lemma FirstEntry(st: Store, c: Compaction, f: FileMeta)
    requires Sound(st) && Chosen(st.version, c) && f in Inputs(c) && f in c.inputs0
    ensures |EntriesOfList(st.tables, c.inputs0)| > 0
  {
    hide Sound, Chosen;
    InputIsFile(st, c, f);
    InFile(st.tables, c.inputs0, f);
  }

  lemma InFile(tables: map<nat, seq<Entry>>, files: seq<FileMeta>, f: FileMeta)
    requires FileOk(tables, f) && f in files
    ensures |EntriesOfList(tables, files)| > 0
  {
    var e := Contents(tables, f)[0];
    assert e in Contents(tables, f);
    assert e in EntriesOfList(tables, files);
  }

  lemma InputsOfLevels(v: Version, c: Compaction)
    requires v.Valid() && Chosen(v, c)
    ensures c.level + 1 < NUM_LEVELS
    ensures forall f :: f in c.inputs0 ==> f in v.files[c.level]
    ensures forall f :: f in c.inputs1 ==> f in v.files[c.level + 1]
  {
  }

  lemma LevelsSink(st: Store, c: Compaction, outs: seq<OutputFile>, st': Store, next: nat)
    requires StepOk(st, c, outs, st', next)
    ensures c.level + 1 < NUM_LEVELS && st'.version.Valid() && st.version.Valid()
    ensures |LevelEntries(st', c.level)| < |LevelEntries(st, c.level)|
    ensures |LevelEntries(st', c.level + 1)| + |LevelEntries(st', c.level)| <= |LevelEntries(st, c.level + 1)| + |LevelEntries(st, c.level)|
    ensures forall l :: 0 <= l < NUM_LEVELS && l != c.level && l != c.level + 1 ==> LevelEntries(st', l) == LevelEntries(st, l)
  {
    hide StepOk, OutputsOk, Sound, Chosen, CompactedTo, LevelEntries, EntriesOf, EntriesOfList, InputEntries, OutputEntries, Contents, Without;
    StepShape(st, c, outs, st', next);
    OutputContents(st'.tables, outs, next);
    var v := st.version;
    InputsOfLevels(v, c);
    var rest0 := EntriesOf(st.tables, Without(v.files[c.level], c.inputs0));
    var rest1 := EntriesOf(st.tables, Without(v.files[c.level + 1], c.inputs1));
    var in0, in1 := EntriesOfList(st.tables, c.inputs0), EntriesOfList(st.tables, c.inputs1);
    LevelSplits(st, c.level, c.inputs0, rest0);
    LevelSplits(st, c.level + 1, c.inputs1, rest1);
    InputsHoldSomething(st, c);
    InputEntriesSplit(st, c);
    UpperLevelAfter(st, c, outs, st');
    LowerLevelAfter(st, c, outs, st');
    OtherLevelsEntries(st, c, outs, st');
    CountsSink(rest0, in0, rest1, in1, OutputEntries(outs), LevelEntries(st', c.level + 1));
  }

  lemma OtherLevelsEntries(st: Store, c: Compaction, outs: seq<OutputFile>, st': Store)
    requires st.version.Valid() && c.level + 1 < NUM_LEVELS && CompactedTo(st, c, outs, st')
    ensures st'.version.Valid()
    ensures forall l :: 0 <= l < NUM_LEVELS && l != c.level && l != c.level + 1 ==> LevelEntries(st', l) == LevelEntries(st, l)
  {
  }

  lemma CountsSink(rest0: set<Entry>, in0: set<Entry>, rest1: set<Entry>, in1: set<Entry>, outs: set<Entry>, lower: set<Entry>)
    requires rest0 !! in0 && rest1 !! in1 && outs <= in0 + in1 && lower <= rest1 + outs
    ensures |rest0 + in0| == |rest0| + |in0|
    ensures |lower| + |rest0| <= |rest1 + in1| + |rest0 + in0|
  {
    DisjointUnion(rest0, in0);
    DisjointUnion(rest1, in1);
    SubsetAtMost(outs, in0 + in1);
    UnionAtMost(in0, in1);
    SubsetAtMost(lower, rest1 + outs);
    UnionAtMost(rest1, outs);
  }

  lemma {:induction false} WeightFromSame(a: Store, b: Store, l: nat)
    requires a.version.Valid() && b.version.Valid() && l <= NUM_LEVELS
    requires forall m :: l <= m < NUM_LEVELS ==> LevelEntries(a, m) == LevelEntries(b, m)
    ensures WeightFrom(a, l) == WeightFrom(b, l)
    decreases NUM_LEVELS - l
  {
    hide LevelEntries;
    if l < NUM_LEVELS {
      WeightFromSame(a, b, l + 1);
    }
  }

  lemma {:induction false} WeightSinks(st: Store, st': Store, level: nat, l: nat)
    requires st.version.Valid() && st'.version.Valid() && level + 1 < NUM_LEVELS && l <= level
    requires |LevelEntries(st', level)| < |LevelEntries(st, level)|
    requires |LevelEntries(st', level + 1)| + |LevelEntries(st', level)| <= |LevelEntries(st, level + 1)| + |LevelEntries(st, level)|
    requires forall m :: 0 <= m < NUM_LEVELS && m != level && m != level + 1 ==> LevelEntries(st', m) == LevelEntries(st, m)
    ensures WeightFrom(st', l) < WeightFrom(st, l)
    decreases level - l
  {
    hide LevelEntries;
    if l < level {
      WeightSinks(st, st', level, l + 1);
    } else {
      WeightFromSame(st', st, level + 2);
      var w := NUM_LEVELS - 2 - level;
      var a, b, a', b' := |LevelEntries(st, level)|, |LevelEntries(st, level + 1)|, |LevelEntries(st', level)|, |LevelEntries(st', level + 1)|;
      assert WeightFrom(st', level) == (w + 1) * a' + (w * b' + WeightFrom(st', level + 2));
      assert WeightFrom(st, level) == (w + 1) * a + (w * b + WeightFrom(st, level + 2));
      Sinks(w, a, b, a', b');
    }
  }

  lemma Sinks(w: nat, a: nat, b: nat, a': nat, b': nat)
    requires a' < a && a' + b' <= a + b
    ensures (w + 1) * a' + w * b' < (w + 1) * a + w * b
  {
  }

  lemma CompactionSinks(st: Store, c: Compaction, outs: seq<OutputFile>, st': Store, next: nat)
    requires StepOk(st, c, outs, st', next)
    ensures st'.version.Valid() && st.version.Valid() && Weight(st') < Weight(st)
  {
    hide StepOk;
    LevelsSink(st, c, outs, st', next);
    WeightSinks(st, st', c.level, 0);
  }

  // ----- the running engine -------------------------------------------------------------------

  /** Every compaction that runs makes the stored entries weigh strictly less, wherever its output is cut. */
  lemma EveryCompactionSinks(db: Db, c: Compaction, opts: Options)
    requires Steady(db) && Picks(db, c)
    ensures Steady(Compact(db, opts)) && Weight(StoreOf(Compact(db, opts))) < Weight(StoreOf(db))
  {
    hide Steady, Compact, Picks, StepOk, CompactionOuts, Weight;
    SteadyParts(db);
    CompactKeepsSteady(db, c, opts);
    CompactionSinks(StoreOf(db), c, CompactionOuts(db, c, opts), StoreOf(Compact(db, opts)), db.nextNumber);
  }

  /** Compacting `n` times in a row, each time finding something to compact. */
  ghost predicate CompactsFor(db: Db, n: nat, opts: Options)
    decreases n
  {
    n == 0 || (db.vs.Valid() && (exists c :: Picks(db, c)) && CompactsFor(Compact(db, opts), n - 1, opts))
  }

  /** So without writes, only as many compactions can follow each other as the entries weigh. */
  lemma {:induction false} SteadyTerminates(db: Db, n: nat, opts: Options)
    requires Steady(db) && CompactsFor(db, n, opts)
    ensures db.vs.Valid() && n <= Weight(StoreOf(db))
    decreases n
  {
    hide Steady, Compact, Picks, Weight;
    SteadyParts(db);
    if n > 0 {
      var c :| Picks(db, c);
      EveryCompactionSinks(db, c, opts);
      SteadyTerminates(Compact(db, opts), n - 1, opts);
    }
  }

  /** In particular from every live state, with no condition on where the outputs are cut. */
  lemma CompactionTerminates(db: Db, tr: Trace, n: nat, opts: Options)
    requires Live(db, tr) && CompactsFor(db, n, opts)
    ensures db.vs.Valid() && n <= Weight(StoreOf(db))
  {
    hide Live, Steady, CompactsFor, Weight;
    LiveIsSteady(db, tr);
    SteadyTerminates(db, n, opts);
  }
}
