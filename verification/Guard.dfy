/** What a reader at the oldest live snapshot relies on, wherever compactions cut their output. */
module Guards {
  import opened ByteStrings
  import opened VersionedEntries
  import opened Manifest
  import opened Versions
  import opened Compactions
  import opened Stores

  // ----- the order the oldest reader relies on ------------------------------------------------

  /** No version in `f` that is at or below `s0` is newer than a version of its key in `g`. */
  ghost predicate Settled(tables: map<nat, seq<Entry>>, f: FileMeta, g: FileMeta, s0: nat) {
    forall a, b :: a in Contents(tables, f) && b in Contents(tables, g) && a.Key() == b.Key() && a.Seqno() <= s0 ==> a.Seqno() < b.Seqno()
  }

  /** Below level 0, versions the oldest reader considers old come after all others of their key. */
  ghost predicate OldAreDeep(v: Version, tables: map<nat, seq<Entry>>, s0: nat)
    requires v.Valid()
  {
    forall l, m, f, g :: 0 <= m <= l < NUM_LEVELS && l != 0 && f in v.files[l] && g in v.files[m] && f != g ==> Settled(tables, f, g, s0)
  }

  ghost predicate MemIsNewer(st: Store)
    requires st.version.Valid()
  {
    forall a, b :: a in st.mem && b in EntriesOf(st.tables, AllFiles(st.version)) && a.Key() == b.Key() ==> a.Seqno() > b.Seqno()
  }

  /** A sound store in which nothing at or below `s0` is out of order; it may hold cuts inside keys above. */
  ghost predicate Guarded(st: Store, s0: nat) {
    Sound(st) && OldAreDeep(st.version, st.tables, s0) && MemIsNewer(st)
  }

  lemma GuardedParts(st: Store, s0: nat)
    requires Guarded(st, s0)
    ensures Sound(st) && st.version.Valid() && OldAreDeep(st.version, st.tables, s0) && MemIsNewer(st)
    ensures UniqueNumbers(st.version)
  {
    hide FilesOk, NothingTwice, Ascending, MemApart, OldAreDeep, MemIsNewer, UniqueNumbers;
  }

  lemma IsSettled(st: Store, s0: nat, l: nat, m: nat, f: FileMeta, g: FileMeta)
    requires Guarded(st, s0) && m <= l < NUM_LEVELS && l != 0 && f in st.version.files[l] && g in st.version.files[m] && f != g
    ensures Settled(st.tables, f, g, s0)
  {
    hide Sound, Settled, MemIsNewer;
  }

  lemma SettledAt(tables: map<nat, seq<Entry>>, f: FileMeta, g: FileMeta, s0: nat, a: Entry, b: Entry)
    requires Settled(tables, f, g, s0) && a in Contents(tables, f) && b in Contents(tables, g) && a.Key() == b.Key()
    ensures a.Seqno() <= s0 ==> a.Seqno() < b.Seqno()
  {
  }

  /** The layer invariants guard every sequence number. */
  lemma LayersAreGuarded(st: Store, s0: nat)
    requires LayersOk(st)
    ensures Guarded(st, s0)
  {
    LayersAreSound(st);
    LayersParts(st);
    hide LayersOk, Sound, Settled, EntriesOf, AllFiles;
    forall l, m, f, g | 0 <= m <= l < NUM_LEVELS && l != 0 && f in st.version.files[l] && g in st.version.files[m] && f != g
      ensures Settled(st.tables, f, g, s0)
    {
      LayersAreSettled(st, s0, l, m, f, g);
    }
  }

  lemma LayersAreSettled(st: Store, s0: nat, l: nat, m: nat, f: FileMeta, g: FileMeta)
    requires LayersOk(st) && st.version.Valid() && m <= l < NUM_LEVELS && l != 0 && f in st.version.files[l] && g in st.version.files[m] && f != g
    ensures Settled(st.tables, f, g, s0)
  {
    if m < l {
      LevelsAreOrdered(st, m, l, g, f);
    } else {
      SameLevelSharesNoKey(st, l, f, g);
    }
    hide LayersOk;
  }

  lemma SameLevelSharesNoKey(st: Store, l: nat, f: FileMeta, g: FileMeta)
    requires LayersOk(st) && st.version.Valid() && 1 <= l < NUM_LEVELS && f in st.version.files[l] && g in st.version.files[l] && f != g
    ensures forall a, b :: a in Contents(st.tables, f) && b in Contents(st.tables, g) ==> a.Key() != b.Key()
  {
    assert DisjointRanges(st.version.files[l]) && FileOk(st.tables, f) && FileOk(st.tables, g);
    hide LayersOk, FileOk, Before2, Contents;
    forall a, b | a in Contents(st.tables, f) && b in Contents(st.tables, g) ensures a.Key() != b.Key() {
      if a.Key() == b.Key() {
        SharedKey(st.tables, f, g, a, b);
      }
    }
  }

  // ----- a compaction -------------------------------------------------------------------------

  /** A file left behind in the next level shares no key with what is taken from the level above. */
  lemma UpperInputSharesNoKey(st: Store, c: Compaction, f: FileMeta, y: FileMeta, a: Entry, b: Entry)
    requires Sound(st) && Chosen(st.version, c) && c.level + 1 < NUM_LEVELS
    requires f in st.version.files[c.level + 1] && f !in Inputs(c) && y in c.inputs0
    requires a in Contents(st.tables, f) && b in Contents(st.tables, y)
    ensures a.Key() != b.Key()
  {
    SoundParts(st);
    InputsAreFiles(st.version, c, y);
    assert f in AllFiles(st.version) && y in AllFiles(st.version);
    FileIsOk(st, f);
    FileIsOk(st, y);
    KeyInRange(st.tables, f, a);
    KeyInRange(st.tables, y, b);
    OverlapIsTaken(st.version, c, f, y);
    if a.Key() == b.Key() {
      hide Sound, Chosen, FileOk;
      OrderFacts();
    }
  }

  lemma OverlapIsTaken(v: Version, c: Compaction, f: FileMeta, y: FileMeta)
    requires v.Valid() && Chosen(v, c) && c.level + 1 < NUM_LEVELS && f in v.files[c.level + 1] && f !in Inputs(c) && y in c.inputs0
    ensures Before(Hi(f), Lo(y)) || Before(Hi(y), Lo(f))
  {
    assert c.inputs1 == Overlapping(v.files[c.level + 1], MinLo(c.inputs0), MaxHi(c.inputs0));
    assert f !in c.inputs1;
    assert !Overlaps(f, MinLo(c.inputs0), MaxHi(c.inputs0));
    hide Chosen, InputsFor;
    OrderFacts();
  }

  /** Against a file left behind at the output level or above, an old input version is the older one. */
  lemma InputIsOlder(st: Store, c: Compaction, s0: nat, l: nat, f: FileMeta, y: FileMeta, a: Entry, b: Entry)
    requires Guarded(st, s0) && Chosen(st.version, c) && c.level + 1 < NUM_LEVELS && l <= c.level + 1
    requires f in st.version.files[l] && f !in Inputs(c) && y in Inputs(c)
    requires a in Contents(st.tables, f) && b in Contents(st.tables, y) && a.Key() == b.Key() && b.Seqno() <= s0
    ensures b.Seqno() < a.Seqno()
  {
    GuardedParts(st, s0);
    InputsAreFiles(st.version, c, y);
    LoneZero(st.version, c, f);
    hide *;
    if y in c.inputs0 && l == c.level + 1 {
      UpperInputSharesNoKey(st, c, f, y, a, b);
    } else {
      IsSettled(st, s0, if y in c.inputs0 then c.level else c.level + 1, l, y, f);
      SettledAt(st.tables, y, f, s0, b, a);
    }
  }

  /** A compaction of level 0 takes all of it. */
  lemma LoneZero(v: Version, c: Compaction, f: FileMeta)
    requires v.Valid() && Chosen(v, c)
    ensures c.level == 0 && f in v.files[0] ==> f in Inputs(c)
  {
    hide InputsFor;
  }

  /** Against an input, an old version left behind at the output level or below is the older one. */
  lemma LeftIsOlder(st: Store, c: Compaction, s0: nat, l: nat, f: FileMeta, y: FileMeta, a: Entry, b: Entry)
    requires Guarded(st, s0) && Chosen(st.version, c) && c.level + 1 <= l < NUM_LEVELS
    requires f in st.version.files[l] && f !in Inputs(c) && y in Inputs(c)
    requires a in Contents(st.tables, f) && b in Contents(st.tables, y) && a.Key() == b.Key() && a.Seqno() <= s0
    ensures a.Seqno() < b.Seqno()
  {
    InputsAreFiles(st.version, c, y);
    hide Guarded, Chosen, Settled, Contents;
    IsSettled(st, s0, l, if y in c.inputs0 then c.level else c.level + 1, f, y);
    SettledAt(st.tables, f, y, s0, a, b);
  }

  /** What the drop rule takes away as gone from its base level has nothing older left behind. */
  lemma OldInputIsLast(st: Store, c: Compaction, s0: nat, r: Entry, e: Entry)
    requires Guarded(st, s0) && Chosen(st.version, c)
    requires r in Remaining(st, c) && e in InputEntries(st, c) && r.Key() == e.Key() && e.Seqno() <= s0
    requires IsBaseLevel(st.version, c.level, e.Key())
    ensures r.Seqno() > e.Seqno()
  {
    GuardedParts(st, s0);
    hide *;
    var y := InputHolding(st, c, e);
    InputsAreFiles(st.version, c, y);
    if r in st.mem {
      OlderThanMem(st, r, e);
    } else {
      var l, f := FileHolding(st, c, r);
      LeftIsNewer(st, c, s0, l, f, y, r, e);
    }
  }

  lemma InputHolding(st: Store, c: Compaction, e: Entry) returns (y: FileMeta)
    requires st.version.Valid() && Chosen(st.version, c) && e in InputEntries(st, c)
    ensures y in Inputs(c) && e in Contents(st.tables, y) && e in EntriesOf(st.tables, AllFiles(st.version))
  {
    hide Contents, Chosen;
    y :| y in Inputs(c) && e in Contents(st.tables, y);
    InputsAreFiles(st.version, c, y);
    assert y in AllFiles(st.version);
  }

  lemma FileHolding(st: Store, c: Compaction, r: Entry) returns (l: nat, f: FileMeta)
    requires st.version.Valid() && r in Remaining(st, c) && r !in st.mem
    ensures l < NUM_LEVELS && f in st.version.files[l] && f !in Inputs(c) && r in Contents(st.tables, f)
  {
    hide Contents, Inputs;
    f :| f in AllFiles(st.version) && f !in Inputs(c) && r in Contents(st.tables, f);
    l :| l < NUM_LEVELS && f in st.version.files[l];
  }

  lemma OlderThanMem(st: Store, r: Entry, e: Entry)
    requires st.version.Valid() && MemIsNewer(st) && r in st.mem && r.Key() == e.Key()
    requires e in EntriesOf(st.tables, AllFiles(st.version))
    ensures r.Seqno() > e.Seqno()
  {
    hide EntriesOf, AllFiles;
  }

  lemma LeftIsNewer(st: Store, c: Compaction, s0: nat, l: nat, f: FileMeta, y: FileMeta, r: Entry, e: Entry)
    requires Guarded(st, s0) && Chosen(st.version, c) && c.level + 1 < NUM_LEVELS && IsBaseLevel(st.version, c.level, e.Key())
    requires l < NUM_LEVELS && f in st.version.files[l] && f !in Inputs(c) && y in Inputs(c)
    requires r in Contents(st.tables, f) && e in Contents(st.tables, y) && r.Key() == e.Key() && e.Seqno() <= s0
    ensures r.Seqno() > e.Seqno()
  {
    GuardedParts(st, s0);
    hide *;
    if l >= c.level + 2 {
      NothingBelowBase(st, c.level, l, f, r);
    } else {
      InputIsOlder(st, c, s0, l, f, y, r, e);
    }
  }

  lemma NothingBelowBase(st: Store, level: nat, l: nat, f: FileMeta, r: Entry)
    requires Sound(st) && level + 2 <= l < NUM_LEVELS
    requires st.version.Valid() && f in st.version.files[l] && r in Contents(st.tables, f)
    ensures !IsBaseLevel(st.version, level, r.Key())
  {
    assert f in AllFiles(st.version);
    FileIsOk(st, f);
    KeyInRange(st.tables, f, r);
    assert f in Overlapping(st.version.files[l], r.Key(), r.Key());
  }

  /** Of two versions that survive, an old one is the older one. */
  lemma SurvivorsAreSettled(I: set<Entry>, a: Entry, b: Entry, s0: nat, base: Bytes -> bool)
    requires Survives(I, a, s0, base) && Survives(I, b, s0, base) && a.Key() == b.Key() && a.Seqno() <= s0
    ensures a.Seqno() <= b.Seqno()
  {
    assert !Shadowed(I, b, s0);
  }

  lemma OutputsSettled(st: Store, c: Compaction, outs: seq<OutputFile>, st': Store, next: nat, s0: nat, f: FileMeta, g: FileMeta)
    requires StepOk(st, c, outs, st', next) && st.version.Valid() && KeepsSurvivors(st, c, outs, s0)
    requires IsOutput(outs, f) && IsOutput(outs, g) && f != g
    ensures Settled(st'.tables, f, g, s0)
  {
    hide StepOk, IsOutput, Survives, Contents, OutputEntries, InputEntries;
    OutputIsFresh(st, c, outs, st', next, f);
    forall a, b | a in Contents(st'.tables, f) && b in Contents(st'.tables, g) && a.Key() == b.Key() && a.Seqno() <= s0
      ensures a.Seqno() < b.Seqno()
    {
      InOutput(st, c, outs, st', next, f, a);
      InOutput(st, c, outs, st', next, g, b);
      SurvivorsAreSettled(InputEntries(st, c), a, b, s0, BaseLevelOf(st.version, c.level));
      NoSharedVersion(st'.tables, f, g, a, b);
    }
  }

  lemma OutputAboveLeft(st: Store, c: Compaction, outs: seq<OutputFile>, st': Store, next: nat, s0: nat, m: nat, f: FileMeta, g: FileMeta)
    requires StepOk(st, c, outs, st', next) && Guarded(st, s0) && c.level + 1 < NUM_LEVELS && m <= c.level + 1
    requires IsOutput(outs, f) && st.version.Valid() && LeftBehind(st, c, st', m, g)
    ensures Settled(st'.tables, f, g, s0)
  {
    StepShape(st, c, outs, st', next);
    hide StepOk, Guarded, Sound, Chosen, CompactedTo, OutputsOk, IsOutput, Contents;
    forall a, b | a in Contents(st'.tables, f) && b in Contents(st'.tables, g) && a.Key() == b.Key() && a.Seqno() <= s0
      ensures a.Seqno() < b.Seqno()
    {
      var y := OutputCameFrom(st, c, outs, st', next, f, a);
      InputIsOlder(st, c, s0, m, g, y, b, a);
    }
  }

  lemma LeftAboveOutput(st: Store, c: Compaction, outs: seq<OutputFile>, st': Store, next: nat, s0: nat, l: nat, f: FileMeta, g: FileMeta)
    requires StepOk(st, c, outs, st', next) && Guarded(st, s0) && c.level + 1 <= l < NUM_LEVELS
    requires IsOutput(outs, g) && st.version.Valid() && LeftBehind(st, c, st', l, f)
    ensures Settled(st'.tables, f, g, s0)
  {
    StepShape(st, c, outs, st', next);
    hide StepOk, Guarded, Sound, Chosen, CompactedTo, OutputsOk, IsOutput, Contents;
    forall a, b | a in Contents(st'.tables, f) && b in Contents(st'.tables, g) && a.Key() == b.Key() && a.Seqno() <= s0
      ensures a.Seqno() < b.Seqno()
    {
      var y := OutputCameFrom(st, c, outs, st', next, g, b);
      LeftIsOlder(st, c, s0, l, f, y, a, b);
    }
  }

  lemma BothLeft(st: Store, c: Compaction, st': Store, s0: nat, l: nat, m: nat, f: FileMeta, g: FileMeta)
    requires Guarded(st, s0) && st.version.Valid() && m <= l < NUM_LEVELS && l != 0 && f != g
    requires LeftBehind(st, c, st', l, f) && LeftBehind(st, c, st', m, g)
    ensures Settled(st'.tables, f, g, s0)
  {
    IsSettled(st, s0, l, m, f, g);
    hide Guarded;
  }

  lemma SettledAfter(st: Store, c: Compaction, outs: seq<OutputFile>, st': Store, next: nat, s0: nat, l: nat, m: nat, f: FileMeta, g: FileMeta)
    requires StepOk(st, c, outs, st', next) && Guarded(st, s0) && st.version.Valid() && KeepsSurvivors(st, c, outs, s0)
    requires st'.version.Valid() && m <= l < NUM_LEVELS && l != 0 && f in st'.version.files[l] && g in st'.version.files[m] && f != g
    ensures Settled(st'.tables, f, g, s0)
  {
    StepShape(st, c, outs, st', next);
    hide *;
    FileAfter(st, c, outs, st', next, l, f);
    FileAfter(st, c, outs, st', next, m, g);
    if l == c.level + 1 && IsOutput(outs, f) {
      if m == c.level + 1 && IsOutput(outs, g) {
        OutputsSettled(st, c, outs, st', next, s0, f, g);
      } else {
        OutputAboveLeft(st, c, outs, st', next, s0, m, f, g);
      }
    } else if m == c.level + 1 && IsOutput(outs, g) {
      LeftAboveOutput(st, c, outs, st', next, s0, l, f, g);
    } else {
      BothLeft(st, c, st', s0, l, m, f, g);
    }
  }

  /** A compaction that drops for the reader at `s0` keeps that reader's store guarded, wherever it cuts. */
  lemma CompactionKeepsGuard(st: Store, c: Compaction, outs: seq<OutputFile>, st': Store, next: nat, s0: nat)
    requires StepOk(st, c, outs, st', next) && Guarded(st, s0) && st.version.Valid() && KeepsSurvivors(st, c, outs, s0)
    ensures Guarded(st', s0)
  {
    StepShape(st, c, outs, st', next);
    GuardedParts(st, s0);
    CompactionKeepsSound(st, c, outs, st', next);
    MemStays(st, c, outs, st', next);
    hide StepOk, Guarded, Sound, Chosen, CompactedTo, OutputsOk, KeepsSurvivors, Settled, EntriesOf, AllFiles, OutputEntries, InputEntries;
    assert OldAreDeep(st'.version, st'.tables, s0) by {
      forall l, m, f, g | 0 <= m <= l < NUM_LEVELS && l != 0 && f in st'.version.files[l] && g in st'.version.files[m] && f != g
        ensures Settled(st'.tables, f, g, s0)
      {
        SettledAfter(st, c, outs, st', next, s0, l, m, f, g);
      }
    }
    assert MemIsNewer(st') by {
      forall a, b | a in st'.mem && b in EntriesOf(st'.tables, AllFiles(st'.version)) && a.Key() == b.Key() ensures a.Seqno() > b.Seqno() {
        CompactedEntries(st, c, outs, st', next, b);
      }
    }
    GuardedIf(st', s0);
  }

  lemma GuardedIf(st: Store, s0: nat)
    requires Sound(st) && st.version.Valid() && OldAreDeep(st.version, st.tables, s0) && MemIsNewer(st)
    ensures Guarded(st, s0)
  {
    hide Sound, OldAreDeep, MemIsNewer;
  }

  /** Nor does it bare anything, so it changes no view at or above `s0`. */
  lemma GuardBaresNothing(st: Store, c: Compaction, s0: nat)
    requires Guarded(st, s0) && st.version.Valid() && Chosen(st.version, c)
    ensures !Bares(st, c, s0)
  {
    hide Guarded, Chosen, Remaining, InputEntries, IsBaseLevel;
    var R, I, base := Remaining(st, c), InputEntries(st, c), BaseLevelOf(st.version, c.level);
    forall r, e | r in R && e in I && r.Key() == e.Key() && base(e.Key()) && e.Seqno() <= s0 ensures r.Seqno() > e.Seqno() {
      OldInputIsLast(st, c, s0, r, e);
    }
    NewerMeansCovered(R, I, s0, base);
  }

  // ----- a write and a flush ------------------------------------------------------------------

  /** The newest entry of all goes into the memtable. */
  lemma InsertKeepsGuard(st: Store, mem: seq<Entry>, e: Entry, s0: nat)
    requires Guarded(st, s0) && Sound(st.(mem := mem))
    requires forall x :: x in mem <==> x in st.mem || x == e
    requires forall x :: x in Stored(st) ==> x.Seqno() < e.Seqno()
    ensures Guarded(st.(mem := mem), s0)
  {
    GuardedParts(st, s0);
    hide Sound, Guarded, OldAreDeep, EntriesOf, AllFiles;
    assert forall b :: b in EntriesOf(st.tables, AllFiles(st.version)) ==> b in Stored(st);
    GuardedIf(st.(mem := mem), s0);
  }

  lemma FlushedIsSettled(st: Store, meta: FileMeta, s0: nat, l: nat, m: nat, f: FileMeta, g: FileMeta)
    requires CanFlush(st, meta) && Guarded(st, s0) && m <= l < NUM_LEVELS && l != 0 && f != g
    requires st.version.Valid() && f in Flushed(st, meta).version.files[l] && g in Flushed(st, meta).version.files[m]
    ensures Settled(Flushed(st, meta).tables, f, g, s0)
  {
    GuardedParts(st, s0);
    hide CanFlush, Guarded, OldAreDeep, Sound, Flushed, MemIsNewer, Contents, FileOk;
    FlushedMembers(st, meta, l, f);
    FlushedMembers(st, meta, m, g);
    if g in st.version.files[m] {
      IsSettled(st, s0, l, m, f, g);
    } else {
      forall a, b | a in Contents(st.tables, f) && b in st.mem && a.Key() == b.Key() ensures a.Seqno() < b.Seqno() {
        assert f in AllFiles(st.version);
        assert a in EntriesOf(st.tables, AllFiles(st.version));
        OlderThanMem(st, b, a);
      }
    }
  }

  lemma FlushKeepsGuard(st: Store, meta: FileMeta, s0: nat)
    requires CanFlush(st, meta) && Guarded(st, s0)
    ensures Guarded(Flushed(st, meta), s0)
  {
    GuardedParts(st, s0);
    FlushKeepsSound(st, meta);
    var st' := Flushed(st, meta);
    assert st'.version.Valid() && st'.mem == [];
    hide CanFlush, Guarded, Sound, Flushed, Settled, EntriesOf, AllFiles, Stored;
    forall l, m, f, g | 0 <= m <= l < NUM_LEVELS && l != 0 && f in st'.version.files[l] && g in st'.version.files[m] && f != g
      ensures Settled(st'.tables, f, g, s0)
    {
      FlushedIsSettled(st, meta, s0, l, m, f, g);
    }
    GuardedIf(st', s0);
  }
}
