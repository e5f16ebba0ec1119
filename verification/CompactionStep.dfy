/** One compaction of the running engine: the merge, the files it writes and the edit it commits. */
module CompactionSteps {
  import opened ByteStrings
  import opened InternalKeys
  import opened VersionedEntries
  import opened Wal
  import opened Manifest
  import opened Versions
  import opened Compactions
  import opened CompactionOutputs
  import opened Sorting
  import opened Stores
  import opened Engine
  import opened Invariants

  // ----- the merge ----------------------------------------------------------------------------

  lemma {:induction false} AllContentsMembers(tables: map<nat, seq<Entry>>, files: seq<FileMeta>)
    ensures SetOf(AllContents(tables, files)) == EntriesOf(tables, set f | f in files)
  {
    if files != [] {
      AllContentsMembers(tables, files[1..]);
      assert files == [files[0]] + files[1..];
      forall e ensures e in AllContents(tables, files) <==> e in EntriesOf(tables, set f | f in files) {
        if e in AllContents(tables, files[1..]) {
          assert e in EntriesOf(tables, set f | f in files[1..]);
        }
        if e in EntriesOf(tables, set f | f in files) && e !in Contents(tables, files[0]) {
          assert e in EntriesOf(tables, set f | f in files[1..]);
          assert e in SetOf(AllContents(tables, files[1..]));
        }
      }
    }
  }

  ghost predicate PairwiseNothingShared(tables: map<nat, seq<Entry>>, files: seq<FileMeta>) {
    forall i, j :: 0 <= i < j < |files| ==> NothingShared(tables, files[i], files[j])
  }

  lemma NoRepeatedAppend(a: seq<Entry>, b: seq<Entry>)
    requires NoRepeatedVersion(a) && NoRepeatedVersion(b)
    requires forall x, y :: x in a && y in b ==> x.Key() != y.Key() || x.Seqno() != y.Seqno()
    ensures NoRepeatedVersion(a + b)
  {
  }

  lemma AscendingHasNoRepeat(es: seq<Entry>)
    requires Ascending(es)
    ensures NoRepeatedVersion(es)
  {
    OrderFacts();
    forall i, j | 0 <= i < j < |es| ensures es[i].Key() != es[j].Key() || es[i].Seqno() != es[j].Seqno() {
      assert VersionBefore(es[i], es[j]);
    }
  }

  lemma {:induction false} AllContentsNoRepeat(tables: map<nat, seq<Entry>>, files: seq<FileMeta>)
    requires forall f :: f in files ==> Ascending(Contents(tables, f))
    requires PairwiseNothingShared(tables, files)
    ensures NoRepeatedVersion(AllContents(tables, files))
  {
    if files != [] {
      var first, rest := files[0], files[1..];
      assert files == [first] + rest;
      forall i, j | 0 <= i < j < |rest| ensures NothingShared(tables, rest[i], rest[j]) {
        assert rest[i] == files[i + 1] && rest[j] == files[j + 1];
      }
      AllContentsNoRepeat(tables, rest);
      AscendingHasNoRepeat(Contents(tables, first));
      AllContentsMembers(tables, rest);
      forall x, y | x in Contents(tables, first) && y in AllContents(tables, rest)
        ensures x.Key() != y.Key() || x.Seqno() != y.Seqno()
      {
        assert y in EntriesOf(tables, set f | f in rest);
        var j :| 0 <= j < |rest| && y in Contents(tables, rest[j]);
        assert NothingShared(tables, files[0], files[j + 1]);
      }
      NoRepeatedAppend(Contents(tables, first), AllContents(tables, rest));
    }
  }

  lemma {:induction false} OverlappingKeepsNumbers(files: seq<FileMeta>, lo: Bytes, hi: Bytes)
    requires NumbersDistinct(files)
    ensures NumbersDistinct(Overlapping(files, lo, hi))
  {
    if files != [] {
      DistinctTail(files);
      OverlappingKeepsNumbers(files[1..], lo, hi);
      DistinctCons(files[0], Overlapping(files[1..], lo, hi));
    }
  }

  lemma DistinctTail(files: seq<FileMeta>)
    requires NumbersDistinct(files) && files != []
    ensures NumbersDistinct(files[1..]) && forall f :: f in files[1..] ==> f.number != files[0].number
  {
  }

  lemma DistinctCons(f: FileMeta, files: seq<FileMeta>)
    requires NumbersDistinct(files) && forall g :: g in files ==> g.number != f.number
    ensures NumbersDistinct([f] + files) && NumbersDistinct([] + files)
  {
  }

  lemma DistinctAppend(a: seq<FileMeta>, b: seq<FileMeta>)
    requires NumbersDistinct(a) && NumbersDistinct(b)
    requires forall f, g :: f in a && g in b ==> f.number != g.number
    ensures NumbersDistinct(a + b)
  {
  }

  /** No file is chosen twice. */
  lemma InputNumbersDistinct(v: Version, c: Compaction)
    requires v.Valid() && NoRepeats(v) && UniqueNumbers(v) && Chosen(v, c)
    ensures NumbersDistinct(Inputs(c))
  {
    assert c.level + 1 < NUM_LEVELS;
    FirstInputsDistinct(v, c);
    SecondInputsDistinct(v, c);
    hide Chosen, UniqueNumbers, NoRepeats, NumbersDistinct;
    forall f, g | f in c.inputs0 && g in c.inputs1 ensures f.number != g.number {
      InputsOfTwoLevels(v, c, f, g);
    }
    DistinctAppend(c.inputs0, c.inputs1);
  }

  lemma FirstInputsDistinct(v: Version, c: Compaction)
    requires v.Valid() && NoRepeats(v) && Chosen(v, c)
    ensures NumbersDistinct(c.inputs0)
  {
  }

  lemma SecondInputsDistinct(v: Version, c: Compaction)
    requires v.Valid() && NoRepeats(v) && Chosen(v, c)
    ensures NumbersDistinct(c.inputs1)
  {
    assert NumbersDistinct(v.files[c.level + 1]);
    hide NumbersDistinct;
    OverlappingKeepsNumbers(v.files[c.level + 1], MinLo(c.inputs0), MaxHi(c.inputs0));
  }

  lemma InputsOfTwoLevels(v: Version, c: Compaction, f: FileMeta, g: FileMeta)
    requires v.Valid() && UniqueNumbers(v) && Chosen(v, c) && f in c.inputs0 && g in c.inputs1
    ensures f.number != g.number
  {
    assert c.level + 1 < NUM_LEVELS;
    hide Chosen;
    InputsAreFiles(v, c, f);
    InputsAreFiles(v, c, g);
  }

  lemma InputIsFile(st: Store, c: Compaction, f: FileMeta)
    requires Sound(st) && Chosen(st.version, c) && f in Inputs(c)
    ensures f in AllFiles(st.version) && FileOk(st.tables, f) && Ascending(Contents(st.tables, f))
  {
    InputsAreFiles(st.version, c, f);
    hide Sound, Chosen;
    FileIsOk(st, f);
  }

  lemma InputsShareNothing(st: Store, c: Compaction)
    requires Sound(st) && NoRepeats(st.version) && Chosen(st.version, c)
    ensures PairwiseNothingShared(st.tables, Inputs(c))
  {
    SoundParts(st);
    InputNumbersDistinct(st.version, c);
    var files := Inputs(c);
    hide Sound, Chosen, Inputs, NoRepeats, NothingShared;
    forall i, j | 0 <= i < j < |files| ensures NothingShared(st.tables, files[i], files[j]) {
      InputIsFile(st, c, files[i]);
      InputIsFile(st, c, files[j]);
      assert files[i].number != files[j].number;
      SoundShares(st, files[i], files[j]);
    }
  }

  lemma InputsHaveNoRepeat(st: Store, c: Compaction)
    requires Sound(st) && NoRepeats(st.version) && Chosen(st.version, c)
    ensures NoRepeatedVersion(AllContents(st.tables, Inputs(c)))
  {
    hide Sound, Chosen, NoRepeats, Inputs, PairwiseNothingShared, NoRepeatedVersion, Ascending, AllContents, Contents;
    InputsShareNothing(st, c);
    forall f | f in Inputs(c) ensures Ascending(Contents(st.tables, f)) { InputIsFile(st, c, f); }
    AllContentsNoRepeat(st.tables, Inputs(c));
  }

  /** The merge of the chosen inputs is their entries, each once, in storage order. */
  lemma MergedIsSorted(st: Store, c: Compaction)
    requires Sound(st) && NoRepeats(st.version) && Chosen(st.version, c)
    ensures Ascending(Merged(st, c)) && SetOf(Merged(st, c)) == InputEntries(st, c)
  {
    hide Sound, Chosen, NoRepeats, Inputs, NoRepeatedVersion, AllContents, Contents;
    InputsHaveNoRepeat(st, c);
    AllContentsMembers(st.tables, Inputs(c));
    InsertAllKeepsOrder([], AllContents(st.tables, Inputs(c)));
  }

  // ----- the edit -----------------------------------------------------------------------------

  function Metas(outs: seq<OutputFile>): (r: seq<FileMeta>)
    ensures |r| == |outs|
    ensures forall f :: f in r <==> IsOutput(outs, f)
  {
    if outs == [] then []
    else
      assert outs == [outs[0]] + outs[1..];
      [outs[0].meta] + Metas(outs[1..])
  }

  lemma {:induction false} MetasOfLevel(level: nat, outs: seq<OutputFile>, l: nat, fs: seq<NewFile>)
    requires |fs| == |outs| && forall i :: 0 <= i < |outs| ==> fs[i] == NewFile(level, outs[i].meta)
    ensures MetasAt(fs, l) == if l == level then Metas(outs) else []
    decreases |outs|
  {
    if outs != [] {
      MetasOfLevel(level, outs[1..], l, fs[1..]);
    }
  }

  lemma DeletesInputs(c: Compaction, l: nat, n: nat)
    ensures Deletes(DeletedInputs(c), l, n)
       <==> (l == c.level && exists i :: 0 <= i < |c.inputs0| && c.inputs0[i].number == n)
            || (l == c.level + 1 && exists i :: 0 <= i < |c.inputs1| && c.inputs1[i].number == n)
  {
    var a := seq(|c.inputs0|, i requires 0 <= i < |c.inputs0| => DeletedFile(c.level, c.inputs0[i].number));
    var b := seq(|c.inputs1|, i requires 0 <= i < |c.inputs1| => DeletedFile(c.level + 1, c.inputs1[i].number));
    assert DeletedInputs(c) == a + b;
    if i :| 0 <= i < |c.inputs0| && l == c.level && c.inputs0[i].number == n {
      assert a[i] == DeletedFile(l, n);
    }
    if i :| 0 <= i < |c.inputs1| && l == c.level + 1 && c.inputs1[i].number == n {
      assert b[i] == DeletedFile(l, n);
    }
    if DeletedFile(l, n) in a {
      var i :| 0 <= i < |a| && a[i] == DeletedFile(l, n);
      assert c.inputs0[i].number == n;
    }
    if DeletedFile(l, n) in b {
      var i :| 0 <= i < |b| && b[i] == DeletedFile(l, n);
      assert c.inputs1[i].number == n;
    }
  }

  /** For a file of the version, being named by a deletion is being an input of that level. */
  lemma DeletedIsInput(v: Version, c: Compaction, l: nat, f: FileMeta)
    requires v.Valid() && UniqueNumbers(v) && Chosen(v, c) && l < NUM_LEVELS && f in v.files[l]
    ensures Deletes(DeletedInputs(c), l, f.number) <==> (l == c.level && f in c.inputs0) || (l == c.level + 1 && f in c.inputs1)
  {
    DeletesInputs(c, l, f.number);
    forall g | g in c.inputs0 ensures g in v.files[c.level] { InputsAreFiles(v, c, g); }
    forall g | g in c.inputs1 ensures g in v.files[c.level + 1] { InputsAreFiles(v, c, g); }
    hide Chosen, DeletedInputs, Deletes;
  }

  lemma OnlyInputLevelsLose(c: Compaction, l: nat)
    requires l != c.level && l != c.level + 1
    ensures forall n :: !Deletes(DeletedInputs(c), l, n)
  {
  }

  predicate Taken(c: Compaction, l: nat, f: FileMeta) {
    (l == c.level && f in c.inputs0) || (l == c.level + 1 && f in c.inputs1)
  }

  lemma DeletesApply(v: Version, c: Compaction)
    requires v.Valid() && Chosen(v, c)
    ensures c.level + 1 < NUM_LEVELS && ApplyDeletes(v, DeletedInputs(c)).Ok?
  {
    assert c.level + 1 < NUM_LEVELS;
    hide Chosen, ApplyDeletes;
    DeletedLevels(c);
    DeletesApplyIff(v, DeletedInputs(c));
  }

  lemma DeletedLevels(c: Compaction)
    ensures forall i :: 0 <= i < |DeletedInputs(c)| ==> DeletedInputs(c)[i].level <= c.level + 1
  {
  }

  lemma LevelAfterDeletes(v: Version, c: Compaction, l: nat, f: FileMeta)
    requires v.Valid() && UniqueNumbers(v) && Chosen(v, c) && l < NUM_LEVELS
    requires ApplyDeletes(v, DeletedInputs(c)).Ok?
    ensures f in ApplyDeletes(v, DeletedInputs(c)).value.files[l] <==> f in v.files[l] && !Taken(c, l, f)
  {
    ApplyDeletesMembers(v, DeletedInputs(c));
    if f in v.files[l] {
      DeletedIsInput(v, c, l, f);
    }
    hide DeletedInputs, ApplyDeletes, Deletes, Chosen, UniqueNumbers;
  }

  lemma OtherLevelsStay(v: Version, c: Compaction, l: nat)
    requires v.Valid() && l < NUM_LEVELS && l != c.level && l != c.level + 1
    requires ApplyDeletes(v, DeletedInputs(c)).Ok?
    ensures ApplyDeletes(v, DeletedInputs(c)).value.files[l] == v.files[l]
  {
    ApplyDeletesMembers(v, DeletedInputs(c));
    OnlyInputLevelsLose(c, l);
    hide DeletedInputs, ApplyDeletes, Deletes;
  }

  lemma {:induction false} RetainKeepsNumbers(files: seq<FileMeta>, n: nat)
    requires NumbersDistinct(files)
    ensures NumbersDistinct(Retain(files, n))
  {
    if files != [] {
      DistinctTail(files);
      RetainKeepsNumbers(files[1..], n);
      DistinctCons(files[0], Retain(files[1..], n));
    }
  }

  lemma {:induction false} DeletesKeepNoRepeats(v: Version, ds: seq<DeletedFile>)
    requires v.Valid() && NoRepeats(v) && ApplyDeletes(v, ds).Ok?
    ensures NoRepeats(ApplyDeletes(v, ds).value)
    decreases |ds|
  {
    if ds != [] {
      var d := ds[0];
      var next := Version(v.files[d.level := Retain(v.files[d.level], d.number)]);
      RetainKeepsNumbers(v.files[d.level], d.number);
      assert NoRepeats(next) by {
        forall l | 0 <= l < NUM_LEVELS ensures NumbersDistinct(next.files[l]) {
          assert NumbersDistinct(v.files[l]);
        }
      }
      DeletesKeepNoRepeats(next, ds[1..]);
    }
  }

  /** The version a compaction commits. */
  function CompactedVersion(v: Version, c: Compaction, outs: seq<OutputFile>): Version
    requires v.Valid() && c.level + 1 < NUM_LEVELS && ApplyDeletes(v, DeletedInputs(c)).Ok?
  {
    var w := ApplyDeletes(v, DeletedInputs(c)).value;
    Version(w.files[c.level + 1 := w.files[c.level + 1] + Metas(outs)])
  }

  lemma CompactionApplies(v: Version, c: Compaction, outs: seq<OutputFile>, next: nat)
    requires v.Valid() && Chosen(v, c)
    ensures c.level + 1 < NUM_LEVELS && ApplyDeletes(v, DeletedInputs(c)).Ok?
    ensures ApplyEdit(v, CompactionEdit(c, outs, next)) == Ok(CompactedVersion(v, c, outs))
  {
    DeletesApply(v, c);
    hide ApplyDeletes, DeletedInputs, Chosen;
    AddsOutputs(ApplyDeletes(v, DeletedInputs(c)).value, c, outs);
    hide ApplyAdds, AddedOutputs;
  }

  lemma AddsOutputs(w: Version, c: Compaction, outs: seq<OutputFile>)
    requires w.Valid() && c.level + 1 < NUM_LEVELS
    ensures ApplyAdds(w, AddedOutputs(c, outs)) == Ok(Version(w.files[c.level + 1 := w.files[c.level + 1] + Metas(outs)]))
  {
    var fs := AddedOutputs(c, outs);
    assert forall i :: 0 <= i < |fs| ==> fs[i] == NewFile(c.level + 1, outs[i].meta);
    hide ApplyAdds, Metas, MetasAt, AddedOutputs;
    AddsApplyIff(w, fs);
    ApplyAddsMembers(w, fs);
    var r := ApplyAdds(w, fs).value;
    var files := w.files[c.level + 1 := w.files[c.level + 1] + Metas(outs)];
    forall l: nat | l < NUM_LEVELS ensures r.files[l] == files[l] {
      MetasOfLevel(c.level + 1, outs, l, fs);
    }
    assert r.files == files;
  }

  // ----- the step as the store sees it --------------------------------------------------------

  /** The files of the committed version, level by level. */
  lemma CompactedMembers(v: Version, c: Compaction, outs: seq<OutputFile>, l: nat, f: FileMeta)
    requires v.Valid() && UniqueNumbers(v) && Chosen(v, c) && l < NUM_LEVELS
    requires c.level + 1 < NUM_LEVELS && ApplyDeletes(v, DeletedInputs(c)).Ok?
    ensures f in CompactedVersion(v, c, outs).files[l]
       <==> (f in v.files[l] && !Taken(c, l, f)) || (l == c.level + 1 && IsOutput(outs, f))
  {
    var w := ApplyDeletes(v, DeletedInputs(c)).value;
    var files := CompactedVersion(v, c, outs).files;
    assert files[l] == if l == c.level + 1 then w.files[l] + Metas(outs) else w.files[l];
    LevelAfterDeletes(v, c, l, f);
    hide *;
    MemberOfSum(w.files[l], Metas(outs), f);
  }

  lemma MemberOfSum(a: seq<FileMeta>, b: seq<FileMeta>, f: FileMeta)
    ensures f in a + b <==> f in a || f in b
  {
  }

  lemma CompactedOtherLevels(v: Version, c: Compaction, outs: seq<OutputFile>, l: nat)
    requires v.Valid() && l < NUM_LEVELS && l != c.level && l != c.level + 1
    requires c.level + 1 < NUM_LEVELS && ApplyDeletes(v, DeletedInputs(c)).Ok?
    ensures CompactedVersion(v, c, outs).files[l] == v.files[l]
  {
    OtherLevelsStay(v, c, l);
  }

  lemma CommittedIsCompacted(st: Store, c: Compaction, outs: seq<OutputFile>, tables: map<nat, seq<Entry>>)
    requires st.version.Valid() && UniqueNumbers(st.version) && Chosen(st.version, c)
    requires TablesGrow(st, tables)
    requires c.level + 1 < NUM_LEVELS && ApplyDeletes(st.version, DeletedInputs(c)).Ok?
    ensures CompactedTo(st, c, outs, Store(CompactedVersion(st.version, c, outs), st.mem, tables))
  {
    LevelsAfter(st.version, c, outs);
    hide CompactedVersion, Chosen, UniqueNumbers, LevelsCompacted, TablesGrow;
  }

  lemma LevelsAfter(v: Version, c: Compaction, outs: seq<OutputFile>)
    requires v.Valid() && UniqueNumbers(v) && Chosen(v, c)
    requires c.level + 1 < NUM_LEVELS && ApplyDeletes(v, DeletedInputs(c)).Ok?
    ensures LevelsCompacted(v, c, outs, CompactedVersion(v, c, outs))
  {
    hide CompactedVersion, Chosen, UniqueNumbers, IsOutput, ApplyDeletes, DeletedInputs, OtherLevelsKept, LevelLoses, LevelGains;
    InputLevelAfter(v, c, outs);
    OutputLevelAfter(v, c, outs);
    OtherLevelsAfter(v, c, outs);
  }

  lemma OtherLevelsAfter(v: Version, c: Compaction, outs: seq<OutputFile>)
    requires v.Valid() && c.level + 1 < NUM_LEVELS && ApplyDeletes(v, DeletedInputs(c)).Ok?
    ensures CompactedVersion(v, c, outs).Valid()
    ensures OtherLevelsKept(v, c, CompactedVersion(v, c, outs))
  {
    hide ApplyDeletes, DeletedInputs;
    forall l | 0 <= l < NUM_LEVELS && l != c.level && l != c.level + 1
      ensures CompactedVersion(v, c, outs).files[l] == v.files[l]
    {
      CompactedOtherLevels(v, c, outs, l);
    }
  }

  lemma InputLevelAfter(v: Version, c: Compaction, outs: seq<OutputFile>)
    requires v.Valid() && UniqueNumbers(v) && Chosen(v, c)
    requires c.level + 1 < NUM_LEVELS && ApplyDeletes(v, DeletedInputs(c)).Ok?
    ensures LevelLoses(v.files[c.level], CompactedVersion(v, c, outs).files[c.level], c.inputs0)
  {
    var before, after := v.files[c.level], CompactedVersion(v, c, outs).files[c.level];
    hide CompactedVersion, Chosen, UniqueNumbers, ApplyDeletes, DeletedInputs;
    forall f ensures f in after <==> f in before && f !in c.inputs0 {
      InputLevelMember(v, c, outs, c.level, f);
    }
  }

  lemma InputLevelMember(v: Version, c: Compaction, outs: seq<OutputFile>, level: nat, f: FileMeta)
    requires v.Valid() && UniqueNumbers(v) && Chosen(v, c)
    requires c.level + 1 < NUM_LEVELS && ApplyDeletes(v, DeletedInputs(c)).Ok? && level == c.level
    ensures f in CompactedVersion(v, c, outs).files[level] <==> f in v.files[level] && f !in c.inputs0
  {
    assert c.level + 1 < |v.files| == |CompactedVersion(v, c, outs).files| by { hide Chosen, UniqueNumbers, ApplyDeletes, DeletedInputs, Metas; }
    hide *;
    CompactedMembers(v, c, outs, level, f);
    TakenAt(c, f);
  }

  lemma OutputLevelAfter(v: Version, c: Compaction, outs: seq<OutputFile>)
    requires v.Valid() && UniqueNumbers(v) && Chosen(v, c)
    requires c.level + 1 < NUM_LEVELS && ApplyDeletes(v, DeletedInputs(c)).Ok?
    ensures LevelGains(v.files[c.level + 1], CompactedVersion(v, c, outs).files[c.level + 1], c.inputs1, outs)
  {
    var level := c.level + 1;
    var before, after := v.files[level], CompactedVersion(v, c, outs).files[level];
    hide CompactedVersion, Chosen, UniqueNumbers, ApplyDeletes, DeletedInputs, IsOutput;
    forall f ensures f in after <==> (f in before && f !in c.inputs1) || IsOutput(outs, f) {
      OutputLevelMember(v, c, outs, level, f);
    }
  }

  lemma OutputLevelMember(v: Version, c: Compaction, outs: seq<OutputFile>, level: nat, f: FileMeta)
    requires v.Valid() && UniqueNumbers(v) && Chosen(v, c)
    requires c.level + 1 < NUM_LEVELS && ApplyDeletes(v, DeletedInputs(c)).Ok? && level == c.level + 1
    ensures f in CompactedVersion(v, c, outs).files[level] <==> (f in v.files[level] && f !in c.inputs1) || IsOutput(outs, f)
  {
    assert c.level + 1 < |v.files| == |CompactedVersion(v, c, outs).files| by { hide Chosen, UniqueNumbers, ApplyDeletes, DeletedInputs, Metas; }
    hide *;
    CompactedMembers(v, c, outs, level, f);
    TakenAt(c, f);
  }

  lemma TakenAt(c: Compaction, f: FileMeta)
    ensures Taken(c, c.level, f) <==> f in c.inputs0
    ensures Taken(c, c.level + 1, f) <==> f in c.inputs1
  {
  }

  // ----- the tables it writes -----------------------------------------------------------------

  /** Output numbers are consecutive from `first`. */
  ghost predicate Numbered(outs: seq<OutputFile>, first: nat) {
    forall i :: 0 <= i < |outs| ==> outs[i].meta.number == first + i
  }

  lemma {:induction false} WithTablesKeeps(tables: map<nat, seq<Entry>>, outs: seq<OutputFile>, first: nat, n: nat)
    requires Numbered(outs, first) && n < first
    ensures n in WithTables(tables, outs) <==> n in tables
    ensures n in tables ==> WithTables(tables, outs)[n] == tables[n]
    decreases |outs|
  {
    if outs != [] {
      WithTablesKeeps(tables[outs[0].meta.number := outs[0].entries], outs[1..], first + 1, n);
    }
  }

  lemma {:induction false} WithTablesGrows(tables: map<nat, seq<Entry>>, outs: seq<OutputFile>, n: nat)
    requires n in tables
    ensures n in WithTables(tables, outs)
    decreases |outs|
  {
    if outs != [] {
      WithTablesGrows(tables[outs[0].meta.number := outs[0].entries], outs[1..], n);
    }
  }

  lemma {:induction false} WithTablesHas(tables: map<nat, seq<Entry>>, outs: seq<OutputFile>, first: nat, i: nat)
    requires Numbered(outs, first) && i < |outs|
    ensures first + i in WithTables(tables, outs) && WithTables(tables, outs)[first + i] == outs[i].entries
    decreases |outs|
  {
    var tables' := tables[outs[0].meta.number := outs[0].entries];
    if i == 0 {
      WithTablesKeeps(tables', outs[1..], first + 1, first);
    } else {
      WithTablesHas(tables', outs[1..], first + 1, i - 1);
    }
  }

  lemma CompactionTablesGrow(st: Store, outs: seq<OutputFile>, first: nat)
    requires st.version.Valid() && NumbersBelow(st.version, first) && Numbered(outs, first)
    ensures TablesGrow(st, WithTables(st.tables, outs))
  {
    var tables := WithTables(st.tables, outs);
    hide Numbered, WithTables, NumbersBelow;
    forall n | n in st.tables ensures n in tables {
      WithTablesGrows(st.tables, outs, n);
    }
    forall l, f | 0 <= l < NUM_LEVELS && f in st.version.files[l] ensures Contents(tables, f) == Contents(st.tables, f) {
      SameContents(st, outs, first, l, f);
    }
  }

  lemma SameContents(st: Store, outs: seq<OutputFile>, first: nat, l: nat, f: FileMeta)
    requires st.version.Valid() && NumbersBelow(st.version, first) && Numbered(outs, first)
    requires l < NUM_LEVELS && f in st.version.files[l]
    ensures Contents(WithTables(st.tables, outs), f) == Contents(st.tables, f)
  {
    WithTablesKeeps(st.tables, outs, first, f.number);
  }

  /** The lists a compaction may write: a split of a sorted list, cut anywhere. */
  ghost predicate SortedLists(lists: seq<seq<Entry>>) {
    NonEmpty(lists) && Ascending(Flatten(lists))
  }

  lemma OutputFileOk(tables: map<nat, seq<Entry>>, lists: seq<seq<Entry>>, first: nat, opts: Options, i: nat)
    requires SortedLists(lists) && i < |lists|
    ensures var outs := OutputFiles(lists, first, opts);
            var tables' := WithTables(tables, outs);
            FileOk(tables', outs[i].meta) && tables'[outs[i].meta.number] == outs[i].entries
  {
    var outs := OutputFiles(lists, first, opts);
    WithTablesHas(tables, outs, first, i);
    forall x, y | 0 <= x < y < |lists[i]| ensures VersionBefore(lists[i][x], lists[i][y]) {
      OutputOrder(lists, i, x, i, y);
    }
  }

  lemma OutputsAreOk(tables: map<nat, seq<Entry>>, lists: seq<seq<Entry>>, first: nat, opts: Options)
    requires SortedLists(lists)
    ensures OutputsOk(WithTables(tables, OutputFiles(lists, first, opts)), OutputFiles(lists, first, opts), first)
    ensures Numbered(OutputFiles(lists, first, opts), first)
  {
    var outs := OutputFiles(lists, first, opts);
    var tables' := WithTables(tables, outs);
    forall i | 0 <= i < |outs| ensures FileOk(tables', outs[i].meta) && tables'[outs[i].meta.number] == outs[i].entries {
      OutputFileOk(tables, lists, first, opts, i);
    }
    assert Numbered(outs, first);
    hide FileOk, WithTables, OutputFiles, SortedLists, NothingShared;
    forall i, j | 0 <= i < |outs| && 0 <= j < |outs| && i != j ensures NothingShared(tables', outs[i].meta, outs[j].meta) {
      OutputsShareNothing(tables, lists, first, opts, i, j);
    }
    hide *;
    OutputsOkIf(tables', outs, first);
  }

  lemma OutputsShareNothing(tables: map<nat, seq<Entry>>, lists: seq<seq<Entry>>, first: nat, opts: Options, i: nat, j: nat)
    requires SortedLists(lists) && i < |lists| && j < |lists| && i != j
    ensures var outs := OutputFiles(lists, first, opts); NothingShared(WithTables(tables, outs), outs[i].meta, outs[j].meta)
  {
    OrderFacts();
    var outs := OutputFiles(lists, first, opts);
    WithTablesHas(tables, outs, first, i);
    WithTablesHas(tables, outs, first, j);
    hide WithTables, Flatten, Ascending;
    forall a, b | a in lists[i] && b in lists[j] ensures a.Key() != b.Key() || a.Seqno() != b.Seqno() {
      var x :| 0 <= x < |lists[i]| && lists[i][x] == a;
      var y :| 0 <= y < |lists[j]| && lists[j][y] == b;
      if i < j { OutputOrder(lists, i, x, j, y); } else { OutputOrder(lists, j, y, i, x); }
    }
  }

  /** Without a cut inside a key the outputs have ascending ranges. */
  lemma OutputsLieInOrder(lists: seq<seq<Entry>>, first: nat, opts: Options)
    requires SortedLists(lists) && NoCutInsideKey(lists)
    ensures OutputsApart(OutputFiles(lists, first, opts))
  {
    RangesAscendIffNoCutInsideKey(lists);
    var outs := OutputFiles(lists, first, opts);
    forall i, j | 0 <= i < j < |outs| ensures Before2(outs[i].meta, outs[j].meta) {
      assert Before(lists[i][|lists[i]| - 1].Key(), lists[j][0].Key());
    }
    hide Before2, OutputFiles;
  }

  lemma OutputsOkIf(tables: map<nat, seq<Entry>>, outs: seq<OutputFile>, first: nat)
    requires Numbered(outs, first)
    requires forall i :: 0 <= i < |outs| ==> FileOk(tables, outs[i].meta) && tables[outs[i].meta.number] == outs[i].entries
    requires forall i, j :: 0 <= i < |outs| && 0 <= j < |outs| && i != j ==> NothingShared(tables, outs[i].meta, outs[j].meta)
    ensures OutputsOk(tables, outs, first)
  {
    hide FileOk, NothingShared;
  }

  lemma {:induction false} FlattenMembers(lists: seq<seq<Entry>>, e: Entry)
    ensures e in Flatten(lists) <==> exists i :: 0 <= i < |lists| && e in lists[i]
  {
    if lists != [] {
      var n := |lists| - 1;
      FlattenMembers(lists[..n], e);
      if i :| 0 <= i < n && e in lists[..n][i] {
        assert e in lists[i];
      }
      if i :| 0 <= i < |lists| && e in lists[i] {
        assert i < n ==> e in lists[..n][i];
      }
    }
  }

  lemma OutputEntriesAre(lists: seq<seq<Entry>>, first: nat, opts: Options)
    requires NonEmpty(lists)
    ensures OutputEntries(OutputFiles(lists, first, opts)) == SetOf(Flatten(lists))
  {
    var outs := OutputFiles(lists, first, opts);
    forall e ensures e in OutputEntries(outs) <==> e in Flatten(lists) {
      FlattenMembers(lists, e);
      if e in OutputEntries(outs) {
        var o :| o in outs && e in o.entries;
        var i :| 0 <= i < |outs| && outs[i] == o;
        assert e in lists[i];
      }
      if i :| 0 <= i < |lists| && e in lists[i] {
        assert outs[i] in outs && e in outs[i].entries;
      }
    }
  }

  // ----- the invariant ------------------------------------------------------------------------

  /** The lists a compaction of the running engine writes. */
  function ListsOf(db: Db, c: Compaction, opts: Options): seq<seq<Entry>>
    requires db.vs.Valid()
  {
    OutputLists(StoreOf(db), c, OldestSnapshot(db.snapshots), opts)
  }

  /** No cut of the output falls inside a user key. */
  ghost predicate CleanCut(db: Db, c: Compaction, opts: Options)
    requires db.vs.Valid()
  {
    var lists := ListsOf(db, c, opts);
    NonEmpty(lists) && NoCutInsideKey(lists)
  }

  /** No dropped deletion bares an older value, and the new numbers and sizes fit their integers. */
  ghost predicate CanCompact(db: Db, c: Compaction, opts: Options)
    requires db.vs.Valid()
  {
    var lists := ListsOf(db, c, opts);
    && !Bares(StoreOf(db), c, OldestSnapshot(db.snapshots))
    && db.nextNumber + |lists| < U64_LIMIT
    && (forall i :: 0 <= i < |lists| ==> opts.fileSize(lists[i]) < U64_LIMIT)
  }

  /** What every compaction keeps of the running engine, wherever its outputs are cut. */
  ghost predicate Steady(db: Db) {
    && db.vs.Valid()
    && Sound(StoreOf(db)) && NoRepeats(db.vs.current) && NumbersBelow(db.vs.current, db.nextNumber)
  }

  lemma LiveIsSteady(db: Db, tr: Trace)
    requires Live(db, tr)
    ensures Steady(db)
  {
    assert StoreOk(StoreOf(db), tr.layered) && NumbersBelow(db.vs.current, db.nextNumber) && db.vs.Valid();
    hide LayersOk, Sound, ViewsOk, ContentsOk, HistoryOk, NumbersBelow, NoRepeats;
  }

  lemma SteadyParts(db: Db)
    requires Steady(db)
    ensures db.vs.Valid() && Sound(StoreOf(db)) && NoRepeats(db.vs.current) && NumbersBelow(db.vs.current, db.nextNumber)
    ensures UniqueNumbers(db.vs.current)
  {
    hide FilesOk, UniqueNumbers, NothingTwice, MemApart, Ascending, NoRepeats, NumbersBelow;
  }

  /** The lists a compaction writes are a split of the survivors, which the drop rule describes. */
  lemma ListsAreSorted(db: Db, c: Compaction, opts: Options)
    requires Steady(db) && Chosen(db.vs.current, c)
    ensures SortedLists(ListsOf(db, c, opts))
    ensures Flatten(ListsOf(db, c, opts)) == SurvivorsOf(StoreOf(db), c, OldestSnapshot(db.snapshots))
    ensures forall e :: e in SurvivorsOf(StoreOf(db), c, OldestSnapshot(db.snapshots))
                        <==> Survives(InputEntries(StoreOf(db), c), e, OldestSnapshot(db.snapshots), BaseLevelOf(db.vs.current, c.level))
  {
    var oldest := OldestSnapshot(db.snapshots);
    SteadyParts(db);
    hide Steady, Sound, NoRepeats;
    MergedIsSorted(StoreOf(db), c);
    SurvivorsAreSurviving(Merged(StoreOf(db), c), oldest, BaseLevelOf(db.vs.current, c.level));
    OutputsArePartition(SurvivorsOf(StoreOf(db), c, oldest), c.grandparents, opts.estimate);
    hide Chosen, Ascending, Merged, Survives, Survivors, Outputs, InputEntries;
  }

  /** The store after the outputs are written and the edit is committed. */
  function CompactedStore(st: Store, c: Compaction, outs: seq<OutputFile>): Store
    requires st.version.Valid() && c.level + 1 < NUM_LEVELS && ApplyDeletes(st.version, DeletedInputs(c)).Ok?
  {
    Store(CompactedVersion(st.version, c, outs), st.mem, WithTables(st.tables, outs))
  }

  /** Writing a split of some input entries is a compaction step of the store. */
  lemma ListsMakeAStep(st: Store, c: Compaction, lists: seq<seq<Entry>>, next: nat, opts: Options)
    requires Sound(st) && NumbersBelow(st.version, next) && Chosen(st.version, c)
    requires SortedLists(lists)
    requires forall e :: e in Flatten(lists) ==> e in InputEntries(st, c)
    ensures NonEmpty(lists)
    ensures var outs := OutputFiles(lists, next, opts);
            && c.level + 1 < NUM_LEVELS && ApplyDeletes(st.version, DeletedInputs(c)).Ok?
            && Numbered(outs, next)
            && OutputEntries(outs) == SetOf(Flatten(lists))
            && StepOk(st, c, outs, CompactedStore(st, c, outs), next)
  {
    assert NonEmpty(lists);
    hide Sound, Chosen, CompactedTo, OutputsOk, Flatten, OutputFiles, InputEntries, OutputEntries, ApplyDeletes, DeletedInputs, Numbered, CompactedVersion, WithTables,
         NumbersBelow, SortedLists, NonEmpty, UniqueNumbers, TablesGrow;
    var outs := OutputFiles(lists, next, opts);
    SoundParts(st);
    DeletesApply(st.version, c);
    OutputsAreOk(st.tables, lists, next, opts);
    OutputEntriesAre(lists, next, opts);
    CompactionTablesGrow(st, outs, next);
    CommittedIsCompacted(st, c, outs, WithTables(st.tables, outs));
  }

  lemma OutsAre(db: Db, c: Compaction, opts: Options)
    requires db.vs.Valid()
    ensures NonEmpty(ListsOf(db, c, opts)) && CompactionOuts(db, c, opts) == OutputFiles(ListsOf(db, c, opts), db.nextNumber, opts)
  {
    hide SurvivorsOf, Outputs;
    OutputsArePartition(SurvivorsOf(StoreOf(db), c, OldestSnapshot(db.snapshots)), c.grandparents, opts.estimate);
  }

  /** Every compaction of a steady engine is a step of the store that writes exactly the survivors. */
  lemma CompactionIsStep(db: Db, c: Compaction, opts: Options)
    requires Steady(db) && Chosen(db.vs.current, c)
    ensures var outs := CompactionOuts(db, c, opts);
            var st := StoreOf(db);
            && c.level + 1 < NUM_LEVELS && ApplyDeletes(db.vs.current, DeletedInputs(c)).Ok?
            && Numbered(outs, db.nextNumber)
            && OutputEntries(outs) == SetOf(SurvivorsOf(st, c, OldestSnapshot(db.snapshots)))
            && StepOk(st, c, outs, CompactedStore(st, c, outs), db.nextNumber)
  {
    SteadyParts(db);
    hide Steady, Sound, Chosen, CompactionOuts, ListsOf, SurvivorsOf, Survives, InputEntries, OutputEntries, SortedLists, Flatten, StepOk, CompactedStore, ApplyDeletes,
         DeletedInputs, Numbered, NumbersBelow, NoRepeats, UniqueNumbers, OutputFiles;
    ListsAreSorted(db, c, opts);
    SurvivorsAreInputs(db, c);
    OutsAre(db, c, opts);
    ListsMakeAStep(StoreOf(db), c, ListsOf(db, c, opts), db.nextNumber, opts);
  }

  lemma CompactionIsOk(db: Db, c: Compaction, opts: Options)
    requires Steady(db) && LayersOk(StoreOf(db)) && Chosen(db.vs.current, c) && CleanCut(db, c, opts)
    ensures var outs := CompactionOuts(db, c, opts);
            var st := StoreOf(db);
            && c.level + 1 < NUM_LEVELS && ApplyDeletes(db.vs.current, DeletedInputs(c)).Ok?
            && CompactionOk(st, c, outs, CompactedStore(st, c, outs), db.nextNumber)
  {
    var lists := ListsOf(db, c, opts);
    assert NonEmpty(lists) && NoCutInsideKey(lists);
    hide LayersOk, Chosen, CompactionOuts, ListsOf, SurvivorsOf, OutputEntries, SortedLists, StepOk, CompactedStore, ApplyDeletes, DeletedInputs, Numbered,
         Steady, OutputFiles, NoCutInsideKey, OutputsApart, Survives, InputEntries, Flatten;
    CompactionIsStep(db, c, opts);
    ListsAreSorted(db, c, opts);
    OutsAre(db, c, opts);
    OutputsLieInOrder(lists, db.nextNumber, opts);
  }

  lemma SurvivorsAreInputs(db: Db, c: Compaction)
    requires Steady(db) && Chosen(db.vs.current, c)
    ensures forall e :: e in SurvivorsOf(StoreOf(db), c, OldestSnapshot(db.snapshots)) ==> e in InputEntries(StoreOf(db), c)
  {
    SteadyParts(db);
    hide Steady, Sound, NoRepeats, Chosen, Ascending, Merged, Survivors, InputEntries, Shadowed, DeletionGone;
    MergedIsSorted(StoreOf(db), c);
    SurvivorsAreSurviving(Merged(StoreOf(db), c), OldestSnapshot(db.snapshots), BaseLevelOf(db.vs.current, c.level));
  }

  function EditOf(db: Db, c: Compaction, opts: Options): VersionEdit
    requires db.vs.Valid()
  {
    CompactionEdit(c, CompactionOuts(db, c, opts), db.nextNumber + |CompactionOuts(db, c, opts)|)
  }

  predicate Picks(db: Db, c: Compaction)
    requires db.vs.Valid()
  {
    PickCompaction(db.vs.current, db.vs.compactPointers) == Some(c)
  }

  function CompactedState(st: VersionState, db: Db, c: Compaction, opts: Options): VersionState
    requires db.vs.Valid() && c.level + 1 < NUM_LEVELS && ApplyDeletes(db.vs.current, DeletedInputs(c)).Ok?
  {
    var outs := CompactionOuts(db, c, opts);
    VersionState(CompactedVersion(db.vs.current, c, outs), st.logNumber, st.prevLogNumber, db.nextNumber + |outs|,
                 st.lastSequence, SetPointers(st.compactPointers, EditOf(db, c, opts).compactPointers))
  }

  lemma EditApplies(db: Db, c: Compaction, opts: Options)
    requires db.vs.Valid() && Chosen(db.vs.current, c)
    ensures c.level + 1 < NUM_LEVELS && ApplyDeletes(db.vs.current, DeletedInputs(c)).Ok?
    ensures ApplyEdit(db.vs.current, EditOf(db, c, opts)) == Ok(CompactedVersion(db.vs.current, c, CompactionOuts(db, c, opts)))
  {
    hide CompactionOuts, CompactionEdit, CompactedVersion, ApplyDeletes, DeletedInputs, Chosen, ApplyEdit;
    CompactionApplies(db.vs.current, c, CompactionOuts(db, c, opts), db.nextNumber + |CompactionOuts(db, c, opts)|);
  }

  lemma EditScalars(db: Db, c: Compaction, opts: Options)
    requires db.vs.Valid()
    ensures var e := EditOf(db, c, opts);
            && e.logNumber == None && e.prevLogNumber == None && e.lastSequence == None
            && e.nextFileNumber == Some(db.nextNumber + |CompactionOuts(db, c, opts)|)
  {
    hide CompactionOuts, AddedOutputs, DeletedInputs;
  }

  lemma CompactionAdvances(st: VersionState, db: Db, c: Compaction, opts: Options)
    requires db.vs.Valid() && Chosen(db.vs.current, c)
    requires st.Valid() && st.current == db.vs.current
    ensures c.level + 1 < NUM_LEVELS && ApplyDeletes(db.vs.current, DeletedInputs(c)).Ok?
    ensures Advance(st, EditOf(db, c, opts)) == Ok(CompactedState(st, db, c, opts))
  {
    hide EditOf, ApplyEdit, Advance, SetPointers, CompactionOuts, CompactedVersion, ApplyDeletes, DeletedInputs, Chosen;
    EditApplies(db, c, opts);
    EditScalars(db, c, opts);
    AdvanceFields(st, EditOf(db, c, opts), CompactedVersion(db.vs.current, c, CompactionOuts(db, c, opts)));
  }

  lemma AdvanceFields(st: VersionState, e: VersionEdit, v: Version)
    requires st.Valid() && ApplyEdit(st.current, e) == Ok(v)
    ensures Advance(st, e) == Ok(VersionState(v, Or(e.logNumber, st.logNumber), Or(e.prevLogNumber, st.prevLogNumber),
                                              Or(e.nextFileNumber, st.nextFileNumber), Or(e.lastSequence, st.lastSequence),
                                              SetPointers(st.compactPointers, e.compactPointers)))
  {
    hide ApplyEdit, SetPointers;
  }

  lemma CompactFields(db: Db, c: Compaction, opts: Options)
    requires db.vs.Valid() && Picks(db, c)
    ensures Chosen(db.vs.current, c)
    ensures c.level + 1 < NUM_LEVELS && ApplyDeletes(db.vs.current, DeletedInputs(c)).Ok?
    ensures var outs := CompactionOuts(db, c, opts);
            var db' := Compact(db, opts);
            && db'.vs == CompactedState(db.vs, db, c, opts)
            && StoreOf(db') == CompactedStore(StoreOf(db), c, outs)
            && db' == db.(vs := db'.vs, nextNumber := db.nextNumber + |outs|,
                          disk := db.disk.(tables := WithTables(db.disk.tables, outs),
                                           manifest := WithRecord(db.disk.manifest, Manifest.Encode(EditOf(db, c, opts)))))
            && db'.vs.nextFileNumber == db'.nextNumber && db'.vs.lastSequence == db.vs.lastSequence
            && db'.vs.logNumber == db.vs.logNumber
  {
    PickedIsChosen(db.vs.current, db.vs.compactPointers);
    CompactionAdvances(db.vs, db, c, opts);
    CompactUnfolds(db, c, opts);
    hide CompactionOuts, Advance, CompactedVersion, Chosen, ApplyDeletes, DeletedInputs, WithTables, EditOf, WithRecord, Manifest.Encode, Picks, SetPointers, Compact;
  }

  lemma CompactUnfolds(db: Db, c: Compaction, opts: Options)
    requires db.vs.Valid() && Picks(db, c)
    ensures Compact(db, opts)
         == Commit(db.(disk := db.disk.(tables := WithTables(db.disk.tables, CompactionOuts(db, c, opts)))), EditOf(db, c, opts))
            .(nextNumber := db.nextNumber + |CompactionOuts(db, c, opts)|)
  {
    hide CompactionOuts, WithTables, PickCompaction, Commit, CompactionEdit;
  }

  /** Entries the drop rule calls old are visible to every reader that may still come. */
  lemma OldIsVisible(db: Db, tr: Trace, s: nat)
    requires Live(db, tr) && Readable(db, s)
    ensures forall e :: e in Stored(StoreOf(db)) && e.Seqno() <= OldestSnapshot(db.snapshots) ==> e.Seqno() <= s
  {
  }

  lemma CompactViews(db: Db, tr: Trace, c: Compaction, opts: Options)
    requires Live(db, tr) && Picks(db, c) && CanCompact(db, c, opts)
    ensures Compact(db, opts).vs.Valid() && ViewsOk(Compact(db, opts), tr.hist)
  {
    var db' := Compact(db, opts);
    CompactFields(db, c, opts);
    assert ViewsOk(db, tr.hist) && !Bares(StoreOf(db), c, OldestSnapshot(db.snapshots));
    hide Live, Bares, Compact, CompactedStore, Picks, CanCompact, Chosen, View, Stored, CompactionOuts, Advance, ApplyDeletes, DeletedInputs, EditOf, WithTables, WithRecord, Manifest.Encode;
    forall k, s | Readable(db', s) ensures View(Stored(StoreOf(db')), k, s) == View(SetOf(tr.hist), k, s) {
      assert Readable(db, s);
      CompactKeepsView(db, tr, c, opts, k, s);
    }
  }

  /** What a compaction writes is what the drop rule leaves for the oldest reader. */
  lemma WritesSurvivors(db: Db, c: Compaction, opts: Options)
    requires Steady(db) && Picks(db, c)
    ensures db.vs.Valid() && KeepsSurvivors(StoreOf(db), c, CompactionOuts(db, c, opts), OldestSnapshot(db.snapshots))
  {
    assert db.vs.Valid() ==> StoreOf(db).version.Valid();
    hide *;
    SteadyParts(db);
    CompactFields(db, c, opts);
    CompactionIsStep(db, c, opts);
    ListsAreSorted(db, c, opts);
    SurvivorsAreKept(db, c, CompactionOuts(db, c, opts), SurvivorsOf(StoreOf(db), c, OldestSnapshot(db.snapshots)), OldestSnapshot(db.snapshots));
  }

  lemma SurvivorsAreKept(db: Db, c: Compaction, outs: seq<OutputFile>, survivors: seq<Entry>, oldest: nat)
    requires db.vs.Valid() && OutputEntries(outs) == SetOf(survivors)
    requires forall e :: e in survivors <==> Survives(InputEntries(StoreOf(db), c), e, oldest, BaseLevelOf(db.vs.current, c.level))
    ensures KeepsSurvivors(StoreOf(db), c, outs, oldest)
  {
    hide Survives, InputEntries, OutputEntries;
  }

  /** Compaction preserves meaning: unless a dropped deletion bares an older value, every readable snapshot sees each key as before. */
  lemma CompactKeepsView(db: Db, tr: Trace, c: Compaction, opts: Options, k: Bytes, s: nat)
    requires Live(db, tr) && Picks(db, c) && Readable(db, s) && db.vs.Valid() && !Bares(StoreOf(db), c, OldestSnapshot(db.snapshots))
    ensures Compact(db, opts).vs.Valid()
    ensures View(Stored(StoreOf(Compact(db, opts))), k, s) == View(Stored(StoreOf(db)), k, s)
  {
    OldIsVisible(db, tr, s);
    hide *;
    LiveIsSteady(db, tr);
    CompactFields(db, c, opts);
    WritesSurvivors(db, c, opts);
    CompactKeepsSteady(db, c, opts);
    SteadyParts(Compact(db, opts));
    CompactionKeepsViews(StoreOf(db), c, CompactionOuts(db, c, opts), StoreOf(Compact(db, opts)), db.nextNumber, OldestSnapshot(db.snapshots), k, s);
  }

  /** And that is exact: all readable views are kept if and only if nothing is bared. */
  lemma CompactKeepsViewsIff(db: Db, tr: Trace, c: Compaction, opts: Options)
    requires Live(db, tr) && Picks(db, c) && db.vs.Valid()
    ensures Compact(db, opts).vs.Valid()
    ensures (forall k, s :: Readable(db, s) ==> View(Stored(StoreOf(Compact(db, opts))), k, s) == View(Stored(StoreOf(db)), k, s))
            <==> !Bares(StoreOf(db), c, OldestSnapshot(db.snapshots))
  {
    var s0 := FirstReadable(db, tr);
    hide *;
    LiveIsSteady(db, tr);
    CompactFields(db, c, opts);
    WritesSurvivors(db, c, opts);
    CompactKeepsSteady(db, c, opts);
    SteadyParts(Compact(db, opts));
    CompactionKeepsViewsIff(StoreOf(db), c, CompactionOuts(db, c, opts), StoreOf(Compact(db, opts)), db.nextNumber, OldestSnapshot(db.snapshots), s0);
  }

  /** The least readable snapshot sees just what the drop rule calls old. */
  lemma FirstReadable(db: Db, tr: Trace) returns (s0: nat)
    requires Live(db, tr)
    ensures forall s: nat :: Readable(db, s) <==> s >= s0
    ensures forall e :: e in Stored(StoreOf(db)) ==> (e.Seqno() <= OldestSnapshot(db.snapshots) <==> e.Seqno() <= s0)
  {
    s0 := if db.snapshots == [] then db.vs.lastSequence else Smallest(db.snapshots);
    StoredIsHistory(db, tr);
    hide StoreOk, NoRepeats, HistoryOk, ContentsOk, ViewsOk, NumbersBelow, Stored;
  }

  /** With the layers in order nothing is ever bared. */
  lemma LayeredBaresNothing(db: Db, tr: Trace, c: Compaction)
    requires Live(db, tr) && tr.layered && Picks(db, c)
    ensures db.vs.Valid() && !Bares(StoreOf(db), c, OldestSnapshot(db.snapshots))
  {
    assert db.vs.Valid() && LayersOk(StoreOf(db));
    PickedIsChosen(db.vs.current, db.vs.compactPointers);
    assert StoreOf(db).version == db.vs.current;
    assert Chosen(db.vs.current, c);
    hide *;
    LayersBareNothing(StoreOf(db), c, OldestSnapshot(db.snapshots));
  }

  /** What a compaction makes of the history: one more edit, and layers no longer in order if it cuts inside a key. */
  ghost function AfterCompaction(db: Db, tr: Trace, c: Compaction, opts: Options): Trace
    requires db.vs.Valid()
  {
    tr.(edits := tr.edits + [EditOf(db, c, opts)], layered := tr.layered && CleanCut(db, c, opts))
  }

  lemma CompactStoreOk(db: Db, tr: Trace, c: Compaction, opts: Options)
    requires Live(db, tr) && Picks(db, c)
    ensures db.vs.Valid() && Compact(db, opts).vs.Valid()
    ensures StoreOk(StoreOf(Compact(db, opts)), tr.layered && CleanCut(db, c, opts))
  {
    assert db.vs.Valid() && (tr.layered ==> LayersOk(StoreOf(db)));
    LiveIsSteady(db, tr);
    hide *;
    CompactFields(db, c, opts);
    CompactKeepsSteady(db, c, opts);
    SteadyParts(Compact(db, opts));
    if tr.layered && CleanCut(db, c, opts) {
      CleanCutKeepsLayers(db, c, opts);
      LayersAreOk(StoreOf(Compact(db, opts)), true);
    } else {
      SoundIsOk(StoreOf(Compact(db, opts)));
    }
  }

  lemma SoundIsOk(st: Store)
    requires Sound(st)
    ensures StoreOk(st, false)
  {
    hide Sound;
  }

  lemma CleanCutKeepsLayers(db: Db, c: Compaction, opts: Options)
    requires Steady(db) && Picks(db, c) && LayersOk(StoreOf(db)) && db.vs.Valid() && CleanCut(db, c, opts)
    ensures Compact(db, opts).vs.Valid() && LayersOk(StoreOf(Compact(db, opts)))
  {
    hide *;
    CompactFields(db, c, opts);
    CompactKeepsSteady(db, c, opts);
    SteadyParts(Compact(db, opts));
    CompactionIsOk(db, c, opts);
    CompactionKeepsLayers(StoreOf(db), c, CompactionOuts(db, c, opts), StoreOf(Compact(db, opts)), db.nextNumber);
  }

  lemma CompactedTableEntries(db: Db, c: Compaction, opts: Options)
    requires Steady(db) && Picks(db, c) && db.vs.Valid()
    ensures Compact(db, opts).vs.Valid()
    ensures forall e :: e in EntriesOf(Compact(db, opts).disk.tables, AllFiles(Compact(db, opts).vs.current))
                        ==> e in EntriesOf(db.disk.tables, AllFiles(db.vs.current))
  {
    var db' := Compact(db, opts);
    CompactKeepsSteady(db, c, opts);
    SteadyParts(db');
    assert StoreOf(db').version == db'.vs.current && StoreOf(db').tables == db'.disk.tables && StoreOf(db).version == db.vs.current && StoreOf(db).tables == db.disk.tables;
    hide *;
    forall e | e in EntriesOf(db'.disk.tables, AllFiles(db'.vs.current)) ensures e in EntriesOf(db.disk.tables, AllFiles(db.vs.current)) {
      CompactedEntries(StoreOf(db), c, CompactionOuts(db, c, opts), StoreOf(db'), db.nextNumber, e);
    }
  }

  /** A compaction keeps the engine steady, wherever its outputs are cut, and is a step of its store. */
  lemma CompactKeepsSteady(db: Db, c: Compaction, opts: Options)
    requires Steady(db) && Picks(db, c)
    ensures Steady(Compact(db, opts))
    ensures StepOk(StoreOf(db), c, CompactionOuts(db, c, opts), StoreOf(Compact(db, opts)), db.nextNumber)
  {
    SteadyParts(db);
    CompactFields(db, c, opts);
    CompactionIsStep(db, c, opts);
    var outs := CompactionOuts(db, c, opts);
    var st' := CompactedStore(StoreOf(db), c, outs);
    assert st'.version == CompactedVersion(db.vs.current, c, outs);
    hide Steady, Compact, Picks, CompactionOuts, ApplyDeletes, DeletedInputs, WithTables, EditOf, NoRepeats, NumbersBelow, Chosen, Numbered, CompactedVersion, CompactedStore, StepOk,
         Sound, UniqueNumbers, CompactedState, SurvivorsOf, OutputEntries;
    CompactedNoRepeats(db.vs.current, c, outs, db.nextNumber);
    CompactionKeepsSound(StoreOf(db), c, outs, st', db.nextNumber);
    SteadyIf(Compact(db, opts));
  }

  lemma SteadyIf(db: Db)
    requires db.vs.Valid() && Sound(StoreOf(db)) && NoRepeats(db.vs.current) && NumbersBelow(db.vs.current, db.nextNumber)
    ensures Steady(db)
  {
    hide Sound, NoRepeats, NumbersBelow;
  }

  lemma CompactNoRepeats(db: Db, tr: Trace, c: Compaction, opts: Options)
    requires Live(db, tr) && Picks(db, c)
    ensures Compact(db, opts).vs.Valid() && NoRepeats(Compact(db, opts).vs.current)
    ensures NumbersBelow(Compact(db, opts).vs.current, Compact(db, opts).nextNumber)
  {
    hide Live, Picks, Compact, Steady, StepOk, NoRepeats, NumbersBelow;
    LiveIsSteady(db, tr);
    SteadyParts(db);
    CompactKeepsSteady(db, c, opts);
    SteadyParts(Compact(db, opts));
  }

  lemma CompactedNoRepeats(v: Version, c: Compaction, outs: seq<OutputFile>, next: nat)
    requires v.Valid() && UniqueNumbers(v) && Chosen(v, c) && NoRepeats(v) && NumbersBelow(v, next) && Numbered(outs, next)
    requires c.level + 1 < NUM_LEVELS && ApplyDeletes(v, DeletedInputs(c)).Ok?
    ensures NoRepeats(CompactedVersion(v, c, outs))
    ensures NumbersBelow(CompactedVersion(v, c, outs), next + |outs|)
  {
    var w := ApplyDeletes(v, DeletedInputs(c)).value;
    var level := c.level + 1;
    assert CompactedVersion(v, c, outs) == Version(w.files[level := w.files[level] + Metas(outs)]);
    DeletesKeepNoRepeats(v, DeletedInputs(c));
    RemainingBelow(v, c, next);
    MetasNumbers(outs, next);
    assert w.Valid() && level < NUM_LEVELS;
    hide *;
    AddFreshFiles(w, level, Metas(outs), next, |outs|);
  }

  lemma RemainingBelow(v: Version, c: Compaction, next: nat)
    requires v.Valid() && UniqueNumbers(v) && Chosen(v, c) && NumbersBelow(v, next)
    requires ApplyDeletes(v, DeletedInputs(c)).Ok?
    ensures NumbersBelow(ApplyDeletes(v, DeletedInputs(c)).value, next)
  {
    var w := ApplyDeletes(v, DeletedInputs(c)).value;
    hide Chosen, ApplyDeletes, DeletedInputs, UniqueNumbers;
    forall l: nat, f | l < NUM_LEVELS && f in w.files[l] ensures f.number < next {
      LevelAfterDeletes(v, c, l, f);
    }
  }

  lemma AddFreshFiles(w: Version, level: nat, metas: seq<FileMeta>, next: nat, count: nat)
    requires w.Valid() && level < NUM_LEVELS && NoRepeats(w) && NumbersBelow(w, next) && NumbersDistinct(metas)
    requires forall f :: f in metas ==> next <= f.number < next + count
    ensures var v := Version(w.files[level := w.files[level] + metas]);
            NoRepeats(v) && NumbersBelow(v, next + count)
  {
  }

  lemma {:induction false} MetasNumbers(outs: seq<OutputFile>, next: nat)
    requires Numbered(outs, next)
    ensures NumbersDistinct(Metas(outs))
    ensures forall f :: f in Metas(outs) ==> next <= f.number < next + |outs|
    decreases |outs|
  {
    if outs != [] {
      MetasNumbers(outs[1..], next + 1);
      DistinctCons(outs[0].meta, Metas(outs[1..]));
    }
  }

  lemma CompactCounters(db: Db, tr: Trace, c: Compaction, opts: Options)
    requires Live(db, tr) && Picks(db, c) && CanCompact(db, c, opts)
    ensures Compact(db, opts).vs.Valid() && CountersOk(Compact(db, opts), tr)
  {
    hide StoreOk, NoRepeats, HistoryOk, ContentsOk, ViewsOk, Compact, Picks, CompactionOuts, CompactedVersion, CanCompact, ApplyDeletes, DeletedInputs, WithTables,
         EditOf, NumbersBelow, SetPointers;
    CompactFields(db, c, opts);
    CompactNoRepeats(db, tr, c, opts);
    NumbersFit(db, c, opts);
  }

  lemma NumbersFit(db: Db, c: Compaction, opts: Options)
    requires db.vs.Valid() && CanCompact(db, c, opts)
    ensures db.nextNumber + |CompactionOuts(db, c, opts)| < U64_LIMIT
  {
    hide OutputLists;
    assert |CompactionOuts(db, c, opts)| == |ListsOf(db, c, opts)|;
  }

  lemma CompactContents(db: Db, tr: Trace, c: Compaction, opts: Options)
    requires Live(db, tr) && Picks(db, c)
    ensures Compact(db, opts).vs.Valid() && ContentsOk(Compact(db, opts), tr)
  {
    assert ContentsOk(db, tr);
    LiveIsSteady(db, tr);
    hide Live, Steady, Compact, Picks, CompactionOuts, ListsOf, ApplyDeletes, DeletedInputs, WithTables, EditOf, Chosen, CompactedVersion, CompactedState, AllFiles, EntriesOf;
    CompactFields(db, c, opts);
    CompactedTableEntries(db, c, opts);
  }

  /** A compaction keeps the in-memory invariant. */
  lemma CompactKeepsLive(db: Db, tr: Trace, c: Compaction, opts: Options)
    requires Live(db, tr) && Picks(db, c) && db.vs.Valid() && CanCompact(db, c, opts)
    ensures Live(Compact(db, opts), AfterCompaction(db, tr, c, opts))
  {
    assert HistoryOk(tr.hist);
    AfterIs(db, tr, c, opts);
    hide *;
    CompactStoreOk(db, tr, c, opts);
    CompactNoRepeats(db, tr, c, opts);
    CompactCounters(db, tr, c, opts);
    CompactContents(db, tr, c, opts);
    CompactViews(db, tr, c, opts);
    LiveIf(Compact(db, opts), tr, AfterCompaction(db, tr, c, opts));
  }

  lemma AfterIs(db: Db, tr: Trace, c: Compaction, opts: Options)
    requires db.vs.Valid()
    ensures var t := AfterCompaction(db, tr, c, opts);
            t.hist == tr.hist && t.flushed == tr.flushed && t.layered == (tr.layered && CleanCut(db, c, opts))
  {
    hide EditOf, CleanCut;
  }

  lemma LiveIf(db: Db, a: Trace, b: Trace)
    requires db.vs.Valid() && StoreOk(StoreOf(db), b.layered) && NoRepeats(db.vs.current) && HistoryOk(a.hist)
    requires CountersOk(db, a) && ContentsOk(db, a) && ViewsOk(db, a.hist) && b.hist == a.hist && b.flushed == a.flushed
    ensures Live(db, b)
  {
    hide StoreOk, NoRepeats, HistoryOk, ViewsOk, InsertAll, AllFiles, EntriesOf, NumbersBelow;
  }

  // ----- the durable half ---------------------------------------------------------------------

  lemma OutputFits(db: Db, tr: Trace, c: Compaction, opts: Options, i: nat)
    requires Live(db, tr) && Chosen(db.vs.current, c) && CanCompact(db, c, opts)
    requires i < |CompactionOuts(db, c, opts)|
    ensures FitsMeta(CompactionOuts(db, c, opts)[i].meta)
  {
    assert db.vs.Valid();
    hide Live, Chosen, CanCompact, CompactionOuts, ListsOf, FitsMeta, FitsEntry;
    var es := OutputAt(db, c, opts, i);
    var o := CompactionOuts(db, c, opts)[i];
    assert o in CompactionOuts(db, c, opts);
    assert es[0] in es && es[|es| - 1] in es;
    OutputEntryFits(db, tr, c, opts, o, es[0]);
    OutputEntryFits(db, tr, c, opts, o, es[|es| - 1]);
    MetaFits(db.nextNumber + i, es, opts);
  }

  lemma OutputAt(db: Db, c: Compaction, opts: Options, i: nat) returns (es: seq<Entry>)
    requires db.vs.Valid() && CanCompact(db, c, opts) && i < |CompactionOuts(db, c, opts)|
    ensures es != [] && CompactionOuts(db, c, opts)[i] == OutputFile(MetaOf(db.nextNumber + i, es, opts), es)
    ensures opts.fileSize(es) < U64_LIMIT && db.nextNumber + i < U64_LIMIT
  {
    OutsAre(db, c, opts);
    hide OutputLists, MetaOf, CompactionOuts, ListsOf, Bares;
    assert db.nextNumber + |ListsOf(db, c, opts)| < U64_LIMIT;
    es := ListsOf(db, c, opts)[i];
  }

  lemma MetaFits(number: nat, es: seq<Entry>, opts: Options)
    requires es != [] && number < U64_LIMIT && opts.fileSize(es) < U64_LIMIT
    requires FitsEntry(es[0]) && FitsEntry(es[|es| - 1])
    ensures FitsMeta(MetaOf(number, es, opts))
  {
  }

  lemma OutputEntryFits(db: Db, tr: Trace, c: Compaction, opts: Options, o: OutputFile, e: Entry)
    requires Live(db, tr) && Chosen(db.vs.current, c) && CanCompact(db, c, opts)
    requires o in CompactionOuts(db, c, opts) && e in o.entries
    ensures FitsEntry(e)
  {
    assert e in OutputEntries(CompactionOuts(db, c, opts));
    LiveIsSteady(db, tr);
    SteadyParts(db);
    CompactionIsStep(db, c, opts);
    SurvivorsAreInputs(db, c);
    StoredSplits(StoreOf(db), c);
    StoredIsHistory(db, tr);
    HistoryIsDistinct(tr.hist);
    hide Live, Steady, Chosen, CanCompact, CompactionOuts, StepOk, OutputEntries, InputEntries, FitsEntry, SurvivorsOf, Stored;
    assert e in SetOf(SurvivorsOf(StoreOf(db), c, OldestSnapshot(db.snapshots)));
    assert e in InputEntries(StoreOf(db), c);
    assert e in Stored(StoreOf(db));
  }

  /** Every file an edit deletes is an input, named by its own number. */
  lemma DeletedFromInput(c: Compaction, i: nat) returns (f: FileMeta)
    requires i < |DeletedInputs(c)|
    ensures f in Inputs(c) && DeletedInputs(c)[i].number == f.number && DeletedInputs(c)[i].level <= c.level + 1
  {
    f := if i < |c.inputs0| then c.inputs0[i] else c.inputs1[i - |c.inputs0|];
    assert f in c.inputs0 || f in c.inputs1;
  }

  lemma NextNumberFits(db: Db, tr: Trace, c: Compaction)
    requires Live(db, tr) && Chosen(db.vs.current, c)
    ensures db.vs.current.Valid() && NumbersBelow(db.vs.current, db.nextNumber)
    ensures db.nextNumber < U64_LIMIT && c.level + 1 < NUM_LEVELS
  {
  }

  lemma DeletedFits(db: Db, tr: Trace, c: Compaction, i: nat)
    requires Live(db, tr) && Chosen(db.vs.current, c) && i < |DeletedInputs(c)|
    ensures FitsField(DeletedFileField(DeletedInputs(c)[i]))
  {
    hide Live, Chosen, DeletedInputs, NumbersBelow, Inputs;
    NextNumberFits(db, tr, c);
    var f := DeletedFromInput(c, i);
    InputBelow(db.vs.current, c, f, db.nextNumber);
  }

  lemma InputBelow(v: Version, c: Compaction, f: FileMeta, next: nat)
    requires v.Valid() && Chosen(v, c) && NumbersBelow(v, next) && f in Inputs(c)
    ensures f.number < next
  {
    InputsAreFiles(v, c, f);
    hide Chosen;
  }

  lemma CompactEditFits(db: Db, tr: Trace, c: Compaction, opts: Options)
    requires Live(db, tr) && Chosen(db.vs.current, c) && CanCompact(db, c, opts)
    ensures Fits(EditOf(db, c, opts))
  {
    var outs := CompactionOuts(db, c, opts);
    var next := db.nextNumber + |outs|;
    assert next < U64_LIMIT && c.level + 1 < NUM_LEVELS by {
      assert |outs| == |ListsOf(db, c, opts)|;
    }
    hide Live, Chosen, CanCompact, CompactionOuts, DeletedInputs, FitsMeta, FitsField, CompactionEdit, Fits;
    forall i | 0 <= i < |DeletedInputs(c)| ensures FitsField(DeletedFileField(DeletedInputs(c)[i])) {
      DeletedFits(db, tr, c, i);
    }
    forall i | 0 <= i < |outs| ensures FitsMeta(outs[i].meta) {
      OutputFits(db, tr, c, opts, i);
    }
    EditFits(c, outs, next);
  }

  lemma EditFits(c: Compaction, outs: seq<OutputFile>, next: nat)
    requires next < U64_LIMIT && c.level + 1 < NUM_LEVELS
    requires forall i :: 0 <= i < |DeletedInputs(c)| ==> FitsField(DeletedFileField(DeletedInputs(c)[i]))
    requires forall i :: 0 <= i < |outs| ==> FitsMeta(outs[i].meta)
    ensures Fits(CompactionEdit(c, outs, next))
  {
    hide DeletedInputs;
  }

  lemma CompactKeepsClean(db: Db, tr: Trace, c: Compaction, opts: Options)
    requires Live(db, tr) && Clean(db, tr) && Picks(db, c) && CanCompact(db, c, opts)
    ensures Clean(Compact(db, opts), AfterCompaction(db, tr, c, opts))
  {
    assert ManifestOk(db, tr) && db.vs.Valid() && Chosen(db.vs.current, c) && db.vs.(lastSequence := tr.flushed).Valid() by {
      PickedIsChosen(db.vs.current, db.vs.compactPointers);
      hide Live, Chosen, PickCompaction, ManifestOk;
    }
    AfterIs(db, tr, c, opts);
    CompactLeavesLogs(db, tr, c, opts);
    CompactEditFits(db, tr, c, opts);
    CompactLogsEdit(db, tr, c, opts);
    hide Live, Compact, Picks, CanCompact, Chosen, EditOf, AfterCompaction, ManifestOk, LogOf;
  }

  lemma CompactLeavesLogs(db: Db, tr: Trace, c: Compaction, opts: Options)
    requires Live(db, tr) && Clean(db, tr) && Picks(db, c)
    ensures LogsOk(Compact(db, opts).disk, Compact(db, opts).walNumber, tr.hist[tr.flushed..], Compact(db, opts).nextNumber)
  {
    CompactFields(db, c, opts);
    assert LogsOk(db.disk, db.walNumber, tr.hist[tr.flushed..], db.nextNumber);
    hide Live, Clean, Compact, Picks, Chosen, CompactedState, EditOf, CompactionOuts, ApplyDeletes, DeletedInputs, WithTables, WithRecord, Manifest.Encode, LogOf;
  }

  lemma CompactLogsEdit(db: Db, tr: Trace, c: Compaction, opts: Options)
    requires db.vs.Valid() && ManifestOk(db, tr) && Picks(db, c) && Fits(EditOf(db, c, opts))
    ensures ManifestOk(Compact(db, opts), tr.(edits := tr.edits + [EditOf(db, c, opts)]))
  {
    var st := db.vs.(lastSequence := tr.flushed);
    assert st.Valid() && st.current == db.vs.current;
    hide Compact, Picks, Chosen, EditOf, CompactionOuts, ApplyDeletes, DeletedInputs, WithTables, CompactedVersion, Fits, ManifestOk, Manifest.Encode, WithRecord, Advance, SetPointers;
    CompactFields(db, c, opts);
    CompactionAdvances(st, db, c, opts);
    assert CompactedState(st, db, c, opts) == Compact(db, opts).vs.(lastSequence := tr.flushed);
    hide CompactedState;
    ManifestNext(db, Compact(db, opts), tr, EditOf(db, c, opts));
  }

  /** Logging an edit that leads from one state to the next keeps the manifest in step. */
  lemma ManifestNext(db: Db, db': Db, tr: Trace, e: VersionEdit)
    requires ManifestOk(db, tr) && Fits(e) && db.vs.(lastSequence := tr.flushed).Valid()
    requires Advance(db.vs.(lastSequence := tr.flushed), e) == Ok(db'.vs.(lastSequence := tr.flushed))
    requires db'.disk.manifest == WithRecord(db.disk.manifest, Manifest.Encode(e))
    ensures ManifestOk(db', tr.(edits := tr.edits + [e]))
  {
    hide Fits, ManifestOf, Manifest.Encode, WithRecord, Advance, Replay;
    FitsAppend(tr.edits, e);
    ManifestGrows(tr.edits, e);
    ReplayNext(tr.edits, db.vs.(lastSequence := tr.flushed), e, db'.vs.(lastSequence := tr.flushed));
  }

  /** A compaction logs one edit and keeps the invariant, provided it bares nothing; the layers stay in order if it does not cut inside a key. */
  lemma CompactIsOk(db: Db, tr: Trace, c: Compaction, opts: Options)
    requires Inv(db, tr) && Picks(db, c) && CanCompact(db, c, opts)
    ensures Inv(Compact(db, opts), AfterCompaction(db, tr, c, opts))
  {
    CompactKeepsLive(db, tr, c, opts);
    CompactKeepsClean(db, tr, c, opts);
    hide Live, Clean, Compact, Picks, CanCompact, EditOf, CleanCut;
  }

  /** With no live snapshot the output is never cut inside a user key. */
  lemma NoSnapshotMeansCleanCuts(db: Db, tr: Trace, c: Compaction, opts: Options)
    requires Live(db, tr) && Picks(db, c) && db.snapshots == []
    ensures var lists := ListsOf(db, c, opts); NonEmpty(lists) && NoCutInsideKey(lists)
  {
    PickedIsChosen(db.vs.current, db.vs.compactPointers);
    LiveIsSteady(db, tr);
    SteadyParts(db);
    MergedIsSorted(StoreOf(db), c);
    StoredSplits(StoreOf(db), c);
    StoredIsHistory(db, tr);
    assert |tr.hist| <= MAX_SEQUENCE;
    hide Live, Steady, Picks, Chosen, Merged, Stored, InputEntries;
    forall e | e in Merged(StoreOf(db), c) ensures e.Seqno() <= MAX_SEQUENCE {
      assert e in InputEntries(StoreOf(db), c);
      assert e in Stored(StoreOf(db));
    }
    NoSnapshotNoCutInsideKey(Merged(StoreOf(db), c), MAX_SEQUENCE, BaseLevelOf(db.vs.current, c.level), c.grandparents, opts.estimate);
  }
}
