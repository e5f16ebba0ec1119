/** Range scans over the whole store, and the compaction loop, both fed by a merge of sorted sources. */
module Scans {
  import opened ByteStrings
  import opened InternalKeys
  import opened VersionedEntries
  import opened Manifest
  import opened Versions
  import opened Compactions
  import opened CompactionOutputs
  import opened Sorting
  import opened Iterators
  import opened Stores
  import opened MemTables
  import opened Engine
  import opened Invariants
  import opened CompactionSteps

  // ----- the sources --------------------------------------------------------------------------

  function ContentsOf(tables: map<nat, seq<Entry>>, files: seq<FileMeta>): (r: seq<seq<Entry>>)
    ensures |r| == |files| && forall i :: 0 <= i < |files| ==> r[i] == Contents(tables, files[i])
  {
    if files == [] then [] else [Contents(tables, files[0])] + ContentsOf(tables, files[1..])
  }

  lemma {:induction false} ConcatContents(tables: map<nat, seq<Entry>>, files: seq<FileMeta>)
    ensures Concat(ContentsOf(tables, files)) == AllContents(tables, files)
  {
    if files != [] {
      ConcatContents(tables, files[1..]);
      assert ContentsOf(tables, files)[1..] == ContentsOf(tables, files[1..]);
    }
  }

  /** All files, level by level. */
  function FilesFrom(v: Version, level: nat): seq<FileMeta>
    requires v.Valid() && level <= NUM_LEVELS
    decreases NUM_LEVELS - level
  {
    if level == NUM_LEVELS then [] else v.files[level] + FilesFrom(v, level + 1)
  }

  lemma {:induction false} FilesFromMembers(v: Version, level: nat, f: FileMeta)
    requires v.Valid() && level <= NUM_LEVELS
    ensures f in FilesFrom(v, level) <==> exists l :: level <= l < NUM_LEVELS && f in v.files[l]
    decreases NUM_LEVELS - level
  {
    if level < NUM_LEVELS {
      FilesFromMembers(v, level + 1, f);
    }
  }

  lemma {:induction false} FilesFromDistinct(v: Version, level: nat)
    requires v.Valid() && level <= NUM_LEVELS && NoRepeats(v) && UniqueNumbers(v)
    ensures NumbersDistinct(FilesFrom(v, level))
    decreases NUM_LEVELS - level
  {
    hide NumbersDistinct, UniqueNumbers;
    if level < NUM_LEVELS {
      FilesFromDistinct(v, level + 1);
      assert NumbersDistinct(v.files[level]);
      forall f, g | f in v.files[level] && g in FilesFrom(v, level + 1) ensures f.number != g.number {
        FilesFromMembers(v, level + 1, g);
        DifferentLevels(v, level, f, g);
      }
      DistinctAppend(v.files[level], FilesFrom(v, level + 1));
    } else {
      NoneDistinct();
    }
  }

  lemma NoneDistinct()
    ensures NumbersDistinct([])
  {
  }

  lemma DifferentLevels(v: Version, level: nat, f: FileMeta, g: FileMeta)
    requires v.Valid() && UniqueNumbers(v) && level < NUM_LEVELS && f in v.files[level]
    requires exists l :: level + 1 <= l < NUM_LEVELS && g in v.files[l]
    ensures f.number != g.number
  {
  }

  /** The sources of a scan at `s`: the visible memtable entries and every table. */
  function Sources(st: Store, s: nat): seq<seq<Entry>>
    requires st.version.Valid()
  {
    (if VisibleUpTo(st.mem, s) != [] then [VisibleUpTo(st.mem, s)] else []) + ContentsOf(st.tables, FilesFrom(st.version, 0))
  }

  lemma ConcatSources(st: Store, s: nat)
    requires st.version.Valid()
    ensures Concat(Sources(st, s)) == VisibleUpTo(st.mem, s) + AllContents(st.tables, FilesFrom(st.version, 0))
  {
    ConcatContents(st.tables, FilesFrom(st.version, 0));
    var rest := ContentsOf(st.tables, FilesFrom(st.version, 0));
    if VisibleUpTo(st.mem, s) != [] {
      assert ([VisibleUpTo(st.mem, s)] + rest)[1..] == rest;
    } else {
      assert [] + rest == rest;
    }
  }

  lemma {:induction false} VisibleUpToAscends(es: seq<Entry>, s: nat)
    requires Ascending(es)
    ensures Ascending(VisibleUpTo(es, s))
  {
    if es != [] {
      FirstKeyIsLeast(es);
      VisibleUpToAscends(es[1..], s);
      hide VersionBefore;
      assert forall x :: x in VisibleUpTo(es[1..], s) ==> VersionBefore(es[0], x);
      AscendingCons(es[0], VisibleUpTo(es[1..], s));
      assert [] + VisibleUpTo(es[1..], s) == VisibleUpTo(es[1..], s);
    }
  }

  lemma AscendingIsInOrder(es: seq<Entry>)
    requires Ascending(es)
    ensures InOrder(es)
  {
    OrderFacts();
    forall i, j | 0 <= i < j < |es| ensures !VersionBefore(es[j], es[i]) {
      assert VersionBefore(es[i], es[j]);
    }
  }

  lemma FileIsListed(st: Store, f: FileMeta)
    requires Sound(st) && f in FilesFrom(st.version, 0)
    ensures f in AllFiles(st.version) && FileOk(st.tables, f) && Ascending(Contents(st.tables, f))
  {
    hide Sound, FilesFrom;
    SoundParts(st);
    FilesFromMembers(st.version, 0, f);
    FileIsOk(st, f);
  }

  lemma SourcesInOrder(st: Store, s: nat)
    requires Sound(st)
    ensures forall i :: 0 <= i < |Sources(st, s)| ==> InOrder(Sources(st, s)[i])
  {
    hide Sound, Ascending, InOrder, FilesFrom, VisibleUpTo, ContentsOf, Contents;
    SoundParts(st);
    VisibleUpToAscends(st.mem, s);
    AscendingIsInOrder(VisibleUpTo(st.mem, s));
    var files := FilesFrom(st.version, 0);
    forall i | 0 <= i < |files| ensures InOrder(ContentsOf(st.tables, files)[i]) {
      FileIsListed(st, files[i]);
      AscendingIsInOrder(Contents(st.tables, files[i]));
    }
  }

  lemma AllFilesShareNothing(st: Store)
    requires Sound(st) && NoRepeats(st.version)
    ensures PairwiseNothingShared(st.tables, FilesFrom(st.version, 0))
  {
    SoundParts(st);
    FilesFromDistinct(st.version, 0);
    var files := FilesFrom(st.version, 0);
    hide Sound, NoRepeats, FilesFrom;
    forall i, j | 0 <= i < j < |files| ensures NothingShared(st.tables, files[i], files[j]) {
      FileIsListed(st, files[i]);
      FileIsListed(st, files[j]);
      assert files[i].number != files[j].number;
      SoundShares(st, files[i], files[j]);
    }
  }

  lemma AllContentsAreStored(st: Store)
    requires st.version.Valid()
    ensures SetOf(AllContents(st.tables, FilesFrom(st.version, 0))) == EntriesOf(st.tables, AllFiles(st.version))
  {
    var files := FilesFrom(st.version, 0);
    AllContentsMembers(st.tables, files);
    forall f ensures f in files <==> f in AllFiles(st.version) {
      FilesFromMembers(st.version, 0, f);
    }
    assert (set f | f in files) == AllFiles(st.version);
  }

  /** No version occurs in two sources, or twice in one. */
  lemma SourcesHaveNoRepeat(st: Store, s: nat)
    requires Sound(st) && NoRepeats(st.version)
    ensures NoRepeatedVersion(Concat(Sources(st, s)))
    ensures SetOf(Concat(Sources(st, s))) == SetOf(VisibleUpTo(st.mem, s)) + EntriesOf(st.tables, AllFiles(st.version))
  {
    hide Sound, NoRepeats, FilesFrom, Ascending, NoRepeatedVersion, PairwiseNothingShared, EntriesOf, AllFiles, AllContents, Sources,
         VisibleUpTo, Contents;
    SoundParts(st);
    var files := FilesFrom(st.version, 0);
    ConcatSources(st, s);
    VisibleUpToAscends(st.mem, s);
    AscendingHasNoRepeat(VisibleUpTo(st.mem, s));
    AllFilesShareNothing(st);
    forall f | f in files ensures Ascending(Contents(st.tables, f)) { FileIsListed(st, f); }
    AllContentsNoRepeat(st.tables, files);
    AllContentsAreStored(st);
    forall x, y | x in VisibleUpTo(st.mem, s) && y in AllContents(st.tables, files)
      ensures x.Key() != y.Key() || x.Seqno() != y.Seqno()
    {
      assert y in SetOf(AllContents(st.tables, files));
    }
    NoRepeatedAppend(VisibleUpTo(st.mem, s), AllContents(st.tables, files));
  }

  /** What the merge of the sources shows at `s` is what the store shows. */
  lemma MergeShowsStore(st: Store, s: nat, k: Bytes)
    requires Sound(st) && NoRepeats(st.version)
    ensures Ascending(InsertAll([], Concat(Sources(st, s))))
    ensures View(SetOf(InsertAll([], Concat(Sources(st, s)))), k, s) == View(Stored(st), k, s)
  {
    assert st.version.Valid();
    hide Sound, NoRepeats, View, EntriesOf, AllFiles, Sources, InsertAll;
    SourcesHaveNoRepeat(st, s);
    InsertAllKeepsOrder([], Concat(Sources(st, s)));
    StoredIsDistinct(st);
    var merged := InsertAll([], Concat(Sources(st, s)));
    AscendingIsDistinct(merged);
    assert forall e :: e in SetOf(merged) <==> e in SetOf(Concat(Sources(st, s)));
    forall e | VisibleAt(e, k, s) ensures e in SetOf(merged) <==> e in Stored(st) { }
    ViewDependsOnVisible(SetOf(merged), Stored(st), k, s);
  }

  /** `new_iterator_at`. */
  method NewIteratorAt(st: Store, s: nat) returns (it: DbIter)
    requires Sound(st) && NoRepeats(st.version)
    ensures it.Valid() && fresh(it) && fresh(it.inner)
    ensures it.Shows() == ScanAll(InsertAll([], Concat(Sources(st, s))), s)
  {
    hide Sound, NoRepeats, Sources, Concat, InOrder, Ascending, NoRepeatedVersion, MergingIterator.Valid, MergingIterator.Remaining, ScanAll, InsertAll;
    SoundParts(st);
    SourcesInOrder(st, s);
    SourcesHaveNoRepeat(st, s);
    ghost var es := InsertAll([], Concat(Sources(st, s)));
    InsertAllKeepsOrder([], Concat(Sources(st, s)));
    InsertAllPermutes([], Concat(Sources(st, s)));
    var merger := new MergingIterator(Sources(st, s));
    it := new DbIter(merger, s, es);
  }

  lemma {:induction false} InsertPermutes(es: seq<Entry>, e: Entry)
    ensures multiset(Insert(es, e)) == multiset(es) + multiset{e}
  {
    if es != [] && KeyBefore(es[0].ik, e.ik) {
      InsertPermutes(es[1..], e);
      assert es == [es[0]] + es[1..];
    }
  }

  lemma {:induction false} InsertAllPermutes(es: seq<Entry>, more: seq<Entry>)
    ensures multiset(InsertAll(es, more)) == multiset(es) + multiset(more)
    decreases |more|
  {
    if more != [] {
      InsertPermutes(es, more[0]);
      InsertAllPermutes(Insert(es, more[0]), more[1..]);
      assert more == [more[0]] + more[1..];
    }
  }

  /** Collecting a scan at `s`: exactly the keys the store shows at `s`, ascending, each with its value. */
  method CollectScan(st: Store, s: nat) returns (pairs: seq<(Bytes, Bytes)>)
    requires Sound(st) && NoRepeats(st.version)
    ensures KeysAscend(pairs)
    ensures forall k, v :: (k, v) in pairs <==> View(Stored(st), k, s) == Some(v)
  {
    hide Sound, NoRepeats, KeysAscend, Sources, Ascending, DbIter.Valid, DbIter.Shows, View, Stored, ScanAll, InsertAll, Concat;
    SoundParts(st);
    ghost var es := InsertAll([], Concat(Sources(st, s)));
    ScanIsView(st, s);
    var it := NewIteratorAt(st, s);
    pairs := [];
    ghost var left := it.Shows();
    var next := it.Next();
    while next.Some?
      invariant it.Valid() && fresh(it) && fresh(it.inner)
      invariant next.Some? ==> pairs + [next.value] + it.Shows() == ScanAll(es, s)
      invariant next.None? ==> pairs == ScanAll(es, s)
      decreases |it.Shows()|, next.Some?
    {
      pairs := pairs + [next.value];
      MoveFirst(pairs, it.Shows());
      next := it.Next();
    }
  }

  lemma MoveFirst(a: seq<(Bytes, Bytes)>, b: seq<(Bytes, Bytes)>)
    ensures b != [] ==> a + b == a + [b[0]] + b[1..]
    ensures b == [] ==> a + b == a
  {
  }

  lemma ScanIsView(st: Store, s: nat)
    requires Sound(st) && NoRepeats(st.version)
    ensures var pairs := ScanAll(InsertAll([], Concat(Sources(st, s))), s);
            KeysAscend(pairs) && forall k, v :: (k, v) in pairs <==> View(Stored(st), k, s) == Some(v)
  {
    assert st.version.Valid();
    hide Sound, NoRepeats, Sources, Ascending, View, Stored, ScanAll, InsertAll, Concat, KeysAscend;
    MergeShowsStore(st, s, []);
    ScanShowsView(InsertAll([], Concat(Sources(st, s))), s);
    forall k, v ensures (k, v) in ScanAll(InsertAll([], Concat(Sources(st, s))), s) <==> View(Stored(st), k, s) == Some(v) {
      MergeShowsStore(st, s, k);
    }
  }
}
