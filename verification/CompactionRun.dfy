/** The loop of one compaction, over a merge of its inputs, proved against the functional description of its outputs. */
module CompactionRuns {
  import opened ByteStrings
  import opened InternalKeys
  import opened VersionedEntries
  import opened Manifest
  import opened Versions
  import opened Compactions
  import opened CompactionOutputs
  import opened Sorting
  import opened Iterators
  import opened Stores
  import opened Engine
  import opened CompactionSteps
  import opened Scans

  /** The cursor loop over the grandparents. */
  method AccumulateOverlap(gps: seq<FileMeta>, cursor: nat, overlap: nat, k: Bytes) returns (sum: nat, at: nat)
    requires cursor <= |gps|
    ensures (sum, at) == Accumulate(gps, cursor, overlap, k)
  {
    sum, at := overlap, cursor;
    while at < |gps|
      invariant at <= |gps|
      invariant Accumulate(gps, at, sum, k) == Accumulate(gps, cursor, overlap, k)
    {
      var gp := gps[at];
      if Before(Hi(gp), k) {
        at := at + 1;
        continue;
      }
      if Before(k, Lo(gp)) {
        break;
      }
      sum := sum + gp.size;
      at := at + 1;
    }
  }

  /** The builder of the open output file with its number and bounds. */
  datatype Open = Open(entries: seq<Entry>, number: nat, smallest: InternalKey, largest: InternalKey)

  /** The variables of the output loop. */
  datatype Locals = Locals(
    newFiles: seq<OutputFile>,
    open: Option<Open>,
    overlap: nat,
    cursor: nat,
    next: nat,
    last: Option<(Bytes, nat)>)

  /** They agree with the splitter that describes them. */
  ghost predicate Tracks(sp: Splitter, vars: Locals, first: nat, opts: Options) {
    && NonEmpty(sp.done) && vars.newFiles == OutputFiles(sp.done, first, opts)
    && vars.overlap == sp.overlap && vars.cursor == sp.cursor
    && (match vars.open
        case None => sp.cur == [] && vars.next == first + |sp.done|
        case Some(o) =>
          && sp.cur != [] && o.entries == sp.cur && o.number == first + |sp.done| && vars.next == o.number + 1
          && o.smallest == sp.cur[0].ik && o.largest == sp.cur[|sp.cur| - 1].ik)
  }

  lemma OutputFilesPush(lists: seq<seq<Entry>>, last: seq<Entry>, first: nat, opts: Options)
    requires NonEmpty(lists) && last != []
    ensures NonEmpty(lists + [last])
    ensures OutputFiles(lists + [last], first, opts)
         == OutputFiles(lists, first, opts) + [OutputFile(MetaOf(first + |lists|, last, opts), last)]
  {
  }

  /** `finish_current`. */
  function Finished(o: Open, opts: Options): OutputFile {
    OutputFile(FileMeta(o.number, opts.fileSize(o.entries), o.smallest, o.largest), o.entries)
  }

  lemma FinishedIsMeta(sp: Splitter, vars: Locals, first: nat, opts: Options)
    requires Tracks(sp, vars, first, opts) && vars.open.Some?
    ensures NonEmpty(sp.done + [sp.cur])
    ensures vars.newFiles + [Finished(vars.open.value, opts)] == OutputFiles(sp.done + [sp.cur], first, opts)
  {
    OutputFilesPush(sp.done, sp.cur, first, opts);
  }

  /** One surviving entry goes into the open file, into a new first file, or into the file after a cut. */
  method Emit(e: Entry, gps: seq<FileMeta>, opts: Options, vars: Locals, ghost sp: Splitter, ghost first: nat) returns (r: Locals)
    requires sp.cursor <= |gps| && Tracks(sp, vars, first, opts)
    ensures Tracks(Place(sp, e, gps, opts.estimate), r, first, opts) && r.last == vars.last
  {
    if vars.open.None? {
      return vars.(open := Some(Open([e], vars.next, e.ik, e.ik)), next := vars.next + 1, overlap := 0);
    }
    r := vars;
    var o := vars.open.value;
    if opts.estimate(o.entries) >= TARGET_FILE_SIZE || vars.overlap > MAX_GRANDPARENT_OVERLAP_BYTES {
      FinishedIsMeta(sp, vars, first, opts);
      r := r.(newFiles := r.newFiles + [Finished(o, opts)], next := r.next + 1, overlap := 0, cursor := 0);
      o := Open([], vars.next, e.ik, e.ik);
    }
    hide Accumulate, OutputFiles, NonEmpty;
    var overlap, cursor := AccumulateOverlap(gps, r.cursor, r.overlap, e.Key());
    assert (o.entries + [e])[|o.entries + [e]| - 1] == e;
    r := r.(overlap := overlap, cursor := cursor, open := Some(o.(entries := o.entries + [e], largest := e.ik)));
  }

  /** One merged entry: the drop rule, and if it survives, the output. */
  method Consume(e: Entry, v: Version, c: Compaction, oldest: nat, opts: Options, vars: Locals, ghost sp: Splitter, ghost first: nat)
    returns (r: Locals)
    requires v.Valid() && sp.cursor <= |c.grandparents| && Tracks(sp, vars, first, opts)
    ensures r.last == Some((e.Key(), e.Seqno()))
    ensures Tracks(if Dropped(e, vars.last, oldest, BaseLevelOf(v, c.level)) then sp else Place(sp, e, c.grandparents, opts.estimate), r, first, opts)
  {
    hide Tracks, Place, IsBaseLevel;
    var sameKey := vars.last.Some? && vars.last.value.0 == e.Key();
    var deleteDroppable := e.ik.vtype.Delete? && e.Seqno() <= oldest && IsBaseLevel(v, c.level, e.Key());
    var drop := (sameKey && vars.last.value.1 <= oldest) || deleteDroppable;
    r := vars.(last := Some((e.Key(), e.Seqno())));
    LastIsFree(sp, vars, r, first, opts);
    if !drop {
      r := Emit(e, c.grandparents, opts, r, sp, first);
    }
  }

  lemma LastIsFree(sp: Splitter, a: Locals, b: Locals, first: nat, opts: Options)
    requires Tracks(sp, a, first, opts) && b == a.(last := b.last)
    ensures Tracks(sp, b, first, opts)
  {
  }

  lemma {:induction false} SurvivorsAppend(merged: seq<Entry>, last: Option<(Bytes, nat)>, e: Entry, oldest: nat, base: Bytes -> bool)
    ensures Survivors(merged + [e], last, oldest, base)
         == Survivors(merged, last, oldest, base)
            + if Dropped(e, if merged == [] then last else LastOf(merged, |merged|), oldest, base) then [] else [e]
    decreases |merged|
  {
    hide Dropped;
    if merged == [] {
      assert merged + [e] == [e] && [e][1..] == [];
    } else {
      LastOfRest(merged);
      hide LastOf, Survivors;
      var first, rest := merged[0], merged[1..];
      SurvivorsAppend(rest, Some((first.Key(), first.Seqno())), e, oldest, base);
      SurvivorsCons(first, rest, last, e, oldest, base, if Dropped(e, LastOf(merged, |merged|), oldest, base) then [] else [e]);
      assert [first] + (rest + [e]) == merged + [e] && [first] + rest == merged;
    }
  }

  lemma SurvivorsCons(first: Entry, rest: seq<Entry>, last: Option<(Bytes, nat)>, e: Entry, oldest: nat, base: Bytes -> bool, more: seq<Entry>)
    requires var seen := Some((first.Key(), first.Seqno()));
             Survivors(rest + [e], seen, oldest, base) == Survivors(rest, seen, oldest, base) + more
    ensures Survivors([first] + (rest + [e]), last, oldest, base) == Survivors([first] + rest, last, oldest, base) + more
  {
    hide *;
    SurvivorsStep(first, rest, last, oldest, base);
    SurvivorsStep(first, rest + [e], last, oldest, base);
  }

  lemma LastOfRest(merged: seq<Entry>)
    requires merged != []
    ensures LastOf(merged, |merged|)
         == if merged[1..] == [] then Some((merged[0].Key(), merged[0].Seqno())) else LastOf(merged[1..], |merged| - 1)
  {
  }

  lemma SurvivorsStep(first: Entry, rest: seq<Entry>, last: Option<(Bytes, nat)>, oldest: nat, base: Bytes -> bool)
    ensures Survivors([first] + rest, last, oldest, base)
         == (if Dropped(first, last, oldest, base) then [] else [first]) + Survivors(rest, Some((first.Key(), first.Seqno())), oldest, base)
  {
    hide Dropped;
    assert ([first] + rest)[1..] == rest;
  }

  /** The splitter after some merged entries. */
  ghost function Placed(v: Version, c: Compaction, merged: seq<Entry>, oldest: nat, opts: Options): (sp: Splitter)
    requires v.Valid()
    ensures sp.cursor <= |c.grandparents|
  {
    PlaceAll(Start, Survivors(merged, None, oldest, BaseLevelOf(v, c.level)), c.grandparents, opts.estimate)
  }

  lemma PlacedNext(v: Version, c: Compaction, merged: seq<Entry>, e: Entry, oldest: nat, opts: Options)
    requires v.Valid()
    ensures Placed(v, c, merged + [e], oldest, opts)
         == var sp := Placed(v, c, merged, oldest, opts);
            if Dropped(e, LastOf(merged, |merged|), oldest, BaseLevelOf(v, c.level)) then sp
            else Place(sp, e, c.grandparents, opts.estimate)
  {
    var base := BaseLevelOf(v, c.level);
    hide Dropped, Place, PlaceAll, Survivors, BaseLevelOf;
    SurvivorsAppend(merged, None, e, oldest, base);
    var survivors := Survivors(merged, None, oldest, base);
    if Dropped(e, LastOf(merged, |merged|), oldest, base) {
      assert survivors + [] == survivors;
    } else {
      PlaceAllAppend(Start, survivors, e, c.grandparents, opts.estimate);
    }
  }

  lemma StartTracks(first: nat, opts: Options)
    ensures Tracks(Start, Locals([], None, 0, 0, first, None), first, opts)
  {
    assert OutputFiles([], first, opts) == [];
  }

  /** A merge of the inputs: sorted, with every entry as often as the inputs hold it. */
  ghost predicate IsMerge(tables: map<nat, seq<Entry>>, c: Compaction, merged: seq<Entry>) {
    Iterators.InOrder(merged) && multiset(merged) == multiset(AllContents(tables, Inputs(c)))
  }

  /** The loop of `do_compaction` over the merge of the inputs. */
  method MergeLoop(st: Store, c: Compaction, oldest: nat, first: nat, opts: Options)
    returns (vars: Locals, ghost sp: Splitter, ghost merged: seq<Entry>)
    requires st.version.Valid() && forall f :: f in Inputs(c) ==> Iterators.InOrder(Contents(st.tables, f))
    ensures IsMerge(st.tables, c, merged)
    ensures sp == Placed(st.version, c, merged, oldest, opts) && Tracks(sp, vars, first, opts)
  {
    hide Concat, AllContents, Contents, Tracks, Placed, Place, Dropped, Inputs, MergingIterator.Valid, MergingIterator.Remaining, Iterators.InOrder, VersionBefore, Merging;
    ConcatContents(st.tables, Inputs(c));
    var merger := new MergingIterator(ContentsOf(st.tables, Inputs(c)));
    ghost var all := merger.Remaining();
    vars, sp, merged := Locals([], None, 0, 0, first, None), Start, [];
    StartTracks(first, opts);
    assert sp == Placed(st.version, c, merged, oldest, opts) by { NothingPlaced(st.version, c, oldest, opts); }
    var item := merger.Next();
    MergeStarts(item, merger.Remaining(), all);
    while item.Some?
      invariant merger.Valid() && fresh(merger) && Merging(merged, item, merger.Remaining(), all)
      invariant sp == Placed(st.version, c, merged, oldest, opts) && Tracks(sp, vars, first, opts)
      invariant vars.last == LastOf(merged, |merged|)
      decreases |merger.Remaining()|, item.Some?
    {
      var e := item.value;
      PlacedNext(st.version, c, merged, e, oldest, opts);
      vars := Consume(e, st.version, c, oldest, opts, vars, sp, first);
      ghost var before := merger.Remaining();
      item := merger.Next();
      MergeGoesOn(merged, e, before, item, merger.Remaining(), all);
      merged := merged + [e];
      sp := Placed(st.version, c, merged, oldest, opts);
    }
    assert IsMerge(st.tables, c, merged) by { MergeEnds(merged, merger.Remaining(), all); }
  }

  lemma NothingPlaced(v: Version, c: Compaction, oldest: nat, opts: Options)
    requires v.Valid()
    ensures Placed(v, c, [], oldest, opts) == Start
  {
  }

  lemma MergeEnds(merged: seq<Entry>, left: multiset<Entry>, all: multiset<Entry>)
    requires Merging(merged, None, left, all)
    ensures Iterators.InOrder(merged) && multiset(merged) == all
  {
    hide Iterators.InOrder;
  }

  /** `do_compaction`: the outputs of the loop are the described split of the survivors of a merge of the inputs. */
  method DoCompaction(st: Store, c: Compaction, oldest: nat, first: nat, opts: Options)
    returns (newFiles: seq<OutputFile>, deleted: seq<DeletedFile>, next: nat, ghost merged: seq<Entry>)
    requires st.version.Valid() && forall f :: f in Inputs(c) ==> Iterators.InOrder(Contents(st.tables, f))
    ensures IsMerge(st.tables, c, merged)
    ensures NonEmpty(Close(Placed(st.version, c, merged, oldest, opts)))
    ensures newFiles == OutputFiles(Close(Placed(st.version, c, merged, oldest, opts)), first, opts)
    ensures deleted == DeletedInputs(c) && next == first + |newFiles|
  {
    hide IsMerge, Placed, DeletedInputs, Tracks, OutputFiles, NonEmpty, Iterators.InOrder;
    var vars, sp, order := MergeLoop(st, c, oldest, first, opts);
    merged := order;
    newFiles := vars.newFiles;
    if vars.open.Some? {
      newFiles := newFiles + [Finished(vars.open.value, opts)];
    }
    ClosedFiles(sp, vars, first, opts);
    next := vars.next;
    deleted := DeletedInputs(c);
  }

  /** In a sound store there is only one merge, so the outputs are determined. */
  lemma MergeIsUnique(st: Store, c: Compaction, merged: seq<Entry>, oldest: nat, opts: Options)
    requires Sound(st) && NoRepeats(st.version) && Chosen(st.version, c) && IsMerge(st.tables, c, merged)
    ensures st.version.Valid() && merged == Merged(st, c)
    ensures Close(Placed(st.version, c, merged, oldest, opts)) == OutputLists(st, c, oldest, opts)
  {
    hide Sound, NoRepeats, Chosen, AllContents, Inputs, Iterators.InOrder, Survivors, PlaceAll, NoRepeatedVersion;
    SoundParts(st);
    ConcatContents(st.tables, Inputs(c));
    InputsHaveNoRepeat(st, c);
    MergeIsInsertAll(ContentsOf(st.tables, Inputs(c)), merged);
  }

  /** The inputs of a sound store can be merged. */
  lemma InputsInOrder(st: Store, c: Compaction)
    requires Sound(st) && Chosen(st.version, c)
    ensures forall f :: f in Inputs(c) ==> Iterators.InOrder(Contents(st.tables, f))
  {
    hide Sound, Chosen, Contents, Inputs, Iterators.InOrder, Ascending;
    forall f | f in Inputs(c) ensures Iterators.InOrder(Contents(st.tables, f)) {
      InputIsFile(st, c, f);
      AscendingIsInOrder(Contents(st.tables, f));
    }
  }

  /** Closing the open file gives the files of the closed splitter. */
  lemma ClosedFiles(sp: Splitter, vars: Locals, first: nat, opts: Options)
    requires Tracks(sp, vars, first, opts)
    ensures NonEmpty(Close(sp))
    ensures OutputFiles(Close(sp), first, opts)
         == vars.newFiles + if vars.open.Some? then [Finished(vars.open.value, opts)] else []
    ensures vars.next == first + |Close(sp)|
  {
    if vars.open.Some? {
      FinishedIsMeta(sp, vars, first, opts);
    } else {
      assert vars.newFiles + [] == vars.newFiles;
    }
  }
}
