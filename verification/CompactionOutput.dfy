/** Splitting the surviving entries of a compaction into output files. */
module CompactionOutputs {
  import opened ByteStrings
  import opened InternalKeys
  import opened VersionedEntries
  import opened Manifest
  import opened Versions
  import opened Compactions

  /** The output loop's locals: finished files, the open file, its overlap and the grandparent cursor. */
  datatype Splitter = Splitter(done: seq<seq<Entry>>, cur: seq<Entry>, overlap: nat, cursor: nat)

  const Start := Splitter([], [], 0, 0)

  /** The cursor loop: skips grandparents left of the key, counts those containing it. */
  function Accumulate(gps: seq<FileMeta>, cursor: nat, overlap: nat, k: Bytes): (r: (nat, nat))
    requires cursor <= |gps|
    ensures cursor <= r.1 <= |gps|
    decreases |gps| - cursor
  {
    if cursor == |gps| then (overlap, cursor)
    else if Before(Hi(gps[cursor]), k) then Accumulate(gps, cursor + 1, overlap, k)
    else if Before(k, Lo(gps[cursor])) then (overlap, cursor)
    else Accumulate(gps, cursor + 1, overlap + gps[cursor].size, k)
  }

  /** The open file is cut off before the next surviving entry. */
  predicate ShouldSplit(st: Splitter, estimate: seq<Entry> -> nat) {
    estimate(st.cur) >= TARGET_FILE_SIZE || st.overlap > MAX_GRANDPARENT_OVERLAP_BYTES
  }

  /** One surviving entry; `estimate` is the size of the open file so far. */
  function Place(st: Splitter, e: Entry, gps: seq<FileMeta>, estimate: seq<Entry> -> nat): (r: Splitter)
    requires st.cursor <= |gps|
    ensures r.cursor <= |gps| && r.cur != []
  {
    if st.cur == [] then st.(cur := [e], overlap := 0)
    else
      var st1 := if ShouldSplit(st, estimate) then Splitter(st.done + [st.cur], [], 0, 0) else st;
      var counted := Accumulate(gps, st1.cursor, st1.overlap, e.Key());
      Splitter(st1.done, st1.cur + [e], counted.0, counted.1)
  }

  function PlaceAll(st: Splitter, es: seq<Entry>, gps: seq<FileMeta>, estimate: seq<Entry> -> nat): (r: Splitter)
    requires st.cursor <= |gps|
    ensures r.cursor <= |gps|
    decreases |es|
  {
    if es == [] then st else PlaceAll(Place(st, es[0], gps, estimate), es[1..], gps, estimate)
  }

  lemma {:induction false} PlaceAllAppend(sp: Splitter, es: seq<Entry>, e: Entry, gps: seq<FileMeta>, estimate: seq<Entry> -> nat)
    requires sp.cursor <= |gps|
    ensures PlaceAll(sp, es + [e], gps, estimate) == Place(PlaceAll(sp, es, gps, estimate), e, gps, estimate)
    decreases |es|
  {
    hide Place;
    if es == [] {
      assert es + [e] == [e] && [e][1..] == [];
      assert PlaceAll(Place(sp, e, gps, estimate), [], gps, estimate) == Place(sp, e, gps, estimate);
    } else {
      assert (es + [e])[0] == es[0] && (es + [e])[1..] == es[1..] + [e];
      PlaceAllAppend(Place(sp, es[0], gps, estimate), es[1..], e, gps, estimate);
    }
  }

  function Close(st: Splitter): seq<seq<Entry>> {
    if st.cur == [] then st.done else st.done + [st.cur]
  }

  /** The contents of the output files. */
  function Outputs(es: seq<Entry>, gps: seq<FileMeta>, estimate: seq<Entry> -> nat): seq<seq<Entry>> {
    Close(PlaceAll(Start, es, gps, estimate))
  }

  function Flatten(files: seq<seq<Entry>>): seq<Entry> {
    if files == [] then [] else Flatten(files[..|files| - 1]) + files[|files| - 1]
  }

  ghost predicate NonEmpty(files: seq<seq<Entry>>) {
    forall i :: 0 <= i < |files| ==> files[i] != []
  }

  // ----- the outputs are a faithful partition -------------------------------------------------

  lemma FlattenPush(files: seq<seq<Entry>>, last: seq<Entry>)
    ensures Flatten(files + [last]) == Flatten(files) + last
  {
  }

  lemma {:induction false} PlaceAllKeeps(st: Splitter, es: seq<Entry>, gps: seq<FileMeta>, estimate: seq<Entry> -> nat)
    requires st.cursor <= |gps| && NonEmpty(st.done)
    ensures var r := PlaceAll(st, es, gps, estimate);
            NonEmpty(r.done) && Flatten(r.done) + r.cur == Flatten(st.done) + st.cur + es
    decreases |es|
  {
    hide Place, Flatten, NonEmpty;
    if es == [] {
      assert Flatten(st.done) + st.cur + es == Flatten(st.done) + st.cur;
    } else {
      var next := Place(st, es[0], gps, estimate);
      PlaceOne(st, es[0], gps, estimate);
      PlaceAllKeeps(next, es[1..], gps, estimate);
      assert Flatten(st.done) + st.cur + [es[0]] + es[1..] == Flatten(st.done) + st.cur + es;
    }
  }

  lemma PlaceOne(st: Splitter, e: Entry, gps: seq<FileMeta>, estimate: seq<Entry> -> nat)
    requires st.cursor <= |gps| && NonEmpty(st.done)
    ensures var r := Place(st, e, gps, estimate);
            NonEmpty(r.done) && Flatten(r.done) + r.cur == Flatten(st.done) + st.cur + [e]
  {
  }

  /** The output files, concatenated, are exactly the survivors in order, and none is empty. */
  lemma OutputsArePartition(es: seq<Entry>, gps: seq<FileMeta>, estimate: seq<Entry> -> nat)
    ensures Flatten(Outputs(es, gps, estimate)) == es
    ensures NonEmpty(Outputs(es, gps, estimate))
  {
    hide PlaceAll;
    PlaceAllKeeps(Start, es, gps, estimate);
    var st := PlaceAll(Start, es, gps, estimate);
    FlattenPush(st.done, st.cur);
    assert Flatten([]) + [] + es == es;
  }

  // ----- grandparent overlap ------------------------------------------------------------------

  predicate Contains(f: FileMeta, k: Bytes) {
    !Before(k, Lo(f)) && !Before(Hi(f), k)
  }

  ghost predicate Touched(f: FileMeta, es: seq<Entry>) {
    exists e :: e in es && Contains(f, e.Key())
  }

  /** The total size of the grandparents whose range contains some of the entries' keys, each counted once. */
  ghost function TouchedSize(gps: seq<FileMeta>, es: seq<Entry>): nat {
    if gps == [] then 0
    else TouchedSize(gps[..|gps| - 1], es) + if Touched(gps[|gps| - 1], es) then gps[|gps| - 1].size else 0
  }

  /** Grandparents as the cursor expects them: by smallest key. */
  ghost predicate AscendingStarts(gps: seq<FileMeta>) {
    forall i, j :: 0 <= i < j < |gps| ==> !Before(Lo(gps[j]), Lo(gps[i]))
  }

  /** `es` have been counted: the overlap is settled below the cursor, and no counted key reaches past it. */
  ghost predicate CountedTo(gps: seq<FileMeta>, es: seq<Entry>, overlap: nat, cursor: nat) {
    && cursor <= |gps|
    && overlap == TouchedSize(gps[..cursor], es)
    && (forall j :: cursor <= j < |gps| ==> !Touched(gps[j], es))
  }

  lemma {:induction false} TouchedSizeSame(gps: seq<FileMeta>, a: seq<Entry>, b: seq<Entry>)
    requires forall i :: 0 <= i < |gps| ==> (Touched(gps[i], a) <==> Touched(gps[i], b))
    ensures TouchedSize(gps, a) == TouchedSize(gps, b)
  {
    if gps != [] {
      TouchedSizeSame(gps[..|gps| - 1], a, b);
    }
  }

  lemma {:induction false} UntouchedTail(gps: seq<FileMeta>, es: seq<Entry>, cursor: nat)
    requires cursor <= |gps|
    requires forall j :: cursor <= j < |gps| ==> !Touched(gps[j], es)
    ensures TouchedSize(gps, es) == TouchedSize(gps[..cursor], es)
    decreases |gps|
  {
    if cursor == |gps| {
      assert gps[..cursor] == gps;
    } else {
      var front := gps[..|gps| - 1];
      UntouchedTail(front, es, cursor);
      assert front[..cursor] == gps[..cursor];
    }
  }

  /** Below the cursor, a grandparent has been counted or lies left of key `k`. */
  ghost predicate SettledBelow(gps: seq<FileMeta>, es: seq<Entry>, cursor: nat, k: Bytes)
    requires cursor <= |gps|
  {
    forall j :: 0 <= j < cursor ==> Touched(gps[j], es) || Before(Hi(gps[j]), k)
  }

  /** The cursor loop for the next key counts it: everything below the new cursor is settled for `es + [e]`. */
  lemma {:induction false} AccumulateCounts(gps: seq<FileMeta>, es: seq<Entry>, e: Entry, cursor: nat, overlap: nat)
    requires AscendingStarts(gps) && cursor <= |gps|
    requires overlap == TouchedSize(gps[..cursor], es + [e])
    requires forall j :: cursor <= j < |gps| ==> !Touched(gps[j], es)
    requires SettledBelow(gps, es + [e], cursor, e.Key())
    ensures var r := Accumulate(gps, cursor, overlap, e.Key());
            CountedTo(gps, es + [e], r.0, r.1) && SettledBelow(gps, es + [e], r.1, e.Key())
    decreases |gps| - cursor
  {
    hide Touched;
    if cursor < |gps| {
      var gp := gps[cursor];
      assert gps[..cursor + 1][..cursor] == gps[..cursor];
      TouchedMore(gp, es, e);
      if Before(Hi(gp), e.Key()) {
        AccumulateCounts(gps, es, e, cursor + 1, overlap);
      } else if Before(e.Key(), Lo(gp)) {
        forall j | cursor <= j < |gps| ensures !Touched(gps[j], es + [e]) {
          OrderFacts();
          TouchedMore(gps[j], es, e);
          assert cursor < j ==> !Before(Lo(gps[j]), Lo(gp));
        }
      } else {
        AccumulateCounts(gps, es, e, cursor + 1, overlap + gp.size);
      }
    }
  }

  lemma TouchedMore(gp: FileMeta, es: seq<Entry>, e: Entry)
    ensures Touched(gp, es + [e]) <==> Touched(gp, es) || Contains(gp, e.Key())
  {
  }

  /**
   * The entries of the open file that take part in the count: all of them, except the very first entry
   * of the first output file, which is written before the cursor loop is reached.
   */
  function Counted(st: Splitter): seq<Entry> {
    if st.done == [] && st.cur != [] then st.cur[1..] else st.cur
  }

  ghost predicate OverlapIsExact(st: Splitter, gps: seq<FileMeta>) {
    && CountedTo(gps, Counted(st), st.overlap, st.cursor)
    && (st.cur == [] ==> st == Start)
    && (st.cur != [] ==> SettledBelow(gps, Counted(st), st.cursor, st.cur[|st.cur| - 1].Key()))
  }

  lemma KeyOrder(es: seq<Entry>)
    requires Ascending(es)
    ensures forall i, j :: 0 <= i < j < |es| ==> !Before(es[j].Key(), es[i].Key())
  {
    OrderFacts();
    forall i, j | 0 <= i < j < |es| ensures !Before(es[j].Key(), es[i].Key()) {
      assert VersionBefore(es[i], es[j]);
    }
  }

  lemma CountNext(gps: seq<FileMeta>, es: seq<Entry>, e: Entry, last: Bytes, cursor: nat, overlap: nat)
    requires AscendingStarts(gps)
    requires CountedTo(gps, es, overlap, cursor) && SettledBelow(gps, es, cursor, last)
    requires !Before(e.Key(), last)
    ensures var r := Accumulate(gps, cursor, overlap, e.Key());
            CountedTo(gps, es + [e], r.0, r.1) && SettledBelow(gps, es + [e], r.1, e.Key())
  {
    OrderFacts();
    assert forall x :: x in es + [e] <==> x in es || x == e;
    forall j | 0 <= j < cursor
      ensures Touched(gps[j], es) <==> Touched(gps[j], es + [e])
      ensures Touched(gps[j], es + [e]) || Before(Hi(gps[j]), e.Key())
    {
      if Touched(gps[j], es) {
        var x :| x in es && Contains(gps[j], x.Key());
        assert x in es + [e];
      }
    }
    TouchedSizeSame(gps[..cursor], es, es + [e]);
    AccumulateCounts(gps, es, e, cursor, overlap);
  }

  lemma NothingCounted(gps: seq<FileMeta>)
    ensures CountedTo(gps, [], 0, 0)
    ensures forall k :: SettledBelow(gps, [], 0, k)
  {
  }

  lemma PlaceCounts(st: Splitter, e: Entry, gps: seq<FileMeta>, estimate: seq<Entry> -> nat)
    requires AscendingStarts(gps) && OverlapIsExact(st, gps)
    requires st.cur != [] ==> !Before(e.Key(), st.cur[|st.cur| - 1].Key())
    ensures OverlapIsExact(Place(st, e, gps, estimate), gps)
  {
    hide CountedTo, SettledBelow, Accumulate, AscendingStarts;
    NothingCounted(gps);
    CursorInRange(st, gps);
    var r := Place(st, e, gps, estimate);
    if st.cur == [] {
      assert [e][1..] == [];
    } else {
      var last := st.cur[|st.cur| - 1].Key();
      assert r.cur[|r.cur| - 1] == e;
      if r.done == st.done {
        CountNext(gps, Counted(st), e, last, st.cursor, st.overlap);
        assert Counted(r) == Counted(st) + [e];
      } else {
        CountNext(gps, [], e, last, 0, 0);
        assert Counted(r) == [] + [e];
      }
    }
  }

  lemma {:induction false} PlaceAllCounts(st: Splitter, es: seq<Entry>, gps: seq<FileMeta>, estimate: seq<Entry> -> nat)
    requires AscendingStarts(gps) && OverlapIsExact(st, gps)
    requires st.cur != [] && es != [] ==> !Before(es[0].Key(), st.cur[|st.cur| - 1].Key())
    requires forall i, j :: 0 <= i < j < |es| ==> !Before(es[j].Key(), es[i].Key())
    ensures OverlapIsExact(PlaceAll(st, es, gps, estimate), gps)
    decreases |es|
  {
    hide OverlapIsExact, AscendingStarts, Accumulate;
    CursorInRange(st, gps);
    if es != [] {
      PlaceCounts(st, es[0], gps, estimate);
      var next := Place(st, es[0], gps, estimate);
      assert next.cur[|next.cur| - 1] == es[0];
      PlaceAllCounts(next, es[1..], gps, estimate);
    }
  }

  lemma CursorInRange(st: Splitter, gps: seq<FileMeta>)
    requires OverlapIsExact(st, gps)
    ensures st.cursor <= |gps|
  {
  }

  /**
   * With the grandparents in order of smallest key, the overlap charged to the open output file is at
   * every moment the total size of those its counted entries touch.
   */
  lemma OverlapIsExactWhenSorted(es: seq<Entry>, gps: seq<FileMeta>, estimate: seq<Entry> -> nat)
    requires Ascending(es) && AscendingStarts(gps)
    ensures var st := PlaceAll(Start, es, gps, estimate);
            st.overlap == TouchedSize(gps, Counted(st))
  {
    KeyOrder(es);
    NothingCounted(gps);
    PlaceAllCounts(Start, es, gps, estimate);
    var st := PlaceAll(Start, es, gps, estimate);
    UntouchedTail(gps, Counted(st), st.cursor);
  }

  // ----- when the next file starts ------------------------------------------------------------

  /** The lists once `e` is written: in a file of its own, or at the end of the open one. */
  function Extended(lists: seq<seq<Entry>>, e: Entry, anew: bool): seq<seq<Entry>>
    requires lists != []
  {
    if anew then lists + [[e]] else lists[..|lists| - 1] + [lists[|lists| - 1] + [e]]
  }

  /** Before each survivor the open file is closed if its estimate has reached 2 MiB or its overlap exceeds 20 MiB, and only then. */
  lemma NextFileIff(es: seq<Entry>, e: Entry, gps: seq<FileMeta>, estimate: seq<Entry> -> nat)
    requires es != []
    ensures var lists, st := Outputs(es, gps, estimate), PlaceAll(Start, es, gps, estimate);
            && lists != [] && lists[|lists| - 1] == st.cur
            && Outputs(es + [e], gps, estimate)
               == Extended(lists, e, estimate(st.cur) >= 2 * 1024 * 1024 || st.overlap > 20 * 1024 * 1024)
  {
    LastPlaced(es, gps, estimate);
    PlaceAllAppend(Start, es, e, gps, estimate);
    var st := PlaceAll(Start, es, gps, estimate);
    hide PlaceAll, Accumulate, NonEmpty;
    assert Close(st)[..|st.done|] == st.done;
    var r := Place(st, e, gps, estimate);
    assert [] + [e] == [e];
    assert Close(r) == r.done + [r.cur];
  }

  /** The entries of the open file whose grandparents are charged to it: all, but for the very first of a compaction. */
  function Charged(lists: seq<seq<Entry>>): seq<Entry>
    requires lists != [] && lists[|lists| - 1] != []
  {
    if |lists| == 1 then lists[0][1..] else lists[|lists| - 1]
  }

  /** With the grandparents in order of smallest key, the overlap is the total size of those the charged entries touch. */
  lemma NextFileIffTouched(es: seq<Entry>, e: Entry, gps: seq<FileMeta>, estimate: seq<Entry> -> nat)
    requires es != [] && Ascending(es) && AscendingStarts(gps)
    ensures var lists := Outputs(es, gps, estimate);
            && lists != [] && lists[|lists| - 1] != []
            && Outputs(es + [e], gps, estimate)
               == Extended(lists, e, estimate(lists[|lists| - 1]) >= 2 * 1024 * 1024 || TouchedSize(gps, Charged(lists)) > 20 * 1024 * 1024)
  {
    var st := PlaceAll(Start, es, gps, estimate);
    LastPlaced(es, gps, estimate);
    NextFileIff(es, e, gps, estimate);
    OverlapIsExactWhenSorted(es, gps, estimate);
    assert Charged(Outputs(es, gps, estimate)) == Counted(st) by { hide PlaceAll, NonEmpty; }
    hide PlaceAll, TouchedSize, Ascending, AscendingStarts, Counted, Charged, Extended;
  }

  // ----- grandparents in any order ------------------------------------------------------------

  lemma {:induction false} TouchedSizeGrows(gps: seq<FileMeta>, es: seq<Entry>, e: Entry)
    ensures TouchedSize(gps, es) <= TouchedSize(gps, es + [e])
  {
    hide Touched;
    if gps != [] {
      TouchedSizeGrows(gps[..|gps| - 1], es, e);
      TouchedMore(gps[|gps| - 1], es, e);
    }
  }

  lemma {:induction false} TouchedSizePrefix(gps: seq<FileMeta>, es: seq<Entry>, n: nat)
    requires n <= |gps|
    ensures TouchedSize(gps[..n], es) <= TouchedSize(gps, es)
    ensures forall j :: n <= j < |gps| && Touched(gps[j], es) ==> TouchedSize(gps[..n], es) + gps[j].size <= TouchedSize(gps, es)
    decreases |gps|
  {
    hide Touched;
    if n == |gps| {
      assert gps[..n] == gps;
    } else {
      var front := gps[..|gps| - 1];
      assert front[..n] == gps[..n];
      TouchedSizePrefix(front, es, n);
    }
  }

  /** The cursor only charges files that contain the key, and never returns to one. */
  lemma {:induction false} AccumulateOnce(gps: seq<FileMeta>, es: seq<Entry>, e: Entry, cursor: nat, overlap: nat)
    requires cursor <= |gps| && overlap <= TouchedSize(gps[..cursor], es + [e])
    ensures var r := Accumulate(gps, cursor, overlap, e.Key()); r.0 <= TouchedSize(gps[..r.1], es + [e])
    decreases |gps| - cursor
  {
    hide Touched;
    if cursor < |gps| {
      var gp := gps[cursor];
      assert gps[..cursor + 1][..cursor] == gps[..cursor];
      TouchedMore(gp, es, e);
      if Before(Hi(gp), e.Key()) {
        AccumulateOnce(gps, es, e, cursor + 1, overlap);
      } else if !Before(e.Key(), Lo(gp)) {
        AccumulateOnce(gps, es, e, cursor + 1, overlap + gp.size);
      }
    }
  }

  ghost predicate ChargedOnce(st: Splitter, gps: seq<FileMeta>) {
    && st.cursor <= |gps| && st.overlap <= TouchedSize(gps[..st.cursor], Counted(st))
    && (st.cur == [] ==> st.cursor == 0 && st.overlap == 0)
  }

  lemma PlaceChargesOnce(st: Splitter, e: Entry, gps: seq<FileMeta>, estimate: seq<Entry> -> nat)
    requires ChargedOnce(st, gps)
    ensures ChargedOnce(Place(st, e, gps, estimate), gps)
  {
    hide Accumulate, TouchedSize;
    var r := Place(st, e, gps, estimate);
    if st.cur != [] {
      if r.done == st.done {
        TouchedSizeGrows(gps[..st.cursor], Counted(st), e);
        AccumulateOnce(gps, Counted(st), e, st.cursor, st.overlap);
        assert Counted(r) == Counted(st) + [e];
      } else {
        AccumulateOnce(gps, [], e, 0, 0);
        assert Counted(r) == [] + [e];
      }
    }
  }

  lemma {:induction false} PlaceAllChargesOnce(st: Splitter, es: seq<Entry>, gps: seq<FileMeta>, estimate: seq<Entry> -> nat)
    requires ChargedOnce(st, gps)
    ensures ChargedOnce(PlaceAll(st, es, gps, estimate), gps)
    decreases |es|
  {
    hide ChargedOnce, Place;
    ChargedBelow(st, gps);
    if es != [] {
      PlaceChargesOnce(st, es[0], gps, estimate);
      PlaceAllChargesOnce(Place(st, es[0], gps, estimate), es[1..], gps, estimate);
    }
  }

  /**
   * Whatever the order of the grandparents and of the entries, no grandparent is charged twice to one
   * output file, and none that its counted entries do not touch.
   */
  lemma OverlapCountsEachGrandparentOnce(es: seq<Entry>, gps: seq<FileMeta>, estimate: seq<Entry> -> nat)
    ensures var st := PlaceAll(Start, es, gps, estimate);
            st.overlap <= TouchedSize(gps, Counted(st))
  {
    PlaceAllChargesOnce(Start, es, gps, estimate);
    var st := PlaceAll(Start, es, gps, estimate);
    TouchedSizePrefix(gps, Counted(st), st.cursor);
  }

  /** The cursor never gets past a file that lies right of the key. */
  lemma {:induction false} StopsBy(gps: seq<FileMeta>, cursor: nat, overlap: nat, k: Bytes, i: nat)
    requires cursor <= i < |gps| && Before(k, Lo(gps[i])) && !Before(Hi(gps[i]), k)
    ensures Accumulate(gps, cursor, overlap, k).1 <= i
    decreases i - cursor
  {
    if cursor < i {
      if Before(Hi(gps[cursor]), k) {
        StopsBy(gps, cursor + 1, overlap, k, i);
      } else if !Before(k, Lo(gps[cursor])) {
        StopsBy(gps, cursor + 1, overlap + gps[cursor].size, k, i);
      }
    }
  }

  /** Two versions of `k`. */
  function TwoVersions(k: Bytes): seq<Entry> {
    [Entry(InternalKey(k, 2, Put), []), Entry(InternalKey(k, 1, Put), [])]
  }

  lemma TwoVersionsCharge(gps: seq<FileMeta>, k: Bytes, estimate: seq<Entry> -> nat)
    ensures var st := PlaceAll(Start, TwoVersions(k), gps, estimate);
            && (st.overlap, st.cursor) == Accumulate(gps, 0, 0, k)
            && Counted(st) == [TwoVersions(k)[1]]
  {
    var es := TwoVersions(k);
    hide Accumulate;
    var one := Place(Start, es[0], gps, estimate);
    assert es[1..] == [es[1]] && [es[1]][1..] == [];
    assert PlaceAll(one, [es[1]], gps, estimate) == PlaceAll(Place(one, es[1], gps, estimate), [], gps, estimate);
    assert one == Splitter([], [es[0]], 0, 0);
    var st := Place(one, es[1], gps, estimate);
    assert st.cur == [es[0], es[1]] || (st.cur == [es[1]] && st.done == [[es[0]]]);
    assert [es[0]] + [es[1]] == es && [] + [es[1]] == [es[1]];
  }

  lemma AscendingPair(k: Bytes)
    ensures Ascending(TwoVersions(k))
  {
    OrderFacts();
  }

  /** A file that starts left of an earlier one is not charged for its own smallest key. */
  lemma OutOfOrderIsMissed(gps: seq<FileMeta>, i: nat, j: nat, estimate: seq<Entry> -> nat)
    requires i < j < |gps| && Before(Lo(gps[j]), Lo(gps[i]))
    requires !Before(Hi(gps[i]), Lo(gps[i])) && !Before(Hi(gps[j]), Lo(gps[j])) && gps[j].size > 0
    ensures var es := TwoVersions(Lo(gps[j]));
            var st := PlaceAll(Start, es, gps, estimate);
            Ascending(es) && st.overlap < TouchedSize(gps, Counted(st))
  {
    hide Before, Ascending, Accumulate, PlaceAll, Counted, TouchedSize, Touched, ChargedOnce, TwoVersions;
    var k := Lo(gps[j]);
    var st := PlaceAll(Start, TwoVersions(k), gps, estimate);
    AscendingPair(k);
    TwoVersionsCharge(gps, k, estimate);
    RightOf(gps[i], k);
    StopsBy(gps, 0, 0, k, i);
    NothingCharged(gps);
    PlaceAllChargesOnce(Start, TwoVersions(k), gps, estimate);
    OwnStartTouches(gps[j]);
    ChargedBelow(st, gps);
    TouchedSizePrefix(gps, Counted(st), st.cursor);
  }

  lemma NothingCharged(gps: seq<FileMeta>)
    ensures ChargedOnce(Start, gps)
  {
  }

  lemma OwnStartTouches(f: FileMeta)
    requires !Before(Hi(f), Lo(f))
    ensures Touched(f, [TwoVersions(Lo(f))[1]])
  {
    OrderFacts();
    var e := TwoVersions(Lo(f))[1];
    assert e in [e] && Contains(f, e.Key());
  }

  lemma RightOf(f: FileMeta, k: Bytes)
    requires Before(k, Lo(f)) && !Before(Hi(f), Lo(f))
    ensures !Before(Hi(f), k)
  {
    OrderFacts();
  }

  lemma ChargedBelow(st: Splitter, gps: seq<FileMeta>)
    requires ChargedOnce(st, gps)
    ensures st.cursor <= |gps| && st.overlap <= TouchedSize(gps[..st.cursor], Counted(st))
  {
  }

  /**
   * The overlap is exact for every list of survivors if and only if the grandparents come in order of
   * smallest key. They are the overlapping files of a level, in the level's own order.
   */
  lemma OverlapIsExactIffSorted(gps: seq<FileMeta>, estimate: seq<Entry> -> nat)
    requires forall i :: 0 <= i < |gps| ==> !Before(Hi(gps[i]), Lo(gps[i])) && gps[i].size > 0
    ensures (forall es :: Ascending(es) ==>
               var st := PlaceAll(Start, es, gps, estimate); st.overlap == TouchedSize(gps, Counted(st)))
            <==> AscendingStarts(gps)
  {
    hide PlaceAll, TouchedSize, Ascending, Counted, TwoVersions;
    if AscendingStarts(gps) {
      forall es | Ascending(es)
        ensures var st := PlaceAll(Start, es, gps, estimate); st.overlap == TouchedSize(gps, Counted(st))
      {
        OverlapIsExactWhenSorted(es, gps, estimate);
      }
    } else {
      var i, j :| 0 <= i < j < |gps| && Before(Lo(gps[j]), Lo(gps[i]));
      OutOfOrderIsMissed(gps, i, j, estimate);
    }
  }

  // ----- the entry that is never charged ------------------------------------------------------

  /** Sizes agree exactly when every touched file of some size is touched by both. */
  lemma {:induction false} TouchedSizeSameIff(gps: seq<FileMeta>, es: seq<Entry>, e: Entry)
    ensures TouchedSize(gps, es) <= TouchedSize(gps, [e] + es)
    ensures TouchedSize(gps, es) == TouchedSize(gps, [e] + es)
       <==> forall i :: 0 <= i < |gps| && gps[i].size > 0 && Contains(gps[i], e.Key()) ==> Touched(gps[i], es)
  {
    hide Touched, Contains;
    if gps != [] {
      var front, gp := gps[..|gps| - 1], gps[|gps| - 1];
      TouchedSizeSameIff(front, es, e);
      TouchedFront(gp, es, e);
      assert forall i :: 0 <= i < |gps| ==> gps[i] == if i < |front| then front[i] else gp;
    }
  }

  lemma TouchedFront(gp: FileMeta, es: seq<Entry>, e: Entry)
    ensures Touched(gp, [e] + es) <==> Touched(gp, es) || Contains(gp, e.Key())
  {
  }

  /**
   * The entry that opens the first output file is written before the cursor loop is reached: while that
   * file is open, its overlap is complete exactly when every grandparent of that entry is also met later.
   */
  lemma FirstEntryIsNotCharged(es: seq<Entry>, gps: seq<FileMeta>, estimate: seq<Entry> -> nat)
    requires Ascending(es) && es != [] && AscendingStarts(gps)
    ensures var st := PlaceAll(Start, es, gps, estimate);
            st.done == [] && st.cur != [] ==>
              (st.overlap == TouchedSize(gps, st.cur)
               <==> forall i :: 0 <= i < |gps| && gps[i].size > 0 && Contains(gps[i], st.cur[0].Key()) ==> Touched(gps[i], st.cur[1..]))
  {
    hide PlaceAll, TouchedSize, Touched, Contains, Ascending, AscendingStarts;
    var st := PlaceAll(Start, es, gps, estimate);
    OverlapIsExactWhenSorted(es, gps, estimate);
    if st.done == [] && st.cur != [] {
      assert [st.cur[0]] + st.cur[1..] == st.cur;
      TouchedSizeSameIff(gps, st.cur[1..], st.cur[0]);
    }
  }

  // ----- user-key ranges of the outputs -------------------------------------------------------

  /** The two ends of a cut carry different user keys. */
  predicate CutBetweenKeys(a: seq<Entry>, b: seq<Entry>)
    requires a != [] && b != []
  {
    a[|a| - 1].Key() != b[0].Key()
  }

  ghost predicate NoCutInsideKey(files: seq<seq<Entry>>)
    requires NonEmpty(files)
  {
    forall i :: 0 <= i < |files| - 1 ==> CutBetweenKeys(files[i], files[i + 1])
  }

  ghost predicate RangesAscend(files: seq<seq<Entry>>)
    requires NonEmpty(files)
  {
    forall i, j :: 0 <= i < j < |files| ==> Before(files[i][|files[i]| - 1].Key(), files[j][0].Key())
  }

  lemma {:induction false} FlattenContains(files: seq<seq<Entry>>, i: nat, x: nat) returns (p: nat)
    requires i < |files| && x < |files[i]|
    ensures |Flatten(files[..i])| <= p == |Flatten(files[..i])| + x < |Flatten(files)|
    ensures Flatten(files)[p] == files[i][x]
    decreases |files|
  {
    var n := |files| - 1;
    if i == n {
      p := |Flatten(files[..n])| + x;
    } else {
      assert files[..n][..i] == files[..i];
      p := FlattenContains(files[..n], i, x);
    }
  }

  lemma {:induction false} FlattenMonotone(files: seq<seq<Entry>>, i: nat, j: nat)
    requires i < j <= |files|
    ensures |Flatten(files[..i])| + |files[i]| <= |Flatten(files[..j])|
    decreases j
  {
    assert files[..j][..j - 1] == files[..j - 1];
    if i < j - 1 {
      FlattenMonotone(files, i, j - 1);
    }
  }

  /** Entries of output files, earlier files first, are in storage order. */
  lemma OutputOrder(files: seq<seq<Entry>>, i: nat, x: nat, j: nat, y: nat)
    requires Ascending(Flatten(files))
    requires i < |files| && x < |files[i]| && j < |files| && y < |files[j]|
    requires i < j || (i == j && x < y)
    ensures VersionBefore(files[i][x], files[j][y])
  {
    var p := FlattenContains(files, i, x);
    var q := FlattenContains(files, j, y);
    if i < j {
      FlattenMonotone(files, i, j);
    }
    assert VersionBefore(Flatten(files)[p], Flatten(files)[q]);
  }

  lemma RangesAscendBetween(files: seq<seq<Entry>>, i: nat, j: nat)
    requires NonEmpty(files) && Ascending(Flatten(files)) && i < j < |files| && CutBetweenKeys(files[i], files[i + 1])
    ensures Before(files[i][|files[i]| - 1].Key(), files[j][0].Key())
  {
    hide Ascending, Flatten, Before;
    OutputOrder(files, i, |files[i]| - 1, i + 1, 0);
    if i + 1 < j {
      OutputOrder(files, i + 1, 0, j, 0);
      OrderFacts();
    }
  }

  /** Output files have pairwise disjoint, ascending user-key ranges exactly when no cut falls inside a key. */
  lemma RangesAscendIffNoCutInsideKey(files: seq<seq<Entry>>)
    requires NonEmpty(files) && Ascending(Flatten(files))
    ensures RangesAscend(files) <==> NoCutInsideKey(files)
  {
    hide Ascending, Flatten, Before, VersionBefore;
    if NoCutInsideKey(files) {
      forall i, j | 0 <= i < j < |files|
        ensures Before(files[i][|files[i]| - 1].Key(), files[j][0].Key())
      {
        RangesAscendBetween(files, i, j);
      }
    } else {
      var i :| 0 <= i < |files| - 1 && !CutBetweenKeys(files[i], files[i + 1]);
      SameKeyIsNotBefore(files[i][|files[i]| - 1].Key());
    }
  }

  lemma SameKeyIsNotBefore(k: Bytes)
    ensures !Before(k, k)
  {
    OrderFacts();
  }

  /** Before the surviving entry `i` the open file is cut off, although that entry continues a key. */
  ghost predicate CutsInsideKeyAt(es: seq<Entry>, i: nat, gps: seq<FileMeta>, estimate: seq<Entry> -> nat)
    requires 0 < i < |es|
  {
    es[i - 1].Key() == es[i].Key() && ShouldSplit(PlaceAll(Start, es[..i], gps, estimate), estimate)
  }

  lemma LastPlaced(es: seq<Entry>, gps: seq<FileMeta>, estimate: seq<Entry> -> nat)
    requires es != []
    ensures var st := PlaceAll(Start, es, gps, estimate);
            NonEmpty(st.done) && st.cur != [] && st.cur[|st.cur| - 1] == es[|es| - 1]
  {
    var front, e := es[..|es| - 1], es[|es| - 1];
    assert es == front + [e];
    PlaceAllKeeps(Start, front, gps, estimate);
    PlaceAllAppend(Start, front, e, gps, estimate);
  }

  lemma CutAppend(files: seq<seq<Entry>>, last: seq<Entry>)
    requires NonEmpty(files) && files != [] && last != []
    ensures NonEmpty(files + [last])
    ensures NoCutInsideKey(files + [last]) <==> NoCutInsideKey(files) && CutBetweenKeys(files[|files| - 1], last)
  {
    var all, n := files + [last], |files|;
    hide CutBetweenKeys;
    if NoCutInsideKey(all) {
      assert CutBetweenKeys(all[n - 1], all[n - 1 + 1]);
      forall i | 0 <= i < n - 1 ensures CutBetweenKeys(files[i], files[i + 1]) {
        assert CutBetweenKeys(all[i], all[i + 1]);
      }
    }
  }

  /** Only the end of the last file and the start of the next matter. */
  lemma CutSameEnds(files: seq<seq<Entry>>, a: seq<Entry>, b: seq<Entry>)
    requires NonEmpty(files) && a != [] && b != [] && a[0] == b[0]
    ensures NonEmpty(files + [a]) && NonEmpty(files + [b])
    ensures NoCutInsideKey(files + [a]) <==> NoCutInsideKey(files + [b])
  {
    if files == [] {
      assert [] + [a] == [a] && [] + [b] == [b];
    } else {
      CutAppend(files, a);
      CutAppend(files, b);
    }
  }

  lemma NextCut(st: Splitter, e: Entry, gps: seq<FileMeta>, estimate: seq<Entry> -> nat)
    requires st.cursor <= |gps| && NonEmpty(st.done) && st.cur != []
    ensures var r := Place(st, e, gps, estimate);
            && NonEmpty(Close(st)) && NonEmpty(Close(r))
            && (NoCutInsideKey(Close(r))
                <==> NoCutInsideKey(Close(st)) && !(ShouldSplit(st, estimate) && st.cur[|st.cur| - 1].Key() == e.Key()))
  {
    hide Accumulate, ShouldSplit, NoCutInsideKey;
    if ShouldSplit(st, estimate) {
      CutAppend(Close(st), [e]);
      assert Place(st, e, gps, estimate).cur == [e];
    } else {
      CutSameEnds(st.done, st.cur, st.cur + [e]);
    }
  }

  /** What decides a cut inside a key: the size of the open file, or its overlap, when the key's next version comes. */
  lemma {:induction false} NoCutInsideKeyIff(es: seq<Entry>, gps: seq<FileMeta>, estimate: seq<Entry> -> nat)
    ensures NonEmpty(Outputs(es, gps, estimate))
    ensures NoCutInsideKey(Outputs(es, gps, estimate)) <==> forall i :: 0 < i < |es| ==> !CutsInsideKeyAt(es, i, gps, estimate)
    decreases |es|
  {
    hide Place, ShouldSplit, PlaceAll, NoCutInsideKey, NonEmpty;
    OutputsArePartition(es, gps, estimate);
    if es == [] {
      NothingCut(gps, estimate);
    } else {
      var n, front := |es| - 1, es[..|es| - 1];
      assert es == front + [es[n]];
      NoCutInsideKeyIff(front, gps, estimate);
      PlaceAllAppend(Start, front, es[n], gps, estimate);
      if front != [] {
        LastPlaced(front, gps, estimate);
        NextCut(PlaceAll(Start, front, gps, estimate), es[n], gps, estimate);
        forall i | 0 < i < n ensures CutsInsideKeyAt(es, i, gps, estimate) <==> CutsInsideKeyAt(front, i, gps, estimate) {
          assert es[..i] == front[..i];
        }
        assert CutsInsideKeyAt(es, n, gps, estimate)
          <==> es[n - 1].Key() == es[n].Key() && ShouldSplit(PlaceAll(Start, front, gps, estimate), estimate);
      } else {
        OneFileNotCut(es[n], gps, estimate);
        assert PlaceAll(Start, front, gps, estimate) == Start by { NothingPlacedYet(gps, estimate); }
      }
    }
  }

  lemma NothingPlacedYet(gps: seq<FileMeta>, estimate: seq<Entry> -> nat)
    ensures PlaceAll(Start, [], gps, estimate) == Start
  {
  }

  lemma NothingCut(gps: seq<FileMeta>, estimate: seq<Entry> -> nat)
    ensures Outputs([], gps, estimate) == [] && NonEmpty([]) && NoCutInsideKey([])
  {
  }

  lemma OneFileNotCut(e: Entry, gps: seq<FileMeta>, estimate: seq<Entry> -> nat)
    ensures var files := Close(Place(Start, e, gps, estimate)); NonEmpty(files) && NoCutInsideKey(files)
  {
  }

  ghost predicate OneVersionPerKey(es: seq<Entry>) {
    forall i, j :: 0 <= i < j < |es| ==> es[i].Key() != es[j].Key()
  }

  /** With no live snapshot, at most one version of each key survives. */
  lemma OneVersionSurvives(merged: seq<Entry>, oldest: nat, base: Bytes -> bool)
    requires Ascending(merged)
    requires forall e :: e in merged ==> e.Seqno() <= oldest
    ensures OneVersionPerKey(Survivors(merged, None, oldest, base))
  {
    SurvivorsAreSurviving(merged, oldest, base);
    OrderFacts();
    var r := Survivors(merged, None, oldest, base);
    forall i, j | 0 <= i < j < |r| ensures r[i].Key() != r[j].Key() {
      assert VersionBefore(r[i], r[j]);
      assert r[i] in r && r[j] in r;
      if r[i].Key() == r[j].Key() {
        assert Shadowed(SetOf(merged), r[j], oldest);
      }
    }
  }

  /** So no cut of the output can fall inside a key when no snapshot is live. */
  lemma NoSnapshotNoCutInsideKey(merged: seq<Entry>, oldest: nat, base: Bytes -> bool, gps: seq<FileMeta>, estimate: seq<Entry> -> nat)
    requires Ascending(merged)
    requires forall e :: e in merged ==> e.Seqno() <= oldest
    ensures var files := Outputs(Survivors(merged, None, oldest, base), gps, estimate);
            NonEmpty(files) && NoCutInsideKey(files) && RangesAscend(files)
  {
    var es := Survivors(merged, None, oldest, base);
    var files := Outputs(es, gps, estimate);
    OneVersionSurvives(merged, oldest, base);
    SurvivorsAreSurviving(merged, oldest, base);
    OutputsArePartition(es, gps, estimate);
    forall i | 0 <= i < |files| - 1 ensures CutBetweenKeys(files[i], files[i + 1]) {
      var p := FlattenContains(files, i, |files[i]| - 1);
      var q := FlattenContains(files, i + 1, 0);
      FlattenMonotone(files, i, i + 1);
      assert es[p].Key() != es[q].Key();
    }
    RangesAscendIffNoCutInsideKey(files);
  }
}
