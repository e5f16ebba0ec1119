/** Merging sorted sources, and the user's scan over the merge. */
module Iterators {
  import opened ByteStrings
  import opened InternalKeys
  import opened VersionedEntries
  import opened Sorting

  /** The heap's element: an entry and the source it came from. */
  datatype Buffered = Buffered(entry: Entry, src: nat)

  /** Sorted, repetitions allowed. */
  ghost predicate InOrder(es: seq<Entry>) {
    forall i, j :: 0 <= i < j < |es| ==> !VersionBefore(es[j], es[i])
  }

  function HeapEntries(heap: seq<Buffered>): (es: seq<Entry>)
    ensures |es| == |heap|
  {
    seq(|heap|, i requires 0 <= i < |heap| => heap[i].entry)
  }

  lemma {:induction false} ConcatUpdate(sources: seq<seq<Entry>>, i: nat)
    requires i < |sources| && sources[i] != []
    ensures multiset(Concat(sources)) == multiset(Concat(sources[i := sources[i][1..]])) + multiset{sources[i][0]}
  {
    var s := sources[i];
    var after := sources[i := s[1..]];
    var rest := Concat(after[1..]);
    if i == 0 {
      assert after[1..] == sources[1..];
      assert s + rest == [s[0]] + (s[1..] + rest);
    } else {
      ConcatUpdate(sources[1..], i - 1);
      assert after[1..] == sources[1..][i - 1 := s[1..]];
      assert multiset(sources[0] + rest) == multiset(sources[0]) + multiset(rest);
    }
  }

  lemma {:induction false} ConcatMembers(sources: seq<seq<Entry>>, e: Entry)
    ensures e in Concat(sources) <==> exists i :: 0 <= i < |sources| && e in sources[i]
  {
    if sources != [] {
      ConcatMembers(sources[1..], e);
      if i :| 0 <= i < |sources| && e in sources[i] {
        assert i > 0 ==> e in sources[1..][i - 1];
      }
      if i :| 0 <= i < |sources[1..]| && e in sources[1..][i] {
        assert e in sources[i + 1];
      }
    }
  }

  /** Nothing in the heap comes before its element at `m`. */
  predicate MinimumAt(heap: seq<Buffered>, m: nat) {
    m < |heap| && forall j :: 0 <= j < |heap| ==> !VersionBefore(heap[j].entry, heap[m].entry)
  }

  lemma {:induction false} MinimumExists(heap: seq<Buffered>) returns (m: nat)
    requires heap != []
    ensures m < |heap| && MinimumAt(heap, m)
  {
    OrderFacts();
    m := 0;
    if |heap| > 1 {
      var front := heap[..|heap| - 1];
      var k := MinimumExists(front);
      var last := |heap| - 1;
      m := if VersionBefore(heap[last].entry, heap[k].entry) then last else k;
      forall j | 0 <= j < |heap| ensures !VersionBefore(heap[j].entry, heap[m].entry) {
        if j < last {
          assert front[j] == heap[j];
          assert !VersionBefore(front[j].entry, front[k].entry);
        }
      }
    }
  }

  /** The sources are sorted, each with something left has a buffered entry before the rest of it. */
  ghost predicate MergeOk(sources: seq<seq<Entry>>, heap: seq<Buffered>) {
    && (forall i :: 0 <= i < |sources| ==> InOrder(sources[i]))
    && (forall b :: b in heap ==> b.src < |sources| && forall e :: e in sources[b.src] ==> !VersionBefore(e, b.entry))
    && (forall i :: 0 <= i < |sources| && sources[i] != [] ==> exists b :: b in heap && b.src == i)
  }

  /** A minimum of the heap is a minimum of everything left. */
  lemma HeapMinimumIsMinimum(sources: seq<seq<Entry>>, heap: seq<Buffered>, m: nat, e: Entry)
    requires MergeOk(sources, heap)
    requires m < |heap| && MinimumAt(heap, m)
    requires e in HeapEntries(heap) || e in Concat(sources)
    ensures !VersionBefore(e, heap[m].entry)
  {
    OrderFacts();
    if e in HeapEntries(heap) {
      var j :| 0 <= j < |heap| && HeapEntries(heap)[j] == e;
      assert !VersionBefore(heap[j].entry, heap[m].entry);
    } else {
      ConcatMembers(sources, e);
      var i :| 0 <= i < |sources| && e in sources[i];
      var b :| b in heap && b.src == i;
      var j :| 0 <= j < |heap| && heap[j] == b;
      assert !VersionBefore(heap[j].entry, heap[m].entry);
      assert !VersionBefore(e, b.entry);
    }
  }

  function Removed(heap: seq<Buffered>, m: nat): seq<Buffered>
    requires m < |heap|
  {
    heap[..m] + heap[m + 1..]
  }

  lemma RemovedEntries(heap: seq<Buffered>, m: nat)
    requires m < |heap|
    ensures multiset(HeapEntries(heap)) == multiset(HeapEntries(Removed(heap, m))) + multiset{heap[m].entry}
    ensures forall b :: b in Removed(heap, m) ==> b in heap
    ensures forall b :: b in heap ==> b in Removed(heap, m) || b == heap[m]
  {
    var es := HeapEntries(heap);
    assert es == es[..m] + [es[m]] + es[m + 1..];
    assert HeapEntries(Removed(heap, m)) == es[..m] + es[m + 1..];
    assert heap == heap[..m] + [heap[m]] + heap[m + 1..];
  }

  lemma PushedEntries(heap: seq<Buffered>, b: Buffered)
    ensures multiset(HeapEntries(heap + [b])) == multiset(HeapEntries(heap)) + multiset{b.entry}
  {
    assert HeapEntries(heap + [b]) == HeapEntries(heap) + [b.entry];
  }

  lemma TailInOrder(es: seq<Entry>)
    requires InOrder(es) && es != []
    ensures InOrder(es[1..]) && forall e :: e in es[1..] ==> !VersionBefore(e, es[0])
  {
  }

  class MergingIterator {
    /** What each source has still to yield. */
    var sources: seq<seq<Entry>>
    var heap: seq<Buffered>

    ghost predicate Valid()
      reads this
    {
      MergeOk(sources, heap)
    }

    /** Everything not yet yielded. */
    ghost function Remaining(): multiset<Entry>
      reads this
    {
      multiset(HeapEntries(heap)) + multiset(Concat(sources))
    }

    /** `new`: the first entry of every source is buffered. */
    constructor (all: seq<seq<Entry>>)
      requires forall i :: 0 <= i < |all| ==> InOrder(all[i])
      ensures Valid() && Remaining() == multiset(Concat(all))
    {
      sources, heap := all, [];
      new;
      for i := 0 to |all|
        invariant |sources| == |all| && forall j :: i <= j < |all| ==> sources[j] == all[j]
        invariant forall j :: 0 <= j < |all| ==> InOrder(sources[j])
        invariant forall b :: b in heap ==> b.src < i && forall e :: e in sources[b.src] ==> !VersionBefore(e, b.entry)
        invariant forall j :: 0 <= j < i && sources[j] != [] ==> exists b :: b in heap && b.src == j
        invariant Remaining() == multiset(Concat(all))
      {
        Advance(i);
      }
    }

    /** Takes the next entry of source `i`, if any, into the heap. */
    method Advance(i: nat)
      requires i < |sources| && InOrder(sources[i])
      modifies this
      ensures Remaining() == old(Remaining())
      ensures |sources| == |old(sources)| && InOrder(sources[i])
      ensures forall j :: 0 <= j < |sources| && j != i ==> sources[j] == old(sources[j])
      ensures old(sources[i]) == [] ==> sources == old(sources) && heap == old(heap)
      ensures old(sources[i]) != [] ==>
                heap == old(heap) + [Buffered(old(sources[i])[0], i)] && sources[i] == old(sources[i])[1..]
    {
      if sources[i] != [] {
        var e := sources[i][0];
        ConcatUpdate(sources, i);
        TailInOrder(sources[i]);
        PushedEntries(heap, Buffered(e, i));
        sources := sources[i := sources[i][1..]];
        heap := heap + [Buffered(e, i)];
      }
    }

    /** The top of the heap: any minimum. */
    method Top() returns (m: nat)
      requires heap != []
      ensures m < |heap| && MinimumAt(heap, m)
    {
      hide MinimumAt;
      ghost var least := MinimumExists(heap);
      m :| 0 <= m < |heap| && MinimumAt(heap, m);
    }

    /** `next`: pops a minimum of the heap and refills from its source. */
    method Next() returns (r: Option<Entry>)
      requires Valid()
      modifies this
      ensures Valid()
      ensures r.None? <==> old(Remaining()) == multiset{}
      ensures r.None? ==> Remaining() == multiset{}
      ensures r.Some? ==> old(Remaining()) == Remaining() + multiset{r.value}
      ensures r.Some? ==> forall e :: e in old(Remaining()) ==> !VersionBefore(e, r.value)
    {
      hide VersionBefore, MergeOk, Removed, Concat, HeapEntries;
      if heap == [] {
        NothingBuffered(sources, heap);
        return None;
      }
      var m := Top();
      ghost var sources0, heap0 := sources, heap;
      var top := heap[m];
      SourceInRange(sources, heap, m);
      MinimumOfAll(sources, heap, m);
      RemovedEntries(heap, m);
      r := Some(top.entry);
      heap := Removed(heap, m);
      Advance(top.src);
      RefilledIsOk(sources0, heap0, m, sources, heap);
    }

    /** `peek`: a minimum, left in place. */
    method Peek() returns (r: Option<Entry>)
      requires Valid()
      ensures r.None? <==> Remaining() == multiset{}
      ensures r.Some? ==> r.value in Remaining() && forall e :: e in Remaining() ==> !VersionBefore(e, r.value)
    {
      hide VersionBefore, MergeOk, Removed, Concat, HeapEntries;
      if heap == [] {
        NothingBuffered(sources, heap);
        return None;
      }
      var m := Top();
      MinimumOfAll(sources, heap, m);
      RemovedEntries(heap, m);
      return Some(heap[m].entry);
    }
  }

  lemma SourceInRange(sources: seq<seq<Entry>>, heap: seq<Buffered>, m: nat)
    requires MergeOk(sources, heap) && m < |heap|
    ensures heap[m].src < |sources| && InOrder(sources[heap[m].src])
  {
  }

  lemma NothingBuffered(sources: seq<seq<Entry>>, heap: seq<Buffered>)
    requires MergeOk(sources, heap) && heap == []
    ensures multiset(HeapEntries(heap)) + multiset(Concat(sources)) == multiset{}
  {
  }

  lemma MinimumOfAll(sources: seq<seq<Entry>>, heap: seq<Buffered>, m: nat)
    requires MergeOk(sources, heap)
    requires m < |heap| && MinimumAt(heap, m)
    ensures forall e :: e in multiset(HeapEntries(heap)) + multiset(Concat(sources)) ==> !VersionBefore(e, heap[m].entry)
  {
    hide MergeOk, VersionBefore;
    forall e | e in multiset(HeapEntries(heap)) + multiset(Concat(sources)) ensures !VersionBefore(e, heap[m].entry) {
      HeapMinimumIsMinimum(sources, heap, m, e);
    }
  }

  /** After a pop and the refill from the same source, the heap covers what is left. */
  lemma RefilledIsOk(sources0: seq<seq<Entry>>, heap0: seq<Buffered>, m: nat, sources: seq<seq<Entry>>, heap: seq<Buffered>)
    requires MergeOk(sources0, heap0) && m < |heap0|
    requires var src := heap0[m].src;
             && |sources| == |sources0| && src < |sources|
             && InOrder(sources[src])
             && (forall j :: 0 <= j < |sources| && j != src ==> sources[j] == sources0[j])
             && (sources0[src] == [] ==> sources == sources0 && heap == Removed(heap0, m))
             && (sources0[src] != [] ==>
                   heap == Removed(heap0, m) + [Buffered(sources0[src][0], src)] && sources[src] == sources0[src][1..])
    ensures MergeOk(sources, heap)
  {
  }

  // ----- what a merge yields ------------------------------------------------------------------

  /** What one `next` over `before` may answer: nothing, or a minimum that leaves `after`. */
  ghost predicate Yields(before: multiset<Entry>, item: Option<Entry>, after: multiset<Entry>) {
    match item
    case None => before == multiset{} && after == multiset{}
    case Some(e) => before == after + multiset{e} && forall x :: x in before ==> !VersionBefore(x, e)
  }

  /** Halfway through a merge of `all`: what came out is sorted, and `item` is next, with `left` behind it. */
  ghost predicate Merging(out: seq<Entry>, item: Option<Entry>, left: multiset<Entry>, all: multiset<Entry>) {
    && InOrder(out)
    && (match item
        case None => multiset(out) == all
        case Some(e) =>
          && multiset(out) + multiset{e} + left == all
          && forall x :: x in out ==> !VersionBefore(e, x))
    && (item.Some? ==> forall x :: x in left ==> !VersionBefore(x, item.value))
  }

  lemma MergeStarts(item: Option<Entry>, left: multiset<Entry>, all: multiset<Entry>)
    requires Yields(all, item, left)
    ensures Merging([], item, left, all)
  {
    hide VersionBefore;
  }

  lemma MergeGoesOn(out: seq<Entry>, last: Entry, before: multiset<Entry>, item: Option<Entry>, after: multiset<Entry>, all: multiset<Entry>)
    requires Merging(out, Some(last), before, all) && Yields(before, item, after)
    ensures Merging(out + [last], item, after, all)
  {
    hide VersionBefore, InOrder;
    PushInOrder(out, last);
    if item.Some? {
      assert item.value in before;
      NoneBefore(out, last, item.value);
    }
  }

  /** Draining the iterator: a sorted permutation of all sources together. */
  method Drain(all: seq<seq<Entry>>) returns (out: seq<Entry>)
    requires forall i :: 0 <= i < |all| ==> InOrder(all[i])
    ensures InOrder(out) && multiset(out) == multiset(Concat(all))
  {
    hide MergingIterator.Valid, MergingIterator.Remaining, Concat, VersionBefore, InOrder;
    var it := new MergingIterator(all);
    out := [];
    var next := it.Next();
    MergeStarts(next, it.Remaining(), multiset(Concat(all)));
    while next.Some?
      invariant it.Valid() && fresh(it) && Merging(out, next, it.Remaining(), multiset(Concat(all)))
      decreases |it.Remaining()|, next.Some?
    {
      ghost var before, out0, last := it.Remaining(), out, next.value;
      out := out + [next.value];
      next := it.Next();
      MergeGoesOn(out0, last, before, next, it.Remaining(), multiset(Concat(all)));
    }
  }

  lemma PushInOrder(out: seq<Entry>, e: Entry)
    requires InOrder(out) && forall x :: x in out ==> !VersionBefore(e, x)
    ensures InOrder(out + [e])
  {
    hide VersionBefore;
  }

  lemma NoneBefore(out: seq<Entry>, last: Entry, next: Entry)
    requires forall e :: e in out ==> !VersionBefore(last, e)
    requires !VersionBefore(next, last)
    ensures forall e :: e in out + [last] ==> !VersionBefore(next, e)
  {
    OrderFacts();
  }

  /** When no version occurs twice, that permutation is the sorted insertion of everything. */
  lemma MergeIsInsertAll(all: seq<seq<Entry>>, out: seq<Entry>)
    requires NoRepeatedVersion(Concat(all))
    requires InOrder(out) && multiset(out) == multiset(Concat(all))
    ensures out == InsertAll([], Concat(all)) && Ascending(out)
  {
    var es := Concat(all);
    InsertAllKeepsOrder([], es);
    forall e ensures e in out <==> e in es {
      assert e in out <==> e in multiset(out);
      assert e in es <==> e in multiset(es);
    }
    DistinctInOrderIsAscending(out, es);
    SortedListIsUnique(out, InsertAll([], es));
  }

  lemma DistinctInOrderIsAscending(out: seq<Entry>, es: seq<Entry>)
    requires NoRepeatedVersion(es) && InOrder(out) && multiset(out) == multiset(es)
    ensures Ascending(out)
  {
    OrderFacts();
    forall i, j | 0 <= i < j < |out| ensures VersionBefore(out[i], out[j]) {
      assert !VersionBefore(out[j], out[i]);
      TwoInSequence(out, i, j);
      var p, q := TwoPositions(out[i], out[j], es);
      assert es[p].Key() == es[q].Key() ==> es[p].Seqno() != es[q].Seqno();
    }
  }

  lemma TwoInSequence(out: seq<Entry>, i: nat, j: nat)
    requires i < j < |out|
    ensures multiset{out[i], out[j]} <= multiset(out)
  {
    assert out == out[..i] + [out[i]] + out[i + 1..j] + [out[j]] + out[j + 1..];
  }

  /** Two elements of a sequence's multiset sit at two positions. */
  lemma TwoPositions(a: Entry, b: Entry, es: seq<Entry>) returns (p: nat, q: nat)
    requires multiset{a, b} <= multiset(es)
    ensures p < |es| && q < |es| && p != q && es[p] == a && es[q] == b
  {
    assert a in multiset(es);
    p :| p < |es| && es[p] == a;
    assert es == es[..p] + [a] + es[p + 1..];
    var rest := es[..p] + es[p + 1..];
    assert multiset(es) == multiset(rest) + multiset{a};
    assert multiset{a, b} == multiset{a} + multiset{b};
    assert b in multiset(rest);
    q :| q < |rest| && rest[q] == b;
    q := if q < p then q else q + 1;
  }

  // ----- the user's scan ----------------------------------------------------------------------

  /** The rest of a sorted list once the older versions of `k` at its front are skipped. */
  function SkipKey(es: seq<Entry>, k: Bytes): (r: seq<Entry>)
    ensures |r| <= |es|
  {
    if es != [] && es[0].Key() == k then SkipKey(es[1..], k) else es
  }

  /** One `advance` over what the merge still has: the next pair to show, and what is left. */
  function Scan(todo: seq<Entry>, s: nat): (r: (Option<(Bytes, Bytes)>, seq<Entry>))
    ensures r.0.Some? ==> |r.1| < |todo|
    ensures r.0.None? ==> r.1 == []
    decreases |todo|
  {
    if todo == [] then (None, [])
    else if todo[0].Seqno() > s then Scan(todo[1..], s)
    else
      var rest := SkipKey(todo[1..], todo[0].Key());
      if todo[0].ik.vtype.Put? then (Some((todo[0].Key(), todo[0].value)), rest) else Scan(rest, s)
  }

  /** All pairs a scan shows. */
  function ScanAll(todo: seq<Entry>, s: nat): seq<(Bytes, Bytes)>
    decreases |todo|
  {
    var r := Scan(todo, s);
    if r.0.None? then [] else [r.0.value] + ScanAll(r.1, s)
  }

  class DbIter {
    const inner: MergingIterator
    const snapshot: nat
    var pending: Option<(Bytes, Bytes)>
    /** What the merge has still to yield. */
    ghost var todo: seq<Entry>

    ghost predicate Valid()
      reads this, inner
    {
      inner.Valid() && Ascending(todo) && inner.Remaining() == multiset(todo)
    }

    /** The pairs still to come. */
    ghost function Shows(): seq<(Bytes, Bytes)>
      reads this
    {
      if pending.Some? then [pending.value] + ScanAll(todo, snapshot) else []
    }

    constructor (inner: MergingIterator, snapshot: nat, ghost es: seq<Entry>)
      requires inner.Valid() && Ascending(es) && inner.Remaining() == multiset(es)
      modifies inner
      ensures Valid() && this.inner == inner && this.snapshot == snapshot
      ensures Shows() == ScanAll(es, snapshot)
    {
      this.inner, this.snapshot := inner, snapshot;
      pending := None;
      todo := es;
      new;
      Advance();
    }

    /** The next inner entry is the first of `todo`. */
    method NextInner() returns (r: Option<Entry>)
      requires Valid()
      modifies this`todo, inner
      ensures Valid()
      ensures old(todo) == [] ==> r == None && todo == []
      ensures old(todo) != [] ==> r == Some(old(todo)[0]) && todo == old(todo)[1..]
    {
      hide MergingIterator.Valid, MergingIterator.Remaining, VersionBefore, Ascending;
      ghost var before := inner.Remaining();
      r := inner.Next();
      if r.Some? {
        NextIsFirst(todo, before, inner.Remaining(), r.value);
        todo := todo[1..];
      } else {
        NothingLeft(todo);
      }
    }

    method PeekInner() returns (r: Option<Entry>)
      requires Valid()
      ensures r == if todo == [] then None else Some(todo[0])
    {
      hide MergingIterator.Valid, MergingIterator.Remaining, VersionBefore, Ascending;
      r := inner.Peek();
      if r.Some? {
        FirstIsMinimum(todo, r.value);
      } else {
        NothingLeft(todo);
      }
    }

    /** `advance`: the newest visible version of each key, deletions skipped. */
    method Advance()
      requires Valid()
      modifies this`pending, this`todo, inner
      ensures Valid() && (pending, todo) == Scan(old(todo), snapshot)
    {
      hide Ascending, MergingIterator.Valid, MergingIterator.Remaining, SkipKey;
      pending := None;
      ghost var all := todo;
      var next := NextInner();
      while next.Some?
        invariant Valid() && pending == None
        invariant next.Some? ==> Scan([next.value] + todo, snapshot) == Scan(all, snapshot)
        invariant next.None? ==> todo == [] && Scan(all, snapshot) == (None, [])
        decreases |todo|, next.Some?
      {
        var e := next.value;
        assert ([e] + todo)[1..] == todo;
        if e.Seqno() <= snapshot {
          SkipVersions(e.Key());
          if e.ik.vtype.Put? {
            pending := Some((e.Key(), e.value));
            return;
          }
        }
        ghost var rest := todo;
        next := NextInner();
        assert rest != [] ==> rest == [rest[0]] + rest[1..];
      }
    }

    /** The inner loop: older versions of the key just handled are dropped. */
    method SkipVersions(k: Bytes)
      requires Valid()
      modifies this`todo, inner
      ensures Valid() && todo == SkipKey(old(todo), k)
    {
      hide Ascending, MergingIterator.Valid, MergingIterator.Remaining;
      var top := PeekInner();
      while top.Some? && top.value.Key() == k
        invariant Valid() && top == if todo == [] then None else Some(todo[0])
        invariant SkipKey(todo, k) == SkipKey(old(todo), k)
        decreases |todo|
      {
        var skipped := NextInner();
        top := PeekInner();
      }
    }

    /** Each call shows the next pair. */
    method Next() returns (r: Option<(Bytes, Bytes)>)
      requires Valid()
      modifies this, inner
      ensures Valid()
      ensures old(Shows()) == [] ==> r == None && Shows() == []
      ensures old(Shows()) != [] ==> r == Some(old(Shows())[0]) && Shows() == old(Shows())[1..]
    {
      hide Ascending, MergingIterator.Valid, MergingIterator.Remaining, Scan;
      if pending.None? {
        return None;
      }
      r := pending;
      Advance();
    }
  }

  /** What a merge yields next is the first of the sorted list of what it has left. */
  lemma NextIsFirst(todo: seq<Entry>, before: multiset<Entry>, after: multiset<Entry>, e: Entry)
    requires Ascending(todo) && before == multiset(todo) && before == after + multiset{e}
    requires forall x :: x in before ==> !VersionBefore(x, e)
    ensures todo != [] && todo[0] == e && Ascending(todo[1..]) && after == multiset(todo[1..])
  {
    hide VersionBefore, Ascending;
    assert e in before;
    FirstIsMinimum(todo, e);
    AscendingTail(todo);
    LessOne(todo, before, after, e);
  }

  lemma LessOne(todo: seq<Entry>, before: multiset<Entry>, after: multiset<Entry>, e: Entry)
    requires todo != [] && todo[0] == e && before == multiset(todo) && before == after + multiset{e}
    ensures after == multiset(todo[1..])
  {
    assert todo == [e] + todo[1..];
    assert before == multiset{e} + multiset(todo[1..]);
    assert after == before - multiset{e} && multiset(todo[1..]) == before - multiset{e};
  }

  lemma NothingLeft(todo: seq<Entry>)
    requires multiset(todo) == multiset{}
    ensures todo == []
  {
    assert |multiset(todo)| == |todo|;
  }

  lemma AscendingTail(es: seq<Entry>)
    requires Ascending(es) && es != []
    ensures Ascending(es[1..])
  {
  }

  /** A minimum of a sorted list without repetition is its first element. */
  lemma FirstIsMinimum(todo: seq<Entry>, e: Entry)
    requires Ascending(todo) && e in multiset(todo)
    requires forall x :: x in multiset(todo) ==> !VersionBefore(x, e)
    ensures todo != [] && todo[0] == e
  {
  }

  // ----- what a scan shows --------------------------------------------------------------------

  lemma {:induction false} SkipKeyMembers(es: seq<Entry>, k: Bytes)
    requires Ascending(es) && forall e :: e in es ==> !Before(e.Key(), k)
    ensures Ascending(SkipKey(es, k))
    ensures forall e :: e in SkipKey(es, k) <==> e in es && e.Key() != k
    ensures forall e :: e in SkipKey(es, k) ==> Before(k, e.Key())
  {
    OrderFacts();
    if es != [] && es[0].Key() == k {
      AscendingTail(es);
      SkipKeyMembers(es[1..], k);
      assert es == [es[0]] + es[1..];
    } else if es != [] {
      forall e | e in es ensures Before(k, e.Key()) {
        var i :| 0 <= i < |es| && es[i] == e;
        assert 0 < i ==> VersionBefore(es[0], es[i]);
        assert es[0] in es;
      }
    }
  }

  lemma FirstKeyIsLeast(es: seq<Entry>)
    requires Ascending(es) && es != []
    ensures Ascending(es[1..]) && forall e :: e in es[1..] ==> !Before(e.Key(), es[0].Key()) && VersionBefore(es[0], e)
  {
    OrderFacts();
    AscendingTail(es);
    forall e | e in es[1..] ensures !Before(e.Key(), es[0].Key()) && VersionBefore(es[0], e) {
      var i :| 0 <= i < |es[1..]| && es[1..][i] == e;
      assert VersionBefore(es[0], es[i + 1]);
    }
  }

  /** The first entry of a sorted list, once visible, is the newest version of its key. */
  lemma FirstVisibleIsNewest(es: seq<Entry>, s: nat)
    requires Ascending(es) && es != [] && es[0].Seqno() <= s
    ensures Newest(SetOf(es), es[0].Key(), s) == Some(es[0])
  {
    OrderFacts();
    FirstKeyIsLeast(es);
    AscendingIsDistinct(es);
    assert es == [es[0]] + es[1..];
    assert IsNewest(SetOf(es), es[0].Key(), s, es[0]);
    NewestIsUnique(SetOf(es), es[0].Key(), s, es[0]);
  }

  lemma OtherKeysAfterSkip(es: seq<Entry>, s: nat, k: Bytes)
    requires Ascending(es) && es != []
    ensures var rest := SkipKey(es[1..], es[0].Key());
            && Ascending(rest)
            && (k != es[0].Key() ==> View(SetOf(es), k, s) == View(SetOf(rest), k, s))
            && (forall e :: e in rest ==> Before(es[0].Key(), e.Key()))
  {
    FirstKeyIsLeast(es);
    SkipKeyMembers(es[1..], es[0].Key());
    var rest := SkipKey(es[1..], es[0].Key());
    AscendingIsDistinct(es);
    AscendingIsDistinct(rest);
    assert es == [es[0]] + es[1..];
    hide Ascending, View;
    if k != es[0].Key() {
      ViewDependsOnVisible(SetOf(es), SetOf(rest), k, s);
    }
  }

  lemma InvisibleFirst(es: seq<Entry>, s: nat, k: Bytes)
    requires Ascending(es) && es != [] && es[0].Seqno() > s
    ensures Ascending(es[1..]) && View(SetOf(es), k, s) == View(SetOf(es[1..]), k, s)
  {
    AscendingTail(es);
    AscendingIsDistinct(es);
    AscendingIsDistinct(es[1..]);
    assert es == [es[0]] + es[1..];
    hide Ascending, View;
    ViewDependsOnVisible(SetOf(es), SetOf(es[1..]), k, s);
  }

  /** Keys of pairs ascend strictly. */
  ghost predicate KeysAscend(pairs: seq<(Bytes, Bytes)>) {
    forall i, j :: 0 <= i < j < |pairs| ==> Before(pairs[i].0, pairs[j].0)
  }

  /** One step shows the least key with a value, and leaves exactly the keys after it. */
  lemma {:induction false} ScanShowsNext(todo: seq<Entry>, s: nat, k: Bytes)
    requires Ascending(todo)
    ensures var r := Scan(todo, s);
            && Ascending(r.1)
            && (r.0.None? ==> View(SetOf(todo), k, s) == None)
            && (r.0.Some? ==> View(SetOf(todo), k, s) == if k == r.0.value.0 then Some(r.0.value.1) else View(SetOf(r.1), k, s))
            && (r.0.Some? ==> (exists e :: e in todo && e.Key() == r.0.value.0)
                              && forall e :: e in r.1 ==> Before(r.0.value.0, e.Key()) && e in todo)
    decreases |todo|
  {
    if todo == [] {
      NothingVisible(SetOf(todo), k, s);
    } else if todo[0].Seqno() > s {
      InvisibleFirst(todo, s, k);
      ScanShowsNext(todo[1..], s, k);
      assert forall e :: e in todo[1..] ==> e in todo;
    } else {
      FirstVisibleIsNewest(todo, s);
      OtherKeysAfterSkip(todo, s, k);
      FirstKeyIsLeast(todo);
      var rest := SkipKey(todo[1..], todo[0].Key());
      SkipKeyMembers(todo[1..], todo[0].Key());
      assert forall e :: e in rest ==> e in todo;
      if todo[0].ik.vtype.Delete? {
        ScanShowsNext(rest, s, k);
        KeyGone(rest, todo[0].Key(), s);
      } else {
        assert todo[0] in todo;
      }
    }
  }

  lemma KeyGone(es: seq<Entry>, k: Bytes, s: nat)
    requires forall e :: e in es ==> Before(k, e.Key())
    ensures View(SetOf(es), k, s) == None
  {
    OrderFacts();
    NothingVisible(SetOf(es), k, s);
  }

  lemma ScanAllUnfolds(todo: seq<Entry>, s: nat)
    ensures var r := Scan(todo, s);
            ScanAll(todo, s) == if r.0.None? then [] else [r.0.value] + ScanAll(r.1, s)
  {
    hide Scan;
  }

  /**
   * A scan at `s` over a sorted merge shows exactly the keys whose newest version at or below `s` is a
   * value, each with that value, in strictly ascending order.
   */
  lemma {:induction false} ScanShowsView(todo: seq<Entry>, s: nat)
    requires Ascending(todo)
    ensures var pairs := ScanAll(todo, s);
            && KeysAscend(pairs)
            && (forall k, v :: (k, v) in pairs <==> View(SetOf(todo), k, s) == Some(v))
            && (forall p :: p in pairs ==> exists e :: e in todo && e.Key() == p.0)
    decreases |todo|
  {
    hide Scan, ScanAll, View, Ascending;
    var r := Scan(todo, s);
    ScanAllUnfolds(todo, s);
    ScanShowsNext(todo, s, []);
    if r.0.None? {
      forall k, v ensures View(SetOf(todo), k, s) != Some(v) {
        ScanShowsNext(todo, s, k);
      }
    } else {
      ScanShowsView(r.1, s);
      var rest := ScanAll(r.1, s);
      var first := r.0.value;
      var pairs := [first] + rest;
      forall p | p in rest ensures Before(first.0, p.0) {
        var e :| e in r.1 && e.Key() == p.0;
      }
      forall k, v ensures (k, v) in pairs <==> View(SetOf(todo), k, s) == Some(v) {
        OrderFacts();
        ScanShowsNext(todo, s, k);
        assert (k, v) in pairs <==> (k, v) == first || (k, v) in rest;
      }
      assert KeysAscend(pairs);
    }
  }
}
