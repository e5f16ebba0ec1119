/** The skip list under the memtable: an arena of towers that refines a sorted sequence. */
module SkipLists {
  import opened ByteStrings
  import opened InternalKeys
  import opened VersionedEntries
  import opened Sorting

  const MAX_HEIGHT: nat := 12
  const HEAD: nat := 0

  /** A tower: its entry and, per level, the arena index of its successor. */
  datatype Node = Node(entry: Entry, next: seq<Option<nat>>) {
    function Height(): nat { |next| }
  }

  // ----- the arena and its ghost order --------------------------------------------------------

  /** `order` lists the arena in key order, head first, and `rank` is its inverse. */
  ghost predicate Permutes(nodes: seq<Node>, order: seq<nat>, rank: seq<nat>) {
    && |order| == |nodes| == |rank| > 0
    && order[0] == HEAD
    && (forall p :: 0 <= p < |order| ==> order[p] < |nodes| && rank[order[p]] == p)
    && (forall i :: 0 <= i < |rank| ==> rank[i] < |order| && order[rank[i]] == i)
  }

  ghost predicate HeightsOk(nodes: seq<Node>, maxHeight: nat) {
    && nodes != [] && nodes[HEAD].Height() == MAX_HEIGHT
    && 1 <= maxHeight <= MAX_HEIGHT
    && (forall i :: 0 < i < |nodes| ==> 1 <= nodes[i].Height() <= maxHeight)
  }

  /** No tower strictly between two positions of the order reaches `level`. */
  ghost predicate Gap(nodes: seq<Node>, order: seq<nat>, lo: int, hi: int, level: nat)
    requires 0 <= lo && hi <= |order| && forall p :: 0 <= p < |order| ==> order[p] < |nodes|
  {
    forall p :: lo < p < hi ==> nodes[order[p]].Height() <= level
  }

  /** The successor of tower `i` at `level` is the next tower in order that reaches the level. */
  ghost predicate NextOk(nodes: seq<Node>, order: seq<nat>, rank: seq<nat>, i: nat, level: nat)
    requires Permutes(nodes, order, rank) && i < |nodes| && level < nodes[i].Height()
  {
    match nodes[i].next[level]
    case None => Gap(nodes, order, rank[i], |order|, level)
    case Some(j) =>
      j < |nodes| && rank[i] < rank[j] && level < nodes[j].Height() && Gap(nodes, order, rank[i], rank[j], level)
  }

  ghost predicate Linked(nodes: seq<Node>, order: seq<nat>, rank: seq<nat>)
    requires Permutes(nodes, order, rank)
  {
    forall i, level :: 0 <= i < |nodes| && 0 <= level < nodes[i].Height() ==> NextOk(nodes, order, rank, i, level)
  }

  /** The entries in key order, head excluded. */
  ghost function EntriesIn(nodes: seq<Node>, order: seq<nat>): (es: seq<Entry>)
    requires order != [] && forall p :: 0 <= p < |order| ==> order[p] < |nodes|
    ensures |es| == |order| - 1
  {
    seq(|order| - 1, p requires 0 <= p < |order| - 1 => nodes[order[p + 1]].entry)
  }

  /** Keys never descend. */
  ghost predicate SortedEntries(es: seq<Entry>) {
    forall p, q :: 0 <= p < q < |es| ==> !KeyBefore(es[q].ik, es[p].ik)
  }

  ghost predicate WellFormed(nodes: seq<Node>, maxHeight: nat, order: seq<nat>, rank: seq<nat>) {
    && Permutes(nodes, order, rank)
    && HeightsOk(nodes, maxHeight)
    && Linked(nodes, order, rank)
    && SortedEntries(EntriesIn(nodes, order))
  }

  // ----- inserting a tower --------------------------------------------------------------------

  /** The first entry not before `key`. */
  function Position(es: seq<Entry>, key: InternalKey): (p: nat)
    ensures p <= |es|
    ensures forall i :: 0 <= i < p ==> KeyBefore(es[i].ik, key)
    ensures p < |es| ==> !KeyBefore(es[p].ik, key)
  {
    if es == [] || !KeyBefore(es[0].ik, key) then 0 else 1 + Position(es[1..], key)
  }

  lemma {:induction false} InsertAtPosition(es: seq<Entry>, e: Entry)
    ensures Insert(es, e) == es[..Position(es, e.ik)] + [e] + es[Position(es, e.ik)..]
  {
    if es != [] && KeyBefore(es[0].ik, e.ik) {
      InsertAtPosition(es[1..], e);
      var p := Position(es[1..], e.ik);
      assert es[1..][..p] == es[1..p + 1] && es[1..][p..] == es[p + 1..];
      assert es[..p + 1] == [es[0]] + es[1..p + 1];
    }
  }

  /** What the search leaves for `level`: the last tower before position `at` that reaches it. */
  ghost predicate PrevOk(nodes: seq<Node>, order: seq<nat>, rank: seq<nat>, at: nat, prev: nat, level: nat)
    requires Permutes(nodes, order, rank) && at <= |order|
  {
    prev < |nodes| && level < nodes[prev].Height() && rank[prev] < at && Gap(nodes, order, rank[prev], at, level)
  }

  /** Where a link leads once the tower is woven into the levels below `|prev|`. */
  function LinkAfter(nodes: seq<Node>, prev: seq<nat>, i: nat, l: nat): Option<nat>
    requires i < |nodes| && l < nodes[i].Height()
  {
    if l < |prev| && prev[l] == i then Some(|nodes|) else nodes[i].next[l]
  }

  /** The arena after splicing a tower of height `|prev|` in behind the towers `prev`. */
  ghost predicate Spliced(nodes: seq<Node>, prev: seq<nat>, e: Entry, nodes': seq<Node>) {
    && |nodes'| == |nodes| + 1
    && nodes'[|nodes|].entry == e && nodes'[|nodes|].Height() == |prev|
    && (forall l :: 0 <= l < |prev| ==> prev[l] < |nodes| && l < nodes[prev[l]].Height() && nodes'[|nodes|].next[l] == nodes[prev[l]].next[l])
    && (forall i :: 0 <= i < |nodes| ==> nodes'[i].entry == nodes[i].entry && nodes'[i].Height() == nodes[i].Height())
    && (forall i, l :: 0 <= i < |nodes| && 0 <= l < nodes[i].Height() ==>
          nodes'[i].next[l] == LinkAfter(nodes, prev, i, l))
  }

  ghost function OrderWith(order: seq<nat>, at: nat, n: nat): seq<nat>
    requires at <= |order|
  {
    order[..at] + [n] + order[at..]
  }

  ghost function Shift(r: nat, at: nat): nat {
    if r < at then r else r + 1
  }

  ghost function RankWith(rank: seq<nat>, at: nat): (r: seq<nat>)
    ensures |r| == |rank| + 1
    ensures forall i :: 0 <= i < |rank| ==> r[i] == Shift(rank[i], at)
    ensures r[|rank|] == at
  {
    seq(|rank|, i requires 0 <= i < |rank| => Shift(rank[i], at)) + [at]
  }

  lemma SplicedPermutes(nodes: seq<Node>, order: seq<nat>, rank: seq<nat>, at: nat, nodes': seq<Node>)
    requires Permutes(nodes, order, rank) && 0 < at <= |order| && |nodes'| == |nodes| + 1
    ensures Permutes(nodes', OrderWith(order, at, |nodes|), RankWith(rank, at))
  {
  }

  /** The setting of one splice: a valid arena, an insertion position and, per level, the tower before it. */
  ghost predicate Splice(nodes: seq<Node>, order: seq<nat>, rank: seq<nat>, at: nat, prev: seq<nat>, e: Entry, nodes': seq<Node>) {
    && Permutes(nodes, order, rank) && Linked(nodes, order, rank)
    && 0 < at <= |order|
    && Spliced(nodes, prev, e, nodes')
    && (forall l :: 0 <= l < |prev| ==> PrevOk(nodes, order, rank, at, prev[l], l))
  }

  lemma GapAfter(nodes: seq<Node>, order: seq<nat>, rank: seq<nat>, at: nat, prev: seq<nat>, e: Entry, nodes': seq<Node>,
                 lo: int, hi: int, lo': int, hi': int, level: nat)
    requires Permutes(nodes, order, rank) && 0 < at <= |order| && Spliced(nodes, prev, e, nodes')
    requires Permutes(nodes', OrderWith(order, at, |nodes|), RankWith(rank, at))
    requires 0 <= lo && hi <= |order| && Gap(nodes, order, lo, hi, level)
    requires 0 <= lo' && hi' <= |order| + 1
    requires lo' < at ==> lo <= lo'
    requires lo' >= at ==> lo < lo'
    requires hi' <= at ==> hi' <= hi
    requires hi' > at ==> hi' <= hi + 1
    requires lo' < at < hi' ==> |prev| <= level
    ensures Gap(nodes', OrderWith(order, at, |nodes|), lo', hi', level)
  {
  }

  /** The new tower's own links. */
  lemma NewLinks(nodes: seq<Node>, order: seq<nat>, rank: seq<nat>, at: nat, prev: seq<nat>, e: Entry, nodes': seq<Node>, l: nat)
    requires Splice(nodes, order, rank, at, prev, e, nodes') && l < |prev|
    requires Permutes(nodes', OrderWith(order, at, |nodes|), RankWith(rank, at))
    ensures NextOk(nodes', OrderWith(order, at, |nodes|), RankWith(rank, at), |nodes|, l)
  {
    var i := prev[l];
    assert NextOk(nodes, order, rank, i, l) && PrevOk(nodes, order, rank, at, i, l);
    var order', rank' := OrderWith(order, at, |nodes|), RankWith(rank, at);
    match nodes[i].next[l]
    case None =>
      GapAfter(nodes, order, rank, at, prev, e, nodes', rank[i], |order|, at, |order| + 1, l);
    case Some(j) =>
      assert order[rank[j]] == j;
      assert at <= rank[j];
      GapAfter(nodes, order, rank, at, prev, e, nodes', rank[i], rank[j], at, rank[j] + 1, l);
  }

  /** The link from a predecessor to the new tower. */
  lemma PrevLinks(nodes: seq<Node>, order: seq<nat>, rank: seq<nat>, at: nat, prev: seq<nat>, e: Entry, nodes': seq<Node>, l: nat)
    requires Splice(nodes, order, rank, at, prev, e, nodes') && l < |prev|
    requires Permutes(nodes', OrderWith(order, at, |nodes|), RankWith(rank, at))
    ensures NextOk(nodes', OrderWith(order, at, |nodes|), RankWith(rank, at), prev[l], l)
  {
  }

  lemma LinkKept(nodes: seq<Node>, prev: seq<nat>, e: Entry, nodes': seq<Node>, i: nat, l: nat)
    requires Spliced(nodes, prev, e, nodes') && i < |nodes| && l < nodes[i].Height() && !(l < |prev| && prev[l] == i)
    ensures nodes'[i].Height() == nodes[i].Height() && nodes'[i].next[l] == nodes[i].next[l]
  {
  }

  /** Every other link still leads to the next tower of its level. */
  lemma OtherLinks(nodes: seq<Node>, order: seq<nat>, rank: seq<nat>, at: nat, prev: seq<nat>, e: Entry, nodes': seq<Node>, i: nat, l: nat)
    requires Splice(nodes, order, rank, at, prev, e, nodes')
    requires i < |nodes| && l < nodes[i].Height() && !(l < |prev| && prev[l] == i)
    requires Permutes(nodes', OrderWith(order, at, |nodes|), RankWith(rank, at))
    ensures NextOk(nodes', OrderWith(order, at, |nodes|), RankWith(rank, at), i, l)
  {
    assert NextOk(nodes, order, rank, i, l);
    LinkKept(nodes, prev, e, nodes', i, l);
    var hi := match nodes[i].next[l] case None => |order| case Some(j) => rank[j];
    if rank[i] < at <= hi && l < |prev| {
      NoTowerBetween(nodes, order, rank, at, prev[l], i, hi, l);
    }
    GapAfter(nodes, order, rank, at, prev, e, nodes', rank[i], hi, Shift(rank[i], at), Shift(hi, at), l);
  }

  /** A link that spans the insertion position at a level the new tower reaches starts at that level's predecessor. */
  lemma NoTowerBetween(nodes: seq<Node>, order: seq<nat>, rank: seq<nat>, at: nat, prev: nat, i: nat, hi: nat, l: nat)
    requires Permutes(nodes, order, rank) && 0 < at <= |order| && PrevOk(nodes, order, rank, at, prev, l)
    requires i < |nodes| && l < nodes[i].Height() && rank[i] < at <= hi <= |order| && Gap(nodes, order, rank[i], hi, l)
    ensures i == prev
  {
  }

  lemma SpliceLinks(nodes: seq<Node>, order: seq<nat>, rank: seq<nat>, at: nat, prev: seq<nat>, e: Entry, nodes': seq<Node>)
    requires Splice(nodes, order, rank, at, prev, e, nodes')
    ensures Permutes(nodes', OrderWith(order, at, |nodes|), RankWith(rank, at))
    ensures Linked(nodes', OrderWith(order, at, |nodes|), RankWith(rank, at))
  {
    SplicedPermutes(nodes, order, rank, at, nodes');
    var n := |nodes|;
    assert |nodes'| == n + 1 && nodes'[n].Height() == |prev| && forall i :: 0 <= i < n ==> nodes'[i].Height() == nodes[i].Height();
    hide Splice, Permutes, NextOk, OrderWith, RankWith, Spliced;
    forall i: nat, l: nat | i < |nodes'| && l < nodes'[i].Height()
      ensures NextOk(nodes', OrderWith(order, at, n), RankWith(rank, at), i, l)
    {
      if i == n {
        NewLinks(nodes, order, rank, at, prev, e, nodes', l);
      } else if l < |prev| && prev[l] == i {
        PrevLinks(nodes, order, rank, at, prev, e, nodes', l);
      } else {
        OtherLinks(nodes, order, rank, at, prev, e, nodes', i, l);
      }
    }
  }

  lemma SpliceEntries(nodes: seq<Node>, order: seq<nat>, rank: seq<nat>, at: nat, prev: seq<nat>, e: Entry, nodes': seq<Node>)
    requires Permutes(nodes, order, rank) && 0 < at <= |order| && Spliced(nodes, prev, e, nodes')
    requires Permutes(nodes', OrderWith(order, at, |nodes|), RankWith(rank, at))
    ensures var es := EntriesIn(nodes, order);
            EntriesIn(nodes', OrderWith(order, at, |nodes|)) == es[..at - 1] + [e] + es[at - 1..]
  {
  }

  /** Inserting before the first entry that is not smaller keeps the order. */
  lemma InsertKeepsSorted(es: seq<Entry>, e: Entry)
    requires SortedEntries(es)
    ensures SortedEntries(Insert(es, e))
  {
    OrderFacts();
    var p := Position(es, e.ik);
    InsertAtPosition(es, e);
    var r := es[..p] + [e] + es[p..];
    forall i, j | 0 <= i < j < |r| ensures !KeyBefore(r[j].ik, r[i].ik) {
      if i == p {
        assert r[j] == es[j - 1];
        assert p < j - 1 ==> !KeyBefore(es[j - 1].ik, es[p].ik);
        KeyBeforeIsTotalOrder(es[j - 1].ik, e.ik, es[p].ik);
      } else if j == p {
        KeyBeforeIsTotalOrder(es[i].ik, e.ik, es[i].ik);
      }
    }
  }

  // ----- searching ----------------------------------------------------------------------------

  /** In a sorted list, the entries before `key` are exactly those before its position. */
  lemma BeforePosition(es: seq<Entry>, key: InternalKey, q: nat)
    requires SortedEntries(es) && q < |es|
    ensures KeyBefore(es[q].ik, key) <==> q < Position(es, key)
  {
    var p := Position(es, key);
    if q >= p {
      assert p < q ==> !KeyBefore(es[q].ik, es[p].ik);
      KeyBeforeIsTotalOrder(es[q].ik, key, es[p].ik);
      KeyBeforeIsTotalOrder(es[p].ik, es[q].ik, key);
    }
  }

  /** So comparing a tower's key with the target tells on which side of the insertion position it stands. */
  lemma TowerBefore(nodes: seq<Node>, maxHeight: nat, order: seq<nat>, rank: seq<nat>, key: InternalKey, i: nat)
    requires WellFormed(nodes, maxHeight, order, rank) && 0 < i < |nodes|
    ensures KeyBefore(nodes[i].entry.ik, key) <==> rank[i] < 1 + Position(EntriesIn(nodes, order), key)
  {
    assert order[rank[i]] == i && order[0] == HEAD;
    assert rank[i] > 0;
    BeforePosition(EntriesIn(nodes, order), key, rank[i] - 1);
  }

  /** Stopping at a level: nothing between the current tower and the position reaches it. */
  lemma StopsAt(nodes: seq<Node>, maxHeight: nat, order: seq<nat>, rank: seq<nat>, key: InternalKey, cur: nat, level: nat)
    requires WellFormed(nodes, maxHeight, order, rank) && cur < |nodes| && level < nodes[cur].Height()
    requires rank[cur] < 1 + Position(EntriesIn(nodes, order), key)
    requires nodes[cur].next[level].Some? ==>
               nodes[cur].next[level].value < |nodes| && !KeyBefore(nodes[nodes[cur].next[level].value].entry.ik, key)
    ensures PrevOk(nodes, order, rank, 1 + Position(EntriesIn(nodes, order), key), cur, level)
  {
    assert NextOk(nodes, order, rank, cur, level);
    if nodes[cur].next[level].Some? {
      var j := nodes[cur].next[level].value;
      assert order[rank[cur]] == cur;
      assert order[0] == HEAD;
      assert j != HEAD;
      TowerBefore(nodes, maxHeight, order, rank, key, j);
    }
  }

  /** Moving on: the successor is a real tower, further right and still before the position. */
  lemma MovesTo(nodes: seq<Node>, maxHeight: nat, order: seq<nat>, rank: seq<nat>, key: InternalKey, cur: nat, level: nat)
    requires WellFormed(nodes, maxHeight, order, rank) && cur < |nodes| && level < nodes[cur].Height() && nodes[cur].next[level].Some?
    ensures var j := nodes[cur].next[level].value;
            && j < |nodes| && rank[cur] < rank[j] < |order| && level < nodes[j].Height()
            && (KeyBefore(nodes[j].entry.ik, key) <==> rank[j] < 1 + Position(EntriesIn(nodes, order), key))
  {
    assert NextOk(nodes, order, rank, cur, level);
    var j := nodes[cur].next[level].value;
    assert order[rank[cur]] == cur && order[0] == HEAD;
    assert j != HEAD;
    TowerBefore(nodes, maxHeight, order, rank, key, j);
  }

  /** Above the highest tower, the head is the predecessor. */
  lemma HeadAbove(nodes: seq<Node>, maxHeight: nat, order: seq<nat>, rank: seq<nat>, at: nat, level: nat)
    requires WellFormed(nodes, maxHeight, order, rank) && maxHeight <= level < MAX_HEIGHT && 0 < at <= |order|
    ensures PrevOk(nodes, order, rank, at, HEAD, level)
  {
  }

  /** At the bottom level, the successor of the predecessor is the first entry not before the key. */
  lemma BottomSuccessor(nodes: seq<Node>, maxHeight: nat, order: seq<nat>, rank: seq<nat>, at: nat, cur: nat)
    requires WellFormed(nodes, maxHeight, order, rank) && 0 < at <= |order| && PrevOk(nodes, order, rank, at, cur, 0)
    ensures rank[cur] == at - 1
    ensures nodes[cur].next[0] == if at < |order| then Some(order[at]) else None
  {
    forall p | 0 < p < |order| ensures nodes[order[p]].Height() > 0 {
      assert rank[order[p]] == p;
      assert order[p] != HEAD;
    }
    assert at == 1 || nodes[order[at - 1]].Height() > 0;
    assert rank[cur] == at - 1;
    assert at < |order| ==> nodes[order[at]].Height() > 0;
    assert NextOk(nodes, order, rank, cur, 0);
    match nodes[cur].next[0]
    case None =>
    case Some(j) =>
      assert order[rank[j]] == j;
  }

  // ----- the splicing loop --------------------------------------------------------------------

  /** The arena once the new tower's first `|prev|` levels are woven in, the tower itself not yet pushed. */
  ghost predicate Woven(nodes: seq<Node>, prev: seq<nat>, now: seq<Node>) {
    && |now| == |nodes|
    && (forall i :: 0 <= i < |nodes| ==> now[i].entry == nodes[i].entry && now[i].Height() == nodes[i].Height())
    && (forall i, l :: 0 <= i < |nodes| && 0 <= l < nodes[i].Height() ==>
          now[i].next[l] == LinkAfter(nodes, prev, i, l))
  }

  lemma WeaveOne(nodes: seq<Node>, prev: seq<nat>, now: seq<Node>, p: nat)
    requires Woven(nodes, prev, now) && p < |nodes| && |prev| < nodes[p].Height()
    ensures now[p].next[|prev|] == nodes[p].next[|prev|]
    ensures Woven(nodes, prev + [p], now[p := now[p].(next := now[p].next[|prev| := Some(|nodes|)])])
  {
  }

  lemma WovenIsSpliced(nodes: seq<Node>, prev: seq<nat>, e: Entry, now: seq<Node>, next: seq<Option<nat>>)
    requires Woven(nodes, prev, now) && |next| == |prev|
    requires forall l :: 0 <= l < |prev| ==> prev[l] < |nodes| && l < nodes[prev[l]].Height() && next[l] == nodes[prev[l]].next[l]
    ensures Spliced(nodes, prev, e, now + [Node(e, next)])
  {
  }

  /** A spliced arena is well formed again, and lists the entries with the new one inserted. */
  lemma SplicedIsWellFormed(nodes: seq<Node>, maxHeight: nat, order: seq<nat>, rank: seq<nat>, prev: seq<nat>, e: Entry, nodes': seq<Node>)
    requires WellFormed(nodes, maxHeight, order, rank) && 1 <= |prev| <= MAX_HEIGHT
    requires Spliced(nodes, prev, e, nodes')
    requires forall l :: 0 <= l < |prev| ==> PrevOk(nodes, order, rank, 1 + Position(EntriesIn(nodes, order), e.ik), prev[l], l)
    ensures var at := 1 + Position(EntriesIn(nodes, order), e.ik);
            && WellFormed(nodes', if |prev| > maxHeight then |prev| else maxHeight, OrderWith(order, at, |nodes|), RankWith(rank, at))
            && EntriesIn(nodes', OrderWith(order, at, |nodes|)) == Insert(EntriesIn(nodes, order), e)
  {
    var es := EntriesIn(nodes, order);
    var at: nat := 1 + Position(es, e.ik);
    assert at <= |order| == |es| + 1;
    hide Permutes, Linked, SortedEntries, Insert, Position, EntriesIn, OrderWith, RankWith, PrevOk, HeightsOk, Spliced;
    SplicedHeights(nodes, maxHeight, prev, e, nodes');
    SpliceLinks(nodes, order, rank, at, prev, e, nodes');
    SpliceEntries(nodes, order, rank, at, prev, e, nodes');
    InsertAtPosition(es, e);
    InsertKeepsSorted(es, e);
  }

  lemma SplicedHeights(nodes: seq<Node>, maxHeight: nat, prev: seq<nat>, e: Entry, nodes': seq<Node>)
    requires HeightsOk(nodes, maxHeight) && 1 <= |prev| <= MAX_HEIGHT && Spliced(nodes, prev, e, nodes')
    ensures HeightsOk(nodes', if |prev| > maxHeight then |prev| else maxHeight)
  {
  }

  class SkipList {
    var nodes: seq<Node>
    var maxHeight: nat
    ghost var order: seq<nat>
    ghost var rank: seq<nat>

    ghost predicate Valid()
      reads this
    {
      WellFormed(nodes, maxHeight, order, rank)
    }

    /** The sequence the list stands for. */
    ghost function Entries(): seq<Entry>
      requires Valid()
      reads this
    {
      EntriesIn(nodes, order)
    }

    constructor ()
      ensures Valid() && Entries() == []
    {
      nodes := [Node(Entry(InternalKey([], 0, Put), []), seq(MAX_HEIGHT, i => None))];
      maxHeight := 1;
      order, rank := [HEAD], [0];
    }

    /** `find_prev`: descends from the highest level, moving right while the next key is smaller. */
    method FindPrev(key: InternalKey) returns (prev: seq<nat>)
      requires Valid()
      ensures |prev| == MAX_HEIGHT
      ensures forall l :: 0 <= l < MAX_HEIGHT ==> PrevOk(nodes, order, rank, 1 + Position(Entries(), key), prev[l], l)
    {
      ghost var at: nat := 1 + Position(Entries(), key);
      assert at <= |order| && order[0] == HEAD && rank[HEAD] == 0 && nodes[HEAD].Height() == MAX_HEIGHT by {
        assert rank[order[0]] == 0;
      }
      assert maxHeight <= MAX_HEIGHT;
      prev := seq(MAX_HEIGHT, i => HEAD);
      forall l | maxHeight <= l < MAX_HEIGHT ensures PrevOk(nodes, order, rank, at, prev[l], l) {
        HeadAbove(nodes, maxHeight, order, rank, at, l);
      }
      hide WellFormed, PrevOk, Position, EntriesIn;
      var cur: nat, level: nat := HEAD, maxHeight;
      while level > 0
        invariant level <= maxHeight && |prev| == MAX_HEIGHT
        invariant cur < |nodes| && level <= nodes[cur].Height() && rank[cur] < at
        invariant forall l :: level <= l < MAX_HEIGHT ==> PrevOk(nodes, order, rank, at, prev[l], l)
      {
        level := level - 1;
        while nodes[cur].next[level].Some?
          invariant cur < |nodes| && level < nodes[cur].Height() && rank[cur] < at
          decreases |order| - rank[cur]
        {
          MovesTo(nodes, maxHeight, order, rank, key, cur, level);
          var next := nodes[cur].next[level].value;
          if !KeyBefore(nodes[next].entry.ik, key) {
            break;
          }
          cur := next;
        }
        StopsAt(nodes, maxHeight, order, rank, key, cur, level);
        prev := prev[level := cur];
      }
    }

    /** The splicing loop of `insert`: `new.next = prev.next; prev.next = new` at every level of the new tower. */
    method SpliceIn(e: Entry, prev: seq<nat>, height: nat)
      requires height <= |prev|
      requires forall l :: 0 <= l < height ==> prev[l] < |nodes| && l < nodes[prev[l]].Height()
      modifies this`nodes
      ensures Spliced(old(nodes), prev[..height], e, nodes)
    {
      ghost var nodes0 := nodes;
      hide Woven, Spliced;
      var newIndex := |nodes|;
      var next: seq<Option<nat>> := [];
      assert Woven(nodes0, prev[..0], nodes) by { NothingWoven(nodes0); }
      for level := 0 to height
        invariant Woven(nodes0, prev[..level], nodes) && |nodes| == |nodes0|
        invariant |next| == level && forall l :: 0 <= l < level ==> next[l] == nodes0[prev[l]].next[l]
      {
        var p := prev[level];
        WeaveOne(nodes0, prev[..level], nodes, p);
        WovenHeight(nodes0, prev[..level], nodes, p);
        assert prev[..level] + [p] == prev[..level + 1];
        next := next + [nodes[p].next[level]];
        nodes := nodes[p := nodes[p].(next := nodes[p].next[level := Some(newIndex)])];
      }
      WovenIsSpliced(nodes0, prev[..height], e, nodes, next);
      nodes := nodes + [Node(e, next)];
    }

    /** `insert`, with the drawn height as an argument. */
    method Insert(e: Entry, height: nat)
      requires Valid() && 1 <= height <= MAX_HEIGHT
      modifies this
      ensures Valid() && Entries() == Sorting.Insert(old(Entries()), e)
    {
      assert Permutes(nodes, order, rank);
      hide WellFormed, PrevOk, Spliced, OrderWith, RankWith, Position, EntriesIn, Sorting.Insert;
      var prev := FindPrev(e.ik);
      ghost var nodes0, order0, rank0, max0 := nodes, order, rank, maxHeight;
      ghost var at: nat := 1 + Position(EntriesIn(nodes0, order0), e.ik);
      assert at <= |order0| == |EntriesIn(nodes0, order0)| + 1;
      PrevInArena(nodes0, order0, rank0, at, prev);
      if height > maxHeight {
        maxHeight := height;
      }
      SpliceIn(e, prev, height);
      order, rank := OrderWith(order0, at, |nodes0|), RankWith(rank0, at);
      SplicedIsWellFormed(nodes0, max0, order0, rank0, prev[..height], e, nodes);
    }

    /** The descent shared by `get` and `lower_bound`: the last tower before the key. */
    method LastBefore(key: InternalKey) returns (cur: nat)
      requires Valid()
      ensures PrevOk(nodes, order, rank, 1 + Position(Entries(), key), cur, 0)
    {
      ghost var at: nat := 1 + Position(Entries(), key);
      assert at <= |order| && order[0] == HEAD && rank[HEAD] == 0 && nodes[HEAD].Height() == MAX_HEIGHT by {
        assert rank[order[0]] == 0;
      }
      assert 1 <= maxHeight <= MAX_HEIGHT;
      hide WellFormed, PrevOk, Position, EntriesIn;
      cur := HEAD;
      var level: nat := maxHeight;
      while level > 0
        invariant level <= maxHeight
        invariant cur < |nodes| && level <= nodes[cur].Height() && rank[cur] < at
        invariant level < maxHeight ==> PrevOk(nodes, order, rank, at, cur, level)
      {
        level := level - 1;
        while nodes[cur].next[level].Some?
          invariant cur < |nodes| && level < nodes[cur].Height() && rank[cur] < at
          decreases |order| - rank[cur]
        {
          MovesTo(nodes, maxHeight, order, rank, key, cur, level);
          var next := nodes[cur].next[level].value;
          if !KeyBefore(nodes[next].entry.ik, key) {
            break;
          }
          cur := next;
        }
        StopsAt(nodes, maxHeight, order, rank, key, cur, level);
      }
    }

    /** `lower_bound`: the first entry not before the key. */
    method LowerBound(key: InternalKey) returns (r: Option<Entry>)
      requires Valid()
      ensures var p := Position(Entries(), key);
              r == if p < |Entries()| then Some(Entries()[p]) else None
    {
      var cur := LastBefore(key);
      BottomSuccessor(nodes, maxHeight, order, rank, 1 + Position(Entries(), key), cur);
      r := match nodes[cur].next[0] case None => None case Some(j) => Some(nodes[j].entry);
    }

    /** `get`: the value of the first entry with exactly this key. */
    method Get(key: InternalKey) returns (r: Option<Bytes>)
      requires Valid()
      ensures r.Some? <==> exists i :: 0 <= i < |Entries()| && Entries()[i].ik == key
      ensures r.Some? ==> exists i :: 0 <= i < |Entries()| && Entries()[i] == Entry(key, r.value)
                                      && forall j :: 0 <= j < i ==> Entries()[j].ik != key
    {
      var cur := LastBefore(key);
      ghost var p := Position(Entries(), key);
      BottomSuccessor(nodes, maxHeight, order, rank, 1 + p, cur);
      FirstEqualIsAtPosition(Entries(), key);
      match nodes[cur].next[0]
      case None => r := None;
      case Some(j) => r := if nodes[j].entry.ik == key then Some(nodes[j].entry.value) else None;
    }
  }

  /** In a sorted list, a key that occurs at all occurs first at its position. */
  lemma FirstEqualIsAtPosition(es: seq<Entry>, key: InternalKey)
    requires SortedEntries(es)
    ensures (exists i :: 0 <= i < |es| && es[i].ik == key) <==> Position(es, key) < |es| && es[Position(es, key)].ik == key
    ensures forall j :: 0 <= j < Position(es, key) ==> es[j].ik != key
  {
    var p := Position(es, key);
    KeyBeforeIsTotalOrder(key, key, key);
    if i :| 0 <= i < |es| && es[i].ik == key {
      BeforePosition(es, key, i);
      assert p < i ==> !KeyBefore(es[i].ik, es[p].ik);
      KeyBeforeIsTotalOrder(es[p].ik, key, key);
    }
  }

  /** `Iter`: walks the bottom links. */
  class Iter {
    const list: SkipList
    var cur: Option<nat>
    ghost var pos: nat

    ghost predicate Valid()
      reads this, list
    {
      && list.Valid() && pos <= |list.Entries()|
      && cur == if pos < |list.Entries()| then Some(list.order[pos + 1]) else None
    }

    constructor (list: SkipList)
      requires list.Valid()
      ensures Valid() && this.list == list && pos == 0
    {
      this.list := list;
      cur := list.nodes[HEAD].next[0];
      pos := 0;
      new;
      HeadSuccessor(list.nodes, list.maxHeight, list.order, list.rank);
    }

    /** Each call yields the next entry of the list. */
    method Next() returns (r: Option<Entry>)
      requires Valid()
      modifies this
      ensures Valid() && pos <= |list.Entries()|
      ensures old(pos) < |list.Entries()| ==> r == Some(list.Entries()[old(pos)]) && pos == old(pos) + 1
      ensures old(pos) == |list.Entries()| ==> r == None && pos == old(pos)
    {
      match cur
      case None =>
        r := None;
      case Some(i) =>
        var node := list.nodes[i];
        r := Some(node.entry);
        BottomLink(list.nodes, list.maxHeight, list.order, list.rank, pos + 1);
        cur := node.next[0];
        pos := pos + 1;
    }
  }

  /** At the bottom level, the link at one position leads to the next position. */
  lemma BottomLink(nodes: seq<Node>, maxHeight: nat, order: seq<nat>, rank: seq<nat>, p: nat)
    requires WellFormed(nodes, maxHeight, order, rank) && p < |order|
    ensures nodes[order[p]].Height() > 0
    ensures nodes[order[p]].next[0] == if p + 1 < |order| then Some(order[p + 1]) else None
  {
    assert rank[order[p]] == p && rank[order[0]] == 0;
    assert PrevOk(nodes, order, rank, p + 1, order[p], 0);
    BottomSuccessor(nodes, maxHeight, order, rank, p + 1, order[p]);
  }

  lemma HeadSuccessor(nodes: seq<Node>, maxHeight: nat, order: seq<nat>, rank: seq<nat>)
    requires WellFormed(nodes, maxHeight, order, rank)
    ensures nodes[HEAD].next[0] == if 1 < |order| then Some(order[1]) else None
  {
    BottomLink(nodes, maxHeight, order, rank, 0);
  }

  // ----- the levels ---------------------------------------------------------------------------

  /** The towers met by following the links of a level from tower `i`. */
  ghost function Chain(nodes: seq<Node>, maxHeight: nat, order: seq<nat>, rank: seq<nat>, i: nat, level: nat): seq<nat>
    requires WellFormed(nodes, maxHeight, order, rank) && i < |nodes| && level < nodes[i].Height()
    decreases |order| - rank[i]
  {
    assert NextOk(nodes, order, rank, i, level);
    match nodes[i].next[level]
    case None => []
    case Some(j) => [j] + Chain(nodes, maxHeight, order, rank, j, level)
  }

  /** The towers from position `p` on that reach a level, in order. */
  ghost function Reaching(nodes: seq<Node>, order: seq<nat>, p: nat, level: nat): seq<nat>
    requires p <= |order| && forall q :: 0 <= q < |order| ==> order[q] < |nodes|
    decreases |order| - p
  {
    if p == |order| then []
    else (if nodes[order[p]].Height() > level then [order[p]] else []) + Reaching(nodes, order, p + 1, level)
  }

  lemma {:induction false} ReachingSkips(nodes: seq<Node>, order: seq<nat>, p: nat, q: nat, level: nat)
    requires p <= q <= |order| && forall q :: 0 <= q < |order| ==> order[q] < |nodes|
    requires forall r :: p <= r < q ==> nodes[order[r]].Height() <= level
    ensures Reaching(nodes, order, p, level) == Reaching(nodes, order, q, level)
    decreases q - p
  {
    if p < q {
      ReachingSkips(nodes, order, p + 1, q, level);
    }
  }

  /** Each level's chain visits exactly the towers that reach it, in the order of the bottom level. */
  lemma {:induction false} ChainIsReaching(nodes: seq<Node>, maxHeight: nat, order: seq<nat>, rank: seq<nat>, i: nat, level: nat)
    requires WellFormed(nodes, maxHeight, order, rank) && i < |nodes| && level < nodes[i].Height()
    ensures Chain(nodes, maxHeight, order, rank, i, level) == Reaching(nodes, order, rank[i] + 1, level)
    decreases |order| - rank[i]
  {
    assert NextOk(nodes, order, rank, i, level);
    hide SortedEntries, HeightsOk, EntriesIn, Linked;
    match nodes[i].next[level]
    case None =>
      ReachingSkips(nodes, order, rank[i] + 1, |order|, level);
    case Some(j) =>
      ReachingSkips(nodes, order, rank[i] + 1, rank[j], level);
      ChainIsReaching(nodes, maxHeight, order, rank, j, level);
  }

  /** So a level is the level below it, less the towers that end there. */
  function Filtered(nodes: seq<Node>, chain: seq<nat>, level: nat): seq<nat>
    requires forall i :: 0 <= i < |chain| ==> chain[i] < |nodes|
  {
    if chain == [] then []
    else (if nodes[chain[0]].Height() > level then [chain[0]] else []) + Filtered(nodes, chain[1..], level)
  }

  lemma {:induction false} ReachingAbove(nodes: seq<Node>, order: seq<nat>, p: nat, level: nat)
    requires p <= |order| && forall q :: 0 <= q < |order| ==> order[q] < |nodes|
    ensures var chain := Reaching(nodes, order, p, level); forall i :: 0 <= i < |chain| ==> chain[i] < |nodes|
    ensures Filtered(nodes, Reaching(nodes, order, p, level), level + 1) == Reaching(nodes, order, p, level + 1)
    decreases |order| - p
  {
    if p < |order| {
      ReachingAbove(nodes, order, p + 1, level);
      if nodes[order[p]].Height() > level {
        var rest := Reaching(nodes, order, p + 1, level);
        assert ([order[p]] + rest)[1..] == rest;
      } else {
        assert [] + Reaching(nodes, order, p + 1, level) == Reaching(nodes, order, p + 1, level);
      }
    }
  }

  /** Every level of a well-formed list is the sublist of the level below made of the towers that reach it. */
  lemma LevelIsSublistOfBelow(nodes: seq<Node>, maxHeight: nat, order: seq<nat>, rank: seq<nat>, level: nat)
    requires WellFormed(nodes, maxHeight, order, rank) && level + 1 < MAX_HEIGHT
    ensures var below := Chain(nodes, maxHeight, order, rank, HEAD, level);
            && (forall i :: 0 <= i < |below| ==> below[i] < |nodes|)
            && Chain(nodes, maxHeight, order, rank, HEAD, level + 1) == Filtered(nodes, below, level + 1)
  {
    ChainIsReaching(nodes, maxHeight, order, rank, HEAD, level);
    ChainIsReaching(nodes, maxHeight, order, rank, HEAD, level + 1);
    ReachingAbove(nodes, order, rank[HEAD] + 1, level);
  }

  lemma PrevInArena(nodes: seq<Node>, order: seq<nat>, rank: seq<nat>, at: nat, prev: seq<nat>)
    requires Permutes(nodes, order, rank) && at <= |order|
    requires forall l :: 0 <= l < |prev| ==> PrevOk(nodes, order, rank, at, prev[l], l)
    ensures forall l :: 0 <= l < |prev| ==> prev[l] < |nodes| && l < nodes[prev[l]].Height()
  {
    hide Gap;
  }

  lemma NothingWoven(nodes: seq<Node>)
    ensures Woven(nodes, [], nodes)
  {
  }

  lemma WovenHeight(nodes: seq<Node>, prev: seq<nat>, now: seq<Node>, p: nat)
    requires Woven(nodes, prev, now) && p < |nodes|
    ensures |now| == |nodes| && now[p].Height() == nodes[p].Height()
  {
  }
}