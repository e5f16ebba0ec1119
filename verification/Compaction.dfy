/** Compaction: scoring, choosing inputs, the snapshot-aware drop rule and the splitting of the output. */
module Compactions {
  import opened ByteStrings
  import opened InternalKeys
  import opened VersionedEntries
  import opened Manifest
  import opened Versions

  const L0_COMPACTION_TRIGGER: nat := 4
  const TARGET_FILE_SIZE: nat := 2 * 1024 * 1024
  const MAX_BYTES_FOR_LEVEL_BASE: nat := 10 * 1024 * 1024
  const MAX_BYTES_FOR_LEVEL_MULTIPLIER: nat := 10
  const MAX_GRANDPARENT_OVERLAP_BYTES: nat := 10 * TARGET_FILE_SIZE

  // ----- choosing a level ---------------------------------------------------------------------

  function MaxBytesForLevel(level: nat): (n: nat)
    ensures n > 0
  {
    if level <= 1 then MAX_BYTES_FOR_LEVEL_BASE
    else MAX_BYTES_FOR_LEVEL_MULTIPLIER * MaxBytesForLevel(level - 1)
  }

  /** How overloaded a level is; the program's floating point is taken as exact here. */
  function Score(v: Version, level: nat): (r: real)
    requires v.Valid() && level < NUM_LEVELS
    ensures r >= 0.0
  {
    if level == 0 then |v.files[0]| as real / L0_COMPACTION_TRIGGER as real
    else TotalSize(v.files[level]) as real / MaxBytesForLevel(level) as real
  }

  /** The scan of `compaction_score` from `level` on, with `best` found so far. */
  function BestFrom(v: Version, level: nat, best: Option<nat>): (r: Option<nat>)
    requires v.Valid() && level <= NUM_LEVELS
    requires best.Some? ==> best.value < level
    ensures r.Some? ==> r.value < NUM_LEVELS
    decreases NUM_LEVELS - level
  {
    if level == NUM_LEVELS then best
    else if Score(v, level) > 0.0 && (best.None? || Score(v, level) > Score(v, best.value)) then
      BestFrom(v, level + 1, Some(level))
    else BestFrom(v, level + 1, best)
  }

  function BestLevel(v: Version): (r: Option<nat>)
    requires v.Valid()
    ensures r.Some? ==> r.value < NUM_LEVELS
  {
    BestFrom(v, 0, None)
  }

  /** Among the levels below `level`, `best` is the first with the greatest positive score. */
  ghost predicate IsBestBelow(v: Version, level: nat, best: Option<nat>)
    requires v.Valid() && level <= NUM_LEVELS
  {
    match best
    case None => forall l :: 0 <= l < level ==> Score(v, l) == 0.0
    case Some(b) =>
      && b < level && Score(v, b) > 0.0
      && (forall l :: 0 <= l < level ==> Score(v, l) <= Score(v, b))
      && (forall l :: 0 <= l < b ==> Score(v, l) < Score(v, b))
  }

  lemma EmptyLevelScoresZero(v: Version, level: nat)
    requires v.Valid() && 0 < level < NUM_LEVELS && TotalSize(v.files[level]) == 0
    ensures Score(v, level) == 0.0
  {
  }

  /** One level of the scan. */
  lemma BestStep(v: Version, level: nat, best: Option<nat>)
    requires v.Valid() && level < NUM_LEVELS && (best.Some? ==> best.value < level) && IsBestBelow(v, level, best)
    ensures var better := Score(v, level) > 0.0 && (best.None? || Score(v, level) > Score(v, best.value));
            var next := if better then Some(level) else best;
            BestFrom(v, level, best) == BestFrom(v, level + 1, next) && IsBestBelow(v, level + 1, next)
  {
    hide Score;
  }

  lemma NothingBelow(v: Version)
    requires v.Valid()
    ensures IsBestBelow(v, 0, None)
  {
  }

  lemma BestEnds(v: Version, best: Option<nat>)
    requires v.Valid() && (best.Some? ==> best.value < NUM_LEVELS)
    ensures BestFrom(v, NUM_LEVELS, best) == best
  {
  }

  /** `compaction_score`: the first level with the greatest positive score. */
  method CompactionScore(v: Version) returns (best: Option<nat>)
    requires v.Valid()
    ensures best == BestLevel(v)
    ensures IsBestBelow(v, NUM_LEVELS, best)
  {
    hide Score, BestFrom, IsBestBelow;
    NothingBelow(v);
    best := None;
    var bestScore := 0.0;
    for level := 0 to NUM_LEVELS
      invariant best.Some? ==> best.value < level && bestScore == Score(v, best.value)
      invariant IsBestBelow(v, level, best)
      invariant BestFrom(v, level, best) == BestLevel(v)
    {
      BestStep(v, level, best);
      if level > 0 && TotalSize(v.files[level]) == 0 {
        EmptyLevelScoresZero(v, level);
        continue;
      }
      var score := Score(v, level);
      if score > 0.0 && (best.None? || score > bestScore) {
        best, bestScore := Some(level), score;
      }
    }
    BestEnds(v, best);
  }

  // ----- choosing inputs ----------------------------------------------------------------------

  datatype Compaction = Compaction(level: nat, inputs0: seq<FileMeta>, inputs1: seq<FileMeta>, grandparents: seq<FileMeta>)

  function MinLo(files: seq<FileMeta>): (lo: Bytes)
    requires files != []
    ensures exists f :: f in files && lo == Lo(f)
    ensures forall f :: f in files ==> !Before(Lo(f), lo)
  {
    OrderFacts();
    if |files| == 1 then Lo(files[0])
    else
      var lo := MinLo(files[1..]);
      assert files == [files[0]] + files[1..];
      if Before(Lo(files[0]), lo) then Lo(files[0]) else lo
  }

  function MaxHi(files: seq<FileMeta>): (hi: Bytes)
    requires files != []
    ensures exists f :: f in files && hi == Hi(f)
    ensures forall f :: f in files ==> !Before(hi, Hi(f))
  {
    OrderFacts();
    if |files| == 1 then Hi(files[0])
    else
      var hi := MaxHi(files[1..]);
      assert files == [files[0]] + files[1..];
      if Before(hi, Hi(files[0])) then Hi(files[0]) else hi
  }

  /** The first file whose range reaches past the compact pointer. */
  function FirstPast(files: seq<FileMeta>, pointer: Bytes): (r: Option<FileMeta>)
    ensures r.Some? ==> r.value in files && (pointer == [] || Before(pointer, Hi(r.value)))
    ensures r.None? ==> forall f :: f in files ==> pointer != [] && !Before(pointer, Hi(f))
  {
    if files == [] then None
    else if pointer == [] || Before(pointer, Hi(files[0])) then Some(files[0])
    else FirstPast(files[1..], pointer)
  }

  /** The inputs of a compaction of `level`, given the files taken from it. */
  function InputsFor(v: Version, level: nat, inputs0: seq<FileMeta>): Compaction
    requires v.Valid() && level + 1 < NUM_LEVELS && inputs0 != []
  {
    var inputs1 := GetOverlaps(v, level + 1, MinLo(inputs0), MaxHi(inputs0));
    var grandparents :=
      if level + 2 < NUM_LEVELS then GetOverlaps(v, level + 2, MinLo(inputs0 + inputs1), MaxHi(inputs0 + inputs1)) else [];
    Compaction(level, inputs0, inputs1, grandparents)
  }

  /** `pick_compaction`: all of level 0, or one file of a deeper level past its pointer. */
  function PickCompaction(v: Version, pointers: seq<Bytes>): Option<Compaction>
    requires v.Valid() && |pointers| == NUM_LEVELS
  {
    match BestLevel(v)
    case None => None
    case Some(level) =>
      if level >= NUM_LEVELS - 1 then None
      else if level == 0 then
        (if v.files[0] == [] then None else Some(InputsFor(v, 0, v.files[0])))
      else
        match FirstPast(v.files[level], pointers[level])
        case None => None
        case Some(f) => Some(InputsFor(v, level, [f]))
  }

  /** What a chosen compaction looks like, whatever the scores and the pointer were. */
  ghost predicate Chosen(v: Version, c: Compaction)
    requires v.Valid()
  {
    && c.level + 1 < NUM_LEVELS
    && c.inputs0 != []
    && (if c.level == 0 then c.inputs0 == v.files[0] else exists f :: f in v.files[c.level] && c.inputs0 == [f])
    && c == InputsFor(v, c.level, c.inputs0)
  }

  lemma PickedIsChosen(v: Version, pointers: seq<Bytes>)
    requires v.Valid() && |pointers| == NUM_LEVELS
    ensures PickCompaction(v, pointers).Some? ==> Chosen(v, PickCompaction(v, pointers).value)
  {
  }

  // ----- separation of what is taken from what is left ----------------------------------------

  predicate Before2(f: FileMeta, g: FileMeta) {
    Before(Hi(f), Lo(g))
  }

  /** No two files of a level share a user key in their ranges. */
  ghost predicate DisjointRanges(files: seq<FileMeta>) {
    forall f, g :: f in files && g in files && f != g ==> Before2(f, g) || Before2(g, f)
  }

  ghost predicate ProperRanges(files: seq<FileMeta>) {
    forall f :: f in files ==> !Before(Hi(f), Lo(f))
  }

  /** A file on one side of every input. */
  ghost predicate Apart(c: Compaction, f: FileMeta) {
    || (forall g :: g in c.inputs0 + c.inputs1 ==> Before2(f, g))
    || (forall g :: g in c.inputs0 + c.inputs1 ==> Before2(g, f))
  }

  /**
   * The chosen inputs' ranges form one interval that every file left behind in the next level lies
   * entirely to one side of.
   */
  lemma LeftBehindIsApart(v: Version, c: Compaction, f: FileMeta)
    requires v.Valid() && Chosen(v, c)
    requires DisjointRanges(v.files[c.level + 1]) && ProperRanges(v.files[c.level + 1]) && ProperRanges(c.inputs0)
    requires f in v.files[c.level + 1] && f !in c.inputs1
    ensures Apart(c, f)
  {
    OrderFacts();
    var lo, hi := MinLo(c.inputs0), MaxHi(c.inputs0);
    assert !Overlaps(f, lo, hi);
    if Before(Hi(f), lo) {
      forall g | g in c.inputs0 + c.inputs1 ensures Before2(f, g) {
        if g in c.inputs1 {
          assert Overlaps(g, lo, hi) && g in v.files[c.level + 1];
          assert Before2(f, g) || Before2(g, f);
        }
      }
    } else {
      forall g | g in c.inputs0 + c.inputs1 ensures Before2(g, f) {
        if g in c.inputs1 {
          assert Overlaps(g, lo, hi) && g in v.files[c.level + 1];
          assert Before2(f, g) || Before2(g, f);
        }
      }
    }
  }

  // ----- the drop rule ------------------------------------------------------------------------

  /** No file below the output level has the key in its range. */
  predicate IsBaseLevel(v: Version, level: nat, k: Bytes)
    requires v.Valid()
  {
    forall l :: level + 2 <= l < NUM_LEVELS ==> Overlapping(v.files[l], k, k) == []
  }

  function BaseLevelOf(v: Version, level: nat): Bytes -> bool
    requires v.Valid()
  {
    (k: Bytes) => IsBaseLevel(v, level, k)
  }

  /** The rule applied to one merged entry, given the user key and sequence of the one before it. */
  predicate Dropped(e: Entry, last: Option<(Bytes, nat)>, oldest: nat, base: Bytes -> bool) {
    || (last.Some? && last.value.0 == e.Key() && last.value.1 <= oldest)
    || (e.ik.vtype.Delete? && e.Seqno() <= oldest && base(e.Key()))
  }

  /** The merged entries that survive, in order. */
  function Survivors(merged: seq<Entry>, last: Option<(Bytes, nat)>, oldest: nat, base: Bytes -> bool): seq<Entry>
    decreases |merged|
  {
    if merged == [] then []
    else
      var e := merged[0];
      (if Dropped(e, last, oldest, base) then [] else [e])
      + Survivors(merged[1..], Some((e.Key(), e.Seqno())), oldest, base)
  }

  /** A newer version of the same key is itself old enough for every reader. */
  ghost predicate Shadowed(I: set<Entry>, e: Entry, oldest: nat) {
    exists other :: other in I && other.Key() == e.Key() && other.Seqno() > e.Seqno() && other.Seqno() <= oldest
  }

  predicate DeletionGone(e: Entry, oldest: nat, base: Bytes -> bool) {
    e.ik.vtype.Delete? && e.Seqno() <= oldest && base(e.Key())
  }

  /** The rule, stated without the order of the merge: which entries of a set of inputs survive. */
  ghost predicate Survives(I: set<Entry>, e: Entry, oldest: nat, base: Bytes -> bool) {
    e in I && !Shadowed(I, e, oldest) && !DeletionGone(e, oldest, base)
  }

  function LastOf(merged: seq<Entry>, i: nat): Option<(Bytes, nat)>
    requires i <= |merged|
  {
    if i == 0 then None else Some((merged[i - 1].Key(), merged[i - 1].Seqno()))
  }

  /** In merge order, looking at the previous entry alone decides whether an entry is shadowed. */
  lemma PreviousDecides(merged: seq<Entry>, i: nat, oldest: nat)
    requires Ascending(merged) && i < |merged|
    ensures Shadowed(SetOf(merged), merged[i], oldest)
       <==> i > 0 && merged[i - 1].Key() == merged[i].Key() && merged[i - 1].Seqno() <= oldest
  {
    OrderFacts();
    if i > 0 && merged[i - 1].Key() == merged[i].Key() && merged[i - 1].Seqno() <= oldest {
      assert VersionBefore(merged[i - 1], merged[i]);
      assert merged[i - 1] in SetOf(merged);
    }
    if Shadowed(SetOf(merged), merged[i], oldest) {
      var other :| other in SetOf(merged) && other.Key() == merged[i].Key() && other.Seqno() > merged[i].Seqno() && other.Seqno() <= oldest;
      var j :| 0 <= j < |merged| && merged[j] == other;
      assert i < j ==> VersionBefore(merged[i], merged[j]);
      assert j < i;
      assert j < i - 1 ==> VersionBefore(merged[j], merged[i - 1]);
      assert VersionBefore(merged[i - 1], merged[i]);
    }
  }

  /** The survivors from position `i` on are exactly the surviving entries there, in ascending order. */
  lemma {:induction false} SurvivorsFrom(merged: seq<Entry>, i: nat, oldest: nat, base: Bytes -> bool)
    requires Ascending(merged) && i <= |merged|
    ensures var r := Survivors(merged[i..], LastOf(merged, i), oldest, base);
            && Ascending(r)
            && |r| <= |merged| - i
            && (forall e :: e in r <==> e in merged[i..] && Survives(SetOf(merged), e, oldest, base))
    decreases |merged| - i
  {
    if i < |merged| {
      var e := merged[i];
      assert merged[i..][1..] == merged[i + 1..];
      assert merged[i..] == [e] + merged[i + 1..];
      SurvivorsFrom(merged, i + 1, oldest, base);
      PreviousDecides(merged, i, oldest);
      var rest := Survivors(merged[i + 1..], LastOf(merged, i + 1), oldest, base);
      forall x | x in rest ensures VersionBefore(e, x) {
        var j :| 0 <= j < |merged[i + 1..]| && merged[i + 1..][j] == x;
        assert merged[i + 1 + j] == x;
      }
    }
  }

  /**
   * The drop rule, order-free: an input survives exactly when no newer version of its key is visible to
   * the oldest reader, and it is not an old deletion at the base level of its key.
   */
  lemma SurvivorsAreSurviving(merged: seq<Entry>, oldest: nat, base: Bytes -> bool)
    requires Ascending(merged)
    ensures var r := Survivors(merged, None, oldest, base);
            && Ascending(r)
            && |r| <= |merged|
            && (forall e :: e in r <==> Survives(SetOf(merged), e, oldest, base))
  {
    SurvivorsFrom(merged, 0, oldest, base);
    assert merged[0..] == merged;
  }

  /** `n` is a deletion the rule drops although it hides `p`, which stays: the one way a drop is seen. */
  ghost predicate UncoversBy(R: set<Entry>, I: set<Entry>, oldest: nat, base: Bytes -> bool, n: Entry, p: Entry) {
    && n in I && n !in R && DeletionGone(n, oldest, base) && !Shadowed(R + I, n, oldest)
    && p in R && p.Key() == n.Key() && p.ik.vtype.Put? && p.Seqno() < n.Seqno()
    && forall q :: q in R && q.Key() == n.Key() && q.Seqno() < n.Seqno() ==> q.Seqno() <= p.Seqno()
  }

  ghost predicate Uncovers(R: set<Entry>, I: set<Entry>, oldest: nat, base: Bytes -> bool) {
    exists n, p :: UncoversBy(R, I, oldest, base, n, p)
  }

  /** Nothing is uncovered where, at a key's base level, whatever stays is newer than the old inputs. */
  lemma NewerMeansCovered(R: set<Entry>, I: set<Entry>, oldest: nat, base: Bytes -> bool)
    requires forall r, e :: r in R && e in I && r.Key() == e.Key() && base(e.Key()) && e.Seqno() <= oldest ==> r.Seqno() > e.Seqno()
    ensures !Uncovers(R, I, oldest, base)
  {
    if n, p :| UncoversBy(R, I, oldest, base, n, p) {
      assert false;
    }
  }

  /**
   * Compaction preserves meaning: replacing the inputs `I` by their survivors changes no reader's view
   * at `s`, provided the entries the rule considers old are visible at `s`, and no dropped deletion uncovers
   * anything.
   */
  lemma CompactionPreservesView(R: set<Entry>, I: set<Entry>, O: set<Entry>, k: Bytes, s: nat, oldest: nat, base: Bytes -> bool)
    requires Distinct(R + I)
    requires forall e :: e in O <==> Survives(I, e, oldest, base)
    requires forall e :: e in R + I && e.Seqno() <= oldest ==> e.Seqno() <= s
    requires !Uncovers(R, I, oldest, base)
    ensures View(R + O, k, s) == View(R + I, k, s)
  {
    var before, after := R + I, R + O;
    assert forall e :: e in after ==> e in before;
    var n := Newest(before, k, s);
    if n.None? {
      forall e | e in before ensures !VisibleAt(e, k, s) {
        if VisibleAt(e, k, s) {
          NewestExists(before, k, s, e);
        }
      }
      NothingVisible(after, k, s);
    } else if n.value in after {
      assert IsNewest(after, k, s, n.value);
      NewestIsUnique(after, k, s, n.value);
    } else {
      DroppedIsDeletion(R, I, O, k, s, oldest, base, n.value);
      var p := Newest(after, k, s);
      if p.Some? && p.value.ik.vtype.Put? {
        AfterDrop(R, I, O, k, s, oldest, base, n.value, p.value);
      }
    }
  }

  /** The newest visible version is dropped only as a deletion that nothing shadows. */
  lemma DroppedIsDeletion(R: set<Entry>, I: set<Entry>, O: set<Entry>, k: Bytes, s: nat, oldest: nat, base: Bytes -> bool, n: Entry)
    requires forall e :: e in O <==> Survives(I, e, oldest, base)
    requires forall e :: e in R + I && e.Seqno() <= oldest ==> e.Seqno() <= s
    requires IsNewest(R + I, k, s, n) && n !in R + O
    ensures n in I && DeletionGone(n, oldest, base) && !Shadowed(R + I, n, oldest)
  {
    assert !Shadowed(I, n, oldest);
  }

  /** What is seen in place of such a deletion is an older version that stays. */
  lemma AfterDrop(R: set<Entry>, I: set<Entry>, O: set<Entry>, k: Bytes, s: nat, oldest: nat, base: Bytes -> bool, n: Entry, p: Entry)
    requires Distinct(R + I) && forall e :: e in O <==> Survives(I, e, oldest, base)
    requires IsNewest(R + I, k, s, n) && n !in R + O && n in I && DeletionGone(n, oldest, base) && !Shadowed(R + I, n, oldest)
    requires IsNewest(R + O, k, s, p) && p.ik.vtype.Put?
    ensures UncoversBy(R, I, oldest, base, n, p)
  {
    assert p in R + I && p != n;
    assert Shadowed(I, p, oldest) ==> p !in O;
    forall q | q in R && q.Key() == n.Key() && q.Seqno() < n.Seqno() ensures q.Seqno() <= p.Seqno() {
      assert VisibleAt(q, k, s) && q in R + O;
    }
  }

  /**
   * And that is exact: with `s0` a snapshot that sees just the entries the rule considers old, a compaction
   * keeps every view from `s0` on if and only if no dropped deletion uncovers anything.
   */
  lemma CompactionPreservesViewsIff(R: set<Entry>, I: set<Entry>, O: set<Entry>, s0: nat, oldest: nat, base: Bytes -> bool)
    requires Distinct(R + I)
    requires forall e :: e in O <==> Survives(I, e, oldest, base)
    requires forall e :: e in R + I ==> (e.Seqno() <= oldest <==> e.Seqno() <= s0)
    ensures (forall k, s: nat :: s >= s0 ==> View(R + O, k, s) == View(R + I, k, s)) <==> !Uncovers(R, I, oldest, base)
  {
    hide View, UncoversBy, Distinct;
    if Uncovers(R, I, oldest, base) {
      var n, p :| UncoversBy(R, I, oldest, base, n, p);
      UncoveredIsSeen(R, I, O, s0, oldest, base, n, p);
    } else {
      forall k, s: nat | s >= s0 ensures View(R + O, k, s) == View(R + I, k, s) {
        CompactionPreservesView(R, I, O, k, s, oldest, base);
      }
    }
  }

  lemma UncoveredIsSeen(R: set<Entry>, I: set<Entry>, O: set<Entry>, s0: nat, oldest: nat, base: Bytes -> bool, n: Entry, p: Entry)
    requires Distinct(R + I)
    requires forall e :: e in O <==> Survives(I, e, oldest, base)
    requires forall e :: e in R + I ==> (e.Seqno() <= oldest <==> e.Seqno() <= s0)
    requires UncoversBy(R, I, oldest, base, n, p)
    ensures View(R + I, n.Key(), s0) == None && View(R + O, n.Key(), s0) == Some(p.value)
  {
    var before, after, k := R + I, R + O, n.Key();
    assert n in before && p in before && p in after;
    forall e | e in before && VisibleAt(e, k, s0) ensures e.Seqno() <= n.Seqno() {
      assert !Shadowed(R + I, n, oldest);
    }
    assert IsNewest(before, k, s0, n);
    NewestIsUnique(before, k, s0, n);
    forall e | e in after && VisibleAt(e, k, s0) ensures e.Seqno() <= p.Seqno() {
      assert e in before && e.Seqno() <= n.Seqno() && e != n;
      assert e in I ==> Shadowed(I, e, oldest);
    }
    assert forall e :: e in after ==> e in before;
    assert IsNewest(after, k, s0, p);
    NewestIsUnique(after, k, s0, p);
  }
}
