/** Finished blocks read back: the searches refine linear search over the entries that were added. */
module BlockProofs {
  import opened ByteStrings
  import opened InternalKeys
  import opened Varints
  import opened Blocks
  import opened BlockReaders

  /** The parsed form of a finished block. */
  function Built(es: seq<KV>): (b: Block)
    ensures b.Valid() && b.numRestarts == NumRestarts(|es|)
  {
    Block(BlockBytes(es), |Body(es)|, NumRestarts(|es|))
  }

  /** The encoded entries fit the u32 casts of their offsets and lengths. */
  predicate Fits(es: seq<KV>) {
    |Body(es)| < U32_LIMIT
  }

  // ----- layout -------------------------------------------------------------------------------

  lemma BodyStep(es: seq<KV>, i: nat)
    requires i < |es|
    ensures Body(es[..i + 1]) == Body(es[..i]) + EntryBytes(Shared(es, i), es[i])
  {
    assert es[..i + 1][..i] == es[..i];
  }

  lemma {:induction false} BodyPrefix(es: seq<KV>, i: nat)
    requires i <= |es|
    ensures Body(es[..i]) <= Body(es)
    decreases |es| - i
  {
    if i == |es| {
      assert es[..i] == es;
    } else {
      BodyStep(es, i);
      BodyPrefix(es, i + 1);
    }
  }

  lemma {:induction false} KeyLengthBound(es: seq<KV>, i: nat)
    requires i < |es|
    ensures |es[i].key| <= Offset(es, i + 1)
  {
    BodyStep(es, i);
    if i > 0 {
      KeyLengthBound(es, i - 1);
    }
  }

  lemma OffsetBounds(es: seq<KV>, i: nat)
    requires i < |es|
    ensures Offset(es, i) < Offset(es, i + 1) <= |Body(es)|
    ensures Offset(es, i + 1) == |Body(es)| <==> i + 1 == |es|
  {
    BodyStep(es, i);
    BodyPrefix(es, i + 1);
    if i + 1 < |es| {
      BodyStep(es, i + 1);
      BodyPrefix(es, i + 2);
    } else {
      assert es[..i + 1] == es;
    }
  }

  lemma {:induction false} RestartBytesAt(rs: seq<nat>, j: nat)
    requires j < |rs|
    ensures RestartBytes(rs)[4 * j..4 * j + 4] == LittleEndian(rs[j], 4)
  {
    var n := |rs| - 1;
    var front := RestartBytes(rs[..n]);
    if j == n {
      assert RestartBytes(rs)[4 * n..] == LittleEndian(rs[n], 4);
    } else {
      RestartBytesAt(rs[..n], j);
      assert RestartBytes(rs)[4 * j..4 * j + 4] == front[4 * j..4 * j + 4];
    }
  }

  /** Parsing a finished block finds its parts. */
  lemma ParseBuilt(es: seq<KV>)
    requires Fits(es)
    ensures ParseBlock(BlockBytes(es)) == Ok(Built(es))
  {
    var data := BlockBytes(es);
    RestartsFit(es);
    WidthLimits();
    LittleEndianRoundTrip(NumRestarts(|es|), 4);
    assert data[|data| - 4..] == LittleEndian(NumRestarts(|es|), 4);
  }

  lemma {:induction false} EntriesFit(es: seq<KV>)
    ensures |es| <= |Body(es)|
  {
    if es != [] {
      EntriesFit(es[..|es| - 1]);
    }
  }

  lemma RestartsFit(es: seq<KV>)
    requires Fits(es)
    ensures NumRestarts(|es|) < U32_LIMIT
  {
    EntriesFit(es);
  }

  lemma RestartOffsetBuilt(es: seq<KV>, j: nat)
    requires Fits(es) && j < NumRestarts(|es|)
    ensures j * RESTART_INTERVAL <= |es|
    ensures RestartOffset(Built(es), j) == Offset(es, j * RESTART_INTERVAL)
  {
    hide Body, RestartBytes, LittleEndian, FromLittleEndian;
    var b, rs := Built(es), Restarts(es);
    RestartBytesAt(rs, j);
    BodyPrefix(es, j * RESTART_INTERVAL);
    WidthLimits();
    LittleEndianRoundTrip(rs[j], 4);
    RestartSlice(Body(es), RestartBytes(rs), LittleEndian(|rs|, 4), j);
  }

  lemma RestartSlice(body: Bytes, restarts: Bytes, tail: Bytes, j: nat)
    requires 4 * j + 4 <= |restarts|
    ensures (body + restarts + tail)[|body| + 4 * j..|body| + 4 * j + 4] == restarts[4 * j..4 * j + 4]
  {
  }

  // ----- entries ------------------------------------------------------------------------------

  /** A header reads back from wherever its three lengths were written. */
  lemma HeaderRoundTrip(data: Bytes, offset: nat, s: nat, n: nat, v: nat, rest: Bytes)
    requires s < U32_LIMIT && n < U32_LIMIT && v < U32_LIMIT
    requires offset <= |data| && data[offset..] == Varint(s) + (Varint(n) + (Varint(v) + rest))
    ensures ReadHeader(data, offset) == Some(Header(s, n, v, |data| - |rest|))
    ensures |rest| <= |data| && data[|data| - |rest|..] == rest
  {
    hide Varint, Decode32;
    var d1 := Varint(n) + (Varint(v) + rest);
    var d2 := Varint(v) + rest;
    var o1 := offset + |Varint(s)|;
    var o2 := o1 + |Varint(n)|;
    DropFront(data, offset, Varint(s), d1);
    DropFront(data, o1, Varint(n), d2);
    DropFront(data, o2, Varint(v), rest);
    RoundTrip32(s, d1);
    RoundTrip32(n, d2);
    RoundTrip32(v, rest);
  }

  lemma Regroup(a: Bytes, b: Bytes, c: Bytes, d: Bytes, e: Bytes, t: Bytes)
    ensures (a + b + c + d + e) + t == a + (b + (c + (d + e + t)))
  {
  }

  lemma DropFront(data: Bytes, offset: nat, front: Bytes, rest: Bytes)
    requires offset <= |data| && data[offset..] == front + rest
    ensures offset + |front| <= |data| && data[offset + |front|..] == rest
    ensures |data| == offset + |front| + |rest|
  {
  }

  /** Where the parts of entry `i` lie in the block. */
  lemma EntryLayout(es: seq<KV>, i: nat)
    requires Fits(es) && i < |es|
    ensures var b, s := Built(es), Shared(es, i);
            && ReadHeader(b.data, Offset(es, i)).Some?
            && var h := ReadHeader(b.data, Offset(es, i)).value;
            && h == Header(s, |es[i].key| - s, |es[i].value|, h.keyStart)
            && h.keyStart + h.nonShared + h.valueLen == Offset(es, i + 1) <= |b.data|
            && b.data[h.keyStart..h.keyStart + h.nonShared] == es[i].key[s..]
            && b.data[h.keyStart + h.nonShared..h.keyStart + h.nonShared + h.valueLen] == es[i].value
  {
    hide Body, Varint, RestartBytes, LittleEndian, ReadHeader, Restarts;
    var data, s := BlockBytes(es), Shared(es, i);
    BodyStep(es, i);
    BodyPrefix(es, i + 1);
    OffsetBounds(es, i);
    KeyLengthBound(es, i);
    var key, value := es[i].key[s..], es[i].value;
    var front, entry := Body(es[..i]), EntryBytes(s, es[i]);
    assert entry == Varint(s) + Varint(|key|) + Varint(|value|) + key + value;
    var tail := data[|front| + |entry|..];
    FrontEntryTail(front, entry, Body(es), data);
    Regroup(Varint(s), Varint(|key|), Varint(|value|), key, value, tail);
    HeaderRoundTrip(data, |front|, s, |key|, |value|, key + value + tail);
    KeyThenValue(data, |data| - |key + value + tail|, key, value, tail);
  }

  /** `n` is where `b` parts from `a`. */
  predicate PartsAt(a: Bytes, b: Bytes, n: nat) {
    n <= |a| && n <= |b| && a[..n] == b[..n] && (n == |a| || n == |b| || a[n] != b[n])
  }

  lemma PartsOnce(a: Bytes, b: Bytes, m: nat, n: nat)
    requires PartsAt(a, b, m) && PartsAt(a, b, n)
    ensures m == n
  {
    assert forall k :: 0 <= k < m ==> a[..m][k] == b[..m][k];
    assert forall k :: 0 <= k < n ==> a[..n][k] == b[..n][k];
  }

  /**
   * What the finished block stores of entry `i`: every sixteenth key whole, each other one from the byte on
   * where it parts from the key before it.
   */
  lemma StoredEntry(es: seq<KV>, i: nat, n: nat)
    requires i < |es| && n <= |es[i].key|
    requires if i % 16 == 0 then n == 0 else PartsAt(es[i - 1].key, es[i].key, n)
    ensures Offset(es, i) <= Offset(es, i + 1) <= |BlockBytes(es)| && Offset(es, 0) == 0
    ensures BlockBytes(es)[Offset(es, i)..Offset(es, i + 1)]
         == Varint(n % U32_LIMIT) + Varint((|es[i].key| - n) % U32_LIMIT) + Varint(|es[i].value| % U32_LIMIT) + es[i].key[n..] + es[i].value
  {
    hide *;
    SharedIs(es, i, n);
    BodyStep(es, i);
    BodyPrefix(es, i + 1);
    var front := Body(es[..i]);
    BodyComesFirst(es);
    SliceBehind(front, EntryBytes(n, es[i]), Body(es[..i + 1]), Body(es), BlockBytes(es));
    EntryIs(n, es[i]);
    OffsetsAre(es, i);
  }

  lemma SharedIs(es: seq<KV>, i: nat, n: nat)
    requires i < |es| && n <= |es[i].key|
    requires if i % 16 == 0 then n == 0 else PartsAt(es[i - 1].key, es[i].key, n)
    ensures Shared(es, i) == n
  {
    if i % 16 != 0 {
      PartsOnce(es[i - 1].key, es[i].key, Shared(es, i), n);
    }
  }

  lemma OffsetsAre(es: seq<KV>, i: nat)
    requires i < |es|
    ensures Offset(es, i) == |Body(es[..i])| && Offset(es, i + 1) == |Body(es[..i + 1])| && Offset(es, 0) == 0
  {
    assert es[..0] == [];
  }

  lemma BodyComesFirst(es: seq<KV>)
    ensures Body(es) <= BlockBytes(es)
  {
    hide Body, RestartBytes, LittleEndian;
  }

  lemma SliceBehind(front: Bytes, entry: Bytes, both: Bytes, body: Bytes, data: Bytes)
    requires both == front + entry && both <= body <= data
    ensures |both| <= |data| && data[|front|..|front| + |entry|] == entry
  {
    assert (front + entry)[|front|..] == entry;
  }

  lemma EntryIs(n: nat, kv: KV)
    requires n <= |kv.key|
    ensures EntryBytes(n, kv)
         == Varint(n % U32_LIMIT) + Varint((|kv.key| - n) % U32_LIMIT) + Varint(|kv.value| % U32_LIMIT) + kv.key[n..] + kv.value
  {
  }

  /** Behind the entries, one offset for every sixteenth of them, and how many there are. */
  lemma StoredRestarts(es: seq<KV>, j: nat)
    requires j == 0 || 16 * j < |es|
    ensures var end, count := Offset(es, |es|), if es == [] then 1 else (|es| + 15) / 16;
            && |BlockBytes(es)| == end + 4 * count + 4 && j < count
            && BlockBytes(es)[end + 4 * j..end + 4 * j + 4] == LittleEndian(Offset(es, 16 * j) % U32_LIMIT, 4)
            && BlockBytes(es)[end + 4 * count..] == LittleEndian(count, 4)
  {
    assert es[..|es|] == es;
    var rs := Restarts(es);
    assert |rs| == if es == [] then 1 else (|es| + 15) / 16;
    assert rs[j] == Offset(es, 16 * j) % U32_LIMIT;
    hide Body, Restarts, RestartBytes, LittleEndian;
    RestartBytesAt(rs, j);
    RestartSlice(Body(es), RestartBytes(rs), LittleEndian(|rs|, 4), j);
  }

  lemma KeyThenValue(data: Bytes, start: nat, key: Bytes, value: Bytes, tail: Bytes)
    requires start <= |data| && data[start..] == key + value + tail
    ensures start + |key| + |value| <= |data|
    ensures data[start..start + |key|] == key
    ensures data[start + |key|..start + |key| + |value|] == value
  {
  }

  lemma FrontEntryTail(front: Bytes, entry: Bytes, body: Bytes, data: Bytes)
    requires front + entry <= body <= data
    ensures data[|front|..] == entry + data[|front| + |entry|..]
  {
  }

  /** The key stored whole at restart point `j`. */
  function KeyAtRestart(es: seq<KV>, j: nat): Bytes
    requires es != [] && j < NumRestarts(|es|)
  {
    es[j * RESTART_INTERVAL].key
  }

  lemma EntryAtBuilt(es: seq<KV>, j: nat)
    requires Fits(es) && es != [] && j < NumRestarts(|es|)
    ensures j * RESTART_INTERVAL < |es|
    ensures EntryAt(Built(es), RestartOffset(Built(es), j)) == Some(es[j * RESTART_INTERVAL])
    ensures RestartKey(Built(es), j) == Some(KeyAtRestart(es, j))
  {
    hide ReadHeader, Body, BlockBytes, RestartOffset;
    var i := j * RESTART_INTERVAL;
    RestartOffsetBuilt(es, j);
    EntryLayout(es, i);
    assert es[i].key[0..] == es[i].key;
  }

  /** The predecessor's key, or any key at a restart point, rebuilds entry `i`. */
  ghost predicate CanRebuild(es: seq<KV>, i: nat, lastKey: Bytes)
    requires i < |es|
  {
    Shared(es, i) <= |lastKey| && lastKey[..Shared(es, i)] == es[i].key[..Shared(es, i)]
  }

  lemma ParseEntryBuilt(es: seq<KV>, i: nat, lastKey: Bytes)
    requires Fits(es) && i < |es| && CanRebuild(es, i, lastKey)
    ensures ParseEntry(Built(es), Offset(es, i), lastKey) == Some(Parsed(es[i], Offset(es, i + 1)))
    ensures i + 1 < |es| ==> CanRebuild(es, i + 1, es[i].key)
    ensures Offset(es, i + 1) >= Built(es).restartsOffset <==> i + 1 == |es|
  {
    hide ReadHeader, Body, BlockBytes;
    EntryLayout(es, i);
    OffsetBounds(es, i);
    var s := Shared(es, i);
    assert es[i].key == es[i].key[..s] + es[i].key[s..];
  }

  // ----- iteration ----------------------------------------------------------------------------

  lemma {:induction false} IterBuilt(es: seq<KV>, i: nat, lastKey: Bytes)
    requires Fits(es) && i <= |es|
    requires i < |es| ==> CanRebuild(es, i, lastKey)
    ensures IterFrom(Built(es), Offset(es, i), lastKey) == es[i..]
    decreases |es| - i
  {
    hide ParseEntry, Body, BlockBytes, CanRebuild;
    if i == |es| {
      assert es[..i] == es;
    } else {
      ParseEntryBuilt(es, i, lastKey);
      OffsetBounds(es, i);
      IterBuilt(es, i + 1, es[i].key);
      assert es[i..] == [es[i]] + es[i + 1..];
    }
  }

  /** Iterating a finished block yields exactly the added pairs, sorted or not. */
  lemma EntriesBuilt(es: seq<KV>)
    requires Fits(es)
    ensures BlockEntries(Built(es)) == es
  {
    IterBuilt(es, 0, []);
  }

  // ----- lower bound --------------------------------------------------------------------------

  ghost predicate SortedBy(cmp: Comparator, es: seq<KV>) {
    forall i, j :: 0 <= i < j < |es| ==> cmp(es[i].key, es[j].key) != Greater
  }

  ghost predicate StrictlySortedBy(cmp: Comparator, es: seq<KV>) {
    forall i, j :: 0 <= i < j < |es| ==> cmp(es[i].key, es[j].key) == Less
  }

  /** The left-to-right search: the first entry whose key is not below the target. */
  function FirstNotBelow(es: seq<KV>, target: Bytes, cmp: Comparator): (i: nat)
    ensures i <= |es|
    ensures forall k :: 0 <= k < i ==> cmp(target, es[k].key) == Greater
    ensures i < |es| ==> cmp(target, es[i].key) != Greater
  {
    if es == [] || cmp(target, es[0].key) != Greater then 0 else 1 + FirstNotBelow(es[1..], target, cmp)
  }

  function LinearLowerBound(es: seq<KV>, target: Bytes, cmp: Comparator): Option<KV> {
    var i := FirstNotBelow(es, target, cmp);
    if i < |es| then Some(es[i]) else None
  }

  lemma FirstNotBelowIsUnique(es: seq<KV>, target: Bytes, cmp: Comparator, i: nat)
    requires i <= |es|
    requires forall k :: 0 <= k < i ==> cmp(target, es[k].key) == Greater
    requires i < |es| ==> cmp(target, es[i].key) != Greater
    ensures FirstNotBelow(es, target, cmp) == i
  {
  }

  lemma {:induction false} ScanBuilt(es: seq<KV>, target: Bytes, cmp: Comparator, i: nat, lastKey: Bytes)
    requires Fits(es) && i < |es| && CanRebuild(es, i, lastKey)
    requires forall k :: 0 <= k < i ==> cmp(target, es[k].key) == Greater
    ensures ScanFrom(Built(es), target, cmp, Offset(es, i), lastKey) == LinearLowerBound(es, target, cmp)
    decreases |es| - i
  {
    hide ParseEntry, Body, BlockBytes, CanRebuild, FirstNotBelow;
    ParseEntryBuilt(es, i, lastKey);
    if cmp(target, es[i].key) != Greater {
      FirstNotBelowIsUnique(es, target, cmp, i);
    } else if i + 1 < |es| {
      ScanBuilt(es, target, cmp, i + 1, es[i].key);
    } else {
      FirstNotBelowIsUnique(es, target, cmp, i + 1);
    }
  }

  /** One probe of each binary search. */
  lemma SeekProbe(b: Block, target: Bytes, cmp: Comparator, lo: nat, hi: nat, mid: nat, key: Bytes)
    requires b.Valid() && lo < hi <= b.numRestarts
    requires mid == (lo + hi) / 2 && RestartKey(b, mid) == Some(key)
    ensures SeekRestart(b, target, cmp, lo, hi)
         == if cmp(target, key) == Greater then SeekRestart(b, target, cmp, mid + 1, hi)
            else SeekRestart(b, target, cmp, lo, mid)
    ensures SeekExact(b, target, cmp, lo, hi)
         == match cmp(target, key)
            case Less => SeekExact(b, target, cmp, lo, mid)
            case Equal => At(mid)
            case Greater => SeekExact(b, target, cmp, mid + 1, hi)
  {
    hide RestartKey;
  }

  lemma SeekNowhere(b: Block, target: Bytes, cmp: Comparator, lo: nat)
    requires b.Valid() && lo <= b.numRestarts
    ensures SeekRestart(b, target, cmp, lo, lo) == Some(lo)
    ensures SeekExact(b, target, cmp, lo, lo) == After(lo)
  {
  }

  lemma {:induction false} SeekBuilt(es: seq<KV>, target: Bytes, cmp: Comparator, lo: nat, hi: nat)
    requires Fits(es) && es != []
    requires lo <= hi <= NumRestarts(|es|)
    requires lo > 0 ==> cmp(target, KeyAtRestart(es, lo - 1)) == Greater
    ensures SeekRestart(Built(es), target, cmp, lo, hi).Some?
    ensures var r := SeekRestart(Built(es), target, cmp, lo, hi).value;
            r > 0 ==> cmp(target, KeyAtRestart(es, r - 1)) == Greater
    decreases hi - lo
  {
    hide *;
    if lo == hi {
      SeekNowhere(Built(es), target, cmp, lo);
    } else {
      var mid := (lo + hi) / 2;
      EntryAtBuilt(es, mid);
      SeekProbe(Built(es), target, cmp, lo, hi, mid, KeyAtRestart(es, mid));
      if cmp(target, KeyAtRestart(es, mid)) == Greater {
        SeekBuilt(es, target, cmp, mid + 1, hi);
      } else {
        SeekBuilt(es, target, cmp, lo, mid);
      }
    }
  }

  lemma AllBelowRestart(es: seq<KV>, target: Bytes, cmp: Comparator, i: nat)
    requires i < |es| && SortedBy(cmp, es) && TotalPreorder(cmp)
    requires cmp(target, es[i].key) == Greater
    ensures forall k :: 0 <= k <= i ==> cmp(target, es[k].key) == Greater
  {
  }

  /**
   * The lower bound of a finished block, found by restart binary search and prefix-decoding scan, is
   * the one a left-to-right search of the added entries finds.
   */
  lemma LowerBoundRefinesLinearSearch(es: seq<KV>, target: Bytes, cmp: Comparator)
    requires Fits(es) && SortedBy(cmp, es) && TotalPreorder(cmp)
    ensures LowerBound(Built(es), target, cmp) == LinearLowerBound(es, target, cmp)
  {
    if es == [] {
      LowerBoundOfEmpty(target, cmp);
    } else {
      hide SeekRestart, ScanFrom, RestartKey, RestartOffset, Body, BlockBytes;
      SeekBuilt(es, target, cmp, 0, NumRestarts(|es|));
      var lo := SeekRestart(Built(es), target, cmp, 0, NumRestarts(|es|)).value;
      var start := if lo == 0 then 0 else lo - 1;
      var i := start * RESTART_INTERVAL;
      EntryAtBuilt(es, start);
      RestartOffsetBuilt(es, start);
      if lo > 0 {
        AllBelowRestart(es, target, cmp, i);
      }
      ScanBuilt(es, target, cmp, i, es[i].key);
    }
  }

  /** An empty block reads its restart array as an entry, but the scan rejects it: nothing is found. */
  lemma LowerBoundOfEmpty(target: Bytes, cmp: Comparator)
    ensures LowerBound(Built([]), target, cmp) == None
  {
  }

  lemma ParseNothing(b: Block)
    requires b.Valid() && b.restartsOffset == 0
    ensures forall offset, lastKey :: ParseEntry(b, offset, lastKey) == None
  {
  }

  // ----- exact search -------------------------------------------------------------------------

  function LinearGet(es: seq<KV>, target: Bytes, cmp: Comparator): Option<Bytes> {
    var i := FirstNotBelow(es, target, cmp);
    if i < |es| && cmp(target, es[i].key) == Equal then Some(es[i].value) else None
  }

  lemma {:induction false} ScanExactBuilt(es: seq<KV>, target: Bytes, cmp: Comparator, i: nat, lastKey: Bytes)
    requires Fits(es) && i < |es| && CanRebuild(es, i, lastKey)
    requires forall k :: 0 <= k < i ==> cmp(target, es[k].key) == Greater
    ensures ScanExact(Built(es), target, cmp, Offset(es, i), lastKey) == LinearGet(es, target, cmp)
    decreases |es| - i
  {
    hide ParseEntry, Body, BlockBytes, CanRebuild, FirstNotBelow;
    ParseEntryBuilt(es, i, lastKey);
    if cmp(target, es[i].key) != Greater {
      FirstNotBelowIsUnique(es, target, cmp, i);
    } else if i + 1 < |es| {
      ScanExactBuilt(es, target, cmp, i + 1, es[i].key);
    } else {
      FirstNotBelowIsUnique(es, target, cmp, i + 1);
    }
  }

  lemma {:induction false} SeekExactBuilt(es: seq<KV>, target: Bytes, cmp: Comparator, lo: nat, hi: nat)
    requires Fits(es) && es != []
    requires lo <= hi <= NumRestarts(|es|)
    requires lo > 0 ==> cmp(target, KeyAtRestart(es, lo - 1)) == Greater
    requires hi < NumRestarts(|es|) ==> cmp(target, KeyAtRestart(es, hi)) == Less
    ensures var r := SeekExact(Built(es), target, cmp, lo, hi);
            && !r.Broken?
            && (r.At? ==> cmp(target, KeyAtRestart(es, r.restart)) == Equal)
            && (r.After? && r.lo > 0 ==> cmp(target, KeyAtRestart(es, r.lo - 1)) == Greater)
            && (r.After? && r.lo == 0 ==> cmp(target, KeyAtRestart(es, 0)) == Less)
    decreases hi - lo
  {
    hide *;
    if lo == hi {
      SeekNowhere(Built(es), target, cmp, lo);
    } else {
      var mid := (lo + hi) / 2;
      EntryAtBuilt(es, mid);
      SeekProbe(Built(es), target, cmp, lo, hi, mid, KeyAtRestart(es, mid));
      match cmp(target, KeyAtRestart(es, mid)) {
        case Less => SeekExactBuilt(es, target, cmp, lo, mid);
        case Equal =>
        case Greater => SeekExactBuilt(es, target, cmp, mid + 1, hi);
      }
    }
  }

  lemma EqualIsFirst(es: seq<KV>, target: Bytes, cmp: Comparator, i: nat)
    requires i < |es| && StrictlySortedBy(cmp, es) && TotalPreorder(cmp)
    requires cmp(target, es[i].key) == Equal
    ensures FirstNotBelow(es, target, cmp) == i
  {
  }

  /** The exact search of a non-empty finished block agrees with a left-to-right search. */
  lemma GetRefinesLinearSearch(es: seq<KV>, target: Bytes, cmp: Comparator)
    requires Fits(es) && es != [] && StrictlySortedBy(cmp, es) && TotalPreorder(cmp)
    ensures Get(Built(es), target, cmp) == LinearGet(es, target, cmp)
  {
    hide SeekExact, ScanExact, RestartKey, RestartOffset, EntryAt, Body, BlockBytes, FirstNotBelow;
    SeekExactBuilt(es, target, cmp, 0, NumRestarts(|es|));
    var r := SeekExact(Built(es), target, cmp, 0, NumRestarts(|es|));
    if r.At? {
      EntryAtBuilt(es, r.restart);
      EqualIsFirst(es, target, cmp, r.restart * RESTART_INTERVAL);
    } else if r.lo == 0 {
      FirstNotBelowIsUnique(es, target, cmp, 0);
    } else {
      var i := (r.lo - 1) * RESTART_INTERVAL;
      EntryAtBuilt(es, r.lo - 1);
      RestartOffsetBuilt(es, r.lo - 1);
      assert SortedBy(cmp, es);
      AllBelowRestart(es, target, cmp, i);
      ScanExactBuilt(es, target, cmp, i, es[i].key);
    }
  }

  /**
   * The exact search of an empty block is right exactly for targets that differ from the empty key: it
   * decodes the restart array as an entry with an empty key and an empty value.
   */
  lemma GetOnEmptyBlock(target: Bytes, cmp: Comparator)
    ensures Get(Built([]), target, cmp) == if cmp(target, []) == Equal then Some([]) else None
  {
    EmptyBlockParses();
    hide *;
    var b := Built([]);
    SeekProbe(b, target, cmp, 0, 1, 0, []);
    SeekNowhere(b, target, cmp, 0);
    SeekNowhere(b, target, cmp, 1);
    GetFromSeek(b, target, cmp);
  }

  lemma EmptyBlockParses()
    ensures Built([]).numRestarts == 1 && Built([]).restartsOffset == 0
    ensures RestartKey(Built([]), 0) == Some([])
    ensures EntryAt(Built([]), RestartOffset(Built([]), 0)) == Some(KV([], []))
  {
    hide BlockBytes, RestartOffset, EntryAt, RestartKey;
    var b := Built([]);
    RestartOffsetBuilt([], 0);
    EmptyBlockBytes();
    ZeroHeader(b.data);
    ZeroEntry(b);
  }

  lemma ZeroEntry(b: Block)
    requires b.Valid() && |b.data| >= 3 && ReadHeader(b.data, 0) == Some(Header(0, 0, 0, 3))
    requires b.numRestarts > 0 && RestartOffset(b, 0) == 0
    ensures EntryAt(b, 0) == Some(KV([], []))
    ensures RestartKey(b, 0) == Some([])
  {
    hide ReadHeader, RestartOffset;
    assert b.data[3..3] == [];
  }

  lemma ZeroHeader(data: Bytes)
    requires |data| >= 3 && data[0] == data[1] == data[2] == 0
    ensures ReadHeader(data, 0) == Some(Header(0, 0, 0, 3))
  {
  }

  lemma EmptyBlockBytes()
    ensures |BlockBytes([])| == 8
    ensures BlockBytes([])[0] == BlockBytes([])[1] == BlockBytes([])[2] == 0
  {
  }

  /** What the exact search makes of its restart phase when the block holds no entries. */
  lemma GetFromSeek(b: Block, target: Bytes, cmp: Comparator)
    requires b.Valid() && b.restartsOffset == 0
    ensures Get(b, target, cmp)
         == match SeekExact(b, target, cmp, 0, b.numRestarts)
            case At(i) => (match EntryAt(b, RestartOffset(b, i)) case None => None case Some(kv) => Some(kv.value))
            case _ => None
  {
    hide SeekExact, ParseEntry, RestartKey, RestartOffset;
    ParseNothing(b);
  }
}
