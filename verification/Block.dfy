/** Blocks: prefix-compressed entries with restart points, their builder, searches and iterator. */
module Blocks {
  import opened ByteStrings
  import opened InternalKeys
  import opened Varints

  const RESTART_INTERVAL: nat := 16

  datatype KV = KV(key: Bytes, value: Bytes)

  // ----- building -----------------------------------------------------------------------------

  lemma PrefixGrows(a: Bytes, b: Bytes, n: nat)
    requires n < |a| && n < |b| && a[0] == b[0] && a[1..][..n] == b[1..][..n]
    ensures a[..n + 1] == b[..n + 1]
  {
  }

  function CommonPrefix(a: Bytes, b: Bytes): (n: nat)
    ensures n <= |a| && n <= |b| && a[..n] == b[..n]
    ensures n == |a| || n == |b| || a[n] != b[n]
  {
    if a == [] || b == [] || a[0] != b[0] then 0
    else
      var n := CommonPrefix(a[1..], b[1..]);
      PrefixGrows(a, b, n);
      n + 1
  }

  /** The comparing loop of `common_prefix_len`. */
  method CommonPrefixLen(a: Bytes, b: Bytes) returns (i: nat)
    ensures i <= |a| && i <= |b| && a[..i] == b[..i] && (i == |a| || i == |b| || a[i] != b[i])
    ensures i == CommonPrefix(a, b)
  {
    i := 0;
    var len := if |a| < |b| then |a| else |b|;
    while i < len && a[i] == b[i]
      invariant i <= len
      invariant CommonPrefix(a, b) == i + CommonPrefix(a[i..], b[i..])
    {
      assert a[i..][1..] == a[i + 1..] && b[i..][1..] == b[i + 1..];
      i := i + 1;
    }
  }

  /** Bytes entry `i` shares with its predecessor; none at a restart point. */
  function Shared(es: seq<KV>, i: nat): (n: nat)
    requires i < |es|
    ensures n <= |es[i].key|
    ensures i > 0 ==> n <= |es[i - 1].key| && es[i - 1].key[..n] == es[i].key[..n]
  {
    if i % RESTART_INTERVAL == 0 then 0 else CommonPrefix(es[i - 1].key, es[i].key)
  }

  /** shared | non_shared | value_len | key_delta | value, the three lengths cast to u32. */
  function EntryBytes(shared: nat, kv: KV): (b: Bytes)
    requires shared <= |kv.key|
    ensures |b| >= 3 + |kv.key| - shared + |kv.value|
  {
    Varint(shared % U32_LIMIT) + Varint((|kv.key| - shared) % U32_LIMIT) + Varint(|kv.value| % U32_LIMIT)
    + kv.key[shared..] + kv.value
  }

  /** The encoded entries, without the restart array. */
  function Body(es: seq<KV>): Bytes {
    if es == [] then []
    else Body(es[..|es| - 1]) + EntryBytes(Shared(es, |es| - 1), es[|es| - 1])
  }

  /** Where entry `i` starts. */
  function Offset(es: seq<KV>, i: nat): nat
    requires i <= |es|
  {
    |Body(es[..i])|
  }

  function NumRestarts(n: nat): (r: nat)
    ensures r > 0
    ensures forall j: nat :: j < r ==> j * RESTART_INTERVAL < n || j == 0
  {
    if n == 0 then 1 else (n - 1) / RESTART_INTERVAL + 1
  }

  /** Entries since the last restart point, after `n` additions. */
  function SinceRestart(n: nat): nat {
    if n == 0 then 0 else (n - 1) % RESTART_INTERVAL + 1
  }

  lemma RestartCounting(n: nat)
    ensures SinceRestart(n) < RESTART_INTERVAL <==> n == 0 || n % RESTART_INTERVAL != 0
    ensures SinceRestart(n + 1) == if SinceRestart(n) < RESTART_INTERVAL then SinceRestart(n) + 1 else 1
    ensures NumRestarts(n + 1) == NumRestarts(n) + if SinceRestart(n) < RESTART_INTERVAL then 0 else 1
    ensures SinceRestart(n) >= RESTART_INTERVAL ==> NumRestarts(n) * RESTART_INTERVAL == n
  {
  }

  function Restarts(es: seq<KV>): (rs: seq<nat>)
    ensures |rs| == NumRestarts(|es|)
  {
    seq(NumRestarts(|es|), (j: nat) requires j < NumRestarts(|es|) => Offset(es, j * RESTART_INTERVAL) % U32_LIMIT)
  }

  function RestartBytes(rs: seq<nat>): (b: Bytes)
    ensures |b| == 4 * |rs|
  {
    if rs == [] then [] else RestartBytes(rs[..|rs| - 1]) + LittleEndian(rs[|rs| - 1], 4)
  }

  /** The finished block: entries, restart offsets, and their number. */
  function BlockBytes(es: seq<KV>): Bytes {
    Body(es) + RestartBytes(Restarts(es)) + LittleEndian(|Restarts(es)|, 4)
  }

  class BlockBuilder {
    var buf: Bytes
    var restarts: seq<nat>
    var lastKey: Bytes
    var countSinceRestart: nat
    var finished: bool
    ghost var entries: seq<KV>

    ghost predicate Valid()
      reads this
    {
      && restarts == Restarts(entries)
      && lastKey == (if entries == [] then [] else entries[|entries| - 1].key)
      && countSinceRestart == SinceRestart(|entries|)
      && (!finished ==> buf == Body(entries))
    }

    constructor ()
      ensures Valid() && !finished
      ensures entries == []
    {
      buf, restarts, lastKey, countSinceRestart, finished := [], [0], [], 0, false;
      entries := [];
    }

    method Add(key: Bytes, value: Bytes) returns (r: Result<()>)
      requires Valid()
      modifies this
      ensures Valid() && finished == old(finished)
      ensures r.Ok? <==> !finished
      ensures entries == if r.Ok? then old(entries) + [KV(key, value)] else old(entries)
    {
      hide Body, Restarts, EntryBytes, Shared, SinceRestart, NumRestarts, CommonPrefix;
      if finished {
        return Corrupted;
      }
      AddedEntry(entries, KV(key, value));
      RestartCounting(|entries|);
      var shared := 0;
      if countSinceRestart < RESTART_INTERVAL {
        shared := CommonPrefixLen(lastKey, key);
      } else {
        restarts := restarts + [|buf| % U32_LIMIT];
        countSinceRestart := 0;
      }
      buf := buf + EntryBytes(shared, KV(key, value));
      lastKey := key;
      countSinceRestart := countSinceRestart + 1;
      entries := entries + [KV(key, value)];
      return Ok(());
    }

    /** Consumes the builder: its bytes leave it, and no entry can follow. */
    method Finish() returns (bytes: Bytes)
      requires Valid() && !finished
      modifies this
      ensures Valid() && finished && entries == old(entries)
      ensures bytes == BlockBytes(entries)
    {
      finished := true;
      bytes := AppendRestarts(buf, restarts);
    }

    function CurrentSizeEstimate(): nat
      reads this
    {
      |buf| + 4 * |restarts| + 4
    }

    predicate IsEmpty()
      reads this
    {
      buf == []
    }
  }

  lemma NoRestartBytes(body: Bytes, rs: seq<nat>)
    ensures body == body + RestartBytes(rs[..0])
  {
  }

  lemma RestartBytesStep(body: Bytes, rs: seq<nat>, i: nat)
    requires i < |rs|
    ensures body + RestartBytes(rs[..i + 1]) == body + RestartBytes(rs[..i]) + LittleEndian(rs[i], 4)
  {
    hide LittleEndian;
    assert rs[..i + 1][..i] == rs[..i];
  }

  method AppendRestarts(body: Bytes, restarts: seq<nat>) returns (bytes: Bytes)
    ensures bytes == body + RestartBytes(restarts) + LittleEndian(|restarts|, 4)
  {
    hide RestartBytes, LittleEndian;
    bytes := body;
    NoRestartBytes(body, restarts);
    for i := 0 to |restarts|
      invariant bytes == body + RestartBytes(restarts[..i])
    {
      RestartBytesStep(body, restarts, i);
      bytes := bytes + LittleEndian(restarts[i], 4);
    }
    assert restarts[..|restarts|] == restarts;
    bytes := bytes + LittleEndian(|restarts|, 4);
  }

  /** How the encoding of a list grows by one entry. */
  lemma AddedEntry(es: seq<KV>, kv: KV)
    ensures Shared(es + [kv], |es|)
         == if SinceRestart(|es|) < RESTART_INTERVAL then CommonPrefix(if es == [] then [] else es[|es| - 1].key, kv.key) else 0
    ensures Body(es + [kv]) == Body(es) + EntryBytes(Shared(es + [kv], |es|), kv)
    ensures Restarts(es + [kv])
         == if SinceRestart(|es|) < RESTART_INTERVAL then Restarts(es) else Restarts(es) + [|Body(es)| % U32_LIMIT]
  {
    hide EntryBytes, SinceRestart, CommonPrefix, Restarts;
    RestartCounting(|es|);
    assert (es + [kv])[..|es|] == es;
    NoSharedPrefix(kv.key);
    AddedRestart(es, kv);
  }

  lemma AddedRestart(es: seq<KV>, kv: KV)
    ensures Restarts(es + [kv])
         == if SinceRestart(|es|) < RESTART_INTERVAL then Restarts(es) else Restarts(es) + [|Body(es)| % U32_LIMIT]
  {
    hide Body, SinceRestart, NumRestarts;
    var more := es + [kv];
    RestartCounting(|es|);
    forall j: nat | j * RESTART_INTERVAL <= |es|
      ensures Offset(more, j * RESTART_INTERVAL) == Offset(es, j * RESTART_INTERVAL)
    {
      assert more[..j * RESTART_INTERVAL] == es[..j * RESTART_INTERVAL];
    }
    assert es[..|es|] == es;
  }

  lemma NoSharedPrefix(b: Bytes)
    ensures CommonPrefix([], b) == 0
  {
  }
}
