/** The memtable: a skip list of versions, with the counters that decide when it is flushed. */
module MemTables {
  import opened ByteStrings
  import opened InternalKeys
  import opened VersionedEntries
  import opened Sorting
  import opened SkipLists

  function SizeOf(e: Entry): nat {
    |e.ik.userKey| + |e.value|
  }

  function ApproxBytes(es: seq<Entry>): nat {
    if es == [] then 0 else SizeOf(es[0]) + ApproxBytes(es[1..])
  }

  lemma {:induction false} InsertAddsBytes(es: seq<Entry>, e: Entry)
    ensures ApproxBytes(Insert(es, e)) == ApproxBytes(es) + SizeOf(e)
  {
    if es != [] && KeyBefore(es[0].ik, e.ik) {
      InsertAddsBytes(es[1..], e);
      assert ([es[0]] + Insert(es[1..], e))[1..] == Insert(es[1..], e);
    } else {
      assert ([e] + es)[1..] == es;
    }
  }

  /** The sentinel search of the skip list walks past the same entries as the sorted search. */
  lemma {:induction false} PositionIsFirstCandidate(es: seq<Entry>, k: Bytes, s: nat)
    ensures Position(es, InternalKey(k, s, Put)) == FirstCandidate(es, k, s)
  {
    if es != [] {
      OrderFacts();
      PositionIsFirstCandidate(es[1..], k, s);
    }
  }

  /** The entries a scan at `s` takes, in order. */
  function VisibleUpTo(es: seq<Entry>, s: nat): (r: seq<Entry>)
    ensures forall e :: e in r <==> e in es && e.Seqno() <= s
  {
    if es == [] then [] else (if es[0].Seqno() <= s then [es[0]] else []) + VisibleUpTo(es[1..], s)
  }

  lemma {:induction false} VisibleUpToPush(es: seq<Entry>, e: Entry, s: nat)
    ensures VisibleUpTo(es + [e], s) == VisibleUpTo(es, s) + if e.Seqno() <= s then [e] else []
  {
    if es == [] {
      assert [] + [e] == [e] && [e][1..] == [];
    } else {
      assert (es + [e])[1..] == es[1..] + [e];
      VisibleUpToPush(es[1..], e, s);
    }
  }

  lemma NothingVisibleUpTo(s: nat)
    ensures VisibleUpTo([], s) == []
  {
  }

  class MemTable {
    const list: SkipList
    var sequence: nat
    var numEntries: nat
    var approxBytes: nat
    /** The writes applied, in order. */
    ghost var applied: seq<Entry>

    ghost predicate Valid()
      reads this, list
    {
      && list.Valid()
      && list.Entries() == InsertAll([], applied)
      && numEntries == |applied|
      && approxBytes == ApproxBytes(list.Entries())
      && (forall e :: e in applied ==> e.Seqno() <= sequence)
    }

    /** The sorted entries. */
    ghost function Contents(): seq<Entry>
      requires Valid()
      reads this, list
    {
      list.Entries()
    }

    lemma CountIsLength()
      requires Valid()
      ensures numEntries == |Contents()|
    {
      hide WellFormed, EntriesIn, ApproxBytes;
    }

    /** `with_initial_sequence`; `new` starts from 0. */
    constructor (start: nat)
      ensures Valid() && fresh(list) && applied == [] && sequence == start && Contents() == []
    {
      list := new SkipList();
      sequence, numEntries, approxBytes := start, 0, 0;
      applied := [];
    }

    /** `apply`: a write under its own sequence number, which is never lowered. */
    method Apply(vtype: ValueType, seqno: nat, key: Bytes, value: Bytes, height: nat)
      requires Valid() && 1 <= height <= MAX_HEIGHT
      modifies this, list
      ensures Valid() && applied == old(applied) + [Entry(InternalKey(key, seqno, vtype), value)]
      ensures Contents() == Sorting.Insert(old(Contents()), Entry(InternalKey(key, seqno, vtype), value))
      ensures sequence == if seqno > old(sequence) then seqno else old(sequence)
      ensures numEntries == old(numEntries) + 1 && approxBytes == old(approxBytes) + |key| + |value|
    {
      var e := Entry(InternalKey(key, seqno, vtype), value);
      InsertAllAppend([], applied, e);
      InsertAddsBytes(list.Entries(), e);
      approxBytes := approxBytes + |key| + |value|;
      list.Insert(e, height);
      if seqno > sequence {
        sequence := seqno;
      }
      numEntries := numEntries + 1;
      applied := applied + [e];
    }

    /** `put`: the next sequence number. */
    method Put(key: Bytes, value: Bytes, height: nat)
      requires Valid() && 1 <= height <= MAX_HEIGHT
      modifies this, list
      ensures Valid() && sequence == old(sequence) + 1
      ensures Contents() == Sorting.Insert(old(Contents()), Entry(InternalKey(key, old(sequence) + 1, ValueType.Put), value))
    {
      Apply(ValueType.Put, sequence + 1, key, value, height);
    }

    /** `delete`: a deletion mark, whether or not the key exists. */
    method Delete(key: Bytes, height: nat)
      requires Valid() && 1 <= height <= MAX_HEIGHT
      modifies this, list
      ensures Valid() && sequence == old(sequence) + 1
      ensures Contents() == Sorting.Insert(old(Contents()), Entry(InternalKey(key, old(sequence) + 1, ValueType.Delete), []))
    {
      Apply(ValueType.Delete, sequence + 1, key, [], height);
    }

    /** `get_entry`: the newest version at or below `s`, a deletion reported as such. */
    method GetEntry(key: Bytes, s: nat) returns (r: Option<(ValueType, Bytes)>)
      requires Valid()
      ensures r == match SearchSorted(Contents(), key, s) case None => None case Some(e) => Some((e.ik.vtype, e.value))
    {
      PositionIsFirstCandidate(list.Entries(), key, s);
      var found := list.LowerBound(InternalKey(key, s, ValueType.Put));
      if found.None? || found.value.ik.userKey != key {
        return None;
      }
      return Some((found.value.ik.vtype, found.value.value));
    }

    /** `get`: absence and deletion are the same to the user. */
    method Get(key: Bytes) returns (r: Option<Bytes>)
      requires Valid()
      ensures r == Read(SearchSorted(Contents(), key, MAX_SEQUENCE))
    {
      var e := GetEntry(key, MAX_SEQUENCE);
      return if e.Some? && e.value.0.Put? then Some(e.value.1) else None;
    }

    /** `snapshot_entries`: the visible entries, in order. */
    method SnapshotEntries(s: nat) returns (r: seq<Entry>)
      requires Valid()
      ensures r == VisibleUpTo(Contents(), s)
    {
      hide WellFormed, EntriesIn, InsertAll, VisibleUpTo, Iter.Valid, ApproxBytes;
      var it := new Iter(list);
      r := [];
      ghost var es := list.Entries();
      assert es[..0] == [] && VisibleUpTo([], s) == [] by { NothingVisibleUpTo(s); }
      var next := it.Next();
      while next.Some?
        invariant it.Valid() && it.pos <= |es| && it.list == list && list.Valid() && list.Entries() == es && fresh(it)
        invariant next.Some? ==> 0 < it.pos <= |es| && next.value == es[it.pos - 1] && r == VisibleUpTo(es[..it.pos - 1], s)
        invariant next.None? ==> it.pos == |es| && r == VisibleUpTo(es, s)
        decreases |es| - it.pos, next.Some?
      {
        VisibleUpToPush(es[..it.pos - 1], es[it.pos - 1], s);
        assert es[..it.pos - 1] + [es[it.pos - 1]] == es[..it.pos];
        assert es[..|es|] == es;
        if next.value.Seqno() <= s {
          r := r + [next.value];
        }
        next := it.Next();
      }
    }

    /**
     * `flush_to_sstable`: the entries handed to the table builder, in order, and the first and last
     * internal key; no keys for an empty memtable.
     */
    method FlushEntries() returns (entries: seq<Entry>, smallest: Option<InternalKey>, largest: Option<InternalKey>)
      requires Valid()
      ensures entries == Contents()
      ensures Contents() == [] ==> smallest == None && largest == None
      ensures Contents() != [] ==> smallest == Some(Contents()[0].ik) && largest == Some(Contents()[|Contents()| - 1].ik)
    {
      hide WellFormed, EntriesIn, InsertAll, Iter.Valid, ApproxBytes;
      var it := new Iter(list);
      entries, smallest, largest := [], None, None;
      ghost var es := list.Entries();
      var next := it.Next();
      while next.Some?
        invariant it.Valid() && it.pos <= |es| && it.list == list && list.Valid() && list.Entries() == es && fresh(it)
        invariant next.Some? ==> 0 < it.pos <= |es| && next.value == es[it.pos - 1] && entries == es[..it.pos - 1]
        invariant next.None? ==> it.pos == |es| && entries == es
        invariant entries == [] ==> smallest == None && largest == None
        invariant entries != [] ==> smallest == Some(entries[0].ik) && largest == Some(entries[|entries| - 1].ik)
        decreases |es| - it.pos, next.Some?
      {
        assert es[..it.pos - 1] + [es[it.pos - 1]] == es[..it.pos];
        entries := entries + [next.value];
        if smallest.None? {
          smallest := Some(next.value.ik);
        }
        largest := Some(next.value.ik);
        next := it.Next();
        assert es[..|es|] == es;
      }
    }
  }

  /** Applying distinct versions in any order, a lookup finds the newest one at or below the snapshot. */
  lemma MemTableFindsNewest(applied: seq<Entry>, k: Bytes, s: nat)
    requires NoRepeatedVersion(applied)
    ensures Ascending(InsertAll([], applied))
    ensures SearchSorted(InsertAll([], applied), k, s) == Newest(SetOf(applied), k, s)
  {
    InsertAllKeepsOrder([], applied);
    SearchSortedIsNewest(InsertAll([], applied), k, s);
    assert SetOf(InsertAll([], applied)) == SetOf(applied);
  }
}
