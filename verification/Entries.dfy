/** Versioned entries, the order they are stored in, and what a reader at a snapshot sees of a set of them. */
module VersionedEntries {
  import opened ByteStrings
  import opened InternalKeys

  /** One write: an internal key and the value (empty for a deletion). */
  datatype Entry = Entry(ik: InternalKey, value: Bytes) {
    function Key(): Bytes { ik.userKey }
    function Seqno(): nat { ik.seqno }
  }

  /** The storage order: user keys ascending, newer versions of a key first. */
  predicate VersionBefore(a: Entry, b: Entry) {
    Before(a.Key(), b.Key()) || (a.Key() == b.Key() && a.Seqno() > b.Seqno())
  }

  ghost predicate Ascending(es: seq<Entry>) {
    forall i, j :: 0 <= i < j < |es| ==> VersionBefore(es[i], es[j])
  }

  ghost function SetOf(es: seq<Entry>): set<Entry> {
    set e | e in es
  }

  /** No two entries are the same version of the same key. */
  ghost predicate Distinct(E: set<Entry>) {
    forall a, b :: a in E && b in E && a.Key() == b.Key() && a.Seqno() == b.Seqno() ==> a == b
  }

  predicate VisibleAt(e: Entry, k: Bytes, s: nat) {
    e.Key() == k && e.Seqno() <= s
  }

  ghost predicate IsNewest(E: set<Entry>, k: Bytes, s: nat, e: Entry) {
    && e in E && VisibleAt(e, k, s)
    && forall other :: other in E && VisibleAt(other, k, s) ==> other.Seqno() <= e.Seqno()
  }

  /** The newest version of `k` a reader at `s` finds in `E`. */
  ghost function Newest(E: set<Entry>, k: Bytes, s: nat): (r: Option<Entry>)
    ensures r.Some? ==> IsNewest(E, k, s, r.value)
    ensures r.None? ==> forall e :: !IsNewest(E, k, s, e)
  {
    if exists e :: IsNewest(E, k, s, e) then
      var e :| IsNewest(E, k, s, e);
      Some(e)
    else None
  }

  function Read(e: Option<Entry>): Option<Bytes> {
    if e.Some? && e.value.ik.vtype.Put? then Some(e.value.value) else None
  }

  /** What the user sees of `k` at `s`: the newest version's value, a deletion read as absence. */
  ghost function View(E: set<Entry>, k: Bytes, s: nat): Option<Bytes> {
    Read(Newest(E, k, s))
  }

  lemma NewestIsUnique(E: set<Entry>, k: Bytes, s: nat, e: Entry)
    requires Distinct(E) && IsNewest(E, k, s, e)
    ensures Newest(E, k, s) == Some(e)
  {
    var r := Newest(E, k, s);
    assert r.value.Seqno() == e.Seqno();
  }

  /** A newest version exists as soon as some version is visible. */
  lemma {:induction false} NewestExists(E: set<Entry>, k: Bytes, s: nat, e: Entry)
    requires e in E && VisibleAt(e, k, s)
    ensures Newest(E, k, s).Some?
    decreases s - e.Seqno()
  {
    if !IsNewest(E, k, s, e) {
      var other :| other in E && VisibleAt(other, k, s) && other.Seqno() > e.Seqno();
      NewestExists(E, k, s, other);
    }
  }

  lemma NothingVisible(E: set<Entry>, k: Bytes, s: nat)
    requires forall e :: e in E ==> !VisibleAt(e, k, s)
    ensures Newest(E, k, s) == None && View(E, k, s) == None
  {
  }

  /** Two sets with the same entries visible for `k` at `s` show the same. */
  lemma ViewDependsOnVisible(A: set<Entry>, B: set<Entry>, k: Bytes, s: nat)
    requires Distinct(A) && Distinct(B)
    requires forall e :: VisibleAt(e, k, s) ==> (e in A <==> e in B)
    ensures Newest(A, k, s) == Newest(B, k, s)
    ensures View(A, k, s) == View(B, k, s)
  {
    var a := Newest(A, k, s);
    if a.Some? {
      assert IsNewest(B, k, s, a.value);
      NewestIsUnique(B, k, s, a.value);
    } else if Newest(B, k, s).Some? {
      assert IsNewest(A, k, s, Newest(B, k, s).value);
    }
  }

  // ----- sorted lists -------------------------------------------------------------------------

  /** Entries a search for `(k, s)` walks past: those stored before every version of `k` visible at `s`. */
  predicate PastLookup(e: Entry, k: Bytes, s: nat) {
    Before(e.Key(), k) || (e.Key() == k && e.Seqno() > s)
  }

  /** The first entry a search for `(k, s)` does not walk past. */
  function FirstCandidate(es: seq<Entry>, k: Bytes, s: nat): (i: nat)
    ensures i <= |es|
    ensures forall j :: 0 <= j < i ==> PastLookup(es[j], k, s)
    ensures i < |es| ==> !PastLookup(es[i], k, s)
  {
    if es == [] || !PastLookup(es[0], k, s) then 0 else 1 + FirstCandidate(es[1..], k, s)
  }

  /** The sorted search: the first candidate, if it carries the wanted user key. */
  function SearchSorted(es: seq<Entry>, k: Bytes, s: nat): Option<Entry> {
    var i := FirstCandidate(es, k, s);
    if i < |es| && es[i].Key() == k then Some(es[i]) else None
  }

  lemma AscendingIsDistinct(es: seq<Entry>)
    requires Ascending(es)
    ensures Distinct(SetOf(es))
  {
    OrderFacts();
    forall a, b | a in SetOf(es) && b in SetOf(es) && a.Key() == b.Key() && a.Seqno() == b.Seqno() ensures a == b {
      var i :| 0 <= i < |es| && es[i] == a;
      var j :| 0 <= j < |es| && es[j] == b;
      assert i < j ==> VersionBefore(es[i], es[j]);
      assert j < i ==> VersionBefore(es[j], es[i]);
    }
  }

  /** In a sorted list, the search finds exactly the newest visible version. */
  lemma SearchSortedIsNewest(es: seq<Entry>, k: Bytes, s: nat)
    requires Ascending(es)
    ensures SearchSorted(es, k, s) == Newest(SetOf(es), k, s)
  {
    OrderFacts();
    AscendingIsDistinct(es);
    var i := FirstCandidate(es, k, s);
    forall e | e in es && VisibleAt(e, k, s)
      ensures i < |es| && es[i].Key() == k && e.Seqno() <= es[i].Seqno()
    {
      var j :| 0 <= j < |es| && es[j] == e;
      assert j >= i;
      if j > i {
        assert VersionBefore(es[i], es[j]);
      }
    }
    if i < |es| && es[i].Key() == k {
      assert IsNewest(SetOf(es), k, s, es[i]);
      NewestIsUnique(SetOf(es), k, s, es[i]);
    } else {
      NothingVisible(SetOf(es), k, s);
    }
  }
}
