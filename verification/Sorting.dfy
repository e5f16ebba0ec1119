/** Sorted insertion of entries, the specification of the memtable and of the merge. */
module Sorting {
  import opened ByteStrings
  import opened InternalKeys
  import opened VersionedEntries

  /** Insertion before the first entry whose key is not smaller. */
  function Insert(es: seq<Entry>, e: Entry): (r: seq<Entry>)
    ensures |r| == |es| + 1
    ensures forall x :: x in r <==> x in es || x == e
  {
    if es == [] || !KeyBefore(es[0].ik, e.ik) then [e] + es else [es[0]] + Insert(es[1..], e)
  }

  function InsertAll(es: seq<Entry>, more: seq<Entry>): (r: seq<Entry>)
    ensures |r| == |es| + |more|
    ensures forall x :: x in r <==> x in es || x in more
    decreases |more|
  {
    if more == [] then es
    else
      assert more == [more[0]] + more[1..];
      InsertAll(Insert(es, more[0]), more[1..])
  }

  ghost predicate NewVersion(es: seq<Entry>, e: Entry) {
    forall x :: x in es ==> x.Key() != e.Key() || x.Seqno() != e.Seqno()
  }

  lemma {:induction false} InsertKeepsOrder(es: seq<Entry>, e: Entry)
    requires Ascending(es) && NewVersion(es, e)
    ensures Ascending(Insert(es, e))
  {
    OrderFacts();
    if es != [] {
      assert es == [es[0]] + es[1..];
      if KeyBefore(es[0].ik, e.ik) {
        InsertKeepsOrder(es[1..], e);
        var rest := Insert(es[1..], e);
        forall x | x in rest ensures VersionBefore(es[0], x) {
          if x in es[1..] {
            var i :| 0 <= i < |es[1..]| && es[1..][i] == x;
            assert es[i + 1] == x;
          }
        }
        AscendingCons(es[0], rest);
      } else {
        forall x | x in es ensures VersionBefore(e, x) {
          var i :| 0 <= i < |es| && es[i] == x;
          assert 0 < i ==> VersionBefore(es[0], es[i]);
        }
        AscendingCons(e, es);
      }
    }
  }

  lemma AscendingCons(e: Entry, es: seq<Entry>)
    requires Ascending(es) && forall x :: x in es ==> VersionBefore(e, x)
    ensures Ascending([e] + es)
  {
  }

  /** No version occurs twice in a list. */
  ghost predicate NoRepeatedVersion(es: seq<Entry>) {
    forall i, j :: 0 <= i < j < |es| ==> es[i].Key() != es[j].Key() || es[i].Seqno() != es[j].Seqno()
  }

  lemma {:induction false} InsertAllKeepsOrder(es: seq<Entry>, more: seq<Entry>)
    requires Ascending(es) && NoRepeatedVersion(more)
    requires forall x :: x in more ==> NewVersion(es, x)
    ensures Ascending(InsertAll(es, more))
    decreases |more|
  {
    if more != [] {
      assert more == [more[0]] + more[1..];
      InsertKeepsOrder(es, more[0]);
      forall x | x in more[1..] ensures NewVersion(Insert(es, more[0]), x) {
        var i :| 0 <= i < |more[1..]| && more[1..][i] == x;
        assert more[0] in more && x == more[i + 1] && x in more;
      }
      forall i, j | 0 <= i < j < |more[1..]|
        ensures more[1..][i].Key() != more[1..][j].Key() || more[1..][i].Seqno() != more[1..][j].Seqno()
      {
        assert more[1..][i] == more[i + 1] && more[1..][j] == more[j + 1];
      }
      InsertAllKeepsOrder(Insert(es, more[0]), more[1..]);
    }
  }

  lemma {:induction false} InsertAllAppend(es: seq<Entry>, more: seq<Entry>, e: Entry)
    ensures InsertAll(es, more + [e]) == Insert(InsertAll(es, more), e)
    decreases |more|
  {
    if more == [] {
      assert more + [e] == [e] && [e][1..] == [];
    } else {
      assert (more + [e])[0] == more[0] && (more + [e])[1..] == more[1..] + [e];
      InsertAllAppend(Insert(es, more[0]), more[1..], e);
    }
  }

  /** A sorted list is determined by its entries. */
  lemma {:induction false} SortedListIsUnique(a: seq<Entry>, b: seq<Entry>)
    requires Ascending(a) && Ascending(b)
    requires forall e :: e in a <==> e in b
    ensures a == b
    decreases |a|
  {
    OrderFacts();
    if a == [] {
      EmptyOrInhabited(b);
    } else {
      assert a[0] in b;
      assert b != [] && b[0] in a;
      SameHead(a, b);
      forall e ensures e in a[1..] <==> e in b[1..] {
        TailMembers(a, e);
        TailMembers(b, e);
      }
      SortedListIsUnique(a[1..], b[1..]);
      assert a == [a[0]] + a[1..] && b == [b[0]] + b[1..];
    }
  }

  lemma SameHead(a: seq<Entry>, b: seq<Entry>)
    requires Ascending(a) && Ascending(b) && a != [] && b != []
    requires a[0] in b && b[0] in a
    ensures a[0] == b[0]
  {
    OrderFacts();
    var i :| 0 <= i < |b| && b[i] == a[0];
    var j :| 0 <= j < |a| && a[j] == b[0];
    assert 0 < i ==> VersionBefore(b[0], b[i]);
    assert 0 < j ==> VersionBefore(a[0], a[j]);
  }

  lemma TailMembers(a: seq<Entry>, e: Entry)
    requires Ascending(a) && a != []
    ensures e in a[1..] <==> e in a && e != a[0]
  {
    OrderFacts();
    if e in a[1..] {
      var i :| 0 <= i < |a[1..]| && a[1..][i] == e;
      assert VersionBefore(a[0], a[i + 1]);
    }
    if e in a && e != a[0] {
      var i :| 0 <= i < |a| && a[i] == e;
      assert a[1..][i - 1] == e;
    }
  }
}
