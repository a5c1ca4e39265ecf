/** Vertices, edges and the distance order the priority queue uses (the nested
    classes Vertex and Edge of Kruskals). Both are immutable once built, so they
    are values here. */
module Edges {

  /** A city: its name and the tracker id it is known by in the disjoint sets. */
  datatype Vertex = Vertex(val: string, tracker: nat)

  /** An edge between two vertices with its distance; v is the first city of a
      row, w the neighbour named in the row. */
  datatype Edge = Edge(v: Vertex, w: Vertex, distance: int)

  /** Edge.compareTo: the sign of the comparison of the two distances. */
  function CompareTo(e: Edge, f: Edge): (r: int)
    ensures r < 0 <==> e.distance < f.distance
    ensures r == 0 <==> e.distance == f.distance
    ensures r > 0 <==> e.distance > f.distance
    ensures -1 <= r <= 1
  {
    if e.distance < f.distance then -1
    else if e.distance == f.distance then 0
    else 1
  }

  /** e is a head the queue may hand out: no pending edge compares below it. */
  predicate IsMinimum(e: Edge, pending: multiset<Edge>)
  {
    e in pending && forall f :: f in pending ==> CompareTo(e, f) <= 0
  }

  /** A non-empty queue always has some minimum to poll. */
  lemma {:induction false} MinimumExists(pending: multiset<Edge>)
    requires pending != multiset{}
    ensures exists e :: IsMinimum(e, pending)
    decreases |pending|
  {
    var x :| x in pending;
    var rest := pending - multiset{x};
    forall f | f in pending ensures f == x || f in rest {
      if f != x { assert rest[f] == pending[f]; }
    }
    if rest == multiset{} {
      assert IsMinimum(x, pending);
    } else {
      MinimumExists(rest);
      var y :| IsMinimum(y, rest);
      if x.distance < y.distance {
        assert IsMinimum(x, pending);
      } else {
        assert IsMinimum(y, pending);
      }
    }
  }

  /** Distances never decrease along the sequence. */
  ghost predicate SortedByDistance(es: seq<Edge>)
  {
    forall i, j :: 0 <= i < j < |es| ==> es[i].distance <= es[j].distance
  }

  /** The state of the queue part way through polling: polled is sorted, no
      polled edge is farther than a pending one, and every tracker is below n. */
  ghost predicate PolledFirst(polled: seq<Edge>, pending: multiset<Edge>, n: nat)
  {
    && SortedByDistance(polled)
    && (forall p, f :: p in polled && f in pending ==> p.distance <= f.distance)
    && TrackersBelow(multiset(polled), n) && TrackersBelow(pending, n)
  }

  /** Polling a minimum keeps PolledFirst and loses no edge. */
  lemma PollMinimum(polled: seq<Edge>, pending: multiset<Edge>, e: Edge, n: nat)
    requires PolledFirst(polled, pending, n) && IsMinimum(e, pending)
    ensures PolledFirst(polled + [e], pending - multiset{e}, n)
    ensures multiset(polled + [e]) + (pending - multiset{e}) == multiset(polled) + pending
  {
    forall p, f | p in polled + [e] && f in pending - multiset{e} ensures p.distance <= f.distance {
      assert f in pending;
      if p != e { assert p in polled; }
    }
    forall i, j | 0 <= i < j < |polled + [e]| ensures (polled + [e])[i].distance <= (polled + [e])[j].distance {
      if j == |polled| { assert (polled + [e])[i] in polled; }
    }
  }

  /** Once nothing is pending, the polled edges are exactly the edges the
      queue started with; none were polled from an empty queue. */
  lemma Drained(polled: seq<Edge>, pending: multiset<Edge>, queued: multiset<Edge>)
    requires multiset(polled) + pending == queued && pending == multiset{}
    ensures multiset(polled) == queued
    ensures queued == multiset{} ==> polled == []
  {
    assert |multiset(polled)| == |polled|;
  }

  /** No two edges of the sequence share a distance unless they are equal. */
  ghost predicate DistinctDistances(es: seq<Edge>)
  {
    forall i, j :: 0 <= i < |es| && 0 <= j < |es| && es[i].distance == es[j].distance ==> es[i] == es[j]
  }

  /** Dropping the last edge drops one occurrence of it from the multiset. */
  lemma DropLast(s: seq<Edge>)
    requires s != []
    ensures multiset(s[..|s| - 1]) == multiset(s) - multiset{s[|s| - 1]}
  {
    assert s == s[..|s| - 1] + [s[|s| - 1]];
  }

  /** Two sorted orders of the same edges end in edges of the same distance,
      hence in the same edge when distances are distinct. */
  lemma SortedLast(a: seq<Edge>, b: seq<Edge>)
    requires SortedByDistance(a) && SortedByDistance(b) && multiset(a) == multiset(b) && a != []
    ensures |a| == |b| && a[|a| - 1].distance == b[|b| - 1].distance
    ensures DistinctDistances(a) ==> a[|a| - 1] == b[|b| - 1]
  {
    assert |a| == |multiset(a)| == |multiset(b)| == |b|;
    var n := |a|;
    assert a[n - 1] in multiset(b) && b[n - 1] in multiset(a);
    var j :| 0 <= j < n && b[j] == a[n - 1];
    var k :| 0 <= k < n && a[k] == b[n - 1];
  }

  /** Without its last edge a sequence stays sorted, and distinct when it was. */
  lemma DropLastKeepsOrder(a: seq<Edge>)
    requires a != [] && SortedByDistance(a)
    ensures SortedByDistance(a[..|a| - 1])
    ensures DistinctDistances(a) ==> DistinctDistances(a[..|a| - 1])
  {
  }

  /** When no two different queued edges share a distance, the queue hands
      its edges out in exactly one order: two sorted orders of the same edges
      are the same sequence. */
  lemma {:induction false} SortedOrderUnique(a: seq<Edge>, b: seq<Edge>)
    requires SortedByDistance(a) && SortedByDistance(b) && multiset(a) == multiset(b)
    requires DistinctDistances(a)
    ensures a == b
    decreases |a|
  {
    if a != [] {
      SortedLast(a, b);
      DropLast(a);
      DropLast(b);
      DropLastKeepsOrder(a);
      DropLastKeepsOrder(b);
      SortedOrderUnique(a[..|a| - 1], b[..|b| - 1]);
      forall i | 0 <= i < |a| - 1 ensures a[i] == b[i] {
        assert a[i] == a[..|a| - 1][i] && b[i] == b[..|b| - 1][i];
      }
    }
  }

  /** Sum of the distances, taken from the last edge backwards so that adding
      an edge at the end adds its distance. */
  function SumDistances(es: seq<Edge>): (total: int)
  {
    if es == [] then 0 else SumDistances(es[..|es| - 1]) + es[|es| - 1].distance
  }

  /** Both endpoints of every edge carry a tracker below n. */
  ghost predicate TrackersBelow(pending: multiset<Edge>, n: nat)
  {
    forall e :: e in pending ==> e.v.tracker < n && e.w.tracker < n
  }
}
