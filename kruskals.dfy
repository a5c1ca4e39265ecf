/** The class Kruskals: its four fields, the ingestion of CSV rows into the
    registry and the queue (getVerticesEdgePairs), and the selection loop
    (getMinSpanningTree). The queue is the multiset of pending edges; polling
    removes some edge of least distance. */
module MinSpanningTree {
  import opened Edges
  import opened Ingestion
  import opened Partitions
  import opened Selection
  import opened DisjointSets

  class Kruskals {
    var pqByDistance: multiset<Edge>
    var vertexMap: map<string, Vertex>
    var totalDistance: int
    var numVertices: nat

    /** The registry part of the state, as the ingestion functions see it. */
    function Reg(): (reg: Registry)
      reads this
    {
      Registry(vertexMap, numVertices)
    }

    /** Every tracker in the map and in the queue is below numVertices. */
    ghost predicate Valid()
      reads this
    {
      RegistryInRange(Reg()) && TrackersBelow(pqByDistance, numVertices)
    }

    constructor ()
      ensures Valid()
      ensures pqByDistance == multiset{} && vertexMap == map[] && numVertices == 0 && totalDistance == 0
    {
      pqByDistance := multiset{};
      vertexMap := map[];
      totalDistance := 0;
      numVertices := 0;
    }

    /** Reads the rows in order and handles the pairs of each (AddRowPairs).
        An exception ends the run and keeps every change made before it. */
    method GetVerticesEdgePairs(rows: seq<seq<string>>, parseInt: string -> Option<int>) returns (outcome: Outcome)
      requires Valid()
      modifies this
      ensures Valid()
      ensures var r := IngestRows(old(Reg()), rows, parseInt, AsWritten);
        && Reg() == r.reg && outcome == r.outcome
        && pqByDistance == old(pqByDistance) + multiset(r.added)
      ensures totalDistance == old(totalDistance)
    {
      ghost var reg0 := Reg();
      ghost var final := IngestRows(reg0, rows, parseInt, AsWritten);
      ghost var added: seq<Edge> := [];
      var j := 0;
      while j < |rows|
        invariant 0 <= j <= |rows|
        invariant Prepend(added, IngestRows(Reg(), rows[j..], parseInt, AsWritten)) == final
        invariant pqByDistance == old(pqByDistance) + multiset(added)
        invariant totalDistance == old(totalDistance)
      {
        ghost var rowReg := Reg();
        ghost var rowAdded := PairsFrom(rowReg, rows[j], 1, parseInt, AsWritten).added;
        assert rows[j..][0] == rows[j] && rows[j..][1..] == rows[j + 1..];
        outcome := AddRowPairs(rows[j], parseInt);
        if outcome.Threw? {
          assert final == Ingested(Reg(), added + rowAdded, outcome);
          IngestRowsKeepsQueueInRange(reg0, old(pqByDistance), rows, parseInt, AsWritten);
          return;
        }
        PrependTwice(added, rowAdded, IngestRows(Reg(), rows[j + 1..], parseInt, AsWritten));
        added := added + rowAdded;
        j := j + 1;
      }
      outcome := Completed;
      assert rows[j..] == [];
      IngestRowsKeepsQueueInRange(reg0, old(pqByDistance), rows, parseInt, AsWritten);
    }

    /** The body of the row loop: for i = 1, 3, 5, ... while i is a field of
        the row, resolve the first city and the neighbour in field i, parse the
        distance in field i + 1 and queue the edge between them. */
    method AddRowPairs(row: seq<string>, parseInt: string -> Option<int>) returns (outcome: Outcome)
      modifies this
      ensures var r := PairsFrom(old(Reg()), row, 1, parseInt, AsWritten);
        && Reg() == r.reg && outcome == r.outcome
        && pqByDistance == old(pqByDistance) + multiset(r.added)
      ensures totalDistance == old(totalDistance)
    {
      ghost var rowRun := PairsFrom(Reg(), row, 1, parseInt, AsWritten);
      ghost var rowAdded: seq<Edge> := [];
      var i := 1;
      while i < |row|
        invariant 1 <= i
        invariant Prepend(rowAdded, PairsFrom(Reg(), row, i, parseInt, AsWritten)) == rowRun
        invariant pqByDistance == old(pqByDistance) + multiset(rowAdded)
        invariant totalDistance == old(totalDistance)
        decreases |row| - i
      {
        ghost var before := Reg();
        var v := FirstCityVertex(row[0]);
        ghost var middle := Reg();
        var w := SecondCityVertex(row[i], v);
        PairsFromStep(before, row, i, parseInt, AsWritten, v, middle, w, Reg());
        if i + 1 >= |row| {
          outcome := Threw(IndexOutOfBounds(i + 1));
          assert rowRun == Ingested(Reg(), rowAdded, outcome);
          return;
        }
        var distance := parseInt(row[i + 1]);
        if distance.None? {
          outcome := Threw(NumberFormat(row[i + 1]));
          assert rowRun == Ingested(Reg(), rowAdded, outcome);
          return;
        }
        var e := Edge(v, w, distance.value);
        pqByDistance := pqByDistance + multiset{e};
        ghost var rest := PairsFrom(Reg(), row, i + 2, parseInt, AsWritten);
        PrependTwice(rowAdded, [e], rest);
        rowAdded := rowAdded + [e];
        i := i + 2;
      }
      outcome := Completed;
    }

    /** The first city of a row: the registered vertex, or a new one with the
        next tracker, registered under the name. */
    method FirstCityVertex(name: string) returns (v: Vertex)
      modifies this
      ensures (v, Reg()) == ResolveFirst(old(Reg()), name)
      ensures pqByDistance == old(pqByDistance) && totalDistance == old(totalDistance)
    {
      if name in vertexMap {
        v := vertexMap[name];
      } else {
        v := Vertex(name, numVertices);
        numVertices := numVertices + 1;
        vertexMap := vertexMap[name := v];
      }
    }

    /** The neighbour: the registered vertex, or a new one with the next
        tracker; the name is then registered with the first city's vertex v,
        as the source does, and not with the new vertex. */
    method SecondCityVertex(name: string, v: Vertex) returns (w: Vertex)
      modifies this
      ensures (w, Reg()) == ResolveSecond(old(Reg()), v, name, AsWritten)
      ensures pqByDistance == old(pqByDistance) && totalDistance == old(totalDistance)
    {
      if name in vertexMap {
        w := vertexMap[name];
      } else {
        w := Vertex(name, numVertices);
        numVertices := numVertices + 1;
        vertexMap := vertexMap[name := v];
      }
    }

    /** main without its printing: build a Kruskals, ingest the rows and, when
        ingestion completes, compute the spanning tree. An exception from the
        ingestion ends the program before any total is computed. */
    static method RunProgram(rows: seq<seq<string>>, parseInt: string -> Option<int>)
      returns (outcome: Outcome, total: Option<int>, accepted: seq<Edge>, ghost polled: seq<Edge>)
      ensures outcome == IngestRows(Registry(map[], 0), rows, parseInt, AsWritten).outcome
      ensures outcome.Threw? ==> total == None && accepted == []
      ensures outcome.Completed? ==>
        && total == Some(SumDistances(accepted)) && SortedByDistance(accepted)
        && forall e :: e in accepted ==> e in IngestRows(Registry(map[], 0), rows, parseInt, AsWritten).added
      ensures var r := IngestRows(Registry(map[], 0), rows, parseInt, AsWritten);
        outcome.Completed? ==>
          && multiset(polled) == multiset(r.added) && SortedByDistance(polled)
          && TrackersBelow(multiset(polled), r.reg.numVertices)
          && accepted == Select(Singletons(r.reg.numVertices), polled).accepted
    {
      ghost var r := IngestRows(Registry(map[], 0), rows, parseInt, AsWritten);
      var minSpanningTree := new Kruskals();
      outcome := minSpanningTree.GetVerticesEdgePairs(rows, parseInt);
      if outcome.Threw? {
        return outcome, None, [], [];
      }
      assert minSpanningTree.pqByDistance == multiset(r.added);
      ghost var n := minSpanningTree.numVertices;
      assert n == r.reg.numVertices;
      var t;
      t, accepted, polled := minSpanningTree.GetMinSpanningTree();
      total := Some(t);
      AcceptedFromQueue(n, polled, r.added);
      assert outcome == r.outcome && multiset(polled) == multiset(r.added) && SortedByDistance(polled);
      assert accepted == Select(Singletons(r.reg.numVertices), polled).accepted && t == SumDistances(accepted);
    }

    /** The accepted edges of a sorted poll order are sorted and were queued. */
    static lemma AcceptedFromQueue(n: nat, polled: seq<Edge>, queued: seq<Edge>)
      requires TrackersBelow(multiset(polled), n) && SortedByDistance(polled)
      requires multiset(polled) == multiset(queued)
      ensures var accepted := Select(Singletons(n), polled).accepted;
        SortedByDistance(accepted) && forall e :: e in accepted ==> e in queued
    {
      SelectKeepsOrder(Singletons(n), polled);
      forall e | e in Select(Singletons(n), polled).accepted ensures e in queued {
        assert e in multiset(polled);
      }
    }

    /** Polls every queued edge, least distance first; an edge whose two
        trackers are in different sets is accepted, its sets are joined and
        its distance is added to totalDistance. accepted lists the accepted
        edges in order; polled is the order the edges left the queue. */
    method GetMinSpanningTree() returns (total: int, accepted: seq<Edge>, ghost polled: seq<Edge>)
      requires Valid()
      modifies this
      ensures Valid()
      ensures pqByDistance == multiset{}
      ensures vertexMap == old(vertexMap) && numVertices == old(numVertices)
      ensures multiset(polled) == old(pqByDistance) && SortedByDistance(polled)
      ensures TrackersBelow(multiset(polled), numVertices)
      ensures accepted == Select(Singletons(numVertices), polled).accepted
      ensures total == totalDistance == old(totalDistance) + SumDistances(accepted)
      ensures old(pqByDistance) == multiset{} ==> accepted == [] && total == old(totalDistance)
    {
      var ds := new DisjSets(numVertices);
      ghost var n := numVertices;
      ghost var start := Singletons(n);
      accepted, polled := [], [];
      while pqByDistance != multiset{}
        invariant fresh(ds.parent)
        invariant ds.Valid() && |ds.rep| == n
        invariant vertexMap == old(vertexMap) && numVertices == n
        invariant multiset(polled) + pqByDistance == old(pqByDistance)
        invariant PolledFirst(polled, pqByDistance, n)
        invariant Select(start, polled) == Run(ds.rep, accepted)
        invariant totalDistance == old(totalDistance) + SumDistances(accepted)
        decreases |pqByDistance|
      {
        var e, joined := NextEdge(ds, start, polled, accepted);
        polled := polled + [e];
        if joined {
          assert (accepted + [e])[..|accepted|] == accepted;
          accepted := accepted + [e];
        }
      }
      Drained(polled, pqByDistance, old(pqByDistance));
      total := totalDistance;
    }

    /** totalDistance is a field that is never reset and the first call drains
        the queue, so calling getMinSpanningTree again accepts nothing and
        returns the same total. */
    method CallTwice() returns (first: int, second: int, acceptedAgain: seq<Edge>)
      requires Valid()
      modifies this
      ensures second == first && acceptedAgain == []
      ensures pqByDistance == multiset{}
    {
      ghost var polled;
      var accepted;
      first, accepted, polled := GetMinSpanningTree();
      second, acceptedAgain, polled := GetMinSpanningTree();
    }

    /** One iteration of the loop: poll an edge of least distance and consider
        it against the disjoint sets. */
    method NextEdge(ds: DisjSets, ghost start: seq<nat>, ghost polled: seq<Edge>, ghost accepted: seq<Edge>)
      returns (e: Edge, joined: bool)
      requires pqByDistance != multiset{} && IsPartition(start)
      requires ds.Valid() && |ds.rep| == |start|
      requires PolledFirst(polled, pqByDistance, |start|)
      requires Select(start, polled) == Run(ds.rep, accepted)
      modifies this, ds, ds.parent
      ensures ds.Valid() && ds.parent == old(ds.parent) && |ds.rep| == |start|
      ensures PolledFirst(polled + [e], pqByDistance, |start|)
      ensures multiset(polled + [e]) + pqByDistance == multiset(polled) + old(pqByDistance)
      ensures Select(start, polled + [e]) == Run(ds.rep, if joined then accepted + [e] else accepted)
      ensures totalDistance == old(totalDistance) + (if joined then e.distance else 0)
      ensures vertexMap == old(vertexMap) && numVertices == old(numVertices)
    {
      e := Poll(polled, |start|);
      joined := ConsiderEdge(ds, e, start, polled, accepted);
    }

    /** pqByDistance.poll(): removes and returns some edge of least distance,
        so the edges polled so far stay in order and ahead of the rest. */
    method Poll(ghost polled: seq<Edge>, ghost n: nat) returns (e: Edge)
      requires pqByDistance != multiset{} && PolledFirst(polled, pqByDistance, n)
      modifies this
      ensures IsMinimum(e, old(pqByDistance)) && pqByDistance == old(pqByDistance) - multiset{e}
      ensures PolledFirst(polled + [e], pqByDistance, n)
      ensures multiset(polled + [e]) + pqByDistance == multiset(polled) + old(pqByDistance)
      ensures vertexMap == old(vertexMap) && numVertices == old(numVertices) && totalDistance == old(totalDistance)
    {
      MinimumExists(pqByDistance);
      e :| IsMinimum(e, pqByDistance);
      PollMinimum(polled, pqByDistance, e, n);
      pqByDistance := pqByDistance - multiset{e};
    }

    /** One polled edge e, after the edges polled before it: find the sets of
        its two trackers and, when they differ, join them and add the distance
        to totalDistance; this is one step of Select. */
    method ConsiderEdge(ds: DisjSets, e: Edge, ghost start: seq<nat>, ghost polled: seq<Edge>, ghost accepted: seq<Edge>)
      returns (joined: bool)
      requires IsPartition(start) && TrackersBelow(multiset(polled + [e]), |start|)
      requires ds.Valid() && |ds.rep| == |start|
      requires TrackersBelow(multiset(polled), |start|) && Select(start, polled) == Run(ds.rep, accepted)
      modifies this, ds, ds.parent
      ensures ds.Valid() && ds.parent == old(ds.parent) && |ds.rep| == |start|
      ensures Select(start, polled + [e]) == Run(ds.rep, if joined then accepted + [e] else accepted)
      ensures totalDistance == old(totalDistance) + (if joined then e.distance else 0)
      ensures pqByDistance == old(pqByDistance) && vertexMap == old(vertexMap) && numVertices == old(numVertices)
    {
      SelectSnoc(start, polled, e);
      var vSet := ds.Find(e.v.tracker);
      var wSet := ds.Find(e.w.tracker);
      joined := vSet != wSet;
      if joined {
        ds.Union(vSet, wSet);
        totalDistance := totalDistance + e.distance;
      }
    }
  }
}
