/** The vertex registry and edge building of Kruskals.getVerticesEdgePairs, as
    pure functions over one registry value. Each CSV row is already split into
    its fields: a city, then pairs (neighbour, distance). Reading the file and
    splitting lines are not part of this model; Integer.parseInt is the
    parameter parseInt. The class Kruskals (kruskals.dfy) runs the same steps
    in place and is specified by these functions. */
module Ingestion {
  import opened Edges

  datatype Option<T> = None | Some(value: T)

  /** The exceptions the row loop can raise: reading field i + 1 past the end
      of the row, and a distance field that is not an integer. */
  datatype Exception = IndexOutOfBounds(index: nat) | NumberFormat(text: string)

  datatype Outcome = Completed | Threw(exception: Exception)

  /** What is stored under a neighbour name seen for the first time: the
      source stores the row's first vertex v (AsWritten); its comment asks for
      the newly made vertex w (Intended). */
  datatype SecondCity = AsWritten | Intended

  /** The fields vertexMap and numVertices. */
  datatype Registry = Registry(vertexMap: map<string, Vertex>, numVertices: nat)

  /** The registry after some rows, the edges added to the queue in the order
      they were added, and whether an exception ended the run. */
  datatype Ingested = Ingested(reg: Registry, added: seq<Edge>, outcome: Outcome)

  /** Every registered vertex has a tracker below the vertex count. */
  ghost predicate RegistryInRange(reg: Registry)
  {
    forall k :: k in reg.vertexMap ==> reg.vertexMap[k].tracker < reg.numVertices
  }

  /** reg2 keeps every entry of reg1 and has at least as many vertices. */
  ghost predicate Grows(reg1: Registry, reg2: Registry)
  {
    && reg1.numVertices <= reg2.numVertices
    && forall k :: k in reg1.vertexMap ==> k in reg2.vertexMap && reg2.vertexMap[k] == reg1.vertexMap[k]
  }

  /** What the comment at src/Kruskals.java:164-166 asks for: each name is
      registered with a vertex of that name, and distinct names have distinct
      trackers. */
  ghost predicate NamesConsistent(reg: Registry)
  {
    && (forall k :: k in reg.vertexMap ==> reg.vertexMap[k].val == k)
    && (forall k1, k2 :: k1 in reg.vertexMap && k2 in reg.vertexMap && k1 != k2 ==>
          reg.vertexMap[k1].tracker != reg.vertexMap[k2].tracker)
  }

  /** Every endpoint of every edge is the vertex registered under its name. */
  ghost predicate EdgesRegistered(es: seq<Edge>, reg: Registry)
  {
    forall e :: e in es ==>
      && e.v.val in reg.vertexMap && reg.vertexMap[e.v.val] == e.v
      && e.w.val in reg.vertexMap && reg.vertexMap[e.w.val] == e.w
  }

  /** Looking up the row's first city: reuse the registered vertex, or make one
      with the next tracker and register it under the name. */
  function ResolveFirst(reg: Registry, name: string): (r: (Vertex, Registry))
    ensures name in r.1.vertexMap && r.1.vertexMap[name] == r.0
    ensures name in reg.vertexMap ==> r.1 == reg && r.0 == reg.vertexMap[name]
    ensures name !in reg.vertexMap ==>
      && r.0.val == name && r.0.tracker == reg.numVertices
      && r.1.numVertices == reg.numVertices + 1
      && r.1.vertexMap.Keys == reg.vertexMap.Keys + {name}
    ensures Grows(reg, r.1)
  {
    if name in reg.vertexMap then (reg.vertexMap[name], reg)
    else
      var v := Vertex(name, reg.numVertices);
      (v, Registry(reg.vertexMap[name := v], reg.numVertices + 1))
  }

  /** Looking up the neighbour: reuse the registered vertex, or make one with
      the next tracker; under AsWritten the name is then registered with the
      first city's vertex v, not with the new one. */
  function ResolveSecond(reg: Registry, v: Vertex, name: string, policy: SecondCity): (r: (Vertex, Registry))
    ensures name in reg.vertexMap ==> r.1 == reg && r.0 == reg.vertexMap[name]
    ensures name !in reg.vertexMap ==>
      && r.0.val == name && r.0.tracker == reg.numVertices
      && r.1.numVertices == reg.numVertices + 1
      && r.1.vertexMap.Keys == reg.vertexMap.Keys + {name}
      && r.1.vertexMap[name] == (if policy == AsWritten then v else r.0)
    ensures Grows(reg, r.1)
  {
    if name in reg.vertexMap then (reg.vertexMap[name], reg)
    else
      var w := Vertex(name, reg.numVertices);
      (w, Registry(reg.vertexMap[name := if policy == AsWritten then v else w], reg.numVertices + 1))
  }

  /** Under the intended policy the neighbour is looked up exactly as the
      first city is. */
  lemma IntendedSecondIsFirstLookup(reg: Registry, v: Vertex, name: string)
    ensures ResolveSecond(reg, v, name, Intended) == ResolveFirst(reg, name)
  {
  }

  function Prepend(pre: seq<Edge>, r: Ingested): (longer: Ingested)
  {
    r.(added := pre + r.added)
  }

  /** The inner loop of one row from field i on (i = 1, 3, 5, ...): resolve
      both cities, then read the distance in field i + 1 and queue the edge. */
  function PairsFrom(reg: Registry, row: seq<string>, i: nat, parseInt: string -> Option<int>, policy: SecondCity): (r: Ingested)
    decreases |row| - i
  {
    if i >= |row| then Ingested(reg, [], Completed)
    else
      var first := ResolveFirst(reg, row[0]);
      var v, reg1 := first.0, first.1;
      var second := ResolveSecond(reg1, v, row[i], policy);
      var w, reg2 := second.0, second.1;
      if i + 1 >= |row| then Ingested(reg2, [], Threw(IndexOutOfBounds(i + 1)))
      else match parseInt(row[i + 1])
        case None => Ingested(reg2, [], Threw(NumberFormat(row[i + 1])))
        case Some(d) => Prepend([Edge(v, w, d)], PairsFrom(reg2, row, i + 2, parseInt, policy))
  }

  /** The outer loop over the rows; an exception ends it, keeping what the
      rows before it (and the failing row up to the failure) did. */
  function IngestRows(reg: Registry, rows: seq<seq<string>>, parseInt: string -> Option<int>, policy: SecondCity): (r: Ingested)
    decreases |rows|
  {
    if rows == [] then Ingested(reg, [], Completed)
    else
      var row := PairsFrom(reg, rows[0], 1, parseInt, policy);
      if row.outcome.Threw? then row
      else Prepend(row.added, IngestRows(row.reg, rows[1..], parseInt, policy))
  }

  /** One row keeps every tracker below the vertex count and only adds
      registry entries. */
  lemma {:induction false} PairsFromInRange(reg: Registry, row: seq<string>, i: nat, parseInt: string -> Option<int>, policy: SecondCity)
    requires RegistryInRange(reg)
    ensures var r := PairsFrom(reg, row, i, parseInt, policy);
      && Grows(reg, r.reg) && RegistryInRange(r.reg)
      && TrackersBelow(multiset(r.added), r.reg.numVertices)
    decreases |row| - i
  {
    if i < |row| {
      var first := ResolveFirst(reg, row[0]);
      var v, reg1 := first.0, first.1;
      var second := ResolveSecond(reg1, v, row[i], policy);
      var w, reg2 := second.0, second.1;
      assert RegistryInRange(reg1);
      assert RegistryInRange(reg2);
      GrowsTransitive(reg, reg1, reg2);
      if i + 1 < |row| && parseInt(row[i + 1]).Some? {
        var e := Edge(v, w, parseInt(row[i + 1]).value);
        PairsFromInRange(reg2, row, i + 2, parseInt, policy);
        var rest := PairsFrom(reg2, row, i + 2, parseInt, policy);
        GrowsTransitive(reg, reg2, rest.reg);
        assert PairsFrom(reg, row, i, parseInt, policy) == Prepend([e], rest);
        assert e.v.tracker < rest.reg.numVertices && e.w.tracker < rest.reg.numVertices;
        assert multiset([e] + rest.added) == multiset{e} + multiset(rest.added);
      }
    }
  }

  lemma GrowsTransitive(reg1: Registry, reg2: Registry, reg3: Registry)
    requires Grows(reg1, reg2) && Grows(reg2, reg3)
    ensures Grows(reg1, reg3)
  {
  }

  /** Ingesting rows keeps every tracker of the registry and of every queued
      edge in [0, numVertices), and only adds registry entries. */
  lemma {:induction false} IngestRowsInRange(reg: Registry, rows: seq<seq<string>>, parseInt: string -> Option<int>, policy: SecondCity)
    requires RegistryInRange(reg)
    ensures var r := IngestRows(reg, rows, parseInt, policy);
      && Grows(reg, r.reg) && RegistryInRange(r.reg)
      && TrackersBelow(multiset(r.added), r.reg.numVertices)
    decreases |rows|
  {
    if rows != [] {
      PairsFromInRange(reg, rows[0], 1, parseInt, policy);
      var r := PairsFrom(reg, rows[0], 1, parseInt, policy);
      if r.outcome.Completed? {
        IngestRowsInRange(r.reg, rows[1..], parseInt, policy);
      }
    }
  }

  /** The edges already queued stay in range while rows are ingested. */
  lemma IngestRowsKeepsQueueInRange(reg: Registry, pending: multiset<Edge>, rows: seq<seq<string>>, parseInt: string -> Option<int>, policy: SecondCity)
    requires RegistryInRange(reg) && TrackersBelow(pending, reg.numVertices)
    ensures var r := IngestRows(reg, rows, parseInt, policy);
      RegistryInRange(r.reg) && TrackersBelow(pending + multiset(r.added), r.reg.numVertices)
  {
    IngestRowsInRange(reg, rows, parseInt, policy);
  }

  /** One step of the inner loop, with the two resolved cities named. */
  lemma PairsFromStep(reg: Registry, row: seq<string>, i: nat, parseInt: string -> Option<int>, policy: SecondCity,
                      v: Vertex, reg1: Registry, w: Vertex, reg2: Registry)
    requires i < |row|
    requires ResolveFirst(reg, row[0]) == (v, reg1) && ResolveSecond(reg1, v, row[i], policy) == (w, reg2)
    ensures i + 1 >= |row| ==> PairsFrom(reg, row, i, parseInt, policy) == Ingested(reg2, [], Threw(IndexOutOfBounds(i + 1)))
    ensures i + 1 < |row| && parseInt(row[i + 1]).None? ==>
      PairsFrom(reg, row, i, parseInt, policy) == Ingested(reg2, [], Threw(NumberFormat(row[i + 1])))
    ensures i + 1 < |row| && parseInt(row[i + 1]).Some? ==>
      PairsFrom(reg, row, i, parseInt, policy) == Prepend([Edge(v, w, parseInt(row[i + 1]).value)], PairsFrom(reg2, row, i + 2, parseInt, policy))
  {
  }

  /** Prepending twice is prepending the concatenation. */
  lemma PrependTwice(pre1: seq<Edge>, pre2: seq<Edge>, r: Ingested)
    ensures Prepend(pre1, Prepend(pre2, r)) == Prepend(pre1 + pre2, r)
  {
    assert pre1 + (pre2 + r.added) == (pre1 + pre2) + r.added;
  }

  /** A row of odd length whose distance fields all parse completes, and adds
      exactly one edge per pair: the k-th added edge leaves the row's first
      city and has the distance parsed from field i + 1 + 2k. */
  lemma {:induction false} OddRowEdges(reg: Registry, row: seq<string>, i: nat, parseInt: string -> Option<int>, policy: SecondCity)
    requires 1 <= i && i % 2 == 1 && |row| % 2 == 1
    requires forall j :: i < j < |row| && j % 2 == 0 ==> parseInt(row[j]).Some?
    ensures var r := PairsFrom(reg, row, i, parseInt, policy);
      && r.outcome == Completed
      && |r.added| == (if i < |row| then (|row| - i) / 2 else 0)
      && forall k :: 0 <= k < |r.added| ==>
           && r.added[k].v == ResolveFirst(reg, row[0]).0
           && parseInt(row[i + 1 + 2 * k]) == Some(r.added[k].distance)
    decreases |row| - i
  {
    if i < |row| {
      var first := ResolveFirst(reg, row[0]);
      var v, reg1 := first.0, first.1;
      var second := ResolveSecond(reg1, v, row[i], policy);
      var w, reg2 := second.0, second.1;
      assert i + 1 < |row|;
      var d := parseInt(row[i + 1]).value;
      OddRowEdges(reg2, row, i + 2, parseInt, policy);
      var rest := PairsFrom(reg2, row, i + 2, parseInt, policy);
      assert ResolveFirst(reg2, row[0]).0 == v;
      var r := PairsFrom(reg, row, i, parseInt, policy);
      assert r.added == [Edge(v, w, d)] + rest.added;
      forall k | 0 <= k < |r.added|
        ensures r.added[k].v == v && parseInt(row[i + 1 + 2 * k]) == Some(r.added[k].distance)
      {
        if k > 0 {
          assert r.added[k] == rest.added[k - 1];
          assert i + 2 + 1 + 2 * (k - 1) == i + 1 + 2 * k;
        }
      }
    }
  }

  /** A row of even length (at least two fields) always ends in an exception:
      if every distance it reaches parses, the last pair reads past the end. */
  lemma {:induction false} EvenRowThrows(reg: Registry, row: seq<string>, i: nat, parseInt: string -> Option<int>, policy: SecondCity)
    requires i % 2 == 1 && i < |row| && |row| % 2 == 0
    ensures var r := PairsFrom(reg, row, i, parseInt, policy);
      && r.outcome.Threw?
      && (r.outcome.exception.IndexOutOfBounds? ==> r.outcome.exception.index == |row|)
    decreases |row| - i
  {
    var first := ResolveFirst(reg, row[0]);
    var v, reg1 := first.0, first.1;
    var second := ResolveSecond(reg1, v, row[i], policy);
    var w, reg2 := second.0, second.1;
    if i + 1 < |row| && parseInt(row[i + 1]).Some? {
      EvenRowThrows(reg2, row, i + 2, parseInt, policy);
    }
  }

  /** Under the intended policy one pair keeps names consistent, and both
      cities it resolves are the vertices registered under their names. */
  lemma IntendedPairStep(reg: Registry, first: string, second: string)
    requires RegistryInRange(reg) && NamesConsistent(reg)
    ensures var (v, reg1) := ResolveFirst(reg, first);
      var (w, reg2) := ResolveSecond(reg1, v, second, Intended);
      && RegistryInRange(reg2) && NamesConsistent(reg2) && Grows(reg, reg2)
      && v.val == first && first in reg2.vertexMap && reg2.vertexMap[first] == v
      && w.val == second && second in reg2.vertexMap && reg2.vertexMap[second] == w
  {
    var (v, reg1) := ResolveFirst(reg, first);
    assert RegistryInRange(reg1) && NamesConsistent(reg1);
    var (w, reg2) := ResolveSecond(reg1, v, second, Intended);
    assert RegistryInRange(reg2) && NamesConsistent(reg2);
    GrowsTransitive(reg, reg1, reg2);
  }

  /** Edges registered in one registry stay registered in a grown one. */
  lemma EdgesRegisteredGrow(es: seq<Edge>, reg1: Registry, reg2: Registry)
    requires EdgesRegistered(es, reg1) && Grows(reg1, reg2)
    ensures EdgesRegistered(es, reg2)
  {
  }

  /** Under the intended policy one row keeps names consistent and queues only
      edges between registered vertices. */
  lemma {:induction false} IntendedPairsConsistent(reg: Registry, row: seq<string>, i: nat, parseInt: string -> Option<int>)
    requires RegistryInRange(reg) && NamesConsistent(reg)
    ensures var r := PairsFrom(reg, row, i, parseInt, Intended);
      NamesConsistent(r.reg) && EdgesRegistered(r.added, r.reg)
    decreases |row| - i
  {
    if i < |row| {
      IntendedPairStep(reg, row[0], row[i]);
      var first := ResolveFirst(reg, row[0]);
      var v, reg1 := first.0, first.1;
      var second := ResolveSecond(reg1, v, row[i], Intended);
      var w, reg2 := second.0, second.1;
      if i + 1 < |row| && parseInt(row[i + 1]).Some? {
        var e := Edge(v, w, parseInt(row[i + 1]).value);
        IntendedPairsConsistent(reg2, row, i + 2, parseInt);
        PairsFromInRange(reg2, row, i + 2, parseInt, Intended);
        var rest := PairsFrom(reg2, row, i + 2, parseInt, Intended);
        assert EdgesRegistered([e], reg2);
        EdgesRegisteredGrow([e], reg2, rest.reg);
        assert PairsFrom(reg, row, i, parseInt, Intended).added == [e] + rest.added;
      }
    }
  }

  /** Under the intended policy every name keeps one vertex: registered names
      stay consistent, and every queued edge joins the vertices registered
      under its two names, so duplicate names resolve to one tracker. */
  lemma {:induction false} IntendedRowsConsistent(reg: Registry, rows: seq<seq<string>>, parseInt: string -> Option<int>)
    requires RegistryInRange(reg) && NamesConsistent(reg)
    ensures var r := IngestRows(reg, rows, parseInt, Intended);
      NamesConsistent(r.reg) && EdgesRegistered(r.added, r.reg)
    decreases |rows|
  {
    if rows != [] {
      IntendedPairsConsistent(reg, rows[0], 1, parseInt);
      PairsFromInRange(reg, rows[0], 1, parseInt, Intended);
      var r := PairsFrom(reg, rows[0], 1, parseInt, Intended);
      if r.outcome.Completed? {
        IntendedRowsConsistent(r.reg, rows[1..], parseInt);
        IngestRowsInRange(r.reg, rows[1..], parseInt, Intended);
      }
    }
  }

  /** The vertices the edges of es join. */
  function Endpoints(es: seq<Edge>): (vs: set<Vertex>)
    ensures forall e :: e in es ==> e.v in vs && e.w in vs
    ensures forall u :: u in vs ==> exists e :: e in es && (u == e.v || u == e.w)
  {
    (set e | e in es :: e.v) + (set e | e in es :: e.w)
  }

  /** Every vertex of vs has a tracker below n, and no two of them share one:
      a tracker names exactly one vertex. */
  ghost predicate TrackersIdentify(vs: set<Vertex>, n: nat)
  {
    && (forall u :: u in vs ==> u.tracker < n)
    && (forall u1, u2 :: u1 in vs && u2 in vs && u1.tracker == u2.tracker ==> u1 == u2)
  }

  /** Looking up the first city keeps trackers identifying vertices, among
      the registered vertices, the ones seen before and the vertex returned. */
  lemma ResolveFirstIdentifies(reg: Registry, seen: set<Vertex>, name: string)
    requires TrackersIdentify(seen + reg.vertexMap.Values, reg.numVertices)
    ensures var (v, reg1) := ResolveFirst(reg, name);
      TrackersIdentify(seen + {v} + reg1.vertexMap.Values, reg1.numVertices)
  {
    if name !in reg.vertexMap {
      var (v, reg1) := ResolveFirst(reg, name);
      forall u | u in reg1.vertexMap.Values ensures u in reg.vertexMap.Values || u == v {
        var k :| k in reg1.vertexMap && reg1.vertexMap[k] == u;
        if k != name {
          assert reg.vertexMap[k] == u;
        }
      }
    } else {
      assert reg.vertexMap[name] in reg.vertexMap.Values;
    }
  }

  /** Looking up the neighbour keeps trackers identifying vertices, under
      either policy: as written the name is registered with v, which was seen
      already. */
  lemma ResolveSecondIdentifies(reg: Registry, seen: set<Vertex>, v: Vertex, name: string, policy: SecondCity)
    requires v in seen && TrackersIdentify(seen + reg.vertexMap.Values, reg.numVertices)
    ensures var (w, reg2) := ResolveSecond(reg, v, name, policy);
      TrackersIdentify(seen + {w} + reg2.vertexMap.Values, reg2.numVertices)
  {
    if name !in reg.vertexMap {
      var (w, reg2) := ResolveSecond(reg, v, name, policy);
      forall u | u in reg2.vertexMap.Values ensures u in reg.vertexMap.Values || u == v || u == w {
        var k :| k in reg2.vertexMap && reg2.vertexMap[k] == u;
        if k != name {
          assert reg.vertexMap[k] == u;
        }
      }
    } else {
      assert reg.vertexMap[name] in reg.vertexMap.Values;
    }
  }

  /** Fewer vertices and a larger bound keep trackers identifying vertices. */
  lemma IdentifySubset(vs: set<Vertex>, us: set<Vertex>, n: nat, m: nat)
    requires TrackersIdentify(vs, n) && us <= vs && n <= m
    ensures TrackersIdentify(us, m)
  {
  }

  /** The endpoints of two batches of edges are the endpoints of each. */
  lemma EndpointsConcat(a: seq<Edge>, b: seq<Edge>)
    ensures Endpoints(a + b) == Endpoints(a) + Endpoints(b)
  {
    var ab := a + b;
    forall u | u in Endpoints(ab) ensures u in Endpoints(a) + Endpoints(b) {
      var e :| e in ab && (u == e.v || u == e.w);
      assert e in a || e in b;
    }
  }

  /** One pair keeps trackers identifying vertices, with both cities it
      resolves counted as seen. */
  lemma PairIdentifies(reg: Registry, seen: set<Vertex>, first: string, second: string, policy: SecondCity)
    requires TrackersIdentify(seen + reg.vertexMap.Values, reg.numVertices)
    ensures var (v, reg1) := ResolveFirst(reg, first);
      var (w, reg2) := ResolveSecond(reg1, v, second, policy);
      TrackersIdentify(seen + {v} + {w} + reg2.vertexMap.Values, reg2.numVertices)
  {
    var (v, reg1) := ResolveFirst(reg, first);
    ResolveFirstIdentifies(reg, seen, first);
    ResolveSecondIdentifies(reg1, seen + {v}, v, second, policy);
  }

  /** One edge has its two endpoints. */
  lemma EndpointsOne(e: Edge)
    ensures Endpoints([e]) == {e.v, e.w}
  {
    forall u | u in Endpoints([e]) ensures u == e.v || u == e.w {
      var f :| f in [e] && (u == f.v || u == f.w);
      assert f == e;
    }
  }

  /** Queuing an edge between two seen vertices keeps trackers identifying
      vertices. */
  lemma QueuedEdgeIdentifies(seen: set<Vertex>, e: Edge, values: set<Vertex>, added: seq<Edge>, n: nat)
    requires TrackersIdentify(seen + {e.v} + {e.w} + values + Endpoints(added), n)
    ensures TrackersIdentify(seen + values + Endpoints([e] + added), n)
  {
    EndpointsConcat([e], added);
    EndpointsOne(e);
    IdentifySubset(seen + {e.v} + {e.w} + values + Endpoints(added), seen + values + Endpoints([e] + added), n, n);
  }

  /** One row keeps trackers identifying vertices, over the registry and the
      endpoints of the edges it queues. */
  lemma {:induction false} PairsFromIdentifies(reg: Registry, seen: set<Vertex>, row: seq<string>, i: nat,
                                               parseInt: string -> Option<int>, policy: SecondCity)
    requires TrackersIdentify(seen + reg.vertexMap.Values, reg.numVertices)
    ensures var r := PairsFrom(reg, row, i, parseInt, policy);
      TrackersIdentify(seen + r.reg.vertexMap.Values + Endpoints(r.added), r.reg.numVertices)
    decreases |row| - i
  {
    if i >= |row| {
      assert Endpoints([]) == {};
    } else {
      var first := ResolveFirst(reg, row[0]);
      var v, reg1 := first.0, first.1;
      var second := ResolveSecond(reg1, v, row[i], policy);
      var w, reg2 := second.0, second.1;
      PairIdentifies(reg, seen, row[0], row[i], policy);
      PairsFromStep(reg, row, i, parseInt, policy, v, reg1, w, reg2);
      var seen2 := seen + {v} + {w};
      if i + 1 < |row| && parseInt(row[i + 1]).Some? {
        var e := Edge(v, w, parseInt(row[i + 1]).value);
        PairsFromIdentifies(reg2, seen2, row, i + 2, parseInt, policy);
        var rest := PairsFrom(reg2, row, i + 2, parseInt, policy);
        QueuedEdgeIdentifies(seen, e, rest.reg.vertexMap.Values, rest.added, rest.reg.numVertices);
      } else {
        assert Endpoints([]) == {};
        IdentifySubset(seen2 + reg2.vertexMap.Values, seen + reg2.vertexMap.Values, reg2.numVertices, reg2.numVertices);
      }
    }
  }

  /** Reading rows keeps trackers identifying vertices. */
  lemma {:induction false} IngestRowsIdentify(reg: Registry, seen: set<Vertex>, rows: seq<seq<string>>,
                                              parseInt: string -> Option<int>, policy: SecondCity)
    requires TrackersIdentify(seen + reg.vertexMap.Values, reg.numVertices)
    ensures var r := IngestRows(reg, rows, parseInt, policy);
      TrackersIdentify(seen + r.reg.vertexMap.Values + Endpoints(r.added), r.reg.numVertices)
    decreases |rows|
  {
    var r := IngestRows(reg, rows, parseInt, policy);
    if rows == [] {
      assert r == Ingested(reg, [], Completed);
      IdentifySubset(seen + reg.vertexMap.Values, seen + r.reg.vertexMap.Values + Endpoints(r.added), reg.numVertices, reg.numVertices);
    } else {
      PairsFromIdentifies(reg, seen, rows[0], 1, parseInt, policy);
      var row := PairsFrom(reg, rows[0], 1, parseInt, policy);
      if row.outcome.Completed? {
        var seen1 := seen + Endpoints(row.added);
        IdentifySubset(seen + row.reg.vertexMap.Values + Endpoints(row.added), seen1 + row.reg.vertexMap.Values,
          row.reg.numVertices, row.reg.numVertices);
        IngestRowsIdentify(row.reg, seen1, rows[1..], parseInt, policy);
        var rest := IngestRows(row.reg, rows[1..], parseInt, policy);
        assert r == Prepend(row.added, rest);
        EndpointsConcat(row.added, rest.added);
        IdentifySubset(seen1 + rest.reg.vertexMap.Values + Endpoints(rest.added),
          seen + r.reg.vertexMap.Values + Endpoints(r.added), rest.reg.numVertices, rest.reg.numVertices);
      }
    }
  }

  /** Every vertex created while reading rows, as written or corrected, has a
      tracker below numVertices, and two vertices in the registry or on a
      queued edge that share a tracker are the same vertex: the disjoint sets,
      indexed by tracker, see one element per vertex. */
  lemma TrackersIdentifyVertices(rows: seq<seq<string>>, parseInt: string -> Option<int>, policy: SecondCity)
    ensures var r := IngestRows(Registry(map[], 0), rows, parseInt, policy);
      TrackersIdentify(r.reg.vertexMap.Values + Endpoints(r.added), r.reg.numVertices)
  {
    var empty: set<Vertex> := {};
    var none: map<string, Vertex> := map[];
    assert empty + none.Values == {};
    IngestRowsIdentify(Registry(map[], 0), empty, rows, parseInt, policy);
    var r := IngestRows(Registry(map[], 0), rows, parseInt, policy);
    assert empty + r.reg.vertexMap.Values + Endpoints(r.added) == r.reg.vertexMap.Values + Endpoints(r.added);
  }
}
