/** The registry defect of getVerticesEdgePairs on a four-city example: the
    graph A-B 1, B-C 2, C-D 3, A-D 10, A-C 15, whose minimum spanning tree
    weighs 6. As written, each new neighbour is registered with the first
    city's vertex, so later rows see every city as A and the run accepts edges
    weighing 26; with the neighbour registered under its own vertex the run
    accepts the tree of weight 6. */
module Findings {
  import opened Edges
  import opened Ingestion
  import opened Partitions
  import opened Selection

  /** The example as CSV rows: A's row lists B, D and C, then one row for B and
      one for C. */
  function ExampleRows(): seq<seq<string>>
  {
    [["A", "B", "1", "D", "10", "C", "15"], ["B", "C", "2"], ["C", "D", "3"]]
  }

  /** The numeric value of a string of decimal digits. */
  function DigitsValue(s: string): nat
    requires forall k :: 0 <= k < |s| ==> '0' <= s[k] <= '9'
  {
    if s == [] then 0 else DigitsValue(s[..|s| - 1]) * 10 + (s[|s| - 1] as int - '0' as int)
  }

  /** A parser that accepts non-empty strings of decimal digits, standing for
      Integer.parseInt on the fields of the example. */
  function ParseDigits(s: string): Option<int>
  {
    if s != [] && forall k :: 0 <= k < |s| ==> '0' <= s[k] <= '9' then Some(DigitsValue(s)) else None
  }

  const A := Vertex("A", 0)
  const B := Vertex("B", 1)
  const D := Vertex("D", 2)
  const C := Vertex("C", 3)

  /** The edges as written, in the order the rows queue them: the rows of B
      and C became self-loops on A. */
  function AsWrittenQueued(): seq<Edge>
  {
    [Edge(A, B, 1), Edge(A, D, 10), Edge(A, C, 15), Edge(A, A, 2), Edge(A, A, 3)]
  }

  /** The edges with every name registered under its own vertex, in the order
      the rows queue them. */
  function IntendedQueued(): seq<Edge>
  {
    [Edge(A, B, 1), Edge(A, D, 10), Edge(A, C, 15), Edge(B, C, 2), Edge(C, D, 3)]
  }

  /** Moving a block of edges later keeps the multiset of edges. */
  lemma SwapBlocks(a: seq<Edge>, b: seq<Edge>, c: seq<Edge>)
    ensures multiset(a + b + c) == multiset(a + c + b)
  {
  }

  /** The distance fields of the example parse to their values. */
  lemma ExampleDistances()
    ensures ParseDigits("1") == Some(1) && ParseDigits("2") == Some(2) && ParseDigits("3") == Some(3)
    ensures ParseDigits("10") == Some(10) && ParseDigits("15") == Some(15)
  {
    assert "10"[..1] == "1" && "15"[..1] == "1";
  }

  /** A row naming one neighbour, both names already registered: one edge
      between their vertices, and the registry is left as it is. */
  lemma KnownPairRow(reg: Registry, row: seq<string>, policy: SecondCity, d: int)
    requires |row| == 3 && row[0] in reg.vertexMap && row[1] in reg.vertexMap
    requires ParseDigits(row[2]) == Some(d)
    ensures PairsFrom(reg, row, 1, ParseDigits, policy)
      == Ingested(reg, [Edge(reg.vertexMap[row[0]], reg.vertexMap[row[1]], d)], Completed)
  {
    var v, w := reg.vertexMap[row[0]], reg.vertexMap[row[1]];
    PairsFromStep(reg, row, 1, ParseDigits, policy, v, reg, w, reg);
  }

  /** The two later rows over a registry that knows every name. */
  lemma LaterRows(reg: Registry, policy: SecondCity)
    requires "B" in reg.vertexMap && "C" in reg.vertexMap && "D" in reg.vertexMap
    ensures var m := reg.vertexMap;
      IngestRows(reg, ExampleRows()[1..], ParseDigits, policy)
        == Ingested(reg, [Edge(m["B"], m["C"], 2), Edge(m["C"], m["D"], 3)], Completed)
  {
    ExampleDistances();
    var rows := ExampleRows()[1..];
    KnownPairRow(reg, rows[0], policy, 2);
    KnownPairRow(reg, rows[1], policy, 3);
    assert rows[1..] == [rows[1]] && [rows[1]][1..] == [];
  }

  /** As written, A's row registers B, D and C with A's vertex. */
  lemma AsWrittenFirstRow()
    ensures PairsFrom(Registry(map[], 0), ExampleRows()[0], 1, ParseDigits, AsWritten)
      == Ingested(Registry(map["A" := A, "B" := A, "D" := A, "C" := A], 4),
                  [Edge(A, B, 1), Edge(A, D, 10), Edge(A, C, 15)], Completed)
  {
    ExampleDistances();
    var row := ExampleRows()[0];
    var r1 := Registry(map["A" := A], 1);
    var r2 := Registry(map["A" := A, "B" := A], 2);
    var r3 := Registry(map["A" := A, "B" := A, "D" := A], 3);
    var r4 := Registry(map["A" := A, "B" := A, "D" := A, "C" := A], 4);
    assert PairsFrom(r4, row, 7, ParseDigits, AsWritten) == Ingested(r4, [], Completed);
    PairsFromStep(r3, row, 5, ParseDigits, AsWritten, A, r3, C, r4);
    PairsFromStep(r2, row, 3, ParseDigits, AsWritten, A, r2, D, r3);
    PairsFromStep(Registry(map[], 0), row, 1, ParseDigits, AsWritten, A, r1, B, r2);
  }

  /** The outer loop over rows whose first row completes. */
  lemma IngestFirstRow(reg: Registry, rows: seq<seq<string>>, policy: SecondCity, first: Ingested)
    requires rows != [] && PairsFrom(reg, rows[0], 1, ParseDigits, policy) == first && first.outcome == Completed
    ensures IngestRows(reg, rows, ParseDigits, policy)
      == Prepend(first.added, IngestRows(first.reg, rows[1..], ParseDigits, policy))
  {
  }

  /** As written: all four names end up mapped to A's vertex, four trackers
      are handed out, and the five queued edges include two self-loops. */
  lemma AsWrittenIngestion()
    ensures var r := IngestRows(Registry(map[], 0), ExampleRows(), ParseDigits, AsWritten);
      && r.outcome == Completed
      && r.reg == Registry(map["A" := A, "B" := A, "D" := A, "C" := A], 4)
      && r.added == AsWrittenQueued()
  {
    var r4 := Registry(map["A" := A, "B" := A, "D" := A, "C" := A], 4);
    AsWrittenFirstRow();
    LaterRows(r4, AsWritten);
    IngestFirstRow(Registry(map[], 0), ExampleRows(), AsWritten,
      Ingested(r4, [Edge(A, B, 1), Edge(A, D, 10), Edge(A, C, 15)], Completed));
  }

  /** As written, the example breaks what IntendedRowsConsistent guarantees
      for the corrected registry: B is registered with A's vertex, and the
      first queued edge, A-B, ends at a vertex B that the registry does not
      hold under B's name. */
  lemma AsWrittenBreaksNames()
    ensures var r := IngestRows(Registry(map[], 0), ExampleRows(), ParseDigits, AsWritten);
      !NamesConsistent(r.reg) && !EdgesRegistered(r.added, r.reg)
  {
    AsWrittenIngestion();
    var m := map["A" := A, "B" := A, "D" := A, "C" := A];
    assert m["B"].val != "B";
    var q := AsWrittenQueued();
    assert q[0] == Edge(A, B, 1) && B.val in m && m[B.val] != B;
  }

  /** The order the queue polls the edges as written: by distance. */
  function AsWrittenPolled(): seq<Edge>
  {
    [Edge(A, B, 1), Edge(A, A, 2), Edge(A, A, 3), Edge(A, D, 10), Edge(A, C, 15)]
  }

  /** The order the queue polls the intended edges: by distance. */
  function IntendedPolled(): seq<Edge>
  {
    [Edge(A, B, 1), Edge(B, C, 2), Edge(C, D, 3), Edge(A, D, 10), Edge(A, C, 15)]
  }

  /** Distances that grow from each edge to the next grow along the whole
      sequence. */
  lemma {:induction false} StepwiseIncreasing(es: seq<Edge>)
    requires forall i :: 0 <= i < |es| - 1 ==> es[i].distance < es[i + 1].distance
    ensures forall i, j :: 0 <= i < j < |es| ==> es[i].distance < es[j].distance
    decreases |es|
  {
    if |es| > 1 {
      var front := es[..|es| - 1];
      StepwiseIncreasing(front);
      forall i, j | 0 <= i < j < |es| ensures es[i].distance < es[j].distance {
        if j < |es| - 1 {
          assert es[i] == front[i] && es[j] == front[j];
        } else if i < |es| - 2 {
          assert es[i] == front[i] && es[|es| - 2] == front[|es| - 2];
        }
      }
    }
  }

  /** Two sorted orders of edges with pairwise different distances, one of
      which grows stepwise, are the same. */
  lemma PollOrderOf(sorted: seq<Edge>, polled: seq<Edge>)
    requires forall i :: 0 <= i < |sorted| - 1 ==> sorted[i].distance < sorted[i + 1].distance
    requires multiset(polled) == multiset(sorted) && SortedByDistance(polled)
    ensures polled == sorted
  {
    StepwiseIncreasing(sorted);
    SortedOrderUnique(sorted, polled);
  }

  /** The queued edges and the polled order are the same edges. */
  lemma AsWrittenSameEdges()
    ensures multiset(AsWrittenQueued()) == multiset(AsWrittenPolled())
  {
    var ab, aa2, aa3, ad, ac := Edge(A, B, 1), Edge(A, A, 2), Edge(A, A, 3), Edge(A, D, 10), Edge(A, C, 15);
    SwapBlocks([ab], [ad, ac], [aa2, aa3]);
    assert [ab] + [ad, ac] + [aa2, aa3] == AsWrittenQueued();
    assert [ab] + [aa2, aa3] + [ad, ac] == AsWrittenPolled();
  }

  /** As written, the queue polls the edges in one order only, since their
      distances are pairwise different. */
  lemma AsWrittenPollOrder(polled: seq<Edge>)
    requires multiset(polled) == multiset(AsWrittenQueued()) && SortedByDistance(polled)
    ensures polled == AsWrittenPolled()
  {
    AsWrittenSameEdges();
    PollOrderOf(AsWrittenPolled(), polled);
  }

  /** The queued edges and the polled order are the same edges. */
  lemma IntendedSameEdges()
    ensures multiset(IntendedQueued()) == multiset(IntendedPolled())
  {
    var ab, bc, cd, ad, ac := Edge(A, B, 1), Edge(B, C, 2), Edge(C, D, 3), Edge(A, D, 10), Edge(A, C, 15);
    SwapBlocks([ab], [ad, ac], [bc, cd]);
    assert [ab] + [ad, ac] + [bc, cd] == IntendedQueued();
    assert [ab] + [bc, cd] + [ad, ac] == IntendedPolled();
  }

  /** With each neighbour registered under its own vertex, the queue also
      polls the edges in one order only. */
  lemma IntendedPollOrder(polled: seq<Edge>)
    requires multiset(polled) == multiset(IntendedQueued()) && SortedByDistance(polled)
    ensures polled == IntendedPolled()
  {
    IntendedSameEdges();
    PollOrderOf(IntendedPolled(), polled);
  }

  /** n singletons, as index facts. */
  ghost predicate Unmerged(s0: seq<nat>)
  {
    |s0| == 4 && s0[0] == 0 && s0[1] == 1 && s0[2] == 2 && s0[3] == 3
  }

  /** As written, the first two polls: A-B is accepted and the self-loop of
      distance 2 is rejected. */
  lemma AsWrittenSelectTwo(s0: seq<nat>, p2: seq<Edge>)
    requires IsPartition(s0) && Unmerged(s0) && p2 == AsWrittenPolled()[..2]
    ensures TrackersBelow(multiset(p2), 4)
    ensures var r := Select(s0, p2);
      r.accepted == [Edge(A, B, 1)] && r.rep[0] == 0 && r.rep[2] == 2 && r.rep[3] == 3
  {
    var ab, aa2 := Edge(A, B, 1), Edge(A, A, 2);
    var p1 := [ab];
    assert p1 + [aa2] == p2;
    forall x | x in multiset(p2) ensures x.v.tracker < 4 && x.w.tracker < 4 {
      assert x in p2;
    }
    SelectSnoc(s0, p1, aa2);
    assert [] + [ab] == p1;
    SelectSnoc(s0, [], ab);
  }

  /** As written, the third poll, the self-loop of distance 3, is rejected. */
  lemma AsWrittenSelectThree(s0: seq<nat>, p3: seq<Edge>)
    requires IsPartition(s0) && Unmerged(s0) && p3 == AsWrittenPolled()[..3]
    ensures TrackersBelow(multiset(p3), 4)
    ensures var r := Select(s0, p3);
      r.accepted == [Edge(A, B, 1)] && r.rep[0] == 0 && r.rep[2] == 2 && r.rep[3] == 3
  {
    var aa3 := Edge(A, A, 3);
    var p2 := p3[..2];
    assert p2 + [aa3] == p3;
    forall x | x in multiset(p3) ensures x.v.tracker < 4 && x.w.tracker < 4 {
      assert x in p3;
    }
    SelectSnoc(s0, p2, aa3);
    AsWrittenSelectTwo(s0, p2);
  }

  /** As written, the fourth poll, A-D, joins D to A's set. */
  lemma AsWrittenSelectFour(s0: seq<nat>, p4: seq<Edge>)
    requires IsPartition(s0) && Unmerged(s0) && p4 == AsWrittenPolled()[..4]
    ensures TrackersBelow(multiset(p4), 4)
    ensures var r := Select(s0, p4);
      r.accepted == [Edge(A, B, 1), Edge(A, D, 10)] && r.rep[0] == 0 && r.rep[3] == 3
  {
    var ad := Edge(A, D, 10);
    var p3 := p4[..3];
    assert p3 + [ad] == p4;
    forall x | x in multiset(p4) ensures x.v.tracker < 4 && x.w.tracker < 4 {
      assert x in p4;
    }
    SelectSnoc(s0, p3, ad);
    AsWrittenSelectThree(s0, p3);
  }

  /** As written, the last poll, A-C, joins C to A's set. */
  lemma AsWrittenSelectLast(s0: seq<nat>, polled: seq<Edge>)
    requires IsPartition(s0) && Unmerged(s0) && polled == AsWrittenPolled()
    ensures TrackersBelow(multiset(polled), 4)
    ensures Select(s0, polled).accepted == [Edge(A, B, 1), Edge(A, D, 10), Edge(A, C, 15)]
  {
    var ac := Edge(A, C, 15);
    var p4 := polled[..4];
    assert p4 + [ac] == polled;
    forall x | x in multiset(polled) ensures x.v.tracker < 4 && x.w.tracker < 4 {
      assert x in polled;
    }
    SelectSnoc(s0, p4, ac);
    AsWrittenSelectFour(s0, p4);
  }

  /** The total distance of three accepted edges. */
  lemma ThreeDistances(e1: Edge, e2: Edge, e3: Edge)
    ensures SumDistances([e1, e2, e3]) == e1.distance + e2.distance + e3.distance
  {
    var accepted := [e1, e2, e3];
    assert accepted[..2] == [e1, e2] && accepted[..2][..1] == [e1] && [e1][..0] == [];
    assert SumDistances([e1]) == e1.distance;
    assert SumDistances([e1, e2]) == e1.distance + e2.distance;
  }

  /** As written, every order the queue may poll the example in accepts A-B,
      A-D and A-C, weighing 26 rather than 6. */
  lemma AsWrittenWeight(polled: seq<Edge>)
    requires multiset(polled) == multiset(AsWrittenQueued()) && SortedByDistance(polled)
    ensures TrackersBelow(multiset(polled), 4)
    ensures var accepted := Select(Singletons(4), polled).accepted;
      accepted == [Edge(A, B, 1), Edge(A, D, 10), Edge(A, C, 15)] && SumDistances(accepted) == 26
  {
    AsWrittenPollOrder(polled);
    AsWrittenSelectLast(Singletons(4), polled);
    ThreeDistances(Edge(A, B, 1), Edge(A, D, 10), Edge(A, C, 15));
  }

  /** Registering each neighbour under its own vertex, A's row registers B,
      D and C with vertices of their own. */
  lemma IntendedFirstRow()
    ensures PairsFrom(Registry(map[], 0), ExampleRows()[0], 1, ParseDigits, Intended)
      == Ingested(Registry(map["A" := A, "B" := B, "D" := D, "C" := C], 4),
                  [Edge(A, B, 1), Edge(A, D, 10), Edge(A, C, 15)], Completed)
  {
    ExampleDistances();
    var row := ExampleRows()[0];
    var r1 := Registry(map["A" := A], 1);
    var r2 := Registry(map["A" := A, "B" := B], 2);
    var r3 := Registry(map["A" := A, "B" := B, "D" := D], 3);
    var r4 := Registry(map["A" := A, "B" := B, "D" := D, "C" := C], 4);
    assert PairsFrom(r4, row, 7, ParseDigits, Intended) == Ingested(r4, [], Completed);
    PairsFromStep(r3, row, 5, ParseDigits, Intended, A, r3, C, r4);
    PairsFromStep(r2, row, 3, ParseDigits, Intended, A, r2, D, r3);
    PairsFromStep(Registry(map[], 0), row, 1, ParseDigits, Intended, A, r1, B, r2);
  }

  /** Registering each neighbour under its own vertex: every name keeps its
      own vertex and the five edges are those of the example graph. */
  lemma IntendedIngestion()
    ensures var r := IngestRows(Registry(map[], 0), ExampleRows(), ParseDigits, Intended);
      && r.outcome == Completed
      && r.reg == Registry(map["A" := A, "B" := B, "D" := D, "C" := C], 4)
      && r.added == IntendedQueued()
  {
    var r4 := Registry(map["A" := A, "B" := B, "D" := D, "C" := C], 4);
    IntendedFirstRow();
    LaterRows(r4, Intended);
    IngestFirstRow(Registry(map[], 0), ExampleRows(), Intended,
      Ingested(r4, [Edge(A, B, 1), Edge(A, D, 10), Edge(A, C, 15)], Completed));
  }

  /** With each neighbour under its own vertex, the first two polls accept
      A-B and B-C. */
  lemma IntendedSelectTwo(s0: seq<nat>, p2: seq<Edge>)
    requires IsPartition(s0) && Unmerged(s0) && p2 == IntendedPolled()[..2]
    ensures TrackersBelow(multiset(p2), 4)
    ensures var r := Select(s0, p2);
      r.accepted == [Edge(A, B, 1), Edge(B, C, 2)] && r.rep[0] == 0 && r.rep[1] == 0 && r.rep[2] == 2 && r.rep[3] == 0
  {
    var ab, bc := Edge(A, B, 1), Edge(B, C, 2);
    var p1 := [ab];
    assert p1 + [bc] == p2;
    forall x | x in multiset(p2) ensures x.v.tracker < 4 && x.w.tracker < 4 {
      assert x in p2;
    }
    SelectSnoc(s0, p1, bc);
    assert [] + [ab] == p1;
    SelectSnoc(s0, [], ab);
  }

  /** The third poll, C-D, puts all four cities in one set. */
  lemma IntendedSelectThree(s0: seq<nat>, p3: seq<Edge>)
    requires IsPartition(s0) && Unmerged(s0) && p3 == IntendedPolled()[..3]
    ensures TrackersBelow(multiset(p3), 4)
    ensures var r := Select(s0, p3);
      r.accepted == [Edge(A, B, 1), Edge(B, C, 2), Edge(C, D, 3)]
      && r.rep[0] == 0 && r.rep[1] == 0 && r.rep[2] == 0 && r.rep[3] == 0
  {
    var cd := Edge(C, D, 3);
    var p2 := p3[..2];
    assert p2 + [cd] == p3;
    forall x | x in multiset(p3) ensures x.v.tracker < 4 && x.w.tracker < 4 {
      assert x in p3;
    }
    SelectSnoc(s0, p2, cd);
    IntendedSelectTwo(s0, p2);
  }

  /** With each neighbour under its own vertex, the fourth poll, A-D, closes
      a cycle and is rejected. */
  lemma IntendedSelectFour(s0: seq<nat>, p4: seq<Edge>)
    requires IsPartition(s0) && Unmerged(s0) && p4 == IntendedPolled()[..4]
    ensures TrackersBelow(multiset(p4), 4)
    ensures var r := Select(s0, p4);
      r.accepted == [Edge(A, B, 1), Edge(B, C, 2), Edge(C, D, 3)] && r.rep[0] == 0 && r.rep[3] == 0
  {
    var ad := Edge(A, D, 10);
    var p3 := p4[..3];
    assert p3 + [ad] == p4;
    forall x | x in multiset(p4) ensures x.v.tracker < 4 && x.w.tracker < 4 {
      assert x in p4;
    }
    SelectSnoc(s0, p3, ad);
    IntendedSelectThree(s0, p3);
  }

  /** With each neighbour under its own vertex, the last poll, A-C, closes a
      cycle and is rejected. */
  lemma IntendedSelectLast(s0: seq<nat>, polled: seq<Edge>)
    requires IsPartition(s0) && Unmerged(s0) && polled == IntendedPolled()
    ensures TrackersBelow(multiset(polled), 4)
    ensures Select(s0, polled).accepted == [Edge(A, B, 1), Edge(B, C, 2), Edge(C, D, 3)]
  {
    var ac := Edge(A, C, 15);
    var p4 := polled[..4];
    assert p4 + [ac] == polled;
    forall x | x in multiset(polled) ensures x.v.tracker < 4 && x.w.tracker < 4 {
      assert x in polled;
    }
    SelectSnoc(s0, p4, ac);
    IntendedSelectFour(s0, p4);
  }

  /** Registering each neighbour under its own vertex, every poll order
      accepts A-B, B-C and C-D, the minimum spanning tree of weight 6. */
  lemma IntendedWeight(polled: seq<Edge>)
    requires multiset(polled) == multiset(IntendedQueued()) && SortedByDistance(polled)
    ensures TrackersBelow(multiset(polled), 4)
    ensures var accepted := Select(Singletons(4), polled).accepted;
      accepted == [Edge(A, B, 1), Edge(B, C, 2), Edge(C, D, 3)] && SumDistances(accepted) == 6
  {
    IntendedPollOrder(polled);
    IntendedSelectLast(Singletons(4), polled);
    ThreeDistances(Edge(A, B, 1), Edge(B, C, 2), Edge(C, D, 3));
  }
}
