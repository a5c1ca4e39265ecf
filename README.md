# Kruskal's minimum spanning tree over CSV city rows

This project models the class `Kruskals` of `src/Kruskals.java`. The class reads rows of a CSV file. Each row names a city and then lists pairs of a neighbouring city and a distance.

- `getVerticesEdgePairs` registers every city as a `Vertex` with a numeric *tracker* and queues one `Edge` per pair in a priority queue ordered by distance.
- `getMinSpanningTree` polls the queue until it is empty. It asks a disjoint-set structure whether the two trackers of each edge are already connected. When they are not, it joins their sets and adds the distance to `totalDistance`.
- `main` runs the two methods in turn.

Files and modules:

- `edges.dfy`, module `Edges`: the value types `Vertex` and `Edge`, and `Edge.compareTo`. It also has the queue facts:
  - a non-empty queue has a minimum;
  - polling minima yields a sorted order that loses no edge;
  - a sorted order is unique when distances are distinct.
- `partition.dfy`, module `Partitions`: a partition of the trackers `0 .. n-1` as a representative per element. This is the abstract value of a disjoint-set forest.
- `disjsets.dfy`, module `DisjointSets`: a class `DisjSets` with a `parent` array. It stands in for the disjoint-set class that the program uses but that is not part of this model. Only its construct, `find` and `union` behaviour is relied on.
- `selection.dfy`, module `Selection`: the selection rule as a function `Select` of the order in which edges leave the queue, with its properties:
  - accepted edges keep the polled order;
  - every polled edge ends inside one set;
  - no self-loop is accepted;
  - the accepted edges form a forest;
  - at most `n - 1` edges are accepted.
- `ingestion.dfy`, module `Ingestion`: the registry (`vertexMap`, `numVertices`) and the pure meaning of reading rows, `IngestRows`. It includes the exceptions a row can raise. A `SecondCity` switch selects how a new neighbour is registered: `AsWritten`, as the program does it, or `Intended` (see Findings).
- `kruskals.dfy`, module `MinSpanningTree`: the class `Kruskals` with the program's four fields. Its methods update them in place, and each method is proved against the functions above.
- `findings.dfy`, module `Findings`: a four-city example that shows the registry defect and the weight it produces.

Values the program computes with `int` are unbounded integers here. `Integer.parseInt` is a parameter `string -> Option<int>`, where `None` stands for a `NumberFormatException`.

## Model

| member | source | states |
|---|---|---|
| Edges.CompareTo | src/Kruskals.java:89-91 | the sign of the result is the sign of the difference of the two distances, in all three directions |
| Edges.MinimumExists | src/Kruskals.java:208-209 | a non-empty queue always holds an edge that no pending edge compares below, so `poll` has a head to return |
| Edges.PollMinimum | src/Kruskals.java:208-209 | removing a least edge from the pending ones keeps the polled sequence sorted, ahead of everything pending, and loses no edge |
| Edges.Drained | src/Kruskals.java:208 | once the loop condition fails, the polled sequence holds exactly the edges that were queued; an empty queue polls nothing |
| Edges.SortedLast | src/Kruskals.java:89-91 | two sorted orders of the same edges have equal length and equal last distance, and equal last edge when distances are distinct |
| Edges.SortedOrderUnique | src/Kruskals.java:89-91 | with pairwise distinct distances, every order the queue may poll is the same sequence |
| Partitions.Singletons | src/Kruskals.java:204 | n elements in n sets: no two distinct elements share a set |
| Partitions.MergeRoots | src/Kruskals.java:217 | joining two different sets removes exactly one representative |
| Partitions.SingletonsRoots | src/Kruskals.java:204 | n singletons have n representatives |
| Partitions.RootsNonEmpty | src/Kruskals.java:204 | a partition of at least one element has a set |
| DisjointSets.DisjSets.constructor | src/Kruskals.java:204 | the forest starts as n singleton sets |
| DisjointSets.DisjSets.Find | src/Kruskals.java:212-213 | returns the representative of the element's set and changes nothing |
| DisjointSets.DisjSets.Union | src/Kruskals.java:217 | the two sets with the given representatives become one, and every other set is unchanged |
| Selection.Select | src/Kruskals.java:208-221 | the partition after the polled edges is a partition of the same trackers |
| Selection.SelectSnoc | src/Kruskals.java:212-218 | one more polled edge is accepted exactly when its trackers are in different sets, and then those sets are joined |
| Selection.SelectKeepsOrder | src/Kruskals.java:209-218 | every accepted edge was polled, and accepted distances never decrease when polled distances never decrease |
| Selection.SelectCounts | src/Kruskals.java:216-217 | accepted edges plus remaining sets equals the sets at the start |
| Selection.AcceptedAtMostVerticesMinusOne | src/Kruskals.java:204-217 | starting from n singletons, at most n - 1 edges are accepted, and none when there are no vertices |
| Selection.SelectStepJoins | src/Kruskals.java:212-217 | one more polled edge only joins sets and leaves its own trackers in one set |
| Selection.SelectConnects | src/Kruskals.java:208-217 | sets only grow, and after the loop both trackers of every polled edge share a set |
| Selection.NoSelfLoopAccepted | src/Kruskals.java:212-217 | an edge whose two trackers are equal is never accepted |
| Selection.AcceptedFormForest | src/Kruskals.java:212-218 | the accepted edges contain no cycle: selecting over them alone accepts each and gives the same partition |
| Ingestion.ResolveFirst | src/Kruskals.java:168-175 | a known name returns its vertex and changes nothing; an unknown one gets tracker numVertices, is registered under its name, and the count grows by one |
| Ingestion.ResolveSecond | src/Kruskals.java:177-184 | as ResolveFirst, except that the new name is registered with the first city's vertex as written, or with its own vertex when corrected |
| Ingestion.IntendedSecondIsFirstLookup | src/Kruskals.java:168-184 | with the correction, the neighbour is looked up exactly as the first city is |
| Ingestion.PairsFromInRange | src/Kruskals.java:163-194 | one row only adds registry entries and keeps every tracker below numVertices |
| Ingestion.IngestRowsInRange | src/Kruskals.java:160-195 | all rows only add registry entries and keep every tracker of the map and of every queued edge below numVertices |
| Ingestion.IngestRowsKeepsQueueInRange | src/Kruskals.java:160-195 | edges already in the queue stay in range while rows are read |
| Ingestion.PairsFromStep | src/Kruskals.java:163-193 | one pair either throws on the missing distance field or on an unparsable distance, or queues the edge between the two resolved cities and goes on at i + 2 |
| Ingestion.OddRowEdges | src/Kruskals.java:163-193 | a row of odd length whose distances parse completes with (k-1)/2 edges, each leaving the row's first city with the distance parsed from its field |
| Ingestion.EvenRowThrows | src/Kruskals.java:163-187 | a row of even, non-zero length always throws; an out-of-bounds index is the row length |
| Ingestion.IntendedPairStep | src/Kruskals.java:168-184 | with the correction, one pair keeps every name registered with a vertex of that name and distinct trackers |
| Ingestion.EdgesRegisteredGrow | src/Kruskals.java:168-184 | edges whose endpoints are registered stay registered as the registry grows |
| Ingestion.IntendedPairsConsistent | src/Kruskals.java:163-194 | with the correction, a row keeps names consistent and queues only edges between registered vertices |
| Ingestion.IntendedRowsConsistent | src/Kruskals.java:160-195 | with the correction, every name keeps one vertex and every queued edge joins the vertices registered under its two names |
| Ingestion.Endpoints | src/Kruskals.java:190 | the set holds both vertices of every queued edge, and only those |
| Ingestion.ResolveFirstIdentifies | src/Kruskals.java:168-175 | looking up the first city keeps every tracker below numVertices and keeps each tracker naming one vertex |
| Ingestion.ResolveSecondIdentifies | src/Kruskals.java:177-184 | looking up the neighbour, as written or corrected, keeps every tracker below numVertices and keeps each tracker naming one vertex |
| Ingestion.PairsFromIdentifies | src/Kruskals.java:163-194 | one row keeps each tracker naming one vertex, over the registry and the endpoints of the edges it queues |
| Ingestion.IngestRowsIdentify | src/Kruskals.java:160-195 | all rows keep each tracker naming one vertex, over the registry and the endpoints of every queued edge |
| Ingestion.TrackersIdentifyVertices | src/Kruskals.java:171-182 | as written or corrected, every vertex in the registry or on a queued edge has a tracker below numVertices, and two such vertices with the same tracker are the same vertex |
| MinSpanningTree.Kruskals.constructor | src/Kruskals.java:21-32 | an empty queue and map, zero vertices and total distance zero |
| MinSpanningTree.Kruskals.GetVerticesEdgePairs | src/Kruskals.java:149-196 | the registry and outcome are those of IngestRows as written, and the queue gains exactly the edges it lists; an exception keeps the changes made before it |
| MinSpanningTree.Kruskals.AddRowPairs | src/Kruskals.java:163-194 | one row updates the registry and queue as PairsFrom says, or stops at its exception |
| MinSpanningTree.Kruskals.FirstCityVertex | src/Kruskals.java:167-175 | the vertex and registry are those of ResolveFirst |
| MinSpanningTree.Kruskals.SecondCityVertex | src/Kruskals.java:177-184 | the vertex and registry are those of ResolveSecond as written: a new neighbour's name is mapped to the first city's vertex |
| MinSpanningTree.Kruskals.RunProgram | src/Kruskals.java:227-230 | an exception ends the run without a total; otherwise the total is the sum of the accepted distances, the accepted edges are sorted and were all queued, and they are what Select accepts over a sorted order of the queued edges |
| MinSpanningTree.Kruskals.AcceptedFromQueue | src/Kruskals.java:208-218 | the edges accepted from a sorted poll order are sorted by distance and were all queued |
| MinSpanningTree.Kruskals.GetMinSpanningTree | src/Kruskals.java:203-225 | drains the queue in a sorted order of exactly the queued edges, accepts what Select accepts from n singletons, and returns the old total plus the accepted distances |
| MinSpanningTree.Kruskals.CallTwice | src/Kruskals.java:203-225 | a second call accepts nothing and returns the same total |
| MinSpanningTree.Kruskals.NextEdge | src/Kruskals.java:208-221 | one iteration: polls a least edge and advances Select by it, keeping the loop's state in step |
| MinSpanningTree.Kruskals.Poll | src/Kruskals.java:209 | removes and returns some edge of least distance |
| MinSpanningTree.Kruskals.ConsiderEdge | src/Kruskals.java:212-218 | the two finds and the conditional union are one step of Select, and the distance is added exactly when the edge is accepted |
| Findings.AsWrittenIngestion | src/Kruskals.java:177-184 | as written, the example registers B, D and C with A's vertex and queues A-B 1, A-D 10, A-C 15, A-A 2, A-A 3 |
| Findings.AsWrittenBreaksNames | src/Kruskals.java:183 | as written, names are not consistent and a queued edge ends at a vertex not registered under its name |
| Findings.AsWrittenPollOrder | src/Kruskals.java:89-91 | every order the queue may poll the as-written edges in is the one sorted sequence |
| Findings.AsWrittenSelectThree | src/Kruskals.java:212-218 | as written, the first three polls accept only A-B; the two self-loops are rejected |
| Findings.AsWrittenSelectFour | src/Kruskals.java:212-218 | as written, A-D is then accepted |
| Findings.AsWrittenSelectLast | src/Kruskals.java:212-218 | as written, A-C is then accepted as well |
| Findings.AsWrittenWeight | src/Kruskals.java:203-225 | as written, every poll order accepts A-B, A-D and A-C, weighing 26 |
| Findings.IntendedIngestion | src/Kruskals.java:163-193 | with the correction, each city keeps its own vertex and the five edges of the example graph are queued |
| Findings.IntendedPollOrder | src/Kruskals.java:89-91 | every order the queue may poll the corrected edges in is the one sorted sequence |
| Findings.IntendedSelectThree | src/Kruskals.java:212-218 | with the correction, the first three polls accept A-B, B-C and C-D, leaving all four cities in one set |
| Findings.IntendedSelectFour | src/Kruskals.java:212-218 | with the correction, A-D then closes a cycle and is rejected |
| Findings.IntendedSelectLast | src/Kruskals.java:212-218 | with the correction, A-C then closes a cycle and is rejected |
| Findings.IntendedWeight | src/Kruskals.java:203-225 | with the correction, every poll order accepts the minimum spanning tree A-B, B-C, C-D of weight 6 |

## Left out

- Reading the file path from standard input, opening and reading the file, and all printing (lines 151-159 and 219-220, and the printing in `main`). Rows arrive as a sequence of field sequences, and the printed step counter `edges` is not modelled.
- `line.split(",")` is not modelled. Each row is given already split, so the rule that drops trailing empty fields is not captured.
- `Integer.parseInt` is an abstract partial function passed as a parameter. The example in `Findings` uses a parser of non-empty decimal digit strings.
- The `IOException` from a missing file is not modelled. The exceptions a row can raise are modelled as an `Outcome`: the index past the end at line 187, and `NumberFormatException`.
- The `DisjSets` class is not part of this model. `DisjointSets.DisjSets` is a stand-in without rank or size balancing and without path compression. Only its observable behaviour is used: n singletons, `find` returns the representative, and `union` of two representatives joins their sets.
- The priority queue's heap layout and its order among edges of equal distance are not modelled. `Poll` removes *some* least edge, and every property is proved for every such order.
- 32-bit `int` overflow of `totalDistance`, `numVertices` and the parsed distances is not modelled; integers are unbounded.
- `toString` and the getters of `Edge` and `Vertex` are not modelled; the datatype fields stand for the getters.
- MinSpanningTree.Kruskals.GetMinSpanningTree: the result is specified as Kruskal's selection over a sorted order, acyclic and connecting every polled edge's endpoints. Minimality of the total over all spanning trees is not proved.
- The loop of `getMinSpanningTree` is split into the methods `NextEdge`, `Poll` and `ConsiderEdge`, and the loops of `getVerticesEdgePairs` into `AddRowPairs`, `FirstCityVertex` and `SecondCityVertex`. The statements are those of the program, grouped by iteration.

## Findings

| source | as written | input that shows it | evidently intended | confidence | as-written member | corrected member |
|---|---|---|---|---|---|---|
| src/Kruskals.java:183 | a new neighbour's name is registered with the first city's vertex `v`, so later rows resolve that name to the first city | rows `A,B,1,D,10,C,15` / `B,C,2` / `C,D,3` (graph A-B 1, B-C 2, C-D 3, A-D 10, A-C 15): the later rows queue self-loops A-A, and the run accepts A-B, A-D, A-C for a total of 26 | register the new vertex `w` under its own name, so every name keeps one vertex and the run accepts A-B, B-C, C-D for the minimum total of 6 | not executed | Findings.AsWrittenWeight | Findings.IntendedWeight |
