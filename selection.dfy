/** Kruskal's selection rule as a function of the order in which edges leave
    the queue: an edge is accepted exactly when its endpoints lie in different
    sets at that moment, and accepting it joins the two sets. The loop of
    Kruskals.getMinSpanningTree is specified by this function. */
module Selection {
  import opened Edges
  import opened Partitions

  /** The partition after the polled edges, and the edges accepted so far. */
  datatype Run = Run(rep: seq<nat>, accepted: seq<Edge>)

  function Select(rep0: seq<nat>, polled: seq<Edge>): (r: Run)
    requires IsPartition(rep0) && TrackersBelow(multiset(polled), |rep0|)
    ensures |r.rep| == |rep0| && IsPartition(r.rep)
    decreases |polled|
  {
    if polled == [] then Run(rep0, [])
    else
      var prev := Select(rep0, polled[..|polled| - 1]);
      var e := polled[|polled| - 1];
      var a, b := prev.rep[e.v.tracker], prev.rep[e.w.tracker];
      if a != b then Run(Merge(prev.rep, a, b), prev.accepted + [e]) else prev
  }

  /** Polling one more edge: it is accepted exactly when its endpoints are in
      different sets of the partition so far, and then those sets are joined. */
  lemma SelectSnoc(rep0: seq<nat>, polled: seq<Edge>, e: Edge)
    requires IsPartition(rep0) && TrackersBelow(multiset(polled + [e]), |rep0|)
    ensures TrackersBelow(multiset(polled), |rep0|)
    ensures var prev := Select(rep0, polled);
      var a, b := prev.rep[e.v.tracker], prev.rep[e.w.tracker];
      Select(rep0, polled + [e]) == if a != b then Run(Merge(prev.rep, a, b), prev.accepted + [e]) else prev
  {
    assert (polled + [e])[..|polled|] == polled;
  }

  /** Every accepted edge was polled, and distances of accepted edges never
      decrease when the polled order never decreases. */
  lemma {:induction false} SelectKeepsOrder(rep0: seq<nat>, polled: seq<Edge>)
    requires IsPartition(rep0) && TrackersBelow(multiset(polled), |rep0|)
    ensures forall e :: e in Select(rep0, polled).accepted ==> e in polled
    ensures SortedByDistance(polled) ==> SortedByDistance(Select(rep0, polled).accepted)
    decreases |polled|
  {
    if polled != [] {
      var front := polled[..|polled| - 1];
      SelectKeepsOrder(rep0, front);
      var prev := Select(rep0, front);
      var e := polled[|polled| - 1];
      forall x | x in prev.accepted ensures x in polled {
        assert x in front;
      }
      if SortedByDistance(polled) {
        assert SortedByDistance(front);
        forall x | x in prev.accepted ensures x.distance <= e.distance {
          var k :| 0 <= k < |front| && front[k] == x;
          assert polled[k] == x;
        }
      }
    }
  }

  /** Each accepted edge merges two sets, so the number of accepted edges plus
      the number of sets left is the number of sets at the start. */
  lemma {:induction false} SelectCounts(rep0: seq<nat>, polled: seq<Edge>)
    requires IsPartition(rep0) && TrackersBelow(multiset(polled), |rep0|)
    ensures var r := Select(rep0, polled); |r.accepted| + |Roots(r.rep)| == |Roots(rep0)|
    decreases |polled|
  {
    if polled != [] {
      var front := polled[..|polled| - 1];
      SelectCounts(rep0, front);
      var prev := Select(rep0, front);
      var e := polled[|polled| - 1];
      var a, b := prev.rep[e.v.tracker], prev.rep[e.w.tracker];
      if a != b {
        MergeRoots(prev.rep, a, b);
      }
    }
  }

  /** Starting from n singletons at most n - 1 edges are accepted (none when
      there are no vertices). */
  lemma AcceptedAtMostVerticesMinusOne(n: nat, polled: seq<Edge>)
    requires TrackersBelow(multiset(polled), n)
    ensures var r := Select(Singletons(n), polled);
      && |r.accepted| + |Roots(r.rep)| == n
      && (n > 0 ==> |r.accepted| <= n - 1)
      && (n == 0 ==> r.accepted == [])
  {
    SelectCounts(Singletons(n), polled);
    SingletonsRoots(n);
    if n > 0 {
      RootsNonEmpty(Select(Singletons(n), polled).rep);
    }
  }

  /** One more polled edge only joins sets, and leaves its endpoints in one
      set. */
  lemma SelectStepJoins(rep0: seq<nat>, polled: seq<Edge>, e: Edge)
    requires IsPartition(rep0) && TrackersBelow(multiset(polled + [e]), |rep0|)
    ensures TrackersBelow(multiset(polled), |rep0|)
    ensures var prev, r := Select(rep0, polled), Select(rep0, polled + [e]);
      && (forall x, y :: 0 <= x < |rep0| && 0 <= y < |rep0| && Same(prev.rep, x, y) ==> Same(r.rep, x, y))
      && Same(r.rep, e.v.tracker, e.w.tracker)
  {
    SelectSnoc(rep0, polled, e);
    var prev := Select(rep0, polled);
    var a, b := prev.rep[e.v.tracker], prev.rep[e.w.tracker];
    if a != b {
      MergeSame(prev.rep, a, b);
    }
  }

  /** Sets only grow, and when the polled edges are used up both endpoints of
      every one of them lie in the same set (accepted or not). */
  lemma {:induction false} SelectConnects(rep0: seq<nat>, polled: seq<Edge>)
    requires IsPartition(rep0) && TrackersBelow(multiset(polled), |rep0|)
    ensures var r := Select(rep0, polled);
      && (forall x, y :: 0 <= x < |rep0| && 0 <= y < |rep0| && Same(rep0, x, y) ==> Same(r.rep, x, y))
      && (forall e :: e in polled ==> Same(r.rep, e.v.tracker, e.w.tracker))
    decreases |polled|
  {
    if polled != [] {
      var front := polled[..|polled| - 1];
      var e := polled[|polled| - 1];
      assert polled == front + [e];
      SelectStepJoins(rep0, front, e);
      SelectConnects(rep0, front);
      var r := Select(rep0, polled);
      forall f | f in polled ensures Same(r.rep, f.v.tracker, f.w.tracker) {
        if f != e {
          assert f in front;
        }
      }
    }
  }

  /** A self-loop is never accepted: every accepted edge joins two different
      trackers. */
  lemma {:induction false} NoSelfLoopAccepted(rep0: seq<nat>, polled: seq<Edge>)
    requires IsPartition(rep0) && TrackersBelow(multiset(polled), |rep0|)
    ensures forall e :: e in Select(rep0, polled).accepted ==> e.v.tracker != e.w.tracker
    decreases |polled|
  {
    if polled != [] {
      NoSelfLoopAccepted(rep0, polled[..|polled| - 1]);
    }
  }

  /** The accepted edges contain no cycle: selecting over the accepted edges
      alone accepts every one of them and ends in the same partition. */
  lemma {:induction false} AcceptedFormForest(rep0: seq<nat>, polled: seq<Edge>)
    requires IsPartition(rep0) && TrackersBelow(multiset(polled), |rep0|)
    ensures var r := Select(rep0, polled);
      TrackersBelow(multiset(r.accepted), |rep0|) && Select(rep0, r.accepted) == r
    decreases |polled|
  {
    SelectKeepsOrder(rep0, polled);
    if polled != [] {
      var front := polled[..|polled| - 1];
      AcceptedFormForest(rep0, front);
      var prev := Select(rep0, front);
      var e := polled[|polled| - 1];
      var a, b := prev.rep[e.v.tracker], prev.rep[e.w.tracker];
      if a != b {
        var acc := prev.accepted + [e];
        assert acc[..|acc| - 1] == prev.accepted;
      }
    }
  }
}
