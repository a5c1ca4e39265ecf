/** Partitions of the trackers {0 .. n-1}, the abstract value a disjoint-set
    forest stands for: rep[x] is the representative of x's set. */
module Partitions {

  /** Every representative lies in range and represents itself. */
  predicate IsPartition(rep: seq<nat>)
  {
    forall x :: 0 <= x < |rep| ==> rep[x] < |rep| && rep[rep[x]] == rep[x]
  }

  /** x and y are in the same set. */
  predicate Same(rep: seq<nat>, x: nat, y: nat)
    requires x < |rep| && y < |rep|
  {
    rep[x] == rep[y]
  }

  /** The representatives, one per set. */
  function Roots(rep: seq<nat>): (roots: set<nat>)
  {
    set x: nat | x < |rep| && rep[x] == x
  }

  /** n singleton sets: no two elements share a set. */
  function Singletons(n: nat): (rep: seq<nat>)
    ensures |rep| == n && IsPartition(rep)
    ensures forall x, y :: 0 <= x < n && 0 <= y < n && x != y ==> !Same(rep, x, y)
  {
    seq(n, x requires 0 <= x => x)
  }

  /** The sets represented by a and b become one set, represented by a; all
      other sets are unchanged. */
  function Merge(rep: seq<nat>, a: nat, b: nat): (r: seq<nat>)
    requires IsPartition(rep) && a < |rep| && b < |rep| && rep[a] == a && rep[b] == b
    ensures |r| == |rep| && IsPartition(r)
  {
    seq(|rep|, x requires 0 <= x < |rep| => if rep[x] == b then a else rep[x])
  }

  /** After merging, two elements share a set exactly when they did before or
      both were in one of the two merged sets. */
  lemma MergeSame(rep: seq<nat>, a: nat, b: nat)
    requires IsPartition(rep) && a < |rep| && b < |rep| && rep[a] == a && rep[b] == b
    ensures forall x, y :: 0 <= x < |rep| && 0 <= y < |rep| ==>
      (Same(Merge(rep, a, b), x, y) <==> Same(rep, x, y) || ((rep[x] == a || rep[x] == b) && (rep[y] == a || rep[y] == b)))
  {
  }

  /** Merging two different sets removes exactly one representative. */
  lemma MergeRoots(rep: seq<nat>, a: nat, b: nat)
    requires IsPartition(rep) && a < |rep| && b < |rep| && rep[a] == a && rep[b] == b && a != b
    ensures Roots(Merge(rep, a, b)) == Roots(rep) - {b}
    ensures |Roots(Merge(rep, a, b))| == |Roots(rep)| - 1
  {
    var r := Merge(rep, a, b);
    forall x: nat | x in Roots(r) ensures x in Roots(rep) - {b} {
      assert r[x] == x;
    }
    assert Roots(r) == Roots(rep) - {b};
  }

  /** n singletons have n representatives. */
  lemma {:induction false} SingletonsRoots(n: nat)
    ensures |Roots(Singletons(n))| == n
  {
    if n > 0 {
      SingletonsRoots(n - 1);
      assert Roots(Singletons(n)) == Roots(Singletons(n - 1)) + {n - 1};
    } else {
      assert Roots(Singletons(0)) == {};
    }
  }

  /** A partition of a non-empty range has at least one set. */
  lemma RootsNonEmpty(rep: seq<nat>)
    requires IsPartition(rep) && |rep| > 0
    ensures |Roots(rep)| >= 1
  {
    assert rep[0] in Roots(rep);
  }
}
