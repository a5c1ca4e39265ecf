/** The disjoint sets the spanning-tree loop consults. The DisjSets class the
    source instantiates is not part of this model; this class is a stand-in
    with the same three operations (construct with n singletons, find, union
    of two roots). It keeps a forest of parent links with no balancing and no
    path compression; only the partition it stands for is observable. */
module DisjointSets {
  import opened Partitions

  class DisjSets {
    var parent: array<nat>
    /** The partition the forest stands for. */
    ghost var rep: seq<nat>
    /** The number of links from each element up to its root. */
    ghost var dist: seq<nat>

    ghost predicate Valid()
      reads this, parent
    {
      && parent.Length == |rep| == |dist|
      && IsPartition(rep)
      && (forall x :: 0 <= x < parent.Length ==> parent[x] < parent.Length)
      && (forall x :: 0 <= x < parent.Length && rep[x] == x ==> parent[x] == x)
      && (forall x :: 0 <= x < parent.Length ==>
            if parent[x] == x then rep[x] == x && dist[x] == 0
            else rep[x] == rep[parent[x]] && dist[x] == dist[parent[x]] + 1)
    }

    /** n elements, each in a set of its own. */
    constructor (n: nat)
      ensures Valid() && fresh(parent)
      ensures rep == Singletons(n)
    {
      parent := new nat[n](x => x);
      rep := Singletons(n);
      dist := seq(n, x => 0);
    }

    /** The representative of x's set; the forest is left as it is. */
    method Find(x: nat) returns (root: nat)
      requires Valid() && x < |rep|
      ensures root == rep[x]
    {
      root := x;
      while parent[root] != root
        invariant root < parent.Length && rep[root] == rep[x]
        decreases dist[root]
      {
        root := parent[root];
      }
    }

    /** Joins the sets whose roots are root1 and root2 (nothing changes when
        they are the same root). */
    method Union(root1: nat, root2: nat)
      requires Valid() && root1 < |rep| && root2 < |rep| && rep[root1] == root1 && rep[root2] == root2
      modifies parent, this
      ensures Valid() && parent == old(parent)
      ensures rep == Merge(old(rep), root1, root2)
    {
      if root1 == root2 {
        assert rep == Merge(rep, root1, root2);
      } else {
        ghost var rep0, dist0 := rep, dist;
        parent[root2] := root1;
        dist := seq(|rep0|, x requires 0 <= x < |rep0| => if rep0[x] == root2 then dist0[x] + 1 else dist0[x]);
        rep := Merge(rep0, root1, root2);
        forall x | 0 <= x < parent.Length
          ensures if parent[x] == x then rep[x] == x && dist[x] == 0
                  else rep[x] == rep[parent[x]] && dist[x] == dist[parent[x]] + 1
        {
          if x == root2 {
            assert parent[root1] == root1;
          } else if parent[x] != x {
            assert rep0[x] == rep0[parent[x]];
          }
        }
      }
    }
  }
}
