/** The union-find structure of `app/rag_history.py`: path halving and union by rank. */
module DisjointSets {
  import opened Connectivity
  import opened Powers

  /** The items whose representative is `r`. */
  ghost function Members(root: seq<nat>, r: nat): set<nat> {
    set i: nat | i < |root| && root[i] == r
  }

  /** `root` names one representative per class and every representative names itself. */
  ghost predicate IsPartition(root: seq<nat>) {
    forall i :: 0 <= i < |root| ==> root[i] < |root| && root[root[i]] == root[i]
  }

  /** The forest of parents stays inside the classes and climbs strictly in rank. */
  ghost predicate IsForest(parent: seq<nat>, rank: seq<nat>, root: seq<nat>) {
    && |parent| == |rank| == |root|
    && IsPartition(root)
    && (forall i {:trigger parent[i]} :: 0 <= i < |parent| ==>
          && parent[i] < |parent|
          && root[parent[i]] == root[i]
          && (parent[i] == i <==> root[i] == i)
          && (parent[i] != i ==> rank[i] < rank[parent[i]]))
  }

  ghost predicate Heavy(root: seq<nat>, rank: seq<nat>)
    requires |root| == |rank|
  {
    forall r :: 0 <= r < |root| && root[r] == r ==> |Members(root, r)| >= Pow2(rank[r])
  }

  /** Two items share a representative exactly when the recorded links connect them. */
  ghost predicate Represents(root: seq<nat>, links: set<Link>) {
    && (forall l :: l in links ==> l.0 < |root| && l.1 < |root|)
    && (forall i, j :: 0 <= i < |root| && 0 <= j < |root| ==>
          (root[i] == root[j] <==> Connected(links, i, j)))
  }

  /** Number of parent steps from `i` to the top of its tree. */
  ghost function Depth(parent: seq<nat>, rank: seq<nat>, root: seq<nat>, i: nat): nat
    requires IsForest(parent, rank, root) && i < |parent|
    decreases MaxOf(rank) - rank[i]
  {
    if parent[i] == i then 0
    else
      1 + Depth(parent, rank, root, parent[i])
  }

  lemma {:induction false} RankBelowRootWithin(parent: seq<nat>, rank: seq<nat>, root: seq<nat>, i: nat, top: nat)
    requires IsForest(parent, rank, root) && i < |parent|
    requires forall k :: 0 <= k < |rank| ==> rank[k] <= top
    ensures rank[i] <= rank[root[i]]
    ensures parent[i] != i ==> rank[i] < rank[root[i]]
    decreases top - rank[i]
  {
    if parent[i] != i {
      RankBelowRootWithin(parent, rank, root, parent[i], top);
    }
  }

  function MaxOf(s: seq<nat>): (m: nat)
    ensures forall k :: 0 <= k < |s| ==> s[k] <= m
  {
    if s == [] then 0
    else
      var rest := MaxOf(s[1..]);
      assert forall k :: 1 <= k < |s| ==> s[k] == s[1..][k - 1];
      if s[0] > rest then s[0] else rest
  }

  /** Ranks grow towards the root. */
  lemma RankBelowRoot(parent: seq<nat>, rank: seq<nat>, root: seq<nat>, i: nat)
    requires IsForest(parent, rank, root) && i < |parent|
    ensures rank[i] <= rank[root[i]]
    ensures parent[i] != i ==> rank[i] < rank[root[i]]
  {
    RankBelowRootWithin(parent, rank, root, i, MaxOf(rank));
  }

  lemma {:induction false} DepthBelowRank(parent: seq<nat>, rank: seq<nat>, root: seq<nat>, i: nat)
    requires IsForest(parent, rank, root) && i < |parent|
    ensures rank[i] + Depth(parent, rank, root, i) <= rank[root[i]]
    decreases Depth(parent, rank, root, i)
  {
    if parent[i] != i {
      DepthBelowRank(parent, rank, root, parent[i]);
    }
  }

  /** The item reached from `i` after `steps` parent steps. */
  function Climb(parent: seq<nat>, i: nat, steps: nat): nat
    requires i < |parent| && forall k :: 0 <= k < |parent| ==> parent[k] < |parent|
    decreases steps
  {
    if steps == 0 then i else Climb(parent, parent[i], steps - 1)
  }

  /** The parents alone determine every representative, so path halving keeps it. */
  lemma {:induction false} ClimbReachesRoot(parent: seq<nat>, rank: seq<nat>, root: seq<nat>, i: nat)
    requires IsForest(parent, rank, root) && i < |parent|
    ensures Climb(parent, i, Depth(parent, rank, root, i)) == root[i]
    decreases Depth(parent, rank, root, i)
  {
    if parent[i] != i {
      ClimbReachesRoot(parent, rank, root, parent[i]);
    }
  }

  lemma {:induction false} SubsetOfIndices(s: set<nat>, n: nat)
    requires forall i :: i in s ==> i < n
    ensures |s| <= n
  {
    if n == 0 {
      assert s == {};
    } else {
      SubsetOfIndices(s - {n - 1}, n - 1);
    }
  }

  /** Every parent path is at most log2(n) long: two to its length never exceeds the number of items. */
  lemma PathsAreLogarithmic(parent: seq<nat>, rank: seq<nat>, root: seq<nat>, i: nat)
    requires IsForest(parent, rank, root) && Heavy(root, rank) && i < |parent|
    ensures Pow2(Depth(parent, rank, root, i)) <= |Members(root, root[i])| <= |parent|
  {
    DepthBelowRank(parent, rank, root, i);
    Pow2Monotone(Depth(parent, rank, root, i), rank[root[i]]);
    SubsetOfIndices(Members(root, root[i]), |parent|);
  }

  lemma RootFacts(parent: seq<nat>, rank: seq<nat>, root: seq<nat>, i: nat)
    requires IsForest(parent, rank, root) && i < |parent|
    ensures IsPartition(root) && |root| == |parent| == |rank|
    ensures root[i] < |root| && root[root[i]] == root[i]
  {
  }

  /** Path halving: pointing an item at its grandparent keeps every class. */
  lemma HalvingKeepsForest(parent: seq<nat>, rank: seq<nat>, root: seq<nat>, i: nat)
    requires IsForest(parent, rank, root) && i < |parent| && parent[i] != i
    ensures IsForest(parent[i := parent[parent[i]]], rank, root)
    ensures root[parent[parent[i]]] == root[i]
    ensures rank[i] < rank[parent[parent[i]]] <= rank[root[i]]
  {
    RankBelowRoot(parent, rank, root, parent[parent[i]]);
  }

  /** Hanging root `b` under root `a` merges the two classes. */
  lemma HangingKeepsForest(parent: seq<nat>, rank: seq<nat>, root: seq<nat>, a: nat, b: nat, rank': seq<nat>)
    requires IsForest(parent, rank, root)
    requires a < |root| && b < |root| && root[a] == a && root[b] == b && a != b
    requires rank[a] >= rank[b]
    requires rank' == if rank[a] == rank[b] then rank[a := rank[a] + 1] else rank
    ensures IsForest(parent[b := a], rank', Merged(root, a, b))
  {
  }

  /** The classes after class `b` has been folded into class `a`. */
  ghost function Merged(root: seq<nat>, a: nat, b: nat): (merged: seq<nat>)
    ensures |merged| == |root|
  {
    seq(|root|, i requires 0 <= i < |root| => if root[i] == b then a else root[i])
  }

  lemma MergedRepresents(root: seq<nat>, links: set<Link>, first: nat, second: nat, a: nat, b: nat)
    requires IsPartition(root) && Represents(root, links)
    requires first < |root| && second < |root|
    requires (a == root[first] && b == root[second]) || (a == root[second] && b == root[first])
    ensures IsPartition(Merged(root, a, b))
    ensures Represents(Merged(root, a, b), links + {(first, second)})
  {
    var merged, more := Merged(root, a, b), links + {(first, second)};
    ConnectedByLink(more, first, second);
    forall i: nat | i < |root|
      ensures Connected(more, i, merged[i])
    {
      assert root[i] == root[root[i]];
      assert Connected(links, i, root[i]);
      ConnectedMonotone(links, more, i, root[i]);
      if root[i] == b {
        JoinedRoots(root, links, first, second, a, b);
        ConnectedTransitive(more, i, b, a);
      }
    }
    forall i: nat, j: nat | i < |root| && j < |root|
      ensures merged[i] == merged[j] <==> Connected(more, i, j)
    {
      if merged[i] == merged[j] {
        ConnectedSymmetric(more, j, merged[j]);
        ConnectedTransitive(more, i, merged[i], j);
      }
      if Connected(more, i, j) {
        forall l | l in more
          ensures l.0 < |merged| && l.1 < |merged| && merged[l.0] == merged[l.1]
        {
          if l in links { ConnectedByLink(links, l.0, l.1); }
        }
        MarkConstantOnConnected(more, merged, i, j);
      }
    }
  }

  lemma JoinedRoots(root: seq<nat>, links: set<Link>, first: nat, second: nat, a: nat, b: nat)
    requires IsPartition(root) && Represents(root, links)
    requires first < |root| && second < |root|
    requires (a == root[first] && b == root[second]) || (a == root[second] && b == root[first])
    ensures Connected(links + {(first, second)}, b, a)
  {
    var more := links + {(first, second)};
    ConnectedByLink(more, first, second);
    assert Connected(links, first, root[first]) && Connected(links, second, root[second]);
    ConnectedMonotone(links, more, first, root[first]);
    ConnectedMonotone(links, more, second, root[second]);
    ConnectedSymmetric(more, first, root[first]);
    ConnectedTransitive(more, root[first], first, second);
    ConnectedTransitive(more, root[first], second, root[second]);
    ConnectedSymmetric(more, root[first], root[second]);
  }

  /** A link inside one class changes no class. */
  lemma LinkInsideClass(root: seq<nat>, links: set<Link>, first: nat, second: nat)
    requires IsPartition(root) && Represents(root, links)
    requires first < |root| && second < |root| && root[first] == root[second]
    ensures Represents(root, links + {(first, second)})
  {
    assert Merged(root, root[first], root[second]) == root;
    MergedRepresents(root, links, first, second, root[first], root[second]);
  }

  /** Union by rank keeps every root heavy. */
  lemma MergedHeavy(root: seq<nat>, rank: seq<nat>, a: nat, b: nat, rank': seq<nat>)
    requires IsPartition(root) && |rank| == |root| && Heavy(root, rank)
    requires a < |root| && b < |root| && root[a] == a && root[b] == b && a != b
    requires rank[a] >= rank[b]
    requires rank' == if rank[a] == rank[b] then rank[a := rank[a] + 1] else rank
    ensures Heavy(Merged(root, a, b), rank')
  {
    var merged := Merged(root, a, b);
    forall r | 0 <= r < |root| && merged[r] == r
      ensures |Members(merged, r)| >= Pow2(rank'[r])
    {
      assert r != b;
      if r == a {
        assert Members(merged, a) == Members(root, a) + Members(root, b);
        assert Members(root, a) !! Members(root, b);
      } else {
        assert Members(merged, r) == Members(root, r);
      }
    }
  }

  class DisjointSet {
    const parent: array<nat>
    const rank: array<nat>
    /** The representative of every item and the links united so far. */
    ghost var root: seq<nat>
    ghost var links: set<Link>

    ghost predicate Valid()
      reads this, parent, rank
    {
      && parent != rank
      && parent.Length == rank.Length == |root|
      && IsForest(parent[..], rank[..], root)
      && Heavy(root, rank[..])
      && Represents(root, links)
    }

    constructor (size: nat)
      ensures Valid() && fresh(parent) && fresh(rank)
      ensures |root| == size && links == {}
      ensures forall i :: 0 <= i < size ==> root[i] == i
    {
      parent := new nat[size](i => i);
      rank := new nat[size](_ => 0);
      root := seq(size, i => i);
      links := {};
      new;
      assert parent[..] == root;
      forall i, j | 0 <= i < size && 0 <= j < size
        ensures root[i] == root[j] <==> Connected({}, i, j)
      {
        ConnectedReflexive({}, i);
        if Connected({}, i, j) { MarkConstantOnConnected({}, root, i, j); }
      }
      forall r | 0 <= r < size
        ensures |Members(root, r)| >= 1
      {
        assert Members(root, r) == {r};
      }
    }

    method Find(item: nat) returns (r: nat)
      requires Valid() && item < parent.Length
      modifies parent
      ensures Valid() && r == root[item]
    {
      r := item;
      while parent[r] != r
        invariant Valid() && r < parent.Length && root[r] == root[item]
        decreases MaxOf(rank[..]) - rank[r]
      {
        HalvingKeepsForest(parent[..], rank[..], root, r);
        ghost var halved := parent[..][r := parent[parent[r]]];
        parent[r] := parent[parent[r]];
        assert parent[..] == halved;
        r := parent[r];
      }
    }

    method Union(first: nat, second: nat)
      requires Valid() && first < parent.Length && second < parent.Length
      modifies this, parent, rank
      ensures Valid()
      ensures links == old(links) + {(first, second)}
      ensures |root| == old(|root|)
    {
      hide IsForest, Heavy, Represents, Merged;
      RootFacts(parent[..], rank[..], root, first);
      RootFacts(parent[..], rank[..], root, second);
      var firstRoot := Find(first);
      var secondRoot := Find(second);
      if firstRoot == secondRoot {
        LinkInsideClass(root, links, first, second);
        links := links + {(first, second)};
        return;
      }
      if rank[firstRoot] < rank[secondRoot] {
        firstRoot, secondRoot := secondRoot, firstRoot;
      }
      ghost var hung := parent[..][secondRoot := firstRoot];
      ghost var raised :=
        if rank[firstRoot] == rank[secondRoot] then rank[..][firstRoot := rank[firstRoot] + 1] else rank[..];
      MergedRepresents(root, links, first, second, firstRoot, secondRoot);
      MergedHeavy(root, rank[..], firstRoot, secondRoot, raised);
      HangingKeepsForest(parent[..], rank[..], root, firstRoot, secondRoot, raised);
      parent[secondRoot] := firstRoot;
      if rank[firstRoot] == rank[secondRoot] {
        rank[firstRoot] := rank[firstRoot] + 1;
      }
      assert parent[..] == hung && rank[..] == raised;
      root := Merged(root, firstRoot, secondRoot);
      links := links + {(first, second)};
    }
  }
}
