/** The equivalence closure of a set of undirected links between indices.
    It is the independent reference definition against which the union-find
    structure and the thread grouping are proved. */
module Connectivity {

  type Link = (nat, nat)

  ghost predicate Step(links: set<Link>, a: nat, b: nat) {
    (a, b) in links || (b, a) in links
  }

  ghost predicate IsWalk(links: set<Link>, walk: seq<nat>) {
    |walk| > 0 && forall k :: 0 <= k < |walk| - 1 ==> Step(links, walk[k], walk[k + 1])
  }

  ghost predicate WalkBetween(links: set<Link>, walk: seq<nat>, a: nat, b: nat) {
    IsWalk(links, walk) && walk[0] == a && walk[|walk| - 1] == b
  }

  /** The least equivalence that contains `links`: some walk joins the two. */
  ghost predicate Connected(links: set<Link>, a: nat, b: nat) {
    exists walk :: WalkBetween(links, walk, a, b)
  }

  lemma ConnectedReflexive(links: set<Link>, a: nat)
    ensures Connected(links, a, a)
  {
    assert WalkBetween(links, [a], a, a);
  }

  lemma ConnectedByLink(links: set<Link>, a: nat, b: nat)
    requires Step(links, a, b)
    ensures Connected(links, a, b)
  {
    assert WalkBetween(links, [a, b], a, b);
  }

  lemma ConnectedSymmetric(links: set<Link>, a: nat, b: nat)
    requires Connected(links, a, b)
    ensures Connected(links, b, a)
  {
    var walk :| WalkBetween(links, walk, a, b);
    var back := seq(|walk|, k requires 0 <= k < |walk| => walk[|walk| - 1 - k]);
    forall k | 0 <= k < |back| - 1
      ensures Step(links, back[k], back[k + 1])
    {
      assert Step(links, walk[|walk| - 2 - k], walk[|walk| - 2 - k + 1]);
    }
    assert WalkBetween(links, back, b, a);
  }

  lemma ConnectedTransitive(links: set<Link>, a: nat, b: nat, c: nat)
    requires Connected(links, a, b) && Connected(links, b, c)
    ensures Connected(links, a, c)
  {
    var left :| WalkBetween(links, left, a, b);
    var right :| WalkBetween(links, right, b, c);
    var walk := left + right[1..];
    forall k | 0 <= k < |walk| - 1
      ensures Step(links, walk[k], walk[k + 1])
    {
      if k < |left| - 1 {
        assert Step(links, left[k], left[k + 1]);
      } else {
        assert walk[k] == right[k - |left| + 1] && walk[k + 1] == right[k - |left| + 2];
        assert Step(links, right[k - |left| + 1], right[k - |left| + 1 + 1]);
      }
    }
    assert WalkBetween(links, walk, a, c);
  }

  lemma ConnectedMonotone(links: set<Link>, more: set<Link>, a: nat, b: nat)
    requires links <= more && Connected(links, a, b)
    ensures Connected(more, a, b)
  {
    var walk :| WalkBetween(links, walk, a, b);
    assert forall k :: 0 <= k < |walk| - 1 ==> Step(links, walk[k], walk[k + 1]);
    assert WalkBetween(more, walk, a, b);
  }

  /** Every link of one set is realised by a chain of links of the other. */
  ghost predicate Realises(links: set<Link>, others: set<Link>) {
    forall l :: l in others ==> Connected(links, l.0, l.1)
  }

  lemma {:induction false} RealisesWalk(links: set<Link>, others: set<Link>, walk: seq<nat>)
    requires Realises(links, others) && IsWalk(others, walk)
    ensures Connected(links, walk[0], walk[|walk| - 1])
    decreases |walk|
  {
    if |walk| == 1 {
      ConnectedReflexive(links, walk[0]);
    } else {
      var shorter := walk[..|walk| - 1];
      forall k | 0 <= k < |shorter| - 1
        ensures Step(others, shorter[k], shorter[k + 1])
      {
        assert Step(others, walk[k], walk[k + 1]);
      }
      RealisesWalk(links, others, shorter);
      var a, b := walk[|walk| - 2], walk[|walk| - 1];
      assert Step(others, walk[|walk| - 2], walk[|walk| - 2 + 1]);
      if (a, b) in others {
        assert Connected(links, (a, b).0, (a, b).1);
      } else {
        assert Connected(links, (b, a).0, (b, a).1);
        ConnectedSymmetric(links, b, a);
      }
      ConnectedTransitive(links, walk[0], a, b);
    }
  }

  /** Closures are compared link by link. */
  lemma ConnectedRealised(links: set<Link>, others: set<Link>, a: nat, b: nat)
    requires Realises(links, others) && Connected(others, a, b)
    ensures Connected(links, a, b)
  {
    var walk :| WalkBetween(others, walk, a, b);
    RealisesWalk(links, others, walk);
  }

  lemma ClosuresAgree(links: set<Link>, others: set<Link>)
    requires Realises(links, others) && Realises(others, links)
    ensures forall a: nat, b: nat :: Connected(links, a, b) <==> Connected(others, a, b)
  {
    forall a: nat, b: nat
      ensures Connected(links, a, b) <==> Connected(others, a, b)
    {
      if Connected(links, a, b) { ConnectedRealised(others, links, a, b); }
      if Connected(others, a, b) { ConnectedRealised(links, others, a, b); }
    }
  }

  /** A marking that is constant along every link is constant on every walk. */
  lemma {:induction false} MarkConstantOnWalk(links: set<Link>, mark: seq<nat>, walk: seq<nat>)
    requires forall l :: l in links ==> l.0 < |mark| && l.1 < |mark| && mark[l.0] == mark[l.1]
    requires IsWalk(links, walk) && walk[0] < |mark|
    ensures walk[|walk| - 1] < |mark| && mark[walk[0]] == mark[walk[|walk| - 1]]
    decreases |walk|
  {
    if |walk| > 1 {
      assert Step(links, walk[0], walk[0 + 1]);
      assert (walk[0], walk[1]) in links || (walk[1], walk[0]) in links;
      var rest := walk[1..];
      forall k | 0 <= k < |rest| - 1
        ensures Step(links, rest[k], rest[k + 1])
      {
        assert Step(links, walk[k + 1], walk[k + 1 + 1]);
      }
      MarkConstantOnWalk(links, mark, rest);
    }
  }

  lemma MarkConstantOnConnected(links: set<Link>, mark: seq<nat>, a: nat, b: nat)
    requires forall l :: l in links ==> l.0 < |mark| && l.1 < |mark| && mark[l.0] == mark[l.1]
    requires Connected(links, a, b) && a < |mark|
    ensures b < |mark| && mark[a] == mark[b]
  {
    var walk :| WalkBetween(links, walk, a, b);
    MarkConstantOnWalk(links, mark, walk);
  }
}
