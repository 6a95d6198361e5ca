/** Splitting of conversation pairs into test, development and knowledge-base sets of
    `app/rag_history.py`, keeping every thread on one side. */
module DatasetSplits {
  import opened Sorting
  import opened DatasetPacking

  datatype Pair = Pair(pairId: string, threadId: string, responseAt: int)

  datatype DatasetSplit = DatasetSplit(
    knowledgeBase: seq<Pair>, development: seq<Pair>, test: seq<Pair>, unused: seq<Pair>)

  type Groups = seq<seq<Pair>>

  predicate PairLe(a: Pair, b: Pair) {
    a.responseAt < b.responseAt || (a.responseAt == b.responseAt && StringLe(a.pairId, b.pairId))
  }

  lemma PairLeIsTotal()
    ensures TotalPreorder(PairLe)
  {
    forall x, y ensures PairLe(x, y) || PairLe(y, x) { StringLeTotal(x.pairId, y.pairId); }
    forall x, y, z | PairLe(x, y) && PairLe(y, z) ensures PairLe(x, z) {
      if x.responseAt == y.responseAt == z.responseAt { StringLeTransitive(x.pairId, y.pairId, z.pairId); }
    }
  }

  function SortedPairs(pairs: seq<Pair>): (sorted: seq<Pair>)
    ensures multiset(sorted) == multiset(pairs) && Sorted(sorted, PairLe) && |sorted| == |pairs|
  {
    PairLeIsTotal();
    Sort(pairs, PairLe)
  }

  /** The time of the latest response of a thread. */
  function Newest(group: seq<Pair>): int {
    if group == [] then 0
    else if |group| == 1 || group[0].responseAt > Newest(group[1..]) then group[0].responseAt
    else Newest(group[1..])
  }

  lemma {:induction false} NewestIsLatest(group: seq<Pair>)
    requires group != []
    ensures forall p :: p in group ==> p.responseAt <= Newest(group)
    ensures exists p :: p in group && p.responseAt == Newest(group)
  {
    assert group[0] in group;
    if |group| > 1 {
      NewestIsLatest(group[1..]);
      assert group == [group[0]] + group[1..];
      var p :| p in group[1..] && p.responseAt == Newest(group[1..]);
      assert p in group;
    }
  }

  predicate OlderGroup(a: seq<Pair>, b: seq<Pair>) {
    Newest(a) <= Newest(b)
  }

  // ----- Groups and their pairs -----

  function Flatten(groups: Groups): seq<Pair> {
    if groups == [] then [] else Flatten(groups[..|groups| - 1]) + groups[|groups| - 1]
  }

  function Sizes(groups: Groups): (sizes: seq<nat>)
    ensures |sizes| == |groups|
  {
    seq(|groups|, k requires 0 <= k < |groups| => |groups[k]|)
  }

  function Reverse(groups: Groups): (r: Groups)
    ensures |r| == |groups|
  {
    seq(|groups|, k requires 0 <= k < |groups| => groups[|groups| - 1 - k])
  }

  /** The groups whose index is (or, for `inside == false`, is not) chosen, in order. */
  function Filtered(groups: Groups, chosen: set<nat>, inside: bool): Groups {
    if groups == [] then []
    else
      var init, last := groups[..|groups| - 1], |groups| - 1;
      Filtered(init, chosen, inside) + (if (last in chosen) == inside then [groups[last]] else [])
  }

  /** Every group is one thread, no thread is in two groups, and no group is empty. */
  ghost predicate OneThreadEach(groups: Groups) {
    && (forall g :: 0 <= g < |groups| ==> groups[g] != [])
    && (forall g, p, q :: 0 <= g < |groups| && p in groups[g] && q in groups[g] ==> p.threadId == q.threadId)
    && (forall g, h, p, q :: 0 <= g < h < |groups| && p in groups[g] && q in groups[h] ==> p.threadId != q.threadId)
  }

  ghost predicate NoSharedThread(a: seq<Pair>, b: seq<Pair>) {
    forall p, q :: p in a && q in b ==> p.threadId != q.threadId
  }

  lemma {:induction false} FlattenMembers(groups: Groups, p: Pair)
    ensures p in Flatten(groups) <==> exists g :: 0 <= g < |groups| && p in groups[g]
  {
    if groups != [] {
      var init := groups[..|groups| - 1];
      FlattenMembers(init, p);
      if p in Flatten(init) {
        var g :| 0 <= g < |init| && p in init[g];
        assert p in groups[g];
      }
      if g :| 0 <= g < |groups| && p in groups[g] {
        if g < |init| { assert p in init[g]; }
      }
    }
  }

  lemma {:induction false} FlattenAppend(a: Groups, b: Groups)
    ensures Flatten(a + b) == Flatten(a) + Flatten(b)
    decreases |b|
  {
    if b == [] {
      assert a + b == a;
    } else {
      assert (a + b)[..|a + b| - 1] == a + b[..|b| - 1];
      FlattenAppend(a, b[..|b| - 1]);
    }
  }

  lemma FlattenSnoc(groups: Groups, last: seq<Pair>)
    ensures Flatten(groups + [last]) == Flatten(groups) + last
  {
    assert (groups + [last])[..|groups|] == groups;
  }

  /** Putting a group on either side keeps the pairs of both sides together. */
  lemma SidesGrow(side: Groups, other: Groups, whole: Groups, last: seq<Pair>)
    requires multiset(Flatten(side)) + multiset(Flatten(other)) == multiset(Flatten(whole))
    ensures multiset(Flatten(side + [last])) + multiset(Flatten(other)) == multiset(Flatten(whole + [last]))
  {
    FlattenSnoc(side, last);
    FlattenSnoc(whole, last);
    hide Flatten;
    var s, o, w := Flatten(side), Flatten(other), Flatten(whole);
    assert multiset(s + last) == multiset(s) + multiset(last);
    assert multiset(w + last) == multiset(w) + multiset(last);
  }

  lemma FilteredLast(groups: Groups, chosen: set<nat>, inside: bool)
    requires groups != []
    ensures var init := groups[..|groups| - 1];
      Filtered(groups, chosen, inside)
        == if (|groups| - 1 in chosen) == inside then Filtered(init, chosen, inside) + [groups[|groups| - 1]]
           else Filtered(init, chosen, inside)
  {
  }

  lemma FilteredKeepsPairsStep(groups: Groups, chosen: set<nat>)
    requires groups != []
    requires var init := groups[..|groups| - 1];
      multiset(Flatten(Filtered(init, chosen, true))) + multiset(Flatten(Filtered(init, chosen, false)))
        == multiset(Flatten(init))
    ensures multiset(Flatten(Filtered(groups, chosen, true))) + multiset(Flatten(Filtered(groups, chosen, false)))
      == multiset(Flatten(groups))
  {
    hide Flatten, Filtered;
    var init, last := groups[..|groups| - 1], groups[|groups| - 1];
    FilteredLast(groups, chosen, true);
    FilteredLast(groups, chosen, false);
    assert init + [last] == groups;
    if |groups| - 1 in chosen {
      SidesGrow(Filtered(init, chosen, true), Filtered(init, chosen, false), init, last);
    } else {
      SidesGrow(Filtered(init, chosen, false), Filtered(init, chosen, true), init, last);
    }
  }

  /** Taking and leaving loses no pair and invents none. */
  lemma {:induction false} FilteredKeepsPairs(groups: Groups, chosen: set<nat>)
    ensures multiset(Flatten(Filtered(groups, chosen, true))) + multiset(Flatten(Filtered(groups, chosen, false)))
      == multiset(Flatten(groups))
  {
    if groups != [] {
      FilteredKeepsPairs(groups[..|groups| - 1], chosen);
      FilteredKeepsPairsStep(groups, chosen);
    }
  }

  lemma {:induction false} FilteredMembers(groups: Groups, chosen: set<nat>, inside: bool, k: nat) returns (g: nat)
    requires k < |Filtered(groups, chosen, inside)|
    ensures g < |groups| && (g in chosen) == inside && groups[g] == Filtered(groups, chosen, inside)[k]
  {
    var init := groups[..|groups| - 1];
    if k < |Filtered(init, chosen, inside)| {
      g := FilteredMembers(init, chosen, inside, k);
    } else {
      g := |groups| - 1;
    }
  }

  lemma KeptThreadsApart(groups: Groups, chosen: set<nat>, inside: bool, kept: Groups)
    requires OneThreadEach(groups) && groups != []
    requires kept == Filtered(groups[..|groups| - 1], chosen, inside)
    ensures forall g :: 0 <= g < |kept| ==> NoSharedThread(kept[g], groups[|groups| - 1])
  {
    var init, last := groups[..|groups| - 1], |groups| - 1;
    forall g: nat, p: Pair, q: Pair | g < |kept| && p in kept[g] && q in groups[last]
      ensures p.threadId != q.threadId
    {
      var at := FilteredMembers(init, chosen, inside, g);
      assert p in groups[at];
    }
  }

  lemma {:induction false} FilteredKeepsThreads(groups: Groups, chosen: set<nat>, inside: bool)
    requires OneThreadEach(groups)
    ensures OneThreadEach(Filtered(groups, chosen, inside))
  {
    if groups != [] {
      var init, last := groups[..|groups| - 1], |groups| - 1;
      FilteredKeepsThreads(init, chosen, inside);
      FilteredLast(groups, chosen, inside);
      KeptThreadsApart(groups, chosen, inside, Filtered(init, chosen, inside));
      hide Filtered;
    }
  }

  lemma FilteredSidesShareNothing(groups: Groups, chosen: set<nat>)
    requires OneThreadEach(groups)
    ensures NoSharedThread(Flatten(Filtered(groups, chosen, true)), Flatten(Filtered(groups, chosen, false)))
  {
    var taken, left := Filtered(groups, chosen, true), Filtered(groups, chosen, false);
    forall p: Pair, q: Pair | p in Flatten(taken) && q in Flatten(left)
      ensures p.threadId != q.threadId
    {
      FlattenMembers(taken, p);
      FlattenMembers(left, q);
      var i :| 0 <= i < |taken| && p in taken[i];
      var j :| 0 <= j < |left| && q in left[j];
      var g := FilteredMembers(groups, chosen, true, i);
      var h := FilteredMembers(groups, chosen, false, j);
      assert p in groups[g] && q in groups[h] && g != h;
    }
  }

  lemma ReverseKeepsThreads(groups: Groups)
    requires OneThreadEach(groups)
    ensures OneThreadEach(Reverse(groups))
  {
  }

  lemma {:induction false} ReverseKeepsPairs(groups: Groups)
    ensures multiset(Flatten(Reverse(groups))) == multiset(Flatten(groups))
  {
    if groups != [] {
      var init, last := groups[..|groups| - 1], groups[|groups| - 1];
      ReverseKeepsPairs(init);
      assert Reverse(groups) == [last] + Reverse(init);
      FlattenAppend([last], Reverse(init));
      FlattenSnoc([], last);
      assert [] + [last] == [last];
    }
  }

  /** The pairs taken are as many as the chosen total. */
  lemma {:induction false} FilteredTotal(groups: Groups, selection: Selection, n: nat)
    requires n <= |groups| && IsSelection(selection, n)
    ensures |Flatten(Filtered(groups[..n], Indices(selection), true))| == Total(Sizes(groups), selection)
    decreases n
  {
    if n > 0 {
      var some, init := groups[..n], groups[..n - 1];
      assert some[..n - 1] == init && some[n - 1] == groups[n - 1];
      FilteredLast(some, Indices(selection), true);
      if selection.Add? && selection.group == n - 1 {
        FilteredTotal(groups, selection.earlier, n - 1);
        SelectionBound(selection.earlier, n - 1);
        FilteredIgnores(init, Indices(selection.earlier), Indices(selection));
        FlattenSnoc(Filtered(init, Indices(selection), true), groups[n - 1]);
      } else {
        FilteredTotal(groups, selection, n - 1);
        SelectionBound(selection, n - 1);
      }
      hide Flatten, Filtered;
    }
  }

  lemma {:induction false} FilteredIgnores(groups: Groups, a: set<nat>, b: set<nat>)
    requires forall g: nat :: g < |groups| ==> (g in a <==> g in b)
    ensures Filtered(groups, a, true) == Filtered(groups, b, true)
  {
    if groups != [] {
      FilteredIgnores(groups[..|groups| - 1], a, b);
    }
  }

  // ----- Taking groups for one split -----

  /** What one call takes and leaves: nothing is lost, threads stay whole, the number of pairs
      taken is the best packing of the group sizes, newest group first, and the groups left
      keep their order. */
  ghost predicate Takes(groups: Groups, target: int, selected: seq<Pair>, remaining: Groups) {
    && multiset(selected) + multiset(Flatten(remaining)) == multiset(Flatten(groups))
    && OneThreadEach(remaining)
    && NoSharedThread(selected, Flatten(remaining))
    && Sorted(selected, PairLe)
    && (groups == [] || target <= 0 ==> selected == [] && remaining == groups)
    && (groups != [] && target > 0 ==>
          exists chosen :: PackedBy(groups, target, selected, remaining, chosen))
  }

  ghost predicate PackedBy(groups: Groups, target: nat, selected: seq<Pair>, remaining: Groups, chosen: Selection) {
    var sizes := Sizes(Reverse(groups));
    && IsBestPacking(sizes, target, chosen)
    && |selected| == Total(sizes, chosen)
    && multiset(selected) == multiset(Flatten(Filtered(Reverse(groups), Indices(chosen), true)))
    && remaining == Reverse(Filtered(Reverse(groups), Indices(chosen), false))
  }

  method TakeRecencyBiasedGroups(groups: Groups, target: int) returns (selected: seq<Pair>, remaining: Groups)
    requires OneThreadEach(groups)
    ensures Takes(groups, target, selected, remaining) && OneThreadEach(remaining)
  {
    if groups == [] || target <= 0 {
      return [], groups;
    }
    var newestFirst := Reverse(groups);
    var chosen := ChooseGroups(Sizes(newestFirst), target);
    var chosenIndices := Indices(chosen);
    var taken := Filtered(newestFirst, chosenIndices, true);
    var left := Filtered(newestFirst, chosenIndices, false);
    selected := SortedPairs(Flatten(taken));
    remaining := Reverse(left);
    TakingProof(groups, target, chosen, selected);
  }

  lemma TakingProof(groups: Groups, target: nat, chosen: Selection, selected: seq<Pair>)
    requires OneThreadEach(groups) && groups != [] && target > 0
    requires IsBestPacking(Sizes(Reverse(groups)), target, chosen)
    requires multiset(selected) == multiset(Flatten(Filtered(Reverse(groups), Indices(chosen), true)))
    requires |selected| == |Flatten(Filtered(Reverse(groups), Indices(chosen), true))| && Sorted(selected, PairLe)
    ensures Takes(groups, target, selected, Reverse(Filtered(Reverse(groups), Indices(chosen), false)))
  {
    hide OneThreadEach, NoSharedThread, Filtered, Flatten, Total, Sorted;
    var newestFirst, indices := Reverse(groups), Indices(chosen);
    var taken, left := Filtered(newestFirst, indices, true), Filtered(newestFirst, indices, false);
    ReverseKeepsThreads(groups);
    ReverseKeepsPairs(groups);
    FilteredKeepsPairs(newestFirst, indices);
    FilteredKeepsThreads(newestFirst, indices, false);
    ReverseKeepsThreads(left);
    ReverseKeepsPairs(left);
    FilteredSidesShareNothing(newestFirst, indices);
    SamePairsShareNothing(Flatten(taken), selected, Flatten(left), Flatten(Reverse(left)));
    assert newestFirst[..|newestFirst|] == newestFirst;
    FilteredTotal(newestFirst, chosen, |newestFirst|);
    assert PackedBy(groups, target, selected, Reverse(left), chosen);
  }

  lemma {:induction false} FilteredAll(groups: Groups, chosen: set<nat>)
    requires forall g: nat :: g < |groups| ==> g in chosen
    ensures Filtered(groups, chosen, true) == groups
  {
    if groups != [] { FilteredAll(groups[..|groups| - 1], chosen); }
  }

  /** A split misses its target only when the threads run out, and then it takes them all. */
  lemma TakeReachesTarget(groups: Groups, target: nat, selected: seq<Pair>, remaining: Groups)
    requires OneThreadEach(groups) && groups != [] && target > 0
    requires Takes(groups, target, selected, remaining)
    ensures |selected| >= target <==> |Flatten(groups)| >= target
    ensures |selected| < target ==> multiset(selected) == multiset(Flatten(groups)) && Flatten(remaining) == []
  {
    hide OneThreadEach, NoSharedThread, Filtered, Flatten, Total;
    var newestFirst := Reverse(groups);
    var sizes, all := Sizes(newestFirst), Everything(|newestFirst|);
    var chosen :| PackedBy(groups, target, selected, remaining, chosen);
    EverythingSelects(|newestFirst|);
    assert newestFirst[..|newestFirst|] == newestFirst;
    FilteredTotal(newestFirst, all, |newestFirst|);
    FilteredAll(newestFirst, Indices(all));
    ReverseKeepsPairs(groups);
    assert |multiset(Flatten(newestFirst))| == |multiset(Flatten(groups))|;
    assert Total(sizes, all) == |Flatten(groups)|;
    assert |multiset(selected)| + |multiset(Flatten(remaining))| == |multiset(Flatten(groups))|;
    EverythingIsMost(groups, sizes, target);
    assert |selected| < target || |Flatten(groups)| < target ==> chosen == all;
    if |Flatten(remaining)| == 0 { assert Flatten(remaining) == []; }
  }

  lemma EverythingIsMost(groups: Groups, sizes: seq<nat>, target: nat)
    requires OneThreadEach(groups) && sizes == Sizes(Reverse(groups))
    ensures Reachable(sizes, target) <==> Total(sizes, Everything(|sizes|)) >= target
  {
    EverythingSelects(|sizes|);
    forall s | IsSelection(s, |sizes|)
      ensures Total(sizes, s) <= Total(sizes, Everything(|sizes|))
    {
      TotalBelowEverything(sizes, s, |sizes|);
    }
  }

  lemma SamePairsShareNothing(a: seq<Pair>, a': seq<Pair>, b: seq<Pair>, b': seq<Pair>)
    requires NoSharedThread(a, b) && multiset(a) == multiset(a') && multiset(b) == multiset(b')
    ensures NoSharedThread(a', b')
  {
    forall p, q | p in a' && q in b'
      ensures p.threadId != q.threadId
    {
      assert p in multiset(a) && q in multiset(b);
    }
  }

  // ----- Grouping and ordering threads -----

  lemma {:induction false} FlattenUpdate(groups: Groups, g: nat, p: Pair)
    requires g < |groups|
    ensures multiset(Flatten(groups[g := groups[g] + [p]])) == multiset(Flatten(groups)) + multiset{p}
    decreases |groups|
  {
    var next, init, last := groups[g := groups[g] + [p]], groups[..|groups| - 1], groups[|groups| - 1];
    if g == |groups| - 1 {
      assert next[..|next| - 1] == init;
      assert Flatten(next) == Flatten(init) + (last + [p]);
    } else {
      assert next[..|next| - 1] == init[g := init[g] + [p]];
      FlattenUpdate(init, g, p);
    }
  }

  ghost predicate Slotted(groups: Groups, slots: map<string, nat>) {
    && (forall g :: 0 <= g < |groups| ==> groups[g] != [])
    && (forall t :: t in slots ==> slots[t] < |groups|)
    && (forall g, p :: 0 <= g < |groups| && p in groups[g] ==> p.threadId in slots && slots[p.threadId] == g)
    && (forall t, u :: t in slots && u in slots && slots[t] == slots[u] ==> t == u)
  }

  lemma SlottedStart()
    ensures Slotted([], map[]) && Flatten([]) == []
  {
  }

  lemma SlottedUpdate(groups: Groups, slots: map<string, nat>, p: Pair)
    requires Slotted(groups, slots) && p.threadId in slots
    ensures slots[p.threadId] < |groups|
    ensures Slotted(groups[slots[p.threadId] := groups[slots[p.threadId]] + [p]], slots)
  {
  }

  lemma SlottedNew(groups: Groups, slots: map<string, nat>, p: Pair)
    requires Slotted(groups, slots) && p.threadId !in slots
    ensures Slotted(groups + [[p]], slots[p.threadId := |groups|])
  {
  }

  lemma SlottedSeparates(groups: Groups, slots: map<string, nat>)
    requires Slotted(groups, slots)
    ensures OneThreadEach(groups)
  {
  }

  /** Groups in order of first appearance; `slots` is the dictionary from thread to group. */
  method GroupByThread(pairs: seq<Pair>) returns (groups: Groups)
    ensures OneThreadEach(groups)
    ensures multiset(Flatten(groups)) == multiset(pairs)
  {
    hide Slotted, Flatten, OneThreadEach;
    groups := [];
    var slots: map<string, nat> := map[];
    SlottedStart();
    for k := 0 to |pairs|
      invariant Slotted(groups, slots)
      invariant multiset(Flatten(groups)) == multiset(pairs[..k])
    {
      var pair := pairs[k];
      assert pairs[..k + 1] == pairs[..k] + [pair];
      if pair.threadId in slots {
        var g := slots[pair.threadId];
        SlottedUpdate(groups, slots, pair);
        FlattenUpdate(groups, g, pair);
        groups := groups[g := groups[g] + [pair]];
      } else {
        FlattenSnoc(groups, [pair]);
        SlottedNew(groups, slots, pair);
        slots := slots[pair.threadId := |groups|];
        groups := groups + [[pair]];
      }
    }
    assert pairs[..|pairs|] == pairs;
    SlottedSeparates(groups, slots);
  }

  lemma {:induction false} SortingKeepsPairs(groups: Groups)
    requires TotalPreorder(OlderGroup)
    ensures multiset(Flatten(Sort(groups, OlderGroup))) == multiset(Flatten(groups))
    decreases |groups|
  {
    if groups != [] {
      var x, rest := groups[0], groups[1..];
      assert groups == [x] + rest;
      SortingKeepsPairs(rest);
      var sorted := Sort(rest, OlderGroup);
      var k := InsertPosition(x, sorted, OlderGroup);
      assert sorted == sorted[..k] + sorted[k..];
      hide TotalPreorder, Sorted;
      FlattenAppend([x], rest);
      FlattenAppend(sorted[..k], [x]);
      FlattenAppend(sorted[..k] + [x], sorted[k..]);
      FlattenAppend(sorted[..k], sorted[k..]);
      FlattenSnoc([], x);
      assert [] + [x] == [x];
    }
  }

  lemma {:induction false} SortingKeepsThreads(groups: Groups)
    requires TotalPreorder(OlderGroup) && OneThreadEach(groups)
    ensures OneThreadEach(Sort(groups, OlderGroup))
    decreases |groups|
  {
    if groups != [] {
      var x, rest := groups[0], groups[1..];
      SortingKeepsThreads(rest);
      var sorted := Sort(rest, OlderGroup);
      var k := InsertPosition(x, sorted, OlderGroup);
      SortKeepsMembers(rest, OlderGroup);
      hide TotalPreorder, Sorted;
      forall h: nat, p: Pair, q: Pair | h < |sorted| && p in x && q in sorted[h]
        ensures p.threadId != q.threadId
      {
        assert sorted[h] in rest;
        var j :| 0 <= j < |rest| && rest[j] == sorted[h];
        assert groups[j + 1] == rest[j];
      }
      OpenedGap(x, sorted, k);
    }
  }

  lemma OpenedGap(x: seq<Pair>, sorted: Groups, k: nat)
    requires OneThreadEach(sorted) && k <= |sorted| && x != []
    requires forall p, q :: p in x && q in x ==> p.threadId == q.threadId
    requires forall h, p, q :: 0 <= h < |sorted| && p in x && q in sorted[h] ==> p.threadId != q.threadId
    ensures OneThreadEach(sorted[..k] + [x] + sorted[k..])
  {
  }

  function OrderGroups(groups: Groups): (ordered: Groups)
    requires OneThreadEach(groups)
    ensures OneThreadEach(ordered) && multiset(Flatten(ordered)) == multiset(Flatten(groups))
    ensures Sorted(ordered, OlderGroup)
  {
    SortingKeepsPairs(groups);
    SortingKeepsThreads(groups);
    Sort(groups, OlderGroup)
  }

  // ----- Recency -----

  ghost predicate NewestFirst(groups: Groups) {
    forall i, j :: 0 <= i < j < |groups| ==> OlderGroup(groups[j], groups[i])
  }

  lemma {:induction false} FilteredKeepsOrder(groups: Groups, chosen: set<nat>, inside: bool)
    requires NewestFirst(groups)
    ensures NewestFirst(Filtered(groups, chosen, inside))
  {
    if groups != [] {
      var init, last := groups[..|groups| - 1], groups[|groups| - 1];
      FilteredKeepsOrder(init, chosen, inside);
      var kept := Filtered(init, chosen, inside);
      forall k | 0 <= k < |kept| ensures OlderGroup(last, kept[k]) {
        var g := FilteredMembers(init, chosen, inside, k);
      }
    }
  }

  lemma ReverseTurnsOrder(groups: Groups)
    ensures Sorted(groups, OlderGroup) ==> NewestFirst(Reverse(groups))
    ensures NewestFirst(groups) ==> Sorted(Reverse(groups), OlderGroup)
  {
  }

  /** What is left for the later splits is still ordered by newest response. */
  lemma RestStaysOrdered(groups: Groups, target: int, selected: seq<Pair>, remaining: Groups)
    requires Takes(groups, target, selected, remaining) && Sorted(groups, OlderGroup)
    ensures Sorted(remaining, OlderGroup)
  {
    if groups != [] && target > 0 {
      hide IsBestPacking, Flatten, Filtered, OneThreadEach, NoSharedThread, Total, Sorted, NewestFirst, Reverse, Sizes;
      var chosen :| PackedBy(groups, target, selected, remaining, chosen);
      ReverseTurnsOrder(groups);
      FilteredKeepsOrder(Reverse(groups), Indices(chosen), false);
      ReverseTurnsOrder(Filtered(Reverse(groups), Indices(chosen), false));
    }
  }

  /** The number of pairs in the groups of the given threads. */
  function PairsOf(groups: Groups, threads: set<string>): nat {
    if groups == [] then 0
    else
      var last := groups[|groups| - 1];
      PairsOf(groups[..|groups| - 1], threads) + (if Within(last, threads) then |last| else 0)
  }

  predicate Within(group: seq<Pair>, threads: set<string>) {
    group != [] && group[0].threadId in threads
  }

  /** The selection of the groups of the given threads. */
  function SelectionOf(groups: Groups, threads: set<string>): Selection {
    if groups == [] then Empty
    else
      var init, last := groups[..|groups| - 1], groups[|groups| - 1];
      if Within(last, threads) then Add(SelectionOf(init, threads), |init|) else SelectionOf(init, threads)
  }

  lemma {:induction false} TotalIgnoresLater(sizes: seq<nat>, more: seq<nat>, s: Selection)
    requires IsSelection(s, |sizes|) && sizes <= more
    ensures Total(more, s) == Total(sizes, s)
  {
    if s.Add? {
      Widen(s.earlier, s.group, |sizes|);
      TotalIgnoresLater(sizes, more, s.earlier);
    }
  }

  lemma {:induction false} SelectionOfThreads(groups: Groups, threads: set<string>)
    ensures var s := SelectionOf(groups, threads);
      IsSelection(s, |groups|) && Total(Sizes(groups), s) == PairsOf(groups, threads)
      && (s.Add? ==> s.group < |groups| && Within(groups[s.group], threads))
  {
    if groups != [] {
      var init := groups[..|groups| - 1];
      SelectionOfThreads(init, threads);
      Widen(SelectionOf(init, threads), |init|, |groups|);
      TotalIgnoresLater(Sizes(init), Sizes(groups), SelectionOf(init, threads));
    }
  }

  lemma {:induction false} PairsOfAppend(a: Groups, b: Groups, threads: set<string>)
    ensures PairsOf(a + b, threads) == PairsOf(a, threads) + PairsOf(b, threads)
    decreases |b|
  {
    if b == [] {
      assert a + b == a;
    } else {
      assert (a + b)[..|a + b| - 1] == a + b[..|b| - 1];
      PairsOfAppend(a, b[..|b| - 1], threads);
    }
  }

  lemma {:induction false} PairsOfReversed(groups: Groups, threads: set<string>)
    ensures PairsOf(Reverse(groups), threads) == PairsOf(groups, threads)
  {
    if groups != [] {
      var init, last := groups[..|groups| - 1], groups[|groups| - 1];
      PairsOfReversed(init, threads);
      assert Reverse(groups) == [last] + Reverse(init);
      PairsOfAppend([last], Reverse(init), threads);
      assert [last][..0] == [];
    }
  }

  /** Every response of the first thread has one of the second that is no earlier. */
  ghost predicate NotNewer(a: seq<Pair>, b: seq<Pair>) {
    forall p :: p in a ==> exists q :: q in b && p.responseAt <= q.responseAt
  }

  lemma OlderIsNotNewer(a: seq<Pair>, b: seq<Pair>)
    requires b != [] && OlderGroup(a, b)
    ensures NotNewer(a, b)
  {
    NewestIsLatest(b);
    if a != [] { NewestIsLatest(a); }
    hide Newest;
  }

  /** The given threads include one no newer than any thread that was picked. */
  ghost predicate NoneNewer(groups: Groups, selected: seq<Pair>, threads: set<string>) {
    forall g, p :: 0 <= g < |groups| && p in groups[g] && p in selected ==>
      exists h :: 0 <= h < |groups| && Within(groups[h], threads) && NotNewer(groups[h], groups[g])
  }

  /** No threads give fewer pairs that still reach the target, and no threads with equally many
      pairs are all newer than the oldest thread picked. */
  ghost predicate IsBestPick(groups: Groups, target: int, selected: seq<Pair>) {
    forall threads :: BeatsNot(groups, target, selected, threads)
  }

  ghost predicate BeatsNot(groups: Groups, target: int, selected: seq<Pair>, threads: set<string>) {
    && (PairsOf(groups, threads) >= target ==> |selected| <= PairsOf(groups, threads))
    && (PairsOf(groups, threads) == |selected| ==> NoneNewer(groups, selected, threads))
  }

  lemma {:induction false} IndicesUpToOldest(s: Selection, count: nat, g: nat)
    requires IsSelection(s, count) && g in Indices(s)
    ensures g <= Oldest(s)
  {
    if g != s.group { SelectionBound(s.earlier, s.group); }
  }

  lemma PickedIsChosen(groups: Groups, target: nat, selected: seq<Pair>, remaining: Groups, chosen: Selection,
      g: nat, p: Pair)
    requires OneThreadEach(groups) && PackedBy(groups, target, selected, remaining, chosen)
    requires g < |groups| && p in groups[g] && p in selected
    ensures |groups| - 1 - g in Indices(chosen)
  {
    hide Filtered, Flatten, IsBestPacking;
    var newestFirst := Reverse(groups);
    var taken := Filtered(newestFirst, Indices(chosen), true);
    assert p in multiset(Flatten(taken));
    FlattenMembers(taken, p);
    var k :| 0 <= k < |taken| && p in taken[k];
    var at := FilteredMembers(newestFirst, Indices(chosen), true, k);
    assert newestFirst[at] == groups[|groups| - 1 - at];
  }

  /** A best packing is no older than any other selection with its total. */
  lemma BestIsNewest(groups: Groups, target: nat, chosen: Selection, s: Selection)
    requires OneThreadEach(groups)
    requires var sizes := Sizes(Reverse(groups));
      IsBestPacking(sizes, target, chosen) && IsSelection(s, |sizes|) && Total(sizes, s) == Total(sizes, chosen)
    ensures Oldest(chosen) <= Oldest(s)
  {
    var sizes := Sizes(Reverse(groups));
    if !Reachable(sizes, target) {
      TotalBelowEverything(sizes, s, |sizes|);
    }
  }

  lemma PackedIsNewest(groups: Groups, target: nat, selected: seq<Pair>, remaining: Groups, chosen: Selection,
      threads: set<string>)
    requires OneThreadEach(groups) && Sorted(groups, OlderGroup)
    requires PackedBy(groups, target, selected, remaining, chosen)
    ensures BeatsNot(groups, target, selected, threads)
  {
    var newestFirst := Reverse(groups);
    var sizes, s := Sizes(newestFirst), SelectionOf(newestFirst, threads);
    SelectionOfThreads(newestFirst, threads);
    PairsOfReversed(groups, threads);
    hide Filtered, Flatten, PairsOf, SelectionOf, Total, OneThreadEach;
    if PairsOf(groups, threads) >= target {
      assert Reachable(sizes, target);
    }
    if PairsOf(groups, threads) == |selected| {
      BestIsNewest(groups, target, chosen, s);
      hide IsBestPacking, IsSelection;
      forall g: nat, p: Pair | g < |groups| && p in groups[g] && p in selected
        ensures exists h :: 0 <= h < |groups| && Within(groups[h], threads) && NotNewer(groups[h], groups[g])
      {
        PickedIsChosen(groups, target, selected, remaining, chosen, g, p);
        IndicesUpToOldest(chosen, |sizes|, |groups| - 1 - g);
        var h := |groups| - 1 - s.group;
        assert groups[h] == newestFirst[s.group];
        assert OlderGroup(groups[h], groups[g]);
        OlderIsNotNewer(groups[h], groups[g]);
      }
    }
  }

  /** What one call takes is as few pairs as reach the target, from threads as new as that
      number of pairs allows. */
  lemma TakesTheNewest(groups: Groups, target: int, selected: seq<Pair>, remaining: Groups)
    requires OneThreadEach(groups) && Sorted(groups, OlderGroup)
    requires Takes(groups, target, selected, remaining)
    ensures IsBestPick(groups, target, selected)
  {
    hide OneThreadEach, Sorted, PackedBy, Flatten, NoSharedThread;
    forall threads: set<string>
      ensures BeatsNot(groups, target, selected, threads)
    {
      if groups != [] && target > 0 {
        var chosen :| PackedBy(groups, target, selected, remaining, chosen);
        PackedIsNewest(groups, target, selected, remaining, chosen, threads);
      }
    }
  }

  // ----- The split -----

  /** The Python slice `pairs[-count:]`, which keeps everything when `count` is zero. */
  function NewestSlice(pairs: seq<Pair>, count: int): seq<Pair> {
    if count > 0 then (if count >= |pairs| then pairs else pairs[|pairs| - count..])
    else if -count >= |pairs| then []
    else pairs[-count..]
  }

  /** Earlier, or at the same time and not behind in the order of ids. */
  predicate NotLater(p: Pair, q: Pair) {
    p.responseAt <= q.responseAt && (p.responseAt == q.responseAt ==> StringLe(p.pairId, q.pairId))
  }

  /** As many pairs as a total target asks for, as far as there are any, and none left out is later than one of
      them. A target of zero keeps all pairs, and one below it drops as many of the oldest. */
  ghost predicate AreNewest(pairs: multiset<Pair>, candidates: multiset<Pair>, total: int) {
    && candidates <= pairs
    && (total > 0 ==> |candidates| == if total <= |pairs| then total else |pairs|)
    && (total <= 0 ==> |candidates| == if -total <= |pairs| then |pairs| + total else 0)
    && forall p, q :: p in candidates && q in pairs - candidates ==> NotLater(q, p)
  }

  lemma SliceIsLater(pairs: seq<Pair>, cut: nat, p: Pair, q: Pair)
    requires Sorted(pairs, PairLe) && cut <= |pairs| && p in pairs[cut..] && q in pairs[..cut]
    ensures NotLater(q, p)
  {
    hide StringLe;
    var i :| 0 <= i < |pairs| - cut && pairs[cut..][i] == p;
    var j :| 0 <= j < cut && pairs[..cut][j] == q;
    assert PairLe(pairs[j], pairs[cut + i]);
  }

  lemma SliceIsNewest(pairs: seq<Pair>, count: int)
    requires Sorted(pairs, PairLe)
    ensures AreNewest(multiset(pairs), multiset(NewestSlice(pairs, count)), count)
  {
    var slice := NewestSlice(pairs, count);
    var cut := |pairs| - |slice|;
    assert slice == pairs[cut..];
    hide Sorted, NotLater, StringLe;
    assert pairs == pairs[..cut] + pairs[cut..];
    assert multiset(pairs) == multiset(pairs[..cut]) + multiset(slice);
    assert multiset(pairs) - multiset(slice) == multiset(pairs[..cut]);
    assert |multiset(pairs)| == |pairs| && |multiset(slice)| == |slice|;
    forall p, q | p in multiset(slice) && q in multiset(pairs[..cut])
      ensures NotLater(q, p)
    {
      SliceIsLater(pairs, cut, p, q);
    }
  }

  function WithoutIds(pairs: seq<Pair>, ids: set<string>): seq<Pair> {
    if pairs == [] then []
    else (if pairs[0].pairId in ids then [] else [pairs[0]]) + WithoutIds(pairs[1..], ids)
  }

  ghost predicate DistinctIds(pairs: seq<Pair>) {
    forall i, j :: 0 <= i < j < |pairs| ==> pairs[i].pairId != pairs[j].pairId
  }

  ghost predicate OwnIds(pairs: multiset<Pair>) {
    forall p :: p in pairs ==> pairs[p] == 1 && forall q :: q in pairs && q.pairId == p.pairId ==> q == p
  }

  lemma DistinctIdsAreOwn(pairs: seq<Pair>)
    requires DistinctIds(pairs)
    ensures OwnIds(multiset(pairs))
  {
    DistinctIsMultiplicityOne(pairs);
    forall p | p in multiset(pairs)
      ensures multiset(pairs)[p] == 1
      ensures forall q :: q in multiset(pairs) && q.pairId == p.pairId ==> q == p
    {
      assert p in pairs;
      forall q | q in multiset(pairs) && q.pairId == p.pairId ensures q == p {
        assert q in pairs;
      }
    }
  }

  lemma {:induction false} WithoutCount(pairs: seq<Pair>, ids: set<string>, p: Pair)
    ensures multiset(WithoutIds(pairs, ids))[p] == if p.pairId in ids then 0 else multiset(pairs)[p]
  {
    if pairs != [] {
      WithoutCount(pairs[1..], ids, p);
      assert pairs == [pairs[0]] + pairs[1..];
    }
  }

  /** With distinct ids, dropping the selected ids leaves exactly the unselected pairs. */
  lemma WithoutIsComplement(pairs: seq<Pair>, selected: multiset<Pair>, ids: set<string>)
    requires OwnIds(multiset(pairs)) && selected <= multiset(pairs)
    requires forall i :: i in ids <==> exists p :: p in selected && p.pairId == i
    ensures selected + multiset(WithoutIds(pairs, ids)) == multiset(pairs)
  {
    forall p: Pair
      ensures selected[p] + multiset(WithoutIds(pairs, ids))[p] == multiset(pairs)[p]
    {
      WithoutCount(pairs, ids, p);
      if p in multiset(pairs) {
        if p.pairId in ids {
          var q :| q in selected && q.pairId == p.pairId;
          assert q in multiset(pairs);
        } else {
          assert p !in selected;
        }
      }
    }
  }

  function DesiredTest(candidates: nat, knowledgeBaseTarget: int, developmentTarget: int, testMinimum: int,
      testMaximum: int): int {
    var rest := candidates - knowledgeBaseTarget - developmentTarget;
    var atLeast := if rest > testMinimum then rest else testMinimum;
    if atLeast < testMaximum then atLeast else testMaximum
  }

  /** What the other two splits leave of the candidates, but at least the minimum and at most the maximum. */
  ghost predicate IsTestTarget(target: int, rest: int, testMinimum: int, testMaximum: int) {
    if rest >= testMaximum || testMinimum >= testMaximum then target == testMaximum
    else target >= rest && target >= testMinimum && (target == rest || target == testMinimum)
  }

  lemma DesiredIsTarget(candidates: nat, knowledgeBaseTarget: int, developmentTarget: int, testMinimum: int,
      testMaximum: int)
    ensures IsTestTarget(DesiredTest(candidates, knowledgeBaseTarget, developmentTarget, testMinimum, testMaximum),
      candidates - knowledgeBaseTarget - developmentTarget, testMinimum, testMaximum)
  {
  }

  /** The three splits come from one run of packings over whole threads. */
  ghost predicate SplitBy(groups: Groups, split: DatasetSplit, testTarget: int, developmentTarget: int,
      knowledgeBaseTarget: int, afterTest: Groups, afterDevelopment: Groups, afterAll: Groups) {
    && Takes(groups, testTarget, split.test, afterTest)
    && Takes(afterTest, developmentTarget, split.development, afterDevelopment)
    && Takes(afterDevelopment, knowledgeBaseTarget, split.knowledgeBase, afterAll)
  }

  ghost predicate ThreadDisjoint(split: DatasetSplit) {
    && NoSharedThread(split.test, split.development)
    && NoSharedThread(split.test, split.knowledgeBase)
    && NoSharedThread(split.development, split.knowledgeBase)
  }

  lemma SplitsAreDisjoint(groups: Groups, split: DatasetSplit, testTarget: int, developmentTarget: int,
      knowledgeBaseTarget: int, afterTest: Groups, afterDevelopment: Groups, afterAll: Groups)
    requires SplitBy(groups, split, testTarget, developmentTarget, knowledgeBaseTarget, afterTest, afterDevelopment,
      afterAll)
    ensures ThreadDisjoint(split)
    ensures multiset(split.knowledgeBase) + multiset(split.development) + multiset(split.test)
      <= multiset(Flatten(groups))
  {
    hide OneThreadEach, PackedBy, Flatten;
    forall p, q | p in split.test && (q in split.development || q in split.knowledgeBase)
      ensures p.threadId != q.threadId
    {
      assert q in multiset(Flatten(afterTest));
    }
    forall p, q | p in split.development && q in split.knowledgeBase
      ensures p.threadId != q.threadId
    {
      assert q in multiset(Flatten(afterDevelopment));
    }
  }

  /** Test first, then development, then the knowledge base, each from what is left. */
  method SplitGroups(groups: Groups, testTarget: int, developmentTarget: int, knowledgeBaseTarget: int)
      returns (split: DatasetSplit, ghost afterTest: Groups, ghost afterDevelopment: Groups, ghost afterAll: Groups)
    requires OneThreadEach(groups)
    ensures SplitBy(groups, split, testTarget, developmentTarget, knowledgeBaseTarget, afterTest, afterDevelopment,
      afterAll)
    ensures split.unused == []
  {
    hide OneThreadEach, Takes, Sorted;
    var test, remaining := TakeRecencyBiasedGroups(groups, testTarget);
    afterTest := remaining;
    var development;
    development, remaining := TakeRecencyBiasedGroups(remaining, developmentTarget);
    afterDevelopment := remaining;
    var knowledgeBase;
    knowledgeBase, remaining := TakeRecencyBiasedGroups(remaining, knowledgeBaseTarget);
    afterAll := remaining;
    split := DatasetSplit(knowledgeBase, development, test, []);
  }

  function SelectedIds(split: DatasetSplit): set<string> {
    set p: Pair | p in split.knowledgeBase + split.development + split.test :: p.pairId
  }

  ghost predicate SplitOf(pairs: seq<Pair>, split: DatasetSplit, knowledgeBaseTarget: int, developmentTarget: int,
      testMinimum: int, testMaximum: int, desiredTest: int,
      groups: Groups, afterTest: Groups, afterDevelopment: Groups, afterAll: Groups) {
    var candidates := multiset(Flatten(groups));
    && OneThreadEach(groups)
    && AreNewest(multiset(pairs), candidates, knowledgeBaseTarget + developmentTarget + testMaximum)
    && IsTestTarget(desiredTest, |candidates| - knowledgeBaseTarget - developmentTarget, testMinimum, testMaximum)
    && Sorted(groups, OlderGroup) && Sorted(afterTest, OlderGroup) && Sorted(afterDevelopment, OlderGroup)
    && SplitBy(groups, split, desiredTest, developmentTarget, knowledgeBaseTarget, afterTest, afterDevelopment,
               afterAll)
  }

  method SplitConversationPairs(pairs: seq<Pair>, knowledgeBaseTarget: int, developmentTarget: int,
      testMinimum: int, testMaximum: int)
      returns (split: DatasetSplit, ghost desired: int, ghost groups: Groups,
        ghost afterTest: Groups, ghost afterDevelopment: Groups, ghost afterAll: Groups)
    ensures ThreadDisjoint(split)
    ensures DistinctIds(pairs) ==>
      multiset(split.knowledgeBase) + multiset(split.development) + multiset(split.test) + multiset(split.unused)
        == multiset(pairs)
    ensures pairs != [] ==>
      SplitOf(pairs, split, knowledgeBaseTarget, developmentTarget, testMinimum, testMaximum, desired,
        groups, afterTest, afterDevelopment, afterAll)
  {
    desired := 0;
    groups, afterTest, afterDevelopment, afterAll := [], [], [], [];
    var allPairs := SortedPairs(pairs);
    if allPairs == [] {
      return DatasetSplit([], [], [], []), 0, [], [], [], [];
    }
    SliceIsNewest(allPairs, knowledgeBaseTarget + developmentTarget + testMaximum);
    hide OneThreadEach, Takes, Flatten, Sorted, NewestSlice, WithoutIds, SortedPairs, SplitBy, SplitOf, ThreadDisjoint,
      DistinctIds, AreNewest, DesiredTest, OlderGroup, SelectedIds;
    var candidates := NewestSlice(allPairs, knowledgeBaseTarget + developmentTarget + testMaximum);
    var byThread := GroupByThread(candidates);
    var orderedGroups := OrderGroups(byThread);
    var desiredTest := DesiredTest(|candidates|, knowledgeBaseTarget, developmentTarget, testMinimum, testMaximum);
    desired, groups := desiredTest, orderedGroups;
    split, afterTest, afterDevelopment, afterAll :=
      SplitGroups(orderedGroups, desiredTest, developmentTarget, knowledgeBaseTarget);
    SplitHolds(pairs, allPairs, candidates, split, knowledgeBaseTarget, developmentTarget, testMinimum, testMaximum,
      groups, afterTest, afterDevelopment, afterAll);
    var unused := WithoutIds(allPairs, SelectedIds(split));
    split := split.(unused := unused);
  }

  lemma SplitHolds(pairs: seq<Pair>, allPairs: seq<Pair>, candidates: seq<Pair>, split: DatasetSplit,
      knowledgeBaseTarget: int, developmentTarget: int, testMinimum: int, testMaximum: int,
      groups: Groups, afterTest: Groups, afterDevelopment: Groups, afterAll: Groups)
    requires multiset(allPairs) == multiset(pairs)
    requires OneThreadEach(groups) && multiset(Flatten(groups)) == multiset(candidates) && Sorted(groups, OlderGroup)
    requires AreNewest(multiset(allPairs), multiset(candidates), knowledgeBaseTarget + developmentTarget + testMaximum)
    requires
      var desired := DesiredTest(|candidates|, knowledgeBaseTarget, developmentTarget, testMinimum, testMaximum);
      SplitBy(groups, split, desired, developmentTarget, knowledgeBaseTarget, afterTest, afterDevelopment, afterAll)
    ensures
      var desired := DesiredTest(|candidates|, knowledgeBaseTarget, developmentTarget, testMinimum, testMaximum);
      var whole := split.(unused := WithoutIds(allPairs, SelectedIds(split)));
      && ThreadDisjoint(whole)
      && SplitOf(pairs, whole, knowledgeBaseTarget, developmentTarget, testMinimum, testMaximum, desired,
           groups, afterTest, afterDevelopment, afterAll)
      && (DistinctIds(pairs) ==>
            multiset(whole.knowledgeBase) + multiset(whole.development) + multiset(whole.test) + multiset(whole.unused)
              == multiset(pairs))
  {
    hide OneThreadEach, Flatten, AreNewest, IsTestTarget, DesiredTest, Sorted, Takes, DistinctIds, WithoutIds,
      SelectedIds, ThreadDisjoint;
    var total := knowledgeBaseTarget + developmentTarget + testMaximum;
    var desired := DesiredTest(|candidates|, knowledgeBaseTarget, developmentTarget, testMinimum, testMaximum);
    assert |multiset(candidates)| == |candidates|;
    DesiredIsTarget(|candidates|, knowledgeBaseTarget, developmentTarget, testMinimum, testMaximum);
    RestStaysOrdered(groups, desired, split.test, afterTest);
    RestStaysOrdered(afterTest, developmentTarget, split.development, afterDevelopment);
    SplitsAreDisjoint(groups, split, desired, developmentTarget, knowledgeBaseTarget,
      afterTest, afterDevelopment, afterAll);
    NewestWithin(multiset(allPairs), multiset(candidates), total);
    UnusedIsFree(split, WithoutIds(allPairs, SelectedIds(split)));
    if DistinctIds(pairs) {
      UnusedIsTheRest(pairs, allPairs, split);
    }
  }

  lemma NewestWithin(pairs: multiset<Pair>, candidates: multiset<Pair>, total: int)
    requires AreNewest(pairs, candidates, total)
    ensures candidates <= pairs
  {
  }

  ghost predicate InTimeOrder(pairs: seq<Pair>) {
    forall i, j :: 0 <= i < j < |pairs| ==> pairs[i].responseAt <= pairs[j].responseAt
  }

  lemma SortedInTime(pairs: seq<Pair>)
    requires Sorted(pairs, PairLe)
    ensures InTimeOrder(pairs)
  {
    forall i, j | 0 <= i < j < |pairs| ensures pairs[i].responseAt <= pairs[j].responseAt {
      assert PairLe(pairs[i], pairs[j]);
    }
  }

  /** Each split in turn is as small as its target allows and takes the newest threads that make
      up that number of pairs. */
  lemma SplitsAreNewest(pairs: seq<Pair>, split: DatasetSplit, knowledgeBaseTarget: int, developmentTarget: int,
      testMinimum: int, testMaximum: int, desired: int,
      groups: Groups, afterTest: Groups, afterDevelopment: Groups, afterAll: Groups)
    requires SplitOf(pairs, split, knowledgeBaseTarget, developmentTarget, testMinimum, testMaximum, desired,
      groups, afterTest, afterDevelopment, afterAll)
    ensures IsBestPick(groups, desired, split.test)
    ensures IsBestPick(afterTest, developmentTarget, split.development)
    ensures IsBestPick(afterDevelopment, knowledgeBaseTarget, split.knowledgeBase)
    ensures InTimeOrder(split.test) && InTimeOrder(split.development) && InTimeOrder(split.knowledgeBase)
  {
    hide OneThreadEach, Sorted, PackedBy, Flatten, NoSharedThread, AreNewest, IsBestPick, InTimeOrder;
    TakesTheNewest(groups, desired, split.test, afterTest);
    TakesTheNewest(afterTest, developmentTarget, split.development, afterDevelopment);
    TakesTheNewest(afterDevelopment, knowledgeBaseTarget, split.knowledgeBase, afterAll);
    SortedInTime(split.test);
    SortedInTime(split.development);
    SortedInTime(split.knowledgeBase);
  }

  lemma UnusedIsFree(split: DatasetSplit, unused: seq<Pair>)
    requires ThreadDisjoint(split)
    ensures ThreadDisjoint(split.(unused := unused))
  {
  }

  lemma UnusedIsTheRest(pairs: seq<Pair>, allPairs: seq<Pair>, split: DatasetSplit)
    requires DistinctIds(pairs) && multiset(allPairs) == multiset(pairs)
    requires multiset(split.knowledgeBase) + multiset(split.development) + multiset(split.test) <= multiset(pairs)
    ensures multiset(split.knowledgeBase) + multiset(split.development) + multiset(split.test)
      + multiset(WithoutIds(allPairs, SelectedIds(split))) == multiset(pairs)
  {
    hide WithoutIds;
    DistinctIdsAreOwn(pairs);
    var chosen := split.knowledgeBase + split.development + split.test;
    assert multiset(chosen) == multiset(split.knowledgeBase) + multiset(split.development) + multiset(split.test);
    forall i
      ensures i in SelectedIds(split) <==> exists p: Pair :: p in multiset(chosen) && p.pairId == i
    {
      if p: Pair :| p in multiset(chosen) && p.pairId == i { assert p in chosen; }
      if i in SelectedIds(split) {
        var p: Pair :| p in chosen && p.pairId == i;
        assert p in multiset(chosen);
      }
    }
    WithoutIsComplement(allPairs, multiset(chosen), SelectedIds(split));
  }
}
