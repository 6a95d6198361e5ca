/** The exact subset-sum packing of `app/rag_history.py`: whole groups are chosen so
    that their total is the least one that reaches the target. */
module DatasetPacking {

  /** The tuple of chosen group indices, newest group first, grown at its end. */
  datatype Selection = Empty | Add(earlier: Selection, group: nat)

  /** A selection lists indices below `count` in ascending order. */
  predicate IsSelection(selection: Selection, count: nat) {
    match selection
    case Empty => true
    case Add(earlier, group) => group < count && IsSelection(earlier, group)
  }

  function Indices(selection: Selection): set<nat> {
    match selection
    case Empty => {}
    case Add(earlier, group) => Indices(earlier) + {group}
  }

  function Total(sizes: seq<nat>, selection: Selection): nat {
    match selection
    case Empty => 0
    case Add(earlier, group) => Total(sizes, earlier) + (if group < |sizes| then sizes[group] else 0)
  }

  /** The oldest group of a selection is the one with the greatest index. */
  function Oldest(selection: Selection): int {
    if selection.Empty? then -1 else selection.group
  }

  ghost predicate AllPositive(sizes: seq<nat>) {
    forall k :: 0 <= k < |sizes| ==> sizes[k] > 0
  }

  /** Some selection reaches the target. */
  ghost predicate Reachable(sizes: seq<nat>, target: nat) {
    exists s :: IsSelection(s, |sizes|) && Total(sizes, s) >= target
  }

  function Everything(count: nat): Selection {
    if count == 0 then Empty else Add(Everything(count - 1), count - 1)
  }

  lemma {:induction false} EverythingSelects(count: nat)
    ensures IsSelection(Everything(count), count)
    ensures forall g: nat :: g < count <==> g in Indices(Everything(count))
  {
    if count > 0 { EverythingSelects(count - 1); }
  }

  lemma {:induction false} SelectionBound(s: Selection, count: nat)
    requires IsSelection(s, count)
    ensures forall g :: g in Indices(s) ==> g < count
  {
    if s.Add? { SelectionBound(s.earlier, s.group); }
  }

  lemma Widen(s: Selection, count: nat, more: nat)
    requires IsSelection(s, count) && count <= more
    ensures IsSelection(s, more)
  {
  }

  // ----- The table of reachable totals -----

  /** The table holds every total of the first `n` groups within the bound, each with a
      selection whose oldest group is as new as possible. */
  ghost predicate Complete(sizes: seq<nat>, states: map<nat, Selection>, n: nat, bound: nat)
    requires n <= |sizes|
  {
    forall s :: IsSelection(s, n) && IsSelection(s, |sizes|) && Total(sizes, s) <= bound ==>
      Total(sizes, s) in states && Oldest(states[Total(sizes, s)]) <= Oldest(s)
  }

  ghost predicate Sound(sizes: seq<nat>, states: map<nat, Selection>, n: nat, bound: nat)
    requires n <= |sizes|
  {
    forall t :: t in states ==>
      IsSelection(states[t], n) && IsSelection(states[t], |sizes|) && Total(sizes, states[t]) == t <= bound
  }

  /** `additions` extends every listed total by group `n` unless the total is known or too large. */
  ghost predicate Extends(sizes: seq<nat>, states: map<nat, Selection>, additions: map<nat, Selection>,
      pending: set<nat>, n: nat, bound: nat)
    requires n < |sizes|
  {
    && (forall t :: t in states && t !in pending && t + sizes[n] <= bound && t + sizes[n] !in states ==>
          t + sizes[n] in additions && additions[t + sizes[n]] == Add(states[t], n))
    && (forall u :: u in additions ==>
          u !in states && u <= bound && u >= sizes[n] && u - sizes[n] in states && u - sizes[n] !in pending
          && additions[u] == Add(states[u - sizes[n]], n))
  }

  lemma TableStepSound(sizes: seq<nat>, states: map<nat, Selection>, additions: map<nat, Selection>, n: nat, bound: nat)
    requires n < |sizes| && Sound(sizes, states, n, bound)
    requires Extends(sizes, states, additions, {}, n, bound)
    ensures Sound(sizes, states + additions, n + 1, bound)
  {
    var next := states + additions;
    forall t | t in next
      ensures IsSelection(next[t], n + 1) && IsSelection(next[t], |sizes|) && Total(sizes, next[t]) == t <= bound
    {
      if t in additions { assert next[t] == Add(states[t - sizes[n]], n); }
    }
  }

  lemma TableStep(sizes: seq<nat>, states: map<nat, Selection>, additions: map<nat, Selection>, n: nat, bound: nat)
    requires n < |sizes| && Sound(sizes, states, n, bound) && Complete(sizes, states, n, bound)
    requires Extends(sizes, states, additions, {}, n, bound)
    ensures Sound(sizes, states + additions, n + 1, bound)
    ensures Complete(sizes, states + additions, n + 1, bound)
  {
    TableStepSound(sizes, states, additions, n, bound);
    forall s | IsSelection(s, n + 1) && IsSelection(s, |sizes|) && Total(sizes, s) <= bound
      ensures Total(sizes, s) in states + additions && Oldest((states + additions)[Total(sizes, s)]) <= Oldest(s)
    {
      TableCovers(sizes, states, additions, n, bound, s);
    }
  }

  lemma TableCovers(sizes: seq<nat>, states: map<nat, Selection>, additions: map<nat, Selection>, n: nat, bound: nat,
      s: Selection)
    requires n < |sizes| && Sound(sizes, states, n, bound) && Complete(sizes, states, n, bound)
    requires Extends(sizes, states, additions, {}, n, bound)
    requires IsSelection(s, n + 1) && IsSelection(s, |sizes|) && Total(sizes, s) <= bound
    ensures Total(sizes, s) in states + additions && Oldest((states + additions)[Total(sizes, s)]) <= Oldest(s)
  {
    var total := Total(sizes, s);
    if s.Add? && s.group == n {
      assert IsSelection(s.earlier, n) && IsSelection(s.earlier, |sizes|) by { Widen(s.earlier, n, |sizes|); }
      if total in states { assert Oldest(states[total]) < n; }
    } else {
      assert IsSelection(s, n);
    }
  }

  // ----- Least totals -----

  function Without(s: Selection, g: nat): Selection {
    match s
    case Empty => Empty
    case Add(earlier, group) => if group == g then earlier else Add(Without(earlier, g), group)
  }

  lemma {:induction false} WithoutTotal(sizes: seq<nat>, s: Selection, g: nat, n: nat)
    requires n <= |sizes| && IsSelection(s, n) && g in Indices(s) && g < |sizes|
    ensures IsSelection(Without(s, g), n)
    ensures Total(sizes, Without(s, g)) == Total(sizes, s) - sizes[g]
  {
    if s.group != g {
      WithoutTotal(sizes, s.earlier, g, s.group);
    } else {
      Widen(s.earlier, s.group, n);
    }
  }

  /** A least total that reaches the target overshoots by less than any group it uses. */
  lemma LeastOvershoot(sizes: seq<nat>, s: Selection, target: nat)
    requires AllPositive(sizes) && IsSelection(s, |sizes|) && Total(sizes, s) >= target
    requires forall o :: IsSelection(o, |sizes|) && Total(sizes, o) >= target ==> Total(sizes, s) <= Total(sizes, o)
    ensures forall g :: g in Indices(s) ==> g < |sizes| && Total(sizes, s) - sizes[g] < target
  {
    SelectionBound(s, |sizes|);
    forall g | g in Indices(s)
      ensures Total(sizes, s) - sizes[g] < target
    {
      WithoutTotal(sizes, s, g, |sizes|);
    }
  }

  /** Any selection that reaches the target can be thinned to one within `target + largest`. */
  lemma {:induction false} Thin(sizes: seq<nat>, s: Selection, target: nat, largest: nat) returns (thin: Selection)
    requires IsSelection(s, |sizes|) && Total(sizes, s) >= target
    requires forall k :: 0 <= k < |sizes| ==> sizes[k] <= largest
    ensures IsSelection(thin, |sizes|) && target <= Total(sizes, thin) <= Total(sizes, s)
    ensures Total(sizes, thin) <= target + largest
  {
    if Total(sizes, s) <= target + largest {
      thin := s;
    } else {
      Widen(s.earlier, s.group, |sizes|);
      thin := Thin(sizes, s.earlier, target, largest);
    }
  }

  lemma {:induction false} TotalBelowEverything(sizes: seq<nat>, s: Selection, n: nat)
    requires n <= |sizes| && IsSelection(s, n) && AllPositive(sizes)
    ensures Total(sizes, s) <= Total(sizes, Everything(n))
    ensures Total(sizes, s) == Total(sizes, Everything(n)) ==> s == Everything(n)
    decreases n
  {
    if n > 0 {
      if s.Add? && s.group == n - 1 {
        TotalBelowEverything(sizes, s.earlier, n - 1);
      } else {
        TotalBelowEverything(sizes, s, n - 1);
      }
    }
  }

  // ----- The packing -----

  method Smallest(candidates: set<nat>) returns (least: nat)
    requires candidates != {}
    ensures least in candidates && forall c :: c in candidates ==> least <= c
  {
    least :| least in candidates;
    var pending := candidates - {least};
    while pending != {}
      invariant least in candidates && pending <= candidates
      invariant forall c :: c in candidates ==> c in pending || least <= c
      decreases pending
    {
      var c :| c in pending;
      if c < least { least := c; }
      pending := pending - {c};
    }
  }

  method Greatest(candidates: set<nat>) returns (most: nat)
    requires candidates != {}
    ensures most in candidates && forall c :: c in candidates ==> c <= most
  {
    most :| most in candidates;
    var pending := candidates - {most};
    while pending != {}
      invariant most in candidates && pending <= candidates
      invariant forall c :: c in candidates ==> c in pending || c <= most
      decreases pending
    {
      var c :| c in pending;
      if c > most { most := c; }
      pending := pending - {c};
    }
  }

  method LargestSize(sizes: seq<nat>) returns (largest: nat)
    requires sizes != []
    ensures largest in sizes && forall k :: 0 <= k < |sizes| ==> sizes[k] <= largest
  {
    largest := sizes[0];
    for k := 1 to |sizes|
      invariant largest in sizes && forall j :: 0 <= j < k ==> sizes[j] <= largest
    {
      if sizes[k] > largest { largest := sizes[k]; }
    }
  }

  lemma TableStart(sizes: seq<nat>, bound: nat)
    ensures Sound(sizes, map[0 := Empty], 0, bound) && Complete(sizes, map[0 := Empty], 0, bound)
  {
  }

  lemma ExtendsStart(sizes: seq<nat>, states: map<nat, Selection>, n: nat, bound: nat)
    requires n < |sizes|
    ensures Extends(sizes, states, map[], states.Keys, n, bound)
  {
  }

  lemma ExtendsStep(sizes: seq<nat>, states: map<nat, Selection>, additions: map<nat, Selection>,
      pending: set<nat>, total: nat, n: nat, bound: nat)
    requires n < |sizes| && Extends(sizes, states, additions, pending, n, bound)
    requires total in pending && pending <= states.Keys
    ensures var newTotal := total + sizes[n];
      Extends(sizes, states,
        if newTotal > bound || newTotal in states || newTotal in additions then additions
        else additions[newTotal := Add(states[total], n)],
        pending - {total}, n, bound)
  {
  }

  /** One pass over a copy of the table; the keys of a dictionary come in no stated order. */
  method AdditionsFor(sizes: seq<nat>, states: map<nat, Selection>, index: nat, bound: nat)
      returns (additions: map<nat, Selection>)
    requires index < |sizes|
    ensures Extends(sizes, states, additions, {}, index, bound)
  {
    hide Extends;
    additions := map[];
    var pending := states.Keys;
    ExtendsStart(sizes, states, index, bound);
    while pending != {}
      invariant pending <= states.Keys
      invariant Extends(sizes, states, additions, pending, index, bound)
      decreases pending
    {
      var total :| total in pending;
      ExtendsStep(sizes, states, additions, pending, total, index, bound);
      pending := pending - {total};
      var newTotal := total + sizes[index];
      if !(newTotal > bound || newTotal in states || newTotal in additions) {
        additions := additions[newTotal := Add(states[total], index)];
      }
    }
  }

  method ReachableTotals(sizes: seq<nat>, bound: nat) returns (states: map<nat, Selection>)
    ensures Sound(sizes, states, |sizes|, bound) && Complete(sizes, states, |sizes|, bound)
  {
    hide IsSelection, Total, Oldest;
    states := map[0 := Empty];
    TableStart(sizes, bound);
    for index := 0 to |sizes|
      invariant Sound(sizes, states, index, bound) && Complete(sizes, states, index, bound)
    {
      hide Sound, Complete;
      var additions := AdditionsFor(sizes, states, index, bound);
      TableStep(sizes, states, additions, index, bound);
      states := states + additions;
    }
  }

  /** The chosen total is the least one that reaches the target, made of groups whose oldest is
      as new as that total allows; when no total reaches it, every group is taken. */
  ghost predicate IsBestPacking(sizes: seq<nat>, target: nat, chosen: Selection) {
    && IsSelection(chosen, |sizes|)
    && (Reachable(sizes, target) ==>
          && Total(sizes, chosen) >= target
          && (forall s :: IsSelection(s, |sizes|) && Total(sizes, s) >= target ==>
            Total(sizes, chosen) <= Total(sizes, s))
          && (forall s :: IsSelection(s, |sizes|) && Total(sizes, s) == Total(sizes, chosen) ==>
            Oldest(chosen) <= Oldest(s)))
    && (!Reachable(sizes, target) ==> chosen == Everything(|sizes|))
  }

  method ChooseGroups(sizes: seq<nat>, target: nat) returns (chosen: Selection)
    requires sizes != [] && AllPositive(sizes) && target > 0
    ensures IsBestPacking(sizes, target, chosen)
    ensures Total(sizes, chosen) >= target ==>
      forall g :: g in Indices(chosen) ==> g < |sizes| && Total(sizes, chosen) - sizes[g] < target
  {
    var largest := LargestSize(sizes);
    var bound := target + largest;
    var states := ReachableTotals(sizes, bound);
    var atOrAbove := set t | t in states.Keys && t >= target;
    var chosenTotal: nat;
    if atOrAbove != {} {
      chosenTotal := Smallest(atOrAbove);
      chosen := states[chosenTotal];
      assert forall t :: t in states && t >= target ==> t in atOrAbove;
      LeastInTable(sizes, states, target, largest, chosenTotal);
      LeastOvershoot(sizes, chosen, target);
    } else {
      assert forall t :: t in states && t >= target ==> t in atOrAbove;
      EmptyIsListed(sizes, states, bound);
      chosenTotal := Greatest(states.Keys);
      chosen := states[chosenTotal];
      NothingReaches(sizes, states, target, largest);
      MostInTable(sizes, states, target, largest, chosenTotal);
    }
  }

  lemma EmptyIsListed(sizes: seq<nat>, states: map<nat, Selection>, bound: nat)
    requires Complete(sizes, states, |sizes|, bound)
    ensures 0 in states
  {
    assert Total(sizes, Empty) == 0 && IsSelection(Empty, |sizes|);
  }

  lemma LeastInTable(sizes: seq<nat>, states: map<nat, Selection>, target: nat, largest: nat, chosenTotal: nat)
    requires forall k :: 0 <= k < |sizes| ==> sizes[k] <= largest
    requires Sound(sizes, states, |sizes|, target + largest) && Complete(sizes, states, |sizes|, target + largest)
    requires chosenTotal in states && chosenTotal >= target
    requires forall t :: t in states && t >= target ==> chosenTotal <= t
    ensures IsBestPacking(sizes, target, states[chosenTotal])
  {
    assert Reachable(sizes, target);
    forall s | IsSelection(s, |sizes|) && Total(sizes, s) >= target
      ensures chosenTotal <= Total(sizes, s)
    {
      var thin := Thin(sizes, s, target, largest);
      assert Total(sizes, thin) in states;
    }
  }

  lemma NothingReaches(sizes: seq<nat>, states: map<nat, Selection>, target: nat, largest: nat)
    requires forall k :: 0 <= k < |sizes| ==> sizes[k] <= largest
    requires Complete(sizes, states, |sizes|, target + largest)
    requires forall t :: t in states ==> t < target
    ensures !Reachable(sizes, target)
  {
    if Reachable(sizes, target) {
      var s :| IsSelection(s, |sizes|) && Total(sizes, s) >= target;
      var thin := Thin(sizes, s, target, largest);
      assert false;
    }
  }

  lemma MostInTable(sizes: seq<nat>, states: map<nat, Selection>, target: nat, largest: nat, chosenTotal: nat)
    requires AllPositive(sizes) && !Reachable(sizes, target)
    requires Sound(sizes, states, |sizes|, target + largest) && Complete(sizes, states, |sizes|, target + largest)
    requires chosenTotal in states && forall t :: t in states ==> t <= chosenTotal
    ensures states[chosenTotal] == Everything(|sizes|)
  {
    var all := Everything(|sizes|);
    EverythingSelects(|sizes|);
    assert Total(sizes, all) < target;
    assert Total(sizes, all) in states;
    TotalBelowEverything(sizes, states[chosenTotal], |sizes|);
  }
}
