/** Price and stock invariants over every run of imports and confirmations. */
module CommercialRuns {
  import opened Options
  import opened Commercial

  // ----- Confirmations -----

  lemma {:induction false} StockedItemsHold(stock: map<(nat, string), Availability>, items: seq<Item>, cycle: nat,
      k: (nat, string))
    ensures k.0 != cycle ==> (k in StockedItems(stock, items, cycle) <==> k in stock)
    ensures k in stock ==> k in StockedItems(stock, items, cycle)
    ensures k.0 != cycle && k in stock ==> StockedItems(stock, items, cycle)[k] == stock[k]
    decreases |items|
  {
    if items != [] { StockedItemsHold(stock, items[..|items| - 1], cycle, k); }
  }

  lemma {:induction false} ItemIsStocked(stock: map<(nat, string), Availability>, items: seq<Item>, cycle: nat, i: nat)
    requires i < |items| && forall j, k :: 0 <= j < k < |items| ==> items[j].product != items[k].product
    ensures (cycle, items[i].product) in StockedItems(stock, items, cycle)
    ensures StockedItems(stock, items, cycle)[(cycle, items[i].product)] == items[i].availability
    decreases |items|
  {
    if i < |items| - 1 { ItemIsStocked(stock, items[..|items| - 1], cycle, i); }
  }

  /** A policy the confirmation leaves active is not one of its scope's rupee policies. */
  lemma KeptAfterConfirm(s: Store, items: seq<Item>, cycle: nat, source: string, k: nat)
    requires cycle in s.cycles && CyclesExist(s) && k < |s.policies|
    ensures
      var p := PricesConfirmed(s, items, cycle, source).policies[k];
      var next := PricesConfirmed(s, items, cycle, source).cycles;
      && p.(active := s.policies[k].active) == s.policies[k] && (p.active ==> s.policies[k].active)
      && ScopeOf(next, p) == ScopeOf(s.cycles, s.policies[k])
      && (p.active && p.currency == RUPEES ==> ScopeOf(next, p) != s.cycles[cycle].scope)
  {
  }

  lemma NewAfterConfirm(s: Store, items: seq<Item>, cycle: nat, source: string, k: nat)
    requires cycle in s.cycles && |s.policies| <= k < |PricesConfirmed(s, items, cycle, source).policies|
    ensures
      var p := PricesConfirmed(s, items, cycle, source).policies[k];
      var next := PricesConfirmed(s, items, cycle, source).cycles;
      && k - |s.policies| < |items| && p.product == items[k - |s.policies|].product && p.currency == RUPEES
      && p.cycle == Some(cycle) && ScopeOf(next, p) == s.cycles[cycle].scope
  {
  }

  lemma ConfirmKeepsDisjoint(s: Store, items: seq<Item>, cycle: nat, source: string)
    requires cycle in s.cycles && CyclesExist(s) && Disjoint(s) && ItemsOk(items)
    ensures Disjoint(PricesConfirmed(s, items, cycle, source))
  {
    hide PricesConfirmed, ScopeOf, Overlaps, CyclesExist;
    var next := PricesConfirmed(s, items, cycle, source);
    forall i, j | 0 <= i < j < |next.policies|
      && ScopeOf(next.cycles, next.policies[i]) == ScopeOf(next.cycles, next.policies[j])
      ensures !Clash(next.policies[i], next.policies[j])
    {
      if j < |s.policies| {
        KeptAfterConfirm(s, items, cycle, source, i);
        KeptAfterConfirm(s, items, cycle, source, j);
        assert !Clash(s.policies[i], s.policies[j]);
      } else if i < |s.policies| {
        KeptAfterConfirm(s, items, cycle, source, i);
        NewAfterConfirm(s, items, cycle, source, j);
      } else {
        NewAfterConfirm(s, items, cycle, source, i);
        NewAfterConfirm(s, items, cycle, source, j);
        assert items[i - |s.policies|].product != items[j - |s.policies|].product;
      }
    }
  }

  lemma NewIsStocked(s: Store, items: seq<Item>, cycle: nat, source: string, k: nat)
    requires cycle in s.cycles && ItemsOk(items)
    requires |s.policies| <= k < |PricesConfirmed(s, items, cycle, source).policies|
    ensures var next := PricesConfirmed(s, items, cycle, source); PolicyStocked(next, next.policies[k])
  {
    hide ItemsOk, StockedItems, WithoutStock, Template, Deactivated, ItemPolicies;
    NewAfterConfirm(s, items, cycle, source, k);
    ItemsAreDistinct(items);
    ItemIsStocked(WithoutStock(s.stock, cycle), items, cycle, k - |s.policies|);
    assert ItemOk(items[k - |s.policies|]);
  }

  lemma ItemsAreDistinct(items: seq<Item>)
    requires ItemsOk(items)
    ensures forall i, j :: 0 <= i < j < |items| ==> items[i].product != items[j].product
    ensures forall i :: 0 <= i < |items| ==> ItemOk(items[i])
  {
  }

  lemma KeptIsStocked(s: Store, items: seq<Item>, cycle: nat, source: string, k: nat)
    requires cycle in s.cycles && CyclesExist(s) && k < |s.policies| && PolicyStocked(s, s.policies[k])
    ensures var next := PricesConfirmed(s, items, cycle, source); PolicyStocked(next, next.policies[k])
  {
    KeptAfterConfirm(s, items, cycle, source, k);
    hide StockedItems;
    var p := s.policies[k];
    if p.cycle.Some? {
      StockedItemsHold(WithoutStock(s.stock, cycle), items, cycle, (p.cycle.value, p.product));
    }
  }

  lemma ConfirmKeepsStock(s: Store, items: seq<Item>, cycle: nat, source: string)
    requires cycle in s.cycles && CyclesExist(s) && StockKnown(s) && ItemsOk(items)
    ensures StockKnown(PricesConfirmed(s, items, cycle, source))
  {
    hide PolicyStocked, PricesConfirmed, ItemsOk;
    var next := PricesConfirmed(s, items, cycle, source);
    forall i | 0 <= i < |next.policies| ensures PolicyStocked(next, next.policies[i]) {
      if i < |s.policies| {
        KeptIsStocked(s, items, cycle, source, i);
      } else {
        NewIsStocked(s, items, cycle, source, i);
      }
    }
  }

  lemma ConfirmKeepsCycles(s: Store, items: seq<Item>, cycle: nat, source: string)
    requires cycle in s.cycles && CyclesExist(s)
    ensures CyclesExist(PricesConfirmed(s, items, cycle, source))
  {
    hide StockedItems, Template;
  }

  lemma InventoryKeepsGood(s: Store, items: seq<Item>, cycle: nat)
    requires cycle in s.cycles && Good(s) && InventoryOk(s, items, cycle)
    ensures Good(InventoryTaken(s, items, cycle))
  {
    hide StockedItems, Clash;
    var next := InventoryTaken(s, items, cycle);
    forall i | 0 <= i < |next.policies| ensures PolicyStocked(next, next.policies[i]) {
      var p := next.policies[i];
      assert PolicyStocked(s, p);
      if p.cycle.Some? {
        StockedItemsHold(s.stock, items, cycle, (p.cycle.value, p.product));
        if p.cycle.value == cycle && p.active && next.cycles[cycle].inventoryConfirmed {
          assert p.product in Priced(s.policies, cycle);
          assert p.product in Stocked(next.stock, cycle);
        }
      }
    }
    forall i, j | 0 <= i < j < |next.policies|
      && ScopeOf(next.cycles, next.policies[i]) == ScopeOf(next.cycles, next.policies[j])
      ensures !Clash(next.policies[i], next.policies[j])
    {
      assert ScopeOf(s.cycles, s.policies[i]) == ScopeOf(s.cycles, s.policies[j]);
    }
  }

  // ----- Runs -----

  datatype Step =
    | OpenCycle(cycle: nat, scope: string, weekStart: int, weekEnd: int)
    | ImportPrices(rows: seq<Row>, cycle: nat, source: string, replace: bool)
    | ConfirmPrices(request: seq<Entry>, cycle: nat, source: string)
    | ConfirmInventory(items: seq<Item>, cycle: nat)

  ghost predicate Enabled(s: Store, step: Step) {
    match step
    case OpenCycle(cycle, _, _, _) => cycle !in s.cycles
    case ImportPrices(rows, cycle, _, replace) => cycle in s.cycles && RowsOk(s.policies, rows, replace)
    case ConfirmPrices(request, cycle, _) => cycle in s.cycles && RequestOk(s, request, cycle)
    case ConfirmInventory(items, cycle) => cycle in s.cycles && InventoryOk(s, items, cycle)
  }

  ghost function Apply(s: Store, step: Step): Store
    requires Enabled(s, step)
  {
    match step
    case OpenCycle(cycle, scope, weekStart, weekEnd) =>
      s.(cycles := s.cycles[cycle := Cycle(scope, weekStart, weekEnd, false, false, None)])
    case ImportPrices(rows, cycle, source, replace) => PricesApplied(s, rows, cycle, source, replace)
    case ConfirmPrices(request, cycle, source) => PricesConfirmed(s, ItemsOf(request), cycle, source)
    case ConfirmInventory(items, cycle) => InventoryTaken(s, items, cycle)
  }

  lemma OpenKeepsGood(s: Store, step: Step)
    requires Good(s) && Enabled(s, step) && step.OpenCycle?
    ensures Good(Apply(s, step))
  {
    hide Clash;
    var next := Apply(s, step);
    forall i | 0 <= i < |s.policies|
      ensures ScopeOf(next.cycles, s.policies[i]) == ScopeOf(s.cycles, s.policies[i])
        && PolicyStocked(next, s.policies[i])
    {
      assert PolicyStocked(s, s.policies[i]);
    }
  }

  lemma StepKeepsGood(s: Store, step: Step)
    requires Good(s) && Enabled(s, step)
    ensures Good(Apply(s, step))
  {
    hide Disjoint, StockKnown, CyclesExist, RowsOk, ItemsOk, RequestOk, ItemsOf, InventoryOk, PricesApplied,
      PricesConfirmed, InventoryTaken;
    match step {
      case OpenCycle(_, _, _, _) => OpenKeepsGood(s, step);
      case ImportPrices(rows, cycle, source, replace) =>
        ImportKeepsDisjoint(s, rows, cycle, source, replace);
        ImportKeepsStock(s, rows, cycle, source, replace);
      case ConfirmPrices(request, cycle, source) =>
        var items := ItemsOf(request);
        RequestListsOnce(s, request, cycle);
        ConfirmKeepsDisjoint(s, items, cycle, source);
        ConfirmKeepsStock(s, items, cycle, source);
        ConfirmKeepsCycles(s, items, cycle, source);
      case ConfirmInventory(items, cycle) => InventoryKeepsGood(s, items, cycle);
    }
  }

  ghost predicate Run(s: Store, steps: seq<Step>, end: Store)
    decreases |steps|
  {
    if steps == [] then
      s == end
    else
      Enabled(s, steps[0]) && Run(Apply(s, steps[0]), steps[1..], end)
  }

  /** Whatever imports, replacements and confirmations follow each other, each validated against the
      policies it is applied to. */
  lemma {:induction false} RunsStayGood(s: Store, steps: seq<Step>, end: Store)
    requires Good(s) && Run(s, steps, end)
    ensures Good(end)
    decreases |steps|
  {
    hide Good, Apply, Enabled;
    if steps != [] {
      StepKeepsGood(s, steps[0]);
      RunsStayGood(Apply(s, steps[0]), steps[1..], end);
    }
  }

  // ----- What an import leaves active -----

  /** Every automatic row of an import is active afterwards. */
  lemma ImportedRowIsActive(s: Store, rows: seq<Row>, cycle: nat, source: string, replace: bool, i: nat)
    requires cycle in s.cycles && i < |rows| && !rows[i].manualOnly
    ensures PolicyFor(rows[i], cycle, source) in PricesApplied(s, rows, cycle, source, replace).policies
  {
    var k := RowHasPolicy(rows, cycle, source, i);
    var kept := Remaining(s, rows, cycle, replace);
    hide Remaining, NewPolicies;
    assert PricesApplied(s, rows, cycle, source, replace).policies[|kept| + k] == PolicyFor(rows[i], cycle, source);
  }

  /** A replacement leaves no older policy active in the scope in any of its currencies. */
  lemma ReplacementLeavesOnlyNew(s: Store, rows: seq<Row>, cycle: nat, source: string, k: nat, i: nat)
    requires cycle in s.cycles && k < |s.policies| && i < |rows| && !rows[i].manualOnly
    requires ScopeOf(s.cycles, s.policies[k]) == s.cycles[cycle].scope && s.policies[k].currency == rows[i].currency
    ensures k < |PricesApplied(s, rows, cycle, source, true).policies|
    ensures !PricesApplied(s, rows, cycle, source, true).policies[k].active
  {
    RemainingPolicy(s, rows, cycle, true, k);
    assert s.policies[k].active ==> Replaced(s.cycles, rows, s.cycles[cycle].scope, s.policies[k]);
    hide Remaining, NewPolicies;
  }

  // ----- Validation that is no longer current -----

  /** The rows are validated before the scope is locked. Applied to what is there by then, they keep the
      policies disjoint exactly when they meet nothing that stays active in the scope. */
  lemma ApplyKeepsDisjointExactly(s: Store, rows: seq<Row>, cycle: nat, source: string, replace: bool)
    requires cycle in s.cycles && CyclesExist(s) && Disjoint(s) && RowsApart(rows)
    ensures Disjoint(PricesApplied(s, rows, cycle, source, replace)) <==> NothingMet(s, rows, cycle, replace)
  {
    hide Disjoint, NothingMet;
    if NothingMet(s, rows, cycle, replace) { MeetingNothingSuffices(s, rows, cycle, source, replace); }
    if Disjoint(PricesApplied(s, rows, cycle, source, replace)) {
      MeetingNothingIsNeeded(s, rows, cycle, source, replace);
    }
  }

  ghost predicate NothingMet(s: Store, rows: seq<Row>, cycle: nat, replace: bool)
    requires cycle in s.cycles
  {
    var kept := Remaining(s, rows, cycle, replace);
    forall i, k ::
      0 <= i < |rows| && 0 <= k < |s.policies| && ScopeOf(s.cycles, s.policies[k]) == s.cycles[cycle].scope ==>
      k < |kept| && !RowMeets(rows[i], kept[k])
  }

  lemma MeetingNothingSuffices(s: Store, rows: seq<Row>, cycle: nat, source: string, replace: bool)
    requires cycle in s.cycles && CyclesExist(s) && Disjoint(s) && RowsApart(rows)
      && NothingMet(s, rows, cycle, replace)
    ensures Disjoint(PricesApplied(s, rows, cycle, source, replace))
  {
    hide Clash, Remaining, NewPolicies;
    var next := PricesApplied(s, rows, cycle, source, replace);
    var kept, news := Remaining(s, rows, cycle, replace), NewPolicies(rows, cycle, source);
    NewPoliciesAreDisjoint(rows, cycle, source);
    KeptLength(s, rows, cycle, replace);
    forall i, j | 0 <= i < j < |next.policies|
      && ScopeOf(next.cycles, next.policies[i]) == ScopeOf(next.cycles, next.policies[j])
      ensures !Clash(next.policies[i], next.policies[j])
    {
      if j < |kept| {
        KeptStayDisjoint(s, rows, cycle, source, replace, i, j);
      } else if i < |kept| {
        var k := NewPolicyComesFromRow(rows, cycle, source, j - |kept|);
        RemainingPolicy(s, rows, cycle, replace, i);
        ScopesKept(s.cycles, next.cycles, s.policies[i], kept[i]);
        assert !RowMeets(rows[k], kept[i]);
        ClashIsMeeting(rows[k], kept[i], cycle, source);
      } else {
        assert !Clash(news[i - |kept|], news[j - |kept|]);
      }
    }
  }

  lemma ClashIsMeeting(row: Row, p: Policy, cycle: nat, source: string)
    ensures !row.manualOnly ==> (Clash(p, PolicyFor(row, cycle, source)) <==> RowMeets(row, p))
  {
  }

  lemma {:induction false} RowHasPolicy(rows: seq<Row>, cycle: nat, source: string, i: nat) returns (k: nat)
    requires i < |rows| && !rows[i].manualOnly
    ensures k < |NewPolicies(rows, cycle, source)|
      && NewPolicies(rows, cycle, source)[k] == PolicyFor(rows[i], cycle, source)
    decreases |rows|
  {
    if i == |rows| - 1 {
      k := |NewPolicies(rows[..|rows| - 1], cycle, source)|;
    } else {
      k := RowHasPolicy(rows[..|rows| - 1], cycle, source, i);
    }
  }

  lemma MeetingNothingIsNeeded(s: Store, rows: seq<Row>, cycle: nat, source: string, replace: bool)
    requires cycle in s.cycles && Disjoint(PricesApplied(s, rows, cycle, source, replace))
    ensures NothingMet(s, rows, cycle, replace)
  {
    hide Clash, Remaining, NewPolicies, RowMeets;
    var next := PricesApplied(s, rows, cycle, source, replace);
    var kept, news := Remaining(s, rows, cycle, replace), NewPolicies(rows, cycle, source);
    KeptLength(s, rows, cycle, replace);
    forall i, k | 0 <= i < |rows| && 0 <= k < |s.policies| && ScopeOf(s.cycles, s.policies[k]) == s.cycles[cycle].scope
      ensures k < |kept| && !RowMeets(rows[i], kept[k])
    {
      MeetingNeedsRow(rows[i], kept[k]);
      if !rows[i].manualOnly {
        var j := RowHasPolicy(rows, cycle, source, i);
        RemainingPolicy(s, rows, cycle, replace, k);
        ScopesKept(s.cycles, next.cycles, s.policies[k], kept[k]);
        ClashIsMeeting(rows[i], kept[k], cycle, source);
        assert !Clash(next.policies[k], next.policies[|kept| + j]);
      }
    }
  }

  lemma MeetingNeedsRow(row: Row, p: Policy)
    ensures RowMeets(row, p) ==> !row.manualOnly
  {
  }

  /** Two imports validated side by side and applied one after the other leave overlapping policies. */
  lemma StaleValidationLetsPoliciesOverlap() returns (s: Store, rows: seq<Row>, first: Store, second: Store)
    ensures Good(s) && 0 in s.cycles && RowsOk(s.policies, rows, false)
    ensures first == PricesApplied(s, rows, 0, "a", false) && Good(first)
    ensures 0 in first.cycles && second == PricesApplied(first, rows, 0, "b", false) && !Disjoint(second)
  {
    s := Store([], map[0 := Cycle(DEFAULT_SCOPE, 0, 6, false, false, None)], map[]);
    rows := [Row("p", RUPEES, false, 0, None)];
    first := PricesApplied(s, rows, 0, "a", false);
    ImportKeepsDisjoint(s, rows, 0, "a", false);
    ImportKeepsStock(s, rows, 0, "a", false);
    second := PricesApplied(first, rows, 0, "b", false);
    assert rows[..0] == [];
    assert NewPolicies(rows, 0, "a") == [PolicyFor(rows[0], 0, "a")];
    assert NewPolicies(rows, 0, "b") == [PolicyFor(rows[0], 0, "b")];
    assert Clash(second.policies[0], second.policies[1]);
    assert ScopeOf(second.cycles, second.policies[0]) == ScopeOf(second.cycles, second.policies[1]);
  }
}
