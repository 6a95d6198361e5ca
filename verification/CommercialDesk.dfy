/** The three write paths of prices and stock as methods over the rows they change. */
module CommercialDesks {
  import opened Options
  import opened Commercial
  import opened CommercialRuns
  import CommercialEffects

  datatype Outcome = Applied | AlreadyApplied | Rejected

  ghost predicate RowsOkUpTo(policies: seq<Policy>, rows: seq<Row>, replace: bool, n: nat)
    requires n <= |rows|
  {
    RowsOk(policies, rows[..n], replace)
  }

  ghost predicate RowOk(policies: seq<Policy>, earlier: seq<Row>, row: Row, replace: bool) {
    && (row.validTo.Some? ==> row.validFrom <= row.validTo.value)
    && (forall i :: 0 <= i < |earlier| ==> !RowClash(earlier[i], row))
    && (!replace ==> forall k :: 0 <= k < |policies| ==> !RowMeets(row, policies[k]))
  }

  /** Row by row: the dates, the stored policies, then the rows before it. */
  method ValidateRow(policies: seq<Policy>, earlier: seq<Row>, row: Row, replace: bool) returns (ok: bool)
    ensures ok <==> RowOk(policies, earlier, row, replace)
  {
    hide RowClash, RowMeets;
    if row.validTo.Some? && row.validTo.value < row.validFrom {
      return false;
    }
    if !replace {
      for k := 0 to |policies|
        invariant forall j :: 0 <= j < k ==> !RowMeets(row, policies[j])
      {
        if RowMeets(row, policies[k]) {
          return false;
        }
      }
    }
    for i := 0 to |earlier|
      invariant forall j :: 0 <= j < i ==> !RowClash(earlier[j], row)
    {
      if RowClash(earlier[i], row) {
        return false;
      }
    }
    ok := true;
  }

  method ValidateRows(policies: seq<Policy>, rows: seq<Row>, replace: bool) returns (ok: bool)
    ensures ok <==> RowsOk(policies, rows, replace)
  {
    hide RowClash, RowMeets;
    for n := 0 to |rows|
      invariant RowsOkUpTo(policies, rows, replace, n)
    {
      ok := ValidateRow(policies, rows[..n], rows[n], replace);
      if !ok {
        assert forall i :: 0 <= i < n ==> rows[..n][i] == rows[i];
        return;
      }
      assert rows[..n + 1] == rows[..n] + [rows[n]];
    }
    assert rows[..|rows|] == rows;
    ok := true;
  }

  /** The request names the templates shown now, and its reader saw the prices it replaces. */
  predicate IsCurrent(s: Store, request: seq<Entry>, cycle: nat, expectedRef: Option<string>)
    requires cycle in s.cycles
  {
    expectedRef == s.cycles[cycle].priceRef && RequestOk(s, request, cycle)
  }

  /** The batch is the one confirmed last, prices and stock. */
  predicate Standing(s: Store, cycle: nat, source: string)
    requires cycle in s.cycles
  {
    s.cycles[cycle] == s.cycles[cycle].(priceRef := Some(source), priceConfirmed := true, inventoryConfirmed := true)
  }

  // ----- The same request again -----

  lemma TemplatesAreNew(s: Store, items: seq<Item>, cycle: nat, source: string, k: nat)
    requires cycle in s.cycles && CyclesExist(s)
    requires var next := PricesConfirmed(s, items, cycle, source); cycle in next.cycles && IsTemplate(next, cycle, k)
    ensures 0 <= k - |s.policies| < |items|
    ensures PricesConfirmed(s, items, cycle, source).policies[k].product == items[k - |s.policies|].product
    ensures PricesConfirmed(s, items, cycle, source).policies[k].cycle == Some(cycle)
  {
    assert |PricesConfirmed(s, items, cycle, source).policies| == |s.policies| + |items|;
    if k < |s.policies| {
      KeptAfterConfirm(s, items, cycle, source, k);
    } else {
      NewAfterConfirm(s, items, cycle, source, k);
    }
  }

  lemma NewAreTemplates(s: Store, items: seq<Item>, cycle: nat, source: string, i: nat)
    requires cycle in s.cycles && i < |items|
    ensures var next, k := PricesConfirmed(s, items, cycle, source), |s.policies| + i;
      cycle in next.cycles && IsTemplate(next, cycle, k) && next.policies[k].product == items[i].product
  {
  }

  lemma CycleStays(s: Store, items: seq<Item>, cycle: nat, source: string)
    requires cycle in s.cycles
    ensures var next := PricesConfirmed(s, items, cycle, source);
      && cycle in next.cycles && Standing(next, cycle, source)
      && |next.policies| == |s.policies| + |items|
  {
  }

  /** A confirmation replaces every template, so the request that was applied names none that is left. */
  lemma AppliedRequestIsOutdated(s: Store, request: seq<Entry>, cycle: nat, source: string)
    requires cycle in s.cycles && CyclesExist(s) && RequestOk(s, request, cycle)
    ensures var next := PricesConfirmed(s, ItemsOf(request), cycle, source);
      cycle in next.cycles && !RequestOk(next, request, cycle)
  {
    var items := ItemsOf(request);
    var next := PricesConfirmed(s, items, cycle, source);
    CycleStays(s, items, cycle, source);
    assert IsShown(s, cycle, request[0].template);
    if RequestOk(next, request, cycle) {
      assert IsShown(next, cycle, request[0].template);
      TemplatesAreNew(s, items, cycle, source, request[0].template);
    }
  }

  /** What an accepted request leaves behind. */
  function Answered(s: Store, request: seq<Entry>, cycle: nat, source: string): Store
    requires cycle in s.cycles
  {
    if Standing(s, cycle, source) then s else PricesConfirmed(s, ItemsOf(request), cycle, source)
  }

  /** An accepted request sent once more is accepted again exactly when its batch stood already, so that it
      changed nothing the first time. One that was applied is turned away, whatever reference it names. */
  lemma ResentRequestExactly(s: Store, request: seq<Entry>, cycle: nat, source: string, expectedRef: Option<string>)
    requires cycle in s.cycles && CyclesExist(s) && IsCurrent(s, request, cycle, expectedRef)
    ensures var next := Answered(s, request, cycle, source);
      && cycle in next.cycles && Standing(next, cycle, source)
      && (IsCurrent(next, request, cycle, expectedRef) <==> Standing(s, cycle, source))
      && (!Standing(s, cycle, source) ==> forall ref :: !IsCurrent(next, request, cycle, ref))
  {
    if !Standing(s, cycle, source) {
      AppliedRequestIsOutdated(s, request, cycle, source);
      CycleStays(s, ItemsOf(request), cycle, source);
    }
    hide RequestOk, PricesConfirmed;
  }

  /** A double click: the batch named its own reference and its stock was not confirmed yet. The first click is
      applied and the second is turned away. */
  lemma SecondClickIsTurnedAway() returns (s: Store, request: seq<Entry>)
    ensures CyclesExist(s) && 1 in s.cycles && IsCurrent(s, request, 1, Some("H")) && !Standing(s, 1, "H")
    ensures 1 in Answered(s, request, 1, "H").cycles && !IsCurrent(Answered(s, request, 1, "H"), request, 1, Some("H"))
  {
    s := Store([Policy(None, "P", RUPEES, 0, None, true, "")],
      map[1 := Cycle(DEFAULT_SCOPE, 0, 6, true, false, Some("H"))], map[]);
    request := [Entry(0, Item("P", Available, Some(5)))];
    assert IsShown(s, 1, 0) && request[0].template == 0;
    assert Names(request, 0);
    assert RequestOk(s, request, 1);
    ResentRequestExactly(s, request, 1, "H", Some("H"));
    hide RequestOk, Answered;
  }

  /** The request as the reloaded editor would send it: the same items under the policies just made. */
  function Reloaded(request: seq<Entry>, first: nat): seq<Entry> {
    seq(|request|, i requires 0 <= i < |request| => Entry(first + i, request[i].item))
  }

  lemma NewAreShown(s: Store, items: seq<Item>, cycle: nat, source: string, i: nat)
    requires cycle in s.cycles && CyclesExist(s) && ItemsOk(items) && i < |items|
    ensures var next := PricesConfirmed(s, items, cycle, source);
      cycle in next.cycles && IsShown(next, cycle, |s.policies| + i)
  {
    hide PricesConfirmed, IsTemplate, CyclesExist;
    var next, k := PricesConfirmed(s, items, cycle, source), |s.policies| + i;
    CycleStays(s, items, cycle, source);
    ItemsAreDistinct(items);
    NewAreTemplates(s, items, cycle, source, i);
    TemplatesAreNew(s, items, cycle, source, k);
    forall j | 0 <= j < |next.policies| && IsTemplate(next, cycle, j)
      && next.policies[j].product == next.policies[k].product
      ensures Precedes(next, cycle, j, k)
    {
      TemplatesAreNew(s, items, cycle, source, j);
      assert j == k;
    }
    hide ItemsOk;
    assert k < |next.policies|;
    ShownIs(next, cycle, k);
  }

  lemma ShownIs(s: Store, cycle: nat, k: nat)
    requires cycle in s.cycles && k < |s.policies| && IsTemplate(s, cycle, k)
    requires forall j ::
      0 <= j < |s.policies| && IsTemplate(s, cycle, j) && s.policies[j].product == s.policies[k].product ==>
      Precedes(s, cycle, j, k)
    ensures IsShown(s, cycle, k)
  {
  }

  lemma ReloadedEntryFits(s: Store, request: seq<Entry>, cycle: nat, source: string, i: nat)
    requires cycle in s.cycles && CyclesExist(s) && ItemsOk(ItemsOf(request)) && i < |request|
    ensures var next, entry := PricesConfirmed(s, ItemsOf(request), cycle, source), Reloaded(request, |s.policies|)[i];
      && cycle in next.cycles && entry.template < |next.policies| && IsShown(next, cycle, entry.template)
      && entry.item.product == next.policies[entry.template].product && entry.item == request[i].item
  {
    NewAreShown(s, ItemsOf(request), cycle, source, i);
    NewAreTemplates(s, ItemsOf(request), cycle, source, i);
    hide PricesConfirmed, IsShown, ItemsOk;
  }

  lemma ReloadedNamesShown(s: Store, request: seq<Entry>, cycle: nat, source: string, k: nat)
    requires cycle in s.cycles && CyclesExist(s)
    requires var next := PricesConfirmed(s, ItemsOf(request), cycle, source);
      cycle in next.cycles && IsShown(next, cycle, k)
    ensures Names(Reloaded(request, |s.policies|), k)
  {
    TemplatesAreNew(s, ItemsOf(request), cycle, source, k);
    hide PricesConfirmed;
    assert Reloaded(request, |s.policies|)[k - |s.policies|].template == k;
  }

  /** After a reload the same prices and stock are recognised: that request is current, and its batch stands. */
  lemma ReloadedRequestIsRecognised(s: Store, request: seq<Entry>, cycle: nat, source: string)
    requires cycle in s.cycles && CyclesExist(s) && RequestOk(s, request, cycle)
    ensures var next, again := PricesConfirmed(s, ItemsOf(request), cycle, source), Reloaded(request, |s.policies|);
      && cycle in next.cycles && IsCurrent(next, again, cycle, Some(source)) && Standing(next, cycle, source)
      && ItemsOf(again) == ItemsOf(request)
  {
    var next, again := PricesConfirmed(s, ItemsOf(request), cycle, source), Reloaded(request, |s.policies|);
    RequestListsOnce(s, request, cycle);
    CycleStays(s, ItemsOf(request), cycle, source);
    assert forall i :: 0 <= i < |request| ==> ItemOk(request[i].item);
    assert ItemsOf(again) == ItemsOf(request);
    assert forall i, j :: 0 <= i < j < |again| ==> again[i].template != again[j].template;
    assert |again| == |request| && request != [];
    hide RequestOk, ItemsOk, PricesConfirmed, CyclesExist, ItemOk, ItemsOf, IsShown, Reloaded, Names;
    forall i | 0 <= i < |again|
      ensures again[i].template < |next.policies| && IsShown(next, cycle, again[i].template)
      ensures again[i].item.product == next.policies[again[i].template].product && ItemOk(again[i].item)
    {
      ReloadedEntryFits(s, request, cycle, source, i);
    }
    forall k | 0 <= k < |next.policies| && IsShown(next, cycle, k)
      ensures Names(again, k)
    {
      ReloadedNamesShown(s, request, cycle, source, k);
    }
    RequestIs(next, again, cycle);
  }

  lemma RequestIs(s: Store, request: seq<Entry>, cycle: nat)
    requires cycle in s.cycles && request != []
    requires forall i, j :: 0 <= i < j < |request| ==> request[i].template != request[j].template
    requires forall i :: 0 <= i < |request| ==>
      request[i].template < |s.policies| && IsShown(s, cycle, request[i].template)
    requires forall k :: 0 <= k < |s.policies| && IsShown(s, cycle, k) ==> Names(request, k)
    requires forall i :: 0 <= i < |request| ==>
      request[i].item.product == s.policies[request[i].template].product && ItemOk(request[i].item)
    ensures RequestOk(s, request, cycle)
  {
  }

  // ----- Policies that were replaced -----

  /** No step makes a policy active again, or moves it. */
  lemma InactiveStays(s: Store, step: Step, k: nat)
    requires Enabled(s, step) && k < |s.policies| && !s.policies[k].active
    ensures k < |Apply(s, step).policies| && !Apply(s, step).policies[k].active
  {
    hide RowsOk, RequestOk, InventoryOk, StockedItems, NewPolicies, Template, Replaced;
  }

  lemma {:induction false} InactiveStaysAlong(s: Store, steps: seq<Step>, end: Store, k: nat)
    requires Run(s, steps, end) && k < |s.policies| && !s.policies[k].active
    ensures k < |end.policies| && !end.policies[k].active
    decreases |steps|
  {
    hide Enabled, Apply;
    if steps != [] {
      InactiveStays(s, steps[0], k);
      InactiveStaysAlong(Apply(s, steps[0]), steps[1..], end, k);
    }
  }

  /** A request that was applied is never accepted again, in any week, whatever happens in between. */
  lemma AppliedRequestNeverAgain(s: Store, request: seq<Entry>, cycle: nat, source: string, steps: seq<Step>,
      end: Store, later: nat)
    requires cycle in s.cycles && CyclesExist(s) && RequestOk(s, request, cycle)
    requires Run(PricesConfirmed(s, ItemsOf(request), cycle, source), steps, end) && later in end.cycles
    ensures !RequestOk(end, request, later)
  {
    var k := request[0].template;
    assert IsShown(s, cycle, k);
    KeptAfterConfirm(s, ItemsOf(request), cycle, source, k);
    InactiveStaysAlong(PricesConfirmed(s, ItemsOf(request), cycle, source), steps, end, k);
    hide PricesConfirmed, Run;
    assert RequestOk(end, request, later) ==> IsShown(end, later, k);
  }

  class CommercialDesk {
    var policies: seq<Policy>
    var cycles: map<nat, Cycle>
    var stock: map<(nat, string), Availability>

    function Contents(): Store
      reads this
    {
      Store(policies, cycles, stock)
    }

    constructor ()
      ensures Contents() == Store([], map[], map[])
    {
      policies, cycles, stock := [], map[], map[];
    }

    method Deactivate(out: Policy -> bool)
      modifies this`policies
      ensures policies == Deactivated(old(policies), out)
    {
      for i := 0 to |policies|
        invariant |policies| == |old(policies)|
        invariant forall j :: 0 <= j < i ==> policies[j] == Deactivated(old(policies), out)[j]
        invariant forall j :: i <= j < |policies| ==> policies[j] == old(policies)[j]
      {
        if out(policies[i]) {
          policies := policies[i := policies[i].(active := false)];
        }
      }
    }

    method AddPolicies(rows: seq<Row>, cycle: nat, source: string)
      modifies this`policies
      ensures policies == old(policies) + NewPolicies(rows, cycle, source)
    {
      for i := 0 to |rows|
        invariant policies == old(policies) + NewPolicies(rows[..i], cycle, source)
      {
        assert rows[..i + 1][..i] == rows[..i];
        if !rows[i].manualOnly {
          policies := policies + [PolicyFor(rows[i], cycle, source)];
        }
      }
      assert rows[..|rows|] == rows;
    }

    /** `seen` is what the validation read before the scope was locked, and `inFlight` says that an automatic
        quote of the scope is being delivered. */
    method ImportPrices(rows: seq<Row>, cycle: nat, source: string, replace: bool, seen: seq<Policy>, inFlight: bool)
        returns (outcome: Outcome)
      requires cycle in cycles
      modifies this
      ensures outcome == Applied && seen == old(policies) ==>
        Enabled(old(Contents()), CommercialRuns.ImportPrices(rows, cycle, source, replace))
      ensures outcome == Applied ==> Contents() == PricesApplied(old(Contents()), rows, cycle, source, replace)
      ensures outcome == Applied ==>
        CommercialEffects.Imports(old(Contents()), Contents(), rows, cycle, source, replace)
      ensures outcome != Applied ==> Contents() == old(Contents())
      ensures outcome == Applied <==>
        RowsOk(seen, rows, replace) && (exists i :: 0 <= i < |rows| && !rows[i].manualOnly)
        && !CommercialEffects.BatchStands(old(Contents()), cycle, source) && !inFlight
      ensures outcome == AlreadyApplied ==> CommercialEffects.BatchStands(old(Contents()), cycle, source)
    {
      hide RowsOk, Overlaps, CommercialEffects.Imports;
      var ok := ValidateRows(seen, rows, replace);
      if !ok || !(exists i :: 0 <= i < |rows| && !rows[i].manualOnly) {
        return Rejected;
      }
      if AlreadyImported(cycle, source) {
        return AlreadyApplied;
      }
      if inFlight {
        return Rejected;
      }
      if replace {
        var current, scope := cycles, cycles[cycle].scope;
        Deactivate(p => Replaced(current, rows, scope, p));
      }
      assert policies == Remaining(old(Contents()), rows, cycle, replace);
      stock := WithoutStock(stock, cycle);
      cycles := cycles[cycle := cycles[cycle].(inventoryConfirmed := false, priceConfirmed := false)];
      AddPolicies(rows, cycle, source);
      cycles := cycles[cycle := cycles[cycle].(priceConfirmed := true, priceRef := Some(source))];
      outcome := Applied;
      CommercialEffects.ImportImports(old(Contents()), rows, cycle, source, replace);
    }

    predicate AlreadyImported(cycle: nat, source: string)
      reads this
    {
      exists k :: 0 <= k < |policies| && policies[k].active && policies[k].cycle == Some(cycle)
        && policies[k].source == source
    }

    method RecordStock(items: seq<Item>, cycle: nat)
      modifies this`stock
      ensures stock == StockedItems(old(stock), items, cycle)
    {
      for i := 0 to |items|
        invariant stock == StockedItems(old(stock), items[..i], cycle)
      {
        assert items[..i + 1][..i] == items[..i];
        stock := stock[(cycle, items[i].product) := items[i].availability];
      }
      assert items[..|items|] == items;
    }

    method AddItems(items: seq<Item>, cycle: nat, week: Cycle, source: string)
      modifies this`policies
      ensures policies == old(policies) + ItemPolicies(items, cycle, week, source)
    {
      for i := 0 to |items|
        invariant policies == old(policies) + ItemPolicies(items[..i], cycle, week, source)
      {
        policies := policies
          + [Policy(Some(cycle), items[i].product, RUPEES, week.weekStart, Some(week.weekEnd), true, source)];
      }
      assert items[..|items|] == items;
    }

    /** Replaces the prices and the stock of the cycle together, unless the reader looked at an older week, an
        older batch or other templates, a quote is being delivered, or the same batch stands already. `source` is
        the hash of the items, `expectedCycle` and `expectedRef` are what the reader saw. */
    method ConfirmPrices(request: seq<Entry>, cycle: nat, source: string, expectedCycle: nat,
        expectedRef: Option<string>, inFlight: bool) returns (outcome: Outcome)
      requires cycle in cycles
      modifies this
      ensures outcome == Rejected <==>
        !(expectedCycle == cycle && IsCurrent(old(Contents()), request, cycle, expectedRef) && !inFlight)
      ensures outcome == AlreadyApplied ==> Standing(old(Contents()), cycle, source)
      ensures outcome == Applied ==> !Standing(old(Contents()), cycle, source)
      ensures outcome == Applied ==> Enabled(old(Contents()), CommercialRuns.ConfirmPrices(request, cycle, source))
      ensures outcome == Applied ==>
        CommercialEffects.Confirms(old(Contents()), Contents(), ItemsOf(request), cycle, source)
      ensures Contents()
        == if outcome == Rejected then old(Contents()) else Answered(old(Contents()), request, cycle, source)
    {
      if expectedCycle != cycle || expectedRef != cycles[cycle].priceRef || inFlight {
        return Rejected;
      }
      if !RequestOk(Contents(), request, cycle) {
        return Rejected;
      }
      if Standing(Contents(), cycle, source) {
        return AlreadyApplied;
      }
      var items := ItemsOf(request);
      outcome := Applied;
      RequestListsOnce(Contents(), request, cycle);
      CommercialEffects.ConfirmConfirms(Contents(), items, cycle, source);
      hide CommercialEffects.Confirms, ItemsOk;
      hide RequestOk, ItemsOf, ItemPolicies, StockedItems, Template;
      var current, week := cycles, cycles[cycle];
      Deactivate(p => Template(current, week.scope, p));
      stock := WithoutStock(stock, cycle);
      AddItems(items, cycle, week, source);
      RecordStock(items, cycle);
      cycles := cycles[cycle := week.(inventoryConfirmed := true, priceConfirmed := true, priceRef := Some(source))];
    }

    /** `priceRef` is the price batch the stock was counted for. */
    method ConfirmInventory(items: seq<Item>, cycle: nat, priceRef: string, inFlight: bool) returns (accepted: bool)
      requires cycle in cycles
      modifies this
      ensures accepted <==>
        InventoryOk(old(Contents()), items, cycle) && !inFlight
        && priceRef != "" && old(cycles[cycle].priceRef) == Some(priceRef)
      ensures accepted ==> Enabled(old(Contents()), CommercialRuns.ConfirmInventory(items, cycle))
      ensures Contents() == if accepted then InventoryTaken(old(Contents()), items, cycle) else old(Contents())
      ensures accepted ==> CommercialEffects.TakesStock(old(Contents()), Contents(), items, cycle)
    {
      accepted := priceRef != "" && cycles[cycle].priceRef == Some(priceRef) && !inFlight
        && InventoryOk(Contents(), items, cycle);
      if !accepted {
        return;
      }
      CommercialEffects.InventoryTakes(Contents(), items, cycle);
      hide CommercialEffects.TakesStock;
      RecordStock(items, cycle);
      var complete := Priced(policies, cycle) == Stocked(stock, cycle);
      cycles := cycles[cycle := cycles[cycle].(inventoryConfirmed := complete)];
    }
  }
}
