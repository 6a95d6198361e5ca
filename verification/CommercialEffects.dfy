/** What imports and confirmations do, column by column: which policies stop, what the new ones hold, and
    what becomes of the cycle and its stock. */
module CommercialEffects {
  import opened Options
  import opened Commercial
  import opened CommercialRuns

  // ----- Days -----

  /** Both periods hold the day; a period without an end never closes. */
  predicate CommonDay(from1: int, to1: Option<int>, from2: int, to2: Option<int>, day: int) {
    from1 <= day && from2 <= day && (to1.Some? ==> day <= to1.value) && (to2.Some? ==> day <= to2.value)
  }

  ghost predicate ShareDay(from1: int, to1: Option<int>, from2: int, to2: Option<int>) {
    exists day :: CommonDay(from1, to1, from2, to2, day)
  }

  predicate Ordered(validFrom: int, validTo: Option<int>) {
    validTo.Some? ==> validFrom <= validTo.value
  }

  lemma OverlapIsCommonDay(from1: int, to1: Option<int>, from2: int, to2: Option<int>)
    requires Ordered(from1, to1) && Ordered(from2, to2)
    ensures Overlaps(from1, to1, from2, to2) <==> ShareDay(from1, to1, from2, to2)
  {
    if Overlaps(from1, to1, from2, to2) {
      assert CommonDay(from1, to1, from2, to2, if from1 >= from2 then from1 else from2);
    }
  }

  predicate SamePrice(a: Row, product: string, currency: string) {
    !a.manualOnly && a.product == product && a.currency == currency
  }

  /** Rows are accepted exactly when their periods are ordered, no day has two automatic rows of one product
      and currency, and without a replacement none has an active policy of them either. */
  lemma RowsOkExactly(policies: seq<Policy>, rows: seq<Row>, replace: bool)
    requires forall k :: 0 <= k < |policies| ==> Ordered(policies[k].validFrom, policies[k].validTo)
    ensures RowsOk(policies, rows, replace) <==>
      && (forall i :: 0 <= i < |rows| ==> Ordered(rows[i].validFrom, rows[i].validTo))
      && (forall i, j ::
            0 <= i < j < |rows| && SamePrice(rows[i], rows[j].product, rows[j].currency) && !rows[j].manualOnly ==>
            !ShareDay(rows[i].validFrom, rows[i].validTo, rows[j].validFrom, rows[j].validTo))
      && (replace || forall i, k ::
            (0 <= i < |rows| && 0 <= k < |policies| && policies[k].active
             && SamePrice(rows[i], policies[k].product, policies[k].currency)) ==>
            !ShareDay(policies[k].validFrom, policies[k].validTo, rows[i].validFrom, rows[i].validTo))
  {
    hide Overlaps, ShareDay;
    if forall i :: 0 <= i < |rows| ==> Ordered(rows[i].validFrom, rows[i].validTo) {
      forall i, j | 0 <= i < j < |rows|
        ensures RowClash(rows[i], rows[j]) <==>
          SamePrice(rows[i], rows[j].product, rows[j].currency) && !rows[j].manualOnly
          && ShareDay(rows[i].validFrom, rows[i].validTo, rows[j].validFrom, rows[j].validTo)
      {
        OverlapIsCommonDay(rows[i].validFrom, rows[i].validTo, rows[j].validFrom, rows[j].validTo);
      }
      forall i, k | 0 <= i < |rows| && 0 <= k < |policies|
        ensures RowMeets(rows[i], policies[k]) <==>
          SamePrice(rows[i], policies[k].product, policies[k].currency) && policies[k].active
          && ShareDay(policies[k].validFrom, policies[k].validTo, rows[i].validFrom, rows[i].validTo)
      {
        OverlapIsCommonDay(policies[k].validFrom, policies[k].validTo, rows[i].validFrom, rows[i].validTo);
      }
    }
  }

  // ----- Policies -----

  /** At most the active flag differs. */
  predicate OnlyActive(p: Policy, q: Policy) {
    p.cycle == q.cycle && p.product == q.product && p.currency == q.currency && p.validFrom == q.validFrom
    && p.validTo == q.validTo && p.source == q.source
  }

  predicate IsPolicyOf(p: Policy, cycle: nat, product: string, currency: string, validFrom: int, validTo: Option<int>,
      source: string)
  {
    p.active && p.cycle == Some(cycle) && p.product == product && p.currency == currency && p.validFrom == validFrom
    && p.validTo == validTo && p.source == source
  }

  /** Of a known cycle's scope, or of the default scope. */
  predicate InScope(cycles: map<nat, Cycle>, p: Policy, scope: string) {
    if p.cycle.Some? && p.cycle.value in cycles then cycles[p.cycle.value].scope == scope else scope == "default"
  }

  ghost predicate PricesCurrency(rows: seq<Row>, currency: string) {
    exists i :: 0 <= i < |rows| && !rows[i].manualOnly && rows[i].currency == currency
  }

  // ----- Cycles and stock -----

  /** The other cycles stay; this one keeps its scope and week. */
  ghost predicate OnlyStatus(before: map<nat, Cycle>, after: map<nat, Cycle>, cycle: nat)
    requires cycle in before
  {
    && cycle in after && after[cycle].scope == before[cycle].scope
    && after[cycle].weekStart == before[cycle].weekStart && after[cycle].weekEnd == before[cycle].weekEnd
    && forall c :: c != cycle ==> ((c in after <==> c in before) && (c in before ==> after[c] == before[c]))
  }

  ghost predicate OthersStocked(before: map<(nat, string), Availability>, after: map<(nat, string), Availability>,
      cycle: nat)
  {
    forall k: (nat, string) ::
      k.0 != cycle ==> ((k in after <==> k in before) && (k in before ==> after[k] == before[k]))
  }

  // ----- The import -----

  ghost predicate Imports(before: Store, after: Store, rows: seq<Row>, cycle: nat, source: string, replace: bool)
    requires cycle in before.cycles
  {
    var n := |before.policies|;
    && n <= |after.policies| && OnlyStatus(before.cycles, after.cycles, cycle)
    && (forall k :: 0 <= k < n ==> OnlyActive(before.policies[k], after.policies[k]))
    && (forall k :: 0 <= k < n ==>
          (after.policies[k].active <==>
             before.policies[k].active
             && !(replace && InScope(before.cycles, before.policies[k], before.cycles[cycle].scope)
                  && PricesCurrency(rows, before.policies[k].currency))))
    && (forall i :: 0 <= i < |rows| && !rows[i].manualOnly ==> HasNew(after, n, rows[i], cycle, source))
    && (forall k :: n <= k < |after.policies| ==> ComesFromRow(after.policies[k], rows, cycle, source))
    && after.cycles[cycle].priceConfirmed && !after.cycles[cycle].inventoryConfirmed
    && after.cycles[cycle].priceRef == Some(source)
    && OthersStocked(before.stock, after.stock, cycle) && (forall product: string :: (cycle, product) !in after.stock)
  }

  /** Some policy of the cycle from this very file is still active. */
  ghost predicate BatchStands(s: Store, cycle: nat, source: string) {
    exists k :: 0 <= k < |s.policies| && s.policies[k].active && s.policies[k].source == source
      && s.policies[k].cycle == Some(cycle)
  }

  ghost predicate HasNew(after: Store, n: nat, row: Row, cycle: nat, source: string) {
    exists k :: n <= k < |after.policies|
      && IsPolicyOf(after.policies[k], cycle, row.product, row.currency, row.validFrom, row.validTo, source)
  }

  ghost predicate ComesFromRow(p: Policy, rows: seq<Row>, cycle: nat, source: string) {
    exists i :: 0 <= i < |rows| && !rows[i].manualOnly
      && IsPolicyOf(p, cycle, rows[i].product, rows[i].currency, rows[i].validFrom, rows[i].validTo, source)
  }

  lemma NewIsThere(after: Store, n: nat, row: Row, cycle: nat, source: string, k: nat)
    requires n <= k < |after.policies| && after.policies[k] == PolicyFor(row, cycle, source)
    ensures HasNew(after, n, row, cycle, source)
  {
    assert IsPolicyOf(after.policies[k], cycle, row.product, row.currency, row.validFrom, row.validTo, source);
  }

  lemma RowIsThere(p: Policy, rows: seq<Row>, cycle: nat, source: string, i: nat)
    requires i < |rows| && !rows[i].manualOnly && p == PolicyFor(rows[i], cycle, source)
    ensures ComesFromRow(p, rows, cycle, source)
  {
  }

  lemma ImportImports(s: Store, rows: seq<Row>, cycle: nat, source: string, replace: bool)
    requires cycle in s.cycles
    ensures Imports(s, PricesApplied(s, rows, cycle, source, replace), rows, cycle, source, replace)
  {
    hide NewPolicies, HasNew, ComesFromRow;
    var after, news := PricesApplied(s, rows, cycle, source, replace), NewPolicies(rows, cycle, source);
    var kept := Remaining(s, rows, cycle, replace);
    assert |kept| == |s.policies| && after.policies == kept + news;
    forall i | 0 <= i < |rows| && !rows[i].manualOnly ensures HasNew(after, |s.policies|, rows[i], cycle, source) {
      var k := RowHasPolicy(rows, cycle, source, i);
      NewIsThere(after, |s.policies|, rows[i], cycle, source, |s.policies| + k);
    }
    forall k | |s.policies| <= k < |after.policies| ensures ComesFromRow(after.policies[k], rows, cycle, source) {
      var i := NewPolicyComesFromRow(rows, cycle, source, k - |s.policies|);
      assert after.policies[k] == news[k - |s.policies|];
      RowIsThere(after.policies[k], rows, cycle, source, i);
    }
  }

  // ----- The confirmation in the browser -----

  /** What the editor works on: an active rupee policy of the scope, or of no cycle. */
  predicate OnSale(cycles: map<nat, Cycle>, p: Policy, scope: string) {
    p.active && p.currency == "INR"
    && (p.cycle.Some? ==> p.cycle.value in cycles && cycles[p.cycle.value].scope == scope)
  }

  ghost predicate Confirms(before: Store, after: Store, items: seq<Item>, cycle: nat, source: string)
    requires cycle in before.cycles
  {
    && Reprices(before, after, items, cycle, source) && OnlyStatus(before.cycles, after.cycles, cycle)
    && after.cycles[cycle].priceConfirmed && after.cycles[cycle].inventoryConfirmed
    && after.cycles[cycle].priceRef == Some(source) && Restocks(before, after, items, cycle)
  }

  /** Everything on sale stops, and each item has a policy of the week. */
  ghost predicate Reprices(before: Store, after: Store, items: seq<Item>, cycle: nat, source: string)
    requires cycle in before.cycles
  {
    var n, week := |before.policies|, before.cycles[cycle];
    && |after.policies| == n + |items|
    && (forall k :: 0 <= k < n ==> OnlyActive(before.policies[k], after.policies[k]))
    && (forall k :: 0 <= k < n ==>
          (after.policies[k].active <==>
             before.policies[k].active && !OnSale(before.cycles, before.policies[k], week.scope)))
    && (forall i :: 0 <= i < |items| ==>
          IsPolicyOf(after.policies[n + i], cycle, items[i].product, "INR", week.weekStart, Some(week.weekEnd), source))
  }

  /** The cycle has the stock of the items and no other. */
  ghost predicate Restocks(before: Store, after: Store, items: seq<Item>, cycle: nat) {
    && OthersStocked(before.stock, after.stock, cycle)
    && (forall i :: 0 <= i < |items| ==> StockedAs(after.stock, cycle, items[i]))
    && (forall product :: (cycle, product) in after.stock ==> Lists(items, product))
  }

  predicate StockedAs(stock: map<(nat, string), Availability>, cycle: nat, item: Item) {
    (cycle, item.product) in stock && stock[(cycle, item.product)] == item.availability
  }

  predicate Lists(items: seq<Item>, product: string) {
    exists i :: 0 <= i < |items| && items[i].product == product
  }

  lemma {:induction false} StockIsTaken(stock: map<(nat, string), Availability>, items: seq<Item>, cycle: nat)
    requires forall i, j :: 0 <= i < j < |items| ==> items[i].product != items[j].product
    ensures OthersStocked(stock, StockedItems(stock, items, cycle), cycle)
    ensures forall i :: 0 <= i < |items| ==> StockedAs(StockedItems(stock, items, cycle), cycle, items[i])
    ensures forall product :: !Lists(items, product) ==>
      ((cycle, product) in StockedItems(stock, items, cycle) <==> (cycle, product) in stock)
    ensures forall product :: !Lists(items, product) && (cycle, product) in stock ==>
      StockedItems(stock, items, cycle)[(cycle, product)] == stock[(cycle, product)]
    decreases |items|
  {
    if items != [] {
      var init, last := items[..|items| - 1], items[|items| - 1];
      StockIsTaken(stock, init, cycle);
      ListsOneMore(items);
      hide Lists;
    }
  }

  lemma ListsOneMore(items: seq<Item>)
    requires items != []
    ensures forall product ::
      Lists(items, product) <==> Lists(items[..|items| - 1], product) || product == items[|items| - 1].product
  {
    forall product | Lists(items[..|items| - 1], product) ensures Lists(items, product) {
      var i :| 0 <= i < |items| - 1 && items[..|items| - 1][i].product == product;
      assert items[i].product == product;
    }
  }

  lemma ConfirmReprices(s: Store, items: seq<Item>, cycle: nat, source: string)
    requires cycle in s.cycles
    ensures Reprices(s, PricesConfirmed(s, items, cycle, source), items, cycle, source)
  {
    hide StockedItems, WithoutStock;
  }

  lemma ConfirmRestocks(s: Store, items: seq<Item>, cycle: nat, source: string)
    requires cycle in s.cycles && ItemsOk(items)
    ensures Restocks(s, PricesConfirmed(s, items, cycle, source), items, cycle)
  {
    hide StockedItems, ItemsOk, Lists, StockedAs, Deactivated, ItemPolicies;
    ItemsAreDistinct(items);
    StockIsTaken(WithoutStock(s.stock, cycle), items, cycle);
  }

  lemma ConfirmConfirms(s: Store, items: seq<Item>, cycle: nat, source: string)
    requires cycle in s.cycles && ItemsOk(items)
    ensures Confirms(s, PricesConfirmed(s, items, cycle, source), items, cycle, source)
  {
    ConfirmReprices(s, items, cycle, source);
    ConfirmRestocks(s, items, cycle, source);
    hide Reprices, Restocks, StockedItems, ItemsOk, Deactivated, ItemPolicies;
  }

  /** The editor shows a policy on sale exactly when its product has none that goes before it: policies of the
      week itself go before the others, and of equals the newest. */
  lemma ShownExactly(s: Store, cycle: nat, k: nat)
    requires cycle in s.cycles && k < |s.policies|
    ensures IsShown(s, cycle, k) <==>
      && OnSale(s.cycles, s.policies[k], s.cycles[cycle].scope)
      && forall j ::
           (0 <= j < |s.policies| && s.policies[j].product == s.policies[k].product
            && OnSale(s.cycles, s.policies[j], s.cycles[cycle].scope)) ==>
           if s.policies[j].cycle == Some(cycle) then s.policies[k].cycle == Some(cycle) && j <= k
           else s.policies[k].cycle == Some(cycle) || j <= k
  {
    assert forall j ::
      0 <= j < |s.policies| ==>
      (IsTemplate(s, cycle, j) <==> OnSale(s.cycles, s.policies[j], s.cycles[cycle].scope));
    hide Template, OnSale;
  }

  ghost predicate NamedBy(request: seq<Entry>, k: nat) {
    exists i :: 0 <= i < |request| && request[i].template == k
  }

  /** A request is accepted exactly when it names each policy shown once and nothing else, each for its product, and
      says of each that it is out of stock or available in a positive quantity. */
  lemma RequestOkExactly(s: Store, request: seq<Entry>, cycle: nat)
    requires cycle in s.cycles
    ensures RequestOk(s, request, cycle) <==>
      && |request| > 0
      && (forall i, j :: 0 <= i < j < |request| ==> request[i].template != request[j].template)
      && (forall k: nat :: NamedBy(request, k) <==> IsShown(s, cycle, k))
      && (forall i :: 0 <= i < |request| ==>
            request[i].template < |s.policies|
            && request[i].item.product == s.policies[request[i].template].product
            && (request[i].item.availability == OutOfStock
                || (request[i].item.availability == Available
                    && request[i].item.quantity.Some? && request[i].item.quantity.value > 0)))
  {
    forall k: nat ensures NamedBy(request, k) <==> Names(request, k) {
      if NamedBy(request, k) {
        var i :| 0 <= i < |request| && request[i].template == k;
      }
    }
    assert forall i :: 0 <= i < |request| ==> NamedBy(request, request[i].template);
    assert forall k: nat :: IsShown(s, cycle, k) ==> k < |s.policies|;
    hide IsShown, Names, NamedBy;
  }

  // ----- The confirmation of stock -----

  /** The active policies of the cycle price the product, in whatever currency. */
  ghost predicate IsPriced(s: Store, cycle: nat, product: string) {
    exists k :: 0 <= k < |s.policies| && s.policies[k].active && s.policies[k].cycle == Some(cycle)
      && s.policies[k].product == product
  }

  predicate IsKnown(stock: map<(nat, string), Availability>, cycle: nat, product: string) {
    (cycle, product) in stock && stock[(cycle, product)] != Unknown
  }

  ghost predicate TakesStock(before: Store, after: Store, items: seq<Item>, cycle: nat)
    requires cycle in before.cycles
  {
    && after.policies == before.policies && OnlyStatus(before.cycles, after.cycles, cycle)
    && after.cycles[cycle].priceConfirmed == before.cycles[cycle].priceConfirmed
    && after.cycles[cycle].priceRef == before.cycles[cycle].priceRef
    && OthersStocked(before.stock, after.stock, cycle)
    && (forall i :: 0 <= i < |items| ==> StockedAs(after.stock, cycle, items[i]))
    && (forall product :: !Lists(items, product) ==>
          (IsKnown(after.stock, cycle, product) <==> IsKnown(before.stock, cycle, product)))
    && (after.cycles[cycle].inventoryConfirmed <==>
          forall product :: IsPriced(before, cycle, product) <==> IsKnown(after.stock, cycle, product))
  }

  lemma InventoryTakes(s: Store, items: seq<Item>, cycle: nat)
    requires cycle in s.cycles && InventoryOk(s, items, cycle)
    ensures TakesStock(s, InventoryTaken(s, items, cycle), items, cycle)
  {
    hide StockedItems, Lists, StockedAs, OthersStocked;
    StockIsTaken(s.stock, items, cycle);
    var after := InventoryTaken(s, items, cycle);
    CompleteMeansEqual(s, after.stock, cycle);
  }

  lemma CompleteMeansEqual(s: Store, stock: map<(nat, string), Availability>, cycle: nat)
    ensures Priced(s.policies, cycle) == Stocked(stock, cycle) <==>
      forall product :: IsPriced(s, cycle, product) <==> IsKnown(stock, cycle, product)
  {
    forall product
      ensures product in Priced(s.policies, cycle) <==> IsPriced(s, cycle, product)
      ensures product in Stocked(stock, cycle) <==> IsKnown(stock, cycle, product)
    {
      if IsKnown(stock, cycle, product) { assert (cycle, product).1 == product && (cycle, product) in stock; }
    }
    hide IsPriced, IsKnown, Stocked, Priced;
  }

  /** Stock is taken for a cycle with confirmed prices, each product once, known, and priced by the cycle. */
  lemma InventoryOkExactly(s: Store, items: seq<Item>, cycle: nat)
    requires cycle in s.cycles
    ensures InventoryOk(s, items, cycle) <==>
      && |items| > 0 && s.cycles[cycle].priceConfirmed
      && (forall i, j :: 0 <= i < j < |items| ==> items[i].product != items[j].product)
      && (forall i :: 0 <= i < |items| ==>
            IsPriced(s, cycle, items[i].product)
            && (items[i].availability.Available? || items[i].availability.OutOfStock?))
  {
    CompleteMeansEqual(s, s.stock, cycle);
    assert forall product :: product in Priced(s.policies, cycle) <==> IsPriced(s, cycle, product);
    hide IsPriced, Priced;
    if |items| > 0 && items[0].product in Priced(s.policies, cycle) {
      assert Priced(s.policies, cycle) != {};
    }
  }
}
