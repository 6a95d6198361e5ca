/** Price policies and stock: `import_prices` of `app/imports.py`, and `confirm_current_commercial_data`
    and `confirm_current_inventory` of `app/api.py`. Dates are days; products stand for their codes. */
module Commercial {
  import opened Options

  datatype Policy = Policy(
    cycle: Option<nat>, product: string, currency: string, validFrom: int, validTo: Option<int>, active: bool,
      source: string)

  datatype Availability = Available | OutOfStock | Unknown

  datatype Cycle = Cycle(
    scope: string, weekStart: int, weekEnd: int, priceConfirmed: bool, inventoryConfirmed: bool,
      priceRef: Option<string>)

  /** Stock facts are kept by cycle and product. */
  datatype Store = Store(policies: seq<Policy>, cycles: map<nat, Cycle>, stock: map<(nat, string), Availability>)

  datatype Row = Row(product: string, currency: string, manualOnly: bool, validFrom: int, validTo: Option<int>)

  datatype Item = Item(product: string, availability: Availability, quantity: Option<int>)

  /** A price with its stock, and the policy whose rules it takes over. Policies are named by their position:
      rows are only added. */
  datatype Entry = Entry(template: nat, item: Item)

  const DEFAULT_SCOPE := "default"
  const RUPEES := "INR"

  // ----- Intervals and scopes -----

  /** A missing end is open. */
  predicate Overlaps(from1: int, to1: Option<int>, from2: int, to2: Option<int>) {
    (to2 == None || from1 <= to2.value) && (to1 == None || from2 <= to1.value)
  }

  predicate Clash(p: Policy, q: Policy) {
    p.active && q.active && p.product == q.product && p.currency == q.currency
    && Overlaps(p.validFrom, p.validTo, q.validFrom, q.validTo)
  }

  function ScopeOf(cycles: map<nat, Cycle>, p: Policy): string {
    if p.cycle.Some? && p.cycle.value in cycles then cycles[p.cycle.value].scope else DEFAULT_SCOPE
  }

  /** Two days fall under no two active policies of one product, currency and scope. */
  ghost predicate Disjoint(s: Store) {
    forall i, j :: 0 <= i < j < |s.policies| && ScopeOf(s.cycles, s.policies[i]) == ScopeOf(s.cycles, s.policies[j]) ==>
      !Clash(s.policies[i], s.policies[j])
  }

  /** Confirmed inventory knows the stock of every product its cycle prices in rupees. */
  ghost predicate StockKnown(s: Store) {
    forall i :: 0 <= i < |s.policies| ==> PolicyStocked(s, s.policies[i])
  }

  predicate PolicyStocked(s: Store, p: Policy) {
    (p.active && p.currency == RUPEES && p.cycle.Some? && p.cycle.value in s.cycles
     && s.cycles[p.cycle.value].inventoryConfirmed) ==>
      (p.cycle.value, p.product) in s.stock && s.stock[(p.cycle.value, p.product)] != Unknown
  }

  ghost predicate CyclesExist(s: Store) {
    forall i :: 0 <= i < |s.policies| && s.policies[i].cycle.Some? ==> s.policies[i].cycle.value in s.cycles
  }

  ghost predicate Good(s: Store) {
    CyclesExist(s) && Disjoint(s) && StockKnown(s)
  }

  // ----- Price import -----

  predicate RowClash(a: Row, b: Row) {
    !a.manualOnly && !b.manualOnly && a.product == b.product && a.currency == b.currency
    && Overlaps(a.validFrom, a.validTo, b.validFrom, b.validTo)
  }

  predicate RowMeets(row: Row, p: Policy) {
    !row.manualOnly && p.active && p.product == row.product && p.currency == row.currency
    && Overlaps(p.validFrom, p.validTo, row.validFrom, row.validTo)
  }

  /** What the validation finds nothing wrong with; existing policies of every scope count. */
  ghost predicate RowsOk(policies: seq<Policy>, rows: seq<Row>, replace: bool) {
    && (forall i :: 0 <= i < |rows| ==> rows[i].validTo.Some? ==> rows[i].validFrom <= rows[i].validTo.value)
    && (forall i, j :: 0 <= i < j < |rows| ==> !RowClash(rows[i], rows[j]))
    && (!replace ==> forall i, k :: 0 <= i < |rows| && 0 <= k < |policies| ==> !RowMeets(rows[i], policies[k]))
  }

  function PolicyFor(row: Row, cycle: nat, source: string): Policy {
    Policy(Some(cycle), row.product, row.currency, row.validFrom, row.validTo, true, source)
  }

  function NewPolicies(rows: seq<Row>, cycle: nat, source: string): seq<Policy> {
    if rows == [] then
      []
    else
      var last := rows[|rows| - 1];
      NewPolicies(rows[..|rows| - 1], cycle, source) + if last.manualOnly then [] else [PolicyFor(last, cycle, source)]
  }

  predicate Replaced(cycles: map<nat, Cycle>, rows: seq<Row>, scope: string, p: Policy) {
    && p.active && ScopeOf(cycles, p) == scope
    && exists i :: 0 <= i < |rows| && !rows[i].manualOnly && rows[i].currency == p.currency
  }

  function Deactivated(policies: seq<Policy>, out: Policy -> bool): seq<Policy> {
    seq(|policies|, i requires 0 <= i < |policies| =>
      if out(policies[i]) then policies[i].(active := false) else policies[i])
  }

  function Remaining(s: Store, rows: seq<Row>, cycle: nat, replace: bool): seq<Policy>
    requires cycle in s.cycles
  {
    if replace then Deactivated(s.policies, p => Replaced(s.cycles, rows, s.cycles[cycle].scope, p)) else s.policies
  }

  function WithoutStock(stock: map<(nat, string), Availability>, cycle: nat): map<(nat, string), Availability> {
    map k | k in stock && k.0 != cycle :: stock[k]
  }

  function PricesApplied(s: Store, rows: seq<Row>, cycle: nat, source: string, replace: bool): Store
    requires cycle in s.cycles
  {
    Store(Remaining(s, rows, cycle, replace) + NewPolicies(rows, cycle, source),
          s.cycles[cycle := s.cycles[cycle].(inventoryConfirmed := false, priceConfirmed := true,
            priceRef := Some(source))],
          WithoutStock(s.stock, cycle))
  }

  // ----- Confirmation in the browser -----

  /** A template: an active rupee policy of the scope, or of no cycle at all. */
  predicate Template(cycles: map<nat, Cycle>, scope: string, p: Policy) {
    p.active && p.currency == RUPEES
      && (p.cycle == None || (p.cycle.value in cycles && cycles[p.cycle.value].scope == scope))
  }

  predicate IsTemplate(s: Store, cycle: nat, k: nat)
    requires cycle in s.cycles
  {
    k < |s.policies| && Template(s.cycles, s.cycles[cycle].scope, s.policies[k])
  }

  /** The policies of the cycle itself come before the others, and newer ones before older ones. */
  predicate Precedes(s: Store, cycle: nat, j: nat, k: nat)
    requires j < |s.policies| && k < |s.policies|
  {
    var own, other := s.policies[k].cycle == Some(cycle), s.policies[j].cycle == Some(cycle);
    if own == other then j <= k else own
  }

  /** The one template of its product that the editor shows. */
  predicate IsShown(s: Store, cycle: nat, k: nat)
    requires cycle in s.cycles
  {
    && IsTemplate(s, cycle, k)
    && forall j ::
         0 <= j < |s.policies| && IsTemplate(s, cycle, j) && s.policies[j].product == s.policies[k].product ==>
         Precedes(s, cycle, j, k)
  }

  /** A request names exactly the templates shown, each once and for its product. */
  predicate RequestOk(s: Store, request: seq<Entry>, cycle: nat)
    requires cycle in s.cycles
  {
    && request != []
    && (forall i, j :: 0 <= i < j < |request| ==> request[i].template != request[j].template)
    && (forall i :: 0 <= i < |request| ==> IsShown(s, cycle, request[i].template))
    && (forall k :: 0 <= k < |s.policies| && IsShown(s, cycle, k) ==> Names(request, k))
    && (forall i :: 0 <= i < |request| ==>
          request[i].item.product == s.policies[request[i].template].product && ItemOk(request[i].item))
  }

  predicate Names(request: seq<Entry>, k: nat) {
    exists i :: 0 <= i < |request| && request[i].template == k
  }

  function ItemsOf(request: seq<Entry>): seq<Item> {
    seq(|request|, i requires 0 <= i < |request| => request[i].item)
  }

  /** No product is listed twice, and the stock of each is known. */
  ghost predicate ItemsOk(items: seq<Item>) {
    && (forall i, j :: 0 <= i < j < |items| ==> items[i].product != items[j].product)
    && (forall i :: 0 <= i < |items| ==> ItemOk(items[i]))
  }

  predicate ItemOk(item: Item) {
    item.availability != Unknown && (item.availability == Available ==> item.quantity.Some? && item.quantity.value > 0)
  }

  /** Each product with a template has exactly one that is shown. */
  lemma {:induction false} ShownExists(s: Store, cycle: nat, k: nat, bound: nat) returns (best: nat)
    requires cycle in s.cycles && IsTemplate(s, cycle, k) && bound <= |s.policies|
    ensures best < |s.policies| && IsTemplate(s, cycle, best) && s.policies[best].product == s.policies[k].product
    ensures forall j: nat :: j < bound && IsTemplate(s, cycle, j) && s.policies[j].product == s.policies[k].product ==>
      Precedes(s, cycle, j, best)
  {
    hide Template;
    if bound == 0 {
      best := k;
    } else {
      best := ShownExists(s, cycle, k, bound - 1);
      var j := bound - 1;
      if IsTemplate(s, cycle, j) && s.policies[j].product == s.policies[k].product && !Precedes(s, cycle, j, best) {
        best := j;
      }
    }
  }

  lemma ShownIsUnique(s: Store, cycle: nat, a: nat, b: nat)
    requires cycle in s.cycles && IsShown(s, cycle, a) && IsShown(s, cycle, b)
    ensures s.policies[a].product == s.policies[b].product ==> a == b
  {
    hide Template;
    if s.policies[a].product == s.policies[b].product {
      assert Precedes(s, cycle, a, b) && Precedes(s, cycle, b, a);
    }
  }

  /** A request lists every product on sale. */
  lemma TemplateIsListed(s: Store, request: seq<Entry>, cycle: nat, k: nat) returns (i: nat)
    requires cycle in s.cycles && RequestOk(s, request, cycle) && IsTemplate(s, cycle, k)
    ensures i < |request| && request[i].item.product == s.policies[k].product
  {
    hide Template, ItemOk;
    var best := ShownExists(s, cycle, k, |s.policies|);
    assert IsShown(s, cycle, best);
    assert Names(request, best);
    i :| 0 <= i < |request| && request[i].template == best;
  }

  /** And it lists none twice. */
  lemma RequestListsOnce(s: Store, request: seq<Entry>, cycle: nat)
    requires cycle in s.cycles && RequestOk(s, request, cycle)
    ensures ItemsOk(ItemsOf(request))
  {
    hide Template, ItemOk, Precedes;
    var items := ItemsOf(request);
    forall i, j | 0 <= i < j < |items| ensures items[i].product != items[j].product {
      ShownIsUnique(s, cycle, request[i].template, request[j].template);
    }
  }

  function ItemPolicies(items: seq<Item>, cycle: nat, week: Cycle, source: string): seq<Policy> {
    seq(|items|, i requires 0 <= i < |items| =>
      Policy(Some(cycle), items[i].product, RUPEES, week.weekStart, Some(week.weekEnd), true, source))
  }

  function StockedItems(stock: map<(nat, string), Availability>, items: seq<Item>, cycle: nat)
      : map<(nat, string), Availability> {
    if items == [] then stock
    else
      var last := items[|items| - 1];
      StockedItems(stock, items[..|items| - 1], cycle)[(cycle, last.product) := last.availability]
  }

  function PricesConfirmed(s: Store, items: seq<Item>, cycle: nat, source: string): Store
    requires cycle in s.cycles
  {
    var week := s.cycles[cycle];
    Store(Deactivated(s.policies, p => Template(s.cycles, week.scope, p)) + ItemPolicies(items, cycle, week, source),
          s.cycles[cycle := week.(inventoryConfirmed := true, priceConfirmed := true, priceRef := Some(source))],
          StockedItems(WithoutStock(s.stock, cycle), items, cycle))
  }

  // ----- Confirmation of stock alone -----

  /** The products the cycle prices, in whatever currency. */
  function Priced(policies: seq<Policy>, cycle: nat): set<string> {
    set i | 0 <= i < |policies| && policies[i].active && policies[i].cycle == Some(cycle) :: policies[i].product
  }

  function Stocked(stock: map<(nat, string), Availability>, cycle: nat): set<string> {
    set k | k in stock && k.0 == cycle && stock[k] != Unknown :: k.1
  }

  predicate InventoryOk(s: Store, items: seq<Item>, cycle: nat)
    requires cycle in s.cycles
  {
    && items != [] && s.cycles[cycle].priceConfirmed && Priced(s.policies, cycle) != {}
    && (forall i, j :: 0 <= i < j < |items| ==> items[i].product != items[j].product)
    && (forall i :: 0 <= i < |items| ==>
      items[i].product in Priced(s.policies, cycle) && items[i].availability != Unknown)
  }

  function InventoryTaken(s: Store, items: seq<Item>, cycle: nat): Store
    requires cycle in s.cycles
  {
    var stock := StockedItems(s.stock, items, cycle);
    var complete := Priced(s.policies, cycle) == Stocked(stock, cycle);
    s.(stock := stock, cycles := s.cycles[cycle := s.cycles[cycle].(inventoryConfirmed := complete)])
  }

  // ----- What every commit keeps -----

  lemma {:induction false} NewPolicyComesFromRow(rows: seq<Row>, cycle: nat, source: string, k: nat) returns (i: nat)
    requires k < |NewPolicies(rows, cycle, source)|
    ensures i < |rows| && !rows[i].manualOnly
      && NewPolicies(rows, cycle, source)[k] == PolicyFor(rows[i], cycle, source)
    decreases |rows|
  {
    var init := rows[..|rows| - 1];
    if k < |NewPolicies(init, cycle, source)| {
      i := NewPolicyComesFromRow(init, cycle, source, k);
    } else {
      i := |rows| - 1;
    }
  }

  ghost predicate RowsApart(rows: seq<Row>) {
    forall i, j :: 0 <= i < j < |rows| ==> !RowClash(rows[i], rows[j])
  }

  ghost predicate PoliciesApart(policies: seq<Policy>) {
    forall j, k :: 0 <= j < k < |policies| ==> !Clash(policies[j], policies[k])
  }

  lemma {:induction false} NewPoliciesAreDisjoint(rows: seq<Row>, cycle: nat, source: string)
    requires RowsApart(rows)
    ensures PoliciesApart(NewPolicies(rows, cycle, source))
    decreases |rows|
  {
    if rows != [] {
      var init, news := rows[..|rows| - 1], NewPolicies(rows, cycle, source);
      NewPoliciesAreDisjoint(init, cycle, source);
      var earlier := NewPolicies(init, cycle, source);
      assert earlier <= news;
      forall j, k | 0 <= j < k < |news| ensures !Clash(news[j], news[k]) {
        if k < |earlier| {
          assert !Clash(earlier[j], earlier[k]);
        } else {
          var i := NewPolicyComesFromRow(init, cycle, source, j);
          assert !RowClash(rows[i], rows[|rows| - 1]);
        }
      }
    }
  }

  /** What was active before and still is. */
  lemma RemainingPolicy(s: Store, rows: seq<Row>, cycle: nat, replace: bool, k: nat)
    requires cycle in s.cycles && k < |s.policies|
    ensures |Remaining(s, rows, cycle, replace)| == |s.policies|
    ensures var p := Remaining(s, rows, cycle, replace)[k];
      && p.(active := s.policies[k].active) == s.policies[k] && (p.active ==> s.policies[k].active)
      && (replace && p.active ==> !Replaced(s.cycles, rows, s.cycles[cycle].scope, s.policies[k]))
  {
  }

  /** A new policy never meets a remaining one of its own scope. */
  lemma NewMeetsNone(s: Store, rows: seq<Row>, cycle: nat, source: string, replace: bool, k: nat, j: nat)
    requires cycle in s.cycles && RowsOk(s.policies, rows, replace)
    requires k < |s.policies| && j < |NewPolicies(rows, cycle, source)|
    requires ScopeOf(s.cycles, s.policies[k]) == s.cycles[cycle].scope
    ensures k < |Remaining(s, rows, cycle, replace)|
      && !Clash(Remaining(s, rows, cycle, replace)[k], NewPolicies(rows, cycle, source)[j])
  {
    RemainingPolicy(s, rows, cycle, replace, k);
    var i := NewPolicyComesFromRow(rows, cycle, source, j);
    hide Remaining;
    if !replace {
      assert !RowMeets(rows[i], s.policies[k]);
    }
  }

  lemma ScopesKept(cycles: map<nat, Cycle>, next: map<nat, Cycle>, p: Policy, q: Policy)
    requires cycles.Keys == next.Keys && forall c :: c in cycles ==> cycles[c].scope == next[c].scope
    requires p.cycle == q.cycle
    ensures ScopeOf(cycles, p) == ScopeOf(next, q)
  {
  }

  lemma ImportKeepsDisjoint(s: Store, rows: seq<Row>, cycle: nat, source: string, replace: bool)
    requires cycle in s.cycles && CyclesExist(s) && Disjoint(s) && RowsOk(s.policies, rows, replace)
    ensures Disjoint(PricesApplied(s, rows, cycle, source, replace))
  {
    hide RowsOk, Clash, Remaining, NewPolicies;
    var next := PricesApplied(s, rows, cycle, source, replace);
    var kept, news := Remaining(s, rows, cycle, replace), NewPolicies(rows, cycle, source);
    assert RowsApart(rows) by { RowsAreApart(s.policies, rows, replace); }
    NewPoliciesAreDisjoint(rows, cycle, source);
    KeptLength(s, rows, cycle, replace);
    forall i, j | 0 <= i < j < |next.policies|
      && ScopeOf(next.cycles, next.policies[i]) == ScopeOf(next.cycles, next.policies[j])
      ensures !Clash(next.policies[i], next.policies[j])
    {
      if j < |kept| {
        KeptStayDisjoint(s, rows, cycle, source, replace, i, j);
      } else if i < |kept| {
        var k := NewPolicyComesFromRow(rows, cycle, source, j - |kept|);
        RemainingPolicy(s, rows, cycle, replace, i);
        ScopesKept(s.cycles, next.cycles, s.policies[i], kept[i]);
        NewMeetsNone(s, rows, cycle, source, replace, i, j - |kept|);
      } else {
        assert !Clash(news[i - |kept|], news[j - |kept|]);
      }
    }
  }

  lemma RowsAreApart(policies: seq<Policy>, rows: seq<Row>, replace: bool)
    requires RowsOk(policies, rows, replace)
    ensures RowsApart(rows)
  {
  }

  lemma KeptLength(s: Store, rows: seq<Row>, cycle: nat, replace: bool)
    requires cycle in s.cycles
    ensures |Remaining(s, rows, cycle, replace)| == |s.policies|
  {
  }

  lemma KeptStayDisjoint(s: Store, rows: seq<Row>, cycle: nat, source: string, replace: bool, i: nat, j: nat)
    requires cycle in s.cycles && Disjoint(s) && i < j < |s.policies|
    requires |Remaining(s, rows, cycle, replace)| == |s.policies|
    requires
      var kept := Remaining(s, rows, cycle, replace);
      var cycles := PricesApplied(s, rows, cycle, source, replace).cycles;
      ScopeOf(cycles, kept[i]) == ScopeOf(cycles, kept[j])
    ensures !Clash(Remaining(s, rows, cycle, replace)[i], Remaining(s, rows, cycle, replace)[j])
  {
    var next := PricesApplied(s, rows, cycle, source, replace);
    RemainingPolicy(s, rows, cycle, replace, i);
    RemainingPolicy(s, rows, cycle, replace, j);
    var kept := Remaining(s, rows, cycle, replace);
    hide Remaining, NewPolicies;
    ScopesKept(s.cycles, next.cycles, s.policies[i], kept[i]);
    ScopesKept(s.cycles, next.cycles, s.policies[j], kept[j]);
    assert !Clash(s.policies[i], s.policies[j]);
  }

  lemma ImportKeepsStock(s: Store, rows: seq<Row>, cycle: nat, source: string, replace: bool)
    requires cycle in s.cycles && CyclesExist(s) && StockKnown(s)
    ensures StockKnown(PricesApplied(s, rows, cycle, source, replace))
      && CyclesExist(PricesApplied(s, rows, cycle, source, replace))
  {
    hide Remaining, NewPolicies;
    var next := PricesApplied(s, rows, cycle, source, replace);
    var kept, news := Remaining(s, rows, cycle, replace), NewPolicies(rows, cycle, source);
    KeptLength(s, rows, cycle, replace);
    forall i | 0 <= i < |next.policies|
      ensures PolicyStocked(next, next.policies[i])
      ensures next.policies[i].cycle.Some? ==> next.policies[i].cycle.value in next.cycles
    {
      if i < |kept| {
        RemainingPolicy(s, rows, cycle, replace, i);
        assert PolicyStocked(s, s.policies[i]);
      } else {
        var k := NewPolicyComesFromRow(rows, cycle, source, i - |kept|);
      }
    }
  }
}
