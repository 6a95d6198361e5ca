/** The fixed-point price arithmetic of `app/domain.py`. Amounts are reals; a rounded amount is a
    whole number of ticks of 0.0001. */
module Negotiation {
  import opened Options

  const TICKS_PER_UNIT: real := 10000.0

  datatype Policy = Policy(
    standardPrice: real, absoluteFloor: real, maxDiscount: real, concessionStep: real, maxRounds: int,
    minQuantity: int, maxQuantity: Option<int>,
    tier1Max: Option<real>, tier1Markup: real, tier2Max: Option<real>, tier2Markup: real)

  datatype Reason =
    | QuantityOutOfPolicy | CurrentBelowMinimum | MaxRoundsExceeded | AtOrBelowAbsoluteFloor | BelowHardMinimum
    | StandardPrice | Tier1 | Tier2 | NoAdditionalConcession | NoReason

  datatype Decision = Decision(approved: bool, price: Option<int>, floor: int, reason: Reason)

  // ----- Rounding -----

  /** To the nearest tick, ties away from zero. */
  function Money(x: real): int {
    if x >= 0.0 then (x * TICKS_PER_UNIT + 0.5).Floor else -((-x * TICKS_PER_UNIT + 0.5).Floor)
  }

  function Amount(ticks: int): real {
    ticks as real / TICKS_PER_UNIT
  }

  function RealMax(a: real, b: real): real {
    if a >= b then a else b
  }

  function Max(a: int, b: int): int {
    if a >= b then a else b
  }

  lemma MoneyIsNearest(x: real, t: int)
    ensures -0.5 <= Money(x) as real - x * TICKS_PER_UNIT <= 0.5
    ensures -0.5 < t as real - x * TICKS_PER_UNIT < 0.5 ==> Money(x) == t
    ensures x * TICKS_PER_UNIT - t as real == 0.5 && x >= 0.0 ==> Money(x) == t + 1
    ensures x * TICKS_PER_UNIT - t as real == -0.5 && x < 0.0 ==> Money(x) == t - 1
  {
  }

  lemma MoneyIsMonotone(x: real, y: real)
    requires x <= y
    ensures Money(x) <= Money(y)
  {
  }

  lemma MoneyIsIdempotent(ticks: int)
    ensures Money(Amount(ticks)) == ticks
  {
    assert Amount(ticks) * TICKS_PER_UNIT == ticks as real;
  }

  // ----- Quotes -----

  /** The exact product, before rounding. */
  function Times(amount: real, factor: real): real {
    amount * factor
  }

  function MinimumAmount(p: Policy): real {
    RealMax(p.absoluteFloor, Times(p.standardPrice, 1.0 - p.maxDiscount))
  }

  function HardMinimum(p: Policy): int {
    Money(MinimumAmount(p))
  }

  function MarkedUp(p: Policy, markup: real): real {
    Times(p.standardPrice, 1.0 + markup)
  }

  predicate QuantityFits(p: Policy, quantity: int) {
    quantity >= p.minQuantity && (p.maxQuantity == None || quantity <= p.maxQuantity.value)
  }

  function Markup(p: Policy, quantity: int): (real, Reason) {
    if p.tier1Max.Some? && quantity as real < p.minQuantity as real * p.tier1Max.value then (p.tier1Markup, Tier1)
    else if p.tier2Max.Some? && quantity as real <= p.minQuantity as real * p.tier2Max.value then (p.tier2Markup, Tier2)
    else (0.0, StandardPrice)
  }

  function InitialQuote(p: Policy, quantity: int): Decision {
    if !QuantityFits(p, quantity) then Decision(false, None, HardMinimum(p), QuantityOutOfPolicy)
    else
      var (markup, tier) := Markup(p, quantity);
      Decision(true, Some(Money(MarkedUp(p, markup))), HardMinimum(p), tier)
  }

  function Step(p: Policy): int {
    Money(Times(p.standardPrice, p.concessionStep))
  }

  function Counteroffer(p: Policy, currentPrice: real, requestedPrice: real, round: int, quantity: int): Decision {
    var floor, requested, current := HardMinimum(p), Money(requestedPrice), Money(currentPrice);
    if current < floor then Decision(false, None, floor, CurrentBelowMinimum)
    else if !QuantityFits(p, quantity) then Decision(false, None, floor, QuantityOutOfPolicy)
    else if round >= p.maxRounds then Decision(false, None, floor, MaxRoundsExceeded)
    else if requested <= Money(p.absoluteFloor) then Decision(false, None, floor, AtOrBelowAbsoluteFloor)
    else if requested < floor then Decision(false, None, floor, BelowHardMinimum)
    else
      var next := Max(Max(floor, current - Step(p)), requested);
      if next >= current then Decision(true, Some(current), floor, NoAdditionalConcession)
      else Decision(true, Some(next), floor, NoReason)
  }

  /** What the import accepts for a policy that is not quoted by hand. */
  ghost predicate Validated(p: Policy) {
    && p.standardPrice > 0.0 && p.absoluteFloor > 0.0 && p.absoluteFloor <= p.standardPrice
    && 0.0 <= p.maxDiscount < 1.0
    && p.tier1Markup >= 0.0 && p.tier2Markup >= 0.0
    && p.maxRounds >= 0 && p.minQuantity >= 1 && (p.maxQuantity.Some? ==> p.maxQuantity.value >= p.minQuantity)
    && (p.tier1Max.Some? <==> p.tier2Max.Some?)
    && (p.tier1Max.Some? ==> 1.0 < p.tier1Max.value < p.tier2Max.value)
  }

  lemma MarkupRaises(price: real, markup: real, discount: real)
    requires price > 0.0 && markup >= 0.0 && 0.0 <= discount
    ensures price * (1.0 + markup) >= price && price * (1.0 - discount) <= price
  {
    assert price * (1.0 + markup) == price + price * markup;
    assert price * (1.0 - discount) == price - price * discount;
  }

  lemma AmountsAreOrdered(p: Policy, quantity: int)
    requires Validated(p)
    ensures 0.0 <= MinimumAmount(p) <= MarkedUp(p, Markup(p, quantity).0)
  {
    MarkupRaises(p.standardPrice, Markup(p, quantity).0, p.maxDiscount);
  }

  /** A first quote is never below the minimum, at any quantity. */
  lemma InitialQuoteIsHighEnough(p: Policy, quantity: int)
    requires Validated(p)
    ensures InitialQuote(p, quantity).approved <==> QuantityFits(p, quantity)
    ensures InitialQuote(p, quantity).approved ==> InitialQuote(p, quantity).price.value >= HardMinimum(p) >= 0
  {
    hide Money, Markup, MinimumAmount, MarkedUp, Validated;
    AmountsAreOrdered(p, quantity);
    MoneyIsMonotone(MinimumAmount(p), MarkedUp(p, Markup(p, quantity).0));
    MoneyIsMonotone(0.0, MinimumAmount(p));
    MoneyIsIdempotent(0);
    assert Amount(0) == 0.0;
  }

  /** An approved price lies between the minimum and the current price, gives way by one rounded step at
      most, and stays at or above the request unless the customer asks for more than the current price. */
  lemma ApprovedPrice(p: Policy, current: int, requestedPrice: real, round: int, quantity: int)
    requires Counteroffer(p, Amount(current), requestedPrice, round, quantity).approved
    ensures var d := Counteroffer(p, Amount(current), requestedPrice, round, quantity);
      && d.price.Some? && HardMinimum(p) <= d.price.value <= current
      && current - d.price.value <= Max(0, Step(p))
      && (d.price.value >= Money(requestedPrice) <==> Money(requestedPrice) <= current)
      && (d.price.value == current || d.price.value == Money(requestedPrice) || d.price.value == HardMinimum(p)
          || d.price.value == current - Step(p))
      && round < p.maxRounds
  {
    hide Money;
    MoneyIsIdempotent(current);
  }

  // ----- The decisions, in amounts -----

  /** The nearest whole number of ten-thousandths; of two equally near the one away from zero. */
  predicate IsNearest(x: real, ticks: int) {
    && -0.5 <= ticks as real - 10000.0 * x <= 0.5
    && (x >= 0.0 ==> ticks as real - 10000.0 * x > -0.5)
    && (x < 0.0 ==> ticks as real - 10000.0 * x < 0.5)
  }

  lemma NearestIsMoney(x: real, ticks: int)
    ensures IsNearest(x, ticks) <==> ticks == Money(x)
  {
    MoneyIsNearest(x, ticks);
  }

  predicate Sells(p: Policy, quantity: int) {
    p.minQuantity <= quantity && (p.maxQuantity.Some? ==> quantity <= p.maxQuantity.value)
  }

  /** The floor is the absolute one or the discounted standard price, rounded, whichever is higher. */
  lemma FloorIsHigher(p: Policy, absolute: int, discounted: int)
    requires IsNearest(p.absoluteFloor, absolute)
    requires IsNearest(Times(p.standardPrice, 1.0 - p.maxDiscount), discounted)
    ensures HardMinimum(p) == if absolute >= discounted then absolute else discounted
  {
    hide Money, IsNearest, Times;
    var price := Times(p.standardPrice, 1.0 - p.maxDiscount);
    NearestIsMoney(p.absoluteFloor, absolute);
    NearestIsMoney(price, discounted);
    if p.absoluteFloor >= price {
      MoneyIsMonotone(price, p.absoluteFloor);
    } else {
      MoneyIsMonotone(p.absoluteFloor, price);
      assert MinimumAmount(p) == price;
    }
  }

  /** The quantity has outgrown a tier of so many minimum quantities; a missing tier is outgrown from the start. */
  predicate Outgrows(p: Policy, quantity: int, multiple: Option<real>, exclusive: bool) {
    multiple.None? || quantity as real > p.minQuantity as real * multiple.value
    || (exclusive && quantity as real == p.minQuantity as real * multiple.value)
  }

  /** A quote is given exactly for a quantity on sale, at the standard price raised by the markup of the
      first tier the quantity has not outgrown. */
  lemma QuoteExactly(p: Policy, quantity: int)
    ensures var d := InitialQuote(p, quantity);
      && (d.approved <==> Sells(p, quantity)) && (d.approved <==> d.price.Some?) && d.floor == HardMinimum(p)
      && (!d.approved ==> d.reason == QuantityOutOfPolicy)
    ensures var d := InitialQuote(p, quantity);
      d.approved && !Outgrows(p, quantity, p.tier1Max, true) ==>
        d.reason == Tier1 && IsNearest(Times(p.standardPrice, 1.0 + p.tier1Markup), d.price.value)
    ensures var d := InitialQuote(p, quantity);
      d.approved && Outgrows(p, quantity, p.tier1Max, true) && !Outgrows(p, quantity, p.tier2Max, false) ==>
        d.reason == Tier2 && IsNearest(Times(p.standardPrice, 1.0 + p.tier2Markup), d.price.value)
    ensures var d := InitialQuote(p, quantity);
      d.approved && Outgrows(p, quantity, p.tier1Max, true) && Outgrows(p, quantity, p.tier2Max, false) ==>
        d.reason == StandardPrice && IsNearest(p.standardPrice, d.price.value)
  {
    assert Times(p.standardPrice, 1.0 + 0.0) == p.standardPrice;
    hide Money, IsNearest, HardMinimum, Times;
    var amount := MarkedUp(p, Markup(p, quantity).0);
    NearestIsMoney(amount, Money(amount));
  }

  /** A counteroffer is approved exactly when the running price is not below the floor, the quantity is on
      sale, rounds are left, and the request lies above the absolute floor and not below the floor; the first
      of these to fail is the reason given. */
  lemma CounterofferExactly(p: Policy, currentPrice: real, requestedPrice: real, round: int, quantity: int,
      current: int, requested: int, absolute: int)
    requires IsNearest(currentPrice, current) && IsNearest(requestedPrice, requested)
    requires IsNearest(p.absoluteFloor, absolute)
    ensures var d, floor := Counteroffer(p, currentPrice, requestedPrice, round, quantity), HardMinimum(p);
      && d.floor == floor && (d.approved <==> d.price.Some?)
      && (d.approved <==> current >= floor && Sells(p, quantity) && round < p.maxRounds
                          && requested > absolute && requested >= floor)
      && (d.reason == CurrentBelowMinimum <==> current < floor)
      && (d.reason == QuantityOutOfPolicy <==> current >= floor && !Sells(p, quantity))
      && (d.reason == MaxRoundsExceeded <==> current >= floor && Sells(p, quantity) && round >= p.maxRounds)
      && (d.reason == AtOrBelowAbsoluteFloor <==>
            current >= floor && Sells(p, quantity) && round < p.maxRounds && requested <= absolute)
      && (d.approved ==> (d.reason == NoAdditionalConcession <==> d.price.value == current))
  {
    hide Money, IsNearest, HardMinimum, Step, Times;
    NearestIsMoney(currentPrice, current);
    NearestIsMoney(requestedPrice, requested);
    NearestIsMoney(p.absoluteFloor, absolute);
  }

  lemma StepIsNearest(p: Policy, step: int)
    requires IsNearest(Times(p.standardPrice, p.concessionStep), step)
    ensures Step(p) == step
  {
    hide Money, IsNearest, Times;
    NearestIsMoney(Times(p.standardPrice, p.concessionStep), step);
  }

  /** No lower than the floor, the request, and the current price less one step. */
  predicate Permits(floor: int, requested: int, current: int, step: int, price: int) {
    floor <= price && requested <= price && current - step <= price
  }

  /** An approved price is the lowest permitted one, where a step is a share of the standard price, or the
      current price if that is not lower. */
  lemma ApprovedPriceIsLowest(p: Policy, currentPrice: real, requestedPrice: real, round: int, quantity: int,
      current: int, requested: int, step: int, price: int)
    requires IsNearest(currentPrice, current) && IsNearest(requestedPrice, requested)
    requires IsNearest(Times(p.standardPrice, p.concessionStep), step)
    requires Counteroffer(p, currentPrice, requestedPrice, round, quantity).approved
    ensures Counteroffer(p, currentPrice, requestedPrice, round, quantity).price == Some(price) <==>
      && price <= current && (price == current || Permits(HardMinimum(p), requested, current, step, price))
      && forall lower :: lower < price ==> !Permits(HardMinimum(p), requested, current, step, lower)
  {
    hide Money, IsNearest, HardMinimum, Step, Times;
    NearestIsMoney(currentPrice, current);
    NearestIsMoney(requestedPrice, requested);
    StepIsNearest(p, step);
    var floor := HardMinimum(p);
    var lowest := Max(Max(floor, current - step), requested);
    assert Permits(floor, requested, current, step, lowest);
    assert Counteroffer(p, currentPrice, requestedPrice, round, quantity).price ==
      Some(if lowest >= current then current else lowest);
    if price > lowest {
      assert !(forall lower :: lower < price ==> !Permits(floor, requested, current, step, lower));
    }
  }

  // ----- Runs -----

  /** A counteroffer of the customer, and the round number it is decided under. */
  datatype Offer = Offer(requested: real, quantity: int, round: int)

  /** A negotiation in hindsight: the price it ended at, the rounds approved, the reasons given. */
  datatype Outcome = Outcome(price: int, approvals: nat, reasons: seq<Reason>)

  function Negotiate(p: Policy, price: int, offers: seq<Offer>): Outcome
    decreases |offers|
  {
    if offers == [] then Outcome(price, 0, [])
    else
      var d := Counteroffer(p, Amount(price), offers[0].requested, offers[0].round, offers[0].quantity);
      var rest := Negotiate(p, if d.approved && d.price.Some? then d.price.value else price, offers[1..]);
      Outcome(rest.price, rest.approvals + (if d.approved then 1 else 0), [d.reason] + rest.reasons)
  }

  /** Round numbers count up, from `first`. */
  ghost predicate CountsUp(offers: seq<Offer>, first: int)
    decreases |offers|
  {
    offers == [] || (offers[0].round >= first && CountsUp(offers[1..], offers[0].round + 1))
  }

  lemma OneMore(approvals: int, step: int)
    ensures (approvals + 1) * step == approvals * step + step
  {
  }

  lemma {:induction false} RunKeepsPrice(p: Policy, price: int, offers: seq<Offer>)
    requires price >= HardMinimum(p)
    ensures var end := Negotiate(p, price, offers);
      && HardMinimum(p) <= end.price <= price
      && price - end.price <= end.approvals * Max(0, Step(p))
      && CurrentBelowMinimum !in end.reasons
    decreases |offers|
  {
    if offers != [] {
      hide HardMinimum, Step, Money, Amount;
      var offer := offers[0];
      var d := Counteroffer(p, Amount(price), offer.requested, offer.round, offer.quantity);
      MoneyIsIdempotent(price);
      if d.approved {
        ApprovedPrice(p, price, offer.requested, offer.round, offer.quantity);
        hide Counteroffer;
        RunKeepsPrice(p, d.price.value, offers[1..]);
        OneMore(Negotiate(p, d.price.value, offers[1..]).approvals, Max(0, Step(p)));
      } else {
        assert d.reason != CurrentBelowMinimum;
        hide Counteroffer;
        RunKeepsPrice(p, price, offers[1..]);
      }
    }
  }

  lemma {:induction false} RunKeepsRounds(p: Policy, price: int, offers: seq<Offer>, first: int)
    requires CountsUp(offers, first)
    ensures Negotiate(p, price, offers).approvals <= Max(0, p.maxRounds - first)
    decreases |offers|
  {
    if offers != [] {
      var offer := offers[0];
      var d := Counteroffer(p, Amount(price), offer.requested, offer.round, offer.quantity);
      assert d.approved ==> offer.round < p.maxRounds;
      hide Counteroffer;
      RunKeepsRounds(p, if d.approved && d.price.Some? then d.price.value else price, offers[1..], offer.round + 1);
    }
  }

  /** From any first quote of a validated policy, whatever is asked for and in whatever quantity. */
  lemma NegotiationIsSafe(p: Policy, quantity: int, offers: seq<Offer>)
    requires Validated(p) && InitialQuote(p, quantity).approved && CountsUp(offers, 0)
    ensures var start := InitialQuote(p, quantity).price.value; var end := Negotiate(p, start, offers);
      && HardMinimum(p) <= end.price <= start
      && end.approvals <= p.maxRounds
      && start - end.price <= end.approvals * Max(0, Step(p)) <= p.maxRounds * Max(0, Step(p))
      && CurrentBelowMinimum !in end.reasons
  {
    InitialQuoteIsHighEnough(p, quantity);
    var start := InitialQuote(p, quantity).price.value;
    hide InitialQuote, HardMinimum, Step;
    RunKeepsPrice(p, start, offers);
    RunKeepsRounds(p, start, offers, 0);
    Scaled(Negotiate(p, start, offers).approvals, p.maxRounds, Max(0, Step(p)));
  }

  lemma Scaled(a: int, b: int, step: int)
    requires a <= b && step >= 0
    ensures a * step <= b * step
  {
  }

  lemma {:induction false} NegotiateInTwoParts(p: Policy, price: int, first: seq<Offer>, second: seq<Offer>)
    ensures Negotiate(p, price, first + second).price == Negotiate(p, Negotiate(p, price, first).price, second).price
    decreases |first|
  {
    hide Counteroffer;
    if first == [] {
      assert first + second == second;
    } else {
      assert (first + second)[0] == first[0] && (first + second)[1..] == first[1..] + second;
      var d := Counteroffer(p, Amount(price), first[0].requested, first[0].round, first[0].quantity);
      NegotiateInTwoParts(p, if d.approved && d.price.Some? then d.price.value else price, first[1..], second);
    }
  }

  /** One more offer is decided at the price reached so far. */
  lemma NextOffer(p: Policy, price: int, offers: seq<Offer>, offer: Offer)
    ensures var reached, end := Negotiate(p, price, offers).price, Negotiate(p, price, offers + [offer]).price;
      var d := Counteroffer(p, Amount(reached), offer.requested, offer.round, offer.quantity);
      if d.approved then d.price == Some(end) else end == reached
  {
    NegotiateInTwoParts(p, price, offers, [offer]);
    var reached := Negotiate(p, price, offers).price;
    var d := Counteroffer(p, Amount(reached), offer.requested, offer.round, offer.quantity);
    assert Negotiate(p, reached, [offer]).price == if d.approved && d.price.Some? then d.price.value else reached;
    hide Negotiate, HardMinimum, Money;
  }

  /** The price never rises from any moment of a run to a later one. */
  lemma PriceNeverRises(p: Policy, price: int, first: seq<Offer>, second: seq<Offer>)
    requires price >= HardMinimum(p)
    ensures Negotiate(p, price, first + second).price <= Negotiate(p, price, first).price
  {
    hide Negotiate, HardMinimum;
    NegotiateInTwoParts(p, price, first, second);
    RunKeepsPrice(p, price, first);
    RunKeepsPrice(p, Negotiate(p, price, first).price, second);
  }
}
