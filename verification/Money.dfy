/**
  Centavo arithmetic: service lines, the platform fee and its customer-facing mark-up, leg fees and the
  waivable part of the fee (src/online-orders/pricing.util.ts, fulfillment-pricing.util.ts,
  platform-fee-parts.util.ts, and markup in src/discovery/discovery.service.ts).
 */
module Money {
  import opened Wrappers

  /** Math.round: halves go up. */
  function Round(x: real): int { (x + 0.5).Floor }

  lemma RoundBounds(x: real)
    ensures x - 0.5 < Round(x) as real <= x + 0.5
  {
  }

  lemma RoundMonotone(x: real, y: real)
    requires x <= y
    ensures Round(x) <= Round(y)
  {
  }

  // ----- Service lines -----

  datatype PricingType = PerKilo | PerPiece | PerLoad | PerLoadWithCapacity | PerKiloWithBase

  datatype LinePricing = LinePricing(
    pricingType: PricingType, price: real, baseKilos: Option<real>, excessRate: Option<real>, minBillableKg: Option<real>)

  function MaxReal(a: real, b: real): real { if a < b then b else a }

  function BillableKg(weight: Option<real>, minimum: Option<real>): real {
    var kg := weight.GetOr(0.0);
    if minimum.None? || minimum.value <= 0.0 then kg else MaxReal(kg, minimum.value)
  }

  function Ceil(x: real): int { -(-x).Floor }

  function LoadsFor(weight: Option<real>, capacity: Option<real>): int {
    if capacity.None? || capacity.value <= 0.0 then 1
    else Max(1, Ceil(weight.GetOr(0.0) / capacity.value))
  }

  /** A rounded linear charge. */
  function Charge(fixed: real, quantity: real, rate: real): int { Round(fixed + quantity * rate) }

  function LineTotal(p: LinePricing, weight: Option<real>, pieces: Option<int>): int {
    match p.pricingType
    case PerKilo => Charge(0.0, BillableKg(weight, p.minBillableKg), p.price)
    case PerPiece => Charge(0.0, pieces.GetOr(0) as real, p.price)
    case PerLoad => Round(p.price)
    case PerLoadWithCapacity => Charge(0.0, LoadsFor(weight, p.baseKilos) as real, p.price)
    case PerKiloWithBase =>
      var excess := MaxReal(0.0, BillableKg(weight, p.minBillableKg) - p.baseKilos.GetOr(0.0));
      Charge(p.price, excess, p.excessRate.GetOr(0.0))
  }

  lemma DivideCovers(w: real, c: real, n: int)
    requires c > 0.0
    ensures w / c <= n as real <==> w <= n as real * c
  {
    var q := w / c;
    assert q * c == w;
    if q <= n as real { MulMonotone(q, n as real, c); } else { MulStrict(n as real, q, c); }
  }

  lemma MulMonotone(a: real, b: real, c: real)
    requires a <= b && c >= 0.0
    ensures a * c <= b * c
  {
  }

  lemma MulStrict(a: real, b: real, c: real)
    requires a < b && c > 0.0
    ensures a * c < b * c
  {
  }

  /** The least positive number of machine loads that holds the weight. */
  lemma LoadsAreLeast(weight: real, capacity: real, n: int)
    requires capacity > 0.0 && n >= 1
    ensures LoadsFor(Some(weight), Some(capacity)) <= n <==> weight <= n as real * capacity
  {
    DivideCovers(weight, capacity, n);
    var x := weight / capacity;
    assert Ceil(x) <= n <==> x <= n as real;
  }

  /** Splitting a wash over two bookings never needs fewer machines. */
  lemma LoadsSubadditive(a: real, b: real, capacity: real)
    requires capacity > 0.0
    ensures LoadsFor(Some(a + b), Some(capacity))
            <= LoadsFor(Some(a), Some(capacity)) + LoadsFor(Some(b), Some(capacity))
  {
    var m, n := LoadsFor(Some(a), Some(capacity)), LoadsFor(Some(b), Some(capacity));
    LoadsAreLeast(a, capacity, m);
    LoadsAreLeast(b, capacity, n);
    assert (m + n) as real * capacity == m as real * capacity + n as real * capacity;
    LoadsAreLeast(a + b, capacity, m + n);
  }

  lemma LoadsMonotone(light: real, heavy: real, capacity: Option<real>)
    requires light <= heavy
    ensures LoadsFor(Some(light), capacity) <= LoadsFor(Some(heavy), capacity)
  {
    if capacity.Some? && capacity.value > 0.0 {
      var n := LoadsFor(Some(heavy), capacity);
      LoadsAreLeast(heavy, capacity.value, n);
      LoadsAreLeast(light, capacity.value, n);
    }
  }

  lemma BillableMonotone(light: real, heavy: real, minimum: Option<real>)
    requires light <= heavy
    ensures BillableKg(Some(light), minimum) <= BillableKg(Some(heavy), minimum)
  {
  }

  lemma ChargeMonotone(fixed: real, a: real, b: real, rate: real)
    requires a <= b && rate >= 0.0
    ensures Charge(fixed, a, rate) <= Charge(fixed, b, rate)
  {
    MulMonotone(a, b, rate);
    RoundMonotone(fixed + a * rate, fixed + b * rate);
  }

  /** More laundry never costs less when the rates are not negative. */
  lemma LineTotalMonotone(p: LinePricing, light: real, heavy: real, pieces: Option<int>)
    requires light <= heavy && p.price >= 0.0 && p.excessRate.GetOr(0.0) >= 0.0
    ensures LineTotal(p, Some(light), pieces) <= LineTotal(p, Some(heavy), pieces)
  {
    hide Charge, LoadsFor, BillableKg;
    var a, b := BillableKg(Some(light), p.minBillableKg), BillableKg(Some(heavy), p.minBillableKg);
    BillableMonotone(light, heavy, p.minBillableKg);
    match p.pricingType
    case PerKilo => ChargeMonotone(0.0, a, b, p.price);
    case PerPiece =>
    case PerLoad =>
    case PerLoadWithCapacity =>
      LoadsMonotone(light, heavy, p.baseKilos);
      ChargeMonotone(0.0, LoadsFor(Some(light), p.baseKilos) as real, LoadsFor(Some(heavy), p.baseKilos) as real, p.price);
    case PerKiloWithBase =>
      var base := p.baseKilos.GetOr(0.0);
      ChargeMonotone(p.price, MaxReal(0.0, a - base), MaxReal(0.0, b - base), p.excessRate.GetOr(0.0));
  }

  // ----- Mark-up against fee -----

  function PlatformFee(subtotal: int, percent: real): int { Round(subtotal as real * (percent / 100.0)) }

  function Markup(price: int, percent: real): int { Round(price as real * (1.0 + percent / 100.0)) }

  function Sum(prices: seq<int>): int { if prices == [] then 0 else prices[0] + Sum(prices[1..]) }

  function SumMarkedUp(prices: seq<int>, percent: real): int {
    if prices == [] then 0 else Markup(prices[0], percent) + SumMarkedUp(prices[1..], percent)
  }

  /** A price a customer sees is the price plus the fee the provider is charged on it. */
  lemma MarkupIsPricePlusFee(price: int, percent: real)
    ensures Markup(price, percent) == price + PlatformFee(price, percent)
  {
    var rate := percent / 100.0;
    assert price as real * (1.0 + rate) == price as real + price as real * rate;
    assert Markup(price, percent) == (price as real + (price as real * rate + 0.5)).Floor;
  }

  /** n marked-up lines stay within (n+1)/2 centavos of the subtotal plus one fee on it. */
  lemma MarkedUpLinesNearTotal(prices: seq<int>, percent: real)
    ensures var drift := SumMarkedUp(prices, percent) - (Sum(prices) + PlatformFee(Sum(prices), percent));
      -(|prices| + 1) <= 2 * drift <= |prices| + 1
  {
    var rate := percent / 100.0;
    LinesNearExact(prices, percent);
    RoundBounds(Sum(prices) as real * rate);
  }

  lemma {:induction false} LinesNearExact(prices: seq<int>, percent: real)
    ensures var exact := Sum(prices) as real * (1.0 + percent / 100.0);
      exact - |prices| as real / 2.0 <= SumMarkedUp(prices, percent) as real <= exact + |prices| as real / 2.0
  {
    if prices != [] {
      var factor := 1.0 + percent / 100.0;
      LinesNearExact(prices[1..], percent);
      RoundBounds(prices[0] as real * factor);
      assert Sum(prices) as real * factor == prices[0] as real * factor + Sum(prices[1..]) as real * factor;
      assert |prices| == |prices[1..]| + 1;
    }
  }

  // ----- Leg fees -----

  const DEFAULT_LEG_FEE := 0.0
  const DEFAULT_PREMIUM_WINDOW_FEE := 5000.0
  const EXPRESS_FEE := 12000.0
  const DEFAULT_MAX_LEG_FEE := 20_000

  datatype LegPricing = LegPricing(fee: Option<real>, premiumFee: Option<real>)

  datatype ExpressPricing = ExpressPricing(enabled: bool, fee: Option<real>, slaHours: Option<int>)

  datatype FeeConfig = FeeConfig(pickup: Option<LegPricing>, delivery: Option<LegPricing>, express: Option<ExpressPricing>)

  datatype SubMode = FreeBatch | Express | ScheduledPaid

  /** A leg that the provider performs, at an optional sub-mode, or one the customer travels. */
  datatype LegChoice = NotChosen | CustomerTravels | ProviderTravels(subMode: Option<SubMode>)

  datatype FeeError = ExpressIsNotALeg | ExpressNotOffered

  function ClampLegFee(requested: real, ceiling: int): int {
    if requested <= 0.0 then 0 else Min(Round(requested), ceiling)
  }

  function LegAmount(leg: Option<LegPricing>, premium: bool): real {
    if leg.None? then (if premium then DEFAULT_PREMIUM_WINDOW_FEE else DEFAULT_LEG_FEE)
    else
      var base := leg.value.fee.GetOr(DEFAULT_LEG_FEE);
      if premium then leg.value.premiumFee.GetOr(base) else base
  }

  function LegFee(choice: LegChoice, leg: Option<LegPricing>, ceiling: int): Result<int, FeeError> {
    match choice
    case NotChosen => Ok(0)
    case CustomerTravels => Ok(0)
    case ProviderTravels(subMode) =>
      var tier := subMode.GetOr(FreeBatch);
      if tier == Express then Err(ExpressIsNotALeg) else Ok(ClampLegFee(LegAmount(leg, tier == ScheduledPaid), ceiling))
  }

  function FulfillmentFees(pickup: LegChoice, delivery: LegChoice, config: Option<FeeConfig>, ceiling: Option<int>)
    : Result<(int, int), FeeError>
  {
    var limit := ceiling.GetOr(DEFAULT_MAX_LEG_FEE);
    var a := LegFee(pickup, if config.Some? then config.value.pickup else None, limit);
    var b := LegFee(delivery, if config.Some? then config.value.delivery else None, limit);
    match (a, b)
    case (Ok(x), Ok(y)) => Ok((x, y))
    case (Err(e), _) => Err(e)
    case (_, Err(e)) => Err(e)
  }

  function TurnaroundFee(express: bool, config: Option<FeeConfig>, ceiling: int): Result<int, FeeError> {
    if !express then Ok(0)
    else if config.None? || config.value.express.None? || !config.value.express.value.enabled then Err(ExpressNotOffered)
    else Ok(ClampLegFee(config.value.express.value.fee.GetOr(EXPRESS_FEE), ceiling))
  }

  /** Whatever the provider asks, a resolved fee lies between nothing and the ceiling - for every request exactly when the ceiling is not negative. */
  lemma ClampedWithinCeilingExactly(ceiling: int)
    ensures (forall requested: real :: 0 <= ClampLegFee(requested, ceiling) <= ceiling) <==> ceiling >= 0
  {
    if ceiling >= 0 {
      forall requested: real ensures 0 <= ClampLegFee(requested, ceiling) <= ceiling { RoundBounds(requested); }
    } else {
      assert ClampLegFee(0.0, ceiling) == 0;
    }
  }

  lemma ResolvedFeesWithinCeiling(
    pickup: LegChoice, delivery: LegChoice, express: bool, config: Option<FeeConfig>, ceiling: Option<int>)
    requires ceiling.GetOr(DEFAULT_MAX_LEG_FEE) >= 0
    ensures var limit := ceiling.GetOr(DEFAULT_MAX_LEG_FEE);
      var legs, turnaround := FulfillmentFees(pickup, delivery, config, ceiling), TurnaroundFee(express, config, limit);
      && (legs.Ok? ==> 0 <= legs.value.0 <= limit && 0 <= legs.value.1 <= limit)
      && (turnaround.Ok? ==> 0 <= turnaround.value <= limit)
      && (legs.Err? <==> pickup == ProviderTravels(Some(Express)) || delivery == ProviderTravels(Some(Express)))
  {
    ClampedWithinCeilingExactly(ceiling.GetOr(DEFAULT_MAX_LEG_FEE));
    hide ClampLegFee;
  }

  // ----- The waivable part of the fee -----

  datatype OrderPricing = OrderPricing(platformFee: Option<int>, surcharge: Option<int>, discount: Option<int>)

  function Surcharge(p: OrderPricing): int { Max(0, p.surcharge.GetOr(0)) }

  function Gross(p: OrderPricing): int { Max(0, p.platformFee.GetOr(0)) }

  function Waivable(p: OrderPricing): int { Max(0, Gross(p) - Surcharge(p)) }

  function Chargeable(p: OrderPricing): int { Max(0, Gross(p) - Max(0, p.discount.GetOr(0))) }

  /** The fee splits into a waivable and a surcharge part, and forgiving the whole first part still charges the second. */
  lemma WaiverNeverForgivesSurcharge(p: OrderPricing, discount: int)
    ensures Waivable(p) + Min(Surcharge(p), Gross(p)) == Gross(p)
    ensures Chargeable(p.(discount := Some(Waivable(p)))) == Min(Surcharge(p), Gross(p))
    ensures discount <= Waivable(p) ==> Chargeable(p.(discount := Some(discount))) >= Min(Surcharge(p), Gross(p))
    ensures discount > Waivable(p) && Surcharge(p) > 0 && Gross(p) > 0 ==>
      Chargeable(p.(discount := Some(discount))) < Min(Surcharge(p), Gross(p))
  {
  }
}
