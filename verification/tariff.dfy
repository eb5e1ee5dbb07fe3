/**
 The tariff and landed-cost engine: lane lookup, product-specific rate
 choice by literal HS-code prefix, duty on the CIF value, the four-line
 breakdown with its total and effective rate, and the economic-impact score.
 Money and rates are `real`; the rate table and the employment-factor table
 are parameters, with the shipped tables as constants.
 */
module Tariff {
  import opened Seqs
  import opened Text

  /** One `{ hsCode, rate }` override; `hsCode` may be a range such as "72-73". */
  datatype ProductRate = ProductRate(hsCode: string, rate: real)

  /** The rule for one trade lane. `effectiveDate` plays no part in rate choice and is not modelled. */
  datatype TariffRate = TariffRate(
    countryFrom: string,
    countryTo: string,
    baseRate: real,
    productSpecificRates: seq<ProductRate>)

  /** A request. The two optional fields are `None` when absent. */
  datatype TradeCalculation = TradeCalculation(
    productValue: real,
    freightCosts: real,
    insuranceCosts: real,
    hsCode: string,
    countryFrom: string,
    countryTo: string,
    currency: string,
    annualVolume: Option<real>,
    employmentFactor: Option<real>)

  datatype LineItem = LineItem(description: string, amount: real)

  datatype EconomicImpact = EconomicImpact(
    jobsAffected: int,
    revenueImpact: real,
    marketShareImpact: real,
    competitivenessScore: real)

  datatype CalculationResult = CalculationResult(
    tariffAmount: real,
    vatAmount: Option<real>,
    totalLandedCost: real,
    effectiveRate: real,
    breakdown: seq<LineItem>,
    economicImpact: EconomicImpact)

  /** The error thrown when no rule exists for the requested lane. */
  datatype TariffError = NoRateFound(countryFrom: string, countryTo: string)

  datatype Result<+T> = Ok(value: T) | Err(error: TariffError)

  /** The three lanes the calculator ships with. */
  const DefaultRates: seq<TariffRate> := [
    TariffRate("CA", "US", 0.25, [
      ProductRate("72-73", 0.25),
      ProductRate("76", 0.10),
      ProductRate("84-85", 0.25)]),
    TariffRate("MX", "US", 0.25, [
      ProductRate("50-63", 0.35),
      ProductRate("87", 0.25),
      ProductRate("07-08", 0.25)]),
    TariffRate("CN", "US", 0.10, [
      ProductRate("84-85", 0.25),
      ProductRate("94", 0.25),
      ProductRate("61-62", 0.25)])
  ]

  /** Jobs per $1,000,000 of trade, by origin country. */
  const DefaultEmploymentFactors: map<string, real> := map["CA" := 5.2, "MX" := 6.8, "CN" := 4.5]

  /** Factor used when the origin has no (non-zero) entry in the table. */
  const FallbackEmploymentFactor: real := 5.0

  /** Assumed share of annual trade lost because of the tariff. */
  const TradeReductionShare: real := 0.15

  /** Assumed market-share loss, reported as is and scored at 100 points per unit. */
  const BaseMarketShareImpact: real := 0.15

  const Million: real := 1000000.0

  // ---------------------------------------------------------------------------
  // Rate resolution

  /** `code.split('-')[0]`: the text before the first `-`, or all of it. */
  function BeforeDash(code: string): (r: string)
    ensures IsPrefix(r, code)
    ensures '-' !in r
    ensures |r| < |code| ==> code[|r|] == '-'
  {
    match FindIndex(code, c => c == '-')
    case None => code
    case Some(i) => code[..i]
  }

  predicate OnLane(r: TariffRate, from: string, to: string)
  {
    r.countryFrom == from && r.countryTo == to
  }

  /** An override applies when the part of its code before `-` is a literal prefix of the request's code. */
  predicate Applies(e: ProductRate, hsCode: string)
  {
    IsPrefix(BeforeDash(e.hsCode), hsCode)
  }

  /** `j` is the first override in `entries` that applies to `hsCode`. */
  ghost predicate FirstApplying(entries: seq<ProductRate>, hsCode: string, j: int)
  {
    && 0 <= j < |entries|
    && Applies(entries[j], hsCode)
    && forall k :: 0 <= k < j ==> !Applies(entries[k], hsCode)
  }

  /** `i` is the first rule in `rates` for the lane `from -> to`. */
  ghost predicate FirstOnLane(rates: seq<TariffRate>, from: string, to: string, i: int)
  {
    && 0 <= i < |rates|
    && OnLane(rates[i], from, to)
    && forall k :: 0 <= k < i ==> !OnLane(rates[k], from, to)
  }

  /** At most one index is the first rule for a lane. */
  lemma FirstOnLaneUnique(rates: seq<TariffRate>, from: string, to: string, i: int)
    requires FirstOnLane(rates, from, to, i)
    ensures forall k :: FirstOnLane(rates, from, to, k) ==> k == i
  {
  }

  /** The first rule for the lane `from -> to`, if any (`rates.find(...)`). */
  function FindLane(rates: seq<TariffRate>, from: string, to: string): (r: Option<TariffRate>)
    ensures r.None? <==> forall i :: 0 <= i < |rates| ==> !OnLane(rates[i], from, to)
    ensures forall i :: FirstOnLane(rates, from, to, i) ==> r == Some(rates[i])
  {
    match FindIndex(rates, (t: TariffRate) => OnLane(t, from, to))
    case None => None
    case Some(i) =>
      FirstOnLaneUnique(rates, from, to, i);
      Some(rates[i])
  }

  /** The rate a lane applies to `hsCode`: the first applicable override, else the base rate. */
  function ResolveRate(lane: TariffRate, hsCode: string): (rate: real)
    ensures forall j :: FirstApplying(lane.productSpecificRates, hsCode, j) ==>
      rate == lane.productSpecificRates[j].rate
    ensures (forall j :: 0 <= j < |lane.productSpecificRates| ==> !Applies(lane.productSpecificRates[j], hsCode)) ==>
      rate == lane.baseRate
  {
    var entries := lane.productSpecificRates;
    match FindIndex(entries, (e: ProductRate) => Applies(e, hsCode))
    case None => lane.baseRate
    case Some(j) =>
      FirstApplyingUnique(entries, hsCode, j);
      entries[j].rate
  }

  /** At most one index is the first applicable override. */
  lemma FirstApplyingUnique(entries: seq<ProductRate>, hsCode: string, j: int)
    requires FirstApplying(entries, hsCode, j)
    ensures forall k :: FirstApplying(entries, hsCode, k) ==> k == j
  {
  }

  /** `getTariffRate`: fails for an unconfigured lane, otherwise resolves the rate on the lane's rule. */
  function GetTariffRate(rates: seq<TariffRate>, req: TradeCalculation): (r: Result<real>)
    ensures r.Err? <==> forall i :: 0 <= i < |rates| ==> !OnLane(rates[i], req.countryFrom, req.countryTo)
    ensures r.Err? ==> r.error == NoRateFound(req.countryFrom, req.countryTo)
    ensures forall i :: FirstOnLane(rates, req.countryFrom, req.countryTo, i) ==>
      r == Ok(ResolveRate(rates[i], req.hsCode))
  {
    match FindLane(rates, req.countryFrom, req.countryTo)
    case None => Err(NoRateFound(req.countryFrom, req.countryTo))
    case Some(lane) => Ok(ResolveRate(lane, req.hsCode))
  }

  // ---------------------------------------------------------------------------
  // Duty, VAT and breakdown

  /** Customs (CIF) value: product plus freight plus insurance. */
  function DutiableValue(req: TradeCalculation): real
  {
    req.productValue + req.freightCosts + req.insuranceCosts
  }

  /** Duty at `rate` on the CIF value. */
  function Duty(req: TradeCalculation, rate: real): (t: real)
    ensures t == (req.productValue + req.freightCosts + req.insuranceCosts) * rate
  {
    DutiableValue(req) * rate
  }

  /** `calculateTariffAmount`: the resolved rate applied to the CIF value. */
  function CalculateTariffAmount(rates: seq<TariffRate>, req: TradeCalculation): (r: Result<real>)
    ensures r.Ok? <==> GetTariffRate(rates, req).Ok?
    ensures r.Err? ==> r.error == NoRateFound(req.countryFrom, req.countryTo)
    ensures r.Ok? ==> r.value == Duty(req, GetTariffRate(rates, req).value)
  {
    match GetTariffRate(rates, req)
    case Err(e) => Err(e)
    case Ok(rate) => Ok(Duty(req, rate))
  }

  /** `calculateVAT`: every modelled lane ends in the US, which levies no VAT. */
  function CalculateVat(req: TradeCalculation, tariffAmount: real): (r: Option<real>)
    ensures r.None?
  {
    None
  }

  /** A VAT line is added only for a present, non-zero amount (the source tests its truthiness). */
  predicate HasVatLine(vat: Option<real>)
  {
    vat.Some? && vat.value != 0.0
  }

  /** `generateBreakdown`: the four fixed lines, then VAT when there is one. */
  function GenerateBreakdown(req: TradeCalculation, tariffAmount: real, vat: Option<real>): (r: seq<LineItem>)
    ensures |r| == if HasVatLine(vat) then 5 else 4
    ensures r[0] == LineItem("Product Value", req.productValue)
    ensures r[1] == LineItem("Freight Costs", req.freightCosts)
    ensures r[2] == LineItem("Insurance Costs", req.insuranceCosts)
    ensures r[3] == LineItem("Tariff Amount", tariffAmount)
    ensures |r| == 5 ==> r[4] == LineItem("VAT", vat.value)
  {
    var lines := [
      LineItem("Product Value", req.productValue),
      LineItem("Freight Costs", req.freightCosts),
      LineItem("Insurance Costs", req.insuranceCosts),
      LineItem("Tariff Amount", tariffAmount)
    ];
    if HasVatLine(vat) then lines + [LineItem("VAT", vat.value)] else lines
  }

  /** `breakdown.reduce((sum, item) => sum + item.amount, 0)`, folding from the left. */
  function SumAmounts(items: seq<LineItem>): real
  {
    if |items| == 0 then 0.0 else SumAmounts(items[..|items| - 1]) + items[|items| - 1].amount
  }

  lemma SumAmountsSnoc(items: seq<LineItem>, x: LineItem)
    ensures SumAmounts(items + [x]) == SumAmounts(items) + x.amount
  {
    assert (items + [x])[..|items|] == items;
  }

  /** The breakdown sums to the CIF value plus the duty (plus VAT when it has a line). */
  lemma BreakdownSum(req: TradeCalculation, tariffAmount: real, vat: Option<real>)
    ensures SumAmounts(GenerateBreakdown(req, tariffAmount, vat)) ==
      req.productValue + req.freightCosts + req.insuranceCosts + tariffAmount +
      (if HasVatLine(vat) then vat.value else 0.0)
  {
    var r := GenerateBreakdown(req, tariffAmount, vat);
    SumAmountsSnoc([], r[0]);
    assert [] + [r[0]] == r[..1];
    SumAmountsSnoc(r[..1], r[1]);
    assert r[..1] + [r[1]] == r[..2];
    SumAmountsSnoc(r[..2], r[2]);
    assert r[..2] + [r[2]] == r[..3];
    SumAmountsSnoc(r[..3], r[3]);
    assert r[..3] + [r[3]] == r[..4];
    if HasVatLine(vat) {
      SumAmountsSnoc(r[..4], r[4]);
      assert r[..4] + [r[4]] == r;
    } else {
      assert r[..4] == r;
    }
  }

  // ---------------------------------------------------------------------------
  // Economic impact

  function Min(a: real, b: real): real { if a <= b then a else b }
  function Max(a: real, b: real): real { if a >= b then a else b }

  /** `Math.round`: the nearest integer, halves rounded up. */
  function Round(x: real): (n: int)
    ensures n as real - 0.5 <= x < n as real + 0.5
  {
    (x + 0.5).Floor
  }

  /** Annual trade volume: the given one unless absent or zero, else twelve months of this shipment. */
  function AnnualVolume(req: TradeCalculation): (v: real)
    ensures req.annualVolume.Some? && req.annualVolume.value != 0.0 ==> v == req.annualVolume.value
    ensures req.annualVolume.None? || req.annualVolume.value == 0.0 ==> v == req.productValue * 12.0
    ensures req.productValue != 0.0 ==> v != 0.0
  {
    if req.annualVolume.Some? && req.annualVolume.value != 0.0 then req.annualVolume.value
    else req.productValue * 12.0
  }

  /** Jobs per $1M: the given factor unless absent or zero, else the origin's table entry, else 5.0. */
  function EmploymentFactor(factors: map<string, real>, req: TradeCalculation): (f: real)
    ensures req.employmentFactor.Some? && req.employmentFactor.value != 0.0 ==> f == req.employmentFactor.value
    ensures ((req.employmentFactor.None? || req.employmentFactor.value == 0.0) &&
      req.countryFrom in factors && factors[req.countryFrom] != 0.0) ==> f == factors[req.countryFrom]
    ensures ((req.employmentFactor.None? || req.employmentFactor.value == 0.0) &&
      (req.countryFrom !in factors || factors[req.countryFrom] == 0.0)) ==> f == FallbackEmploymentFactor
    ensures f != 0.0
  {
    var base := if req.countryFrom in factors && factors[req.countryFrom] != 0.0
      then factors[req.countryFrom] else FallbackEmploymentFactor;
    if req.employmentFactor.Some? && req.employmentFactor.value != 0.0 then req.employmentFactor.value
    else base
  }

  /** The three penalty components subtracted from 100 in the competitiveness score. */
  datatype ScoreComponents = ScoreComponents(tariffImpact: real, marketShare: real, jobsImpact: real)

  /** Jobs lost: 15% of the annual volume, in millions, times the employment factor, rounded. */
  function JobsAffected(volume: real, factor: real): (jobs: int)
    ensures jobs as real - 0.5 <= volume * TradeReductionShare / Million * factor < jobs as real + 0.5
  {
    Round(volume * TradeReductionShare / Million * factor)
  }

  /**
   The capped components: the duty as a percentage of the product value,
   capped at 40; the market share, exactly 15; and the jobs lost per job
   the volume supports, as a percentage, capped at 30.
   */
  function Components(volume: real, factor: real, tariffAmount: real, productValue: real): (c: ScoreComponents)
    requires productValue != 0.0 && volume != 0.0 && factor != 0.0
    ensures c.tariffImpact <= 40.0 && c.marketShare == 15.0 && c.jobsImpact <= 30.0
    ensures tariffAmount / productValue * 100.0 <= 40.0 ==> c.tariffImpact == tariffAmount / productValue * 100.0
    ensures tariffAmount / productValue * 100.0 >= 40.0 ==> c.tariffImpact == 40.0
    ensures var share := JobsAffected(volume, factor) as real / (volume / Million * factor) * 100.0;
      (share <= 30.0 ==> c.jobsImpact == share) && (share >= 30.0 ==> c.jobsImpact == 30.0)
  {
    var jobs := JobsAffected(volume, factor);
    ScoreComponents(
      Min(40.0, tariffAmount / productValue * 100.0),
      Min(30.0, BaseMarketShareImpact * 100.0),
      Min(30.0, jobs as real / (volume / Million * factor) * 100.0))
  }

  /** `100 - (sum of components)`, clamped to [0, 100]. */
  function Score(c: ScoreComponents): (s: real)
    ensures 0.0 <= s <= 100.0
    ensures 0.0 <= 100.0 - (c.tariffImpact + c.marketShare + c.jobsImpact) <= 100.0 ==>
      s == 100.0 - (c.tariffImpact + c.marketShare + c.jobsImpact)
    ensures 100.0 - (c.tariffImpact + c.marketShare + c.jobsImpact) > 100.0 ==> s == 100.0
    ensures 100.0 - (c.tariffImpact + c.marketShare + c.jobsImpact) < 0.0 ==> s == 0.0
  {
    Max(0.0, Min(100.0, 100.0 - (c.tariffImpact + c.marketShare + c.jobsImpact)))
  }

  /** `calculateEconomicImpact`. The source divides by the product value unguarded, hence the precondition. */
  function CalculateEconomicImpact(factors: map<string, real>, req: TradeCalculation, tariffAmount: real): (r: EconomicImpact)
    requires req.productValue > 0.0
    ensures r.marketShareImpact == 0.15
    ensures 0.0 <= r.competitivenessScore <= 100.0
    ensures var v := AnnualVolume(req); var f := EmploymentFactor(factors, req);
      && r.jobsAffected == JobsAffected(v, f)
      && r.revenueImpact == 0.15 * v + v * (tariffAmount / req.productValue)
      && r.competitivenessScore == Score(Components(v, f, tariffAmount, req.productValue))
  {
    var volume := AnnualVolume(req);
    var factor := EmploymentFactor(factors, req);
    var tradeReduction := volume * TradeReductionShare;
    var jobs := JobsAffected(volume, factor);
    var revenue := tradeReduction + volume * (tariffAmount / req.productValue);
    EconomicImpact(jobs, revenue, BaseMarketShareImpact,
      Score(Components(volume, factor, tariffAmount, req.productValue)))
  }

  /** Jobs and revenue follow the defaulted annual volume and employment factor. */
  lemma EconomicImpactFormulas(factors: map<string, real>, req: TradeCalculation, tariffAmount: real)
    requires req.productValue > 0.0
    ensures var r := CalculateEconomicImpact(factors, req, tariffAmount);
      var v := AnnualVolume(req); var f := EmploymentFactor(factors, req);
      && r.jobsAffected as real - 0.5 <= 0.15 * v / 1000000.0 * f < r.jobsAffected as real + 0.5
      && r.revenueImpact == 0.15 * v + v * (tariffAmount / req.productValue)
  {
  }

  /**
   The components sum to at most 85, so the score is at least 15 and the
   lower clamp at 0 never acts, whatever the signs of the inputs.
   */
  lemma ScoreNeverClampedToZero(volume: real, factor: real, tariffAmount: real, productValue: real)
    requires productValue != 0.0 && volume != 0.0 && factor != 0.0
    ensures var c := Components(volume, factor, tariffAmount, productValue);
      100.0 - (c.tariffImpact + c.marketShare + c.jobsImpact) >= 15.0 && Score(c) >= 15.0
  {
  }

  /** With non-negative duty, volume and factor, no component is negative, so the score lies in [15, 85] and the clamp never acts. */
  lemma ScoreUnclampedForNonNegativeInputs(volume: real, factor: real, tariffAmount: real, productValue: real)
    requires productValue > 0.0 && volume > 0.0 && factor > 0.0 && tariffAmount >= 0.0
    ensures var c := Components(volume, factor, tariffAmount, productValue);
      c.tariffImpact >= 0.0 && c.jobsImpact >= 0.0 &&
      15.0 <= Score(c) <= 85.0 &&
      Score(c) == 100.0 - (c.tariffImpact + c.marketShare + c.jobsImpact)
  {
    var jobs := JobsAffected(volume, factor);
    var x := volume * TradeReductionShare / Million * factor;
    assert x > 0.0;
    assert jobs >= 0;
    var d := volume / Million * factor;
    assert d > 0.0;
    assert jobs as real / d >= 0.0;
    assert tariffAmount / productValue >= 0.0;
  }

  // ---------------------------------------------------------------------------
  // Landed cost

  lemma DivThenMultiply(a: real, b: real)
    requires b != 0.0
    ensures (a / b) * b == a
  {
  }

  /** The result record for a resolved duty: breakdown without VAT, its sum, and the effective rate. */
  function Assemble(req: TradeCalculation, tariffAmount: real, impact: EconomicImpact): (res: CalculationResult)
    requires req.productValue > 0.0
    ensures res.tariffAmount == tariffAmount && res.vatAmount.None? && res.economicImpact == impact
    ensures res.breakdown == GenerateBreakdown(req, tariffAmount, None) && |res.breakdown| == 4
    ensures res.totalLandedCost == SumAmounts(res.breakdown)
    ensures res.totalLandedCost == req.productValue + req.freightCosts + req.insuranceCosts + tariffAmount
    ensures res.effectiveRate * req.productValue == tariffAmount
  {
    var vat := CalculateVat(req, tariffAmount);
    var breakdown := GenerateBreakdown(req, tariffAmount, vat);
    BreakdownSum(req, tariffAmount, vat);
    DivThenMultiply(tariffAmount, req.productValue);
    CalculationResult(tariffAmount, vat, SumAmounts(breakdown), tariffAmount / req.productValue, breakdown, impact)
  }

  /** `calculateTotalLandedCost`. */
  function CalculateTotalLandedCost(rates: seq<TariffRate>, factors: map<string, real>, req: TradeCalculation): (r: Result<CalculationResult>)
    requires req.productValue > 0.0
    ensures r.Err? <==> forall i :: 0 <= i < |rates| ==> !OnLane(rates[i], req.countryFrom, req.countryTo)
    ensures r.Err? ==> r.error == NoRateFound(req.countryFrom, req.countryTo)
    ensures r.Ok? ==> CalculateTariffAmount(rates, req) == Ok(r.value.tariffAmount)
    ensures r.Ok? ==> r.value.vatAmount.None? && |r.value.breakdown| == 4
    ensures r.Ok? ==> r.value.totalLandedCost == SumAmounts(r.value.breakdown)
    ensures r.Ok? ==>
      r.value.totalLandedCost == req.productValue + req.freightCosts + req.insuranceCosts + r.value.tariffAmount
    ensures r.Ok? ==> r.value == Assemble(req, r.value.tariffAmount, r.value.economicImpact)
    ensures r.Ok? ==> r.value.economicImpact.marketShareImpact == 0.15
    ensures r.Ok? ==> 0.0 <= r.value.economicImpact.competitivenessScore <= 100.0
    ensures r.Ok? ==> r.value.economicImpact == CalculateEconomicImpact(factors, req, r.value.tariffAmount)
  {
    match CalculateTariffAmount(rates, req)
    case Err(e) => Err(e)
    case Ok(tariffAmount) => Ok(Assemble(req, tariffAmount, CalculateEconomicImpact(factors, req, tariffAmount)))
  }

  /** With no freight or insurance, the effective rate is exactly the resolved rate. */
  lemma EffectiveRateIsResolvedRate(rates: seq<TariffRate>, factors: map<string, real>, req: TradeCalculation)
    requires req.productValue > 0.0 && req.freightCosts == 0.0 && req.insuranceCosts == 0.0
    requires GetTariffRate(rates, req).Ok?
    ensures CalculateTotalLandedCost(rates, factors, req).Ok?
    ensures CalculateTotalLandedCost(rates, factors, req).value.effectiveRate == GetTariffRate(rates, req).value
  {
    var res := CalculateTotalLandedCost(rates, factors, req).value;
    var rate := GetTariffRate(rates, req).value;
    assert res.tariffAmount == Duty(req, rate);
    AssembleEffectiveRate(req, rate, res.economicImpact);
  }

  lemma AssembleEffectiveRate(req: TradeCalculation, rate: real, impact: EconomicImpact)
    requires req.productValue > 0.0 && req.freightCosts == 0.0 && req.insuranceCosts == 0.0
    ensures Assemble(req, Duty(req, rate), impact).effectiveRate == rate
  {
    var res := Assemble(req, Duty(req, rate), impact);
    assert Duty(req, rate) == rate * req.productValue;
    MultiplyCancel(res.effectiveRate, rate, req.productValue);
  }

  lemma MultiplyCancel(a: real, b: real, c: real)
    requires c != 0.0 && a * c == b * c
    ensures a == b
  {
  }

  // ---------------------------------------------------------------------------
  // The shipped table

  /** Each lane of the shipped table has a single rule. */
  lemma DefaultLanesUnique()
    ensures forall i, j :: 0 <= i < j < |DefaultRates| ==>
      !OnLane(DefaultRates[j], DefaultRates[i].countryFrom, DefaultRates[i].countryTo)
  {
  }

  function Request(from: string, to: string, hsCode: string, value: real, freight: real, insurance: real): TradeCalculation
  {
    TradeCalculation(value, freight, insurance, hsCode, from, to, "USD", None, None)
  }

  /** The code before a `-` at position `i` (the first one). */
  lemma BeforeDashAt(code: string, i: nat)
    requires i < |code| && code[i] == '-' && '-' !in code[..i]
    ensures BeforeDash(code) == code[..i]
  {
  }

  /** A code without `-` is its own prefix. */
  lemma BeforeDashWhole(code: string)
    requires '-' !in code
    ensures BeforeDash(code) == code
  {
  }

  lemma DefaultLanes()
    ensures FirstOnLane(DefaultRates, "CA", "US", 0)
    ensures FirstOnLane(DefaultRates, "MX", "US", 1)
    ensures FirstOnLane(DefaultRates, "CN", "US", 2)
  {
  }

  /** The literal prefixes the Canadian overrides test. */
  lemma CanadaPrefixes()
    ensures BeforeDash("72-73") == "72" && BeforeDash("76") == "76" && BeforeDash("84-85") == "84"
  {
    BeforeDashAt("72-73", 2);
    BeforeDashWhole("76");
    BeforeDashAt("84-85", 2);
  }

  /** The literal prefixes the Mexican overrides test. */
  lemma MexicoPrefixes()
    ensures BeforeDash("50-63") == "50" && BeforeDash("87") == "87" && BeforeDash("07-08") == "07"
  {
    BeforeDashAt("50-63", 2);
    BeforeDashWhole("87");
    BeforeDashAt("07-08", 2);
  }

  /** The literal prefixes the Chinese overrides test. */
  lemma ChinaPrefixes()
    ensures BeforeDash("84-85") == "84" && BeforeDash("94") == "94" && BeforeDash("61-62") == "61"
  {
    BeforeDashAt("84-85", 2);
    BeforeDashWhole("94");
    BeforeDashAt("61-62", 2);
  }

  /** Without a given factor, the origin's table entry applies, and 5.0 for an origin not in the table. */
  lemma DefaultEmploymentFactorsByOrigin(req: TradeCalculation)
    requires req.employmentFactor.None?
    ensures req.countryFrom == "CA" ==> EmploymentFactor(DefaultEmploymentFactors, req) == 5.2
    ensures req.countryFrom == "MX" ==> EmploymentFactor(DefaultEmploymentFactors, req) == 6.8
    ensures req.countryFrom == "CN" ==> EmploymentFactor(DefaultEmploymentFactors, req) == 4.5
    ensures req.countryFrom !in {"CA", "MX", "CN"} ==> EmploymentFactor(DefaultEmploymentFactors, req) == 5.0
  {
  }

  /** "84-85" tests only the literal prefix "84", so chapter 85 from China takes the 0.10 base rate. */
  lemma ChinaChapter85TakesBaseRate()
    ensures GetTariffRate(DefaultRates, Request("CN", "US", "85", 1000.0, 0.0, 0.0)) == Ok(0.10)
  {
    DefaultLanes();
    ChinaPrefixes();
    var entries := DefaultRates[2].productSpecificRates;
    assert !Applies(entries[0], "85") && !Applies(entries[1], "85") && !Applies(entries[2], "85");
  }

  /** Furniture from China: the 0.25 override beats the 0.10 base rate, so 50,000 pays 12,500. */
  lemma ChinaFurnitureScenario()
    ensures CalculateTariffAmount(DefaultRates, Request("CN", "US", "94", 50000.0, 0.0, 0.0)) == Ok(12500.0)
  {
    DefaultLanes();
    ChinaPrefixes();
    var entries := DefaultRates[2].productSpecificRates;
    assert !Applies(entries[0], "94") && Applies(entries[1], "94");
    assert FirstApplying(entries, "94", 1);
  }

  /** An unmatched code from Canada falls back to the 0.25 base rate: 10,000 pays 2,500. */
  lemma CanadaUnmatchedScenario()
    ensures CalculateTariffAmount(DefaultRates, Request("CA", "US", "99", 10000.0, 0.0, 0.0)) == Ok(2500.0)
  {
    DefaultLanes();
    CanadaPrefixes();
    var entries := DefaultRates[0].productSpecificRates;
    assert !Applies(entries[0], "99") && !Applies(entries[1], "99") && !Applies(entries[2], "99");
  }

  /** Vehicles from Mexico: 0.25 on the CIF value 102,500 gives 25,625 duty and 128,125 landed. */
  lemma MexicoVehiclesScenario()
    ensures var r := CalculateTotalLandedCost(DefaultRates, DefaultEmploymentFactors, Request("MX", "US", "87", 100000.0, 2000.0, 500.0));
      r.Ok? && r.value.tariffAmount == 25625.0 && r.value.totalLandedCost == 128125.0 &&
      r.value.effectiveRate == 0.25625
  {
    DefaultLanes();
    MexicoPrefixes();
    var req := Request("MX", "US", "87", 100000.0, 2000.0, 500.0);
    var entries := DefaultRates[1].productSpecificRates;
    assert !Applies(entries[0], "87") && Applies(entries[1], "87");
    assert FirstApplying(entries, "87", 1);
    assert GetTariffRate(DefaultRates, req) == Ok(0.25);
  }

  /** A textile range code on the Mexican lane resolves to the 0.35 textile override. */
  lemma MexicoTextileRangeCode()
    ensures GetTariffRate(DefaultRates, Request("MX", "US", "50-52", 1.0, 0.0, 0.0)) == Ok(0.35)
  {
    DefaultLanes();
    MexicoPrefixes();
    assert FirstApplying(DefaultRates[1].productSpecificRates, "50-52", 0);
  }

  /** A lane with no rule fails with the lane named in the error. */
  lemma UnknownLaneFails()
    ensures GetTariffRate(DefaultRates, Request("DE", "US", "87", 1.0, 0.0, 0.0)) == Err(NoRateFound("DE", "US"))
  {
  }
}
