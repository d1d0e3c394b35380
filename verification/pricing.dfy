/** The pricing engine: the page and folder factor lookups, the
    duration-discount tier scan, and the price breakdown built from them.
    Monetary amounts and multipliers are exact reals. */
module Pricing {

  /** The situation label of a page-count bucket. */
  datatype Situation = A | B | C | D | E | F

  /** The unadjusted monthly rate, in reais. */
  const BaseValue2026: real := 1097.0

  /** Minimum contract duration in months -> discount rate. */
  const DiscountTable: map<int, real> := map[
    12 := 0.00, 24 := 0.07, 36 := 0.14, 48 := 0.22, 60 := 0.27,
    72 := 0.31, 84 := 0.35, 96 := 0.40, 108 := 0.43, 120 := 0.45
  ]

  /** The table's keys in the order the scan visits them (numeric sort). */
  const Tiers: seq<int> := [12, 24, 36, 48, 60, 72, 84, 96, 108, 120]

  /** The tier list is strictly ascending. */
  lemma TiersAscending()
    ensures forall i, j :: 0 <= i < j < |Tiers| ==> Tiers[i] < Tiers[j]
  {
  }

  /** Every entry of the tier list is a key of the table. */
  lemma TiersInTable()
    ensures forall i :: 0 <= i < |Tiers| ==> Tiers[i] in DiscountTable
  {
  }

  /** The tier list holds exactly the table's keys. */
  lemma TiersAreKeys()
    ensures forall t :: t in DiscountTable <==> t in Tiers
  {
  }

  /** The table's rates rise with the key. */
  lemma TableRatesOrdered()
    ensures forall t, u :: t in DiscountTable && u in DiscountTable && t <= u ==>
      DiscountTable[t] <= DiscountTable[u]
  {
  }

  /** Every rate in the table lies within [0, 0.45]. */
  lemma TableRatesInRange()
    ensures forall t :: t in DiscountTable ==> 0.0 <= DiscountTable[t] <= 0.45
  {
  }

  datatype PriceFactors = PriceFactors(pageMult: real, folderMult: real, situation: Situation)

  /** The page-count bucket: inclusive upper bounds 200, 400, 600, 800,
      1000, checked from the lowest up; anything larger is F. */
  function PageFactor(pages: int): (Situation, real)
  {
    if pages <= 200 then (A, 1.0)
    else if pages <= 400 then (B, 1.25)
    else if pages <= 600 then (C, 1.45)
    else if pages <= 800 then (D, 1.65)
    else if pages <= 1000 then (E, 1.85)
    else (F, 2.0)
  }

  /** The folder multiplier: strict `>` thresholds checked from the highest
      (90) down; ten folders or fewer give 1.0. */
  function FolderMultiplier(folders: int): real
  {
    if folders > 90 then 1.60
    else if folders > 80 then 1.50
    else if folders > 70 then 1.45
    else if folders > 60 then 1.40
    else if folders > 50 then 1.35
    else if folders > 40 then 1.30
    else if folders > 30 then 1.25
    else if folders > 20 then 1.20
    else if folders > 10 then 1.10
    else 1.0
  }

  /** Both factors of a pricing request. Negative counts are not rejected:
      they fall into the lowest bucket of each table. */
  function CalculatePriceFactors(pages: int, folders: int): (f: PriceFactors)
    ensures 1.0 <= f.pageMult <= 2.0
    ensures 1.0 <= f.folderMult <= 1.60
    ensures pages < 0 ==> f.situation == A && f.pageMult == 1.0
    ensures folders < 0 ==> f.folderMult == 1.0
  {
    var (situation, pMult) := PageFactor(pages);
    PriceFactors(pMult, FolderMultiplier(folders), situation)
  }

  // ---- Reference tables for the two lookups --------------------------------

  /** The page buckets as a table of (inclusive upper bound, label,
      multiplier); pages above the last bound belong to (F, 2.0). */
  const PageBuckets: seq<(int, Situation, real)> := [
    (200, A, 1.0), (400, B, 1.25), (600, C, 1.45), (800, D, 1.65), (1000, E, 1.85)
  ]

  /** The first bucket, from `i` on, whose upper bound is at least `pages`. */
  function FirstBucket(pages: int, i: nat): (Situation, real)
    requires i <= |PageBuckets|
    decreases |PageBuckets| - i
  {
    if i == |PageBuckets| then (F, 2.0)
    else if pages <= PageBuckets[i].0 then (PageBuckets[i].1, PageBuckets[i].2)
    else FirstBucket(pages, i + 1)
  }

  /** The if-chain is the "smallest qualifying bucket" rule over the table. */
  lemma PageFactorIsFirstBucket(pages: int)
    ensures PageFactor(pages) == FirstBucket(pages, 0)
  {
  }

  /** Each bucket's bound is inclusive: the bound itself stays in the
      bucket and one page more moves to the next one. */
  lemma PageBoundsInclusive()
    ensures forall i :: 0 <= i < |PageBuckets| ==>
      PageFactor(PageBuckets[i].0) == (PageBuckets[i].1, PageBuckets[i].2)
    ensures forall i :: 0 <= i < |PageBuckets| - 1 ==>
      PageFactor(PageBuckets[i].0 + 1) == (PageBuckets[i + 1].1, PageBuckets[i + 1].2)
    ensures PageFactor(1001) == (F, 2.0)
  {
  }

  /** Rank of a label in the order A < B < ... < F. */
  function Rank(s: Situation): nat
  {
    match s
    case A => 0 case B => 1 case C => 2 case D => 3 case E => 4 case F => 5
  }

  /** More pages never lower the page multiplier nor the label. */
  lemma PageFactorMonotone(p: int, q: int)
    requires p <= q
    ensures PageFactor(p).1 <= PageFactor(q).1
    ensures Rank(PageFactor(p).0) <= Rank(PageFactor(q).0)
  {
  }

  /** The folder thresholds as a table of (strict lower threshold,
      multiplier), from the highest threshold down. */
  const FolderSteps: seq<(int, real)> := [
    (90, 1.60), (80, 1.50), (70, 1.45), (60, 1.40), (50, 1.35),
    (40, 1.30), (30, 1.25), (20, 1.20), (10, 1.10)
  ]

  /** The first step, from `i` on, whose threshold `folders` exceeds. */
  function FirstStep(folders: int, i: nat): real
    requires i <= |FolderSteps|
    decreases |FolderSteps| - i
  {
    if i == |FolderSteps| then 1.0
    else if folders > FolderSteps[i].0 then FolderSteps[i].1
    else FirstStep(folders, i + 1)
  }

  lemma FolderMultiplierIsFirstStep(folders: int)
    ensures FolderMultiplier(folders) == FirstStep(folders, 0)
  {
  }

  /** The thresholds are strict: a count equal to a threshold takes the
      next lower step, one more folder takes the threshold's own step. */
  lemma FolderThresholdsStrict()
    ensures forall i :: 0 <= i < |FolderSteps| ==> FolderMultiplier(FolderSteps[i].0 + 1) == FolderSteps[i].1
    ensures forall i :: 0 <= i < |FolderSteps| - 1 ==> FolderMultiplier(FolderSteps[i].0) == FolderSteps[i + 1].1
    ensures FolderMultiplier(10) == 1.0
  {
  }

  /** More folders never lower the folder multiplier. */
  lemma FolderMultiplierMonotone(f: int, g: int)
    requires f <= g
    ensures FolderMultiplier(f) <= FolderMultiplier(g)
  {
  }

  // ---- Discount tier scan ---------------------------------------------------

  datatype Tier = Tier(refTier: int, rate: real)

  /** One pass of the loop over the tiers: every tier not above the
      duration overwrites the current selection. */
  function ScanTiers(ts: seq<int>, duration: int, acc: Tier): Tier
    requires forall i :: 0 <= i < |ts| ==> ts[i] in DiscountTable
    decreases |ts|
  {
    if |ts| == 0 then acc
    else if duration >= ts[0] then ScanTiers(ts[1..], duration, Tier(ts[0], DiscountTable[ts[0]]))
    else ScanTiers(ts[1..], duration, acc)
  }

  /** Whatever the order of the tiers, the scan ends on its starting
      selection or on one of the tiers the duration reaches, with that
      tier's rate. */
  lemma {:induction false} ScanTiersOutcome(ts: seq<int>, duration: int, acc: Tier)
    requires forall i :: 0 <= i < |ts| ==> ts[i] in DiscountTable
    ensures var r := ScanTiers(ts, duration, acc);
      r == acc || (r.refTier in ts && r.refTier <= duration && r.rate == DiscountTable[r.refTier])
    decreases |ts|
  {
    if |ts| > 0 {
      assert forall i :: 0 <= i < |ts[1..]| ==> ts[1..][i] == ts[i + 1];
      var next := if duration >= ts[0] then Tier(ts[0], DiscountTable[ts[0]]) else acc;
      ScanTiersOutcome(ts[1..], duration, next);
    }
  }

  /** When every tier lies above the duration the scan keeps its starting
      selection. */
  lemma {:induction false} ScanTiersNone(ts: seq<int>, duration: int, acc: Tier)
    requires forall i :: 0 <= i < |ts| ==> ts[i] in DiscountTable
    requires forall i :: 0 <= i < |ts| ==> ts[i] > duration
    ensures ScanTiers(ts, duration, acc) == acc
    decreases |ts|
  {
    if |ts| > 0 {
      assert forall i :: 0 <= i < |ts[1..]| ==> ts[1..][i] == ts[i + 1];
      ScanTiersNone(ts[1..], duration, acc);
    }
  }

  /** Over an ascending list of table keys whose first tier is reached, the
      scan ends on the largest tier not above the duration, with its rate. */
  lemma {:induction false} ScanTiersLast(ts: seq<int>, duration: int, acc: Tier)
    requires |ts| > 0 && ts[0] <= duration
    requires forall i :: 0 <= i < |ts| ==> ts[i] in DiscountTable
    requires forall i, j :: 0 <= i < j < |ts| ==> ts[i] < ts[j]
    ensures var r := ScanTiers(ts, duration, acc);
      && r.refTier in ts && r.refTier <= duration
      && r.rate == DiscountTable[r.refTier]
      && (forall i :: 0 <= i < |ts| && ts[i] <= duration ==> ts[i] <= r.refTier)
    decreases |ts|
  {
    var next := Tier(ts[0], DiscountTable[ts[0]]);
    var r := ScanTiers(ts, duration, acc);
    assert r == ScanTiers(ts[1..], duration, next);
    assert forall i :: 0 <= i < |ts[1..]| ==> ts[1..][i] == ts[i + 1];
    if |ts| > 1 && ts[1] <= duration {
      ScanTiersLast(ts[1..], duration, next);
      assert r.refTier in ts[1..];
      forall i | 0 <= i < |ts| && ts[i] <= duration
        ensures ts[i] <= r.refTier
      {
        if i > 0 {
          assert ts[1..][i - 1] == ts[i];
        }
      }
    } else {
      forall i | 0 <= i < |ts[1..]|
        ensures ts[1..][i] > duration
      {
        assert ts[1] <= ts[i + 1];
      }
      ScanTiersNone(ts[1..], duration, next);
    }
  }

  /** The discount tier of a contract of `duration` months: the largest
      table key not above the duration with its rate, or tier 12 at rate 0
      when the duration is below every key. */
  function SelectTier(duration: int): (t: Tier)
    ensures t.refTier in DiscountTable && t.rate == DiscountTable[t.refTier]
    ensures duration >= 12 ==> t.refTier <= duration
    ensures forall k :: k in DiscountTable && k <= duration ==> k <= t.refTier
    ensures duration < 12 ==> t == Tier(12, 0.0)
    ensures 0.0 <= t.rate <= 0.45
  {
    SelectTierFloor(duration);
    ScanTiers(Tiers, duration, Tier(12, 0.0))
  }

  lemma SelectTierFloor(duration: int)
    ensures var t := ScanTiers(Tiers, duration, Tier(12, 0.0));
      && t.refTier in DiscountTable && t.rate == DiscountTable[t.refTier]
      && (duration >= 12 ==> t.refTier <= duration)
      && (forall k :: k in DiscountTable && k <= duration ==> k <= t.refTier)
      && (duration < 12 ==> t == Tier(12, 0.0))
      && 0.0 <= t.rate <= 0.45
  {
    TableRatesInRange();
    if duration >= 12 {
      SelectTierReached(duration);
    } else {
      SelectTierBelow(duration);
    }
  }

  /** A duration of at least twelve months reaches a tier: the largest key
      not above it. */
  lemma SelectTierReached(duration: int)
    requires duration >= 12
    ensures var t := ScanTiers(Tiers, duration, Tier(12, 0.0));
      && t.refTier in DiscountTable && t.rate == DiscountTable[t.refTier]
      && t.refTier <= duration
      && (forall k :: k in DiscountTable && k <= duration ==> k <= t.refTier)
  {
    TiersAscending();
    TiersInTable();
    TiersAreKeys();
    var t := ScanTiers(Tiers, duration, Tier(12, 0.0));
    ScanTiersLast(Tiers, duration, Tier(12, 0.0));
    forall k | k in DiscountTable && k <= duration
      ensures k <= t.refTier
    {
      var i :| 0 <= i < |Tiers| && Tiers[i] == k;
    }
  }

  /** A duration below twelve months reaches no tier and keeps tier 12 at
      rate 0, which no key lies below. */
  lemma SelectTierBelow(duration: int)
    requires duration < 12
    ensures var t := ScanTiers(Tiers, duration, Tier(12, 0.0));
      && t == Tier(12, 0.0)
      && (forall k :: k in DiscountTable && k <= duration ==> k <= t.refTier)
  {
    TiersAscending();
    TiersInTable();
    TiersAreKeys();
    ScanTiersNone(Tiers, duration, Tier(12, 0.0));
  }

  /** A duration equal to a table key lands exactly on that key's tier. */
  lemma SelectTierAtKey(k: int)
    requires k in DiscountTable
    ensures SelectTier(k) == Tier(k, DiscountTable[k])
  {
    var t := SelectTier(k);
    assert k >= 12 by {
      TiersAreKeys();
      TiersAscending();
      var i :| 0 <= i < |Tiers| && Tiers[i] == k;
      assert Tiers[0] <= Tiers[i];
    }
    assert k <= t.refTier <= k;
  }

  /** A longer contract never gets a smaller discount. */
  lemma DiscountRateMonotone(d1: int, d2: int)
    requires d1 <= d2
    ensures SelectTier(d1).rate <= SelectTier(d2).rate
    ensures SelectTier(d1).refTier <= SelectTier(d2).refTier
  {
    TableRatesOrdered();
    var t1 := SelectTier(d1);
    var t2 := SelectTier(d2);
    if d1 >= 12 {
      assert t1.refTier in DiscountTable && t1.refTier <= d2;
    }
  }

  // ---- Price breakdown ------------------------------------------------------

  datatype PricingResult = PricingResult(
    baseMonthlyRaw: real,
    finalMonthly: real,
    totalValue: real,
    refTier: int,
    discountRate: real,
    savings: real,
    situation: Situation
  )

  /** The full price of a contract of `durationMonths` months: the factors
      scale the base rate, the tier scan picks the discount. */
  function CalculateComplexPrice(pages: int, folders: int, durationMonths: int): (r: PricingResult)
    ensures var f := CalculatePriceFactors(pages, folders);
      && r.situation == f.situation
      && r.baseMonthlyRaw == BaseMonthly(f)
    ensures Tier(r.refTier, r.discountRate) == SelectTier(durationMonths)
    ensures Consistent(r, durationMonths)
  {
    Breakdown(CalculatePriceFactors(pages, folders), SelectTier(durationMonths), durationMonths)
  }

  /** The base monthly rate scaled by both factors. */
  function BaseMonthly(f: PriceFactors): real
  {
    BaseValue2026 * f.pageMult * f.folderMult
  }

  /** The arithmetic of the price once the factors and the tier are known:
      the discounted monthly price, the total over the duration and the
      savings against the undiscounted total. */
  function Breakdown(f: PriceFactors, tier: Tier, durationMonths: int): (r: PricingResult)
    requires 1.0 <= f.pageMult <= 2.0 && 1.0 <= f.folderMult <= 1.60
    requires 0.0 <= tier.rate <= 0.45
    ensures r.situation == f.situation && r.baseMonthlyRaw == BaseMonthly(f)
    ensures r.refTier == tier.refTier && r.discountRate == tier.rate
    ensures Consistent(r, durationMonths)
  {
    var base := BaseMonthly(f);
    var finalMonthly := base * (1.0 - tier.rate);
    var totalValue := finalMonthly * durationMonths as real;
    var fullPrice := base * durationMonths as real;
    var r := PricingResult(base, finalMonthly, totalValue, tier.refTier, tier.rate,
                           fullPrice - totalValue, f.situation);
    ProductBounds(f.pageMult, f.folderMult);
    ConsistentFromDefinition(r, durationMonths);
    r
  }

  /** Whether a breakdown keeps the relations the price promises: the total
      is the discounted monthly price times the duration, the savings are
      what the discount takes off the undiscounted total (never negative for
      a non-negative duration), a zero-month contract costs and saves
      nothing, and the monthly base lies between the base rate and its
      2.0 x 1.60 maximum. */
  ghost predicate Consistent(r: PricingResult, durationMonths: int)
  {
    var d := durationMonths as real;
    && r.finalMonthly == r.baseMonthlyRaw * (1.0 - r.discountRate)
    && r.totalValue == r.finalMonthly * d
    && r.savings == r.baseMonthlyRaw * d - r.totalValue
    && r.savings == r.baseMonthlyRaw * r.discountRate * d
    && BaseValue2026 <= r.baseMonthlyRaw <= BaseValue2026 * 2.0 * 1.60
    && 0.0 < r.finalMonthly <= r.baseMonthlyRaw
    && (durationMonths >= 0 ==> 0.0 <= r.savings && 0.0 <= r.totalValue)
    && (durationMonths == 0 ==> r.totalValue == 0.0 && r.savings == 0.0)
  }

  lemma ProductBounds(p: real, q: real)
    requires 1.0 <= p <= 2.0 && 1.0 <= q <= 1.60
    ensures BaseValue2026 <= BaseMonthly(PriceFactors(p, q, A)) <= BaseValue2026 * 2.0 * 1.60
  {
    var pq := p * q;
    NonNegativeProduct(p - 1.0, q);
    assert (p - 1.0) * q == pq - q;
    assert 1.0 <= pq;
    NonNegativeProduct(p, 1.60 - q);
    assert p * (1.60 - q) == p * 1.60 - pq;
    assert pq <= 2.0 * 1.60;
    assert BaseValue2026 * p * q == BaseValue2026 * pq;
  }

  /** A breakdown whose fields satisfy the defining equations keeps all the
      relations of `Consistent`. */
  lemma ConsistentFromDefinition(r: PricingResult, durationMonths: int)
    requires BaseValue2026 <= r.baseMonthlyRaw <= BaseValue2026 * 2.0 * 1.60
    requires 0.0 <= r.discountRate <= 0.45
    requires r.finalMonthly == r.baseMonthlyRaw * (1.0 - r.discountRate)
    requires r.totalValue == r.finalMonthly * durationMonths as real
    requires r.savings == r.baseMonthlyRaw * durationMonths as real - r.totalValue
    ensures Consistent(r, durationMonths)
  {
    var base, rate, d := r.baseMonthlyRaw, r.discountRate, durationMonths as real;
    DiscountedMonthly(base, rate);
    PriceArithmetic(base, rate, d);
    var fm := base * (1.0 - rate);
    assert r.finalMonthly == fm;
    assert 0.0 < fm <= base;
    assert r.totalValue == fm * d;
    assert r.savings == base * d - fm * d;
  }

  /** The discounted monthly price is positive and never above the base,
      for any base and rate within the table's range. */
  lemma DiscountedMonthly(base: real, rate: real)
    requires BaseValue2026 <= base && 0.0 <= rate <= 0.45
    ensures var fm := base * (1.0 - rate);
      && fm == base - base * rate
      && 0.0 < fm <= base
  {
    var br := base * rate;
    NonNegativeProduct(base, rate);
    assert br <= 0.45 * base by {
      NonNegativeProduct(base, 0.45 - rate);
      assert base * (0.45 - rate) == 0.45 * base - br;
    }
  }

  /** The relations between the monthly base, the discount and the totals,
      for any base, rate within the table's range, and duration: the
      savings are the discount times the undiscounted total, and the total
      and savings take the duration's sign. */
  lemma PriceArithmetic(base: real, rate: real, d: real)
    requires BaseValue2026 <= base && 0.0 <= rate <= 0.45
    ensures var fm := base * (1.0 - rate);
      && base * d - fm * d == base * rate * d
      && 0.0 < fm <= base
      && (d >= 0.0 ==> 0.0 <= base * d - fm * d && 0.0 <= fm * d)
      && (d < 0.0 ==> base * d - fm * d <= 0.0 && fm * d < 0.0)
      && (d == 0.0 ==> fm * d == 0.0 && base * d - fm * d == 0.0)
  {
    DiscountedMonthly(base, rate);
    var fm := base * (1.0 - rate);
    var br := base * rate;
    NonNegativeProduct(base, rate);
    assert fm * d == base * d - br * d;
    assert br * d == base * rate * d;
    if d >= 0.0 {
      NonNegativeProduct(br, d);
      NonNegativeProduct(fm, d);
    } else {
      NonNegativeProduct(br, -d);
      assert br * (-d) == -(br * d);
      PositiveProduct(fm, -d);
      assert fm * (-d) == -(fm * d);
    }
  }

  lemma PositiveProduct(x: real, y: real)
    ensures 0.0 < x && 0.0 < y ==> 0.0 < x * y
  {
  }

  lemma NonNegativeProduct(x: real, y: real)
    ensures 0.0 <= x && 0.0 <= y ==> 0.0 <= x * y
  {
  }

  /** Nothing rejects a negative duration: it gives a negative total and
      savings that are not positive. */
  lemma NegativeDurationPrice(pages: int, folders: int, durationMonths: int)
    requires durationMonths < 0
    ensures var r := CalculateComplexPrice(pages, folders, durationMonths);
      r.totalValue < 0.0 && r.savings <= 0.0
  {
    var r := CalculateComplexPrice(pages, folders, durationMonths);
    PriceArithmetic(r.baseMonthlyRaw, r.discountRate, durationMonths as real);
  }

  /** Worked example: 150 pages, 5 folders, 12 months is situation A with
      no discount, so the contract costs twelve base months. */
  lemma ScenarioSmallContract()
    ensures var r := CalculateComplexPrice(150, 5, 12);
      && r.situation == A && r.baseMonthlyRaw == BaseValue2026
      && r.discountRate == 0.0 && r.totalValue == BaseValue2026 * 12.0
  {
    var f := CalculatePriceFactors(150, 5);
    assert PageFactor(150) == (A, 1.0);
    assert FolderMultiplier(5) == 1.0;
    assert f == PriceFactors(1.0, 1.0, A);
    assert BaseMonthly(f) == BaseValue2026;
    SelectTierAtKey(12);
    assert DiscountTable[12] == 0.0;
    var r := CalculateComplexPrice(150, 5, 12);
    assert r.finalMonthly == BaseValue2026 * (1.0 - 0.0);
  }

  /** Worked example: 700 pages, 85 folders, 36 months is situation D at
      1.65 x 1.50, in the 36-month tier at 14%. */
  lemma ScenarioMidContract()
    ensures var r := CalculateComplexPrice(700, 85, 36);
      && r.situation == D && r.baseMonthlyRaw == BaseMonthly(PriceFactors(1.65, 1.50, D))
      && r.refTier == 36 && r.discountRate == 0.14
      && r.finalMonthly == r.baseMonthlyRaw * 0.86
  {
    var f := CalculatePriceFactors(700, 85);
    assert PageFactor(700) == (D, 1.65);
    assert FolderMultiplier(85) == 1.50;
    assert f == PriceFactors(1.65, 1.50, D);
    SelectTierAtKey(36);
    assert DiscountTable[36] == 0.14;
    var r := CalculateComplexPrice(700, 85, 36);
    assert r.finalMonthly == r.baseMonthlyRaw * (1.0 - 0.14);
  }

}
