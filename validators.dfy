/** Per-deal validation against the commission rules (src/validators.py, CommissionValidator). */
module Validators {
  import opened Rules

  /** One row of deal data. */
  datatype Record = Record(
    dealId: string,
    salesRep: string,
    region: string,
    productTier: string,
    dealSize: real,
    commissionRate: real,
    commissionAmount: real)

  /** One validation finding; the user-facing text is left to the presentation layer. */
  datatype Issue =
    | UnknownTier(tier: string)
    | RateMismatch(expected: real, got: real)
    | CapExceeded
    | NegativeDealSize

  /** The accelerator multiplies the base rate by this factor ... */
  const Accelerator: real := 1.1
  /** ... for deals above this multiple of the tier's threshold. */
  const ThresholdFactor: real := 1.2
  /** Largest difference between the applied and the expected rate that is accepted. */
  const RateTolerance: real := 0.001
  /** Largest share of the deal size that a commission may be. */
  const CommissionCap: real := 0.15

  function Abs(x: real): real {
    if x < 0.0 then -x else x
  }

  /** Position of each kind of issue in the order the checks run. */
  function Rank(i: Issue): nat {
    match i
    case UnknownTier(_) => 0
    case RateMismatch(_, _) => 1
    case CapExceeded => 2
    case NegativeDealSize => 3
  }

  /** Issues listed in check order, each kind at most once. */
  predicate InCheckOrder(issues: seq<Issue>) {
    forall i, j :: 0 <= i < j < |issues| ==> Rank(issues[i]) < Rank(issues[j])
  }

  /** The rate a deal of `dealSize` in `tier` should carry: the base rate, raised by the
      accelerator once the deal is strictly above the tier's threshold times 1.2. */
  function ExpectedRate(rules: map<string, Tier>, dealSize: real, tier: string): (r: real)
    requires tier in rules
    ensures r == rules[tier].rate || r == rules[tier].rate * Accelerator
    ensures dealSize <= rules[tier].threshold as real * ThresholdFactor ==> r == rules[tier].rate
    ensures rules[tier].rate != 0.0 ==>
      (r == rules[tier].rate * Accelerator <==> dealSize > rules[tier].threshold as real * ThresholdFactor)
  {
    var baseRate := rules[tier].rate;
    if dealSize > rules[tier].threshold as real * ThresholdFactor then baseRate * Accelerator else baseRate
  }

  /** With a non-negative base rate, a larger deal never has a smaller expected rate. */
  lemma ExpectedRateMonotone(rules: map<string, Tier>, tier: string, small: real, large: real)
    requires tier in rules && rules[tier].rate >= 0.0
    requires small <= large
    ensures ExpectedRate(rules, small, tier) <= ExpectedRate(rules, large, tier)
    ensures rules[tier].rate <= ExpectedRate(rules, small, tier) <= rules[tier].rate * Accelerator
  {
  }

  /** The issues `validate(row)` returns. */
  function Issues(rules: map<string, Tier>, row: Record): (r: seq<Issue>)
    ensures row.productTier !in rules ==> r == [UnknownTier(row.productTier)]
    ensures row.productTier in rules ==>
      && |r| <= 3
      && InCheckOrder(r)
      && (forall i :: 0 <= i < |r| ==> !r[i].UnknownTier?)
    ensures row.productTier in rules ==>
      var expected := ExpectedRate(rules, row.dealSize, row.productTier);
      && (RateMismatch(expected, row.commissionRate) in r <==> Abs(row.commissionRate - expected) > RateTolerance)
      && (forall i :: 0 <= i < |r| && r[i].RateMismatch? ==> r[i] == RateMismatch(expected, row.commissionRate))
    ensures row.productTier in rules ==>
      (CapExceeded in r <==> row.commissionAmount > row.dealSize * CommissionCap)
    ensures row.productTier in rules ==>
      (NegativeDealSize in r <==> row.dealSize < 0.0)
  {
    if row.productTier !in rules then
      [UnknownTier(row.productTier)]
    else
      var expected := ExpectedRate(rules, row.dealSize, row.productTier);
      (if Abs(row.commissionRate - expected) > RateTolerance then [RateMismatch(expected, row.commissionRate)] else [])
      + (if row.commissionAmount > row.dealSize * CommissionCap then [CapExceeded] else [])
      + (if row.dealSize < 0.0 then [NegativeDealSize] else [])
  }

  /** A record passes (PASS in the results table) when it has no issue; an unknown tier,
      a negative deal size or a commission over the cap always fails. */
  predicate Passes(rules: map<string, Tier>, row: Record): (b: bool)
    ensures row.productTier !in rules ==> !b
    ensures b ==> row.dealSize >= 0.0 && row.commissionAmount <= row.dealSize * CommissionCap
  {
    Issues(rules, row) == []
  }

  /** An unknown tier yields the single issue whatever the other fields hold. */
  lemma UnknownTierShortCircuits(rules: map<string, Tier>, row: Record, other: Record)
    requires row.productTier !in rules && other.productTier == row.productTier
    ensures Issues(rules, row) == Issues(rules, other) == [UnknownTier(row.productTier)]
  {
  }

  /** A record with a known tier passes exactly when all three checks pass. */
  lemma PassesIff(rules: map<string, Tier>, row: Record)
    requires row.productTier in rules
    ensures Passes(rules, row) <==>
      && Abs(row.commissionRate - ExpectedRate(rules, row.dealSize, row.productTier)) <= RateTolerance
      && row.commissionAmount <= row.dealSize * CommissionCap
      && row.dealSize >= 0.0
  {
  }

  /** The accelerator boundary for a tier with rate 0.05 and threshold 100000: a deal of exactly
      120000 keeps the base rate, one of 120001 gets 0.055. */
  lemma AcceleratorBoundary()
    ensures var rules := map["tier" := Tier(0.05, 100000)];
      && ExpectedRate(rules, 120000.0, "tier") == 0.05
      && ExpectedRate(rules, 120001.0, "tier") == 0.055
  {
  }

  /** With the default tiers, a standard deal of 50000 at rate 0.05 is flagged: the standard
      threshold is 0, so every deal of positive size is expected at the accelerated 0.055. */
  lemma StandardDealIsAccelerated()
    ensures Issues(DefaultTable().rules, Record("D1", "rep", "region", "standard", 50000.0, 0.05, 2500.0))
      == [RateMismatch(0.055, 0.05)]
  {
  }

  /** A commission of 2000 on a deal of 10000 breaks the 15% cap, reported after the rate issue. */
  lemma CapScenario()
    ensures Issues(DefaultTable().rules, Record("D2", "rep", "region", "standard", 10000.0, 0.05, 2000.0))
      == [RateMismatch(0.055, 0.05), CapExceeded]
  {
  }

  /** CommissionValidator: reads the live rules of the manager it was built with. */
  class CommissionValidator {
    const rulesManager: RulesManager

    constructor (rulesManager: RulesManager)
      ensures this.rulesManager == rulesManager
    {
      this.rulesManager := rulesManager;
    }

    /** `validate(row)`: builds the issue list check by check; it has no modifies clause, so it
        leaves the rule set (and everything else) as it found it. */
    method Validate(row: Record) returns (issues: seq<Issue>)
      requires rulesManager.initialized
      ensures issues == Issues(rulesManager.rules, row)
    {
      issues := [];
      var rules := rulesManager.GetRules();
      if row.productTier !in rules {
        issues := issues + [UnknownTier(row.productTier)];
        return;
      }
      var expected := GetExpectedRate(row.dealSize, row.productTier);
      if Abs(row.commissionRate - expected) > RateTolerance {
        issues := issues + [RateMismatch(expected, row.commissionRate)];
      }
      if row.commissionAmount > row.dealSize * CommissionCap {
        issues := issues + [CapExceeded];
      }
      if row.dealSize < 0.0 {
        issues := issues + [NegativeDealSize];
      }
    }

    /** `_get_expected_rate(deal_size, product_tier)`; the caller guarantees a known tier. */
    method GetExpectedRate(dealSize: real, tier: string) returns (r: real)
      requires rulesManager.initialized && tier in rulesManager.rules
      ensures r == ExpectedRate(rulesManager.rules, dealSize, tier)
    {
      var rules := rulesManager.GetRules();
      var baseRate := rules[tier].rate;
      if dealSize > rules[tier].threshold as real * ThresholdFactor {
        return baseRate * Accelerator;
      }
      return baseRate;
    }
  }
}
