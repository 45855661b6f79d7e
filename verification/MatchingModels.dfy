/**
 Orders, offers and the score that both matching strategies rank by.
 Prices, throughputs and scores are exact reals.
 */
module MatchingModels {
  import opened Reals

  type NonNegative = r: real | r >= 0.0
  type Fraction = r: real | 0.0 <= r <= 1.0

  datatype RoutingPreference = Cheapest | Fastest | MostSecure | Balanced

  datatype ConfidenceLevel = Open | Contained | Hardened | Confidential {
    function Value(): int {
      match this case Open => 0 case Contained => 1 case Hardened => 2 case Confidential => 3
    }
  }

  /** A price ceiling; an order without one accepts any price. */
  datatype Ceiling = Unlimited | AtMost(limit: real) {
    predicate Allows(price: real) {
      Unlimited? || price <= limit
    }
  }

  datatype InferenceOrder = InferenceOrder(
    orderId: string,
    model: string,
    maxPrice: Ceiling,
    minConfidence: ConfidenceLevel,
    preference: RoutingPreference,
    submittedAt: real,
    timeoutSeconds: real,
    affinityProviderId: string)
  {
    predicate IsExpired(now: real) {
      now - submittedAt > timeoutSeconds
    }
  }

  /** The share of slots in use: 0 when idle, 1 when full; a provider without slots counts as full. */
  function LoadOf(used: int, total: nat): real {
    if total == 0 then 1.0 else used as real / total as real
  }

  /**
   `usedSlots` is the provider's own heartbeat count, so nothing bounds it from below. The reputation
   exceeds one if its latencies were measured on a clock that was set back.
   */
  datatype ProviderOffer = ProviderOffer(
    providerId: string,
    models: seq<string>,
    price: NonNegative,
    confidence: ConfidenceLevel,
    measuredTps: NonNegative,
    totalSlots: nat,
    usedSlots: int,
    reputation: NonNegative)
  {
    function AvailableSlots(): nat {
      if totalSlots > usedSlots then totalSlots - usedSlots else 0
    }

    function LoadFactor(): real {
      LoadOf(usedSlots, totalSlots)
    }

    /** No negative load, or at most an eighth of the slots. */
    predicate ModestLoad() {
      totalSlots == 0 || 8 * usedSlots + totalSlots >= 0
    }
  }

  /** The four hard constraints of an order. */
  predicate Eligible(order: InferenceOrder, offer: ProviderOffer) {
    && (order.model == "default" || order.model in offer.models)
    && order.maxPrice.Allows(offer.price)
    && offer.confidence.Value() >= order.minConfidence.Value()
    && offer.AvailableSlots() > 0
  }

  datatype Weights = Weights(price: Fraction, speed: Fraction, trust: Fraction, load: Fraction)

  function WeightsFor(preference: RoutingPreference): (w: Weights)
    ensures w.price > 0.0 && w.speed > 0.0 && w.trust > 0.0 && w.load > 0.0
    ensures w.price + w.speed + w.trust + w.load == 1.0
  {
    match preference
    case Cheapest => Weights(0.6, 0.15, 0.1, 0.15)
    case Fastest => Weights(0.1, 0.6, 0.1, 0.2)
    case MostSecure => Weights(0.1, 0.1, 0.6, 0.2)
    case Balanced => Weights(0.35, 0.25, 0.2, 0.2)
  }

  function PriceScore(price: NonNegative): (s: real)
    ensures 0.0 < s <= 1.0
  {
    1.0 / (1.0 + price)
  }

  function SpeedScore(tps: NonNegative): (s: real)
    ensures 0.0 <= s < 1.0
  {
    tps / (10.0 + tps)
  }

  /** The four soft dimensions of an offer, each of them better when larger. */
  datatype Profile = Profile(price: real, speed: real, trust: real, load: real) {
    ghost predicate AtLeast(that: Profile) {
      price >= that.price && speed >= that.speed && trust >= that.trust && load >= that.load
    }
  }

  function ProfileOf(offer: ProviderOffer): Profile {
    Profile(PriceScore(offer.price), SpeedScore(offer.measuredTps),
            offer.confidence.Value() as real / 4.0, 1.0 - offer.LoadFactor())
  }

  /** The weighted sum of the soft dimensions, before reputation and affinity. */
  function BaseScore(w: Weights, p: Profile): real {
    w.price * p.price + w.speed * p.speed + w.trust * p.trust + w.load * p.load
  }

  lemma LoadBounds(offer: ProviderOffer)
    requires offer.AvailableSlots() > 0
    ensures offer.LoadFactor() <= 1.0
    ensures offer.LoadFactor() >= -0.125 <==> offer.ModestLoad()
  {
    if offer.totalSlots != 0 {
      var used, total, load := offer.usedSlots as real, offer.totalSlots as real, offer.LoadFactor();
      assert load * total == used;
      Cancelled(load, 1.0, total);
      assert 8.0 * used + total == 8.0 * total * (load + 0.125);
      LoadSign(total, load + 0.125);
    }
  }

  lemma LoadSign(total: real, x: real)
    requires total > 0.0
    ensures 8.0 * total * x >= 0.0 <==> x >= 0.0
  {
  }

  lemma Scaled(weight: Fraction, x: real)
    ensures x >= 0.0 ==> weight * x >= 0.0
    ensures x <= 1.0 ==> weight * x <= weight
    ensures weight > 0.0 && x > 0.0 ==> weight * x > 0.0
    ensures weight > 0.0 && x < 1.0 ==> weight * x < weight
  {
    if x <= 1.0 { assert weight * (1.0 - x) >= 0.0; }
    if weight > 0.0 && x < 1.0 { assert weight * (1.0 - x) > 0.0; }
  }

  /** What no base score at a given load reaches, and the best come arbitrarily near. */
  function TopBase(load: real): (top: real)
    ensures load >= -0.125 <==> top <= 1.0
  {
    0.975 - (if load >= 0.0 then 0.15 else 0.2) * load
  }

  lemma BaseScoreBounds(preference: RoutingPreference, p: Profile)
    requires 0.0 < p.price <= 1.0 && 0.0 <= p.speed < 1.0 && 0.0 <= p.trust <= 0.75 && 0.0 <= p.load
    ensures 0.0 < BaseScore(WeightsFor(preference), p) < TopBase(1.0 - p.load)
  {
    var w := WeightsFor(preference);
    Scaled(w.price, p.price);
    Scaled(w.speed, p.speed);
    Scaled(w.trust, p.trust);
    Scaled(w.load, p.load);
    assert w.trust * p.trust <= w.trust * 0.75 by {
      ScaledOrder(w.trust, p.trust, 0.75);
    }
  }

  /** Base score, scaled to 50-100% by a fractional reputation and raised by 20% for session affinity. */
  function SoftScore(base: real, reputation: NonNegative, affine: bool): real {
    base * (0.5 + 0.5 * reputation) * (if affine then 1.2 else 1.0)
  }

  lemma SoftScoreBounds(base: real, top: real, reputation: NonNegative, affine: bool)
    requires 0.0 < base < top
    ensures 0.0 < SoftScore(base, reputation, affine) < 1.2 * (top * (0.5 + 0.5 * reputation))
  {
    var factor := 0.5 + 0.5 * reputation;
    assert base * factor > 0.0 && (top - base) * factor > 0.0;
    assert top * factor == base * factor + (top - base) * factor;
  }

  lemma ModestTop(offer: ProviderOffer)
    requires offer.AvailableSlots() > 0
    ensures offer.ModestLoad() && offer.reputation <= 1.0 ==>
              TopBase(offer.LoadFactor()) * (0.5 + 0.5 * offer.reputation) <= 1.0
  {
    LoadBounds(offer);
    var top, factor := TopBase(offer.LoadFactor()), 0.5 + 0.5 * offer.reputation;
    if 0.0 < top <= 1.0 {
      assert (1.0 - top) * factor >= 0.0;
    }
  }

  /** The score of an eligible pair. */
  function RawScore(order: InferenceOrder, offer: ProviderOffer): real {
    SoftScore(BaseScore(WeightsFor(order.preference), ProfileOf(offer)), offer.reputation,
              order.affinityProviderId == offer.providerId)
  }

  lemma RawScoreBounds(order: InferenceOrder, offer: ProviderOffer)
    requires offer.AvailableSlots() > 0
    ensures 0.0 < RawScore(order, offer) < 1.2 * (TopBase(offer.LoadFactor()) * (0.5 + 0.5 * offer.reputation))
    ensures offer.ModestLoad() && offer.reputation <= 1.0 ==> RawScore(order, offer) < 1.2
  {
    hide BaseScore, SoftScore, TopBase, ProviderOffer.LoadFactor, ProviderOffer.ModestLoad;
    LoadBounds(offer);
    BaseScoreBounds(order.preference, ProfileOf(offer));
    SoftScoreBounds(BaseScore(WeightsFor(order.preference), ProfileOf(offer)), TopBase(offer.LoadFactor()),
                    offer.reputation, order.affinityProviderId == offer.providerId);
    ModestTop(offer);
  }

  /** Negative exactly for an ineligible pair; the sign is all that the strategies rely on. */
  function ComputeScore(order: InferenceOrder, offer: ProviderOffer): (score: real)
    ensures score > 0.0 <==> Eligible(order, offer)
    ensures score <= 0.0 <==> score == -1.0
    ensures offer.ModestLoad() && offer.reputation <= 1.0 ==> score < 1.2
  {
    if !Eligible(order, offer) then -1.0
    else
      hide RawScore;
      RawScoreBounds(order, offer);
      RawScore(order, offer)
  }

  /** `a` is no worse than `b` in every soft dimension. */
  predicate Dominates(a: ProviderOffer, b: ProviderOffer) {
    && a.price <= b.price
    && a.measuredTps >= b.measuredTps
    && a.confidence.Value() >= b.confidence.Value()
    && a.LoadFactor() <= b.LoadFactor()
    && a.reputation >= b.reputation
  }

  lemma BaseScoreOrder(w: Weights, p: Profile, q: Profile)
    requires p.AtLeast(q)
    ensures BaseScore(w, p) >= BaseScore(w, q)
  {
    WeightedSumOrder(w.price, w.speed, w.trust, w.load,
      q.price, q.speed, q.trust, q.load, p.price, p.speed, p.trust, p.load);
  }

  lemma ProfileOrder(a: ProviderOffer, b: ProviderOffer)
    requires Dominates(a, b)
    ensures ProfileOf(a).AtLeast(ProfileOf(b))
  {
    ReciprocalFalls(1.0 + a.price, 1.0 + b.price);
    SaturationRises(10.0, b.measuredTps, a.measuredTps);
  }

  lemma SoftScoreOrder(high: real, low: real, better: NonNegative, worse: NonNegative, affineA: bool, affineB: bool)
    requires high >= low > 0.0 && better >= worse
    requires affineB ==> affineA
    ensures SoftScore(high, better, affineA) >= SoftScore(low, worse, affineB)
  {
    ProductOrder(low, high, 0.5 + 0.5 * worse, 0.5 + 0.5 * better,
                 if affineB then 1.2 else 1.0, if affineA then 1.2 else 1.0);
  }

  /** Whatever the preference, a dominating offer never scores lower, unless the other holds the session. */
  lemma DominanceIsRespected(order: InferenceOrder, a: ProviderOffer, b: ProviderOffer)
    requires Eligible(order, a) && Eligible(order, b) && Dominates(a, b)
    requires order.affinityProviderId == b.providerId ==> order.affinityProviderId == a.providerId
    ensures ComputeScore(order, a) >= ComputeScore(order, b)
  {
    hide BaseScore, SoftScore, ProviderOffer.LoadFactor, PriceScore, SpeedScore;
    var w := WeightsFor(order.preference);
    ProfileOrder(a, b);
    LoadBounds(b);
    BaseScoreBounds(order.preference, ProfileOf(b));
    BaseScoreOrder(w, ProfileOf(a), ProfileOf(b));
    SoftScoreOrder(BaseScore(w, ProfileOf(a)), BaseScore(w, ProfileOf(b)), a.reputation, b.reputation,
                   order.affinityProviderId == a.providerId, order.affinityProviderId == b.providerId);
  }

  /** `a` dominates `b` and is better outright in at least one dimension. */
  predicate StrictlyDominates(a: ProviderOffer, b: ProviderOffer) {
    && Dominates(a, b)
    && (a.price < b.price || a.measuredTps > b.measuredTps || a.confidence.Value() > b.confidence.Value()
        || a.LoadFactor() < b.LoadFactor() || a.reputation > b.reputation)
  }

  lemma ProfileGap(a: ProviderOffer, b: ProviderOffer)
    requires StrictlyDominates(a, b)
    ensures var p, q := ProfileOf(a), ProfileOf(b);
            p.price > q.price || p.speed > q.speed || p.trust > q.trust || p.load > q.load
            || a.reputation > b.reputation
  {
    if a.price < b.price {
      ReciprocalFallsStrictly(1.0 + a.price, 1.0 + b.price);
    } else if a.measuredTps > b.measuredTps {
      SaturationRisesStrictly(10.0, b.measuredTps, a.measuredTps);
    }
  }

  /** Every dimension counts: under any preference, a strictly dominating offer scores strictly higher. */
  lemma EveryDimensionCounts(order: InferenceOrder, a: ProviderOffer, b: ProviderOffer)
    requires Eligible(order, a) && Eligible(order, b) && StrictlyDominates(a, b)
    requires order.affinityProviderId == b.providerId ==> order.affinityProviderId == a.providerId
    ensures ComputeScore(order, a) > ComputeScore(order, b)
  {
    hide BaseScore, SoftScore, ProviderOffer.LoadFactor, PriceScore, SpeedScore;
    var w := WeightsFor(order.preference);
    ProfileOrder(a, b);
    ProfileGap(a, b);
    LoadBounds(b);
    BaseScoreBounds(order.preference, ProfileOf(b));
    BaseScoreOrder(w, ProfileOf(a), ProfileOf(b));
    BaseScoreGap(w, ProfileOf(a), ProfileOf(b));
    SoftScoreGap(BaseScore(w, ProfileOf(a)), BaseScore(w, ProfileOf(b)), a.reputation, b.reputation,
                 order.affinityProviderId == a.providerId, order.affinityProviderId == b.providerId);
  }

  lemma BaseScoreGap(w: Weights, p: Profile, q: Profile)
    requires w.price > 0.0 && w.speed > 0.0 && w.trust > 0.0 && w.load > 0.0 && p.AtLeast(q)
    ensures p.price > q.price || p.speed > q.speed || p.trust > q.trust || p.load > q.load ==>
              BaseScore(w, p) > BaseScore(w, q)
  {
    if p.price > q.price || p.speed > q.speed || p.trust > q.trust || p.load > q.load {
      StrictSum(w.price, w.speed, w.trust, w.load, q.price, q.speed, q.trust, q.load, p.price, p.speed, p.trust, p.load);
    }
  }

  lemma SoftScoreGap(high: real, low: real, better: NonNegative, worse: NonNegative, affineA: bool, affineB: bool)
    requires high >= low > 0.0 && better >= worse && (high > low || better > worse)
    requires affineB ==> affineA
    ensures SoftScore(high, better, affineA) > SoftScore(low, worse, affineB)
  {
    StrictProduct(low, high, 0.5 + 0.5 * worse, 0.5 + 0.5 * better,
                  if affineB then 1.2 else 1.0, if affineA then 1.2 else 1.0);
  }

  /** Session affinity is worth exactly a fifth more, and no reputation exactly half. */
  lemma BonusAndReputation(order: InferenceOrder, offer: ProviderOffer, elsewhere: string)
    requires Eligible(order, offer) && elsewhere != offer.providerId
    ensures ComputeScore(order.(affinityProviderId := offer.providerId), offer)
            == 1.2 * ComputeScore(order.(affinityProviderId := elsewhere), offer)
    ensures ComputeScore(order, offer.(reputation := 0.0)) == 0.5 * ComputeScore(order, offer.(reputation := 1.0))
  {
    hide BaseScore;
    var base := BaseScore(WeightsFor(order.preference), ProfileOf(offer));
    Reordered(base, 0.5 + 0.5 * offer.reputation, 1.2);
  }

  lemma Reordered(base: real, scale: real, bonus: real)
    ensures base * scale * bonus == bonus * (base * scale * 1.0)
  {
  }

  // --- What a strategy reports -----------------------------------------------

  datatype MatchResult = MatchResult(orderId: string, providerId: string, score: real, price: real)

  datatype FailureReason = Timeout | NoProvider | NoCapacity

  datatype MatchFailure = MatchFailure(
    orderId: string, reason: FailureReason, eligibleProviders: nat, availableProviders: nat)

  ghost predicate DistinctIds(offers: seq<ProviderOffer>) {
    forall i, j :: 0 <= i < j < |offers| ==> offers[i].providerId != offers[j].providerId
  }

  function FreeSlots(offers: seq<ProviderOffer>): (cap: seq<nat>)
    ensures |cap| == |offers|
    ensures forall j :: 0 <= j < |cap| ==> cap[j] == offers[j].AvailableSlots()
  {
    seq(|offers|, j requires 0 <= j < |offers| => offers[j].AvailableSlots())
  }

  function MatchedId(m: MatchResult): string { m.orderId }
  function FailedId(f: MatchFailure): string { f.orderId }
  function SubmittedId(o: InferenceOrder): string { o.orderId }

  /** How many matches went to a provider. */
  function MatchesOn(hits: seq<MatchResult>, providerId: string): nat {
    if hits == [] then 0
    else MatchesOn(hits[..|hits| - 1], providerId) + (if hits[|hits| - 1].providerId == providerId then 1 else 0)
  }

  lemma MatchesOnSnoc(hits: seq<MatchResult>, m: MatchResult, providerId: string)
    ensures MatchesOn(hits + [m], providerId)
            == MatchesOn(hits, providerId) + (if m.providerId == providerId then 1 else 0)
  {
    assert (hits + [m])[..|hits|] == hits;
  }
}
