/** How high scores get: the exact loads, reputations and latencies at which they stay below 1.2. */
module ScoreBounds {
  import opened Reals
  import opened MatchingModels
  import opened Reputation

  // --- Given a reputation ----------------------------------------------------

  lemma BelowTop(order: InferenceOrder, offer: ProviderOffer)
    requires Eligible(order, offer)
    ensures ComputeScore(order, offer) < 1.2 * (TopBase(offer.LoadFactor()) * (0.5 + 0.5 * offer.reputation))
  {
    hide RawScore, TopBase;
    RawScoreBounds(order, offer);
  }

  /** The preference that makes the most of a load. */
  function BestOrder(load: real): InferenceOrder {
    InferenceOrder("", "default", Unlimited, Open, if load >= 0.0 then Cheapest else Fastest, 0.0, 120.0, "p")
  }

  /** Free of charge, of the highest trust, and holding the session. */
  function BestOffer(used: int, total: nat, tps: NonNegative, reputation: NonNegative): ProviderOffer {
    ProviderOffer("p", [], 0.0, Confidential, tps, total, used, reputation)
  }

  /** A speed that leaves at most `gap` of the speed dimension. */
  function FastEnough(gap: real): (tps: NonNegative)
    requires gap > 0.0
    ensures 1.0 - SpeedScore(tps) <= gap
  {
    var tps := 10.0 / gap;
    SlowBy(tps, gap);
    tps
  }

  lemma SlowBy(tps: real, gap: real)
    requires gap > 0.0 && tps == 10.0 / gap
    ensures tps >= 0.0 && 1.0 - tps / (10.0 + tps) <= gap
  {
    assert tps * gap == 10.0;
    assert tps >= 0.0;
    var rest := 10.0 / (10.0 + tps);
    assert rest * (10.0 + tps) == 10.0;
    assert 1.0 - tps / (10.0 + tps) == rest;
    Cancelled(rest, gap, 10.0 + tps);
  }

  /** Base scores come arbitrarily close to the top. */
  lemma ReachesBase(used: int, total: nat, reputation: NonNegative, base: real)
    requires base < TopBase(LoadOf(used, total))
    ensures var load := LoadOf(used, total);
            var offer := BestOffer(used, total, FastEnough(TopBase(load) - base), reputation);
            BaseScore(WeightsFor(BestOrder(load).preference), ProfileOf(offer)) >= base
  {
    hide SpeedScore;
  }

  lemma Scales(a: real, b: real, factor: real)
    requires a >= b && factor >= 0.0
    ensures a * factor * 1.2 >= 1.2 * (b * factor)
  {
    assert (a - b) * factor >= 0.0;
  }

  lemma ReachesScore(used: int, total: nat, reputation: NonNegative, base: real) returns (offer: ProviderOffer)
    requires used < total && base < TopBase(LoadOf(used, total))
    ensures offer.usedSlots == used && offer.totalSlots == total && offer.reputation == reputation
    ensures ComputeScore(BestOrder(LoadOf(used, total)), offer) >= 1.2 * (base * (0.5 + 0.5 * reputation))
  {
    hide BaseScore, FastEnough, ComputeScore, TopBase, LoadOf, BestOrder;
    var load := LoadOf(used, total);
    offer := BestOffer(used, total, FastEnough(TopBase(load) - base), reputation);
    ReachesBase(used, total, reputation, base);
    ScoreOfBest(load, offer);
    Scales(BaseScore(WeightsFor(BestOrder(load).preference), ProfileOf(offer)), base, 0.5 + 0.5 * reputation);
  }

  /** The best pair reaches 1.2 if the top times the reputation factor exceeds one. */
  lemma ReachesLimit(used: int, total: nat, reputation: NonNegative) returns (offer: ProviderOffer)
    requires used < total && TopBase(LoadOf(used, total)) * (0.5 + 0.5 * reputation) > 1.0
    ensures offer.usedSlots == used && offer.totalSlots == total && offer.reputation == reputation
    ensures ComputeScore(BestOrder(LoadOf(used, total)), offer) >= 1.2
  {
    hide ComputeScore, TopBase, LoadOf, BestOrder;
    var factor := 0.5 + 0.5 * reputation;
    var base := 1.0 / factor;
    Quotient(1.0, factor);
    assert base * factor == 1.0;
    CancelledStrictly(base, TopBase(LoadOf(used, total)), factor);
    offer := ReachesScore(used, total, reputation, base);
  }

  lemma ScoreOfBest(load: real, offer: ProviderOffer)
    requires offer.providerId == "p" && offer.AvailableSlots() > 0
    ensures ComputeScore(BestOrder(load), offer)
            == BaseScore(WeightsFor(BestOrder(load).preference), ProfileOf(offer)) * (0.5 + 0.5 * offer.reputation) * 1.2
  {
    hide BaseScore;
  }

  /**
   Over all orders and offers with given slots and reputation, every score stays below 1.2 exactly
   when no slot is free or the top times the reputation factor is at most one.
   */
  lemma BoundedIff(used: int, total: nat, reputation: NonNegative)
    ensures (forall order, offer: ProviderOffer ::
               offer.usedSlots == used && offer.totalSlots == total && offer.reputation == reputation ==>
               ComputeScore(order, offer) < 1.2)
            <==> used >= total || TopBase(LoadOf(used, total)) * (0.5 + 0.5 * reputation) <= 1.0
  {
    hide ComputeScore, TopBase, LoadOf;
    if used >= total || TopBase(LoadOf(used, total)) * (0.5 + 0.5 * reputation) <= 1.0 {
      forall order, offer: ProviderOffer |
        offer.usedSlots == used && offer.totalSlots == total && offer.reputation == reputation
        ensures ComputeScore(order, offer) < 1.2
      {
        if Eligible(order, offer) {
          BelowTop(order, offer);
        }
      }
    } else {
      var offer := ReachesLimit(used, total, reputation);
    }
  }

  /** An idle provider of one slot that reports a load of -1 scores more than 1.2. */
  lemma NegativeLoadPasses()
    ensures var offer := BestOffer(-1, 1, 30.0, 1.0);
            Eligible(BestOrder(-1.0), offer) && ComputeScore(BestOrder(-1.0), offer) == 1.23
  {
  }

  /** With full reputation that is: exactly when the load is not below minus an eighth of the slots. */
  lemma BoundedIffModest(used: int, total: nat)
    ensures (forall order, offer: ProviderOffer ::
               offer.usedSlots == used && offer.totalSlots == total && offer.reputation == 1.0 ==>
               ComputeScore(order, offer) < 1.2)
            <==> total == 0 || 8 * used + total >= 0
  {
    hide ComputeScore, TopBase, LoadOf;
    BoundedIff(used, total, 1.0);
    if used < total {
      LoadBounds(BestOffer(used, total, 0.0, 1.0));
    }
  }

  // --- Reputations as they are tracked ---------------------------------------

  /** What the scores of a provider never reach, if no latency lies below a bound, and can come near. */
  function TopReputation(least: int): real {
    0.7 + 0.3 * LatencyScore(least)
  }

  /** The averages weigh less together than a perfect success rate and the latency score of the bound. */
  ghost predicate Short(s: Standing, level: real) {
    0.0 < 0.7 * (1.0 - s.success) - 0.3 * (s.latency - level) && s.latency >= 0.0 && s.success >= 0.0
  }

  lemma ShortStep(s: Standing, o: Outcome, least: int)
    requires Short(s, LatencyScore(least)) && (o.Success? ==> o.latencyMs >= least)
    ensures Short(Recorded(s, o), LatencyScore(least))
  {
  }

  lemma {:induction false} ScoreBelowTop(history: seq<Outcome>, least: int)
    requires AtLeast(history, least)
    ensures Short(After(NEWCOMER, history), LatencyScore(least))
    ensures Score(After(NEWCOMER, history)) < TopReputation(least)
  {
    hide Recorded, LatencyScore;
    if history != [] {
      var n := |history| - 1;
      ScoreBelowTop(history[..n], least);
      ShortStep(After(NEWCOMER, history[..n]), history[n], least);
    }
  }

  /** The score after `k >= 3` successes at the bound falls short of the top by a share of `0.8^k`. */
  lemma ScoreAfterSuccesses(least: int, k: nat)
    requires k >= 3
    ensures Score(After(NEWCOMER, Repeated(least, k)))
            == TopReputation(least) - Decay(k) * (0.2 + 0.3 * LatencyScore(least))
  {
    hide After, LatencyScore;
    var s, d, level := After(NEWCOMER, Repeated(least, k)), Decay(k), LatencyScore(least);
    SuccessesRecover(NEWCOMER, Repeated(least, k));
    LatencyApproaches(least, k);
    RequestsCounted(NEWCOMER, Repeated(least, k));
    assert s.success == 1.0 - d * 0.5 && s.latency == level - d * (level - 0.5);
    Collected(d, level);
  }

  lemma Collected(d: real, level: real)
    ensures 0.7 * (1.0 - d * 0.5) + 0.3 * (level - d * (level - 0.5)) == 0.7 + 0.3 * level - d * (0.2 + 0.3 * level)
  {
  }

  lemma UnderQuotient(d: real, bound: real, quotient: real, x: real)
    requires bound > 0.0 && quotient * bound == 4.0 && x > quotient && x > 0.0 && d * x <= 4.0
    ensures d < bound
  {
    ScaledStrictly(bound, quotient, x);
    CancelledStrictly(d, bound, x);
  }

  /** Enough successes bring `0.8^k` below any positive bound. */
  lemma DecayBelow(bound: real) returns (k: nat)
    requires bound > 0.0
    ensures k >= 3 && Decay(k) < bound
  {
    k := (4.0 / bound).Floor + 3;
    DecayVanishes(k);
    Quotient(4.0, bound);
    UnderQuotient(Decay(k), bound, 4.0 / bound, 4.0 + k as real);
  }

  /** A product with a factor just short of the limit still exceeds one. */
  lemma StillAbove(top: real, limit: real, loss: real)
    requires top * limit > 1.0 && top > 0.0 && loss < (top * limit - 1.0) / top
    ensures top * (limit - loss) > 1.0
  {
    var slack := (top * limit - 1.0) / top;
    assert slack * top == top * limit - 1.0;
    assert (slack - loss) * top > 0.0;
  }

  /** Some history brings the reputation near enough to its top to pass the limit. */
  lemma TrackedPasses(used: int, total: nat, least: int) returns (k: nat)
    requires TopBase(LoadOf(used, total)) * (0.5 + 0.5 * TopReputation(least)) > 1.0
    requires used < total
    ensures TopBase(LoadOf(used, total)) * (0.5 + 0.5 * Score(After(NEWCOMER, Repeated(least, k)))) > 1.0
  {
    hide TopBase, LoadOf, TopReputation, LatencyScore, Score, After;
    var top, limit := TopBase(LoadOf(used, total)), 0.5 + 0.5 * TopReputation(least);
    var share := 0.1 + 0.15 * LatencyScore(least);
    TopIsPositive(used, total);
    var slack := (top * limit - 1.0) / top;
    Quotient(top * limit - 1.0, top);
    Quotient(slack, share);
    k := DecayBelow(slack / share);
    var d := Decay(k);
    assert d * share < slack by {
      assert (slack / share - d) * share > 0.0;
      assert slack / share * share == slack;
    }
    ScoreAfterSuccesses(least, k);
    Halved(limit, TopReputation(least), d, LatencyScore(least), share);
    StillAbove(top, limit, d * share);
  }

  lemma Quotient(x: real, y: real)
    requires x > 0.0 && y > 0.0
    ensures x / y > 0.0 && x / y * y == x
  {
  }

  lemma Halved(limit: real, top: real, d: real, level: real, share: real)
    requires limit == 0.5 + 0.5 * top && share == 0.1 + 0.15 * level
    ensures 0.5 + 0.5 * (top - d * (0.2 + 0.3 * level)) == limit - d * share
  {
  }

  lemma TopIsPositive(used: int, total: nat)
    requires used < total
    ensures TopBase(LoadOf(used, total)) > 0.0
  {
    hide TopBase;
    LoadBounds(BestOffer(used, total, 0.0, 1.0));
    TopFalls(LoadOf(used, total));
  }

  lemma TopFalls(load: real)
    requires load <= 1.0
    ensures TopBase(load) > 0.0
  {
  }

  lemma FactorGrows(top: real, low: real, high: real)
    requires top > 0.0 && low <= high && top * (0.5 + 0.5 * high) <= 1.0
    ensures top * (0.5 + 0.5 * low) <= 1.0
  {
    assert top * (high - low) >= 0.0;
  }

  /**
   Over all orders, all offers with given slots and all tracked reputations whose latencies are at
   least a bound: every score stays below 1.2 exactly when no slot is free or the top times the
   factor of the top reputation is at most one.
   */
  lemma TrackedBoundedIff(least: int, used: int, total: nat)
    ensures (forall history, order, offer: ProviderOffer ::
               AtLeast(history, least) && offer.usedSlots == used && offer.totalSlots == total
               && offer.reputation == Score(After(NEWCOMER, history)) ==>
               ComputeScore(order, offer) < 1.2)
            <==> used >= total || TopBase(LoadOf(used, total)) * (0.5 + 0.5 * TopReputation(least)) <= 1.0
  {
    hide ComputeScore, TopBase, LoadOf, TopReputation, Score, After;
    if used >= total || TopBase(LoadOf(used, total)) * (0.5 + 0.5 * TopReputation(least)) <= 1.0 {
      forall history, order, offer: ProviderOffer |
        AtLeast(history, least) && offer.usedSlots == used && offer.totalSlots == total
        && offer.reputation == Score(After(NEWCOMER, history))
        ensures ComputeScore(order, offer) < 1.2
      {
        if used < total {
          ScoreBelowTop(history, least);
          TopIsPositive(used, total);
          FactorGrows(TopBase(LoadOf(used, total)), offer.reputation, TopReputation(least));
        }
        BoundedIff(used, total, offer.reputation);
      }
    } else {
      var k := TrackedPasses(used, total, least);
      var history := Repeated(least, k);
      AlwaysFractions(history);
      var offer := ReachesLimit(used, total, Score(After(NEWCOMER, history)));
      assert AtLeast(history, least);
    }
  }

  /** On a clock that never goes back the reputations leave only the load to matter. */
  lemma TimelyBoundedIff(used: int, total: nat)
    ensures (forall history, order, offer: ProviderOffer ::
               Timely(history) && offer.usedSlots == used && offer.totalSlots == total
               && offer.reputation == Score(After(NEWCOMER, history)) ==>
               ComputeScore(order, offer) < 1.2)
            <==> total == 0 || 8 * used + total >= 0
  {
    hide ComputeScore, TopBase, LoadOf, Score, After;
    TrackedBoundedIff(0, used, total);
    assert forall history: seq<Outcome> :: Timely(history) <==> AtLeast(history, 0);
    assert TopReputation(0) == 1.0;
    if used < total {
      LoadBounds(BestOffer(used, total, 0.0, 1.0));
    }
  }

  /** With a tracked reputation, whatever the load, the score is positive exactly for an eligible pair, and else -1. */
  lemma TrackedScoreSign(history: seq<Outcome>, order: InferenceOrder, offer: ProviderOffer)
    requires offer.reputation == Score(After(NEWCOMER, history))
    ensures Eligible(order, offer) <==> ComputeScore(order, offer) > 0.0
    ensures !Eligible(order, offer) <==> ComputeScore(order, offer) == -1.0
    ensures Timely(history) && offer.ModestLoad() ==> ComputeScore(order, offer) < 1.2
  {
    hide ComputeScore, Eligible, Score, After;
    AlwaysFractions(history);
  }
}
