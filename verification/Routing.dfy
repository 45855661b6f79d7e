/** Choosing a provider for a request, and explaining why none can ever serve it. */
module Routing {
  import opened Options
  import opened MatchingModels
  import opened SerialAllocation
  import opened GreedyStrategy

  datatype Capabilities = Capabilities(
    models: seq<string>, maxConcurrent: nat, trust: ConfidenceLevel,
    measuredTps: NonNegative, price: NonNegative)

  datatype ConnectedProvider = ConnectedProvider(
    id: string, capabilities: Capabilities, active: int,
    appAttestVerified: bool, admissionExpiresAt: real, quarantined: bool)
  {
    /** Confidential providers need a live App Attest admission; the others are admitted as they are. */
    predicate Admitted(now: real) {
      capabilities.trust == Confidential ==> appAttestVerified && admissionExpiresAt > now
    }

    predicate Routable(now: real) {
      Admitted(now) && !quarantined
    }
  }

  /** What a consumer asks of routing. */
  datatype Ask = Ask(
    model: string, preference: RoutingPreference, minConfidence: ConfidenceLevel,
    maxPrice: Option<real>, sessionId: Option<string>)

  function CeilingOf(maxPrice: Option<real>): Ceiling {
    match maxPrice case None => Unlimited case Some(p) => AtMost(p)
  }

  /** The order for one selection, submitted and judged at one moment. */
  function OrderOf(ask: Ask, affinity: string, now: real): InferenceOrder {
    InferenceOrder("select", ask.model, CeilingOf(ask.maxPrice), ask.minConfidence, ask.preference, now, 120.0, affinity)
  }

  function OfferOf(p: ConnectedProvider, reputation: NonNegative): ProviderOffer {
    ProviderOffer(p.id, p.capabilities.models, p.capabilities.price, p.capabilities.trust,
                  p.capabilities.measuredTps, p.capabilities.maxConcurrent, p.active, reputation)
  }

  function RoutableOnly(providers: seq<ConnectedProvider>, now: real): (r: seq<ConnectedProvider>)
    ensures forall p :: p in r <==> p in providers && p.Routable(now)
  {
    if providers == [] then []
    else (if providers[0].Routable(now) then [providers[0]] else []) + RoutableOnly(providers[1..], now)
  }

  function Offers(routable: seq<ConnectedProvider>, reputation: string -> NonNegative): (offers: seq<ProviderOffer>)
    ensures |offers| == |routable|
    ensures forall i :: 0 <= i < |offers| ==> offers[i] == OfferOf(routable[i], reputation(routable[i].id))
  {
    seq(|routable|, i requires 0 <= i < |routable| => OfferOf(routable[i], reputation(routable[i].id)))
  }

  /** The winner among the connected providers, in the order in which they connected. */
  function Winner(providers: seq<ConnectedProvider>, ask: Ask, affinity: string, reputation: string -> NonNegative, now: real)
    : (winner: Option<string>)
  {
    var routable := RoutableOnly(providers, now);
    var offers := Offers(routable, reputation);
    match Choose(RowOf(OrderOf(ask, affinity, now), now, offers), FreeSlots(offers), |offers|)
    case None => None
    case Some(k) => Some(routable[k].id)
  }

  /** The hard constraints that a provider meets or fails regardless of its load. */
  predicate Compatible(p: ConnectedProvider, model: string, minConfidence: ConfidenceLevel, maxPrice: Option<real>, now: real) {
    && p.Routable(now)
    && (model == "default" || model in p.capabilities.models)
    && p.capabilities.trust.Value() >= minConfidence.Value()
    && CeilingOf(maxPrice).Allows(p.capabilities.price)
  }

  predicate HasFreeSlot(p: ConnectedProvider) {
    p.capabilities.maxConcurrent > p.active
  }

  /** Selection succeeds exactly when some compatible provider has a free slot, and picks one of them. */
  lemma SelectionIsComplete(providers: seq<ConnectedProvider>, ask: Ask, affinity: string,
                            reputation: string -> NonNegative, now: real)
    ensures var winner := Winner(providers, ask, affinity, reputation, now);
            && (winner.Some? <==> exists p :: p in providers && HasFreeSlot(p)
                                    && Compatible(p, ask.model, ask.minConfidence, ask.maxPrice, now))
            && (winner.Some? ==> exists p :: p in providers && p.id == winner.value && HasFreeSlot(p)
                                    && Compatible(p, ask.model, ask.minConfidence, ask.maxPrice, now))
  {
    hide ComputeScore;
    var routable := RoutableOnly(providers, now);
    var offers, order := Offers(routable, reputation), OrderOf(ask, affinity, now);
    var row, cap := RowOf(order, now, offers), FreeSlots(offers);
    assert !order.IsExpired(now);
    match Choose(row, cap, |offers|) {
      case Some(k) =>
        assert routable[k] in routable;
        assert Eligible(order, offers[k]);
      case None =>
        forall p | p in providers && Compatible(p, ask.model, ask.minConfidence, ask.maxPrice, now)
          ensures !HasFreeSlot(p)
        {
          assert p in routable;
          var k :| 0 <= k < |routable| && routable[k] == p;
          assert row[k] == ComputeScore(order, offers[k]);
        }
    }
  }

  /** No eligible provider with a free slot outranks the one selected. */
  lemma SelectionIsBest(providers: seq<ConnectedProvider>, ask: Ask, affinity: string,
                        reputation: string -> NonNegative, now: real, p: ConnectedProvider)
    requires p in providers && p.Routable(now)
    requires forall i, j :: 0 <= i < j < |providers| ==> providers[i].id != providers[j].id
    requires Winner(providers, ask, affinity, reputation, now).Some?
    ensures exists w :: w in providers && w.id == Winner(providers, ask, affinity, reputation, now).value
              && ComputeScore(OrderOf(ask, affinity, now), OfferOf(p, reputation(p.id)))
                 <= ComputeScore(OrderOf(ask, affinity, now), OfferOf(w, reputation(w.id)))
  {
    hide ComputeScore;
    var routable := RoutableOnly(providers, now);
    var offers, order := Offers(routable, reputation), OrderOf(ask, affinity, now);
    var row, cap := RowOf(order, now, offers), FreeSlots(offers);
    assert !order.IsExpired(now);
    var best := Choose(row, cap, |offers|);
    var m :| 0 <= m < |routable| && routable[m] == p;
    assert row[m] == ComputeScore(order, offers[m]);
    assert cap[m] == 0 ==> !Eligible(order, offers[m]);
    assert routable[best.value] in routable;
  }

  // --- Explaining a refusal --------------------------------------------------

  datatype NoMatch =
    | NoProviderOnline
    | ModelNotAvailable(available: set<string>)
    | TrustTooLow(best: ConfidenceLevel)
    | PriceTooHigh(cheapest: real)

  function ServingOnly(ps: seq<ConnectedProvider>, model: string): (r: seq<ConnectedProvider>)
    ensures forall p :: p in r <==> p in ps && (model == "default" || model in p.capabilities.models)
  {
    if ps == [] then []
    else (if model == "default" || model in ps[0].capabilities.models then [ps[0]] else []) + ServingOnly(ps[1..], model)
  }

  function TrustedOnly(ps: seq<ConnectedProvider>, need: ConfidenceLevel): (r: seq<ConnectedProvider>)
    ensures forall p :: p in r <==> p in ps && p.capabilities.trust.Value() >= need.Value()
  {
    if ps == [] then []
    else (if ps[0].capabilities.trust.Value() >= need.Value() then [ps[0]] else []) + TrustedOnly(ps[1..], need)
  }

  function PricedOnly(ps: seq<ConnectedProvider>, limit: real): (r: seq<ConnectedProvider>)
    ensures forall p :: p in r <==> p in ps && p.capabilities.price <= limit
  {
    if ps == [] then []
    else (if ps[0].capabilities.price <= limit then [ps[0]] else []) + PricedOnly(ps[1..], limit)
  }

  function BestTrust(ps: seq<ConnectedProvider>): (best: ConfidenceLevel)
    requires ps != []
    ensures exists p :: p in ps && p.capabilities.trust == best
    ensures forall p :: p in ps ==> p.capabilities.trust.Value() <= best.Value()
  {
    if |ps| == 1 then ps[0].capabilities.trust
    else
      assert ps == [ps[0]] + ps[1..];
      var rest := BestTrust(ps[1..]);
      if ps[0].capabilities.trust.Value() >= rest.Value() then ps[0].capabilities.trust else rest
  }

  function Cheapest(ps: seq<ConnectedProvider>): (price: real)
    requires ps != []
    ensures exists p :: p in ps && p.capabilities.price == price
    ensures forall p :: p in ps ==> p.capabilities.price >= price
  {
    if |ps| == 1 then ps[0].capabilities.price
    else
      assert ps == [ps[0]] + ps[1..];
      var rest := Cheapest(ps[1..]);
      if ps[0].capabilities.price <= rest then ps[0].capabilities.price else rest
  }

  function ExplainNoMatch(providers: seq<ConnectedProvider>, model: string, need: ConfidenceLevel,
                          maxPrice: Option<real>, now: real): Option<NoMatch>
  {
    var routable := RoutableOnly(providers, now);
    if routable == [] then Some(NoProviderOnline)
    else
      var serving := ServingOnly(routable, model);
      if serving == [] then Some(ModelNotAvailable(set p, m | p in routable && m in p.capabilities.models :: m))
      else
        var trusted := TrustedOnly(serving, need);
        if trusted == [] then Some(TrustTooLow(BestTrust(serving)))
        else if maxPrice.Some? && PricedOnly(trusted, maxPrice.value) == []
        then Some(PriceTooHigh(Cheapest(trusted)))
        else None
  }

  /** A reason is given exactly when no connected provider is compatible. */
  lemma ExplainedIffIncompatible(providers: seq<ConnectedProvider>, model: string, need: ConfidenceLevel,
                                 maxPrice: Option<real>, now: real)
    ensures ExplainNoMatch(providers, model, need, maxPrice, now).None?
            <==> exists p :: p in providers && Compatible(p, model, need, maxPrice, now)
  {
    var routable := RoutableOnly(providers, now);
    var serving := ServingOnly(routable, model);
    var trusted := TrustedOnly(serving, need);
    if ExplainNoMatch(providers, model, need, maxPrice, now).None? {
      if maxPrice.Some? {
        var p := PricedOnly(trusted, maxPrice.value)[0];
        assert p in PricedOnly(trusted, maxPrice.value);
        assert Compatible(p, model, need, maxPrice, now);
      } else {
        var p := trusted[0];
        assert p in trusted;
        assert Compatible(p, model, need, maxPrice, now);
      }
    }
    if p :| p in providers && Compatible(p, model, need, maxPrice, now) {
      assert p in routable && p in serving && p in trusted;
      assert maxPrice.Some? ==> p in PricedOnly(trusted, maxPrice.value);
    }
  }

  predicate ServesModel(p: ConnectedProvider, model: string) {
    model == "default" || model in p.capabilities.models
  }

  /**
   Each reason, told of the connected providers alone: nobody is routable; nobody routable serves the
   model, and these are the models served; nobody serving it is trusted enough, and this is the
   highest level among them; nobody trusted enough is cheap enough, and this is the lowest price.
   */
  lemma ReasonIsExact(providers: seq<ConnectedProvider>, model: string, need: ConfidenceLevel, maxPrice: Option<real>, now: real)
    ensures var reason := ExplainNoMatch(providers, model, need, maxPrice, now);
            && (reason == Some(NoProviderOnline) <==> forall p :: p in providers ==> !p.Routable(now))
            && (reason.Some? && reason.value.ModelNotAvailable? ==>
                  && (forall p :: p in providers && p.Routable(now) ==> !ServesModel(p, model))
                  && forall m :: m in reason.value.available <==>
                       exists p :: p in providers && p.Routable(now) && m in p.capabilities.models)
            && (reason.Some? && reason.value.TrustTooLow? ==>
                  && reason.value.best.Value() < need.Value()
                  && (exists p :: p in providers && p.Routable(now) && ServesModel(p, model) && p.capabilities.trust == reason.value.best)
                  && forall p :: p in providers && p.Routable(now) && ServesModel(p, model) ==>
                       p.capabilities.trust.Value() <= reason.value.best.Value())
            && (reason.Some? && reason.value.PriceTooHigh? ==>
                  && maxPrice.Some? && maxPrice.value < reason.value.cheapest
                  && (exists p :: p in providers && p.Routable(now) && ServesModel(p, model)
                        && p.capabilities.trust.Value() >= need.Value() && p.capabilities.price == reason.value.cheapest)
                  && forall p :: p in providers && p.Routable(now) && ServesModel(p, model)
                                 && p.capabilities.trust.Value() >= need.Value() ==>
                       reason.value.cheapest <= p.capabilities.price)
  {
    hide ConnectedProvider.Routable;
    var routable := RoutableOnly(providers, now);
    var serving := ServingOnly(routable, model);
    var trusted := TrustedOnly(serving, need);
    if routable != [] {
      assert routable[0] in routable;
    }
    if trusted != [] && maxPrice.Some? && PricedOnly(trusted, maxPrice.value) == [] {
      forall p | p in trusted ensures maxPrice.value < p.capabilities.price {
        assert p !in PricedOnly(trusted, maxPrice.value);
      }
    }
    if serving != [] && trusted == [] {
      forall p | p in serving ensures p.capabilities.trust.Value() < need.Value() {
        assert p !in trusted;
      }
    }
    if serving == [] {
      forall p | p in routable ensures !ServesModel(p, model) {
        assert p !in serving;
      }
    }
  }

  function Idle(providers: seq<ConnectedProvider>): (r: seq<ConnectedProvider>)
    ensures |r| == |providers| && forall i :: 0 <= i < |r| ==> r[i] == providers[i].(active := 0)
  {
    seq(|providers|, i requires 0 <= i < |providers| => providers[i].(active := 0))
  }

  /** Providers as they registered: every one announces at least one slot. */
  predicate RegisteredBounds(providers: seq<ConnectedProvider>) {
    forall p :: p in providers ==> p.capabilities.maxConcurrent >= 1
  }

  /** No explanation is given exactly when selection would succeed on an idle fleet. */
  lemma UnexplainedIffIdleSelects(providers: seq<ConnectedProvider>, ask: Ask, affinity: string,
                                  reputation: string -> NonNegative, now: real)
    requires RegisteredBounds(providers)
    ensures ExplainNoMatch(providers, ask.model, ask.minConfidence, ask.maxPrice, now).None?
            <==> Winner(Idle(providers), ask, affinity, reputation, now).Some?
  {
    hide Winner, ExplainNoMatch;
    ExplainedIffIncompatible(providers, ask.model, ask.minConfidence, ask.maxPrice, now);
    SelectionIsComplete(Idle(providers), ask, affinity, reputation, now);
    if p :| p in providers && Compatible(p, ask.model, ask.minConfidence, ask.maxPrice, now) {
      var i :| 0 <= i < |providers| && providers[i] == p;
      assert Idle(providers)[i] in Idle(providers);
      assert HasFreeSlot(Idle(providers)[i]);
    }
    if q :| q in Idle(providers) && Compatible(q, ask.model, ask.minConfidence, ask.maxPrice, now) {
      var i :| 0 <= i < |providers| && Idle(providers)[i] == q;
      assert providers[i] in providers;
      assert Compatible(providers[i], ask.model, ask.minConfidence, ask.maxPrice, now);
    }
  }

  ghost predicate SameButForLoad(a: seq<ConnectedProvider>, b: seq<ConnectedProvider>) {
    |a| == |b| && forall i :: 0 <= i < |a| ==> b[i] == a[i].(active := b[i].active)
  }

  /** Once a reason is given, selection fails at every load. */
  lemma ExplainedFailsAtEveryLoad(providers: seq<ConnectedProvider>, loaded: seq<ConnectedProvider>, ask: Ask,
                                  affinity: string, reputation: string -> NonNegative, now: real)
    requires ExplainNoMatch(providers, ask.model, ask.minConfidence, ask.maxPrice, now).Some?
    requires SameButForLoad(providers, loaded)
    ensures Winner(loaded, ask, affinity, reputation, now).None?
  {
    hide Winner, ExplainNoMatch;
    ExplainedIffIncompatible(providers, ask.model, ask.minConfidence, ask.maxPrice, now);
    SelectionIsComplete(loaded, ask, affinity, reputation, now);
    forall q | q in loaded ensures !Compatible(q, ask.model, ask.minConfidence, ask.maxPrice, now) {
      var i :| 0 <= i < |loaded| && loaded[i] == q;
      assert providers[i] in providers;
    }
  }

  lemma SomeMember(ps: seq<ConnectedProvider>)
    ensures ps != [] ==> exists p :: p in ps
  {
    if ps != [] {
      assert ps[0] in ps;
    }
  }

  lemma NoneCheaper(ps: seq<ConnectedProvider>, lower: real)
    requires ps != [] && lower < Cheapest(ps)
    ensures PricedOnly(ps, lower) == []
  {
    SomeMember(PricedOnly(ps, lower));
  }

  /** Asking again at the quoted lowest price removes the objection, and at any lower price does not. */
  lemma QuotedPriceIsEnough(providers: seq<ConnectedProvider>, model: string, need: ConfidenceLevel,
                            maxPrice: Option<real>, now: real)
    requires ExplainNoMatch(providers, model, need, maxPrice, now).Some?
    requires ExplainNoMatch(providers, model, need, maxPrice, now).value.PriceTooHigh?
    ensures var quoted := ExplainNoMatch(providers, model, need, maxPrice, now).value.cheapest;
            && ExplainNoMatch(providers, model, need, Some(quoted), now).None?
            && forall lower :: lower < quoted ==> ExplainNoMatch(providers, model, need, Some(lower), now).Some?
  {
    hide RoutableOnly, ServingOnly, TrustedOnly, PricedOnly, Cheapest, BestTrust;
    var trusted := TrustedOnly(ServingOnly(RoutableOnly(providers, now), model), need);
    var p :| p in trusted && p.capabilities.price == Cheapest(trusted);
    assert p in PricedOnly(trusted, Cheapest(trusted));
    forall lower | lower < Cheapest(trusted)
      ensures ExplainNoMatch(providers, model, need, Some(lower), now).Some?
    {
      NoneCheaper(trusted, lower);
    }
  }

  lemma NoneMoreTrusted(ps: seq<ConnectedProvider>, higher: ConfidenceLevel)
    requires ps != [] && higher.Value() > BestTrust(ps).Value()
    ensures TrustedOnly(ps, higher) == []
  {
    SomeMember(TrustedOnly(ps, higher));
  }

  /** Asking again at the quoted trust level removes the trust objection, and at any higher level does not. */
  lemma QuotedTrustIsEnough(providers: seq<ConnectedProvider>, model: string, need: ConfidenceLevel,
                            maxPrice: Option<real>, now: real)
    requires ExplainNoMatch(providers, model, need, maxPrice, now).Some?
    requires ExplainNoMatch(providers, model, need, maxPrice, now).value.TrustTooLow?
    ensures var quoted := ExplainNoMatch(providers, model, need, maxPrice, now).value.best;
            && ExplainNoMatch(providers, model, quoted, None, now).None?
            && forall higher: ConfidenceLevel :: higher.Value() > quoted.Value() ==>
                 ExplainNoMatch(providers, model, higher, None, now).Some?
  {
    hide RoutableOnly, ServingOnly, TrustedOnly, PricedOnly, Cheapest, BestTrust;
    var serving := ServingOnly(RoutableOnly(providers, now), model);
    var p :| p in serving && p.capabilities.trust == BestTrust(serving);
    assert p in TrustedOnly(serving, BestTrust(serving));
    forall higher: ConfidenceLevel | higher.Value() > BestTrust(serving).Value()
      ensures ExplainNoMatch(providers, model, higher, None, now).Some?
    {
      NoneMoreTrusted(serving, higher);
    }
  }
}
