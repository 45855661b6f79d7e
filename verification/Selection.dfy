/**
 Which provider a selection returns, told from the fields of the request, of the connected providers
 and of the session table alone.
 */
module Selection {
  import opened Options
  import opened Reals
  import opened MatchingModels
  import opened SerialAllocation
  import opened GreedyStrategy
  import opened Routing
  import opened WaitLine

  /** Connected, routable, with a free slot, and within every constraint of the request. */
  predicate Serves(p: ConnectedProvider, ask: Ask, now: real) {
    && p.capabilities.maxConcurrent > p.active
    && !p.quarantined
    && (p.capabilities.trust == Confidential ==> p.appAttestVerified && p.admissionExpiresAt > now)
    && (ask.model == "default" || ask.model in p.capabilities.models)
    && p.capabilities.trust.Value() >= ask.minConfidence.Value()
    && (ask.maxPrice.Some? ==> p.capabilities.price <= ask.maxPrice.value)
  }

  /** The session table ties the request's session to this provider. */
  predicate Holds(affinity: Affinity, ask: Ask, id: string) {
    ask.sessionId.Some? && ask.sessionId.value != "" && (ask.sessionId.value, id) in affinity
  }

  function Cheapness(p: ConnectedProvider): real {
    1.0 / (1.0 + p.capabilities.price)
  }

  function Quickness(p: ConnectedProvider): real {
    p.capabilities.measuredTps / (10.0 + p.capabilities.measuredTps)
  }

  function Trust(p: ConnectedProvider): real {
    match p.capabilities.trust case Open => 0.0 case Contained => 0.25 case Hardened => 0.5 case Confidential => 0.75
  }

  function Idleness(p: ConnectedProvider): real {
    if p.capabilities.maxConcurrent == 0 then 0.0 else 1.0 - p.active as real / p.capabilities.maxConcurrent as real
  }

  /** The four qualities in twentieths. */
  function Quality(preference: RoutingPreference, price: real, speed: real, trust: real, idle: real): real {
    match preference
    case Cheapest => 12.0 * price + 3.0 * speed + 2.0 * trust + 3.0 * idle
    case Fastest => 2.0 * price + 12.0 * speed + 2.0 * trust + 4.0 * idle
    case MostSecure => 2.0 * price + 2.0 * speed + 12.0 * trust + 4.0 * idle
    case Balanced => 7.0 * price + 5.0 * speed + 4.0 * trust + 4.0 * idle
  }

  function QualityOf(ask: Ask, p: ConnectedProvider): real {
    Quality(ask.preference, Cheapness(p), Quickness(p), Trust(p), Idleness(p))
  }

  /** Two hundred times the score: quality, by one plus the reputation, by six for the session's provider or else five. */
  function Merit(ask: Ask, p: ConnectedProvider, reputation: real, held: bool): real {
    QualityOf(ask, p) * (1.0 + reputation) * (if held then 6.0 else 5.0)
  }

  function MeritIn(fleet: Fleet, ask: Ask, reputation: string -> NonNegative, p: ConnectedProvider): real {
    Merit(ask, p, reputation(p.id), Holds(fleet.affinity, ask, p.id))
  }

  /** The `i`-th provider can serve, and no other that can has more merit, or as much and an earlier connection. */
  ghost predicate Wins(fleet: Fleet, ask: Ask, reputation: string -> NonNegative, now: real, i: nat)
    requires i < |fleet.providers|
  {
    && Serves(fleet.providers[i], ask, now)
    && forall j :: 0 <= j < |fleet.providers| && Serves(fleet.providers[j], ask, now) ==>
         var mine, other := MeritIn(fleet, ask, reputation, fleet.providers[i]), MeritIn(fleet, ask, reputation, fleet.providers[j]);
         other < mine || (other == mine && i <= j)
  }

  /** Provider ids are distinct and not empty, and each session is tied to one provider. */
  ghost predicate Keyed(fleet: Fleet) {
    && (forall i, j :: 0 <= i < j < |fleet.providers| ==> fleet.providers[i].id != fleet.providers[j].id)
    && (forall p :: p in fleet.providers ==> p.id != "")
    && DistinctSessions(fleet.affinity)
  }

  // --- Merit is score --------------------------------------------------------

  lemma ServesIffEligible(p: ConnectedProvider, ask: Ask, affinity: string, reputation: NonNegative, now: real)
    ensures Serves(p, ask, now) <==> p.Routable(now) && Eligible(OrderOf(ask, affinity, now), OfferOf(p, reputation))
  {
  }

  lemma QualityIsBase(ask: Ask, p: ConnectedProvider, affinity: string, reputation: NonNegative, now: real)
    ensures BaseScore(WeightsFor(OrderOf(ask, affinity, now).preference), ProfileOf(OfferOf(p, reputation))) == QualityOf(ask, p) / 20.0
  {
    ProfileIs(p, reputation);
    WeightsAreTwentieths(ask.preference, Cheapness(p), Quickness(p), Trust(p), Idleness(p));
    hide Cheapness, Quickness, Trust, Idleness, BaseScore, WeightsFor, Quality;
  }

  lemma ProfileIs(p: ConnectedProvider, reputation: NonNegative)
    ensures ProfileOf(OfferOf(p, reputation)) == Profile(Cheapness(p), Quickness(p), Trust(p), Idleness(p))
  {
  }

  lemma WeightsAreTwentieths(preference: RoutingPreference, price: real, speed: real, trust: real, idle: real)
    ensures BaseScore(WeightsFor(preference), Profile(price, speed, trust, idle)) == Quality(preference, price, speed, trust, idle) / 20.0
  {
  }

  lemma MeritIsSoft(ask: Ask, p: ConnectedProvider, reputation: NonNegative, held: bool)
    ensures SoftScore(QualityOf(ask, p) / 20.0, reputation, held) == Merit(ask, p, reputation, held) / 200.0
  {
    hide QualityOf;
  }

  lemma MeritIsScore(fleet: Fleet, ask: Ask, reputation: NonNegative, now: real, p: ConnectedProvider)
    requires Keyed(fleet) && p.id != "" && Serves(p, ask, now)
    ensures ComputeScore(OrderOf(ask, fleet.AffinityFor(ask), now), OfferOf(p, reputation))
            == Merit(ask, p, reputation, Holds(fleet.affinity, ask, p.id)) / 200.0
  {
    hide SoftScore, BaseScore, QualityOf, Merit, WeightsFor, Eligible, Serves, Holds, Fleet.AffinityFor, Keyed;
    var affinity, held := fleet.AffinityFor(ask), Holds(fleet.affinity, ask, p.id);
    ServesIffEligible(p, ask, affinity, reputation, now);
    HoldsIsAffinity(fleet, ask, p.id);
    QualityIsBase(ask, p, affinity, reputation, now);
    MeritIsSoft(ask, p, reputation, held);
    assert ComputeScore(OrderOf(ask, affinity, now), OfferOf(p, reputation)) == SoftScore(QualityOf(ask, p) / 20.0, reputation, held);
  }

  lemma HoldsIsAffinity(fleet: Fleet, ask: Ask, id: string)
    requires Keyed(fleet) && id != ""
    ensures Holds(fleet.affinity, ask, id) <==> fleet.AffinityFor(ask) == id
  {
    if SessionOf(ask).Some? {
      LookupIsEntry(fleet.affinity, ask.sessionId.value, id);
    }
  }

  // --- The winner ------------------------------------------------------------

  /** Routable providers keep the order of their connections. */
  lemma {:induction false} RoutableInOrder(ps: seq<ConnectedProvider>, now: real, k: nat) returns (i: nat)
    requires k < |RoutableOnly(ps, now)|
    ensures i < |ps| && ps[i] == RoutableOnly(ps, now)[k]
    ensures forall m :: 0 <= m < |RoutableOnly(ps, now)| && m < k ==> RoutableOnly(ps, now)[m] in ps[..i]
  {
    var first := if ps[0].Routable(now) then [ps[0]] else [];
    var rest := RoutableOnly(ps[1..], now);
    assert RoutableOnly(ps, now) == first + rest;
    if k < |first| {
      i := 0;
    } else {
      var m := RoutableInOrder(ps[1..], now, k - |first|);
      i := m + 1;
      assert ps[..i] == [ps[0]] + ps[1..][..m];
    }
  }

  /** What the scan sees of a routable provider. */
  lemma RowIsMerit(fleet: Fleet, ask: Ask, reputation: string -> NonNegative, now: real, k: nat)
    requires Keyed(fleet) && k < |RoutableOnly(fleet.providers, now)|
    ensures var routable := RoutableOnly(fleet.providers, now);
            var offers, p := Offers(routable, reputation), routable[k];
            var row, cap := RowOf(OrderOf(ask, fleet.AffinityFor(ask), now), now, offers), FreeSlots(offers);
            && p in fleet.providers && |row| == |cap| == |routable|
            && (cap[k] > 0 && row[k] > 0.0 <==> Serves(p, ask, now))
            && (Serves(p, ask, now) ==> row[k] == MeritIn(fleet, ask, reputation, p) / 200.0)
  {
    hide ComputeScore, Merit, Fleet.AffinityFor;
    var routable := RoutableOnly(fleet.providers, now);
    var p, affinity := routable[k], fleet.AffinityFor(ask);
    assert p in routable;
    assert !OrderOf(ask, affinity, now).IsExpired(now);
    ServesIffEligible(p, ask, affinity, reputation(p.id), now);
    if Serves(p, ask, now) {
      MeritIsScore(fleet, ask, reputation(p.id), now, p);
    }
  }

  /** Two routable providers stand in the order of their connections. */
  lemma OrderKept(fleet: Fleet, now: real, k: nat, m: nat, i: nat, j: nat)
    requires Keyed(fleet) && i < |fleet.providers| && j < |fleet.providers|
    requires var routable := RoutableOnly(fleet.providers, now);
             k <= m < |routable| && routable[k] == fleet.providers[i] && routable[m] == fleet.providers[j]
    ensures i <= j
  {
    if k < m {
      var at := RoutableInOrder(fleet.providers, now, m);
      assert at == j;
      var n :| 0 <= n < |fleet.providers[..at]| && fleet.providers[..at][n] == fleet.providers[i];
      assert n == i;
    }
  }

  lemma FirstBestWins(fleet: Fleet, ask: Ask, reputation: string -> NonNegative, now: real, k: nat) returns (i: nat)
    requires Keyed(fleet)
    requires var offers := Offers(RoutableOnly(fleet.providers, now), reputation);
             Choose(RowOf(OrderOf(ask, fleet.AffinityFor(ask), now), now, offers), FreeSlots(offers), |offers|) == Some(k)
    ensures i < |fleet.providers| && Wins(fleet, ask, reputation, now, i)
    ensures k < |RoutableOnly(fleet.providers, now)| && fleet.providers[i] == RoutableOnly(fleet.providers, now)[k]
  {
    hide Choose, RowOf, Serves, Merit, Fleet.AffinityFor;
    var routable := RoutableOnly(fleet.providers, now);
    i := RoutableInOrder(fleet.providers, now, k);
    RowIsMerit(fleet, ask, reputation, now, k);
    forall j | 0 <= j < |fleet.providers| && Serves(fleet.providers[j], ask, now)
      ensures var mine, other := MeritIn(fleet, ask, reputation, fleet.providers[i]), MeritIn(fleet, ask, reputation, fleet.providers[j]);
              other < mine || (other == mine && i <= j)
    {
      var m := ServingIsRoutable(fleet, ask, now, j);
      RowIsMerit(fleet, ask, reputation, now, m);
      if m >= k {
        OrderKept(fleet, now, k, m, i, j);
      }
    }
  }

  lemma ServingIsRoutable(fleet: Fleet, ask: Ask, now: real, j: nat) returns (m: nat)
    requires j < |fleet.providers| && Serves(fleet.providers[j], ask, now)
    ensures m < |RoutableOnly(fleet.providers, now)| && RoutableOnly(fleet.providers, now)[m] == fleet.providers[j]
  {
    var p := fleet.providers[j];
    assert p in fleet.providers && p.Routable(now);
    m :| 0 <= m < |RoutableOnly(fleet.providers, now)| && RoutableOnly(fleet.providers, now)[m] == p;
  }

  /** A selection returns the provider of most merit, the earliest connected of equals, and nothing only if none can serve. */
  lemma PickIff(fleet: Fleet, ask: Ask, reputation: string -> NonNegative, now: real, i: nat)
    requires Keyed(fleet) && i < |fleet.providers|
    ensures fleet.Pick(ask, reputation, now) == Some(fleet.providers[i].id) <==> Wins(fleet, ask, reputation, now, i)
    ensures fleet.Pick(ask, reputation, now) == None <==> forall j :: 0 <= j < |fleet.providers| ==> !Serves(fleet.providers[j], ask, now)
  {
    hide RowOf, Serves, Choose, Merit, Fleet.AffinityFor;
    var offers := Offers(RoutableOnly(fleet.providers, now), reputation);
    var best := Choose(RowOf(OrderOf(ask, fleet.AffinityFor(ask), now), now, offers), FreeSlots(offers), |offers|);
    match best {
      case Some(k) =>
        var w := FirstBestWins(fleet, ask, reputation, now, k);
        assert Serves(fleet.providers[w], ask, now);
      case None =>
        forall j | 0 <= j < |fleet.providers| ensures !Serves(fleet.providers[j], ask, now) {
          if Serves(fleet.providers[j], ask, now) {
            var m := ServingIsRoutable(fleet, ask, now, j);
            RowIsMerit(fleet, ask, reputation, now, m);
          }
        }
    }
  }

  // --- What decides between two providers ------------------------------------

  /** Both can serve, neither holds the session, and they have equal reputations. */
  ghost predicate Rivals(fleet: Fleet, ask: Ask, reputation: string -> NonNegative, now: real, a: ConnectedProvider, b: ConnectedProvider) {
    && a in fleet.providers && b in fleet.providers
    && Serves(a, ask, now) && Serves(b, ask, now)
    && !Holds(fleet.affinity, ask, a.id) && !Holds(fleet.affinity, ask, b.id)
    && reputation(a.id) == reputation(b.id)
  }

  lemma MoreMerit(fleet: Fleet, ask: Ask, reputation: string -> NonNegative, now: real, a: ConnectedProvider, b: ConnectedProvider)
    requires Keyed(fleet) && a in fleet.providers && b in fleet.providers && Serves(a, ask, now)
    requires MeritIn(fleet, ask, reputation, a) > MeritIn(fleet, ask, reputation, b)
    ensures fleet.Pick(ask, reputation, now) != Some(b.id)
  {
    hide Fleet.Pick, MeritIn, Serves;
    var i :| 0 <= i < |fleet.providers| && fleet.providers[i] == a;
    var j :| 0 <= j < |fleet.providers| && fleet.providers[j] == b;
    PickIff(fleet, ask, reputation, now, j);
  }

  lemma MoreQuality(fleet: Fleet, ask: Ask, reputation: string -> NonNegative, now: real, a: ConnectedProvider, b: ConnectedProvider)
    requires Keyed(fleet) && Rivals(fleet, ask, reputation, now, a, b) && QualityOf(ask, a) > QualityOf(ask, b)
    ensures fleet.Pick(ask, reputation, now) != Some(b.id)
  {
    hide Fleet.Pick, QualityOf, Serves, Holds, Keyed;
    assert (QualityOf(ask, a) - QualityOf(ask, b)) * (1.0 + reputation(a.id)) > 0.0;
    MoreMerit(fleet, ask, reputation, now, a, b);
  }

  /** A price score greater by `p` against a speed score smaller by `s`, all else equal. */
  lemma PriceAgainstSpeed(fleet: Fleet, ask: Ask, reputation: string -> NonNegative, now: real, a: ConnectedProvider, b: ConnectedProvider)
    requires Keyed(fleet) && Rivals(fleet, ask, reputation, now, a, b)
    requires Trust(a) == Trust(b) && Idleness(a) == Idleness(b)
    requires var p, s := Cheapness(a) - Cheapness(b), Quickness(b) - Quickness(a);
             match ask.preference
             case Cheapest => 4.0 * p > s
             case Fastest => p > 6.0 * s
             case MostSecure => p > s
             case Balanced => 7.0 * p > 5.0 * s
    ensures fleet.Pick(ask, reputation, now) != Some(b.id)
  {
    hide Fleet.Pick, Cheapness, Quickness, Trust, Idleness, Rivals, Keyed;
    MoreQuality(fleet, ask, reputation, now, a, b);
  }

  /** A trust score greater by `t` against a speed score smaller by `s`, all else equal. */
  lemma TrustAgainstSpeed(fleet: Fleet, ask: Ask, reputation: string -> NonNegative, now: real, a: ConnectedProvider, b: ConnectedProvider)
    requires Keyed(fleet) && Rivals(fleet, ask, reputation, now, a, b)
    requires Cheapness(a) == Cheapness(b) && Idleness(a) == Idleness(b)
    requires var t, s := Trust(a) - Trust(b), Quickness(b) - Quickness(a);
             match ask.preference
             case Cheapest => 2.0 * t > 3.0 * s
             case Fastest => t > 6.0 * s
             case MostSecure => 6.0 * t > s
             case Balanced => 4.0 * t > 5.0 * s
    ensures fleet.Pick(ask, reputation, now) != Some(b.id)
  {
    hide Fleet.Pick, Cheapness, Quickness, Trust, Idleness, Rivals, Keyed;
    MoreQuality(fleet, ask, reputation, now, a, b);
  }

  /** A share of free slots greater by `l` against a price score smaller by `p`, all else equal. */
  lemma LoadAgainstPrice(fleet: Fleet, ask: Ask, reputation: string -> NonNegative, now: real, a: ConnectedProvider, b: ConnectedProvider)
    requires Keyed(fleet) && Rivals(fleet, ask, reputation, now, a, b)
    requires Trust(a) == Trust(b) && Quickness(a) == Quickness(b)
    requires var l, p := Idleness(a) - Idleness(b), Cheapness(b) - Cheapness(a);
             match ask.preference
             case Cheapest => l > 4.0 * p
             case Fastest => 2.0 * l > p
             case MostSecure => 2.0 * l > p
             case Balanced => 4.0 * l > 7.0 * p
    ensures fleet.Pick(ask, reputation, now) != Some(b.id)
  {
    hide Fleet.Pick, Cheapness, Quickness, Trust, Idleness, Rivals, Keyed;
    MoreQuality(fleet, ask, reputation, now, a, b);
  }

  lemma QualityIsPositive(ask: Ask, p: ConnectedProvider, now: real)
    requires Serves(p, ask, now)
    ensures QualityOf(ask, p) > 0.0
  {
    if p.capabilities.maxConcurrent > 0 {
      var slots, used, share := p.capabilities.maxConcurrent as real, p.active as real, 1.0 - Idleness(p);
      assert share * slots == used && used < slots;
      CancelledStrictly(share, 1.0, slots);
    }
    assert Cheapness(p) > 0.0 && Quickness(p) >= 0.0 && Idleness(p) >= 0.0;
    hide Cheapness, Quickness, Idleness;
  }

  /** Of two equally good providers the one that the session is tied to wins. */
  lemma SessionDecides(fleet: Fleet, ask: Ask, reputation: string -> NonNegative, now: real, a: ConnectedProvider, b: ConnectedProvider)
    requires Keyed(fleet) && a in fleet.providers && b in fleet.providers && Serves(a, ask, now)
    requires QualityOf(ask, a) == QualityOf(ask, b) && reputation(a.id) == reputation(b.id)
    requires Holds(fleet.affinity, ask, a.id) && !Holds(fleet.affinity, ask, b.id)
    ensures fleet.Pick(ask, reputation, now) != Some(b.id)
  {
    hide Fleet.Pick, QualityOf, Serves, Holds, Keyed;
    QualityIsPositive(ask, a, now);
    assert QualityOf(ask, a) * (1.0 + reputation(a.id)) > 0.0;
    MoreMerit(fleet, ask, reputation, now, a, b);
  }

  /** Of two equally good providers without the session the one of better reputation wins. */
  lemma ReputationDecides(fleet: Fleet, ask: Ask, reputation: string -> NonNegative, now: real, a: ConnectedProvider, b: ConnectedProvider)
    requires Keyed(fleet) && a in fleet.providers && b in fleet.providers && Serves(a, ask, now)
    requires QualityOf(ask, a) == QualityOf(ask, b) && reputation(a.id) > reputation(b.id)
    requires !Holds(fleet.affinity, ask, b.id)
    ensures fleet.Pick(ask, reputation, now) != Some(b.id)
  {
    hide Fleet.Pick, QualityOf, Serves, Holds, Keyed;
    QualityIsPositive(ask, a, now);
    var q := QualityOf(ask, a);
    assert q * (reputation(a.id) - reputation(b.id)) > 0.0 && q * (1.0 + reputation(a.id)) > 0.0;
    MoreMerit(fleet, ask, reputation, now, a, b);
  }

  // --- The wait queue --------------------------------------------------------

  ghost predicate Served(fleet: Fleet, ask: Ask, now: real) {
    exists p :: p in fleet.providers && Serves(p, ask, now)
  }

  lemma PickOfServed(fleet: Fleet, ask: Ask, reputation: string -> NonNegative, now: real)
    requires Keyed(fleet)
    ensures fleet.Pick(ask, reputation, now).Some? <==> Served(fleet, ask, now)
    ensures Served(fleet, ask, now) ==>
              exists w :: 0 <= w < |fleet.providers| && Wins(fleet, ask, reputation, now, w)
                          && fleet.Pick(ask, reputation, now) == Some(fleet.providers[w].id)
  {
    hide Fleet.Pick, Serves, Wins;
    PickIffCanServe(fleet, ask, reputation, now);
    forall p | p in fleet.providers ensures Serves(p, ask, now) <==> HasFreeSlot(p) && Compatible(p, ask.model, ask.minConfidence, ask.maxPrice, now) {
      ServesIsCompatible(p, ask, now);
    }
    if Served(fleet, ask, now) {
      PickIsConnected(fleet, ask, reputation, now);
      var w :| 0 <= w < |fleet.providers| && fleet.Pick(ask, reputation, now) == Some(fleet.providers[w].id);
      PickIff(fleet, ask, reputation, now, w);
    }
  }

  lemma PickIsConnected(fleet: Fleet, ask: Ask, reputation: string -> NonNegative, now: real)
    requires fleet.Pick(ask, reputation, now).Some?
    ensures exists w :: 0 <= w < |fleet.providers| && fleet.Pick(ask, reputation, now) == Some(fleet.providers[w].id)
  {
    hide Winner, Compatible;
    SelectionIsComplete(fleet.providers, ask, fleet.AffinityFor(ask), reputation, now);
    var p :| p in fleet.providers && p.id == fleet.Pick(ask, reputation, now).value;
    var w :| 0 <= w < |fleet.providers| && fleet.providers[w] == p;
  }

  lemma ServesIsCompatible(p: ConnectedProvider, ask: Ask, now: real)
    ensures Serves(p, ask, now) <==> HasFreeSlot(p) && Compatible(p, ask.model, ask.minConfidence, ask.maxPrice, now)
  {
  }

  /**
   A dispatch assigns the first waiting request that some provider can serve to the provider that
   wins it, and changes nothing else; if there is no such request it changes nothing at all.
   */
  lemma DispatchIsExact(line: Line, fleet: Fleet, now: real)
    requires Keyed(fleet)
    ensures (forall i :: 0 <= i < |line| && line[i].status.Waiting? ==> !Served(fleet, line[i].ask, now)) ==>
              Dispatched(line, fleet, now) == line
    ensures forall i :: 0 <= i < |line| && line[i].status.Waiting? && Served(fleet, line[i].ask, now)
                        && (forall j :: 0 <= j < i && line[j].status.Waiting? ==> !Served(fleet, line[j].ask, now)) ==>
              exists w :: 0 <= w < |fleet.providers| && Wins(fleet, line[i].ask, FullMarks, now, w)
                          && Dispatched(line, fleet, now) == line[i := Entry(line[i].ask, Assigned(fleet.providers[w].id))]
  {
    hide Fleet.Pick, Served, Wins;
    forall i | 0 <= i < |line|
      ensures fleet.Pick(line[i].ask, FullMarks, now).Some? <==> Served(fleet, line[i].ask, now)
      ensures Served(fleet, line[i].ask, now) ==>
                exists w :: 0 <= w < |fleet.providers| && Wins(fleet, line[i].ask, FullMarks, now, w)
                            && fleet.Pick(line[i].ask, FullMarks, now) == Some(fleet.providers[w].id)
    {
      PickOfServed(fleet, line[i].ask, FullMarks, now);
    }
  }

  // --- The session table -----------------------------------------------------

  /** After a selection the session is tied to the winner, and every later request of that session finds it so. */
  lemma SessionIsRemembered(fleet: Fleet, ask: Ask, later: Ask, id: string)
    requires Keyed(fleet) && |fleet.affinity| <= AFFINITY_MAX
    requires ask.sessionId.Some? && ask.sessionId.value != "" && later.sessionId == ask.sessionId
    ensures var after := fleet.Picked(ask, Some(id));
            && after.providers == fleet.providers && Keyed(after)
            && forall other :: Holds(after.affinity, later, other) <==> other == id
  {
    hide Remember;
    RememberIsExact(fleet.affinity, ask.sessionId.value, id);
    RememberIsBounded(fleet.affinity, ask.sessionId.value, id);
    var table := Remember(fleet.affinity, ask.sessionId.value, id);
    forall other ensures (ask.sessionId.value, other) in table <==> other == id {
      LookupIsEntry(table, ask.sessionId.value, other);
    }
  }

  /** A request without a session, or one that found no provider, leaves the table as it was. */
  lemma NothingToRemember(fleet: Fleet, ask: Ask, winner: Option<string>)
    requires ask.sessionId == None || ask.sessionId == Some("") || winner == None
    ensures fleet.Picked(ask, winner) == fleet
  {
  }
}
