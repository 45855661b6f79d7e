/** Immediate matching: orders take turns by submission time, each getting its best free provider. */
module GreedyStrategy {
  import opened Options
  import opened MatchingModels
  import opened SerialAllocation
  import opened Sorting

  datatype Outcome = Hit(result: MatchResult) | Miss(failure: MatchFailure) {
    function OrderId(): string {
      if Hit? then result.orderId else failure.orderId
    }
  }

  // --- Specification: one outcome per turn -----------------------------------

  /** What order `o` makes of every offer at its turn; an expired order wants none. */
  function RowOf(o: InferenceOrder, now: real, offers: seq<ProviderOffer>): (row: Row)
    ensures |row| == |offers|
    ensures forall j :: 0 <= j < |row| ==>
              row[j] == if o.IsExpired(now) then -1.0 else ComputeScore(o, offers[j])
  {
    seq(|offers|, j requires 0 <= j < |offers| =>
      if o.IsExpired(now) then -1.0 else ComputeScore(o, offers[j]))
  }

  function RowsOf(turns: seq<InferenceOrder>, clock: seq<real>, offers: seq<ProviderOffer>): (rows: seq<Row>)
    requires |clock| == |turns|
    ensures |rows| == |turns|
    ensures forall i :: 0 <= i < |rows| ==> rows[i] == RowOf(turns[i], clock[i], offers)
    ensures WellShaped(rows, FreeSlots(offers))
  {
    seq(|turns|, i requires 0 <= i < |turns| => RowOf(turns[i], clock[i], offers))
  }

  function OutcomeOf(o: InferenceOrder, now: real, offers: seq<ProviderOffer>, pick: Option<nat>): Outcome {
    if pick.Some? && pick.value < |offers| then
      var offer := offers[pick.value];
      Hit(MatchResult(o.orderId, offer.providerId, ComputeScore(o, offer), offer.price))
    else
      Miss(MatchFailure(o.orderId, if o.IsExpired(now) then Timeout else NoProvider, 0, 0))
  }

  function SubmissionTime(o: InferenceOrder): real { o.submittedAt }

  function Turns(orders: seq<InferenceOrder>): (turns: seq<InferenceOrder>)
    ensures |turns| == |orders|
  {
    SortBy(orders, SubmissionTime)
  }

  function PicksOf(orders: seq<InferenceOrder>, offers: seq<ProviderOffer>, clock: seq<real>): (picks: Picks)
    requires |clock| == |orders|
    ensures |picks| == |orders|
  {
    Allocate(RowsOf(Turns(orders), clock, offers), FreeSlots(offers))
  }

  /** The outcomes of a whole call, in turn order; `clock[i]` is the time read at turn `i`. */
  function Outcomes(orders: seq<InferenceOrder>, offers: seq<ProviderOffer>, clock: seq<real>): (outs: seq<Outcome>)
    requires |clock| == |orders|
    ensures |outs| == |orders|
  {
    var turns, picks := Turns(orders), PicksOf(orders, offers, clock);
    seq(|orders|, i requires 0 <= i < |orders| => OutcomeOf(turns[i], clock[i], offers, picks[i]))
  }

  function Hits(outs: seq<Outcome>): seq<MatchResult> {
    if outs == [] then []
    else Hits(outs[..|outs| - 1]) + (if outs[|outs| - 1].Hit? then [outs[|outs| - 1].result] else [])
  }

  function Misses(outs: seq<Outcome>): seq<MatchFailure> {
    if outs == [] then []
    else Misses(outs[..|outs| - 1]) + (if outs[|outs| - 1].Miss? then [outs[|outs| - 1].failure] else [])
  }

  // --- The algorithm ---------------------------------------------------------

  /** The inner scan over the offers, for one unexpired order. */
  method BestOffer(o: InferenceOrder, offers: seq<ProviderOffer>, remaining: map<string, nat>,
                   ghost now: real, ghost cap: seq<nat>)
    returns (best: Option<nat>, bestScore: real, eligible: nat, available: nat)
    requires |cap| == |offers| && !o.IsExpired(now)
    requires forall j :: 0 <= j < |offers| ==>
               offers[j].providerId in remaining && remaining[offers[j].providerId] == cap[j]
    ensures best == Choose(RowOf(o, now, offers), cap, |cap|)
    ensures best.Some? ==> bestScore == ComputeScore(o, offers[best.value])
    ensures eligible == available && (eligible == 0 <==> best.None?)
  {
    hide ComputeScore;
    ghost var row := RowOf(o, now, offers);
    best, bestScore, eligible, available := None, -1.0, 0, 0;
    for j := 0 to |offers|
      invariant best == Choose(row, cap, j)
      invariant best.None? ==> bestScore == -1.0
      invariant best.Some? ==> bestScore == row[best.value]
      invariant eligible == available && (eligible == 0 <==> best.None?)
    {
      var offer := offers[j];
      if offer.providerId !in remaining || remaining[offer.providerId] <= 0 {
        continue;
      }
      var score := ComputeScore(o, offer);
      if score < 0.0 {
        continue;
      }
      eligible := eligible + 1;
      if offer.AvailableSlots() > 0 {
        available := available + 1;
      }
      if score > bestScore {
        bestScore, best := score, Some(j);
      }
    }
  }

  /** A dictionary of free slots, later offers overwriting earlier ones with the same id. */
  method SlotTable(offers: seq<ProviderOffer>) returns (slots: map<string, nat>)
    requires DistinctIds(offers)
    ensures forall j :: 0 <= j < |offers| ==>
              offers[j].providerId in slots && slots[offers[j].providerId] == FreeSlots(offers)[j]
  {
    slots := map[];
    for i := 0 to |offers|
      invariant forall j :: 0 <= j < i ==>
                  offers[j].providerId in slots && slots[offers[j].providerId] == FreeSlots(offers)[j]
    {
      slots := slots[offers[i].providerId := offers[i].AvailableSlots()];
    }
  }

  lemma Start(orders: seq<InferenceOrder>, offers: seq<ProviderOffer>, clock: seq<real>)
    requires |clock| == |orders|
    ensures PicksOf(orders, offers, clock)[0..] == Allocate(RowsOf(Turns(orders), clock, offers)[0..], FreeSlots(offers))
    ensures Hits(Outcomes(orders, offers, clock)[..0]) == []
    ensures Misses(Outcomes(orders, offers, clock)[..0]) == []
  {
    var rows := RowsOf(Turns(orders), clock, offers);
    assert rows[0..] == rows;
  }

  /** What turn `i` does to the specification, given what earlier turns left open. */
  lemma TurnStep(orders: seq<InferenceOrder>, offers: seq<ProviderOffer>, clock: seq<real>, i: nat, cap: seq<nat>)
    requires |clock| == |orders| && i < |orders| && |cap| == |offers|
    requires PicksOf(orders, offers, clock)[i..] == Allocate(RowsOf(Turns(orders), clock, offers)[i..], cap)
    ensures var order, pick, outs := Turns(orders)[i], PicksOf(orders, offers, clock)[i], Outcomes(orders, offers, clock);
            && pick == Choose(RowOf(order, clock[i], offers), cap, |cap|)
            && PicksOf(orders, offers, clock)[i + 1..]
               == Allocate(RowsOf(Turns(orders), clock, offers)[i + 1..], Take(cap, pick))
            && outs[i] == OutcomeOf(order, clock[i], offers, pick)
  {
    hide ComputeScore, RowOf, SortBy, Choose, Allocate;
    AllocateStep(RowsOf(Turns(orders), clock, offers), PicksOf(orders, offers, clock), cap, i);
  }

  lemma SplitStep(outs: seq<Outcome>, i: nat)
    requires i < |outs|
    ensures Hits(outs[..i + 1]) == Hits(outs[..i]) + (if outs[i].Hit? then [outs[i].result] else [])
    ensures Misses(outs[..i + 1]) == Misses(outs[..i]) + (if outs[i].Miss? then [outs[i].failure] else [])
  {
    assert outs[..i + 1][..i] == outs[..i];
  }

  method Match(orders: seq<InferenceOrder>, offers: seq<ProviderOffer>, clock: seq<real>)
    returns (matches: seq<MatchResult>, failures: seq<MatchFailure>)
    requires DistinctIds(offers) && |clock| == |orders|
    ensures matches == Hits(Outcomes(orders, offers, clock))
    ensures failures == Misses(Outcomes(orders, offers, clock))
  {
    hide ComputeScore, Eligible, RowOf, SortBy, Allocate, Hits, Misses, PicksOf, Outcomes;
    matches, failures := [], [];
    var turns := Turns(orders);
    var remaining := SlotTable(offers);
    ghost var cap := FreeSlots(offers);
    ghost var outs, picks := Outcomes(orders, offers, clock), PicksOf(orders, offers, clock);
    Start(orders, offers, clock);
    for i := 0 to |turns|
      invariant |cap| == |offers|
      invariant forall j :: 0 <= j < |offers| ==>
                  offers[j].providerId in remaining && remaining[offers[j].providerId] == cap[j]
      invariant picks[i..] == Allocate(RowsOf(turns, clock, offers)[i..], cap)
      invariant matches == Hits(outs[..i])
      invariant failures == Misses(outs[..i])
    {
      var order, now := turns[i], clock[i];
      TurnStep(orders, offers, clock, i, cap);
      SplitStep(outs, i);
      ghost var pick := picks[i];
      if order.IsExpired(now) {
        failures := failures + [MatchFailure(order.orderId, Timeout, 0, 0)];
        cap := Take(cap, pick);
        continue;
      }
      var best, bestScore, eligible, available := BestOffer(order, offers, remaining, now, cap);
      if best.Some? && bestScore > 0.0 {
        var winner := offers[best.value];
        remaining := remaining[winner.providerId := remaining[winner.providerId] - 1];
        matches := matches + [MatchResult(order.orderId, winner.providerId, bestScore, winner.price)];
      } else {
        var reason := if eligible == 0 then NoProvider else NoCapacity;
        failures := failures + [MatchFailure(order.orderId, reason, eligible, available)];
      }
      cap := Take(cap, pick);
    }
    assert outs[..|turns|] == outs;
  }

  // --- What the source promises ----------------------------------------------

  function OutcomeId(x: Outcome): string { x.OrderId() }
  lemma {:induction false} OutcomeBags(outs: seq<Outcome>)
    ensures Bag(Hits(outs), MatchedId) + Bag(Misses(outs), FailedId) == Bag(outs, OutcomeId)
  {
    hide Bag;
    if outs == [] {
      BagEmpty();
    } else {
      var n := |outs| - 1;
      var init, last := outs[..n], outs[n];
      assert outs == init + [last];
      OutcomeBags(init);
      BagSnoc(init, last, OutcomeId);
      if last.Hit? {
        BagSnoc(Hits(init), last.result, MatchedId);
        assert Misses(outs) == Misses(init);
      } else {
        BagSnoc(Misses(init), last.failure, FailedId);
        assert Hits(outs) == Hits(init);
      }
    }
  }

  lemma BagEmpty()
    ensures Bag<MatchResult, string>([], MatchedId) == multiset{}
    ensures Bag<MatchFailure, string>([], FailedId) == multiset{}
    ensures Bag<Outcome, string>([], OutcomeId) == multiset{}
  {
  }

  lemma {:induction false} BagsAgree(outs: seq<Outcome>, turns: seq<InferenceOrder>)
    requires |outs| == |turns|
    requires forall i :: 0 <= i < |outs| ==> outs[i].OrderId() == turns[i].orderId
    ensures Bag(outs, OutcomeId) == Bag(turns, SubmittedId)
  {
    if outs != [] {
      BagsAgree(outs[1..], turns[1..]);
    }
  }

  /** Every submitted order is reported once: as a match or as a failure, never as both or neither. */
  lemma EveryOrderReportedOnce(orders: seq<InferenceOrder>, offers: seq<ProviderOffer>, clock: seq<real>)
    requires |clock| == |orders|
    ensures var outs := Outcomes(orders, offers, clock);
            Bag(Hits(outs), MatchedId) + Bag(Misses(outs), FailedId) == Bag(orders, SubmittedId)
  {
    hide Bag, Hits, Misses, Allocate, ComputeScore, SortBy;
    var outs := Outcomes(orders, offers, clock);
    OutcomeBags(outs);
    BagsAgree(outs, Turns(orders));
    SortByBag(orders, SubmissionTime, SubmittedId);
  }

  /**
   What the outcome of a turn says: a match names an offer that the order may use, with its score and
   price; a failure is a timeout exactly for an expired order, and counts no providers.
   */
  lemma OutcomeIsExact(orders: seq<InferenceOrder>, offers: seq<ProviderOffer>, clock: seq<real>, i: nat)
    requires |clock| == |orders| && i < |orders|
    ensures var order, out := Turns(orders)[i], Outcomes(orders, offers, clock)[i];
            && (out.Hit? ==>
                  && order.submittedAt + order.timeoutSeconds >= clock[i] && out.result.orderId == order.orderId
                  && exists j :: 0 <= j < |offers| && Eligible(order, offers[j])
                       && out.result.providerId == offers[j].providerId && out.result.price == offers[j].price
                       && out.result.score == ComputeScore(order, offers[j]))
            && (out.Miss? ==>
                  && out.failure.orderId == order.orderId
                  && out.failure.eligibleProviders == 0 && out.failure.availableProviders == 0
                  && out.failure.reason == if clock[i] - order.submittedAt > order.timeoutSeconds then Timeout else NoProvider)
  {
    hide ComputeScore, Allocate, Eligible, SortBy;
    var rows := RowsOf(Turns(orders), clock, offers);
    AllocateIsFeasible(rows, FreeSlots(offers));
    var pick := PicksOf(orders, offers, clock)[i];
    if pick.Some? {
      assert rows[i][pick.value] > 0.0;
    }
  }

  /** Turn `n` goes to offer `j` exactly when the allocation picks column `j`. */
  lemma WinnerIsPick(orders: seq<InferenceOrder>, offers: seq<ProviderOffer>, clock: seq<real>, n: nat, j: nat)
    requires |clock| == |orders| && n < |orders| && j < |offers| && DistinctIds(offers)
    ensures var out := Outcomes(orders, offers, clock)[n];
            PicksOf(orders, offers, clock)[n] == Some(j)
            <==> out.Hit? && out.result.providerId == offers[j].providerId
  {
    hide ComputeScore, Allocate, RowOf, SortBy;
    AllocateIsFeasible(RowsOf(Turns(orders), clock, offers), FreeSlots(offers));
  }

  lemma {:induction false} MatchesOnIsCount(
    orders: seq<InferenceOrder>, offers: seq<ProviderOffer>, clock: seq<real>, n: nat, j: nat)
    requires |clock| == |orders| && n <= |orders| && j < |offers| && DistinctIds(offers)
    ensures MatchesOn(Hits(Outcomes(orders, offers, clock)[..n]), offers[j].providerId)
            == Count(PicksOf(orders, offers, clock)[..n], j)
  {
    hide PicksOf, Outcomes, Hits, Count, MatchesOn;
    var outs, picks := Outcomes(orders, offers, clock), PicksOf(orders, offers, clock);
    if n == 0 {
      NoMatchesYet(outs, picks, offers[j].providerId, j);
    } else {
      MatchesOnIsCount(orders, offers, clock, n - 1, j);
      WinnerIsPick(orders, offers, clock, n - 1, j);
      SplitStep(outs, n - 1);
      CountSnoc(picks, n - 1, j);
      if outs[n - 1].Hit? {
        MatchesOnSnoc(Hits(outs[..n - 1]), outs[n - 1].result, offers[j].providerId);
      } else {
        assert Hits(outs[..n]) == Hits(outs[..n - 1]);
      }
    }
  }

  lemma NoMatchesYet(outs: seq<Outcome>, picks: Picks, providerId: string, j: nat)
    ensures MatchesOn(Hits(outs[..0]), providerId) == Count(picks[..0], j) == 0
  {
  }

  /** No provider is matched beyond its free slots. */
  lemma CapacityRespected(orders: seq<InferenceOrder>, offers: seq<ProviderOffer>, clock: seq<real>, j: nat)
    requires |clock| == |orders| && j < |offers| && DistinctIds(offers)
    ensures MatchesOn(Hits(Outcomes(orders, offers, clock)), offers[j].providerId) <= offers[j].AvailableSlots()
  {
    var n := |orders|;
    MatchesOnIsCount(orders, offers, clock, n, j);
    AllocateIsFeasible(RowsOf(Turns(orders), clock, offers), FreeSlots(offers));
    assert Outcomes(orders, offers, clock)[..n] == Outcomes(orders, offers, clock);
    assert PicksOf(orders, offers, clock)[..n] == PicksOf(orders, offers, clock);
  }

  /**
   First come, first served: an order never scores a provider that a later-submitted order was
   matched with above its own match, and an unmatched unexpired order cannot use that provider.
   */
  lemma StableUnderFifo(orders: seq<InferenceOrder>, offers: seq<ProviderOffer>, clock: seq<real>, i: nat, k: nat)
    requires |clock| == |orders| && i < k < |orders|
    requires Outcomes(orders, offers, clock)[k].Hit?
    ensures var turns, outs := Turns(orders), Outcomes(orders, offers, clock);
            && turns[i].submittedAt <= turns[k].submittedAt
            && exists q :: 0 <= q < |offers| && offers[q].providerId == outs[k].result.providerId
                 && (outs[i].Hit? ==> outs[i].result.score >= ComputeScore(turns[i], offers[q]))
                 && (outs[i].Miss? ==> turns[i].IsExpired(clock[i]) || !Eligible(turns[i], offers[q]))
  {
    hide Allocate, Eligible;
    var rows, cap := RowsOf(Turns(orders), clock, offers), FreeSlots(offers);
    SortBySorted(orders, SubmissionTime);
    AllocateIsFeasible(rows, cap);
    NoEnvyOfLaterRows(rows, cap, i, k);
    var q := PicksOf(orders, offers, clock)[k].value;
    assert offers[q].providerId == Outcomes(orders, offers, clock)[k].result.providerId;
  }

  /**
   An unexpired order fails only when every provider that would accept it has been filled by
   earlier matches; it is then reported as "no provider", even if the fleet was merely full.
   */
  lemma FailsOnlyWhenFull(orders: seq<InferenceOrder>, offers: seq<ProviderOffer>, clock: seq<real>, i: nat, j: nat)
    requires |clock| == |orders| && i < |orders| && j < |offers| && DistinctIds(offers)
    requires var outs := Outcomes(orders, offers, clock);
             outs[i].Miss? && !Turns(orders)[i].IsExpired(clock[i])
    ensures var outs := Outcomes(orders, offers, clock);
            && outs[i].failure.reason == NoProvider
            && (Eligible(Turns(orders)[i], offers[j]) ==>
                  MatchesOn(Hits(outs[..i]), offers[j].providerId) == offers[j].AvailableSlots())
  {
    hide Allocate, Eligible, Hits, MatchesOn;
    var rows, cap := RowsOf(Turns(orders), clock, offers), FreeSlots(offers);
    var picks := PicksOf(orders, offers, clock);
    AllocateIsFeasible(rows, cap);
    AllocateIsServed(rows, cap);
    assert ServedAt(rows, cap, picks, i);
    MatchesOnIsCount(orders, offers, clock, i, j);
    OpenShrinks(cap, picks, i, |picks|, j);
    assert picks[..|picks|] == picks;
  }
}
