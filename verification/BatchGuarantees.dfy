/** What batch matching reports, and when its over-assignment guard matters. */
module BatchGuarantees {
  import opened Decimals
  import opened Options
  import opened MatchingModels
  import opened SerialAllocation
  import opened Sorting
  import opened BatchAuction
  import opened BatchOptimality

  // --- Capacity and the over-assignment guard --------------------------------

  function SlotsOn(slots: seq<ProviderOffer>, providerId: string): set<nat> {
    set j: nat | j < |slots| && slots[j].providerId == providerId
  }

  function Range(lo: nat, hi: nat): (r: set<nat>)
    requires lo <= hi
    ensures |r| == hi - lo && forall x :: x in r <==> lo <= x < hi
    decreases hi - lo
  {
    if lo == hi then {} else {lo} + Range(lo + 1, hi)
  }

  lemma {:induction false} ExpandMembers(offers: seq<ProviderOffer>)
    ensures forall s :: s in Expand(offers) ==> s in offers
  {
    if offers != [] {
      ExpandMembers(offers[..|offers| - 1]);
    }
  }

  /** A provider owns as many slots as it has free. */
  lemma {:induction false} SlotsOnProvider(offers: seq<ProviderOffer>, j: nat)
    requires j < |offers| && DistinctIds(offers)
    ensures |SlotsOn(Expand(offers), offers[j].providerId)| == offers[j].AvailableSlots()
  {
    hide ProviderOffer.AvailableSlots;
    var n, id := |offers| - 1, offers[j].providerId;
    var before, all := Expand(offers[..n]), Expand(offers);
    ExpandMembers(offers[..n]);
    if j == n {
      assert forall s :: s in before ==> s.providerId != id;
      assert SlotsOn(all, id) == Range(|before|, |all|);
    } else {
      SlotsOnProvider(offers[..n], j);
      assert SlotsOn(all, id) == SlotsOn(before, id);
    }
  }

  /** Pairs that use distinct slots of a pool are no more than the pool. */
  lemma {:induction false} OnProviderWithinPool(
    pairs: seq<Pair>, slots: seq<ProviderOffer>, providerId: string, pool: set<nat>)
    requires forall k :: 0 <= k < |pairs| ==> pairs[k].1 < |slots|
    requires forall a, b :: 0 <= a < b < |pairs| ==> pairs[a].1 != pairs[b].1
    requires forall k :: 0 <= k < |pairs| && slots[pairs[k].1].providerId == providerId ==> pairs[k].1 in pool
    ensures OnProvider(pairs, slots, providerId) <= |pool|
  {
    if pairs != [] {
      var n := |pairs| - 1;
      if slots[pairs[n].1].providerId == providerId {
        OnProviderWithinPool(pairs[..n], slots, providerId, pool - {pairs[n].1});
      } else {
        OnProviderWithinPool(pairs[..n], slots, providerId, pool);
      }
    }
  }

  lemma PairsWithinFreeSlots(orders: seq<InferenceOrder>, offers: seq<ProviderOffer>, j: nat, n: nat)
    requires j < |offers| && DistinctIds(offers) && n <= |Settled(orders, offers)|
    ensures OnProvider(Settled(orders, offers)[..n], Expand(offers), offers[j].providerId) <= offers[j].AvailableSlots()
  {
    hide Expand, Assignment, ScoreMatrix, ProviderOffer.AvailableSlots;
    var slots := Expand(offers);
    AssignmentIsMatching(ScoreMatrix(orders, slots), |slots|);
    OnProviderWithinPool(Settled(orders, offers)[..n], slots, offers[j].providerId, SlotsOn(slots, offers[j].providerId));
    SlotsOnProvider(offers, j);
  }

  lemma {:induction false} AdmittedAtMost(orders: seq<InferenceOrder>, slots: seq<ProviderOffer>, pairs: seq<Pair>, id: string)
    requires InRange(pairs, orders, slots)
    ensures MatchesOn(Admitted(orders, slots, pairs), id) <= OnProvider(pairs, slots, id)
  {
    hide ComputeScore;
    if pairs != [] {
      var n := |pairs| - 1;
      var before := Admitted(orders, slots, pairs[..n]);
      AdmittedAtMost(orders, slots, pairs[..n], id);
      MatchesOnSnoc(before, ResultOf(orders, slots, pairs[n]), id);
      assert before + [] == before;
    }
  }

  /** Each provider is matched at most as often as it has free slots. */
  lemma CapacityRespected(orders: seq<InferenceOrder>, offers: seq<ProviderOffer>, j: nat)
    requires j < |offers| && DistinctIds(offers)
    ensures MatchesOn(BatchMatches(orders, offers), offers[j].providerId) <= offers[j].AvailableSlots()
  {
    var pairs := Settled(orders, offers);
    assert pairs[..|pairs|] == pairs;
    PairsWithinFreeSlots(orders, offers, j, |pairs|);
    AdmittedAtMost(orders, Expand(offers), pairs, offers[j].providerId);
  }

  /** Pair `n` and its predecessors keep the provider of pair `n` within its total slots. */
  ghost predicate WithinTotal(slots: seq<ProviderOffer>, pairs: seq<Pair>, n: nat)
    requires forall k :: 0 <= k < |pairs| ==> pairs[k].1 < |slots|
    requires n < |pairs|
  {
    OnProvider(pairs[..n + 1], slots, slots[pairs[n].1].providerId) <= slots[pairs[n].1].totalSlots
  }

  lemma {:induction false} NothingSkipped(orders: seq<InferenceOrder>, slots: seq<ProviderOffer>, pairs: seq<Pair>)
    requires InRange(pairs, orders, slots)
    requires forall n :: 0 <= n < |pairs| ==> WithinTotal(slots, pairs, n)
    ensures |Admitted(orders, slots, pairs)| == |pairs|
    ensures forall k :: 0 <= k < |pairs| ==> Admitted(orders, slots, pairs)[k] == ResultOf(orders, slots, pairs[k])
  {
    hide ComputeScore, OnProvider, ResultOf;
    if pairs != [] {
      var n := |pairs| - 1;
      forall m | 0 <= m < n ensures WithinTotal(slots, pairs[..n], m) {
        assert WithinTotal(slots, pairs, m);
        assert pairs[..n][..m + 1] == pairs[..m + 1];
      }
      NothingSkipped(orders, slots, pairs[..n]);
      assert WithinTotal(slots, pairs, n);
      assert pairs[..n + 1] == pairs;
    }
  }

  /** The guard never drops a pair as long as no provider reports a negative load. */
  lemma GuardNeverFires(orders: seq<InferenceOrder>, offers: seq<ProviderOffer>)
    requires DistinctIds(offers) && forall j :: 0 <= j < |offers| ==> offers[j].usedSlots >= 0
    ensures var pairs, ms := Settled(orders, offers), BatchMatches(orders, offers);
            && |ms| == |pairs|
            && forall k :: 0 <= k < |pairs| ==> ms[k] == ResultOf(orders, Expand(offers), pairs[k])
  {
    hide Expand, Settled, OnProvider, ComputeScore;
    var slots, pairs := Expand(offers), Settled(orders, offers);
    ExpandMembers(offers);
    forall n | 0 <= n < |pairs| ensures WithinTotal(slots, pairs, n) {
      var slot := slots[pairs[n].1];
      assert slot in slots;
      var j :| 0 <= j < |offers| && offers[j] == slot;
      PairsWithinFreeSlots(orders, offers, j, n + 1);
    }
    NothingSkipped(orders, slots, pairs);
  }

  // A provider's reported load is not validated. When it is negative the provider has more free
  // slots than slots, and a large enough batch then trips the guard.

  ghost predicate DistinctOrders(orders: seq<InferenceOrder>) {
    forall i, k :: 0 <= i < k < |orders| ==> orders[i].orderId != orders[k].orderId
  }

  function AnyOrder(id: string): InferenceOrder {
    InferenceOrder(id, "default", Unlimited, Open, Balanced, 0.0, 120.0, "")
  }

  function AnyOrders(n: nat): (orders: seq<InferenceOrder>)
    ensures |orders| == n && forall i :: 0 <= i < n ==> orders[i] == AnyOrder(Decimal(i))
  {
    seq(n, i requires 0 <= i < n => AnyOrder(Decimal(i)))
  }

  lemma AnyOrdersAreDistinct(n: nat)
    ensures DistinctOrders(AnyOrders(n))
  {
    hide Decimal;
    forall i, k | 0 <= i < k < n ensures Decimal(i) != Decimal(k) {
      if Decimal(i) == Decimal(k) {
        DecimalInjective(i, k);
      }
    }
  }

  function Diagonal(n: nat): (picks: Picks)
    ensures |picks| == n && forall i :: 0 <= i < n ==> picks[i] == Some(i)
  {
    seq(n, i => Some(i))
  }

  lemma {:induction false} DiagonalCounts(n: nat, k: nat, j: nat)
    requires k <= n
    ensures Count(Diagonal(n)[..k], j) == (if j < k then 1 else 0) && Size(Diagonal(n)[..k]) == k
  {
    if k > 0 {
      DiagonalCounts(n, k - 1, j);
      CountSnoc(Diagonal(n), k - 1, j);
      assert Diagonal(n)[..k] == Diagonal(n)[..k - 1] + [Some(k - 1)];
      SizeSplit(Diagonal(n)[..k - 1], [Some(k - 1)]);
    }
  }

  lemma {:induction false} ExpandedAreFree(offers: seq<ProviderOffer>)
    ensures forall s :: s in Expand(offers) ==> s.AvailableSlots() > 0
  {
    if offers != [] {
      ExpandedAreFree(offers[..|offers| - 1]);
    }
  }

  /** As many undemanding orders as there are slots take every slot. */
  lemma AllSlotsTaken(offers: seq<ProviderOffer>)
    ensures |Settled(AnyOrders(|Expand(offers)|), offers)| >= |Expand(offers)|
  {
    hide Expand, Priority, Size, Count;
    var slots := Expand(offers);
    var width := |slots|;
    var scores := ScoreMatrix(AnyOrders(width), slots);
    ExpandedAreFree(offers);
    assert forall i, j :: 0 <= i < width && 0 <= j < width ==> scores[i][j] > 0.0;
    var other := Diagonal(width);
    assert other[..width] == other;
    forall j | 0 <= j < width ensures Count(other, j) <= 1 {
      DiagonalCounts(width, width, j);
    }
    DiagonalCounts(width, width, 0);
    MaximumWhenLaminar(scores, width, other);
  }

  /** Pairs that avoid a provider and use distinct slots fit the other slots. */
  lemma {:induction false} OffProviderWithinPool(
    pairs: seq<Pair>, slots: seq<ProviderOffer>, providerId: string, pool: set<nat>)
    requires forall k :: 0 <= k < |pairs| ==> pairs[k].1 < |slots|
    requires forall a, b :: 0 <= a < b < |pairs| ==> pairs[a].1 != pairs[b].1
    requires forall k :: 0 <= k < |pairs| && slots[pairs[k].1].providerId != providerId ==> pairs[k].1 in pool
    ensures |pairs| <= |pool| + OnProvider(pairs, slots, providerId)
  {
    if pairs != [] {
      var n := |pairs| - 1;
      if slots[pairs[n].1].providerId != providerId {
        OffProviderWithinPool(pairs[..n], slots, providerId, pool - {pairs[n].1});
      } else {
        OffProviderWithinPool(pairs[..n], slots, providerId, pool);
      }
    }
  }

  lemma {:induction false} AdmittedNoMore(orders: seq<InferenceOrder>, slots: seq<ProviderOffer>, pairs: seq<Pair>)
    requires InRange(pairs, orders, slots)
    ensures |Admitted(orders, slots, pairs)| <= |pairs|
  {
    hide ComputeScore, OnProvider;
    if pairs != [] {
      AdmittedNoMore(orders, slots, pairs[..|pairs| - 1]);
    }
  }

  /** If no pair was dropped, every provider stayed within its total. */
  lemma {:induction false} NoDropMeansWithin(
    orders: seq<InferenceOrder>, slots: seq<ProviderOffer>, pairs: seq<Pair>, offer: ProviderOffer)
    requires InRange(pairs, orders, slots)
    requires forall s :: s in slots && s.providerId == offer.providerId ==> s == offer
    requires |Admitted(orders, slots, pairs)| == |pairs|
    ensures OnProvider(pairs, slots, offer.providerId) <= offer.totalSlots
  {
    hide ComputeScore;
    if pairs != [] {
      var n := |pairs| - 1;
      AdmittedNoMore(orders, slots, pairs[..n]);
      NoDropMeansWithin(orders, slots, pairs[..n], offer);
      assert slots[pairs[n].1] in slots;
    }
  }

  lemma NegativeLoadTripsGuard(offers: seq<ProviderOffer>, j: nat)
    requires DistinctIds(offers) && j < |offers| && offers[j].usedSlots < 0
    ensures var orders := AnyOrders(|Expand(offers)|);
            |BatchMatches(orders, offers)| < |Settled(orders, offers)|
  {
    hide Expand, ComputeScore, Assignment, ScoreMatrix;
    var slots := Expand(offers);
    var orders, id := AnyOrders(|slots|), offers[j].providerId;
    var pairs := Settled(orders, offers);
    AllSlotsTaken(offers);
    AssignmentIsMatching(ScoreMatrix(orders, slots), |slots|);
    var all, mine := Range(0, |slots|), SlotsOn(slots, id);
    OffProviderWithinPool(pairs, slots, id, all - mine);
    SlotsOnProvider(offers, j);
    assert mine <= all && |all - mine| == |all| - |mine|;
    assert OnProvider(pairs, slots, id) > offers[j].totalSlots;
    ExpandMembers(offers);
    AdmittedNoMore(orders, slots, pairs);
    if |BatchMatches(orders, offers)| == |pairs| {
      NoDropMeansWithin(orders, slots, pairs, offers[j]);
    }
  }

  /** Exactly when the guard is redundant: for a fleet, over all batches of distinct orders, iff no load is negative. */
  lemma GuardRedundantIff(offers: seq<ProviderOffer>)
    requires DistinctIds(offers)
    ensures (forall orders :: DistinctOrders(orders) ==> |BatchMatches(orders, offers)| == |Settled(orders, offers)|)
            <==> (forall j :: 0 <= j < |offers| ==> offers[j].usedSlots >= 0)
  {
    hide Expand, Settled, BatchMatches;
    if forall j :: 0 <= j < |offers| ==> offers[j].usedSlots >= 0 {
      forall orders | DistinctOrders(orders) ensures |BatchMatches(orders, offers)| == |Settled(orders, offers)| {
        GuardNeverFires(orders, offers);
      }
    } else {
      var j :| 0 <= j < |offers| && offers[j].usedSlots < 0;
      NegativeLoadTripsGuard(offers, j);
      AnyOrdersAreDistinct(|Expand(offers)|);
    }
  }

  // --- Exactly one outcome per order -----------------------------------------

  ghost predicate IdOfPair(orders: seq<InferenceOrder>, pairs: seq<Pair>, id: string)
    requires forall k :: 0 <= k < |pairs| ==> pairs[k].0 < |orders|
  {
    exists k :: 0 <= k < |pairs| && orders[pairs[k].0].orderId == id
  }

  lemma IdOfLaterPair(orders: seq<InferenceOrder>, pairs: seq<Pair>, n: nat, id: string)
    requires n < |pairs| && DistinctOrders(orders)
    requires forall k :: 0 <= k < |pairs| ==> pairs[k].0 < |orders|
    requires forall a, b :: 0 <= a < b < |pairs| ==> pairs[a].0 != pairs[b].0
    requires IdOfPair(orders, pairs[..n], id)
    ensures IdOfPair(orders, pairs, id) && id != orders[pairs[n].0].orderId
  {
    var k :| 0 <= k < n && orders[pairs[..n][k].0].orderId == id;
    assert orders[pairs[k].0].orderId == id;
    assert pairs[k].0 != pairs[n].0;
  }

  ghost predicate DistinctMatches(ms: seq<MatchResult>) {
    forall a, b :: 0 <= a < b < |ms| ==> MatchedId(ms[a]) != MatchedId(ms[b])
  }

  ghost predicate FromPairs(orders: seq<InferenceOrder>, pairs: seq<Pair>, ms: seq<MatchResult>)
    requires forall k :: 0 <= k < |pairs| ==> pairs[k].0 < |orders|
  {
    forall m :: m in ms ==> IdOfPair(orders, pairs, MatchedId(m))
  }

  /** Admitted matches come from distinct orders. */
  lemma {:induction false} AdmittedIds(orders: seq<InferenceOrder>, slots: seq<ProviderOffer>, pairs: seq<Pair>)
    requires InRange(pairs, orders, slots) && DistinctOrders(orders)
    requires forall a, b :: 0 <= a < b < |pairs| ==> pairs[a].0 != pairs[b].0
    ensures DistinctMatches(Admitted(orders, slots, pairs))
    ensures FromPairs(orders, pairs, Admitted(orders, slots, pairs))
  {
    hide ComputeScore, OnProvider, IdOfPair;
    if pairs != [] {
      var n := |pairs| - 1;
      AdmittedIds(orders, slots, pairs[..n]);
      var before := Admitted(orders, slots, pairs[..n]);
      forall m | m in before
        ensures MatchedId(m) != orders[pairs[n].0].orderId
        ensures IdOfPair(orders, pairs, MatchedId(m))
      {
        IdOfLaterPair(orders, pairs, n, MatchedId(m));
      }
      IdOfLast(orders, pairs);
    }
  }

  lemma IdOfLast(orders: seq<InferenceOrder>, pairs: seq<Pair>)
    requires pairs != [] && forall k :: 0 <= k < |pairs| ==> pairs[k].0 < |orders|
    ensures IdOfPair(orders, pairs, orders[pairs[|pairs| - 1].0].orderId)
  {
  }

  lemma {:induction false} BagOfDistinct<T>(s: seq<T>, tag: T -> string, x: string)
    requires forall i, k :: 0 <= i < k < |s| ==> tag(s[i]) != tag(s[k])
    ensures Bag(s, tag)[x] == if exists i :: 0 <= i < |s| && tag(s[i]) == x then 1 else 0
  {
    if s != [] {
      BagOfDistinct(s[1..], tag, x);
      if tag(s[0]) != x && exists i :: 0 <= i < |s| && tag(s[i]) == x {
        var i :| 0 <= i < |s| && tag(s[i]) == x;
        assert tag(s[1..][i - 1]) == x;
      }
    }
  }

  lemma {:induction false} LeftoverBag(orders: seq<InferenceOrder>, matched: set<string>, clock: seq<real>, x: string)
    requires |clock| == |orders|
    ensures Bag(Leftover(orders, matched, clock), FailedId)[x]
            == if x in matched then 0 else Bag(orders, SubmittedId)[x]
  {
    if orders != [] {
      hide Bag, Leftover;
      var n := |orders| - 1;
      LeftoverBag(orders[..n], matched, clock[..n], x);
      LeftoverStep(orders, matched, clock);
      assert orders == orders[..n] + [orders[n]];
      BagSnoc(orders[..n], orders[n], SubmittedId);
    }
  }

  lemma LeftoverStep(orders: seq<InferenceOrder>, matched: set<string>, clock: seq<real>)
    requires |clock| == |orders| != 0
    ensures var n := |orders| - 1;
            Bag(Leftover(orders, matched, clock), FailedId)
            == Bag(Leftover(orders[..n], matched, clock[..n]), FailedId)
               + (if orders[n].orderId in matched then multiset{} else multiset{orders[n].orderId})
  {
    hide Bag;
    var n := |orders| - 1;
    var before := Leftover(orders[..n], matched, clock[..n]);
    if orders[n].orderId in matched {
      assert Leftover(orders, matched, clock) == before;
    } else {
      var failure := MatchFailure(orders[n].orderId, if orders[n].IsExpired(clock[n]) then Timeout else NoCapacity, 0, 0);
      assert Leftover(orders, matched, clock) == before + [failure];
      BagSnoc(before, failure, FailedId);
    }
  }

  lemma {:induction false} FailAllBag(orders: seq<InferenceOrder>, reason: FailureReason)
    ensures Bag(FailAll(orders, reason), FailedId) == Bag(orders, SubmittedId)
  {
    if orders != [] {
      FailAllBag(orders[1..], reason);
      assert FailAll(orders, reason)[1..] == FailAll(orders[1..], reason);
    }
  }

  /** Each order ends up as one match or one failure, also when the guard dropped its pair. */
  lemma EveryOrderReportedOnce(orders: seq<InferenceOrder>, offers: seq<ProviderOffer>, clock: seq<real>)
    requires |clock| == |orders| && DistinctOrders(orders)
    ensures Bag(BatchMatches(orders, offers), MatchedId) + Bag(BatchFailures(orders, offers, clock), FailedId)
            == Bag(orders, SubmittedId)
  {
    hide Expand, Settled, ComputeScore, Bag, Admitted, Leftover;
    var slots, ms := Expand(offers), BatchMatches(orders, offers);
    if offers == [] || slots == [] {
      NothingToSettle(orders, offers);
      BagNil();
      FailAllBag(orders, NoProvider);
      FailAllBag(orders, NoCapacity);
    } else {
      SettledDistinct(orders, offers);
      AdmittedIds(orders, slots, Settled(orders, offers));
      forall x: string
        ensures Bag(ms, MatchedId)[x] + Bag(BatchFailures(orders, offers, clock), FailedId)[x]
                == Bag(orders, SubmittedId)[x]
      {
        assert forall a, b :: 0 <= a < b < |ms| ==> MatchedId(ms[a]) != MatchedId(ms[b]);
        BagOfDistinct(ms, MatchedId, x);
        BagOfDistinct(orders, SubmittedId, x);
        LeftoverBag(orders, Ids(ms), clock, x);
        MatchedIsSubmitted(orders, offers, x);
      }
    }
  }

  lemma NothingToSettle(orders: seq<InferenceOrder>, offers: seq<ProviderOffer>)
    requires offers == [] || Expand(offers) == []
    ensures BatchMatches(orders, offers) == []
  {
    NothingSettled(orders, offers);
  }

  lemma BagNil()
    ensures Bag<MatchResult, string>([], MatchedId) == multiset{}
  {
  }

  lemma SettledDistinct(orders: seq<InferenceOrder>, offers: seq<ProviderOffer>)
    ensures var pairs := Settled(orders, offers);
            forall a, b :: 0 <= a < b < |pairs| ==> pairs[a].0 != pairs[b].0
  {
    AssignmentIsMatching(ScoreMatrix(orders, Expand(offers)), |Expand(offers)|);
  }

  lemma MatchedIsSubmitted(orders: seq<InferenceOrder>, offers: seq<ProviderOffer>, x: string)
    requires DistinctOrders(orders)
    ensures var ms := BatchMatches(orders, offers);
            && (x in Ids(ms) <==> exists a :: 0 <= a < |ms| && MatchedId(ms[a]) == x)
            && (x in Ids(ms) ==> exists i :: 0 <= i < |orders| && SubmittedId(orders[i]) == x)
  {
    hide Settled, Expand, Admitted, ComputeScore;
    var ms, pairs := BatchMatches(orders, offers), Settled(orders, offers);
    SettledDistinct(orders, offers);
    AdmittedIds(orders, Expand(offers), pairs);
    if x in Ids(ms) {
      var m :| m in ms && m.orderId == x;
      var a :| 0 <= a < |ms| && ms[a] == m;
      assert IdOfPair(orders, pairs, MatchedId(m));
      var k :| 0 <= k < |pairs| && orders[pairs[k].0].orderId == x;
      assert SubmittedId(orders[pairs[k].0]) == x;
    }
  }

  // --- What a report says ----------------------------------------------------

  lemma {:induction false} AdmittedIsExact(orders: seq<InferenceOrder>, slots: seq<ProviderOffer>, pairs: seq<Pair>, m: MatchResult)
    requires InRange(pairs, orders, slots) && m in Admitted(orders, slots, pairs)
    ensures exists k :: 0 <= k < |pairs| && m == ResultOf(orders, slots, pairs[k])
  {
    hide ResultOf, OnProvider;
    var n := |pairs| - 1;
    if m in Admitted(orders, slots, pairs[..n]) {
      AdmittedIsExact(orders, slots, pairs[..n], m);
      var k :| 0 <= k < n && m == ResultOf(orders, slots, pairs[..n][k]);
      assert pairs[k] == pairs[..n][k];
    } else {
      assert m == ResultOf(orders, slots, pairs[n]);
    }
  }

  /** Every match names a submitted order and an offer that it may use, with its score and price. */
  lemma MatchIsExact(orders: seq<InferenceOrder>, offers: seq<ProviderOffer>, m: MatchResult)
    requires m in BatchMatches(orders, offers)
    ensures exists order, offer :: order in orders && offer in offers && Eligible(order, offer)
              && m == MatchResult(order.orderId, offer.providerId, ComputeScore(order, offer), offer.price)
  {
    hide ComputeScore, Eligible, Assignment, Admitted, ScoreMatrix;
    var slots, pairs := Expand(offers), Settled(orders, offers);
    AdmittedIsExact(orders, slots, pairs, m);
    var k :| 0 <= k < |pairs| && m == ResultOf(orders, slots, pairs[k]);
    AssignmentIsMatching(ScoreMatrix(orders, slots), |slots|);
    var order, offer := orders[pairs[k].0], slots[pairs[k].1];
    assert order in orders && offer in slots;
    ExpandMembers(offers);
  }

  lemma {:induction false} LeftoverIsExact(orders: seq<InferenceOrder>, matched: set<string>, clock: seq<real>, f: MatchFailure)
    requires |clock| == |orders|
    ensures f in Leftover(orders, matched, clock)
            <==> exists i :: 0 <= i < |orders| && orders[i].orderId !in matched
                   && f == MatchFailure(orders[i].orderId,
                                        if clock[i] - orders[i].submittedAt > orders[i].timeoutSeconds then Timeout else NoCapacity, 0, 0)
  {
    if orders != [] {
      var n := |orders| - 1;
      LeftoverIsExact(orders[..n], matched, clock[..n], f);
      assert forall i :: 0 <= i < n ==> orders[..n][i] == orders[i] && clock[..n][i] == clock[i];
      var last := MatchFailure(orders[n].orderId, if orders[n].IsExpired(clock[n]) then Timeout else NoCapacity, 0, 0);
      assert Leftover(orders, matched, clock)
             == Leftover(orders[..n], matched, clock[..n]) + (if orders[n].orderId in matched then [] else [last]);
      hide Leftover;
    }
  }

  /**
   Every failure gives its reason: no provider if there are no offers, no capacity if no offer has a
   free slot, and otherwise a timeout exactly for an unmatched order that has expired.
   */
  lemma FailureIsExact(orders: seq<InferenceOrder>, offers: seq<ProviderOffer>, clock: seq<real>, f: MatchFailure)
    requires |clock| == |orders|
    ensures f in BatchFailures(orders, offers, clock)
            <==> exists i :: 0 <= i < |orders|
                   && (forall m :: m in BatchMatches(orders, offers) ==> m.orderId != orders[i].orderId)
                   && f == MatchFailure(orders[i].orderId,
                                        if offers == [] then NoProvider
                                        else if forall o :: o in offers ==> o.AvailableSlots() == 0 then NoCapacity
                                        else if clock[i] - orders[i].submittedAt > orders[i].timeoutSeconds then Timeout
                                        else NoCapacity, 0, 0)
  {
    hide BatchMatches, Leftover;
    var matched := Ids(BatchMatches(orders, offers));
    forall i | 0 <= i < |orders|
      ensures orders[i].orderId !in matched <==> forall m :: m in BatchMatches(orders, offers) ==> m.orderId != orders[i].orderId
    {
    }
    LeftoverIsExact(orders, matched, clock, f);
    ExpandIsEmpty(offers);
    if Expand(offers) == [] {
      NothingSettled(orders, offers);
      AllFail(orders, if offers == [] then NoProvider else NoCapacity, f);
    }
  }

  lemma AllFail(orders: seq<InferenceOrder>, reason: FailureReason, f: MatchFailure)
    ensures f in FailAll(orders, reason) <==> exists i :: 0 <= i < |orders| && f == MatchFailure(orders[i].orderId, reason, 0, 0)
  {
    var all := FailAll(orders, reason);
    assert forall i :: 0 <= i < |orders| ==> all[i] == MatchFailure(orders[i].orderId, reason, 0, 0);
    if f in all {
      var i :| 0 <= i < |all| && all[i] == f;
    }
    if i :| 0 <= i < |orders| && f == MatchFailure(orders[i].orderId, reason, 0, 0) {
      assert all[i] == f;
    }
  }

  lemma {:induction false} ExpandIsEmpty(offers: seq<ProviderOffer>)
    ensures Expand(offers) == [] <==> forall o :: o in offers ==> o.AvailableSlots() == 0
  {
    if offers != [] {
      var n := |offers| - 1;
      ExpandIsEmpty(offers[..n]);
      assert offers == offers[..n] + [offers[n]];
    }
  }
}
