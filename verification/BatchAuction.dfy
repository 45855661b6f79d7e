/**
 Batch matching: every free slot is a column, every order a row of scores, and
 orders take turns with the most constrained one first.
 */
module BatchAuction {
  import opened Options
  import opened MatchingModels
  import opened SerialAllocation
  import opened Sorting

  type Pair = (nat, nat)

  // --- Specification ---------------------------------------------------------

  function Copies(offer: ProviderOffer, n: nat): (s: seq<ProviderOffer>)
    ensures |s| == n
  {
    seq(n, i => offer)
  }

  /** One slot per free request slot of every offer, in offer order. */
  function Expand(offers: seq<ProviderOffer>): seq<ProviderOffer> {
    if offers == [] then []
    else
      var n := |offers| - 1;
      Expand(offers[..n]) + Copies(offers[n], offers[n].AvailableSlots())
  }

  function ScoreMatrix(orders: seq<InferenceOrder>, slots: seq<ProviderOffer>): (scores: seq<Row>)
    ensures |scores| == |orders|
    ensures forall i :: 0 <= i < |scores| ==> |scores[i]| == |slots|
    ensures forall i, j :: 0 <= i < |scores| && 0 <= j < |slots| ==> scores[i][j] == ComputeScore(orders[i], slots[j])
  {
    seq(|orders|, i requires 0 <= i < |orders| =>
      seq(|slots|, j requires 0 <= j < |slots| => ComputeScore(orders[i], slots[j])))
  }

  ghost predicate Rectangular(scores: seq<Row>, width: nat) {
    forall i :: 0 <= i < |scores| ==> |scores[i]| == width
  }

  /** How many of the first `n` columns a row can use. */
  function Positives(row: Row, n: nat): nat
    requires n <= |row|
  {
    if n == 0 then 0 else Positives(row, n - 1) + (if row[n - 1] > 0.0 then 1 else 0)
  }

  function ConstraintKey(scores: seq<Row>): nat -> real {
    (i: nat) => if i < |scores| then Positives(scores[i], |scores[i]|) as real else 0.0
  }

  function Indices(n: nat): (s: seq<nat>)
    ensures |s| == n && forall i :: 0 <= i < n ==> s[i] == i
  {
    seq(n, i => i)
  }

  /** Row numbers, the most constrained row first and ties in row order. */
  function Priority(scores: seq<Row>): (order: seq<nat>)
    ensures |order| == |scores|
  {
    SortBy(Indices(|scores|), ConstraintKey(scores))
  }

  lemma PriorityInRange(scores: seq<Row>)
    ensures forall i :: 0 <= i < |scores| ==> Priority(scores)[i] < |scores|
  {
    SortByMembers(Indices(|scores|), ConstraintKey(scores));
    forall i | 0 <= i < |scores| ensures Priority(scores)[i] < |scores| {
      assert Priority(scores)[i] in Indices(|scores|);
    }
  }

  function PriorityRows(scores: seq<Row>, width: nat): (rows: seq<Row>)
    requires Rectangular(scores, width)
    ensures |rows| == |scores| && WellShaped(rows, Ones(width))
    ensures forall i :: 0 <= i < |rows| ==> Priority(scores)[i] < |scores| && rows[i] == scores[Priority(scores)[i]]
  {
    PriorityInRange(scores);
    seq(|scores|, i requires 0 <= i < |scores| => scores[Priority(scores)[i]])
  }

  function Ones(n: nat): (cap: seq<nat>)
    ensures |cap| == n && forall j :: 0 <= j < n ==> cap[j] == 1
  {
    seq(n, j => 1)
  }

  function SlotPicks(scores: seq<Row>, width: nat): (picks: Picks)
    requires Rectangular(scores, width)
    ensures |picks| == |scores|
  {
    Allocate(PriorityRows(scores, width), Ones(width))
  }

  function PairsOf(order: seq<nat>, picks: Picks): seq<Pair>
    requires |order| == |picks|
  {
    if picks == [] then []
    else
      var n := |picks| - 1;
      PairsOf(order[..n], picks[..n]) + (if picks[n].Some? then [(order[n], picks[n].value)] else [])
  }

  function Assignment(scores: seq<Row>, width: nat): seq<Pair>
    requires Rectangular(scores, width)
  {
    PairsOf(Priority(scores), SlotPicks(scores, width))
  }

  // --- The algorithm ---------------------------------------------------------

  method CountEligible(row: Row) returns (count: nat)
    ensures count == Positives(row, |row|)
  {
    count := 0;
    for j := 0 to |row|
      invariant count == Positives(row, j)
    {
      if row[j] > 0.0 {
        count := count + 1;
      }
    }
  }

  /** The order in which rows are served: sorted by (eligible slots, row number). */
  method EligibilityOrder(scores: seq<Row>) returns (order: seq<nat>)
    ensures order == Priority(scores)
  {
    var counts: seq<nat> := [];
    for i := 0 to |scores|
      invariant |counts| == i && forall m :: 0 <= m < i ==> counts[m] == Positives(scores[m], |scores[m]|)
    {
      var count := CountEligible(scores[i]);
      counts := counts + [count];
    }
    var key := (i: nat) => if i < |counts| then counts[i] as real else 0.0;
    SortByAgrees(Indices(|scores|), key, ConstraintKey(scores));
    order := SortBy(Indices(|scores|), key);
  }

  /** The best unused slot for one row. */
  method BestSlot(row: Row, used: set<nat>, ghost cap: seq<nat>) returns (bestSlot: int, bestScore: real)
    requires |cap| == |row| && forall j :: 0 <= j < |cap| ==> cap[j] == if j in used then 0 else 1
    ensures match Choose(row, cap, |cap|)
            case None => bestScore <= 0.0
            case Some(b) => bestSlot == b && bestScore == row[b]
  {
    bestSlot, bestScore := -1, -1.0;
    for j := 0 to |row|
      invariant match Choose(row, cap, j)
                case None => bestScore <= 0.0
                case Some(b) => bestSlot == b && bestScore == row[b]
      invariant bestSlot == -1 ==> bestScore == -1.0
    {
      if j in used {
        continue;
      }
      if row[j] > bestScore {
        bestScore, bestSlot := row[j], j;
      }
    }
  }

  lemma AssignmentStart(scores: seq<Row>, width: nat)
    requires Rectangular(scores, width)
    ensures SlotPicks(scores, width)[0..] == Allocate(PriorityRows(scores, width)[0..], Ones(width))
    ensures PairsOf(Priority(scores)[..0], SlotPicks(scores, width)[..0]) == []
  {
    assert PriorityRows(scores, width)[0..] == PriorityRows(scores, width);
  }

  lemma PairsStep(order: seq<nat>, picks: Picks, i: nat)
    requires i < |order| == |picks|
    ensures PairsOf(order[..i + 1], picks[..i + 1])
            == PairsOf(order[..i], picks[..i]) + (if picks[i].Some? then [(order[i], picks[i].value)] else [])
  {
    assert order[..i + 1][..i] == order[..i] && picks[..i + 1][..i] == picks[..i];
  }

  method SolveAssignment(scores: seq<Row>, width: nat) returns (assignment: seq<Pair>)
    requires Rectangular(scores, width)
    ensures assignment == Assignment(scores, width)
  {
    hide Choose, Allocate, SlotPicks, PriorityRows, Priority, PairsOf;
    var order := EligibilityOrder(scores);
    ghost var cap, picks := Ones(width), SlotPicks(scores, width);
    var used: set<nat> := {};
    assignment := [];
    AssignmentStart(scores, width);
    for i := 0 to |order|
      invariant |cap| == width && forall j :: 0 <= j < width ==> cap[j] == if j in used then 0 else 1
      invariant picks[i..] == Allocate(PriorityRows(scores, width)[i..], cap)
      invariant assignment == PairsOf(order[..i], picks[..i])
    {
      AllocateStep(PriorityRows(scores, width), picks, cap, i);
      PairsStep(order, picks, i);
      var bestSlot, bestScore := BestSlot(scores[order[i]], used, cap);
      if bestSlot >= 0 && bestScore > 0.0 {
        assignment := assignment + [(order[i], bestSlot)];
        used := used + {bestSlot};
      }
      cap := Take(cap, picks[i]);
    }
    assert order[..|order|] == order && picks[..|order|] == picks;
  }

  // --- From assignment to matches and failures -------------------------------

  ghost predicate InRange(pairs: seq<Pair>, orders: seq<InferenceOrder>, slots: seq<ProviderOffer>) {
    forall k :: 0 <= k < |pairs| ==> pairs[k].0 < |orders| && pairs[k].1 < |slots|
  }

  function ResultOf(orders: seq<InferenceOrder>, slots: seq<ProviderOffer>, p: Pair): MatchResult
    requires p.0 < |orders| && p.1 < |slots|
  {
    MatchResult(orders[p.0].orderId, slots[p.1].providerId, ComputeScore(orders[p.0], slots[p.1]), slots[p.1].price)
  }

  /** How many pairs use a slot of a provider. */
  function OnProvider(pairs: seq<Pair>, slots: seq<ProviderOffer>, providerId: string): nat
    requires forall k :: 0 <= k < |pairs| ==> pairs[k].1 < |slots|
  {
    if pairs == [] then 0
    else
      var n := |pairs| - 1;
      OnProvider(pairs[..n], slots, providerId) + (if slots[pairs[n].1].providerId == providerId then 1 else 0)
  }

  /** The over-assignment guard: a pair stands unless its provider is already past its total slots. */
  function Admitted(orders: seq<InferenceOrder>, slots: seq<ProviderOffer>, pairs: seq<Pair>): (ms: seq<MatchResult>)
    requires InRange(pairs, orders, slots)
  {
    if pairs == [] then []
    else
      var n := |pairs| - 1;
      var slot := slots[pairs[n].1];
      Admitted(orders, slots, pairs[..n])
      + (if OnProvider(pairs, slots, slot.providerId) > slot.totalSlots then [] else [ResultOf(orders, slots, pairs[n])])
  }

  function Ids(ms: seq<MatchResult>): set<string> {
    set m | m in ms :: m.orderId
  }

  function FailAll(orders: seq<InferenceOrder>, reason: FailureReason): (fs: seq<MatchFailure>)
    ensures |fs| == |orders|
  {
    seq(|orders|, i requires 0 <= i < |orders| => MatchFailure(orders[i].orderId, reason, 0, 0))
  }

  function Leftover(orders: seq<InferenceOrder>, matched: set<string>, clock: seq<real>): seq<MatchFailure>
    requires |clock| == |orders|
  {
    if orders == [] then []
    else
      var n := |orders| - 1;
      Leftover(orders[..n], matched, clock[..n])
      + (if orders[n].orderId in matched then []
         else [MatchFailure(orders[n].orderId, if orders[n].IsExpired(clock[n]) then Timeout else NoCapacity, 0, 0)])
  }

  lemma AssignmentInRange(orders: seq<InferenceOrder>, slots: seq<ProviderOffer>)
    ensures InRange(Assignment(ScoreMatrix(orders, slots), |slots|), orders, slots)
  {
    var scores := ScoreMatrix(orders, slots);
    AllocateIsFeasible(PriorityRows(scores, |slots|), Ones(|slots|));
    PriorityInRange(scores);
    PairsInRange(Priority(scores), SlotPicks(scores, |slots|), |orders|, |slots|);
  }

  lemma {:induction false} PairsInRange(order: seq<nat>, picks: Picks, height: nat, width: nat)
    requires |order| == |picks|
    requires forall i :: 0 <= i < |order| ==> order[i] < height
    requires forall i :: 0 <= i < |picks| && picks[i].Some? ==> picks[i].value < width
    ensures forall k :: 0 <= k < |PairsOf(order, picks)| ==>
              PairsOf(order, picks)[k].0 < height && PairsOf(order, picks)[k].1 < width
  {
    if picks != [] {
      PairsInRange(order[..|picks| - 1], picks[..|picks| - 1], height, width);
    }
  }

  /** The pairs a whole call settles on. */
  function Settled(orders: seq<InferenceOrder>, offers: seq<ProviderOffer>): (pairs: seq<Pair>)
    ensures InRange(pairs, orders, Expand(offers))
  {
    AssignmentInRange(orders, Expand(offers));
    Assignment(ScoreMatrix(orders, Expand(offers)), |Expand(offers)|)
  }

  function BatchMatches(orders: seq<InferenceOrder>, offers: seq<ProviderOffer>): seq<MatchResult> {
    Admitted(orders, Expand(offers), Settled(orders, offers))
  }

  /** `clock[i]` is the time read when order `i` turns out unmatched. */
  function BatchFailures(orders: seq<InferenceOrder>, offers: seq<ProviderOffer>, clock: seq<real>): seq<MatchFailure>
    requires |clock| == |orders|
  {
    if offers == [] then FailAll(orders, NoProvider)
    else if Expand(offers) == [] then FailAll(orders, NoCapacity)
    else Leftover(orders, Ids(BatchMatches(orders, offers)), clock)
  }

  method ExpandOffers(offers: seq<ProviderOffer>) returns (slots: seq<ProviderOffer>)
    ensures slots == Expand(offers)
  {
    slots := [];
    for i := 0 to |offers|
      invariant slots == Expand(offers[..i])
    {
      assert offers[..i + 1][..i] == offers[..i];
      for n := 0 to offers[i].AvailableSlots()
        invariant slots == Expand(offers[..i]) + Copies(offers[i], n)
      {
        slots := slots + [offers[i]];
      }
    }
    assert offers[..|offers|] == offers;
  }

  method BuildScores(orders: seq<InferenceOrder>, slots: seq<ProviderOffer>) returns (scores: seq<Row>)
    ensures scores == ScoreMatrix(orders, slots)
  {
    hide ComputeScore;
    scores := [];
    for i := 0 to |orders|
      invariant |scores| == i
      invariant forall m :: 0 <= m < i ==> scores[m] == ScoreMatrix(orders, slots)[m]
    {
      var row: Row := [];
      for j := 0 to |slots|
        invariant |row| == j
        invariant forall m :: 0 <= m < j ==> row[m] == ComputeScore(orders[i], slots[m])
      {
        row := row + [ComputeScore(orders[i], slots[j])];
      }
      scores := scores + [row];
    }
  }

  /** The guarded conversion of pairs into matches, counting slots consumed per provider. */
  method Settle(orders: seq<InferenceOrder>, slots: seq<ProviderOffer>, scores: seq<Row>, pairs: seq<Pair>)
    returns (matches: seq<MatchResult>)
    requires InRange(pairs, orders, slots) && scores == ScoreMatrix(orders, slots)
    ensures matches == Admitted(orders, slots, pairs)
  {
    hide ComputeScore;
    var consumed: map<string, nat> := map[];
    matches := [];
    for k := 0 to |pairs|
      invariant matches == Admitted(orders, slots, pairs[..k])
      invariant forall id :: OnProvider(pairs[..k], slots, id) == if id in consumed then consumed[id] else 0
    {
      assert pairs[..k + 1][..k] == pairs[..k];
      var slot := slots[pairs[k].1];
      var id := slot.providerId;
      consumed := consumed[id := (if id in consumed then consumed[id] else 0) + 1];
      if consumed[id] > slot.totalSlots {
        continue;
      }
      matches := matches + [MatchResult(orders[pairs[k].0].orderId, id, scores[pairs[k].0][pairs[k].1], slot.price)];
    }
    assert pairs[..|pairs|] == pairs;
  }

  method ReportLeftover(orders: seq<InferenceOrder>, matches: seq<MatchResult>, clock: seq<real>)
    returns (failures: seq<MatchFailure>)
    requires |clock| == |orders|
    ensures failures == Leftover(orders, Ids(matches), clock)
  {
    var matched := Ids(matches);
    failures := [];
    for i := 0 to |orders|
      invariant failures == Leftover(orders[..i], matched, clock[..i])
    {
      assert orders[..i + 1][..i] == orders[..i] && clock[..i + 1][..i] == clock[..i];
      if orders[i].orderId !in matched {
        if orders[i].IsExpired(clock[i]) {
          failures := failures + [MatchFailure(orders[i].orderId, Timeout, 0, 0)];
        } else {
          failures := failures + [MatchFailure(orders[i].orderId, NoCapacity, 0, 0)];
        }
      }
    }
    assert orders[..|orders|] == orders && clock[..|orders|] == clock;
  }

  lemma PairsNeedBothSides(pairs: seq<Pair>, orders: seq<InferenceOrder>, slots: seq<ProviderOffer>)
    requires InRange(pairs, orders, slots)
    ensures pairs == [] || (orders != [] && slots != [])
  {
    if pairs != [] {
      assert pairs[0].0 < |orders| && pairs[0].1 < |slots|;
    }
  }

  lemma NothingSettled(orders: seq<InferenceOrder>, offers: seq<ProviderOffer>)
    requires orders == [] || Expand(offers) == []
    ensures BatchMatches(orders, offers) == []
  {
    PairsNeedBothSides(Settled(orders, offers), orders, Expand(offers));
  }

  method Match(orders: seq<InferenceOrder>, offers: seq<ProviderOffer>, clock: seq<real>)
    returns (matches: seq<MatchResult>, failures: seq<MatchFailure>)
    requires |clock| == |orders|
    ensures matches == BatchMatches(orders, offers)
    ensures failures == BatchFailures(orders, offers, clock)
  {
    hide ComputeScore, Assignment, ScoreMatrix, Admitted;
    if orders == [] || offers == [] {
      NothingSettled(orders, offers);
      return [], FailAll(orders, NoProvider);
    }
    var slots := ExpandOffers(offers);
    if slots == [] {
      NothingSettled(orders, offers);
      return [], FailAll(orders, NoCapacity);
    }
    var scores := BuildScores(orders, slots);
    var pairs := SolveAssignment(scores, |slots|);
    AssignmentInRange(orders, slots);
    matches := Settle(orders, slots, scores, pairs);
    failures := ReportLeftover(orders, matches, clock);
  }
}
