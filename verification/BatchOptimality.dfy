/**
 When batch matching is optimal. Its description promises an optimal assignment. What it delivers
 is decided by the wishes of the orders: it serves as many as possible, over all batches of given
 kinds of orders, exactly when those kinds' wishes are laminar.
 */
module BatchOptimality {
  import opened Options
  import opened MatchingModels
  import opened SerialAllocation
  import opened Sorting
  import opened BatchAuction

  // --- The assignment is a matching ------------------------------------------

  ghost predicate IsMatching(pairs: seq<Pair>, scores: seq<Row>, width: nat)
    requires Rectangular(scores, width)
  {
    && (forall k :: 0 <= k < |pairs| ==>
          pairs[k].0 < |scores| && pairs[k].1 < width && scores[pairs[k].0][pairs[k].1] > 0.0)
    && (forall a, b :: 0 <= a < b < |pairs| ==> pairs[a].0 != pairs[b].0 && pairs[a].1 != pairs[b].1)
  }

  ghost predicate Matched(pairs: seq<Pair>, i: nat) {
    exists k :: 0 <= k < |pairs| && pairs[k].0 == i
  }

  ghost predicate Used(pairs: seq<Pair>, j: nat) {
    exists k :: 0 <= k < |pairs| && pairs[k].1 == j
  }

  /** No pair can be added: an unmatched row can use no unused column. */
  ghost predicate IsMaximal(pairs: seq<Pair>, scores: seq<Row>, width: nat)
    requires Rectangular(scores, width)
  {
    forall i, j :: 0 <= i < |scores| && 0 <= j < width && scores[i][j] > 0.0 ==> Matched(pairs, i) || Used(pairs, j)
  }

  /** Every pair comes from some turn that picked its slot. */
  lemma {:induction false} PairOrigin(order: seq<nat>, picks: Picks, k: nat) returns (i: nat)
    requires |order| == |picks| && k < |PairsOf(order, picks)|
    ensures i < |picks| && PairsOf(order, picks)[k] == (order[i], if picks[i].Some? then picks[i].value else 0)
    ensures picks[i].Some?
  {
    var n := |picks| - 1;
    if k < |PairsOf(order[..n], picks[..n])| {
      i := PairOrigin(order[..n], picks[..n], k);
    } else {
      i := n;
    }
  }

  lemma {:induction false} PairsAreMatching(order: seq<nat>, picks: Picks)
    requires |order| == |picks|
    requires forall a, b :: 0 <= a < b < |order| ==> order[a] != order[b]
    requires forall j: nat :: Count(picks, j) <= 1
    ensures forall a, b :: 0 <= a < b < |PairsOf(order, picks)| ==>
              PairsOf(order, picks)[a].0 != PairsOf(order, picks)[b].0
              && PairsOf(order, picks)[a].1 != PairsOf(order, picks)[b].1
  {
    if picks != [] {
      var n := |picks| - 1;
      assert picks[..n + 1] == picks;
      forall j: nat ensures Count(picks[..n], j) <= 1 {
        CountSnoc(picks, n, j);
        assert Count(picks, j) <= 1;
      }
      PairsAreMatching(order[..n], picks[..n]);
      var before := PairsOf(order[..n], picks[..n]);
      if picks[n].Some? {
        CountSnoc(picks, n, picks[n].value);
        assert Count(picks, picks[n].value) <= 1;
        forall a | 0 <= a < |before|
          ensures before[a].0 != order[n] && before[a].1 != picks[n].value
        {
          var i := PairOrigin(order[..n], picks[..n], a);
          CountPositive(picks[..n], i, picks[..n][i].value);
        }
      }
    }
  }

  /** Sorting the row numbers keeps them distinct. */
  lemma {:induction false} DistinctInsert<T>(x: T, s: seq<T>, key: T -> real)
    requires x !in s && forall a, b :: 0 <= a < b < |s| ==> s[a] != s[b]
    ensures forall a, b :: 0 <= a < b <= |s| ==> Insert(x, s, key)[a] != Insert(x, s, key)[b]
  {
    if s != [] && key(x) > key(s[0]) {
      DistinctInsert(x, s[1..], key);
      InsertMembers(x, s[1..], key);
      var rest := Insert(x, s[1..], key);
      assert forall b :: 0 <= b < |rest| ==> rest[b] == x || rest[b] in s[1..];
      assert Insert(x, s, key) == [s[0]] + rest;
    }
  }

  lemma {:induction false} DistinctSort<T>(s: seq<T>, key: T -> real)
    requires forall a, b :: 0 <= a < b < |s| ==> s[a] != s[b]
    ensures forall a, b :: 0 <= a < b < |s| ==> SortBy(s, key)[a] != SortBy(s, key)[b]
  {
    if s != [] {
      DistinctSort(s[1..], key);
      SortByMembers(s[1..], key);
      DistinctInsert(s[0], SortBy(s[1..], key), key);
    }
  }

  lemma SlotPicksOnce(scores: seq<Row>, width: nat, j: nat)
    requires Rectangular(scores, width)
    ensures Count(SlotPicks(scores, width), j) <= 1
  {
    var picks := SlotPicks(scores, width);
    AllocateIsFeasible(PriorityRows(scores, width), Ones(width));
    if j >= width {
      CountIsZero(picks, j);
    }
  }

  /** Orders and slots are each used at most once, and every pair is an eligible one. */
  lemma AssignmentIsMatching(scores: seq<Row>, width: nat)
    requires Rectangular(scores, width)
    ensures IsMatching(Assignment(scores, width), scores, width)
  {
    hide Allocate;
    var order, picks := Priority(scores), SlotPicks(scores, width);
    var rows := PriorityRows(scores, width);
    AllocateIsFeasible(rows, Ones(width));
    forall j: nat ensures Count(picks, j) <= 1 {
      SlotPicksOnce(scores, width, j);
    }
    DistinctSort(Indices(|scores|), ConstraintKey(scores));
    PairsAreMatching(order, picks);
    forall k | 0 <= k < |Assignment(scores, width)|
      ensures var p := Assignment(scores, width)[k];
              p.0 < |scores| && p.1 < width && scores[p.0][p.1] > 0.0
    {
      var i := PairOrigin(order, picks, k);
      assert rows[i] == scores[order[i]];
    }
  }

  /** Every turn that picked a slot made a pair. */
  lemma {:induction false} PickMakesPair(order: seq<nat>, picks: Picks, i: nat)
    requires |order| == |picks| && i < |picks| && picks[i].Some?
    ensures Matched(PairsOf(order, picks), order[i]) && Used(PairsOf(order, picks), picks[i].value)
  {
    var n, pairs := |picks| - 1, PairsOf(order, picks);
    var before := PairsOf(order[..n], picks[..n]);
    assert forall k :: 0 <= k < |before| ==> pairs[k] == before[k];
    if i < n {
      PickMakesPair(order[..n], picks[..n], i);
    } else {
      assert pairs[|before|] == (order[n], picks[n].value);
    }
  }

  /** The assignment cannot be extended: no unmatched order scores an unused slot positively. */
  lemma AssignmentIsMaximal(scores: seq<Row>, width: nat)
    requires Rectangular(scores, width)
    ensures IsMaximal(Assignment(scores, width), scores, width)
  {
    hide Allocate, SortBy, PairsOf, Matched, Used;
    var order, picks, rows := Priority(scores), SlotPicks(scores, width), PriorityRows(scores, width);
    AllocateIsServed(rows, Ones(width));
    SortByMembers(Indices(|scores|), ConstraintKey(scores));
    forall i, j | 0 <= i < |scores| && 0 <= j < width && scores[i][j] > 0.0
      ensures Matched(Assignment(scores, width), i) || Used(Assignment(scores, width), j)
    {
      assert Indices(|scores|)[i] in Indices(|scores|);
      assert i in order;
      var t :| 0 <= t < |order| && order[t] == i;
      assert ServedAt(rows, Ones(width), picks, t);
      if picks[t].Some? {
        PickMakesPair(order, picks, t);
      } else {
        assert Count(picks[..t], j) > 0;
        var u := FindUse(picks[..t], j);
        PickMakesPair(order, picks, u);
      }
    }
  }

  // --- Size: half of any other assignment, and of the best when wishes nest ---

  lemma {:induction false} CountIsMultiplicity(picks: Picks, j: nat)
    ensures Count(picks, j) == multiset(picks)[Some(j)]
  {
    if picks != [] {
      CountIsMultiplicity(picks[1..], j);
      assert picks == [picks[0]] + picks[1..];
    }
  }

  lemma {:induction false} SizeIsMultiplicity(picks: Picks)
    ensures Size(picks) == |picks| - multiset(picks)[None]
  {
    if picks != [] {
      SizeIsMultiplicity(picks[1..]);
      assert picks == [picks[0]] + picks[1..];
    }
  }

  function SlotOf(other: Picks): nat -> Option<nat> {
    (i: nat) => if i < |other| then other[i] else None
  }

  /** The slots of `other`, in the order of the turns. */
  function Reordered(order: seq<nat>, other: Picks): Picks {
    seq(|order|, i requires 0 <= i < |order| => SlotOf(other)(order[i]))
  }

  lemma {:induction false} BagOfReordered(order: seq<nat>, other: Picks)
    ensures Bag(order, SlotOf(other)) == multiset(Reordered(order, other))
  {
    if order != [] {
      BagOfReordered(order[1..], other);
      assert Reordered(order, other) == [SlotOf(other)(order[0])] + Reordered(order[1..], other);
    }
  }

  /** Taking rows in priority order instead of submission order changes no count. */
  lemma ReorderedSameCounts(scores: seq<Row>, other: Picks)
    requires |other| == |scores|
    ensures Size(Reordered(Priority(scores), other)) == Size(other)
    ensures forall j: nat :: Count(Reordered(Priority(scores), other), j) == Count(other, j)
  {
    hide Size, Count, Bag, SortBy;
    var order, indices := Priority(scores), Indices(|scores|);
    SortByBag(indices, ConstraintKey(scores), SlotOf(other));
    BagOfReordered(order, other);
    BagOfReordered(indices, other);
    assert Reordered(indices, other) == other;
    SizeIsMultiplicity(other);
    SizeIsMultiplicity(Reordered(order, other));
    forall j: nat ensures Count(Reordered(order, other), j) == Count(other, j) {
      CountIsMultiplicity(other, j);
      CountIsMultiplicity(Reordered(order, other), j);
    }
  }

  lemma {:induction false} PairsCountPicks(order: seq<nat>, picks: Picks)
    requires |order| == |picks|
    ensures |PairsOf(order, picks)| == Size(picks)
  {
    if picks != [] {
      var n := |picks| - 1;
      PairsCountPicks(order[..n], picks[..n]);
      assert picks == picks[..n] + [picks[n]];
      SizeSplit(picks[..n], [picks[n]]);
    }
  }

  /** Any way to give each order at most one eligible slot, no slot twice; `other[i]` is order i's slot. */
  ghost predicate ValidAssignment(scores: seq<Row>, width: nat, other: Picks)
    requires Rectangular(scores, width)
  {
    Feasible(scores, Ones(width), other)
  }

  lemma ReorderedIsFeasible(scores: seq<Row>, width: nat, other: Picks)
    requires Rectangular(scores, width) && ValidAssignment(scores, width, other)
    ensures Feasible(PriorityRows(scores, width), Ones(width), Reordered(Priority(scores), other))
  {
    hide Count, SortBy;
    PriorityInRange(scores);
    ReorderedSameCounts(scores, other);
    var order, rows, picks := Priority(scores), PriorityRows(scores, width), Reordered(Priority(scores), other);
    forall i | 0 <= i < |picks| && picks[i].Some?
      ensures picks[i].value < width && rows[i][picks[i].value] > 0.0
    {
      assert picks[i] == SlotOf(other)(order[i]) == other[order[i]];
    }
  }

  /** No valid assignment serves more than twice as many orders. */
  lemma AtLeastHalfOfAnyAssignment(scores: seq<Row>, width: nat, other: Picks)
    requires Rectangular(scores, width) && ValidAssignment(scores, width, other)
    ensures Size(other) <= 2 * |Assignment(scores, width)|
  {
    ReorderedSameCounts(scores, other);
    ReorderedIsFeasible(scores, width, other);
    AtLeastHalf(PriorityRows(scores, width), Ones(width), Reordered(Priority(scores), other));
    PairsCountPicks(Priority(scores), SlotPicks(scores, width));
  }

  // --- Laminar wishes --------------------------------------------------------

  /** Of any two rows, one can use whatever the other can, or there is nothing both can use. */
  ghost predicate Laminar(scores: seq<Row>, width: nat)
    requires Rectangular(scores, width)
  {
    forall i, k :: 0 <= i < |scores| && 0 <= k < |scores| ==>
      Within(scores[i], scores[k]) || Within(scores[k], scores[i]) || Apart(scores[i], scores[k])
  }

  lemma {:induction false} WithinCounts(a: Row, b: Row, n: nat)
    requires n <= |a| == |b| && Within(a, b)
    ensures Positives(a, n) <= Positives(b, n)
    ensures (exists j :: 0 <= j < n && b[j] > 0.0 && a[j] <= 0.0) ==> Positives(a, n) < Positives(b, n)
  {
    if n > 0 {
      WithinCounts(a, b, n - 1);
    }
  }

  lemma PriorityNestsOrParts(scores: seq<Row>, width: nat)
    requires Rectangular(scores, width) && Laminar(scores, width)
    ensures NestedOrApart(PriorityRows(scores, width), Ones(width))
  {
    hide SortBy, Positives;
    var order, rows := Priority(scores), PriorityRows(scores, width);
    SortBySorted(Indices(|scores|), ConstraintKey(scores));
    forall i, k | 0 <= i < k < |rows|
      ensures Within(rows[i], rows[k]) || Apart(rows[i], rows[k])
    {
      assert ConstraintKey(scores)(order[i]) <= ConstraintKey(scores)(order[k]);
      assert Positives(rows[i], width) <= Positives(rows[k], width);
      if Within(rows[k], rows[i]) {
        WithinCounts(rows[k], rows[i], width);
      }
    }
  }

  /** With laminar wishes, serving the most constrained order first serves as many as possible. */
  lemma MaximumWhenLaminar(scores: seq<Row>, width: nat, other: Picks)
    requires Rectangular(scores, width) && ValidAssignment(scores, width, other) && Laminar(scores, width)
    ensures Size(other) <= |Assignment(scores, width)|
  {
    ReorderedSameCounts(scores, other);
    ReorderedIsFeasible(scores, width, other);
    PriorityNestsOrParts(scores, width);
    NestedOrApartIsMaximum(PriorityRows(scores, width), Ones(width), Reordered(Priority(scores), other));
    PairsCountPicks(Priority(scores), SlotPicks(scores, width));
  }

  // --- Total score -----------------------------------------------------------

  function ScoreOf(row: Row, pick: Option<nat>): real {
    if pick.Some? && pick.value < |row| then row[pick.value] else 0.0
  }

  /** The total score of giving each row its pick. */
  function Total(rows: seq<Row>, picks: Picks): real
    requires |rows| == |picks|
  {
    if rows == [] then 0.0
    else
      var n := |rows| - 1;
      Total(rows[..n], picks[..n]) + ScoreOf(rows[n], picks[n])
  }

  function ScoreAt(scores: seq<Row>, p: Pair): real {
    if p.0 < |scores| then ScoreOf(scores[p.0], Some(p.1)) else 0.0
  }

  function TotalScore(scores: seq<Row>, pairs: seq<Pair>): real {
    if pairs == [] then 0.0
    else
      var n := |pairs| - 1;
      TotalScore(scores, pairs[..n]) + ScoreAt(scores, pairs[n])
  }

  lemma {:induction false} PairsTotal(scores: seq<Row>, rows: seq<Row>, order: seq<nat>, picks: Picks)
    requires |rows| == |order| == |picks|
    requires forall i :: 0 <= i < |order| ==> order[i] < |scores| && rows[i] == scores[order[i]]
    ensures TotalScore(scores, PairsOf(order, picks)) == Total(rows, picks)
  {
    hide ScoreOf, TotalScore;
    if picks == [] {
      NoScore(scores);
    } else {
      var n := |picks| - 1;
      PairsTotal(scores, rows[..n], order[..n], picks[..n]);
      var before := PairsOf(order[..n], picks[..n]);
      if picks[n].Some? {
        TotalScoreSnoc(scores, before, (order[n], picks[n].value));
      } else {
        assert PairsOf(order, picks) == before;
        NoPick(rows[n]);
      }
    }
  }

  lemma NoScore(scores: seq<Row>)
    ensures TotalScore(scores, []) == 0.0
  {
  }

  lemma NoPick(row: Row)
    ensures ScoreOf(row, None) == 0.0
  {
  }

  lemma TotalScoreSnoc(scores: seq<Row>, pairs: seq<Pair>, p: Pair)
    ensures TotalScore(scores, pairs + [p]) == TotalScore(scores, pairs) + ScoreAt(scores, p)
  {
    assert (pairs + [p])[..|pairs|] == pairs;
  }

  /** All orders that can use a slot score it alike. */
  ghost predicate Valued(scores: seq<Row>, width: nat, prices: seq<real>)
    requires Rectangular(scores, width)
  {
    && |prices| == width && NotNegative(prices)
    && forall i, j :: 0 <= i < |scores| && 0 <= j < width && scores[i][j] > 0.0 ==> scores[i][j] == prices[j]
  }

  lemma {:induction false} ValuedTotal(rows: seq<Row>, width: nat, prices: seq<real>, picks: Picks)
    requires Rectangular(rows, width) && Valued(rows, width, prices) && |picks| == |rows|
    requires forall i :: 0 <= i < |picks| && picks[i].Some? ==>
               picks[i].value < width && rows[i][picks[i].value] > 0.0
    ensures Total(rows, picks) == Worth(picks, prices)
  {
    if rows != [] {
      var n := |rows| - 1;
      ValuedTotal(rows[..n], width, prices, picks[..n]);
      assert picks == picks[..n] + [picks[n]];
      WorthSplit(picks[..n], [picks[n]], prices);
      assert Worth([picks[n]], prices) == WorthOf(picks[n], prices) + Worth([], prices);
    }
  }

  /** With shared valuations, the score of the batch assignment is the worth of the slots it fills. */
  lemma AssignmentWorth(scores: seq<Row>, width: nat, prices: seq<real>)
    requires Rectangular(scores, width) && Valued(scores, width, prices)
    ensures TotalScore(scores, Assignment(scores, width)) == Worth(SlotPicks(scores, width), prices)
  {
    hide Allocate, SortBy;
    var rows, picks := PriorityRows(scores, width), SlotPicks(scores, width);
    AllocateIsFeasible(rows, Ones(width));
    PairsTotal(scores, rows, Priority(scores), picks);
    ValuedTotal(rows, width, prices, picks);
  }

  /** If moreover wishes are laminar, no assignment scores more in total. */
  lemma BestTotalWhenLaminar(scores: seq<Row>, width: nat, prices: seq<real>, other: Picks)
    requires Rectangular(scores, width) && ValidAssignment(scores, width, other)
    requires Laminar(scores, width) && Valued(scores, width, prices)
    ensures Total(scores, other) <= TotalScore(scores, Assignment(scores, width))
  {
    hide Allocate, SortBy, Count, Worth;
    var rows, mine := PriorityRows(scores, width), Reordered(Priority(scores), other);
    ReorderedSameCounts(scores, other);
    ReorderedIsFeasible(scores, width, other);
    PriorityNestsOrParts(scores, width);
    NestedOrApartIsBest(rows, Ones(width), prices, mine);
    WorthByColumns(other, mine, prices);
    ValuedTotal(scores, width, prices, other);
    AssignmentWorth(scores, width, prices);
  }

  // --- Exactly when ----------------------------------------------------------

  ghost predicate Alike(a: Row, b: Row)
    requires |a| == |b|
  {
    forall j :: 0 <= j < |a| ==> (a[j] > 0.0 <==> b[j] > 0.0)
  }

  /** A batch whose orders want what orders of the given kinds want, in any number, order and ranking. */
  ghost predicate DrawnFrom(scores: seq<Row>, kinds: seq<Row>, width: nat)
    requires Rectangular(kinds, width)
  {
    && Rectangular(scores, width)
    && forall i :: 0 <= i < |scores| ==> exists k :: 0 <= k < |kinds| && Alike(scores[i], kinds[k])
  }

  lemma AlikeRelate(a: Row, b: Row, c: Row, d: Row)
    requires |a| == |b| == |c| == |d| && Alike(a, c) && Alike(b, d)
    ensures Within(c, d) ==> Within(a, b)
    ensures Within(d, c) ==> Within(b, a)
    ensures Apart(c, d) ==> Apart(a, b)
  {
  }

  lemma DrawnIsLaminar(scores: seq<Row>, kinds: seq<Row>, width: nat)
    requires Rectangular(kinds, width) && Laminar(kinds, width) && DrawnFrom(scores, kinds, width)
    ensures Laminar(scores, width)
  {
    hide Within, Apart, Alike;
    forall i, k | 0 <= i < |scores| && 0 <= k < |scores|
      ensures Within(scores[i], scores[k]) || Within(scores[k], scores[i]) || Apart(scores[i], scores[k])
    {
      var a :| 0 <= a < |kinds| && Alike(scores[i], kinds[a]);
      var b :| 0 <= b < |kinds| && Alike(scores[k], kinds[b]);
      AlikeRelate(scores[i], scores[k], kinds[a], kinds[b]);
    }
  }

  ghost predicate ServesMost(scores: seq<Row>, width: nat)
    requires Rectangular(scores, width)
  {
    forall other :: ValidAssignment(scores, width, other) ==> Size(other) <= |Assignment(scores, width)|
  }

  ghost predicate ScoresMost(scores: seq<Row>, width: nat)
    requires Rectangular(scores, width)
  {
    forall other :: ValidAssignment(scores, width, other) ==>
      Total(scores, other) <= TotalScore(scores, Assignment(scores, width))
  }

  // Two wishes cross when they share a slot and each has one of its own. A crossing pair of kinds
  // is fatal: one order of the smaller kind that likes a shared slot best, followed by as many of
  // the other kind as that kind has slots.

  /** The same wishes, with column `p` liked best. */
  function Liking(row: Row, p: nat): (r: Row)
    ensures |r| == |row|
    ensures forall j :: 0 <= j < |r| ==> r[j] == if row[j] > 0.0 then (if j == p then 2.0 else 1.0) else -1.0
  {
    seq(|row|, j requires 0 <= j < |row| => if row[j] > 0.0 then (if j == p then 2.0 else 1.0) else -1.0)
  }

  function Favouring(width: nat, p: nat): (prices: seq<real>)
    ensures |prices| == width && forall j :: 0 <= j < width ==> prices[j] == if j == p then 2.0 else 1.0
  {
    seq(width, j => if j == p then 2.0 else 1.0)
  }

  function CrossingBatch(a: Row, b: Row, p: nat): (scores: seq<Row>)
    ensures |scores| == 1 + Positives(b, |b|)
    ensures scores[0] == Liking(a, p) && forall i :: 1 <= i < |scores| ==> scores[i] == Liking(b, p)
  {
    [Liking(a, p)] + seq(Positives(b, |b|), i => Liking(b, p))
  }

  /** Each of the first `n` columns that a row can use, once. */
  function Wanted(row: Row, n: nat): (picks: Picks)
    requires n <= |row|
    ensures |picks| == Positives(row, n)
    ensures forall i :: 0 <= i < |picks| ==> picks[i].Some? && picks[i].value < n && row[picks[i].value] > 0.0
  {
    if n == 0 then [] else Wanted(row, n - 1) + (if row[n - 1] > 0.0 then [Some(n - 1)] else [])
  }

  lemma {:induction false} WantedCounts(row: Row, n: nat, j: nat)
    requires n <= |row|
    ensures Count(Wanted(row, n), j) == if j < n && row[j] > 0.0 then 1 else 0
  {
    if n > 0 {
      WantedCounts(row, n - 1, j);
      CountSplit(Wanted(row, n - 1), if row[n - 1] > 0.0 then [Some(n - 1)] else [], j);
    }
  }

  lemma {:induction false} LikingCounts(row: Row, p: nat, n: nat)
    requires n <= |row|
    ensures Positives(Liking(row, p), n) == Positives(row, n)
  {
    if n > 0 {
      LikingCounts(row, p, n - 1);
    }
  }

  /** Row 0 takes the first turn and no other. */
  ghost predicate FirstAndOnce(order: seq<nat>) {
    order != [] && order[0] == 0 && forall i :: 1 <= i < |order| ==> order[i] != 0
  }

  /** A first row no less constrained than any other is served first. */
  lemma FirstIsFirst(scores: seq<Row>)
    requires scores != []
    requires forall i :: 0 <= i < |scores| ==> Positives(scores[0], |scores[0]|) <= Positives(scores[i], |scores[i]|)
    ensures FirstAndOnce(Priority(scores))
  {
    hide Positives;
    var s, key := Indices(|scores|), ConstraintKey(scores);
    var rest := SortBy(s[1..], key);
    SortByMembers(s[1..], key);
    if rest != [] {
      assert rest[0] in s[1..];
    }
    assert SortBy(s, key) == Insert(s[0], rest, key) == [s[0]] + rest;
    DistinctSort(s, key);
    var order := Priority(scores);
    assert order == SortBy(s, key);
    assert forall i :: 1 <= i < |order| ==> order[0] != order[i];
  }

  /** A crossing batch leaves an order unserved that could be served, and its score with it. */
  lemma CrossingIsWasteful(a: Row, b: Row, width: nat, p: nat, x: nat, prices: seq<real>) returns (other: Picks)
    requires |a| == |b| == |prices| == width && p < width && x < width
    requires a[p] > 0.0 && b[p] > 0.0 && a[x] > 0.0 && b[x] <= 0.0
    requires Positives(a, width) <= Positives(b, width)
    requires NotNegative(prices) && prices[x] > 0.0
    ensures Rectangular(CrossingBatch(a, b, p), width)
    ensures ValidAssignment(CrossingBatch(a, b, p), width, other)
    ensures Worth(other, prices) > Worth(SlotPicks(CrossingBatch(a, b, p), width), prices)
  {
    hide Positives, Allocate, Priority, Worth;
    var scores, best := CrossingBatch(a, b, p), Wanted(b, width);
    other := [Some(x)] + best;
    assert other[1..] == best;
    LikingCounts(a, p, width);
    LikingCounts(b, p, width);
    FirstIsFirst(scores);
    CrossingPicks(a, b, width, p);
    forall j: nat
      ensures Count(SlotPicks(scores, width), j) <= Count(best, j)
      ensures Count(other, j) <= 1
    {
      WantedCounts(b, width, j);
      SlotPicksOnce(scores, width, j);
      if j >= width || b[j] <= 0.0 {
        CountIsZero(SlotPicks(scores, width), j);
      }
    }
    WorthByColumns(SlotPicks(scores, width), best, prices);
    WorthSplit([Some(x)], best, prices);
    OneWorth(Some(x), prices);
  }

  lemma OneWorth(pick: Option<nat>, prices: seq<real>)
    ensures Worth([pick], prices) == WorthOf(pick, prices)
  {
    assert Worth([pick], prices) == WorthOf(pick, prices) + Worth([], prices);
  }

  /** The first order takes the shared slot, so that all slots taken are of the second kind. */
  lemma CrossingPicks(a: Row, b: Row, width: nat, p: nat)
    requires |a| == |b| == width && p < width && a[p] > 0.0 && b[p] > 0.0
    requires FirstAndOnce(Priority(CrossingBatch(a, b, p)))
    ensures Rectangular(CrossingBatch(a, b, p), width)
    ensures forall i :: 0 <= i < |SlotPicks(CrossingBatch(a, b, p), width)| ==>
              var pick := SlotPicks(CrossingBatch(a, b, p), width)[i];
              pick.Some? ==> pick.value < width && b[pick.value] > 0.0
  {
    hide Positives, Allocate, Priority, Choose;
    var scores := CrossingBatch(a, b, p);
    var rows, picks := PriorityRows(scores, width), SlotPicks(scores, width);
    AllocateIsFeasible(rows, Ones(width));
    assert rows[0..] == rows && picks[0..] == picks;
    AllocateStep(rows, picks, Ones(width), 0);
    assert IsBest(rows[0], Ones(width), width, picks[0]);
    forall i | 0 <= i < |picks| && picks[i].Some? ensures b[picks[i].value] > 0.0 {
      if i > 0 {
        assert rows[i] == Liking(b, p);
      } else {
        assert rows[0] == Liking(a, p);
        assert rows[0][p] <= rows[0][picks[0].value];
      }
    }
  }

  /** Two kinds with crossing wishes, the smaller one first. */
  lemma FindCrossing(kinds: seq<Row>, width: nat) returns (i: nat, k: nat, p: nat, x: nat)
    requires Rectangular(kinds, width) && !Laminar(kinds, width)
    ensures i < |kinds| && k < |kinds| && p < width && x < width
    ensures kinds[i][p] > 0.0 && kinds[k][p] > 0.0 && kinds[i][x] > 0.0 && kinds[k][x] <= 0.0
    ensures Positives(kinds[i], width) <= Positives(kinds[k], width)
  {
    hide Positives;
    i, k :| 0 <= i < |kinds| && 0 <= k < |kinds| && !Within(kinds[i], kinds[k])
            && !Within(kinds[k], kinds[i]) && !Apart(kinds[i], kinds[k]);
    if Positives(kinds[i], width) > Positives(kinds[k], width) {
      i, k := k, i;
    }
    p :| 0 <= p < width && kinds[i][p] > 0.0 && kinds[k][p] > 0.0;
    x :| 0 <= x < width && kinds[i][x] > 0.0 && kinds[k][x] <= 0.0;
  }

  lemma CrossingIsDrawn(kinds: seq<Row>, width: nat, i: nat, k: nat, p: nat)
    requires Rectangular(kinds, width) && i < |kinds| && k < |kinds|
    ensures DrawnFrom(CrossingBatch(kinds[i], kinds[k], p), kinds, width)
    ensures Valued(CrossingBatch(kinds[i], kinds[k], p), width, Favouring(width, p))
  {
    hide Positives;
    assert Alike(Liking(kinds[i], p), kinds[i]) && Alike(Liking(kinds[k], p), kinds[k]);
  }

  /**
   Whatever the orders' preferences, every batch of the given kinds is served as fully as
   possible, exactly when the kinds' wishes are laminar.
   */
  lemma ServesMostIffLaminar(kinds: seq<Row>, width: nat)
    requires Rectangular(kinds, width)
    ensures (forall scores :: DrawnFrom(scores, kinds, width) ==> ServesMost(scores, width)) <==> Laminar(kinds, width)
  {
    hide Laminar, Priority, Allocate, Assignment, ValidAssignment, Positives, Size;
    if Laminar(kinds, width) {
      forall scores | DrawnFrom(scores, kinds, width) ensures ServesMost(scores, width) {
        DrawnIsLaminar(scores, kinds, width);
        forall other | ValidAssignment(scores, width, other) ensures Size(other) <= |Assignment(scores, width)| {
          MaximumWhenLaminar(scores, width, other);
        }
      }
    } else {
      var i, k, p, x := FindCrossing(kinds, width);
      CrossingIsDrawn(kinds, width, i, k, p);
      var other := CrossingServesFewer(kinds[i], kinds[k], width, p, x);
    }
  }

  lemma CrossingServesFewer(a: Row, b: Row, width: nat, p: nat, x: nat) returns (other: Picks)
    requires |a| == |b| == width && p < width && x < width
    requires a[p] > 0.0 && b[p] > 0.0 && a[x] > 0.0 && b[x] <= 0.0
    requires Positives(a, width) <= Positives(b, width)
    ensures Rectangular(CrossingBatch(a, b, p), width)
    ensures ValidAssignment(CrossingBatch(a, b, p), width, other)
    ensures Size(other) > |Assignment(CrossingBatch(a, b, p), width)|
  {
    hide Allocate, Priority, Positives, Worth, Size, Count;
    var scores := CrossingBatch(a, b, p);
    other := CrossingIsWasteful(a, b, width, p, x, Units(width));
    AllocateIsFeasible(PriorityRows(scores, width), Ones(width));
    WorthInUnits(other, width);
    WorthInUnits(SlotPicks(scores, width), width);
    PairsCountPicks(Priority(scores), SlotPicks(scores, width));
  }

  /**
   Over all batches of the given kinds whose orders value slots alike, the total score is the
   greatest possible exactly when the kinds' wishes are laminar.
   */
  lemma ScoresMostIffLaminar(kinds: seq<Row>, width: nat)
    requires Rectangular(kinds, width)
    ensures (forall scores, prices :: DrawnFrom(scores, kinds, width) && Valued(scores, width, prices) ==> ScoresMost(scores, width))
            <==> Laminar(kinds, width)
  {
    hide Laminar, Valued, Priority, Allocate, Assignment, Count, Positives, Total, TotalScore;
    if Laminar(kinds, width) {
      forall scores, prices | DrawnFrom(scores, kinds, width) && Valued(scores, width, prices)
        ensures ScoresMost(scores, width)
      {
        DrawnIsLaminar(scores, kinds, width);
        forall other | ValidAssignment(scores, width, other)
          ensures Total(scores, other) <= TotalScore(scores, Assignment(scores, width))
        {
          BestTotalWhenLaminar(scores, width, prices, other);
        }
      }
    } else {
      var i, k, p, x := FindCrossing(kinds, width);
      CrossingIsDrawn(kinds, width, i, k, p);
      var other := CrossingScoresLess(kinds[i], kinds[k], width, p, x);
    }
  }

  lemma CrossingScoresLess(a: Row, b: Row, width: nat, p: nat, x: nat) returns (other: Picks)
    requires |a| == |b| == width && p < width && x < width
    requires a[p] > 0.0 && b[p] > 0.0 && a[x] > 0.0 && b[x] <= 0.0
    requires Positives(a, width) <= Positives(b, width)
    requires Rectangular(CrossingBatch(a, b, p), width) && Valued(CrossingBatch(a, b, p), width, Favouring(width, p))
    ensures ValidAssignment(CrossingBatch(a, b, p), width, other)
    ensures Total(CrossingBatch(a, b, p), other)
            > TotalScore(CrossingBatch(a, b, p), Assignment(CrossingBatch(a, b, p), width))
  {
    hide Allocate, Priority, Positives, Worth, Count, Valued;
    var scores, prices := CrossingBatch(a, b, p), Favouring(width, p);
    other := CrossingIsWasteful(a, b, width, p, x, prices);
    ValuedTotal(scores, width, prices, other);
    AssignmentWorth(scores, width, prices);
  }

  // With no shared valuation nothing is assured: the first of two like-minded orders takes a slot
  // that the second one craves.

  function Craving(row: Row, c: nat): (r: Row)
    ensures |r| == |row|
    ensures forall j :: 0 <= j < |r| ==> r[j] == if row[j] > 0.0 then (if j == c then 8.0 else 1.0) else -1.0
  {
    seq(|row|, j requires 0 <= j < |row| => if row[j] > 0.0 then (if j == c then 8.0 else 1.0) else -1.0)
  }

  lemma {:induction false} CravingCounts(row: Row, c: nat, n: nat)
    requires n <= |row|
    ensures Positives(Craving(row, c), n) == Positives(row, n)
  {
    if n > 0 {
      CravingCounts(row, c, n - 1);
    }
  }

  lemma CravingPicks(row: Row, c: nat, scores: seq<Row>)
    requires c < |row| && row[c] > 0.0 && scores == [Liking(row, c), Craving(row, c)]
    ensures Rectangular(scores, |row|) && Priority(scores) == [0, 1]
    ensures var picks := SlotPicks(scores, |row|); picks[0] == Some(c) && picks[1] != Some(c)
  {
    hide Positives, Allocate, SortBy, Choose;
    var width := |row|;
    LikingCounts(row, c, width);
    CravingCounts(row, c, width);
    FirstIsFirst(scores);
    PriorityInRange(scores);
    var rows, picks := PriorityRows(scores, width), SlotPicks(scores, width);
    AllocateIsFeasible(rows, Ones(width));
    assert rows[0..] == rows && picks[0..] == picks;
    AllocateStep(rows, picks, Ones(width), 0);
    assert IsBest(rows[0], Ones(width), width, picks[0]);
    assert rows[0][c] == 2.0;
    TwoCounts(picks, c);
  }

  lemma TwoCounts(picks: Picks, j: nat)
    requires |picks| == 2
    ensures Count(picks, j) == (if picks[0] == Some(j) then 1 else 0) + (if picks[1] == Some(j) then 1 else 0)
  {
    assert picks[1..][1..] == [];
    assert Count(picks[1..], j) == (if picks[1] == Some(j) then 1 else 0) + Count([], j);
  }

  lemma CravingScoresLess(row: Row, c: nat, scores: seq<Row>) returns (other: Picks)
    requires c < |row| && row[c] > 0.0 && scores == [Liking(row, c), Craving(row, c)]
    ensures Rectangular(scores, |row|) && ValidAssignment(scores, |row|, other)
    ensures Total(scores, other) > TotalScore(scores, Assignment(scores, |row|))
  {
    hide Priority, SlotPicks, Allocate, Count;
    var width := |row|;
    CravingPicks(row, c, scores);
    other := [None, Some(c)];
    forall j: nat ensures Count(other, j) <= 1 {
      TwoCounts(other, j);
    }
    var picks := SlotPicks(scores, width);
    PairsTotal(scores, PriorityRows(scores, width), Priority(scores), picks);
    assert PriorityRows(scores, width) == scores;
    AllocateIsFeasible(PriorityRows(scores, width), Ones(width));
    TwoRows(scores, picks);
    TwoRows(scores, other);
  }

  lemma TwoRows(scores: seq<Row>, picks: Picks)
    requires |scores| == |picks| == 2
    ensures Total(scores, picks) == ScoreOf(scores[0], picks[0]) + ScoreOf(scores[1], picks[1])
  {
    assert scores[..1][..0] == [] && picks[..1][..0] == [];
    assert Total(scores[..1], picks[..1]) == Total([], []) + ScoreOf(scores[0], picks[0]);
  }

  /** Whatever the scores, the total is always the greatest possible only for orders that can use nothing. */
  lemma ScoresMostIffNothingWanted(kinds: seq<Row>, width: nat)
    requires Rectangular(kinds, width)
    ensures (forall scores :: DrawnFrom(scores, kinds, width) ==> ScoresMost(scores, width))
            <==> (forall k, j :: 0 <= k < |kinds| && 0 <= j < width ==> kinds[k][j] <= 0.0)
  {
    hide Priority, Allocate, Assignment, Count, Positives, Total, TotalScore;
    if forall k, j :: 0 <= k < |kinds| && 0 <= j < width ==> kinds[k][j] <= 0.0 {
      forall scores | DrawnFrom(scores, kinds, width) ensures ScoresMost(scores, width) {
        NothingToScore(scores, kinds, width);
      }
    } else {
      var k, c :| 0 <= k < |kinds| && 0 <= c < width && kinds[k][c] > 0.0;
      var scores := [Liking(kinds[k], c), Craving(kinds[k], c)];
      assert Alike(scores[0], kinds[k]) && Alike(scores[1], kinds[k]);
      var other := CravingScoresLess(kinds[k], c, scores);
      assert DrawnFrom(scores, kinds, width);
      assert !ScoresMost(scores, width);
    }
  }

  lemma NothingToScore(scores: seq<Row>, kinds: seq<Row>, width: nat)
    requires Rectangular(kinds, width) && DrawnFrom(scores, kinds, width)
    requires forall k, j :: 0 <= k < |kinds| && 0 <= j < width ==> kinds[k][j] <= 0.0
    ensures ScoresMost(scores, width)
  {
    hide Priority, Allocate, Assignment, Count, Positives, Total, TotalScore, Laminar;
    var prices := Units(width);
    forall i, j | 0 <= i < |scores| && 0 <= j < width ensures scores[i][j] <= 0.0 {
      var k :| 0 <= k < |kinds| && Alike(scores[i], kinds[k]);
      assert kinds[k][j] <= 0.0;
    }
    NothingIsLaminar(scores, width);
    forall other | ValidAssignment(scores, width, other)
      ensures |other| == |scores| && Total(scores, other) <= TotalScore(scores, Assignment(scores, width))
    {
      BestTotalWhenLaminar(scores, width, prices, other);
    }
  }

  lemma NothingIsLaminar(scores: seq<Row>, width: nat)
    requires Rectangular(scores, width)
    requires forall i, j :: 0 <= i < |scores| && 0 <= j < width ==> scores[i][j] <= 0.0
    ensures Laminar(scores, width)
  {
  }

  // --- Batches of orders -----------------------------------------------------

  /** Whatever serves `b` serves `a`. */
  predicate AsksNoMore(a: InferenceOrder, b: InferenceOrder) {
    && (a.model == "default" || a.model == b.model)
    && a.minConfidence.Value() <= b.minConfidence.Value()
    && (a.maxPrice.Unlimited? || (b.maxPrice.AtMost? && b.maxPrice.limit <= a.maxPrice.limit))
  }

  predicate NothingForBoth(a: InferenceOrder, b: InferenceOrder, slots: seq<ProviderOffer>) {
    forall s :: s in slots ==> !Eligible(a, s) || !Eligible(b, s)
  }

  /** Of any two orders one asks no more than the other, or no slot serves both. */
  ghost predicate Compatible(orders: seq<InferenceOrder>, slots: seq<ProviderOffer>) {
    forall i, k :: 0 <= i < k < |orders| ==>
      AsksNoMore(orders[i], orders[k]) || AsksNoMore(orders[k], orders[i]) || NothingForBoth(orders[i], orders[k], slots)
  }

  lemma OrdersRelate(orders: seq<InferenceOrder>, slots: seq<ProviderOffer>, i: nat, k: nat)
    requires i < |orders| && k < |orders|
    ensures var scores := ScoreMatrix(orders, slots);
            && (AsksNoMore(orders[k], orders[i]) ==> Within(scores[i], scores[k]))
            && (NothingForBoth(orders[i], orders[k], slots) ==> Apart(scores[i], scores[k]) && Apart(scores[k], scores[i]))
  {
    hide ComputeScore;
    assert forall j :: 0 <= j < |slots| ==> slots[j] in slots;
  }

  lemma CompatibleIsLaminar(orders: seq<InferenceOrder>, slots: seq<ProviderOffer>)
    requires Compatible(orders, slots)
    ensures Laminar(ScoreMatrix(orders, slots), |slots|)
  {
    hide AsksNoMore, NothingForBoth, ComputeScore, Apart;
    var scores := ScoreMatrix(orders, slots);
    forall i, k | 0 <= i < |scores| && 0 <= k < |scores|
      ensures Within(scores[i], scores[k]) || Within(scores[k], scores[i]) || Apart(scores[i], scores[k])
    {
      OrdersRelate(orders, slots, i, k);
      OrdersRelate(orders, slots, k, i);
    }
  }

  /** A batch of compatible orders, such as orders for models of disjoint providers, is served as fully as possible. */
  lemma MaximumForCompatible(orders: seq<InferenceOrder>, slots: seq<ProviderOffer>, other: Picks)
    requires Compatible(orders, slots) && ValidAssignment(ScoreMatrix(orders, slots), |slots|, other)
    ensures Size(other) <= |Assignment(ScoreMatrix(orders, slots), |slots|)|
  {
    CompatibleIsLaminar(orders, slots);
    MaximumWhenLaminar(ScoreMatrix(orders, slots), |slots|, other);
  }

  /** Two named models that no slot serves both of. */
  predicate ServedApart(m: string, n: string, slots: seq<ProviderOffer>) {
    m != "default" && n != "default" && forall s :: s in slots ==> m !in s.models || n !in s.models
  }

  /** Orders for one model at one trust level, or for models that no provider has both of, are compatible. */
  lemma CompatibleByModel(orders: seq<InferenceOrder>, slots: seq<ProviderOffer>)
    requires forall i, k :: 0 <= i < k < |orders| ==>
               (orders[i].model == orders[k].model && orders[i].minConfidence == orders[k].minConfidence)
               || ServedApart(orders[i].model, orders[k].model, slots)
    ensures Compatible(orders, slots)
  {
    forall i, k | 0 <= i < k < |orders|
      ensures AsksNoMore(orders[i], orders[k]) || AsksNoMore(orders[k], orders[i])
              || NothingForBoth(orders[i], orders[k], slots)
    {
      if !(orders[i].model == orders[k].model && orders[i].minConfidence == orders[k].minConfidence) {
        assert NothingForBoth(orders[i], orders[k], slots);
      }
    }
  }

  /** Two orders with one preference and one session's provider score a slot alike, if both can use it. */
  lemma ScoredAlike(a: InferenceOrder, b: InferenceOrder, s: ProviderOffer)
    requires a.preference == b.preference && a.affinityProviderId == b.affinityProviderId
    requires Eligible(a, s) && Eligible(b, s)
    ensures ComputeScore(a, s) == ComputeScore(b, s)
  {
    hide BaseScore, SoftScore;
  }

  /** What an order that asks for nothing in particular makes of each slot. */
  function SharedValue(preference: RoutingPreference, affinity: string, slots: seq<ProviderOffer>): (prices: seq<real>)
    ensures |prices| == |slots| && NotNegative(prices)
    ensures forall j :: 0 <= j < |slots| ==>
              var score := ComputeScore(Undemanding(preference, affinity), slots[j]);
              prices[j] == if score > 0.0 then score else 0.0
  {
    seq(|slots|, j requires 0 <= j < |slots| =>
      var score := ComputeScore(Undemanding(preference, affinity), slots[j]); if score > 0.0 then score else 0.0)
  }

  function Undemanding(preference: RoutingPreference, affinity: string): InferenceOrder {
    InferenceOrder("", "default", Unlimited, Open, preference, 0.0, 120.0, affinity)
  }

  /** Compatible orders with one preference and no sessions of their own get the greatest total score there is. */
  lemma BestForOnePreference(orders: seq<InferenceOrder>, slots: seq<ProviderOffer>, preference: RoutingPreference,
                             affinity: string, other: Picks)
    requires Compatible(orders, slots) && ValidAssignment(ScoreMatrix(orders, slots), |slots|, other)
    requires forall o :: o in orders ==> o.preference == preference && o.affinityProviderId == affinity
    ensures var scores := ScoreMatrix(orders, slots);
            Total(scores, other) <= TotalScore(scores, Assignment(scores, |slots|))
  {
    hide ComputeScore, Laminar, Compatible, Total, TotalScore, Assignment, ValidAssignment;
    var scores, prices := ScoreMatrix(orders, slots), SharedValue(preference, affinity, slots);
    CompatibleIsLaminar(orders, slots);
    forall i, j | 0 <= i < |scores| && 0 <= j < |slots| && scores[i][j] > 0.0 ensures scores[i][j] == prices[j] {
      assert orders[i] in orders;
      ScoredAlike(orders[i], Undemanding(preference, affinity), slots[j]);
    }
    BestTotalWhenLaminar(scores, |slots|, prices, other);
  }

  // --- A small batch that is not served in full -------------------------------

  function SampleOffer(id: string, models: seq<string>, total: nat, used: int): ProviderOffer {
    ProviderOffer(id, models, 0.2, Open, 10.0, total, used, 1.0)
  }

  function SampleOrder(id: string, model: string): InferenceOrder {
    InferenceOrder(id, model, Unlimited, Open, Balanced, 0.0, 120.0, "")
  }

  function SampleOrders(): seq<InferenceOrder> {
    [SampleOrder("a", "m"), SampleOrder("b", "n"), SampleOrder("c", "m")]
  }

  function SampleOffers(): seq<ProviderOffer> {
    [SampleOffer("p0", ["m"], 1, 0), SampleOffer("p1", ["m", "n"], 1, 0), SampleOffer("p2", ["n"], 1, 0)]
  }

  lemma SampleSlots()
    ensures Expand(SampleOffers()) == SampleOffers()
  {
    var o := SampleOffers();
    assert o[..1][..0] == [] && o[..2][..1] == o[..1] && o[..2][1] == o[1];
    assert Expand(o[..0]) == [];
    assert Expand(o[..1]) == Copies(o[0], 1) == [o[0]];
    assert Expand(o[..2]) == [o[0]] + Copies(o[1], 1) == [o[0], o[1]];
    assert Expand(o) == [o[0], o[1]] + Copies(o[2], 1);
  }

  const SAMPLE_SCORE: real :=
    SoftScore(BaseScore(WeightsFor(Balanced), Profile(PriceScore(0.2), SpeedScore(10.0), 0.0, 1.0)), 1.0, false)

  lemma SampleScore(o: InferenceOrder, p: ProviderOffer)
    requires o in SampleOrders() && p in SampleOffers()
    ensures ComputeScore(o, p) == if o.model in p.models then SAMPLE_SCORE else -1.0
    ensures SAMPLE_SCORE > 0.0
  {
    hide SoftScore, BaseScore, PriceScore, SpeedScore;
    assert ProfileOf(p) == Profile(PriceScore(0.2), SpeedScore(10.0), 0.0, 1.0);
    BaseScoreBounds(Balanced, ProfileOf(p));
    SoftScoreBounds(BaseScore(WeightsFor(Balanced), ProfileOf(p)), TopBase(0.0), 1.0, false);
  }

  /** "m" can use the first two columns, "n" the last two, all at one common score. */
  lemma SampleScores() returns (v: real)
    ensures v > 0.0
    ensures ScoreMatrix(SampleOrders(), SampleOffers()) == [[v, v, -1.0], [-1.0, v, v], [v, v, -1.0]]
  {
    hide ComputeScore;
    v := SAMPLE_SCORE;
    var scores := ScoreMatrix(SampleOrders(), SampleOffers());
    forall i, j | 0 <= i < 3 && 0 <= j < 3
      ensures scores[i][j] == if SampleOrders()[i].model in SampleOffers()[j].models then v else -1.0
      ensures v > 0.0
    {
      SampleScore(SampleOrders()[i], SampleOffers()[j]);
    }
    assert scores[0] == [v, v, -1.0];
    assert scores[1] == [-1.0, v, v];
    assert scores[2] == [v, v, -1.0];
  }

  lemma SampleOrderOfTurns(v: real, scores: seq<Row>)
    requires v > 0.0 && scores == [[v, v, -1.0], [-1.0, v, v], [v, v, -1.0]]
    ensures Priority(scores) == [0, 1, 2]
  {
    var key := ConstraintKey(scores);
    assert Positives(scores[0], 1) == 1 && Positives(scores[0], 2) == 2 && Positives(scores[0], 3) == 2;
    assert Positives(scores[1], 1) == 0 && Positives(scores[1], 2) == 1 && Positives(scores[1], 3) == 2;
    assert Positives(scores[2], 1) == 1 && Positives(scores[2], 2) == 2 && Positives(scores[2], 3) == 2;
    assert key(0) == key(1) == key(2) == 2.0;
    var s := Indices(3);
    assert s == [0, 1, 2];
    assert s[1..] == [1, 2] && s[1..][1..] == [2];
    assert SortBy<nat>([2], key) == [2];
    assert SortBy<nat>([1, 2], key) == [1, 2];
    assert SortBy<nat>([0, 1, 2], key) == [0, 1, 2];
  }

  /**
   The result need not be an optimal assignment. Two orders want model "m" (providers p0, p1)
   and one wants "n" (p1, p2); all are equally constrained, so order "b" takes p1 before order
   "c" is served, and "c" goes empty although all three could be served.
   */
  lemma NotAlwaysOptimal() returns (other: Picks)
    ensures var slots := Expand(SampleOffers());
            && ValidAssignment(ScoreMatrix(SampleOrders(), slots), |slots|, other)
            && Size(other) == 3 && |Settled(SampleOrders(), SampleOffers())| == 2
  {
    other := [Some(0), Some(2), Some(1)];
    SampleSlots();
    var v := SampleScores();
    var scores := ScoreMatrix(SampleOrders(), SampleOffers());
    SampleOrderOfTurns(v, scores);
    SampleOutcome(v, scores);
    SampleBetter(v, scores);
  }

  lemma SampleBetter(v: real, scores: seq<Row>)
    requires v > 0.0 && scores == [[v, v, -1.0], [-1.0, v, v], [v, v, -1.0]]
    ensures ValidAssignment(scores, 3, [Some(0), Some(2), Some(1)]) && Size([Some(0), Some(2), Some(1)]) == 3
  {
    var other: Picks := [Some(0), Some(2), Some(1)];
    assert other[1..] == [Some(2), Some(1)] && other[1..][1..] == [Some(1)];
    forall j | 0 <= j < 3 ensures Count(other, j) <= 1 {
    }
  }

  /** Each order in turn takes its first open column; nothing is left for the third. */
  lemma SampleServed(v: real, scores: seq<Row>)
    requires v > 0.0 && scores == [[v, v, -1.0], [-1.0, v, v], [v, v, -1.0]]
    ensures Served(scores, Ones(3), [Some(0), Some(1), None])
  {
    var picks: Picks := [Some(0), Some(1), None];
    assert picks[..1] == [Some(0)] && picks[..2] == [Some(0), Some(1)];
    assert ServedAt(scores, Ones(3), picks, 0);
    assert ServedAt(scores, Ones(3), picks, 1);
    assert ServedAt(scores, Ones(3), picks, 2);
  }

  lemma SampleOutcome(v: real, scores: seq<Row>)
    requires v > 0.0 && scores == [[v, v, -1.0], [-1.0, v, v], [v, v, -1.0]]
    requires Priority(scores) == [0, 1, 2]
    ensures |Assignment(scores, 3)| == 2
  {
    hide Served, Priority;
    var rows, picks: Picks := PriorityRows(scores, 3), [Some(0), Some(1), None];
    assert rows == scores;
    SampleServed(v, scores);
    ServedIsUnique(rows, Ones(3), picks);
    PairsCountPicks(Priority(scores), picks);
    assert picks[1..] == [Some(1), None] && picks[1..][1..] == [None];
  }
}
