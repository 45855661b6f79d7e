/**
 Serial allocation: rows take turns, and each takes the open column it scores
 highest. Both matching strategies of the exchange are instances. The greedy
 one takes orders by submission time over providers with several free slots;
 the batch one takes them most constrained first over single slots.
 */
module SerialAllocation {
  import opened Options

  type Row = seq<real>
  type Picks = seq<Option<nat>>

  ghost predicate WellShaped(rows: seq<Row>, cap: seq<nat>) {
    forall i :: 0 <= i < |rows| ==> |rows[i]| == |cap|
  }

  /** `best` is the first open column among the first `n` with the highest positive score. */
  ghost predicate IsBest(row: Row, cap: seq<nat>, n: nat, best: Option<nat>)
    requires n <= |row| == |cap|
  {
    match best
    case None => forall j :: 0 <= j < n && cap[j] > 0 ==> row[j] <= 0.0
    case Some(b) =>
      && b < n && cap[b] > 0 && row[b] > 0.0
      && (forall j :: 0 <= j < n && cap[j] > 0 ==> row[j] <= row[b])
      && (forall j :: 0 <= j < b && cap[j] > 0 ==> row[j] < row[b])
  }

  function Choose(row: Row, cap: seq<nat>, n: nat): (best: Option<nat>)
    requires n <= |row| == |cap|
    ensures IsBest(row, cap, n, best)
  {
    if n == 0 then None
    else
      var best := Choose(row, cap, n - 1);
      if cap[n - 1] > 0 && row[n - 1] > 0.0 && (best.None? || row[n - 1] > row[best.value])
      then Some(n - 1)
      else best
  }

  function Take(cap: seq<nat>, pick: Option<nat>): (rest: seq<nat>)
    requires pick.Some? ==> pick.value < |cap| && cap[pick.value] > 0
    ensures |rest| == |cap|
  {
    if pick.None? then cap else cap[pick.value := cap[pick.value] - 1]
  }

  /** Rows in turn order, each taking its best open column. */
  function Allocate(rows: seq<Row>, cap: seq<nat>): (picks: Picks)
    requires WellShaped(rows, cap)
    ensures |picks| == |rows|
    decreases |rows|
  {
    if rows == [] then []
    else
      var pick := Choose(rows[0], cap, |cap|);
      [pick] + Allocate(rows[1..], Take(cap, pick))
  }

  /** One turn of an allocation that has reached row `i` with `cap` still open. */
  lemma AllocateStep(rows: seq<Row>, picks: Picks, cap: seq<nat>, i: nat)
    requires i < |rows| == |picks| && WellShaped(rows, cap)
    requires picks[i..] == Allocate(rows[i..], cap)
    ensures picks[i] == Choose(rows[i], cap, |cap|)
    ensures picks[i + 1..] == Allocate(rows[i + 1..], Take(cap, picks[i]))
  {
    hide Choose;
    assert rows[i..][0] == rows[i] && rows[i..][1..] == rows[i + 1..];
    assert picks[i..][0] == picks[i] && picks[i..][1..] == picks[i + 1..];
  }

  // --- Reference notions -----------------------------------------------------

  /** How many rows took column `j`. */
  function Count(picks: Picks, j: nat): nat {
    if picks == [] then 0 else (if picks[0] == Some(j) then 1 else 0) + Count(picks[1..], j)
  }

  /** How many rows took some column. */
  function Size(picks: Picks): nat {
    if picks == [] then 0 else (if picks[0].Some? then 1 else 0) + Size(picks[1..])
  }

  /** Any assignment of rows to columns they score positively, within every capacity. */
  ghost predicate Feasible(rows: seq<Row>, cap: seq<nat>, picks: Picks)
    requires WellShaped(rows, cap)
  {
    && |picks| == |rows|
    && (forall i :: 0 <= i < |picks| && picks[i].Some? ==>
          picks[i].value < |cap| && rows[i][picks[i].value] > 0.0)
    && (forall j :: 0 <= j < |cap| ==> Count(picks, j) <= cap[j])
  }

  /** What column `j` still has open when row `i` takes its turn. */
  function OpenAt(cap: seq<nat>, picks: Picks, i: nat, j: nat): int
    requires i <= |picks| && j < |cap|
  {
    cap[j] - Count(picks[..i], j)
  }

  /**
   Row `i` got the best column that its predecessors left open: nothing it scores
   higher, and nothing it scores equally at a lower index, was still open.
   */
  ghost predicate ServedAt(rows: seq<Row>, cap: seq<nat>, picks: Picks, i: nat)
    requires WellShaped(rows, cap) && |picks| == |rows| && i < |rows|
  {
    match picks[i]
    case None => forall j :: 0 <= j < |cap| && rows[i][j] > 0.0 ==> OpenAt(cap, picks, i, j) <= 0
    case Some(b) =>
      && b < |cap| && rows[i][b] > 0.0 && OpenAt(cap, picks, i, b) > 0
      && (forall j :: 0 <= j < |cap| && rows[i][j] > rows[i][b] ==> OpenAt(cap, picks, i, j) <= 0)
      && (forall j :: 0 <= j < b && rows[i][j] == rows[i][b] ==> OpenAt(cap, picks, i, j) <= 0)
  }

  ghost predicate Served(rows: seq<Row>, cap: seq<nat>, picks: Picks)
    requires WellShaped(rows, cap)
  {
    |picks| == |rows| && forall i :: 0 <= i < |rows| ==> ServedAt(rows, cap, picks, i)
  }

  // --- Counting --------------------------------------------------------------

  lemma CountPrefix(pick: Option<nat>, rest: Picks, i: nat, j: nat)
    requires i <= |rest|
    ensures Count(([pick] + rest)[..i + 1], j) == (if pick == Some(j) then 1 else 0) + Count(rest[..i], j)
  {
    assert ([pick] + rest)[..i + 1] == [pick] + rest[..i];
  }

  lemma {:induction false} CountSplit(a: Picks, b: Picks, j: nat)
    ensures Count(a + b, j) == Count(a, j) + Count(b, j)
  {
    if a == [] {
      assert a + b == b;
    } else {
      assert (a + b)[1..] == a[1..] + b;
      CountSplit(a[1..], b, j);
    }
  }

  lemma CountSnoc(picks: Picks, n: nat, j: nat)
    requires n < |picks|
    ensures Count(picks[..n + 1], j) == Count(picks[..n], j) + (if picks[n] == Some(j) then 1 else 0)
  {
    assert picks[..n + 1] == picks[..n] + [picks[n]];
    CountSplit(picks[..n], [picks[n]], j);
  }

  lemma {:induction false} SizeSplit(a: Picks, b: Picks)
    ensures Size(a + b) == Size(a) + Size(b)
  {
    if a == [] {
      assert a + b == b;
    } else {
      assert (a + b)[1..] == a[1..] + b;
      SizeSplit(a[1..], b);
    }
  }

  lemma {:induction false} CountAtIndex(picks: Picks, i: nat, j: nat)
    requires i < |picks| && picks[i] == Some(j)
    ensures Count(picks, j) >= Count(picks[..i], j) + 1
  {
    assert picks == picks[..i] + ([picks[i]] + picks[i + 1..]);
    CountSplit(picks[..i], [picks[i]] + picks[i + 1..], j);
  }

  // --- Safety ----------------------------------------------------------------

  /** No column is given out more often than its capacity, and never to a row that does not want it. */
  lemma {:induction false} AllocateIsFeasible(rows: seq<Row>, cap: seq<nat>)
    requires WellShaped(rows, cap)
    ensures Feasible(rows, cap, Allocate(rows, cap))
    decreases |rows|
  {
    if rows != [] {
      var pick := Choose(rows[0], cap, |cap|);
      AllocateIsFeasible(rows[1..], Take(cap, pick));
      var rest := Allocate(rows[1..], Take(cap, pick));
      assert ([pick] + rest)[1..] == rest;
    }
  }

  /** The recursive definition meets the turn-by-turn reference definition ... */
  lemma {:induction false} AllocateIsServed(rows: seq<Row>, cap: seq<nat>)
    requires WellShaped(rows, cap)
    ensures Served(rows, cap, Allocate(rows, cap))
    decreases |rows|
  {
    if rows != [] {
      var pick := Choose(rows[0], cap, |cap|);
      var rest := Allocate(rows[1..], Take(cap, pick));
      AllocateIsServed(rows[1..], Take(cap, pick));
      var picks := [pick] + rest;
      assert Allocate(rows, cap) == picks;
      hide Allocate, Choose, Take;
      forall i | 0 <= i < |rows| ensures ServedAt(rows, cap, picks, i) {
        if i == 0 {
          FirstIsServed(rows, cap, picks);
        } else {
          assert ServedAt(rows[1..], Take(cap, pick), rest, i - 1);
          ServedInTurn(rows, cap, pick, rest, i);
        }
      }
    }
  }

  /** The first row found every column open. */
  lemma FirstIsServed(rows: seq<Row>, cap: seq<nat>, picks: Picks)
    requires WellShaped(rows, cap) && rows != [] && |picks| == |rows|
    requires picks[0] == Choose(rows[0], cap, |cap|)
    ensures ServedAt(rows, cap, picks, 0)
  {
  }

  /** The other rows see what the first one left. */
  lemma ServedInTurn(rows: seq<Row>, cap: seq<nat>, pick: Option<nat>, rest: Picks, i: nat)
    requires WellShaped(rows, cap) && 0 < i < |rows| == |rest| + 1
    requires pick.Some? ==> pick.value < |cap| && cap[pick.value] > 0
    requires ServedAt(rows[1..], Take(cap, pick), rest, i - 1)
    ensures ServedAt(rows, cap, [pick] + rest, i)
  {
    forall j | 0 <= j < |cap|
      ensures OpenAt(cap, [pick] + rest, i, j) == OpenAt(Take(cap, pick), rest, i - 1, j)
    {
      CountPrefix(pick, rest, i - 1, j);
    }
    hide OpenAt, Take;
  }

  /** ... and is the only assignment that does. */
  lemma {:induction false} ServedIsUnique(rows: seq<Row>, cap: seq<nat>, picks: Picks)
    requires WellShaped(rows, cap)
    requires Served(rows, cap, picks)
    ensures picks == Allocate(rows, cap)
    decreases |rows|
  {
    if rows != [] {
      var pick := Choose(rows[0], cap, |cap|);
      assert ServedAt(rows, cap, picks, 0);
      assert forall j :: 0 <= j < |cap| ==> OpenAt(cap, picks, 0, j) == cap[j];
      assert picks[0] == pick;
      var rest := picks[1..];
      assert picks == [pick] + rest;
      forall i | 0 <= i < |rest| ensures ServedAt(rows[1..], Take(cap, pick), rest, i) {
        assert ServedAt(rows, cap, picks, i + 1);
        forall j | 0 <= j < |cap|
          ensures OpenAt(cap, picks, i + 1, j) == OpenAt(Take(cap, pick), rest, i, j)
        {
          CountPrefix(pick, rest, i, j);
        }
      }
      ServedIsUnique(rows[1..], Take(cap, pick), rest);
    }
  }

  lemma OpenShrinks(cap: seq<nat>, picks: Picks, i: nat, k: nat, j: nat)
    requires i <= k <= |picks| && j < |cap|
    ensures OpenAt(cap, picks, i, j) >= OpenAt(cap, picks, k, j)
  {
    assert picks[..k] == picks[..i] + picks[i..k];
    CountSplit(picks[..i], picks[i..k], j);
  }

  /** No row strictly prefers what a later row got, and a row left empty does not want it at all. */
  lemma NoEnvyOfLaterRows(rows: seq<Row>, cap: seq<nat>, i: nat, k: nat)
    requires WellShaped(rows, cap) && i < k < |rows|
    requires Allocate(rows, cap)[k].Some?
    ensures var picks := Allocate(rows, cap);
            var got := picks[k].value;
            && got < |cap|
            && (picks[i].Some? ==> picks[i].value < |cap| && rows[i][picks[i].value] >= rows[i][got])
            && (picks[i].None? ==> rows[i][got] <= 0.0)
  {
    hide Allocate, OpenAt;
    var picks := Allocate(rows, cap);
    AllocateIsServed(rows, cap);
    assert ServedAt(rows, cap, picks, i) && ServedAt(rows, cap, picks, k);
    OpenShrinks(cap, picks, i, k, picks[k].value);
  }

  // --- Approximation ---------------------------------------------------------

  /** Dropping one use of column `j`, when there is one. */
  function DropOne(picks: Picks, j: nat): (rest: Picks)
    ensures |rest| == |picks|
  {
    if picks == [] then []
    else if picks[0] == Some(j) then [None] + picks[1..]
    else [picks[0]] + DropOne(picks[1..], j)
  }

  lemma {:induction false} DropOneFacts(picks: Picks, j: nat)
    ensures var rest := DropOne(picks, j);
            && Size(picks) == Size(rest) + (if Count(picks, j) > 0 then 1 else 0)
            && Count(rest, j) == (if Count(picks, j) > 0 then Count(picks, j) - 1 else 0)
            && (forall m: nat :: m != j ==> Count(rest, m) == Count(picks, m))
            && (forall i :: 0 <= i < |picks| && rest[i].Some? ==> rest[i] == picks[i])
  {
    if picks != [] {
      DropOneFacts(picks[1..], j);
      var rest := DropOne(picks, j);
      if picks[0] == Some(j) {
        assert rest[1..] == picks[1..];
      } else {
        assert rest[1..] == DropOne(picks[1..], j);
      }
    }
  }

  lemma {:induction false} CountPositive(picks: Picks, i: nat, j: nat)
    requires i < |picks| && picks[i] == Some(j)
    ensures Count(picks, j) > 0
  {
    CountAtIndex(picks, i, j);
  }

  /** Serial allocation fills at least half as many rows as any feasible assignment. */
  lemma {:induction false} AtLeastHalf(rows: seq<Row>, cap: seq<nat>, other: Picks)
    requires WellShaped(rows, cap)
    requires Feasible(rows, cap, other)
    ensures Size(other) <= 2 * Size(Allocate(rows, cap))
    decreases |rows|
  {
    if rows != [] {
      var pick := Choose(rows[0], cap, |cap|);
      var left := Take(cap, pick);
      var picks := Allocate(rows, cap);
      if other[0].Some? {
        CountPositive(other, 0, other[0].value);
      }
      assert picks[1..] == Allocate(rows[1..], left);
      var tail := if pick.None? then other[1..] else DropOne(other[1..], pick.value);
      if pick.Some? {
        DropOneFacts(other[1..], pick.value);
      }
      assert Feasible(rows[1..], left, tail) by {
        forall j | 0 <= j < |cap| ensures Count(tail, j) <= left[j] {
          assert Count(other, j) <= cap[j];
        }
        forall i | 0 <= i < |tail| && tail[i].Some?
          ensures tail[i].value < |left| && rows[1..][i][tail[i].value] > 0.0
        {
          assert tail[i] == other[1..][i] == other[i + 1];
        }
      }
      AtLeastHalf(rows[1..], left, tail);
    }
  }

  lemma {:induction false} CountIsZero(picks: Picks, j: nat)
    requires forall i :: 0 <= i < |picks| ==> picks[i] != Some(j)
    ensures Count(picks, j) == 0
  {
    if picks != [] {
      CountIsZero(picks[1..], j);
    }
  }

  // --- Optimality ------------------------------------------------------------

  function WorthOf(pick: Option<nat>, prices: seq<real>): real {
    if pick.Some? && pick.value < |prices| then prices[pick.value] else 0.0
  }

  /** The total value of the columns taken. */
  function Worth(picks: Picks, prices: seq<real>): real {
    if picks == [] then 0.0 else WorthOf(picks[0], prices) + Worth(picks[1..], prices)
  }

  function Units(n: nat): (prices: seq<real>)
    ensures |prices| == n && forall j :: 0 <= j < n ==> prices[j] == 1.0
  {
    seq(n, j => 1.0)
  }

  /** At one each, the worth of an assignment is its size. */
  lemma {:induction false} WorthInUnits(picks: Picks, n: nat)
    requires forall i :: 0 <= i < |picks| && picks[i].Some? ==> picks[i].value < n
    ensures Worth(picks, Units(n)) == Size(picks) as real
  {
    if picks != [] {
      WorthInUnits(picks[1..], n);
    }
  }

  lemma {:induction false} WorthSplit(a: Picks, b: Picks, prices: seq<real>)
    ensures Worth(a + b, prices) == Worth(a, prices) + Worth(b, prices)
  {
    if a == [] {
      assert a + b == b;
    } else {
      assert (a + b)[1..] == a[1..] + b;
      WorthSplit(a[1..], b, prices);
    }
  }

  lemma {:induction false} FindUse(picks: Picks, j: nat) returns (k: nat)
    requires Count(picks, j) > 0
    ensures k < |picks| && picks[k] == Some(j)
  {
    if picks[0] == Some(j) {
      k := 0;
    } else {
      var m := FindUse(picks[1..], j);
      k := m + 1;
    }
  }

  /** Giving row `k` another column changes the counts and the worth accordingly. */
  lemma {:induction false} Reassigned(picks: Picks, k: nat, x: Option<nat>, j: nat, prices: seq<real>)
    requires k < |picks|
    ensures Count(picks[k := x], j)
            == Count(picks, j) - (if picks[k] == Some(j) then 1 else 0) + (if x == Some(j) then 1 else 0)
    ensures Worth(picks[k := x], prices) == Worth(picks, prices) - WorthOf(picks[k], prices) + WorthOf(x, prices)
  {
    if k == 0 {
      assert picks[k := x][1..] == picks[1..];
    } else {
      Reassigned(picks[1..], k - 1, x, j, prices);
      assert picks[k := x][1..] == picks[1..][k - 1 := x];
    }
  }

  /** One can use whatever the other can; or there is nothing both can use. */
  ghost predicate Within(a: Row, b: Row)
    requires |a| == |b|
  {
    forall j :: 0 <= j < |a| && a[j] > 0.0 ==> b[j] > 0.0
  }

  ghost predicate Apart(a: Row, b: Row)
    requires |a| == |b|
  {
    forall j :: 0 <= j < |a| && a[j] > 0.0 ==> b[j] <= 0.0
  }

  /** Every later row can use whatever an earlier one can, or nothing of it. */
  ghost predicate NestedOrApart(rows: seq<Row>, cap: seq<nat>)
    requires WellShaped(rows, cap)
  {
    forall i, k :: 0 <= i < k < |rows| ==> Within(rows[i], rows[k]) || Apart(rows[i], rows[k])
  }

  /** Scoring a column at least as high means that it is worth at least as much. */
  ghost predicate Ranks(row: Row, prices: seq<real>)
    requires |row| == |prices|
  {
    forall j, k :: 0 <= j < |row| && 0 <= k < |row| && row[j] > 0.0 && row[k] > 0.0 && row[j] >= row[k] ==>
      prices[j] >= prices[k]
  }

  ghost predicate NotNegative(prices: seq<real>) {
    forall j :: 0 <= j < |prices| ==> prices[j] >= 0.0
  }

  /**
   The exchange at one turn: any assignment can be changed to give the first row its own pick,
   at no loss, by handing what the first row had to a later row that had that pick.
   */
  lemma Exchange(rows: seq<Row>, cap: seq<nat>, prices: seq<real>, other: Picks) returns (tail: Picks)
    requires WellShaped(rows, cap) && rows != [] && NestedOrApart(rows, cap) && Feasible(rows, cap, other)
    requires |prices| == |cap| && NotNegative(prices) && Ranks(rows[0], prices)
    ensures var pick := Choose(rows[0], cap, |cap|);
            && Feasible(rows[1..], Take(cap, pick), tail)
            && Worth(other, prices) <= WorthOf(pick, prices) + Worth(tail, prices)
  {
    var pick, rest := Choose(rows[0], cap, |cap|), other[1..];
    assert other == [other[0]] + rest;
    if other[0].Some? {
      CountPositive(other, 0, other[0].value);
      assert Count(other, other[0].value) <= cap[other[0].value];
    }
    forall j | 0 <= j < |cap| ensures Count(rest, j) + (if other[0] == Some(j) then 1 else 0) <= cap[j] {
      assert Count(other, j) <= cap[j];
    }
    if pick.None? || Count(rest, pick.value) < cap[pick.value] {
      tail := rest;
    } else {
      var k := FindUse(rest, pick.value);
      tail := rest[k := other[0]];
      assert rest[k] == other[k + 1];
      assert Within(rows[0], rows[k + 1]);
      forall j | 0 <= j < |cap| ensures Count(tail, j) <= Take(cap, pick)[j] {
        Reassigned(rest, k, other[0], j, prices);
      }
      Reassigned(rest, k, other[0], 0, prices);
    }
  }

  /**
   When wishes are nested or apart in turn order and every row ranks columns by their value, no
   feasible assignment is worth more.
   */
  lemma {:induction false} NestedOrApartIsBest(rows: seq<Row>, cap: seq<nat>, prices: seq<real>, other: Picks)
    requires WellShaped(rows, cap) && NestedOrApart(rows, cap) && Feasible(rows, cap, other)
    requires |prices| == |cap| && NotNegative(prices)
    requires forall i :: 0 <= i < |rows| ==> Ranks(rows[i], prices)
    ensures Worth(other, prices) <= Worth(Allocate(rows, cap), prices)
    decreases |rows|
  {
    if rows != [] {
      hide Choose, Feasible, Ranks;
      var tail := Exchange(rows, cap, prices, other);
      var pick := Choose(rows[0], cap, |cap|);
      NestedOrApartIsBest(rows[1..], Take(cap, pick), prices, tail);
      assert Allocate(rows, cap)[1..] == Allocate(rows[1..], Take(cap, pick));
    }
  }

  /** In particular none fills more rows, whatever the rows' preferences. */
  lemma NestedOrApartIsMaximum(rows: seq<Row>, cap: seq<nat>, other: Picks)
    requires WellShaped(rows, cap) && NestedOrApart(rows, cap) && Feasible(rows, cap, other)
    ensures Size(other) <= Size(Allocate(rows, cap))
  {
    AllocateIsFeasible(rows, cap);
    NestedOrApartIsBest(rows, cap, Units(|cap|), other);
    WorthInUnits(other, |cap|);
    WorthInUnits(Allocate(rows, cap), |cap|);
  }

  /** Using no column more often is worth no more. */
  lemma {:induction false} WorthByColumns(fewer: Picks, more: Picks, prices: seq<real>)
    requires NotNegative(prices)
    requires forall j: nat :: Count(fewer, j) <= Count(more, j)
    ensures Worth(fewer, prices) <= Worth(more, prices)
    decreases |fewer|
  {
    if fewer == [] {
      WorthNotNegative(more, prices);
    } else if fewer[0].None? {
      forall j: nat ensures Count(fewer[1..], j) <= Count(more, j) {
        assert Count(fewer, j) == Count(fewer[1..], j);
      }
      WorthByColumns(fewer[1..], more, prices);
    } else {
      var c := fewer[0].value;
      assert Count(fewer, c) <= Count(more, c);
      var k := FindUse(more, c);
      Reassigned(more, k, None, c, prices);
      forall j: nat ensures Count(fewer[1..], j) <= Count(more[k := None], j) {
        Reassigned(more, k, None, j, prices);
        assert Count(fewer, j) == (if j == c then 1 else 0) + Count(fewer[1..], j);
        assert Count(fewer, j) <= Count(more, j);
      }
      WorthByColumns(fewer[1..], more[k := None], prices);
    }
  }

  lemma {:induction false} WorthNotNegative(picks: Picks, prices: seq<real>)
    requires NotNegative(prices)
    ensures Worth(picks, prices) >= 0.0
  {
    if picks != [] {
      WorthNotNegative(picks[1..], prices);
    }
  }
}
