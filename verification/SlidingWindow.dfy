/** One specification for the sliding-window limiters: what a history of admissions still allows. */
module SlidingWindow {

  /** At most `limit` admissions in any `span` seconds. */
  datatype Policy = Policy(limit: nat, span: real)

  /** Admissions after `from`, up to and including `to`. */
  function CountIn(history: seq<real>, from: real, to: real): nat {
    if history == [] then 0
    else
      var n := |history| - 1;
      CountIn(history[..n], from, to) + (if from < history[n] <= to then 1 else 0)
  }

  function Positions(history: seq<real>, from: real, to: real): set<nat> {
    set i: nat | i < |history| && from < history[i] <= to
  }

  lemma PositionsSnoc(history: seq<real>, x: real, from: real, to: real)
    ensures |history| !in Positions(history, from, to)
    ensures Positions(history + [x], from, to) == Positions(history, from, to) + (if from < x <= to then {|history|} else {})
  {
    var longer := history + [x];
    forall i: nat ensures i in Positions(longer, from, to) <==> i in Positions(history, from, to) || (i == |history| && from < x <= to) {
      assert i < |history| ==> longer[i] == history[i];
    }
  }

  /** It counts the positions in the history whose time lies in the window. */
  lemma {:induction false} CountIs(history: seq<real>, from: real, to: real)
    ensures CountIn(history, from, to) == |Positions(history, from, to)|
  {
    if history != [] {
      var n := |history| - 1;
      CountIs(history[..n], from, to);
      PositionsSnoc(history[..n], history[n], from, to);
      assert history[..n] + [history[n]] == history;
      hide Positions;
    }
  }

  /** Admissions in the window that ends at `end`. */
  function InWindow(policy: Policy, history: seq<real>, end: real): nat {
    CountIn(history, end - policy.span, end)
  }

  predicate Allows(policy: Policy, history: seq<real>, now: real) {
    InWindow(policy, history, now) < policy.limit
  }

  ghost predicate WithinLimit(policy: Policy, history: seq<real>) {
    forall end :: InWindow(policy, history, end) <= policy.limit
  }

  ghost predicate Chronological(history: seq<real>, now: real) {
    && (forall i, j :: 0 <= i < j < |history| ==> history[i] <= history[j])
    && (forall i :: 0 <= i < |history| ==> history[i] <= now)
  }

  /** Every admission was allowed by those before it. */
  ghost predicate Lawful(policy: Policy, history: seq<real>) {
    forall j :: 0 <= j < |history| ==> Allows(policy, history[..j], history[j])
  }

  lemma LawfulSnoc(policy: Policy, history: seq<real>, now: real)
    requires Lawful(policy, history) && Allows(policy, history, now)
    ensures Lawful(policy, history + [now])
  {
    forall j | 0 <= j <= |history| ensures Allows(policy, (history + [now])[..j], (history + [now])[j]) {
      assert (history + [now])[..j] == history[..j];
      assert history[..|history|] == history;
    }
  }

  lemma {:induction false} CountShrinks(history: seq<real>, from: real, to: real, later: real, sooner: real)
    requires from <= later
    requires forall i :: 0 <= i < |history| ==> history[i] <= sooner
    ensures CountIn(history, later, to) <= CountIn(history, from, sooner)
  {
    if history != [] {
      CountShrinks(history[..|history| - 1], from, to, later, sooner);
    }
  }

  /** A lawful history stays within the limit over every window, wherever it ends. */
  lemma {:induction false} WindowBound(policy: Policy, history: seq<real>, now: real, end: real)
    requires Lawful(policy, history) && Chronological(history, now)
    ensures InWindow(policy, history, end) <= policy.limit
  {
    if history != [] {
      var n := |history| - 1;
      var init, last := history[..n], history[n];
      assert Chronological(init, last);
      LawfulInit(policy, history);
      if end - policy.span < last <= end {
        CountShrinks(init, last - policy.span, end, end - policy.span, last);
      } else {
        WindowBound(policy, init, now, end);
      }
    }
  }

  lemma LawfulInit(policy: Policy, history: seq<real>)
    requires Lawful(policy, history) && history != []
    ensures Lawful(policy, history[..|history| - 1])
    ensures Allows(policy, history[..|history| - 1], history[|history| - 1])
  {
    var init := history[..|history| - 1];
    forall j | 0 <= j < |init| ensures Allows(policy, init[..j], init[j]) {
      assert init[..j] == history[..j];
    }
  }

  // --- Keeping only what can still matter ------------------------------------

  /** What a limiter keeps: the history without admissions that had aged out by `now`. */
  ghost predicate Keeps(kept: seq<real>, history: seq<real>, span: real, now: real) {
    && |kept| <= |history|
    && kept == history[|history| - |kept|..]
    && Chronological(history, now)
    && forall i :: 0 <= i < |history| - |kept| ==> now - history[i] >= span
  }

  /** Admissions younger than `span`, in order. */
  function Recent(kept: seq<real>, span: real, now: real): (recent: seq<real>)
    ensures |recent| <= |kept|
  {
    if kept == [] then []
    else (if now - kept[0] < span then [kept[0]] else []) + Recent(kept[1..], span, now)
  }

  lemma {:induction false} RecentFrom(kept: seq<real>, span: real, now: real, k: nat)
    requires k <= |kept|
    requires forall i :: 0 <= i < k ==> now - kept[i] >= span
    requires forall i :: k <= i < |kept| ==> now - kept[i] < span
    ensures Recent(kept, span, now) == kept[k..]
  {
    if kept != [] {
      RecentFrom(kept[1..], span, now, if k == 0 then 0 else k - 1);
    }
  }

  /** How many elements are popped from the front before one is young enough. */
  function Aged(kept: seq<real>, span: real, now: real): (k: nat)
    ensures k <= |kept|
    ensures forall i :: 0 <= i < k ==> now - kept[i] >= span
    ensures k < |kept| ==> now - kept[k] < span
  {
    if kept == [] || now - kept[0] < span then 0 else 1 + Aged(kept[1..], span, now)
  }

  /** In a chronological list, popping from the front is the same as filtering. */
  lemma PoppingFilters(kept: seq<real>, span: real, now: real)
    requires forall i, j :: 0 <= i < j < |kept| ==> kept[i] <= kept[j]
    ensures var gone := Aged(kept, span, now);
            && Recent(kept, span, now) == kept[gone..]
            && forall i :: gone <= i < |kept| ==> now - kept[i] < span
  {
    hide Aged;
    RecentFrom(kept, span, now, Aged(kept, span, now));
  }

  lemma {:induction false} CountAged(history: seq<real>, from: real, to: real)
    requires forall i :: 0 <= i < |history| ==> history[i] <= from
    ensures CountIn(history, from, to) == 0
  {
    if history != [] {
      CountAged(history[..|history| - 1], from, to);
    }
  }

  lemma {:induction false} CountFresh(aged: seq<real>, recent: seq<real>, from: real, to: real)
    requires forall i :: 0 <= i < |aged| ==> aged[i] <= from
    requires forall i :: 0 <= i < |recent| ==> from < recent[i] <= to
    ensures CountIn(aged + recent, from, to) == |recent|
    decreases |recent|
  {
    if recent == [] {
      assert aged + recent == aged;
      CountAged(aged, from, to);
    } else {
      var n := |recent| - 1;
      CountFresh(aged, recent[..n], from, to);
      assert (aged + recent)[..|aged| + n] == aged + recent[..n];
    }
  }

  lemma CutDecides(history: seq<real>, cut: nat, span: real, now: real)
    requires cut <= |history| && Chronological(history, now)
    requires forall i :: 0 <= i < cut ==> now - history[i] >= span
    requires forall i :: cut <= i < |history| ==> now - history[i] < span
    ensures Keeps(history[cut..], history, span, now)
    ensures |history| - cut == CountIn(history, now - span, now)
  {
    assert history == history[..cut] + history[cut..];
    CountFresh(history[..cut], history[cut..], now - span, now);
  }

  /** Whatever a limiter has dropped, what it keeps decides as the whole history does. */
  lemma KeptDecides(kept: seq<real>, history: seq<real>, span: real, before: real, now: real)
    requires Keeps(kept, history, span, before) && before <= now
    ensures Keeps(Recent(kept, span, now), history, span, now)
    ensures |Recent(kept, span, now)| == CountIn(history, now - span, now)
    ensures Keeps(kept, history, span, now)
  {
    hide Recent, Aged, CountIn;
    var dropped, gone := |history| - |kept|, Aged(kept, span, now);
    PoppingFilters(kept, span, now);
    forall i | 0 <= i < |history|
      ensures i < dropped + gone ==> now - history[i] >= span
      ensures i >= dropped + gone ==> now - history[i] < span
    {
      if i >= dropped {
        assert history[i] == kept[i - dropped];
      }
    }
    CutDecides(history, dropped + gone, span, now);
    assert kept[gone..] == history[dropped + gone..];
  }

  lemma KeepsSnoc(kept: seq<real>, history: seq<real>, span: real, now: real)
    requires Keeps(kept, history, span, now)
    ensures Keeps(kept + [now], history + [now], span, now)
  {
  }

  // --- A clock that goes back ------------------------------------------------

  /** What a filtering limiter keeps for one key, and all that it has admitted. */
  datatype Tally = Tally(kept: seq<real>, history: seq<real>)

  function Tried(policy: Policy, t: Tally, now: real): Tally {
    var recent := Recent(t.kept, policy.span, now);
    if |recent| < policy.limit then Tally(recent + [now], t.history + [now]) else t
  }

  function After(policy: Policy, readings: seq<real>): Tally {
    if readings == [] then Tally([], [])
    else Tried(policy, After(policy, readings[..|readings| - 1]), readings[|readings| - 1])
  }

  /** No reading lies more than `back` before an earlier one. */
  ghost predicate BackAtMost(readings: seq<real>, back: real) {
    forall i, j :: 0 <= i < j < |readings| ==> readings[i] - readings[j] <= back
  }

  lemma KeepsLater(kept: seq<real>, history: seq<real>, span: real, before: real, now: real)
    requires Keeps(kept, history, span, before) && before <= now
    ensures Keeps(kept, history, span, now)
  {
  }

  lemma NothingKept(policy: Policy, now: real)
    ensures Keeps([], [], policy.span, now) && Lawful(policy, [])
  {
  }

  lemma {:induction false} AfterIsLawful(policy: Policy, readings: seq<real>, now: real)
    requires Chronological(readings, now)
    ensures var t := After(policy, readings); Keeps(t.kept, t.history, policy.span, now) && Lawful(policy, t.history)
  {
    hide Keeps, Lawful, Recent, CountIn;
    if readings == [] {
      NothingKept(policy, now);
    } else {
      var n := |readings| - 1;
      var t, reading := After(policy, readings[..n]), readings[n];
      AfterIsLawful(policy, readings[..n], reading);
      KeptDecides(t.kept, t.history, policy.span, reading, reading);
      KeepsSnoc(Recent(t.kept, policy.span, reading), t.history, policy.span, reading);
      if Allows(policy, t.history, reading) {
        LawfulSnoc(policy, t.history, reading);
      }
      KeepsLater(After(policy, readings).kept, After(policy, readings).history, policy.span, reading, now);
    }
  }

  function Zeros(k: nat): (zeros: seq<real>)
    ensures |zeros| == k && forall i :: 0 <= i < k ==> zeros[i] == 0.0
  {
    seq(k, i => 0.0)
  }

  lemma {:induction false} AfterZeros(policy: Policy, k: nat)
    requires k <= policy.limit && policy.span > 0.0
    ensures After(policy, Zeros(k)) == Tally(Zeros(k), Zeros(k))
  {
    hide Recent;
    if k > 0 {
      AfterZeros(policy, k - 1);
      assert Zeros(k)[..k - 1] == Zeros(k - 1);
      RecentFrom(Zeros(k - 1), policy.span, 0.0, 0);
      assert Zeros(k - 1) + [0.0] == Zeros(k);
    }
  }

  /** A full limit, one more admission when it has aged, and another after the clock has been set back by `back`. */
  function SetBack(policy: Policy, back: real): (readings: seq<real>)
    ensures back >= 0.0 && policy.span >= back ==> BackAtMost(readings, back)
  {
    Zeros(policy.limit) + [policy.span] + [policy.span - back]
  }

  lemma AfterSnoc(policy: Policy, readings: seq<real>, now: real)
    ensures After(policy, readings + [now]) == Tried(policy, After(policy, readings), now)
  {
    hide Tried;
    assert (readings + [now])[..|readings|] == readings;
  }

  /** Every attempt is admitted, the last one because the first ones have been forgotten. */
  lemma AfterSetBack(policy: Policy, back: real)
    requires policy.limit >= 2 && 0.0 < back <= policy.span
    ensures After(policy, SetBack(policy, back)).history == SetBack(policy, back)
  {
    hide Recent, After;
    var zeros, span := Zeros(policy.limit), policy.span;
    AfterZeros(policy, policy.limit);
    RecentFrom(zeros, span, span, |zeros|);
    AfterSnoc(policy, zeros, span);
    assert [] + [span] == [span];
    RecentFrom([span], span, span - back, 0);
    AfterSnoc(policy, zeros + [span], span - back);
  }

  lemma SetBackExceeds(policy: Policy, back: real)
    requires policy.limit >= 2 && 0.0 < back <= policy.span
    ensures InWindow(policy, After(policy, SetBack(policy, back)).history, policy.span - back) == policy.limit + 1
  {
    hide CountIn, After;
    var zeros, span := Zeros(policy.limit), policy.span;
    AfterSetBack(policy, back);
    CountFresh([], zeros, -back, span - back);
    assert [] + zeros == zeros;
    CountStep(zeros, span, -back, span - back);
    CountStep(zeros + [span], span - back, -back, span - back);
  }

  lemma CountStep(history: seq<real>, now: real, from: real, to: real)
    ensures CountIn(history + [now], from, to) == CountIn(history, from, to) + (if from < now <= to then 1 else 0)
  {
    assert (history + [now])[..|history|] == history;
  }

  /** Filtering by age keeps every window of a key within its limit exactly if the clock never goes back. */
  lemma WindowBoundIff(policy: Policy, back: real)
    requires policy.limit >= 2 && policy.span > 0.0
    ensures (forall readings :: BackAtMost(readings, back) ==> WithinLimit(policy, After(policy, readings).history))
            <==> back <= 0.0
  {
    hide After, InWindow, Lawful;
    if back > 0.0 {
      var step := if back <= policy.span then back else policy.span;
      SetBackExceeds(policy, step);
      assert BackAtMost(SetBack(policy, step), back);
    } else {
      forall readings | BackAtMost(readings, back) ensures WithinLimit(policy, After(policy, readings).history) {
        var now := if readings == [] then 0.0 else readings[|readings| - 1];
        assert Chronological(readings, now);
        AfterIsLawful(policy, readings, now);
        forall end ensures InWindow(policy, After(policy, readings).history, end) <= policy.limit {
          WindowBound(policy, After(policy, readings).history, now, end);
        }
      }
    }
  }
}
