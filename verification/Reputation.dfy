/** Provider reputation: moving averages of outcomes and latency, and the score that routing uses. */
module Reputation {

  datatype Outcome = Success(latencyMs: int) | Error | TimedOut | Disconnect

  const ALPHA := 0.2
  const HISTORY_LENGTH: nat := 50

  /** The two averages and the counters of one provider. */
  datatype Standing = Standing(success: real, latency: real, requests: nat, successes: nat, failures: nat, timeouts: nat)

  const NEWCOMER := Standing(0.5, 0.5, 0, 0, 0, 0)

  function Blend(sample: real, average: real): real {
    ALPHA * sample + (1.0 - ALPHA) * average
  }

  function LatencyScore(latencyMs: int): (s: real)
    ensures s >= 0.0
    ensures s <= 1.0 <==> latencyMs >= 0
  {
    var raw := 1.0 - latencyMs as real / 5000.0;
    if raw > 0.0 then raw else 0.0
  }

  function Recorded(s: Standing, o: Outcome): Standing {
    match o
    case Success(ms) =>
      Standing(Blend(1.0, s.success), Blend(LatencyScore(ms), s.latency),
               s.requests + 1, s.successes + 1, s.failures, s.timeouts)
    case Error => s.(success := Blend(0.0, s.success), requests := s.requests + 1, failures := s.failures + 1)
    case TimedOut =>
      s.(success := Blend(0.0, s.success), latency := Blend(0.0, s.latency),
         requests := s.requests + 1, timeouts := s.timeouts + 1)
    case Disconnect => s.(success := Blend(0.0, s.success), requests := s.requests + 1, failures := s.failures + 1)
  }

  function Score(s: Standing): real {
    if s.requests < 3 then 0.5 else 0.7 * s.success + 0.3 * s.latency
  }

  predicate Degraded(s: Standing) {
    s.requests >= 5 && s.success < 0.5
  }

  /** Neutral before the third request; then success counts seven tenths and latency three. */
  lemma ScoreIs(s: Standing)
    ensures Degraded(s) <==> s.requests >= 5 && 2.0 * s.success < 1.0
    ensures s.requests <= 2 ==> Score(s) == 0.5
    ensures s.requests >= 3 ==> 10.0 * Score(s) == 7.0 * s.success + 3.0 * s.latency
  {
  }

  function After(s: Standing, history: seq<Outcome>): Standing {
    if history == [] then s else Recorded(After(s, history[..|history| - 1]), history[|history| - 1])
  }

  ghost predicate InUnit(s: Standing) {
    0.0 <= s.success <= 1.0 && 0.0 <= s.latency <= 1.0
  }

  /** No elapsed time is negative, as on a clock that never goes back. */
  ghost predicate Timely(history: seq<Outcome>) {
    forall i :: 0 <= i < |history| && history[i].Success? ==> history[i].latencyMs >= 0
  }

  /**
   Every request is counted once by its outcome, and no reachable average or score is negative; each
   is a fraction as long as no latency is negative, and the success average always is.
   */
  lemma {:induction false} AlwaysFractions(history: seq<Outcome>)
    ensures var s := After(NEWCOMER, history);
            && s.requests == |history| == s.successes + s.failures + s.timeouts
            && 0.0 <= s.success <= 1.0 && 0.0 <= s.latency && 0.0 <= Score(s)
            && (Timely(history) ==> InUnit(s) && Score(s) <= 1.0)
  {
    if history != [] {
      AlwaysFractions(history[..|history| - 1]);
    }
  }

  ghost predicate AllFail(history: seq<Outcome>) {
    forall i :: 0 <= i < |history| ==> !history[i].Success?
  }

  ghost predicate AllSucceed(history: seq<Outcome>) {
    forall i :: 0 <= i < |history| ==> history[i].Success?
  }

  function Times(history: seq<Outcome>, o: Outcome -> bool): nat {
    if history == [] then 0 else Times(history[..|history| - 1], o) + (if o(history[|history| - 1]) then 1 else 0)
  }

  function Succeeded(o: Outcome): bool { o.Success? }
  function WasTimeout(o: Outcome): bool { o == TimedOut }
  function BrokeOff(o: Outcome): bool { o == Error || o == Disconnect }

  /** Each counter counts its own outcomes; errors and disconnects count alike. */
  lemma {:induction false} CountersAreExact(s: Standing, history: seq<Outcome>)
    ensures var after := After(s, history);
            && after.successes == s.successes + Times(history, Succeeded)
            && after.timeouts == s.timeouts + Times(history, WasTimeout)
            && after.failures == s.failures + Times(history, BrokeOff)
            && after.requests == s.requests + |history|
  {
    if history != [] {
      CountersAreExact(s, history[..|history| - 1]);
    }
  }

  function Decay(k: nat): (d: real)
    ensures 0.0 < d <= 1.0
  {
    if k == 0 then 1.0 else 0.8 * Decay(k - 1)
  }

  /** `k` failures in a row, of whatever kind, scale the success average by `0.8^k`. */
  lemma {:induction false} FailuresDecay(s: Standing, history: seq<Outcome>)
    requires AllFail(history)
    ensures After(s, history).success == Decay(|history|) * s.success
  {
    if history != [] {
      FailuresDecay(s, history[..|history| - 1]);
    }
  }

  /** `k` successes in a row scale its distance to one by `0.8^k`. */
  lemma {:induction false} SuccessesRecover(s: Standing, history: seq<Outcome>)
    requires AllSucceed(history)
    ensures 1.0 - After(s, history).success == Decay(|history|) * (1.0 - s.success)
  {
    if history != [] {
      SuccessesRecover(s, history[..|history| - 1]);
    }
  }

  /** The latency score falls from one at no latency to nothing at five seconds. */
  lemma LatencyScoreIs(latencyMs: int)
    ensures latencyMs >= 5000 ==> LatencyScore(latencyMs) == 0.0
    ensures latencyMs <= 5000 ==> LatencyScore(latencyMs) * 5000.0 == 5000.0 - latencyMs as real
  {
  }

  /** Errors and disconnects leave the latency average alone. */
  lemma {:induction false} LatencyStays(s: Standing, history: seq<Outcome>)
    requires forall i :: 0 <= i < |history| ==> BrokeOff(history[i])
    ensures After(s, history).latency == s.latency
  {
    if history != [] {
      LatencyStays(s, history[..|history| - 1]);
    }
  }

  /** `k` equal outcomes in a row, timeouts or successes of one latency, scale its distance to their score by `0.8^k`. */
  lemma {:induction false} LatencyMoves(s: Standing, history: seq<Outcome>, o: Outcome)
    requires (o.Success? || o.TimedOut?) && forall i :: 0 <= i < |history| ==> history[i] == o
    ensures var level := if o.Success? then LatencyScore(o.latencyMs) else 0.0;
            level - After(s, history).latency == Decay(|history|) * (level - s.latency)
  {
    hide LatencyScore, Blend;
    if history != [] {
      var level := if o.Success? then LatencyScore(o.latencyMs) else 0.0;
      var init := history[..|history| - 1];
      LatencyMoves(s, init, o);
      Towards(level, After(s, init).latency, Decay(|init|), level - s.latency);
    }
  }

  lemma Towards(level: real, average: real, d: real, gap: real)
    requires level - average == d * gap
    ensures level - Blend(level, average) == (0.8 * d) * gap
  {
    assert level - Blend(level, average) == 0.8 * (level - average);
  }

  lemma {:induction false} RequestsCounted(s: Standing, history: seq<Outcome>)
    ensures After(s, history).requests == s.requests + |history|
  {
    if history != [] {
      RequestsCounted(s, history[..|history| - 1]);
    }
  }

  lemma Scaled(d: real, x: real, most: real)
    requires 0.0 < d <= most && 0.0 <= x <= 1.0
    ensures 0.0 <= d * x <= most
  {
    assert d * x >= 0.0 && d * (1.0 - x) >= 0.0;
  }

  lemma {:induction false} DecayFalls(k: nat)
    requires k >= 4
    ensures Decay(k) <= 0.4096
  {
    if k == 4 {
      assert Decay(4) == 0.8 * Decay(3) && Decay(3) == 0.8 * Decay(2) && Decay(2) == 0.8 * Decay(1);
    } else {
      DecayFalls(k - 1);
    }
  }

  /** Four failures in a row degrade any provider seen often enough; four successes restore any provider. */
  lemma FourDecide(s: Standing, history: seq<Outcome>)
    requires InUnit(s) && |history| >= 4
    ensures AllFail(history) && s.requests + |history| >= 5 ==> Degraded(After(s, history))
    ensures AllSucceed(history) ==> !Degraded(After(s, history))
  {
    var d := Decay(|history|);
    DecayFalls(|history|);
    RequestsCounted(s, history);
    if AllFail(history) {
      FailuresDecay(s, history);
      Scaled(d, s.success, 0.4096);
    }
    if AllSucceed(history) {
      SuccessesRecover(s, history);
      Scaled(d, 1.0 - s.success, 0.4096);
    }
  }

  // --- The clock matters -----------------------------------------------------

  /** No measured latency lies below `least`. */
  ghost predicate AtLeast(history: seq<Outcome>, least: int) {
    forall i :: 0 <= i < |history| && history[i].Success? ==> history[i].latencyMs >= least
  }

  function Repeated(latencyMs: int, k: nat): (history: seq<Outcome>)
    ensures |history| == k && forall i :: 0 <= i < k ==> history[i] == Success(latencyMs)
  {
    seq(k, i => Success(latencyMs))
  }

  /** `k` equal latencies in a row scale the distance to their score by `0.8^k`. */
  lemma LatencyApproaches(latencyMs: int, k: nat)
    ensures var level := LatencyScore(latencyMs);
            level - After(NEWCOMER, Repeated(latencyMs, k)).latency == Decay(k) * (level - 0.5)
  {
    LatencyMoves(NEWCOMER, Repeated(latencyMs, k), Success(latencyMs));
  }

  /** `0.8^k` falls below any bound: at least as fast as `4 / (4 + k)`. */
  lemma {:induction false} DecayVanishes(k: nat)
    ensures Decay(k) * (4.0 + k as real) <= 4.0
  {
    if k > 0 {
      DecayVanishes(k - 1);
      var d, x := Decay(k - 1), 4.0 + (k - 1) as real;
      assert Decay(k) * (4.0 + k as real) == 0.8 * (d * x) + 0.8 * d;
      Scaled(d, 1.0, 1.0);
      assert d * (x - 4.0) >= 0.0;
    }
  }

  const ENOUGH: nat := 20_000

  /** Enough requests that seem to end before they start push the latency average over one. */
  lemma NegativeEscapes(latencyMs: int)
    requires latencyMs < 0
    ensures After(NEWCOMER, Repeated(latencyMs, ENOUGH)).latency > 1.0
  {
    hide After;
    LatencyApproaches(latencyMs, ENOUGH);
    DecayVanishes(ENOUGH);
    var d, excess := Decay(ENOUGH), LatencyScore(latencyMs) - 1.0;
    assert d * 20_004.0 <= 4.0;
    assert excess >= 0.0002;
    Overshoot(d, excess);
  }

  lemma Overshoot(d: real, excess: real)
    requires 0.0 < d && d * 20_004.0 <= 4.0 && excess >= 0.0002
    ensures d * (excess + 0.5) < excess
  {
    assert d <= 0.0002;
    assert d * excess <= 0.0002 * excess by {
      assert (0.0002 - d) * excess >= 0.0;
    }
  }

  /**
   Given only that no latency lies below a bound, every reachable average is a fraction exactly
   when that bound is not negative.
   */
  lemma FractionsIffNotNegative(least: int)
    ensures (forall history :: AtLeast(history, least) ==> InUnit(After(NEWCOMER, history))) <==> least >= 0
  {
    if least >= 0 {
      forall history | AtLeast(history, least) ensures InUnit(After(NEWCOMER, history)) {
        AlwaysFractions(history);
      }
    } else {
      NegativeEscapes(least);
      assert AtLeast(Repeated(least, ENOUGH), least);
    }
  }

  // --- The record kept for one provider --------------------------------------

  class ProviderReputation {
    var successRateEma: real
    var latencyScoreEma: real
    var totalRequests: nat
    var totalSuccesses: nat
    var totalFailures: nat
    var totalTimeouts: nat
    var recentOutcomes: seq<Outcome>
    ghost var history: seq<Outcome>

    constructor ()
      ensures Valid() && history == []
    {
      successRateEma, latencyScoreEma := 0.5, 0.5;
      totalRequests, totalSuccesses, totalFailures, totalTimeouts := 0, 0, 0, 0;
      recentOutcomes, history := [], [];
    }

    ghost function Summary(): Standing
      reads this
    {
      Standing(successRateEma, latencyScoreEma, totalRequests, totalSuccesses, totalFailures, totalTimeouts)
    }

    /** The fields are what the whole history makes them; only its last fifty outcomes are kept. */
    ghost predicate Valid()
      reads this
    {
      && Summary() == After(NEWCOMER, history)
      && recentOutcomes == LastFifty(history)
    }

    method RecordOutcome(outcome: Outcome)
      requires Valid()
      modifies this
      ensures Valid() && history == old(history) + [outcome]
    {
      hide After, Blend, LatencyScore, LastFifty;
      AfterSnoc(NEWCOMER, history, outcome);
      LastFiftySnoc(history, outcome);
      totalRequests := totalRequests + 1;
      recentOutcomes := recentOutcomes + [outcome];
      if |recentOutcomes| > HISTORY_LENGTH {
        recentOutcomes := recentOutcomes[1..];
      }
      history := history + [outcome];
      match outcome {
        case Success(latencyMs) =>
          totalSuccesses := totalSuccesses + 1;
          successRateEma := Blend(1.0, successRateEma);
          latencyScoreEma := Blend(LatencyScore(latencyMs), latencyScoreEma);
        case Error =>
          totalFailures := totalFailures + 1;
          successRateEma := Blend(0.0, successRateEma);
        case TimedOut =>
          totalTimeouts := totalTimeouts + 1;
          successRateEma := Blend(0.0, successRateEma);
          latencyScoreEma := Blend(0.0, latencyScoreEma);
        case Disconnect =>
          totalFailures := totalFailures + 1;
          successRateEma := Blend(0.0, successRateEma);
      }
    }
  }

  function LastFifty(history: seq<Outcome>): seq<Outcome> {
    if |history| <= HISTORY_LENGTH then history else history[|history| - HISTORY_LENGTH..]
  }

  lemma LastFiftyIs(history: seq<Outcome>)
    ensures |LastFifty(history)| == (if |history| <= 50 then |history| else 50)
    ensures LastFifty(history) == history[|history| - |LastFifty(history)|..]
  {
  }

  lemma LastFiftySnoc(history: seq<Outcome>, o: Outcome)
    ensures var longer := LastFifty(history) + [o];
            LastFifty(history + [o]) == if |longer| > HISTORY_LENGTH then longer[1..] else longer
  {
  }

  lemma AfterSnoc(s: Standing, history: seq<Outcome>, o: Outcome)
    ensures After(s, history + [o]) == Recorded(After(s, history), o)
  {
    hide Recorded;
    assert (history + [o])[..|history|] == history;
  }
}
