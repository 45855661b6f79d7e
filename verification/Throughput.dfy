/** Observed tokens per second of one provider and model. */
module Throughput {
  import opened Options

  const ALPHA := 0.15
  const KEPT: nat := 100

  datatype Request = Request(tokens: int, seconds: real) {
    /** Requests without tokens or time say nothing about speed. */
    predicate Measurable() {
      seconds > 0.0 && tokens > 0
    }

    function Tps(): (tps: real)
      requires Measurable()
      ensures tps > 0.0
    {
      tokens as real / seconds
    }
  }

  /** Speeds of the measurable requests, in order. */
  function Speeds(history: seq<Request>): (speeds: seq<real>)
    ensures forall i :: 0 <= i < |speeds| ==> speeds[i] > 0.0
  {
    if history == [] then []
    else
      var last := history[|history| - 1];
      Speeds(history[..|history| - 1]) + (if last.Measurable() then [last.Tps()] else [])
  }

  /** The first speed seeds the average; each later one moves it by 15%. */
  function Average(speeds: seq<real>): real {
    if speeds == [] then 0.0
    else if |speeds| == 1 then speeds[0]
    else ALPHA * speeds[|speeds| - 1] + (1.0 - ALPHA) * Average(speeds[..|speeds| - 1])
  }

  function Least(speeds: seq<real>): (least: real)
    requires speeds != []
    ensures least in speeds && forall i :: 0 <= i < |speeds| ==> least <= speeds[i]
  {
    var n := |speeds| - 1;
    if n == 0 then speeds[0]
    else
      var before := Least(speeds[..n]);
      assert before in speeds[..n];
      assert forall i :: 0 <= i < n ==> speeds[..n][i] == speeds[i];
      if speeds[n] < before then speeds[n] else before
  }

  function Greatest(speeds: seq<real>): (greatest: real)
    requires speeds != []
    ensures greatest in speeds && forall i :: 0 <= i < |speeds| ==> greatest >= speeds[i]
  {
    var n := |speeds| - 1;
    if n == 0 then speeds[0]
    else
      var before := Greatest(speeds[..n]);
      assert before in speeds[..n];
      assert forall i :: 0 <= i < n ==> speeds[..n][i] == speeds[i];
      if speeds[n] > before then speeds[n] else before
  }

  /** The average never leaves the range of the speeds observed. */
  lemma {:induction false} AverageInRange(speeds: seq<real>, low: real, high: real)
    requires speeds != []
    requires forall i :: 0 <= i < |speeds| ==> low <= speeds[i] <= high
    ensures low <= Average(speeds) <= high
  {
    if |speeds| > 1 {
      AverageInRange(speeds[..|speeds| - 1], low, high);
    }
  }

  class ProviderModelTps {
    const estimated: real
    var observedEma: real
    var measurements: seq<real>
    var totalRequests: nat
    var totalTokens: int
    /** Absent until the first measurement; the source starts it at infinity. */
    var minObserved: Option<real>
    var maxObserved: real
    ghost var history: seq<Request>

    constructor (estimated: real)
      ensures Valid() && history == [] && this.estimated == estimated
    {
      this.estimated := estimated;
      observedEma, measurements, totalRequests, totalTokens := 0.0, [], 0, 0;
      minObserved, maxObserved, history := None, 0.0, [];
    }

    /** What the fields say about a list of speeds. */
    ghost predicate Summarises(speeds: seq<real>)
      reads this
    {
      && totalRequests == |speeds|
      && observedEma == Average(speeds)
      && measurements == Last(speeds)
      && (speeds == [] ==> minObserved == None && maxObserved == 0.0)
      && (speeds != [] ==> minObserved == Some(Least(speeds)) && maxObserved == Greatest(speeds))
    }

    ghost predicate Valid()
      reads this
    {
      Summarises(Speeds(history))
    }

    /** Takes one more speed into the summary. */
    method Measure(tps: real, ghost speeds: seq<real>)
      requires Summarises(speeds) && tps > 0.0 && forall i :: 0 <= i < |speeds| ==> speeds[i] > 0.0
      modifies this
      ensures Summarises(speeds + [tps]) && history == old(history) && totalTokens == old(totalTokens)
    {
      hide Average, Least, Greatest, Last;
      SummarySnoc(speeds, tps);
      LastSnoc(speeds, tps);
      measurements := measurements + [tps];
      if |measurements| > KEPT {
        measurements := measurements[1..];
      }
      totalRequests := totalRequests + 1;
      if observedEma == 0.0 {
        observedEma := tps;
      } else {
        observedEma := ALPHA * tps + (1.0 - ALPHA) * observedEma;
      }
      minObserved := if minObserved.None? || tps < minObserved.value then Some(tps) else minObserved;
      maxObserved := if tps > maxObserved then tps else maxObserved;
    }

    /** Requests without tokens or time are ignored. */
    method Record(request: Request)
      requires Valid()
      modifies this
      ensures Valid() && history == old(history) + [request]
      ensures totalTokens == old(totalTokens) + if request.seconds > 0.0 && request.tokens > 0 then request.tokens else 0
    {
      hide Speeds, Request.Tps, Average, Least, Greatest, Last;
      ghost var speeds := Speeds(history);
      SpeedsSnoc(history, request);
      assert speeds + [] == speeds;
      if request.seconds > 0.0 && request.tokens > 0 {
        Measure(request.Tps(), speeds);
        totalTokens := totalTokens + request.tokens;
      }
      history := history + [request];
    }

    /** The speed to route by: observed after three measurements, blended with the estimate before. */
    function Effective(): real
      reads this
    {
      if totalRequests >= 3 then observedEma
      else if totalRequests > 0 then
        var weight := totalRequests as real / 3.0;
        weight * observedEma + (1.0 - weight) * estimated
      else estimated
    }

    predicate Anomalous()
      reads this
    {
      && totalRequests >= 5
      && measurements != []
      && measurements[|measurements| - 1] < observedEma * 0.5
    }

    /** The estimate counts for three measurements less those made: nothing from the third on. */
    lemma EffectiveIs()
      requires Valid()
      ensures var n, observed := |Speeds(history)|, Average(Speeds(history));
              && (n == 0 ==> Effective() == estimated)
              && (n == 1 ==> 3.0 * Effective() == observed + 2.0 * estimated)
              && (n == 2 ==> 3.0 * Effective() == 2.0 * observed + estimated)
              && (n >= 3 ==> Effective() == observed)
    {
      hide Speeds, Average, Least, Greatest;
    }

    /** The speed routed by stays within what was estimated and observed. */
    lemma EffectiveInRange(low: real, high: real)
      requires Valid() && low <= estimated <= high
      requires totalRequests > 0 ==> low <= minObserved.value && maxObserved <= high
      ensures low <= Effective() <= high
    {
      var speeds := Speeds(history);
      if speeds != [] {
        AverageInRange(speeds, low, high);
        hide Speeds, Average, Least, Greatest;
        if totalRequests == 1 {
          assert Effective() == observedEma / 3.0 + estimated * 2.0 / 3.0;
        } else if totalRequests == 2 {
          assert Effective() == observedEma * 2.0 / 3.0 + estimated / 3.0;
        }
      }
    }

    /**
     The average compared with already contains the latest speed, so an anomaly is reported exactly
     below 17/37 (46%) of the average before it, not below one half.
     */
    lemma AnomalousIff(init: seq<real>, tps: real)
      requires Valid() && Speeds(history) == init + [tps] && |init| >= 4
      ensures Anomalous() <==> 37.0 * tps < 17.0 * Average(init)
    {
      var speeds := Speeds(history);
      hide Speeds;
      assert speeds[..|init|] == init;
      assert Average(speeds) == ALPHA * tps + (1.0 - ALPHA) * Average(init);
    }
  }

  /** A request adds its tokens per second, unless it took no time or made no tokens. */
  lemma SpeedsSnoc(history: seq<Request>, r: Request)
    ensures Speeds(history + [r]) == Speeds(history) + (if r.Measurable() then [r.Tps()] else [])
    ensures r.seconds > 0.0 && r.tokens >= 1 ==> Speeds(history + [r]) == Speeds(history) + [r.tokens as real / r.seconds]
    ensures r.seconds <= 0.0 || r.tokens <= 0 ==> Speeds(history + [r]) == Speeds(history)
  {
    assert (history + [r])[..|history|] == history;
  }

  function Last(speeds: seq<real>): seq<real> {
    if |speeds| <= KEPT then speeds else speeds[|speeds| - KEPT..]
  }

  /** The latest hundred, or all of them. */
  lemma LastIs(speeds: seq<real>)
    ensures |Last(speeds)| == (if |speeds| <= 100 then |speeds| else 100)
    ensures Last(speeds) == speeds[|speeds| - |Last(speeds)|..]
  {
  }

  lemma LastSnoc(speeds: seq<real>, tps: real)
    ensures var longer := Last(speeds) + [tps];
            Last(speeds + [tps]) == if |longer| > KEPT then longer[1..] else longer
  {
  }

  /** One more speed: the average is zero only before the first, so it is never seeded twice. */
  lemma SummarySnoc(speeds: seq<real>, tps: real)
    requires tps > 0.0 && forall i :: 0 <= i < |speeds| ==> speeds[i] > 0.0
    ensures Average(speeds + [tps]) == if speeds == [] then tps else ALPHA * tps + (1.0 - ALPHA) * Average(speeds)
    ensures Least(speeds + [tps]) == if speeds == [] || tps < Least(speeds) then tps else Least(speeds)
    ensures Greatest(speeds + [tps]) == if speeds == [] || tps > Greatest(speeds) then tps else Greatest(speeds)
    ensures Average(speeds) == 0.0 <==> speeds == []
    ensures speeds != [] ==> Greatest(speeds) > 0.0
  {
    SummaryIsPositive(speeds);
    assert (speeds + [tps])[..|speeds|] == speeds;
  }

  lemma SummaryIsPositive(speeds: seq<real>)
    requires forall i :: 0 <= i < |speeds| ==> speeds[i] > 0.0
    ensures Average(speeds) == 0.0 <==> speeds == []
    ensures speeds != [] ==> Greatest(speeds) > 0.0
  {
    if speeds != [] {
      AverageInRange(speeds, Least(speeds), Greatest(speeds));
    }
  }
}
