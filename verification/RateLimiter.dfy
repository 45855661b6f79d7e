/** Token buckets, one per consumer. Tokens, rates and the clock are exact reals. */
module RateLimiter {
  import opened Options
  import opened MatchingModels

  /** The two settings of a limiter: burst capacity and tokens per second. */
  datatype Plan = Plan(burst: NonNegative, rate: NonNegative)

  datatype Level = Level(tokens: real, last: real)

  function Min(a: real, b: real): real {
    if a <= b then a else b
  }

  /** Tokens available at `now`; a consumer not seen yet has a full bucket. */
  function Available(plan: Plan, level: Option<Level>, now: real): real {
    match level
    case None => plan.burst
    case Some(l) => Min(plan.burst, l.tokens + (now - l.last) * plan.rate)
  }

  function Spent(plan: Plan, level: Option<Level>, now: real): Level {
    var tokens := Available(plan, level, now);
    Level(if tokens >= 1.0 then tokens - 1.0 else tokens, now)
  }

  // --- One consumer's calls --------------------------------------------------

  /** The bucket after calls at `times`. */
  function Drained(plan: Plan, times: seq<real>): Option<Level> {
    if times == [] then None
    else Some(Spent(plan, Drained(plan, times[..|times| - 1]), times[|times| - 1]))
  }

  predicate Admits(plan: Plan, times: seq<real>, k: nat)
    requires k < |times|
  {
    Available(plan, Drained(plan, times[..k]), times[k]) >= 1.0
  }

  /** How many of the calls `i`, ..., `j - 1` were admitted. */
  function Admitted(plan: Plan, times: seq<real>, i: nat, j: nat): nat
    requires i <= j <= |times|
    decreases j
  {
    if i == j then 0 else Admitted(plan, times, i, j - 1) + (if Admits(plan, times, j - 1) then 1 else 0)
  }

  lemma {:induction false} AdmittedPrefix(plan: Plan, times: seq<real>, m: nat, i: nat, j: nat)
    requires i <= j <= m <= |times|
    ensures Admitted(plan, times[..m], i, j) == Admitted(plan, times, i, j)
    decreases j
  {
    if i < j {
      AdmittedPrefix(plan, times, m, i, j - 1);
      assert times[..m][..j - 1] == times[..j - 1];
    }
  }

  /** `x` tokens are within what call `i` and the admissions since leave at `now`. */
  ghost predicate Within(plan: Plan, times: seq<real>, x: real, now: real, i: nat)
    requires i < |times|
  {
    x <= plan.burst + plan.rate * (now - times[i]) - Admitted(plan, times, i, |times|) as real
  }

  lemma Rearranged(burst: real, rate: real, x: real, used: real, now: real, last: real, first: real, n: real)
    ensures x + used - (now - last) * rate <= burst + rate * (last - first) - n
            <==> x <= burst + rate * (now - first) - (n + used)
    ensures x + used - (now - last) * rate <= burst <==> x <= burst + rate * (now - last) - used
  {
    assert rate * (last - first) + (now - last) * rate == rate * (now - first);
  }

  lemma WithinStep(plan: Plan, times: seq<real>, x: real, now: real, i: nat)
    requires i < |times|
    ensures var n := |times| - 1;
            var used := if Admits(plan, times, n) then 1.0 else 0.0;
            var earlier := x + used - (now - times[n]) * plan.rate;
            && (i < n ==> (Within(plan, times, x, now, i) <==> Within(plan, times[..n], earlier, times[n], i)))
            && (i == n ==> (Within(plan, times, x, now, i) <==> earlier <= plan.burst))
  {
    hide Admits;
    var n := |times| - 1;
    var used := if Admits(plan, times, n) then 1.0 else 0.0;
    AdmittedPrefix(plan, times, n, if i < n then i else n, n);
    var count := Admitted(plan, times, i, n) as real;
    assert Admitted(plan, times, i, n + 1) as real == count + used;
    Rearranged(plan.burst, plan.rate, x, used, now, times[n], times[i], count);
  }

  /**
   The bucket holds at least `x` tokens exactly when every earlier call, counted with the
   admissions since, leaves room for them: the bucket forgets nothing and invents nothing.
   */
  lemma {:induction false} LevelIs(plan: Plan, times: seq<real>, now: real, x: real)
    ensures Available(plan, Drained(plan, times), now) >= x
            <==> x <= plan.burst && forall i :: 0 <= i < |times| ==> Within(plan, times, x, now, i)
  {
    if times != [] {
      var n := |times| - 1;
      var used := if Admits(plan, times, n) then 1.0 else 0.0;
      var earlier := x + used - (now - times[n]) * plan.rate;
      LevelIs(plan, times[..n], times[n], earlier);
      LevelStep(plan, times, now, x, earlier);
      hide Within, Available, Drained, Admits;
      forall i | 0 <= i <= n
        ensures i < n ==> (Within(plan, times, x, now, i) <==> Within(plan, times[..n], earlier, times[n], i))
        ensures i == n ==> (Within(plan, times, x, now, i) <==> earlier <= plan.burst)
      {
        WithinStep(plan, times, x, now, i);
      }
      assert Within(plan, times, x, now, n) <==> earlier <= plan.burst;
    }
  }

  lemma DrainedStep(plan: Plan, times: seq<real>)
    requires times != []
    ensures var n := |times| - 1;
            Drained(plan, times)
            == Some(Level(Available(plan, Drained(plan, times[..n]), times[n])
                          - (if Admits(plan, times, n) then 1.0 else 0.0), times[n]))
  {
    hide Available;
  }

  lemma AvailableAtLeast(plan: Plan, level: Level, now: real, x: real)
    ensures Available(plan, Some(level), now) >= x
            <==> x <= plan.burst && x <= level.tokens + (now - level.last) * plan.rate
  {
  }

  lemma LevelStep(plan: Plan, times: seq<real>, now: real, x: real, earlier: real)
    requires times != []
    requires var n := |times| - 1;
             earlier == x + (if Admits(plan, times, n) then 1.0 else 0.0) - (now - times[n]) * plan.rate
    ensures var n := |times| - 1;
            Available(plan, Drained(plan, times), now) >= x
            <==> x <= plan.burst && Available(plan, Drained(plan, times[..n]), times[n]) >= earlier
  {
    hide Drained, Admits, Available;
    DrainedStep(plan, times);
    AvailableAtLeast(plan, Drained(plan, times).value, now, x);
  }

  // --- What the source promises ----------------------------------------------

  /** A call is refused only when admitting it would overdraw some window that ends with it. */
  lemma AdmitsIff(plan: Plan, times: seq<real>, k: nat)
    requires k < |times|
    ensures Admits(plan, times, k)
            <==> 1.0 <= plan.burst
                 && forall i :: 0 <= i < k ==>
                      Admitted(plan, times, i, k) as real + 1.0 <= plan.burst + plan.rate * (times[k] - times[i])
  {
    LevelIs(plan, times[..k], times[k], 1.0);
    assert Admits(plan, times, k) <==> Available(plan, Drained(plan, times[..k]), times[k]) >= 1.0;
    hide Drained, Available, Admits, Admitted, Within;
    forall i | 0 <= i < k
      ensures Within(plan, times[..k], 1.0, times[k], i)
              <==> Admitted(plan, times, i, k) as real + 1.0 <= plan.burst + plan.rate * (times[k] - times[i])
    {
      WithinPrefix(plan, times, k, i);
    }
  }

  lemma WithinPrefix(plan: Plan, times: seq<real>, k: nat, i: nat)
    requires i < k < |times|
    ensures Within(plan, times[..k], 1.0, times[k], i)
            <==> Admitted(plan, times, i, k) as real + 1.0 <= plan.burst + plan.rate * (times[k] - times[i])
  {
    hide Admitted;
    AdmittedPrefix(plan, times, k, i, k);
    assert times[..k][i] == times[i] && |times[..k]| == k;
  }

  /** A longer window earns no less. */
  lemma Earns(plan: Plan, n: real, short: real, long: real)
    requires short <= long && 0.0 <= long
    ensures n <= plan.burst + plan.rate * short ==> n <= plan.burst + plan.rate * long
    ensures 0.0 <= plan.burst + plan.rate * long
  {
    assert plan.rate * (long - short) >= 0.0 && plan.rate * long >= 0.0;
    assert plan.rate * long == plan.rate * short + plan.rate * (long - short);
  }

  lemma RoomFor(plan: Plan, times: seq<real>, i: nat, k: nat)
    requires i <= k < |times| && Admits(plan, times, k)
    ensures Admitted(plan, times, i, k + 1) as real <= plan.burst + plan.rate * (times[k] - times[i])
  {
    hide Admits;
    AdmitsIff(plan, times, k);
    assert Admitted(plan, times, i, k + 1) == Admitted(plan, times, i, k) + 1;
    if i == k {
      NoTime(plan.rate, times[k] - times[i]);
    }
  }

  lemma NoTime(rate: real, elapsed: real)
    requires elapsed == 0.0
    ensures rate * elapsed == 0.0
  {
  }

  /** How many of the calls `i`, ..., `j - 1` read the clock between `s` and `t` and were admitted. */
  function AdmittedWithin(plan: Plan, times: seq<real>, i: nat, j: nat, s: real, t: real): nat
    requires i <= j <= |times|
    decreases j
  {
    if i == j then 0
    else AdmittedWithin(plan, times, i, j - 1, s, t) + (if s <= times[j - 1] <= t && Admits(plan, times, j - 1) then 1 else 0)
  }

  /** They are among all admissions since the first of them. */
  lemma {:induction false} FirstWithin(plan: Plan, times: seq<real>, i: nat, j: nat, s: real, t: real) returns (f: nat)
    requires i <= j <= |times| && AdmittedWithin(plan, times, i, j, s, t) > 0
    ensures i <= f < j && s <= times[f] <= t
    ensures AdmittedWithin(plan, times, i, j, s, t) <= Admitted(plan, times, f, j)
    decreases j
  {
    hide Admits;
    if AdmittedWithin(plan, times, i, j - 1, s, t) > 0 {
      f := FirstWithin(plan, times, i, j - 1, s, t);
    } else {
      f := j - 1;
      assert Admitted(plan, times, f, f) == 0;
    }
  }

  /**
   Of any calls in a row, at most the burst plus what the rate earns from `s` to `t` is admitted at a
   reading between `s` and `t`, even if the clock goes back and forth.
   */
  lemma {:induction false} WindowBound(plan: Plan, times: seq<real>, i: nat, j: nat, s: real, t: real)
    requires i <= j <= |times| && s <= t
    ensures AdmittedWithin(plan, times, i, j, s, t) as real <= plan.burst + plan.rate * (t - s)
    decreases j
  {
    hide Admits, Admitted;
    var most := plan.burst + plan.rate * (t - s);
    if i == j {
      Earns(plan, 0.0, 0.0, t - s);
      assert most >= 0.0;
    } else if s <= times[j - 1] <= t && Admits(plan, times, j - 1) {
      var f := FirstWithin(plan, times, i, j, s, t);
      RoomFor(plan, times, f, j - 1);
      var count := Admitted(plan, times, f, j) as real;
      Earns(plan, count, times[j - 1] - times[f], t - s);
      assert count <= most;
    } else {
      WindowBound(plan, times, i, j - 1, s, t);
    }
  }

  // --- Many consumers --------------------------------------------------------

  datatype Event = Call(consumer: string, now: real) | Reset(consumer: string)

  type Levels = map<string, Level>

  function LevelOf(levels: Levels, consumer: string): Option<Level> {
    if consumer in levels then Some(levels[consumer]) else None
  }

  function Next(plan: Plan, levels: Levels, e: Event): Levels {
    match e
    case Call(c, now) => levels[c := Spent(plan, LevelOf(levels, c), now)]
    case Reset(c) => levels - {c}
  }

  function After(plan: Plan, run: seq<Event>): Levels {
    if run == [] then map[] else Next(plan, After(plan, run[..|run| - 1]), run[|run| - 1])
  }

  /** The times of one consumer's calls since its last reset. */
  function CallsOf(run: seq<Event>, consumer: string): seq<real> {
    if run == [] then []
    else
      var before, e := CallsOf(run[..|run| - 1], consumer), run[|run| - 1];
      if e.consumer != consumer then before
      else if e.Call? then before + [e.now]
      else []
  }

  /** What a consumer is allowed depends on its own calls since its last reset, and on nobody else's. */
  lemma {:induction false} ConsumersIndependent(plan: Plan, run: seq<Event>, consumer: string)
    ensures LevelOf(After(plan, run), consumer) == Drained(plan, CallsOf(run, consumer))
  {
    if run != [] {
      var before, e := run[..|run| - 1], run[|run| - 1];
      ConsumersIndependent(plan, before, consumer);
      if e.Call? {
        var calls := CallsOf(before, consumer);
        assert (calls + [e.now])[..|calls|] == calls;
      }
    }
  }

  /** Event `k` is an allowed call of the consumer at a reading between `s` and `t`. */
  predicate Allowed(plan: Plan, run: seq<Event>, k: nat, consumer: string, s: real, t: real)
    requires k < |run|
  {
    run[k].Call? && run[k].consumer == consumer && s <= run[k].now <= t
    && Available(plan, LevelOf(After(plan, run[..k]), consumer), run[k].now) >= 1.0
  }

  /** How many of the events `p`, ..., `q - 1` are. */
  function AllowedWithin(plan: Plan, run: seq<Event>, p: nat, q: nat, consumer: string, s: real, t: real): nat
    requires p <= q <= |run|
    decreases q
  {
    if p == q then 0
    else AllowedWithin(plan, run, p, q - 1, consumer, s, t) + (if Allowed(plan, run, q - 1, consumer, s, t) then 1 else 0)
  }

  ghost predicate NotReset(run: seq<Event>, p: nat, q: nat, consumer: string)
    requires p <= q <= |run|
  {
    forall k :: p <= k < q ==> run[k] != Reset(consumer)
  }

  lemma CallsStep(run: seq<Event>, q: nat, consumer: string)
    requires 0 < q <= |run|
    ensures var before, e := CallsOf(run[..q - 1], consumer), run[q - 1];
            CallsOf(run[..q], consumer)
            == if e.consumer != consumer then before else if e.Call? then before + [e.now] else []
  {
    assert run[..q][..q - 1] == run[..q - 1];
  }

  lemma {:induction false} AdmittedWithinPrefix(plan: Plan, times: seq<real>, m: nat, i: nat, j: nat, s: real, t: real)
    requires i <= j <= m <= |times|
    ensures AdmittedWithin(plan, times[..m], i, j, s, t) == AdmittedWithin(plan, times, i, j, s, t)
    decreases j
  {
    if i < j {
      AdmittedWithinPrefix(plan, times, m, i, j - 1, s, t);
      assert times[..m][..j - 1] == times[..j - 1];
    }
  }

  /** A part of the run appends its calls to the consumer's, and allows as many as the bucket admits. */
  lemma {:induction false} PartOfRun(plan: Plan, run: seq<Event>, p: nat, q: nat, consumer: string, s: real, t: real)
    requires p <= q <= |run| && NotReset(run, p, q, consumer)
    ensures var i, times := |CallsOf(run[..p], consumer)|, CallsOf(run[..q], consumer);
            i <= |times| && AllowedWithin(plan, run, p, q, consumer, s, t) == AdmittedWithin(plan, times, i, |times|, s, t)
    decreases q
  {
    hide CallsOf, After, Available, Drained;
    if p < q {
      PartOfRun(plan, run, p, q - 1, consumer, s, t);
      CallsStep(run, q, consumer);
      if run[q - 1].consumer == consumer {
        var i, before := |CallsOf(run[..p], consumer)|, CallsOf(run[..q - 1], consumer);
        var times := before + [run[q - 1].now];
        ConsumersIndependent(plan, run[..q - 1], consumer);
        AdmittedWithinPrefix(plan, times, |before|, i, |before|, s, t);
        assert times[..|before|] == before;
      }
    }
  }

  /**
   In any part of any run of all consumers' calls and resets, without a reset of this one: of its
   calls that read the clock between `s` and `t`, at most the burst plus what the rate earns in that
   time is allowed.
   */
  lemma RunBound(plan: Plan, run: seq<Event>, p: nat, q: nat, consumer: string, s: real, t: real)
    requires p <= q <= |run| && s <= t && NotReset(run, p, q, consumer)
    ensures AllowedWithin(plan, run, p, q, consumer, s, t) as real <= plan.burst + plan.rate * (t - s)
  {
    hide NotReset, AllowedWithin, AdmittedWithin, CallsOf;
    PartOfRun(plan, run, p, q, consumer, s, t);
    var times := CallsOf(run[..q], consumer);
    WindowBound(plan, times, |CallsOf(run[..p], consumer)|, |times|, s, t);
  }

  /** The quoted remainder is at least one exactly when a call at that instant would be admitted. */
  lemma RemainingIsExact(plan: Plan, run: seq<Event>, consumer: string, now: real)
    ensures Available(plan, LevelOf(After(plan, run), consumer), now) >= 1.0
            <==> Admits(plan, CallsOf(run, consumer) + [now], |CallsOf(run, consumer)|)
  {
    var calls := CallsOf(run, consumer);
    ConsumersIndependent(plan, run, consumer);
    assert (calls + [now])[..|calls|] == calls;
  }

  // --- The limiter itself ----------------------------------------------------

  lemma NewBucketIsFull(plan: Plan, now: real)
    ensures Available(plan, Some(Level(plan.burst, now)), now) == plan.burst == Available(plan, None, now)
  {
  }

  class TokenBucket {
    const maxTokens: NonNegative
    const refillRate: NonNegative
    var tokens: real
    var lastRefill: real

    constructor (maxTokens: NonNegative, refillRate: NonNegative, now: real)
      ensures this.maxTokens == maxTokens && this.refillRate == refillRate
      ensures tokens == maxTokens && lastRefill == now
    {
      this.maxTokens, this.refillRate := maxTokens, refillRate;
      tokens, lastRefill := maxTokens, now;
    }

    ghost function Settings(): Plan {
      Plan(maxTokens, refillRate)
    }

    ghost function AsLevel(): Level
      reads this
    {
      Level(tokens, lastRefill)
    }

    method Consume(amount: real, now: real) returns (allowed: bool)
      modifies this
      ensures var available := Available(Settings(), Some(old(AsLevel())), now);
              && allowed == (available >= amount)
              && AsLevel() == Level(if allowed then available - amount else available, now)
    {
      ghost var available := Available(Settings(), Some(AsLevel()), now);
      var elapsed := now - lastRefill;
      tokens := Min(maxTokens, tokens + elapsed * refillRate);
      lastRefill := now;
      assert tokens == available;
      allowed := tokens >= amount;
      if allowed {
        tokens := tokens - amount;
      }
    }

    function Remaining(now: real): (left: real)
      reads this
      ensures left == Available(Settings(), Some(AsLevel()), now)
    {
      Min(maxTokens, tokens + (now - lastRefill) * refillRate)
    }
  }

  class RateLimiter {
    const burst: NonNegative
    const refillRate: NonNegative
    var buckets: map<string, TokenBucket>

    constructor (requestsPerMinute: NonNegative, burst: nat)
      ensures Valid() && Levels() == map[]
      ensures Settings() == Plan(burst as real, requestsPerMinute / 60.0)
    {
      this.burst, this.refillRate := burst as real, requestsPerMinute / 60.0;
      buckets := map[];
    }

    function Settings(): Plan {
      Plan(burst, refillRate)
    }

    ghost predicate Valid()
      reads this
    {
      && (forall c :: c in buckets ==> buckets[c].Settings() == Settings())
      && (forall c, d :: c in buckets && d in buckets && c != d ==> buckets[c] != buckets[d])
    }

    ghost function Levels(): Levels
      reads this, buckets.Values
    {
      map c | c in buckets :: buckets[c].AsLevel()
    }

    /** The consumer's bucket, made on its first call. */
    method BucketFor(consumer: string, now: real) returns (bucket: TokenBucket)
      requires Valid()
      modifies this
      ensures Valid() && consumer in buckets && buckets[consumer] == bucket
      ensures if consumer in old(buckets) then buckets == old(buckets)
              else fresh(bucket) && buckets == old(buckets)[consumer := bucket]
      ensures Available(Settings(), Some(bucket.AsLevel()), now)
              == Available(Settings(), LevelOf(old(Levels()), consumer), now)
    {
      hide Available;
      if consumer !in buckets {
        bucket := new TokenBucket(burst, refillRate, now);
        buckets := buckets[consumer := bucket];
        NewBucketIsFull(Settings(), now);
      } else {
        bucket := buckets[consumer];
      }
    }

    method Allow(consumer: string, now: real) returns (allowed: bool)
      requires Valid()
      modifies this, buckets.Values
      ensures Valid() && fresh(buckets.Values - old(buckets.Values))
      ensures allowed == (Available(Settings(), LevelOf(old(Levels()), consumer), now) >= 1.0)
      ensures Levels() == Next(Settings(), old(Levels()), Call(consumer, now))
    {
      hide Available;
      ghost var level := LevelOf(old(Levels()), consumer);
      var bucket := BucketFor(consumer, now);
      allowed := bucket.Consume(1.0, now);
      assert bucket.AsLevel() == Spent(Settings(), level, now);
      hide Spent;
    }

    method Remaining(consumer: string, now: real) returns (left: real)
      requires Valid()
      ensures left == Available(Settings(), LevelOf(Levels(), consumer), now)
    {
      if consumer !in buckets {
        return burst;
      }
      left := buckets[consumer].Remaining(now);
    }

    method Reset(consumer: string)
      requires Valid()
      modifies this
      ensures Valid() && buckets.Values <= old(buckets.Values)
      ensures Levels() == Next(Settings(), old(Levels()), Event.Reset(consumer))
    {
      buckets := buckets - {consumer};
    }
  }
}
