/** The arithmetic of a charge: three-tier pricing, floors, the minimum and the 90/10 split. */
module Charging {

  const MICRO_PER_DOLLAR: real := 1_000_000.0
  const MIN_CHARGE_MICRO: int := 100
  const PLATFORM_FEE_PERCENT: int := 10
  const MAX_PRICE: real := 100.0

  /** Conversion to an integer, towards zero. */
  function Truncate(x: real): int {
    if x >= 0.0 then x.Floor else -((-x).Floor)
  }

  function Price(tokens: int, perMillion: real): real {
    (tokens as real / 1_000_000.0) * perMillion * MICRO_PER_DOLLAR
  }

  /** The token counts and per-million-token prices of one request; a zero cache price means "as input". */
  datatype Request = Request(
    inputTokens: int, outputTokens: int, cachedTokens: int,
    inputPrice: real, outputPrice: real, cachePrice: real)
  {
    function CacheRate(): real {
      if cachePrice > 0.0 then cachePrice else inputPrice
    }

    function FreshInput(): int {
      if inputTokens - cachedTokens > 0 then inputTokens - cachedTokens else 0
    }

    /** What the request would cost without rounding or minimum. */
    function ExactPrice(): real {
      Price(FreshInput(), inputPrice) + Price(cachedTokens, CacheRate()) + Price(outputTokens, outputPrice)
    }

    predicate FairPrices() {
      inputPrice >= 0.0 && outputPrice >= 0.0 && cachePrice >= 0.0
    }

    /** Prices that a registration admits. Nothing bounds the counts: a completion reports any integers. */
    predicate Registered() {
      FairPrices() && inputPrice <= MAX_PRICE && outputPrice <= MAX_PRICE && cachePrice <= MAX_PRICE
    }
  }

  datatype Bill = Bill(cost: int, earning: int, fee: int, costInput: int, costCache: int, costOutput: int)

  function Minimum(cost: int): int {
    if cost > MIN_CHARGE_MICRO then cost else MIN_CHARGE_MICRO
  }

  function FeeOf(cost: int): int {
    cost * PLATFORM_FEE_PERCENT / 100
  }

  /** The persistent store's bill. */
  function StoreBill(r: Request): (b: Bill)
    ensures b.cost >= MIN_CHARGE_MICRO && b.earning + b.fee == b.cost && 0 <= b.fee <= b.earning
  {
    var input := Truncate(Price(r.FreshInput(), r.inputPrice));
    var cache := Truncate(Price(r.cachedTokens, r.CacheRate()));
    var output := Truncate(Price(r.outputTokens, r.outputPrice));
    var cost := Minimum(input + cache + output);
    Bill(cost, cost - FeeOf(cost), FeeOf(cost), input, cache, output)
  }

  /** The in-memory ledger's cost: two tiers, rounded once. */
  function MemoryCost(inputTokens: int, outputTokens: int, inputPrice: real, outputPrice: real): int {
    Minimum(Truncate(Price(inputTokens, inputPrice) + Price(outputTokens, outputPrice)))
  }

  lemma PriceIsProduct(tokens: int, rate: real)
    ensures Price(tokens, rate) == tokens as real * rate
    ensures tokens >= 0 && rate >= 0.0 ==> Price(tokens, rate) >= 0.0
  {
    var t := tokens as real;
    assert (t / 1_000_000.0) * rate * 1_000_000.0 == t * rate;
  }

  lemma PriceGrows(tokens: int, low: real, high: real)
    requires tokens >= 0 && 0.0 <= low <= high
    ensures Price(tokens, low) <= Price(tokens, high)
  {
    PriceIsProduct(tokens, low);
    PriceIsProduct(tokens, high);
    assert tokens as real * (high - low) >= 0.0;
  }

  lemma PriceAdds(a: int, b: int, rate: real)
    ensures Price(a, rate) + Price(b, rate) == Price(a + b, rate)
  {
    PriceIsProduct(a, rate);
    PriceIsProduct(b, rate);
    PriceIsProduct(a + b, rate);
    assert (a + b) as real == a as real + b as real;
  }

  lemma PriceSign(tokens: int, rate: real)
    requires rate >= 0.0
    ensures tokens >= 0 ==> Price(tokens, rate) >= 0.0
    ensures tokens <= 0 ==> Price(tokens, rate) <= 0.0
  {
    PriceIsProduct(tokens, rate);
    if tokens <= 0 {
      assert (-tokens) as real * rate >= 0.0;
    }
  }

  lemma NoTokensNoPrice(rate: real)
    ensures Price(0, rate) == 0.0
  {
    PriceIsProduct(0, rate);
  }

  function AtLeastZero(n: int): nat {
    if n >= 0 then n else 0
  }

  // --- What each tier costs --------------------------------------------------

  /** `n` is `x` rounded towards zero. */
  predicate TowardsZero(n: int, x: real) {
    if x >= 0.0 then n as real <= x < n as real + 1.0 else n as real - 1.0 < x <= n as real
  }

  function Product(tokens: int, rate: real): real {
    tokens as real * rate
  }

  lemma ProductAdds(a: int, b: int, rate: real)
    ensures Product(a, rate) + Product(b, rate) == Product(a + b, rate)
  {
  }

  lemma TruncateIsTowardsZero(x: real)
    ensures TowardsZero(Truncate(x), x)
  {
  }

  /**
   The three tiers of a bill, told from the counts and prices: what input is not cached costs the
   input price, what is cached the cache price if there is one and else the input price, and each is
   rounded towards zero by itself. The fee is a tenth of the cost, rounded down.
   */
  lemma BillIsExact(r: Request)
    ensures var b := StoreBill(r);
            && (r.inputTokens >= r.cachedTokens ==> TowardsZero(b.costInput, Product(r.inputTokens - r.cachedTokens, r.inputPrice)))
            && (r.inputTokens <= r.cachedTokens ==> b.costInput == 0)
            && (r.cachePrice > 0.0 ==> TowardsZero(b.costCache, Product(r.cachedTokens, r.cachePrice)))
            && (r.cachePrice <= 0.0 ==> TowardsZero(b.costCache, Product(r.cachedTokens, r.inputPrice)))
            && TowardsZero(b.costOutput, Product(r.outputTokens, r.outputPrice))
            && b.cost >= 100 && b.cost >= b.costInput + b.costCache + b.costOutput
            && b.cost in {100, b.costInput + b.costCache + b.costOutput}
            && b.earning + b.fee == b.cost && 10 * b.fee <= b.cost < 10 * b.fee + 10
  {
    TierIsExact(r.FreshInput(), r.inputPrice);
    TierIsExact(r.cachedTokens, r.CacheRate());
    TierIsExact(r.outputTokens, r.outputPrice);
    NoTokensNoPrice(r.inputPrice);
    hide Price, TowardsZero, Product;
  }

  lemma TierIsExact(tokens: int, rate: real)
    ensures TowardsZero(Truncate(Price(tokens, rate)), Product(tokens, rate))
  {
    PriceIsProduct(tokens, rate);
    TruncateIsTowardsZero(Price(tokens, rate));
  }

  /** Above the minimum, a bill whose cached tokens are part of the input is within 3 micro-USD of these products. */
  lemma BillNearPrices(r: Request)
    requires 0 <= r.cachedTokens <= r.inputTokens && StoreBill(r).cost > 100
    ensures var others := Product(r.outputTokens, r.outputPrice);
            var price := if r.cachePrice > 0.0
                         then Product(r.inputTokens - r.cachedTokens, r.inputPrice) + Product(r.cachedTokens, r.cachePrice) + others
                         else Product(r.inputTokens, r.inputPrice) + others;
            price - 3.0 < StoreBill(r).cost as real < price + 3.0
  {
    hide StoreBill, Product;
    BillIsExact(r);
    ProductAdds(r.inputTokens - r.cachedTokens, r.cachedTokens, r.inputPrice);
  }

  /** The in-memory ledger rounds the sum of its two tiers. */
  lemma MemoryCostIsExact(inputTokens: int, outputTokens: int, inputPrice: real, outputPrice: real)
    ensures var cost := MemoryCost(inputTokens, outputTokens, inputPrice, outputPrice);
            var price := Product(inputTokens, inputPrice) + Product(outputTokens, outputPrice);
            cost >= 100 && (cost > 100 ==> TowardsZero(cost, price)) && (cost == 100 ==> price < 101.0)
  {
    hide Price;
    PriceIsProduct(inputTokens, inputPrice);
    PriceIsProduct(outputTokens, outputPrice);
    TruncateIsTowardsZero(Price(inputTokens, inputPrice) + Price(outputTokens, outputPrice));
  }

  // --- Rounding --------------------------------------------------------------

  /** Above the minimum the cost is within 3 micro-USD of the exact price, whatever is reported. */
  lemma RoundingLoss(r: Request)
    ensures StoreBill(r).cost > MIN_CHARGE_MICRO ==>
              r.ExactPrice() - 3.0 < StoreBill(r).cost as real < r.ExactPrice() + 3.0
    ensures StoreBill(r).cost == MIN_CHARGE_MICRO ==> r.ExactPrice() < MIN_CHARGE_MICRO as real + 3.0
  {
    hide Price;
  }

  /** Rounding adds nothing to the exact price. */
  ghost predicate NeverAbove(r: Request) {
    StoreBill(r).cost > MIN_CHARGE_MICRO ==> StoreBill(r).cost as real <= r.ExactPrice()
  }

  lemma RoundingAddsNothing(r: Request)
    requires r.FairPrices() && r.outputTokens >= 0 && r.cachedTokens >= 0
    ensures NeverAbove(r)
  {
    hide Price;
    PriceSign(r.FreshInput(), r.inputPrice);
    PriceSign(r.cachedTokens, r.CacheRate());
    PriceSign(r.outputTokens, r.outputPrice);
  }

  /** One output token less than none, at 0.2: the store charges 0.1 micro-USD more than the exact price. */
  lemma NegativeOutputAdds(cached: nat)
    ensures var r := Request(10_001 + cached, -1, cached, 0.1, 0.2, 1.0);
            r.ExactPrice() == cached as real + 999.9 && StoreBill(r).cost == cached + 1000
  {
    hide Price;
    PriceIsProduct(10_001, 0.1);
    PriceIsProduct(-1, 0.2);
    PriceIsProduct(cached, 1.0);
  }

  /** One cached token less than none does the same. */
  lemma NegativeCacheAdds(output: nat)
    ensures var r := Request(10_000, output, -1, 0.1, 0.0, 0.2);
            r.ExactPrice() == 999.9 && StoreBill(r).cost == 1000
  {
    hide Price;
    PriceIsProduct(10_001, 0.1);
    PriceIsProduct(-1, 0.2);
    PriceIsProduct(output, 0.0);
  }

  /**
   Given only that no output count and no cached count lies below its bound, rounding never adds to
   the exact price exactly when neither bound is negative.
   */
  lemma NeverAboveIff(leastOutput: int, leastCached: int)
    ensures (forall r: Request :: r.Registered() && r.outputTokens >= leastOutput && r.cachedTokens >= leastCached ==>
               NeverAbove(r))
            <==> leastOutput >= 0 && leastCached >= 0
  {
    hide Request.ExactPrice, StoreBill;
    if leastOutput < 0 {
      var cached := AtLeastZero(leastCached);
      NegativeOutputAdds(cached);
      assert !NeverAbove(Request(10_001 + cached, -1, cached, 0.1, 0.2, 1.0));
    } else if leastCached < 0 {
      NegativeCacheAdds(leastOutput);
      assert !NeverAbove(Request(10_000, leastOutput, -1, 0.1, 0.0, 0.2));
    } else {
      forall r: Request | r.Registered() && r.outputTokens >= leastOutput && r.cachedTokens >= leastCached
        ensures NeverAbove(r)
      {
        RoundingAddsNothing(r);
      }
    }
  }

  // --- Cache hits ------------------------------------------------------------

  ghost predicate CacheSaves(r: Request) {
    StoreBill(r).cost <= StoreBill(r.(cachedTokens := 0)).cost
  }

  /** The cached tokens are some of the input, also of an input reported as negative. */
  predicate PartOf(cached: int, input: int) {
    0 <= cached <= input || input <= cached <= 0
  }

  /** Serving part of the input from cache, at no more than the input rate, never raises the cost. */
  lemma CacheNeverCostsMore(r: Request)
    requires r.FairPrices() && r.cachePrice <= r.inputPrice && PartOf(r.cachedTokens, r.inputTokens)
    ensures CacheSaves(r)
  {
    hide Price;
    var plain := r.(cachedTokens := 0);
    PriceSign(r.FreshInput(), r.inputPrice);
    PriceSign(r.cachedTokens, r.CacheRate());
    NoTokensNoPrice(plain.CacheRate());
    NoTokensNoPrice(r.inputPrice);
    if r.cachedTokens >= 0 {
      PriceGrows(r.cachedTokens, r.CacheRate(), r.inputPrice);
      PriceAdds(r.FreshInput(), r.cachedTokens, r.inputPrice);
    }
  }

  /** A cache rate at which a negative cached count is worth half of what one fresh token costs. */
  function WitnessRate(cached: int): (rate: real)
    ensures 0.0 < rate <= MAX_PRICE
    ensures cached < 0 ==> cached as real * rate == -50.0
  {
    if cached < 0 then 50.0 / (-cached) as real else MAX_PRICE
  }

  lemma CacheRaises(input: int, cached: int)
    requires !PartOf(cached, input)
    ensures !CacheSaves(Request(input, 1, cached, MAX_PRICE, MAX_PRICE, WitnessRate(cached)))
  {
    hide Price;
    var r := Request(input, 1, cached, MAX_PRICE, MAX_PRICE, WitnessRate(cached));
    var plain := r.(cachedTokens := 0);
    PriceIsProduct(1, MAX_PRICE);
    PriceIsProduct(r.FreshInput(), MAX_PRICE);
    PriceIsProduct(plain.FreshInput(), MAX_PRICE);
    PriceIsProduct(cached, WitnessRate(cached));
    NoTokensNoPrice(WitnessRate(cached));
  }

  /** For given counts, cache hits never cost more, at any registered prices, exactly if they are part of the input. */
  lemma CacheNeverCostsMoreIff(input: int, cached: int)
    ensures (forall r: Request ::
               r.Registered() && r.inputTokens == input && r.cachedTokens == cached && r.cachePrice <= r.inputPrice ==>
               CacheSaves(r))
            <==> PartOf(cached, input)
  {
    hide CacheSaves;
    if PartOf(cached, input) {
      forall r: Request | r.Registered() && r.inputTokens == input && r.cachedTokens == cached && r.cachePrice <= r.inputPrice
        ensures CacheSaves(r)
      {
        CacheNeverCostsMore(r);
      }
    } else {
      CacheRaises(input, cached);
    }
  }

  // --- Two ledgers -----------------------------------------------------------

  function MemoryCostOf(r: Request): int {
    MemoryCost(r.inputTokens, r.outputTokens, r.inputPrice, r.outputPrice)
  }

  /** Without cached tokens the two ledgers differ by at most one micro-USD. */
  lemma StoreVersusMemory(r: Request)
    requires r.FairPrices() && r.inputTokens >= 0 && r.cachedTokens == 0
    ensures MemoryCostOf(r) - 1 <= StoreBill(r).cost <= MemoryCostOf(r) + 1
    ensures r.outputTokens >= 0 ==> StoreBill(r).cost <= MemoryCostOf(r)
  {
    hide Price;
    PriceSign(r.inputTokens, r.inputPrice);
    PriceSign(r.outputTokens, r.outputPrice);
    NoTokensNoPrice(r.CacheRate());
  }

  /** The store charges what the in-memory ledger does, or one micro-USD less. */
  ghost predicate AtMostOneBelow(r: Request) {
    MemoryCostOf(r) - 1 <= StoreBill(r).cost <= MemoryCostOf(r)
  }

  /** Only the store rounds a negative output on its own, and so charges one more. */
  lemma NegativeOutputApart(k: nat)
    ensures var r := Request(10_001 + 10 * k, -1, 0, 0.1, 0.2, 0.0);
            StoreBill(r).cost == 1000 + k && MemoryCostOf(r) == 999 + k
  {
    hide Price;
    PriceIsProduct(10_001 + 10 * k, 0.1);
    PriceIsProduct(-1, 0.2);
    NoTokensNoPrice(0.1);
  }

  /** Only the store treats a negative input as none. */
  lemma NegativeInputApart(output: nat)
    requires output >= 100
    ensures var r := Request(-1, output, 0, MAX_PRICE, MAX_PRICE, 0.0);
            StoreBill(r).cost == 100 * output && MemoryCostOf(r) == 100 * output - 100
  {
    hide Price;
    PriceIsProduct(-1, MAX_PRICE);
    PriceIsProduct(output, MAX_PRICE);
    NoTokensNoPrice(MAX_PRICE);
  }

  /**
   Given only that no input count and no output count lies below its bound, the store charges what
   the in-memory ledger does or one micro-USD less exactly when neither bound is negative.
   */
  lemma StoreVersusMemoryIff(leastInput: int, leastOutput: int)
    ensures (forall r: Request ::
               r.Registered() && r.cachedTokens == 0 && r.inputTokens >= leastInput && r.outputTokens >= leastOutput ==>
               AtMostOneBelow(r))
            <==> leastInput >= 0 && leastOutput >= 0
  {
    hide StoreBill, MemoryCostOf;
    if leastInput < 0 {
      var output := AtLeastZero(leastOutput) + 100;
      NegativeInputApart(output);
      assert !AtMostOneBelow(Request(-1, output, 0, MAX_PRICE, MAX_PRICE, 0.0));
    } else if leastOutput < 0 {
      NegativeOutputApart(leastInput);
      assert !AtMostOneBelow(Request(10_001 + 10 * leastInput, -1, 0, 0.1, 0.2, 0.0));
    } else {
      forall r: Request | r.Registered() && r.cachedTokens == 0 && r.inputTokens >= leastInput && r.outputTokens >= leastOutput
        ensures AtMostOneBelow(r)
      {
        StoreVersusMemory(r);
      }
    }
  }

  // --- Fees ------------------------------------------------------------------

  function TotalCost(bills: seq<Bill>): int {
    if bills == [] then 0 else bills[0].cost + TotalCost(bills[1..])
  }

  function TotalFees(bills: seq<Bill>): int {
    if bills == [] then 0 else bills[0].fee + TotalFees(bills[1..])
  }

  /** Over any number of charges the platform keeps a tenth, less at most 90/100 micro-USD per charge. */
  lemma {:induction false} FeeShare(rs: seq<Request>, bills: seq<Bill>)
    requires |rs| == |bills| && forall i :: 0 <= i < |rs| ==> bills[i] == StoreBill(rs[i])
    ensures 10 * TotalCost(bills) - 90 * |bills| <= 100 * TotalFees(bills) <= 10 * TotalCost(bills)
  {
    hide StoreBill;
    if bills != [] {
      FeeShare(rs[1..], bills[1..]);
      FeeOfOne(rs[0]);
    }
  }

  lemma FeeOfOne(r: Request)
    ensures var b := StoreBill(r); 10 * b.cost - 90 <= 100 * b.fee <= 10 * b.cost
  {
    var cost := StoreBill(r).cost;
    assert cost * 10 / 100 == cost / 10;
  }
}
