/** The persistent store's money tables: accounts, charges, and the books over whole runs. */
module Store {
  import opened Tables
  import opened Ledger
  import opened Charging

  datatype Books = Books(accounts: seq<Account>, transactions: seq<Transaction>, nextId: nat)

  /** One completed request, as the billing callback reports it. */
  datatype Charge = Charge(
    requestId: string, consumerId: string, providerId: string, connectionId: string, model: string,
    request: Request, timestamp: real)

  // --- Specification ---------------------------------------------------------

  function Opened(b: Books, id: string, name: string, now: real): Books {
    if Has(b.accounts, id) then b
    else b.(accounts := b.accounts + [Account(id, name, OPENING_MICRO, 0, 0, 0, 0, now)])
  }

  function RowOf(c: Charge, id: nat): (t: Transaction)
    ensures t.cost == t.earning + t.fee && t.cost >= MIN_CHARGE_MICRO && t.fee >= 0
  {
    var bill := StoreBill(c.request);
    Transaction(id, c.requestId, c.consumerId, c.providerId, bill.cost, bill.earning, bill.fee,
      Usage(c.connectionId, c.model, c.request.inputTokens, c.request.outputTokens, c.request.cachedTokens,
            bill.costInput, bill.costOutput, bill.costCache, c.timestamp))
  }

  function Debited(b: Books, c: Charge): Books {
    var cost := StoreBill(c.request).cost;
    b.(accounts := Post(b.accounts, c.consumerId, -cost, cost, 0, 1, c.request.inputTokens + c.request.outputTokens))
  }

  function Credited(b: Books, c: Charge): Books {
    var earning := StoreBill(c.request).earning;
    b.(accounts := Post(b.accounts, c.providerId, earning, 0, earning, 0, 0))
  }

  function Logged(b: Books, c: Charge): Books {
    b.(transactions := b.transactions + [RowOf(c, b.nextId)], nextId := b.nextId + 1)
  }

  function Charged(b: Books, c: Charge): Books {
    Logged(Credited(Opened(Debited(b, c), c.providerId, c.providerId, c.timestamp), c), c)
  }

  // --- The tables ------------------------------------------------------------

  class LedgerStore {
    var accounts: seq<Account>
    var transactions: seq<Transaction>
    var nextId: nat

    function View(): Books
      reads this
    {
      Books(accounts, transactions, nextId)
    }

    /** The primary key of the accounts table. */
    ghost predicate Valid()
      reads this
    {
      DistinctAccounts(accounts)
    }

    constructor ()
      ensures Valid() && View() == Books([], [], 1) && Sound(View())
    {
      accounts, transactions, nextId := [], [], 1;
      new;
      EmptyBooksAreSound();
    }

    method EnsureAccount(id: string, name: string, now: real)
      requires Valid()
      modifies this`accounts
      ensures Valid() && View() == Opened(old(View()), id, name, now)
      ensures accounts == if exists a :: a in old(accounts) && a.id == id then old(accounts)
                          else old(accounts) + [Account(id, name, 10_000_000, 0, 0, 0, 0, now)]
      ensures old(Sound(View())) ==> Sound(View())
    {
      if Sound(View()) {
        OpenedIsSound(View(), id, name, now);
      }
      if !Has(accounts, id) {
        accounts := accounts + [Account(id, name, OPENING_MICRO, 0, 0, 0, 0, now)];
      }
    }

    /** The whole charge is one database transaction; a missing consumer is simply not debited. */
    method ChargeRequest(c: Charge) returns (bill: Bill)
      requires Valid()
      modifies this
      ensures Valid() && View() == Charged(old(View()), c)
      ensures bill == StoreBill(c.request)
      ensures old(Sound(View()) && Has(accounts, c.consumerId)) ==> Sound(View())
    {
      hide StoreBill, Post, RowOf, Sound;
      if Sound(View()) && Has(accounts, c.consumerId) {
        ChargedIsSound(View(), c);
      }
      bill := StoreBill(c.request);
      accounts := Post(accounts, c.consumerId, -bill.cost, bill.cost, 0, 1,
                       c.request.inputTokens + c.request.outputTokens);
      if !Has(accounts, c.providerId) {
        accounts := accounts + [Account(c.providerId, c.providerId, OPENING_MICRO, 0, 0, 0, 0, c.timestamp)];
      }
      accounts := Post(accounts, c.providerId, bill.earning, 0, bill.earning, 0, 0);
      transactions := transactions + [RowOf(c, nextId)];
      nextId := nextId + 1;
    }
  }

  // --- Conservation ----------------------------------------------------------

  /** Money is neither made nor lost: balances plus platform fees are the opening credits. */
  ghost predicate Conserved(b: Books) {
    Sum(b.accounts, Balance) + Sum(b.transactions, Fee) == OPENING_MICRO * |b.accounts|
  }

  /** An account's totals are those of its transactions. */
  ghost predicate Reconciled(a: Account, ts: seq<Transaction>) {
    && a.spent == SpentBy(ts, a.id)
    && a.earned == EarnedBy(ts, a.id)
    && a.balance == OPENING_MICRO + a.earned - a.spent
    && a.requestsMade == ConsumedRequests(ts, a.id)
    && a.tokensConsumed == ConsumedTokens(ts, a.id)
  }

  ghost predicate AllReconciled(b: Books) {
    forall a :: a in b.accounts ==> Reconciled(a, b.transactions)
  }

  /** Every transaction names accounts that exist, and splits its cost. */
  ghost predicate WellReferenced(b: Books) {
    forall t :: t in b.transactions ==>
      && Has(b.accounts, t.consumerId) && Has(b.accounts, t.providerId)
      && t.cost == t.earning + t.fee && t.cost >= MIN_CHARGE_MICRO && t.fee >= 0 && t.earning >= 0
  }

  /** Ids are handed out in increasing order and never reused. */
  ghost predicate AscendingIds(b: Books) {
    && Ascending(b.transactions)
    && (forall i :: 0 <= i < |b.transactions| ==> 1 <= b.transactions[i].id < b.nextId)
    && b.nextId >= 1
  }

  ghost predicate Sound(b: Books) {
    DistinctAccounts(b.accounts) && Conserved(b) && AllReconciled(b) && WellReferenced(b) && AscendingIds(b)
  }

  lemma EmptyBooksAreSound()
    ensures Sound(Books([], [], 1))
  {
  }

  lemma StillHas(rows: seq<Account>, more: seq<Account>, id: string)
    requires |rows| <= |more| && forall i :: 0 <= i < |rows| ==> more[i].id == rows[i].id
    requires Has(rows, id)
    ensures Has(more, id)
  {
    var i :| 0 <= i < |rows| && rows[i].id == id;
    assert more[i].id == id;
  }

  /** Opening an account keeps the books sound, whether or not it existed. */
  lemma OpenedIsSound(b: Books, id: string, name: string, now: real)
    requires Sound(b)
    ensures Sound(Opened(b, id, name, now))
    ensures Has(Opened(b, id, name, now).accounts, id)
  {
    if !Has(b.accounts, id) {
      var added := Account(id, name, OPENING_MICRO, 0, 0, 0, 0, now);
      var after := b.accounts + [added];
      assert after[|b.accounts|].id == id;
      SumSnoc(b.accounts, added, Balance);
      forall t | t in b.transactions ensures Has(after, t.consumerId) && Has(after, t.providerId) {
        StillHas(b.accounts, after, t.consumerId);
        StillHas(b.accounts, after, t.providerId);
      }
      assert forall t :: t in b.transactions ==> t.providerId != id && t.consumerId != id;
      NothingBy(b.transactions, id);
    }
  }

  /** What the three writes of a charge do to an account that was there before. */
  lemma ChargedRow(b: Books, c: Charge, i: nat)
    requires Sound(b) && Has(b.accounts, c.consumerId) && Has(b.accounts, c.providerId)
    requires i < |b.accounts|
    ensures |Charged(b, c).accounts| == |b.accounts|
    ensures Reconciled(Charged(b, c).accounts[i], Charged(b, c).transactions)
  {
    hide StoreBill;
    var a := b.accounts[i];
    assert Reconciled(a, b.transactions);
    StillHas(b.accounts, Debited(b, c).accounts, c.providerId);
    EarnedBySnoc(b.transactions, RowOf(c, b.nextId), a.id);
    UsageSnoc(b.transactions, RowOf(c, b.nextId), a.id);
  }

  /** Debiting before a missing provider's account is prepared gives the same books as after. */
  lemma ChargeOpensFirst(b: Books, c: Charge)
    requires Sound(b) && Has(b.accounts, c.consumerId)
    ensures Charged(b, c) == Charged(Opened(b, c.providerId, c.providerId, c.timestamp), c)
  {
    hide StoreBill;
    if !Has(b.accounts, c.providerId) {
      var added := Account(c.providerId, c.providerId, OPENING_MICRO, 0, 0, 0, 0, c.timestamp);
      var prepared := Opened(b, c.providerId, c.providerId, c.timestamp);
      assert prepared.accounts[|b.accounts|].id == c.providerId;
      assert Has(prepared.accounts, c.providerId);
      StillHas(prepared.accounts, Debited(prepared, c).accounts, c.providerId);
      if Has(Debited(b, c).accounts, c.providerId) {
        StillHas(Debited(b, c).accounts, b.accounts, c.providerId);
      }
      var cost := StoreBill(c.request).cost;
      assert c.providerId != c.consumerId;
      assert Debited(prepared, c).accounts == Debited(b, c).accounts + [added];
    }
  }

  /** A charge to an existing consumer keeps the books sound. */
  lemma ChargedIsSound(b: Books, c: Charge)
    requires Sound(b) && Has(b.accounts, c.consumerId)
    ensures Sound(Charged(b, c))
  {
    hide StoreBill;
    var prepared := Opened(b, c.providerId, c.providerId, c.timestamp);
    OpenedIsSound(b, c.providerId, c.providerId, c.timestamp);
    ChargeOpensFirst(b, c);
    if !Has(b.accounts, c.providerId) {
      StillHas(b.accounts, prepared.accounts, c.consumerId);
    }
    ChargedBetweenAccounts(prepared, c);
  }

  lemma ChargedBetweenAccounts(b: Books, c: Charge)
    requires Sound(b) && Has(b.accounts, c.consumerId) && Has(b.accounts, c.providerId)
    ensures Sound(Charged(b, c))
  {
    hide StoreBill, Post, Has;
    var after := Charged(b, c);
    StillHas(b.accounts, Debited(b, c).accounts, c.providerId);
    SupplyAfterCharge(b, c);
    forall a | a in after.accounts ensures Reconciled(a, after.transactions) {
      var i :| 0 <= i < |after.accounts| && after.accounts[i] == a;
      ChargedRow(b, c, i);
    }
    forall t | t in after.transactions ensures Has(after.accounts, t.consumerId) && Has(after.accounts, t.providerId) {
      assert t == RowOf(c, b.nextId) || t in b.transactions;
      StillHas(b.accounts, after.accounts, t.consumerId);
      StillHas(b.accounts, after.accounts, t.providerId);
    }
  }

  /** The money supply after a charge: unchanged, plus the whole cost if nobody could be debited. */
  lemma SupplyAfterCharge(b: Books, c: Charge)
    requires DistinctAccounts(b.accounts)
    ensures var after := Charged(b, c);
            Sum(after.accounts, Balance) + Sum(after.transactions, Fee) - OPENING_MICRO * |after.accounts|
            == Sum(b.accounts, Balance) + Sum(b.transactions, Fee) - OPENING_MICRO * |b.accounts|
               + (if Has(b.accounts, c.consumerId) then 0 else StoreBill(c.request).cost)
  {
    hide StoreBill, Post;
    var bill, debited := StoreBill(c.request), Debited(b, c);
    var prepared := Opened(debited, c.providerId, c.providerId, c.timestamp);
    PostMovesTotal(b.accounts, c.consumerId, -bill.cost, bill.cost, 0, 1, c.request.inputTokens + c.request.outputTokens);
    OpenedSupply(debited, c.providerId, c.timestamp);
    hide Has, Opened;
    PostMovesTotal(prepared.accounts, c.providerId, bill.earning, 0, bill.earning, 0, 0);
    SumSnoc(b.transactions, RowOf(c, b.nextId), Fee);
  }

  lemma OpenedSupply(b: Books, id: string, now: real)
    requires DistinctAccounts(b.accounts)
    ensures var after := Opened(b, id, id, now);
            && DistinctAccounts(after.accounts) && Has(after.accounts, id) && after.transactions == b.transactions
            && Sum(after.accounts, Balance) - OPENING_MICRO * |after.accounts|
               == Sum(b.accounts, Balance) - OPENING_MICRO * |b.accounts|
  {
    if !Has(b.accounts, id) {
      var added := Account(id, id, OPENING_MICRO, 0, 0, 0, 0, now);
      SumSnoc(b.accounts, added, Balance);
      assert (b.accounts + [added])[|b.accounts|].id == id;
    }
  }

  /**
   A charge whose consumer has no account debits nobody, yet pays the provider: the money supply
   is conserved by a charge exactly when the consumer exists.
   */
  lemma ConservedIffConsumerExists(b: Books, c: Charge)
    requires Sound(b)
    ensures Conserved(Charged(b, c)) <==> Has(b.accounts, c.consumerId)
  {
    hide StoreBill, Post, Has;
    SupplyAfterCharge(b, c);
  }

  // --- Whole runs ------------------------------------------------------------

  datatype Step = Open(id: string, name: string, now: real) | Bill(charge: Charge)

  function Apply(b: Books, s: Step): Books {
    match s
    case Open(id, name, now) => Opened(b, id, name, now)
    case Bill(c) => Charged(b, c)
  }

  function Run(b: Books, steps: seq<Step>): Books
    decreases |steps|
  {
    if steps == [] then b else Run(Apply(b, steps[0]), steps[1..])
  }

  /** Every charge of the run finds its consumer's account. */
  ghost predicate ConsumersExist(b: Books, steps: seq<Step>)
    decreases |steps|
  {
    steps == [] ||
    ((steps[0].Bill? ==> Has(b.accounts, steps[0].charge.consumerId)) && ConsumersExist(Apply(b, steps[0]), steps[1..]))
  }

  /** What all charges of a run cost that found no consumer to debit. */
  function Undebited(b: Books, steps: seq<Step>): int
    decreases |steps|
  {
    if steps == [] then 0
    else
      (if steps[0].Bill? && !Has(b.accounts, steps[0].charge.consumerId) then StoreBill(steps[0].charge.request).cost else 0)
      + Undebited(Apply(b, steps[0]), steps[1..])
  }

  /** How far balances and fees exceed the opening credits. */
  function Excess(b: Books): int {
    Sum(b.accounts, Balance) + Sum(b.transactions, Fee) - OPENING_MICRO * |b.accounts|
  }

  lemma ExcessAfterStep(b: Books, s: Step)
    requires DistinctAccounts(b.accounts)
    ensures DistinctAccounts(Apply(b, s).accounts)
    ensures Excess(Apply(b, s))
            == Excess(b) + (if s.Bill? && !Has(b.accounts, s.charge.consumerId) then StoreBill(s.charge.request).cost else 0)
  {
    hide StoreBill, Post;
    match s {
      case Open(id, name, now) =>
        if !Has(b.accounts, id) {
          SumSnoc(b.accounts, Account(id, name, OPENING_MICRO, 0, 0, 0, 0, now), Balance);
        }
      case Bill(c) =>
        SupplyAfterCharge(b, c);
        ChargedStaysDistinct(b, c);
    }
  }

  lemma ChargedStaysDistinct(b: Books, c: Charge)
    requires DistinctAccounts(b.accounts)
    ensures DistinctAccounts(Charged(b, c).accounts)
  {
    hide StoreBill, Has;
    OpenedSupply(Debited(b, c), c.providerId, c.timestamp);
  }

  /** Over every run, whoever is missing: the money supply grows by exactly what could not be debited. */
  lemma {:induction false} SupplyOverRuns(b: Books, steps: seq<Step>)
    requires DistinctAccounts(b.accounts)
    ensures Excess(Run(b, steps)) == Excess(b) + Undebited(b, steps)
    decreases |steps|
  {
    hide Excess, Apply;
    if steps != [] {
      ExcessAfterStep(b, steps[0]);
      SupplyOverRuns(Apply(b, steps[0]), steps[1..]);
    }
  }

  lemma {:induction false} UndebitedIffMissing(b: Books, steps: seq<Step>)
    ensures Undebited(b, steps) >= 0
    ensures Undebited(b, steps) == 0 <==> ConsumersExist(b, steps)
    decreases |steps|
  {
    hide Apply;
    if steps != [] {
      UndebitedIffMissing(Apply(b, steps[0]), steps[1..]);
    }
  }

  /** A run conserves money exactly when each of its charges finds its consumer. */
  lemma ConservedOverRunsIff(b: Books, steps: seq<Step>)
    requires DistinctAccounts(b.accounts) && Conserved(b)
    ensures Conserved(Run(b, steps)) <==> ConsumersExist(b, steps)
  {
    SupplyOverRuns(b, steps);
    UndebitedIffMissing(b, steps);
  }

  /** The charges of a run, in order. */
  function ChargesOf(steps: seq<Step>): seq<Charge> {
    if steps == [] then [] else (if steps[0].Bill? then [steps[0].charge] else []) + ChargesOf(steps[1..])
  }

  /** A row tells who was charged for what, and how the bill divides. */
  ghost predicate Records(t: Transaction, c: Charge, id: nat) {
    var bill, usage := StoreBill(c.request), t.usage;
    && t.id == id && t.requestId == c.requestId && t.consumerId == c.consumerId && t.providerId == c.providerId
    && t.cost == bill.cost && t.earning == bill.earning && t.fee == bill.fee
    && usage.connectionId == c.connectionId && usage.model == c.model && usage.timestamp == c.timestamp
    && usage.inputTokens == c.request.inputTokens && usage.outputTokens == c.request.outputTokens
    && usage.cachedTokens == c.request.cachedTokens
    && usage.costInput == bill.costInput && usage.costOutput == bill.costOutput && usage.costCache == bill.costCache
  }

  /** Every run appends one row for each of its charges, in order, numbered without gaps. */
  lemma {:induction false} OneRowPerCharge(b: Books, steps: seq<Step>)
    ensures var before, after, charges := b.transactions, Run(b, steps).transactions, ChargesOf(steps);
            && |after| == |before| + |charges| && after[..|before|] == before
            && forall k :: 0 <= k < |charges| ==> Records(after[|before| + k], charges[k], b.nextId + k)
    decreases |steps|
  {
    hide StoreBill, Post, Has;
    if steps != [] {
      OneRowPerCharge(Apply(b, steps[0]), steps[1..]);
      hide Run, ChargesOf;
      ChargesStep(b, steps);
    }
  }

  lemma ChargesStep(b: Books, steps: seq<Step>)
    requires steps != []
    ensures Run(b, steps) == Run(Apply(b, steps[0]), steps[1..])
    ensures ChargesOf(steps) == (if steps[0].Bill? then [steps[0].charge] else []) + ChargesOf(steps[1..])
  {
  }

  /** Whoever is missing, a run only appends transactions, and under ascending ids. */
  lemma {:induction false} IdsOverRuns(b: Books, steps: seq<Step>)
    requires AscendingIds(b)
    ensures AscendingIds(Run(b, steps))
    decreases |steps|
  {
    hide StoreBill, Post, Has;
    if steps != [] {
      IdsOverRuns(Apply(b, steps[0]), steps[1..]);
    }
  }

  lemma {:induction false} RunAppends(b: Books, steps: seq<Step>)
    ensures b.transactions <= Run(b, steps).transactions
    decreases |steps|
  {
    hide StoreBill, Post, Has;
    if steps != [] {
      RunAppends(Apply(b, steps[0]), steps[1..]);
    }
  }

  /** After any run: nothing created or lost, every account reconciled, ids ascending. */
  lemma {:induction false} SoundOverRuns(b: Books, steps: seq<Step>)
    requires Sound(b) && ConsumersExist(b, steps)
    ensures Sound(Run(b, steps))
    decreases |steps|
  {
    if steps != [] {
      match steps[0] {
        case Open(id, name, now) => OpenedIsSound(b, id, name, now);
        case Bill(c) => ChargedIsSound(b, c);
      }
      SoundOverRuns(Apply(b, steps[0]), steps[1..]);
    }
  }

  /** The books stay sound over a run exactly when each of its charges finds its consumer. */
  lemma BooksBalanceOverRuns(b: Books, steps: seq<Step>)
    requires Sound(b)
    ensures Sound(Run(b, steps)) <==> ConsumersExist(b, steps)
  {
    hide Run, ConsumersExist;
    ConservedOverRunsIff(b, steps);
    if ConsumersExist(b, steps) {
      SoundOverRuns(b, steps);
    }
  }

  // --- Earnings, whoever pays ------------------------------------------------

  /** Every provider has an account, and its earned column is the sum of its transactions. */
  ghost predicate EarningsSound(b: Books) {
    && DistinctAccounts(b.accounts)
    && (forall t :: t in b.transactions ==> Has(b.accounts, t.providerId))
    && (forall i :: 0 <= i < |b.accounts| ==> b.accounts[i].earned == EarnedBy(b.transactions, b.accounts[i].id))
  }

  lemma DebitedEarnings(b: Books, c: Charge)
    requires EarningsSound(b)
    ensures EarningsSound(Debited(b, c))
  {
    hide StoreBill, EarnedBy;
    forall t | t in b.transactions ensures Has(Debited(b, c).accounts, t.providerId) {
      StillHas(b.accounts, Debited(b, c).accounts, t.providerId);
    }
  }

  lemma OpenedEarnings(b: Books, id: string, name: string, now: real)
    requires EarningsSound(b)
    ensures EarningsSound(Opened(b, id, name, now)) && Has(Opened(b, id, name, now).accounts, id)
  {
    hide EarnedBy;
    if !Has(b.accounts, id) {
      var after := Opened(b, id, name, now).accounts;
      NothingEarned(b.transactions, id);
      assert after[|b.accounts|].id == id;
      forall t | t in b.transactions ensures Has(after, t.providerId) {
        StillHas(b.accounts, after, t.providerId);
      }
    }
  }

  lemma CreditedEarnings(b: Books, c: Charge)
    requires EarningsSound(b) && Has(b.accounts, c.providerId)
    ensures EarningsSound(Logged(Credited(b, c), c))
  {
    hide StoreBill, EarnedBy, Has;
    var after, row := Logged(Credited(b, c), c), RowOf(c, b.nextId);
    forall t | t in after.transactions ensures Has(after.accounts, t.providerId) {
      assert t == row || t in b.transactions;
      StillHas(b.accounts, after.accounts, t.providerId);
    }
    forall i | 0 <= i < |after.accounts|
      ensures after.accounts[i].earned == EarnedBy(after.transactions, after.accounts[i].id)
    {
      EarnedBySnoc(b.transactions, row, b.accounts[i].id);
    }
  }

  /** Over every run, also one that charges missing consumers, all earnings stay explained. */
  lemma {:induction false} EarningsOverRuns(b: Books, steps: seq<Step>)
    requires EarningsSound(b)
    ensures EarningsSound(Run(b, steps))
    decreases |steps|
  {
    hide EarningsSound, Debited, Opened, Credited, Logged;
    if steps != [] {
      match steps[0] {
        case Open(id, name, now) => OpenedEarnings(b, id, name, now);
        case Bill(c) =>
          DebitedEarnings(b, c);
          OpenedEarnings(Debited(b, c), c.providerId, c.providerId, c.timestamp);
          CreditedEarnings(Opened(Debited(b, c), c.providerId, c.providerId, c.timestamp), c);
      }
      EarningsOverRuns(Apply(b, steps[0]), steps[1..]);
    }
  }
}
