/** The in-memory ledger: accounts are objects, and a charge updates two of them, or one twice. */
module MemoryLedger {
  import opened Options
  import opened Tables
  import opened Ledger
  import opened Charging

  class LedgerAccount {
    const id: string
    var balance: int
    var spent: int
    var earned: int
    var requests: int
    var tokens: int

    constructor (id: string)
      ensures this.id == id && balance == OPENING_MICRO && spent == earned == requests == tokens == 0
    {
      this.id := id;
      balance, spent, earned, requests, tokens := OPENING_MICRO, 0, 0, 0, 0;
    }

    method Debit(cost: int, used: int)
      modifies this
      ensures balance == old(balance) - cost && spent == old(spent) + cost && earned == old(earned)
      ensures requests == old(requests) + 1 && tokens == old(tokens) + used
    {
      balance, spent, requests, tokens := balance - cost, spent + cost, requests + 1, tokens + used;
    }

    method Credit(earning: int)
      modifies this
      ensures balance == old(balance) + earning && earned == old(earned) + earning && spent == old(spent)
      ensures requests == old(requests) && tokens == old(tokens)
    {
      balance, earned := balance + earning, earned + earning;
    }

    /** The totals are those of the history, and explain the balance. */
    ghost predicate Explained(history: seq<Transaction>)
      reads this
    {
      && spent == SpentBy(history, id) && earned == EarnedBy(history, id) && balance == OPENING_MICRO + earned - spent
      && requests == ConsumedRequests(history, id) && tokens == ConsumedTokens(history, id)
    }
  }

  predicate Splits(t: Transaction) {
    t.cost == t.earning + t.fee && t.cost >= MIN_CHARGE_MICRO
  }

  class BillingLedger {
    var accounts: map<string, LedgerAccount>
    var history: seq<Transaction>

    constructor ()
      ensures Valid() && history == [] && accounts.Keys == {"default-consumer"}
      ensures fresh(accounts.Values)
    {
      var anonymous := new LedgerAccount("default-consumer");
      accounts, history := map["default-consumer" := anonymous], [];
    }

    ghost predicate Valid()
      reads this, accounts.Values
    {
      && (forall id :: id in accounts ==> accounts[id].id == id && accounts[id].Explained(history))
      && (forall t :: t in history ==> t.consumerId in accounts && t.providerId in accounts && Splits(t))
    }

    method EnsureAccount(id: string) returns (account: LedgerAccount)
      requires Valid()
      modifies this`accounts
      ensures Valid() && id in accounts && accounts[id] == account
      ensures if id in old(accounts) then accounts == old(accounts)
              else fresh(account) && accounts == old(accounts)[id := account]
    {
      if id !in accounts {
        account := new LedgerAccount(id);
        NothingBy(history, id);
        accounts := accounts[id := account];
      }
      account := accounts[id];
    }

    /** Charges only between known accounts, which may be the same one; every account stays explained. */
    method ChargeRequest(requestId: string, consumerId: string, providerId: string, model: string,
                         inputTokens: int, outputTokens: int, inputPrice: real, outputPrice: real, now: real)
      returns (bill: Option<Transaction>)
      requires Valid()
      modifies this`history, accounts.Values
      ensures Valid()
      ensures bill.Some? <==> consumerId in accounts && providerId in accounts
      ensures bill.None? ==>
                history == old(history) && forall id :: id in accounts ==> unchanged(accounts[id])
      ensures bill.Some? ==>
                && history == old(history) + [bill.value]
                && bill.value.consumerId == consumerId && bill.value.providerId == providerId
                && bill.value.cost == MemoryCost(inputTokens, outputTokens, inputPrice, outputPrice)
                && bill.value.requestId == requestId && bill.value.earning + bill.value.fee == bill.value.cost
                && 10 * bill.value.fee <= bill.value.cost < 10 * bill.value.fee + 10
                && bill.value.usage.model == model && bill.value.usage.timestamp == now
                && bill.value.usage.inputTokens == inputTokens && bill.value.usage.outputTokens == outputTokens
    {
      hide MemoryCost, EarnedBy, SpentBy, ConsumedRequests, ConsumedTokens;
      if consumerId !in accounts || providerId !in accounts {
        return None;
      }
      var consumer, provider := accounts[consumerId], accounts[providerId];
      var cost := MemoryCost(inputTokens, outputTokens, inputPrice, outputPrice);
      MemoryMinimum(inputTokens, outputTokens, inputPrice, outputPrice);
      var fee := FeeOf(cost);
      var earning := cost - fee;
      consumer.Debit(cost, inputTokens + outputTokens);
      provider.Credit(earning);
      var row := Transaction(|history|, requestId, consumerId, providerId, cost, earning, fee,
                             Usage("", model, inputTokens, outputTokens, 0, 0, 0, 0, now));
      forall id | id in accounts ensures accounts[id].Explained(history + [row]) {
        EarnedBySnoc(history, row, id);
        UsageSnoc(history, row, id);
      }
      history := history + [row];
      bill := Some(row);
    }

    /** The marketplace volume: what consumers spent is what providers earned and the platform kept. */
    method TotalVolume() returns (volume: int)
      requires Valid()
      ensures volume == Sum(history, Cost) == Sum(history, Earning) + Sum(history, Fee)
      ensures volume >= MIN_CHARGE_MICRO * |history|
    {
      volume := Sum(history, Cost);
      VolumeSplits(history);
    }
  }

  lemma MemoryMinimum(inputTokens: int, outputTokens: int, inputPrice: real, outputPrice: real)
    ensures MemoryCost(inputTokens, outputTokens, inputPrice, outputPrice) >= MIN_CHARGE_MICRO
  {
  }

  lemma {:induction false} VolumeSplits(history: seq<Transaction>)
    requires forall t :: t in history ==> Splits(t)
    ensures Sum(history, Cost) == Sum(history, Earning) + Sum(history, Fee)
    ensures Sum(history, Cost) >= MIN_CHARGE_MICRO * |history|
  {
    if history != [] {
      assert Splits(history[0]);
      VolumeSplits(history[1..]);
    }
  }
}
