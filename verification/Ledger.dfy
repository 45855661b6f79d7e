/** The rows of the money ledger, all amounts in integer micro-USD. */
module Ledger {
  import opened Tables

  const OPENING_MICRO: int := 10_000_000

  datatype Account = Account(
    id: string, name: string, balance: int, spent: int, earned: int,
    requestsMade: int, tokensConsumed: int, createdAt: real)

  datatype Usage = Usage(
    connectionId: string, model: string, inputTokens: int, outputTokens: int, cachedTokens: int,
    costInput: int, costOutput: int, costCache: int, timestamp: real)

  datatype Transaction = Transaction(
    id: nat, requestId: string, consumerId: string, providerId: string,
    cost: int, earning: int, fee: int, usage: Usage)

  function Balance(a: Account): int { a.balance }
  function Earned(a: Account): int { a.earned }
  function Cost(t: Transaction): int { t.cost }
  function Earning(t: Transaction): int { t.earning }
  function Fee(t: Transaction): int { t.fee }

  /** The primary key of the accounts table. */
  ghost predicate DistinctAccounts(rows: seq<Account>) {
    forall i, j :: 0 <= i < j < |rows| ==> rows[i].id != rows[j].id
  }

  predicate Has(rows: seq<Account>, id: string) {
    exists i :: 0 <= i < |rows| && rows[i].id == id
  }

  /** Rows are stored in id order, as an auto-incremented key makes them. */
  ghost predicate Ascending(ts: seq<Transaction>) {
    forall i, j :: 0 <= i < j < |ts| ==> ts[i].id < ts[j].id
  }

  /** What an account earned, and what it spent, according to the transactions alone. */
  function EarnedBy(ts: seq<Transaction>, id: string): int {
    if ts == [] then 0 else (if ts[0].providerId == id then ts[0].earning else 0) + EarnedBy(ts[1..], id)
  }

  function SpentBy(ts: seq<Transaction>, id: string): int {
    if ts == [] then 0 else (if ts[0].consumerId == id then ts[0].cost else 0) + SpentBy(ts[1..], id)
  }

  /** How often an account consumed, and how many tokens. */
  function ConsumedRequests(ts: seq<Transaction>, id: string): int {
    if ts == [] then 0 else (if ts[0].consumerId == id then 1 else 0) + ConsumedRequests(ts[1..], id)
  }

  function ConsumedTokens(ts: seq<Transaction>, id: string): int {
    if ts == [] then 0
    else (if ts[0].consumerId == id then ts[0].usage.inputTokens + ts[0].usage.outputTokens else 0) + ConsumedTokens(ts[1..], id)
  }

  lemma {:induction false} UsageSnoc(ts: seq<Transaction>, t: Transaction, id: string)
    ensures ConsumedRequests(ts + [t], id) == ConsumedRequests(ts, id) + (if t.consumerId == id then 1 else 0)
    ensures ConsumedTokens(ts + [t], id)
            == ConsumedTokens(ts, id) + (if t.consumerId == id then t.usage.inputTokens + t.usage.outputTokens else 0)
  {
    if ts == [] {
      assert ts + [t] == [t];
      assert [t][1..] == [];
    } else {
      assert (ts + [t])[1..] == ts[1..] + [t];
      UsageSnoc(ts[1..], t, id);
    }
  }

  lemma {:induction false} EarnedBySnoc(ts: seq<Transaction>, t: Transaction, id: string)
    ensures EarnedBy(ts + [t], id) == EarnedBy(ts, id) + (if t.providerId == id then t.earning else 0)
    ensures SpentBy(ts + [t], id) == SpentBy(ts, id) + (if t.consumerId == id then t.cost else 0)
  {
    if ts == [] {
      assert ts + [t] == [t];
      assert [t][1..] == [];
    } else {
      assert (ts + [t])[1..] == ts[1..] + [t];
      EarnedBySnoc(ts[1..], t, id);
    }
  }

  lemma {:induction false} NothingEarned(ts: seq<Transaction>, id: string)
    requires forall t :: t in ts ==> t.providerId != id
    ensures EarnedBy(ts, id) == 0
  {
    if ts != [] {
      NothingEarned(ts[1..], id);
    }
  }

  lemma {:induction false} NothingBy(ts: seq<Transaction>, id: string)
    requires forall t :: t in ts ==> t.providerId != id && t.consumerId != id
    ensures EarnedBy(ts, id) == 0 && SpentBy(ts, id) == 0 && ConsumedRequests(ts, id) == 0 && ConsumedTokens(ts, id) == 0
  {
    if ts != [] {
      NothingBy(ts[1..], id);
    }
  }

  /** SQL's update of the row with a given key: adds to its balance, spent and earned columns. */
  function Post(rows: seq<Account>, id: string, balance: int, spent: int, earned: int, requests: int, tokens: int)
    : (r: seq<Account>)
    ensures |r| == |rows|
    ensures forall i :: 0 <= i < |r| ==> r[i].id == rows[i].id
    ensures forall i :: 0 <= i < |r| && rows[i].id != id ==> r[i] == rows[i]
  {
    seq(|rows|, i requires 0 <= i < |rows| =>
      if rows[i].id == id then
        rows[i].(balance := rows[i].balance + balance, spent := rows[i].spent + spent,
                 earned := rows[i].earned + earned, requestsMade := rows[i].requestsMade + requests,
                 tokensConsumed := rows[i].tokensConsumed + tokens)
      else rows[i])
  }

  /** Posting moves the total balance by the amount, provided the key exists. */
  lemma {:induction false} PostMovesTotal(
    rows: seq<Account>, id: string, balance: int, spent: int, earned: int, requests: int, tokens: int)
    requires DistinctAccounts(rows)
    ensures Sum(Post(rows, id, balance, spent, earned, requests, tokens), Balance)
            == Sum(rows, Balance) + (if Has(rows, id) then balance else 0)
  {
    if rows != [] {
      var posted := Post(rows, id, balance, spent, earned, requests, tokens);
      assert posted[1..] == Post(rows[1..], id, balance, spent, earned, requests, tokens);
      PostMovesTotal(rows[1..], id, balance, spent, earned, requests, tokens);
      HasTail(rows, id);
    }
  }

  lemma HasTail(rows: seq<Account>, id: string)
    requires rows != [] && DistinctAccounts(rows)
    ensures Has(rows, id) <==> rows[0].id == id || Has(rows[1..], id)
    ensures rows[0].id == id ==> !Has(rows[1..], id)
  {
    if Has(rows[1..], id) {
      var i :| 0 <= i < |rows[1..]| && rows[1..][i].id == id;
      assert rows[i + 1].id == id;
    }
    if Has(rows, id) && rows[0].id != id {
      var i :| 0 <= i < |rows| && rows[i].id == id;
      assert rows[1..][i - 1].id == id;
    }
  }
}
