/** The consolidation as it runs: the plan's loops, then the rewrite inside one transaction. */
module ConsolidationTool {
  import opened Options
  import opened Tables
  import opened Ledger
  import opened Consolidation

  datatype Totals = Totals(count: nat, cost: int, earning: int, fee: int)

  function TotalsOf(ts: seq<Transaction>): Totals {
    Totals(|ts|, Sum(ts, Cost), Sum(ts, Earning), Sum(ts, Fee))
  }

  datatype Plan = Plan(
    legacyAccounts: seq<Account>, legacyTransactions: seq<Transaction>,
    legacyEarned: int, currentEarned: int, totals: Totals)

  /** What an accepted plan must contain. */
  ghost predicate PlanFor(p: Plan, d: Database, canonical: string) {
    && p.legacyAccounts == LegacyAccounts(d)
    && p.legacyTransactions == LegacyTransactions(d)
    && p.legacyEarned == LegacyEarned(d)
    && p.currentEarned == EarnedBy(d.transactions, canonical)
    && p.totals == TotalsOf(d.transactions)
  }

  function IdsIn(rows: seq<Account>): set<string> {
    set a | a in rows :: a.id
  }

  // --- The plan's loops ------------------------------------------------------

  method FindLegacy(rows: seq<Account>) returns (legacy: seq<Account>)
    ensures legacy == Where(rows, IsLegacy)
  {
    legacy := [];
    for i := 0 to |rows|
      invariant legacy == Where(rows[..i], IsLegacy)
    {
      assert rows[..i + 1] == rows[..i] + [rows[i]];
      WhereSnoc(rows[..i], rows[i], IsLegacy);
      if IsLegacyName(rows[i].id) {
        legacy := legacy + [rows[i]];
      }
    }
    assert rows[..|rows|] == rows;
  }

  /** One pass over the transactions: earnings per legacy account, and the row-by-row checks. */
  lemma NothingEarnedYet()
    ensures forall id :: EarnedBy([], id) == 0
  {
  }

  lemma NextEarning(ts: seq<Transaction>, i: nat)
    requires i < |ts|
    ensures ts[..i + 1] == ts[..i] + [ts[i]]
    ensures forall id :: EarnedBy(ts[..i + 1], id) == EarnedBy(ts[..i], id) + (if ts[i].providerId == id then ts[i].earning else 0)
  {
    assert ts[..i + 1] == ts[..i] + [ts[i]];
    forall id ensures EarnedBy(ts[..i + 1], id) == EarnedBy(ts[..i], id) + (if ts[i].providerId == id then ts[i].earning else 0) {
      EarnedBySnoc(ts[..i], ts[i], id);
    }
  }

  method EarningsPerAccount(legacy: seq<Account>, ts: seq<Transaction>)
    returns (r: Result<map<string, int>, Objection>)
    requires forall a :: a in legacy ==> IsLegacy(a)
    ensures r.Ok? ==>
              && r.value.Keys == IdsIn(legacy)
              && (forall id :: id in r.value ==> r.value[id] == EarnedBy(ts, id))
              && (forall t :: t in ts ==> Conserves(t) && (IsLegacyTransaction(t) ==> t.providerId in r.value))
    ensures r.Err? ==>
              || (r.error == NotConserved && exists t :: t in ts && !Conserves(t))
              || (r.error == MissingLegacyAccount
                  && exists t :: t in ts && IsLegacyTransaction(t) && t.providerId !in IdsIn(legacy))
  {
    hide EarnedBy, IsLegacyName;
    var per: map<string, int> := map a | a in legacy :: a.id := 0;
    NothingEarnedYet();
    for i := 0 to |ts|
      invariant per.Keys == IdsIn(legacy)
      invariant forall id :: id in per ==> per[id] == EarnedBy(ts[..i], id)
      invariant forall t :: t in ts[..i] ==> Conserves(t) && (IsLegacyTransaction(t) ==> t.providerId in per)
    {
      var row := ts[i];
      assert row in ts;
      NextEarning(ts, i);
      if row.providerId in per {
        per := per[row.providerId := per[row.providerId] + row.earning];
      } else if IsLegacyName(row.providerId) {
        return Err(MissingLegacyAccount);
      }
      if row.cost < 0 || row.earning < 0 || row.fee < 0 || row.cost != row.earning + row.fee {
        assert !Conserves(row);
        return Err(NotConserved);
      }
    }
    assert ts[..|ts|] == ts;
    r := Ok(per);
  }

  /** Every legacy row against the earnings just accumulated, adding them up on the way. */
  method ExplainLegacy(legacy: seq<Account>, per: map<string, int>, ts: seq<Transaction>)
    returns (r: Result<int, Objection>)
    requires forall a :: a in legacy ==> a.id in per && per[a.id] == EarnedBy(ts, a.id)
    ensures r.Ok? <==> forall a :: a in legacy ==> ExplainedLegacy(a, ts)
    ensures r.Ok? ==> r.value == Sum(legacy, Earned)
    ensures r.Err? ==> r.error == UnexplainedLegacy
  {
    var total := 0;
    for i := 0 to |legacy|
      invariant forall a :: a in legacy[..i] ==> ExplainedLegacy(a, ts)
      invariant total == Sum(legacy[..i], Earned)
    {
      var account := legacy[i];
      var earned := per[account.id];
      if account.balance != OPENING_MICRO + earned || account.earned != earned
         || account.spent != 0 || account.requestsMade != 0 || account.tokensConsumed != 0 {
        assert account in legacy && !ExplainedLegacy(account, ts);
        return Err(UnexplainedLegacy);
      }
      assert legacy[..i + 1] == legacy[..i] + [account];
      SumSnoc(legacy[..i], account, Earned);
      total := total + earned;
    }
    assert legacy[..|legacy|] == legacy;
    r := Ok(total);
  }

  method FindLegacyTransactions(ts: seq<Transaction>, per: map<string, int>)
    returns (legacy: seq<Transaction>)
    requires forall t :: t in ts ==> (IsLegacyTransaction(t) <==> t.providerId in per)
    ensures legacy == Where(ts, IsLegacyTransaction)
  {
    hide IsLegacyName;
    legacy := [];
    for i := 0 to |ts|
      invariant legacy == Where(ts[..i], IsLegacyTransaction)
    {
      assert ts[i] in ts;
      assert ts[..i + 1] == ts[..i] + [ts[i]];
      WhereSnoc(ts[..i], ts[i], IsLegacyTransaction);
      if ts[i].providerId in per {
        legacy := legacy + [ts[i]];
      }
    }
    assert ts[..|ts|] == ts;
  }

  // --- Facts that turn passed checks into an accepted plan --------------------

  /** The checks that the plan makes before it looks at single rows. */
  ghost predicate Prepared(d: Database, canonical: string) {
    && ForeignKeysOk(d)
    && IsCanonicalName(canonical)
    && d.accountArchive.None? && d.transactionArchive.None?
    && |d.tokens| == 1 && d.tokens[0].revokedAt.None?
    && d.tokens[0].billingAccountId == Some(canonical)
    && Has(d.accounts, canonical)
  }

  /** No legacy account is used by any other identity, or as a consumer. */
  ghost predicate Unused(d: Database) {
    && (forall a :: a in LegacyAccounts(d) ==> !Referenced(d, a.id))
    && (forall t :: t in d.transactions ==> !(IsLegacyName(t.consumerId) && Has(d.accounts, t.consumerId)))
  }

  /** The checks of legacy accounts, transactions and the canonical account. */
  ghost predicate Explained(d: Database, canonical: string) {
    && LegacyAccounts(d) != [] && Unused(d)
    && (forall t :: t in d.transactions ==> Conserves(t) && (IsLegacyTransaction(t) ==> Has(d.accounts, t.providerId)))
    && (forall a :: a in LegacyAccounts(d) ==> ExplainedLegacy(a, d.transactions))
    && (forall a :: a in d.accounts && a.id == canonical ==> ExplainedCanonical(a, d.transactions))
    && LegacyTransactions(d) != []
  }

  /** The checks of the plan, in the order in which it makes them. */
  ghost predicate Accepted(d: Database, canonical: string) {
    Prepared(d, canonical) && Explained(d, canonical)
  }

  /** Passing the checks is exactly having no objection. */
  lemma AcceptedIffPlannable(d: Database, canonical: string)
    ensures Accepted(d, canonical) <==> Plannable(d, canonical)
  {
    if Accepted(d, canonical) {
      AcceptedIsPlannable(d, canonical);
    }
    if Plannable(d, canonical) {
      PlannableIsAccepted(d, canonical);
    }
  }

  lemma AcceptedIsPlannable(d: Database, canonical: string)
    requires Accepted(d, canonical)
    ensures Plannable(d, canonical)
  {
    hide IsLegacyName, IsCanonicalName, Conserves, ExplainedLegacy, ExplainedCanonical, Referenced, ForeignKeysOk;
    TotalsCheckRedundant(d.transactions);
    var a, t := LegacyAccounts(d)[0], LegacyTransactions(d)[0];
    assert a in d.accounts && IsLegacy(a);
    assert t in d.transactions && IsLegacyTransaction(t);
    forall o: Objection ensures !Holds(o, d, canonical) {
    }
  }

  lemma PlannableIsAccepted(d: Database, canonical: string)
    requires Plannable(d, canonical)
    ensures Accepted(d, canonical)
  {
    PlannableIsPrepared(d, canonical);
    PlannableIsExplained(d, canonical);
  }

  lemma PlannableIsPrepared(d: Database, canonical: string)
    requires Plannable(d, canonical)
    ensures Prepared(d, canonical)
  {
    hide IsCanonicalName, ForeignKeysOk, Has;
    assert !Holds(BrokenForeignKey, d, canonical) && !Holds(BadCanonicalName, d, canonical);
    assert !Holds(AlreadyArchived, d, canonical) && !Holds(NotOneActiveCredential, d, canonical);
    assert !Holds(ForeignCanonical, d, canonical) && !Holds(CanonicalMissing, d, canonical);
  }

  lemma PlannableIsExplained(d: Database, canonical: string)
    requires Plannable(d, canonical)
    ensures Explained(d, canonical)
  {
    hide IsLegacyName, Conserves, ExplainedLegacy, ExplainedCanonical, Referenced, Has;
    assert !Holds(NothingToConsolidate, d, canonical) && !Holds(OtherIdentityReference, d, canonical);
    assert !Holds(LegacyConsumer, d, canonical) && !Holds(MissingLegacyAccount, d, canonical);
    assert !Holds(NotConserved, d, canonical) && !Holds(UnexplainedLegacy, d, canonical);
    assert !Holds(UnexplainedCanonical, d, canonical) && !Holds(NoLegacyTransactions, d, canonical);
  }

  // --- The rewrite's steps ---------------------------------------------------

  /** One transaction is credited to the canonical principal, provided it still names its old provider. */
  function UpdateProvider(ts: seq<Transaction>, id: nat, provider: string, canonical: string): (r: seq<Transaction>)
    ensures |r| == |ts|
    ensures forall k :: 0 <= k < |r| ==>
              r[k] == if ts[k].id == id && ts[k].providerId == provider then ts[k].(providerId := canonical) else ts[k]
  {
    seq(|ts|, k requires 0 <= k < |ts| =>
      if ts[k].id == id && ts[k].providerId == provider then ts[k].(providerId := canonical) else ts[k])
  }

  /** The accounts that remain when those with the given ids are gone. */
  function Without(rows: seq<Account>, ids: set<string>): (r: seq<Account>)
    ensures forall a :: a in r <==> a in rows && a.id !in ids
  {
    if rows == [] then [] else (if rows[0].id in ids then [] else [rows[0]]) + Without(rows[1..], ids)
  }

  lemma {:induction false} WithoutTwice(rows: seq<Account>, ids: set<string>, id: string)
    ensures Without(Without(rows, ids), {id}) == Without(rows, ids + {id})
  {
    if rows != [] {
      WithoutTwice(rows[1..], ids, id);
      var rest := Without(rows[1..], ids);
      if rows[0].id !in ids {
        assert Without(rows, ids) == [rows[0]] + rest;
        assert ([rows[0]] + rest)[1..] == rest;
      } else {
        assert Without(rows, ids) == rest;
      }
    }
  }

  lemma {:induction false} WithoutNone(rows: seq<Account>)
    ensures Without(rows, {}) == rows
  {
    if rows != [] {
      WithoutNone(rows[1..]);
    }
  }

  lemma {:induction false} WithoutIsWhere(rows: seq<Account>, ids: set<string>)
    requires forall a :: a in rows ==> (a.id in ids <==> IsLegacy(a))
    ensures Without(rows, ids) == Where(rows, IsKept)
  {
    hide IsLegacyName;
    if rows != [] {
      assert rows[0] in rows;
      WithoutIsWhere(rows[1..], ids);
    }
  }

  function Credit(rows: seq<Account>, canonical: string, amount: int): seq<Account> {
    Post(rows, canonical, amount, 0, amount, 0, 0)
  }

  function CreditedRow(a: Account, canonical: string, amount: int): (c: Account)
    ensures c.id == a.id
  {
    if a.id == canonical then a.(balance := a.balance + amount, earned := a.earned + amount) else a
  }

  lemma CreditCons(a: Account, rest: seq<Account>, canonical: string, amount: int)
    ensures Credit([a] + rest, canonical, amount) == [CreditedRow(a, canonical, amount)] + Credit(rest, canonical, amount)
  {
  }

  lemma WhereCons(a: Account, rest: seq<Account>)
    ensures Where([a] + rest, IsKept) == (if IsKept(a) then [a] else []) + Where(rest, IsKept)
  {
    assert ([a] + rest)[1..] == rest;
  }

  /** Crediting and keeping commute, since a credit changes no id. */
  lemma {:induction false} CreditThenKeep(rows: seq<Account>, canonical: string, amount: int)
    ensures Where(Credit(rows, canonical, amount), IsKept) == Credit(Where(rows, IsKept), canonical, amount)
  {
    if rows != [] {
      hide Credit, Where, IsLegacyName, CreditedRow;
      var a, rest := rows[0], rows[1..];
      var c := CreditedRow(a, canonical, amount);
      assert rows == [a] + rest;
      CreditThenKeep(rest, canonical, amount);
      CreditCons(a, rest, canonical, amount);
      WhereCons(c, Credit(rest, canonical, amount));
      WhereCons(a, rest);
      if IsKept(a) {
        CreditCons(a, Where(rest, IsKept), canonical, amount);
      } else {
        assert Where(rows, IsKept) == Where(rest, IsKept);
      }
    }
  }

  function RowsWith(rows: seq<Account>, id: string): nat {
    if rows == [] then 0 else (if rows[0].id == id then 1 else 0) + RowsWith(rows[1..], id)
  }

  lemma {:induction false} OneRow(rows: seq<Account>, id: string)
    requires DistinctAccounts(rows)
    ensures RowsWith(rows, id) == if Has(rows, id) then 1 else 0
  {
    if rows != [] {
      OneRow(rows[1..], id);
      HasTail(rows, id);
    }
  }

  datatype Check =
    | RemapIncomplete | CanonicalNotUpdated | DeletionIncomplete | IdsChanged | UnexpectedProvider
    | OtherFieldsChanged | AggregatesChanged | UnrelatedAccountChanged | ReconciliationFailed
    | AccountArchiveIncomplete | TransactionArchiveIncomplete | IntegrityFailed

  datatype Failure = PlanRejected(objection: Objection) | CheckFailed(check: Check)

  datatype Report = Report(
    accountsRetired: nat, transactionsRemapped: nat, legacyEarned: int, canonicalEarned: int, totals: Totals)

  // Each check of the rewrite, on the tables before and after.

  predicate RemapComplete(ts: seq<Transaction>, remapped: seq<Transaction>, canonical: string) {
    forall l :: l in remapped ==> exists t :: t in ts && t.id == l.id && t.providerId == canonical
  }

  predicate DeletionComplete(rows: seq<Account>, legacy: seq<Account>) {
    forall l :: l in legacy ==> !Has(rows, l.id)
  }

  function IdsOf(ts: seq<Transaction>): set<nat> {
    set t | t in ts :: t.id
  }

  predicate SameIds(before: seq<Transaction>, after: seq<Transaction>) {
    IdsOf(before) == IdsOf(after)
  }

  predicate ProvidersAsExpected(before: seq<Transaction>, after: seq<Transaction>, ids: set<nat>, canonical: string) {
    forall t, u :: t in before && u in after && t.id == u.id ==>
      u.providerId == if t.id in ids then canonical else t.providerId
  }

  predicate OtherFieldsSame(before: seq<Transaction>, after: seq<Transaction>) {
    forall t, u :: t in before && u in after && t.id == u.id ==> u.(providerId := t.providerId) == t
  }

  predicate UnrelatedSame(before: seq<Account>, after: seq<Account>, legacy: seq<Account>, canonical: string) {
    forall a :: a in before && !Has(legacy, a.id) && a.id != canonical ==> a in after
  }

  predicate ReconciledTo(rows: seq<Account>, canonical: string, expected: int) {
    forall a :: a in rows && a.id == canonical ==> a.earned == expected && a.balance == OPENING_MICRO + expected
  }

  /** The first later check that fails on the rewritten database, if any. */
  function LaterCheck(d: Database, after: Database, p: Plan, canonical: string): Option<Check> {
    if !SameIds(d.transactions, after.transactions) then Some(IdsChanged)
    else if !ProvidersAsExpected(d.transactions, after.transactions, IdsOf(p.legacyTransactions), canonical)
    then Some(UnexpectedProvider)
    else if !OtherFieldsSame(d.transactions, after.transactions) then Some(OtherFieldsChanged)
    else if TotalsOf(after.transactions) != p.totals then Some(AggregatesChanged)
    else if !UnrelatedSame(d.accounts, after.accounts, p.legacyAccounts, canonical) then Some(UnrelatedAccountChanged)
    else if !ReconciledTo(after.accounts, canonical, p.currentEarned + p.legacyEarned) then Some(ReconciliationFailed)
    else if after.accountArchive.None? || |after.accountArchive.value| != |p.legacyAccounts|
    then Some(AccountArchiveIncomplete)
    else if after.transactionArchive.None? || |after.transactionArchive.value| != |p.legacyTransactions|
    then Some(TransactionArchiveIncomplete)
    else if !ForeignKeysOk(after) then Some(IntegrityFailed)
    else None
  }

  /** Two rows with one id, before and after, are one row and its remapping. */
  lemma SameRow(ts: seq<Transaction>, canonical: string, t: Transaction, u: Transaction)
    requires DistinctTransactions(ts) && t in ts && u in RemapAll(ts, canonical) && t.id == u.id
    ensures u == Remap(t, canonical)
    ensures t.id in IdsOf(Where(ts, IsLegacyTransaction)) <==> IsLegacyTransaction(t)
  {
    hide IsLegacyName;
    var i :| 0 <= i < |ts| && ts[i] == t;
    var k :| 0 <= k < |RemapAll(ts, canonical)| && RemapAll(ts, canonical)[k] == u;
    assert i == k;
    if t.id in IdsOf(Where(ts, IsLegacyTransaction)) {
      var l :| l in Where(ts, IsLegacyTransaction) && l.id == t.id;
      var m :| 0 <= m < |ts| && ts[m] == l;
      assert m == i;
    }
  }

  lemma {:induction false} RemapKeepsIds(ts: seq<Transaction>, canonical: string)
    ensures SameIds(ts, RemapAll(ts, canonical))
  {
    hide IsLegacyName;
    if ts != [] {
      RemapKeepsIds(ts[1..], canonical);
      var after := RemapAll(ts, canonical);
      assert after[1..] == RemapAll(ts[1..], canonical);
      IdsOfCons(ts);
      IdsOfCons(after);
    }
  }

  lemma IdsOfCons(ts: seq<Transaction>)
    requires ts != []
    ensures IdsOf(ts) == {ts[0].id} + IdsOf(ts[1..])
  {
    assert ts == [ts[0]] + ts[1..];
  }

  /** Id by id, the rewrite only changes providers, and only as expected. */
  lemma RewriteById(d: Database, p: Plan, canonical: string, now: real)
    requires Keyed(d) && PlanFor(p, d, canonical)
    ensures var after := Consolidated(d, canonical, now).transactions;
            && SameIds(d.transactions, after)
            && ProvidersAsExpected(d.transactions, after, IdsOf(p.legacyTransactions), canonical)
            && OtherFieldsSame(d.transactions, after)
  {
    hide IsLegacyName, RemapAll, Where, IdsOf;
    var after := RemapAll(d.transactions, canonical);
    RemapKeepsIds(d.transactions, canonical);
    forall t, u | t in d.transactions && u in after && t.id == u.id
      ensures u == Remap(t, canonical) && (t.id in IdsOf(p.legacyTransactions) <==> IsLegacyTransaction(t))
    {
      SameRow(d.transactions, canonical, t, u);
    }
  }

  /** Key owners keep their accounts, and every archived transaction has its account archived. */
  lemma KeyOwnerKept(d: Database, canonical: string, now: real, key: string)
    requires Keyed(d) && Accepted(d, canonical) && key in d.keyConsumers
    ensures Has(Consolidated(d, canonical, now).accounts, key)
  {
    hide IsLegacyName;
    var after, kept := Consolidated(d, canonical, now), Where(d.accounts, IsKept);
    WhereKeepsKeys(d.accounts, IsKept);
    var i :| 0 <= i < |d.accounts| && d.accounts[i].id == key;
    var a := d.accounts[i];
    assert a in d.accounts;
    assert a !in LegacyAccounts(d) ==> IsKept(a);
    assert Has(kept, key);
    var m :| 0 <= m < |kept| && kept[m].id == key;
    assert after.accounts[m].id == key;
  }

  lemma IntegrityKept(d: Database, canonical: string, now: real)
    requires Keyed(d) && Plannable(d, canonical)
    ensures ForeignKeysOk(Consolidated(d, canonical, now))
  {
    hide Plannable, IsLegacyName;
    PlannableIsAccepted(d, canonical);
    LegacyEarningsAgree(d, canonical);
    WhereKeepsKeys(d.accounts, IsKept);
    var after := Consolidated(d, canonical, now);
    forall key | key in d.keyConsumers ensures Has(after.accounts, key) {
      KeyOwnerKept(d, canonical, now, key);
    }
    forall t | t in after.transactionArchive.value
      ensures exists a :: a in after.accountArchive.value && a.original.id == t.originalProvider
    {
      var i :| 0 <= i < |after.transactionArchive.value| && after.transactionArchive.value[i] == t;
      assert LegacyTransactions(d)[i] in LegacyTransactions(d);
      var m :| 0 <= m < |LegacyAccounts(d)| && LegacyAccounts(d)[m].id == t.originalProvider;
      assert after.accountArchive.value[m].original.id == t.originalProvider;
    }
  }

  /** Every check that the program makes after an accepted plan passes. */
  lemma LaterChecksPass(d: Database, p: Plan, canonical: string, now: real)
    requires Keyed(d) && Plannable(d, canonical) && PlanFor(p, d, canonical)
    ensures LaterCheck(d, Consolidated(d, canonical, now), p, canonical) == None
  {
    hide Plannable, SameIds, ProvidersAsExpected, OtherFieldsSame, ForeignKeysOk, IsLegacyName;
    var after := Consolidated(d, canonical, now);
    RewriteById(d, p, canonical, now);
    TransactionsKept(d, canonical, now);
    IntegrityKept(d, canonical, now);
    WhereKeepsKeys(d.accounts, IsLegacy);
    forall a | a in d.accounts && !Has(p.legacyAccounts, a.id) && a.id != canonical ensures a in after.accounts {
      assert !IsLegacy(a);
      UnrelatedAccountsUnchanged(d, canonical, now, a);
    }
    forall a | a in after.accounts && a.id == canonical
      ensures a.earned == p.currentEarned + p.legacyEarned && a.balance == OPENING_MICRO + a.earned
    {
      CanonicalReconciles(d, canonical, now, a);
    }
  }

  // --- The database under rewrite --------------------------------------------

  /** After `n` of the legacy transactions have been updated. */
  ghost predicate RemappedUpTo(ts: seq<Transaction>, before: seq<Transaction>, legacy: seq<Transaction>, n: nat, canonical: string)
    requires n <= |legacy|
  {
    && |ts| == |before|
    && forall k :: 0 <= k < |ts| ==> ts[k] == if before[k] in legacy[..n] then Remap(before[k], canonical) else before[k]
  }

  lemma RemapStep(ts: seq<Transaction>, before: seq<Transaction>, legacy: seq<Transaction>, n: nat, canonical: string)
    requires DistinctTransactions(before) && !IsLegacyName(canonical) && n < |legacy|
    requires forall l :: l in legacy ==> l in before && IsLegacyTransaction(l)
    requires RemappedUpTo(ts, before, legacy, n, canonical)
    ensures RemappedUpTo(UpdateProvider(ts, legacy[n].id, legacy[n].providerId, canonical), before, legacy, n + 1, canonical)
  {
    hide IsLegacyName;
    var row := legacy[n];
    assert row in before;
    assert legacy[..n + 1] == legacy[..n] + [row];
    forall k | 0 <= k < |ts|
      ensures UpdateProvider(ts, row.id, row.providerId, canonical)[k]
              == if before[k] in legacy[..n + 1] then Remap(before[k], canonical) else before[k]
    {
      if before[k].id == row.id {
        var m :| 0 <= m < |before| && before[m] == row;
        assert m == k;
      }
    }
  }

  lemma RemapDone(ts: seq<Transaction>, before: seq<Transaction>, canonical: string)
    requires RemappedUpTo(ts, before, Where(before, IsLegacyTransaction), |Where(before, IsLegacyTransaction)|, canonical)
    ensures ts == RemapAll(before, canonical)
    ensures RemapComplete(ts, Where(before, IsLegacyTransaction), canonical)
  {
    hide IsLegacyName;
    var legacy := Where(before, IsLegacyTransaction);
    assert legacy[..|legacy|] == legacy;
    forall k | 0 <= k < |ts| ensures ts[k] == Remap(before[k], canonical) {
      assert before[k] in before;
    }
    forall l | l in legacy ensures exists t :: t in ts && t.id == l.id && t.providerId == canonical {
      var k :| 0 <= k < |before| && before[k] == l;
      assert ts[k] in ts;
    }
  }

  lemma Objected(o: Objection, d: Database, canonical: string)
    requires Holds(o, d, canonical)
    ensures !Plannable(d, canonical)
  {
  }

  /** The ids of the legacy rows are the legacy names that have accounts. */
  lemma EarningsObjection(d: Database, canonical: string, error: Objection)
    requires (error == NotConserved && exists t :: t in d.transactions && !Conserves(t))
             || (error == MissingLegacyAccount
                 && exists t :: t in d.transactions && IsLegacyTransaction(t) && t.providerId !in IdsIn(LegacyAccounts(d)))
    ensures Holds(error, d, canonical)
  {
    hide IsLegacyName, Conserves;
    LegacyIds(d.accounts);
  }

  lemma LedgerObjections(d: Database, canonical: string)
    ensures (exists a :: a in LegacyAccounts(d) && !ExplainedLegacy(a, d.transactions)) ==> Holds(UnexplainedLegacy, d, canonical)
    ensures (exists a :: a in d.accounts && a.id == canonical && !ExplainedCanonical(a, d.transactions)) ==>
              Holds(UnexplainedCanonical, d, canonical)
    ensures LegacyTransactions(d) == [] ==> Holds(NoLegacyTransactions, d, canonical)
  {
    hide IsLegacyName, ExplainedLegacy, ExplainedCanonical;
  }

  lemma PerAccountIsLegacy(d: Database, per: map<string, int>)
    requires per.Keys == IdsIn(LegacyAccounts(d))
    requires forall t :: t in d.transactions ==> (IsLegacyTransaction(t) ==> t.providerId in per)
    ensures forall t :: t in d.transactions ==> (IsLegacyTransaction(t) <==> t.providerId in per)
    ensures forall t :: t in d.transactions && IsLegacyTransaction(t) ==> Has(d.accounts, t.providerId)
  {
    hide IsLegacyName, Has;
    LegacyIds(d.accounts);
  }

  lemma LedgerAccepted(d: Database, canonical: string)
    requires Prepared(d, canonical) && Unused(d) && LegacyAccounts(d) != []
    requires forall t :: t in d.transactions ==> Conserves(t) && (IsLegacyTransaction(t) ==> Has(d.accounts, t.providerId))
    requires forall a :: a in LegacyAccounts(d) ==> ExplainedLegacy(a, d.transactions)
    requires forall a :: a in d.accounts && a.id == canonical ==> ExplainedCanonical(a, d.transactions)
    requires LegacyTransactions(d) != []
    ensures Plannable(d, canonical)
  {
    AcceptedIsPlannable(d, canonical);
  }

  lemma LegacyIds(rows: seq<Account>)
    ensures forall id :: id in IdsIn(Where(rows, IsLegacy)) <==> IsLegacyName(id) && Has(rows, id)
  {
    hide IsLegacyName;
    forall id | IsLegacyName(id) && Has(rows, id) ensures id in IdsIn(Where(rows, IsLegacy)) {
      var i :| 0 <= i < |rows| && rows[i].id == id;
      assert rows[i] in rows && IsLegacy(rows[i]);
    }
    forall id | id in IdsIn(Where(rows, IsLegacy)) ensures IsLegacyName(id) && Has(rows, id) {
      var a :| a in Where(rows, IsLegacy) && a.id == id;
      var i :| 0 <= i < |rows| && rows[i] == a;
    }
  }

  class LedgerDatabase {
    var accounts: seq<Account>
    var transactions: seq<Transaction>
    var tokens: seq<Token>
    var keyConsumers: seq<string>
    var nodePrincipals: seq<string>
    var accountArchive: Option<seq<ArchivedAccount>>
    var transactionArchive: Option<seq<ArchivedTransaction>>

    function View(): Database
      reads this
    {
      Database(accounts, transactions, tokens, keyConsumers, nodePrincipals, accountArchive, transactionArchive)
    }

    ghost predicate Valid()
      reads this
    {
      Keyed(View())
    }

    /** Fails closed on anything ambiguous or unexplained; reads only. */
    method MakePlan(canonical: string) returns (r: Result<Plan, Objection>)
      requires Valid()
      ensures r.Ok? <==> Plannable(View(), canonical)
      ensures r.Ok? ==> PlanFor(r.value, View(), canonical)
      ensures r.Err? ==> Holds(r.error, View(), canonical)
    {
      hide IsLegacyName, IsCanonicalName, Conserves, ExplainedLegacy, ExplainedCanonical, Referenced, ForeignKeysOk;
      var objection := CheckIdentity(canonical);
      if objection.Some? {
        Objected(objection.value, View(), canonical);
        return Err(objection.value);
      }
      var legacy := FindLegacy(accounts);
      if legacy == [] {
        Objected(NothingToConsolidate, View(), canonical);
        return Err(NothingToConsolidate);
      }
      if exists a :: a in legacy && Referenced(View(), a.id) {
        Objected(OtherIdentityReference, View(), canonical);
        return Err(OtherIdentityReference);
      }
      if exists t :: t in transactions && IsLegacyName(t.consumerId) && Has(accounts, t.consumerId) {
        Objected(LegacyConsumer, View(), canonical);
        return Err(LegacyConsumer);
      }
      r := CheckLedger(canonical, legacy);
    }

    /** The checks on names, archives and credentials. */
    method CheckIdentity(canonical: string) returns (objection: Option<Objection>)
      ensures objection.Some? ==> Holds(objection.value, View(), canonical)
      ensures objection.None? ==>
                && ForeignKeysOk(View()) && IsCanonicalName(canonical)
                && accountArchive.None? && transactionArchive.None?
                && |tokens| == 1 && tokens[0].revokedAt.None? && tokens[0].billingAccountId == Some(canonical)
                && Has(accounts, canonical)
    {
      hide IsCanonicalName, ForeignKeysOk;
      if !ForeignKeysOk(View()) {
        return Some(BrokenForeignKey);
      }
      if !IsCanonicalName(canonical) {
        return Some(BadCanonicalName);
      }
      if accountArchive.Some? || transactionArchive.Some? {
        return Some(AlreadyArchived);
      }
      if |tokens| != 1 || tokens[0].revokedAt.Some? {
        return Some(NotOneActiveCredential);
      }
      if tokens[0].billingAccountId != Some(canonical) {
        return Some(ForeignCanonical);
      }
      if !Has(accounts, canonical) {
        return Some(CanonicalMissing);
      }
      return None;
    }

    /** The checks on amounts, ending in the plan. */
    method CheckLedger(canonical: string, legacy: seq<Account>) returns (r: Result<Plan, Objection>)
      requires Valid() && legacy == LegacyAccounts(View()) != []
      requires Prepared(View(), canonical) && Unused(View())
      ensures r.Ok? <==> Plannable(View(), canonical)
      ensures r.Ok? ==> PlanFor(r.value, View(), canonical)
      ensures r.Err? ==> Holds(r.error, View(), canonical)
    {
      hide IsLegacyName, IsCanonicalName, Conserves, ExplainedLegacy, ExplainedCanonical, Referenced, ForeignKeysOk;
      hide Plannable, Where, Sum, EarnedBy, Prepared, Unused, Holds;
      ghost var d := View();
      var per := EarningsPerAccount(legacy, transactions);
      if per.Err? {
        EarningsObjection(d, canonical, per.error);
        Objected(per.error, d, canonical);
        return Err(per.error);
      }
      assert forall a :: a in legacy ==> a.id in per.value;
      var explained := ExplainLegacy(legacy, per.value, transactions);
      if explained.Err? {
        LedgerObjections(d, canonical);
        Objected(UnexplainedLegacy, d, canonical);
        return Err(UnexplainedLegacy);
      }
      if exists a :: a in accounts && a.id == canonical && !ExplainedCanonical(a, transactions) {
        LedgerObjections(d, canonical);
        Objected(UnexplainedCanonical, d, canonical);
        return Err(UnexplainedCanonical);
      }
      PerAccountIsLegacy(d, per.value);
      var movements := FindLegacyTransactions(transactions, per.value);
      if movements == [] {
        LedgerObjections(d, canonical);
        Objected(NoLegacyTransactions, d, canonical);
        return Err(NoLegacyTransactions);
      }
      LedgerAccepted(d, canonical);
      LegacyEarningsAgree(d, canonical);
      r := Ok(Plan(legacy, movements, explained.value, EarnedBy(transactions, canonical), TotalsOf(transactions)));
    }

    /** The archive tables, filled from the plan. */
    method Archive(p: Plan, canonical: string, now: real)
      modifies this`accountArchive, this`transactionArchive
      ensures accountArchive == Some(ArchiveAccounts(p.legacyAccounts, canonical, now))
      ensures transactionArchive == Some(ArchiveTransactions(p.legacyTransactions, canonical, now))
    {
      var rows: seq<ArchivedAccount> := [];
      for i := 0 to |p.legacyAccounts|
        invariant rows == ArchiveAccounts(p.legacyAccounts, canonical, now)[..i]
      {
        rows := rows + [ArchivedAccount(p.legacyAccounts[i], canonical, now)];
      }
      var moves: seq<ArchivedTransaction> := [];
      for i := 0 to |p.legacyTransactions|
        invariant moves == ArchiveTransactions(p.legacyTransactions, canonical, now)[..i]
      {
        var t := p.legacyTransactions[i];
        moves := moves + [ArchivedTransaction(t.id, t.providerId, canonical, now)];
      }
      assert rows == ArchiveAccounts(p.legacyAccounts, canonical, now);
      assert moves == ArchiveTransactions(p.legacyTransactions, canonical, now);
      accountArchive, transactionArchive := Some(rows), Some(moves);
    }

    /** The legacy transactions are credited anew one by one. */
    method RemapTransactions(p: Plan, canonical: string)
      requires Valid() && !IsLegacyName(canonical)
      requires p.legacyTransactions == LegacyTransactions(View())
      modifies this`transactions
      ensures transactions == RemapAll(old(transactions), canonical)
      ensures RemapComplete(transactions, p.legacyTransactions, canonical)
    {
      hide IsLegacyName, UpdateProvider, RemapAll, Where, RemappedUpTo;
      ghost var before := transactions;
      RemapStart(before, p.legacyTransactions, canonical);
      for i := 0 to |p.legacyTransactions|
        invariant RemappedUpTo(transactions, before, p.legacyTransactions, i, canonical)
      {
        RemapStep(transactions, before, p.legacyTransactions, i, canonical);
        var row := p.legacyTransactions[i];
        transactions := UpdateProvider(transactions, row.id, row.providerId, canonical);
      }
      RemapDone(transactions, before, canonical);
    }

    /** The legacy accounts are removed one by one. */
    method DeleteAccounts(legacy: seq<Account>)
      modifies this`accounts
      ensures accounts == Without(old(accounts), IdsIn(legacy))
    {
      WithoutNone(accounts);
      assert IdsIn(legacy[..0]) == {};
      for i := 0 to |legacy|
        invariant accounts == Without(old(accounts), IdsIn(legacy[..i]))
      {
        assert legacy[..i + 1] == legacy[..i] + [legacy[i]];
        assert IdsIn(legacy[..i + 1]) == IdsIn(legacy[..i]) + {legacy[i].id};
        WithoutTwice(old(accounts), IdsIn(legacy[..i]), legacy[i].id);
        accounts := Without(accounts, {legacy[i].id});
      }
      assert legacy[..|legacy|] == legacy;
    }

    /** The writes, with the checks that the program makes between them. */
    method Rewrite(p: Plan, canonical: string, now: real) returns (failed: Option<Check>)
      requires Valid() && Plannable(View(), canonical) && PlanFor(p, View(), canonical)
      modifies this`accounts, this`transactions, this`accountArchive, this`transactionArchive
      ensures View() == Consolidated(old(View()), canonical, now)
      ensures failed == None
    {
      hide IsLegacyName, Plannable, RemapComplete, DeletionComplete, Where, RemapAll, Consolidated, Post, Sum, RowsWith,
        Without, IdsIn, ArchiveAccounts, ArchiveTransactions, EarnedBy, DistinctAccounts;
      ghost var d := View();
      CanonicalOnce(d, canonical);
      failed := None;
      Archive(p, canonical, now);
      RemapTransactions(p, canonical);
      if !RemapComplete(transactions, p.legacyTransactions, canonical) {
        failed := Some(RemapIncomplete);
      }
      if RowsWith(accounts, canonical) != 1 {
        failed := Some(CanonicalNotUpdated);
      }
      accounts := Post(accounts, canonical, p.legacyEarned, 0, p.legacyEarned, 0, 0);
      DeleteAccounts(p.legacyAccounts);
      AccountsRewritten(d, canonical, p.legacyEarned);
      if !DeletionComplete(accounts, p.legacyAccounts) {
        failed := Some(DeletionIncomplete);
      }
      RewriteAssembled(d, View(), p, canonical, now);
    }

    /**
     The whole rewrite in one transaction. An accepted plan is always carried out: none of the
     later checks can fail. A refused one leaves every table as it was.
     */
    method Consolidate(canonical: string, now: real) returns (r: Result<Report, Failure>)
      requires Valid()
      modifies this
      ensures r.Ok? <==> old(Plannable(View(), canonical))
      ensures r.Ok? ==> View() == Consolidated(old(View()), canonical, now)
      ensures r.Ok? ==> r.value == Report(
                |old(LegacyAccounts(View()))|, |old(LegacyTransactions(View()))|, old(LegacyEarned(View())),
                old(EarnedBy(transactions, canonical)) + old(LegacyEarned(View())), old(TotalsOf(transactions)))
      ensures r.Ok? ==>
                && r.value.totals.count == |old(transactions)| && r.value.totals.cost == Sum(old(transactions), Cost)
                && r.value.totals.earning == Sum(old(transactions), Earning) && r.value.totals.fee == Sum(old(transactions), Fee)
      ensures r.Err? ==> View() == old(View())
      ensures r.Err? ==> r.error.PlanRejected? && Holds(r.error.objection, old(View()), canonical)
    {
      hide Plannable, Where, Consolidated, LaterCheck, Holds, Sum, EarnedBy;
      var planned := MakePlan(canonical);
      if planned.Err? {
        return Err(PlanRejected(planned.error));
      }
      var p, saved := planned.value, View();
      var failed := Rewrite(p, canonical, now);
      LaterChecksPass(saved, p, canonical, now);
      if failed.None? {
        failed := LaterCheck(saved, View(), p, canonical);
      }
      Close(saved, failed.None?);
      r := match failed
           case None => Ok(Report(|p.legacyAccounts|, |p.legacyTransactions|, p.legacyEarned,
                                  p.currentEarned + p.legacyEarned, p.totals))
           case Some(check) => Err(CheckFailed(check));
    }

    /** Ends the transaction: commit keeps the tables, rollback restores them. */
    method Close(saved: Database, commit: bool)
      modifies this`accounts, this`transactions, this`accountArchive, this`transactionArchive
      ensures commit ==> View() == old(View())
      ensures !commit ==> View() == old(View()).(
                accounts := saved.accounts, transactions := saved.transactions,
                accountArchive := saved.accountArchive, transactionArchive := saved.transactionArchive)
    {
      if !commit {
        accounts, transactions := saved.accounts, saved.transactions;
        accountArchive, transactionArchive := saved.accountArchive, saved.transactionArchive;
      }
    }
  }

  /** The canonical account has exactly one row, and not a legacy name. */
  lemma CanonicalOnce(d: Database, canonical: string)
    requires Keyed(d) && Plannable(d, canonical)
    ensures RowsWith(d.accounts, canonical) == 1 && !IsLegacyName(canonical)
  {
    var k := CanonicalRow(d, canonical);
    OneRow(d.accounts, canonical);
  }

  lemma RemapStart(before: seq<Transaction>, legacy: seq<Transaction>, canonical: string)
    ensures RemappedUpTo(before, before, legacy, 0, canonical)
  {
  }

  /** The credited and pruned accounts are the consolidated ones, and no legacy id is left. */
  lemma AccountsRewritten(d: Database, canonical: string, amount: int)
    ensures Without(Post(d.accounts, canonical, amount, 0, amount, 0, 0), IdsIn(LegacyAccounts(d)))
            == Post(Where(d.accounts, IsKept), canonical, amount, 0, amount, 0, 0)
    ensures DeletionComplete(Post(Where(d.accounts, IsKept), canonical, amount, 0, amount, 0, 0), LegacyAccounts(d))
  {
    hide IsLegacyName;
    var posted, ids := Credit(d.accounts, canonical, amount), IdsIn(LegacyAccounts(d));
    LegacyIds(d.accounts);
    forall a | a in posted ensures a.id in ids <==> IsLegacy(a) {
      var i :| 0 <= i < |posted| && posted[i] == a;
      assert d.accounts[i].id == a.id;
    }
    WithoutIsWhere(posted, ids);
    CreditThenKeep(d.accounts, canonical, amount);
    var rows, kept := Credit(Where(d.accounts, IsKept), canonical, amount), Where(d.accounts, IsKept);
    forall l | l in LegacyAccounts(d) ensures !Has(rows, l.id) {
      forall i | 0 <= i < |rows| ensures rows[i].id != l.id {
        assert kept[i] in kept;
      }
    }
  }

  lemma RewriteAssembled(d: Database, after: Database, p: Plan, canonical: string, now: real)
    requires PlanFor(p, d, canonical)
    requires after.accounts == Post(Where(d.accounts, IsKept), canonical, p.legacyEarned, 0, p.legacyEarned, 0, 0)
    requires after.transactions == RemapAll(d.transactions, canonical)
    requires after.accountArchive == Some(ArchiveAccounts(p.legacyAccounts, canonical, now))
    requires after.transactionArchive == Some(ArchiveTransactions(p.legacyTransactions, canonical, now))
    requires after.tokens == d.tokens && after.keyConsumers == d.keyConsumers && after.nodePrincipals == d.nodePrincipals
    ensures after == Consolidated(d, canonical, now)
  {
  }
}
