/**
 The one-off consolidation of legacy provider accounts: which databases the plan accepts, and
 what the rewrite makes of them.
 */
module Consolidation {
  import opened Options
  import opened Tables
  import opened Ledger

  datatype Token = Token(billingAccountId: Option<string>, revokedAt: Option<real>)

  datatype ArchivedAccount = ArchivedAccount(original: Account, canonical: string, migratedAt: real)

  datatype ArchivedTransaction = ArchivedTransaction(
    transactionId: nat, originalProvider: string, canonical: string, migratedAt: real)

  datatype Database = Database(
    accounts: seq<Account>,
    transactions: seq<Transaction>,
    tokens: seq<Token>,
    keyConsumers: seq<string>,
    nodePrincipals: seq<string>,
    accountArchive: Option<seq<ArchivedAccount>>,
    transactionArchive: Option<seq<ArchivedTransaction>>)

  /** The primary keys that the database itself enforces. */
  ghost predicate Keyed(d: Database) {
    && DistinctAccounts(d.accounts)
    && forall i, j :: 0 <= i < j < |d.transactions| ==> d.transactions[i].id != d.transactions[j].id
  }

  // --- Names -----------------------------------------------------------------

  const LEGACY_PREFIX := "provider-"
  const CANONICAL_PREFIX := "provider-acct-"

  predicate IsDigit(c: char) { '0' <= c <= '9' }
  predicate IsHexDigit(c: char) { IsDigit(c) || 'a' <= c <= 'f' }

  /** "provider-" and at least one decimal digit. */
  predicate IsLegacyName(s: string) {
    && |s| > |LEGACY_PREFIX| && s[..|LEGACY_PREFIX|] == LEGACY_PREFIX
    && forall i :: |LEGACY_PREFIX| <= i < |s| ==> IsDigit(s[i])
  }

  /** "provider-acct-" and at least one lower-case hexadecimal digit. */
  predicate IsCanonicalName(s: string) {
    && |s| > |CANONICAL_PREFIX| && s[..|CANONICAL_PREFIX|] == CANONICAL_PREFIX
    && forall i :: |CANONICAL_PREFIX| <= i < |s| ==> IsHexDigit(s[i])
  }

  /** No name is both, so the account that absorbs the others is never one of them. */
  lemma CanonicalIsNotLegacy(s: string)
    requires IsCanonicalName(s)
    ensures !IsLegacyName(s)
  {
    assert s[..|CANONICAL_PREFIX|][9] == 'a';
    assert s[9] == 'a' && !IsDigit('a');
  }

  const DIGITS: set<char> := {'0', '1', '2', '3', '4', '5', '6', '7', '8', '9'}

  predicate Consists(text: string, prefix: string, rest: string, of: set<char>) {
    text == prefix + rest && rest != "" && forall c :: c in rest ==> c in of
  }

  lemma ConsistsAt(s: string, prefix: string, of: set<char>)
    ensures (exists rest :: Consists(s, prefix, rest, of))
            <==> |s| > |prefix| && s[..|prefix|] == prefix && forall i :: |prefix| <= i < |s| ==> s[i] in of
  {
    var n := |prefix|;
    if rest :| Consists(s, prefix, rest, of) {
      forall i | n <= i < |s| ensures s[i] in of {
        assert s[i] == rest[i - n] && rest[i - n] in rest;
      }
    }
    if |s| > n && s[..n] == prefix && forall i :: n <= i < |s| ==> s[i] in of {
      assert s == prefix + s[n..];
      forall c | c in s[n..] ensures c in of {
        var i :| 0 <= i < |s[n..]| && s[n..][i] == c;
        assert s[n + i] == c;
      }
      assert Consists(s, prefix, s[n..], of);
    }
  }

  /** A legacy name is "provider-" and decimal digits; a canonical one "provider-acct-" and lower-case hexadecimal digits. */
  lemma NamesAre(s: string)
    ensures IsLegacyName(s) <==> exists digits :: Consists(s, "provider-", digits, DIGITS)
    ensures IsCanonicalName(s)
            <==> exists digits :: Consists(s, "provider-acct-", digits, DIGITS + {'a', 'b', 'c', 'd', 'e', 'f'})
  {
    ConsistsAt(s, "provider-", DIGITS);
    ConsistsAt(s, "provider-acct-", DIGITS + {'a', 'b', 'c', 'd', 'e', 'f'});
    hide Consists;
  }

  predicate IsLegacy(a: Account) { IsLegacyName(a.id) }
  predicate IsKept(a: Account) { !IsLegacyName(a.id) }
  predicate IsLegacyTransaction(t: Transaction) { IsLegacyName(t.providerId) }

  // --- The plan --------------------------------------------------------------

  predicate Conserves(t: Transaction) {
    t.cost >= 0 && t.earning >= 0 && t.fee >= 0 && t.cost == t.earning + t.fee
  }

  /** A legacy account holds its opening credit and its earnings, and was never used to consume. */
  predicate ExplainedLegacy(a: Account, ts: seq<Transaction>) {
    && a.balance == OPENING_MICRO + EarnedBy(ts, a.id)
    && a.earned == EarnedBy(ts, a.id)
    && a.spent == 0 && a.requestsMade == 0 && a.tokensConsumed == 0
  }

  predicate ExplainedCanonical(a: Account, ts: seq<Transaction>) {
    && a.balance == OPENING_MICRO + EarnedBy(ts, a.id)
    && a.earned == EarnedBy(ts, a.id)
    && a.spent == 0 && a.requestsMade == 0
  }

  function LegacyAccounts(d: Database): seq<Account> { Where(d.accounts, IsLegacy) }

  /** Once the plan has checked that they all have accounts, these are the legacy transactions. */
  function LegacyTransactions(d: Database): seq<Transaction> { Where(d.transactions, IsLegacyTransaction) }

  datatype Objection =
    | BrokenForeignKey | BadCanonicalName | AlreadyArchived | NotOneActiveCredential | ForeignCanonical | CanonicalMissing
    | NothingToConsolidate | OtherIdentityReference | LegacyConsumer | MissingLegacyAccount | NotConserved
    | UnexplainedLegacy | UnexplainedCanonical | NoLegacyTransactions | TotalsNotConserved

  /** Key owners have accounts, and archived transactions have archived accounts. */
  predicate ForeignKeysOk(d: Database) {
    && (forall k :: k in d.keyConsumers ==> Has(d.accounts, k))
    && (d.transactionArchive.Some? ==>
          d.accountArchive.Some? &&
          forall t :: t in d.transactionArchive.value ==>
            exists a :: a in d.accountArchive.value && a.original.id == t.originalProvider)
  }

  /** The condition each rejection of the plan reports. */
  ghost predicate Holds(o: Objection, d: Database, canonical: string) {
    match o
    case BrokenForeignKey => !ForeignKeysOk(d)
    case BadCanonicalName => !IsCanonicalName(canonical)
    case AlreadyArchived => d.accountArchive.Some? || d.transactionArchive.Some?
    case NotOneActiveCredential => |d.tokens| != 1 || d.tokens[0].revokedAt.Some?
    case ForeignCanonical => |d.tokens| == 1 && d.tokens[0].billingAccountId != Some(canonical)
    case CanonicalMissing => !Has(d.accounts, canonical)
    case NothingToConsolidate => forall a :: a in d.accounts ==> !IsLegacy(a)
    case OtherIdentityReference => exists a :: a in d.accounts && IsLegacy(a) && Referenced(d, a.id)
    case LegacyConsumer => exists t :: t in d.transactions && IsLegacyName(t.consumerId) && Has(d.accounts, t.consumerId)
    case MissingLegacyAccount =>
      exists t :: t in d.transactions && IsLegacyTransaction(t) && !Has(d.accounts, t.providerId)
    case NotConserved => exists t :: t in d.transactions && !Conserves(t)
    case UnexplainedLegacy => exists a :: a in d.accounts && IsLegacy(a) && !ExplainedLegacy(a, d.transactions)
    case UnexplainedCanonical =>
      exists a :: a in d.accounts && a.id == canonical && !ExplainedCanonical(a, d.transactions)
    case NoLegacyTransactions =>
      forall t :: t in d.transactions ==> !(IsLegacyTransaction(t) && Has(d.accounts, t.providerId))
    case TotalsNotConserved =>
      Sum(d.transactions, Cost) != Sum(d.transactions, Earning) + Sum(d.transactions, Fee)
  }

  /** Whether a name is used as an API-key owner, a credential principal or a node principal. */
  predicate Referenced(d: Database, id: string) {
    id in d.keyConsumers || Some(id) in Principals(d.tokens) || id in d.nodePrincipals
  }

  function Principals(tokens: seq<Token>): set<Option<string>> {
    set t | t in tokens :: t.billingAccountId
  }

  /** The plan accepts a database when no objection holds. */
  ghost predicate Plannable(d: Database, canonical: string) {
    forall o: Objection :: !Holds(o, d, canonical)
  }

  // --- The rewrite -----------------------------------------------------------

  function Remap(t: Transaction, canonical: string): Transaction {
    if IsLegacyTransaction(t) then t.(providerId := canonical) else t
  }

  function RemapAll(ts: seq<Transaction>, canonical: string): (r: seq<Transaction>)
    ensures |r| == |ts| && forall i :: 0 <= i < |r| ==> r[i] == Remap(ts[i], canonical)
  {
    seq(|ts|, i requires 0 <= i < |ts| => Remap(ts[i], canonical))
  }

  function ArchiveAccounts(rows: seq<Account>, canonical: string, now: real): (r: seq<ArchivedAccount>)
    ensures |r| == |rows|
  {
    seq(|rows|, i requires 0 <= i < |rows| => ArchivedAccount(rows[i], canonical, now))
  }

  function ArchiveTransactions(ts: seq<Transaction>, canonical: string, now: real): (r: seq<ArchivedTransaction>)
    ensures |r| == |ts|
  {
    seq(|ts|, i requires 0 <= i < |ts| => ArchivedTransaction(ts[i].id, ts[i].providerId, canonical, now))
  }

  function LegacyEarned(d: Database): int {
    Sum(LegacyTransactions(d), Earning)
  }

  /** Retire the legacy accounts into the canonical one, keeping what was removed in the archives. */
  function Consolidated(d: Database, canonical: string, now: real): Database {
    d.(accounts := Post(Where(d.accounts, IsKept), canonical, LegacyEarned(d), 0, LegacyEarned(d), 0, 0),
       transactions := RemapAll(d.transactions, canonical),
       accountArchive := Some(ArchiveAccounts(LegacyAccounts(d), canonical, now)),
       transactionArchive := Some(ArchiveTransactions(LegacyTransactions(d), canonical, now)))
  }

  /** Neither an API key, nor a credential, nor a node is tied to this name. */
  predicate Free(d: Database, id: string) {
    && (forall key :: key in d.keyConsumers ==> key != id)
    && (forall t :: t in d.tokens ==> t.billingAccountId != Some(id))
    && (forall n :: n in d.nodePrincipals ==> n != id)
  }

  /** An account with this much of earnings behind it, beside its opening credit, that has never spent or requested anything. */
  predicate HoldsOnly(a: Account, earned: int) {
    a.balance == 10_000_000 + earned && a.earned == earned && a.spent == 0 && a.requestsMade == 0
  }

  /**
   Nothing is archived; there is one live credential, of the canonical principal, which has an account;
   and every API key belongs to an account.
   */
  ghost predicate OneIdentity(d: Database, canonical: string) {
    && (forall key :: key in d.keyConsumers ==> Has(d.accounts, key))
    && d.accountArchive == None && d.transactionArchive == None
    && IsCanonicalName(canonical) && Has(d.accounts, canonical)
    && |d.tokens| == 1 && d.tokens[0].billingAccountId == Some(canonical) && d.tokens[0].revokedAt == None
  }

  /**
   There are legacy accounts, used for nothing but earning, and legacy transactions, all of them with
   accounts; every cost is earnings and fee; the legacy accounts and the canonical one hold what they earned.
   */
  ghost predicate OnlyEarnings(d: Database, canonical: string) {
    && (exists a :: a in d.accounts && IsLegacyName(a.id))
    && (exists t :: t in d.transactions && IsLegacyName(t.providerId))
    && (forall a :: a in d.accounts && IsLegacyName(a.id) ==>
          Free(d, a.id) && HoldsOnly(a, EarnedBy(d.transactions, a.id)) && a.tokensConsumed == 0)
    && (forall a :: a in d.accounts && a.id == canonical ==> HoldsOnly(a, EarnedBy(d.transactions, canonical)))
    && (forall t :: t in d.transactions ==>
          && t.earning >= 0 && t.fee >= 0 && t.cost == t.earning + t.fee
          && (IsLegacyName(t.consumerId) ==> !Has(d.accounts, t.consumerId))
          && (IsLegacyName(t.providerId) ==> Has(d.accounts, t.providerId)))
  }

  /** Which databases the plan accepts. */
  lemma PlannableIff(d: Database, canonical: string)
    ensures Plannable(d, canonical) <==> OneIdentity(d, canonical) && OnlyEarnings(d, canonical)
  {
    if Plannable(d, canonical) {
      PlannableHasIdentity(d, canonical);
      PlannableHasEarnings(d, canonical);
    }
    if OneIdentity(d, canonical) && OnlyEarnings(d, canonical) {
      forall o: Objection ensures !Holds(o, d, canonical) {
        NothingObjected(d, canonical, o);
      }
    }
  }

  lemma PlannableHasIdentity(d: Database, canonical: string)
    requires Plannable(d, canonical)
    ensures OneIdentity(d, canonical)
  {
    hide IsCanonicalName, Has;
    assert !Holds(BrokenForeignKey, d, canonical) && !Holds(BadCanonicalName, d, canonical);
    assert !Holds(AlreadyArchived, d, canonical) && !Holds(NotOneActiveCredential, d, canonical);
    assert !Holds(ForeignCanonical, d, canonical) && !Holds(CanonicalMissing, d, canonical);
  }

  lemma PlannableHasEarnings(d: Database, canonical: string)
    requires Plannable(d, canonical)
    ensures OnlyEarnings(d, canonical)
  {
    hide IsLegacyName, Has, EarnedBy, Referenced, Free;
    FreeIffUnreferenced(d);
    assert !Holds(NothingToConsolidate, d, canonical) && !Holds(OtherIdentityReference, d, canonical);
    assert !Holds(LegacyConsumer, d, canonical) && !Holds(MissingLegacyAccount, d, canonical);
    assert !Holds(NotConserved, d, canonical) && !Holds(UnexplainedLegacy, d, canonical);
    assert !Holds(UnexplainedCanonical, d, canonical) && !Holds(NoLegacyTransactions, d, canonical);
  }

  lemma NothingObjected(d: Database, canonical: string, o: Objection)
    requires OneIdentity(d, canonical) && OnlyEarnings(d, canonical)
    ensures !Holds(o, d, canonical)
  {
    hide IsLegacyName, IsCanonicalName, Has, EarnedBy, Referenced, Free;
    FreeIffUnreferenced(d);
    if o.TotalsNotConserved? {
      TotalsCheckRedundant(d.transactions);
    }
  }

  lemma FreeIffUnreferenced(d: Database)
    ensures forall id :: Free(d, id) <==> !Referenced(d, id)
  {
    forall id ensures Free(d, id) <==> !Referenced(d, id) {
      if Some(id) in Principals(d.tokens) {
        var t :| t in d.tokens && t.billingAccountId == Some(id);
      }
    }
  }

  // --- Sums over legacy rows -------------------------------------------------

  lemma {:induction false} EarnedByWhere(ts: seq<Transaction>, id: string)
    requires IsLegacyName(id)
    ensures EarnedBy(Where(ts, IsLegacyTransaction), id) == EarnedBy(ts, id)
  {
    if ts != [] {
      EarnedByWhere(ts[1..], id);
      assert ts[0].providerId == id ==> IsLegacyTransaction(ts[0]);
      var rest := Where(ts[1..], IsLegacyTransaction);
      assert ([ts[0]] + rest)[1..] == rest;
      assert [] + rest == rest;
    }
  }

  /** The earnings of one transaction reach exactly one of the accounts that could receive them. */
  function Share(t: Transaction): Account -> int {
    (a: Account) => if a.id == t.providerId then t.earning else 0
  }

  lemma {:induction false} ShareOfOne(rows: seq<Account>, t: Transaction)
    requires DistinctAccounts(rows)
    ensures Sum(rows, Share(t)) == if Has(rows, t.providerId) then t.earning else 0
  {
    if rows != [] {
      ShareOfOne(rows[1..], t);
      HasTail(rows, t.providerId);
    }
  }

  function EarnedColumn(ts: seq<Transaction>): Account -> int {
    (a: Account) => EarnedBy(ts, a.id)
  }

  lemma {:induction false} SumOfSums(rows: seq<Account>, ts: seq<Transaction>)
    requires ts != []
    ensures Sum(rows, EarnedColumn(ts)) == Sum(rows, Share(ts[0])) + Sum(rows, EarnedColumn(ts[1..]))
  {
    if rows != [] {
      SumOfSums(rows[1..], ts);
    }
  }

  lemma {:induction false} SumOfNothing(rows: seq<Account>)
    ensures Sum(rows, EarnedColumn([])) == 0
  {
    if rows != [] {
      SumOfNothing(rows[1..]);
    }
  }

  /** Adding up earnings account by account or transaction by transaction is the same. */
  lemma {:induction false} EarningsTwoWays(rows: seq<Account>, ts: seq<Transaction>)
    requires DistinctAccounts(rows) && forall t :: t in ts ==> Has(rows, t.providerId)
    ensures Sum(rows, EarnedColumn(ts)) == Sum(ts, Earning)
    decreases |ts|
  {
    if ts == [] {
      SumOfNothing(rows);
    } else {
      SumOfSums(rows, ts);
      ShareOfOne(rows, ts[0]);
      EarningsTwoWays(rows, ts[1..]);
    }
  }

  lemma {:induction false} WhereKeepsKeys(rows: seq<Account>, p: Account -> bool)
    requires DistinctAccounts(rows)
    ensures DistinctAccounts(Where(rows, p))
    ensures forall a :: a in rows && p(a) ==> Has(Where(rows, p), a.id)
  {
    if rows != [] {
      WhereKeepsKeys(rows[1..], p);
      var rest := Where(rows[1..], p);
      assert forall i :: 0 <= i < |rest| ==> rest[i] in rows[1..];
      forall a | a in rows && p(a) ensures Has(Where(rows, p), a.id) {
        var k :| 0 <= k < |Where(rows, p)| && Where(rows, p)[k] == a;
      }
    }
  }

  /** The legacy accounts' recorded earnings are the legacy transactions' earnings. */
  lemma LegacyEarningsAgree(d: Database, canonical: string)
    requires Keyed(d) && Plannable(d, canonical)
    ensures Sum(LegacyAccounts(d), Earned) == LegacyEarned(d)
    ensures forall t :: t in LegacyTransactions(d) ==> Has(LegacyAccounts(d), t.providerId)
  {
    var rows, ts := LegacyAccounts(d), LegacyTransactions(d);
    assert !Holds(UnexplainedLegacy, d, canonical) && !Holds(MissingLegacyAccount, d, canonical);
    WhereKeepsKeys(d.accounts, IsLegacy);
    forall t | t in ts ensures Has(rows, t.providerId) {
      var i :| 0 <= i < |d.accounts| && d.accounts[i].id == t.providerId;
      assert d.accounts[i] in d.accounts && IsLegacy(d.accounts[i]);
    }
    EarningsTwoWays(rows, ts);
    forall i | 0 <= i < |rows| ensures Earned(rows[i]) == EarnedColumn(ts)(rows[i]) {
      assert rows[i] in d.accounts;
      EarnedByWhere(d.transactions, rows[i].id);
    }
    SameSums(rows, rows, Earned, EarnedColumn(ts));
  }

  // --- What the rewrite guarantees -------------------------------------------

  /** The canonical account's row, which the plan has found. */
  lemma CanonicalRow(d: Database, canonical: string) returns (k: nat)
    requires Keyed(d) && Plannable(d, canonical)
    ensures k < |d.accounts| && d.accounts[k].id == canonical && IsKept(d.accounts[k])
    ensures ExplainedCanonical(d.accounts[k], d.transactions)
    ensures Has(Where(d.accounts, IsKept), canonical) && !IsLegacyName(canonical)
  {
    assert !Holds(BadCanonicalName, d, canonical) && !Holds(CanonicalMissing, d, canonical);
    assert !Holds(UnexplainedCanonical, d, canonical);
    CanonicalIsNotLegacy(canonical);
    k :| 0 <= k < |d.accounts| && d.accounts[k].id == canonical;
    assert d.accounts[k] in d.accounts;
    WhereKeepsKeys(d.accounts, IsKept);
  }

  /**
   The rewrite, table by table: no legacy account is left and every other stays, in order; the archives
   hold one row for each retired account and each moved transaction, with its old name, the new one and
   the time; and the other tables are untouched.
   */
  lemma RewriteIsExact(d: Database, canonical: string, now: real)
    ensures var after := Consolidated(d, canonical, now);
            && (forall a :: a in after.accounts ==> !IsLegacyName(a.id))
            && (forall id :: !IsLegacyName(id) ==> (Has(after.accounts, id) <==> Has(d.accounts, id)))
            && |after.accounts| + |LegacyAccounts(d)| == |d.accounts|
            && after.tokens == d.tokens && after.keyConsumers == d.keyConsumers && after.nodePrincipals == d.nodePrincipals
    ensures var archive := Consolidated(d, canonical, now).accountArchive;
            && archive.Some?
            && (forall r :: r in archive.value ==>
                  && r.original in d.accounts && IsLegacyName(r.original.id)
                  && r.canonical == canonical && r.migratedAt == now)
            && (forall a :: a in d.accounts && IsLegacyName(a.id) ==> ArchivedAccount(a, canonical, now) in archive.value)
    ensures var archive := Consolidated(d, canonical, now).transactionArchive;
            && archive.Some?
            && (forall r :: r in archive.value ==>
                  && r.canonical == canonical && r.migratedAt == now
                  && exists t :: t in d.transactions && IsLegacyName(t.providerId)
                       && r.transactionId == t.id && r.originalProvider == t.providerId)
            && (forall t :: t in d.transactions && IsLegacyName(t.providerId) ==>
                  ArchivedTransaction(t.id, t.providerId, canonical, now) in archive.value)
  {
    hide IsLegacyName;
    var kept, after := Where(d.accounts, IsKept), Consolidated(d, canonical, now);
    WhereParts(d.accounts);
    forall id | !IsLegacyName(id) ensures Has(after.accounts, id) <==> Has(d.accounts, id) {
      KeptIds(d.accounts, after.accounts, id);
    }
    forall a | a in after.accounts ensures !IsLegacyName(a.id) {
      var i :| 0 <= i < |after.accounts| && after.accounts[i] == a;
      assert kept[i] in kept;
    }
    ArchivedRows(LegacyAccounts(d), LegacyTransactions(d), canonical, now);
  }

  lemma ArchivedRows(rows: seq<Account>, ts: seq<Transaction>, canonical: string, now: real)
    ensures forall r :: r in ArchiveAccounts(rows, canonical, now) <==>
              r.original in rows && r.canonical == canonical && r.migratedAt == now
    ensures forall r :: r in ArchiveTransactions(ts, canonical, now) <==>
              exists t :: t in ts && r == ArchivedTransaction(t.id, t.providerId, canonical, now)
  {
    forall r: ArchivedAccount | r.original in rows && r.canonical == canonical && r.migratedAt == now
      ensures r in ArchiveAccounts(rows, canonical, now)
    {
      var i :| 0 <= i < |rows| && rows[i] == r.original;
      assert ArchiveAccounts(rows, canonical, now)[i] == r;
    }
    forall t | t in ts ensures ArchivedTransaction(t.id, t.providerId, canonical, now) in ArchiveTransactions(ts, canonical, now) {
      var i :| 0 <= i < |ts| && ts[i] == t;
      assert ArchiveTransactions(ts, canonical, now)[i] == ArchivedTransaction(t.id, t.providerId, canonical, now);
    }
  }

  lemma {:induction false} WhereParts(rows: seq<Account>)
    ensures |Where(rows, IsKept)| + |Where(rows, IsLegacy)| == |rows|
  {
    hide IsLegacyName;
    if rows != [] {
      WhereParts(rows[1..]);
    }
  }

  lemma KeptIds(rows: seq<Account>, after: seq<Account>, id: string)
    requires !IsLegacyName(id) && |after| == |Where(rows, IsKept)|
    requires forall i :: 0 <= i < |after| ==> after[i].id == Where(rows, IsKept)[i].id
    ensures Has(after, id) <==> Has(rows, id)
  {
    hide IsLegacyName;
    var kept := Where(rows, IsKept);
    if Has(after, id) {
      var i :| 0 <= i < |after| && after[i].id == id;
      assert kept[i] in kept;
      var k :| 0 <= k < |rows| && rows[k] == kept[i];
    }
    if Has(rows, id) {
      var k :| 0 <= k < |rows| && rows[k].id == id;
      assert rows[k] in kept;
      var i :| 0 <= i < |kept| && kept[i] == rows[k];
      assert after[i].id == id;
    }
  }

  /** Ids and every column but the provider survive, so cost, earning and fee totals do too. */
  lemma TransactionsKept(d: Database, canonical: string, now: real)
    ensures var after := Consolidated(d, canonical, now).transactions;
            && |after| == |d.transactions|
            && (forall i :: 0 <= i < |after| ==>
                  after[i] == d.transactions[i].(providerId := after[i].providerId)
                  && after[i].providerId == (if IsLegacyTransaction(d.transactions[i]) then canonical
                                             else d.transactions[i].providerId))
            && Sum(after, Cost) == Sum(d.transactions, Cost)
            && Sum(after, Earning) == Sum(d.transactions, Earning)
            && Sum(after, Fee) == Sum(d.transactions, Fee)
  {
    var after := RemapAll(d.transactions, canonical);
    SameSums(after, d.transactions, Cost, Cost);
    SameSums(after, d.transactions, Earning, Earning);
    SameSums(after, d.transactions, Fee, Fee);
  }

  /** After remapping, the canonical account's transactions are its own and the legacy ones. */
  lemma {:induction false} CanonicalEarnings(ts: seq<Transaction>, canonical: string)
    requires !IsLegacyName(canonical)
    ensures EarnedBy(RemapAll(ts, canonical), canonical)
            == EarnedBy(ts, canonical) + Sum(Where(ts, IsLegacyTransaction), Earning)
  {
    if ts != [] {
      CanonicalEarnings(ts[1..], canonical);
      assert RemapAll(ts, canonical)[1..] == RemapAll(ts[1..], canonical);
      var rest := Where(ts[1..], IsLegacyTransaction);
      assert ([ts[0]] + rest)[1..] == rest;
      assert [] + rest == rest;
    }
  }

  lemma {:induction false} OtherEarnings(ts: seq<Transaction>, canonical: string, id: string)
    requires !IsLegacyName(id) && id != canonical
    ensures EarnedBy(RemapAll(ts, canonical), id) == EarnedBy(ts, id)
  {
    if ts != [] {
      OtherEarnings(ts[1..], canonical, id);
      assert RemapAll(ts, canonical)[1..] == RemapAll(ts[1..], canonical);
    }
  }

  /** Every surviving account but the canonical one keeps its row and its attributed earnings. */
  lemma UnrelatedAccountsUnchanged(d: Database, canonical: string, now: real, a: Account)
    requires a in d.accounts && IsKept(a) && a.id != canonical
    ensures var after := Consolidated(d, canonical, now);
            a in after.accounts && EarnedBy(after.transactions, a.id) == EarnedBy(d.transactions, a.id)
  {
    var kept := Where(d.accounts, IsKept);
    var i :| 0 <= i < |kept| && kept[i] == a;
    assert Consolidated(d, canonical, now).accounts[i] == a;
    OtherEarnings(d.transactions, canonical, a.id);
  }

  /** The canonical account ends up explained by its (now larger) set of transactions. */
  lemma CanonicalReconciles(d: Database, canonical: string, now: real, a: Account)
    requires Keyed(d) && Plannable(d, canonical)
    requires a in Consolidated(d, canonical, now).accounts && a.id == canonical
    ensures ExplainedCanonical(a, Consolidated(d, canonical, now).transactions)
    ensures a.earned == EarnedBy(d.transactions, canonical) + LegacyEarned(d)
  {
    var k := CanonicalRow(d, canonical);
    var kept, after := Where(d.accounts, IsKept), Consolidated(d, canonical, now);
    CanonicalEarnings(d.transactions, canonical);
    var i :| 0 <= i < |after.accounts| && after.accounts[i] == a;
    assert kept[i].id == canonical && kept[i] in d.accounts;
    var m :| 0 <= m < |d.accounts| && d.accounts[m] == kept[i];
    assert m == k;
  }

  lemma PartitionCons(a: Account, rest: seq<Account>)
    ensures Where([a] + rest, IsKept) == (if IsLegacy(a) then [] else [a]) + Where(rest, IsKept)
    ensures Where([a] + rest, IsLegacy) == (if IsLegacy(a) then [a] else []) + Where(rest, IsLegacy)
  {
    assert ([a] + rest)[1..] == rest;
  }

  lemma {:induction false} WherePartitions(rows: seq<Account>)
    ensures |rows| == |Where(rows, IsKept)| + |Where(rows, IsLegacy)|
    ensures multiset(rows) == multiset(Where(rows, IsKept)) + multiset(Where(rows, IsLegacy))
  {
    if rows != [] {
      hide Where, IsLegacyName;
      var a, rest := rows[0], rows[1..];
      assert rows == [a] + rest;
      WherePartitions(rest);
      PartitionCons(a, rest);
    }
  }

  lemma {:induction false} BalancePartitions(rows: seq<Account>)
    ensures Sum(rows, Balance) == Sum(Where(rows, IsKept), Balance) + Sum(Where(rows, IsLegacy), Balance)
  {
    if rows != [] {
      BalancePartitions(rows[1..]);
      var kept, legacy := Where(rows[1..], IsKept), Where(rows[1..], IsLegacy);
      if IsLegacy(rows[0]) {
        assert Where(rows, IsKept) == kept && Where(rows, IsLegacy) == [rows[0]] + legacy;
        assert ([rows[0]] + legacy)[1..] == legacy;
      } else {
        assert Where(rows, IsLegacy) == legacy && Where(rows, IsKept) == [rows[0]] + kept;
        assert ([rows[0]] + kept)[1..] == kept;
      }
    }
  }

  lemma {:induction false} LegacyBalances(rows: seq<Account>, ts: seq<Transaction>)
    requires forall a :: a in rows ==> ExplainedLegacy(a, ts)
    ensures Sum(rows, Balance) == OPENING_MICRO * |rows| + Sum(rows, Earned)
  {
    if rows != [] {
      assert ExplainedLegacy(rows[0], ts);
      LegacyBalances(rows[1..], ts);
    }
  }

  lemma LegacyExplained(d: Database, canonical: string)
    requires Plannable(d, canonical)
    ensures forall a :: a in LegacyAccounts(d) ==> ExplainedLegacy(a, d.transactions)
  {
    assert !Holds(UnexplainedLegacy, d, canonical);
  }

  /** The total of all balances falls by exactly one opening credit per retired account. */
  lemma BalancesFallByOpeningCredits(d: Database, canonical: string, now: real)
    requires Keyed(d) && Plannable(d, canonical)
    ensures Sum(Consolidated(d, canonical, now).accounts, Balance)
            == Sum(d.accounts, Balance) - OPENING_MICRO * |LegacyAccounts(d)|
    ensures |Consolidated(d, canonical, now).accounts| == |d.accounts| - |LegacyAccounts(d)|
  {
    hide Plannable, DistinctAccounts, Has, Where, Sum, ExplainedLegacy, Post, LegacyEarned;
    LegacyExplained(d, canonical);
    var kept, amount := Where(d.accounts, IsKept), LegacyEarned(d);
    var k := CanonicalRow(d, canonical);
    WhereKeepsKeys(d.accounts, IsKept);
    PostMovesTotal(kept, canonical, amount, 0, amount, 0, 0);
    WherePartitions(d.accounts);
    BalancePartitions(d.accounts);
    LegacyEarningsAgree(d, canonical);
    LegacyBalances(LegacyAccounts(d), d.transactions);
  }

  /** A database that has been consolidated is refused, for whichever principal is proposed. */
  lemma SecondRunRefused(d: Database, canonical: string, now: real, again: string)
    ensures Holds(AlreadyArchived, Consolidated(d, canonical, now), again)
    ensures !Plannable(Consolidated(d, canonical, now), again)
    ensures Holds(NothingToConsolidate, Consolidated(d, canonical, now), again)
  {
    var kept, after := Where(d.accounts, IsKept), Consolidated(d, canonical, now);
    assert Holds(AlreadyArchived, after, again);
    forall a | a in after.accounts ensures !IsLegacy(a) {
      var i :| 0 <= i < |after.accounts| && after.accounts[i] == a;
      assert kept[i] in kept;
    }
  }

  /** The plan's own final check of the totals follows from its check of each transaction. */
  lemma {:induction false} TotalsCheckRedundant(ts: seq<Transaction>)
    requires forall t :: t in ts ==> Conserves(t)
    ensures Sum(ts, Cost) == Sum(ts, Earning) + Sum(ts, Fee)
  {
    if ts != [] {
      assert Conserves(ts[0]);
      TotalsCheckRedundant(ts[1..]);
    }
  }

  // --- The archives undo the rewrite -----------------------------------------

  function OriginalProvider(archive: seq<ArchivedTransaction>, id: nat, current: string): string {
    if archive == [] then current
    else if archive[0].transactionId == id then archive[0].originalProvider
    else OriginalProvider(archive[1..], id, current)
  }

  function Originals(archive: seq<ArchivedAccount>): (rows: seq<Account>)
    ensures |rows| == |archive|
  {
    seq(|archive|, i requires 0 <= i < |archive| => archive[i].original)
  }

  function Reattributed(ts: seq<Transaction>, archive: seq<ArchivedTransaction>): (r: seq<Transaction>)
    ensures |r| == |ts|
    ensures forall i :: 0 <= i < |r| ==>
              r[i] == ts[i].(providerId := OriginalProvider(archive, ts[i].id, ts[i].providerId))
  {
    seq(|ts|, i requires 0 <= i < |ts| =>
      ts[i].(providerId := OriginalProvider(archive, ts[i].id, ts[i].providerId)))
  }

  /** Rebuilds the ledger that the archives describe; `canonical` is recorded in every archived row. */
  function Restored(d: Database): Database {
    if d.accountArchive.None? || d.transactionArchive.None? || d.accountArchive.value == [] then d
    else
      var rows := Originals(d.accountArchive.value);
      var canonical := d.accountArchive.value[0].canonical;
      var amount := Sum(rows, Earned);
      d.(accounts := Post(d.accounts, canonical, -amount, 0, -amount, 0, 0) + rows,
         transactions := Reattributed(d.transactions, d.transactionArchive.value),
         accountArchive := None, transactionArchive := None)
  }

  ghost predicate DistinctTransactions(ts: seq<Transaction>) {
    forall i, j :: 0 <= i < j < |ts| ==> ts[i].id != ts[j].id
  }

  /** Looking up a transaction in the archive gives its provider before the rewrite. */
  lemma {:induction false} ArchiveRemembers(ts: seq<Transaction>, canonical: string, now: real, i: nat)
    requires i < |ts| && DistinctTransactions(ts)
    ensures OriginalProvider(ArchiveTransactions(Where(ts, IsLegacyTransaction), canonical, now), ts[i].id,
                             Remap(ts[i], canonical).providerId)
            == ts[i].providerId
  {
    hide ArchiveTransactions, OriginalProvider, IsLegacyName;
    var rest := Where(ts[1..], IsLegacyTransaction);
    assert [] + rest == rest;
    if IsLegacyTransaction(ts[0]) {
      FirstArchived(ts[0], rest, canonical, now, ts[i].id, Remap(ts[i], canonical).providerId);
    }
    if i > 0 {
      ArchiveRemembers(ts[1..], canonical, now, i - 1);
    } else if !IsLegacyTransaction(ts[0]) {
      assert forall t :: t in rest ==> t in ts[1..];
      NotArchived(rest, canonical, now, ts[0].id, ts[0].providerId);
    }
  }

  lemma FirstArchived(t: Transaction, rest: seq<Transaction>, canonical: string, now: real, id: nat, current: string)
    ensures OriginalProvider(ArchiveTransactions([t] + rest, canonical, now), id, current)
            == if t.id == id then t.providerId else OriginalProvider(ArchiveTransactions(rest, canonical, now), id, current)
  {
    assert ArchiveTransactions([t] + rest, canonical, now)[1..] == ArchiveTransactions(rest, canonical, now);
  }

  lemma {:induction false} NotArchived(rows: seq<Transaction>, canonical: string, now: real, id: nat, current: string)
    requires forall t :: t in rows ==> t.id != id
    ensures OriginalProvider(ArchiveTransactions(rows, canonical, now), id, current) == current
  {
    if rows != [] {
      assert ArchiveTransactions(rows, canonical, now)[1..] == ArchiveTransactions(rows[1..], canonical, now);
      NotArchived(rows[1..], canonical, now, id, current);
    }
  }

  lemma PostUndone(rows: seq<Account>, id: string, amount: int)
    ensures Post(Post(rows, id, amount, 0, amount, 0, 0), id, -amount, 0, -amount, 0, 0) == rows
  {
  }

  lemma ReattributionUndoesRemap(ts: seq<Transaction>, canonical: string, now: real)
    requires DistinctTransactions(ts)
    ensures Reattributed(RemapAll(ts, canonical), ArchiveTransactions(Where(ts, IsLegacyTransaction), canonical, now)) == ts
  {
    hide Where, OriginalProvider;
    var archive := ArchiveTransactions(Where(ts, IsLegacyTransaction), canonical, now);
    forall i | 0 <= i < |ts| ensures Reattributed(RemapAll(ts, canonical), archive)[i] == ts[i] {
      ArchiveRemembers(ts, canonical, now, i);
    }
  }

  lemma SomethingToArchive(d: Database, canonical: string)
    requires Plannable(d, canonical)
    ensures LegacyAccounts(d) != [] && d.accountArchive.None? && d.transactionArchive.None?
  {
    assert !Holds(NothingToConsolidate, d, canonical) && !Holds(AlreadyArchived, d, canonical);
  }

  lemma OriginalsOfArchive(rows: seq<Account>, canonical: string, now: real)
    ensures Originals(ArchiveAccounts(rows, canonical, now)) == rows
    ensures rows != [] ==> ArchiveAccounts(rows, canonical, now)[0].canonical == canonical
  {
  }

  lemma AccountsRestored(d: Database, canonical: string, now: real)
    requires Keyed(d) && Plannable(d, canonical)
    ensures Restored(Consolidated(d, canonical, now)).accounts == Where(d.accounts, IsKept) + LegacyAccounts(d)
  {
    hide Plannable, Where, Sum, Post, LegacyEarned, RemapAll, Reattributed, ArchiveTransactions, ArchiveAccounts,
      Originals, DistinctAccounts, LegacyAccounts;
    SomethingToArchive(d, canonical);
    OriginalsOfArchive(LegacyAccounts(d), canonical, now);
    LegacyEarningsAgree(d, canonical);
    PostUndone(Where(d.accounts, IsKept), canonical, LegacyEarned(d));
  }

  /** The two archives suffice to rebuild the original ledger: same transactions, same set of account rows. */
  lemma ArchivesRestoreLedger(d: Database, canonical: string, now: real)
    requires Keyed(d) && Plannable(d, canonical)
    ensures var restored := Restored(Consolidated(d, canonical, now));
            && restored.transactions == d.transactions
            && multiset(restored.accounts) == multiset(d.accounts)
            && restored == d.(accounts := restored.accounts)
  {
    hide Plannable, Where, Sum, Post, LegacyEarned, RemapAll, Reattributed, ArchiveTransactions, ArchiveAccounts,
      Originals, DistinctAccounts;
    SomethingToArchive(d, canonical);
    OriginalsOfArchive(LegacyAccounts(d), canonical, now);
    AccountsRestored(d, canonical, now);
    WherePartitions(d.accounts);
    ReattributionUndoesRemap(d.transactions, canonical, now);
  }
}
