/** The private earnings view: totals per node and a paginated history, newest first. */
module Earnings {
  import opened Options
  import opened Tables
  import opened Ledger
  import opened Store

  datatype NodeRow = NodeRow(nodeId: string, owner: string, billing: string)

  datatype NodeTotals = NodeTotals(
    nodeId: string, earned: int, ledgerEarned: int, fee: int, cost: int, requests: nat, reconciled: bool)

  datatype Page = Page(rows: seq<Transaction>, nextBeforeId: Option<nat>)

  datatype Report = Report(
    byNode: seq<NodeTotals>, earned: int, ledgerEarned: int, fee: int, cost: int, requests: int, reconciled: bool, page: Page)

  datatype QueryError = NodeNotOwned | InvalidPagination

  // --- The query -------------------------------------------------------------

  function OwnedNodes(nodes: seq<NodeRow>, owner: string, nodeId: Option<string>): (r: seq<NodeRow>)
    ensures forall n :: n in r <==> n in nodes && n.owner == owner && (nodeId.Some? ==> n.nodeId == nodeId.value)
  {
    if nodes == [] then []
    else
      (if nodes[0].owner == owner && (nodeId.Some? ==> nodes[0].nodeId == nodeId.value) then [nodes[0]] else [])
      + OwnedNodes(nodes[1..], owner, nodeId)
  }

  function Principals(nodes: seq<NodeRow>): set<string> {
    set n | n in nodes :: n.billing
  }

  /** The columns of a group-by on the provider. */
  function FeesBy(ts: seq<Transaction>, id: string): int {
    if ts == [] then 0 else (if ts[0].providerId == id then ts[0].fee else 0) + FeesBy(ts[1..], id)
  }

  function CostsBy(ts: seq<Transaction>, id: string): int {
    if ts == [] then 0 else (if ts[0].providerId == id then ts[0].cost else 0) + CostsBy(ts[1..], id)
  }

  function RequestsBy(ts: seq<Transaction>, id: string): nat {
    if ts == [] then 0 else (if ts[0].providerId == id then 1 else 0) + RequestsBy(ts[1..], id)
  }

  /** The joined account's earned column; no account counts as zero. */
  function LedgerEarned(rows: seq<Account>, id: string): int {
    if rows == [] then 0 else if rows[0].id == id then rows[0].earned else LedgerEarned(rows[1..], id)
  }

  function TotalsFor(b: Books, n: NodeRow): NodeTotals {
    var earned, ledger := EarnedBy(b.transactions, n.billing), LedgerEarned(b.accounts, n.billing);
    NodeTotals(n.nodeId, earned, ledger, FeesBy(b.transactions, n.billing), CostsBy(b.transactions, n.billing),
               RequestsBy(b.transactions, n.billing), earned == ledger)
  }

  function ByNode(b: Books, nodes: seq<NodeRow>): (r: seq<NodeTotals>)
    ensures |r| == |nodes| && forall i :: 0 <= i < |r| ==> r[i] == TotalsFor(b, nodes[i])
  {
    seq(|nodes|, i requires 0 <= i < |nodes| => TotalsFor(b, nodes[i]))
  }

  function EarnedOf(n: NodeTotals): int { n.earned }
  function LedgerOf(n: NodeTotals): int { n.ledgerEarned }
  function FeeOf(n: NodeTotals): int { n.fee }
  function CostOf(n: NodeTotals): int { n.cost }
  function RequestsOf(n: NodeTotals): int { n.requests }

  /** Transactions of these principals older than a cursor, newest first. */
  function Matching(ts: seq<Transaction>, mine: set<string>, before: Option<nat>): seq<Transaction> {
    if ts == [] then []
    else
      var n := |ts| - 1;
      (if ts[n].providerId in mine && (before.Some? ==> ts[n].id < before.value) then [ts[n]] else [])
      + Matching(ts[..n], mine, before)
  }

  function Limited(rows: seq<Transaction>, n: nat): (r: seq<Transaction>)
    ensures r == if n <= |rows| then rows[..n] else rows
  {
    if n <= |rows| then rows[..n] else rows
  }

  /** One row more than the page is fetched, to learn whether there are more. */
  function PageOf(ts: seq<Transaction>, mine: set<string>, before: Option<nat>, limit: nat): Page
    requires limit >= 1
  {
    var rows := Limited(Matching(ts, mine, before), limit + 1);
    var page := Limited(rows, limit);
    Page(page, if |rows| > limit then Some(page[|page| - 1].id) else None)
  }

  function OwnedEarnings(b: Books, nodes: seq<NodeRow>, owner: string, nodeId: Option<string>,
                         limit: int, before: Option<nat>): Result<Report, QueryError>
  {
    var owned := OwnedNodes(nodes, owner, nodeId);
    if nodeId.Some? && owned == [] then Err(NodeNotOwned)
    else if !(1 <= limit <= 100) || (before.Some? && before.value < 1) then Err(InvalidPagination)
    else
      var rows := ByNode(b, owned);
      Ok(Report(rows, Sum(rows, EarnedOf), Sum(rows, LedgerOf), Sum(rows, FeeOf), Sum(rows, CostOf),
                Sum(rows, RequestsOf), forall r :: r in rows ==> r.reconciled,
                PageOf(b.transactions, Principals(owned), before, limit)))
  }

  lemma NoTotals()
    ensures Sum<NodeTotals>([], EarnedOf) == Sum<NodeTotals>([], LedgerOf) == 0
    ensures Sum<NodeTotals>([], FeeOf) == Sum<NodeTotals>([], CostOf) == Sum<NodeTotals>([], RequestsOf) == 0
  {
  }

  lemma {:induction false} NothingOwned(ts: seq<Transaction>, limit: nat, before: Option<nat>)
    requires limit >= 1
    ensures Matching(ts, {}, before) == []
    ensures PageOf(ts, Principals([]), before, limit) == Page([], None)
  {
    assert Principals([]) == {};
    if ts != [] {
      NothingOwned(ts[..|ts| - 1], limit, before);
    }
  }

  /** The totals of each node, in turn. */
  method NodeByNode(b: Books, owned: seq<NodeRow>) returns (byNode: seq<NodeTotals>)
    ensures byNode == ByNode(b, owned)
  {
    hide EarnedBy, LedgerEarned, FeesBy, CostsBy, RequestsBy;
    byNode := [];
    for i := 0 to |owned|
      invariant |byNode| == i && forall k :: 0 <= k < i ==> byNode[k] == TotalsFor(b, owned[k])
    {
      var billing := owned[i].billing;
      var earned, ledger := EarnedBy(b.transactions, billing), LedgerEarned(b.accounts, billing);
      byNode := byNode + [NodeTotals(owned[i].nodeId, earned, ledger, FeesBy(b.transactions, billing),
                                     CostsBy(b.transactions, billing), RequestsBy(b.transactions, billing),
                                     earned == ledger)];
    }
  }

  /** The view as it is computed: node by node, then one page of rows with one to spare. */
  method GetOwnedProviderEarnings(b: Books, nodes: seq<NodeRow>, owner: string, nodeId: Option<string>,
                                  limit: int, before: Option<nat>) returns (r: Result<Report, QueryError>)
    ensures r == OwnedEarnings(b, nodes, owner, nodeId, limit, before)
  {
    hide OwnedNodes, ByNode, Matching, Sum, Principals;
    var owned := OwnedNodes(nodes, owner, nodeId);
    if nodeId.Some? && owned == [] {
      return Err(NodeNotOwned);
    }
    if !(1 <= limit <= 100) || (before.Some? && before.value < 1) {
      return Err(InvalidPagination);
    }
    if owned == [] {
      NothingOwned(b.transactions, limit, before);
      NoTotals();
      return Ok(Report([], 0, 0, 0, 0, 0, true, Page([], None)));
    }
    var byNode := NodeByNode(b, owned);
    var rows := Limited(Matching(b.transactions, Principals(owned), before), limit + 1);
    var hasMore := |rows| > limit;
    var page := Limited(rows, limit);
    r := Ok(Report(byNode, Sum(byNode, EarnedOf), Sum(byNode, LedgerOf), Sum(byNode, FeeOf), Sum(byNode, CostOf),
                   Sum(byNode, RequestsOf), forall row :: row in byNode ==> row.reconciled,
                   Page(page, if hasMore && page != [] then Some(page[|page| - 1].id) else None)));
  }

  // --- Pages join up ---------------------------------------------------------

  lemma {:induction false} MatchingMembers(ts: seq<Transaction>, mine: set<string>, before: Option<nat>)
    ensures forall t :: t in Matching(ts, mine, before) <==>
              t in ts && t.providerId in mine && (before.Some? ==> t.id < before.value)
  {
    if ts != [] {
      MatchingMembers(ts[..|ts| - 1], mine, before);
      assert ts == ts[..|ts| - 1] + [ts[|ts| - 1]];
    }
  }

  /** Newest first: ids strictly fall. */
  lemma {:induction false} MatchingDescends(ts: seq<Transaction>, mine: set<string>, before: Option<nat>)
    requires Ascending(ts)
    ensures forall i, j :: 0 <= i < j < |Matching(ts, mine, before)| ==>
              Matching(ts, mine, before)[i].id > Matching(ts, mine, before)[j].id
  {
    if ts != [] {
      var n := |ts| - 1;
      MatchingDescends(ts[..n], mine, before);
      MatchingMembers(ts[..n], mine, before);
      var rest := Matching(ts[..n], mine, before);
      forall j | 0 <= j < |rest| ensures rest[j].id < ts[n].id {
        assert rest[j] in ts[..n];
      }
    }
  }

  /** A cursor above every id filters nothing. */
  lemma {:induction false} HighCursor(ts: seq<Transaction>, mine: set<string>, before: Option<nat>, high: nat)
    requires forall t :: t in ts ==> t.id < high && (before.Some? ==> t.id < before.value)
    ensures Matching(ts, mine, Some(high)) == Matching(ts, mine, before)
  {
    if ts != [] {
      assert ts[|ts| - 1] in ts;
      HighCursor(ts[..|ts| - 1], mine, before, high);
    }
  }

  lemma MatchingAt(ts: seq<Transaction>, mine: set<string>, before: Option<nat>, k: nat)
    requires k < |Matching(ts, mine, before)|
    ensures Matching(ts, mine, before)[k] in ts
    ensures before.Some? ==> Matching(ts, mine, before)[k].id < before.value
  {
    MatchingMembers(ts, mine, before);
    assert Matching(ts, mine, before)[k] in Matching(ts, mine, before);
  }

  lemma BelowLast(ts: seq<Transaction>, t: Transaction)
    requires Ascending(ts) && ts != [] && t in ts[..|ts| - 1]
    ensures t.id < ts[|ts| - 1].id
  {
    var i :| 0 <= i < |ts| - 1 && ts[i] == t;
  }

  predicate Qualifies(t: Transaction, mine: set<string>, before: Option<nat>) {
    t.providerId in mine && (before.Some? ==> t.id < before.value)
  }

  /** The newest row first, if it qualifies; then the rest. */
  lemma MatchingStep(ts: seq<Transaction>, mine: set<string>, before: Option<nat>)
    requires ts != []
    ensures var n := |ts| - 1;
            Matching(ts, mine, before)
            == (if Qualifies(ts[n], mine, before) then [ts[n]] else []) + Matching(ts[..n], mine, before)
  {
  }

  /** With the newest row out of a cursor's reach, the cursor sees only the rest. */
  lemma CursorSkips(ts: seq<Transaction>, mine: set<string>, cursor: nat)
    requires ts != [] && ts[|ts| - 1].id >= cursor
    ensures Matching(ts, mine, Some(cursor)) == Matching(ts[..|ts| - 1], mine, Some(cursor))
  {
    assert [] + Matching(ts[..|ts| - 1], mine, Some(cursor)) == Matching(ts[..|ts| - 1], mine, Some(cursor));
  }

  lemma CursorAtNewest(ts: seq<Transaction>, mine: set<string>, before: Option<nat>)
    requires ts != [] && Ascending(ts) && Qualifies(ts[|ts| - 1], mine, before)
    ensures Matching(ts, mine, Some(ts[|ts| - 1].id)) == Matching(ts[..|ts| - 1], mine, before)
  {
    hide Matching;
    var n := |ts| - 1;
    forall t | t in ts[..n] ensures t.id < ts[n].id {
      BelowLast(ts, t);
    }
    HighCursor(ts[..n], mine, before, ts[n].id);
    CursorSkips(ts, mine, ts[n].id);
  }

  /** The `m`-th of the older rows is reached by the cursor as it was without the newest row. */
  lemma CursorBelow(ts: seq<Transaction>, mine: set<string>, before: Option<nat>, m: nat)
    requires ts != [] && Ascending(ts) && m < |Matching(ts[..|ts| - 1], mine, before)|
    ensures var cursor := Some(Matching(ts[..|ts| - 1], mine, before)[m].id);
            Matching(ts, mine, cursor) == Matching(ts[..|ts| - 1], mine, cursor)
  {
    hide Matching, Ascending;
    var rest := Matching(ts[..|ts| - 1], mine, before);
    MatchingAt(ts[..|ts| - 1], mine, before, m);
    BelowLast(ts, rest[m]);
    CursorSkips(ts, mine, rest[m].id);
  }

  lemma NoRowsFromNothing(mine: set<string>, before: Option<nat>)
    ensures Matching([], mine, before) == []
  {
  }

  /** Asking for rows older than the `k`-th row gives the rows after it. */
  lemma {:induction false} CursorContinues(ts: seq<Transaction>, mine: set<string>, before: Option<nat>, k: nat)
    requires Ascending(ts) && k < |Matching(ts, mine, before)|
    ensures Matching(ts, mine, Some(Matching(ts, mine, before)[k].id)) == Matching(ts, mine, before)[k + 1..]
    decreases |ts|
  {
    hide Matching, Ascending, Qualifies;
    NoRowsFromNothing(mine, before);
    var n := |ts| - 1;
    var rest := Matching(ts[..n], mine, before);
    MatchingStep(ts, mine, before);
    if Qualifies(ts[n], mine, before) && k == 0 {
      CursorAtNewest(ts, mine, before);
      assert ([ts[n]] + rest)[1..] == rest;
    } else {
      var m := if Qualifies(ts[n], mine, before) then k - 1 else k;
      InitAscends(ts);
      CursorBelow(ts, mine, before, m);
      CursorContinues(ts[..n], mine, before, m);
      assert Matching(ts, mine, before)[k + 1..] == rest[m + 1..];
    }
  }

  lemma InitAscends(ts: seq<Transaction>)
    requires ts != [] && Ascending(ts)
    ensures Ascending(ts[..|ts| - 1])
  {
  }

  /** Rows appended later have higher ids and stay out of every cursor's reach. */
  lemma {:induction false} AppendedUnseen(ts: seq<Transaction>, more: seq<Transaction>, mine: set<string>, cursor: nat)
    requires forall t :: t in more ==> t.id >= cursor
    ensures Matching(ts + more, mine, Some(cursor)) == Matching(ts, mine, Some(cursor))
    decreases |more|
  {
    if more == [] {
      assert ts + more == ts;
    } else {
      var n := |more| - 1;
      assert (ts + more)[..|ts + more| - 1] == ts + more[..n];
      assert more[n] in more;
      AppendedUnseen(ts, more[..n], mine, cursor);
    }
  }

  function Extended(ts: seq<Transaction>, arrivals: seq<seq<Transaction>>): seq<Transaction>
    decreases |arrivals|
  {
    if arrivals == [] then ts else Extended(ts + arrivals[0], arrivals[1..])
  }

  lemma {:induction false} ExtendedKeepsPrefix(ts: seq<Transaction>, arrivals: seq<seq<Transaction>>)
    ensures ts <= Extended(ts, arrivals)
    decreases |arrivals|
  {
    if arrivals != [] {
      ExtendedKeepsPrefix(ts + arrivals[0], arrivals[1..]);
      assert ts <= ts + arrivals[0];
    }
  }

  /** Follow `nextBeforeId` to the end; before each further page the next batch of rows arrives. */
  function Crawl(ts: seq<Transaction>, arrivals: seq<seq<Transaction>>, mine: set<string>, before: Option<nat>, limit: nat)
    : seq<Transaction>
    requires limit >= 1
    decreases if before.None? then 1 else 0, if before.None? then 0 else before.value
  {
    var page := PageOf(ts, mine, before, limit);
    MatchingMembers(ts, mine, before);
    if page.nextBeforeId.None? then page.rows
    else
      assert page.rows[limit - 1] in Matching(ts, mine, before);
      page.rows
      + Crawl(if arrivals == [] then ts else ts + arrivals[0], if arrivals == [] then [] else arrivals[1..],
              mine, page.nextBeforeId, limit)
  }

  /**
   The concatenated pages are the history as it was when the first page was read: every row once,
   newest first, none missing, whatever is appended in the meantime and whatever the page size.
   */
  lemma {:induction false} CrawlIsComplete(
    ts: seq<Transaction>, arrivals: seq<seq<Transaction>>, mine: set<string>, before: Option<nat>, limit: nat)
    requires limit >= 1 && Ascending(Extended(ts, arrivals))
    ensures Crawl(ts, arrivals, mine, before, limit) == Matching(ts, mine, before)
    decreases if before.None? then 1 else 0, if before.None? then 0 else before.value
  {
    var page := PageOf(ts, mine, before, limit);
    if page.nextBeforeId.Some? {
      hide Matching, Ascending, Extended, PageOf, Crawl;
      var cursor := page.nextBeforeId.value;
      var rest := if arrivals == [] then [] else arrivals[1..];
      CrawlStep(ts, arrivals, mine, before, limit);
      PrefixAscends(ts, Extended(ts, arrivals), arrivals);
      PageSplits(ts, mine, before, limit);
      if arrivals == [] {
        CrawlIsComplete(ts, [], mine, Some(cursor), limit);
      } else {
        ExtendedStep(ts, arrivals);
        NewerThanCursor(ts, arrivals[0], Extended(ts, arrivals), cursor);
        CrawlIsComplete(ts + arrivals[0], rest, mine, Some(cursor), limit);
        AppendedUnseen(ts, arrivals[0], mine, cursor);
      }
    }
  }

  lemma CrawlStep(ts: seq<Transaction>, arrivals: seq<seq<Transaction>>, mine: set<string>, before: Option<nat>, limit: nat)
    requires limit >= 1 && PageOf(ts, mine, before, limit).nextBeforeId.Some?
    ensures var page := PageOf(ts, mine, before, limit);
            Crawl(ts, arrivals, mine, before, limit)
            == page.rows + (if arrivals == [] then Crawl(ts, [], mine, page.nextBeforeId, limit)
                            else Crawl(ts + arrivals[0], arrivals[1..], mine, page.nextBeforeId, limit))
  {
  }

  /** A page and the rows older than its cursor make up everything asked for. */
  lemma PageSplits(ts: seq<Transaction>, mine: set<string>, before: Option<nat>, limit: nat)
    requires limit >= 1 && Ascending(ts) && PageOf(ts, mine, before, limit).nextBeforeId.Some?
    ensures var page := PageOf(ts, mine, before, limit);
            && Matching(ts, mine, before) == page.rows + Matching(ts, mine, page.nextBeforeId)
            && (before.Some? ==> page.nextBeforeId.value < before.value)
            && exists t :: t in ts && t.id == page.nextBeforeId.value
  {
    hide Matching;
    var all, page := Matching(ts, mine, before), PageOf(ts, mine, before, limit);
    assert page.nextBeforeId.value == all[limit - 1].id && page.rows == all[..limit];
    MatchingAt(ts, mine, before, limit - 1);
    CursorContinues(ts, mine, before, limit - 1);
  }

  lemma PrefixAscends(ts: seq<Transaction>, all: seq<Transaction>, arrivals: seq<seq<Transaction>>)
    requires Ascending(all) && all == Extended(ts, arrivals)
    ensures Ascending(ts)
  {
    ExtendedKeepsPrefix(ts, arrivals);
    assert forall i :: 0 <= i < |ts| ==> ts[i] == all[i];
  }

  lemma ExtendedStep(ts: seq<Transaction>, arrivals: seq<seq<Transaction>>)
    requires arrivals != []
    ensures Extended(ts, arrivals) == Extended(ts + arrivals[0], arrivals[1..])
    ensures ts + arrivals[0] <= Extended(ts, arrivals)
  {
    ExtendedKeepsPrefix(ts + arrivals[0], arrivals[1..]);
  }

  lemma NewerThanCursor(ts: seq<Transaction>, more: seq<Transaction>, all: seq<Transaction>, cursor: nat)
    requires Ascending(all) && ts + more <= all
    requires exists t :: t in ts && t.id == cursor
    ensures forall t :: t in more ==> t.id >= cursor
  {
    var t :| t in ts && t.id == cursor;
    var i :| 0 <= i < |ts| && ts[i] == t;
    assert all[i] == t;
    forall u | u in more ensures u.id >= cursor {
      var k :| 0 <= k < |more| && more[k] == u;
      assert all[|ts| + k] == u;
    }
  }

  /** What each batch of further steps appends to the table. */
  function Arrivals(b: Books, batches: seq<seq<Step>>): seq<seq<Transaction>>
    decreases |batches|
  {
    if batches == [] then []
    else
      RunAppends(b, batches[0]);
      var after := Run(b, batches[0]);
      [after.transactions[|b.transactions|..]] + Arrivals(after, batches[1..])
  }

  lemma {:induction false} ArrivalsAscend(b: Books, batches: seq<seq<Step>>)
    requires AscendingIds(b)
    ensures Ascending(Extended(b.transactions, Arrivals(b, batches)))
    decreases |batches|
  {
    hide Run, Ascending;
    if batches != [] {
      var after := Run(b, batches[0]);
      IdsOverRuns(b, batches[0]);
      RunAppends(b, batches[0]);
      ArrivalsAscend(after, batches[1..]);
      assert b.transactions + after.transactions[|b.transactions|..] == after.transactions;
      assert Arrivals(b, batches)[1..] == Arrivals(after, batches[1..]);
    }
  }

  /** In every run, with any further steps between the pages: the crawl gives the history as first seen. */
  lemma CrawlOverRuns(steps: seq<Step>, batches: seq<seq<Step>>, mine: set<string>, before: Option<nat>, limit: nat)
    requires limit >= 1
    ensures var b := Run(Books([], [], 1), steps);
            Crawl(b.transactions, Arrivals(b, batches), mine, before, limit) == Matching(b.transactions, mine, before)
  {
    hide Run, Crawl, Matching;
    var b := Run(Books([], [], 1), steps);
    IdsOverRuns(Books([], [], 1), steps);
    ArrivalsAscend(b, batches);
    CrawlIsComplete(b.transactions, Arrivals(b, batches), mine, before, limit);
  }

  // --- Totals and history agree ----------------------------------------------

  ghost predicate DistinctPrincipals(nodes: seq<NodeRow>) {
    forall i, j :: 0 <= i < j < |nodes| ==> nodes[i].billing != nodes[j].billing
  }

  lemma FirstPrincipal(nodes: seq<NodeRow>)
    requires nodes != [] && DistinctPrincipals(nodes)
    ensures Principals(nodes) == {nodes[0].billing} + Principals(nodes[1..])
    ensures nodes[0].billing !in Principals(nodes[1..])
  {
    assert nodes == [nodes[0]] + nodes[1..];
  }

  lemma {:induction false} ColumnsSnoc(ts: seq<Transaction>, t: Transaction, id: string)
    ensures FeesBy(ts + [t], id) == FeesBy(ts, id) + (if t.providerId == id then t.fee else 0)
    ensures CostsBy(ts + [t], id) == CostsBy(ts, id) + (if t.providerId == id then t.cost else 0)
    ensures RequestsBy(ts + [t], id) == RequestsBy(ts, id) + (if t.providerId == id then 1 else 0)
  {
    if ts == [] {
      assert ts + [t] == [t];
      assert [t][1..] == [];
    } else {
      assert (ts + [t])[1..] == ts[1..] + [t];
      ColumnsSnoc(ts[1..], t, id);
    }
  }

  lemma {:induction false} OneNodeShare(b: Books, nodes: seq<NodeRow>, t: Transaction)
    requires DistinctPrincipals(nodes)
    ensures var before, after := ByNode(b, nodes), ByNode(b.(transactions := b.transactions + [t]), nodes);
            var mine := t.providerId in Principals(nodes);
            && Sum(after, EarnedOf) == Sum(before, EarnedOf) + (if mine then t.earning else 0)
            && Sum(after, FeeOf) == Sum(before, FeeOf) + (if mine then t.fee else 0)
            && Sum(after, CostOf) == Sum(before, CostOf) + (if mine then t.cost else 0)
            && Sum(after, RequestsOf) == Sum(before, RequestsOf) + (if mine then 1 else 0)
  {
    if nodes != [] {
      var after := b.(transactions := b.transactions + [t]);
      hide EarnedBy, LedgerEarned, FeesBy, CostsBy, RequestsBy;
      OneNodeShare(b, nodes[1..], t);
      EarnedBySnoc(b.transactions, t, nodes[0].billing);
      ColumnsSnoc(b.transactions, t, nodes[0].billing);
      assert ByNode(after, nodes)[1..] == ByNode(after, nodes[1..]);
      assert ByNode(b, nodes)[1..] == ByNode(b, nodes[1..]);
      FirstPrincipal(nodes);
    }
  }

  /** The reported totals are those of the rows on all pages of the history. */
  lemma {:induction false} SummaryIsHistoryTotal(b: Books, nodes: seq<NodeRow>)
    requires DistinctPrincipals(nodes)
    ensures var history := Matching(b.transactions, Principals(nodes), None);
            && Sum(ByNode(b, nodes), EarnedOf) == Sum(history, Earning)
            && Sum(ByNode(b, nodes), FeeOf) == Sum(history, Fee)
            && Sum(ByNode(b, nodes), CostOf) == Sum(history, Cost)
            && Sum(ByNode(b, nodes), RequestsOf) == |history|
    decreases |b.transactions|
  {
    var ts := b.transactions;
    if ts == [] {
      NoEarnings(b, nodes);
    } else {
      var n := |ts| - 1;
      var before := b.(transactions := ts[..n]);
      SummaryIsHistoryTotal(before, nodes);
      assert ts == ts[..n] + [ts[n]];
      OneNodeShare(before, nodes, ts[n]);
      HistoryStep(ts, Principals(nodes));
      hide Matching, Sum, ByNode, Principals;
    }
  }

  lemma HistoryStep(ts: seq<Transaction>, mine: set<string>)
    requires ts != []
    ensures var t, before, after := ts[|ts| - 1], Matching(ts[..|ts| - 1], mine, None), Matching(ts, mine, None);
            && Sum(after, Earning) == Sum(before, Earning) + (if t.providerId in mine then t.earning else 0)
            && Sum(after, Fee) == Sum(before, Fee) + (if t.providerId in mine then t.fee else 0)
            && Sum(after, Cost) == Sum(before, Cost) + (if t.providerId in mine then t.cost else 0)
            && |after| == |before| + (if t.providerId in mine then 1 else 0)
  {
    var t, before := ts[|ts| - 1], Matching(ts[..|ts| - 1], mine, None);
    assert ([t] + before)[1..] == before && [] + before == before;
  }

  lemma {:induction false} NoEarnings(b: Books, nodes: seq<NodeRow>)
    requires b.transactions == []
    ensures Sum(ByNode(b, nodes), EarnedOf) == Sum(ByNode(b, nodes), FeeOf) == 0
    ensures Sum(ByNode(b, nodes), CostOf) == Sum(ByNode(b, nodes), RequestsOf) == 0
  {
    if nodes != [] {
      NoEarnings(b, nodes[1..]);
      assert ByNode(b, nodes)[1..] == ByNode(b, nodes[1..]);
    }
  }

  lemma {:induction false} SplitTotals(ts: seq<Transaction>)
    requires forall t :: t in ts ==> t.cost == t.earning + t.fee
    ensures Sum(ts, Cost) == Sum(ts, Earning) + Sum(ts, Fee)
  {
    if ts != [] {
      SplitTotals(ts[1..]);
    }
  }

  /** The totals of one node are those of its own rows. */
  lemma NodeIsHistoryTotal(b: Books, node: NodeRow)
    ensures var history, totals := Matching(b.transactions, {node.billing}, None), TotalsFor(b, node);
            && totals.nodeId == node.nodeId && totals.earned == Sum(history, Earning) && totals.fee == Sum(history, Fee)
            && totals.cost == Sum(history, Cost) && totals.requests == |history|
  {
    SummaryIsHistoryTotal(b, [node]);
    assert Principals([node]) == {node.billing};
    var rows := ByNode(b, [node]);
    assert rows[1..] == [] && rows[0] == TotalsFor(b, node);
  }

  /** A report is refused exactly for a node that is not the owner's, or else for a page of fewer than 1 or more than 100 rows. */
  lemma ReportRefusals(b: Books, nodes: seq<NodeRow>, owner: string, nodeId: Option<string>, limit: int, before: Option<nat>)
    ensures var r := OwnedEarnings(b, nodes, owner, nodeId, limit, before);
            var unknown := nodeId.Some? && forall n :: n in nodes ==> n.owner != owner || n.nodeId != nodeId.value;
            && (r == Err(NodeNotOwned) <==> unknown)
            && (r == Err(InvalidPagination) <==> !unknown && (limit < 1 || limit > 100 || before == Some(0)))
  {
    hide ByNode, PageOf, OwnedNodes;
    var owned := OwnedNodes(nodes, owner, nodeId);
    if nodeId.Some? && exists n :: n in nodes && n.owner == owner && n.nodeId == nodeId.value {
      var n :| n in nodes && n.owner == owner && n.nodeId == nodeId.value;
      assert n in owned;
    }
    if owned != [] {
      assert owned[0] in owned;
    }
  }

  /**
   What else a report says: the totals of the owner's history, in which earnings and fees make up the
   costs, and the newest rows before the cursor, with a cursor for more exactly if there are more.
   */
  lemma ReportIsExact(b: Books, nodes: seq<NodeRow>, owner: string, nodeId: Option<string>, limit: int, before: Option<nat>)
    requires DistinctPrincipals(OwnedNodes(nodes, owner, nodeId))
    requires forall t :: t in b.transactions ==> t.cost == t.earning + t.fee
    requires OwnedEarnings(b, nodes, owner, nodeId, limit, before).Ok?
    ensures var report, owned := OwnedEarnings(b, nodes, owner, nodeId, limit, before).value, OwnedNodes(nodes, owner, nodeId);
            var history := Matching(b.transactions, Principals(owned), None);
            && report.earned == Sum(history, Earning) && report.fee == Sum(history, Fee)
            && report.cost == Sum(history, Cost) == report.earned + report.fee && report.requests == |history|
            && |report.byNode| == |owned| && forall i :: 0 <= i < |owned| ==> report.byNode[i] == TotalsFor(b, owned[i])
    ensures var page := OwnedEarnings(b, nodes, owner, nodeId, limit, before).value.page;
            var rows := Matching(b.transactions, Principals(OwnedNodes(nodes, owner, nodeId)), before);
            && page.rows == (if |rows| <= limit then rows else rows[..limit])
            && page.nextBeforeId == (if |rows| <= limit then None else Some(rows[limit - 1].id))
  {
    hide ByNode, Matching, TotalsFor, Sum, OwnedNodes;
    var owned := OwnedNodes(nodes, owner, nodeId);
    SummaryIsHistoryTotal(b, owned);
    MatchingMembers(b.transactions, Principals(owned), None);
    SplitTotals(Matching(b.transactions, Principals(owned), None));
  }

  lemma {:induction false} LedgerEarnedIsRow(rows: seq<Account>, id: string)
    requires DistinctAccounts(rows)
    ensures Has(rows, id) ==> exists a :: a in rows && a.id == id && LedgerEarned(rows, id) == a.earned
    ensures !Has(rows, id) ==> LedgerEarned(rows, id) == 0
  {
    if rows != [] {
      HasTail(rows, id);
      if rows[0].id == id {
        assert rows[0] in rows;
      } else {
        LedgerEarnedIsRow(rows[1..], id);
      }
    }
  }

  /** Once every earned column is explained, every node reconciles, for every owner, node filter and page. */
  lemma ExplainedReconciles(b: Books, nodes: seq<NodeRow>, owner: string, nodeId: Option<string>, limit: int, before: Option<nat>)
    requires EarningsSound(b)
    ensures var r := OwnedEarnings(b, nodes, owner, nodeId, limit, before);
            r.Ok? ==> r.value.reconciled && r.value.earned == r.value.ledgerEarned
  {
    hide EarningsSound;
    var owned := OwnedNodes(nodes, owner, nodeId);
    var rows := ByNode(b, owned);
    forall i | 0 <= i < |rows| ensures rows[i].reconciled {
      NodeReconciles(b, owned[i]);
    }
    SameSums(rows, rows, EarnedOf, LedgerOf);
  }

  /** After any run of accounts and charges, even of missing consumers, the report is always reconciled. */
  lemma AlwaysReconciled(steps: seq<Step>, nodes: seq<NodeRow>, owner: string, nodeId: Option<string>, limit: int, before: Option<nat>)
    ensures var r := OwnedEarnings(Run(Books([], [], 1), steps), nodes, owner, nodeId, limit, before);
            r.Ok? ==> r.value.reconciled && r.value.earned == r.value.ledgerEarned
  {
    hide OwnedEarnings, Run;
    EarningsOverRuns(Books([], [], 1), steps);
    ExplainedReconciles(Run(Books([], [], 1), steps), nodes, owner, nodeId, limit, before);
  }

  lemma NodeReconciles(b: Books, n: NodeRow)
    requires EarningsSound(b)
    ensures TotalsFor(b, n).reconciled
  {
    LedgerEarnedIsRow(b.accounts, n.billing);
    if Has(b.accounts, n.billing) {
      var a :| a in b.accounts && a.id == n.billing && LedgerEarned(b.accounts, n.billing) == a.earned;
      var i :| 0 <= i < |b.accounts| && b.accounts[i] == a;
    } else {
      assert forall t :: t in b.transactions ==> t.providerId != n.billing;
      NothingEarned(b.transactions, n.billing);
    }
  }
}
