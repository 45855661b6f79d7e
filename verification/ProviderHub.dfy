/** The hub itself: its fields, and the operations that update them in place. */
module Hub {
  import opened Decimals
  import opened Options
  import opened MatchingModels
  import opened SerialAllocation
  import opened Sorting
  import opened GreedyStrategy
  import opened Routing
  import opened WaitLine
  import opened BillingEvents
  import opened Selection

  // --- Provider ids ----------------------------------------------------------

  function ProviderId(n: nat): string {
    "provider-" + Decimal(n)
  }

  lemma ProviderIdInjective(a: nat, b: nat)
    requires ProviderId(a) == ProviderId(b)
    ensures a == b
  {
    assert ProviderId(a)[9..] == Decimal(a) && ProviderId(b)[9..] == Decimal(b);
    DecimalInjective(a, b);
  }

  ghost predicate Issued(id: string, counter: nat) {
    exists n: nat :: n <= counter && id == ProviderId(n)
  }

  lemma NextIsNew(counter: nat)
    ensures !Issued(ProviderId(counter + 1), counter)
    ensures forall id :: Issued(id, counter) ==> Issued(id, counter + 1)
    ensures Issued(ProviderId(counter + 1), counter + 1)
  {
    hide ProviderId;
    forall n: nat | n <= counter ensures ProviderId(counter + 1) != ProviderId(n) {
      if ProviderId(counter + 1) == ProviderId(n) {
        ProviderIdInjective(counter + 1, n);
      }
    }
  }

  // --- The providers as a dictionary in registration order -------------------

  ghost predicate DistinctProviders(ps: seq<ConnectedProvider>) {
    forall i, j :: 0 <= i < j < |ps| ==> ps[i].id != ps[j].id
  }

  predicate Connected(ps: seq<ConnectedProvider>, id: string) {
    exists p :: p in ps && p.id == id
  }

  function Renewed(ps: seq<ConnectedProvider>, id: string, f: ConnectedProvider -> ConnectedProvider)
    : (r: seq<ConnectedProvider>)
    ensures |r| == |ps|
    ensures forall i :: 0 <= i < |ps| ==> r[i] == if ps[i].id == id then f(ps[i]) else ps[i]
  {
    seq(|ps|, i requires 0 <= i < |ps| => if ps[i].id == id then f(ps[i]) else ps[i])
  }

  function Without(ps: seq<ConnectedProvider>, id: string): (r: seq<ConnectedProvider>)
    ensures forall p :: p in r <==> p in ps && p.id != id
  {
    if ps == [] then [] else (if ps[0].id == id then [] else [ps[0]]) + Without(ps[1..], id)
  }

  lemma WithoutDistinct(ps: seq<ConnectedProvider>, id: string)
    requires DistinctProviders(ps)
    ensures DistinctProviders(Without(ps, id))
    decreases |ps|
  {
    if ps != [] {
      WithoutDistinct(ps[1..], id);
      forall p | p in Without(ps[1..], id) ensures p.id != ps[0].id {
        var i :| 0 <= i < |ps[1..]| && ps[1..][i] == p;
      }
    }
  }

  function Busier(p: ConnectedProvider): ConnectedProvider {
    p.(active := p.active + 1)
  }

  function Freer(p: ConnectedProvider): ConnectedProvider {
    p.(active := if p.active - 1 > 0 then p.active - 1 else 0)
  }

  function Reporting(active: int): ConnectedProvider -> ConnectedProvider {
    (p: ConnectedProvider) => p.(active := active)
  }

  function Quarantining(quarantined: bool): ConnectedProvider -> ConnectedProvider {
    (p: ConnectedProvider) => p.(quarantined := quarantined)
  }

  /** A send and its completion cancel out, exactly as long as no heartbeat has reported a negative load. */
  lemma LoadRestoredIff(ps: seq<ConnectedProvider>, id: string)
    ensures Renewed(Renewed(ps, id, Busier), id, Freer) == ps
            <==> forall p :: p in ps && p.id == id ==> p.active >= 0
  {
    var after := Renewed(Renewed(ps, id, Busier), id, Freer);
    forall i | 0 <= i < |ps| ensures after[i] == ps[i] <==> (ps[i].id == id ==> ps[i].active >= 0) {
      assert ps[i].id == id ==> after[i] == Freer(Busier(ps[i]));
    }
    if after == ps {
      forall p | p in ps && p.id == id ensures p.active >= 0 {
        var i :| 0 <= i < |ps| && ps[i] == p;
      }
    }
  }

  /** A request is sent to a provider, or one of its requests ends or fails to be sent. */
  datatype LoadEvent = Begins | Ends

  function Loaded(p: ConnectedProvider, events: seq<LoadEvent>): ConnectedProvider {
    if events == [] then p
    else
      var before := Loaded(p, events[..|events| - 1]);
      if events[|events| - 1].Begins? then Busier(before) else Freer(before)
  }

  function Net(events: seq<LoadEvent>): int {
    if events == [] then 0 else Net(events[..|events| - 1]) + (if events[|events| - 1].Begins? then 1 else -1)
  }

  /** At least `x` more requests began than ended since some end, at which the counter stood at zero or above. */
  ghost predicate SinceAnEnd(events: seq<LoadEvent>, x: int) {
    exists k :: 0 < k <= |events| && events[k - 1].Ends? && x <= Net(events[k..])
  }

  lemma SinceAnEndSnoc(events: seq<LoadEvent>, e: LoadEvent, x: int)
    ensures SinceAnEnd(events + [e], x)
            <==> (e.Ends? && x <= 0) || SinceAnEnd(events, x - (if e.Begins? then 1 else -1))
  {
    var longer, step := events + [e], if e.Begins? then 1 else -1;
    forall k | 0 <= k <= |events| ensures Net(longer[k..]) == Net(events[k..]) + step {
      assert longer[k..][..|longer| - k - 1] == events[k..];
    }
    assert longer[|longer|..] == [];
    if SinceAnEnd(longer, x) {
      var k :| 0 < k <= |longer| && longer[k - 1].Ends? && x <= Net(longer[k..]);
      assert k <= |events| ==> events[k - 1].Ends? && x - step <= Net(events[k..]);
    }
    if SinceAnEnd(events, x - step) {
      var k :| 0 < k <= |events| && events[k - 1].Ends? && x - step <= Net(events[k..]);
      assert longer[k - 1].Ends? && x <= Net(longer[k..]);
    }
    if e.Ends? && x <= 0 {
      assert longer[|longer| - 1].Ends?;
    }
  }

  /**
   The load counter after any run of sends and ends: what it was and what began since, less what
   ended, except that no end takes it below zero.
   */
  lemma {:induction false} LoadIsExact(p: ConnectedProvider, events: seq<LoadEvent>, x: int)
    ensures Loaded(p, events).active >= x <==> x <= p.active + Net(events) || SinceAnEnd(events, x)
    ensures Loaded(p, events) == p.(active := Loaded(p, events).active)
  {
    if events != [] {
      var before, e := events[..|events| - 1], events[|events| - 1];
      assert events == before + [e];
      SinceAnEndSnoc(before, e, x);
      LoadIsExact(p, before, x - (if e.Begins? then 1 else -1));
      hide SinceAnEnd;
    }
  }

  // --- Selecting through the greedy strategy ---------------------------------

  lemma RoutableSnoc(ps: seq<ConnectedProvider>, p: ConnectedProvider, now: real)
    ensures RoutableOnly(ps + [p], now) == RoutableOnly(ps, now) + (if p.Routable(now) then [p] else [])
    decreases |ps|
  {
    hide ConnectedProvider.Routable;
    if ps == [] {
      assert [p][1..] == [];
      assert ps + [p] == [p];
      assert RoutableOnly([p], now) == (if p.Routable(now) then [p] else []) + RoutableOnly([], now);
    } else {
      assert (ps + [p])[1..] == ps[1..] + [p];
      RoutableSnoc(ps[1..], p, now);
    }
  }

  lemma RoutableDistinct(ps: seq<ConnectedProvider>, now: real)
    requires DistinctProviders(ps)
    ensures DistinctProviders(RoutableOnly(ps, now))
    decreases |ps|
  {
    if ps != [] {
      RoutableDistinct(ps[1..], now);
      forall p | p in RoutableOnly(ps[1..], now) ensures p.id != ps[0].id {
        var i :| 0 <= i < |ps[1..]| && ps[1..][i] == p;
      }
    }
  }

  lemma SortSingle<T>(x: T, key: T -> real)
    ensures SortBy([x], key) == [x]
  {
    assert [x][1..] == [];
    assert SortBy([x], key) == Insert(x, SortBy([], key), key);
  }

  /** Matching one order alone reports its best offer, or nothing. */
  lemma SingleOrder(order: InferenceOrder, offers: seq<ProviderOffer>, now: real)
    ensures var hits := Hits(Outcomes([order], offers, [now]));
            match Choose(RowOf(order, now, offers), FreeSlots(offers), |offers|)
            case None => hits == []
            case Some(k) => |hits| == 1 && hits[0].providerId == offers[k].providerId
  {
    hide ComputeScore, Choose, RowOf, SortBy, Allocate;
    var outs, picks, rows := Outcomes([order], offers, [now]), PicksOf([order], offers, [now]), RowsOf([order], [now], offers);
    SortSingle(order, SubmissionTime);
    assert rows[0..] == rows && picks[0..] == picks;
    AllocateStep(rows, picks, FreeSlots(offers), 0);
    SplitStep(outs, 0);
    assert outs[..1] == outs && outs[..0] == [];
  }

  // --- A queued request ------------------------------------------------------

  class PendingRequest {
    const requestId: string
    const ask: Ask
    var provider: Option<string>
    var ready: bool
    var cleared: bool
    ghost const ticket: nat

    constructor (requestId: string, ask: Ask, ghost ticket: nat)
      ensures this.requestId == requestId && this.ask == ask && this.ticket == ticket
      ensures provider == None && !ready && !cleared
      ensures Sound() && Fate() == Waiting
    {
      this.requestId, this.ask, this.ticket := requestId, ask, ticket;
      provider, ready, cleared := None, false, false;
    }

    /** The waiter is woken exactly when it has been assigned or cleared, and never both. */
    ghost predicate Sound() reads this {
      (ready <==> provider.Some? || cleared) && !(provider.Some? && cleared)
    }

    ghost function Fate(): Status reads this {
      if !ready then Waiting else if cleared then Cleared else Assigned(provider.GetOr(""))
    }
  }

  ghost function LineOf(requests: seq<PendingRequest>): (line: Line)
    reads requests
    ensures |line| == |requests|
    ensures forall i :: 0 <= i < |line| ==> line[i] == Entry(requests[i].ask, requests[i].Fate())
  {
    seq(|requests|, i requires 0 <= i < |requests| reads requests => Entry(requests[i].ask, requests[i].Fate()))
  }

  /** `line` tells what became of `requests`, which are numbered in order. */
  ghost predicate Shows(requests: seq<PendingRequest>, line: Line)
    reads requests
  {
    && |line| == |requests|
    && forall i :: 0 <= i < |line| ==>
         requests[i].ticket == i && requests[i].Sound() && line[i] == Entry(requests[i].ask, requests[i].Fate())
  }

  lemma ShowsSnoc(requests: seq<PendingRequest>, p: PendingRequest, line: Line)
    requires Shows(requests, line) && p.ticket == |requests| && p.Sound()
    ensures Shows(requests + [p], line + [Entry(p.ask, p.Fate())])
  {
  }

  /** `queue` holds the waiting ones of `requests`, in order. */
  ghost predicate WaitingOf(requests: seq<PendingRequest>, line: Line, queue: seq<PendingRequest>) {
    && |queue| == |WaitingAt(line)|
    && forall k :: 0 <= k < |queue| ==> WaitingAt(line)[k] < |requests| && queue[k] == requests[WaitingAt(line)[k]]
  }

  lemma QueueSnoc(requests: seq<PendingRequest>, line: Line, queue: seq<PendingRequest>, p: PendingRequest)
    requires |requests| == |line| && WaitingOf(requests, line, queue)
    ensures WaitingOf(requests + [p], line + [Entry(p.ask, Waiting)], queue + [p])
    ensures |WaitingAt(line)| == |queue|
  {
    hide WaitingAt;
    WaitingSnoc(line, Entry(p.ask, Waiting));
  }

  lemma QueueWithout(requests: seq<PendingRequest>, line: Line, queue: seq<PendingRequest>, d: nat, e: Entry)
    requires |requests| == |line| && WaitingOf(requests, line, queue) && d < |queue| && !e.status.Waiting?
    ensures WaitingOf(requests, line[WaitingAt(line)[d] := e], queue[..d] + queue[d + 1..])
  {
    hide WaitingAt;
    WaitingWithout(line, d, e);
  }

  datatype Incoming = InferenceDone | InferenceChunk | InferenceError(reason: string) | Unknown

  class ProviderHub {
    const maxDepth: int
    var providers: seq<ConnectedProvider>
    var nextProviderId: nat
    var affinity: Affinity
    var pending: seq<PendingRequest>
    ghost var enqueued: seq<PendingRequest>
    var responseQueues: map<string, seq<Message>>
    var requestToProvider: map<string, string>
    var billingCallbacks: set<string>
    var charged: seq<string>

    constructor (maxDepth: int)
      ensures ValidFleet() && ValidLine() && this.maxDepth == maxDepth
      ensures Line() == [] && Desk() == EMPTY_DESK && Routes() == Fleet([], [])
    {
      this.maxDepth := maxDepth;
      providers, nextProviderId, affinity := [], 0, [];
      pending, enqueued := [], [];
      responseQueues, requestToProvider, billingCallbacks, charged := map[], map[], {}, [];
    }

    // --- Abstraction and invariants ------------------------------------------

    ghost function Desk(): Desk
      reads `responseQueues, `requestToProvider, `billingCallbacks, `charged
    {
      BillingEvents.Desk(responseQueues, requestToProvider, billingCallbacks, charged)
    }

    ghost function Routes(): Fleet
      reads `providers, `affinity
    {
      Fleet(providers, affinity)
    }

    ghost function Line(): Line
      reads `enqueued, enqueued
    {
      LineOf(enqueued)
    }

    /** Provider ids are distinct and were issued by the counter; every provider announced a slot. */
    ghost predicate ValidFleet()
      reads `providers, `nextProviderId, `affinity
    {
      && DistinctProviders(providers)
      && (forall p :: p in providers ==> Issued(p.id, nextProviderId))
      && RegisteredBounds(providers)
      && |affinity| <= AFFINITY_MAX && DistinctSessions(affinity)
    }

    lemma FleetIsKeyed()
      requires ValidFleet()
      ensures Keyed(Routes())
    {
      forall p | p in providers ensures p.id != "" {
        var n: nat :| n <= nextProviderId && p.id == ProviderId(n);
        assert p.id[0] == 'p';
      }
    }

    /** The queue holds exactly the waiting requests, in the order they came, within the bound. */
    ghost predicate ValidLine()
      reads `pending, `enqueued, enqueued
    {
      && (forall i :: 0 <= i < |enqueued| ==> enqueued[i].ticket == i && enqueued[i].Sound())
      && WaitingOf(enqueued, Line(), pending)
      && (maxDepth > 0 ==> |pending| <= maxDepth)
    }

    lemma Packed(line: Line)
      requires Shows(enqueued, line) && WaitingOf(enqueued, line, pending) && (maxDepth > 0 ==> |pending| <= maxDepth)
      ensures ValidLine() && Line() == line
    {
      hide WaitingOf, PendingRequest.Sound, PendingRequest.Fate;
      assert Line() == line;
    }

    // --- Connections ---------------------------------------------------------

    /** Registration messages announce between 1 and 16 slots, or are rejected before they get here. */
    method RegisterProvider(capabilities: Capabilities) returns (id: string)
      requires ValidFleet() && 1 <= capabilities.maxConcurrent <= 16
      modifies `providers, `nextProviderId
      ensures ValidFleet()
      ensures !Connected(old(providers), id)
      ensures providers == old(providers) + [ConnectedProvider(id, capabilities, 0, false, 0.0, false)]
    {
      hide Issued, ProviderId;
      NextIsNew(nextProviderId);
      nextProviderId := nextProviderId + 1;
      id := ProviderId(nextProviderId);
      providers := providers + [ConnectedProvider(id, capabilities, 0, false, 0.0, false)];
    }

    method HandleHeartbeat(id: string, active: int)
      requires ValidFleet()
      modifies `providers
      ensures ValidFleet() && providers == Renewed(old(providers), id, Reporting(active))
      ensures forall i :: 0 <= i < |providers| ==>
                providers[i] == if old(providers)[i].id == id then old(providers)[i].(active := active) else old(providers)[i]
    {
      providers := Renewed(providers, id, Reporting(active));
    }

    method SetQuarantine(id: string, quarantined: bool) returns (known: bool)
      requires ValidFleet()
      modifies `providers
      ensures ValidFleet() && known == Connected(old(providers), id)
      ensures providers == Renewed(old(providers), id, Quarantining(quarantined))
      ensures forall i :: 0 <= i < |providers| ==>
                providers[i] == if old(providers)[i].id == id then old(providers)[i].(quarantined := quarantined) else old(providers)[i]
    {
      known := Connected(providers, id);
      providers := Renewed(providers, id, Quarantining(quarantined));
    }

    // --- Selection -----------------------------------------------------------

    method OfferedBy(reputation: string -> NonNegative, now: real) returns (offers: seq<ProviderOffer>)
      ensures offers == Offers(RoutableOnly(providers, now), reputation)
    {
      offers := [];
      for i := 0 to |providers|
        invariant offers == Offers(RoutableOnly(providers[..i], now), reputation)
      {
        var p := providers[i];
        assert providers[..i + 1] == providers[..i] + [p];
        RoutableSnoc(providers[..i], p, now);
        if !p.Admitted(now) {
          continue;
        }
        if p.quarantined {
          continue;
        }
        offers := offers + [OfferOf(p, reputation(p.id))];
      }
      assert providers[..|providers|] == providers;
    }

    /** The greedy strategy on one order over the routable providers. */
    method MatchOne(ask: Ask, favourite: string, reputation: string -> NonNegative, now: real) returns (winner: Option<string>)
      requires ValidFleet()
      ensures winner == Winner(providers, ask, favourite, reputation, now)
    {
      OffersDistinct(reputation, now);
      hide ComputeScore, Choose, RowOf, RoutableOnly, Hits, Outcomes, ValidFleet;
      var order := OrderOf(ask, favourite, now);
      var offers := OfferedBy(reputation, now);
      var matches, failures := Match([order], offers, [now]);
      SingleOrder(order, offers, now);
      winner := if matches != [] then Some(matches[0].providerId) else None;
    }

    /** Returns the provider that wins on the raw fields, and ties the session to it. */
    method SelectProvider(ask: Ask, reputation: string -> NonNegative, now: real) returns (winner: Option<string>)
      requires ValidFleet()
      modifies `affinity
      ensures ValidFleet()
      ensures winner == old(Routes()).Pick(ask, reputation, now)
      ensures Routes() == old(Routes()).Picked(ask, winner)
      ensures forall i :: 0 <= i < |providers| ==>
                (winner == Some(providers[i].id) <==> Wins(old(Routes()), ask, reputation, now, i))
    {
      WinnerWins(ask, reputation, now);
      hide Wins, ValidFleet, Winner, Remember;
      var session := SessionOf(ask);
      var favourite := if session.Some? then Lookup(affinity, session.value).GetOr("") else "";
      winner := MatchOne(ask, favourite, reputation, now);
      WinnerIsConnected(ask, favourite, reputation, now);
      if winner.Some? && Connected(providers, winner.value) {
        if session.Some? {
          TieSession(session.value, winner.value);
        }
      } else {
        winner := None;
      }
    }

    method TieSession(session: string, winnerId: string)
      requires ValidFleet()
      modifies `affinity
      ensures ValidFleet() && affinity == Remember(old(affinity), session, winnerId)
    {
      hide Remember, DistinctSessions, Issued;
      RememberIsBounded(affinity, session, winnerId);
      RememberIsExact(affinity, session, winnerId);
      affinity := Remember(affinity, session, winnerId);
    }

    lemma WinnerWins(ask: Ask, reputation: string -> NonNegative, now: real)
      requires ValidFleet()
      ensures forall i :: 0 <= i < |providers| ==>
                (Routes().Pick(ask, reputation, now) == Some(providers[i].id) <==> Wins(Routes(), ask, reputation, now, i))
    {
      hide Fleet.Pick, Wins, ValidFleet;
      FleetIsKeyed();
      forall i | 0 <= i < |providers|
        ensures Routes().Pick(ask, reputation, now) == Some(providers[i].id) <==> Wins(Routes(), ask, reputation, now, i)
      {
        PickIff(Routes(), ask, reputation, now, i);
      }
    }

    lemma OffersDistinct(reputation: string -> NonNegative, now: real)
      requires ValidFleet()
      ensures DistinctIds(Offers(RoutableOnly(providers, now), reputation))
    {
      RoutableDistinct(providers, now);
    }

    lemma WinnerIsConnected(ask: Ask, favourite: string, reputation: string -> NonNegative, now: real)
      ensures var winner := Winner(providers, ask, favourite, reputation, now);
              winner.Some? ==> Connected(providers, winner.value)
    {
      hide Winner, Compatible;
      SelectionIsComplete(providers, ask, favourite, reputation, now);
    }

    // --- The wait queue ------------------------------------------------------

    /** The queue's own insertion; it refuses when full. */
    method PutNowait(p: PendingRequest) returns (accepted: bool)
      modifies `pending
      ensures accepted == !Full(|old(pending)|, maxDepth)
      ensures pending == if accepted then old(pending) + [p] else old(pending)
    {
      accepted := !(maxDepth > 0 && |pending| >= maxDepth);
      if accepted {
        pending := pending + [p];
      }
    }

    method EnqueueRequest(requestId: string, ask: Ask) returns (queued: Option<PendingRequest>)
      requires ValidLine()
      modifies `pending, `enqueued
      ensures ValidLine()
      ensures Line() == Enqueued(old(Line()), ask, maxDepth)
      ensures queued.None? <==> maxDepth > 0 && |old(pending)| >= maxDepth
      ensures Line() == if queued.None? then old(Line()) else old(Line()) + [Entry(ask, Waiting)]
      ensures queued.Some? ==> fresh(queued.value) && queued.value.requestId == requestId && pending == old(pending) + [queued.value]
    {
      ghost var line := Line();
      Unpacked();
      hide WaitingAt, ValidLine, Shows, WaitingOf, Line, PendingRequest.Sound, PendingRequest.Fate;
      var p := new PendingRequest(requestId, ask, |enqueued|);
      QueueSnoc(enqueued, line, pending, p);
      assert Enqueued(line, ask, maxDepth) == if Full(|pending|, maxDepth) then line else line + [Entry(ask, Waiting)];
      hide Full, Enqueued;
      var accepted := PutNowait(p);
      if accepted {
        ShowsSnoc(enqueued, p, line);
        enqueued := enqueued + [p];
        Packed(line + [Entry(ask, Waiting)]);
        queued := Some(p);
      } else {
        queued := None;
      }
    }

    /** The queue names each waiting request once, and no other. */
    lemma Unpacked()
      requires ValidLine()
      ensures Shows(enqueued, Line()) && WaitingOf(enqueued, Line(), pending) && (maxDepth > 0 ==> |pending| <= maxDepth)
    {
      hide WaitingOf, PendingRequest.Sound, PendingRequest.Fate;
    }

    lemma QueueIsExact()
      requires ValidLine()
      ensures forall k, m :: 0 <= k < m < |pending| ==> pending[k] != pending[m]
      ensures forall i :: 0 <= i < |enqueued| ==> (enqueued[i] in pending <==> !enqueued[i].ready)
      ensures forall k :: 0 <= k < |pending| ==> pending[k] in enqueued && !pending[k].ready && !pending[k].cleared
      ensures Shows(enqueued, Line()) && WaitingOf(enqueued, Line(), pending) && (maxDepth > 0 ==> |pending| <= maxDepth)
    {
      WaitingPositions(Line());
      hide WaitingAt;
      var at := WaitingAt(Line());
      forall i | 0 <= i < |enqueued| ensures enqueued[i] in pending <==> !enqueued[i].ready {
        if !enqueued[i].ready {
          var k :| 0 <= k < |at| && at[k] == i;
          assert pending[k] == enqueued[i];
        }
        if enqueued[i] in pending {
          var k :| 0 <= k < |pending| && pending[k] == enqueued[i];
          assert at[k] == i;
        }
      }
    }

    /** Empties the queue, waking each request as cleared. */
    method FailAll() returns (cleared: nat)
      requires forall k, m :: 0 <= k < m < |pending| ==> pending[k] != pending[m]
      modifies `pending, pending
      ensures pending == [] && cleared == |old(pending)|
      ensures forall p :: p in old(pending) ==> p.ready && p.cleared && p.provider == old(p.provider)
    {
      cleared := 0;
      while pending != []
        invariant cleared <= |old(pending)| && pending == old(pending)[cleared..]
        invariant forall p :: p in old(pending) ==> p.provider == old(p.provider)
        invariant forall k :: 0 <= k < cleared ==> old(pending)[k].ready && old(pending)[k].cleared
      {
        var p := pending[0];
        pending := pending[1..];
        p.cleared := true;
        p.ready := true;
        cleared := cleared + 1;
      }
    }

    /** Fails every queued request and reports how many there were. */
    method ClearQueue() returns (cleared: nat)
      requires ValidLine()
      modifies `pending, pending
      ensures ValidLine() && pending == []
      ensures Line() == Swept(old(Line())) && cleared == |old(pending)|
    {
      hide WaitingAt, ValidLine;
      ghost var line, waiting := Line(), pending;
      QueueIsExact();
      cleared := FailAll();
      forall i | 0 <= i < |enqueued|
        ensures enqueued[i].Sound() && Swept(line)[i] == Entry(enqueued[i].ask, enqueued[i].Fate())
      {
        assert enqueued[i] in waiting <==> line[i].status.Waiting?;
      }
      NoneWaiting(Swept(line));
      Packed(Swept(line));
    }

    method Drain() returns (items: seq<PendingRequest>)
      modifies `pending
      ensures items == old(pending) && pending == []
    {
      items := [];
      while pending != []
        invariant items + pending == old(pending)
      {
        items := items + [pending[0]];
        pending := pending[1..];
      }
    }

    /** `items[d]` is the first of `items` that the fleet can serve; `d` is their number if it serves none. */
    static ghost predicate FirstOf(items: seq<PendingRequest>, fleet: Fleet, now: real, d: nat) {
      && d <= |items|
      && (forall m :: 0 <= m < d ==> fleet.Pick(items[m].ask, FullMarks, now).None?)
      && (d < |items| ==> fleet.Pick(items[d].ask, FullMarks, now).Some?)
    }

    /**
     Offers each item to selection in turn. The first one served is assigned; the others go back
     in order, and the queue always has room for them.
     */
    method OfferInTurn(items: seq<PendingRequest>, now: real) returns (ghost d: nat)
      requires ValidFleet() && pending == []
      requires forall k, m :: 0 <= k < m < |items| ==> items[k] != items[m]
      requires maxDepth > 0 ==> |items| <= maxDepth
      modifies `pending, `affinity, items
      ensures ValidFleet() && FirstOf(items, old(Routes()), now, d) && d <= |items|
      ensures forall p :: p in items && (d < |items| ==> p != items[d]) ==> unchanged(p)
      ensures d == |items| ==> pending == items && Routes() == old(Routes())
      ensures d < |items| ==>
                var winner := old(Routes()).Pick(items[d].ask, FullMarks, now);
                && winner.Some?
                && pending == items[..d] + items[d + 1..]
                && items[d].provider == winner && items[d].ready && items[d].cleared == old(items[d].cleared)
                && Routes() == old(Routes()).Picked(items[d].ask, winner)
    {
      hide Fleet.Pick, Remember;
      ghost var fleet := Routes();
      var dispatched := false;
      d := |items|;
      for k := 0 to |items|
        invariant ValidFleet() && FirstOf(items[..k], fleet, now, if dispatched then d else k)
        invariant d <= |items| && (dispatched <==> d < |items|)
        invariant forall p :: p in items && (dispatched ==> p != items[d]) ==> unchanged(p)
        invariant !dispatched ==> pending == items[..k] && Routes() == fleet
        invariant dispatched ==>
          var winner := fleet.Pick(items[d].ask, FullMarks, now);
          && d < k && pending == items[..d] + items[d + 1..k]
          && items[d].provider == winner && items[d].ready && items[d].cleared == old(items[d].cleared)
          && Routes() == fleet.Picked(items[d].ask, winner)
      {
        var p := items[k];
        assert items[..k + 1] == items[..k] + [p];
        if dispatched {
          var accepted := PutNowait(p);
          assert accepted;
          continue;
        }
        assert p in items && p.cleared == old(p.cleared);
        var winner := SelectProvider(p.ask, FullMarks, now);
        if winner.Some? {
          p.provider := winner;
          p.ready := true;
          dispatched := true;
          d := k;
        } else {
          var accepted := PutNowait(p);
          assert accepted;
        }
      }
      assert items[..|items|] == items;
    }

    static lemma FirstOfLine(enqueued: seq<PendingRequest>, items: seq<PendingRequest>, line: Line, fleet: Fleet, now: real, d: nat)
      requires |line| == |enqueued| && WaitingOf(enqueued, line, items) && FirstOf(items, fleet, now, d)
      requires forall k :: 0 <= k < |line| ==> line[k].ask == enqueued[k].ask
      ensures FirstServed(line, fleet, now, |line|) == if d < |items| then Some(WaitingAt(line)[d]) else None
    {
      hide WaitingAt, FirstServed, Fleet.Pick;
      FirstServedAt(line, fleet, now, d);
    }

    /** The history once the `d`-th waiting request has been assigned and the others are back in the queue. */
    lemma Reassigned(line: Line, items: seq<PendingRequest>, d: nat)
      requires |line| == |enqueued| && WaitingOf(enqueued, line, items)
      requires d < |items| && items[d].Fate().Assigned?
      requires forall i :: 0 <= i < |line| ==>
                 enqueued[i].ticket == i && enqueued[i].Sound()
                 && line[i].ask == enqueued[i].ask && (enqueued[i] != items[d] ==> line[i].status == enqueued[i].Fate())
      requires pending == items[..d] + items[d + 1..] && (maxDepth > 0 ==> |items| <= maxDepth)
      ensures ValidLine() && d < |WaitingAt(line)| && WaitingAt(line)[d] < |line|
      ensures Line() == line[WaitingAt(line)[d] := Entry(items[d].ask, items[d].Fate())]
    {
      hide WaitingAt, ValidLine, PendingRequest.Sound, PendingRequest.Fate;
      var e := Entry(items[d].ask, items[d].Fate());
      QueueWithout(enqueued, line, items, d, e);
      Packed(line[WaitingAt(line)[d] := e]);
    }

    /** One dispatch assigns the first waiting request that the fleet can serve, and touches no other. */
    method TryDispatchQueued(now: real)
      requires ValidFleet() && ValidLine()
      modifies `pending, `affinity, pending
      ensures ValidFleet() && ValidLine()
      ensures Line() == Dispatched(old(Line()), old(Routes()), now)
      ensures var line, fleet := old(Line()), old(Routes());
              Routes() == match FirstServed(line, fleet, now, |line|)
                          case None => fleet
                          case Some(k) => fleet.Picked(line[k].ask, fleet.Pick(line[k].ask, FullMarks, now))
    {
      hide WaitingAt, WaitingOf, ValidLine, FirstServed, FirstOf, Fleet.Pick, Fleet.Picked;
      ghost var line, fleet := Line(), Routes();
      QueueIsExact();
      var items := Drain();
      ghost var d := OfferInTurn(items, now);
      FirstOfLine(enqueued, items, line, fleet, now, d);
      if d < |items| {
        forall i | 0 <= i < |enqueued|
          ensures enqueued[i].Sound() && (enqueued[i] != items[d] ==> line[i].status == enqueued[i].Fate())
        {
          assert enqueued[i] in enqueued;
        }
        Reassigned(line, items, d);
      } else {
        Packed(line);
      }
    }

    // --- Requests in flight --------------------------------------------------

    method CreateResponseQueue(requestId: string)
      modifies `responseQueues
      ensures Desk() == old(Desk()).CreateQueue(requestId)
    {
      responseQueues := responseQueues[requestId := []];
    }

    method RemoveResponseQueue(requestId: string)
      modifies `responseQueues, `requestToProvider, `billingCallbacks
      ensures Desk() == old(Desk()).RemoveQueue(requestId)
    {
      responseQueues := responseQueues - {requestId};
      requestToProvider := requestToProvider - {requestId};
      billingCallbacks := billingCallbacks - {requestId};
    }

    method RegisterBillingCallback(requestId: string)
      modifies `billingCallbacks
      ensures Desk() == old(Desk()).Register(requestId)
    {
      billingCallbacks := billingCallbacks + {requestId};
    }

    /**
     The part of sending that precedes the transmission. `p` is the provider as its handler holds
     it, which may have disconnected since; without an admission nothing is sent.
     */
    method SendToProvider(p: ConnectedProvider, requestId: string, now: real) returns (sending: bool)
      requires ValidFleet()
      modifies `providers, `requestToProvider
      ensures ValidFleet() && sending == p.Admitted(now)
      ensures Desk() == if sending then old(Desk()).Sent(requestId, p.id) else old(Desk())
      ensures providers == if sending then Renewed(old(providers), p.id, Busier) else old(providers)
    {
      sending := p.Admitted(now);
      if sending {
        providers := Renewed(providers, p.id, Busier);
        requestToProvider := requestToProvider[requestId := p.id];
      }
    }

    /** The part of sending that follows a failed transmission. */
    method SendFailed(p: ConnectedProvider, requestId: string)
      requires ValidFleet()
      modifies `providers, `requestToProvider
      ensures ValidFleet()
      ensures Desk() == old(Desk()).SendFailed(requestId) && requestToProvider == old(requestToProvider) - {requestId}
      ensures providers == Renewed(old(providers), p.id, Freer)
    {
      Free(p.id);
      requestToProvider := requestToProvider - {requestId};
    }

    /** Puts a message in a response queue, if there is one. */
    method Deliver(requestId: string, message: Message)
      modifies `responseQueues
      ensures Desk() == old(Desk()).Deliver(requestId, message)
    {
      if requestId in responseQueues {
        responseQueues := responseQueues[requestId := responseQueues[requestId] + [message]];
      }
    }

    method Free(providerId: string)
      requires ValidFleet()
      modifies `providers
      ensures ValidFleet() && providers == Renewed(old(providers), providerId, Freer)
    {
      providers := Renewed(providers, providerId, Freer);
    }

    /** Returns whether a dispatch of the wait queue is to be scheduled. */
    method HandleProviderMessage(providerId: string, requestId: string, message: Incoming) returns (dispatch: bool)
      requires ValidFleet()
      modifies `providers, `responseQueues, `billingCallbacks, `charged
      ensures ValidFleet()
      ensures Desk() == match message
                        case InferenceDone => old(Desk()).Done(requestId)
                        case InferenceError(reason) => old(Desk()).Error(requestId, reason)
                        case InferenceChunk => old(Desk()).Chunk(requestId)
                        case Unknown => old(Desk())
      ensures dispatch <==> requestId != "" && (message.InferenceDone? || (message.InferenceError? && requestId in old(responseQueues)))
      ensures providers == if dispatch then Renewed(old(providers), providerId, Freer) else old(providers)
    {
      hide ValidFleet, Renewed;
      dispatch := false;
      if requestId == "" {
        return;
      }
      if message.InferenceDone? {
        Deliver(requestId, Finished);
        if requestId in billingCallbacks {
          billingCallbacks := billingCallbacks - {requestId};
          charged := charged + [requestId];
        }
        Free(providerId);
        return true;
      }
      if requestId !in responseQueues {
        return;
      }
      if message.InferenceChunk? {
        Deliver(requestId, Token);
      } else if message.InferenceError? {
        Deliver(requestId, Failed(message.reason));
        billingCallbacks := billingCallbacks - {requestId};
        Free(providerId);
        dispatch := true;
      }
    }

    /** Tells every orphan's queue, and forgets who served it. */
    method FailOrphans(orphans: set<string>)
      requires forall r :: r in orphans ==> r in requestToProvider
      modifies `responseQueues, `requestToProvider
      ensures responseQueues.Keys == old(responseQueues).Keys
      ensures forall r :: r in responseQueues ==>
                responseQueues[r] == if r in orphans then old(responseQueues)[r] + [Failed("provider_disconnected")]
                                     else old(responseQueues)[r]
      ensures requestToProvider == old(requestToProvider) - orphans
    {
      var todo := orphans;
      while todo != {}
        invariant todo <= orphans
        invariant responseQueues.Keys == old(responseQueues).Keys
        invariant forall r :: r in responseQueues ==>
                    responseQueues[r] == if r in orphans && r !in todo
                                         then old(responseQueues)[r] + [Failed("provider_disconnected")]
                                         else old(responseQueues)[r]
        invariant requestToProvider == old(requestToProvider) - (orphans - todo)
        decreases |todo|
      {
        var r :| r in todo;
        Deliver(r, Failed("provider_disconnected"));
        requestToProvider := requestToProvider - {r};
        todo := todo - {r};
      }
    }

    lemma FleetWithout(id: string)
      requires ValidFleet()
      ensures DistinctProviders(Without(providers, id))
      ensures forall p :: p in Without(providers, id) ==> Issued(p.id, nextProviderId)
      ensures RegisteredBounds(Without(providers, id))
      ensures |affinity| <= AFFINITY_MAX
    {
      hide Issued;
      WithoutDistinct(providers, id);
    }

    /** Every request in flight at the provider is failed once, and the provider is gone from routing. */
    method DisconnectProvider(id: string) returns (orphans: set<string>)
      requires ValidFleet()
      modifies `providers, `responseQueues, `requestToProvider
      ensures ValidFleet()
      ensures !Connected(old(providers), id) ==> orphans == {} && Desk() == old(Desk()) && providers == old(providers)
      ensures Connected(old(providers), id) ==>
                && orphans == old(Desk()).OwnedBy(id)
                && Desk() == old(Desk()).Disconnected(id)
                && providers == Without(old(providers), id)
    {
      hide Without, DistinctProviders, RegisteredBounds, Issued;
      if !Connected(providers, id) {
        return {};
      }
      orphans := set r | r in requestToProvider && requestToProvider[r] == id;
      assert orphans == old(Desk()).OwnedBy(id);
      FailOrphans(orphans);
      assert responseQueues == old(Desk()).Disconnected(id).queues;
      FleetWithout(id);
      providers := Without(providers, id);
    }
  }
}
