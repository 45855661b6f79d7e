/**
 The wait queue of the hub as a history: every request ever queued, in order, with what
 became of it. A request whose handler timed out stays in line like any other.
 */
module WaitLine {
  import opened Options
  import opened MatchingModels
  import opened Routing

  // --- The fleet a request is routed over ------------------------------------

  const AFFINITY_MAX: nat := 1000

  /** A request's session, if it names one. */
  function SessionOf(ask: Ask): Option<string> {
    if ask.sessionId.Some? && ask.sessionId.value == "" then None else ask.sessionId
  }

  type Affinity = seq<(string, string)>

  function Lookup(affinity: Affinity, session: string): Option<string> {
    if affinity == [] then None
    else if affinity[0].0 == session then Some(affinity[0].1)
    else Lookup(affinity[1..], session)
  }

  /** Overwrites in place, or appends. */
  function Put(affinity: Affinity, session: string, providerId: string): Affinity {
    if affinity == [] then [(session, providerId)]
    else if affinity[0].0 == session then [(session, providerId)] + affinity[1..]
    else [affinity[0]] + Put(affinity[1..], session, providerId)
  }

  /** The oldest session is forgotten once there are too many. */
  function Remember(affinity: Affinity, session: string, providerId: string): Affinity {
    var longer := Put(affinity, session, providerId);
    if |longer| > AFFINITY_MAX then longer[1..] else longer
  }

  lemma {:induction false} PutGrows(affinity: Affinity, session: string, providerId: string)
    ensures var longer := Put(affinity, session, providerId);
            && |longer| == |affinity| + (if Lookup(affinity, session).None? then 1 else 0)
            && Lookup(longer, session) == Some(providerId)
            && (Lookup(affinity, session).None? && affinity != [] ==> longer[0] == affinity[0])
            && (affinity != [] && affinity[0].0 != session ==> Lookup(longer[1..], session) == Some(providerId))
  {
    if affinity != [] && affinity[0].0 != session {
      PutGrows(affinity[1..], session, providerId);
      var longer := Put(affinity, session, providerId);
      assert longer[1..] == Put(affinity[1..], session, providerId);
    }
  }

  /** At most 1000 sessions are remembered, and the one just used is among them. */
  lemma RememberIsBounded(affinity: Affinity, session: string, providerId: string)
    requires |affinity| <= AFFINITY_MAX
    ensures |Remember(affinity, session, providerId)| <= AFFINITY_MAX
    ensures Lookup(Remember(affinity, session, providerId), session) == Some(providerId)
  {
    PutGrows(affinity, session, providerId);
  }

  /** Each session is tied to one provider. */
  ghost predicate DistinctSessions(affinity: Affinity) {
    forall i, j :: 0 <= i < j < |affinity| ==> affinity[i].0 != affinity[j].0
  }

  lemma {:induction false} LookupIsEntry(affinity: Affinity, session: string, id: string)
    requires DistinctSessions(affinity)
    ensures Lookup(affinity, session) == Some(id) <==> (session, id) in affinity
  {
    if affinity != [] {
      LookupIsEntry(affinity[1..], session, id);
      assert affinity == [affinity[0]] + affinity[1..];
    }
  }

  lemma {:induction false} PutIsExact(affinity: Affinity, session: string, providerId: string)
    requires DistinctSessions(affinity)
    ensures forall k :: 0 <= k < |affinity| && affinity[k].0 == session ==>
              Put(affinity, session, providerId) == affinity[k := (session, providerId)]
    ensures (forall k :: 0 <= k < |affinity| ==> affinity[k].0 != session) ==>
              Put(affinity, session, providerId) == affinity + [(session, providerId)]
  {
    if affinity != [] && affinity[0].0 != session {
      PutIsExact(affinity[1..], session, providerId);
      assert affinity == [affinity[0]] + affinity[1..];
      forall k | 0 <= k < |affinity| && affinity[k].0 == session
        ensures Put(affinity, session, providerId) == affinity[k := (session, providerId)]
      {
        assert affinity[1..][k - 1].0 == session;
      }
    }
  }

  /** A known session keeps its place in the table; a new one joins at the end, and of 1001 the first is forgotten. */
  lemma RememberIsExact(affinity: Affinity, session: string, providerId: string)
    requires DistinctSessions(affinity) && |affinity| <= 1000
    ensures DistinctSessions(Remember(affinity, session, providerId))
    ensures forall k :: 0 <= k < |affinity| && affinity[k].0 == session ==>
              Remember(affinity, session, providerId) == affinity[k := (session, providerId)]
    ensures (forall k :: 0 <= k < |affinity| ==> affinity[k].0 != session) ==>
              Remember(affinity, session, providerId)
              == (if |affinity| == 1000 then affinity[1..] else affinity) + [(session, providerId)]
  {
    PutIsExact(affinity, session, providerId);
    hide Put;
    if forall k :: 0 <= k < |affinity| ==> affinity[k].0 != session {
      NewSession(affinity, session, providerId);
    } else {
      var k :| 0 <= k < |affinity| && affinity[k].0 == session;
      KnownSession(affinity, k, session, providerId);
    }
  }

  lemma KnownSession(affinity: Affinity, k: nat, session: string, providerId: string)
    requires DistinctSessions(affinity) && |affinity| <= 1000 && k < |affinity| && affinity[k].0 == session
    requires Put(affinity, session, providerId) == affinity[k := (session, providerId)]
    ensures Remember(affinity, session, providerId) == affinity[k := (session, providerId)]
    ensures DistinctSessions(Remember(affinity, session, providerId))
    ensures forall m :: 0 <= m < |affinity| && affinity[m].0 == session ==> m == k
  {
    hide Put;
  }

  lemma NewSession(affinity: Affinity, session: string, providerId: string)
    requires DistinctSessions(affinity) && |affinity| <= 1000 && forall k :: 0 <= k < |affinity| ==> affinity[k].0 != session
    requires Put(affinity, session, providerId) == affinity + [(session, providerId)]
    ensures Remember(affinity, session, providerId)
            == (if |affinity| == 1000 then affinity[1..] else affinity) + [(session, providerId)]
    ensures DistinctSessions(Remember(affinity, session, providerId))
  {
    hide Put;
    if affinity != [] {
      assert (affinity + [(session, providerId)])[1..] == affinity[1..] + [(session, providerId)];
    }
  }

  datatype Fleet = Fleet(providers: seq<ConnectedProvider>, affinity: Affinity) {
    function AffinityFor(ask: Ask): string {
      match SessionOf(ask)
      case None => ""
      case Some(session) => Lookup(affinity, session).GetOr("")
    }

    /** The provider that selection returns for `ask`. */
    function Pick(ask: Ask, reputation: string -> NonNegative, now: real): Option<string> {
      Winner(providers, ask, AffinityFor(ask), reputation, now)
    }

    /** Selection also ties the session to the winner. */
    function Picked(ask: Ask, winner: Option<string>): Fleet {
      match SessionOf(ask)
      case None => this
      case Some(session) =>
        if winner.None? then this else this.(affinity := Remember(affinity, session, winner.value))
    }

    ghost predicate CanServe(ask: Ask, now: real) {
      exists p :: p in providers && HasFreeSlot(p) && Compatible(p, ask.model, ask.minConfidence, ask.maxPrice, now)
    }
  }

  /** Queued requests are routed without reputation. */
  function FullMarks(providerId: string): NonNegative { 1.0 }

  lemma PickIffCanServe(fleet: Fleet, ask: Ask, reputation: string -> NonNegative, now: real)
    ensures fleet.Pick(ask, reputation, now).Some? <==> fleet.CanServe(ask, now)
  {
    hide Winner, Compatible;
    SelectionIsComplete(fleet.providers, ask, fleet.AffinityFor(ask), reputation, now);
  }

  // --- The line --------------------------------------------------------------

  datatype Status = Waiting | Assigned(providerId: string) | Cleared

  datatype Entry = Entry(ask: Ask, status: Status)

  type Line = seq<Entry>

  /** Positions of the requests still waiting, in the order they were queued. */
  function WaitingAt(line: Line): seq<nat> {
    if line == [] then []
    else
      var n := |line| - 1;
      WaitingAt(line[..n]) + (if line[n].status.Waiting? then [n] else [])
  }

  /** Exactly the waiting requests, each once, in order. */
  lemma {:induction false} WaitingPositions(line: Line)
    ensures var at := WaitingAt(line);
            && (forall k :: 0 <= k < |at| ==> at[k] < |line| && line[at[k]].status.Waiting?)
            && (forall k, m :: 0 <= k < m < |at| ==> at[k] < at[m])
            && (forall i :: 0 <= i < |line| && line[i].status.Waiting? ==> i in at)
  {
    if line != [] {
      var n, at := |line| - 1, WaitingAt(line[..|line| - 1]);
      WaitingPositions(line[..n]);
      assert WaitingAt(line) == at + (if line[n].status.Waiting? then [n] else []);
      hide WaitingAt;
      forall i | 0 <= i < |line| && line[i].status.Waiting? ensures i in WaitingAt(line) {
        if i < n {
          assert line[..n][i] == line[i] && i in at;
        }
      }
    }
  }

  /** A bound that is not positive means an unbounded queue. */
  predicate Full(depth: nat, bound: int) {
    bound > 0 && depth >= bound
  }

  function Enqueued(line: Line, ask: Ask, bound: int): Line {
    if Full(|WaitingAt(line)|, bound) then line else line + [Entry(ask, Waiting)]
  }

  function Swept(line: Line): (swept: Line)
    ensures |swept| == |line|
    ensures forall i :: 0 <= i < |line| ==>
              swept[i] == if line[i].status.Waiting? then line[i].(status := Cleared) else line[i]
  {
    seq(|line|, i requires 0 <= i < |line| =>
      if line[i].status.Waiting? then line[i].(status := Cleared) else line[i])
  }

  /** The first waiting request among the first `n` that selection can serve. */
  function FirstServed(line: Line, fleet: Fleet, now: real, n: nat): (first: Option<nat>)
    requires n <= |line|
    ensures match first
            case Some(k) =>
              && k < n && line[k].status.Waiting? && fleet.Pick(line[k].ask, FullMarks, now).Some?
              && forall i :: 0 <= i < k && line[i].status.Waiting? ==> fleet.Pick(line[i].ask, FullMarks, now).None?
            case None =>
              forall i :: 0 <= i < n && line[i].status.Waiting? ==> fleet.Pick(line[i].ask, FullMarks, now).None?
  {
    if n == 0 then None
    else
      var first := FirstServed(line, fleet, now, n - 1);
      if first.Some? then first
      else if line[n - 1].status.Waiting? && fleet.Pick(line[n - 1].ask, FullMarks, now).Some? then Some(n - 1)
      else None
  }

  function Dispatched(line: Line, fleet: Fleet, now: real): (next: Line)
    ensures |next| == |line|
  {
    match FirstServed(line, fleet, now, |line|)
    case None => line
    case Some(k) =>
      line[k := Entry(line[k].ask, Assigned(fleet.Pick(line[k].ask, FullMarks, now).value))]
  }

  // --- What happens to the positions -----------------------------------------

  lemma WaitingSnoc(line: Line, e: Entry)
    ensures WaitingAt(line + [e]) == WaitingAt(line) + (if e.status.Waiting? then [|line|] else [])
  {
    assert (line + [e])[..|line|] == line;
  }

  lemma Cut(at: seq<nat>, tail: seq<nat>, d: nat)
    requires d < |at|
    ensures (at + tail)[..d] + (at + tail)[d + 1..] == at[..d] + at[d + 1..] + tail
  {
  }

  lemma EarlierSettled(init: Line, last: Entry, i: nat, e: Entry)
    requires i < |init|
    ensures WaitingAt((init + [last])[i := e]) == WaitingAt(init[i := e]) + (if last.status.Waiting? then [|init|] else [])
  {
    hide WaitingAt;
    assert (init + [last])[i := e] == init[i := e] + [last];
    WaitingSnoc(init[i := e], last);
  }

  /** Settling the `d`-th waiting request leaves the others waiting in the same order. */
  lemma {:induction false} WaitingWithout(line: Line, d: nat, e: Entry)
    requires d < |WaitingAt(line)| && WaitingAt(line)[d] < |line| && !e.status.Waiting?
    ensures WaitingAt(line[WaitingAt(line)[d] := e]) == WaitingAt(line)[..d] + WaitingAt(line)[d + 1..]
  {
    assert line != [];
    hide WaitingAt;
    var init, last, i := line[..|line| - 1], line[|line| - 1], WaitingAt(line)[d];
    var at, tail := WaitingAt(init), if last.status.Waiting? then [|init|] else [];
    assert line == init + [last];
    WaitingSnoc(init, last);
    assert WaitingAt(line) == at + tail;
    if d == |at| {
      assert line[i := e] == init + [e];
      WaitingSnoc(init, e);
    } else {
      WaitingPositions(init);
      assert i == at[d];
      EarlierSettled(init, last, i, e);
      WaitingWithout(init, d, e);
      Cut(at, tail, d);
    }
  }

  lemma {:induction false} NoneWaiting(line: Line)
    requires forall i :: 0 <= i < |line| ==> !line[i].status.Waiting?
    ensures WaitingAt(line) == []
  {
    if line != [] {
      NoneWaiting(line[..|line| - 1]);
    }
  }

  /** The first request served is the first in the list of positions for which selection succeeds. */
  lemma FirstServedAt(line: Line, fleet: Fleet, now: real, d: nat)
    requires d <= |WaitingAt(line)| && forall k :: 0 <= k < |WaitingAt(line)| ==> WaitingAt(line)[k] < |line|
    requires forall m :: 0 <= m < d ==> fleet.Pick(line[WaitingAt(line)[m]].ask, FullMarks, now).None?
    ensures d == |WaitingAt(line)| ==> FirstServed(line, fleet, now, |line|) == None
    ensures d < |WaitingAt(line)| && fleet.Pick(line[WaitingAt(line)[d]].ask, FullMarks, now).Some? ==>
              FirstServed(line, fleet, now, |line|) == Some(WaitingAt(line)[d])
  {
    hide Fleet.Pick, WaitingAt;
    WaitingPositions(line);
    var at, first := WaitingAt(line), FirstServed(line, fleet, now, |line|);
    if first.Some? {
      var k :| 0 <= k < |at| && at[k] == first.value;
      assert k >= d;
    }
  }

  // --- Runs ------------------------------------------------------------------

  /** Each dispatch sees the fleet as it stands at that moment, whatever it has become. */
  datatype Step =
    | Enqueue(ask: Ask)
    | Dispatch(fleet: Fleet, now: real)
    | Clear

  function Next(line: Line, step: Step, bound: int): Line {
    match step
    case Enqueue(ask) => Enqueued(line, ask, bound)
    case Dispatch(fleet, now) => Dispatched(line, fleet, now)
    case Clear => Swept(line)
  }

  function After(run: seq<Step>, bound: int): Line {
    if run == [] then [] else Next(After(run[..|run| - 1], bound), run[|run| - 1], bound)
  }

  /** Requests are never reordered or dropped, and a settled one stays settled. */
  lemma SettledIsFinal(line: Line, step: Step, bound: int, i: nat)
    requires i < |line|
    ensures var next := Next(line, step, bound);
            && i < |next|
            && next[i].ask == line[i].ask
            && (!line[i].status.Waiting? ==> next[i] == line[i])
            && (next[i].status.Assigned? && line[i].status.Waiting? ==> step.Dispatch?)
            && (next[i].status.Cleared? && line[i].status.Waiting? ==> step.Clear?)
  {
    hide Fleet.Pick;
  }

  lemma DepthStep(line: Line, step: Step, bound: int)
    requires bound > 0 && |WaitingAt(line)| <= bound
    ensures |WaitingAt(Next(line, step, bound))| <= bound
  {
    hide Fleet.Pick, WaitingAt;
    WaitingPositions(line);
    match step {
      case Enqueue(ask) => WaitingSnoc(line, Entry(ask, Waiting));
      case Dispatch(fleet, now) =>
        match FirstServed(line, fleet, now, |line|) {
          case None =>
          case Some(k) =>
            var d :| 0 <= d < |WaitingAt(line)| && WaitingAt(line)[d] == k;
            WaitingWithout(line, d, Entry(line[k].ask, Assigned(fleet.Pick(line[k].ask, FullMarks, now).value)));
        }
      case Clear => NoneWaiting(Swept(line));
    }
  }

  /** The number of waiting requests never exceeds a positive bound. */
  lemma {:induction false} DepthBounded(run: seq<Step>, bound: int)
    requires bound > 0
    ensures |WaitingAt(After(run, bound))| <= bound
  {
    if run != [] {
      DepthBounded(run[..|run| - 1], bound);
      DepthStep(After(run[..|run| - 1], bound), run[|run| - 1], bound);
    }
  }

  // --- No overtaking ---------------------------------------------------------

  /** Whoever can serve `b` can serve `a`. */
  predicate NoStricter(a: Ask, b: Ask) {
    && (a.model == "default" || a.model == b.model)
    && a.minConfidence.Value() <= b.minConfidence.Value()
    && (a.maxPrice.None? || (b.maxPrice.Some? && b.maxPrice.value <= a.maxPrice.value))
  }

  lemma NoStricterIsServed(fleet: Fleet, a: Ask, b: Ask, now: real)
    requires NoStricter(a, b) && fleet.CanServe(b, now)
    ensures fleet.CanServe(a, now)
  {
    var p :| p in fleet.providers && HasFreeSlot(p) && Compatible(p, b.model, b.minConfidence, b.maxPrice, now);
    assert Compatible(p, a.model, a.minConfidence, a.maxPrice, now);
  }

  /** While a request waits, nothing queued after it was cleared, nor served unless it asked for less. */
  ghost predicate InTurn(line: Line) {
    forall i, j :: 0 <= i < j < |line| && line[i].status.Waiting? ==>
      && !line[j].status.Cleared?
      && (NoStricter(line[i].ask, line[j].ask) ==> line[j].status.Waiting?)
  }

  lemma InTurnStep(line: Line, step: Step, bound: int)
    requires InTurn(line)
    ensures InTurn(Next(line, step, bound))
  {
    hide Fleet.Pick, Fleet.CanServe, NoStricter;
    if step.Dispatch? {
      var fleet, now := step.fleet, step.now;
      var first := FirstServed(line, fleet, now, |line|);
      if first.Some? {
        var k := first.value;
        PickIffCanServe(fleet, line[k].ask, FullMarks, now);
        forall i | 0 <= i < k && line[i].status.Waiting? ensures !NoStricter(line[i].ask, line[k].ask) {
          PickIffCanServe(fleet, line[i].ask, FullMarks, now);
          if NoStricter(line[i].ask, line[k].ask) {
            NoStricterIsServed(fleet, line[i].ask, line[k].ask, now);
            assert false;
          }
        }
      }
    }
  }

  /** Over every run, a waiting request is never overtaken by a later one that asks for at least as much. */
  lemma {:induction false} NoOvertaking(run: seq<Step>, bound: int)
    ensures InTurn(After(run, bound))
  {
    if run != [] {
      NoOvertaking(run[..|run| - 1], bound);
      InTurnStep(After(run[..|run| - 1], bound), run[|run| - 1], bound);
    }
  }

  /** A dispatch serves someone exactly when some waiting request has a compatible provider with a free slot. */
  lemma DispatchServesIfPossible(line: Line, fleet: Fleet, now: real)
    ensures Dispatched(line, fleet, now) != line
            <==> exists i :: 0 <= i < |line| && line[i].status.Waiting? && fleet.CanServe(line[i].ask, now)
  {
    hide Fleet.Pick, Fleet.CanServe;
    forall i | 0 <= i < |line|
      ensures fleet.Pick(line[i].ask, FullMarks, now).Some? <==> fleet.CanServe(line[i].ask, now)
    {
      PickIffCanServe(fleet, line[i].ask, FullMarks, now);
    }
    var first := FirstServed(line, fleet, now, |line|);
    if first.Some? {
      assert Dispatched(line, fleet, now)[first.value].status.Assigned?;
    }
  }
}
