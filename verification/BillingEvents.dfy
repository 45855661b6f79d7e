/**
 Response queues and billing callbacks of the hub, under every interleaving of the
 request handlers with the messages that providers send.
 */
module BillingEvents {

  datatype Message = Token | Finished | Failed(reason: string)

  /** The hub's request tables, and the callbacks it has invoked so far, oldest first. */
  datatype Desk = Desk(
    queues: map<string, seq<Message>>,
    owners: map<string, string>,
    callbacks: set<string>,
    charged: seq<string>)
  {
    function Deliver(id: string, m: Message): Desk {
      if id in queues then this.(queues := queues[id := queues[id] + [m]]) else this
    }

    function CreateQueue(id: string): Desk {
      this.(queues := queues[id := []])
    }

    function RemoveQueue(id: string): Desk {
      this.(queues := queues - {id}, owners := owners - {id}, callbacks := callbacks - {id})
    }

    function Register(id: string): Desk {
      this.(callbacks := callbacks + {id})
    }

    function Sent(id: string, providerId: string): Desk {
      this.(owners := owners[id := providerId])
    }

    function SendFailed(id: string): Desk {
      this.(owners := owners - {id})
    }

    /** A completion is delivered if anyone listens, and charged if a callback is registered. */
    function Done(id: string): Desk {
      if id == "" then this
      else
        var told := Deliver(id, Finished);
        if id in callbacks then told.(callbacks := callbacks - {id}, charged := charged + [id]) else told
    }

    /** An error for a request without a queue is ignored altogether. */
    function Error(id: string, reason: string): Desk {
      if id == "" || id !in queues then this
      else Deliver(id, Failed(reason)).(callbacks := callbacks - {id})
    }

    function Chunk(id: string): Desk {
      if id == "" then this else Deliver(id, Token)
    }

    function OwnedBy(providerId: string): (orphans: set<string>)
      ensures forall id :: id in orphans <==> id in owners && owners[id] == providerId
    {
      set id | id in owners && owners[id] == providerId
    }

    function Disconnected(providerId: string): Desk {
      this.(
        queues := map id | id in queues ::
          if id in OwnedBy(providerId) then queues[id] + [Failed("provider_disconnected")] else queues[id],
        owners := owners - OwnedBy(providerId))
    }
  }

  const EMPTY_DESK := Desk(map[], map[], {}, [])

  // --- Request handlers, in program order ------------------------------------

  /**
   How far the handler of a request has come. Request ids are drawn fresh. A handler whose sending
   failed may start again under the same id, and one that relays confidentially never bills.
   */
  datatype Phase = Fresh | Listening | Sending | Billable | Closed

  datatype World = World(desk: Desk, phases: map<string, Phase>) {
    function PhaseOf(id: string): Phase {
      if id in phases then phases[id] else Fresh
    }
  }

  const START := World(EMPTY_DESK, map[])

  /** The first five are steps of a request's own handler; the rest come from providers at any moment. */
  datatype Event =
    | Open(id: string)
    | Send(id: string, providerId: string)
    | SendFails(id: string)
    | Bill(id: string)
    | Close(id: string)
    | Completed(id: string)
    | Broken(id: string, reason: string)
    | Streamed(id: string)
    | Lost(providerId: string)

  predicate Enabled(w: World, e: Event) {
    match e
    case Open(id) => id != "" && w.PhaseOf(id) == Fresh
    case Send(id, _) => w.PhaseOf(id) == Listening
    case SendFails(id) => w.PhaseOf(id) in {Listening, Sending}
    case Bill(id) => w.PhaseOf(id) == Sending
    case Close(id) => w.PhaseOf(id) in {Sending, Billable}
    case _ => true
  }

  function Next(w: World, e: Event): World {
    match e
    case Open(id) => World(w.desk.CreateQueue(id), w.phases[id := Listening])
    case Send(id, providerId) => World(w.desk.Sent(id, providerId), w.phases[id := Sending])
    case SendFails(id) => World(w.desk.SendFailed(id).RemoveQueue(id), w.phases[id := Fresh])
    case Bill(id) => World(w.desk.Register(id), w.phases[id := Billable])
    case Close(id) => World(w.desk.RemoveQueue(id), w.phases[id := Closed])
    case Completed(id) => w.(desk := w.desk.Done(id))
    case Broken(id, reason) => w.(desk := w.desk.Error(id, reason))
    case Streamed(id) => w.(desk := w.desk.Chunk(id))
    case Lost(providerId) => w.(desk := w.desk.Disconnected(providerId))
  }

  function After(run: seq<Event>): World {
    if run == [] then START else Next(After(run[..|run| - 1]), run[|run| - 1])
  }

  ghost predicate Legal(run: seq<Event>) {
    run != [] ==> Legal(run[..|run| - 1]) && Enabled(After(run[..|run| - 1]), run[|run| - 1])
  }

  // --- What a run says about one request -------------------------------------

  ghost predicate Interrupts(e: Event, id: string) {
    (e.Broken? || e.Close?) && e.id == id
  }

  /** Some registration of `id` at or after `from` in the run was not followed by an error or a removal before `to`. */
  ghost predicate ArmedAt(run: seq<Event>, id: string, i: nat, to: nat) {
    && i < to <= |run| && run[i] == Bill(id)
    && forall k :: i < k < to ==> !Interrupts(run[k], id)
  }

  /** A completion arrived after registration, with no error and no removal in between. */
  ghost predicate Earned(run: seq<Event>, id: string) {
    exists i, j :: 0 <= i < j < |run| && run[j] == Completed(id) && ArmedAt(run, id, i, j)
  }

  /** Registered, and neither completed nor interrupted since. */
  ghost predicate Awaiting(run: seq<Event>, id: string) {
    exists i :: 0 <= i < |run| && ArmedAt(run, id, i, |run|) && forall k :: i < k < |run| ==> run[k] != Completed(id)
  }

  ghost predicate NeverBilled(run: seq<Event>, id: string) {
    forall k :: 0 <= k < |run| ==> run[k] != Bill(id)
  }

  /** What the tables say about `id` after a run, in terms of the run alone. */
  ghost predicate Tracked(run: seq<Event>, id: string) {
    var w := After(run);
    && (w.PhaseOf(id) in {Listening, Sending, Billable} <==> id in w.desk.queues)
    && (w.PhaseOf(id) in {Fresh, Listening, Sending} ==> NeverBilled(run, id))
    && (w.PhaseOf(id) != Fresh ==> id != "")
    && (id in w.desk.callbacks <==> Awaiting(run, id))
    && (id in w.desk.callbacks ==> w.PhaseOf(id) == Billable)
    && !(Awaiting(run, id) && Earned(run, id))
    && multiset(w.desk.charged)[id] == (if Earned(run, id) then 1 else 0)
  }

  // --- One more event --------------------------------------------------------

  lemma ArmedSnoc(run: seq<Event>, e: Event, id: string, i: nat, to: nat)
    requires to <= |run|
    ensures ArmedAt(run + [e], id, i, to) <==> ArmedAt(run, id, i, to)
  {
    assert forall k :: 0 <= k < |run| ==> (run + [e])[k] == run[k];
  }

  lemma EarnedSnoc(run: seq<Event>, e: Event, id: string)
    ensures Earned(run + [e], id)
            <==> Earned(run, id) || (e == Completed(id) && exists i :: 0 <= i < |run| && ArmedAt(run, id, i, |run|))
  {
    hide ArmedAt;
    var longer := run + [e];
    assert forall k :: 0 <= k < |run| ==> longer[k] == run[k];
    forall i, j | 0 <= i && 0 <= j <= |run| ensures ArmedAt(longer, id, i, j) <==> ArmedAt(run, id, i, j) {
      ArmedSnoc(run, e, id, i, j);
    }
    if Earned(longer, id) {
      var i, j :| 0 <= i < j < |longer| && longer[j] == Completed(id) && ArmedAt(longer, id, i, j);
      assert ArmedAt(run, id, i, j);
    }
    if Earned(run, id) {
      var i, j :| 0 <= i < j < |run| && run[j] == Completed(id) && ArmedAt(run, id, i, j);
      assert longer[j] == Completed(id) && ArmedAt(longer, id, i, j);
    }
    if e == Completed(id) && exists i :: 0 <= i < |run| && ArmedAt(run, id, i, |run|) {
      var i :| 0 <= i < |run| && ArmedAt(run, id, i, |run|);
      assert longer[|run|] == Completed(id) && ArmedAt(longer, id, i, |run|);
    }
  }

  lemma AwaitingSnoc(run: seq<Event>, e: Event, id: string)
    ensures Awaiting(run + [e], id)
            <==> e == Bill(id) || (Awaiting(run, id) && e != Completed(id) && !Interrupts(e, id))
  {
    var longer := run + [e];
    assert forall k :: 0 <= k < |run| ==> longer[k] == run[k];
    assert longer[|run|] == e;
    if e == Bill(id) {
      assert ArmedAt(longer, id, |run|, |longer|);
    }
    if Awaiting(run, id) && e != Completed(id) && !Interrupts(e, id) {
      var i :| 0 <= i < |run| && ArmedAt(run, id, i, |run|) && forall k :: i < k < |run| ==> run[k] != Completed(id);
      assert ArmedAt(longer, id, i, |longer|);
    }
    if Awaiting(longer, id) && e != Bill(id) {
      var i :| 0 <= i < |longer| && ArmedAt(longer, id, i, |longer|)
               && forall k :: i < k < |longer| ==> longer[k] != Completed(id);
      assert i < |run|;
      assert ArmedAt(run, id, i, |run|);
    }
  }

  /** A registration still uninterrupted is either awaiting its completion or has been completed. */
  lemma ArmedIsAwaitingOrEarned(run: seq<Event>, id: string, i: nat)
    requires ArmedAt(run, id, i, |run|)
    ensures Awaiting(run, id) || Earned(run, id)
  {
    if j :| i < j < |run| && run[j] == Completed(id) {
      assert ArmedAt(run, id, i, j);
    }
  }

  lemma NothingBefore(run: seq<Event>, id: string)
    requires NeverBilled(run, id)
    ensures !Earned(run, id) && !Awaiting(run, id)
    ensures forall i :: !ArmedAt(run, id, i, |run|)
  {
  }

  lemma DeskStep(w: World, e: Event, id: string)
    requires id in w.desk.callbacks ==> w.PhaseOf(id) == Billable
    requires w.PhaseOf(id) != Fresh ==> id != ""
    requires w.PhaseOf(id) in {Listening, Sending, Billable} <==> id in w.desk.queues
    requires Enabled(w, e)
    ensures var v := Next(w, e);
            && (v.PhaseOf(id) in {Listening, Sending, Billable} <==> id in v.desk.queues)
            && (v.PhaseOf(id) != Fresh ==> id != "")
            && (id in v.desk.callbacks
                <==> e == Bill(id) || (id in w.desk.callbacks && e != Completed(id) && !Interrupts(e, id)))
            && (id in v.desk.callbacks ==> v.PhaseOf(id) == Billable)
            && (v.PhaseOf(id) != w.PhaseOf(id) ==> e in {Open(id), SendFails(id), Bill(id), Close(id)} || (e.Send? && e.id == id))
            && (e == Bill(id) ==> w.PhaseOf(id) == Sending && v.PhaseOf(id) == Billable)
            && v.desk.charged == w.desk.charged + (if e.Completed? && e.id in w.desk.callbacks && e.id != "" then [e.id] else [])
  {
  }

  lemma {:induction false} RunTracked(run: seq<Event>, id: string)
    requires Legal(run)
    ensures Tracked(run, id)
  {
    if run == [] {
      assert !Earned(run, id) && !Awaiting(run, id);
    } else {
      var n := |run| - 1;
      var before, e := run[..n], run[n];
      assert run == before + [e];
      RunTracked(before, id);
      StepTracked(before, e, id);
    }
  }

  lemma StepTracked(before: seq<Event>, e: Event, id: string)
    requires Tracked(before, id) && Enabled(After(before), e)
    ensures Tracked(before + [e], id)
  {
    hide ArmedAt, Awaiting, Earned, Next, Interrupts;
    var run, w := before + [e], After(before);
    assert run[..|before|] == before;
    assert After(run) == Next(w, e);
    DeskStep(w, e, id);
    EarnedSnoc(before, e, id);
    AwaitingSnoc(before, e, id);
    assert e == Bill(id) ==> NeverBilled(before, id);
    if NeverBilled(before, id) {
      NothingBefore(before, id);
    }
    if i :| 0 <= i < |before| && ArmedAt(before, id, i, |before|) {
      ArmedIsAwaitingOrEarned(before, id, i);
    }
    if Awaiting(before, id) {
      AwaitingIsArmed(before, id);
    }
    PhaseStep(before, e, id);
  }

  lemma AwaitingIsArmed(run: seq<Event>, id: string)
    requires Awaiting(run, id)
    ensures exists i :: 0 <= i < |run| && ArmedAt(run, id, i, |run|)
  {
  }

  lemma PhaseStep(before: seq<Event>, e: Event, id: string)
    requires After(before).PhaseOf(id) in {Fresh, Listening, Sending} ==> NeverBilled(before, id)
    requires Enabled(After(before), e)
    ensures Next(After(before), e).PhaseOf(id) in {Fresh, Listening, Sending} ==> NeverBilled(before + [e], id)
  {
    var w := After(before);
    if Next(w, e).PhaseOf(id) in {Fresh, Listening, Sending} {
      assert w.PhaseOf(id) in {Fresh, Listening, Sending};
      assert e != Bill(id);
    }
  }

  // --- What the source promises ----------------------------------------------

  /**
   A request is charged at most once, and exactly when its completion arrives after the callback
   was registered and before any error or queue removal.
   */
  lemma ChargedIffEarned(run: seq<Event>, id: string)
    requires Legal(run)
    ensures multiset(After(run).desk.charged)[id] == (if Earned(run, id) then 1 else 0)
  {
    RunTracked(run, id);
  }

  /** Every registered callback has a live response queue, so no error for it can be ignored. */
  lemma CallbacksHaveQueues(run: seq<Event>)
    requires Legal(run)
    ensures After(run).desk.callbacks <= After(run).desk.queues.Keys
  {
    forall id | id in After(run).desk.callbacks ensures id in After(run).desk.queues {
      RunTracked(run, id);
    }
  }

  lemma {:induction false} LegalPrefix(run: seq<Event>, n: nat)
    requires Legal(run) && n <= |run|
    ensures Legal(run[..n])
  {
    if n == |run| {
      assert run[..n] == run;
    } else {
      LegalPrefix(run[..|run| - 1], n);
      assert run[..|run| - 1][..n] == run[..n];
    }
  }

  lemma {:induction false} ClosedIsFinal(run: seq<Event>, id: string, k: nat)
    requires Legal(run) && k < |run| && run[k] == Close(id)
    ensures After(run).PhaseOf(id) == Closed
    ensures forall m :: k <= m < |run| ==> run[m] != Bill(id)
  {
    if k < |run| - 1 {
      ClosedIsFinal(run[..|run| - 1], id, k);
    }
  }

  lemma EarnedBeforeRemoval(run: seq<Event>, id: string, k: nat)
    requires k < |run| && run[k] == Close(id)
    requires forall m :: k <= m < |run| ==> run[m] != Bill(id)
    ensures Earned(run, id) <==> Earned(run[..k], id)
  {
    if Earned(run, id) {
      var i, j :| 0 <= i < j < |run| && run[j] == Completed(id) && ArmedAt(run, id, i, j);
      assert j > k ==> Interrupts(run[k], id);
      assert run[..k][j] == Completed(id) && ArmedAt(run[..k], id, i, j);
    }
    if Earned(run[..k], id) {
      var i, j :| 0 <= i < j < k && run[..k][j] == Completed(id) && ArmedAt(run[..k], id, i, j);
      assert run[j] == Completed(id) && ArmedAt(run, id, i, j);
    }
  }

  /**
   Once the handler has removed its queue, no later completion charges the request: removal
   drops the callback too, so billing does not outlive the queue.
   */
  lemma RemovalEndsBilling(run: seq<Event>, id: string, k: nat)
    requires Legal(run) && k < |run| && run[k] == Close(id)
    ensures multiset(After(run).desk.charged)[id] == multiset(After(run[..k]).desk.charged)[id]
  {
    hide After, Earned, Enabled;
    LegalPrefix(run, k);
    ChargedIffEarned(run, id);
    ChargedIffEarned(run[..k], id);
    ClosedIsFinal(run, id, k);
    EarnedBeforeRemoval(run, id, k);
  }

  lemma RunSnoc(run: seq<Event>, e: Event)
    ensures After(run + [e]) == Next(After(run), e)
    ensures Legal(run + [e]) <==> Legal(run) && Enabled(After(run), e)
  {
    assert (run + [e])[..|run|] == run;
  }

  /** A request completed while its handler is still sending is never charged, though it was served. */
  lemma EarlyCompletionIsFree(id: string, providerId: string)
    requires id != ""
    ensures var run := [Open(id), Send(id, providerId), Completed(id), Bill(id), Close(id)];
            Legal(run) && After(run).desk.charged == []
    ensures var run := [Open(id), Send(id, providerId), Bill(id), Completed(id), Close(id)];
            Legal(run) && After(run).desk.charged == [id]
  {
    hide After, Legal;
    var sent := [Open(id), Send(id, providerId)];
    StartIsLegal();
    RunSnoc([], Open(id));
    RunSnoc([Open(id)], Send(id, providerId));
    assert [] + [Open(id)] == [Open(id)] && [Open(id)] + [Send(id, providerId)] == sent;
    RunOf(sent, Completed(id), Bill(id), Close(id));
    RunOf(sent, Bill(id), Completed(id), Close(id));
    assert sent + [Completed(id), Bill(id), Close(id)]
           == [Open(id), Send(id, providerId), Completed(id), Bill(id), Close(id)];
    assert sent + [Bill(id), Completed(id), Close(id)]
           == [Open(id), Send(id, providerId), Bill(id), Completed(id), Close(id)];
  }

  lemma StartIsLegal()
    ensures Legal([]) && After([]) == START
  {
  }

  /** Three more events, one at a time. */
  lemma RunOf(run: seq<Event>, a: Event, b: Event, c: Event)
    ensures After(run + [a, b, c]) == Next(Next(Next(After(run), a), b), c)
    ensures Legal(run + [a, b, c])
            <==> Legal(run) && Enabled(After(run), a) && Enabled(Next(After(run), a), b)
                 && Enabled(Next(Next(After(run), a), b), c)
  {
    hide Next, Enabled;
    RunSnoc(run, a);
    RunSnoc(run + [a], b);
    RunSnoc(run + [a] + [b], c);
    assert run + [a, b, c] == run + [a] + [b] + [c];
  }

  /** The completion that charges a request also reaches its listener. */
  lemma ChargedIsDelivered(run: seq<Event>, id: string)
    requires Legal(run) && id in After(run).desk.callbacks
    ensures Legal(run + [Completed(id)])
    ensures var before, after := After(run).desk, After(run + [Completed(id)]).desk;
            && id in before.queues && id in after.queues
            && after.queues[id] == before.queues[id] + [Finished]
            && after.charged == before.charged + [id] && id !in after.callbacks
  {
    RunTracked(run, id);
    hide Tracked, Awaiting, Earned, Legal, After;
    RunSnoc(run, Completed(id));
  }

  /** A disconnect fails each of the provider's requests once: a second one finds nothing left to fail. */
  lemma DisconnectFailsOnce(desk: Desk, providerId: string, id: string)
    ensures var after := desk.Disconnected(providerId);
            && after.OwnedBy(providerId) == {} && after.Disconnected(providerId) == after
            && after.callbacks == desk.callbacks && after.charged == desk.charged
            && (id in desk.queues ==>
                  var failed := id in desk.owners && desk.owners[id] == providerId;
                  after.queues[id] == desk.queues[id] + (if failed then [Failed("provider_disconnected")] else []))
  {
    var after := desk.Disconnected(providerId);
    assert after.Disconnected(providerId).queues == after.queues;
    assert after.Disconnected(providerId).owners == after.owners;
    assert id in desk.queues ==> desk.queues[id] + [] == desk.queues[id];
  }
}
