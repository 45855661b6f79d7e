/** What the listener of a request hears, told from the events of a run alone. */
module Listeners {
  import opened Options
  import opened BillingEvents

  /** The request's queue was opened and has not been removed since. */
  predicate IsOpen(run: seq<Event>, id: string) {
    run != [] &&
    match run[|run| - 1]
    case Open(i) => i == id || IsOpen(run[..|run| - 1], id)
    case Close(i) => i != id && IsOpen(run[..|run| - 1], id)
    case SendFails(i) => i != id && IsOpen(run[..|run| - 1], id)
    case _ => IsOpen(run[..|run| - 1], id)
  }

  /** The provider that a request was last sent to, unless it has been lost or the request given up since. */
  function Holder(run: seq<Event>, id: string): Option<string> {
    if run == [] then None
    else
      var before := Holder(run[..|run| - 1], id);
      match run[|run| - 1]
      case Send(i, p) => if i == id then Some(p) else before
      case SendFails(i) => if i == id then None else before
      case Close(i) => if i == id then None else before
      case Lost(p) => if before == Some(p) then None else before
      case _ => before
  }

  /** What one event says to a request whose holder is `holder`. */
  function Says(e: Event, id: string, holder: Option<string>): seq<Message> {
    match e
    case Streamed(i) => if i == id then [Token] else []
    case Completed(i) => if i == id then [Finished] else []
    case Broken(i, reason) => if i == id then [Failed(reason)] else []
    case Lost(p) => if holder == Some(p) then [Failed("provider_disconnected")] else []
    case _ => []
  }

  /** Everything said since the queue was last opened, in order. */
  function Heard(run: seq<Event>, id: string): seq<Message> {
    if run == [] then []
    else
      var n := |run| - 1;
      if run[n] == Open(id) then [] else Heard(run[..n], id) + Says(run[n], id, Holder(run[..n], id))
  }

  ghost predicate Told(run: seq<Event>, id: string) {
    var desk := After(run).desk;
    && (id in desk.queues <==> IsOpen(run, id))
    && (id in desk.queues ==> desk.queues[id] == Heard(run, id))
    && (match Holder(run, id)
        case None => id !in desk.owners
        case Some(p) => id in desk.owners && desk.owners[id] == p)
  }

  // --- One more event --------------------------------------------------------

  function NextHolder(e: Event, id: string, holder: Option<string>): Option<string> {
    if e.Send? && e.id == id then Some(e.providerId)
    else if e == SendFails(id) || e == Close(id) || (e.Lost? && holder == Some(e.providerId)) then None
    else holder
  }

  lemma OneMore(before: seq<Event>, e: Event, id: string)
    ensures var run := before + [e];
            && (IsOpen(run, id) <==> e == Open(id) || (IsOpen(before, id) && e != Close(id) && e != SendFails(id)))
            && Holder(run, id) == NextHolder(e, id, Holder(before, id))
            && Heard(run, id) == (if e == Open(id) then [] else Heard(before, id) + Says(e, id, Holder(before, id)))
  {
    assert (before + [e])[..|before|] == before;
  }

  ghost predicate Held(desk: Desk, id: string, holder: Option<string>) {
    match holder case None => id !in desk.owners case Some(p) => id in desk.owners && desk.owners[id] == p
  }

  lemma HolderStep(w: World, e: Event, id: string, holder: Option<string>)
    requires Held(w.desk, id, holder)
    ensures Held(Next(w, e).desk, id, NextHolder(e, id, holder))
  {
  }

  lemma QueueStep(w: World, e: Event, id: string, holder: Option<string>)
    requires Held(w.desk, id, holder) && (id in w.desk.queues ==> id != "")
    ensures var v := Next(w, e).desk;
            && (id in v.queues <==> e == Open(id) || (id in w.desk.queues && e != Close(id) && e != SendFails(id)))
            && (id in v.queues ==>
                  v.queues[id] == if e == Open(id) then [] else w.desk.queues[id] + Says(e, id, holder))
  {
    assert id in w.desk.queues ==> w.desk.queues[id] + [] == w.desk.queues[id];
  }

  lemma TellingStep(before: seq<Event>, e: Event, id: string)
    requires Legal(before) && Told(before, id) && Enabled(After(before), e)
    ensures Told(before + [e], id)
  {
    RunTracked(before, id);
    RunSnoc(before, e);
    OneMore(before, e, id);
    HolderStep(After(before), e, id, Holder(before, id));
    QueueStep(After(before), e, id, Holder(before, id));
    hide Awaiting, Earned, Heard, Holder, IsOpen, Says, NextHolder, After, Next, Legal;
  }

  /**
   After every run, each open queue holds exactly what the events since its opening said to the
   request, in order, and no other request has a queue.
   */
  lemma {:induction false} HeardExactly(run: seq<Event>, id: string)
    requires Legal(run)
    ensures id in After(run).desk.queues <==> IsOpen(run, id)
    ensures IsOpen(run, id) ==> After(run).desk.queues[id] == Heard(run, id)
    ensures Told(run, id)
  {
    if run != [] {
      var before, e := run[..|run| - 1], run[|run| - 1];
      assert run == before + [e];
      HeardExactly(before, id);
      TellingStep(before, e, id);
    }
  }

  /**
   Without a queue, chunks and errors are ignored altogether, and a completion is delivered to nobody but
   still charged if a callback is registered. A message without a request id is always ignored.
   */
  lemma NobodyListens(desk: Desk, id: string, reason: string)
    requires id !in desk.queues || id == ""
    ensures desk.Chunk(id) == desk.Error(id, reason) == desk
    ensures desk.Done(id) == if id == "" || id !in desk.callbacks then desk
                             else desk.(callbacks := desk.callbacks - {id}, charged := desk.charged + [id])
  {
  }
}
