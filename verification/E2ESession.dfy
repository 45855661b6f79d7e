/**
 One end-to-end session between a consumer and a provider. Encryption is an ideal AEAD: a
 ciphertext opens only under the key, nonce and associated data it was sealed with, and only
 the holder of a key seals under it. The network may do anything else.
 */
module E2ESession {
  import opened Options
  import opened Bytes
  import opened AssociatedData

  type Key = nat

  datatype Ciphertext =
    | Sealed(key: Key, nonce: Bytes, plaintext: Bytes, aad: Bytes)
    | Junk(content: Bytes)
  {
    function Length(): nat {
      if Sealed? then |plaintext| + 16 else |content|
    }
  }

  /** Base64 text as it arrives. */
  datatype Encoded<T> = Valid(value: T) | Malformed

  datatype Message = Message(
    sessionId: Bytes, direction: Direction, sequence: int, nonce: Encoded<Bytes>, ciphertext: Encoded<Ciphertext>)

  datatype SessionError =
    | TooLarge | Overflow | WrongSession | WrongDirection | Replayed | BadEncoding | BadNonce | Rejected

  const MAX_CIPHERTEXT := 16 * 1024 * 1024

  // --- The state of one end --------------------------------------------------

  datatype End = End(
    sessionId: Bytes, sendKey: Key, receiveKey: Key, sends: Direction, receives: Direction,
    sendSequence: nat, lastReceived: int)
  {
    /** Sealing counts a sequence number even when the number no longer fits. */
    function Encrypt(plaintext: Bytes, data: Bytes, random: Bytes): (End, Result<Message, SessionError>) {
      if |plaintext| > MAX_CIPHERTEXT then (this, Err(TooLarge))
      else
        var later := this.(sendSequence := sendSequence + 1);
        if sendSequence >= SEQUENCE_LIMIT then (later, Err(Overflow))
        else
          var nonce := BigEndian(sendSequence, 8) + random;
          var ciphertext := Sealed(sendKey, nonce, plaintext, Aad(sessionId, sendSequence, sends, data));
          (later, Ok(Message(sessionId, sends, sendSequence, Valid(nonce), Valid(ciphertext))))
    }

    function Opened(m: Message, data: Bytes): Result<Bytes, SessionError> {
      if m.sessionId != sessionId then Err(WrongSession)
      else if m.direction != receives then Err(WrongDirection)
      else if m.sequence <= lastReceived then Err(Replayed)
      else if m.nonce.Malformed? || m.ciphertext.Malformed? then Err(BadEncoding)
      else if |m.nonce.value| != 12 then Err(BadNonce)
      else if m.ciphertext.value.Length() > MAX_CIPHERTEXT + 16 then Err(TooLarge)
      else if m.sequence < 0 || m.sequence >= SEQUENCE_LIMIT then Err(Overflow)
      else
        var c := m.ciphertext.value;
        if c.Sealed? && c.key == receiveKey && c.nonce == m.nonce.value
           && c.aad == Aad(sessionId, m.sequence, m.direction, data)
        then Ok(c.plaintext)
        else Err(Rejected)
    }

    function Decrypt(m: Message, data: Bytes): (End, Result<Bytes, SessionError>) {
      var outcome := Opened(m, data);
      (if outcome.Ok? then this.(lastReceived := m.sequence) else this, outcome)
    }
  }

  /** A plaintext is sealed exactly if it has at most 16 MiB and its number fits in eight bytes; too large ones use no number. */
  lemma SealedIff(end: End, plaintext: Bytes, data: Bytes, random: Bytes)
    ensures var (later, result) := end.Encrypt(plaintext, data, random);
            && (result.Ok? <==> |plaintext| <= 16_777_216 && end.sendSequence < 0x1_0000_0000_0000_0000)
            && (result == Err(TooLarge) <==> |plaintext| > 16_777_216)
            && later == end.(sendSequence := if |plaintext| > 16_777_216 then end.sendSequence else end.sendSequence + 1)
            && (result.Ok? ==>
                  && result.value.sessionId == end.sessionId && result.value.direction == end.sends
                  && result.value.sequence == end.sendSequence)
  {
  }

  /** The message carries a ciphertext that this end's key opens under the message's own nonce, number and direction. */
  predicate Opens(end: End, m: Message, data: Bytes) {
    && m.nonce.Valid? && m.ciphertext.Valid? && m.ciphertext.value.Sealed?
    && m.ciphertext.value.key == end.receiveKey && m.ciphertext.value.nonce == m.nonce.value
    && 0 <= m.sequence < SEQUENCE_LIMIT && m.ciphertext.value.aad == Aad(end.sessionId, m.sequence, m.direction, data)
  }

  /** What can be wrong with a message, in the order in which it is looked for. */
  function Faults(end: End, m: Message, data: Bytes): (faults: seq<(bool, SessionError)>)
    ensures |faults| == 8
  {
    [(m.sessionId != end.sessionId, WrongSession),
     (m.direction != end.receives, WrongDirection),
     (m.sequence <= end.lastReceived, Replayed),
     (m.nonce == Malformed || m.ciphertext == Malformed, BadEncoding),
     (m.nonce.Valid? && |m.nonce.value| != 12, BadNonce),
     (m.ciphertext.Valid? && m.ciphertext.value.Length() > 16_777_216 + 16, TooLarge),
     (m.sequence < 0 || m.sequence >= 0x1_0000_0000_0000_0000, Overflow),
     (!Opens(end, m, data), Rejected)]
  }

  /**
   A message is refused for the first thing wrong with it, which changes nothing, or else accepted
   with the plaintext sealed in it, which moves the last accepted number to its own.
   */
  lemma RefusalIsExact(end: End, m: Message, data: Bytes)
    ensures var (later, result) := end.Decrypt(m, data);
            var faults := Faults(end, m, data);
            && (forall k :: 0 <= k < 8 && faults[k].0 && (forall j :: 0 <= j < k ==> !faults[j].0) ==>
                  result == Err(faults[k].1) && later == end)
            && ((forall k :: 0 <= k < 8 ==> !faults[k].0) ==>
                  && m.ciphertext.Valid? && m.ciphertext.value.Sealed?
                  && result == Ok(m.ciphertext.value.plaintext) && later == end.(lastReceived := m.sequence))
  {
    hide Aad;
    var faults := Faults(end, m, data);
    assert faults[0] == (m.sessionId != end.sessionId, WrongSession) && faults[1] == (m.direction != end.receives, WrongDirection);
    assert faults[2].0 == (m.sequence <= end.lastReceived) && faults[3].0 == (m.nonce == Malformed || m.ciphertext == Malformed);
    assert faults[4].1 == BadNonce && faults[5].1 == TooLarge && faults[6].1 == Overflow;
    assert faults[7] == (!Opens(end, m, data), Rejected);
  }

  // --- A link over an arbitrary network --------------------------------------

  datatype Sent = Sent(plaintext: Bytes, data: Bytes, message: Message)

  datatype Accepted = Accepted(sequence: int, plaintext: Bytes, data: Bytes)

  /** One direction of a session: what `a` has sealed, and what `b` has accepted. */
  datatype Link = Link(a: End, b: End, sent: seq<Sent>, accepted: seq<Accepted>)

  /** The network delivers whatever it likes, as often and in whatever order it likes. */
  datatype Event = Send(plaintext: Bytes, data: Bytes, random: Bytes) | Deliver(message: Message, data: Bytes)

  function Next(link: Link, e: Event): Link {
    match e
    case Send(plaintext, data, random) =>
      var (a, result) := link.a.Encrypt(plaintext, data, random);
      link.(a := a, sent := link.sent + if result.Ok? then [Sent(plaintext, data, result.value)] else [])
    case Deliver(m, data) =>
      var (b, result) := link.b.Decrypt(m, data);
      link.(b := b, accepted := link.accepted + if result.Ok? then [Accepted(m.sequence, result.value, data)] else [])
  }

  /** Nonces end in four random bytes, and nobody but `a` seals under its key. */
  ghost predicate Possible(link: Link, e: Event) {
    match e
    case Send(_, _, random) => |random| == 4
    case Deliver(m, _) =>
      m.ciphertext.Valid? && m.ciphertext.value.Sealed? && m.ciphertext.value.key == link.a.sendKey ==>
        exists i :: 0 <= i < |link.sent| && link.sent[i].message.ciphertext == m.ciphertext
  }

  /** Both ends of one session at its start. */
  ghost predicate Paired(a: End, b: End) {
    && a.sessionId == b.sessionId && a.sendKey == b.receiveKey && a.sends == b.receives
    && a.sendSequence == 0 && b.lastReceived == -1
  }

  function After(a: End, b: End, run: seq<Event>): Link {
    if run == [] then Link(a, b, [], []) else Next(After(a, b, run[..|run| - 1]), run[|run| - 1])
  }

  ghost predicate Legal(a: End, b: End, run: seq<Event>) {
    run != [] ==>
      Legal(a, b, run[..|run| - 1]) && Possible(After(a, b, run[..|run| - 1]), run[|run| - 1])
  }

  /** Message `i` carries sequence number `i`, in its nonce and in its associated data. */
  ghost predicate Numbered(end: End, s: Sent, i: nat) {
    && i < SEQUENCE_LIMIT
    && s.message.nonce.Valid? && |s.message.nonce.value| == 12 && s.message.nonce.value[..8] == BigEndian(i, 8)
    && |s.plaintext| <= MAX_CIPHERTEXT
    && s.message == Message(end.sessionId, end.sends, i, s.message.nonce,
         Valid(Sealed(end.sendKey, s.message.nonce.value, s.plaintext, Aad(end.sessionId, i, end.sends, s.data))))
  }

  /** What was accepted is an in-order subsequence of what was sent. */
  ghost predicate Subsequence(accepted: seq<Accepted>, sent: seq<Sent>) {
    && (forall k :: 0 <= k < |accepted| ==>
          && 0 <= accepted[k].sequence < |sent|
          && sent[accepted[k].sequence].plaintext == accepted[k].plaintext
          && sent[accepted[k].sequence].data == accepted[k].data)
    && (forall j, k :: 0 <= j < k < |accepted| ==> accepted[j].sequence < accepted[k].sequence)
  }

  ghost predicate Inv(link: Link) {
    && link.a.sessionId == link.b.sessionId && link.a.sendKey == link.b.receiveKey && link.a.sends == link.b.receives
    && |link.sent| == (if link.a.sendSequence <= SEQUENCE_LIMIT then link.a.sendSequence else SEQUENCE_LIMIT)
    && (forall i :: 0 <= i < |link.sent| ==> Numbered(link.a, link.sent[i], i))
    && Subsequence(link.accepted, link.sent)
    && link.b.lastReceived == (if link.accepted == [] then -1 else link.accepted[|link.accepted| - 1].sequence)
  }

  lemma SendKeepsInv(link: Link, e: Event)
    requires Inv(link) && e.Send? && Possible(link, e)
    ensures Inv(Next(link, e))
  {
    hide Aad, BigEndian;
  }

  /** Whatever opens was sealed by the peer under the very sequence number it arrived with. */
  lemma OpenedWasSent(link: Link, m: Message, data: Bytes)
    requires Inv(link) && Possible(link, Deliver(m, data)) && link.b.Opened(m, data).Ok?
    ensures link.b.lastReceived < m.sequence && 0 <= m.sequence < |link.sent|
    ensures link.sent[m.sequence].plaintext == link.b.Opened(m, data).value
    ensures link.sent[m.sequence].data == data
  {
    hide Aad, BigEndian, Subsequence;
    var i :| 0 <= i < |link.sent| && link.sent[i].message.ciphertext == m.ciphertext;
    assert Numbered(link.a, link.sent[i], i);
    AadInjective(link.b.sessionId, link.b.sessionId, i, m.sequence, link.a.sends, m.direction, link.sent[i].data, data);
  }

  lemma DeliverKeepsInv(link: Link, e: Event)
    requires Inv(link) && e.Deliver? && Possible(link, e)
    ensures Inv(Next(link, e))
  {
    hide End.Opened, Numbered, Possible;
    if link.b.Opened(e.message, e.data).Ok? {
      OpenedWasSent(link, e.message, e.data);
    }
  }

  lemma {:induction false} InvOverRuns(a: End, b: End, run: seq<Event>)
    requires Paired(a, b) && Legal(a, b, run)
    ensures Inv(After(a, b, run))
  {
    if run != [] {
      InvOverRuns(a, b, run[..|run| - 1]);
      var before, e := After(a, b, run[..|run| - 1]), run[|run| - 1];
      hide Inv, Next, Possible;
      if e.Send? {
        SendKeepsInv(before, e);
      } else {
        DeliverKeepsInv(before, e);
      }
    }
  }

  // --- What the source promises ----------------------------------------------

  /**
   Under any network that drops, duplicates, reorders or invents messages, the plaintexts that one
   end accepts are those its peer sent, in order, each at most once, and with the same caller data.
   */
  lemma AcceptedInOrder(a: End, b: End, run: seq<Event>)
    requires Paired(a, b) && Legal(a, b, run)
    ensures Subsequence(After(a, b, run).accepted, After(a, b, run).sent)
  {
    InvOverRuns(a, b, run);
  }

  /** No nonce is used twice under a key. */
  lemma NoncesNeverRepeat(a: End, b: End, run: seq<Event>, i: nat, j: nat)
    requires Paired(a, b) && Legal(a, b, run) && i < j < |After(a, b, run).sent|
    ensures After(a, b, run).sent[i].message.nonce != After(a, b, run).sent[j].message.nonce
  {
    hide Aad, BigEndian, FromBigEndian, After, Legal;
    InvOverRuns(a, b, run);
    var link := After(a, b, run);
    assert Numbered(link.a, link.sent[i], i) && Numbered(link.a, link.sent[j], j);
    Powers();
    BigEndianReads(i, 8);
    BigEndianReads(j, 8);
  }

  /** A message delivered as it was sent is accepted exactly when nothing at or after it has been. */
  lemma GenuineAcceptedIff(a: End, b: End, run: seq<Event>, i: nat)
    requires Paired(a, b) && Legal(a, b, run) && i < |After(a, b, run).sent|
    ensures var link := After(a, b, run);
            var outcome := link.b.Opened(link.sent[i].message, link.sent[i].data);
            && (outcome.Ok? <==> i > link.b.lastReceived)
            && (outcome.Ok? ==> outcome.value == link.sent[i].plaintext)
  {
    hide Aad, BigEndian, After, Legal;
    InvOverRuns(a, b, run);
    var link := After(a, b, run);
    assert Numbered(link.a, link.sent[i], i);
  }

  lemma RunSnoc(a: End, b: End, run: seq<Event>, e: Event)
    ensures After(a, b, run + [e]) == Next(After(a, b, run), e)
    ensures Legal(a, b, run + [e]) <==> Legal(a, b, run) && Possible(After(a, b, run), e)
  {
    assert (run + [e])[..|run|] == run;
  }

  /**
   Whatever the network has done before: a message that is sealed and then delivered is accepted, and
   both ends of the link have grown by it and by nothing else.
   */
  lemma SentThenDelivered(a: End, b: End, run: seq<Event>, plaintext: Bytes, data: Bytes, random: Bytes)
    requires Paired(a, b) && Legal(a, b, run)
    requires |plaintext| <= 16_777_216 && |random| == 4 && After(a, b, run).a.sendSequence < 0x1_0000_0000_0000_0000
    ensures var before, sending := After(a, b, run), run + [Send(plaintext, data, random)];
            var sent := After(a, b, sending);
            && Legal(a, b, sending)
            && |sent.sent| == |before.sent| + 1 && sent.sent[..|before.sent|] == before.sent && sent.accepted == before.accepted
            && sent.sent[|before.sent|].plaintext == plaintext && sent.sent[|before.sent|].data == data
            && var delivering := sending + [Deliver(sent.sent[|before.sent|].message, data)];
               && Legal(a, b, delivering) && After(a, b, delivering).sent == sent.sent
               && After(a, b, delivering).accepted == before.accepted + [Accepted(before.a.sendSequence, plaintext, data)]
  {
    hide Aad, BigEndian, After, Legal;
    InvOverRuns(a, b, run);
    RunSnoc(a, b, run, Send(plaintext, data, random));
    var before, sending := After(a, b, run), run + [Send(plaintext, data, random)];
    var sent := After(a, b, sending);
    var m := sent.sent[|before.sent|].message;
    RunSnoc(a, b, sending, Deliver(m, data));
    GenuineAcceptedIff(a, b, sending, |before.sent|);
  }

  /** A refused delivery, wherever it falls in a run, changes nothing that happens afterwards. */
  lemma {:induction false} RefusalsLeaveNoTrace(a: End, b: End, before: seq<Event>, e: Event, later: seq<Event>)
    requires e.Deliver? && After(a, b, before).b.Opened(e.message, e.data).Err?
    ensures After(a, b, before + [e] + later) == After(a, b, before + later)
    ensures Legal(a, b, before + [e] + later) ==> Legal(a, b, before + later)
    decreases |later|
  {
    hide Next, Possible, End.Opened;
    var n := |later| - 1;
    if later == [] {
      RefusalIsNoStep(After(a, b, before), e);
      assert (before + [e] + [])[..|before|] == before && before + [] == before;
    } else {
      RefusalsLeaveNoTrace(a, b, before, e, later[..n]);
      assert (before + [e] + later)[..|before| + 1 + n] == before + [e] + later[..n];
      assert (before + later)[..|before| + n] == before + later[..n];
    }
  }

  lemma RefusalIsNoStep(link: Link, e: Event)
    requires e.Deliver? && link.b.Opened(e.message, e.data).Err?
    ensures Next(link, e) == link
  {
    assert link.accepted + [] == link.accepted;
  }

  // --- The session object ----------------------------------------------------

  class E2ESession {
    const sessionId: Bytes
    const sendKey: Key
    const receiveKey: Key
    const sendDirection: Direction
    const receiveDirection: Direction
    var sendSequence: nat
    var lastReceivedSequence: int

    constructor (sessionId: Bytes, sendKey: Key, receiveKey: Key, isConsumer: bool)
      ensures AsEnd() == End(sessionId, sendKey, receiveKey,
                             if isConsumer then ConsumerToProvider else ProviderToConsumer,
                             if isConsumer then ProviderToConsumer else ConsumerToProvider, 0, -1)
    {
      this.sessionId, this.sendKey, this.receiveKey := sessionId, sendKey, receiveKey;
      sendDirection := if isConsumer then ConsumerToProvider else ProviderToConsumer;
      receiveDirection := if isConsumer then ProviderToConsumer else ConsumerToProvider;
      sendSequence, lastReceivedSequence := 0, -1;
    }

    ghost function AsEnd(): End
      reads this
    {
      End(sessionId, sendKey, receiveKey, sendDirection, receiveDirection, sendSequence, lastReceivedSequence)
    }

    method Encrypt(plaintext: Bytes, data: Bytes, random: Bytes) returns (result: Result<Message, SessionError>)
      modifies this
      ensures (AsEnd(), result) == old(AsEnd()).Encrypt(plaintext, data, random)
    {
      if |plaintext| > MAX_CIPHERTEXT {
        return Err(TooLarge);
      }
      var sequence := sendSequence;
      sendSequence := sendSequence + 1;
      if sequence >= SEQUENCE_LIMIT {
        return Err(Overflow);
      }
      var nonce := BigEndian(sequence, 8) + random;
      var ciphertext := Sealed(sendKey, nonce, plaintext, Aad(sessionId, sequence, sendDirection, data));
      result := Ok(Message(sessionId, sendDirection, sequence, Valid(nonce), Valid(ciphertext)));
    }

    method Decrypt(m: Message, data: Bytes) returns (result: Result<Bytes, SessionError>)
      modifies this
      ensures (AsEnd(), result) == old(AsEnd()).Decrypt(m, data)
    {
      if m.sessionId != sessionId {
        return Err(WrongSession);
      }
      if m.direction != receiveDirection {
        return Err(WrongDirection);
      }
      if m.sequence <= lastReceivedSequence {
        return Err(Replayed);
      }
      if m.nonce.Malformed? || m.ciphertext.Malformed? {
        return Err(BadEncoding);
      }
      if |m.nonce.value| != 12 {
        return Err(BadNonce);
      }
      if m.ciphertext.value.Length() > MAX_CIPHERTEXT + 16 {
        return Err(TooLarge);
      }
      if m.sequence < 0 || m.sequence >= SEQUENCE_LIMIT {
        return Err(Overflow);
      }
      var c := m.ciphertext.value;
      if c.Junk? || c.key != receiveKey || c.nonce != m.nonce.value
         || c.aad != Aad(sessionId, m.sequence, m.direction, data) {
        return Err(Rejected);
      }
      lastReceivedSequence := m.sequence;
      result := Ok(c.plaintext);
    }
  }

  /** A session needs an id. */
  method OpenSession(sessionId: Bytes, sendKey: Key, receiveKey: Key, isConsumer: bool)
    returns (session: Option<E2ESession>)
    ensures session.None? <==> sessionId == []
    ensures session.Some? ==> fresh(session.value)
    ensures session.Some? ==>
              var sends, receives := if isConsumer then ConsumerToProvider else ProviderToConsumer,
                                     if isConsumer then ProviderToConsumer else ConsumerToProvider;
              session.value.AsEnd() == End(sessionId, sendKey, receiveKey, sends, receives, 0, -1)
  {
    if sessionId == [] {
      return None;
    }
    var made := new E2ESession(sessionId, sendKey, receiveKey, isConsumer);
    session := Some(made);
  }
}
