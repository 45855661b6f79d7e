/** Handshake transcripts: length-prefixed fields that a signature covers. */
module Transcripts {
  import opened Options
  import opened Bytes

  const MAX_FIELD := 0x1_0000_0000

  predicate Encodable(fields: seq<Bytes>) {
    forall f :: f in fields ==> |f| < MAX_FIELD
  }

  function Prefixed(field: Bytes): Bytes {
    BigEndian(|field|, 4) + field
  }

  function Join(fields: seq<Bytes>): Bytes {
    if fields == [] then [] else Prefixed(fields[0]) + Join(fields[1..])
  }

  /** Reads a transcript back; nothing but a whole number of complete fields is accepted. */
  function Parse(data: Bytes): Option<seq<Bytes>>
    decreases |data|
  {
    if data == [] then Some([])
    else if |data| < 4 then None
    else
      var length := FromBigEndian(data[..4]);
      if |data| < 4 + length then None
      else
        match Parse(data[4 + length..])
        case None => None
        case Some(rest) => Some([data[4..4 + length]] + rest)
  }

  /** Parsing undoes the encoding, for any number of fields of any content. */
  lemma {:induction false} ParseJoin(fields: seq<Bytes>)
    requires Encodable(fields)
    ensures Parse(Join(fields)) == Some(fields)
  {
    if fields != [] {
      var first, rest, data := fields[0], fields[1..], Join(fields);
      ParseJoin(rest);
      Powers();
      BigEndianReads(|first|, 4);
      assert data[..4] == BigEndian(|first|, 4);
      assert data[4..4 + |first|] == first;
      assert data[4 + |first|..] == Join(rest);
      assert [data[4..4 + |first|]] + rest == fields;
    }
  }

  lemma ParseStep(data: Bytes)
    requires data != [] && Parse(data).Some?
    ensures |data| >= 4
    ensures var length := FromBigEndian(data[..4]);
            && |data| >= 4 + length && Parse(data[4 + length..]).Some?
            && Parse(data).value == [data[4..4 + length]] + Parse(data[4 + length..]).value
  {
    hide FromBigEndian;
  }

  lemma JoinCons(first: Bytes, rest: seq<Bytes>)
    ensures Join([first] + rest) == Prefixed(first) + Join(rest)
    ensures |first| < MAX_FIELD && Encodable(rest) ==> Encodable([first] + rest)
  {
    assert ([first] + rest)[1..] == rest;
  }

  lemma NoFields()
    ensures Parse([]) == Some([]) && Join([]) == [] && Encodable([])
  {
  }

  /** Encoding undoes the parsing: no two byte strings parse to the same fields. */
  lemma {:induction false} JoinParse(data: Bytes)
    requires Parse(data).Some?
    ensures Encodable(Parse(data).value) && Join(Parse(data).value) == data
    decreases |data|
  {
    hide FromBigEndian, BigEndian, Pow256, Parse, Join, Encodable;
    if data == [] {
      NoFields();
    } else {
      ParseStep(data);
      var length := FromBigEndian(data[..4]);
      var first, rest := data[4..4 + length], Parse(data[4 + length..]).value;
      JoinParse(data[4 + length..]);
      BigEndianWrites(data[..4]);
      Powers();
      JoinCons(first, rest);
      Reassembled(data, length);
    }
  }

  lemma Reassembled(data: Bytes, length: nat)
    requires 4 + length <= |data|
    ensures data == (data[..4] + data[4..4 + length]) + data[4 + length..]
  {
  }

  lemma JoinInjective(a: seq<Bytes>, b: seq<Bytes>)
    requires Encodable(a) && Encodable(b) && Join(a) == Join(b)
    ensures a == b
  {
    ParseJoin(a);
    ParseJoin(b);
  }

  // --- The two transcripts ---------------------------------------------------

  /** Text is encoded by a function that keeps different texts apart, as UTF-8 does. */
  type Encoding = string -> Bytes

  ghost predicate Faithful(utf8: Encoding) {
    forall a, b :: utf8(a) == utf8(b) ==> a == b
  }

  const PROTOCOL_VERSION := "0.1.0"
  const MAX_SESSION_ID := 256

  datatype Handshake = Handshake(
    version: string,
    sessionId: string,
    providerId: string,
    admissionId: string,
    identityKey: Bytes,
    providerEphemeral: Bytes,
    consumerEphemeral: Bytes,
    freshness: Bytes)

  datatype TranscriptError =
    InvalidSessionId | InvalidIdentityKey | InvalidEphemeralKey | InvalidFreshness | NotAscii | FieldTooLong

  function Joined(fields: seq<Bytes>): Result<Bytes, TranscriptError> {
    if Encodable(fields) then Ok(Join(fields)) else Err(FieldTooLong)
  }

  function SessionFields(h: Handshake, utf8: Encoding): seq<Bytes> {
    [utf8(PROTOCOL_VERSION), utf8(h.sessionId), utf8(h.providerId),
     h.identityKey, h.providerEphemeral, h.consumerEphemeral, utf8(h.admissionId), h.freshness]
  }

  /** The transcript that session keys are derived from; its version is fixed. */
  function SessionTranscript(h: Handshake, utf8: Encoding): Result<Bytes, TranscriptError> {
    if h.sessionId == "" || |h.sessionId| > MAX_SESSION_ID then Err(InvalidSessionId)
    else if |h.identityKey| != 32 then Err(InvalidIdentityKey)
    else if |h.providerEphemeral| != 32 || |h.consumerEphemeral| != 32 then Err(InvalidEphemeralKey)
    else if |h.freshness| < 16 || |h.freshness| > 64 then Err(InvalidFreshness)
    else Joined(SessionFields(h, utf8))
  }

  function OfferFields(h: Handshake, utf8: Encoding): seq<Bytes> {
    [utf8(h.version), utf8(h.sessionId), utf8(h.providerId), utf8(h.admissionId),
     h.identityKey, h.providerEphemeral, h.consumerEphemeral, h.freshness]
  }

  /** The transcript of the offer handshake, which puts the admission id earlier. */
  function OfferTranscript(h: Handshake, utf8: Encoding): Result<Bytes, TranscriptError> {
    if !Ascii(h.version) then Err(NotAscii) else Joined(OfferFields(h, utf8))
  }

  /** Each field is preceded by its length in four bytes, the most significant first. */
  lemma FieldsAre(field: Bytes, rest: seq<Bytes>)
    requires |field| < 0x1_0000_0000
    ensures var b := Join([field] + rest);
            && |b| == 4 + |field| + |Join(rest)| && b[4..4 + |field|] == field && b[4 + |field|..] == Join(rest)
            && |field| == 0x100_0000 * (b[0] as int) + 0x1_0000 * (b[1] as int) + 0x100 * (b[2] as int) + b[3] as int
    ensures Join([]) == []
  {
    JoinCons(field, rest);
    var head := BigEndian(|field|, 4);
    var b := Prefixed(field) + Join(rest);
    Powers();
    BigEndianReads(|field|, 4);
    BigEndianOf(head);
    assert b[..4] == head && b[0] == head[0] && b[1] == head[1] && b[2] == head[2] && b[3] == head[3];
  }

  /**
   A session transcript exists exactly for an id of 1 to 256 characters, keys of 32 bytes and a
   freshness of 16 to 64 bytes, unless a text is too long for its prefix, and holds these eight
   fields in this order; an offer transcript exists for any ASCII version, and orders them otherwise.
   */
  lemma TranscriptsAre(h: Handshake, utf8: Encoding)
    ensures var fields := [utf8("0.1.0"), utf8(h.sessionId), utf8(h.providerId), h.identityKey,
                           h.providerEphemeral, h.consumerEphemeral, utf8(h.admissionId), h.freshness];
            SessionTranscript(h, utf8)
            == if h.sessionId == "" || |h.sessionId| > 256 then Err(InvalidSessionId)
               else if |h.identityKey| != 32 then Err(InvalidIdentityKey)
               else if !(|h.providerEphemeral| == |h.consumerEphemeral| == 32) then Err(InvalidEphemeralKey)
               else if !(16 <= |h.freshness| <= 64) then Err(InvalidFreshness)
               else if exists f :: f in fields && |f| >= 0x1_0000_0000 then Err(FieldTooLong)
               else Ok(Join(fields))
    ensures var fields := [utf8(h.version), utf8(h.sessionId), utf8(h.providerId), utf8(h.admissionId),
                           h.identityKey, h.providerEphemeral, h.consumerEphemeral, h.freshness];
            OfferTranscript(h, utf8)
            == if exists c :: c in h.version && c >= 128 as char then Err(NotAscii)
               else if exists f :: f in fields && |f| >= 0x1_0000_0000 then Err(FieldTooLong)
               else Ok(Join(fields))
  {
    hide Join;
    if !Ascii(h.version) {
      var i :| 0 <= i < |h.version| && h.version[i] >= 128 as char;
      assert h.version[i] in h.version;
    }
  }

  /** Equal session transcripts agree in every field. */
  lemma SessionTranscriptInjective(g: Handshake, h: Handshake, utf8: Encoding)
    requires Faithful(utf8)
    requires SessionTranscript(g, utf8).Ok? && SessionTranscript(g, utf8) == SessionTranscript(h, utf8)
    ensures g.(version := h.version) == h
  {
    hide Join;
    var a, b := SessionFields(g, utf8), SessionFields(h, utf8);
    JoinInjective(a, b);
    assert a[1] == b[1] && a[2] == b[2] && a[3] == b[3] && a[4] == b[4];
    assert a[5] == b[5] && a[6] == b[6] && a[7] == b[7];
  }

  lemma OfferTranscriptInjective(g: Handshake, h: Handshake, utf8: Encoding)
    requires Faithful(utf8)
    requires OfferTranscript(g, utf8).Ok? && OfferTranscript(g, utf8) == OfferTranscript(h, utf8)
    ensures g == h
  {
    hide Join;
    var a, b := OfferFields(g, utf8), OfferFields(h, utf8);
    JoinInjective(a, b);
    assert a[0] == b[0] && a[1] == b[1] && a[2] == b[2] && a[3] == b[3];
    assert a[4] == b[4] && a[5] == b[5] && a[6] == b[6] && a[7] == b[7];
  }

  /**
   One handshake has different bytes in the two transcripts, which order their fields differently,
   except in the degenerate case that all three keys and the admission id coincide.
   */
  lemma TranscriptsAgreeIff(h: Handshake, utf8: Encoding)
    requires h.version == PROTOCOL_VERSION
    requires SessionTranscript(h, utf8).Ok?
    ensures OfferTranscript(h, utf8).Ok?
    ensures OfferTranscript(h, utf8) == SessionTranscript(h, utf8)
            <==> utf8(h.admissionId) == h.identityKey == h.providerEphemeral == h.consumerEphemeral
  {
    hide Join;
    var a, b := OfferFields(h, utf8), SessionFields(h, utf8);
    assert forall f :: f in a ==> f in b;
    if Join(a) == Join(b) {
      JoinInjective(a, b);
      assert a[3] == b[3] && a[4] == b[4] && a[5] == b[5] && a[6] == b[6];
    }
  }
}
