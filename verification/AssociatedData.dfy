/** What a ciphertext of a session is bound to, and when two sessions could confuse theirs. */
module AssociatedData {
  import opened Bytes
  import Transcripts

  datatype Direction = ConsumerToProvider | ProviderToConsumer {
    function Text(): (text: string)
      ensures |text| == 20 && Ascii(text)
    {
      if ConsumerToProvider? then "consumer_to_provider" else "provider_to_consumer"
    }
  }

  const SEQUENCE_LIMIT := 0x1_0000_0000_0000_0000

  function Code(c: char): byte
    requires c < 128 as char
  {
    c as int
  }

  function Latin(s: string): (b: Bytes)
    requires Ascii(s)
    ensures |b| == |s| && forall i :: 0 <= i < |b| ==> b[i] == s[i] as int
  {
    seq(|s|, i requires 0 <= i < |s| => Code(s[i]))
  }

  const HEAD: Bytes := Latin("0.1.0|")
  const BAR: byte := 124

  /** A bar, the direction, a bar, the sequence number, a bar. */
  function Middle(sequence: nat, direction: Direction): (b: Bytes)
    requires sequence < SEQUENCE_LIMIT
    ensures |b| == 31
  {
    [BAR] + Latin(direction.Text()) + [BAR] + BigEndian(sequence, 8) + [BAR]
  }

  function Then(part: Bytes, rest: Bytes): Bytes {
    part + rest
  }

  function Aad(sessionId: Bytes, sequence: nat, direction: Direction, data: Bytes): Bytes
    requires sequence < SEQUENCE_LIMIT
  {
    Then(HEAD, Then(sessionId, Then(Middle(sequence, direction), data)))
  }

  lemma ThenInjective(a: Bytes, b: Bytes, c: Bytes, d: Bytes)
    requires |a| == |c| && Then(a, b) == Then(c, d)
    ensures a == c && b == d
  {
    SplitEqual(a, b, c, d);
  }

  lemma DirectionTexts(d: Direction, e: Direction)
    ensures d.Text() == e.Text() ==> d == e
  {
    assert d.Text()[0] == 'c' <==> d == ConsumerToProvider;
    assert e.Text()[0] == 'c' <==> e == ConsumerToProvider;
  }

  lemma LatinInjective(s: string, t: string)
    requires Ascii(s) && Ascii(t) && Latin(s) == Latin(t)
    ensures s == t
  {
    assert forall i :: 0 <= i < |s| ==> Latin(s)[i] == s[i] as int && Latin(t)[i] == t[i] as int;
  }

  lemma MiddleParts(m: nat, d: Direction)
    requires m < SEQUENCE_LIMIT
    ensures var b := Middle(m, d);
            && b[0] == b[21] == b[30] == BAR
            && b[1..21] == Latin(d.Text()) && b[22..30] == BigEndian(m, 8)
            && forall i :: 1 <= i < 21 ==> b[i] != BAR
  {
    hide BigEndian, Latin, Direction.Text;
    TextHasNoBar(d);
    var text := Latin(d.Text());
    assert forall i :: 1 <= i < 21 ==> Middle(m, d)[i] == text[i - 1];
  }

  lemma TextHasNoBar(d: Direction)
    ensures forall i :: 0 <= i < 20 ==> Latin(d.Text())[i] != BAR
  {
    assert forall i :: 0 <= i < 20 ==> d.Text()[i] != '|';
  }

  lemma MiddleInjective(m: nat, n: nat, d: Direction, e: Direction)
    requires m < SEQUENCE_LIMIT && n < SEQUENCE_LIMIT && Middle(m, d) == Middle(n, e)
    ensures m == n && d == e
  {
    hide BigEndian, FromBigEndian, Latin, Middle;
    MiddleParts(m, d);
    MiddleParts(n, e);
    LatinInjective(d.Text(), e.Text());
    DirectionTexts(d, e);
    Powers();
    BigEndianReads(m, 8);
    BigEndianReads(n, 8);
  }

  /** With ids of one length, equal associated data means equal id, direction, sequence number and caller data. */
  lemma AadInjective(a: Bytes, b: Bytes, m: nat, n: nat, d: Direction, e: Direction, x: Bytes, y: Bytes)
    requires m < SEQUENCE_LIMIT && n < SEQUENCE_LIMIT && |a| == |b|
    requires Aad(a, m, d, x) == Aad(b, n, e, y)
    ensures a == b && m == n && d == e && x == y
  {
    hide Then, Middle;
    ThenInjective(HEAD, Then(a, Then(Middle(m, d), x)), HEAD, Then(b, Then(Middle(n, e), y)));
    ThenInjective(a, Then(Middle(m, d), x), b, Then(Middle(n, e), y));
    ThenInjective(Middle(m, d), x, Middle(n, e), y);
    MiddleInjective(m, n, d, e);
  }

  // --- Across sessions -------------------------------------------------------

  /** Some messages of the two sessions have the same associated data. */
  ghost predicate Collide(a: Bytes, b: Bytes) {
    exists m: nat, n: nat, d: Direction, e: Direction, x: Bytes, y: Bytes ::
      m < SEQUENCE_LIMIT && n < SEQUENCE_LIMIT && Aad(a, m, d, x) == Aad(b, n, e, y)
  }

  /** `b` is `a`, a bar, a direction, a bar and eight bytes, and then ends or goes on with a bar. */
  predicate Continues(a: Bytes, b: Bytes, d: Direction) {
    && |b| >= |a| + 30 && b[..|a|] == a
    && b[|a|] == BAR && b[|a| + 1..|a| + 21] == Latin(d.Text()) && b[|a| + 21] == BAR
    && (|b| == |a| + 30 || b[|a| + 30] == BAR)
  }

  /** Where the parts of some associated data stand. */
  lemma AadParts(s: Bytes, id: Bytes, m: nat, d: Direction, x: Bytes)
    requires m < SEQUENCE_LIMIT && s == Aad(id, m, d, x)
    ensures |s| == 37 + |id| + |x| && s[6..6 + |id|] == id
    ensures s[6 + |id|] == s[27 + |id|] == s[36 + |id|] == BAR
    ensures s[7 + |id|..27 + |id|] == Latin(d.Text())
    ensures forall k :: 7 + |id| <= k < 27 + |id| ==> s[k] != BAR
  {
    hide Middle, Latin, Direction.Text;
    var middle, at := Middle(m, d), 6 + |id|;
    MiddleParts(m, d);
    assert s == HEAD + id + middle + x;
    assert s[at..at + 31] == middle;
    assert forall k :: at <= k < at + 31 ==> s[k] == middle[k - at];
    assert s[at + 1..at + 21] == middle[1..21];
  }

  lemma CollisionContinues(a: Bytes, b: Bytes, m: nat, n: nat, d: Direction, e: Direction, x: Bytes, y: Bytes)
    requires a != b && |a| <= |b| && m < SEQUENCE_LIMIT && n < SEQUENCE_LIMIT
    requires Aad(a, m, d, x) == Aad(b, n, e, y)
    ensures Continues(a, b, d)
  {
    hide Aad, Latin;
    var s := Aad(a, m, d, x);
    AadParts(s, a, m, d, x);
    AadParts(s, b, n, e, y);
    assert s[6..6 + |b|][..|a|] == s[6..6 + |a|];
    assert |b| >= |a| + 30;
    assert forall k :: 0 <= k < |b| ==> b[k] == s[6 + k];
    assert b[|a| + 1..|a| + 21] == s[7 + |a|..27 + |a|];
  }

  lemma Regroup(a: Bytes, b: Bytes, middle: Bytes, rest: Bytes, next: Bytes)
    ensures a + middle == b + rest ==> a + (middle + next) == b + (rest + next)
    ensures a + middle + rest == b ==> a + (middle + (rest + next)) == b + next
  {
    assert a + (middle + next) == (a + middle) + next && b + (rest + next) == (b + rest) + next;
    assert a + (middle + (rest + next)) == (a + middle + rest) + next;
  }

  /** The caller data with which message `m` of the one session looks like message `n` of the other. */
  lemma ContinuesCollides(a: Bytes, b: Bytes, d: Direction, m: nat, n: nat) returns (x: Bytes)
    requires Continues(a, b, d) && m < SEQUENCE_LIMIT && BigEndian(m, 8) == b[|a| + 22..|a| + 30]
    requires n < SEQUENCE_LIMIT
    ensures Aad(a, m, d, x) == Aad(b, n, d, [])
  {
    hide Latin, BigEndian, Continues, Middle;
    var middle, next := Middle(m, d), Middle(n, d);
    BytesAgree(a, b, d, m);
    if |b| == |a| + 30 {
      MiddleParts(n, d);
      assert next == [BAR] + next[1..];
      x := next[1..];
      Regroup(a, b, middle, [BAR], x);
    } else {
      x := b[|a| + 31..] + next;
      Regroup(a, b, middle, b[|a| + 31..], next);
    }
    assert next + [] == next;
  }

  lemma BytesAgree(a: Bytes, b: Bytes, d: Direction, m: nat)
    requires Continues(a, b, d) && m < SEQUENCE_LIMIT && BigEndian(m, 8) == b[|a| + 22..|a| + 30]
    ensures |b| == |a| + 30 ==> a + Middle(m, d) == b + [BAR]
    ensures |b| >= |a| + 30
    ensures |b| > |a| + 30 ==> a + Middle(m, d) + b[|a| + 31..] == b
  {
    hide Latin, BigEndian;
    assert b[..|a| + 30] == a + ([BAR] + Latin(d.Text()) + [BAR] + BigEndian(m, 8));
  }

  /** Exactly when two sessions' associated data can collide, as a look at their ids tells. */
  lemma CollideIff(a: Bytes, b: Bytes)
    requires a != b && |a| <= |b|
    ensures Collide(a, b) <==> exists d: Direction :: Continues(a, b, d)
  {
    hide Aad, Middle, Latin, BigEndian, FromBigEndian;
    if Collide(a, b) {
      var m: nat, n: nat, d: Direction, e: Direction, x: Bytes, y: Bytes :|
        m < SEQUENCE_LIMIT && n < SEQUENCE_LIMIT && Aad(a, m, d, x) == Aad(b, n, e, y);
      CollisionContinues(a, b, m, n, d, e, x, y);
    }
    if d: Direction :| Continues(a, b, d) {
      var digits := b[|a| + 22..|a| + 30];
      BigEndianWrites(digits);
      Powers();
      var x := ContinuesCollides(a, b, d, FromBigEndian(digits), 0);
    }
  }

  /** Ids without a bar, like the ones that a session hello generates, never collide. */
  lemma BarFreeIdsAreSafe(a: Bytes, b: Bytes, m: nat, n: nat, d: Direction, e: Direction, x: Bytes, y: Bytes)
    requires BAR !in a && BAR !in b
    requires m < SEQUENCE_LIMIT && n < SEQUENCE_LIMIT && Aad(a, m, d, x) == Aad(b, n, e, y)
    ensures a == b && m == n && d == e && x == y
  {
    hide Aad, Latin;
    if a == b {
      AadInjective(a, b, m, n, d, e, x, y);
    } else if |a| <= |b| {
      CollisionContinues(a, b, m, n, d, e, x, y);
      assert false;
    } else {
      CollisionContinues(b, a, n, m, e, d, y, x);
      assert false;
    }
  }

  const ZEROS := "|\0\0\0\0\0\0\0\0"

  lemma LatinSplit(s: string, t: string)
    requires Ascii(s) && Ascii(t)
    ensures Ascii(s + t) && Latin(s + t) == Latin(s) + Latin(t)
  {
  }

  lemma LatinOfTail(d: Direction)
    ensures Ascii("|" + d.Text() + ZEROS)
    ensures Latin("|" + d.Text() + ZEROS) == [BAR] + Latin(d.Text()) + [BAR, 0, 0, 0, 0, 0, 0, 0, 0]
  {
    LatinSplit("|", d.Text());
    LatinSplit("|" + d.Text(), ZEROS);
    assert Latin("|") == [BAR] && Latin(ZEROS) == [BAR, 0, 0, 0, 0, 0, 0, 0, 0];
  }

  lemma TailContinues(id: string, d: Direction)
    requires Ascii(id)
    ensures var longer := id + ("|" + d.Text() + ZEROS);
            && Ascii(longer) && |longer| == |id| + 30 && Continues(Latin(id), Latin(longer), d)
            && Latin(longer)[|id| + 22..|id| + 30] == [0, 0, 0, 0, 0, 0, 0, 0]
  {
    LatinOfTail(d);
    LatinSplit(id, "|" + d.Text() + ZEROS);
    hide Latin, Direction.Text;
  }

  /**
   Every short enough id has a longer one within the limit that it collides with, as early as the
   first message of either session.
   */
  lemma ShortIdsCollide(id: string, d: Direction) returns (longer: string, x: Bytes)
    requires id != "" && Ascii(id) && |id| <= Transcripts.MAX_SESSION_ID - 30
    ensures Ascii(longer) && |longer| <= Transcripts.MAX_SESSION_ID && longer != id
    ensures Aad(Latin(id), 0, d, x) == Aad(Latin(longer), 0, d, [])
  {
    hide Aad, Continues, Latin;
    longer := id + ("|" + d.Text() + ZEROS);
    TailContinues(id, d);
    ZeroDigits();
    x := ContinuesCollides(Latin(id), Latin(longer), d, 0, 0);
  }

  lemma ZeroDigits()
    ensures BigEndian(0, 8) == [0, 0, 0, 0, 0, 0, 0, 0]
  {
    assert BigEndian(0, 2) == [0, 0];
    assert BigEndian(0, 4) == [0, 0, 0, 0];
    assert BigEndian(0, 6) == [0, 0, 0, 0, 0, 0];
  }
}
