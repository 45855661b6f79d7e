/** The three sliding-window limiters, each proved to decide as its whole history does. */
module Limiters {
  import opened SlidingWindow

  type Histories = map<string, seq<real>>

  function HistoryOf(histories: Histories, key: string): seq<real> {
    if key in histories then histories[key] else []
  }

  /** Nothing that still matters has been dropped, and the limit was never exceeded. */
  ghost predicate Sound(kept: seq<real>, history: seq<real>, policy: Policy, now: real) {
    Keeps(kept, history, policy.span, now) && Lawful(policy, history)
  }

  ghost predicate Faithful(kept: Histories, histories: Histories, policy: string -> Policy, now: real) {
    && kept.Keys == histories.Keys
    && forall key :: key in kept ==> Sound(kept[key], histories[key], policy(key), now)
  }

  lemma NothingYet(policy: Policy, now: real)
    ensures Sound([], [], policy, now)
  {
  }

  /** Pruning a list loses nothing, and its length decides the next call. */
  lemma Pruned(kept: seq<real>, history: seq<real>, policy: Policy, before: real, now: real)
    requires Sound(kept, history, policy, before) && before <= now
    ensures Sound(kept, history, policy, now)
    ensures var recent := Recent(kept, policy.span, now);
            && (|recent| < policy.limit <==> Allows(policy, history, now))
            && Sound(recent, history, policy, now)
            && (|recent| < policy.limit ==> Sound(recent + [now], history + [now], policy, now))
  {
    hide Keeps, Lawful, Recent, CountIn;
    KeptDecides(kept, history, policy.span, before, now);
    var recent := Recent(kept, policy.span, now);
    KeepsSnoc(recent, history, policy.span, now);
    if |recent| < policy.limit {
      LawfulSnoc(policy, history, now);
    }
  }

  lemma FaithfulLater(kept: Histories, histories: Histories, policy: string -> Policy, before: real, now: real)
    requires Faithful(kept, histories, policy, before) && before <= now
    ensures Faithful(kept, histories, policy, now)
  {
    hide Sound;
    forall key | key in kept ensures Sound(kept[key], histories[key], policy(key), now) {
      Pruned(kept[key], histories[key], policy(key), before, now);
    }
  }

  lemma FaithfulWith(kept: Histories, histories: Histories, policy: string -> Policy, now: real,
                     key: string, list: seq<real>, history: seq<real>)
    requires Faithful(kept, histories, policy, now) && Sound(list, history, policy(key), now)
    ensures Faithful(kept[key := list], histories[key := history], policy, now)
  {
    hide Sound;
  }

  lemma FaithfulAt(kept: Histories, histories: Histories, policy: string -> Policy, now: real, key: string)
    requires Faithful(kept, histories, policy, now)
    ensures Sound(HistoryOf(kept, key), HistoryOf(histories, key), policy(key), now)
  {
    NothingYet(policy(key), now);
  }

  /** A faithful limiter has never exceeded a key's limit, over any window whatsoever. */
  lemma NeverExceeded(kept: Histories, histories: Histories, policy: string -> Policy, now: real, key: string, end: real)
    requires Faithful(kept, histories, policy, now) && key in histories
    ensures InWindow(policy(key), histories[key], end) <= policy(key).limit
  {
    WindowBound(policy(key), histories[key], now, end);
  }

  lemma SoundIsSorted(kept: seq<real>, history: seq<real>, policy: Policy, now: real)
    requires Sound(kept, history, policy, now)
    ensures forall i, j :: 0 <= i < j < |kept| ==> kept[i] <= kept[j]
  {
    var dropped := |history| - |kept|;
    forall i, j | 0 <= i < j < |kept| ensures kept[i] <= kept[j] {
      assert kept[i] == history[dropped + i] && kept[j] == history[dropped + j];
    }
  }

  // --- Provider registration -------------------------------------------------

  const PER_MINUTE := Policy(20, 60.0)
  const MAX_CREDENTIAL_BUCKETS: nat := 1024
  const MAX_INCOMPLETE_REGISTRATIONS: nat := 32

  function PerMinute(tokenId: string): Policy { PER_MINUTE }

  class RegistrationGuard {
    var pending: nat
    var order: seq<string>
    var attempts: Histories
    /** Admissions of each credential since its bucket was opened. */
    ghost var histories: Histories
    ghost var clock: real

    constructor (now: real)
      ensures Valid() && pending == 0 && histories == map[] && clock == now
    {
      pending, order, attempts, histories, clock := 0, [], map[], map[], now;
    }

    ghost predicate Valid()
      reads this
    {
      && pending <= MAX_INCOMPLETE_REGISTRATIONS
      && Faithful(attempts, histories, PerMinute, clock)
      && (forall i, j :: 0 <= i < j < |order| ==> order[i] != order[j])
      && (forall c :: c in order <==> c in attempts)
      && |order| <= MAX_CREDENTIAL_BUCKETS
      && (forall c :: c in attempts ==> |attempts[c]| <= PER_MINUTE.limit)
    }

    method Begin() returns (admitted: bool)
      requires Valid()
      modifies `pending
      ensures Valid() && admitted == (old(pending) < 32)
      ensures pending == if admitted then old(pending) + 1 else old(pending)
    {
      if pending >= MAX_INCOMPLETE_REGISTRATIONS {
        return false;
      }
      pending := pending + 1;
      return true;
    }

    method Finish()
      requires Valid()
      modifies `pending
      ensures Valid() && pending == if old(pending) > 0 then old(pending) - 1 else 0
    {
      if pending > 0 {
        pending := pending - 1;
      }
    }

    /** Drops the oldest bucket to make room for a credential not seen before. */
    method MakeRoom(tokenId: string)
      requires Valid()
      modifies `order, `attempts, `histories
      ensures Valid() && HistoryOf(histories, tokenId) == HistoryOf(old(histories), tokenId)
      ensures tokenId !in attempts ==> |order| < MAX_CREDENTIAL_BUCKETS
      ensures histories == if tokenId !in old(attempts) && |old(order)| >= MAX_CREDENTIAL_BUCKETS
                           then old(histories) - {old(order)[0]} else old(histories)
    {
      if tokenId !in attempts && |order| >= MAX_CREDENTIAL_BUCKETS {
        attempts, histories := attempts - {order[0]}, histories - {order[0]};
        order := order[1..];
      }
    }

    /** Pops aged admissions off the front. */
    method Pop(kept: seq<real>, now: real) returns (recent: seq<real>)
      ensures recent == kept[Aged(kept, 60.0, now)..]
    {
      recent := kept;
      while recent != [] && now - recent[0] >= 60.0
        invariant |recent| <= |kept| && recent == kept[|kept| - |recent|..]
        invariant Aged(kept, 60.0, now) == |kept| - |recent| + Aged(recent, 60.0, now)
      {
        recent := recent[1..];
      }
    }

    /** Stores a credential's list, opening its bucket if need be. */
    method Record(tokenId: string, list: seq<real>, ghost history: seq<real>)
      requires Valid() && (tokenId !in attempts ==> |order| < MAX_CREDENTIAL_BUCKETS)
      requires Sound(list, history, PER_MINUTE, clock) && |list| <= PER_MINUTE.limit
      modifies `order, `attempts, `histories
      ensures Valid() && histories == old(histories)[tokenId := history]
    {
      hide Sound, Faithful;
      FaithfulWith(attempts, histories, PerMinute, clock, tokenId, list, history);
      if tokenId !in attempts {
        order := order + [tokenId];
      }
      attempts, histories := attempts[tokenId := list], histories[tokenId := history];
    }

    /** Decides by the admissions of this credential in the last minute, since its bucket was opened. */
    method Allow(tokenId: string, now: real) returns (allowed: bool)
      requires Valid() && clock <= now
      modifies this
      ensures Valid() && clock == now && pending == old(pending)
      ensures var past := if tokenId in old(histories) then old(histories)[tokenId] else [];
              && allowed == (CountIn(past, now - 60.0, now) < 20)
              && var evicting := tokenId !in old(histories) && |old(order)| >= 1024;
                 histories == (if evicting then old(histories) - {old(order)[0]} else old(histories))
                                [tokenId := past + (if allowed then [now] else [])]
    {
      hide Sound, CountIn;
      FaithfulLater(attempts, histories, PerMinute, clock, now);
      clock := now;
      MakeRoom(tokenId);
      FaithfulAt(attempts, histories, PerMinute, now, tokenId);
      var kept := HistoryOf(attempts, tokenId);
      ghost var history := HistoryOf(histories, tokenId);
      Pruned(kept, history, PER_MINUTE, now, now);
      SoundIsSorted(kept, history, PER_MINUTE, now);
      PoppingFilters(kept, 60.0, now);
      var recent := Pop(kept, now);
      allowed := |recent| < PER_MINUTE.limit;
      assert history + [] == history;
      Record(tokenId, if allowed then recent + [now] else recent, history + (if allowed then [now] else []));
    }
  }

  // --- Provider enrollment ---------------------------------------------------

  const PER_OWNER := Policy(6, 900.0)
  const PER_PEER := Policy(100, 900.0)

  function OwnerKey(ownerId: string): string { "owner:" + ownerId }
  function PeerKey(peer: string): string { "peer:" + peer }

  lemma KeysDiffer(ownerId: string, peer: string)
    ensures OwnerKey(ownerId) != PeerKey(peer)
  {
    assert OwnerKey(ownerId)[0] == 'o' && PeerKey(peer)[0] == 'p';
  }

  function EnrollmentPolicy(key: string): Policy {
    if |key| > 0 && key[0] == 'o' then PER_OWNER else PER_PEER
  }

  lemma EnrollmentLimits(ownerId: string, peer: string, own: seq<real>, remote: seq<real>, now: real)
    ensures EnrollmentPolicy(OwnerKey(ownerId)).limit == 6 && EnrollmentPolicy(PeerKey(peer)).limit == 100
    ensures Allows(EnrollmentPolicy(OwnerKey(ownerId)), own, now) <==> CountIn(own, now - 900.0, now) < 6
    ensures Allows(EnrollmentPolicy(PeerKey(peer)), remote, now) <==> CountIn(remote, now - 900.0, now) < 100
  {
    hide CountIn;
  }

  class EnrollmentRate {
    var attempts: Histories
    ghost var histories: Histories
    ghost var clock: real

    constructor (now: real)
      ensures Valid() && histories == map[] && clock == now
    {
      attempts, histories, clock := map[], map[], now;
    }

    ghost predicate Valid()
      reads this
    {
      Faithful(attempts, histories, EnrollmentPolicy, clock)
    }

    ghost function History(key: string): seq<real>
      reads this
    {
      if key in histories then histories[key] else []
    }

    /** Prunes one key's list in place and compares it with the key's limit. */
    method HasRoom(key: string, limit: nat, now: real) returns (room: bool)
      requires Valid() && clock == now && limit == EnrollmentPolicy(key).limit
      modifies `attempts, `histories
      ensures Valid() && room == Allows(EnrollmentPolicy(key), old(History(key)), now)
      ensures key in attempts && old(attempts).Keys <= attempts.Keys
      ensures forall k :: k != key && k in attempts ==> k in old(attempts) && attempts[k] == old(attempts)[k]
      ensures forall k :: History(k) == old(History(k))
      ensures room ==> Sound(attempts[key] + [now], History(key) + [now], EnrollmentPolicy(key), now)
    {
      hide Sound, CountIn;
      FaithfulAt(attempts, histories, EnrollmentPolicy, now, key);
      Pruned(HistoryOf(attempts, key), HistoryOf(histories, key), EnrollmentPolicy(key), now, now);
      var recent := Recent(HistoryOf(attempts, key), 900.0, now);
      attempts, histories := attempts[key := recent], histories[key := HistoryOf(histories, key)];
      room := |recent| < limit;
    }

    method Append(key: string, now: real)
      requires Valid() && clock == now && key in attempts
      requires Sound(attempts[key] + [now], History(key) + [now], EnrollmentPolicy(key), now)
      modifies `attempts, `histories
      ensures Valid() && attempts.Keys == old(attempts).Keys
      ensures History(key) == old(History(key)) + [now]
      ensures forall k :: k != key ==> History(k) == old(History(k))
      ensures forall k :: k != key && k in attempts ==> attempts[k] == old(attempts)[k]
    {
      hide Sound;
      attempts := attempts[key := attempts[key] + [now]];
      histories := histories[key := histories[key] + [now]];
    }

    /** Admits against both the owner's and the peer's limit and counts for both, or counts for neither. */
    method Allow(ownerId: string, peer: string, now: real) returns (allowed: bool)
      requires Valid() && clock <= now
      modifies this
      ensures Valid() && clock == now
      ensures allowed == (CountIn(old(History("owner:" + ownerId)), now - 900.0, now) < 6
                          && CountIn(old(History("peer:" + peer)), now - 900.0, now) < 100)
      ensures forall key :: History(key) ==
                if allowed && (key == "owner:" + ownerId || key == "peer:" + peer) then old(History(key)) + [now]
                else old(History(key))
    {
      EnrollmentLimits(ownerId, peer, History(OwnerKey(ownerId)), History(PeerKey(peer)), now);
      hide Sound, CountIn, Allows, EnrollmentPolicy;
      var owner, remote := OwnerKey(ownerId), PeerKey(peer);
      KeysDiffer(ownerId, peer);
      FaithfulLater(attempts, histories, EnrollmentPolicy, clock, now);
      clock := now;
      allowed := HasRoom(owner, 6, now);
      if allowed {
        allowed := HasRoom(remote, 100, now);
      }
      if allowed {
        Append(owner, now);
        Append(remote, now);
      }
    }
  }

  // --- Signing up and logging in ---------------------------------------------

  const PER_ADDRESS := Policy(10, 300.0)

  function PerAddress(ip: string): Policy { PER_ADDRESS }

  class AuthRate {
    var attempts: Histories
    ghost var histories: Histories
    ghost var clock: real

    constructor (now: real)
      ensures Valid() && histories == map[] && clock == now
    {
      attempts, histories, clock := map[], map[], now;
    }

    ghost predicate Valid()
      reads this
    {
      Faithful(attempts, histories, PerAddress, clock)
    }

    /**
     Admits an address that keeps fewer than ten recent admissions; a refusal leaves the table as it
     was. Unless the wall clock has gone back, that is to decide by the address's last five minutes.
     */
    method Check(ip: string, now: real) returns (allowed: bool)
      modifies this
      ensures var recent := Recent(if ip in old(attempts) then old(attempts)[ip] else [], 300.0, now);
              && allowed == (|recent| < 10)
              && attempts == if allowed then old(attempts)[ip := recent + [now]] else old(attempts)
      ensures var past := if ip in old(histories) then old(histories)[ip] else [];
              histories == if allowed then old(histories)[ip := past + [now]] else old(histories)
      ensures clock == now
      ensures Tally(HistoryOf(attempts, ip), HistoryOf(histories, ip))
              == Tried(PER_ADDRESS, Tally(HistoryOf(old(attempts), ip), HistoryOf(old(histories), ip)), now)
      ensures old(Valid()) && old(clock) <= now ==>
                Valid() && allowed == (CountIn(if ip in old(histories) then old(histories)[ip] else [], now - 300.0, now) < 10)
    {
      hide Sound, CountIn;
      ghost var sound := Valid() && clock <= now;
      if sound {
        FaithfulLater(attempts, histories, PerAddress, clock, now);
        FaithfulAt(attempts, histories, PerAddress, now, ip);
        Pruned(HistoryOf(attempts, ip), HistoryOf(histories, ip), PER_ADDRESS, now, now);
      }
      clock := now;
      var recent := Recent(HistoryOf(attempts, ip), 300.0, now);
      allowed := |recent| < 10;
      if allowed {
        attempts := attempts[ip := recent + [now]];
        histories := histories[ip := HistoryOf(histories, ip) + [now]];
      }
    }
  }
}
