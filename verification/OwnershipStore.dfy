/** The ownership operations on the shared tables, each one atomic, and whole runs of them. */
module OwnershipStore {
  import opened Options
  import opened Ownership

  const PRINCIPAL_PREFIX := "provider-acct-"
  const TOKEN_ID_PREFIX := "ptok-"

  predicate HasPrefix(s: string, prefix: string) {
    prefix <= s
  }

  /** The condition that each refusal of an enrollment reports. */
  ghost predicate EnrollmentRefused(e: Refusal, r: Registry, owner: string, name: string, profile: string, now: real, d: Draw) {
    match e
    case BadName => !ValidName(name)
    case BadProfile => profile != "apple-silicon-macos-gguf-metal-l0"
    case UnknownUser => owner !in r.users
    case NotLinked => owner in r.users && !r.users[owner].githubLinked
    case Suspended => owner in r.users && r.users[owner].suspendedUntil.Some? && r.users[owner].suspendedUntil.value > now
    case ActiveLimit => |Active(r, owner)| >= 1
    case DailyLimit => |IssuedSince(r, owner, now - 86400.0)| >= 3
    case KeyConflict => !Unused(r, d)
    case _ => false
  }

  /** And each refusal of a claim. */
  ghost predicate ClaimRefused(e: Refusal, r: Registry, billing: string, owner: string, actor: string, reason: string,
                               now: real, nodeId: string) {
    match e
    case BadReason => |reason| == 0 || |reason| > 500
    case UnknownPrincipal =>
      !HasPrefix(billing, "provider-acct-") || forall h :: h in r.tokens ==> r.tokens[h].billing != billing
    case UnknownActor => actor !in r.users
    case UnknownUser => owner !in r.users
    case NotLinked => owner in r.users && !r.users[owner].githubLinked
    case Suspended => owner in r.users && r.users[owner].suspendedUntil.Some? && r.users[owner].suspendedUntil.value > now
    case RevokedCredential => exists h :: h in r.tokens && r.tokens[h].billing == billing && r.tokens[h].revokedAt.Some?
    case AlreadyClaimed =>
      || (exists h :: h in r.tokens && r.tokens[h].billing == billing && r.tokens[h].nodeId.Some?)
      || (exists n :: n in r.nodes && r.nodes[n].billing == billing)
    case KeyConflict => nodeId in r.nodes
    case _ => false
  }

  class OwnershipTables {
    var users: map<string, User>
    var nodes: map<string, Node>
    var tokens: map<string, Token>
    var accounts: set<string>
    var actions: seq<Action>

    function View(): Registry
      reads this
    {
      Registry(users, nodes, tokens, accounts, actions)
    }

    ghost predicate Valid()
      reads this
    {
      Inv(View())
    }

    constructor ()
      ensures Valid() && View() == Registry(map[], map[], map[], {}, [])
    {
      users, nodes, tokens, accounts, actions := map[], map[], map[], {}, [];
    }

    /** Self-service enrollment: node, principal, credential and log entry, or nothing at all. */
    method EnrollProviderNode(owner: string, name: string, profile: string, now: real, d: Draw)
      returns (r: Result<string, Refusal>)
      requires Valid()
      modifies this
      ensures Valid()
      ensures r.Ok? <==> MayEnroll(old(View()), owner, name, profile, now, d)
      ensures r.Ok? ==> View() == Enroll(old(View()), owner, name, now, d) && r.value == d.nodeId
      ensures r.Err? ==> View() == old(View())
      ensures r.Err? ==> EnrollmentRefused(r.error, View(), owner, name, profile, now, d)
    {
      hide Inv, ValidName;
      if !ValidName(name) {
        return Err(BadName);
      }
      if profile != SELF_SERVICE_PROFILE {
        return Err(BadProfile);
      }
      if owner !in users {
        return Err(UnknownUser);
      }
      if !users[owner].githubLinked {
        return Err(NotLinked);
      }
      if IsSuspended(users[owner], now) {
        return Err(Suspended);
      }
      if |Active(View(), owner)| >= 1 {
        return Err(ActiveLimit);
      }
      if |IssuedSince(View(), owner, now - DAY)| >= DAILY_ISSUANCE_LIMIT {
        return Err(DailyLimit);
      }
      if !Unused(View(), d) {
        return Err(KeyConflict);
      }
      EnrollKeepsInv(View(), owner, name, profile, now, d);
      accounts := accounts + {d.billing};
      nodes := nodes[d.nodeId := Node(owner, d.billing, name, now)];
      tokens := tokens[d.tokenHash := Token(d.tokenId, name, d.billing, Some(d.nodeId), SelfService, now, None)];
      actions := actions + [Action(d.nodeId, d.billing, owner, owner, Enrolled, now)];
      r := Ok(d.nodeId);
    }

    /** The credential row behind a principal, of which there is at most one. */
    method FindByBilling(billing: string) returns (hash: Option<string>)
      requires Valid()
      ensures hash.Some? ==> hash.value in tokens && tokens[hash.value].billing == billing
      ensures hash.None? ==> forall h :: h in tokens ==> tokens[h].billing != billing
    {
      if h :| h in tokens && tokens[h].billing == billing {
        hash := Some(h);
      } else {
        hash := None;
      }
    }

    /** An administrator assigns an unclaimed credential to a user, once. */
    method ClaimLegacyProvider(billing: string, owner: string, actor: string, reason: string, now: real, nodeId: string)
      returns (r: Result<string, Refusal>)
      requires Valid()
      modifies this
      ensures Valid()
      ensures r.Ok? <==>
                && 1 <= |reason| <= 500 && HasPrefix(billing, PRINCIPAL_PREFIX)
                && exists h :: MayClaim(old(View()), billing, owner, actor, now, nodeId, h)
      ensures r.Ok? ==> r.value == nodeId
      ensures r.Ok? ==>
                (exists h :: MayClaim(old(View()), billing, owner, actor, now, nodeId, h)
                             && View() == Claim(old(View()), owner, actor, now, nodeId, h))
      ensures r.Err? ==> View() == old(View())
      ensures r.Err? ==> ClaimRefused(r.error, View(), billing, owner, actor, reason, now, nodeId)
    {
      hide Inv;
      if |reason| == 0 || |reason| > 500 {
        return Err(BadReason);
      }
      if !HasPrefix(billing, PRINCIPAL_PREFIX) {
        return Err(UnknownPrincipal);
      }
      if actor !in users {
        return Err(UnknownActor);
      }
      if owner !in users {
        return Err(UnknownUser);
      }
      if !users[owner].githubLinked {
        return Err(NotLinked);
      }
      if IsSuspended(users[owner], now) {
        return Err(Suspended);
      }
      var hash := FindByBilling(billing);
      if hash.None? {
        return Err(UnknownPrincipal);
      }
      var token := tokens[hash.value];
      OneTokenPerPrincipal(View());
      if token.revokedAt.Some? {
        return Err(RevokedCredential);
      }
      if token.nodeId.Some? || exists n :: n in nodes && nodes[n].billing == billing {
        return Err(AlreadyClaimed);
      }
      if nodeId in nodes {
        return Err(KeyConflict);
      }
      assert MayClaim(View(), billing, owner, actor, now, nodeId, hash.value);
      ClaimKeepsInv(View(), billing, owner, actor, now, nodeId, hash.value);
      nodes := nodes[nodeId := Node(owner, billing, token.name, now)];
      tokens := tokens[hash.value := token.(nodeId := Some(nodeId))];
      actions := actions + [Action(nodeId, billing, owner, actor, Claimed, now)];
      r := Ok(nodeId);
    }

    /** An owner revokes one of its own self-service credentials; anything else is refused alike. */
    method RevokeOwnedCredential(owner: string, tokenId: string, now: real) returns (done: bool)
      requires Valid()
      modifies this
      ensures Valid()
      ensures done <==>
                && HasPrefix(tokenId, TOKEN_ID_PREFIX) && |tokenId| <= 80
                && exists h :: OwnsCredential(old(View()), owner, tokenId, h)
      ensures done ==>
                (exists h :: OwnsCredential(old(View()), owner, tokenId, h)
                             && View() == RevokeOwned(old(View()), owner, h, now))
      ensures !done ==> View() == old(View())
    {
      hide Inv;
      if !HasPrefix(tokenId, TOKEN_ID_PREFIX) || |tokenId| > 80 {
        return false;
      }
      if hash :| hash in tokens && OwnsCredential(View(), owner, tokenId, hash) {
        RevokeOwnedKeepsInv(View(), owner, tokenId, hash, now);
        var token := tokens[hash];
        tokens := tokens[hash := token.(revokedAt := Some(now))];
        actions := actions + [Action(token.nodeId.value, token.billing, owner, owner, Revoked, now)];
        done := true;
      } else {
        assert forall h :: OwnsCredential(View(), owner, tokenId, h) ==> h in tokens;
        done := false;
      }
    }

    method RevokeProviderToken(tokenId: string, now: real) returns (done: bool)
      requires Valid()
      modifies this
      ensures Valid() && View() == RevokeAll(old(View()), tokenId, now)
      ensures done <==> exists h :: h in old(tokens) && old(tokens)[h].tokenId == tokenId && old(tokens)[h].revokedAt.None?
    {
      hide Inv;
      RevokeAllKeepsInv(View(), tokenId, now);
      done := exists h :: h in tokens && tokens[h].tokenId == tokenId && tokens[h].revokedAt.None?;
      tokens := map h | h in tokens ::
        if tokens[h].tokenId == tokenId && tokens[h].revokedAt.None?
        then tokens[h].(revokedAt := Some(now)) else tokens[h];
    }

    /** An operator credential: its principal exists, its node does not yet. */
    method CreateProviderToken(hash: string, tokenId: string, name: string, billing: string, now: real)
      returns (r: Result<string, Refusal>)
      requires Valid()
      modifies this
      ensures Valid()
      ensures r.Ok? <==> MayIssue(old(View()), hash, billing)
      ensures r.Ok? ==> View() == Issue(old(View()), hash, tokenId, name, billing, now)
      ensures r.Err? ==> View() == old(View())
    {
      hide Inv;
      if !MayIssue(View(), hash, billing) {
        return Err(KeyConflict);
      }
      IssueKeepsInv(View(), hash, tokenId, name, billing, now);
      tokens := tokens[hash := Token(tokenId, name, billing, None, Admin, now, None)];
      r := Ok(tokenId);
    }

    /** Deletion is refused exactly while the user owns a node, so no node is ever stranded. */
    method DeleteUserAccount(user: string) returns (r: Result<(), Refusal>)
      requires Valid()
      modifies this
      ensures Valid()
      ensures r.Ok? <==> forall n :: n in old(nodes) ==> old(nodes)[n].owner != user
      ensures r.Ok? ==> View() == DeleteUser(old(View()), user)
      ensures r.Err? ==> View() == old(View())
    {
      hide OneActive, ThreeADay, NodesMatchTokens, Audited;
      if exists n :: n in nodes && nodes[n].owner == user {
        return Err(NodesExist);
      }
      UsersKeepInv(View(), users - {user}, accounts - {user});
      users, accounts := users - {user}, accounts - {user};
      r := Ok(());
    }

    /** Creating, suspending or releasing a user: the user's row is set. */
    method SetUserRow(user: string, u: User)
      requires Valid()
      modifies this
      ensures Valid() && View() == SetUser(old(View()), user, u)
    {
      hide OneActive, ThreeADay, NodesMatchTokens, Audited;
      UsersKeepInv(View(), users[user := u], accounts + {user});
      users, accounts := users[user := u], accounts + {user};
    }
  }

  // --- Whole runs ------------------------------------------------------------

  datatype Op =
    | OpEnroll(owner: string, name: string, profile: string, now: real, draw: Draw)
    | OpClaim(billing: string, owner: string, actor: string, now: real, nodeId: string, hash: string)
    | OpRevokeOwned(owner: string, tokenId: string, hash: string, now: real)
    | OpRevokeAll(tokenId: string, now: real)
    | OpIssue(hash: string, tokenId: string, name: string, billing: string, now: real)
    | OpDelete(user: string)
    | OpSetUser(user: string, row: User)

  /** One committed operation; a refused one changes nothing. */
  function Step(r: Registry, op: Op): Registry {
    match op
    case OpEnroll(owner, name, profile, now, d) =>
      if MayEnroll(r, owner, name, profile, now, d) then Enroll(r, owner, name, now, d) else r
    case OpClaim(billing, owner, actor, now, nodeId, hash) =>
      if MayClaim(r, billing, owner, actor, now, nodeId, hash) then Claim(r, owner, actor, now, nodeId, hash) else r
    case OpRevokeOwned(owner, tokenId, hash, now) =>
      if OwnsCredential(r, owner, tokenId, hash) then RevokeOwned(r, owner, hash, now) else r
    case OpRevokeAll(tokenId, now) => RevokeAll(r, tokenId, now)
    case OpIssue(hash, tokenId, name, billing, now) =>
      if MayIssue(r, hash, billing) then Issue(r, hash, tokenId, name, billing, now) else r
    case OpDelete(user) =>
      if exists n :: n in r.nodes && r.nodes[n].owner == user then r else DeleteUser(r, user)
    case OpSetUser(user, row) => SetUser(r, user, row)
  }

  function Run(r: Registry, ops: seq<Op>): Registry
    decreases |ops|
  {
    if ops == [] then r else Run(Step(r, ops[0]), ops[1..])
  }

  lemma StepKeepsInv(r: Registry, op: Op)
    requires Inv(r)
    ensures Inv(Step(r, op))
  {
    hide Enroll, Claim, RevokeOwned, RevokeAll, Issue, MayEnroll, MayClaim, OwnsCredential, MayIssue;
    hide OneActive, ThreeADay, NodesMatchTokens, Audited, SelfServiceIdsUnique;
    match op {
      case OpEnroll(owner, name, profile, now, d) =>
        if MayEnroll(r, owner, name, profile, now, d) { EnrollKeepsInv(r, owner, name, profile, now, d); }
      case OpClaim(billing, owner, actor, now, nodeId, hash) =>
        if MayClaim(r, billing, owner, actor, now, nodeId, hash) {
          ClaimKeepsInv(r, billing, owner, actor, now, nodeId, hash);
        }
      case OpRevokeOwned(owner, tokenId, hash, now) =>
        if OwnsCredential(r, owner, tokenId, hash) { RevokeOwnedKeepsInv(r, owner, tokenId, hash, now); }
      case OpRevokeAll(tokenId, now) => RevokeAllKeepsInv(r, tokenId, now);
      case OpIssue(hash, tokenId, name, billing, now) =>
        if MayIssue(r, hash, billing) { IssueKeepsInv(r, hash, tokenId, name, billing, now); }
      case OpDelete(user) =>
        if !exists n :: n in r.nodes && r.nodes[n].owner == user {
          UsersKeepInv(r, r.users - {user}, r.accounts - {user});
        }
      case OpSetUser(user, row) => UsersKeepInv(r, r.users[user := row], r.accounts + {user});
    }
  }

  /** The ownership invariants hold after every run of operations from empty tables. */
  lemma {:induction false} InvOverRuns(r: Registry, ops: seq<Op>)
    requires Inv(r)
    ensures Inv(Run(r, ops))
    decreases |ops|
  {
    if ops != [] {
      StepKeepsInv(r, ops[0]);
      InvOverRuns(Step(r, ops[0]), ops[1..]);
    }
  }

  /** Nodes are never lost, and never change owner or principal, whatever follows. */
  lemma {:induction false} NodesArePermanent(r: Registry, ops: seq<Op>, n: string)
    requires Inv(r) && n in r.nodes
    ensures n in Run(r, ops).nodes && Run(r, ops).nodes[n] == r.nodes[n]
    ensures Run(r, ops).nodes[n].owner in Run(r, ops).users
    decreases |ops|
  {
    hide OneActive, ThreeADay, NodesMatchTokens, Audited, SelfServiceIdsUnique;
    if ops != [] {
      StepKeepsInv(r, ops[0]);
      NodesArePermanent(Step(r, ops[0]), ops[1..], n);
    }
  }

  /** A principal is billed by at most one credential. */
  lemma OneTokenPerPrincipal(r: Registry)
    requires Inv(r)
    ensures forall h, k :: h in r.tokens && k in r.tokens && r.tokens[h].billing == r.tokens[k].billing ==> h == k
  {
  }
}
