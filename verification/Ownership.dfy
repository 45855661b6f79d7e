/** Who owns which provider node: users, nodes, credentials and the caps on issuing them. */
module Ownership {
  import opened Options

  datatype User = User(githubLinked: bool, suspendedUntil: Option<real>)

  datatype Node = Node(owner: string, billing: string, name: string, createdAt: real)

  datatype Source = Admin | SelfService

  datatype Token = Token(
    tokenId: string, name: string, billing: string, nodeId: Option<string>, source: Source,
    createdAt: real, revokedAt: Option<real>)

  datatype ActionKind = Claimed | Enrolled | Revoked

  datatype Action = Action(nodeId: string, billing: string, owner: string, actor: string, kind: ActionKind, at: real)

  /** The tables; nodes and tokens are keyed by node id and token hash. */
  datatype Registry = Registry(
    users: map<string, User>, nodes: map<string, Node>, tokens: map<string, Token>,
    accounts: set<string>, actions: seq<Action>)

  datatype Refusal =
    | BadName | BadProfile | BadReason | UnknownPrincipal | UnknownActor | UnknownUser | NotLinked | Suspended
    | RevokedCredential | AlreadyClaimed | ActiveLimit | DailyLimit | NodesExist | KeyConflict

  const SELF_SERVICE_PROFILE := "apple-silicon-macos-gguf-metal-l0"
  const DAILY_ISSUANCE_LIMIT := 3
  const DAY: real := 86400.0

  // --- What holds in every reachable state -----------------------------------

  predicate SelfServiceOf(r: Registry, hash: string, owner: string)
    requires hash in r.tokens
  {
    var t := r.tokens[hash];
    t.source == SelfService && t.nodeId.Some? && t.nodeId.value in r.nodes && r.nodes[t.nodeId.value].owner == owner
  }

  /** An owner's unrevoked self-service credentials. */
  function Active(r: Registry, owner: string): set<string> {
    set h | h in r.tokens && SelfServiceOf(r, h, owner) && r.tokens[h].revokedAt.None?
  }

  /** Those issued from a moment on, revoked or not. */
  function IssuedSince(r: Registry, owner: string, start: real): set<string> {
    set h | h in r.tokens && SelfServiceOf(r, h, owner) && r.tokens[h].createdAt >= start
  }

  /** Those issued within one day, both ends included. */
  function IssuedWithinDay(r: Registry, owner: string, start: real): set<string> {
    set h | h in r.tokens && SelfServiceOf(r, h, owner) && start <= r.tokens[h].createdAt <= start + DAY
  }

  /** No node is without its owner. */
  ghost predicate OwnersExist(r: Registry) {
    forall n :: n in r.nodes ==> r.nodes[n].owner in r.users
  }

  ghost predicate HasToken(r: Registry, n: string)
    requires n in r.nodes
  {
    exists h :: h in r.tokens && r.tokens[h].nodeId == Some(n) && r.tokens[h].billing == r.nodes[n].billing
  }

  /** Each node has exactly one credential, and both bill the same principal. */
  ghost predicate NodesMatchTokens(r: Registry) {
    && (forall n :: n in r.nodes ==> HasToken(r, n))
    && (forall h :: h in r.tokens && r.tokens[h].nodeId.Some? ==>
          r.tokens[h].nodeId.value in r.nodes && r.nodes[r.tokens[h].nodeId.value].billing == r.tokens[h].billing)
    && (forall h, k :: h in r.tokens && k in r.tokens && h != k ==>
          r.tokens[h].billing != r.tokens[k].billing)
  }

  /** The unique index on self-service credential ids; such credentials always come with a node. */
  ghost predicate SelfServiceIdsUnique(r: Registry) {
    && (forall h :: h in r.tokens && r.tokens[h].source == SelfService ==> r.tokens[h].nodeId.Some?)
    && (forall h, k ::
          (h in r.tokens && k in r.tokens && h != k
           && r.tokens[h].source == SelfService && r.tokens[k].source == SelfService)
          ==> r.tokens[h].tokenId != r.tokens[k].tokenId)
  }

  ghost predicate OneActive(r: Registry) {
    forall owner :: |Active(r, owner)| <= 1
  }

  ghost predicate ThreeADay(r: Registry) {
    forall owner, start :: |IssuedWithinDay(r, owner, start)| <= DAILY_ISSUANCE_LIMIT
  }

  predicate Creates(a: Action, n: string) {
    a.nodeId == n && a.kind != Revoked
  }

  ghost predicate Recorded(r: Registry, n: string)
    requires n in r.nodes
  {
    exists i :: 0 <= i < |r.actions| && Creates(r.actions[i], n)
                && r.actions[i].owner == r.nodes[n].owner && r.actions[i].billing == r.nodes[n].billing
  }

  /** The log records the creation of each node once, with its owner and principal. */
  ghost predicate Audited(r: Registry) {
    && (forall n :: n in r.nodes ==> Recorded(r, n))
    && (forall i, j :: 0 <= i < j < |r.actions| && r.actions[i].kind != Revoked && r.actions[j].kind != Revoked ==>
          r.actions[i].nodeId != r.actions[j].nodeId)
    && (forall i :: 0 <= i < |r.actions| ==> r.actions[i].nodeId in r.nodes)
  }

  ghost predicate Inv(r: Registry) {
    && OwnersExist(r) && NodesMatchTokens(r) && SelfServiceIdsUnique(r)
    && OneActive(r) && ThreeADay(r) && Audited(r)
  }

  // --- The successful outcome of each operation ------------------------------

  /** Random identifiers drawn for an enrollment. */
  datatype Draw = Draw(nodeId: string, billing: string, tokenId: string, tokenHash: string)

  predicate IsSuspended(u: User, now: real) {
    u.suspendedUntil.Some? && u.suspendedUntil.value > now
  }

  /** The keys and unique indexes that an enrollment's inserts could violate. */
  predicate Unused(r: Registry, d: Draw) {
    && d.billing !in r.accounts && d.nodeId !in r.nodes && d.tokenHash !in r.tokens
    && (forall n :: n in r.nodes ==> r.nodes[n].billing != d.billing)
    && (forall h :: h in r.tokens ==> r.tokens[h].billing != d.billing)
    && (forall h :: h in r.tokens && r.tokens[h].source == SelfService ==> r.tokens[h].tokenId != d.tokenId)
  }

  predicate IsNameStart(c: char) { 'A' <= c <= 'Z' || 'a' <= c <= 'z' || '0' <= c <= '9' }
  predicate IsNameChar(c: char) { IsNameStart(c) || c == ' ' || c == '_' || c == '.' || c == '-' }

  predicate ValidName(s: string) {
    1 <= |s| <= 64 && IsNameStart(s[0]) && forall i :: 1 <= i < |s| ==> IsNameChar(s[i])
  }

  predicate MayEnroll(r: Registry, owner: string, name: string, profile: string, now: real, d: Draw) {
    && ValidName(name) && profile == SELF_SERVICE_PROFILE
    && owner in r.users && r.users[owner].githubLinked && !IsSuspended(r.users[owner], now)
    && |Active(r, owner)| < 1 && |IssuedSince(r, owner, now - DAY)| < DAILY_ISSUANCE_LIMIT
    && Unused(r, d)
  }

  function Enroll(r: Registry, owner: string, name: string, now: real, d: Draw): Registry {
    r.(accounts := r.accounts + {d.billing},
       nodes := r.nodes[d.nodeId := Node(owner, d.billing, name, now)],
       tokens := r.tokens[d.tokenHash := Token(d.tokenId, name, d.billing, Some(d.nodeId), SelfService, now, None)],
       actions := r.actions + [Action(d.nodeId, d.billing, owner, owner, Enrolled, now)])
  }

  predicate MayClaim(r: Registry, billing: string, owner: string, actor: string, now: real, nodeId: string, hash: string) {
    && actor in r.users
    && owner in r.users && r.users[owner].githubLinked && !IsSuspended(r.users[owner], now)
    && hash in r.tokens && r.tokens[hash].billing == billing
    && r.tokens[hash].revokedAt.None? && r.tokens[hash].nodeId.None?
    && (forall n :: n in r.nodes ==> r.nodes[n].billing != billing)
    && nodeId !in r.nodes
  }

  function Claim(r: Registry, owner: string, actor: string, now: real, nodeId: string, hash: string): Registry
    requires hash in r.tokens
  {
    var t := r.tokens[hash];
    r.(nodes := r.nodes[nodeId := Node(owner, t.billing, t.name, now)],
       tokens := r.tokens[hash := t.(nodeId := Some(nodeId))],
       actions := r.actions + [Action(nodeId, t.billing, owner, actor, Claimed, now)])
  }

  /** The one credential that an owner may revoke under this id. */
  predicate OwnsCredential(r: Registry, owner: string, tokenId: string, hash: string) {
    && hash in r.tokens && r.tokens[hash].tokenId == tokenId && r.tokens[hash].revokedAt.None?
    && SelfServiceOf(r, hash, owner)
    && r.nodes[r.tokens[hash].nodeId.value].billing == r.tokens[hash].billing
  }

  function RevokeOwned(r: Registry, owner: string, hash: string, now: real): Registry
    requires hash in r.tokens && r.tokens[hash].nodeId.Some?
  {
    var t := r.tokens[hash];
    r.(tokens := r.tokens[hash := t.(revokedAt := Some(now))],
       actions := r.actions + [Action(t.nodeId.value, t.billing, owner, owner, Revoked, now)])
  }

  /** An operator's revocation hits every unrevoked credential with the id. */
  function RevokeAll(r: Registry, tokenId: string, now: real): Registry {
    r.(tokens := map h | h in r.tokens ::
         if r.tokens[h].tokenId == tokenId && r.tokens[h].revokedAt.None?
         then r.tokens[h].(revokedAt := Some(now)) else r.tokens[h])
  }

  function Issue(r: Registry, hash: string, tokenId: string, name: string, billing: string, now: real): Registry {
    r.(tokens := r.tokens[hash := Token(tokenId, name, billing, None, Admin, now, None)])
  }

  function DeleteUser(r: Registry, user: string): Registry {
    r.(users := r.users - {user}, accounts := r.accounts - {user})
  }

  function SetUser(r: Registry, user: string, u: User): Registry {
    r.(users := r.users[user := u], accounts := r.accounts + {user})
  }

  // --- Every operation keeps the invariant -----------------------------------

  lemma SubsetSize<T>(a: set<T>, b: set<T>)
    requires a <= b
    ensures |a| <= |b|
  {
    assert b == a + (b - a);
  }

  /** If nobody's credentials grow, the caps still hold. */
  lemma CapsKept(r: Registry, after: Registry)
    requires OneActive(r) && ThreeADay(r)
    requires forall owner :: Active(after, owner) <= Active(r, owner)
    requires forall owner, start :: IssuedWithinDay(after, owner, start) <= IssuedWithinDay(r, owner, start)
    ensures OneActive(after) && ThreeADay(after)
  {
    forall owner ensures |Active(after, owner)| <= 1 {
      SubsetSize(Active(after, owner), Active(r, owner));
    }
    forall owner, start ensures |IssuedWithinDay(after, owner, start)| <= DAILY_ISSUANCE_LIMIT {
      SubsetSize(IssuedWithinDay(after, owner, start), IssuedWithinDay(r, owner, start));
    }
  }

  /** Self-service credentials survive a change only as themselves, and never come back to life. */
  ghost predicate NoNewSelfService(r: Registry, after: Registry) {
    forall h, who :: h in after.tokens && SelfServiceOf(after, h, who) ==>
      && h in r.tokens && SelfServiceOf(r, h, who)
      && after.tokens[h].createdAt == r.tokens[h].createdAt
      && (after.tokens[h].revokedAt.None? ==> r.tokens[h].revokedAt.None?)
  }

  lemma NoNewKeepsCaps(r: Registry, after: Registry)
    requires OneActive(r) && ThreeADay(r) && NoNewSelfService(r, after)
    ensures OneActive(after) && ThreeADay(after)
  {
    hide SelfServiceOf;
    CapsKept(r, after);
  }

  // Enrolling and claiming both link one credential to one new node.

  ghost predicate Links(r: Registry, after: Registry, nodeId: string, hash: string, node: Node, t: Token, a: Action) {
    && nodeId !in r.nodes && node.owner in r.users
    && t.nodeId == Some(nodeId) && t.billing == node.billing
    && (hash in r.tokens ==> r.tokens[hash].nodeId.None?)
    && (forall k :: k in r.tokens && k != hash ==> r.tokens[k].billing != t.billing)
    && Creates(a, nodeId) && a.owner == node.owner && a.billing == node.billing
    && after.users == r.users
    && after.nodes == r.nodes[nodeId := node]
    && after.tokens == r.tokens[hash := t]
    && after.actions == r.actions + [a]
  }

  lemma LinkKeepsNodes(r: Registry, after: Registry, nodeId: string, hash: string, node: Node, t: Token, a: Action)
    requires OwnersExist(r) && NodesMatchTokens(r) && Links(r, after, nodeId, hash, node, t, a)
    ensures OwnersExist(after) && NodesMatchTokens(after)
  {
    hide HasToken, Creates;
    forall n | n in after.nodes ensures HasToken(after, n) {
      LinkKeepsToken(r, after, nodeId, hash, node, t, a, n);
    }
  }

  lemma LinkKeepsToken(r: Registry, after: Registry, nodeId: string, hash: string, node: Node, t: Token, a: Action, n: string)
    requires NodesMatchTokens(r) && Links(r, after, nodeId, hash, node, t, a) && n in after.nodes
    ensures HasToken(after, n)
  {
    if n == nodeId {
      assert after.tokens[hash].nodeId == Some(n);
    } else {
      assert HasToken(r, n);
      var h :| h in r.tokens && r.tokens[h].nodeId == Some(n) && r.tokens[h].billing == r.nodes[n].billing;
      assert after.tokens[h] == r.tokens[h];
    }
  }

  lemma LinkKeepsAudit(r: Registry, after: Registry, nodeId: string, hash: string, node: Node, t: Token, a: Action)
    requires Audited(r) && Links(r, after, nodeId, hash, node, t, a)
    ensures Audited(after)
  {
    forall n | n in after.nodes ensures Recorded(after, n) {
      if n == nodeId {
        assert after.actions[|r.actions|] == a;
      } else {
        assert Recorded(r, n);
        var i :| 0 <= i < |r.actions| && Creates(r.actions[i], n)
                 && r.actions[i].owner == r.nodes[n].owner && r.actions[i].billing == r.nodes[n].billing;
        assert after.actions[i] == r.actions[i];
      }
    }
  }

  /** After linking, the self-service credentials are the old ones and possibly the linked one. */
  lemma LinkedSelfService(r: Registry, after: Registry, nodeId: string, hash: string, node: Node, t: Token, a: Action,
                          h: string, who: string)
    requires NodesMatchTokens(r) && Links(r, after, nodeId, hash, node, t, a) && h in after.tokens
    ensures SelfServiceOf(after, h, who)
            <==> if h == hash then t.source == SelfService && who == node.owner
                 else h in r.tokens && SelfServiceOf(r, h, who)
  {
  }

  /** One more credential stays within both caps, in whatever order the clock readings arrive. */
  lemma EnrollKeepsCaps(r: Registry, owner: string, name: string, profile: string, now: real, d: Draw)
    requires Inv(r) && MayEnroll(r, owner, name, profile, now, d)
    ensures OneActive(Enroll(r, owner, name, now, d)) && ThreeADay(Enroll(r, owner, name, now, d))
  {
    var after := Enroll(r, owner, name, now, d);
    EnrollLinks(r, owner, name, profile, now, d);
    hide Enroll, MayEnroll, SelfServiceOf, NodesMatchTokens, Audited, OwnersExist;
    forall h, who | h in after.tokens
      ensures SelfServiceOf(after, h, who) <==> if h == d.tokenHash then who == owner else SelfServiceOf(r, h, who)
    {
      LinkedSelfService(r, after, d.nodeId, d.tokenHash, after.nodes[d.nodeId], after.tokens[d.tokenHash],
                        after.actions[|r.actions|], h, who);
    }
    forall who ensures |Active(after, who)| <= 1 {
      EnrolledActive(r, after, owner, d.tokenHash, who);
    }
    forall who, start ensures |IssuedWithinDay(after, who, start)| <= DAILY_ISSUANCE_LIMIT {
      EnrolledWithinDay(r, after, owner, now, d.tokenHash, who, start);
    }
  }

  ghost predicate Gains(r: Registry, after: Registry, owner: string, hash: string) {
    && hash !in r.tokens && hash in after.tokens && after.tokens == r.tokens[hash := after.tokens[hash]]
    && forall h, who :: h in after.tokens ==>
         (SelfServiceOf(after, h, who) <==> if h == hash then who == owner else SelfServiceOf(r, h, who))
  }

  lemma EnrolledActive(r: Registry, after: Registry, owner: string, hash: string, who: string)
    requires OneActive(r) && Gains(r, after, owner, hash) && |Active(r, owner)| < 1
    ensures |Active(after, who)| <= 1
  {
    var extra := if who == owner then {hash} else {};
    assert Active(after, who) <= Active(r, who) + extra;
    SubsetSize(Active(after, who), Active(r, who) + extra);
  }

  lemma EnrolledWithinDay(r: Registry, after: Registry, owner: string, now: real, hash: string, who: string, start: real)
    requires ThreeADay(r) && Gains(r, after, owner, hash) && after.tokens[hash].createdAt == now
    requires |IssuedSince(r, owner, now - DAY)| < DAILY_ISSUANCE_LIMIT
    ensures |IssuedWithinDay(after, who, start)| <= DAILY_ISSUANCE_LIMIT
  {
    if who == owner && start <= now <= start + DAY {
      var pool := IssuedSince(r, owner, now - DAY) + {hash};
      assert IssuedWithinDay(after, who, start) <= pool;
      SubsetSize(IssuedWithinDay(after, who, start), pool);
    } else {
      assert IssuedWithinDay(after, who, start) <= IssuedWithinDay(r, who, start);
      SubsetSize(IssuedWithinDay(after, who, start), IssuedWithinDay(r, who, start));
    }
  }

  lemma EnrollLinks(r: Registry, owner: string, name: string, profile: string, now: real, d: Draw)
    requires MayEnroll(r, owner, name, profile, now, d)
    ensures var after := Enroll(r, owner, name, now, d);
            Links(r, after, d.nodeId, d.tokenHash, after.nodes[d.nodeId], after.tokens[d.tokenHash],
                  after.actions[|r.actions|])
  {
  }

  lemma EnrollKeepsInv(r: Registry, owner: string, name: string, profile: string, now: real, d: Draw)
    requires Inv(r) && MayEnroll(r, owner, name, profile, now, d)
    ensures Inv(Enroll(r, owner, name, now, d))
  {
    hide OneActive, ThreeADay, Active, IssuedSince, OwnersExist, NodesMatchTokens, Audited, Links;
    var after := Enroll(r, owner, name, now, d);
    var node, t, a := after.nodes[d.nodeId], after.tokens[d.tokenHash], after.actions[|r.actions|];
    EnrollKeepsCaps(r, owner, name, profile, now, d);
    EnrollLinks(r, owner, name, profile, now, d);
    LinkKeepsNodes(r, after, d.nodeId, d.tokenHash, node, t, a);
    LinkKeepsAudit(r, after, d.nodeId, d.tokenHash, node, t, a);
  }

  lemma ClaimLinks(r: Registry, billing: string, owner: string, actor: string, now: real, nodeId: string, hash: string)
    requires NodesMatchTokens(r) && MayClaim(r, billing, owner, actor, now, nodeId, hash)
    ensures var after := Claim(r, owner, actor, now, nodeId, hash);
            Links(r, after, nodeId, hash, after.nodes[nodeId], after.tokens[hash], after.actions[|r.actions|])
  {
  }

  lemma ClaimKeepsSelfService(r: Registry, billing: string, owner: string, actor: string, now: real, nodeId: string, hash: string)
    requires NodesMatchTokens(r) && SelfServiceIdsUnique(r) && MayClaim(r, billing, owner, actor, now, nodeId, hash)
    ensures SelfServiceIdsUnique(Claim(r, owner, actor, now, nodeId, hash))
    ensures NoNewSelfService(r, Claim(r, owner, actor, now, nodeId, hash))
  {
    hide HasToken;
  }

  lemma ClaimKeepsInv(r: Registry, billing: string, owner: string, actor: string, now: real, nodeId: string, hash: string)
    requires Inv(r) && MayClaim(r, billing, owner, actor, now, nodeId, hash)
    ensures Inv(Claim(r, owner, actor, now, nodeId, hash))
  {
    var after := Claim(r, owner, actor, now, nodeId, hash);
    hide OneActive, ThreeADay, OwnersExist, NodesMatchTokens, Audited, SelfServiceIdsUnique, Links, MayClaim, NoNewSelfService;
    ClaimLinks(r, billing, owner, actor, now, nodeId, hash);
    LinkKeepsNodes(r, after, nodeId, hash, after.nodes[nodeId], after.tokens[hash], after.actions[|r.actions|]);
    LinkKeepsAudit(r, after, nodeId, hash, after.nodes[nodeId], after.tokens[hash], after.actions[|r.actions|]);
    ClaimKeepsSelfService(r, billing, owner, actor, now, nodeId, hash);
    NoNewKeepsCaps(r, after);
  }

  /** The log stays in order when only revocations are appended. */
  lemma AuditKept(r: Registry, after: Registry)
    requires Audited(r) && after.nodes == r.nodes && r.actions <= after.actions
    requires forall i :: |r.actions| <= i < |after.actions| ==>
               after.actions[i].kind == Revoked && after.actions[i].nodeId in r.nodes
    ensures Audited(after)
  {
    assert forall i :: 0 <= i < |r.actions| ==> after.actions[i] == r.actions[i];
    forall n | n in after.nodes ensures Recorded(after, n) {
      assert Recorded(r, n);
      var i :| 0 <= i < |r.actions| && Creates(r.actions[i], n)
               && r.actions[i].owner == r.nodes[n].owner && r.actions[i].billing == r.nodes[n].billing;
      assert after.actions[i] == r.actions[i];
    }
  }

  lemma HasTokenKept(r: Registry, after: Registry, n: string)
    requires n in r.nodes && after.nodes == r.nodes && HasToken(r, n)
    requires forall h :: h in r.tokens ==>
               h in after.tokens && after.tokens[h].nodeId == r.tokens[h].nodeId && after.tokens[h].billing == r.tokens[h].billing
    ensures HasToken(after, n)
  {
    var h :| h in r.tokens && r.tokens[h].nodeId == Some(n) && r.tokens[h].billing == r.nodes[n].billing;
    assert after.tokens[h].nodeId == Some(n);
  }

  /** Only revocation stamps were added, and revocations logged. */
  ghost predicate Stamped(r: Registry, after: Registry) {
    && after.users == r.users && after.nodes == r.nodes && after.tokens.Keys == r.tokens.Keys
    && (forall h :: h in r.tokens ==>
          && after.tokens[h] == r.tokens[h].(revokedAt := after.tokens[h].revokedAt)
          && (after.tokens[h].revokedAt.None? ==> r.tokens[h].revokedAt.None?))
    && r.actions <= after.actions
    && forall i :: |r.actions| <= i < |after.actions| ==>
         after.actions[i].kind == Revoked && after.actions[i].nodeId in r.nodes
  }

  lemma StampsKeepInv(r: Registry, after: Registry)
    requires Inv(r) && Stamped(r, after)
    ensures Inv(after)
  {
    hide Audited, OneActive, ThreeADay, HasToken;
    AuditKept(r, after);
    forall n | n in after.nodes ensures HasToken(after, n) {
      HasTokenKept(r, after, n);
    }
    CapsKept(r, after);
  }

  lemma RevokeOwnedKeepsInv(r: Registry, owner: string, tokenId: string, hash: string, now: real)
    requires Inv(r) && OwnsCredential(r, owner, tokenId, hash)
    ensures Inv(RevokeOwned(r, owner, hash, now))
  {
    hide Inv;
    StampsKeepInv(r, RevokeOwned(r, owner, hash, now));
  }

  lemma RevokeAllKeepsInv(r: Registry, tokenId: string, now: real)
    requires Inv(r)
    ensures Inv(RevokeAll(r, tokenId, now))
  {
    hide Inv;
    StampsKeepInv(r, RevokeAll(r, tokenId, now));
  }

  predicate MayIssue(r: Registry, hash: string, billing: string) {
    hash !in r.tokens && forall h :: h in r.tokens ==> r.tokens[h].billing != billing
  }

  lemma IssueKeepsInv(r: Registry, hash: string, tokenId: string, name: string, billing: string, now: real)
    requires Inv(r) && MayIssue(r, hash, billing)
    ensures Inv(Issue(r, hash, tokenId, name, billing, now))
  {
    hide OneActive, ThreeADay, HasToken, Audited, Inv;
    var after := Issue(r, hash, tokenId, name, billing, now);
    IssueKeepsTables(r, hash, tokenId, name, billing, now);
    InvParts(r);
    AuditKept(r, after);
    NoNewKeepsCaps(r, after);
    PartsInv(after);
  }

  lemma InvParts(r: Registry)
    requires Inv(r)
    ensures OwnersExist(r) && NodesMatchTokens(r) && SelfServiceIdsUnique(r) && OneActive(r) && ThreeADay(r) && Audited(r)
  {
  }

  lemma PartsInv(r: Registry)
    requires OwnersExist(r) && NodesMatchTokens(r) && SelfServiceIdsUnique(r) && OneActive(r) && ThreeADay(r) && Audited(r)
    ensures Inv(r)
  {
  }

  lemma IssueKeepsTables(r: Registry, hash: string, tokenId: string, name: string, billing: string, now: real)
    requires Inv(r) && MayIssue(r, hash, billing)
    ensures var after := Issue(r, hash, tokenId, name, billing, now);
            OwnersExist(after) && NodesMatchTokens(after) && SelfServiceIdsUnique(after) && NoNewSelfService(r, after)
  {
    hide Issue, OneActive, ThreeADay, Audited;
    IssueKeepsNodes(r, hash, tokenId, name, billing, now);
    IssueIsAdmin(r, hash, tokenId, name, billing, now);
  }

  lemma IssueIsAdmin(r: Registry, hash: string, tokenId: string, name: string, billing: string, now: real)
    requires SelfServiceIdsUnique(r) && MayIssue(r, hash, billing)
    ensures var after := Issue(r, hash, tokenId, name, billing, now);
            SelfServiceIdsUnique(after) && NoNewSelfService(r, after)
  {
    var after := Issue(r, hash, tokenId, name, billing, now);
    assert forall h :: h in after.tokens && after.tokens[h].source == SelfService ==> h in r.tokens && after.tokens[h] == r.tokens[h];
  }

  lemma IssueKeepsNodes(r: Registry, hash: string, tokenId: string, name: string, billing: string, now: real)
    requires OwnersExist(r) && NodesMatchTokens(r) && MayIssue(r, hash, billing)
    ensures var after := Issue(r, hash, tokenId, name, billing, now); OwnersExist(after) && NodesMatchTokens(after)
  {
    hide HasToken;
    var after := Issue(r, hash, tokenId, name, billing, now);
    forall n | n in after.nodes ensures HasToken(after, n) {
      HasTokenKept(r, after, n);
    }
  }

  lemma UsersKeepInv(r: Registry, users: map<string, User>, accounts: set<string>)
    requires Inv(r) && forall n :: n in r.nodes ==> r.nodes[n].owner in users
    ensures Inv(r.(users := users, accounts := accounts))
  {
    hide OneActive, ThreeADay, HasToken, Audited;
    var after := r.(users := users, accounts := accounts);
    AuditKept(r, after);
    forall n | n in after.nodes ensures HasToken(after, n) {
      HasTokenKept(r, after, n);
    }
    CapsKept(r, after);
  }
}
