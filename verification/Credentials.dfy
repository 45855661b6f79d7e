/** What the ownership operations give to those who call them, in one call and over whole runs. */
module Credentials {
  import opened Options
  import opened Ownership
  import opened OwnershipStore

  /** Users, accounts and all credentials but one are as before. */
  ghost predicate OnlyToken(r: Registry, after: Registry, hash: string) {
    && after.users == r.users && hash in after.tokens
    && after.tokens.Keys == r.tokens.Keys + {hash}
    && forall h :: h in r.tokens && h != hash ==> after.tokens[h] == r.tokens[h]
  }

  ghost predicate OnlyNode(r: Registry, after: Registry, nodeId: string) {
    && nodeId !in r.nodes && after.nodes.Keys == r.nodes.Keys + {nodeId}
    && forall n :: n in r.nodes ==> after.nodes[n] == r.nodes[n]
  }

  // --- Enrolling -------------------------------------------------------------

  /** An enrollment leaves its owner with exactly one active credential, for its new node. */
  lemma EnrollGrants(r: Registry, owner: string, name: string, profile: string, now: real, d: Draw)
    requires Inv(r) && MayEnroll(r, owner, name, profile, now, d)
    ensures var after := Enroll(r, owner, name, now, d);
            && OnlyToken(r, after, d.tokenHash) && OnlyNode(r, after, d.nodeId)
            && after.accounts == r.accounts + {d.billing}
            && after.tokens[d.tokenHash].tokenId == d.tokenId && after.tokens[d.tokenHash].billing == d.billing
            && after.tokens[d.tokenHash].revokedAt == None && after.tokens[d.tokenHash].createdAt == now
            && after.tokens[d.tokenHash].name == name == after.nodes[d.nodeId].name
            && after.nodes[d.nodeId].owner == owner && after.nodes[d.nodeId].billing == d.billing
            && after.nodes[d.nodeId].createdAt == now
            && after.actions == r.actions + [Action(d.nodeId, d.billing, owner, owner, Enrolled, now)]
    ensures var after := Enroll(r, owner, name, now, d);
            && Active(after, owner) == {d.tokenHash}
            && (forall who :: who != owner ==> Active(after, who) == Active(r, who))
            && (forall start :: start <= now ==> IssuedSince(after, owner, start) == IssuedSince(r, owner, start) + {d.tokenHash})
  {
    var after := Enroll(r, owner, name, now, d);
    hide MayEnroll, NodesMatchTokens, SelfServiceOf, OneActive, ThreeADay, Audited, OwnersExist, SelfServiceIdsUnique, ValidName;
    EnrollIsFresh(r, owner, name, profile, now, d);
    forall h, who | h in after.tokens
      ensures SelfServiceOf(after, h, who) <==> if h == d.tokenHash then who == owner else SelfServiceOf(r, h, who)
    {
      EnrollLinks(r, owner, name, profile, now, d);
      LinkedSelfService(r, after, d.nodeId, d.tokenHash, after.nodes[d.nodeId], after.tokens[d.tokenHash],
                        after.actions[|r.actions|], h, who);
    }
  }

  lemma EnrollIsFresh(r: Registry, owner: string, name: string, profile: string, now: real, d: Draw)
    requires MayEnroll(r, owner, name, profile, now, d)
    ensures d.tokenHash !in r.tokens && d.nodeId !in r.nodes && Active(r, owner) == {}
  {
    hide SelfServiceOf, ValidName;
    assert |Active(r, owner)| == 0;
  }

  /** No further enrollment is possible, at whatever time and under whatever name, until the credential is revoked. */
  lemma EnrolledOnlyOnce(r: Registry, owner: string, name: string, profile: string, now: real, d: Draw)
    requires Inv(r) && MayEnroll(r, owner, name, profile, now, d)
    ensures forall name', profile', now', d' :: !MayEnroll(Enroll(r, owner, name, now, d), owner, name', profile', now', d')
  {
    EnrollGrants(r, owner, name, profile, now, d);
    hide Enroll, Active, Unused, ValidName, IsSuspended;
  }

  /** A suspension that has not ended forbids enrolling and being assigned a node; one that has ended, or none, forbids neither. */
  lemma SuspensionDecides(r: Registry, owner: string, until: Option<real>, name: string, profile: string, now: real, d: Draw,
                          billing: string, actor: string, nodeId: string, hash: string)
    requires owner in r.users
    ensures var free := r.(users := r.users[owner := r.users[owner].(suspendedUntil := None)]);
            var bound := r.(users := r.users[owner := r.users[owner].(suspendedUntil := until)]);
            var blocked := until.Some? && until.value > now;
            && (MayEnroll(bound, owner, name, profile, now, d) <==> !blocked && MayEnroll(free, owner, name, profile, now, d))
            && (MayClaim(bound, billing, owner, actor, now, nodeId, hash)
                <==> !blocked && MayClaim(free, billing, owner, actor, now, nodeId, hash))
  {
    hide ValidName;
    var free := r.(users := r.users[owner := r.users[owner].(suspendedUntil := None)]);
    var bound := r.(users := r.users[owner := r.users[owner].(suspendedUntil := until)]);
    assert Active(free, owner) == Active(bound, owner);
    assert IssuedSince(free, owner, now - DAY) == IssuedSince(bound, owner, now - DAY);
  }

  /**
   Who may enroll: a linked user who is not suspended, under a valid name and the one supported profile,
   with no active credential and fewer than three issued in the last day, given ids that are all new.
   */
  lemma EnrollmentIsOpenTo(r: Registry, owner: string, name: string, profile: string, now: real, d: Draw)
    ensures MayEnroll(r, owner, name, profile, now, d)
            <==> && ValidName(name) && profile == "apple-silicon-macos-gguf-metal-l0"
                 && owner in r.users && r.users[owner].githubLinked
                 && (r.users[owner].suspendedUntil == None || r.users[owner].suspendedUntil.value <= now)
                 && Active(r, owner) == {} && |IssuedSince(r, owner, now - 86400.0)| <= 2
                 && d.billing !in r.accounts && d.nodeId !in r.nodes && d.tokenHash !in r.tokens
                 && (forall n :: n in r.nodes ==> r.nodes[n].billing != d.billing)
                 && (forall h :: h in r.tokens ==> r.tokens[h].billing != d.billing)
                 && (forall h :: h in r.tokens && r.tokens[h].source == SelfService ==> r.tokens[h].tokenId != d.tokenId)
  {
    hide ValidName, SelfServiceOf;
    if |Active(r, owner)| == 0 {
      assert Active(r, owner) == {};
    }
  }

  /** An owner may revoke exactly its active credentials, each by its id. */
  lemma OwnsIffActive(r: Registry, owner: string, tokenId: string, hash: string)
    requires Inv(r)
    ensures OwnsCredential(r, owner, tokenId, hash) <==> hash in Active(r, owner) && r.tokens[hash].tokenId == tokenId
  {
    hide OneActive, ThreeADay, Audited, OwnersExist, SelfServiceIdsUnique;
  }

  /** Neither is open to a user without a linked GitHub identity, or beyond one active and three issued in a day. */
  lemma CapsAndLinkDecide(r: Registry, owner: string, name: string, profile: string, now: real, d: Draw,
                          billing: string, actor: string, nodeId: string, hash: string)
    ensures owner !in r.users || !r.users[owner].githubLinked ==>
              !MayEnroll(r, owner, name, profile, now, d) && !MayClaim(r, billing, owner, actor, now, nodeId, hash)
    ensures Active(r, owner) != {} ==> !MayEnroll(r, owner, name, profile, now, d)
    ensures |IssuedSince(r, owner, now - 86400.0)| >= 3 ==> !MayEnroll(r, owner, name, profile, now, d)
  {
    hide ValidName, Unused, SelfServiceOf;
    if |Active(r, owner)| == 0 {
      assert Active(r, owner) == {};
    }
  }

  /** An ASCII digit, capital or small letter. */
  predicate Alphanumeric(c: char) {
    48 <= c as int <= 57 || 65 <= c as int <= 90 || 97 <= c as int <= 122
  }

  /** A name is a letter or digit, then at most 63 letters, digits, spaces, underscores, dots and hyphens. */
  lemma NamesAre(s: string)
    ensures ValidName(s)
            <==> s != "" && Alphanumeric(s[0]) && |s| <= 64 && forall c :: c in s[1..] ==> Alphanumeric(c) || c in {' ', '_', '.', '-'}
  {
    if s != "" && forall c :: c in s[1..] ==> Alphanumeric(c) || c in {' ', '_', '.', '-'} {
      forall i | 1 <= i < |s| ensures IsNameChar(s[i]) {
        assert s[i] == s[1..][i - 1] && s[i] in s[1..];
      }
    }
  }

  // --- Claiming and issuing --------------------------------------------------

  /** A claim ties the credential to the owner's new node, once, and keeps everything else about it. */
  lemma ClaimGrants(r: Registry, billing: string, owner: string, actor: string, now: real, nodeId: string, hash: string)
    requires MayClaim(r, billing, owner, actor, now, nodeId, hash)
    ensures var after := Claim(r, owner, actor, now, nodeId, hash);
            && OnlyToken(r, after, hash) && OnlyNode(r, after, nodeId) && after.accounts == r.accounts
            && after.tokens[hash] == r.tokens[hash].(nodeId := Some(nodeId))
            && after.nodes[nodeId] == Node(owner, billing, r.tokens[hash].name, now)
            && after.actions == r.actions + [Action(nodeId, billing, owner, actor, Claimed, now)]
    ensures forall owner', actor', now', node' :: !MayClaim(Claim(r, owner, actor, now, nodeId, hash), billing, owner', actor', now', node', hash)
  {
  }

  /** An operator credential is new, unrevoked and unclaimed, and every eligible user can be assigned it. */
  lemma IssueGrants(r: Registry, hash: string, tokenId: string, name: string, billing: string, now: real)
    requires Inv(r) && MayIssue(r, hash, billing)
    ensures var after := Issue(r, hash, tokenId, name, billing, now);
            && hash !in r.tokens && OnlyToken(r, after, hash)
            && after.nodes == r.nodes && after.accounts == r.accounts && after.actions == r.actions
            && after.tokens[hash].tokenId == tokenId && after.tokens[hash].name == name && after.tokens[hash].createdAt == now
    ensures forall owner, actor, later, nodeId ::
              owner in r.users && r.users[owner].githubLinked && r.users[owner].suspendedUntil == None
              && actor in r.users && nodeId !in r.nodes ==>
                MayClaim(Issue(r, hash, tokenId, name, billing, now), billing, owner, actor, later, nodeId, hash)
  {
    hide OneActive, ThreeADay, Audited, SelfServiceIdsUnique, OwnersExist;
    forall n | n in r.nodes ensures r.nodes[n].billing != billing {
      assert HasToken(r, n);
    }
  }

  // --- Users -----------------------------------------------------------------

  /** Deleting a user takes its row and account and nothing else; setting one touches nobody else. */
  lemma UsersAreApart(r: Registry, user: string, row: User)
    ensures var after := DeleteUser(r, user);
            && user !in after.users && user !in after.accounts
            && after.nodes == r.nodes && after.tokens == r.tokens && after.actions == r.actions
            && (forall u :: u != user ==> (u in after.users <==> u in r.users) && (u in after.accounts <==> u in r.accounts))
            && (forall u :: u in after.users ==> after.users[u] == r.users[u])
    ensures var after := SetUser(r, user, row);
            && user in after.users && after.users[user] == row && user in after.accounts
            && after.nodes == r.nodes && after.tokens == r.tokens && after.actions == r.actions
            && (forall u :: u != user ==> (u in after.users <==> u in r.users) && (u in after.accounts <==> u in r.accounts))
            && (forall u :: u in after.users && u != user ==> after.users[u] == r.users[u])
  {
  }

  // --- Revoking --------------------------------------------------------------

  /** A revoked credential is stamped and dead: its owner has no other, and cannot revoke it again. */
  lemma RevocationKills(r: Registry, owner: string, tokenId: string, hash: string, now: real)
    requires Inv(r) && OwnsCredential(r, owner, tokenId, hash)
    ensures var after := RevokeOwned(r, owner, hash, now);
            && OnlyToken(r, after, hash) && after.nodes == r.nodes && after.accounts == r.accounts
            && after.tokens[hash] == r.tokens[hash].(revokedAt := Some(now))
            && after.actions == r.actions
                 + [Action(r.tokens[hash].nodeId.value, r.tokens[hash].billing, owner, owner, Revoked, now)]
    ensures var after := RevokeOwned(r, owner, hash, now);
            && hash in Active(r, owner) && Active(after, owner) == {}
            && (forall who :: who != owner ==> Active(after, who) == Active(r, who))
            && forall h :: !OwnsCredential(after, owner, tokenId, h)
  {
    hide ThreeADay, Audited, NodesMatchTokens, OwnersExist;
    OnlyOneActive(r, owner, hash);
    forall who ensures Active(RevokeOwned(r, owner, hash, now), who) == Active(r, who) - {hash} {
      StampedIsInactive(r, owner, hash, now, who);
    }
  }

  lemma StampedIsInactive(r: Registry, owner: string, hash: string, now: real, who: string)
    requires hash in r.tokens && r.tokens[hash].nodeId.Some?
    ensures Active(RevokeOwned(r, owner, hash, now), who) == Active(r, who) - {hash}
  {
    var after := RevokeOwned(r, owner, hash, now);
    forall h | h in r.tokens ensures h in Active(after, who) <==> h in Active(r, who) && h != hash {
    }
  }

  lemma OnlyOneActive(r: Registry, owner: string, hash: string)
    requires OneActive(r) && hash in Active(r, owner)
    ensures Active(r, owner) == {hash}
  {
    SubsetSize({hash}, Active(r, owner));
    var others := Active(r, owner) - {hash};
    assert Active(r, owner) == others + {hash};
    assert |others| == 0;
  }

  /** An operator's revocation leaves no credential with the id alive, keeps earlier stamps, and touches no other. */
  lemma RevocationSweeps(r: Registry, tokenId: string, now: real)
    ensures var after := RevokeAll(r, tokenId, now);
            && after.users == r.users && after.nodes == r.nodes && after.accounts == r.accounts && after.actions == r.actions
            && after.tokens.Keys == r.tokens.Keys
            && (forall h :: h in r.tokens && (r.tokens[h].tokenId != tokenId || r.tokens[h].revokedAt.Some?) ==>
                  after.tokens[h] == r.tokens[h])
            && (forall h :: h in r.tokens && r.tokens[h].tokenId == tokenId && r.tokens[h].revokedAt == None ==>
                  after.tokens[h] == r.tokens[h].(revokedAt := Some(now)))
            && (forall h :: h in after.tokens && after.tokens[h].tokenId == tokenId ==> after.tokens[h].revokedAt.Some?)
  {
  }

  // --- Whole runs ------------------------------------------------------------

  /** A credential keeps all that it was issued with; a node or a stamp once given stays. */
  ghost predicate SameCredential(before: Token, after: Token) {
    && after.tokenId == before.tokenId && after.name == before.name && after.billing == before.billing
    && after.source == before.source && after.createdAt == before.createdAt
    && (before.nodeId.Some? ==> after.nodeId == before.nodeId)
    && (before.revokedAt.Some? ==> after.revokedAt == before.revokedAt)
  }

  lemma StepKeepsCredential(r: Registry, op: Op, hash: string)
    requires hash in r.tokens
    ensures hash in Step(r, op).tokens && SameCredential(r.tokens[hash], Step(r, op).tokens[hash])
  {
    hide ValidName, SelfServiceOf, Active, IssuedSince;
  }

  /** Whatever follows, no credential is lost or altered, and none comes back to life. */
  lemma {:induction false} CredentialsArePermanent(r: Registry, ops: seq<Op>, hash: string)
    requires hash in r.tokens
    ensures hash in Run(r, ops).tokens && SameCredential(r.tokens[hash], Run(r, ops).tokens[hash])
    decreases |ops|
  {
    hide Step;
    if ops != [] {
      StepKeepsCredential(r, ops[0], hash);
      CredentialsArePermanent(Step(r, ops[0]), ops[1..], hash);
    }
  }

  lemma {:induction false} RunSplit(r: Registry, ops: seq<Op>, k: nat)
    requires k <= |ops|
    ensures Run(r, ops) == Run(Run(r, ops[..k]), ops[k..])
    decreases k
  {
    hide Step;
    if k == 0 {
      assert ops[0..] == ops && ops[..0] == [];
    } else {
      RunSplit(Step(r, ops[0]), ops[1..], k - 1);
      assert ops[1..][..k - 1] == ops[..k][1..] && ops[1..][k - 1..] == ops[k..] && ops[..k][0] == ops[0];
    }
  }

  /** The operation revokes this credential: by its owner, or by an operator under its id. */
  ghost predicate Revokes(r: Registry, op: Op, hash: string) {
    || (op.OpRevokeOwned? && op.hash == hash && OwnsCredential(r, op.owner, op.tokenId, hash))
    || (op.OpRevokeAll? && hash in r.tokens && r.tokens[hash].tokenId == op.tokenId && r.tokens[hash].revokedAt == None)
  }

  /** A credential revoked by the `k`-th operation of a run is revoked ever after, with the stamp of that moment. */
  lemma RevokedForever(r: Registry, ops: seq<Op>, k: nat, hash: string)
    requires k < |ops| && Revokes(Run(r, ops[..k]), ops[k], hash)
    ensures hash in Run(r, ops).tokens && Run(r, ops).tokens[hash].revokedAt == Some(ops[k].now)
  {
    var at := Run(r, ops[..k]);
    RunSplit(r, ops, k);
    assert ops[k..][0] == ops[k] && ops[k..][1..] == ops[k + 1..];
    assert Step(at, ops[k]).tokens[hash].revokedAt == Some(ops[k].now);
    CredentialsArePermanent(Step(at, ops[k]), ops[k + 1..], hash);
  }
}
