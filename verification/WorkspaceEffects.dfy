/** What a service call that succeeds does to the tables, row by row and field by field, who may make
    it, and what it makes of later calls. */
module WorkspaceEffects {
  import opened Results
  import opened Text
  import opened Workspaces
  import opened WorkspaceSafety
  import opened WorkspaceHistory

  // ----- Ownership

  /** What a transfer leaves in a member row: the old owner's role is written last. */
  function RoleAfterTransfer(
    m: Member, ws: nat, actor: UserId, newOwner: UserId, role: RoleId, ownerRole: RoleId): RoleId
  {
    if LiveRow(m, ws, actor) then role else if LiveRow(m, ws, newOwner) then ownerRole else m.role
  }

  /** A transfer writes the owner, promotes the new owner's row, demotes the old owner's, and touches
      nothing else. */
  lemma TransferHandsOver(
    d: Directory, t: Tables, actor: UserId, ws: nat, newOwner: UserId, role: RoleId, w: nat, k: nat)
    requires UniqueRows(t.members) && TransferOwnership(d, t, actor, ws, newOwner, role).Ok?
    ensures var u := TransferOwnership(d, t, actor, ws, newOwner, role).value;
            && |u.workspaces| == |t.workspaces| && |u.members| == |t.members| && u.invites == t.invites
            && u.workspaces[ws].owner == newOwner
            && u.workspaces[ws].slug == t.workspaces[ws].slug && u.workspaces[ws].deletedAt == None
            && (w < |t.workspaces| && w != ws ==> u.workspaces[w] == t.workspaces[w])
            && (k < |t.members| ==>
                  var m, n := t.members[k], u.members[k];
                  && n.role == RoleAfterTransfer(m, ws, actor, newOwner, role, d.ownerRole.value)
                  && n.workspace == m.workspace && n.user == m.user && n.status == m.status
                  && n.deletedAt == m.deletedAt && n.invitedBy == m.invitedBy)
  {
    var i := GetMember(t.members, ws, newOwner).value;
    var promoted := t.members[i := t.members[i].(role := d.ownerRole.value)];
    var j := GetMember(promoted, ws, actor);
    if k < |t.members| && LiveRow(t.members[k], ws, newOwner) {
      assert SameKey(t.members[i], t.members[k]);
    }
    if k < |t.members| && LiveRow(t.members[k], ws, actor) {
      assert LiveRow(promoted[k], ws, actor);
      assert SameKey(t.members[j.value], t.members[k]);
    }
  }

  /** Of the calls that only the workspace's owner may make, which fail for that reason. */
  lemma OwnerCallsForbiddenExactly(
    d: Directory, t: Tables, actor: UserId, ws: nat, newOwner: UserId, role: RoleId, id: nat, now: int)
    ensures TransferOwnership(d, t, actor, ws, newOwner, role) == Err(Forbidden)
       <==> LiveWorkspace(t, ws) && actor != t.workspaces[ws].owner
    ensures DeleteWorkspace(t, actor, ws, now) == Err(Forbidden)
       <==> LiveWorkspace(t, ws) && actor != t.workspaces[ws].owner
    ensures RemoveMember(d, t, actor, ws, id, now) == Err(Forbidden)
       <==> LiveWorkspace(t, ws) && MemberById(t, ws, id) && actor != t.workspaces[ws].owner
  {
  }

  /** After a transfer to someone else the old owner can no longer delete the workspace, remove its
      members or transfer it, and the new owner can delete it at once. */
  lemma TransferMovesPowers(
    d: Directory, t: Tables, actor: UserId, ws: nat, newOwner: UserId, role: RoleId,
    other: UserId, otherRole: RoleId, id: nat, now: int)
    requires TransferOwnership(d, t, actor, ws, newOwner, role).Ok? && actor != newOwner
    ensures var u := TransferOwnership(d, t, actor, ws, newOwner, role).value;
            && DeleteWorkspace(u, actor, ws, now) == Err(Forbidden) && DeleteWorkspace(u, newOwner, ws, now).Ok?
            && TransferOwnership(d, u, actor, ws, other, otherRole) == Err(Forbidden)
            && TransferOwnership(d, u, newOwner, ws, other, otherRole) != Err(Forbidden)
            && (MemberById(u, ws, id) ==> RemoveMember(d, u, actor, ws, id, now) == Err(Forbidden))
            && RemoveMember(d, u, newOwner, ws, id, now) != Err(Forbidden)
  {
    var u := TransferOwnership(d, t, actor, ws, newOwner, role).value;
    OwnerCallsForbiddenExactly(d, u, actor, ws, other, otherRole, id, now);
    OwnerCallsForbiddenExactly(d, u, newOwner, ws, other, otherRole, id, now);
  }

  /** An owner can hand a live workspace to any active member, and to no one else. */
  lemma TransferSucceedsExactly(d: Directory, t: Tables, ws: nat, newOwner: UserId, role: RoleId, i: nat)
    requires UniqueRows(t.members) && LiveWorkspace(t, ws) && d.ownerRole.Some? && role in d.roles
    requires i < |t.members| && LiveRow(t.members[i], ws, newOwner)
    ensures TransferOwnership(d, t, t.workspaces[ws].owner, ws, newOwner, role).Ok? <==> t.members[i].status == Active
  {
    assert SameKey(t.members[i], t.members[GetMember(t.members, ws, newOwner).value]);
  }

  /** Why a transfer by the owner fails: the new owner is no active member, there is no Owner role, or the
      old owner's row would point to a role that does not exist. */
  lemma TransferRefusesExactly(d: Directory, t: Tables, actor: UserId, ws: nat, newOwner: UserId, role: RoleId)
    requires UniqueRows(t.members) && LiveWorkspace(t, ws) && actor == t.workspaces[ws].owner
    ensures var r := TransferOwnership(d, t, actor, ws, newOwner, role);
            var active := exists i | 0 <= i < |t.members| ::
                            LiveRow(t.members[i], ws, newOwner) && t.members[i].status == Active;
            var owns := exists i | 0 <= i < |t.members| :: LiveRow(t.members[i], ws, actor);
            && (r == Err(BadRequest) <==> !active)
            && (r == Err(Internal) <==> active && d.ownerRole.None?)
            && (r == Err(Conflict) <==> active && d.ownerRole.Some? && owns && role !in d.roles)
  {
    var g := GetMember(t.members, ws, newOwner);
    if i :| 0 <= i < |t.members| && LiveRow(t.members[i], ws, newOwner) && t.members[i].status == Active {
      assert SameKey(t.members[i], t.members[g.value]);
    }
  }

  /** A created workspace is live, has the slug that was given or made, and its creator is its owner. */
  lemma CreateMakesOwner(d: Directory, t: Tables, actor: UserId, slug: Option<string>, name: string)
    requires CreateWorkspace(d, t, actor, slug, name).Ok?
    ensures var u, ws := CreateWorkspace(d, t, actor, slug, name).value, |t.workspaces|;
            && u.workspaces == t.workspaces + [u.workspaces[ws]] && LiveWorkspace(u, ws)
            && u.workspaces[ws].owner == actor
            && (slug.Some? && slug.value != "" ==> u.workspaces[ws].slug == slug.value)
            && (slug == None || slug == Some("") ==> u.workspaces[ws].slug == Slug.GenerateSlug(d.lower, name))
            && |u.members| == |t.members| + 1 && u.members[..|t.members|] == t.members && u.invites == t.invites
            && ActiveOwner(u.members[|t.members|], ws, d.ownerRole.value)
            && u.members[|t.members|].user == actor && u.members[|t.members|].invitedBy == None
  {
  }

  /** A slug that any workspace has is refused, and so is everything without a system Owner role. */
  lemma CreateRefusesExactly(d: Directory, t: Tables, actor: UserId, slug: Option<string>, name: string)
    ensures var r, chosen := CreateWorkspace(d, t, actor, slug, name), ChosenSlug(d, slug, name);
            var taken := exists w | 0 <= w < |t.workspaces| :: t.workspaces[w].slug == chosen;
            (r == Err(BadRequest) <==> taken) && (r == Err(Internal) <==> !taken && d.ownerRole.None?)
            && (r.Ok? <==> !taken && d.ownerRole.Some?)
  {
  }

  ghost predicate UniqueSlugs(workspaces: seq<Workspace>) {
    forall v, w | 0 <= v < w < |workspaces| :: workspaces[v].slug != workspaces[w].slug
  }

  lemma SameSlugsStayUnique(xs: seq<Workspace>, ys: seq<Workspace>)
    requires UniqueSlugs(xs) && |xs| == |ys| && forall w | 0 <= w < |xs| :: xs[w].slug == ys[w].slug
    ensures UniqueSlugs(ys)
  {
  }

  lemma CallKeepsSlugsUnique(d: Directory, t: Tables, c: Call)
    requires UniqueSlugs(t.workspaces)
    ensures UniqueSlugs(Next(d, t, c).workspaces)
  {
    if c.CallTransfer? || c.CallDelete? {
      SameSlugsStayUnique(t.workspaces, Next(d, t, c).workspaces);
    }
  }

  /** Over all runs no two workspaces, deleted ones included, have the same slug. */
  lemma {:induction false} SlugsStayUnique(d: Directory, calls: seq<Call>)
    ensures UniqueSlugs(Reached(d, calls).workspaces)
  {
    if calls != [] {
      SlugsStayUnique(d, calls[..|calls| - 1]);
      CallKeepsSlugsUnique(d, Reached(d, calls[..|calls| - 1]), calls[|calls| - 1]);
    }
  }

  /** The call names a workspace. */
  predicate Concerns(c: Call, ws: nat) {
    !c.CallCreate? && !c.CallAccept? && !c.CallExpire? && c.ws == ws
  }

  /** Deletion stamps one workspace, and every later call that names it finds nothing. */
  lemma DeletedIsNotFound(d: Directory, t: Tables, actor: UserId, ws: nat, now: int, c: Call, w: nat)
    requires DeleteWorkspace(t, actor, ws, now).Ok? && Concerns(c, ws)
    ensures var u := DeleteWorkspace(t, actor, ws, now).value;
            && u.workspaces[ws].deletedAt == Some(now) && u.workspaces[ws].owner == t.workspaces[ws].owner
            && (w < |t.workspaces| && w != ws ==> u.workspaces[w] == t.workspaces[w])
            && |u.workspaces| == |t.workspaces| && u.members == t.members && u.invites == t.invites
            && Apply(d, u, c) == Err(NotFound)
  {
  }

  // ----- Members

  /** One row of the member table changed, and only in the fields that `n` and `m` differ in. */
  ghost predicate OneRowChanged(t: Tables, u: Tables, id: nat) {
    && u.workspaces == t.workspaces && u.invites == t.invites && |u.members| == |t.members|
    && id < |t.members| && forall k | 0 <= k < |t.members| && k != id :: u.members[k] == t.members[k]
  }

  lemma ChangeRoleSetsRole(d: Directory, t: Tables, actor: UserId, ws: nat, id: nat, role: RoleId)
    requires ChangeRole(d, t, actor, ws, id, role).Ok?
    ensures var u := ChangeRole(d, t, actor, ws, id, role).value;
            && OneRowChanged(t, u, id) && u.members[id].role == role
            && u.members[id].status == t.members[id].status && u.members[id].deletedAt == None
            && SameKey(u.members[id], t.members[id]) && u.members[id].invitedBy == t.members[id].invitedBy
  {
  }

  lemma StatusCallsSetStatus(d: Directory, t: Tables, actor: UserId, ws: nat, id: nat, now: int)
    ensures var s := SuspendMember(d, t, ws, id);
            s.Ok? ==>
              && OneRowChanged(t, s.value, id) && s.value.members[id].status == Suspended
              && s.value.members[id].role == t.members[id].role && s.value.members[id].deletedAt == None
    ensures var s := ReactivateMember(t, ws, id);
            s.Ok? ==>
              && OneRowChanged(t, s.value, id) && s.value.members[id].status == Active
              && s.value.members[id].role == t.members[id].role && s.value.members[id].deletedAt == None
    ensures var s := RemoveMember(d, t, actor, ws, id, now);
            s.Ok? ==>
              && OneRowChanged(t, s.value, id) && s.value.members[id].status == Removed
              && s.value.members[id].role == t.members[id].role && s.value.members[id].deletedAt == Some(now)
  {
  }

  /** Suspending an active member and reactivating them is as if nothing had happened. */
  lemma SuspendReactivateRestores(d: Directory, t: Tables, ws: nat, id: nat)
    requires SuspendMember(d, t, ws, id).Ok? && t.members[id].status == Active
    ensures ReactivateMember(SuspendMember(d, t, ws, id).value, ws, id) == Ok(t)
  {
    var s := SuspendMember(d, t, ws, id).value;
    assert s.members[id := s.members[id].(status := Active)] == t.members;
  }

  /** A removed member is found neither by user nor by id. */
  lemma RemovedIsNotFound(d: Directory, t: Tables, actor: UserId, ws: nat, id: nat, now: int)
    requires UniqueRows(t.members) && RemoveMember(d, t, actor, ws, id, now).Ok?
    ensures var u := RemoveMember(d, t, actor, ws, id, now).value;
            GetMember(u.members, ws, t.members[id].user).None? && !MemberById(u, ws, id)
  {
    var u := RemoveMember(d, t, actor, ws, id, now).value;
    var g := GetMember(u.members, ws, t.members[id].user);
    if g.Some? {
      assert SameKey(t.members[g.value], t.members[id]);
    }
  }

  /** No active owner of the workspace but this row. */
  ghost predicate SoleOwnerRow(d: Directory, t: Tables, ws: nat, id: nat) {
    && id < |t.members| && d.ownerRole.Some? && ActiveOwner(t.members[id], ws, d.ownerRole.value)
    && forall j | 0 <= j < |t.members| && ActiveOwner(t.members[j], ws, d.ownerRole.value) :: j == id
  }

  lemma LastOwnerIsSoleOwner(d: Directory, t: Tables, ws: nat, id: nat)
    requires MemberById(t, ws, id)
    ensures IsLastOwner(d, t, ws, t.members[id]) <==> SoleOwnerRow(d, t, ws, id)
  {
    if d.ownerRole.Some? && ActiveOwner(t.members[id], ws, d.ownerRole.value) {
      var owners := ActiveOwners(t.members, ws, d.ownerRole.value);
      assert id in owners && |owners - {id}| == |owners| - 1;
      if SoleOwnerRow(d, t, ws, id) {
        assert owners - {id} == {};
      } else {
        var j :| 0 <= j < |t.members| && ActiveOwner(t.members[j], ws, d.ownerRole.value) && j != id;
        assert j in owners - {id};
      }
    }
  }

  /** Who the last-owner guard protects, exactly: it refuses to suspend, remove or change the role of
      a workspace's only active owner, and of no one else. */
  lemma GuardRefusesExactly(d: Directory, t: Tables, actor: UserId, ws: nat, id: nat, role: RoleId, now: int)
    requires LiveWorkspace(t, ws) && MemberById(t, ws, id)
    ensures SuspendMember(d, t, ws, id) == Err(BadRequest) <==> SoleOwnerRow(d, t, ws, id)
    ensures SuspendMember(d, t, ws, id).Ok? <==> !SoleOwnerRow(d, t, ws, id)
    ensures RemoveMember(d, t, actor, ws, id, now) == Err(BadRequest)
       <==> SoleOwnerRow(d, t, ws, id) && actor == t.workspaces[ws].owner
    ensures ChangeRole(d, t, actor, ws, id, role) == Err(BadRequest)
       <==> SoleOwnerRow(d, t, ws, id) && Some(role) != d.ownerRole
    ensures ReactivateMember(t, ws, id).Ok?
  {
    LastOwnerIsSoleOwner(d, t, ws, id);
  }

  /** A role that exists can be given to a member who is not the only owner, by anyone, unless it is the
      Owner role that is given or taken: that needs the workspace's owner. */
  lemma ChangeRoleSucceedsExactly(d: Directory, t: Tables, actor: UserId, ws: nat, id: nat, role: RoleId)
    requires LiveWorkspace(t, ws) && MemberById(t, ws, id) && d.ownerRole.Some?
    requires role != t.members[id].role && !SoleOwnerRow(d, t, ws, id)
    ensures ChangeRole(d, t, actor, ws, id, role)
         == if role !in d.roles then Err(NotFound)
            else if d.ownerRole.value in {role, t.members[id].role} && actor != t.workspaces[ws].owner then
              Err(Forbidden)
            else Ok(t.(members := t.members[id := t.members[id].(role := role)]))
  {
    LastOwnerIsSoleOwner(d, t, ws, id);
  }

  // ----- Invitations

  /** A sent invite is the last row: pending, for the normalised address, with the role, the inviter and
      the token given, good for seven days. Older pending ones for the address are revoked. */
  lemma InviteIsSent(
    d: Directory, t: Tables, actor: UserId, ws: nat, address: string, role: RoleId, token: string, now: int, k: nat)
    requires Stable(d.lower) && CreateInvite(d, t, actor, ws, address, role, token, now).Ok?
    ensures var u, n := CreateInvite(d, t, actor, ws, address, role, token, now).value, |t.invites|;
            && u.workspaces == t.workspaces && u.members == t.members && |u.invites| == n + 1
            && u.invites[n].workspace == ws && u.invites[n].email == NormalEmail(d.lower, address)
            && u.invites[n].role == role && u.invites[n].inviter == actor && u.invites[n].token == token
            && u.invites[n].status == Pending && u.invites[n].expiresAt == now + 7 * 24 * 60 * 60
            && (k < n ==>
                  if PendingFor(t.invites[k], ws, NormalEmail(d.lower, address))
                  then u.invites[k].status == Revoked && u.invites[k].revokedAt == Some(now)
                  else u.invites[k] == t.invites[k])
  {
    NormalEmailIsFinal(d.lower, address);
  }

  /** Why an invitation is refused: no such workspace or role, or someone with that address is a member. */
  lemma InviteRefusesExactly(
    d: Directory, t: Tables, actor: UserId, ws: nat, address: string, role: RoleId, token: string, now: int)
    ensures var r, email := CreateInvite(d, t, actor, ws, address, role, token, now), NormalEmail(d.lower, address);
            var joined := exists k | 0 <= k < |t.members| ::
                            && t.members[k].user in d.emails && d.emails[t.members[k].user] == email
                            && LiveRow(t.members[k], ws, t.members[k].user);
            && (r == Err(NotFound) <==> !LiveWorkspace(t, ws) || role !in d.roles)
            && (r == Err(BadRequest) <==> LiveWorkspace(t, ws) && role in d.roles && joined)
  {
    var email := NormalEmail(d.lower, address);
    if AlreadyMember(d, t, ws, email) {
      var u :| u in d.emails && d.emails[u] == email && GetMember(t.members, ws, u).Some?;
      assert LiveRow(t.members[GetMember(t.members, ws, u).value], ws, u);
    }
    if k :| && 0 <= k < |t.members| && t.members[k].user in d.emails && d.emails[t.members[k].user] == email
            && LiveRow(t.members[k], ws, t.members[k].user) {
      assert GetMember(t.members, ws, t.members[k].user).Some?;
    }
  }

  /** Whom an invite lets in: from the sending to seven days later, a user whose email is the
      normalised address, with the token, unless a removed row of theirs is in the way. */
  lemma InvitedUserJoins(
    d: Directory, t: Tables, actor: UserId, ws: nat, address: string, role: RoleId, token: string, sent: int,
    user: UserId, now: int, later: int)
    requires Stable(d.lower) && CreateInvite(d, t, actor, ws, address, role, token, sent).Ok?
    ensures (var u := CreateInvite(d, t, actor, ws, address, role, token, sent).value;
             AcceptInvite(d, u, user, token, now, later).Ok?)
       <==> && user in d.emails && d.emails[user] == NormalEmail(d.lower, address)
            && now <= sent + 7 * 24 * 60 * 60
            && !RowTaken(t.members, ws, user)
  {
    var u := CreateInvite(d, t, actor, ws, address, role, token, sent).value;
    NormalEmailIsFinal(d.lower, address);
    if user in d.emails && d.emails[user] == NormalEmail(d.lower, address) {
      assert GetMember(t.members, ws, user).None?;
    }
  }

  /** The member row that accepting inserts, and the invite afterwards. */
  lemma AcceptLetsIn(d: Directory, t: Tables, user: UserId, token: string, now: int, later: int)
    requires AcceptInvite(d, t, user, token, now, later).Ok? && GetByToken(t.invites, token).Some?
    ensures var u, n := AcceptInvite(d, t, user, token, now, later).value, |t.members|;
            var q := GetByToken(t.invites, token).value;
            var i := t.invites[q];
            && u.workspaces == t.workspaces && |u.invites| == |t.invites|
            && (forall k | 0 <= k < |t.invites| && k != q :: u.invites[k] == t.invites[k])
            && (later < i.expiresAt ==> u.invites[q].status == Accepted && u.invites[q].acceptedAt == Some(later))
            && if GetMember(t.members, i.workspace, user).Some? then u.members == t.members
               else
                 && |u.members| == n + 1 && u.members[..n] == t.members
                 && LiveRow(u.members[n], i.workspace, user) && u.members[n].status == Active
                 && u.members[n].role == i.role && u.members[n].invitedBy == Some(i.inviter)
  {
  }

  /** Why accepting fails: the first of these that applies. */
  lemma AcceptRefusesExactly(d: Directory, t: Tables, user: UserId, token: string, now: int, later: int)
    ensures var r, q := AcceptInvite(d, t, user, token, now, later), GetByToken(t.invites, token);
            && (user !in d.emails ==> r == Err(Forbidden))
            && (user in d.emails && q.None? ==> r == Err(NotFound))
            && (user in d.emails && q.Some? ==>
                  var i := t.invites[q.value];
                  && (r == Err(BadRequest) <==> i.status != Pending || now > i.expiresAt)
                  && (r == Err(Forbidden) <==> i.status == Pending && now <= i.expiresAt && i.email != d.emails[user]))
  {
  }

  /** A revoked invite lets no one in, and neither does one that the bulk expiry has closed; the expiry
      closes exactly the pending ones whose time is up. */
  lemma ClosedInvitesLetNoOneIn(d: Directory, t: Tables, ws: nat, id: nat, user: UserId, now: int, later: int, at: int)
    requires id < |t.invites| && GetByToken(t.invites, t.invites[id].token) == Some(id)
    ensures var s := RevokeInvite(t, ws, id, at);
            s.Ok? ==>
              && s.value.invites[id].status == Revoked && s.value.invites[id].revokedAt == Some(at)
              && AcceptInvite(d, s.value, user, t.invites[id].token, now, later).Err?
    ensures var u, i := ExpireInvites(t, at), t.invites[id];
            && (u.invites[id].status == Expired <==> i.status == Expired || (i.status == Pending && i.expiresAt <= at))
            && (i.status != Pending || i.expiresAt > at ==> u.invites[id] == i)
            && (i.expiresAt <= at ==> AcceptInvite(d, u, user, i.token, now, later).Err?)
  {
    var s, u, token := RevokeInvite(t, ws, id, at), ExpireInvites(t, at), t.invites[id].token;
    SameTokensSameLookup(t.invites, u.invites, token);
    if s.Ok? {
      SameTokensSameLookup(t.invites, s.value.invites, token);
    }
  }

  /** Revoking, resending and the bulk expiry change an invite's own row only. */
  lemma InviteCallsAreLocal(t: Tables, ws: nat, id: nat, now: int, k: nat)
    requires k < |t.invites| && k != id
    ensures RevokeInvite(t, ws, id, now).Ok? ==> RevokeInvite(t, ws, id, now).value.invites[k] == t.invites[k]
    ensures ResendInvite(t, ws, id, now).Ok? ==> ResendInvite(t, ws, id, now).value.invites[k] == t.invites[k]
    ensures (RevokeInvite(t, ws, id, now).Ok? <==> ResendInvite(t, ws, id, now).Ok?)
         && (ResendInvite(t, ws, id, now).Ok? <==>
               LiveWorkspace(t, ws) && InviteById(t, ws, id) && t.invites[id].status == Pending)
    ensures forall r | r in {RevokeInvite(t, ws, id, now), ResendInvite(t, ws, id, now)} && r.Err? ::
              r.error == if LiveWorkspace(t, ws) && InviteById(t, ws, id) then BadRequest else NotFound
  {
  }

  ghost predicate UniqueTokens(invites: seq<Invite>) {
    forall i, j | 0 <= i < j < |invites| :: invites[i].token != invites[j].token
  }

  lemma SameTokensStayUnique(xs: seq<Invite>, ys: seq<Invite>)
    requires UniqueTokens(xs) && |xs| == |ys| && forall k | 0 <= k < |xs| :: xs[k].token == ys[k].token
    ensures UniqueTokens(ys)
  {
  }

  lemma InviteKeepsTokensUnique(
    d: Directory, t: Tables, actor: UserId, ws: nat, address: string, role: RoleId, token: string, now: int)
    requires UniqueTokens(t.invites)
    ensures UniqueTokens(Kept(t, CreateInvite(d, t, actor, ws, address, role, token, now)).invites)
  {
    var s := CreateInvite(d, t, actor, ws, address, role, token, now);
    if s.Ok? {
      var revoked := RevokePending(t.invites, ws, NormalEmail(d.lower, address), now);
      SameTokensStayUnique(t.invites, revoked);
      assert s.value.invites[..|revoked|] == revoked;
    }
  }

  lemma CallKeepsTokens(d: Directory, t: Tables, c: Call)
    requires !c.CallInvite?
    ensures var u := Next(d, t, c);
            |u.invites| == |t.invites| && forall k | 0 <= k < |t.invites| :: u.invites[k].token == t.invites[k].token
  {
  }

  /** Over all runs a token names one invite. */
  lemma {:induction false} TokensStayUnique(d: Directory, calls: seq<Call>)
    ensures UniqueTokens(Reached(d, calls).invites)
  {
    if calls != [] {
      var t, c := Reached(d, calls[..|calls| - 1]), calls[|calls| - 1];
      TokensStayUnique(d, calls[..|calls| - 1]);
      match c
      case CallInvite(actor, ws, address, role, token, now) =>
        InviteKeepsTokensUnique(d, t, actor, ws, address, role, token, now);
      case _ =>
        CallKeepsTokens(d, t, c);
        SameTokensStayUnique(t.invites, Next(d, t, c).invites);
    }
  }
}
