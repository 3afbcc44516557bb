/** Workspace membership, ownership and invitations: app/services/workspace.py,
    app/services/workspace_member.py, app/services/workspace_invitation.py and the two
    repositories under them.

    A table is a sequence of rows; a row's id is its position. No row is ever deleted: the code
    deletes softly. Each service call is one transaction: when it raises, nothing is kept.
    Users, roles and the system Owner role do not change and are held in a `Directory`; who is not
    in it cannot be authenticated, and so cannot accept an invite. */
module Workspaces {
  import opened Results
  import opened Text
  import Slug

  type UserId = nat
  type RoleId = nat

  datatype MemberStatus = PendingMember | Active | Suspended | Removed

  datatype Member = Member(
    workspace: nat, user: UserId, role: RoleId, status: MemberStatus,
    deletedAt: Option<int>, invitedBy: Option<UserId>)

  datatype InviteStatus = Pending | Accepted | Revoked | Expired

  datatype Invite = Invite(
    workspace: nat, email: string, role: RoleId, inviter: UserId, token: string,
    status: InviteStatus, acceptedAt: Option<int>, revokedAt: Option<int>, expiresAt: int)

  datatype Workspace = Workspace(slug: string, owner: UserId, deletedAt: Option<int>)

  datatype Tables = Tables(workspaces: seq<Workspace>, members: seq<Member>, invites: seq<Invite>)

  datatype Directory = Directory(
    lower: Casing, emails: map<UserId, string>, roles: set<RoleId>, ownerRole: Option<RoleId>)

  /** HTTP 404, 403 and 400, a violated database constraint, and an uncaught exception. */
  datatype Error = NotFound | Forbidden | BadRequest | Conflict | Internal

  type Step = Result<Tables, Error>

  // ----- Look-ups

  predicate LiveWorkspace(t: Tables, ws: nat) {
    ws < |t.workspaces| && t.workspaces[ws].deletedAt == None
  }

  predicate LiveRow(m: Member, ws: nat, user: UserId) {
    m.workspace == ws && m.user == user && m.deletedAt == None
  }

  function GetMember(members: seq<Member>, ws: nat, user: UserId): (r: Option<nat>)
    ensures r.Some? ==> r.value < |members| && LiveRow(members[r.value], ws, user)
    ensures r.None? ==> forall i | 0 <= i < |members| :: !LiveRow(members[i], ws, user)
  {
    if members == [] then None
    else
      var k := |members| - 1;
      if LiveRow(members[k], ws, user) then Some(k) else GetMember(members[..k], ws, user)
  }

  predicate MemberById(t: Tables, ws: nat, id: nat) {
    id < |t.members| && t.members[id].deletedAt == None && t.members[id].workspace == ws
  }

  predicate ActiveOwner(m: Member, ws: nat, ownerRole: RoleId) {
    m.workspace == ws && m.role == ownerRole && m.status == Active && m.deletedAt == None
  }

  function ActiveOwners(members: seq<Member>, ws: nat, ownerRole: RoleId): set<nat> {
    set i | 0 <= i < |members| && ActiveOwner(members[i], ws, ownerRole)
  }

  /** `_protect_owner_role` raises. */
  predicate IsLastOwner(d: Directory, t: Tables, ws: nat, m: Member) {
    && d.ownerRole.Some?
    && m.role == d.ownerRole.value
    && m.status == Active
    && |ActiveOwners(t.members, ws, d.ownerRole.value)| <= 1
  }

  function GetByToken(invites: seq<Invite>, token: string): (r: Option<nat>)
    ensures r.Some? ==> r.value < |invites| && invites[r.value].token == token
    ensures r.None? ==> forall i | 0 <= i < |invites| :: invites[i].token != token
  {
    if invites == [] then None
    else
      var k := |invites| - 1;
      if invites[k].token == token then Some(k) else GetByToken(invites[..k], token)
  }

  predicate InviteById(t: Tables, ws: nat, id: nat) {
    id < |t.invites| && t.invites[id].workspace == ws
  }

  predicate PendingFor(i: Invite, ws: nat, email: string) {
    i.workspace == ws && i.status == Pending && i.email == email
  }

  // ----- The members service

  function ChangeRole(d: Directory, t: Tables, actor: UserId, ws: nat, id: nat, newRole: RoleId): Step {
    if !LiveWorkspace(t, ws) || !MemberById(t, ws, id) then Err(NotFound)
    else
      var m := t.members[id];
      if m.role == newRole then Ok(t)
      else if IsLastOwner(d, t, ws, m) then Err(BadRequest)
      else if newRole !in d.roles then Err(NotFound)
      else if d.ownerRole.None? then Err(Internal)
      else if (newRole == d.ownerRole.value || m.role == d.ownerRole.value) && t.workspaces[ws].owner != actor then
        Err(Forbidden)
      else Ok(t.(members := t.members[id := m.(role := newRole)]))
  }

  function SuspendMember(d: Directory, t: Tables, ws: nat, id: nat): Step {
    if !LiveWorkspace(t, ws) || !MemberById(t, ws, id) then Err(NotFound)
    else
      var m := t.members[id];
      if m.status == Suspended then Ok(t)
      else if IsLastOwner(d, t, ws, m) then Err(BadRequest)
      else Ok(t.(members := t.members[id := m.(status := Suspended)]))
  }

  function ReactivateMember(t: Tables, ws: nat, id: nat): Step {
    if !LiveWorkspace(t, ws) || !MemberById(t, ws, id) then Err(NotFound)
    else
      var m := t.members[id];
      if m.status == Active then Ok(t)
      else Ok(t.(members := t.members[id := m.(status := Active)]))
  }

  function RemoveMember(d: Directory, t: Tables, actor: UserId, ws: nat, id: nat, now: int): Step {
    if !LiveWorkspace(t, ws) || !MemberById(t, ws, id) then Err(NotFound)
    else
      var m := t.members[id];
      if t.workspaces[ws].owner != actor then Err(Forbidden)
      else if IsLastOwner(d, t, ws, m) then Err(BadRequest)
      else Ok(t.(members := t.members[id := m.(status := Removed, deletedAt := Some(now))]))
  }

  // ----- The workspace service

  predicate SlugTaken(t: Tables, slug: string) {
    exists w | 0 <= w < |t.workspaces| :: t.workspaces[w].slug == slug
  }

  function ChosenSlug(d: Directory, slug: Option<string>, name: string): string {
    if slug.None? || slug.value == "" then Slug.GenerateSlug(d.lower, name) else slug.value
  }

  function CreateWorkspace(d: Directory, t: Tables, actor: UserId, slug: Option<string>, name: string): Step {
    var chosen := ChosenSlug(d, slug, name);
    if SlugTaken(t, chosen) then Err(BadRequest)
    else if d.ownerRole.None? then Err(Internal)
    else
      Ok(t.(workspaces := t.workspaces + [Workspace(chosen, actor, None)],
            members := t.members + [Member(|t.workspaces|, actor, d.ownerRole.value, Active, None, None)]))
  }

  /** The old owner's row is looked up after the new owner's row has been promoted. */
  function Demote(members: seq<Member>, ws: nat, user: UserId, role: RoleId): seq<Member> {
    match GetMember(members, ws, user)
    case None => members
    case Some(j) => members[j := members[j].(role := role)]
  }

  function TransferOwnership(d: Directory, t: Tables, actor: UserId, ws: nat, newOwner: UserId, newRole: RoleId): Step {
    if !LiveWorkspace(t, ws) then Err(NotFound)
    else if t.workspaces[ws].owner != actor then Err(Forbidden)
    else
      match GetMember(t.members, ws, newOwner)
      case None => Err(BadRequest)
      case Some(i) =>
        if t.members[i].status != Active then Err(BadRequest)
        else if d.ownerRole.None? then Err(Internal)
        else if newRole !in d.roles && GetMember(t.members, ws, actor).Some? then Err(Conflict)
        else
          var promoted := t.members[i := t.members[i].(role := d.ownerRole.value)];
          Ok(t.(workspaces := t.workspaces[ws := t.workspaces[ws].(owner := newOwner)],
                members := Demote(promoted, ws, actor, newRole)))
  }

  function DeleteWorkspace(t: Tables, actor: UserId, ws: nat, now: int): Step {
    if !LiveWorkspace(t, ws) then Err(NotFound)
    else if t.workspaces[ws].owner != actor then Err(Forbidden)
    else Ok(t.(workspaces := t.workspaces[ws := t.workspaces[ws].(deletedAt := Some(now))]))
  }

  // ----- The invitation service

  const INVITE_LIFETIME := 7 * 24 * 3600

  /** Some user with this email has a live row in the workspace. */
  predicate AlreadyMember(d: Directory, t: Tables, ws: nat, email: string) {
    exists u | u in d.emails :: d.emails[u] == email && GetMember(t.members, ws, u).Some?
  }

  function RevokeRow(i: Invite, now: int): Invite {
    if i.status == Pending then i.(status := Revoked, revokedAt := Some(now)) else i
  }

  function RevokePending(invites: seq<Invite>, ws: nat, email: string, now: int): (r: seq<Invite>)
    ensures |r| == |invites|
    ensures forall k | 0 <= k < |r| ::
              r[k] == if PendingFor(invites[k], ws, email) then RevokeRow(invites[k], now) else invites[k]
  {
    seq(|invites|, k requires 0 <= k < |invites| =>
      if PendingFor(invites[k], ws, email) then RevokeRow(invites[k], now) else invites[k])
  }

  /** INSERT: refused by the unique token and by the partial unique index on pending invites. */
  function InsertInvite(invites: seq<Invite>, row: Invite): Result<seq<Invite>, Error> {
    if exists k | 0 <= k < |invites| ::
         invites[k].token == row.token || PendingFor(invites[k], row.workspace, row.email)
    then Err(Conflict)
    else Ok(invites + [row])
  }

  /** The row to insert; the repository normalises the address once more. */
  function NewInvite(
    d: Directory, ws: nat, email: string, role: RoleId, inviter: UserId, token: string, now: int): Invite
  {
    Invite(ws, NormalEmail(d.lower, email), role, inviter, token, Pending, None, None, now + INVITE_LIFETIME)
  }

  function CreateInvite(
    d: Directory, t: Tables, actor: UserId, ws: nat, address: string, role: RoleId, token: string, now: int): Step
  {
    var email := NormalEmail(d.lower, address);
    if !LiveWorkspace(t, ws) then Err(NotFound)
    else if role !in d.roles then Err(NotFound)
    else if AlreadyMember(d, t, ws, email) then Err(BadRequest)
    else
      var row := NewInvite(d, ws, email, role, actor, token, now);
      match InsertInvite(RevokePending(t.invites, ws, email, now), row)
      case Err(e) => Err(e)
      case Ok(invites) => Ok(t.(invites := invites))
  }

  function RevokeInvite(t: Tables, ws: nat, id: nat, now: int): Step {
    if !LiveWorkspace(t, ws) || !InviteById(t, ws, id) then Err(NotFound)
    else if t.invites[id].status != Pending then Err(BadRequest)
    else Ok(t.(invites := t.invites[id := RevokeRow(t.invites[id], now)]))
  }

  function ResendInvite(t: Tables, ws: nat, id: nat, now: int): Step {
    if !LiveWorkspace(t, ws) || !InviteById(t, ws, id) then Err(NotFound)
    else if t.invites[id].status != Pending then Err(BadRequest)
    else Ok(t.(invites := t.invites[id := t.invites[id].(expiresAt := now + INVITE_LIFETIME)]))
  }

  /** `now` is read by the service's test, `later` by the repository's: the two differ in
      strictness as well as in time, and the second one is silent. */
  function AcceptRow(i: Invite, later: int): Invite {
    if i.status == Pending && i.expiresAt > later then i.(status := Accepted, acceptedAt := Some(later)) else i
  }

  function AcceptInvite(d: Directory, t: Tables, user: UserId, token: string, now: int, later: int): Step {
    if user !in d.emails then Err(Forbidden)
    else
      match GetByToken(t.invites, token)
      case None => Err(NotFound)
      case Some(k) =>
        var i := t.invites[k];
        if i.status != Pending || i.expiresAt < now then Err(BadRequest)
        else if i.email != d.emails[user] then Err(Forbidden)
        else
          var accepted := t.(invites := t.invites[k := AcceptRow(i, later)]);
          if GetMember(t.members, i.workspace, user).Some? then Ok(accepted)
          else if RowTaken(t.members, i.workspace, user) then Err(Conflict)
          else Ok(accepted.(members := t.members + [Member(i.workspace, user, i.role, Active, None, Some(i.inviter))]))
  }

  /** The unique constraint on (workspace, user) counts removed rows too. */
  predicate RowTaken(members: seq<Member>, ws: nat, user: UserId) {
    exists j | 0 <= j < |members| :: members[j].workspace == ws && members[j].user == user
  }

  function ExpireInvites(t: Tables, now: int): Tables {
    t.(invites := seq(|t.invites|, k requires 0 <= k < |t.invites| =>
                    if t.invites[k].status == Pending && t.invites[k].expiresAt <= now
                    then t.invites[k].(status := Expired)
                    else t.invites[k]))
  }

  // ----- Runs

  datatype Call =
    | CallCreate(actor: UserId, slug: Option<string>, name: string)
    | CallChangeRole(actor: UserId, ws: nat, id: nat, role: RoleId)
    | CallSuspend(ws: nat, id: nat)
    | CallReactivate(ws: nat, id: nat)
    | CallRemove(actor: UserId, ws: nat, id: nat, now: int)
    | CallTransfer(actor: UserId, ws: nat, newOwner: UserId, role: RoleId)
    | CallDelete(actor: UserId, ws: nat, now: int)
    | CallInvite(actor: UserId, ws: nat, address: string, role: RoleId, token: string, now: int)
    | CallRevoke(ws: nat, id: nat, now: int)
    | CallResend(ws: nat, id: nat, now: int)
    | CallAccept(user: UserId, token: string, now: int, later: int)
    | CallExpire(now: int)

  function Apply(d: Directory, t: Tables, c: Call): Step {
    match c
    case CallCreate(actor, slug, name) => CreateWorkspace(d, t, actor, slug, name)
    case CallChangeRole(actor, ws, id, role) => ChangeRole(d, t, actor, ws, id, role)
    case CallSuspend(ws, id) => SuspendMember(d, t, ws, id)
    case CallReactivate(ws, id) => ReactivateMember(t, ws, id)
    case CallRemove(actor, ws, id, now) => RemoveMember(d, t, actor, ws, id, now)
    case CallTransfer(actor, ws, newOwner, role) => TransferOwnership(d, t, actor, ws, newOwner, role)
    case CallDelete(actor, ws, now) => DeleteWorkspace(t, actor, ws, now)
    case CallInvite(actor, ws, address, role, token, now) => CreateInvite(d, t, actor, ws, address, role, token, now)
    case CallRevoke(ws, id, now) => RevokeInvite(t, ws, id, now)
    case CallResend(ws, id, now) => ResendInvite(t, ws, id, now)
    case CallAccept(user, token, now, later) => AcceptInvite(d, t, user, token, now, later)
    case CallExpire(now) => Ok(ExpireInvites(t, now))
  }

  /** What is in the tables after a call: a call that raises is rolled back. */
  function Kept(t: Tables, s: Step): Tables {
    if s.Ok? then s.value else t
  }

  function Next(d: Directory, t: Tables, c: Call): Tables {
    Kept(t, Apply(d, t, c))
  }

  const EMPTY := Tables([], [], [])

  function Reached(d: Directory, calls: seq<Call>): Tables {
    if calls == [] then EMPTY
    else Next(d, Reached(d, calls[..|calls| - 1]), calls[|calls| - 1])
  }
}
