/** The services as methods that change rows in place, proved against the functions of
    `Workspaces`: what they raise, and every row of every table afterwards. */
module WorkspaceServices {
  import opened Results
  import opened Text
  import opened Workspaces

  /** The call raised what the step says and left exactly the rows the step says. */
  ghost predicate Did(before: Tables, after: Tables, error: Option<Error>, s: Step) {
    match s
    case Ok(t) => error == None && after == t
    case Err(e) => error == Some(e) && after == before
  }

  class Database {
    const directory: Directory
    var workspaces: seq<Workspace>
    var members: seq<Member>
    var invites: seq<Invite>

    function Rows(): Tables
      reads this
    {
      Tables(workspaces, members, invites)
    }

    constructor (directory: Directory)
      ensures this.directory == directory
      ensures Rows() == Tables([], [], [])
    {
      this.directory := directory;
      workspaces, members, invites := [], [], [];
    }

    /** `_protect_owner_role`, counting the active owners. */
    method ProtectOwnerRole(ws: nat, m: Member) returns (raises: bool)
      ensures raises == IsLastOwner(directory, Rows(), ws, m)
    {
      if directory.ownerRole.None? {
        return false;
      }
      var ownerRole := directory.ownerRole.value;
      if m.role != ownerRole || m.status != Active {
        return false;
      }
      var owners := 0;
      for i := 0 to |members|
        invariant owners == |ActiveOwners(members[..i], ws, ownerRole)|
      {
        OneMoreOwner(members[..i], members[i], ws, ownerRole);
        assert members[..i] + [members[i]] == members[..i + 1];
        if ActiveOwner(members[i], ws, ownerRole) {
          owners := owners + 1;
        }
      }
      assert members[..|members|] == members;
      return owners <= 1;
    }

    method ChangeRole(actor: UserId, ws: nat, id: nat, newRole: RoleId) returns (error: Option<Error>)
      modifies this`members
      ensures Did(old(Rows()), Rows(), error, Workspaces.ChangeRole(directory, old(Rows()), actor, ws, id, newRole))
    {
      if !LiveWorkspace(Rows(), ws) || !MemberById(Rows(), ws, id) {
        return Some(NotFound);
      }
      if members[id].role == newRole {
        return None;
      }
      var last := ProtectOwnerRole(ws, members[id]);
      if last {
        return Some(BadRequest);
      }
      if newRole !in directory.roles {
        return Some(NotFound);
      }
      if directory.ownerRole.None? {
        return Some(Internal);
      }
      var ownerRole := directory.ownerRole.value;
      if (newRole == ownerRole || members[id].role == ownerRole) && workspaces[ws].owner != actor {
        return Some(Forbidden);
      }
      members := members[id := members[id].(role := newRole)];
      return None;
    }

    method SuspendMember(ws: nat, id: nat) returns (error: Option<Error>)
      modifies this`members
      ensures Did(old(Rows()), Rows(), error, Workspaces.SuspendMember(directory, old(Rows()), ws, id))
    {
      if !LiveWorkspace(Rows(), ws) || !MemberById(Rows(), ws, id) {
        return Some(NotFound);
      }
      if members[id].status == Suspended {
        return None;
      }
      var last := ProtectOwnerRole(ws, members[id]);
      if last {
        return Some(BadRequest);
      }
      members := members[id := members[id].(status := Suspended)];
      return None;
    }

    method ReactivateMember(ws: nat, id: nat) returns (error: Option<Error>)
      modifies this`members
      ensures Did(old(Rows()), Rows(), error, Workspaces.ReactivateMember(old(Rows()), ws, id))
    {
      if !LiveWorkspace(Rows(), ws) || !MemberById(Rows(), ws, id) {
        return Some(NotFound);
      }
      if members[id].status != Active {
        members := members[id := members[id].(status := Active)];
      }
      return None;
    }

    method RemoveMember(actor: UserId, ws: nat, id: nat, now: int) returns (error: Option<Error>)
      modifies this`members
      ensures Did(old(Rows()), Rows(), error, Workspaces.RemoveMember(directory, old(Rows()), actor, ws, id, now))
    {
      if !LiveWorkspace(Rows(), ws) || !MemberById(Rows(), ws, id) {
        return Some(NotFound);
      }
      if workspaces[ws].owner != actor {
        return Some(Forbidden);
      }
      var last := ProtectOwnerRole(ws, members[id]);
      if last {
        return Some(BadRequest);
      }
      members := members[id := members[id].(status := Removed, deletedAt := Some(now))];
      return None;
    }

    method CreateWorkspace(actor: UserId, slug: Option<string>, name: string) returns (error: Option<Error>)
      modifies this`workspaces, this`members
      ensures Did(old(Rows()), Rows(), error, Workspaces.CreateWorkspace(directory, old(Rows()), actor, slug, name))
    {
      var chosen := ChosenSlug(directory, slug, name);
      if SlugTaken(Rows(), chosen) {
        return Some(BadRequest);
      }
      if directory.ownerRole.None? {
        return Some(Internal);
      }
      var ws := |workspaces|;
      workspaces := workspaces + [Workspace(chosen, actor, None)];
      members := members + [Member(ws, actor, directory.ownerRole.value, Active, None, None)];
      return None;
    }

    method DeleteWorkspace(actor: UserId, ws: nat, now: int) returns (error: Option<Error>)
      modifies this`workspaces
      ensures Did(old(Rows()), Rows(), error, Workspaces.DeleteWorkspace(old(Rows()), actor, ws, now))
    {
      if !LiveWorkspace(Rows(), ws) {
        return Some(NotFound);
      }
      if workspaces[ws].owner != actor {
        return Some(Forbidden);
      }
      workspaces := workspaces[ws := workspaces[ws].(deletedAt := Some(now))];
      return None;
    }

    method TransferOwnership(actor: UserId, ws: nat, newOwner: UserId, newRole: RoleId) returns (error: Option<Error>)
      modifies this`workspaces, this`members
      ensures Did(old(Rows()), Rows(), error,
                  Workspaces.TransferOwnership(directory, old(Rows()), actor, ws, newOwner, newRole))
    {
      if !LiveWorkspace(Rows(), ws) {
        return Some(NotFound);
      }
      if workspaces[ws].owner != actor {
        return Some(Forbidden);
      }
      var i := GetMember(members, ws, newOwner);
      if i.None? || members[i.value].status != Active {
        return Some(BadRequest);
      }
      if directory.ownerRole.None? {
        return Some(Internal);
      }
      if newRole !in directory.roles && GetMember(members, ws, actor).Some? {
        return Some(Conflict);
      }
      workspaces := workspaces[ws := workspaces[ws].(owner := newOwner)];
      members := members[i.value := members[i.value].(role := directory.ownerRole.value)];
      var j := GetMember(members, ws, actor);
      if j.Some? {
        members := members[j.value := members[j.value].(role := newRole)];
      }
      return None;
    }

    /** Revokes the workspace's pending invites for the address one by one, as the code does. */
    method RevokeAllFor(ws: nat, email: string, now: int)
      modifies this`invites
      ensures invites == RevokePending(old(invites), ws, email, now)
    {
      for k := 0 to |invites|
        invariant |invites| == |old(invites)|
        invariant forall j | 0 <= j < k :: invites[j] == RevokePending(old(invites), ws, email, now)[j]
        invariant forall j | k <= j < |invites| :: invites[j] == old(invites)[j]
      {
        if invites[k].workspace == ws && invites[k].status == Pending {
          if invites[k].email == email {
            invites := invites[k := RevokeRow(invites[k], now)];
          }
        }
      }
    }

    method CreateInvite(actor: UserId, ws: nat, address: string, role: RoleId, token: string, now: int)
      returns (error: Option<Error>)
      modifies this`invites
      ensures Did(old(Rows()), Rows(), error,
                  Workspaces.CreateInvite(directory, old(Rows()), actor, ws, address, role, token, now))
    {
      var email := NormalEmail(directory.lower, address);
      if !LiveWorkspace(Rows(), ws) || role !in directory.roles {
        return Some(NotFound);
      }
      if AlreadyMember(directory, Rows(), ws, email) {
        return Some(BadRequest);
      }
      var saved := invites;
      RevokeAllFor(ws, email, now);
      var row := NewInvite(directory, ws, email, role, actor, token, now);
      match InsertInvite(invites, row) {
        case Err(e) =>
          invites := saved;  // the transaction is rolled back
          return Some(e);
        case Ok(inserted) =>
          invites := inserted;
          return None;
      }
    }

    method RevokeInvite(ws: nat, id: nat, now: int) returns (error: Option<Error>)
      modifies this`invites
      ensures Did(old(Rows()), Rows(), error, Workspaces.RevokeInvite(old(Rows()), ws, id, now))
    {
      if !LiveWorkspace(Rows(), ws) || !InviteById(Rows(), ws, id) {
        return Some(NotFound);
      }
      if invites[id].status != Pending {
        return Some(BadRequest);
      }
      invites := invites[id := RevokeRow(invites[id], now)];
      return None;
    }

    method ResendInvite(ws: nat, id: nat, now: int) returns (error: Option<Error>)
      modifies this`invites
      ensures Did(old(Rows()), Rows(), error, Workspaces.ResendInvite(old(Rows()), ws, id, now))
    {
      if !LiveWorkspace(Rows(), ws) || !InviteById(Rows(), ws, id) {
        return Some(NotFound);
      }
      if invites[id].status != Pending {
        return Some(BadRequest);
      }
      invites := invites[id := invites[id].(expiresAt := now + INVITE_LIFETIME)];
      return None;
    }

    /** The bulk expiry: how many rows it hit, and what they are now. */
    method ExpireInvites(now: int) returns (rowcount: nat)
      modifies this`invites
      ensures Rows() == Workspaces.ExpireInvites(old(Rows()), now)
      ensures rowcount == |set k | 0 <= k < |invites| && invites[k] != old(invites)[k]|
    {
      rowcount := |set k | 0 <= k < |invites| && invites[k].status == Pending && invites[k].expiresAt <= now|;
      invites := Workspaces.ExpireInvites(Rows(), now).invites;
      assert (set k | 0 <= k < |invites| && invites[k] != old(invites)[k])
          == (set k | 0 <= k < |old(invites)| && old(invites)[k].status == Pending && old(invites)[k].expiresAt <= now);
    }

    method AcceptInvite(user: UserId, token: string, now: int, later: int) returns (error: Option<Error>)
      modifies this`members, this`invites
      ensures Did(old(Rows()), Rows(), error, Workspaces.AcceptInvite(directory, old(Rows()), user, token, now, later))
    {
      if user !in directory.emails {
        return Some(Forbidden);
      }
      var k := GetByToken(invites, token);
      if k.None? {
        return Some(NotFound);
      }
      var invite := invites[k.value];
      if invite.status == Revoked || invite.status == Accepted {
        return Some(BadRequest);
      }
      if invite.status == Expired || invite.expiresAt < now {
        return Some(BadRequest);
      }
      if invite.email != directory.emails[user] {
        return Some(Forbidden);
      }
      var existing := GetMember(members, invite.workspace, user);
      if existing.None? {
        if RowTaken(members, invite.workspace, user) {
          return Some(Conflict);
        }
        members := members + [Member(invite.workspace, user, invite.role, Active, None, Some(invite.inviter))];
      }
      if invite.status == Pending && invite.expiresAt > later {
        invites := invites[k.value := invite.(status := Accepted, acceptedAt := Some(later))];
      }
      return None;
    }

    method Perform(c: Call) returns (error: Option<Error>)
      modifies this
      ensures Did(old(Rows()), Rows(), error, Apply(directory, old(Rows()), c))
    {
      match c {
        case CallCreate(actor, slug, name) => error := CreateWorkspace(actor, slug, name);
        case CallChangeRole(actor, ws, id, role) => error := ChangeRole(actor, ws, id, role);
        case CallSuspend(ws, id) => error := SuspendMember(ws, id);
        case CallReactivate(ws, id) => error := ReactivateMember(ws, id);
        case CallRemove(actor, ws, id, now) => error := RemoveMember(actor, ws, id, now);
        case CallTransfer(actor, ws, newOwner, role) => error := TransferOwnership(actor, ws, newOwner, role);
        case CallDelete(actor, ws, now) => error := DeleteWorkspace(actor, ws, now);
        case CallInvite(actor, ws, address, role, token, now) =>
          error := CreateInvite(actor, ws, address, role, token, now);
        case CallRevoke(ws, id, now) => error := RevokeInvite(ws, id, now);
        case CallResend(ws, id, now) => error := ResendInvite(ws, id, now);
        case CallAccept(user, token, now, later) => error := AcceptInvite(user, token, now, later);
        case CallExpire(now) =>
          var rowcount := ExpireInvites(now);
          error := None;
      }
    }
  }

  /** Any sequence of service calls on a fresh database leaves the tables of the run theorems. */
  method PerformAll(directory: Directory, calls: seq<Call>) returns (db: Database)
    ensures fresh(db) && db.directory == directory
    ensures db.Rows() == Reached(directory, calls)
  {
    db := new Database(directory);
    for i := 0 to |calls|
      invariant fresh(db) && db.directory == directory
      invariant db.Rows() == Reached(directory, calls[..i])
    {
      assert calls[..i + 1][..i] == calls[..i];
      var error := db.Perform(calls[i]);
    }
    assert calls[..|calls|] == calls;
  }

  lemma OneMoreOwner(members: seq<Member>, m: Member, ws: nat, ownerRole: RoleId)
    ensures |ActiveOwners(members + [m], ws, ownerRole)|
         == |ActiveOwners(members, ws, ownerRole)| + (if ActiveOwner(m, ws, ownerRole) then 1 else 0)
  {
    var before, after := ActiveOwners(members, ws, ownerRole), ActiveOwners(members + [m], ws, ownerRole);
    assert after == before + (if ActiveOwner(m, ws, ownerRole) then {|members|} else {});
  }
}
