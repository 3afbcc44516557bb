/** What every run of the workspace services keeps. A run is any sequence of service calls, by
    any users, with any arguments and any clock readings; calls that raise change nothing. */
module WorkspaceSafety {
  import opened Results
  import opened Workspaces

  // ----- The members table

  ghost predicate UniqueRows(members: seq<Member>) {
    forall i, j | 0 <= i < j < |members| :: !SameKey(members[i], members[j])
  }

  predicate SameKey(m: Member, n: Member) {
    m.workspace == n.workspace && m.user == n.user
  }

  // ----- Every workspace keeps an owner

  ghost predicate HasOwner(members: seq<Member>, ws: nat, ownerRole: RoleId) {
    exists i | 0 <= i < |members| :: ActiveOwner(members[i], ws, ownerRole)
  }

  ghost predicate OwnedWorkspace(d: Directory, members: seq<Member>, ws: nat) {
    d.ownerRole.Some? && HasOwner(members, ws, d.ownerRole.value)
  }

  ghost predicate Owned(d: Directory, t: Tables) {
    forall ws: nat | ws < |t.workspaces| :: OwnedWorkspace(d, t.members, ws)
  }

  /** Changing one row takes no workspace's last owner away, if the row is not an active owner's,
      stays one, or has company. */
  lemma RowUpdateKeepsOwner(members: seq<Member>, i: nat, m: Member, ws: nat, ownerRole: RoleId)
    requires i < |members| && HasOwner(members, ws, ownerRole)
    requires || !ActiveOwner(members[i], ws, ownerRole)
             || ActiveOwner(m, ws, ownerRole)
             || |ActiveOwners(members, ws, ownerRole)| > 1
    ensures HasOwner(members[i := m], ws, ownerRole)
  {
    var owners := ActiveOwners(members, ws, ownerRole);
    var after := members[i := m];
    if ActiveOwner(members[i], ws, ownerRole) && !ActiveOwner(m, ws, ownerRole) {
      assert |owners - {i}| == |owners| - 1;
      var j :| j in owners - {i};
      assert ActiveOwner(after[j], ws, ownerRole);
    } else {
      var j :| 0 <= j < |members| && ActiveOwner(members[j], ws, ownerRole);
      assert ActiveOwner(after[if j == i then i else j], ws, ownerRole);
    }
  }

  /** The guard of `_protect_owner_role` is what a change to a member needs; a change that makes
      or leaves the row an active owner's needs none. */
  lemma GuardedUpdateKeepsOwners(d: Directory, t: Tables, ws: nat, id: nat, m: Member)
    requires Owned(d, t) && MemberById(t, ws, id)
    requires || !IsLastOwner(d, t, ws, t.members[id])
             || m == t.members[id].(status := Active)
    ensures Owned(d, t.(members := t.members[id := m]))
  {
    var after := t.members[id := m];
    forall w: nat | w < |t.workspaces| ensures OwnedWorkspace(d, after, w) {
      assert OwnedWorkspace(d, t.members, w);
      RowUpdateKeepsOwner(t.members, id, m, w, d.ownerRole.value);
    }
  }

  lemma AppendKeepsOwners(d: Directory, t: Tables, m: Member)
    requires Owned(d, t)
    ensures Owned(d, t.(members := t.members + [m]))
  {
    var after := t.members + [m];
    forall w: nat | w < |t.workspaces| ensures OwnedWorkspace(d, after, w) {
      assert OwnedWorkspace(d, t.members, w);
      var i :| 0 <= i < |t.members| && ActiveOwner(t.members[i], w, d.ownerRole.value);
      assert ActiveOwner(after[i], w, d.ownerRole.value);
    }
  }

  lemma CreateKeepsOwners(d: Directory, t: Tables, actor: UserId, slug: Option<string>, name: string)
    requires Owned(d, t)
    ensures Owned(d, Kept(t, CreateWorkspace(d, t, actor, slug, name)))
  {
    var s := CreateWorkspace(d, t, actor, slug, name);
    if s.Ok? {
      var n, r := |t.members|, d.ownerRole.value;
      forall w: nat | w < |s.value.workspaces| ensures OwnedWorkspace(d, s.value.members, w) {
        if w < |t.workspaces| {
          assert OwnedWorkspace(d, t.members, w);
          var i :| 0 <= i < |t.members| && ActiveOwner(t.members[i], w, r);
          assert ActiveOwner(s.value.members[i], w, r);
        } else {
          assert ActiveOwner(s.value.members[n], w, r);
        }
      }
    }
  }

  /** A transfer to oneself promotes a row and then demotes it. */
  predicate SelfDemotion(d: Directory, actor: UserId, newOwner: UserId, role: RoleId) {
    actor == newOwner && Some(role) != d.ownerRole
  }

  lemma TransferToOtherKeepsOwners(d: Directory, t: Tables, actor: UserId, ws: nat, newOwner: UserId, role: RoleId)
    requires Owned(d, t) && !SelfDemotion(d, actor, newOwner, role)
    ensures Owned(d, Kept(t, TransferOwnership(d, t, actor, ws, newOwner, role)))
  {
    var s := TransferOwnership(d, t, actor, ws, newOwner, role);
    if s.Ok? {
      var i, r := GetMember(t.members, ws, newOwner).value, d.ownerRole.value;
      var promoted := t.members[i := t.members[i].(role := r)];
      var j := GetMember(promoted, ws, actor);
      assert ActiveOwner(s.value.members[i], ws, r);
      forall w: nat | w < |t.workspaces| ensures OwnedWorkspace(d, s.value.members, w) {
        assert OwnedWorkspace(d, t.members, w);
        RowUpdateKeepsOwner(t.members, i, t.members[i].(role := r), w, r);
        if w != ws && j.Some? {
          RowUpdateKeepsOwner(promoted, j.value, promoted[j.value].(role := role), w, r);
        }
      }
    }
  }

  /** No active owner of the workspace but the user. */
  ghost predicate NoOtherOwner(members: seq<Member>, ws: nat, ownerRole: RoleId, user: UserId) {
    forall j | 0 <= j < |members| && ActiveOwner(members[j], ws, ownerRole) :: members[j].user == user
  }

  /** The exact condition under which a self-transfer to a lesser role keeps the workspace
      owned: some other member is an active owner already. */
  lemma SelfTransferKeepsOwnersExactly(d: Directory, t: Tables, actor: UserId, ws: nat, role: RoleId)
    requires Owned(d, t) && UniqueRows(t.members)
    requires TransferOwnership(d, t, actor, ws, actor, role).Ok? && SelfDemotion(d, actor, actor, role)
    ensures Owned(d, TransferOwnership(d, t, actor, ws, actor, role).value)
       <==> !NoOtherOwner(t.members, ws, d.ownerRole.value, actor)
  {
    var t' := TransferOwnership(d, t, actor, ws, actor, role).value;
    var i, r := GetMember(t.members, ws, actor).value, d.ownerRole.value;
    var promoted := t.members[i := t.members[i].(role := r)];
    assert LiveRow(promoted[i], ws, actor);
    var k := GetMember(promoted, ws, actor).value;
    if j :| 0 <= j < |t.members| && ActiveOwner(t.members[j], ws, r) && t.members[j].user != actor {
      assert ActiveOwner(t'.members[j], ws, r);
      forall w: nat | w < |t.workspaces| ensures OwnedWorkspace(d, t'.members, w) {
        assert OwnedWorkspace(d, t.members, w);
        RowUpdateKeepsOwner(t.members, i, t.members[i].(role := r), w, r);
        if w != ws {
          RowUpdateKeepsOwner(promoted, k, promoted[k].(role := role), w, r);
        }
      }
    }
    if Owned(d, t') {
      assert OwnedWorkspace(d, t'.members, ws);
      var j :| 0 <= j < |t'.members| && ActiveOwner(t'.members[j], ws, r);
      assert t'.members[j].user == t.members[j].user;
    }
  }

  predicate NoSelfDemotion(d: Directory, c: Call) {
    c.CallTransfer? ==> !SelfDemotion(d, c.actor, c.newOwner, c.role)
  }

  lemma CallKeepsOwners(d: Directory, t: Tables, c: Call)
    requires Owned(d, t) && NoSelfDemotion(d, c)
    ensures Owned(d, Next(d, t, c))
  {
    var s := Apply(d, t, c);
    if s.Ok? && s.value != t {
      match c {
        case CallCreate(actor, slug, name) => CreateKeepsOwners(d, t, actor, slug, name);
        case CallTransfer(actor, ws, newOwner, role) => TransferToOtherKeepsOwners(d, t, actor, ws, newOwner, role);
        case CallChangeRole(_, ws, id, role) => GuardedUpdateKeepsOwners(d, t, ws, id, t.members[id].(role := role));
        case CallSuspend(ws, id) => GuardedUpdateKeepsOwners(d, t, ws, id, t.members[id].(status := Suspended));
        case CallReactivate(ws, id) => GuardedUpdateKeepsOwners(d, t, ws, id, t.members[id].(status := Active));
        case CallRemove(_, ws, id, now) =>
          GuardedUpdateKeepsOwners(d, t, ws, id, t.members[id].(status := Removed, deletedAt := Some(now)));
        case CallAccept(user, token, now, later) =>
          if s.value.members != t.members {
            AppendKeepsOwners(d, t, s.value.members[|t.members|]);
          }
        case _ =>
      }
    }
  }

  /** The workspace's owner, and no one else an active owner, transfers it to themselves and names a
      lesser role that exists. */
  ghost predicate Orphans(d: Directory, t: Tables, c: Call) {
    && c.CallTransfer? && SelfDemotion(d, c.actor, c.newOwner, c.role) && c.role in d.roles
    && d.ownerRole.Some? && LiveWorkspace(t, c.ws) && t.workspaces[c.ws].owner == c.actor
    && NoOtherOwner(t.members, c.ws, d.ownerRole.value, c.actor)
  }

  lemma OrphaningCallSucceeds(d: Directory, t: Tables, c: Call)
    requires Owned(d, t) && UniqueRows(t.members) && Orphans(d, t, c)
    ensures TransferOwnership(d, t, c.actor, c.ws, c.actor, c.role).Ok?
  {
    assert OwnedWorkspace(d, t.members, c.ws);
    var j :| 0 <= j < |t.members| && ActiveOwner(t.members[j], c.ws, d.ownerRole.value);
    assert LiveRow(t.members[j], c.ws, c.actor);
    var i := GetMember(t.members, c.ws, c.actor).value;
    assert SameKey(t.members[i], t.members[j]);
  }

  /** One call leaves some workspace without an owner exactly when it is an orphaning transfer. */
  lemma CallKeepsOwnersExactly(d: Directory, t: Tables, c: Call)
    requires Owned(d, t) && UniqueRows(t.members)
    ensures Owned(d, Next(d, t, c)) <==> !Orphans(d, t, c)
  {
    if NoSelfDemotion(d, c) {
      CallKeepsOwners(d, t, c);
    } else {
      if Orphans(d, t, c) {
        OrphaningCallSucceeds(d, t, c);
      }
      if Apply(d, t, c).Ok? {
        SelfTransferKeepsOwnersExactly(d, t, c.actor, c.ws, c.role);
      }
    }
  }

  /** Main result. In every run without a demoting self-transfer, every workspace ever created
      has at all times a live ACTIVE member with the system Owner role. */
  lemma {:induction false} EveryWorkspaceStaysOwned(d: Directory, calls: seq<Call>)
    requires forall i | 0 <= i < |calls| :: NoSelfDemotion(d, calls[i])
    ensures Owned(d, Reached(d, calls))
  {
    if calls != [] {
      EveryWorkspaceStaysOwned(d, calls[..|calls| - 1]);
      CallKeepsOwners(d, Reached(d, calls[..|calls| - 1]), calls[|calls| - 1]);
    }
  }

  /** The excluded call does break it: a sole owner who transfers to themselves is left with the
      role they named for "the old owner". */
  lemma SelfTransferOrphansWorkspace(d: Directory, user: UserId, role: RoleId)
    requires d.ownerRole.Some? && role in d.roles && role != d.ownerRole.value
    ensures !Owned(d, Reached(d, [CallCreate(user, Some("a"), "A"), CallTransfer(user, 0, user, role)]))
  {
    var c0, c1 := CallCreate(user, Some("a"), "A"), CallTransfer(user, 0, user, role);
    var m := Member(0, user, d.ownerRole.value, Active, None, None);
    var t1 := Tables([Workspace("a", user, None)], [m], []);
    TwoCalls(d, c0, c1);
    assert Next(d, EMPTY, c0) == t1;
    SoleOwnerDemotesThemselves(d, t1, user, role, m);
  }

  lemma SoleOwnerDemotesThemselves(d: Directory, t: Tables, user: UserId, role: RoleId, m: Member)
    requires d.ownerRole.Some? && role in d.roles && role != d.ownerRole.value
    requires LiveWorkspace(t, 0) && t.workspaces[0].owner == user && t.members == [m]
    requires LiveRow(m, 0, user) && m.status == Active && m.role == d.ownerRole.value
    ensures Next(d, t, CallTransfer(user, 0, user, role)).members == [m.(role := role)]
    ensures !Owned(d, Next(d, t, CallTransfer(user, 0, user, role)))
  {
    assert GetMember([m], 0, user) == Some(0);
    var t' := Next(d, t, CallTransfer(user, 0, user, role));
    assert t'.members == [m.(role := role)];
    assert !OwnedWorkspace(d, t'.members, 0);
  }

  lemma TwoCalls(d: Directory, c0: Call, c1: Call)
    ensures Reached(d, [c0, c1]) == Next(d, Next(d, EMPTY, c0), c1)
  {
    assert Reached(d, [c0]) == Next(d, EMPTY, c0) by { assert [c0][..0] == []; }
    assert [c0, c1][..1] == [c0];
  }

  // ----- Who may hand out the Owner role

  predicate HoldsOwnerRole(d: Directory, m: Member) {
    Some(m.role) == d.ownerRole
  }

  /** On a row that exists, only a call by the workspace's owner gives or takes the Owner role. */
  lemma OwnerRoleNeedsTheOwner(d: Directory, t: Tables, c: Call, k: nat)
    requires k < |t.members| && k < |Next(d, t, c).members|
    requires HoldsOwnerRole(d, t.members[k]) != HoldsOwnerRole(d, Next(d, t, c).members[k])
    ensures (c.CallChangeRole? || c.CallTransfer?)
         && c.ws == t.members[k].workspace < |t.workspaces| && c.actor == t.workspaces[c.ws].owner
  {
    if c.CallTransfer? {
      var i := GetMember(t.members, c.ws, c.newOwner).value;
      var promoted := t.members[i := t.members[i].(role := d.ownerRole.value)];
      var j := GetMember(promoted, c.ws, c.actor);
      assert k == i || j == Some(k);
    }
  }
}
