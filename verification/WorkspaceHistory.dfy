/** The invite and member tables over all runs: which rows can exist, how a row may change, and
    where every member came from. */
module WorkspaceHistory {
  import opened Results
  import opened Text
  import opened Workspaces
  import opened WorkspaceSafety

  // ----- How rows change

  /** A member keeps workspace, user and inviter; a removed row never changes again. */
  predicate MemberEvolves(m: Member, n: Member) {
    SameKey(m, n) && m.invitedBy == n.invitedBy && (m.deletedAt.Some? ==> m == n)
  }

  /** An invite has an acceptance time exactly when accepted, a revocation time exactly when revoked. */
  predicate StampsAgree(i: Invite) {
    && (i.status == Accepted <==> i.acceptedAt.Some?)
    && (i.status == Revoked <==> i.revokedAt.Some?)
  }

  /** An invite keeps all it was sent with; once it is not pending it never changes again. */
  predicate InviteEvolves(i: Invite, j: Invite) {
    && i.workspace == j.workspace && i.email == j.email && i.role == j.role
    && i.inviter == j.inviter && i.token == j.token
    && (i.status != Pending ==> i == j)
    && (StampsAgree(i) ==> StampsAgree(j))
  }

  ghost predicate Evolves(t: Tables, u: Tables) {
    && |t.workspaces| <= |u.workspaces| && |t.members| <= |u.members| && |t.invites| <= |u.invites|
    && (forall k | 0 <= k < |t.members| :: MemberEvolves(t.members[k], u.members[k]))
    && (forall k | 0 <= k < |t.invites| :: InviteEvolves(t.invites[k], u.invites[k]))
  }

  lemma TransferEvolves(d: Directory, t: Tables, actor: UserId, ws: nat, newOwner: UserId, role: RoleId)
    ensures Evolves(t, Kept(t, TransferOwnership(d, t, actor, ws, newOwner, role)))
  {
  }

  lemma InviteCallsEvolve(d: Directory, t: Tables, c: Call)
    requires c.CallInvite? || c.CallRevoke? || c.CallResend? || c.CallExpire?
    ensures Evolves(t, Next(d, t, c))
  {
  }

  lemma AcceptEvolves(d: Directory, t: Tables, user: UserId, token: string, now: int, later: int)
    ensures Evolves(t, Kept(t, AcceptInvite(d, t, user, token, now, later)))
  {
  }

  lemma CallEvolves(d: Directory, t: Tables, c: Call)
    ensures Evolves(t, Next(d, t, c))
  {
    match c {
      case CallTransfer(actor, ws, newOwner, role) => TransferEvolves(d, t, actor, ws, newOwner, role);
      case CallAccept(user, token, now, later) => AcceptEvolves(d, t, user, token, now, later);
      case CallInvite(_, _, _, _, _, _) => InviteCallsEvolve(d, t, c);
      case CallRevoke(_, _, _) => InviteCallsEvolve(d, t, c);
      case CallResend(_, _, _) => InviteCallsEvolve(d, t, c);
      case CallExpire(_) => InviteCallsEvolve(d, t, c);
      case _ =>
    }
  }

  /** Nothing a later call does can undo what these relations freeze. */
  lemma {:induction false} RunEvolves(d: Directory, calls: seq<Call>, n: nat)
    requires n <= |calls|
    ensures Evolves(Reached(d, calls[..n]), Reached(d, calls))
    decreases |calls|
  {
    if n == |calls| {
      assert calls[..n] == calls;
    } else {
      var before := calls[..|calls| - 1];
      assert before[..n] == calls[..n];
      RunEvolves(d, before, n);
      CallEvolves(d, Reached(d, before), calls[|calls| - 1]);
    }
  }

  // ----- The member table

  predicate RowInOrder(m: Member) {
    m.status == Removed <==> m.deletedAt.Some?
  }

  ghost predicate MembersInOrder(members: seq<Member>) {
    UniqueRows(members) && forall k | 0 <= k < |members| :: RowInOrder(members[k])
  }

  ghost predicate SameKeys(xs: seq<Member>, ys: seq<Member>) {
    |xs| == |ys| && forall k | 0 <= k < |xs| :: SameKey(xs[k], ys[k])
  }

  lemma SameKeysStayUnique(xs: seq<Member>, ys: seq<Member>)
    requires UniqueRows(xs) && SameKeys(xs, ys)
    ensures UniqueRows(ys)
  {
    forall i, j | 0 <= i < j < |ys| ensures !SameKey(ys[i], ys[j]) {
      assert !SameKey(xs[i], xs[j]) && SameKey(xs[i], ys[i]) && SameKey(xs[j], ys[j]);
    }
  }

  /** A created workspace has no members yet. */
  ghost predicate Located(t: Tables) {
    forall k | 0 <= k < |t.members| :: t.members[k].workspace < |t.workspaces|
  }

  ghost predicate InvitesLocated(t: Tables) {
    forall k | 0 <= k < |t.invites| :: t.invites[k].workspace < |t.workspaces|
  }

  lemma CallKeepsLocated(d: Directory, t: Tables, c: Call)
    requires Located(t) && InvitesLocated(t)
    ensures Located(Next(d, t, c)) && InvitesLocated(Next(d, t, c))
  {
  }

  lemma CallKeepsMembersInOrder(d: Directory, t: Tables, c: Call)
    requires MembersInOrder(t.members) && Located(t)
    ensures MembersInOrder(Next(d, t, c).members)
  {
    var u := Next(d, t, c);
    CallEvolves(d, t, c);
    if |u.members| == |t.members| {
      SameKeysStayUnique(t.members, u.members);
    }
    CallKeepsRowsInOrder(d, t, c);
  }

  lemma CallKeepsRowsInOrder(d: Directory, t: Tables, c: Call)
    requires MembersInOrder(t.members)
    ensures forall k | 0 <= k < |Next(d, t, c).members| :: RowInOrder(Next(d, t, c).members[k])
  {
  }

  // ----- The invite table

  predicate InviteInOrder(d: Directory, i: Invite) {
    StampsAgree(i) && NormalEmail(d.lower, i.email) == i.email
  }

  predicate BothPending(i: Invite, j: Invite) {
    i.status == Pending && j.status == Pending && i.workspace == j.workspace && i.email == j.email
  }

  ghost predicate OnePending(invites: seq<Invite>) {
    forall i, j | 0 <= i < j < |invites| :: !BothPending(invites[i], invites[j])
  }

  ghost predicate InvitesInOrder(d: Directory, invites: seq<Invite>) {
    OnePending(invites) && forall k | 0 <= k < |invites| :: InviteInOrder(d, invites[k])
  }

  /** No invite becomes pending, and those that stay pending keep their address. */
  lemma FewerPending(xs: seq<Invite>, ys: seq<Invite>)
    requires OnePending(xs) && |xs| == |ys|
    requires forall k | 0 <= k < |xs| :: InviteEvolves(xs[k], ys[k])
    ensures OnePending(ys)
  {
    forall i, j | 0 <= i < j < |ys| ensures !BothPending(ys[i], ys[j]) {
      assert !BothPending(xs[i], xs[j]) && InviteEvolves(xs[i], ys[i]) && InviteEvolves(xs[j], ys[j]);
    }
  }

  lemma CreateInviteKeepsOrder(
    d: Directory, t: Tables, actor: UserId, ws: nat, address: string, role: RoleId, token: string, now: int)
    requires Stable(d.lower) && InvitesInOrder(d, t.invites)
    ensures InvitesInOrder(d, Kept(t, CreateInvite(d, t, actor, ws, address, role, token, now)).invites)
  {
    var s := CreateInvite(d, t, actor, ws, address, role, token, now);
    if s.Ok? {
      var email := NormalEmail(d.lower, address);
      NormalEmailIsFinal(d.lower, address);
      var revoked := RevokePending(t.invites, ws, email, now);
      FewerPending(t.invites, revoked);
      assert s.value.invites[..|revoked|] == revoked;
    }
  }

  lemma CallKeepsInvitesInOrder(d: Directory, t: Tables, c: Call)
    requires Stable(d.lower) && InvitesInOrder(d, t.invites)
    ensures InvitesInOrder(d, Next(d, t, c).invites)
  {
    match c {
      case CallInvite(actor, ws, address, role, token, now) =>
        CreateInviteKeepsOrder(d, t, actor, ws, address, role, token, now);
      case _ =>
        CallEvolves(d, t, c);
        NoNewInvites(d, t, c);
        EvolvedInvitesInOrder(d, t.invites, Next(d, t, c).invites);
    }
  }

  lemma NoNewInvites(d: Directory, t: Tables, c: Call)
    requires !c.CallInvite?
    ensures |Next(d, t, c).invites| == |t.invites|
  {
  }

  lemma EvolvedInvitesInOrder(d: Directory, xs: seq<Invite>, ys: seq<Invite>)
    requires InvitesInOrder(d, xs) && |xs| == |ys|
    requires forall k | 0 <= k < |xs| :: InviteEvolves(xs[k], ys[k])
    ensures InvitesInOrder(d, ys)
  {
    FewerPending(xs, ys);
    forall k | 0 <= k < |ys| ensures InviteInOrder(d, ys[k]) {
      assert InviteInOrder(d, xs[k]) && InviteEvolves(xs[k], ys[k]);
    }
  }

  /** Sending an invite never trips over the partial unique index: once the checks have passed it
      fails on a constraint exactly if the freshly drawn token is in use. */
  lemma InviteFailsOnlyOnToken(
    d: Directory, t: Tables, actor: UserId, ws: nat, address: string, role: RoleId, token: string, now: int)
    requires Stable(d.lower)
    ensures CreateInvite(d, t, actor, ws, address, role, token, now) == Err(Conflict)
       <==> && LiveWorkspace(t, ws) && role in d.roles
            && !AlreadyMember(d, t, ws, NormalEmail(d.lower, address))
            && exists k | 0 <= k < |t.invites| :: t.invites[k].token == token
  {
    var email := NormalEmail(d.lower, address);
    NormalEmailIsFinal(d.lower, address);
    var revoked := RevokePending(t.invites, ws, email, now);
    assert forall k | 0 <= k < |t.invites| :: revoked[k].token == t.invites[k].token;
    if k :| 0 <= k < |t.invites| && t.invites[k].token == token {
      assert revoked[k].token == token;
    }
  }

  // ----- Main results over all runs

  lemma {:induction false} MembersStayInOrder(d: Directory, calls: seq<Call>)
    ensures var t := Reached(d, calls); Located(t) && InvitesLocated(t) && MembersInOrder(t.members)
  {
    if calls != [] {
      var t, c := Reached(d, calls[..|calls| - 1]), calls[|calls| - 1];
      MembersStayInOrder(d, calls[..|calls| - 1]);
      CallKeepsLocated(d, t, c);
      CallKeepsMembersInOrder(d, t, c);
    }
  }

  /** At most one pending invite per workspace and address, at most one row per workspace and
      user, and every status agrees with its timestamps, after any run. */
  lemma {:induction false} TablesStayInOrder(d: Directory, calls: seq<Call>)
    requires Stable(d.lower)
    ensures var t := Reached(d, calls);
            && Located(t) && InvitesLocated(t)
            && MembersInOrder(t.members) && InvitesInOrder(d, t.invites)
  {
    MembersStayInOrder(d, calls);
    if calls != [] {
      TablesStayInOrder(d, calls[..|calls| - 1]);
      CallKeepsInvitesInOrder(d, Reached(d, calls[..|calls| - 1]), calls[|calls| - 1]);
    }
  }

  ghost predicate OwnedThroughout(d: Directory, calls: seq<Call>) {
    forall n: nat | n <= |calls| :: Owned(d, Reached(d, calls[..n]))
  }

  ghost predicate NoCallOrphans(d: Directory, calls: seq<Call>) {
    forall n: nat | n < |calls| :: !Orphans(d, Reached(d, calls[..n]), calls[n])
  }

  lemma NthCall(d: Directory, calls: seq<Call>, n: nat)
    requires n < |calls| && Owned(d, Reached(d, calls[..n]))
    ensures Owned(d, Reached(d, calls[..n + 1])) <==> !Orphans(d, Reached(d, calls[..n]), calls[n])
  {
    assert calls[..n + 1][..n] == calls[..n];
    MembersStayInOrder(d, calls[..n]);
    CallKeepsOwnersExactly(d, Reached(d, calls[..n]), calls[n]);
  }

  lemma {:induction false} OwnedUnlessOrphaned(d: Directory, calls: seq<Call>, n: nat)
    requires NoCallOrphans(d, calls) && n <= |calls|
    ensures Owned(d, Reached(d, calls[..n]))
  {
    if n > 0 {
      OwnedUnlessOrphaned(d, calls, n - 1);
      NthCall(d, calls, n - 1);
    }
  }

  /** Main result. Every workspace has a live active owner at every point of a run if and only if no
      call of the run is an owner's self-transfer to a lesser role with no other active owner. */
  lemma OwnedThroughoutExactly(d: Directory, calls: seq<Call>)
    ensures OwnedThroughout(d, calls) <==> NoCallOrphans(d, calls)
  {
    if NoCallOrphans(d, calls) {
      forall n: nat | n <= |calls| ensures Owned(d, Reached(d, calls[..n])) {
        OwnedUnlessOrphaned(d, calls, n);
      }
    }
    if OwnedThroughout(d, calls) {
      forall n: nat | n < |calls| ensures !Orphans(d, Reached(d, calls[..n]), calls[n]) {
        assert Owned(d, Reached(d, calls[..n])) && Owned(d, Reached(d, calls[..n + 1]));
        NthCall(d, calls, n);
      }
    }
  }

  /** Accepting: the invite ends up ACCEPTED exactly when its expiry lies after the repository's
      clock reading; otherwise it stays as it was, pending. Either way the user is a member. */
  lemma AcceptClosesInviteExactly(d: Directory, t: Tables, user: UserId, token: string, now: int, later: int)
    requires AcceptInvite(d, t, user, token, now, later).Ok?
    ensures var t', k := AcceptInvite(d, t, user, token, now, later).value, GetByToken(t.invites, token);
            && k.Some?
            && t.invites[k.value].status == Pending && now <= t.invites[k.value].expiresAt
            && (t'.invites[k.value].status == Accepted <==> later < t.invites[k.value].expiresAt)
            && (t'.invites[k.value].status != Accepted ==> t'.invites == t.invites)
            && GetMember(t'.members, t.invites[k.value].workspace, user).Some?
  {
    var t', k := AcceptInvite(d, t, user, token, now, later).value, GetByToken(t.invites, token);
    var ws := t.invites[k.value].workspace;
    var row := GetMember(t.members, ws, user);
    assert LiveRow(t'.members[if row.Some? then row.value else |t.members|], ws, user);
  }

  /** A resent invite is good for seven days from the resending and not a second longer: its
      addressee, unless removed before, can join exactly within that window. */
  lemma ResentInviteWindow(d: Directory, t: Tables, ws: nat, id: nat, sent: int, user: UserId, now: int, later: int)
    requires ResendInvite(t, ws, id, sent).Ok?
    requires GetByToken(t.invites, t.invites[id].token) == Some(id)
    requires user in d.emails && d.emails[user] == t.invites[id].email
    requires GetMember(t.members, ws, user).Some? || !RowTaken(t.members, ws, user)
    ensures AcceptInvite(d, ResendInvite(t, ws, id, sent).value, user, t.invites[id].token, now, later).Ok?
       <==> now <= sent + INVITE_LIFETIME
  {
    SameTokensSameLookup(t.invites, ResendInvite(t, ws, id, sent).value.invites, t.invites[id].token);
  }

  lemma {:induction false} SameTokensSameLookup(xs: seq<Invite>, ys: seq<Invite>, token: string)
    requires |xs| == |ys| && forall k | 0 <= k < |xs| :: xs[k].token == ys[k].token
    ensures GetByToken(xs, token) == GetByToken(ys, token)
  {
    if xs != [] {
      SameTokensSameLookup(xs[..|xs| - 1], ys[..|ys| - 1], token);
    }
  }

  /** The boundary is real: accepted in the very second it expires, an invite lets the user in
      and stays open. */
  lemma InviteCanStayOpen(d: Directory, owner: UserId, guest: UserId, role: RoleId)
    requires d.ownerRole.Some? && role in d.roles && d.lower('g') == "g"
    requires guest != owner && guest in d.emails && d.emails[guest] == "g"
    requires forall u | u in d.emails && d.emails[u] == "g" :: u == guest
    ensures var t := Reached(d, [CallCreate(owner, Some("a"), "A"), CallInvite(owner, 0, "g", role, "tok", 0),
                                 CallAccept(guest, "tok", INVITE_LIFETIME, INVITE_LIFETIME)]);
            && |t.members| == 2 && t.members[1].user == guest && t.members[1].status == Active
            && |t.invites| == 1 && t.invites[0].status == Pending
  {
    var c0, c1 := CallCreate(owner, Some("a"), "A"), CallInvite(owner, 0, "g", role, "tok", 0);
    var c2 := CallAccept(guest, "tok", INVITE_LIFETIME, INVITE_LIFETIME);
    var m := Member(0, owner, d.ownerRole.value, Active, None, None);
    var invite := Invite(0, "g", role, owner, "tok", Pending, None, None, INVITE_LIFETIME);
    var t1 := Tables([Workspace("a", owner, None)], [m], []);
    ThreeCalls(d, c0, c1, c2);
    assert Next(d, EMPTY, c0) == t1;
    GuestIsInvited(d, t1, owner, guest, role, m);
    GuestGetsIn(d, t1.(invites := [invite]), guest, m, invite);
  }

  lemma GuestIsInvited(d: Directory, t: Tables, owner: UserId, guest: UserId, role: RoleId, m: Member)
    requires role in d.roles && d.lower('g') == "g" && LiveWorkspace(t, 0)
    requires t.members == [m] && m.user != guest && t.invites == []
    requires forall u | u in d.emails && d.emails[u] == "g" :: u == guest
    ensures Next(d, t, CallInvite(owner, 0, "g", role, "tok", 0))
         == t.(invites := [Invite(0, "g", role, owner, "tok", Pending, None, None, INVITE_LIFETIME)])
  {
    GuestEmail(d.lower);
    assert GetMember([m], 0, guest) == None;
    assert RevokePending([], 0, "g", 0) == [];
  }

  lemma GuestGetsIn(d: Directory, t: Tables, guest: UserId, m: Member, v: Invite)
    requires guest in d.emails && d.emails[guest] == v.email
    requires t.members == [m] && m.user != guest && t.invites == [v]
    requires v.status == Pending && v.token == "tok" && v.expiresAt == INVITE_LIFETIME
    ensures Next(d, t, CallAccept(guest, "tok", INVITE_LIFETIME, INVITE_LIFETIME))
         == t.(members := [m, Member(v.workspace, guest, v.role, Active, None, Some(v.inviter))])
  {
    assert GetByToken([v], "tok") == Some(0);
    assert GetMember([m], v.workspace, guest) == None;
    assert !RowTaken([m], v.workspace, guest);
  }

  lemma ThreeCalls(d: Directory, c0: Call, c1: Call, c2: Call)
    ensures Reached(d, [c0, c1, c2]) == Next(d, Next(d, Next(d, EMPTY, c0), c1), c2)
  {
    assert Reached(d, [c0]) == Next(d, EMPTY, c0) by { assert [c0][..0] == []; }
    assert Reached(d, [c0, c1]) == Next(d, Reached(d, [c0]), c1) by { assert [c0, c1][..1] == [c0]; }
    assert [c0, c1, c2][..2] == [c0, c1];
  }

  lemma GuestEmail(lower: Casing)
    requires lower('g') == "g"
    ensures NormalEmail(lower, "g") == "g"
  {
    assert Lower(lower, "g") == "g" + Lower(lower, "") == "g";
    assert StripLeft("g", SPACES) == "g" && StripRight("g", SPACES) == "g";
  }

  /** The i-th member row was inserted by the k-th call: by creating the workspace, or by
      accepting an invite that named the user's email, with the role and inviter of the invite;
      and the invite is accepted for good if its expiry was still ahead. */
  ghost predicate Origin(d: Directory, calls: seq<Call>, i: nat, k: nat)
    requires i < |Reached(d, calls).members| && k < |calls|
  {
    var t, m := Reached(d, calls[..k]), Reached(d, calls).members[i];
    var u := Next(d, t, calls[k]);
    && |t.members| == i < |u.members|
    && match calls[k]
       case CallCreate(actor, _, _) =>
         m.invitedBy == None && m.user == actor && m.workspace == |t.workspaces| < |u.workspaces|
       case CallAccept(user, token, now, later) =>
         && user in d.emails && m.user == user
         && GetByToken(t.invites, token).Some?
         && var q := GetByToken(t.invites, token).value;
            InviteUsed(t.invites[q], d.emails[user], m) && u.members[i].role == t.invites[q].role
            && (later < t.invites[q].expiresAt ==>
                  q < |Reached(d, calls).invites| && Reached(d, calls).invites[q].status == Accepted)
       case _ => false
  }

  predicate InviteUsed(v: Invite, email: string, m: Member) {
    v.status == Pending && v.email == email && v.workspace == m.workspace && m.invitedBy == Some(v.inviter)
  }

  /** Later calls leave an origin standing. */
  lemma OriginPersists(d: Directory, before: seq<Call>, c: Call, i: nat, k: nat)
    requires i < |Reached(d, before).members| && k < |before| && Origin(d, before, i, k)
    ensures i < |Reached(d, before + [c]).members| && Origin(d, before + [c], i, k)
  {
    var calls, t := before + [c], Reached(d, before);
    assert calls[..|before|] == before && calls[..k] == before[..k];
    CallEvolves(d, t, c);
    assert MemberEvolves(t.members[i], Reached(d, calls).members[i]);
    if c.CallAccept? || before[k].CallAccept? {
      forall q | 0 <= q < |t.invites| ensures InviteEvolves(t.invites[q], Reached(d, calls).invites[q]) {}
    }
  }

  /** A row that a call inserts has that call for its origin. */
  lemma NewRowHasOrigin(d: Directory, before: seq<Call>, c: Call)
    requires |Reached(d, before).members| < |Reached(d, before + [c]).members|
    ensures |Reached(d, before + [c]).members| == |Reached(d, before).members| + 1
    ensures Origin(d, before + [c], |Reached(d, before).members|, |before|)
  {
    var calls := before + [c];
    assert calls[..|before|] == before && calls[|before|] == c;
  }

  /** Main result. Every member row of every run has an origin. */
  lemma {:induction false} EveryMemberHasOrigin(d: Directory, calls: seq<Call>, i: nat) returns (k: nat)
    requires i < |Reached(d, calls).members|
    ensures k < |calls| && Origin(d, calls, i, k)
    decreases |calls|
  {
    var before, c := calls[..|calls| - 1], calls[|calls| - 1];
    assert calls == before + [c];
    if i < |Reached(d, before).members| {
      k := EveryMemberHasOrigin(d, before, i);
      OriginPersists(d, before, c, i, k);
    } else {
      k := |before|;
      NewRowHasOrigin(d, before, c);
    }
  }
}
