// What the statements of access.dfy do to the rows, who may cause it, and what a call does
// when nothing else runs. Roles and conditions are spelled out on the tables.
module AccessAuthority {
  import opened Access

  // ---- Notes and rows ----

  // The note of an accepted invite is the row it writes, and no other row changes.
  lemma NoteIsRow(db: Db, call: Call, note: Note)
    requires note.Wrote? && Exec(db, call).notes == [note]
    ensures Exec(db, call).db.members == db.members[note.member := note.role]
    ensures call == AcceptWrite(note.member.user, note.token, note.member.org, note.role)
  {
    hide WithoutOrg, WithoutNode, WithoutStale, Register, Allowed, Usable;
  }

  // In every interleaving: a step that adds such a note writes that row and no other.
  lemma WrittenRows(steps: seq<Step>, i: nat, note: Note)
    ensures var s := Run(steps); var s' := Next(s, Advance(i));
      i < |s.calls| && note.Wrote? && s'.notes == s.notes + [note] ==>
        s'.db.members == s.db.members[note.member := note.role]
  {
    hide Exec;
    var s := Run(steps);
    if i < |s.calls| {
      var more := Exec(s.db, s.calls[i]).notes;
      assert (s.notes + more)[|s.notes|..] == more;
      assert (s.notes + [note])[|s.notes|..] == [note];
      if note.Wrote? && s.notes + more == s.notes + [note] { NoteIsRow(s.db, s.calls[i], note); }
    }
  }

  // Why a membership row is new or has changed.
  ghost predicate Accounted(steps: seq<Step>, db: Db, call: Call, m: Member, role: Role, notes: seq<Note>) {
    || (m.org.TeamOrg? && call == CreateOrganization(m.user, m.org.uuid) && role == Owner && m !in db.members)
    || (call == EnsurePersonal(m.user) && m.org == PersonalOrg(m.user) && role == Owner && m !in db.members)
    || (call == UpdateWrite(m.org, m.user, role) && AskedRole(steps, m, role))
    || (call.AcceptWrite? && notes == [Wrote(call.token, m, role)] && call.token in db.issued && db.issued[call.token].role == role)
  }

  // Someone asked to give the member that role.
  ghost predicate AskedRole(steps: seq<Step>, m: Member, role: Role) {
    exists actor :: Begin(UpdateCheck(actor, m.org, m.user, role)) in steps
  }

  // Someone asked to remove the member.
  ghost predicate AskedOut(steps: seq<Step>, m: Member) {
    exists actor :: Begin(RemoveCheck(actor, m.org, m.user)) in steps
  }

  lemma WriteAccounted(steps: seq<Step>, db: Db, call: Call, m: Member)
    requires MembersOk(db) && CallOk(db, call) && Authorized(steps, call) && WritesMembers(call)
    ensures var r := Exec(db, call);
      && (m in r.db.members && !(m in db.members && db.members[m] == r.db.members[m]) ==>
            Accounted(steps, db, call, m, r.db.members[m], r.notes))
      && (m in db.members && m !in r.db.members ==>
            (call == RemoveWrite(m.org, m.user) && AskedOut(steps, m)) || call == DeleteOrgWrite(m.org))
  {
    hide WithoutOrg, WithoutNode, WithoutStale, Register, Granted;
  }

  // Every membership row that appears or changes in a step is an owner's, made with its
  // organization; or has the role asked for in that call; or is an accepted invite's, with
  // the role of the invite. A row disappears only by a removal asked for or with its
  // organization.
  lemma RowsAccounted(steps: seq<Step>, i: nat, m: Member)
    ensures var s := Run(steps);
      i < |s.calls| ==>
        var r := Exec(s.db, s.calls[i]);
        && (m in r.db.members && !(m in s.db.members && s.db.members[m] == r.db.members[m]) ==>
              Accounted(steps, s.db, s.calls[i], m, r.db.members[m], r.notes))
        && (m in s.db.members && m !in r.db.members ==>
              (s.calls[i] == RemoveWrite(m.org, m.user) && AskedOut(steps, m)) || s.calls[i] == DeleteOrgWrite(m.org))
  {
    hide Exec, Authorized, CallOk, MembersOk, InvitesOk, ConfigsOk, Accounted;
    var s := Run(steps);
    RunOk(steps);
    RunAuthorized(steps);
    if i < |s.calls| {
      if WritesMembers(s.calls[i]) {
        WriteAccounted(steps, s.db, s.calls[i], m);
      } else {
        OthersKeepMembers(s.db, s.calls[i]);
      }
    }
  }

  // ---- Who was allowed to ----

  // The user's row in an existing organization is an owner's or, unless that is asked for,
  // an admin's.
  predicate HasRole(db: Db, user: nat, org: OrgId, asOwner: bool) {
    && org in db.orgs && Member(org, user) in db.members
    && (db.members[Member(org, user)] == Owner || (!asOwner && db.members[Member(org, user)] == Admin))
  }

  // At some moment of the run it was.
  ghost predicate Granted(steps: seq<Step>, user: nat, org: OrgId, asOwner: bool) {
    exists k :: 0 <= k <= |steps| && HasRole(Run(steps[..k]).db, user, org, asOwner)
  }

  // The call goes back to a request, and its author had the role that it takes.
  ghost predicate Authorized(steps: seq<Step>, call: Call) {
    match call
    case InviteInsert(org, email, role, token, expiresAt) =>
      exists actor :: Begin(InviteCheck(actor, org, email, role, token, expiresAt)) in steps && Granted(steps, actor, org, false)
    case UpdateLook(org, user, role) => MayUpdate(steps, org, user, role)
    case UpdateWrite(org, user, role) => MayUpdate(steps, org, user, role)
    case RemoveLook(org, user) => MayRemove(steps, org, user)
    case RemoveWrite(org, user) => MayRemove(steps, org, user)
    case RegisterLook(user, org, node, config) =>
      Begin(RegisterCheck(user, org, node, config)) in steps && Granted(steps, user, org, false)
    case RegisterBatch(user, org, node, config) =>
      Begin(RegisterCheck(user, org, node, config)) in steps && Granted(steps, user, org, false)
    case DeleteNodeCheck(user, node, org) => Begin(DeleteNodeLook(user, node)) in steps
    case DeleteNodeWrite(node, org) =>
      exists user :: Begin(DeleteNodeLook(user, node)) in steps && Granted(steps, user, org, false)
    case DeleteOrgWrite(org) =>
      exists user :: Begin(DeleteOrgCheck(user, org)) in steps && Granted(steps, user, org, true)
    case _ => IsEntry(call) ==> Begin(call) in steps
  }

  ghost predicate MayUpdate(steps: seq<Step>, org: OrgId, user: nat, role: Role) {
    exists actor :: Begin(UpdateCheck(actor, org, user, role)) in steps && Granted(steps, actor, org, false)
  }

  ghost predicate MayRemove(steps: seq<Step>, org: OrgId, user: nat) {
    exists actor :: Begin(RemoveCheck(actor, org, user)) in steps && Granted(steps, actor, org, false)
  }

  lemma GrantedStays(steps: seq<Step>, step: Step, user: nat, org: OrgId, asOwner: bool)
    requires Granted(steps, user, org, asOwner)
    ensures Granted(steps + [step], user, org, asOwner)
  {
    var k :| 0 <= k <= |steps| && HasRole(Run(steps[..k]).db, user, org, asOwner);
    assert (steps + [step])[..k] == steps[..k];
  }

  lemma GrantedNow(steps: seq<Step>, user: nat, org: OrgId, asOwner: bool)
    requires HasRole(Run(steps).db, user, org, asOwner)
    ensures Granted(steps, user, org, asOwner)
  {
    assert steps[..|steps|] == steps;
  }

  lemma AuthorizedStays(steps: seq<Step>, step: Step, call: Call)
    requires Authorized(steps, call)
    ensures Authorized(steps + [step], call)
  {
    hide Granted;
    forall user, org, asOwner | Granted(steps, user, org, asOwner) ensures Granted(steps + [step], user, org, asOwner) {
      GrantedStays(steps, step, user, org, asOwner);
    }
    assert forall x :: x in steps ==> x in steps + [step];
  }

  // A check lets a call go on only for those it may.
  lemma CheckAuthorizes(steps: seq<Step>, db: Db, call: Call)
    requires IsEntry(call) && Begin(call) in steps
    requires forall user, org, asOwner :: HasRole(db, user, org, asOwner) ==> Granted(steps, user, org, asOwner)
    ensures Authorized(steps, Exec(db, call).next)
  {
    hide WithoutOrg, WithoutNode, WithoutStale, Register, Granted;
    AllowedIs(db);
  }

  lemma AllowedIs(db: Db)
    ensures forall user, org :: Allowed(db, user, org, MemberManage) ==> HasRole(db, user, org, false)
    ensures forall user, org :: Allowed(db, user, org, NodeManage) ==> HasRole(db, user, org, false)
    ensures forall user, org :: Allowed(db, user, org, OrganizationManage) ==> HasRole(db, user, org, true)
  {
  }

  lemma LaterAuthorized(steps: seq<Step>, db: Db, call: Call)
    requires !IsEntry(call) && Authorized(steps, call)
    requires forall user, org, asOwner :: HasRole(db, user, org, asOwner) ==> Granted(steps, user, org, asOwner)
    ensures Authorized(steps, Exec(db, call).next)
  {
    hide WithoutOrg, WithoutNode, WithoutStale, Register, Granted;
    AllowedIs(db);
  }

  ghost predicate AllAuthorized(steps: seq<Step>, s: State) {
    forall i :: 0 <= i < |s.calls| ==> Authorized(steps, s.calls[i])
  }

  lemma NextAuthorized(steps: seq<Step>, step: Step)
    requires AllAuthorized(steps, Run(steps))
    ensures AllAuthorized(steps + [step], Next(Run(steps), step))
  {
    hide Exec, Authorized, Run;
    var s := Run(steps);
    var s' := Next(s, step);
    forall i | 0 <= i < |s'.calls| ensures Authorized(steps + [step], s'.calls[i]) {
      if i < |s.calls| {
        if s'.calls[i] == s.calls[i] {
          AuthorizedStays(steps, step, s.calls[i]);
        } else {
          ExecAuthorized(steps, s.db, s.calls[i]);
          AuthorizedStays(steps, step, s'.calls[i]);
        }
      } else {
        BegunAuthorized(steps, s'.calls[i]);
      }
    }
  }

  lemma ExecAuthorized(steps: seq<Step>, db: Db, call: Call)
    requires Authorized(steps, call) && db == Run(steps).db
    ensures Authorized(steps, Exec(db, call).next)
  {
    hide Exec, Granted, Run, HasRole;
    forall user, org, asOwner | HasRole(db, user, org, asOwner) ensures Granted(steps, user, org, asOwner) {
      GrantedNow(steps, user, org, asOwner);
    }
    if IsEntry(call) {
      CheckAuthorizes(steps, db, call);
    } else {
      LaterAuthorized(steps, db, call);
    }
  }

  lemma BegunAuthorized(steps: seq<Step>, call: Call)
    requires IsEntry(call)
    ensures Authorized(steps + [Begin(call)], call)
  {
    assert Begin(call) in steps + [Begin(call)];
  }

  // In every interleaving, whatever call is about to insert an invite, look at or write a
  // membership, register or delete a node or delete an organization goes back to a request
  // whose author was an admin or owner of that organization, for its deletion the owner.
  lemma {:induction false} RunAuthorized(steps: seq<Step>)
    ensures AllAuthorized(steps, Run(steps))
  {
    if steps != [] {
      hide AllAuthorized;
      var front, step := steps[..|steps| - 1], steps[|steps| - 1];
      RunAuthorized(front);
      NextAuthorized(front, step);
      assert front + [step] == steps;
    }
  }

  // ---- Calls on their own ----

  // n statements of one call with nothing in between.
  function Alone(db: Db, call: Call, n: nat): Db
    decreases n
  {
    if n == 0 then db else Alone(Exec(db, call).db, Exec(db, call).next, n - 1)
  }

  lemma Alone2(db: Db, call: Call)
    ensures var a := Exec(db, call); Alone(db, call, 2) == Exec(a.db, a.next).db
  {
    var a := Exec(db, call);
    assert Alone(a.db, a.next, 1) == Alone(Exec(a.db, a.next).db, Exec(a.db, a.next).next, 0);
  }

  lemma Alone3(db: Db, call: Call)
    ensures var a := Exec(db, call); var b := Exec(a.db, a.next); Alone(db, call, 3) == Exec(b.db, b.next).db
  {
    hide Exec;
    var a := Exec(db, call);
    Alone2(a.db, a.next);
  }

  lemma Alone4(db: Db, call: Call)
    ensures var a := Exec(db, call); var b := Exec(a.db, a.next); var c := Exec(b.db, b.next);
      Alone(db, call, 4) == Exec(c.db, c.next).db
  {
    hide Exec;
    var a := Exec(db, call);
    Alone3(a.db, a.next);
  }

  // createInvite: an admin or owner of a team invites, to any role but owner, with a token
  // never drawn before.
  lemma InviteAlone(db: Db, user: nat, org: OrgId, email: nat, role: Role, token: nat, expiresAt: nat)
    ensures var row := Invite(org, email, role, expiresAt, false);
      Alone(db, InviteCheck(user, org, email, role, token, expiresAt), 2) ==
        if HasRole(db, user, org, false) && org.TeamOrg? && role != Owner && token !in db.issued
        then db.(invites := db.invites[token := row], issued := db.issued[token := row])
        else db
  {
    hide WithoutOrg, WithoutNode, WithoutStale, Register, Alone;
    Alone2(db, InviteCheck(user, org, email, role, token, expiresAt));
  }

  // acceptInvite: with the email of the invite, not consumed and in time, the user becomes a
  // member of the team with the invite's role.
  lemma AcceptAlone(db: Db, user: nat, email: nat, token: nat, now: nat)
    ensures Alone(db, AcceptSelect(user, email, token, now), 4) ==
      if token in db.invites && db.invites[token].email == email && !db.invites[token].consumed
         && now <= db.invites[token].expiresAt && db.invites[token].org.TeamOrg? && db.invites[token].org in db.orgs
      then var row := db.invites[token];
        db.(invites := db.invites[token := row.(consumed := true)], members := db.members[Member(row.org, user) := row.role])
      else db
  {
    hide WithoutOrg, WithoutNode, WithoutStale, Register, Alone, Exec;
    Alone4(db, AcceptSelect(user, email, token, now));
    AcceptStarts(db, user, email, token, now);
    DoneStays(db);
    if Usable(db, token, email, now) && db.invites[token].org in db.orgs {
      AcceptEnds(db, user, email, token, now);
    }
  }

  lemma DoneStays(db: Db)
    ensures Exec(db, Done) == Result(db, Done, [])
  {
  }

  lemma AcceptStarts(db: Db, user: nat, email: nat, token: nat, now: nat)
    ensures Exec(db, AcceptSelect(user, email, token, now)) ==
      Result(db, if Usable(db, token, email, now) then AcceptOrg(user, email, token, now, db.invites[token].org) else Done, [])
    ensures Usable(db, token, email, now) ==> var org := db.invites[token].org;
      Exec(db, AcceptOrg(user, email, token, now, org)) ==
        Result(db, if org in db.orgs && org.TeamOrg? then AcceptConsume(user, email, token, now) else Done, [])
  {
    hide WithoutOrg, WithoutNode, WithoutStale, Register;
  }

  lemma AcceptEnds(db: Db, user: nat, email: nat, token: nat, now: nat)
    requires Usable(db, token, email, now) && db.invites[token].org in db.orgs
    ensures var row := db.invites[token]; var b := Exec(db, AcceptConsume(user, email, token, now));
      && b.db == db.(invites := db.invites[token := row.(consumed := true)]) && b.next == AcceptWrite(user, token, row.org, row.role)
      && Exec(b.db, b.next).db == b.db.(members := db.members[Member(row.org, user) := row.role])
  {
    hide WithoutOrg, WithoutNode, WithoutStale, Register;
  }

  // updateMemberRole: an admin or owner gives a member who is no owner any role but owner.
  lemma UpdateAlone(db: Db, actor: nat, org: OrgId, user: nat, role: Role)
    ensures var m := Member(org, user);
      Alone(db, UpdateCheck(actor, org, user, role), 3) ==
        if HasRole(db, actor, org, false) && role != Owner && m in db.members && db.members[m] != Owner
        then db.(members := db.members[m := role]) else db
  {
    hide WithoutOrg, WithoutNode, WithoutStale, Register, Alone;
    Alone3(db, UpdateCheck(actor, org, user, role));
  }

  // removeMember: an admin or owner removes a member who is no owner.
  lemma RemoveAlone(db: Db, actor: nat, org: OrgId, user: nat)
    ensures var m := Member(org, user);
      Alone(db, RemoveCheck(actor, org, user), 3) ==
        if HasRole(db, actor, org, false) && m in db.members && db.members[m] != Owner
        then db.(members := db.members - {m}) else db
  {
    hide WithoutOrg, WithoutNode, WithoutStale, Register, Alone;
    Alone3(db, RemoveCheck(actor, org, user));
  }

  lemma RegisterIs(db: Db, user: nat, org: OrgId, node: nat, config: Config)
    requires org in db.orgs && (node in db.nodes ==> db.nodes[node] == org)
    ensures Register(db, user, org, node, config) ==
      db.(nodes := db.nodes[node := org],
          configs := if config.DirectConfig? then db.configs[ConfigKey(node, user) := config.ciphertext] else db.configs)
  {
    if node in db.nodes { assert db.nodes[node := db.nodes[node]] == db.nodes; }
  }

  // registerNode: an admin or owner registers a node that is new or already of the
  // organization, with the direct config if one is given.
  lemma RegisterAlone(db: Db, user: nat, org: OrgId, node: nat, config: Config)
    ensures Alone(db, RegisterCheck(user, org, node, config), 3) ==
      if HasRole(db, user, org, false) && (node in db.nodes ==> db.nodes[node] == org)
      then db.(nodes := db.nodes[node := org],
               configs := if config.DirectConfig? then db.configs[ConfigKey(node, user) := config.ciphertext] else db.configs)
      else db
  {
    hide WithoutOrg, WithoutNode, WithoutStale, Register, Alone, Exec;
    Alone3(db, RegisterCheck(user, org, node, config));
    RegisterSteps(db, user, org, node, config);
    DoneStays(db);
    if HasRole(db, user, org, false) && (node in db.nodes ==> db.nodes[node] == org) {
      RegisterIs(db, user, org, node, config);
    }
  }

  lemma RegisterSteps(db: Db, user: nat, org: OrgId, node: nat, config: Config)
    ensures Exec(db, RegisterCheck(user, org, node, config)) ==
      Result(db, if HasRole(db, user, org, false) then RegisterLook(user, org, node, config) else Done, [])
    ensures Exec(db, RegisterLook(user, org, node, config)) ==
      Result(db, if node in db.nodes && db.nodes[node] != org then Done else RegisterBatch(user, org, node, config), [])
    ensures Exec(db, RegisterBatch(user, org, node, config)) == Result(Register(db, user, org, node, config), Done, [])
  {
    hide WithoutOrg, WithoutNode, WithoutStale, Register;
  }

  // deleteNode: an admin or owner of the node's organization deletes it with its configs.
  lemma DeleteNodeAlone(db: Db, user: nat, node: nat)
    ensures var after := Alone(db, DeleteNodeLook(user, node), 3);
      if node in db.nodes && HasRole(db, user, db.nodes[node], false)
      then after == db.(nodes := db.nodes - {node}, configs := after.configs)
        && forall k :: (k in after.configs <==> k in db.configs && k.node != node)
                       && (k in after.configs ==> after.configs[k] == db.configs[k])
      else after == db
  {
    hide WithoutOrg, WithoutNode, WithoutStale, Register, Alone;
    Alone3(db, DeleteNodeLook(user, node));
  }

  // Deleting an organization: the owner of a team; exactly its own rows go.
  lemma DeleteOrgAlone(db: Db, user: nat, org: OrgId)
    ensures var after := Alone(db, DeleteOrgCheck(user, org), 2);
      if HasRole(db, user, org, true) && org.TeamOrg?
      then after == WithoutOrg(db, org)
      else after == db
  {
    hide WithoutOrg, WithoutNode, WithoutStale, Register, Alone;
    Alone2(db, DeleteOrgCheck(user, org));
  }

  lemma OrgRowsGo(db: Db, org: OrgId)
    ensures var after := WithoutOrg(db, org);
      && after.orgs == db.orgs - {org}
      && (forall m :: (m in after.members <==> m in db.members && m.org != org) && (m in after.members ==> after.members[m] == db.members[m]))
      && (forall t :: (t in after.invites <==> t in db.invites && db.invites[t].org != org) && (t in after.invites ==> after.invites[t] == db.invites[t]))
      && (forall n :: (n in after.nodes <==> n in db.nodes && db.nodes[n] != org) && (n in after.nodes ==> after.nodes[n] == db.nodes[n]))
      && (forall k :: (k in after.configs <==> k in db.configs && k.node in after.nodes) && (k in after.configs ==> after.configs[k] == db.configs[k]))
  {
  }

  // createOrganization with a fresh id, in one statement.
  lemma CreateAlone(db: Db, user: nat, uuid: nat)
    requires uuid !in db.teams
    ensures Exec(db, CreateOrganization(user, uuid)).db ==
      db.(orgs := db.orgs + {TeamOrg(uuid)}, teams := db.teams + {uuid},
          members := db.members[Member(TeamOrg(uuid), user) := Owner])
  {
  }

  // ensurePersonalOrganization, in one statement, which changes nothing the second time.
  lemma EnsureAlone(db: Db, user: nat)
    ensures var m := Member(PersonalOrg(user), user); var after := Exec(db, EnsurePersonal(user)).db;
      && after == db.(orgs := db.orgs + {PersonalOrg(user)}, members := after.members)
      && after.members == (if m in db.members then db.members else db.members[m := Owner])
      && Exec(after, EnsurePersonal(user)).db == after
  {
    assert db.orgs + {PersonalOrg(user)} + {PersonalOrg(user)} == db.orgs + {PersonalOrg(user)};
  }

  // The periodic job: exactly the invites consumed or out of date go.
  lemma CleanUpAlone(db: Db, now: nat)
    ensures var after := Exec(db, CleanUp(now)).db;
      && after == db.(invites := after.invites)
      && forall t :: (t in after.invites <==> t in db.invites && now <= db.invites[t].expiresAt && !db.invites[t].consumed)
                     && (t in after.invites ==> after.invites[t] == db.invites[t])
  {
  }
}
