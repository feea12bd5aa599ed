// Organizations, memberships, invites and nodes of controller/src/access.ts. Each
// database statement or batch is one atomic step; the statements of concurrent calls
// interleave in any order. The hosted preview gives every organization the unlimited
// plan, so plan checks always pass.
module Access {

  datatype Role = Viewer | Operator | Admin | Owner

  // Actions that the calls below ask for.
  datatype Action = MemberManage | NodeManage | OrganizationManage

  // roleAllows, for those actions
  predicate RoleAllows(role: Role, action: Action) {
    match action
    case MemberManage => role.Admin? || role.Owner?
    case NodeManage => role.Admin? || role.Owner?
    case OrganizationManage => role.Owner?
  }

  // org_personal_<user> or org_<uuid>: the kind of an organization shows in its id.
  datatype OrgId = PersonalOrg(user: nat) | TeamOrg(uuid: nat)

  datatype Member = Member(org: OrgId, user: nat)

  datatype Invite = Invite(org: OrgId, email: nat, role: Role, expiresAt: nat, consumed: bool)

  datatype ConfigKey = ConfigKey(node: nat, user: nat)

  // The tables. teams and issued remember every team id and token ever drawn: both come
  // from a random generator and do not repeat, even after their rows are deleted.
  datatype Db = Db(orgs: set<OrgId>, members: map<Member, Role>, invites: map<nat, Invite>,
                   nodes: map<nat, OrgId>, configs: map<ConfigKey, nat>,
                   teams: set<nat>, issued: map<nat, Invite>)

  // A call and the statement it runs next.
  datatype Call =
    | Done
    | CreateOrganization(user: nat, uuid: nat)
    | EnsurePersonal(user: nat)
    | InviteCheck(user: nat, org: OrgId, email: nat, role: Role, token: nat, expiresAt: nat)
    | InviteInsert(org: OrgId, email: nat, role: Role, token: nat, expiresAt: nat)
    | AcceptSelect(user: nat, email: nat, token: nat, now: nat)
    | AcceptOrg(user: nat, email: nat, token: nat, now: nat, org: OrgId)
    | AcceptConsume(user: nat, email: nat, token: nat, now: nat)
    | AcceptWrite(user: nat, token: nat, org: OrgId, role: Role)
    | UpdateCheck(actor: nat, org: OrgId, user: nat, role: Role)
    | UpdateLook(org: OrgId, user: nat, role: Role)
    | UpdateWrite(org: OrgId, user: nat, role: Role)
    | RemoveCheck(actor: nat, org: OrgId, user: nat)
    | RemoveLook(org: OrgId, user: nat)
    | RemoveWrite(org: OrgId, user: nat)
    | RegisterCheck(user: nat, org: OrgId, node: nat, config: Config)
    | RegisterLook(user: nat, org: OrgId, node: nat, config: Config)
    | RegisterBatch(user: nat, org: OrgId, node: nat, config: Config)
    | DeleteNodeLook(user: nat, node: nat)
    | DeleteNodeCheck(user: nat, node: nat, org: OrgId)
    | DeleteNodeWrite(node: nat, org: OrgId)
    | DeleteOrgCheck(user: nat, org: OrgId)
    | DeleteOrgWrite(org: OrgId)
    | CleanUp(now: nat)

  datatype Config = NoConfig | DirectConfig(ciphertext: nat)

  // What acceptInvite has done so far, over all calls.
  datatype Note = Consumed(token: nat) | Wrote(token: nat, member: Member, role: Role)

  datatype Result = Result(db: Db, next: Call, notes: seq<Note>)

  // requireOrganizationAction
  predicate Allowed(db: Db, user: nat, org: OrgId, action: Action) {
    org in db.orgs && Member(org, user) in db.members && RoleAllows(db.members[Member(org, user)], action)
  }

  predicate Usable(db: Db, token: nat, email: nat, now: nat) {
    token in db.invites && db.invites[token].email == email && !db.invites[token].consumed && db.invites[token].expiresAt >= now
  }

  // ON DELETE CASCADE
  function WithoutOrg(db: Db, org: OrgId): (r: Db)
    ensures r.teams == db.teams && r.issued == db.issued && r.orgs == db.orgs - {org}
    ensures forall m :: m in r.members <==> m in db.members && m.org != org
    ensures forall m :: m in r.members ==> r.members[m] == db.members[m]
    ensures forall t :: t in r.invites ==> t in db.invites && r.invites[t] == db.invites[t]
    ensures forall n :: n in r.nodes ==> n in db.nodes && r.nodes[n] == db.nodes[n]
    ensures forall k :: k in r.configs ==> k in db.configs && k.node in r.nodes && r.configs[k] == db.configs[k]
  {
    var nodes := map n | n in db.nodes && db.nodes[n] != org :: db.nodes[n];
    db.(orgs := db.orgs - {org},
        members := map m | m in db.members && m.org != org :: db.members[m],
        invites := map t | t in db.invites && db.invites[t].org != org :: db.invites[t],
        nodes := nodes,
        configs := map k | k in db.configs && k.node in nodes :: db.configs[k])
  }

  function WithoutNode(db: Db, node: nat): (r: Db)
    ensures r == db.(nodes := r.nodes, configs := r.configs) && r.nodes == db.nodes - {node}
    ensures forall k :: k in r.configs <==> k in db.configs && k.node != node
    ensures forall k :: k in r.configs ==> r.configs[k] == db.configs[k]
  {
    db.(nodes := db.nodes - {node}, configs := map k | k in db.configs && k.node != node :: db.configs[k])
  }

  // Spent and expired invites are deleted by a periodic job.
  function WithoutStale(db: Db, now: nat): (r: Db)
    ensures r == db.(invites := r.invites)
    ensures forall t :: t in r.invites <==> t in db.invites && db.invites[t].expiresAt >= now && !db.invites[t].consumed
    ensures forall t :: t in r.invites ==> r.invites[t] == db.invites[t]
  {
    db.(invites := map t | t in db.invites && db.invites[t].expiresAt >= now && !db.invites[t].consumed :: db.invites[t])
  }

  // The batch of registerNode: the upsert keeps a row of another organization as it is,
  // and the direct config is written only if the node is now the caller's. A new row
  // needs its organization to exist.
  function Register(db: Db, user: nat, org: OrgId, node: nat, config: Config): (r: Db)
    ensures r == db.(nodes := r.nodes, configs := r.configs)
    ensures forall n :: n in r.nodes <==> n in db.nodes || (n == node && org in db.orgs)
    ensures forall n :: n in r.nodes ==> r.nodes[n] == if n in db.nodes then db.nodes[n] else org
    ensures forall k :: k in r.configs ==>
      if k == ConfigKey(node, user) && config.DirectConfig? && node in r.nodes && r.nodes[node] == org then r.configs[k] == config.ciphertext
      else k in db.configs && r.configs[k] == db.configs[k]
  {
    if node !in db.nodes && org !in db.orgs then db
    else
      var nodes := if node in db.nodes then db.nodes else db.nodes[node := org];
      db.(nodes := nodes,
          configs := if config.DirectConfig? && nodes[node] == org then db.configs[ConfigKey(node, user) := config.ciphertext] else db.configs)
  }

  // The next statement of a call.
  function Exec(db: Db, call: Call): Result {
    match call
    case Done => Result(db, Done, [])
    case CreateOrganization(user, uuid) =>
      if uuid in db.teams then Result(db, Done, [])
      else
        Result(db.(orgs := db.orgs + {TeamOrg(uuid)}, teams := db.teams + {uuid},
                   members := db.members[Member(TeamOrg(uuid), user) := Owner]), Done, [])
    case EnsurePersonal(user) =>
      var m := Member(PersonalOrg(user), user);
      Result(db.(orgs := db.orgs + {PersonalOrg(user)},
                 members := if m in db.members then db.members else db.members[m := Owner]), Done, [])
    case InviteCheck(user, org, email, role, token, expiresAt) =>
      if Allowed(db, user, org, MemberManage) && org.TeamOrg? && !role.Owner?
      then Result(db, InviteInsert(org, email, role, token, expiresAt), [])
      else Result(db, Done, [])
    case InviteInsert(org, email, role, token, expiresAt) =>
      var row := Invite(org, email, role, expiresAt, false);
      if token in db.issued || org !in db.orgs then Result(db, Done, [])
      else Result(db.(invites := db.invites[token := row], issued := db.issued[token := row]), Done, [])
    case AcceptSelect(user, email, token, now) =>
      if Usable(db, token, email, now) then Result(db, AcceptOrg(user, email, token, now, db.invites[token].org), [])
      else Result(db, Done, [])
    case AcceptOrg(user, email, token, now, org) =>
      if org in db.orgs && org.TeamOrg? then Result(db, AcceptConsume(user, email, token, now), [])
      else Result(db, Done, [])
    case AcceptConsume(user, email, token, now) =>
      if Usable(db, token, email, now) then
        var row := db.invites[token];
        Result(db.(invites := db.invites[token := row.(consumed := true)]), AcceptWrite(user, token, row.org, row.role), [Consumed(token)])
      else Result(db, Done, [])
    case AcceptWrite(user, token, org, role) =>
      if org in db.orgs then
        Result(db.(members := db.members[Member(org, user) := role]), Done, [Wrote(token, Member(org, user), role)])
      else Result(db, Done, [])
    case UpdateCheck(actor, org, user, role) =>
      if Allowed(db, actor, org, MemberManage) && !role.Owner? then Result(db, UpdateLook(org, user, role), [])
      else Result(db, Done, [])
    case UpdateLook(org, user, role) =>
      if Member(org, user) in db.members && !db.members[Member(org, user)].Owner?
      then Result(db, UpdateWrite(org, user, role), []) else Result(db, Done, [])
    case UpdateWrite(org, user, role) =>
      Result(db.(members := if Member(org, user) in db.members then db.members[Member(org, user) := role] else db.members), Done, [])
    case RemoveCheck(actor, org, user) =>
      if Allowed(db, actor, org, MemberManage) then Result(db, RemoveLook(org, user), []) else Result(db, Done, [])
    case RemoveLook(org, user) =>
      if Member(org, user) in db.members && !db.members[Member(org, user)].Owner?
      then Result(db, RemoveWrite(org, user), []) else Result(db, Done, [])
    case RemoveWrite(org, user) =>
      Result(db.(members := db.members - {Member(org, user)}), Done, [])
    case RegisterCheck(user, org, node, config) =>
      if Allowed(db, user, org, NodeManage) then Result(db, RegisterLook(user, org, node, config), [])
      else Result(db, Done, [])
    case RegisterLook(user, org, node, config) =>
      if node in db.nodes && db.nodes[node] != org then Result(db, Done, [])
      else Result(db, RegisterBatch(user, org, node, config), [])
    case RegisterBatch(user, org, node, config) =>
      Result(Register(db, user, org, node, config), Done, [])
    case DeleteNodeLook(user, node) =>
      if node in db.nodes then Result(db, DeleteNodeCheck(user, node, db.nodes[node]), []) else Result(db, Done, [])
    case DeleteNodeCheck(user, node, org) =>
      if Allowed(db, user, org, NodeManage) then Result(db, DeleteNodeWrite(node, org), []) else Result(db, Done, [])
    case DeleteNodeWrite(node, org) =>
      if node in db.nodes && db.nodes[node] == org then
        Result(WithoutNode(db, node), Done, [])
      else Result(db, Done, [])
    case DeleteOrgCheck(user, org) =>
      if Allowed(db, user, org, OrganizationManage) && org.TeamOrg? then Result(db, DeleteOrgWrite(org), [])
      else Result(db, Done, [])
    case DeleteOrgWrite(org) =>
      Result(WithoutOrg(db, org), Done, [])
    case CleanUp(now) =>
      Result(WithoutStale(db, now), Done, [])
  }

  // ---- Runs ----

  datatype State = State(db: Db, calls: seq<Call>, notes: seq<Note>)

  // A new call begins at its first statement; or a call in progress runs its next one.
  datatype Step = Begin(call: Call) | Advance(i: nat)

  predicate IsEntry(call: Call) {
    || call.CreateOrganization? || call.EnsurePersonal? || call.InviteCheck? || call.AcceptSelect?
    || call.UpdateCheck? || call.RemoveCheck? || call.RegisterCheck? || call.DeleteNodeLook?
    || call.DeleteOrgCheck? || call.CleanUp?
  }

  const EMPTY := State(Db({}, map[], map[], map[], map[], {}, map[]), [], [])

  function Next(s: State, step: Step): State {
    match step
    case Begin(call) => if IsEntry(call) then s.(calls := s.calls + [call]) else s
    case Advance(i) =>
      if i >= |s.calls| then s
      else
        var r := Exec(s.db, s.calls[i]);
        State(r.db, s.calls[i := r.next], s.notes + r.notes)
  }

  function Run(steps: seq<Step>): State {
    if steps == [] then EMPTY else Next(Run(steps[..|steps| - 1]), steps[|steps| - 1])
  }

  // ---- What every interleaving keeps ----

  // Memberships belong to existing organizations, teams to ids that were drawn, and a
  // personal organization has only owner rows.
  ghost predicate MembersOk(db: Db) {
    && (forall o :: o in db.orgs && o.TeamOrg? ==> o.uuid in db.teams)
    && (forall m :: m in db.members ==> m.org in db.orgs)
    && (forall m :: m in db.members && m.org.PersonalOrg? ==> db.members[m].Owner?)
  }

  // Invites are for teams, never make an owner, and change only by being consumed.
  ghost predicate InvitesOk(db: Db) {
    && (forall t :: t in db.issued ==> !db.issued[t].role.Owner? && db.issued[t].org.TeamOrg?)
    && (forall t :: t in db.invites ==> t in db.issued && db.invites[t].(consumed := false) == db.issued[t])
  }

  ghost predicate ConfigsOk(db: Db) {
    forall k :: k in db.configs ==> k.node in db.nodes
  }

  ghost predicate DbOk(db: Db) {
    MembersOk(db) && InvitesOk(db) && ConfigsOk(db)
  }

  // A call about to update or delete a membership row meets no owner there.
  ghost predicate TargetsNoOwner(db: Db, org: OrgId, user: nat) {
    && org.TeamOrg? && org.uuid in db.teams
    && (Member(org, user) in db.members ==> !db.members[Member(org, user)].Owner?)
  }

  ghost predicate CallOk(db: Db, call: Call) {
    match call
    case InviteInsert(org, _, role, _, _) => !role.Owner? && org.TeamOrg?
    case AcceptWrite(_, token, org, role) =>
      token in db.issued && db.issued[token].org == org && db.issued[token].role == role
    case UpdateLook(_, _, role) => !role.Owner?
    case UpdateWrite(org, user, role) => !role.Owner? && TargetsNoOwner(db, org, user)
    case RemoveWrite(org, user) => TargetsNoOwner(db, org, user)
    case DeleteOrgWrite(org) => org.TeamOrg?
    case _ => true
  }

  // The statements that write organizations or membership rows, invites, and nodes or
  // their configs.
  predicate WritesMembers(call: Call) {
    || call.CreateOrganization? || call.EnsurePersonal? || call.AcceptWrite?
    || call.UpdateWrite? || call.RemoveWrite? || call.DeleteOrgWrite?
  }

  predicate WritesInvites(call: Call) {
    call.InviteInsert? || call.AcceptConsume? || call.CleanUp? || call.DeleteOrgWrite?
  }

  predicate WritesNodes(call: Call) {
    call.RegisterBatch? || call.DeleteNodeWrite? || call.DeleteOrgWrite?
  }

  lemma OthersKeepMembers(db: Db, call: Call)
    requires !WritesMembers(call)
    ensures var db' := Exec(db, call).db; db'.members == db.members && db'.orgs == db.orgs && db'.teams == db.teams
  {
    hide WithoutOrg, WithoutNode, WithoutStale, Register, Allowed, Usable;
  }

  lemma OthersKeepInvites(db: Db, call: Call)
    requires !WritesInvites(call)
    ensures var db' := Exec(db, call).db; db'.invites == db.invites && db'.issued == db.issued
  {
    hide WithoutOrg, WithoutNode, WithoutStale, Register, Allowed, Usable;
  }

  lemma OthersKeepNodes(db: Db, call: Call)
    requires !WritesNodes(call)
    ensures var db' := Exec(db, call).db; db'.nodes == db.nodes && db'.configs == db.configs
  {
    hide WithoutOrg, WithoutNode, WithoutStale, Register, Allowed, Usable;
  }

  lemma WriteKeepsMembers(db: Db, call: Call)
    requires MembersOk(db) && InvitesOk(db) && CallOk(db, call) && WritesMembers(call)
    ensures MembersOk(Exec(db, call).db)
  {
    hide WithoutOrg, WithoutNode, WithoutStale, Register;
  }

  lemma WriteKeepsInvites(db: Db, call: Call)
    requires InvitesOk(db) && CallOk(db, call) && WritesInvites(call)
    ensures InvitesOk(Exec(db, call).db)
  {
    hide WithoutOrg, WithoutNode, WithoutStale, Register;
  }

  lemma WriteKeepsConfigs(db: Db, call: Call)
    requires ConfigsOk(db) && WritesNodes(call)
    ensures ConfigsOk(Exec(db, call).db)
  {
    hide WithoutOrg, WithoutNode, WithoutStale, Register;
  }

  lemma ExecKeepsMembers(db: Db, call: Call)
    requires MembersOk(db) && InvitesOk(db) && CallOk(db, call)
    ensures MembersOk(Exec(db, call).db)
  {
    hide Exec, CallOk, InvitesOk;
    if WritesMembers(call) { WriteKeepsMembers(db, call); } else { OthersKeepMembers(db, call); }
  }

  lemma ExecKeepsInvites(db: Db, call: Call)
    requires InvitesOk(db) && CallOk(db, call)
    ensures InvitesOk(Exec(db, call).db)
  {
    hide Exec, CallOk;
    if WritesInvites(call) { WriteKeepsInvites(db, call); } else { OthersKeepInvites(db, call); }
  }

  lemma ExecKeepsConfigs(db: Db, call: Call)
    requires ConfigsOk(db)
    ensures ConfigsOk(Exec(db, call).db)
  {
    hide Exec;
    if WritesNodes(call) { WriteKeepsConfigs(db, call); } else { OthersKeepNodes(db, call); }
  }

  lemma ExecKeepsDb(db: Db, call: Call)
    requires DbOk(db) && CallOk(db, call)
    ensures DbOk(Exec(db, call).db)
  {
    hide Exec, CallOk;
    ExecKeepsMembers(db, call);
    ExecKeepsInvites(db, call);
    ExecKeepsConfigs(db, call);
  }

  lemma ExecKeepsOwn(db: Db, call: Call)
    requires DbOk(db) && CallOk(db, call)
    ensures CallOk(Exec(db, call).db, Exec(db, call).next)
  {
    hide WithoutOrg, WithoutNode, WithoutStale, Register;
  }

  lemma ExecRemembers(db: Db, call: Call)
    ensures var db' := Exec(db, call).db;
      db.teams <= db'.teams && forall t :: t in db.issued ==> t in db'.issued && db'.issued[t] == db.issued[t]
  {
    hide Exec;
    if WritesMembers(call) { WriteRemembersTeams(db, call); } else { OthersKeepMembers(db, call); }
    if WritesInvites(call) { WriteRemembersIssued(db, call); } else { OthersKeepInvites(db, call); }
  }

  lemma WriteRemembersTeams(db: Db, call: Call)
    requires WritesMembers(call)
    ensures db.teams <= Exec(db, call).db.teams
  {
    hide WithoutOrg, WithoutNode, WithoutStale, Register;
  }

  lemma WriteRemembersIssued(db: Db, call: Call)
    requires WritesInvites(call)
    ensures var db' := Exec(db, call).db; forall t :: t in db.issued ==> t in db'.issued && db'.issued[t] == db.issued[t]
  {
    hide WithoutOrg, WithoutNode, WithoutStale, Register;
  }

  // No row becomes an owner's, except a new one in a personal organization or in a team
  // just created.
  ghost predicate NewOwner(db: Db, db': Db, m: Member) {
    m in db'.members && db'.members[m].Owner? && !(m in db.members && db.members[m].Owner?)
  }

  lemma WriteMakesNoOwner(db: Db, call: Call, m: Member)
    requires MembersOk(db) && InvitesOk(db) && CallOk(db, call) && WritesMembers(call)
    ensures NewOwner(db, Exec(db, call).db, m) ==> m !in db.members && (m.org.PersonalOrg? || m.org.uuid !in db.teams)
  {
    hide WithoutOrg, WithoutNode, WithoutStale, Register;
  }

  lemma ExecMakesNoOwner(db: Db, call: Call, m: Member)
    requires MembersOk(db) && InvitesOk(db) && CallOk(db, call)
    ensures NewOwner(db, Exec(db, call).db, m) ==> m !in db.members && (m.org.PersonalOrg? || m.org.uuid !in db.teams)
  {
    hide Exec, MembersOk, InvitesOk, CallOk;
    if WritesMembers(call) {
      WriteMakesNoOwner(db, call, m);
    } else {
      OthersKeepMembers(db, call);
    }
  }

  lemma ExecKeepsOther(db: Db, call: Call, other: Call)
    requires DbOk(db) && CallOk(db, call) && CallOk(db, other)
    ensures CallOk(Exec(db, call).db, other)
  {
    hide Exec, MembersOk, InvitesOk, ConfigsOk;
    ExecRemembers(db, call);
    match other
    case UpdateWrite(org, user, _) => ExecMakesNoOwner(db, call, Member(org, user));
    case RemoveWrite(org, user) => ExecMakesNoOwner(db, call, Member(org, user));
    case _ =>
  }

  ghost predicate Ok(s: State) {
    DbOk(s.db) && forall i :: 0 <= i < |s.calls| ==> CallOk(s.db, s.calls[i])
  }

  lemma NextOk(s: State, step: Step)
    requires Ok(s)
    ensures Ok(Next(s, step))
  {
    hide Exec, MembersOk, InvitesOk, ConfigsOk, CallOk;
    match step
    case Begin(call) => EntryOk(s.db, call);
    case Advance(i) =>
      if i < |s.calls| {
        ExecKeepsDb(s.db, s.calls[i]);
        ExecKeepsOwn(s.db, s.calls[i]);
        forall k | 0 <= k < |s.calls| ensures CallOk(Next(s, step).db, Next(s, step).calls[k]) {
          if k != i { ExecKeepsOther(s.db, s.calls[i], s.calls[k]); }
        }
      }
  }

  lemma EntryOk(db: Db, call: Call)
    ensures IsEntry(call) ==> CallOk(db, call)
  {
  }

  lemma {:induction false} RunOk(steps: seq<Step>)
    ensures Ok(Run(steps))
  {
    if steps != [] {
      RunOk(steps[..|steps| - 1]);
      NextOk(Run(steps[..|steps| - 1]), steps[|steps| - 1]);
    }
  }

  // ---- Owners ----

  // No step turns an existing membership into an owner's.
  lemma NobodyBecomesOwner(steps: seq<Step>, step: Step, m: Member)
    ensures var db, db' := Run(steps).db, Next(Run(steps), step).db;
      m in db.members && m in db'.members && db'.members[m].Owner? ==> db.members[m].Owner?
  {
    hide Exec, MembersOk, InvitesOk, ConfigsOk;
    var s := Run(steps);
    RunOk(steps);
    match step
    case Begin(_) =>
    case Advance(i) =>
      if i < |s.calls| { ExecMakesNoOwner(s.db, s.calls[i], m); }
  }

  // The unguarded UPDATE of updateMemberRole and DELETE of removeMember never hit an
  // owner row, whatever happened between their check and their write.
  lemma WritesMeetNoOwner(steps: seq<Step>, i: nat)
    ensures var s := Run(steps);
      i < |s.calls| && (s.calls[i].UpdateWrite? || s.calls[i].RemoveWrite?) ==>
        var m := Member(s.calls[i].org, s.calls[i].user);
        m in s.db.members ==> !s.db.members[m].Owner?
  {
    RunOk(steps);
  }

  // What a statement does to an owner row, other than a team's deletion: only an accepted
  // invite for that very member can change it.
  lemma OwnerRowsStay(steps: seq<Step>, i: nat, m: Member)
    ensures var s := Run(steps);
      i < |s.calls| && m in s.db.members && s.db.members[m].Owner? ==>
        var db' := Next(s, Advance(i)).db;
        (m in db'.members && db'.members[m].Owner?) <==>
          !(s.calls[i].AcceptWrite? && Member(s.calls[i].org, s.calls[i].user) == m) && s.calls[i] != DeleteOrgWrite(m.org)
  {
    RunOk(steps);
    var s := Run(steps);
    if i < |s.calls| && m in s.db.members && s.db.members[m].Owner? {
      OwnerStep(s.db, s.calls[i], m);
    }
  }

  lemma OwnerStep(db: Db, call: Call, m: Member)
    requires MembersOk(db) && CallOk(db, call) && m in db.members && db.members[m].Owner?
    requires call.AcceptWrite? ==> !call.role.Owner?
    ensures var db' := Exec(db, call).db;
      (m in db'.members && db'.members[m].Owner?) <==>
        !(call.AcceptWrite? && Member(call.org, call.user) == m) && call != DeleteOrgWrite(m.org)
  {
    hide Exec, MembersOk, CallOk;
    if WritesMembers(call) {
      OwnerWrite(db, call, m);
    } else {
      OthersKeepMembers(db, call);
    }
  }

  lemma OwnerWrite(db: Db, call: Call, m: Member)
    requires MembersOk(db) && CallOk(db, call) && m in db.members && db.members[m].Owner?
    requires WritesMembers(call) && (call.AcceptWrite? ==> !call.role.Owner?)
    ensures var db' := Exec(db, call).db;
      (m in db'.members && db'.members[m].Owner?) <==>
        !(call.AcceptWrite? && Member(call.org, call.user) == m) && call != DeleteOrgWrite(m.org)
  {
    hide WithoutOrg, WithoutNode, WithoutStale, Register;
  }

  lemma RunNext(steps: seq<Step>, step: Step)
    ensures Run(steps + [step]) == Next(Run(steps), step)
  {
    assert (steps + [step])[..|steps|] == steps;
  }

  // A user creates a team and invites someone as viewer.
  function TeamAndInvite(user: nat, uuid: nat, email: nat, token: nat, expiresAt: nat): seq<Step> {
    [Begin(CreateOrganization(user, uuid))] + [Advance(0)]
    + [Begin(InviteCheck(user, TeamOrg(uuid), email, Viewer, token, expiresAt))] + [Advance(1)] + [Advance(1)]
  }

  function TeamOnly(user: nat, uuid: nat): Db {
    EMPTY.db.(orgs := {TeamOrg(uuid)}, members := map[Member(TeamOrg(uuid), user) := Owner], teams := {uuid})
  }

  lemma TeamState(user: nat, uuid: nat)
    ensures Run([Begin(CreateOrganization(user, uuid))] + [Advance(0)]) == State(TeamOnly(user, uuid), [Done], [])
  {
    hide Run;
    var create := CreateOrganization(user, uuid);
    RunStarts();
    RunNext([], Begin(create));
    assert [] + [Begin(create)] == [Begin(create)] && [] + [create] == [create];
    assert Run([Begin(create)]) == EMPTY.(calls := [create]);
    RunNext([Begin(create)], Advance(0));
  }

  lemma TeamAndInviteState(user: nat, uuid: nat, email: nat, token: nat, expiresAt: nat)
    ensures var s := Run(TeamAndInvite(user, uuid, email, token, expiresAt));
      var row := Invite(TeamOrg(uuid), email, Viewer, expiresAt, false);
      s == State(TeamOnly(user, uuid).(invites := map[token := row], issued := map[token := row]), [Done, Done], [])
  {
    hide Run;
    var org := TeamOrg(uuid);
    var invite := InviteCheck(user, org, email, Viewer, token, expiresAt);
    var steps := [Begin(CreateOrganization(user, uuid))] + [Advance(0)];
    var db := TeamOnly(user, uuid);
    TeamState(user, uuid);
    RunNext(steps, Begin(invite));
    steps := steps + [Begin(invite)];
    assert Run(steps) == State(db, [Done, invite], []);
    RunNext(steps, Advance(1));
    steps := steps + [Advance(1)];
    assert Run(steps) == State(db, [Done, InviteInsert(org, email, Viewer, token, expiresAt)], []);
    RunNext(steps, Advance(1));
  }

  lemma RunStarts()
    ensures Run([]) == EMPTY
  {
  }

  // Nothing stops the owner from accepting that invite, if it names his own email: ten
  // steps after the beginning the team has a viewer and no owner.
  lemma OwnerBecomesViewer(user: nat, uuid: nat, email: nat, token: nat, expiresAt: nat, now: nat)
    requires now <= expiresAt
    ensures var before := TeamAndInvite(user, uuid, email, token, expiresAt);
      var after := before + [Begin(AcceptSelect(user, email, token, now))] + [Advance(2)] + [Advance(2)] + [Advance(2)] + [Advance(2)];
      && Run(before).db.members == map[Member(TeamOrg(uuid), user) := Owner]
      && Run(after).db.members == map[Member(TeamOrg(uuid), user) := Viewer]
      && TeamOrg(uuid) in Run(after).db.orgs
  {
    hide Run;
    var steps := TeamAndInvite(user, uuid, email, token, expiresAt);
    TeamAndInviteState(user, uuid, email, token, expiresAt);
    var org, select := TeamOrg(uuid), AcceptSelect(user, email, token, now);
    var db := Run(steps).db;
    RunNext(steps, Begin(select));
    steps := steps + [Begin(select)];
    assert Run(steps) == State(db, [Done, Done, select], []);
    RunNext(steps, Advance(2));
    steps := steps + [Advance(2)];
    assert Run(steps) == State(db, [Done, Done, AcceptOrg(user, email, token, now, org)], []);
    RunNext(steps, Advance(2));
    steps := steps + [Advance(2)];
    assert Run(steps) == State(db, [Done, Done, AcceptConsume(user, email, token, now)], []);
    RunNext(steps, Advance(2));
    steps := steps + [Advance(2)];
    assert Run(steps).calls[2] == AcceptWrite(user, token, org, Viewer);
    RunNext(steps, Advance(2));
  }

  // ---- Invites ----

  function Consumptions(notes: seq<Note>, token: nat): nat {
    if notes == [] then 0
    else Consumptions(notes[..|notes| - 1], token) + if notes[|notes| - 1] == Consumed(token) then 1 else 0
  }

  function Writes(notes: seq<Note>, token: nat): nat {
    if notes == [] then 0
    else
      var n := notes[|notes| - 1];
      Writes(notes[..|notes| - 1], token) + if n.Wrote? && n.token == token then 1 else 0
  }

  // Calls that have consumed the invite and not yet written the membership.
  function Pending(calls: seq<Call>, token: nat): nat {
    if calls == [] then 0
    else
      var c := calls[|calls| - 1];
      Pending(calls[..|calls| - 1], token) + if c.AcceptWrite? && c.token == token then 1 else 0
  }

  // Whether the token is spent or gone for good.
  predicate Spent(db: Db, token: nat) {
    token in db.issued && (token !in db.invites || db.invites[token].consumed)
  }

  // Every write made for the token is in its organization and with its role.
  ghost predicate NotesMatch(db: Db, notes: seq<Note>, token: nat) {
    forall k :: 0 <= k < |notes| && notes[k].Wrote? && notes[k].token == token ==>
      token in db.issued && notes[k].role == db.issued[token].role && notes[k].member.org == db.issued[token].org
  }

  ghost predicate Tally(s: State, token: nat) {
    && Consumptions(s.notes, token) <= (if Spent(s.db, token) then 1 else 0)
    && Writes(s.notes, token) + Pending(s.calls, token) <= Consumptions(s.notes, token)
    && NotesMatch(s.db, s.notes, token)
  }

  lemma {:induction false} PendingUpdate(calls: seq<Call>, i: nat, c: Call, token: nat)
    requires i < |calls|
    ensures Pending(calls[i := c], token) == Pending(calls, token)
      - (if calls[i].AcceptWrite? && calls[i].token == token then 1 else 0)
      + (if c.AcceptWrite? && c.token == token then 1 else 0)
  {
    var calls' := calls[i := c];
    if i < |calls| - 1 {
      PendingUpdate(calls[..|calls| - 1], i, c, token);
      assert calls'[..|calls| - 1] == calls[..|calls| - 1][i := c];
    } else {
      assert calls'[..|calls| - 1] == calls[..|calls| - 1];
    }
  }

  lemma NotesSnoc(notes: seq<Note>, more: seq<Note>, token: nat)
    requires |more| <= 1
    ensures Consumptions(notes + more, token) == Consumptions(notes, token) + if more == [Consumed(token)] then 1 else 0
    ensures Writes(notes + more, token) == Writes(notes, token) + if more != [] && more[0].Wrote? && more[0].token == token then 1 else 0
  {
    if more == [] {
      assert notes + more == notes;
    } else {
      assert (notes + more)[..|notes|] == notes;
    }
  }

  lemma SpentStays(db: Db, call: Call, token: nat)
    requires InvitesOk(db)
    ensures Spent(db, token) ==> Spent(Exec(db, call).db, token)
  {
    hide Exec;
    if WritesInvites(call) { WriteStaysSpent(db, call, token); } else { OthersKeepInvites(db, call); }
  }

  lemma WriteStaysSpent(db: Db, call: Call, token: nat)
    requires InvitesOk(db) && WritesInvites(call)
    ensures Spent(db, token) ==> Spent(Exec(db, call).db, token)
  {
    hide WithoutOrg, WithoutNode, WithoutStale, Register;
  }

  lemma OthersNoteNothing(db: Db, call: Call)
    requires !call.AcceptConsume? && !call.AcceptWrite?
    ensures Exec(db, call).notes == [] && !Exec(db, call).next.AcceptWrite?
  {
    hide WithoutOrg, WithoutNode, WithoutStale, Register, Allowed, Usable;
  }

  // A statement consumes an unspent invite once, or writes for one consumed before.
  lemma ExecTally(db: Db, call: Call, token: nat)
    requires DbOk(db) && CallOk(db, call)
    ensures var r := Exec(db, call);
      && |r.notes| <= 1
      && (Spent(db, token) ==> Spent(r.db, token))
      && (r.notes == [Consumed(token)] ==> !Spent(db, token) && Spent(r.db, token))
      && (r.next.AcceptWrite? && r.next.token == token <==> r.notes == [Consumed(token)])
      && (r.notes != [] && r.notes[0].Wrote? && r.notes[0].token == token ==>
            call.AcceptWrite? && call.token == token && token in db.issued
            && r.notes[0].role == db.issued[token].role && r.notes[0].member.org == db.issued[token].org)
  {
    SpentStays(db, call, token);
    if call.AcceptConsume? || call.AcceptWrite? {
      AcceptTally(db, call, token);
    } else {
      hide Exec, DbOk, CallOk, Spent;
      OthersNoteNothing(db, call);
    }
  }

  lemma AcceptTally(db: Db, call: Call, token: nat)
    requires InvitesOk(db) && CallOk(db, call) && (call.AcceptConsume? || call.AcceptWrite?)
    ensures var r := Exec(db, call);
      && |r.notes| <= 1
      && (r.notes == [Consumed(token)] ==> !Spent(db, token) && Spent(r.db, token))
      && (r.next.AcceptWrite? && r.next.token == token <==> r.notes == [Consumed(token)])
      && (r.notes != [] && r.notes[0].Wrote? && r.notes[0].token == token ==>
            call.AcceptWrite? && call.token == token && token in db.issued
            && r.notes[0].role == db.issued[token].role && r.notes[0].member.org == db.issued[token].org)
  {
    hide WithoutOrg, WithoutNode, WithoutStale, Register;
  }

  // The notes of one more statement match as well.
  lemma NotesStayMatched(db: Db, call: Call, notes: seq<Note>, token: nat)
    requires DbOk(db) && CallOk(db, call) && NotesMatch(db, notes, token)
    ensures NotesMatch(Exec(db, call).db, notes + Exec(db, call).notes, token)
  {
    hide Exec, DbOk, CallOk, Spent;
    ExecTally(db, call, token);
    ExecRemembers(db, call);
  }

  // What one statement does to the counts.
  lemma AdvanceTally(s: State, i: nat, token: nat)
    requires Ok(s) && i < |s.calls|
    ensures var s' := Next(s, Advance(i));
      var c := Consumptions(s'.notes, token) - Consumptions(s.notes, token);
      && 0 <= c <= 1
      && (c == 1 ==> !Spent(s.db, token) && Spent(s'.db, token))
      && (Spent(s.db, token) ==> Spent(s'.db, token))
      && Writes(s'.notes, token) + Pending(s'.calls, token) <= Writes(s.notes, token) + Pending(s.calls, token) + c
  {
    hide Exec, DbOk, CallOk, Spent, Consumptions, Writes, Pending;
    var r := Exec(s.db, s.calls[i]);
    ExecTally(s.db, s.calls[i], token);
    PendingUpdate(s.calls, i, r.next, token);
    NotesSnoc(s.notes, r.notes, token);
  }

  lemma BeginTally(s: State, call: Call, token: nat)
    ensures Pending(Next(s, Begin(call)).calls, token) == Pending(s.calls, token)
  {
    assert (s.calls + [call])[..|s.calls|] == s.calls;
  }

  lemma NextTally(s: State, step: Step, token: nat)
    requires Ok(s) && Tally(s, token)
    ensures Tally(Next(s, step), token)
  {
    hide Exec, DbOk, CallOk, Spent, Consumptions, Writes, Pending, NotesMatch;
    match step
    case Begin(call) =>
      BeginTally(s, call, token);
    case Advance(i) =>
      if i < |s.calls| {
        AdvanceTally(s, i, token);
        NotesStayMatched(s.db, s.calls[i], s.notes, token);
      }
  }

  lemma {:induction false} RunTally(steps: seq<Step>, token: nat)
    ensures Tally(Run(steps), token)
  {
    if steps != [] {
      var front := steps[..|steps| - 1];
      RunTally(front, token);
      RunOk(front);
      NextTally(Run(front), steps[|steps| - 1], token);
    }
  }

  // The user asked, at some step, to accept the invite: signed in with its email, in time.
  ghost predicate Asked(steps: seq<Step>, user: nat, token: nat, row: Invite) {
    exists now: nat :: Begin(AcceptSelect(user, row.email, token, now)) in steps && now <= row.expiresAt
  }

  // A call in progress goes back to its request; once the invite is consumed, to one that
  // fits it.
  ghost predicate Traced(steps: seq<Step>, db: Db, call: Call) {
    match call
    case AcceptSelect(user, email, token, now) => Begin(AcceptSelect(user, email, token, now)) in steps
    case AcceptOrg(user, email, token, now, _) => Begin(AcceptSelect(user, email, token, now)) in steps
    case AcceptConsume(user, email, token, now) => Begin(AcceptSelect(user, email, token, now)) in steps
    case AcceptWrite(user, token, _, _) => token in db.issued && Asked(steps, user, token, db.issued[token])
    case _ => true
  }

  ghost predicate NoteTraced(steps: seq<Step>, db: Db, note: Note) {
    note.Wrote? ==> note.token in db.issued && Asked(steps, note.member.user, note.token, db.issued[note.token])
  }

  ghost predicate AllTraced(steps: seq<Step>, s: State) {
    && (forall i :: 0 <= i < |s.calls| ==> Traced(steps, s.db, s.calls[i]))
    && (forall k :: 0 <= k < |s.notes| ==> NoteTraced(steps, s.db, s.notes[k]))
  }

  lemma AskedStays(steps: seq<Step>, step: Step, user: nat, token: nat, row: Invite)
    requires Asked(steps, user, token, row)
    ensures Asked(steps + [step], user, token, row)
  {
    var now: nat :| Begin(AcceptSelect(user, row.email, token, now)) in steps && now <= row.expiresAt;
    assert Begin(AcceptSelect(user, row.email, token, now)) in steps + [step];
  }

  lemma ConsumeAsked(steps: seq<Step>, db: Db, user: nat, email: nat, token: nat, now: nat)
    requires InvitesOk(db) && Usable(db, token, email, now) && Begin(AcceptSelect(user, email, token, now)) in steps
    ensures token in db.issued && Asked(steps, user, token, db.issued[token])
  {
    assert db.invites[token].(consumed := false) == db.issued[token];
  }

  lemma ExecTraced(steps: seq<Step>, db: Db, call: Call)
    requires InvitesOk(db) && Traced(steps, db, call)
    ensures Traced(steps, Exec(db, call).db, Exec(db, call).next)
    ensures forall k :: 0 <= k < |Exec(db, call).notes| ==> NoteTraced(steps, Exec(db, call).db, Exec(db, call).notes[k])
  {
    hide WithoutOrg, WithoutNode, WithoutStale, Register, Asked, Allowed;
    if call.AcceptConsume? && Usable(db, call.token, call.email, call.now) {
      ConsumeAsked(steps, db, call.user, call.email, call.token, call.now);
    }
  }

  // Later steps and statements take nothing of this away.
  lemma TraceStays(steps: seq<Step>, step: Step, db: Db, call: Call, s: State)
    requires AllTraced(steps, s) && s.db == db
    ensures AllTraced(steps + [step], s.(db := Exec(db, call).db))
    ensures AllTraced(steps + [step], s)
  {
    hide Exec, Asked;
    ExecRemembers(db, call);
    forall user, token, row | Asked(steps, user, token, row) ensures Asked(steps + [step], user, token, row) {
      AskedStays(steps, step, user, token, row);
    }
  }

  lemma NextTraced(steps: seq<Step>, s: State, step: Step)
    requires Ok(s) && AllTraced(steps, s)
    ensures AllTraced(steps + [step], Next(s, step))
  {
    hide Exec, Traced, NoteTraced, CallOk;
    match step
    case Begin(call) =>
      TraceStays(steps, step, s.db, call, s);
      if IsEntry(call) { EntryTraced(steps, s.db, call); }
    case Advance(i) =>
      if i < |s.calls| {
        TraceStays(steps, step, s.db, s.calls[i], s);
        ExecTraced(steps + [step], s.db, s.calls[i]);
      } else {
        TraceStays(steps, step, s.db, CleanUp(0), s);
      }
  }

  lemma EntryTraced(steps: seq<Step>, db: Db, call: Call)
    requires IsEntry(call)
    ensures Traced(steps + [Begin(call)], db, call)
  {
    assert Begin(call) in steps + [Begin(call)];
  }

  lemma {:induction false} RunTraced(steps: seq<Step>)
    ensures AllTraced(steps, Run(steps))
  {
    if steps != [] {
      hide Next, Traced, NoteTraced;
      var front, step := steps[..|steps| - 1], steps[|steps| - 1];
      RunTraced(front);
      RunOk(front);
      NextTraced(front, Run(front), step);
      assert steps == front + [step];
    }
  }

  // Under any interleaving an invite is consumed at most once and leads to at most one
  // membership write: in its organization, with its role, and for a user who asked to
  // accept it in time with the email it was sent to.
  lemma InviteUsedOnce(steps: seq<Step>, token: nat)
    ensures var s := Run(steps);
      && Consumptions(s.notes, token) <= 1
      && Writes(s.notes, token) <= Consumptions(s.notes, token)
      && (forall k :: 0 <= k < |s.notes| && s.notes[k].Wrote? && s.notes[k].token == token ==>
            token in s.db.issued && s.notes[k].role == s.db.issued[token].role
            && s.notes[k].member.org == s.db.issued[token].org && !s.notes[k].role.Owner?
            && Asked(steps, s.notes[k].member.user, token, s.db.issued[token]))
  {
    hide Asked;
    RunTally(steps, token);
    RunOk(steps);
    RunTraced(steps);
    forall k | 0 <= k < |Run(steps).notes| ensures NoteTraced(steps, Run(steps).db, Run(steps).notes[k]) {}
  }

  // ---- Nodes ----

  // No step moves an existing node to another organization, and a direct config is
  // written only for a node that belongs to the caller's organization at that moment.
  lemma NodesStayPut(steps: seq<Step>, step: Step, node: nat, key: ConfigKey)
    ensures var s := Run(steps); var db, db' := s.db, Next(s, step).db;
      && (node in db.nodes && node in db'.nodes ==> db'.nodes[node] == db.nodes[node])
      && (key in db'.configs && !(key in db.configs && db.configs[key] == db'.configs[key]) ==>
            && step.Advance? && step.i < |s.calls| && s.calls[step.i].RegisterBatch?
            && s.calls[step.i].user == key.user && s.calls[step.i].node == key.node
            && key.node in db'.nodes && db'.nodes[key.node] == s.calls[step.i].org)
      && (key in db'.configs ==> key.node in db'.nodes)
  {
    hide DbOk, CallOk;
    var s := Run(steps);
    RunOk(steps);
    NextOk(s, step);
    ConfigsHaveNodes(Next(s, step).db);
    match step
    case Begin(_) =>
    case Advance(i) =>
      if i < |s.calls| { NodeStep(s.db, s.calls[i], node, key); }
  }

  lemma ConfigsHaveNodes(db: Db)
    requires DbOk(db)
    ensures forall k :: k in db.configs ==> k.node in db.nodes
  {
  }

  lemma NodeStep(db: Db, call: Call, node: nat, key: ConfigKey)
    ensures var db' := Exec(db, call).db;
      && (node in db.nodes && node in db'.nodes ==> db'.nodes[node] == db.nodes[node])
      && (key in db'.configs && !(key in db.configs && db.configs[key] == db'.configs[key]) ==>
            call.RegisterBatch? && call.user == key.user && call.node == key.node
            && key.node in db'.nodes && db'.nodes[key.node] == call.org)
  {
    hide Exec;
    if WritesNodes(call) { NodeWrite(db, call, node, key); } else { OthersKeepNodes(db, call); }
  }

  lemma NodeWrite(db: Db, call: Call, node: nat, key: ConfigKey)
    requires WritesNodes(call)
    ensures var db' := Exec(db, call).db;
      && (node in db.nodes && node in db'.nodes ==> db'.nodes[node] == db.nodes[node])
      && (key in db'.configs && !(key in db.configs && db.configs[key] == db'.configs[key]) ==>
            call.RegisterBatch? && call.user == key.user && call.node == key.node
            && key.node in db'.nodes && db'.nodes[key.node] == call.org)
  {
    hide WithoutOrg, WithoutNode, WithoutStale, Register;
  }
}
