/** The teams service: the team hierarchy, reading, updating and deleting a team. */
module Teams {
  import opened Wrappers
  import opened Seqs
  import opened Hris
  import opened Forest

  // ---------------------------------------------------------------------------
  // Update

  /** Every key present in `p` holds `p`'s value in `t`. */
  predicate TeamAgrees(p: TeamPatch, t: Team)
  {
    && (p.name.Some? ==> t.name == p.name.value)
    && (p.description.Some? ==> t.description == p.description.value)
    && (p.leadId.Some? ==> t.leadId == p.leadId.value)
    && (p.parentTeamId.Some? ==> t.parentTeamId == p.parentTeamId.value)
  }

  /** `r` differs from `t` at most in the columns `p` names. */
  predicate TeamOnlyPatched(t: Team, r: Team, p: TeamPatch)
  {
    && r.id == t.id
    && (p.name.None? ==> r.name == t.name)
    && (p.description.None? ==> r.description == t.description)
    && (p.leadId.None? ==> r.leadId == t.leadId)
    && (p.parentTeamId.None? ==> r.parentTeamId == t.parentTeamId)
  }

  /** `Object.assign` in `update` overwrites exactly the keys present in the patch:
      the patched team is the one team that agrees with the patch and leaves every
      other column alone. */
  lemma ApplyTeamPatchCharacterised(t: Team, p: TeamPatch, r: Team)
    ensures r == ApplyTeamPatch(t, p) <==> TeamAgrees(p, r) && TeamOnlyPatched(t, r, p)
  {
  }

  /** `findOne` loads the `parentTeam` relation, which holds a team when the stored
      `parentTeamId` names a row. */
  predicate ParentLoaded(rows: seq<Team>, t: Team)
  {
    t.parentTeamId.Some? && IndexOfTeam(rows, t.parentTeamId.value).Some?
  }

  /** `findOne` loads the `lead` relation, which holds an employee when the stored
      `leadId` names one of `employeeIds`, the ids of the stored employees. */
  predicate LeadLoaded(employeeIds: set<Id>, t: Team)
  {
    t.leadId.Some? && t.leadId.value in employeeIds
  }

  /** The team `save` writes after `Object.assign` of the patch onto the team
      `findOne` loaded. A join column whose relation holds an object is written from
      that object, so the patch's `parentTeamId` or `leadId` is dropped there. */
  function SavedTeam(rows: seq<Team>, employeeIds: set<Id>, t: Team, p: TeamPatch): (r: Team)
    ensures TeamAgrees(p.(leadId := None, parentTeamId := None), r) && TeamOnlyPatched(t, r, p)
    ensures r.parentTeamId == if ParentLoaded(rows, t) || p.parentTeamId.None? then t.parentTeamId else p.parentTeamId.value
    ensures r.leadId == if LeadLoaded(employeeIds, t) || p.leadId.None? then t.leadId else p.leadId.value
  {
    var w := p.(leadId := if LeadLoaded(employeeIds, t) then None else p.leadId,
                parentTeamId := if ParentLoaded(rows, t) then None else p.parentTeamId);
    ApplyTeamPatchCharacterised(t, w, ApplyTeamPatch(t, w));
    ApplyTeamPatch(t, w)
  }

  /** Nothing in `update` looks at the parent a patch names: a team whose parent
      relation loaded nothing can be given any parent, itself included. */
  lemma UpdateAcceptsAnyParent(rows: seq<Team>, employeeIds: set<Id>, t: Team, parent: Option<Id>)
    requires !ParentLoaded(rows, t)
    ensures SavedTeam(rows, employeeIds, t, TeamPatch(None, None, None, Some(parent))).parentTeamId == parent
  {
  }

  /** `findOne`: the team with that id, or NotFound. */
  function FindTeamIn(rows: seq<Team>, id: Id): (r: Result<Team, ServiceError>)
    ensures r.Err? <==> forall i :: 0 <= i < |rows| ==> rows[i].id != id
    ensures r.Err? ==> r.error == NotFound("Team not found")
    ensures r.Ok? ==> r.value.id == id && r.value in rows
  {
    match IndexOfTeam(rows, id)
    case None => Err(NotFound("Team not found"))
    case Some(k) => Ok(rows[k])
  }

  // ---------------------------------------------------------------------------
  // Hierarchy

  /** A team as the hierarchy query loads it, with its `lead` and `members` relations. */
  datatype LoadedTeam = LoadedTeam(team: Team, lead: Option<Employee>, members: Option<seq<Employee>>)

  /** The lead of a hierarchy node. */
  datatype LeadSummary = LeadSummary(id: Id, name: string, title: string)

  /** A node of the team hierarchy. */
  datatype TeamEntry = TeamEntry(id: Id, name: string, description: Option<string>, lead: Option<LeadSummary>, memberCount: nat)

  function LeadSummaryOf(e: Employee): LeadSummary
  {
    LeadSummary(e.id, e.firstName + " " + e.lastName, e.title)
  }

  /** The node for one team: `members?.length || 0` members, and the lead summarised
      when there is one. */
  function TeamEntryOf(t: LoadedTeam): TeamEntry
  {
    TeamEntry(t.team.id, t.team.name, t.team.description,
              if t.lead.Some? then Some(LeadSummaryOf(t.lead.value)) else None,
              if t.members.Some? then |t.members.value| else 0)
  }

  function LoadedKey(t: LoadedTeam): Id { t.team.id }

  function ParentTeamOf(t: LoadedTeam): Option<Id> { t.team.parentTeamId }

  /** `getTeamHierarchy`: the forest of teams by parent team, from the teams without a
      parent, over the teams in the order the query returned them (by name). */
  function TeamHierarchy(teams: seq<LoadedTeam>): seq<Tree<TeamEntry>>
    requires UniqueKeys(teams, LoadedKey)
  {
    BuildForest(teams, LoadedKey, ParentTeamOf, TeamEntryOf)
  }

  /** The top level holds the teams without a parent, and each node's sub-teams are
      exactly the teams whose parent it is, in query order. */
  lemma HierarchyShape(teams: seq<LoadedTeam>)
    requires UniqueKeys(teams, LoadedKey)
    ensures Shaped(teams, LoadedKey, ParentTeamOf, TeamEntryOf, TeamHierarchy(teams), None)
  {
    ForestShaped(teams, LoadedKey, ParentTeamOf, TeamEntryOf);
  }

  /** `n` is the node of `t`: its member count is the length of the loaded members (0
      when they are absent), and its lead is none without a lead and otherwise the
      lead's id, full name and title. */
  predicate Describes(n: TeamEntry, t: LoadedTeam)
  {
    && n.id == t.team.id && n.name == t.team.name && n.description == t.team.description
    && n.memberCount == (if t.members.Some? then |t.members.value| else 0)
    && (n.lead.None? <==> t.lead.None?)
    && (t.lead.Some? ==> n.lead == Some(LeadSummary(t.lead.value.id, t.lead.value.firstName + " " + t.lead.value.lastName, t.lead.value.title)))
  }

  /** Every node describes a team whose chain of parents reaches the top. */
  lemma HierarchyNodes(teams: seq<LoadedTeam>, n: TeamEntry)
    requires UniqueKeys(teams, LoadedKey) && n in Flatten(TeamHierarchy(teams))
    ensures exists t :: t in teams && ReachesRoot(teams, LoadedKey, ParentTeamOf, t) && Describes(n, t)
  {
    ForestSound(teams, LoadedKey, ParentTeamOf, TeamEntryOf, n);
  }

  /** A team is in the hierarchy exactly when its chain of parents ends at a team
      without a parent. */
  lemma HierarchyMembers(teams: seq<LoadedTeam>, t: LoadedTeam)
    requires UniqueKeys(teams, LoadedKey) && t in teams
    ensures (exists n :: n in Flatten(TeamHierarchy(teams)) && n.id == t.team.id) <==> ReachesRoot(teams, LoadedKey, ParentTeamOf, t)
  {
    if ReachesRoot(teams, LoadedKey, ParentTeamOf, t) {
      ForestComplete(teams, LoadedKey, ParentTeamOf, TeamEntryOf, t);
      assert TeamEntryOf(t).id == t.team.id;
    }
    if n :| n in Flatten(TeamHierarchy(teams)) && n.id == t.team.id {
      ForestSound(teams, LoadedKey, ParentTeamOf, TeamEntryOf, n);
      var x :| x in teams && ReachesRoot(teams, LoadedKey, ParentTeamOf, x) && n == TeamEntryOf(x);
      var i :| 0 <= i < |teams| && teams[i] == x;
      var j :| 0 <= j < |teams| && teams[j] == t;
      assert LoadedKey(teams[i]) == LoadedKey(teams[j]);
    }
  }

  /** A team whose parent is not among the teams never appears in the hierarchy. */
  lemma DanglingParentOffHierarchy(teams: seq<LoadedTeam>, t: LoadedTeam)
    requires UniqueKeys(teams, LoadedKey) && t in teams && t.team.parentTeamId.Some?
    requires forall i :: 0 <= i < |teams| ==> teams[i].team.id != t.team.parentTeamId.value
    ensures forall n :: n in Flatten(TeamHierarchy(teams)) ==> n.id != t.team.id
  {
    DanglingParentNeverReachesRoot<LoadedTeam, Id, TeamEntry>(teams, LoadedKey, ParentTeamOf, t);
    HierarchyMembers(teams, t);
  }

  /** The `lead` and `members` relations of a team, loaded from the employees: the
      employee its `leadId` names, and the employees whose `teamId` is the team. */
  function Load(t: Team, employees: seq<Employee>): (r: LoadedTeam)
    ensures r.team == t
    ensures r.lead.Some? <==> t.leadId.Some? && exists i :: 0 <= i < |employees| && employees[i].id == t.leadId.value
    ensures r.lead.Some? ==> r.lead.value in employees && r.lead.value.id == t.leadId.value
    ensures r.members == Some(Filter(employees, (e: Employee) => e.teamId == Some(t.id)))
  {
    var lead := if t.leadId.Some? then IndexOfId(employees, t.leadId.value) else None;
    LoadedTeam(t, if lead.Some? then Some(employees[lead.value]) else None,
               Some(Filter(employees, (e: Employee) => e.teamId == Some(t.id))))
  }

  function LoadAll(teams: seq<Team>, employees: seq<Employee>): (r: seq<LoadedTeam>)
    ensures |r| == |teams| && forall i :: 0 <= i < |teams| ==> r[i] == Load(teams[i], employees)
  {
    MapSeq(teams, (t: Team) => Load(t, employees))
  }

  /** Loading the relations keeps the team keys unique. */
  lemma LoadAllKeepsUniqueKeys(teams: seq<Team>, employees: seq<Employee>)
    requires UniqueKeys(teams, TeamKey)
    ensures UniqueKeys(LoadAll(teams, employees), LoadedKey)
  {
    var r := LoadAll(teams, employees);
    forall i, j | 0 <= i < |r| && 0 <= j < |r| && LoadedKey(r[i]) == LoadedKey(r[j]) ensures i == j {
      assert TeamKey(teams[i]) == TeamKey(teams[j]);
    }
  }

  /** A team without a loaded parent that `update` makes its own parent drops out of
      the hierarchy. */
  lemma SelfParentingDropsOffHierarchy(rows: seq<Team>, employees: seq<Employee>, employeeIds: set<Id>, id: Id)
    requires UniqueKeys(rows, TeamKey) && IndexOfTeam(rows, id).Some?
    requires !ParentLoaded(rows, rows[IndexOfTeam(rows, id).value])
    ensures var k := IndexOfTeam(rows, id).value;
      var u := SavedTeam(rows, employeeIds, rows[k], TeamPatch(None, None, None, Some(Some(id))));
      && u.parentTeamId == Some(id)
      && UniqueKeys(LoadAll(rows[k := u], employees), LoadedKey)
      && forall n :: n in Flatten(TeamHierarchy(LoadAll(rows[k := u], employees))) ==> n.id != id
  {
    var k := IndexOfTeam(rows, id).value;
    var u := SavedTeam(rows, employeeIds, rows[k], TeamPatch(None, None, None, Some(Some(id))));
    var after := rows[k := u];
    UpdateKeepsUniqueKeys(rows, TeamKey, k, u);
    LoadAllKeepsUniqueKeys(after, employees);
    var loaded := LoadAll(after, employees);
    assert loaded[k].team == u;
    SelfParentNeverReachesRoot<LoadedTeam, Id, TeamEntry>(loaded, LoadedKey, ParentTeamOf, loaded[k]);
    HierarchyMembers(loaded, loaded[k]);
  }

  /** `remove` writes nothing to the sub-teams of the deleted team: where the store
      does not enforce the parent key, they keep pointing at a team that no longer
      exists, so every team below the deleted one, at any depth, drops out of the
      hierarchy. `below` is a line of descent from a sub-team of the deleted team. */
  lemma RemovalOrphansSubTeams(teams: seq<Team>, employees: seq<Employee>, id: Id, below: seq<Team>)
    requires UniqueKeys(teams, TeamKey)
    requires |below| > 0 && below[0].parentTeamId == Some(id)
    requires forall i :: 0 <= i < |below| ==> below[i] in teams && below[i].id != id
    requires forall i :: 0 < i < |below| ==> below[i].parentTeamId == Some(below[i - 1].id)
    ensures var rest := Filter(teams, (t: Team) => t.id != id);
      && below[|below| - 1] in rest
      && UniqueKeys(LoadAll(rest, employees), LoadedKey)
      && forall n :: n in Flatten(TeamHierarchy(LoadAll(rest, employees))) ==> n.id != below[|below| - 1].id
  {
    var rest := Filter(teams, (t: Team) => t.id != id);
    FilterKeepsUniqueKeys(teams, TeamKey, (t: Team) => t.id != id);
    forall i | 0 <= i < |below| ensures below[i] in rest {
      var j :| 0 <= j < |teams| && teams[j] == below[i];
    }
    OrphanedLine(rest, employees, id, below);
  }

  /** The same, on the teams left after the removal. */
  lemma OrphanedLine(rest: seq<Team>, employees: seq<Employee>, id: Id, below: seq<Team>)
    requires UniqueKeys(rest, TeamKey) && forall i :: 0 <= i < |rest| ==> rest[i].id != id
    requires |below| > 0 && below[0].parentTeamId == Some(id)
    requires forall i :: 0 <= i < |below| ==> below[i] in rest
    requires forall i :: 0 < i < |below| ==> below[i].parentTeamId == Some(below[i - 1].id)
    ensures UniqueKeys(LoadAll(rest, employees), LoadedKey)
    ensures forall n :: n in Flatten(TeamHierarchy(LoadAll(rest, employees))) ==> n.id != below[|below| - 1].id
  {
    LoadAllKeepsUniqueKeys(rest, employees);
    var loaded := LoadAll(rest, employees);
    var lq := LoadAll(below, employees);
    LoadedDescent(rest, employees, below);
    LoadedKeysAvoid(rest, employees, id);
    DanglingParentNeverReachesRoot<LoadedTeam, Id, TeamEntry>(loaded, LoadedKey, ParentTeamOf, lq[0]);
    DescentFromUnreached(loaded, LoadedKey, ParentTeamOf, lq);
    HierarchyMembers(loaded, lq[|lq| - 1]);
  }

  /** A line of descent among teams stays one once their relations are loaded. */
  lemma LoadedDescent(rest: seq<Team>, employees: seq<Employee>, below: seq<Team>)
    requires forall i :: 0 <= i < |below| ==> below[i] in rest
    requires forall i :: 0 < i < |below| ==> below[i].parentTeamId == Some(below[i - 1].id)
    ensures IsDescent(LoadAll(rest, employees), LoadedKey, ParentTeamOf, LoadAll(below, employees))
  {
    var loaded := LoadAll(rest, employees);
    var lq := LoadAll(below, employees);
    forall i | 0 <= i < |below| ensures lq[i] in loaded {
      var k :| 0 <= k < |rest| && rest[k] == below[i];
      assert loaded[k] == lq[i];
    }
  }

  /** No loaded team carries a key that none of the teams carries. */
  lemma LoadedKeysAvoid(rest: seq<Team>, employees: seq<Employee>, id: Id)
    requires forall i :: 0 <= i < |rest| ==> rest[i].id != id
    ensures forall y :: y in LoadAll(rest, employees) ==> LoadedKey(y) != id
  {
    var loaded := LoadAll(rest, employees);
    forall y | y in loaded ensures LoadedKey(y) != id {
      var i :| 0 <= i < |loaded| && loaded[i] == y;
      assert loaded[i].team == rest[i];
    }
  }

  // ---------------------------------------------------------------------------
  // The service

  class TeamsService {
    const teamsRepository: TeamRepository
    const auditLogRepository: AuditLogRepository

    constructor (teams: TeamRepository, auditLog: AuditLogRepository)
      ensures teamsRepository == teams && auditLogRepository == auditLog
    {
      teamsRepository := teams;
      auditLogRepository := auditLog;
    }

    /** `findOne`, on the current table. */
    method FindOne(id: Id) returns (r: Result<Team, ServiceError>)
      ensures r == FindTeamIn(teamsRepository.rows, id)
    {
      var found := teamsRepository.FindById(id);
      if found.None? {
        return Err(NotFound("Team not found"));
      }
      return Ok(found.value);
    }

    /** `update`: NotFound for a missing id; otherwise overwrite the keys present in the
        patch, except a join column whose relation `findOne` loaded, record the old
        team and the patch, and return the stored team read again. `employeeIds` are
        the ids of the stored employees, from which the `lead` relation is loaded. */
    method Update(id: Id, patch: TeamPatch, userId: Id, employeeIds: set<Id>) returns (r: Result<Team, ServiceError>)
      requires teamsRepository.Valid()
      modifies teamsRepository, auditLogRepository
      ensures teamsRepository.Valid()
      ensures IndexOfTeam(old(teamsRepository.rows), id).None? ==>
        && r == Err(NotFound("Team not found"))
        && teamsRepository.rows == old(teamsRepository.rows)
        && auditLogRepository.entries == old(auditLogRepository.entries)
      ensures IndexOfTeam(old(teamsRepository.rows), id).Some? ==>
        var k := IndexOfTeam(old(teamsRepository.rows), id).value;
        var t := old(teamsRepository.rows)[k];
        var u := SavedTeam(old(teamsRepository.rows), employeeIds, t, patch);
        && teamsRepository.rows == old(teamsRepository.rows)[k := u]
        && auditLogRepository.entries == old(auditLogRepository.entries)
             + [AuditEntry(userId, UpdateAction, "Team", Some(id), TeamUpdated(t, patch))]
        && r == Ok(u)
    {
      var loaded := FindOne(id);
      if loaded.Err? {
        return loaded;
      }
      var team := loaded.value;
      var updated := SavedTeam(teamsRepository.rows, employeeIds, team, patch);
      teamsRepository.Save(updated);
      auditLogRepository.Record(AuditEntry(userId, UpdateAction, "Team", Some(id), TeamUpdated(team, patch)));
      assert teamsRepository.rows[IndexOfTeam(old(teamsRepository.rows), id).value] == updated;
      r := FindOne(updated.id);
    }

    /** `remove`: NotFound for a missing id, deleting nothing; otherwise record the
        deletion and delete that team only. No other team is written: sub-teams keep
        their `parentTeamId`. */
    method Remove(id: Id, userId: Id) returns (r: Result<(), ServiceError>)
      requires teamsRepository.Valid()
      modifies teamsRepository, auditLogRepository
      ensures teamsRepository.Valid()
      ensures IndexOfTeam(old(teamsRepository.rows), id).None? ==>
        && r == Err(NotFound("Team not found"))
        && teamsRepository.rows == old(teamsRepository.rows)
        && auditLogRepository.entries == old(auditLogRepository.entries)
      ensures IndexOfTeam(old(teamsRepository.rows), id).Some? ==>
        && r == Ok(())
        && teamsRepository.rows == Filter(old(teamsRepository.rows), (t: Team) => t.id != id)
        && auditLogRepository.entries == old(auditLogRepository.entries)
             + [AuditEntry(userId, DeleteAction, "Team", Some(id),
                  TeamDeleted(old(teamsRepository.rows)[IndexOfTeam(old(teamsRepository.rows), id).value]))]
    {
      var found := teamsRepository.FindById(id);
      if found.None? {
        return Err(NotFound("Team not found"));
      }
      auditLogRepository.Record(AuditEntry(userId, DeleteAction, "Team", Some(id), TeamDeleted(found.value)));
      teamsRepository.Delete(id);
      return Ok(());
    }
  }

  /** After a removal every other team is still there, unchanged. */
  lemma RemoveKeepsOtherTeams(teams: seq<Team>, id: Id, t: Team)
    requires t in teams && t.id != id
    ensures t in Filter(teams, (x: Team) => x.id != id)
  {
  }
}
