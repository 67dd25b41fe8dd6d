/** The employees service: who sees which employee records, how an update is
    applied, the org chart, and the bulk upsert. */
module Employees {
  import opened Wrappers
  import opened Seqs
  import opened Text
  import opened Hris
  import opened Forest
  import Guards

  // ---------------------------------------------------------------------------
  // Visibility

  /** A manager may see their own record and the records of their direct reports. */
  predicate ManagerMaySee(actor: Principal, e: Employee)
  {
    IsLinkedTo(actor, Some(e.id)) || IsLinkedTo(actor, e.managerId)
  }

  /** The case-insensitive search over first name, last name and email. */
  predicate MatchesSearch(e: Employee, search: string)
  {
    var s := Lower(search);
    || Contains(Lower(e.firstName), s)
    || Contains(Lower(e.lastName), s)
    || (e.email.Some? && Contains(Lower(e.email.value), s))
  }

  /** The search parameter counts only when it is a non-empty string. */
  predicate Searching(search: Option<string>)
  {
    search.Some? && search.value != ""
  }

  /** Whether `findAll` keeps a queried row. */
  predicate Listed(actor: Principal, search: Option<string>, e: Employee)
  {
    if actor.role == ManagerRole then ManagerMaySee(actor, e)
    else !Searching(search) || MatchesSearch(e, search.value)
  }

  /** `findAll` after the database query: a manager gets themself and their direct
      reports, and the search is not applied for them; anyone else gets the rows
      matching the search, or every row when there is no search. The order of the
      query is kept and no salary is removed on this path. */
  function FindAll(actor: Principal, queried: seq<Employee>, search: Option<string>): (r: seq<Employee>)
    ensures IsSubsequence(r, queried)
    ensures actor.role == ManagerRole ==>
      && (forall i :: 0 <= i < |r| ==> ManagerMaySee(actor, r[i]))
      && (forall i :: 0 <= i < |queried| && ManagerMaySee(actor, queried[i]) ==> queried[i] in r)
    ensures actor.role != ManagerRole && Searching(search) ==>
      && (forall i :: 0 <= i < |r| ==> MatchesSearch(r[i], search.value))
      && (forall i :: 0 <= i < |queried| && MatchesSearch(queried[i], search.value) ==> queried[i] in r)
    ensures actor.role != ManagerRole && !Searching(search) ==> r == queried
    ensures forall e :: multiset(r)[e] == if Listed(actor, search, e) then multiset(queried)[e] else 0
  {
    if actor.role == ManagerRole then
      FilterMultiplicity(queried, (e: Employee) => ManagerMaySee(actor, e));
      Filter(queried, (e: Employee) => ManagerMaySee(actor, e))
    else if Searching(search) then
      FilterMultiplicity(queried, (e: Employee) => MatchesSearch(e, search.value));
      Filter(queried, (e: Employee) => MatchesSearch(e, search.value))
    else
      SubsequenceOfSelf(queried);
      queried
  }

  /** A manager's list does not depend on the search text. */
  lemma ManagerIgnoresSearch(actor: Principal, queried: seq<Employee>, search: Option<string>)
    requires actor.role == ManagerRole
    ensures FindAll(actor, queried, search) == FindAll(actor, queried, None)
  {
  }

  /** A manager who is not linked to an employee record sees nobody. */
  lemma UnlinkedManagerSeesNobody(actor: Principal, queried: seq<Employee>, search: Option<string>)
    requires actor.role == ManagerRole && actor.employee.None?
    ensures FindAll(actor, queried, search) == []
  {
  }

  /** Administrators and HR see salaries, and so does everybody looking at their own
      record. */
  predicate SeesSalary(actor: Principal, e: Employee)
  {
    actor.role == AdminRole || actor.role == HrRole || IsLinkedTo(actor, Some(e.id))
  }

  /** `findOne`: a missing id is NotFound before anything else; a manager may only see
      themself and their direct reports; the salary is removed for everyone but
      administrators, HR and the employee themself, and no other field changes. */
  function FindOneIn(rows: seq<Employee>, id: Id, actor: Principal): (r: Result<Employee, ServiceError>)
    ensures IndexOfId(rows, id).None? ==> r == Err(NotFound("Employee not found"))
    ensures IndexOfId(rows, id).Some? ==>
      var e := rows[IndexOfId(rows, id).value];
      && (r.Ok? <==> actor.role != ManagerRole || ManagerMaySee(actor, e))
      && (r.Err? ==> r.error == Forbidden("Access denied"))
      && (r.Ok? ==> r.value.id == id && r.value == e.(salary := r.value.salary))
      && (r.Ok? ==> r.value.salary == if SeesSalary(actor, e) then e.salary else None)
  {
    match IndexOfId(rows, id)
    case None => Err(NotFound("Employee not found"))
    case Some(k) =>
      var e := rows[k];
      if actor.role == ManagerRole && !ManagerMaySee(actor, e) then Err(Forbidden("Access denied"))
      else if SeesSalary(actor, e) then Ok(e)
      else Ok(e.(salary := None))
  }

  /** With unique ids, a manager's list and `findOne` agree: the manager can open
      exactly the records the list shows. */
  lemma {:induction false} ManagerListMatchesFindOne(actor: Principal, rows: seq<Employee>, i: nat)
    requires UniqueIds(rows) && i < |rows| && actor.role == ManagerRole
    ensures rows[i] in FindAll(actor, rows, None) <==> FindOneIn(rows, rows[i].id, actor).Ok?
  {
    IndexOfIdFinds(rows, i);
  }

  /** The guard lets every role through to `GET /employees/:id`, so for a plain
      employee `findOne` shows every record, salary removed except on their own. */
  lemma EmployeesSeeAllRecordsWithoutSalary(rows: seq<Employee>, id: Id, actor: Principal)
    requires actor.role == EmployeeRole && IndexOfId(rows, id).Some? && !IsLinkedTo(actor, Some(id))
    ensures FindOneIn(rows, id, actor).Ok? && FindOneIn(rows, id, actor).value.salary == None
  {
  }

  // ---------------------------------------------------------------------------
  // Update

  /** The patch `update` applies: a manager's `salary` key is deleted first. */
  function AppliedPatch(actor: Principal, patch: EmployeePatch): (p: EmployeePatch)
    ensures actor.role == ManagerRole ==> p.salary.None? && p == patch.(salary := None)
    ensures actor.role != ManagerRole ==> p == patch
  {
    if actor.role == ManagerRole then patch.(salary := None) else patch
  }

  /** `findOne` loads the `manager` relation, which holds an employee when the stored
      `managerId` names a row. */
  predicate ManagerLoaded(rows: seq<Employee>, e: Employee)
  {
    e.managerId.Some? && IndexOfId(rows, e.managerId.value).Some?
  }

  /** `findOne` loads the `team` relation, which holds a team when the stored `teamId`
      names one of `teamIds`, the ids of the stored teams. */
  predicate TeamLoaded(teamIds: set<Id>, e: Employee)
  {
    e.teamId.Some? && e.teamId.value in teamIds
  }

  /** The keys of a patch that `save` writes over the entity `findOne` loaded. A join
      column whose relation holds an object is written from that object, so the patch's
      `managerId` or `teamId` is dropped there. */
  function WrittenPatch(rows: seq<Employee>, teamIds: set<Id>, e: Employee, p: EmployeePatch): EmployeePatch
  {
    p.(managerId := if ManagerLoaded(rows, e) then None else p.managerId,
       teamId := if TeamLoaded(teamIds, e) then None else p.teamId)
  }

  /** The row `update` writes, or the error it throws before writing. The entity
      `findOne` loaded has its salary removed for most callers, but `save` writes only
      the properties the entity carries, so the stored salary survives unless the
      patch sets one. The manager and team keys change only where their relation
      loaded nothing. */
  function UpdatedRow(rows: seq<Employee>, teamIds: set<Id>, id: Id, patch: EmployeePatch, actor: Principal): (r: Result<Employee, ServiceError>)
    ensures FindOneIn(rows, id, actor).Err? ==> r == FindOneIn(rows, id, actor)
    ensures FindOneIn(rows, id, actor).Ok? ==>
      var e := rows[IndexOfId(rows, id).value];
      var n := ApplyPatch(e, WrittenPatch(rows, teamIds, e, AppliedPatch(actor, patch)));
      && (actor.role == ManagerRole && !IsLinkedTo(actor, e.managerId) ==> r == Err(Forbidden("Access denied")))
      && (actor.role != ManagerRole || IsLinkedTo(actor, e.managerId) ==>
            r == if Storable(n) then Ok(n) else Err(StoreRejected(InvalidStatus(n.status))))
    ensures r.Ok? ==>
      var e := rows[IndexOfId(rows, id).value];
      && r.value.id == id
      && Agrees(AppliedPatch(actor, patch).(managerId := None, teamId := None), r.value)
      && OnlyPatched(e, r.value, AppliedPatch(actor, patch))
      && r.value.managerId == (if ManagerLoaded(rows, e) || patch.managerId.None? then e.managerId else patch.managerId.value)
      && r.value.teamId == (if TeamLoaded(teamIds, e) || patch.teamId.None? then e.teamId else patch.teamId.value)
      && (actor.role == ManagerRole ==> r.value.salary == e.salary && IsLinkedTo(actor, e.managerId))
  {
    match FindOneIn(rows, id, actor)
    case Err(err) => Err(err)
    case Ok(_) =>
      var e := rows[IndexOfId(rows, id).value];
      if actor.role == ManagerRole && !IsLinkedTo(actor, e.managerId) then Err(Forbidden("Access denied"))
      else
        var w := WrittenPatch(rows, teamIds, e, AppliedPatch(actor, patch));
        var n := ApplyPatch(e, w);
        ApplyPatchCharacterised(e, w, n);
        if Storable(n) then Ok(n) else Err(StoreRejected(InvalidStatus(n.status)))
  }

  /** A manager can read their own record but not update it, unless they are recorded
      as their own manager. */
  lemma ManagerCannotUpdateOwnRecord(rows: seq<Employee>, teamIds: set<Id>, patch: EmployeePatch, actor: Principal)
    requires actor.role == ManagerRole && actor.employee.Some?
    requires IndexOfId(rows, actor.employee.value).Some?
    requires rows[IndexOfId(rows, actor.employee.value).value].managerId != actor.employee
    ensures FindOneIn(rows, actor.employee.value, actor).Ok?
    ensures UpdatedRow(rows, teamIds, actor.employee.value, patch, actor) == Err(Forbidden("Access denied"))
  {
  }

  /** Whatever a manager's patch says, the stored salary is kept. */
  lemma ManagerUpdateKeepsSalary(rows: seq<Employee>, teamIds: set<Id>, id: Id, patch: EmployeePatch, actor: Principal)
    requires actor.role == ManagerRole && UpdatedRow(rows, teamIds, id, patch, actor).Ok?
    ensures UpdatedRow(rows, teamIds, id, patch, actor).value.salary == rows[IndexOfId(rows, id).value].salary
  {
  }

  /** Past the guard on `PUT /employees/:id`, only administrators and HR change a
      salary. */
  lemma OnlyAdminAndHrChangeSalary(rows: seq<Employee>, teamIds: set<Id>, id: Id, patch: EmployeePatch, actor: Principal)
    requires Guards.CanActivate(Guards.UpdateEmployeeRoles, Guards.ControllerRoles, Some(actor)) == Guards.Allow
    requires UpdatedRow(rows, teamIds, id, patch, actor).Ok?
    requires UpdatedRow(rows, teamIds, id, patch, actor).value.salary != rows[IndexOfId(rows, id).value].salary
    ensures actor.role == AdminRole || actor.role == HrRole
  {
    Guards.UpdateEmployeeAdmits(actor);
  }

  /** A manager who moves a report to another manager changes nothing: the report's
      `manager` relation holds the manager's own record, `save` writes the key from it,
      and `update` returns the report as before, salary hidden. */
  lemma ManagerReassignmentDropped(rows: seq<Employee>, teamIds: set<Id>, id: Id, other: Id, actor: Principal)
    requires UniqueIds(rows) && actor.role == ManagerRole && actor.employee.Some?
    requires id != actor.employee.value && IndexOfId(rows, actor.employee.value).Some?
    requires IndexOfId(rows, id).Some? && rows[IndexOfId(rows, id).value].managerId == actor.employee
    requires Storable(rows[IndexOfId(rows, id).value])
    ensures var k := IndexOfId(rows, id).value;
      var u := UpdatedRow(rows, teamIds, id, EmptyPatch.(managerId := Some(Some(other))), actor);
      && u == Ok(rows[k])
      && FindOneIn(rows[k := u.value], id, actor) == Ok(rows[k].(salary := None))
  {
    var k := IndexOfId(rows, id).value;
    var u := UpdatedRow(rows, teamIds, id, EmptyPatch.(managerId := Some(Some(other))), actor);
    assert u.Ok?;
    ApplyPatchCharacterised(rows[k], EmptyPatch, rows[k]);
    assert rows[k := u.value] == rows;
  }

  /** Where the manager's own record is not among the rows, the report's `manager`
      relation loads nothing and the move is written; `update` then returns `findOne`
      of the new state with the caller's rights, which is Access denied for a write
      that has already happened. */
  lemma ManagerReassignmentReportsForbidden(rows: seq<Employee>, teamIds: set<Id>, id: Id, other: Id, actor: Principal)
    requires UniqueIds(rows) && actor.role == ManagerRole && actor.employee.Some?
    requires other != actor.employee.value && IndexOfId(rows, actor.employee.value).None?
    requires IndexOfId(rows, id).Some? && rows[IndexOfId(rows, id).value].managerId == actor.employee
    requires Storable(rows[IndexOfId(rows, id).value])
    ensures var u := UpdatedRow(rows, teamIds, id, EmptyPatch.(managerId := Some(Some(other))), actor);
      && u.Ok? && u.value.managerId == Some(other)
      && FindOneIn(rows[IndexOfId(rows, id).value := u.value], id, actor) == Err(Forbidden("Access denied"))
  {
    var k := IndexOfId(rows, id).value;
    var u := UpdatedRow(rows, teamIds, id, EmptyPatch.(managerId := Some(Some(other))), actor);
    assert u.Ok?;
    IndexOfIdAfterUpdate(rows, k, u.value, id);
  }

  // ---------------------------------------------------------------------------
  // Org chart

  /** A node of the org chart. */
  datatype OrgEntry = OrgEntry(id: Id, name: string, title: string, department: Option<string>, teamId: Option<Id>)

  function OrgEntryOf(e: Employee): (n: OrgEntry)
    ensures n.id == e.id && n.title == e.title && n.department == e.department && n.teamId == e.teamId
    ensures n.name == e.firstName + " " + e.lastName
  {
    OrgEntry(e.id, e.firstName + " " + e.lastName, e.title, e.department, e.teamId)
  }

  function ManagerOf(e: Employee): Option<Id> { e.managerId }

  /** `getOrgChart`: the forest of employees by manager, from the employees without
      one, over the rows in the order the query returned them. */
  function OrgChart(employees: seq<Employee>): seq<Tree<OrgEntry>>
    requires UniqueIds(employees)
  {
    BuildForest(employees, EmployeeKey, ManagerOf, OrgEntryOf)
  }

  /** The top level holds the employees without a manager, and each node's children
      are exactly the employees whose manager it is, in query order. */
  lemma OrgChartShape(employees: seq<Employee>)
    requires UniqueIds(employees)
    ensures Shaped(employees, EmployeeKey, ManagerOf, OrgEntryOf, OrgChart(employees), None)
  {
    ForestShaped(employees, EmployeeKey, ManagerOf, OrgEntryOf);
  }

  /** An employee is on the chart exactly when their chain of managers ends at
      someone without a manager; nobody else appears. */
  lemma OrgChartMembers(employees: seq<Employee>, e: Employee)
    requires UniqueIds(employees) && e in employees
    ensures (exists n :: n in Flatten(OrgChart(employees)) && n.id == e.id) <==> ReachesRoot(employees, EmployeeKey, ManagerOf, e)
  {
    if ReachesRoot(employees, EmployeeKey, ManagerOf, e) {
      ForestComplete(employees, EmployeeKey, ManagerOf, OrgEntryOf, e);
      assert OrgEntryOf(e).id == e.id;
    }
    if n :| n in Flatten(OrgChart(employees)) && n.id == e.id {
      ForestSound(employees, EmployeeKey, ManagerOf, OrgEntryOf, n);
      var x :| x in employees && ReachesRoot(employees, EmployeeKey, ManagerOf, x) && n == OrgEntryOf(x);
      var i :| 0 <= i < |employees| && employees[i] == x;
      var j :| 0 <= j < |employees| && employees[j] == e;
      assert EmployeeKey(employees[i]) == EmployeeKey(employees[j]);
    }
  }

  /** Every node of the chart is the entry of an employee whose chain of managers
      reaches the top. */
  lemma OrgChartSound(employees: seq<Employee>, n: OrgEntry)
    requires UniqueIds(employees) && n in Flatten(OrgChart(employees))
    ensures exists e :: e in employees && ReachesRoot(employees, EmployeeKey, ManagerOf, e) && n == OrgEntryOf(e)
  {
    ForestSound(employees, EmployeeKey, ManagerOf, OrgEntryOf, n);
  }

  /** An employee whose manager is not among the rows is not on the chart. */
  lemma DanglingManagerOffChart(employees: seq<Employee>, e: Employee)
    requires UniqueIds(employees) && e in employees && e.managerId.Some?
    requires forall i :: 0 <= i < |employees| ==> employees[i].id != e.managerId.value
    ensures forall n :: n in Flatten(OrgChart(employees)) ==> n.id != e.id
  {
    DanglingParentNeverReachesRoot<Employee, Id, OrgEntry>(employees, EmployeeKey, ManagerOf, e);
    OrgChartMembers(employees, e);
  }

  /** Nothing stops an administrator from making an employee without a loaded manager
      their own manager, and that employee then drops off the org chart. */
  lemma SelfManagementDropsOffChart(rows: seq<Employee>, teamIds: set<Id>, id: Id, actor: Principal)
    requires UniqueIds(rows) && IndexOfId(rows, id).Some? && actor.role == AdminRole
    requires Storable(rows[IndexOfId(rows, id).value]) && !ManagerLoaded(rows, rows[IndexOfId(rows, id).value])
    ensures var u := UpdatedRow(rows, teamIds, id, EmptyPatch.(managerId := Some(Some(id))), actor);
      && u.Ok?
      && UniqueIds(rows[IndexOfId(rows, id).value := u.value])
      && forall n :: n in Flatten(OrgChart(rows[IndexOfId(rows, id).value := u.value])) ==> n.id != id
  {
    var k := IndexOfId(rows, id).value;
    var u := UpdatedRow(rows, teamIds, id, EmptyPatch.(managerId := Some(Some(id))), actor);
    assert u.Ok?;
    var after := rows[k := u.value];
    UpdateKeepsUniqueKeys(rows, EmployeeKey, k, u.value);
    assert after[k] == u.value;
    SelfParentNeverReachesRoot<Employee, Id, OrgEntry>(after, EmployeeKey, ManagerOf, u.value);
    OrgChartMembers(after, u.value);
  }

  // ---------------------------------------------------------------------------
  // Bulk import

  /** What `bulkImport` returns. */
  datatype BulkImportResult = BulkImportResult(created: nat, updated: nat, errors: seq<ImportError>)

  /** The table and the counters part way through an import. */
  datatype ImportState = ImportState(rows: seq<Employee>, nextId: Id, created: nat, updated: nat, errors: seq<ImportError>)

  function Processed(s: ImportState): nat
  {
    s.created + s.updated + |s.errors|
  }

  /** One iteration of the import loop: upsert the row by email and count the outcome;
      a failing row is recorded with its data and the loop goes on. */
  function ImportStep(s: ImportState, p: EmployeePatch): (t: ImportState)
    requires WellKeyed(s.rows, s.nextId)
    ensures WellKeyed(t.rows, t.nextId)
    ensures Processed(t) == Processed(s) + 1
    ensures t.created >= s.created && t.updated >= s.updated && s.errors <= t.errors
    ensures |t.errors| > |s.errors| ==> t.errors == s.errors + [ImportError(p, t.errors[|s.errors|].reason)] && t.rows == s.rows
  {
    var u := UpsertByEmail(s.rows, s.nextId, p);
    match u.outcome
    case WasUpdated => ImportState(u.rows, u.nextId, s.created, s.updated + 1, s.errors)
    case WasCreated => ImportState(u.rows, u.nextId, s.created + 1, s.updated, s.errors)
    case Failed(reason) => ImportState(u.rows, u.nextId, s.created, s.updated, s.errors + [ImportError(p, reason)])
  }

  /** The import loop over `data`, row by row. */
  function ImportAll(s: ImportState, data: seq<EmployeePatch>): (t: ImportState)
    requires WellKeyed(s.rows, s.nextId)
    ensures WellKeyed(t.rows, t.nextId)
    ensures Processed(t) == Processed(s) + |data|
    ensures s.errors <= t.errors
    ensures forall i :: |s.errors| <= i < |t.errors| ==> t.errors[i].row in data
    decreases |data|
  {
    if data == [] then s
    else
      var last := |data| - 1;
      var mid := ImportAll(s, data[..last]);
      var t := ImportStep(mid, data[last]);
      assert forall i :: |s.errors| <= i < |mid.errors| ==> t.errors[i] == mid.errors[i];
      assert forall x :: x in data[..last] ==> x in data;
      t
  }

  /** A row whose email matches a stored employee updates that employee, columns
      absent from the row keeping their values, and creates nothing. */
  lemma ImportUpdatesOnEmailMatch(s: ImportState, p: EmployeePatch)
    requires WellKeyed(s.rows, s.nextId)
    requires MatchEmail(p).Some? && IndexOfEmail(s.rows, MatchEmail(p).value).Some?
    ensures var k := IndexOfEmail(s.rows, MatchEmail(p).value).value;
      var t := ImportStep(s, p);
      && t.created == s.created
      && (t.updated == s.updated + 1 <==> Storable(ApplyPatch(s.rows[k], p)))
      && (t.updated == s.updated + 1 ==> t.rows == s.rows[k := ApplyPatch(s.rows[k], p)])
  {
  }

  /** A row without a matching email creates a new employee when the table accepts
      it, and updates nobody. */
  lemma ImportCreatesOtherwise(s: ImportState, p: EmployeePatch)
    requires WellKeyed(s.rows, s.nextId)
    requires MatchEmail(p).None? || IndexOfEmail(s.rows, MatchEmail(p).value).None?
    ensures var t := ImportStep(s, p);
      && t.updated == s.updated
      && (t.created == s.created + 1 <==> NewEmployee(s.nextId, p).Some? && Storable(NewEmployee(s.nextId, p).value))
      && (t.created == s.created + 1 ==> t.rows == s.rows + [NewEmployee(s.nextId, p).value] && Agrees(p, t.rows[|s.rows|]))
  {
  }

  /** The loop `bulkImport` and `importEmployeesFromCSV` share: upsert the rows by
      email one after the other, counting creations and updates and collecting the
      failing rows; a failure does not stop the loop. */
  method UpsertRows(repository: EmployeeRepository, data: seq<EmployeePatch>)
    returns (created: nat, updated: nat, errors: seq<ImportError>)
    requires repository.Valid()
    modifies repository
    ensures repository.Valid()
    ensures ImportAll(ImportState(old(repository.rows), old(repository.nextId), 0, 0, []), data)
      == ImportState(repository.rows, repository.nextId, created, updated, errors)
  {
    ghost var start := ImportState(repository.rows, repository.nextId, 0, 0, []);
    created, updated, errors := 0, 0, [];
    for i := 0 to |data|
      invariant repository.Valid()
      invariant ImportAll(start, data[..i]) == ImportState(repository.rows, repository.nextId, created, updated, errors)
    {
      var employeeData := data[i];
      ghost var before := ImportState(repository.rows, repository.nextId, created, updated, errors);
      var outcome := SaveByEmail(repository, employeeData);
      match outcome {
        case WasUpdated => updated := updated + 1;
        case WasCreated => created := created + 1;
        case Failed(reason) => errors := errors + [ImportError(employeeData, reason)];
      }
      assert ImportStep(before, employeeData) == ImportState(repository.rows, repository.nextId, created, updated, errors);
      assert data[..i + 1][..i] == data[..i];
    }
    assert data[..|data|] == data;
  }

  // ---------------------------------------------------------------------------
  // The service

  /** The principal `create` reads the new employee back as. */
  const SystemAdmin := Principal(0, AdminRole, None)

  class EmployeesService {
    const employeesRepository: EmployeeRepository
    const auditLogRepository: AuditLogRepository

    constructor (employees: EmployeeRepository, auditLog: AuditLogRepository)
      ensures employeesRepository == employees && auditLogRepository == auditLog
    {
      employeesRepository := employees;
      auditLogRepository := auditLog;
    }

    /** `findOne`, on the current table. */
    method FindOne(id: Id, actor: Principal) returns (r: Result<Employee, ServiceError>)
      ensures r == FindOneIn(employeesRepository.rows, id, actor)
    {
      var found := employeesRepository.FindById(id);
      if found.None? {
        return Err(NotFound("Employee not found"));
      }
      var employee := found.value;
      if actor.role == ManagerRole && !ManagerMaySee(actor, employee) {
        return Err(Forbidden("Access denied"));
      }
      if !SeesSalary(actor, employee) {
        employee := employee.(salary := None);
      }
      return Ok(employee);
    }

    /** `create`: insert, record the creation, and read the new row back as an
        administrator. */
    method Create(data: EmployeePatch, userId: Id) returns (r: Result<Employee, ServiceError>)
      requires employeesRepository.Valid()
      modifies employeesRepository, auditLogRepository
      ensures employeesRepository.Valid()
      ensures NewEmployee(old(employeesRepository.nextId), data).None? ==>
        && r == Err(StoreRejected(MissingRequiredColumn))
        && employeesRepository.rows == old(employeesRepository.rows)
        && auditLogRepository.entries == old(auditLogRepository.entries)
      ensures NewEmployee(old(employeesRepository.nextId), data).Some? ==>
        var e := NewEmployee(old(employeesRepository.nextId), data).value;
        && (!Storable(e) ==>
              && r == Err(StoreRejected(InvalidStatus(e.status)))
              && employeesRepository.rows == old(employeesRepository.rows)
              && auditLogRepository.entries == old(auditLogRepository.entries))
        && (Storable(e) ==>
              && r == Ok(e)
              && employeesRepository.rows == old(employeesRepository.rows) + [e]
              && auditLogRepository.entries == old(auditLogRepository.entries)
                   + [AuditEntry(userId, CreateAction, "Employee", Some(e.id), EmployeeCreated(data))])
    {
      var inserted := employeesRepository.Insert(data);
      if inserted.Err? {
        return Err(StoreRejected(inserted.error));
      }
      var saved := inserted.value;
      auditLogRepository.Record(AuditEntry(userId, CreateAction, "Employee", Some(saved.id), EmployeeCreated(data)));
      IndexOfIdAppended(old(employeesRepository.rows), saved);
      r := FindOne(saved.id, SystemAdmin);
    }

    /** `update`: read the record as the caller, check a manager's right to change it,
        drop a manager's salary, write the patched row, record the change and return
        the record read again as the caller. `teamIds` are the ids of the stored teams,
        from which `findOne` loads the `team` relation. */
    method Update(id: Id, patch: EmployeePatch, actor: Principal, teamIds: set<Id>) returns (r: Result<Employee, ServiceError>)
      requires employeesRepository.Valid()
      modifies employeesRepository, auditLogRepository
      ensures employeesRepository.Valid()
      ensures UpdatedRow(old(employeesRepository.rows), teamIds, id, patch, actor).Err? ==>
        && r == UpdatedRow(old(employeesRepository.rows), teamIds, id, patch, actor)
        && employeesRepository.rows == old(employeesRepository.rows)
        && auditLogRepository.entries == old(auditLogRepository.entries)
      ensures UpdatedRow(old(employeesRepository.rows), teamIds, id, patch, actor).Ok? ==>
        && employeesRepository.rows == old(employeesRepository.rows)[IndexOfId(old(employeesRepository.rows), id).value
                                         := UpdatedRow(old(employeesRepository.rows), teamIds, id, patch, actor).value]
        && auditLogRepository.entries == old(auditLogRepository.entries)
             + [AuditEntry(actor.id, UpdateAction, "Employee", Some(id),
                  EmployeeUpdated(FindOneIn(old(employeesRepository.rows), id, actor).value, AppliedPatch(actor, patch)))]
        && r == FindOneIn(employeesRepository.rows, id, actor)
    {
      var loaded := FindOne(id, actor);
      if loaded.Err? {
        return loaded;
      }
      var employee := loaded.value;
      var applied := patch;
      if actor.role == ManagerRole {
        if !IsLinkedTo(actor, employee.managerId) {
          return Err(Forbidden("Access denied"));
        }
        applied := patch.(salary := None);
      }
      // The loaded entity lacks a redacted salary; `save` leaves a missing property's
      // column alone, and takes a join column from its relation when that holds a row.
      var k := IndexOfId(employeesRepository.rows, id).value;
      var stored := employeesRepository.rows[k];
      var written := ApplyPatch(stored, WrittenPatch(employeesRepository.rows, teamIds, stored, applied));
      var err := employeesRepository.Save(written);
      if err.Some? {
        return Err(StoreRejected(err.value));
      }
      auditLogRepository.Record(AuditEntry(actor.id, UpdateAction, "Employee", Some(id), EmployeeUpdated(employee, applied)));
      r := FindOne(id, actor);
    }

    /** `remove`: NotFound for a missing id; otherwise record the deletion and delete
        that row only. */
    method Remove(id: Id, userId: Id) returns (r: Result<(), ServiceError>)
      requires employeesRepository.Valid()
      modifies employeesRepository, auditLogRepository
      ensures employeesRepository.Valid()
      ensures IndexOfId(old(employeesRepository.rows), id).None? ==>
        && r == Err(NotFound("Employee not found"))
        && employeesRepository.rows == old(employeesRepository.rows)
        && auditLogRepository.entries == old(auditLogRepository.entries)
      ensures IndexOfId(old(employeesRepository.rows), id).Some? ==>
        && r == Ok(())
        && employeesRepository.rows == WithoutId(old(employeesRepository.rows), id)
        && auditLogRepository.entries == old(auditLogRepository.entries)
             + [AuditEntry(userId, DeleteAction, "Employee", Some(id),
                  EmployeeDeleted(old(employeesRepository.rows)[IndexOfId(old(employeesRepository.rows), id).value]))]
    {
      var found := employeesRepository.FindById(id);
      if found.None? {
        return Err(NotFound("Employee not found"));
      }
      auditLogRepository.Record(AuditEntry(userId, DeleteAction, "Employee", Some(id), EmployeeDeleted(found.value)));
      employeesRepository.Delete(id);
      return Ok(());
    }

    /** `bulkImport`: upsert every row by email, counting creations, updates and
        failures, then record one audit entry with the totals. */
    method BulkImport(data: seq<EmployeePatch>, userId: Id) returns (result: BulkImportResult)
      requires employeesRepository.Valid()
      modifies employeesRepository, auditLogRepository
      ensures employeesRepository.Valid()
      ensures var t := ImportAll(ImportState(old(employeesRepository.rows), old(employeesRepository.nextId), 0, 0, []), data);
        && employeesRepository.rows == t.rows
        && employeesRepository.nextId == t.nextId
        && result == BulkImportResult(t.created, t.updated, t.errors)
      ensures result.created + result.updated + |result.errors| == |data|
      ensures auditLogRepository.entries == old(auditLogRepository.entries)
        + [AuditEntry(userId, ImportAction, "Employee", None, BulkImportSummary(result.created, result.updated, result.errors))]
    {
      var created, updated, errors := UpsertRows(employeesRepository, data);
      result := BulkImportResult(created, updated, errors);
      auditLogRepository.Record(AuditEntry(userId, ImportAction, "Employee", None, BulkImportSummary(created, updated, errors)));
    }
  }
}
