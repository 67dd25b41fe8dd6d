/** The entities of the HR system and the repositories that hold them. The
    repositories stand for the database tables; the services' logic is in the
    modules Employees, Teams and ImportExport. */
module Hris {
  import opened Wrappers
  import opened Seqs

  /** Primary keys. The source uses UUID strings; only equality and freshness matter. */
  type Id = nat

  /** The four role names of the `roles` table. */
  datatype RoleName = AdminRole | HrRole | ManagerRole | EmployeeRole

  /** The authenticated user handed to the services: `user.id`, `user.role.name` and
      the id of the linked employee record, `user.employee?.id`, when there is one. */
  datatype Principal = Principal(id: Id, role: RoleName, employee: Option<Id>)

  /** `x === user.employee?.id` where `x` comes from the database: a user without a
      linked employee yields `undefined`, which equals neither an id nor `null`. */
  predicate IsLinkedTo(actor: Principal, x: Option<Id>)
  {
    actor.employee.Some? && x == actor.employee
  }

  /** A row of the `employees` table. `hireDate` and `salary` are kept as opaque text:
      their date and decimal forms play no part in the logic modelled here. */
  datatype Employee = Employee(
    id: Id,
    firstName: string,
    lastName: string,
    title: string,
    department: Option<string>,
    email: Option<string>,
    phone: Option<string>,
    managerId: Option<Id>,
    teamId: Option<Id>,
    hireDate: string,
    salary: Option<string>,
    status: string,
    userId: Option<Id>)

  /** The values of the `status` enum column. */
  const StatusValues: set<string> := {"active", "on_leave", "terminated"}

  /** The column default for `status`. */
  const DefaultStatus: string := "active"

  /** A partial employee: the update and create DTOs, a bulk-import element or a parsed
      CSV row. `None` means the key is absent; for a nullable column `Some(None)` is an
      explicit `null`. */
  datatype EmployeePatch = EmployeePatch(
    firstName: Option<string>,
    lastName: Option<string>,
    title: Option<string>,
    department: Option<Option<string>>,
    email: Option<Option<string>>,
    phone: Option<Option<string>>,
    managerId: Option<Option<Id>>,
    teamId: Option<Option<Id>>,
    hireDate: Option<string>,
    salary: Option<Option<string>>,
    status: Option<string>)

  const EmptyPatch := EmployeePatch(None, None, None, None, None, None, None, None, None, None, None)

  /** The patch's value for a field when the key is present, the current value otherwise. */
  function Pick<T>(o: Option<T>, current: T): T
  {
    if o.Some? then o.value else current
  }

  /** `Object.assign(employee, patch)`: the keys present in the patch overwrite the
      record, every other column keeps its value. */
  function ApplyPatch(e: Employee, p: EmployeePatch): (r: Employee)
    ensures r.id == e.id && r.userId == e.userId
  {
    e.(firstName := Pick(p.firstName, e.firstName),
       lastName := Pick(p.lastName, e.lastName),
       title := Pick(p.title, e.title),
       department := Pick(p.department, e.department),
       email := Pick(p.email, e.email),
       phone := Pick(p.phone, e.phone),
       managerId := Pick(p.managerId, e.managerId),
       teamId := Pick(p.teamId, e.teamId),
       hireDate := Pick(p.hireDate, e.hireDate),
       salary := Pick(p.salary, e.salary),
       status := Pick(p.status, e.status))
  }

  /** Every key present in `p` holds `p`'s value in `e`. */
  predicate Agrees(p: EmployeePatch, e: Employee)
  {
    && (p.firstName.Some? ==> e.firstName == p.firstName.value)
    && (p.lastName.Some? ==> e.lastName == p.lastName.value)
    && (p.title.Some? ==> e.title == p.title.value)
    && (p.department.Some? ==> e.department == p.department.value)
    && (p.email.Some? ==> e.email == p.email.value)
    && (p.phone.Some? ==> e.phone == p.phone.value)
    && (p.managerId.Some? ==> e.managerId == p.managerId.value)
    && (p.teamId.Some? ==> e.teamId == p.teamId.value)
    && (p.hireDate.Some? ==> e.hireDate == p.hireDate.value)
    && (p.salary.Some? ==> e.salary == p.salary.value)
    && (p.status.Some? ==> e.status == p.status.value)
  }

  /** The record differs from `e` at most in the columns `p` names. */
  predicate OnlyPatched(e: Employee, r: Employee, p: EmployeePatch)
  {
    && r.id == e.id && r.userId == e.userId
    && (p.firstName.None? ==> r.firstName == e.firstName)
    && (p.lastName.None? ==> r.lastName == e.lastName)
    && (p.title.None? ==> r.title == e.title)
    && (p.department.None? ==> r.department == e.department)
    && (p.email.None? ==> r.email == e.email)
    && (p.phone.None? ==> r.phone == e.phone)
    && (p.managerId.None? ==> r.managerId == e.managerId)
    && (p.teamId.None? ==> r.teamId == e.teamId)
    && (p.hireDate.None? ==> r.hireDate == e.hireDate)
    && (p.salary.None? ==> r.salary == e.salary)
    && (p.status.None? ==> r.status == e.status)
  }

  /** Applying a patch is characterised by the two predicates above: the result agrees
      with the patch and changes nothing else, and it is the only such record. */
  lemma ApplyPatchCharacterised(e: Employee, p: EmployeePatch, r: Employee)
    ensures r == ApplyPatch(e, p) <==> Agrees(p, r) && OnlyPatched(e, r, p)
  {
  }

  /** `q` laid over `p`: what applying `p` and then `q` amounts to. */
  function Merge(p: EmployeePatch, q: EmployeePatch): EmployeePatch
  {
    EmployeePatch(
      if q.firstName.Some? then q.firstName else p.firstName,
      if q.lastName.Some? then q.lastName else p.lastName,
      if q.title.Some? then q.title else p.title,
      if q.department.Some? then q.department else p.department,
      if q.email.Some? then q.email else p.email,
      if q.phone.Some? then q.phone else p.phone,
      if q.managerId.Some? then q.managerId else p.managerId,
      if q.teamId.Some? then q.teamId else p.teamId,
      if q.hireDate.Some? then q.hireDate else p.hireDate,
      if q.salary.Some? then q.salary else p.salary,
      if q.status.Some? then q.status else p.status)
  }

  lemma ApplyPatchCompose(e: Employee, p: EmployeePatch, q: EmployeePatch)
    ensures ApplyPatch(ApplyPatch(e, p), q) == ApplyPatch(e, Merge(p, q))
  {
  }

  /** Why a save is refused by the table: a NOT NULL column without a value, or a
      value outside the `status` enum. */
  datatype StoreError = MissingRequiredColumn | InvalidStatus(value: string)

  /** What the `employees` table accepts. */
  predicate Storable(e: Employee)
  {
    e.status in StatusValues
  }

  /** `repository.create(data)` as the row it would insert under the fresh key `id`:
      none when a NOT NULL column without default is missing. */
  function NewEmployee(id: Id, p: EmployeePatch): (r: Option<Employee>)
    ensures r.Some? <==> p.firstName.Some? && p.lastName.Some? && p.title.Some? && p.hireDate.Some?
    ensures r.Some? ==> r.value.id == id && r.value.userId == None && Agrees(p, r.value)
    ensures r.Some? && p.status.None? ==> r.value.status == DefaultStatus
    ensures r.Some? && p.department.None? ==> r.value.department == None
    ensures r.Some? && p.email.None? ==> r.value.email == None
    ensures r.Some? && p.phone.None? ==> r.value.phone == None
    ensures r.Some? && p.managerId.None? ==> r.value.managerId == None
    ensures r.Some? && p.teamId.None? ==> r.value.teamId == None
    ensures r.Some? && p.salary.None? ==> r.value.salary == None
  {
    if p.firstName.Some? && p.lastName.Some? && p.title.Some? && p.hireDate.Some? then
      Some(ApplyPatch(
        Employee(id, p.firstName.value, p.lastName.value, p.title.value, None, None, None,
                 None, None, p.hireDate.value, None, DefaultStatus, None),
        p))
    else None
  }

  function EmployeeKey(e: Employee): Id { e.id }

  /** No two rows share a primary key. */
  ghost predicate UniqueIds(rows: seq<Employee>)
  {
    UniqueKeys(rows, EmployeeKey)
  }

  /** The row with primary key `id`. */
  function IndexOfId(rows: seq<Employee>, id: Id): Option<nat>
  {
    FirstIndex(rows, (e: Employee) => e.id == id)
  }

  /** The first row whose email is `email`: `findOne({ where: { email } })`. The table
      has no uniqueness constraint on email; taking the first match is one of the
      choices the database may make. */
  function IndexOfEmail(rows: seq<Employee>, email: string): Option<nat>
  {
    FirstIndex(rows, (e: Employee) => e.email == Some(email))
  }

  /** The rows without the one whose key is `id`. */
  function WithoutId(rows: seq<Employee>, id: Id): seq<Employee>
  {
    Filter(rows, (e: Employee) => e.id != id)
  }

  /** With unique keys, looking up a row's key finds that row. */
  lemma IndexOfIdFinds(rows: seq<Employee>, i: nat)
    requires UniqueIds(rows) && i < |rows|
    ensures IndexOfId(rows, rows[i].id) == Some(i)
  {
    var r := IndexOfId(rows, rows[i].id);
    assert r.Some?;
    assert EmployeeKey(rows[r.value]) == EmployeeKey(rows[i]);
  }

  /** Overwriting a row by one with the same key leaves every lookup by key as it was. */
  lemma IndexOfIdAfterUpdate(rows: seq<Employee>, k: nat, e: Employee, id: Id)
    requires k < |rows| && e.id == rows[k].id
    ensures IndexOfId(rows[k := e], id) == IndexOfId(rows, id)
  {
    var a, b := IndexOfId(rows[k := e], id), IndexOfId(rows, id);
    assert forall j :: 0 <= j < |rows| ==> (rows[k := e][j].id == id <==> rows[j].id == id);
    if a.Some? && b.Some? {
      assert !(a.value < b.value) && !(b.value < a.value);
    }
  }

  /** A row appended under a key no other row has is found under that key. */
  lemma IndexOfIdAppended(rows: seq<Employee>, e: Employee)
    requires forall i :: 0 <= i < |rows| ==> rows[i].id != e.id
    ensures IndexOfId(rows + [e], e.id) == Some(|rows|)
  {
    var r := IndexOfId(rows + [e], e.id);
    assert (rows + [e])[|rows|].id == e.id;
  }

  /** The exceptions the services throw: NotFoundException, ForbiddenException, and a
      database error on save. */
  datatype ServiceError = NotFound(message: string) | Forbidden(message: string) | StoreRejected(reason: StoreError)

  /** The email an import row is matched on: `if (employeeData.email)` holds for a
      present, non-null, non-empty string. */
  function MatchEmail(p: EmployeePatch): Option<string>
  {
    if p.email.Some? && p.email.value.Some? && p.email.value.value != "" then Some(p.email.value.value) else None
  }

  datatype UpsertOutcome = WasUpdated | WasCreated | Failed(reason: StoreError)

  datatype UpsertResult = UpsertResult(rows: seq<Employee>, nextId: Id, outcome: UpsertOutcome)

  /** The ids are unique and all below the next fresh id. */
  ghost predicate WellKeyed(rows: seq<Employee>, nextId: Id)
  {
    UniqueIds(rows) && forall i :: 0 <= i < |rows| ==> rows[i].id < nextId
  }

  /** One step of an import: a row whose email matches a stored employee overwrites
      that employee's columns present in the row; any other row is inserted as a new
      employee; a save the table refuses changes nothing. */
  function UpsertByEmail(rows: seq<Employee>, nextId: Id, p: EmployeePatch): (u: UpsertResult)
    requires WellKeyed(rows, nextId)
    ensures WellKeyed(u.rows, u.nextId)
    ensures u.outcome.Failed? ==> u.rows == rows && u.nextId == nextId
    ensures MatchEmail(p).Some? && IndexOfEmail(rows, MatchEmail(p).value).Some? ==>
      var k := IndexOfEmail(rows, MatchEmail(p).value).value;
      && u.outcome != WasCreated
      && (u.outcome == WasUpdated <==> Storable(ApplyPatch(rows[k], p)))
      && (u.outcome == WasUpdated ==> u.rows == rows[k := ApplyPatch(rows[k], p)] && u.nextId == nextId)
    ensures MatchEmail(p).None? || IndexOfEmail(rows, MatchEmail(p).value).None? ==>
      && u.outcome != WasUpdated
      && (u.outcome == WasCreated <==> NewEmployee(nextId, p).Some? && Storable(NewEmployee(nextId, p).value))
      && (u.outcome == WasCreated ==>
            && u.rows == rows + [NewEmployee(nextId, p).value]
            && u.nextId == nextId + 1
            && Agrees(p, u.rows[|rows|])
            && forall i :: 0 <= i < |rows| ==> rows[i].id != u.rows[|rows|].id)
  {
    var k := if MatchEmail(p).Some? then IndexOfEmail(rows, MatchEmail(p).value) else None;
    if k.Some? then
      var n := ApplyPatch(rows[k.value], p);
      if Storable(n) then
        UpdateKeepsUniqueKeys(rows, EmployeeKey, k.value, n);
        UpsertResult(rows[k.value := n], nextId, WasUpdated)
      else UpsertResult(rows, nextId, Failed(InvalidStatus(n.status)))
    else
      match NewEmployee(nextId, p)
      case None => UpsertResult(rows, nextId, Failed(MissingRequiredColumn))
      case Some(e) =>
        if Storable(e) then
          var r := rows + [e];
          assert UniqueIds(r) by {
            forall i, j | 0 <= i < |r| && 0 <= j < |r| && r[i].id == r[j].id ensures i == j {
              assert i < |rows| ==> r[i] == rows[i];
              assert j < |rows| ==> r[j] == rows[j];
            }
          }
          UpsertResult(r, nextId + 1, WasCreated)
        else UpsertResult(rows, nextId, Failed(InvalidStatus(e.status)))
  }

  /** The `employees` table. */
  class EmployeeRepository {
    var rows: seq<Employee>
    /** The next fresh primary key. */
    var nextId: Id

    ghost predicate Valid()
      reads this
    {
      WellKeyed(rows, nextId)
    }

    constructor (initial: seq<Employee>, next: Id)
      requires WellKeyed(initial, next)
      ensures Valid() && rows == initial && nextId == next
    {
      rows := initial;
      nextId := next;
    }

    /** `findOne({ where: { id } })`. */
    method FindById(id: Id) returns (r: Option<Employee>)
      ensures r.Some? <==> exists i :: 0 <= i < |rows| && rows[i].id == id
      ensures r.Some? ==> r.value in rows && r.value.id == id
      ensures r.Some? ==> r.value == rows[IndexOfId(rows, id).value]
    {
      var k := IndexOfId(rows, id);
      if k.None? {
        return None;
      }
      return Some(rows[k.value]);
    }

    /** `findOne({ where: { email } })`. */
    method FindByEmail(email: string) returns (r: Option<Employee>)
      ensures r.Some? <==> exists i :: 0 <= i < |rows| && rows[i].email == Some(email)
      ensures r.Some? ==> r.value == rows[IndexOfEmail(rows, email).value]
    {
      var k := IndexOfEmail(rows, email);
      if k.None? {
        return None;
      }
      return Some(rows[k.value]);
    }

    /** `save(entity)` of a row that exists: the row is replaced unless the table refuses it. */
    method Save(e: Employee) returns (err: Option<StoreError>)
      requires Valid() && IndexOfId(rows, e.id).Some?
      modifies this
      ensures Valid() && nextId == old(nextId)
      ensures err.None? <==> Storable(e)
      ensures err.Some? ==> err.value == InvalidStatus(e.status)
      ensures rows == if err.None? then old(rows)[IndexOfId(old(rows), e.id).value := e] else old(rows)
    {
      if !Storable(e) {
        return Some(InvalidStatus(e.status));
      }
      var k := IndexOfId(rows, e.id).value;
      UpdateKeepsUniqueKeys(rows, EmployeeKey, k, e);
      rows := rows[k := e];
      return None;
    }

    /** `create(data)` followed by `save`: a new row under a fresh key. */
    method Insert(p: EmployeePatch) returns (r: Result<Employee, StoreError>)
      requires Valid()
      modifies this
      ensures Valid()
      ensures r == (match NewEmployee(old(nextId), p)
                    case None => Err(MissingRequiredColumn)
                    case Some(e) => if Storable(e) then Ok(e) else Err(InvalidStatus(e.status)))
      ensures r.Ok? ==> rows == old(rows) + [r.value] && nextId == old(nextId) + 1
      ensures r.Err? ==> rows == old(rows) && nextId == old(nextId)
    {
      var e := NewEmployee(nextId, p);
      if e.None? {
        return Err(MissingRequiredColumn);
      }
      if !Storable(e.value) {
        return Err(InvalidStatus(e.value.status));
      }
      rows := rows + [e.value];
      nextId := nextId + 1;
      return Ok(e.value);
    }

    /** `remove(entity)`. */
    method Delete(id: Id)
      requires Valid()
      modifies this
      ensures Valid() && nextId == old(nextId)
      ensures rows == WithoutId(old(rows), id)
    {
      FilterKeepsUniqueKeys(rows, EmployeeKey, (e: Employee) => e.id != id);
      rows := WithoutId(rows, id);
    }
  }

  /** The body of the import loops: look the row's email up, then save the matching
      employee with the row applied, or insert the row as a new employee. */
  method SaveByEmail(repository: EmployeeRepository, p: EmployeePatch) returns (outcome: UpsertOutcome)
    requires repository.Valid()
    modifies repository
    ensures repository.Valid()
    ensures UpsertResult(repository.rows, repository.nextId, outcome) == UpsertByEmail(old(repository.rows), old(repository.nextId), p)
  {
    var existing: Option<Employee> := None;
    if MatchEmail(p).Some? {
      existing := repository.FindByEmail(MatchEmail(p).value);
    }
    if existing.Some? {
      IndexOfIdFinds(repository.rows, IndexOfEmail(repository.rows, MatchEmail(p).value).value);
      var err := repository.Save(ApplyPatch(existing.value, p));
      outcome := if err.None? then WasUpdated else Failed(err.value);
    } else {
      var inserted := repository.Insert(p);
      outcome := if inserted.Ok? then WasCreated else Failed(inserted.error);
    }
  }

  /** A row of the `teams` table. */
  datatype Team = Team(
    id: Id,
    name: string,
    description: Option<string>,
    leadId: Option<Id>,
    parentTeamId: Option<Id>)

  /** The update DTO of a team; `None` means the key is absent. */
  datatype TeamPatch = TeamPatch(
    name: Option<string>,
    description: Option<Option<string>>,
    leadId: Option<Option<Id>>,
    parentTeamId: Option<Option<Id>>)

  /** `Object.assign(team, patch)`. */
  function ApplyTeamPatch(t: Team, p: TeamPatch): (r: Team)
    ensures r.id == t.id
  {
    t.(name := Pick(p.name, t.name),
       description := Pick(p.description, t.description),
       leadId := Pick(p.leadId, t.leadId),
       parentTeamId := Pick(p.parentTeamId, t.parentTeamId))
  }

  function TeamKey(t: Team): Id { t.id }

  function IndexOfTeam(rows: seq<Team>, id: Id): Option<nat>
  {
    FirstIndex(rows, (t: Team) => t.id == id)
  }

  /** The `teams` table. */
  class TeamRepository {
    var rows: seq<Team>

    ghost predicate Valid()
      reads this
    {
      UniqueKeys(rows, TeamKey)
    }

    constructor (initial: seq<Team>)
      requires UniqueKeys(initial, TeamKey)
      ensures Valid() && rows == initial
    {
      rows := initial;
    }

    /** `findOne({ where: { id } })`. */
    method FindById(id: Id) returns (r: Option<Team>)
      ensures r.Some? <==> exists i :: 0 <= i < |rows| && rows[i].id == id
      ensures r.Some? ==> r.value.id == id && r.value == rows[IndexOfTeam(rows, id).value]
    {
      var k := IndexOfTeam(rows, id);
      if k.None? {
        return None;
      }
      return Some(rows[k.value]);
    }

    /** `save(entity)` of a team that exists. */
    method Save(t: Team)
      requires Valid() && IndexOfTeam(rows, t.id).Some?
      modifies this
      ensures Valid()
      ensures rows == old(rows)[IndexOfTeam(old(rows), t.id).value := t]
    {
      var k := IndexOfTeam(rows, t.id).value;
      UpdateKeepsUniqueKeys(rows, TeamKey, k, t);
      rows := rows[k := t];
    }

    /** `remove(entity)`: only this row; rows that point at it are not touched. */
    method Delete(id: Id)
      requires Valid()
      modifies this
      ensures Valid()
      ensures rows == Filter(old(rows), (t: Team) => t.id != id)
    {
      FilterKeepsUniqueKeys(rows, TeamKey, (t: Team) => t.id != id);
      rows := Filter(rows, (t: Team) => t.id != id);
    }
  }

  datatype AuditAction = CreateAction | UpdateAction | DeleteAction | ImportAction

  /** A row that an import could not store, with the reason the table gave. */
  datatype ImportError = ImportError(row: EmployeePatch, reason: StoreError)

  /** The `changes` payload of an audit entry. */
  datatype AuditChanges =
    | EmployeeCreated(data: EmployeePatch)
    | EmployeeUpdated(previous: Employee, applied: EmployeePatch)
    | EmployeeDeleted(deleted: Employee)
    | BulkImportSummary(created: nat, updated: nat, bulkErrors: seq<ImportError>)
    | TeamUpdated(previousTeam: Team, appliedTeam: TeamPatch)
    | TeamDeleted(deletedTeam: Team)
    | CsvImportSummary(success: nat, csvErrors: seq<ImportError>)

  /** A row of the `audit_logs` table. */
  datatype AuditEntry = AuditEntry(
    userId: Id,
    action: AuditAction,
    entityType: string,
    entityId: Option<Id>,
    changes: AuditChanges)

  /** The `audit_logs` table: append-only. */
  class AuditLogRepository {
    var entries: seq<AuditEntry>

    constructor ()
      ensures entries == []
    {
      entries := [];
    }

    method Record(entry: AuditEntry)
      modifies this
      ensures entries == old(entries) + [entry]
    {
      entries := entries + [entry];
    }
  }
}
