/** The role guard that sits in front of every controller route. */
module Guards {
  import opened Wrappers
  import opened Hris

  /** What `canActivate` does: return `true`, or throw a ForbiddenException. */
  datatype Decision = Allow | Deny(message: string)

  /** The `@Roles(...)` metadata that applies to a route: the handler's when it has
      any, otherwise the controller class's (`getAllAndOverride`). */
  function RequiredRoles(handler: Option<seq<RoleName>>, controller: Option<seq<RoleName>>): (r: Option<seq<RoleName>>)
    ensures r.Some? <==> handler.Some? || controller.Some?
    ensures r.Some? ==> r.value == if handler.Some? then handler.value else controller.value
  {
    if handler.Some? then handler else controller
  }

  /** `requiredRoles.some(role => user.role.name === role)`, written as the scan it is. */
  function HasSomeRole(required: seq<RoleName>, role: RoleName): (b: bool)
    ensures b <==> exists i :: 0 <= i < |required| && required[i] == role
  {
    if required == [] then false
    else required[0] == role || HasSomeRole(required[1..], role)
  }

  /** The guard: a route without role metadata is open to every caller; otherwise the
      request must carry a user, whose role must be one of the required ones. */
  function CanActivate(handler: Option<seq<RoleName>>, controller: Option<seq<RoleName>>, user: Option<Principal>): (d: Decision)
    ensures RequiredRoles(handler, controller).None? ==> d == Allow
    ensures RequiredRoles(handler, controller).Some? && user.None? ==> d == Deny("User not authenticated")
    ensures RequiredRoles(handler, controller).Some? && user.Some? ==>
      d == (if user.value.role in RequiredRoles(handler, controller).value then Allow else Deny("Insufficient permissions"))
  {
    var required := RequiredRoles(handler, controller);
    if required.None? then Allow
    else if user.None? then Deny("User not authenticated")
    else if HasSomeRole(required.value, user.value.role) then Allow
    else Deny("Insufficient permissions")
  }

  /** The guard lets a user through exactly when the route names no roles or names
      the user's role. */
  lemma AllowedIff(handler: Option<seq<RoleName>>, controller: Option<seq<RoleName>>, user: Principal)
    ensures CanActivate(handler, controller, Some(user)) == Allow <==>
      RequiredRoles(handler, controller).None? || user.role in RequiredRoles(handler, controller).value
  {
  }

  /** `@Roles()` with no arguments is metadata all the same: it locks everybody out. */
  lemma EmptyRolesDenyEveryone(controller: Option<seq<RoleName>>, user: Option<Principal>)
    ensures CanActivate(Some([]), controller, user).Deny?
  {
  }

  /** Handler metadata overrides the class's, in both directions: it can open a route
      a class-level list would close, and close one the class leaves open. */
  lemma HandlerOverridesController(handler: seq<RoleName>, controller: Option<seq<RoleName>>, user: Principal)
    ensures CanActivate(Some(handler), controller, Some(user)) == CanActivate(Some(handler), None, Some(user))
  {
  }

  // The role lists on the routes of the three controllers in front of the core.
  // Routes not listed here (employee list, org chart, employee detail, team list,
  // team hierarchy, team detail, team members, the PDF exports) carry none.

  const ManagersAndUp: seq<RoleName> := [AdminRole, HrRole, ManagerRole]
  const AdminAndHr: seq<RoleName> := [AdminRole, HrRole]

  /** `PUT /employees/:id` */
  const UpdateEmployeeRoles: Option<seq<RoleName>> := Some(ManagersAndUp)
  /** `GET /employees/:id/direct-reports` */
  const DirectReportsRoles: Option<seq<RoleName>> := Some(ManagersAndUp)
  /** `POST /employees`, `POST /employees/bulk-import`, `DELETE /employees/:id` */
  const CreateEmployeeRoles: Option<seq<RoleName>> := Some(AdminAndHr)
  const BulkImportRoles: Option<seq<RoleName>> := Some(AdminAndHr)
  const DeleteEmployeeRoles: Option<seq<RoleName>> := Some(AdminAndHr)
  /** `PUT /teams/:id`, `DELETE /teams/:id` */
  const UpdateTeamRoles: Option<seq<RoleName>> := Some(AdminAndHr)
  const DeleteTeamRoles: Option<seq<RoleName>> := Some(AdminAndHr)
  /** `POST /import-export/import/csv`, `POST /import-export/import/csv-text`,
      `GET /import-export/template/csv` */
  const CsvImportRoles: Option<seq<RoleName>> := Some(AdminAndHr)
  const CsvTemplateRoles: Option<seq<RoleName>> := Some(AdminAndHr)
  /** The controllers themselves carry no `@Roles`. */
  const ControllerRoles: Option<seq<RoleName>> := None

  /** Only administrators and HR get past the guard on the routes that create,
      delete or import employees, change or delete teams, or import CSV. */
  lemma AdminAndHrOnly(user: Principal)
    ensures CanActivate(CreateEmployeeRoles, ControllerRoles, Some(user)) == Allow <==> user.role == AdminRole || user.role == HrRole
    ensures CanActivate(BulkImportRoles, ControllerRoles, Some(user)) == Allow <==> user.role == AdminRole || user.role == HrRole
    ensures CanActivate(DeleteEmployeeRoles, ControllerRoles, Some(user)) == Allow <==> user.role == AdminRole || user.role == HrRole
    ensures CanActivate(UpdateTeamRoles, ControllerRoles, Some(user)) == Allow <==> user.role == AdminRole || user.role == HrRole
    ensures CanActivate(DeleteTeamRoles, ControllerRoles, Some(user)) == Allow <==> user.role == AdminRole || user.role == HrRole
    ensures CanActivate(CsvImportRoles, ControllerRoles, Some(user)) == Allow <==> user.role == AdminRole || user.role == HrRole
  {
  }

  /** Plain employees are turned away from `PUT /employees/:id`; managers are not. */
  lemma UpdateEmployeeAdmits(user: Principal)
    ensures CanActivate(UpdateEmployeeRoles, ControllerRoles, Some(user)) == Allow <==> user.role != EmployeeRole
  {
  }
}
