# HRIS core in Dafny

A model of the core of an HR information system built with NestJS and TypeORM. It
covers the following parts of that system:

- **Role guard.** `RolesGuard.canActivate` reads the `@Roles(...)` metadata of a route
  and decides whether the caller may go on. The model also holds the role lists that
  the employees, teams and import/export controllers put on their routes.
- **Employees service.** It covers the role-scoped list (`findAll`), reading one
  record with salary redaction (`findOne`), `create`, `update`, `remove`, the org
  chart (`getOrgChart`) and the bulk upsert by email (`bulkImport`).
- **Teams service.** It covers `findOne`, `update`, `remove` and the team hierarchy
  (`getTeamHierarchy`).
- **Import/export service.** It covers the CSV parser (`parseCSV`), the CSV template
  (`generateCSVTemplate`) and the CSV import (`importEmployeesFromCSV`).

The files:

- `wrappers.dfy`: `Option` and `Result`.
- `seqs.dfy`: order-preserving `filter`, `map` and `findIndex` on sequences.
- `text.dfy`: the JavaScript string operations the services rely on. These are
  `trim`, `split` on one character, `join`, `toLowerCase` and `includes`.
- `forest.dfy`: the `buildTree` recursion that the org chart and the team hierarchy
  share. The recursion starts from the items without a parent. Each node's children
  are the items whose parent key is that node's key, kept in query order.
- `hris.dfy`: the entities (`Employee`, `Team`, audit entries), the partial-employee
  patch that `Object.assign` applies, and the three tables. The tables are
  repository classes whose `rows` the methods update in place.
- `guards.dfy`, `employees.dfy`, `teams.dfy`, `import_export.dfy`: one module per
  source file, with a class per service.

The services are classes whose methods change the repositories. Each method is
proved against a specification function on the old table contents. The properties
the system promises are proved as lemmas about those functions.

Some behaviours of the code are modelled as written, and lemmas state them:

- `update` loads the record with its relations, and `save` writes a join column
  from its relation object when that holds a row. A patch's `managerId` or `teamId`
  is therefore written only where the stored key names no row, and a team's
  `parentTeamId` or `leadId` likewise (`Employees.UpdatedRow`, `Teams.SavedTeam`).
- An administrator can make an employee without a manager their own manager. That
  employee then disappears from the org chart
  (`Employees.SelfManagementDropsOffChart`). A team without a parent can be made
  its own parent in the same way, and drops out of the hierarchy
  (`Teams.SelfParentingDropsOffHierarchy`).
- Deleting a team writes nothing to its sub-teams. In the model, where foreign
  keys are not enforced, they keep pointing at a team that no longer exists, and
  they and every team below them drop out of the hierarchy
  (`Teams.RemovalOrphansSubTeams`).
- A manager who moves one of their reports to another manager changes nothing and
  gets the report back unchanged (`Employees.ManagerReassignmentDropped`). Only
  where the manager's own record is not among the rows is the move written, and
  then the manager gets `Forbidden` back for a write that has already happened
  (`Employees.ManagerReassignmentReportsForbidden`).
- A manager can read their own record but cannot update it
  (`Employees.ManagerCannotUpdateOwnRecord`).

The code has no manager-cycle validator, no depth limit and no re-parenting of
sub-teams when a team is deleted. The model follows the code here: manager and
parent links are accepted as given. The tree builders are proved to terminate and to
be correct on any input, cycles included, as long as ids are unique.

## Model

| member | source | states |
|---|---|---|
| Guards.RequiredRoles | backend/src/guards/roles.guard.ts:11-14 | The route's roles are the handler's list when it has one, otherwise the class's list, otherwise none. |
| Guards.HasSomeRole | backend/src/guards/roles.guard.ts:26 | The scan is true exactly when some required role equals the user's role. |
| Guards.CanActivate | backend/src/guards/roles.guard.ts:10-32 | A route with no roles allows everyone. With roles and no user it denies with "User not authenticated". Otherwise it allows exactly when the user's role is listed, and denies with "Insufficient permissions" when it is not. |
| Guards.AllowedIff | backend/src/guards/roles.guard.ts:16-31 | An authenticated user passes if and only if the route names no roles or names the user's role. |
| Guards.EmptyRolesDenyEveryone | backend/src/guards/roles.guard.ts:16-30 | An empty `@Roles()` list is still metadata, so it denies every caller. |
| Guards.HandlerOverridesController | backend/src/guards/roles.guard.ts:11-14 | When the handler has a role list, the class's list makes no difference. |
| Guards.AdminAndHrOnly | backend/src/modules/employees/employees.controller.ts:66-99 | On creating, bulk-importing and deleting employees, updating and deleting teams, and importing CSV, a user passes if and only if they are an administrator or HR. |
| Guards.UpdateEmployeeAdmits | backend/src/modules/employees/employees.controller.ts:84-85 | `PUT /employees/:id` admits every role except plain employees. |
| Hris.ApplyPatch | backend/src/modules/employees/employees.service.ts:166 | `Object.assign` keeps the id and the user link. |
| Hris.ApplyPatchCharacterised | backend/src/modules/employees/employees.service.ts:166 | The patched record is the unique record that holds every key present in the patch and differs from the old record in no other column. |
| Hris.ApplyPatchCompose | backend/src/modules/employees/employees.service.ts:236 | Applying two patches in turn equals applying their merge, the later key winning. |
| Hris.NewEmployee | backend/src/entities/employee.entity.ts:16-65 | `create(dto)` yields a row exactly when first name, last name, title and hire date are given. The row has the fresh id, holds every given key, takes status `active` by default and leaves every absent nullable column null. |
| Hris.IndexOfIdFinds | backend/src/modules/employees/employees.service.ts:105-108 | With unique ids, looking up a row's id finds that row. |
| Hris.IndexOfIdAfterUpdate | backend/src/modules/employees/employees.service.ts:167 | Saving a row under its own id changes no lookup by id. |
| Hris.IndexOfIdAppended | backend/src/modules/employees/employees.service.ts:139 | A row inserted under a fresh id is found under that id. |
| Hris.UpsertByEmail | backend/src/modules/employees/employees.service.ts:225-244 | A row whose non-empty email matches a stored employee overwrites that employee's patched columns, or fails when the table refuses the result. Any other row is inserted under a fresh id when its required columns are present and its status is valid. A failure changes nothing. Ids stay unique. |
| Hris.EmployeeRepository.constructor | backend/src/modules/employees/employees.service.ts:12-17 | The table starts with the given well-keyed rows. |
| Hris.EmployeeRepository.FindById | backend/src/modules/employees/employees.service.ts:105-108 | It returns a row exactly when some row has that id, and then it is the row with that id. |
| Hris.EmployeeRepository.FindByEmail | backend/src/modules/employees/employees.service.ts:229-231 | It returns a row exactly when some row has that email, and then it is the first such row. |
| Hris.EmployeeRepository.Save | backend/src/modules/employees/employees.service.ts:167 | It replaces the row with the same id when the status is in the enum. Otherwise it refuses with `InvalidStatus` and changes nothing. |
| Hris.EmployeeRepository.Insert | backend/src/modules/employees/employees.service.ts:138-139 | It appends the row `create` builds under the next fresh id. A missing required column or a bad status leaves the table unchanged. |
| Hris.EmployeeRepository.Delete | backend/src/modules/employees/employees.service.ts:188 | It removes exactly the row with that id. |
| Hris.SaveByEmail | backend/src/modules/employees/employees.service.ts:226-244 | The new table and the outcome are exactly `UpsertByEmail` of the old table. |
| Hris.ApplyTeamPatch | backend/src/modules/teams/teams.service.ts:80 | `Object.assign` on a team keeps its id. |
| Hris.TeamRepository.FindById | backend/src/modules/teams/teams.service.ts:49-52 | It returns a team exactly when one has that id, and then it is that team. |
| Hris.TeamRepository.Save | backend/src/modules/teams/teams.service.ts:81 | It replaces the team with the same id. |
| Hris.TeamRepository.Delete | backend/src/modules/teams/teams.service.ts:102 | It removes exactly the team with that id and leaves the other rows alone, including those that point at it. |
| Hris.AuditLogRepository.Record | backend/src/modules/employees/employees.service.ts:19-33 | It appends exactly one entry. |
| Employees.FindAll | backend/src/modules/employees/employees.service.ts:82-101 | The result is a subsequence of the query result. A manager gets exactly themself and their direct reports, whatever the search. Other roles with a non-empty search get exactly the rows whose first name, last name or email contains it, ignoring case. Without a search they get every row. Each kept row appears as often as in the query result. |
| Employees.ManagerIgnoresSearch | backend/src/modules/employees/employees.service.ts:83-89 | A manager's list does not depend on the search text. |
| Employees.UnlinkedManagerSeesNobody | backend/src/modules/employees/employees.service.ts:85-88 | A manager without a linked employee record gets an empty list. |
| Employees.FindOneIn | backend/src/modules/employees/employees.service.ts:104-132 | A missing id gives NotFound first. A manager asking for a record that is neither their own nor a direct report's gets Forbidden. Otherwise the result is the stored record, with the salary removed unless the caller is an administrator, HR or the employee themself. |
| Employees.ManagerListMatchesFindOne | backend/src/modules/employees/employees.service.ts:83-120 | With unique ids, a record is in a manager's list if and only if the manager can open it with `findOne`. |
| Employees.EmployeesSeeAllRecordsWithoutSalary | backend/src/modules/employees/employees.service.ts:115-129 | A plain employee can open every existing record, and every record but their own comes without its salary. |
| Employees.AppliedPatch | backend/src/modules/employees/employees.service.ts:161-162 | For a manager the `salary` key is deleted from the patch and nothing else changes. For other roles the patch is kept as it is. |
| Employees.UpdatedRow | backend/src/modules/employees/employees.service.ts:148-167 | A `findOne` error propagates unchanged. A manager updating a record whose manager is not them gets Forbidden. Otherwise the row written is the stored row with the applied patch, or a store error for a bad status. The written row keeps its id, holds the patch's other keys and changes no other column. Its manager and team stay as stored when their relation loaded a row, and take the patch's value otherwise. A manager's update keeps the salary. |
| Employees.ManagerCannotUpdateOwnRecord | backend/src/modules/employees/employees.service.ts:115-160 | A manager can read their own record, but updating it gives Forbidden unless they are recorded as their own manager. |
| Employees.ManagerUpdateKeepsSalary | backend/src/modules/employees/employees.service.ts:161-162 | After any successful update by a manager, the stored salary is unchanged. |
| Employees.OnlyAdminAndHrChangeSalary | backend/src/modules/employees/employees.controller.ts:84-85 | Past the guard on `PUT /employees/:id`, an update that changes a salary was made by an administrator or HR. |
| Employees.ManagerReassignmentDropped | backend/src/modules/employees/employees.service.ts:148-174 | A manager whose own record is stored and who moves their report to another manager writes the row unchanged and gets the report back, salary hidden. |
| Employees.ManagerReassignmentReportsForbidden | backend/src/modules/employees/employees.service.ts:148-174 | When the manager's own record is not among the rows, the move is written and the closing `findOne` answers Forbidden. |
| Employees.OrgChart | backend/src/modules/employees/employees.service.ts:191-212 | `getOrgChart`: its contract is carried by `OrgChartShape`, `OrgChartMembers` and `OrgChartSound`. |
| Employees.OrgEntryOf | backend/src/modules/employees/employees.service.ts:201-208 | A chart node has the employee's id, title, department and team, and the name "first last". |
| Employees.OrgChartShape | backend/src/modules/employees/employees.service.ts:198-211 | The top level holds exactly the employees without a manager. Each node's children are exactly the employees it manages. Every group is in query order. |
| Employees.OrgChartMembers | backend/src/modules/employees/employees.service.ts:198-211 | An employee is on the chart if and only if their chain of managers ends at someone without a manager. |
| Employees.OrgChartSound | backend/src/modules/employees/employees.service.ts:198-211 | Every chart node is the entry of an employee whose chain of managers reaches the top. |
| Employees.DanglingManagerOffChart | backend/src/modules/employees/employees.service.ts:200 | An employee whose manager is not among the rows is not on the chart. |
| Employees.SelfManagementDropsOffChart | backend/src/modules/employees/employees.service.ts:155-211 | An administrator's update may make an employee whose manager relation loaded nothing their own manager, and that employee then has no node on the chart. |
| Employees.ImportStep | backend/src/modules/employees/employees.service.ts:224-251 | One iteration counts exactly one row, as created, updated or failed. A failure appends the row with its reason and leaves the table alone. Ids stay unique. |
| Employees.ImportAll | backend/src/modules/employees/employees.service.ts:224-251 | The loop counts every row once, keeps ids unique, only appends errors, and every error names a row of the input. |
| Employees.ImportUpdatesOnEmailMatch | backend/src/modules/employees/employees.service.ts:228-238 | A row whose email matches a stored employee never creates a row. It updates that employee, keeping the columns the row lacks, exactly when the result is storable. |
| Employees.ImportCreatesOtherwise | backend/src/modules/employees/employees.service.ts:239-244 | A row without a matching email never updates a row. It adds exactly one new employee holding the row's keys when the table accepts it. |
| Employees.UpsertRows | backend/src/modules/employees/employees.service.ts:224-251 | The loop leaves exactly the table and the counts of `ImportAll` over the rows. |
| Employees.EmployeesService.constructor | backend/src/modules/employees/employees.service.ts:12-17 | The service holds the given repositories. |
| Employees.EmployeesService.FindOne | backend/src/modules/employees/employees.service.ts:104-132 | The result is `FindOneIn` on the current table, and nothing changes. |
| Employees.EmployeesService.Create | backend/src/modules/employees/employees.service.ts:134-146 | A row `create` cannot build fails with nothing written. Otherwise the row is stored under a fresh id, one CREATE entry is recorded, and the new record is returned as an administrator sees it. |
| Employees.EmployeesService.Update | backend/src/modules/employees/employees.service.ts:148-175 | When `UpdatedRow` fails, that error is returned and nothing is written or logged. Otherwise exactly that row is replaced by the row `UpdatedRow` gives, one UPDATE entry is recorded with the loaded record and the applied patch, and the result is `findOne` of the new table as the caller. |
| Employees.EmployeesService.Remove | backend/src/modules/employees/employees.service.ts:177-189 | A missing id gives NotFound with nothing changed. Otherwise one DELETE entry is recorded and exactly that row is deleted. |
| Employees.EmployeesService.BulkImport | backend/src/modules/employees/employees.service.ts:214-258 | The table and the result are those of `ImportAll`, created plus updated plus errors equals the number of rows, and one IMPORT entry is appended. |
| Teams.ApplyTeamPatchCharacterised | backend/src/modules/teams/teams.service.ts:80 | The patched team is the unique team that holds every key present in the patch and changes no other column. |
| Teams.SavedTeam | backend/src/modules/teams/teams.service.ts:72-81 | The saved team holds the patch's name and description when present and changes no other column. Its parent and lead stay as stored when their relation loaded a row, and take the patch's value otherwise. |
| Teams.UpdateAcceptsAnyParent | backend/src/modules/teams/teams.service.ts:72-89 | For a team whose parent relation loaded nothing, `update` writes whatever parent the patch names, the team itself included. |
| Teams.SelfParentingDropsOffHierarchy | backend/src/modules/teams/teams.service.ts:72-131 | A team without a loaded parent that is made its own parent is missing from the hierarchy afterwards. |
| Teams.FindTeamIn | backend/src/modules/teams/teams.service.ts:48-59 | It gives NotFound("Team not found") exactly when no team has the id. Otherwise it gives a stored team with that id. |
| Teams.TeamHierarchy | backend/src/modules/teams/teams.service.ts:105-132 | `getTeamHierarchy`: its contract is carried by `HierarchyShape`, `HierarchyNodes` and `HierarchyMembers`. |
| Teams.TeamEntryOf | backend/src/modules/teams/teams.service.ts:115-128 | A hierarchy node: its contract is carried by `HierarchyNodes`. |
| Teams.HierarchyShape | backend/src/modules/teams/teams.service.ts:105-132 | The top level holds exactly the teams without a parent. Each node's sub-teams are exactly the teams whose parent it is. Every group is in query order. |
| Teams.HierarchyNodes | backend/src/modules/teams/teams.service.ts:115-128 | Every node describes a team whose parent chain reaches the top: its id, name and description, its member count (the loaded members, or 0), and its lead as id, "first last" and title, or none. |
| Teams.HierarchyMembers | backend/src/modules/teams/teams.service.ts:112-131 | A team is in the hierarchy if and only if its chain of parents ends at a team without a parent. |
| Teams.DanglingParentOffHierarchy | backend/src/modules/teams/teams.service.ts:114 | A team whose parent is not among the teams never appears. |
| Teams.Load | backend/src/modules/teams/teams.service.ts:106-109 | Loading `lead` gives the employee with the team's lead id, if any. Loading `members` gives exactly the employees of the team, in order. |
| Teams.LoadAll | backend/src/modules/teams/teams.service.ts:106-109 | Every team is loaded, one for one. |
| Teams.LoadAllKeepsUniqueKeys | backend/src/modules/teams/teams.service.ts:106-109 | Loading relations keeps team ids unique. |
| Teams.RemovalOrphansSubTeams | backend/src/modules/teams/teams.service.ts:91-131 | `remove` writes nothing to sub-teams. With the parent key unenforced, every team below the deleted one, at any depth, is missing from the hierarchy afterwards. |
| Teams.RemoveKeepsOtherTeams | backend/src/modules/teams/teams.service.ts:102 | Deleting a team keeps every other team unchanged. |
| Teams.TeamsService.constructor | backend/src/modules/teams/teams.service.ts:10-16 | The service holds the given repositories. |
| Teams.TeamsService.FindOne | backend/src/modules/teams/teams.service.ts:48-59 | The result is `FindTeamIn` on the current table. |
| Teams.TeamsService.Update | backend/src/modules/teams/teams.service.ts:72-89 | A missing id gives NotFound with nothing changed. Otherwise the team is replaced by `SavedTeam` of the patch, one UPDATE entry with the old team and the patch is recorded, and the stored team is returned. |
| Teams.TeamsService.Remove | backend/src/modules/teams/teams.service.ts:91-103 | A missing id gives NotFound with nothing changed. Otherwise one DELETE entry is recorded and exactly that team is deleted. |
| ImportExport.FieldNamed | backend/src/modules/import-export/import-export.service.ts:45-76 | The `switch` on the lowercased header: its contract is carried by `HeaderAliases` and `TemplateHeaderFields`. |
| ImportExport.FieldOf | backend/src/modules/import-export/import-export.service.ts:45 | Its contract is carried by `FieldOfIgnoresCase` and `HeaderFields`. |
| ImportExport.FieldOfIgnoresCase | backend/src/modules/import-export/import-export.service.ts:45 | Header matching ignores case. |
| ImportExport.HeaderAliases | backend/src/modules/import-export/import-export.service.ts:45-76 | `first_name`, `last_name` and `hire_date` are aliases. Unlisted columns name nothing. |
| ImportExport.HeaderFields | backend/src/modules/import-export/import-export.service.ts:41-45 | Each header maps to the field its lowercased form names. |
| ImportExport.AssignCells | backend/src/modules/import-export/import-export.service.ts:41-77 | The `forEach` over the columns: its contract is carried by `AssignCellsLastWins`. |
| ImportExport.AssignCellsLastWins | backend/src/modules/import-export/import-export.service.ts:41-77 | A field is set if and only if some column names it and has a non-empty cell. It then holds the cell of the last such column. |
| ImportExport.RowPatch | backend/src/modules/import-export/import-export.service.ts:39-80 | The row has a key for exactly each field the line set, holding that field's cell. Optional columns hold the cell as a nullable value. It never sets manager or team. |
| ImportExport.ParseRows | backend/src/modules/import-export/import-export.service.ts:37-82 | There is at most one row per data line. |
| ImportExport.ParseRowsSnoc | backend/src/modules/import-export/import-export.service.ts:79-81 | One more data line adds its row exactly when that line fills the four required fields. |
| ImportExport.Records | backend/src/modules/import-export/import-export.service.ts:37-78 | There is one record per data line. |
| ImportExport.ParseRowsFiltersComplete | backend/src/modules/import-export/import-export.service.ts:37-84 | The rows are exactly the complete records of the data lines, in line order. |
| ImportExport.NoTextIffBlank | backend/src/modules/import-export/import-export.service.ts:33 | Filtering with `trim()` leaves nothing if and only if every line is whitespace. |
| ImportExport.ParseCsvSpec | backend/src/modules/import-export/import-export.service.ts:32-85 | `parseCSV`: its contract is carried by `ParseFailsIffBlank`, `ParseRowsFiltersComplete` and `TemplateRoundTrip`. |
| ImportExport.ParseFailsIffBlank | backend/src/modules/import-export/import-export.service.ts:33-34 | `parseCSV` throws, having no header line, if and only if every line of the content is whitespace. |
| ImportExport.Template | backend/src/modules/import-export/import-export.service.ts:480 | The template is non-empty and ends with a newline. |
| ImportExport.TwoLineCsv | backend/src/modules/import-export/import-export.service.ts:33-38 | A two-line text of plain cells parses with its first line as headers and its second line as the only data line. |
| ImportExport.JoinedCells | backend/src/modules/import-export/import-export.service.ts:34-38 | A line joined from plain cells splits and trims back into exactly those cells. |
| ImportExport.TemplateHeaderFields | backend/src/modules/import-export/import-export.service.ts:456-466 | Each of the nine template headers names its own field, camel case included. |
| ImportExport.TemplateRecord | backend/src/modules/import-export/import-export.service.ts:468-478 | The example line fills all nine fields, so the row is complete and equals the example row. |
| ImportExport.TemplateRoundTrip | backend/src/modules/import-export/import-export.service.ts:455-481 | Parsing the template gives exactly one row, the example row. |
| ImportExport.Tally | backend/src/modules/import-export/import-export.service.ts:113-118 | Successes plus errors equals the number of rows processed. |
| ImportExport.ImportExportService.constructor | backend/src/modules/import-export/import-export.service.ts:12-20 | The service holds the given repositories. |
| ImportExport.ImportExportService.ParseCsv | backend/src/modules/import-export/import-export.service.ts:32-85 | The result is `ParseCsvSpec` of the content. |
| ImportExport.ImportExportService.ParseLines | backend/src/modules/import-export/import-export.service.ts:37-82 | The loop yields exactly `ParseRows`. |
| ImportExport.ImportExportService.FillRecord | backend/src/modules/import-export/import-export.service.ts:41-77 | The `forEach` yields exactly `AssignCells` over all columns. |
| ImportExport.ImportExportService.ImportEmployeesFromCsv | backend/src/modules/import-export/import-export.service.ts:87-128 | A parse failure is returned before anything is written or logged. Otherwise the rows are upserted as `ImportAll` says, the result is its tally, and one IMPORT entry is recorded. |
| ImportExport.ImportExportService.ImportRows | backend/src/modules/import-export/import-export.service.ts:94-127 | The table is that of `ImportAll`, successes plus errors equals the number of rows, and one audit entry is appended. |
| Text.Trim | backend/src/modules/import-export/import-export.service.ts:34 | `trim()`: its contract is carried by `TrimSpec`. |
| Text.TrimSpec | backend/src/modules/import-export/import-export.service.ts:34 | `trim()` gives the infix with only whitespace on either side that neither starts nor ends with whitespace. |
| Text.TrimUnchanged | backend/src/modules/import-export/import-export.service.ts:34 | A string without whitespace at either end is its own trim. |
| Text.TrimEmptyIffAllSpace | backend/src/modules/import-export/import-export.service.ts:33 | A string trims to empty if and only if it is all whitespace. |
| Text.Split | backend/src/modules/import-export/import-export.service.ts:33-34 | `split` gives at least one piece, no piece holds the separator, and joining the pieces gives back the string. |
| Text.Join | backend/src/modules/import-export/import-export.service.ts:480 | `join`: its contract is carried by `Split` and `SplitJoin`. |
| Text.SplitJoin | backend/src/modules/import-export/import-export.service.ts:480 | Splitting a join of separator-free parts gives the parts back. |
| Text.Lower | backend/src/modules/import-export/import-export.service.ts:45 | `toLowerCase()`: its contract is carried by `LowerPointwise`. |
| Text.LowerPointwise | backend/src/modules/import-export/import-export.service.ts:45 | `toLowerCase` keeps the length and works character by character. |
| Text.LowerIdempotent | backend/src/modules/employees/employees.service.ts:95-97 | Lowercasing twice equals lowercasing once. |
| Text.LowerConcat | backend/src/modules/import-export/import-export.service.ts:45 | Lowercasing distributes over concatenation. |
| Seqs.Filter | backend/src/modules/employees/employees.service.ts:86-88 | `filter` keeps exactly the elements that pass, in order, as a subsequence. |
| Seqs.FilterMultiplicity | backend/src/modules/employees/employees.service.ts:86-88 | Each passing element is kept as often as it occurs, and every other element is dropped. |
| Seqs.FilterConcat | backend/src/modules/import-export/import-export.service.ts:33 | Filtering distributes over concatenation. |
| Seqs.MapSeq | backend/src/modules/import-export/import-export.service.ts:34 | `map` keeps the length and transforms each position. |
| Seqs.FirstIndex | backend/src/modules/employees/employees.service.ts:229-231 | The index found is the first that satisfies the predicate, and none means no element does. |
| Seqs.FilterKeepsUniqueKeys | backend/src/modules/teams/teams.service.ts:102 | Dropping elements keeps keys unique. |
| Forest.BuildForest | backend/src/modules/employees/employees.service.ts:198-211 | `buildTree(null)`: its contract is carried by `ForestShaped`, `ForestSound` and `ForestComplete`. |
| Forest.ForestShaped | backend/src/modules/employees/employees.service.ts:198-211 | `buildTree(null)` has the items without a parent at the top. Each node's children are exactly the items whose parent is that node, in input order. |
| Forest.ForestSound | backend/src/modules/teams/teams.service.ts:112-131 | Every node comes from an item whose parent chain reaches a root. |
| Forest.ForestComplete | backend/src/modules/employees/employees.service.ts:198-211 | Every item whose parent chain reaches a root has a node. |
| Forest.DanglingParentNeverReachesRoot | backend/src/modules/employees/employees.service.ts:200 | An item whose parent is missing from the input never reaches a root. |
| Forest.DescentFromUnreached | backend/src/modules/teams/teams.service.ts:112-131 | Below an item whose parent chain never reaches a root, no item at any depth reaches one. |
| Forest.SelfParentNeverReachesRoot | backend/src/modules/teams/teams.service.ts:114 | An item that is its own parent never reaches a root. |
| Forest.ChainExtend | backend/src/modules/employees/employees.service.ts:207 | The recursive call follows a chain that grows by an item not yet on it, so the recursion ends. |

## Left out

- The list and search routes of teams (`findAll`), team `create`, team membership (`addMember`, `removeMember`, `getMembers`), `getDirectReports` and the user and auth modules are outside this model's core.
- The Excel and PDF exports and the team export of the import/export service are document rendering and are not modelled.
- Employees.FindAll: models only the filtering done after the query. The `where` conditions on department, status, title, team and manager, and the sort order, are the database's job. The query result is a parameter, in the order the database returned it.
- Employees.OrgChart and Teams.TeamHierarchy: the input rows are given in query order; sorting by last name or team name is the database's.
- HTTP, DTO validation, JWT authentication and the request object are not modelled. The authenticated user is a parameter, and a missing user is `None`.
- Concurrency, transactions and foreign-key policies are not modelled. Each service call runs to completion, one at a time.
- Dates and numbers: `hireDate` and `salary` are kept as the text of the cell or DTO. `new Date(...)` and `parseFloat(...)` are not modelled. Any non-empty hire date cell counts as set, as a `Date` object is always truthy.
- Primary keys are natural numbers drawn from a counter, standing for the database's UUIDs. Only their equality and freshness matter.
- Hris.EmployeeRepository.FindByEmail: picks the first row with the email, one of the rows the database may return.
- Hris.Storable: the table refuses only a status outside the enum. Other database errors, such as duplicate keys or failed connections, are not modelled.
- Hris.TeamRepository.Delete: deletes the row whatever refers to it. The parent-team column has no delete rule (`backend/src/entities/team.entity.ts:25-27`), and neither has the employee's team column (`backend/src/entities/employee.entity.ts:44-45`). A database that enforces them refuses to delete a team that still has sub-teams or members, and it does so after the DELETE audit entry (`backend/src/modules/teams/teams.service.ts:98-100`) is recorded. `Teams.RemovalOrphansSubTeams` describes the store without that check.
- Hris.EmployeeRepository.Delete: deletes the row whatever refers to it. The manager column (`backend/src/entities/employee.entity.ts:34-35`) and a team's lead column (`backend/src/entities/team.entity.ts:15-16`) have no delete rule, so an enforcing database refuses to delete a manager or a team lead, after the DELETE audit entry (`backend/src/modules/employees/employees.service.ts:184-186`) is recorded. `Employees.DanglingManagerOffChart` describes rows such a database would not hold.
- Teams.TeamsService.Update: returns the stored team, not the team reloaded with its `lead`, `members`, `parentTeam` and `subTeams` relations. The ids of the stored employees, from which `lead` is loaded, are a parameter.
- Employees.EmployeesService.Update: the ids of the stored teams, from which the `team` relation is loaded, are a parameter, as the service holds no team repository.
- The one-to-many relations that `findOne` also loads (`directReports`, `teamsLed`, `members`, `subTeams`) already point at the record being saved, so saving them back writes nothing and is not modelled.
- Employees.FindOneIn: the `manager`, `team`, `directReports` and `teamsLed` relations are not loaded. A removed salary shows as `None`.
- Text.Lower: lowercases ASCII letters only. This is exact for the CSV header names but approximate for the search text in `findAll`.
- Text.IsSpace: the whitespace that `trim()` removes is listed by code point, after ECMAScript's WhiteSpace and LineTerminator. No other Unicode processing is modelled.
- ImportExport.Records: only its length is stated. The lemmas about `ParseRows` use its definition.
- The import/export service's `teamsRepository` is used only by the exports, and is not modelled.
- Audit log entries keep the acting user, the action, the entity type and id and the payload. The IP address and timestamps are not modelled.
