# TurboVets task management: organization-scoped RBAC, membership and task store

This project models the core of a multi-tenant task manager for veterinary
clinics.

- **Identities.** Users, organizations and memberships live in one directory, with three uniqueness rules:
  - email is unique among users;
  - name is unique among organizations;
  - there is one membership per (user, organization), carrying one of five roles.
- **Role ranking.** OWNER > ADMIN > MANAGER > MEMBER > VIEWER decides every authorization check.
- **Provisioning.** Organization users are provisioned in two ways:
  - find-or-create, which is additive only;
  - an upsert that reports whether it created the user, created the membership, or changed the role.
- **Tasks.** They belong to one organization. Reads need VIEWER, create and update need MEMBER, and delete needs ADMIN. Besides MANAGER or above, a task's creator and its current assignee may update it. An assignee must be a member of the organization.
- **HTTP controllers.** They take the organization from the `x-org-id` header and gate organization-user management behind ADMIN.
- **Start-up seeding.** Provisions a fixed list of demo organizations and users, and is idempotent.
- **Client-side state machines.** There are two:
  - the toast queue;
  - the session state with organization selection and role helpers.

## Structure

- **Values and the role order.**
  - `wrappers.dfy`: `Option`, `Result` and the error kinds `BadRequest`, `Forbidden`, `NotFound` and `Conflict`, plus JavaScript truthiness of optional strings.
  - `roles.dfy`: the role order.
  - `entities.dfy`: the records, and the key generator `FreshId`.
- **Audit.** `audit.dfy` holds the audit sink, a ghost sequence of entries. It is appended only after a successful write and never affects a result.
- **Membership store and authorizer.** `users.dfy` holds the `UsersService` class over three maps:
  - users by id;
  - organizations by id;
  - memberships keyed by (user id, organization id).

  Its invariant `Valid()` is `DirectoryValid`: the uniqueness constraints, memberships linking stored rows, and every key issued below a counter. Every method preserves it. The lookups and the authorizer are pure functions over the maps.
- **Task service.** `tasks.dfy` holds `TasksService` over a task table (`seq<Task>`). Each write is tied by its postcondition to a pure outcome function (`CreateOutcome`, `UpdateOutcome`, `AuthorizedTaskIndex`), and the source's promises are proved about those functions.
- **Controllers.** `requests.dfy`, `tasks_controller.dfy` and `org_users_controller.dfy`.
- **Seeding.** `seed.dfy`.
- **Client state.** `toasts.dfy` and `web_auth.dfy`.

Collaborators the model cannot see are parameters:
- The password hash is the arrow-typed constant `UsersService.hash`.
- JavaScript date parsing is `TasksService.parseDate: string -> Option<Date>`, where `None` means an invalid date.
- The creation time of a task is the `now` argument.
- The access token the server issues and the organization list it returns are arguments of `Login` and `LoadOrganizations`.
- The state read back from browser storage is the argument of the `AuthService` constructor.

## Model

| member | source | states |
|---|---|---|
| Roles.Priority | api/src/entities/role.enum.ts:10-16 | every role has a priority between 1 (VIEWER) and 5 (OWNER) |
| Roles.HasAtLeastRole | api/src/entities/role.enum.ts:18-23 | the requirement check compares priorities: every role meets itself, OWNER meets every requirement and VIEWER every role; VIEWER meets only VIEWER and only OWNER meets OWNER. The order's properties are the four HasAtLeastRole lemmas below and RoleBounds |
| Roles.PriorityInjective | api/src/entities/role.enum.ts:10-16 | no two roles share a priority |
| Roles.HasAtLeastRoleReflexive | api/src/entities/role.enum.ts:18-23 | every role is at least itself |
| Roles.HasAtLeastRoleTotal | api/src/entities/role.enum.ts:18-23 | of any two roles, one is at least the other |
| Roles.HasAtLeastRoleAntisymmetric | api/src/entities/role.enum.ts:10-23 | two roles each at least the other are equal |
| Roles.HasAtLeastRoleTransitive | api/src/entities/role.enum.ts:18-23 | the order is transitive |
| Roles.RoleBounds | api/src/entities/role.enum.ts:10-23 | every role is at least VIEWER; only OWNER is at least OWNER |
| Entities.FreshId | api/src/entities/user.entity.ts:17-18 | the n-th generated key has length n + 1, so keys from a growing counter never repeat |
| Requests.GetOrgIdFromRequest | api/src/app/org-users/org-users.controller.ts:26-32 | fails BadRequest exactly when the header is missing or empty, otherwise yields the header unchanged; the task controller's copy of this helper is the same function |
| Users.FindByEmail | api/src/app/users/users.service.ts:25-27 | a found user is the stored row with that email; none is found exactly when no stored user has that email |
| Users.FindByEmailFinds | api/src/app/users/users.service.ts:25-27 | with emails unique, every stored user is what looking up its own email returns |
| Users.FindOrgByName | api/src/app/users/users.service.ts:46 | a found organization is the stored row with that name; none is found exactly when no organization has that name |
| Users.FindOrgByNameFinds | api/src/app/users/users.service.ts:46 | with names unique, every stored organization is what looking up its own name returns |
| Users.GetMembershipForUserInOrg | api/src/app/users/users.service.ts:79-90 | returns a membership exactly when one exists for (userId, orgId), and then that one |
| Users.RequireMembershipWithRole | api/src/app/users/users.service.ts:92-109 | fails, always with Forbidden, exactly when there is no membership for the pair or its role is below minRole; on success returns that pair's membership, whose role is at least minRole |
| Users.ListMembershipsForOrg | api/src/app/users/users.service.ts:113-119 | a membership is listed exactly when it is stored and belongs to the organization |
| Users.ListMembershipsForUser | api/src/app/users/users.service.ts:192-198 | a membership is listed exactly when it is stored and belongs to the user |
| Users.RoleOfStable | api/src/app/users/users.service.ts:39-75 | a role a pair (email, organization name) holds survives any additive change to the tables |
| Users.InsertUserValid | api/src/app/users/users.service.ts:29-37 | inserting a user with a fresh key and a new email keeps the directory invariant, and the user is then found by email |
| Users.RenameUserValid | api/src/app/users/users.service.ts:152-155 | renaming a stored user keeps the invariant and the user's email lookup |
| Users.InsertOrgValid | api/src/app/users/users.service.ts:46-50 | inserting an organization with a fresh key and a new name keeps the invariant, and it is then found by name |
| Users.InsertMembershipValid | api/src/app/users/users.service.ts:65-72 | inserting a membership with a fresh key for stored user and organization keeps the invariant |
| Users.ChangeRoleValid | api/src/app/users/users.service.ts:175-177 | overwriting a stored membership's role keeps the invariant |
| Users.ProvisionKeepsOthers | api/src/app/users/users.service.ts:39-75 | a find-or-create step for one (email, organization) pair changes no other pair's role |
| Users.PasswordToUse | api/src/app/users/users.service.ts:149 | the supplied password when it is non-empty, otherwise "ChangeMe123!" |
| Users.UsersService.constructor | api/src/app/users/users.service.ts:18-23 | an empty directory satisfying the invariant |
| Users.UsersService.CreateUser | api/src/app/users/users.service.ts:29-37 | stores a new user with a fresh key and the hashed password; a taken email is a Conflict that changes nothing |
| Users.UsersService.FindOrCreateOrg | api/src/app/users/users.service.ts:46-50 | returns the organization with that name, reusing an existing one unchanged or creating it under a fresh key; changes no role |
| Users.UsersService.FindOrCreateUser | api/src/app/users/users.service.ts:52-55 | returns the user with that email, reusing an existing one unchanged (name and hash kept) or creating it |
| Users.UsersService.EnsureMembership | api/src/app/users/users.service.ts:57-72 | creates the membership with the given role only when none exists; an existing one is left as it is |
| Users.UsersService.CreateUserInOrg | api/src/app/users/users.service.ts:39-75 | reuses or creates the organization, the user, and the membership in that order; the pair's role is the old one if any, otherwise the requested one; no other pair's role changes; an already provisioned pair changes nothing |
| Users.UsersService.UpsertUser | api/src/app/users/users.service.ts:145-155 | an unknown email creates the user (isNewUser); a known one keeps its row except that a non-empty different name overwrites the stored name |
| Users.UsersService.UpsertMembership | api/src/app/users/users.service.ts:157-180 | afterwards the pair has exactly one membership, with the requested role; isNewMembership iff there was none; roleChanged iff there was one with another role |
| Users.UsersService.AddUserToOrgById | api/src/app/users/users.service.ts:126-190 | an unknown organization id fails NotFound and changes nothing; otherwise the user and membership outcomes above, with the default password for a new user without one |
| Users.AddUserToOrgByIdTwice | api/src/app/users/users.service.ts:140-189 | a second identical call succeeds exactly when the first did, returns all three flags false and the same user and membership, and leaves the tables as the first call left them: organizations unchanged, only that user row and that membership written |
| Tasks.ParseDueDate | api/src/app/tasks/tasks.service.ts:35-42 | an absent or empty date is "no date"; any other text fails BadRequest exactly when it does not parse; otherwise yields the parsed date |
| Tasks.Matches | api/src/app/tasks/tasks.service.ts:71-73 | the `{ id, organization }` lookup: a row of another organization, or with another id, never matches. FindTaskIndex, FindTaskIndexUnique and OtherOrgTaskNotFound state what the lookup finds |
| Tasks.FindTaskIndex | api/src/app/tasks/tasks.service.ts:71-73 | finds nothing exactly when no row matches (taskId, orgId); otherwise the first matching row |
| Tasks.FindTaskIndexUnique | api/src/app/tasks/tasks.service.ts:144-146 | with unique ids, a row is found by its id in its own organization and in no other |
| Tasks.TasksOfOrg | api/src/app/tasks/tasks.service.ts:54-55 | holds each row of the organization as often as the table does, and nothing else |
| Tasks.InsertByCreatedDesc | api/src/app/tasks/tasks.service.ts:56 | inserting into a list sorted newest first keeps it sorted and adds exactly the new row |
| Tasks.SortByCreatedDesc | api/src/app/tasks/tasks.service.ts:54-57 | the result is sorted by creation time, newest first, and is a permutation of the input |
| Tasks.AuthorizedTaskIndex | api/src/app/tasks/tasks.service.ts:212-224 | fails exactly when the caller lacks the role floor (Forbidden) or no row matches (NotFound), checked in that order; otherwise the matching row |
| Tasks.OtherOrgTaskNotFound | api/src/app/tasks/tasks.service.ts:218-224 | a task of another organization yields NotFound, as an unknown id would |
| Tasks.CreateOutcome | api/src/app/tasks/tasks.service.ts:81-119 | without MEMBER, Forbidden; then BadRequest exactly for a bad due date or an assignee with no membership; otherwise a TODO task of the organization created by the caller, unassigned unless an assignee is given |
| Tasks.PatchedAssignee | api/src/app/tasks/tasks.service.ts:176-192 | an absent field keeps the assignee, null unassigns, a value assigns it |
| Tasks.PatchTask | api/src/app/tasks/tasks.service.ts:163-192 | fails BadRequest exactly for a bad due date or a non-member assignee; otherwise overwrites only the given fields and never the id, organization, creator or creation time |
| Tasks.MayUpdate | api/src/app/tasks/tasks.service.ts:152-161 | MANAGER, ADMIN and OWNER may update any task, the creator and the current assignee may update theirs, and a MEMBER or VIEWER who is neither may not. UpdateOutcome states where the check sits in the update |
| Tasks.UpdateOutcome | api/src/app/tasks/tasks.service.ts:138-192 | without MEMBER, Forbidden; no matching row, NotFound; neither MANAGER nor creator nor current assignee, Forbidden; otherwise the patched task |
| Tasks.RemoveAtExactly | api/src/app/tasks/tasks.service.ts:226 | removing the matched row removes that task and keeps every other |
| Tasks.AppendValid | api/src/app/tasks/tasks.service.ts:119 | appending a row under a fresh key keeps ids unique |
| Tasks.ReplaceValid | api/src/app/tasks/tasks.service.ts:194 | saving a row under its own id keeps ids unique |
| Tasks.RemoveValid | api/src/app/tasks/tasks.service.ts:226 | removing a row keeps ids unique |
| Tasks.TasksService.constructor | api/src/app/tasks/tasks.service.ts:25-31 | an empty task table over the given directory, audit sink and date parser |
| Tasks.TasksService.ListTasksForOrg | api/src/app/tasks/tasks.service.ts:46-58 | Forbidden exactly for a non-member; otherwise exactly the organization's tasks, with multiplicity, newest first |
| Tasks.TasksService.GetTaskForOrg | api/src/app/tasks/tasks.service.ts:60-79 | Forbidden for a non-member, NotFound when no task matches (taskId, orgId), otherwise the matching task |
| Tasks.TasksService.CreateTaskForOrg | api/src/app/tasks/tasks.service.ts:81-130 | the result is CreateOutcome with a fresh key; on success the task is appended and one TASK_CREATED entry written; on failure nothing changes |
| Tasks.TasksService.ApplyUpdate | api/src/app/tasks/tasks.service.ts:163-192 | the field-by-field overwrite computes PatchTask |
| Tasks.TasksService.UpdateTaskForOrg | api/src/app/tasks/tasks.service.ts:132-205 | the result is UpdateOutcome; on success the matched row is replaced in place and one TASK_UPDATED entry written; on failure nothing changes |
| Tasks.TasksService.DeleteTaskForOrg | api/src/app/tasks/tasks.service.ts:207-235 | fails as AuthorizedTaskIndex with ADMIN does, changing nothing; otherwise removes exactly the matched task, keeps all others in order and writes one TASK_DELETED entry |
| TaskRoutes.TasksController.constructor | api/src/app/tasks/tasks.controller.ts:23 | a controller over the given service |
| TaskRoutes.TasksController.ListTasks | api/src/app/tasks/tasks.controller.ts:33-38 | BadRequest without the header; otherwise the service's answer for the caller and header unchanged |
| TaskRoutes.TasksController.GetTask | api/src/app/tasks/tasks.controller.ts:40-45 | BadRequest without the header; otherwise the service's answer unchanged |
| TaskRoutes.TasksController.CreateTask | api/src/app/tasks/tasks.controller.ts:47-52 | BadRequest without the header and no service call or change; otherwise the service's outcome, errors included |
| TaskRoutes.TasksController.UpdateTask | api/src/app/tasks/tasks.controller.ts:54-63 | BadRequest without the header and no change; otherwise the service's outcome |
| TaskRoutes.TasksController.DeleteTask | api/src/app/tasks/tasks.controller.ts:65-71 | BadRequest without the header; otherwise the service's error unchanged, or `{success: true}` once the delete went through |
| OrgUserRoutes.View | api/src/app/org-users/org-users.controller.ts:48-54 | the safe projection: membership id, user id, email, full name and role, with no password or hash |
| OrgUserRoutes.MemberViews | api/src/app/org-users/org-users.controller.ts:46-54 | one view per membership of the organization, every view from such a membership, distinct views having distinct membership ids |
| OrgUserRoutes.OrgUsersController.constructor | api/src/app/org-users/org-users.controller.ts:21-24 | a controller over the given directory and audit sink |
| OrgUserRoutes.OrgUsersController.ListOrgUsers | api/src/app/org-users/org-users.controller.ts:34-55 | BadRequest without the header; Forbidden exactly when the actor is below ADMIN; otherwise the member views |
| OrgUserRoutes.OrgUsersController.AddUserToOrg | api/src/app/org-users/org-users.controller.ts:57-101 | BadRequest without the header; succeeds exactly when the actor is at least ADMIN, with any requested role; a failure changes nothing; on success no organization changes, exactly the one user row is written (a new user with the given or temporary password's hash, or the old one renamed only by a non-empty different name, as in api/src/app/users/users.service.ts:140-155), and exactly that membership; the response and the audit entry carry the stored role and the same three flags |
| Seed.SeedPairsDistinct | api/src/app/seed/seed.service.ts:87-133 | no (email, organization name) pair is listed twice |
| Seed.SeedGroupsNonEmpty | api/src/app/seed/seed.service.ts:87-133 | every group lists a user |
| Seed.OrgsToSeed | api/src/app/seed/seed.service.ts:79-133 | three groups with distinct organization names, every user with the shared seed password; SeedEntries, SeedPairsDistinct, SeedGroupsNonEmpty and MultiUserNotInAustin state its entries |
| Seed.SeedEntries | api/src/app/seed/seed.service.ts:87-133 | the five entries and their roles, including the multi-organization user as MEMBER in San Diego and VIEWER at Happy Paws |
| Seed.MultiUserNotInAustin | api/src/app/seed/seed.service.ts:105-115 | the multi-organization user is not listed for Austin |
| Seed.NextGroup | api/src/app/seed/seed.service.ts:146-185 | finishing a group is starting the next one |
| Seed.EntrySeeded | api/src/app/seed/seed.service.ts:164-175 | provisioning one entry, which changes only its own pair, advances the progress invariant |
| Seed.SameRoles | api/src/app/seed/seed.service.ts:146-162 | a step that changes no role keeps the progress invariant |
| Seed.AllDone | api/src/app/seed/seed.service.ts:146-185 | once every entry is processed, each listed pair has its expected role |
| Seed.SeedService.constructor | api/src/app/seed/seed.service.ts:64-68 | a seeder over the given directory |
| Seed.SeedService.Seed | api/src/app/seed/seed.service.ts:76-185 | every listed pair ends with its earlier role or the listed one; unlisted pairs keep theirs; all listed pairs have a role; a run over a seeded directory changes nothing |
| Seed.SeedService.SeedEmpty | api/src/app/seed/seed.service.ts:87-133 | from an empty directory the owners are OWNER and the multi-organization user is MEMBER in San Diego, VIEWER at Happy Paws and absent from Austin |
| Seed.SeedService.SeedGroups | api/src/app/seed/seed.service.ts:146-185 | the nested loop over any list of distinct pairs, with the same guarantees as Seed |
| Seed.SeedService.SeedGroup | api/src/app/seed/seed.service.ts:146-184 | one group: the organization is found or created, then its users are provisioned in order |
| Seed.SeedService.SeedOrg | api/src/app/seed/seed.service.ts:147-162 | afterwards the group's organization is found by its name; users and memberships are untouched and no role changes |
| Seed.SeedService.SeedEntry | api/src/app/seed/seed.service.ts:164-183 | one user is provisioned through the find-or-create of the directory |
| Toasts.Without | web/src/app/shared/toast.service.ts:42-45 | a toast survives exactly when it was listed with another id |
| Toasts.WithoutConcat | web/src/app/shared/toast.service.ts:42-45 | filtering distributes over concatenation, so the survivors keep their order |
| Toasts.WithoutAbsent | web/src/app/shared/toast.service.ts:42-45 | dismissing an id that is not shown changes nothing |
| Toasts.WithoutIncreasing | web/src/app/shared/toast.service.ts:42-45 | filtering keeps ids strictly increasing |
| Toasts.ToastService.constructor | web/src/app/shared/toast.service.ts:16-19 | no toasts and a zero counter |
| Toasts.ToastService.Show | web/src/app/shared/toast.service.ts:21-40 | the id is one past the counter and new; the toast is appended with type "info" and 4000 ms by default; a dismissal is scheduled only for a positive duration |
| Toasts.ToastService.Dismiss | web/src/app/shared/toast.service.ts:42-45 | removes exactly the toasts with that id; the counter is kept |
| Toasts.ToastService.Clear | web/src/app/shared/toast.service.ts:47-49 | empties the list and keeps the counter, so later ids stay new |
| WebAuth.FindOrg | web/src/app/core/auth.service.ts:84-86 | nothing exactly when no summary has the id; otherwise the first summary with it |
| WebAuth.Select | web/src/app/core/auth.service.ts:156-166 | selection sets only the current organization's id and name; token and email are kept |
| WebAuth.AuthService.constructor | web/src/app/core/auth.service.ts:30-54 | the stored state, if any, and no organizations |
| WebAuth.AuthService.Token | web/src/app/core/auth.service.ts:56-58 | the token of the state, absent when signed out |
| WebAuth.AuthService.IsLoggedIn | web/src/app/core/auth.service.ts:60-62 | holds exactly when a token is present and non-empty |
| WebAuth.AuthService.CurrentOrgId | web/src/app/core/auth.service.ts:68-70 | the selected organization's id, absent when signed out or nothing is selected |
| WebAuth.AuthService.GetCurrentOrgRole | web/src/app/core/auth.service.ts:81-88 | none without a selection; otherwise the role in the first listed organization with that id, none if it is not listed |
| WebAuth.AuthService.IsAdminOrOwner | web/src/app/core/auth.service.ts:90-93 | holds exactly when the current role is at least ADMIN |
| WebAuth.AuthService.IsManagerOrAbove | web/src/app/core/auth.service.ts:95-102 | holds exactly when the current role is at least MANAGER, agreeing with the server's role order |
| WebAuth.AuthService.Login | web/src/app/core/auth.service.ts:106-123 | the state becomes {token, email} with no selection, and the organization list is emptied |
| WebAuth.AuthService.Logout | web/src/app/core/auth.service.ts:125-128 | clears the state and the organization list |
| WebAuth.AuthService.SetCurrentOrg | web/src/app/core/auth.service.ts:156-166 | signed out nothing changes; otherwise only the selection changes |
| WebAuth.AuthService.SetCurrentOrgById | web/src/app/core/auth.service.ts:168-174 | an unlisted id changes nothing; otherwise the first listed organization with that id is selected |
| WebAuth.AuthService.LoadOrganizations | web/src/app/core/auth.service.ts:134-154 | replaces the list and, when signed in: with no selection, selects the first organization of a non-empty list; a selection still listed is refreshed; an unlisted selection is left as it is |
| Audit.AuditSink.Log | api/src/app/logging/logging.service.ts:31-60 | appends exactly one entry |

## Left out

- Password hashing (bcrypt) and token signing (JWT). The hash is an uninterpreted function. Login credentials are not checked; only the state effect of a successful login is kept.
- JavaScript `Date` parsing. The parser is a function parameter, and `None` stands for an invalid date.
- The repository layer (TypeORM repositories, eager relations, modules): it is replaced by in-model maps and a sequence of task rows. Generated uuids are modelled by a counter.
- Task `updatedAt`: nothing reads it.
- Storage failures.
- Concurrency: two requests racing on the (user, organization) unique constraint.
- The ordering of membership lists:
  - `listMembershipsForOrg` and `listMembershipsForUser` order by the role's text, not its priority.
  - They are modelled as unordered sets.
  - The member list of the organization-user controller is therefore a set of views.
- The relative order of tasks created at the same time is not fixed.
- Seed.SeedService.Seed: the catch branch of the seeding loop is not modelled, because provisioning has no failure path in this model. "A failure is isolated to one user" is therefore not stated.
- The pre-query of existing organizations and all the log lines in seeding: they affect only log output.
- Audit.AuditSink.Log: audit writes are ghost entries. The lookups of actor and organization inside the logging service, and its caught failures, are not modelled.
- Browser platform: `localStorage` writes, `BehaviorSubject` emission, and the `setTimeout` that runs the scheduled dismissal. The returned `timer` of `Show` is the scheduled delay; running the dismissal is left to the caller.
- The HTTP transport of the web services.
- Membership removal: the web client's member page calls a delete endpoint for a membership (web/src/app/features/org-users/org-users-page.component.ts:230-255), but no controller or service defines one.
- Roles.HasAtLeastRole, OrgUserRoutes.OrgUsersController.AddUserToOrg, Tasks.PatchTask: role and status values are assumed to be members of their enums. The server installs no validation pipe and the request bodies carry no validators, so any string can arrive and be stored. For a string outside the role enum `hasAtLeastRole` is false against every required role, so a member stored with such a role is Forbidden everywhere. The closed `Role` and `TaskStatus` datatypes cannot represent such a value.
- Users.UsersService.CreateUser: the source relies on the unique index on email to reject a duplicate. The model surfaces that as `Conflict` with no change.
- The title of a task is not checked to be non-empty, as in the source.
- Tasks.PatchTask: an explicit `null` description or due date in an update body is not distinguished from a value. `description` is `Option<string>` (absent or a string), and an empty due date is what clears it.
- ToastType: the client's `"error"` kind is named `Failure`, because `Error` names the error kinds in `Wrappers`.
