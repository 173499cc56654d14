# Access-control and authentication engine of the Genbegna backend, in Dafny

This project models the authorization and authentication core of the
Genbegna backend, an Express/SQLite service that manages projects and files.
Every request passes through five access-control models evaluated in a fixed
order:

- MAC: clearance against classification.
- RBAC: a static map from role to permitted actions.
- RuBAC: a sparse rule list keyed by action. Today its one rule holds `hr`
  staff to business hours for `users:update`.
- DAC: ownership, or an explicit (project, user) grant, backed by a grant
  store with an append-only history.
- ABAC: six attribute gates (status, location, time, classification,
  department, archival).

The first model that fails names the denial reason (`mac`, `rbac`, `rubac`,
`dac` or `abac`). Authentication is modelled alongside:

- a per-user lockout state machine (five failed passwords lock the account
  for ten minutes);
- an MFA gate;
- password-strength and registration checks;
- a refresh-token blacklist that only grows.

The model is functional. Records are immutable datatypes, the evaluators are
pure predicates, and every route handler is a pure transition on its part of
the store (project table, grant set and history, file table, user table,
role-change log, blacklist), returning the new state and the HTTP outcome.

Modules follow the source layout:

- `Rules`, `Mac`, `Rbac`, `Rubac`, `Abac`, `Dac` are the files under `backend/access` and `backend/helpers`.
- `Projects`, `Files`, `Users`, `Auth` are the route files.
- `Decision` holds the reason codes and a reference semantics of the pipeline: the first failing stage of an ordered stage list.
- `Entities` holds the shared records and JavaScript truthiness (`||`, `if (x)`).
- `Http` holds the reply codes.
- `Seqs` holds array `filter` / `find` / `map(...).filter(Boolean)` and the `UPDATE ... WHERE` of a table.
- `Wrappers` holds `Option`.

Conventions:

- An id is an `int`, and `NoId` (0) stands for null or undefined; real row ids start at 1. Most guards test an id for truthiness. Two places do not: the grant and revoke routes compare the owner with the caller strictly (`!==`), modelled as `!=` on ids, and the `projectId` query of `GET /files` is a string, where `"0"` is truthy, modelled as an `Option<Id>` whose `None` is an absent or empty query.
- An optional column or body field is an `Option`. A number is truthy when set and non-zero; a string is truthy when set and non-empty.
- Time enters as inputs. The evaluators take the local hour of the request time, and an explicit numeric `ctx.hour` overrides it. The lockout logic takes the current time in milliseconds.
- Four checks are inputs: bcrypt password comparison (`Auth.PasswordField`: no password, or whether it matches), TOTP code verification (`codeOk`), JWT refresh-token verification (`tokenValid`), and whether the token's user still exists (`userExists`).

Behaviour the model follows because the code does so:

- A login body without a password makes the bcrypt comparison throw. The handler answers 500 `Login failed` and counts nothing, unless the account is locked, which is tested first.
- Both MFA refusals answer the same 401 `MFA required`. One case is MFA required without an enrolled secret; the other is a secret with a bad code. Neither touches the failure counter. A correct password has already reset the counter before the MFA gate runs.
- A project's creator is its owner and also gets an explicit grant row.
- The `project_access` table has no uniqueness constraint, so `INSERT OR IGNORE` does not deduplicate. The grant store is a set because everything that reads it asks only about membership, and a revoke deletes every copy of the pair.
- An unknown project status uses the draft role list. An unset status, or an empty one, reads as `draft`.
- Roles and statuses are free strings: registration accepts any role.
- A refresh does not blacklist the token it consumes.
- The ABAC archival gate can never deny anything the status gate let through, because the archived list is the owner alone (`Abac.ArchivalGateRedundant`).
- The files variant of `allow` never skips DAC, and the projects variant skips it for a resource without an id. They still agree on every resource, because the DAC check passes by itself when the project id is missing (`Files.AgreesWithProjects`).

## Model

| member | source | states |
|---|---|---|
| Rules.OwnerInEveryList | backend/helpers/rules.js:2-11 | `owner` is in every status list and both location lists |
| Rules.ArchivedIsOwnerOnly | backend/helpers/rules.js:6 | the archived status list is exactly `["owner"]` |
| Rules.RestrictedWithinDefault | backend/helpers/rules.js:9-10 | every role of the restricted location list is in the default list |
| Rules.BusinessHoursWindow | backend/helpers/rules.js:12-15 | the business-hour window runs from 8 to 18, start not after end |
| Mac.UnclassifiedAllowsAll | backend/access/mac.js:2 | an absent or zero classification admits any principal |
| Mac.ClassifiedNeedsClearance | backend/access/mac.js:3 | for a set classification, access holds iff the clearance (missing = 0) reaches it |
| Mac.MissingClearanceDenied | backend/access/mac.js:3 | a principal with no clearance is refused every positive classification |
| Mac.MonotoneInClearance | backend/access/mac.js:3 | raising the clearance never turns an allow into a deny |
| Mac.MonotoneInClassification | backend/access/mac.js:2-3 | raising the classification (to any non-zero value) never turns a deny into an allow |
| Rbac.UnknownRoleDeniesAll | backend/access/rbac.js:26-27 | a role missing from the permission map is denied every action |
| Rbac.CheckRoleIsMembership | backend/access/rbac.js:25-28 | the role check holds iff the action is listed for the role |
| Rbac.OnlyOwnerHolds | backend/access/rbac.js:1-23 | only `owner` holds `projects:delete`, `users:read`, `users:update` |
| Rbac.FinanceAndEngineer | backend/access/rbac.js:21-22 | `finance:read` belongs to `finance` alone; `engineer` lacks `projects:create` and `files:delete` |
| Rbac.ManagerWithinOwner | backend/access/rbac.js:2-20 | every manager permission is an owner permission |
| Rubac.OtherActionsPass | backend/access/rubac.js:19-21 | any action other than `users:update` has no rule and passes |
| Rubac.NonHrPasses | backend/access/rubac.js:9 | `users:update` by a principal outside `hr` passes at any hour |
| Rubac.HrBoundToWindow | backend/access/rubac.js:1-14 | `users:update` by an `hr` principal passes iff 8 <= hour <= 18, both ends inclusive |
| Rubac.HourOverrideWins | backend/access/rubac.js:10-13 | with a numeric `ctx.hour` the verdict does not depend on the request time |
| Rubac.WindowMatchesRules | backend/access/rubac.js:2 | the literal 8..18 window equals the shared business-hour table |
| Abac.AbacIsConjunction | backend/access/abac.js:3-48 | the early-return chain is true iff all six gates pass |
| Abac.UnknownStatusIsDraft | backend/access/abac.js:4-8 | an unset, empty or unknown status admits exactly the draft roles |
| Abac.LocationChoice | backend/access/abac.js:10-18 | only the exact location `restricted` narrows to owner/manager; anything else admits the four default roles |
| Abac.OffHoursOwnerOnly | backend/access/abac.js:20-26 | before 8 or after 18 only `owner` passes ABAC |
| Abac.ClassificationGateIsMac | backend/access/abac.js:28-33 | the classification gate is exactly the MAC rule |
| Abac.DepartmentDeniesOnlyOnMismatch | backend/access/abac.js:35-41 | the department gate denies iff both departments are set, non-empty and different |
| Abac.ArchivedOwnerOnly | backend/access/abac.js:43-45 | an archived resource passes ABAC only for `owner` |
| Abac.ArchivalGateRedundant | backend/access/abac.js:43-45 | whoever passes the status gate also passes the archival gate |
| Dac.MissingIdPasses | backend/access/dac.js:4 | a missing project or user id passes DAC regardless of grants |
| Dac.OwnerPasses | backend/access/dac.js:5 | the (truthy) owner passes DAC with no grant |
| Dac.NonOwnerNeedsGrant | backend/access/dac.js:3-10 | for a non-owner on an existing project, DAC holds iff the (project, user) grant exists |
| Dac.RecordHistory | backend/access/dac.js:12-16 | one history record with project, target, action and actor is appended; grants untouched |
| Dac.GrantAccess | backend/access/dac.js:18-23 | the pair becomes a member, no other pair changes, one `grant` record is appended |
| Dac.RevokeAccess | backend/access/dac.js:25-30 | the pair stops being a member, no other pair changes, one `revoke` record is appended |
| Dac.GrantThenCheck | backend/access/dac.js:18-21 | after a grant, DAC passes for that user on that project, whoever the owner is |
| Dac.GrantIdempotent | backend/access/dac.js:18-23 | granting twice leaves the same memberships as once, but logs twice |
| Dac.RevokeThenCheck | backend/access/dac.js:25-28 | after a revoke, DAC passes for the pair iff the user is the owner |
| Dac.GrantRevokeCancel | backend/access/dac.js:18-30 | grant then revoke of a pair leaves the original grants minus that pair |
| Decision.FirstFailure | backend/routes/projects.js:16-27 | no reason iff every stage passes; otherwise the reason of a failing stage with all earlier stages passing |
| Decision.NamesDistinct | backend/routes/projects.js:19-25 | the five reason strings are pairwise different |
| Decision.PipelineFirstFailure | backend/routes/projects.js:19-26 | the first failure of the five stages mac, rbac, rubac, dac, abac is the early-return chain over their verdicts |
| Projects.Decide | backend/routes/projects.js:16-27 | allowed iff MAC, RBAC, RuBAC, DAC (when the resource has an id) and ABAC all pass; `dac` only for a resource with an id |
| Projects.DecideIsFirstFailure | backend/routes/projects.js:19-26 | the verdict is the first failure of the pipeline mac, rbac, rubac, dac (passed when the resource has no id), abac |
| Projects.NoIdSkipsDac | backend/routes/projects.js:22-24 | a resource without an id is never refused for `dac`, and grants do not affect its verdict |
| Projects.FindProject | backend/routes/projects.js:12-14 | the row found carries the requested id; none found means no row has it |
| Projects.List | backend/routes/projects.js:29-33 | the list holds exactly the rows for which `projects:read` is allowed |
| Projects.ListKeepsOrder | backend/routes/projects.js:30-31 | listing distributes over concatenation, so table order is kept |
| Projects.Create | backend/routes/projects.js:35-72 | missing name is 400 before any check; a denial is 403 with its reason and writes nothing; an allowed create succeeds, appending a row that stores the checked status, location, classification and department, the name and the other defaults, owned by the creator under the next id, and grants the creator |
| Projects.CreateThenFind | backend/routes/projects.js:57-69 | on a valid store the new project is the one found under the new id, and every old row is kept |
| Projects.CreatorPassesDac | backend/routes/projects.js:57-68 | after a create the creator holds a grant row and passes DAC on the new project |
| Projects.GrantUnblocksDac | backend/routes/projects.js:22-25 | a request refused with `dac` is, after granting the pair, decided by ABAC alone |
| Projects.Read | backend/routes/projects.js:74-82 | 404 iff the project is missing; otherwise 403 with the first-failure reason, or 200 iff `projects:read` is allowed |
| Projects.Merge | backend/routes/projects.js:91-100 | the update merge never changes the id or the owner |
| Projects.MergeEmptyIsIdentity | backend/routes/projects.js:91-100 | a body with every field null/undefined leaves the project unchanged |
| Projects.MergeIdempotent | backend/routes/projects.js:91-100 | applying the same update body twice equals applying it once |
| Projects.MergeFieldwise | backend/routes/projects.js:91-100 | for each of the eight fields, a present body value overwrites the old value and an absent one keeps it |
| Seqs.Replace | backend/routes/projects.js:101-112 | after `UPDATE ... WHERE`, every matching row is the new row, the others are exactly the old non-matching rows, and the length is kept |
| Projects.Update | backend/routes/projects.js:84-116 | 404 if missing; otherwise 403 with the first-failure reason and no change, or, when allowed, success; success stores the merged row under the id, keeps every other row, the grants and the store invariant |
| Projects.Delete | backend/routes/projects.js:118-129 | 404 if missing; otherwise 403 with the first-failure reason and no change, or, when allowed, success removing exactly that project's rows and grant pairs and keeping the history |
| Projects.GrantRoute | backend/routes/projects.js:131-147 | 404 if missing; a non-owner gets 403 `dac_owner` with no change; the owner gets 400 `Missing user` without a target and otherwise success, which is exactly one grant |
| Projects.GrantRouteOpensDac | backend/routes/projects.js:137-139 | after a successful grant the target passes DAC on the project |
| Projects.RevokeRoute | backend/routes/projects.js:149-166 | 404 if missing; a non-owner gets 403 `dac_owner` with no change; the owner always succeeds, with exactly one revoke |
| Projects.RevokeRouteClosesDac | backend/routes/projects.js:152-155 | after a successful revoke the target passes DAC on the project iff it is the owner |
| Projects.EngineerOnActiveProjectDeniedByAbac | backend/routes/projects.js:16-27 | a cleared, granted engineer reading an active project is refused with `abac` |
| Files.DecideOn | backend/routes/files.js:19-26 | allowed iff all five stages pass, DAC included |
| Files.Decide | backend/routes/files.js:16-27 | a missing project yields the bare `false`, never ok |
| Files.DecideIsFirstFailure | backend/routes/files.js:19-26 | the verdict is the first failure of the pipeline mac, rbac, rubac, dac, abac |
| Files.AgreesWithProjects | backend/routes/files.js:16-27 | on an existing project the files and projects variants give the same verdict |
| Files.Override | backend/routes/files.js:54-57 | a truthy request classification replaces the project's; otherwise the project is unchanged |
| Files.OverrideDrivesMacAndAbac | backend/routes/files.js:54-58 | with an override, MAC and the ABAC classification gate compare clearance with the override |
| Files.Selected | backend/routes/files.js:30-35 | a present query, `0` included, keeps exactly the files of that project; an absent or empty one keeps all files |
| Files.List | backend/routes/files.js:29-45 | an entry is a selected file whose project exists and allows `files:read`, paired with that project |
| Files.ListKeepsOrder | backend/routes/files.js:36-43 | listing distributes over concatenation, so table order is kept |
| Files.ZeroQueryListsNothing | backend/routes/files.js:31-34 | on a valid table, `?projectId=0` lists nothing |
| Files.Create | backend/routes/files.js:47-81 | missing project id or name is 400 first; missing project 404; otherwise 403 with the first-failure reason on the overridden resource and no change, or, when allowed, success appending a file with the next id, the name, type, size, creator and override classification; the table invariant is kept |
| Files.CreateThenFind | backend/routes/files.js:62-78 | on a valid table the new file is the one found under the new id |
| Files.FindFile | backend/routes/files.js:84 | the file found carries the requested id; none found means no file has it |
| Files.Delete | backend/routes/files.js:83-95 | missing file or project is 404; otherwise 403 with the first-failure reason and no change, or, when allowed, success removing exactly that file |
| Files.CreateThenDeleteRestores | backend/routes/files.js:47-95 | deleting the file just created, by a caller the project allows to delete files, succeeds and gives back the old file table |
| Users.Synthetic | backend/routes/users.js:21-26 | the checked resource is classification 1, active, default location, in the caller's department |
| Users.Decide | backend/routes/users.js:20-34 | never `dac`; allowed iff MAC, RBAC, RuBAC and ABAC pass on the synthetic resource |
| Users.DecideIsFirstFailure | backend/routes/users.js:28-33 | the verdict is the first failure of the pipeline mac, rbac, rubac, dac (on a null project), abac |
| Users.DacStagePasses | backend/routes/users.js:31 | the DAC stage passes for any grant store |
| Users.ReadAllowedIff | backend/routes/users.js:20-37 | `users:read` is allowed iff role is `owner` and clearance >= 1; low clearance reports `mac`, else a non-owner reports `rbac` |
| Users.UpdateAllowedIff | backend/routes/users.js:20-34 | `users:update` is allowed iff owner, clearance >= 1, and for `hr` within 8..18 |
| Users.HrAfterHoursDeniedByRubac | backend/routes/users.js:20-34 | an `hr` owner updating at hour 20 is refused with `rubac`, at hour 10 allowed |
| Users.PermissionsOf | backend/routes/users.js:51-58 | the listed actions are exactly those the role check admits; an unknown role gets `[]` |
| Users.FindUser | backend/routes/users.js:67 | the user found carries the id; none found means no user has it |
| Users.ApplyRole | backend/routes/users.js:69-70 | a falsy role keeps the old role; only null/undefined clearance keeps the old clearance; nothing else changes |
| Users.UpdateRole | backend/routes/users.js:60-89 | a denial is 403 with reason, a missing target 404, both unchanged; an allowed update of an existing user succeeds, stores the new role and clearance under the id, keeps every other user, and appends one old/new role record |
| Users.RoleChangeTakesEffect | backend/routes/users.js:69-75 | after an update with a truthy role and a clearance, the target may list users iff the new role is `owner` and the new clearance is at least 1 |
| Users.SetMfaRequired | backend/routes/users.js:91-96 | `mfa_required` becomes set iff the body flag is truthy; nothing else changes |
| Users.MfaFlagGatesLogin | backend/routes/users.js:91-96 | for an unlocked account without a secret, the right password is refused with `MFA required` after a truthy flag and logs in after a falsy one |
| Auth.HandleFailedAttempt | backend/routes/auth.js:41-55 | the counter rises by one below 5; at 5 it resets to 0 and locks for 10 minutes; the counter always ends below 5 |
| Auth.ResetFailures | backend/routes/auth.js:57-61 | counter 0 and no lockout at any time; nothing else changes |
| Auth.Attempt | backend/routes/auth.js:116-137 | locked means 423 with no change; tokens iff unlocked, right password and MFA passes; counter always stays below 5 |
| Auth.FindByEmail | backend/routes/auth.js:114 | the user found has the email; none found means no user has it |
| Auth.Login | backend/routes/auth.js:111-141 | unknown email is 401 and locked is 423, both unchanged; a missing password is 500 and unchanged; otherwise the attempt's reply, its new row under the user's id, and every other row kept |
| Auth.Replay | backend/routes/auth.js:116-125 | over any run of attempts only the counter and lockout time change, and a counter below 5 stays below 5 |
| Auth.ReplayConcat | backend/routes/auth.js:116-125 | a run of attempts in two stretches equals the whole run, the second stretch starting from the state the first left |
| Auth.WrongStreak | backend/routes/auth.js:41-55 | below the threshold each wrong password is a 401 and adds one to the counter |
| Auth.FiveWrongPasswordsLock | backend/routes/auth.js:116-125 | from counter 0, five wrong passwords give four 401s then 423; the right password is refused for 10 minutes, then logs in with counter 0 |
| Auth.LockedIgnoresCredentials | backend/routes/auth.js:116-118 | while locked, every attempt is 423 and leaves the user unchanged |
| Auth.MfaFailureKeepsCounterClear | backend/routes/auth.js:127-133 | a right password with a failed MFA gate is 401 `MFA required` with counter 0 |
| Auth.MfaRefusalsIdentical | backend/routes/auth.js:128-133 | both MFA conditions answer the same 401 `MFA required` |
| Auth.IsPasswordStrong | backend/routes/auth.js:32-34 | true iff >= 8 characters, no line terminator, an ASCII letter and an ASCII digit |
| Auth.Register | backend/routes/auth.js:75-109 | missing fields, then weak password, then duplicate email; success iff all pass, appending a user with the defaults and no lockout or MFA; unique emails stay unique |
| Auth.Refresh | backend/routes/auth.js:143-160 | a blacklisted token is refused before verification; success iff present, not blacklisted, valid, user exists; a present, fresh token that fails verification or whose user is gone is 401 `Invalid token`; the blacklist is unchanged |
| Auth.Logout | backend/routes/auth.js:162-166 | a truthy token is added; the blacklist never loses a member |
| Auth.BlacklistNeverShrinks | backend/routes/auth.js:143-166 | any sequence of refresh and logout requests only grows the blacklist |
| Auth.LoggedOutTokenRevoked | backend/routes/auth.js:143-166 | after logout, every later refresh of the token is 401 `Token revoked`, even while valid |
| Auth.EnrollMfa | backend/routes/auth.js:168-178 | an unauthenticated caller gets 401; otherwise the new secret replaces the old at once |
| Auth.VerifyMfa | backend/routes/auth.js:180-188 | 401 without a caller; success iff the caller has a secret and the code verifies; otherwise 400 `Invalid token` |
| Auth.EnrollThenVerify | backend/routes/auth.js:128-133 | after enrolling a non-empty secret, both verification and a right-password login succeed iff the code verifies |

## Left out

- The web UI under `frontend/`: user interface and network plumbing.
- Signing and verifying JWTs (`backend/auth/jwt.js`): verification is the `tokenValid` input. Access tokens and expiry are not modelled; only refresh-token acceptance is.
- Generating and checking TOTP codes (`backend/auth/mfa.js`): verification is the `codeOk` input, and the new secret is a parameter of `Auth.EnrollMfa`.
- bcrypt hashing and comparison: the comparison is an input (`Auth.PasswordField` for a login, `passwordOk` for one attempt), and the hash is not stored in `UserRow`.
- Schema bootstrap and `ensureColumn` in `backend/db.js`, and SQL generally.
- The audit log (`backend/helpers/logger.js`): it is a write-only sink that never feeds back into a decision.
- `backend/backup.js` and `backend/server.js` (express wiring, `authGuard`): the authenticated principal is an input to each route.
- Turning `Date.now()` into a local hour: the hour and the time in milliseconds are inputs.
- Email verification (`/auth/verify-email`), the verify token issued at registration, and random secret and token generation: bookkeeping outside the engine.
- Response bodies, `sanitize`, and the read-only routes `GET /users` and `GET /users/me`. Of these, only the decision of `GET /users` is modelled (`Users.ReadAllowedIff`).
- Concurrency. Two simultaneous failed logins can both read the same counter; the model runs requests one at a time.
- The blacklist is process memory and is lost on restart. The model carries it as a value, so a restart, which would empty it, is not modelled.
- JavaScript prototype keys used as roles or statuses (such as `constructor`): the source's table lookups would then find an inherited function and throw. The model's tables hold only their own keys.
- A login body whose `email` is absent or not a string: the model takes the email as a string.
- A non-numeric `projectId` query string: it matches no file, like a numeric id that no file has; the model's query is a number.
- Body values of the wrong JSON type: a string classification, a fractional or NaN hour, a NaN user id from `Number(...)`.
- Explicit `null` in a create body: the model's `None` is an absent field, which gets the destructuring default. A JSON `null` would skip that default.
- Mac.MonotoneInClassification: assumes the raised classification is not exactly 0. A negative classification raised to 0 reads as unclassified and admits everybody.
- Auth.IsPasswordStrong: counts Unicode scalar values, whereas JavaScript counts UTF-16 code units. A password with characters outside the Basic Multilingual Plane can be long enough for the source's `.{8,}` and still be shorter than 8 in the model.
