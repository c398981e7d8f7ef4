# Facility maintenance back end: authorization and workflow state

This project models the server side of a facility-maintenance application
in which users register with one of four roles (`user`, `owner`,
`dept_admin`, `maintenance`). An owner creates organizations and their
departments. Users ask to join organizations, and the owner approves or
declines those join requests. The owner names one admin per department.
Department members file maintenance requests with photos, and the requests
are assigned and moved through six statuses.

The model covers the five controllers and the policy that decide who may do
what, and how each action changes the store:

- The relational store is the class `App.Database`. Its fields are the
  tables, held as maps from primary key to row, plus the membership set of
  (user, department) pairs and an auto-increment counter for each of the
  five tables an action inserts into (organizations, departments, join
  requests, maintenance requests, photos). No action inserts users, so that
  table has no counter.
- Every action that writes is a method of that class. It returns the HTTP
  status the controller answers with (`Common.Status`: 200, 201, 422,
  403, 404, 409 or 500). Its contract states the order in which the guards
  fire, the new contents of the tables it may modify, and the store
  invariant `Valid()`. `Valid()` says that keys are fresh, that there is at
  most one join request per (user, organization) pair, that every photo
  belongs to an existing request, and that only registered role names are
  stored.
- Read-only actions are functions over the table values. A listing is the
  sequence of primary keys it returns. A query without an ordering is given
  in ascending key order (`Common.KeysWhere`); that order is the model's
  choice, and the contracts are about which rows are listed. `orderBy('created_at',
  'desc')` is modelled by `OrganizationUserRequests.NewestFirst`, an
  insertion sort on the abstract creation time.
- The policy (`MaintenanceRequestPolicy`) is two predicates over a user row
  and a request row.
- `Scenarios` strings actions together and proves the properties that need
  more than one call: submitting twice, the join flow, the admin-slot
  conflict, demotion on delete, and idempotence.

The caller of every action is the id the bearer token resolved to. The
request's fields are parameters: a field that may be absent is an
`Option`, and a nullable field that may be absent is an
`Option<Option<_>>`. String fields are passed as the client sent them, and
the model applies the framework's two request middlewares itself before
validating and storing them: `Schema.Trim` strips blanks from both ends,
and `Schema.Field` turns a string that trims to nothing into null.
Timestamps are abstract naturals. Stored file paths and
photo URLs are opaque string inputs.

Two behaviours of the code are kept as written:

- Accepting or declining a join request does not look at its current
  status, so a declined request can later be approved
  (`Scenarios.DeclineThenAccept`).
- The maintenance-request listing and the policy compare the role with
  strings that registration never stores. The comments in the listing
  (app/Http/Controllers/MaintenanceRequestController.php:63-75) describe
  per-role visibility, and those in the policy
  (app/Policies/MaintenanceRequestPolicy.php:29-34) describe per-role
  update rights. This is modelled as written and reported under Findings.

## Model

| member | source | states |
|---|---|---|
| App.Database.MakeRequestToOrganization | app/Http/Controllers/OrganizationUserRequestController.php:15-45 | Missing organization id gives 422, unknown organization 404, and an existing request of any status for the pair 409; in all three cases the table is unchanged. Otherwise exactly one new pending row for (caller, organization) is added and 201 is returned. One request per pair is kept. |
| OrganizationUserRequests.AddKeepsOnePerPair | app/Http/Controllers/OrganizationUserRequestController.php:27-39 | Inserting a row for a pair that has no request keeps at most one request per (user, organization) pair. |
| OrganizationUserRequests.ShowAllMyRequests | app/Http/Controllers/OrganizationUserRequestController.php:49-56 | Lists exactly the caller's requests, of every status, each once. |
| App.Database.CancelMyRequest | app/Http/Controllers/OrganizationUserRequestController.php:59-73 | Deletes the request, answering 200, if and only if it exists, belongs to the caller and is pending. Otherwise answers 404 and leaves the table unchanged. |
| OrganizationUserRequests.RequestsForOrganization | app/Http/Controllers/OrganizationUserRequestController.php:76-95 | 404 for a missing organization, 403 for a caller who is not its owner, and success if and only if the caller owns it. On success the body is exactly the organization's pending requests, each once, newest first. |
| OrganizationUserRequests.NewestFirst | app/Http/Controllers/OrganizationUserRequestController.php:91 | Returns the same distinct rows in non-increasing creation time. |
| App.Database.AcceptRequest | app/Http/Controllers/OrganizationUserRequestController.php:98-110 | Unknown request gives 404, a deleted organization 500, and a caller who is not the owner 403. Otherwise that one row's status becomes approved, whatever it was. Every other row is unchanged. |
| App.Database.DeclineRequest | app/Http/Controllers/OrganizationUserRequestController.php:113-125 | As accept, with the status becoming declined. |
| OrganizationUserRequests.UsersOfOrganization | app/Http/Controllers/OrganizationUserRequestController.php:127-136 | Lists exactly the organization's approved requests, each once, newest first, for any caller. |
| App.Database.AssignAdmins | app/Http/Controllers/OrganizationUserRequestController.php:138-178 | Guards in source order: a missing or zero id gives 422, no department 404, an occupied admin slot 409 (whoever is being assigned), a caller who is not the owner 403, no user 404. On 200 the slot holds the user and that user's role becomes "dept_admin". Nothing changes on an error. |
| App.Database.RemoveAdmins | app/Http/Controllers/OrganizationUserRequestController.php:181-219 | Same guards without the 409. On 200 the slot is emptied and the named user's role becomes "user", whether or not they held the slot. |
| App.Database.StoreMaintenanceRequest | app/Http/Controllers/MaintenanceRequestController.php:14-56 | An unknown department, a blank or over-long title, or a status outside the six values gives 422, a caller who is not a member 403, and in both cases nothing is created. The title and status are checked after trimming. On 201 exactly one new request is added: created by the caller, unassigned, with the trimmed title, the description as it arrives through `Field`, and the parsed status. Its photo rows are added as `NewPhotos` describes. |
| App.Database.AttachPhotos | app/Http/Controllers/MaintenanceRequestController.php:41-50 | The upload loop adds exactly the rows of `NewPhotos` to the photo table, under fresh keys, and keeps every photo attached to an existing request. |
| MaintenanceRequests.NewPhotos | app/Http/Controllers/MaintenanceRequestController.php:41-50 | One row per uploaded file, in upload order, under consecutive keys. Each row is linked to the request and has URL "/storage/" + path. |
| App.AttachAll | app/Http/Controllers/MaintenanceRequestController.php:45-48 | Adding those rows keeps keys fresh and every photo's request existing. |
| App.AttachOne | app/Http/Controllers/MaintenanceRequestController.php:42-49 | One loop step adds the next row of `NewPhotos`. |
| Schema.ParseStatus | app/Http/Controllers/MaintenanceRequestController.php:20 | Accepts exactly the six status names: a parsed value prints back as the input, and a rejected input names no status. |
| Schema.StatusNameRoundTrip | app/Http/Controllers/MaintenanceRequestController.php:118 | Every status's stored name is accepted and parses back to that status. |
| MaintenanceRequests.FetchAllRequests | app/Http/Controllers/MaintenanceRequestController.php:57-87 | Role "User": exactly the caller's own requests. "Department Admin": exactly those whose department the caller administers. "Maintenance": exactly those assigned to the caller. Any other role: every request. |
| MaintenanceRequests.ListingMatchesView | app/Http/Controllers/MaintenanceRequestController.php:63-80 | For the three roles the listing narrows, a request is listed if and only if the policy's `view` allows it. For every other role, every request is listed although `view` allows none. |
| MaintenanceRequests.RegisteredUserSeesOthersRequest | app/Http/Controllers/MaintenanceRequestController.php:64-66 | A caller stored with role "user" is shown a request created by someone else. |
| MaintenanceRequests.RegisteredRolesSeeEverything | app/Http/Controllers/MaintenanceRequestController.php:63-80 | For any registered role, the listing equals the unfiltered listing. |
| MaintenanceRequests.VisibleRequests | app/Http/Controllers/MaintenanceRequestController.php:57-87 | Corrected listing: each registered role other than owner sees exactly what the corrected policy lets it view, a "user" only their own requests, and an owner everything. |
| MaintenanceRequests.VisibleRequestsRespelled | app/Http/Controllers/MaintenanceRequestController.php:63-80 | The corrected listing equals the written one applied to a user whose role is spelled the way the listing expects. |
| MaintenanceRequests.FetchAllMaintenanceTeam | app/Http/Controllers/MaintenanceRequestController.php:89-96 | Lists exactly the users whose role string is "Maintenance", each once. |
| MaintenanceRequests.RegisteredMaintenanceNeverListed | app/Http/Controllers/MaintenanceRequestController.php:91 | When every stored role is a registered name, the team list is empty. |
| App.StoredCallerSeesEverything | app/Http/Controllers/MaintenanceRequestController.php:63-80 | In every valid store, every caller's listing is the unfiltered one. |
| App.StoredTeamEmpty | app/Http/Controllers/MaintenanceRequestController.php:91 | In every valid store the maintenance team list is empty, with role comparison taken as case-sensitive. |
| MaintenanceRequests.MaintenanceTeam | app/Http/Controllers/MaintenanceRequestController.php:89-96 | Corrected team: exactly the users registered as maintenance. |
| App.Database.AssignTo | app/Http/Controllers/MaintenanceRequestController.php:98-113 | A missing or unknown user gives 422 and an unknown request 404. Otherwise only that request's assignee changes. No caller or role check is made. |
| App.Database.UpdateStatus | app/Http/Controllers/MaintenanceRequestController.php:115-129 | A value that is not one of the six once trimmed gives 422 and an unknown request 404. Otherwise only that request's status is overwritten, from any status. |
| Schema.ValidNameCases | app/Http/Controllers/departmentController.php:15 | The `required|string|max:255` rule, applied after trimming: every blank string fails (the empty string and U+00A0 among them), a string whose trimmed value exceeds 255 characters fails, blanks of any length before and after a name never change the verdict, and a string within the bound with a visible first character passes. |
| Schema.TrimAround | app/Http/Controllers/departmentController.php:14-18 | Any blank prefix and any blank suffix leave the trimmed value of a field unchanged. |
| Schema.TrimSlice | app/Http/Controllers/departmentController.php:14-18 | A validated string field arrives trimmed: the value kept is one contiguous slice of the input, only blanks are dropped around it, no blank is left at either end, and it is empty exactly when the input is blank. |
| Schema.Field | app/Http/Controllers/departmentController.php:16 | A nullable string field that trims to nothing arrives as null; otherwise it arrives as its trimmed, non-empty value. |
| Schema.ParseRole | app/Http/Controllers/AuthController.php:41 | Accepts exactly the four registration role names. |
| MaintenanceRequestPolicy.View | app/Policies/MaintenanceRequestPolicy.php:10-25 | Granted only to the role strings "User", "Department Admin" and "Maintenance", and only for a request the user created, whose department they administer, or that is assigned to them. |
| MaintenanceRequestPolicy.Update | app/Policies/MaintenanceRequestPolicy.php:27-40 | Granted only to "Department Admin" and "Maintenance", and only for a request whose department the user administers or that is assigned to them. |
| MaintenanceRequestPolicy.PolicyByRole | app/Policies/MaintenanceRequestPolicy.php:10-40 | Role by role, when `view` and `update` hold: "User" views only its own requests and never updates; "Department Admin" views and updates exactly the requests of the department it administers; "Maintenance" views and updates exactly its assigned requests; every other role gets nothing. |
| MaintenanceRequestPolicy.UpdateImpliesView | app/Policies/MaintenanceRequestPolicy.php:10-40 | `update` implies `view` for every user and request. |
| MaintenanceRequestPolicy.PolicyDeniesRegisteredRoles | app/Policies/MaintenanceRequestPolicy.php:12-22 | For every role name registration accepts, neither predicate holds. |
| MaintenanceRequestPolicy.CorrectedPolicyAgrees | app/Policies/MaintenanceRequestPolicy.php:10-40 | The corrected predicates over registered roles equal the written ones on each role's expected spelling, and corrected update implies corrected view. |
| MaintenanceRequestPolicy.CorrectedPolicyGrantsRegisteredRoles | app/Policies/MaintenanceRequestPolicy.php:10-40 | Under the corrected policy, a stored "user" views exactly its own requests, a stored "maintenance" exactly its assigned requests, and a stored "dept_admin" updates exactly its department's requests. |
| App.Database.CreateDepartment | app/Http/Controllers/departmentController.php:13-38 | A blank or over-long name or an unknown organization gives 422, before the owner check, and a caller who is not the owner 403, with no change. On 200 one new department is added, in that organization, with no admin, the trimmed name and the description as it arrives through `Field`. |
| App.Database.UpdateDepartmentName | app/Http/Controllers/departmentController.php:40-61 | An unknown department gives 404, a deleted organization 500, and a caller who is not the owner 403. After the owner check, a sent blank or over-long name, or a sent description over 255 characters once trimmed, gives 422. Nothing changes on an error. On 200 only the name and description fields that were sent change, to their trimmed values, a blank description becoming null. Admin and organization are untouched. |
| App.Database.DeleteDepartment | app/Http/Controllers/departmentController.php:63-75 | Same guards. On 200 exactly that department is removed. |
| App.Database.AssignUserToDepartment | app/Http/Controllers/departmentController.php:77-91 | An unknown user or department gives 422. Otherwise the pair is added to the membership set and every existing membership is kept. No ownership or role check is made. |
| App.Database.StoreOrganization | app/Http/Controllers/organizationController.php:13-46 | A blank or over-long name gives 422 and writes nothing. Otherwise adds one organization owned by the caller, with the trimmed name and the description as it arrives through `Field`. The caller's role becomes "owner", or 404 is answered, leaving the new organization in place, when the caller has no user row. |
| Organizations.GetAllOrganizations | app/Http/Controllers/organizationController.php:48-56 | Every organization, unfiltered. |
| App.Database.UpdateOrganization | app/Http/Controllers/organizationController.php:58-80 | An unknown organization gives 404, a caller who is not the owner 403, and then a sent blank or over-long name 422; nothing changes on an error. On 200 the sent fields are overwritten with their trimmed values, a blank description or url becoming null: a stored photo's URL applies unless a `url` field is sent. The owner never changes. |
| App.Database.DestroyOrganization | app/Http/Controllers/organizationController.php:82-100 | An unknown organization gives 404, a caller who is not the owner 403, and a missing user row 404. On 200 the organization is removed and the caller's role becomes "user". |
| Organizations.GetMyOrganization | app/Http/Controllers/organizationController.php:102-119 | Success if and only if the caller's role is "owner", 403 otherwise. On success the body is exactly the organizations the caller owns, possibly several. |
| Scenarios.FoundAndApply | app/Http/Controllers/OrganizationUserRequestController.php:15-45 | In a fresh store, A creates an organization and becomes its owner, and B's request to join is the only row, pending. |
| Scenarios.JoinFlow | app/Http/Controllers/OrganizationUserRequestController.php:98-110 | A creates an organization and becomes owner, B asks to join, and A approves. The table then holds exactly B's approved request, the organization lists it as its only user, A is still "owner", and B belongs to no department. |
| Scenarios.SoleApproved | app/Http/Controllers/OrganizationUserRequestController.php:127-136 | A table holding one approved request lists exactly that request among its organization's users. |
| Scenarios.SubmitTwice | app/Http/Controllers/OrganizationUserRequestController.php:27-33 | A second request for the same pair gives 409 and changes nothing: the table ends as the first call left it, which is either unchanged or the old table plus one pending row for the pair. |
| Scenarios.DeclineThenAccept | app/Http/Controllers/OrganizationUserRequestController.php:98-125 | A declined request can be approved afterwards. |
| Scenarios.NonMemberCannotFile | app/Http/Controllers/MaintenanceRequestController.php:26-34 | A caller who is not a member, filing a valid title, gets 403, and no request or photo is added. |
| Scenarios.SecondAdminConflict | app/Http/Controllers/OrganizationUserRequestController.php:153-155 | Once a slot is filled, assigning any user gives 409 and the first admin stays. |
| Scenarios.DestroyDemotes | app/Http/Controllers/organizationController.php:82-100 | An owner of two organizations who deletes one is demoted, and is refused the listing of the one they still own. |
| Scenarios.UpdateStatusIdempotent | app/Http/Controllers/MaintenanceRequestController.php:121-123 | Setting the same status twice gives the same answer and the same store as setting it once. |
| Scenarios.AssignUserIdempotent | app/Http/Controllers/departmentController.php:86 | Adding the same membership twice gives the same answer and the same set as adding it once. |

## Left out

- Schema.Trimmed: the blanks stripped are those of the trimming middleware in the 11.x framework releases that strip NUL: Unicode whitespace, NUL, U+FEFF, U+200B and U+200E. The release is read off app/Models/User.php:47, whose `casts()` method the framework reads only from version 11 on; the exact minor release is not in the source files. Earlier 11.x releases keep NUL at either end of a field, which the model strips.
- StoreMaintenanceRequest: the image-type and size rules on uploaded photos (a 422) are not modelled; every upload is taken as a valid image.
- StoreOrganization: the image-type and size rules on the organization picture (a 422) are not modelled.
- UpdateOrganization: the image-type and size rules on the organization picture (a 422) are not modelled.
- The ascending key order of listings without `orderBy` is the model's choice. SQL promises no order there, so only the set of listed rows reflects the source.
- SQL string equality in `where` clauses is modelled as case-sensitive, as under a binary collation. The database engine and its collation are not part of this model; under a case-insensitive collation `FetchAllMaintenanceTeam` would also match "maintenance".
- File storage is not modelled. The stored path of each uploaded photo and the URL of an organization picture are inputs.
- Authentication, tokens and registration are not modelled. The caller is an id that resolves to the authenticated user. The maintenance routes lack the authentication middleware; this is not modelled.
- Eager loading of related rows and the JSON bodies of write actions are not modelled. Write actions return only their status.
- Timestamps other than a join request's creation time are not modelled. The order of rows with equal creation times is not fixed by the model.
- Concurrency and transactions are not modelled. Each action is one atomic step.
- Cascading deletes belong to the database migrations, which are not part of this model. Deleting an organization or a department removes only that row.
- Non-numeric or negative ids are not modelled. Ids are naturals, and an absent id is `None`.
- Profile editing, login and the mobile client are not part of this model.
- StoreMaintenanceRequest: the partial failure of an upload loop that stops half way (the files already stored stay) is not modelled; the loop always completes.

## Findings

| source | as written | input that shows it | evidently intended | confidence | as-written member | corrected member |
|---|---|---|---|---|---|---|
| app/Http/Controllers/MaintenanceRequestController.php:64-78 | The listing compares the role with "User", "Department Admin" and "Maintenance". Registration stores "user", "dept_admin" and "maintenance" (app/Http/Controllers/AuthController.php:41), so every stored role falls through to the unrestricted branch. | An authenticated caller stored with role "user" and a request created by another user: the request is listed. | Narrow the listing by the registered role. | high, not executed | MaintenanceRequests.RegisteredUserSeesOthersRequest, MaintenanceRequests.RegisteredRolesSeeEverything, App.StoredCallerSeesEverything | MaintenanceRequests.VisibleRequests, MaintenanceRequests.VisibleRequestsRespelled |
| app/Http/Controllers/MaintenanceRequestController.php:91 | The team query asks for role "Maintenance", but registration stores "maintenance". Under a case-sensitive collation no stored row matches. | Any store whose users all have registered roles, on a case-sensitive collation: the team list is empty. | List the users registered as maintenance. | medium, conditional on a case-sensitive collation, not executed | MaintenanceRequests.RegisteredMaintenanceNeverListed, App.StoredTeamEmpty | MaintenanceRequests.MaintenanceTeam |
| app/Policies/MaintenanceRequestPolicy.php:12-20 | `view` and `update` match "User", "Department Admin" and "Maintenance" only, so no stored role is ever granted anything. | A user stored with role "user" viewing their own request: `view` is false. | Grant each registered role its rule. | high, not executed | MaintenanceRequestPolicy.PolicyDeniesRegisteredRoles | MaintenanceRequestPolicy.CorrectedPolicyGrantsRegisteredRoles, MaintenanceRequestPolicy.CorrectedPolicyAgrees |
