/** Read-only queries over `maintenance_requests` and `users`, and the photo
    rows that creating a request adds. */
module MaintenanceRequests {
  import opened Common
  import opened Schema
  import opened MaintenanceRequestPolicy

  /** Whether the listing shows request `t` to a caller with role string `role`:
      the three role strings the listing knows narrow it, every other role
      falls through to the unrestricted listing. */
  predicate ListedFor(caller: UserId, role: string, departments: map<DeptId, Department>, t: MaintenanceRequest) {
    if role == "User" then t.user == caller
    else if role == "Department Admin" then AdministersDepartmentOf(departments, t, caller)
    else if role == "Maintenance" then t.assignedTo == Some(caller)
    else true
  }

  /** The role-scoped listing of maintenance requests, for the logged-in caller. */
  function FetchAllRequests(
    users: map<UserId, User>, caller: UserId,
    tickets: map<TicketId, MaintenanceRequest>, departments: map<DeptId, Department>): (r: seq<TicketId>)
    requires caller in users
    ensures Increasing(r)
    ensures users[caller].role == "User" ==>
      forall id :: id in r <==> id in tickets && tickets[id].user == caller
    ensures users[caller].role == "Department Admin" ==>
      forall id :: id in r <==> id in tickets && AdministersDepartmentOf(departments, tickets[id], caller)
    ensures users[caller].role == "Maintenance" ==>
      forall id :: id in r <==> id in tickets && tickets[id].assignedTo == Some(caller)
    ensures users[caller].role !in {"User", "Department Admin", "Maintenance"} ==>
      forall id :: id in r <==> id in tickets
  {
    var role := users[caller].role;
    KeysWhere(tickets, (t: MaintenanceRequest) => ListedFor(caller, role, departments, t))
  }

  /** For the roles it narrows, the listing shows exactly what the policy's
      `view` allows; every other role sees all requests, though `view` allows
      it none. */
  lemma ListingMatchesView(
    users: map<UserId, User>, caller: UserId,
    tickets: map<TicketId, MaintenanceRequest>, departments: map<DeptId, Department>, id: TicketId)
    requires caller in users && id in tickets
    ensures users[caller].role in {"User", "Department Admin", "Maintenance"} ==>
      (id in FetchAllRequests(users, caller, tickets, departments) <==> View(caller, users[caller], tickets[id], departments))
    ensures users[caller].role !in {"User", "Department Admin", "Maintenance"} ==>
      id in FetchAllRequests(users, caller, tickets, departments) && !View(caller, users[caller], tickets[id], departments)
  {
  }

  /** As written, a caller who registered with role "user" is shown a request
      created by someone else: the listing compares against "User". */
  lemma RegisteredUserSeesOthersRequest()
    ensures
      var users := map[1 := User("alice", RoleName(UserRole))];
      var tickets := map[7 := MaintenanceRequest(2, 3, None, "leaking tap", None, New)];
      7 in FetchAllRequests(users, 1, tickets, map[]) && tickets[7].user != 1
  {
  }

  /** As written, every caller whose role is one of the registered names is
      shown every request. */
  lemma RegisteredRolesSeeEverything(
    users: map<UserId, User>, caller: UserId,
    tickets: map<TicketId, MaintenanceRequest>, departments: map<DeptId, Department>)
    requires caller in users && IsRegisteredRole(users[caller].role)
    ensures FetchAllRequests(users, caller, tickets, departments) == KeysWhere(tickets, (t: MaintenanceRequest) => true)
  {
    IncreasingUnique(FetchAllRequests(users, caller, tickets, departments), KeysWhere(tickets, (t: MaintenanceRequest) => true));
  }

  /** The role-scoped listing matched on the registered role: each narrowed role
      sees exactly what the corrected policy lets it view, and an owner (the
      listing's unrestricted branch) sees every request. */
  function VisibleRequests(
    caller: UserId, role: Role,
    tickets: map<TicketId, MaintenanceRequest>, departments: map<DeptId, Department>): (r: seq<TicketId>)
    ensures Increasing(r)
    ensures role != OwnerRole ==>
      forall id :: id in r <==> id in tickets && CanView(caller, role, tickets[id], departments)
    ensures role == OwnerRole ==> forall id :: id in r <==> id in tickets
    ensures role == UserRole ==> forall id :: id in r ==> tickets[id].user == caller
  {
    KeysWhere(tickets, (t: MaintenanceRequest) => role == OwnerRole || CanView(caller, role, t, departments))
  }

  /** The corrected listing is the written one with each registered role
      spelled the way the listing expects it. */
  lemma {:induction false} VisibleRequestsRespelled(
    caller: UserId, name: string, role: Role,
    tickets: map<TicketId, MaintenanceRequest>, departments: map<DeptId, Department>)
    ensures VisibleRequests(caller, role, tickets, departments) ==
            FetchAllRequests(map[caller := User(name, PolicySpelling(role))], caller, tickets, departments)
  {
    var users := map[caller := User(name, PolicySpelling(role))];
    IncreasingUnique(VisibleRequests(caller, role, tickets, departments), FetchAllRequests(users, caller, tickets, departments));
  }

  /** The users listed as the maintenance team. */
  function FetchAllMaintenanceTeam(users: map<UserId, User>): (r: seq<UserId>)
    ensures Increasing(r)
    ensures forall u :: u in r <==> u in users && users[u].role == "Maintenance"
  {
    KeysWhere(users, (u: User) => u.role == "Maintenance")
  }

  /** As written, the team is empty whenever every stored role is a registered
      name: registration stores "maintenance", the query asks for "Maintenance". */
  lemma RegisteredMaintenanceNeverListed(users: map<UserId, User>)
    requires forall u :: u in users ==> IsRegisteredRole(users[u].role)
    ensures FetchAllMaintenanceTeam(users) == []
  {
    var r := FetchAllMaintenanceTeam(users);
    forall u
      ensures u !in r
    {
      if u in users {
        assert users[u].role != "Maintenance";
      }
    }
    IncreasingUnique(r, []);
  }

  /** The maintenance team matched on the registered role name. */
  function MaintenanceTeam(users: map<UserId, User>): (r: seq<UserId>)
    ensures Increasing(r)
    ensures forall u :: u in r <==> u in users && ParseRole(users[u].role) == Some(MaintenanceRole)
  {
    KeysWhere(users, (u: User) => u.role == RoleName(MaintenanceRole))
  }

  /** The public URL of a stored photo file. */
  function PhotoUrl(path: string): string {
    "/storage/" + path
  }

  /** The photo rows created for the uploaded files `paths` of request
      `ticket`, numbered from `first` on: one per file, in upload order. */
  function NewPhotos(ticket: TicketId, first: PhotoId, paths: seq<string>): (r: map<PhotoId, Photo>)
    ensures forall id :: id in r <==> first <= id < first + |paths|
    ensures forall k :: 0 <= k < |paths| ==> r[first + k] == Photo(ticket, PhotoUrl(paths[k]))
    decreases |paths|
  {
    if paths == [] then map[]
    else
      var n := |paths| - 1;
      var before := NewPhotos(ticket, first, paths[..n]);
      assert first + n !in before;
      before[first + n := Photo(ticket, PhotoUrl(paths[n]))]
  }
}
