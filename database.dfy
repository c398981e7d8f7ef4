/** The application's relational store and the controller actions that change
    it. Each action is one atomic read-modify-write of the store, answered
    with an HTTP status; the caller is the id the bearer token resolved to. */
module App {
  import opened Common
  import opened Schema
  import opened OrganizationUserRequests
  import opened MaintenanceRequests

  /** Every key of a table is positive and below its next auto-increment value. */
  ghost predicate KeysBelow<V>(m: map<nat, V>, next: nat) {
    0 < next && forall id :: id in m ==> 0 < id < next
  }

  /** Linking request `ticket` to one more uploaded file extends the photo
      table by the next row of `NewPhotos`. */
  lemma AttachOne(before: map<PhotoId, Photo>, ticket: TicketId, first: PhotoId, paths: seq<string>, i: nat)
    requires i < |paths|
    ensures (before + NewPhotos(ticket, first, paths[..i]))[first + i := Photo(ticket, PhotoUrl(paths[i]))]
         == before + NewPhotos(ticket, first, paths[..i + 1])
  {
    var added := NewPhotos(ticket, first, paths[..i]);
    var row := Photo(ticket, PhotoUrl(paths[i]));
    assert paths[..i + 1][..i] == paths[..i];
    assert NewPhotos(ticket, first, paths[..i + 1]) == added[first + i := row];
    assert (before + added)[first + i := row] == before + added[first + i := row];
  }

  /** Adding the rows of `NewPhotos` for an existing request, numbered from a
      fresh `first`, keeps the photo keys fresh and every photo attached to an
      existing request. */
  lemma {:induction false} AttachAll(
    before: map<PhotoId, Photo>, tickets: map<TicketId, MaintenanceRequest>,
    ticket: TicketId, first: PhotoId, paths: seq<string>)
    requires ticket in tickets && KeysBelow(before, first)
    requires forall p :: p in before ==> before[p].request in tickets
    ensures var after := before + NewPhotos(ticket, first, paths);
      && KeysBelow(after, first + |paths|)
      && forall p :: p in after ==> after[p].request in tickets
  {
    var added := NewPhotos(ticket, first, paths);
    var after := before + added;
    forall p | p in after
      ensures 0 < p < first + |paths| && after[p].request in tickets
    {
      if p in before {
        assert p !in added;
        assert after[p] == before[p];
      } else {
        assert p in added;
        var k := p - first;
        assert 0 <= k < |paths| && first + k == p;
        assert added[first + k] == Photo(ticket, PhotoUrl(paths[k]));
      }
    }
  }

  /** The rows `NewPhotos` creates from `first` on do not clash with a table
      whose keys are all below `first`. */
  lemma NewPhotosFresh(before: map<PhotoId, Photo>, ticket: TicketId, first: PhotoId, paths: seq<string>)
    requires KeysBelow(before, first)
    ensures before.Keys !! NewPhotos(ticket, first, paths).Keys
  {
  }

  /** In any valid store every caller is shown every maintenance request: the
      listing's role strings never match a stored role. */
  lemma StoredCallerSeesEverything(db: Database, caller: UserId)
    requires db.Valid() && caller in db.users
    ensures FetchAllRequests(db.users, caller, db.tickets, db.departments) == KeysWhere(db.tickets, (t: MaintenanceRequest) => true)
  {
    RegisteredRolesSeeEverything(db.users, caller, db.tickets, db.departments);
  }

  /** In any valid store the maintenance team list is empty. */
  lemma StoredTeamEmpty(db: Database)
    requires db.Valid()
    ensures FetchAllMaintenanceTeam(db.users) == []
  {
    RegisteredMaintenanceNeverListed(db.users);
  }

  /** An id read from the request is present only if it is truthy: a missing
      field, null and 0 all count as absent. */
  predicate Given(id: Option<nat>) {
    id.Some? && id.value != 0
  }

  class Database {
    var users: map<UserId, User>
    var organizations: map<OrgId, Organization>
    var departments: map<DeptId, Department>
    var members: set<(UserId, DeptId)>
    var joinRequests: map<JoinId, JoinRequest>
    var tickets: map<TicketId, MaintenanceRequest>
    var photos: map<PhotoId, Photo>
    var nextOrganization: nat
    var nextDepartment: nat
    var nextJoinRequest: nat
    var nextTicket: nat
    var nextPhoto: nat

    /** Fresh keys, one join request per (user, organization) pair, photos
        attached to existing requests, and only registered role names stored. */
    ghost predicate Valid()
      reads this
    {
      && KeysBelow(organizations, nextOrganization)
      && KeysBelow(departments, nextDepartment)
      && KeysBelow(joinRequests, nextJoinRequest)
      && KeysBelow(tickets, nextTicket)
      && OnePerPair(joinRequests)
      && PhotosValid()
      && (forall u :: u in users ==> IsRegisteredRole(users[u].role))
    }

    /** Photo keys are fresh and every photo belongs to an existing request. */
    ghost predicate PhotosValid()
      reads this
    {
      KeysBelow(photos, nextPhoto) && forall p :: p in photos ==> photos[p].request in tickets
    }

    /** An empty store holding the users that have registered. */
    constructor (registered: map<UserId, User>)
      requires forall u :: u in registered ==> IsRegisteredRole(registered[u].role)
      ensures Valid()
      ensures users == registered && organizations == map[] && departments == map[] && members == {}
      ensures joinRequests == map[] && tickets == map[] && photos == map[]
    {
      users := registered;
      organizations, departments, members := map[], map[], {};
      joinRequests, tickets, photos := map[], map[], map[];
      nextOrganization, nextDepartment, nextJoinRequest, nextTicket, nextPhoto := 1, 1, 1, 1, 1;
    }

    // ---------------------------------------------------------------------
    // Join requests

    /** The caller asks to join an organization. A request of any status for
        the same pair blocks a new one. */
    method MakeRequestToOrganization(caller: UserId, organization: Option<nat>, now: nat) returns (status: Status, id: JoinId)
      requires Valid()
      modifies this`joinRequests, this`nextJoinRequest
      ensures Valid()
      ensures status == (
        if organization.None? then Unprocessable
        else if organization.value !in organizations then NotFound
        else if HasRequest(old(joinRequests), caller, organization.value) then Conflict
        else Created)
      ensures status == Created ==>
        && id !in old(joinRequests)
        && joinRequests == old(joinRequests)[id := JoinRequest(caller, organization.value, JoinStatus.Pending, now)]
      ensures status != Created ==> joinRequests == old(joinRequests)
    {
      id := 0;
      if organization.None? {
        return Unprocessable, id;
      }
      var org := organization.value;
      if org !in organizations {
        return NotFound, id;
      }
      if HasRequest(joinRequests, caller, org) {
        return Conflict, id;
      }
      id := nextJoinRequest;
      var row := JoinRequest(caller, org, JoinStatus.Pending, now);
      AddKeepsOnePerPair(joinRequests, id, row);
      joinRequests := joinRequests[id := row];
      nextJoinRequest := nextJoinRequest + 1;
      status := Created;
    }

    /** The caller withdraws one of their own requests that is still pending;
        any other case is answered as not found. */
    method CancelMyRequest(caller: UserId, id: JoinId) returns (status: Status)
      requires Valid()
      modifies this`joinRequests
      ensures Valid()
      ensures status == Ok <==>
        id in old(joinRequests) && old(joinRequests)[id].user == caller && old(joinRequests)[id].status == JoinStatus.Pending
      ensures status != Ok ==> status == NotFound && joinRequests == old(joinRequests)
      ensures status == Ok ==> joinRequests == old(joinRequests) - {id}
    {
      if id in joinRequests && joinRequests[id].user == caller && joinRequests[id].status == JoinStatus.Pending {
        joinRequests := joinRequests - {id};
        status := Ok;
      } else {
        status := NotFound;
      }
    }

    /** The owner of the request's organization approves it, whatever its
        current status. */
    method AcceptRequest(caller: UserId, id: JoinId) returns (status: Status)
      requires Valid()
      modifies this`joinRequests
      ensures Valid()
      ensures status == (
        if id !in old(joinRequests) then NotFound
        else if old(joinRequests)[id].organization !in organizations then ServerError
        else if !Owns(organizations, old(joinRequests)[id].organization, caller) then Forbidden
        else Ok)
      ensures status == Ok ==>
        joinRequests == old(joinRequests)[id := old(joinRequests)[id].(status := JoinStatus.Approved)]
      ensures status != Ok ==> joinRequests == old(joinRequests)
    {
      if id !in joinRequests {
        return NotFound;
      }
      var request := joinRequests[id];
      if request.organization !in organizations {
        return ServerError;
      }
      if organizations[request.organization].owner != caller {
        return Forbidden;
      }
      joinRequests := joinRequests[id := request.(status := JoinStatus.Approved)];
      status := Ok;
    }

    /** The owner of the request's organization declines it, whatever its
        current status. */
    method DeclineRequest(caller: UserId, id: JoinId) returns (status: Status)
      requires Valid()
      modifies this`joinRequests
      ensures Valid()
      ensures status == (
        if id !in old(joinRequests) then NotFound
        else if old(joinRequests)[id].organization !in organizations then ServerError
        else if !Owns(organizations, old(joinRequests)[id].organization, caller) then Forbidden
        else Ok)
      ensures status == Ok ==>
        joinRequests == old(joinRequests)[id := old(joinRequests)[id].(status := JoinStatus.Declined)]
      ensures status != Ok ==> joinRequests == old(joinRequests)
    {
      if id !in joinRequests {
        return NotFound;
      }
      var request := joinRequests[id];
      if request.organization !in organizations {
        return ServerError;
      }
      if organizations[request.organization].owner != caller {
        return Forbidden;
      }
      joinRequests := joinRequests[id := request.(status := JoinStatus.Declined)];
      status := Ok;
    }

    // ---------------------------------------------------------------------
    // Department admins

    /** The organization's owner fills the single admin slot of a department;
        the chosen user's global role becomes "dept_admin". */
    method AssignAdmins(caller: UserId, department: Option<nat>, user: Option<nat>) returns (status: Status)
      requires Valid()
      modifies this`departments, this`users
      ensures Valid()
      ensures status == (
        if !Given(department) || !Given(user) then Unprocessable
        else if department.value !in old(departments) then NotFound
        else if old(departments)[department.value].admin.Some? then Conflict
        else if !Owns(organizations, old(departments)[department.value].organization, caller) then Forbidden
        else if user.value !in old(users) then NotFound
        else Ok)
      ensures status == Ok ==>
        && departments == old(departments)[department.value := old(departments)[department.value].(admin := Some(user.value))]
        && users == old(users)[user.value := old(users)[user.value].(role := RoleName(DeptAdminRole))]
      ensures status != Ok ==> departments == old(departments) && users == old(users)
    {
      if !Given(department) || !Given(user) {
        return Unprocessable;
      }
      var d, u := department.value, user.value;
      if d !in departments {
        return NotFound;
      }
      if departments[d].admin.Some? {
        return Conflict;
      }
      if !Owns(organizations, departments[d].organization, caller) {
        return Forbidden;
      }
      if u !in users {
        return NotFound;
      }
      departments := departments[d := departments[d].(admin := Some(u))];
      users := users[u := users[u].(role := "dept_admin")];
      status := Ok;
    }

    /** The organization's owner empties a department's admin slot; the named
        user's global role becomes "user", whether or not they held the slot. */
    method RemoveAdmins(caller: UserId, department: Option<nat>, user: Option<nat>) returns (status: Status)
      requires Valid()
      modifies this`departments, this`users
      ensures Valid()
      ensures status == (
        if !Given(department) || !Given(user) then Unprocessable
        else if department.value !in old(departments) then NotFound
        else if !Owns(organizations, old(departments)[department.value].organization, caller) then Forbidden
        else if user.value !in old(users) then NotFound
        else Ok)
      ensures status == Ok ==>
        && departments == old(departments)[department.value := old(departments)[department.value].(admin := None)]
        && users == old(users)[user.value := old(users)[user.value].(role := RoleName(UserRole))]
      ensures status != Ok ==> departments == old(departments) && users == old(users)
    {
      if !Given(department) || !Given(user) {
        return Unprocessable;
      }
      var d, u := department.value, user.value;
      if d !in departments {
        return NotFound;
      }
      if !Owns(organizations, departments[d].organization, caller) {
        return Forbidden;
      }
      if u !in users {
        return NotFound;
      }
      departments := departments[d := departments[d].(admin := None)];
      users := users[u := users[u].(role := "user")];
      status := Ok;
    }

    // ---------------------------------------------------------------------
    // Maintenance requests

    /** A member of a department files a maintenance request, unassigned, with
        one photo row per uploaded file; `paths` are where the files were stored. */
    method StoreMaintenanceRequest(
      caller: UserId, department: DeptId, title: string, description: Option<string>,
      newStatus: string, paths: seq<string>) returns (status: Status, id: TicketId)
      requires Valid()
      modifies this`tickets, this`nextTicket, this`photos, this`nextPhoto
      ensures Valid()
      ensures status == (
        if department !in departments || !ValidName(title) || ParseStatus(Trim(newStatus)).None? then Unprocessable
        else if (caller, department) !in members then Forbidden
        else Created)
      ensures status == Created ==>
        && id !in old(tickets)
        && tickets == old(tickets)[id := MaintenanceRequest(caller, department, None, Trim(title), Nullable(description), ParseStatus(Trim(newStatus)).value)]
        && old(photos).Keys !! NewPhotos(id, old(nextPhoto), paths).Keys
        && photos == old(photos) + NewPhotos(id, old(nextPhoto), paths)
      ensures status != Created ==> tickets == old(tickets) && photos == old(photos)
    {
      id := 0;
      var parsed := ParseStatus(Trim(newStatus));
      if department !in departments || !ValidName(title) || parsed.None? {
        return Unprocessable, id;
      }
      if (caller, department) !in members {
        return Forbidden, id;
      }
      id := nextTicket;
      tickets := tickets[id := MaintenanceRequest(caller, department, None, Trim(title), Nullable(description), parsed.value)];
      nextTicket := nextTicket + 1;
      AttachPhotos(id, paths);
      status := Created;
    }

    /** Inserts one photo row per stored file, each linked to request `id`. */
    method AttachPhotos(id: TicketId, paths: seq<string>)
      requires PhotosValid() && id in tickets
      modifies this`photos, this`nextPhoto
      ensures PhotosValid()
      ensures old(photos).Keys !! NewPhotos(id, old(nextPhoto), paths).Keys
      ensures photos == old(photos) + NewPhotos(id, old(nextPhoto), paths)
    {
      NewPhotosFresh(photos, id, nextPhoto, paths);
      AttachAll(photos, tickets, id, nextPhoto, paths);
      var rows, next := photos, nextPhoto;
      assert paths[..0] == [];
      var i := 0;
      while i < |paths|
        invariant 0 <= i <= |paths|
        invariant next == old(nextPhoto) + i
        invariant rows == old(photos) + NewPhotos(id, old(nextPhoto), paths[..i])
      {
        AttachOne(old(photos), id, old(nextPhoto), paths, i);
        rows := rows[next := Photo(id, PhotoUrl(paths[i]))];
        next := next + 1;
        i := i + 1;
      }
      assert paths[..|paths|] == paths;
      photos, nextPhoto := rows, next;
    }

    /** Any caller assigns a request to an existing user. */
    method AssignTo(ticket: TicketId, user: Option<nat>) returns (status: Status)
      requires Valid()
      modifies this`tickets
      ensures Valid()
      ensures status == (
        if user.None? || user.value !in users then Unprocessable
        else if ticket !in old(tickets) then NotFound
        else Ok)
      ensures status == Ok ==> tickets == old(tickets)[ticket := old(tickets)[ticket].(assignedTo := Some(user.value))]
      ensures status != Ok ==> tickets == old(tickets)
    {
      if user.None? || user.value !in users {
        return Unprocessable;
      }
      if ticket !in tickets {
        return NotFound;
      }
      tickets := tickets[ticket := tickets[ticket].(assignedTo := Some(user.value))];
      status := Ok;
    }

    /** Any caller moves a request to any of the six statuses, from any status. */
    method UpdateStatus(ticket: TicketId, newStatus: string) returns (status: Status)
      requires Valid()
      modifies this`tickets
      ensures Valid()
      ensures status == (
        if ParseStatus(Trim(newStatus)).None? then Unprocessable
        else if ticket !in old(tickets) then NotFound
        else Ok)
      ensures status == Ok ==>
        tickets == old(tickets)[ticket := old(tickets)[ticket].(status := ParseStatus(Trim(newStatus)).value)]
      ensures status != Ok ==> tickets == old(tickets)
    {
      var parsed := ParseStatus(Trim(newStatus));
      if parsed.None? {
        return Unprocessable;
      }
      if ticket !in tickets {
        return NotFound;
      }
      tickets := tickets[ticket := tickets[ticket].(status := parsed.value)];
      status := Ok;
    }

    // ---------------------------------------------------------------------
    // Departments

    /** The organization's owner adds a department, with no admin yet. */
    method CreateDepartment(caller: UserId, name: string, description: Option<string>, organization: OrgId)
      returns (status: Status, id: DeptId)
      requires Valid()
      modifies this`departments, this`nextDepartment
      ensures Valid()
      ensures status == (
        if !ValidName(name) || organization !in organizations then Unprocessable
        else if !Owns(organizations, organization, caller) then Forbidden
        else Ok)
      ensures status == Ok ==>
        id !in old(departments) && departments == old(departments)[id := Department(Trim(name), Nullable(description), organization, None)]
      ensures status != Ok ==> departments == old(departments)
    {
      id := 0;
      if !ValidName(name) || organization !in organizations {
        return Unprocessable, id;
      }
      if organizations[organization].owner != caller {
        return Forbidden, id;
      }
      id := nextDepartment;
      departments := departments[id := Department(Trim(name), Nullable(description), organization, None)];
      nextDepartment := nextDepartment + 1;
      status := Ok;
    }

    /** The organization's owner renames or redescribes a department; the
        fields absent from the request keep their values. */
    method UpdateDepartmentName(caller: UserId, id: DeptId, name: Option<string>, description: Option<Option<string>>)
      returns (status: Status)
      requires Valid()
      modifies this`departments
      ensures Valid()
      ensures status == (
        if id !in old(departments) then NotFound
        else if old(departments)[id].organization !in organizations then ServerError
        else if !Owns(organizations, old(departments)[id].organization, caller) then Forbidden
        else if (name.Some? && !ValidName(name.value)) || (description.Some? && Nullable(description.value).Some? && |Nullable(description.value).value| > 255) then Unprocessable
        else Ok)
      ensures status == Ok ==>
        var d := old(departments)[id];
        departments == old(departments)[id := d.(name := if name.Some? then Trim(name.value) else d.name,
          description := if description.Some? then Nullable(description.value) else d.description)]
      ensures status != Ok ==> departments == old(departments)
    {
      if id !in departments {
        return NotFound;
      }
      var d := departments[id];
      if d.organization !in organizations {
        return ServerError;
      }
      if organizations[d.organization].owner != caller {
        return Forbidden;
      }
      if (name.Some? && !ValidName(name.value)) || (description.Some? && Nullable(description.value).Some? && |Nullable(description.value).value| > 255) {
        return Unprocessable;
      }
      departments := departments[id := d.(name := if name.Some? then Trim(name.value) else d.name,
          description := if description.Some? then Nullable(description.value) else d.description)];
      status := Ok;
    }

    /** The organization's owner deletes a department; no other row is touched. */
    method DeleteDepartment(caller: UserId, id: DeptId) returns (status: Status)
      requires Valid()
      modifies this`departments
      ensures Valid()
      ensures status == (
        if id !in old(departments) then NotFound
        else if old(departments)[id].organization !in organizations then ServerError
        else if !Owns(organizations, old(departments)[id].organization, caller) then Forbidden
        else Ok)
      ensures status == Ok ==> departments == old(departments) - {id}
      ensures status != Ok ==> departments == old(departments)
    {
      if id !in departments {
        return NotFound;
      }
      var org := departments[id].organization;
      if org !in organizations {
        return ServerError;
      }
      if organizations[org].owner != caller {
        return Forbidden;
      }
      departments := departments - {id};
      status := Ok;
    }

    /** Any caller makes an existing user a member of an existing department,
        keeping every membership already recorded. */
    method AssignUserToDepartment(user: Option<nat>, department: Option<nat>) returns (status: Status)
      requires Valid()
      modifies this`members
      ensures Valid()
      ensures status == (
        if user.None? || user.value !in users || department.None? || department.value !in departments then Unprocessable
        else Ok)
      ensures status == Ok ==> members == old(members) + {(user.value, department.value)}
      ensures status != Ok ==> members == old(members)
    {
      if user.None? || user.value !in users || department.None? || department.value !in departments {
        return Unprocessable;
      }
      members := members + {(user.value, department.value)};
      status := Ok;
    }

    // ---------------------------------------------------------------------
    // Organizations

    /** The caller creates an organization they own and becomes an "owner".
        The organization is inserted before the caller's row is looked up, so
        it stays even when that lookup fails. */
    method StoreOrganization(caller: UserId, name: string, description: Option<string>, url: Option<string>)
      returns (status: Status, id: OrgId)
      requires Valid()
      modifies this`organizations, this`nextOrganization, this`users
      ensures Valid()
      ensures status == if !ValidName(name) then Unprocessable else if caller in old(users) then Ok else NotFound
      ensures status == Unprocessable ==> organizations == old(organizations) && users == old(users)
      ensures status != Unprocessable ==>
        && id !in old(organizations)
        && organizations == old(organizations)[id := Organization(Trim(name), Nullable(description), url, caller)]
      ensures status == Ok ==> users == old(users)[caller := old(users)[caller].(role := RoleName(OwnerRole))]
      ensures status != Ok ==> users == old(users)
    {
      id := 0;
      if !ValidName(name) {
        return Unprocessable, id;
      }
      id := nextOrganization;
      organizations := organizations[id := Organization(Trim(name), Nullable(description), url, caller)];
      nextOrganization := nextOrganization + 1;
      if caller !in users {
        return NotFound, id;
      }
      users := users[caller := users[caller].(role := "owner")];
      status := Ok;
    }

    /** The owner edits an organization: the fields sent are overwritten, an
        uploaded photo's URL replaces the old one unless a `url` field is sent
        too, and the owner never changes. */
    method UpdateOrganization(
      caller: UserId, id: OrgId, name: Option<string>, description: Option<Option<string>>,
      url: Option<Option<string>>, photoUrl: Option<string>) returns (status: Status)
      requires Valid()
      modifies this`organizations
      ensures Valid()
      ensures status == (
        if id !in old(organizations) then NotFound
        else if old(organizations)[id].owner != caller then Forbidden
        else if name.Some? && !ValidName(name.value) then Unprocessable
        else Ok)
      ensures status == Ok ==>
        var o := old(organizations)[id];
        organizations == old(organizations)[id := o.(
          name := if name.Some? then Trim(name.value) else o.name,
          description := if description.Some? then Nullable(description.value) else o.description,
          url := if url.Some? then Nullable(url.value) else if photoUrl.Some? then photoUrl else o.url)]
      ensures status != Ok ==> organizations == old(organizations)
      ensures id in organizations ==> organizations[id].owner == old(organizations)[id].owner
    {
      if id !in organizations {
        return NotFound;
      }
      var o := organizations[id];
      if o.owner != caller {
        return Forbidden;
      }
      if name.Some? && !ValidName(name.value) {
        return Unprocessable;
      }
      var picture := if photoUrl.Some? then photoUrl else o.url;
      organizations := organizations[id := o.(
        name := if name.Some? then Trim(name.value) else o.name,
        description := if description.Some? then Nullable(description.value) else o.description,
        url := if url.Some? then Nullable(url.value) else picture)];
      status := Ok;
    }

    /** The owner deletes an organization and is demoted to "user", even if
        they still own others. Departments and join requests of the
        organization are left in place. */
    method DestroyOrganization(caller: UserId, id: OrgId) returns (status: Status)
      requires Valid()
      modifies this`organizations, this`users
      ensures Valid()
      ensures status == (
        if id !in old(organizations) then NotFound
        else if old(organizations)[id].owner != caller then Forbidden
        else if caller !in old(users) then NotFound
        else Ok)
      ensures status == Ok ==>
        && organizations == old(organizations) - {id}
        && users == old(users)[caller := old(users)[caller].(role := RoleName(UserRole))]
      ensures status != Ok ==> organizations == old(organizations) && users == old(users)
    {
      if id !in organizations {
        return NotFound;
      }
      if organizations[id].owner != caller {
        return Forbidden;
      }
      if caller !in users {
        return NotFound;
      }
      users := users[caller := users[caller].(role := "user")];
      organizations := organizations - {id};
      status := Ok;
    }
  }
}
