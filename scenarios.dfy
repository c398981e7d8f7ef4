/** Sequences of controller actions against one store, and what their
    contracts together promise about them. */
module Scenarios {
  import opened Common
  import opened Schema
  import opened OrganizationUserRequests
  import opened Organizations
  import opened App

  /** Two registered users, 1 and 2, with the plain "user" role. */
  function TwoUsers(): (r: map<UserId, User>)
    ensures forall u :: u in r ==> IsRegisteredRole(r[u].role)
    ensures r.Keys == {1, 2}
  {
    map[1 := User("ann", RoleName(UserRole)), 2 := User("ben", RoleName(UserRole))]
  }

  /** User 1 creates an organization and becomes its owner; user 2 asks to
      join it. */
  method FoundAndApply() returns (db: Database, created: Status, asked: Status, org: OrgId, req: JoinId)
    ensures fresh(db) && db.Valid()
    ensures created == Ok && asked == Created
    ensures 1 in db.users && db.users[1].role == RoleName(OwnerRole)
    ensures Owns(db.organizations, org, 1)
    ensures db.joinRequests == map[req := JoinRequest(2, org, JoinStatus.Pending, 10)]
    ensures db.members == {}
  {
    db := new Database(TwoUsers());
    ValidNameCases("lant", 'p', "", "");
    assert "plant" == ['p'] + "lant";
    created, org := db.StoreOrganization(1, "plant", None, None);
    asked, req := db.MakeRequestToOrganization(2, Some(org), 10);
  }

  /** Continuing `FoundAndApply`, user 1 approves. The approved request is the
      only one listed among the organization's users, the owner keeps the
      role, and approval makes user 2 a member of no department. */
  method JoinFlow() returns (db: Database, created: Status, asked: Status, approved: Status, org: OrgId, req: JoinId, users: seq<JoinId>)
    ensures created == Ok && asked == Created && approved == Ok
    ensures 1 in db.users && db.users[1].role == RoleName(OwnerRole)
    ensures Owns(db.organizations, org, 1)
    ensures db.joinRequests == map[req := JoinRequest(2, org, JoinStatus.Approved, 10)]
    ensures db.members == {}
    ensures users == [req]
  {
    db, created, asked, org, req := FoundAndApply();
    approved := db.AcceptRequest(1, req);
    users := UsersOfOrganization(db.joinRequests, org);
    SoleApproved(req, JoinRequest(2, org, JoinStatus.Approved, 10));
  }

  /** A table holding one approved request lists exactly that request among
      its organization's users. */
  lemma SoleApproved(id: JoinId, r: JoinRequest)
    requires r.status == JoinStatus.Approved
    ensures UsersOfOrganization(map[id := r], r.organization) == [id]
  {
    var users := UsersOfOrganization(map[id := r], r.organization);
    assert id in users;
    assert forall x :: x in users ==> x == id;
  }

  /** A second request for the same (user, organization) pair is refused with
      409 and adds nothing, whatever happened to the first; a first request
      that was created stays pending. */
  method SubmitTwice(db: Database, caller: UserId, org: OrgId, now: nat, later: nat)
    returns (first: Status, second: Status, id: JoinId)
    requires db.Valid() && org in db.organizations
    modifies db
    ensures db.Valid()
    ensures first in {Created, Conflict} && second == Conflict
    ensures db.joinRequests == old(db.joinRequests) <==> first == Conflict
    ensures first == Created ==>
      && id !in old(db.joinRequests)
      && db.joinRequests == old(db.joinRequests)[id := JoinRequest(caller, org, JoinStatus.Pending, now)]
  {
    var again;
    first, id := db.MakeRequestToOrganization(caller, Some(org), now);
    ghost var afterFirst := db.joinRequests;
    if first == Created {
      assert db.joinRequests[id].user == caller && db.joinRequests[id].organization == org;
      assert id !in old(db.joinRequests);
      assert db.joinRequests != old(db.joinRequests);
    }
    second, again := db.MakeRequestToOrganization(caller, Some(org), later);
    assert db.joinRequests == afterFirst;
  }

  /** The owner may decline a request and then approve it: accepting and
      declining do not look at the current status. */
  method DeclineThenAccept(db: Database, caller: UserId, id: JoinId) returns (s1: Status, s2: Status)
    requires db.Valid() && id in db.joinRequests && Owns(db.organizations, db.joinRequests[id].organization, caller)
    modifies db
    ensures s1 == Ok && s2 == Ok
    ensures db.joinRequests == old(db.joinRequests)[id := old(db.joinRequests)[id].(status := JoinStatus.Approved)]
  {
    s1 := db.DeclineRequest(caller, id);
    s2 := db.AcceptRequest(caller, id);
  }

  /** A caller without a membership in the department is refused with 403 and
      no request or photo row is added. */
  method NonMemberCannotFile(db: Database, caller: UserId, department: DeptId, title: string, paths: seq<string>)
    returns (status: Status)
    requires db.Valid() && department in db.departments && ValidName(title) && (caller, department) !in db.members
    modifies db
    ensures status == Forbidden
    ensures db.tickets == old(db.tickets) && db.photos == old(db.photos)
  {
    var id;
    status, id := db.StoreMaintenanceRequest(caller, department, title, None, "new", paths);
  }

  /** Once a department has an admin, assigning another one is refused with
      409, for any user, and the first admin stays. */
  method SecondAdminConflict(db: Database, caller: UserId, department: DeptId, first: UserId, second: UserId)
    returns (s1: Status, s2: Status)
    requires db.Valid() && 0 < department && 0 < first && 0 < second
    modifies db
    ensures s1 == Ok ==> s2 == Conflict && department in db.departments && db.departments[department].admin == Some(first)
  {
    s1 := db.AssignAdmins(caller, Some(department), Some(first));
    s2 := db.AssignAdmins(caller, Some(department), Some(second));
  }

  /** Deleting one of two owned organizations demotes the owner to "user", so
      the owner can no longer list the organization they still own. */
  method DestroyDemotes(db: Database, caller: UserId) returns (status: Status, kept: OrgId, mine: Reply<seq<OrgId>>)
    requires db.Valid() && caller in db.users
    modifies db
    ensures status == Ok
    ensures kept in db.organizations && db.organizations[kept].owner == caller
    ensures mine == Failure(Forbidden)
  {
    ValidNameCases("ast", 'e', "", "");
    ValidNameCases("est", 'w', "", "");
    assert "east" == ['e'] + "ast" && "west" == ['w'] + "est";
    var s, a := db.StoreOrganization(caller, "east", None, None);
    s, kept := db.StoreOrganization(caller, "west", None, None);
    status := db.DestroyOrganization(caller, a);
    mine := GetMyOrganization(db.users, db.organizations, caller);
  }

  /** Setting the same status twice leaves the store as the first call left it. */
  method UpdateStatusIdempotent(db: Database, ticket: TicketId, newStatus: string)
    returns (s1: Status, s2: Status)
    requires db.Valid()
    modifies db
    ensures s1 == s2
    ensures s1 == Ok ==>
      && ticket in old(db.tickets) && ParseStatus(Trim(newStatus)).Some?
      && db.tickets == old(db.tickets)[ticket := old(db.tickets)[ticket].(status := ParseStatus(Trim(newStatus)).value)]
    ensures s1 != Ok ==> db.tickets == old(db.tickets)
  {
    s1 := db.UpdateStatus(ticket, newStatus);
    ghost var once := db.tickets;
    s2 := db.UpdateStatus(ticket, newStatus);
    assert s2 == Ok ==> db.tickets == once;
  }

  /** Adding the same membership twice leaves the set as the first call left it. */
  method AssignUserIdempotent(db: Database, user: UserId, department: DeptId) returns (s1: Status, s2: Status)
    requires db.Valid()
    modifies db
    ensures s1 == s2
    ensures db.members == if s1 == Ok then old(db.members) + {(user, department)} else old(db.members)
  {
    s1 := db.AssignUserToDepartment(Some(user), Some(department));
    s2 := db.AssignUserToDepartment(Some(user), Some(department));
  }
}
