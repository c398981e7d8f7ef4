/** Read-only queries over `organization_user_requests`, and the facts about
    that table that the join-request actions keep. */
module OrganizationUserRequests {
  import opened Common
  import opened Schema

  /** Some request, of any status, exists for the pair (user, org). */
  predicate HasRequest(reqs: map<JoinId, JoinRequest>, user: UserId, org: OrgId) {
    exists id :: id in reqs && reqs[id].user == user && reqs[id].organization == org
  }

  /** At most one request per (user, organization) pair. */
  ghost predicate OnePerPair(reqs: map<JoinId, JoinRequest>) {
    forall i, j :: i in reqs && j in reqs && i != j ==>
      reqs[i].user != reqs[j].user || reqs[i].organization != reqs[j].organization
  }

  /** Adding a request for a pair that has none keeps one request per pair. */
  lemma AddKeepsOnePerPair(reqs: map<JoinId, JoinRequest>, id: JoinId, r: JoinRequest)
    requires OnePerPair(reqs) && id !in reqs && !HasRequest(reqs, r.user, r.organization)
    ensures OnePerPair(reqs[id := r])
  {
  }

  /** Rows listed newest first: a later position never has a later `createdAt`. */
  ghost predicate NewestFirstOrder(reqs: map<JoinId, JoinRequest>, s: seq<JoinId>) {
    forall i, j :: 0 <= i < j < |s| && s[i] in reqs && s[j] in reqs ==>
      reqs[s[i]].createdAt >= reqs[s[j]].createdAt
  }

  /** The newest row of a listing may go in front of it. */
  lemma PrependNewest(reqs: map<JoinId, JoinRequest>, x: JoinId, s: seq<JoinId>)
    requires x in reqs && x !in s && Distinct(s) && NewestFirstOrder(reqs, s)
    requires forall j :: 0 <= j < |s| && s[j] in reqs ==> reqs[x].createdAt >= reqs[s[j]].createdAt
    ensures Distinct([x] + s) && NewestFirstOrder(reqs, [x] + s)
  {
  }

  function InsertNewest(reqs: map<JoinId, JoinRequest>, id: JoinId, s: seq<JoinId>): (r: seq<JoinId>)
    requires id in reqs && forall x :: x in s ==> x in reqs
    requires id !in s && Distinct(s) && NewestFirstOrder(reqs, s)
    ensures |r| == |s| + 1 && forall x :: x in r <==> x == id || x in s
    ensures Distinct(r) && NewestFirstOrder(reqs, r)
  {
    if s == [] || reqs[id].createdAt >= reqs[s[0]].createdAt then
      PrependNewest(reqs, id, s);
      [id] + s
    else
      var tail := s[1..];
      assert s == [s[0]] + tail;
      var rest := InsertNewest(reqs, id, tail);
      forall j | 0 <= j < |rest| && rest[j] in reqs
        ensures reqs[s[0]].createdAt >= reqs[rest[j]].createdAt
      {
        if rest[j] != id {
          assert rest[j] in rest;
          assert rest[j] in tail;
          var k :| 0 <= k < |tail| && tail[k] == rest[j];
          assert s[k + 1] == rest[j];
        }
      }
      PrependNewest(reqs, s[0], rest);
      [s[0]] + rest
  }

  /** The `orderBy('created_at', 'desc')` of a query: the same distinct rows,
      newest first. */
  function NewestFirst(reqs: map<JoinId, JoinRequest>, ids: seq<JoinId>): (r: seq<JoinId>)
    requires (forall x :: x in ids ==> x in reqs) && Distinct(ids)
    ensures |r| == |ids| && forall x :: x in r <==> x in ids
    ensures Distinct(r) && NewestFirstOrder(reqs, r)
  {
    if ids == [] then []
    else
      assert forall x :: x in ids[1..] ==> x in ids;
      InsertNewest(reqs, ids[0], NewestFirst(reqs, ids[1..]))
  }

  /** The caller's own requests, of every status. */
  function ShowAllMyRequests(reqs: map<JoinId, JoinRequest>, caller: UserId): (r: seq<JoinId>)
    ensures Distinct(r)
    ensures forall id :: id in r <==> id in reqs && reqs[id].user == caller
  {
    KeysWhere(reqs, (q: JoinRequest) => q.user == caller)
  }

  /** The owner's view of the pending requests to join an organization. */
  function RequestsForOrganization(
    organizations: map<OrgId, Organization>, reqs: map<JoinId, JoinRequest>,
    caller: UserId, org: OrgId): (r: Reply<seq<JoinId>>)
    ensures org !in organizations ==> r == Failure(NotFound)
    ensures org in organizations && !Owns(organizations, org, caller) ==> r == Failure(Forbidden)
    ensures r.Success? <==> Owns(organizations, org, caller)
    ensures r.Success? ==>
      && Distinct(r.body)
      && NewestFirstOrder(reqs, r.body)
      && forall id :: id in r.body <==>
           id in reqs && reqs[id].organization == org && reqs[id].status == JoinStatus.Pending
  {
    if org !in organizations then Failure(NotFound)
    else if organizations[org].owner != caller then Failure(Forbidden)
    else
      var pending := KeysWhere(reqs, (q: JoinRequest) => q.organization == org && q.status == JoinStatus.Pending);
      Success(NewestFirst(reqs, pending))
  }

  /** The approved requests to an organization, newest first. Anyone may ask,
      and an organization that does not exist simply has none. */
  function UsersOfOrganization(reqs: map<JoinId, JoinRequest>, org: OrgId): (r: seq<JoinId>)
    ensures Distinct(r) && NewestFirstOrder(reqs, r)
    ensures forall id :: id in r <==>
      id in reqs && reqs[id].organization == org && reqs[id].status == JoinStatus.Approved
  {
    NewestFirst(reqs, KeysWhere(reqs, (q: JoinRequest) => q.organization == org && q.status == JoinStatus.Approved))
  }
}
