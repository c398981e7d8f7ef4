/** Read-only queries over `organizations`. */
module Organizations {
  import opened Common
  import opened Schema

  /** Every organization, unfiltered, for any caller. */
  function GetAllOrganizations(organizations: map<OrgId, Organization>): (r: seq<OrgId>)
    ensures Increasing(r)
    ensures forall id :: id in r <==> id in organizations
  {
    KeysWhere(organizations, (o: Organization) => true)
  }

  /** The organizations the caller owns; refused unless the caller's stored
      role is "owner". An owner may own several organizations, or none. */
  function GetMyOrganization(users: map<UserId, User>, organizations: map<OrgId, Organization>, caller: UserId): (r: Reply<seq<OrgId>>)
    ensures r.Success? <==> caller in users && users[caller].role == RoleName(OwnerRole)
    ensures r.Failure? ==> r.status == Forbidden
    ensures r.Success? ==> Increasing(r.body) && forall id :: id in r.body <==> Owns(organizations, id, caller)
  {
    if caller !in users || users[caller].role != "owner" then Failure(Forbidden)
    else Success(KeysWhere(organizations, (o: Organization) => o.owner == caller))
  }
}
