/** The authorization policy for maintenance requests: two pure predicates
    over the user and the request, keyed on the user's role string. */
module MaintenanceRequestPolicy {
  import opened Common
  import opened Schema

  /** May `user` (whose id is `uid`) see the request `t`? Only the three role
      strings the policy names are ever granted, and only for a request the
      user created, administers the department of, or is assigned. */
  predicate View(uid: UserId, user: User, t: MaintenanceRequest, departments: map<DeptId, Department>)
    ensures View(uid, user, t, departments) ==> user.role in {"User", "Department Admin", "Maintenance"}
    ensures View(uid, user, t, departments) ==>
      t.user == uid || AdministersDepartmentOf(departments, t, uid) || t.assignedTo == Some(uid)
  {
    if user.role == "User" then t.user == uid
    else if user.role == "Department Admin" then AdministersDepartmentOf(departments, t, uid)
    else if user.role == "Maintenance" then t.assignedTo == Some(uid)
    else false
  }

  /** May `user` assign or change the status of the request `t`? Only a
      department admin or a maintenance worker, and never the creator as such. */
  predicate Update(uid: UserId, user: User, t: MaintenanceRequest, departments: map<DeptId, Department>)
    ensures Update(uid, user, t, departments) ==> user.role in {"Department Admin", "Maintenance"}
    ensures Update(uid, user, t, departments) ==> AdministersDepartmentOf(departments, t, uid) || t.assignedTo == Some(uid)
  {
    if user.role == "Department Admin" then AdministersDepartmentOf(departments, t, uid)
    else if user.role == "Maintenance" then t.assignedTo == Some(uid)
    else false
  }

  /** What each role string is granted, and that no other string is granted anything. */
  lemma PolicyByRole(uid: UserId, user: User, t: MaintenanceRequest, departments: map<DeptId, Department>)
    ensures user.role == "User" ==> (View(uid, user, t, departments) <==> t.user == uid)
    ensures user.role == "User" ==> !Update(uid, user, t, departments)
    ensures user.role == "Department Admin" ==>
      (View(uid, user, t, departments) <==> AdministersDepartmentOf(departments, t, uid)) &&
      (Update(uid, user, t, departments) <==> AdministersDepartmentOf(departments, t, uid))
    ensures user.role == "Maintenance" ==>
      (View(uid, user, t, departments) <==> t.assignedTo == Some(uid)) &&
      (Update(uid, user, t, departments) <==> t.assignedTo == Some(uid))
    ensures user.role !in {"User", "Department Admin", "Maintenance"} ==>
      !View(uid, user, t, departments) && !Update(uid, user, t, departments)
  {
  }

  /** Whoever may update a request may also see it. */
  lemma UpdateImpliesView(uid: UserId, user: User, t: MaintenanceRequest, departments: map<DeptId, Department>)
    ensures Update(uid, user, t, departments) ==> View(uid, user, t, departments)
  {
  }

  /** The policy spells roles "User", "Department Admin" and "Maintenance", but
      the store only ever holds the registration names "user", "owner",
      "dept_admin" and "maintenance": for a stored role neither predicate holds. */
  lemma PolicyDeniesRegisteredRoles(uid: UserId, user: User, t: MaintenanceRequest, departments: map<DeptId, Department>)
    requires IsRegisteredRole(user.role)
    ensures !View(uid, user, t, departments) && !Update(uid, user, t, departments)
  {
  }

  /** The policy over the registered roles: the same rules, matched on the
      role the user registered with rather than on a differently spelled string.
      An owner, like every role the policy does not name, is granted nothing. */
  predicate CanView(uid: UserId, role: Role, t: MaintenanceRequest, departments: map<DeptId, Department>) {
    match role
    case UserRole => t.user == uid
    case DeptAdminRole => AdministersDepartmentOf(departments, t, uid)
    case MaintenanceRole => t.assignedTo == Some(uid)
    case OwnerRole => false
  }

  predicate CanUpdate(uid: UserId, role: Role, t: MaintenanceRequest, departments: map<DeptId, Department>) {
    match role
    case DeptAdminRole => AdministersDepartmentOf(departments, t, uid)
    case MaintenanceRole => t.assignedTo == Some(uid)
    case UserRole => false
    case OwnerRole => false
  }

  /** The string the policy expects for each registered role. */
  function PolicySpelling(r: Role): string {
    match r
    case UserRole => "User"
    case DeptAdminRole => "Department Admin"
    case MaintenanceRole => "Maintenance"
    case OwnerRole => RoleName(OwnerRole)
  }

  /** The corrected policy grants a stored role exactly what the written policy
      grants its own spelling of that role, and update still implies view. */
  lemma CorrectedPolicyAgrees(uid: UserId, name: string, r: Role, t: MaintenanceRequest, departments: map<DeptId, Department>)
    ensures CanView(uid, r, t, departments) == View(uid, User(name, PolicySpelling(r)), t, departments)
    ensures CanUpdate(uid, r, t, departments) == Update(uid, User(name, PolicySpelling(r)), t, departments)
    ensures CanUpdate(uid, r, t, departments) ==> CanView(uid, r, t, departments)
  {
  }

  /** Under the corrected policy a user registered as "user" sees exactly the
      requests they created, and a registered maintenance worker exactly the
      requests assigned to them. */
  lemma CorrectedPolicyGrantsRegisteredRoles(uid: UserId, user: User, t: MaintenanceRequest, departments: map<DeptId, Department>)
    requires IsRegisteredRole(user.role)
    ensures user.role == "user" ==> (CanView(uid, ParseRole(user.role).value, t, departments) <==> t.user == uid)
    ensures user.role == "maintenance" ==>
      (CanView(uid, ParseRole(user.role).value, t, departments) <==> t.assignedTo == Some(uid))
    ensures user.role == "dept_admin" ==>
      (CanUpdate(uid, ParseRole(user.role).value, t, departments) <==> AdministersDepartmentOf(departments, t, uid))
  {
  }
}
