/** The rows of the relational store the controllers read and write. Every
    table is keyed by an auto-incremented natural id; a nullable foreign key
    is an `Option`. */
module Schema {
  import opened Common

  type UserId = nat
  type OrgId = nat
  type DeptId = nat
  type JoinId = nat
  type TicketId = nat
  type PhotoId = nat

  /** A row of `users`. The role is the raw string held in the column: the
      controllers and the policy compare it against literal strings. */
  datatype User = User(name: string, role: string)

  /** The four roles a user may register with. */
  datatype Role = UserRole | OwnerRole | DeptAdminRole | MaintenanceRole

  /** The string stored in `users.role` for each registered role. */
  function RoleName(r: Role): string {
    match r
    case UserRole => "user"
    case OwnerRole => "owner"
    case DeptAdminRole => "dept_admin"
    case MaintenanceRole => "maintenance"
  }

  /** Registration validation: the role field must be one of the four names. */
  function ParseRole(s: string): (r: Option<Role>)
    ensures r.Some? ==> RoleName(r.value) == s
    ensures r.None? ==> forall x :: RoleName(x) != s
  {
    if s == "user" then Some(UserRole)
    else if s == "owner" then Some(OwnerRole)
    else if s == "dept_admin" then Some(DeptAdminRole)
    else if s == "maintenance" then Some(MaintenanceRole)
    else None
  }

  predicate IsRegisteredRole(s: string) {
    ParseRole(s).Some?
  }

  /** A character the request-trimming middleware strips from either end of
      a string field: the whitespace class `\s` of a Unicode regular
      expression, NUL, and U+FEFF, U+200B and U+200E. */
  predicate Trimmed(c: char) {
    c == ' ' || c == '\0' || ('\t' <= c <= '\r') || c == '\U{0085}' || c == '\U{00A0}'
    || c == '\U{1680}' || c == '\U{180E}' || ('\U{2000}' <= c <= '\U{200B}') || c == '\U{200E}'
    || c == '\U{2028}' || c == '\U{2029}' || c == '\U{202F}' || c == '\U{205F}'
    || c == '\U{3000}' || c == '\U{FEFF}'
  }

  /** Nothing is left of `s` once it is trimmed. */
  predicate Blank(s: string) {
    forall i :: 0 <= i < |s| ==> Trimmed(s[i])
  }

  /** `s` without its leading trimmed characters. */
  function TrimStart(s: string): (r: string)
    ensures |r| <= |s|
  {
    if s != [] && Trimmed(s[0]) then TrimStart(s[1..]) else s
  }

  /** `s` without its trailing trimmed characters. */
  function TrimEnd(s: string): (r: string)
    ensures |r| <= |s|
  {
    if s != [] && Trimmed(s[|s| - 1]) then TrimEnd(s[..|s| - 1]) else s
  }

  /** `TrimStart` drops a prefix of trimmed characters and stops at the first
      other one. */
  lemma {:induction false} TrimStartDrops(s: string)
    ensures TrimStart(s) == s[|s| - |TrimStart(s)|..]
    ensures forall i :: 0 <= i < |s| - |TrimStart(s)| ==> Trimmed(s[i])
    ensures TrimStart(s) == [] || !Trimmed(TrimStart(s)[0])
  {
    if s != [] && Trimmed(s[0]) {
      TrimStartDrops(s[1..]);
    }
  }

  /** `TrimEnd` drops a suffix of trimmed characters and stops at the last
      other one. */
  lemma {:induction false} TrimEndDrops(s: string)
    ensures TrimEnd(s) == s[..|TrimEnd(s)|]
    ensures forall i :: |TrimEnd(s)| <= i < |s| ==> Trimmed(s[i])
    ensures TrimEnd(s) == [] || !Trimmed(TrimEnd(s)[|TrimEnd(s)| - 1])
  {
    if s != [] && Trimmed(s[|s| - 1]) {
      TrimEndDrops(s[..|s| - 1]);
    }
  }

  /** The value the controller sees for a string field: `s` trimmed at both
      ends. */
  function Trim(s: string): string {
    TrimEnd(TrimStart(s))
  }

  /** `Trim` keeps one contiguous slice of `s`, drops only trimmed
      characters, and leaves no trimmed character at either end; it is empty
      exactly when `s` is blank. */
  lemma TrimSlice(s: string)
    ensures exists i, j :: (0 <= i <= j <= |s| && Trim(s) == s[i..j]
      && (forall k :: 0 <= k < i || j <= k < |s| ==> Trimmed(s[k])))
    ensures Trim(s) == [] || (!Trimmed(Trim(s)[0]) && !Trimmed(Trim(s)[|Trim(s)| - 1]))
    ensures Trim(s) == [] <==> Blank(s)
  {
    var t := TrimStart(s);
    TrimStartDrops(s);
    TrimEndDrops(t);
    var i := |s| - |t|;
    var j := i + |Trim(s)|;
    assert Trim(s) == s[i..j];
    assert forall k :: i <= k < |s| ==> s[k] == t[k - i];
    assert forall k :: 0 <= k < i || j <= k < |s| ==> Trimmed(s[k]);
    if Trim(s) != [] {
      assert Trim(s)[0] == t[0];
      assert Trim(s)[0] == s[i];
      assert !Blank(s);
    }
  }

  /** The string field after the middleware that turns an empty string into
      null: absent when nothing is left after trimming. */
  function Field(s: string): (r: Option<string>)
    ensures r.None? <==> Blank(s)
    ensures r.Some? ==> r.value == Trim(s) && r.value != []
  {
    TrimSlice(s);
    if Trim(s) == [] then None else Some(Trim(s))
  }

  /** A nullable string field after both middlewares: null, or a string that
      trims to nothing, arrives as null. */
  function Nullable(d: Option<string>): (r: Option<string>)
    ensures d.None? ==> r.None?
    ensures d.Some? ==> r == Field(d.value)
  {
    if d.Some? then Field(d.value) else None
  }

  /** The `required|string|max:255` rule on a name or title, applied to the
      trimmed value. */
  predicate ValidName(s: string) {
    Trim(s) != [] && |Trim(s)| <= 255
  }

  /** Blank strings (the empty string and U+00A0 among them) fail the rule,
      as does a string whose trimmed value is too long; blanks around a name
      never change the verdict; a string with a visible first character
      within the bound passes. */
  lemma ValidNameCases(s: string, c: char, p: string, q: string)
    ensures !ValidName("") && !ValidName("\U{00A0}")
    ensures Blank(s) ==> !ValidName(s)
    ensures |Trim(s)| > 255 ==> !ValidName(s)
    ensures Blank(p) && Blank(q) ==> ValidName(p + s + q) == ValidName(s)
    ensures !Trimmed(c) && |s| < 255 ==> ValidName([c] + s)
  {
    TrimSlice(s);
    TrimSlice("\U{00A0}");
    if Blank(p) && Blank(q) {
      TrimAround(p, s, q);
    }
    if !Trimmed(c) {
      assert ([c] + s)[0] == c;
      TrimSlice([c] + s);
    }
  }

  /** Blanks before and after a string do not change its trimmed value. */
  lemma TrimAround(p: string, s: string, q: string)
    requires Blank(p) && Blank(q)
    ensures Trim(p + s + q) == Trim(s)
  {
    assert p + s + q == p + (s + q);
    TrimStartPast(p, s + q);
    TrimBeforeBlanks(s, q);
  }

  /** `TrimStart` skips a blank prefix. */
  lemma {:induction false} TrimStartPast(p: string, s: string)
    requires Blank(p)
    ensures TrimStart(p + s) == TrimStart(s)
  {
    if p == [] {
      assert p + s == s;
    } else {
      assert (p + s)[0] == p[0];
      assert (p + s)[1..] == p[1..] + s;
      TrimStartPast(p[1..], s);
    }
  }

  /** `TrimEnd` skips a blank suffix. */
  lemma {:induction false} TrimEndPast(s: string, q: string)
    requires Blank(q)
    ensures TrimEnd(s + q) == TrimEnd(s)
  {
    if q == [] {
      assert s + q == s;
    } else {
      var n := |q| - 1;
      assert (s + q)[|s + q| - 1] == q[n];
      assert (s + q)[..|s + q| - 1] == s + q[..n];
      TrimEndPast(s, q[..n]);
    }
  }

  /** Trimming `s` followed by blanks is trimming `s`. */
  lemma {:induction false} TrimBeforeBlanks(s: string, q: string)
    requires Blank(q)
    ensures Trim(s + q) == Trim(s)
  {
    if s == [] {
      assert s + q == q;
      TrimStartDrops(q);
      assert TrimStart(q) == [];
    } else if Trimmed(s[0]) {
      assert (s + q)[0] == s[0];
      assert (s + q)[1..] == s[1..] + q;
      TrimBeforeBlanks(s[1..], q);
    } else {
      assert (s + q)[0] == s[0];
      assert TrimStart(s + q) == s + q;
      TrimEndPast(s, q);
    }
  }

  datatype Organization = Organization(name: string, description: Option<string>, url: Option<string>, owner: UserId)

  datatype Department = Department(name: string, description: Option<string>, organization: OrgId, admin: Option<UserId>)

  datatype JoinStatus = Pending | Approved | Declined

  /** A row of `organization_user_requests`; `createdAt` is the abstract
      creation timestamp the owner's listing sorts on. */
  datatype JoinRequest = JoinRequest(user: UserId, organization: OrgId, status: JoinStatus, createdAt: nat)

  /** The six values the `status` column of a maintenance request accepts.
      `Rejected` and `Waiting` are stored as "declined" and "pending"; they are
      named apart from the join-request statuses of the same spelling. */
  datatype TicketStatus = New | Rejected | Waiting | InProgress | Done | Trashed

  function StatusName(s: TicketStatus): string {
    match s
    case New => "new"
    case Rejected => "declined"
    case Waiting => "pending"
    case InProgress => "in-progress"
    case Done => "done"
    case Trashed => "trashed"
  }

  /** The `in:new,declined,pending,in-progress,done,trashed` validation rule. */
  function ParseStatus(s: string): (r: Option<TicketStatus>)
    ensures r.Some? ==> StatusName(r.value) == s
    ensures r.None? ==> forall t :: StatusName(t) != s
  {
    if s == "new" then Some(New)
    else if s == "declined" then Some(Rejected)
    else if s == "pending" then Some(Waiting)
    else if s == "in-progress" then Some(InProgress)
    else if s == "done" then Some(Done)
    else if s == "trashed" then Some(Trashed)
    else None
  }

  lemma StatusNameRoundTrip(t: TicketStatus)
    ensures ParseStatus(StatusName(t)) == Some(t)
  {
  }

  /** A row of `maintenance_requests`: its creator, department, assignee. */
  datatype MaintenanceRequest = MaintenanceRequest(
    user: UserId, department: DeptId, assignedTo: Option<UserId>,
    title: string, description: Option<string>, status: TicketStatus)

  /** A row of `photos`, linked to one maintenance request. */
  datatype Photo = Photo(request: TicketId, url: string)

  /** `caller` is the owner of the existing organization `org`. */
  predicate Owns(organizations: map<OrgId, Organization>, org: OrgId, caller: UserId) {
    org in organizations && organizations[org].owner == caller
  }

  /** The department of `t` exists and has `uid` as its admin. */
  predicate AdministersDepartmentOf(departments: map<DeptId, Department>, t: MaintenanceRequest, uid: UserId) {
    t.department in departments && departments[t.department].admin == Some(uid)
  }
}
