/**
  The two authentication callbacks: first-login provisioning of a user row on
  sign-in, and the enrichment of the session with the stored user's key, role,
  department and active flag.
 */
module Auth {
  import opened Common
  import opened Db

  // ---------------------------------------------------------------------------
  // Sign-in

  /** What the identity provider reports about the signing-in user. */
  datatype Profile = Profile(email: string, name: Option<string>, image: Option<string>)

  /** `user.findUnique({ where: { email } })`. */
  function UserByEmail(users: seq<User>, email: string): (r: Option<nat>)
    ensures r.Some? <==> exists k :: 0 <= k < |users| && users[k].email == email
    ensures r.Some? ==> r.value < |users| && users[r.value].email == email
  {
    FirstIndex(users, (u: User) => u.email == email)
  }

  /** `user.name || 'Unknown'`: a missing or empty name becomes `Unknown`. */
  function ProvisionedName(name: Option<string>): (r: string)
    ensures r != ""
    ensures name.Some? && name.value != "" ==> r == name.value
  {
    if name.Some? && name.value != "" then name.value else "Unknown"
  }

  /** The row created on a first sign-in: read-only, active, in no department. */
  function NewUser(id: Id, p: Profile): (u: User)
    ensures u.id == id && u.email == p.email && u.image == p.image
    ensures u.role == READONLY && u.departmentId.None? && u.isActive
  {
    User(id, p.email, ProvisionedName(p.name), READONLY, None, true, p.image)
  }

  /** The users table keeps its keys and e-mails unique once a user with a new
      e-mail and the next key is appended. */
  lemma InsertUserKeepsUsersOk(t: seq<User>, next: nat, u: User)
    requires UsersOk(t, next) && u.id == next && UserByEmail(t, u.email).None?
    ensures UsersOk(t + [u], next + 1)
  {
    var t' := t + [u];
    forall i, j | 0 <= i < j < |t'| ensures t'[i].id < t'[j].id && t'[i].email != t'[j].email {
      if j == |t| {
        assert t'[i] == t[i];
      }
    }
  }

  /** `signIn`: an unknown e-mail gets a new row, a known one changes nothing;
      the sign-in is always allowed. */
  method SignIn(db: Database, p: Profile) returns (allowed: bool)
    requires db.Valid()
    modifies db
    ensures db.Valid()
    ensures allowed
    ensures UserByEmail(old(db.users), p.email).Some? ==> unchanged(db)
    ensures UserByEmail(old(db.users), p.email).None? ==>
              && db.users == old(db.users) + [NewUser(old(db.nextId), p)]
              && db.nextId == old(db.nextId) + 1
    ensures UserByEmail(db.users, p.email).Some?
    ensures db.departments == old(db.departments) && db.projects == old(db.projects) && db.logs == old(db.logs)
    ensures db.milestones == old(db.milestones) && db.documents == old(db.documents) && db.compliance == old(db.compliance)
  {
    var existing := UserByEmail(db.users, p.email);
    if existing.None? {
      var u := NewUser(db.nextId, p);
      InsertUserKeepsUsersOk(db.users, db.nextId, u);
      NewUserFound(db.users, db.nextId, p);
      db.users := db.users + [u];
      db.nextId := db.nextId + 1;
    }
    allowed := true;
  }

  /** After a first sign-in the new row is the one the e-mail finds. */
  lemma NewUserFound(t: seq<User>, next: nat, p: Profile)
    requires UserByEmail(t, p.email).None?
    ensures UserByEmail(t + [NewUser(next, p)], p.email) == Some(|t|)
  {
    var t' := t + [NewUser(next, p)];
    assert t'[|t|].email == p.email;
  }

  /** With unique e-mails, the e-mail of a row finds exactly that row. */
  lemma EmailIdentifiesUser(t: seq<User>, next: nat, j: nat)
    requires UsersOk(t, next) && j < |t|
    ensures UserByEmail(t, t[j].email) == Some(j)
  {
  }

  // ---------------------------------------------------------------------------
  // Session enrichment

  /** The `session.user` object: what next-auth fills in, and the fields the
      callback adds (`None` until it adds them). */
  datatype SessionRecord = SessionRecord(
    name: Option<string>,
    email: Option<string>,
    image: Option<string>,
    id: Option<Id>,
    role: Option<Role>,
    departmentId: Option<Id>,
    department: Option<Department>,
    isActive: Option<bool>)

  /** The session object the callback receives and returns; `user` is `None`
      when the session carries no user. */
  class AuthSession {
    var user: Option<SessionRecord>

    constructor (user: Option<SessionRecord>)
      ensures this.user == user
    {
      this.user := user;
    }
  }

  /** `include: { department: true }`: the department row of a key, or null. */
  function DepartmentOf(departments: seq<Department>, id: Option<Id>): (r: Option<Department>)
    ensures r.Some? ==> id.Some? && r.value in departments && r.value.id == id.value
    ensures id.Some? && HasDepartment(departments, id.value) ==> r.Some?
  {
    if id.None? then None
    else match FirstIndex(departments, (d: Department) => d.id == id.value)
      case Some(k) => Some(departments[k])
      case None => None
  }

  /** The record with the five fields copied from the stored user; what
      next-auth filled in stays. */
  function Enriched(rec: SessionRecord, u: User, dept: Option<Department>): (r: SessionRecord)
    ensures r.name == rec.name && r.email == rec.email && r.image == rec.image
    ensures r.id == Some(u.id) && r.role == Some(u.role) && r.departmentId == u.departmentId
    ensures r.department == dept && r.isActive == Some(u.isActive)
  {
    rec.(id := Some(u.id), role := Some(u.role), departmentId := u.departmentId,
         department := dept, isActive := Some(u.isActive))
  }

  /** `session`: when the session has a user and the e-mail finds a stored
      user, the five fields are written from that row; otherwise the session
      is returned as it came. */
  method SessionCallback(s: AuthSession, db: Database, email: string)
    modifies s
    ensures old(s.user).None? || UserByEmail(db.users, email).None? ==> s.user == old(s.user)
    ensures old(s.user).Some? && UserByEmail(db.users, email).Some? ==>
              var u := db.users[UserByEmail(db.users, email).value];
              s.user == Some(Enriched(old(s.user).value, u, DepartmentOf(db.departments, u.departmentId)))
  {
    if s.user.Some? {
      var found := UserByEmail(db.users, email);
      if found.Some? {
        var u := db.users[found.value];
        var rec := s.user.value;
        rec := rec.(id := Some(u.id));
        rec := rec.(role := Some(u.role));
        rec := rec.(departmentId := u.departmentId);
        rec := rec.(department := DepartmentOf(db.departments, u.departmentId));
        rec := rec.(isActive := Some(u.isActive));
        s.user := Some(rec);
      }
    }
  }

  /** The user the request handlers act for: the key, role and department the
      session callback copied from the stored user. A record the callback left
      without them, because no stored user has its e-mail, is taken as no user. */
  function Authorised(rec: Option<SessionRecord>): (r: Session)
    ensures r.Some? <==> rec.Some? && rec.value.id.Some? && rec.value.role.Some?
    ensures r.Some? ==> r.value.id == rec.value.id.value && r.value.role == rec.value.role.value
                        && r.value.departmentId == rec.value.departmentId
  {
    if rec.Some? && rec.value.id.Some? && rec.value.role.Some? then
      Some(SessionUser(rec.value.id.value, rec.value.role.value, rec.value.departmentId))
    else None
  }

  /** Enriching twice is enriching once. */
  lemma EnrichIdempotent(rec: SessionRecord, u: User, dept: Option<Department>)
    ensures Enriched(Enriched(rec, u, dept), u, dept) == Enriched(rec, u, dept)
  {
  }

  /** An enriched session authorises as the stored user, with the stored role
      and department, whatever the record held before. */
  lemma EnrichedSessionIsStoredUser(rec: SessionRecord, u: User, dept: Option<Department>)
    ensures Authorised(Some(Enriched(rec, u, dept))) == Some(SessionUser(u.id, u.role, u.departmentId))
  {
  }

  /** A first sign-in followed by the session callback gives a read-only,
      active session in no department, keyed by the new row. */
  lemma FirstSessionIsReadOnly(users: seq<User>, departments: seq<Department>, next: nat, p: Profile, rec: SessionRecord)
    requires UserByEmail(users, p.email).None?
    ensures var after := users + [NewUser(next, p)];
            var k := UserByEmail(after, p.email);
            && k.Some?
            && var r := Enriched(rec, after[k.value], DepartmentOf(departments, after[k.value].departmentId));
            && Authorised(Some(r)) == Some(SessionUser(next, READONLY, None))
            && r.isActive == Some(true)
            && r.department.None?
  {
    NewUserFound(users, next, p);
  }
}
