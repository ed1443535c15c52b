/**
  `/api/users`: the user list, scoped by role, and the administrator's partial
  update of one user's role, department and active flag.
 */
module UsersRoute {
  import opened Common
  import opened Rbac
  import opened Db

  // ---------------------------------------------------------------------------
  // GET

  /** The list parameters; `None` when absent or empty. */
  datatype UserQuery = UserQuery(departmentId: Option<Id>, role: Option<Role>)

  datatype UserWhere = UserWhere(departmentId: Option<Id>, role: Option<Role>)

  /** The successive writes into `where`: a department lead's own department,
      then the caller's `department_id`, which replaces it, then `role`. */
  method BuildUserWhere(u: SessionUser, q: UserQuery) returns (w: UserWhere)
    ensures w.departmentId == (if q.departmentId.Some? then q.departmentId
                               else if u.role == DEPT_LEAD then u.departmentId
                               else None)
    ensures w.role == q.role
  {
    w := UserWhere(None, None);
    if u.role == DEPT_LEAD && u.departmentId.Some? {
      w := w.(departmentId := u.departmentId);
    }
    if q.departmentId.Some? {
      w := w.(departmentId := q.departmentId);
    }
    if q.role.Some? {
      w := w.(role := q.role);
    }
  }

  predicate UserMatches(x: User, w: UserWhere) {
    && (w.departmentId.None? || x.departmentId == w.departmentId)
    && (w.role.None? || x.role == w.role.value)
  }

  function ListedUsers(users: seq<User>, w: UserWhere): seq<User> {
    Filter(users, (x: User) => UserMatches(x, w))
  }

  /** `GET /api/users`. */
  method ListUsers(db: Database, session: Session, q: UserQuery) returns (r: Response<seq<User>>)
    ensures !IsAdminOrDeptLead(session) ==> r == Failure(403, FORBIDDEN)
    ensures IsAdminOrDeptLead(session) ==> r.Success? && r.status == 200
    ensures IsAdminOrDeptLead(session) ==>
              forall x :: x in r.data <==> x in db.users && UserMatches(x, UserWhere(
                if q.departmentId.Some? then q.departmentId
                else if session.value.role == DEPT_LEAD then session.value.departmentId else None,
                q.role))
  {
    if !IsAdminOrDeptLead(session) {
      return Failure(403, FORBIDDEN);
    }
    var w := BuildUserWhere(session.value, q);
    r := Success(200, ListedUsers(db.users, w));
  }

  /** A department lead with a department who names none sees only that department's users. */
  lemma LeadSeesOwnDepartment(users: seq<User>, u: SessionUser, role: Option<Role>, x: User)
    requires u.role == DEPT_LEAD && u.departmentId.Some?
    requires x in ListedUsers(users, UserWhere(u.departmentId, role))
    ensures x.departmentId == u.departmentId
  {
  }

  /** An administrator without parameters sees every user, in table order. */
  lemma AdminSeesEveryone(users: seq<User>)
    ensures ListedUsers(users, UserWhere(None, None)) == users
  {
    FilterKeepsAll(users, (x: User) => UserMatches(x, UserWhere(None, None)));
  }

  lemma {:induction false} FilterKeepsAll<T>(s: seq<T>, keep: T -> bool)
    requires forall i :: 0 <= i < |s| ==> keep(s[i])
    ensures Filter(s, keep) == s
  {
    if s != [] {
      FilterKeepsAll(s[1..], keep);
    }
  }

  // ---------------------------------------------------------------------------
  // PATCH

  /** The request body. `userId` is `None` when missing or empty; `role` is
      `None` when missing or empty; `departmentId` is `None` when the key is
      missing and `Some(None)` when it is `null`; `isActive` is `None` when missing. */
  datatype PatchBody = PatchBody(
    userId: Option<Id>,
    role: Option<Role>,
    departmentId: Option<Option<Id>>,
    isActive: Option<bool>)

  /** The `updateData` record, one conditional write per field. */
  method BuildUserUpdate(body: PatchBody) returns (patch: UserPatch)
    ensures patch.role == body.role
    ensures patch.departmentId == body.departmentId
    ensures patch.isActive == body.isActive
  {
    patch := UserPatch(None, None, None);
    if body.role.Some? {
      patch := patch.(role := body.role);
    }
    if body.departmentId.Some? {
      patch := patch.(departmentId := body.departmentId);
    }
    if body.isActive.Some? {
      patch := patch.(isActive := body.isActive);
    }
  }

  /** `user.update({ data: updateData })` on one row: exactly the supplied fields change. */
  function ApplyPatch(x: User, patch: UserPatch): (y: User)
    ensures y.id == x.id && y.email == x.email && y.name == x.name && y.image == x.image
    ensures patch.role.None? ==> y.role == x.role
    ensures patch.role.Some? ==> y.role == patch.role.value
    ensures patch.departmentId.None? ==> y.departmentId == x.departmentId
    ensures patch.departmentId.Some? ==> y.departmentId == patch.departmentId.value
    ensures patch.isActive.None? ==> y.isActive == x.isActive
    ensures patch.isActive.Some? ==> y.isActive == patch.isActive.value
  {
    x.(role := patch.role.GetOr(x.role),
       departmentId := patch.departmentId.GetOr(x.departmentId),
       isActive := patch.isActive.GetOr(x.isActive))
  }

  /** An empty update changes nothing. */
  lemma EmptyPatchChangesNothing(x: User)
    ensures ApplyPatch(x, UserPatch(None, None, None)) == x
  {
  }

  /** Repeating an update changes nothing more. */
  lemma PatchIdempotent(x: User, patch: UserPatch)
    ensures ApplyPatch(ApplyPatch(x, patch), patch) == ApplyPatch(x, patch)
  {
  }

  /** Two updates in a row act as one whose supplied fields are those of the
      second, falling back to the first. */
  lemma PatchesCompose(x: User, p: UserPatch, q: UserPatch)
    ensures ApplyPatch(ApplyPatch(x, p), q)
            == ApplyPatch(x, UserPatch(
                 if q.role.Some? then q.role else p.role,
                 if q.departmentId.Some? then q.departmentId else p.departmentId,
                 if q.isActive.Some? then q.isActive else p.isActive))
  {
  }

  /** The row an update `where: { id }` addresses. */
  function UserIndex(users: seq<User>, id: Id): (r: Option<nat>)
    ensures r.Some? <==> HasUser(users, id)
    ensures r.Some? ==> r.value < |users| && users[r.value].id == id
  {
    FirstIndex(users, (x: User) => x.id == id)
  }

  /** The update is refused by the database: no such user, or a department
      key that names no department. */
  predicate UpdateFails(db: Database, id: Id, patch: UserPatch)
    reads db
  {
    || !HasUser(db.users, id)
    || (patch.departmentId.Some? && patch.departmentId.value.Some?
        && !HasDepartment(db.departments, patch.departmentId.value.value))
  }

  /** Replacing one user by an update of itself keeps keys and e-mails unique. */
  lemma PatchKeepsUsersOk(users: seq<User>, next: nat, k: nat, patch: UserPatch)
    requires UsersOk(users, next) && k < |users|
    ensures UsersOk(users[k := ApplyPatch(users[k], patch)], next)
  {
  }

  /** `PATCH /api/users`. */
  method PatchUser(db: Database, session: Session, body: PatchBody) returns (r: Response<User>)
    requires db.Valid()
    modifies db
    ensures db.Valid()
    ensures !IsAdmin(session) ==> r == Failure(403, FORBIDDEN)
    ensures IsAdmin(session) && body.userId.None? ==> r == Failure(400, VALIDATION_ERROR)
    ensures IsAdmin(session) && body.userId.Some?
            && old(UpdateFails(db, body.userId.value, UserPatch(body.role, body.departmentId, body.isActive))) ==>
              r == Failure(500, SERVER_ERROR)
    ensures r.Success? <==>
              IsAdmin(session) && body.userId.Some?
              && !old(UpdateFails(db, body.userId.value, UserPatch(body.role, body.departmentId, body.isActive)))
    ensures r.Failure? ==> unchanged(db)
    ensures r.Success? ==>
              var id := body.userId.value;
              var patch := UserPatch(body.role, body.departmentId, body.isActive);
              var k := UserIndex(old(db.users), id).value;
              && IsAdmin(session) && !old(UpdateFails(db, id, patch))
              && r == Success(200, ApplyPatch(old(db.users)[k], patch))
              && db.users == old(db.users)[k := ApplyPatch(old(db.users)[k], patch)]
              && db.logs == old(db.logs) + [LogEntry(old(db.nextId), session.value.id, "UPDATE_USER", "user", id, UserUpdate(patch))]
              && db.nextId == old(db.nextId) + 1
    ensures db.departments == old(db.departments) && db.projects == old(db.projects)
    ensures db.milestones == old(db.milestones) && db.documents == old(db.documents) && db.compliance == old(db.compliance)
  {
    if !IsAdmin(session) {
      return Failure(403, FORBIDDEN);
    }
    if body.userId.None? {
      return Failure(400, VALIDATION_ERROR);
    }
    var id := body.userId.value;
    var patch := BuildUserUpdate(body);
    if UpdateFails(db, id, patch) {
      return Failure(500, SERVER_ERROR);
    }
    var k := UserIndex(db.users, id).value;
    var updated := ApplyPatch(db.users[k], patch);
    PatchKeepsUsersOk(db.users, db.nextId, k, patch);
    db.users := db.users[k := updated];
    var _ := db.AppendLog(session.value.id, "UPDATE_USER", "user", id, UserUpdate(patch));
    r := Success(200, updated);
  }

  /** After a successful update the row with that key carries every supplied
      field, and every other row is as it was. */
  lemma UpdatedRowCarriesPatch(before: seq<User>, id: Id, patch: UserPatch, j: nat)
    requires HasUser(before, id) && j < |before|
    ensures var k := UserIndex(before, id).value;
            var after := before[k := ApplyPatch(before[k], patch)];
            && (j != k ==> after[j] == before[j])
            && (patch.role.Some? ==> after[k].role == patch.role.value)
            && (patch.departmentId.Some? ==> after[k].departmentId == patch.departmentId.value)
            && (patch.isActive.Some? ==> after[k].isActive == patch.isActive.value)
  {
  }
}
