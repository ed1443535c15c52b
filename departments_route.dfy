/**
  `/api/departments`: the department list and the creation of a department
  with a unique code.
 */
module DepartmentsRoute {
  import opened Common
  import opened Rbac
  import opened Db

  /** `GET /api/departments`: every department for any signed-in caller. */
  method ListDepartments(db: Database, session: Session) returns (r: Response<seq<Department>>)
    ensures session.None? ==> r == Failure(401, UNAUTHORIZED)
    ensures session.Some? ==> r == Success(200, db.departments)
  {
    if session.None? {
      return Failure(401, UNAUTHORIZED);
    }
    r := Success(200, db.departments);
  }

  /** The request body; a missing field is the empty string, as both fail the same test. */
  datatype DepartmentBody = DepartmentBody(code: string, name: string)

  /** Appending a department whose code is new keeps codes unique and keys increasing. */
  lemma InsertKeepsDepartmentsOk(t: seq<Department>, next: nat, code: string, name: string)
    requires DepartmentsOk(t, next) && !DepartmentCodeTaken(t, code)
    ensures DepartmentsOk(t + [Department(next, code, name)], next + 1)
  {
    var t' := t + [Department(next, code, name)];
    forall i, j | 0 <= i < j < |t'| ensures t'[i].id < t'[j].id && t'[i].code != t'[j].code {
      if j == |t| {
        assert t'[i] == t[i];
      }
    }
  }

  /** `POST /api/departments`. The guards are tried in order: role, required
      fields, unique code; only then are the department and its log row written. */
  method CreateDepartment(db: Database, session: Session, body: DepartmentBody) returns (r: Response<Department>)
    requires db.Valid()
    modifies db
    ensures db.Valid()
    ensures !IsAdminOrDeptLead(session) ==> r == Failure(403, FORBIDDEN)
    ensures IsAdminOrDeptLead(session) && (body.code == "" || body.name == "") ==> r == Failure(400, VALIDATION_ERROR)
    ensures IsAdminOrDeptLead(session) && body.code != "" && body.name != ""
            && DepartmentCodeTaken(old(db.departments), body.code) ==>
              r == Failure(400, DUPLICATE_CODE)
    ensures r.Failure? ==> unchanged(db)
    ensures r.Success? <==>
              IsAdminOrDeptLead(session) && body.code != "" && body.name != ""
              && !DepartmentCodeTaken(old(db.departments), body.code)
    ensures r.Success? ==>
              var d := Department(old(db.nextId), body.code, body.name);
              && r == Success(201, d)
              && db.departments == old(db.departments) + [d]
              && db.logs == old(db.logs) + [LogEntry(old(db.nextId) + 1, session.value.id, "CREATE_DEPARTMENT",
                                               "department", d.id, CodeAndName(body.code, body.name))]
              && db.nextId == old(db.nextId) + 2
    ensures db.users == old(db.users) && db.projects == old(db.projects) && db.milestones == old(db.milestones)
    ensures db.documents == old(db.documents) && db.compliance == old(db.compliance)
  {
    if !IsAdminOrDeptLead(session) {
      return Failure(403, FORBIDDEN);
    }
    if body.code == "" || body.name == "" {
      return Failure(400, VALIDATION_ERROR);
    }
    if DepartmentCodeTaken(db.departments, body.code) {
      return Failure(400, DUPLICATE_CODE);
    }
    var d := Department(db.nextId, body.code, body.name);
    InsertKeepsDepartmentsOk(db.departments, db.nextId, body.code, body.name);
    db.departments := db.departments + [d];
    db.nextId := db.nextId + 1;
    var _ := db.AppendLog(session.value.id, "CREATE_DEPARTMENT", "department", d.id, CodeAndName(body.code, body.name));
    r := Success(201, d);
  }

  /** Once a department exists, it is the only one with its code, so a second
      creation with the same code is refused. */
  lemma CodeIdentifiesDepartment(t: seq<Department>, next: nat, i: nat, j: nat)
    requires DepartmentsOk(t, next) && i < |t| && j < |t| && t[i].code == t[j].code
    ensures i == j
  {
  }
}
