/**
  The access-predicate layer: pure decisions over the caller's session and the
  two project fields they need (`departmentId`, `ownerId`).
 */
module Rbac {
  import opened Common

  /** The project fields the predicates read. */
  datatype ProjectRef = ProjectRef(departmentId: Id, ownerId: Option<Id>)

  /** `session.user.departmentId === project.departmentId`: a user without a
      department never matches. */
  predicate SameDepartment(u: SessionUser, p: ProjectRef) {
    u.departmentId == Some(p.departmentId)
  }

  /** `project.ownerId === session.user.id`: a project without owner matches nobody. */
  predicate Owns(u: SessionUser, p: ProjectRef) {
    p.ownerId == Some(u.id)
  }

  function HasRole(session: Session, allowed: seq<Role>): (r: bool)
    ensures session.None? ==> !r
    ensures session.Some? ==> (r <==> session.value.role in allowed)
  {
    match session
    case None => false
    case Some(u) => u.role in allowed
  }

  function IsAdmin(session: Session): (r: bool)
    ensures r <==> session.Some? && session.value.role == ADMIN
  {
    HasRole(session, [ADMIN])
  }

  function IsAdminOrDeptLead(session: Session): (r: bool)
    ensures r <==> session.Some? && session.value.role in {ADMIN, DEPT_LEAD}
  {
    HasRole(session, [ADMIN, DEPT_LEAD])
  }

  /** Gate of project and milestone creation. */
  function CanManageProject(session: Session): (r: bool)
    ensures r <==> session.Some? && session.value.role in {ADMIN, DEPT_LEAD, PM}
    ensures session.Some? && session.value.role in {MEMBER, READONLY} ==> !r
  {
    HasRole(session, [ADMIN, DEPT_LEAD, PM])
  }

  function CanViewProject(session: Session, p: ProjectRef): (r: bool)
    ensures session.None? ==> !r
    ensures session.Some? && session.value.role == ADMIN ==> r
    ensures session.Some? && session.value.role == DEPT_LEAD ==> (r <==> SameDepartment(session.value, p))
    ensures session.Some? && session.value.role in {PM, MEMBER} ==>
              (r <==> Owns(session.value, p) || SameDepartment(session.value, p))
    ensures session.Some? && session.value.role == READONLY ==> !r
  {
    if session.None? then false
    else if IsAdmin(session) then true
    else if session.value.role == DEPT_LEAD && SameDepartment(session.value, p) then true
    else if session.value.role == PM || session.value.role == MEMBER then
      Owns(session.value, p) || SameDepartment(session.value, p)
    else false
  }

  function CanEditProject(session: Session, p: ProjectRef): (r: bool)
    ensures session.None? ==> !r
    ensures session.Some? && session.value.role == ADMIN ==> r
    ensures session.Some? && session.value.role == DEPT_LEAD ==> (r <==> SameDepartment(session.value, p))
    ensures session.Some? && session.value.role == PM ==> (r <==> Owns(session.value, p))
    ensures session.Some? && session.value.role in {MEMBER, READONLY} ==> !r
  {
    if session.None? then false
    else if IsAdmin(session) then true
    else if session.value.role == DEPT_LEAD && SameDepartment(session.value, p) then true
    else if session.value.role == PM && Owns(session.value, p) then true
    else false
  }

  function CanUploadDocument(session: Session, p: ProjectRef): (r: bool)
    ensures session.None? ==> !r
    ensures session.Some? && session.value.role == READONLY ==> !r
    ensures session.Some? && session.value.role == ADMIN ==> r
    ensures session.Some? && session.value.role in {DEPT_LEAD, PM, MEMBER} ==>
              (r <==> SameDepartment(session.value, p) || Owns(session.value, p))
  {
    if session.None? then false
    else if HasRole(session, [ADMIN, DEPT_LEAD, PM, MEMBER]) then
      IsAdmin(session) || SameDepartment(session.value, p) || Owns(session.value, p)
    else false
  }

  /** Whoever may edit a project may also see it and upload documents to it. */
  lemma EditImpliesViewAndUpload(session: Session, p: ProjectRef)
    ensures CanEditProject(session, p) ==> CanViewProject(session, p)
    ensures CanEditProject(session, p) ==> CanUploadDocument(session, p)
  {
  }

  /** Same department alone never lets a PM edit someone else's project, and a
      MEMBER who can see a project still cannot edit it. */
  lemma ViewDoesNotImplyEdit(u: SessionUser, p: ProjectRef)
    requires u.role == PM && SameDepartment(u, p) && !Owns(u, p)
    ensures CanViewProject(Some(u), p) && !CanEditProject(Some(u), p)
  {
  }
}
