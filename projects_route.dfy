/**
  `GET /api/projects` and `POST /api/projects`: the role-scoped project list,
  and project creation with its checks, the inserted rows, the best-effort
  folder write-back and the activity-log row.
 */
module ProjectsRoute {
  import opened Common
  import opened Validation
  import opened Rbac
  import opened Db
  import opened Drive

  // ---------------------------------------------------------------------------
  // GET: the `where` record and the list

  /** Query parameters of the list; an absent or empty parameter is `None`. */
  datatype ProjectQuery = ProjectQuery(fiscalYear: Option<int>, departmentId: Option<Id>, status: Option<string>)

  /** The `where` record: every present field is an equality filter. */
  datatype ProjectWhere = ProjectWhere(departmentId: Option<Id>, fiscalYear: Option<int>, status: Option<string>)

  /** The department filter the list ends up with: the `department_id`
      parameter when given, otherwise the caller's own department unless the
      caller is ADMIN or has none. */
  function EffectiveDepartment(u: SessionUser, q: ProjectQuery): Option<Id> {
    if q.departmentId.Some? then q.departmentId
    else if u.role != ADMIN then u.departmentId
    else None
  }

  function ProjectWhereFor(u: SessionUser, q: ProjectQuery): ProjectWhere {
    ProjectWhere(EffectiveDepartment(u, q), q.fiscalYear, q.status)
  }

  /** The successive writes into `where`: the role restriction first, then
      the parameters, `department_id` overwriting the restriction. */
  method BuildProjectWhere(u: SessionUser, q: ProjectQuery) returns (w: ProjectWhere)
    ensures w == ProjectWhereFor(u, q)
  {
    w := ProjectWhere(None, None, None);
    if !IsAdmin(Some(u)) && u.departmentId.Some? {
      w := w.(departmentId := u.departmentId);
    }
    if q.fiscalYear.Some? {
      w := w.(fiscalYear := q.fiscalYear);
    }
    if q.departmentId.Some? {
      w := w.(departmentId := q.departmentId);
    }
    if q.status.Some? {
      w := w.(status := q.status);
    }
  }

  predicate ProjectMatches(p: Project, w: ProjectWhere) {
    && (w.departmentId.None? || p.departmentId == w.departmentId.value)
    && (w.fiscalYear.None? || p.fiscalYear == w.fiscalYear.value)
    && (w.status.None? || ProjectStatusName(p.status) == w.status.value)
  }

  /** The rows `findMany` returns: those matching `where`, newest first. */
  function Listed(projects: seq<Project>, w: ProjectWhere): seq<Project> {
    Reverse(Filter(projects, (p: Project) => ProjectMatches(p, w)))
  }

  /** A project is listed exactly when it matches the `where` record. */
  lemma ListedIffMatches(projects: seq<Project>, w: ProjectWhere, p: Project)
    requires p in projects
    ensures p in Listed(projects, w) <==> ProjectMatches(p, w)
  {
    var f := Filter(projects, (p: Project) => ProjectMatches(p, w));
    var r := Listed(projects, w);
    if p in r {
      var i :| 0 <= i < |r| && r[i] == p;
      assert f[|f| - 1 - i] == p;
    }
    if ProjectMatches(p, w) {
      var k :| 0 <= k < |projects| && projects[k] == p;
      assert p in f;
      var i :| 0 <= i < |f| && f[i] == p;
      assert r[|f| - 1 - i] == p;
    }
  }

  /** Without a `department_id` parameter a non-admin with a department sees only that department. */
  lemma ListScopedToOwnDepartment(projects: seq<Project>, u: SessionUser, q: ProjectQuery, d: Id)
    requires u.role != ADMIN && u.departmentId == Some(d) && q.departmentId.None?
    ensures forall p :: p in Listed(projects, ProjectWhereFor(u, q)) ==> p.departmentId == d
  {
    forall p | p in Listed(projects, ProjectWhereFor(u, q))
      ensures p.departmentId == d
    {
      var k :| 0 <= k < |projects| && projects[k] == p;
      ListedIffMatches(projects, ProjectWhereFor(u, q), p);
    }
  }

  /** The `department_id` parameter replaces the role restriction: a
      department lead who names another department is shown its projects,
      although `canViewProject` denies that lead every one of them. */
  lemma DepartmentParameterWidensScope(projects: seq<Project>, u: SessionUser, q: ProjectQuery, p: Project)
    requires u.role == DEPT_LEAD && u.departmentId.Some?
    requires q == ProjectQuery(None, Some(p.departmentId), None)
    requires p in projects && u.departmentId != Some(p.departmentId)
    ensures p in Listed(projects, ProjectWhereFor(u, q))
    ensures !CanViewProject(Some(u), ProjectRef(p.departmentId, p.ownerId))
  {
    ListedIffMatches(projects, ProjectWhereFor(u, q), p);
  }

  /** `GET /api/projects`. */
  method ListProjects(db: Database, session: Session, q: ProjectQuery) returns (r: Response<seq<Project>>)
    ensures session.None? ==> r == Failure(401, UNAUTHORIZED)
    ensures session.Some? ==> r == Success(200, Listed(db.projects, ProjectWhereFor(session.value, q)))
  {
    if session.None? {
      return Failure(401, UNAUTHORIZED);
    }
    var w := BuildProjectWhere(session.value, q);
    r := Success(200, Listed(db.projects, w));
  }

  // ---------------------------------------------------------------------------
  // POST: the inserted rows

  /** The project row `project.create` writes: status `active`, and the owner
      is the one in the payload or else the caller. */
  function NewProject(id: Id, payload: CreateProjectPayload, callerId: Id): Project {
    Project(id, payload.code, payload.name, payload.description, payload.departmentId, payload.fiscalYear,
      Some(payload.ownerId.GetOr(callerId)), payload.startDate, payload.endDate, payload.budget, Active, None)
  }

  /** A nested milestone row: status `open`, no folder yet. */
  function NewMilestone(id: Id, projectId: Id, m: MilestoneInput): Milestone {
    Milestone(id, projectId, m.indexNo, m.name, m.description, m.dueDate, m.weightPercent, Open, None)
  }

  function NewMilestones(firstId: Id, projectId: Id, ms: seq<MilestoneInput>): (r: seq<Milestone>)
    ensures |r| == |ms|
    ensures forall i :: 0 <= i < |ms| ==> r[i] == NewMilestone(firstId + i, projectId, ms[i])
  {
    seq(|ms|, i requires 0 <= i < |ms| => NewMilestone(firstId + i, projectId, ms[i]))
  }

  /** `project.create` with nested milestones: one project row and one row
      per milestone, keys taken from the counter in that order. */
  method InsertProject(db: Database, payload: CreateProjectPayload, callerId: Id) returns (pid: Id)
    requires db.Valid() && !ProjectCodeTaken(db.projects, payload.code)
    modifies db
    ensures db.Valid()
    ensures pid == old(db.nextId) && db.nextId == pid + 1 + |payload.milestones|
    ensures db.projects == old(db.projects) + [NewProject(pid, payload, callerId)]
    ensures db.milestones == old(db.milestones) + NewMilestones(pid + 1, pid, payload.milestones)
    ensures db.departments == old(db.departments) && db.users == old(db.users) && db.logs == old(db.logs)
    ensures db.documents == old(db.documents) && db.compliance == old(db.compliance)
  {
    pid := db.nextId;
    db.projects := db.projects + [NewProject(pid, payload, callerId)];
    db.milestones := db.milestones + NewMilestones(pid + 1, pid, payload.milestones);
    db.nextId := pid + 1 + |payload.milestones|;
  }

  // ---------------------------------------------------------------------------
  // POST: the folder write-back

  /** The write-back of one milestone row: the map entry for its `index_no`, when there is one. */
  function AttachFolder(m: Milestone, ids: map<int, FolderId>): Milestone {
    if m.indexNo in ids then m.(driveFolderId := Some(ids[m.indexNo])) else m
  }

  /** The loop over the created milestones: a row gets the folder the map
      holds for its `index_no`, and is left alone when the map has none. */
  method WriteBackMilestoneFolders(db: Database, from: nat, ids: map<int, FolderId>)
    requires db.Valid() && from <= |db.milestones|
    modifies db
    ensures db.Valid()
    ensures |db.milestones| == |old(db.milestones)|
    ensures forall j :: 0 <= j < |db.milestones| ==>
              db.milestones[j] == if j < from then old(db.milestones[j]) else AttachFolder(old(db.milestones[j]), ids)
    ensures db.departments == old(db.departments) && db.users == old(db.users) && db.projects == old(db.projects)
    ensures db.logs == old(db.logs) && db.documents == old(db.documents) && db.compliance == old(db.compliance)
    ensures db.nextId == old(db.nextId)
  {
    for k := from to |db.milestones|
      invariant |db.milestones| == |old(db.milestones)|
      invariant forall j :: 0 <= j < |db.milestones| ==>
                  db.milestones[j] == if from <= j < k then AttachFolder(old(db.milestones[j]), ids) else old(db.milestones[j])
      invariant db.departments == old(db.departments) && db.users == old(db.users) && db.projects == old(db.projects)
      invariant db.logs == old(db.logs) && db.documents == old(db.documents) && db.compliance == old(db.compliance)
      invariant db.nextId == old(db.nextId)
    {
      var m := db.milestones[k];
      if m.indexNo in ids {
        db.milestones := db.milestones[k := m.(driveFolderId := Some(ids[m.indexNo]))];
      }
    }
    assert forall j :: 0 <= j < |db.milestones| ==> db.milestones[j].id == old(db.milestones[j].id);
  }

  /** The folder a created milestone row ends up with, read off the store. */
  function FolderAttached(m: Milestone, folders: seq<Folder>, projectFolder: FolderId, ms: seq<MilestoneInput>): Milestone {
    match MilestoneFolderOf(folders, projectFolder, ms, m.indexNo)
    case Some(f) => m.(driveFolderId := Some(f))
    case None => m
  }

  /** Writing back the map returned by the folder structure is writing back
      what the store holds for each `index_no`. */
  lemma AttachFolderAgrees(
    m: Milestone, folders: seq<Folder>, projectFolder: FolderId, ms: seq<MilestoneInput>, ids: map<int, FolderId>)
    requires Recorded(folders, Some(projectFolder), IndexNos(ms), FolderNames(ms), |ms|, ids)
    ensures AttachFolder(m, ids) == FolderAttached(m, folders, projectFolder, ms)
  {
    var keys, names := IndexNos(ms), FolderNames(ms);
    if m.indexNo in ids {
      RecordedLookup(folders, Some(projectFolder), keys, names, ids, m.indexNo);
    } else {
      assert m.indexNo !in KeySet(keys, |keys|);
    }
  }

  /** Sets the folder of the project row just inserted (the last one). */
  method SetProjectFolder(db: Database, folder: FolderId)
    requires db.Valid() && |db.projects| >= 1
    modifies db
    ensures db.Valid()
    ensures db.projects == old(db.projects)[|old(db.projects)| - 1 :=
              old(db.projects)[|old(db.projects)| - 1].(driveFolderId := Some(folder))]
    ensures db.departments == old(db.departments) && db.users == old(db.users) && db.milestones == old(db.milestones)
    ensures db.logs == old(db.logs) && db.documents == old(db.documents) && db.compliance == old(db.compliance)
    ensures db.nextId == old(db.nextId)
  {
    var last := |db.projects| - 1;
    db.projects := db.projects[last := db.projects[last].(driveFolderId := Some(folder))];
    assert forall k :: 0 <= k < |db.projects| ==> db.projects[k].code == old(db.projects[k].code);
    assert forall k :: 0 <= k < |db.projects| ==> db.projects[k].id == old(db.projects[k].id);
  }

  /** The `createDriveFolders` branch when the store answers: build the
      folder chain, record the project folder on the last project row, then
      write back the milestone folders on the rows from `from` on, which are
      the milestones of project `pid` as just inserted. */
  method ProvisionFolders(
    db: Database, drive: DriveStore, pid: Id, payload: CreateProjectPayload, root: Option<FolderId>, from: nat)
    returns (projectFolder: FolderId)
    requires db.Valid() && drive.Valid() && |db.projects| >= 1
    requires |db.milestones| == from + |payload.milestones|
    requires db.milestones[from..] == NewMilestones(pid + 1, pid, payload.milestones)
    modifies db, drive
    ensures db.Valid() && drive.Valid()
    ensures old(drive.folders) <= drive.folders
    ensures Walk(drive.folders, root, PathOf(payload, db.departments)) == Some(projectFolder)
    ensures Provisioned(drive.folders, root, PathOf(payload, db.departments), payload.milestones)
    ensures db.projects == old(db.projects)[|old(db.projects)| - 1 :=
              old(db.projects)[|old(db.projects)| - 1].(driveFolderId := Some(projectFolder))]
    ensures |db.milestones| == |old(db.milestones)| && db.milestones[..from] == old(db.milestones[..from])
    ensures MilestoneRowsCreated(db.milestones[from..], pid, payload.milestones, drive.folders, Some(projectFolder))
    ensures db.departments == old(db.departments) && db.users == old(db.users) && db.logs == old(db.logs)
    ensures db.documents == old(db.documents) && db.compliance == old(db.compliance) && db.nextId == old(db.nextId)
  {
    var ids;
    projectFolder, ids := drive.CreateProjectFolderStructure(
      root, payload.fiscalYear, DepartmentName(db.departments, payload.departmentId),
      payload.code, payload.name, payload.milestones);
    var folders := drive.folders;
    SetProjectFolder(db, projectFolder);
    AttachMilestoneFolders(db, from, pid, payload.milestones, folders, projectFolder, ids);
    assert drive.folders == folders;
  }

  /** Writes back the milestone folders of the rows from `from` on, the
      milestones of project `pid`, as the store recorded them. */
  method AttachMilestoneFolders(
    db: Database, from: nat, pid: Id, ms: seq<MilestoneInput>,
    folders: seq<Folder>, projectFolder: FolderId, ids: map<int, FolderId>)
    requires db.Valid()
    requires |db.milestones| == from + |ms|
    requires db.milestones[from..] == NewMilestones(pid + 1, pid, ms)
    requires Recorded(folders, Some(projectFolder), IndexNos(ms), FolderNames(ms), |ms|, ids)
    modifies db
    ensures db.Valid()
    ensures |db.milestones| == |old(db.milestones)| && db.milestones[..from] == old(db.milestones[..from])
    ensures MilestoneRowsCreated(db.milestones[from..], pid, ms, folders, Some(projectFolder))
    ensures db.departments == old(db.departments) && db.users == old(db.users) && db.logs == old(db.logs)
    ensures db.projects == old(db.projects)
    ensures db.documents == old(db.documents) && db.compliance == old(db.compliance) && db.nextId == old(db.nextId)
  {
    ghost var inserted := db.milestones;
    WriteBackMilestoneFolders(db, from, ids);
    assert db.milestones[..from] == inserted[..from];
    AttachedRowsCreated(inserted, db.milestones, from, pid, ms, folders, projectFolder, ids);
  }

  lemma AttachedRowsCreated(
    inserted: seq<Milestone>, rows: seq<Milestone>, from: nat, pid: Id, ms: seq<MilestoneInput>,
    folders: seq<Folder>, projectFolder: FolderId, ids: map<int, FolderId>)
    requires |inserted| == |rows| == from + |ms|
    requires inserted[from..] == NewMilestones(pid + 1, pid, ms)
    requires Recorded(folders, Some(projectFolder), IndexNos(ms), FolderNames(ms), |ms|, ids)
    requires forall j :: from <= j < |rows| ==> rows[j] == AttachFolder(inserted[j], ids)
    ensures MilestoneRowsCreated(rows[from..], pid, ms, folders, Some(projectFolder))
  {
    forall j | from <= j < |rows|
      ensures rows[j] == FolderAttached(inserted[j], folders, projectFolder, ms)
    {
      AttachFolderAgrees(inserted[j], folders, projectFolder, ms, ids);
    }
    WrittenBackRowsCreated(inserted, rows, from, pid, ms, folders, projectFolder);
  }

  /** The folder path of a project: FY folder, department name, code and name. */
  function PathOf(payload: CreateProjectPayload, departments: seq<Department>): seq<string> {
    ProjectPath(payload.fiscalYear, DepartmentName(departments, payload.departmentId), payload.code, payload.name)
  }

  /** The project row as inserted, whatever folder it was given afterwards. */
  predicate ProjectRowCreated(p: Project, pid: Id, payload: CreateProjectPayload, callerId: Id) {
    p.(driveFolderId := None) == NewProject(pid, payload, callerId)
  }

  /** The milestone rows of project `pid`, in the order of `ms`: keys after
      the project's, status `open`, and, when the project has a folder, the
      folder of the last milestone sharing the row's `index_no`. */
  predicate MilestoneRowsCreated(
    rows: seq<Milestone>, pid: Id, ms: seq<MilestoneInput>, folders: seq<Folder>, projectFolder: Option<FolderId>)
  {
    && |rows| == |ms|
    && forall i :: 0 <= i < |ms| ==>
         rows[i] == NewMilestone(pid + 1 + i, pid, ms[i]).(driveFolderId :=
           if projectFolder.Some? then MilestoneFolderOf(folders, projectFolder.value, ms, ms[i].indexNo) else None)
  }

  lemma WrittenBackRowsCreated(
    inserted: seq<Milestone>, rows: seq<Milestone>, n0: nat, pid: Id, ms: seq<MilestoneInput>,
    folders: seq<Folder>, projectFolder: FolderId)
    requires |inserted| == |rows| == n0 + |ms|
    requires inserted[n0..] == NewMilestones(pid + 1, pid, ms)
    requires forall j :: n0 <= j < |rows| ==> rows[j] == FolderAttached(inserted[j], folders, projectFolder, ms)
    ensures MilestoneRowsCreated(rows[n0..], pid, ms, folders, Some(projectFolder))
  {
    forall i | 0 <= i < |ms|
      ensures rows[n0 + i] == NewMilestone(pid + 1 + i, pid, ms[i]).(driveFolderId :=
                MilestoneFolderOf(folders, projectFolder, ms, ms[i].indexNo))
    {
      assert inserted[n0 + i] == inserted[n0..][i];
    }
  }

  lemma InsertedRowsCreated(pid: Id, ms: seq<MilestoneInput>, folders: seq<Folder>)
    ensures MilestoneRowsCreated(NewMilestones(pid + 1, pid, ms), pid, ms, folders, None)
  {
  }

  /** Everything after the checks: insert, provision when asked and the
      store answers, and log. */
  method CreateAccepted(
    db: Database, drive: DriveStore, callerId: Id, payload: CreateProjectPayload,
    storeReachable: bool, root: Option<FolderId>)
    returns (pid: Id)
    requires db.Valid() && drive.Valid() && !ProjectCodeTaken(db.projects, payload.code)
    modifies db, drive
    ensures db.Valid() && drive.Valid()
    ensures pid == old(db.nextId) && db.nextId == pid + 2 + |payload.milestones|
    ensures |db.projects| == |old(db.projects)| + 1 && db.projects[..|old(db.projects)|] == old(db.projects)
    ensures ProjectRowCreated(db.projects[|old(db.projects)|], pid, payload, callerId)
    ensures |db.milestones| == |old(db.milestones)| + |payload.milestones|
    ensures db.milestones[..|old(db.milestones)|] == old(db.milestones)
    ensures MilestoneRowsCreated(db.milestones[|old(db.milestones)|..], pid, payload.milestones,
              drive.folders, db.projects[|old(db.projects)|].driveFolderId)
    ensures payload.createDriveFolders && storeReachable ==>
              && db.projects[|old(db.projects)|].driveFolderId.Some?
              && Walk(drive.folders, root, PathOf(payload, db.departments)) == db.projects[|old(db.projects)|].driveFolderId
              && Provisioned(drive.folders, root, PathOf(payload, db.departments), payload.milestones)
    ensures !(payload.createDriveFolders && storeReachable) ==>
              db.projects[|old(db.projects)|].driveFolderId.None? && unchanged(drive)
    ensures old(drive.folders) <= drive.folders
    ensures db.logs == old(db.logs) + [LogEntry(pid + 1 + |payload.milestones|, callerId, "CREATE_PROJECT", "project",
                                               pid, CodeAndName(payload.code, payload.name))]
    ensures db.departments == old(db.departments) && db.users == old(db.users)
    ensures db.documents == old(db.documents) && db.compliance == old(db.compliance)
  {
    var n0 := |db.milestones|;
    var p0 := |db.projects|;
    pid := InsertProject(db, payload, callerId);
    assert db.milestones[n0..] == NewMilestones(pid + 1, pid, payload.milestones);
    if payload.createDriveFolders && storeReachable {
      var projectFolder := ProvisionFolders(db, drive, pid, payload, root, n0);
    } else {
      InsertedRowsCreated(pid, payload.milestones, drive.folders);
    }
    var logId := db.AppendLog(callerId, "CREATE_PROJECT", "project", pid, CodeAndName(payload.code, payload.name));
  }

  // ---------------------------------------------------------------------------
  // POST: the transition

  /** The create-project request got past every check: the caller may manage
      projects, the body fits the schema, the code is free, the dates are in
      order, and the department and the owner exist. */
  predicate Accepted(session: Session, body: CreateProjectBody, db: Database)
    reads db
  {
    && CanManageProject(session)
    && ValidCreateProject(body)
    && !ProjectCodeTaken(db.projects, body.code)
    && body.startDate <= body.endDate
    && HasDepartment(db.departments, body.departmentId)
    && HasUser(db.users, body.ownerId.GetOr(session.value.id))
  }

  /** `POST /api/projects`. `storeReachable` says whether the document store
      answers; when it does not, the folder step fails and is skipped. The
      checks come in this order: permission, schema, duplicate code, date
      range, then the foreign keys of the insert. */
  method CreateProject(
    db: Database, drive: DriveStore, session: Session, body: CreateProjectBody,
    storeReachable: bool, root: Option<FolderId>)
    returns (r: Response<Id>)
    requires db.Valid() && drive.Valid()
    modifies db, drive
    ensures db.Valid() && drive.Valid()
    ensures !CanManageProject(session) ==> r == Failure(403, FORBIDDEN)
    ensures CanManageProject(session) && !ValidCreateProject(body) ==> r == Failure(400, VALIDATION_ERROR)
    ensures CanManageProject(session) && ValidCreateProject(body) && ProjectCodeTaken(old(db.projects), body.code) ==>
              r == Failure(400, DUPLICATE_CODE)
    ensures CanManageProject(session) && ValidCreateProject(body) && !ProjectCodeTaken(old(db.projects), body.code)
            && body.startDate > body.endDate ==>
              r == Failure(400, INVALID_DATE_RANGE)
    ensures CanManageProject(session) && ValidCreateProject(body) && !ProjectCodeTaken(old(db.projects), body.code)
            && body.startDate <= body.endDate && !old(Accepted(session, body, db)) ==>
              r == Failure(400, VALIDATION_ERROR)
    ensures r.Failure? ==> unchanged(db) && unchanged(drive)
    ensures old(Accepted(session, body, db)) <==> r.Success?
    ensures r.Success? ==> r == Success(201, old(db.nextId))
    ensures r.Success? ==>
              && |db.projects| == |old(db.projects)| + 1 && db.projects[..|old(db.projects)|] == old(db.projects)
              && ProjectRowCreated(db.projects[|old(db.projects)|], old(db.nextId), WithDefaults(body), session.value.id)
    ensures r.Success? ==>
              && |db.milestones| == |old(db.milestones)| + |body.milestones|
              && db.milestones[..|old(db.milestones)|] == old(db.milestones)
              && MilestoneRowsCreated(db.milestones[|old(db.milestones)|..], old(db.nextId), body.milestones,
                   drive.folders, db.projects[|old(db.projects)|].driveFolderId)
    ensures r.Success? && body.createDriveFolders.GetOr(true) && storeReachable ==>
              && db.projects[|old(db.projects)|].driveFolderId.Some?
              && Walk(drive.folders, root, PathOf(WithDefaults(body), db.departments))
                 == db.projects[|old(db.projects)|].driveFolderId
              && Provisioned(drive.folders, root, PathOf(WithDefaults(body), db.departments), body.milestones)
    ensures r.Success? && !(body.createDriveFolders.GetOr(true) && storeReachable) ==>
              db.projects[|old(db.projects)|].driveFolderId.None? && unchanged(drive)
    ensures r.Success? ==>
              db.logs == old(db.logs) + [LogEntry(old(db.nextId) + 1 + |body.milestones|, session.value.id,
                                           "CREATE_PROJECT", "project", old(db.nextId), CodeAndName(body.code, body.name))]
    ensures db.departments == old(db.departments) && db.users == old(db.users)
    ensures db.documents == old(db.documents) && db.compliance == old(db.compliance)
  {
    if !CanManageProject(session) {
      return Failure(403, FORBIDDEN);
    }
    var parsed := ParseCreateProject(body);
    if parsed.None? {
      return Failure(400, VALIDATION_ERROR);
    }
    var payload := parsed.value;
    if ProjectCodeTaken(db.projects, payload.code) {
      return Failure(400, DUPLICATE_CODE);
    }
    if payload.startDate > payload.endDate {
      return Failure(400, INVALID_DATE_RANGE);
    }
    var callerId := session.value.id;
    if !HasDepartment(db.departments, payload.departmentId) || !HasUser(db.users, payload.ownerId.GetOr(callerId)) {
      // The foreign-key violation surfaces as an exception, answered like a schema error.
      return Failure(400, VALIDATION_ERROR);
    }
    var pid := CreateAccepted(db, drive, callerId, payload, storeReachable, root);
    r := Success(201, pid);
  }
}
