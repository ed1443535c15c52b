/**
  The relational store behind the request handlers: one table per entity, each
  a sequence of rows in creation order, and a counter that issues primary keys.
 */
module Db {
  import opened Common
  import opened Validation

  datatype Department = Department(id: Id, code: string, name: string)

  datatype User = User(
    id: Id,
    email: string,
    name: string,
    role: Role,
    departmentId: Option<Id>,
    isActive: bool,
    image: Option<string>)

  datatype Project = Project(
    id: Id,
    code: string,
    name: string,
    description: Option<string>,
    departmentId: Id,
    fiscalYear: int,
    ownerId: Option<Id>,
    startDate: int,
    endDate: int,
    budget: Option<real>,
    status: ProjectStatus,
    driveFolderId: Option<FolderId>)

  datatype Milestone = Milestone(
    id: Id,
    projectId: Id,
    indexNo: int,
    name: string,
    description: Option<string>,
    dueDate: int,
    weightPercent: Option<int>,
    status: MilestoneStatus,
    driveFolderId: Option<FolderId>)

  datatype Document = Document(id: Id, milestoneId: Id, fileName: string)

  /** A compliance record; its status column holds the raw string. */
  datatype ComplianceRecord = ComplianceRecord(id: Id, milestoneId: Id, requirementCode: string, status: string)

  /** The `updateData` of a user update: each field is present only when it is to change;
      `departmentId` may be present and null. */
  datatype UserPatch = UserPatch(role: Option<Role>, departmentId: Option<Option<Id>>, isActive: Option<bool>)

  /** The structured `metadata` payload of a log row. */
  datatype Metadata = CodeAndName(code: string, name: string) | UserUpdate(patch: UserPatch)

  datatype LogEntry = LogEntry(
    id: Id,
    actorId: Id,
    action: string,
    entityType: string,
    entityId: Id,
    metadata: Metadata)

  class Database {
    var departments: seq<Department>
    var users: seq<User>
    var projects: seq<Project>
    var milestones: seq<Milestone>
    var documents: seq<Document>
    var compliance: seq<ComplianceRecord>
    var logs: seq<LogEntry>
    var nextId: nat

    /** Keys come from the counter and increase along each table; department
        codes, project codes and user e-mails are unique. */
    ghost predicate Valid()
      reads this
    {
      && DepartmentsOk(departments, nextId)
      && UsersOk(users, nextId)
      && ProjectsOk(projects, nextId)
      && MilestonesOk(milestones, nextId)
      && LogsOk(logs, nextId)
    }

    constructor ()
      ensures Valid()
      ensures departments == [] && users == [] && projects == [] && milestones == []
      ensures documents == [] && compliance == [] && logs == [] && nextId == 0
    {
      departments, users, projects, milestones := [], [], [], [];
      documents, compliance, logs := [], [], [];
      nextId := 0;
    }

    /** `activityLog.create`: appends one row with a fresh key and touches no other table. */
    method AppendLog(actorId: Id, action: string, entityType: string, entityId: Id, metadata: Metadata)
      returns (id: Id)
      requires Valid()
      modifies this
      ensures Valid()
      ensures id == old(nextId) && nextId == old(nextId) + 1
      ensures logs == old(logs) + [LogEntry(id, actorId, action, entityType, entityId, metadata)]
      ensures departments == old(departments) && users == old(users) && projects == old(projects)
      ensures milestones == old(milestones) && documents == old(documents) && compliance == old(compliance)
    {
      id := nextId;
      logs := logs + [LogEntry(id, actorId, action, entityType, entityId, metadata)];
      nextId := nextId + 1;
    }
  }

  predicate DepartmentsOk(t: seq<Department>, next: nat) {
    && (forall i :: 0 <= i < |t| ==> t[i].id < next)
    && (forall i, j :: 0 <= i < j < |t| ==> t[i].id < t[j].id && t[i].code != t[j].code)
  }

  predicate UsersOk(t: seq<User>, next: nat) {
    && (forall i :: 0 <= i < |t| ==> t[i].id < next)
    && (forall i, j :: 0 <= i < j < |t| ==> t[i].id < t[j].id && t[i].email != t[j].email)
  }

  predicate ProjectsOk(t: seq<Project>, next: nat) {
    && (forall i :: 0 <= i < |t| ==> t[i].id < next)
    && (forall i, j :: 0 <= i < j < |t| ==> t[i].id < t[j].id && t[i].code != t[j].code)
  }

  predicate MilestonesOk(t: seq<Milestone>, next: nat) {
    && (forall i :: 0 <= i < |t| ==> t[i].id < next)
    && (forall i, j :: 0 <= i < j < |t| ==> t[i].id < t[j].id)
  }

  predicate LogsOk(t: seq<LogEntry>, next: nat) {
    && (forall i :: 0 <= i < |t| ==> t[i].id < next)
    && (forall i, j :: 0 <= i < j < |t| ==> t[i].id < t[j].id)
  }

  /** The name of the department with key `id`; the foreign key on projects
      guarantees that it exists, and the empty string stands for the case that cannot occur. */
  function DepartmentName(departments: seq<Department>, id: Id): string {
    match FirstIndex(departments, (d: Department) => d.id == id)
    case Some(k) => departments[k].name
    case None => ""
  }

  /** `owner?.name`: the name of the user with key `id`, when there is one. */
  function UserName(users: seq<User>, id: Option<Id>): Option<string> {
    if id.None? then None
    else match FirstIndex(users, (u: User) => u.id == id.value)
      case Some(k) => Some(users[k].name)
      case None => None
  }

  /** The department of the user with key `id` (`actor.departmentId`). */
  function UserDepartment(users: seq<User>, id: Id): Option<Id> {
    match FirstIndex(users, (u: User) => u.id == id)
    case Some(k) => users[k].departmentId
    case None => None
  }

  /** `project.findUnique({ where: { code } })` finds a row. */
  predicate ProjectCodeTaken(projects: seq<Project>, code: string) {
    exists k :: 0 <= k < |projects| && projects[k].code == code
  }

  /** `department.findUnique({ where: { code } })` finds a row. */
  predicate DepartmentCodeTaken(departments: seq<Department>, code: string) {
    exists k :: 0 <= k < |departments| && departments[k].code == code
  }

  predicate HasDepartment(departments: seq<Department>, id: Id) {
    exists k :: 0 <= k < |departments| && departments[k].id == id
  }

  predicate HasUser(users: seq<User>, id: Id) {
    exists k :: 0 <= k < |users| && users[k].id == id
  }
}
