/**
  `GET /api/reports/progress`: the projects in the caller's scope, each
  summarised as milestone counts, a rounded completion percentage, a document
  total and a tally of compliance statuses.
 */
module ProgressReport {
  import opened Common
  import opened Validation
  import opened Db
  import opened ProjectsRoute

  /** The report's parameters; an absent or empty parameter is `None`. */
  datatype ReportQuery = ReportQuery(fiscalYear: Option<int>, departmentId: Option<Id>)

  /** The same successive writes as the project list, without a status filter. */
  method BuildReportWhere(u: SessionUser, q: ReportQuery) returns (w: ProjectWhere)
    ensures w == ProjectWhereFor(u, ProjectQuery(q.fiscalYear, q.departmentId, None))
    ensures w.status.None?
  {
    w := ProjectWhere(None, None, None);
    if u.role != ADMIN && u.departmentId.Some? {
      w := w.(departmentId := u.departmentId);
    }
    if q.fiscalYear.Some? {
      w := w.(fiscalYear := q.fiscalYear);
    }
    if q.departmentId.Some? {
      w := w.(departmentId := q.departmentId);
    }
  }

  // ---------------------------------------------------------------------------
  // The rows the query fetches

  /** A milestone with the two relations the report reads: how many documents
      it has and the raw status of each of its compliance records. */
  datatype MilestoneView = MilestoneView(status: MilestoneStatus, documentCount: nat, complianceStatuses: seq<string>)

  datatype ProjectView = ProjectView(
    project: Project,
    departmentName: string,
    ownerName: Option<string>,
    milestones: seq<MilestoneView>)

  function MilestoneViewOf(documents: seq<Document>, compliance: seq<ComplianceRecord>, m: Milestone): MilestoneView {
    var records := Filter(compliance, (c: ComplianceRecord) => c.milestoneId == m.id);
    MilestoneView(
      m.status,
      |Filter(documents, (d: Document) => d.milestoneId == m.id)|,
      seq(|records|, k requires 0 <= k < |records| => records[k].status))
  }

  function ProjectViewOf(db: Database, p: Project): ProjectView
    reads db
  {
    var ms := Filter(db.milestones, (m: Milestone) => m.projectId == p.id);
    var documents, compliance := db.documents, db.compliance;
    ProjectView(
      p,
      DepartmentName(db.departments, p.departmentId),
      UserName(db.users, p.ownerId),
      seq(|ms|, k requires 0 <= k < |ms| => MilestoneViewOf(documents, compliance, ms[k])))
  }

  // ---------------------------------------------------------------------------
  // The per-project figures

  datatype ComplianceStats = ComplianceStats(full: nat, missing: nat, na: nat)

  datatype ReportRow = ReportRow(
    projectId: Id,
    projectCode: string,
    projectName: string,
    department: string,
    owner: string,
    fiscalYear: int,
    status: ProjectStatus,
    startDate: int,
    endDate: int,
    totalMilestones: nat,
    completedMilestones: nat,
    progress: int,
    totalDocuments: nat,
    compliance: ComplianceStats)

  /** The milestones whose status is `completed`. */
  function CountCompleted(ms: seq<MilestoneView>): (r: nat)
    ensures r <= |ms|
    ensures r == |ms| <==> forall i :: 0 <= i < |ms| ==> ms[i].status == Done
    ensures r == 0 <==> forall i :: 0 <= i < |ms| ==> ms[i].status != Done
  {
    if ms == [] then 0
    else CountCompleted(ms[1..]) + (if ms[0].status == Done then 1 else 0)
  }

  /** `Math.round(completed / total * 100)`, or 0 without milestones, taking
      the quotient exactly and rounding halves up. */
  function Progress(completed: nat, total: nat): (r: int)
    requires completed <= total
    ensures 0 <= r <= 100
    ensures total == 0 ==> r == 0
    ensures total > 0 ==> 2 * total * r <= 200 * completed + total < 2 * total * (r + 1)
    ensures total > 0 && completed == 0 ==> r == 0
    ensures total > 0 && completed == total ==> r == 100
  {
    if total > 0 then
      var r := (200 * completed + total) / (2 * total);
      ProgressBounds(completed, total, r);
      r
    else 0
  }

  lemma ProgressBounds(completed: nat, total: nat, r: int)
    requires completed <= total && total > 0 && r == (200 * completed + total) / (2 * total)
    ensures 0 <= r <= 100
    ensures 2 * total * r <= 200 * completed + total < 2 * total * (r + 1)
    ensures completed == 0 ==> r == 0
    ensures completed == total ==> r == 100
  {
    var n, d := 200 * completed + total, 2 * total;
    var m := n % d;
    assert n == d * r + m && 0 <= m < d;
    assert d * (r + 1) == d * r + d;
    if r > 100 {
      MulMono(d, 101, r);
      assert false;
    }
    if completed == 0 && r > 0 {
      MulMono(d, 1, r);
      assert false;
    }
    if completed == total && r < 100 {
      MulMono(d, r + 1, 100);
      assert false;
    }
  }

  lemma MulMono(d: nat, a: int, b: int)
    requires a <= b
    ensures d * a <= d * b
  {
    assert d * b - d * a == d * (b - a);
  }

  /** The documents of all milestones: the `reduce` over document counts. */
  function TotalDocuments(ms: seq<MilestoneView>): nat {
    if ms == [] then 0 else ms[0].documentCount + TotalDocuments(ms[1..])
  }

  lemma {:induction false} TotalDocumentsAppend(a: seq<MilestoneView>, b: seq<MilestoneView>)
    ensures TotalDocuments(a + b) == TotalDocuments(a) + TotalDocuments(b)
  {
    if a == [] {
      assert a + b == b;
    } else {
      assert (a + b)[1..] == a[1..] + b;
      TotalDocumentsAppend(a[1..], b);
    }
  }

  /** Every milestone's documents are counted: no milestone adds more than the total. */
  lemma {:induction false} TotalDocumentsCoversEach(ms: seq<MilestoneView>, i: nat)
    requires i < |ms|
    ensures ms[i].documentCount <= TotalDocuments(ms)
  {
    if i > 0 {
      TotalDocumentsCoversEach(ms[1..], i - 1);
    }
  }

  /** The compliance statuses of all milestones, milestone by milestone. */
  function AllStatuses(ms: seq<MilestoneView>): seq<string> {
    if ms == [] then [] else AllStatuses(ms[..|ms| - 1]) + ms[|ms| - 1].complianceStatuses
  }

  /** How many entries of `xs` equal `s`. */
  function CountOf(xs: seq<string>, s: string): nat {
    if xs == [] then 0 else CountOf(xs[..|xs| - 1], s) + (if xs[|xs| - 1] == s then 1 else 0)
  }

  /** The tally the report promises: one count per status of the enumeration. */
  function ComplianceCounts(ms: seq<MilestoneView>): ComplianceStats {
    var all := AllStatuses(ms);
    ComplianceStats(CountOf(all, "full"), CountOf(all, "missing"), CountOf(all, "na"))
  }

  predicate InEnum(s: string) {
    s == "full" || s == "missing" || s == "na"
  }

  /** The three counts never exceed the number of records, and they add up
      to it exactly when every record holds one of the three statuses. */
  lemma {:induction false} TallyBound(xs: seq<string>)
    ensures CountOf(xs, "full") + CountOf(xs, "missing") + CountOf(xs, "na") <= |xs|
    ensures CountOf(xs, "full") + CountOf(xs, "missing") + CountOf(xs, "na") == |xs|
            <==> forall i :: 0 <= i < |xs| ==> InEnum(xs[i])
  {
    if xs != [] {
      var front := xs[..|xs| - 1];
      TallyBound(front);
      if !InEnum(xs[|xs| - 1]) {
        assert !(forall i :: 0 <= i < |xs| ==> InEnum(xs[i]));
      }
      if forall i :: 0 <= i < |xs| ==> InEnum(xs[i]) {
        assert forall i :: 0 <= i < |front| ==> InEnum(front[i]) by {
          forall i | 0 <= i < |front| ensures InEnum(front[i]) {
            assert front[i] == xs[i];
          }
        }
      }
      if (forall i :: 0 <= i < |front| ==> InEnum(front[i])) && InEnum(xs[|xs| - 1]) {
        forall i | 0 <= i < |xs| ensures InEnum(xs[i]) {
          if i < |front| {
            assert xs[i] == front[i];
          }
        }
      }
    }
  }

  lemma CountOfSnoc(xs: seq<string>, x: string, s: string)
    ensures CountOf(xs + [x], s) == CountOf(xs, s) + (if x == s then 1 else 0)
  {
    assert (xs + [x])[..|xs|] == xs;
  }

  lemma AllStatusesSnoc(ms: seq<MilestoneView>, i: nat)
    requires i < |ms|
    ensures AllStatuses(ms[..i + 1]) == AllStatuses(ms[..i]) + ms[i].complianceStatuses
  {
    assert ms[..i + 1][..i] == ms[..i];
  }

  /** The compliance `reduce`: for each milestone, a `forEach` over its
      records bumps the counter of a recognised status and skips any other. */
  method TallyCompliance(ms: seq<MilestoneView>) returns (stats: ComplianceStats)
    ensures stats == ComplianceCounts(ms)
  {
    var full, missing, na := 0, 0, 0;
    for i := 0 to |ms|
      invariant full == CountOf(AllStatuses(ms[..i]), "full")
      invariant missing == CountOf(AllStatuses(ms[..i]), "missing")
      invariant na == CountOf(AllStatuses(ms[..i]), "na")
    {
      var seen := AllStatuses(ms[..i]);
      var cs := ms[i].complianceStatuses;
      assert seen + cs[..0] == seen;
      for k := 0 to |cs|
        invariant full == CountOf(seen + cs[..k], "full")
        invariant missing == CountOf(seen + cs[..k], "missing")
        invariant na == CountOf(seen + cs[..k], "na")
      {
        assert seen + cs[..k + 1] == (seen + cs[..k]) + [cs[k]];
        CountOfSnoc(seen + cs[..k], cs[k], "full");
        CountOfSnoc(seen + cs[..k], cs[k], "missing");
        CountOfSnoc(seen + cs[..k], cs[k], "na");
        if cs[k] == "full" {
          full := full + 1;
        } else if cs[k] == "missing" {
          missing := missing + 1;
        } else if cs[k] == "na" {
          na := na + 1;
        }
      }
      assert cs[..|cs|] == cs;
      AllStatusesSnoc(ms, i);
    }
    assert ms[..|ms|] == ms;
    stats := ComplianceStats(full, missing, na);
  }

  /** `project.owner?.name || '-'`: a missing owner or an empty name shows as a dash. */
  function OwnerLabel(ownerName: Option<string>): (r: string)
    ensures r == "-" <==> ownerName.None? || ownerName.value == "" || ownerName.value == "-"
    ensures ownerName.Some? && ownerName.value != "" ==> r == ownerName.value
  {
    if ownerName.Some? && ownerName.value != "" then ownerName.value else "-"
  }

  /** The report entry of one project. */
  function RowOf(v: ProjectView): ReportRow {
    var total := |v.milestones|;
    var completed := CountCompleted(v.milestones);
    ReportRow(
      v.project.id, v.project.code, v.project.name, v.departmentName, OwnerLabel(v.ownerName),
      v.project.fiscalYear, v.project.status, v.project.startDate, v.project.endDate,
      total, completed, Progress(completed, total), TotalDocuments(v.milestones), ComplianceCounts(v.milestones))
  }

  /** What every entry satisfies, whatever the data. */
  lemma RowBounds(v: ProjectView)
    ensures RowOf(v).completedMilestones <= RowOf(v).totalMilestones
    ensures 0 <= RowOf(v).progress <= 100
    ensures RowOf(v).totalMilestones == 0 ==> RowOf(v).progress == 0
    ensures RowOf(v).compliance.full + RowOf(v).compliance.missing + RowOf(v).compliance.na
            <= |AllStatuses(v.milestones)|
  {
    TallyBound(AllStatuses(v.milestones));
  }

  /** `projects.map(...)`: one entry per fetched project, in the same order. */
  method BuildReport(views: seq<ProjectView>) returns (rows: seq<ReportRow>)
    ensures |rows| == |views|
    ensures forall i :: 0 <= i < |views| ==> rows[i] == RowOf(views[i])
  {
    rows := [];
    for i := 0 to |views|
      invariant |rows| == i
      invariant forall k :: 0 <= k < i ==> rows[k] == RowOf(views[k])
    {
      var v := views[i];
      var stats := TallyCompliance(v.milestones);
      var total := |v.milestones|;
      var completed := CountCompleted(v.milestones);
      var row := ReportRow(
        v.project.id, v.project.code, v.project.name, v.departmentName, OwnerLabel(v.ownerName),
        v.project.fiscalYear, v.project.status, v.project.startDate, v.project.endDate,
        total, completed, Progress(completed, total), TotalDocuments(v.milestones), stats);
      rows := rows + [row];
    }
  }

  /** `GET /api/reports/progress`. */
  method GetProgressReport(db: Database, session: Session, q: ReportQuery) returns (r: Response<seq<ReportRow>>)
    ensures session.None? ==> r == Failure(401, UNAUTHORIZED)
    ensures session.Some? ==>
              var projects := Listed(db.projects, ProjectWhereFor(session.value, ProjectQuery(q.fiscalYear, q.departmentId, None)));
              && r.Success? && r.status == 200 && |r.data| == |projects|
              && forall i :: 0 <= i < |projects| ==> r.data[i] == RowOf(ProjectViewOf(db, projects[i]))
  {
    if session.None? {
      return Failure(401, UNAUTHORIZED);
    }
    var w := BuildReportWhere(session.value, q);
    var projects := Listed(db.projects, w);
    var views := seq(|projects|, k requires 0 <= k < |projects| reads db => ProjectViewOf(db, projects[k]));
    var rows := BuildReport(views);
    r := Success(200, rows);
  }
}
