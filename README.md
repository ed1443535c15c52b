# projectmanage: a verified model of the access rules, validators and request handlers

`projectmanage` is a project-management web application for a Thai public
organisation. Departments own projects. A project is split into milestones
(งวด). Milestones carry documents and compliance records, and every
administrative action writes a row to an activity log. Users sign in
through an identity provider. Each user has one of five roles: `ADMIN`,
`DEPT_LEAD`, `PM`, `MEMBER` and `READONLY`. A shared document store holds
one folder tree per project: fiscal year, then department, then project,
then one folder per milestone.

This Dafny project models the parts of the application that make
decisions. The database is a `Database` object holding one sequence per
table and a key counter. The document store is a `DriveStore` object
holding its folders and a fresh-id counter.

The modules are:

- **Common**: shared types.
  - `Option`, the roles, the signed-in user, and the JSON response shape (`Success(status, data)` / `Failure(status, error)`).
  - Sequence helpers, and decimal rendering with its read-back.
- **Db**: the tables and their invariants (unique keys; unique department codes, project codes and e-mails). Also the append-only activity log.
- **Rbac**: the role checks `hasRole`, `isAdmin`, `isAdminOrDeptLead`, `canManageProject`, `canViewProject`, `canEditProject` and `canUploadDocument`.
- **Validation**: the validators.
  - The create-project and create-milestone schemas.
  - The status enumerations.
  - The date-range checks and the weight-sum check.
  - `sanitizeFolderName`.
- **Drive**: folder lookup in the document store.
  - Lookup by name and parent, including how the search query quotes the name.
  - Find-or-create (`ensureFolder`).
  - Provisioning of the four-level folder tree with its index-to-folder map.
- **ProjectsRoute**: `GET /api/projects` (scoped listing) and `POST /api/projects`.
  - POST gates on role, validates, checks for a duplicate code and checks the date range.
  - It then inserts the project and its milestones and, best-effort, creates the folders and writes their ids back.
  - Finally it writes one log row.
- **ProgressReport**: `GET /api/reports/progress`, with per-project progress, document totals and compliance counts.
- **ActivityLogs**: `GET /api/activity-logs`, with the department-lead scope, the filters and pagination.
- **UsersRoute**: `GET /api/users` (scoped listing) and `PATCH /api/users` (partial update plus a log row).
- **DepartmentsRoute**: `GET /api/departments` and `POST /api/departments` (unique code plus a log row).
- **ProjectWizard**: the milestone list editing and the step checks of the new-project form.
- **AdminReports**: the summary cards of the admin report page and its CSV export. The CSV export comes with a reader, so that the exported text can be read back.
  - The export is modelled twice: as the page writes its lines, and as corrected, with the code quoted as well and quotes doubled (see Findings).
- **Auth**: first-login provisioning on sign-in and the enrichment of the session from the stored user.

Modelling conventions:

- Keys, of database rows and of store folders, are natural numbers drawn from a counter.
- A query parameter that is absent or empty is `None`.
- Dates are integers (timestamps).
- `Math.round` of a non-negative ratio is integer round-half-up.
- Tables keep insertion order, so "newest first" is the reverse of a table.

## Model

| member | source | states |
|---|---|---|
| Rbac.HasRole | src/lib/rbac.ts:7-10 | false without a session; otherwise true exactly when the role is in the allowed list |
| Rbac.IsAdmin | src/lib/rbac.ts:15-17 | true exactly for a session whose role is ADMIN |
| Rbac.IsAdminOrDeptLead | src/lib/rbac.ts:22-24 | true exactly for ADMIN and DEPT_LEAD sessions |
| Rbac.CanManageProject | src/lib/rbac.ts:29-31 | true exactly for ADMIN, DEPT_LEAD and PM; MEMBER and READONLY never |
| Rbac.CanViewProject | src/lib/rbac.ts:36-65 | ADMIN always; DEPT_LEAD iff same department; PM/MEMBER iff owner or same department; READONLY and no session never |
| Rbac.CanEditProject | src/lib/rbac.ts:70-93 | ADMIN always; DEPT_LEAD iff same department; PM iff owner; MEMBER, READONLY and no session never |
| Rbac.CanUploadDocument | src/lib/rbac.ts:98-117 | READONLY and no session never; ADMIN always; other roles iff same department or owner |
| Rbac.EditImpliesViewAndUpload | src/lib/rbac.ts:36-117 | whoever may edit a project may also view it and upload to it |
| Rbac.ViewDoesNotImplyEdit | src/lib/rbac.ts:54-62 | a PM in the project's department who does not own it may view but not edit |
| Validation.ParseProjectStatus | src/lib/validation.ts:36 | accepts exactly the four project status names, each to the status it names |
| Validation.ParseMilestoneStatus | src/lib/validation.ts:58-60 | accepts exactly open/in_progress/completed/overdue |
| Validation.ParseComplianceStatus | src/lib/validation.ts:65-69 | accepts exactly full/missing/na |
| Validation.StatusNamesRoundTrip | src/lib/validation.ts:36-67 | parsing the name of any status gives back that status |
| Validation.ParseCreateProject | src/lib/validation.ts:6-28 | accepts exactly the payloads satisfying the schema; the accepted payload has createDriveFolders defaulted to true |
| Validation.ParsedPayloadBounds | src/lib/validation.ts:6-28 | an accepted payload has code length 1..50, name length 1..255, fiscal year 2000..2100, at least one milestone, each with index ≥ 1 and weight 0..100 when present |
| Validation.ParseCreateMilestone | src/lib/validation.ts:46-53 | accepts exactly the valid milestones; createDriveFolder defaults to true |
| Validation.InRangeIsTwoDateRanges | src/lib/validation.ts:74-95 | a milestone date is in the project range iff start ≤ date and date ≤ end; an in-range date implies a valid project range |
| Validation.WeightSumAppend | src/lib/validation.ts:100-103 | the weight sum of a concatenation is the sum of the weight sums |
| Validation.MissingWeightsCountZero | src/lib/validation.ts:100-103 | the empty list is accepted; missing weights count as zero; appending a missing weight does not change the verdict |
| Validation.WeightPrefixAccepted | src/lib/validation.ts:100-103 | with non-negative weights, every prefix of an accepted list is accepted |
| Validation.WeightSumNonNegative | src/lib/validation.ts:100-103 | non-negative weights have a non-negative sum |
| Validation.ReplaceForbidden | src/lib/validation.ts:110 | same length; each of `< > : " / \ \| ? *` becomes `-`, every other character is kept |
| Validation.CollapseSpace | src/lib/validation.ts:111 | no longer than the input; every whitespace character left is a plain space, and every other character comes from the input; no two adjacent whitespace characters remain; the first character is whitespace iff the input's is (that each run becomes one space in the same place is `Validation.CollapseSpaceSound`) |
| Validation.CollapseKeepsNonSpace | src/lib/validation.ts:111 | collapsing keeps the non-whitespace characters, all of them, in order |
| Validation.CollapseKeepsLayout | src/lib/validation.ts:111 | collapsing keeps whitespace between exactly the same pairs of characters and before the first |
| Validation.CollapseKeepsEnd | src/lib/validation.ts:111 | collapsing leaves whitespace at the end exactly when the input has it there |
| Validation.CollapseSpaceSound | src/lib/validation.ts:111 | the result is the input with each whitespace run written as one plain space: same characters in order, runs in the same places, at the front and end exactly when the input has them, never two in a row |
| Validation.TrimStart | src/lib/validation.ts:112 | a suffix of the input not starting with whitespace; every dropped character is whitespace |
| Validation.TrimEnd | src/lib/validation.ts:112 | a prefix of the input not ending with whitespace; every dropped character is whitespace |
| Validation.CollapsedIsWellSpaced | src/lib/validation.ts:110-111 | after replacement and collapsing, no forbidden character and no adjacent whitespace remain |
| Validation.SanitizeFolderName | src/lib/validation.ts:108-114 | at most 255 characters, no longer than the input, no forbidden character, no two adjacent whitespace characters, no leading whitespace; its non-whitespace characters are, in order, a prefix of those of the name with forbidden characters replaced, and all of them when the result is shorter than 255; likewise the places of its whitespace between those characters are a prefix of the name's, and all of them, with no whitespace at the end, when the result is shorter than 255; and exactly: the result is the first 255 characters (or all, when shorter) of `Render` of the name's layout, that is of its non-whitespace characters with one plain space wherever whitespace separated two of them and none at either end |
| Validation.StagesRender | src/lib/validation.ts:110-112 | on a text with no forbidden character, as replacement leaves it, collapsing and trimming give exactly the rendering of its layout: its non-whitespace characters in order, one plain space between those that whitespace separated, nothing at either end |
| Validation.RenderTrimmed | src/lib/validation.ts:111-112 | a text with no forbidden character, single plain spaces only and no whitespace at either end is the rendering of its own layout |
| Db.Database.AppendLog | src/app/api/projects/route.ts:177-185 | appends exactly one log row with the next key; no other table changes |
| Drive.Find | src/lib/drive.ts:25-46 | returns the id of a folder with exactly that name under that parent, or None when there is none |
| Drive.FindStable | src/lib/drive.ts:25-46 | adding folders never changes a lookup that already succeeds |
| Drive.FindCreated | src/lib/drive.ts:61-70 | once a matching folder is created, the lookup finds it |
| Drive.WalkStable | src/lib/drive.ts:77-113 | adding folders never changes a path that already resolves |
| Drive.QuotesOnlyEscapesQuotes | src/lib/drive.ts:31 | in the query literal as written, every `'` of the name is preceded by a backslash |
| Drive.LiteralEscapesQuotes | src/lib/drive.ts:31 | the corrected escaping also puts a backslash before every `'` |
| Drive.EscapeLiteralRoundTrip | src/lib/drive.ts:31 | the corrected literal, followed by its closing quote, reads back as exactly the name, for every name |
| Drive.EscapingsAgreeWithoutBackslash | src/lib/drive.ts:31 | for names without a backslash, the corrected escaping is the escaping as written |
| Drive.TrailingBackslashUnclosed | src/lib/drive.ts:31 | as written, the name `a\` yields a literal that does not close; the corrected escaping reads back `a\` |
| Drive.FolderQueryAsksForName | src/lib/drive.ts:30-37 | for a name without a backslash, the search query (quotes escaped as written) asks for exactly that name |
| Drive.ProjectPath | src/lib/drive.ts:91-98 | the path has three levels: `FY{year}`, the department, `{code} - {name}` |
| Drive.FolderNames | src/lib/drive.ts:103 | one `งวดที่ {n} - {name}` folder name per milestone, in order |
| Drive.LastPosition | src/lib/drive.ts:109 | finds the last milestone with a given index, or None when the index does not occur |
| Drive.RecordedStep | src/lib/drive.ts:101-110 | one loop iteration keeps the index-to-folder map in step with the folders found |
| Drive.RecordedLookup | src/lib/drive.ts:109 | the map entry of an index is the folder of the last milestone with that index |
| Drive.DriveStore.EnsureFolder | src/lib/drive.ts:51-71 | returns the existing matching folder and changes nothing; otherwise creates exactly one folder with that name and parent and returns its id |
| Drive.DriveStore.EnsureProjectFolder | src/lib/drive.ts:90-98 | resolves the three-level project path; at most three folders are added, each live and named after a level of the path; when the path already resolves, nothing changes |
| Drive.DriveStore.EnsureMilestoneFolders | src/lib/drive.ts:100-110 | after the loop, each index maps to the folder of the last milestone with that index; at most one folder per milestone is added, each live, under the project folder and named after a milestone; nothing new when all folders exist |
| Drive.DriveStore.CreateProjectFolderStructure | src/lib/drive.ts:77-113 | the project path resolves to the returned folder; every milestone folder exists under it; the map is recorded; at most 3 + one per milestone folders are added, each live and named after a path level or a milestone; repeating the call creates nothing and returns the same ids |
| Drive.WalkSteps | src/lib/drive.ts:90-98 | a resolved path resolves level by level, each folder under the previous one |
| Drive.ProjectChainResolves | src/lib/drive.ts:90-98 | three nested lookups that succeed make the path resolve to the last one |
| ProjectsRoute.BuildProjectWhere | src/app/api/projects/route.ts:26-37 | the filter is `department_id` when given, else the caller's department for a non-admin, plus the fiscal year and status parameters |
| ProjectsRoute.ListedIffMatches | src/app/api/projects/route.ts:39-62 | a project is listed iff it matches every filter |
| ProjectsRoute.ListScopedToOwnDepartment | src/app/api/projects/route.ts:30-32 | without `department_id`, a non-admin with a department sees only that department's projects |
| ProjectsRoute.DepartmentParameterWidensScope | src/app/api/projects/route.ts:36 | a department lead passing another department's key lists projects they may not view |
| ProjectsRoute.ListProjects | src/app/api/projects/route.ts:12-65 | 401 without a session, otherwise 200 with exactly the matching projects |
| ProjectsRoute.NewMilestones | src/app/api/projects/route.ts:126-133 | one `open` milestone per input, in order, with consecutive keys |
| ProjectsRoute.InsertProject | src/app/api/projects/route.ts:113-140 | appends one project and its milestones with fresh keys; no other table changes |
| ProjectsRoute.WriteBackMilestoneFolders | src/app/api/projects/route.ts:161-169 | each new milestone gets the folder mapped to its index, and only when the map has an entry; earlier rows and other tables are unchanged |
| ProjectsRoute.AttachFolderAgrees | src/app/api/projects/route.ts:161-169 | writing back from the map gives each milestone the folder of the last input with its index |
| ProjectsRoute.SetProjectFolder | src/app/api/projects/route.ts:155-158 | only the new project's folder id changes |
| ProjectsRoute.ProvisionFolders | src/app/api/projects/route.ts:143-169 | the folder tree exists; the project row records its folder; each milestone row records its own folder |
| ProjectsRoute.InsertedRowsCreated | src/app/api/projects/route.ts:126-133 | freshly inserted milestones, before the folder write-back, are the promised rows with no folder |
| ProjectsRoute.CreateAccepted | src/app/api/projects/route.ts:113-187 | an accepted payload produces one `active` project with the chosen or calling owner, its `open` milestones, folders only when requested and the store is reachable, and exactly one CREATE_PROJECT log row |
| ProjectsRoute.CreateProject | src/app/api/projects/route.ts:70-201 | 403 for roles that cannot manage projects; 400 on an invalid payload, then on a duplicate code (checked before the dates), then on an inverted date range, then, through the error handler, on a missing department or owner, each writing nothing; otherwise 201 with the new key and the rows above |
| ProgressReport.BuildReportWhere | src/app/api/reports/progress/route.ts:24-32 | the same department rule as the project listing, with `department_id` overriding |
| ProgressReport.CountCompleted | src/app/api/reports/progress/route.ts:72-75 | at most the milestone count; equal to it iff all are completed; zero iff none is |
| ProgressReport.Progress | src/app/api/reports/progress/route.ts:76-79 | 0 without milestones; otherwise round-half-up of 100·completed/total, which lies in 0..100 |
| ProgressReport.ProgressBounds | src/app/api/reports/progress/route.ts:76-79 | the rounded percentage is in 0..100, is 0 when nothing is completed and 100 when everything is |
| ProgressReport.TotalDocumentsAppend | src/app/api/reports/progress/route.ts:81-84 | the document total of a concatenation is the sum of the totals |
| ProgressReport.TotalDocumentsCoversEach | src/app/api/reports/progress/route.ts:81-84 | each milestone's document count is at most the total |
| ProgressReport.TallyBound | src/app/api/reports/progress/route.ts:86-96 | full + missing + na ≤ the number of records, with equality iff every status is one of the three |
| ProgressReport.TallyCompliance | src/app/api/reports/progress/route.ts:86-96 | the counter loop computes one count per enumerated status over all records |
| ProgressReport.OwnerLabel | src/app/api/reports/progress/route.ts:103 | `-` when the project has no owner name, otherwise the name |
| ProgressReport.RowBounds | src/app/api/reports/progress/route.ts:71-113 | in every entry, completed ≤ total, progress in 0..100 (0 without milestones), and compliance counts bounded by the records |
| ProgressReport.BuildReport | src/app/api/reports/progress/route.ts:71-114 | one entry per project, in the same order |
| ProgressReport.GetProgressReport | src/app/api/reports/progress/route.ts:10-116 | 401 without a session; otherwise one entry per scoped project, in order |
| ActivityLogs.BuildLogWhere | src/app/api/activity-logs/route.ts:27-48 | a department scope only for department leads; the action, entity type and actor filters as given |
| ActivityLogs.DeptLeadScope | src/app/api/activity-logs/route.ts:30-43 | for a lead with a department, an entry is seen iff its actor is in that department or it concerns a project, and the filters hold |
| ActivityLogs.ProjectEntriesPassEveryScope | src/app/api/activity-logs/route.ts:38-41 | project entries pass every department scope |
| ActivityLogs.UnscopedSeesAll | src/app/api/activity-logs/route.ts:27-30 | with no scope and no filter, every entry is seen, newest first |
| ActivityLogs.FiltersNarrow | src/app/api/activity-logs/route.ts:46-48 | the filters only remove entries from what the scope alone admits |
| ActivityLogs.Pages | src/app/api/activity-logs/route.ts:77 | no page count when the limit is 0 (a division by zero); for a negative limit the ceiling of the negative quotient: pages·limit ≤ total < (pages−1)·limit |
| ActivityLogs.PagesBounds | src/app/api/activity-logs/route.ts:77 | for a limit ≥ 1, pages·limit ≥ total, and (pages−1)·limit < total when there are entries |
| ActivityLogs.Window | src/app/api/activity-logs/route.ts:64-65 | skip then take: at most `take` entries, the ones at positions skip, skip+1, … |
| ActivityLogs.WindowFromEnd | src/app/api/activity-logs/route.ts:64-65 | a negative take: at most `count` entries, the consecutive ones ending `skip` entries before the last, in list order |
| ActivityLogs.EveryEntryOnAPage | src/app/api/activity-logs/route.ts:64-77 | every matching entry appears on exactly the page its position says, and that page is within the page count |
| ActivityLogs.GetActivityLogs | src/app/api/activity-logs/route.ts:10-90 | 403 for other roles; page 1 and limit 50 by default; a negative skip is a 500; otherwise the window of the matching entries, newest first (counted from the oldest when the limit is negative), with the total and page count |
| UsersRoute.BuildUserWhere | src/app/api/users/route.ts:23-32 | `department_id` when given, else the lead's department; the role filter as given |
| UsersRoute.ListUsers | src/app/api/users/route.ts:10-55 | 403 for other roles; otherwise exactly the users matching the filter |
| UsersRoute.LeadSeesOwnDepartment | src/app/api/users/route.ts:26-28 | without a parameter, a lead sees only users of their own department |
| UsersRoute.AdminSeesEveryone | src/app/api/users/route.ts:23-32 | with no filter, every user is listed |
| UsersRoute.BuildUserUpdate | src/app/api/users/route.ts:83-86 | the update holds exactly the supplied fields |
| UsersRoute.ApplyPatch | src/app/api/users/route.ts:88-94 | supplied fields are replaced, a supplied null department clears it, all other fields stay |
| UsersRoute.EmptyPatchChangesNothing | src/app/api/users/route.ts:83-94 | an update with no field leaves the user as it is |
| UsersRoute.PatchIdempotent | src/app/api/users/route.ts:83-94 | applying the same update twice is applying it once |
| UsersRoute.PatchesCompose | src/app/api/users/route.ts:83-94 | two successive updates equal one update with the later value of each field |
| UsersRoute.UserIndex | src/app/api/users/route.ts:89 | finds the row with the given key exactly when one exists |
| UsersRoute.PatchKeepsUsersOk | src/app/api/users/route.ts:88-94 | an update keeps keys and e-mails unique |
| UsersRoute.PatchUser | src/app/api/users/route.ts:60-118 | succeeds exactly when the caller is an admin, userId is given and the database accepts the update; 403 for non-admins, 400 without userId, 500 when no such user or no such department, each changing nothing; otherwise 200 with the updated row, only that user changes and exactly one UPDATE_USER log row with the applied fields is added |
| UsersRoute.UpdatedRowCarriesPatch | src/app/api/users/route.ts:88-94 | after an update the other users are unchanged and the updated one carries each supplied field |
| DepartmentsRoute.ListDepartments | src/app/api/departments/route.ts:10-32 | 401 without a session, otherwise every department |
| DepartmentsRoute.InsertKeepsDepartmentsOk | src/app/api/departments/route.ts:61-77 | inserting a department whose code is new keeps codes pairwise distinct |
| DepartmentsRoute.CreateDepartment | src/app/api/departments/route.ts:37-101 | 403 unless ADMIN or DEPT_LEAD; 400 on a missing field; DUPLICATE_CODE on an existing code, each writing nothing; otherwise 201 with exactly one new department and one CREATE_DEPARTMENT log row |
| DepartmentsRoute.CodeIdentifiesDepartment | src/app/api/departments/route.ts:61-77 | two departments with the same code are the same row |
| ProjectWizard.InitialMilestones | src/app/projects/new/page.tsx:44-52 | one milestone, index 1, weight 0 |
| ProjectWizard.AddMilestone | src/app/projects/new/page.tsx:93-104 | appends exactly one blank milestone with index old length + 1; earlier entries unchanged |
| ProjectWizard.AddKeepsNumbering | src/app/projects/new/page.tsx:93-104 | adding keeps indices exactly 1..n |
| ProjectWizard.ApplyEdit | src/app/projects/new/page.tsx:89 | only the named field changes |
| ProjectWizard.ChangeMilestone | src/app/projects/new/page.tsx:87-91 | only the entry at the index changes, and only in the named field |
| ProjectWizard.ChangeKeepsNumbering | src/app/projects/new/page.tsx:87-91 | field edits keep indices exactly 1..n |
| ProjectWizard.Without | src/app/projects/new/page.tsx:108 | drops exactly the entry at the index, keeping the others in order; an out-of-range index drops nothing |
| ProjectWizard.Removed | src/app/projects/new/page.tsx:106-113 | a one-entry list is kept; otherwise the entry is dropped and the rest renumbered |
| ProjectWizard.RemoveKeepsNumbering | src/app/projects/new/page.tsx:106-113 | removing keeps indices exactly 1..n and never empties the list |
| ProjectWizard.RemoveMilestone | src/app/projects/new/page.tsx:106-113 | the filter-then-renumber loop computes `Removed` |
| ProjectWizard.NumberedIndicesDistinct | src/app/projects/new/page.tsx:87-113 | numbered lists have distinct indices, all at least 1 |
| ProjectWizard.ValidateStep1 | src/app/projects/new/page.tsx:115-123 | true iff code, name, department, start date and end date are all non-empty |
| ProjectWizard.ValidateStep2 | src/app/projects/new/page.tsx:125-127 | true iff every milestone has a name and a due date |
| ProjectWizard.BlankRowFailsStep2 | src/app/projects/new/page.tsx:93-104 | a freshly added blank milestone makes step 2 fail |
| ProjectWizard.SubmitOwner | src/app/projects/new/page.tsx:135 | the chosen owner, else the session user |
| ProjectWizard.SubmittedOwnerStored | src/app/projects/new/page.tsx:135 | the owner the project gets is the chosen one or the caller, whether or not the form filled in the caller |
| ProjectWizard.DefaultFiscalYear | src/app/projects/new/page.tsx:36 | the pre-filled fiscal year is the calendar year plus 543 |
| ProjectWizard.PrefilledFiscalYearRefused | src/app/projects/new/page.tsx:36 | from calendar year 1558 on, the pre-filled Buddhist-era year fails the 2000..2100 bound of the create schema |
| AdminReports.CountStatus | src/app/admin/reports/page.tsx:146-147 | at most the number of rows |
| AdminReports.TwoStatusesBounded | src/app/admin/reports/page.tsx:146-147 | counts of two different statuses add up to at most the row count |
| AdminReports.ProgressSumBounds | src/app/admin/reports/page.tsx:148-150 | with every progress in 0..100, the sum is in 0..100·rows |
| AdminReports.RoundedMean | src/app/admin/reports/page.tsx:148-150 | round-half-up of sum/n |
| AdminReports.RoundedMeanBounds | src/app/admin/reports/page.tsx:148-150 | the mean of values in 0..100 is in 0..100 |
| AdminReports.CalculateSummary | src/app/admin/reports/page.tsx:142-153 | all zeros on no rows; total is the row count; completed and in-progress are the counts of those statuses, and their sum ≤ total; the average is the mean progress rounded half up (2·n·avg ≤ 2·sum + n < 2·n·(avg+1)); in 0..100 when every progress is |
| AdminReports.SummaryOfProgressReport | src/app/admin/reports/page.tsx:142-153 | the average over a progress report is in 0..100 |
| AdminReports.QuotedRoundTrip | src/app/admin/reports/page.tsx:101-103 | a quoted field with its quotes doubled reads back as its text |
| AdminReports.PlainRoundTrip | src/app/admin/reports/page.tsx:100-111 | a plain field without comma, quote or line break reads back as its text |
| AdminReports.FieldRoundTrip | src/app/admin/reports/page.tsx:99-112 | every safe field reads back as its text |
| AdminReports.RecordRoundTrip | src/app/admin/reports/page.tsx:99-112 | a comma-joined line of safe fields reads back as the list of their texts |
| AdminReports.DocumentRoundTrip | src/app/admin/reports/page.tsx:96-114 | newline-joined lines read back line by line |
| AdminReports.HeaderSafe | src/app/admin/reports/page.tsx:81-94 | the header has 12 titles, none needing quotes |
| AdminReports.RowFieldsSound | src/app/admin/reports/page.tsx:99-112 | each line has 12 fields carrying the row's values; with the code quoted as well as name, department and owner, and quotes doubled inside them, every field is safe |
| AdminReports.Records | src/app/admin/reports/page.tsx:96-114 | the header line first, then one line per row, in order |
| AdminReports.ExportCsv | src/app/admin/reports/page.tsx:75-116 | the corrected export (code quoted too, quotes doubled): nothing is exported exactly when there are no rows |
| AdminReports.RecordsReadBack | src/app/admin/reports/page.tsx:96-114 | the exported document reads back as the header and one 12-field line per row, in order |
| AdminReports.ExportReadsBack | src/app/admin/reports/page.tsx:75-116 | the export is the byte-order mark then a document reading back as the 12 titles and each row's 12 values |
| AdminReports.QuoteBreaksRecord | src/app/admin/reports/page.tsx:101 | as written, a quoted field containing `"` makes the line unreadable |
| AdminReports.QuoteInNameBreaksLine | src/app/admin/reports/page.tsx:99-112 | as written, a project named `a"b` makes its line unreadable |
| AdminReports.QuotedLineReadsBack | src/app/admin/reports/page.tsx:99-112 | with the code quoted too and quotes doubled, every row's line reads back as its 12 values |
| AdminReports.CodeWithCommaBreaksLine | src/app/admin/reports/page.tsx:100 | written as the page writes it, a line whose project code is `a,b` does not read back as the row's values |
| Auth.UserByEmail | src/lib/auth-options.ts:43-45 | finds a user with the e-mail exactly when one exists |
| Auth.ProvisionedName | src/lib/auth-options.ts:52 | the reported name, or `Unknown` when it is missing or empty |
| Auth.NewUser | src/lib/auth-options.ts:49-57 | the new row is READONLY, active, in no department, with the reported e-mail and image |
| Auth.InsertUserKeepsUsersOk | src/lib/auth-options.ts:48-58 | inserting a user with an unused e-mail keeps keys and e-mails unique |
| Auth.SignIn | src/lib/auth-options.ts:41-61 | always allows; a known e-mail changes nothing; an unknown one adds exactly one READONLY user; afterwards the e-mail finds a user |
| Auth.NewUserFound | src/lib/auth-options.ts:48-58 | after a first sign-in the e-mail finds the new row |
| Auth.EmailIdentifiesUser | src/lib/auth-options.ts:43-45 | with unique e-mails, a row's e-mail finds that row |
| Auth.DepartmentOf | src/lib/auth-options.ts:28 | the department row with the user's department key, present whenever that department exists |
| Auth.Enriched | src/lib/auth-options.ts:32-36 | id, role, departmentId, department and isActive come from the stored user; the fields from the provider are kept |
| Auth.SessionCallback | src/lib/auth-options.ts:23-40 | the five fields are copied when the session has a user and the e-mail finds one; otherwise the session is untouched |
| Auth.Authorised | src/lib/auth-options.ts:31-37 | the user the model's handlers act for: the key, role and department the session callback copied from the stored user; a record without a key and role (no stored user was found) is taken as no user |
| Auth.EnrichIdempotent | src/lib/auth-options.ts:32-36 | enriching twice is enriching once |
| Auth.EnrichedSessionIsStoredUser | src/lib/auth-options.ts:32-36 | an enriched session acts as the stored user, with the stored role and department |
| Auth.FirstSessionIsReadOnly | src/lib/auth-options.ts:23-58 | a first sign-in followed by the session callback gives a READONLY, active session in no department |
| Common.DecimalRoundTrip | src/app/admin/reports/page.tsx:104-111 | the decimal rendering of a number reads back as that number |

## Left out

- Rendering, navigation, alerts and the browser download in every page: these are user interface.
  - The exported text is modelled; the `Blob` and the link click are not.
- Dashboard counts, the templates and profile pages, and the case-insensitive search boxes: these are UI state or mock data, and the search boxes rely on Unicode case folding.
- Prisma shaping (`include`, `_count`, `select`):
  - Responses return the stored rows, without the related rows `include` adds. `ProjectsRoute.CreateProject` returns only the new key (below).
  - Ordering by name is not modelled; ordering by creation time is the reverse of insertion order.
- The next-auth JWT and adapter mechanics, the middleware, `/api/me`, the seed script and the type declarations.
- `getDriveClient`, `uploadFileToDrive` and `setFolderPermissions`: foreign Google API calls and credentials.
  - Whether the document store answers during project creation is the parameter `storeReachable` of `ProjectsRoute.CreateProject`.
  - The root folder from the environment is the parameter `root`.
- Floating point:
  - The budget is carried as an opaque value.
  - `parseInt` and `parseFloat` never produce NaN here: parameters arrive as integers or `None`.
  - `Math.round` is integer round-half-up on non-negative ratios.
- Date parsing: dates are integer timestamps.
- Values outside the declared types, such as an unknown role string: roles and statuses are enumerations.
- The zod library itself: schemas are predicates on typed records.
- Concurrency: `Promise.all`, and races between simultaneous creations producing duplicate folders. The model is sequential.
- ActivityLogs.GetActivityLogs: a negative `skip`, which the database client rejects, is the route's 500 response. A negative `take` is read as the database client reads it, counting from the oldest entry (`ActivityLogs.WindowFromEnd`).
  - A zero limit gives no page count.
- ProjectWizard.ChangeMilestone: requires an index inside the list, as the form only calls it for displayed rows.
  - The in-place aliasing of the renumbering loop in removeMilestone is not modelled: the model renumbers a fresh copy.
- Validation.ParseProjectStatus: of the update-project schema only the status field is modelled. The update route is not part of this model.
- ProgressReport.GetProgressReport: the department and owner of each project are looked up by key; a dangling key yields the empty name, not an exception.
- Drive.Find: the first matching folder in creation order stands for the store's first search result. Trashed folders are skipped, as the query's `trashed=false` asks.
- Drive.Find: compares names directly. This is what the query asks for when the name has no backslash (`Drive.FolderQueryAsksForName`). For a name with a backslash, the store's reading of the malformed query is not modelled.
- AdminReports.RowFieldsSound: states safety for the corrected export, which quotes the code as well and doubles quotes. The page's own line is `AdminReports.RowFieldsAsWritten`, and the two Findings rows show where they differ.
- AdminReports.QuotedLineReadsBack: the same corrected export. The page's own line does not read back for codes or names holding `,`, `"` or a line break (`AdminReports.CodeWithCommaBreaksLine`, `AdminReports.QuoteInNameBreaksLine`).
- ProjectsRoute.CreateProject: a store failure part-way through is not modelled. The store is either reachable for the whole Drive step or not at all. In the code, a failure after some `ensureFolder` calls leaves those folders created. A failure after `project.update` leaves the project's folder id written but only some milestone ids (src/app/api/projects/route.ts:143-170).
- ProjectsRoute.CreateProject: the 201 response carries only the new project's key. In the code it carries the project row as inserted, with its department and milestones and before the folder ids are written back (src/app/api/projects/route.ts:187).
- ProjectsRoute.CreateAccepted: like `ProjectsRoute.CreateProject`, it promises either every folder id written or none, with nothing in between.
- Auth.Authorised: a session whose e-mail finds no stored user is modelled as no user. In the code it stays signed in with no id, role or department, so the handlers that check only for a session go on. For example, the project listing then applies no role filter (src/app/api/projects/route.ts:14-30).
- Validation.ParseCreateProject: string lengths are counted in Unicode characters, not in the UTF-16 code units JavaScript counts. A code of 50 emoji is accepted by the model but refused by the schema.
- Validation.SanitizeFolderName: cuts at 255 characters, not 255 code units, so it never splits a surrogate pair as `substring(0, 255)` can.

The following are places where the code and the documented intent differ. The model follows the code.

- A `department_id` parameter replaces the role restriction in the project, progress-report and user listings, rather than narrowing it (`ProjectsRoute.DepartmentParameterWidensScope`).
- Department creation is open to department leads as well as administrators, although the route is documented as admin-only.
- A department lead sees every activity-log entry about a project, whichever department it belongs to (`ActivityLogs.ProjectEntriesPassEveryScope`).
- The new-project form pre-fills the fiscal year as the Buddhist-era year, which the create schema's 2000..2100 range refuses (`ProjectWizard.PrefilledFiscalYearRefused`).

## Findings

| source | as written | input that shows it | evidently intended | confidence | as-written member | corrected member |
|---|---|---|---|---|---|---|
| src/lib/drive.ts:31 | the folder name is put in the search query with `'` escaped but `\` left as it is | a folder named `a\`: the literal becomes `'a\'`, and its closing quote reads as an escaped quote | escape `\` as well as `'`, so that every name reads back from the query | not executed | Drive.TrailingBackslashUnclosed | Drive.EscapeLiteralRoundTrip |
| src/app/admin/reports/page.tsx:99-112 | project name, department and owner are wrapped in `"` without doubling the quotes they contain | a project named `a"b`: its line cannot be read back as 12 fields | double every `"` inside a quoted field | not executed | AdminReports.QuoteInNameBreaksLine | AdminReports.ExportReadsBack |
| src/app/admin/reports/page.tsx:100 | the project code is written bare, although a code may be any 1 to 50 characters (src/lib/validation.ts:7) | a project coded `a,b`: its line reads back with `a` as the first field | quote the code like the other text columns | not executed | AdminReports.CodeWithCommaBreaksLine | AdminReports.QuotedLineReadsBack |
