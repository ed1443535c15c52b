/**
  Request schemas and small validators: the create-project and create-milestone
  schemas as predicates with zod's defaulting, the status enumerations, the
  date and weight checks, and the folder-name sanitiser.
 */
module Validation {
  import opened Common

  // ---------------------------------------------------------------------------
  // Status enumerations

  datatype ProjectStatus = Active | Completed | OnHold | Cancelled

  datatype MilestoneStatus = Open | InProgress | Done | Overdue

  datatype ComplianceStatus = Full | Missing | NotApplicable

  function ProjectStatusName(s: ProjectStatus): string {
    match s
    case Active => "active"
    case Completed => "completed"
    case OnHold => "on_hold"
    case Cancelled => "cancelled"
  }

  function MilestoneStatusName(s: MilestoneStatus): string {
    match s
    case Open => "open"
    case InProgress => "in_progress"
    case Done => "completed"
    case Overdue => "overdue"
  }

  function ComplianceStatusName(s: ComplianceStatus): string {
    match s
    case Full => "full"
    case Missing => "missing"
    case NotApplicable => "na"
  }

  /** The `status` field of the project-update schema:
      `z.enum(['active', 'completed', 'on_hold', 'cancelled'])`. */
  function ParseProjectStatus(s: string): (r: Option<ProjectStatus>)
    ensures r.Some? ==> ProjectStatusName(r.value) == s
    ensures r.None? ==> s !in {"active", "completed", "on_hold", "cancelled"}
  {
    if s == "active" then Some(Active)
    else if s == "completed" then Some(Completed)
    else if s == "on_hold" then Some(OnHold)
    else if s == "cancelled" then Some(Cancelled)
    else None
  }

  /** `z.enum(['open', 'in_progress', 'completed', 'overdue'])`. */
  function ParseMilestoneStatus(s: string): (r: Option<MilestoneStatus>)
    ensures r.Some? ==> MilestoneStatusName(r.value) == s
    ensures r.None? ==> s !in {"open", "in_progress", "completed", "overdue"}
  {
    if s == "open" then Some(Open)
    else if s == "in_progress" then Some(InProgress)
    else if s == "completed" then Some(Done)
    else if s == "overdue" then Some(Overdue)
    else None
  }

  /** `z.enum(['full', 'missing', 'na'])`. */
  function ParseComplianceStatus(s: string): (r: Option<ComplianceStatus>)
    ensures r.Some? ==> ComplianceStatusName(r.value) == s
    ensures r.None? ==> s !in {"full", "missing", "na"}
  {
    if s == "full" then Some(Full)
    else if s == "missing" then Some(Missing)
    else if s == "na" then Some(NotApplicable)
    else None
  }

  /** Every status name parses back to its status: the enumerations accept exactly their four, four and three names. */
  lemma StatusNamesRoundTrip(p: ProjectStatus, m: MilestoneStatus, c: ComplianceStatus)
    ensures ParseProjectStatus(ProjectStatusName(p)) == Some(p)
    ensures ParseMilestoneStatus(MilestoneStatusName(m)) == Some(m)
    ensures ParseComplianceStatus(ComplianceStatusName(c)) == Some(c)
  {
  }

  // ---------------------------------------------------------------------------
  // Create-project and create-milestone schemas

  /** One element of the `milestones` array (also the body of milestone creation). */
  datatype MilestoneInput = MilestoneInput(
    indexNo: int,
    name: string,
    description: Option<string>,
    dueDate: int,
    weightPercent: Option<int>)

  /** The create-project request body as received; `createDriveFolders` may be absent. */
  datatype CreateProjectBody = CreateProjectBody(
    code: string,
    name: string,
    description: Option<string>,
    departmentId: Id,
    fiscalYear: int,
    ownerId: Option<Id>,
    startDate: int,
    endDate: int,
    budget: Option<real>,
    createDriveFolders: Option<bool>,
    milestones: seq<MilestoneInput>)

  /** The body after `createProjectSchema.parse`: the default for `createDriveFolders` is applied. */
  datatype CreateProjectPayload = CreateProjectPayload(
    code: string,
    name: string,
    description: Option<string>,
    departmentId: Id,
    fiscalYear: int,
    ownerId: Option<Id>,
    startDate: int,
    endDate: int,
    budget: Option<real>,
    createDriveFolders: bool,
    milestones: seq<MilestoneInput>)

  /** Field rules shared by both schemas: `index_no` an integer of at least 1,
      `name` of 1 to 255 characters, `weight_percent` (when present) in 0..100. */
  predicate ValidMilestoneInput(m: MilestoneInput) {
    && m.indexNo >= 1
    && 1 <= |m.name| <= 255
    && (m.weightPercent.Some? ==> 0 <= m.weightPercent.value <= 100)
  }

  predicate ValidCreateProject(b: CreateProjectBody) {
    && 1 <= |b.code| <= 50
    && 1 <= |b.name| <= 255
    && 2000 <= b.fiscalYear <= 2100
    && |b.milestones| >= 1
    && forall i :: 0 <= i < |b.milestones| ==> ValidMilestoneInput(b.milestones[i])
  }

  /** `createProjectSchema.parse`: rejects a body outside the schema, and
      otherwise keeps every field and defaults `createDriveFolders` to true. */
  function ParseCreateProject(b: CreateProjectBody): (r: Option<CreateProjectPayload>)
    ensures r.Some? <==> ValidCreateProject(b)
    ensures r.Some? ==>
      && r.value.code == b.code && r.value.name == b.name
      && r.value.description == b.description && r.value.departmentId == b.departmentId
      && r.value.fiscalYear == b.fiscalYear && r.value.ownerId == b.ownerId
      && r.value.startDate == b.startDate && r.value.endDate == b.endDate
      && r.value.budget == b.budget && r.value.milestones == b.milestones
      && r.value.createDriveFolders == b.createDriveFolders.GetOr(true)
  {
    if ValidCreateProject(b) then Some(WithDefaults(b)) else None
  }

  /** The body with `createDriveFolders` defaulted to true. */
  function WithDefaults(b: CreateProjectBody): CreateProjectPayload {
    CreateProjectPayload(b.code, b.name, b.description, b.departmentId, b.fiscalYear,
      b.ownerId, b.startDate, b.endDate, b.budget, b.createDriveFolders.GetOr(true), b.milestones)
  }

  /** What a payload that passed the schema guarantees to the create-project handler. */
  lemma ParsedPayloadBounds(b: CreateProjectBody)
    requires ParseCreateProject(b).Some?
    ensures 1 <= |b.code| <= 50 && 1 <= |b.name| <= 255
    ensures 2000 <= b.fiscalYear <= 2100
    ensures |b.milestones| >= 1
    ensures forall m :: m in b.milestones ==>
              m.indexNo >= 1 && (m.weightPercent.Some? ==> 0 <= m.weightPercent.value <= 100)
  {
  }

  /** `createMilestoneSchema.parse`: the milestone fields plus `createDriveFolder`, default true. */
  function ParseCreateMilestone(m: MilestoneInput, createDriveFolder: Option<bool>): (r: Option<(MilestoneInput, bool)>)
    ensures r.Some? <==> ValidMilestoneInput(m)
    ensures r.Some? ==> r.value.0 == m && r.value.1 == createDriveFolder.GetOr(true)
  {
    if ValidMilestoneInput(m) then Some((m, createDriveFolder.GetOr(true))) else None
  }

  // ---------------------------------------------------------------------------
  // Date and weight checks (dates are timestamps)

  predicate ValidateDateRange(startDate: int, endDate: int) {
    startDate <= endDate
  }

  predicate ValidateMilestoneInProjectRange(milestoneDate: int, projectStart: int, projectEnd: int) {
    milestoneDate >= projectStart && milestoneDate <= projectEnd
  }

  /** A milestone date lies in the project's range exactly when both the
      start-to-milestone and the milestone-to-end ranges are valid; then the
      project's own range is valid too. */
  lemma InRangeIsTwoDateRanges(m: int, s: int, e: int)
    ensures ValidateMilestoneInProjectRange(m, s, e) <==> ValidateDateRange(s, m) && ValidateDateRange(m, e)
    ensures ValidateMilestoneInProjectRange(m, s, e) ==> ValidateDateRange(s, e)
  {
  }

  /** `w || 0`: a missing weight counts as zero. */
  function WeightOrZero(w: Option<int>): int {
    w.GetOr(0)
  }

  /** The `reduce` of `validateTotalWeight`. */
  function WeightSum(ws: seq<Option<int>>): int {
    if ws == [] then 0 else WeightOrZero(ws[0]) + WeightSum(ws[1..])
  }

  predicate ValidateTotalWeight(ws: seq<Option<int>>) {
    WeightSum(ws) <= 100
  }

  lemma {:induction false} WeightSumAppend(a: seq<Option<int>>, b: seq<Option<int>>)
    ensures WeightSum(a + b) == WeightSum(a) + WeightSum(b)
  {
    if a == [] {
      assert a + b == b;
    } else {
      assert (a + b)[1..] == a[1..] + b;
      WeightSumAppend(a[1..], b);
    }
  }

  /** Missing weights count as zero: the empty list passes, a list of absent
      weights passes, and appending an absent weight changes nothing. */
  lemma {:induction false} MissingWeightsCountZero(ws: seq<Option<int>>)
    ensures ValidateTotalWeight([])
    ensures (forall i :: 0 <= i < |ws| ==> ws[i].None?) ==> WeightSum(ws) == 0
    ensures ValidateTotalWeight(ws + [None]) <==> ValidateTotalWeight(ws)
  {
    WeightSumAppend(ws, [None]);
    if ws != [] {
      MissingWeightsCountZero(ws[1..]);
    }
  }

  /** With non-negative weights (as the schema demands), dropping milestones
      from the tail of an accepted list keeps it accepted. */
  lemma WeightPrefixAccepted(ws: seq<Option<int>>, k: nat)
    requires k <= |ws|
    requires forall i :: 0 <= i < |ws| ==> WeightOrZero(ws[i]) >= 0
    requires ValidateTotalWeight(ws)
    ensures ValidateTotalWeight(ws[..k])
  {
    assert ws == ws[..k] + ws[k..];
    WeightSumAppend(ws[..k], ws[k..]);
    WeightSumNonNegative(ws[k..]);
  }

  lemma {:induction false} WeightSumNonNegative(ws: seq<Option<int>>)
    requires forall i :: 0 <= i < |ws| ==> WeightOrZero(ws[i]) >= 0
    ensures WeightSum(ws) >= 0
  {
    if ws != [] {
      WeightSumNonNegative(ws[1..]);
    }
  }

  // ---------------------------------------------------------------------------
  // sanitizeFolderName

  /** The characters of JavaScript's `\s` class, which `trim` removes as well. */
  predicate IsSpace(c: char) {
    var n := c as int;
    || (9 <= n <= 13) || n == 0x20 || n == 0xA0 || n == 0x1680
    || (0x2000 <= n <= 0x200A) || n == 0x2028 || n == 0x2029
    || n == 0x202F || n == 0x205F || n == 0x3000 || n == 0xFEFF
  }

  /** The class `[<>:"/\\|?*]`. */
  predicate IsForbidden(c: char) {
    c in {'<', '>', ':', '"', '/', '\\', '|', '?', '*'}
  }

  const MaxFolderName: nat := 255

  /** `replace(/[<>:"/\\|?*]/g, '-')`. */
  function ReplaceForbidden(s: string): (r: string)
    ensures |r| == |s|
    ensures forall i :: 0 <= i < |r| ==> !IsForbidden(r[i])
    ensures forall i :: 0 <= i < |r| ==> r[i] == (if IsForbidden(s[i]) then '-' else s[i])
  {
    seq(|s|, i requires 0 <= i < |s| => if IsForbidden(s[i]) then '-' else s[i])
  }

  /** Drops the whitespace at the front of `s`: what is dropped is all
      whitespace, and what is kept starts with another character. */
  function TrimStart(s: string): (r: string)
    ensures |r| <= |s| && r == s[|s| - |r|..]
    ensures forall i :: 0 <= i < |s| - |r| ==> IsSpace(s[i])
    ensures r == [] || !IsSpace(r[0])
  {
    if s == [] || !IsSpace(s[0]) then s
    else
      var r := TrimStart(s[1..]);
      assert forall i :: 1 <= i < |s| - |r| ==> s[i] == s[1..][i - 1];
      r
  }

  /** Drops the whitespace at the end of `s`: what is dropped is all
      whitespace, and what is kept ends with another character. */
  function TrimEnd(s: string): (r: string)
    ensures |r| <= |s| && r == s[..|r|]
    ensures forall i :: |r| <= i < |s| ==> IsSpace(s[i])
    ensures r == [] || !IsSpace(r[|r| - 1])
  {
    if s == [] || !IsSpace(s[|s| - 1]) then s else TrimEnd(s[..|s| - 1])
  }

  /** The characters of `s` other than whitespace, in order. */
  function NonSpace(s: string): (r: string)
    ensures |r| <= |s|
    ensures forall i :: 0 <= i < |r| ==> !IsSpace(r[i])
  {
    if s == [] then [] else (if IsSpace(s[0]) then [] else [s[0]]) + NonSpace(s[1..])
  }

  lemma {:induction false} NonSpaceAppend(a: string, b: string)
    ensures NonSpace(a + b) == NonSpace(a) + NonSpace(b)
  {
    if a == [] {
      assert a + b == b;
    } else {
      assert (a + b)[1..] == a[1..] + b;
      NonSpaceAppend(a[1..], b);
    }
  }

  lemma {:induction false} NonSpaceTrimStart(s: string)
    ensures NonSpace(TrimStart(s)) == NonSpace(s)
  {
    if s != [] && IsSpace(s[0]) {
      NonSpaceTrimStart(s[1..]);
    }
  }

  lemma {:induction false} NonSpaceTrimEnd(s: string)
    ensures NonSpace(TrimEnd(s)) == NonSpace(s)
  {
    if s != [] && IsSpace(s[|s| - 1]) {
      var front := s[..|s| - 1];
      assert s == front + [s[|s| - 1]];
      NonSpaceAppend(front, [s[|s| - 1]]);
      NonSpaceTrimEnd(front);
    }
  }

  /** Cutting a text keeps a prefix of its non-whitespace characters. */
  lemma NonSpacePrefix(s: string, n: nat)
    requires n <= |s|
    ensures NonSpace(s[..n]) <= NonSpace(s)
  {
    assert s == s[..n] + s[n..];
    NonSpaceAppend(s[..n], s[n..]);
  }

  /** Where the whitespace of `s` lies: each non-whitespace character with
      whether whitespace separates it from the previous one (or from the
      start of the text); `gap` says whether whitespace has just been seen. */
  function LayoutAfter(gap: bool, s: string): seq<(bool, char)>
    decreases |s|
  {
    if s == [] then []
    else if IsSpace(s[0]) then LayoutAfter(true, s[1..])
    else [(gap, s[0])] + LayoutAfter(false, s[1..])
  }

  function Layout(s: string): seq<(bool, char)> {
    LayoutAfter(false, s)
  }

  /** Whitespace just seen, more whitespace changes nothing. */
  lemma {:induction false} LayoutAfterTrim(s: string)
    ensures LayoutAfter(true, TrimStart(s)) == LayoutAfter(true, s)
  {
    if s != [] && IsSpace(s[0]) {
      LayoutAfterTrim(s[1..]);
    }
  }

  /** Whether whitespace has just been seen after reading `a`, starting from `gap`. */
  function GapAfter(gap: bool, a: string): bool {
    if a == [] then gap else IsSpace(a[|a| - 1])
  }

  /** The layout of two texts read one after the other. */
  lemma {:induction false} LayoutAppend(gap: bool, a: string, b: string)
    ensures LayoutAfter(gap, a + b) == LayoutAfter(gap, a) + LayoutAfter(GapAfter(gap, a), b)
    decreases |a|
  {
    if a == [] {
      assert a + b == b;
    } else {
      assert (a + b)[0] == a[0] && (a + b)[1..] == a[1..] + b;
      var g := if IsSpace(a[0]) then true else false;
      LayoutAppend(g, a[1..], b);
      assert GapAfter(g, a[1..]) == GapAfter(gap, a);
    }
  }

  /** Trailing whitespace adds nothing to the layout. */
  lemma {:induction false} LayoutAfterTrimEnd(gap: bool, s: string)
    ensures LayoutAfter(gap, TrimEnd(s)) == LayoutAfter(gap, s)
    decreases |s|
  {
    if s != [] && IsSpace(s[|s| - 1]) {
      var front := s[..|s| - 1];
      assert s == front + [s[|s| - 1]];
      LayoutAppend(gap, front, [s[|s| - 1]]);
      LayoutAfterTrimEnd(gap, front);
    }
  }

  /** Cutting a text keeps a prefix of its layout. */
  lemma LayoutPrefix(gap: bool, s: string, n: nat)
    requires n <= |s|
    ensures LayoutAfter(gap, s[..n]) <= LayoutAfter(gap, s)
  {
    assert s == s[..n] + s[n..];
    LayoutAppend(gap, s[..n], s[n..]);
  }

  /** A text that is nothing but whitespace, once its front is trimmed, is empty. */
  lemma EndsInSpace(s: string)
    ensures s != [] && TrimStart(s) != [] ==> TrimStart(s)[|TrimStart(s)| - 1] == s[|s| - 1]
    ensures s != [] && TrimStart(s) == [] ==> IsSpace(s[|s| - 1])
  {
  }

  /** One character before a collapsed text drawn from `src`: the step of `CollapseSpace`. */
  lemma ConsCollapsed(c: char, tail: string, src: string, s: string)
    requires |src| <= |s| && src == s[|s| - |src|..] && (c == ' ' || (!IsSpace(c) && c in s))
    requires forall i :: 0 <= i < |tail| ==> (tail[i] == ' ' && IsSpace(tail[i])) || (!IsSpace(tail[i]) && tail[i] in src)
    requires forall i :: 0 <= i < |tail| - 1 ==> !(IsSpace(tail[i]) && IsSpace(tail[i + 1]))
    requires tail != [] && IsSpace(c) ==> !IsSpace(tail[0])
    ensures var r := [c] + tail;
            forall i :: 0 <= i < |r| ==> (r[i] == ' ' && IsSpace(r[i])) || (!IsSpace(r[i]) && r[i] in s)
    ensures var r := [c] + tail;
            forall i :: 0 <= i < |r| - 1 ==> !(IsSpace(r[i]) && IsSpace(r[i + 1]))
  {
    var r := [c] + tail;
    forall i | 1 <= i < |r|
      ensures (r[i] == ' ' && IsSpace(r[i])) || (!IsSpace(r[i]) && r[i] in s)
    {
      assert r[i] == tail[i - 1];
      if !IsSpace(r[i]) {
        var k :| 0 <= k < |src| && src[k] == r[i];
        assert s[|s| - |src| + k] == r[i];
      }
    }
    forall i | 0 <= i < |r| - 1
      ensures !(IsSpace(r[i]) && IsSpace(r[i + 1]))
    {
      assert r[i + 1] == tail[i];
      if i > 0 {
        assert r[i] == tail[i - 1];
      }
    }
  }

  /** `replace(/\s+/g, ' ')`: every maximal run of whitespace becomes one space. */
  function CollapseSpace(s: string): (r: string)
    ensures |r| <= |s|
    ensures s != [] ==> r != [] && (IsSpace(r[0]) <==> IsSpace(s[0]))
    ensures forall i :: 0 <= i < |r| ==> (r[i] == ' ' && IsSpace(r[i])) || (!IsSpace(r[i]) && r[i] in s)
    ensures forall i :: 0 <= i < |r| - 1 ==> !(IsSpace(r[i]) && IsSpace(r[i + 1]))
    decreases |s|
  {
    if s == [] then []
    else if IsSpace(s[0]) then
      var rest := TrimStart(s[1..]);
      var tail := CollapseSpace(rest);
      ConsCollapsed(' ', tail, rest, s);
      [' '] + tail
    else
      var tail := CollapseSpace(s[1..]);
      ConsCollapsed(s[0], tail, s[1..], s);
      [s[0]] + tail
  }

  /** Collapsing keeps the non-whitespace characters, in order. */
  lemma {:induction false} CollapseKeepsNonSpace(s: string)
    ensures NonSpace(CollapseSpace(s)) == NonSpace(s)
    decreases |s|
  {
    if s != [] {
      if IsSpace(s[0]) {
        var rest := TrimStart(s[1..]);
        CollapseKeepsNonSpace(rest);
        NonSpaceTrimStart(s[1..]);
        assert CollapseSpace(s) == [' '] + CollapseSpace(rest);
      } else {
        CollapseKeepsNonSpace(s[1..]);
        assert CollapseSpace(s) == [s[0]] + CollapseSpace(s[1..]);
      }
    }
  }

  /** Collapsing keeps whitespace between the same pairs of characters and
      before the first one, whether or not whitespace has just been seen. */
  lemma {:induction false} CollapseKeepsLayout(s: string, gap: bool)
    ensures LayoutAfter(gap, CollapseSpace(s)) == LayoutAfter(gap, s)
    decreases |s|
  {
    if s != [] {
      if IsSpace(s[0]) {
        var rest := TrimStart(s[1..]);
        CollapseKeepsLayout(rest, true);
        LayoutAfterTrim(s[1..]);
        assert CollapseSpace(s) == [' '] + CollapseSpace(rest);
      } else {
        CollapseKeepsLayout(s[1..], false);
        assert CollapseSpace(s) == [s[0]] + CollapseSpace(s[1..]);
      }
    }
  }

  /** The last character of the collapsed text: the text's own last character,
      or a plain space when that is whitespace. */
  lemma {:induction false} CollapseLast(s: string)
    requires s != []
    ensures var r := CollapseSpace(s);
            r[|r| - 1] == (if IsSpace(s[|s| - 1]) then ' ' else s[|s| - 1])
    decreases |s|
  {
    var tail := s[1..];
    if tail != [] {
      assert tail[|tail| - 1] == s[|s| - 1];
      if IsSpace(s[0]) {
        var rest := TrimStart(tail);
        EndsInSpace(tail);
        if rest != [] {
          CollapseLast(rest);
        }
      } else {
        CollapseLast(tail);
      }
    }
  }

  /** Collapsing leaves whitespace at the end exactly when the text had it there. */
  lemma CollapseKeepsEnd(s: string)
    requires s != []
    ensures IsSpace(CollapseSpace(s)[|CollapseSpace(s)| - 1]) <==> IsSpace(s[|s| - 1])
  {
    CollapseLast(s);
  }

  /** The collapsed text is the text with each run of whitespace written as
      one plain space: the same non-whitespace characters in the same order,
      whitespace between the same pairs of them and at the front and the end
      exactly when the text has it there, and nowhere two in a row. */
  lemma CollapseSpaceSound(s: string)
    ensures NonSpace(CollapseSpace(s)) == NonSpace(s)
    ensures Layout(CollapseSpace(s)) == Layout(s)
    ensures s != [] ==> (IsSpace(CollapseSpace(s)[0]) <==> IsSpace(s[0]))
    ensures s != [] ==> (IsSpace(CollapseSpace(s)[|CollapseSpace(s)| - 1]) <==> IsSpace(s[|s| - 1]))
    ensures forall i :: 0 <= i < |CollapseSpace(s)| && IsSpace(CollapseSpace(s)[i]) ==> CollapseSpace(s)[i] == ' '
    ensures forall i :: 0 <= i < |CollapseSpace(s)| - 1 ==>
              !(IsSpace(CollapseSpace(s)[i]) && IsSpace(CollapseSpace(s)[i + 1]))
  {
    CollapseKeepsNonSpace(s);
    CollapseKeepsLayout(s, false);
    if s != [] {
      CollapseKeepsEnd(s);
    }
  }

  /** No forbidden character, no whitespace but the plain space, and never two
      whitespace characters in a row. */
  predicate WellSpaced(s: string) {
    && (forall i :: 0 <= i < |s| ==> !IsForbidden(s[i]))
    && (forall i :: 0 <= i < |s| && IsSpace(s[i]) ==> s[i] == ' ')
    && (forall i :: 0 <= i < |s| - 1 ==> !(IsSpace(s[i]) && IsSpace(s[i + 1])))
  }

  lemma WellSpacedSlice(s: string, a: nat, b: nat)
    requires a <= b <= |s| && WellSpaced(s)
    ensures WellSpaced(s[a..b])
  {
    var t := s[a..b];
    assert forall i :: 0 <= i < |t| ==> t[i] == s[a + i];
  }

  lemma CollapsedIsWellSpaced(s: string)
    requires forall i :: 0 <= i < |s| ==> !IsForbidden(s[i])
    ensures WellSpaced(CollapseSpace(s))
  {
    var r := CollapseSpace(s);
    forall i | 0 <= i < |r|
      ensures !IsForbidden(r[i])
    {
      if !IsSpace(r[i]) {
        assert r[i] in s;
      }
    }
  }

  lemma FirstCharKept(front: string, trimmed: string, cut: nat)
    requires front == [] || !IsSpace(front[0])
    requires |trimmed| <= |front| && trimmed == front[..|trimmed|]
    requires cut <= |trimmed| && (cut == 0 ==> trimmed == [])
    ensures trimmed[..cut] == [] || !IsSpace(trimmed[..cut][0])
  {
    if cut > 0 {
      assert trimmed[..cut][0] == trimmed[0] == front[0];
    }
  }

  lemma TrimStartWellSpaced(s: string)
    requires WellSpaced(s)
    ensures WellSpaced(TrimStart(s))
  {
    var front := TrimStart(s);
    WellSpacedSlice(s, |s| - |front|, |s|);
  }

  /** Cutting the end of a well-spaced text with no whitespace in front keeps both properties. */
  lemma CutWellSpaced(front: string, trimmed: string, cut: nat)
    requires WellSpaced(front) && (front == [] || !IsSpace(front[0]))
    requires |trimmed| <= |front| && trimmed == front[..|trimmed|]
    requires cut <= |trimmed| && (cut == 0 ==> trimmed == [])
    ensures WellSpaced(trimmed[..cut])
    ensures trimmed[..cut] == [] || !IsSpace(trimmed[..cut][0])
  {
    WellSpacedSlice(front, 0, |trimmed|);
    WellSpacedSlice(trimmed, 0, cut);
    FirstCharKept(front, trimmed, cut);
  }

  /** Writes a layout back out as text: each character after the first is
      preceded by one plain space when whitespace separated it from the
      previous one. */
  function Render(ls: seq<(bool, char)>): string {
    if ls == [] then [] else [ls[0].1] + RenderGaps(ls[1..])
  }

  function RenderGaps(ls: seq<(bool, char)>): string {
    if ls == [] then []
    else (if ls[0].0 then " " else "") + [ls[0].1] + RenderGaps(ls[1..])
  }

  /** A well-spaced text that does not end in whitespace is the rendering of
      its own layout, read after a character. */
  lemma {:induction false} RenderGapsLayout(s: string)
    requires WellSpaced(s) && (s == [] || !IsSpace(s[|s| - 1]))
    ensures RenderGaps(LayoutAfter(false, s)) == s
    decreases |s|
  {
    if s == [] {
    } else if !IsSpace(s[0]) {
      WellSpacedSlice(s, 1, |s|);
      RenderGapsLayout(s[1..]);
      assert s == [s[0]] + s[1..];
    } else {
      assert s[0] == ' ' && |s| >= 2 && !IsSpace(s[1]);
      WellSpacedSlice(s, 2, |s|);
      RenderGapsLayout(s[2..]);
      assert s[1..][1..] == s[2..];
      assert s == " " + [s[1]] + s[2..];
    }
  }

  /** A well-spaced text with no whitespace at either end is the rendering of its layout. */
  lemma RenderTrimmed(t: string)
    requires WellSpaced(t) && (t == [] || (!IsSpace(t[0]) && !IsSpace(t[|t| - 1])))
    ensures Render(LayoutAfter(true, t)) == t
  {
    if t != [] {
      WellSpacedSlice(t, 1, |t|);
      RenderGapsLayout(t[1..]);
      assert t == [t[0]] + t[1..];
    }
  }

  /** Collapsing and trimming give the rendering of the text's layout. */
  lemma StagesRender(replaced: string)
    requires forall i :: 0 <= i < |replaced| ==> !IsForbidden(replaced[i])
    ensures TrimEnd(TrimStart(CollapseSpace(replaced))) == Render(LayoutAfter(true, replaced))
  {
    var collapsed := CollapseSpace(replaced);
    var front := TrimStart(collapsed);
    var trimmed := TrimEnd(front);
    CollapsedIsWellSpaced(replaced);
    TrimStartWellSpaced(collapsed);
    WellSpacedSlice(front, 0, |trimmed|);
    assert trimmed != [] ==> trimmed[0] == front[0];
    RenderTrimmed(trimmed);
    StagesKeepLayout(replaced);
  }

  /** A folder name without the characters the store forbids, with runs of
      whitespace collapsed, trimmed, and cut to 255 characters. */
  function SanitizeFolderName(name: string): (r: string)
    ensures |r| <= MaxFolderName && |r| <= |name|
    ensures WellSpaced(r)
    ensures r == [] || !IsSpace(r[0])
    ensures NonSpace(r) <= NonSpace(ReplaceForbidden(name))
    ensures |r| < MaxFolderName ==> NonSpace(r) == NonSpace(ReplaceForbidden(name))
    ensures LayoutAfter(true, r) <= LayoutAfter(true, ReplaceForbidden(name))
    ensures |r| < MaxFolderName ==>
              LayoutAfter(true, r) == LayoutAfter(true, ReplaceForbidden(name)) && (r == [] || !IsSpace(r[|r| - 1]))
    ensures var full := Render(LayoutAfter(true, ReplaceForbidden(name)));
            r == full[..if |full| <= MaxFolderName then |full| else MaxFolderName]
  {
    var replaced := ReplaceForbidden(name);
    var collapsed := CollapseSpace(replaced);
    var front := TrimStart(collapsed);
    var trimmed := TrimEnd(front);
    var cut := if |trimmed| <= MaxFolderName then |trimmed| else MaxFolderName;
    CollapsedIsWellSpaced(replaced);
    TrimStartWellSpaced(collapsed);
    CutWellSpaced(front, trimmed, cut);
    StagesKeepNonSpace(replaced);
    StagesKeepLayout(replaced);
    CutKeepsText(trimmed, cut, NonSpace(replaced), LayoutAfter(true, replaced));
    StagesRender(replaced);
    assert cut == |trimmed| ==> trimmed[..cut] == trimmed;
    trimmed[..cut]
  }

  /** Collapsing and trimming keep the non-whitespace characters of the text, in order. */
  lemma StagesKeepNonSpace(replaced: string)
    ensures NonSpace(TrimEnd(TrimStart(CollapseSpace(replaced)))) == NonSpace(replaced)
  {
    var collapsed := CollapseSpace(replaced);
    CollapseKeepsNonSpace(replaced);
    NonSpaceTrimStart(collapsed);
    NonSpaceTrimEnd(TrimStart(collapsed));
  }

  /** Collapsing and trimming keep the places of the whitespace between the
      characters of the text. */
  lemma StagesKeepLayout(replaced: string)
    ensures LayoutAfter(true, TrimEnd(TrimStart(CollapseSpace(replaced)))) == LayoutAfter(true, replaced)
  {
    var collapsed := CollapseSpace(replaced);
    CollapseKeepsLayout(replaced, true);
    LayoutAfterTrim(collapsed);
    LayoutAfterTrimEnd(true, TrimStart(collapsed));
  }

  /** Cutting keeps a prefix of the characters and of the layout, and all of
      them when nothing is cut. */
  lemma CutKeepsText(t: string, cut: nat, chars: string, layout: seq<(bool, char)>)
    requires cut <= |t| && NonSpace(t) == chars && LayoutAfter(true, t) == layout
    ensures NonSpace(t[..cut]) <= chars && LayoutAfter(true, t[..cut]) <= layout
    ensures cut == |t| ==> NonSpace(t[..cut]) == chars && LayoutAfter(true, t[..cut]) == layout
  {
    NonSpacePrefix(t, cut);
    LayoutPrefix(true, t, cut);
    assert cut == |t| ==> t[..cut] == t;
  }
}
