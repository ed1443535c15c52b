/**
  Folder provisioning in the external document store. The store is a list of
  folders (in the order its search returns them) and a source of fresh folder
  ids; `ensureFolder` is find-or-create and the project structure is the chain
  FY{year} / {department} / {code} - {name} / งวดที่ {n} - {milestone}.
 */
module Drive {
  import opened Common
  import opened Validation

  datatype Folder = Folder(id: FolderId, name: string, parent: Option<FolderId>, trashed: bool)

  /** The folder search: a folder that is not trashed, has exactly `name`, and,
      when a parent is given, lies under it. Without a parent any folder matches. */
  predicate Matches(f: Folder, name: string, parent: Option<FolderId>) {
    !f.trashed && f.name == name && (parent.None? || f.parent == parent)
  }

  /** `findFolder`: the id of the first matching folder (the search asks for one result), or null. */
  function Find(folders: seq<Folder>, name: string, parent: Option<FolderId>): (r: Option<FolderId>)
    ensures r.Some? ==> exists k :: 0 <= k < |folders| && folders[k].id == r.value && Matches(folders[k], name, parent)
    ensures r.None? ==> forall k :: 0 <= k < |folders| ==> !Matches(folders[k], name, parent)
  {
    if folders == [] then None
    else if Matches(folders[0], name, parent) then Some(folders[0].id)
    else Find(folders[1..], name, parent)
  }

  /** Adding folders never changes what an existing match resolves to. */
  lemma {:induction false} FindStable(folders: seq<Folder>, more: seq<Folder>, name: string, parent: Option<FolderId>)
    requires Find(folders, name, parent).Some?
    ensures Find(folders + more, name, parent) == Find(folders, name, parent)
  {
    var all := folders + more;
    if !Matches(folders[0], name, parent) {
      assert all[1..] == folders[1..] + more;
      FindStable(folders[1..], more, name, parent);
    }
  }

  /** A folder created where nothing matched is what the search finds next. */
  lemma {:induction false} FindCreated(folders: seq<Folder>, f: Folder, name: string, parent: Option<FolderId>)
    requires Find(folders, name, parent).None? && Matches(f, name, parent)
    ensures Find(folders + [f], name, parent) == Some(f.id)
  {
    if folders == [] {
      assert folders + [f] == [f];
    } else {
      assert (folders + [f])[1..] == folders[1..] + [f];
      FindCreated(folders[1..], f, name, parent);
    }
  }

  /** Resolves a path of folder names one level at a time, starting under `parent`. */
  function Walk(folders: seq<Folder>, parent: Option<FolderId>, path: seq<string>): Option<FolderId>
    decreases |path|
  {
    if path == [] then parent
    else match Find(folders, path[0], parent)
      case None => None
      case Some(id) => Walk(folders, Some(id), path[1..])
  }

  lemma {:induction false} WalkStable(folders: seq<Folder>, more: seq<Folder>, parent: Option<FolderId>, path: seq<string>)
    requires Walk(folders, parent, path).Some?
    ensures Walk(folders + more, parent, path) == Walk(folders, parent, path)
    decreases |path|
  {
    if path != [] {
      FindStable(folders, more, path[0], parent);
      WalkStable(folders, more, Find(folders, path[0], parent), path[1..]);
    }
  }

  lemma WalkStablePrefix(before: seq<Folder>, after: seq<Folder>, parent: Option<FolderId>, path: seq<string>)
    requires before <= after && Walk(before, parent, path).Some?
    ensures Walk(after, parent, path) == Walk(before, parent, path)
  {
    assert after == before + after[|before|..];
    WalkStable(before, after[|before|..], parent, path);
  }

  lemma FindStablePrefix(before: seq<Folder>, after: seq<Folder>, name: string, parent: Option<FolderId>)
    requires before <= after && Find(before, name, parent).Some?
    ensures Find(after, name, parent) == Find(before, name, parent)
  {
    assert after == before + after[|before|..];
    FindStable(before, after[|before|..], name, parent);
  }

  // ---------------------------------------------------------------------------
  // The search query

  /** Reads a quoted literal of the search language, starting just after its
      opening quote: a backslash takes the next character literally and an
      unescaped quote ends the literal. Yields the value and the text after
      the closing quote, or nothing when the literal is not closed. */
  function ReadLiteral(s: string): Option<(string, string)>
    decreases |s|
  {
    if s == [] then None
    else if s[0] == '\'' then Some(([], s[1..]))
    else if s[0] == '\\' then
      if |s| < 2 then None
      else match ReadLiteral(s[2..])
        case None => None
        case Some(p) => Some(([s[1]] + p.0, p.1))
    else match ReadLiteral(s[1..])
      case None => None
      case Some(p) => Some(([s[0]] + p.0, p.1))
  }

  /** `findFolder` as written: `name.replace(/'/g, "\\'")` escapes quotes only. */
  function EscapeQuotesOnly(name: string): (r: string)
    ensures |r| >= |name|
  {
    if name == [] then []
    else (if name[0] == '\'' then ['\\', '\''] else [name[0]]) + EscapeQuotesOnly(name[1..])
  }

  /** The escaping the search language needs: backslashes and quotes both get a
      backslash in front. */
  function EscapeLiteral(name: string): (r: string)
    ensures |r| >= |name|
  {
    if name == [] then []
    else (if name[0] == '\'' || name[0] == '\\' then ['\\', name[0]] else [name[0]]) + EscapeLiteral(name[1..])
  }

  /** Every quote of `s` has a backslash right before it. */
  predicate QuotesEscaped(s: string) {
    forall i :: 0 <= i < |s| && s[i] == '\'' ==> i > 0 && s[i - 1] == '\\'
  }

  lemma QuotesEscapedPrepend(front: string, s: string)
    requires QuotesEscaped(s)
    requires front == ['\\', '\''] || (|front| == 1 && front[0] != '\'') || (|front| == 2 && front[0] == '\\')
    ensures QuotesEscaped(front + s)
  {
    var t := front + s;
    forall i | 0 <= i < |t| && t[i] == '\''
      ensures i > 0 && t[i - 1] == '\\'
    {
      if i >= |front| {
        assert t[i] == s[i - |front|];
        assert t[i - 1] == s[i - |front| - 1];
      }
    }
  }

  /** The as-written escaping already puts a backslash before every quote. */
  lemma {:induction false} QuotesOnlyEscapesQuotes(name: string)
    ensures QuotesEscaped(EscapeQuotesOnly(name))
  {
    if name != [] {
      QuotesOnlyEscapesQuotes(name[1..]);
      QuotesEscapedPrepend(if name[0] == '\'' then ['\\', '\''] else [name[0]], EscapeQuotesOnly(name[1..]));
    }
  }

  lemma {:induction false} LiteralEscapesQuotes(name: string)
    ensures QuotesEscaped(EscapeLiteral(name))
  {
    if name != [] {
      LiteralEscapesQuotes(name[1..]);
      QuotesEscapedPrepend(
        if name[0] == '\'' || name[0] == '\\' then ['\\', name[0]] else [name[0]], EscapeLiteral(name[1..]));
    }
  }

  /** Every name survives `EscapeLiteral`: the literal reads back as the name,
      and whatever follows the closing quote is left untouched. */
  lemma {:induction false} EscapeLiteralRoundTrip(name: string, rest: string)
    ensures ReadLiteral(EscapeLiteral(name) + "'" + rest) == Some((name, rest))
  {
    var s := EscapeLiteral(name) + "'" + rest;
    if name == [] {
      assert s == "'" + rest;
    } else {
      EscapeLiteralRoundTrip(name[1..], rest);
      var tail := EscapeLiteral(name[1..]) + "'" + rest;
      if name[0] == '\'' || name[0] == '\\' {
        assert s == ['\\', name[0]] + tail;
        assert s[2..] == tail;
      } else {
        assert s == [name[0]] + tail;
        assert s[1..] == tail;
      }
      assert name == [name[0]] + name[1..];
    }
  }

  /** Without a backslash in the name both escapings coincide. */
  lemma {:induction false} EscapingsAgreeWithoutBackslash(name: string)
    requires forall i :: 0 <= i < |name| ==> name[i] != '\\'
    ensures EscapeQuotesOnly(name) == EscapeLiteral(name)
  {
    if name != [] {
      EscapingsAgreeWithoutBackslash(name[1..]);
    }
  }

  /** With quotes escaped but not backslashes, the name `a\` is not closed by
      the quote placed after it: the backslash swallows that quote. */
  lemma TrailingBackslashUnclosed()
    ensures ReadLiteral(EscapeQuotesOnly("a\\") + "'") == None
    ensures ReadLiteral(EscapeLiteral("a\\") + "'") == Some(("a\\", ""))
  {
    assert EscapeQuotesOnly("a\\") == "a\\";
    assert ("a\\" + "'")[1..] == "\\'";
    assert ("\\'")[2..] == [];
    EscapeLiteralRoundTrip("a\\", "");
    assert EscapeLiteral("a\\") + "'" + "" == EscapeLiteral("a\\") + "'";
  }

  /** The query sent to the search, as `findFolder` builds it: the name with
      only its quotes escaped, the folder MIME type, not trashed, and the
      parent when one is given. */
  function FolderQuery(name: string, parent: Option<FolderId>): string {
    "name='" + EscapeQuotesOnly(name) + "'" + OtherConditions(parent)
  }

  /** The conditions that follow the name literal. */
  function OtherConditions(parent: Option<FolderId>): string {
    " and mimeType='application/vnd.google-apps.folder' and trashed=false"
    + (if parent.Some? then " and '" + NatToDecimal(parent.value) + "' in parents" else "")
  }

  /** The name literal a query asks for. */
  function QueriedName(q: string): Option<string> {
    if |q| >= 6 && q[..6] == "name='" then
      match ReadLiteral(q[6..])
      case None => None
      case Some(p) => Some(p.0)
    else None
  }

  /** For a name without a backslash the query asks for exactly the name
      `Find` compares with. */
  lemma FolderQueryAsksForName(name: string, parent: Option<FolderId>)
    requires forall i :: 0 <= i < |name| ==> name[i] != '\\'
    ensures QueriedName(FolderQuery(name, parent)) == Some(name)
  {
    EscapingsAgreeWithoutBackslash(name);
    NameLiteralRead(name, OtherConditions(parent));
  }

  lemma NameLiteralRead(name: string, rest: string)
    ensures QueriedName("name='" + EscapeLiteral(name) + "'" + rest) == Some(name)
  {
    var q := "name='" + EscapeLiteral(name) + "'" + rest;
    assert q[6..] == EscapeLiteral(name) + "'" + rest;
    EscapeLiteralRoundTrip(name, rest);
  }

  // ---------------------------------------------------------------------------
  // Folder names

  function FiscalYearFolderName(fiscalYear: int): string {
    "FY" + IntToDecimal(fiscalYear)
  }

  function ProjectFolderName(code: string, name: string): string {
    code + " - " + name
  }

  function MilestoneFolderName(m: MilestoneInput): string {
    "งวดที่ " + IntToDecimal(m.indexNo) + " - " + m.name
  }

  function ProjectPath(fiscalYear: int, departmentName: string, code: string, name: string): (r: seq<string>)
    ensures |r| == 3
  {
    [FiscalYearFolderName(fiscalYear), departmentName, ProjectFolderName(code, name)]
  }

  /** The `index_no` of every milestone, in order. */
  function IndexNos(ms: seq<MilestoneInput>): (r: seq<int>)
    ensures |r| == |ms| && forall j :: 0 <= j < |ms| ==> r[j] == ms[j].indexNo
  {
    seq(|ms|, j requires 0 <= j < |ms| => ms[j].indexNo)
  }

  /** The folder name of every milestone, in order. */
  function FolderNames(ms: seq<MilestoneInput>): (r: seq<string>)
    ensures |r| == |ms| && forall j :: 0 <= j < |ms| ==> r[j] == MilestoneFolderName(ms[j])
  {
    seq(|ms|, j requires 0 <= j < |ms| => MilestoneFolderName(ms[j]))
  }

  /** The three project-level segments resolve, and so does every milestone folder under the project folder. */
  predicate Provisioned(folders: seq<Folder>, root: Option<FolderId>, path: seq<string>, ms: seq<MilestoneInput>) {
    var p := Walk(folders, root, path);
    p.Some? && AllFound(folders, p, FolderNames(ms), |ms|)
  }

  /** Every folder past the first |before| is a live folder carrying one of
      `names`, and at most |names| were added. */
  predicate OnlyAdded(before: seq<Folder>, after: seq<Folder>, names: seq<string>)
    requires |before| <= |after|
  {
    && |after| - |before| <= |names|
    && forall k :: |before| <= k < |after| ==> !after[k].trashed && after[k].name in names
  }

  /** `OnlyAdded`, and every added folder lies under `parent`. */
  predicate AddedUnder(before: seq<Folder>, after: seq<Folder>, names: seq<string>, parent: Option<FolderId>)
    requires |before| <= |after|
  {
    && OnlyAdded(before, after, names)
    && forall k :: |before| <= k < |after| ==> after[k].parent == parent
  }

  /** One turn of the milestone loop adds at most the folder of milestone `i`. */
  lemma AddedUnderStep(
    start: seq<Folder>, before: seq<Folder>, after: seq<Folder>,
    names: seq<string>, i: nat, parent: Option<FolderId>)
    requires i < |names| && start <= before <= after
    requires AddedUnder(start, before, names[..i], parent)
    requires AddedUnder(before, after, [names[i]], parent)
    ensures AddedUnder(start, after, names[..i + 1], parent)
  {
    assert names[..i + 1] == names[..i] + [names[i]];
    forall k | |start| <= k < |after|
      ensures !after[k].trashed && after[k].name in names[..i + 1] && after[k].parent == parent
    {
      if k < |before| {
        assert after[k] == before[k];
      }
    }
  }

  /** Two rounds of additions are one round under both lists of names. */
  lemma OnlyAddedTrans(a: seq<Folder>, b: seq<Folder>, c: seq<Folder>, n1: seq<string>, n2: seq<string>)
    requires a <= b <= c && OnlyAdded(a, b, n1) && OnlyAdded(b, c, n2)
    ensures OnlyAdded(a, c, n1 + n2)
  {
    forall k | |a| <= k < |c| ensures !c[k].trashed && c[k].name in n1 + n2 {
      if k < |b| {
        assert c[k] == b[k];
        assert b[k].name in n1;
      } else {
        assert c[k].name in n2;
      }
    }
  }

  /** Three `ensureFolder` calls, one per segment of the path, add only folders named after the path. */
  lemma ThreeAdded(s0: seq<Folder>, s1: seq<Folder>, s2: seq<Folder>, s3: seq<Folder>, path: seq<string>)
    requires |path| == 3 && s0 <= s1 <= s2 <= s3
    requires OnlyAdded(s0, s1, [path[0]]) && OnlyAdded(s1, s2, [path[1]]) && OnlyAdded(s2, s3, [path[2]])
    ensures OnlyAdded(s0, s3, path)
  {
    OnlyAddedTrans(s0, s1, s2, [path[0]], [path[1]]);
    OnlyAddedTrans(s0, s2, s3, [path[0], path[1]], [path[2]]);
    assert [path[0], path[1]] + [path[2]] == path;
  }

  /** What the three project-level `ensureFolder` calls leave behind: the path
      resolves to the last folder, and only folders named after the path were added. */
  lemma ChainEnsured(
    s0: seq<Folder>, s1: seq<Folder>, s2: seq<Folder>, s3: seq<Folder>,
    root: Option<FolderId>, path: seq<string>, fy: FolderId, dept: FolderId, project: FolderId)
    requires |path| == 3 && s0 <= s1 <= s2 <= s3
    requires AddedUnder(s0, s1, [path[0]], root)
    requires AddedUnder(s1, s2, [path[1]], Some(fy))
    requires AddedUnder(s2, s3, [path[2]], Some(dept))
    requires Find(s1, path[0], root) == Some(fy)
    requires Find(s2, path[1], Some(fy)) == Some(dept)
    requires Find(s3, path[2], Some(dept)) == Some(project)
    ensures s0 <= s3
    ensures Walk(s3, root, path) == Some(project)
    ensures OnlyAdded(s0, s3, path)
  {
    ThreeAdded(s0, s1, s2, s3, path);
    FindStablePrefix(s1, s3, path[0], root);
    FindStablePrefix(s2, s3, path[1], Some(fy));
    ProjectChainResolves(s3, root, path, fy, dept, project);
  }

  /** Each of the first `n` names has a folder under `parent`. */
  predicate AllFound(folders: seq<Folder>, parent: Option<FolderId>, names: seq<string>, n: nat)
    requires n <= |names|
  {
    forall j :: 0 <= j < n ==> Find(folders, names[j], parent).Some?
  }

  /** `ids` is the map built from the first `n` (key, name) pairs: its keys are
      the keys seen, and each maps to the folder of the last name with that key. */
  predicate Recorded(
    folders: seq<Folder>, parent: Option<FolderId>,
    keys: seq<int>, names: seq<string>, n: nat, ids: map<int, FolderId>)
    requires |keys| == |names| && n <= |keys|
  {
    && AllFound(folders, parent, names, n)
    && ids.Keys == KeySet(keys, n)
    && forall j :: 0 <= j < n && LastWithKey(keys, j, n) ==> Find(folders, names[j], parent) == Some(ids[keys[j]])
  }

  /** One turn of the milestone loop extends the record by the pair at `i`. */
  lemma RecordedStep(
    before: seq<Folder>, after: seq<Folder>, parent: Option<FolderId>,
    keys: seq<int>, names: seq<string>, i: nat, ids: map<int, FolderId>, id: FolderId)
    requires |keys| == |names| && i < |keys| && before <= after
    requires Recorded(before, parent, keys, names, i, ids)
    requires Find(after, names[i], parent) == Some(id)
    ensures Recorded(after, parent, keys, names, i + 1, ids[keys[i] := id])
  {
    var ids' := ids[keys[i] := id];
    FindsStable(before, after, parent, names, i);
    KeySetStep(keys, i);
    forall j | 0 <= j < i + 1 && LastWithKey(keys, j, i + 1)
      ensures Find(after, names[j], parent) == Some(ids'[keys[j]])
    {
      if j < i {
        assert keys[i] != keys[j];
        assert LastWithKey(keys, j, i);
      }
    }
  }

  lemma KeySetStep(keys: seq<int>, i: nat)
    requires i < |keys|
    ensures KeySet(keys, i + 1) == KeySet(keys, i) + {keys[i]}
  {
  }

  lemma FindsStable(before: seq<Folder>, after: seq<Folder>, parent: Option<FolderId>, names: seq<string>, i: nat)
    requires before <= after && i <= |names|
    requires forall j :: 0 <= j < i ==> Find(before, names[j], parent).Some?
    ensures forall j :: 0 <= j < i ==> Find(after, names[j], parent) == Find(before, names[j], parent)
  {
    forall j | 0 <= j < i
      ensures Find(after, names[j], parent) == Find(before, names[j], parent)
    {
      FindStablePrefix(before, after, names[j], parent);
    }
  }

  /** The position of the last occurrence of `key` in `keys`. */
  function LastPosition(keys: seq<int>, key: int): (r: Option<nat>)
    ensures r.Some? ==> r.value < |keys| && keys[r.value] == key && LastWithKey(keys, r.value, |keys|)
    ensures r.None? ==> key !in keys
  {
    if keys == [] then None
    else if keys[|keys| - 1] == key then Some(|keys| - 1)
    else LastPosition(keys[..|keys| - 1], key)
  }

  /** The folder `milestoneFolderIds[key]` designates, read off the store: the
      folder of the last milestone numbered `key`, under the project folder. */
  function MilestoneFolderOf(folders: seq<Folder>, projectFolder: FolderId, ms: seq<MilestoneInput>, key: int): Option<FolderId> {
    match LastPosition(IndexNos(ms), key)
    case None => None
    case Some(j) => Find(folders, MilestoneFolderName(ms[j]), Some(projectFolder))
  }

  /** A complete record maps each key to the folder of the last name with that key. */
  lemma RecordedLookup(
    folders: seq<Folder>, parent: Option<FolderId>,
    keys: seq<int>, names: seq<string>, ids: map<int, FolderId>, key: int)
    requires |keys| == |names| && Recorded(folders, parent, keys, names, |keys|, ids)
    requires key in ids
    ensures LastPosition(keys, key).Some?
    ensures Find(folders, names[LastPosition(keys, key).value], parent) == Some(ids[key])
  {
    assert key in KeySet(keys, |keys|);
  }

  /** The key at `i` does not occur again in `keys[..n]`. */
  predicate LastWithKey(keys: seq<int>, i: nat, n: nat)
    requires i < n <= |keys|
  {
    forall l :: i < l < n ==> keys[l] != keys[i]
  }

  function KeySet(keys: seq<int>, n: nat): set<int>
    requires n <= |keys|
  {
    set j | 0 <= j < n :: keys[j]
  }

  class DriveStore {
    var folders: seq<Folder>
    var nextId: FolderId

    ghost predicate Valid()
      reads this
    {
      forall k :: 0 <= k < |folders| ==> folders[k].id < nextId
    }

    constructor (initial: seq<Folder>, next: FolderId)
      requires forall k :: 0 <= k < |initial| ==> initial[k].id < next
      ensures Valid() && folders == initial && nextId == next
    {
      folders, nextId := initial, next;
    }

    /** `ensureFolder`: returns a matching folder when there is one, and
        otherwise creates exactly one folder with that name under that parent. */
    method EnsureFolder(name: string, parent: Option<FolderId>) returns (id: FolderId)
      requires Valid()
      modifies this
      ensures Valid()
      ensures old(folders) <= folders
      ensures Find(folders, name, parent) == Some(id)
      ensures AddedUnder(old(folders), folders, [name], parent)
      ensures old(Find(folders, name, parent)).Some? ==>
                id == old(Find(folders, name, parent)).value && folders == old(folders) && nextId == old(nextId)
      ensures old(Find(folders, name, parent)).None? ==>
                id == old(nextId) && nextId == old(nextId) + 1
                && folders == old(folders) + [Folder(id, name, parent, false)]
    {
      var existing := Find(folders, name, parent);
      if existing.Some? {
        return existing.value;
      }
      id := nextId;
      FindCreated(folders, Folder(id, name, parent, false), name, parent);
      folders := folders + [Folder(id, name, parent, false)];
      nextId := nextId + 1;
    }

    /** The first three steps of `createProjectFolderStructure`: the fiscal-year,
        department and project folders, each under the previous one. */
    method EnsureProjectFolder(root: Option<FolderId>, path: seq<string>) returns (projectFolderId: FolderId)
      requires Valid() && |path| == 3
      modifies this
      ensures Valid()
      ensures old(folders) <= folders
      ensures Walk(folders, root, path) == Some(projectFolderId)
      ensures OnlyAdded(old(folders), folders, path)
      ensures old(Walk(folders, root, path)).Some? ==> folders == old(folders) && nextId == old(nextId)
    {
      if Walk(folders, root, path).Some? {
        WalkSteps(folders, root, path);
      }
      ghost var s0 := folders;
      var fyFolderId := EnsureFolder(path[0], root);
      ghost var s1 := folders;
      var deptFolderId := EnsureFolder(path[1], Some(fyFolderId));
      ghost var s2 := folders;
      projectFolderId := EnsureFolder(path[2], Some(deptFolderId));
      ChainEnsured(s0, s1, s2, folders, root, path, fyFolderId, deptFolderId, projectFolderId);
    }

    /** The loop of `createProjectFolderStructure`: one folder per milestone under
        the project folder, recorded by `index_no`, a later milestone overwriting
        an earlier one with the same number. */
    method EnsureMilestoneFolders(projectFolderId: FolderId, ms: seq<MilestoneInput>)
      returns (milestoneFolderIds: map<int, FolderId>)
      requires Valid()
      modifies this
      ensures Valid()
      ensures old(folders) <= folders
      ensures Recorded(folders, Some(projectFolderId), IndexNos(ms), FolderNames(ms), |ms|, milestoneFolderIds)
      ensures AddedUnder(old(folders), folders, FolderNames(ms), Some(projectFolderId))
      ensures old(AllFound(folders, Some(projectFolderId), FolderNames(ms), |ms|)) ==>
                folders == old(folders) && nextId == old(nextId)
    {
      ghost var keys, names := IndexNos(ms), FolderNames(ms);
      ghost var start, startNext := folders, nextId;
      ghost var wasProvisioned := AllFound(folders, Some(projectFolderId), names, |ms|);
      milestoneFolderIds := map[];
      for i := 0 to |ms|
        invariant Valid()
        invariant start <= folders
        invariant Recorded(folders, Some(projectFolderId), keys, names, i, milestoneFolderIds)
        invariant wasProvisioned ==> folders == start && nextId == startNext
        invariant AddedUnder(start, folders, names[..i], Some(projectFolderId))
      {
        ghost var before := folders;
        assert names[i] == MilestoneFolderName(ms[i]);
        var folderId := EnsureFolder(MilestoneFolderName(ms[i]), Some(projectFolderId));
        RecordedStep(before, folders, Some(projectFolderId), keys, names, i, milestoneFolderIds, folderId);
        AddedUnderStep(start, before, folders, names, i, Some(projectFolderId));
        milestoneFolderIds := milestoneFolderIds[ms[i].indexNo := folderId];
      }
      assert names[..|ms|] == names;
    }

    /** `createProjectFolderStructure`: ensures the four-level chain, returning
        the project folder and, per `index_no`, the folder of the last milestone
        with that number. When everything already exists, nothing is created. */
    method CreateProjectFolderStructure(
      root: Option<FolderId>, fiscalYear: int, departmentName: string,
      projectCode: string, projectName: string, ms: seq<MilestoneInput>)
      returns (projectFolderId: FolderId, milestoneFolderIds: map<int, FolderId>)
      requires Valid()
      modifies this
      ensures Valid()
      ensures old(folders) <= folders
      ensures Walk(folders, root, ProjectPath(fiscalYear, departmentName, projectCode, projectName)) == Some(projectFolderId)
      ensures Provisioned(folders, root, ProjectPath(fiscalYear, departmentName, projectCode, projectName), ms)
      ensures Recorded(folders, Some(projectFolderId), IndexNos(ms), FolderNames(ms), |ms|, milestoneFolderIds)
      ensures OnlyAdded(old(folders), folders, ProjectPath(fiscalYear, departmentName, projectCode, projectName) + FolderNames(ms))
      ensures old(Provisioned(folders, root, ProjectPath(fiscalYear, departmentName, projectCode, projectName), ms)) ==>
                folders == old(folders) && nextId == old(nextId)
    {
      var path := ProjectPath(fiscalYear, departmentName, projectCode, projectName);
      ghost var start := folders;
      projectFolderId := EnsureProjectFolder(root, path);
      ghost var middle := folders;
      milestoneFolderIds := EnsureMilestoneFolders(projectFolderId, ms);
      OnlyAddedTrans(start, middle, folders, path, FolderNames(ms));
      WalkStablePrefix(middle, folders, root, path);
      if Provisioned(start, root, path, ms) {
        assert middle == start;
      }
    }
  }

  /** A resolved three-segment path resolved each of its segments on the way. */
  lemma WalkSteps(folders: seq<Folder>, root: Option<FolderId>, path: seq<string>)
    requires |path| == 3 && Walk(folders, root, path).Some?
    ensures Find(folders, path[0], root).Some?
    ensures Find(folders, path[1], Find(folders, path[0], root)).Some?
    ensures Find(folders, path[2], Find(folders, path[1], Find(folders, path[0], root))) == Walk(folders, root, path)
  {
    var p1 := path[1..];
    var p2 := p1[1..];
    assert p1[0] == path[1] && p2[0] == path[2] && p2[1..] == [];
    var a := Find(folders, path[0], root);
    assert a.Some?;
    var b := Find(folders, p1[0], a);
    assert Walk(folders, root, path) == Walk(folders, a, p1);
    assert b.Some?;
    assert Walk(folders, a, p1) == Walk(folders, b, p2);
    var c := Find(folders, p2[0], b);
    assert c.Some?;
    assert Walk(folders, b, p2) == Walk(folders, c, p2[1..]) == c;
  }

  /** After the three project-level `ensureFolder` calls the project path
      resolves to the folder they returned. */
  lemma ProjectChainResolves(
    folders: seq<Folder>, root: Option<FolderId>, path: seq<string>,
    fy: FolderId, dept: FolderId, project: FolderId)
    requires |path| == 3
    requires Find(folders, path[0], root) == Some(fy)
    requires Find(folders, path[1], Some(fy)) == Some(dept)
    requires Find(folders, path[2], Some(dept)) == Some(project)
    ensures Walk(folders, root, path) == Some(project)
  {
    var p1 := path[1..];
    var p2 := p1[1..];
    assert p1[0] == path[1] && p2[0] == path[2] && p2[1..] == [];
    assert Walk(folders, Some(project), p2[1..]) == Some(project);
    assert Walk(folders, Some(dept), p2) == Some(project);
    assert Walk(folders, Some(fy), p1) == Some(project);
  }
}
