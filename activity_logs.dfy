/**
  `GET /api/activity-logs`: the activity log, newest first, narrowed to the
  caller's scope and the requested filters, one page at a time.
 */
module ActivityLogs {
  import opened Common
  import opened Rbac
  import opened Db

  /** The parsed parameters. `page` and `limit` are `None` when the
      parameter is absent or empty; the filters are `None` when absent or empty. */
  datatype LogQuery = LogQuery(
    page: Option<int>,
    limit: Option<int>,
    action: Option<string>,
    entityType: Option<string>,
    actorId: Option<Id>)

  /** The `where` record: `scope` is the department of the `OR` clause a
      department lead gets; the other fields are equality filters. */
  datatype LogWhere = LogWhere(
    scope: Option<Id>,
    action: Option<string>,
    entityType: Option<string>,
    actorId: Option<Id>)

  /** The successive writes into `where`. */
  method BuildLogWhere(u: SessionUser, q: LogQuery) returns (w: LogWhere)
    ensures w.scope == (if u.role == DEPT_LEAD then u.departmentId else None)
    ensures w.action == q.action && w.entityType == q.entityType && w.actorId == q.actorId
  {
    w := LogWhere(None, None, None, None);
    if u.role == DEPT_LEAD && u.departmentId.Some? {
      w := w.(scope := u.departmentId);
    }
    if q.action.Some? {
      w := w.(action := q.action);
    }
    if q.entityType.Some? {
      w := w.(entityType := q.entityType);
    }
    if q.actorId.Some? {
      w := w.(actorId := q.actorId);
    }
  }

  /** The department clause: the actor belongs to the department, or the entry
      is about a project (of any department). */
  predicate InScope(users: seq<User>, scope: Option<Id>, e: LogEntry) {
    scope.None? || UserDepartment(users, e.actorId) == scope || e.entityType == "project"
  }

  predicate FiltersHold(w: LogWhere, e: LogEntry) {
    && (w.action.None? || e.action == w.action.value)
    && (w.entityType.None? || e.entityType == w.entityType.value)
    && (w.actorId.None? || e.actorId == w.actorId.value)
  }

  predicate LogMatches(users: seq<User>, w: LogWhere, e: LogEntry) {
    InScope(users, w.scope, e) && FiltersHold(w, e)
  }

  /** The matching entries, newest first. */
  function Matched(users: seq<User>, logs: seq<LogEntry>, w: LogWhere): seq<LogEntry> {
    Reverse(Filter(logs, (e: LogEntry) => LogMatches(users, w, e)))
  }

  /** Without the filters: the scope alone. */
  function Unfiltered(w: LogWhere): LogWhere {
    LogWhere(w.scope, None, None, None)
  }

  /** A department lead with a department sees an entry exactly when its actor
      is in that department or it is about a project, and the filters hold. */
  lemma DeptLeadScope(users: seq<User>, u: SessionUser, q: LogQuery, w: LogWhere, e: LogEntry)
    requires u.role == DEPT_LEAD && u.departmentId.Some?
    requires w.scope == u.departmentId
    ensures LogMatches(users, w, e)
            <==> (UserDepartment(users, e.actorId) == u.departmentId || e.entityType == "project") && FiltersHold(w, e)
  {
  }

  /** Every project entry passes a department lead's scope, whatever the
      project's department and whoever the actor is. */
  lemma ProjectEntriesPassEveryScope(users: seq<User>, d: Id, e: LogEntry)
    requires e.entityType == "project"
    ensures InScope(users, Some(d), e)
  {
  }

  /** An administrator, and a lead without a department, get no scope: with
      no filter every entry matches. */
  lemma UnscopedSeesAll(users: seq<User>, logs: seq<LogEntry>, w: LogWhere)
    requires w == LogWhere(None, None, None, None)
    ensures Matched(users, logs, w) == Reverse(logs)
  {
    FilterAll(logs, (e: LogEntry) => LogMatches(users, w, e));
  }

  lemma {:induction false} FilterAll<T>(s: seq<T>, keep: T -> bool)
    requires forall x :: keep(x)
    ensures Filter(s, keep) == s
  {
    if s != [] {
      FilterAll(s[1..], keep);
    }
  }

  /** A stricter condition keeps no more elements. */
  lemma {:induction false} FilterNarrower<T>(s: seq<T>, strict: T -> bool, loose: T -> bool)
    requires forall x :: strict(x) ==> loose(x)
    ensures |Filter(s, strict)| <= |Filter(s, loose)|
  {
    if s != [] {
      FilterNarrower(s[1..], strict, loose);
    }
  }

  /** A stricter condition keeps only elements the looser one keeps. */
  lemma {:induction false} FilterNarrowerMembers<T>(s: seq<T>, strict: T -> bool, loose: T -> bool, x: T)
    requires forall y :: strict(y) ==> loose(y)
    requires x in Filter(s, strict)
    ensures x in Filter(s, loose)
  {
  }

  lemma ReverseMembers<T>(s: seq<T>, x: T)
    ensures x in Reverse(s) <==> x in s
  {
    var r := Reverse(s);
    if x in s {
      var k :| 0 <= k < |s| && s[k] == x;
      assert r[|s| - 1 - k] == x;
    }
    if x in r {
      var k :| 0 <= k < |r| && r[k] == x;
      assert s[|s| - 1 - k] == x;
    }
  }

  /** The filters only narrow the scope: every entry they let through is in
      the scope, and there are no more of them. */
  lemma FiltersNarrow(users: seq<User>, logs: seq<LogEntry>, w: LogWhere, e: LogEntry)
    ensures e in Matched(users, logs, w) ==> e in Matched(users, logs, Unfiltered(w))
    ensures |Matched(users, logs, w)| <= |Matched(users, logs, Unfiltered(w))|
  {
    var strict := (e: LogEntry) => LogMatches(users, w, e);
    var loose := (e: LogEntry) => LogMatches(users, Unfiltered(w), e);
    FilterNarrower(logs, strict, loose);
    ReverseMembers(Filter(logs, strict), e);
    ReverseMembers(Filter(logs, loose), e);
    if e in Filter(logs, strict) {
      FilterNarrowerMembers(logs, strict, loose, e);
    }
  }

  // ---------------------------------------------------------------------------
  // Pagination

  /** `Math.ceil(total / limit)`, rounding up towards zero when the limit is
      negative; a zero limit gives a non-finite quotient,
      which the JSON response carries as `null` (`None`). */
  function Pages(total: nat, limit: int): (r: Option<int>)
    ensures r.None? <==> limit == 0
    ensures limit < 0 ==> r.value <= 0 && r.value * limit <= total < (r.value - 1) * limit
  {
    if limit > 0 then Some((total + limit - 1) / limit)
    else if limit < 0 then
      var m := -limit;
      var q := total / m;
      assert total == q * m + total % m && 0 <= total % m < m;
      assert (-q) * limit == q * m && (-q - 1) * limit == q * m + m;
      Some(-q)
    else None
  }

  /** With a positive limit the pages hold every entry, and the last page is not empty. */
  lemma PagesBounds(total: nat, limit: int)
    requires limit >= 1
    ensures Pages(total, limit).Some?
    ensures Pages(total, limit).value >= 0
    ensures Pages(total, limit).value * limit >= total
    ensures total > 0 ==> (Pages(total, limit).value - 1) * limit < total
    ensures total == 0 ==> Pages(total, limit).value == 0
  {
    var n := total + limit - 1;
    var p := n / limit;
    assert n == p * limit + n % limit && 0 <= n % limit < limit;
    assert (p - 1) * limit == p * limit - limit;
  }

  lemma MulLeft(m: nat, a: int, b: int)
    requires a <= b
    ensures a * m <= b * m
  {
    assert b * m - a * m == (b - a) * m;
  }

  /** `skip`/`take`: the entries at positions `skip` to `skip + take` of the ordered list. */
  function Window<T>(xs: seq<T>, skip: nat, take: nat): (r: seq<T>)
    ensures |r| <= take
    ensures skip + take <= |xs| ==> |r| == take
    ensures skip < |xs| < skip + take ==> |r| == |xs| - skip
    ensures forall i :: 0 <= i < |r| ==> skip + i < |xs| && r[i] == xs[skip + i]
  {
    if skip >= |xs| then []
    else if skip + take >= |xs| then xs[skip..]
    else xs[skip..skip + take]
  }

  /** A negative `take`, as the database client reads it: the order is
      flipped, `skip` and `count` applied, and the result flipped back, which
      gives the `count` entries that end `skip` entries before the last one,
      in the original order. */
  function WindowFromEnd<T>(xs: seq<T>, skip: nat, count: nat): (r: seq<T>)
    ensures |r| <= count
    ensures skip + count <= |xs| ==> |r| == count
    ensures skip < |xs| < skip + count ==> |r| == |xs| - skip
    ensures forall i :: 0 <= i < |r| ==> skip + |r| <= |xs| && r[i] == xs[|xs| - skip - |r| + i]
  {
    var w := Window(Reverse(xs), skip, count);
    assert forall j :: 0 <= j < |w| ==> w[j] == xs[|xs| - 1 - (skip + j)];
    Reverse(w)
  }

  /** The page holding position `i`, and that it is one of the `pages` pages. */
  lemma PageOfPosition(total: nat, limit: int, i: nat)
    requires limit >= 1 && i < total
    ensures var q := i / limit;
            && 0 <= q * limit <= i < q * limit + limit
            && q + 1 <= Pages(total, limit).value
  {
    PagesBounds(total, limit);
    var q := i / limit;
    assert i == q * limit + i % limit && 0 <= i % limit < limit;
    var pages := Pages(total, limit).value;
    if q >= pages {
      MulLeft(limit, pages, q);
      assert false;
    }
  }

  /** Every matched entry is on exactly the page its position says, and that page exists. */
  lemma EveryEntryOnAPage(xs: seq<LogEntry>, limit: int, i: nat)
    requires limit >= 1 && i < |xs|
    ensures var page := i / limit + 1;
            && 1 <= page <= Pages(|xs|, limit).value
            && 0 <= (page - 1) * limit <= i < (page - 1) * limit + limit
            && Window(xs, (page - 1) * limit, limit)[i - (page - 1) * limit] == xs[i]
  {
    PageOfPosition(|xs|, limit, i);
    var skip := (i / limit) * limit;
    assert (i / limit + 1 - 1) * limit == skip;
    var win := Window(xs, skip, limit);
    assert |win| > i - skip;
  }

  datatype LogPage = LogPage(logs: seq<LogEntry>, page: int, limit: int, total: nat, pages: Option<int>)

  /** `GET /api/activity-logs`. */
  method GetActivityLogs(db: Database, session: Session, q: LogQuery) returns (r: Response<LogPage>)
    ensures !IsAdminOrDeptLead(session) ==> r == Failure(403, FORBIDDEN)
    ensures IsAdminOrDeptLead(session) ==>
              var page, limit := q.page.GetOr(1), q.limit.GetOr(50);
              var skip := (page - 1) * limit;
              var w := LogWhere(
                if session.value.role == DEPT_LEAD then session.value.departmentId else None,
                q.action, q.entityType, q.actorId);
              var matched := Matched(db.users, db.logs, w);
              if skip < 0 then r == Failure(500, SERVER_ERROR)
              else
                var logs := if limit >= 0 then Window(matched, skip, limit) else WindowFromEnd(matched, skip, -limit);
                r == Success(200, LogPage(logs, page, limit, |matched|, Pages(|matched|, limit)))
  {
    if !IsAdminOrDeptLead(session) {
      return Failure(403, FORBIDDEN);
    }
    var page := q.page.GetOr(1);
    var limit := q.limit.GetOr(50);
    var w := BuildLogWhere(session.value, q);
    var users := db.users;
    var matched := Reverse(Filter(db.logs, (e: LogEntry) => LogMatches(users, w, e)));
    var skip := (page - 1) * limit;
    if skip < 0 {
      return Failure(500, SERVER_ERROR);
    }
    var logs := if limit >= 0 then Window(matched, skip, limit) else WindowFromEnd(matched, skip, -limit);
    r := Success(200, LogPage(logs, page, limit, |matched|, Pages(|matched|, limit)));
  }
}
