/**
  Shared vocabulary of the application: optional values, the five user roles,
  the signed-in user as the request handlers see it, the `{ ok, data, error }`
  response envelope, and a few sequence helpers used by every list endpoint.
 */
module Common {

  datatype Option<+T> = None | Some(value: T) {
    function GetOr(default: T): T {
      match this
      case Some(v) => v
      case None => default
    }
  }

  /** Primary keys of database rows. The application uses UUID strings; the
      model only needs them to be comparable and freshly generated. */
  type Id = nat

  /** Identifiers of folders in the external document store. */
  type FolderId = nat

  datatype Role = ADMIN | DEPT_LEAD | PM | MEMBER | READONLY

  /** The `session.user` object: `id`, `role` and the nullable `departmentId`.
      A request without a session, or a session without a user, is `None`. */
  datatype SessionUser = SessionUser(id: Id, role: Role, departmentId: Option<Id>)

  type Session = Option<SessionUser>

  datatype ErrorCode =
    | UNAUTHORIZED
    | FORBIDDEN
    | VALIDATION_ERROR
    | DUPLICATE_CODE
    | INVALID_DATE_RANGE
    | SERVER_ERROR

  /** The JSON envelope every endpoint answers with, together with its HTTP status. */
  datatype Response<+T> =
    | Success(status: int, data: T)
    | Failure(status: int, error: ErrorCode)

  /** The elements of `s` that satisfy `keep`, in their original order. */
  function Filter<T>(s: seq<T>, keep: T -> bool): (r: seq<T>)
    ensures |r| <= |s|
    ensures forall i :: 0 <= i < |r| ==> r[i] in s && keep(r[i])
    ensures forall i :: 0 <= i < |s| && keep(s[i]) ==> s[i] in r
  {
    if s == [] then []
    else if keep(s[0]) then [s[0]] + Filter(s[1..], keep)
    else Filter(s[1..], keep)
  }

  /** Position of the first element of `s` that satisfies `hit`, as a
      `findUnique`/`findFirst` lookup or a one-result search returns it. */
  function FirstIndex<T>(s: seq<T>, hit: T -> bool): (r: Option<nat>)
    ensures r.Some? ==> r.value < |s| && hit(s[r.value])
    ensures r.Some? ==> forall j :: 0 <= j < r.value ==> !hit(s[j])
    ensures r.None? ==> forall j :: 0 <= j < |s| ==> !hit(s[j])
  {
    if s == [] then None
    else if hit(s[0]) then Some(0)
    else match FirstIndex(s[1..], hit)
      case None => None
      case Some(k) => Some(k + 1)
  }

  /** `s` in the opposite order (a query ordered by creation time, newest first). */
  function Reverse<T>(s: seq<T>): (r: seq<T>)
    ensures |r| == |s|
    ensures forall i :: 0 <= i < |s| ==> r[i] == s[|s| - 1 - i]
  {
    if s == [] then [] else Reverse(s[1..]) + [s[0]]
  }

  /** The decimal digits of `n`, as JavaScript's template literals print a
      non-negative integer. */
  function NatToDecimal(n: nat): (r: string)
    ensures |r| >= 1
    ensures forall i :: 0 <= i < |r| ==> '0' <= r[i] <= '9'
    ensures r[0] == '0' ==> n == 0
  {
    if n < 10 then [Digit(n)] else NatToDecimal(n / 10) + [Digit(n % 10)]
  }

  function Digit(d: nat): (c: char)
    requires d < 10
    ensures '0' <= c <= '9' && c as int - '0' as int == d
  {
    ('0' as int + d) as char
  }

  /** The integer a string of decimal digits denotes. */
  function DecimalValue(s: string): nat
    requires forall i :: 0 <= i < |s| ==> '0' <= s[i] <= '9'
  {
    if s == [] then 0 else 10 * DecimalValue(s[..|s| - 1]) + (s[|s| - 1] as int - '0' as int)
  }

  lemma {:induction false} DecimalRoundTrip(n: nat)
    ensures DecimalValue(NatToDecimal(n)) == n
  {
    var s := NatToDecimal(n);
    if n >= 10 {
      DecimalRoundTrip(n / 10);
      assert s[..|s| - 1] == NatToDecimal(n / 10);
      assert s[|s| - 1] == Digit(n % 10);
    } else {
      assert s == [Digit(n)];
    }
  }

  /** Template-literal rendering of an integer, with a leading minus sign when negative. */
  function IntToDecimal(i: int): string
  {
    if i >= 0 then NatToDecimal(i) else "-" + NatToDecimal(-i)
  }
}
