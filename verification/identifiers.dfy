/** The allow-list check applied to every configured column name before it is
    formatted into query text (functions/repositories/exam_repo.py). */
module Identifiers {
  import opened Wrappers
  import opened Rows

  /** Membership in the allow-list of 63 characters: the ASCII letters
      `a`-`z` and `A`-`Z`, the digits `0`-`9`, and the underscore. */
  predicate IsIdentChar(c: char) {
    ('a' <= c <= 'z') || ('A' <= c <= 'Z') || ('0' <= c <= '9') || c == '_'
  }

  /** A column identifier that may safely be interpolated into query text. */
  predicate IsSafeIdentifier(s: string) {
    |s| > 0 && forall i :: 0 <= i < |s| ==> IsIdentChar(s[i])
  }

  /** `any(ch not in allowed for ch in identifier)`. */
  function HasDisallowedChar(s: string): (b: bool)
    ensures b <==> exists i :: 0 <= i < |s| && !IsIdentChar(s[i])
  {
    if |s| == 0 then false
    else
      assert forall i :: 1 <= i < |s| ==> s[i] == s[1..][i - 1];
      !IsIdentChar(s[0]) || HasDisallowedChar(s[1..])
  }

  /** `_ensure_safe_identifier(identifier, kind)`: the identifier unchanged, or a
      ValueError naming it and its role. */
  function EnsureSafeIdentifier(identifier: string, kind: string): (r: Result<string, Error>)
    ensures r.Success? <==> IsSafeIdentifier(identifier)
    ensures r.Success? ==> r.value == identifier
    ensures r.Failure? ==> r.error == InvalidIdentifier(kind, identifier)
  {
    if identifier == "" || HasDisallowedChar(identifier) then
      Failure(InvalidIdentifier(kind, identifier))
    else
      Success(identifier)
  }

  /** One configured column name together with the role named in its error message. */
  datatype ColumnCheck = ColumnCheck(identifier: string, kind: string)

  /** `e` is the error for the first configured column, in validation order,
      that fails the check: every column before it passed. */
  predicate FirstInvalid(checks: seq<ColumnCheck>, e: Error) {
    exists i :: 0 <= i < |checks|
      && !IsSafeIdentifier(checks[i].identifier)
      && (forall j :: 0 <= j < i ==> IsSafeIdentifier(checks[j].identifier))
      && e == InvalidIdentifier(checks[i].kind, checks[i].identifier)
  }

  /** Runs the identifier check over the configured columns in the order the
      constructor validates them; the first invalid one raises and stops it. */
  function CheckIdentifiers(checks: seq<ColumnCheck>): (o: Outcome<Error>)
    ensures o.Pass? <==> forall i :: 0 <= i < |checks| ==> IsSafeIdentifier(checks[i].identifier)
    ensures o.Fail? ==> FirstInvalid(checks, o.error)
  {
    if |checks| == 0 then Pass
    else
      match EnsureSafeIdentifier(checks[0].identifier, checks[0].kind)
      case Failure(e) => Fail(e)
      case Success(_) =>
        var rest := CheckIdentifiers(checks[1..]);
        assert forall i :: 1 <= i < |checks| ==> checks[i] == checks[1..][i - 1];
        if rest.Fail? then
          var i :| 0 <= i < |checks[1..]|
            && !IsSafeIdentifier(checks[1..][i].identifier)
            && (forall j :: 0 <= j < i ==> IsSafeIdentifier(checks[1..][j].identifier))
            && rest.error == InvalidIdentifier(checks[1..][i].kind, checks[1..][i].identifier);
          assert forall j :: 0 <= j < i + 1 ==> IsSafeIdentifier(checks[j].identifier) by {
            forall j | 0 <= j < i + 1 ensures IsSafeIdentifier(checks[j].identifier) {
              if j > 0 { assert checks[j] == checks[1..][j - 1]; }
            }
          }
          assert checks[i + 1] == checks[1..][i];
          rest
        else
          rest
  }
}
