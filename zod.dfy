/**
 * The schema-validation rules the configuration and the forms use: a string field
 * with a list of checks, each reporting its own message. A missing or non-string
 * value reports a type issue; otherwise every failing check reports, in order.
 */
module Zod {
  import opened Wrappers

  /** `.min(n, message)` on the length, or `.regex(/^[a-f0-9]{32}$/, message)`. */
  datatype StringCheck = MinLength(min: nat, message: string) | LowerHexId(message: string)

  /** An issue found while parsing, with the name of its field. */
  datatype Issue = InvalidType(path: string) | Failed(path: string, message: string)

  predicate IsLowerHexDigit(c: char) {
    '0' <= c <= '9' || 'a' <= c <= 'f'
  }

  /** Exactly 32 characters, each a digit or a lower-case letter from a to f. */
  predicate IsLowerHexId(s: string) {
    |s| == 32 && forall k :: 0 <= k < |s| ==> IsLowerHexDigit(s[k])
  }

  predicate Holds(check: StringCheck, s: string) {
    match check
    case MinLength(n, _) => |s| >= n
    case LowerHexId(_) => IsLowerHexId(s)
  }

  /** The issues of the checks `s` fails, in the order the checks are declared. */
  function CheckIssues(path: string, s: string, checks: seq<StringCheck>): (issues: seq<Issue>)
    ensures issues == [] <==> forall k :: 0 <= k < |checks| ==> Holds(checks[k], s)
    ensures |issues| <= |checks|
    ensures forall k :: 0 <= k < |issues| ==> issues[k].Failed? && issues[k].path == path
    decreases |checks|
  {
    if checks == [] then []
    else
      var rest := CheckIssues(path, s, checks[1..]);
      if Holds(checks[0], s) then rest else [Failed(path, checks[0].message)] + rest
  }

  /** A required string field: its value, or its issues. */
  function StringField(path: string, v: Option<string>, checks: seq<StringCheck>): (r: Result<string, seq<Issue>>)
    ensures r.Success? <==> v.Some? && forall k :: 0 <= k < |checks| ==> Holds(checks[k], v.value)
    ensures r.Success? ==> r.value == v.value
    ensures r.Failure? ==> |r.error| >= 1
  {
    match v
    case None => Failure([InvalidType(path)])
    case Some(s) =>
      var issues := CheckIssues(path, s, checks);
      if issues == [] then Success(s) else Failure(issues)
  }

  /** The issues a string field reports; empty exactly when it parses. */
  function FieldIssues(path: string, v: Option<string>, checks: seq<StringCheck>): seq<Issue> {
    match StringField(path, v, checks)
    case Success(_) => []
    case Failure(e) => e
  }

  /** The issues of a field with two checks, written out. */
  lemma TwoChecks(path: string, s: string, checks: seq<StringCheck>)
    requires |checks| == 2
    ensures CheckIssues(path, s, checks)
         == (if Holds(checks[0], s) then [] else [Failed(path, checks[0].message)])
          + (if Holds(checks[1], s) then [] else [Failed(path, checks[1].message)])
  {
  }
}
