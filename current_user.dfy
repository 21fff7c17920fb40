/**
 * `getCurrentUser` (services/getCurrentUser.js): the caller's id from an
 * `Authorization: Bearer <token>` header. Token verification belongs to a
 * signing library and is a parameter here: it maps the token (absent when
 * the header has no second field) to the decoded claims or an error message.
 */
module CurrentUser {
  import opened Wrappers
  import opened Query

  /** The decoded claims of an access token; `id` may be missing from them. */
  datatype Claims = Claims(id: Option<string>)

  datatype AuthError =
    | NoAuthorizationToken           // "No authorization token found"
    | VerificationFailed(reason: string)

  /** Position of the first space in `s`. */
  function FirstSpace(s: string): (r: Option<nat>)
    ensures r.Some? ==> r.value < |s| && s[r.value] == ' ' && ' ' !in s[..r.value]
    ensures r.None? ==> ' ' !in s
  {
    if s == [] then None
    else if s[0] == ' ' then Some(0)
    else
      match FirstSpace(s[1..])
      case None => None
      case Some(i) =>
        assert s[..i + 1] == [s[0]] + s[1..][..i];
        Some(i + 1)
  }

  /** `s.split(' ')`: the pieces between single spaces (empty pieces included). */
  function Split(s: string): (r: seq<string>)
    ensures |r| >= 1
    ensures forall i :: 0 <= i < |r| ==> ' ' !in r[i]
    ensures |r| >= 2 <==> ' ' in s
    ensures IsPrefix(r[0], s) && (|r[0]| == |s| || s[|r[0]|] == ' ')
    decreases |s|
  {
    match FirstSpace(s)
    case None => [s]
    case Some(i) => [s[..i]] + Split(s[i + 1..])
  }

  /** The pieces put back together with single spaces: the inverse of `Split`. */
  function Join(fields: seq<string>): string
    requires |fields| >= 1
  {
    if |fields| == 1 then fields[0] else fields[0] + " " + Join(fields[1..])
  }

  lemma {:induction false} JoinSplit(s: string)
    ensures Join(Split(s)) == s
    decreases |s|
  {
    match FirstSpace(s)
    case None =>
    case Some(i) =>
      var head, rest := s[..i], s[i + 1..];
      var pieces := Split(s);
      assert pieces == [head] + Split(rest);
      assert |pieces| > 1 && pieces[0] == head && pieces[1..] == Split(rest);
      JoinSplit(rest);
      assert Join(pieces) == head + " " + rest;
      assert s == head + " " + rest;
  }

  lemma {:induction false} SplitJoin(fields: seq<string>)
    requires |fields| >= 1
    requires forall i :: 0 <= i < |fields| ==> ' ' !in fields[i]
    ensures Split(Join(fields)) == fields
  {
    if |fields| > 1 {
      var s := Join(fields);
      var n := |fields[0]|;
      assert s == fields[0] + " " + Join(fields[1..]);
      assert s[n] == ' ' && s[..n] == fields[0];
      var fs := FirstSpace(s);
      assert fs == Some(n);
      assert s[n + 1..] == Join(fields[1..]);
      SplitJoin(fields[1..]);
    }
  }

  /** `authorization.split(' ')[1]`: the second piece, absent when there is none. */
  function Token(header: string): (r: Option<string>)
    ensures r.None? <==> ' ' !in header
    ensures r.Some? ==>
              var i := FirstSpace(header).value;
              && ' ' !in r.value
              && IsPrefix(r.value, header[i + 1..])
              && (i + 1 + |r.value| == |header| || header[i + 1 + |r.value|] == ' ')
  {
    var fields := Split(header);
    if |fields| >= 2 then Some(fields[1]) else None
  }

  /** "Bearer abc" gives the token "abc". */
  lemma BearerToken(t: string)
    requires ' ' !in t
    ensures Token("Bearer " + t) == Some(t)
  {
    assert Join(["Bearer", t]) == "Bearer " + t;
    SplitJoin(["Bearer", t]);
  }

  /** The prefix test needs no space: "Bearerabc" passes it and then has no token. */
  lemma BearerWithoutSpace()
    ensures IsPrefix("Bearer", "Bearerabc")
    ensures Token("Bearerabc") == None
  {
    assert FirstSpace("Bearerabc") == None;
  }

  /**
   * `getCurrentUser`: refuses a missing header and one that does not begin
   * with "Bearer"; otherwise hands the second space-separated piece to the
   * verifier, returns the `id` of the claims, and passes a verification
   * failure on.
   */
  function GetCurrentUser(authorization: Option<string>, verify: Option<string> -> Result<Claims, string>)
    : (r: Result<Option<string>, AuthError>)
    ensures r == Err(NoAuthorizationToken) <==> authorization.None? || !IsPrefix("Bearer", authorization.value)
    ensures authorization.Some? && IsPrefix("Bearer", authorization.value) ==>
              var outcome := verify(Token(authorization.value));
              && (r.Ok? <==> outcome.Ok?)
              && (r.Ok? ==> r.value == outcome.value.id)
              && (r.Err? ==> r.error == VerificationFailed(outcome.error))
  {
    if authorization.None? || authorization.value == "" || !IsPrefix("Bearer", authorization.value) then
      Err(NoAuthorizationToken)
    else
      match verify(Token(authorization.value))
      case Ok(claims) => Ok(claims.id)
      case Err(reason) => Err(VerificationFailed(reason))
  }
}
