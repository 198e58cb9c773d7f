/** The request gates of middleware/authMiddleware.js: the Bearer header, the
    JWT shape, the role normalisation, and the role checks. */
module AuthMiddleware {
  import opened Http
  import opened Text

  /** The caller the token names; `role` is already normalised. */
  datatype Principal = Principal(id: Option<int>, role: string)

  /** What `jwt.verify` reports for a token: expired, otherwise invalid, or
      its payload (`role` is `None` when the claim is not a string). */
  datatype Verification = Expired | BadSignature | Decoded(id: Option<int>, role: Option<string>)

  /** What a gate does with a request. */
  datatype Gate = NoContent | Reject(error: Failure) | Next(user: Principal)

  /** The characters of the URL-safe base64 alphabet. */
  predicate IsBase64UrlChar(c: char) {
    ('A' <= c <= 'Z') || ('a' <= c <= 'z') || ('0' <= c <= '9') || c == '-' || c == '_'
  }

  /** The JWT compact shape (section 3 of RFC 7519): three dot-separated
      segments of URL-safe base64. */
  predicate IsJwtShape(token: string) {
    var parts := Split(token, '.');
    |parts| == 3 && forall i, j :: 0 <= i < 3 && 0 <= j < |parts[i]| ==> IsBase64UrlChar(parts[i][j])
  }

  /** The role `verifyToken` stores: the claim upper-cased, USER when it is not a string. */
  function NormalRole(role: Option<string>): (r: string)
    ensures role.None? ==> r == "USER"
    ensures role.Some? ==> |r| == |role.value|
    ensures role.Some? ==> forall i :: 0 <= i < |r| ==> r[i] == UpperChar(role.value[i])
    ensures Upper(r) == r
  {
    if role.Some? then UpperIdempotent(role.value); Upper(role.value) else "USER"
  }

  /** `verifyToken` (middleware/authMiddleware.js:7-50). OPTIONS passes with 204;
      a missing or empty header is 401; the trimmed header must split on
      whitespace into exactly a case-insensitive "Bearer" and a token of JWT
      shape; then the signature check decides. `verify` stands for `jwt.verify`
      with the server's secret. */
  function VerifyToken(isOptions: bool, header: Option<string>, verify: string -> Verification): (g: Gate)
    ensures isOptions <==> g.NoContent?
    ensures !isOptions && (header.None? || header.value == "") ==> g.Reject? && g.error.Unauthorized?
    ensures g.Reject? ==> g.error.Unauthorized?
    ensures g.Next? <==>
              && !isOptions && header.Some? && header.value != ""
              && |SplitOnSpaces(header.value)| == 2 && Upper(SplitOnSpaces(header.value)[0]) == "BEARER"
              && IsJwtShape(SplitOnSpaces(header.value)[1])
              && verify(SplitOnSpaces(header.value)[1]).Decoded?
    ensures g.Next? ==>
              && |SplitOnSpaces(header.value)| == 2
              && var claims := verify(SplitOnSpaces(header.value)[1]);
              && claims.Decoded?
              && g.user == Principal(claims.id, NormalRole(claims.role))
  {
    if isOptions then NoContent
    else if header.None? || header.value == "" then Reject(Unauthorized("no token"))
    else
      var parts := SplitOnSpaces(header.value);
      if |parts| != 2 || Upper(parts[0]) != "BEARER" then Reject(Unauthorized("expected Bearer <token>"))
      else if !IsJwtShape(parts[1]) then Reject(Unauthorized("malformed token"))
      else
        match verify(parts[1])
        case Expired => Reject(Unauthorized("token expired"))
        case BadSignature => Reject(Unauthorized("invalid token"))
        case Decoded(id, role) => Next(Principal(id, NormalRole(role)))
  }

  /** A header written as "Bearer " followed by a well-formed token is read
      back into that token, whatever the case of the scheme, and the caller
      gets the token's claims. */
  lemma BearerRoundTrip(scheme: string, token: string, verify: string -> Verification)
    requires Upper(scheme) == "BEARER" && IsJwtShape(token) && verify(token).Decoded?
    ensures VerifyToken(false, Some(scheme + " " + token), verify)
            == Next(Principal(verify(token).id, NormalRole(verify(token).role)))
  {
    assert IsWord(scheme) by {
      assert |scheme| == 6;
      forall c | c in scheme ensures !IsSpace(c) {
        var i :| 0 <= i < |scheme| && scheme[i] == c;
        assert UpperChar(c) == "BEARER"[i];
      }
    }
    assert IsWord(token) by {
      var parts := Split(token, '.');
      SplitJoin(token, '.');
      assert token != [];
      forall c | c in token ensures !IsSpace(c) {
        JoinChars(parts, '.', c);
      }
    }
    WordsOfPair(scheme, token);
  }

  /** Every character of a join is the separator or a character of a part. */
  lemma {:induction false} JoinChars(parts: seq<string>, sep: char, c: char)
    requires c in Join(parts, sep)
    ensures c == sep || exists i, j :: 0 <= i < |parts| && 0 <= j < |parts[i]| && parts[i][j] == c
  {
    if |parts| == 1 {
      var j :| 0 <= j < |parts[0]| && parts[0][j] == c;
    } else if |parts| > 1 {
      var rest := Join(parts[1..], sep);
      assert Join(parts, sep) == parts[0] + [sep] + rest;
      if c in parts[0] {
        var j :| 0 <= j < |parts[0]| && parts[0][j] == c;
      } else if c != sep {
        assert c in rest;
        JoinChars(parts[1..], sep, c);
        var i, j :| 0 <= i < |parts[1..]| && 0 <= j < |parts[1..][i]| && parts[1..][i][j] == c;
        assert parts[i + 1][j] == c;
      }
    }
  }

  /** A header with a third word is refused even when the token is valid. */
  lemma ExtraWordRefused(token: string, extra: string, verify: string -> Verification)
    requires IsWord(token) && IsWord(extra)
    ensures VerifyToken(false, Some("Bearer " + token + " " + extra), verify).Reject?
  {
    assert IsWord("Bearer");
    assert "Bearer " + token + " " + extra == "Bearer" + " " + token + " " + extra;
    WordsOfTriple("Bearer", token, extra);
  }

  /** `verifyAdmin` (middleware/authMiddleware.js:52-59): 401 without a user,
      403 unless the upper-cased role is ADMIN. */
  function VerifyAdmin(user: Option<Principal>): (r: Outcome)
    ensures r.Pass? <==> user.Some? && Upper(user.value.role) == "ADMIN"
    ensures r.Fail? && r.error.Unauthorized? <==> user.None?
    ensures r.Fail? ==> r.error.Unauthorized? || r.error.Forbidden?
  {
    if user.None? then Fail(Unauthorized("no user"))
    else if Upper(user.value.role) != "ADMIN" then Fail(Forbidden("admins only"))
    else Pass
  }

  /** `verifyCashier` (middleware/authMiddleware.js:61-68): a CASHIER or an ADMIN. */
  function VerifyCashier(user: Option<Principal>): (r: Outcome)
    ensures r.Pass? <==> user.Some? && (Upper(user.value.role) == "CASHIER" || Upper(user.value.role) == "ADMIN")
    ensures r.Fail? && r.error.Unauthorized? <==> user.None?
    ensures r.Fail? ==> r.error.Unauthorized? || r.error.Forbidden?
  {
    if user.None? then Fail(Unauthorized("no user"))
    else
      var role := Upper(user.value.role);
      if role != "CASHIER" && role != "ADMIN" then Fail(Forbidden("cashiers and admins only"))
      else Pass
  }

  /** `requireLogin` (middleware/authMiddleware.js:70-75). */
  function RequireLogin(user: Option<Principal>): (r: Outcome)
    ensures r.Pass? <==> user.Some?
    ensures r.Fail? ==> r.error.Unauthorized?
  {
    if user.None? then Fail(Unauthorized("no user")) else Pass
  }

  /** `requireRole` (middleware/authMiddleware.js:77-84): the role as stored,
      compared case-sensitively; a missing user is 403 here, not 401. */
  function RequireRole(allowed: seq<string>, user: Option<Principal>): (r: Outcome)
    ensures r.Pass? <==> user.Some? && user.value.role in allowed
    ensures r.Fail? ==> r.error.Forbidden?
  {
    if user.None? || user.value.role !in allowed then Fail(Forbidden("insufficient role")) else Pass
  }

  /** Every admin passes the cashier gate. */
  lemma AdminIsCashier(user: Option<Principal>)
    requires VerifyAdmin(user).Pass?
    ensures VerifyCashier(user).Pass?
  {
  }

  /** For a caller admitted by `verifyToken` the case-sensitive role list and
      the admin gate agree; for a role stored in lower case they do not. */
  lemma RoleGatesAgree(isOptions: bool, header: Option<string>, verify: string -> Verification)
    requires VerifyToken(isOptions, header, verify).Next?
    ensures var user := Some(VerifyToken(isOptions, header, verify).user);
            RequireRole(["ADMIN"], user).Pass? <==> VerifyAdmin(user).Pass?
    ensures VerifyAdmin(Some(Principal(None, "admin"))).Pass?
    ensures RequireRole(["ADMIN"], Some(Principal(None, "admin"))).Fail?
  {
    assert Upper("admin") == "ADMIN";
  }
}
