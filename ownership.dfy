/** The ownership gate of middleware/ownership.js: may the caller touch a row
    that records its owner in one field? */
module Ownership {
  import opened Http

  /** What `prisma[model].findUnique` gives back: no row, a failed query, or
      the row's owner field (`None` when the field is null or absent). */
  datatype Lookup = Missing | QueryFailed | Found(owner: Option<int>)

  /** `verifyOwnership` (middleware/ownership.js:3-28), one request. No caller id
      (missing or 0) is 401 before any lookup; a missing row is 404 even for a
      privileged role; a role in `allowRoles` then passes; otherwise the owner
      field must name the caller (the source compares both as decimal strings,
      which for integers is integer equality), else 403. */
  function VerifyOwnership(userId: Option<int>, role: Option<string>, lookup: Lookup, allowRoles: seq<string>)
    : (r: Outcome)
    ensures r.Fail? && r.error.Unauthorized? <==> userId.None? || userId.value == 0
    ensures r.Fail? && r.error.NotFound? <==> userId.Some? && userId.value != 0 && lookup.Missing?
    ensures r.Fail? && r.error.ServerError? <==> userId.Some? && userId.value != 0 && lookup.QueryFailed?
    ensures r.Pass? <==>
              && userId.Some? && userId.value != 0 && lookup.Found?
              && ((role.Some? && role.value in allowRoles) || lookup.owner == userId)
    ensures r.Fail? && r.error.Forbidden? <==>
              && userId.Some? && userId.value != 0 && lookup.Found?
              && !(role.Some? && role.value in allowRoles) && lookup.owner != userId
  {
    if userId.None? || userId.value == 0 then Fail(Unauthorized("no user"))
    else
      match lookup
      case Missing => Fail(NotFound("resource"))
      case QueryFailed => Fail(ServerError("lookup failed"))
      case Found(owner) =>
        if role.Some? && role.value in allowRoles then Pass
        else if owner != userId then Fail(Forbidden("not your data"))
        else Pass
  }

  /** The owner always passes, a stranger never does unless privileged, and
      the default privileged role ADMIN passes for any existing row. */
  lemma OwnerAndStranger(userId: int, other: int, role: Option<string>, allowRoles: seq<string>)
    requires userId != 0 && other != userId
    ensures VerifyOwnership(Some(userId), role, Found(Some(userId)), allowRoles).Pass?
    ensures role.None? || role.value !in allowRoles ==>
              VerifyOwnership(Some(userId), role, Found(Some(other)), allowRoles) == Fail(Forbidden("not your data"))
    ensures forall owner :: VerifyOwnership(Some(userId), Some("ADMIN"), Found(owner), ["ADMIN"]).Pass?
  {
  }
}
