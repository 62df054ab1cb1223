/** The Express error handler (middleware/error.middleware.ts): a total map
    from a thrown error to an HTTP status and JSON body. */
module ErrorMiddleware {
  import opened Domain

  /** `res.status(status).json({ error: body })`. */
  datatype HttpResponse = HttpResponse(status: nat, body: string)

  /** The fixed body sent for errors that are not domain errors. */
  const INTERNAL_ERROR_BODY := "Internal Server Error"

  const NOT_FOUND_KINDS: set<ErrorKind> := {SessionNotFound, InviteNotFound}
  const CONFLICT_KINDS: set<ErrorKind> := {SessionAlreadyEnded}
  const FORBIDDEN_KINDS: set<ErrorKind> :=
    {UnauthorizedAction, NotYourInvite, OnlyOwnerCanInvite, OnlyOwnerCanRevoke, UserDisabledInvites}

  /** The status the `switch (err.code)` picks for a domain error. */
  function StatusFor(k: ErrorKind): nat
  {
    match k
    case SessionNotFound | InviteNotFound => 404
    case SessionAlreadyEnded => 409
    case UnauthorizedAction | NotYourInvite | OnlyOwnerCanInvite | OnlyOwnerCanRevoke | UserDisabledInvites => 403
    case InviteNotPending | SessionNoLongerActive | InvalidSessionState | ActiveSessionExists | UserSettingsNotFound => 400
    case _ => 400
  }

  function ErrorHandler(err: Failure): (r: HttpResponse)
    // every domain error is a client error whose body is its own message
    ensures err.DomainError? ==> 400 <= r.status < 500 && r.body == err.message
    // anything else is a 500 that never leaks its message
    ensures err.UnexpectedError? ==> r == HttpResponse(500, INTERNAL_ERROR_BODY)
    ensures r.status == 404 <==> err.DomainError? && err.kind in NOT_FOUND_KINDS
    ensures r.status == 409 <==> err.DomainError? && err.kind in CONFLICT_KINDS
    ensures r.status == 403 <==> err.DomainError? && err.kind in FORBIDDEN_KINDS
    // the default branch: every other domain code, the friend-request errors included
    ensures r.status == 400 <==>
      err.DomainError? && err.kind !in NOT_FOUND_KINDS + CONFLICT_KINDS + FORBIDDEN_KINDS
  {
    match err
    case DomainError(k, message) => HttpResponse(StatusFor(k), message)
    case UnexpectedError(_) => HttpResponse(500, INTERNAL_ERROR_BODY)
  }
}
