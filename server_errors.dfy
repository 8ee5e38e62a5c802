/** Translation of an application error into the HTTP error sent to the client. */
module ServerErrors {
  import opened AppErrors

  /** The HTTP error the web framework writes: a status and a detail message. */
  datatype HttpError = HttpError(status: int, message: string)

  /** The statuses that the translation passes through as they are. */
  predicate PassedThrough(code: int)
  {
    code in {StatusNotFound, StatusBadRequest, StatusUnauthorized, StatusForbidden,
             StatusNotAcceptable, StatusConflict, StatusPreconditionFailed, StatusUnprocessableEntity}
  }

  function AppErrorToHumaError(e: AppError): (h: HttpError)
    ensures h.message == e.message
    ensures PassedThrough(e.code) ==> h.status == e.code
    ensures !PassedThrough(e.code) ==> h.status == StatusInternalServerError
  {
    match e.code
    case 404 => HttpError(StatusNotFound, e.message)
    case 400 => HttpError(StatusBadRequest, e.message)
    case 401 => HttpError(StatusUnauthorized, e.message)
    case 403 => HttpError(StatusForbidden, e.message)
    case 406 => HttpError(StatusNotAcceptable, e.message)
    case 409 => HttpError(StatusConflict, e.message)
    case 412 => HttpError(StatusPreconditionFailed, e.message)
    case 422 => HttpError(StatusUnprocessableEntity, e.message)
    case _ => HttpError(StatusInternalServerError, e.message)
  }

  /** Translating an already translated error changes nothing. */
  lemma {:induction false} TranslationIdempotent(e: AppError)
    ensures var h := AppErrorToHumaError(e);
            AppErrorToHumaError(AppError(h.status, h.message)) == h
  {
  }

  /** The client always sees one of the eight passed-through statuses or 500. */
  lemma {:induction false} TranslationStatusRange(e: AppError)
    ensures var s := AppErrorToHumaError(e).status;
            PassedThrough(s) || s == StatusInternalServerError
  {
  }

  /** Every constructor of the application errors reaches the client with its own code and message. */
  lemma {:induction false} ConstructorsReachClientUnchanged(m: string)
    ensures AppErrorToHumaError(NewNotFoundError(m)) == HttpError(404, m)
    ensures AppErrorToHumaError(NewUnexpectedError(m)) == HttpError(500, m)
    ensures AppErrorToHumaError(NewValidationError(m)) == HttpError(422, m)
    ensures AppErrorToHumaError(NewDuplicatedError(m)) == HttpError(400, m)
    ensures AppErrorToHumaError(NewPermissionDeniedError(m)) == HttpError(403, m)
    ensures AppErrorToHumaError(NewAuthError(m)) == HttpError(401, m)
  {
  }

  /** An error stripped to its message (code 0) is reported as an internal error. */
  lemma {:induction false} AsMessageBecomesInternal(e: AppError)
    ensures AppErrorToHumaError(AsMessage(e)) == HttpError(StatusInternalServerError, e.message)
  {
  }
}
