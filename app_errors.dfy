/** The application error value: an HTTP-like status code and a message. */
module AppErrors {

  datatype AppError = AppError(code: int, message: string)

  const StatusBadRequest := 400
  const StatusUnauthorized := 401
  const StatusForbidden := 403
  const StatusNotFound := 404
  const StatusNotAcceptable := 406
  const StatusConflict := 409
  const StatusPreconditionFailed := 412
  const StatusUnprocessableEntity := 422
  const StatusInternalServerError := 500

  function NewNotFoundError(message: string): (e: AppError)
    ensures e.code == StatusNotFound && e.message == message
  {
    AppError(StatusNotFound, message)
  }

  function NewUnexpectedError(message: string): (e: AppError)
    ensures e.code == StatusInternalServerError && e.message == message
  {
    AppError(StatusInternalServerError, message)
  }

  function NewValidationError(message: string): (e: AppError)
    ensures e.code == StatusUnprocessableEntity && e.message == message
  {
    AppError(StatusUnprocessableEntity, message)
  }

  function NewDuplicatedError(message: string): (e: AppError)
    ensures e.code == StatusBadRequest && e.message == message
  {
    AppError(StatusBadRequest, message)
  }

  function NewPermissionDeniedError(message: string): (e: AppError)
    ensures e.code == StatusForbidden && e.message == message
  {
    AppError(StatusForbidden, message)
  }

  function NewAuthError(message: string): (e: AppError)
    ensures e.code == StatusUnauthorized && e.message == message
  {
    AppError(StatusUnauthorized, message)
  }

  /** The text of the error is its message; the code is not part of it. */
  function Error(e: AppError): (s: string)
    ensures s == e.message
  {
    e.message
  }

  /** A copy that keeps the message and drops the code (the zero value). */
  function AsMessage(e: AppError): (m: AppError)
    ensures m.message == e.message && m.code == 0
  {
    AppError(0, e.message)
  }

  function GetStatus(e: AppError): (status: int)
    ensures status == e.code
  {
    e.code
  }

  /** Stripping the code is idempotent and keeps what Error() reports. */
  lemma {:induction false} AsMessageKeepsText(e: AppError)
    ensures AsMessage(AsMessage(e)) == AsMessage(e)
    ensures Error(AsMessage(e)) == Error(e) && GetStatus(AsMessage(e)) == 0
  {
  }

  /** The six constructors give six different codes, so the code identifies the kind. */
  lemma {:induction false} ConstructorCodesDistinct(m: string)
    ensures |{NewNotFoundError(m).code, NewUnexpectedError(m).code, NewValidationError(m).code,
              NewDuplicatedError(m).code, NewPermissionDeniedError(m).code, NewAuthError(m).code}| == 6
  {
  }
}
