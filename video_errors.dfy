/**
 * The four failure kinds of the video processor and the HTTP envelope each
 * one is turned into (backend/app/video_processor/exceptions.py).
 * Exceptions become values: a `VideoError` carries its kind and the
 * message it was raised with.
 */
module VideoErrors {
  import opened Results
  import Schemas

  datatype ErrorKind =
    | VideoValidation     // VideoValidationError
    | ProcessingTimeout   // ProcessingTimeoutError
    | Configuration       // ConfigurationError
    | ExternalService     // ExternalServiceError

  datatype VideoError = VideoError(kind: ErrorKind, message: string)

  /** The status code each registered handler answers with. */
  function StatusCode(kind: ErrorKind): (code: int)
    ensures kind == VideoValidation <==> code == 400
    ensures kind == ProcessingTimeout <==> code == 422
    ensures kind == Configuration <==> code == 500
    ensures kind == ExternalService <==> code == 502
  {
    match kind
    case VideoValidation => 400
    case ProcessingTimeout => 422
    case Configuration => 500
    case ExternalService => 502
  }

  /** Which kind of failure a status code reports, if any. */
  function KindOfCode(code: int): Option<ErrorKind> {
    if code == 400 then Some(VideoValidation)
    else if code == 422 then Some(ProcessingTimeout)
    else if code == 500 then Some(Configuration)
    else if code == 502 then Some(ExternalService)
    else None
  }

  /** The kind can be recovered from the code: the four codes are distinct. */
  lemma KindOfStatusCode(kind: ErrorKind)
    ensures KindOfCode(StatusCode(kind)) == Some(kind)
  {
  }

  /** A `JSONResponse` carrying the error envelope. */
  datatype JsonErrorResponse = JsonErrorResponse(statusCode: int, content: Schemas.ErrorResponse)

  /** `_error_response`: the envelope repeats the status code and keeps the message unchanged. */
  function ErrorResponseFor(message: string, code: int): (r: JsonErrorResponse)
    ensures r.statusCode == code && r.content.code == code
    ensures r.content.status == "error" && r.content.error == message
  {
    JsonErrorResponse(code, Schemas.ErrorEnvelope(message, code))
  }

  /** The handler registered for the error's kind. */
  function HandleVideoError(e: VideoError): (r: JsonErrorResponse)
    ensures r.statusCode == StatusCode(e.kind) && r.content.code == r.statusCode
    ensures r.content.status == "error" && r.content.error == e.message
    ensures KindOfCode(r.statusCode) == Some(e.kind)
  {
    KindOfStatusCode(e.kind);
    ErrorResponseFor(e.message, StatusCode(e.kind))
  }
}
