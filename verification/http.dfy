/**
 * The HTTP responses of the order API and `ExceptionHandlingMiddleware`,
 * which turns an exception that escaped a controller into a JSON error
 * envelope. A controller's result is `Ok(response)` when it answered
 * itself and `Err(e)` when `e` escaped to the middleware.
 */
module Http {
  import opened Wrappers
  import opened Exceptions
  import opened Entities
  import opened Validators

  const OK: int := 200
  const Created: int := 201
  const BadRequest: int := 400
  const Forbidden: int := 403
  const NotFound: int := 404
  const Conflict: int := 409
  const InternalServerError: int := 500

  /** The JSON bodies the controllers and the middleware write. */
  datatype Body =
    /** `new { message }`. */
    | Message(message: string)
    /** `new { message, reason }`. */
    | MessageWithReason(message: string, reason: string)
    /** `validationResult.Errors`. */
    | Invalid(errors: seq<Failure>)
    /** `new { message, errors, itemIndex }` for the first invalid item of a batch. */
    | InvalidItem(message: string, errors: seq<Failure>, itemIndex: nat)
    /** `new { message, error = ex.Message }` for a batch that failed. */
    | Failed(message: string, error: string)
    /** `new { message, results }` for a batch of cancellations, one result per order id. */
    | Cancellations(message: string, cancelled: seq<string>)
    /** The middleware's `new { error = new { message, type, statusCode } }`. */
    | ErrorEnvelope(message: string, typeName: string, statusCode: int)
    | OrderBody(order: Order)
    | OrderList(orders: seq<Order>)
    | FileRecord(file: OrderFile)
    /** A file download: the stream's bytes, its content type and download name. */
    | FileContent(content: seq<byte>, contentType: string, fileName: string)

  datatype Response = Response(status: int, body: Body)

  const ConcurrencyMessage: string := "The record has been modified by another user. Please refresh and try again."
  const AccessDeniedMessage: string := "Access denied"
  const InternalErrorMessage: string := "An internal server error occurred"

  /** The exception kinds the middleware's switch names; every other kind is an internal error. */
  predicate IsMapped(e: Exception) {
    e.InvalidOperation? || e.DbUpdateConcurrency? || e.UnauthorizedAccess? || e.KeyNotFound?
  }

  /**
   * `HandleExceptionAsync`: the status and message chosen by the kind of
   * the exception, written with the exception's type name and the same
   * status in the body. Only an invalid operation and a missing key expose
   * their own message.
   */
  function HandleException(e: Exception): (r: Response)
    ensures r.body.ErrorEnvelope? && r.body.statusCode == r.status && r.body.typeName == e.TypeName()
    ensures r.status == BadRequest <==> e.InvalidOperation?
    ensures r.status == Conflict <==> e.DbUpdateConcurrency?
    ensures r.status == Forbidden <==> e.UnauthorizedAccess?
    ensures r.status == NotFound <==> e.KeyNotFound?
    ensures r.status == InternalServerError <==> !IsMapped(e)
    ensures e.InvalidOperation? || e.KeyNotFound? ==> r.body.message == e.message
    ensures e.DbUpdateConcurrency? ==> r.body.message == ConcurrencyMessage
    ensures e.UnauthorizedAccess? ==> r.body.message == AccessDeniedMessage
    ensures !IsMapped(e) ==> r.body.message == InternalErrorMessage
  {
    var (status, message) :=
      match e
      case InvalidOperation(m) => (BadRequest, m)
      case DbUpdateConcurrency(_) => (Conflict, ConcurrencyMessage)
      case UnauthorizedAccess(_) => (Forbidden, AccessDeniedMessage)
      case KeyNotFound(m) => (NotFound, m)
      case _ => (InternalServerError, InternalErrorMessage);
    Response(status, ErrorEnvelope(message, e.TypeName(), status))
  }

  /** The type names of the four exceptions the middleware maps to their own status. */
  const MappedTypeNames: set<string> :=
    {"InvalidOperationException", "DbUpdateConcurrencyException", "UnauthorizedAccessException", "KeyNotFoundException"}

  /**
   * For an exception whose `Other` type is distinct from the named kinds,
   * being mapped is the same as carrying a mapped type name, so a 500 body
   * never names a mapped type.
   */
  lemma MappedExactlyByTypeName(e: Exception)
    requires e.IsDistinct()
    ensures IsMapped(e) <==> e.TypeName() in MappedTypeNames
    ensures HandleException(e).status == InternalServerError ==> HandleException(e).body.typeName !in MappedTypeNames
  {
    if e.Other? {
      assert e.typeName !in NamedTypeNames;
      assert MappedTypeNames <= NamedTypeNames;
    }
  }

  /** `InvokeAsync`: a controller's own response passes through; an escaped exception is handled. */
  function Invoke(outcome: Result<Response, Exception>): (r: Response)
    ensures outcome.Ok? ==> r == outcome.value
    ensures outcome.Err? ==> r == HandleException(outcome.error)
  {
    match outcome
    case Ok(response) => response
    case Err(e) => HandleException(e)
  }

  /**
   * An internal error hides its cause: two unmapped exceptions of the same
   * type give the same response whatever their messages.
   */
  lemma InternalErrorsHideTheirMessage(e1: Exception, e2: Exception)
    requires !IsMapped(e1) && !IsMapped(e2) && e1.TypeName() == e2.TypeName()
    ensures HandleException(e1) == HandleException(e2)
  {
  }

  /** Every handled exception yields a client or server error status. */
  lemma HandledStatusIsAnError(e: Exception)
    ensures 400 <= HandleException(e).status <= 500
    ensures HandleException(e).status in {BadRequest, Forbidden, NotFound, Conflict, InternalServerError}
  {
  }

  /** A refused write and a failed call to another service are internal errors. */
  lemma StoreAndServiceFailuresAreInternal(message: string)
    ensures HandleException(DbUpdate(message)) == Response(500, ErrorEnvelope(InternalErrorMessage, "DbUpdateException", 500))
    ensures HandleException(HttpRequest(message)) == Response(500, ErrorEnvelope(InternalErrorMessage, "HttpRequestException", 500))
  {
  }
}
