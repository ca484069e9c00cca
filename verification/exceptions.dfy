/**
 * The .NET exception types that the order service throws, catches or lets
 * escape. Every thrown exception of the source becomes an `Err(e)` value
 * carrying one of these.
 */
module Exceptions {

  /** The type names of the kinds the model names. */
  const NamedTypeNames: set<string> := {
    "InvalidOperationException", "DbUpdateConcurrencyException", "DbUpdateException", "UnauthorizedAccessException",
    "KeyNotFoundException", "FormatException", "OverflowException", "HttpRequestException"
  }

  datatype Exception =
    /** System.InvalidOperationException: missing entities, malformed versions, status repeats. */
    | InvalidOperation(message: string)
    /** Microsoft.EntityFrameworkCore.DbUpdateConcurrencyException: stale row version. */
    | DbUpdateConcurrency(message: string)
    /** Microsoft.EntityFrameworkCore.DbUpdateException: the store refused a write (duplicate key). */
    | DbUpdate(message: string)
    /** System.UnauthorizedAccessException. */
    | UnauthorizedAccess(message: string)
    /** System.Collections.Generic.KeyNotFoundException. */
    | KeyNotFound(message: string)
    /** System.FormatException, raised by int.Parse on a malformed number. */
    | Format(message: string)
    /** System.OverflowException, raised by int.Parse on a number outside Int32. */
    | Overflow(message: string)
    /** System.Net.Http.HttpRequestException: a failed call to another service. */
    | HttpRequest(message: string)
    /**
     * Any other exception type, by its .NET type name: a type that is none
     * of the kinds above and derives from none of them (see `IsDistinct`).
     */
    | Other(typeName: string, message: string)
  {
    /** An `Other` never carries the type name of one of the kinds above. */
    predicate IsDistinct() {
      Other? ==> typeName !in NamedTypeNames
    }

    /** The value of `exception.GetType().Name`. */
    function TypeName(): string {
      match this
      case InvalidOperation(_) => "InvalidOperationException"
      case DbUpdateConcurrency(_) => "DbUpdateConcurrencyException"
      case DbUpdate(_) => "DbUpdateException"
      case UnauthorizedAccess(_) => "UnauthorizedAccessException"
      case KeyNotFound(_) => "KeyNotFoundException"
      case Format(_) => "FormatException"
      case Overflow(_) => "OverflowException"
      case HttpRequest(_) => "HttpRequestException"
      case Other(name, _) => name
    }
  }
}
