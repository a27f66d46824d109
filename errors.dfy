/**
 * The failure classification of `ErrorHandler` (error_handler.py): total
 * decision functions from what an exception carries to a failure-kind string,
 * and the retry predicate over those strings. The `url`, `operation` and
 * `filename` arguments and the log line each handler writes are not modelled.
 */
module ErrorHandler {
  import opened Wrappers

  /** `handle_request_error`: `status` is the error's `status_code`, or None when it has none. */
  function HandleRequestError(status: Option<int>): (kind: string)
    ensures kind == "connection_error" <==> status.None?
    ensures kind == "not_found" <==> status == Some(404)
    ensures kind == "forbidden" <==> status == Some(403)
    ensures kind == "rate_limited" <==> status == Some(429)
    ensures kind == "server_error" <==> status.Some? && status.value >= 500
    ensures kind == "http_error" <==>
      status.Some? && status.value < 500 && status.value != 403 && status.value != 404 && status.value != 429
  {
    match status
    case None => "connection_error"
    case Some(code) =>
      if code == 404 then "not_found"
      else if code == 403 then "forbidden"
      else if code == 429 then "rate_limited"
      else if code >= 500 then "server_error"
      else "http_error"
  }

  /** `handle_parse_error`: whatever the error, the kind is a parse error. */
  function HandleParseError<E>(error: E): (kind: string)
    ensures kind == "parse_error"
  {
    "parse_error"
  }

  /** `handle_database_error`: `errno` is the error's MySQL error number, None when it has none. */
  function HandleDatabaseError(errno: Option<int>): (kind: string)
    ensures kind == "access_denied" <==> errno == Some(1045)
    ensures kind == "unknown_database" <==> errno == Some(1049)
    ensures kind == "table_not_found" <==> errno == Some(1146)
    ensures kind == "duplicate_entry" <==> errno == Some(1062)
    ensures kind == "database_error" <==> errno !in {Some(1045), Some(1049), Some(1146), Some(1062)}
  {
    // A missing errno reads as the string 'unknown', which equals no error number.
    match errno
    case None => "database_error"
    case Some(code) =>
      if code == 1045 then "access_denied"
      else if code == 1049 then "unknown_database"
      else if code == 1146 then "table_not_found"
      else if code == 1062 then "duplicate_entry"
      else "database_error"
  }

  /** The exception classes `handle_file_error` tells apart; each is a distinct subclass of OSError. */
  datatype FileError = FileNotFoundError | PermissionError | IsADirectoryError | OtherFileError

  /** `handle_file_error`. */
  function HandleFileError(error: FileError): (kind: string)
    ensures kind == "file_not_found" <==> error == FileNotFoundError
    ensures kind == "permission_denied" <==> error == PermissionError
    ensures kind == "is_directory" <==> error == IsADirectoryError
    ensures kind == "file_operation_error" <==> error == OtherFileError
  {
    match error
    case FileNotFoundError => "file_not_found"
    case PermissionError => "permission_denied"
    case IsADirectoryError => "is_directory"
    case OtherFileError => "file_operation_error"
  }

  /** The kinds `should_retry` accepts, in the order the source lists them. */
  const RetriableKinds: seq<string> := ["connection_error", "server_error", "rate_limited"]

  /** `should_retry`: membership in the list of retriable kinds. */
  function ShouldRetry(kind: string): (retry: bool)
    ensures retry <==> kind == "connection_error" || kind == "server_error" || kind == "rate_limited"
  {
    kind in RetriableKinds
  }

  /** A request failure is retried exactly when it has no status, is 429, or is 5xx or above. */
  lemma RetryRequestError(status: Option<int>)
    ensures ShouldRetry(HandleRequestError(status)) <==>
      status.None? || status == Some(429) || status.value >= 500
  {
  }

  /** Parse, database and file failures are never retried. */
  lemma NoRetryOutsideRequests<E>(error: E, errno: Option<int>, file: FileError)
    ensures !ShouldRetry(HandleParseError(error))
    ensures !ShouldRetry(HandleDatabaseError(errno))
    ensures !ShouldRetry(HandleFileError(file))
  {
  }
}
