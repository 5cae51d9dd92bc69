/** The application's last middleware: it turns any error that reached
    `next(err)` into the HTTP status and JSON body sent to the client. */
module ErrorHandler {
  import opened Wrappers
  import opened Js

  /** The response: status code and the body
      `{ success, data: { message } }`. */
  datatype Response = Response(status: int, success: bool, message: string)

  predicate IsDuplicateKey(err: JsError) {
    err.code == Num(11000.0)
  }

  predicate IsCastError(err: JsError) {
    err.name == "CastError"
  }

  predicate IsFileTooLarge(err: JsError) {
    err.code == Str("LIMIT_FILE_SIZE")
  }

  /** `err.statusCode || 500`. */
  function StatusOr500(statusCode: Option<int>): int {
    match statusCode
    case Some(s) => if s != 0 then s else 500
    case None => 500
  }

  /** `message || "Server error"`. */
  function MessageOrDefault(message: Option<string>): string {
    match message
    case Some(m) => if m != "" then m else "Server error"
    case None => "Server error"
  }

  /** The handler as written: start from the error's own message and
      status (500 when it has none), then apply the three rules in order,
      each overwriting what the earlier ones set. The result is stated as a
      decision table read from the last rule back: the rule that matches
      last decides. */
  function Handle(err: JsError): (r: Response)
    ensures !r.success
    ensures IsFileTooLarge(err) ==> r == Response(400, false, "File size over 1.5Mb")
    ensures !IsFileTooLarge(err) && IsCastError(err) ==> r == Response(404, false, "Resource not found")
    ensures !IsFileTooLarge(err) && !IsCastError(err) && IsDuplicateKey(err)
      ==> r == Response(400, false, "Duplicate entered field value")
    ensures !IsFileTooLarge(err) && !IsCastError(err) && !IsDuplicateKey(err)
      ==> r.status == StatusOr500(err.statusCode) && r.message == MessageOrDefault(err.message)
  {
    var message := err.message;
    var status := StatusOr500(err.statusCode);
    var (message, status) :=
      if IsDuplicateKey(err) then (Some("Duplicate entered field value"), 400) else (message, status);
    var (message, status) :=
      if IsCastError(err) then (Some("Resource not found"), 404) else (message, status);
    var (message, status) :=
      if IsFileTooLarge(err) then (Some("File size over 1.5Mb"), 400) else (message, status);
    Response(status, false, MessageOrDefault(message))
  }

  /** An application error (`new ErrorResponse(m, s)`) with a non-zero
      status goes out with that status and its message, or "Server error"
      when the message is empty. */
  lemma ApplicationErrorPassesThrough(m: string, s: int)
    requires s != 0
    ensures Handle(ErrorResponse(m, s)) == Response(s, false, if m == "" then "Server error" else m)
  {
  }

  /** A runtime TypeError carries no status and becomes a 500 that shows
      the runtime's message. */
  lemma TypeErrorIs500(m: string)
    requires m != ""
    ensures Handle(TypeError(m, Undefined)) == Response(500, false, m)
  {
  }

  /** A rule later in the handler beats an earlier one: an error that is
      both a duplicate key (code 11000) and a CastError is reported as a
      missing resource. */
  lemma LaterRuleWins(message: Option<string>, statusCode: Option<int>)
    ensures Handle(JsError("CastError", message, statusCode, Num(11000.0))).status == 404
  {
  }

  /** The status is never zero: the handler always sends a real code. */
  lemma StatusNeverZero(err: JsError)
    ensures Handle(err).status != 0
  {
  }
}
