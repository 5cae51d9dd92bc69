/** `isValidInput`: after a route's validation chain has run, the request
    either goes on or fails with one error whose message lists every
    validation message. */
module ValidInput {
  import opened Wrappers
  import opened Js
  import Text
  import ErrorHandler

  /** One entry of express-validator's error list; only `msg` is read. */
  datatype ValidationError = ValidationError(param: string, msg: string)

  function Msgs(errors: seq<ValidationError>): (r: seq<string>)
    ensures |r| == |errors|
    ensures forall i :: 0 <= i < |errors| ==> r[i] == errors[i].msg
  {
    if errors == [] then [] else [errors[0].msg] + Msgs(errors[1..])
  }

  /** `getValidationResult`: the messages in list order, joined by ", ". */
  function ValidationMessage(errors: seq<ValidationError>): string {
    Text.Join(Msgs(errors), ", ")
  }

  /** `isValidInput`: no error for an empty list, else one error with the
      joined message and status 404. */
  function Check(errors: seq<ValidationError>): (r: Option<JsError>)
    ensures r.None? <==> errors == []
    ensures r.Some? ==> r.value.statusCode == Some(404) && r.value.message == Some(ValidationMessage(errors))
  {
    if errors == [] then None else Some(ErrorResponse(ValidationMessage(errors), 404))
  }

  /** One error: its message is exactly the error's own `msg`. */
  lemma SingleMessage(e: ValidationError)
    ensures ValidationMessage([e]) == e.msg
  {
  }

  /** One more error appends ", " and its message: the message lists the
      errors in order, each once. */
  lemma {:induction false} MessageSnoc(errors: seq<ValidationError>, e: ValidationError)
    requires errors != []
    ensures ValidationMessage(errors + [e]) == ValidationMessage(errors) + ", " + e.msg
  {
    assert Msgs(errors + [e]) == Msgs(errors) + [e.msg];
    Text.JoinSnoc(Msgs(errors), e.msg, ", ");
  }

  /** What the client gets for a failed validation: status 404 and the
      joined messages, or "Server error" when they join to nothing. */
  lemma FailureResponse(errors: seq<ValidationError>)
    requires errors != []
    ensures var m := ValidationMessage(errors);
      ErrorHandler.Handle(Check(errors).value)
        == ErrorHandler.Response(404, false, if m == "" then "Server error" else m)
  {
    ErrorHandler.ApplicationErrorPassesThrough(ValidationMessage(errors), 404);
  }
}
