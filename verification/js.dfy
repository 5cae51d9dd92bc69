/** The fragments of JavaScript value semantics the middlewares and
    controllers depend on: truthiness (`x || y`, `x ? a : b`) and the error
    objects that travel to the error handler. */
module Js {
  import opened Wrappers

  /** A JavaScript value as it appears in a parsed request body or on an
      error object. Numbers are reals: JSON has no NaN, so the only falsy
      number is zero. Objects and arrays are all truthy, so one constructor
      stands for them. */
  datatype JsValue =
    | Undefined
    | Null
    | Bool(b: bool)
    | Num(n: real)
    | Str(s: string)
    | Object

  /** ToBoolean of ECMA-262: undefined, null, false, 0 and "" are falsy. */
  predicate Truthy(v: JsValue) {
    match v
    case Undefined => false
    case Null => false
    case Bool(b) => b
    case Num(n) => n != 0.0
    case Str(s) => s != ""
    case Object => true
  }

  /** `a ? a : b`, the shape every update field in the controllers uses. */
  function Or(a: JsValue, b: JsValue): JsValue
  {
    if Truthy(a) then a else b
  }

  /** An error as the error handler sees it: `name` (inherited from the
      prototype), `message`, the optional `statusCode` set by the
      application's ErrorResponse class, and the optional `code` set by
      MongoDB, multer or Node. */
  datatype JsError = JsError(
    name: string,
    message: Option<string>,
    statusCode: Option<int>,
    code: JsValue)

  /** `new ErrorResponse(message, statusCode)`: an Error subclass carrying
      an HTTP status (utils/errorResponse.js is not part of this model; it
      is taken to set `message` and `statusCode` and nothing else). */
  function ErrorResponse(message: string, statusCode: int): JsError
  {
    JsError("Error", Some(message), Some(statusCode), Undefined)
  }

  /** A TypeError thrown by the runtime, with Node's `code` when it has one. */
  function TypeError(message: string, code: JsValue): JsError
  {
    JsError("TypeError", Some(message), None, code)
  }
}
