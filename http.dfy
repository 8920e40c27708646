/** The request and response values the route handlers and the middleware see. */
module Http {

  datatype Option<T> = None | Some(value: T)

  /** A JavaScript value as far as the handlers can tell values apart: absent
      (`undefined`), a string, or any other value (number, boolean, `null`,
      object, array) together with its truthiness. */
  datatype JsValue = Missing | Str(s: string) | Other(truthy: bool)

  /** JavaScript's `!!v`: only the empty string is a falsy string. */
  predicate Truthy(v: JsValue) {
    match v
    case Missing => false
    case Str(s) => s != []
    case Other(t) => t
  }

  /** A parsed request body: `undefined` or `null`; a primitive that is not
      `null` (it has no `mobile` or `otp` property); or an object (arrays
      included) with its `mobile` and `otp` properties. */
  datatype Body = NoBody | Primitive | Fields(mobile: JsValue, otp: JsValue)

  /** A JSON response body: `{ message }` or `{ error }`. */
  datatype Payload = Message(message: string) | Error(error: string)

  datatype Response = Response(status: nat, payload: Payload)
}
