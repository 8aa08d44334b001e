/** What a controller hands to the HTTP layer: a status code, an optional
    cookie and a JSON body. */
module Http {
  import opened JsValues

  /** `res.cookie(name, value).status(statusCode).json(body)`; `cookie` is
      the (name, value) pair when one is set. */
  datatype Response = Response(statusCode: Number, cookie: Option<(string, JsValue)>, body: JsValue)

  /** The body's property `key`, `undefined` when the body is not an object or lacks it. */
  function BodyField(r: Response, key: string): JsValue {
    if r.body.Obj? then Get(r.body.props, key) else Undefined
  }
}
