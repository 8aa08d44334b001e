/** The error envelope (app/utils/handleError.js). */
module ErrorResponse {
  import opened JsValues
  import opened Http
  import Constants

  /** The envelope for a failure: the status code is `Number(statusCode) || 500`,
      the message falls back to the generic error message and `status` to
      `false`; the body never carries data and no cookie is set. */
  function HandleError(error: map<string, JsValue>): (r: Response)
    ensures var n := ToNumber(Get(error, "statusCode"));
      r.statusCode == if IsZero(n) || n.NaN? then Finite(500.0) else n
    ensures Get(error, "statusCode") == Undefined ==> r.statusCode == Finite(500.0)
    ensures Truthy(Num(r.statusCode))
    // only message and status, never data
    ensures r.body.Obj? && r.body.props.Keys == {"message", "status"}
    ensures BodyField(r, "data") == Undefined
    ensures Truthy(BodyField(r, "message"))
    ensures Truthy(Get(error, "message")) ==> BodyField(r, "message") == Get(error, "message")
    ensures !Truthy(Get(error, "message")) ==> BodyField(r, "message") == Str(Constants.GENERIC_ERROR_MESSAGE)
    ensures Truthy(Get(error, "status")) ==> BodyField(r, "status") == Get(error, "status")
    ensures !Truthy(Get(error, "status")) ==> BodyField(r, "status") == Bool(false)
    ensures r.cookie == None
  {
    var statusCode := Or(Num(ToNumber(Get(error, "statusCode"))), Num(Finite(500.0))).n;
    var message := Or(Get(error, "message"), Str(Constants.GENERIC_ERROR_MESSAGE));
    var status := Or(Get(error, "status"), Bool(false));
    Response(statusCode, None, Obj(map["message" := message, "status" := status]))
  }
}
