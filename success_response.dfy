/** The success envelope (app/utils/handleSuccess.js). */
module SuccessResponse {
  import opened JsValues
  import opened Http
  import Constants

  /** The envelope for a success: every field is defaulted with `||`.
      The status code is `Number(statusCode) || 200`, the message falls back
      to the generic success message, `status` to `true` and `data` to `null`;
      a truthy token is also set as the `access_token` cookie. */
  function HandleSuccess(success: map<string, JsValue>, token: JsValue): (r: Response)
    // the status code is the caller's number unless that is 0, NaN or absent
    ensures var n := ToNumber(Get(success, "statusCode"));
      r.statusCode == if IsZero(n) || n.NaN? then Finite(200.0) else n
    ensures Get(success, "statusCode") == Undefined ==> r.statusCode == Finite(200.0)
    ensures Truthy(Num(r.statusCode))
    // the body has exactly the fields data, message and status
    ensures r.body.Obj? && r.body.props.Keys == {"data", "message", "status"}
    ensures Truthy(BodyField(r, "message"))
    ensures Truthy(Get(success, "message")) ==> BodyField(r, "message") == Get(success, "message")
    ensures !Truthy(Get(success, "message")) ==> BodyField(r, "message") == Str(Constants.GENERIC_SUCCESS_MESSAGE)
    // status is never falsy: a caller's `false` is reported as `true`
    ensures Truthy(BodyField(r, "status"))
    ensures Truthy(Get(success, "status")) ==> BodyField(r, "status") == Get(success, "status")
    ensures !Truthy(Get(success, "status")) ==> BodyField(r, "status") == Bool(true)
    ensures Get(success, "status").Bool? ==> BodyField(r, "status") == Bool(true)
    ensures Truthy(Get(success, "data")) ==> BodyField(r, "data") == Get(success, "data")
    ensures !Truthy(Get(success, "data")) ==> BodyField(r, "data") == Null
    // the token only adds the cookie
    ensures Truthy(token) ==> r.cookie == Some((Constants.TIME_TRACKER_TOKEN, token))
    ensures !Truthy(token) ==> r.cookie == None
  {
    var statusCode := Or(Num(ToNumber(Get(success, "statusCode"))), Num(Finite(200.0))).n;
    var message := Or(Get(success, "message"), Str(Constants.GENERIC_SUCCESS_MESSAGE));
    var status := Or(Get(success, "status"), Bool(true));
    var data := Or(Get(success, "data"), Null);
    var body := Obj(map["data" := data, "message" := message, "status" := status]);
    if Truthy(token) then
      Response(statusCode, Some((Constants.TIME_TRACKER_TOKEN, token)), body)
    else
      Response(statusCode, None, body)
  }

  /** With or without a token the status code and the body are the same. */
  lemma BodyIndependentOfToken(success: map<string, JsValue>, token: JsValue)
    ensures HandleSuccess(success, token).body == HandleSuccess(success, Undefined).body
    ensures HandleSuccess(success, token).statusCode == HandleSuccess(success, Undefined).statusCode
  {
  }
}
