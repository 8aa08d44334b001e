/** The insight endpoints of app/controllers/insight/insight.js. Each request
    passes through the same gates in order: the body's email must be a valid
    address and equal to the email of the signed-in caller; a delete also
    needs a non-blank `dateAdded`. The caller's email (set by the token
    middleware) is a parameter, and `storageOk` says whether the database
    call succeeds; a failed call is caught and answered with 500. */
module InsightController {
  import opened JsValues
  import opened Http
  import opened Models
  import Constants
  import EmailValidation
  import SuccessResponse
  import ErrorResponse

  /** The first gate: the body's email is a valid address and is the caller's. */
  predicate IsCallersEmail(body: map<string, JsValue>, caller: string) {
    var email := Get(body, Constants.EMAIL);
    EmailValidation.ValidateEmail(email) && email == Str(caller)
  }

  /** The envelope `handleError` builds for a status code and a message, with
      `status: false`. */
  function Failure(code: real, message: string): (r: Response)
    requires code != 0.0
    ensures r.statusCode == Finite(code) && r.cookie == None
    ensures BodyField(r, "message") == (if message == [] then Str(Constants.GENERIC_ERROR_MESSAGE) else Str(message))
    ensures BodyField(r, "status") == Bool(false) && BodyField(r, "data") == Undefined
  {
    ErrorResponse.HandleError(map["statusCode" := Num(Finite(code)), "message" := Str(message), "status" := Bool(false)])
  }

  /** The envelope `handleSuccess` builds for a status code, a message, a
      `status` flag and the data (`Undefined` when the response object has
      none), without a token. */
  function Reply(code: real, message: string, status: bool, data: JsValue): (r: Response)
    requires code != 0.0 && message != []
    ensures r.statusCode == Finite(code) && r.cookie == None
    ensures BodyField(r, "message") == Str(message)
    ensures BodyField(r, "status") == Bool(true)
    ensures BodyField(r, "data") == if Truthy(data) then data else Null
  {
    SuccessResponse.HandleSuccess(map[
      "data" := data,
      "statusCode" := Num(Finite(code)),
      "message" := Str(message),
      "status" := Bool(status)], Undefined)
  }

  /** `getInsight`: the caller's insights, in collection order. */
  method GetInsight(db: InsightCollection, body: map<string, JsValue>, caller: string, storageOk: bool)
    returns (resp: Response)
    ensures !IsCallersEmail(body, caller) ==>
      resp.statusCode == Finite(401.0) &&
      BodyField(resp, "message") == Str(Constants.EmailInvalidMessage()) &&
      BodyField(resp, "status") == Bool(false) &&
      BodyField(resp, "data") == Undefined
    ensures IsCallersEmail(body, caller) && !storageOk ==>
      resp.statusCode == Finite(500.0) &&
      BodyField(resp, "message") == Str(Constants.GENERIC_ERROR_MESSAGE) &&
      BodyField(resp, "status") == Bool(false) &&
      BodyField(resp, "data") == Undefined
    ensures IsCallersEmail(body, caller) && storageOk ==>
      resp.statusCode == Finite(200.0) &&
      BodyField(resp, "message") == Str(Constants.DATA_RETRIEVED) &&
      BodyField(resp, "status") == Bool(true) &&
      BodyField(resp, "data") == Arr(InsightsToJs(db.Find(caller)))
    ensures resp.cookie == None
  {
    var status := false;
    var email := Get(body, Constants.EMAIL);
    var userEmailInHeader := caller;
    var isValidEmail := EmailValidation.ValidateEmail(email);
    if !isValidEmail || email != Str(userEmailInHeader) {
      resp := Failure(401.0, Constants.EmailInvalidMessage());
      return;
    }
    if !storageOk {
      // `Insight.find` rejects and the catch block answers
      resp := Failure(500.0, Constants.GENERIC_ERROR_MESSAGE);
      return;
    }
    var userInsights := db.Find(userEmailInHeader);
    status := true;
    resp := Reply(200.0, Constants.DATA_RETRIEVED, status, Arr(InsightsToJs(userInsights)));
  }

  /** The request reaches `deleteOne` and its day converts: the store is
      queried with the converted day. */
  predicate ReachesDelete(body: map<string, JsValue>, caller: string, storageOk: bool,
                          castDay: JsValue -> Option<DateKey>)
  {
    IsCallersEmail(body, caller) && Truthy(Get(body, Constants.DATE_ADDED)) && storageOk &&
    castDay(Get(body, Constants.DATE_ADDED)).Some?
  }

  /** `deleteInsight`: removes the caller's first insight of the given day.
      `castDay` is the conversion Mongoose applies to the request's
      `dateAdded` before querying: the stored instant it names, or None when
      it cannot be converted, in which case `deleteOne` rejects. */
  method DeleteInsight(db: InsightCollection, body: map<string, JsValue>, caller: string, storageOk: bool,
                       castDay: JsValue -> Option<DateKey>)
    returns (resp: Response)
    modifies db
    ensures !IsCallersEmail(body, caller) ==>
      db.records == old(db.records) &&
      resp.statusCode == Finite(401.0) &&
      BodyField(resp, "message") == Str(Constants.EmailInvalidMessage()) &&
      BodyField(resp, "status") == Bool(false) &&
      BodyField(resp, "data") == Undefined
    ensures IsCallersEmail(body, caller) && !Truthy(Get(body, Constants.DATE_ADDED)) ==>
      db.records == old(db.records) &&
      resp.statusCode == Finite(401.0) &&
      BodyField(resp, "message") == Str(Constants.REQUIRED_FIELD_BLANK) &&
      BodyField(resp, "status") == Bool(false) &&
      BodyField(resp, "data") == Undefined
    // a failing database or a day that cannot be converted: the catch block answers
    ensures IsCallersEmail(body, caller) && Truthy(Get(body, Constants.DATE_ADDED)) &&
            (!storageOk || castDay(Get(body, Constants.DATE_ADDED)).None?) ==>
      db.records == old(db.records) &&
      resp.statusCode == Finite(500.0) &&
      BodyField(resp, "message") == Str(Constants.GENERIC_ERROR_MESSAGE) &&
      BodyField(resp, "status") == Bool(false) &&
      BodyField(resp, "data") == Undefined
    ensures ReachesDelete(body, caller, storageOk, castDay) ==>
      var day := castDay(Get(body, Constants.DATE_ADDED)).value;
      db.records == RemoveFirst(old(db.records), caller, day) &&
      (db.records == old(db.records) <==> forall x :: x in old(db.records) ==> !MatchesQuery(x, caller, day))
    // nothing matched: 404, but handleSuccess reports `status: true`
    ensures ReachesDelete(body, caller, storageOk, castDay) && db.records == old(db.records) ==>
      resp.statusCode == Finite(404.0) &&
      BodyField(resp, "message") == Str(Constants.UNABLE_TO_RETRIEVE_DATA) &&
      BodyField(resp, "status") == Bool(true) &&
      BodyField(resp, "data") == Null
    ensures ReachesDelete(body, caller, storageOk, castDay) && db.records != old(db.records) ==>
      resp.statusCode == Finite(200.0) &&
      BodyField(resp, "message") == Str(Constants.DATA_DELETED) &&
      BodyField(resp, "status") == Bool(true) &&
      BodyField(resp, "data") == Null
    ensures resp.cookie == None
  {
    var status := false;
    var email := Get(body, Constants.EMAIL);
    var dateAdded := Get(body, Constants.DATE_ADDED);
    var userEmailInHeader := caller;
    var isValidEmail := EmailValidation.ValidateEmail(email);
    if !isValidEmail || email != Str(userEmailInHeader) {
      resp := Failure(401.0, Constants.EmailInvalidMessage());
      return;
    }
    if !Truthy(dateAdded) {
      resp := Failure(401.0, Constants.REQUIRED_FIELD_BLANK);
      return;
    }
    var day := castDay(dateAdded);
    if !storageOk || day.None? {
      // `Insight.deleteOne` rejects and the catch block answers
      resp := Failure(500.0, Constants.GENERIC_ERROR_MESSAGE);
      return;
    }
    var deletedCount := db.DeleteOne(userEmailInHeader, day.value);
    if deletedCount == 0 {
      resp := Reply(404.0, Constants.UNABLE_TO_RETRIEVE_DATA, status, Undefined);
      return;
    }
    status := true;
    resp := Reply(200.0, Constants.DATA_DELETED, status, Undefined);
  }
}
