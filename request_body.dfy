/** The body check of app/middlewares/validateRequestBody.js: a request body
    passes when it has at least one property and every value is truthy. */
module RequestBody {
  import opened JsValues

  /** Every property of the body holds a truthy value. */
  predicate AllValuesTruthy(body: map<string, JsValue>) {
    forall k :: k in body ==> Truthy(body[k])
  }

  /** `validateRequestBody(body)`. `Object.keys` fixes an order, but the loop
      visits the keys here in any order: the verdict does not depend on it.
      The flag is only ever and-ed, so once false it stays false. */
  method ValidateRequestBody(body: map<string, JsValue>) returns (ok: bool)
    ensures ok <==> |body| > 0 && AllValuesTruthy(body)
  {
    ok := true;
    var keys := body.Keys;
    if |keys| > 0 {
      var remaining := keys;
      while remaining != {}
        invariant remaining <= keys
        invariant ok <==> forall k :: k in keys - remaining ==> Truthy(body[k])
        decreases |remaining|
      {
        var key :| key in remaining;
        var current := body[key];
        if Truthy(current) {
          ok := ok && true;
        } else {
          ok := ok && false;
        }
        remaining := remaining - {key};
      }
    } else {
      ok := false;
    }
  }

  /** One falsy value rejects the body, whatever the other values are. */
  lemma FalsyValueRejects(body: map<string, JsValue>, k: string)
    requires k in body && !Truthy(body[k])
    ensures !AllValuesTruthy(body)
  {
  }

  /** Adding a property with a truthy value to a passing body keeps it passing;
      adding one with a falsy value makes it fail. */
  lemma ExtendBody(body: map<string, JsValue>, k: string, v: JsValue)
    ensures AllValuesTruthy(body[k := v]) <==> AllValuesTruthy(body - {k}) && Truthy(v)
  {
    var b := body[k := v];
    if AllValuesTruthy(body - {k}) && Truthy(v) {
      forall j | j in b ensures Truthy(b[j]) {
        if j != k {
          assert j in body - {k};
        }
      }
    }
    if AllValuesTruthy(b) {
      forall j | j in body - {k} ensures Truthy((body - {k})[j]) {
        assert j in b && b[j] == body[j];
      }
      assert k in b;
    }
  }
}
