# time-tracker: insights, validators and response envelopes

A Dafny model of the core of the time-tracker Express service. Users log
tasks; each task records when it started and ended and how many hours the user
claims to have spent on it. `processInsight` folds a list of expired tasks of
one user and one day into an *insight*. Its documentation says it runs at
sign-in, but neither `app/controllers/signin/signin.js` nor any other file
modelled here calls it. The insight holds:

- the claimed hours;
- the elapsed hours;
- a utilisation percentage;
- a comment chosen from that percentage.

Two endpoints list and delete a user's insights. Both sit behind a chain of
request gates.

The model covers these parts:

- **JavaScript values** (`JsValues`): the values a JSON request body can hold,
  plus truthiness, `||`, `+`, `*`, `/` and the comparisons. Numbers are
  `Finite(real) | PosInf | NegInf | NaN`, so that `0 / 0` and `x / 0` behave as
  in JavaScript. `Number(...)` parses the StringNumericLiteral grammar of
  ECMAScript: white space, sign, `Infinity`, decimals with exponents, and
  `0x`/`0o`/`0b` integers.
- **Text helpers** (`Text`): index search, split/join and ASCII lower-casing.
  The email checker is built from them.
- **Constants** (`Constants`): the message strings and property names of
  `constants/constant.js`.
- **Insight derivation** (`InsightProcessing`, `processInsight`):
  - the accumulation loop, as a method with loop invariants;
  - the percentage;
  - the threshold switch, as a pure classification;
  - the single save into the insight collection.
- **The insight collection** (`Models`): a class over a sequence of records,
  with `find` by email, `save`, and `deleteOne` by email and day.
- **The insight endpoints** (`InsightController`): `getInsight` and
  `deleteInsight`, each with its gates in source order:
  - the body's email is valid and is the caller's (401);
  - the day is not blank (401, delete only);
  - storage failure (500);
  - nothing deleted (404);
  - success (200).
- **Validators**:
  - `validateRequestBody`: a loop over the body's keys;
  - both copies of `validateEmail`: the regular expression as a grammar, and a
    checker proved equal to it;
  - `validateAlphaNumericString`.
- **Envelopes**: `handleSuccess` and `handleError`, the `||`-defaulting of
  status code, message, status and data, and the optional token cookie.

`handleSuccess` computes the body's status as `success.status || true`. This
is always truthy. The model keeps this exactly as written. As a result, the
404 answer of `deleteInsight` reports `status: true`
(`InsightController.DeleteInsight`).

`app/controllers/task/task.js` and `app/controllers/profile/profile.js` are
stubs, and `app/controllers/signin/signin.js` does no processing of stored
tasks or insights.

## Model

| member | source | states |
|---|---|---|
| JsValues.Or | app/utils/handleSuccess.js:28 | `a \|\| b` is the left operand when that is truthy and the right operand otherwise; it is truthy exactly when either operand is |
| JsValues.Div | app/controllers/insight/processInsight.js:73-75 | 0/0 is NaN; a positive number over 0 is +Infinity; finite over non-zero is the real quotient |
| JsValues.LessTrichotomy | app/controllers/insight/processInsight.js:84-94 | on every number except NaN, `<` is trichotomous and asymmetric |
| JsValues.LessTransitive | app/controllers/insight/processInsight.js:84-94 | `<` is transitive; with trichotomy and asymmetry it is a strict total order on every number except NaN |
| JsValues.BlankIsZero | app/controllers/insight/processInsight.js:48 | `Number` of a string that is empty or all white space is 0 |
| JsValues.LeadingBlanksIgnored | app/controllers/insight/processInsight.js:48 | leading white space does not change what `Number` reads |
| JsValues.NumberOfDecimalString | app/controllers/insight/processInsight.js:48 | `Number` reads the decimal numeral of every natural number back as that number |
| Constants.EmailInvalidMessage | app/controllers/insight/insight.js:80-89 | the capitalised field name plus the suffix is "Email is either empty or invalid" |
| SuccessResponse.HandleSuccess | app/utils/handleSuccess.js:12-64 | status code is `Number(statusCode)`, or 200 when that is 0, NaN or absent; message, status and data keep the caller's value when truthy, else default to the generic message, `true` and `null`; the body has exactly data, message and status; status is never falsy, so `false` becomes `true`; a truthy token sets the `access_token` cookie |
| SuccessResponse.BodyIndependentOfToken | app/utils/handleSuccess.js:48-63 | the token changes neither the status code nor the body |
| ErrorResponse.HandleError | app/utils/handleError.js:11-43 | status code is `Number(statusCode)`, or 500 when that is 0, NaN or absent; message defaults to the generic error message; status keeps the caller's truthy value, else `false`; the body has only message and status, never data; no cookie |
| EmailValidation.ValidateEmail | app/utils/validateEmail.js:7-27 | only a non-empty string can pass |
| EmailValidation.EmailCheckMatchesPattern | app/utils/validateEmail.js:22 | the Split/LastIndexOf checker accepts exactly the strings the regular expression, read literally, matches |
| EmailValidation.EmailCheckIgnoresCase | app/utils/validateEmail.js:19-22 | lower-casing does not change the checker's verdict |
| EmailValidation.ValidateEmailIsPattern | app/utils/validateEmail.js:18-23 | a string passes exactly when it matches the regular expression |
| EmailValidation.ValidateEmailCaseInsensitive | app/utils/validateEmail.js:19-20 | two strings that differ only in letter case get the same verdict |
| EmailValidation.ValidateEmailRejectsEmpty | app/utils/validateEmail.js:18 | missing and empty arguments are rejected, and so are non-string, non-array ones |
| EmailValidation.ValidateEmailNeedsAt | app/utils/validateEmail.js:22 | a string without `@` is rejected |
| EmailValidation.LastAtIsUnique | app/utils/validateEmail.js:22 | an `@` with none after it is the last `@`, where local part and domain split |
| EmailValidation.UnquotedLocalPartShape | app/utils/validateEmail.js:22 | an accepted unquoted local part is non-empty and has no leading, trailing or doubled dot |
| EmailValidation.BracketDomainHasNoRangeCheck | app/utils/validateEmail.js:22 | `user@[999.999.999.999]` is accepted: the address groups are not range-checked |
| EmailValidation.NamedDomainEndsInLetters | app/utils/validateEmail.js:22 | an accepted domain outside brackets is dot-separated labels ending in a label of at least two letters |
| EmailMiddleware.ValidateEmail | app/middlewares/validateEmail.js:7-22 | only a non-empty string can pass |
| EmailMiddleware.AgreesWithUtility | app/middlewares/validateEmail.js:13-18 | the middleware copy gives the utility's verdict on every argument |
| EmailMiddleware.RejectsEmpty | app/middlewares/validateEmail.js:13 | missing and empty arguments are rejected, and so are non-string, non-array ones |
| EmailMiddleware.CaseInsensitive | app/middlewares/validateEmail.js:14-15 | letter case does not change the verdict |
| EmailMiddleware.MatchesPattern | app/middlewares/validateEmail.js:14-18 | a string passes exactly when it matches the regular expression |
| EmailMiddleware.NeedsAt | app/middlewares/validateEmail.js:17 | a string without `@` is rejected |
| EmailMiddleware.BracketDomainHasNoRangeCheck | app/middlewares/validateEmail.js:17 | `user@[999.999.999.999]` is accepted |
| EmailMiddleware.NamedDomainEndsInLetters | app/middlewares/validateEmail.js:17 | a domain outside brackets must end in a label of at least two letters |
| AlphaNumeric.ValidateAlphaNumericString | app/utils/validateAlphaNumericString.js:7-18 | accepts exactly the non-empty strings made only of ASCII letters, digits and `_` |
| AlphaNumeric.RejectsOtherCharacters | app/utils/validateAlphaNumericString.js:14 | any other character anywhere rejects the string: white space, punctuation, non-ASCII letters |
| AlphaNumeric.RejectsPadding | app/utils/validateAlphaNumericString.js:14 | surrounding blanks are not trimmed: a padded string is rejected |
| AlphaNumeric.ConcatenationAccepted | app/utils/validateAlphaNumericString.js:14 | two non-empty strings together pass exactly when each passes on its own |
| RequestBody.ValidateRequestBody | app/middlewares/validateRequestBody.js:6-31 | true exactly when the body has at least one key and every value is truthy; the body is only read |
| RequestBody.FalsyValueRejects | app/middlewares/validateRequestBody.js:19-23 | one falsy value fails the body, whatever the other values are |
| RequestBody.ExtendBody | app/middlewares/validateRequestBody.js:18-25 | adding a key keeps a passing body passing exactly when its value is truthy |
| Models.InsightToJs | app/models/Insight.js:6-13 | an insight as a document has exactly the six schema fields and carries its email and day |
| Models.WithEmail | app/controllers/insight/insight.js:98-100 | the filter returns no more records than it was given, all with the requested email |
| Models.WithEmailCounts | app/controllers/insight/insight.js:98-100 | the filter keeps every record with the email, as often as it occurs, and no other |
| Models.FirstMatch | app/controllers/insight/insight.js:225-228 | the index of the first record matching email and day, or the length when none matches |
| Models.RemoveFirst | app/controllers/insight/insight.js:225-228 | deleting removes one record or none |
| Models.InsightCollection.Find | app/controllers/insight/insight.js:98-100 | a record is listed exactly when it is stored and has the email |
| Models.InsightCollection.Save | app/controllers/insight/processInsight.js:116 | the new record is appended and the others stay |
| Models.InsightCollection.DeleteOne | app/controllers/insight/insight.js:225-228 | the first matching record is removed; the count is 0 exactly when no record matches |
| Models.RemoveFirstRemovesOneMatch | app/controllers/insight/insight.js:225-228 | the collection is unchanged exactly when nothing matches; otherwise one matching record is removed and the rest keep their order |
| Models.RemoveFirstMultiset | app/controllers/insight/insight.js:225-228 | exactly one copy of the matching record disappears and nothing else |
| Models.RemoveFirstKeepsOthers | app/controllers/insight/insight.js:225-228 | other users' records are never touched by a delete |
| Models.DeleteCommutesWithFind | app/controllers/insight/insight.js:225-228 | deleting then listing the caller's insights equals listing then deleting the first match of the day from the list |
| InsightProcessing.Classify | app/controllers/insight/processInsight.js:82-96 | at least 80 or +Infinity gives Great; strictly between 30 and 80 gives Okay; at most 30 or -Infinity gives NeedToImprove; NaN, and only NaN, gives the default |
| InsightProcessing.CommentText | app/controllers/insight/processInsight.js:82-96 | the default comment text belongs to the default class only |
| InsightProcessing.DerivedInsight | app/controllers/insight/processInsight.js:104-111 | email and day are the first task's; the elapsed total is finite; the percentage is NaN exactly when the comment is the default one |
| InsightProcessing.ProcessInsight | app/controllers/insight/processInsight.js:22-124 | a null or empty list or a failed save stores nothing; otherwise exactly one record, the derived insight, is appended |
| InsightProcessing.AccumulateHours | app/controllers/insight/processInsight.js:44-65 | `timeUsed` is the running `+` of the claims; `totalTimeLogged` is the sum of elapsed hours; the two are computed independently |
| InsightProcessing.ClaimStep | app/controllers/insight/processInsight.js:48 | one more claim is added with `+` to the running `timeUsed` of the claims before it |
| InsightProcessing.SpanStep | app/controllers/insight/processInsight.js:55-64 | one more task adds (end - start) / 3600000 to the running `totalTimeLogged` |
| InsightProcessing.TotalIsSum | app/controllers/insight/processInsight.js:44-48 | when every claim is a finite number, `timeUsed` is their sum |
| InsightProcessing.TotalNaN | app/controllers/insight/processInsight.js:48 | one claim that is not a number makes `timeUsed` NaN |
| InsightProcessing.TotalAboveNegInf | app/controllers/insight/processInsight.js:48 | with no NaN and no -Infinity claim, `timeUsed` is neither |
| InsightProcessing.TotalPosInf | app/controllers/insight/processInsight.js:48 | an "Infinity" claim makes `timeUsed` +Infinity unless some claim is NaN or -Infinity |
| InsightProcessing.SpanHoursAppend | app/controllers/insight/processInsight.js:55-64 | elapsed hours of two lists of tasks add up |
| InsightProcessing.SpanHoursIgnoresClaims | app/controllers/insight/processInsight.js:55-64 | elapsed hours depend only on start and end times, never on the claims |
| InsightProcessing.SpanHoursNonNegative | app/controllers/insight/processInsight.js:55-64 | tasks that end no earlier than they start give non-negative hours |
| InsightProcessing.PercentOfFiniteHours | app/controllers/insight/processInsight.js:73-75 | with non-zero elapsed hours the percentage is claimed / elapsed * 100 |
| InsightProcessing.ZeroOverZeroIsDefault | app/controllers/insight/processInsight.js:73-96 | no claims over no time gives 0/0 = NaN and the default comment |
| InsightProcessing.PositiveOverZeroIsGreat | app/controllers/insight/processInsight.js:73-96 | positive claims over no time gives +Infinity and the great comment |
| InsightProcessing.NegativeOverZeroNeedsImprovement | app/controllers/insight/processInsight.js:73-96 | negative claims over no time gives -Infinity and the need-to-improve comment |
| InsightProcessing.Boundaries | app/controllers/insight/processInsight.js:84-91 | 80 is great, 30 needs improvement, 50 is okay |
| InsightProcessing.DigitClaim | app/controllers/insight/processInsight.js:48 | a one-digit claim string counts as that many hours |
| InsightProcessing.SampleDayIsGreat | app/controllers/insight/processInsight.js:44-111 | two tasks of 4 h and 2 h claiming 3 h and 2 h give 6 elapsed hours, 5 claimed, 500/6 percent and the great comment |
| InsightController.Failure | app/utils/handleError.js:11-43 | the error envelope for a code and a message has that code, that message, `status: false` and no data |
| InsightController.Reply | app/utils/handleSuccess.js:12-64 | the success envelope for a code, a message and data has that code and message, reports `status: true` whatever status is passed, and carries the data when truthy, else `null` |
| InsightController.GetInsight | app/controllers/insight/insight.js:29-124 | an invalid body email, or one that is not the caller's, gives 401 "Email is either empty or invalid"; a storage failure gives 500; both failures carry `status: false` and no data; otherwise 200 with exactly the caller's insights; the collection is never written |
| InsightController.DeleteInsight | app/controllers/insight/insight.js:139-263 | email gate 401 and blank-day 401 leave the store unchanged and carry `status: false` and no data; a storage failure, or a `dateAdded` that cannot be converted to a stored instant, gives 500 with `status: false`, no data and the store unchanged; otherwise the first record of the caller at the converted instant is removed; none matching gives 404 "Unable to retrieve data" with `status: true`; a removal gives 200 "Data deleted succesfully" |

## Left out

- EmailValidation.ValidateEmail: rejects every non-empty array. JavaScript would first convert it with `String(array)`, and the result can be accepted. Array-to-string conversion is not modelled.
- EmailValidation.ValidateEmailRejectsEmpty: counts arrays among the rejected non-strings, for the same reason.
- EmailMiddleware.ValidateEmail: rejects every non-empty array instead of converting it with `String(array)`.
- EmailMiddleware.RejectsEmpty: counts arrays among the rejected non-strings, for the same reason.
- AlphaNumeric.ValidateAlphaNumericString: rejects every non-empty array instead of converting it with `String(array)`.
- EmailValidation.ValidateEmail: returns false for an object with a truthy `length` and a `toString` key, or for an array holding such an object. In JavaScript `String(email)` throws a TypeError on these values, because no conversion method returns a primitive. Objects are modelled as converting to "[object Object]".
- EmailMiddleware.ValidateEmail: returns false where `String(email)` throws, on the same objects and arrays, for the same reason.
- AlphaNumeric.ValidateAlphaNumericString: returns false where `String(data)` throws, on the same objects and arrays, for the same reason.
- InsightController.GetInsight: answers 401 when the body's email is such an object or array. In JavaScript the throw in `validateEmail` reaches the catch block, which answers 500 "Something went wrong". Both reject the request and leave the store unchanged.
- InsightController.DeleteInsight: answers 401 where JavaScript answers 500, on the same email values and for the same reason. The store is unchanged either way.
- EmailValidation.ValidateEmail: `toLowerCase` is modelled for ASCII letters only. Full Unicode case mapping is not modelled; for example, the Kelvin sign lower-cases to an ASCII `k`.
- EmailMiddleware.ValidateEmail: `toLowerCase` is modelled for ASCII letters only, through the same `AsciiLower`, with the same gap for non-ASCII case mapping.
- Strings are sequences of Unicode scalar values, not UTF-16 code units. The character classes of both expressions treat the two halves of a surrogate pair alike, so the verdicts are unaffected.
- IEEE-754 rounding, overflow to Infinity of huge numerals, and negative zero: numbers are exact reals.
- Date parsing: task start and end times are milliseconds since the epoch, as the Task schema stores them.
- Mongoose persistence details:
  - the String coercion of the numeric insight fields on save;
  - `_id` and `__v`;
  - schema validation errors;
  - asynchronous ordering.
- InsightController.DeleteInsight: Mongoose's conversion of the request's `dateAdded` to a `Date` is the parameter `castDay`. It maps a value to the stored instant it names (for example a date-only string or a millisecond number), or to None when the value cannot be converted. Mongoose's own casting rules are not modelled. Neither are query-operator objects, nor array values: Mongoose casts an array on this non-array path to `$in`, so `dateAdded: [d1, d2]` would delete the caller's first record on either day, which a single `castDay` result cannot express.
- Database and save failures are boolean parameters (`storageOk`, `saveOk`) rather than thrown errors.
- The caller's email, set by the token middleware, is a parameter. A request without a signed-in user is not modelled.
- `logger` calls do nothing in the model.
- RequestBody.ValidateRequestBody visits the keys in any order, not the insertion order of `Object.keys`. The verdict does not depend on the order.
- Sign-in, sign-up, sign-out, the token and password middlewares, `validateRequestJSON`, routes, `app.js`, database connection, and the task and profile stubs are not part of this model. They are wiring, foreign crypto and storage libraries, or stubs with no behaviour.
