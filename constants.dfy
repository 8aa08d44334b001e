/** The message strings and property names the core uses
    (constants/constant.js). */
module Constants {

  // Property names of request bodies and records.
  const EMAIL: string := "email"
  const DATE_ADDED: string := "dateAdded"
  /** The cookie that carries the session token. */
  const TIME_TRACKER_TOKEN: string := "access_token"

  // Envelope messages.
  const GENERIC_ERROR_MESSAGE: string := "Something went wrong"
  const GENERIC_SUCCESS_MESSAGE: string := "Operation successful"
  const INVALID_FIELD: string := " is either empty or invalid"
  const REQUIRED_FIELD_BLANK: string := "Required field is blank"
  const DATA_RETRIEVED: string := "Data retrieved succesfully"
  const DATA_DELETED: string := "Data deleted succesfully"
  const UNABLE_TO_RETRIEVE_DATA: string := "Unable to retrieve data"

  // Insight comments.
  const DEFAULT_COMMENT: string := "There is no data, please fillup something to generate insights."
  const GREAT_COMMENT: string := "Well done! You've utilised your time very well. Keep up the good work!"
  const OKAY_COMMENT: string :=
    "You've utilised most of your time, but try to remain focused and try a bit harder next time!"
  const NEED_TO_IMPROVE_COMMENT: string :=
    "Oh, Uh! It looks like you were not able to focus today. You should try harder next time!"

  /** `s.charAt(0).toUpperCase() + s.slice(1)` for an ASCII first letter. */
  function Capitalize(s: string): (r: string)
    ensures |r| == |s| && (s != [] ==> r[1..] == s[1..])
  {
    if s == [] then []
    else if 'a' <= s[0] <= 'z' then [(s[0] as int - 32) as char] + s[1..]
    else s
  }

  /** The message of a request whose email is missing, malformed or not the caller's. */
  function EmailInvalidMessage(): (m: string)
    ensures m == "Email" + INVALID_FIELD
  {
    Capitalize(EMAIL) + INVALID_FIELD
  }
}
