/** The word check of app/utils/validateAlphaNumericString.js: a non-empty
    string matching `^\w+$`. */
module AlphaNumeric {
  import opened JsValues

  /** `\w` without the `u` flag: ASCII letters, digits and `_`. */
  predicate IsWordChar(c: char) {
    ('a' <= c <= 'z') || ('A' <= c <= 'Z') || ('0' <= c <= '9') || c == '_'
  }

  /** `^\w+$` read literally: one or more word characters and nothing else. */
  predicate IsWord(s: string) {
    |s| >= 1 && forall i :: 0 <= i < |s| ==> IsWordChar(s[i])
  }

  /** `validateAlphaNumericString(data)`: `data && data.length`, then the
      string tested as given, without trimming or case folding. */
  function ValidateAlphaNumericString(data: JsValue): (ok: bool)
    ensures ok <==> data.Str? && IsWord(data.s)
  {
    if !Truthy(data) then false
    else
      match data
      case Str(s) => forall i :: 0 <= i < |s| ==> IsWordChar(s[i])
      // numbers and booleans have no `length`; "[object Object]" holds a space
      case _ => false
  }

  /** A character other than an ASCII letter, digit or `_` anywhere in the
      string rejects it: whitespace, punctuation and non-ASCII letters alike. */
  lemma RejectsOtherCharacters(s: string, i: nat)
    requires i < |s| && !IsWordChar(s[i])
    ensures !ValidateAlphaNumericString(Str(s))
  {
  }

  /** In particular surrounding blanks are not trimmed away. */
  lemma RejectsPadding(s: string)
    ensures !ValidateAlphaNumericString(Str(" " + s))
    ensures !ValidateAlphaNumericString(Str(s + " "))
  {
    RejectsOtherCharacters(" " + s, 0);
    RejectsOtherCharacters(s + " ", |s|);
  }

  /** Accepted strings are closed under concatenation, and every non-empty
      piece of an accepted string is accepted. */
  lemma {:induction false} ConcatenationAccepted(a: string, b: string)
    requires a != [] && b != []
    ensures ValidateAlphaNumericString(Str(a + b)) <==>
      ValidateAlphaNumericString(Str(a)) && ValidateAlphaNumericString(Str(b))
  {
    var s := a + b;
    assert forall i :: 0 <= i < |a| ==> s[i] == a[i];
    assert forall i :: 0 <= i < |b| ==> s[|a| + i] == b[i];
    if IsWord(a) && IsWord(b) {
      forall i | 0 <= i < |s| ensures IsWordChar(s[i]) {
        if i >= |a| {
          assert s[i] == b[i - |a|];
        }
      }
    }
  }
}
