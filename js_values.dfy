/** The JavaScript values the core handles, with the language's own rules
    for truthiness (`if (v)`, `a || b`), for `Number(v)` and for arithmetic
    and comparison on numbers. */
module JsValues {
  import opened Text

  /** A JavaScript number. Finite values are exact reals: the model does not
      round to IEEE-754 doubles. Negative zero is not represented; in the
      computations modelled every zero that reaches a division or a `||` is
      positive (sums start at +0, and x + (-x) is +0). */
  datatype Number = Finite(r: real) | PosInf | NegInf | NaN

  /** A JSON-like JavaScript value. `Obj` is a plain object, taken to convert
      to "[object Object]" (a `toString` or `valueOf` key is not modelled),
      `Arr` an array. */
  datatype JsValue =
    | Undefined
    | Null
    | Bool(b: bool)
    | Num(n: Number)
    | Str(s: string)
    | Arr(items: seq<JsValue>)
    | Obj(props: map<string, JsValue>)

  /** `o[key]` on a plain object: a missing property reads as `undefined`. */
  function Get(o: map<string, JsValue>, key: string): JsValue {
    if key in o then o[key] else Undefined
  }

  /** JavaScript's ToBoolean: `false`, `0`, `NaN`, `""`, `null` and `undefined`
      are falsy; every object and array is truthy. */
  predicate Truthy(v: JsValue) {
    match v
    case Undefined => false
    case Null => false
    case Bool(b) => b
    case Num(n) => n != Finite(0.0) && n != NaN
    case Str(s) => s != []
    case Arr(_) => true
    case Obj(_) => true
  }

  /** `a || b`: the left operand when it is truthy, the right one otherwise;
      so the result is truthy exactly when either operand is. */
  function Or(a: JsValue, b: JsValue): (r: JsValue)
    ensures r == a || r == b
    ensures Truthy(r) <==> Truthy(a) || Truthy(b)
    ensures Truthy(a) ==> r == a
    ensures !Truthy(a) ==> r == b
  {
    if Truthy(a) then a else b
  }

  predicate IsPositive(n: Number) {
    n.PosInf? || (n.Finite? && n.r > 0.0)
  }

  predicate IsZero(n: Number) {
    n.Finite? && n.r == 0.0
  }

  /** The `+` operator on two numbers. */
  function Add(a: Number, b: Number): Number {
    if a.NaN? || b.NaN? then NaN
    else if (a.PosInf? && b.NegInf?) || (a.NegInf? && b.PosInf?) then NaN
    else if a.PosInf? || b.PosInf? then PosInf
    else if a.NegInf? || b.NegInf? then NegInf
    else Finite(a.r + b.r)
  }

  /** The `*` operator on two numbers. */
  function Mul(a: Number, b: Number): Number {
    if a.NaN? || b.NaN? then NaN
    else if a.Finite? && b.Finite? then Finite(a.r * b.r)
    else if IsZero(a) || IsZero(b) then NaN
    else if IsPositive(a) == IsPositive(b) then PosInf
    else NegInf
  }

  /** The `/` operator on two numbers; a zero divisor is +0. */
  function Div(a: Number, b: Number): (r: Number)
    ensures IsZero(a) && IsZero(b) ==> r.NaN?
    ensures a.Finite? && a.r > 0.0 && IsZero(b) ==> r.PosInf?
    ensures a.Finite? && b.Finite? && b.r != 0.0 ==> r == Finite(a.r / b.r)
  {
    if a.NaN? || b.NaN? then NaN
    else if !a.Finite? && !b.Finite? then NaN
    else if !b.Finite? then Finite(0.0)
    else if b.r == 0.0 then
      (if IsZero(a) then NaN else if IsPositive(a) then PosInf else NegInf)
    else if a.Finite? then Finite(a.r / b.r)
    else if IsPositive(a) == (b.r > 0.0) then PosInf
    else NegInf
  }

  /** The `<` operator on two numbers: false whenever either side is NaN. */
  predicate Less(a: Number, b: Number) {
    if a.NaN? || b.NaN? || a == b then false
    else a.NegInf? || b.PosInf? || (a.Finite? && b.Finite? && a.r < b.r)
  }

  /** The `<=` operator on two numbers: false whenever either side is NaN. */
  predicate AtMost(a: Number, b: Number) {
    !a.NaN? && !b.NaN? && (a == b || Less(a, b))
  }

  /** Comparison is a total order on the numbers other than NaN. */
  lemma LessTrichotomy(a: Number, b: Number)
    requires !a.NaN? && !b.NaN?
    ensures Less(a, b) || a == b || Less(b, a)
    ensures !(Less(a, b) && Less(b, a))
  {
  }

  /** Comparison is transitive, NaN included (nothing is less than NaN). */
  lemma LessTransitive(a: Number, b: Number, c: Number)
    ensures Less(a, b) && Less(b, c) ==> Less(a, c)
  {
  }

  // ---- Number(v) -------------------------------------------------------

  /** WhiteSpace and LineTerminator of ECMAScript: the characters that
      `Number(string)` trims and that the regular-expression class `\s` holds. */
  predicate IsJsWhitespace(c: char) {
    c == '\t' || c == '\n' || c == '\U{B}' || c == '\U{C}' || c == '\r' || c == ' ' ||
    c == '\U{A0}' || c == '\U{1680}' || ('\U{2000}' <= c <= '\U{200A}') ||
    c == '\U{2028}' || c == '\U{2029}' || c == '\U{202F}' || c == '\U{205F}' ||
    c == '\U{3000}' || c == '\U{FEFF}'
  }

  predicate IsDecimalDigit(c: char) {
    '0' <= c <= '9'
  }

  /** The value of a digit character in base 16 (letters in either case). */
  function DigitValue(c: char): nat {
    if '0' <= c <= '9' then (c - '0') as nat
    else if 'a' <= c <= 'f' then (c - 'a') as nat + 10
    else if 'A' <= c <= 'F' then (c - 'A') as nat + 10
    else 0
  }

  predicate IsDigitIn(c: char, radix: nat) {
    (IsDecimalDigit(c) || ('a' <= c <= 'f') || ('A' <= c <= 'F')) && DigitValue(c) < radix
  }

  predicate AllDigitsIn(s: string, radix: nat) {
    forall i :: 0 <= i < |s| ==> IsDigitIn(s[i], radix)
  }

  /** The value of a numeral, most significant digit first. */
  function DigitsValue(s: string, radix: nat): nat {
    if s == [] then 0
    else DigitsValue(s[..|s| - 1], radix) * radix + DigitValue(s[|s| - 1])
  }

  function Pow10(e: nat): (r: real)
    ensures r >= 1.0
  {
    if e == 0 then 1.0 else 10.0 * Pow10(e - 1)
  }

  /** 10 raised to an integer exponent. */
  function Scale(e: int): (r: real)
    ensures r > 0.0
  {
    if e >= 0 then Pow10(e) else 1.0 / Pow10(-e)
  }

  /** The radix a `0x` / `0o` / `0b` prefix letter selects, or 0 for none. */
  function PrefixRadix(c: char): nat {
    if c == 'x' || c == 'X' then 16
    else if c == 'o' || c == 'O' then 8
    else if c == 'b' || c == 'B' then 2
    else 0
  }

  /** An optionally signed run of decimal digits (the exponent of a literal). */
  function SignedInteger(s: string): Option<int> {
    if s != [] && (s[0] == '+' || s[0] == '-') then
      if |s| >= 2 && AllDigitsIn(s[1..], 10) then
        Some(if s[0] == '-' then -(DigitsValue(s[1..], 10) as int) else DigitsValue(s[1..], 10) as int)
      else None
    else if s != [] && AllDigitsIn(s, 10) then Some(DigitsValue(s, 10) as int)
    else None
  }

  datatype Option<T> = None | Some(value: T)

  /** `digits[.digits][e[sign]digits]` or `.digits[e[sign]digits]`, without a sign. */
  function UnsignedDecimal(u: string): Option<real> {
    var k := IndexOfExponentMark(u);
    var exponent := if k == |u| then Some(0) else SignedInteger(u[k + 1..]);
    var mantissa := Split(u[..k], '.');
    if exponent.None? || |mantissa| > 2 then None
    else
      var whole := mantissa[0];
      var fraction := if |mantissa| == 2 then mantissa[1] else [];
      if |whole| + |fraction| == 0 || !AllDigitsIn(whole, 10) || !AllDigitsIn(fraction, 10) then None
      else
        Some(((DigitsValue(whole, 10) as real) + (DigitsValue(fraction, 10) as real) / Pow10(|fraction|))
             * Scale(exponent.value))
  }

  /** Index of the first `e` or `E`, or `|s|` when there is none. */
  function IndexOfExponentMark(s: string): (i: nat)
    ensures i <= |s|
    ensures i < |s| ==> s[i] == 'e' || s[i] == 'E'
    ensures forall j :: 0 <= j < i ==> s[j] != 'e' && s[j] != 'E'
  {
    if s == [] then 0
    else if s[0] == 'e' || s[0] == 'E' then 0
    else 1 + IndexOfExponentMark(s[1..])
  }

  /** A trimmed, non-empty StringNumericLiteral, or NaN. */
  function NumericLiteral(t: string): Number {
    if |t| >= 3 && t[0] == '0' && PrefixRadix(t[1]) != 0 then
      if AllDigitsIn(t[2..], PrefixRadix(t[1])) then Finite(DigitsValue(t[2..], PrefixRadix(t[1])) as real)
      else NaN
    else
      var negative := t != [] && t[0] == '-';
      var u := if t != [] && (t[0] == '-' || t[0] == '+') then t[1..] else t;
      if u == "Infinity" then (if negative then NegInf else PosInf)
      else match UnsignedDecimal(u)
        case None => NaN
        case Some(v) => Finite(if negative then -v else v)
  }

  /** `Number(s)` for a string: white space around the literal is ignored,
      and an empty or blank string is 0. */
  function StringToNumber(s: string): Number
    decreases |s| + 1, 0
  {
    if s != [] && IsJsWhitespace(s[0]) then ToNumber(Str(s[1..]))
    else if s != [] && IsJsWhitespace(s[|s| - 1]) then ToNumber(Str(s[..|s| - 1]))
    else if s == [] then Finite(0.0)
    else NumericLiteral(s)
  }

  /** A bound on the conversions `Number(v)` goes through. */
  function ConversionDepth(v: JsValue): nat {
    match v
    case Str(s) => |s| + 1
    case Arr(items) => if |items| == 1 then 1 + ConversionDepth(items[0]) else 1
    case _ => 1
  }

  /** `Number(v)`. An array converts through its comma-joined string form, so
      `[]` is 0, a one-element array converts as its element, and a longer one
      is NaN (its string form holds a comma). */
  function ToNumber(v: JsValue): Number
    decreases ConversionDepth(v), 1
  {
    match v
    case Undefined => NaN
    case Null => Finite(0.0)
    case Bool(b) => Finite(if b then 1.0 else 0.0)
    case Num(n) => n
    case Str(s) => StringToNumber(s)
    case Arr(items) =>
      if |items| == 0 then Finite(0.0)
      else if |items| > 1 then NaN
      else (match items[0]
            case Undefined => Finite(0.0)
            case Null => Finite(0.0)
            case Bool(_) => NaN
            case _ => ToNumber(items[0]))
    case Obj(_) => NaN
  }

  /** A blank string, however long, is 0. */
  lemma {:induction false} BlankIsZero(s: string)
    requires forall i :: 0 <= i < |s| ==> IsJsWhitespace(s[i])
    ensures StringToNumber(s) == Finite(0.0)
    decreases |s|
  {
    if s != [] {
      BlankIsZero(s[1..]);
    }
  }

  /** Leading white space does not change the value. */
  lemma {:induction false} LeadingBlanksIgnored(w: string, s: string)
    requires forall i :: 0 <= i < |w| ==> IsJsWhitespace(w[i])
    ensures StringToNumber(w + s) == StringToNumber(s)
    decreases |w|
  {
    if w != [] {
      assert (w + s)[0] == w[0];
      assert (w + s)[1..] == w[1..] + s;
      assert StringToNumber(w + s) == ToNumber(Str(w[1..] + s));
      assert ToNumber(Str(w[1..] + s)) == StringToNumber(w[1..] + s);
      LeadingBlanksIgnored(w[1..], s);
    } else {
      assert w + s == s;
    }
  }

  // ---- decimal numerals -------------------------------------------------

  /** The decimal numeral of a natural number, without leading zeros. */
  function DecimalString(n: nat): (s: string)
    ensures |s| >= 1 && AllDigitsIn(s, 10)
    ensures |s| > 1 ==> s[0] != '0'
  {
    if n < 10 then ['0' + n as char]
    else DecimalString(n / 10) + ['0' + (n % 10) as char]
  }

  lemma {:induction false} DecimalStringValue(n: nat)
    ensures DigitsValue(DecimalString(n), 10) == n
  {
    var s := DecimalString(n);
    if n >= 10 {
      DecimalStringValue(n / 10);
      assert s[..|s| - 1] == DecimalString(n / 10);
    }
  }

  /** A plain run of decimal digits reads as its value. */
  lemma {:induction false} UnsignedDecimalOfDigits(s: string)
    requires |s| >= 1 && AllDigitsIn(s, 10)
    ensures UnsignedDecimal(s) == Some(DigitsValue(s, 10) as real)
  {
    assert IndexOfExponentMark(s) == |s| by {
      forall j | 0 <= j < |s| ensures s[j] != 'e' && s[j] != 'E' {
        assert IsDigitIn(s[j], 10);
      }
    }
    assert s[..|s|] == s;
    assert IndexOf(s, '.') == |s| by {
      forall j | 0 <= j < |s| ensures s[j] != '.' {
        assert IsDigitIn(s[j], 10);
      }
    }
    assert Split(s, '.') == [s];
    assert DigitsValue([], 10) == 0;
  }

  /** An unsigned numeral without prefix reads as its decimal value. */
  lemma NumericLiteralOfDigits(t: string)
    requires |t| >= 1 && AllDigitsIn(t, 10)
    requires |t| > 1 ==> t[0] != '0'
    ensures NumericLiteral(t) == Finite(DigitsValue(t, 10) as real)
  {
    assert IsDigitIn(t[0], 10);
    assert !(|t| >= 3 && t[0] == '0');
    assert t[0] != '-' && t[0] != '+';
    assert t != "Infinity";
    UnsignedDecimalOfDigits(t);
  }

  /** A numeral has no white space around it, so `Number` parses it as a literal. */
  lemma DigitsAreLiteral(s: string)
    requires |s| >= 1 && AllDigitsIn(s, 10)
    ensures StringToNumber(s) == NumericLiteral(s)
  {
    assert IsDigitIn(s[0], 10) && IsDigitIn(s[|s| - 1], 10);
    assert !IsJsWhitespace(s[0]) && !IsJsWhitespace(s[|s| - 1]);
  }

  /** `Number` reads back the decimal numeral of every natural number. */
  lemma NumberOfDecimalString(n: nat)
    ensures StringToNumber(DecimalString(n)) == Finite(n as real)
  {
    var s := DecimalString(n);
    DigitsAreLiteral(s);
    NumericLiteralOfDigits(s);
    DecimalStringValue(n);
  }
}
