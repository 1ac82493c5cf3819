/**
 * The loose JavaScript values that validators receive from a request body,
 * with the few JavaScript primitives the validators apply to them:
 * truthiness (`!x`), `typeof x === 'string'`, `Number.isInteger`,
 * `String.prototype.trim` and the whitespace set it shares with `\s`.
 */
module JsValues {

  /**
   * A JavaScript value as far as the validators can tell values apart.
   * `Int` is a number for which `Number.isInteger` holds (including -0, read as 0);
   * `Fraction` is any other finite or infinite number; `NaN` is the falsy non-number
   * number; `Object` stands for arrays, objects and functions (all truthy).
   */
  datatype JsValue =
    | Undefined
    | Null
    | Bool(b: bool)
    | Int(i: int)
    | Fraction
    | NaN
    | Str(s: string)
    | Object

  /** JavaScript truthiness: what `if (x)` accepts. */
  predicate Truthy(v: JsValue) {
    match v
    case Undefined => false
    case Null => false
    case NaN => false
    case Bool(b) => b
    case Int(i) => i != 0
    case Fraction => true
    case Str(s) => s != ""
    case Object => true
  }

  /** `x === undefined || x === null`. */
  predicate Nullish(v: JsValue) {
    v.Undefined? || v.Null?
  }

  /** `Number.isInteger(x)`. */
  predicate IsInteger(v: JsValue) {
    v.Int?
  }

  /**
   * ECMAScript WhiteSpace and LineTerminator code points: the characters
   * `trim()` removes and the regular-expression class `\s` matches.
   */
  predicate IsSpace(c: char) {
    || c == '\t' || c == '\n' || c == '\U{000B}' || c == '\U{000C}' || c == '\r'
    || c == ' ' || c == '\U{00A0}' || c == '\U{1680}'
    || ('\U{2000}' <= c <= '\U{200A}')
    || c == '\U{2028}' || c == '\U{2029}' || c == '\U{202F}' || c == '\U{205F}'
    || c == '\U{3000}' || c == '\U{FEFF}'
  }

  /** Every character of `s` is whitespace (so the empty string is blank). */
  predicate Blank(s: string) {
    forall i :: 0 <= i < |s| ==> IsSpace(s[i])
  }

  /** `s` with its leading whitespace removed (`trimStart`, and what `parseInt` skips). */
  function TrimStart(s: string): (r: string)
    ensures |r| <= |s| && r == s[|s| - |r|..]
    ensures Blank(s[..|s| - |r|])
    ensures r == [] || !IsSpace(r[0])
    ensures r == [] <==> Blank(s)
  {
    if |s| > 0 && IsSpace(s[0]) then TrimStart(s[1..]) else s
  }

  /** `s` with its trailing whitespace removed (`trimEnd`). */
  function TrimEnd(s: string): (r: string)
    ensures |r| <= |s| && r == s[..|r|]
    ensures Blank(s[|r|..])
    ensures r == [] || !IsSpace(r[|r| - 1])
    ensures r == [] <==> Blank(s)
  {
    if |s| > 0 && IsSpace(s[|s| - 1]) then TrimEnd(s[..|s| - 1]) else s
  }

  /**
   * `s.trim()`: the longest slice of `s` that neither starts nor ends with
   * whitespace; it is empty exactly when `s` is blank.
   */
  function Trim(s: string): (r: string)
    ensures |r| <= |s|
    ensures r == [] || (!IsSpace(r[0]) && !IsSpace(r[|r| - 1]))
    ensures |r| == 0 <==> Blank(s)
  {
    TrimEnd(TrimStart(s))
  }

  /** A required text field as the validators accept it: a string, not blank, at most `max` long. */
  predicate ValidText(v: JsValue, max: nat) {
    v.Str? && !Blank(v.s) && |v.s| <= max
  }

  /** An optional text field: absent (undefined or null), or a string at most `max` long. */
  predicate OptionalText(v: JsValue, max: nat) {
    Nullish(v) || (v.Str? && |v.s| <= max)
  }

  /** A required numeric identifier: an integer above zero. */
  predicate PositiveInteger(v: JsValue) {
    v.Int? && v.i > 0
  }

  /** An optional positive integer: absent, or an integer above zero. */
  predicate OptionalPositiveInteger(v: JsValue) {
    Nullish(v) || PositiveInteger(v)
  }
}
