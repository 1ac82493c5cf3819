/**
 * Base-10 integer text: `parseInt(s, 10)` as the ID validator uses it, and the
 * decimal rendering `String(n)` that the in-memory store uses for its ids.
 */
module Numbers {
  import opened Base
  import opened JsValues

  predicate IsDigit(c: char) {
    '0' <= c <= '9'
  }

  predicate AllDigits(s: string) {
    forall i :: 0 <= i < |s| ==> IsDigit(s[i])
  }

  function DigitValue(c: char): (d: nat)
    requires IsDigit(c)
    ensures d < 10
  {
    c as int - '0' as int
  }

  function DigitChar(d: nat): (c: char)
    requires d < 10
    ensures IsDigit(c) && DigitValue(c) == d
  {
    ('0' as int + d) as char
  }

  /** The number a string of decimal digits denotes (most significant digit first). */
  function DigitsValue(s: string): nat
    requires AllDigits(s)
  {
    if s == [] then 0 else DigitsValue(s[..|s| - 1]) * 10 + DigitValue(s[|s| - 1])
  }

  /** `String(n)` for a natural number: its shortest decimal digits. */
  function Decimal(n: nat): (s: string)
    ensures |s| > 0 && AllDigits(s)
    ensures s[0] != '0' || n == 0
  {
    if n < 10 then [DigitChar(n)] else Decimal(n / 10) + [DigitChar(n % 10)]
  }

  /** The length of the longest prefix of `s` made of decimal digits. */
  function DigitRun(s: string): (k: nat)
    ensures k <= |s| && AllDigits(s[..k])
    ensures k == |s| || !IsDigit(s[k])
  {
    if |s| > 0 && IsDigit(s[0]) then
      var k := 1 + DigitRun(s[1..]);
      assert s[..k] == [s[0]] + s[1..][..k - 1];
      k
    else 0
  }

  /** The leading digits of `s` as a number; `None` (NaN) when `s` does not start with a digit. */
  function ParseDigits(s: string): (r: Option<nat>)
    ensures r.Some? <==> |s| > 0 && IsDigit(s[0])
  {
    var k := DigitRun(s);
    if k == 0 then None else Some(DigitsValue(s[..k]))
  }

  /** Text that starts a number: a digit, or one sign followed by a digit. */
  predicate StartsNumber(t: string) {
    if |t| > 0 && (t[0] == '-' || t[0] == '+') then |t| > 1 && IsDigit(t[1])
    else |t| > 0 && IsDigit(t[0])
  }

  /** One optional sign, then the leading digits; only a `-` makes the result negative. */
  function ParseSigned(t: string): (r: Option<int>)
    ensures r.Some? <==> StartsNumber(t)
    ensures r.Some? && r.value < 0 ==> t[0] == '-'
    ensures r.Some? && t[0] == '-' ==> r.value <= 0
  {
    if |t| > 0 && t[0] == '-' then
      match ParseDigits(t[1..])
      case None => None
      case Some(m) => Some(-(m as int))
    else if |t| > 0 && t[0] == '+' then
      match ParseDigits(t[1..])
      case None => None
      case Some(m) => Some(m)
    else
      match ParseDigits(t)
      case None => None
      case Some(m) => Some(m)
  }

  /**
   * `parseInt(s, 10)`: skip leading whitespace, accept one optional sign, then read
   * the digits up to the first non-digit. `None` is NaN: after the whitespace the
   * text does not start a number.
   */
  function ParseInt(s: string): (r: Option<int>)
    ensures r.Some? <==> StartsNumber(TrimStart(s))
    ensures r.Some? && r.value < 0 ==> TrimStart(s)[0] == '-'
  {
    ParseSigned(TrimStart(s))
  }

  /** Reading back a decimal rendering gives the number it renders. */
  lemma {:induction false} DigitsValueDecimal(n: nat)
    ensures DigitsValue(Decimal(n)) == n
  {
    if n >= 10 {
      var s := Decimal(n);
      assert s[..|s| - 1] == Decimal(n / 10);
      DigitsValueDecimal(n / 10);
    }
  }

  /** A digit run followed by a non-digit (or nothing) is read up to that point. */
  lemma {:induction false} DigitRunOfDigitsThen(d: string, rest: string)
    requires AllDigits(d)
    requires rest == [] || !IsDigit(rest[0])
    ensures DigitRun(d + rest) == |d|
  {
    if d != [] {
      assert (d + rest)[1..] == d[1..] + rest;
      DigitRunOfDigitsThen(d[1..], rest);
    }
  }

  /** The leading digits of `String(n)` followed by a non-digit (or nothing) read as `n`. */
  lemma ParseDigitsDecimalThen(n: nat, rest: string)
    requires rest == [] || !IsDigit(rest[0])
    ensures ParseDigits(Decimal(n) + rest) == Some(n)
  {
    var d := Decimal(n);
    var s := d + rest;
    DigitRunOfDigitsThen(d, rest);
    assert s[..|d|] == d;
    DigitsValueDecimal(n);
  }

  /**
   * `parseInt` stops at the first non-digit: the decimal digits of `n` followed
   * by any text that does not continue the digits parse as `n` (`"12abc"` gives 12).
   */
  lemma ParseIntDecimalThen(n: nat, rest: string)
    requires rest == [] || !IsDigit(rest[0])
    ensures ParseInt(Decimal(n) + rest) == Some(n)
  {
    var s := Decimal(n) + rest;
    assert s[0] == Decimal(n)[0] && IsDigit(s[0]);
    assert !IsSpace(s[0]);
    assert TrimStart(s) == s;
    ParseDigitsDecimalThen(n, rest);
  }

  /** One sign in front of a run that reads as `n`: `-` negates it, `+` keeps it. */
  lemma ParseIntSignThen(sign: char, d: string, n: nat)
    requires sign == '-' || sign == '+'
    requires ParseDigits(d) == Some(n)
    ensures ParseInt([sign] + d) == Some(if sign == '-' then -(n as int) else n)
  {
    var s := [sign] + d;
    assert s[0] == sign && s[1..] == d;
    assert !IsSpace(sign);
    assert TrimStart(s) == s;
  }

  /** A sign in front of the digits: `-` negates the number read, `+` keeps it (`"-5"` gives -5). */
  lemma ParseIntSignedDecimalThen(n: nat, rest: string)
    requires rest == [] || !IsDigit(rest[0])
    ensures ParseInt("-" + Decimal(n) + rest) == Some(-(n as int))
    ensures ParseInt("+" + Decimal(n) + rest) == Some(n)
  {
    var d := Decimal(n) + rest;
    ParseDigitsDecimalThen(n, rest);
    assert "-" + Decimal(n) + rest == ['-'] + d;
    assert "+" + Decimal(n) + rest == ['+'] + d;
    ParseIntSignThen('-', d, n);
    ParseIntSignThen('+', d, n);
  }

  /** Text made only of digits reads as the number those digits denote (`"012"` gives 12). */
  lemma ParseIntAllDigits(s: string)
    requires |s| > 0 && AllDigits(s)
    ensures ParseInt(s) == Some(DigitsValue(s))
  {
    assert IsDigit(s[0]) && !IsSpace(s[0]);
    assert TrimStart(s) == s;
    DigitRunOfDigitsThen(s, []);
    assert s + [] == s && s[..|s|] == s;
  }

  /** Round trip: `parseInt(String(n), 10) === n` for every natural number. */
  lemma ParseIntDecimal(n: nat)
    ensures ParseInt(Decimal(n)) == Some(n)
  {
    ParseIntDecimalThen(n, []);
    assert Decimal(n) + [] == Decimal(n);
  }

  /** Removing leading whitespace is insensitive to extra whitespace in front. */
  lemma {:induction false} TrimStartBlankPrefix(w: string, s: string)
    requires Blank(w)
    ensures TrimStart(w + s) == TrimStart(s)
  {
    if w == [] {
      assert w + s == s;
    } else {
      assert (w + s)[0] == w[0];
      assert (w + s)[1..] == w[1..] + s;
      TrimStartBlankPrefix(w[1..], s);
    }
  }

  /** Leading whitespace never changes what `parseInt` reads. */
  lemma ParseIntSkipsSpace(w: string, s: string)
    requires Blank(w)
    ensures ParseInt(w + s) == ParseInt(s)
  {
    TrimStartBlankPrefix(w, s);
  }

  /** Text whose first non-blank character is neither a digit nor a sign parses to NaN (`"abc"`). */
  lemma ParseIntNoDigits(s: string)
    requires var t := TrimStart(s); t == [] || (!IsDigit(t[0]) && t[0] != '-' && t[0] != '+')
    ensures ParseInt(s) == None
  {
  }

  /** Distinct natural numbers have distinct decimal renderings. */
  lemma DecimalInjective(m: nat, n: nat)
    requires Decimal(m) == Decimal(n)
    ensures m == n
  {
    DigitsValueDecimal(m);
    DigitsValueDecimal(n);
  }
}
