/** The Python built-ins the traffic filter leans on: `str()` and `int()` between integers
    and text, `str.lower()`, the ordering `<` on `str`, the truthiness of an optional text,
    and the one exception that `int()` can raise on the values the core handles. */
module PyBuiltins {

  datatype Option<+T> = None | Some(value: T)

  /** The only exception the core can raise: `int()` applied to text that is not an integer. */
  datatype Exception = ValueError

  /** The outcome of a Python expression: a value, or an exception that propagates. */
  datatype Result<+T> = Ok(value: T) | Raised(error: Exception)

  /** A value held in a record field: a Python `int` or a Python `str`. */
  datatype Value = IntV(i: int) | StrV(s: string)

  /** Python truthiness of an optional text: `None` and `""` are false. */
  predicate Truthy(o: Option<string>)
  {
    o.Some? && o.value != ""
  }

  /** The Python expression `o or default` for an optional text. */
  function OrElse(o: Option<string>, default: string): string
  {
    if Truthy(o) then o.value else default
  }

  // ---------------------------------------------------------------------------
  // Decimal text

  predicate IsDigit(c: char)
  {
    '0' <= c <= '9'
  }

  predicate AllDigits(s: string)
  {
    forall i :: 0 <= i < |s| ==> IsDigit(s[i])
  }

  function DigitValue(c: char): nat
    requires IsDigit(c)
  {
    c as int - '0' as int
  }

  function DigitChar(d: nat): (c: char)
    requires d < 10
    ensures IsDigit(c) && DigitValue(c) == d
  {
    ('0' as int + d) as char
  }

  /** The number a run of decimal digits denotes, most significant digit first. */
  function DigitsValue(s: string): nat
    requires AllDigits(s)
  {
    if s == [] then 0 else 10 * DigitsValue(s[..|s| - 1]) + DigitValue(s[|s| - 1])
  }

  /** The decimal digits of `n` as `str()` writes them; reading them back gives `n`. */
  function NatToDigits(n: nat): (s: string)
    ensures |s| > 0 && AllDigits(s)
    ensures DigitsValue(s) == n
  {
    if n < 10 then
      [DigitChar(n)]
    else
      var s := NatToDigits(n / 10) + [DigitChar(n % 10)];
      assert s[..|s| - 1] == NatToDigits(n / 10);
      s
  }

  /** Python `str()` of an `int`: a minus sign for negative numbers, then the digits. */
  function IntToStr(i: int): string
  {
    if i < 0 then "-" + NatToDigits(-i) else NatToDigits(i)
  }

  /** Python `int()` of a `str`, restricted to an optional sign followed by one or more
      decimal digits; any other text raises ValueError. */
  function ParseInt(s: string): Result<int>
  {
    if |s| > 0 && (s[0] == '-' || s[0] == '+') then
      if |s| > 1 && AllDigits(s[1..]) then
        var magnitude: int := DigitsValue(s[1..]);
        Ok(if s[0] == '-' then -magnitude else magnitude)
      else
        Raised(ValueError)
    else if |s| > 0 && AllDigits(s) then
      Ok(DigitsValue(s))
    else
      Raised(ValueError)
  }

  /** `int(str(i)) == i`: the text `str()` writes for an integer parses back to it. */
  lemma ParseIntOfIntToStr(i: int)
    ensures ParseInt(IntToStr(i)) == Ok(i)
  {
    if i < 0 {
      var s := IntToStr(i);
      assert s[1..] == NatToDigits(-i);
    } else {
      assert IsDigit(NatToDigits(i)[0]);
    }
  }

  /** Two integers have the same `str()` exactly when they are equal. */
  lemma IntToStrInjective(a: int, b: int)
    ensures IntToStr(a) == IntToStr(b) <==> a == b
  {
    ParseIntOfIntToStr(a);
    ParseIntOfIntToStr(b);
  }

  // ---------------------------------------------------------------------------
  // str() and int() of field values

  /** Python `str()` of what `dict.get` returned; a missing value is `None`. */
  function Str(v: Option<Value>): string
  {
    match v
    case None => "None"
    case Some(IntV(i)) => IntToStr(i)
    case Some(StrV(s)) => s
  }

  /** Python `int()` of a field value: an `int` is itself, a `str` is parsed. */
  function Int(v: Value): Result<int>
  {
    match v
    case IntV(i) => Ok(i)
    case StrV(s) => ParseInt(s)
  }

  // ---------------------------------------------------------------------------
  // str.lower()

  function LowerChar(c: char): char
  {
    if 'A' <= c <= 'Z' then (c as int + 32) as char else c
  }

  /** Python `str.lower()` on ASCII letters; other characters are kept. */
  function Lower(s: string): string
  {
    if s == [] then [] else [LowerChar(s[0])] + Lower(s[1..])
  }

  /** Lowering keeps the length. */
  lemma {:induction false} LowerLength(s: string)
    ensures |Lower(s)| == |s|
  {
    if s != [] {
      LowerLength(s[1..]);
    }
  }

  predicate NoCapitals(s: string)
  {
    forall i :: 0 <= i < |s| ==> !('A' <= s[i] <= 'Z')
  }

  /** Text without capital letters is its own lower case. */
  lemma {:induction false} LowerOfNoCapitals(s: string)
    requires NoCapitals(s)
    ensures Lower(s) == s
  {
    if s != [] {
      assert forall i :: 0 <= i < |s[1..]| ==> s[1..][i] == s[i + 1];
      LowerOfNoCapitals(s[1..]);
      assert s == [s[0]] + s[1..];
    }
  }

  /** A capital followed by lower-case text lowers to that text with the capital lowered. */
  lemma LowerOfCapitalised(c: char, s: string)
    requires 'A' <= c <= 'Z' && NoCapitals(s)
    ensures Lower([c] + s) == [LowerChar(c)] + s
    ensures LowerChar(c) == (c as int + 32) as char
  {
    assert ([c] + s)[0] == c && ([c] + s)[1..] == s;
    LowerOfNoCapitals(s);
  }

  // ---------------------------------------------------------------------------
  // The order `<` on str

  /** Python `a < b` on `str`: lexicographic order of code points, a proper prefix first. */
  predicate StrLess(a: string, b: string)
  {
    if a == [] then b != []
    else if b == [] then false
    else if a[0] != b[0] then a[0] < b[0]
    else StrLess(a[1..], b[1..])
  }

  lemma {:induction false} StrLessIrreflexive(a: string)
    ensures !StrLess(a, a)
  {
    if a != [] {
      StrLessIrreflexive(a[1..]);
    }
  }

  lemma {:induction false} StrLessTransitive(a: string, b: string, c: string)
    requires StrLess(a, b) && StrLess(b, c)
    ensures StrLess(a, c)
  {
    if a != [] && b != [] && c != [] && a[0] == b[0] && b[0] == c[0] {
      StrLessTransitive(a[1..], b[1..], c[1..]);
    }
  }

  lemma {:induction false} StrLessTotal(a: string, b: string)
    ensures a == b || StrLess(a, b) || StrLess(b, a)
  {
    if a != [] && b != [] && a[0] == b[0] {
      StrLessTotal(a[1..], b[1..]);
      assert a == [a[0]] + a[1..] && b == [b[0]] + b[1..];
    }
  }
}
