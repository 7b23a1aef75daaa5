/** The few JavaScript value semantics the game's bookkeeping depends on:
    the values an identifier can take on the wire, strict (in)equality between
    them, the property key a value becomes when it indexes a plain object, and
    how a property key reads back as an integer registry key. */
module Js {

  datatype Option<T> = None | Some(value: T)

  /** A value as it crosses the socket or sits in a field. Numbers are integers
      here: identifiers, damage and times are whole numbers in this game. */
  datatype JsVal = JsNum(n: int) | JsStr(s: string) | JsNull | JsUndefined

  /** The exceptions a handler can throw before it has finished. */
  datatype JsError = TypeError | ReferenceError

  /** How a handler invocation ends. */
  datatype Outcome = Completed | Threw(error: JsError)

  predicate IsDigit(c: char) {
    '0' <= c <= '9'
  }

  predicate AllDigits(s: string) {
    forall i :: 0 <= i < |s| ==> IsDigit(s[i])
  }

  function DigitChar(d: nat): (c: char)
    requires d < 10
    ensures IsDigit(c)
  {
    ('0' as int + d) as char
  }

  function DigitValue(c: char): (d: nat)
    requires IsDigit(c)
    ensures d < 10 && DigitChar(d) == c
  {
    c as int - '0' as int
  }

  /** `String(n)` for a non-negative integer: its decimal digits, without
      leading zeros. */
  function Decimal(n: nat): (s: string)
    ensures |s| > 0 && AllDigits(s)
  {
    if n < 10 then [DigitChar(n)] else Decimal(n / 10) + [DigitChar(n % 10)]
  }

  /** The property key `v` becomes in `obj[v]`. */
  function ToKey(v: JsVal): string {
    match v
    case JsNum(n) => if n >= 0 then Decimal(n) else "-" + Decimal(-n)
    case JsStr(s) => s
    case JsNull => "null"
    case JsUndefined => "undefined"
  }

  /** A key string that an integer key prints as: digits only, and no leading
      zero unless it is "0" itself. */
  predicate IsCanonicalIndex(s: string) {
    |s| > 0 && AllDigits(s) && (s[0] == '0' ==> |s| == 1)
  }

  /** The value of a string of decimal digits. */
  function DigitsValue(s: string): nat
    requires AllDigits(s)
  {
    if s == [] then 0 else DigitsValue(s[..|s| - 1]) * 10 + DigitValue(s[|s| - 1])
  }

  /** The integer key a property-key string stands for, if any. */
  function IndexOf(s: string): (r: Option<nat>)
    ensures r.Some? <==> IsCanonicalIndex(s)
  {
    if IsCanonicalIndex(s) then Some(DigitsValue(s)) else None
  }

  /** Printing an integer gives a canonical key that reads back as the same integer. */
  lemma {:induction false} DecimalIsCanonical(n: nat)
    ensures IsCanonicalIndex(Decimal(n)) && DigitsValue(Decimal(n)) == n
  {
    var s := Decimal(n);
    if n >= 10 {
      var p := Decimal(n / 10);
      DecimalIsCanonical(n / 10);
      assert s == p + [DigitChar(n % 10)];
      assert s[..|s| - 1] == p;
      assert s[0] == p[0];
    } else {
      assert s[..0] == [];
    }
  }

  /** A canonical key is exactly how its value prints. */
  lemma {:induction false} CanonicalIsDecimal(s: string)
    requires IsCanonicalIndex(s)
    ensures Decimal(DigitsValue(s)) == s
  {
    var last := s[|s| - 1];
    var p := s[..|s| - 1];
    var v := DigitsValue(s);
    if |s| == 1 {
      assert p == [];
      assert s == [last];
    } else {
      assert p[0] == s[0] && s[0] != '0';
      assert IsCanonicalIndex(p);
      CanonicalIsDecimal(p);
      assert v == DigitsValue(p) * 10 + DigitValue(last);
      assert v / 10 == DigitsValue(p) && v % 10 == DigitValue(last);
      assert s == p + [last];
    }
  }

  /** Reading a printed integer key back gives the integer. */
  lemma IndexOfDecimal(n: nat)
    ensures IndexOf(Decimal(n)) == Some(n)
  {
    DecimalIsCanonical(n);
  }

  /** A key that reads back as `n` is the printed form of `n`. */
  lemma DecimalOfIndex(s: string, n: nat)
    requires IndexOf(s) == Some(n)
    ensures Decimal(n) == s
  {
    CanonicalIsDecimal(s);
  }

  /** Distinct integers print as distinct keys. */
  lemma DecimalInjective(a: nat, b: nat)
    requires Decimal(a) == Decimal(b)
    ensures a == b
  {
    IndexOfDecimal(a);
    IndexOfDecimal(b);
  }

  /** A numeric id and its string form index the same property, and neither
      collides with the key that `null` or `undefined` becomes. */
  lemma NumericKeys(n: nat)
    ensures ToKey(JsStr(Decimal(n))) == ToKey(JsNum(n)) == Decimal(n)
    ensures Decimal(n) != ToKey(JsNull) && Decimal(n) != ToKey(JsUndefined)
  {
    assert IsDigit(Decimal(n)[0]);
  }
}
