/** Values of a parsed JSON request body or query, JavaScript truthiness
    over them, and the `Number(...)` conversion used on request values.
    An absent key (`undefined`) is `None` of an `Option<Json>`. */
module Json {
  import opened Wrappers
  import Strings
  import Numbers

  datatype Json =
    | JNull
    | JBool(b: bool)
    | JNum(n: int)            // a number whose value is an integer
    | JNonInt                 // a finite number that is not an integer
    | JStr(s: string)
    | JArr(items: seq<Json>)
    | JObj(fields: map<string, Json>)

  /** JavaScript truthiness of a present value. */
  predicate Truthy(v: Json) {
    match v
    case JNull => false
    case JBool(b) => b
    case JNum(n) => n != 0
    case JNonInt => true
    case JStr(s) => s != ""
    case JArr(_) => true
    case JObj(_) => true
  }

  /** JavaScript truthiness of a possibly `undefined` value. */
  predicate TruthyOpt(v: Option<Json>) {
    v.Some? && Truthy(v.value)
  }

  /** The outcome of `Number(v)`: NaN, an integer, or a number that is
      not an integer (a fraction, or an infinity). */
  datatype NumberValue = NaN | IntVal(i: int) | NonIntVal

  function Pow10(n: nat): (r: nat)
    ensures r >= 1
  {
    if n == 0 then 1 else 10 * Pow10(n - 1)
  }

  /** The base a `0x`, `0o` or `0b` prefix (either case) selects. */
  function PrefixRadix(t: string): (r: Option<nat>)
    ensures r.Some? ==> |t| >= 2 && t[0] == '0' && r.value in {2, 8, 16}
  {
    if |t| < 2 || t[0] != '0' then None
    else if t[1] == 'x' || t[1] == 'X' then Some(16)
    else if t[1] == 'o' || t[1] == 'O' then Some(8)
    else if t[1] == 'b' || t[1] == 'B' then Some(2)
    else None
  }

  /** An exponent part: empty (exponent 0), or `e`/`E`, an optional sign
      and at least one decimal digit; `None` for anything else. */
  function ExponentPart(s: string): (r: Option<int>)
    ensures s == "" ==> r == Some(0)
  {
    if s == "" then Some(0)
    else if s[0] != 'e' && s[0] != 'E' then None
    else
      var v := s[1..];
      var w := Numbers.SignlessTail(v);
      if |w| > 0 && Numbers.DigitPrefix(w) == w then Some(Numbers.SignOf(v) * Numbers.DigitsValue(w))
      else None
  }

  /** An unsigned decimal literal `digits [. digits] [exponent]` or `.
      digits [exponent]`, as its digits' value `m` and the power of ten
      `e` it is scaled by (`m * 10^e`); `None` when `u` is not one. */
  function DecimalLiteral(u: string): (r: Option<(nat, int)>)
  {
    var ip := Numbers.DigitPrefix(u);
    var rest := u[|ip|..];
    var hasPoint := |rest| > 0 && rest[0] == '.';
    var fp := if hasPoint then Numbers.DigitPrefix(rest[1..]) else "";
    var tail := if hasPoint then rest[1 + |fp|..] else rest;
    if |ip| + |fp| == 0 then None
    else match ExponentPart(tail)
      case None => None
      case Some(e) =>
        assert forall i :: 0 <= i < |ip + fp| ==> Numbers.IsDigit((ip + fp)[i]);
        Some((Numbers.DigitsValue(ip + fp), e - |fp|))
  }

  /** `sign * m * 10^e`, classified. */
  function Scaled(sign: int, m: nat, e: int): NumberValue {
    if e >= 0 then IntVal(sign * (m * Pow10(e)))
    else if m % Pow10(-e) == 0 then IntVal(sign * (m / Pow10(-e)))
    else NonIntVal
  }

  /** `Number(s)` for a string (the StringToNumber grammar of ECMAScript):
      surrounding whitespace is ignored and the empty string is 0; a `0x`,
      `0o` or `0b` prefix without a sign introduces a hexadecimal, octal
      or binary integer; otherwise an optional sign comes before
      `Infinity` or a decimal literal. Anything else is NaN. */
  function StringToNumber(s: string): (r: NumberValue)
    ensures Strings.Trim(s) == "" ==> r == IntVal(0)
    ensures var t := Strings.Trim(s);
      PrefixRadix(t).Some? ==>
        (r != NaN <==> |t| > 2 && forall i :: 2 <= i < |t| ==> Numbers.IsRadixDigit(t[i], PrefixRadix(t).value))
    ensures var t := Strings.Trim(s);
      t != "" && PrefixRadix(t).None? ==>
        (r == NonIntVal <== Numbers.SignlessTail(t) == "Infinity")
        && (r == NaN <==> Numbers.SignlessTail(t) != "Infinity" && DecimalLiteral(Numbers.SignlessTail(t)).None?)
  {
    var t := Strings.Trim(s);
    if t == "" then IntVal(0)
    else match PrefixRadix(t)
      case Some(radix) =>
        var d := t[2..];
        if |d| > 0 && forall i :: 0 <= i < |d| ==> Numbers.IsRadixDigit(d[i], radix) then IntVal(Numbers.RadixValue(d, radix))
        else NaN
      case None =>
        var u := Numbers.SignlessTail(t);
        if u == "Infinity" then NonIntVal
        else match DecimalLiteral(u)
          case None => NaN
          case Some((m, e)) => Scaled(Numbers.SignOf(t), m, e)
  }

  /** `Number(v)` for a JSON value. An array converts through its string
      form: `[]` is 0 and a one-element array converts like its element's
      string form; longer arrays and objects are NaN. */
  function ToNumber(v: Json): (r: NumberValue)
    ensures v.JNull? ==> r == IntVal(0)
    ensures v.JNum? ==> r == IntVal(v.n)
    ensures v.JObj? ==> r == NaN
    ensures v.JBool? ==> r == IntVal(if v.b then 1 else 0)
    ensures v.JNonInt? ==> r == NonIntVal
    ensures v.JStr? ==> r == StringToNumber(v.s)
    ensures v.JArr? && |v.items| == 0 ==> r == IntVal(0)
    ensures v.JArr? && |v.items| > 1 ==> r == NaN
  {
    match v
    case JNull => IntVal(0)
    case JBool(b) => IntVal(if b then 1 else 0)
    case JNum(n) => IntVal(n)
    case JNonInt => NonIntVal
    case JStr(s) => StringToNumber(s)
    case JArr(items) =>
      if |items| == 0 then IntVal(0)
      else if |items| == 1 then ElementToNumber(items[0])
      else NaN
    case JObj(_) => NaN
  }

  /** `Number(String(e))` for an element of a one-element array. */
  function ElementToNumber(e: Json): NumberValue {
    match e
    case JNull => IntVal(0)
    case JBool(_) => NaN
    case JNum(n) => IntVal(n)
    case JNonInt => NonIntVal
    case JStr(s) => StringToNumber(s)
    case JArr(items) =>
      if |items| == 0 then IntVal(0)
      else if |items| == 1 then ElementToNumber(items[0])
      else NaN
    case JObj(_) => NaN
  }

  /** `Number(String(n)) == n`: the decimal form of an integer converts back. */
  lemma StringToNumberOfInt(n: int)
    ensures StringToNumber(Numbers.IntToString(n)) == IntVal(n)
  {
    var m: nat := if n < 0 then -n else n;
    var s := Numbers.IntToString(n);
    var digits := Numbers.NatToString(m);
    IntStringShape(n);
    Numbers.DigitsValueOfNat(m);
    DecimalLiteralOfDigits(digits);
    DecimalStringToNumber(s, m, 0);
    assert Scaled(Numbers.SignOf(s), m, 0) == IntVal(n);
  }

  /** The decimal form of an integer is trimmed, has no base prefix and is
      a sign (for a negative number) before the digits of its magnitude. */
  lemma IntStringShape(n: int)
    ensures var s := Numbers.IntToString(n);
      var digits := Numbers.NatToString(if n < 0 then -n else n);
      Strings.Trim(s) == s && s != "" && PrefixRadix(s).None?
      && Numbers.SignlessTail(s) == digits && digits != "Infinity"
      && Numbers.SignOf(s) == (if n < 0 then -1 else 1)
  {
    var m: nat := if n < 0 then -n else n;
    var s := Numbers.IntToString(n);
    var digits := Numbers.NatToString(m);
    assert s[0] == '-' || Numbers.IsDigit(s[0]);
    assert s[|s| - 1] == digits[|digits| - 1];
    Strings.TrimTrimmed(s);
    assert Numbers.SignlessTail(s) == digits;
    assert |s| < 2 || s[0] != '0' by {
      if n >= 0 && |s| >= 2 {
        assert s == digits && digits[0] != '0';
      }
    }
    assert digits != "Infinity" by {
      assert Numbers.IsDigit(digits[0]);
    }
  }

  /** Exponent notation: `Number("<n>e<k>") == n * 10^k`, so `"1e0"` is 1. */
  lemma StringToNumberOfExponent(n: int, k: nat)
    ensures StringToNumber(Numbers.IntToString(n) + "e" + Numbers.NatToString(k)) == IntVal(n * Pow10(k))
  {
    var m: nat := if n < 0 then -n else n;
    var s := Numbers.IntToString(n) + ("e" + Numbers.NatToString(k));
    assert s == Numbers.IntToString(n) + "e" + Numbers.NatToString(k);
    ExponentStringShape(n, k);
    ExponentLiteral(m, k);
    DecimalStringToNumber(s, m, k);
    SignedProduct(n, m, Pow10(k));
  }

  /** `<m>e<k>` is the decimal literal `m` scaled by `10^k`. */
  lemma ExponentLiteral(m: nat, k: nat)
    ensures DecimalLiteral(Numbers.NatToString(m) + ("e" + Numbers.NatToString(k))) == Some((m, k))
  {
    var digits := Numbers.NatToString(m);
    var kd := Numbers.NatToString(k);
    var exp := "e" + kd;
    Numbers.DigitsValueOfNat(m);
    Numbers.DigitsValueOfNat(k);
    ExponentOfDigits(kd);
    Numbers.DigitPrefixOfConcat(digits, exp);
    DecimalLiteralWithExponent(digits, exp, k);
  }

  /** The decimal form of an integer followed by `e` and the decimal form
      of a natural number is trimmed, has no base prefix, and is the
      integer's sign before its magnitude's digits and the exponent. */
  lemma ExponentStringShape(n: int, k: nat)
    ensures var head := Numbers.IntToString(n);
      var s := head + ("e" + Numbers.NatToString(k));
      var digits := Numbers.NatToString(if n < 0 then -n else n);
      Strings.Trim(s) == s && s != "" && PrefixRadix(s).None?
      && Numbers.SignlessTail(s) == digits + ("e" + Numbers.NatToString(k))
      && Numbers.SignlessTail(s) != "Infinity"
      && Numbers.SignOf(s) == (if n < 0 then -1 else 1)
  {
    var head := Numbers.IntToString(n);
    var kd := Numbers.NatToString(k);
    var exp := "e" + kd;
    var s := head + exp;
    var digits := Numbers.NatToString(if n < 0 then -n else n);
    IntStringShape(n);
    assert s[0] == head[0] && s[|s| - 1] == kd[|kd| - 1];
    assert s[0] == '-' || Numbers.IsDigit(s[0]);
    Strings.TrimTrimmed(s);
    if |head| >= 2 {
      PrefixRadixOfConcat(head, exp);
    } else {
      assert s[1] == 'e';
    }
    SignlessTailOfConcat(head, exp);
    var u := Numbers.SignlessTail(s);
    assert u != "Infinity" by {
      assert u[0] == digits[0];
      assert Numbers.IsDigit(u[0]);
    }
  }

  lemma PrefixRadixOfConcat(a: string, b: string)
    requires |a| >= 2
    ensures PrefixRadix(a + b) == PrefixRadix(a)
  {
    assert (a + b)[0] == a[0] && (a + b)[1] == a[1];
  }

  lemma SignlessTailOfConcat(a: string, b: string)
    requires |a| > 0
    ensures Numbers.SignlessTail(a + b) == Numbers.SignlessTail(a) + b
  {
    if a[0] == '-' || a[0] == '+' {
      assert (a + b)[1..] == a[1..] + b;
    }
  }

  lemma SignedProduct(n: int, m: nat, p: nat)
    requires m == (if n < 0 then -n else n)
    ensures (if n < 0 then -1 else 1) * (m * p) == n * p
  {
    if n < 0 {
      var neg: int := 0 - m as int;
      assert neg == n;
      assert -(m * p) == neg * p;
    }
  }

  /** `e` and a run of decimal digits is an exponent part of their value. */
  lemma ExponentOfDigits(kd: string)
    requires |kd| > 0 && forall i :: 0 <= i < |kd| ==> Numbers.IsDigit(kd[i])
    ensures ExponentPart("e" + kd) == Some(Numbers.DigitsValue(kd))
  {
    Numbers.DigitPrefixAllDigits(kd);
    assert ("e" + kd)[1..] == kd;
    assert Numbers.SignlessTail(kd) == kd;
  }

  /** Digits followed by an exponent part form a decimal literal. */
  lemma DecimalLiteralWithExponent(digits: string, exp: string, k: int)
    requires |digits| > 0 && forall i :: 0 <= i < |digits| ==> Numbers.IsDigit(digits[i])
    requires |exp| > 0 && exp[0] == 'e' && ExponentPart(exp) == Some(k)
    requires Numbers.DigitPrefix(digits + exp) == digits
    ensures DecimalLiteral(digits + exp) == Some((Numbers.DigitsValue(digits), k))
  {
    var u := digits + exp;
    assert u[|digits|..] == exp;
    assert digits + "" == digits;
  }

  /** `Number("0x1A") == 26`, and likewise for `0o` and `0b`: a base
      prefix and at least one digit of that base give the digits' value. */
  lemma StringToNumberOfPrefixed(t: string)
    requires Strings.Trim(t) == t && PrefixRadix(t).Some? && |t| > 2
    requires forall i :: 2 <= i < |t| ==> Numbers.IsRadixDigit(t[i], PrefixRadix(t).value)
    ensures StringToNumber(t) == IntVal(Numbers.RadixValue(t[2..], PrefixRadix(t).value))
  {
  }

  /** `Number("Infinity")`, `Number("+Infinity")` and `Number("-Infinity")`
      are numbers, not NaN, and not integers. */
  lemma StringToNumberOfInfinity(sign: string)
    requires sign == "" || sign == "+" || sign == "-"
    ensures StringToNumber(sign + "Infinity") == NonIntVal
  {
    var word := "Infinity";
    var t := sign + word;
    assert |t| > 0 && t[|t| - 1] == 'y';
    assert t[0] == 'I' || t[0] == '+' || t[0] == '-';
    Strings.TrimTrimmed(t);
    assert Numbers.SignlessTail(t) == word by {
      if sign != "" { assert t[1..] == word; }
    }
    assert PrefixRadix(t).None?;
  }

  /** A trimmed string holding a signed decimal literal converts to its
      scaled value. */
  lemma DecimalStringToNumber(t: string, m: nat, e: int)
    requires Strings.Trim(t) == t && t != "" && PrefixRadix(t).None?
    requires Numbers.SignlessTail(t) != "Infinity" && DecimalLiteral(Numbers.SignlessTail(t)) == Some((m, e))
    ensures StringToNumber(t) == Scaled(Numbers.SignOf(t), m, e)
  {
  }

  /** A run of decimal digits is a decimal literal scaled by 10^0. */
  lemma DecimalLiteralOfDigits(d: string)
    requires |d| > 0 && forall i :: 0 <= i < |d| ==> Numbers.IsDigit(d[i])
    ensures DecimalLiteral(d) == Some((Numbers.DigitsValue(d), 0))
  {
    Numbers.DigitPrefixAllDigits(d);
    assert d[|d|..] == "" && d + "" == d;
  }
}
