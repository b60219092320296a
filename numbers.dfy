/** Integer parsing and printing as JavaScript does them (`parseInt(s, 10)`,
    `parseInt(s)` with no radix, digits in bases 2 to 36, template-literal
    interpolation of integers) and the `Math.floor` /
    `Math.ceil` divisions the application uses. NaN is `None`. */
module Numbers {
  import opened Wrappers
  import Strings

  predicate IsDigit(c: char) {
    '0' <= c <= '9'
  }

  function DigitValue(c: char): (v: nat)
    requires IsDigit(c)
    ensures v < 10
  {
    c as int - '0' as int
  }

  function DigitChar(d: nat): (c: char)
    requires d < 10
    ensures IsDigit(c) && DigitValue(c) == d
  {
    ('0' as int + d) as char
  }

  /** Decimal notation of a natural number, without leading zeros. */
  function NatToString(n: nat): (s: string)
    ensures |s| >= 1
    ensures forall i :: 0 <= i < |s| ==> IsDigit(s[i])
    ensures |s| > 1 ==> s[0] != '0'
    decreases n
  {
    if n < 10 then [DigitChar(n)] else NatToString(n / 10) + [DigitChar(n % 10)]
  }

  /** `String(n)` for an integer. */
  function IntToString(n: int): string {
    if n < 0 then "-" + NatToString(-n) else NatToString(n)
  }

  /** Value of a string of decimal digits, most significant first. */
  function DigitsValue(d: string): nat
    requires forall i :: 0 <= i < |d| ==> IsDigit(d[i])
  {
    if |d| == 0 then 0 else DigitsValue(d[..|d| - 1]) * 10 + DigitValue(d[|d| - 1])
  }

  /** The longest prefix of `s` made of decimal digits. */
  function DigitPrefix(s: string): (d: string)
    ensures d <= s
    ensures forall i :: 0 <= i < |d| ==> IsDigit(s[i])
    ensures |d| < |s| ==> !IsDigit(s[|d|])
  {
    if |s| > 0 && IsDigit(s[0]) then [s[0]] + DigitPrefix(s[1..]) else ""
  }

  /** `parseInt(s, 10)`: skip leading whitespace, read an optional sign and
      the longest run of decimal digits; NaN (`None`) when there is none. */
  function ParseInt(s: string): (r: Option<int>)
    ensures r.None? <==> |DigitPrefix(SignlessTail(Strings.TrimStart(s)))| == 0
  {
    var t := Strings.TrimStart(s);
    var u := SignlessTail(t);
    var d := DigitPrefix(u);
    if |d| == 0 then None
    else if |t| > 0 && t[0] == '-' then Some(0 - DigitsValue(d) as int)
    else Some(DigitsValue(d))
  }

  /** The value of `c` as a digit: `0`-`9`, then the letters of either
      case from 10 to 35. */
  function LetterDigitValue(c: char): (v: Option<nat>)
    ensures v.Some? ==> v.value < 36
    ensures IsDigit(c) <==> v.Some? && v.value < 10
    ensures IsDigit(c) ==> v == Some(DigitValue(c))
  {
    if IsDigit(c) then Some(DigitValue(c))
    else if 'a' <= c <= 'z' then Some(c as int - 'a' as int + 10)
    else if 'A' <= c <= 'Z' then Some(c as int - 'A' as int + 10)
    else None
  }

  /** `c` is a digit of base `radix`. */
  predicate IsRadixDigit(c: char, radix: nat) {
    LetterDigitValue(c).Some? && LetterDigitValue(c).value < radix
  }

  /** Value of a string of base-`radix` digits, most significant first. */
  function RadixValue(d: string, radix: nat): nat
    requires forall i :: 0 <= i < |d| ==> IsRadixDigit(d[i], radix)
  {
    if |d| == 0 then 0
    else
      var last := d[|d| - 1];
      assert IsRadixDigit(last, radix);
      var high := RadixValue(d[..|d| - 1], radix);
      ProductOfNats(high, radix);
      high * radix + LetterDigitValue(last).value
  }

  lemma ProductOfNats(a: nat, b: nat)
    ensures a * b >= 0
  {
  }

  /** The longest prefix of `s` made of base-`radix` digits. */
  function RadixPrefix(s: string, radix: nat): (d: string)
    ensures d <= s
    ensures forall i :: 0 <= i < |d| ==> IsRadixDigit(s[i], radix)
    ensures |d| < |s| ==> !IsRadixDigit(s[|d|], radix)
  {
    if |s| > 0 && IsRadixDigit(s[0], radix) then [s[0]] + RadixPrefix(s[1..], radix) else ""
  }

  /** `s` starts with `0x` or `0X`. */
  predicate HexPrefixed(s: string) {
    |s| >= 2 && s[0] == '0' && (s[1] == 'x' || s[1] == 'X')
  }

  /** `parseInt(s)` with no radix: as `parseInt(s, 10)`, except that a
      `0x` or `0X` after the whitespace and the sign selects base 16 and is
      skipped; NaN (`None`) when no hexadecimal digit follows it. */
  function ParseIntAuto(s: string): (r: Option<int>)
    ensures !HexPrefixed(SignlessTail(Strings.TrimStart(s))) ==> r == ParseInt(s)
    ensures var u := SignlessTail(Strings.TrimStart(s));
      HexPrefixed(u) ==>
        (r.None? <==> |RadixPrefix(u[2..], 16)| == 0)
        && (r.Some? ==> r.value == SignOf(Strings.TrimStart(s)) * RadixValue(RadixPrefix(u[2..], 16), 16))
  {
    var t := Strings.TrimStart(s);
    var u := SignlessTail(t);
    if HexPrefixed(u) then
      var d := RadixPrefix(u[2..], 16);
      if |d| == 0 then None else Some(SignOf(t) * RadixValue(d, 16))
    else ParseInt(s)
  }

  /** `parseInt(raw) || fallback` with no radix: NaN and 0 both give the
      fallback. */
  function ParseIntOr(raw: Option<string>, fallback: int): (r: int)
    ensures fallback != 0 ==> r != 0
    ensures raw.Some? && ParseIntAuto(raw.value).Some? && ParseIntAuto(raw.value).value != 0 ==>
      r == ParseIntAuto(raw.value).value
    ensures raw.None? || ParseIntAuto(raw.value).None? || ParseIntAuto(raw.value) == Some(0) ==>
      r == fallback
  {
    if raw.None? then fallback
    else match ParseIntAuto(raw.value)
      case None => fallback
      case Some(n) => if n == 0 then fallback else n
  }

  /** -1 when `t` starts with a minus sign, otherwise 1. */
  function SignOf(t: string): int {
    if |t| > 0 && t[0] == '-' then -1 else 1
  }

  function SignlessTail(t: string): string {
    if |t| > 0 && (t[0] == '-' || t[0] == '+') then t[1..] else t
  }

  lemma {:induction false} DigitsValueOfNat(n: nat)
    ensures DigitsValue(NatToString(n)) == n
    decreases n
  {
    if n >= 10 {
      var s := NatToString(n);
      DigitsValueOfNat(n / 10);
      assert s[..|s| - 1] == NatToString(n / 10);
    }
  }

  lemma {:induction false} DigitPrefixAllDigits(s: string)
    requires forall i :: 0 <= i < |s| ==> IsDigit(s[i])
    ensures DigitPrefix(s) == s
  {
    if |s| > 0 {
      DigitPrefixAllDigits(s[1..]);
    }
  }

  /** Printing an integer and parsing it back gives the integer. */
  lemma ParseIntOfIntToString(n: int)
    ensures ParseInt(IntToString(n)) == Some(n)
  {
    var m: nat := if n < 0 then -n else n;
    var digits := NatToString(m);
    DigitPrefixAllDigits(digits);
    DigitsValueOfNat(m);
    if n < 0 {
      var s := "-" + digits;
      assert s == IntToString(n);
      NoLeadingWhitespace(s);
      assert SignlessTail(s) == digits;
    } else {
      assert digits == IntToString(n);
      NoLeadingWhitespace(digits);
      assert SignlessTail(digits) == digits;
    }
  }

  /** The decimal form of an integer has no `0x` prefix, so `parseInt`
      reads it back with or without a radix. */
  lemma ParseIntAutoOfIntToString(n: int)
    ensures ParseIntAuto(IntToString(n)) == Some(n)
  {
    ParseIntOfIntToString(n);
    var m: nat := if n < 0 then -n else n;
    var s := IntToString(n);
    var digits := NatToString(m);
    NoLeadingWhitespace(s);
    assert SignlessTail(s) == digits;
    assert !HexPrefixed(digits);
  }

  /** `parseInt("0x" + d + rest) == value of d in base 16` when `rest` does
      not go on with a hexadecimal digit: `parseInt("0x1A") == 26`. */
  lemma ParseIntAutoOfHex(d: string, rest: string)
    requires |d| > 0 && forall i :: 0 <= i < |d| ==> IsRadixDigit(d[i], 16)
    requires |rest| > 0 ==> !IsRadixDigit(rest[0], 16)
    ensures ParseIntAuto("0x" + d + rest) == Some(RadixValue(d, 16))
  {
    var prefix := "0x";
    var s := prefix + (d + rest);
    assert s == "0x" + d + rest;
    assert |prefix| == 2 && s[0] == '0' && s[1] == 'x';
    NoLeadingWhitespace(s);
    assert SignlessTail(s) == s && HexPrefixed(s) && SignOf(s) == 1;
    assert s[|prefix|..] == d + rest;
    RadixPrefixOfConcat(d, rest, 16);
    var v := RadixValue(d, 16);
    assert 1 * v == v;
  }

  lemma {:induction false} RadixPrefixOfConcat(d: string, rest: string, radix: nat)
    requires forall i :: 0 <= i < |d| ==> IsRadixDigit(d[i], radix)
    requires |rest| > 0 ==> !IsRadixDigit(rest[0], radix)
    ensures RadixPrefix(d + rest, radix) == d
  {
    if |d| > 0 {
      assert (d + rest)[1..] == d[1..] + rest;
      RadixPrefixOfConcat(d[1..], rest, radix);
    } else {
      assert d + rest == rest;
    }
  }

  lemma NoLeadingWhitespace(s: string)
    requires |s| > 0 && (s[0] == '-' || IsDigit(s[0]))
    ensures Strings.TrimStart(s) == s
  {
    assert !Strings.IsJsWhitespace(s[0]);
  }

  /** Trailing non-digits are ignored: `parseInt("12px") == 12`. */
  lemma {:induction false} ParseIntIgnoresSuffix(d: string, rest: string)
    requires |d| > 0 && forall i :: 0 <= i < |d| ==> IsDigit(d[i])
    requires |rest| > 0 ==> !IsDigit(rest[0])
    ensures ParseInt(d + rest) == Some(DigitsValue(d))
  {
    var s := d + rest;
    assert Strings.TrimStart(s) == s;
    assert SignlessTail(s) == s;
    DigitPrefixOfConcat(d, rest);
  }

  lemma {:induction false} DigitPrefixOfConcat(d: string, rest: string)
    requires forall i :: 0 <= i < |d| ==> IsDigit(d[i])
    requires |rest| > 0 ==> !IsDigit(rest[0])
    ensures DigitPrefix(d + rest) == d
  {
    if |d| > 0 {
      assert (d + rest)[1..] == d[1..] + rest;
      DigitPrefixOfConcat(d[1..], rest);
    } else {
      assert d + rest == rest;
    }
  }

  /** JavaScript `Math.floor(a / b)` for a positive divisor. */
  function FloorDiv(a: int, b: int): (q: int)
    requires b > 0
    ensures q * b <= a < (q + 1) * b
  {
    a / b
  }

  /** JavaScript `Math.ceil(a / b)` for a non-zero divisor. */
  function CeilDiv(a: int, b: int): (q: int)
    requires b != 0
    ensures b > 0 ==> (q - 1) * b < a <= q * b
    ensures b < 0 ==> q * b <= a < (q - 1) * b
  {
    if b > 0 then -((-a) / b) else -(a / -b)
  }

  /** With `limit > 0` items per page and `total >= 0` items, the item at
      offset `i` sits on page `i / limit + 1`, which is at most
      `ceil(total / limit)`; an empty listing has zero pages. */
  lemma PageCountCoversItems(total: nat, limit: nat, i: nat)
    requires limit > 0 && i < total
    ensures 1 <= i / limit + 1 <= CeilDiv(total, limit)
  {
    var q := CeilDiv(total, limit);
    assert (i / limit) * limit <= i < total <= q * limit;
  }
}
