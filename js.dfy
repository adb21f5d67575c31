/**
 * The browser's global parseInt(string) with no radix, as the frontend uses it
 * on select and input values: leading white space, an optional sign, a "0x"
 * prefix for hexadecimal, then the longest run of digits; no digit at all is NaN.
 */
module JsText {
  import opened Options
  import opened Text

  /** StrWhiteSpaceChar: white space and line terminators. */
  predicate IsJsSpace(c: char) {
    c == '\t' || c == '\n' || c == '\U{000B}' || c == '\U{000C}' || c == '\r' || c == ' '
    || c == '\U{00A0}' || c == '\U{1680}' || ('\U{2000}' <= c <= '\U{200A}') || c == '\U{2028}' || c == '\U{2029}'
    || c == '\U{202F}' || c == '\U{205F}' || c == '\U{3000}' || c == '\U{FEFF}'
  }

  function SkipJsSpace(s: string): (r: string)
    ensures |r| <= |s| && r == s[|s| - |r|..]
    ensures r != [] ==> !IsJsSpace(r[0])
  {
    if s != [] && IsJsSpace(s[0]) then SkipJsSpace(s[1..]) else s
  }

  predicate IsRadixDigit(c: char, radix: nat) {
    if radix == 16 then IsDigit(c) || 'a' <= c <= 'f' || 'A' <= c <= 'F' else IsDigit(c)
  }

  function RadixDigitValue(c: char): nat {
    if IsDigit(c) then DigitValue(c)
    else if 'a' <= c <= 'f' then (c as int) - ('a' as int) + 10
    else if 'A' <= c <= 'F' then (c as int) - ('A' as int) + 10
    else 0
  }

  /** The length of the run of digits that starts `s`. */
  function DigitRun(s: string, radix: nat): (n: nat)
    ensures n <= |s|
    ensures forall i :: 0 <= i < n ==> IsRadixDigit(s[i], radix)
    ensures n < |s| ==> !IsRadixDigit(s[n], radix)
  {
    if s != [] && IsRadixDigit(s[0], radix) then 1 + DigitRun(s[1..], radix) else 0
  }

  function RadixValue(s: string, radix: nat): nat {
    if s == [] then 0 else RadixValue(s[..|s| - 1], radix) * radix + RadixDigitValue(s[|s| - 1])
  }

  predicate HexPrefix(u: string) {
    |u| >= 2 && u[0] == '0' && (u[1] == 'x' || u[1] == 'X')
  }

  /** The unsigned part: a "0x" prefix selects radix 16, then the leading digits. */
  function Unsigned(u: string): Option<nat> {
    var body := if HexPrefix(u) then u[2..] else u;
    var radix := if HexPrefix(u) then 16 else 10;
    var n := DigitRun(body, radix);
    if n == 0 then None else Some(RadixValue(body[..n], radix))
  }

  /** parseInt(s); None stands for NaN. Values beyond 2^53 are not rounded. */
  function JsParseInt(s: string): Option<int> {
    var t := SkipJsSpace(s);
    if t != [] && (t[0] == '-' || t[0] == '+') then
      var v := Unsigned(t[1..]);
      if v.None? then None else Some(if t[0] == '-' then -(v.value as int) else v.value)
    else
      var v := Unsigned(t);
      if v.None? then None else Some(v.value)
  }

  /** Decimal digits with no leading "0x" read as their value. */
  lemma DecimalUnsigned(digits: string, rest: string)
    requires digits != [] && AllDigits(digits) && (digits == "0" || digits[0] != '0')
    requires rest == [] || (digits != "0" && !IsDigit(rest[0]))
    ensures Unsigned(digits + rest) == Some(DigitsValue(digits))
  {
    var u := digits + rest;
    assert u[0] == digits[0];
    assert !HexPrefix(u) by {
      if digits == "0" {
        assert u == digits;
      }
    }
    DigitRunPrefix(digits, rest);
    assert u[..|digits|] == digits;
    DecimalRadixValue(digits);
    assert Unsigned(u) == Some(RadixValue(u[..DigitRun(u, 10)], 10));
  }

  lemma {:induction false} DecimalRadixValue(s: string)
    requires AllDigits(s)
    ensures RadixValue(s, 10) == DigitsValue(s)
  {
    if s != [] {
      DecimalRadixValue(s[..|s| - 1]);
    }
  }

  /** A number rendered into an option value is read back by parseInt. */
  lemma JsParseIntOfIntToString(i: int)
    ensures JsParseInt(IntToString(i)) == Some(i)
  {
    if i < 0 {
      NatStringReadsBack(-i);
      SignedDigits(NatToString(-i), -i);
    } else {
      NatStringReadsBack(i);
      UnsignedText(NatToString(i));
    }
  }

  /** A minus sign before a decimal text that reads as n reads as -n. */
  lemma SignedDigits(t: string, n: nat)
    requires Unsigned(t) == Some(n)
    ensures JsParseInt("-" + t) == Some(-(n as int))
  {
    var s := "-" + t;
    assert s[1..] == t;
    SignedText(s);
  }

  /** The decimal rendering of a natural number starts with a digit and reads back as that number. */
  lemma NatStringReadsBack(n: nat)
    ensures IsDigit(NatToString(n)[0]) && Unsigned(NatToString(n)) == Some(n)
  {
    var digits := NatToString(n);
    DigitsValueOfNatToString(n);
    assert digits == "0" || digits[0] != '0' by {
      if |digits| == 1 && digits[0] == '0' {
        assert digits == [digits[0]];
      }
    }
    assert digits + [] == digits;
    DecimalUnsigned(digits, []);
  }

  lemma UnsignedText(s: string)
    requires s != [] && IsDigit(s[0])
    ensures JsParseInt(s) == if Unsigned(s).None? then None else Some(Unsigned(s).value as int)
  {
    assert !IsJsSpace(s[0]);
    assert SkipJsSpace(s) == s;
  }

  lemma SignedText(s: string)
    requires s != [] && s[0] == '-'
    ensures JsParseInt(s) == if Unsigned(s[1..]).None? then None else Some(-(Unsigned(s[1..]).value as int))
  {
    assert !IsJsSpace(s[0]);
    assert SkipJsSpace(s) == s;
  }

  /** The empty placeholder option reads as NaN, and so does any text starting without a digit. */
  lemma JsParseIntNeedsADigit(s: string)
    requires s == [] || s[0] == '.' || ('a' <= s[0] <= 'z' && s[0] != 'x')
    ensures JsParseInt(s) == None
  {
    if s == [] {
      assert SkipJsSpace(s) == [] && DigitRun([], 10) == 0;
    } else {
      assert !IsJsSpace(s[0]);
      assert SkipJsSpace(s) == s;
      assert !HexPrefix(s) && DigitRun(s, 10) == 0;
    }
  }

  /** Only the leading digits count: "3 unidades" and "3.7" read as 3. */
  lemma JsParseIntStopsAtTheFirstNonDigit(digits: string, rest: string)
    requires digits != [] && AllDigits(digits) && digits[0] != '0'
    requires rest == [] || !IsDigit(rest[0])
    ensures JsParseInt(digits + rest) == Some(DigitsValue(digits))
  {
    var s := digits + rest;
    assert s[0] == digits[0];
    UnsignedText(s);
    DecimalUnsigned(digits, rest);
  }

  lemma {:induction false} DigitRunPrefix(digits: string, rest: string)
    requires AllDigits(digits)
    requires rest == [] || !IsDigit(rest[0])
    ensures DigitRun(digits + rest, 10) == |digits|
  {
    if digits == [] {
      assert digits + rest == rest;
    } else {
      assert (digits + rest)[1..] == digits[1..] + rest;
      DigitRunPrefix(digits[1..], rest);
    }
  }
}
